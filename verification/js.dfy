/** The JavaScript semantics the frontend leans on: parsed JSON values,
    truthiness, property reads, string conversion and thrown errors. */
module Js {
  import opened Wrappers

  /** A parsed JSON value; object fields keep their order. */
  datatype Json =
    | JNull
    | JBool(b: bool)
    | JNumber(n: int)
    | JString(s: string)
    | JArray(items: seq<Json>)
    | JObject(fields: seq<(string, Json)>)

  /** A JavaScript exception as the components see it: only `message` is read. */
  datatype JsError = JsError(message: string)

  /** `!!v` (section 7.1.2 of ECMA-262, ToBoolean); `None` is `undefined`. */
  predicate Truthy(v: Option<Json>) {
    match v
    case None => false
    case Some(JNull) => false
    case Some(JBool(b)) => b
    case Some(JNumber(n)) => n != 0
    case Some(JString(s)) => s != ""
    case Some(_) => true
  }

  /** The value of the last field named `key` (`JSON.parse` keeps the last
      of duplicate keys). */
  function LastField(fields: seq<(string, Json)>, key: string): (r: Option<Json>)
    ensures r.Some? <==> exists i :: 0 <= i < |fields| && fields[i].0 == key
    ensures r.Some? ==> exists i :: 0 <= i < |fields| && fields[i] == (key, r.value)
  {
    if |fields| == 0 then None
    else
      var last := fields[|fields| - 1];
      if last.0 == key then Some(last.1)
      else
        var r := LastField(fields[..|fields| - 1], key);
        assert forall i :: 0 <= i < |fields| - 1 ==> fields[..|fields| - 1][i] == fields[i];
        r
  }

  /** The `TypeError` V8 throws when a property of `null` is read. */
  function NullPropertyMessage(key: string): string {
    "Cannot read properties of null (reading '" + key + "')"
  }

  /** `v.key` for a parsed JSON value: reading from `null` throws, an object
      yields its field, and the other values have no such own property (the
      keys read here are neither `length` nor a method name). */
  function Property(v: Json, key: string): (r: Result<Option<Json>, JsError>)
    ensures r.Err? <==> v.JNull?
    ensures r.Err? ==> r.error.message == NullPropertyMessage(key)
    ensures r.Ok? && r.value.Some? ==> v.JObject?
    ensures v.JObject? ==> r == Ok(LastField(v.fields, key))
  {
    match v
    case JNull => Err(JsError(NullPropertyMessage(key)))
    case JObject(fields) => Ok(LastField(fields, key))
    case _ => Ok(None)
  }

  /** `err.message || fallback`. */
  function MessageOr(e: JsError, fallback: string): (r: string)
    ensures r == e.message || r == fallback
    ensures r == "" ==> fallback == ""
  {
    if e.message != "" then e.message else fallback
  }

  function DigitChar(d: nat): char
    requires d < 10
  {
    ('0' as int + d) as char
  }

  /** The decimal form of a natural number, most significant digit first. */
  function NatToDecimal(n: nat): (r: string)
    ensures |r| >= 1
    ensures forall i :: 0 <= i < |r| ==> '0' <= r[i] <= '9'
  {
    if n < 10 then [DigitChar(n)] else NatToDecimal(n / 10) + [DigitChar(n % 10)]
  }

  /** `String(v)` for a JSON value, as `localStorage.setItem` stores it. */
  function ToJsString(v: Json): (r: string)
    ensures v.JString? ==> r == v.s
  {
    match v
    case JNull => "null"
    case JBool(b) => if b then "true" else "false"
    case JNumber(n) => if n < 0 then "-" + NatToDecimal(-n) else NatToDecimal(n)
    case JString(s) => s
    case JArray(items) => JoinItems(items)
    case JObject(_) => "[object Object]"
  }

  /** `Array.prototype.toString`: items converted and joined with commas,
      with `null` items written as nothing. */
  function JoinItems(items: seq<Json>): string
    decreases items, 0
  {
    if |items| == 0 then ""
    else
      var first := if items[0].JNull? then "" else ToJsString(items[0]);
      if |items| == 1 then first else first + "," + JoinItems(items[1..])
  }
}
