/** The backend's `StringArray` column type: `Value` writes a string list in
    the `{a,b,c}` text form and `Scan` reads the database driver's value back.
    Neither quotes nor escapes elements, while the text PostgreSQL itself
    writes for an array (`ArrayOut`) quotes and escapes them; `ScanQuoted`
    is a reader that undoes that. */
module StringArray {
  import opened Wrappers
  import opened Text

  /** What the database driver can hand to `Scan`. */
  datatype DriverValue =
    | NullValue                   // SQL NULL, Go nil
    | BytesValue(text: string)    // a Go []byte holding the array text
    | OtherValue(typeName: string) // any other Go type, named as `%T` prints it

  datatype ScanError =
    | Unsupported(message: string) // the error `Scan` returns
    | SliceOutOfRange              // the run-time panic of `v[1:len(v)-1]` on a text shorter than two
    | Unparsable(text: string)     // a text the quote-aware reader cannot parse

  const UnsupportedPrefix := "unsupported Scan, storing driver.Value type "
  const UnsupportedSuffix := " into type *StringArray"

  /** `StringArray.Value`: the empty list is `{}`, any other list is its
      elements joined by commas inside braces. */
  function Value(a: seq<string>): (r: string)
    ensures |r| >= 2 && r[0] == '{' && r[|r| - 1] == '}'
    ensures r[1..|r| - 1] == Join(a, ',')
  {
    if |a| == 0 then "{}" else "{" + Join(a, ',') + "}"
  }

  /** `StringArray.Scan`. */
  function Scan(v: DriverValue): (r: Result<seq<string>, ScanError>)
    ensures v.NullValue? ==> r == Ok([])
    ensures v.BytesValue? && v.text == "{}" ==> r == Ok([])
    ensures v.OtherValue? ==> r == Err(Unsupported(UnsupportedPrefix + v.typeName + UnsupportedSuffix))
    ensures v.BytesValue? ==> (r.Err? <==> |v.text| < 2)
    ensures r.Ok? && v.BytesValue? && r.value != [] ==>
      |v.text| > 2 && Join(r.value, ',') == v.text[1..|v.text| - 1] && forall e :: e in r.value ==> ',' !in e
    ensures r.Ok? && v.BytesValue? && r.value == [] ==> |v.text| == 2
  {
    match v
    case NullValue => Ok([])
    case BytesValue(text) =>
      if text == "{}" then Ok([])
      else if |text| < 2 then Err(SliceOutOfRange)
      else
        var trimmed := text[1..|text| - 1];
        if |trimmed| > 0 then Ok(Split(trimmed, ',')) else Ok([])
    case OtherValue(typeName) => Err(Unsupported(UnsupportedPrefix + typeName + UnsupportedSuffix))
  }

  /** Reading back what was written gives the same list exactly when no
      element holds a comma and the list is not the single empty string
      (`[""]` is written as `{}`, which reads back as the empty list). */
  lemma ScanValueRoundTrip(a: seq<string>)
    ensures Scan(BytesValue(Value(a))) == Ok(a) <==> a != [""] && forall e :: e in a ==> ',' !in e
  {
    if a != [""] && forall e :: e in a ==> ',' !in e {
      if |a| > 0 {
        SplitJoin(a, ',');
        if |a| > 1 {
          assert Join(a, ',') == a[0] + [','] + Join(a[1..], ',');
        }
        assert Join(a, ',') != "";
      }
    } else if a == [""] {
      assert Value(a) == "{}";
    }
  }

  /** Writing back what was read from a braced text gives the text again. */
  lemma ValueScanRoundTrip(text: string)
    requires |text| >= 2 && text[0] == '{' && text[|text| - 1] == '}'
    ensures Scan(BytesValue(text)).Ok?
    ensures Value(Scan(BytesValue(text)).value) == text
  {
    var inner := text[1..|text| - 1];
    assert text == "{" + inner + "}";
  }

  // ------------------------------------------------ the database's text form

  /** PostgreSQL's `array_isspace`. */
  predicate ArraySpace(c: char) {
    c == ' ' || c == '\t' || c == '\n' || c == '\r' || c == '\U{000B}' || c == '\U{000C}'
  }

  /** The characters `array_out` writes with a backslash before them. */
  predicate Escaped(c: char) {
    c == '"' || c == '\\'
  }

  /** A character that makes `array_out` put its element in double quotes. */
  predicate ForcesQuotes(c: char) {
    Escaped(c) || c == '{' || c == '}' || c == ',' || ArraySpace(c)
  }

  /** Whether `array_out` quotes an element: it is empty, it spells `NULL`
      in any letter case, or it holds a character that forces quotes. */
  predicate NeedsQuotes(e: string) {
    e == "" || Lower(e) == "null" || exists i :: 0 <= i < |e| && ForcesQuotes(e[i])
  }

  /** The element text between the quotes: a backslash before each quote
      and each backslash. */
  function EscapeQuoted(e: string): (r: string)
    ensures |r| >= |e|
  {
    if |e| == 0 then ""
    else (if Escaped(e[0]) then ['\\', e[0]] else [e[0]]) + EscapeQuoted(e[1..])
  }

  function OutElement(e: string): (r: string)
    ensures |r| > 0
  {
    if NeedsQuotes(e) then "\"" + EscapeQuoted(e) + "\"" else e
  }

  function OutElements(a: seq<string>): string
    decreases |a|
  {
    if |a| == 0 then ""
    else if |a| == 1 then OutElement(a[0])
    else OutElement(a[0]) + "," + OutElements(a[1..])
  }

  /** The text PostgreSQL's `array_out` writes for a one-dimensional `text[]`
      value starting at index 1, which is what the driver hands to `Scan` as
      bytes: `{}` for the empty array, otherwise the elements, quoted where
      needed, joined by commas inside braces. */
  function ArrayOut(a: seq<string>): (r: string)
    ensures |r| >= 2 && r[0] == '{' && r[|r| - 1] == '}'
    ensures (forall e :: e in a ==> !NeedsQuotes(e)) ==> r == Value(a)
  {
    PlainOutElements(a);
    "{" + OutElements(a) + "}"
  }

  /** Without quoting, the elements are written as `Value` writes them. */
  lemma {:induction false} PlainOutElements(a: seq<string>)
    ensures (forall e :: e in a ==> !NeedsQuotes(e)) ==> OutElements(a) == Join(a, ',')
    decreases |a|
  {
    if |a| > 1 {
      assert forall e :: e in a[1..] ==> e in a;
      PlainOutElements(a[1..]);
    }
  }

  // ------------------------------------------------ a quote-aware reader

  /** Reads a quoted element after its opening quote, up to the closing
      quote; a backslash takes the next character as it is. Gives the
      element and the text after the closing quote. */
  function ReadQuoted(s: string): (r: Option<(string, string)>)
    ensures r.Some? ==> |r.value.1| < |s|
    decreases |s|
  {
    if |s| == 0 then None
    else if s[0] == '"' then Some(("", s[1..]))
    else if s[0] == '\\' then
      if |s| < 2 then None
      else match ReadQuoted(s[2..])
        case None => None
        case Some(p) => Some(([s[1]] + p.0, p.1))
    else match ReadQuoted(s[1..])
      case None => None
      case Some(p) => Some(([s[0]] + p.0, p.1))
  }

  /** The length of the unquoted element at the start of `s`, which ends
      at the first comma or closing brace. */
  function UnquotedLength(s: string): (n: nat)
    ensures n <= |s|
    decreases |s|
  {
    if |s| == 0 || s[0] == ',' || s[0] == '}' then 0 else 1 + UnquotedLength(s[1..])
  }

  function ReadElement(s: string): (r: Option<(string, string)>)
    ensures r.Some? ==> |r.value.1| <= |s|
  {
    if |s| > 0 && s[0] == '"' then ReadQuoted(s[1..])
    else
      var n := UnquotedLength(s);
      Some((s[..n], s[n..]))
  }

  /** Reads the elements after the opening brace; the closing brace must end
      the text. */
  function ReadElements(s: string): Option<seq<string>>
    decreases |s|
  {
    match ReadElement(s)
    case None => None
    case Some(p) =>
      var rest := p.1;
      if |rest| == 0 then None
      else if rest[0] == ',' then
        match ReadElements(rest[1..])
        case None => None
        case Some(more) => Some([p.0] + more)
      else if rest == "}" then Some([p.0])
      else None
  }

  /** `Scan` as the column needs it (what `pq.StringArray` does): quoted
      elements are unquoted and unescaped, and commas inside quotes do not
      split. */
  function ScanQuoted(v: DriverValue): Result<seq<string>, ScanError> {
    match v
    case NullValue => Ok([])
    case BytesValue(text) =>
      if text == "{}" then Ok([])
      else if |text| < 2 || text[0] != '{' then Err(Unparsable(text))
      else
        (match ReadElements(text[1..])
         case None => Err(Unparsable(text))
         case Some(a) => Ok(a))
    case OtherValue(typeName) => Err(Unsupported(UnsupportedPrefix + typeName + UnsupportedSuffix))
  }

  lemma {:induction false} ReadEscaped(e: string, t: string)
    ensures ReadQuoted(EscapeQuoted(e) + "\"" + t) == Some((e, t))
    decreases |e|
  {
    var s := EscapeQuoted(e) + "\"" + t;
    if |e| == 0 {
      assert s == "\"" + t;
      assert s[1..] == t;
    } else {
      var tail := EscapeQuoted(e[1..]) + "\"" + t;
      ReadEscaped(e[1..], t);
      assert [e[0]] + e[1..] == e;
      if Escaped(e[0]) {
        assert s == ['\\', e[0]] + tail;
        assert s[2..] == tail;
      } else {
        assert s == [e[0]] + tail;
        assert s[1..] == tail;
      }
    }
  }

  lemma {:induction false} UnquotedLengthOf(e: string, t: string)
    requires forall i :: 0 <= i < |e| ==> e[i] != ',' && e[i] != '}'
    requires |t| > 0 && (t[0] == ',' || t[0] == '}')
    ensures UnquotedLength(e + t) == |e|
    decreases |e|
  {
    if |e| == 0 {
      assert e + t == t;
    } else {
      assert (e + t)[1..] == e[1..] + t;
      UnquotedLengthOf(e[1..], t);
    }
  }

  /** An element written by `array_out` and followed by a comma or the
      closing brace reads back as itself. */
  lemma ReadOutElement(e: string, t: string)
    requires |t| > 0 && (t[0] == ',' || t[0] == '}')
    ensures ReadElement(OutElement(e) + t) == Some((e, t))
  {
    if NeedsQuotes(e) {
      ReadOutQuoted(e, t);
    } else {
      ReadOutPlain(e, t);
    }
  }

  lemma ReadOutQuoted(e: string, t: string)
    ensures ReadElement("\"" + EscapeQuoted(e) + "\"" + t) == Some((e, t))
  {
    var s := "\"" + EscapeQuoted(e) + "\"" + t;
    assert s[1..] == EscapeQuoted(e) + "\"" + t;
    ReadEscaped(e, t);
  }

  lemma ReadOutPlain(e: string, t: string)
    requires !NeedsQuotes(e)
    requires |t| > 0 && (t[0] == ',' || t[0] == '}')
    ensures ReadElement(e + t) == Some((e, t))
  {
    assert !ForcesQuotes(e[0]);
    assert forall i :: 0 <= i < |e| ==> !ForcesQuotes(e[i]);
    UnquotedLengthOf(e, t);
    assert (e + t)[..|e|] == e && (e + t)[|e|..] == t;
  }

  /** One step of `ReadElements`: an element followed by a comma, then the
      rest of the list. */
  lemma ReadElementsComma(s: string, e: string, rest: string, more: seq<string>)
    requires ReadElement(s) == Some((e, "," + rest)) && ReadElements(rest) == Some(more)
    ensures ReadElements(s) == Some([e] + more)
  {
    assert ("," + rest)[1..] == rest;
  }

  /** The last step of `ReadElements`: an element followed by the closing brace. */
  lemma ReadElementsLast(s: string, e: string)
    requires ReadElement(s) == Some((e, "}"))
    ensures ReadElements(s) == Some([e])
  {
  }

  lemma ReadOutSingle(e: string)
    ensures ReadElements(OutElements([e]) + "}") == Some([e])
  {
    ReadOutElement(e, "}");
    ReadElementsLast(OutElement(e) + "}", e);
  }

  lemma OutElementsCons(a: seq<string>)
    requires |a| > 1
    ensures OutElements(a) + "}" == OutElement(a[0]) + ("," + (OutElements(a[1..]) + "}"))
  {
    var x, y := OutElement(a[0]), OutElements(a[1..]);
    assert OutElements(a) == x + "," + y;
    Regroup(x, ",", y, "}");
  }

  lemma Regroup<T>(w: seq<T>, x: seq<T>, y: seq<T>, z: seq<T>)
    ensures w + x + y + z == w + (x + (y + z))
  {
  }

  /** The step of the induction: the first element is read, then the rest. */
  lemma ReadOutCons(a: seq<string>)
    requires |a| > 1 && ReadElements(OutElements(a[1..]) + "}") == Some(a[1..])
    ensures ReadElements(OutElements(a) + "}") == Some(a)
  {
    var rest := OutElements(a[1..]) + "}";
    OutElementsCons(a);
    ReadOutElement(a[0], "," + rest);
    ReadElementsComma(OutElement(a[0]) + ("," + rest), a[0], rest, a[1..]);
    assert [a[0]] + a[1..] == a;
  }

  lemma {:induction false} ReadOutElements(a: seq<string>)
    requires |a| > 0
    ensures ReadElements(OutElements(a) + "}") == Some(a)
    decreases |a|
  {
    if |a| == 1 {
      assert a == [a[0]];
      ReadOutSingle(a[0]);
    } else {
      ReadOutElements(a[1..]);
      ReadOutCons(a);
    }
  }




  /** The quote-aware reader gives back every list the database wrote. */
  lemma ScanQuotedRoundTrip(a: seq<string>)
    ensures ScanQuoted(BytesValue(ArrayOut(a))) == Ok(a)
  {
    if |a| > 0 {
      var text := ArrayOut(a);
      assert |OutElements(a)| > 0;
      assert text != "{}";
      assert text[1..] == OutElements(a) + "}";
      ReadOutElements(a);
    }
  }

  // ------------------------------------------------ `Scan` on the database's text

  /** As written, `Scan` reads the database's text back correctly as long
      as no element needs quotes. */
  lemma ScanPlainArrayOut(a: seq<string>)
    ensures (forall e :: e in a ==> !NeedsQuotes(e)) ==> Scan(BytesValue(ArrayOut(a))) == Ok(a)
  {
    if forall e :: e in a ==> !NeedsQuotes(e) {
      forall e | e in a ensures ',' !in e {
        assert forall i :: 0 <= i < |e| ==> e[i] != ',' by {
          assert forall i :: 0 <= i < |e| ==> !ForcesQuotes(e[i]);
        }
      }
      ScanValueRoundTrip(a);
    }
  }

  /** The list a `text[]` column holding `a` reads back as through `Scan`
      (which never fails on the text the database writes). */
  function ReadThroughScan(a: seq<string>): (r: seq<string>)
    ensures (forall e :: e in a ==> !NeedsQuotes(e)) ==> r == a
  {
    ScanPlainArrayOut(a);
    Scan(BytesValue(ArrayOut(a))).value
  }

  /** The same column read through the quote-aware reader: always `a`. */
  function ReadThroughScanQuoted(a: seq<string>): (r: seq<string>)
    ensures r == a
  {
    ScanQuotedRoundTrip(a);
    ScanQuoted(BytesValue(ArrayOut(a))).value
  }

  lemma {:induction false} EscapeQuotedPlain(e: string)
    requires '"' !in e && '\\' !in e
    ensures EscapeQuoted(e) == e
    decreases |e|
  {
    if |e| > 0 {
      assert e[0] in e;
      assert forall c :: c in e[1..] ==> c in e;
      EscapeQuotedPlain(e[1..]);
      assert [e[0]] + e[1..] == e;
    }
  }

  /** As written, an element that needs quotes only for white space or
      braces is read back with the quotes around it. */
  lemma QuotedElementKeepsQuotes(e: string)
    requires NeedsQuotes(e)
    requires '"' !in e && '\\' !in e && ',' !in e
    ensures Scan(BytesValue(ArrayOut([e]))) == Ok(["\"" + e + "\""])
  {
    EscapeQuotedPlain(e);
    var quoted := "\"" + e + "\"";
    assert ArrayOut([e]) == "{" + quoted + "}";
    assert ("{" + quoted + "}")[1..|quoted| + 1] == quoted;
    assert ',' !in quoted;
    SplitJoin([quoted], ',');
  }

  /** A catalogue game whose name holds spaces. */
  const SpacedName := "League of Legends"

  /** That game, connected and read back by `Scan`, comes back wrapped in
      double quotes; the quote-aware reader gives back the name. */
  lemma SpacedNameReadBack()
    ensures Scan(BytesValue(ArrayOut([SpacedName]))) == Ok(["\"" + SpacedName + "\""])
    ensures Scan(BytesValue(ArrayOut([SpacedName]))) != Ok([SpacedName])
    ensures ScanQuoted(BytesValue(ArrayOut([SpacedName]))) == Ok([SpacedName])
  {
    var name := SpacedName;
    SpacedNameNeedsQuotes();
    SpacedNameUnescaped();
    QuotedElementKeepsQuotes(name);
    assert |"\"" + name + "\""| != |name|;
    ScanQuotedRoundTrip([name]);
  }

  lemma SpacedNameNeedsQuotes()
    ensures NeedsQuotes(SpacedName)
  {
    assert ForcesQuotes(SpacedName[6]);
  }

  lemma SpacedNameUnescaped()
    ensures '"' !in SpacedName && '\\' !in SpacedName && ',' !in SpacedName
  {
  }
}
