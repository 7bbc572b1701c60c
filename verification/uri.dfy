/** The query text between the search box and the search handler:
    ECMAScript `encodeURIComponent` (section 19.2.6.5 of ECMA-262) on the
    client, and Go's `url.ParseQuery`/`QueryUnescape` on the server, with
    UTF-8 (RFC 3629) as the byte encoding in between. */
module UriComponent {
  import opened Wrappers
  import opened Text

  type byte = x: int | 0 <= x < 256

  // ------------------------------------------------------------------ UTF-8

  predicate IsContinuation(b: byte) {
    0x80 <= b < 0xC0
  }

  /** The UTF-8 bytes of one scalar value (section 3 of RFC 3629). The
      payload bits are peeled off six at a time. */
  function EncodeScalar(c: char): (r: seq<byte>)
    ensures 1 <= |r| <= 4
    ensures |r| == 1 <==> (c as int) < 0x80
    ensures forall i :: 1 <= i < |r| ==> IsContinuation(r[i])
  {
    var n := c as int;
    if n < 0x80 then [n]
    else
      var q1, r1 := n / 64, n % 64;
      if n < 0x800 then [0xC0 + q1, 0x80 + r1]
      else
        var q2, r2 := q1 / 64, q1 % 64;
        if n < 0x10000 then [0xE0 + q2, 0x80 + r2, 0x80 + r1]
        else
          var q3, r3 := q2 / 64, q2 % 64;
          [0xF0 + q3, 0x80 + r3, 0x80 + r2, 0x80 + r1]
  }

  function Utf8(s: string): seq<byte> {
    if |s| == 0 then [] else EncodeScalar(s[0]) + Utf8(s[1..])
  }

  /** A scalar value: what a `char` can hold. */
  predicate IsScalar(n: int) {
    0 <= n < 0xD800 || 0xE000 <= n < 0x11_0000
  }

  /** Decodes the first scalar of `b`, rejecting overlong forms, surrogates
      and values past U+10FFFF; returns the scalar and the bytes read. */
  function DecodeScalar(b: seq<byte>): (r: Option<(char, nat)>)
    requires |b| > 0
    ensures r.Some? ==> 1 <= r.value.1 <= |b|
  {
    var b0 := b[0] as int;
    if b0 < 0x80 then Some((b0 as char, 1))
    else if 0xC2 <= b0 < 0xE0 && |b| >= 2 && IsContinuation(b[1]) then
      var n := (b0 - 0xC0) * 64 + (b[1] as int - 0x80);
      Some((n as char, 2))
    else if 0xE0 <= b0 < 0xF0 && |b| >= 3 && IsContinuation(b[1]) && IsContinuation(b[2]) then
      var n := ((b0 - 0xE0) * 64 + (b[1] as int - 0x80)) * 64 + (b[2] as int - 0x80);
      if 0x800 <= n && IsScalar(n) then Some((n as char, 3)) else None
    else if 0xF0 <= b0 < 0xF5 && |b| >= 4 && IsContinuation(b[1]) && IsContinuation(b[2]) && IsContinuation(b[3]) then
      var n := (((b0 - 0xF0) * 64 + (b[1] as int - 0x80)) * 64 + (b[2] as int - 0x80)) * 64 + (b[3] as int - 0x80);
      if 0x1_0000 <= n < 0x11_0000 then Some((n as char, 4)) else None
    else None
  }

  function DecodeUtf8(b: seq<byte>): Option<string>
    decreases |b|
  {
    if |b| == 0 then Some("")
    else match DecodeScalar(b)
      case None => None
      case Some((c, k)) =>
        match DecodeUtf8(b[k..])
        case None => None
        case Some(rest) => Some([c] + rest)
  }

  lemma DecodeEncodedScalar(c: char, tail: seq<byte>)
    ensures DecodeScalar(EncodeScalar(c) + tail) == Some((c, |EncodeScalar(c)|))
  {
    var n := c as int;
    var e := EncodeScalar(c);
    var b := e + tail;
    assert b[..|e|] == e;
    if n >= 0x80 {
      var q1, r1 := n / 64, n % 64;
      assert n == q1 * 64 + r1;
      if n >= 0x800 {
        var q2, r2 := q1 / 64, q1 % 64;
        assert q1 == q2 * 64 + r2;
        if n >= 0x1_0000 {
          var q3, r3 := q2 / 64, q2 % 64;
          assert q2 == q3 * 64 + r3;
        }
      }
    }
  }

  /** Decoding undoes encoding. */
  lemma {:induction false} DecodeUtf8RoundTrip(s: string)
    ensures DecodeUtf8(Utf8(s)) == Some(s)
    decreases |s|
  {
    if |s| > 0 {
      var e := EncodeScalar(s[0]);
      DecodeEncodedScalar(s[0], Utf8(s[1..]));
      assert (e + Utf8(s[1..]))[|e|..] == Utf8(s[1..]);
      DecodeUtf8RoundTrip(s[1..]);
      assert [s[0]] + s[1..] == s;
    }
  }

  lemma {:induction false} Utf8Append(a: string, b: string)
    ensures Utf8(a + b) == Utf8(a) + Utf8(b)
    decreases |a|
  {
    if |a| > 0 {
      assert (a + b)[1..] == a[1..] + b;
      Utf8Append(a[1..], b);
    } else {
      assert a + b == b;
    }
  }

  // ------------------------------------------------------------ percent form

  /** The characters `encodeURIComponent` leaves alone (ECMA-262
      uriUnreserved: letters, digits and `- _ . ! ~ * ' ( )`). */
  predicate IsUnreserved(c: char) {
    || ('A' <= c <= 'Z') || ('a' <= c <= 'z') || ('0' <= c <= '9')
    || c in "-_.!~*'()"
  }

  predicate IsHexDigit(c: char) {
    ('0' <= c <= '9') || ('a' <= c <= 'f') || ('A' <= c <= 'F')
  }

  /** Upper-case hex digit, as `encodeURIComponent` writes them. */
  function HexDigit(d: int): (c: char)
    requires 0 <= d < 16
    ensures IsHexDigit(c)
  {
    if d < 10 then ('0' as int + d) as char else ('A' as int + d - 10) as char
  }

  /** Go's `unhex`: either case. */
  function HexValue(c: char): (d: int)
    requires IsHexDigit(c)
    ensures 0 <= d < 16
  {
    if '0' <= c <= '9' then c as int - '0' as int
    else if 'a' <= c <= 'f' then c as int - 'a' as int + 10
    else c as int - 'A' as int + 10
  }

  lemma HexValueOfDigit(d: int)
    requires 0 <= d < 16
    ensures HexValue(HexDigit(d)) == d
  {
  }

  function PercentEncodeBytes(b: seq<byte>): (r: string)
    ensures |r| == 3 * |b|
    ensures forall i :: 0 <= i < |r| ==> r[i] == '%' || IsHexDigit(r[i])
  {
    if |b| == 0 then ""
    else ['%', HexDigit(b[0] / 16), HexDigit(b[0] % 16)] + PercentEncodeBytes(b[1..])
  }

  /** ECMAScript `encodeURIComponent`: unreserved characters are copied,
      every other character becomes `%XX` per byte of its UTF-8 form. */
  function Encode(s: string): (r: string)
    ensures forall i :: 0 <= i < |r| ==> IsUnreserved(r[i]) || r[i] == '%' || IsHexDigit(r[i])
  {
    if |s| == 0 then ""
    else (if IsUnreserved(s[0]) then [s[0]] else PercentEncodeBytes(EncodeScalar(s[0]))) + Encode(s[1..])
  }

  /** `bytes` in front of a successful result; a failure stays one. */
  function Prepend(bytes: seq<byte>, r: Option<seq<byte>>): Option<seq<byte>> {
    if r.None? then None else Some(bytes + r.value)
  }

  /** Go's `QueryUnescape` with the escaped text's own characters taken as
      their UTF-8 bytes: `%XX` (either case) is one byte, `+` is a space,
      a `%` without two hex digits after it is an error. */
  function QueryUnescape(s: string): (r: Option<seq<byte>>)
    ensures ('%' !in s && '+' !in s) ==> r == Some(Utf8(s))
    decreases |s|
  {
    if |s| == 0 then Some([])
    else if s[0] == '%' then
      if |s| >= 3 && IsHexDigit(s[1]) && IsHexDigit(s[2])
      then Prepend([HexValue(s[1]) * 16 + HexValue(s[2])], QueryUnescape(s[3..]))
      else None
    else if s[0] == '+' then Prepend([0x20], QueryUnescape(s[1..]))
    else Prepend(EncodeScalar(s[0]), QueryUnescape(s[1..]))
  }

  /** One `%XX` triple unescapes to its byte. */
  lemma UnescapeTriple(x: byte, t: string)
    ensures QueryUnescape(['%', HexDigit(x / 16), HexDigit(x % 16)] + t) == Prepend([x], QueryUnescape(t))
  {
    var s := ['%', HexDigit(x / 16), HexDigit(x % 16)] + t;
    HexValueOfDigit(x / 16);
    HexValueOfDigit(x % 16);
    assert s[3..] == t;
  }

  lemma PrependTwice(x: seq<byte>, y: seq<byte>, r: Option<seq<byte>>)
    ensures Prepend(x, Prepend(y, r)) == Prepend(x + y, r)
  {
    if r.Some? {
      assert x + (y + r.value) == (x + y) + r.value;
    }
  }

  lemma UnescapeNoPercentBytes(b: seq<byte>, t: string)
    requires |b| == 0
    ensures QueryUnescape(PercentEncodeBytes(b) + t) == Prepend(b, QueryUnescape(t))
  {
    assert PercentEncodeBytes(b) + t == t;
    if QueryUnescape(t).Some? {
      assert b + QueryUnescape(t).value == QueryUnescape(t).value;
    }
  }

  lemma PercentBytesFirstTriple(b: seq<byte>, t: string)
    requires |b| > 0
    ensures QueryUnescape(PercentEncodeBytes(b) + t) ==
      QueryUnescape(['%', HexDigit(b[0] / 16), HexDigit(b[0] % 16)] + (PercentEncodeBytes(b[1..]) + t))
  {
    assert PercentEncodeBytes(b) + t ==
      ['%', HexDigit(b[0] / 16), HexDigit(b[0] % 16)] + (PercentEncodeBytes(b[1..]) + t);
  }

  /** Unescaping distributes over a prefix of escaped bytes. */
  lemma {:induction false} UnescapePercentBytes(b: seq<byte>, t: string)
    ensures QueryUnescape(PercentEncodeBytes(b) + t) == Prepend(b, QueryUnescape(t))
    decreases |b|
  {
    if |b| > 0 {
      PercentBytesFirstTriple(b, t);
      UnescapeTriple(b[0], PercentEncodeBytes(b[1..]) + t);
      UnescapePercentBytes(b[1..], t);
      PrependTwice([b[0]], b[1..], QueryUnescape(t));
      assert [b[0]] + b[1..] == b;
    } else {
      UnescapeNoPercentBytes(b, t);
    }
  }

  /** Unescaping copies an unreserved character as its one byte. */
  lemma UnescapeUnreserved(c: char, t: string)
    requires IsUnreserved(c)
    ensures QueryUnescape([c] + t) == Prepend(EncodeScalar(c), QueryUnescape(t))
  {
    assert ([c] + t)[1..] == t;
  }

  /** The server unescapes exactly the UTF-8 bytes of what the client
      encoded. */
  lemma {:induction false} UnescapeEncodeRoundTrip(s: string)
    ensures QueryUnescape(Encode(s)) == Some(Utf8(s))
    decreases |s|
  {
    if |s| > 0 {
      var t := Encode(s[1..]);
      UnescapeEncodeRoundTrip(s[1..]);
      if IsUnreserved(s[0]) {
        UnescapeUnreserved(s[0], t);
      } else {
        UnescapePercentBytes(EncodeScalar(s[0]), t);
      }
    }
  }

  // ------------------------------------------------------------------ query

  /** Go's `url.ParseQuery(raw).Get(key)`: the pairs are separated by `&`;
      a pair holding `;`, an empty pair, or one whose key or value fails to
      unescape is skipped; the first value under the key wins, and a
      missing key reads as empty. */
  function QueryGet(raw: string, key: string): (r: seq<byte>)
  {
    FirstValue(Split(raw, '&'), Utf8(key))
  }

  function FirstValue(pairs: seq<string>, key: seq<byte>): seq<byte>
    decreases |pairs|
  {
    if |pairs| == 0 then []
    else
      var p := pairs[0];
      if ';' in p || p == "" then FirstValue(pairs[1..], key)
      else
        var kv := Split(p, '=');
        match (QueryUnescape(kv[0]), QueryUnescape(Join(kv[1..], '=')))
        case (Some(k), Some(v)) =>
          if k == key then v else FirstValue(pairs[1..], key)
        case _ => FirstValue(pairs[1..], key)
  }

  lemma {:induction false} EncodeHasNoDelimiters(s: string)
    ensures '&' !in Encode(s) && '=' !in Encode(s) && ';' !in Encode(s)
  {
    var e := Encode(s);
    forall i | 0 <= i < |e| ensures e[i] != '&' && e[i] != '=' && e[i] != ';' {
      assert IsUnreserved(e[i]) || e[i] == '%' || IsHexDigit(e[i]);
    }
  }

  /** A query string of the form `key=<encoded value>` (the shape the search
      client builds) reads back, on the server, as the UTF-8 bytes of the
      value. */
  lemma QueryGetOfEncoded(key: string, value: string)
    requires key != "" && forall i :: 0 <= i < |key| ==> IsUnreserved(key[i])
    ensures QueryGet(key + "=" + Encode(value), key) == Utf8(value)
  {
    var e := Encode(value);
    EncodeHasNoDelimiters(value);
    UnreservedHasNoDelimiters(key);
    JoinedHasNoDelimiters(key, e);
    SplitNoSeparator(key + "=" + e, '&');
    SplitFirstPiece(key, '=', e);
    SplitNoSeparator(e, '=');
    UnescapeEncodeRoundTrip(value);
    FirstValueOfPair(key, e, Utf8(value));
  }

  lemma UnreservedHasNoDelimiters(key: string)
    requires forall i :: 0 <= i < |key| ==> IsUnreserved(key[i])
    ensures '&' !in key && '=' !in key && ';' !in key && '%' !in key && '+' !in key
  {
    forall i | 0 <= i < |key| ensures key[i] !in "&=;%+" {
      assert IsUnreserved(key[i]);
    }
  }

  lemma JoinedHasNoDelimiters(key: string, e: string)
    requires '&' !in key && ';' !in key && '&' !in e && ';' !in e
    ensures '&' !in key + "=" + e && ';' !in key + "=" + e
  {
  }

  /** The one pair `key=e`, whose parts split apart at the `=`, gives the
      unescaped `e` under `key`. */
  lemma FirstValueOfPair(key: string, e: string, v: seq<byte>)
    requires key != "" && '%' !in key && '+' !in key && ';' !in key && ';' !in e
    requires Split(key + "=" + e, '=') == [key] + [e] && QueryUnescape(e) == Some(v)
    ensures FirstValue([key + "=" + e], Utf8(key)) == v
  {
    var kv := Split(key + "=" + e, '=');
    assert kv[0] == key && kv[1..] == [e];
    assert Join(kv[1..], '=') == e;
    assert ';' !in key + "=" + e;
  }
}
