/** String helpers with the exact behaviour of the library calls the system
    relies on: Go's `strings.ToLower` (on ASCII), `strings.Contains`,
    `strings.Split`, `strings.Join`, `strings.Replace(s, old, new, 1)` and
    `strings.TrimSpace`, and ECMAScript's `String.prototype.trim`. */
module Text {

  // ---------------------------------------------------------------- case

  function AsciiLower(c: char): char {
    if 'A' <= c <= 'Z' then (c as int + 32) as char else c
  }

  /** Lower-cases every ASCII letter and leaves every other character alone. */
  function Lower(s: string): (r: string)
    ensures |r| == |s|
    ensures forall i :: 0 <= i < |s| ==> r[i] == AsciiLower(s[i])
  {
    if |s| == 0 then "" else [AsciiLower(s[0])] + Lower(s[1..])
  }

  // ---------------------------------------------------------------- search

  predicate StartsWith(s: string, prefix: string) {
    |prefix| <= |s| && s[..|prefix|] == prefix
  }

  /** `needle` appears in `hay` starting at index `i`. */
  predicate OccursAt(hay: string, needle: string, i: int) {
    0 <= i && i + |needle| <= |hay| && hay[i..i + |needle|] == needle
  }

  /** Go's `strings.Contains`: a left-to-right scan for `needle`. */
  predicate Contains(hay: string, needle: string)
    decreases |hay|
  {
    StartsWith(hay, needle) || (|hay| > 0 && Contains(hay[1..], needle))
  }

  lemma OccursAtShift(hay: string, needle: string, i: int)
    requires |hay| > 0 && 0 <= i
    ensures OccursAt(hay[1..], needle, i) <==> OccursAt(hay, needle, i + 1)
  {
    if i + |needle| <= |hay[1..]| {
      assert hay[1..][i..i + |needle|] == hay[i + 1..i + 1 + |needle|];
    }
  }

  /** The scan finds `needle` exactly when it occurs somewhere in `hay`. */
  lemma {:induction false} ContainsIffOccurs(hay: string, needle: string)
    ensures Contains(hay, needle) <==> exists i :: OccursAt(hay, needle, i)
    decreases |hay|
  {
    if StartsWith(hay, needle) {
      assert OccursAt(hay, needle, 0);
    } else if |hay| > 0 {
      ContainsIffOccurs(hay[1..], needle);
      if exists i :: OccursAt(hay[1..], needle, i) {
        var i :| OccursAt(hay[1..], needle, i);
        OccursAtShift(hay, needle, i);
      }
      if exists i :: OccursAt(hay, needle, i) {
        var i :| OccursAt(hay, needle, i);
        if i > 0 {
          OccursAtShift(hay, needle, i - 1);
        }
      }
    }
  }

  // ---------------------------------------------------------------- replace

  /** Go's `strings.Replace(s, pattern, replacement, 1)`: the first occurrence of `pattern`
      (scanning from the left) is replaced by `replacement`. */
  function ReplaceFirst(s: string, pattern: string, replacement: string): string
    decreases |s|
  {
    if StartsWith(s, pattern) then replacement + s[|pattern|..]
    else if |s| == 0 then s
    else [s[0]] + ReplaceFirst(s[1..], pattern, replacement)
  }

  /** Without an occurrence of `pattern`, nothing changes. */
  lemma {:induction false} ReplaceFirstWithoutOccurrence(s: string, pattern: string, replacement: string)
    requires forall i :: !OccursAt(s, pattern, i)
    ensures ReplaceFirst(s, pattern, replacement) == s
    decreases |s|
  {
    assert !OccursAt(s, pattern, 0);
    if |s| > 0 {
      forall i | 0 <= i ensures !OccursAt(s[1..], pattern, i) {
        OccursAtShift(s, pattern, i);
      }
      ReplaceFirstWithoutOccurrence(s[1..], pattern, replacement);
      assert [s[0]] + s[1..] == s;
    }
  }

  /** Exactly the first occurrence of `pattern` is swapped for
      `replacement`, and the text around it is kept. */
  lemma {:induction false} ReplaceFirstAtFirstOccurrence(s: string, pattern: string, replacement: string, i: int)
    requires OccursAt(s, pattern, i)
    requires forall j :: 0 <= j < i ==> !OccursAt(s, pattern, j)
    ensures ReplaceFirst(s, pattern, replacement) == s[..i] + replacement + s[i + |pattern|..]
    decreases |s|
  {
    if i > 0 {
      assert !OccursAt(s, pattern, 0);
      OccursAtShift(s, pattern, i - 1);
      forall j | 0 <= j < i - 1 ensures !OccursAt(s[1..], pattern, j) {
        OccursAtShift(s, pattern, j);
      }
      ReplaceFirstAtFirstOccurrence(s[1..], pattern, replacement, i - 1);
      assert [s[0]] + s[1..][..i - 1] == s[..i];
      assert s[1..][i - 1 + |pattern|..] == s[i + |pattern|..];
    }
  }

  // ---------------------------------------------------------------- split, join

  /** Go's `strings.Join(parts, string(sep))`. */
  function Join(parts: seq<string>, sep: char): string
    decreases |parts|
  {
    if |parts| == 0 then ""
    else if |parts| == 1 then parts[0]
    else parts[0] + [sep] + Join(parts[1..], sep)
  }

  /** Go's `strings.Split(s, string(sep))`: never empty, no piece holds the
      separator, and joining the pieces back gives `s`. */
  function Split(s: string, sep: char): (r: seq<string>)
    ensures |r| >= 1
    ensures forall p :: p in r ==> sep !in p
    ensures Join(r, sep) == s
    decreases |s|
  {
    if |s| == 0 then [""]
    else
      var tail := Split(s[1..], sep);
      if s[0] == sep then
        assert Join([""] + tail, sep) == [sep] + Join(tail, sep) by {
          assert ([""] + tail)[1..] == tail;
        }
        assert s == [s[0]] + s[1..];
        [""] + tail
      else
        var r := [[s[0]] + tail[0]] + tail[1..];
        assert r[1..] == tail[1..];
        assert Join(r, sep) == [s[0]] + Join(tail, sep);
        assert s == [s[0]] + s[1..];
        assert forall p :: p in r ==> p == r[0] || p in tail;
        r
  }

  /** A piece without the separator splits to itself. */
  lemma {:induction false} SplitNoSeparator(x: string, sep: char)
    requires sep !in x
    ensures Split(x, sep) == [x]
    decreases |x|
  {
    if |x| > 0 {
      SplitNoSeparator(x[1..], sep);
      assert [x[0]] + x[1..] == x;
    }
  }

  /** Splitting stops at the first separator. */
  lemma {:induction false} SplitFirstPiece(x: string, sep: char, y: string)
    requires sep !in x
    ensures Split(x + [sep] + y, sep) == [x] + Split(y, sep)
    decreases |x|
  {
    var s := x + [sep] + y;
    if |x| == 0 {
      assert s[0] == sep && s[1..] == y;
    } else {
      assert s[0] == x[0] && s[1..] == x[1..] + [sep] + y;
      SplitFirstPiece(x[1..], sep, y);
      assert [x[0]] + x[1..] == x;
    }
  }

  /** Join followed by Split gives the parts back when no part holds the
      separator (the only way Split could cut a part in two). */
  lemma {:induction false} SplitJoin(parts: seq<string>, sep: char)
    requires |parts| >= 1
    requires forall p :: p in parts ==> sep !in p
    ensures Split(Join(parts, sep), sep) == parts
    decreases |parts|
  {
    if |parts| == 1 {
      SplitNoSeparator(parts[0], sep);
    } else {
      assert parts[0] in parts;
      assert forall p :: p in parts[1..] ==> p in parts;
      SplitJoin(parts[1..], sep);
      SplitFirstPiece(parts[0], sep, Join(parts[1..], sep));
      assert [parts[0]] + parts[1..] == parts;
    }
  }

  // ---------------------------------------------------------------- trimming

  /** The two definitions of white space the system trims with. */
  datatype SpaceSet =
    | GoUnicode    // Go's unicode.IsSpace, used by strings.TrimSpace
    | EcmaScript   // ECMAScript WhiteSpace and LineTerminator, used by String.prototype.trim

  predicate IsSpace(kind: SpaceSet, c: char) {
    || c == '\t' || c == '\n' || c == '\U{000B}' || c == '\U{000C}' || c == '\r' || c == ' '
    || c == '\U{00A0}' || c == '\U{1680}' || ('\U{2000}' <= c <= '\U{200A}')
    || c == '\U{2028}' || c == '\U{2029}' || c == '\U{202F}' || c == '\U{205F}' || c == '\U{3000}'
    || (kind == GoUnicode && c == '\U{0085}')
    || (kind == EcmaScript && c == '\U{FEFF}')
  }

  predicate AllSpace(kind: SpaceSet, s: string) {
    forall i :: 0 <= i < |s| ==> IsSpace(kind, s[i])
  }

  lemma AllSpaceAppend(kind: SpaceSet, a: string, b: string)
    requires AllSpace(kind, a) && AllSpace(kind, b)
    ensures AllSpace(kind, a + b)
  {
    forall i | 0 <= i < |a + b| ensures IsSpace(kind, (a + b)[i]) {
      if i < |a| {
        assert (a + b)[i] == a[i];
      } else {
        assert (a + b)[i] == b[i - |a|];
      }
    }
  }

  /** Drops leading white space: the result is a suffix of `s`, everything
      dropped is white space, and the result does not start with white space. */
  function TrimStart(kind: SpaceSet, s: string): (r: string)
    ensures |r| <= |s| && r == s[|s| - |r|..]
    ensures AllSpace(kind, s[..|s| - |r|])
    ensures |r| > 0 ==> !IsSpace(kind, r[0])
    decreases |s|
  {
    if |s| > 0 && IsSpace(kind, s[0]) then
      var r := TrimStart(kind, s[1..]);
      var dropped := s[1..][..|s[1..]| - |r|];
      assert s[..|s| - |r|] == [s[0]] + dropped;
      AllSpaceAppend(kind, [s[0]], dropped);
      assert s[1..][|s[1..]| - |r|..] == s[|s| - |r|..];
      r
    else s
  }

  /** Drops trailing white space: the result is a prefix of `s`, everything
      dropped is white space, and the result does not end with white space. */
  function TrimEnd(kind: SpaceSet, s: string): (r: string)
    ensures |r| <= |s| && r == s[..|r|]
    ensures AllSpace(kind, s[|r|..])
    ensures |r| > 0 ==> !IsSpace(kind, r[|r| - 1])
    decreases |s|
  {
    if |s| > 0 && IsSpace(kind, s[|s| - 1]) then
      var r := TrimEnd(kind, s[..|s| - 1]);
      var dropped := s[..|s| - 1][|r|..];
      assert s[|r|..] == dropped + [s[|s| - 1]];
      AllSpaceAppend(kind, dropped, [s[|s| - 1]]);
      assert s[..|s| - 1][..|r|] == s[..|r|];
      r
    else s
  }

  /** Go's `strings.TrimSpace` (kind GoUnicode) or ECMAScript's `trim()`
      (kind EcmaScript). */
  function Trim(kind: SpaceSet, s: string): string {
    TrimEnd(kind, TrimStart(kind, s))
  }

  /** A string trims to nothing exactly when it is all white space. */
  lemma TrimEmptyIffAllSpace(kind: SpaceSet, s: string)
    ensures Trim(kind, s) == "" <==> AllSpace(kind, s)
  {
    var t := TrimStart(kind, s);
    if Trim(kind, s) == "" {
      assert AllSpace(kind, t[0..]);
      assert t[0..] == t;
      assert s == s[..|s| - |t|] + t;
    }
  }

  /** A string that neither starts nor ends with white space trims to itself. */
  lemma TrimOfUnpadded(kind: SpaceSet, s: string)
    requires |s| > 0 ==> !IsSpace(kind, s[0]) && !IsSpace(kind, s[|s| - 1])
    ensures TrimStart(kind, s) == s && Trim(kind, s) == s
  {
  }
}
