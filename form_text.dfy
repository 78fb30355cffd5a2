/** The pieces of the .NET string library that the create page relies on when
    it reads form text: null/blank tests, trimming, and splitting on a separator. */
module FormText {

  /** A value that may be null, as a reference-typed form field may be. */
  datatype Option<+T> = None | Some(value: T)

  /** char.IsWhiteSpace: the Unicode space, line and paragraph separators,
      the control characters U+0009..U+000D, and U+0085. */
  predicate IsWhiteSpace(c: char) {
    var n := c as int;
    (0x09 <= n <= 0x0D) || n == 0x20 || n == 0x85 || n == 0xA0 || n == 0x1680
    || (0x2000 <= n <= 0x200A) || n == 0x2028 || n == 0x2029 || n == 0x202F
    || n == 0x205F || n == 0x3000
  }

  /** string.IsNullOrEmpty */
  predicate IsNullOrEmpty(s: Option<string>) {
    s.None? || |s.value| == 0
  }

  /** string.IsNullOrWhiteSpace: null, or every character is white space. */
  predicate IsNullOrWhiteSpace(s: Option<string>) {
    s.None? || forall i :: 0 <= i < |s.value| ==> IsWhiteSpace(s.value[i])
  }

  /** Drops the leading characters that satisfy `white`. */
  function TrimStartBy(s: string, white: char -> bool): (r: string)
    ensures |r| <= |s| && r == s[|s| - |r|..]
    ensures forall i :: 0 <= i < |s| - |r| ==> white(s[i])
    ensures r == [] || !white(r[0])
  {
    if s != [] && white(s[0]) then
      var r := TrimStartBy(s[1..], white);
      assert forall i :: 1 <= i < |s| - |r| ==> s[i] == s[1..][i - 1];
      r
    else s
  }

  /** Drops the trailing characters that satisfy `white`. */
  function TrimEndBy(s: string, white: char -> bool): (r: string)
    ensures |r| <= |s| && r == s[..|r|]
    ensures forall i :: |r| <= i < |s| ==> white(s[i])
    ensures r == [] || !white(r[|r| - 1])
  {
    if s != [] && white(s[|s| - 1]) then
      var r := TrimEndBy(s[..|s| - 1], white);
      assert forall i :: |r| <= i < |s| - 1 ==> s[i] == s[..|s| - 1][i];
      r
    else s
  }

  /** Drops the leading and trailing characters that satisfy `white`. */
  function TrimBy(s: string, white: char -> bool): string {
    TrimEndBy(TrimStartBy(s, white), white)
  }

  /** What trimming leaves is the slice s[start..start + |r|], where start is
      the number of leading white characters. */
  lemma TrimBySlice(s: string, white: char -> bool)
    ensures var r, start := TrimBy(s, white), |s| - |TrimStartBy(s, white)|;
      start + |r| <= |s| && r == s[start..start + |r|]
  {
    var t := TrimStartBy(s, white);
    var r := TrimEndBy(t, white);
    assert r == t[..|r|];
  }

  /** Everything trimming removes is white. */
  lemma TrimByRemovesWhite(s: string, white: char -> bool)
    ensures var r, start := TrimBy(s, white), |s| - |TrimStartBy(s, white)|;
      start + |r| <= |s|
      && (forall i :: 0 <= i < start ==> white(s[i]))
      && (forall i :: start + |r| <= i < |s| ==> white(s[i]))
  {
    TrailingWhite(s, TrimStartBy(s, white), white);
  }

  /** The characters that trimming the end of a suffix t of s removes are white in s. */
  lemma TrailingWhite(s: string, t: string, white: char -> bool)
    requires |t| <= |s| && t == s[|s| - |t|..]
    ensures forall i :: |s| - |t| + |TrimEndBy(t, white)| <= i < |s| ==> white(s[i])
  {
    var start, r := |s| - |t|, TrimEndBy(t, white);
    forall i | start + |r| <= i < |s|
      ensures white(s[i])
    {
      assert s[i] == t[i - start];
    }
  }

  /** A non-empty trimmed string starts and ends with a character that is not white. */
  lemma TrimByEnds(s: string, white: char -> bool)
    ensures var r := TrimBy(s, white); r == [] || (!white(r[0]) && !white(r[|r| - 1]))
  {
    var t := TrimStartBy(s, white);
    var r := TrimEndBy(t, white);
    if r != [] {
      assert r[0] == t[0];
    }
  }

  /** Nothing is trimmed from a string that neither starts nor ends with a white character. */
  lemma TrimByUnchanged(s: string, white: char -> bool)
    requires s == [] || (!white(s[0]) && !white(s[|s| - 1]))
    ensures TrimBy(s, white) == s
  {
    assert TrimStartBy(s, white) == s;
  }

  /** Neither starts nor ends with white space. */
  predicate IsTrimmed(t: string) {
    t == [] || (!IsWhiteSpace(t[0]) && !IsWhiteSpace(t[|t| - 1]))
  }

  /** string.Trim(): removes leading and trailing white space. */
  function Trim(s: string): string {
    TrimBy(s, IsWhiteSpace)
  }

  /** Trimming yields "" exactly when the whole string is white space, so a
      blank piece survives as an empty string rather than disappearing. */
  lemma TrimEmptyIff(s: string)
    ensures Trim(s) == [] <==> IsNullOrWhiteSpace(Some(s))
  {
    var r := Trim(s);
    var start := |s| - |TrimStartBy(s, IsWhiteSpace)|;
    if r != [] {
      assert s[start] == r[0];
    }
  }

  /** Trimming keeps only characters of its input. */
  lemma TrimKeepsCharacters(s: string, c: char)
    requires c in Trim(s)
    ensures c in s
  {
    var r := Trim(s);
    var start := |s| - |TrimStartBy(s, IsWhiteSpace)|;
    var k :| 0 <= k < |r| && r[k] == c;
    assert s[start + k] == c;
  }

  /** string.Split(sep) with no options: the pieces between separators, in
      order, empty pieces included; there is always at least one piece. */
  function Segments(s: string, sep: char): (r: seq<string>)
    ensures |r| >= 1
  {
    if s == [] then [[]]
    else
      var rest := Segments(s[1..], sep);
      if s[0] == sep then [[]] + rest
      else [[s[0]] + rest[0]] + rest[1..]
  }

  /** No piece of the split contains the separator. */
  lemma {:induction false} SegmentsSepFree(s: string, sep: char)
    ensures forall k :: 0 <= k < |Segments(s, sep)| ==> sep !in Segments(s, sep)[k]
  {
    if s != [] {
      SegmentsSepFree(s[1..], sep);
      var rest := Segments(s[1..], sep);
      if s[0] != sep {
        assert sep !in [s[0]] + rest[0];
      }
    }
  }

  /** string.Join(sep, parts) */
  function Join(parts: seq<string>, sep: char): string {
    if |parts| == 0 then []
    else if |parts| == 1 then parts[0]
    else parts[0] + [sep] + Join(parts[1..], sep)
  }

  /** Splitting loses nothing: joining the pieces with the separator gives the input back. */
  lemma {:induction false} JoinSegments(s: string, sep: char)
    ensures Join(Segments(s, sep), sep) == s
  {
    if s != [] {
      var rest := Segments(s[1..], sep);
      JoinSegments(s[1..], sep);
      if s[0] == sep {
        assert ([[]] + rest)[1..] == rest;
      } else if |rest| == 1 {
        assert Join(rest, sep) == rest[0];
      } else {
        assert Join(rest, sep) == rest[0] + [sep] + Join(rest[1..], sep);
        assert ([[s[0]] + rest[0]] + rest[1..])[1..] == rest[1..];
      }
    }
  }

  /** The first piece is empty exactly when the string is empty or starts with a separator. */
  lemma FirstSegmentEmptyIff(s: string, sep: char)
    ensures Segments(s, sep)[0] == [] <==> (s == [] || s[0] == sep)
  {
  }

  /** The filter of StringSplitOptions.RemoveEmptyEntries: drops the zero-length pieces. */
  function RemoveEmpty(parts: seq<string>): (r: seq<string>)
    ensures forall k :: 0 <= k < |r| ==> r[k] != [] && r[k] in parts
  {
    if parts == [] then []
    else if parts[0] == [] then RemoveEmpty(parts[1..])
    else [parts[0]] + RemoveEmpty(parts[1..])
  }

  /** string.Split(sep, StringSplitOptions.RemoveEmptyEntries): the non-empty,
      separator-free pieces. */
  function SplitRemoveEmpty(s: string, sep: char): (r: seq<string>)
    ensures forall k :: 0 <= k < |r| ==> r[k] != [] && sep !in r[k]
  {
    SegmentsSepFree(s, sep);
    RemoveEmpty(Segments(s, sep))
  }

  /** The characters of s other than sep, in order. */
  function Without(s: string, sep: char): string {
    if s == [] then []
    else (if s[0] == sep then [] else [s[0]]) + Without(s[1..], sep)
  }

  /** The pieces one after another, with nothing between them. */
  function Concat(parts: seq<string>): string {
    if parts == [] then [] else parts[0] + Concat(parts[1..])
  }

  lemma {:induction false} ConcatRemoveEmpty(parts: seq<string>)
    ensures Concat(RemoveEmpty(parts)) == Concat(parts)
  {
    if parts != [] {
      ConcatRemoveEmpty(parts[1..]);
    }
  }

  lemma {:induction false} ConcatSegments(s: string, sep: char)
    ensures Concat(Segments(s, sep)) == Without(s, sep)
  {
    if s != [] {
      var rest := Segments(s[1..], sep);
      ConcatSegments(s[1..], sep);
      if s[0] == sep {
        assert ([[]] + rest)[1..] == rest;
      } else {
        assert Concat(rest) == rest[0] + Concat(rest[1..]);
        assert ([[s[0]] + rest[0]] + rest[1..])[1..] == rest[1..];
      }
    }
  }

  /** Splitting with RemoveEmptyEntries keeps every non-separator character,
      in its original order, and only those. */
  lemma SplitRemoveEmptyKeepsText(s: string, sep: char)
    ensures Concat(SplitRemoveEmpty(s, sep)) == Without(s, sep)
  {
    ConcatRemoveEmpty(Segments(s, sep));
    ConcatSegments(s, sep);
  }

  /** The number of maximal runs of non-separator characters in s, counted at
      the position where each run ends. */
  function RunCount(s: string, sep: char): nat {
    if s == [] then 0
    else (if s[0] != sep && (|s| == 1 || s[1] == sep) then 1 else 0) + RunCount(s[1..], sep)
  }

  lemma {:induction false} SegmentsRunCount(s: string, sep: char)
    ensures |RemoveEmpty(Segments(s, sep))| == RunCount(s, sep)
  {
    if s != [] {
      var rest := Segments(s[1..], sep);
      SegmentsRunCount(s[1..], sep);
      FirstSegmentEmptyIff(s[1..], sep);
      assert rest == [rest[0]] + rest[1..];
      if s[0] == sep {
        assert ([[]] + rest)[1..] == rest;
      } else {
        assert ([[s[0]] + rest[0]] + rest[1..])[1..] == rest[1..];
        assert RemoveEmpty(rest) == if rest[0] == [] then RemoveEmpty(rest[1..])
                                    else [rest[0]] + RemoveEmpty(rest[1..]);
      }
    }
  }

  /** A string has no run of non-separator characters iff it consists of separators only. */
  lemma {:induction false} RunCountZeroIff(s: string, sep: char)
    ensures RunCount(s, sep) == 0 <==> forall i :: 0 <= i < |s| ==> s[i] == sep
  {
    if s != [] {
      RunCountZeroIff(s[1..], sep);
      assert forall i :: 1 <= i < |s| ==> s[i] == s[1..][i - 1];
    }
  }

  /** Split on a separator, drop zero-length pieces, then trim each remaining
      piece — in that order, so a piece of white space only becomes "". */
  function SplitTrim(s: string, sep: char): (r: seq<string>)
    ensures |r| == RunCount(s, sep)
    ensures forall k :: 0 <= k < |r| ==> sep !in r[k]
    ensures forall k :: 0 <= k < |r| ==> IsTrimmed(r[k])
  {
    var pieces := SplitRemoveEmpty(s, sep);
    SegmentsRunCount(s, sep);
    TrimEachPreserves(pieces, sep);
    MapEach(Trim, pieces)
  }

  /** Select(f): f applied to each piece, in place. */
  function MapEach(f: string -> string, pieces: seq<string>): (r: seq<string>)
    ensures |r| == |pieces|
  {
    if pieces == [] then [] else [f(pieces[0])] + MapEach(f, pieces[1..])
  }

  /** Entry k of MapEach is f of piece k. */
  lemma {:induction false} MapEachAt(f: string -> string, pieces: seq<string>, k: nat)
    requires k < |pieces|
    ensures MapEach(f, pieces)[k] == f(pieces[k])
  {
    if k > 0 {
      MapEachAt(f, pieces[1..], k - 1);
    }
  }

  lemma {:induction false} MapEachAppend(f: string -> string, a: seq<string>, b: seq<string>)
    ensures MapEach(f, a + b) == MapEach(f, a) + MapEach(f, b)
  {
    if a == [] {
      assert a + b == b;
    } else {
      assert (a + b)[0] == a[0];
      assert (a + b)[1..] == a[1..] + b;
      MapEachAppend(f, a[1..], b);
    }
  }

  lemma TrimEachPreserves(pieces: seq<string>, sep: char)
    requires forall k :: 0 <= k < |pieces| ==> sep !in pieces[k]
    ensures forall k :: 0 <= k < |pieces| ==> sep !in MapEach(Trim, pieces)[k]
    ensures forall k :: 0 <= k < |pieces| ==> IsTrimmed(MapEach(Trim, pieces)[k])
  {
    forall k | 0 <= k < |pieces|
      ensures sep !in MapEach(Trim, pieces)[k]
      ensures IsTrimmed(MapEach(Trim, pieces)[k])
    {
      MapEachAt(Trim, pieces, k);
      TrimByEnds(pieces[k], IsWhiteSpace);
      if sep in Trim(pieces[k]) {
        TrimKeepsCharacters(pieces[k], sep);
      }
    }
  }

  /** The split-and-trim of a string is empty exactly when the
      string is made of separators only. */
  lemma SplitTrimEmptyIff(s: string, sep: char)
    ensures SplitTrim(s, sep) == [] <==> forall i :: 0 <= i < |s| ==> s[i] == sep
  {
    RunCountZeroIff(s, sep);
  }

  /** The empty-piece filter works piece by piece: filtering two lists one
      after the other is filtering each of them, so it keeps the order of the
      pieces and drops nothing but the zero-length ones. */
  lemma {:induction false} RemoveEmptyAppend(a: seq<string>, b: seq<string>)
    ensures RemoveEmpty(a + b) == RemoveEmpty(a) + RemoveEmpty(b)
  {
    if a == [] {
      assert a + b == b;
    } else {
      assert (a + b)[0] == a[0];
      assert (a + b)[1..] == a[1..] + b;
      RemoveEmptyAppend(a[1..], b);
    }
  }

  /** Text without a separator splits into one piece: itself. */
  lemma {:induction false} SegmentsWithoutSeparator(x: string, sep: char)
    requires sep !in x
    ensures Segments(x, sep) == [x]
  {
    if x != [] {
      SegmentsWithoutSeparator(x[1..], sep);
      assert [x[0]] + x[1..] == x;
    }
  }

  /** One step of the split: a leading separator closes an empty piece. */
  lemma SegmentsConsSep(t: string, sep: char)
    ensures Segments([sep] + t, sep) == [[]] + Segments(t, sep)
  {
    assert ([sep] + t)[1..] == t;
  }

  /** One step of the split: any other character starts the first piece of the rest. */
  lemma SegmentsConsChar(c: char, t: string, sep: char)
    requires c != sep
    ensures Segments([c] + t, sep) == [[c] + Segments(t, sep)[0]] + Segments(t, sep)[1..]
  {
    assert ([c] + t)[0] == c && ([c] + t)[1..] == t;
  }

  /** A separator cuts the split in two: the pieces before it, then the pieces after it. */
  lemma {:induction false} SegmentsAppend(a: string, b: string, sep: char)
    ensures Segments(a + [sep] + b, sep) == Segments(a, sep) + Segments(b, sep)
  {
    if a == [] {
      assert a + [sep] + b == [sep] + b;
      SegmentsConsSep(b, sep);
      assert Segments(a, sep) == [[]];
    } else {
      var c, t := a[0], a[1..];
      var x := t + [sep] + b;
      SegmentsAppend(t, b, sep);
      assert Segments([c] + x, sep) == Segments([c] + t, sep) + Segments(b, sep) by {
        if c == sep {
          SegmentsStepSep(x, t, Segments(b, sep), sep);
        } else {
          SegmentsStepChar(c, x, t, Segments(b, sep), sep);
        }
      }
      assert a + [sep] + b == [c] + x && [c] + t == a;
    }
  }

  /** The inductive step of SegmentsAppend for a leading separator. */
  lemma SegmentsStepSep(x: string, y: string, more: seq<string>, sep: char)
    requires Segments(x, sep) == Segments(y, sep) + more
    ensures Segments([sep] + x, sep) == Segments([sep] + y, sep) + more
  {
    SegmentsConsSep(x, sep);
    SegmentsConsSep(y, sep);
    assert [[]] + (Segments(y, sep) + more) == ([[]] + Segments(y, sep)) + more;
  }

  /** The inductive step of SegmentsAppend for any other leading character. */
  lemma SegmentsStepChar(c: char, x: string, y: string, more: seq<string>, sep: char)
    requires c != sep
    requires Segments(x, sep) == Segments(y, sep) + more
    ensures Segments([c] + x, sep) == Segments([c] + y, sep) + more
  {
    var ry := Segments(y, sep);
    var first := [c] + ry[0];
    assert Segments([c] + y, sep) == [first] + ry[1..] by {
      SegmentsConsChar(c, y, sep);
    }
    assert Segments([c] + x, sep) == [first] + (ry[1..] + more) by {
      SegmentsConsChar(c, x, sep);
      assert (ry + more)[0] == ry[0];
      assert (ry + more)[1..] == ry[1..] + more;
    }
    assert [first] + (ry[1..] + more) == ([first] + ry[1..]) + more;
  }

  /** A non-empty piece without a separator parses to one entry: the piece, trimmed. */
  lemma SplitTrimPiece(x: string, sep: char)
    requires x != [] && sep !in x
    ensures SplitTrim(x, sep) == [Trim(x)]
  {
    SegmentsWithoutSeparator(x, sep);
    var parts: seq<string> := [x];
    assert parts[1..] == [] && RemoveEmpty(parts[1..]) == [];
    assert RemoveEmpty(parts) == [x];
  }

  /** The split-and-trim of text on both sides of a separator is the
      split-and-trim of the left side followed by that of the right side.
      With SplitTrimPiece and the empty case of SplitTrimEmptyIff this fixes
      every entry: the entries are the trimmed non-empty pieces, in the order
      they appear in the text. */
  lemma SplitTrimAppend(a: string, b: string, sep: char)
    ensures SplitTrim(a + [sep] + b, sep) == SplitTrim(a, sep) + SplitTrim(b, sep)
  {
    SegmentsAppend(a, b, sep);
    RemoveEmptyAppend(Segments(a, sep), Segments(b, sep));
    MapEachAppend(Trim, SplitRemoveEmpty(a, sep), SplitRemoveEmpty(b, sep));
  }
}
