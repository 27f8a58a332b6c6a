/** The few Python string operations the response parser relies on:
    `str.split` on one separator character, `str.startswith`,
    `str.replace(label, "")` and `str.strip()`, on strings as sequences of
    Unicode code points. */
module Text {

  /** `s.startswith(prefix)`. */
  predicate StartsWith(s: string, prefix: string) {
    |prefix| <= |s| && s[..|prefix|] == prefix
  }

  /** `pat in s`: `pat` occurs somewhere in `s`. */
  predicate Occurs(s: string, pat: string)
    decreases |s|
  {
    StartsWith(s, pat) || (|s| > 0 && Occurs(s[1..], pat))
  }

  lemma {:induction false} ShortNeverOccurs(s: string, pat: string)
    requires |s| < |pat|
    ensures !Occurs(s, pat)
    decreases |s|
  {
    if |s| > 0 {
      ShortNeverOccurs(s[1..], pat);
    }
  }

  /** `s.replace(pat, "")`: every non-overlapping occurrence of `pat`, found
      left to right, is deleted (not only a leading one). An empty `pat`
      leaves `s` as it is, as in Python. */
  function RemoveAll(s: string, pat: string): (r: string)
    ensures |r| <= |s|
    decreases |s|
  {
    if |pat| == 0 || |s| < |pat| then s
    else if s[..|pat|] == pat then RemoveAll(s[|pat|..], pat)
    else [s[0]] + RemoveAll(s[1..], pat)
  }

  /** Where `pat` does not occur, removing it changes nothing. */
  lemma {:induction false} RemoveAllAbsent(s: string, pat: string)
    requires !Occurs(s, pat)
    ensures RemoveAll(s, pat) == s
    decreases |s|
  {
    if |pat| == 0 || |s| < |pat| {
    } else {
      assert s[..|pat|] != pat;
      RemoveAllAbsent(s[1..], pat);
      assert s == [s[0]] + s[1..];
    }
  }

  /** A leading occurrence goes, and the scan resumes right after it. */
  lemma RemoveAllLeading(pat: string, rest: string)
    requires |pat| > 0
    ensures RemoveAll(pat + rest, pat) == RemoveAll(rest, pat)
  {
    var s := pat + rest;
    assert s[..|pat|] == pat;
    assert s[|pat|..] == rest;
  }

  /** A copy at each end is removed, when no copy starts in between. */
  lemma RemoveAllBothEnds(v: string, pat: string)
    requires |pat| > 0 && !Occurs(v + pat[..|pat| - 1], pat)
    ensures RemoveAll(pat + v + pat, pat) == v
  {
    assert pat + v + pat == pat + (v + pat);
    RemoveAllLeading(pat, v + pat);
    RemoveAllTrailing(v, pat);
  }

  /** A trailing occurrence goes too, when no occurrence starts earlier:
      the removal does not stop at the first copy. */
  lemma {:induction false} RemoveAllTrailing(v: string, pat: string)
    requires |pat| > 0 && !Occurs(v + pat[..|pat| - 1], pat)
    ensures RemoveAll(v + pat, pat) == v
    decreases |v|
  {
    var s := v + pat;
    if v == [] {
      assert s == pat;
      assert s[|pat|..] == [];
    } else {
      var t := v + pat[..|pat| - 1];
      assert s[..|pat|] == t[..|pat|];
      assert !StartsWith(t, pat);
      assert t[1..] == v[1..] + pat[..|pat| - 1];
      RemoveAllTrailing(v[1..], pat);
      assert s[1..] == v[1..] + pat;
      assert v == [v[0]] + v[1..];
    }
  }

  /** A pattern cannot start where its first character is missing. */
  lemma {:induction false} OccursAfter(s: string, pat: string, n: nat)
    requires |pat| > 0 && n <= |s| && pat[0] !in s[..n]
    requires !Occurs(s[n..], pat)
    ensures !Occurs(s, pat)
    decreases n
  {
    if n > 0 {
      assert s[0] == s[..n][0];
      assert s[1..][..n - 1] == s[..n][1..];
      assert s[1..][n - 1..] == s[n..];
      OccursAfter(s[1..], pat, n - 1);
    }
  }

  /** The characters Python's `str.isspace()` accepts, which `str.strip()`
      removes from both ends. */
  const Whitespace: set<char> := {
    ' ', '\t', '\n', '\r', '\U{000B}', '\U{000C}',
    '\U{001C}', '\U{001D}', '\U{001E}', '\U{001F}',
    '\U{0085}', '\U{00A0}', '\U{1680}',
    '\U{2000}', '\U{2001}', '\U{2002}', '\U{2003}', '\U{2004}', '\U{2005}',
    '\U{2006}', '\U{2007}', '\U{2008}', '\U{2009}', '\U{200A}',
    '\U{2028}', '\U{2029}', '\U{202F}', '\U{205F}', '\U{3000}'
  }

  predicate IsSpace(c: char) {
    c in Whitespace
  }

  predicate AllSpace(s: string) {
    forall k :: 0 <= k < |s| ==> IsSpace(s[k])
  }

  /** Every character of `s` from `lo` up to but excluding `hi` is
      whitespace. */
  predicate SpaceBetween(s: string, lo: int, hi: int) {
    forall k :: lo <= k < hi && 0 <= k < |s| ==> IsSpace(s[k])
  }

  /** `r` is the slice of `s` that starts at `i`. */
  predicate SliceAt(r: string, s: string, i: int) {
    0 <= i && i + |r| <= |s| && forall k :: 0 <= k < |r| ==> r[k] == s[i + k]
  }

  /** `s.lstrip()`: leading whitespace removed, so that the result does
      not begin with whitespace (`StripLeftShape` says what is kept). */
  function StripLeft(s: string): (r: string)
    ensures |r| <= |s|
    ensures r != [] ==> !IsSpace(r[0])
    decreases |s|
  {
    if |s| > 0 && IsSpace(s[0]) then StripLeft(s[1..]) else s
  }

  /** `s.rstrip()`: trailing whitespace removed, so that the result does
      not end with whitespace (`StripRightShape` says what is kept). */
  function StripRight(s: string): (r: string)
    ensures |r| <= |s|
    ensures r != [] ==> !IsSpace(r[|r| - 1])
    decreases |s|
  {
    if |s| > 0 && IsSpace(s[|s| - 1]) then StripRight(s[..|s| - 1]) else s
  }

  /** `lstrip()` keeps a suffix of `s`, and everything before it is
      whitespace. */
  lemma {:induction false} StripLeftShape(s: string)
    ensures SliceAt(StripLeft(s), s, |s| - |StripLeft(s)|)
    ensures SpaceBetween(s, 0, |s| - |StripLeft(s)|)
    decreases |s|
  {
    if |s| > 0 && IsSpace(s[0]) {
      var r := StripLeft(s[1..]);
      assert StripLeft(s) == r;
      var n := |s[1..]| - |r|;
      StripLeftShape(s[1..]);
      assert SliceAt(r, s[1..], n) && SpaceBetween(s[1..], 0, n);
      SliceCompose(r, s[1..], s, n, 1);
      SpaceBeforeTail(s, n);
    } else {
      assert StripLeft(s) == s;
    }
  }

  /** `rstrip()` keeps a prefix of `s`, and everything after it is
      whitespace. */
  lemma {:induction false} StripRightShape(s: string)
    ensures SliceAt(StripRight(s), s, 0)
    ensures SpaceBetween(s, |StripRight(s)|, |s|)
    decreases |s|
  {
    if |s| > 0 && IsSpace(s[|s| - 1]) {
      var r := StripRight(s[..|s| - 1]);
      StripRightShape(s[..|s| - 1]);
      SliceCompose(r, s[..|s| - 1], s, 0, 0);
      SpaceAfterInit(s, |r|);
    }
  }

  /** `s.strip()`: whitespace removed at both ends, so that neither end
      of the result is whitespace (`StripIsSlice` says what is kept). */
  function Strip(s: string): (r: string)
    ensures |r| <= |s|
    ensures r == [] || (!IsSpace(r[0]) && !IsSpace(r[|r| - 1]))
  {
    StripRightShape(StripLeft(s));
    StripRight(StripLeft(s))
  }

  /** What `strip()` keeps is a contiguous slice of `s`, and only
      whitespace is cut off before and after it. */
  lemma StripIsSlice(s: string)
    ensures exists i :: SliceAt(Strip(s), s, i) && SpaceBetween(s, 0, i) && SpaceBetween(s, i + |Strip(s)|, |s|)
  {
    var l := StripLeft(s);
    var r := StripRight(l);
    var i := |s| - |l|;
    StripLeftShape(s);
    StripRightShape(l);
    SliceCompose(r, l, s, 0, i);
    SpaceShifted(l, s, i, |r|);
    assert SliceAt(r, s, i) && SpaceBetween(s, 0, i) && SpaceBetween(s, i + |r|, |s|);
  }

  lemma SpaceBeforeTail(s: string, n: int)
    requires |s| > 0 && IsSpace(s[0]) && SpaceBetween(s[1..], 0, n)
    ensures SpaceBetween(s, 0, n + 1)
  {
    forall k | 0 <= k < n + 1 && 0 <= k < |s| ensures IsSpace(s[k]) {
      if k > 0 {
        assert s[k] == s[1..][k - 1];
      }
    }
  }

  lemma SpaceAfterInit(s: string, n: int)
    requires |s| > 0 && IsSpace(s[|s| - 1]) && SpaceBetween(s[..|s| - 1], n, |s| - 1)
    ensures SpaceBetween(s, n, |s|)
  {
    forall k | n <= k < |s| && 0 <= k < |s| ensures IsSpace(s[k]) {
      if k < |s| - 1 {
        assert s[k] == s[..|s| - 1][k];
      }
    }
  }

  /** A slice of a slice is a slice. */
  lemma SliceCompose(r: string, l: string, s: string, i: int, j: int)
    requires SliceAt(r, l, i) && SliceAt(l, s, j)
    ensures SliceAt(r, s, i + j)
  {
    forall k | 0 <= k < |r| ensures r[k] == s[i + j + k] {
      assert r[k] == l[i + k];
    }
  }

  /** Whitespace after position `n` of a suffix `l` of `s` is whitespace
      after the matching position of `s`. */
  lemma SpaceShifted(l: string, s: string, i: int, n: int)
    requires SliceAt(l, s, i) && i + |l| == |s| && 0 <= n && SpaceBetween(l, n, |l|)
    ensures SpaceBetween(s, i + n, |s|)
  {
    forall k | i + n <= k < |s| && 0 <= k < |s| ensures IsSpace(s[k]) {
      assert s[k] == l[k - i];
    }
  }

  lemma {:induction false} StripLeftOfPadded(pad: string, core: string)
    requires AllSpace(pad)
    requires core == [] || !IsSpace(core[0])
    ensures StripLeft(pad + core) == core
    decreases |pad|
  {
    if |pad| > 0 {
      assert (pad + core)[1..] == pad[1..] + core;
      StripLeftOfPadded(pad[1..], core);
    }
  }

  lemma {:induction false} StripRightOfPadded(core: string, pad: string)
    requires AllSpace(pad)
    requires core == [] || !IsSpace(core[|core| - 1])
    ensures StripRight(core + pad) == core
    decreases |pad|
  {
    if |pad| > 0 {
      assert (core + pad)[..|core + pad| - 1] == core + pad[..|pad| - 1];
      StripRightOfPadded(core, pad[..|pad| - 1]);
    } else {
      assert core + pad == core;
    }
  }

  /** Whatever whitespace surrounds a value, `strip()` gives back exactly
      the value, provided it neither begins nor ends with whitespace. */
  lemma StripOfPadded(before: string, core: string, after: string)
    requires AllSpace(before) && AllSpace(after)
    requires core == [] || (!IsSpace(core[0]) && !IsSpace(core[|core| - 1]))
    ensures Strip(before + core + after) == core
  {
    if core == [] {
      assert before + core + after == before + after;
      StripLeftOfPadded(before + after, []);
      assert before + after + [] == before + after;
    } else {
      assert before + core + after == before + (core + after);
      StripLeftOfPadded(before, core + after);
      StripRightOfPadded(core, after);
    }
  }

  /** `strip()` is idempotent. */
  lemma StripIdempotent(s: string)
    ensures Strip(Strip(s)) == Strip(s)
  {
    var r := Strip(s);
    StripOfPadded([], r, []);
    assert [] + r + [] == r;
  }

  // ---------------------------------------------------------------------
  // str.split(sep) and its inverse sep.join(parts)

  /** `s.split(sep)` for a one-character separator: never empty, and an
      empty piece stands wherever two separators meet or one ends `s`. */
  function Split(s: string, sep: char): (r: seq<string>)
    ensures |r| >= 1
    ensures forall i :: 0 <= i < |r| ==> sep !in r[i]
    decreases |s|
  {
    if |s| == 0 then [""]
    else
      var rest := Split(s[1..], sep);
      if s[0] == sep then [""] + rest
      else [[s[0]] + rest[0]] + rest[1..]
  }

  /** `sep.join(parts)`. */
  function Join(parts: seq<string>, sep: char): string
    decreases |parts|
  {
    if |parts| == 0 then ""
    else if |parts| == 1 then parts[0]
    else parts[0] + [sep] + Join(parts[1..], sep)
  }

  lemma JoinConsHead(c: char, parts: seq<string>, sep: char)
    requires |parts| >= 1
    ensures Join([[c] + parts[0]] + parts[1..], sep) == [c] + Join(parts, sep)
  {
    var ps := [[c] + parts[0]] + parts[1..];
    assert ps[1..] == parts[1..];
  }

  /** Splitting loses nothing: joining the pieces restores the text. */
  lemma {:induction false} JoinSplit(s: string, sep: char)
    ensures Join(Split(s, sep), sep) == s
    decreases |s|
  {
    if |s| > 0 {
      var rest := Split(s[1..], sep);
      JoinSplit(s[1..], sep);
      if s[0] == sep {
        assert ([""] + rest)[1..] == rest;
      } else {
        JoinConsHead(s[0], rest, sep);
      }
      assert s == [s[0]] + s[1..];
    }
  }

  /** Pieces free of the separator are exactly what splitting their join
      gives back. */
  lemma {:induction false} SplitJoin(parts: seq<string>, sep: char)
    requires |parts| >= 1
    requires forall i :: 0 <= i < |parts| ==> sep !in parts[i]
    ensures Split(Join(parts, sep), sep) == parts
    decreases |parts|, |parts[0]|
  {
    var p0 := parts[0];
    if |p0| == 0 {
      if |parts| == 1 {
      } else {
        var tail := parts[1..];
        SplitJoin(tail, sep);
        var s := Join(parts, sep);
        assert s == [sep] + Join(tail, sep);
        assert s[1..] == Join(tail, sep);
        assert parts == [""] + tail;
      }
    } else {
      var shorter := [p0[1..]] + parts[1..];
      assert forall i :: 0 <= i < |shorter| ==> sep !in shorter[i] by {
        forall i | 0 <= i < |shorter| ensures sep !in shorter[i] {
          if i == 0 {
            assert forall k :: 0 <= k < |p0[1..]| ==> p0[1..][k] == p0[k + 1];
          } else {
            assert shorter[i] == parts[i];
          }
        }
      }
      SplitJoin(shorter, sep);
      assert shorter[1..] == parts[1..];
      assert [p0[0]] + p0[1..] == p0;
      JoinConsHead(p0[0], shorter, sep);
      assert [[p0[0]] + shorter[0]] + shorter[1..] == parts;
      var s := Join(parts, sep);
      assert s == [p0[0]] + Join(shorter, sep);
      assert s[1..] == Join(shorter, sep);
      assert s[0] == p0[0] && s[0] != sep;
    }
  }

  // ---------------------------------------------------------------------
  // Python's ordering of str values: by code point, a proper prefix first

  predicate LexLeq(a: string, b: string)
    decreases |a|
  {
    a == [] || (b != [] && (a[0] < b[0] || (a[0] == b[0] && LexLeq(a[1..], b[1..]))))
  }

  lemma {:induction false} LexLeqTotal(a: string, b: string)
    ensures LexLeq(a, b) || LexLeq(b, a)
    decreases |a|
  {
    if a != [] && b != [] && a[0] == b[0] {
      LexLeqTotal(a[1..], b[1..]);
    }
  }

  lemma {:induction false} LexLeqTransitive(a: string, b: string, c: string)
    requires LexLeq(a, b) && LexLeq(b, c)
    ensures LexLeq(a, c)
    decreases |a|
  {
    if a != [] && a[0] == b[0] && b[0] == c[0] {
      LexLeqTransitive(a[1..], b[1..], c[1..]);
    }
  }

  lemma {:induction false} LexLeqAntisymmetric(a: string, b: string)
    requires LexLeq(a, b) && LexLeq(b, a)
    ensures a == b
    decreases |a|
  {
    if a != [] {
      LexLeqAntisymmetric(a[1..], b[1..]);
      assert a == [a[0]] + a[1..] && b == [b[0]] + b[1..];
    }
  }
}
