/**
 * The few Python 2 string operations the two scripts rely on:
 * substring search (`re.search` on a literal pattern), `str.split(sep)`,
 * `str.count(sep)` and `str.strip()` with no argument.
 */
module Strings {
  import opened Wrappers

  /** `sub` occurs in `s` starting at index `j`. */
  predicate OccursAt(s: string, sub: string, j: int)
  {
    0 <= j && j + |sub| <= |s| && s[j..j + |sub|] == sub
  }

  lemma OccursShiftAt(s: string, sub: string, j: int)
    requires |s| > 0 && 0 <= j
    ensures OccursAt(s[1..], sub, j) <==> OccursAt(s, sub, j + 1)
  {
    if 0 <= j && j + |sub| <= |s| - 1 {
      assert s[1..][j..j + |sub|] == s[j + 1..j + 1 + |sub|];
    }
  }

  /** Occurrences in `s[1..]` are the occurrences in `s` after index 0, shifted by one. */
  lemma OccursShift(s: string, sub: string)
    requires |s| > 0
    ensures forall j {:trigger OccursAt(s[1..], sub, j)} :: 0 <= j ==> (OccursAt(s[1..], sub, j) <==> OccursAt(s, sub, j + 1))
    ensures forall j {:trigger OccursAt(s, sub, j)} :: 0 < j ==> (OccursAt(s, sub, j) <==> OccursAt(s[1..], sub, j - 1))
  {
    forall j | 0 <= j ensures OccursAt(s[1..], sub, j) <==> OccursAt(s, sub, j + 1) {
      OccursShiftAt(s, sub, j);
    }
    forall j | 0 < j ensures OccursAt(s, sub, j) <==> OccursAt(s[1..], sub, j - 1) {
      OccursShiftAt(s, sub, j - 1);
    }
  }

  /** The index of the leftmost occurrence of `sub` in `s`, if any. */
  function IndexOf(s: string, sub: string): (r: Option<nat>)
    ensures r.Some? ==> OccursAt(s, sub, r.value)
    decreases |s|
  {
    if |s| < |sub| then None
    else if s[..|sub|] == sub then Some(0)
    else
      match IndexOf(s[1..], sub)
      case None => None
      case Some(i) => OccursShiftAt(s, sub, i); Some(i + 1)
  }

  /** `IndexOf` finds the leftmost occurrence, and finds none exactly when there is none. */
  lemma {:induction false} IndexOfSpec(s: string, sub: string)
    ensures IndexOf(s, sub).Some? ==> forall j :: 0 <= j < IndexOf(s, sub).value ==> !OccursAt(s, sub, j)
    ensures IndexOf(s, sub).None? <==> forall j :: !OccursAt(s, sub, j)
    decreases |s|
  {
    if |s| < |sub| {
    } else if s[..|sub|] == sub {
      assert OccursAt(s, sub, 0);
    } else {
      IndexOfSpec(s[1..], sub);
      OccursShift(s, sub);
      assert !OccursAt(s, sub, 0);
    }
  }

  /** Substring test, as `re.search` does for a pattern without metacharacters. */
  predicate Contains(s: string, sub: string)
    decreases |s|
  {
    |sub| <= |s| && (s[..|sub|] == sub || Contains(s[1..], sub))
  }

  /** `Contains` holds exactly when `sub` occurs somewhere in `s`. */
  lemma {:induction false} ContainsOccurs(s: string, sub: string)
    ensures Contains(s, sub) <==> exists j :: OccursAt(s, sub, j)
    decreases |s|
  {
    if |sub| > |s| {
      assert forall j :: !OccursAt(s, sub, j);
    } else if s[..|sub|] == sub {
      assert OccursAt(s, sub, 0);
    } else {
      ContainsOccurs(s[1..], sub);
      OccursShift(s, sub);
      assert !OccursAt(s, sub, 0);
      if Contains(s, sub) {
        var j :| OccursAt(s[1..], sub, j);
        assert OccursAt(s, sub, j + 1);
      } else {
        forall j | 0 < j ensures !OccursAt(s, sub, j) {
          OccursShiftAt(s, sub, j - 1);
        }
      }
    }
  }

  /** A string that does not contain `sub` has no occurrence of it at any index. */
  lemma NotContains(s: string, sub: string)
    requires !Contains(s, sub)
    ensures forall j :: !OccursAt(s, sub, j)
  {
    ContainsOccurs(s, sub);
  }

  /** An occurrence inside `s` is still one after text is put around `s`. */
  lemma ContainsInfix(p: string, s: string, q: string, sub: string)
    requires Contains(s, sub)
    ensures Contains(p + s + q, sub)
  {
    ContainsOccurs(s, sub);
    ContainsOccurs(p + s + q, sub);
    var j :| OccursAt(s, sub, j);
    var t := p + s + q;
    assert forall k :: |p| <= k < |p| + |s| ==> t[k] == s[k - |p|];
    assert t[|p| + j..|p| + j + |sub|] == s[j..j + |sub|];
    assert OccursAt(t, sub, |p| + j);
  }

  /** An occurrence with none before it is the one `IndexOf` finds. */
  lemma IndexOfFirst(s: string, sub: string, i: nat)
    requires OccursAt(s, sub, i)
    requires forall j :: 0 <= j < i ==> !OccursAt(s, sub, j)
    ensures IndexOf(s, sub) == Some(i)
  {
    var r := IndexOf(s, sub);
    IndexOfSpec(s, sub);
    assert r.Some?;
    assert !(r.value < i) && !(i < r.value);
  }

  /**
   * Whitespace put around `x` creates no occurrence of a separator that
   * holds no whitespace: every window that reaches into the padding holds a space.
   */
  lemma PaddedFree(p: string, x: string, q: string, sep: string)
    requires |sep| > 0 && !IsSpace(sep[0]) && !IsSpace(sep[|sep| - 1])
    requires AllSpace(p) && AllSpace(q) && !Contains(x, sep)
    ensures !Contains(p + x + q, sep)
  {
    var t := p + x + q;
    ContainsOccurs(x, sep);
    ContainsOccurs(t, sep);
    forall j | 0 <= j && j + |sep| <= |t| ensures !OccursAt(t, sep, j) {
      if j < |p| {
        assert t[j] == p[j];
      } else if j + |sep| > |p| + |x| {
        assert t[j + |sep| - 1] == q[j + |sep| - 1 - |p| - |x|];
      } else {
        assert t[j..j + |sep|] == x[j - |p|..j - |p| + |sep|];
        assert !OccursAt(x, sep, j - |p|);
      }
    }
  }

  /** Concatenation of `parts` with `sep` between neighbours (Python `sep.join`). */
  function Join(parts: seq<string>, sep: string): string
    decreases |parts|
  {
    if |parts| == 0 then ""
    else if |parts| == 1 then parts[0]
    else parts[0] + sep + Join(parts[1..], sep)
  }

  lemma NoOccurrenceInPrefix(s: string, sub: string, i: nat)
    requires |sub| > 0 && i <= |s|
    requires forall j :: 0 <= j < i ==> !OccursAt(s, sub, j)
    ensures forall j :: !OccursAt(s[..i], sub, j)
  {
    forall j | OccursAt(s[..i], sub, j)
      ensures false
    {
      assert s[..i][j..j + |sub|] == s[j..j + |sub|];
      assert OccursAt(s, sub, j);
    }
  }

  /**
   * Python `s.split(sep)` for a non-empty separator: cut at every leftmost
   * non-overlapping occurrence of `sep`.
   */
  function Split(s: string, sep: string): (r: seq<string>)
    requires |sep| > 0
    ensures |r| >= 1
    decreases |s|
  {
    match IndexOf(s, sep)
    case None => [s]
    case Some(i) => [s[..i]] + Split(s[i + |sep|..], sep)
  }

  /** A string free of the separator splits into itself alone. */
  lemma SplitWhole(s: string, sep: string)
    requires |sep| > 0 && !Contains(s, sep)
    ensures Split(s, sep) == [s]
  {
    ContainsOccurs(s, sep);
  }

  /** The three parts of `a + (m + r)` are its slices. */
  lemma ConcatSlices(a: string, m: string, r: string)
    ensures var t := a + (m + r);
      t[..|a|] == a && t[|a|..|a| + |m|] == m && t[|a| + |m|..] == r
  {
  }

  /** The first occurrence of the separator ends the first part; the rest is split on its own. */
  lemma SplitFrom(s: string, sep: string, i: nat)
    requires |sep| > 0 && IndexOf(s, sep) == Some(i)
    ensures i + |sep| <= |s| && Split(s, sep) == [s[..i]] + Split(s[i + |sep|..], sep)
  {
  }

  /** A separator after a piece in which none starts is the first occurrence. */
  lemma FirstOccurrenceAfter(a: string, sep: string, r: string)
    requires forall j :: 0 <= j < |a| ==> !OccursAt(a + (sep + r), sep, j)
    ensures IndexOf(a + (sep + r), sep) == Some(|a|)
  {
    ConcatSlices(a, sep, r);
    IndexOfFirst(a + (sep + r), sep, |a|);
  }

  /** A piece followed by the first occurrence of the separator is cut off whole. */
  lemma SplitFirstPiece(a: string, sep: string, r: string)
    requires |sep| > 0 && IndexOf(a + (sep + r), sep) == Some(|a|)
    ensures Split(a + (sep + r), sep) == [a] + Split(r, sep)
  {
    ConcatSlices(a, sep, r);
    SplitPieces(a + (sep + r), sep, |a|, a, r);
  }

  /** `SplitFrom` with the two sides of the first occurrence named. */
  lemma SplitPieces(s: string, sep: string, n: nat, head: string, tail: string)
    requires |sep| > 0 && IndexOf(s, sep) == Some(n)
    requires n + |sep| <= |s| && s[..n] == head && s[n + |sep|..] == tail
    ensures Split(s, sep) == [head] + Split(tail, sep)
  {
    SplitFrom(s, sep, n);
  }

  /** Joining the parts of a split with the separator gives back the string. */
  lemma {:induction false} SplitJoin(s: string, sep: string)
    requires |sep| > 0
    ensures Join(Split(s, sep), sep) == s
    decreases |s|
  {
    match IndexOf(s, sep)
    case None =>
    case Some(i) =>
      var rest := Split(s[i + |sep|..], sep);
      SplitJoin(s[i + |sep|..], sep);
      assert ([s[..i]] + rest)[1..] == rest;
      assert Join([s[..i]] + rest, sep) == s[..i] + sep + Join(rest, sep);
      assert s == s[..i] + sep + s[i + |sep|..];
  }

  /** No part of a split contains the separator. */
  lemma {:induction false} SplitPartsFree(s: string, sep: string)
    requires |sep| > 0
    ensures forall i :: 0 <= i < |Split(s, sep)| ==> !Contains(Split(s, sep)[i], sep)
    decreases |s|
  {
    IndexOfSpec(s, sep);
    match IndexOf(s, sep)
    case None =>
      ContainsOccurs(s, sep);
    case Some(i) =>
      NoOccurrenceInPrefix(s, sep, i);
      ContainsOccurs(s[..i], sep);
      SplitPartsFree(s[i + |sep|..], sep);
      var r := Split(s, sep);
      assert r == [s[..i]] + Split(s[i + |sep|..], sep);
      forall k | 0 <= k < |r| ensures !Contains(r[k], sep) {
        if k > 0 { assert r[k] == Split(s[i + |sep|..], sep)[k - 1]; }
      }
  }

  /** Python `s.count(sep)`: occurrences of `sep`, scanned left to right without overlap. */
  function Count(s: string, sep: string): nat
    requires |sep| > 0
    decreases |s|
  {
    if |s| < |sep| then 0
    else if s[..|sep|] == sep then 1 + Count(s[|sep|..], sep)
    else Count(s[1..], sep)
  }

  lemma {:induction false} CountNone(s: string, sep: string)
    requires |sep| > 0
    requires forall j :: !OccursAt(s, sep, j)
    ensures Count(s, sep) == 0
    decreases |s|
  {
    if |s| >= |sep| {
      assert !OccursAt(s, sep, 0);
      OccursShift(s, sep);
      CountNone(s[1..], sep);
    }
  }

  lemma {:induction false} CountFirst(s: string, sep: string, i: nat)
    requires |sep| > 0
    requires OccursAt(s, sep, i)
    requires forall j :: 0 <= j < i ==> !OccursAt(s, sep, j)
    ensures Count(s, sep) == 1 + Count(s[i + |sep|..], sep)
    decreases i
  {
    if i > 0 {
      assert !OccursAt(s, sep, 0);
      OccursShift(s, sep);
      CountFirst(s[1..], sep, i - 1);
      assert s[1..][i - 1 + |sep|..] == s[i + |sep|..];
    }
  }

  /** A string with k occurrences of the separator splits into exactly k + 1 parts. */
  lemma {:induction false} SplitCount(s: string, sep: string)
    requires |sep| > 0
    ensures |Split(s, sep)| == Count(s, sep) + 1
    decreases |s|
  {
    match IndexOf(s, sep)
    case None =>
      CountWithout(s, sep);
    case Some(i) =>
      CountFrom(s, sep, i);
      SplitFrom(s, sep, i);
      SplitCount(s[i + |sep|..], sep);
  }

  /** Without an occurrence the count is zero. */
  lemma CountWithout(s: string, sep: string)
    requires |sep| > 0 && IndexOf(s, sep).None?
    ensures Count(s, sep) == 0
  {
    IndexOfSpec(s, sep);
    CountNone(s, sep);
  }

  /** The count is one more than the count after the first occurrence. */
  lemma CountFrom(s: string, sep: string, i: nat)
    requires |sep| > 0 && IndexOf(s, sep) == Some(i)
    ensures i + |sep| <= |s| && Count(s, sep) == 1 + Count(s[i + |sep|..], sep)
  {
    IndexOfSpec(s, sep);
    CountFirst(s, sep, i);
  }

  /** The whitespace of Python 2 `str.strip()`: space, tab, newline, return, vertical tab, form feed. */
  predicate IsSpace(c: char)
  {
    c == ' ' || c == '\t' || c == '\n' || c == '\r' || c == '\U{000B}' || c == '\U{000C}'
  }

  predicate AllSpace(s: string)
  {
    forall k :: 0 <= k < |s| ==> IsSpace(s[k])
  }

  /** The first index at or after `k` that does not hold whitespace (or `|s|`). */
  function LeadingEnd(s: string, k: nat): (n: nat)
    requires k <= |s|
    ensures k <= n <= |s|
    decreases |s| - k
  {
    if k < |s| && IsSpace(s[k]) then LeadingEnd(s, k + 1) else k
  }

  /** The index just after the last non-space before index `k` (or 0). */
  function TrailingStart(s: string, k: nat): (n: nat)
    requires k <= |s|
    ensures n <= k
    decreases k
  {
    if k > 0 && IsSpace(s[k - 1]) then TrailingStart(s, k - 1) else k
  }

  /** Python `s.lstrip()`: the suffix left once the leading whitespace is removed. */
  function LStrip(s: string): string
  {
    s[LeadingEnd(s, 0)..]
  }

  /** Python `s.rstrip()`: the prefix left once the trailing whitespace is removed. */
  function RStrip(s: string): string
  {
    s[..TrailingStart(s, |s|)]
  }

  /** Python `s.strip()`. */
  function Strip(s: string): string
  {
    RStrip(LStrip(s))
  }

  /** `LeadingEnd` skips whitespace only, and stops at a non-space or at the end. */
  lemma {:induction false} LeadingEndSpec(s: string, k: nat)
    requires k <= |s|
    ensures var n := LeadingEnd(s, k); (forall j :: k <= j < n ==> IsSpace(s[j])) && (n == |s| || !IsSpace(s[n]))
    decreases |s| - k
  {
    if k < |s| && IsSpace(s[k]) {
      LeadingEndSpec(s, k + 1);
    }
  }

  /** `TrailingStart` skips whitespace only, and stops after a non-space or at the start. */
  lemma {:induction false} TrailingStartSpec(s: string, k: nat)
    requires k <= |s|
    ensures var n := TrailingStart(s, k); (forall j :: n <= j < k ==> IsSpace(s[j])) && (n == 0 || !IsSpace(s[n - 1]))
    decreases k
  {
    if k > 0 && IsSpace(s[k - 1]) {
      TrailingStartSpec(s, k - 1);
    }
  }

  /** A slice of `s` over which every character is whitespace is all whitespace. */
  lemma SpaceSlice(s: string, lo: nat, hi: nat)
    requires lo <= hi <= |s|
    requires forall j :: lo <= j < hi ==> IsSpace(s[j])
    ensures AllSpace(s[lo..hi])
  {
    forall k | 0 <= k < hi - lo ensures IsSpace(s[lo..hi][k]) {
      assert s[lo..hi][k] == s[lo + k];
    }
  }

  /** `Strip(s)` is the slice of `s` from the end of its leading whitespace. */
  lemma StripSlice(s: string)
    ensures var i := LeadingEnd(s, 0); var t := s[i..]; var e := TrailingStart(t, |t|);
      Strip(s) == s[i..i + e] && s[i + e..] == t[e..]
  {
    var i := LeadingEnd(s, 0);
    var t := s[i..];
    SliceOfSuffix(s, i, TrailingStart(t, |t|));
  }

  /** What `Strip` removes on the left is whitespace, and what it keeps starts with a non-space. */
  lemma StripLeft(s: string)
    ensures var r := Strip(s); AllSpace(s[..LeadingEnd(s, 0)]) && (r == [] || !IsSpace(r[0]))
  {
    var i := LeadingEnd(s, 0);
    LeadingEndSpec(s, 0);
    SpaceSlice(s, 0, i);
    assert s[0..i] == s[..i];
    StripSlice(s);
  }

  /** What `Strip` removes on the right is whitespace, and what it keeps ends with a non-space. */
  lemma StripRight(s: string)
    ensures var i, r := LeadingEnd(s, 0), Strip(s);
      i + |r| <= |s| && AllSpace(s[i + |r|..]) && (r == [] || !IsSpace(r[|r| - 1]))
  {
    var i := LeadingEnd(s, 0);
    var t := s[i..];
    var e := TrailingStart(t, |t|);
    TrailingStartSpec(t, |t|);
    SpaceSlice(t, e, |t|);
    assert t[e..|t|] == t[e..];
    StripSlice(s);
    assert e == 0 || Strip(s)[e - 1] == t[e - 1];
  }

  /**
   * `Strip(s)` is the part of `s` between its leading and its trailing
   * whitespace, and itself neither starts nor ends with whitespace.
   */
  lemma StripSpec(s: string)
    ensures var r := Strip(s);
      (exists i :: 0 <= i <= |s| - |r| && s[i..i + |r|] == r && AllSpace(s[..i]) && AllSpace(s[i + |r|..])) &&
      (r == [] || (!IsSpace(r[0]) && !IsSpace(r[|r| - 1])))
  {
    StripLeft(s);
    StripRight(s);
    StripSlice(s);
    var i := LeadingEnd(s, 0);
    assert 0 <= i <= |s| - |Strip(s)|;
  }

  lemma SliceOfSuffix(s: string, i: nat, k: nat)
    requires i + k <= |s|
    ensures s[i..][..k] == s[i..i + k] && s[i..][k..] == s[i + k..]
  {
  }

  /** Stripping whitespace put around a text that neither starts nor ends with whitespace gives that text back. */
  lemma StripAround(p: string, x: string, q: string)
    requires AllSpace(p) && AllSpace(q)
    requires x == [] || (!IsSpace(x[0]) && !IsSpace(x[|x| - 1]))
    ensures Strip(p + x + q) == x
  {
    var s := p + x + q;
    var i, e := LeadingEnd(s, 0), |Strip(s)|;
    StripLeft(s);
    StripRight(s);
    StripSlice(s);
    LeadingEndSpec(s, 0);
    if x == [] {
      assert s == p + q;
      assert i == |s|;
    } else {
      assert s[|p|] == x[0] && s[|p| + |x| - 1] == x[|x| - 1];
      assert forall k :: 0 <= k < |p| ==> IsSpace(s[k]);
      assert i == |p|;
      assert Strip(s) == s[|p|..|p| + |x|] == x;
    }
  }

  /** Stripping twice is stripping once. */
  lemma StripIdempotent(s: string)
    ensures Strip(Strip(s)) == Strip(s)
  {
    StripSpec(s);
  }
}
