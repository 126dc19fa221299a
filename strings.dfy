/** The few operations of Go's `strings` package that the encoding relies on:
    `HasPrefix`, `TrimPrefix` and the first two elements of `Split(s, ":")`. */
module Strings {

  /** `strings.HasPrefix(s, p)`. */
  predicate HasPrefix(s: string, p: string)
  {
    |p| <= |s| && s[..|p|] == p
  }

  /** `strings.TrimPrefix(s, p)`: drops one leading `p`, if there is one. */
  function TrimPrefix(s: string, p: string): (r: string)
    ensures HasPrefix(s, p) ==> p + r == s
    ensures !HasPrefix(s, p) ==> r == s
  {
    if HasPrefix(s, p) then s[|p|..] else s
  }

  lemma PrefixOfConcat(p: string, s: string)
    ensures HasPrefix(p + s, p) && (p + s)[|p|..] == s
  {
  }

  /** `strings.Split(s, ":")[0]`: everything before the first ':' (all of
      `s` when it has none). */
  function FirstSegment(s: string): (r: string)
    ensures HasPrefix(s, r) && ':' !in r
    ensures |r| < |s| ==> s[|r|] == ':'
    ensures (':' in s) == (|r| < |s|)
    decreases |s|
  {
    if s == [] || s[0] == ':' then "" else [s[0]] + FirstSegment(s[1..])
  }

  /** `strings.Split(s, ":")[1]`: the part between the first and the second
      ':' (or the end). Go panics when `s` has no ':' at all. */
  function SecondSegment(s: string): (r: string)
    requires ':' in s
    ensures ':' !in r
  {
    var rest := s[|FirstSegment(s)| + 1..];
    FirstSegment(rest)
  }

  /** Splitting a joined `a + ":" + b` at ':' gives back `a`, and `b` when
      neither holds a ':'. */
  lemma {:induction false} SegmentsOfJoin(a: string, b: string)
    requires ':' !in a && ':' !in b
    ensures ':' in a + ":" + b
    ensures FirstSegment(a + ":" + b) == a
    ensures SecondSegment(a + ":" + b) == b
  {
    FirstSegmentOfColonFree(b);
    FirstSegmentStopsAtColon(a, b);
    assert (a + ":" + b)[|a| + 1..] == b;
  }

  lemma {:induction false} FirstSegmentOfColonFree(s: string)
    requires ':' !in s
    ensures FirstSegment(s) == s
  {
    if s != [] {
      assert s[1..] + [] == s[1..];
      FirstSegmentOfColonFree(s[1..]);
    }
  }

  lemma {:induction false} FirstSegmentStopsAtColon(a: string, b: string)
    requires ':' !in a
    ensures FirstSegment(a + ":" + b) == a
    decreases |a|
  {
    if a != [] {
      assert (a + ":" + b)[1..] == a[1..] + ":" + b;
      FirstSegmentStopsAtColon(a[1..], b);
    }
  }
}
