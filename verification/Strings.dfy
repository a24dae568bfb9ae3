/** Byte strings and the few standard-library string operations the program leans on. */
module Strings {

  predicate OccursAt(t: string, s: string, i: nat) {
    i <= |s| && t <= s[i..]
  }

  /** Position of the leftmost occurrence of `t` in `s`, or -1. */
  function Index(s: string, t: string): (i: int)
    ensures -1 <= i <= |s|
    ensures i >= 0 ==> OccursAt(t, s, i)
    ensures forall j: nat {:trigger OccursAt(t, s, j)} :: OccursAt(t, s, j) ==> 0 <= i <= j
  {
    IndexFrom(s, t, 0)
  }

  function IndexFrom(s: string, t: string, from: nat): (i: int)
    requires from <= |s|
    ensures i == -1 || from <= i <= |s|
    ensures i >= 0 ==> OccursAt(t, s, i)
    ensures forall j: nat {:trigger OccursAt(t, s, j)} :: from <= j && OccursAt(t, s, j) ==> 0 <= i <= j
    decreases |s| - from
  {
    if OccursAt(t, s, from) then from
    else if from == |s| then -1
    else IndexFrom(s, t, from + 1)
  }

  predicate Contains(s: string, t: string) {
    Index(s, t) >= 0
  }

  predicate HasSuffix(s: string, t: string) {
    |t| <= |s| && s[|s| - |t|..] == t
  }

  /** strings.Count: non-overlapping occurrences. */
  function Count(s: string, t: string): nat
    requires t != []
    decreases |s|
  {
    var i := Index(s, t);
    if i < 0 then 0 else 1 + Count(s[i + |t|..], t)
  }

  // ----- what the operations mean -----

  lemma ContainsMeans(s: string, t: string)
    ensures Contains(s, t) <==> exists before, after :: s == before + t + after
  {
    if Contains(s, t) {
      var i := Index(s, t);
      assert s == s[..i] + t + s[i + |t|..];
    }
    forall before, after | s == before + t + after
      ensures Contains(s, t)
    {
      assert s[|before|..] == t + after;
      assert OccursAt(t, s, |before|);
    }
  }

  lemma HasSuffixMeans(s: string, t: string)
    ensures HasSuffix(s, t) <==> exists before :: s == before + t
  {
    if HasSuffix(s, t) {
      assert s == s[..|s| - |t|] + t;
    }
    forall before | s == before + t
      ensures HasSuffix(s, t)
    {
      assert s[|before|..] == t;
    }
  }

  /** One occurrence is counted exactly when the leftmost one is the last. */
  lemma CountsOne(before: string, t: string, after: string)
    requires t != [] && Index(before + t + after, t) == |before| && !Contains(after, t)
    ensures Count(before + t + after, t) == 1
  {
    var s := before + t + after;
    assert s[|before| + |t|..] == after;
  }
}
