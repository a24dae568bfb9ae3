/** Filtering of sequences. */
module Seqs {

  function Filter<T(!new)>(s: seq<T>, keep: T -> bool): (r: seq<T>)
    ensures forall x :: x in r <==> x in s && keep(x)
  {
    if s == [] then []
    else
      assert forall x :: x in s <==> x == s[0] || x in s[1..];
      (if keep(s[0]) then [s[0]] else []) + Filter(s[1..], keep)
  }

  lemma {:induction false} FilterAppend<T(!new)>(a: seq<T>, b: seq<T>, keep: T -> bool)
    ensures Filter(a + b, keep) == Filter(a, keep) + Filter(b, keep)
  {
    hide Filter;
    FilterNothing(keep);
    if a == [] {
      assert a + b == b;
    } else {
      FilterAppend(a[1..], b, keep);
      FilterCons(a, keep);
      FilterCons(a + b, keep);
      assert (a + b)[1..] == a[1..] + b;
    }
  }

  lemma FilterNothing<T(!new)>(keep: T -> bool)
    ensures Filter([], keep) == []
  {
  }

  lemma FilterMembers<T(!new)>(s: seq<T>, keep: T -> bool)
    ensures forall x :: x in Filter(s, keep) <==> x in s && keep(x)
  {
  }

  lemma FilterNone<T(!new)>(s: seq<T>, keep: T -> bool)
    requires forall i :: 0 <= i < |s| ==> !keep(s[i])
    ensures Filter(s, keep) == []
  {
    assert Filter(s, keep) != [] ==> exists x :: x in Filter(s, keep);
  }

  lemma FilterOne<T(!new)>(x: T, keep: T -> bool)
    ensures Filter([x], keep) == if keep(x) then [x] else []
  {
    assert [x][1..] == [];
  }

  lemma FilterCons<T(!new)>(s: seq<T>, keep: T -> bool)
    requires s != []
    ensures Filter(s, keep) == (if keep(s[0]) then [s[0]] else []) + Filter(s[1..], keep)
  {
  }

  lemma FilterSnoc<T(!new)>(a: seq<T>, x: T, keep: T -> bool)
    ensures Filter(a + [x], keep) == Filter(a, keep) + if keep(x) then [x] else []
  {
    hide Filter;
    FilterAppend(a, [x], keep);
    FilterOne(x, keep);
  }

  lemma {:induction false} FilterSwap<T(!new)>(s: seq<T>, p: T -> bool, q: T -> bool)
    ensures Filter(Filter(s, p), q) == Filter(Filter(s, q), p)
  {
    hide Filter;
    FilterNothing(p);
    FilterNothing(q);
    if s == [] {
    } else {
      FilterSwap(s[1..], p, q);
      FilterOfFiltered(s, p, q);
      FilterOfFiltered(s, q, p);
    }
  }

  lemma FilterOfFiltered<T(!new)>(s: seq<T>, p: T -> bool, q: T -> bool)
    requires s != []
    ensures Filter(Filter(s, p), q) == (if p(s[0]) && q(s[0]) then [s[0]] else []) + Filter(Filter(s[1..], p), q)
  {
    hide Filter;
    FilterCons(s, p);
    if p(s[0]) {
      FilterAppend([s[0]], Filter(s[1..], p), q);
      FilterOne(s[0], q);
    } else {
      assert Filter(s, p) == Filter(s[1..], p);
    }
  }
}
