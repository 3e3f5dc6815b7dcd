/** Filtering and ordered insertion, for any element type and relation. */
module Sequences {

  ghost predicate Pairwise<T>(es: seq<T>, rel: (T, T) -> bool) {
    forall i, j :: 0 <= i < j < |es| ==> rel(es[i], es[j])
  }

  ghost predicate All<T>(es: seq<T>, p: T -> bool) {
    forall i :: 0 <= i < |es| ==> p(es[i])
  }

  function Filter<T>(es: seq<T>, keep: T -> bool): seq<T> {
    if es == [] then []
    else (if keep(es[0]) then [es[0]] else []) + Filter(es[1..], keep)
  }

  /** The length of the longest prefix that sorts before `e`. */
  function Rank<T>(es: seq<T>, e: T, lt: (T, T) -> bool): (n: nat)
    ensures n <= |es|
    ensures n < |es| ==> !lt(es[n], e)
    ensures forall i :: 0 <= i < n ==> lt(es[i], e)
  {
    if es == [] || !lt(es[0], e) then 0 else 1 + Rank(es[1..], e, lt)
  }

  function Insert<T>(es: seq<T>, e: T, lt: (T, T) -> bool): seq<T> {
    var n := Rank(es, e, lt);
    es[..n] + [e] + es[n..]
  }

  lemma {:induction false} FilterMembers<T(!new)>(es: seq<T>, keep: T -> bool)
    ensures forall x :: x in Filter(es, keep) <==> x in es && keep(x)
  {
    if es != [] {
      FilterMembers(es[1..], keep);
      assert es == [es[0]] + es[1..];
    }
  }

  lemma {:induction false} FilterPairwise<T(!new)>(es: seq<T>, keep: T -> bool, rel: (T, T) -> bool)
    requires Pairwise(es, rel)
    ensures Pairwise(Filter(es, keep), rel)
  {
    if es != [] {
      var rest := es[1..];
      var f := Filter(rest, keep);
      FilterPairwise(rest, keep, rel);
      FilterMembers(rest, keep);
      forall j | 0 <= j < |f|
        ensures rel(es[0], f[j])
      {
        assert f[j] in f;
        var k :| 0 <= k < |rest| && rest[k] == f[j];
        assert es[k + 1] == f[j];
      }
    }
  }

  lemma FilterAll<T(!new)>(es: seq<T>, keep: T -> bool, p: T -> bool)
    requires All(es, p)
    ensures All(Filter(es, keep), p)
  {
    FilterMembers(es, keep);
    var f := Filter(es, keep);
    forall i | 0 <= i < |f|
      ensures p(f[i])
    {
      assert f[i] in f;
    }
  }

  lemma {:induction false} FilterSplit<T>(a: seq<T>, b: seq<T>, keep: T -> bool)
    ensures Filter(a + b, keep) == Filter(a, keep) + Filter(b, keep)
  {
    if a == [] {
      assert a + b == b;
      assert Filter(a, keep) == [];
    } else {
      var rest := a[1..];
      var head := if keep(a[0]) then [a[0]] else [];
      assert (a + b)[0] == a[0] && (a + b)[1..] == rest + b;
      FilterSplit(rest, b, keep);
      assert Filter(a + b, keep) == head + Filter(rest + b, keep);
      assert Filter(a, keep) == head + Filter(rest, keep);
      assert head + (Filter(rest, keep) + Filter(b, keep)) == head + Filter(rest, keep) + Filter(b, keep);
    }
  }

  lemma {:induction false} FilterNone<T(!new)>(es: seq<T>, keep: T -> bool)
    requires forall i :: 0 <= i < |es| ==> !keep(es[i])
    ensures Filter(es, keep) == []
  {
    if es != [] { FilterNone(es[1..], keep); }
  }

  lemma {:induction false} FilterEvery<T(!new)>(es: seq<T>, keep: T -> bool)
    requires forall i :: 0 <= i < |es| ==> keep(es[i])
    ensures Filter(es, keep) == es
  {
    if es != [] { FilterEvery(es[1..], keep); }
  }

  lemma {:induction false} FilterAllButOne<T(!new)>(es: seq<T>, keep: T -> bool, n: nat)
    requires n < |es| && !keep(es[n]) && forall i :: 0 <= i < |es| && i != n ==> keep(es[i])
    ensures Filter(es, keep) == es[..n] + es[n + 1..]
  {
    var rest := es[1..];
    if n == 0 {
      FilterEvery(rest, keep);
      assert es[..n] + es[n + 1..] == rest;
    } else {
      FilterAllButOne(rest, keep, n - 1);
      assert rest[..n - 1] == es[1..n] && rest[n..] == es[n + 1..];
      assert [es[0]] + (es[1..n] + es[n + 1..]) == es[..n] + es[n + 1..];
    }
  }

  lemma {:induction false} RankIs<T(!new)>(es: seq<T>, e: T, lt: (T, T) -> bool, n: nat)
    requires n <= |es| && (n < |es| ==> !lt(es[n], e))
    requires forall i :: 0 <= i < n ==> lt(es[i], e)
    ensures Rank(es, e, lt) == n
  {
    if n > 0 { RankIs(es[1..], e, lt, n - 1); }
  }

  /** Inserting by rank into an ordered sequence keeps it ordered. */
  lemma InsertPairwise<T(!new)>(es: seq<T>, e: T, lt: (T, T) -> bool)
    requires Pairwise(es, lt)
    requires forall x :: x in es ==> lt(x, e) || lt(e, x)
    requires forall x, y :: x in es && y in es && lt(e, x) && lt(x, y) ==> lt(e, y)
    ensures Pairwise(Insert(es, e, lt), lt)
  {
    var n, r := Rank(es, e, lt), Insert(es, e, lt);
    forall i | n <= i < |es|
      ensures lt(e, es[i])
    {
      assert es[n] in es && es[i] in es;
    }
    assert forall i :: 0 <= i < |r| ==> r[i] == if i < n then es[i] else if i == n then e else es[i - 1];
  }

  /** Inserting keeps any symmetric relation that the new element has with every old one. */
  lemma InsertSymmetric<T(!new)>(es: seq<T>, e: T, lt: (T, T) -> bool, rel: (T, T) -> bool)
    requires Pairwise(es, rel)
    requires forall x :: x in es ==> rel(x, e) && rel(e, x)
    ensures Pairwise(Insert(es, e, lt), rel)
  {
    var n, r := Rank(es, e, lt), Insert(es, e, lt);
    assert forall i :: 0 <= i < |r| ==> r[i] == if i < n then es[i] else if i == n then e else es[i - 1];
  }

  lemma InsertMembers<T(!new)>(es: seq<T>, e: T, lt: (T, T) -> bool)
    ensures forall x :: x in Insert(es, e, lt) <==> x == e || x in es
  {
    var n := Rank(es, e, lt);
    assert es == es[..n] + es[n..];
  }

  /** An ordered sequence is determined by its elements. */
  lemma {:induction false} OrderedUnique<T(!new)>(a: seq<T>, b: seq<T>, lt: (T, T) -> bool)
    requires Pairwise(a, lt) && Pairwise(b, lt) && forall x :: x in a <==> x in b
    requires forall x, y :: x in a && y in a && lt(x, y) ==> !lt(y, x)
    ensures a == b
  {
    if a == [] {
      assert forall i :: 0 <= i < |b| ==> b[i] in a;
    } else {
      assert a[0] in b && b != [] && b[0] in a;
      assert a[0] == b[0];
      assert a == [a[0]] + a[1..] && b == [b[0]] + b[1..];
      forall x
        ensures x in a[1..] <==> x in b[1..]
      {
        assert x in a[1..] ==> x in a && x != a[0];
        assert x in b[1..] ==> x in b && x != b[0];
      }
      OrderedUnique(a[1..], b[1..], lt);
    }
  }

  /** A filter that splits into an early and a late part is the concatenation of the two. */
  lemma {:induction false} FilterPartition<T(!new)>(es: seq<T>, p: T -> bool, early: T -> bool, late: T -> bool)
    requires forall i :: 0 <= i < |es| ==> (p(es[i]) <==> early(es[i]) || late(es[i])) && !(early(es[i]) && late(es[i]))
    requires forall i, j :: 0 <= i < j < |es| && late(es[i]) ==> !early(es[j])
    ensures Filter(es, p) == Filter(es, early) + Filter(es, late)
  {
    hide Filter;
    FilterNil(p);
    FilterNil(early);
    FilterNil(late);
    if es != [] {
      var x, rest := es[0], es[1..];
      FilterPartition(rest, p, early, late);
      FilterStep(es, p);
      FilterStep(es, early);
      FilterStep(es, late);
      if late(x) {
        FilterNone(rest, early);
      } else if early(x) {
        assert [x] + (Filter(rest, early) + Filter(rest, late)) == ([x] + Filter(rest, early)) + Filter(rest, late);
      }
    }
  }

  lemma FilterNil<T>(p: T -> bool)
    ensures Filter([], p) == []
  {
  }

  lemma FilterStep<T>(es: seq<T>, p: T -> bool)
    requires es != []
    ensures Filter(es, p) == if p(es[0]) then [es[0]] + Filter(es[1..], p) else Filter(es[1..], p)
  {
  }

  /** Filters that agree on the elements give the same result. */
  lemma {:induction false} FilterSame<T(!new)>(es: seq<T>, p: T -> bool, q: T -> bool)
    requires forall i :: 0 <= i < |es| ==> p(es[i]) == q(es[i])
    ensures Filter(es, p) == Filter(es, q)
  {
    if es != [] { FilterSame(es[1..], p, q); }
  }

  function Reversed<T>(es: seq<T>): (r: seq<T>)
    ensures |r| == |es| && forall i :: 0 <= i < |es| ==> r[i] == es[|es| - 1 - i]
  {
    if es == [] then [] else Reversed(es[1..]) + [es[0]]
  }

  lemma ReversedAppend<T>(a: seq<T>, b: seq<T>)
    ensures Reversed(a + b) == Reversed(b) + Reversed(a)
  {
  }
}
