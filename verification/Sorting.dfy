/** Sorting by a key, as sort.Ints and slices.SortFunc are used here: on keys that are all different. */
module Sorting {
  datatype Keyed<T> = Keyed(key: nat, item: T)

  predicate Increasing<T>(xs: seq<Keyed<T>>) {
    forall i, j :: 0 <= i < j < |xs| ==> xs[i].key < xs[j].key
  }

  predicate Distinct<T>(xs: seq<Keyed<T>>) {
    forall i, j :: 0 <= i < j < |xs| ==> xs[i].key != xs[j].key
  }

  lemma OneMoreDistinct<T>(xs: seq<Keyed<T>>, x: Keyed<T>)
    requires Distinct(xs) && forall y :: y in xs ==> y.key != x.key
    ensures Distinct(xs + [x])
  {
    assert forall i :: 0 <= i < |xs| ==> xs[i] in xs;
  }

  lemma Spliced<T>(xs: seq<Keyed<T>>, x: Keyed<T>, i: nat)
    requires Increasing(xs) && i <= |xs|
    requires i > 0 ==> xs[i - 1].key < x.key
    requires i < |xs| ==> x.key < xs[i].key
    ensures Increasing(xs[..i] + [x] + xs[i..])
  {
    var r := xs[..i] + [x] + xs[i..];
    forall p, q | 0 <= p < q < |r|
      ensures r[p].key < r[q].key
    {
      assert p < i ==> r[p] == xs[p];
      assert q > i ==> r[q] == xs[q - 1];
    }
  }

  method Insert<T>(xs: seq<Keyed<T>>, x: Keyed<T>) returns (r: seq<Keyed<T>>)
    requires Increasing(xs) && forall y :: y in xs ==> y.key != x.key
    ensures Increasing(r) && multiset(r) == multiset(xs) + multiset{x}
  {
    var i := |xs|;
    while i > 0 && x.key < xs[i - 1].key
      invariant 0 <= i <= |xs|
      invariant i < |xs| ==> x.key < xs[i].key
    {
      i := i - 1;
    }
    assert i > 0 ==> xs[i - 1] in xs;
    Spliced(xs, x, i);
    assert xs == xs[..i] + xs[i..];
    r := xs[..i] + [x] + xs[i..];
  }

  method Sort<T>(xs: seq<Keyed<T>>) returns (r: seq<Keyed<T>>)
    requires Distinct(xs)
    ensures Increasing(r) && multiset(r) == multiset(xs)
  {
    r := [];
    var i := 0;
    while i < |xs|
      invariant 0 <= i <= |xs|
      invariant Increasing(r) && multiset(r) == multiset(xs[..i])
    {
      forall y | y in r
        ensures y.key != xs[i].key
      {
        assert y in multiset(r);
        assert y in xs[..i];
      }
      r := Insert(r, xs[i]);
      assert xs[..i + 1] == xs[..i] + [xs[i]];
      i := i + 1;
    }
    assert xs[..|xs|] == xs;
  }

  /** Without its last element, an increasing sequence holds the others, whose keys are smaller. */
  lemma ButLast<T>(xs: seq<Keyed<T>>, x: Keyed<T>)
    requires Increasing(xs) && xs != []
    ensures x in xs[..|xs| - 1] <==> x in xs && x != xs[|xs| - 1]
    ensures x in xs && x != xs[|xs| - 1] ==> x.key < xs[|xs| - 1].key
  {
    var n := |xs| - 1;
    assert xs == xs[..n] + [xs[n]];
    assert x in xs[..n] ==> x.key < xs[n].key;
  }

  lemma SameLast<T>(xs: seq<Keyed<T>>, ys: seq<Keyed<T>>)
    requires Increasing(xs) && Increasing(ys)
    requires xs != [] && ys != [] && xs[|xs| - 1] in ys && ys[|ys| - 1] in xs
    ensures xs[|xs| - 1] == ys[|ys| - 1]
  {
    ButLast(xs, ys[|ys| - 1]);
    ButLast(ys, xs[|xs| - 1]);
  }

  function Init<T>(xs: seq<Keyed<T>>): seq<Keyed<T>>
    requires xs != []
  {
    xs[..|xs| - 1]
  }

  lemma SameButLast<T>(xs: seq<Keyed<T>>, ys: seq<Keyed<T>>)
    requires Increasing(xs) && Increasing(ys) && xs != [] && ys != []
    requires forall x :: x in xs <==> x in ys
    ensures xs[|xs| - 1] == ys[|ys| - 1]
    ensures forall x :: x in Init(xs) <==> x in Init(ys)
  {
    assert xs[|xs| - 1] in ys && ys[|ys| - 1] in xs;
    SameLast(xs, ys);
    forall x
      ensures x in Init(xs) <==> x in Init(ys)
    {
      ButLast(xs, x);
      ButLast(ys, x);
    }
  }

  lemma SameEmptiness<T>(xs: seq<Keyed<T>>, ys: seq<Keyed<T>>)
    requires forall x :: x in xs <==> x in ys
    ensures xs == [] <==> ys == []
  {
    if xs != [] {
      assert xs[0] in ys;
    }
    if ys != [] {
      assert ys[0] in xs;
    }
  }

  /** There is one increasing order of a set. */
  lemma {:induction false} OneOrder<T>(xs: seq<Keyed<T>>, ys: seq<Keyed<T>>)
    requires Increasing(xs) && Increasing(ys)
    requires forall x :: x in xs <==> x in ys
    ensures xs == ys
  {
    SameEmptiness(xs, ys);
    if xs != [] {
      var before, before' := Init(xs), Init(ys);
      SameButLast(xs, ys);
      OneOrder(before, before');
      assert xs == before + [xs[|xs| - 1]] && ys == before' + [ys[|ys| - 1]];
    }
  }
}
