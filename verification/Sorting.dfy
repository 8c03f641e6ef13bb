/** JavaScript's Array.sort with a comparator: all that is promised of the result is that it is a sorted permutation. */
module Sorting {

  ghost predicate TotalPreorder<T(!new)>(cmp: (T, T) -> int) {
    && (forall a, b :: cmp(a, b) <= 0 || cmp(b, a) <= 0)
    && (forall a, b, c :: cmp(a, b) <= 0 && cmp(b, c) <= 0 ==> cmp(a, c) <= 0)
  }

  ghost predicate SortedBy<T>(cmp: (T, T) -> int, xs: seq<T>) {
    forall i, j :: 0 <= i < j < |xs| ==> cmp(xs[i], xs[j]) <= 0
  }

  ghost predicate Permutation<T>(xs: seq<T>, ys: seq<T>) {
    multiset(xs) == multiset(ys)
  }

  lemma PermutationMembers<T>(xs: seq<T>, ys: seq<T>)
    requires Permutation(xs, ys)
    ensures |xs| == |ys|
    ensures forall x :: x in xs <==> x in ys
  {
    assert |multiset(xs)| == |multiset(ys)|;
    forall x
      ensures x in xs <==> x in ys
    {
      assert x in xs <==> x in multiset(xs);
      assert x in ys <==> x in multiset(ys);
    }
  }

  lemma TailPermutation<T>(xs: seq<T>, ys: seq<T>)
    requires Permutation(xs, ys) && |xs| > 0 && |ys| > 0 && xs[0] == ys[0]
    ensures Permutation(xs[1..], ys[1..])
  {
    assert xs == [xs[0]] + xs[1..] && ys == [ys[0]] + ys[1..];
    assert multiset(xs[1..]) == multiset(xs) - multiset{xs[0]};
    assert multiset(ys[1..]) == multiset(ys) - multiset{ys[0]};
  }

  method Sort<T(!new, ==)>(xs: seq<T>, cmp: (T, T) -> int) returns (ys: seq<T>)
    requires TotalPreorder(cmp)
    ensures SortedBy(cmp, ys) && Permutation(xs, ys)
  {
    ys := [];
    for i := 0 to |xs|
      invariant SortedBy(cmp, ys) && Permutation(xs[..i], ys)
    {
      var k := 0;
      while k < |ys| && cmp(ys[k], xs[i]) <= 0
        invariant k <= |ys|
        invariant forall j :: 0 <= j < k ==> cmp(ys[j], xs[i]) <= 0
      {
        k := k + 1;
      }
      assert xs[..i + 1] == xs[..i] + [xs[i]];
      InsertKeepsSorted(ys, k, xs[i], cmp);
      ys := InsertAt(ys, k, xs[i]);
    }
    assert xs[..|xs|] == xs;
  }

  function InsertAt<T>(ys: seq<T>, k: nat, x: T): (zs: seq<T>)
    requires k <= |ys|
    ensures multiset(zs) == multiset(ys) + multiset{x}
  {
    assert ys == ys[..k] + ys[k..];
    ys[..k] + [x] + ys[k..]
  }

  lemma InsertKeepsSorted<T(!new)>(ys: seq<T>, k: nat, x: T, cmp: (T, T) -> int)
    requires TotalPreorder(cmp) && SortedBy(cmp, ys)
    requires k <= |ys| && (forall j :: 0 <= j < k ==> cmp(ys[j], x) <= 0) && (k < |ys| ==> cmp(ys[k], x) > 0)
    ensures SortedBy(cmp, InsertAt(ys, k, x))
  {
    var zs := InsertAt(ys, k, x);
    forall i, j | 0 <= i < j < |zs|
      ensures cmp(zs[i], zs[j]) <= 0
    {
      var a, b := if i < k then i else i - 1, if j < k then j else j - 1;
      assert i != k ==> zs[i] == ys[a];
      assert j != k ==> zs[j] == ys[b];
      assert k < |ys| ==> cmp(x, ys[k]) <= 0;
      if i == k {
        assert b == k || cmp(ys[k], ys[b]) <= 0;
      } else if j != k {
        assert cmp(ys[a], ys[b]) <= 0;
      }
    }
  }
}
