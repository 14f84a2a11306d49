/**
 Sorting by a total preorder. The source sorts with the sort of Python, that is stable, and
 with the sorts of numpy, that need not be: records with equal keys may come in any order.
 For that reason nothing in this project uses more than `IsSortOf`, which every sort
 guarantees: the result is a permutation of what was given and is ordered. A comparison
 function is a parameter, as keys are tuples, tags, numbers or texts. The method `Sort` shows
 that such a result can always be computed; it is the only one called by other modules.
 */
module Sorting {

  ghost predicate TotalPreorder<X(!new)>(le: (X, X) -> bool) {
    && (forall x, y :: le(x, y) || le(y, x))
    && (forall x, y, z :: le(x, y) && le(y, z) ==> le(x, z))
  }

  ghost predicate SortedBy<X>(xs: seq<X>, le: (X, X) -> bool) {
    forall i, j :: 0 <= i < j < |xs| ==> le(xs[i], xs[j])
  }

  ghost predicate IsSortOf<X>(ys: seq<X>, xs: seq<X>, le: (X, X) -> bool) {
    multiset(ys) == multiset(xs) && SortedBy(ys, le)
  }

  lemma {:induction false} PermutationLength<X>(xs: seq<X>, ys: seq<X>)
    requires multiset(xs) == multiset(ys)
    ensures |xs| == |ys| && forall x :: x in xs <==> x in ys
  {
    assert |multiset(xs)| == |xs| && |multiset(ys)| == |ys|;
    assert forall x :: x in xs <==> x in multiset(xs);
    assert forall x :: x in ys <==> x in multiset(ys);
  }

  /** What holds of every element holds of every element of a permutation. */
  lemma {:induction false} PermutationAll<X>(xs: seq<X>, ys: seq<X>, p: X -> bool)
    requires multiset(xs) == multiset(ys) && forall i :: 0 <= i < |xs| ==> p(xs[i])
    ensures forall i :: 0 <= i < |ys| ==> p(ys[i])
  {
    PermutationLength(xs, ys);
    forall i | 0 <= i < |ys| ensures p(ys[i]) {
      assert ys[i] in xs;
    }
  }

  method Insert<X(!new)>(x: X, xs: seq<X>, le: (X, X) -> bool) returns (ys: seq<X>)
    requires TotalPreorder(le) && SortedBy(xs, le)
    ensures SortedBy(ys, le) && multiset(ys) == multiset(xs) + multiset{x}
  {
    var i := |xs|;
    while i > 0 && !le(xs[i - 1], x)
      invariant 0 <= i <= |xs|
      invariant forall j :: i <= j < |xs| ==> le(x, xs[j])
    {
      i := i - 1;
    }
    ys := xs[..i] + [x] + xs[i..];
    InsertAt(x, xs, i, le);
  }

  lemma {:induction false} InsertAt<X(!new)>(x: X, xs: seq<X>, i: nat, le: (X, X) -> bool)
    requires TotalPreorder(le) && SortedBy(xs, le) && i <= |xs|
    requires (i > 0 ==> le(xs[i - 1], x)) && forall j :: i <= j < |xs| ==> le(x, xs[j])
    ensures var ys := xs[..i] + [x] + xs[i..];
      SortedBy(ys, le) && multiset(ys) == multiset(xs) + multiset{x}
  {
    var ys := xs[..i] + [x] + xs[i..];
    assert xs == xs[..i] + xs[i..];
    forall j, k | 0 <= j < k < |ys| ensures le(ys[j], ys[k]) {
      if j < i && k == i && j < i - 1 {
        assert le(xs[j], xs[i - 1]);
      } else if j < i && k > i {
        assert le(xs[j], xs[k - 1]);
      } else if j > i {
        assert le(xs[j - 1], xs[k - 1]);
      }
    }
  }

  /** A stable insertion sort. */
  method Sort<X(!new)>(xs: seq<X>, le: (X, X) -> bool) returns (ys: seq<X>)
    requires TotalPreorder(le)
    ensures IsSortOf(ys, xs, le)
  {
    ys := [];
    for i := 0 to |xs|
      invariant SortedBy(ys, le) && multiset(ys) == multiset(xs[..i])
    {
      assert xs[..i + 1] == xs[..i] + [xs[i]];
      ys := Insert(xs[i], ys, le);
    }
    assert xs[..|xs|] == xs;
  }
}
