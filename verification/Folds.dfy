/**
 General lemmas about lists, used by all parts of the project. A left fold whose steps can
 be exchanged gives the same result for every permutation of its list; this is what makes a
 parallel reduction independent of the order in which the results arrive. `Bag` is the
 multiset of all that the elements of a list contribute, and does not depend on their order
 either; with it permutations are carried through functions that map, filter or flatten.
 The concatenation of lists is here as well: concatenating the same lists in another order
 gives a permutation. Lemmas over prefixes are stated with the length of the prefix.
 */
module Folds {

  function Fold<A, X>(f: (A, X) -> A, acc: A, xs: seq<X>): A {
    if xs == [] then acc else Fold(f, f(acc, xs[0]), xs[1..])
  }

  /** Two consecutive steps of `f` can be exchanged. */
  ghost predicate LeftCommutes<A(!new), X(!new)>(f: (A, X) -> A) {
    forall a, x, y :: f(f(a, x), y) == f(f(a, y), x)
  }

  /** Two consecutive steps of `f` with elements of `xs` can be exchanged. */
  ghost predicate CommutesOn<A(!new), X(!new)>(f: (A, X) -> A, xs: seq<X>) {
    forall a, x, y :: x in xs && y in xs ==> f(f(a, x), y) == f(f(a, y), x)
  }

  lemma {:induction false} FoldAppend<A, X>(f: (A, X) -> A, acc: A, xs: seq<X>, ys: seq<X>)
    ensures Fold(f, acc, xs + ys) == Fold(f, Fold(f, acc, xs), ys)
  {
    if xs == [] {
      assert xs + ys == ys;
    } else {
      assert (xs + ys)[1..] == xs[1..] + ys;
      FoldAppend(f, f(acc, xs[0]), xs[1..], ys);
    }
  }

  /** An element can be folded first. */
  lemma {:induction false} FoldPull<A(!new), X(!new)>(f: (A, X) -> A, acc: A, xs: seq<X>, i: nat)
    requires CommutesOn(f, xs) && i < |xs|
    ensures Fold(f, acc, xs) == Fold(f, f(acc, xs[i]), xs[..i] + xs[i + 1..])
  {
    var rest := xs[..i] + xs[i + 1..];
    if i == 0 {
      assert rest == xs[1..];
    } else {
      assert xs[1..][..i - 1] + xs[1..][i..] == rest[1..];
      FoldPull(f, f(acc, xs[0]), xs[1..], i - 1);
      assert xs[0] in xs && xs[i] in xs;
    }
  }

  /** The head of `xs` occurs in any permutation of it, and removing both leaves permutations. */
  lemma {:induction false} RemoveHead<X>(xs: seq<X>, ys: seq<X>) returns (i: nat)
    requires xs != [] && multiset(xs) == multiset(ys)
    ensures i < |ys| && ys[i] == xs[0]
    ensures multiset(xs[1..]) == multiset(ys[..i] + ys[i + 1..])
  {
    assert xs[0] in multiset(xs);
    assert xs[0] in ys;
    i :| 0 <= i < |ys| && ys[i] == xs[0];
    assert xs == [xs[0]] + xs[1..];
    assert ys == ys[..i] + ([ys[i]] + ys[i + 1..]);
    assert multiset(ys) == multiset(ys[..i]) + (multiset{ys[i]} + multiset(ys[i + 1..]));
    assert multiset(xs) == multiset{xs[0]} + multiset(xs[1..]);
    assert multiset(ys[..i] + ys[i + 1..]) == multiset(ys[..i]) + multiset(ys[i + 1..]);
    assert multiset(xs[1..]) == multiset(xs) - multiset{xs[0]};
  }

  lemma {:induction false} FoldPermutation<A(!new), X(!new)>(f: (A, X) -> A, acc: A, xs: seq<X>, ys: seq<X>)
    requires CommutesOn(f, xs) && multiset(xs) == multiset(ys)
    ensures Fold(f, acc, xs) == Fold(f, acc, ys)
    decreases |xs|
  {
    if xs == [] {
      assert |multiset(ys)| == 0;
    } else {
      var i := RemoveHead(xs, ys);
      SameElements(xs, ys);
      FoldPull(f, acc, ys, i);
      FoldPermutation(f, f(acc, xs[0]), xs[1..], ys[..i] + ys[i + 1..]);
    }
  }

  lemma {:induction false} SameElements<X>(xs: seq<X>, ys: seq<X>)
    requires multiset(xs) == multiset(ys)
    ensures forall x :: x in xs <==> x in ys
  {
    assert forall x :: x in xs <==> x in multiset(xs);
    assert forall x :: x in ys <==> x in multiset(ys);
  }

  /** What the elements contribute, all together. */
  function Bag<X, Y>(b: X -> multiset<Y>, xs: seq<X>): multiset<Y> {
    if xs == [] then multiset{} else b(xs[0]) + Bag(b, xs[1..])
  }

  lemma {:induction false} BagPull<X, Y>(b: X -> multiset<Y>, xs: seq<X>, i: nat)
    requires i < |xs|
    ensures Bag(b, xs) == b(xs[i]) + Bag(b, xs[..i] + xs[i + 1..])
  {
    var rest := xs[..i] + xs[i + 1..];
    if i == 0 {
      assert rest == xs[1..];
    } else {
      assert xs[1..][..i - 1] + xs[1..][i..] == rest[1..];
      BagPull(b, xs[1..], i - 1);
      assert Bag(b, rest) == b(xs[0]) + Bag(b, rest[1..]);
    }
  }

  lemma {:induction false} BagPermutation<X, Y>(b: X -> multiset<Y>, xs: seq<X>, ys: seq<X>)
    requires multiset(xs) == multiset(ys)
    ensures Bag(b, xs) == Bag(b, ys)
    decreases |xs|
  {
    if xs == [] {
      assert |multiset(ys)| == 0;
    } else {
      var i := RemoveHead(xs, ys);
      BagPull(b, ys, i);
      BagPermutation(b, xs[1..], ys[..i] + ys[i + 1..]);
    }
  }

  lemma {:induction false} BagLast<X, Y>(b: X -> multiset<Y>, xs: seq<X>, n: nat)
    requires 0 < n <= |xs|
    ensures Bag(b, xs[..n]) == b(xs[n - 1]) + Bag(b, xs[..n - 1])
  {
    BagPull(b, xs[..n], n - 1);
    assert xs[..n][..n - 1] + xs[..n][n..] == xs[..n - 1];
  }

  // ---- multiplicities ----

  lemma {:induction false} CountAppend<X>(xs: seq<X>, ys: seq<X>, x: X)
    ensures multiset(xs + ys)[x] == multiset(xs)[x] + multiset(ys)[x]
  {
  }

  lemma {:induction false} CountSnoc<X>(xs: seq<X>, last: X, x: X)
    ensures multiset(xs + [last])[x] == multiset(xs)[x] + if last == x then 1 else 0
  {
  }

  lemma {:induction false} TwiceIsTwo<X>(xs: seq<X>, i: nat, j: nat)
    requires i < |xs| && j < |xs| && i != j && xs[i] == xs[j]
    ensures multiset(xs)[xs[i]] >= 2
  {
    var a, b := if i < j then i else j, if i < j then j else i;
    assert xs == xs[..a] + [xs[a]] + xs[a + 1..b] + [xs[b]] + xs[b + 1..];
  }

  lemma {:induction false} OnceIsOne<X>(xs: seq<X>, x: X)
    requires forall i, j :: 0 <= i < j < |xs| ==> xs[i] != xs[j]
    ensures multiset(xs)[x] <= 1
    decreases |xs|
  {
    if xs == [] {
    } else {
      OnceIsOne(xs[1..], x);
      assert xs == [xs[0]] + xs[1..];
      if xs[0] == x && x in xs[1..] {
        assert false;
      }
    }
  }

  // ---- concatenation of lists ----

  /** The elements of the first `n` lists. */
  function ConcatTo<X>(lists: seq<seq<X>>, n: nat): seq<X>
    requires n <= |lists|
  {
    if n == 0 then [] else ConcatTo(lists, n - 1) + lists[n - 1]
  }

  function Concat<X>(lists: seq<seq<X>>): seq<X> {
    ConcatTo(lists, |lists|)
  }

  lemma {:induction false} InConcat<X>(lists: seq<seq<X>>, n: nat, b: nat, x: X)
    requires b < n <= |lists| && x in lists[b]
    ensures x in ConcatTo(lists, n)
  {
    if b == n - 1 {
    } else {
      InConcat(lists, n - 1, b, x);
    }
  }

  lemma {:induction false} ConcatIsBag<X(!new)>(lists: seq<seq<X>>, n: nat, f: seq<X> -> multiset<X>)
    requires n <= |lists| && forall xs :: f(xs) == multiset(xs)
    ensures multiset(ConcatTo(lists, n)) == Bag(f, lists[..n])
  {
    if n == 0 {
    } else {
      ConcatIsBag(lists, n - 1, f);
      BagLast(f, lists, n);
    }
  }

  /** Concatenating the lists in another order gives a permutation. */
  lemma {:induction false} ConcatPermutation<X(!new)>(xs: seq<seq<X>>, ys: seq<seq<X>>)
    requires multiset(xs) == multiset(ys)
    ensures multiset(Concat(xs)) == multiset(Concat(ys))
  {
    var f := (list: seq<X>) => multiset(list);
    ConcatIsBag(xs, |xs|, f);
    ConcatIsBag(ys, |ys|, f);
    assert xs[..|xs|] == xs && ys[..|ys|] == ys;
    BagPermutation(f, xs, ys);
  }
}
