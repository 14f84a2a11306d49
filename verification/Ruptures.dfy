/**
 Storing the ruptures and their geometries: the ruptures arrive in batches, each batch is
 numbered and appended to the two tables, and at the end the ruptures are sorted by serial
 and renumbered, each keeping a link to its geometry.
 */
module Ruptures {
  import opened Folds
  import opened Sorting

  /** What a rupture is, apart from its numbers in the tables. */
  datatype Core = Core(serial: nat, etId: nat, nOcc: nat, mag: real)

  datatype Rup = Rup(core: Core, id: nat, geomId: nat, e0: nat, e1: nat)

  /** A rupture with its geometry. */
  datatype Ebr<G> = Ebr(core: Core, geom: G)

  predicate BySerial(a: Rup, b: Rup) {
    a.core.serial <= b.core.serial
  }

  /** The table has the ruptures in the order of their numbers, and the geometries in that order. */
  ghost predicate Holds<G>(ruptures: seq<Rup>, rupgeoms: seq<G>, stored: seq<Ebr<G>>) {
    && |ruptures| == |rupgeoms| == |stored|
    && forall i :: 0 <= i < |stored| ==> ruptures[i].id == i && Ebr(ruptures[i].core, rupgeoms[i]) == stored[i]
  }

  class Datastore<G> {
    var ruptures: seq<Rup>
    var rupgeoms: seq<G>
    var nruptures: nat
    ghost var stored: seq<Ebr<G>>

    ghost predicate Valid()
      reads this
    {
      nruptures == |stored| && Holds(ruptures, rupgeoms, stored)
    }

    constructor ()
      ensures Valid() && stored == []
    {
      ruptures, rupgeoms, nruptures, stored := [], [], 0, [];
    }

    /** One batch from a task; the numbers that the ruptures come with are overwritten. */
    method Extend(rupArray: seq<Rup>, geoms: seq<G>)
      requires Valid() && |rupArray| == |geoms|
      modifies this
      ensures Valid()
      ensures |stored| == |old(stored)| + |rupArray|
      ensures forall i :: 0 <= i < |stored| ==>
        stored[i] == if i < |old(stored)| then old(stored)[i]
                     else Ebr(rupArray[i - |old(stored)|].core, geoms[i - |old(stored)|])
    {
      if |rupArray| == 0 {
        return;
      }
      var n, first := |rupArray|, nruptures;
      var numbered := seq(n, i requires 0 <= i < n => rupArray[i].(id := first + i));
      nruptures := nruptures + n;
      ruptures := ruptures + numbered;
      rupgeoms := rupgeoms + geoms;
      stored := stored + seq(n, i requires 0 <= i < n => Ebr(rupArray[i].core, geoms[i]));
    }
  }

  /** The ruptures of the first `n` batches with their geometries, as they were sent. */
  ghost function Sent<G>(batches: seq<(seq<Rup>, seq<G>)>, n: nat): seq<Ebr<G>>
    requires n <= |batches| && forall b :: 0 <= b < |batches| ==> |batches[b].0| == |batches[b].1|
  {
    if n == 0 then []
    else Sent(batches, n - 1)
         + seq(|batches[n - 1].0|, i requires 0 <= i < |batches[n - 1].0| =>
             Ebr(batches[n - 1].0[i].core, batches[n - 1].1[i]))
  }

  /** The batches are stored in the order in which they come. */
  method StoreAll<G>(batches: seq<(seq<Rup>, seq<G>)>) returns (ds: Datastore<G>)
    requires forall b :: 0 <= b < |batches| ==> |batches[b].0| == |batches[b].1|
    ensures ds.Valid() && ds.stored == Sent(batches, |batches|)
  {
    ds := new Datastore();
    for b := 0 to |batches|
      invariant fresh(ds) && ds.Valid() && ds.stored == Sent(batches, b)
    {
      ds.Extend(batches[b].0, batches[b].1);
    }
  }

  // ---- sorting and renumbering ----

  function Renumbered(sorted: seq<Rup>): (r: seq<Rup>)
    ensures |r| == |sorted|
    ensures forall i :: 0 <= i < |r| ==> r[i] == sorted[i].(geomId := sorted[i].id, id := i)
  {
    seq(|sorted|, i requires 0 <= i < |sorted| => sorted[i].(geomId := sorted[i].id, id := i))
  }

  /** The ruptures with the geometries that their links lead to. */
  function Linked<G>(rups: seq<Rup>, rupgeoms: seq<G>): (r: seq<Ebr<G>>)
    requires forall i :: 0 <= i < |rups| ==> rups[i].geomId < |rupgeoms|
    ensures |r| == |rups| && forall i :: 0 <= i < |r| ==> r[i] == Ebr(rups[i].core, rupgeoms[rups[i].geomId])
  {
    seq(|rups|, i requires 0 <= i < |rups| => Ebr(rups[i].core, rupgeoms[rups[i].geomId]))
  }

  /** Numbered in the order of the serials, each with a link to some geometry. */
  ghost predicate Imported<G>(rups: seq<Rup>, rupgeoms: seq<G>) {
    && (forall i :: 0 <= i < |rups| ==> rups[i].id == i && rups[i].geomId < |rupgeoms|)
    && forall i, j :: 0 <= i < j < |rups| ==> rups[i].core.serial <= rups[j].core.serial
  }

  lemma {:induction false} MapIsBag<X, Y>(xs: seq<X>, ys: seq<Y>, f: X -> Y, b: X -> multiset<Y>)
    requires |xs| == |ys| && forall i :: 0 <= i < |xs| ==> ys[i] == f(xs[i])
    requires forall x :: b(x) == multiset{f(x)}
    ensures multiset(ys) == Bag(b, xs)
  {
    if xs == [] {
    } else {
      MapIsBag(xs[1..], ys[1..], f, b);
      assert ys == [ys[0]] + ys[1..];
    }
  }

  /** After sorting and renumbering the links still lead from every rupture to its own geometry. */
  lemma {:induction false} LinksSurvive<G>(ruptures: seq<Rup>, rupgeoms: seq<G>, stored: seq<Ebr<G>>, sorted: seq<Rup>)
    requires Holds(ruptures, rupgeoms, stored) && IsSortOf(sorted, ruptures, BySerial)
    ensures Imported(Renumbered(sorted), rupgeoms)
    ensures multiset(Linked(Renumbered(sorted), rupgeoms)) == multiset(stored)
  {
    PermutationAll(ruptures, sorted, (r: Rup) => r.id < |rupgeoms|);
    assert forall i, j :: 0 <= i < j < |sorted| ==> BySerial(sorted[i], sorted[j]);
    if rupgeoms != [] {
      var f := (r: Rup) => Ebr(r.core, if r.id < |rupgeoms| then rupgeoms[r.id] else rupgeoms[0]);
      var b := r => multiset{f(r)};
      MapIsBag(ruptures, stored, f, b);
      MapIsBag(sorted, Linked(Renumbered(sorted), rupgeoms), f, b);
      BagPermutation(b, sorted, ruptures);
    } else {
      PermutationLength(sorted, ruptures);
    }
  }

  method ImportRups<G>(rupArray: seq<Rup>, ghost rupgeoms: seq<G>, ghost stored: seq<Ebr<G>>) returns (rups: seq<Rup>)
    requires Holds(rupArray, rupgeoms, stored)
    ensures Imported(rups, rupgeoms)
    ensures multiset(Linked(rups, rupgeoms)) == multiset(stored)
  {
    assert TotalPreorder(BySerial);
    var sorted := Sort(rupArray, BySerial);
    LinksSurvive(rupArray, rupgeoms, stored, sorted);
    rups := Renumbered(sorted);
  }

  /** The geometry of each rupture that is strong enough. */
  method GetProxies<G>(proxies: seq<Rup>, rupgeoms: seq<G>, minMag: real) returns (found: seq<Ebr<G>>)
    requires forall i :: 0 <= i < |proxies| ==> proxies[i].geomId < |rupgeoms|
    ensures found == Strong(Linked(proxies, rupgeoms), |proxies|, minMag)
  {
    found := [];
    for i := 0 to |proxies|
      invariant found == Strong(Linked(proxies, rupgeoms), i, minMag)
    {
      if proxies[i].core.mag < minMag {
        continue;
      }
      found := found + [Ebr(proxies[i].core, rupgeoms[proxies[i].geomId])];
    }
  }

  function Strong<G>(ebrs: seq<Ebr<G>>, n: nat, minMag: real): seq<Ebr<G>>
    requires n <= |ebrs|
  {
    if n == 0 then []
    else Strong(ebrs, n - 1, minMag) + if ebrs[n - 1].core.mag < minMag then [] else [ebrs[n - 1]]
  }

  lemma {:induction false} StrongIsBag<G>(ebrs: seq<Ebr<G>>, n: nat, minMag: real, b: Ebr<G> -> multiset<Ebr<G>>)
    requires n <= |ebrs| && forall x :: b(x) == if x.core.mag < minMag then multiset{} else multiset{x}
    ensures multiset(Strong(ebrs, n, minMag)) == Bag(b, ebrs[..n])
  {
    if n == 0 {
    } else {
      StrongIsBag(ebrs, n - 1, minMag, b);
      BagLast(b, ebrs, n);
      hide Bag;
      if ebrs[n - 1].core.mag < minMag {
        assert Strong(ebrs, n, minMag) == Strong(ebrs, n - 1, minMag);
      } else {
        assert Strong(ebrs, n, minMag) == Strong(ebrs, n - 1, minMag) + [ebrs[n - 1]];
      }
    }
  }

  /** The ruptures whose magnitude is not below the minimum, each as often as it occurs. */
  lemma {:induction false} StrongAre<G>(ebrs: seq<Ebr<G>>, minMag: real, x: Ebr<G>)
    ensures multiset(Strong(ebrs, |ebrs|, minMag))[x] == if x.core.mag >= minMag then multiset(ebrs)[x] else 0
  {
    StrongTimes(ebrs, |ebrs|, minMag, x);
    assert ebrs[..|ebrs|] == ebrs;
  }

  lemma {:induction false} StrongTimes<G>(ebrs: seq<Ebr<G>>, n: nat, minMag: real, x: Ebr<G>)
    requires n <= |ebrs|
    ensures multiset(Strong(ebrs, n, minMag))[x] == if x.core.mag >= minMag then multiset(ebrs[..n])[x] else 0
  {
    if n == 0 {
      assert ebrs[..n] == [];
    } else {
      StrongTimes(ebrs, n - 1, minMag, x);
      OneMore(ebrs, n, x);
      OneMoreStrong(ebrs, n, minMag, x);
      hide Strong;
    }
  }

  lemma {:induction false} OneMore<G>(ebrs: seq<Ebr<G>>, n: nat, x: Ebr<G>)
    requires 0 < n <= |ebrs|
    ensures multiset(ebrs[..n])[x] == multiset(ebrs[..n - 1])[x] + if ebrs[n - 1] == x then 1 else 0
  {
    assert ebrs[..n] == ebrs[..n - 1] + [ebrs[n - 1]];
    CountSnoc(ebrs[..n - 1], ebrs[n - 1], x);
  }

  lemma {:induction false} OneMoreStrong<G>(ebrs: seq<Ebr<G>>, n: nat, minMag: real, x: Ebr<G>)
    requires 0 < n <= |ebrs|
    ensures multiset(Strong(ebrs, n, minMag))[x] == multiset(Strong(ebrs, n - 1, minMag))[x]
      + if ebrs[n - 1] == x && x.core.mag >= minMag then 1 else 0
  {
    var before := Strong(ebrs, n - 1, minMag);
    assert before + [] == before;
    CountSnoc(before, ebrs[n - 1], x);
  }

  lemma {:induction false} StrongPermutes<G>(xs: seq<Ebr<G>>, ys: seq<Ebr<G>>, minMag: real)
    requires multiset(xs) == multiset(ys)
    ensures multiset(Strong(xs, |xs|, minMag)) == multiset(Strong(ys, |ys|, minMag))
  {
    var b := (x: Ebr<G>) => if x.core.mag < minMag then multiset{} else multiset{x};
    StrongIsBag(xs, |xs|, minMag, b);
    StrongIsBag(ys, |ys|, minMag, b);
    BagPermutation(b, xs, ys);
    assert xs[..|xs|] == xs && ys[..|ys|] == ys;
  }

  lemma {:induction false} StrongPrefix<G>(xs: seq<Ebr<G>>, ys: seq<Ebr<G>>, n: nat, minMag: real)
    requires n <= |xs|
    ensures Strong(xs + ys, n, minMag) == Strong(xs, n, minMag)
  {
    if n == 0 {
    } else {
      StrongPrefix(xs, ys, n - 1, minMag);
    }
  }

  lemma {:induction false} StrongAppend<G>(xs: seq<Ebr<G>>, ys: seq<Ebr<G>>, n: nat, minMag: real)
    requires n <= |ys|
    ensures Strong(xs + ys, |xs| + n, minMag) == Strong(xs, |xs|, minMag) + Strong(ys, n, minMag)
  {
    if n == 0 {
      StrongPrefix(xs, ys, |xs|, minMag);
    } else {
      StrongAppend(xs, ys, n - 1, minMag);
      assert (xs + ys)[|xs| + n - 1] == ys[n - 1];
    }
  }

  /** The proxies are the strong enough ruptures as they were sent, each with its own geometry. */
  lemma {:induction false} ProxiesAsSent<G>(
    ruptures: seq<Rup>, rupgeoms: seq<G>, stored: seq<Ebr<G>>, sorted: seq<Rup>, minMag: real)
    requires Holds(ruptures, rupgeoms, stored) && IsSortOf(sorted, ruptures, BySerial)
    ensures Imported(Renumbered(sorted), rupgeoms)
    ensures var linked := Linked(Renumbered(sorted), rupgeoms);
      multiset(Strong(linked, |linked|, minMag)) == multiset(Strong(stored, |stored|, minMag))
  {
    LinksSurvive(ruptures, rupgeoms, stored, sorted);
    StrongPermutes(Linked(Renumbered(sorted), rupgeoms), stored, minMag);
  }

  // ---- block by block ----

  ghost predicate LinksIn<G>(rups: seq<Rup>, rupgeoms: seq<G>) {
    forall i :: 0 <= i < |rups| ==> rups[i].geomId < |rupgeoms|
  }

  lemma {:induction false} LinkedPermutes<G>(xs: seq<Rup>, ys: seq<Rup>, rupgeoms: seq<G>)
    requires multiset(xs) == multiset(ys) && LinksIn(xs, rupgeoms) && LinksIn(ys, rupgeoms)
    ensures multiset(Linked(xs, rupgeoms)) == multiset(Linked(ys, rupgeoms))
  {
    if rupgeoms != [] {
      var f := (r: Rup) => Ebr(r.core, if r.geomId < |rupgeoms| then rupgeoms[r.geomId] else rupgeoms[0]);
      var b := r => multiset{f(r)};
      MapIsBag(xs, Linked(xs, rupgeoms), f, b);
      MapIsBag(ys, Linked(ys, rupgeoms), f, b);
      BagPermutation(b, xs, ys);
    } else {
      PermutationLength(xs, ys);
    }
  }

  /** What `GetProxies` finds. */
  ghost predicate IsFound<G>(found: seq<Ebr<G>>, rups: seq<Rup>, rupgeoms: seq<G>, minMag: real) {
    LinksIn(rups, rupgeoms) && found == Strong(Linked(rups, rupgeoms), |rups|, minMag)
  }

  lemma {:induction false} FoundAppend<G>(
    found: seq<Ebr<G>>, more: seq<Ebr<G>>, head: seq<Rup>, last: seq<Rup>, rupgeoms: seq<G>, minMag: real)
    requires IsFound(found, head, rupgeoms, minMag) && IsFound(more, last, rupgeoms, minMag)
    ensures IsFound(found + more, head + last, rupgeoms, minMag)
  {
    assert Linked(head + last, rupgeoms) == Linked(head, rupgeoms) + Linked(last, rupgeoms);
    StrongAppend(Linked(head, rupgeoms), Linked(last, rupgeoms), |last|, minMag);
  }

  lemma {:induction false} FoundByBlock<G>(
    blocks: seq<seq<Rup>>, rupgeoms: seq<G>, found: seq<seq<Ebr<G>>>, n: nat, minMag: real)
    requires n <= |blocks| == |found|
    requires forall b :: 0 <= b < |blocks| ==> IsFound(found[b], blocks[b], rupgeoms, minMag)
    ensures IsFound(ConcatTo(found, n), ConcatTo(blocks, n), rupgeoms, minMag)
  {
    if n == 0 {
    } else {
      FoundByBlock(blocks, rupgeoms, found, n - 1, minMag);
      hide IsFound;
      FoundAppend(ConcatTo(found, n - 1), found[n - 1], ConcatTo(blocks, n - 1), blocks[n - 1], rupgeoms, minMag);
    }
  }

  /** However the ruptures are cut in blocks, the proxies of the blocks are those of all ruptures. */
  lemma {:induction false} ProxiesOfBlocks<G>(
    rups: seq<Rup>, blocks: seq<seq<Rup>>, rupgeoms: seq<G>, found: seq<seq<Ebr<G>>>, minMag: real)
    requires multiset(Concat(blocks)) == multiset(rups) && LinksIn(rups, rupgeoms) && |blocks| == |found|
    requires forall b :: 0 <= b < |blocks| ==> IsFound(found[b], blocks[b], rupgeoms, minMag)
    ensures multiset(Concat(found)) == multiset(Strong(Linked(rups, rupgeoms), |rups|, minMag))
  {
    FoundByBlock(blocks, rupgeoms, found, |blocks|, minMag);
    hide Strong, ConcatTo;
    LinkedPermutes(Concat(blocks), rups, rupgeoms);
    StrongPermutes(Linked(Concat(blocks), rupgeoms), Linked(rups, rupgeoms), minMag);
  }
}
