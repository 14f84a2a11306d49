/**
 Damage distributions by asset and by event. For each realization and loss type every asset
 has, for each of some events, a distribution of its buildings over the damage states, of
 which the first is no damage. The same numbers are added up event by event and asset by
 asset. This module has what the nested loops compute: for an event and a loss type the sum
 of the damaged parts of the distributions of all assets, skipping those without damage, and
 for an asset the sum over the events, those without a distribution counting as undamaged.
 What the two have to do with each other is proved in the module DamageTotals.
 */
module Damage {

  datatype Asset = Asset(ordinal: nat, number: real)

  /** What a hazard output gives: the distributions by loss type, asset and event. */
  datatype Out = Out(rlz: nat, eids: seq<nat>, assets: seq<Asset>, ddds: seq<seq<seq<seq<real>>>>)

  datatype AssetDamage = AssetDamage(l: nat, r: nat, aid: nat, tot: seq<real>)

  function Sum(xs: seq<real>): real {
    if xs == [] then 0.0 else Sum(xs[..|xs| - 1]) + xs[|xs| - 1]
  }

  function Zeros(n: nat): (r: seq<real>)
    ensures |r| == n && forall d :: 0 <= d < n ==> r[d] == 0.0
  {
    seq(n, d => 0.0)
  }

  function Add(xs: seq<real>, ys: seq<real>): (r: seq<real>)
    requires |xs| == |ys|
    ensures |r| == |xs| && forall d :: 0 <= d < |r| ==> r[d] == xs[d] + ys[d]
  {
    seq(|xs|, d requires 0 <= d < |xs| => xs[d] + ys[d])
  }

  lemma {:induction false} SumAdd(xs: seq<real>, ys: seq<real>)
    requires |xs| == |ys|
    ensures Sum(Add(xs, ys)) == Sum(xs) + Sum(ys)
  {
    if xs == [] {
    } else {
      var n := |xs| - 1;
      SumAdd(xs[..n], ys[..n]);
      assert Add(xs, ys)[..n] == Add(xs[..n], ys[..n]);
    }
  }

  lemma {:induction false} SumZeros(n: nat)
    ensures Sum(Zeros(n)) == 0.0
  {
    if n == 0 {
    } else {
      SumZeros(n - 1);
      assert Zeros(n)[..n - 1] == Zeros(n - 1);
    }
  }

  ghost predicate NonNegative(xs: seq<real>) {
    forall d :: 0 <= d < |xs| ==> xs[d] >= 0.0
  }

  /** A sum of non-negative numbers is zero only when all are. */
  lemma {:induction false} ZeroSum(xs: seq<real>)
    requires NonNegative(xs)
    ensures Sum(xs) >= 0.0 && (Sum(xs) == 0.0 ==> xs == Zeros(|xs|))
  {
    if xs == [] {
    } else {
      var n := |xs| - 1;
      ZeroSum(xs[..n]);
      if Sum(xs) == 0.0 {
        forall d | 0 <= d < |xs| ensures xs[d] == 0.0 {
          assert d < n ==> xs[..n][d] == Zeros(n)[d];
        }
      }
    }
  }

  /** The first number and the rest. */
  lemma {:induction false} SumHead(xs: seq<real>)
    requires xs != []
    ensures Sum(xs) == xs[0] + Sum(xs[1..])
  {
    var n := |xs| - 1;
    if n > 0 {
      SumHead(xs[..n]);
      assert xs[..n][1..] == xs[1..][..n - 1];
    } else {
      assert xs[..0] == [];
    }
  }

  ghost predicate Distribution(ddd: seq<real>, number: real, states: nat) {
    |ddd| == states && NonNegative(ddd) && Sum(ddd) == number
  }

  /** One distribution for each loss type, asset and event; the events are different. */
  ghost predicate Wf(o: Out, lossTypes: nat, states: nat) {
    && |o.ddds| == lossTypes
    && (forall l :: 0 <= l < lossTypes ==> |o.ddds[l]| == |o.assets|)
    && (forall l, a :: 0 <= l < lossTypes && 0 <= a < |o.assets| ==> |o.ddds[l][a]| == |o.eids|)
    && (forall l, a, p :: 0 <= l < lossTypes && 0 <= a < |o.assets| && 0 <= p < |o.eids| ==>
          Distribution(o.ddds[l][a][p], o.assets[a].number, states))
    && (forall p, q :: 0 <= p < q < |o.eids| ==> o.eids[p] != o.eids[q])
  }

  // ---- what the loops add up ----

  /** The damage of one asset in an event, from the first `n` distributions. */
  ghost function AtEvent(o: Out, l: nat, a: nat, e: nat, n: nat, L: nat, D: nat): (r: seq<real>)
    requires Wf(o, L, D) && D >= 1 && l < L && a < |o.assets| && n <= |o.eids|
    ensures |r| == D - 1
  {
    if n == 0 then Zeros(D - 1)
    else
      var before := AtEvent(o, l, a, e, n - 1, L, D);
      if o.eids[n - 1] == e then Add(before, o.ddds[l][a][n - 1][1..]) else before
  }

  ghost function OutDamage(o: Out, l: nat, e: nat, n: nat, L: nat, D: nat): (r: seq<real>)
    requires Wf(o, L, D) && D >= 1 && l < L && n <= |o.assets|
    ensures |r| == D - 1
  {
    if n == 0 then Zeros(D - 1)
    else Add(OutDamage(o, l, e, n - 1, L, D), AtEvent(o, l, n - 1, e, |o.eids|, L, D))
  }

  ghost predicate AllWf(outs: seq<Out>, L: nat, D: nat) {
    forall i :: 0 <= i < |outs| ==> Wf(outs[i], L, D)
  }

  ghost function Damages(outs: seq<Out>, l: nat, e: nat, n: nat, L: nat, D: nat): (r: seq<real>)
    requires AllWf(outs, L, D) && D >= 1 && l < L && n <= |outs|
    ensures |r| == D - 1
  {
    if n == 0 then Zeros(D - 1)
    else Add(Damages(outs, l, e, n - 1, L, D), OutDamage(outs[n - 1], l, e, |outs[n - 1].assets|, L, D))
  }

  /** The sum of the first `n` distributions of an asset. */
  function SumOf(ddds: seq<seq<real>>, n: nat, D: nat): (r: seq<real>)
    requires n <= |ddds| && forall p :: 0 <= p < |ddds| ==> |ddds[p]| == D
    ensures |r| == D
  {
    if n == 0 then Zeros(D) else Add(SumOf(ddds, n - 1, D), ddds[n - 1])
  }

  /** The distribution of an asset over all the events, those without a distribution giving no damage. */
  function Total(number: real, ddds: seq<seq<real>>, ne: nat, D: nat): (r: seq<real>)
    requires D >= 1 && forall p :: 0 <= p < |ddds| ==> |ddds[p]| == D
    ensures |r| == D
  {
    var tot := SumOf(ddds, |ddds|, D);
    tot[0 := tot[0] + number * (ne - |ddds|) as real]
  }

  /** The totals of the first `n` assets for one loss type. */
  ghost function TotalsOf(o: Out, l: nat, n: nat, numEvents: nat -> nat, L: nat, D: nat): seq<AssetDamage>
    requires Wf(o, L, D) && D >= 1 && l < L && n <= |o.assets|
  {
    if n == 0 then []
    else
      TotalsOf(o, l, n - 1, numEvents, L, D) +
      [AssetDamage(l, o.rlz, o.assets[n - 1].ordinal,
                   Total(o.assets[n - 1].number, o.ddds[l][n - 1], numEvents(o.rlz), D))]
  }

  /** The totals of an output for the first `k` loss types. */
  ghost function OutTotals(o: Out, k: nat, numEvents: nat -> nat, L: nat, D: nat): seq<AssetDamage>
    requires Wf(o, L, D) && D >= 1 && k <= L
  {
    if k == 0 then [] else OutTotals(o, k - 1, numEvents, L, D) + TotalsOf(o, k - 1, |o.assets|, numEvents, L, D)
  }

  ghost function AllTotals(outs: seq<Out>, n: nat, numEvents: nat -> nat, L: nat, D: nat): seq<AssetDamage>
    requires AllWf(outs, L, D) && D >= 1 && n <= |outs|
  {
    if n == 0 then [] else AllTotals(outs, n - 1, numEvents, L, D) + OutTotals(outs[n - 1], L, numEvents, L, D)
  }

  // ---- the damage by event ----

  type ByEvent = map<nat, seq<seq<real>>>

  ghost predicate Sized(dEvent: ByEvent, L: nat, D: nat) {
    D >= 1 && forall e :: e in dEvent ==> |dEvent[e]| == L && forall l :: 0 <= l < L ==> |dEvent[e][l]| == D - 1
  }

  /** The damage accumulated for an event and a loss type. */
  ghost function Of(dEvent: ByEvent, e: nat, l: nat, L: nat, D: nat): (r: seq<real>)
    requires Sized(dEvent, L, D) && l < L
    ensures |r| == D - 1
  {
    if e in dEvent then dEvent[e][l] else Zeros(D - 1)
  }

  /** The accumulated damage grew by the first `n` distributions of an asset, and for its loss type only. */
  ghost predicate AssetAdded(before: ByEvent, after: ByEvent, o: Out, l: nat, a: nat, n: nat, L: nat, D: nat)
    requires Wf(o, L, D) && D >= 1 && l < L && a < |o.assets| && n <= |o.eids|
  {
    && Sized(before, L, D) && Sized(after, L, D)
    && (forall e :: Of(after, e, l, L, D) == Add(Of(before, e, l, L, D), AtEvent(o, l, a, e, n, L, D)))
    && (forall e, k :: 0 <= k < L && k != l ==> Of(after, e, k, L, D) == Of(before, e, k, L, D))
  }

  /** One more distribution. */
  ghost predicate DamageAdded(before: ByEvent, after: ByEvent, e: nat, l: nat, dmg: seq<real>, L: nat, D: nat)
    requires D >= 1 && |dmg| == D - 1 && l < L
  {
    && Sized(before, L, D) && Sized(after, L, D)
    && Of(after, e, l, L, D) == Add(Of(before, e, l, L, D), dmg)
    && (forall e', l' :: 0 <= l' < L && (e' != e || l' != l) ==> Of(after, e', l', L, D) == Of(before, e', l', L, D))
  }

  lemma {:induction false} AddAssoc(xs: seq<real>, ys: seq<real>, zs: seq<real>)
    requires |xs| == |ys| == |zs|
    ensures Add(Add(xs, ys), zs) == Add(xs, Add(ys, zs))
    ensures Add(xs, Zeros(|xs|)) == xs
  {
  }

  lemma {:induction false} OneAdded(
    before: ByEvent, mid: ByEvent, after: ByEvent, o: Out, l: nat, a: nat, n: nat, L: nat, D: nat)
    requires Wf(o, L, D) && D >= 1 && l < L && a < |o.assets| && n < |o.eids|
    requires AssetAdded(before, mid, o, l, a, n, L, D)
    requires DamageAdded(mid, after, o.eids[n], l, o.ddds[l][a][n][1..], L, D)
    ensures AssetAdded(before, after, o, l, a, n + 1, L, D)
  {
    assert |o.ddds[l][a]| == |o.eids|;
    hide Wf, Sized;
    forall e ensures Of(after, e, l, L, D) == Add(Of(before, e, l, L, D), AtEvent(o, l, a, e, n + 1, L, D)) {
      if e == o.eids[n] {
        AddAssoc(Of(before, e, l, L, D), AtEvent(o, l, a, e, n, L, D), o.ddds[l][a][n][1..]);
      }
    }
  }

  lemma {:induction false} NothingAdded(dEvent: ByEvent, e: nat, l: nat, dmg: seq<real>, L: nat, D: nat)
    requires Sized(dEvent, L, D) && l < L && |dmg| == D - 1 && NonNegative(dmg) && Sum(dmg) == 0.0
    ensures DamageAdded(dEvent, dEvent, e, l, dmg, L, D)
  {
    ZeroSum(dmg);
    hide Sum;
    AddAssoc(Of(dEvent, e, l, L, D), dmg, dmg);
  }

  /** The accumulated damage grew by the first `n` assets of an output, for one loss type only. */
  ghost predicate AssetsAdded(before: ByEvent, after: ByEvent, o: Out, l: nat, n: nat, L: nat, D: nat)
    requires Wf(o, L, D) && D >= 1 && l < L && n <= |o.assets|
  {
    && Sized(before, L, D) && Sized(after, L, D)
    && (forall e :: Of(after, e, l, L, D) == Add(Of(before, e, l, L, D), OutDamage(o, l, e, n, L, D)))
    && (forall e, k :: 0 <= k < L && k != l ==> Of(after, e, k, L, D) == Of(before, e, k, L, D))
  }

  lemma {:induction false} NoAssets(dEvent: ByEvent, o: Out, l: nat, L: nat, D: nat)
    requires Wf(o, L, D) && D >= 1 && l < L && Sized(dEvent, L, D)
    ensures AssetsAdded(dEvent, dEvent, o, l, 0, L, D)
  {
    hide Wf;
    forall e ensures Of(dEvent, e, l, L, D) == Add(Of(dEvent, e, l, L, D), OutDamage(o, l, e, 0, L, D)) {
      AddAssoc(Of(dEvent, e, l, L, D), Zeros(D - 1), Zeros(D - 1));
    }
  }

  lemma {:induction false} OneMoreAsset(
    before: ByEvent, mid: ByEvent, after: ByEvent, o: Out, l: nat, n: nat, L: nat, D: nat)
    requires Wf(o, L, D) && D >= 1 && l < L && n < |o.assets|
    requires AssetsAdded(before, mid, o, l, n, L, D) && AssetAdded(mid, after, o, l, n, |o.eids|, L, D)
    ensures AssetsAdded(before, after, o, l, n + 1, L, D)
  {
    hide Wf, Sized, AtEvent;
    forall e ensures Of(after, e, l, L, D) == Add(Of(before, e, l, L, D), OutDamage(o, l, e, n + 1, L, D)) {
      AddAssoc(Of(before, e, l, L, D), OutDamage(o, l, e, n, L, D), AtEvent(o, l, n, e, |o.eids|, L, D));
    }
  }

  /** The accumulated damage grew by the whole output for the first `k` loss types. */
  ghost predicate LossTypesAdded(before: ByEvent, after: ByEvent, o: Out, k: nat, L: nat, D: nat)
    requires Wf(o, L, D) && D >= 1 && k <= L
  {
    && Sized(before, L, D) && Sized(after, L, D)
    && (forall e, l :: 0 <= l < k ==>
          Of(after, e, l, L, D) == Add(Of(before, e, l, L, D), OutDamage(o, l, e, |o.assets|, L, D)))
    && (forall e, l :: k <= l < L ==> Of(after, e, l, L, D) == Of(before, e, l, L, D))
  }

  lemma {:induction false} OneMoreLossType(
    before: ByEvent, mid: ByEvent, after: ByEvent, o: Out, k: nat, L: nat, D: nat)
    requires Wf(o, L, D) && D >= 1 && k < L
    requires LossTypesAdded(before, mid, o, k, L, D) && AssetsAdded(mid, after, o, k, |o.assets|, L, D)
    ensures LossTypesAdded(before, after, o, k + 1, L, D)
  {
    hide Wf, Sized, OutDamage;
  }

  /** The accumulated damage is that of the first `n` outputs. */
  ghost predicate Accumulated(dEvent: ByEvent, outs: seq<Out>, n: nat, L: nat, D: nat)
    requires AllWf(outs, L, D) && D >= 1 && n <= |outs|
  {
    Sized(dEvent, L, D) && forall e, l :: 0 <= l < L ==> Of(dEvent, e, l, L, D) == Damages(outs, l, e, n, L, D)
  }

  lemma {:induction false} NoOuts(outs: seq<Out>, L: nat, D: nat)
    requires AllWf(outs, L, D) && D >= 1
    ensures Accumulated(map[], outs, 0, L, D)
  {
  }

  lemma {:induction false} OneMoreOut(mid: ByEvent, after: ByEvent, outs: seq<Out>, n: nat, L: nat, D: nat)
    requires AllWf(outs, L, D) && D >= 1 && n < |outs|
    requires Accumulated(mid, outs, n, L, D) && LossTypesAdded(mid, after, outs[n], L, L, D)
    ensures Accumulated(after, outs, n + 1, L, D)
  {
    hide Wf, Sized, OutDamage;
  }

  class ScenarioDamage {
    const L: nat
    const D: nat
    var dEvent: ByEvent
    var dAsset: seq<AssetDamage>

    constructor (lossTypes: nat, states: nat)
      requires states >= 1
      ensures Sized(dEvent, L, D) && L == lossTypes && D == states && dEvent == map[] && dAsset == []
    {
      L, D := lossTypes, states;
      dEvent, dAsset := map[], [];
    }

    method AddDamage(e: nat, l: nat, dmg: seq<real>)
      requires Sized(dEvent, L, D) && l < L && |dmg| == D - 1
      modifies this`dEvent
      ensures DamageAdded(old(dEvent), dEvent, e, l, dmg, L, D)
    {
      if e !in dEvent {
        dEvent := dEvent[e := seq(L, i => Zeros(D - 1))];
      }
      dEvent := dEvent[e := dEvent[e][l := Add(dEvent[e][l], dmg)]];
    }

    /** The distributions of one asset: event by event, and all together. */
    method AddAsset(out: Out, l: nat, a: nat, ne: nat)
      requires Sized(dEvent, L, D) && Wf(out, L, D) && l < L && a < |out.assets|
      modifies this
      ensures AssetAdded(old(dEvent), dEvent, out, l, a, |out.eids|, L, D)
      ensures dAsset == old(dAsset) +
        [AssetDamage(l, out.rlz, out.assets[a].ordinal, Total(out.assets[a].number, out.ddds[l][a], ne, D))]
    {
      assert forall p :: 0 <= p < |out.eids| ==> Distribution(out.ddds[l][a][p], out.assets[a].number, D);
      AddEvents(out, l, a);
      dAsset := dAsset +
        [AssetDamage(l, out.rlz, out.assets[a].ordinal, Total(out.assets[a].number, out.ddds[l][a], ne, D))];
    }

    method AddEvents(out: Out, l: nat, a: nat)
      requires Sized(dEvent, L, D) && Wf(out, L, D) && l < L && a < |out.assets|
      modifies this`dEvent
      ensures AssetAdded(old(dEvent), dEvent, out, l, a, |out.eids|, L, D)
    {
      var ddds := out.ddds[l][a];
      assert |ddds| == |out.eids|;
      assert forall p :: 0 <= p < |ddds| ==> Distribution(ddds[p], out.assets[a].number, D);
      assert forall p :: 0 <= p < |ddds| ==> |ddds[p]| == D && NonNegative(ddds[p]);
      hide AssetAdded, Wf, DamageAdded, Sum, Distribution, NonNegative;
      for p := 0 to |ddds|
        invariant Sized(dEvent, L, D) && AssetAdded(old(dEvent), dEvent, out, l, a, p, L, D)
      {
        ghost var mid := dEvent;
        AddOne(out.eids[p], l, ddds[p]);
        OneAdded(old(dEvent), mid, dEvent, out, l, a, p, L, D);
      }
    }

    /** An event without damage is not stored. */
    method AddOne(e: nat, l: nat, ddd: seq<real>)
      requires Sized(dEvent, L, D) && l < L && |ddd| == D && NonNegative(ddd)
      modifies this`dEvent
      ensures Sized(dEvent, L, D) && DamageAdded(old(dEvent), dEvent, e, l, ddd[1..], L, D)
    {
      var dmg := ddd[1..];
      if Sum(dmg) != 0.0 {
        AddDamage(e, l, dmg);
      } else {
        NothingAdded(dEvent, e, l, dmg, L, D);
      }
    }

    method AddLossType(out: Out, l: nat, numEvents: nat -> nat)
      requires Sized(dEvent, L, D) && Wf(out, L, D) && l < L
      modifies this
      ensures Sized(dEvent, L, D) && AssetsAdded(old(dEvent), dEvent, out, l, |out.assets|, L, D)
      ensures dAsset == old(dAsset) + TotalsOf(out, l, |out.assets|, numEvents, L, D)
    {
      NoAssets(dEvent, out, l, L, D);
      hide AssetAdded, Wf, AssetsAdded, Total;
      for a := 0 to |out.assets|
        invariant Sized(dEvent, L, D) && dAsset == old(dAsset) + TotalsOf(out, l, a, numEvents, L, D)
        invariant AssetsAdded(old(dEvent), dEvent, out, l, a, L, D)
      {
        ghost var mid := dEvent;
        AddAsset(out, l, a, numEvents(out.rlz));
        SizedAfter(mid, dEvent, out, l, a, L, D);
        OneMoreAsset(old(dEvent), mid, dEvent, out, l, a, L, D);
      }
    }

    /** The core of the computation: realizations, loss types, assets and events. */
    method Run(outs: seq<Out>, numEvents: nat -> nat)
      requires D >= 1 && AllWf(outs, L, D) && dEvent == map[] && dAsset == []
      modifies this
      ensures Accumulated(dEvent, outs, |outs|, L, D)
      ensures dAsset == AllTotals(outs, |outs|, numEvents, L, D)
    {
      NoOuts(outs, L, D);
      hide Wf, Accumulated, AssetsAdded, LossTypesAdded, TotalsOf, OutTotals;
      for i := 0 to |outs|
        invariant Sized(dEvent, L, D) && dAsset == AllTotals(outs, i, numEvents, L, D)
        invariant Accumulated(dEvent, outs, i, L, D)
      {
        ghost var mid := dEvent;
        assert Wf(outs[i], L, D);
        AddOut(outs[i], numEvents);
        OneMoreOut(mid, dEvent, outs, i, L, D);
      }
    }

    method AddOut(out: Out, numEvents: nat -> nat)
      requires Sized(dEvent, L, D) && Wf(out, L, D)
      modifies this
      ensures Sized(dEvent, L, D) && LossTypesAdded(old(dEvent), dEvent, out, L, L, D)
      ensures dAsset == old(dAsset) + OutTotals(out, L, numEvents, L, D)
    {
      assert OutTotals(out, 0, numEvents, L, D) == [];
      hide Wf, AssetsAdded, LossTypesAdded, TotalsOf, OutTotals, Sized;
      for l := 0 to L
        invariant Sized(dEvent, L, D) && dAsset == old(dAsset) + OutTotals(out, l, numEvents, L, D)
        invariant LossTypesAdded(old(dEvent), dEvent, out, l, L, D)
      {
        ghost var mid := dEvent;
        AddLossType(out, l, numEvents);
        OneMoreLossType(old(dEvent), mid, dEvent, out, l, L, D);
        OneMoreTotals(old(dAsset), out, l, numEvents, L, D);
      }
    }
  }

  lemma {:induction false} SizedAfter(before: ByEvent, after: ByEvent, o: Out, l: nat, a: nat, L: nat, D: nat)
    requires Wf(o, L, D) && D >= 1 && l < L && a < |o.assets| && AssetAdded(before, after, o, l, a, |o.eids|, L, D)
    ensures Sized(after, L, D)
  {
  }

  lemma {:induction false} OneMoreTotals(
    before: seq<AssetDamage>, o: Out, l: nat, numEvents: nat -> nat, L: nat, D: nat)
    requires Wf(o, L, D) && D >= 1 && l < L
    ensures before + OutTotals(o, l, numEvents, L, D) + TotalsOf(o, l, |o.assets|, numEvents, L, D)
         == before + OutTotals(o, l + 1, numEvents, L, D)
  {
    hide Wf, TotalsOf;
  }
}
