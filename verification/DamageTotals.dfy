/** The damages added up by event and by asset agree, and every event accounts for all buildings. */
module DamageTotals {
  import opened Folds
  import opened Aggregates
  import opened Damage
  import P = TaskProtocol

  // ---- one event: the whole portfolio, none negative ----

  /** The distribution of the buildings in an event: what is not damaged is undamaged. */
  function EventRow(damages: seq<real>, tot: real): (r: seq<real>)
    ensures |r| == |damages| + 1
  {
    [tot - Sum(damages)] + damages
  }

  method DamageByEvent(dEvent: ByEvent, numEvents: nat, tot: real, L: nat, D: nat) returns (dbe: array3<real>)
    requires Sized(dEvent, L, D) && forall e :: e in dEvent ==> e < numEvents
    ensures dbe.Length0 == numEvents && dbe.Length1 == L && dbe.Length2 == D
    ensures forall e, l, d :: 0 <= e < numEvents && 0 <= l < L && 0 <= d < D ==>
      dbe[e, l, d] == EventRow(Of(dEvent, e, l, L, D), tot)[d]
  {
    dbe := new real[numEvents, L, D]((e, l, d) => if d == 0 then tot else 0.0);
    var todo := dEvent.Keys;
    while todo != {}
      invariant todo <= dEvent.Keys
      invariant forall e, l, d :: 0 <= e < numEvents && 0 <= l < L && 0 <= d < D ==>
        dbe[e, l, d] ==
          if e in dEvent && e !in todo then EventRow(dEvent[e][l], tot)[d] else if d == 0 then tot else 0.0
      decreases todo
    {
      var e :| e in todo;
      var dmgByLt := dEvent[e];
      forall l, d | 0 <= l < L && 0 <= d < D {
        dbe[e, l, d] := if d == 0 then tot - Sum(dmgByLt[l]) else dmgByLt[l][d - 1];
      }
      todo := todo - {e};
    }
    SumZeros(D - 1);
  }

  lemma {:induction false} RowSums(damages: seq<real>, tot: real)
    ensures Sum(EventRow(damages, tot)) == tot
  {
    SumHead(EventRow(damages, tot));
    assert EventRow(damages, tot)[1..] == damages;
  }

  // ---- functionals of the damage ----

  /** A number got from vectors of length `n` that adds up as they do. */
  ghost predicate Additive(psi: seq<real> -> real, n: nat) {
    psi(Zeros(n)) == 0.0 && forall xs, ys :: |xs| == n && |ys| == n ==> psi(Add(xs, ys)) == psi(xs) + psi(ys)
  }

  lemma {:induction false} SumAdditive(psi: seq<real> -> real, n: nat)
    requires forall xs :: psi(xs) == Sum(xs)
    ensures Additive(psi, n)
  {
    SumZeros(n);
    forall xs: seq<real>, ys: seq<real> | |xs| == n && |ys| == n ensures psi(Add(xs, ys)) == psi(xs) + psi(ys) {
      SumAdd(xs, ys);
    }
  }

  // ---- sums over the outputs of a realization ----

  /** The sum over the first `n` assets of an output. */
  function OutSum(o: Out, g: (Out, nat) -> real, n: nat): real {
    if n == 0 then 0.0 else OutSum(o, g, n - 1) + g(o, n - 1)
  }

  /** The sum over all assets of the first `n` outputs, those of a realization only. */
  function RlzSum(outs: seq<Out>, r: nat, g: (Out, nat) -> real, n: nat): real
    requires n <= |outs|
  {
    if n == 0 then 0.0
    else RlzSum(outs, r, g, n - 1) + if outs[n - 1].rlz == r then OutSum(outs[n - 1], g, |outs[n - 1].assets|) else 0.0
  }

  lemma {:induction false} OutSumLinear(
    o: Out, g: (Out, nat) -> real, h: (Out, nat) -> real, k: (Out, nat) -> real, n: nat)
    requires forall a :: 0 <= a < n ==> k(o, a) == g(o, a) - h(o, a)
    ensures OutSum(o, k, n) == OutSum(o, g, n) - OutSum(o, h, n)
  {
    if n == 0 {
    } else {
      OutSumLinear(o, g, h, k, n - 1);
    }
  }

  lemma {:induction false} RlzSumLinear(
    outs: seq<Out>, r: nat, g: (Out, nat) -> real, h: (Out, nat) -> real, k: (Out, nat) -> real, n: nat)
    requires n <= |outs|
    requires forall i, a :: 0 <= i < n && outs[i].rlz == r && 0 <= a < |outs[i].assets| ==>
      k(outs[i], a) == g(outs[i], a) - h(outs[i], a)
    ensures RlzSum(outs, r, k, n) == RlzSum(outs, r, g, n) - RlzSum(outs, r, h, n)
  {
    if n == 0 {
    } else {
      RlzSumLinear(outs, r, g, h, k, n - 1);
      if outs[n - 1].rlz == r {
        OutSumLinear(outs[n - 1], g, h, k, |outs[n - 1].assets|);
      }
    }
  }

  /** The sum of a number of the damaged parts of the first `n` distributions. */
  function PartSum(ddds: seq<seq<real>>, psi: seq<real> -> real, n: nat): real
    requires n <= |ddds| && forall p :: 0 <= p < |ddds| ==> |ddds[p]| >= 1
  {
    if n == 0 then 0.0 else PartSum(ddds, psi, n - 1) + psi(ddds[n - 1][1..])
  }

  /** What the distributions of an asset contribute, over the first `n` events. */
  ghost function AssetPart(o: Out, l: nat, a: nat, psi: seq<real> -> real, n: nat, L: nat, D: nat): real
    requires Wf(o, L, D) && D >= 1 && l < L && a < |o.assets| && n <= |o.eids|
  {
    assert forall p :: 0 <= p < |o.eids| ==> Distribution(o.ddds[l][a][p], o.assets[a].number, D);
    PartSum(o.ddds[l][a], psi, n)
  }

  // ---- event by event ----

  lemma {:induction false} AssetOverEvents(
    o: Out, l: nat, a: nat, n: nat, evs: seq<nat>, psi: seq<real> -> real, f: nat -> real, L: nat, D: nat)
    requires Wf(o, L, D) && D >= 1 && l < L && a < |o.assets| && n <= |o.eids| && Additive(psi, D - 1)
    requires NoDuplicates(evs) && forall p :: 0 <= p < n ==> o.eids[p] in evs
    requires forall e :: f(e) == psi(AtEvent(o, l, a, e, n, L, D))
    ensures Agg(Plus, evs, f) == AssetPart(o, l, a, psi, n, L, D)
  {
    if n == 0 {
      AggUnit(Plus, evs, f);
    } else {
      var dmg := o.ddds[l][a][n - 1][1..];
      var before := (e: nat) => psi(AtEvent(o, l, a, e, n - 1, L, D));
      var here := (e: nat) => if e == o.eids[n - 1] then psi(dmg) else 0.0;
      AssetOverEvents(o, l, a, n - 1, evs, psi, before, L, D);
      assert Distribution(o.ddds[l][a][n - 1], o.assets[a].number, D);
      AggBoth(Plus, evs, before, here, f);
      assert o.eids[n - 1] in evs;
      var p :| 0 <= p < |evs| && evs[p] == o.eids[n - 1];
      AggSingle(Plus, evs, here, p);
    }
  }

  lemma {:induction false} OutOverEvents(
    o: Out, l: nat, n: nat, evs: seq<nat>, psi: seq<real> -> real, f: nat -> real, g: (Out, nat) -> real, L: nat,
    D: nat)
    requires Wf(o, L, D) && D >= 1 && l < L && n <= |o.assets| && Additive(psi, D - 1)
    requires NoDuplicates(evs) && forall p :: 0 <= p < |o.eids| ==> o.eids[p] in evs
    requires forall e :: f(e) == psi(OutDamage(o, l, e, n, L, D))
    requires forall a :: 0 <= a < n ==> g(o, a) == AssetPart(o, l, a, psi, |o.eids|, L, D)
    ensures Agg(Plus, evs, f) == OutSum(o, g, n)
  {
    hide Wf, AtEvent, AssetPart;
    if n == 0 {
      AggUnit(Plus, evs, f);
    } else {
      var before := (e: nat) => psi(OutDamage(o, l, e, n - 1, L, D));
      var here := (e: nat) => psi(AtEvent(o, l, n - 1, e, |o.eids|, L, D));
      OutOverEvents(o, l, n - 1, evs, psi, before, g, L, D);
      AssetOverEvents(o, l, n - 1, |o.eids|, evs, psi, here, L, D);
      AggBoth(Plus, evs, before, here, f);
    }
  }

  lemma {:induction false} NotThisEvent(o: Out, l: nat, a: nat, e: nat, n: nat, L: nat, D: nat)
    requires Wf(o, L, D) && D >= 1 && l < L && a < |o.assets| && n <= |o.eids| && e !in o.eids
    ensures AtEvent(o, l, a, e, n, L, D) == Zeros(D - 1)
  {
    if n == 0 {
    } else {
      NotThisEvent(o, l, a, e, n - 1, L, D);
    }
  }

  lemma {:induction false} NotThisOut(o: Out, l: nat, e: nat, n: nat, L: nat, D: nat)
    requires Wf(o, L, D) && D >= 1 && l < L && n <= |o.assets| && e !in o.eids
    ensures OutDamage(o, l, e, n, L, D) == Zeros(D - 1)
  {
    hide Wf, AtEvent;
    if n > 0 {
      NotThisOut(o, l, e, n - 1, L, D);
      NotThisEvent(o, l, n - 1, e, |o.eids|, L, D);
      AddAssoc(Zeros(D - 1), Zeros(D - 1), Zeros(D - 1));
    }
  }

  /** The events are those of a realization; the other outputs have none of them. */
  ghost predicate EventsOfRlz(outs: seq<Out>, r: nat, evs: seq<nat>) {
    && NoDuplicates(evs)
    && forall i, p :: 0 <= i < |outs| && 0 <= p < |outs[i].eids| ==> (outs[i].rlz == r <==> outs[i].eids[p] in evs)
  }

  /** Adding up event by event all the events of a realization. */
  lemma {:induction false} RlzOverEvents(
    outs: seq<Out>, r: nat, l: nat, n: nat, evs: seq<nat>, psi: seq<real> -> real, f: nat -> real,
    g: (Out, nat) -> real, L: nat, D: nat)
    requires AllWf(outs, L, D) && D >= 1 && l < L && n <= |outs| && Additive(psi, D - 1) && EventsOfRlz(outs, r, evs)
    requires forall e :: e in evs ==> f(e) == psi(Damages(outs, l, e, n, L, D))
    requires forall i, a :: 0 <= i < |outs| && 0 <= a < |outs[i].assets| ==>
      g(outs[i], a) == AssetPart(outs[i], l, a, psi, |outs[i].eids|, L, D)
    ensures Agg(Plus, evs, f) == RlzSum(outs, r, g, n)
  {
    hide Wf, OutDamage, AssetPart;
    if n == 0 {
      AggUnit(Plus, evs, f);
    } else {
      var o := outs[n - 1];
      assert Wf(o, L, D);
      var before := (e: nat) => psi(Damages(outs, l, e, n - 1, L, D));
      var here := (e: nat) => psi(OutDamage(o, l, e, |o.assets|, L, D));
      RlzOverEvents(outs, r, l, n - 1, evs, psi, before, g, L, D);
      AggBoth(Plus, evs, before, here, f);
      if o.rlz == r {
        OutOverEvents(o, l, |o.assets|, evs, psi, here, g, L, D);
      } else {
        forall i | 0 <= i < |evs| ensures here(evs[i]) == 0.0 {
          assert evs[i] in evs;
          NotThisOut(o, l, evs[i], |o.assets|, L, D);
        }
        AggUnit(Plus, evs, here);
      }
    }
  }

  // ---- asset by asset ----

  function EntryValue(l: nat, r: nat, phi: seq<real> -> real): AssetDamage -> real {
    (en: AssetDamage) => if en.l == l && en.r == r then phi(en.tot) else 0.0
  }

  /** What the entries of a realization and loss type add up to. */
  function EntrySum(entries: seq<AssetDamage>, l: nat, r: nat, phi: seq<real> -> real): real {
    Agg(Plus, entries, EntryValue(l, r, phi))
  }

  lemma {:induction false} EntrySumAppend(
    xs: seq<AssetDamage>, ys: seq<AssetDamage>, l: nat, r: nat, phi: seq<real> -> real)
    ensures EntrySum(xs + ys, l, r, phi) == EntrySum(xs, l, r, phi) + EntrySum(ys, l, r, phi)
  {
    AggAppend(Plus, xs, ys, EntryValue(l, r, phi));
  }

  lemma {:induction false} EntrySumOne(en: AssetDamage, l: nat, r: nat, phi: seq<real> -> real)
    ensures EntrySum([en], l, r, phi) == if en.l == l && en.r == r then phi(en.tot) else 0.0
  {
    assert [en][1..] == [] && Agg(Plus, [en][1..], EntryValue(l, r, phi)) == 0.0;
  }

  ghost function AssetTotal(o: Out, l: nat, a: nat, numEvents: nat -> nat, L: nat, D: nat): (r: seq<real>)
    requires Wf(o, L, D) && D >= 1 && l < L && a < |o.assets|
    ensures |r| == D
  {
    assert forall p :: 0 <= p < |o.eids| ==> Distribution(o.ddds[l][a][p], o.assets[a].number, D);
    Total(o.assets[a].number, o.ddds[l][a], numEvents(o.rlz), D)
  }

  lemma {:induction false} TotalsLast(o: Out, k: nat, n: nat, numEvents: nat -> nat, L: nat, D: nat)
    requires Wf(o, L, D) && D >= 1 && k < L && 0 < n <= |o.assets|
    ensures TotalsOf(o, k, n, numEvents, L, D) == TotalsOf(o, k, n - 1, numEvents, L, D) +
      [AssetDamage(k, o.rlz, o.assets[n - 1].ordinal, AssetTotal(o, k, n - 1, numEvents, L, D))]
  {
  }

  lemma {:induction false} EntriesOfAssets(
    o: Out, k: nat, n: nat, numEvents: nat -> nat, l: nat, r: nat, phi: seq<real> -> real, g: (Out, nat) -> real,
    L: nat, D: nat)
    requires Wf(o, L, D) && D >= 1 && k < L && l < L && n <= |o.assets|
    requires forall a :: 0 <= a < n ==> g(o, a) == phi(AssetTotal(o, l, a, numEvents, L, D))
    ensures EntrySum(TotalsOf(o, k, n, numEvents, L, D), l, r, phi) ==
      if k == l && o.rlz == r then OutSum(o, g, n) else 0.0
  {
    hide Wf, AssetTotal;
    if n > 0 {
      EntriesOfAssets(o, k, n - 1, numEvents, l, r, phi, g, L, D);
      TotalsLast(o, k, n, numEvents, L, D);
      var last := AssetDamage(k, o.rlz, o.assets[n - 1].ordinal, AssetTotal(o, k, n - 1, numEvents, L, D));
      EntrySumAppend(TotalsOf(o, k, n - 1, numEvents, L, D), [last], l, r, phi);
      EntrySumOne(last, l, r, phi);
    }
  }

  lemma {:induction false} EntriesOfOut(
    o: Out, k: nat, numEvents: nat -> nat, l: nat, r: nat, phi: seq<real> -> real, g: (Out, nat) -> real, L: nat,
    D: nat)
    requires Wf(o, L, D) && D >= 1 && k <= L && l < L
    requires forall a :: 0 <= a < |o.assets| ==> g(o, a) == phi(AssetTotal(o, l, a, numEvents, L, D))
    ensures EntrySum(OutTotals(o, k, numEvents, L, D), l, r, phi)
         == if l < k && o.rlz == r then OutSum(o, g, |o.assets|) else 0.0
  {
    hide Wf, AssetTotal, TotalsOf;
    if k > 0 {
      EntriesOfOut(o, k - 1, numEvents, l, r, phi, g, L, D);
      EntriesOfAssets(o, k - 1, |o.assets|, numEvents, l, r, phi, g, L, D);
      EntrySumAppend(OutTotals(o, k - 1, numEvents, L, D), TotalsOf(o, k - 1, |o.assets|, numEvents, L, D), l, r, phi);
    }
  }

  /** Adding up asset by asset all the entries of a realization. */
  lemma {:induction false} EntriesOfRlz(
    outs: seq<Out>, n: nat, numEvents: nat -> nat, l: nat, r: nat, phi: seq<real> -> real, g: (Out, nat) -> real,
    L: nat, D: nat)
    requires AllWf(outs, L, D) && D >= 1 && n <= |outs| && l < L
    requires forall i, a :: 0 <= i < |outs| && 0 <= a < |outs[i].assets| ==>
      g(outs[i], a) == phi(AssetTotal(outs[i], l, a, numEvents, L, D))
    ensures EntrySum(AllTotals(outs, n, numEvents, L, D), l, r, phi) == RlzSum(outs, r, g, n)
  {
    hide Wf, AssetTotal, OutTotals;
    if n > 0 {
      assert Wf(outs[n - 1], L, D);
      EntriesOfRlz(outs, n - 1, numEvents, l, r, phi, g, L, D);
      EntriesOfOut(outs[n - 1], L, numEvents, l, r, phi, g, L, D);
      EntrySumAppend(AllTotals(outs, n - 1, numEvents, L, D), OutTotals(outs[n - 1], L, numEvents, L, D), l, r, phi);
    }
  }

  // ---- the distribution of an asset ----

  /** The total of an asset accounts for all its buildings in all events. */
  lemma {:induction false} TotalSums(number: real, ddds: seq<seq<real>>, ne: nat, D: nat)
    requires D >= 1 && forall p :: 0 <= p < |ddds| ==> |ddds[p]| == D && Distribution(ddds[p], number, D)
    ensures Sum(Total(number, ddds, ne, D)) == number * ne as real
  {
    SumsOf(number, ddds, |ddds|, D);
    FirstPlus(SumOf(ddds, |ddds|, D), number * (ne - |ddds|) as real);
    hide Sum, SumOf, Distribution;
    Distribute(number, |ddds|, ne - |ddds|);
  }

  lemma {:induction false} FirstPlus(xs: seq<real>, x: real)
    requires xs != []
    ensures Sum(xs[0 := xs[0] + x]) == Sum(xs) + x
  {
    var ys := xs[0 := xs[0] + x];
    SumHead(xs);
    SumHead(ys);
    assert xs[1..] == ys[1..];
  }

  lemma {:induction false} Distribute(x: real, a: int, b: int)
    ensures x * a as real + x * b as real == x * (a + b) as real
  {
  }

  lemma {:induction false} SumsOf(number: real, ddds: seq<seq<real>>, n: nat, D: nat)
    requires n <= |ddds| && forall p :: 0 <= p < |ddds| ==> |ddds[p]| == D && Distribution(ddds[p], number, D)
    ensures Sum(SumOf(ddds, n, D)) == number * n as real
  {
    if n == 0 {
      SumZeros(D);
    } else {
      SumsOf(number, ddds, n - 1, D);
      SumAdd(SumOf(ddds, n - 1, D), ddds[n - 1]);
      Distribute(number, n - 1, 1);
    }
  }

  /** In the damaged states the total of an asset is the sum of its distributions. */
  lemma {:induction false} TotalDamage(ddds: seq<seq<real>>, n: nat, psi: seq<real> -> real, D: nat)
    requires D >= 1 && n <= |ddds| && Additive(psi, D - 1) && forall p :: 0 <= p < |ddds| ==> |ddds[p]| == D
    ensures psi(SumOf(ddds, n, D)[1..]) == PartSum(ddds, psi, n)
  {
    hide Additive;
    if n == 0 {
      PsiZero(psi, D);
    } else {
      TotalDamage(ddds, n - 1, psi, D);
      PsiTail(SumOf(ddds, n - 1, D), ddds[n - 1], psi, D);
    }
  }

  lemma {:induction false} PsiZero(psi: seq<real> -> real, D: nat)
    requires D >= 1 && Additive(psi, D - 1)
    ensures psi(Zeros(D)[1..]) == 0.0
  {
    assert Zeros(D)[1..] == Zeros(D - 1);
  }

  lemma {:induction false} PsiTail(xs: seq<real>, ys: seq<real>, psi: seq<real> -> real, D: nat)
    requires D >= 1 && |xs| == |ys| == D && Additive(psi, D - 1)
    ensures psi(Add(xs, ys)[1..]) == psi(xs[1..]) + psi(ys[1..])
  {
    assert Add(xs, ys)[1..] == Add(xs[1..], ys[1..]);
  }

  // ---- the two ways agree ----

  /** Any additive number of the damaged part of the totals of an output. */
  lemma {:induction false} TotalPart(
    o: Out, l: nat, a: nat, numEvents: nat -> nat, psi: seq<real> -> real, L: nat, D: nat)
    requires Wf(o, L, D) && D >= 1 && l < L && a < |o.assets| && Additive(psi, D - 1)
    ensures psi(AssetTotal(o, l, a, numEvents, L, D)[1..]) == AssetPart(o, l, a, psi, |o.eids|, L, D)
  {
    var ddds := o.ddds[l][a];
    assert forall p :: 0 <= p < |o.eids| ==> Distribution(ddds[p], o.assets[a].number, D);
    assert AssetTotal(o, l, a, numEvents, L, D)[1..] == SumOf(ddds, |ddds|, D)[1..];
    hide Wf, SumOf, PartSum, Additive, AssetTotal;
    TotalDamage(ddds, |ddds|, psi, D);
  }

  /** In every damaged state the events of a realization add up to what its assets add up to. */
  lemma {:induction false} DamagedAgree(
    outs: seq<Out>, numEvents: nat -> nat, r: nat, evs: seq<nat>, l: nat, d: nat,
    byEvent: nat -> real, phi: seq<real> -> real, L: nat, D: nat)
    requires AllWf(outs, L, D) && l < L && 1 <= d < D && EventsOfRlz(outs, r, evs)
    requires forall e :: byEvent(e) == Damages(outs, l, e, |outs|, L, D)[d - 1]
    requires forall t :: |t| == D ==> phi(t) == t[d]
    ensures Agg(Plus, evs, byEvent) == EntrySum(AllTotals(outs, |outs|, numEvents, L, D), l, r, phi)
  {
    hide Wf, AssetPart, AssetTotal;
    var psi := (v: seq<real>) => if |v| == D - 1 then v[d - 1] else 0.0;
    var g := (o: Out, a: nat) =>
      if Wf(o, L, D) && a < |o.assets| then AssetPart(o, l, a, psi, |o.eids|, L, D) else 0.0;
    forall i, a | 0 <= i < |outs| && 0 <= a < |outs[i].assets|
      ensures Wf(outs[i], L, D) && g(outs[i], a) == phi(AssetTotal(outs[i], l, a, numEvents, L, D))
    {
      assert Wf(outs[i], L, D);
      TotalPart(outs[i], l, a, numEvents, psi, L, D);
    }
    RlzOverEvents(outs, r, l, |outs|, evs, psi, byEvent, g, L, D);
    EntriesOfRlz(outs, |outs|, numEvents, l, r, phi, g, L, D);
  }

  /** The assets of the outputs of a realization. */
  function AssetsOfRlz(outs: seq<Out>, r: nat, n: nat): seq<Asset>
    requires n <= |outs|
  {
    if n == 0 then [] else AssetsOfRlz(outs, r, n - 1) + if outs[n - 1].rlz == r then outs[n - 1].assets else []
  }

  lemma {:induction false} OutSumIsAgg(o: Out, g: (Out, nat) -> real, w: Asset -> real, n: nat)
    requires n <= |o.assets| && forall a :: 0 <= a < |o.assets| ==> g(o, a) == w(o.assets[a])
    ensures OutSum(o, g, n) == Agg(Plus, o.assets[..n], w)
  {
    if n == 0 {
    } else {
      OutSumIsAgg(o, g, w, n - 1);
      var last := [o.assets[n - 1]];
      assert o.assets[..n] == o.assets[..n - 1] + last;
      AggAppend(Plus, o.assets[..n - 1], last, w);
      assert last[1..] == [] && Agg(Plus, last[1..], w) == 0.0;
    }
  }

  lemma {:induction false} RlzSumIsAgg(outs: seq<Out>, r: nat, g: (Out, nat) -> real, w: Asset -> real, n: nat)
    requires n <= |outs|
    requires forall i, a :: 0 <= i < |outs| && 0 <= a < |outs[i].assets| ==> g(outs[i], a) == w(outs[i].assets[a])
    ensures RlzSum(outs, r, g, n) == Agg(Plus, AssetsOfRlz(outs, r, n), w)
  {
    if n == 0 {
    } else {
      var o := outs[n - 1];
      RlzSumIsAgg(outs, r, g, w, n - 1);
      OutSumIsAgg(o, g, w, |o.assets|);
      assert o.assets[..|o.assets|] == o.assets;
      AggAppend(Plus, AssetsOfRlz(outs, r, n - 1), if o.rlz == r then o.assets else [], w);
    }
  }

  lemma {:induction false} AggScale<C>(cells: seq<C>, f: C -> real, h: C -> real, c: real)
    requires forall i :: 0 <= i < |cells| ==> h(cells[i]) == f(cells[i]) * c
    ensures Agg(Plus, cells, h) == Agg(Plus, cells, f) * c
  {
    if cells == [] {
    } else {
      AggScale(cells[1..], f, h, c);
    }
  }

  lemma {:induction false} AggConst<C>(cells: seq<C>, f: C -> real, c: real)
    requires forall i :: 0 <= i < |cells| ==> f(cells[i]) == c
    ensures Agg(Plus, cells, f) == c * |cells| as real
  {
    if cells == [] {
    } else {
      AggConst(cells[1..], f, c);
    }
  }

  function Number(x: Asset): real {
    x.number
  }

  /** The number of buildings of the portfolio. */
  function Buildings(assetcol: seq<Asset>): real {
    Agg(Plus, assetcol, Number)
  }

  lemma {:induction false} AssetTotalSums(o: Out, l: nat, a: nat, numEvents: nat -> nat, L: nat, D: nat)
    requires Wf(o, L, D) && D >= 1 && l < L && a < |o.assets|
    ensures Sum(AssetTotal(o, l, a, numEvents, L, D)) == o.assets[a].number * numEvents(o.rlz) as real
  {
    hide Sum;
    assert forall p :: 0 <= p < |o.eids| ==> Distribution(o.ddds[l][a][p], o.assets[a].number, D);
    TotalSums(o.assets[a].number, o.ddds[l][a], numEvents(o.rlz), D);
  }

  /** The undamaged part of an asset total. */
  lemma {:induction false} UndamagedPart(
    o: Out, l: nat, a: nat, numEvents: nat -> nat, psi: seq<real> -> real, L: nat, D: nat)
    requires Wf(o, L, D) && D >= 1 && l < L && a < |o.assets| && forall xs :: psi(xs) == Sum(xs)
    ensures AssetTotal(o, l, a, numEvents, L, D)[0]
         == o.assets[a].number * numEvents(o.rlz) as real - AssetPart(o, l, a, psi, |o.eids|, L, D)
  {
    hide Wf, AssetTotal, AssetPart, Sum, Additive;
    SumAdditive(psi, D - 1);
    TotalPart(o, l, a, numEvents, psi, L, D);
    AssetTotalSums(o, l, a, numEvents, L, D);
    SumHead(AssetTotal(o, l, a, numEvents, L, D));
  }

  /** The buildings of the portfolio, `c` times. */
  lemma {:induction false} AllBuildings(outs: seq<Out>, r: nat, c: real, assetcol: seq<Asset>, g: (Out, nat) -> real)
    requires multiset(AssetsOfRlz(outs, r, |outs|)) == multiset(assetcol)
    requires forall i, a :: 0 <= i < |outs| && 0 <= a < |outs[i].assets| ==>
      g(outs[i], a) == outs[i].assets[a].number * c
    ensures RlzSum(outs, r, g, |outs|) == Buildings(assetcol) * c
  {
    hide Agg, AssetsOfRlz, RlzSum;
    var w := (x: Asset) => x.number * c;
    RlzSumIsAgg(outs, r, g, w, |outs|);
    AggPermutation(Plus, AssetsOfRlz(outs, r, |outs|), assetcol, w);
    AggScale(assetcol, Number, w, c);
  }

  /** The undamaged buildings of the events. */
  lemma {:induction false} UndamagedEvents(evs: seq<nat>, damage: nat -> real, byEvent: nat -> real, tot: real)
    requires forall e :: e in evs ==> byEvent(e) == tot - damage(e)
    ensures Agg(Plus, evs, byEvent) == tot * |evs| as real - Agg(Plus, evs, damage)
  {
    var all := (e: nat) => tot;
    AggConst(evs, all, tot);
    AggBoth(Plus, evs, byEvent, damage, all);
  }

  /** Asset by asset: all the buildings in all the events, less the damaged ones. */
  lemma {:induction false} UndamagedAssets(
    outs: seq<Out>, numEvents: nat -> nat, r: nat, l: nat, assetcol: seq<Asset>, phi: seq<real> -> real,
    psi: seq<real> -> real, damaged: (Out, nat) -> real, L: nat, D: nat)
    requires AllWf(outs, L, D) && l < L && D >= 1 && (forall xs :: psi(xs) == Sum(xs))
    requires multiset(AssetsOfRlz(outs, r, |outs|)) == multiset(assetcol)
    requires forall t :: |t| == D ==> phi(t) == t[0]
    requires forall i, a :: 0 <= i < |outs| && 0 <= a < |outs[i].assets| ==>
      damaged(outs[i], a) == AssetPart(outs[i], l, a, psi, |outs[i].eids|, L, D)
    ensures EntrySum(AllTotals(outs, |outs|, numEvents, L, D), l, r, phi)
         == Buildings(assetcol) * numEvents(r) as real - RlzSum(outs, r, damaged, |outs|)
  {
    hide Wf, AssetPart, AssetTotal, AllTotals, RlzSum, EntrySum, Buildings, Sum, AssetsOfRlz;
    var c := numEvents(r) as real;
    var all := (o: Out, a: nat) => if a < |o.assets| then o.assets[a].number * c else 0.0;
    var undamaged := (o: Out, a: nat) =>
      if Wf(o, L, D) && a < |o.assets| then AssetTotal(o, l, a, numEvents, L, D)[0] else 0.0;
    forall i, a | 0 <= i < |outs| && 0 <= a < |outs[i].assets|
      ensures undamaged(outs[i], a) == phi(AssetTotal(outs[i], l, a, numEvents, L, D))
      ensures outs[i].rlz == r ==> undamaged(outs[i], a) == all(outs[i], a) - damaged(outs[i], a)
    {
      assert Wf(outs[i], L, D);
      UndamagedPart(outs[i], l, a, numEvents, psi, L, D);
    }
    RlzSumLinear(outs, r, all, damaged, undamaged, |outs|);
    AllBuildings(outs, r, c, assetcol, all);
    EntriesOfRlz(outs, |outs|, numEvents, l, r, phi, undamaged, L, D);
  }

  /** So do the undamaged buildings, when every asset is seen once in the realization. */
  lemma {:induction false} UndamagedAgree(
    outs: seq<Out>, numEvents: nat -> nat, r: nat, evs: seq<nat>, l: nat, assetcol: seq<Asset>,
    byEvent: nat -> real, phi: seq<real> -> real, L: nat, D: nat)
    requires AllWf(outs, L, D) && l < L && D >= 1 && EventsOfRlz(outs, r, evs) && numEvents(r) == |evs|
    requires multiset(AssetsOfRlz(outs, r, |outs|)) == multiset(assetcol)
    requires forall e :: byEvent(e) == EventRow(Damages(outs, l, e, |outs|, L, D), Buildings(assetcol))[0]
    requires forall t :: |t| == D ==> phi(t) == t[0]
    ensures Agg(Plus, evs, byEvent) == EntrySum(AllTotals(outs, |outs|, numEvents, L, D), l, r, phi)
  {
    hide Wf, AssetPart, AllTotals, RlzSum, Agg, Damages, EntrySum, Buildings, Sum, AssetsOfRlz, EventsOfRlz;
    var psi := (v: seq<real>) => Sum(v);
    var damaged := (o: Out, a: nat) =>
      if Wf(o, L, D) && a < |o.assets| then AssetPart(o, l, a, psi, |o.eids|, L, D) else 0.0;
    forall i, a | 0 <= i < |outs| && 0 <= a < |outs[i].assets|
      ensures Wf(outs[i], L, D) && damaged(outs[i], a) == AssetPart(outs[i], l, a, psi, |outs[i].eids|, L, D)
    {
      assert Wf(outs[i], L, D);
    }
    UndamagedAssets(outs, numEvents, r, l, assetcol, phi, psi, damaged, L, D);
    UndamagedByEvent(outs, r, evs, numEvents(r), l, Buildings(assetcol), byEvent, psi, damaged, L, D);
  }

  lemma {:induction false} UndamagedByEvent(
    outs: seq<Out>, r: nat, evs: seq<nat>, ne: nat, l: nat, tot: real, byEvent: nat -> real,
    psi: seq<real> -> real, damaged: (Out, nat) -> real, L: nat, D: nat)
    requires ne == |evs| && AllWf(outs, L, D) && l < L && D >= 1 && EventsOfRlz(outs, r, evs)
    requires forall xs :: psi(xs) == Sum(xs)
    requires forall e :: byEvent(e) == EventRow(Damages(outs, l, e, |outs|, L, D), tot)[0]
    requires forall i, a :: 0 <= i < |outs| && 0 <= a < |outs[i].assets| ==>
      damaged(outs[i], a) == AssetPart(outs[i], l, a, psi, |outs[i].eids|, L, D)
    ensures Agg(Plus, evs, byEvent) == tot * ne as real - RlzSum(outs, r, damaged, |outs|)
  {
    hide Wf, AssetPart, RlzSum, Agg, Damages, Sum, EventsOfRlz, Additive;
    SumAdditive(psi, D - 1);
    var damage := (e: nat) => psi(Damages(outs, l, e, |outs|, L, D));
    RlzOverEvents(outs, r, l, |outs|, evs, psi, damage, damaged, L, D);
    UndamagedEvents(evs, damage, byEvent, tot);
  }

  // ---- no negative number of undamaged buildings ----

  /** The damaged buildings of an asset in an event are at most its buildings. */
  lemma {:induction false} AssetBound(o: Out, l: nat, a: nat, e: nat, n: nat, L: nat, D: nat)
    requires Wf(o, L, D) && D >= 1 && l < L && a < |o.assets| && n <= |o.eids| && o.assets[a].number >= 0.0
    ensures Sum(AtEvent(o, l, a, e, n, L, D)) <= o.assets[a].number
  {
    SumZeros(D - 1);
    if n > 0 {
      AssetBound(o, l, a, e, n - 1, L, D);
      if o.eids[n - 1] == e {
        EarlierEvents(o, l, a, e, n - 1, L, D);
        var ddd := o.ddds[l][a][n - 1];
        assert Distribution(ddd, o.assets[a].number, D);
        SumHead(ddd);
        SumAdd(Zeros(D - 1), ddd[1..]);
      }
    }
  }

  lemma {:induction false} EarlierEvents(o: Out, l: nat, a: nat, e: nat, n: nat, L: nat, D: nat)
    requires Wf(o, L, D) && D >= 1 && l < L && a < |o.assets| && n <= |o.eids|
    requires forall p :: 0 <= p < n ==> o.eids[p] != e
    ensures AtEvent(o, l, a, e, n, L, D) == Zeros(D - 1)
  {
    if n == 0 {
    } else {
      EarlierEvents(o, l, a, e, n - 1, L, D);
    }
  }

  lemma {:induction false} OutBound(o: Out, l: nat, e: nat, n: nat, g: (Out, nat) -> real, L: nat, D: nat)
    requires Wf(o, L, D) && D >= 1 && l < L && n <= |o.assets|
    requires forall a :: 0 <= a < |o.assets| ==> g(o, a) == o.assets[a].number >= 0.0
    ensures Sum(OutDamage(o, l, e, n, L, D)) <= OutSum(o, g, n) && OutSum(o, g, n) >= 0.0
  {
    hide Wf, AtEvent;
    SumZeros(D - 1);
    if n > 0 {
      OutBound(o, l, e, n - 1, g, L, D);
      AssetBound(o, l, n - 1, e, |o.eids|, L, D);
      SumAdd(OutDamage(o, l, e, n - 1, L, D), AtEvent(o, l, n - 1, e, |o.eids|, L, D));
    }
  }

  /** The damaged buildings in an event are at most the buildings of its realization. */
  lemma {:induction false} EventBound(
    outs: seq<Out>, r: nat, l: nat, e: nat, n: nat, g: (Out, nat) -> real, L: nat, D: nat)
    requires AllWf(outs, L, D) && D >= 1 && l < L && n <= |outs|
    requires forall i :: 0 <= i < |outs| && e in outs[i].eids ==> outs[i].rlz == r
    requires forall i, a :: 0 <= i < |outs| && 0 <= a < |outs[i].assets| ==>
      g(outs[i], a) == outs[i].assets[a].number >= 0.0
    ensures Sum(Damages(outs, l, e, n, L, D)) <= RlzSum(outs, r, g, n)
  {
    hide Wf, OutDamage;
    SumZeros(D - 1);
    if n > 0 {
      var o := outs[n - 1];
      assert Wf(o, L, D);
      EventBound(outs, r, l, e, n - 1, g, L, D);
      SumAdd(Damages(outs, l, e, n - 1, L, D), OutDamage(o, l, e, |o.assets|, L, D));
      if o.rlz == r {
        OutBound(o, l, e, |o.assets|, g, L, D);
      } else {
        NotThisOut(o, l, e, |o.assets|, L, D);
      }
    }
  }

  /** Every event accounts for all the buildings, and no number of undamaged ones is negative. */
  lemma {:induction false} NoNegativeNoDamage(
    outs: seq<Out>, r: nat, l: nat, e: nat, assetcol: seq<Asset>, L: nat, D: nat)
    requires AllWf(outs, L, D) && D >= 1 && l < L
    requires forall i :: 0 <= i < |outs| && e in outs[i].eids ==> outs[i].rlz == r
    requires forall i, a :: 0 <= i < |outs| && 0 <= a < |outs[i].assets| ==> outs[i].assets[a].number >= 0.0
    requires multiset(AssetsOfRlz(outs, r, |outs|)) == multiset(assetcol)
    ensures var row := EventRow(Damages(outs, l, e, |outs|, L, D), Buildings(assetcol));
      Sum(row) == Buildings(assetcol) && row[0] >= 0.0
  {
    hide Wf, Damages, RlzSum, Agg, AssetsOfRlz, Buildings, Sum;
    var g := (o: Out, a: nat) => if a < |o.assets| then o.assets[a].number else 0.0;
    RowSums(Damages(outs, l, e, |outs|, L, D), Buildings(assetcol));
    EventBound(outs, r, l, e, |outs|, g, L, D);
    AllBuildings(outs, r, 1.0, assetcol, g);
  }

  /**
   For every damage state, adding up the rows of the events of a realization and adding up
   the totals of the assets gives the same number of buildings.
   */
  lemma {:induction false} TwoWaysAgree(
    outs: seq<Out>, dEvent: ByEvent, dAsset: seq<AssetDamage>, numEvents: nat -> nat, r: nat, evs: seq<nat>,
    l: nat, d: nat, assetcol: seq<Asset>, byEvent: nat -> real, phi: seq<real> -> real, L: nat, D: nat)
    requires AllWf(outs, L, D) && l < L && d < D && EventsOfRlz(outs, r, evs) && numEvents(r) == |evs|
    requires Accumulated(dEvent, outs, |outs|, L, D) && dAsset == AllTotals(outs, |outs|, numEvents, L, D)
    requires multiset(AssetsOfRlz(outs, r, |outs|)) == multiset(assetcol)
    requires forall e :: byEvent(e) == EventRow(Of(dEvent, e, l, L, D), Buildings(assetcol))[d]
    requires forall t :: |t| == D ==> phi(t) == t[d]
    ensures Agg(Plus, evs, byEvent) == EntrySum(dAsset, l, r, phi)
  {
    hide Wf, AllTotals, Agg, Damages, EntrySum, Buildings, Sum, AssetsOfRlz, EventsOfRlz, Of, Sized;
    if d == 0 {
      UndamagedAgree(outs, numEvents, r, evs, l, assetcol, byEvent, phi, L, D);
    } else {
      DamagedAgree(outs, numEvents, r, evs, l, d, byEvent, phi, L, D);
    }
  }

  // ---- several tasks ----

  /** The damages of the outputs of two tasks are the sums of their damages. */
  lemma {:induction false} DamagesAddUp(xs: seq<Out>, ys: seq<Out>, l: nat, e: nat, n: nat, L: nat, D: nat)
    requires AllWf(xs, L, D) && AllWf(ys, L, D) && AllWf(xs + ys, L, D) && D >= 1 && l < L && n <= |ys|
    ensures Damages(xs + ys, l, e, |xs| + n, L, D) == Add(Damages(xs, l, e, |xs|, L, D), Damages(ys, l, e, n, L, D))
  {
    hide Wf, OutDamage;
    if n == 0 {
      DamagesPrefix(xs, ys, l, e, |xs|, L, D);
      AddAssoc(Damages(xs, l, e, |xs|, L, D), Zeros(D - 1), Zeros(D - 1));
    } else {
      DamagesAddUp(xs, ys, l, e, n - 1, L, D);
      var o := ys[n - 1];
      assert (xs + ys)[|xs| + n - 1] == o && Wf(o, L, D);
      AddAssoc(Damages(xs, l, e, |xs|, L, D), Damages(ys, l, e, n - 1, L, D), OutDamage(o, l, e, |o.assets|, L, D));
    }
  }

  lemma {:induction false} DamagesPrefix(xs: seq<Out>, ys: seq<Out>, l: nat, e: nat, n: nat, L: nat, D: nat)
    requires AllWf(xs, L, D) && AllWf(xs + ys, L, D) && D >= 1 && l < L && n <= |xs|
    ensures Damages(xs + ys, l, e, n, L, D) == Damages(xs, l, e, n, L, D)
  {
    hide Wf, OutDamage;
    if n > 0 {
      DamagesPrefix(xs, ys, l, e, n - 1, L, D);
      assert (xs + ys)[n - 1] == xs[n - 1] && Wf(xs[n - 1], L, D);
    }
  }

  // ---- any number of tasks, under any schedule ----

  /** What a task sends back. */
  datatype TaskResult = TaskResult(dEvent: ByEvent, dAsset: seq<AssetDamage>)

  function AddRows(xs: seq<seq<real>>, ys: seq<seq<real>>): (r: seq<seq<real>>)
    requires |xs| == |ys| && forall l :: 0 <= l < |xs| ==> |xs[l]| == |ys[l]|
    ensures |r| == |xs| && forall l :: 0 <= l < |r| ==> r[l] == Add(xs[l], ys[l])
  {
    seq(|xs|, l requires 0 <= l < |xs| => Add(xs[l], ys[l]))
  }

  /** Key-wise addition of the damages by event. */
  ghost function AddEventDamages(a: ByEvent, b: ByEvent, L: nat, D: nat): (r: ByEvent)
    requires Sized(a, L, D) && Sized(b, L, D)
    ensures Sized(r, L, D)
  {
    map e | e in a.Keys + b.Keys :: if e !in a then b[e] else if e in b then AddRows(a[e], b[e]) else a[e]
  }

  /** The reduction of the first `n` results: damages are added and the lists of totals extended. */
  ghost function Reduced(results: seq<TaskResult>, n: nat, L: nat, D: nat): (r: TaskResult)
    requires n <= |results| && D >= 1 && forall i :: 0 <= i < |results| ==> Sized(results[i].dEvent, L, D)
    ensures Sized(r.dEvent, L, D)
  {
    if n == 0 then TaskResult(map[], [])
    else
      var before := Reduced(results, n - 1, L, D);
      TaskResult(AddEventDamages(before.dEvent, results[n - 1].dEvent, L, D), before.dAsset + results[n - 1].dAsset)
  }

  lemma {:induction false} OfSum(a: ByEvent, b: ByEvent, e: nat, l: nat, L: nat, D: nat)
    requires Sized(a, L, D) && Sized(b, L, D) && l < L
    ensures Of(AddEventDamages(a, b, L, D), e, l, L, D) == Add(Of(a, e, l, L, D), Of(b, e, l, L, D))
  {
    if e in a {
      AddAssoc(a[e][l], Zeros(D - 1), Zeros(D - 1));
    }
    var x := Of(b, e, l, L, D);
    assert Add(Zeros(D - 1), x) == x;
  }

  /** What a task computes for its outputs. */
  ghost predicate Computes(result: TaskResult, outs: seq<Out>, numEvents: nat -> nat, L: nat, D: nat) {
    && D >= 1 && AllWf(outs, L, D) && Accumulated(result.dEvent, outs, |outs|, L, D)
    && result.dAsset == AllTotals(outs, |outs|, numEvents, L, D)
  }

  ghost predicate AllCompute(results: seq<TaskResult>, batches: seq<seq<Out>>, numEvents: nat -> nat, L: nat, D: nat) {
    |results| == |batches| && forall i :: 0 <= i < |results| ==> Computes(results[i], batches[i], numEvents, L, D)
  }

  lemma {:induction false} ConcatWf(batches: seq<seq<Out>>, n: nat, L: nat, D: nat)
    requires n <= |batches| && forall i :: 0 <= i < |batches| ==> AllWf(batches[i], L, D)
    ensures AllWf(ConcatTo(batches, n), L, D)
  {
    hide Wf;
    if n == 0 {
    } else {
      ConcatWf(batches, n - 1, L, D);
    }
  }

  lemma {:induction false} TotalsAddUp(
    xs: seq<Out>, ys: seq<Out>, n: nat, numEvents: nat -> nat, L: nat, D: nat)
    requires AllWf(xs, L, D) && AllWf(ys, L, D) && AllWf(xs + ys, L, D) && D >= 1 && n <= |ys|
    ensures AllTotals(xs + ys, |xs| + n, numEvents, L, D)
         == AllTotals(xs, |xs|, numEvents, L, D) + AllTotals(ys, n, numEvents, L, D)
  {
    hide Wf, OutTotals;
    if n == 0 {
      TotalsPrefix(xs, ys, |xs|, numEvents, L, D);
    } else {
      var o := ys[n - 1];
      assert (xs + ys)[|xs| + n - 1] == o && Wf(o, L, D);
      assert AllTotals(xs + ys, |xs| + n, numEvents, L, D) ==
        AllTotals(xs + ys, |xs| + n - 1, numEvents, L, D) + OutTotals(o, L, numEvents, L, D);
      assert AllTotals(ys, n, numEvents, L, D) ==
        AllTotals(ys, n - 1, numEvents, L, D) + OutTotals(o, L, numEvents, L, D);
      hide AllTotals, AllWf;
      TotalsAddUp(xs, ys, n - 1, numEvents, L, D);
    }
  }

  lemma {:induction false} TotalsPrefix(
    xs: seq<Out>, ys: seq<Out>, n: nat, numEvents: nat -> nat, L: nat, D: nat)
    requires AllWf(xs, L, D) && AllWf(xs + ys, L, D) && D >= 1 && n <= |xs|
    ensures AllTotals(xs + ys, n, numEvents, L, D) == AllTotals(xs, n, numEvents, L, D)
  {
    hide Wf, OutTotals;
    if n == 0 {
    } else {
      TotalsPrefix(xs, ys, n - 1, numEvents, L, D);
      assert (xs + ys)[n - 1] == xs[n - 1] && Wf(xs[n - 1], L, D);
    }
  }

  /** The reduction is what one task would compute for all the outputs, in the order of arrival. */
  lemma {:induction false} ReducedComputes(
    results: seq<TaskResult>, batches: seq<seq<Out>>, n: nat, numEvents: nat -> nat, L: nat, D: nat)
    requires AllCompute(results, batches, numEvents, L, D) && n <= |batches| && D >= 1
    ensures forall i :: 0 <= i < |results| ==> Sized(results[i].dEvent, L, D)
    ensures Computes(Reduced(results, n, L, D), ConcatTo(batches, n), numEvents, L, D)
  {
    assert forall i :: 0 <= i < |results| ==> Computes(results[i], batches[i], numEvents, L, D);
    hide Wf, Sized, Of, Damages, AllTotals;
    ConcatWf(batches, n, L, D);
    if n == 0 {
      NothingComputed(numEvents, L, D);
    } else {
      ReducedComputes(results, batches, n - 1, numEvents, L, D);
      ComputesMore(Reduced(results, n - 1, L, D), results[n - 1], ConcatTo(batches, n - 1), batches[n - 1],
                   numEvents, L, D);
    }
  }

  lemma {:induction false} NothingComputed(numEvents: nat -> nat, L: nat, D: nat)
    requires D >= 1
    ensures Computes(TaskResult(map[], []), [], numEvents, L, D)
  {
  }

  lemma {:induction false} ComputesMore(
    a: TaskResult, b: TaskResult, xs: seq<Out>, ys: seq<Out>, numEvents: nat -> nat, L: nat, D: nat)
    requires Computes(a, xs, numEvents, L, D) && Computes(b, ys, numEvents, L, D) && AllWf(xs + ys, L, D)
    ensures Computes(
      TaskResult(AddEventDamages(a.dEvent, b.dEvent, L, D), a.dAsset + b.dAsset), xs + ys, numEvents, L, D)
  {
    hide Wf, Sized, Of, Damages, AllTotals, AddEventDamages;
    TotalsAddUp(xs, ys, |ys|, numEvents, L, D);
    var sum := AddEventDamages(a.dEvent, b.dEvent, L, D);
    forall e, l: nat | l < L ensures Of(sum, e, l, L, D) == Damages(xs + ys, l, e, |xs + ys|, L, D) {
      OfSum(a.dEvent, b.dEvent, e, l, L, D);
      DamagesAddUp(xs, ys, l, e, |ys|, L, D);
    }
  }

  // ---- what does not depend on the order of the outputs ----

  lemma {:induction false} RlzAssetsAreBag(outs: seq<Out>, r: nat, n: nat, b: Out -> multiset<Asset>)
    requires n <= |outs| && forall o :: b(o) == if o.rlz == r then multiset(o.assets) else multiset{}
    ensures multiset(AssetsOfRlz(outs, r, n)) == Bag(b, outs[..n])
  {
    if n == 0 {
    } else {
      RlzAssetsAreBag(outs, r, n - 1, b);
      BagLast(b, outs, n);
    }
  }

  lemma {:induction false} SameOutputs(
    outs: seq<Out>, outs': seq<Out>, r: nat, evs: seq<nat>, L: nat, D: nat)
    requires multiset(outs) == multiset(outs')
    ensures EventsOfRlz(outs, r, evs) ==> EventsOfRlz(outs', r, evs)
    ensures multiset(AssetsOfRlz(outs, r, |outs|)) == multiset(AssetsOfRlz(outs', r, |outs'|))
    ensures AllWf(outs, L, D) ==> AllWf(outs', L, D)
  {
    hide Wf;
    SameElements(outs, outs');
    var b := (o: Out) => if o.rlz == r then multiset(o.assets) else multiset{};
    RlzAssetsAreBag(outs, r, |outs|, b);
    RlzAssetsAreBag(outs', r, |outs'|, b);
    assert outs[..|outs|] == outs && outs'[..|outs'|] == outs';
    BagPermutation(b, outs, outs');
    forall i | 0 <= i < |outs'| ensures outs'[i] in outs {
      assert outs'[i] in outs';
    }
  }

  lemma {:induction false} TotalsAreBag(
    outs: seq<Out>, n: nat, numEvents: nat -> nat, b: Out -> multiset<AssetDamage>, L: nat, D: nat)
    requires n <= |outs| && AllWf(outs, L, D) && D >= 1
    requires forall o :: Wf(o, L, D) ==> b(o) == multiset(OutTotals(o, L, numEvents, L, D))
    ensures multiset(AllTotals(outs, n, numEvents, L, D)) == Bag(b, outs[..n])
  {
    hide Wf, OutTotals;
    if n == 0 {
    } else {
      TotalsAreBag(outs, n - 1, numEvents, b, L, D);
      BagLast(b, outs, n);
      assert Wf(outs[n - 1], L, D);
    }
  }

  /** The totals of the same outputs in another order are the same up to order. */
  lemma {:induction false} SameTotals(outs: seq<Out>, outs': seq<Out>, numEvents: nat -> nat, L: nat, D: nat)
    requires multiset(outs) == multiset(outs') && AllWf(outs, L, D) && AllWf(outs', L, D) && D >= 1
    ensures multiset(AllTotals(outs, |outs|, numEvents, L, D)) == multiset(AllTotals(outs', |outs'|, numEvents, L, D))
  {
    hide Wf, OutTotals, AllTotals, AllWf;
    var b := (o: Out) => if Wf(o, L, D) then multiset(OutTotals(o, L, numEvents, L, D)) else multiset{};
    TotalsAreBag(outs, |outs|, numEvents, b, L, D);
    TotalsAreBag(outs', |outs'|, numEvents, b, L, D);
    assert outs[..|outs|] == outs && outs'[..|outs'|] == outs';
    BagPermutation(b, outs, outs');
  }

  /**
   For any number of tasks and any schedule, the reduced damages by event and the reduced list
   of totals agree for every realization, loss type and damage state.
   */
  lemma {:induction false} TwoWaysAgreeUnderAnySchedule(
    pre: seq<P.Task<seq<Out>>>, queue: seq<P.Task<seq<Out>>>, cores: nat, run: seq<P.Event>, st: P.State<seq<Out>>,
    results: seq<TaskResult>, numEvents: nat -> nat, r: nat, evs: seq<nat>, l: nat, d: nat, assetcol: seq<Asset>,
    byEvent: nat -> real, phi: seq<real> -> real, L: nat, D: nat)
    requires cores >= 1 && P.Reaches(pre, queue, cores, run, st) && st.todo == 0
    requires AllCompute(results, P.Values(st.log), numEvents, L, D) && l < L && d < D
    requires EventsOfRlz(Concat(P.Values(P.ForestTrace(pre + queue))), r, evs) && numEvents(r) == |evs|
    requires var outs := Concat(P.Values(P.ForestTrace(pre + queue)));
      multiset(AssetsOfRlz(outs, r, |outs|)) == multiset(assetcol)
    requires forall t :: |t| == D ==> phi(t) == t[d]
    ensures forall i :: 0 <= i < |results| ==> Sized(results[i].dEvent, L, D)
    ensures var outs := Concat(P.Values(P.ForestTrace(pre + queue)));
      AllWf(outs, L, D) && multiset(Reduced(results, |results|, L, D).dAsset)
                        == multiset(AllTotals(outs, |outs|, numEvents, L, D))
    ensures var reduced := Reduced(results, |results|, L, D);
      (forall e :: byEvent(e) == EventRow(Of(reduced.dEvent, e, l, L, D), Buildings(assetcol))[d]) ==>
        Agg(Plus, evs, byEvent) == EntrySum(reduced.dAsset, l, r, phi)
  {
    hide Wf, P.Reaches, EventsOfRlz, AssetsOfRlz, Of, Sized, Buildings, EntrySum, Agg, Reduced, ConcatTo;
    var batches, sent := P.Values(st.log), P.Values(P.ForestTrace(pre + queue));
    P.ExactlyOnce(pre, queue, cores, run, st);
    ConcatPermutation(sent, batches);
    SameOutputs(Concat(sent), Concat(batches), r, evs, L, D);
    ReducedComputes(results, batches, |batches|, numEvents, L, D);
    SameOutputs(Concat(batches), Concat(sent), r, evs, L, D);
    SameTotals(Concat(batches), Concat(sent), numEvents, L, D);
    var reduced := Reduced(results, |results|, L, D);
    if forall e :: byEvent(e) == EventRow(Of(reduced.dEvent, e, l, L, D), Buildings(assetcol))[d] {
      TwoWaysAgree(Concat(batches), reduced.dEvent, reduced.dAsset, numEvents, r, evs, l, d, assetcol,
                   byEvent, phi, L, D);
    }
  }
}
