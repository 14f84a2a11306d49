/** What the accumulated damages are, number by number, in terms of the distributions given. */
module DamageCells {
  import opened Damage

  /** The buildings of an asset in damage state `d` in an event, from the first `n` distributions. */
  function AtState(o: Out, l: nat, a: nat, e: nat, d: nat, n: nat): real
    requires l < |o.ddds| && a < |o.ddds[l]| && n <= |o.ddds[l][a]| && n <= |o.eids|
    requires forall p :: 0 <= p < n ==> d < |o.ddds[l][a][p]|
  {
    if n == 0 then 0.0
    else AtState(o, l, a, e, d, n - 1) + if o.eids[n - 1] == e then o.ddds[l][a][n - 1][d] else 0.0
  }

  /** The same for the first `n` assets. */
  ghost function OutAtState(o: Out, l: nat, e: nat, d: nat, n: nat, L: nat, D: nat): real
    requires Wf(o, L, D) && l < L && d < D && n <= |o.assets|
  {
    if n == 0 then 0.0 else OutAtState(o, l, e, d, n - 1, L, D) + AtState(o, l, n - 1, e, d, |o.eids|)
  }

  /** The same for the first `n` outputs. */
  ghost function AllAtState(outs: seq<Out>, l: nat, e: nat, d: nat, n: nat, L: nat, D: nat): real
    requires AllWf(outs, L, D) && l < L && d < D && n <= |outs|
  {
    if n == 0 then 0.0
    else AllAtState(outs, l, e, d, n - 1, L, D) + OutAtState(outs[n - 1], l, e, d, |outs[n - 1].assets|, L, D)
  }

  lemma {:induction false} EventState(o: Out, l: nat, a: nat, e: nat, d: nat, n: nat, L: nat, D: nat)
    requires Wf(o, L, D) && l < L && 0 < d < D && a < |o.assets| && n <= |o.eids|
    ensures AtEvent(o, l, a, e, n, L, D)[d - 1] == AtState(o, l, a, e, d, n)
  {
    if n == 0 {
    } else {
      EventState(o, l, a, e, d, n - 1, L, D);
      assert Distribution(o.ddds[l][a][n - 1], o.assets[a].number, D);
    }
  }

  lemma {:induction false} OutState(o: Out, l: nat, e: nat, d: nat, n: nat, L: nat, D: nat)
    requires Wf(o, L, D) && l < L && 0 < d < D && n <= |o.assets|
    ensures OutDamage(o, l, e, n, L, D)[d - 1] == OutAtState(o, l, e, d, n, L, D)
  {
    if n == 0 {
    } else {
      OutState(o, l, e, d, n - 1, L, D);
      EventState(o, l, n - 1, e, d, |o.eids|, L, D);
      hide Wf, AtEvent, AtState;
    }
  }

  /** The damage of an event has, for each damage state, the buildings that the distributions put there. */
  lemma {:induction false} DamageStates(outs: seq<Out>, l: nat, e: nat, d: nat, n: nat, L: nat, D: nat)
    requires AllWf(outs, L, D) && l < L && 0 < d < D && n <= |outs|
    ensures Damages(outs, l, e, n, L, D)[d - 1] == AllAtState(outs, l, e, d, n, L, D)
  {
    if n == 0 {
    } else {
      DamageStates(outs, l, e, d, n - 1, L, D);
      OutState(outs[n - 1], l, e, d, |outs[n - 1].assets|, L, D);
      hide Wf, OutDamage, OutAtState;
    }
  }

  /** The buildings of an asset in a damage state over the first `n` distributions. */
  function StateSum(ddds: seq<seq<real>>, d: nat, n: nat): real
    requires n <= |ddds| && forall p :: 0 <= p < |ddds| ==> d < |ddds[p]|
  {
    if n == 0 then 0.0 else StateSum(ddds, d, n - 1) + ddds[n - 1][d]
  }

  lemma {:induction false} SumOfStates(ddds: seq<seq<real>>, d: nat, n: nat, D: nat)
    requires n <= |ddds| && d < D && forall p :: 0 <= p < |ddds| ==> |ddds[p]| == D
    ensures SumOf(ddds, n, D)[d] == StateSum(ddds, d, n)
  {
    if n == 0 {
    } else {
      SumOfStates(ddds, d, n - 1, D);
    }
  }

  /** The entry of an asset: its sums by damage state, and undamaged in the events without a distribution. */
  ghost predicate IsEntry(en: AssetDamage, o: Out, l: nat, a: nat, numEvents: nat -> nat, L: nat, D: nat)
    requires Wf(o, L, D) && l < L && a < |o.assets|
  {
    && en.l == l && en.r == o.rlz && en.aid == o.assets[a].ordinal && |en.tot| == D
    && forall d :: 0 <= d < D ==> en.tot[d] == TotalAt(o, l, a, d, numEvents, L, D)
  }

  ghost function TotalAt(o: Out, l: nat, a: nat, d: nat, numEvents: nat -> nat, L: nat, D: nat): real
    requires Wf(o, L, D) && l < L && a < |o.assets| && d < D
  {
    assert forall p :: 0 <= p < |o.eids| ==> Distribution(o.ddds[l][a][p], o.assets[a].number, D);
    StateSum(o.ddds[l][a], d, |o.eids|)
    + if d == 0 then o.assets[a].number * (numEvents(o.rlz) - |o.eids|) as real else 0.0
  }

  lemma {:induction false} EntryIs(o: Out, l: nat, a: nat, numEvents: nat -> nat, L: nat, D: nat)
    requires Wf(o, L, D) && D >= 1 && l < L && a < |o.assets|
    ensures forall p :: 0 <= p < |o.ddds[l][a]| ==> |o.ddds[l][a][p]| == D
    ensures var tot := Total(o.assets[a].number, o.ddds[l][a], numEvents(o.rlz), D);
      IsEntry(AssetDamage(l, o.rlz, o.assets[a].ordinal, tot), o, l, a, numEvents, L, D)
  {
    assert forall p :: 0 <= p < |o.eids| ==> Distribution(o.ddds[l][a][p], o.assets[a].number, D);
    forall d | 0 <= d < D ensures SumOf(o.ddds[l][a], |o.eids|, D)[d] == StateSum(o.ddds[l][a], d, |o.eids|) {
      SumOfStates(o.ddds[l][a], d, |o.eids|, D);
    }
  }

  /** The entries of an output for one loss type are those of its assets, in order. */
  lemma {:induction false} AssetEntries(o: Out, l: nat, n: nat, numEvents: nat -> nat, L: nat, D: nat)
    requires Wf(o, L, D) && D >= 1 && l < L && n <= |o.assets|
    ensures var entries := TotalsOf(o, l, n, numEvents, L, D);
      |entries| == n && forall a :: 0 <= a < n ==> IsEntry(entries[a], o, l, a, numEvents, L, D)
  {
    if n == 0 {
    } else {
      AssetEntries(o, l, n - 1, numEvents, L, D);
      EntryIs(o, l, n - 1, numEvents, L, D);
      hide Wf, IsEntry, Total;
    }
  }

  /** The entries of an output are those of its loss types, one after the other. */
  lemma {:induction false} OutEntries(o: Out, k: nat, numEvents: nat -> nat, L: nat, D: nat)
    requires Wf(o, L, D) && D >= 1 && k <= L
    ensures var entries := OutTotals(o, k, numEvents, L, D);
      |entries| == k * |o.assets| && forall l, a :: 0 <= l < k && 0 <= a < |o.assets| ==>
        Position(l, a, |o.assets|) < |entries|
        && IsEntry(entries[Position(l, a, |o.assets|)], o, l, a, numEvents, L, D)
  {
    if k == 0 {
    } else {
      OutEntries(o, k - 1, numEvents, L, D);
      AssetEntries(o, k - 1, |o.assets|, numEvents, L, D);
      var before, last := OutTotals(o, k - 1, numEvents, L, D), TotalsOf(o, k - 1, |o.assets|, numEvents, L, D);
      assert OutTotals(o, k, numEvents, L, D) == before + last;
      assert |last| == |o.assets|;
      hide Wf, IsEntry, TotalsOf, OutTotals, Position;
      LastRow(k, |o.assets|);
      forall l, a | 0 <= l < k && 0 <= a < |o.assets|
        ensures Position(l, a, |o.assets|) < |before + last|
        ensures IsEntry((before + last)[Position(l, a, |o.assets|)], o, l, a, numEvents, L, D)
      {
        InRows(k, l, a, |o.assets|);
        if l < k - 1 {
          assert (before + last)[Position(l, a, |o.assets|)] == before[Position(l, a, |o.assets|)];
        } else {
          assert (before + last)[Position(l, a, |o.assets|)] == last[a];
        }
      }
    }
  }

  lemma {:induction false} LastRow(k: nat, numAssets: nat)
    ensures k * numAssets == (k - 1) * numAssets + numAssets
  {
  }

  lemma {:induction false} InRows(k: nat, l: nat, a: nat, numAssets: nat)
    requires l < k && a < numAssets
    ensures l == k - 1 ==> Position(l, a, numAssets) == (k - 1) * numAssets + a
    ensures l < k - 1 ==> Position(l, a, numAssets) < (k - 1) * numAssets
  {
    if l < k - 1 {
      MulGrows(l + 1, k - 1, numAssets);
      LastRow(l + 1, numAssets);
    }
  }

  lemma {:induction false} MulGrows(a: nat, b: nat, c: nat)
    requires a <= b
    ensures a * c <= b * c
  {
  }

  function Position(l: nat, a: nat, numAssets: nat): nat {
    l * numAssets + a
  }
}
