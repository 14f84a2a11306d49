/**
 Saving the disaggregation results, and what is saved whatever the order in which the tasks
 finish. The results of a site and measure type are of two kinds, and the total probability
 of exceedance is written to the same place for both: first that of the (distance, epsilon)
 matrix and then that of the (longitude, latitude) matrix. This is consistent because both
 totals are the product over all cells of all the matrices that the tasks computed. The same
 number is what every exported marginal gives when it is collapsed.
 */
module DisaggStore {
  import opened Aggregates
  import opened Probability
  import opened Disaggregation
  import opened DisaggCells
  import opened Folds
  import opened Sorting
  import P = TaskProtocol

  datatype Entry = Entry(s: nat, m: nat, k: nat, mat: NdArray)

  predicate ByKey(a: Entry, b: Entry) {
    a.s < b.s || (a.s == b.s && (a.m < b.m || (a.m == b.m && a.k <= b.k)))
  }

  ghost predicate DistinctKeys(results: seq<Entry>) {
    forall i, j :: 0 <= i < |results| && 0 <= j < |results| && i != j ==>
      (results[i].s, results[i].m, results[i].k) != (results[j].s, results[j].m, results[j].k)
  }

  /** The two kinds of results of a site and measure type have the same total. */
  ghost predicate Consistent(results: seq<Entry>) {
    forall i, j ::
      (0 <= i < |results| && 0 <= j < |results| && results[i].s == results[j].s && results[i].m == results[j].m) ==>
      Collapse(results[i].mat) == Collapse(results[j].mat)
  }

  class Store {
    var poe4: map<Sm, real>
    var disagg: map<(Kind, nat, nat), NdArray>

    constructor ()
      ensures poe4 == map[] && disagg == map[]
    {
      poe4, disagg := map[], map[];
    }

    /** Exports everything asked for; of the totals of a site and measure type the last one written stays. */
    method Save(results: seq<Entry>, outputs: seq<Kind>)
      requires DistinctKeys(results) && forall i :: 0 <= i < |results| ==> FourAxes(results[i].mat)
      modifies this
      ensures forall i :: 0 <= i < |results| && HighestKind(results, i) ==> Saved(poe4, results[i])
      ensures Consistent(results) ==> AllSaved(poe4, results, |results|)
      ensures AllExported(disagg, outputs, results, |results|)
      ensures OnlyOutputs(old(disagg), disagg, outputs)
    {
      hide AllSaved, AllExported, Consistent, DistinctKeys, Exported, LastSaved, HighestKind, Saved;
      var items := Sort(results, ByKey);
      KeepEntries(items, results);
      NoneYet(poe4, disagg, outputs, items);
      for i := 0 to |items|
        invariant LastSaved(poe4, items, i)
        invariant Consistent(items) ==> AllSaved(poe4, items, i)
        invariant AllExported(disagg, outputs, items, i)
        invariant OnlyOutputs(old(disagg), disagg, outputs)
      {
        var e := items[i];
        assert e in results;
        ghost var poe4', disagg' := poe4, disagg;
        poe4 := poe4[(e.s, e.m) := Collapse(e.mat)];
        SaveEntry(e, outputs);
        LastStep(poe4', items, i);
        if Consistent(items) {
          SavedStep(poe4', items, i);
        }
        ExportedStep(disagg', disagg, outputs, items, i);
      }
      SameEntries(poe4, disagg, outputs, items, results);
      HighestSaved(poe4, items, results);
    }

    method SaveEntry(e: Entry, outputs: seq<Kind>)
      requires FourAxes(e.mat)
      modifies this`disagg
      ensures Exported(disagg, outputs, |outputs|, e)
      ensures forall f :: f in old(disagg) && (f.1, f.2, f.0.K()) != (e.s, e.m, e.k) ==>
        f in disagg && disagg[f] == old(disagg)[f]
      ensures OnlyOutputs(old(disagg), disagg, outputs)
    {
      for o := 0 to |outputs|
        invariant Exported(disagg, outputs, o, e)
        invariant OnlyOutputs(old(disagg), disagg, outputs)
        invariant forall f :: f in old(disagg) && (f.1, f.2, f.0.K()) != (e.s, e.m, e.k) ==>
          f in disagg && disagg[f] == old(disagg)[f]
      {
        if outputs[o].K() == e.k {
          disagg := disagg[(outputs[o], e.s, e.m) := Export(outputs[o], e.mat)];
        }
      }
    }
  }

  /** Nothing is written under a name that is not asked for. */
  ghost predicate OnlyOutputs(
    before: map<(Kind, nat, nat), NdArray>, after: map<(Kind, nat, nat), NdArray>, outputs: seq<Kind>)
  {
    forall f: (Kind, nat, nat) :: f.0 !in outputs ==>
      (f in before <==> f in after) && (f in after ==> after[f] == before[f])
  }

  ghost predicate Saved(poe4: map<Sm, real>, e: Entry) {
    (e.s, e.m) in poe4 && poe4[(e.s, e.m)] == Collapse(e.mat)
  }

  /** The first `n` outputs of the kind of the entry are in the store. */
  ghost predicate Exported(disagg: map<(Kind, nat, nat), NdArray>, outputs: seq<Kind>, n: nat, e: Entry)
    requires n <= |outputs|
  {
    FourAxes(e.mat) && forall o :: 0 <= o < n && outputs[o].K() == e.k ==>
      (outputs[o], e.s, e.m) in disagg && disagg[(outputs[o], e.s, e.m)] == Export(outputs[o], e.mat)
  }

  ghost predicate AllSaved(poe4: map<Sm, real>, items: seq<Entry>, n: nat)
    requires n <= |items|
  {
    forall j :: 0 <= j < n ==> Saved(poe4, items[j])
  }

  ghost predicate AllExported(disagg: map<(Kind, nat, nat), NdArray>, outputs: seq<Kind>, items: seq<Entry>, n: nat)
    requires n <= |items|
  {
    forall j :: 0 <= j < n ==> Exported(disagg, outputs, |outputs|, items[j])
  }

  /** No entry of the same site and measure type is of a higher kind. */
  ghost predicate HighestKind(results: seq<Entry>, i: nat)
    requires i < |results|
  {
    forall j :: 0 <= j < |results| && results[j].s == results[i].s && results[j].m == results[i].m ==>
      results[j].k <= results[i].k
  }

  /** Of the first `n` entries those that were not overwritten are in the store. */
  ghost predicate LastSaved(poe4: map<Sm, real>, items: seq<Entry>, n: nat)
    requires n <= |items|
  {
    forall i :: 0 <= i < n && (forall j :: i < j < n ==> (items[j].s, items[j].m) != (items[i].s, items[i].m)) ==>
      Saved(poe4, items[i])
  }

  lemma {:induction false} LastStep(poe4: map<Sm, real>, items: seq<Entry>, n: nat)
    requires n < |items| && LastSaved(poe4, items, n)
    ensures LastSaved(poe4[(items[n].s, items[n].m) := Collapse(items[n].mat)], items, n + 1)
  {
    hide Collapse;
    var poe4' := poe4[(items[n].s, items[n].m) := Collapse(items[n].mat)];
    forall i | 0 <= i <= n && (forall j :: i < j <= n ==> (items[j].s, items[j].m) != (items[i].s, items[i].m))
      ensures Saved(poe4', items[i])
    {
      if i < n {
        assert Saved(poe4, items[i]);
      }
    }
  }

  /** In the order of the keys the highest kind is written last. */
  lemma {:induction false} HighestSaved(poe4: map<Sm, real>, items: seq<Entry>, results: seq<Entry>)
    requires SortedBy(items, ByKey) && DistinctKeys(items) && LastSaved(poe4, items, |items|)
    requires forall i :: 0 <= i < |results| ==> results[i] in items
    requires forall i :: 0 <= i < |items| ==> items[i] in results
    ensures forall i :: 0 <= i < |results| && HighestKind(results, i) ==> Saved(poe4, results[i])
  {
    hide Saved, HighestKind, DistinctKeys, SortedBy;
    forall i | 0 <= i < |results| && HighestKind(results, i) ensures Saved(poe4, results[i]) {
      assert results[i] in items;
      var p :| 0 <= p < |items| && items[p] == results[i];
      forall q | p < q < |items| ensures (items[q].s, items[q].m) != (items[p].s, items[p].m) {
        assert items[q] in results;
        NotOverwritten(items, results, i, p, q);
      }
    }
  }

  lemma {:induction false} NotOverwritten(items: seq<Entry>, results: seq<Entry>, i: nat, p: nat, q: nat)
    requires SortedBy(items, ByKey) && DistinctKeys(items) && p < q < |items| && i < |results|
    requires HighestKind(results, i) && items[p] == results[i] && items[q] in results
    ensures (items[q].s, items[q].m) != (items[p].s, items[p].m)
  {
    assert ByKey(items[p], items[q]);
    assert (items[p].s, items[p].m, items[p].k) != (items[q].s, items[q].m, items[q].k);
    var j :| 0 <= j < |results| && results[j] == items[q];
    hide DistinctKeys, SortedBy;
  }

  lemma {:induction false} NoneYet(
    poe4: map<Sm, real>, disagg: map<(Kind, nat, nat), NdArray>, outputs: seq<Kind>, items: seq<Entry>)
    ensures LastSaved(poe4, items, 0)
    ensures AllSaved(poe4, items, 0) && AllExported(disagg, outputs, items, 0)
  {
  }

  lemma {:induction false} SavedStep(poe4: map<Sm, real>, items: seq<Entry>, i: nat)
    requires i < |items| && Consistent(items) && AllSaved(poe4, items, i)
    ensures AllSaved(poe4[(items[i].s, items[i].m) := Collapse(items[i].mat)], items, i + 1)
  {
    hide Collapse;
  }

  lemma {:induction false} ExportedStep(
    before: map<(Kind, nat, nat), NdArray>, after: map<(Kind, nat, nat), NdArray>, outputs: seq<Kind>,
    items: seq<Entry>, i: nat)
    requires i < |items| && DistinctKeys(items) && AllExported(before, outputs, items, i)
    requires Exported(after, outputs, |outputs|, items[i])
    requires forall f :: f in before && (f.1, f.2, f.0.K()) != (items[i].s, items[i].m, items[i].k) ==>
      f in after && after[f] == before[f]
    ensures AllExported(after, outputs, items, i + 1)
  {
    hide FourAxes, Export;
    forall j | 0 <= j <= i ensures Exported(after, outputs, |outputs|, items[j]) {
      if j < i {
        assert Exported(before, outputs, |outputs|, items[j]);
      }
    }
  }

  lemma {:induction false} SameEntries(
    poe4: map<Sm, real>, disagg: map<(Kind, nat, nat), NdArray>, outputs: seq<Kind>,
    items: seq<Entry>, results: seq<Entry>)
    requires forall i :: 0 <= i < |results| ==> results[i] in items
    ensures AllSaved(poe4, items, |items|) ==> AllSaved(poe4, results, |results|)
    ensures AllExported(disagg, outputs, items, |items|) ==> AllExported(disagg, outputs, results, |results|)
  {
    hide Exported, Saved;
  }

  /** Sorting keeps the entries, each once. */
  lemma {:induction false} KeepEntries(items: seq<Entry>, results: seq<Entry>)
    requires multiset(items) == multiset(results) && DistinctKeys(results)
    ensures DistinctKeys(items) && (Consistent(results) ==> Consistent(items))
    ensures forall i :: 0 <= i < |results| ==> results[i] in items
    ensures forall i :: 0 <= i < |items| ==> items[i] in results
  {
    PermutationLength(items, results);
    forall i, j | 0 <= i < |items| && 0 <= j < |items| && i != j
      ensures (items[i].s, items[i].m, items[i].k) != (items[j].s, items[j].m, items[j].k)
    {
      if items[i] == items[j] {
        TwiceIsTwo(items, i, j);
        OnceIsOne(results, items[i]);
      } else {
        assert items[i] in results && items[j] in results;
      }
    }
    assert forall i :: 0 <= i < |items| ==> items[i] in results;
  }

  // ---- the whole calculation ----

  /** What a task found for a site and measure type, over all cells of its matrix. */
  function Total(r: Outcome, sm: Sm): real {
    if sm in r.mats then TotalSurvival(r.mats[sm]) else 1.0
  }

  /** The results of the tasks fit the bins of the calculation. */
  ghost predicate Fits(rs: seq<Outcome>, sm: Sm, numTrts: nat, numMags: nat, shape: seq<nat>) {
    && (forall i :: 0 <= i < |rs| ==> rs[i].trti < numTrts && rs[i].magi < numMags)
    && (forall i :: 0 <= i < |rs| && sm in rs[i].mats ==> rs[i].mats[sm].shape == shape)
  }

  lemma {:induction false} FitsPermuted(
    rs: seq<Outcome>, qs: seq<Outcome>, sm: Sm, numTrts: nat, numMags: nat, shape: seq<nat>)
    requires multiset(rs) == multiset(qs) && Fits(rs, sm, numTrts, numMags, shape)
    ensures Fits(qs, sm, numTrts, numMags, shape)
  {
    PermutationLength(rs, qs);
    forall i | 0 <= i < |qs|
      ensures qs[i].trti < numTrts && qs[i].magi < numMags
      ensures sm in qs[i].mats ==> qs[i].mats[sm].shape == shape
    {
      assert qs[i] in rs;
    }
  }

  /**
   Under any schedule of the tasks both kinds of results, and every marginal exported from
   them, collapse to one number: the product over all cells of all that the tasks found.
   */
  lemma {:induction false} DisaggregationTotals(
    agg: (Acc, Outcome) -> Acc, pre: seq<P.Task<Outcome>>, queue: seq<P.Task<Outcome>>, cores: nat, run: seq<P.Event>,
    st: P.State<Outcome>, smk: Smk, numTrts: nat, numMags: nat, shape: seq<nat>, total: Outcome -> real, key: Kind)
    requires forall a, r :: agg(a, r) == AggResult(a, r)
    requires cores >= 1 && P.Reaches(pre, queue, cores, run, st) && st.todo == 0
    requires smk.2 < 2 && |shape| == 4 && numTrts > 0
    requires Fits(P.Values(P.ForestTrace(pre + queue)), (smk.0, smk.1), numTrts, numMags, shape)
    requires forall r :: total(r) == Total(r, (smk.0, smk.1))
    ensures var found := Fold(agg, map[], P.Values(st.log));
      var mat := MatrixOf(Get(found, smk), numTrts, numMags, SideShape(shape, smk.2));
      && Collapse(mat) == 1.0 - Agg(Times, P.Values(P.ForestTrace(pre + queue)), total)
      && Collapse(Export(key, mat)) == Collapse(mat)
  {
    hide Fits, TotalSurvival, AggResult, Export;
    var rs, all := P.Values(st.log), P.Values(P.ForestTrace(pre + queue));
    P.ExactlyOnce(pre, queue, cores, run, st);
    FitsPermuted(all, rs, (smk.0, smk.1), numTrts, numMags, shape);
    MatrixTotal(agg, rs, smk, numTrts, numMags, shape, total);
    AggPermutation(Times, rs, all, total);
    ExportKeepsTotal(key, MatrixOf(Get(Fold(agg, map[], rs), smk), numTrts, numMags, SideShape(shape, smk.2)));
  }

  // ---- what is saved after a run ----

  function TotalOf(sm: Sm): Outcome -> real {
    (r: Outcome) => Total(r, sm)
  }

  /** The probability that all the results together give for a site and measure type. */
  function Found(rs: seq<Outcome>, sm: Sm): real {
    1.0 - Agg(Times, rs, TotalOf(sm))
  }

  /** The entries are the matrices built from what was accumulated, one for each key. */
  ghost predicate BuiltFrom(results: seq<Entry>, found: Acc, numTrts: nat, numMags: nat, shape: seq<nat>)
    requires |shape| == 4
  {
    && (forall smk :: smk in found ==> HasEntry(results, smk))
    && (forall i :: 0 <= i < |results| ==> results[i].k < 2)
    && (forall i :: 0 <= i < |results| ==>
          results[i].mat == MatrixOf(Get(found, (results[i].s, results[i].m, results[i].k)),
                                     numTrts, numMags, SideShape(shape, results[i].k)))
  }

  ghost predicate HasEntry(results: seq<Entry>, smk: Smk) {
    exists i :: 0 <= i < |results| && (results[i].s, results[i].m, results[i].k) == smk
  }

  /** The output is stored, and each of its cells is what all the tasks found for its indices. */
  ghost predicate HasOutput(disagg: map<(Kind, nat, nat), NdArray>, all: seq<Outcome>, key: Kind, sm: Sm,
                            numTrts: nat, numMags: nat, shape: seq<nat>)
    requires |shape| == 4
  {
    && (key, sm.0, sm.1) in disagg
    && disagg[(key, sm.0, sm.1)].shape == ShapeOf(key, numTrts, numMags, shape)
    && forall out :: InShape(out, ShapeOf(key, numTrts, numMags, shape)) ==>
         disagg[(key, sm.0, sm.1)].at(out) == FoundAt(all, sm, key, out)
  }

  ghost predicate SomeHas(rs: seq<Outcome>, sm: Sm) {
    exists r :: r in rs && sm in r.mats
  }

  /** The results of the tasks fit, for all the sites and measure types of the entries. */
  ghost predicate AllFit(rs: seq<Outcome>, results: seq<Entry>, numTrts: nat, numMags: nat, shape: seq<nat>) {
    forall i :: 0 <= i < |results| ==> Fits(rs, (results[i].s, results[i].m), numTrts, numMags, shape)
  }

  /**
   The matrices that a run builds, under any schedule, have consistent totals: each is what
   all the tasks found for its site and measure type.
   */
  lemma {:induction false} RunIsConsistent(
    agg: (Acc, Outcome) -> Acc, pre: seq<P.Task<Outcome>>, queue: seq<P.Task<Outcome>>, cores: nat, run: seq<P.Event>,
    st: P.State<Outcome>, results: seq<Entry>, numTrts: nat, numMags: nat, shape: seq<nat>)
    requires forall a, r :: agg(a, r) == AggResult(a, r)
    requires cores >= 1 && P.Reaches(pre, queue, cores, run, st) && st.todo == 0
    requires |shape| == 4 && numTrts > 0
    requires AllFit(P.Values(P.ForestTrace(pre + queue)), results, numTrts, numMags, shape)
    requires BuiltFrom(results, Fold(agg, map[], P.Values(st.log)), numTrts, numMags, shape)
    ensures Consistent(results)
    ensures forall i :: 0 <= i < |results| ==> FourAxes(results[i].mat)
    ensures forall i :: 0 <= i < |results| ==>
      Collapse(results[i].mat) == Found(P.Values(P.ForestTrace(pre + queue)), (results[i].s, results[i].m))
  {
    hide AggResult, P.Reaches, Fits, Collapse, Export, Total;
    var all, found := P.Values(P.ForestTrace(pre + queue)), Fold(agg, map[], P.Values(st.log));
    forall i | 0 <= i < |results|
      ensures FourAxes(results[i].mat) && Collapse(results[i].mat) == Found(all, (results[i].s, results[i].m))
    {
      var e := results[i];
      DisaggregationTotals(agg, pre, queue, cores, run, st, (e.s, e.m, e.k), numTrts, numMags, shape,
                           TotalOf((e.s, e.m)), MagDistEps);
    }
  }

  lemma {:induction false} OutputFound(
    agg: (Acc, Outcome) -> Acc, rs: seq<Outcome>, all: seq<Outcome>, results: seq<Entry>,
    disagg: map<(Kind, nat, nat), NdArray>, outputs: seq<Kind>, key: Kind, sm: Sm,
    numTrts: nat, numMags: nat, shape: seq<nat>)
    requires forall a, r :: agg(a, r) == AggResult(a, r)
    requires multiset(rs) == multiset(all) && |shape| == 4 && numTrts > 0
    requires AllFit(all, results, numTrts, numMags, shape)
    requires BuiltFrom(results, Fold(agg, map[], rs), numTrts, numMags, shape)
    requires AllExported(disagg, outputs, results, |results|) && key in outputs && SomeHas(all, sm)
    ensures HasOutput(disagg, all, key, sm, numTrts, numMags, shape)
  {
    hide AggResult, Fits, Export, FourAxes, NamedShare, MatrixOf, ShapeOf, InShape;
    var smk := (sm.0, sm.1, key.K());
    SameElements(rs, all);
    AccumulatedKeys(agg, map[], rs, smk);
    assert HasEntry(results, smk);
    var i :| 0 <= i < |results| && (results[i].s, results[i].m, results[i].k) == smk;
    var o :| 0 <= o < |outputs| && outputs[o] == key;
    FitsPermuted(all, rs, sm, numTrts, numMags, shape);
    FitsMeans(rs, sm, numTrts, numMags, shape);
    assert Exported(disagg, outputs, |outputs|, results[i]);
    assert disagg[(key, sm.0, sm.1)] == Export(key, results[i].mat);
    ShapeOfOutput(agg, rs, sm, key, numTrts, numMags, shape, results[i].mat);
    forall out | InShape(out, ShapeOf(key, numTrts, numMags, shape))
      ensures disagg[(key, sm.0, sm.1)].at(out) == FoundAt(all, sm, key, out)
    {
      ExportIsFound(agg, rs, sm, key, numTrts, numMags, shape, out, results[i].mat);
      AggPermutation(Times, rs, all, SharesOf(key, out, sm));
    }
  }

  lemma {:induction false} FitsMeans(rs: seq<Outcome>, sm: Sm, numTrts: nat, numMags: nat, shape: seq<nat>)
    requires Fits(rs, sm, numTrts, numMags, shape)
    ensures forall i :: 0 <= i < |rs| ==> rs[i].trti < numTrts && rs[i].magi < numMags
    ensures forall i :: 0 <= i < |rs| && sm in rs[i].mats ==> rs[i].mats[sm].shape == shape
  {
  }

  /** After a run `poe4` holds what all the tasks found, whichever kind was written last. */
  method SaveRun(
    store: Store, results: seq<Entry>, outputs: seq<Kind>,
    ghost agg: (Acc, Outcome) -> Acc, ghost pre: seq<P.Task<Outcome>>, ghost queue: seq<P.Task<Outcome>>,
    ghost cores: nat, ghost run: seq<P.Event>, ghost st: P.State<Outcome>,
    ghost numTrts: nat, ghost numMags: nat, ghost shape: seq<nat>)
    requires forall a, r :: agg(a, r) == AggResult(a, r)
    requires cores >= 1 && P.Reaches(pre, queue, cores, run, st) && st.todo == 0
    requires |shape| == 4 && numTrts > 0 && DistinctKeys(results)
    requires AllFit(P.Values(P.ForestTrace(pre + queue)), results, numTrts, numMags, shape)
    requires BuiltFrom(results, Fold(agg, map[], P.Values(st.log)), numTrts, numMags, shape)
    modifies store
    ensures forall i :: 0 <= i < |results| ==>
      (results[i].s, results[i].m) in store.poe4 && store.poe4[(results[i].s, results[i].m)] ==
        Found(P.Values(P.ForestTrace(pre + queue)), (results[i].s, results[i].m))
    ensures AllExported(store.disagg, outputs, results, |results|)
    ensures forall key, sm :: key in outputs && SomeHas(P.Values(P.ForestTrace(pre + queue)), sm) ==>
      HasOutput(store.disagg, P.Values(P.ForestTrace(pre + queue)), key, sm, numTrts, numMags, shape)
  {
    RunIsConsistent(agg, pre, queue, cores, run, st, results, numTrts, numMags, shape);
    P.ExactlyOnce(pre, queue, cores, run, st);
    hide SomeHas, HasOutput;
    hide AggResult, P.Reaches, AllFit, BuiltFrom, Collapse, AllExported, Found, Consistent, DistinctKeys, FourAxes;
    store.Save(results, outputs);
    ghost var rs, all := P.Values(st.log), P.Values(P.ForestTrace(pre + queue));
    forall key, sm | key in outputs && SomeHas(all, sm)
      ensures HasOutput(store.disagg, all, key, sm, numTrts, numMags, shape)
    {
      OutputFound(agg, rs, all, results, store.disagg, outputs, key, sm, numTrts, numMags, shape);
    }
  }
}
