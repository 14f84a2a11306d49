/**
 Aggregation of disaggregation matrices (distance, longitude, latitude, epsilon). Tasks send
 back two marginals of them; the master aggregates these by region type and magnitude bin,
 and exports marginals of the result. Probability levels and realizations are left out.
 */
module Disaggregation {
  import opened Aggregates
  import opened AggKeys
  import opened Probability
  import opened Folds

  type Mat4 = a: NdArray | |a.shape| == 4 witness NdArray([0, 0, 0, 0], idx => 0.0)

  type Sm = (nat, nat)
  type Smk = (nat, nat, nat)
  type Bin = (nat, nat)

  /** What a task finds for one region type and magnitude bin, by site and measure type. */
  datatype Outcome = Outcome(trti: nat, magi: nat, mats: map<Sm, Mat4>)

  type Acc = map<Smk, map<Bin, NdArray>>

  /** The marginals sent back: (distance, epsilon) and (longitude, latitude). */
  function Output(mat: Mat4): (NdArray, NdArray) {
    (PProd(mat, [0, 3]), PProd(mat, [1, 2]))
  }

  function Side(mat: Mat4, k: nat): NdArray {
    if k == 0 then Output(mat).0 else Output(mat).1
  }

  /** Cell by cell 1 - (1 - x)(1 - y). */
  function AggTwo(x: NdArray, y: NdArray): NdArray {
    NdArray(y.shape, idx => 1.0 - (1.0 - x.at(idx)) * (1.0 - y.at(idx)))
  }

  function Zero(shape: seq<nat>): NdArray {
    NdArray(shape, idx => 0.0)
  }

  predicate Has(r: Outcome, smk: Smk) {
    (smk.0, smk.1) in r.mats && smk.2 < 2
  }

  function Keys(r: Outcome): (keys: set<Smk>)
    ensures forall smk :: smk in keys <==> Has(r, smk)
  {
    set sm, k | sm in r.mats && 0 <= k < 2 :: (sm.0, sm.1, k)
  }

  function Get(acc: Acc, smk: Smk): map<Bin, NdArray> {
    if smk in acc then acc[smk] else map[]
  }

  function Updated(dic: map<Bin, NdArray>, bin: Bin, out: NdArray): map<Bin, NdArray> {
    dic[bin := AggTwo(if bin in dic then dic[bin] else Zero(out.shape), out)]
  }

  /** The marginal of the outcome for a key. */
  function OutFor(r: Outcome, smk: Smk): NdArray
    requires Has(r, smk)
  {
    Side(r.mats[(smk.0, smk.1)], smk.2)
  }

  /** The accumulator after the entries of the outcome in `done` were aggregated. */
  function After(acc: Acc, r: Outcome, done: set<Smk>): Acc
    requires forall smk :: smk in done ==> Has(r, smk)
  {
    map smk | smk in acc.Keys + done ::
      if smk in done then Updated(Get(acc, smk), (r.trti, r.magi), OutFor(r, smk)) else acc[smk]
  }

  function AggResult(acc: Acc, r: Outcome): Acc {
    After(acc, r, Keys(r))
  }

  lemma {:induction false} AfterOne(acc: Acc, r: Outcome, done: set<Smk>, smk: Smk)
    requires (forall x :: x in done ==> Has(r, x)) && Has(r, smk) && smk !in done
    ensures After(acc, r, done + {smk}) ==
      After(acc, r, done)[smk := Updated(Get(After(acc, r, done), smk), (r.trti, r.magi), OutFor(r, smk))]
  {
    hide Updated, OutFor, Has;
    var a, b := After(acc, r, done), After(acc, r, done + {smk});
    assert Get(a, smk) == Get(acc, smk);
    var c := a[smk := Updated(Get(a, smk), (r.trti, r.magi), OutFor(r, smk))];
    assert c.Keys == b.Keys;
    assert forall x :: x in b ==> b[x] == c[x];
  }

  class Accumulator {
    var acc: Acc

    constructor ()
      ensures acc == map[]
    {
      acc := map[];
    }

    method Collect(result: Outcome)
      modifies this
      ensures acc == AggResult(old(acc), result)
    {
      var items := result.mats.Keys;
      ghost var done: set<Smk> := {};
      while items != {}
        invariant items <= result.mats.Keys
        invariant forall smk :: smk in done <==> Has(result, smk) && (smk.0, smk.1) !in items
        invariant acc == After(old(acc), result, done)
        decreases items
      {
        var sm :| sm in items;
        done := CollectOne(result, sm, done, old(acc));
        items := items - {sm};
      }
      assert done == Keys(result);
    }

    /** The two marginals of one matrix. */
    method CollectOne(result: Outcome, sm: Sm, ghost done: set<Smk>, ghost acc0: Acc) returns (ghost done': set<Smk>)
      requires sm in result.mats
      requires forall smk :: smk in done ==> Has(result, smk) && (smk.0, smk.1) != sm
      requires acc == After(acc0, result, done)
      modifies this
      ensures done' == done + {(sm.0, sm.1, 0), (sm.0, sm.1, 1)}
      ensures (forall smk :: smk in done' ==> Has(result, smk)) && acc == After(acc0, result, done')
    {
      done' := done;
      for k := 0 to 2
        invariant done' == done + set i | 0 <= i < k :: (sm.0, sm.1, i)
        invariant (forall smk :: smk in done' ==> Has(result, smk)) && acc == After(acc0, result, done')
      {
        var smk := (sm.0, sm.1, k);
        AfterOne(acc0, result, done', smk);
        acc := acc[smk := Updated(Get(acc, smk), (result.trti, result.magi), OutFor(result, smk))];
        done' := done' + {smk};
      }
    }
  }

  // ---- one cell of the accumulator ----

  /** The complement of the probability accumulated in a cell. */
  function Surv(acc: Acc, smk: Smk, bin: Bin, idx: seq<nat>): real {
    if smk in acc && bin in acc[smk] then 1.0 - acc[smk][bin].at(idx) else 1.0
  }

  /** The factor an outcome brings to a cell. */
  function Share(r: Outcome, smk: Smk, bin: Bin, idx: seq<nat>): real {
    if Has(r, smk) && (r.trti, r.magi) == bin then 1.0 - OutFor(r, smk).at(idx) else 1.0
  }

  lemma {:induction false} OneResult(acc: Acc, r: Outcome, smk: Smk, bin: Bin, idx: seq<nat>)
    ensures Surv(AggResult(acc, r), smk, bin, idx) == Surv(acc, smk, bin, idx) * Share(r, smk, bin, idx)
  {
    hide OutFor, Has, Keys;
  }

  /** A cell holds the product over all outcomes, in whatever order they were collected. */
  lemma {:induction false} CellIsProduct(
    agg: (Acc, Outcome) -> Acc, acc: Acc, rs: seq<Outcome>, smk: Smk, bin: Bin, idx: seq<nat>, f: Outcome -> real)
    requires forall a, r :: agg(a, r) == AggResult(a, r)
    requires forall r :: f(r) == Share(r, smk, bin, idx)
    ensures Surv(Fold(agg, acc, rs), smk, bin, idx) == Surv(acc, smk, bin, idx) * Agg(Times, rs, f)
    decreases |rs|
  {
    hide Surv, Share, AggResult;
    if rs != [] {
      OneResult(acc, rs[0], smk, bin, idx);
      CellIsProduct(agg, agg(acc, rs[0]), rs[1..], smk, bin, idx, f);
      var s, x, y := Surv(acc, smk, bin, idx), f(rs[0]), Agg(Times, rs[1..], f);
      assert (s * x) * y == s * (x * y);
    }
  }

  // ---- the matrix of a site, measure type and kind ----

  /** A single array with the region types and the magnitudes as first axes, zero where nothing was found. */
  function MatrixOf(dic: map<Bin, NdArray>, numTrts: nat, numMags: nat, shape: seq<nat>): NdArray {
    NdArray([numTrts] + ([numMags] + shape),
            (idx: seq<nat>) =>
              if |idx| >= 2 && (idx[0], idx[1]) in dic then dic[(idx[0], idx[1])].at(idx[2..]) else 0.0)
  }

  /** The factor an outcome brings to a cell of the matrix. */
  function CellShare(smk: Smk, idx: seq<nat>, r: Outcome): real {
    if |idx| >= 2 then Share(r, smk, (idx[0], idx[1]), idx[2..]) else 1.0
  }

  /** The axes kept by the marginal of a kind. */
  function Keep(k: nat): seq<nat> {
    if k == 0 then [0, 3] else [1, 2]
  }

  lemma {:induction false} OtherBin(smk: Smk, r: Outcome, idx: seq<nat>)
    requires |idx| < 2 || idx[0] != r.trti || idx[1] != r.magi
    ensures CellShare(smk, idx, r) == 1.0
  {
  }

  lemma {:induction false} OwnBin(smk: Smk, r: Outcome, p: seq<nat>)
    ensures CellShare(smk, [r.trti, r.magi] + p, r) == if Has(r, smk) then 1.0 - OutFor(r, smk).at(p) else 1.0
  {
    assert ([r.trti, r.magi] + p)[2..] == p;
  }

  /** The cells of one outcome, those that satisfy `c` only: there are some in a single bin. */
  lemma {:induction false} OutcomeColumn(
    smk: Smk, r: Outcome, numTrts: nat, numMags: nat, shape: seq<nat>, c: seq<nat> -> bool, f: seq<nat> -> real,
    h: seq<nat> -> real)
    requires r.trti < numTrts && r.magi < numMags
    requires forall idx :: f(idx) == if c(idx) then CellShare(smk, idx, r) else 1.0
    requires forall p :: h(p) == if Has(r, smk) && c([r.trti, r.magi] + p) then 1.0 - OutFor(r, smk).at(p) else 1.0
    ensures Agg(Times, Grid([numTrts] + ([numMags] + shape)), f) == Agg(Times, Grid(shape), h)
  {
    hide Grid, Agg, Has, OutFor;
    var g := p => f([r.trti] + p);
    forall p ensures h(p) == g([r.magi] + p) {
      OwnBin(smk, r, p);
      assert [r.trti] + ([r.magi] + p) == [r.trti, r.magi] + p;
    }
    forall x, p | x != r.trti ensures f([x] + p) == 1.0 {
      OtherBin(smk, r, [x] + p);
    }
    forall x, p | x != r.magi ensures g([x] + p) == 1.0 {
      OtherBin(smk, r, [r.trti] + ([x] + p));
    }
    hide CellShare;
    AggTwoSlots(Times, numTrts, numMags, shape, r.trti, r.magi, f, g, h);
  }

  lemma {:induction false} RowOfCell(
    agg: (Acc, Outcome) -> Acc, rs: seq<Outcome>, smk: Smk, dic: map<Bin, NdArray>, m: NdArray, idx: seq<nat>,
    c: seq<nat> -> bool, f: (seq<nat>, Outcome) -> real)
    requires forall a, r :: agg(a, r) == AggResult(a, r)
    requires dic == Get(Fold(agg, map[], rs), smk)
    requires |idx| >= 2 && m.at(idx) == if (idx[0], idx[1]) in dic then dic[(idx[0], idx[1])].at(idx[2..]) else 0.0
    requires forall i, r :: f(i, r) == if c(i) then CellShare(smk, i, r) else 1.0
    ensures (if c(idx) then 1.0 - m.at(idx) else 1.0) == Row(Times, f, idx, rs)
  {
    if c(idx) {
      var bin, sub := (idx[0], idx[1]), idx[2..];
      var g := r => Share(r, smk, bin, sub);
      CellIsProduct(agg, map[], rs, smk, bin, sub, g);
      RowIs(Times, f, idx, rs, g);
    } else {
      var g := (r: Outcome) => 1.0;
      RowIs(Times, f, idx, rs, g);
      AggUnit(Times, rs, g);
    }
  }

  lemma {:induction false} ColumnOfOutcome(
    r: Outcome, smk: Smk, numTrts: nat, numMags: nat, shape: seq<nat>, cells: seq<seq<nat>>, c: seq<nat> -> bool,
    f: (seq<nat>, Outcome) -> real)
    requires smk.2 < 2 && |shape| == 4 && r.trti < numTrts && r.magi < numMags
    requires Has(r, smk) ==> r.mats[(smk.0, smk.1)].shape == shape
    requires cells == Grid([numTrts] + ([numMags] + SideShape(shape, smk.2)))
    requires forall i, r :: f(i, r) == if c(i) then CellShare(smk, i, r) else 1.0
    ensures Column(Times, f, cells, r) == FoundWhere(r, smk, c)
  {
    hide Grid, Agg, CellShare;
    var sh, keep := SideShape(shape, smk.2), Keep(smk.2);
    var fr := idx => f(idx, r);
    var h := p => if Has(r, smk) && c([r.trti, r.magi] + p) then 1.0 - OutFor(r, smk).at(p) else 1.0;
    OutcomeColumn(smk, r, numTrts, numMags, sh, c, fr, h);
    ColumnIs(Times, f, cells, r, fr);
    if Has(r, smk) {
      var mat := r.mats[(smk.0, smk.1)];
      assert OutFor(r, smk) == PProd(mat, keep) && Proj(mat.shape, keep) == sh;
      var d := p => c([r.trti, r.magi] + p);
      MarginalWhere(mat, keep, d, h, CellsWhere(r, mat, keep, c));
    } else {
      AggUnit(Times, Grid(sh), h);
    }
  }

  /** The factors of the cells whose bin and indices on the axes kept satisfy `c`. */
  function CellsWhere(r: Outcome, mat: Mat4, keep: seq<nat>, c: seq<nat> -> bool): seq<nat> -> real
    requires forall i :: 0 <= i < |keep| ==> keep[i] < 4
  {
    (idx: seq<nat>) =>
      if |idx| == |mat.shape| && c([r.trti, r.magi] + Proj(idx, keep)) then 1.0 - mat.at(idx) else 1.0
  }

  /** What an outcome brings to the cells of the matrix that satisfy `c`. */
  function FoundWhere(r: Outcome, smk: Smk, c: seq<nat> -> bool): real {
    if Has(r, smk)
    then
      var mat := r.mats[(smk.0, smk.1)];
      Agg(Times, Grid(mat.shape), CellsWhere(r, mat, Keep(smk.2), c))
    else 1.0
  }

  /**
   The cells of the matrix of marginals that satisfy `c` aggregate to the product over all
   cells, with such indices, of what all the tasks found.
   */
  lemma {:induction false} MatrixWhere(
    agg: (Acc, Outcome) -> Acc, rs: seq<Outcome>, smk: Smk, numTrts: nat, numMags: nat, shape: seq<nat>,
    c: seq<nat> -> bool, rows: seq<nat> -> real, found: Outcome -> real)
    requires forall a, r :: agg(a, r) == AggResult(a, r)
    requires smk.2 < 2 && |shape| == 4
    requires forall i :: 0 <= i < |rs| ==> rs[i].trti < numTrts && rs[i].magi < numMags
    requires forall i :: 0 <= i < |rs| && Has(rs[i], smk) ==> rs[i].mats[(smk.0, smk.1)].shape == shape
    requires var m := MatrixOf(Get(Fold(agg, map[], rs), smk), numTrts, numMags, SideShape(shape, smk.2));
      forall idx :: rows(idx) == if c(idx) then 1.0 - m.at(idx) else 1.0
    requires forall r :: found(r) == FoundWhere(r, smk, c)
    ensures Agg(Times, Grid([numTrts] + ([numMags] + SideShape(shape, smk.2))), rows) == Agg(Times, rs, found)
  {
    var acc, sh := Fold(agg, map[], rs), SideShape(shape, smk.2);
    var m := MatrixOf(Get(acc, smk), numTrts, numMags, sh);
    var cells := Grid(m.shape);
    var f := (idx, r) => if c(idx) then CellShare(smk, idx, r) else 1.0;
    forall i | 0 <= i < |cells| ensures rows(cells[i]) == Row(Times, f, cells[i], rs) {
      assert cells[i] in cells;
      GridMembers(m.shape, cells[i]);
      RowOfCell(agg, rs, smk, Get(acc, smk), m, cells[i], c, f);
    }
    forall j | 0 <= j < |rs| ensures found(rs[j]) == Column(Times, f, cells, rs[j]) {
      ColumnOfOutcome(rs[j], smk, numTrts, numMags, shape, cells, c, f);
    }
    AggSwap(Times, cells, rs, f, rows, found);
  }

  /** The total of the matrix of marginals: the product over all cells of what all the tasks found. */
  lemma {:induction false} MatrixTotal(
    agg: (Acc, Outcome) -> Acc, rs: seq<Outcome>, smk: Smk, numTrts: nat, numMags: nat, shape: seq<nat>,
    total: Outcome -> real)
    requires forall a, r :: agg(a, r) == AggResult(a, r)
    requires smk.2 < 2 && |shape| == 4
    requires forall i :: 0 <= i < |rs| ==> rs[i].trti < numTrts && rs[i].magi < numMags
    requires forall i :: 0 <= i < |rs| && Has(rs[i], smk) ==> rs[i].mats[(smk.0, smk.1)].shape == shape
    requires forall r :: total(r) == if Has(r, smk) then TotalSurvival(r.mats[(smk.0, smk.1)]) else 1.0
    ensures TotalSurvival(MatrixOf(Get(Fold(agg, map[], rs), smk), numTrts, numMags, SideShape(shape, smk.2)))
         == Agg(Times, rs, total)
  {
    var m := MatrixOf(Get(Fold(agg, map[], rs), smk), numTrts, numMags, SideShape(shape, smk.2));
    var rows, c := idx => 1.0 - m.at(idx), (idx: seq<nat>) => true;
    TotalSurvivalIs(m, rows);
    forall r ensures total(r) == FoundWhere(r, smk, c) {
      if Has(r, smk) {
        AllCells(r, smk, c);
      }
    }
    MatrixWhere(agg, rs, smk, numTrts, numMags, shape, c, rows, total);
  }

  lemma {:induction false} AllCells(r: Outcome, smk: Smk, c: seq<nat> -> bool)
    requires Has(r, smk) && forall idx :: c(idx)
    ensures FoundWhere(r, smk, c) == TotalSurvival(r.mats[(smk.0, smk.1)])
  {
    var mat := r.mats[(smk.0, smk.1)];
    var cells, f := Grid(mat.shape), CellsWhere(r, mat, Keep(smk.2), c);
    forall i | 0 <= i < |cells| ensures f(cells[i]) == 1.0 - mat.at(cells[i]) {
      assert cells[i] in cells;
      GridMembers(mat.shape, cells[i]);
    }
    hide Agg, Grid;
    AggSame(Times, cells, f, (idx: seq<nat>) => 1.0 - mat.at(idx));
  }

  function SideShape(shape: seq<nat>, k: nat): seq<nat>
    requires |shape| == 4
  {
    if k == 0 then [shape[0], shape[3]] else [shape[1], shape[2]]
  }

  method BuildMatrix(matrices: map<Bin, NdArray>, numTrts: nat, numMags: nat) returns (mat: array4<real>)
    requires matrices != map[]
    requires forall bin :: bin in matrices ==> bin.0 < numTrts && bin.1 < numMags && |matrices[bin].shape| == 2
    requires forall b, c :: b in matrices && c in matrices ==> matrices[b].shape == matrices[c].shape
    ensures mat.Length0 == numTrts && mat.Length1 == numMags
    ensures forall bin :: bin in matrices ==> matrices[bin].shape == [mat.Length2, mat.Length3]
    ensures forall t, u, i, j ::
      0 <= t < mat.Length0 && 0 <= u < mat.Length1 && 0 <= i < mat.Length2 && 0 <= j < mat.Length3 ==>
        mat[t, u, i, j] == MatrixOf(matrices, numTrts, numMags, [mat.Length2, mat.Length3]).at([t, u, i, j])
  {
    var first :| first in matrices;
    var shape := matrices[first].shape;
    mat := new real[numTrts, numMags, shape[0], shape[1]]((t, u, i, j) => 0.0);
    var bins := matrices.Keys;
    while bins != {}
      invariant bins <= matrices.Keys
      invariant forall t: nat, u: nat, i: nat, j: nat | t < numTrts && u < numMags && i < shape[0] && j < shape[1] ::
        mat[t, u, i, j] ==
          if (t, u) in matrices && (t, u) !in bins then matrices[(t, u)].at([i, j]) else 0.0
      decreases bins
    {
      var bin :| bin in bins;
      var m, t0, u0 := matrices[bin], bin.0, bin.1;
      forall i: nat, j: nat | i < shape[0] && j < shape[1] {
        mat[t0, u0, i, j] := m.at([i, j]);
      }
      bins := bins - {bin};
    }
    forall t: nat, u: nat, i: nat, j: nat | t < numTrts && u < numMags && i < shape[0] && j < shape[1]
      ensures mat[t, u, i, j] == MatrixOf(matrices, numTrts, numMags, shape).at([t, u, i, j])
    {
      assert [t, u, i, j][2..] == [i, j];
    }
    assert shape == [mat.Length2, mat.Length3];
  }

  // ---- what is exported ----

  datatype Kind = Mag | Dist | TRT | MagDist | MagDistEps | LonLat | MagLonLat | LonLatTRT {
    function K(): nat {
      if LonLat? || MagLonLat? || LonLatTRT? then 1 else 0
    }
  }

  predicate FourAxes(mat: NdArray) {
    |mat.shape| == 4 && mat.shape[0] > 0
  }

  function Slab(mat: NdArray, idx: seq<nat>): (r: seq<real>)
    requires FourAxes(mat)
    ensures |r| == mat.shape[0] && forall t :: 0 <= t < |r| ==> r[t] == mat.at([t] + idx)
  {
    seq(mat.shape[0], t requires 0 <= t => mat.at([t] + idx))
  }

  /** `AggProbs` applied, cell by cell, to the sub-arrays along the first axis. */
  function AggFirstAxis(mat: NdArray): NdArray
    requires FourAxes(mat)
  {
    NdArray(mat.shape[1..], idx => 1.0 - Survival(Slab(mat, idx), mat.shape[0]))
  }

  /** The marginal exported under a name; `mat` has axes TRT, Mag and the two of its kind. */
  function Export(key: Kind, mat: NdArray): NdArray
    requires FourAxes(mat)
  {
    match key
    case Mag => PProd(AggFirstAxis(mat), [0])
    case Dist => PProd(AggFirstAxis(mat), [1])
    case TRT => PProd(mat, [0])
    case MagDist => PProd(AggFirstAxis(mat), [0, 1])
    case MagDistEps => AggFirstAxis(mat)
    case LonLat => PProd(AggFirstAxis(mat), [1, 2])
    case MagLonLat => AggFirstAxis(mat)
    case LonLatTRT => PProd(mat, [2, 3, 0])
  }

  lemma {:induction false} SurvivalIsAgg(probs: seq<real>, n: nat, f: nat -> real)
    requires n <= |probs| && forall t :: 0 <= t < |probs| ==> f(t) == 1.0 - probs[t]
    ensures Survival(probs, n) == Agg(Times, Range(0, n), f)
  {
    if n == 0 {
    } else {
      SurvivalIsAgg(probs, n - 1, f);
      var last: seq<nat> := [n - 1];
      AggAppend(Times, Range(0, n - 1), last, f);
      assert Agg(Times, last, f) == f(n - 1);
    }
  }

  /** Aggregating the first axis keeps the total. */
  lemma {:induction false} FirstAxisKeepsTotal(mat: NdArray)
    requires FourAxes(mat)
    ensures Collapse(AggFirstAxis(mat)) == Collapse(mat)
  {
    hide Grid, Agg, Cross, Survival;
    var n, rest := mat.shape[0], mat.shape[1..];
    var ts, cells := Range(0, n), Grid(rest);
    var f := (t: nat, idx) => 1.0 - mat.at([t] + idx);
    var all := idx => 1.0 - mat.at(idx);
    var rows := (t: nat) => Row(Times, f, t, cells);
    var columns := idx => Column(Times, f, ts, idx);
    TotalSurvivalIs(mat, all);
    assert mat.shape == [n] + rest;
    GridCons(n, rest);
    forall t: nat ensures rows(t) == UnderPrefix(Times, t, cells, all) {
      var g := idx => 1.0 - mat.at([t] + idx);
      RowIs(Times, f, t, cells, g);
      UnderPrefixIs(Times, t, cells, all, g);
    }
    AggCross(Times, ts, cells, all, rows);
    AggSwap(Times, ts, cells, f, rows, columns);
    forall idx ensures columns(idx) == 1.0 - AggFirstAxis(mat).at(idx) {
      var g := (t: nat) => 1.0 - mat.at([t] + idx);
      ColumnIs(Times, f, ts, idx, g);
      SurvivalIsAgg(Slab(mat, idx), n, g);
    }
    TotalSurvivalIs(AggFirstAxis(mat), columns);
  }

  /** Every exported marginal collapses to the total of the matrix it is taken from. */
  lemma {:induction false} ExportKeepsTotal(key: Kind, mat: NdArray)
    requires FourAxes(mat)
    ensures Collapse(Export(key, mat)) == Collapse(mat)
  {
    hide Collapse, PProd;
    FirstAxisKeepsTotal(mat);
    match key
    case Mag => MarginalKeepsTotal(AggFirstAxis(mat), [0]);
    case Dist => MarginalKeepsTotal(AggFirstAxis(mat), [1]);
    case TRT => MarginalKeepsTotal(mat, [0]);
    case MagDist => MarginalKeepsTotal(AggFirstAxis(mat), [0, 1]);
    case LonLat => MarginalKeepsTotal(AggFirstAxis(mat), [1, 2]);
    case LonLatTRT => MarginalKeepsTotal(mat, [2, 3, 0]);
    case _ =>
  }

  /** The axes (TRT 0, Mag 1, and 2, 3 of the kind) that the name of an output stands for. */
  function AxesOf(key: Kind): (axes: seq<nat>)
    ensures forall i :: 0 <= i < |axes| ==> axes[i] < 4
  {
    match key
    case Mag => [1]
    case Dist => [2]
    case TRT => [0]
    case MagDist => [1, 2]
    case MagDistEps => [1, 2, 3]
    case LonLat => [2, 3]
    case MagLonLat => [1, 2, 3]
    case LonLatTRT => [2, 3, 0]
  }

  function Shifted(keep: seq<nat>): (r: seq<nat>)
    ensures |r| == |keep| && forall i :: 0 <= i < |r| ==> r[i] == keep[i] + 1
  {
    seq(|keep|, i requires 0 <= i < |keep| => keep[i] + 1)
  }

  /** A marginal of the array without its first axis is the marginal of the whole array. */
  lemma {:induction false} FirstAxisThenMarginal(mat: NdArray, keep: seq<nat>, out: seq<nat>)
    requires FourAxes(mat) && forall i :: 0 <= i < |keep| ==> keep[i] < 3
    ensures PProd(AggFirstAxis(mat), keep).at(out) == PProd(mat, Shifted(keep)).at(out)
  {
    hide Grid, Agg, Cross, Survival;
    var n, rest := mat.shape[0], mat.shape[1..];
    var ts, cells, keep' := Range(0, n), Grid(rest), Shifted(keep);
    var f := (t: nat, idx) => Factor(mat, keep', out, [t] + idx);
    var all := Factors(mat, keep', out);
    var rows := (t: nat) => Row(Times, f, t, cells);
    var columns := Factors(AggFirstAxis(mat), keep, out);
    assert mat.shape == [n] + rest;
    GridCons(n, rest);
    forall t: nat ensures rows(t) == UnderPrefix(Times, t, cells, all) {
      var g := idx => f(t, idx);
      RowIs(Times, f, t, cells, g);
      UnderPrefixIs(Times, t, cells, all, g);
    }
    AggCross(Times, ts, cells, all, rows);
    forall j | 0 <= j < |cells| ensures columns(cells[j]) == Column(Times, f, ts, cells[j]) {
      assert cells[j] in cells;
      GridMembers(rest, cells[j]);
      FactorColumn(mat, keep, out, cells[j], f);
    }
    AggSwap(Times, ts, cells, f, rows, columns);
  }

  /** The factor of a cell without its first index is the product of the factors with it. */
  lemma {:induction false} FactorColumn(
    mat: NdArray, keep: seq<nat>, out: seq<nat>, idx: seq<nat>, f: (nat, seq<nat>) -> real)
    requires FourAxes(mat) && |idx| == 3 && forall i :: 0 <= i < |keep| ==> keep[i] < 3
    requires forall t, i :: f(t, i) == Factor(mat, Shifted(keep), out, [t] + i)
    ensures Factor(AggFirstAxis(mat), keep, out, idx) == Column(Times, f, Range(0, mat.shape[0]), idx)
  {
    hide Agg, Survival;
    var n := mat.shape[0];
    var g := (t: nat) => f(t, idx);
    ColumnIs(Times, f, Range(0, n), idx, g);
    assert forall t: nat :: Proj([t] + idx, Shifted(keep)) == Proj(idx, keep);
    if Proj(idx, keep) == out {
      SurvivalIsAgg(Slab(mat, idx), n, g);
    } else {
      AggUnit(Times, Range(0, n), g);
    }
  }

  /** A marginal that keeps all axes is the array itself. */
  lemma {:induction false} MarginalOfAll(a: NdArray, out: seq<nat>)
    requires |a.shape| == 3 && InShape(out, a.shape)
    ensures PProd(a, [0, 1, 2]).at(out) == a.at(out)
  {
    hide Grid, Agg;
    var cells := Grid(a.shape);
    GridMembers(a.shape, out);
    var p :| 0 <= p < |cells| && cells[p] == out;
    var f := Factors(a, [0, 1, 2], out);
    assert Proj(out, [0, 1, 2]) == out;
    forall i | 0 <= i < |cells| && i != p ensures f(cells[i]) == Times.Unit() {
      assert cells[i] != out;
    }
    AggSingle(Times, cells, f, p);
  }

  /** Each exported cell is the product over all cells of the matrix with its indices on the named axes. */
  lemma {:induction false} ExportCells(key: Kind, mat: NdArray, out: seq<nat>)
    requires FourAxes(mat) && InShape(out, Proj(mat.shape, AxesOf(key)))
    ensures Export(key, mat).shape == Proj(mat.shape, AxesOf(key))
    ensures Export(key, mat).at(out) == PProd(mat, AxesOf(key)).at(out)
  {
    hide Remains, AggFirstAxis;
    match key
    case Mag => KeptAxes(mat, [0], [1], out);
    case Dist => KeptAxes(mat, [1], [2], out);
    case MagDist => KeptAxes(mat, [0, 1], [1, 2], out);
    case LonLat => KeptAxes(mat, [1, 2], [2, 3], out);
    case MagDistEps => WholeArray(mat, out);
    case MagLonLat => WholeArray(mat, out);
    case _ =>
  }

  lemma {:induction false} ExportShape(key: Kind, mat: NdArray)
    requires FourAxes(mat)
    ensures Export(key, mat).shape == Proj(mat.shape, AxesOf(key))
  {
    var s := mat.shape;
    assert s[1..] == [s[1], s[2], s[3]];
  }

  lemma {:induction false} KeptAxes(mat: NdArray, keep: seq<nat>, axes: seq<nat>, out: seq<nat>)
    requires FourAxes(mat) && (forall i :: 0 <= i < |keep| ==> keep[i] < 3) && axes == Shifted(keep)
    ensures PProd(AggFirstAxis(mat), keep).shape == Proj(mat.shape, axes)
    ensures PProd(AggFirstAxis(mat), keep).at(out) == PProd(mat, axes).at(out)
  {
    FirstAxisThenMarginal(mat, keep, out);
  }

  lemma {:induction false} WholeArray(mat: NdArray, out: seq<nat>)
    requires FourAxes(mat) && InShape(out, mat.shape[1..])
    ensures AggFirstAxis(mat).shape == Proj(mat.shape, [1, 2, 3])
    ensures AggFirstAxis(mat).at(out) == PProd(mat, [1, 2, 3]).at(out)
  {
    MarginalOfAll(AggFirstAxis(mat), out);
    KeptAxes(mat, [0, 1, 2], [1, 2, 3], out);
  }
}
