/** What every exported cell is, in terms of the matrices that the tasks found. */
module DisaggCells {
  import opened Aggregates
  import opened Probability
  import opened Disaggregation
  import opened Folds

  /** The indices on the axes that an output is named after. */
  function Named(key: Kind, trt: nat, mag: nat, dist: nat, lon: nat, lat: nat, eps: nat): seq<nat> {
    match key
    case Mag => [mag]
    case Dist => [dist]
    case TRT => [trt]
    case MagDist => [mag, dist]
    case MagDistEps => [mag, dist, eps]
    case LonLat => [lon, lat]
    case MagLonLat => [mag, lon, lat]
    case LonLatTRT => [lon, lat, trt]
  }

  /** The factor of a cell (distance, longitude, latitude, epsilon) found for a region type and a magnitude. */
  function CellFactor(key: Kind, out: seq<nat>, trt: nat, mag: nat, mat: Mat4, idx: seq<nat>): real {
    if |idx| == 4 && Named(key, trt, mag, idx[0], idx[1], idx[2], idx[3]) == out then 1.0 - mat.at(idx) else 1.0
  }

  function Factored(key: Kind, out: seq<nat>, r: Outcome, mat: Mat4): seq<nat> -> real {
    (idx: seq<nat>) => CellFactor(key, out, r.trti, r.magi, mat, idx)
  }

  /** What a task found with the named indices, over all cells of its matrix. */
  function NamedShare(key: Kind, out: seq<nat>, sm: Sm, r: Outcome): real {
    if sm in r.mats then Agg(Times, Grid(r.mats[sm].shape), Factored(key, out, r, r.mats[sm])) else 1.0
  }

  function SharesOf(key: Kind, out: seq<nat>, sm: Sm): Outcome -> real {
    (r: Outcome) => NamedShare(key, out, sm, r)
  }

  /** The probability that all the results give together for the named indices. */
  function FoundAt(rs: seq<Outcome>, sm: Sm, key: Kind, out: seq<nat>): real {
    1.0 - Agg(Times, rs, SharesOf(key, out, sm))
  }

  /** The shape of an output; `shape` is that of the matrices of the tasks. */
  function ShapeOf(key: Kind, numTrts: nat, numMags: nat, shape: seq<nat>): seq<nat>
    requires |shape| == 4
  {
    Named(key, numTrts, numMags, shape[0], shape[1], shape[2], shape[3])
  }

  /** The indices of a cell on the axes of an output, among the bin and the axes kept for its kind. */
  lemma {:induction false} NamedIsProj(key: Kind, trt: nat, mag: nat, idx: seq<nat>)
    requires |idx| == 4
    ensures Proj([trt, mag] + Proj(idx, Keep(key.K())), AxesOf(key)) ==
      Named(key, trt, mag, idx[0], idx[1], idx[2], idx[3])
  {
    var cell := [trt, mag] + Proj(idx, Keep(key.K()));
    assert cell == if key.K() == 0 then [trt, mag, idx[0], idx[3]] else [trt, mag, idx[1], idx[2]];
  }

  lemma {:induction false} FactorIsFound(
    key: Kind, out: seq<nat>, r: Outcome, mat: Mat4, c: seq<nat> -> bool, idx: seq<nat>)
    requires forall i :: c(i) <==> |i| == 4 && Proj(i, AxesOf(key)) == out
    ensures CellFactor(key, out, r.trti, r.magi, mat, idx) == CellsWhere(r, mat, Keep(key.K()), c)(idx)
  {
    if |idx| == 4 {
      NamedIsProj(key, r.trti, r.magi, idx);
      hide Named, AxesOf;
    }
  }

  lemma {:induction false} ShareIsFound(key: Kind, out: seq<nat>, sm: Sm, r: Outcome, c: seq<nat> -> bool)
    requires forall idx :: c(idx) <==> |idx| == 4 && Proj(idx, AxesOf(key)) == out
    ensures NamedShare(key, out, sm, r) == FoundWhere(r, (sm.0, sm.1, key.K()), c)
  {
    if sm in r.mats {
      var mat := r.mats[sm];
      var f, g := Factored(key, out, r, mat), CellsWhere(r, mat, Keep(key.K()), c);
      forall idx ensures f(idx) == g(idx) {
        FactorIsFound(key, out, r, mat, c, idx);
      }
      hide Agg, Grid, CellFactor, CellsWhere, AxesOf, Proj;
      AggSame(Times, Grid(mat.shape), f, g);
    }
  }

  lemma {:induction false} ShapeIsProj(key: Kind, numTrts: nat, numMags: nat, shape: seq<nat>)
    requires |shape| == 4
    ensures Proj([numTrts] + ([numMags] + SideShape(shape, key.K())), AxesOf(key)) ==
      ShapeOf(key, numTrts, numMags, shape)
  {
    NamedIsProj(key, numTrts, numMags, shape);
    assert [numTrts] + ([numMags] + SideShape(shape, key.K())) == [numTrts, numMags] + Proj(shape, Keep(key.K()));
  }

  lemma {:induction false} ExportAt(key: Kind, mat: NdArray, out: seq<nat>, rows: seq<nat> -> real)
    requires FourAxes(mat) && InShape(out, Proj(mat.shape, AxesOf(key)))
    requires forall idx :: rows(idx) == Factor(mat, AxesOf(key), out, idx)
    ensures Export(key, mat).shape == Proj(mat.shape, AxesOf(key))
    ensures Export(key, mat).at(out) == 1.0 - Agg(Times, Grid(mat.shape), rows)
  {
    ExportCells(key, mat, out);
    hide Export, Grid, Factor, Proj, InShape;
    AggSame(Times, Grid(mat.shape), rows, Factors(mat, AxesOf(key), out));
  }

  /** The cells of the matrix of a kind that have the indices of `out` on the axes of an output. */
  lemma {:induction false} CellsFound(
    agg: (Acc, Outcome) -> Acc, rs: seq<Outcome>, smk: Smk, key: Kind, numTrts: nat, numMags: nat, shape: seq<nat>,
    out: seq<nat>, mat: NdArray, rows: seq<nat> -> real)
    requires forall a, r :: agg(a, r) == AggResult(a, r)
    requires |shape| == 4 && smk.2 == key.K()
    requires forall i :: 0 <= i < |rs| ==> rs[i].trti < numTrts && rs[i].magi < numMags
    requires forall i :: 0 <= i < |rs| && Has(rs[i], smk) ==> rs[i].mats[(smk.0, smk.1)].shape == shape
    requires mat == MatrixOf(Get(Fold(agg, map[], rs), smk), numTrts, numMags, SideShape(shape, smk.2))
    requires forall idx :: rows(idx) == Factor(mat, AxesOf(key), out, idx)
    ensures Agg(Times, Grid(mat.shape), rows) == Agg(Times, rs, SharesOf(key, out, (smk.0, smk.1)))
  {
    hide Grid, Agg, Fold, AggResult, Get, FoundWhere, NamedShare, Has, AxesOf, Proj;
    var c := (idx: seq<nat>) => |idx| == 4 && Proj(idx, AxesOf(key)) == out;
    forall r ensures SharesOf(key, out, (smk.0, smk.1))(r) == FoundWhere(r, smk, c) {
      ShareIsFound(key, out, (smk.0, smk.1), r, c);
    }
    MatrixWhere(agg, rs, smk, numTrts, numMags, shape, c, rows, SharesOf(key, out, (smk.0, smk.1)));
  }

  /**
   A cell of an output is one minus the product over all results, and over all the cells of
   the matrices that the tasks found, that have its indices on the axes of its name.
   */
  lemma {:induction false} ExportIsFound(
    agg: (Acc, Outcome) -> Acc, rs: seq<Outcome>, sm: Sm, key: Kind, numTrts: nat, numMags: nat, shape: seq<nat>,
    out: seq<nat>, mat: NdArray)
    requires forall a, r :: agg(a, r) == AggResult(a, r)
    requires |shape| == 4 && numTrts > 0 && InShape(out, ShapeOf(key, numTrts, numMags, shape))
    requires forall i :: 0 <= i < |rs| ==> rs[i].trti < numTrts && rs[i].magi < numMags
    requires forall i :: 0 <= i < |rs| && sm in rs[i].mats ==> rs[i].mats[sm].shape == shape
    requires mat == MatrixOf(Get(Fold(agg, map[], rs), (sm.0, sm.1, key.K())),
                             numTrts, numMags, SideShape(shape, key.K()))
    ensures FourAxes(mat) && Export(key, mat).shape == ShapeOf(key, numTrts, numMags, shape)
    ensures Export(key, mat).at(out) == FoundAt(rs, sm, key, out)
  {
    ShapeIsProj(key, numTrts, numMags, shape);
    var rows := Factors(mat, AxesOf(key), out);
    hide Grid, Agg, Fold, AggResult, Get, ShapeOf, Proj, Export, Factor, NamedShare;
    ExportAt(key, mat, out, rows);
    CellsFound(agg, rs, (sm.0, sm.1, key.K()), key, numTrts, numMags, shape, out, mat, rows);
  }

  lemma {:induction false} ShapeOfOutput(
    agg: (Acc, Outcome) -> Acc, rs: seq<Outcome>, sm: Sm, key: Kind, numTrts: nat, numMags: nat, shape: seq<nat>,
    mat: NdArray)
    requires |shape| == 4 && numTrts > 0
    requires mat == MatrixOf(Get(Fold(agg, map[], rs), (sm.0, sm.1, key.K())),
                             numTrts, numMags, SideShape(shape, key.K()))
    ensures FourAxes(mat) && Export(key, mat).shape == ShapeOf(key, numTrts, numMags, shape)
  {
    ShapeIsProj(key, numTrts, numMags, shape);
    hide ShapeOf;
    ExportShape(key, mat);
  }

  /** The accumulator has the keys of the results, and no others. */
  lemma {:induction false} AccumulatedKeys(agg: (Acc, Outcome) -> Acc, acc: Acc, rs: seq<Outcome>, smk: Smk)
    requires forall a, r :: agg(a, r) == AggResult(a, r)
    ensures smk in Fold(agg, acc, rs) <==> smk in acc || exists r :: r in rs && Has(r, smk)
    decreases |rs|
  {
    hide Has, Updated, OutFor;
    if rs == [] {
    } else {
      AccumulatedKeys(agg, agg(acc, rs[0]), rs[1..], smk);
      assert forall r :: r in rs <==> r == rs[0] || r in rs[1..];
      assert smk in agg(acc, rs[0]) <==> smk in acc || Has(rs[0], smk);
    }
  }
}
