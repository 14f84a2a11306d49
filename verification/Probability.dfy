/**
 The algebra of independent probabilities: 1 - (1 - p1) ... (1 - pn), over arrays and
 over their axes.
 */
module Probability {
  import opened Aggregates
  import opened AggKeys

  /** An array of numbers: its shape and its value at each multi-index. */
  datatype NdArray = NdArray(shape: seq<nat>, at: seq<nat> -> real)

  /** The multi-indices of an array, in order. */
  function Grid(shape: seq<nat>): seq<seq<nat>> {
    Product(Axes(shape))
  }

  function Axes(shape: seq<nat>): (r: seq<seq<nat>>)
    ensures |r| == |shape| && forall i :: 0 <= i < |r| ==> r[i] == Range(0, shape[i])
  {
    seq(|shape|, i requires 0 <= i < |shape| => Range(0, shape[i]))
  }

  ghost predicate InShape(idx: seq<nat>, shape: seq<nat>) {
    |idx| == |shape| && forall i :: 0 <= i < |idx| ==> idx[i] < shape[i]
  }

  lemma {:induction false} GridMembers(shape: seq<nat>, idx: seq<nat>)
    ensures idx in Grid(shape) <==> InShape(idx, shape)
    ensures NoDuplicates(Grid(shape))
  {
    ProductMembers(Axes(shape), idx);
    if |idx| == |shape| {
      forall i | 0 <= i < |idx| ensures idx[i] in Axes(shape)[i] <==> idx[i] < shape[i] {
        if idx[i] < shape[i] {
          assert Range(0, shape[i])[idx[i]] == idx[i];
        }
      }
    }
    forall i | 0 <= i < |shape| ensures NoDuplicates(Axes(shape)[i]) {
    }
    ProductDistinct(Axes(shape));
  }

  lemma {:induction false} GridCons(n: nat, rest: seq<nat>)
    ensures Grid([n] + rest) == Cross(Range(0, n), Grid(rest))
  {
    assert Axes([n] + rest)[1..] == Axes(rest);
  }

  /** What is the unit except under the first index `t` aggregates to what is under `t`. */
  lemma {:induction false} AggSlot(op: Op, n: nat, rest: seq<nat>, t: nat, f: seq<nat> -> real)
    requires t < n && forall x, p :: x != t ==> f([x] + p) == op.Unit()
    ensures Agg(op, Grid([n] + rest), f) == UnderPrefix(op, t, Grid(rest), f)
  {
    hide Grid;
    GridCons(n, rest);
    var ps := Grid(rest);
    var g := x => UnderPrefix(op, x, ps, f);
    AggCross(op, Range(0, n), ps, f, g);
    forall i | 0 <= i < n && i != t ensures g(Range(0, n)[i]) == op.Unit() {
      AggUnit(op, ps, p => f([i] + p));
    }
    AggSingle(op, Range(0, n), g, t);
  }

  lemma {:induction false} AggTwoSlots(
    op: Op, n: nat, m: nat, rest: seq<nat>, t: nat, u: nat, f: seq<nat> -> real, g: seq<nat> -> real,
    h: seq<nat> -> real)
    requires t < n && u < m
    requires forall x, p :: x != t ==> f([x] + p) == op.Unit()
    requires forall p :: g(p) == f([t] + p)
    requires forall x, p :: x != u ==> g([x] + p) == op.Unit()
    requires forall p :: h(p) == g([u] + p)
    ensures Agg(op, Grid([n] + ([m] + rest)), f) == Agg(op, Grid(rest), h)
  {
    hide Grid;
    AggSlot(op, n, [m] + rest, t, f);
    UnderPrefixIs(op, t, Grid([m] + rest), f, g);
    AggSlot(op, m, rest, u, g);
    UnderPrefixIs(op, u, Grid(rest), g, h);
  }

  // ---- agg_probs ----

  /** The product of the complements of the first `n` probabilities. */
  function Survival(probs: seq<real>, n: nat): real
    requires n <= |probs|
  {
    if n == 0 then 1.0 else Survival(probs, n - 1) * (1.0 - probs[n - 1])
  }

  method AggProbs(probs: seq<real>) returns (p: real)
    requires probs != []
    ensures p == 1.0 - Survival(probs, |probs|)
  {
    var acc := 1.0 - probs[0];
    assert Survival(probs, 1) == Survival(probs, 0) * (1.0 - probs[0]);
    for i := 1 to |probs|
      invariant acc == Survival(probs, i)
    {
      acc := acc * (1.0 - probs[i]);
    }
    p := 1.0 - acc;
  }

  lemma {:induction false} NonNegative(a: real, b: real)
    requires a >= 0.0 && b >= 0.0
    ensures a * b >= 0.0
  {
  }

  lemma {:induction false} Shrinks(t: real, a: real, b: real)
    requires t == a * b && 0.0 <= a <= 1.0 && 0.0 <= b <= 1.0
    ensures 0.0 <= t <= a && t <= b
  {
    NonNegative(a, b);
    NonNegative(a, 1.0 - b);
    NonNegative(1.0 - a, b);
    assert a * (1.0 - b) == a - t && (1.0 - a) * b == b - t;
  }

  lemma {:induction false} SurvivalShrinks(probs: seq<real>, n: nat)
    requires n < |probs| && forall j :: 0 <= j < |probs| ==> 0.0 <= probs[j] <= 1.0
    requires 0.0 <= Survival(probs, n) <= 1.0
    ensures 0.0 <= Survival(probs, n + 1) <= Survival(probs, n) && Survival(probs, n + 1) <= 1.0 - probs[n]
  {
    Shrinks(Survival(probs, n + 1), Survival(probs, n), 1.0 - probs[n]);
  }

  lemma {:induction false} SurvivalRange(probs: seq<real>, n: nat)
    requires n <= |probs| && forall j :: 0 <= j < |probs| ==> 0.0 <= probs[j] <= 1.0
    ensures 0.0 <= Survival(probs, n) <= 1.0
  {
    if n == 0 {
    } else {
      SurvivalRange(probs, n - 1);
      SurvivalShrinks(probs, n - 1);
    }
  }

  /** Probabilities aggregate to a probability that is not less than any of them. */
  lemma {:induction false} AggregateAtLeast(probs: seq<real>, n: nat, i: nat)
    requires i < n <= |probs| && forall j :: 0 <= j < |probs| ==> 0.0 <= probs[j] <= 1.0
    ensures probs[i] <= 1.0 - Survival(probs, n) <= 1.0
  {
    hide Survival;
    SurvivalRange(probs, n - 1);
    SurvivalShrinks(probs, n - 1);
    if i < n - 1 {
      AggregateAtLeast(probs, n - 1, i);
    }
  }

  // ---- pprod over axes ----

  /** The entries of a multi-index on the axes kept. */
  function Proj(idx: seq<nat>, keep: seq<nat>): (r: seq<nat>)
    requires forall i :: 0 <= i < |keep| ==> keep[i] < |idx|
    ensures |r| == |keep| && forall i :: 0 <= i < |r| ==> r[i] == idx[keep[i]]
  {
    seq(|keep|, i requires 0 <= i < |keep| => idx[keep[i]])
  }

  predicate Axis(a: NdArray, keep: seq<nat>) {
    forall i :: 0 <= i < |keep| ==> keep[i] < |a.shape|
  }

  /** What a cell contributes to the product for one of the indices kept. */
  function Factor(a: NdArray, keep: seq<nat>, out: seq<nat>, idx: seq<nat>): real
    requires Axis(a, keep)
  {
    if |idx| == |a.shape| && Proj(idx, keep) == out then 1.0 - a.at(idx) else 1.0
  }

  function Factors(a: NdArray, keep: seq<nat>, out: seq<nat>): seq<nat> -> real
    requires Axis(a, keep)
  {
    (idx: seq<nat>) => Factor(a, keep, out, idx)
  }

  /** The product over the cells of an array that have the indices kept. */
  function Remains(a: NdArray, keep: seq<nat>, cells: seq<seq<nat>>, out: seq<nat>): real
    requires Axis(a, keep)
  {
    Agg(Times, cells, Factors(a, keep, out))
  }

  /** Probability product over all the axes that are not kept. */
  function PProd(a: NdArray, keep: seq<nat>): NdArray
    requires Axis(a, keep)
  {
    NdArray(Proj(a.shape, keep), (out: seq<nat>) => 1.0 - Remains(a, keep, Grid(a.shape), out))
  }

  /** The product of the complements of all the cells. */
  function TotalSurvival(a: NdArray): real {
    Agg(Times, Grid(a.shape), (idx: seq<nat>) => 1.0 - a.at(idx))
  }

  /** Probability product over all the axes. */
  function Collapse(a: NdArray): real {
    1.0 - TotalSurvival(a)
  }

  /** Aggregating the cells kept apart and then all of them is aggregating all of them. */
  lemma {:induction false} SplitSurvival(
    a: NdArray, keep: seq<nat>, cells: seq<seq<nat>>, outs: seq<seq<nat>>, h: seq<nat> -> real, f: seq<nat> -> real)
    requires Axis(a, keep) && NoDuplicates(outs)
    requires forall i :: 0 <= i < |cells| ==> |cells[i]| == |a.shape| && Proj(cells[i], keep) in outs
    requires forall out :: h(out) == Remains(a, keep, cells, out)
    requires forall idx :: f(idx) == 1.0 - a.at(idx)
    ensures Agg(Times, outs, h) == Agg(Times, cells, f)
    decreases |cells|
  {
    if cells == [] {
      AggUnit(Times, outs, h);
    } else {
      var own := Proj(cells[0], keep);
      var first := (out: seq<nat>) => Factor(a, keep, out, cells[0]);
      var rest := (out: seq<nat>) => Remains(a, keep, cells[1..], out);
      SplitSurvival(a, keep, cells[1..], outs, rest, f);
      AggBoth(Times, outs, first, rest, h);
      assert own in outs;
      var p :| 0 <= p < |outs| && outs[p] == own;
      AggSingle(Times, outs, first, p);
    }
  }

  lemma {:induction false} ProjInGrid(shape: seq<nat>, keep: seq<nat>)
    requires forall i :: 0 <= i < |keep| ==> keep[i] < |shape|
    ensures forall i :: 0 <= i < |Grid(shape)| ==>
      |Grid(shape)[i]| == |shape| && Proj(Grid(shape)[i], keep) in Grid(Proj(shape, keep))
    ensures NoDuplicates(Grid(Proj(shape, keep)))
  {
    var cells := Grid(shape);
    forall i | 0 <= i < |cells| ensures |cells[i]| == |shape| && Proj(cells[i], keep) in Grid(Proj(shape, keep)) {
      assert cells[i] in cells;
      GridMembers(shape, cells[i]);
      GridMembers(Proj(shape, keep), Proj(cells[i], keep));
    }
    GridMembers(Proj(shape, keep), []);
  }

  /** Whatever the axes kept, a marginal collapses to the same total as the whole array. */
  lemma {:induction false} MarginalKeepsTotal(a: NdArray, keep: seq<nat>)
    requires Axis(a, keep)
    ensures Collapse(PProd(a, keep)) == Collapse(a)
  {
    hide Grid, Remains, Proj, NoDuplicates, Agg;
    var cells, outs := Grid(a.shape), Grid(Proj(a.shape, keep));
    ProjInGrid(a.shape, keep);
    var m := PProd(a, keep);
    var h := (out: seq<nat>) => 1.0 - m.at(out);
    var f := (idx: seq<nat>) => 1.0 - a.at(idx);
    assert forall out :: m.at(out) == 1.0 - Remains(a, keep, cells, out);
    SplitSurvival(a, keep, cells, outs, h, f);
    TotalSurvivalIs(m, h);
    TotalSurvivalIs(a, f);
  }

  /** Of a marginal and of the whole array, the cells with indices that satisfy `c` aggregate to the same. */
  lemma {:induction false} MarginalWhere(
    a: NdArray, keep: seq<nat>, c: seq<nat> -> bool, h: seq<nat> -> real, f: seq<nat> -> real)
    requires Axis(a, keep)
    requires forall out :: h(out) == if c(out) then 1.0 - PProd(a, keep).at(out) else 1.0
    requires forall idx :: f(idx) == if |idx| == |a.shape| && c(Proj(idx, keep)) then 1.0 - a.at(idx) else 1.0
    ensures Agg(Times, Grid(Proj(a.shape, keep)), h) == Agg(Times, Grid(a.shape), f)
  {
    var cells, outs := Grid(a.shape), Grid(Proj(a.shape, keep));
    ProjInGrid(a.shape, keep);
    var b := NdArray(a.shape, (idx: seq<nat>) => if |idx| == |a.shape| && c(Proj(idx, keep)) then a.at(idx) else 0.0);
    forall out ensures h(out) == Remains(b, keep, cells, out) {
      RemainsWhere(a, b, keep, c, cells, out);
    }
    hide Grid, Remains, NoDuplicates, Agg;
    assert forall idx :: f(idx) == 1.0 - b.at(idx);
    SplitSurvival(b, keep, cells, outs, h, f);
  }

  lemma {:induction false} RemainsWhere(
    a: NdArray, b: NdArray, keep: seq<nat>, c: seq<nat> -> bool, cells: seq<seq<nat>>, out: seq<nat>)
    requires Axis(a, keep) && b.shape == a.shape
    requires forall idx :: b.at(idx) == if |idx| == |a.shape| && c(Proj(idx, keep)) then a.at(idx) else 0.0
    ensures Remains(b, keep, cells, out) == if c(out) then Remains(a, keep, cells, out) else 1.0
  {
    hide Agg;
    if c(out) {
      AggSame(Times, cells, Factors(a, keep, out), Factors(b, keep, out));
    } else {
      AggUnit(Times, cells, Factors(b, keep, out));
    }
  }

  lemma {:induction false} TotalSurvivalIs(a: NdArray, f: seq<nat> -> real)
    requires forall idx :: f(idx) == 1.0 - a.at(idx)
    ensures TotalSurvival(a) == Agg(Times, Grid(a.shape), f)
  {
    AggSame(Times, Grid(a.shape), f, (idx: seq<nat>) => 1.0 - a.at(idx));
  }
}
