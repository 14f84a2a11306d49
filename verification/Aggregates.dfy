/**
 Sums and products of real numbers over lists of cells, and cartesian products of lists.
 Both operations are treated at once, as they have the same laws: `Agg` over a concatenation,
 over a permutation, of two functions at once, of a function that is the unit almost
 everywhere. A double aggregate can be computed by rows or by columns, and an aggregate over
 a cartesian product is one over the first factor of aggregates over the others. Products of
 lists are in the order of itertools.product; they have as members exactly the combinations
 that take one element of each list, each of them once if no list has a duplicate.
 */
module Aggregates {
  import Folds

  datatype Op = Plus | Times {
    function Unit(): real {
      if this == Plus then 0.0 else 1.0
    }

    function Of(a: real, b: real): real {
      if this == Plus then a + b else a * b
    }
  }

  function Agg<C>(op: Op, cells: seq<C>, f: C -> real): real {
    if cells == [] then op.Unit() else op.Of(f(cells[0]), Agg(op, cells[1..], f))
  }

  lemma {:induction false} Laws(op: Op, a: real, b: real, c: real, d: real)
    ensures op.Of(op.Unit(), a) == a && op.Of(a, op.Unit()) == a
    ensures op.Of(a, op.Of(b, c)) == op.Of(op.Of(a, b), c)
    ensures op.Of(op.Of(a, b), op.Of(c, d)) == op.Of(op.Of(a, c), op.Of(b, d))
  {
    if op == Times {
      assert (a * b) * (c * d) == (a * c) * (b * d);
    }
  }

  lemma {:induction false} AggAppend<C>(op: Op, xs: seq<C>, ys: seq<C>, f: C -> real)
    ensures Agg(op, xs + ys, f) == op.Of(Agg(op, xs, f), Agg(op, ys, f))
  {
    if xs == [] {
      assert xs + ys == ys;
      Laws(op, Agg(op, ys, f), 0.0, 0.0, 0.0);
    } else {
      AggAppend(op, xs[1..], ys, f);
      assert (xs + ys)[1..] == xs[1..] + ys;
      Laws(op, f(xs[0]), Agg(op, xs[1..], f), Agg(op, ys, f), 0.0);
    }
  }

  lemma {:induction false} AggSame<C>(op: Op, cells: seq<C>, f: C -> real, g: C -> real)
    requires forall i :: 0 <= i < |cells| ==> f(cells[i]) == g(cells[i])
    ensures Agg(op, cells, f) == Agg(op, cells, g)
  {
    if cells == [] {
    } else {
      AggSame(op, cells[1..], f, g);
    }
  }

  lemma {:induction false} AggUnit<C>(op: Op, cells: seq<C>, f: C -> real)
    requires forall i :: 0 <= i < |cells| ==> f(cells[i]) == op.Unit()
    ensures Agg(op, cells, f) == op.Unit()
  {
    if cells == [] {
    } else {
      AggUnit(op, cells[1..], f);
    }
  }

  /** Aggregating cell by cell what two functions give aggregates the two aggregates. */
  lemma {:induction false} AggBoth<C>(op: Op, cells: seq<C>, f: C -> real, g: C -> real, h: C -> real)
    requires forall i :: 0 <= i < |cells| ==> h(cells[i]) == op.Of(f(cells[i]), g(cells[i]))
    ensures Agg(op, cells, h) == op.Of(Agg(op, cells, f), Agg(op, cells, g))
  {
    if cells == [] {
      Laws(op, op.Unit(), 0.0, 0.0, 0.0);
    } else {
      AggBoth(op, cells[1..], f, g, h);
      Laws(op, f(cells[0]), g(cells[0]), Agg(op, cells[1..], f), Agg(op, cells[1..], g));
    }
  }

  ghost predicate NoDuplicates<C>(cells: seq<C>) {
    forall i, j :: 0 <= i < j < |cells| ==> cells[i] != cells[j]
  }

  /** A function that differs from the unit in one cell only aggregates to its value there. */
  lemma {:induction false} AggSingle<C>(op: Op, cells: seq<C>, f: C -> real, p: nat)
    requires p < |cells| && forall i :: 0 <= i < |cells| && i != p ==> f(cells[i]) == op.Unit()
    ensures Agg(op, cells, f) == f(cells[p])
  {
    Laws(op, f(cells[p]), 0.0, 0.0, 0.0);
    if p == 0 {
      AggUnit(op, cells[1..], f);
    } else {
      AggSingle(op, cells[1..], f, p - 1);
    }
  }

  lemma {:induction false} AggPull<C>(op: Op, cells: seq<C>, f: C -> real, p: nat)
    requires p < |cells|
    ensures Agg(op, cells, f) == op.Of(f(cells[p]), Agg(op, cells[..p] + cells[p + 1..], f))
  {
    assert cells == cells[..p] + ([cells[p]] + cells[p + 1..]);
    assert ([cells[p]] + cells[p + 1..])[1..] == cells[p + 1..];
    AggAppend(op, cells[..p], [cells[p]] + cells[p + 1..], f);
    AggAppend(op, cells[..p], cells[p + 1..], f);
    var a, b := Agg(op, cells[..p], f), Agg(op, cells[p + 1..], f);
    Laws(op, op.Unit(), a, f(cells[p]), b);
    Laws(op, f(cells[p]), a, b, 0.0);
    Laws(op, op.Of(f(cells[p]), b), 0.0, 0.0, 0.0);
  }

  /** The order of the cells does not matter. */
  lemma {:induction false} AggPermutation<C>(op: Op, xs: seq<C>, ys: seq<C>, f: C -> real)
    requires multiset(xs) == multiset(ys)
    ensures Agg(op, xs, f) == Agg(op, ys, f)
    decreases |xs|
  {
    if xs == [] {
      assert |multiset(ys)| == 0;
    } else {
      var i := Folds.RemoveHead(xs, ys);
      AggPull(op, ys, f, i);
      AggPermutation(op, xs[1..], ys[..i] + ys[i + 1..], f);
    }
  }

  /** What is the unit outside of `ys` can be aggregated over `ys` only. */
  lemma {:induction false} AggSupport<C>(op: Op, xs: seq<C>, ys: seq<C>, f: C -> real)
    requires NoDuplicates(xs) && NoDuplicates(ys)
    requires forall i :: 0 <= i < |ys| ==> ys[i] in xs
    requires forall i :: 0 <= i < |xs| && xs[i] !in ys ==> f(xs[i]) == op.Unit()
    ensures Agg(op, xs, f) == Agg(op, ys, f)
    decreases |ys|
  {
    if ys == [] {
      AggUnit(op, xs, f);
    } else {
      assert ys[0] in xs;
      var p :| 0 <= p < |xs| && xs[p] == ys[0];
      var rest := xs[..p] + xs[p + 1..];
      AggPull(op, xs, f, p);
      assert forall i :: 0 <= i < |rest| ==> rest[i] == xs[if i < p then i else i + 1];
      forall i | 0 <= i < |ys[1..]| ensures ys[1..][i] in rest {
        assert ys[i + 1] in xs && ys[i + 1] != ys[0];
        var q :| 0 <= q < |xs| && xs[q] == ys[i + 1];
        assert rest[if q < p then q else q - 1] == ys[i + 1];
      }
      AggSupport(op, rest, ys[1..], f);
    }
  }

  // ---- cartesian products, in the order of itertools.product ----

  function Prefixed<X>(x: X, ps: seq<seq<X>>): (r: seq<seq<X>>)
    ensures |r| == |ps| && forall i :: 0 <= i < |r| ==> r[i] == [x] + ps[i]
  {
    seq(|ps|, i requires 0 <= i < |ps| => [x] + ps[i])
  }

  function Cross<X>(xs: seq<X>, ps: seq<seq<X>>): seq<seq<X>> {
    if xs == [] then [] else Prefixed(xs[0], ps) + Cross(xs[1..], ps)
  }

  function Product<X>(lists: seq<seq<X>>): seq<seq<X>> {
    if lists == [] then [[]] else Cross(lists[0], Product(lists[1..]))
  }

  lemma {:induction false} AggPrefixed<X>(op: Op, x: X, ps: seq<seq<X>>, f: seq<X> -> real, fx: seq<X> -> real)
    requires forall p :: p in ps ==> fx(p) == f([x] + p)
    ensures Agg(op, Prefixed(x, ps), f) == Agg(op, ps, fx)
  {
    if ps == [] {
    } else {
      AggPrefixed(op, x, ps[1..], f, fx);
      assert Prefixed(x, ps)[1..] == Prefixed(x, ps[1..]);
      assert ps[0] in ps;
    }
  }

  /** What `f` aggregates to over the combinations that start with `x`. */
  function UnderPrefix<X>(op: Op, x: X, ps: seq<seq<X>>, f: seq<X> -> real): real {
    Agg(op, ps, p => f([x] + p))
  }

  lemma {:induction false} UnderPrefixIs<X>(op: Op, x: X, ps: seq<seq<X>>, f: seq<X> -> real, fx: seq<X> -> real)
    requires forall p :: fx(p) == f([x] + p)
    ensures UnderPrefix(op, x, ps, f) == Agg(op, ps, fx)
  {
    AggSame(op, ps, fx, p => f([x] + p));
  }

  /** Aggregating over a product is aggregating the aggregates under each first element. */
  lemma {:induction false} AggCross<X>(op: Op, xs: seq<X>, ps: seq<seq<X>>, f: seq<X> -> real, g: X -> real)
    requires forall x :: x in xs ==> g(x) == UnderPrefix(op, x, ps, f)
    ensures Agg(op, Cross(xs, ps), f) == Agg(op, xs, g)
  {
    if xs == [] {
    } else {
      AggCross(op, xs[1..], ps, f, g);
      AggAppend(op, Prefixed(xs[0], ps), Cross(xs[1..], ps), f);
      AggPrefixed(op, xs[0], ps, f, p => f([xs[0]] + p));
      assert xs[0] in xs;
    }
  }

  // ---- double aggregates ----

  function Row<C, D>(op: Op, f: (C, D) -> real, x: C, ys: seq<D>): real {
    Agg(op, ys, y => f(x, y))
  }

  function Column<C, D>(op: Op, f: (C, D) -> real, xs: seq<C>, y: D): real {
    Agg(op, xs, x => f(x, y))
  }

  lemma {:induction false} RowIs<C, D>(op: Op, f: (C, D) -> real, x: C, ys: seq<D>, g: D -> real)
    requires forall y :: g(y) == f(x, y)
    ensures Row(op, f, x, ys) == Agg(op, ys, g)
  {
    AggSame(op, ys, g, y => f(x, y));
  }

  lemma {:induction false} ColumnIs<C, D>(op: Op, f: (C, D) -> real, xs: seq<C>, y: D, g: C -> real)
    requires forall x :: g(x) == f(x, y)
    ensures Column(op, f, xs, y) == Agg(op, xs, g)
  {
    AggSame(op, xs, g, x => f(x, y));
  }

  /** Rows first or columns first. */
  lemma {:induction false} AggSwap<C, D>(
    op: Op, xs: seq<C>, ys: seq<D>, f: (C, D) -> real, rows: C -> real, columns: D -> real)
    requires forall i :: 0 <= i < |xs| ==> rows(xs[i]) == Row(op, f, xs[i], ys)
    requires forall j :: 0 <= j < |ys| ==> columns(ys[j]) == Column(op, f, xs, ys[j])
    ensures Agg(op, xs, rows) == Agg(op, ys, columns)
  {
    if xs == [] {
      AggUnit(op, ys, columns);
    } else {
      var rest := y => Column(op, f, xs[1..], y);
      AggSwap(op, xs[1..], ys, f, rows, rest);
      AggBoth(op, ys, y => f(xs[0], y), rest, columns);
    }
  }

  /** `t` takes one element of each list. */
  ghost predicate Picks<X>(t: seq<X>, lists: seq<seq<X>>) {
    |t| == |lists| && forall i :: 0 <= i < |t| ==> t[i] in lists[i]
  }

  lemma {:induction false} CrossMembers<X>(xs: seq<X>, ps: seq<seq<X>>, t: seq<X>)
    ensures t in Cross(xs, ps) <==> t != [] && t[0] in xs && t[1..] in ps
  {
    if xs == [] {
    } else {
      CrossMembers(xs[1..], ps, t);
      var head := Prefixed(xs[0], ps);
      if t in head {
        var i :| 0 <= i < |head| && head[i] == t;
        assert t[1..] == ps[i];
      }
      if t != [] && t[0] == xs[0] && t[1..] in ps {
        var i :| 0 <= i < |ps| && ps[i] == t[1..];
        assert head[i] == t;
      }
    }
  }

  lemma {:induction false} ProductMembers<X>(lists: seq<seq<X>>, t: seq<X>)
    ensures t in Product(lists) <==> Picks(t, lists)
  {
    if lists == [] {
      assert t in Product(lists) <==> t == [];
    } else {
      CrossMembers(lists[0], Product(lists[1..]), t);
      if t != [] {
        ProductMembers(lists[1..], t[1..]);
        if t[0] in lists[0] && Picks(t[1..], lists[1..]) {
          forall i | 0 <= i < |t| ensures t[i] in lists[i] {
            assert i > 0 ==> t[1..][i - 1] in lists[1..][i - 1];
          }
        }
      }
    }
  }

  lemma {:induction false} CrossDistinct<X>(xs: seq<X>, ps: seq<seq<X>>)
    requires NoDuplicates(xs) && NoDuplicates(ps)
    ensures NoDuplicates(Cross(xs, ps))
  {
    if xs == [] {
    } else {
      CrossDistinct(xs[1..], ps);
      var head, rest := Prefixed(xs[0], ps), Cross(xs[1..], ps);
      forall i, j | 0 <= i < j < |head + rest| ensures (head + rest)[i] != (head + rest)[j] {
        if j < |head| {
          assert ps[i] != ps[j];
          assert head[i][1..] == ps[i] && head[j][1..] == ps[j];
        } else if i < |head| {
          var t := rest[j - |head|];
          CrossMembers(xs[1..], ps, t);
          assert t in rest && head[i][0] == xs[0];
        }
      }
    }
  }

  lemma {:induction false} ProductDistinct<X>(lists: seq<seq<X>>)
    requires forall i :: 0 <= i < |lists| ==> NoDuplicates(lists[i])
    ensures NoDuplicates(Product(lists))
  {
    if lists == [] {
    } else {
      ProductDistinct(lists[1..]);
      CrossDistinct(lists[0], Product(lists[1..]));
    }
  }
}
