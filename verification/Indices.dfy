/**
 The spans of equal integers in a list, and what they are when the list is sorted. The
 source groups consecutive equal integers and collects in a dictionary, for each integer,
 the spans of its groups; the order of the keys is that of their first appearance. For a
 sorted list every integer has one group, and if all integers below some number occur then
 the list of keys is the list of these integers. This is what allows the caller to store the
 spans in a table by position, without looking at the keys of the dictionary.
 */
module Indices {

  /** A maximal stretch of equal integers. */
  datatype Run = Run(value: nat, start: nat, stop: nat)

  /** The runs of the first `n` integers. */
  function RunsTo(ints: seq<nat>, n: nat): (runs: seq<Run>)
    requires n <= |ints|
    ensures n > 0 ==> runs != []
  {
    if n == 0 then []
    else
      var runs := RunsTo(ints, n - 1);
      if n >= 2 && ints[n - 2] == ints[n - 1] then runs[..|runs| - 1] + [runs[|runs| - 1].(stop := n)]
      else runs + [Run(ints[n - 1], n - 1, n)]
  }

  function Runs(ints: seq<nat>): seq<Run> {
    RunsTo(ints, |ints|)
  }

  ghost predicate Constant(ints: seq<nat>, n: nat, run: Run)
    requires n <= |ints|
  {
    run.start < run.stop <= n && forall p :: run.start <= p < run.stop ==> ints[p] == run.value
  }

  ghost predicate Adjacent(a: Run, b: Run) {
    a.stop == b.start && a.value != b.value
  }

  /** The runs follow each other from 0 to `n`; each is constant and no two neighbours are equal. */
  ghost predicate Tile(ints: seq<nat>, n: nat, runs: seq<Run>)
    requires n <= |ints|
  {
    && (n == 0 <==> runs == [])
    && (runs != [] ==> runs[0].start == 0 && runs[|runs| - 1].stop == n)
    && (forall k :: 0 <= k < |runs| ==> Constant(ints, n, runs[k]))
    && (forall j, k :: 0 <= j < k < |runs| && k == j + 1 ==> Adjacent(runs[j], runs[k]))
  }

  lemma {:induction false} TileAppend(ints: seq<nat>, n: nat, before: seq<Run>)
    requires n < |ints| && Tile(ints, n, before) && (n > 0 ==> ints[n - 1] != ints[n])
    ensures Tile(ints, n + 1, before + [Run(ints[n], n, n + 1)])
  {
    var runs := before + [Run(ints[n], n, n + 1)];
    forall k | 0 <= k < |runs| ensures Constant(ints, n + 1, runs[k]) {
      assert k < |before| ==> Constant(ints, n, before[k]);
    }
    if before != [] {
      assert Constant(ints, n, before[|before| - 1]);
    }
  }

  lemma {:induction false} TileExtend(ints: seq<nat>, n: nat, before: seq<Run>)
    requires 0 < n < |ints| && Tile(ints, n, before) && ints[n - 1] == ints[n]
    ensures Tile(ints, n + 1, before[..|before| - 1] + [before[|before| - 1].(stop := n + 1)])
  {
    var last := |before| - 1;
    var runs := before[..last] + [before[last].(stop := n + 1)];
    assert Constant(ints, n, before[last]);
    forall k | 0 <= k < |runs| ensures Constant(ints, n + 1, runs[k]) {
      assert Constant(ints, n, before[k]);
    }
    forall j, k | 0 <= j < k < |runs| && k == j + 1 ensures Adjacent(runs[j], runs[k]) {
      assert Adjacent(before[j], before[k]);
    }
  }

  lemma {:induction false} RunsTile(ints: seq<nat>, n: nat)
    requires n <= |ints|
    ensures Tile(ints, n, RunsTo(ints, n))
  {
    assert Tile(ints, 0, []);
    hide Tile;
    if n == 0 {
    } else {
      RunsTile(ints, n - 1);
      OneMore(ints, n, RunsTo(ints, n - 1));
    }
  }

  lemma {:induction false} OneMore(ints: seq<nat>, n: nat, before: seq<Run>)
    requires 0 < n <= |ints| && before == RunsTo(ints, n - 1) && Tile(ints, n - 1, before)
    ensures Tile(ints, n, RunsTo(ints, n))
  {
    hide Tile;
    if n >= 2 && ints[n - 2] == ints[n - 1] {
      assert RunsTo(ints, n) == before[..|before| - 1] + [before[|before| - 1].(stop := n)];
      hide RunsTo;
      TileExtend(ints, n - 1, before);
    } else {
      assert RunsTo(ints, n) == before + [Run(ints[n - 1], n - 1, n)];
      hide RunsTo;
      TileAppend(ints, n - 1, before);
    }
  }

  /** The spans of a value, in order. */
  function Spans(runs: seq<Run>, n: nat, value: nat): seq<(nat, nat)>
    requires n <= |runs|
  {
    if n == 0 then []
    else Spans(runs, n - 1, value) + if runs[n - 1].value == value then [(runs[n - 1].start, runs[n - 1].stop)] else []
  }

  /** The values of the first `n` runs in the order of their first appearance. */
  function FirstSeen(runs: seq<Run>, n: nat): seq<nat>
    requires n <= |runs|
  {
    if n == 0 then []
    else
      var seen := FirstSeen(runs, n - 1);
      if runs[n - 1].value in seen then seen else seen + [runs[n - 1].value]
  }

  /** A group of equal integers is one run. */
  lemma {:induction false} GroupIsRun(ints: seq<nat>, start: nat, stop: nat)
    requires start < stop <= |ints| && (start > 0 ==> ints[start - 1] != ints[start])
    requires forall p :: start <= p < stop ==> ints[p] == ints[start]
    ensures RunsTo(ints, stop) == RunsTo(ints, start) + [Run(ints[start], start, stop)]
  {
    if start + 1 >= stop {
    } else {
      GroupIsRun(ints, start, stop - 1);
      assert ints[stop - 2] == ints[start] == ints[stop - 1];
    }
  }

  lemma {:induction false} SpansSame(xs: seq<Run>, ys: seq<Run>, n: nat, value: nat)
    requires n <= |xs| && n <= |ys| && xs[..n] == ys[..n]
    ensures Spans(xs, n, value) == Spans(ys, n, value) && FirstSeen(xs, n) == FirstSeen(ys, n)
  {
    if n == 0 {
    } else {
      assert xs[..n - 1] == xs[..n][..n - 1] && ys[..n - 1] == ys[..n][..n - 1];
      assert xs[n - 1] == xs[..n][n - 1] && ys[n - 1] == ys[..n][n - 1];
      SpansSame(xs, ys, n - 1, value);
    }
  }

  lemma {:induction false} SpansSeen(runs: seq<Run>, n: nat, value: nat)
    requires n <= |runs|
    ensures value in FirstSeen(runs, n) <==> Spans(runs, n, value) != []
  {
    if n == 0 {
    } else {
      SpansSeen(runs, n - 1, value);
      var seen, spans, run := FirstSeen(runs, n - 1), Spans(runs, n - 1, value), runs[n - 1];
      assert FirstSeen(runs, n) == if run.value in seen then seen else seen + [run.value];
      assert Spans(runs, n, value) == spans + if run.value == value then [(run.start, run.stop)] else [];
      hide FirstSeen, Spans;
      assert value in seen + [run.value] <==> value in seen || value == run.value;
    }
  }

  lemma {:induction false} AddRun(before: seq<Run>, run: Run, value: nat)
    ensures var runs := before + [run];
      && Spans(runs, |runs|, value) ==
           Spans(before, |before|, value) + (if run.value == value then [(run.start, run.stop)] else [])
      && FirstSeen(runs, |runs|) ==
           FirstSeen(before, |before|) + (if run.value in FirstSeen(before, |before|) then [] else [run.value])
  {
    var runs := before + [run];
    assert runs[..|before|] == before[..|before|];
    SpansSame(runs, before, |before|, value);
  }

  /** The index after one more run. */
  ghost predicate Indexes(runs: seq<Run>, keys: seq<nat>, indices: map<nat, seq<(nat, nat)>>) {
    && keys == FirstSeen(runs, |runs|)
    && (forall v :: v in indices <==> v in keys)
    && (forall v :: v in indices ==> indices[v] == Spans(runs, |runs|, v))
  }

  lemma {:induction false} IndexStep(before: seq<Run>, run: Run, keys: seq<nat>, indices: map<nat, seq<(nat, nat)>>)
    requires Indexes(before, keys, indices)
    ensures var v := run.value;
      Indexes(before + [run], if v in indices then keys else keys + [v],
              indices[v := (if v in indices then indices[v] else []) + [(run.start, run.stop)]])
  {
    var v, runs := run.value, before + [run];
    forall u
      ensures Spans(runs, |runs|, u) == Spans(before, |before|, u) + (if v == u then [(run.start, run.stop)] else [])
    {
      AddRun(before, run, u);
    }
    AddRun(before, run, v);
    SpansSeen(before, |before|, v);
    hide Spans, FirstSeen;
    var keys' := if v in indices then keys else keys + [v];
    assert keys' == FirstSeen(runs, |runs|);
  }

  /** A dictionary with an empty list as default value. */
  method AppendSpan(keys: seq<nat>, indices: map<nat, seq<(nat, nat)>>, i: nat, span: (nat, nat))
    returns (keys': seq<nat>, indices': map<nat, seq<(nat, nat)>>)
    ensures keys' == if i in indices then keys else keys + [i]
    ensures indices' == indices[i := (if i in indices then indices[i] else []) + [span]]
  {
    keys', indices' := keys, indices;
    if i !in indices {
      keys' := keys + [i];
      indices' := indices[i := []];
    }
    indices' := indices'[i := indices'[i] + [span]];
  }

  /** A maximal stretch of positions with a value. */
  ghost predicate IsSpan(ints: seq<nat>, span: (nat, nat), v: nat) {
    && span.0 < span.1 <= |ints| && (forall p :: span.0 <= p < span.1 ==> ints[p] == v)
    && (span.0 > 0 ==> ints[span.0 - 1] != v) && (span.1 < |ints| ==> ints[span.1] != v)
  }

  /** The spans of a value: in order, maximal, and with every position that has the value. */
  ghost predicate AreSpans(ints: seq<nat>, spans: seq<(nat, nat)>, v: nat) {
    && (forall s :: 0 <= s < |spans| ==> IsSpan(ints, spans[s], v))
    && (forall s, t :: 0 <= s < t < |spans| ==> spans[s].1 < spans[t].0)
    && (forall p :: 0 <= p < |ints| && ints[p] == v ==> exists s :: 0 <= s < |spans| && spans[s].0 <= p < spans[s].1)
  }

  /** The dictionary has the integers of the list as keys, each once, and their spans as values. */
  ghost predicate IsIndex(ints: seq<nat>, keys: seq<nat>, indices: map<nat, seq<(nat, nat)>>) {
    && (forall v :: v in indices <==> v in ints) && (forall v :: v in keys <==> v in ints)
    && AllDifferent(keys)
    && (forall v :: v in indices ==> AreSpans(ints, indices[v], v))
  }

  lemma {:induction false} RunIsSpan(ints: seq<nat>, runs: seq<Run>, k: nat)
    requires Tile(ints, |ints|, runs) && k < |runs|
    ensures IsSpan(ints, (runs[k].start, runs[k].stop), runs[k].value)
  {
    assert Constant(ints, |ints|, runs[k]);
    if k > 0 {
      assert Adjacent(runs[k - 1], runs[k]) && Constant(ints, |ints|, runs[k - 1]);
    }
    if k + 1 < |runs| {
      assert Adjacent(runs[k], runs[k + 1]) && Constant(ints, |ints|, runs[k + 1]);
    }
  }

  lemma {:induction false} RunsInOrder(ints: seq<nat>, runs: seq<Run>, j: nat, k: nat)
    requires Tile(ints, |ints|, runs) && j < k < |runs|
    ensures runs[j].stop <= runs[k].start && (runs[j].value == runs[k].value ==> runs[j].stop < runs[k].start)
    decreases k
  {
    assert Adjacent(runs[k - 1], runs[k]) && Constant(ints, |ints|, runs[k - 1]);
    if j < k - 1 {
      RunsInOrder(ints, runs, j, k - 1);
    }
  }

  function Pair(run: Run): (nat, nat) {
    (run.start, run.stop)
  }

  /** The run that a span comes from. */
  lemma {:induction false} SpanFrom(runs: seq<Run>, n: nat, v: nat, s: nat) returns (k: nat)
    requires n <= |runs| && s < |Spans(runs, n, v)|
    ensures k < n && runs[k].value == v && Spans(runs, n, v)[s] == Pair(runs[k])
  {
    if s < |Spans(runs, n - 1, v)| {
      k := SpanFrom(runs, n - 1, v, s);
    } else {
      k := n - 1;
    }
  }

  lemma {:induction false} SpansFrom(runs: seq<Run>, n: nat, v: nat, s: nat, u: nat) returns (j: nat, k: nat)
    requires n <= |runs| && s < u < |Spans(runs, n, v)|
    ensures j < k < n && runs[j].value == runs[k].value == v
    ensures Spans(runs, n, v)[s] == Pair(runs[j]) && Spans(runs, n, v)[u] == Pair(runs[k])
  {
    if u < |Spans(runs, n - 1, v)| {
      j, k := SpansFrom(runs, n - 1, v, s, u);
    } else {
      j := SpanFrom(runs, n - 1, v, s);
      k := n - 1;
    }
  }

  lemma {:induction false} SpanOf(runs: seq<Run>, n: nat, v: nat, k: nat) returns (s: nat)
    requires k < n <= |runs| && runs[k].value == v
    ensures s < |Spans(runs, n, v)| && Spans(runs, n, v)[s] == Pair(runs[k])
  {
    if k == n - 1 {
      s := |Spans(runs, n - 1, v)|;
    } else {
      s := SpanOf(runs, n - 1, v, k);
    }
  }

  lemma {:induction false} IndexIs(ints: seq<nat>, keys: seq<nat>, indices: map<nat, seq<(nat, nat)>>)
    requires Indexes(Runs(ints), keys, indices)
    ensures IsIndex(ints, keys, indices)
  {
    hide RunsTo, Spans, FirstSeen, AreSpans, Tile, AllDifferent;
    var runs := Runs(ints);
    RunsTile(ints, |ints|);
    KeysOnce(runs, |runs|);
    forall v: nat ensures (v in keys <==> v in ints) && AreSpans(ints, Spans(runs, |runs|, v), v) {
      SpansSeen(runs, |runs|, v);
      SpansComplete(ints, runs, v);
    }
  }

  lemma {:induction false} KeysOnce(runs: seq<Run>, n: nat)
    requires n <= |runs|
    ensures AllDifferent(FirstSeen(runs, n))
  {
    if n == 0 {
    } else {
      KeysOnce(runs, n - 1);
    }
  }

  ghost predicate AllDifferent(keys: seq<nat>) {
    forall i, j :: 0 <= i < j < |keys| ==> keys[i] != keys[j]
  }

  lemma {:induction false} SpansComplete(ints: seq<nat>, runs: seq<Run>, v: nat)
    requires Tile(ints, |ints|, runs)
    ensures AreSpans(ints, Spans(runs, |runs|, v), v) && (Spans(runs, |runs|, v) != [] <==> v in ints)
  {
    hide Spans, Tile, IsSpan;
    var spans := Spans(runs, |runs|, v);
    forall s | 0 <= s < |spans| ensures IsSpan(ints, spans[s], v) {
      var k := SpanFrom(runs, |runs|, v, s);
      RunIsSpan(ints, runs, k);
    }
    forall s, u | 0 <= s < u < |spans| ensures spans[s].1 < spans[u].0 {
      var j, k := SpansFrom(runs, |runs|, v, s, u);
      RunsInOrder(ints, runs, j, k);
    }
    forall p | 0 <= p < |ints| && ints[p] == v ensures exists s :: 0 <= s < |spans| && spans[s].0 <= p < spans[s].1 {
      var s := SpanAt(ints, runs, v, p);
    }
    if spans != [] {
      SpanHasValue(ints, spans[0], v);
    }
    if v in ints {
      var p :| 0 <= p < |ints| && ints[p] == v;
    }
  }

  lemma {:induction false} SpanHasValue(ints: seq<nat>, span: (nat, nat), v: nat)
    requires IsSpan(ints, span, v)
    ensures v in ints
  {
    assert ints[span.0] == v;
  }

  lemma {:induction false} SpanAt(ints: seq<nat>, runs: seq<Run>, v: nat, p: nat) returns (s: nat)
    requires Tile(ints, |ints|, runs) && p < |ints| && ints[p] == v
    ensures s < |Spans(runs, |runs|, v)|
    ensures Spans(runs, |runs|, v)[s].0 <= p < Spans(runs, |runs|, v)[s].1
  {
    var k := RunAt(ints, runs, p, |runs|);
    assert Constant(ints, |ints|, runs[k]);
    hide Spans, Tile;
    s := SpanOf(runs, |runs|, v, k);
  }

  lemma {:induction false} NothingIndexed(ints: seq<nat>)
    ensures Indexes(RunsTo(ints, 0), [], map[])
  {
  }

  /** The dictionary integer -> spans; `keys` is the order of its keys. */
  method GetIndices(ints: seq<nat>) returns (keys: seq<nat>, indices: map<nat, seq<(nat, nat)>>)
    ensures Indexes(Runs(ints), keys, indices)
    ensures IsIndex(ints, keys, indices)
  {
    hide Indexes, RunsTo, IsIndex;
    keys, indices := [], map[];
    NothingIndexed(ints);
    var start := 0;
    while start < |ints|
      invariant start <= |ints| && (0 < start < |ints| ==> ints[start - 1] != ints[start])
      invariant Indexes(RunsTo(ints, start), keys, indices)
    {
      var i, n := ints[start], 1;
      while start + n < |ints| && ints[start + n] == i
        invariant 1 <= n && start + n <= |ints| && forall p :: start <= p < start + n ==> ints[p] == i
      {
        n := n + 1;
      }
      GroupIsRun(ints, start, start + n);
      IndexStep(RunsTo(ints, start), Run(i, start, start + n), keys, indices);
      keys, indices := AppendSpan(keys, indices, i, (start, start + n));
      start := start + n;
    }
    assert RunsTo(ints, start) == Runs(ints);
    IndexIs(ints, keys, indices);
  }

  // ---- sorted integers ----

  ghost predicate Sorted(ints: seq<nat>) {
    forall i, j :: 0 <= i < j < |ints| ==> ints[i] <= ints[j]
  }

  ghost predicate Increasing(runs: seq<Run>, n: nat)
    requires n <= |runs|
  {
    forall j, k :: 0 <= j < k < n ==> runs[j].value < runs[k].value
  }

  lemma {:induction false} SortedRunsIncrease(ints: seq<nat>, runs: seq<Run>, n: nat)
    requires Sorted(ints) && Tile(ints, |ints|, runs) && n <= |runs|
    ensures Increasing(runs, n)
  {
    if n < 2 {
    } else {
      SortedRunsIncrease(ints, runs, n - 1);
      var a, b := runs[n - 2], runs[n - 1];
      assert Adjacent(a, b) && Constant(ints, |ints|, a) && Constant(ints, |ints|, b);
      assert ints[a.stop - 1] <= ints[b.start];
    }
  }

  /** The run that a position is in. */
  lemma {:induction false} RunAt(ints: seq<nat>, runs: seq<Run>, p: nat, n: nat) returns (k: nat)
    requires Tile(ints, |ints|, runs) && 0 < n <= |runs| && p < runs[n - 1].stop
    ensures k < n && runs[k].start <= p < runs[k].stop
    decreases n
  {
    if runs[n - 1].start <= p {
      k := n - 1;
    } else {
      assert n > 1;
      assert Adjacent(runs[n - 2], runs[n - 1]);
      k := RunAt(ints, runs, p, n - 1);
    }
  }

  lemma {:induction false} ValueAtLeast(runs: seq<Run>, k: nat)
    requires k < |runs| && Increasing(runs, |runs|)
    ensures runs[k].value >= k
  {
    if k == 0 {
    } else {
      ValueAtLeast(runs, k - 1);
    }
  }

  ghost predicate AllOccur(ints: seq<nat>, n: nat) {
    forall v :: 0 <= v < n ==> v in ints
  }

  /** When every integer below `n` occurs, the `k`-th run is the run of `k`. */
  lemma {:induction false} RunOfValue(ints: seq<nat>, runs: seq<Run>, n: nat, k: nat)
    requires Tile(ints, |ints|, runs) && Increasing(runs, |runs|) && AllOccur(ints, n) && k < n
    ensures k < |runs| && runs[k].value == k
    decreases k
  {
    assert k in ints;
    var p :| 0 <= p < |ints| && ints[p] == k;
    var j := RunAt(ints, runs, p, |runs|);
    assert Constant(ints, |ints|, runs[j]);
    ValueAtLeast(runs, j);
    if j < k {
      RunOfValue(ints, runs, n, j);
    }
  }

  lemma {:induction false} RunCount(ints: seq<nat>, runs: seq<Run>, n: nat)
    requires Tile(ints, |ints|, runs) && Increasing(runs, |runs|) && forall i :: 0 <= i < |ints| ==> ints[i] < n
    ensures |runs| <= n && (|runs| == n <==> AllOccur(ints, n))
  {
    if runs != [] {
      var last := |runs| - 1;
      ValueAtLeast(runs, last);
      assert Constant(ints, |ints|, runs[last]);
      assert ints[runs[last].start] < n;
    }
    if AllOccur(ints, n) && n > 0 {
      RunOfValue(ints, runs, n, n - 1);
    }
    if |runs| == n {
      forall v | 0 <= v < n ensures v in ints {
        ExactValue(runs, v, ints, n);
        assert Constant(ints, |ints|, runs[v]);
        assert ints[runs[v].start] == v;
      }
    }
  }

  lemma {:induction false} ExactValue(runs: seq<Run>, k: nat, ints: seq<nat>, n: nat)
    requires Tile(ints, |ints|, runs) && Increasing(runs, |runs|) && |runs| == n && k < n
    requires forall i :: 0 <= i < |ints| ==> ints[i] < n
    ensures runs[k].value == k
    decreases n - k
  {
    ValueAtLeast(runs, k);
    assert Constant(ints, |ints|, runs[k]);
    assert ints[runs[k].start] < n;
    if k < n - 1 {
      ExactValue(runs, k + 1, ints, n);
    }
  }

  /** With increasing values each run is seen once and has one span. */
  lemma {:induction false} DistinctSeen(runs: seq<Run>, n: nat)
    requires n <= |runs| && Increasing(runs, |runs|)
    ensures |FirstSeen(runs, n)| == n && forall k :: 0 <= k < n ==> FirstSeen(runs, n)[k] == runs[k].value
  {
    if n == 0 {
    } else {
      DistinctSeen(runs, n - 1);
      var seen := FirstSeen(runs, n - 1);
      forall k | 0 <= k < |seen| ensures seen[k] != runs[n - 1].value {
        assert runs[k].value < runs[n - 1].value;
      }
    }
  }

  lemma {:induction false} OneSpan(runs: seq<Run>, n: nat, k: nat)
    requires n <= |runs| && Increasing(runs, |runs|) && k < |runs|
    ensures Spans(runs, n, runs[k].value) == if k < n then [(runs[k].start, runs[k].stop)] else []
  {
    if n == 0 {
    } else {
      OneSpan(runs, n - 1, k);
    }
  }

  /**
   In a sorted list of integers below `n` the keys are the first integers, all of them exactly
   when all of them occur; each has one span, and the spans follow each other.
   */
  lemma {:induction false} SortedIndex(ints: seq<nat>, n: nat, keys: seq<nat>, indices: map<nat, seq<(nat, nat)>>)
    requires Sorted(ints) && forall i :: 0 <= i < |ints| ==> ints[i] < n
    requires Indexes(Runs(ints), keys, indices)
    ensures |keys| == |Runs(ints)|
    ensures |keys| == n <==> AllOccur(ints, n)
    ensures AllOccur(ints, n) ==> forall k :: 0 <= k < n ==>
      keys[k] == k == Runs(ints)[k].value && k in indices && indices[k] == [(Runs(ints)[k].start, Runs(ints)[k].stop)]
  {
    var runs := Runs(ints);
    RunsTile(ints, |ints|);
    SortedRunsIncrease(ints, runs, |runs|);
    DistinctSeen(runs, |runs|);
    RunCount(ints, runs, n);
    hide RunsTo, FirstSeen, Spans;
    if AllOccur(ints, n) {
      forall k | 0 <= k < n
        ensures keys[k] == k == runs[k].value && k in indices && indices[k] == [(runs[k].start, runs[k].stop)]
      {
        RunOfValue(ints, runs, n, k);
        OneSpan(runs, |runs|, k);
        assert keys[k] in keys;
      }
    }
  }
}
