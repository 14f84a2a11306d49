/**
 From the source groups to the results: submit_tasks cuts the groups, the tasks cut
 themselves again, the master loop runs everything under an arbitrary schedule, and in
 the end each source was passed to the classical calculator exactly once.
 */
module Pipeline {
  import opened WorkSplit
  import opened Classical
  import Folds
  import P = TaskProtocol
  import S = StarmapLoop

  /** The task that yields `ys`: its results are the lists of sources computed by each call. */
  function TaskOf<T>(ys: seq<Yield<T>>): P.Task<seq<T>>
    decreases |ys|
  {
    if ys == [] then P.End
    else match ys[0]
      case Computed(work) => P.Out(work, TaskOf(ys[1..]))
      case Shipped(work) => P.Sub(P.Out(work, P.End), TaskOf(ys[1..]))
      case Empty => P.Out([], TaskOf(ys[1..]))
  }

  function SubmissionTask<T>(sub: Submission<T>, minw: real, maxw: real): P.Task<seq<T>> {
    if sub.split then TaskOf(FilterYields(sub.sources, minw, maxw)) else P.Out(Values(sub.sources), P.End)
  }

  function Tasks<T>(subs: seq<Submission<T>>, minw: real, maxw: real): (ts: seq<P.Task<seq<T>>>)
    ensures |ts| == |subs|
  {
    seq(|subs|, i requires 0 <= i < |subs| => SubmissionTask(subs[i], minw, maxw))
  }

  /** How many times `x` occurs in a list of lists. */
  function CountIn<T(==)>(results: seq<seq<T>>, x: T): nat {
    if results == [] then 0 else Count(results[0], x) + CountIn(results[1..], x)
  }

  /** How many times `x` occurs in the results of a log. */
  function CountLog<T(==)>(log: seq<P.Message<seq<T>>>, x: T): nat {
    if log == [] then 0 else (if log[0].Value? then Count(log[0].value, x) else 0) + CountLog(log[1..], x)
  }

  lemma {:induction false} CountLogCons<T>(m: P.Message<seq<T>>, log: seq<P.Message<seq<T>>>, x: T)
    ensures CountLog([m] + log, x) == (if m.Value? then Count(m.value, x) else 0) + CountLog(log, x)
  {
    assert ([m] + log)[1..] == log;
  }

  lemma {:induction false} CountLogAppend<T>(log: seq<P.Message<seq<T>>>, tail: seq<P.Message<seq<T>>>, x: T)
    ensures CountLog(log + tail, x) == CountLog(log, x) + CountLog(tail, x)
  {
    if log == [] {
      assert log + tail == tail;
    } else {
      hide CountLog;
      CountLogAppend(log[1..], tail, x);
      CountLogCons(log[0], log[1..], x);
      CountLogCons(log[0], log[1..] + tail, x);
      assert log == [log[0]] + log[1..] && log + tail == [log[0]] + (log[1..] + tail);
    }
  }

  lemma {:induction false} CountLogValues<T>(log: seq<P.Message<seq<T>>>, x: T)
    ensures CountLog(log, x) == CountIn(P.Values(log), x)
  {
    if log == [] {
    } else {
      CountLogValues(log[1..], x);
      var rest := P.Values(log[1..]);
      assert P.Values(log) == (if log[0].Value? then [log[0].value] else []) + rest;
      if log[0].Value? {
        assert ([log[0].value] + rest)[1..] == rest;
      } else {
        assert [] + rest == rest;
      }
    }
  }

  lemma {:induction false} CountInPermutes<T>(xs: seq<seq<T>>, ys: seq<seq<T>>, x: T)
    requires multiset(xs) == multiset(ys)
    ensures CountIn(xs, x) == CountIn(ys, x)
    decreases |xs|
  {
    if xs == [] {
      assert |multiset(ys)| == 0;
    } else {
      var i := Folds.RemoveHead(xs, ys);
      CountInPull(ys, i, x);
      CountInPermutes(xs[1..], ys[..i] + ys[i + 1..], x);
    }
  }

  lemma {:induction false} CountInPull<T>(xs: seq<seq<T>>, i: nat, x: T)
    requires i < |xs|
    ensures CountIn(xs, x) == Count(xs[i], x) + CountIn(xs[..i] + xs[i + 1..], x)
  {
    var rest := xs[..i] + xs[i + 1..];
    if i == 0 {
      assert rest == xs[1..];
    } else {
      assert xs[1..][..i - 1] + xs[1..][i..] == rest[1..];
      CountInPull(xs[1..], i - 1, x);
    }
  }

  lemma {:induction false} TraceLeaf<T>(work: seq<T>, x: T)
    ensures CountLog(P.Trace(P.Out(work, P.End)), x) == Count(work, x)
  {
    var end: seq<P.Message<seq<T>>> := [P.TaskEnded];
    assert P.Trace<seq<T>>(P.End) == end && end == end + [];
    CountLogCons(P.TaskEnded, [], x);
    CountLogCons(P.Value(work), end, x);
  }

  /** The trace of a task contains the work of its yields. */
  lemma {:induction false} TraceWork<T>(ys: seq<Yield<T>>, x: T)
    ensures CountLog(P.Trace(TaskOf(ys)), x) == Work(ys, x)
    decreases |ys|
  {
    if ys == [] {
      assert P.Trace(TaskOf(ys)) == [P.TaskEnded] + [];
      CountLogCons(P.TaskEnded, [], x);
    } else {
      TraceWork(ys[1..], x);
      WorkFront(ys, x);
      var rest := P.Trace(TaskOf(ys[1..]));
      match ys[0]
      case Computed(work) => CountLogCons(P.Value(work), rest, x);
      case Shipped(work) =>
        var sub: P.Task<seq<T>> := P.Out(work, P.End);
        TraceLeaf(work, x);
        CountLogCons(P.Subtask(sub), P.Trace(sub), x);
        CountLogAppend([P.Subtask(sub)] + P.Trace(sub), rest, x);
      case Empty =>
        CountLogCons(P.Value([]), rest, x);
        assert Count([], x) == 0;
    }
  }

  lemma {:induction false} WorkFront<T>(ys: seq<Yield<T>>, x: T)
    requires ys != []
    ensures Work(ys, x) == (if ys[0].Empty? then 0 else Count(ys[0].work, x)) + Work(ys[1..], x)
    decreases |ys|
  {
    var n := |ys| - 1;
    if n == 0 {
      assert ys[..0] == [] && ys[1..] == [];
    } else {
      WorkFront(ys[..n], x);
      WorkSnoc(ys[..n], ys[n], x);
      WorkSnoc(ys[1..n], ys[n], x);
      hide Work;
      assert ys[..n][1..] == ys[1..n];
      assert ys == ys[..n] + [ys[n]] && ys[1..] == ys[1..n] + [ys[n]];
    }
  }

  lemma {:induction false} TraceSubmission<T(!new)>(sub: Submission<T>, minw: real, maxw: real, x: T)
    requires WithinLimit(sub, maxw) && maxw > 0.0
    ensures CountLog(P.Trace(SubmissionTask(sub, minw, maxw)), x) == Count(Values(sub.sources), x)
  {
    if sub.split {
      TraceWork(FilterYields(sub.sources, minw, maxw), x);
      SplitFilterCovers(sub.sources, minw, maxw);
    } else {
      TraceLeaf(Values(sub.sources), x);
    }
  }

  lemma {:induction false} TraceTasks<T(!new)>(subs: seq<Submission<T>>, minw: real, maxw: real, n: nat, x: T)
    requires n <= |subs| && maxw > 0.0 && forall i :: 0 <= i < |subs| ==> WithinLimit(subs[i], maxw)
    ensures CountLog(P.ForestTrace(Tasks(subs, minw, maxw)[..n]), x) == Submitted(subs, n, x)
  {
    hide CountLog, SubmissionTask, WithinLimit;
    var ts := Tasks(subs, minw, maxw);
    if n == 0 {
      TraceNone<T>(x);
      assert ts[..0] == [];
    } else {
      TraceTasks(subs, minw, maxw, n - 1, x);
      TraceSubmission(subs[n - 1], minw, maxw, x);
      hide P.ForestTrace;
      assert ts[..n] == ts[..n - 1] + [ts[n - 1]];
      ForestTraceSnoc(ts[..n - 1], ts[n - 1]);
      CountLogAppend(P.ForestTrace(ts[..n - 1]), P.Trace(ts[n - 1]), x);
    }
  }

  lemma {:induction false} TraceNone<T>(x: T)
    ensures CountLog(P.ForestTrace<seq<T>>([]), x) == 0
  {
  }

  lemma {:induction false} ForestTraceSnoc<V>(ts: seq<P.Task<V>>, t: P.Task<V>)
    ensures P.ForestTrace(ts + [t]) == P.ForestTrace(ts) + P.Trace(t)
  {
    if ts == [] {
      assert ts + [t] == [t] && [t][1..] == [];
    } else {
      ForestTraceSnoc(ts[1..], t);
      assert (ts + [t])[1..] == ts[1..] + [t];
    }
  }

  /**
   Whatever the groups of sources that weigh and whatever the schedule: when the loop
   exits, the sources computed are those of the groups, each exactly as often as given.
   */
  lemma {:induction false} EverySourceComputedOnce<T(!new)>(
    groups: seq<Group<T>>, subs: seq<Submission<T>>, minw: real, maxw: real,
    cores: nat, run: seq<P.Event>, s: P.State<seq<T>>, x: T)
    requires maxw > 0.0 && SendsGroups(subs, groups, |groups|)
    requires forall i :: 0 <= i < |subs| ==> WithinLimit(subs[i], maxw)
    requires cores >= 1 && P.Reaches(Tasks(subs, minw, maxw), [], cores, run, s) && s.todo == 0
    ensures CountIn(P.Values(s.log), x) == InGroups(groups, |groups|, x)
  {
    hide P.Reaches;
    var ts := Tasks(subs, minw, maxw);
    P.ExactlyOnce(ts, [], cores, run, s);
    assert ts + [] == ts && ts[..|subs|] == ts;
    CountInPermutes(P.Values(s.log), P.Values(P.ForestTrace(ts)), x);
    CountLogValues(P.ForestTrace(ts), x);
    TraceTasks(subs, minw, maxw, |subs|, x);
  }

  /**
   The whole calculation, with `foreign` messages of other jobs arriving meanwhile: submit
   the tasks, run the loop and collect the sources of each call to the classical calculator.
   */
  method RunClassical<T(!new)>(groups: seq<Group<T>>, concurrentTasks: nat, minw: real, bySource: bool, ucerf: bool,
                               cores: nat, foreign: nat) returns (results: seq<seq<T>>)
    requires AllWeigh(groups) && GroupWeight(groups, |groups|) != 0.0 && cores >= 1
    ensures forall x :: CountIn(results, x) == InGroups(groups, |groups|, x)
  {
    var subs, maxw, _, _ := SubmitTasks(groups, concurrentTasks, minw, bySource, ucerf);
    var smap := new S.Starmap(cores);
    hide P.Reaches, WithinLimit, SendsGroups, SubmissionTask;
    ghost var ts := Tasks(subs, minw, maxw);
    for i := 0 to |subs|
      invariant smap.Ready() && smap.tasks == ts[..i] && smap.taskQueue == []
    {
      smap.Submit(SubmissionTask(subs[i], minw, maxw));
    }
    assert ts[..|subs|] == ts;
    var messages, run, final := smap.Loop(foreign);
    results := P.Values(messages);
    S.YieldedValues(final.log);
    forall x ensures CountIn(results, x) == InGroups(groups, |groups|, x) {
      EverySourceComputedOnce(groups, subs, minw, maxw, cores, run, final, x);
    }
  }
}
