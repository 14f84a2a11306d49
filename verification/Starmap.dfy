/**
 The master loop and the worker loop, with the state they update in place, proved
 against the transition system of TaskProtocol. The socket is modelled by the
 messages in flight: the next one received is any next message of any running
 task, or one of finitely many messages of other jobs.
 */
module StarmapLoop {
  import opened Folds
  import P = TaskProtocol
  import R = Reduce

  /** The messages a worker sends for its own task: subtasks are requested, not run. */
  function Wire<V>(t: P.Task<V>): seq<P.Message<V>> {
    match t
    case End => [P.TaskEnded]
    case Out(v, next) => [P.Value(v)] + Wire(next)
    case Sub(sub, next) => [P.Subtask(sub)] + Wire(next)
  }

  /** A task ends exactly once, with its last message. */
  lemma {:induction false} WireEndsOnce<V>(t: P.Task<V>)
    ensures |Wire(t)| > 0
    ensures forall i :: 0 <= i < |Wire(t)| ==> (Wire(t)[i].TaskEnded? <==> i == |Wire(t)| - 1)
  {
    match t
    case End =>
    case Out(v, next) => WireEndsOnce(next);
    case Sub(sub, next) => WireEndsOnce(next);
  }

  /** What a worker has still to send. */
  function FlightWire<V>(f: P.Flight<V>): seq<P.Message<V>> {
    if f.Running? then Wire(f.left) else []
  }

  lemma {:induction false} FlightWireHead<V>(t: P.Task<V>)
    ensures Wire(t) == [P.Head(t).0] + FlightWire(P.Head(t).1)
  {
  }

  /** The worker: draw results from the generator and send each of them, until it is exhausted. */
  method SafelyCall<V>(t: P.Task<V>) returns (sent: seq<P.Message<V>>)
    ensures sent == Wire(t)
  {
    var it := P.Running(t);
    sent := [];
    while it.Running?
      invariant sent + FlightWire(it) == Wire(t)
      decreases |FlightWire(it)|
    {
      FlightWireHead(it.left);
      var (msg, left) := P.Head(it.left);
      assert sent + ([msg] + FlightWire(left)) == (sent + [msg]) + FlightWire(left);
      sent, it := sent + [msg], left;
    }
  }

  /** What the loop yields: every message except the requests for subtasks. */
  function Yielded<V>(log: seq<P.Message<V>>): seq<P.Message<V>> {
    if log == [] then []
    else Yielded(log[..|log| - 1]) + if log[|log| - 1].Subtask? then [] else [log[|log| - 1]]
  }

  /** Every message but the requests for subtasks is yielded, as often as it is received. */
  lemma {:induction false} YieldedAre<V>(log: seq<P.Message<V>>, m: P.Message<V>)
    ensures multiset(Yielded(log))[m] == if m.Subtask? then 0 else multiset(log)[m]
  {
    if log == [] {
    } else {
      var before, last := log[..|log| - 1], log[|log| - 1];
      assert log == before + [last] && Yielded(before) + [] == Yielded(before);
      assert Yielded(log) == if last.Subtask? then Yielded(before) + [] else Yielded(before) + [last];
      YieldedAre(before, m);
      hide Yielded;
      CountSnoc(before, last, m);
      CountSnoc(Yielded(before), last, m);
    }
  }

  lemma {:induction false} YieldedValues<V>(log: seq<P.Message<V>>)
    ensures P.Values(Yielded(log)) == P.Values(log)
  {
    if log == [] {
    } else {
      var init, last := log[..|log| - 1], log[|log| - 1];
      YieldedValues(init);
      assert log == init + [last];
      R.ValuesAppend(init, [last]);
      R.ValuesAppend(Yielded(init), if last.Subtask? then [] else [last]);
    }
  }

  /** Aggregate the real outputs in the order in which they come. */
  method ReduceResults<A, V>(agg: (A, V) -> A, acc: A, results: seq<P.Message<V>>) returns (result: A)
    ensures result == Fold(agg, acc, P.Values(results))
  {
    result := acc;
    for i := 0 to |results|
      invariant Fold(agg, acc, P.Values(results)) == Fold(agg, result, P.Values(results[i..]))
    {
      assert results[i..][1..] == results[i + 1..];
      ghost var rest := P.Values(results[i + 1..]);
      assert P.Values(results[i..]) == (if results[i].Value? then [results[i].value] else []) + rest;
      if results[i].Value? {
        assert P.Values(results[i..]) == [results[i].value] + rest;
        result := agg(result, results[i].value);
      } else {
        assert P.Values(results[i..]) == rest;
      }
    }
    assert results[|results|..] == [];
  }

  class Starmap<V(!new)> {
    const numCores: nat                    // the configured number of cores
    var taskQueue: seq<P.Task<V>>
    var tasks: seq<P.Task<V>>              // the submitted tasks, by task number
    var flights: seq<P.Flight<V>>          // what their workers have still to send
    var todo: int
    var prevPercent: int
    var percentLogged: bool
    ghost var log: seq<P.Message<V>>       // the messages of this job received so far

    constructor (numCores: nat)
      ensures this.numCores == numCores && Ready() && tasks == [] && taskQueue == []
    {
      this.numCores := numCores;
      taskQueue, tasks, flights, todo, log := [], [], [], 0, [];
      prevPercent, percentLogged := 0, false;
    }

    ghost function View(): P.State<V>
      reads this
    {
      P.State(taskQueue, tasks, flights, todo, log)
    }

    /** Nothing has been received yet. */
    ghost predicate Ready()
      reads this
    {
      flights == P.Launch(tasks) && log == [] && !percentLogged && prevPercent == 0
    }

    method Submit(t: P.Task<V>)
      modifies `tasks, `flights
      ensures View() == P.Submit(old(View()), t)
      ensures old(Ready()) ==> Ready()
    {
      tasks := tasks + [t];
      flights := flights + [P.Running(t)];
      assert old(Ready()) ==> flights == P.Launch(tasks);
    }

    /** Submit the tasks at once when their number is unknown, else put them in the queue. */
    method SubmitAll(args: seq<P.Task<V>>, countable: bool)
      requires Ready()
      modifies `tasks, `flights, `taskQueue
      ensures Ready()
      ensures countable ==> taskQueue == args && tasks == old(tasks)
      ensures !countable ==> taskQueue == old(taskQueue) && tasks == old(tasks) + args
    {
      if countable {
        taskQueue := args;
      } else {
        for i := 0 to |args|
          invariant Ready() && taskQueue == old(taskQueue) && tasks == old(tasks) + args[..i]
        {
          Submit(args[i]);
        }
      }
    }

    method SubmitMany(howmany: nat)
      modifies `tasks, `flights, `taskQueue, `todo
      ensures View() == P.SubmitMany(old(View()), howmany)
    {
      for i := 0 to howmany
        invariant P.SubmitMany(View(), howmany - i) == P.SubmitMany(old(View()), howmany)
      {
        if taskQueue != [] {
          var t := taskQueue[0];
          taskQueue := taskQueue[1..];
          Submit(t);
          todo := todo + 1;
        }
      }
    }

    /** Log the progress: the percentages logged never go back and end with 100. */
    method LogPercent() returns (done: int)
      requires 0 <= todo <= |tasks| && tasks != [] && 0 <= prevPercent <= 100
      modifies `prevPercent, `percentLogged
      ensures done == |tasks| - todo && percentLogged
      ensures old(percentLogged) ==> old(prevPercent) <= prevPercent
      ensures var percent := done * 100 / (|tasks| + |taskQueue|);
        prevPercent ==
          if !old(percentLogged) then 0 else if percent > old(prevPercent) then percent else old(prevPercent)
      ensures 0 <= prevPercent <= 100
      ensures old(percentLogged) && todo == 0 && taskQueue == [] ==> prevPercent == 100
    {
      var submitted, queued := |tasks|, |taskQueue|;
      var total := submitted + queued;
      done := submitted - todo;
      var percent := done * 100 / total;
      PercentBounds(done, total);
      if !percentLogged {
        prevPercent, percentLogged := 0, true;
      } else if percent > prevPercent {
        prevPercent := percent;
      }
    }

    /** Take the tasks that fill the cores out of the queue and submit them. */
    method FillCores()
      requires Ready()
      modifies `tasks, `flights, `taskQueue, `todo
      ensures View() == P.Start(old(tasks), old(taskQueue), numCores)
      ensures Ready()
    {
      if taskQueue != [] {
        var n := if numCores < |taskQueue| then numCores else |taskQueue|;
        var first := taskQueue[..n];
        taskQueue := taskQueue[n..];
        for i := 0 to n
          invariant Ready() && taskQueue == old(taskQueue)[n..] && tasks == old(tasks) + first[..i]
        {
          Submit(first[i]);
        }
        assert first[..n] == first;
      }
      todo := |tasks|;
      assert old(taskQueue) == [] ==> tasks == old(tasks) + old(taskQueue)[..0];
    }

    /** Receive the next message of task `no` and react to it. */
    method ReceiveFrom(no: nat, results: seq<P.Message<V>>) returns (results': seq<P.Message<V>>)
      requires P.Enabled(View(), P.Deliver(no)) && results == Yielded(log)
      modifies `tasks, `flights, `taskQueue, `todo, `log
      ensures View() == P.Receive(old(View()), P.Deliver(no)) && results' == Yielded(log)
    {
      var (msg, flight) := P.Head(flights[no].left);
      flights, log := flights[no := flight], log + [msg];
      assert log[..|log| - 1] == old(log);
      results' := results;
      ghost var s := View();
      if msg.TaskEnded? {
        todo := todo - 1;
        P.SubmitOne(View());
        SubmitMany(1);
        results' := results + [msg];
      } else if msg.Subtask? {
        taskQueue := taskQueue + [msg.task];
        P.SubmitOne(View());
        SubmitMany(1);
      } else {
        results' := results + [msg];
      }
    }

    /**
     The master loop. `foreign` bounds the messages of other jobs that arrive meanwhile.
     It terminates, and what it does is a run of the protocol up to its exit.
     */
    method Loop(foreign: nat) returns (results: seq<P.Message<V>>, ghost run: seq<P.Event>, ghost final: P.State<V>)
      requires Ready() && numCores >= 1
      modifies this
      ensures P.Reaches(old(tasks), old(taskQueue), numCores, run, final) && final.todo == 0
      ensures results == Yielded(final.log)
      ensures taskQueue == [] && tasks == []
    {
      ghost var pre, queue := tasks, taskQueue;
      FillCores();
      results, run, final := [], [], View();
      if tasks == [] {
        return;
      }
      var others := foreign;
      while todo != 0
        invariant P.Reaches(pre, queue, numCores, run, View())
        invariant results == Yielded(log) && |log| <= |P.ForestTrace(pre + queue)| && tasks != []
        invariant 0 <= prevPercent <= 100
        decreases |P.ForestTrace(pre + queue)| - |log|, others
      {
        hide P.Reaches, P.Receive, P.ForestTrace, Yielded;
        ghost var before := View();
        LoopFacts(pre, queue, numCores, run, before);
        var _ := LogPercent();
        assert View() == before;
        var isForeign: bool := *;
        if isForeign && others > 0 {
          others := others - 1;
        } else {
          var no: nat :| no < |flights| && flights[no].Running?;
          results := ReceiveFrom(no, results);
          LoopStep(pre, queue, numCores, run, before, no, View());
          run := run + [P.Deliver(no)];
        }
      }
      final := View();
      LoopFacts(pre, queue, numCores, run, final);
      var _ := LogPercent();
      tasks := [];
    }

    /** Submit everything and reduce the real outputs: the sequential reduction of the forest. */
    method Reduce<A(!new)>(agg: (A, V) -> A, acc: A, foreign: nat) returns (result: A)
      requires Ready() && numCores >= 1 && LeftCommutes(agg)
      modifies this
      ensures result == R.RunForest(agg, acc, old(tasks + taskQueue))
    {
      ghost var pre, queue := tasks, taskQueue;
      var results, run, final := Loop(foreign);
      result := ReduceResults(agg, acc, results);
      YieldedValues(final.log);
      R.ReduceRefinesSequential(agg, acc, pre, queue, numCores, run, final);
    }
  }

  lemma {:induction false} PercentBounds(done: int, total: int)
    requires 0 <= done <= total && total > 0
    ensures 0 <= done * 100 / total <= 100
    ensures done == total ==> done * 100 / total == 100
  {
    assert done * 100 <= total * 100;
    assert total * 100 / total == 100;
  }

  /** What the loop knows of every state it goes through. */
  lemma {:induction false} LoopFacts<V(!new)>(
    pre: seq<P.Task<V>>, queue: seq<P.Task<V>>, cores: nat, run: seq<P.Event>, s: P.State<V>)
    requires cores >= 1 && P.Reaches(pre, queue, cores, run, s)
    ensures 0 <= s.todo <= |s.submitted| && |s.log| <= |P.ForestTrace(pre + queue)|
    ensures s.todo != 0 ==> exists no: nat :: P.Enabled(s, P.Deliver(no))
    ensures s.todo == 0 ==> s.queue == []
  {
    P.ReachableInvariant(pre, queue, cores, run, s, (m: P.Message<V>) => true);
    P.ExitIffAllReceived(pre, queue, cores, run, s);
    P.Progress(pre, queue, cores, run, s);
  }

  lemma {:induction false} LoopStep<V(!new)>(
    pre: seq<P.Task<V>>, queue: seq<P.Task<V>>, cores: nat, run: seq<P.Event>, s: P.State<V>, no: nat, s': P.State<V>)
    requires cores >= 1 && P.Reaches(pre, queue, cores, run, s)
    requires P.Enabled(s, P.Deliver(no)) && s' == P.Receive(s, P.Deliver(no))
    ensures P.Reaches(pre, queue, cores, run + [P.Deliver(no)], s')
    ensures |s.log| < |s'.log| <= |P.ForestTrace(pre + queue)| && |s.submitted| <= |s'.submitted|
  {
    hide P.Reaches, P.Receive;
    StepExtends(pre, queue, cores, run, s, P.Deliver(no), s');
    LoopFacts(pre, queue, cores, run + [P.Deliver(no)], s');
    var p := (m: P.Message<V>) => true;
    P.ReachableInvariant(pre, queue, cores, run, s, p);
    P.ReceiveConserves(s, P.Deliver(no), pre + queue, p);
    P.SubmittedGrows(s, P.Deliver(no));
  }

  lemma {:induction false} StepExtends<V(!new)>(
    pre: seq<P.Task<V>>, queue: seq<P.Task<V>>, cores: nat, run: seq<P.Event>,
    s: P.State<V>, ev: P.Event, s': P.State<V>)
    requires P.Reaches(pre, queue, cores, run, s) && P.Enabled(s, ev) && s' == P.Receive(s, ev)
    ensures P.Reaches(pre, queue, cores, run + [ev], s')
  {
    var longer := run + [ev];
    assert longer[..|longer| - 1] == run && longer[|longer| - 1] == ev;
    assert P.Reaches(pre, queue, cores, longer[..|longer| - 1], s) && P.Step(s, longer[|longer| - 1], s');
  }
}
