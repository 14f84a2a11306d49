/** The protocol between the master loop of a Starmap and its workers, as a transition system. */
module TaskProtocol {

  // A worker runs a task and sends, in order, results, requests to run subtasks and finally
  // one end-of-task message. The master receives the messages of all tasks in any
  // interleaving that keeps each task's own order; messages of other jobs may arrive at any
  // time.

  /** What is left to send in the life of a task. */
  datatype Task<V> =
    | End
    | Out(value: V, next: Task<V>)
    | Sub(task: Task<V>, next: Task<V>)

  datatype Message<V> = Value(value: V) | Subtask(task: Task<V>) | TaskEnded

  datatype Flight<V> = Running(left: Task<V>) | Finished

  datatype Event = Foreign | Deliver(no: nat)

  /** `log` records the messages of this job received so far. */
  datatype State<V> = State(
    queue: seq<Task<V>>,
    submitted: seq<Task<V>>,
    flights: seq<Flight<V>>,
    todo: int,
    log: seq<Message<V>>)

  // ---- the forest of tasks and what it sends in all ----

  /** All the messages of a task and of the tasks it spawns, run depth first. */
  function Trace<V>(t: Task<V>): seq<Message<V>> {
    match t
    case End => [TaskEnded]
    case Out(v, next) => [Value(v)] + Trace(next)
    case Sub(sub, next) => [Subtask(sub)] + Trace(sub) + Trace(next)
  }

  function ForestTrace<V>(ts: seq<Task<V>>): seq<Message<V>> {
    if ts == [] then [] else Trace(ts[0]) + ForestTrace(ts[1..])
  }

  // Counting the messages that satisfy `p`, wherever they are.

  function CountLog<V>(log: seq<Message<V>>, p: Message<V> -> bool): nat {
    if log == [] then 0 else (if p(log[0]) then 1 else 0) + CountLog(log[1..], p)
  }

  function Count<V>(t: Task<V>, p: Message<V> -> bool): nat {
    match t
    case End => if p(TaskEnded) then 1 else 0
    case Out(v, next) => (if p(Value(v)) then 1 else 0) + Count(next, p)
    case Sub(sub, next) => (if p(Subtask(sub)) then 1 else 0) + Count(sub, p) + Count(next, p)
  }

  function CountForest<V>(ts: seq<Task<V>>, p: Message<V> -> bool): nat {
    if ts == [] then 0 else Count(ts[0], p) + CountForest(ts[1..], p)
  }

  function CountFlight<V>(f: Flight<V>, p: Message<V> -> bool): nat {
    if f.Running? then Count(f.left, p) else 0
  }

  function CountFlights<V>(fs: seq<Flight<V>>, p: Message<V> -> bool): nat {
    if fs == [] then 0 else CountFlight(fs[0], p) + CountFlights(fs[1..], p)
  }

  function Values<V>(log: seq<Message<V>>): seq<V> {
    if log == [] then [] else (if log[0].Value? then [log[0].value] else []) + Values(log[1..])
  }

  function Spawned<V>(log: seq<Message<V>>): seq<Task<V>> {
    if log == [] then [] else (if log[0].Subtask? then [log[0].task] else []) + Spawned(log[1..])
  }

  function EndCount<V>(log: seq<Message<V>>): nat {
    if log == [] then 0 else (if log[0].TaskEnded? then 1 else 0) + EndCount(log[1..])
  }

  function RunningCount<V>(fs: seq<Flight<V>>): nat {
    if fs == [] then 0 else (if fs[0].Running? then 1 else 0) + RunningCount(fs[1..])
  }

  // ---- the master's steps ----

  function Launch<V>(ts: seq<Task<V>>): seq<Flight<V>> {
    seq(|ts|, i requires 0 <= i < |ts| => Running(ts[i]))
  }

  function Submit<V>(s: State<V>, t: Task<V>): State<V> {
    s.(submitted := s.submitted + [t], flights := s.flights + [Running(t)])
  }

  /** Submit up to `howmany` tasks, taking each one from index 0 of the queue. */
  function SubmitMany<V>(s: State<V>, howmany: nat): State<V>
    decreases howmany
  {
    if howmany == 0 then s
    else if s.queue == [] then SubmitMany(s, howmany - 1)
    else
      var s' := Submit(s, s.queue[0]);
      SubmitMany(s'.(queue := s.queue[1..], todo := s.todo + 1), howmany - 1)
  }

  /** The state when the loop is entered: `pre` was submitted before, then the cores are filled. */
  function Start<V>(pre: seq<Task<V>>, queue: seq<Task<V>>, cores: nat): State<V> {
    var n := if cores < |queue| then cores else |queue|;
    var tasks := pre + queue[..n];
    State(queue[n..], tasks, Launch(tasks), |tasks|, [])
  }

  predicate Enabled<V>(s: State<V>, ev: Event) {
    s.todo != 0 && (ev.Deliver? ==> ev.no < |s.flights| && s.flights[ev.no].Running?)
  }

  /** The next message of a task, and what the task has left afterwards. */
  function Head<V>(t: Task<V>): (Message<V>, Flight<V>) {
    match t
    case End => (TaskEnded, Finished)
    case Out(v, next) => (Value(v), Running(next))
    case Sub(sub, next) => (Subtask(sub), Running(next))
  }

  function Receive<V>(s: State<V>, ev: Event): State<V>
    requires Enabled(s, ev)
  {
    if ev.Foreign? then s
    else
      var (msg, flight) := Head(s.flights[ev.no].left);
      var s' := s.(flights := s.flights[ev.no := flight], log := s.log + [msg]);
      match msg
      case TaskEnded => SubmitMany(s'.(todo := s.todo - 1), 1)
      case Subtask(t) => SubmitMany(s'.(queue := s.queue + [t]), 1)
      case Value(_) => s'
  }

  ghost predicate Step<V>(s: State<V>, ev: Event, s': State<V>) {
    Enabled(s, ev) && s' == Receive(s, ev)
  }

  /** Receiving the events of `run` in order, each when it is enabled, leads from the start to `s`. */
  ghost predicate Reaches<V(!new)>(
    pre: seq<Task<V>>, queue: seq<Task<V>>, cores: nat, run: seq<Event>, s: State<V>)
    decreases |run|
  {
    if run == [] then s == Start(pre, queue, cores)
    else
      var before, ev := run[..|run| - 1], run[|run| - 1];
      exists s' :: Reaches(pre, queue, cores, before, s') && Step(s', ev, s)
  }

  function Deliveries(run: seq<Event>): nat {
    if run == [] then 0 else Deliveries(run[..|run| - 1]) + if run[|run| - 1].Deliver? then 1 else 0
  }

  // ---- invariants ----

  /** Every message (of kind `p`) of the forest is received, in flight or queued, exactly once. */
  ghost predicate Conserves<V>(s: State<V>, forest: seq<Task<V>>, p: Message<V> -> bool) {
    CountLog(s.log, p) + CountFlights(s.flights, p) + CountForest(s.queue, p) == CountForest(forest, p)
  }

  /** The master's counters agree with what the workers are doing. */
  ghost predicate Counts<V>(s: State<V>) {
    && |s.flights| == |s.submitted|
    && s.todo == RunningCount(s.flights)
    && s.todo + EndCount(s.log) == |s.submitted|
  }

  /** Tasks leave in the order in which they arrived, and the cores are kept busy. */
  ghost predicate Schedules<V>(s: State<V>, pre: seq<Task<V>>, queue: seq<Task<V>>, cores: nat) {
    && s.submitted + s.queue == pre + queue + Spawned(s.log)
    && (s.queue != [] ==> s.todo >= cores)
    && s.todo <= |pre| + cores + |Spawned(s.log)|
  }

  // ---- algebra of the counting functions ----

  lemma {:induction false} FlightsUpdate<V>(fs: seq<Flight<V>>, i: nat, f: Flight<V>, p: Message<V> -> bool)
    requires i < |fs|
    ensures CountFlights(fs[i := f], p) == CountFlights(fs, p) - CountFlight(fs[i], p) + CountFlight(f, p)
    ensures RunningCount(fs[i := f])
         == RunningCount(fs) - (if fs[i].Running? then 1 else 0) + (if f.Running? then 1 else 0)
  {
    if i == 0 {
      assert fs[i := f][1..] == fs[1..];
    } else {
      assert fs[i := f][1..] == fs[1..][i - 1 := f];
      FlightsUpdate(fs[1..], i - 1, f, p);
    }
  }

  lemma {:induction false} FlightsAppend<V>(fs: seq<Flight<V>>, f: Flight<V>, p: Message<V> -> bool)
    ensures CountFlights(fs + [f], p) == CountFlights(fs, p) + CountFlight(f, p)
    ensures RunningCount(fs + [f]) == RunningCount(fs) + (if f.Running? then 1 else 0)
  {
    if fs == [] {
    } else {
      assert (fs + [f])[1..] == fs[1..] + [f];
      FlightsAppend(fs[1..], f, p);
    }
  }

  lemma {:induction false} ForestAppend<V>(ts: seq<Task<V>>, us: seq<Task<V>>, p: Message<V> -> bool)
    ensures CountForest(ts + us, p) == CountForest(ts, p) + CountForest(us, p)
  {
    if ts == [] {
      assert ts + us == us;
    } else {
      assert (ts + us)[1..] == ts[1..] + us;
      ForestAppend(ts[1..], us, p);
    }
  }

  lemma {:induction false} LogAppend<V>(log: seq<Message<V>>, tail: seq<Message<V>>, p: Message<V> -> bool)
    ensures CountLog(log + tail, p) == CountLog(log, p) + CountLog(tail, p)
    ensures Spawned(log + tail) == Spawned(log) + Spawned(tail)
    ensures EndCount(log + tail) == EndCount(log) + EndCount(tail)
  {
    if log == [] {
      assert log + tail == tail;
    } else {
      assert (log + tail)[1..] == log[1..] + tail;
      LogAppend(log[1..], tail, p);
    }
  }

  lemma {:induction false} LogSnoc<V>(log: seq<Message<V>>, m: Message<V>, p: Message<V> -> bool)
    ensures CountLog(log + [m], p) == CountLog(log, p) + (if p(m) then 1 else 0)
    ensures Spawned(log + [m]) == Spawned(log) + (if m.Subtask? then [m.task] else [])
    ensures EndCount(log + [m]) == EndCount(log) + (if m.TaskEnded? then 1 else 0)
  {
    LogAppend(log, [m], p);
    assert [m][1..] == [];
  }

  lemma {:induction false} LaunchCounts<V>(ts: seq<Task<V>>, p: Message<V> -> bool)
    ensures CountFlights(Launch(ts), p) == CountForest(ts, p) && RunningCount(Launch(ts)) == |ts|
  {
    if ts == [] {
    } else {
      assert Launch(ts)[1..] == Launch(ts[1..]);
      LaunchCounts(ts[1..], p);
    }
  }

  /** The depth-first trace has the messages that are counted. */
  lemma {:induction false} TraceCount<V>(t: Task<V>, p: Message<V> -> bool)
    ensures CountLog(Trace(t), p) == Count(t, p)
  {
    match t
    case End =>
    case Out(v, next) =>
      TraceCount(next, p);
      assert Trace(t)[1..] == Trace(next);
    case Sub(sub, next) =>
      TraceCount(sub, p);
      TraceCount(next, p);
      assert Trace(t)[1..] == Trace(sub) + Trace(next);
      LogAppend(Trace(sub), Trace(next), p);
  }

  lemma {:induction false} ForestTraceCount<V>(ts: seq<Task<V>>, p: Message<V> -> bool)
    ensures CountLog(ForestTrace(ts), p) == CountForest(ts, p)
  {
    if ts == [] {
    } else {
      TraceCount(ts[0], p);
      ForestTraceCount(ts[1..], p);
      LogAppend(Trace(ts[0]), ForestTrace(ts[1..]), p);
    }
  }

  // ---- the invariants hold in every reachable state ----

  lemma {:induction false} StartInvariant<V>(pre: seq<Task<V>>, queue: seq<Task<V>>, cores: nat, p: Message<V> -> bool)
    ensures var s := Start(pre, queue, cores);
      Conserves(s, pre + queue, p) && Counts(s) && Schedules(s, pre, queue, cores)
  {
    var s := Start(pre, queue, cores);
    LaunchCounts(s.submitted, p);
    assert s.submitted + s.queue == pre + queue;
    ForestAppend(s.submitted, s.queue, p);
  }

  lemma {:induction false} SubmitOne<V>(s: State<V>)
    ensures SubmitMany(s, 1) ==
      if s.queue == [] then s
      else Submit(s, s.queue[0]).(queue := s.queue[1..], todo := s.todo + 1)
  {
    assert forall s': State<V> :: SubmitMany(s', 0) == s';
  }

  /** Taking one task from the queue moves its messages from the queue to the flights. */
  lemma {:induction false} SubmitInvariant<V>(s: State<V>, forest: seq<Task<V>>, p: Message<V> -> bool)
    requires Conserves(s, forest, p) && Counts(s)
    ensures Conserves(SubmitMany(s, 1), forest, p) && Counts(SubmitMany(s, 1))
    ensures SubmitMany(s, 1).log == s.log
  {
    SubmitOne(s);
    if s.queue != [] {
      FlightsAppend(s.flights, Running(s.queue[0]), p);
    }
  }

  lemma {:induction false} ReceiveConserves<V>(s: State<V>, ev: Event, forest: seq<Task<V>>, p: Message<V> -> bool)
    requires Conserves(s, forest, p) && Counts(s) && Enabled(s, ev)
    ensures Conserves(Receive(s, ev), forest, p) && Counts(Receive(s, ev))
    ensures Receive(s, ev).log == if ev.Foreign? then s.log else s.log + [Head(s.flights[ev.no].left).0]
  {
    if ev.Deliver? {
      var (msg, flight) := Head(s.flights[ev.no].left);
      FlightsUpdate(s.flights, ev.no, flight, p);
      LogSnoc(s.log, msg, p);
      var s' := s.(flights := s.flights[ev.no := flight], log := s.log + [msg]);
      match msg
      case TaskEnded => SubmitInvariant(s'.(todo := s.todo - 1), forest, p);
      case Subtask(t) =>
        ForestAppend(s.queue, [t], p);
        assert [t][1..] == [];
        SubmitInvariant(s'.(queue := s.queue + [t]), forest, p);
      case Value(_) =>
    }
  }

  lemma {:induction false} ReceiveSchedules<V>(
    s: State<V>, ev: Event, pre: seq<Task<V>>, queue: seq<Task<V>>, cores: nat)
    requires Schedules(s, pre, queue, cores) && Enabled(s, ev)
    ensures Schedules(Receive(s, ev), pre, queue, cores)
    ensures |Receive(s, ev).queue| <= |s.queue|
  {
    if ev.Deliver? {
      var (msg, flight) := Head(s.flights[ev.no].left);
      LogSnoc(s.log, msg, _ => true);
      var s' := s.(flights := s.flights[ev.no := flight], log := s.log + [msg]);
      match msg
      case TaskEnded =>
        SubmitOne(s'.(todo := s.todo - 1));
        assert s.submitted + s.queue == Receive(s, ev).submitted + Receive(s, ev).queue;
      case Subtask(t) =>
        SubmitOne(s'.(queue := s.queue + [t]));
        assert (s.submitted + s.queue) + [t] == Receive(s, ev).submitted + Receive(s, ev).queue;
      case Value(_) =>
    }
  }

  lemma {:induction false} SubmittedGrows<V>(s: State<V>, ev: Event)
    requires Enabled(s, ev)
    ensures |s.submitted| <= |Receive(s, ev).submitted|
  {
    if ev.Deliver? {
      var (msg, flight) := Head(s.flights[ev.no].left);
      var s' := s.(flights := s.flights[ev.no := flight], log := s.log + [msg]);
      match msg
      case TaskEnded => SubmitOne(s'.(todo := s.todo - 1));
      case Subtask(t) => SubmitOne(s'.(queue := s.queue + [t]));
      case Value(_) =>
    }
  }

  /** The scheduler's guarantees: they hold in every state any run can reach. */
  lemma {:induction false} ReachableInvariant<V(!new)>(
    pre: seq<Task<V>>, queue: seq<Task<V>>, cores: nat, run: seq<Event>, s: State<V>, p: Message<V> -> bool)
    requires Reaches(pre, queue, cores, run, s)
    ensures Conserves(s, pre + queue, p) && Counts(s) && Schedules(s, pre, queue, cores)
    ensures |s.queue| <= |queue| && |s.log| == Deliveries(run)
    decreases |run|
  {
    if run == [] {
      StartInvariant(pre, queue, cores, p);
    } else {
      var before, ev := run[..|run| - 1], run[|run| - 1];
      var s' :| Reaches(pre, queue, cores, before, s') && Step(s', ev, s);
      ReachableInvariant(pre, queue, cores, before, s', p);
      ReceiveConserves(s', ev, pre + queue, p);
      ReceiveSchedules(s', ev, pre, queue, cores);
    }
  }

  // ---- exactly once ----

  lemma {:induction false} NoneRunning<V>(fs: seq<Flight<V>>, p: Message<V> -> bool)
    ensures RunningCount(fs) == 0 <==> forall i :: 0 <= i < |fs| ==> fs[i].Finished?
    ensures RunningCount(fs) == 0 ==> CountFlights(fs, p) == 0
    ensures RunningCount(fs) != 0 && p(TaskEnded) ==> CountFlights(fs, p) > 0
  {
    if fs == [] {
    } else {
      NoneRunning(fs[1..], p);
      assert forall i :: 0 <= i < |fs| - 1 ==> fs[i + 1] == fs[1..][i];
      if fs[0].Running? && p(TaskEnded) {
        EndsCounted(fs[0].left, p);
      }
    }
  }

  lemma {:induction false} EndsCounted<V>(t: Task<V>, p: Message<V> -> bool)
    requires p(TaskEnded)
    ensures Count(t, p) > 0
  {
    match t
    case End =>
    case Out(_, next) => EndsCounted(next, p);
    case Sub(_, next) => EndsCounted(next, p);
  }

  lemma {:induction false} CountAll<V(!new)>(log: seq<Message<V>>, p: Message<V> -> bool)
    requires forall m :: p(m)
    ensures CountLog(log, p) == |log|
  {
    if log == [] {
    } else {
      CountAll(log[1..], p);
    }
  }

  lemma {:induction false} CountValue<V(!new)>(log: seq<Message<V>>, v: V, p: Message<V> -> bool)
    requires forall m :: p(m) <==> m == Value(v)
    ensures CountLog(log, p) == multiset(Values(log))[v]
  {
    if log == [] {
    } else {
      CountValue(log[1..], v, p);
    }
  }

  // The consequences for a single state that keeps the invariants.

  lemma {:induction false} SomeMessagePending<V>(s: State<V>)
    requires Counts(s) && s.todo != 0
    ensures exists no: nat :: Enabled(s, Deliver(no))
  {
    NoneRunning(s.flights, (m: Message<V>) => true);
    var no: nat :| no < |s.flights| && !s.flights[no].Finished?;
    assert Enabled(s, Deliver(no));
  }

  lemma {:induction false} Drained<V(!new)>(s: State<V>, forest: seq<Task<V>>, p: Message<V> -> bool)
    requires (forall m :: p(m)) && Conserves(s, forest, p) && Counts(s) && (s.queue != [] ==> s.todo >= 1)
    ensures |s.log| <= |ForestTrace(forest)|
    ensures s.todo == 0 <==> |s.log| == |ForestTrace(forest)|
    ensures s.todo == 0 ==> s.queue == [] && forall i :: 0 <= i < |s.flights| ==> s.flights[i].Finished?
  {
    NoneRunning(s.flights, p);
    ForestTraceCount(forest, p);
    CountAll(s.log, p);
    CountAll(ForestTrace(forest), p);
  }

  lemma {:induction false} DrainedCounts<V(!new)>(s: State<V>, forest: seq<Task<V>>, v: V, p: Message<V> -> bool)
    requires (forall m :: p(m) <==> m == Value(v)) && Conserves(s, forest, p) && Counts(s)
    requires s.todo == 0 && s.queue == []
    ensures multiset(Values(s.log))[v] == multiset(Values(ForestTrace(forest)))[v]
  {
    NoneRunning(s.flights, p);
    ForestTraceCount(forest, p);
    CountValue(s.log, v, p);
    CountValue(ForestTrace(forest), v, p);
  }

  // The same for every run.

  /** The loop never waits for a message that cannot come. */
  lemma {:induction false} Progress<V(!new)>(
    pre: seq<Task<V>>, queue: seq<Task<V>>, cores: nat, run: seq<Event>, s: State<V>)
    requires Reaches(pre, queue, cores, run, s)
    ensures s.todo != 0 ==> exists no: nat :: Enabled(s, Deliver(no))
  {
    ReachableInvariant(pre, queue, cores, run, s, (m: Message<V>) => true);
    if s.todo != 0 {
      SomeMessagePending(s);
    }
  }

  /**
   Whatever the interleaving: the loop exits exactly when every message of the forest
   has been received, and then nothing is queued and no task is in flight. No run
   delivers more messages than the forest has, so every run is finite.
   */
  lemma {:induction false} ExitIffAllReceived<V(!new)>(
    pre: seq<Task<V>>, queue: seq<Task<V>>, cores: nat, run: seq<Event>, s: State<V>)
    requires cores >= 1 && Reaches(pre, queue, cores, run, s)
    ensures Deliveries(run) <= |ForestTrace(pre + queue)|
    ensures s.todo == 0 <==> Deliveries(run) == |ForestTrace(pre + queue)|
    ensures s.todo == 0 ==> s.queue == [] && forall i :: 0 <= i < |s.flights| ==> s.flights[i].Finished?
  {
    var all := (m: Message<V>) => true;
    ReachableInvariant(pre, queue, cores, run, s, all);
    Drained(s, pre + queue, all);
  }

  /** Exactly once: the real outputs yielded are those of the whole forest, with multiplicity. */
  lemma {:induction false} ExactlyOnce<V(!new)>(
    pre: seq<Task<V>>, queue: seq<Task<V>>, cores: nat, run: seq<Event>, s: State<V>)
    requires cores >= 1 && Reaches(pre, queue, cores, run, s) && s.todo == 0
    ensures multiset(Values(s.log)) == multiset(Values(ForestTrace(pre + queue)))
  {
    ExitIffAllReceived(pre, queue, cores, run, s);
    forall v: V
      ensures multiset(Values(s.log))[v] == multiset(Values(ForestTrace(pre + queue)))[v]
    {
      var p := (m: Message<V>) => m == Value(v);
      ReachableInvariant(pre, queue, cores, run, s, p);
      DrainedCounts(s, pre + queue, v, p);
    }
  }
}
