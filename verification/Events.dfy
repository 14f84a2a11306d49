/**
 The table of the events and its index: the events of the ruptures arrive from tasks in any
 order, are sorted by rupture and numbered, and each rupture gets the span of its events.
 */
module Events {
  import opened Folds
  import opened Sorting
  import opened Ruptures
  import opened Indices

  datatype Event = Event(id: nat, rupId: nat, rlzId: nat)

  /** The event numbers of a rupture for each realization. */
  type EidsByRlz = seq<(nat, seq<nat>)>

  function EventsOfRlz(rup: Rup, rlz: nat, eids: seq<nat>, n: nat): seq<Event>
    requires n <= |eids|
  {
    if n == 0 then [] else EventsOfRlz(rup, rlz, eids, n - 1) + [Event(eids[n - 1] + rup.e0, rup.id, rlz)]
  }

  function EventsOfRlzs(rup: Rup, groups: EidsByRlz, n: nat): seq<Event>
    requires n <= |groups|
  {
    if n == 0 then []
    else EventsOfRlzs(rup, groups, n - 1) + EventsOfRlz(rup, groups[n - 1].0, groups[n - 1].1, |groups[n - 1].1|)
  }

  function EventsOfRup(rup: Rup, occ: Rup -> EidsByRlz): seq<Event> {
    EventsOfRlzs(rup, occ(rup), |occ(rup)|)
  }

  /** The events of the first `n` ruptures. */
  function EventsOf(rups: seq<Rup>, n: nat, occ: Rup -> EidsByRlz): seq<Event>
    requires n <= |rups|
  {
    if n == 0 then [] else EventsOf(rups, n - 1, occ) + EventsOfRup(rups[n - 1], occ)
  }

  /** How often a number is among the first `n`. */
  function Times(eids: seq<nat>, n: nat, eid: nat): nat
    requires n <= |eids|
  {
    if n == 0 then 0 else Times(eids, n - 1, eid) + if eids[n - 1] == eid then 1 else 0
  }

  /** How often an event number is given with a realization. */
  function Given(groups: EidsByRlz, n: nat, eid: nat, rlz: nat): nat
    requires n <= |groups|
  {
    if n == 0 then 0
    else
      Given(groups, n - 1, eid, rlz)
      + if groups[n - 1].0 == rlz then Times(groups[n - 1].1, |groups[n - 1].1|, eid) else 0
  }

  /** How often an event number is given, for any realization. */
  function GivenEid(groups: EidsByRlz, n: nat, eid: nat): nat
    requires n <= |groups|
  {
    if n == 0 then 0 else GivenEid(groups, n - 1, eid) + Times(groups[n - 1].1, |groups[n - 1].1|, eid)
  }

  /** How many event numbers are given with a realization. */
  function GivenRlz(groups: EidsByRlz, n: nat, rlz: nat): nat
    requires n <= |groups|
  {
    if n == 0 then 0 else GivenRlz(groups, n - 1, rlz) + if groups[n - 1].0 == rlz then |groups[n - 1].1| else 0
  }

  /** How many event numbers are given. */
  function GivenAll(groups: EidsByRlz, n: nat): nat
    requires n <= |groups|
  {
    if n == 0 then 0 else GivenAll(groups, n - 1) + |groups[n - 1].1|
  }

  /** How many times the first `n` ruptures have an event. */
  function Occurrences(rups: seq<Rup>, n: nat, occ: Rup -> EidsByRlz, ev: Event): nat
    requires n <= |rups|
  {
    if n == 0 then 0 else Occurrences(rups, n - 1, occ, ev) + OfRup(rups[n - 1], occ(rups[n - 1]), ev)
  }

  /** How many times a rupture has an event: its number is the one given, after the first of the rupture. */
  function OfRup(rup: Rup, groups: EidsByRlz, ev: Event): nat {
    if ev.rupId == rup.id && ev.id >= rup.e0 then Given(groups, |groups|, ev.id - rup.e0, ev.rlzId) else 0
  }

  lemma {:induction false} CountOfRlz(rup: Rup, rlz: nat, eids: seq<nat>, n: nat, ev: Event)
    requires n <= |eids|
    ensures multiset(EventsOfRlz(rup, rlz, eids, n))[ev] ==
      if ev.rupId == rup.id && ev.rlzId == rlz && ev.id >= rup.e0 then Times(eids, n, ev.id - rup.e0) else 0
  {
    if n == 0 {
    } else {
      var before, last := EventsOfRlz(rup, rlz, eids, n - 1), Event(eids[n - 1] + rup.e0, rup.id, rlz);
      assert EventsOfRlz(rup, rlz, eids, n) == before + [last];
      hide EventsOfRlz;
      CountOfRlz(rup, rlz, eids, n - 1, ev);
      CountSnoc(before, last, ev);
    }
  }

  lemma {:induction false} CountOfRlzs(rup: Rup, groups: EidsByRlz, n: nat, ev: Event)
    requires n <= |groups|
    ensures multiset(EventsOfRlzs(rup, groups, n))[ev] ==
      if ev.rupId == rup.id && ev.id >= rup.e0 then Given(groups, n, ev.id - rup.e0, ev.rlzId) else 0
  {
    if n == 0 {
    } else {
      var rlz, eids := groups[n - 1].0, groups[n - 1].1;
      var before, last := EventsOfRlzs(rup, groups, n - 1), EventsOfRlz(rup, rlz, eids, |eids|);
      assert EventsOfRlzs(rup, groups, n) == before + last;
      if ev.id >= rup.e0 {
        assert Given(groups, n, ev.id - rup.e0, ev.rlzId) ==
          Given(groups, n - 1, ev.id - rup.e0, ev.rlzId)
          + if rlz == ev.rlzId then Times(eids, |eids|, ev.id - rup.e0) else 0;
      }
      hide EventsOfRlz, EventsOfRlzs, Times, Given;
      CountOfRlzs(rup, groups, n - 1, ev);
      CountOfRlz(rup, rlz, eids, |eids|, ev);
      CountAppend(before, last, ev);
    }
  }

  lemma {:induction false} CountOfRup(rup: Rup, occ: Rup -> EidsByRlz, ev: Event)
    ensures multiset(EventsOfRup(rup, occ))[ev] == OfRup(rup, occ(rup), ev)
  {
    CountOfRlzs(rup, occ(rup), |occ(rup)|, ev);
  }

  /** The events of ruptures are the numbers given for them, each with its realization. */
  lemma {:induction false} CountOfEvents(rups: seq<Rup>, n: nat, occ: Rup -> EidsByRlz, ev: Event)
    requires n <= |rups|
    ensures multiset(EventsOf(rups, n, occ))[ev] == Occurrences(rups, n, occ, ev)
  {
    if n == 0 {
    } else {
      var before, last := EventsOf(rups, n - 1, occ), EventsOfRup(rups[n - 1], occ);
      assert EventsOf(rups, n, occ) == before + last;
      hide EventsOf, EventsOfRup, OfRup;
      CountOfRup(rups[n - 1], occ, ev);
      CountOfEvents(rups, n - 1, occ, ev);
      CountAppend(before, last, ev);
    }
  }

  lemma {:induction false} LengthOfRlz(rup: Rup, rlz: nat, eids: seq<nat>, n: nat)
    requires n <= |eids|
    ensures |EventsOfRlz(rup, rlz, eids, n)| == n
    ensures forall j :: 0 <= j < n ==> EventsOfRlz(rup, rlz, eids, n)[j] == Event(eids[j] + rup.e0, rup.id, rlz)
  {
    if n == 0 {
    } else {
      LengthOfRlz(rup, rlz, eids, n - 1);
    }
  }

  lemma {:induction false} LengthOfRlzs(rup: Rup, groups: EidsByRlz, n: nat)
    requires n <= |groups|
    ensures |EventsOfRlzs(rup, groups, n)| == GivenAll(groups, n)
  {
    if n == 0 {
    } else {
      LengthOfRlzs(rup, groups, n - 1);
      LengthOfRlz(rup, groups[n - 1].0, groups[n - 1].1, |groups[n - 1].1|);
    }
  }

  method GetEidRlz(proxies: seq<Rup>, occ: Rup -> EidsByRlz) returns (eidRlz: seq<Event>)
    ensures eidRlz == EventsOf(proxies, |proxies|, occ)
    ensures forall ev :: multiset(eidRlz)[ev] == Occurrences(proxies, |proxies|, occ, ev)
  {
    forall ev ensures multiset(EventsOf(proxies, |proxies|, occ))[ev] == Occurrences(proxies, |proxies|, occ, ev) {
      CountOfEvents(proxies, |proxies|, occ, ev);
    }
    hide Occurrences;
    eidRlz := [];
    for p := 0 to |proxies|
      invariant eidRlz == EventsOf(proxies, p, occ)
    {
      var rup := proxies[p];
      var groups := occ(rup);
      for g := 0 to |groups|
        invariant eidRlz == EventsOf(proxies, p, occ) + EventsOfRlzs(rup, groups, g)
      {
        var rlz, eids := groups[g].0, groups[g].1;
        for e := 0 to |eids|
          invariant eidRlz ==
            EventsOf(proxies, p, occ) + (EventsOfRlzs(rup, groups, g) + EventsOfRlz(rup, rlz, eids, e))
        {
          eidRlz := eidRlz + [Event(eids[e] + rup.e0, rup.id, rlz)];
        }
      }
    }
  }

  // ---- the events of the tasks, in any order ----

  lemma {:induction false} EventsIsBag(rups: seq<Rup>, n: nat, occ: Rup -> EidsByRlz, b: Rup -> multiset<Event>)
    requires n <= |rups| && forall r :: b(r) == multiset(EventsOfRup(r, occ))
    ensures multiset(EventsOf(rups, n, occ)) == Bag(b, rups[..n])
  {
    if n == 0 {
    } else {
      EventsIsBag(rups, n - 1, occ, b);
      BagLast(b, rups, n);
    }
  }

  lemma {:induction false} EventsPermutation(xs: seq<Rup>, ys: seq<Rup>, occ: Rup -> EidsByRlz)
    requires multiset(xs) == multiset(ys)
    ensures multiset(EventsOf(xs, |xs|, occ)) == multiset(EventsOf(ys, |ys|, occ))
  {
    var b := r => multiset(EventsOfRup(r, occ));
    EventsIsBag(xs, |xs|, occ, b);
    EventsIsBag(ys, |ys|, occ, b);
    assert xs[..|xs|] == xs && ys[..|ys|] == ys;
    BagPermutation(b, xs, ys);
  }

  lemma {:induction false} EventsAppend(xs: seq<Rup>, ys: seq<Rup>, n: nat, occ: Rup -> EidsByRlz)
    requires n <= |ys|
    ensures EventsOf(xs + ys, |xs| + n, occ) == EventsOf(xs, |xs|, occ) + EventsOf(ys, n, occ)
  {
    hide EventsOfRup;
    if n == 0 {
      EventsPrefix(xs, ys, |xs|, occ);
    } else {
      EventsAppend(xs, ys, n - 1, occ);
      assert (xs + ys)[|xs| + n - 1] == ys[n - 1];
    }
  }

  lemma {:induction false} EventsPrefix(xs: seq<Rup>, ys: seq<Rup>, n: nat, occ: Rup -> EidsByRlz)
    requires n <= |xs|
    ensures EventsOf(xs + ys, n, occ) == EventsOf(xs, n, occ)
  {
    hide EventsOfRup;
    if n > 0 {
      EventsPrefix(xs, ys, n - 1, occ);
    }
  }

  lemma {:induction false} EventsJoin(xs: seq<Rup>, ys: seq<Rup>, occ: Rup -> EidsByRlz)
    ensures EventsOf(xs + ys, |xs + ys|, occ) == EventsOf(xs, |xs|, occ) + EventsOf(ys, |ys|, occ)
  {
    EventsAppend(xs, ys, |ys|, occ);
  }

  /** Block by block the same events. */
  lemma {:induction false} EventsOfBlocks(blocks: seq<seq<Rup>>, sent: seq<seq<Event>>, n: nat, occ: Rup -> EidsByRlz)
    requires n <= |blocks| == |sent|
    requires forall b :: 0 <= b < |blocks| ==> sent[b] == EventsOf(blocks[b], |blocks[b]|, occ)
    ensures var rups := ConcatTo(blocks, n); ConcatTo(sent, n) == EventsOf(rups, |rups|, occ)
  {
    hide EventsOfRup;
    if n == 0 {
      assert ConcatTo(sent, n) == [];
    } else {
      EventsOfBlocks(blocks, sent, n - 1, occ);
      EventsJoin(ConcatTo(blocks, n - 1), blocks[n - 1], occ);
    }
  }

  /** However the ruptures are cut in blocks and in whatever order the tasks finish, the events are the same. */
  lemma {:induction false} TasksGiveAllEvents(
    rups: seq<Rup>, blocks: seq<seq<Rup>>, sent: seq<seq<Event>>, results: seq<seq<Event>>, occ: Rup -> EidsByRlz)
    requires multiset(Concat(blocks)) == multiset(rups) && |sent| == |blocks| && multiset(results) == multiset(sent)
    requires forall b :: 0 <= b < |blocks| ==> sent[b] == EventsOf(blocks[b], |blocks[b]|, occ)
    ensures multiset(Concat(results)) == multiset(EventsOf(rups, |rups|, occ))
  {
    EventsOfBlocks(blocks, sent, |blocks|, occ);
    EventsPermutation(Concat(blocks), rups, occ);
    ConcatPermutation(results, sent);
  }

  // ---- counting ----

  function SumOcc(rups: seq<Rup>, n: nat): nat
    requires n <= |rups|
  {
    if n == 0 then 0 else SumOcc(rups, n - 1) + rups[n - 1].core.nOcc
  }

  method TotalOcc(rups: seq<Rup>) returns (total: nat)
    ensures total == SumOcc(rups, |rups|)
  {
    total := 0;
    for k := 0 to |rups|
      invariant total == SumOcc(rups, k)
    {
      total := total + rups[k].core.nOcc;
    }
  }

  /** The ruptures are numbered, occur, and have as many events as they say. */
  ghost predicate Occurring(rups: seq<Rup>, occ: Rup -> EidsByRlz) {
    forall i :: 0 <= i < |rups| ==>
      rups[i].id == i && rups[i].core.nOcc >= 1 && GivenAll(occ(rups[i]), |occ(rups[i])|) == rups[i].core.nOcc
  }

  lemma {:induction false} OccurringLength(rups: seq<Rup>, occ: Rup -> EidsByRlz)
    requires Occurring(rups, occ)
    ensures forall i :: 0 <= i < |rups| ==> |EventsOfRup(rups[i], occ)| == rups[i].core.nOcc
  {
    forall i | 0 <= i < |rups| ensures |EventsOfRup(rups[i], occ)| == rups[i].core.nOcc {
      LengthOfRlzs(rups[i], occ(rups[i]), |occ(rups[i])|);
    }
  }

  lemma {:induction false} EventCount(rups: seq<Rup>, n: nat, occ: Rup -> EidsByRlz)
    requires n <= |rups| && Occurring(rups, occ)
    ensures |EventsOf(rups, n, occ)| == SumOcc(rups, n)
  {
    if n == 0 {
    } else {
      OccurringLength(rups, occ);
      EventCount(rups, n - 1, occ);
    }
  }

  lemma {:induction false} OfOneRlz(rup: Rup, rlz: nat, eids: seq<nat>, n: nat)
    requires n <= |eids|
    ensures forall ev :: ev in EventsOfRlz(rup, rlz, eids, n) ==> ev.rupId == rup.id
  {
    if n == 0 {
    } else {
      OfOneRlz(rup, rlz, eids, n - 1);
    }
  }

  lemma {:induction false} OfOneRup(rup: Rup, groups: EidsByRlz, n: nat)
    requires n <= |groups|
    ensures forall ev :: ev in EventsOfRlzs(rup, groups, n) ==> ev.rupId == rup.id
  {
    if n == 0 {
    } else {
      OfOneRup(rup, groups, n - 1);
      OfOneRlz(rup, groups[n - 1].0, groups[n - 1].1, |groups[n - 1].1|);
    }
  }

  /** Only the events of its own rupture have its number. */
  lemma {:induction false} OwnEvents(rups: seq<Rup>, n: nat, occ: Rup -> EidsByRlz, ev: Event)
    requires n <= |rups| && Occurring(rups, occ)
    ensures multiset(EventsOf(rups, n, occ))[ev] ==
      if ev.rupId < n then multiset(EventsOfRup(rups[ev.rupId], occ))[ev] else 0
  {
    hide EventsOfRup;
    if n > 0 {
      OwnEvents(rups, n - 1, occ, ev);
      NotOwn(rups[n - 1], occ, ev);
    }
  }

  lemma {:induction false} NotOwn(rup: Rup, occ: Rup -> EidsByRlz, ev: Event)
    ensures ev.rupId != rup.id ==> multiset(EventsOfRup(rup, occ))[ev] == 0
  {
    OfOneRup(rup, occ(rup), |occ(rup)|);
    assert ev in EventsOfRup(rup, occ) <==> ev in multiset(EventsOfRup(rup, occ));
  }

  // ---- the sorted table ----

  predicate ByRup(a: Event, b: Event) {
    a.rupId <= b.rupId
  }

  function RupIds(events: seq<Event>): (r: seq<nat>)
    ensures |r| == |events| && forall j :: 0 <= j < |r| ==> r[j] == events[j].rupId
  {
    seq(|events|, j requires 0 <= j < |events| => events[j].rupId)
  }

  function RlzIds(events: seq<Event>): (r: seq<nat>)
    ensures |r| == |events| && forall j :: 0 <= j < |r| ==> r[j] == events[j].rlzId
  {
    seq(|events|, j requires 0 <= j < |events| => events[j].rlzId)
  }

  /** The events of all ruptures, sorted by rupture. */
  ghost predicate IsTable(rups: seq<Rup>, occ: Rup -> EidsByRlz, events: seq<Event>) {
    && Occurring(rups, occ)
    && multiset(events) == multiset(EventsOf(rups, |rups|, occ))
    && SortedBy(events, ByRup)
  }

  lemma {:induction false} InTable(rups: seq<Rup>, occ: Rup -> EidsByRlz, events: seq<Event>, ev: Event)
    requires IsTable(rups, occ, events)
    ensures multiset(events)[ev] == if ev.rupId < |rups| then multiset(EventsOfRup(rups[ev.rupId], occ))[ev] else 0
  {
    OwnEvents(rups, |rups|, occ, ev);
  }

  lemma {:induction false} AllRupsOccur(rups: seq<Rup>, occ: Rup -> EidsByRlz, events: seq<Event>)
    requires IsTable(rups, occ, events)
    ensures Sorted(RupIds(events)) && AllOccur(RupIds(events), |rups|)
    ensures forall j :: 0 <= j < |events| ==> RupIds(events)[j] < |rups|
  {
    OccurringLength(rups, occ);
    hide EventsOfRup;
    var ids := RupIds(events);
    forall i, j | 0 <= i < j < |ids| ensures ids[i] <= ids[j] {
      assert ByRup(events[i], events[j]);
    }
    forall j | 0 <= j < |events| ensures ids[j] < |rups| {
      InTable(rups, occ, events, events[j]);
      assert events[j] in multiset(events);
    }
    forall k | 0 <= k < |rups| ensures k in ids {
      var own := EventsOfRup(rups[k], occ);
      assert own[0] in multiset(own);
      NotOwn(rups[k], occ, own[0]);
      InTable(rups, occ, events, own[0]);
      assert own[0] in events;
      var j :| 0 <= j < |events| && events[j] == own[0];
      assert ids[j] == k;
    }
  }

  /** Outside of the run of `k` there is no `k`. */
  lemma {:induction false} OutsideRun(ints: seq<nat>, n: nat, k: nat, p: nat)
    requires Sorted(ints) && AllOccur(ints, n) && k < n && p < |ints| && ints[p] == k
    ensures k < |Runs(ints)| && Runs(ints)[k].start <= p < Runs(ints)[k].stop
  {
    var runs := Runs(ints);
    RunsTile(ints, |ints|);
    SortedRunsIncrease(ints, runs, |runs|);
    RunOfValue(ints, runs, n, k);
    var j := RunAt(ints, runs, p, |runs|);
    assert Constant(ints, |ints|, runs[j]);
  }

  lemma {:induction false} RunFacts(ints: seq<nat>, n: nat, k: nat)
    requires Sorted(ints) && AllOccur(ints, n) && k < n
    ensures k < |Runs(ints)| && Constant(ints, |ints|, Runs(ints)[k]) && Runs(ints)[k].value == k
    ensures k == 0 ==> Runs(ints)[k].start == 0
    ensures k > 0 ==> Runs(ints)[k - 1].stop == Runs(ints)[k].start
  {
    var runs := Runs(ints);
    RunsTile(ints, |ints|);
    SortedRunsIncrease(ints, runs, |runs|);
    RunOfValue(ints, runs, n, k);
    if k > 0 {
      assert Adjacent(runs[k - 1], runs[k]);
    }
  }

  lemma {:induction false} CountSplit(events: seq<Event>, s: nat, e: nat, ev: Event)
    requires s <= e <= |events|
    requires forall p :: 0 <= p < |events| && events[p] == ev ==> s <= p < e
    ensures multiset(events[s..e])[ev] == multiset(events)[ev]
  {
    var a, b, c := events[..s], events[s..e], events[e..];
    assert events == a + b + c;
    assert ev !in a && ev !in c;
    assert ev !in multiset(a) && ev !in multiset(c);
  }

  /** The run of a rupture holds exactly its events. */
  lemma {:induction false} RunHoldsEvents(rups: seq<Rup>, occ: Rup -> EidsByRlz, events: seq<Event>, k: nat)
    requires IsTable(rups, occ, events) && k < |rups|
    ensures var runs := Runs(RupIds(events));
      k < |runs| && runs[k].start <= runs[k].stop <= |events|
      && multiset(events[runs[k].start..runs[k].stop]) == multiset(EventsOfRup(rups[k], occ))
  {
    hide EventsOfRup, RunsTo, EventsOf;
    var ids, own := RupIds(events), EventsOfRup(rups[k], occ);
    AllRupsOccur(rups, occ, events);
    RunFacts(ids, |rups|, k);
    var run := Runs(ids)[k];
    var slice := events[run.start..run.stop];
    forall ev: Event ensures multiset(slice)[ev] == multiset(own)[ev] {
      if ev.rupId == k {
        InTable(rups, occ, events, ev);
        forall p | 0 <= p < |events| && events[p] == ev ensures run.start <= p < run.stop {
          OutsideRun(ids, |rups|, k, p);
        }
        CountSplit(events, run.start, run.stop, ev);
      } else {
        NotOwn(rups[k], occ, ev);
      }
    }
  }

  /** Before the events are numbered, the run of a rupture has the numbers given with each realization. */
  lemma {:induction false} RunHoldsGiven(
    rups: seq<Rup>, occ: Rup -> EidsByRlz, events: seq<Event>, k: nat, eid: nat, rlz: nat)
    requires IsTable(rups, occ, events) && k < |rups|
    ensures var runs, groups := Runs(RupIds(events)), occ(rups[k]);
      k < |runs| && runs[k].start <= runs[k].stop <= |events|
      && multiset(events[runs[k].start..runs[k].stop])[Event(eid + rups[k].e0, k, rlz)]
           == Given(groups, |groups|, eid, rlz)
  {
    RunHoldsEvents(rups, occ, events, k);
    CountOfRup(rups[k], occ, Event(eid + rups[k].e0, k, rlz));
    assert rups[k].id == k;
    hide RunsTo, IsTable, EventsOf, EventsOfRup, RupIds, Given, SortedBy, Occurring;
  }

  lemma {:induction false} SameSize<X>(xs: seq<X>, ys: seq<X>)
    requires multiset(xs) == multiset(ys)
    ensures |xs| == |ys|
  {
    assert |multiset(xs)| == |xs| && |multiset(ys)| == |ys|;
  }

  /** The run of the `k`-th rupture starts after as many events as the ruptures before it have. */
  lemma {:induction false} RunSpans(rups: seq<Rup>, occ: Rup -> EidsByRlz, events: seq<Event>, k: nat)
    requires IsTable(rups, occ, events) && k < |rups|
    ensures var runs := Runs(RupIds(events));
      k < |runs| && runs[k].start == SumOcc(rups, k) && runs[k].stop == SumOcc(rups, k + 1)
    decreases k
  {
    OccurringLength(rups, occ);
    hide EventsOfRup, RunsTo, EventsOf, GivenAll;
    var ids := RupIds(events);
    AllRupsOccur(rups, occ, events);
    RunFacts(ids, |rups|, k);
    RunHoldsEvents(rups, occ, events, k);
    SameSize(events[Runs(ids)[k].start..Runs(ids)[k].stop], EventsOfRup(rups[k], occ));
    if k > 0 {
      RunSpans(rups, occ, events, k - 1);
    }
  }

  // ---- the sanity check ----

  function Ids(events: seq<Event>): (r: seq<nat>)
    ensures |r| == |events| && forall j :: 0 <= j < |r| ==> r[j] == events[j].id
  {
    seq(|events|, j requires 0 <= j < |events| => events[j].id)
  }

  ghost predicate Distinct(xs: seq<nat>) {
    forall i, j :: 0 <= i < j < |xs| ==> xs[i] != xs[j]
  }

  /** No two events have the same number and rupture. */
  ghost predicate Unique(events: seq<Event>) {
    forall i, j :: 0 <= i < j < |events| ==> events[i].id != events[j].id || events[i].rupId != events[j].rupId
  }

  lemma {:induction false} IdsIsBag(events: seq<Event>, b: Event -> multiset<nat>)
    requires forall ev :: b(ev) == multiset{ev.id}
    ensures multiset(Ids(events)) == Bag(b, events)
  {
    if events == [] {
    } else {
      IdsIsBag(events[1..], b);
      assert Ids(events) == [events[0].id] + Ids(events[1..]);
    }
  }

  lemma {:induction false} SameDistinct(xs: seq<Event>, ys: seq<Event>)
    requires multiset(xs) == multiset(ys) && Distinct(Ids(xs))
    ensures Distinct(Ids(ys))
  {
    var b := (ev: Event) => multiset{ev.id};
    IdsIsBag(xs, b);
    IdsIsBag(ys, b);
    BagPermutation(b, xs, ys);
    var ids := Ids(ys);
    forall i, j | 0 <= i < j < |ids| ensures ids[i] != ids[j] {
      if ids[i] == ids[j] {
        TwiceIsTwo(ids, i, j);
        OnceIsOne(Ids(xs), ids[i]);
      }
    }
  }

  /** The sanity check passes if and only if no rupture has an event number twice. */
  lemma {:induction false} SanityCheckIff(rups: seq<Rup>, occ: Rup -> EidsByRlz, events: seq<Event>)
    requires IsTable(rups, occ, events)
    ensures Unique(events) <==> forall k :: 0 <= k < |rups| ==> Distinct(Ids(EventsOfRup(rups[k], occ)))
  {
    hide EventsOfRup, RunsTo, EventsOf, IsTable;
    var ids := RupIds(events);
    AllRupsOccur(rups, occ, events);
    forall k | 0 <= k < |rups| && Unique(events) ensures Distinct(Ids(EventsOfRup(rups[k], occ))) {
      RunFacts(ids, |rups|, k);
      RunHoldsEvents(rups, occ, events, k);
      SameDistinct(events[Runs(ids)[k].start..Runs(ids)[k].stop], EventsOfRup(rups[k], occ));
    }
    if forall k :: 0 <= k < |rups| ==> Distinct(Ids(EventsOfRup(rups[k], occ))) {
      forall i, j | 0 <= i < j < |events|
        ensures events[i].id != events[j].id || events[i].rupId != events[j].rupId
      {
        if events[i].rupId == events[j].rupId {
          var k := ids[i];
          OutsideRun(ids, |rups|, k, i);
          OutsideRun(ids, |rups|, k, j);
          RunHoldsEvents(rups, occ, events, k);
          var run := Runs(ids)[k];
          var slice := events[run.start..run.stop];
          SameDistinct(EventsOfRup(rups[k], occ), slice);
          assert Ids(slice)[i - run.start] == events[i].id && Ids(slice)[j - run.start] == events[j].id;
        }
      }
    }
  }

  /** The pairs of numbers of the first `n` events. */
  function Pairs(events: seq<Event>, n: nat): set<(nat, nat)>
    requires n <= |events|
  {
    set j | 0 <= j < n :: (events[j].id, events[j].rupId)
  }

  lemma {:induction false} LastIsNew(events: seq<Event>, n: nat)
    requires n < |events|
    ensures Unique(events[..n + 1]) <==>
      Unique(events[..n]) && (events[n].id, events[n].rupId) !in Pairs(events, n)
  {
    var head, all, pair := events[..n], events[..n + 1], (events[n].id, events[n].rupId);
    assert forall i :: 0 <= i < n ==> head[i] == all[i] == events[i];
    if pair in Pairs(events, n) {
      var j :| 0 <= j < n && pair == (events[j].id, events[j].rupId);
      assert all[j].id == all[n].id && all[j].rupId == all[n].rupId;
    } else if Unique(head) {
      forall i, j | 0 <= i < j <= n ensures all[i].id != all[j].id || all[i].rupId != all[j].rupId {
        if j < n {
          assert head[i].id != head[j].id || head[i].rupId != head[j].rupId;
        } else {
          assert (events[i].id, events[i].rupId) in Pairs(events, n);
        }
      }
    }
  }

  /** There are as many different pairs as events exactly when no pair occurs twice. */
  lemma {:induction false} CountPairs(events: seq<Event>, n: nat)
    requires n <= |events|
    ensures |Pairs(events, n)| <= n
    ensures |Pairs(events, n)| == n <==> Unique(events[..n])
  {
    if n == 0 {
      assert Pairs(events, 0) == {};
    } else {
      CountPairs(events, n - 1);
      LastIsNew(events, n - 1);
      hide Unique;
      assert Pairs(events, n) == Pairs(events, n - 1) + {(events[n - 1].id, events[n - 1].rupId)};
    }
  }

  // ---- saving the events ----

  function Numbered(events: seq<Event>): (r: seq<Event>)
    ensures |r| == |events| && forall j :: 0 <= j < |r| ==> r[j] == events[j].(id := j)
  {
    seq(|events|, j requires 0 <= j < |events| => events[j].(id := j))
  }

  /** The span of a rupture holds its events and no others, and the spans follow each other. */
  ghost predicate Spanned(rups: seq<Rup>, occ: Rup -> EidsByRlz, events: seq<Event>, indexed: Rup, k: nat)
    requires k < |rups|
  {
    && indexed == rups[k].(e0 := indexed.e0, e1 := indexed.e1)
    && indexed.e0 == SumOcc(rups, k) && indexed.e1 == SumOcc(rups, k) + rups[k].core.nOcc <= |events|
    && (forall j :: 0 <= j < |events| ==> (events[j].rupId == k <==> indexed.e0 <= j < indexed.e1))
    && forall rlz :: RowsOf(events, indexed.e0, indexed.e1, rlz) == GivenRlz(occ(rups[k]), |occ(rups[k])|, rlz)
  }

  /** How many rows from `lo` to `hi` have a realization. */
  function RowsOf(events: seq<Event>, lo: nat, hi: nat, rlz: nat): nat
    requires hi <= |events|
  {
    if hi <= lo then 0 else RowsOf(events, lo, hi - 1, rlz) + if events[hi - 1].rlzId == rlz then 1 else 0
  }

  lemma {:induction false} RowsCount(events: seq<Event>, lo: nat, hi: nat, rlz: nat)
    requires lo <= hi <= |events|
    ensures RowsOf(events, lo, hi, rlz) == multiset(RlzIds(events[lo..hi]))[rlz]
    decreases hi
  {
    if lo == hi {
    } else {
      var before, last := RlzIds(events[lo..hi - 1]), events[hi - 1].rlzId;
      assert RlzIds(events[lo..hi]) == before + [last];
      RowsCount(events, lo, hi - 1, rlz);
      hide RlzIds;
      CountSnoc(before, last, rlz);
    }
  }

  lemma {:induction false} RlzsOfRlz(rup: Rup, rlz: nat, eids: seq<nat>, r: nat)
    ensures multiset(RlzIds(EventsOfRlz(rup, rlz, eids, |eids|)))[r] == if r == rlz then |eids| else 0
  {
    var events := EventsOfRlz(rup, rlz, eids, |eids|);
    LengthOfRlz(rup, rlz, eids, |eids|);
    AllEqual(RlzIds(events), rlz, r);
  }

  lemma {:induction false} AllEqual(xs: seq<nat>, x: nat, y: nat)
    requires forall i :: 0 <= i < |xs| ==> xs[i] == x
    ensures multiset(xs)[y] == if y == x then |xs| else 0
  {
    if xs == [] {
    } else {
      AllEqual(xs[1..], x, y);
      assert xs == [xs[0]] + xs[1..];
    }
  }

  lemma {:induction false} RlzsOfRup(rup: Rup, groups: EidsByRlz, n: nat, r: nat)
    requires n <= |groups|
    ensures multiset(RlzIds(EventsOfRlzs(rup, groups, n)))[r] == GivenRlz(groups, n, r)
  {
    if n == 0 {
    } else {
      var head := EventsOfRlzs(rup, groups, n - 1);
      var last := EventsOfRlz(rup, groups[n - 1].0, groups[n - 1].1, |groups[n - 1].1|);
      RlzsOfRup(rup, groups, n - 1, r);
      RlzsOfRlz(rup, groups[n - 1].0, groups[n - 1].1, r);
      assert RlzIds(head + last) == RlzIds(head) + RlzIds(last);
    }
  }

  lemma {:induction false} RlzIsBag(events: seq<Event>, b: Event -> multiset<nat>)
    requires forall ev :: b(ev) == multiset{ev.rlzId}
    ensures multiset(RlzIds(events)) == Bag(b, events)
  {
    if events == [] {
    } else {
      RlzIsBag(events[1..], b);
      assert RlzIds(events) == [events[0].rlzId] + RlzIds(events[1..]);
    }
  }

  lemma {:induction false} SameRlzs(xs: seq<Event>, ys: seq<Event>)
    requires multiset(xs) == multiset(ys)
    ensures multiset(RlzIds(xs)) == multiset(RlzIds(ys))
  {
    var b := (ev: Event) => multiset{ev.rlzId};
    RlzIsBag(xs, b);
    RlzIsBag(ys, b);
    BagPermutation(b, xs, ys);
  }

  lemma {:induction false} RlzsOfRun(rup: Rup, occ: Rup -> EidsByRlz, run: seq<Event>, rlz: nat)
    requires multiset(run) == multiset(EventsOfRup(rup, occ))
    ensures multiset(RlzIds(run))[rlz] == GivenRlz(occ(rup), |occ(rup)|, rlz)
  {
    SameRlzs(run, EventsOfRup(rup, occ));
    RlzsOfRup(rup, occ(rup), |occ(rup)|, rlz);
  }

  lemma {:induction false} OneMoreOcc(rups: seq<Rup>, k: nat)
    requires k < |rups|
    ensures SumOcc(rups, k + 1) == SumOcc(rups, k) + rups[k].core.nOcc
  {
  }

  lemma {:induction false} SpanOfRun(rups: seq<Rup>, occ: Rup -> EidsByRlz, sorted: seq<Event>, k: nat, indexed: Rup)
    requires IsTable(rups, occ, sorted) && k < |rups| && k < |Runs(RupIds(sorted))|
    requires indexed == rups[k].(e0 := Runs(RupIds(sorted))[k].start, e1 := Runs(RupIds(sorted))[k].stop)
    ensures Spanned(rups, occ, Numbered(sorted), indexed, k)
  {
    hide EventsOfRup, RunsTo, EventsOf, SumOcc;
    OneMoreOcc(rups, k);
    var ids, events := RupIds(sorted), Numbered(sorted);
    AllRupsOccur(rups, occ, sorted);
    RunSpans(rups, occ, sorted, k);
    RunHoldsEvents(rups, occ, sorted, k);
    RunFacts(ids, |rups|, k);
    forall j | 0 <= j < |events| ensures events[j].rupId == k <==> indexed.e0 <= j < indexed.e1 {
      assert ids[j] == events[j].rupId;
      if ids[j] == k {
        OutsideRun(ids, |rups|, k, j);
      }
    }
    forall rlz ensures RowsOf(events, indexed.e0, indexed.e1, rlz) == GivenRlz(occ(rups[k]), |occ(rups[k])|, rlz) {
      RowsCount(events, indexed.e0, indexed.e1, rlz);
      RlzsOfRun(rups[k], occ, sorted[indexed.e0..indexed.e1], rlz);
      assert RlzIds(events[indexed.e0..indexed.e1]) == RlzIds(sorted[indexed.e0..indexed.e1]);
    }
  }

  lemma {:induction false} ConcatFits<X>(lists: seq<seq<X>>, n: nat, m: nat)
    requires n < m <= |lists|
    ensures |ConcatTo(lists, n)| + |lists[n]| <= |ConcatTo(lists, m)|
  {
    if n + 1 >= m {
    } else {
      ConcatFits(lists, n, m - 1);
    }
  }

  /** The table is filled in the order in which the results come. */
  method FillEvents(results: seq<seq<Event>>, total: nat) returns (events: array<Event>)
    requires |Concat(results)| == total
    ensures events[..] == Concat(results)
  {
    events := new Event[total](_ => Event(0, 0, 0));
    var i := 0;
    for b := 0 to |results|
      invariant i == |ConcatTo(results, b)| <= events.Length && events[..i] == ConcatTo(results, b)
    {
      ConcatFits(results, b, |results|);
      for j := 0 to |results[b]|
        invariant i == |ConcatTo(results, b)| + j
        invariant events[..i] == ConcatTo(results, b) + results[b][..j]
      {
        events[i] := results[b][j];
        i := i + 1;
      }
    }
  }

  /** The spans of the sorted and numbered events; the ruptures are numbered like the keys. */
  method SaveSpans(rups: seq<Rup>, sorted: seq<Event>, ghost occ: Rup -> EidsByRlz) returns (indexed: seq<Rup>)
    requires IsTable(rups, occ, sorted)
    ensures |indexed| == |rups|
    ensures forall k :: 0 <= k < |rups| ==> Spanned(rups, occ, Numbered(sorted), indexed[k], k)
  {
    hide EventsOfRup, RunsTo, EventsOf, Spanned, Indexes, IsIndex, IsTable, Sorted, AllOccur;
    var keys, indices := GetIndices(RupIds(Numbered(sorted)));
    assert RupIds(Numbered(sorted)) == RupIds(sorted);
    AllRupsOccur(rups, occ, sorted);
    SortedIndex(RupIds(sorted), |rups|, keys, indices);
    indexed := rups;
    for k := 0 to |keys|
      invariant |indexed| == |rups|
      invariant forall j :: k <= j < |rups| ==> indexed[j] == rups[j]
      invariant forall j :: 0 <= j < k ==> Spanned(rups, occ, Numbered(sorted), indexed[j], j)
    {
      var span := indices[keys[k]][0];
      indexed := indexed[k := indexed[k].(e0 := span.0, e1 := span.1)];
      SpanOfRun(rups, occ, sorted, k, indexed[k]);
    }
  }

  /** No event number is given twice for a rupture. */
  ghost predicate NumbersOnce(rups: seq<Rup>, occ: Rup -> EidsByRlz) {
    forall k :: 0 <= k < |rups| ==> EachOnce(occ(rups[k]))
  }

  ghost predicate EachOnce(groups: EidsByRlz) {
    forall eid: nat :: GivenEid(groups, |groups|, eid) <= 1
  }

  lemma {:induction false} IdsOfRlz(rup: Rup, rlz: nat, eids: seq<nat>, n: nat, x: nat)
    requires n <= |eids|
    ensures multiset(Ids(EventsOfRlz(rup, rlz, eids, n)))[x] == if x >= rup.e0 then Times(eids, n, x - rup.e0) else 0
  {
    if n == 0 {
    } else {
      var before, last := EventsOfRlz(rup, rlz, eids, n - 1), Event(eids[n - 1] + rup.e0, rup.id, rlz);
      assert Ids(before + [last]) == Ids(before) + [last.id];
      IdsOfRlz(rup, rlz, eids, n - 1, x);
      hide Ids;
      CountSnoc(Ids(before), last.id, x);
    }
  }

  lemma {:induction false} IdsOfRlzs(rup: Rup, groups: EidsByRlz, n: nat, x: nat)
    requires n <= |groups|
    ensures multiset(Ids(EventsOfRlzs(rup, groups, n)))[x] == if x >= rup.e0 then GivenEid(groups, n, x - rup.e0) else 0
  {
    if n == 0 {
    } else {
      var rlz, eids := groups[n - 1].0, groups[n - 1].1;
      var before, last := EventsOfRlzs(rup, groups, n - 1), EventsOfRlz(rup, rlz, eids, |eids|);
      assert Ids(before + last) == Ids(before) + Ids(last);
      hide EventsOfRlz, Ids, Times;
      IdsOfRlzs(rup, groups, n - 1, x);
      IdsOfRlz(rup, rlz, eids, |eids|, x);
      CountAppend(Ids(before), Ids(last), x);
    }
  }

  lemma {:induction false} DistinctIff(xs: seq<nat>)
    ensures Distinct(xs) <==> forall x: nat :: multiset(xs)[x] <= 1
  {
    if Distinct(xs) {
      forall x: nat ensures multiset(xs)[x] <= 1 {
        OnceIsOne(xs, x);
      }
    } else {
      var i, j :| 0 <= i < j < |xs| && xs[i] == xs[j];
      TwiceIsTwo(xs, i, j);
    }
  }

  lemma {:induction false} EachOnceIff(rup: Rup, occ: Rup -> EidsByRlz)
    ensures Distinct(Ids(EventsOfRup(rup, occ))) <==> EachOnce(occ(rup))
  {
    var ids: seq<nat>, groups := Ids(EventsOfRup(rup, occ)), occ(rup);
    forall x: nat ensures multiset(ids)[x] == if x >= rup.e0 then GivenEid(groups, |groups|, x - rup.e0) else 0 {
      IdsOfRlzs(rup, groups, |groups|, x);
    }
    hide Distinct, EventsOfRlzs, GivenEid;
    DistinctIff(ids);
    if forall x: nat :: multiset(ids)[x] <= 1 {
      forall eid: nat ensures GivenEid(groups, |groups|, eid) <= 1 {
        assert multiset(ids)[eid + rup.e0] <= 1;
      }
    }
  }

  // ---- the numbers given ----

  function Sum(histo: seq<nat>, n: nat): nat
    requires n <= |histo|
  {
    if n == 0 then 0 else Sum(histo, n - 1) + histo[n - 1]
  }

  /** The numbers from `lo` to `hi`. */
  function Arange(lo: nat, hi: nat): (r: seq<nat>)
    requires lo <= hi
    ensures |r| == hi - lo && forall i :: 0 <= i < |r| ==> r[i] == lo + i
  {
    seq(hi - lo, i requires 0 <= i => lo + i)
  }

  lemma {:induction false} TimesInRange(lo: nat, hi: nat, n: nat, eid: nat)
    requires lo <= hi && n <= hi - lo
    ensures Times(Arange(lo, hi), n, eid) == if lo <= eid < lo + n then 1 else 0
  {
    if n == 0 {
    } else {
      TimesInRange(lo, hi, n - 1, eid);
    }
  }

  /**
   The events of a rupture, as many for each realization as a random histogram says, are
   numbered one after the other: each number below the total is given once.
   */
  method GetEidsByRlz(rlzs: seq<nat>, histo: seq<nat>) returns (groups: EidsByRlz)
    requires |rlzs| == |histo| && forall i, j :: 0 <= i < j < |rlzs| ==> rlzs[i] != rlzs[j]
    ensures |groups| == |rlzs|
    ensures forall i :: 0 <= i < |rlzs| ==> groups[i].0 == rlzs[i] && |groups[i].1| == histo[i]
    ensures GivenAll(groups, |groups|) == Sum(histo, |histo|)
    ensures forall eid: nat :: GivenEid(groups, |groups|, eid) == if eid < Sum(histo, |histo|) then 1 else 0
  {
    groups := [];
    var j := 0;
    for i := 0 to |rlzs|
      invariant |groups| == i && j == Sum(histo, i) == GivenAll(groups, i)
      invariant forall k :: 0 <= k < i ==> groups[k].0 == rlzs[k] && |groups[k].1| == histo[k]
      invariant forall eid: nat :: GivenEid(groups, i, eid) == if eid < j then 1 else 0
    {
      ghost var before := groups;
      var eids := Arange(j, j + histo[i]);
      groups := groups + [(rlzs[i], eids)];
      GivenPrefix(before, (rlzs[i], eids), i);
      ghost var m := i + 1;
      forall eid: nat ensures GivenEid(groups, m, eid) == if eid < j + histo[i] then 1 else 0 {
        TimesInRange(j, j + histo[i], histo[i], eid);
      }
      j := j + histo[i];
    }
  }

  lemma {:induction false} GivenPrefix(groups: EidsByRlz, last: (nat, seq<nat>), n: nat)
    requires n <= |groups|
    ensures GivenAll(groups + [last], n) == GivenAll(groups, n)
    ensures forall eid: nat :: GivenEid(groups + [last], n, eid) == GivenEid(groups, n, eid)
  {
    if n == 0 {
    } else {
      GivenPrefix(groups, last, n - 1);
      hide Times;
    }
  }

  /** When the sanity check fails nothing is saved. */
  method SaveEvents(rups: seq<Rup>, results: seq<seq<Event>>, ghost occ: Rup -> EidsByRlz)
    returns (ok: bool, events: seq<Event>, indexed: seq<Rup>)
    requires Occurring(rups, occ) && multiset(Concat(results)) == multiset(EventsOf(rups, |rups|, occ))
    ensures ok <==> NumbersOnce(rups, occ)
    ensures !ok ==> events == [] && indexed == rups
    ensures ok ==> |events| == SumOcc(rups, |rups|) && forall j :: 0 <= j < |events| ==> events[j].id == j
    ensures ok ==> |indexed| == |rups| && forall k :: 0 <= k < |rups| ==> Spanned(rups, occ, events, indexed[k], k)
  {
    hide EventsOfRup, RunsTo, EventsOf, Spanned, Unique, Distinct, EachOnce;
    EventCount(rups, |rups|, occ);
    SameSize(Concat(results), EventsOf(rups, |rups|, occ));
    var total := TotalOcc(rups);
    var arr := FillEvents(results, total);
    assert TotalPreorder(ByRup);
    var sorted := Sort(arr[..], ByRup);
    SameSize(sorted, arr[..]);
    SanityCheckIff(rups, occ, sorted);
    forall k | 0 <= k < |rups| ensures Distinct(Ids(EventsOfRup(rups[k], occ))) <==> EachOnce(occ(rups[k])) {
      EachOnceIff(rups[k], occ);
    }
    CountPairs(sorted, |sorted|);
    assert sorted[..|sorted|] == sorted;
    ok, events, indexed := |Pairs(sorted, |sorted|)| == |sorted|, [], rups;
    if ok {
      events := Numbered(sorted);
      indexed := SaveSpans(rups, sorted, occ);
    }
  }

  /** There is a span for every rupture exactly when every rupture has an event. */
  lemma {:induction false} SpanForEachIff(
    n: nat, events: seq<Event>, keys: seq<nat>, indices: map<nat, seq<(nat, nat)>>)
    requires SortedBy(events, ByRup) && forall j :: 0 <= j < |events| ==> events[j].rupId < n
    requires Indexes(Runs(RupIds(events)), keys, indices)
    ensures |keys| == n <==> forall k :: 0 <= k < n ==> k in RupIds(events)
  {
    assert Sorted(RupIds(events)) by {
      forall i, j | 0 <= i < j < |events| ensures RupIds(events)[i] <= RupIds(events)[j] {
        assert ByRup(events[i], events[j]);
      }
    }
    SortedIndex(RupIds(events), n, keys, indices);
  }
}
