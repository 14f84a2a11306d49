/** Cutting the ruptures in blocks for the tasks, and the whole import of the ruptures and events. */
module RuptureGetters {
  import opened Folds
  import opened Sorting
  import opened BlockSplitter
  import opened SplitterTheorems
  import opened Ruptures
  import opened Events
  import P = TaskProtocol
  import R = Reduce
  import S = StarmapLoop
  import W = WorkSplit

  predicate ByEtId(a: Rup, b: Rup) {
    a.core.etId <= b.core.etId
  }

  function ItemsOf(rups: seq<Rup>): (items: seq<Item<Rup>>)
    ensures |items| == |rups|
    ensures forall i :: 0 <= i < |items| ==>
      items[i] == Item(rups[i], rups[i].core.nOcc as real, Key.Key(rups[i].core.etId))
  {
    seq(|rups|, i requires 0 <= i < |rups| => Item(rups[i], rups[i].core.nOcc as real, Key.Key(rups[i].core.etId)))
  }

  function Proxies(blocks: seq<Block<Rup>>): (r: seq<seq<Rup>>)
    ensures |r| == |blocks| && forall b :: 0 <= b < |r| ==> r[b] == W.Values(blocks[b].items)
  {
    seq(|blocks|, b requires 0 <= b < |blocks| => W.Values(blocks[b].items))
  }

  lemma {:induction false} ProxiesConcat(blocks: seq<Block<Rup>>, n: nat)
    requires n <= |blocks|
    ensures ConcatTo(Proxies(blocks), n) == W.Values(FlattenTo(blocks, n))
  {
    if n == 0 {
    } else {
      ProxiesConcat(blocks, n - 1);
      var a, b := FlattenTo(blocks, n - 1), blocks[n - 1].items;
      assert W.Values(a + b) == W.Values(a) + W.Values(b);
    }
  }

  /** The ruptures of a block have one group only. */
  ghost predicate OneGroup(proxies: seq<Rup>) {
    proxies != [] && forall i :: 0 <= i < |proxies| ==> proxies[i].core.etId == proxies[0].core.etId
  }

  ghost predicate EachOccurs(rups: seq<Rup>) {
    forall i :: 0 <= i < |rups| ==> rups[i].core.nOcc >= 1
  }

  ghost predicate AllIn(proxies: seq<Rup>, rups: seq<Rup>) {
    forall i :: 0 <= i < |proxies| ==> proxies[i] in rups
  }

  /**
   The blocks are the greedy split of the ruptures sorted by group, by their numbers of events;
   the maximum is the total divided by the number of tasks.
   */
  ghost predicate IsRuptureCut(rups: seq<Rup>, ct: nat, proxies: seq<seq<Rup>>) {
    exists sorted :: multiset(sorted) == multiset(rups) && AreGetters(sorted, ct, proxies)
  }

  ghost predicate AreGetters(sorted: seq<Rup>, ct: nat, proxies: seq<seq<Rup>>) {
    var items, maxw := ItemsOf(sorted), SumOcc(sorted, |sorted|) as real / (if ct == 0 then 1 else ct) as real;
    && (forall i, j :: 0 <= i < j < |sorted| ==> sorted[i].core.etId <= sorted[j].core.etId)
    && IsSplit(items, maxw, |items|, Blocks(items, maxw), Starts(items, maxw))
    && |proxies| == |Blocks(items, maxw)|
    && forall b :: 0 <= b < |proxies| ==> proxies[b] == W.Values(Blocks(items, maxw)[b].items)
  }

  method GenRuptureGetters(rups: seq<Rup>, ct: nat) returns (proxies: seq<seq<Rup>>, error: SplitError<Rup>)
    ensures rups != [] && EachOccurs(rups) ==> error.NoError?
    ensures error.NoError? && EachOccurs(rups) ==>
      multiset(Concat(proxies)) == multiset(rups)
    ensures error.NoError? ==> forall b :: 0 <= b < |proxies| ==> OneGroup(proxies[b])
    ensures forall b :: 0 <= b < |proxies| ==> AllIn(proxies[b], rups)
    ensures rups == [] ==> error.BadMaxWeight?
    ensures !error.NoError? ==> proxies == []
    ensures error.NoError? ==> IsRuptureCut(rups, ct, proxies)
  {
    hide AllIn, OneGroup, IsRuptureCut, EachOccurs, Concat;
    assert TotalPreorder(ByEtId);
    var sorted := Sort(rups, ByEtId);
    assert forall i, j :: 0 <= i < j < |sorted| ==> ByEtId(sorted[i], sorted[j]);
    proxies, error := CutSorted(rups, sorted, ct);
  }

  /** The ruptures sorted by group are cut in blocks. */
  method CutSorted(ghost rups: seq<Rup>, sorted: seq<Rup>, ct: nat)
    returns (proxies: seq<seq<Rup>>, error: SplitError<Rup>)
    requires multiset(sorted) == multiset(rups)
    requires forall i, j :: 0 <= i < j < |sorted| ==> sorted[i].core.etId <= sorted[j].core.etId
    ensures rups != [] && EachOccurs(rups) ==> error.NoError?
    ensures error.NoError? && EachOccurs(rups) ==> multiset(Concat(proxies)) == multiset(rups)
    ensures error.NoError? ==> forall b :: 0 <= b < |proxies| ==> OneGroup(proxies[b])
    ensures forall b :: 0 <= b < |proxies| ==> AllIn(proxies[b], rups)
    ensures rups == [] ==> error.BadMaxWeight?
    ensures !error.NoError? ==> proxies == []
    ensures error.NoError? ==> IsRuptureCut(rups, ct, proxies)
  {
    PermutationLength(rups, sorted);
    var total := TotalOcc(sorted);
    assert rups == [] ==> total == 0;
    hide Blocks, Concat, OneGroup, AllIn, SumOcc, IsRuptureCut, Proxies, EachOccurs, AllPositive;
    PositiveTotal(rups, sorted);
    var maxw := total as real / (if ct == 0 then 1 else ct) as real;
    var blocks, e := Split(ItemsOf(sorted), maxw);
    hide ItemsOf;
    proxies, error := [], e;
    if e.NoError? {
      proxies := Proxies(blocks);
      CutIs(rups, sorted, ct, maxw);
    }
    AboutBlocks(rups, sorted, maxw);
  }

  lemma {:induction false} CutIs(rups: seq<Rup>, sorted: seq<Rup>, ct: nat, maxw: real)
    requires multiset(sorted) == multiset(rups) && maxw > 0.0 && NonNegative(ItemsOf(sorted), |sorted|)
    requires maxw == SumOcc(sorted, |sorted|) as real / (if ct == 0 then 1 else ct) as real
    requires forall i, j :: 0 <= i < j < |sorted| ==> sorted[i].core.etId <= sorted[j].core.etId
    ensures IsRuptureCut(rups, ct, Proxies(Blocks(ItemsOf(sorted), maxw)))
  {
    ScanIsSplit(ItemsOf(sorted), maxw, |sorted|);
    hide ScanTo;
    assert AreGetters(sorted, ct, Proxies(Blocks(ItemsOf(sorted), maxw)));
  }

  lemma {:induction false} PositiveTotal(rups: seq<Rup>, sorted: seq<Rup>)
    requires multiset(sorted) == multiset(rups)
    ensures EachOccurs(rups) ==>
      AllPositive(ItemsOf(sorted)) && SumOcc(sorted, |sorted|) >= |rups|
    ensures NonNegative(ItemsOf(sorted), |sorted|)
  {
    PermutationLength(rups, sorted);
    if EachOccurs(rups) {
      forall i | 0 <= i < |sorted| ensures sorted[i].core.nOcc >= 1 {
        assert sorted[i] in rups;
      }
      AtLeastOneEach(sorted, |sorted|);
    }
  }

  lemma {:induction false} AtLeastOneEach(rups: seq<Rup>, n: nat)
    requires n <= |rups| && EachOccurs(rups)
    ensures SumOcc(rups, n) >= n
  {
    if n == 0 {
    } else {
      AtLeastOneEach(rups, n - 1);
    }
  }

  lemma {:induction false} AboutBlocks(rups: seq<Rup>, sorted: seq<Rup>, maxw: real)
    requires multiset(sorted) == multiset(rups)
    ensures maxw > 0.0 ==> forall b :: 0 <= b < |Blocks(ItemsOf(sorted), maxw)| ==>
      OneGroup(Proxies(Blocks(ItemsOf(sorted), maxw))[b]) && AllIn(Proxies(Blocks(ItemsOf(sorted), maxw))[b], rups)
    ensures maxw > 0.0 && EachOccurs(rups) ==>
      multiset(Concat(Proxies(Blocks(ItemsOf(sorted), maxw)))) == multiset(rups)
  {
    PositiveTotal(rups, sorted);
    if maxw > 0.0 {
      var items, blocks := ItemsOf(sorted), Blocks(ItemsOf(sorted), maxw);
      SplitterPartition(items, maxw);
      ProxiesConcat(blocks, |blocks|);
      assert W.Values(items) == sorted;
      forall b | 0 <= b < |blocks| ensures OneGroup(Proxies(blocks)[b]) && AllIn(Proxies(blocks)[b], rups) {
        assert IsBlock(blocks[b], maxw);
        BlockOfRups(sorted, maxw, b);
        SameElements(sorted, rups);
      }
    }
  }

  /** The items of a block carry ruptures, with their groups as keys. */
  lemma {:induction false} BlockOfRups(sorted: seq<Rup>, maxw: real, b: nat)
    requires maxw > 0.0 && NonNegative(ItemsOf(sorted), |sorted|) && b < |Blocks(ItemsOf(sorted), maxw)|
    ensures var xs := Blocks(ItemsOf(sorted), maxw)[b].items;
      forall i :: 0 <= i < |xs| ==> xs[i].key == Key.Key(xs[i].value.core.etId) && xs[i].value in sorted
  {
    var items := ItemsOf(sorted);
    var blocks, starts := Blocks(items, maxw), Starts(items, maxw);
    SplitterPartition(items, maxw);
    forall i | 0 <= i < |blocks[b].items|
      ensures blocks[b].items[i].key == Key.Key(blocks[b].items[i].value.core.etId)
      ensures blocks[b].items[i].value in sorted
    {
      InFlatten(blocks, |blocks|, b, blocks[b].items[i]);
      KeptMember(items, starts, 0, |items|, blocks[b].items[i]);
    }
  }

  lemma {:induction false} KeptMember<T>(items: seq<Item<T>>, starts: seq<nat>, lo: nat, hi: nat, x: Item<T>)
    requires hi <= |items| && x in KeptIn(items, starts, lo, hi)
    ensures x in items
  {
    if lo < hi && x in KeptIn(items, starts, lo, hi - 1) {
      KeptMember(items, starts, lo, hi - 1, x);
    }
  }

  /** A numbered row for each event, and for each rupture the span of its rows. */
  ghost predicate Indexed(rups: seq<Rup>, occ: Rup -> EidsByRlz, events: seq<Event>, indexed: seq<Rup>) {
    && |events| == SumOcc(rups, |rups|) && (forall j :: 0 <= j < |events| ==> events[j].id == j)
    && |indexed| == |rups| && (forall k :: 0 <= k < |rups| ==> Spanned(rups, occ, events, indexed[k], k))
  }

  /** What the tasks compute, block by block. */
  ghost function EventsByBlock(proxies: seq<seq<Rup>>, occ: Rup -> EidsByRlz): (r: seq<seq<Event>>)
    ensures |r| == |proxies| && forall b :: 0 <= b < |r| ==> r[b] == EventsOf(proxies[b], |proxies[b]|, occ)
  {
    seq(|proxies|, b requires 0 <= b < |proxies| => EventsOf(proxies[b], |proxies[b]|, occ))
  }

  /** Tasks with one result each send in all these results. */
  lemma {:induction false} OneResultEach<V>(values: seq<V>, tasks: seq<P.Task<V>>)
    requires |tasks| == |values| && forall i :: 0 <= i < |tasks| ==> tasks[i] == P.Out(values[i], P.End)
    ensures P.Values(P.ForestTrace(tasks)) == values
  {
    if tasks == [] {
    } else {
      OneResultEach(values[1..], tasks[1..]);
      var v, end: seq<P.Message<V>> := P.Value(values[0]), [P.TaskEnded];
      assert P.Trace(tasks[0]) == [v] + end;
      assert end[1..] == [] && ([v] + end)[1..] == end;
      assert P.Values(P.Trace(tasks[0])) == [values[0]];
      R.ValuesAppend(P.Trace(tasks[0]), P.ForestTrace(tasks[1..]));
    }
  }

  /** For small calculations block after block, else in tasks run by a Starmap. */
  method AssociateEvents(proxies: seq<seq<Rup>>, total: nat, occ: Rup -> EidsByRlz, cores: nat, foreign: nat)
    returns (results: seq<seq<Event>>)
    requires cores >= 1
    ensures multiset(results) == multiset(EventsByBlock(proxies, occ))
    ensures total < 100000 ==> results == EventsByBlock(proxies, occ)
  {
    hide EventsOf, P.Reaches;
    var sent: seq<seq<Event>> := [];
    for b := 0 to |proxies|
      invariant sent == EventsByBlock(proxies, occ)[..b]
    {
      var eidRlz := GetEidRlz(proxies[b], occ);
      sent := sent + [eidRlz];
    }
    assert sent == EventsByBlock(proxies, occ);
    if total < 100000 {
      results := sent;
    } else {
      var tasks := seq(|sent|, b requires 0 <= b < |sent| => P.Out(sent[b], P.End));
      var smap := new S.Starmap(cores);
      smap.SubmitAll(tasks, false);
      assert [] + tasks == tasks;
      var messages, run, final := smap.Loop(foreign);
      results := P.Values(messages);
      S.YieldedValues(final.log);
      P.ExactlyOnce(tasks, [], cores, run, final);
      assert tasks + [] == tasks;
      OneResultEach(sent, tasks);
    }
  }

  /** The whole import: blocks, events in any order, sanity check, table and index. */
  method ImportEvents(rups: seq<Rup>, ct: nat, occ: Rup -> EidsByRlz, cores: nat, foreign: nat)
    returns (ok: bool, events: seq<Event>, indexed: seq<Rup>)
    requires rups != [] && Occurring(rups, occ) && cores >= 1
    ensures ok <==> NumbersOnce(rups, occ)
    ensures ok ==> Indexed(rups, occ, events, indexed)
    ensures !ok ==> events == [] && indexed == rups
  {
    var proxies, error := GenRuptureGetters(rups, ct);
    var total := TotalOcc(rups);
    var results := AssociateEvents(proxies, total, occ, cores, foreign);
    TasksGiveAllEvents(rups, proxies, EventsByBlock(proxies, occ), results, occ);
    hide EventsOf, EventsOfRup, Spanned, NumbersOnce;
    ok, events, indexed := SaveEvents(rups, results, occ);
  }

  // ---- from the tasks that sample the ruptures to those that use them ----

  /** The proxies of each block. */
  method ReadBlocks<G>(blocks: seq<seq<Rup>>, rupgeoms: seq<G>, minMag: real) returns (found: seq<seq<Ebr<G>>>)
    requires forall b :: 0 <= b < |blocks| ==> LinksIn(blocks[b], rupgeoms)
    ensures |found| == |blocks|
    ensures forall b :: 0 <= b < |blocks| ==> IsFound(found[b], blocks[b], rupgeoms, minMag)
  {
    hide Strong;
    found := [];
    for b := 0 to |blocks|
      invariant |found| == b
      invariant forall a :: 0 <= a < b ==> IsFound(found[a], blocks[a], rupgeoms, minMag)
    {
      assert LinksIn(blocks[b], rupgeoms);
      var here := GetProxies(blocks[b], rupgeoms, minMag);
      found := found + [here];
    }
  }

  /**
   The ruptures that the tasks send, in any batches, are stored, imported, cut in blocks and
   read back block by block: each rupture that is strong enough comes back once, with its own
   geometry. When nothing was sent the cut fails.
   */
  method StoreAndRead<G(!new)>(batches: seq<(seq<Rup>, seq<G>)>, ct: nat, minMag: real)
    returns (ok: bool, found: seq<seq<Ebr<G>>>)
    requires forall b :: 0 <= b < |batches| ==> |batches[b].0| == |batches[b].1|
    ensures Sent(batches, |batches|) == [] ==> !ok
    ensures var sent := Sent(batches, |batches|);
      sent != [] && AllOccur(sent) ==> ok && IsStrong(multiset(Concat(found)), sent, minMag)
  {
    var ds := StoreAll(batches);
    var rups := ImportRups(ds.ruptures, ds.rupgeoms, ds.stored);
    var proxies, error := GenRuptureGetters(rups, ct);
    LinksOfBlocks(rups, ds.rupgeoms, proxies);
    hide Sent, Strong, ConcatTo, OneGroup, AllIn, Imported, IsFound, AllOccur, IsStrong, IsRuptureCut;
    found := ReadBlocks(proxies, ds.rupgeoms, minMag);
    ok := error.NoError?;
    ReadBack(rups, ds.rupgeoms, ds.stored, proxies, found, minMag);
    StrongOnly(Sent(batches, |batches|), minMag);
  }

  lemma {:induction false} StrongOnly<G(!new)>(sent: seq<Ebr<G>>, minMag: real)
    ensures IsStrong(multiset(Strong(sent, |sent|, minMag)), sent, minMag)
  {
    forall x
      ensures multiset(Strong(sent, |sent|, minMag))[x] == if x.core.mag >= minMag then multiset(sent)[x] else 0
    {
      StrongAre(sent, minMag, x);
    }
  }

  /** Each rupture not below the minimum as often as it was sent, and no other. */
  ghost predicate IsStrong<G(!new)>(found: multiset<Ebr<G>>, sent: seq<Ebr<G>>, minMag: real) {
    forall x :: found[x] == if x.core.mag >= minMag then multiset(sent)[x] else 0
  }

  lemma {:induction false} LinksOfBlocks<G>(rups: seq<Rup>, rupgeoms: seq<G>, blocks: seq<seq<Rup>>)
    requires Imported(rups, rupgeoms) && forall b :: 0 <= b < |blocks| ==> AllIn(blocks[b], rups)
    ensures forall b :: 0 <= b < |blocks| ==> LinksIn(blocks[b], rupgeoms)
  {
    forall b, i | 0 <= b < |blocks| && 0 <= i < |blocks[b]| ensures blocks[b][i].geomId < |rupgeoms| {
      assert AllIn(blocks[b], rups) && blocks[b][i] in rups;
    }
  }

  ghost predicate AllOccur<G>(ebrs: seq<Ebr<G>>) {
    forall i :: 0 <= i < |ebrs| ==> ebrs[i].core.nOcc >= 1
  }

  /** What the steps after the storage keep of the ruptures stored. */
  lemma {:induction false} ReadBack<G>(
    rups: seq<Rup>, rupgeoms: seq<G>, stored: seq<Ebr<G>>, proxies: seq<seq<Rup>>, found: seq<seq<Ebr<G>>>,
    minMag: real)
    requires Imported(rups, rupgeoms) && multiset(Linked(rups, rupgeoms)) == multiset(stored)
    requires |found| == |proxies|
    requires forall b :: 0 <= b < |proxies| ==> IsFound(found[b], proxies[b], rupgeoms, minMag)
    ensures |rups| == |stored|
    ensures AllOccur(stored) ==> EachOccurs(rups)
    ensures multiset(Concat(proxies)) == multiset(rups) ==>
      multiset(Concat(found)) == multiset(Strong(stored, |stored|, minMag))
  {
    hide Strong, ConcatTo, IsFound;
    var linked := Linked(rups, rupgeoms);
    PermutationLength(linked, stored);
    if AllOccur(stored) {
      PermutationAll(stored, linked, (x: Ebr<G>) => x.core.nOcc >= 1);
      assert forall i :: 0 <= i < |rups| ==> linked[i].core == rups[i].core;
    }
    StrongPermutes(linked, stored, minMag);
    if multiset(Concat(proxies)) == multiset(rups) {
      ProxiesOfBlocks(rups, proxies, rupgeoms, found, minMag);
    }
  }
}
