/** How the classical calculator cuts the sources in tasks, and the tasks in subtasks. */
module Classical {
  import Folds
  import opened BlockSplitter
  import opened SplitterTheorems
  import opened BlockCounts
  import opened Sorting
  import opened WorkSplit
  import B = SplitInBlocks

  /** The sources without the key, for a splitter called without a key function. */
  function Unkeyed<T>(items: seq<Item<T>>): (r: seq<Item<T>>)
    ensures |r| == |items|
    ensures forall i :: 0 <= i < |r| ==> r[i] == Item(items[i].value, items[i].weight, Unspecified)
  {
    seq(|items|, i requires 0 <= i < |items| => Item(items[i].value, items[i].weight, Unspecified))
  }

  lemma {:induction false} UnkeyedSum<T>(items: seq<Item<T>>, n: nat)
    requires n <= |items|
    ensures SumIn(Unkeyed(items), 0, n) == SumIn(items, 0, n)
  {
    if n == 0 {
    } else {
      UnkeyedSum(items, n - 1);
    }
  }

  // ---- classical_split_filter ----

  /** The blocks, among the first `n`, that are heavy enough to become subtasks. */
  function Heavy<T>(blocks: seq<Block<T>>, minw: real, n: nat): seq<Yield<T>>
    requires n <= |blocks|
  {
    if n == 0 then []
    else Heavy(blocks, minw, n - 1)
         + (if blocks[n - 1].weight < minw then [] else [Shipped(Values(blocks[n - 1].items))])
  }

  /** The sources kept: those of the last block and of the light ones among the first `n`. */
  function Light<T>(blocks: seq<Block<T>>, minw: real, n: nat): seq<T>
    requires n < |blocks|
  {
    if n == 0 then Values(blocks[|blocks| - 1].items)
    else Light(blocks, minw, n - 1) + (if blocks[n - 1].weight < minw then Values(blocks[n - 1].items) else [])
  }

  function FilterYields<T>(sources: seq<Item<T>>, minw: real, maxw: real): seq<Yield<T>> {
    var blocks := Blocks(Unkeyed(sources), maxw / 2.0);
    if blocks == [] then [Empty]
    else Heavy(blocks, minw, |blocks| - 1) + [Computed(Light(blocks, minw, |blocks| - 1))]
  }

  /** Send out the heavy blocks as subtasks and compute the light ones in place. */
  method SplitFilter<T>(sources: seq<Item<T>>, minw: real, maxw: real)
    returns (out: seq<Yield<T>>, error: SplitError<T>)
    ensures error.NoError? <==> maxw > 0.0 && NonNegative(Unkeyed(sources), |sources|)
    ensures error.NoError? ==> out == FilterYields(sources, minw, maxw)
    ensures !error.NoError? ==> out == []
  {
    var blocks;
    out := [];
    blocks, error := Split(Unkeyed(sources), maxw / 2.0);
    if !error.NoError? {
      return;
    }
    if blocks == [] {
      out := [Empty];
      return;
    }
    var light := Values(blocks[|blocks| - 1].items);
    for b := 0 to |blocks| - 1
      invariant out == Heavy(blocks, minw, b) && light == Light(blocks, minw, b)
    {
      if blocks[b].weight < minw {
        light := light + Values(blocks[b].items);
      } else {
        out := out + [Shipped(Values(blocks[b].items))];
      }
    }
    out := out + [Computed(light)];
  }

  lemma {:induction false} SiftKeepsWork<T>(blocks: seq<Block<T>>, minw: real, n: nat, x: T)
    requires n < |blocks|
    ensures Work(Heavy(blocks, minw, n), x) + Count(Light(blocks, minw, n), x)
         == Count(Values(FlattenTo(blocks, n)), x) + Count(Values(blocks[|blocks| - 1].items), x)
  {
    hide Work, Count, Values, Heavy, Light;
    if n == 0 {
      SiftNone(blocks, minw, x);
    } else {
      SiftKeepsWork(blocks, minw, n - 1, x);
      HeavyStep(blocks, minw, n, x);
      LightStep(blocks, minw, n, x);
      ValuesConcat(FlattenTo(blocks, n - 1), blocks[n - 1].items, x);
    }
  }

  lemma {:induction false} SiftNone<T>(blocks: seq<Block<T>>, minw: real, x: T)
    requires blocks != []
    ensures Work(Heavy(blocks, minw, 0), x) == 0 && Count(Values(FlattenTo(blocks, 0)), x) == 0
    ensures Light(blocks, minw, 0) == Values(blocks[|blocks| - 1].items)
  {
    assert Values(FlattenTo(blocks, 0)) == [];
  }

  lemma {:induction false} HeavyStep<T>(blocks: seq<Block<T>>, minw: real, n: nat, x: T)
    requires 0 < n <= |blocks|
    ensures Work(Heavy(blocks, minw, n), x) == Work(Heavy(blocks, minw, n - 1), x)
      + (if blocks[n - 1].weight < minw then 0 else Count(Values(blocks[n - 1].items), x))
  {
    WorkSnoc(Heavy(blocks, minw, n - 1), Shipped(Values(blocks[n - 1].items)), x);
    assert Heavy(blocks, minw, n - 1) + [] == Heavy(blocks, minw, n - 1);
  }

  lemma {:induction false} LightStep<T>(blocks: seq<Block<T>>, minw: real, n: nat, x: T)
    requires 0 < n < |blocks|
    ensures Count(Light(blocks, minw, n), x) == Count(Light(blocks, minw, n - 1), x)
      + (if blocks[n - 1].weight < minw then Count(Values(blocks[n - 1].items), x) else 0)
  {
    CountConcat(Light(blocks, minw, n - 1), Values(blocks[n - 1].items), x);
    assert Light(blocks, minw, n - 1) + [] == Light(blocks, minw, n - 1);
  }

  lemma {:induction false} HeavyCount<T>(blocks: seq<Block<T>>, minw: real, n: nat)
    requires n <= |blocks|
    ensures ShippedCount(Heavy(blocks, minw, n)) <= n
  {
    if n == 0 {
    } else {
      HeavyCount(blocks, minw, n - 1);
      ShippedSnoc(Heavy(blocks, minw, n - 1), Shipped(Values(blocks[n - 1].items)));
      assert Heavy(blocks, minw, n - 1) + [] == Heavy(blocks, minw, n - 1);
    }
  }

  lemma {:induction false} SiftAll<T(!new)>(blocks: seq<Block<T>>, minw: real)
    requires blocks != []
    ensures var n := |blocks| - 1; var out := Heavy(blocks, minw, n) + [Computed(Light(blocks, minw, n))];
      ShippedCount(out) <= n && Covers(out, Values(Flatten(blocks)))
  {
    var n := |blocks| - 1;
    var last := Computed(Light(blocks, minw, n));
    HeavyCount(blocks, minw, n);
    ShippedSnoc(Heavy(blocks, minw, n), last);
    forall x ensures Work(Heavy(blocks, minw, n) + [last], x) == Count(Values(Flatten(blocks)), x) {
      SiftKeepsWork(blocks, minw, n, x);
      WorkSnoc(Heavy(blocks, minw, n), last, x);
      ValuesConcat(FlattenTo(blocks, n), blocks[n].items, x);
    }
  }

  lemma {:induction false} EmptyCovers<T(!new)>()
    ensures Covers([Yield<T>.Empty], []) && ShippedCount([Yield<T>.Empty]) == 0
  {
    ShippedSnoc<T>([], Empty);
    assert [] + [Yield<T>.Empty] == [Yield<T>.Empty];
    forall x ensures Work([Yield<T>.Empty], x) == Count([], x) {
      WorkSnoc<T>([], Empty, x);
    }
  }

  /**
   Sources that weigh are all computed, in place or by a subtask, exactly once. A block
   cut by submit_tasks spawns at most six subtasks.
   */
  lemma {:induction false} SplitFilterCovers<T(!new)>(sources: seq<Item<T>>, minw: real, maxw: real)
    requires maxw > 0.0 && AllPositive(sources)
    ensures Covers(FilterYields(sources, minw, maxw), Values(sources))
    ensures SumIn(sources, 0, |sources|) <= 2.0 * maxw || |sources| == 1 ==>
      ShippedCount(FilterYields(sources, minw, maxw)) <= 6
  {
    hide ScanTo, Covers, Heavy, Light, ShippedCount, Values;
    var items := Unkeyed(sources);
    var blocks := Blocks(items, maxw / 2.0);
    assert Flatten(blocks) == items by {
      SplitterPartition(items, maxw / 2.0);
    }
    UnkeyedValues(sources);
    if SumIn(sources, 0, |sources|) <= 2.0 * maxw || |sources| == 1 {
      UnkeyedSum(sources, |sources|);
      ResplitGivesAtMostSeven(items, maxw);
    }
    if blocks == [] {
      EmptyCovers<T>();
    } else {
      SiftAll(blocks, minw);
    }
  }

  lemma {:induction false} HeavyBlocks<T(!new)>(blocks: seq<Block<T>>, minw: real, n: nat, work: seq<T>)
    requires n <= |blocks|
    ensures Shipped(work) in Heavy(blocks, minw, n) <==>
      exists b :: 0 <= b < n && blocks[b].weight >= minw && work == Values(blocks[b].items)
  {
    hide Values;
    if n == 0 {
    } else {
      HeavyBlocks(blocks, minw, n - 1, work);
    }
  }

  lemma {:induction false} HeavyNumber<T>(blocks: seq<Block<T>>, minw: real, n: nat)
    requires n <= |blocks|
    ensures |Heavy(blocks, minw, n)| == |set b | 0 <= b < n && blocks[b].weight >= minw|
  {
    hide Values;
    if n == 0 {
    } else {
      HeavyNumber(blocks, minw, n - 1);
      var here := set b | 0 <= b < n && blocks[b].weight >= minw;
      var before := set b | 0 <= b < n - 1 && blocks[b].weight >= minw;
      assert here == before + if blocks[n - 1].weight >= minw then {n - 1} else {};
    }
  }

  /** The subtasks are the blocks not lighter than the minimum, the last block excepted, each once. */
  lemma {:induction false} SplitFilterShips<T(!new)>(sources: seq<Item<T>>, minw: real, maxw: real, work: seq<T>)
    ensures var blocks, out := Blocks(Unkeyed(sources), maxw / 2.0), FilterYields(sources, minw, maxw);
      && (blocks == [] ==> out == [Empty])
      && (Shipped(work) in out <==>
            exists b :: 0 <= b < |blocks| - 1 && blocks[b].weight >= minw && work == Values(blocks[b].items))
      && (blocks != [] ==>
            |out| == 1 + |set b | 0 <= b < |blocks| - 1 && blocks[b].weight >= minw| && out[|out| - 1].Computed?)
  {
    var blocks, out := Blocks(Unkeyed(sources), maxw / 2.0), FilterYields(sources, minw, maxw);
    if blocks == [] {
    } else {
      var heavy, light := Heavy(blocks, minw, |blocks| - 1), Computed(Light(blocks, minw, |blocks| - 1));
      assert out == heavy + [light];
      hide Blocks, FilterYields, Values, Heavy, Light;
      HeavyBlocks(blocks, minw, |blocks| - 1, work);
      HeavyNumber(blocks, minw, |blocks| - 1);
      assert Shipped(work) in out <==> Shipped(work) in heavy;
    }
  }

  lemma {:induction false} UnkeyedValues<T>(sources: seq<Item<T>>)
    ensures Values(Unkeyed(sources)) == Values(sources)
    ensures Unkeyed(sources) == [] ==> Values(sources) == []
  {
  }

  // ---- submit_tasks ----

  datatype Group<T> = Group(atomic: bool, sources: seq<Item<T>>)

  /** Sources to send to `classical_split_filter`, or directly to `classical`. */
  datatype Submission<T> = Submission(split: bool, sources: seq<Item<T>>)

  datatype SubmitError<T> = AllSubmitted | NoWeight | BadBlocks(error: SplitError<T>)

  /** How many times `x` occurs in the first `n` groups. */
  function InGroups<T(==)>(groups: seq<Group<T>>, n: nat, x: T): nat
    requires n <= |groups|
  {
    if n == 0 then 0 else InGroups(groups, n - 1, x) + Count(Values(groups[n - 1].sources), x)
  }

  /** How many times `x` occurs in the first `n` submissions. */
  function Submitted<T(==)>(subs: seq<Submission<T>>, n: nat, x: T): nat
    requires n <= |subs|
  {
    if n == 0 then 0 else Submitted(subs, n - 1, x) + Count(Values(subs[n - 1].sources), x)
  }

  /** The submissions send every source given as many times as it is given. */
  ghost predicate Sends<T(!new)>(subs: seq<Submission<T>>, given: seq<T>) {
    forall x :: Submitted(subs, |subs|, x) == Count(given, x)
  }

  ghost predicate SendsGroups<T(!new)>(subs: seq<Submission<T>>, groups: seq<Group<T>>, n: nat)
    requires n <= |groups|
  {
    forall x :: Submitted(subs, |subs|, x) == InGroups(groups, n, x)
  }

  function GroupWeight<T>(groups: seq<Group<T>>, n: nat): real
    requires n <= |groups|
  {
    if n == 0 then 0.0
    else GroupWeight(groups, n - 1) + SumIn(groups[n - 1].sources, 0, |groups[n - 1].sources|)
  }

  predicate AllWeigh<T>(groups: seq<Group<T>>) {
    forall g :: 0 <= g < |groups| ==> AllPositive(groups[g].sources)
  }

  /** A submission to `classical_split_filter` is within the limit or is a single source. */
  ghost predicate WithinLimit<T>(sub: Submission<T>, maxw: real) {
    && AllPositive(sub.sources)
    && (sub.split ==> SumIn(sub.sources, 0, |sub.sources|) <= 2.0 * maxw || |sub.sources| == 1)
  }

  lemma {:induction false} SubmittedAppend<T>(subs: seq<Submission<T>>, more: seq<Submission<T>>, n: nat, x: T)
    requires n <= |more|
    ensures Submitted(subs + more, |subs| + n, x) == Submitted(subs, |subs|, x) + Submitted(more, n, x)
  {
    if n == 0 {
      SubmittedPrefix(subs, more, |subs|, x);
    } else {
      SubmittedAppend(subs, more, n - 1, x);
    }
  }

  lemma {:induction false} SubmittedPrefix<T>(subs: seq<Submission<T>>, more: seq<Submission<T>>, n: nat, x: T)
    requires n <= |subs|
    ensures Submitted(subs + more, n, x) == Submitted(subs, n, x)
  {
    if n == 0 {
    } else {
      SubmittedPrefix(subs, more, n - 1, x);
    }
  }

  lemma {:induction false} GroupSent<T(!new)>(
    groups: seq<Group<T>>, g: nat, subs: seq<Submission<T>>, more: seq<Submission<T>>)
    requires g < |groups| && SendsGroups(subs, groups, g) && Sends(more, Values(groups[g].sources))
    ensures SendsGroups(subs + more, groups, g + 1)
  {
    forall x ensures Submitted(subs + more, |subs + more|, x) == InGroups(groups, g + 1, x) {
      SubmittedAppend(subs, more, |more|, x);
      assert Submitted(more, |more|, x) == Count(Values(groups[g].sources), x);
    }
  }

  /** The submissions are the blocks of the greedy split of the sources, the heaviest first. */
  ghost predicate IsBlockCut<T(!new)>(subs: seq<Submission<T>>, sources: seq<Item<T>>, maxw: real, split: bool) {
    exists sorted :: multiset(sorted) == multiset(sources) && AreBlocks(subs, sorted, maxw, split)
  }

  ghost predicate AreBlocks<T>(subs: seq<Submission<T>>, sorted: seq<Item<T>>, maxw: real, split: bool) {
    && (forall i, j :: 0 <= i < j < |sorted| ==> sorted[i].weight >= sorted[j].weight)
    && var blocks := Blocks(Unkeyed(sorted), 2.0 * maxw);
       |subs| == |blocks| && forall i :: 0 <= i < |subs| ==> subs[i] == Submission(split, blocks[i].items)
  }

  /** The submissions are the sources of each key, not to be split further. */
  ghost predicate IsKeyCut<T>(subs: seq<Submission<T>>, sources: seq<Item<T>>) {
    && |subs| == |B.KeySet(sources)|
    && forall i :: 0 <= i < |subs| ==> !subs[i].split && B.OneKey(subs[i].sources)
  }

  /** Cut a group that is not atomic: by source, or in blocks of twice the maximum weight. */
  method CutGroup<T(!new)>(sources: seq<Item<T>>, maxw: real, bySource: bool, split: bool)
    returns (subs: seq<Submission<T>>, error: SplitError<T>)
    requires bySource ==> !split
    ensures bySource ==> error.NoError? && IsKeyCut(subs, sources)
    ensures !bySource && error.NoError? ==> IsBlockCut(subs, sources, maxw, split)
    ensures AllPositive(sources) && maxw > 0.0 ==> error.NoError?
    ensures AllPositive(sources) && error.NoError? ==>
      && Sends(subs, Values(sources))
      && forall i :: 0 <= i < |subs| ==> WithinLimit(subs[i], maxw)
  {
    subs, error := [], NoError;
    if bySource {
      var groups := B.GroupBy(sources);
      for g := 0 to |groups|
        invariant |subs| == g && forall i :: 0 <= i < g ==> subs[i] == Submission(false, groups[i])
      {
        subs := subs + [Submission(split, groups[g])];
      }
      BySourceCovers(sources, groups, subs);
    } else {
      var sorted := Sort(sources, ByWeightDown);
      var blocks;
      blocks, error := Split(Unkeyed(sorted), 2.0 * maxw);
      PermutationLength(sources, sorted);
      if AllPositive(sources) {
        PermutationAll(sources, sorted, (x: Item<T>) => x.weight > 0.0);
      }
      if error.NoError? {
        for b := 0 to |blocks|
          invariant |subs| == b && forall i :: 0 <= i < b ==> subs[i] == Submission(split, blocks[i].items)
        {
          subs := subs + [Submission(split, blocks[b].items)];
        }
        SortedBlocks(subs, sources, sorted, maxw, split);
        if AllPositive(sources) {
          BlocksCover(sources, sorted, maxw, split, subs);
        }
      }
    }
  }

  lemma {:induction false} SortedBlocks<T(!new)>(
    subs: seq<Submission<T>>, sources: seq<Item<T>>, sorted: seq<Item<T>>, maxw: real, split: bool)
    requires IsSortOf(sorted, sources, ByWeightDown)
    requires var blocks := Blocks(Unkeyed(sorted), 2.0 * maxw);
      |subs| == |blocks| && forall i :: 0 <= i < |subs| ==> subs[i] == Submission(split, blocks[i].items)
    ensures IsBlockCut(subs, sources, maxw, split)
  {
    assert forall i, j :: 0 <= i < j < |sorted| ==> ByWeightDown(sorted[i], sorted[j]);
    assert AreBlocks(subs, sorted, maxw, split);
  }

  lemma {:induction false} BySourceConcat<T>(groups: seq<seq<Item<T>>>, subs: seq<Submission<T>>, n: nat, x: T)
    requires n <= |groups| == |subs| && forall i :: 0 <= i < |subs| ==> subs[i] == Submission(false, groups[i])
    ensures Submitted(subs, n, x) == Count(Values(Folds.ConcatTo(groups, n)), x)
  {
    if n == 0 {
    } else {
      BySourceConcat(groups, subs, n - 1, x);
      ValuesConcat(Folds.ConcatTo(groups, n - 1), groups[n - 1], x);
    }
  }

  lemma {:induction false} BySourceCovers<T(!new)>(
    sources: seq<Item<T>>, groups: seq<seq<Item<T>>>, subs: seq<Submission<T>>)
    requires multiset(Folds.ConcatTo(groups, |groups|)) == multiset(sources) && |groups| == |subs|
    requires forall i :: 0 <= i < |subs| ==> subs[i] == Submission(false, groups[i])
    ensures Sends(subs, Values(sources))
    ensures AllPositive(sources) ==> forall i :: 0 <= i < |subs| ==> AllPositive(subs[i].sources)
  {
    ValuesPermute(Folds.ConcatTo(groups, |groups|), sources);
    forall x ensures Submitted(subs, |subs|, x) == Count(Values(sources), x) {
      BySourceConcat(groups, subs, |subs|, x);
    }
    PermutationLength(Folds.ConcatTo(groups, |groups|), sources);
    if AllPositive(sources) {
      forall i, j | 0 <= i < |subs| && 0 <= j < |subs[i].sources| ensures subs[i].sources[j].weight > 0.0 {
        Folds.InConcat(groups, |groups|, i, groups[i][j]);
        assert groups[i][j] in sources;
      }
    }
  }

  lemma {:induction false} BlocksSubmitted<T>(
    blocks: seq<Block<T>>, split: bool, subs: seq<Submission<T>>, n: nat, x: T)
    requires n <= |blocks| == |subs|
    requires forall i :: 0 <= i < |subs| ==> subs[i] == Submission(split, blocks[i].items)
    ensures Submitted(subs, n, x) == Count(Values(FlattenTo(blocks, n)), x)
  {
    if n == 0 {
    } else {
      BlocksSubmitted(blocks, split, subs, n - 1, x);
      ValuesConcat(FlattenTo(blocks, n - 1), blocks[n - 1].items, x);
    }
  }

  lemma {:induction false} BlocksCover<T(!new)>(sources: seq<Item<T>>, sorted: seq<Item<T>>, maxw: real, split: bool,
                             subs: seq<Submission<T>>)
    requires multiset(sorted) == multiset(sources) && AllPositive(sorted) && maxw > 0.0
    requires var blocks := Blocks(Unkeyed(sorted), 2.0 * maxw);
      |subs| == |blocks| && forall i :: 0 <= i < |subs| ==> subs[i] == Submission(split, blocks[i].items)
    ensures Sends(subs, Values(sources))
    ensures forall i :: 0 <= i < |subs| ==> WithinLimit(subs[i], maxw)
  {
    var items := Unkeyed(sorted);
    var blocks := Blocks(items, 2.0 * maxw);
    SplitterPartition(items, 2.0 * maxw);
    assert AllPositive(Flatten(blocks));
    hide ScanTo, Flatten, IsBlock, WithinLimit, Sends;
    BlocksSend(sources, sorted, blocks, split, subs);
    forall i | 0 <= i < |subs| ensures WithinLimit(subs[i], maxw) {
      assert IsBlock(blocks[i], 2.0 * maxw);
      BlockWithin(blocks, i, subs[i], maxw);
    }
  }

  lemma {:induction false} BlockWithin<T>(blocks: seq<Block<T>>, b: nat, sub: Submission<T>, maxw: real)
    requires b < |blocks| && IsBlock(blocks[b], 2.0 * maxw) && AllPositive(Flatten(blocks))
    requires sub.sources == blocks[b].items
    ensures WithinLimit(sub, maxw)
  {
    forall j | 0 <= j < |blocks[b].items| ensures blocks[b].items[j].weight > 0.0 {
      InFlatten(blocks, |blocks|, b, blocks[b].items[j]);
    }
  }

  lemma {:induction false} BlocksSend<T(!new)>(sources: seq<Item<T>>, sorted: seq<Item<T>>, blocks: seq<Block<T>>,
                                              split: bool, subs: seq<Submission<T>>)
    requires multiset(sorted) == multiset(sources) && Flatten(blocks) == Unkeyed(sorted)
    requires |subs| == |blocks| && forall i :: 0 <= i < |subs| ==> subs[i] == Submission(split, blocks[i].items)
    ensures Sends(subs, Values(sources))
  {
    assert Values(Unkeyed(sorted)) == Values(sorted);
    ValuesPermute(sorted, sources);
    forall x ensures Submitted(subs, |subs|, x) == Count(Values(sources), x) {
      BlocksSubmitted(blocks, split, subs, |subs|, x);
    }
  }

  function SourcesOf<T>(groups: seq<Group<T>>): (r: seq<seq<Item<T>>>)
    ensures |r| == |groups| && forall g :: 0 <= g < |r| ==> r[g] == groups[g].sources
  {
    seq(|groups|, g requires 0 <= g < |groups| => groups[g].sources)
  }

  lemma {:induction false} SumJoins<T>(xs: seq<Item<T>>, ys: seq<Item<T>>, n: nat)
    requires n <= |ys|
    ensures SumIn(xs + ys, 0, |xs| + n) == SumIn(xs, 0, |xs|) + SumIn(ys, 0, n)
  {
    if n == 0 {
      SumOfPrefix(xs, ys, |xs|);
    } else {
      SumJoins(xs, ys, n - 1);
      assert (xs + ys)[|xs| + n - 1] == ys[n - 1];
    }
  }

  /** The weight of the groups is the sum of the weights of all their sources, one after the other. */
  lemma {:induction false} WeightOfAll<T>(groups: seq<Group<T>>, n: nat)
    requires n <= |groups|
    ensures var sources := Folds.ConcatTo(SourcesOf(groups), n);
      GroupWeight(groups, n) == SumIn(sources, 0, |sources|)
  {
    if n == 0 {
    } else {
      WeightOfAll(groups, n - 1);
      SumJoins(Folds.ConcatTo(SourcesOf(groups), n - 1), groups[n - 1].sources, |groups[n - 1].sources|);
    }
  }

  method TotalGroupWeight<T>(groups: seq<Group<T>>) returns (tot: real)
    ensures tot == GroupWeight(groups, |groups|)
  {
    tot := 0.0;
    for g := 0 to |groups|
      invariant tot == GroupWeight(groups, g)
    {
      var w := B.TotalWeight(groups[g].sources);
      tot := tot + w;
    }
  }

  /** An atomic group is submitted whole and is not split further; the others are cut. */
  ghost predicate IsGroupCut<T(!new)>(
    subs: seq<Submission<T>>, group: Group<T>, maxw: real, bySource: bool, split: bool)
  {
    if group.atomic then subs == [Submission(false, group.sources)]
    else if bySource then IsKeyCut(subs, group.sources)
    else IsBlockCut(subs, group.sources, maxw, split)
  }

  /** The submissions of one group: an atomic group is never cut. */
  method SubmitGroup<T(!new)>(group: Group<T>, maxw: real, bySource: bool, split: bool)
    returns (subs: seq<Submission<T>>, error: SplitError<T>)
    requires bySource ==> !split
    ensures error.NoError? ==> IsGroupCut(subs, group, maxw, bySource, split)
    ensures AllPositive(group.sources) && maxw > 0.0 ==> error.NoError?
    ensures AllPositive(group.sources) && error.NoError? ==>
      && Sends(subs, Values(group.sources))
      && forall i :: 0 <= i < |subs| ==> WithinLimit(subs[i], maxw)
  {
    hide IsKeyCut, IsBlockCut;
    if group.atomic {
      subs, error := [Submission(false, group.sources)], NoError;
      assert forall x :: Submitted(subs, 1, x) == Submitted(subs, 0, x) + Count(Values(group.sources), x);
    } else {
      subs, error := CutGroup(group.sources, maxw, bySource, split);
    }
  }

  /**
   Submit the sources of all groups. Without disaggregation by source the tasks split
   themselves further; otherwise they do not, and the weight limit is five times smaller.
   `parts` are the submissions of each group.
   */
  method SubmitTasks<T(!new)>(groups: seq<Group<T>>, concurrentTasks: nat, minw: real, bySource: bool, ucerf: bool)
    returns (subs: seq<Submission<T>>, maxw: real, error: SubmitError<T>, ghost parts: seq<seq<Submission<T>>>)
    ensures error.AllSubmitted? ==> subs == Folds.Concat(parts) && |parts| == |groups|
    ensures error.AllSubmitted? ==> forall g :: 0 <= g < |groups| ==>
      IsGroupCut(parts[g], groups[g], maxw, bySource, !(bySource || ucerf))
    ensures error.AllSubmitted? ==>
      IsLimit(maxw * (if bySource || ucerf then 5.0 else 1.0), GroupWeight(groups, |groups|), concurrentTasks, minw)
    ensures error.NoWeight? <==> GroupWeight(groups, |groups|) == 0.0
    ensures AllWeigh(groups) && GroupWeight(groups, |groups|) != 0.0 ==>
      && error.AllSubmitted? && maxw > 0.0
      && SendsGroups(subs, groups, |groups|)
      && forall i :: 0 <= i < |subs| ==> WithinLimit(subs[i], maxw)
  {
    subs, maxw, error, parts := [], 0.0, AllSubmitted, [];
    var tot := TotalGroupWeight(groups);
    if tot == 0.0 {
      error := NoWeight;
      return;
    }
    if AllWeigh(groups) {
      WeightsPositive(groups, |groups|);
    }
    maxw := WeightLimit(tot, concurrentTasks, minw);
    if bySource || ucerf {
      maxw := maxw / 5.0;
    }
    hide GroupWeight, WithinLimit, SendsGroups, IsGroupCut, IsLimit, AllWeigh;
    var e;
    subs, e, parts := SubmitGroups(groups, maxw, bySource, !(bySource || ucerf));
    if !e.NoError? {
      error := BadBlocks(e);
    }
  }

  /** One group after the other. */
  method SubmitGroups<T(!new)>(groups: seq<Group<T>>, maxw: real, bySource: bool, split: bool)
    returns (subs: seq<Submission<T>>, error: SplitError<T>, ghost parts: seq<seq<Submission<T>>>)
    requires bySource ==> !split
    ensures error.NoError? ==> subs == Folds.Concat(parts) && |parts| == |groups|
    ensures error.NoError? ==> forall g :: 0 <= g < |groups| ==> IsGroupCut(parts[g], groups[g], maxw, bySource, split)
    ensures AllWeigh(groups) && maxw > 0.0 ==>
      && error.NoError? && SendsGroups(subs, groups, |groups|)
      && forall i :: 0 <= i < |subs| ==> WithinLimit(subs[i], maxw)
  {
    subs, error, parts := [], NoError, [];
    NothingSent(groups);
    hide WithinLimit, AllPositive, Values, Sends, SendsGroups, IsGroupCut, Folds.Concat;
    for g := 0 to |groups|
      invariant error.NoError? && |parts| == g && subs == Folds.Concat(parts)
      invariant forall i :: 0 <= i < g ==> IsGroupCut(parts[i], groups[i], maxw, bySource, split)
      invariant AllWeigh(groups) && maxw > 0.0 ==> SendsGroups(subs, groups, g)
      invariant AllWeigh(groups) && maxw > 0.0 ==> forall i :: 0 <= i < |subs| ==> WithinLimit(subs[i], maxw)
    {
      var more;
      more, error := SubmitGroup(groups[g], maxw, bySource, split);
      if !error.NoError? {
        return;
      }
      if AllWeigh(groups) && maxw > 0.0 {
        GroupSent(groups, g, subs, more);
      }
      ConcatSnoc(parts, more);
      subs, parts := subs + more, parts + [more];
    }
  }

  lemma {:induction false} NothingSent<T(!new)>(groups: seq<Group<T>>)
    ensures SendsGroups<T>([], groups, 0) && Folds.Concat<Submission<T>>([]) == []
  {
  }

  lemma {:induction false} ConcatSnoc<X>(lists: seq<seq<X>>, last: seq<X>)
    ensures Folds.Concat(lists + [last]) == Folds.Concat(lists) + last
  {
    B.ConcatPrefix(lists, lists + [last], |lists|);
  }

  /** Not less than the minimum, nor too small for `concurrentTasks` tasks, and not larger than needed. */
  predicate IsLimit(m: real, tot: real, concurrentTasks: nat, minw: real) {
    var all := m * (if concurrentTasks == 0 then 1 else concurrentTasks) as real;
    m >= minw && all >= tot && (m == minw || all == tot)
  }

  function WeightLimit(tot: real, concurrentTasks: nat, minw: real): (m: real)
    ensures tot > 0.0 ==> m > 0.0
    ensures IsLimit(m, tot, concurrentTasks, minw)
  {
    var c := if concurrentTasks == 0 then 1 else concurrentTasks;
    var share := tot / c as real;
    assert share * c as real == tot;
    assert minw > share ==> (minw - share) * c as real > 0.0;
    if share >= minw then share else minw
  }

  lemma {:induction false} WeightsPositive<T>(groups: seq<Group<T>>, n: nat)
    requires n <= |groups| && AllWeigh(groups)
    ensures GroupWeight(groups, n) >= 0.0
  {
    if n == 0 {
    } else {
      WeightsPositive(groups, n - 1);
      assert AllPositive(groups[n - 1].sources);
      SumNonNegative(groups[n - 1].sources, 0, |groups[n - 1].sources|);
    }
  }
}
