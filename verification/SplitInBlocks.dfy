/**
 Splitting a sequence in a number of blocks close to a hint. A hint of zero or one gives the
 whole sequence, or one block for each key when a key function is given. For a larger hint the
 items are sorted by key and weight and cut by the splitter, the maximum being the total weight
 divided by the hint and rounded up; the number of blocks is then bounded by the hint and the
 number of keys. A negative hint and an empty sequence fail the two assertions of the source.
 */
module SplitInBlocks {
  import opened Folds
  import opened BlockSplitter
  import opened SplitterTheorems
  import opened BlockCounts
  import opened Sorting

  datatype BlocksError<T> = Fine | BadHint | NoItems | Splitter(error: SplitError<T>)

  function KeySet<T>(items: seq<Item<T>>): set<Key> {
    set i | 0 <= i < |items| :: items[i].key
  }

  predicate KeyLE(a: Key, b: Key) {
    a.Unspecified? || (b.Key? && a.id <= b.id)
  }

  predicate ByKey<T>(a: Item<T>, b: Item<T>) {
    KeyLE(a.key, b.key)
  }

  predicate ByKeyAndWeight<T>(a: Item<T>, b: Item<T>) {
    KeyLE(a.key, b.key) && (a.key == b.key ==> a.weight <= b.weight)
  }

  /** The least integer that is not less than a number. */
  function Ceil(x: real): (c: int)
    ensures c as real >= x > c as real - 1.0
  {
    if x.Floor as real == x then x.Floor else x.Floor + 1
  }

  function Items<T>(blocks: seq<Block<T>>): seq<seq<Item<T>>> {
    seq(|blocks|, b requires 0 <= b < |blocks| => blocks[b].items)
  }

  lemma {:induction false} ConcatItems<T>(blocks: seq<Block<T>>, n: nat)
    requires n <= |blocks|
    ensures ConcatTo(Items(blocks), n) == FlattenTo(blocks, n)
  {
    if n == 0 {
    } else {
      ConcatItems(blocks, n - 1);
    }
  }

  predicate OneKey<T>(group: seq<Item<T>>) {
    group != [] && forall i :: 0 <= i < |group| ==> group[i].key == group[0].key
  }

  /** Put an item in the last group, or in a group of its own. */
  function AddTo<T>(gs: seq<seq<Item<T>>>, x: Item<T>, extend: bool): seq<seq<Item<T>>>
    requires extend ==> gs != []
  {
    if extend then gs[..|gs| - 1] + [gs[|gs| - 1] + [x]] else gs + [[x]]
  }

  /** The groups of equal key among the first `n` items, in order. */
  function GroupsTo<T>(items: seq<Item<T>>, n: nat): (gs: seq<seq<Item<T>>>)
    requires n <= |items|
    ensures n > 0 ==> gs != []
  {
    if n == 0 then []
    else AddTo(GroupsTo(items, n - 1), items[n - 1], n > 1 && items[n - 1].key == items[n - 2].key)
  }

  ghost predicate Groups<T>(gs: seq<seq<Item<T>>>, items: seq<Item<T>>) {
    && ConcatTo(gs, |gs|) == items
    && (forall g {:trigger gs[g]} :: 0 <= g < |gs| ==> OneKey(gs[g]))
    && (items != [] ==> gs != [] && gs[|gs| - 1] != [] && gs[|gs| - 1][0].key == items[|items| - 1].key)
  }

  lemma {:induction false} AddExtends<T>(gs: seq<seq<Item<T>>>, items: seq<Item<T>>, x: Item<T>)
    requires Groups(gs, items) && items != [] && items[|items| - 1].key == x.key
    ensures Groups(AddTo(gs, x, true), items + [x])
  {
    var last := |gs| - 1;
    var gs' := AddTo(gs, x, true);
    assert OneKey(gs[last]);
    assert OneKey(gs[last] + [x]);
    ConcatPrefix(gs, gs', last);
    assert ConcatTo(gs, |gs|) + [x] == ConcatTo(gs, last) + (gs[last] + [x]);
  }

  lemma {:induction false} AddOpens<T>(gs: seq<seq<Item<T>>>, items: seq<Item<T>>, x: Item<T>)
    requires Groups(gs, items)
    ensures Groups(AddTo(gs, x, false), items + [x])
  {
    ConcatPrefix(gs, AddTo(gs, x, false), |gs|);
    assert OneKey([x]);
  }

  lemma {:induction false} GroupsPartition<T>(items: seq<Item<T>>, n: nat)
    requires n <= |items|
    ensures Groups(GroupsTo(items, n), items[..n])
  {
    if n == 0 {
    } else {
      hide Groups;
      GroupsPartition(items, n - 1);
      assert items[..n] == items[..n - 1] + [items[n - 1]];
      if n > 1 && items[n - 1].key == items[n - 2].key {
        AddExtends(GroupsTo(items, n - 1), items[..n - 1], items[n - 1]);
      } else {
        AddOpens(GroupsTo(items, n - 1), items[..n - 1], items[n - 1]);
      }
    }
  }

  lemma {:induction false} ConcatPrefix<T>(gs: seq<seq<T>>, gs': seq<seq<T>>, n: nat)
    requires n <= |gs| && n <= |gs'| && forall g :: 0 <= g < n ==> gs[g] == gs'[g]
    ensures ConcatTo(gs, n) == ConcatTo(gs', n)
  {
    if n == 0 {
    } else {
      ConcatPrefix(gs, gs', n - 1);
    }
  }

  function Keys<T>(items: seq<Item<T>>): (ks: seq<Key>)
    ensures |ks| == |items| && forall i :: 0 <= i < |ks| ==> ks[i] == items[i].key
  {
    seq(|items|, i requires 0 <= i < |items| => items[i].key)
  }

  lemma {:induction false} GroupCount<T>(items: seq<Item<T>>, n: nat)
    requires n <= |items|
    ensures |GroupsTo(items, n)| == Runs(Keys(items), n)
  {
    var ks := Keys(items);
    if n == 0 {
    } else {
      GroupCount(items, n - 1);
      hide Keys;
      assert n > 1 ==> (ks[n - 1] != ks[n - 2] <==> items[n - 1].key != items[n - 2].key);
    }
  }

  function KeysTo(ks: seq<Key>, n: nat): set<Key>
    requires n <= |ks|
  {
    set i | 0 <= i < n :: ks[i]
  }

  /** When the keys are sorted, there are as many runs as distinct keys. */
  lemma {:induction false} RunsOfSorted(ks: seq<Key>, n: nat)
    requires n <= |ks| && forall i, j :: 0 <= i < j < |ks| ==> KeyLE(ks[i], ks[j])
    ensures Runs(ks, n) == |KeysTo(ks, n)|
  {
    if n == 0 {
      assert KeysTo(ks, n) == {};
    } else {
      RunsOfSorted(ks, n - 1);
      OneMoreKey(ks, n - 1);
      hide KeysTo;
    }
  }

  /** The last of sorted keys was seen before exactly when it equals the one before it. */
  lemma {:induction false} OneMoreKey(ks: seq<Key>, n: nat)
    requires n < |ks| && forall i, j :: 0 <= i < j < |ks| ==> KeyLE(ks[i], ks[j])
    ensures |KeysTo(ks, n + 1)| == |KeysTo(ks, n)| + if n > 0 && ks[n] == ks[n - 1] then 0 else 1
  {
    assert KeysTo(ks, n + 1) == KeysTo(ks, n) + {ks[n]};
    if n > 0 {
      assert ks[n - 1] in KeysTo(ks, n);
      if ks[n] in KeysTo(ks, n) {
        var i :| 0 <= i < n && ks[i] == ks[n];
        assert KeyLE(ks[i], ks[n - 1]) && KeyLE(ks[n - 1], ks[n]);
      }
    }
  }

  lemma {:induction false} StartKeysSorted<T>(items: seq<Item<T>>, maxw: real)
    requires maxw > 0.0 && NonNegative(items, |items|) && SortedBy(items, ByKey)
    ensures var starts := Starts(items, maxw);
      && (forall b :: 0 <= b < |starts| ==> starts[b] < |items|)
      && Runs(BlockKeys(items, starts), |starts|) <= |KeySet(items)|
  {
    var blocks, starts := Blocks(items, maxw), Starts(items, maxw);
    ScanIsSplit(items, maxw, |items|);
    hide ScanTo;
    StartsInside(items, maxw, blocks, starts);
    var ks := BlockKeys(items, starts);
    forall i, j | 0 <= i < j < |ks| ensures KeyLE(ks[i], ks[j]) {
      StartsIncrease(items, maxw, |items|, blocks, starts, i, j);
      assert ByKey(items[starts[i]], items[starts[j]]);
    }
    RunsOfSorted(ks, |ks|);
    assert KeysTo(ks, |ks|) <= KeySet(items);
    Cardinality(KeysTo(ks, |ks|), KeySet(items));
  }

  lemma {:induction false} Cardinality<X>(a: set<X>, b: set<X>)
    requires a <= b
    ensures |a| <= |b|
  {
    if a == {} {
    } else {
      var x :| x in a;
      Cardinality(a - {x}, b - {x});
    }
  }

  lemma {:induction false} KeySetPermutes<T>(xs: seq<Item<T>>, ys: seq<Item<T>>)
    requires multiset(xs) == multiset(ys)
    ensures KeySet(xs) == KeySet(ys)
  {
    PermutationLength(xs, ys);
    forall k | k in KeySet(xs) ensures k in KeySet(ys) {
      var i :| 0 <= i < |xs| && xs[i].key == k;
      assert xs[i] in ys;
    }
    forall k | k in KeySet(ys) ensures k in KeySet(xs) {
      var i :| 0 <= i < |ys| && ys[i].key == k;
      assert ys[i] in xs;
    }
  }

  /** A sequence split by key: one group per key. */
  method GroupBy<T(!new)>(items: seq<Item<T>>) returns (groups: seq<seq<Item<T>>>)
    ensures |groups| == |KeySet(items)|
    ensures multiset(ConcatTo(groups, |groups|)) == multiset(items)
    ensures forall g {:trigger groups[g]} :: 0 <= g < |groups| ==> OneKey(groups[g])
  {
    var sorted := Sort(items, ByKey);
    groups := [];
    for n := 0 to |sorted|
      invariant groups == GroupsTo(sorted, n)
    {
      if n > 0 && sorted[n].key == sorted[n - 1].key {
        groups := groups[..|groups| - 1] + [groups[|groups| - 1] + [sorted[n]]];
      } else {
        groups := groups + [[sorted[n]]];
      }
    }
    GroupsPartition(sorted, |sorted|);
    assert sorted[..|sorted|] == sorted;
    GroupCount(sorted, |sorted|);
    RunsOfSorted(Keys(sorted), |sorted|);
    assert KeySet(sorted) == KeysTo(Keys(sorted), |sorted|);
    KeySetPermutes(items, sorted);
  }

  /** The blocks are those of the greedy split of items in order of key and weight. */
  ghost predicate IsGreedyCut<T>(sorted: seq<Item<T>>, blocks: seq<seq<Item<T>>>, maxw: real) {
    && InKeyOrder(sorted)
    && var bs: seq<Block<T>> := Blocks(sorted, maxw);
       && IsSplit(sorted, maxw, |sorted|, bs, Starts(sorted, maxw))
       && |blocks| == |bs| && forall b :: 0 <= b < |bs| ==> blocks[b] == bs[b].items
  }

  ghost predicate InKeyOrder<T>(sorted: seq<Item<T>>) {
    forall i, j :: 0 <= i < j < |sorted| ==>
      if sorted[i].key == sorted[j].key then sorted[i].weight <= sorted[j].weight
      else sorted[i].key == Unspecified || (sorted[j].key != Unspecified && sorted[i].key.id < sorted[j].key.id)
  }

  /** A block of several items is not heavier than the total divided by the hint, rounded up. */
  ghost predicate Balanced<T>(blocks: seq<seq<Item<T>>>, total: real, hint: int)
    requires hint > 1
  {
    forall b :: 0 <= b < |blocks| && |blocks[b]| > 1 ==>
      SumIn(blocks[b], 0, |blocks[b]|) <= Ceil(total / hint as real) as real
  }

  lemma {:induction false} SortedSplitIsGreedy<T(!new)>(
    items: seq<Item<T>>, sorted: seq<Item<T>>, hint: int, maxw: real)
    requires IsSortOf(sorted, items, ByKeyAndWeight) && hint > 1
    requires maxw == Ceil(SumIn(sorted, 0, |sorted|) / hint as real) as real
    requires maxw > 0.0 && NonNegative(sorted, |sorted|)
    ensures IsGreedyCut(sorted, Items(Blocks(sorted, maxw)), maxw)
    ensures Balanced(Items(Blocks(sorted, maxw)), SumIn(sorted, 0, |sorted|), hint)
  {
    KeyOrder(items, sorted);
    BlocksAreGreedy(sorted, maxw);
    SplitterPartition(sorted, maxw);
    AreBalanced(Blocks(sorted, maxw), maxw);
    hide Blocks, SumIn, Ceil, NonNegative, IsGreedyCut, IsBlock, Flatten, KeptIn, SortedBy;
  }

  lemma {:induction false} BlocksAreGreedy<T>(sorted: seq<Item<T>>, maxw: real)
    requires InKeyOrder(sorted) && maxw > 0.0 && NonNegative(sorted, |sorted|)
    ensures IsGreedyCut(sorted, Items(Blocks(sorted, maxw)), maxw)
  {
    hide InKeyOrder, IsSplit;
    ScanIsSplit(sorted, maxw, |sorted|);
    hide ScanTo;
  }

  lemma {:induction false} KeyOrder<T(!new)>(items: seq<Item<T>>, sorted: seq<Item<T>>)
    requires IsSortOf(sorted, items, ByKeyAndWeight)
    ensures InKeyOrder(sorted)
  {
    assert forall i, j :: 0 <= i < j < |sorted| ==> ByKeyAndWeight(sorted[i], sorted[j]);
  }

  lemma {:induction false} AreBalanced<T>(bs: seq<Block<T>>, maxw: real)
    requires forall b {:trigger bs[b]} :: 0 <= b < |bs| ==> IsBlock(bs[b], maxw)
    ensures forall b :: 0 <= b < |bs| && |bs[b].items| > 1 ==> SumIn(bs[b].items, 0, |bs[b].items|) <= maxw
  {
    hide SumIn;
  }

  /** The blocks of items that weigh are a partition of them, by key, and close to `hint` in number. */
  ghost predicate GoodBlocks<T>(items: seq<Item<T>>, blocks: seq<seq<Item<T>>>, hint: int) {
    && (AllPositive(items) ==> multiset(ConcatTo(blocks, |blocks|)) == multiset(items))
    && (items != [] ==> forall b {:trigger blocks[b]} :: 0 <= b < |blocks| ==> OneKey(blocks[b]))
    && (hint >= 1 && items != [] ==> |blocks| <= 2 * (hint - 1) + |KeySet(items)|)
    && (hint == 0 && items != [] ==> |blocks| <= |KeySet(items)|)
  }

  /**
   `keyed` tells whether a key function was given; otherwise all keys are unspecified.
   `sorted` are the items in the order in which they are cut.
   */
  method SplitInBlocks<T(!new)>(items: seq<Item<T>>, hint: int, keyed: bool)
    returns (blocks: seq<seq<Item<T>>>, error: BlocksError<T>, ghost sorted: seq<Item<T>>)
    requires !keyed ==> forall i :: 0 <= i < |items| ==> items[i].key == Unspecified
    ensures error.Fine? ==> GoodBlocks(items, blocks, hint)
    ensures hint in {0, 1} ==> error.Fine?
    ensures hint in {0, 1} && !keyed ==> blocks == [items]
    ensures hint in {0, 1} && keyed ==> |blocks| == |KeySet(items)|
    ensures multiset(sorted) == multiset(items)
    ensures hint > 1 && error.Fine? ==> Balanced(blocks, SumIn(sorted, 0, |sorted|), hint)
    ensures hint > 1 && error.Fine? ==>
      IsGreedyCut(sorted, blocks, Ceil(SumIn(sorted, 0, |sorted|) / hint as real) as real)
    ensures error.BadHint? <==> hint < 0
    ensures error.NoItems? <==> hint > 1 && items == []
    ensures hint > 1 && items != [] && AllPositive(items) ==> error.Fine?
  {
    blocks, error, sorted := [], Fine, items;
    if hint in {0, 1} && !keyed {
      blocks := [items];
      OneBlock(items);
    } else if hint in {0, 1} {
      blocks := GroupBy(items);
    } else if hint < 0 {
      error := BadHint;
    } else {
      var ordered := Sort(items, ByKeyAndWeight);
      sorted := ordered;
      PermutationLength(items, sorted);
      if ordered == [] {
        error := NoItems;
        return;
      }
      var total := TotalWeight(ordered);
      var maxw := Ceil(total / hint as real) as real;
      var bs, e := Split(ordered, maxw);
      if e.NoError? {
        blocks := Items(bs);
        SortedSplitIsGood(items, sorted, maxw, hint);
        SortedSplitIsGreedy(items, sorted, hint, maxw);
      } else {
        error := Splitter(e);
        if AllPositive(items) {
          PositiveSplits(items, sorted, hint);
        }
      }
    }
  }

  method TotalWeight<T>(items: seq<Item<T>>) returns (total: real)
    ensures total == SumIn(items, 0, |items|)
  {
    total := 0.0;
    for i := 0 to |items|
      invariant total == SumIn(items, 0, i)
    {
      total := total + items[i].weight;
    }
  }

  lemma {:induction false} OneBlock<T>(items: seq<Item<T>>)
    requires forall i :: 0 <= i < |items| ==> items[i].key == Unspecified
    ensures ConcatTo([items], 1) == items
    ensures items != [] ==> |KeySet(items)| == 1
  {
    assert ConcatTo([items], 0) == [];
    if items != [] {
      assert items[0].key in KeySet(items);
      assert KeySet(items) == {Unspecified};
    }
  }

  lemma {:induction false} PositiveSplits<T>(items: seq<Item<T>>, sorted: seq<Item<T>>, hint: int)
    requires multiset(items) == multiset(sorted) && hint > 1 && sorted != [] && AllPositive(items)
    ensures AllPositive(sorted) && NonNegative(sorted, |sorted|)
    ensures Ceil(SumIn(sorted, 0, |sorted|) / hint as real) as real > 0.0
  {
    PermutationAll(items, sorted, (x: Item<T>) => x.weight > 0.0);
    SumSplits(sorted, 0, 1, |sorted|);
    SumNonNegative(sorted, 1, |sorted|);
    assert SumIn(sorted, 0, 0) == 0.0;
    assert SumIn(sorted, 0, |sorted|) > 0.0;
  }

  lemma {:induction false} SortedSplitCount<T(!new)>(items: seq<Item<T>>, sorted: seq<Item<T>>, maxw: real, hint: int)
    requires IsSortOf(sorted, items, ByKeyAndWeight) && hint > 1
    requires maxw == Ceil(SumIn(sorted, 0, |sorted|) / hint as real) as real
    requires maxw > 0.0 && NonNegative(sorted, |sorted|)
    ensures |Blocks(sorted, maxw)| <= 2 * (hint - 1) + |KeySet(items)|
  {
    assert SortedBy(sorted, ByKey) by {
      forall i, j | 0 <= i < j < |sorted| ensures ByKey(sorted[i], sorted[j]) {
        assert ByKeyAndWeight(sorted[i], sorted[j]);
      }
    }
    hide ScanTo;
    CountBound(sorted, maxw, hint);
    StartKeysSorted(sorted, maxw);
    KeySetPermutes(items, sorted);
  }

  lemma {:induction false} SortedSplitIsGood<T(!new)>(items: seq<Item<T>>, sorted: seq<Item<T>>, maxw: real, hint: int)
    requires IsSortOf(sorted, items, ByKeyAndWeight) && hint > 1
    requires maxw == Ceil(SumIn(sorted, 0, |sorted|) / hint as real) as real
    requires maxw > 0.0 && NonNegative(sorted, |sorted|)
    ensures GoodBlocks(items, Items(Blocks(sorted, maxw)), hint)
  {
    hide ScanTo;
    var bs := Blocks(sorted, maxw);
    SortedSplitCount(items, sorted, maxw, hint);
    SplitterPartition(sorted, maxw);
    ConcatItems(bs, |bs|);
    if AllPositive(items) {
      PermutationAll(items, sorted, (x: Item<T>) => x.weight > 0.0);
    }
    forall b {:trigger Items(bs)[b]} | 0 <= b < |bs| ensures OneKey(Items(bs)[b]) {
      assert IsBlock(bs[b], maxw);
    }
  }
}
