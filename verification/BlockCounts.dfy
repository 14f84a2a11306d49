/** How many blocks a split can have. */
module BlockCounts {
  import opened BlockSplitter
  import opened SplitterTheorems

  /** The keys of the blocks. */
  function BlockKeys<T>(items: seq<Item<T>>, starts: seq<nat>): (ks: seq<Key>)
    requires forall b :: 0 <= b < |starts| ==> starts[b] < |items|
    ensures |ks| == |starts| && forall b :: 0 <= b < |ks| ==> ks[b] == items[starts[b]].key
  {
    seq(|starts|, b requires 0 <= b < |starts| => items[starts[b]].key)
  }

  /** The maximal runs of equal keys among the first `n`. */
  function Runs(ks: seq<Key>, n: nat): nat
    requires n <= |ks|
  {
    if n <= 1 then n else Runs(ks, n - 1) + (if ks[n - 1] != ks[n - 2] then 1 else 0)
  }

  /** Neighbours of equal key among the first `n`, each counted in one pair only. */
  function Pairs(ks: seq<Key>, n: nat): nat
    requires n <= |ks|
  {
    if n <= 1 then 0
    else if ks[n - 1] == ks[n - 2] then 1 + Pairs(ks, n - 2)
    else Pairs(ks, n - 1)
  }

  lemma {:induction false} PairsAndRuns(ks: seq<Key>, n: nat)
    requires n <= |ks|
    ensures n <= 2 * Pairs(ks, n) + Runs(ks, n)
  {
    if n <= 1 {
    } else {
      if ks[n - 1] == ks[n - 2] {
        PairsAndRuns(ks, n - 2);
      } else {
        PairsAndRuns(ks, n - 1);
      }
    }
  }

  /** Two consecutive blocks of the same key weigh together more than the maximum. */
  lemma {:induction false} NeighboursExceed<T>(items: seq<Item<T>>, maxw: real, b: nat)
    requires maxw > 0.0 && NonNegative(items, |items|)
    requires b + 1 < |Blocks(items, maxw)|
    ensures var blocks := Blocks(items, maxw);
      && blocks[b].items != [] && blocks[b + 1].items != []
      && (blocks[b].items[0].key == blocks[b + 1].items[0].key ==> blocks[b].weight + blocks[b + 1].weight > maxw)
  {
    var n, blocks, starts := |items|, Blocks(items, maxw), Starts(items, maxw);
    ScanIsSplit(items, maxw, n);
    SplitNeighbours(items, maxw, blocks, starts, b);
  }

  lemma {:induction false} SplitNeighbours<T>(
    items: seq<Item<T>>, maxw: real, blocks: seq<Block<T>>, starts: seq<nat>, b: nat)
    requires IsSplit(items, maxw, |items|, blocks, starts) && NonNegative(items, |items|) && b + 1 < |blocks|
    ensures starts[b] < |items| && starts[b + 1] < |items|
    ensures blocks[b].items != [] && blocks[b].items[0] == items[starts[b]]
    ensures blocks[b + 1].items != [] && blocks[b + 1].items[0] == items[starts[b + 1]]
    ensures items[starts[b]].key == items[starts[b + 1]].key ==> blocks[b].weight + blocks[b + 1].weight > maxw
  {
    assert BlockAt(items, maxw, blocks[b], starts[b], starts[b + 1]);
    assert BlockAt(items, maxw, blocks[b + 1], starts[b + 1], EndOf(starts, b + 1, |items|));
    assert MustOpen(items, maxw, blocks[b], starts[b], starts[b + 1]);
    BlockWeight(items, maxw, blocks[b + 1], starts[b + 1], EndOf(starts, b + 1, |items|));
  }

  lemma {:induction false} StartsInside<T>(items: seq<Item<T>>, maxw: real, blocks: seq<Block<T>>, starts: seq<nat>)
    requires IsSplit(items, maxw, |items|, blocks, starts)
    ensures forall b :: 0 <= b < |starts| ==> starts[b] < |items|
  {
    forall b | 0 <= b < |starts| ensures starts[b] < |items| {
      assert BlockAt(items, maxw, blocks[b], starts[b], EndOf(starts, b, |items|));
    }
  }

  /** Blocks `b` and `b + 1` have different keys or weigh together more than the maximum. */
  ghost predicate Apart<T>(blocks: seq<Block<T>>, ks: seq<Key>, maxw: real, b: nat) {
    b + 1 < |blocks| && b + 1 < |ks| && ks[b] == ks[b + 1] ==> blocks[b].weight + blocks[b + 1].weight > maxw
  }

  function Times(m: real, n: nat): real {
    if n == 0 then 0.0 else m + Times(m, n - 1)
  }

  lemma {:induction false} TimesIsProduct(m: real, n: nat)
    ensures Times(m, n) == m * n as real
  {
    if n == 0 {
    } else {
      TimesIsProduct(m, n - 1);
    }
  }

  lemma {:induction false} TimesGrows(m: real, n: nat, k: nat)
    requires m > 0.0 && n <= k
    ensures Times(m, n) <= Times(m, k)
  {
    if n >= k {
    } else {
      TimesGrows(m, n, k - 1);
    }
  }

  lemma {:induction false} PairsWeigh<T>(blocks: seq<Block<T>>, ks: seq<Key>, maxw: real, m: nat)
    requires m <= |blocks| && |ks| == |blocks|
    requires forall b :: 0 <= b < |blocks| ==> blocks[b].weight >= 0.0
    requires forall b: nat :: Apart(blocks, ks, maxw, b)
    ensures WeightTo(blocks, m) >= Times(maxw, Pairs(ks, m))
    ensures Pairs(ks, m) > 0 ==> WeightTo(blocks, m) > Times(maxw, Pairs(ks, m))
  {
    if m == 1 {
      assert WeightTo(blocks, 0) == 0.0;
    } else if m > 1 {
      if ks[m - 1] == ks[m - 2] {
        PairsWeigh(blocks, ks, maxw, m - 2);
        assert Apart(blocks, ks, maxw, m - 2);
        assert WeightTo(blocks, m) == WeightTo(blocks, m - 2) + blocks[m - 2].weight + blocks[m - 1].weight;
      } else {
        PairsWeigh(blocks, ks, maxw, m - 1);
      }
    }
  }

  lemma {:induction false} SplitIsApart<T>(
    items: seq<Item<T>>, maxw: real, blocks: seq<Block<T>>, starts: seq<nat>, ks: seq<Key>)
    requires IsSplit(items, maxw, |items|, blocks, starts) && NonNegative(items, |items|)
    requires |ks| == |blocks|
    requires forall b :: 0 <= b < |ks| ==> starts[b] < |items| && ks[b] == items[starts[b]].key
    ensures forall b :: 0 <= b < |blocks| ==> blocks[b].weight >= 0.0
    ensures forall b: nat :: Apart(blocks, ks, maxw, b)
  {
    forall b | 0 <= b < |blocks| ensures blocks[b].weight >= 0.0 {
      BlockWeight(items, maxw, blocks[b], starts[b], EndOf(starts, b, |items|));
    }
    forall b: nat ensures Apart(blocks, ks, maxw, b) {
      if b + 1 < |blocks| {
        SplitNeighbours(items, maxw, blocks, starts, b);
      }
    }
  }

  lemma {:induction false} BoundFromPairs<T>(blocks: seq<Block<T>>, ks: seq<Key>, maxw: real, h: nat)
    requires |ks| == |blocks| && maxw > 0.0 && h >= 1 && WeightTo(blocks, |blocks|) <= Times(maxw, h)
    requires forall b :: 0 <= b < |blocks| ==> blocks[b].weight >= 0.0
    requires forall b: nat :: Apart(blocks, ks, maxw, b)
    ensures |blocks| <= 2 * (h - 1) + Runs(ks, |ks|)
  {
    PairsWeigh(blocks, ks, maxw, |blocks|);
    PairsAndRuns(ks, |ks|);
    if Pairs(ks, |ks|) >= h {
      TimesGrows(maxw, h, Pairs(ks, |ks|));
    }
  }

  /** If all items weigh at most `h` maxima, there are at most 2(h - 1) blocks more than runs of keys. */
  lemma {:induction false} CountBound<T>(items: seq<Item<T>>, maxw: real, h: nat)
    requires maxw > 0.0 && NonNegative(items, |items|) && h >= 1
    requires SumIn(items, 0, |items|) <= maxw * h as real
    ensures var starts := Starts(items, maxw);
      && (forall b :: 0 <= b < |starts| ==> starts[b] < |items|)
      && |Blocks(items, maxw)| == |starts|
      && |starts| <= 2 * (h - 1) + Runs(BlockKeys(items, starts), |starts|)
  {
    var blocks, starts := Blocks(items, maxw), Starts(items, maxw);
    ScanIsSplit(items, maxw, |items|);
    hide ScanTo;
    StartsInside(items, maxw, blocks, starts);
    var ks := BlockKeys(items, starts);
    PartitionTo(items, maxw, |items|, blocks, starts, |blocks|);
    TimesIsProduct(maxw, h);
    SplitIsApart(items, maxw, blocks, starts, ks);
    BoundFromPairs(blocks, ks, maxw, h);
  }

  /** Without keys there is a single run. */
  lemma {:induction false} OneRun(ks: seq<Key>, n: nat)
    requires n <= |ks| && forall i :: 0 <= i < |ks| ==> ks[i] == ks[0]
    ensures Runs(ks, n) <= 1
  {
    if n <= 1 {
    } else {
      OneRun(ks, n - 1);
      assert ks[n - 1] == ks[0] && ks[n - 2] == ks[0];
    }
  }

  /**
   A block made at twice a maximum weight and split again at half of that maximum gives
   at most seven blocks, even when it is a single item over the limit.
   */
  lemma {:induction false} ResplitGivesAtMostSeven<T>(items: seq<Item<T>>, m: real)
    requires m > 0.0 && NonNegative(items, |items|)
    requires forall i :: 0 <= i < |items| ==> items[i].key == Unspecified
    requires SumIn(items, 0, |items|) <= 2.0 * m || |items| == 1
    ensures |Blocks(items, m / 2.0)| <= 7
  {
    var maxw := m / 2.0;
    if |items| == 1 {
      assert ScanTo(items, maxw, 0) == Scan([], Block([], 0.0), Unspecified, []);
      assert Blocks(items, maxw) == Step(maxw, ScanTo(items, maxw, 0), 0, items[0]).Current();
    } else {
      CountBound(items, maxw, 4);
      var ks := BlockKeys(items, Starts(items, maxw));
      OneRun(ks, |ks|);
    }
  }
}
