/** What the greedy split guarantees: it is unique, loses nothing that weighs, and has few blocks. */
module SplitterTheorems {
  import opened BlockSplitter

  predicate AllPositive<T>(items: seq<Item<T>>) {
    forall i :: 0 <= i < |items| ==> items[i].weight > 0.0
  }

  /** The items of the first `b` blocks, in order. */
  function FlattenTo<T>(blocks: seq<Block<T>>, b: nat): seq<Item<T>>
    requires b <= |blocks|
  {
    if b == 0 then [] else FlattenTo(blocks, b - 1) + blocks[b - 1].items
  }

  function Flatten<T>(blocks: seq<Block<T>>): seq<Item<T>> {
    FlattenTo(blocks, |blocks|)
  }

  function WeightTo<T>(blocks: seq<Block<T>>, b: nat): real
    requires b <= |blocks|
  {
    if b == 0 then 0.0 else WeightTo(blocks, b - 1) + blocks[b - 1].weight
  }

  /** The items that weigh or that open a block, among the positions from `lo` to `hi`. */
  function KeptIn<T>(items: seq<Item<T>>, starts: seq<nat>, lo: nat, hi: nat): seq<Item<T>>
    requires hi <= |items|
  {
    if hi <= lo then []
    else KeptIn(items, starts, lo, hi - 1)
         + (if items[hi - 1].weight > 0.0 || hi - 1 in starts then [items[hi - 1]] else [])
  }

  ghost predicate IsBlock<T>(blk: Block<T>, maxw: real) {
    && blk.items != []
    && (forall i :: 0 <= i < |blk.items| ==> blk.items[i].key == blk.items[0].key)
    && blk.weight == SumIn(blk.items, 0, |blk.items|)
    && (blk.weight > maxw ==> |blk.items| == 1)
  }

  // ---- sums ----

  lemma {:induction false} SumSplits<T>(items: seq<Item<T>>, lo: nat, mid: nat, hi: nat)
    requires lo <= mid <= hi <= |items|
    ensures SumIn(items, lo, hi) == SumIn(items, lo, mid) + SumIn(items, mid, hi)
  {
    if mid >= hi {
    } else {
      SumSplits(items, lo, mid, hi - 1);
    }
  }

  lemma {:induction false} SumNonNegative<T>(items: seq<Item<T>>, lo: nat, hi: nat)
    requires hi <= |items| && NonNegative(items, |items|)
    ensures SumIn(items, lo, hi) >= 0.0
  {
    if lo >= hi {
    } else {
      SumNonNegative(items, lo, hi - 1);
    }
  }

  lemma {:induction false} SumOfPrefix<T>(xs: seq<Item<T>>, ys: seq<Item<T>>, n: nat)
    requires n <= |xs|
    ensures SumIn(xs + ys, 0, n) == SumIn(xs, 0, n)
  {
    if n == 0 {
    } else {
      SumOfPrefix(xs, ys, n - 1);
    }
  }

  /** Leaving out what weighs nothing does not change the sum. */
  lemma {:induction false} SumOfPositives<T>(items: seq<Item<T>>, x: Item<T>, lo: nat, hi: nat)
    requires lo <= hi <= |items| && NonNegative(items, |items|)
    ensures var xs := [x] + PositivesIn(items, lo, hi);
      SumIn(xs, 0, |xs|) == x.weight + SumIn(items, lo, hi)
  {
    var xs := [x] + PositivesIn(items, lo, hi);
    if lo == hi {
      assert xs == [x];
      assert SumIn(xs, 0, 0) == 0.0;
    } else {
      SumOfPositives(items, x, lo, hi - 1);
      var before := [x] + PositivesIn(items, lo, hi - 1);
      if items[hi - 1].weight > 0.0 {
        assert xs == before + [items[hi - 1]];
        SumOfPrefix(before, [items[hi - 1]], |before|);
      } else {
        assert xs == before;
      }
    }
  }

  // ---- a block against the positions it covers ----

  lemma {:induction false} BlockWeight<T>(items: seq<Item<T>>, maxw: real, blk: Block<T>, s: nat, e: nat)
    requires BlockAt(items, maxw, blk, s, e) && NonNegative(items, |items|)
    ensures blk.weight >= items[s].weight && blk.weight >= 0.0
  {
    SumSplits(items, s, s + 1, e);
    SumNonNegative(items, s + 1, e);
    assert SumIn(items, s, s) == 0.0;
  }

  lemma {:induction false} PositivesHaveKey<T>(items: seq<Item<T>>, lo: nat, hi: nat, k: Key)
    requires hi <= |items| && forall j :: lo <= j < hi ==> items[j].key == k
    ensures forall i :: 0 <= i < |PositivesIn(items, lo, hi)| ==> PositivesIn(items, lo, hi)[i].key == k
  {
    if lo >= hi {
    } else {
      PositivesHaveKey(items, lo, hi - 1, k);
    }
  }

  lemma {:induction false} BlockIsBlock<T>(items: seq<Item<T>>, maxw: real, blk: Block<T>, s: nat, e: nat)
    requires BlockAt(items, maxw, blk, s, e) && NonNegative(items, |items|)
    ensures IsBlock(blk, maxw)
  {
    SumSplits(items, s, s + 1, e);
    assert SumIn(items, s, s) == 0.0;
    SumOfPositives(items, items[s], s + 1, e);
    PositivesHaveKey(items, s + 1, e, items[s].key);
  }

  // ---- partition ----

  lemma {:induction false} StartsIncrease<T>(items: seq<Item<T>>, maxw: real, n: nat,
                                            blocks: seq<Block<T>>, starts: seq<nat>, a: nat, b: nat)
    requires IsSplit(items, maxw, n, blocks, starts) && a < b < |starts|
    ensures starts[a] < starts[b]
  {
    assert BlockAt(items, maxw, blocks[b - 1], starts[b - 1], EndOf(starts, b - 1, n));
    if a < b - 1 {
      StartsIncrease(items, maxw, n, blocks, starts, a, b - 1);
    }
  }

  lemma {:induction false} NoStartInside<T>(items: seq<Item<T>>, maxw: real, n: nat,
                         blocks: seq<Block<T>>, starts: seq<nat>, b: nat, j: nat)
    requires IsSplit(items, maxw, n, blocks, starts) && b < |starts|
    requires starts[b] < j < EndOf(starts, b, n)
    ensures j !in starts
  {
    if j in starts {
      var i :| 0 <= i < |starts| && starts[i] == j;
      if i < b {
        StartsIncrease(items, maxw, n, blocks, starts, i, b);
      } else if i > b + 1 {
        StartsIncrease(items, maxw, n, blocks, starts, b + 1, i);
      }
    }
  }

  lemma {:induction false} KeptInBlock<T>(items: seq<Item<T>>, maxw: real, n: nat,
                                         blocks: seq<Block<T>>, starts: seq<nat>, b: nat, e: nat)
    requires IsSplit(items, maxw, n, blocks, starts) && b < |starts|
    requires starts[b] < e <= EndOf(starts, b, n) && e <= |items|
    ensures KeptIn(items, starts, starts[b], e) == [items[starts[b]]] + PositivesIn(items, starts[b] + 1, e)
  {
    var s := starts[b];
    if e == s + 1 {
      assert KeptIn(items, starts, s, s) == [];
      assert s in starts;
    } else {
      KeptInBlock(items, maxw, n, blocks, starts, b, e - 1);
      NoStartInside(items, maxw, n, blocks, starts, b, e - 1);
    }
  }

  lemma {:induction false} KeptSplits<T>(items: seq<Item<T>>, starts: seq<nat>, lo: nat, mid: nat, hi: nat)
    requires lo <= mid <= hi <= |items|
    ensures KeptIn(items, starts, lo, hi) == KeptIn(items, starts, lo, mid) + KeptIn(items, starts, mid, hi)
  {
    if mid >= hi {
    } else {
      KeptSplits(items, starts, lo, mid, hi - 1);
    }
  }

  /** Where the first `b` blocks end. */
  function Cut(starts: seq<nat>, b: nat, n: nat): nat {
    if b < |starts| then starts[b] else n
  }

  lemma {:induction false} NoStartBefore<T>(items: seq<Item<T>>, maxw: real, n: nat,
                         blocks: seq<Block<T>>, starts: seq<nat>, j: nat)
    requires IsSplit(items, maxw, n, blocks, starts) && j < Cut(starts, 0, n)
    ensures j !in starts
  {
    if j in starts {
      var i :| 0 <= i < |starts| && starts[i] == j;
      if i > 0 {
        StartsIncrease(items, maxw, n, blocks, starts, 0, i);
      }
    }
  }

  lemma {:induction false} LeadIsEmpty<T>(items: seq<Item<T>>, maxw: real, n: nat,
                                         blocks: seq<Block<T>>, starts: seq<nat>, c: nat)
    requires IsSplit(items, maxw, n, blocks, starts) && c <= Cut(starts, 0, n)
    ensures KeptIn(items, starts, 0, c) == [] && SumIn(items, 0, c) == 0.0
  {
    if c == 0 {
    } else {
      hide BlockAt, MustOpen;
      LeadIsEmpty(items, maxw, n, blocks, starts, c - 1);
      NoStartBefore(items, maxw, n, blocks, starts, c - 1);
      assert items[c - 1].weight == 0.0;
    }
  }

  /** A block covers the positions up to where the next one starts. */
  lemma {:induction false} BlockCovers<T>(items: seq<Item<T>>, maxw: real, n: nat,
                                         blocks: seq<Block<T>>, starts: seq<nat>, b: nat)
    requires IsSplit(items, maxw, n, blocks, starts) && b < |blocks|
    ensures |blocks| == |starts| && Cut(starts, b + 1, n) == EndOf(starts, b, n)
    ensures var s, c := starts[b], Cut(starts, b + 1, n);
      s < c <= n <= |items| && blocks[b].items == [items[s]] + PositivesIn(items, s + 1, c)
      && blocks[b].weight == SumIn(items, s, c)
  {
    hide PositivesIn, SumIn;
    assert BlockAt(items, maxw, blocks[b], starts[b], EndOf(starts, b, n));
  }

  lemma {:induction false} PartitionTo<T>(items: seq<Item<T>>, maxw: real, n: nat,
                                         blocks: seq<Block<T>>, starts: seq<nat>, b: nat)
    requires IsSplit(items, maxw, n, blocks, starts) && b <= |blocks|
    ensures var c := Cut(starts, b, n);
      && c <= n <= |items|
      && FlattenTo(blocks, b) == KeptIn(items, starts, 0, c)
      && WeightTo(blocks, b) == SumIn(items, 0, c)
  {
    hide KeptIn, SumIn, IsSplit;
    if b == 0 {
      CutInside(items, maxw, n, blocks, starts);
      LeadIsEmpty(items, maxw, n, blocks, starts, Cut(starts, 0, n));
    } else {
      PartitionTo(items, maxw, n, blocks, starts, b - 1);
      BlockCovers(items, maxw, n, blocks, starts, b - 1);
      OneMoreBlock(items, maxw, n, blocks, starts, b - 1);
    }
  }

  lemma {:induction false} CutInside<T>(
    items: seq<Item<T>>, maxw: real, n: nat, blocks: seq<Block<T>>, starts: seq<nat>)
    requires IsSplit(items, maxw, n, blocks, starts)
    ensures Cut(starts, 0, n) <= n <= |items|
  {
    hide BlockAt, MustOpen;
  }

  lemma {:induction false} OneMoreBlock<T>(items: seq<Item<T>>, maxw: real, n: nat,
                                          blocks: seq<Block<T>>, starts: seq<nat>, b: nat)
    requires IsSplit(items, maxw, n, blocks, starts) && b < |blocks| == |starts|
    requires var s, c := Cut(starts, b, n), Cut(starts, b + 1, n);
      && s == starts[b] < c <= n <= |items|
      && FlattenTo(blocks, b) == KeptIn(items, starts, 0, s) && WeightTo(blocks, b) == SumIn(items, 0, s)
      && blocks[b].items == [items[s]] + PositivesIn(items, s + 1, c)
      && blocks[b].weight == SumIn(items, s, c)
    ensures var c := Cut(starts, b + 1, n);
      FlattenTo(blocks, b + 1) == KeptIn(items, starts, 0, c) && WeightTo(blocks, b + 1) == SumIn(items, 0, c)
  {
    hide KeptIn, SumIn, PositivesIn, IsSplit;
    var s, c := starts[b], Cut(starts, b + 1, n);
    KeptInBlock(items, maxw, n, blocks, starts, b, c);
    KeptSplits(items, starts, 0, s, c);
    SumSplits(items, 0, s, c);
  }

  lemma {:induction false} KeepsAll<T>(items: seq<Item<T>>, starts: seq<nat>, n: nat)
    requires n <= |items| && AllPositive(items)
    ensures KeptIn(items, starts, 0, n) == items[..n]
  {
    if n == 0 {
    } else {
      KeepsAll(items, starts, n - 1);
    }
  }

  /**
   The blocks, concatenated, are the items in order, without those that weigh nothing and
   do not open a block; in particular items that all weigh are all there. Each block has
   one key and the weight of its items, and only a single item can exceed the maximum.
   */
  lemma {:induction false} SplitterPartition<T>(items: seq<Item<T>>, maxw: real)
    requires maxw > 0.0 && NonNegative(items, |items|)
    ensures var blocks, starts := Blocks(items, maxw), Starts(items, maxw);
      && Flatten(blocks) == KeptIn(items, starts, 0, |items|)
      && (AllPositive(items) ==> Flatten(blocks) == items)
      && WeightTo(blocks, |blocks|) == SumIn(items, 0, |items|)
      && forall b {:trigger blocks[b]} :: 0 <= b < |blocks| ==> IsBlock(blocks[b], maxw)
  {
    var blocks, starts := Blocks(items, maxw), Starts(items, maxw);
    ScanIsSplit(items, maxw, |items|);
    PartitionTo(items, maxw, |items|, blocks, starts, |blocks|);
    if AllPositive(items) {
      KeepsAll(items, starts, |items|);
      assert items[..|items|] == items;
    }
    forall b {:trigger blocks[b]} | 0 <= b < |blocks| ensures IsBlock(blocks[b], maxw) {
      BlockIsBlock(items, maxw, blocks[b], starts[b], EndOf(starts, b, |items|));
    }
  }

  // ---- the split is the only one ----

  /** A position where a block must be opened cannot be inside another block from the same start. */
  lemma {:induction false} NoRoomInside<T>(
    items: seq<Item<T>>, maxw: real, blk: Block<T>, s: nat, e: nat, blk': Block<T>, e': nat)
    requires BlockAt(items, maxw, blk, s, e) && BlockAt(items, maxw, blk', s, e')
    requires e < e' && NonNegative(items, |items|)
    ensures !MustOpen(items, maxw, blk, s, e)
  {
    SumSplits(items, s, e, e');
    SumSplits(items, e, e + 1, e');
    SumNonNegative(items, e + 1, e');
    assert SumIn(items, e, e) == 0.0;
  }

  lemma {:induction false} StartsAgree<T>(items: seq<Item<T>>, maxw: real, n: nat,
    blocks: seq<Block<T>>, starts: seq<nat>, blocks': seq<Block<T>>, starts': seq<nat>, b: nat)
    requires IsSplit(items, maxw, n, blocks, starts) && IsSplit(items, maxw, n, blocks', starts')
    requires NonNegative(items, |items|) && b <= |blocks| && b <= |blocks'|
    ensures Cut(starts, b, n) == Cut(starts', b, n)
    ensures blocks[..b] == blocks'[..b]
  {
    if b == 0 {
    } else {
      StartsAgree(items, maxw, n, blocks, starts, blocks', starts', b - 1);
      var c, c', s := Cut(starts, b, n), Cut(starts', b, n), starts[b - 1];
      var blk, blk' := blocks[b - 1], blocks'[b - 1];
      assert BlockAt(items, maxw, blk, s, c) && BlockAt(items, maxw, blk', s, c');
      if c < c' {
        assert MustOpen(items, maxw, blk, s, c);
        NoRoomInside(items, maxw, blk, s, c, blk', c');
      } else if c' < c {
        assert MustOpen(items, maxw, blk', s, c');
        NoRoomInside(items, maxw, blk', s, c', blk, c);
      }
      assert blocks[..b] == blocks[..b - 1] + [blk] && blocks'[..b] == blocks'[..b - 1] + [blk'];
    }
  }

  /** Whatever is a greedy split of the items is what the loop yields. */
  lemma {:induction false} GreedySplitUnique<T>(
    items: seq<Item<T>>, maxw: real, blocks: seq<Block<T>>, starts: seq<nat>)
    requires maxw > 0.0 && NonNegative(items, |items|)
    requires IsSplit(items, maxw, |items|, blocks, starts)
    ensures blocks == Blocks(items, maxw)
  {
    var n := |items|;
    var blocks', starts' := Blocks(items, maxw), Starts(items, maxw);
    ScanIsSplit(items, maxw, n);
    var m := if |blocks| < |blocks'| then |blocks| else |blocks'|;
    StartsAgree(items, maxw, n, blocks, starts, blocks', starts', m);
    if |blocks| > m {
      LastCutInside(items, maxw, n, blocks, starts, m);
    } else if |blocks'| > m {
      LastCutInside(items, maxw, n, blocks', starts', m);
    }
    assert blocks == blocks[..m] && blocks' == blocks'[..m];
  }

  lemma {:induction false} LastCutInside<T>(
    items: seq<Item<T>>, maxw: real, n: nat, blocks: seq<Block<T>>, starts: seq<nat>, m: nat)
    requires IsSplit(items, maxw, n, blocks, starts) && m < |blocks|
    ensures Cut(starts, m, n) < n
  {
    assert BlockAt(items, maxw, blocks[m], starts[m], EndOf(starts, m, n));
  }

  lemma {:induction false} InFlatten<T>(blocks: seq<Block<T>>, n: nat, b: nat, x: Item<T>)
    requires b < n <= |blocks| && x in blocks[b].items
    ensures x in FlattenTo(blocks, n)
  {
    if b >= n - 1 {
    } else {
      InFlatten(blocks, n - 1, b, x);
    }
  }
}
