/** The slices of ruptures over which the disaggregation tasks work. */
module DisaggTasks {
  import opened BlockSplitter
  import opened SplitterTheorems

  datatype Slice = Slice(start: nat, stop: nat, grpId: Key)

  /** The rupture data: the value of each item is its index, its weight the number of sites. */
  function Rdata(grpIds: seq<int>, nsites: seq<nat>): (items: seq<Item<nat>>)
    requires |grpIds| == |nsites|
    ensures |items| == |grpIds|
    ensures forall i :: 0 <= i < |items| ==> items[i] == Item(i, nsites[i] as real, Key.Key(grpIds[i]))
  {
    seq(|grpIds|, i requires 0 <= i < |grpIds| => Item(i, nsites[i] as real, Key.Key(grpIds[i])))
  }

  function SliceOf(blk: Block<nat>): Slice
    requires blk.items != []
  {
    Slice(blk.items[0].value, blk.items[|blk.items| - 1].value + 1, blk.items[0].key)
  }

  /** The slice holds ruptures of one group only and stays before position `e`. */
  ghost predicate OneGroup(items: seq<Item<nat>>, slc: Slice, s: nat, e: nat) {
    && slc.start == s < slc.stop <= e <= |items|
    && forall j :: slc.start <= j < slc.stop ==> items[j].key == slc.grpId
  }

  /** The ruptures with sites between `s` and `e` are all in the slice. */
  ghost predicate HoldsSites(items: seq<Item<nat>>, slc: Slice, s: nat, e: nat) {
    e <= |items| && forall j :: s <= j < e && items[j].weight > 0.0 ==> slc.start <= j < slc.stop
  }

  lemma {:induction false} LastPositive(items: seq<Item<nat>>, s: nat, e: nat)
    requires s < e <= |items| && forall j :: 0 <= j < |items| ==> items[j].value == j
    ensures var xs := [items[s]] + PositivesIn(items, s + 1, e);
      var last := xs[|xs| - 1].value;
      s <= last < e && forall j :: s <= j < e && items[j].weight > 0.0 ==> j <= last
  {
    if e <= s + 1 {
    } else {
      LastPositive(items, s, e - 1);
    }
  }

  lemma {:induction false} SliceOfBlock(items: seq<Item<nat>>, maxw: real, blk: Block<nat>, s: nat, e: nat)
    requires BlockAt(items, maxw, blk, s, e) && forall j :: 0 <= j < |items| ==> items[j].value == j
    ensures OneGroup(items, SliceOf(blk), s, e) && HoldsSites(items, SliceOf(blk), s, e)
  {
    LastPositive(items, s, e);
  }

  /** The block that covers a position. */
  lemma {:induction false} BlockOf(items: seq<Item<nat>>, maxw: real, n: nat, blocks: seq<Block<nat>>,
                                   starts: seq<nat>, m: nat, j: nat) returns (b: nat)
    requires IsSplit(items, maxw, n, blocks, starts) && m <= |starts| && starts != []
    requires starts[0] <= j < Cut(starts, m, n)
    ensures b < m && starts[b] <= j < EndOf(starts, b, n)
    decreases m
  {
    if m == 0 {
      assert false;
    } else if starts[m - 1] <= j {
      b := m - 1;
    } else {
      b := BlockOf(items, maxw, n, blocks, starts, m - 1, j);
    }
  }

  /**
   The slices come in order and do not overlap, each holds ruptures of a single group, and
   together they hold every rupture that has sites.
   */
  ghost predicate GoodSlices(items: seq<Item<nat>>, slices: seq<Slice>) {
    && (forall k {:trigger slices[k]} :: 0 <= k < |slices| ==>
          OneGroup(items, slices[k], slices[k].start, |items|))
    && (forall k, l :: 0 <= k < l < |slices| ==> slices[k].stop <= slices[l].start)
    && (forall j :: 0 <= j < |items| && items[j].weight > 0.0 ==>
          exists k {:trigger slices[k]} :: 0 <= k < |slices| && slices[k].start <= j < slices[k].stop)
  }

  ghost predicate SlicesOf(items: seq<Item<nat>>, maxw: real, blocks: seq<Block<nat>>, starts: seq<nat>,
                           slices: seq<Slice>) {
    && IsSplit(items, maxw, |items|, blocks, starts) && |slices| == |blocks|
    && (forall j :: 0 <= j < |items| ==> items[j].value == j)
    && (forall b {:trigger slices[b]} :: 0 <= b < |slices| ==>
          blocks[b].items != [] && slices[b] == SliceOf(blocks[b]))
  }

  lemma {:induction false} SliceAt(items: seq<Item<nat>>, maxw: real, blocks: seq<Block<nat>>, starts: seq<nat>,
                                   slices: seq<Slice>, k: nat)
    requires SlicesOf(items, maxw, blocks, starts, slices) && k < |slices|
    ensures |starts| == |slices|
    ensures OneGroup(items, slices[k], starts[k], EndOf(starts, k, |items|))
    ensures HoldsSites(items, slices[k], starts[k], EndOf(starts, k, |items|))
  {
    assert slices[k] == SliceOf(blocks[k]);
    SliceOfBlock(items, maxw, blocks[k], starts[k], EndOf(starts, k, |items|));
  }

  lemma {:induction false} SliceBefore(items: seq<Item<nat>>, maxw: real, blocks: seq<Block<nat>>, starts: seq<nat>,
                                       slices: seq<Slice>, k: nat, l: nat)
    requires SlicesOf(items, maxw, blocks, starts, slices) && k < l < |slices|
    ensures slices[k].stop <= slices[l].start
  {
    SliceAt(items, maxw, blocks, starts, slices, k);
    SliceAt(items, maxw, blocks, starts, slices, l);
    if k + 1 < l {
      StartsIncrease(items, maxw, |items|, blocks, starts, k + 1, l);
    }
  }

  lemma {:induction false} SliceWith(items: seq<Item<nat>>, maxw: real, blocks: seq<Block<nat>>, starts: seq<nat>,
                                     slices: seq<Slice>, j: nat) returns (k: nat)
    requires SlicesOf(items, maxw, blocks, starts, slices) && j < |items| && items[j].weight > 0.0
    ensures k < |slices| && slices[k].start <= j < slices[k].stop
  {
    k := BlockOf(items, maxw, |items|, blocks, starts, |starts|, j);
    SliceAt(items, maxw, blocks, starts, slices, k);
  }

  lemma {:induction false} SlicesAreGood(items: seq<Item<nat>>, maxw: real, blocks: seq<Block<nat>>,
                                         starts: seq<nat>, slices: seq<Slice>)
    requires SlicesOf(items, maxw, blocks, starts, slices)
    ensures GoodSlices(items, slices)
  {
    forall k {:trigger slices[k]} | 0 <= k < |slices| ensures OneGroup(items, slices[k], slices[k].start, |items|) {
      hide SlicesOf;
      SliceAt(items, maxw, blocks, starts, slices, k);
    }
    forall k, l | 0 <= k < l < |slices| ensures slices[k].stop <= slices[l].start {
      hide SlicesOf;
      SliceBefore(items, maxw, blocks, starts, slices, k, l);
    }
    forall j | 0 <= j < |items| && items[j].weight > 0.0
      ensures exists k {:trigger slices[k]} :: 0 <= k < |slices| && slices[k].start <= j < slices[k].stop
    {
      hide SlicesOf;
      var k := SliceWith(items, maxw, blocks, starts, slices, j);
      assert slices[k].start <= j < slices[k].stop;
    }
  }

  lemma {:induction false} NonEmptyBlocks<T>(items: seq<Item<T>>, maxw: real)
    requires maxw > 0.0 && NonNegative(items, |items|)
    ensures forall b {:trigger Blocks(items, maxw)[b]} :: 0 <= b < |Blocks(items, maxw)| ==>
      Blocks(items, maxw)[b].items != []
  {
    hide ScanTo;
    SplitterPartition(items, maxw);
    forall b {:trigger Blocks(items, maxw)[b]} | 0 <= b < |Blocks(items, maxw)|
      ensures Blocks(items, maxw)[b].items != []
    {
      assert IsBlock(Blocks(items, maxw)[b], maxw);
    }
  }

  lemma {:induction false} BlockSlicesAreGood(items: seq<Item<nat>>, maxw: real, slices: seq<Slice>)
    requires maxw > 0.0 && NonNegative(items, |items|) && |slices| == |Blocks(items, maxw)|
    requires forall j :: 0 <= j < |items| ==> items[j].value == j
    requires forall b {:trigger slices[b]} :: 0 <= b < |slices| ==>
      Blocks(items, maxw)[b].items != [] && slices[b] == SliceOf(Blocks(items, maxw)[b])
    ensures GoodSlices(items, slices)
    ensures SlicesOf(items, maxw, Blocks(items, maxw), Starts(items, maxw), slices)
  {
    hide ScanTo, GoodSlices;
    ScanIsSplit(items, maxw, |items|);
    SlicesAreGood(items, maxw, Blocks(items, maxw), Starts(items, maxw), slices);
  }

  /** Submit one task per block of ruptures, over the slice from its first to its last index. */
  method ComputeSlices(grpIds: seq<int>, nsites: seq<nat>, maxw: real) returns (slices: seq<Slice>, ok: bool)
    requires |grpIds| == |nsites|
    ensures ok <==> maxw > 0.0
    ensures ok ==> GoodSlices(Rdata(grpIds, nsites), slices)
    ensures ok ==>
      var items := Rdata(grpIds, nsites); SlicesOf(items, maxw, Blocks(items, maxw), Starts(items, maxw), slices)
  {
    hide Blocks, GoodSlices;
    var items := Rdata(grpIds, nsites);
    var blocks, error := Split(items, maxw);
    slices, ok := [], error.NoError?;
    if ok {
      NonEmptyBlocks(items, maxw);
      for b := 0 to |blocks|
        invariant |slices| == b
        invariant forall k {:trigger slices[k]} :: 0 <= k < b ==>
          blocks[k].items != [] && slices[k] == SliceOf(blocks[k])
      {
        slices := slices + [SliceOf(blocks[b])];
      }
      BlockSlicesAreGood(items, maxw, slices);
    }
  }
}
