/** Weighted sequences and the greedy splitter that cuts a list of items into blocks. */
module BlockSplitter {

  /** The key of an item; `Unspecified` is the one given to items without a key. */
  datatype Key = Unspecified | Key(id: int)

  /** An item with what the weight and the key functions say of it. */
  datatype Item<T> = Item(value: T, weight: real, key: Key)

  datatype Block<T> = Block(items: seq<Item<T>>, weight: real)

  datatype SplitError<T> = NoError | BadMaxWeight | NegativeWeight(item: Item<T>)

  /** A sequence that keeps the total weight of the items inserted. */
  class WeightedSequence<T> {
    var items: seq<T>
    var weight: real

    constructor ()
      ensures items == [] && weight == 0.0
    {
      items, weight := [], 0.0;
    }

    /** Insert as Python lists do: negative positions count from the end, others are clamped. */
    method Insert(i: int, item: T, w: real)
      modifies this
      ensures var n := |old(items)|;
        var at := if i < 0 then (if n + i < 0 then 0 else n + i) else if i > n then n else i;
        items == old(items)[..at] + [item] + old(items)[at..] && weight == old(weight) + w
    {
      var n := |items|;
      var at := if i < 0 then (if n + i < 0 then 0 else n + i) else if i > n then n else i;
      items := items[..at] + [item] + items[at..];
      weight := weight + w;
    }

    method Append(item: T, w: real)
      modifies this
      ensures items == old(items) + [item] && weight == old(weight) + w
    {
      Insert(|items|, item, w);
    }
  }

  predicate NonNegative<T>(items: seq<Item<T>>, n: nat)
    requires n <= |items|
  {
    forall i :: 0 <= i < n ==> items[i].weight >= 0.0
  }

  // ---- what the loop does, item by item ----

  /** The blocks yielded, the open one, the last key and the positions where blocks were opened. */
  datatype Scan<T> = Scan(blocks: seq<Block<T>>, ws: Block<T>, prevKey: Key, starts: seq<nat>) {
    function Current(): seq<Block<T>> {
      if ws.items == [] then blocks else blocks + [ws]
    }
  }

  function Step<T>(maxw: real, st: Scan<T>, n: nat, item: Item<T>): Scan<T> {
    var w, k := item.weight, item.key;
    if st.ws.weight + w > maxw || k != st.prevKey then
      Scan(st.Current(), Block([item], w), k, st.starts + [n])
    else if w > 0.0 then
      Scan(st.blocks, Block(st.ws.items + [item], st.ws.weight + w), k,
           if st.ws.items == [] then st.starts + [n] else st.starts)
    else st
  }

  /** The state of the loop after the first `n` items. */
  function ScanTo<T>(items: seq<Item<T>>, maxw: real, n: nat): Scan<T>
    requires n <= |items|
  {
    if n == 0 then Scan([], Block([], 0.0), Unspecified, [])
    else Step(maxw, ScanTo(items, maxw, n - 1), n - 1, items[n - 1])
  }

  function Blocks<T>(items: seq<Item<T>>, maxw: real): seq<Block<T>> {
    ScanTo(items, maxw, |items|).Current()
  }

  function Starts<T>(items: seq<Item<T>>, maxw: real): seq<nat> {
    ScanTo(items, maxw, |items|).starts
  }

  /** The blocks yielded, and the error raised at the first negative weight, if any. */
  method Split<T>(items: seq<Item<T>>, maxw: real) returns (blocks: seq<Block<T>>, error: SplitError<T>)
    ensures error.BadMaxWeight? <==> maxw <= 0.0
    ensures error.NoError? <==> maxw > 0.0 && NonNegative(items, |items|)
    ensures error.NoError? ==> blocks == Blocks(items, maxw)
    ensures error.BadMaxWeight? ==> blocks == []
    ensures error.NegativeWeight? ==> exists n: nat ::
      && n < |items| && error.item == items[n] && items[n].weight < 0.0
      && NonNegative(items, n) && blocks == ScanTo(items, maxw, n).blocks
  {
    blocks := [];
    if maxw <= 0.0 {
      error := BadMaxWeight;
      return;
    }
    var ws := new WeightedSequence();
    var prevKey := Unspecified;
    for n := 0 to |items|
      invariant fresh(ws) && NonNegative(items, n)
      invariant blocks == ScanTo(items, maxw, n).blocks && prevKey == ScanTo(items, maxw, n).prevKey
      invariant Block(ws.items, ws.weight) == ScanTo(items, maxw, n).ws
    {
      var item := items[n];
      var w, k := item.weight, item.key;
      if w < 0.0 {
        error := NegativeWeight(item);
        return;
      } else if ws.weight + w > maxw || k != prevKey {
        var newWs := new WeightedSequence();
        newWs.Append(item, w);
        if ws.items != [] {
          blocks := blocks + [Block(ws.items, ws.weight)];
        }
        ws := newWs;
      } else if w > 0.0 {
        ws.Append(item, w);
      }
      prevKey := k;
    }
    if ws.items != [] {
      blocks := blocks + [Block(ws.items, ws.weight)];
    }
    error := NoError;
  }

  // ---- what the blocks are ----

  /** The total weight of the positions from `lo` to `hi`. */
  function SumIn<T>(items: seq<Item<T>>, lo: nat, hi: nat): real
    requires hi <= |items|
  {
    if hi <= lo then 0.0 else SumIn(items, lo, hi - 1) + items[hi - 1].weight
  }

  /** The items that weigh, among the positions from `lo` to `hi`. */
  function PositivesIn<T>(items: seq<Item<T>>, lo: nat, hi: nat): seq<Item<T>>
    requires hi <= |items|
  {
    if hi <= lo then []
    else PositivesIn(items, lo, hi - 1)
         + (if items[hi - 1].weight > 0.0 then [items[hi - 1]] else [])
  }

  function EndOf(starts: seq<nat>, b: nat, n: nat): nat {
    if b + 1 < |starts| then starts[b + 1] else n
  }

  /**
   The block that covers the positions from `s` to `e`: the item that opens it and those
   of positive weight after it, all of one key, within the maximum unless it is alone.
   */
  ghost predicate BlockAt<T>(items: seq<Item<T>>, maxw: real, blk: Block<T>, s: nat, e: nat) {
    && s < e <= |items|
    && blk.items == [items[s]] + PositivesIn(items, s + 1, e)
    && blk.weight == SumIn(items, s, e)
    && (forall j :: s <= j < e ==> items[j].key == items[s].key)
    && (e > s + 1 ==> blk.weight <= maxw)
  }

  /** A block is opened only when it must be: the key changes or the item does not fit. */
  ghost predicate MustOpen<T>(items: seq<Item<T>>, maxw: real, blk: Block<T>, s: nat, next: nat) {
    s < |items| && next < |items|
    && (items[next].key != items[s].key || blk.weight + items[next].weight > maxw)
  }

  /** `blocks`, opened at the positions `starts`, are the greedy split of the first `n` items. */
  ghost predicate IsSplit<T>(items: seq<Item<T>>, maxw: real, n: nat, blocks: seq<Block<T>>, starts: seq<nat>) {
    && n <= |items| && |blocks| == |starts|
    && (forall j :: 0 <= j < n && (starts == [] || j < starts[0]) ==>
          items[j].weight == 0.0 && items[j].key == Unspecified)
    && (starts != [] ==>
          starts[0] < n && (items[starts[0]].weight > 0.0 || items[starts[0]].key != Unspecified))
    && (forall b {:trigger blocks[b]} :: 0 <= b < |blocks| ==>
          BlockAt(items, maxw, blocks[b], starts[b], EndOf(starts, b, n)) && EndOf(starts, b, n) <= n)
    && (forall b {:trigger blocks[b]} :: 0 <= b < |blocks| - 1 ==>
          MustOpen(items, maxw, blocks[b], starts[b], starts[b + 1]))
  }

  /** The open block is the last one, and its key is the previous key. */
  ghost predicate ScanValid<T>(items: seq<Item<T>>, maxw: real, n: nat, st: Scan<T>) {
    && IsSplit(items, maxw, n, st.Current(), st.starts)
    && (st.ws.items == [] <==> st.starts == [])
    && (st.ws.items == [] ==> st == Scan([], Block([], 0.0), Unspecified, []))
    && (st.ws.items != [] ==>
          var s := st.starts[|st.starts| - 1]; s < n && st.prevKey == items[s].key)
  }

  lemma {:induction false} NewBlock<T>(items: seq<Item<T>>, maxw: real, n: nat)
    requires n < |items|
    ensures BlockAt(items, maxw, Block([items[n]], items[n].weight), n, n + 1)
  {
    assert SumIn(items, n, n) == 0.0;
    assert PositivesIn(items, n + 1, n + 1) == [];
  }

  /** The last block takes in the next item. */
  function Grown<T>(maxw: real, blk: Block<T>, x: Item<T>): Block<T> {
    if x.weight > 0.0 then Block(blk.items + [x], blk.weight + x.weight) else blk
  }

  lemma {:induction false} LastBlockGrows<T>(items: seq<Item<T>>, maxw: real, n: nat, blk: Block<T>, s: nat)
    requires n < |items| && BlockAt(items, maxw, blk, s, n)
    requires items[n].key == items[s].key
    requires items[n].weight >= 0.0 && blk.weight + items[n].weight <= maxw
    ensures BlockAt(items, maxw, Grown(maxw, blk, items[n]), s, n + 1)
  {
    assert PositivesIn(items, s + 1, n + 1) ==
      PositivesIn(items, s + 1, n) + (if items[n].weight > 0.0 then [items[n]] else []);
  }

  /** The next item must open a block. */
  lemma {:induction false} SplitOpens<T>(
    items: seq<Item<T>>, maxw: real, n: nat, blocks: seq<Block<T>>, starts: seq<nat>)
    requires n < |items| && IsSplit(items, maxw, n, blocks, starts)
    requires
      if blocks == [] then items[n].weight > 0.0 || items[n].key != Unspecified
      else MustOpen(items, maxw, blocks[|blocks| - 1], starts[|starts| - 1], n)
    ensures IsSplit(items, maxw, n + 1, blocks + [Block([items[n]], items[n].weight)], starts + [n])
  {
    NewBlock(items, maxw, n);
    var blocks', starts' := blocks + [Block([items[n]], items[n].weight)], starts + [n];
    forall b {:trigger blocks'[b]} | 0 <= b < |blocks'|
      ensures BlockAt(items, maxw, blocks'[b], starts'[b], EndOf(starts', b, n + 1))
      ensures EndOf(starts', b, n + 1) <= n + 1
    {
      if b < |blocks| {
        assert BlockAt(items, maxw, blocks[b], starts[b], EndOf(starts, b, n));
      }
    }
    forall b {:trigger blocks'[b]} | 0 <= b < |blocks'| - 1
      ensures MustOpen(items, maxw, blocks'[b], starts'[b], starts'[b + 1])
    {
      if b < |blocks| - 1 {
        assert MustOpen(items, maxw, blocks[b], starts[b], starts[b + 1]);
      }
    }
  }

  /** The next item goes with the last block. */
  lemma {:induction false} SplitGrows<T>(
    items: seq<Item<T>>, maxw: real, n: nat, blocks: seq<Block<T>>, starts: seq<nat>)
    requires n < |items| && blocks != [] && IsSplit(items, maxw, n, blocks, starts)
    requires var blk, s := blocks[|blocks| - 1], starts[|starts| - 1];
      && s < n && items[n].key == items[s].key
      && items[n].weight >= 0.0 && blk.weight + items[n].weight <= maxw
    ensures var last := |blocks| - 1;
      IsSplit(items, maxw, n + 1, blocks[..last] + [Grown(maxw, blocks[last], items[n])], starts)
  {
    var last := |blocks| - 1;
    var blocks' := blocks[..last] + [Grown(maxw, blocks[last], items[n])];
    assert BlockAt(items, maxw, blocks[last], starts[last], n);
    LastBlockGrows(items, maxw, n, blocks[last], starts[last]);
    forall b {:trigger blocks'[b]} | 0 <= b < |blocks'|
      ensures BlockAt(items, maxw, blocks'[b], starts[b], EndOf(starts, b, n + 1))
      ensures EndOf(starts, b, n + 1) <= n + 1
    {
      if b < last {
        assert BlockAt(items, maxw, blocks[b], starts[b], EndOf(starts, b, n));
      }
    }
    forall b {:trigger blocks'[b]} | 0 <= b < |blocks'| - 1
      ensures MustOpen(items, maxw, blocks'[b], starts[b], starts[b + 1])
    {
      assert MustOpen(items, maxw, blocks[b], starts[b], starts[b + 1]);
    }
  }

  lemma {:induction false} FirstStepValid<T>(items: seq<Item<T>>, maxw: real, n: nat, st: Scan<T>)
    requires n < |items| && items[n].weight >= 0.0 && maxw > 0.0
    requires ScanValid(items, maxw, n, st) && st.ws.items == []
    ensures ScanValid(items, maxw, n + 1, Step(maxw, st, n, items[n]))
  {
    var blk := Block([items[n]], items[n].weight);
    if items[n].weight > 0.0 || items[n].key != Unspecified {
      SplitOpens(items, maxw, n, [], []);
      assert [] + [blk] == [blk] && [] + [n] == [n] && [] + [items[n]] == [items[n]];
      assert Step(maxw, st, n, items[n]) == Scan([], blk, items[n].key, [n]);
    }
  }

  lemma {:induction false} NextStepOpens<T>(items: seq<Item<T>>, maxw: real, n: nat, st: Scan<T>)
    requires n < |items| && ScanValid(items, maxw, n, st) && st.ws.items != []
    requires st.ws.weight + items[n].weight > maxw || items[n].key != st.prevKey
    ensures ScanValid(items, maxw, n + 1, Step(maxw, st, n, items[n]))
  {
    SplitOpens(items, maxw, n, st.blocks + [st.ws], st.starts);
  }

  lemma {:induction false} NextStepGrows<T>(items: seq<Item<T>>, maxw: real, n: nat, st: Scan<T>)
    requires n < |items| && ScanValid(items, maxw, n, st) && st.ws.items != [] && items[n].weight >= 0.0
    requires st.ws.weight + items[n].weight <= maxw && items[n].key == st.prevKey
    ensures ScanValid(items, maxw, n + 1, Step(maxw, st, n, items[n]))
  {
    var blocks := st.blocks + [st.ws];
    SplitGrows(items, maxw, n, blocks, st.starts);
    assert blocks[..|blocks| - 1] == st.blocks;
    assert Step(maxw, st, n, items[n]) == st.(ws := Grown(maxw, st.ws, items[n]));
  }

  lemma {:induction false} StepValid<T>(items: seq<Item<T>>, maxw: real, n: nat, st: Scan<T>)
    requires n < |items| && ScanValid(items, maxw, n, st) && items[n].weight >= 0.0 && maxw > 0.0
    ensures ScanValid(items, maxw, n + 1, Step(maxw, st, n, items[n]))
  {
    if st.ws.items == [] {
      FirstStepValid(items, maxw, n, st);
    } else if st.ws.weight + items[n].weight > maxw || items[n].key != st.prevKey {
      NextStepOpens(items, maxw, n, st);
    } else {
      NextStepGrows(items, maxw, n, st);
    }
  }

  /** The loop computes the greedy split, whatever the items. */
  lemma {:induction false} ScanIsSplit<T>(items: seq<Item<T>>, maxw: real, n: nat)
    requires n <= |items| && maxw > 0.0 && NonNegative(items, n)
    ensures ScanValid(items, maxw, n, ScanTo(items, maxw, n))
  {
    hide Step, ScanValid;
    if n == 0 {
      StartValid(items, maxw);
    } else {
      ScanIsSplit(items, maxw, n - 1);
      StepValid(items, maxw, n - 1, ScanTo(items, maxw, n - 1));
    }
  }

  lemma {:induction false} StartValid<T>(items: seq<Item<T>>, maxw: real)
    requires maxw > 0.0
    ensures ScanValid(items, maxw, 0, ScanTo(items, maxw, 0))
  {
  }
}
