/** Tasks that cut their own work: part of it is done in place, the rest is sent out as subtasks. */
module WorkSplit {
  import opened Folds
  import opened BlockSplitter
  import opened SplitterTheorems
  import opened Sorting

  /** What a splitting task yields: a partial result, a subtask or a result without contributions. */
  datatype Yield<T> = Computed(work: seq<T>) | Shipped(work: seq<T>) | Empty

  datatype TaskError<T> = Done | NothingToDo | ZeroWeight | NoBlocks | Unsplittable(error: SplitError<T>)

  function Values<T>(items: seq<Item<T>>): (vs: seq<T>)
    ensures |vs| == |items| && forall i :: 0 <= i < |vs| ==> vs[i] == items[i].value
  {
    seq(|items|, i requires 0 <= i < |items| => items[i].value)
  }

  /** The items as they are seen through another weight function and without keys. */
  function Reweighed<T>(items: seq<Item<T>>, unit: real): (r: seq<Item<T>>)
    ensures |r| == |items|
    ensures forall i :: 0 <= i < |r| ==> r[i] == Item(items[i].value, items[i].weight * unit, Unspecified)
  {
    seq(|items|, i requires 0 <= i < |items| => Item(items[i].value, items[i].weight * unit, Unspecified))
  }

  /** How many times `x` occurs. */
  function Count<T(==)>(xs: seq<T>, x: T): nat {
    multiset(xs)[x]
  }

  /** How many times `x` is computed, in place or by the subtasks. */
  function Work<T(==)>(ys: seq<Yield<T>>, x: T): nat {
    if ys == [] then 0
    else Work(ys[..|ys| - 1], x) + (if ys[|ys| - 1].Empty? then 0 else Count(ys[|ys| - 1].work, x))
  }

  /** Everything is computed exactly as many times as it is given. */
  ghost predicate Covers<T(!new)>(ys: seq<Yield<T>>, given: seq<T>) {
    forall x :: Work(ys, x) == Count(given, x)
  }

  function ShippedCount<T>(ys: seq<Yield<T>>): nat {
    if ys == [] then 0 else ShippedCount(ys[..|ys| - 1]) + (if ys[|ys| - 1].Shipped? then 1 else 0)
  }

  lemma {:induction false} WorkSnoc<T>(ys: seq<Yield<T>>, y: Yield<T>, x: T)
    ensures Work(ys + [y], x) == Work(ys, x) + (if y.Empty? then 0 else Count(y.work, x))
  {
    assert (ys + [y])[..|ys|] == ys;
  }

  lemma {:induction false} ShippedSnoc<T>(ys: seq<Yield<T>>, y: Yield<T>)
    ensures ShippedCount(ys + [y]) == ShippedCount(ys) + (if y.Shipped? then 1 else 0)
  {
    assert (ys + [y])[..|ys|] == ys;
  }

  lemma {:induction false} CountConcat<T>(xs: seq<T>, ys: seq<T>, x: T)
    ensures Count(xs + ys, x) == Count(xs, x) + Count(ys, x)
  {
  }

  predicate ByWeightDown<T>(a: Item<T>, b: Item<T>) {
    a.weight >= b.weight
  }

  lemma {:induction false} ValuesConcat<T>(xs: seq<Item<T>>, ys: seq<Item<T>>, x: T)
    ensures Values(xs + ys) == Values(xs) + Values(ys)
    ensures Count(Values(xs + ys), x) == Count(Values(xs), x) + Count(Values(ys), x)
  {
    assert Values(xs + ys) == Values(xs) + Values(ys);
  }

  lemma {:induction false} ValuesBag<T(!new)>(b: Item<T> -> multiset<T>, items: seq<Item<T>>)
    requires forall x :: b(x) == multiset{x.value}
    ensures Bag(b, items) == multiset(Values(items))
  {
    if items == [] {
    } else {
      ValuesBag(b, items[1..]);
      assert Values(items) == [items[0].value] + Values(items[1..]);
    }
  }

  lemma {:induction false} ValuesPermute<T(!new)>(xs: seq<Item<T>>, ys: seq<Item<T>>)
    requires multiset(xs) == multiset(ys)
    ensures multiset(Values(xs)) == multiset(Values(ys))
  {
    var b := (x: Item<T>) => multiset{x.value};
    BagPermutation(b, xs, ys);
    ValuesBag(b, xs);
    ValuesBag(b, ys);
  }

  // ---- elements without weight ----

  function Weightless<T>(items: seq<Item<T>>): (n: nat)
    ensures n <= |items|
  {
    if items == [] then 0 else (if items[0].weight == 0.0 then 1 else 0) + Weightless(items[1..])
  }

  function Heaviest<T>(items: seq<Item<T>>): (w: real)
    requires items != []
    ensures forall i :: 0 <= i < |items| ==> items[i].weight <= w
    ensures exists i :: 0 <= i < |items| && items[i].weight == w
  {
    if |items| == 1 then items[0].weight
    else
      var w := Heaviest(items[1..]);
      assert forall i :: 0 <= i < |items| - 1 ==> items[1..][i] == items[i + 1];
      if items[0].weight >= w then items[0].weight else w
  }

  /**
   Every element weighs, or all but one, and each one that weighs lasts longer than
   `duration`, when the heaviest one lasts `elapsed`.
   */
  ghost predicate AllCanBeKept<T>(args: seq<Item<T>>, elapsed: real, duration: real)
    requires args != []
  {
    Weightless(args) == 0 || (Weightless(args) == 1 && AllLong(args, elapsed, duration, Heaviest(args)))
  }

  ghost predicate AllLong<T>(args: seq<Item<T>>, elapsed: real, duration: real, heaviest: real) {
    forall i :: 0 <= i < |args| ==> IsLong(args[i].weight, elapsed, duration, heaviest)
  }

  predicate IsLong(w: real, elapsed: real, duration: real, heaviest: real) {
    w == 0.0 || w * elapsed > duration * heaviest
  }

  lemma {:induction false} WeightlessIsBag<T>(items: seq<Item<T>>, b: Item<T> -> multiset<bool>)
    requires forall x :: b(x) == if x.weight == 0.0 then multiset{true} else multiset{}
    ensures |Bag(b, items)| == Weightless(items)
  {
    if items == [] {
    } else {
      WeightlessIsBag(items[1..], b);
    }
  }

  lemma {:induction false} SameWeights<T(!new)>(xs: seq<Item<T>>, ys: seq<Item<T>>)
    requires multiset(xs) == multiset(ys) && xs != []
    ensures Weightless(xs) == Weightless(ys) && |xs| == |ys| && Heaviest(xs) == Heaviest(ys)
    ensures NonNegative(xs, |xs|) ==> NonNegative(ys, |ys|)
  {
    var b := (x: Item<T>) => if x.weight == 0.0 then multiset{true} else multiset{};
    WeightlessIsBag(xs, b);
    WeightlessIsBag(ys, b);
    BagPermutation(b, xs, ys);
    PermutationLength(xs, ys);
    var i :| 0 <= i < |xs| && xs[i].weight == Heaviest(xs);
    var j :| 0 <= j < |ys| && ys[j].weight == Heaviest(ys);
    assert xs[i] in ys && ys[j] in xs;
    if NonNegative(xs, |xs|) {
      PermutationAll(xs, ys, (x: Item<T>) => x.weight >= 0.0);
    }
  }

  lemma {:induction false} WeightlessLast<T>(items: seq<Item<T>>, n: nat)
    requires n < |items|
    ensures Weightless(items[..n + 1]) == Weightless(items[..n]) + if items[n].weight == 0.0 then 1 else 0
    decreases n
  {
    if n == 0 {
      assert items[..1][1..] == [];
    } else {
      assert items[..n + 1][1..] == items[1..][..n] && items[..n][1..] == items[1..][..n - 1];
      WeightlessLast(items[1..], n - 1);
    }
  }

  /** The elements that weigh come first. */
  lemma {:induction false} WeighingFirst<T>(items: seq<Item<T>>, n: nat)
    requires n <= |items| && SortedBy(items, ByWeightDown) && NonNegative(items, |items|)
    ensures Weightless(items[..n]) <= n
    ensures forall i :: 0 <= i < n ==> (items[i].weight > 0.0 <==> i < n - Weightless(items[..n]))
  {
    if n == 0 {
    } else {
      WeighingFirst(items, n - 1);
      WeightlessLast(items, n - 1);
      assert n > 1 ==> ByWeightDown(items[n - 2], items[n - 1]);
      hide Weightless;
    }
  }

  /** The items taken into the blocks so far. */
  function Taken<T>(st: Scan<T>): seq<Item<T>> {
    Flatten(st.blocks) + st.ws.items
  }

  lemma {:induction false} TakenIsFlat<T>(st: Scan<T>)
    ensures Taken(st) == Flatten(st.Current())
  {
    if st.ws.items == [] {
      assert Flatten(st.blocks) + [] == Flatten(st.blocks);
    } else {
      FlattenPrefix(st.blocks, st.ws, |st.blocks|);
    }
  }

  lemma {:induction false} FlattenPrefix<T>(blocks: seq<Block<T>>, last: Block<T>, n: nat)
    requires n <= |blocks|
    ensures FlattenTo(blocks + [last], n) == FlattenTo(blocks, n)
  {
    if n == 0 {
    } else {
      FlattenPrefix(blocks, last, n - 1);
    }
  }

  lemma {:induction false} StepTakes<T>(maxw: real, st: Scan<T>, n: nat, x: Item<T>)
    ensures Taken(Step(maxw, st, n, x)) ==
      if st.ws.weight + x.weight > maxw || x.key != st.prevKey || x.weight > 0.0 then Taken(st) + [x] else Taken(st)
  {
    TakenIsFlat(st);
    if st.ws.weight + x.weight > maxw || x.key != st.prevKey {
    } else if x.weight > 0.0 {
      assert Flatten(st.blocks) + (st.ws.items + [x]) == (Flatten(st.blocks) + st.ws.items) + [x];
    }
  }

  /** Items without key, the first `q` weighing and the others not. */
  ghost predicate WeighUpTo<T>(items: seq<Item<T>>, q: nat) {
    && 0 < q <= |items|
    && forall i :: 0 <= i < |items| ==>
         items[i].key == Unspecified && items[i].weight >= 0.0 && (items[i].weight > 0.0 <==> i < q)
  }

  /** How many of the items the blocks hold: at most one that weighs nothing, after one that is too heavy. */
  function Held<T>(items: seq<Item<T>>, maxw: real, q: nat): (k: nat)
    requires 0 < q <= |items|
    ensures k <= |items|
  {
    if q < |items| && items[q - 1].weight > maxw then q + 1 else q
  }

  /** The open block is too heavy exactly after a last item that is. */
  ghost predicate OpenWeight<T>(items: seq<Item<T>>, maxw: real, q: nat, n: nat)
    requires n <= |items|
  {
    var st := ScanTo(items, maxw, n);
    && st.prevKey == Unspecified && st.ws.weight >= 0.0
    && (n == 0 ==> st.ws.weight == 0.0)
    && (0 < n <= q ==> (st.ws.weight > maxw <==> items[n - 1].weight > maxw))
    && (n > q ==> st.ws.weight <= maxw)
  }

  lemma {:induction false} OpenWeightKept<T>(items: seq<Item<T>>, maxw: real, q: nat, n: nat)
    requires maxw > 0.0 && WeighUpTo(items, q) && n <= |items|
    ensures OpenWeight(items, maxw, q, n)
  {
    if n == 0 {
    } else {
      OpenWeightKept(items, maxw, q, n - 1);
    }
  }

  function HeldTo<T>(items: seq<Item<T>>, maxw: real, q: nat, n: nat): (k: nat)
    requires 0 < q <= |items| && n <= |items|
    ensures k <= |items|
  {
    if n <= q then n else Held(items, maxw, q)
  }

  lemma {:induction false} TakenDown<T>(items: seq<Item<T>>, maxw: real, q: nat, n: nat)
    requires maxw > 0.0 && WeighUpTo(items, q) && n <= |items|
    ensures Taken(ScanTo(items, maxw, n)) == items[..HeldTo(items, maxw, q, n)]
  {
    if n == 0 {
    } else {
      hide Taken, ScanTo, OpenWeight, HeldTo;
      TakenDown(items, maxw, q, n - 1);
      OpenWeightKept(items, maxw, q, n - 1);
      OneMore(items, maxw, q, n - 1);
    }
  }

  lemma {:induction false} TakesIff<T>(items: seq<Item<T>>, maxw: real, q: nat, n: nat)
    requires WeighUpTo(items, q) && n < |items| && OpenWeight(items, maxw, q, n)
    ensures var st, x, k := ScanTo(items, maxw, n), items[n], HeldTo(items, maxw, q, n);
      if st.ws.weight + x.weight > maxw || x.key != st.prevKey || x.weight > 0.0
      then k == n && HeldTo(items, maxw, q, n + 1) == n + 1
      else HeldTo(items, maxw, q, n + 1) == k
  {
    hide ScanTo;
  }

  lemma {:induction false} OneMore<T>(items: seq<Item<T>>, maxw: real, q: nat, n: nat)
    requires WeighUpTo(items, q) && n < |items| && OpenWeight(items, maxw, q, n)
    requires Taken(ScanTo(items, maxw, n)) == items[..HeldTo(items, maxw, q, n)]
    ensures Taken(ScanTo(items, maxw, n + 1)) == items[..HeldTo(items, maxw, q, n + 1)]
  {
    var st, x, k := ScanTo(items, maxw, n), items[n], HeldTo(items, maxw, q, n);
    assert ScanTo(items, maxw, n + 1) == Step(maxw, st, n, x);
    hide Taken, Step, ScanTo, OpenWeight, WeighUpTo, HeldTo;
    StepTakes(maxw, st, n, x);
    TakesIff(items, maxw, q, n);
    if st.ws.weight + x.weight > maxw || x.key != st.prevKey || x.weight > 0.0 {
      TakeNext(items, n);
      assert Taken(Step(maxw, st, n, x)) == items[..n] + [x];
    } else {
      assert Taken(Step(maxw, st, n, x)) == items[..k];
    }
  }

  lemma {:induction false} TakeNext<X>(xs: seq<X>, n: nat)
    requires n < |xs|
    ensures xs[..n + 1] == xs[..n] + [xs[n]]
  {
  }

  /** The blocks hold the elements that weigh, and at most one other. */
  lemma {:induction false} BlocksHold<T>(items: seq<Item<T>>, maxw: real, q: nat)
    requires maxw > 0.0 && WeighUpTo(items, q)
    ensures Flatten(Blocks(items, maxw)) == items[..Held(items, maxw, q)] && Blocks(items, maxw) != []
  {
    TakenDown(items, maxw, q, |items|);
    TakenIsFlat(ScanTo(items, maxw, |items|));
    hide ScanTo, Taken;
    assert Flatten(Blocks(items, maxw)) == Taken(ScanTo(items, maxw, |items|));
    assert |Flatten(Blocks(items, maxw))| > 0;
  }

  // ---- split_task ----

  /** The first `n` blocks as subtasks. */
  function Ships<T>(blocks: seq<Block<T>>, n: nat): (out: seq<Yield<T>>)
    requires n <= |blocks|
    ensures |out| == n && forall i :: 0 <= i < n ==> out[i].Shipped?
  {
    if n == 0 then [] else Ships(blocks, n - 1) + [Shipped(Values(blocks[n - 1].items))]
  }

  lemma {:induction false} ShipsWork<T>(blocks: seq<Block<T>>, n: nat, x: T)
    requires n <= |blocks|
    ensures Work(Ships(blocks, n), x) == Count(Values(FlattenTo(blocks, n)), x)
  {
    if n == 0 {
    } else {
      ShipsWork(blocks, n - 1, x);
      WorkSnoc(Ships(blocks, n - 1), Shipped(Values(blocks[n - 1].items)), x);
      ValuesConcat(FlattenTo(blocks, n - 1), blocks[n - 1].items, x);
    }
  }

  /** Send out all the blocks but the last one, that is computed in place. */
  method ShipBlocks<T(!new)>(blocks: seq<Block<T>>) returns (out: seq<Yield<T>>)
    requires blocks != []
    ensures |out| == |blocks| && out[|out| - 1] == Computed(Values(blocks[|blocks| - 1].items))
    ensures forall b :: 0 <= b < |out| - 1 ==> out[b] == Shipped(Values(blocks[b].items))
    ensures Covers(out, Values(Flatten(blocks)))
  {
    var n := |blocks| - 1;
    out := [];
    for b := 0 to n
      invariant out == Ships(blocks, b)
      invariant forall a :: 0 <= a < b ==> out[a] == Shipped(Values(blocks[a].items))
    {
      out := out + [Shipped(Values(blocks[b].items))];
    }
    out := out + [Computed(Values(blocks[n].items))];
    forall x ensures Work(out, x) == Count(Values(Flatten(blocks)), x) {
      ShipsWork(blocks, n, x);
      WorkSnoc(Ships(blocks, n), Computed(Values(blocks[n].items)), x);
      ValuesConcat(FlattenTo(blocks, n), blocks[n].items, x);
    }
  }

  /**
   Compute the heaviest element and measure the time; cut the others in blocks that should
   last `duration` each; compute the last block in place and send out the others. For
   elements that weigh, all the work is done exactly when the measured time is positive.
   Of the elements that do not, one is computed only if it opens a block after an element
   that is too heavy itself, and the others are lost. `elements` are the elements as sorted.
   */
  method SplitTask<T(!new)>(args: seq<Item<T>>, elapsed: real, duration: real)
    returns (out: seq<Yield<T>>, error: TaskError<T>, ghost elements: seq<Item<T>>)
    ensures multiset(elements) == multiset(args)
    ensures forall i, j :: 0 <= i < j < |elements| ==> elements[i].weight >= elements[j].weight
    ensures error.Done? && |args| > 1 ==> IsTimedCut(out, elements, elapsed, duration)
    ensures error.Unsplittable? || error.NoBlocks? ==> elements != [] && out == [Computed([elements[0].value])]
    ensures error.NothingToDo? || error.ZeroWeight? ==> out == []
    ensures args == [] <==> error.NothingToDo?
    ensures |args| == 1 ==> error.Done? && out == [Computed([args[0].value])]
    ensures AllPositive(args) && duration > 0.0 && |args| > 1 ==>
      (error.Done? <==> elapsed > 0.0) && (error.NoBlocks? <==> elapsed == 0.0)
    ensures AllPositive(args) && error.Done? ==> Covers(out, Values(args))
    ensures NonNegative(args, |args|) && |args| > 1 ==>
      (error.Done? <==> elapsed > 0.0 && duration > 0.0 && Weightless(args) + 2 <= |args|)
    ensures NonNegative(args, |args|) && |args| > 1 && error.Done? ==>
      (Covers(out, Values(args)) <==> AllCanBeKept(args, elapsed, duration))
    ensures error.Done? ==> out != [] && out[0].Computed? && out[|out| - 1].Computed?
    ensures error.Done? ==> forall i :: 0 < i < |out| - 1 ==> out[i].Shipped?
  {
    hide Covers, Values, AllCanBeKept, Weightless, IsTimedCut;
    out, error := [], Done;
    var sorted := Sort(args, ByWeightDown);
    elements := sorted;
    PermutationLength(args, sorted);
    assert forall i, j :: 0 <= i < j < |sorted| ==> ByWeightDown(sorted[i], sorted[j]);
    hide SortedBy;
    if sorted == [] {
      error := NothingToDo;
      return;
    }
    if |sorted| == 1 {
      out := [Computed([args[0].value])];
      OneElement(args);
      return;
    }
    out, error := SplitElements(args, sorted, elapsed, duration);
    if AllPositive(args) {
      AllKept(args, elapsed, duration);
    }
  }

  lemma {:induction false} AllKept<T>(args: seq<Item<T>>, elapsed: real, duration: real)
    requires args != [] && AllPositive(args)
    ensures AllCanBeKept(args, elapsed, duration)
  {
    NoneWeightless(args);
  }

  lemma {:induction false} NoneWeightless<T>(args: seq<Item<T>>)
    requires AllPositive(args)
    ensures Weightless(args) == 0
  {
    if args == [] {
    } else {
      NoneWeightless(args[1..]);
    }
  }

  /**
   The first element is computed, then each block of the greedy split of the others: the
   weight of an element is the time it should last, in proportion to the first one.
   */
  ghost predicate IsTimedCut<T>(out: seq<Yield<T>>, elements: seq<Item<T>>, elapsed: real, duration: real) {
    && elements != [] && elements[0].weight != 0.0
    && out != [] && out[0] == Computed([elements[0].value])
    && var timed := TimedRest(elements, elapsed); var blocks := Blocks(timed, duration);
       && IsSplit(timed, duration, |timed|, blocks, Starts(timed, duration))
       && |out| == |blocks| + 1
       && forall b :: 0 <= b < |blocks| ==> !out[b + 1].Empty? && out[b + 1].work == Values(blocks[b].items)
  }

  lemma {:induction false} OneElement<T(!new)>(args: seq<Item<T>>)
    requires |args| == 1
    ensures Covers([Computed([args[0].value])], Values(args))
  {
    var y := Computed([args[0].value]);
    assert Values(args) == [args[0].value] && [] + [y] == [y];
    forall x ensures Work([y], x) == Count(Values(args), x) {
      WorkSnoc([], y, x);
    }
  }

  /** What is yielded for more than one element, and when. */
  ghost predicate Outcome<T(!new)>(
    args: seq<Item<T>>, elements: seq<Item<T>>, elapsed: real, duration: real, out: seq<Yield<T>>, error: TaskError<T>)
    requires elements != []
  {
    && !error.NothingToDo?
    && (error.Done? ==> IsTimedCut(out, elements, elapsed, duration))
    && (error.Unsplittable? || error.NoBlocks? ==> out == [Computed([elements[0].value])])
    && (error.ZeroWeight? ==> out == [])
    && (AllPositive(args) && duration > 0.0 ==>
          (error.Done? <==> elapsed > 0.0) && (error.NoBlocks? <==> elapsed == 0.0))
    && (NonNegative(args, |args|) ==>
          (error.Done? <==> elapsed > 0.0 && duration > 0.0 && Weightless(args) + 2 <= |args|))
    && (NonNegative(args, |args|) && error.Done? ==>
          (Covers(out, Values(args)) <==> AllCanBeKept(args, elapsed, duration)))
    && (error.Done? ==> out != [] && out[0].Computed? && out[|out| - 1].Computed?)
    && (error.Done? ==> forall i :: 0 < i < |out| - 1 ==> out[i].Shipped?)
  }

  /** The case of more than one element, already sorted. */
  method SplitElements<T(!new)>(ghost args: seq<Item<T>>, elements: seq<Item<T>>, elapsed: real, duration: real)
    returns (out: seq<Yield<T>>, error: TaskError<T>)
    requires multiset(args) == multiset(elements) && |args| == |elements| > 1 && SortedBy(elements, ByWeightDown)
    ensures Outcome(args, elements, elapsed, duration, out, error)
  {
    out, error := [], Done;
    var first, other := elements[0], elements[1..];
    if first.weight == 0.0 {
      error := ZeroWeight;
      WhenZero(args, elements, elapsed, duration);
      return;
    }
    var timed := Reweighed(other, elapsed / first.weight);
    var blocks, e := Split(timed, duration);
    assert timed == TimedRest(elements, elapsed);
    hide Outcome, Blocks, Flatten, Values, Covers, SortedBy, TimedRest, Reweighed, NonNegative;
    if !e.NoError? {
      out, error := [Computed([first.value])], Unsplittable(e);
      WhenNotDone(args, elements, elapsed, duration, error);
    } else if blocks == [] {
      out, error := [Computed([first.value])], NoBlocks;
      WhenNotDone(args, elements, elapsed, duration, error);
    } else {
      var rest := ShipBlocks(blocks);
      out := [Computed([first.value])] + rest;
      WhenDone(args, elements, elapsed, duration, rest);
    }
  }

  lemma {:induction false} WhenZero<T(!new)>(
    args: seq<Item<T>>, elements: seq<Item<T>>, elapsed: real, duration: real)
    requires multiset(args) == multiset(elements) && |args| == |elements| > 1 && SortedBy(elements, ByWeightDown)
    requires elements[0].weight == 0.0
    ensures Outcome(args, elements, elapsed, duration, [], ZeroWeight)
  {
    NoneWeighs(args, elements);
  }

  /** When the splitter fails or leaves no block, the first element alone is computed. */
  lemma {:induction false} WhenNotDone<T(!new)>(
    args: seq<Item<T>>, elements: seq<Item<T>>, elapsed: real, duration: real, error: TaskError<T>)
    requires multiset(args) == multiset(elements) && |args| == |elements| > 1 && SortedBy(elements, ByWeightDown)
    requires elements[0].weight != 0.0
    requires var timed := TimedRest(elements, elapsed); var fine := duration > 0.0 && NonNegative(timed, |timed|);
      || (error.Unsplittable? && !fine) || (error.NoBlocks? && fine && Blocks(timed, duration) == [])
    ensures Outcome(args, elements, elapsed, duration, [Computed([elements[0].value])], error)
  {
    CutFacts(args, elements, elapsed, duration);
    hide Blocks, Values, Covers, SortedBy, AllCanBeKept, Weightless, AllPositive, TimedRest, NonNegative, IsTimedCut;
  }

  /** When the splitter fails, leaves no block, or leaves some. */
  lemma {:induction false} CutFacts<T(!new)>(
    args: seq<Item<T>>, elements: seq<Item<T>>, elapsed: real, duration: real)
    requires multiset(args) == multiset(elements) && |args| == |elements| > 1 && SortedBy(elements, ByWeightDown)
    requires elements[0].weight != 0.0
    ensures var timed := TimedRest(elements, elapsed);
      var fine := duration > 0.0 && NonNegative(timed, |timed|);
      && (AllPositive(args) && duration > 0.0 ==>
            (fine && Blocks(timed, duration) != [] <==> elapsed > 0.0)
            && (fine && Blocks(timed, duration) == [] <==> elapsed == 0.0))
      && (NonNegative(args, |args|) ==>
            (fine && Blocks(timed, duration) != [] <==>
              elapsed > 0.0 && duration > 0.0 && Weightless(args) + 2 <= |args|))
  {
    hide Weightless, SortedBy;
    if AllPositive(args) && duration > 0.0 {
      TimedSplit(args, elements, elapsed, duration);
    }
    DoneIff(args, elements, elapsed, duration);
  }

  /** What is yielded when there are blocks. */
  lemma {:induction false} WhenDone<T(!new)>(
    args: seq<Item<T>>, elements: seq<Item<T>>, elapsed: real, duration: real, rest: seq<Yield<T>>)
    requires multiset(args) == multiset(elements) && |args| == |elements| > 1 && SortedBy(elements, ByWeightDown)
    requires elements[0].weight != 0.0 && duration > 0.0
    requires var timed := TimedRest(elements, elapsed); var blocks := Blocks(timed, duration);
      && NonNegative(timed, |timed|) && |rest| == |blocks| > 0 && Covers(rest, Values(Flatten(blocks)))
      && rest[|rest| - 1] == Computed(Values(blocks[|blocks| - 1].items))
      && forall b :: 0 <= b < |rest| - 1 ==> rest[b] == Shipped(Values(blocks[b].items))
    ensures Outcome(args, elements, elapsed, duration, [Computed([elements[0].value])] + rest, Done)
  {
    CutFacts(args, elements, elapsed, duration);
    var first, blocks := Computed([elements[0].value]), Blocks(TimedRest(elements, elapsed), duration);
    hide Outcome, IsTimedCut, Blocks, Flatten, Values, Covers, SortedBy, AllCanBeKept, Weightless, AllPositive;
    hide TimedRest, NonNegative;
    assert forall b :: 0 <= b < |blocks| ==> !rest[b].Empty? && rest[b].work == Values(blocks[b].items);
    TimedCut(rest, elements, elapsed, duration);
    CoversWithFirst(elements[0].value, rest, Values(Flatten(blocks)));
    if NonNegative(args, |args|) {
      CoverageIff(args, elements, elapsed, duration, [first] + rest);
    }
    DoneOutcome(args, elements, elapsed, duration, first, rest);
  }

  lemma {:induction false} DoneOutcome<T(!new)>(
    args: seq<Item<T>>, elements: seq<Item<T>>, elapsed: real, duration: real, first: Yield<T>, rest: seq<Yield<T>>)
    requires elements != [] && first.Computed? && rest != [] && rest[|rest| - 1].Computed?
    requires forall b :: 0 <= b < |rest| - 1 ==> rest[b].Shipped?
    requires IsTimedCut([first] + rest, elements, elapsed, duration)
    requires AllPositive(args) && duration > 0.0 ==> elapsed > 0.0
    requires NonNegative(args, |args|) ==>
      && elapsed > 0.0 && duration > 0.0 && Weightless(args) + 2 <= |args|
      && (Covers([first] + rest, Values(args)) <==> AllCanBeKept(args, elapsed, duration))
    ensures Outcome(args, elements, elapsed, duration, [first] + rest, Done)
  {
    hide IsTimedCut, Values, Covers, AllCanBeKept, Weightless, AllPositive, NonNegative;
    Middle(first, rest);
  }

  lemma {:induction false} Middle<T>(first: Yield<T>, rest: seq<Yield<T>>)
    requires first.Computed? && rest != [] && rest[|rest| - 1].Computed?
    requires forall b :: 0 <= b < |rest| - 1 ==> rest[b].Shipped?
    ensures var out := [first] + rest;
      && out != [] && out[0].Computed? && out[|out| - 1].Computed?
      && forall i :: 0 < i < |out| - 1 ==> out[i].Shipped?
  {
    var out := [first] + rest;
    assert forall i :: 0 < i < |out| ==> out[i] == rest[i - 1];
  }

  lemma {:induction false} TimedCut<T>(rest: seq<Yield<T>>, elements: seq<Item<T>>, elapsed: real, duration: real)
    requires elements != [] && elements[0].weight != 0.0 && duration > 0.0
    requires var timed := TimedRest(elements, elapsed); var blocks := Blocks(timed, duration);
      && NonNegative(timed, |timed|) && |rest| == |blocks|
      && forall b :: 0 <= b < |blocks| ==> !rest[b].Empty? && rest[b].work == Values(blocks[b].items)
    ensures IsTimedCut([Computed([elements[0].value])] + rest, elements, elapsed, duration)
  {
    hide IsSplit, Values;
    var timed := TimedRest(elements, elapsed);
    ScanIsSplit(timed, duration, |timed|);
  }

  lemma {:induction false} WorkCons<T>(y: Yield<T>, ys: seq<Yield<T>>, x: T)
    requires !y.Empty?
    ensures Work([y] + ys, x) == Count(y.work, x) + Work(ys, x)
    decreases |ys|
  {
    if ys == [] {
      WorkSnoc([], y, x);
      assert [] + [y] == [y] + ys;
    } else {
      var n := |ys| - 1;
      WorkCons(y, ys[..n], x);
      WorkSnoc([y] + ys[..n], ys[n], x);
      assert [y] + ys == ([y] + ys[..n]) + [ys[n]];
    }
  }

  lemma {:induction false} CoversWithFirst<T(!new)>(first: T, rest: seq<Yield<T>>, given: seq<T>)
    requires Covers(rest, given)
    ensures Covers([Computed([first])] + rest, [first] + given)
  {
    forall x ensures Work([Computed([first])] + rest, x) == Count([first] + given, x) {
      WorkCons(Computed([first]), rest, x);
      CountConcat([first], given, x);
    }
  }

  lemma {:induction false} FirstWeighs<T(!new)>(args: seq<Item<T>>, elements: seq<Item<T>>)
    requires multiset(args) == multiset(elements) && AllPositive(args)
    ensures AllPositive(elements)
  {
    PermutationAll(args, elements, (x: Item<T>) => x.weight > 0.0);
  }

  /** What the splitter makes of the elements after the first, by the sign of the elapsed time. */
  lemma {:induction false} TimedSplit<T(!new)>(
    args: seq<Item<T>>, elements: seq<Item<T>>, elapsed: real, duration: real)
    requires multiset(args) == multiset(elements) && |elements| > 1 && elements[0].weight != 0.0
    requires AllPositive(args) && duration > 0.0
    ensures var timed := Reweighed(elements[1..], elapsed / elements[0].weight);
      && (elapsed >= 0.0 <==> NonNegative(timed, |timed|))
      && (elapsed > 0.0 ==> Blocks(timed, duration) != [])
      && (elapsed == 0.0 ==> Blocks(timed, duration) == [])
      && (elapsed > 0.0 ==>
            multiset([elements[0].value] + Values(Flatten(Blocks(timed, duration)))) == multiset(Values(args)))
  {
    FirstWeighs(args, elements);
    var first, other := elements[0], elements[1..];
    var timed := Reweighed(other, elapsed / first.weight);
    Timed(other, elapsed, first.weight);
    if elapsed > 0.0 {
      SplitterPartition(timed, duration);
      hide ScanTo;
      WithFirst(args, elements, timed);
    } else if elapsed == 0.0 {
      WeightlessLeftOut(timed, duration, |timed|);
    }
  }

  lemma {:induction false} WithFirst<T(!new)>(args: seq<Item<T>>, elements: seq<Item<T>>, timed: seq<Item<T>>)
    requires multiset(args) == multiset(elements) && elements != []
    requires Values(timed) == Values(elements[1..])
    ensures multiset([elements[0].value] + Values(timed)) == multiset(Values(args))
  {
    assert Values(elements) == [elements[0].value] + Values(elements[1..]);
    ValuesPermute(args, elements);
  }

  /** Items without key that weigh nothing are all left out: there is no block. */
  lemma {:induction false} WeightlessLeftOut<T>(items: seq<Item<T>>, maxw: real, n: nat)
    requires maxw > 0.0 && n <= |items|
    requires forall i :: 0 <= i < |items| ==> items[i].key == Unspecified && items[i].weight == 0.0
    ensures ScanTo(items, maxw, n) == Scan([], Block([], 0.0), Unspecified, [])
  {
    if n == 0 {
    } else {
      WeightlessLeftOut(items, maxw, n - 1);
    }
  }

  /** The measured weights have the sign of the elapsed time. */
  lemma {:induction false} Timed<T>(items: seq<Item<T>>, elapsed: real, w: real)
    requires w > 0.0 && AllPositive(items)
    ensures var timed := Reweighed(items, elapsed / w);
      && (elapsed > 0.0 ==> AllPositive(timed))
      && (elapsed >= 0.0 ==> NonNegative(timed, |timed|))
      && (elapsed == 0.0 ==> forall i :: 0 <= i < |timed| ==> timed[i].weight == 0.0)
      && (elapsed < 0.0 && items != [] ==> !NonNegative(timed, |timed|))
  {
    var u := elapsed / w;
    assert elapsed > 0.0 ==> u > 0.0;
    assert elapsed < 0.0 ==> u < 0.0;
    var timed := Reweighed(items, u);
    forall i | 0 <= i < |items|
      ensures elapsed > 0.0 ==> timed[i].weight > 0.0
      ensures elapsed < 0.0 ==> timed[i].weight < 0.0
      ensures elapsed == 0.0 ==> timed[i].weight == 0.0
    {
    }
    if items != [] {
      assert elapsed < 0.0 ==> timed[0].weight < 0.0;
    }
  }

  // ---- split_task on elements of any weight ----

  /** How long an element should last when the heaviest one lasts `elapsed`. */
  function TimedWeight(w: real, heaviest: real, elapsed: real): real
    requires heaviest != 0.0
  {
    w * (elapsed / heaviest)
  }

  lemma {:induction false} TimedSign(w: real, h: real, elapsed: real)
    requires h > 0.0 && w >= 0.0
    ensures TimedWeight(w, h, elapsed) > 0.0 <==> w > 0.0 && elapsed > 0.0
    ensures TimedWeight(w, h, elapsed) < 0.0 <==> w > 0.0 && elapsed < 0.0
  {
    var u := elapsed / h;
    assert u * h == elapsed;
    if elapsed > 0.0 {
      assert u > 0.0;
      assert w > 0.0 ==> w * u > 0.0;
    } else if elapsed < 0.0 {
      assert u < 0.0;
      assert w > 0.0 ==> w * u < 0.0;
    }
  }

  lemma {:induction false} TimedExceeds(w: real, h: real, elapsed: real, duration: real)
    requires h > 0.0 && w > 0.0
    ensures TimedWeight(w, h, elapsed) > duration <==> IsLong(w, elapsed, duration, h)
  {
    var v := w * (elapsed / h);
    assert v * h == w * elapsed;
    if v > duration {
      assert (v - duration) * h > 0.0;
    } else {
      assert (duration - v) * h >= 0.0;
    }
  }

  /** The elements sorted by weight, the heaviest first: `p` of them weigh. */
  ghost predicate Descending<T>(elements: seq<Item<T>>, p: nat) {
    && SortedBy(elements, ByWeightDown) && NonNegative(elements, |elements|)
    && 0 < p == |elements| - Weightless(elements) && Heaviest(elements) == elements[0].weight
    && forall i :: 0 <= i < |elements| ==> (elements[i].weight > 0.0 <==> i < p)
  }

  lemma {:induction false} SortedDescends<T(!new)>(args: seq<Item<T>>, elements: seq<Item<T>>)
    requires multiset(args) == multiset(elements) && SortedBy(elements, ByWeightDown) && args != []
    requires NonNegative(args, |args|) && elements != [] && elements[0].weight != 0.0
    ensures Descending(elements, |elements| - Weightless(elements))
  {
    SameWeights(args, elements);
    WeighingFirst(elements, |elements|);
    assert elements[..|elements|] == elements;
    var i :| 0 <= i < |elements| && elements[i].weight == Heaviest(elements);
    assert i > 0 ==> ByWeightDown(elements[0], elements[i]);
  }

  /** The time that the elements after the first are expected to last. */
  function TimedRest<T>(elements: seq<Item<T>>, elapsed: real): (r: seq<Item<T>>)
    requires elements != [] && elements[0].weight != 0.0
    ensures |r| == |elements| - 1
    ensures forall i :: 0 <= i < |r| ==>
      r[i] == Item(elements[i + 1].value, TimedWeight(elements[i + 1].weight, elements[0].weight, elapsed), Unspecified)
  {
    Reweighed(elements[1..], elapsed / elements[0].weight)
  }

  lemma {:induction false} RestWeighs<T>(elements: seq<Item<T>>, p: nat, elapsed: real)
    requires Descending(elements, p) && |elements| > 1
    ensures var timed := TimedRest(elements, elapsed);
      && (elapsed > 0.0 && p > 1 ==> WeighUpTo(timed, p - 1))
      && (elapsed < 0.0 && p > 1 ==> !NonNegative(timed, |timed|))
      && (elapsed == 0.0 || p == 1 ==> forall i :: 0 <= i < |timed| ==> timed[i].weight == 0.0)
  {
    hide TimedWeight, TimedRest, SortedBy;
    var timed := TimedRest(elements, elapsed);
    forall i | 0 <= i < |timed|
      ensures timed[i].weight > 0.0 <==> i < p - 1 && elapsed > 0.0
      ensures timed[i].weight < 0.0 <==> i < p - 1 && elapsed < 0.0
    {
      TimedSign(elements[i + 1].weight, elements[0].weight, elapsed);
    }
    assert elapsed < 0.0 && p > 1 ==> timed[0].weight < 0.0;
  }

  /** There are blocks if and only if a second element weighs and the time is positive. */
  lemma {:induction false} BlocksIff<T>(elements: seq<Item<T>>, p: nat, elapsed: real, duration: real)
    requires Descending(elements, p) && |elements| > 1 && duration > 0.0
    ensures var timed := TimedRest(elements, elapsed);
      NonNegative(timed, |timed|) && Blocks(timed, duration) != [] <==> elapsed > 0.0 && p > 1
  {
    RestWeighs(elements, p, elapsed);
    var timed := TimedRest(elements, elapsed);
    if elapsed > 0.0 && p > 1 {
      BlocksHold(timed, duration, p - 1);
    } else if elapsed == 0.0 || p == 1 {
      WeightlessLeftOut(timed, duration, |timed|);
    }
  }

  /** The splitter leaves blocks and raises no error under the same condition, for any duration. */
  lemma {:induction false} DoneIff<T(!new)>(args: seq<Item<T>>, elements: seq<Item<T>>, elapsed: real, duration: real)
    requires multiset(args) == multiset(elements) && |args| == |elements| > 1 && SortedBy(elements, ByWeightDown)
    requires elements[0].weight != 0.0
    ensures var timed := TimedRest(elements, elapsed);
      NonNegative(args, |args|) && duration > 0.0 ==>
        (NonNegative(timed, |timed|) && Blocks(timed, duration) != [] <==>
          elapsed > 0.0 && Weightless(args) + 2 <= |args|)
  {
    if NonNegative(args, |args|) && duration > 0.0 {
      SortedDescends(args, elements);
      SameWeights(args, elements);
      BlocksIff(elements, |elements| - Weightless(elements), elapsed, duration);
    }
  }

  lemma {:induction false} NoneWeighs<T(!new)>(args: seq<Item<T>>, elements: seq<Item<T>>)
    requires multiset(args) == multiset(elements) && |args| == |elements| > 1 && SortedBy(elements, ByWeightDown)
    requires elements[0].weight == 0.0
    ensures NonNegative(args, |args|) ==> Weightless(args) == |args|
    ensures !AllPositive(args)
  {
    if AllPositive(args) {
      FirstWeighs(args, elements);
    }
    if NonNegative(args, |args|) {
      SameWeights(args, elements);
      WeighingFirst(elements, |elements|);
      assert elements[..|elements|] == elements;
    }
  }

  lemma {:induction false} LongerToo(least: real, w: real, elapsed: real, duration: real, h: real)
    requires 0.0 < least <= w && elapsed > 0.0 && IsLong(least, elapsed, duration, h)
    ensures IsLong(w, elapsed, duration, h)
  {
    assert (w - least) * elapsed >= 0.0;
  }

  lemma {:induction false} WeightlessIsLong(elapsed: real, duration: real, h: real)
    ensures IsLong(0.0, elapsed, duration, h)
  {
  }

  /** The elements that weigh are all long exactly when the last of them is. */
  lemma {:induction false} LeastLong<T>(elements: seq<Item<T>>, p: nat, elapsed: real, duration: real, h: real)
    requires Descending(elements, p) && elapsed > 0.0
    ensures AllLong(elements, elapsed, duration, h) <==> IsLong(elements[p - 1].weight, elapsed, duration, h)
  {
    hide IsLong, Weightless, Heaviest;
    WeightlessIsLong(elapsed, duration, h);
    if IsLong(elements[p - 1].weight, elapsed, duration, h) {
      forall i | 0 <= i < |elements| ensures IsLong(elements[i].weight, elapsed, duration, h) {
        if i < p - 1 {
          assert ByWeightDown(elements[i], elements[p - 1]);
          LongerToo(elements[p - 1].weight, elements[i].weight, elapsed, duration, h);
        }
      }
    }
  }

  lemma {:induction false} LastTimed<T>(elements: seq<Item<T>>, p: nat, elapsed: real, duration: real)
    requires Descending(elements, p) && elapsed > 0.0 && p > 1
    ensures TimedRest(elements, elapsed)[p - 2].weight > duration <==>
      AllLong(elements, elapsed, duration, Heaviest(elements))
  {
    hide IsLong, AllLong, TimedWeight, TimedRest, Weightless, SortedBy;
    LeastLong(elements, p, elapsed, duration, elements[0].weight);
    TimedExceeds(elements[p - 1].weight, elements[0].weight, elapsed, duration);
  }

  /** The blocks hold all the elements after the first if and only if the weightless can be kept. */
  lemma {:induction false} HeldIff<T>(elements: seq<Item<T>>, p: nat, elapsed: real, duration: real)
    requires Descending(elements, p) && elapsed > 0.0 && p > 1
    ensures Held(TimedRest(elements, elapsed), duration, p - 1) == |elements| - 1 <==>
      AllCanBeKept(elements, elapsed, duration)
  {
    hide Weightless, Heaviest, AllLong, TimedRest, TimedWeight, SortedBy, NonNegative;
    LastTimed(elements, p, elapsed, duration);
    assert p == |elements| - Weightless(elements);
  }

  lemma {:induction false} LongPermutes<T>(
    xs: seq<Item<T>>, ys: seq<Item<T>>, elapsed: real, duration: real, h: real)
    requires multiset(xs) == multiset(ys) && AllLong(xs, elapsed, duration, h)
    ensures AllLong(ys, elapsed, duration, h)
  {
    hide IsLong;
    PermutationAll(xs, ys, (x: Item<T>) => IsLong(x.weight, elapsed, duration, h));
  }

  lemma {:induction false} KeptPermutes<T(!new)>(
    xs: seq<Item<T>>, ys: seq<Item<T>>, elapsed: real, duration: real)
    requires multiset(xs) == multiset(ys) && xs != [] && ys != []
    requires AllCanBeKept(xs, elapsed, duration)
    ensures AllCanBeKept(ys, elapsed, duration)
  {
    SameWeights(xs, ys);
    hide Weightless, Heaviest, AllLong, NonNegative;
    if Weightless(xs) != 0 {
      LongPermutes(xs, ys, elapsed, duration, Heaviest(xs));
    }
  }

  /** Work on other lists of a different length does not cover the elements. */
  lemma {:induction false} CoversSameLength<T(!new)>(out: seq<Yield<T>>, given: seq<T>, other: seq<T>)
    requires Covers(out, given)
    ensures Covers(out, other) <==> multiset(given) == multiset(other)
    ensures Covers(out, other) ==> |given| == |other|
  {
    if Covers(out, other) {
      forall x ensures multiset(given)[x] == multiset(other)[x] {
        assert Work(out, x) == Count(given, x) == Count(other, x);
      }
      PermutationLength(given, other);
    }
    if multiset(given) == multiset(other) {
      forall x ensures Work(out, x) == Count(other, x) {
        assert Work(out, x) == Count(given, x);
      }
    }
  }

  lemma {:induction false} CoversHeld<T(!new)>(
    args: seq<Item<T>>, elements: seq<Item<T>>, timed: seq<Item<T>>, k: nat, out: seq<Yield<T>>)
    requires multiset(args) == multiset(elements) && elements != [] && |timed| == |elements| - 1 && k <= |timed|
    requires forall i :: 0 <= i < |timed| ==> timed[i].value == elements[i + 1].value
    requires Covers(out, [elements[0].value] + Values(timed[..k]))
    ensures Covers(out, Values(args)) <==> k == |timed|
  {
    PermutationLength(args, elements);
    hide Covers;
    CoversSameLength(out, [elements[0].value] + Values(timed[..k]), Values(args));
    if k == |timed| {
      assert timed[..k] == timed && Values(timed) == Values(elements[1..]);
      WithFirst(args, elements, timed);
    }
  }

  /** All is computed if and only if the weightless elements can be kept. */
  lemma {:induction false} CoverageIff<T(!new)>(
    args: seq<Item<T>>, elements: seq<Item<T>>, elapsed: real, duration: real, out: seq<Yield<T>>)
    requires multiset(args) == multiset(elements) && SortedBy(elements, ByWeightDown) && |elements| > 1
    requires NonNegative(args, |args|) && elements[0].weight != 0.0 && duration > 0.0 && args != []
    requires var timed := TimedRest(elements, elapsed);
      && NonNegative(timed, |timed|) && Blocks(timed, duration) != []
      && Covers(out, [elements[0].value] + Values(Flatten(Blocks(timed, duration))))
    ensures Covers(out, Values(args)) <==> AllCanBeKept(args, elapsed, duration)
  {
    hide IsLong, AllLong, TimedWeight, SortedBy, ScanTo, Weightless, Heaviest;
    SortedDescends(args, elements);
    var p, timed := |elements| - Weightless(elements), TimedRest(elements, elapsed);
    BlocksIff(elements, p, elapsed, duration);
    RestWeighs(elements, p, elapsed);
    BlocksHold(timed, duration, p - 1);
    HeldIff(elements, p, elapsed, duration);
    if AllCanBeKept(args, elapsed, duration) {
      KeptPermutes(args, elements, elapsed, duration);
    } else if AllCanBeKept(elements, elapsed, duration) {
      KeptPermutes(elements, args, elapsed, duration);
    }
    CoversHeld(args, elements, timed, Held(timed, duration, p - 1), out);
  }
}
