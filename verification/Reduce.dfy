/** Reducing the results of a Starmap, compared with a sequential run of the forest of tasks. */
module Reduce {
  import opened Folds
  import opened TaskProtocol

  // When the order of two consecutive aggregations does not matter, neither does the schedule.
  // Key-wise numeric addition of dictionaries is such an aggregation, list concatenation only
  // up to order.

  /** Run the task in process: use its results as they come, run a subtask where it is spawned. */
  function RunTask<A, V>(agg: (A, V) -> A, acc: A, t: Task<V>): A
    decreases t
  {
    match t
    case End => acc
    case Out(v, next) => RunTask(agg, agg(acc, v), next)
    case Sub(sub, next) => RunTask(agg, RunTask(agg, acc, sub), next)
  }

  function RunForest<A, V>(agg: (A, V) -> A, acc: A, ts: seq<Task<V>>): A
    decreases |ts|
  {
    if ts == [] then acc else RunForest(agg, RunTask(agg, acc, ts[0]), ts[1..])
  }

  lemma {:induction false} ValuesAppend<V>(log: seq<Message<V>>, tail: seq<Message<V>>)
    ensures Values(log + tail) == Values(log) + Values(tail)
  {
    if log == [] {
      assert log + tail == tail && Values(log) == [];
    } else {
      hide Values;
      ValuesAppend(log[1..], tail);
      assert log == [log[0]] + log[1..] && log + tail == [log[0]] + (log[1..] + tail);
      ConcatThree(if log[0].Value? then [log[0].value] else [], Values(log[1..]), Values(tail));
    }
  }

  lemma {:induction false} ConcatThree<X>(a: seq<X>, b: seq<X>, c: seq<X>)
    ensures a + (b + c) == (a + b) + c
  {
  }

  lemma {:induction false} RunTaskFolds<A, V>(agg: (A, V) -> A, acc: A, t: Task<V>)
    ensures RunTask(agg, acc, t) == Fold(agg, acc, Values(Trace(t)))
    decreases t
  {
    match t
    case End =>
      assert Values(Trace(t)) == [];
    case Out(v, next) =>
      ValuesAppend([Message.Value(v)], Trace(next));
      assert Values(Trace(t)) == [v] + Values(Trace(next));
      RunTaskFolds(agg, agg(acc, v), next);
    case Sub(sub, next) =>
      ValuesAppend([Subtask(sub)] + Trace(sub), Trace(next));
      ValuesAppend([Subtask(sub)], Trace(sub));
      assert Values(Trace(t)) == Values(Trace(sub)) + Values(Trace(next));
      FoldAppend(agg, acc, Values(Trace(sub)), Values(Trace(next)));
      RunTaskFolds(agg, acc, sub);
      RunTaskFolds(agg, RunTask(agg, acc, sub), next);
  }

  lemma {:induction false} RunForestFolds<A, V>(agg: (A, V) -> A, acc: A, ts: seq<Task<V>>)
    ensures RunForest(agg, acc, ts) == Fold(agg, acc, Values(ForestTrace(ts)))
    decreases |ts|
  {
    if ts == [] {
    } else {
      ValuesAppend(Trace(ts[0]), ForestTrace(ts[1..]));
      FoldAppend(agg, acc, Values(Trace(ts[0])), Values(ForestTrace(ts[1..])));
      RunTaskFolds(agg, acc, ts[0]);
      RunForestFolds(agg, RunTask(agg, acc, ts[0]), ts[1..]);
    }
  }

  /** The parallel reduction, under any schedule, refines the sequential one. */
  lemma {:induction false} ReduceRefinesSequential<A(!new), V(!new)>(
    agg: (A, V) -> A, acc: A, pre: seq<Task<V>>, queue: seq<Task<V>>, cores: nat, run: seq<Event>, s: State<V>)
    requires LeftCommutes(agg)
    requires cores >= 1 && Reaches(pre, queue, cores, run, s) && s.todo == 0
    ensures Fold(agg, acc, Values(s.log)) == RunForest(agg, acc, pre + queue)
  {
    ExactlyOnce(pre, queue, cores, run, s);
    FoldPermutation(agg, acc, Values(s.log), Values(ForestTrace(pre + queue)));
    RunForestFolds(agg, acc, pre + queue);
  }

  // ---- accumulating dictionaries ----

  /** Key-wise `plus`: the keys of either side, values put together where both have the key. */
  function AddMaps<K, V>(plus: (V, V) -> V, a: map<K, V>, b: map<K, V>): (r: map<K, V>)
    ensures r.Keys == a.Keys + b.Keys
  {
    map k | k in a.Keys + b.Keys :: if k !in a then b[k] else if k in b then plus(a[k], b[k]) else a[k]
  }

  /** Dictionaries of numbers: a missing key counts as zero. */
  function AddDict<K>(a: map<K, real>, b: map<K, real>): (r: map<K, real>)
    ensures r.Keys == a.Keys + b.Keys
    ensures forall k :: k in r ==>
      r[k] == (if k in a then a[k] else 0.0) + (if k in b then b[k] else 0.0)
  {
    AddMaps((x: real, y: real) => x + y, a, b)
  }

  function ListOf<K, X>(dict: map<K, seq<X>>, k: K): seq<X> {
    if k in dict then dict[k] else []
  }

  /** Dictionaries of lists: a missing key counts as the empty list. */
  function AddLists<K, X>(a: map<K, seq<X>>, b: map<K, seq<X>>): (r: map<K, seq<X>>)
    ensures r.Keys == a.Keys + b.Keys
    ensures forall k :: k in r ==> r[k] == ListOf(a, k) + ListOf(b, k)
  {
    AddMaps((x: seq<X>, y: seq<X>) => x + y, a, b)
  }

  lemma {:induction false} AddDictLeftCommutes<K(!new)>()
    ensures LeftCommutes((a: map<K, real>, b: map<K, real>) => AddDict(a, b))
  {
    forall a: map<K, real>, b: map<K, real>, c: map<K, real>
      ensures AddDict(AddDict(a, b), c) == AddDict(AddDict(a, c), b)
    {
      var l, r := AddDict(AddDict(a, b), c), AddDict(AddDict(a, c), b);
      assert l.Keys == r.Keys;
      assert forall k :: k in l ==> l[k] == r[k];
    }
  }

  /** The lists of two dictionaries give the same in either order, for every key of both. */
  ghost predicate ListsCommute<K(!new), X>(b: map<K, seq<X>>, c: map<K, seq<X>>) {
    forall k :: k in b && k in c ==> b[k] + c[k] == c[k] + b[k]
  }

  lemma {:induction false} SamePrefix<X>(p: seq<X>, x: seq<X>, y: seq<X>)
    ensures p + x + y == p + y + x <==> x + y == y + x
  {
    assert p + x + y == p + (x + y) && p + y + x == p + (y + x);
    assert (p + (x + y))[|p|..] == x + y && (p + (y + x))[|p|..] == y + x;
  }

  lemma {:induction false} ThreeLists<K, X>(a: map<K, seq<X>>, b: map<K, seq<X>>, c: map<K, seq<X>>, k: K)
    ensures var sum := AddLists(AddLists(a, b), c);
      (k in sum <==> k in a || k in b || k in c) && ListOf(sum, k) == ListOf(a, k) + ListOf(b, k) + ListOf(c, k)
  {
    hide AddLists;
    var ab := AddLists(a, b);
    assert ListOf(ab, k) == ListOf(a, k) + ListOf(b, k);
    assert ListOf(AddLists(ab, c), k) == ListOf(ab, k) + ListOf(c, k);
  }

  lemma {:induction false} KeyCommutes<K, X>(a: map<K, seq<X>>, b: map<K, seq<X>>, c: map<K, seq<X>>, k: K)
    ensures var l, r := AddLists(AddLists(a, b), c), AddLists(AddLists(a, c), b);
      && (k in l <==> k in r) && (k in b ==> k in l)
      && (k in l ==> (l[k] == r[k] <==> (k in b && k in c ==> b[k] + c[k] == c[k] + b[k])))
  {
    ThreeLists(a, b, c, k);
    ThreeLists(a, c, b, k);
    SamePrefix(ListOf(a, k), ListOf(b, k), ListOf(c, k));
  }

  lemma {:induction false} EqualIfKeysCommute<K(!new), X>(
    l: map<K, seq<X>>, r: map<K, seq<X>>, b: map<K, seq<X>>, c: map<K, seq<X>>)
    requires forall k :: (k in l <==> k in r) && (k in b ==> k in l)
    requires forall k :: k in l ==> (l[k] == r[k] <==> (k in b && k in c ==> b[k] + c[k] == c[k] + b[k]))
    ensures l == r <==> ListsCommute(b, c)
  {
    if ListsCommute(b, c) {
      assert forall k :: k in l ==> l[k] == r[k];
    }
  }

  /** With list values two additions can be exchanged if and only if the lists of each common key can. */
  lemma {:induction false} AddListsCommuteIff<K(!new), X>(a: map<K, seq<X>>, b: map<K, seq<X>>, c: map<K, seq<X>>)
    ensures AddLists(AddLists(a, b), c) == AddLists(AddLists(a, c), b) <==> ListsCommute(b, c)
  {
    hide AddLists, ListsCommute;
    forall k
      ensures var l, r := AddLists(AddLists(a, b), c), AddLists(AddLists(a, c), b);
        && (k in l <==> k in r) && (k in b ==> k in l)
        && (k in l ==> (l[k] == r[k] <==> (k in b && k in c ==> b[k] + c[k] == c[k] + b[k])))
    {
      KeyCommutes(a, b, c, k);
    }
    EqualIfKeysCommute(AddLists(AddLists(a, b), c), AddLists(AddLists(a, c), b), b, c);
  }

  /** An instance: with list values the reduction can depend on the order of the results. */
  lemma {:induction false} AddListsDoesNotCommute()
    ensures !LeftCommutes((a: map<string, seq<int>>, b: map<string, seq<int>>) => AddLists(a, b))
  {
    var f := (a: map<string, seq<int>>, b: map<string, seq<int>>) => AddLists(a, b);
    var b, c := map["d_asset" := [1]], map["d_asset" := [2]];
    assert b["d_asset"] + c["d_asset"] == [1, 2] && c["d_asset"] + b["d_asset"] == [2, 1];
    assert [1, 2][0] != [2, 1][0];
    hide AddLists;
    AddListsCommuteIff(map[], b, c);
    assert f(f(map[], b), c) != f(f(map[], c), b);
  }

  /** A dictionary with in-place addition. The lists that the source extends are values here. */
  class AccumDict<K(==), V> {
    var dict: map<K, V>

    constructor (dict: map<K, V>)
      ensures this.dict == dict
    {
      this.dict := dict;
    }

    /** Adding a dictionary; `plus` is addition for numbers and `extend` for lists. */
    method IAdd(other: map<K, V>, plus: (V, V) -> V)
      modifies this
      ensures dict == AddMaps(plus, old(dict), other)
    {
      var items := other.Keys;
      while items != {}
        invariant items <= other.Keys
        invariant Added(plus, old(dict), other, other.Keys - items, dict)
        decreases items
      {
        var k :| k in items;
        AddedOne(plus, old(dict), other, other.Keys - items, dict, k);
        if k !in dict {
          dict := dict[k := other[k]];
        } else {
          dict := dict[k := plus(dict[k], other[k])];
        }
        assert other.Keys - items + {k} == other.Keys - (items - {k});
        items := items - {k};
      }
      assert other.Keys - items == other.Keys;
    }

    /** Adding something else than a dictionary adds it to all elements. */
    method IAddToAll(other: V, plus: (V, V) -> V)
      modifies this
      ensures dict.Keys == old(dict.Keys) && forall k :: k in dict ==> dict[k] == plus(old(dict)[k], other)
    {
      var keys := dict.Keys;
      while keys != {}
        invariant keys <= dict.Keys == old(dict.Keys)
        invariant forall k :: k in dict ==> dict[k] == if k in keys then old(dict)[k] else plus(old(dict)[k], other)
        decreases keys
      {
        var k :| k in keys;
        dict := dict[k := plus(dict[k], other)];
        keys := keys - {k};
      }
    }
  }

  /** `dict` is `a` after the items of `b` with a key in `done` were added. */
  ghost predicate Added<K, V>(plus: (V, V) -> V, a: map<K, V>, b: map<K, V>, done: set<K>, dict: map<K, V>) {
    done <= b.Keys && dict == AddMaps(plus, a, map k | k in done :: b[k])
  }

  lemma {:induction false} AddedOne<K, V>(
    plus: (V, V) -> V, a: map<K, V>, b: map<K, V>, done: set<K>, dict: map<K, V>, k: K)
    requires Added(plus, a, b, done, dict) && k in b && k !in done
    ensures Added(plus, a, b, done + {k}, dict[k := if k in dict then plus(dict[k], b[k]) else b[k]])
    ensures done + {k} == b.Keys ==> (map j | j in done + {k} :: b[j]) == b
  {
    var dict' := dict[k := if k in dict then plus(dict[k], b[k]) else b[k]];
    var sum := AddMaps(plus, a, map j | j in done + {k} :: b[j]);
    assert dict'.Keys == sum.Keys;
    forall j | j in sum ensures dict'[j] == sum[j] {
    }
  }

  /** Reducing dictionaries with `+=` gives, under any schedule, the sequential sums. */
  lemma {:induction false} DictReductionRefinesSequential<K(!new)>(
    acc: map<K, real>, pre: seq<Task<map<K, real>>>, queue: seq<Task<map<K, real>>>, cores: nat,
    run: seq<Event>, s: State<map<K, real>>)
    requires cores >= 1 && Reaches(pre, queue, cores, run, s) && s.todo == 0
    ensures var agg := (a: map<K, real>, b: map<K, real>) => AddDict(a, b);
      Fold(agg, acc, Values(s.log)) == RunForest(agg, acc, pre + queue)
  {
    AddDictLeftCommutes<K>();
    var agg := (a: map<K, real>, b: map<K, real>) => AddDict(a, b);
    ReduceRefinesSequential(agg, acc, pre, queue, cores, run, s);
  }

  // ---- reducing dictionaries of lists ----

  lemma {:induction false} FoldedKeys<K, X>(
    agg: (map<K, seq<X>>, map<K, seq<X>>) -> map<K, seq<X>>, acc: map<K, seq<X>>, results: seq<map<K, seq<X>>>, k: K)
    requires forall x, y :: agg(x, y) == AddLists(x, y)
    ensures k in Fold(agg, acc, results) <==> k in acc || exists i :: 0 <= i < |results| && k in results[i]
    decreases |results|
  {
    hide AddLists;
    if results == [] {
    } else {
      var next, rest := agg(acc, results[0]), results[1..];
      FoldedKeys(agg, next, rest, k);
      assert k in next <==> k in acc || k in results[0];
      if exists i :: 0 <= i < |results| && k in results[i] {
        var i :| 0 <= i < |results| && k in results[i];
        assert i == 0 || (0 <= i - 1 < |rest| && k in rest[i - 1]);
      }
    }
  }

  /** What the results contribute to the list of a key, up to order. */
  lemma {:induction false} FoldedList<K, X>(
    agg: (map<K, seq<X>>, map<K, seq<X>>) -> map<K, seq<X>>, acc: map<K, seq<X>>, results: seq<map<K, seq<X>>>, k: K,
    b: map<K, seq<X>> -> multiset<X>)
    requires forall x, y :: agg(x, y) == AddLists(x, y)
    requires forall r :: b(r) == multiset(ListOf(r, k))
    ensures multiset(ListOf(Fold(agg, acc, results), k)) == multiset(ListOf(acc, k)) + Bag(b, results)
    decreases |results|
  {
    hide AddLists;
    if results == [] {
    } else {
      var next := agg(acc, results[0]);
      FoldedList(agg, next, results[1..], k, b);
      assert ListOf(next, k) == ListOf(acc, k) + ListOf(results[0], k);
    }
  }

  /**
   Reducing dictionaries of lists: under every schedule the result has the keys of the
   sequential one, and for each of them a permutation of its list.
   */
  lemma {:induction false} ListReductionUpToOrder<K(!new), X(!new)>(
    agg: (map<K, seq<X>>, map<K, seq<X>>) -> map<K, seq<X>>, acc: map<K, seq<X>>, pre: seq<Task<map<K, seq<X>>>>,
    queue: seq<Task<map<K, seq<X>>>>, cores: nat, run: seq<Event>, s: State<map<K, seq<X>>>, k: K)
    requires forall x, y :: agg(x, y) == AddLists(x, y)
    requires cores >= 1 && Reaches(pre, queue, cores, run, s) && s.todo == 0
    ensures var parallel, sequential := Fold(agg, acc, Values(s.log)), RunForest(agg, acc, pre + queue);
      (k in parallel <==> k in sequential) && multiset(ListOf(parallel, k)) == multiset(ListOf(sequential, k))
  {
    hide AddLists, Fold, Reaches, ListOf, Bag;
    var results, all := Values(s.log), Values(ForestTrace(pre + queue));
    var b := (r: map<K, seq<X>>) => multiset(ListOf(r, k));
    ExactlyOnce(pre, queue, cores, run, s);
    RunForestFolds(agg, acc, pre + queue);
    FoldedList(agg, acc, results, k, b);
    FoldedList(agg, acc, all, k, b);
    BagPermutation(b, results, all);
    FoldedKeys(agg, acc, results, k);
    FoldedKeys(agg, acc, all, k);
    SomeHasKey(results, all, k);
  }

  lemma {:induction false} SomeHasKey<K, V>(xs: seq<map<K, V>>, ys: seq<map<K, V>>, k: K)
    requires multiset(xs) == multiset(ys)
    ensures (exists i :: 0 <= i < |xs| && k in xs[i]) <==> (exists i :: 0 <= i < |ys| && k in ys[i])
  {
    SameElements(xs, ys);
    assert (exists i :: 0 <= i < |xs| && k in xs[i]) <==> exists r :: r in xs && k in r;
    assert (exists i :: 0 <= i < |ys| && k in ys[i]) <==> exists r :: r in ys && k in r;
  }

  /** When the lists of every two results commute, the schedule does not matter at all. */
  lemma {:induction false} ListReductionRefinesSequential<K(!new), X(!new)>(
    agg: (map<K, seq<X>>, map<K, seq<X>>) -> map<K, seq<X>>, acc: map<K, seq<X>>, pre: seq<Task<map<K, seq<X>>>>,
    queue: seq<Task<map<K, seq<X>>>>, cores: nat, run: seq<Event>, s: State<map<K, seq<X>>>)
    requires forall x, y :: agg(x, y) == AddLists(x, y)
    requires cores >= 1 && Reaches(pre, queue, cores, run, s) && s.todo == 0
    requires forall x, y :: x in Values(ForestTrace(pre + queue)) && y in Values(ForestTrace(pre + queue)) ==>
      ListsCommute(x, y)
    ensures Fold(agg, acc, Values(s.log)) == RunForest(agg, acc, pre + queue)
  {
    var all := Values(ForestTrace(pre + queue));
    ExactlyOnce(pre, queue, cores, run, s);
    RunForestFolds(agg, acc, pre + queue);
    forall a: map<K, seq<X>>, x: map<K, seq<X>>, y: map<K, seq<X>> | x in all && y in all
      ensures agg(agg(a, x), y) == agg(agg(a, y), x)
    {
      AddListsCommuteIff(a, x, y);
    }
    FoldPermutation(agg, acc, all, Values(s.log));
  }
}
