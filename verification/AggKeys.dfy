/**
 Aggregation keys and the losses accumulated for them. A key fixes the value of each tag
 that is aggregated by and leaves the list of all values for the others; expanding all
 keys must give every combination of tag values exactly once.
 */
module AggKeys {
  import opened Aggregates
  import opened Sorting

  datatype Slot = One(id: nat) | Many(ids: seq<nat>)

  type Key = seq<Slot>

  /** A tag: its number of values, with the unused value 0, and whether it is aggregated by. */
  datatype Tag = Tag(numValues: nat, aggregated: bool)

  /** The values from `lo` to `hi`. */
  function Range(lo: nat, hi: nat): (r: seq<nat>)
    ensures |r| == (if lo < hi then hi - lo else 0)
    ensures forall i :: 0 <= i < |r| ==> r[i] == lo + i
    decreases hi
  {
    if lo < hi then Range(lo, hi - 1) + [hi - 1] else []
  }

  function Ones(ids: seq<nat>): (r: seq<Slot>)
    ensures |r| == |ids| && forall i :: 0 <= i < |r| ==> r[i] == One(ids[i])
  {
    seq(|ids|, i requires 0 <= i < |ids| => One(ids[i]))
  }

  function Slots(tag: Tag): seq<Slot> {
    var ids := Range(1, tag.numValues);
    if tag.aggregated then Ones(ids) else [Many(ids)]
  }

  function TagIds(tags: seq<Tag>): (r: seq<seq<Slot>>)
    ensures |r| == |tags| && forall i :: 0 <= i < |r| ==> r[i] == Slots(tags[i])
  {
    seq(|tags|, i requires 0 <= i < |tags| => Slots(tags[i]))
  }

  /** The values of all tags. */
  function TagValues(tags: seq<Tag>): (r: seq<seq<nat>>)
    ensures |r| == |tags| && forall i :: 0 <= i < |r| ==> r[i] == Range(1, tags[i].numValues)
  {
    seq(|tags|, i requires 0 <= i < |tags| => Range(1, tags[i].numValues))
  }

  function AggList(key: Key): (r: seq<seq<nat>>)
    ensures |r| == |key|
    ensures forall i :: 0 <= i < |r| ==> r[i] == if key[i].One? then [key[i].id] else key[i].ids
  {
    seq(|key|, i requires 0 <= i < |key| => if key[i].One? then [key[i].id] else key[i].ids)
  }

  /** The combinations of tag values that a key stands for. */
  function Expand(key: Key): seq<seq<nat>> {
    Product(AggList(key))
  }

  /** The position of a key: the entries whose list has length one, counted from zero. */
  function Idx(key: Key): seq<int> {
    if key == [] then []
    else
      var ids := if key[0].One? then [key[0].id] else key[0].ids;
      (if |ids| == 1 then [ids[0] - 1] else []) + Idx(key[1..])
  }

  // ---- build_aggkeys ----

  datatype KeysError = Fine | UnknownTag | NotOrdered

  /** The last position of a name among the first `n`, or -1. */
  function IndexOf(names: seq<string>, name: string, n: nat): (r: int)
    requires n <= |names|
    ensures -1 <= r < n && (r >= 0 ==> names[r] == name)
    ensures forall k :: r < k < n ==> names[k] != name
  {
    if n == 0 then -1 else if names[n - 1] == name then n - 1 else IndexOf(names, name, n - 1)
  }

  ghost predicate InOrder(indexes: seq<int>) {
    forall i, j :: 0 <= i < j < |indexes| ==> indexes[i] <= indexes[j]
  }

  function TagsOf(aggregateBy: seq<string>, names: seq<string>, counts: seq<nat>): (tags: seq<Tag>)
    requires |names| == |counts|
    ensures |tags| == |names|
    ensures forall i :: 0 <= i < |tags| ==> tags[i] == Tag(counts[i], names[i] in aggregateBy)
  {
    seq(|names|, i requires 0 <= i < |names| => Tag(counts[i], names[i] in aggregateBy))
  }

  /** The positions of the aggregation tags, as long as they are known. */
  method Indexes(aggregateBy: seq<string>, names: seq<string>) returns (indexes: seq<int>, known: bool)
    ensures known <==> forall i :: 0 <= i < |aggregateBy| ==> aggregateBy[i] in names
    ensures known ==> |indexes| == |aggregateBy|
    ensures known ==> forall i :: 0 <= i < |indexes| ==> indexes[i] == IndexOf(names, aggregateBy[i], |names|)
  {
    indexes, known := [], true;
    for i := 0 to |aggregateBy|
      invariant known && |indexes| == i
      invariant forall j :: 0 <= j < i ==> indexes[j] == IndexOf(names, aggregateBy[j], |names|) >= 0
    {
      var index := IndexOf(names, aggregateBy[i], |names|);
      if index < 0 {
        known := false;
        return;
      }
      indexes := indexes + [index];
    }
  }

  method CheckOrder(indexes: seq<int>) returns (ordered: bool)
    ensures ordered <==> InOrder(indexes)
  {
    ordered := true;
    for n := 0 to |indexes|
      invariant ordered && InOrder(indexes[..n])
    {
      if n > 0 {
        if indexes[n - 1] > indexes[n] {
          ordered := false;
          return;
        }
      }
    }
    assert indexes[..|indexes|] == indexes;
  }

  /** `le` is the order of the strings that represent the keys. */
  method BuildAggkeys(aggregateBy: seq<string>, names: seq<string>, counts: seq<nat>, le: (Key, Key) -> bool)
    returns (aggkeys: seq<Key>, error: KeysError)
    requires |names| == |counts| && TotalPreorder(le)
    ensures error.UnknownTag? <==> exists i :: 0 <= i < |aggregateBy| && aggregateBy[i] !in names
    ensures !error.UnknownTag? ==> (error.Fine? <==>
      forall i, j :: 0 <= i < j < |aggregateBy| ==>
        IndexOf(names, aggregateBy[i], |names|) <= IndexOf(names, aggregateBy[j], |names|))
    ensures error.Fine? ==> IsSortOf(aggkeys, Product(TagIds(TagsOf(aggregateBy, names, counts))), le)
  {
    aggkeys, error := [], Fine;
    var indexes, known := Indexes(aggregateBy, names);
    if !known {
      error := UnknownTag;
      return;
    }
    assert indexes == Positions(aggregateBy, names);
    var ordered := CheckOrder(indexes);
    if !ordered {
      error := NotOrdered;
      return;
    }
    hide IsSortOf, Product;
    var tagids: seq<seq<Slot>> := [];
    ghost var tags := TagsOf(aggregateBy, names, counts);
    for i := 0 to |names|
      invariant tagids == TagIds(tags)[..i]
    {
      var lst := Range(1, counts[i]);
      tagids := tagids + [if names[i] in aggregateBy then Ones(lst) else [Many(lst)]];
    }
    assert tagids == TagIds(tags);
    aggkeys := Sort(Product(tagids), le);
  }

  function Positions(aggregateBy: seq<string>, names: seq<string>): (r: seq<int>)
    ensures |r| == |aggregateBy|
    ensures forall i :: 0 <= i < |r| ==> r[i] == IndexOf(names, aggregateBy[i], |names|)
  {
    seq(|aggregateBy|, i requires 0 <= i < |aggregateBy| => IndexOf(names, aggregateBy[i], |names|))
  }

  // ---- the keys partition the combinations ----

  /** The only key that can stand for a combination. */
  function KeyOf(tags: seq<Tag>, t: seq<nat>): (key: Key)
    requires |t| == |tags|
    ensures |key| == |tags| && forall i :: 0 <= i < |key| ==>
      key[i] == if tags[i].aggregated then One(t[i]) else Many(Range(1, tags[i].numValues))
  {
    seq(|tags|, i requires 0 <= i < |tags| =>
      if tags[i].aggregated then One(t[i]) else Many(Range(1, tags[i].numValues)))
  }

  /**
   Every combination of tag values comes from exactly one key, and the keys stand for
   nothing else.
   */
  lemma {:induction false} KeysPartition(tags: seq<Tag>, key: Key, t: seq<nat>)
    ensures key in Product(TagIds(tags)) && t in Expand(key)
      <==> t in Product(TagValues(tags)) && |t| == |tags| && key == KeyOf(tags, t)
  {
    ProductMembers(TagIds(tags), key);
    ProductMembers(AggList(key), t);
    ProductMembers(TagValues(tags), t);
    if |key| == |tags| == |t| {
      forall i | 0 <= i < |t|
        ensures key[i] in TagIds(tags)[i] && t[i] in AggList(key)[i]
          <==> t[i] in TagValues(tags)[i] && key[i] == KeyOf(tags, t)[i]
      {
      }
    }
  }

  /** No key is built twice, no combination occurs twice in a key, and none occurs twice in all. */
  lemma {:induction false} KeysDistinct(tags: seq<Tag>, key: Key)
    requires key in Product(TagIds(tags))
    ensures NoDuplicates(Product(TagIds(tags))) && NoDuplicates(Expand(key)) && NoDuplicates(Product(TagValues(tags)))
  {
    forall i | 0 <= i < |tags| ensures NoDuplicates(TagIds(tags)[i]) && NoDuplicates(TagValues(tags)[i]) {
    }
    ProductDistinct(TagIds(tags));
    ProductDistinct(TagValues(tags));
    ProductMembers(TagIds(tags), key);
    forall i | 0 <= i < |key| ensures NoDuplicates(AggList(key)[i]) {
      assert key[i] in Slots(tags[i]);
    }
    ProductDistinct(AggList(key));
  }

  /** One value of the tag, from 1, if it is aggregated by, else the list of all of them. */
  predicate FitsTag(slot: Slot, tag: Tag) {
    if tag.aggregated then slot.One? && 1 <= slot.id < tag.numValues
    else
      && slot.Many? && |slot.ids| == (if tag.numValues == 0 then 0 else tag.numValues - 1)
      && forall j :: 0 <= j < |slot.ids| ==> slot.ids[j] == j + 1
  }

  /** What the keys are. */
  lemma {:induction false} KeysAre(tags: seq<Tag>, key: Key)
    ensures key in Product(TagIds(tags)) <==> |key| == |tags| && forall i :: 0 <= i < |key| ==> FitsTag(key[i], tags[i])
  {
    ProductMembers(TagIds(tags), key);
    if |key| == |tags| {
      forall i | 0 <= i < |key| ensures key[i] in TagIds(tags)[i] <==> FitsTag(key[i], tags[i]) {
        SlotsAre(key[i], tags[i]);
      }
    }
  }

  lemma {:induction false} SlotsAre(slot: Slot, tag: Tag)
    ensures slot in Slots(tag) <==> FitsTag(slot, tag)
  {
    var ids := Range(1, tag.numValues);
    if tag.aggregated {
      if FitsTag(slot, tag) {
        assert ids[slot.id - 1] == slot.id && Ones(ids)[slot.id - 1] == slot;
      }
    } else if FitsTag(slot, tag) {
      assert slot.ids == ids;
    }
  }

  // ---- sums over the keys ----

  /** The part of a sum over combinations that belongs to one key. */
  function Share(tags: seq<Tag>, key: Key, ts: seq<seq<nat>>, g: seq<nat> -> real): real
    requires forall i :: 0 <= i < |ts| ==> |ts[i]| == |tags|
  {
    if ts == [] then 0.0
    else (if KeyOf(tags, ts[0]) == key then g(ts[0]) else 0.0) + Share(tags, key, ts[1..], g)
  }

  lemma {:induction false} ShareIsAgg(
    tags: seq<Tag>, key: Key, ts: seq<seq<nat>>, g: seq<nat> -> real, f: seq<nat> -> real)
    requires forall i :: 0 <= i < |ts| ==> |ts[i]| == |tags|
    requires forall i :: 0 <= i < |ts| ==> f(ts[i]) == if KeyOf(tags, ts[i]) == key then g(ts[i]) else 0.0
    ensures Agg(Plus, ts, f) == Share(tags, key, ts, g)
  {
    if ts == [] {
    } else {
      ShareIsAgg(tags, key, ts[1..], g, f);
    }
  }

  lemma {:induction false} TuplesFit(tags: seq<Tag>)
    ensures forall i :: 0 <= i < |Product(TagValues(tags))| ==> |Product(TagValues(tags))[i]| == |tags|
  {
    forall i | 0 <= i < |Product(TagValues(tags))| ensures |Product(TagValues(tags))[i]| == |tags| {
      ProductMembers(TagValues(tags), Product(TagValues(tags))[i]);
    }
  }

  /** Summing over the combinations of a key is summing its share of all combinations. */
  lemma {:induction false} ExpandShare(tags: seq<Tag>, key: Key, g: seq<nat> -> real)
    requires key in Product(TagIds(tags))
    requires forall i :: 0 <= i < |Product(TagValues(tags))| ==> |Product(TagValues(tags))[i]| == |tags|
    ensures Agg(Plus, Expand(key), g) == Share(tags, key, Product(TagValues(tags)), g)
  {
    var ts, ys := Product(TagValues(tags)), Expand(key);
    var f := (t: seq<nat>) => if |t| == |tags| && KeyOf(tags, t) == key then g(t) else 0.0;
    ShareIsAgg(tags, key, ts, g, f);
    KeysDistinct(tags, key);
    hide Product, Expand;
    forall i | 0 <= i < |ys| ensures ys[i] in ts && f(ys[i]) == g(ys[i]) {
      assert ys[i] in Expand(key);
      KeysPartition(tags, key, ys[i]);
    }
    forall i | 0 <= i < |ts| && ts[i] !in ys ensures f(ts[i]) == 0.0 {
      assert ts[i] in ts;
      KeysPartition(tags, key, ts[i]);
    }
    AggSupport(Plus, ts, ys, f);
    AggSame(Plus, ys, f, g);
  }

  lemma {:induction false} SharesAddUp(
    tags: seq<Tag>, keys: seq<Key>, ts: seq<seq<nat>>, g: seq<nat> -> real, h: Key -> real)
    requires NoDuplicates(keys) && forall i :: 0 <= i < |ts| ==> |ts[i]| == |tags| && KeyOf(tags, ts[i]) in keys
    requires forall k :: h(k) == Share(tags, k, ts, g)
    ensures Agg(Plus, keys, h) == Agg(Plus, ts, g)
    decreases |ts|
  {
    if ts == [] {
      AggUnit(Plus, keys, h);
    } else {
      assert forall i :: 0 <= i < |ts[1..]| ==> ts[1..][i] == ts[i + 1];
      var own := KeyOf(tags, ts[0]);
      var first := (k: Key) => if own == k then g(ts[0]) else 0.0;
      var rest := (k: Key) => Share(tags, k, ts[1..], g);
      SharesAddUp(tags, keys, ts[1..], g, rest);
      AggBoth(Plus, keys, first, rest, h);
      assert own in keys;
      var p :| 0 <= p < |keys| && keys[p] == own;
      AggSingle(Plus, keys, first, p);
    }
  }

  /**
   Whatever is summed over combinations of tag values: summing it over the combinations of
   each key, and then over the keys in any order, gives the sum over all combinations.
   */
  lemma {:induction false} KeySumsAddUp(tags: seq<Tag>, keys: seq<Key>, g: seq<nat> -> real, h: Key -> real)
    requires multiset(keys) == multiset(Product(TagIds(tags)))
    requires forall k :: h(k) == Agg(Plus, Expand(k), g)
    ensures Agg(Plus, keys, h) == Agg(Plus, Product(TagValues(tags)), g)
  {
    var all, ts := Product(TagIds(tags)), Product(TagValues(tags));
    TuplesFit(tags);
    AggPermutation(Plus, keys, all, h);
    if all != [] {
      KeysDistinct(tags, all[0]);
      var shares := (k: Key) => Share(tags, k, ts, g);
      forall i | 0 <= i < |all| ensures h(all[i]) == shares(all[i]) {
        assert all[i] in all;
        ExpandShare(tags, all[i], g);
      }
      AggSame(Plus, all, h, shares);
      forall i | 0 <= i < |ts| ensures KeyOf(tags, ts[i]) in all {
        assert ts[i] in ts;
        KeysPartition(tags, KeyOf(tags, ts[i]), ts[i]);
      }
      SharesAddUp(tags, all, ts, g, shares);
    } else if ts != [] {
      assert ts[0] in ts;
      KeysPartition(tags, KeyOf(tags, ts[0]), ts[0]);
      assert false;
    }
  }

  // ---- the position of a key ----

  /** The space of the aggregated tags, counted from zero. */
  function IdxSpace(tags: seq<Tag>): seq<seq<int>> {
    if tags == [] then []
    else (if tags[0].aggregated then [Down(Range(1, tags[0].numValues))] else []) + IdxSpace(tags[1..])
  }

  function Down(ids: seq<nat>): (r: seq<int>)
    ensures |r| == |ids| && forall i :: 0 <= i < |r| ==> r[i] + 1 == ids[i]
  {
    seq(|ids|, i requires 0 <= i < |ids| => ids[i] as int - 1)
  }

  function Idxs(keys: seq<Key>): (r: seq<seq<int>>)
    ensures |r| == |keys| && forall i :: 0 <= i < |r| ==> r[i] == Idx(keys[i])
  {
    seq(|keys|, i requires 0 <= i < |keys| => Idx(keys[i]))
  }

  /** The number of tags aggregated by. */
  function Aggregated(tags: seq<Tag>): nat {
    if tags == [] then 0 else (if tags[0].aggregated then 1 else 0) + Aggregated(tags[1..])
  }

  /** The tags that are not aggregated by but look as if they were: they have a single value. */
  function Lonely(tags: seq<Tag>): nat {
    if tags == [] then 0
    else (if !tags[0].aggregated && tags[0].numValues == 2 then 1 else 0) + Lonely(tags[1..])
  }

  lemma {:induction false} IdxOnes(ids: seq<nat>, keys: seq<Key>)
    ensures Idxs(Cross(Ones(ids), keys)) == Cross(Down(ids), Idxs(keys))
  {
    if ids == [] {
      assert Cross(Ones(ids), keys) == [];
    } else {
      IdxOnes(ids[1..], keys);
      assert Ones(ids)[1..] == Ones(ids[1..]) && Down(ids)[1..] == Down(ids[1..]);
    }
  }

  lemma {:induction false} IdxMany(ids: seq<nat>, keys: seq<Key>)
    requires |ids| != 1
    ensures Idxs(Cross([Many(ids)], keys)) == Idxs(keys)
  {
    forall i | 0 <= i < |keys| ensures Idx(Prefixed(Many(ids), keys)[i]) == Idx(keys[i]) {
      assert ([Many(ids)] + keys[i])[1..] == keys[i];
    }
  }

  /**
   When no tag left aside has a single value, the positions of the keys, in the order in
   which they are built, are the aggregated tag space in order: a bijection onto it.
   */
  lemma {:induction false} IdxBijection(tags: seq<Tag>)
    requires Lonely(tags) == 0
    ensures Idxs(Product(TagIds(tags))) == Product(IdxSpace(tags))
    ensures NoDuplicates(Idxs(Product(TagIds(tags))))
    ensures forall p :: p in Idxs(Product(TagIds(tags))) <==>
      |p| == |Sizes(tags)| && forall j :: 0 <= j < |p| ==> 0 <= p[j] < Sizes(tags)[j]
  {
    IdxEnumerates(tags);
    SpaceDistinct(tags);
    ProductDistinct(IdxSpace(tags));
    hide Product, Sizes;
    forall p ensures p in Product(IdxSpace(tags)) <==>
      |p| == |Sizes(tags)| && forall j :: 0 <= j < |p| ==> 0 <= p[j] < Sizes(tags)[j]
    {
      InSpace(tags, p);
    }
  }

  lemma {:induction false} InSpace(tags: seq<Tag>, p: seq<int>)
    ensures p in Product(IdxSpace(tags)) <==>
      |p| == |Sizes(tags)| && forall j :: 0 <= j < |p| ==> 0 <= p[j] < Sizes(tags)[j]
  {
    var space, sizes := IdxSpace(tags), Sizes(tags);
    SpaceSizes(tags);
    ProductMembers(space, p);
    hide Product, Sizes, IdxSpace;
    if |p| == |sizes| {
      forall j | 0 <= j < |p| ensures p[j] in space[j] <==> 0 <= p[j] < sizes[j] {
        if 0 <= p[j] < sizes[j] {
          assert space[j][p[j]] == p[j];
        }
      }
    }
  }

  /** The numbers of values of the aggregated tags, without the unused value. */
  function Sizes(tags: seq<Tag>): seq<int> {
    if tags == [] then [] else (if tags[0].aggregated then [tags[0].numValues - 1] else []) + Sizes(tags[1..])
  }

  lemma {:induction false} SpaceSizes(tags: seq<Tag>)
    ensures |IdxSpace(tags)| == |Sizes(tags)|
    ensures forall j :: 0 <= j < |Sizes(tags)| ==>
      |IdxSpace(tags)[j]| == (if Sizes(tags)[j] < 0 then 0 else Sizes(tags)[j])
      && forall x :: 0 <= x < |IdxSpace(tags)[j]| ==> IdxSpace(tags)[j][x] == x
  {
    if tags == [] {
    } else {
      SpaceSizes(tags[1..]);
    }
  }

  lemma {:induction false} IdxEnumerates(tags: seq<Tag>)
    requires Lonely(tags) == 0
    ensures Idxs(Product(TagIds(tags))) == Product(IdxSpace(tags))
  {
    if tags == [] {
    } else {
      IdxEnumerates(tags[1..]);
      assert TagIds(tags)[1..] == TagIds(tags[1..]);
      var ids, keys := Range(1, tags[0].numValues), Product(TagIds(tags[1..]));
      assert Product(TagIds(tags)) == Cross(Slots(tags[0]), keys);
      if tags[0].aggregated {
        IdxOnes(ids, keys);
        assert IdxSpace(tags)[1..] == IdxSpace(tags[1..]);
      } else {
        IdxMany(ids, keys);
        assert IdxSpace(tags) == IdxSpace(tags[1..]);
      }
    }
  }

  lemma {:induction false} SpaceDistinct(tags: seq<Tag>)
    ensures forall i :: 0 <= i < |IdxSpace(tags)| ==> NoDuplicates(IdxSpace(tags)[i])
  {
    if tags == [] {
    } else {
      SpaceDistinct(tags[1..]);
    }
  }

  /** A position has one entry per aggregated tag if and only if no other tag has a single value. */
  lemma {:induction false} IdxLength(tags: seq<Tag>, key: Key)
    requires key in Product(TagIds(tags))
    ensures |Idx(key)| == Aggregated(tags) + Lonely(tags)
    ensures |Idx(key)| == Aggregated(tags) <==>
      forall i :: 0 <= i < |tags| && !tags[i].aggregated ==> |Range(1, tags[i].numValues)| != 1
  {
    IdxCounts(tags, key);
    NotLonely(tags);
  }

  /** One tag, with a single value and not aggregated by, has a position with an entry that is not needed. */
  lemma {:induction false} LonelyTag()
    ensures var tags := [Tag(2, false)]; [Many([1])] in Product(TagIds(tags))
    ensures |Idx([Many([1])])| != Aggregated([Tag(2, false)])
  {
    var tags, key := [Tag(2, false)], [Many([1])];
    assert Range(1, 2) == Range(1, 1) + [1] == [1];
    assert TagIds(tags) == [[Many([1])]] && TagIds(tags)[1..] == [] && key[1..] == [];
    CrossMembers([Many([1])], Product([]), key);
    IdxLength(tags, key);
    assert !tags[0].aggregated && |Range(1, tags[0].numValues)| == 1;
  }

  lemma {:induction false} IdxCounts(tags: seq<Tag>, key: Key)
    requires key in Product(TagIds(tags))
    ensures |Idx(key)| == Aggregated(tags) + Lonely(tags)
  {
    if tags == [] {
      assert key == [];
    } else {
      assert TagIds(tags)[1..] == TagIds(tags[1..]);
      CrossMembers(Slots(tags[0]), Product(TagIds(tags[1..])), key);
      IdxCounts(tags[1..], key[1..]);
    }
  }

  lemma {:induction false} NotLonely(tags: seq<Tag>)
    ensures Lonely(tags) == 0 <==>
      forall i :: 0 <= i < |tags| && !tags[i].aggregated ==> |Range(1, tags[i].numValues)| != 1
  {
    if tags == [] {
    } else {
      NotLonely(tags[1..]);
      assert forall i :: 0 <= i < |tags| - 1 ==> tags[1..][i] == tags[i + 1];
      if Lonely(tags) != 0 && Lonely(tags[1..]) == 0 {
        assert |Range(1, tags[0].numValues)| == 1;
      } else if Lonely(tags[1..]) != 0 {
        var i :| 0 <= i < |tags[1..]| && !tags[1..][i].aggregated && |Range(1, tags[1..][i].numValues)| == 1;
        assert !tags[i + 1].aggregated && |Range(1, tags[i + 1].numValues)| == 1;
      }
    }
  }

  // ---- post_ebrisk ----

  /** The losses of an event, one for each loss type. */
  datatype Rec = Rec(eventId: nat, loss: seq<real>)

  function RecLoss(rec: Rec, e: nat, l: nat): real {
    if rec.eventId == e && l < |rec.loss| then rec.loss[l] else 0.0
  }

  function LossTo(recs: seq<Rec>, e: nat, l: nat, n: nat): real
    requires n <= |recs|
  {
    if n == 0 then 0.0 else LossTo(recs, e, l, n - 1) + RecLoss(recs[n - 1], e, l)
  }

  /** The loss of an event for a combination of tag values; there may be no data. */
  function LossAt(table: map<seq<nat>, seq<Rec>>, t: seq<nat>, e: nat, l: nat): real {
    if t in table then LossTo(table[t], e, l, |table[t]|) else 0.0
  }

  /** The loss of an event for a key. */
  function KeyLoss(table: map<seq<nat>, seq<Rec>>, key: Key, e: nat, l: nat): real {
    Agg(Plus, Expand(key), (t: seq<nat>) => LossAt(table, t, e, l))
  }

  /** Add the losses of a record to the row of its event. */
  method AddRec(arr: array2<real>, rec: Rec)
    requires rec.eventId < arr.Length0 && |rec.loss| == arr.Length1
    modifies arr
    ensures forall e, l :: 0 <= e < arr.Length0 && 0 <= l < arr.Length1 ==>
      arr[e, l] == old(arr[e, l]) + RecLoss(rec, e, l)
  {
    for k := 0 to arr.Length1
      invariant forall e, l :: 0 <= e < arr.Length0 && 0 <= l < arr.Length1 ==>
        arr[e, l] == old(arr[e, l]) + if l < k then RecLoss(rec, e, l) else 0.0
    {
      arr[rec.eventId, k] := arr[rec.eventId, k] + rec.loss[k];
    }
  }

  method AddRecs(arr: array2<real>, recs: seq<Rec>)
    requires forall i :: 0 <= i < |recs| ==> recs[i].eventId < arr.Length0 && |recs[i].loss| == arr.Length1
    modifies arr
    ensures forall e, l :: 0 <= e < arr.Length0 && 0 <= l < arr.Length1 ==>
      arr[e, l] == old(arr[e, l]) + LossTo(recs, e, l, |recs|)
  {
    for n := 0 to |recs|
      invariant forall e, l :: 0 <= e < arr.Length0 && 0 <= l < arr.Length1 ==>
        arr[e, l] == old(arr[e, l]) + LossTo(recs, e, l, n)
    {
      AddRec(arr, recs[n]);
    }
  }

  // ---- the table as a list of records ----

  /** A record with the combination of tag values it is stored under. */
  type Stored = (seq<nat>, Rec)

  /** The records stored under a combination, among the first `n`. */
  function RecsOf(flat: seq<Stored>, t: seq<nat>, n: nat): seq<Rec>
    requires n <= |flat|
  {
    if n == 0 then [] else RecsOf(flat, t, n - 1) + if flat[n - 1].0 == t then [flat[n - 1].1] else []
  }

  /** The table has the records of the list, each under its combination. */
  ghost predicate TableOf(table: map<seq<nat>, seq<Rec>>, flat: seq<Stored>) {
    forall t :: RecsOf(flat, t, |flat|) == if t in table then table[t] else []
  }

  /** The combination has the values that the key fixes, and otherwise values that it lists. */
  predicate InKey(t: seq<nat>, key: Key) {
    && |t| == |key|
    && forall i :: 0 <= i < |t| ==> if key[i].One? then t[i] == key[i].id else t[i] in key[i].ids
  }

  ghost predicate ListsOnce(key: Key) {
    forall i :: 0 <= i < |key| && key[i].Many? ==> NoDuplicates(key[i].ids)
  }

  /** The losses of an event and type, of the first `n` records with a combination of the key. */
  function SumForKey(flat: seq<Stored>, key: Key, e: nat, l: nat, n: nat): real
    requires n <= |flat|
  {
    if n == 0 then 0.0
    else
      var (t, rec) := flat[n - 1];
      SumForKey(flat, key, e, l, n - 1)
      + if InKey(t, key) && rec.eventId == e && l < |rec.loss| then rec.loss[l] else 0.0
  }

  /** The losses of an event and type, of the first `n` records. */
  function SumOfAll(flat: seq<Stored>, e: nat, l: nat, n: nat): real
    requires n <= |flat|
  {
    if n == 0 then 0.0
    else
      var rec := flat[n - 1].1;
      SumOfAll(flat, e, l, n - 1) + if rec.eventId == e && l < |rec.loss| then rec.loss[l] else 0.0
  }

  function LossOf(flat: seq<Stored>, n: nat, e: nat, l: nat, t: seq<nat>): real
    requires n <= |flat|
  {
    LossTo(RecsOf(flat, t, n), e, l, |RecsOf(flat, t, n)|)
  }

  lemma {:induction false} LossToPrefix(xs: seq<Rec>, ys: seq<Rec>, e: nat, l: nat, n: nat)
    requires n <= |xs|
    ensures LossTo(xs + ys, e, l, n) == LossTo(xs, e, l, n)
  {
    if n == 0 {
    } else {
      LossToPrefix(xs, ys, e, l, n - 1);
    }
  }

  lemma {:induction false} LossOfNext(flat: seq<Stored>, n: nat, e: nat, l: nat, t: seq<nat>)
    requires n < |flat|
    ensures LossOf(flat, n + 1, e, l, t) ==
      LossOf(flat, n, e, l, t) + if flat[n].0 == t then RecLoss(flat[n].1, e, l) else 0.0
  {
    var before := RecsOf(flat, t, n);
    if flat[n].0 == t {
      assert RecsOf(flat, t, n + 1) == before + [flat[n].1];
      LossToPrefix(before, [flat[n].1], e, l, |before|);
    } else {
      assert RecsOf(flat, t, n + 1) == before + [] == before;
    }
  }

  /** Adding up over different combinations is adding up over the records stored under them. */
  lemma {:induction false} SumOverCombinations(
    flat: seq<Stored>, key: Key, ts: seq<seq<nat>>, e: nat, l: nat, n: nat, f: seq<nat> -> real)
    requires n <= |flat| && NoDuplicates(ts) && forall t :: t in ts <==> InKey(t, key)
    requires forall t :: f(t) == LossOf(flat, n, e, l, t)
    ensures Agg(Plus, ts, f) == SumForKey(flat, key, e, l, n)
  {
    hide LossOf, InKey, RecLoss, Agg, NoDuplicates;
    if n == 0 {
      forall t ensures f(t) == 0.0 {
        LossOfNone(flat, e, l, t);
      }
      AggUnit(Plus, ts, f);
    } else {
      var t0, x := flat[n - 1].0, RecLoss(flat[n - 1].1, e, l);
      var g := t => LossOf(flat, n - 1, e, l, t);
      SumOverCombinations(flat, key, ts, e, l, n - 1, g);
      forall t ensures f(t) == g(t) + if t0 == t then x else 0.0 {
        LossOfNext(flat, n - 1, e, l, t);
      }
      SumForNext(flat, key, e, l, n - 1);
      hide SumForKey;
      OneMoreRecord(ts, t0, x, g, f);
    }
  }

  lemma {:induction false} SumForNext(flat: seq<Stored>, key: Key, e: nat, l: nat, n: nat)
    requires n < |flat|
    ensures SumForKey(flat, key, e, l, n + 1) ==
      SumForKey(flat, key, e, l, n) + if InKey(flat[n].0, key) then RecLoss(flat[n].1, e, l) else 0.0
  {
    hide InKey;
  }

  lemma {:induction false} OneMoreRecord(
    ts: seq<seq<nat>>, t0: seq<nat>, x: real, g: seq<nat> -> real, f: seq<nat> -> real)
    requires NoDuplicates(ts) && forall t :: f(t) == g(t) + if t0 == t then x else 0.0
    ensures Agg(Plus, ts, f) == Agg(Plus, ts, g) + if t0 in ts then x else 0.0
  {
    hide Agg;
    var d := t => if t0 == t then x else 0.0;
    AggBoth(Plus, ts, g, d, f);
    if t0 in ts {
      var p :| 0 <= p < |ts| && ts[p] == t0;
      AggSingle(Plus, ts, d, p);
    } else {
      AggUnit(Plus, ts, d);
    }
  }

  lemma {:induction false} LossOfNone(flat: seq<Stored>, e: nat, l: nat, t: seq<nat>)
    ensures LossOf(flat, 0, e, l, t) == 0.0
  {
  }

  /** The loss for a key is the sum over the records with a combination of the key. */
  lemma {:induction false} KeyLossIsSum(
    table: map<seq<nat>, seq<Rec>>, flat: seq<Stored>, key: Key, e: nat, l: nat)
    requires TableOf(table, flat) && ListsOnce(key)
    ensures KeyLoss(table, key, e, l) == SumForKey(flat, key, e, l, |flat|)
  {
    var ts, f := Expand(key), t => LossOf(flat, |flat|, e, l, t);
    forall t ensures t in ts <==> InKey(t, key) {
      ProductMembers(AggList(key), t);
    }
    ProductDistinct(AggList(key));
    SumOverCombinations(flat, key, ts, e, l, |flat|, f);
    hide Expand, Agg, InKey, RecLoss, LossTo;
    forall t ensures LossAt(table, t, e, l) == f(t) {
      assert RecsOf(flat, t, |flat|) == if t in table then table[t] else [];
      NoLoss(e, l);
    }
    AggSame(Plus, ts, f, (t: seq<nat>) => LossAt(table, t, e, l));
  }

  lemma {:induction false} NoLoss(e: nat, l: nat)
    ensures LossTo([], e, l, 0) == 0.0
  {
  }

  /**
   Accumulate, event by event and loss type by loss type, the losses of the combinations of a
   key. `flat` is the table as a list of records.
   */
  method PostEbrisk(
    table: map<seq<nat>, seq<Rec>>, numEvents: nat, numLosses: nat, key: Key, ghost flat: seq<Stored>)
    returns (arr: array2<real>)
    requires TableOf(table, flat) && ListsOnce(key)
    requires forall t, i :: t in table && 0 <= i < |table[t]| ==>
      table[t][i].eventId < numEvents && |table[t][i].loss| == numLosses
    ensures fresh(arr) && arr.Length0 == numEvents && arr.Length1 == numLosses
    ensures forall e, l :: 0 <= e < numEvents && 0 <= l < numLosses ==> arr[e, l] == KeyLoss(table, key, e, l)
    ensures forall e, l :: 0 <= e < numEvents && 0 <= l < numLosses ==>
      arr[e, l] == SumForKey(flat, key, e, l, |flat|)
  {
    arr := new real[numEvents, numLosses]((_, _) => 0.0);
    var agglist := Expand(key);
    for i := 0 to |agglist|
      invariant forall e, l :: 0 <= e < numEvents && 0 <= l < numLosses ==>
        Agg(Plus, agglist, (t: seq<nat>) => LossAt(table, t, e, l))
        == arr[e, l] + Agg(Plus, agglist[i..], (t: seq<nat>) => LossAt(table, t, e, l))
    {
      hide LossTo, RecLoss;
      assert agglist[i..][1..] == agglist[i + 1..];
      if agglist[i] in table {
        AddRecs(arr, table[agglist[i]]);
      }
    }
    assert agglist[|agglist|..] == [];
    forall e, l | 0 <= e < numEvents && 0 <= l < numLosses ensures arr[e, l] == SumForKey(flat, key, e, l, |flat|) {
      KeyLossIsSum(table, flat, key, e, l);
    }
  }

  /** A table with one record: its losses are at its event, for the keys with its combination. */
  lemma {:induction false} OneRecord(t: seq<nat>, rec: Rec, key: Key, e: nat, l: nat)
    requires l < |rec.loss|
    ensures TableOf(map[t := [rec]], [(t, rec)])
    ensures SumForKey([(t, rec)], key, e, l, 1) == if InKey(t, key) && e == rec.eventId then rec.loss[l] else 0.0
  {
    var flat := [(t, rec)];
    forall u ensures RecsOf(flat, u, 1) == if u == t then [rec] else [] {
      assert RecsOf(flat, u, 0) == [];
    }
    assert SumForKey(flat, key, e, l, 0) == 0.0;
  }

  /** The record is counted for exactly one key. */
  lemma {:induction false} RecordInOneKey(tags: seq<Tag>, keys: seq<Key>, t: seq<nat>, x: real, d: Key -> real)
    requires multiset(keys) == multiset(Product(TagIds(tags)))
    requires |t| == |tags| && forall i :: 0 <= i < |t| ==> 1 <= t[i] < tags[i].numValues
    requires forall k :: d(k) == if InKey(t, k) then x else 0.0
    ensures Agg(Plus, keys, d) == x
  {
    var all, key := Product(TagIds(tags)), KeyOf(tags, t);
    AggPermutation(Plus, keys, all, d);
    forall k ensures k in all && InKey(t, k) <==> k == key {
      CombinationOfKey(tags, k, t);
    }
    assert key in all;
    KeysDistinct(tags, key);
    hide Product, InKey;
    var p :| 0 <= p < |all| && all[p] == key;
    forall i | 0 <= i < |all| && i != p ensures d(all[i]) == 0.0 {
      assert all[i] in all && all[i] != key;
    }
    AggSingle(Plus, all, d, p);
  }

  /** The keys that a combination of known tag values belongs to, spelled out. */
  lemma {:induction false} CombinationOfKey(tags: seq<Tag>, key: Key, t: seq<nat>)
    requires |t| == |tags| && forall i :: 0 <= i < |t| ==> 1 <= t[i] < tags[i].numValues
    ensures key in Product(TagIds(tags)) && InKey(t, key) <==> key == KeyOf(tags, t)
  {
    KeysPartition(tags, key, t);
    ProductMembers(AggList(key), t);
    ProductMembers(TagValues(tags), t);
    forall i | 0 <= i < |t| ensures t[i] in TagValues(tags)[i] {
      assert Range(1, tags[i].numValues)[t[i] - 1] == t[i];
    }
    assert Picks(t, AggList(key)) <==> InKey(t, key);
  }

  ghost predicate KnownValues(flat: seq<Stored>, tags: seq<Tag>) {
    forall n :: 0 <= n < |flat| ==>
      |flat[n].0| == |tags| && forall i :: 0 <= i < |tags| ==> 1 <= flat[n].0[i] < tags[i].numValues
  }

  /** Over all keys the sums of the losses are the sum over all records. */
  lemma {:induction false} SumsAddUp(
    tags: seq<Tag>, keys: seq<Key>, flat: seq<Stored>, e: nat, l: nat, n: nat, f: Key -> real)
    requires multiset(keys) == multiset(Product(TagIds(tags))) && n <= |flat| && KnownValues(flat, tags)
    requires forall k :: f(k) == SumForKey(flat, k, e, l, n)
    ensures Agg(Plus, keys, f) == SumOfAll(flat, e, l, n)
  {
    if n == 0 {
      AggUnit(Plus, keys, f);
    } else {
      var t, rec := flat[n - 1].0, flat[n - 1].1;
      var x := if rec.eventId == e && l < |rec.loss| then rec.loss[l] else 0.0;
      var g := (k: Key) => SumForKey(flat, k, e, l, n - 1);
      var d := (k: Key) => if InKey(t, k) then x else 0.0;
      SumsAddUp(tags, keys, flat, e, l, n - 1, g);
      RecordInOneKey(tags, keys, t, x, d);
      hide Agg, Product, InKey;
      AggBoth(Plus, keys, g, d, f);
    }
  }

  /** The sum of a cell of the first `n` arrays. */
  function SumAt(arrs: seq<array2<real>>, e: nat, l: nat, n: nat): real
    requires n <= |arrs| && forall i :: 0 <= i < |arrs| ==> e < arrs[i].Length0 && l < arrs[i].Length1
    reads arrs
  {
    if n == 0 then 0.0 else SumAt(arrs, e, l, n - 1) + arrs[n - 1][e, l]
  }

  /** The tasks of all keys: in each cell their arrays add up to the losses of all records. */
  method PostEbriskAll(
    table: map<seq<nat>, seq<Rec>>, numEvents: nat, numLosses: nat, keys: seq<Key>,
    ghost tags: seq<Tag>, ghost flat: seq<Stored>)
    returns (arrs: seq<array2<real>>)
    requires TableOf(table, flat) && KnownValues(flat, tags) && multiset(keys) == multiset(Product(TagIds(tags)))
    requires forall t, i :: t in table && 0 <= i < |table[t]| ==>
      table[t][i].eventId < numEvents && |table[t][i].loss| == numLosses
    ensures |arrs| == |keys|
    ensures forall i :: 0 <= i < |arrs| ==> arrs[i].Length0 == numEvents && arrs[i].Length1 == numLosses
    ensures forall i, e, l :: 0 <= i < |arrs| && 0 <= e < numEvents && 0 <= l < numLosses ==>
      arrs[i][e, l] == SumForKey(flat, keys[i], e, l, |flat|)
    ensures forall e, l :: 0 <= e < numEvents && 0 <= l < numLosses ==>
      SumAt(arrs, e, l, |arrs|) == SumOfAll(flat, e, l, |flat|)
  {
    KeysListOnce(tags, keys);
    hide Product, TableOf, ListsOnce, KnownValues, SumForKey, SumOfAll, KeyLoss, SumAt;
    arrs := [];
    for n := 0 to |keys|
      invariant |arrs| == n
      invariant forall i :: 0 <= i < n ==> arrs[i].Length0 == numEvents && arrs[i].Length1 == numLosses
      invariant forall i, e, l :: 0 <= i < n && 0 <= e < numEvents && 0 <= l < numLosses ==>
        arrs[i][e, l] == SumForKey(flat, keys[i], e, l, |flat|)
    {
      var arr := PostEbrisk(table, numEvents, numLosses, keys[n], flat);
      arrs := arrs + [arr];
    }
    forall e, l | 0 <= e < numEvents && 0 <= l < numLosses
      ensures SumAt(arrs, e, l, |arrs|) == SumOfAll(flat, e, l, |flat|)
    {
      var f := (k: Key) => SumForKey(flat, k, e, l, |flat|);
      SumAtIsAgg(arrs, keys, e, l, |arrs|, f);
      assert keys[..|arrs|] == keys;
      SumsAddUp(tags, keys, flat, e, l, |flat|, f);
    }
  }

  lemma {:induction false} SumAtIsAgg(
    arrs: seq<array2<real>>, keys: seq<Key>, e: nat, l: nat, n: nat, f: Key -> real)
    requires n <= |arrs| == |keys|
    requires forall i :: 0 <= i < |arrs| ==> e < arrs[i].Length0 && l < arrs[i].Length1
    requires forall i :: 0 <= i < |arrs| ==> arrs[i][e, l] == f(keys[i])
    ensures SumAt(arrs, e, l, n) == Agg(Plus, keys[..n], f)
  {
    if n == 0 {
    } else {
      SumAtIsAgg(arrs, keys, e, l, n - 1, f);
      assert keys[..n] == keys[..n - 1] + [keys[n - 1]];
      AggAppend(Plus, keys[..n - 1], [keys[n - 1]], f);
      assert [keys[n - 1]][1..] == [];
    }
  }

  lemma {:induction false} KeysListOnce(tags: seq<Tag>, keys: seq<Key>)
    requires multiset(keys) == multiset(Product(TagIds(tags)))
    ensures forall i :: 0 <= i < |keys| ==> ListsOnce(keys[i])
  {
    PermutationLength(keys, Product(TagIds(tags)));
    forall i | 0 <= i < |keys| ensures ListsOnce(keys[i]) {
      assert keys[i] in Product(TagIds(tags));
      ProductMembers(TagIds(tags), keys[i]);
      forall j | 0 <= j < |keys[i]| && keys[i][j].Many? ensures NoDuplicates(keys[i][j].ids) {
        assert keys[i][j] in Slots(tags[j]);
      }
    }
  }

  /**
   Over all keys, in any order, the accumulated losses of an event, of each type, are the losses
   of the whole event loss table, if the table only has combinations of known tag values.
   */
  lemma {:induction false} LossesAddUp(
    tags: seq<Tag>, keys: seq<Key>, table: map<seq<nat>, seq<Rec>>, rows: seq<seq<nat>>, e: nat, l: nat)
    requires multiset(keys) == multiset(Product(TagIds(tags)))
    requires NoDuplicates(rows) && forall t :: t in rows <==> t in table
    requires forall t :: t in table ==> Picks(t, TagValues(tags))
    ensures Agg(Plus, keys, (k: Key) => KeyLoss(table, k, e, l))
         == Agg(Plus, rows, (t: seq<nat>) => LossAt(table, t, e, l))
  {
    var g := (t: seq<nat>) => LossAt(table, t, e, l);
    var h := (k: Key) => KeyLoss(table, k, e, l);
    var all := Product(TagValues(tags));
    KeySumsAddUp(tags, keys, g, h);
    forall i | 0 <= i < |rows| ensures rows[i] in all {
      assert rows[i] in rows;
      ProductMembers(TagValues(tags), rows[i]);
    }
    forall i | 0 <= i < |tags| ensures NoDuplicates(TagValues(tags)[i]) {
    }
    ProductDistinct(TagValues(tags));
    AggSupport(Plus, all, rows, g);
  }
}
