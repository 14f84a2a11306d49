/**
 Hazard curves from ground motion fields: one curve of probabilities for each realization, site
 and intensity measure type of a batch, combined over the batches as independent ones.
 */
module GmfCurves {
  import opened Aggregates
  import opened Folds
  import P = TaskProtocol

  // The number q stands for exp(-1 / ses_per_logic_tree_path), so that
  // exp(-n / ses_per_logic_tree_path) is q to the n.

  function Pow(q: real, n: nat): real {
    if n == 0 then 1.0 else q * Pow(q, n - 1)
  }

  lemma {:induction false} PowAdd(q: real, a: nat, b: nat)
    ensures Pow(q, a + b) == Pow(q, a) * Pow(q, b)
  {
    if a == 0 {
    } else {
      PowAdd(q, a - 1, b);
      PowNext(q, a - 1);
      PowNext(q, a - 1 + b);
      hide Pow;
      Associates(q, Pow(q, a - 1), Pow(q, b));
    }
  }

  lemma {:induction false} PowNext(q: real, n: nat)
    ensures Pow(q, n + 1) == q * Pow(q, n)
  {
  }

  lemma {:induction false} Associates(x: real, y: real, z: real)
    ensures x * (y * z) == (x * y) * z
  {
  }

  lemma {:induction false} PowRange(q: real, n: nat)
    requires 0.0 < q < 1.0
    ensures 0.0 < Pow(q, n) <= 1.0
  {
    if n == 0 {
    } else {
      PowRange(q, n - 1);
    }
  }

  lemma {:induction false} PowStep(q: real, n: nat)
    requires 0.0 < q < 1.0
    ensures Pow(q, n + 1) < Pow(q, n)
  {
    assert Pow(q, n + 1) == q * Pow(q, n);
    hide Pow;
    PowRange(q, n);
  }

  lemma {:induction false} PowFalls(q: real, a: nat, b: nat)
    requires 0.0 < q < 1.0 && a <= b
    ensures Pow(q, b) <= Pow(q, a)
    decreases b
  {
    hide Pow;
    if a < b {
      PowFalls(q, a, b - 1);
      PowStep(q, b - 1);
    }
  }

  // ---- one curve ----

  function Exceeding(gmvs: seq<real>, iml: real): nat {
    if gmvs == [] then 0 else (if gmvs[0] >= iml then 1 else 0) + Exceeding(gmvs[1..], iml)
  }

  function GmvsToHazCurve(gmvs: seq<real>, imls: seq<real>, q: real): (poes: seq<real>)
    ensures |poes| == |imls|
    ensures forall l :: 0 <= l < |poes| ==> poes[l] == 1.0 - Pow(q, Exceeding(gmvs, imls[l]))
  {
    seq(|imls|, l requires 0 <= l < |imls| => 1.0 - Pow(q, Exceeding(gmvs, imls[l])))
  }

  /** All the levels of all the intensity measure types. */
  method GmvsToPoes(gmvs: seq<seq<real>>, imtls: seq<seq<real>>, q: real) returns (arr: seq<seq<real>>)
    requires |gmvs| == |imtls|
    ensures |arr| == |imtls|
    ensures forall m :: 0 <= m < |arr| ==> arr[m] == GmvsToHazCurve(gmvs[m], imtls[m], q)
  {
    arr := [];
    for m := 0 to |imtls|
      invariant |arr| == m && forall j :: 0 <= j < m ==> arr[j] == GmvsToHazCurve(gmvs[j], imtls[j], q)
    {
      arr := arr + [GmvsToHazCurve(gmvs[m], imtls[m], q)];
    }
  }

  /** Higher levels are exceeded less often. */
  lemma {:induction false} ExceedingFalls(gmvs: seq<real>, low: real, high: real)
    requires low <= high
    ensures Exceeding(gmvs, high) <= Exceeding(gmvs, low)
  {
    if gmvs == [] {
    } else {
      ExceedingFalls(gmvs[1..], low, high);
    }
  }

  /** A curve lies in [0, 1) and does not increase with the level. */
  lemma {:induction false} CurveShape(gmvs: seq<real>, imls: seq<real>, q: real, k: nat, l: nat)
    requires 0.0 < q < 1.0 && k <= l < |imls| && imls[k] <= imls[l]
    ensures 0.0 <= GmvsToHazCurve(gmvs, imls, q)[l] <= GmvsToHazCurve(gmvs, imls, q)[k] < 1.0
  {
    PowRange(q, Exceeding(gmvs, imls[k]));
    PowRange(q, Exceeding(gmvs, imls[l]));
    ExceedingFalls(gmvs, imls[k], imls[l]);
    PowFalls(q, Exceeding(gmvs, imls[l]), Exceeding(gmvs, imls[k]));
  }

  // ---- the curves of a batch ----

  /** A ground motion record: the values for all the intensity measure types. */
  datatype Rec = Rec(sid: nat, rlz: nat, gmv: seq<real>)

  datatype Key = Key(rlz: nat, sid: nat, m: nat)

  type Curves = map<Key, seq<real>>

  predicate HasImts(rows: seq<Rec>, n: nat) {
    forall i :: 0 <= i < |rows| ==> |rows[i].gmv| == n
  }

  function OfSid(rows: seq<Rec>, sid: nat): (r: seq<Rec>)
    ensures forall x :: x in r <==> x in rows && x.sid == sid
  {
    if rows == [] then [] else (if rows[0].sid == sid then [rows[0]] else []) + OfSid(rows[1..], sid)
  }

  function OfRlz(rows: seq<Rec>, rlz: nat): (r: seq<Rec>)
    ensures forall x :: x in r <==> x in rows && x.rlz == rlz
  {
    if rows == [] then [] else (if rows[0].rlz == rlz then [rows[0]] else []) + OfRlz(rows[1..], rlz)
  }

  function Group(rows: seq<Rec>, rlz: nat, sid: nat): seq<Rec> {
    OfRlz(OfSid(rows, sid), rlz)
  }

  /** The ground motions of one intensity measure type. */
  function Gmvs(rows: seq<Rec>, m: nat): (r: seq<real>)
    requires forall x :: x in rows ==> m < |x.gmv|
    ensures |r| == |rows| && forall i :: 0 <= i < |r| ==> r[i] == rows[i].gmv[m]
  {
    seq(|rows|, i requires 0 <= i < |rows| => assert rows[i] in rows; rows[i].gmv[m])
  }

  lemma {:induction false} GroupMembers(rows: seq<Rec>)
    ensures forall x :: x in rows ==> Group(rows, x.rlz, x.sid) != []
    ensures forall rlz, sid :: Group(rows, rlz, sid) != [] ==> exists x :: x in rows && x.rlz == rlz && x.sid == sid
  {
    forall x | x in rows ensures Group(rows, x.rlz, x.sid) != [] {
      assert x in Group(rows, x.rlz, x.sid);
    }
    forall rlz, sid | Group(rows, rlz, sid) != [] ensures exists x :: x in rows && x.rlz == rlz && x.sid == sid {
      var x := Group(rows, rlz, sid)[0];
      assert x in Group(rows, rlz, sid);
    }
  }

  function KeysOf(rows: seq<Rec>, numImts: nat): (keys: set<Key>)
    ensures forall key :: key in keys <==> key.m < numImts && Group(rows, key.rlz, key.sid) != []
  {
    GroupMembers(rows);
    set x, m | x in rows && 0 <= m < numImts :: Key(x.rlz, x.sid, m)
  }

  function CurveOf(rows: seq<Rec>, imtls: seq<seq<real>>, q: real, key: Key): seq<real>
    requires HasImts(rows, |imtls|) && key.m < |imtls|
  {
    GmvsToHazCurve(Gmvs(Group(rows, key.rlz, key.sid), key.m), imtls[key.m], q)
  }

  function CurvesFor(rows: seq<Rec>, imtls: seq<seq<real>>, q: real, keys: set<Key>): (r: Curves)
    requires HasImts(rows, |imtls|) && forall key :: key in keys ==> key.m < |imtls|
    ensures r.Keys == keys && forall key :: key in r ==> |r[key]| == |imtls[key.m]|
  {
    map key | key in keys :: CurveOf(rows, imtls, q, key)
  }

  /** The curves of a batch: one for each site and realization that it has ground motions for. */
  function CurvesOf(rows: seq<Rec>, imtls: seq<seq<real>>, q: real): (r: Curves)
    requires HasImts(rows, |imtls|)
    ensures r.Keys == KeysOf(rows, |imtls|) && forall key :: key in r ==> |r[key]| == |imtls[key.m]|
  {
    CurvesFor(rows, imtls, q, KeysOf(rows, |imtls|))
  }

  lemma {:induction false} OneMoreCurve(rows: seq<Rec>, imtls: seq<seq<real>>, q: real, keys: set<Key>, key: Key)
    requires HasImts(rows, |imtls|) && forall k :: k in keys + {key} ==> k.m < |imtls|
    ensures CurvesFor(rows, imtls, q, keys + {key}) ==
      CurvesFor(rows, imtls, q, keys)[key := CurveOf(rows, imtls, q, key)]
  {
    hide CurveOf, HasImts;
  }

  lemma {:induction false} Sites(rows: seq<Rec>, numImts: nat)
    ensures forall key :: key in KeysOf(rows, numImts) ==> key.sid in set x | x in rows :: x.sid
  {
    forall key | key in KeysOf(rows, numImts) ensures key.sid in set x | x in rows :: x.sid {
      var x := Group(rows, key.rlz, key.sid)[0];
      assert x in Group(rows, key.rlz, key.sid) && x in rows;
    }
  }

  method ComputeCurves(rows: seq<Rec>, imtls: seq<seq<real>>, q: real) returns (hcurves: Curves)
    requires HasImts(rows, |imtls|)
    ensures hcurves == CurvesOf(rows, imtls, q)
  {
    hide HasImts, KeysOf, CurvesFor, CurveOf, Group;
    ghost var done: set<Key> := {};
    hcurves := map[];
    Sites(rows, |imtls|);
    var sids := set x | x in rows :: x.sid;
    while sids != {}
      invariant forall key :: key in done <==> key in KeysOf(rows, |imtls|) && key.sid !in sids
      invariant hcurves == CurvesFor(rows, imtls, q, done)
      decreases sids
    {
      var sid :| sid in sids;
      hcurves, done := CurvesOfSite(rows, imtls, q, sid, hcurves, done);
      sids := sids - {sid};
    }
    assert done == KeysOf(rows, |imtls|);
  }

  method CurvesOfSite(rows: seq<Rec>, imtls: seq<seq<real>>, q: real, sid: nat, before: Curves, ghost done: set<Key>)
    returns (hcurves: Curves, ghost done': set<Key>)
    requires HasImts(rows, |imtls|)
    requires forall key :: key in done ==> key.m < |imtls| && key.sid != sid
    requires before == CurvesFor(rows, imtls, q, done)
    ensures forall key :: key in done' ==> key.m < |imtls|
    ensures forall key :: key in done' <==> key in done || (key in KeysOf(rows, |imtls|) && key.sid == sid)
    ensures hcurves == CurvesFor(rows, imtls, q, done')
  {
    var hazardr := OfSid(rows, sid);
    assert forall rlz :: OfRlz(hazardr, rlz) == Group(rows, rlz, sid);
    hide HasImts, KeysOf, CurvesFor, CurveOf, Group;
    hcurves, done' := before, done;
    var rlzs := set x | x in hazardr :: x.rlz;
    while rlzs != {}
      invariant rlzs <= set x | x in hazardr :: x.rlz
      invariant forall key :: key in done' <==>
        key in done || (key in KeysOf(rows, |imtls|) && key.sid == sid && key.rlz !in rlzs)
      invariant hcurves == CurvesFor(rows, imtls, q, done')
      decreases rlzs
    {
      var rlz :| rlz in rlzs;
      hcurves, done' := CurvesOfGroup(rows, imtls, q, sid, rlz, OfRlz(hazardr, rlz), hcurves, done');
      rlzs := rlzs - {rlz};
    }
  }

  method CurvesOfGroup(
    rows: seq<Rec>, imtls: seq<seq<real>>, q: real, sid: nat, rlz: nat, arr: seq<Rec>, before: Curves,
    ghost done: set<Key>)
    returns (hcurves: Curves, ghost done': set<Key>)
    requires HasImts(rows, |imtls|) && arr == Group(rows, rlz, sid) && arr != []
    requires forall key :: key in done ==> key.m < |imtls|
    requires before == CurvesFor(rows, imtls, q, done)
    ensures forall key :: key in done' ==> key.m < |imtls|
    ensures forall key :: key in done' <==>
      key in done || (key in KeysOf(rows, |imtls|) && key.sid == sid && key.rlz == rlz)
    ensures hcurves == CurvesFor(rows, imtls, q, done')
  {
    hide HasImts, KeysOf, CurvesFor, CurveOf, Group;
    hcurves, done' := before, done;
    var poes := GroupPoes(rows, imtls, q, sid, rlz, arr);
    for m := 0 to |imtls|
      invariant forall key :: key in done' <==> key in done || (key.sid == sid && key.rlz == rlz && key.m < m)
      invariant hcurves == CurvesFor(rows, imtls, q, done')
    {
      OneMoreCurve(rows, imtls, q, done', Key(rlz, sid, m));
      hcurves := hcurves[Key(rlz, sid, m) := poes[m]];
      done' := done' + {Key(rlz, sid, m)};
    }
  }

  method GroupPoes(rows: seq<Rec>, imtls: seq<seq<real>>, q: real, sid: nat, rlz: nat, arr: seq<Rec>)
    returns (poes: seq<seq<real>>)
    requires HasImts(rows, |imtls|) && arr == Group(rows, rlz, sid)
    ensures |poes| == |imtls|
    ensures forall m :: 0 <= m < |imtls| ==> poes[m] == CurveOf(rows, imtls, q, Key(rlz, sid, m))
  {
    assert forall x :: x in arr ==> |x.gmv| == |imtls|;
    hide HasImts, Group, Gmvs, GmvsToHazCurve;
    poes := GmvsToPoes(seq(|imtls|, m requires 0 <= m < |imtls| => Gmvs(arr, m)), imtls, q);
  }

  // ---- combining the curves of the batches ----

  function Zeros(n: nat): (r: seq<real>)
    ensures |r| == n && forall l :: 0 <= l < n ==> r[l] == 0.0
  {
    seq(n, l => 0.0)
  }

  function Combined(xs: seq<real>, ys: seq<real>): (r: seq<real>)
    requires |xs| == |ys|
    ensures |r| == |xs|
    ensures forall l :: 0 <= l < |r| ==> r[l] == 1.0 - (1.0 - xs[l]) * (1.0 - ys[l])
  {
    seq(|xs|, l requires 0 <= l < |xs| => 1.0 - (1.0 - xs[l]) * (1.0 - ys[l]))
  }

  predicate Leveled(curves: Curves, numLevels: nat) {
    forall key :: key in curves ==> |curves[key]| == numLevels
  }

  /** The accumulated curves after those of the keys in `keys` were combined with them. */
  function Merged(acc: Curves, hcurves: Curves, keys: set<Key>, numLevels: nat): Curves
    requires Leveled(acc, numLevels) && Leveled(hcurves, numLevels) && keys <= hcurves.Keys
  {
    map key | key in acc.Keys + keys ::
      if key !in keys then acc[key]
      else Combined(if key in acc then acc[key] else Zeros(numLevels), hcurves[key])
  }

  method CombineInPlace(arr: array<real>, poes: seq<real>)
    requires arr.Length == |poes|
    modifies arr
    ensures arr[..] == Combined(old(arr[..]), poes)
  {
    for l := 0 to arr.Length
      invariant forall i :: 0 <= i < arr.Length ==>
        arr[i] == if i < l then 1.0 - (1.0 - old(arr[i])) * (1.0 - poes[i]) else old(arr[i])
    {
      arr[l] := 1.0 - (1.0 - arr[l]) * (1.0 - poes[l]);
    }
    assert |arr[..]| == |poes|;
    assert forall i :: 0 <= i < arr.Length ==> arr[..][i] == Combined(old(arr[..]), poes)[i];
  }

  /** The curves accumulated so far, one array for each realization, site and measure type. */
  class Accumulator {
    const numLevels: nat
    var arrays: map<Key, array<real>>

    ghost predicate Valid()
      reads this
    {
      && (forall key :: key in arrays ==> arrays[key].Length == numLevels)
      && (forall j, k :: j in arrays && k in arrays && j != k ==> arrays[j] != arrays[k])
    }

    ghost function Arrays(): set<array<real>>
      reads this
    {
      set key | key in arrays :: arrays[key]
    }

    ghost function Contents(): Curves
      reads this, Arrays()
    {
      map key | key in arrays :: arrays[key][..]
    }

    constructor (numLevels: nat)
      ensures Valid() && Contents() == map[] && this.numLevels == numLevels
    {
      this.numLevels := numLevels;
      arrays := map[];
    }

    /** One curve, in place. */
    method Combine(key: Key, poes: seq<real>)
      requires Valid() && |poes| == numLevels
      modifies this, Arrays()
      ensures Valid() && fresh(Arrays() - old(Arrays()))
      ensures Contents() == old(Contents())[key :=
        Combined(if key in old(Contents()) then old(Contents())[key] else Zeros(numLevels), poes)]
    {
      if key !in arrays {
        var zeros := new real[numLevels](l => 0.0);
        assert zeros[..] == Zeros(numLevels);
        arrays := arrays[key := zeros];
      }
      CombineInPlace(arrays[key], poes);
    }

    /** The curves of one batch. */
    method AggDicts(hcurves: Curves)
      requires Valid() && Leveled(hcurves, numLevels)
      modifies this, Arrays()
      ensures Valid() && fresh(Arrays() - old(Arrays()))
      ensures Contents() == Merged(old(Contents()), hcurves, hcurves.Keys, numLevels)
    {
      var keys := hcurves.Keys;
      ghost var done: set<Key> := {};
      assert Contents() == Merged(old(Contents()), hcurves, {}, numLevels);
      while keys != {}
        invariant keys <= hcurves.Keys && done == hcurves.Keys - keys
        invariant Valid() && fresh(Arrays() - old(Arrays()))
        invariant Contents() == Merged(old(Contents()), hcurves, done, numLevels)
        decreases keys
      {
        var key :| key in keys;
        MergedOne(old(Contents()), hcurves, done, numLevels, key);
        Combine(key, hcurves[key]);
        keys := keys - {key};
        done := done + {key};
      }
      assert done == hcurves.Keys;
    }
  }

  lemma {:induction false} MergedOne(acc: Curves, hcurves: Curves, done: set<Key>, numLevels: nat, key: Key)
    requires Leveled(acc, numLevels) && Leveled(hcurves, numLevels) && done + {key} <= hcurves.Keys && key !in done
    ensures var before := Merged(acc, hcurves, done, numLevels);
      Merged(acc, hcurves, done + {key}, numLevels) ==
        before[key := Combined(if key in before then before[key] else Zeros(numLevels), hcurves[key])]
  {
    var before, after := Merged(acc, hcurves, done, numLevels), Merged(acc, hcurves, done + {key}, numLevels);
    assert key in before <==> key in acc;
    assert after.Keys == before.Keys + {key};
  }

  // ---- any batching, any order ----

  predicate HasLevels(imtls: seq<seq<real>>, numLevels: nat) {
    forall m :: 0 <= m < |imtls| ==> |imtls[m]| == numLevels
  }

  predicate AllHaveImts(batches: seq<seq<Rec>>, n: nat) {
    forall b :: 0 <= b < |batches| ==> HasImts(batches[b], n)
  }

  /** One more batch. */
  function MergeBatch(acc: Curves, rows: seq<Rec>, imtls: seq<seq<real>>, q: real, numLevels: nat): (r: Curves)
    requires Leveled(acc, numLevels) && HasLevels(imtls, numLevels) && HasImts(rows, |imtls|)
    ensures Leveled(r, numLevels)
  {
    var hcurves := CurvesOf(rows, imtls, q);
    Merged(acc, hcurves, hcurves.Keys, numLevels)
  }

  /** What the master has accumulated after the first `n` batches, in the order in which they came. */
  function Accumulate(batches: seq<seq<Rec>>, n: nat, imtls: seq<seq<real>>, q: real, numLevels: nat): (r: Curves)
    requires n <= |batches| && HasLevels(imtls, numLevels) && AllHaveImts(batches, |imtls|)
    ensures Leveled(r, numLevels)
  {
    if n == 0 then map[]
    else MergeBatch(Accumulate(batches, n - 1, imtls, q, numLevels), batches[n - 1], imtls, q, numLevels)
  }

  /** The number of records of a site and realization that reach a level. */
  function Hits(rows: seq<Rec>, key: Key, iml: real): nat {
    if rows == [] then 0 else (if Reaches(rows[0], key, iml) then 1 else 0) + Hits(rows[1..], key, iml)
  }

  predicate Reaches(x: Rec, key: Key, iml: real) {
    x.sid == key.sid && x.rlz == key.rlz && key.m < |x.gmv| && x.gmv[key.m] >= iml
  }

  lemma {:induction false} HitsAppend(xs: seq<Rec>, ys: seq<Rec>, key: Key, iml: real)
    ensures Hits(xs + ys, key, iml) == Hits(xs, key, iml) + Hits(ys, key, iml)
  {
    if xs == [] {
      assert xs + ys == ys;
    } else {
      HitsAppend(xs[1..], ys, key, iml);
      assert (xs + ys)[1..] == xs[1..] + ys;
    }
  }

  lemma {:induction false} HitsPermutation(xs: seq<Rec>, ys: seq<Rec>, key: Key, iml: real)
    requires multiset(xs) == multiset(ys)
    ensures Hits(xs, key, iml) == Hits(ys, key, iml)
    decreases |xs|
  {
    if xs == [] {
      assert |multiset(ys)| == 0;
    } else {
      var i := RemoveHead(xs, ys);
      HitsPermutation(xs[1..], ys[..i] + ys[i + 1..], key, iml);
      HitsAppend(ys[..i], ys[i + 1..], key, iml);
      assert ys == ys[..i] + ([ys[i]] + ys[i + 1..]);
      assert ([ys[i]] + ys[i + 1..])[1..] == ys[i + 1..];
      HitsAppend(ys[..i], [ys[i]] + ys[i + 1..], key, iml);
    }
  }

  lemma {:induction false} GroupCons(rows: seq<Rec>, rlz: nat, sid: nat)
    requires rows != []
    ensures Group(rows, rlz, sid) ==
      (if rows[0].sid == sid && rows[0].rlz == rlz then [rows[0]] else []) + Group(rows[1..], rlz, sid)
  {
    var rest := Group(rows[1..], rlz, sid);
    assert [] + rest == rest;
    if rows[0].sid == sid {
      assert OfSid(rows, sid)[1..] == OfSid(rows[1..], sid);
      assert OfSid(rows, sid)[0] == rows[0];
    } else {
      assert OfSid(rows, sid) == [] + OfSid(rows[1..], sid) == OfSid(rows[1..], sid);
    }
  }

  lemma {:induction false} ExceedingCons(x: Rec, xs: seq<Rec>, m: nat, iml: real)
    requires m < |x.gmv| && forall y :: y in xs ==> m < |y.gmv|
    ensures Exceeding(Gmvs([x] + xs, m), iml) == (if x.gmv[m] >= iml then 1 else 0) + Exceeding(Gmvs(xs, m), iml)
  {
    assert Gmvs([x] + xs, m)[1..] == Gmvs(xs, m);
  }

  /** The levels exceeded in the group of a key are the hits of the batch. */
  lemma {:induction false} GroupHits(rows: seq<Rec>, n: nat, key: Key, iml: real)
    requires HasImts(rows, n) && key.m < n
    ensures Exceeding(Gmvs(Group(rows, key.rlz, key.sid), key.m), iml) == Hits(rows, key, iml)
  {
    if rows == [] {
    } else {
      GroupHits(rows[1..], n, key, iml);
      GroupCons(rows, key.rlz, key.sid);
      var rest := Group(rows[1..], key.rlz, key.sid);
      assert forall y :: y in rest ==> y in rows;
      hide Group, Exceeding;
      if rows[0].sid == key.sid && rows[0].rlz == key.rlz {
        ExceedingCons(rows[0], rest, key.m, iml);
      } else {
        assert [] + rest == rest;
      }
    }
  }

  // ---- the survivals ----

  /** The probability that a level is not exceeded. */
  function Surv(curves: Curves, key: Key, l: nat): real {
    if key in curves && l < |curves[key]| then 1.0 - curves[key][l] else 1.0
  }

  lemma {:induction false} MergeSurv(acc: Curves, hcurves: Curves, numLevels: nat, key: Key, l: nat)
    requires Leveled(acc, numLevels) && Leveled(hcurves, numLevels) && l < numLevels
    ensures Leveled(Merged(acc, hcurves, hcurves.Keys, numLevels), numLevels)
    ensures Surv(Merged(acc, hcurves, hcurves.Keys, numLevels), key, l) == Surv(acc, key, l) * Surv(hcurves, key, l)
  {
    var x := if key in acc then acc[key] else Zeros(numLevels);
    if key in hcurves {
      var y := hcurves[key];
      assert 1.0 - Combined(x, y)[l] == (1.0 - x[l]) * (1.0 - y[l]);
    }
  }

  lemma {:induction false} BatchSurv(rows: seq<Rec>, imtls: seq<seq<real>>, q: real, key: Key, l: nat)
    requires HasImts(rows, |imtls|) && key.m < |imtls| && l < |imtls[key.m]|
    ensures Surv(CurvesOf(rows, imtls, q), key, l) == Pow(q, Hits(rows, key, imtls[key.m][l]))
  {
    var n, iml := Hits(rows, key, imtls[key.m][l]), imtls[key.m][l];
    GroupHits(rows, |imtls|, key, iml);
    if Group(rows, key.rlz, key.sid) == [] {
      NoHits(rows, |imtls|, key, iml);
      assert Pow(q, 0) == 1.0;
    } else {
      hide Group, Hits, Exceeding, Pow, HasImts;
      assert key in KeysOf(rows, |imtls|);
      assert CurveOf(rows, imtls, q, key)[l] == 1.0 - Pow(q, n);
    }
  }

  lemma {:induction false} HitsProduct(rows: seq<Rec>, key: Key, iml: real, q: real, f: Rec -> real)
    requires forall x :: f(x) == if Reaches(x, key, iml) then q else 1.0
    ensures Agg(Times, rows, f) == Pow(q, Hits(rows, key, iml))
  {
    if rows == [] {
    } else {
      HitsProduct(rows[1..], key, iml, q, f);
      hide Reaches;
    }
  }

  /**
   There is a curve for each measure type and each site and realization that has records, and
   the probability that a level is not reached is the product of one factor q for each record
   of that site and realization that reaches it.
   */
  lemma {:induction false} CurvesOfRecords(
    rows: seq<Rec>, imtls: seq<seq<real>>, q: real, key: Key, l: nat, iml: real, f: Rec -> real)
    requires HasImts(rows, |imtls|)
    requires key.m < |imtls| && l < |imtls[key.m]| && iml == imtls[key.m][l]
    requires forall x: Rec :: x.sid == key.sid && x.rlz == key.rlz && key.m < |x.gmv| && x.gmv[key.m] >= iml ==>
      f(x) == q
    requires forall x: Rec :: x.sid != key.sid || x.rlz != key.rlz || key.m >= |x.gmv| || x.gmv[key.m] < iml ==>
      f(x) == 1.0
    ensures key in CurvesOf(rows, imtls, q) <==> exists x :: x in rows && x.sid == key.sid && x.rlz == key.rlz
    ensures key in CurvesOf(rows, imtls, q) ==>
      && |CurvesOf(rows, imtls, q)[key]| == |imtls[key.m]|
      && CurvesOf(rows, imtls, q)[key][l] == 1.0 - Agg(Times, rows, f)
  {
    var curves := CurvesOf(rows, imtls, q);
    GroupMembers(rows);
    HitsProduct(rows, key, imtls[key.m][l], q, f);
    BatchSurv(rows, imtls, q, key, l);
    hide Group, Hits, HasImts, Agg, Pow;
    assert key in curves <==> key in KeysOf(rows, |imtls|);
    if key in curves {
      assert curves[key] == CurveOf(rows, imtls, q, key);
    }
  }

  /** The curve of a single ground motion value: 1 - q for the levels that it reaches, else 0. */
  lemma {:induction false} CurveOfOne(gmv: real, imls: seq<real>, q: real, l: nat)
    requires l < |imls|
    ensures GmvsToHazCurve([gmv], imls, q)[l] == if gmv >= imls[l] then 1.0 - q else 0.0
  {
    assert [gmv][1..] == [];
    assert Exceeding([gmv], imls[l]) == if gmv >= imls[l] then 1 else 0;
    assert Pow(q, 1) == q * Pow(q, 0) == q;
  }

  lemma {:induction false} NoHits(rows: seq<Rec>, n: nat, key: Key, iml: real)
    requires HasImts(rows, n) && key.m < n && Group(rows, key.rlz, key.sid) == []
    ensures Hits(rows, key, iml) == 0
  {
    GroupHits(rows, n, key, iml);
    assert Gmvs([], key.m) == [];
  }

  lemma {:induction false} SurvStep(
    before: Curves, rows: seq<Rec>, hits: nat, imtls: seq<seq<real>>, q: real, numLevels: nat, key: Key, l: nat)
    requires Leveled(before, numLevels) && HasLevels(imtls, numLevels) && HasImts(rows, |imtls|)
    requires key.m < |imtls| && l < numLevels && Surv(before, key, l) == Pow(q, hits)
    ensures Surv(MergeBatch(before, rows, imtls, q, numLevels), key, l)
         == Pow(q, hits + Hits(rows, key, imtls[key.m][l]))
  {
    hide Surv, CurvesOf, CurvesFor, CurveOf, KeysOf, Group, Merged, HasImts, Hits, Pow, Leveled, Reaches;
    var hcurves := CurvesOf(rows, imtls, q);
    BatchSurv(rows, imtls, q, key, l);
    var more := Hits(rows, key, imtls[key.m][l]);
    MergeSurv(before, hcurves, numLevels, key, l);
    PowAdd(q, hits, more);
  }

  lemma {:induction false} AccumulateSurv(
    batches: seq<seq<Rec>>, n: nat, imtls: seq<seq<real>>, q: real, numLevels: nat, key: Key, l: nat)
    requires n <= |batches| && HasLevels(imtls, numLevels) && AllHaveImts(batches, |imtls|)
    requires key.m < |imtls| && l < numLevels
    ensures Surv(Accumulate(batches, n, imtls, q, numLevels), key, l)
         == Pow(q, Hits(ConcatTo(batches, n), key, imtls[key.m][l]))
  {
    hide Surv, MergeBatch, HasImts, Hits, Pow, Leveled;
    var iml := imtls[key.m][l];
    if n == 0 {
      NothingYet(q, key, l, iml);
    } else {
      AccumulateSurv(batches, n - 1, imtls, q, numLevels, key, l);
      SurvStep(Accumulate(batches, n - 1, imtls, q, numLevels), batches[n - 1],
        Hits(ConcatTo(batches, n - 1), key, iml), imtls, q, numLevels, key, l);
      HitsAppend(ConcatTo(batches, n - 1), batches[n - 1], key, iml);
    }
  }

  lemma {:induction false} NothingYet(q: real, key: Key, l: nat, iml: real)
    ensures Surv(map[], key, l) == Pow(q, Hits([], key, iml))
  {
  }

  ghost predicate Present(rows: seq<Rec>, rlz: nat, sid: nat) {
    exists x :: x in rows && x.rlz == rlz && x.sid == sid
  }

  lemma {:induction false} GroupPresent(rows: seq<Rec>, rlz: nat, sid: nat)
    ensures Group(rows, rlz, sid) != [] <==> Present(rows, rlz, sid)
  {
    if Group(rows, rlz, sid) != [] {
      var x := Group(rows, rlz, sid)[0];
      assert x in Group(rows, rlz, sid) && x in rows;
    }
    if Present(rows, rlz, sid) {
      var x :| x in rows && x.rlz == rlz && x.sid == sid;
      assert x in Group(rows, rlz, sid);
    }
  }

  lemma {:induction false} AccumulateKeys(
    batches: seq<seq<Rec>>, n: nat, imtls: seq<seq<real>>, q: real, numLevels: nat, key: Key)
    requires n <= |batches| && HasLevels(imtls, numLevels) && AllHaveImts(batches, |imtls|)
    ensures key in Accumulate(batches, n, imtls, q, numLevels) <==>
      key.m < |imtls| && Present(ConcatTo(batches, n), key.rlz, key.sid)
  {
    hide CurvesOf, HasImts, Group;
    if n > 0 {
      var before, rows := ConcatTo(batches, n - 1), batches[n - 1];
      AccumulateKeys(batches, n - 1, imtls, q, numLevels, key);
      GroupPresent(rows, key.rlz, key.sid);
      assert Present(before + rows, key.rlz, key.sid) <==>
        Present(before, key.rlz, key.sid) || Present(rows, key.rlz, key.sid);
    }
  }

  lemma {:induction false} LevelsOf(curves: Curves, numLevels: nat, key: Key)
    requires Leveled(curves, numLevels) && key in curves
    ensures |curves[key]| == numLevels
  {
  }

  /** One value of a curve from its survival. */
  lemma {:induction false} SameCurve(a: Curves, b: Curves, key: Key, numLevels: nat)
    requires key in a && key in b && |a[key]| == |b[key]| == numLevels
    requires forall l :: 0 <= l < numLevels ==> Surv(a, key, l) == Surv(b, key, l)
    ensures a[key] == b[key]
  {
    forall l | 0 <= l < numLevels ensures a[key][l] == b[key][l] {
      assert Surv(a, key, l) == Surv(b, key, l);
    }
  }

  /**
   Accumulating the curves of the batches gives the curves of all the ground motions taken
   together, however they were batched and in whatever order the batches came.
   */
  lemma {:induction false} AnyBatchingAnyOrder(
    batches: seq<seq<Rec>>, rows: seq<Rec>, imtls: seq<seq<real>>, q: real, numLevels: nat)
    requires HasLevels(imtls, numLevels) && AllHaveImts(batches, |imtls|) && HasImts(rows, |imtls|)
    requires multiset(Concat(batches)) == multiset(rows)
    ensures Accumulate(batches, |batches|, imtls, q, numLevels) == CurvesOf(rows, imtls, q)
  {
    hide HasImts, Group, Surv, Accumulate, Hits, Present, Leveled, ConcatTo;
    var acc, all := Accumulate(batches, |batches|, imtls, q, numLevels), CurvesOf(rows, imtls, q);
    forall key ensures key in acc <==> key in all {
      AccumulateKeys(batches, |batches|, imtls, q, numLevels, key);
      PresentPermutation(Concat(batches), rows, key.rlz, key.sid);
      GroupPresent(rows, key.rlz, key.sid);
    }
    forall key | key in acc ensures acc[key] == all[key] {
      forall l | 0 <= l < numLevels ensures Surv(acc, key, l) == Surv(all, key, l) {
        AccumulateSurv(batches, |batches|, imtls, q, numLevels, key, l);
        BatchSurv(rows, imtls, q, key, l);
        HitsPermutation(Concat(batches), rows, key, imtls[key.m][l]);
      }
      LevelsOf(acc, numLevels, key);
      SameCurve(acc, all, key, numLevels);
    }
    assert acc.Keys == all.Keys;
  }

  lemma {:induction false} PresentPermutation(xs: seq<Rec>, ys: seq<Rec>, rlz: nat, sid: nat)
    requires multiset(xs) == multiset(ys)
    ensures Present(xs, rlz, sid) <==> Present(ys, rlz, sid)
  {
    assert forall x :: x in xs <==> x in multiset(xs);
    assert forall x :: x in ys <==> x in multiset(ys);
  }

  // ---- under any schedule ----

  lemma {:induction false} EachHasImts(batches: seq<seq<Rec>>, rows: seq<Rec>, m: nat)
    requires multiset(Concat(batches)) == multiset(rows) && HasImts(rows, m)
    ensures AllHaveImts(batches, m)
  {
    SameElements(Concat(batches), rows);
    forall b | 0 <= b < |batches| ensures HasImts(batches[b], m) {
      forall i | 0 <= i < |batches[b]| ensures |batches[b][i].gmv| == m {
        InConcat(batches, |batches|, b, batches[b][i]);
        assert batches[b][i] in rows;
      }
    }
  }

  /** Whatever the schedule of the tasks, the master ends with the curves of all the ground motions. */
  lemma {:induction false} CurvesUnderAnySchedule(
    pre: seq<P.Task<seq<Rec>>>, queue: seq<P.Task<seq<Rec>>>, cores: nat, run: seq<P.Event>, st: P.State<seq<Rec>>,
    imtls: seq<seq<real>>, q: real, numLevels: nat)
    requires cores >= 1 && P.Reaches(pre, queue, cores, run, st) && st.todo == 0
    requires HasLevels(imtls, numLevels) && HasImts(Concat(P.Values(P.ForestTrace(pre + queue))), |imtls|)
    ensures AllHaveImts(P.Values(st.log), |imtls|)
    ensures Accumulate(P.Values(st.log), |P.Values(st.log)|, imtls, q, numLevels)
         == CurvesOf(Concat(P.Values(P.ForestTrace(pre + queue))), imtls, q)
  {
    P.ExactlyOnce(pre, queue, cores, run, st);
    var batches, sent := P.Values(st.log), P.Values(P.ForestTrace(pre + queue));
    ConcatPermutation(batches, sent);
    EachHasImts(batches, Concat(sent), |imtls|);
    AnyBatchingAnyOrder(batches, Concat(sent), imtls, q, numLevels);
  }
}
