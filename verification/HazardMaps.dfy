/**
 Hazard maps: for each curve and probability of exceedance (poe) the intensity level at
 which the curve takes it, interpolated in log-log space. Logarithm and exponential are
 given. For a curve that increases somewhere, a binary search may find another segment.
 */
module HazardMaps {

  const EPSILON: real := 0.000000000000000000000000000001

  ghost predicate LogExp(log: real -> real, exp: real -> real) {
    && (forall x, y :: 0.0 < x < y ==> log(x) < log(y))
    && (forall u, v :: u < v ==> exp(u) < exp(v))
    && (forall u :: exp(u) > 0.0)
    && (forall x :: x > 0.0 ==> exp(log(x)) == x)
  }

  ghost predicate Increasing(levels: seq<real>) {
    forall i, j :: 0 <= i < j < |levels| ==> levels[i] < levels[j]
  }

  ghost predicate NonIncreasing(curve: seq<real>) {
    forall i, j :: 0 <= i < j < |curve| ==> curve[i] >= curve[j]
  }

  // ---- linear interpolation, as numpy.interp does it ----

  /** The last of the first `n` abscissas that is not greater than `x`, or -1. */
  function LastBelow(xs: seq<real>, x: real, n: nat): (j: int)
    requires n <= |xs|
    ensures -1 <= j < n
    ensures j >= 0 ==> xs[j] <= x
    ensures forall k :: j < k < n ==> xs[k] > x
  {
    if n == 0 then -1 else if xs[n - 1] <= x then n - 1 else LastBelow(xs, x, n - 1)
  }

  function OnSegment(a: real, b: real, fa: real, fb: real, x: real): real
    requires a < b
  {
    (fb - fa) / (b - a) * (x - a) + fa
  }

  function Interp(x: real, xs: seq<real>, fs: seq<real>): real
    requires |xs| == |fs| > 0
  {
    var j := LastBelow(xs, x, |xs|);
    if j < 0 then fs[0]
    else if j == |xs| - 1 || xs[j] == x then fs[j]
    else OnSegment(xs[j], xs[j + 1], fs[j], fs[j + 1], x)
  }

  // ---- the maps ----

  function Max(x: real, y: real): real {
    if x >= y then x else y
  }

  /** The logarithms of the curve read backwards, with too small values replaced by the cutoff. */
  function LogCutoff(curve: seq<real>, log: real -> real): (xs: seq<real>)
    ensures |xs| == |curve|
    ensures forall i :: 0 <= i < |xs| ==> xs[i] == log(Max(curve[|curve| - 1 - i], EPSILON))
  {
    seq(|curve|, i requires 0 <= i < |curve| => log(Max(curve[|curve| - 1 - i], EPSILON)))
  }

  function LogLevels(imls: seq<real>, log: real -> real): (fs: seq<real>)
    ensures |fs| == |imls|
    ensures forall i :: 0 <= i < |fs| ==> fs[i] == log(imls[|imls| - 1 - i])
  {
    seq(|imls|, i requires 0 <= i < |imls| => log(imls[|imls| - 1 - i]))
  }

  function MapValue(curve: seq<real>, imls: seq<real>, poe: real, log: real -> real, exp: real -> real): real
    requires |curve| == |imls| > 0
  {
    var xs := LogCutoff(curve, log);
    if log(poe) > xs[|xs| - 1] then 0.0 else exp(Interp(log(poe), xs, LogLevels(imls, log)))
  }

  datatype MapError = Computed | WrongLevels | NoLevels

  /** One row per curve, one column per poe. `numLevels` is the number of columns of `curves`. */
  method ComputeHazardMaps(curves: seq<seq<real>>, numLevels: nat, imls: seq<real>, poes: seq<real>,
                           log: real -> real, exp: real -> real) returns (hmap: array2<real>, error: MapError)
    requires forall n :: 0 <= n < |curves| ==> |curves[n]| == numLevels
    ensures hmap.Length0 == |curves| && hmap.Length1 == |poes|
    ensures error.WrongLevels? <==> numLevels != |imls|
    ensures error.NoLevels? <==> numLevels == |imls| == 0 && curves != [] && poes != []
    ensures error.Computed? ==> forall n, p :: 0 <= n < |curves| && 0 <= p < |poes| ==>
      |imls| > 0 && hmap[n, p] == MapValue(curves[n], imls, poes[p], log, exp)
  {
    hmap := new real[|curves|, |poes|]((_, _) => 0.0);
    error := Computed;
    if numLevels != |imls| {
      error := WrongLevels;
      return;
    }
    if numLevels == 0 && curves != [] && poes != [] {
      error := NoLevels;
      return;
    }
    var logLevels := LogLevels(imls, log);
    for n := 0 to |curves|
      invariant forall m, p :: 0 <= m < n && 0 <= p < |poes| ==>
        |imls| > 0 && hmap[m, p] == MapValue(curves[m], imls, poes[p], log, exp)
      invariant forall m, p :: n <= m < |curves| && 0 <= p < |poes| ==> hmap[m, p] == 0.0
    {
      FillRow(hmap, n, curves[n], imls, poes, log, exp, logLevels);
    }
  }

  /** The map of one curve, in a row of zeros. */
  method FillRow(hmap: array2<real>, n: nat, curve: seq<real>, imls: seq<real>, poes: seq<real>,
                 log: real -> real, exp: real -> real, logLevels: seq<real>)
    requires n < hmap.Length0 && hmap.Length1 == |poes| && |curve| == |imls|
    requires |imls| == 0 ==> poes == []
    requires logLevels == LogLevels(imls, log)
    requires forall p :: 0 <= p < |poes| ==> hmap[n, p] == 0.0
    modifies hmap
    ensures forall p :: 0 <= p < |poes| ==> |imls| > 0 && hmap[n, p] == MapValue(curve, imls, poes[p], log, exp)
    ensures forall m, p :: 0 <= m < hmap.Length0 && 0 <= p < |poes| && m != n ==> hmap[m, p] == old(hmap[m, p])
  {
    hide Interp;
    var logCutoff := LogCutoff(curve, log);
    for p := 0 to |poes|
      invariant forall q :: 0 <= q < p ==> |imls| > 0 && hmap[n, q] == MapValue(curve, imls, poes[q], log, exp)
      invariant forall q :: p <= q < |poes| ==> hmap[n, q] == 0.0
      invariant forall m, q :: 0 <= m < hmap.Length0 && 0 <= q < |poes| && m != n ==> hmap[m, q] == old(hmap[m, q])
    {
      var logPoe := log(poes[p]);
      if logPoe > logCutoff[|logCutoff| - 1] {
        assert MapValue(curve, imls, poes[p], log, exp) == 0.0;
      } else {
        hmap[n, p] := exp(Interp(logPoe, logCutoff, logLevels));
      }
    }
  }

  // ---- segments ----

  lemma {:induction false} Quotient(p: real, q: real)
    requires 0.0 <= p < q
    ensures 0.0 <= p / q < 1.0 && (p / q) * q == p
  {
    var t := p / q;
    assert q * t == p;
  }

  /** On a segment, the value is reached by going down by the fraction travelled. */
  lemma {:induction false} SegmentForm(a: real, b: real, fa: real, fb: real, x: real)
    requires a <= x < b && fb < fa
    ensures var t := (x - a) / (b - a);
      && 0.0 <= t < 1.0 && t * (b - a) == x - a
      && OnSegment(a, b, fa, fb, x) == fa - (fa - fb) * t
      && fb < OnSegment(a, b, fa, fb, x) <= fa
  {
    var t, k := (x - a) / (b - a), (fb - fa) / (b - a);
    Quotient(x - a, b - a);
    assert k * (b - a) == fb - fa;
    assert k * (x - a) == k * (t * (b - a));
    assert k * (t * (b - a)) == (k * (b - a)) * t;
  }

  /** Going right on a segment never goes up. */
  lemma {:induction false} SegmentFalls(a: real, b: real, fa: real, fb: real, x: real, x': real)
    requires a <= x <= x' < b && fb < fa
    ensures OnSegment(a, b, fa, fb, x) >= OnSegment(a, b, fa, fb, x')
  {
    SegmentForm(a, b, fa, fb, x);
    SegmentForm(a, b, fa, fb, x');
    var t, t' := (x - a) / (b - a), (x' - a) / (b - a);
    assert (fa - fb) * (t' - t) >= 0.0;
  }

  lemma {:induction false} ShiftedFraction(a: real, b: real, a': real, b': real, x: real, t: real)
    requires a <= a' && b <= b' && 0.0 <= t < 1.0 && t * (b - a) == x - a
    ensures (b' - a') * t >= x - a'
  {
    Product(t, b' - b);
    Product(1.0 - t, a' - a);
    assert (b' - a') * t == t * (b' - b) + t * (b - a) - t * (a' - a);
    assert (1.0 - t) * (a' - a) == (a' - a) - t * (a' - a);
  }

  lemma {:induction false} Product(p: real, q: real)
    requires p >= 0.0 && q >= 0.0
    ensures p * q >= 0.0
  {
  }

  /** Moving both ends of a segment to the right never lowers the value. */
  lemma {:induction false} SegmentShifts(a: real, b: real, a': real, b': real, fa: real, fb: real, x: real)
    requires a <= a' <= x < b <= b' && fb < fa
    ensures OnSegment(a, b, fa, fb, x) <= OnSegment(a', b', fa, fb, x)
  {
    SegmentForm(a, b, fa, fb, x);
    SegmentForm(a', b', fa, fb, x);
    var t, t' := (x - a) / (b - a), (x - a') / (b' - a');
    ShiftedFraction(a, b, a', b', x, t);
  }

  // ---- interpolation of a decreasing function ----

  ghost predicate Sorted(xs: seq<real>) {
    forall i, j :: 0 <= i <= j < |xs| ==> xs[i] <= xs[j]
  }

  ghost predicate Falling(fs: seq<real>) {
    forall i, j :: 0 <= i < j < |fs| ==> fs[i] > fs[j]
  }

  /** The value lies between the levels of the segment found. */
  lemma {:induction false} InterpBetween(x: real, xs: seq<real>, fs: seq<real>)
    requires |xs| == |fs| > 0 && Falling(fs)
    ensures var j := LastBelow(xs, x, |xs|);
      && Interp(x, xs, fs) <= fs[if j < 0 then 0 else j]
      && (j < 0 ==> Interp(x, xs, fs) == fs[0])
      && (0 <= j < |xs| - 1 ==> Interp(x, xs, fs) > fs[j + 1])
      && (j == |xs| - 1 ==> Interp(x, xs, fs) == fs[j])
    ensures fs[|fs| - 1] <= Interp(x, xs, fs) <= fs[0]
  {
    var j := LastBelow(xs, x, |xs|);
    if 0 <= j < |xs| - 1 && xs[j] != x {
      SegmentForm(xs[j], xs[j + 1], fs[j], fs[j + 1], x);
    }
  }

  lemma {:induction false} InterpFalls(x: real, x': real, xs: seq<real>, fs: seq<real>)
    requires |xs| == |fs| > 0 && Falling(fs) && x <= x'
    ensures Interp(x, xs, fs) >= Interp(x', xs, fs)
  {
    var n := |xs|;
    var j, j' := LastBelow(xs, x, n), LastBelow(xs, x', n);
    InterpBetween(x, xs, fs);
    InterpBetween(x', xs, fs);
    assert j <= j';
    if j == j' && 0 <= j < n - 1 {
      if xs[j] != x {
        SegmentFalls(xs[j], xs[j + 1], fs[j], fs[j + 1], x, x');
      }
    } else if 0 <= j < j' {
      assert fs[j + 1] >= fs[j'];
    }
  }

  /** Raising the abscissas never lowers the interpolated value. */
  lemma {:induction false} InterpShifts(x: real, xs: seq<real>, xs': seq<real>, fs: seq<real>)
    requires |xs| == |xs'| == |fs| > 0 && Falling(fs)
    requires forall i :: 0 <= i < |xs| ==> xs[i] <= xs'[i]
    ensures Interp(x, xs, fs) <= Interp(x, xs', fs)
  {
    var n := |xs|;
    var j, j' := LastBelow(xs, x, n), LastBelow(xs', x, n);
    InterpBetween(x, xs, fs);
    InterpBetween(x, xs', fs);
    assert j' <= j;
    if j == j' && 0 <= j < n - 1 {
      if xs'[j] != x {
        SegmentShifts(xs[j], xs[j + 1], xs'[j], xs'[j + 1], fs[j], fs[j + 1], x);
      }
    } else if 0 <= j' < j {
      assert fs[j' + 1] >= fs[j];
    }
  }

  // ---- properties of the maps ----

  ghost predicate Levels(imls: seq<real>) {
    && imls != [] && Increasing(imls) && imls[0] > 0.0
  }

  lemma {:induction false} LevelsFall(imls: seq<real>, log: real -> real, exp: real -> real)
    requires LogExp(log, exp) && Levels(imls)
    ensures Falling(LogLevels(imls, log))
    ensures forall i :: 0 <= i < |imls| ==> imls[i] > 0.0
  {
    forall i | 0 <= i < |imls| ensures imls[i] > 0.0 {
      assert i > 0 ==> imls[0] < imls[i];
    }
  }

  lemma {:induction false} LogGrows(x: real, y: real, log: real -> real, exp: real -> real)
    requires LogExp(log, exp) && 0.0 < x <= y
    ensures log(x) <= log(y) && (x < y ==> log(x) < log(y))
  {
  }

  lemma {:induction false} ExpGrows(u: real, v: real, log: real -> real, exp: real -> real)
    requires LogExp(log, exp) && u <= v
    ensures 0.0 < exp(u) <= exp(v)
  {
  }

  lemma {:induction false} CutoffGrows(curve: seq<real>, curve': seq<real>, log: real -> real, exp: real -> real)
    requires LogExp(log, exp) && |curve| == |curve'| && forall i :: 0 <= i < |curve| ==> curve[i] <= curve'[i]
    ensures forall i :: 0 <= i < |curve| ==> LogCutoff(curve, log)[i] <= LogCutoff(curve', log)[i]
  {
    hide LogExp;
    forall i | 0 <= i < |curve| ensures LogCutoff(curve, log)[i] <= LogCutoff(curve', log)[i] {
      var k := |curve| - 1 - i;
      assert curve[k] <= curve'[k];
      LogGrows(Max(curve[k], EPSILON), Max(curve'[k], EPSILON), log, exp);
    }
  }

  /** A map value is zero or lies within the levels. */
  lemma {:induction false} MapInRange(
    curve: seq<real>, imls: seq<real>, poe: real, log: real -> real, exp: real -> real)
    requires LogExp(log, exp) && Levels(imls) && |curve| == |imls|
    ensures var v := MapValue(curve, imls, poe, log, exp); v == 0.0 || imls[0] <= v <= imls[|imls| - 1]
  {
    var xs, fs := LogCutoff(curve, log), LogLevels(imls, log);
    LevelsFall(imls, log, exp);
    InterpBetween(log(poe), xs, fs);
    assert exp(fs[0]) == imls[|imls| - 1] && exp(fs[|fs| - 1]) == imls[0];
  }

  /** The map decreases when the probability grows. */
  lemma {:induction false} MapFallsWithPoe(
    curve: seq<real>, imls: seq<real>, poe: real, poe': real, log: real -> real, exp: real -> real)
    requires LogExp(log, exp) && Levels(imls) && |curve| == |imls| && 0.0 < poe <= poe'
    ensures MapValue(curve, imls, poe, log, exp) >= MapValue(curve, imls, poe', log, exp)
  {
    var xs, fs := LogCutoff(curve, log), LogLevels(imls, log);
    LevelsFall(imls, log, exp);
    hide LogExp, Interp;
    LogGrows(poe, poe', log, exp);
    InterpFalls(log(poe), log(poe'), xs, fs);
    ExpGrows(Interp(log(poe'), xs, fs), Interp(log(poe), xs, fs), log, exp);
  }

  /** A pointwise larger curve never gives a smaller map. */
  lemma {:induction false} MapGrowsWithCurve(
    curve: seq<real>, curve': seq<real>, imls: seq<real>, poe: real, log: real -> real, exp: real -> real)
    requires LogExp(log, exp) && Levels(imls) && |curve| == |curve'| == |imls|
    requires forall i :: 0 <= i < |curve| ==> curve[i] <= curve'[i]
    ensures MapValue(curve, imls, poe, log, exp) <= MapValue(curve', imls, poe, log, exp)
  {
    var xs, xs', fs := LogCutoff(curve, log), LogCutoff(curve', log), LogLevels(imls, log);
    LevelsFall(imls, log, exp);
    hide LogExp, Interp;
    CutoffGrows(curve, curve', log, exp);
    InterpShifts(log(poe), xs, xs', fs);
    hide LogCutoff;
    ExpGrows(Interp(log(poe), xs, fs), Interp(log(poe), xs', fs), log, exp);
  }

  /** At a probability that the curve takes, the map is the smallest level at which it takes it. */
  lemma {:induction false} MapInvertsCurve(
    curve: seq<real>, imls: seq<real>, i: nat, log: real -> real, exp: real -> real)
    requires LogExp(log, exp) && Levels(imls) && |curve| == |imls| && NonIncreasing(curve)
    requires i < |curve| && curve[i] >= EPSILON && forall k :: 0 <= k < i ==> curve[k] > curve[i]
    ensures MapValue(curve, imls, curve[i], log, exp) == imls[i]
  {
    var n, poe := |curve|, curve[i];
    var xs, fs := LogCutoff(curve, log), LogLevels(imls, log);
    LevelsFall(imls, log, exp);
    var j := n - 1 - i;
    assert xs[j] == log(poe);
    forall k | j < k < n ensures xs[k] > log(poe) {
      assert curve[n - 1 - k] > poe;
    }
    assert xs[n - 1] >= log(poe);
    assert LastBelow(xs, log(poe), n) == j;
    assert Interp(log(poe), xs, fs) == fs[j] == log(imls[i]);
  }

  lemma {:induction false} LogOfExp(u: real, log: real -> real, exp: real -> real)
    requires LogExp(log, exp)
    ensures log(exp(u)) == u
  {
    var v := log(exp(u));
    assert exp(u) > 0.0 && exp(v) == exp(u);
    assert !(u < v) && !(v < u);
  }

  /** The point (x, y) is on the line through two points. */
  predicate OnLine(x0: real, y0: real, x1: real, y1: real, x: real, y: real) {
    (y - y0) * (x1 - x0) == (y1 - y0) * (x - x0)
  }

  lemma {:induction false} SegmentOnLine(a: real, b: real, fa: real, fb: real, x: real)
    requires a < b
    ensures OnLine(b, fb, a, fa, x, OnSegment(a, b, fa, fb, x))
  {
    var k := (fb - fa) / (b - a);
    assert k * (b - a) == fb - fa;
    var y := k * (x - a) + fa;
    assert k * (x - a) - k * (b - a) == k * (x - b);
    assert y - fb == k * (x - b) && fa - fb == k * (a - b);
    assert (k * (x - b)) * (a - b) == (k * (a - b)) * (x - b);
  }

  lemma {:induction false} InterpOnLine(x: real, xs: seq<real>, fs: seq<real>, j: nat)
    requires |xs| == |fs| && j + 1 < |xs| && xs[j] <= x && forall k :: j < k < |xs| ==> xs[k] > x
    ensures OnLine(xs[j + 1], fs[j + 1], xs[j], fs[j], x, Interp(x, xs, fs))
  {
    assert LastBelow(xs, x, |xs|) == j;
    SegmentOnLine(xs[j], xs[j + 1], fs[j], fs[j + 1], x);
    if xs[j] == x {
      assert Interp(x, xs, fs) == fs[j];
    }
  }

  lemma {:induction false} CutoffSegment(
    curve: seq<real>, i: nat, low: real, poe: real, log: real -> real, exp: real -> real)
    requires LogExp(log, exp) && NonIncreasing(curve) && i + 1 < |curve|
    requires low == Max(curve[i + 1], EPSILON) && low <= poe < curve[i]
    ensures var xs, j := LogCutoff(curve, log), |curve| - 2 - i;
      && xs[j] == log(low) <= log(poe) && xs[j + 1] == log(curve[i])
      && forall k :: j < k < |curve| ==> xs[k] > log(poe)
  {
    var n, xs := |curve|, LogCutoff(curve, log);
    assert Max(curve[i], EPSILON) == curve[i];
    forall k | n - 2 - i < k < n ensures xs[k] > log(poe) {
      assert curve[n - 1 - k] >= curve[i];
    }
  }

  lemma {:induction false} MapOnLine(
    curve: seq<real>, imls: seq<real>, i: nat, low: real, poe: real, log: real -> real, exp: real -> real)
    requires LogExp(log, exp) && |curve| == |imls| && NonIncreasing(curve) && i + 1 < |curve|
    requires low == Max(curve[i + 1], EPSILON) && low <= poe < curve[i]
    ensures var v := MapValue(curve, imls, poe, log, exp);
      v > 0.0 && OnLine(log(curve[i]), log(imls[i]), log(low), log(imls[i + 1]), log(poe), log(v))
  {
    var xs, fs, j := LogCutoff(curve, log), LogLevels(imls, log), |curve| - 2 - i;
    CutoffSegment(curve, i, low, poe, log, exp);
    LogOfExp(Interp(log(poe), xs, fs), log, exp);
    InterpOnLine(log(poe), xs, fs, j);
    assert exp(Interp(log(poe), xs, fs)) > 0.0;
    hide OnLine, Interp, LogExp, LogCutoff, NonIncreasing;
  }

  /**
   Between two values of the curve, the second one replaced by the cutoff if it is smaller,
   the logarithms of the probability and of the map lie on the line through the two points.
   */
  lemma {:induction false} MapOnSegment(
    curve: seq<real>, imls: seq<real>, i: nat, low: real, poe: real, log: real -> real, exp: real -> real)
    requires LogExp(log, exp) && Levels(imls) && |curve| == |imls| && NonIncreasing(curve) && i + 1 < |curve|
    requires low == if curve[i + 1] >= EPSILON then curve[i + 1] else EPSILON
    requires low <= poe < curve[i]
    ensures var v := MapValue(curve, imls, poe, log, exp);
      && v > 0.0
      && (log(v) - log(imls[i])) * (log(low) - log(curve[i]))
           == (log(imls[i + 1]) - log(imls[i])) * (log(poe) - log(curve[i]))
  {
    MapOnLine(curve, imls, i, low, poe, log, exp);
    hide MapValue, LogExp, Levels, NonIncreasing;
  }

  /** Above the largest probability of the curve, and only there, the map is zero. */
  lemma {:induction false} MapZeroIff(
    curve: seq<real>, imls: seq<real>, poe: real, log: real -> real, exp: real -> real)
    requires LogExp(log, exp) && Levels(imls) && |curve| == |imls| && poe > 0.0
    ensures MapValue(curve, imls, poe, log, exp) == 0.0 <==> poe > Max(curve[0], EPSILON)
  {
    var top := Max(curve[0], EPSILON);
    assert LogCutoff(curve, log)[|curve| - 1] == log(top);
    if poe <= top {
    } else {
      assert log(top) < log(poe);
    }
  }

  /** Below the smallest probability of the curve the map is the largest level. */
  lemma {:induction false} MapSaturates(
    curve: seq<real>, imls: seq<real>, poe: real, log: real -> real, exp: real -> real)
    requires LogExp(log, exp) && Levels(imls) && |curve| == |imls| && NonIncreasing(curve)
    requires 0.0 < poe < Max(curve[|curve| - 1], EPSILON)
    ensures MapValue(curve, imls, poe, log, exp) == imls[|imls| - 1]
  {
    var n, xs := |curve|, LogCutoff(curve, log);
    LevelsFall(imls, log, exp);
    assert exp(log(imls[n - 1])) == imls[n - 1];
    hide LogExp;
    forall k | 0 <= k < n ensures xs[k] > log(poe) {
      assert k > 0 ==> curve[n - 1 - k] >= curve[n - 1];
      LogGrows(poe, Max(curve[n - 1 - k], EPSILON), log, exp);
    }
    assert LastBelow(xs, log(poe), n) == -1;
  }
}
