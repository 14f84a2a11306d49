/**
 Cutting a range of integers in slices of equal length, the last one possibly shorter. The
 two generators of the source differ in what they are given: the length of the slices, or
 how many there should be at most. Both test for the end only after they produced a slice,
 so that there is always a first one; it is empty exactly for an empty range, which only the
 first of the two accepts. With a number of slices the length is rounded up, and there may be
 fewer slices than asked for; the condition under which there are as many is given.
 */
module Slices {

  datatype Slice = Slice(start: int, stop: int)

  /** The slices follow each other from `lo` to `hi`, all as long as possible. */
  ghost predicate Cuts(slices: seq<Slice>, lo: int, hi: int, size: int) {
    && slices != [] && slices[0].start == lo && slices[|slices| - 1].stop == hi
    && (forall j, k :: 0 <= j < k < |slices| && k == j + 1 ==> slices[j].stop == slices[k].start)
    && (forall k :: 0 <= k < |slices| - 1 ==> slices[k].stop == slices[k].start + size)
    && slices[|slices| - 1].start <= hi <= slices[|slices| - 1].start + size
  }

  /** The slices cut so far are full and end at `lo`. */
  ghost predicate Full(slices: seq<Slice>, start: int, lo: int, size: int) {
    && lo == start + |slices| * size
    && (slices == [] ==> lo == start) && (slices != [] ==> slices[0].start == start && slices[|slices| - 1].stop == lo)
    && (forall j, k :: 0 <= j < k < |slices| && k == j + 1 ==> slices[j].stop == slices[k].start)
    && (forall k :: 0 <= k < |slices| ==> slices[k].stop == slices[k].start + size)
  }

  function Min(a: int, b: int): int {
    if a <= b then a else b
  }

  /** The smallest integer that is at least a / b. */
  function CeilDiv(a: int, b: int): (c: int)
    requires b > 0
    ensures (c - 1) * b < a <= c * b
  {
    var q, r := a / b, a % b;
    assert a == q * b + r;
    if r == 0 then q else assert (q + 1) * b == q * b + b; q + 1
  }

  lemma {:induction false} FullSnoc(slices: seq<Slice>, start: int, lo: int, size: int)
    requires Full(slices, start, lo, size)
    ensures Full(slices + [Slice(lo, lo + size)], start, lo + size, size)
  {
    assert (|slices| + 1) * size == |slices| * size + size;
  }

  /** `ok` is false when an assertion of the source fails. An empty range gives one empty slice. */
  method GenSlices(start: int, stop: int, blocksize: int) returns (slices: seq<Slice>, ok: bool)
    ensures ok <==> start <= stop && blocksize > 0
    ensures ok ==> Cuts(slices, start, stop, blocksize)
    ensures ok ==> (slices[|slices| - 1].start < stop <==> start < stop)
  {
    slices, ok := [], start <= stop && blocksize > 0;
    if !ok {
      return;
    }
    var lo := start;
    while lo + blocksize < stop
      invariant Full(slices, start, lo, blocksize) && lo <= stop && (start < stop ==> lo < stop)
      decreases stop - lo
    {
      FullSnoc(slices, start, lo, blocksize);
      slices := slices + [Slice(lo, lo + blocksize)];
      lo := lo + blocksize;
    }
    slices := slices + [Slice(lo, stop)];
  }

  method SplitInSlices(number: int, numSlices: int) returns (slices: seq<Slice>, ok: bool)
    ensures ok <==> number > 0 && numSlices > 0
    ensures ok ==> Cuts(slices, 0, number, CeilDiv(number, numSlices))
    ensures ok ==> 1 <= |slices| <= numSlices
    ensures ok ==> (|slices| == numSlices <==> (numSlices - 1) * CeilDiv(number, numSlices) < number)
  {
    slices, ok := [], number > 0 && numSlices > 0;
    if !ok {
      return;
    }
    var blocksize := CeilDiv(number, numSlices);
    assert Full(slices, 0, 0, blocksize);
    hide Full, CeilDiv;
    var start, stop := 0, Min(blocksize, number);
    while stop != number
      invariant Full(slices, 0, start, blocksize) && start < number && stop == Min(start + blocksize, number)
      decreases number - start
    {
      FullSnoc(slices, 0, start, blocksize);
      slices := slices + [Slice(start, stop)];
      start := start + blocksize;
      stop := Min(start + blocksize, number);
    }
    Counted(slices, start, numSlices, blocksize, number);
    slices := slices + [Slice(start, stop)];
  }

  lemma {:induction false} Counted(slices: seq<Slice>, start: int, numSlices: int, size: int, number: int)
    requires Full(slices, 0, start, size) && start < number <= start + size
    requires size > 0 && numSlices > 0 && number <= size * numSlices
    ensures var n := |slices| + 1; n <= numSlices && (n == numSlices <==> (numSlices - 1) * size < number)
  {
    assert (|slices| + 1) * size == |slices| * size + size;
    AtMost(|slices| + 1, numSlices, size, number);
  }

  lemma {:induction false} AtMost(n: int, numSlices: int, size: int, number: int)
    requires size > 0 && numSlices > 0 && (n - 1) * size < number <= n * size && number <= numSlices * size
    ensures n <= numSlices && (n == numSlices <==> (numSlices - 1) * size < number)
  {
    if n > numSlices {
      assert (n - 1) * size >= numSlices * size by {
        MulGrows(numSlices, n - 1, size);
      }
    }
    if n < numSlices {
      MulGrows(n, numSlices - 1, size);
    }
  }

  lemma {:induction false} MulGrows(a: int, b: int, c: int)
    requires a <= b && c >= 0
    ensures a * c <= b * c
  {
  }
}
