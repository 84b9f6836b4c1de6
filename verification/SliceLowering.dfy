/**
  The numbers of a lowered slice: which elements of an axis the network takes for `start:stop:step`,
  compared with the elements the traced program takes.
*/
module SliceLowering {
  import opened Division

  /** The integers of a slice over an axis with `d` elements, absent ones replaced by their defaults. */
  datatype Bounds = Bounds(start: int, stop: int, step: int)

  /** The elements a network takes: `size` of them from `start` on, `stride` apart. */
  datatype Region = Region(start: int, size: int, stride: int)

  /** The elements `lo`, `lo + step`, ... below `hi`. */
  function Range(lo: int, hi: int, step: int): seq<int>
    requires step > 0
    decreases hi - lo
  {
    if lo >= hi then [] else [lo] + Range(lo + step, hi, step)
  }

  /** A bound of the traced program on an axis of `d` elements: from the end when negative, and clamped. */
  function Clamped(i: int, d: nat): nat {
    if i < 0 then (if i + d < 0 then 0 else i + d) else if i > d then d else i
  }

  /** The elements that the traced program takes. */
  function Sliced(b: Bounds, d: nat): seq<int>
    requires b.step > 0
  {
    Range(Clamped(b.start, d), Clamped(b.stop, d), b.step)
  }

  /** The size that `slice_to_trt` computes. */
  function SliceSize(b: Bounds): int
    requires b.step > 0
  {
    Floor(b.stop - b.start - 1, b.step) + 1
  }

  /** Negative numbers count from the end of the axis. */
  function Resolved(n: int, d: nat): int {
    if n < 0 then n + d else n
  }

  function Lowered(b: Bounds, d: nat): Region
    requires b.step > 0
  {
    Region(Resolved(b.start, d), Resolved(SliceSize(b), d), b.step)
  }

  /** The elements of a region; a region of negative size is not a region of any network. */
  function Elements(start: int, size: nat, stride: int): seq<int>
    decreases size
  {
    if size == 0 then [] else [start] + Elements(start + stride, size - 1, stride)
  }

  predicate Takes(r: Region, s: seq<int>) {
    r.size >= 0 && Elements(r.start, r.size, r.stride) == s
  }

  /** A bound stands for the position between zero and the size that is nearest to it. */
  lemma ClampedIsNearest(i: int, d: nat, k: nat)
    requires k <= d
    ensures Clamped(i, d) <= d
    ensures var n := if i < 0 then d + i else i; Abs(Clamped(i, d) - n) <= Abs(k - n)
  {
  }

  /** A range has exactly the numbers from `lo` on, below `hi`, that are whole steps from `lo`, in order. */
  lemma {:induction false} RangeHasIff(lo: int, hi: int, step: int, k: int)
    requires step > 0
    ensures k in Range(lo, hi, step) <==> lo <= k < hi && (k - lo) % step == 0
    decreases hi - lo
  {
    if lo < hi {
      RangeHasIff(lo + step, hi, step, k);
      StepsApart(k - lo, step);
    }
  }

  lemma {:induction false} RangeSplits(lo: int, mid: int, hi: int)
    requires lo <= mid <= hi
    ensures Range(lo, mid, 1) + Range(mid, hi, 1) == Range(lo, hi, 1)
    decreases mid - lo
  {
    if lo < mid {
      RangeSplits(lo + 1, mid, hi);
    } else {
      assert [] + Range(mid, hi, 1) == Range(mid, hi, 1);
    }
  }

  /** Everything up to a bound and everything from it on are together the whole axis, for any bound. */
  lemma SlicesSplitAxis(k: int, d: nat)
    ensures Sliced(Bounds(0, k, 1), d) + Sliced(Bounds(k, d, 1), d) == Range(0, d, 1)
  {
    RangeSplits(0, Clamped(k, d), d);
  }

  lemma StepsApart(n: int, step: int)
    requires step > 0
    ensures n % step == (n - step) % step && (0 < n < step ==> n % step != 0)
  {
    assert n - step == step * (n / step - 1) + n % step;
    QuotientIsUnique(n - step, step, n / step - 1);
  }

  /** How many elements a range has. */
  function Count(lo: int, hi: int, step: int): nat
    requires step > 0
  {
    if lo >= hi then 0 else (hi - lo - 1) / step + 1
  }

  lemma OneStepLess(n: int, step: int)
    requires step > 0 && n >= step
    ensures (n - step) / step == n / step - 1
  {
    QuotientIsUnique(n - step, step, n / step - 1);
    QuotientIsUnique(n, step, n / step);
  }

  lemma {:induction false} RangeIsRegion(lo: int, hi: int, step: int)
    requires step > 0
    ensures Range(lo, hi, step) == Elements(lo, Count(lo, hi, step), step)
    ensures |Range(lo, hi, step)| == Count(lo, hi, step)
    decreases hi - lo
  {
    if lo >= hi {
    } else {
      RangeIsRegion(lo + step, hi, step);
      if lo + step < hi {
        OneStepLess(hi - lo - 1, step);
      } else {
        QuotientIsUnique(hi - lo - 1, step, 0);
      }
    }
  }

  lemma {:induction false} ElementsAt(start: int, size: nat, stride: int)
    ensures |Elements(start, size, stride)| == size
    ensures size > 0 ==> Elements(start, size, stride)[0] == start
    decreases size
  {
    if size == 0 {
    } else {
      ElementsAt(start + stride, size - 1, stride);
    }
  }

  /** A region is told by its elements. */
  lemma SameElementsIff(a: int, m: nat, b: int, n: nat, stride: int)
    ensures Elements(a, m, stride) == Elements(b, n, stride) <==> m == n && (m == 0 || a == b)
  {
    ElementsAt(a, m, stride);
    ElementsAt(b, n, stride);
  }

  /**
    The computed size is the number of elements of `range(start, stop, step)` exactly when the stop
    is not a whole step or more before the start.
  */
  lemma SizeIsRangeLengthIff(b: Bounds)
    requires b.step > 0
    ensures SliceSize(b) == |Range(b.start, b.stop, b.step)| <==> b.start - b.stop < b.step
  {
    RangeIsRegion(b.start, b.stop, b.step);
    if b.start >= b.stop {
      FloorIsUnique(b.stop - b.start - 1, b.step, -1);
    }
  }

  /** For any bounds: the sizes must be equal, and the starts unless nothing is taken. */
  lemma TakesIff(b: Bounds, d: nat)
    requires b.step > 0
    ensures var n := Count(Clamped(b.start, d), Clamped(b.stop, d), b.step);
      Takes(Lowered(b, d), Sliced(b, d)) <==>
      (Resolved(SliceSize(b), d) == n && (n == 0 || Resolved(b.start, d) == Clamped(b.start, d)))
  {
    var lo, hi := Clamped(b.start, d), Clamped(b.stop, d);
    RangeIsRegion(lo, hi, b.step);
    var r := Lowered(b, d);
    if r.size >= 0 {
      SameElementsIff(r.start, r.size, lo, Count(lo, hi, b.step), b.step);
    }
  }

  /** The last element of a non-empty slice with bounds in order. */
  function LastOf(b: Bounds): int
    requires b.step > 0
  {
    b.start + Times((b.stop - b.start - 1) / b.step, b.step)
  }

  lemma LastIsInRange(b: Bounds)
    requires b.step > 0 && b.start < b.stop
    ensures b.start <= LastOf(b) < b.stop
  {
    QuotientIsUnique(b.stop - b.start - 1, b.step, (b.stop - b.start - 1) / b.step);
  }

  /** A range cut off at `d` keeps all of its elements exactly when the last one is below `d`. */
  lemma CutKeepsCountIff(b: Bounds, d: nat)
    requires b.step > 0 && 0 <= b.start < b.stop && d < b.stop && b.start < d
    ensures Count(b.start, d, b.step) == Count(b.start, b.stop, b.step) <==> LastOf(b) < d
  {
    var q := (b.stop - b.start - 1) / b.step;
    QuotientIsUnique(b.stop - b.start - 1, b.step, q);
    QuotientIsUnique(d - b.start - 1, b.step, q);
  }

  /**
    For bounds in order and not negative the network takes the same elements as the traced program
    exactly when the slice is empty or its last element is on the axis; in particular for every
    stop that is absent or at most the size of the axis.
  */
  lemma LoweredSliceIsSliceIff(b: Bounds, d: nat)
    requires b.step > 0 && 0 <= b.start <= b.stop
    ensures Takes(Lowered(b, d), Sliced(b, d)) <==> b.start == b.stop || LastOf(b) < d
  {
    TakesIff(b, d);
    if b.start == b.stop {
      FloorIsUnique(-1, b.step, -1);
    } else {
      LastIsInRange(b);
      if b.start < d < b.stop {
        CutKeepsCountIff(b, d);
      }
    }
  }

  /** With two negative bounds in order, the network is right as long as the start is on the axis. */
  lemma NegativeBoundsIff(b: Bounds, d: nat)
    requires b.step > 0 && b.start < b.stop < 0
    ensures Takes(Lowered(b, d), Sliced(b, d)) <==> b.start + d >= 0
  {
    TakesIff(b, d);
    QuotientIsUnique(b.stop - b.start - 1, b.step, (b.stop - b.start - 1) / b.step);
    if b.start + d < 0 && b.stop + d > 0 {
      assert Clamped(b.start, d) == 0 && Resolved(b.start, d) < 0;
    }
  }

  /** When slices with unit step are lowered faithfully, told from the two bounds and the axis. */
  predicate UnitSliceIsFaithful(start: int, stop: int, d: nat) {
    if start == stop then true
    else if start >= 0 && stop >= 0 then (if start < stop then stop <= d else start == stop + d)
    else if start < 0 && stop < 0 then (if start < stop then start + d >= 0 else start == stop + d)
    else start >= 0 && start <= stop + d
  }

  /**
    Slices with unit step and any two bounds: the network takes the same elements exactly in the
    cases above.  A negative start with a stop from the front never is among them: `x[-3:]` takes
    too many elements.
  */
  lemma UnitSliceIff(start: int, stop: int, d: nat)
    ensures Takes(Lowered(Bounds(start, stop, 1), d), Sliced(Bounds(start, stop, 1), d)) <==>
      UnitSliceIsFaithful(start, stop, d)
  {
    TakesIff(Bounds(start, stop, 1), d);
    QuotientIsUnique(stop - start - 1, 1, stop - start - 1);
    QuotientIsUnique(Clamped(stop, d) - Clamped(start, d) - 1, 1, Clamped(stop, d) - Clamped(start, d) - 1);
  }
}
