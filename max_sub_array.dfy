/** The maximum-subarray algorithms timed by the benchmark (main.cpp): the
    O(n^2) greedy scan, the crossing helper and the divide-and-conquer
    recursion. C++ `int` is modelled as a mathematical integer. */
module MaxSubArray {

  /** vals[i] + ... + vals[j], inclusive at both ends like the source's
      (start_index, end_index) pairs. */
  function SliceSum(vals: seq<int>, i: int, j: int): int
    requires 0 <= i <= j < |vals|
    decreases j - i
  {
    if i == j then vals[j] else SliceSum(vals, i, j - 1) + vals[j]
  }

  /** A slice splits into two adjacent slices at any inner point. */
  lemma {:induction false} SliceSumSplit(vals: seq<int>, i: int, m: int, j: int)
    requires 0 <= i <= m < j < |vals|
    ensures SliceSum(vals, i, j) == SliceSum(vals, i, m) + SliceSum(vals, m + 1, j)
    decreases j - m
  {
    if j > m + 1 {
      SliceSumSplit(vals, i, m, j - 1);
    }
  }

  lemma SliceSumSplitAll(vals: seq<int>, lo: int, mid: int, hi: int)
    requires 0 <= lo <= mid < hi < |vals|
    ensures forall i, j :: lo <= i <= mid < j <= hi ==>
              SliceSum(vals, i, j) == SliceSum(vals, i, mid) + SliceSum(vals, mid + 1, j)
  {
    forall i, j | lo <= i <= mid < j <= hi
      ensures SliceSum(vals, i, j) == SliceSum(vals, i, mid) + SliceSum(vals, mid + 1, j)
    {
      SliceSumSplit(vals, i, mid, j);
    }
  }

  /** Reference definition: the largest sum of a slice vals[i..hi] with
      lo <= i <= hi. */
  function MaxEndingAt(vals: seq<int>, lo: int, hi: int): int
    requires 0 <= lo <= hi < |vals|
    decreases hi - lo
  {
    if lo == hi then vals[hi]
    else
      var s := SliceSum(vals, lo, hi);
      var rest := MaxEndingAt(vals, lo + 1, hi);
      if s >= rest then s else rest
  }

  lemma {:induction false} MaxEndingAtBounds(vals: seq<int>, lo: int, hi: int)
    requires 0 <= lo <= hi < |vals|
    ensures forall i :: lo <= i <= hi ==> SliceSum(vals, i, hi) <= MaxEndingAt(vals, lo, hi)
    decreases hi - lo
  {
    if lo < hi {
      MaxEndingAtBounds(vals, lo + 1, hi);
    }
  }

  lemma {:induction false} MaxEndingAtAttained(vals: seq<int>, lo: int, hi: int) returns (i: int)
    requires 0 <= lo <= hi < |vals|
    ensures lo <= i <= hi && SliceSum(vals, i, hi) == MaxEndingAt(vals, lo, hi)
    decreases hi - lo
  {
    if lo == hi || SliceSum(vals, lo, hi) >= MaxEndingAt(vals, lo + 1, hi) {
      i := lo;
    } else {
      i := MaxEndingAtAttained(vals, lo + 1, hi);
    }
  }

  /** Reference definition: the largest sum of a non-empty contiguous slice
      vals[i..j] with lo <= i <= j <= hi. */
  function MaxSliceSum(vals: seq<int>, lo: int, hi: int): int
    requires 0 <= lo <= hi < |vals|
    decreases hi - lo
  {
    if lo == hi then vals[lo]
    else
      var before := MaxSliceSum(vals, lo, hi - 1);
      var ending := MaxEndingAt(vals, lo, hi);
      if before >= ending then before else ending
  }

  /** No slice of [lo, hi] sums to more than MaxSliceSum. */
  lemma {:induction false} MaxSliceSumBounds(vals: seq<int>, lo: int, hi: int)
    requires 0 <= lo <= hi < |vals|
    ensures forall i, j :: lo <= i <= j <= hi ==> SliceSum(vals, i, j) <= MaxSliceSum(vals, lo, hi)
    decreases hi - lo
  {
    if lo < hi {
      MaxSliceSumBounds(vals, lo, hi - 1);
      MaxEndingAtBounds(vals, lo, hi);
    }
  }

  /** Some slice of [lo, hi] sums to exactly MaxSliceSum. */
  lemma {:induction false} MaxSliceSumAttained(vals: seq<int>, lo: int, hi: int) returns (i: int, j: int)
    requires 0 <= lo <= hi < |vals|
    ensures lo <= i <= j <= hi && SliceSum(vals, i, j) == MaxSliceSum(vals, lo, hi)
    decreases hi - lo
  {
    if lo == hi {
      i, j := lo, lo;
    } else if MaxSliceSum(vals, lo, hi - 1) >= MaxEndingAt(vals, lo, hi) {
      i, j := MaxSliceSumAttained(vals, lo, hi - 1);
    } else {
      i := MaxEndingAtAttained(vals, lo, hi);
      j := hi;
    }
  }

  /** A slice whose sum bounds every slice of the range has the maximum sum. */
  lemma MaxSliceSumIs(vals: seq<int>, lo: int, hi: int, i: int, j: int)
    requires 0 <= lo <= i <= j <= hi < |vals|
    requires forall a, b :: lo <= a <= b <= hi ==> SliceSum(vals, a, b) <= SliceSum(vals, i, j)
    ensures MaxSliceSum(vals, lo, hi) == SliceSum(vals, i, j)
  {
    MaxSliceSumBounds(vals, lo, hi);
    var a, b := MaxSliceSumAttained(vals, lo, hi);
  }

  /** The maximum over a sub-range never exceeds the maximum over the range. */
  lemma MaxSliceSumWithin(vals: seq<int>, lo: int, hi: int, lo': int, hi': int)
    requires 0 <= lo <= lo' <= hi' <= hi < |vals|
    ensures MaxSliceSum(vals, lo', hi') <= MaxSliceSum(vals, lo, hi)
  {
    var i, j := MaxSliceSumAttained(vals, lo', hi');
    MaxSliceSumBounds(vals, lo, hi);
  }

  // ---------------------------------------------------------------------
  // max_sub_array_greedy

  /** The O(n^2) scan over [startAt, endAt) (endAt exclusive). The running
      maximum starts at vals[0] whatever startAt is, and a pair replaces the
      current one only when its sum is strictly larger, so the reported pair
      is the first maximising one in (i, then j) order. */
  method MaxSubArrayGreedy(vals: seq<int>, startAt: int, endAt: int)
    returns (max: int, startIndex: int, endIndex: int)
    requires |vals| > 0
    requires startAt < endAt ==> 0 <= startAt && endAt <= |vals|
    ensures max >= vals[0]
    ensures forall i, j :: startAt <= i <= j < endAt ==> SliceSum(vals, i, j) <= max
    ensures || (startIndex == endIndex == startAt && max == vals[0])
            || (&& startAt <= startIndex <= endIndex < endAt
                && max == SliceSum(vals, startIndex, endIndex) && max > vals[0])
    ensures forall i, j :: startAt <= i <= j < endAt && (i < startIndex || (i == startIndex && j < endIndex))
              ==> SliceSum(vals, i, j) < max
    ensures startAt == 0 < endAt ==>
              && 0 <= startIndex <= endIndex < endAt
              && max == SliceSum(vals, startIndex, endIndex)
              && max == MaxSliceSum(vals, 0, endAt - 1)
  {
    max := vals[0];
    startIndex, endIndex := startAt, startAt;
    var i := startAt;
    while i < endAt
      invariant startAt < endAt ==> startAt <= i <= endAt
      invariant startAt >= endAt ==> i == startAt
      invariant max >= vals[0]
      invariant forall a, b :: startAt <= a < i && a <= b < endAt ==> SliceSum(vals, a, b) <= max
      invariant || (startIndex == endIndex == startAt && max == vals[0])
                || (&& startAt <= startIndex < i && startIndex <= endIndex < endAt
                    && max == SliceSum(vals, startIndex, endIndex) && max > vals[0])
      invariant forall a, b :: startAt <= a <= b < endAt && (a < startIndex || (a == startIndex && b < endIndex))
                  ==> SliceSum(vals, a, b) < max
    {
      var s := vals[i];
      var j := i;
      while j < endAt
        invariant i <= j <= endAt
        invariant j == i ==> s == vals[i]
        invariant j > i ==> s == SliceSum(vals, i, j - 1)
        invariant max >= vals[0]
        invariant forall a, b :: startAt <= a < i && a <= b < endAt ==> SliceSum(vals, a, b) <= max
        invariant forall b :: i <= b < j ==> SliceSum(vals, i, b) <= max
        invariant || (startIndex == endIndex == startAt && max == vals[0])
                  || (&& startAt <= startIndex <= i && startIndex <= endIndex < endAt
                      && max == SliceSum(vals, startIndex, endIndex) && max > vals[0]
                      && (startIndex < i || endIndex < j))
        invariant forall a, b :: startAt <= a <= b < endAt && (a < startIndex || (a == startIndex && b < endIndex))
                    ==> SliceSum(vals, a, b) < max
      {
        if j != i {
          s := s + vals[j];
        }
        if s > max {
          max := s;
          startIndex := i;
          endIndex := j;
        }
        j := j + 1;
      }
      i := i + 1;
    }
    if startAt == 0 < endAt {
      MaxSliceSumIs(vals, 0, endAt - 1, startIndex, endIndex);
    }
  }

  // ---------------------------------------------------------------------
  // max_crossing_sub_array

  /** The best sum found by one of the crossing helper's loops, with the
      index that the loop recorded for it. */
  datatype Extension = Extension(sum: int, index: int)

  /** The left loop of the crossing helper after l has run from mid down to
      lo: the running best sum and the index recorded for it. */
  function LeftScan(vals: seq<int>, lo: int, mid: int): (r: Extension)
    requires 0 <= lo <= mid < |vals|
    ensures lo <= r.index <= mid
    decreases mid - lo
  {
    if lo == mid then Extension(vals[mid], mid)
    else
      var e := LeftScan(vals, lo + 1, mid);
      var s := SliceSum(vals, lo, mid);
      if s > e.sum then Extension(s, lo) else e
  }

  /** left_max is the best sum of vals[l..mid] over l in [lo, mid], and
      left_start_index is the l closest to mid that attains it. */
  lemma {:induction false} LeftScanIsBest(vals: seq<int>, lo: int, mid: int)
    requires 0 <= lo <= mid < |vals|
    ensures var r := LeftScan(vals, lo, mid);
            && r.sum == SliceSum(vals, r.index, mid)
            && (forall l :: lo <= l <= mid ==> SliceSum(vals, l, mid) <= r.sum)
            && (forall l :: r.index < l <= mid ==> SliceSum(vals, l, mid) < r.sum)
    decreases mid - lo
  {
    if lo < mid {
      LeftScanIsBest(vals, lo + 1, mid);
    }
  }

  /** No prefix vals[lo..j] with j > lo sums to more than vals[lo] alone. */
  ghost predicate FirstIsBestPrefix(vals: seq<int>, lo: int, hi: int)
    requires 0 <= lo <= hi < |vals|
  {
    forall j :: lo < j <= hi ==> SliceSum(vals, lo, j) <= vals[lo]
  }

  /** The right loop of the crossing helper after r has run from lo up to
      hi: the running best sum and the index recorded for it, which starts
      at -1. */
  function RightScan(vals: seq<int>, lo: int, hi: int): (r: Extension)
    requires 0 <= lo <= hi < |vals|
    ensures r.index == -1 || lo < r.index <= hi
    decreases hi - lo
  {
    if hi == lo then Extension(vals[lo], -1)
    else
      var e := RightScan(vals, lo, hi - 1);
      var s := SliceSum(vals, lo, hi);
      if s > e.sum then Extension(s, hi) else e
  }

  /** right_max is the best sum of vals[lo..j] over j in [lo, hi], and
      right_end_index is the first j attaining it, except that it stays -1
      exactly when no j > lo strictly beats vals[lo] alone. */
  lemma {:induction false} RightScanIsBest(vals: seq<int>, lo: int, hi: int)
    requires 0 <= lo <= hi < |vals|
    ensures var r := RightScan(vals, lo, hi);
            && r.sum == SliceSum(vals, lo, if r.index == -1 then lo else r.index)
            && (forall j :: lo <= j <= hi ==> SliceSum(vals, lo, j) <= r.sum)
            && (r.index != -1 ==> forall j :: lo <= j < r.index ==> SliceSum(vals, lo, j) < r.sum)
            && (r.index == -1 <==> FirstIsBestPrefix(vals, lo, hi))
    decreases hi - lo
  {
    if lo < hi {
      RightScanIsBest(vals, lo, hi - 1);
    }
  }

  /** A candidate answer: its sum and the (start_index, end_index) reported. */
  datatype Slice = Slice(sum: int, start: int, end: int)

  /** What max_crossing_sub_array returns for lo <= mid < hi: left_max +
      right_max, left_start_index and right_end_index. */
  function Crossing(vals: seq<int>, lo: int, mid: int, hi: int): (r: Slice)
    requires 0 <= lo <= mid < hi < |vals|
    ensures lo <= r.start <= mid
    ensures r.end == -1 || mid + 1 < r.end <= hi
  {
    var left := LeftScan(vals, lo, mid);
    var right := RightScan(vals, mid + 1, hi);
    Slice(left.sum + right.sum, left.index, right.index)
  }

  /** The crossing result is the best sum of a slice containing both
      vals[mid] and vals[mid + 1]; it is the sum of the slice from its start
      index to its end index, or to mid + 1 when the end index is -1, which
      happens exactly when the best right part is vals[mid + 1] alone. */
  lemma CrossingIsBest(vals: seq<int>, lo: int, mid: int, hi: int)
    requires 0 <= lo <= mid < hi < |vals|
    ensures var r := Crossing(vals, lo, mid, hi);
            && r.sum == SliceSum(vals, r.start, if r.end == -1 then mid + 1 else r.end)
            && (forall i, j :: lo <= i <= mid < j <= hi ==> SliceSum(vals, i, j) <= r.sum)
            && (r.end == -1 <==> FirstIsBestPrefix(vals, mid + 1, hi))
  {
    LeftScanIsBest(vals, lo, mid);
    RightScanIsBest(vals, mid + 1, hi);
    CrossingIsSlice(vals, lo, mid, hi);
    SliceSumSplitAll(vals, lo, mid, hi);
  }

  /** The crossing sum is the sum of the slice from its start index to its
      end index, or to mid + 1 when the end index is -1. */
  lemma CrossingIsSlice(vals: seq<int>, lo: int, mid: int, hi: int)
    requires 0 <= lo <= mid < hi < |vals|
    ensures var r := Crossing(vals, lo, mid, hi);
            r.sum == SliceSum(vals, r.start, if r.end == -1 then mid + 1 else r.end)
  {
    var r := Crossing(vals, lo, mid, hi);
    var end := if r.end == -1 then mid + 1 else r.end;
    LeftScanIsBest(vals, lo, mid);
    RightScanIsBest(vals, mid + 1, hi);
    SliceSumSplit(vals, r.start, mid, end);
  }

  /** The crossing helper as the source writes it: two loops accumulating a
      running sum, with strict comparisons. */
  method MaxCrossingSubArray(vals: seq<int>, startAt: int, mid: int, endAt: int)
    returns (max: int, startIndex: int, endIndex: int)
    requires 0 <= startAt <= mid < endAt < |vals|
    ensures Slice(max, startIndex, endIndex) == Crossing(vals, startAt, mid, endAt)
  {
    var leftMax := vals[mid];
    var leftStartIndex := mid;
    var s := 0;
    var l := mid;
    while l >= startAt
      invariant startAt - 1 <= l <= mid
      invariant s == if l == mid then 0 else SliceSum(vals, l + 1, mid)
      invariant Extension(leftMax, leftStartIndex) == LeftScan(vals, if l == mid then mid else l + 1, mid)
    {
      if l < mid {
        SliceSumSplit(vals, l, l, mid);
      }
      s := s + vals[l];
      if s > leftMax {
        leftMax := s;
        leftStartIndex := l;
      }
      l := l - 1;
    }

    var rightEndIndex := -1;
    var rightMax := vals[mid + 1];
    s := 0;
    var r := mid + 1;
    while r <= endAt
      invariant mid + 1 <= r <= endAt + 1
      invariant s == if r == mid + 1 then 0 else SliceSum(vals, mid + 1, r - 1)
      invariant Extension(rightMax, rightEndIndex) == RightScan(vals, mid + 1, if r == mid + 1 then mid + 1 else r - 1)
    {
      s := s + vals[r];
      if s > rightMax {
        rightMax := s;
        rightEndIndex := r;
      }
      r := r + 1;
    }

    startIndex := leftStartIndex;
    endIndex := rightEndIndex;
    max := leftMax + rightMax;
  }

  // ---------------------------------------------------------------------
  // max_sub_array_logarithmic

  /** The choice among the left, right and crossing candidates with the
      source's strict comparisons: the largest of the three, except that a
      tie between left and right above the crossing sum falls through to
      the crossing candidate. */
  function Select(left: Slice, right: Slice, cross: Slice): (r: Slice)
    ensures r == left || r == right || r == cross
    ensures !(left.sum == right.sum > cross.sum) ==>
              r.sum >= left.sum && r.sum >= right.sum && r.sum >= cross.sum
    ensures left.sum == right.sum > cross.sum ==> r == cross && r.sum < left.sum
  {
    if left.sum > right.sum && left.sum > cross.sum then left
    else if right.sum > left.sum && right.sum > cross.sum then right
    else cross
  }

  /** sze >> 1 for a non-negative sze, written by recursion; HalfIsShift
      relates it to division. A positive size is split strictly, which makes
      the recursion below terminate. */
  function Half(n: nat): (h: nat)
    ensures n > 0 ==> h < n
  {
    if n < 2 then 0 else Half(n - 2) + 1
  }

  lemma {:induction false} HalfIsShift(n: nat)
    ensures Half(n) == n / 2
  {
    if n >= 2 {
      HalfIsShift(n - 2);
    }
  }

  /** max_sub_array_logarithmic over the inclusive range [startAt, endAt].
      The start index lies in the range; the end index is -1 (from the
      crossing helper) or lies in [start, endAt] (LogarithmicIsSlice says
      what they delimit). The range must be non-empty: on empty data the
      source's call with end_at = -1 splits at mid = -1 and recurses on
      (0, -1) without end. */
  function Logarithmic(vals: seq<int>, startAt: int, endAt: int): (r: Slice)
    requires 0 <= startAt <= endAt < |vals|
    ensures startAt <= r.start <= endAt
    ensures r.end == -1 || r.start <= r.end <= endAt
    decreases endAt - startAt
  {
    if startAt == endAt then
      Slice(vals[startAt], startAt, startAt)
    else
      // sze = endAt - startAt > 0, so startAt <= mid < endAt
      var mid := startAt + Half(endAt - startAt);
      var left := Logarithmic(vals, startAt, mid);
      var right := Logarithmic(vals, mid + 1, endAt);
      var cross := Crossing(vals, startAt, mid, endAt);
      Select(left, right, cross)
  }

  /** r's indices delimit a slice of vals whose sum is r.sum, unless its end
      index is the crossing helper's -1. */
  ghost predicate Delimits(vals: seq<int>, r: Slice)
  {
    r.end != -1 ==> 0 <= r.start <= r.end < |vals| && r.sum == SliceSum(vals, r.start, r.end)
  }

  /** The reported indices delimit a slice with the reported sum, unless the
      end index is the crossing helper's -1. */
  lemma {:induction false} LogarithmicIsSlice(vals: seq<int>, startAt: int, endAt: int)
    requires 0 <= startAt <= endAt < |vals|
    ensures Delimits(vals, Logarithmic(vals, startAt, endAt))
    decreases endAt - startAt
  {
    if startAt < endAt {
      var mid := startAt + Half(endAt - startAt);
      LogarithmicIsSlice(vals, startAt, mid);
      LogarithmicIsSlice(vals, mid + 1, endAt);
      CrossingIsSlice(vals, startAt, mid, endAt);
      SelectDelimits(vals, Logarithmic(vals, startAt, mid), Logarithmic(vals, mid + 1, endAt),
                     Crossing(vals, startAt, mid, endAt));
    }
  }

  /** The selection returns one of its candidates, so it keeps Delimits. */
  lemma SelectDelimits(vals: seq<int>, left: Slice, right: Slice, cross: Slice)
    requires Delimits(vals, left) && Delimits(vals, right) && Delimits(vals, cross)
    ensures Delimits(vals, Select(left, right, cross))
  {
  }

  /** Whatever the selection picks, the result is the sum of a slice of
      the range, so it never exceeds the maximum slice sum. */
  lemma {:induction false} LogarithmicAtMostMax(vals: seq<int>, startAt: int, endAt: int)
    requires 0 <= startAt <= endAt < |vals|
    ensures Logarithmic(vals, startAt, endAt).sum <= MaxSliceSum(vals, startAt, endAt)
    decreases endAt - startAt
  {
    if startAt < endAt {
      var mid := startAt + Half(endAt - startAt);
      LogarithmicAtMostMax(vals, startAt, mid);
      LogarithmicAtMostMax(vals, mid + 1, endAt);
      LogarithmicAtMostMaxStep(vals, startAt, endAt);
    } else {
      LogarithmicSingle(vals, startAt);
    }
  }

  /** The inductive step of LogarithmicAtMostMax: bounds on the halves'
      results give the bound on the whole. */
  lemma LogarithmicAtMostMaxStep(vals: seq<int>, lo: int, hi: int)
    requires 0 <= lo < hi < |vals|
    requires var mid := lo + Half(hi - lo);
             && Logarithmic(vals, lo, mid).sum <= MaxSliceSum(vals, lo, mid)
             && Logarithmic(vals, mid + 1, hi).sum <= MaxSliceSum(vals, mid + 1, hi)
    ensures Logarithmic(vals, lo, hi).sum <= MaxSliceSum(vals, lo, hi)
  {
    var mid := lo + Half(hi - lo);
    MaxSliceSumWithin(vals, lo, hi, lo, mid);
    MaxSliceSumWithin(vals, lo, hi, mid + 1, hi);
    CrossingAtMostMax(vals, lo, mid, hi);
    LogarithmicBelow(vals, lo, hi, MaxSliceSum(vals, lo, hi));
  }

  /** On a one-element range both the result and the maximum are that element. */
  lemma LogarithmicSingle(vals: seq<int>, i: int)
    requires 0 <= i < |vals|
    ensures Logarithmic(vals, i, i) == Slice(vals[i], i, i)
    ensures MaxSliceSum(vals, i, i) == vals[i]
  {
  }

  /** A bound on all three candidates of one level bounds its result. */
  lemma LogarithmicBelow(vals: seq<int>, lo: int, hi: int, m: int)
    requires 0 <= lo < hi < |vals|
    requires Logarithmic(vals, lo, lo + Half(hi - lo)).sum <= m
    requires Logarithmic(vals, lo + Half(hi - lo) + 1, hi).sum <= m
    requires Crossing(vals, lo, lo + Half(hi - lo), hi).sum <= m
    ensures Logarithmic(vals, lo, hi).sum <= m
  {
    LogarithmicStep(vals, lo, hi);
  }

  /** The crossing candidate is the sum of a slice of [lo, hi]. */
  lemma CrossingAtMostMax(vals: seq<int>, lo: int, mid: int, hi: int)
    requires 0 <= lo <= mid < hi < |vals|
    ensures Crossing(vals, lo, mid, hi).sum <= MaxSliceSum(vals, lo, hi)
  {
    var cross := Crossing(vals, lo, mid, hi);
    CrossingIsSlice(vals, lo, mid, hi);
    MaxSliceSumBounds(vals, lo, hi);
    assert cross.sum == SliceSum(vals, cross.start, if cross.end == -1 then mid + 1 else cross.end);
  }

  /** [l, h] is one of the ranges that Logarithmic visits when called on
      [lo, hi]. */
  predicate Visits(lo: int, hi: int, l: int, h: int)
    requires lo <= hi
    decreases hi - lo
  {
    || (l == lo && h == hi)
    || (lo < hi &&
        var mid := lo + Half(hi - lo);
        Visits(lo, mid, l, h) || Visits(mid + 1, hi, l, h))
  }

  /** The level of Logarithmic that splits [lo, hi] meets the tie
      left == right > cross, which Select resolves to the crossing candidate. */
  predicate TieAt(vals: seq<int>, lo: int, hi: int)
    requires 0 <= lo < hi < |vals|
  {
    var mid := lo + Half(hi - lo);
    Logarithmic(vals, lo, mid).sum == Logarithmic(vals, mid + 1, hi).sum > Crossing(vals, lo, mid, hi).sum
  }

  /** No level of Logarithmic's recursion on [lo, hi] meets the tie. */
  ghost predicate TieFree(vals: seq<int>, lo: int, hi: int)
    requires 0 <= lo <= hi < |vals|
  {
    forall l, h {:trigger TieAt(vals, l, h)} :: lo <= l < h <= hi && Visits(lo, hi, l, h) ==> !TieAt(vals, l, h)
  }

  /** Logarithmic visits both halves of every range it visits and splits. */
  lemma {:induction false} VisitsHalves(lo0: int, hi0: int, lo: int, hi: int)
    requires lo0 <= hi0 && lo < hi
    requires Visits(lo0, hi0, lo, hi)
    ensures Visits(lo0, hi0, lo, lo + Half(hi - lo))
    ensures Visits(lo0, hi0, lo + Half(hi - lo) + 1, hi)
    decreases hi0 - lo0
  {
    var mid0 := lo0 + Half(hi0 - lo0);
    if lo == lo0 && hi == hi0 {
      assert Visits(lo0, mid0, lo0, mid0);
      assert Visits(mid0 + 1, hi0, mid0 + 1, hi0);
    } else if Visits(lo0, mid0, lo, hi) {
      VisitsHalves(lo0, mid0, lo, hi);
    } else {
      VisitsHalves(mid0 + 1, hi0, lo, hi);
    }
  }

  /** The maximum over [lo, hi] is the largest of the maximum over the left
      half, the maximum over the right half and the best crossing sum. */
  lemma MaxSliceSumCombine(vals: seq<int>, lo: int, mid: int, hi: int, m: int)
    requires 0 <= lo <= mid < hi < |vals|
    requires m == MaxSliceSum(vals, lo, mid) || m == MaxSliceSum(vals, mid + 1, hi) || m == Crossing(vals, lo, mid, hi).sum
    requires m >= MaxSliceSum(vals, lo, mid) && m >= MaxSliceSum(vals, mid + 1, hi) && m >= Crossing(vals, lo, mid, hi).sum
    ensures m == MaxSliceSum(vals, lo, hi)
  {
    var a, b := MaxSliceSum(vals, lo, mid), MaxSliceSum(vals, mid + 1, hi);
    var cross := Crossing(vals, lo, mid, hi);
    CrossingIsBest(vals, lo, mid, hi);
    MaxSliceSumBounds(vals, lo, mid);
    MaxSliceSumBounds(vals, mid + 1, hi);
    forall i, j | lo <= i <= j <= hi
      ensures SliceSum(vals, i, j) <= m
    {
      if j <= mid {
        assert SliceSum(vals, i, j) <= a;
      } else if mid < i {
        assert SliceSum(vals, i, j) <= b;
      }
    }
    if m == a {
      var i, j := MaxSliceSumAttained(vals, lo, mid);
      MaxSliceSumIs(vals, lo, hi, i, j);
    } else if m == b {
      var i, j := MaxSliceSumAttained(vals, mid + 1, hi);
      MaxSliceSumIs(vals, lo, hi, i, j);
    } else {
      MaxSliceSumIs(vals, lo, hi, cross.start, if cross.end == -1 then mid + 1 else cross.end);
    }
  }

  /** One level of Logarithmic, in terms of sums only: the result is one of
      the three candidates, and the largest of them unless the tie occurs. */
  lemma LogarithmicStep(vals: seq<int>, lo: int, hi: int)
    requires 0 <= lo < hi < |vals|
    ensures var mid := lo + Half(hi - lo);
            var r := Logarithmic(vals, lo, hi).sum;
            var a := Logarithmic(vals, lo, mid).sum;
            var b := Logarithmic(vals, mid + 1, hi).sum;
            var c := Crossing(vals, lo, mid, hi).sum;
            && (r == a || r == b || r == c)
            && (!(a == b > c) ==> r >= a && r >= b && r >= c)
            && (a == b > c ==> r == c)
  {
  }

  /** Without the tie at any level, the divide-and-conquer result is the
      maximum slice sum, i.e. what the greedy scan over [0, n) returns. */
  lemma LogarithmicMaximalWhenTieFree(vals: seq<int>, lo: int, hi: int)
    requires 0 <= lo <= hi < |vals|
    requires TieFree(vals, lo, hi)
    ensures Logarithmic(vals, lo, hi).sum == MaxSliceSum(vals, lo, hi)
  {
    LogarithmicMaximalOnVisited(vals, lo, hi, lo, hi);
  }

  /** The induction behind LogarithmicMaximalWhenTieFree, over the ranges
      [lo, hi] that the call on [lo0, hi0] visits. */
  lemma {:induction false} LogarithmicMaximalOnVisited(vals: seq<int>, lo0: int, hi0: int, lo: int, hi: int)
    requires 0 <= lo0 <= lo <= hi <= hi0 < |vals|
    requires Visits(lo0, hi0, lo, hi)
    ensures TieFree(vals, lo0, hi0) ==> Logarithmic(vals, lo, hi).sum == MaxSliceSum(vals, lo, hi)
    decreases hi - lo
  {
    if lo < hi {
      var mid := lo + Half(hi - lo);
      VisitsHalves(lo0, hi0, lo, hi);
      LogarithmicMaximalOnVisited(vals, lo0, hi0, lo, mid);
      LogarithmicMaximalOnVisited(vals, lo0, hi0, mid + 1, hi);
      if TieFree(vals, lo0, hi0) {
        assert !TieAt(vals, lo, hi);
        LogarithmicMaximalIffNoTie(vals, lo, hi);
      }
    } else {
      LogarithmicSingle(vals, lo);
    }
  }

  /** One level in isolation: when both halves' results are maximal, the
      result is the maximum exactly when this level does not meet the tie. */
  lemma LogarithmicMaximalIffNoTie(vals: seq<int>, lo: int, hi: int)
    requires 0 <= lo < hi < |vals|
    requires var mid := lo + Half(hi - lo);
             && Logarithmic(vals, lo, mid).sum == MaxSliceSum(vals, lo, mid)
             && Logarithmic(vals, mid + 1, hi).sum == MaxSliceSum(vals, mid + 1, hi)
    ensures Logarithmic(vals, lo, hi).sum == MaxSliceSum(vals, lo, hi) <==> !TieAt(vals, lo, hi)
  {
    var mid := lo + Half(hi - lo);
    var a := Logarithmic(vals, lo, mid).sum;
    var b := Logarithmic(vals, mid + 1, hi).sum;
    var c := Crossing(vals, lo, mid, hi).sum;
    LogarithmicStep(vals, lo, hi);
    if a == b > c {
      MaxSliceSumWithin(vals, lo, hi, lo, mid);
    } else {
      MaxSliceSumCombine(vals, lo, mid, hi, Logarithmic(vals, lo, hi).sum);
    }
  }

  /** The two benchmarks on the same data: greedy over [0, n) and divide and
      conquer over [0, n - 1] agree when no tie arises. */
  method BenchmarksAgree(data: seq<int>) returns (greedy: int, logarithmic: int)
    requires |data| > 0
    requires TieFree(data, 0, |data| - 1)
    ensures greedy == logarithmic
  {
    var startIndex, endIndex;
    greedy, startIndex, endIndex := MaxSubArrayGreedy(data, 0, |data|);
    logarithmic := Logarithmic(data, 0, |data| - 1).sum;
    LogarithmicMaximalWhenTieFree(data, 0, |data| - 1);
  }

  // ---------------------------------------------------------------------
  // Defects of the source, and their corrections

  /** The crossing helper loses its end index when the best right part is
      vals[mid + 1] alone, and the loss reaches the top-level answer: on
      [1, 1] the best slice is [0..1], reported as (0, -1). */
  lemma CrossingLosesEndIndex()
    ensures Crossing([1, 1], 0, 0, 1) == Slice(2, 0, -1)
    ensures Logarithmic([1, 1], 0, 1) == Slice(2, 0, -1)
    ensures MaxSliceSum([1, 1], 0, 1) == SliceSum([1, 1], 0, 1) == 2
  {
    MaxSliceSumIs([1, 1], 0, 1, 0, 1);
  }

  /** On [1, -5, 1] both halves have best sum 1 and the crossing sum is -3:
      the strict comparisons select -3 although the maximum, which the
      greedy scan returns, is 1. */
  lemma TieFallsThroughToCrossing()
    ensures Logarithmic([1, -5, 1], 0, 2) == Slice(-3, 0, -1)
    ensures MaxSliceSum([1, -5, 1], 0, 2) == 1
    ensures !TieFree([1, -5, 1], 0, 2)
  {
    var v := [1, -5, 1];
    assert SliceSum(v, 0, 0) == 1;
    assert SliceSum(v, 0, 1) == -4;
    assert SliceSum(v, 0, 2) == -3;
    assert SliceSum(v, 1, 1) == -5;
    assert SliceSum(v, 1, 2) == -4;
    assert SliceSum(v, 2, 2) == 1;
    MaxSliceSumIs(v, 0, 2, 0, 0);
    assert Logarithmic(v, 0, 1) == Slice(1, 0, 0);
    assert Logarithmic(v, 2, 2) == Slice(1, 2, 2);
    assert Visits(0, 2, 0, 2) && TieAt(v, 0, 2);
  }

  /** The crossing helper with the intended end index mid + 1 when the best
      right part is vals[mid + 1] alone. */
  function CrossingCorrected(vals: seq<int>, lo: int, mid: int, hi: int): (r: Slice)
    requires 0 <= lo <= mid < hi < |vals|
    ensures lo <= r.start <= mid < r.end <= hi
    ensures r.sum == SliceSum(vals, r.start, r.end)
    ensures r.sum == Crossing(vals, lo, mid, hi).sum
    ensures forall i, j :: lo <= i <= mid < j <= hi ==> SliceSum(vals, i, j) <= r.sum
  {
    var c := Crossing(vals, lo, mid, hi);
    CrossingIsBest(vals, lo, mid, hi);
    Slice(c.sum, c.start, if c.end == -1 then mid + 1 else c.end)
  }

  /** The selection with non-strict comparisons: always the largest of the
      three candidates. */
  function SelectCorrected(left: Slice, right: Slice, cross: Slice): (r: Slice)
    ensures r == left || r == right || r == cross
    ensures r.sum >= left.sum && r.sum >= right.sum && r.sum >= cross.sum
  {
    if left.sum >= right.sum && left.sum >= cross.sum then left
    else if right.sum >= cross.sum then right
    else cross
  }

  /** Divide and conquer with both corrections: the maximum slice sum over
      [startAt, endAt], with the indices of a slice attaining it. */
  function LogarithmicCorrected(vals: seq<int>, startAt: int, endAt: int): (r: Slice)
    requires 0 <= startAt <= endAt < |vals|
    ensures startAt <= r.start <= r.end <= endAt
    ensures r.sum == SliceSum(vals, r.start, r.end)
    ensures r.sum == MaxSliceSum(vals, startAt, endAt)
    decreases endAt - startAt
  {
    if startAt == endAt then
      Slice(vals[startAt], startAt, startAt)
    else
      var mid := startAt + Half(endAt - startAt);
      var left := LogarithmicCorrected(vals, startAt, mid);
      var right := LogarithmicCorrected(vals, mid + 1, endAt);
      var cross := CrossingCorrected(vals, startAt, mid, endAt);
      var r := SelectCorrected(left, right, cross);
      MaxSliceSumCombine(vals, startAt, mid, endAt, r.sum);
      r
  }
}
