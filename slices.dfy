/** The positions `range(n)[start:stop:step]` selects, as CPython computes
    them: missing bounds take defaults that depend on the direction of the
    step, negative bounds count from the end, and out-of-range bounds are
    clamped rather than rejected. */
module Slices {
  import opened Common

  /** The integers start, start + step, ... that lie strictly before `stop`
      in the direction of `step`, as Python's `range` yields them. */
  function Range(start: int, stop: int, step: int): (r: seq<int>)
    requires step != 0
    ensures step > 0 ==> forall k :: 0 <= k < |r| ==> start <= r[k] < stop
    ensures step < 0 ==> forall k :: 0 <= k < |r| ==> stop < r[k] <= start
    ensures step > 0 ==> forall k, l :: 0 <= k < l < |r| ==> r[k] < r[l]
    ensures step < 0 ==> forall k, l :: 0 <= k < l < |r| ==> r[k] > r[l]
    decreases if step > 0 then stop - start else start - stop
  {
    if (step > 0 && start < stop) || (step < 0 && start > stop) then [start] + Range(start + step, stop, step)
    else []
  }

  /** `range` lists exactly the progression start, start + step, ... : its
      k-th integer is start + k * step, and the next one would no longer lie
      before `stop`. */
  lemma {:induction false} RangeIsProgression(start: int, stop: int, step: int)
    requires step != 0
    ensures var r := Range(start, stop, step);
            (forall k :: 0 <= k < |r| ==> r[k] == start + k * step) &&
            (step > 0 ==> start + |r| * step >= stop) &&
            (step < 0 ==> start + |r| * step <= stop)
    decreases if step > 0 then stop - start else start - stop
  {
    if (step > 0 && start < stop) || (step < 0 && start > stop) {
      var rest := Range(start + step, stop, step);
      RangeIsProgression(start + step, stop, step);
      forall k | 0 <= k < |rest| ensures rest[k] == start + (k + 1) * step {
        OneStepFurther(start, step, k);
      }
      OneStepFurther(start, step, |rest|);
    }
  }

  /** Stepping once from `start` and then `k` more times is stepping k + 1
      times from `start`. */
  lemma OneStepFurther(start: int, step: int, k: int)
    ensures start + step + k * step == start + (k + 1) * step
  {
  }

  /** One bound of a slice adjusted against the length `n`; `lower` and
      `upper` are 0 and n for a forward step, -1 and n - 1 for a backward one. */
  function Adjust(bound: Option<int>, n: nat, default: int, lower: int, upper: int): (r: int)
    requires lower <= default <= upper && lower <= 0 && n - 1 <= upper
    ensures lower <= r <= upper
  {
    match bound
    case None => default
    case Some(b) =>
      if b < 0 then (if b + n < lower then lower else b + n)
      else if b > upper then upper
      else b
  }

  /** `range(n)[slice(start, stop, step)]`; a zero step raises ValueError. */
  function SliceIndices(start: Option<int>, stop: Option<int>, step: Option<int>, n: nat): (r: Result<seq<int>>)
    ensures r.Err? <==> step == Some(0)
    ensures r.Ok? ==> forall k :: 0 <= k < |r.value| ==> 0 <= r.value[k] < n
    ensures r.Ok? ==> forall k, l :: 0 <= k < l < |r.value| ==>
                        if step.GetOr(1) > 0 then r.value[k] < r.value[l] else r.value[k] > r.value[l]
  {
    var s := step.GetOr(1);
    if s == 0 then Err(ValueError(ZeroStepMsg))
    else
      var lower := if s > 0 then 0 else -1;
      var upper := if s > 0 then n as int else n - 1;
      var first := Adjust(start, n, if s > 0 then lower else upper, lower, upper);
      var last := Adjust(stop, n, if s > 0 then upper else lower, lower, upper);
      Ok(Range(first, last, s))
  }

  /** The positions a slice selects form a progression with the slice's
      step; it starts at the position a valid start names, or at the end the
      step starts from, and stops before the position a valid stop names, or
      runs to the end of the row. */
  lemma SliceIsProgression(start: Option<int>, stop: Option<int>, step: Option<int>, n: nat)
    requires step != Some(0)
    ensures var r := SliceIndices(start, stop, step, n).value;
            var s := step.GetOr(1);
            (forall k :: 0 <= k < |r| ==> r[k] == r[0] + k * s) &&
            (|r| > 0 && start.Some? && PyIndex(start.value, n).Some? ==> r[0] == PyIndex(start.value, n).value) &&
            (|r| > 0 && start.None? ==> r[0] == if s > 0 then 0 else n - 1) &&
            (stop.Some? && PyIndex(stop.value, n).Some? ==>
               forall k :: 0 <= k < |r| ==> if s > 0 then r[k] < PyIndex(stop.value, n).value
                                            else r[k] > PyIndex(stop.value, n).value) &&
            (stop.None? && |r| > 0 ==> if s > 0 then r[|r| - 1] + s >= n else r[|r| - 1] + s < 0)
  {
    var s := step.GetOr(1);
    var lower := if s > 0 then 0 else -1;
    var upper := if s > 0 then n as int else n - 1;
    var first := Adjust(start, n, if s > 0 then lower else upper, lower, upper);
    var last := Adjust(stop, n, if s > 0 then upper else lower, lower, upper);
    var r := Range(first, last, s);
    assert SliceIndices(start, stop, step, n) == Ok(r);
    RangeIsProgression(first, last, s);
    if |r| > 0 {
      assert r[0] == first;
      OneStepFurther(first, s, |r| - 1);
      assert r[|r| - 1] + s == first + |r| * s;
    }
    assert start.Some? && PyIndex(start.value, n).Some? ==> first == PyIndex(start.value, n).value;
    assert stop.Some? && PyIndex(stop.value, n).Some? ==> last == PyIndex(stop.value, n).value;
  }

  /** A slice with a valid stop runs up to it: the step after the last
      selected position would reach or pass the stop, and, when the start is
      valid too, nothing is selected exactly when the start is already at or
      past the stop in the step's direction. */
  lemma SliceReachesStop(start: Option<int>, stop: Option<int>, step: Option<int>, n: nat)
    requires step != Some(0)
    requires stop.Some? && PyIndex(stop.value, n).Some?
    ensures var r := SliceIndices(start, stop, step, n).value;
            var s := step.GetOr(1);
            var b := PyIndex(stop.value, n).value;
            (|r| > 0 ==> if s > 0 then r[|r| - 1] + s >= b else r[|r| - 1] + s <= b) &&
            (start.Some? && PyIndex(start.value, n).Some? ==>
               var a := PyIndex(start.value, n).value;
               (|r| == 0 <==> if s > 0 then a >= b else a <= b))
  {
    var s := step.GetOr(1);
    var lower := if s > 0 then 0 else -1;
    var upper := if s > 0 then n as int else n - 1;
    var first := Adjust(start, n, if s > 0 then lower else upper, lower, upper);
    var last := Adjust(stop, n, if s > 0 then upper else lower, lower, upper);
    var r := Range(first, last, s);
    assert SliceIndices(start, stop, step, n) == Ok(r);
    RangeIsProgression(first, last, s);
    SliceIsProgression(start, stop, step, n);
    if |r| > 0 {
      OneStepFurther(first, s, |r| - 1);
    }
  }

  /** Counting up by one from `start` to `stop` visits every integer in between. */
  lemma {:induction false} RangeUpByOne(start: int, stop: int)
    requires start <= stop
    ensures Range(start, stop, 1) == seq(stop - start, k => start + k)
    decreases stop - start
  {
    if start < stop {
      RangeUpByOne(start + 1, stop);
    }
  }

  /** `[:]` selects every position once, in order. */
  lemma FullSliceIsEveryIndex(n: nat)
    ensures SliceIndices(None, None, None, n) == Ok(seq(n, k => k))
  {
    RangeUpByOne(0, n);
    assert seq(n - 0, k => 0 + k) == seq(n, k => k);
  }

  /** `[::-1]` selects every position once, last first. */
  lemma ReverseSliceIsEveryIndexBackwards(n: nat)
    ensures SliceIndices(None, None, Some(-1), n) == Ok(seq(n, k => n - 1 - k))
  {
    RangeDownByOne(n - 1, -1);
  }

  /** Counting down by one from `start` to `stop` visits every integer in between. */
  lemma {:induction false} RangeDownByOne(start: int, stop: int)
    requires stop <= start
    ensures Range(start, stop, -1) == seq(start - stop, k => start - k)
    decreases start - stop
  {
    if start > stop {
      RangeDownByOne(start - 1, stop);
    }
  }
}
