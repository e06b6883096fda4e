/** The date-grid enumerator (`daterange`, experiments/src/run_grid.py:11-16).
    Calendar dates are represented by their proleptic Gregorian day ordinals, as
    Python's `date.toordinal` numbers them: 0001-01-01 is day 1 and 9999-12-31,
    the largest date Python can represent, is day 3652059. */
module DateGrid {

  /** Day ordinal of `date.min` (0001-01-01). */
  const MinOrdinal: int := 1
  /** Day ordinal of `date.max` (9999-12-31). */
  const MaxOrdinal: int := 3652059

  /** A date that Python's `date` type can hold. */
  type Ordinal = d: int | MinOrdinal <= d <= MaxOrdinal witness MinOrdinal

  /** The dates the generator yields, in order: `start`, `start + stride`, ... up to and
      including `end`. */
  function Dates(start: Ordinal, end: Ordinal, stride: int): (r: seq<Ordinal>)
    requires stride > 0
    ensures r == [] <==> start > end
    ensures r != [] ==> r[0] == start
    decreases end - start
  {
    if start > end then []
    else if start + stride > end then [start]
    else [start] + Dates(start + stride, end, stride)
  }

  /** The generator raises `OverflowError` once it has yielded its last date: stepping from
      that date by `stride` leaves the range of Python dates. */
  predicate Overflows(start: Ordinal, end: Ordinal, stride: int)
    requires stride > 0
  {
    var ds := Dates(start, end, stride);
    ds != [] && ds[|ds| - 1] + stride > MaxOrdinal
  }

  /** The closed form of the enumeration: the i-th date is `start + i * stride`, there are
      `(end - start) / stride + 1` of them when `start <= end`, and one more step would pass
      `end`. */
  lemma DatesClosedForm(start: Ordinal, end: Ordinal, stride: int)
    requires stride > 0
    ensures var r := Dates(start, end, stride);
      && (start <= end ==> |r| == (end - start) / stride + 1)
      && (forall i :: 0 <= i < |r| ==> r[i] == start + i * stride && r[i] <= end)
      && (r != [] ==> r[|r| - 1] + stride > end)
  {
    DatesCount(start, end, stride);
    DatesElements(start, end, stride);
  }

  /** How many dates the generator yields. */
  lemma {:induction false} DatesCount(start: Ordinal, end: Ordinal, stride: int)
    requires stride > 0
    ensures start <= end ==> |Dates(start, end, stride)| == (end - start) / stride + 1
    decreases end - start
  {
    if start <= end {
      if start + stride > end {
        assert (end - start) / stride == 0;
      } else {
        DatesCount(start + stride, end, stride);
        DivStep(end - start, stride);
      }
    }
  }

  /** Which dates the generator yields: the i-th is `start + i * stride`, none passes `end`,
      and the step after the last one does. */
  lemma {:induction false} DatesElements(start: Ordinal, end: Ordinal, stride: int)
    requires stride > 0
    ensures var r := Dates(start, end, stride);
      && (forall i :: 0 <= i < |r| ==> r[i] == start + i * stride && r[i] <= end)
      && (r != [] ==> r[|r| - 1] + stride > end)
    decreases end - start
  {
    var r := Dates(start, end, stride);
    if start <= end && start + stride <= end {
      var next: Ordinal := start + stride;
      DatesElements(next, end, stride);
      var rest := Dates(next, end, stride);
      assert r == [start] + rest;
      forall i | 0 <= i < |r|
        ensures r[i] == start + i * stride && r[i] <= end
      {
        if i > 0 {
          assert r[i] == rest[i - 1] == next + (i - 1) * stride;
          assert (i - 1) * stride == i * stride - stride;
        }
      }
    }
  }

  /** One step of the count: removing one stride removes one date. */
  lemma DivStep(x: int, y: int)
    requires y > 0 && x >= y
    ensures (x - y) / y == x / y - 1
  {
    var q, m := x / y, x % y;
    assert x == y * q + m && 0 <= m < y;
    assert x - y == y * (q - 1) + m;
    DivUnique(x - y, y, q - 1, m);
  }

  /** Euclidean division has a unique quotient. */
  lemma DivUnique(x: int, y: int, q: int, m: int)
    requires y > 0 && 0 <= m < y && x == y * q + m
    ensures x / y == q
  {
    var q', m' := x / y, x % y;
    assert y * q + m == y * q' + m';
    if q > q' {
      assert (q - q') * y == y * q - y * q';
      MulAtLeast(q - q', y);
    } else if q < q' {
      assert (q' - q) * y == y * q' - y * q;
      MulAtLeast(q' - q, y);
    }
  }

  /** A positive multiple of `b` is at least `b`. */
  lemma {:induction false} MulAtLeast(a: int, b: int)
    requires a >= 1 && b >= 0
    ensures a * b >= b
    decreases a
  {
    if a > 1 {
      MulAtLeast(a - 1, b);
      assert a * b == (a - 1) * b + b;
    }
  }

  /** Consecutive yielded dates differ by exactly `stride`, so the dates strictly increase. */
  lemma ConsecutiveDates(start: Ordinal, end: Ordinal, stride: int, i: int)
    requires stride > 0
    requires 0 <= i < |Dates(start, end, stride)| - 1
    ensures Dates(start, end, stride)[i + 1] == Dates(start, end, stride)[i] + stride
  {
    DatesClosedForm(start, end, stride);
    var r := Dates(start, end, stride);
    assert r[i + 1] == start + (i + 1) * stride;
    assert (i + 1) * stride == i * stride + stride;
  }

  /** The yielded dates are pairwise distinct: a later date is strictly larger. */
  lemma DatesStrictlyIncrease(start: Ordinal, end: Ordinal, stride: int, i: int, j: int)
    requires stride > 0
    requires 0 <= i < j < |Dates(start, end, stride)|
    ensures Dates(start, end, stride)[i] < Dates(start, end, stride)[j]
  {
    DatesClosedForm(start, end, stride);
    var r := Dates(start, end, stride);
    assert r[i] == start + i * stride;
    assert r[j] == start + j * stride;
    MulAtLeast(j - i, stride);
    assert (j - i) * stride == j * stride - i * stride;
  }

  /** The generator raises exactly when the step after the last date `<= end` passes
      `date.max`; so it never raises when `end + stride` is still a Python date. */
  lemma OverflowCondition(start: Ordinal, end: Ordinal, stride: int)
    requires stride > 0
    ensures Overflows(start, end, stride) <==>
      start <= end && start + ((end - start) / stride) * stride + stride > MaxOrdinal
    ensures end + stride <= MaxOrdinal ==> !Overflows(start, end, stride)
  {
    DatesClosedForm(start, end, stride);
  }

  /** With end = 9999-12-31 and a one-day stride, the generator yields that date and then
      raises. */
  lemma OverflowAtCalendarEnd()
    ensures Dates(MaxOrdinal, MaxOrdinal, 1) == [MaxOrdinal]
    ensures Overflows(MaxOrdinal, MaxOrdinal, 1)
  {
  }

  /** One turn of the generator's loop: the date `d` moves from the dates still to come to
      the dates yielded. */
  lemma YieldStep(start: Ordinal, end: Ordinal, stride: int, d: Ordinal, days: seq<Ordinal>, rest: seq<Ordinal>)
    requires stride > 0 && d <= end
    requires days + rest == Dates(start, end, stride)
    requires rest == Dates(d, end, stride)
    ensures (days + [d]) + rest[1..] == Dates(start, end, stride)
    ensures rest[1..] == if d + stride <= end then Dates(d + stride, end, stride) else []
  {
    assert rest == [d] + (if d + stride <= end then Dates(d + stride, end, stride) else []);
    assert days + rest == (days + [d]) + rest[1..];
  }

  /** `daterange` as written: the cursor `d` starts at `start` and, while `d <= end`, the
      generator yields `d` and then advances it by `stride` days, which raises `OverflowError`
      when the new date would pass `date.max`. Returns the yielded dates and whether the
      walk ended by raising. */
  method DateRange(start: Ordinal, end: Ordinal, stride: int) returns (days: seq<Ordinal>, overflow: bool)
    requires stride > 0
    ensures days == Dates(start, end, stride)
    ensures overflow == Overflows(start, end, stride)
  {
    var d: Ordinal := start;
    days, overflow := [], false;
    ghost var rest := Dates(start, end, stride);
    while d <= end
      invariant days + rest == Dates(start, end, stride)
      invariant rest == if d <= end then Dates(d, end, stride) else []
      invariant days != [] ==> days[|days| - 1] + stride == d
      decreases end - d
    {
      YieldStep(start, end, stride, d, days, rest);
      days, rest := days + [d], rest[1..];
      if d + stride > MaxOrdinal {
        overflow := true;
        return;
      }
      d := d + stride;
    }
  }
}
