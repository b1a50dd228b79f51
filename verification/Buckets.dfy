/** Analytics buckets: analyticsBuckets of internal/database/analytics_read_repository.go, and the date_trunc and
    generate_series of the SQL form, in a UTC session. */
module Buckets {
  import opened Common

  datatype Interval = Day | Week

  const DAY: int := 86_400_000_000

  function Width(interval: Interval): (w: int)
    ensures w > 0
  {
    match interval
    case Day => DAY
    case Week => 7 * DAY
  }

  /** Days since the epoch; instants before it have negative ones. */
  function DayOf(t: Time): int {
    t / DAY
  }

  /** Days passed since Monday; the epoch is a Thursday. */
  function SinceMonday(day: int): (n: int)
    ensures 0 <= n < 7
  {
    (day + 3) % 7
  }

  /** date_trunc */
  function StartOf(interval: Interval, t: Time): Time {
    match interval
    case Day => DayOf(t) * DAY
    case Week => (DayOf(t) - SinceMonday(DayOf(t))) * DAY
  }

  /** The epoch was a Thursday, its week began three days earlier, and the next Monday was the fifth of January. */
  lemma EpochWeek(t: Time)
    ensures 0 <= t < 24 * 60 * 60 * 1_000_000 ==> StartOf(Day, t) == 0
    ensures -3 * 24 * 60 * 60 * 1_000_000 <= t < 4 * 24 * 60 * 60 * 1_000_000 ==>
      StartOf(Week, t) == -3 * 24 * 60 * 60 * 1_000_000
    ensures Width(Day) == 24 * 60 * 60 * 1_000_000 && Width(Week) == 7 * Width(Day)
  {
  }

  predicate Aligned(interval: Interval, t: Time) {
    StartOf(interval, t) == t
  }

  lemma DayBounds(t: Time)
    ensures DayOf(t) * DAY <= t < DayOf(t) * DAY + DAY
    ensures DayOf(DayOf(t) * DAY) == DayOf(t)
  {
  }

  /** The bucket of an instant starts at or before it, less than a width away. */
  lemma StartBounds(interval: Interval, t: Time)
    ensures StartOf(interval, t) <= t < StartOf(interval, t) + Width(interval)
    ensures Aligned(interval, StartOf(interval, t))
  {
    DayBounds(t);
    if interval == Week {
      var monday := DayOf(t) - SinceMonday(DayOf(t));
      assert DayOf(monday * DAY) == monday;
      assert SinceMonday(monday) == 0;
    }
  }

  /** Buckets touch. */
  lemma AlignedSteps(interval: Interval, a: Time, t: Time)
    requires Aligned(interval, a)
    ensures Aligned(interval, a + Width(interval))
    ensures a <= t < a + Width(interval) <==> StartOf(interval, t) == a
  {
    DayBounds(a);
    DayBounds(t);
    StartBounds(interval, t);
    var day := DayOf(a);
    assert a == day * DAY;
    match interval {
      case Day => assert DayOf(a + DAY) == day + 1;
      case Week =>
        assert DayOf(a + 7 * DAY) == day + 7;
        assert SinceMonday(day) == 0;
        if a <= t < a + 7 * DAY {
          assert day <= DayOf(t) < day + 7;
          assert SinceMonday(DayOf(t)) == DayOf(t) - day;
        }
    }
  }

  /** generate_series */
  function Series(first: Time, last: Time, step: int): (points: seq<Time>)
    requires step > 0
    decreases if first <= last then last - first + 1 else 0
  {
    if first > last then [] else [first] + Series(first + step, last, step)
  }

  function SqlBuckets(interval: Interval, from: Time, to: Time): seq<Time> {
    Series(StartOf(interval, from), StartOf(interval, to - 1), Width(interval))
  }

  /** The points of the series are the aligned instants between its ends. */
  lemma {:induction false} SeriesPoints(interval: Interval, first: Time, last: Time, t: Time)
    requires Aligned(interval, first)
    ensures t in Series(first, last, Width(interval)) <==> Aligned(interval, t) && first <= t <= last
    decreases if first <= last then last - first + 1 else 0
  {
    if first <= last {
      AlignedSteps(interval, first, t);
      SeriesPoints(interval, first + Width(interval), last, t);
    }
  }

  predicate Increasing(points: seq<Time>) {
    forall i, j :: 0 <= i < j < |points| ==> points[i] < points[j]
  }

  lemma {:induction false} SeriesIncreases(interval: Interval, first: Time, last: Time)
    requires Aligned(interval, first)
    ensures Increasing(Series(first, last, Width(interval)))
    decreases if first <= last then last - first + 1 else 0
  {
    if first <= last {
      AlignedSteps(interval, first, first);
      SeriesIncreases(interval, first + Width(interval), last);
      var points, rest := Series(first, last, Width(interval)), Series(first + Width(interval), last, Width(interval));
      assert points == [first] + rest;
      forall j | 0 <= j < |rest| ensures first < rest[j] {
        SeriesPoints(interval, first + Width(interval), last, rest[j]);
      }
      assert Increasing(rest);
      forall i, j | 0 <= i < j < |points| ensures points[i] < points[j] {
        assert points[j] == rest[j - 1];
        if i > 0 { assert points[i] == rest[i - 1]; }
      }
    }
  }

  lemma BucketPoints(interval: Interval, from: Time, to: Time, t: Time)
    ensures t in SqlBuckets(interval, from, to) <==> Aligned(interval, t) && StartOf(interval, from) <= t < to
  {
    StartBounds(interval, from);
    StartBounds(interval, to - 1);
    SeriesPoints(interval, StartOf(interval, from), StartOf(interval, to - 1), t);
    if Aligned(interval, t) { AlignedSteps(interval, t, to - 1); }
    if Aligned(interval, t) && t < to {
      StartOrder(interval, t, to - 1);
    }
  }

  lemma StartOrder(interval: Interval, a: Time, t: Time)
    requires Aligned(interval, a) && a <= t
    ensures a <= StartOf(interval, t)
  {
    StartBounds(interval, t);
    if StartOf(interval, t) < a { AlignedSteps(interval, StartOf(interval, t), a); }
  }

  /** Buckets are in order and apart, start on UTC midnights, on Mondays for weeks, and every instant of the range
      lies in exactly one of them, which is the one its date_trunc names. */
  lemma BucketsPartition(interval: Interval, from: Time, to: Time)
    ensures Increasing(SqlBuckets(interval, from, to))
    ensures forall p <- SqlBuckets(interval, from, to) ::
              p % DAY == 0 && (interval == Week ==> SinceMonday(DayOf(p)) == 0)
    ensures forall t :: from <= t < to ==> StartOf(interval, t) in SqlBuckets(interval, from, to)
    ensures forall t, p :: p in SqlBuckets(interval, from, to) ==>
              (p <= t < p + Width(interval) <==> p == StartOf(interval, t))
  {
    var points := SqlBuckets(interval, from, to);
    StartBounds(interval, from);
    SeriesIncreases(interval, StartOf(interval, from), StartOf(interval, to - 1));
    forall p <- points ensures p % DAY == 0 && (interval == Week ==> SinceMonday(DayOf(p)) == 0) {
      BucketPoints(interval, from, to, p);
      AlignedOnMidnight(interval, p);
    }
    forall t | from <= t < to ensures StartOf(interval, t) in points {
      StartBounds(interval, t);
      StartOrder(interval, StartOf(interval, from), t);
      BucketPoints(interval, from, to, StartOf(interval, t));
    }
    forall t, p | p in points ensures p <= t < p + Width(interval) <==> p == StartOf(interval, t) {
      BucketPoints(interval, from, to, p);
      AlignedSteps(interval, p, t);
    }
  }

  lemma AlignedOnMidnight(interval: Interval, p: Time)
    requires Aligned(interval, p)
    ensures p % DAY == 0 && (interval == Week ==> SinceMonday(DayOf(p)) == 0)
  {
    if interval == Week {
      var monday := DayOf(p) - SinceMonday(DayOf(p));
      assert p == monday * DAY;
      assert DayOf(p) == monday;
    }
  }

  // ---- The Go form ----

  /** Go's % takes the sign of its left operand. */
  function Remainder(a: int, b: int): int
    requires b > 0
  {
    if a >= 0 then a % b else -((-a) % b)
  }

  lemma RemainderTruncates(a: int, b: int) returns (q: int)
    requires b > 0
    ensures a == q * b + Remainder(a, b)
    ensures if a >= 0 then 0 <= Remainder(a, b) < b else -b < Remainder(a, b) <= 0
  {
    q := if a >= 0 then a / b else -((-a) / b);
  }

  /** Sunday is 0. */
  function Weekday(t: Time): int {
    (DayOf(t) + 4) % 7
  }

  /** The unary minus binds first, and still the step goes back to Monday. */
  lemma BackToMonday(t: Time)
    ensures Remainder(-(Weekday(t) + 6), 7) == -SinceMonday(DayOf(t))
  {
  }

  /** For every range, also an empty or reversed one, the loop makes the buckets of the SQL form. */
  method AnalyticsBuckets(interval: Interval, from: Time, to: Time) returns (points: seq<Time>)
    ensures points == SqlBuckets(interval, from, to)
  {
    var start := DayOf(from) * DAY;
    DayBounds(from);
    if interval == Week {
      BackToMonday(start);
      start := start + Remainder(-(Weekday(start) + 6), 7) * DAY;
    }
    StartBounds(interval, from);
    assert start == StartOf(interval, from);
    ghost var first, last, step := start, StartOf(interval, to - 1), Width(interval);
    points := [];
    assert [] + Series(first, last, step) == Series(first, last, step);
    while start < to
      invariant Aligned(interval, start) && step == Width(interval)
      invariant points + Series(start, last, step) == Series(first, last, step)
    {
      StartOrder(interval, start, to - 1);
      AlignedSteps(interval, start, start);
      var rest := Series(start + step, last, step);
      assert points + [start] + rest == points + ([start] + rest);
      points := points + [start];
      start := start + (match interval case Day => DAY case Week => 7 * DAY);
    }
    StartBounds(interval, to - 1);
    assert Series(start, last, step) == [];
    assert points + [] == points;
  }
}
