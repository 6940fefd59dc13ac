// The synchronized start of a time stream (libp2p/schedule/time.go).  Times and
// durations are nanoseconds; a duration is an int64.
module Schedule {
  import opened Bits

  const MAX: int := 0x7fff_ffff_ffff_ffff
  const MIN: int := -0x8000_0000_0000_0000

  // Integer division of Go: truncated toward zero.
  function TruncDiv(a: int, b: int): int
    requires b > 0
  {
    if a >= 0 then a / b else -((-a) / b)
  }

  // Time.Sub saturates at the ends of the duration range.
  function Sub(t: int, u: int): int
  {
    if t - u > MAX then MAX else if t - u < MIN then MIN else t - u
  }

  // A number of intervals as a duration, in int64 arithmetic.
  function Span(times: int, interval: int): int
  {
    Int64(Int64(times) * interval)
  }

  // `times * interval` for a distance `total`.
  function Skip(total: int, interval: int): int
    requires interval > 0
  {
    Span(TruncDiv(total, interval) * -1, interval)
  }

  // The start time TimeStream computes for a given start and current time.
  function StartTime(start: int, now: int, interval: int): int
    requires interval > 0
  {
    var diff := Sub(start, now);
    if diff < 0 then start + Skip(Int64(diff - interval), interval) else start
  }

  // r is the first point of the grid { start + k * interval } after now.
  ghost predicate FirstAfter(start: int, now: int, interval: int, r: int)
  {
    now < r <= now + interval && exists k: int :: r == start + k * interval
  }

  // ---- Arithmetic ----

  lemma MulMonotone(a: int, b: int, d: int)
    requires a <= b && d > 0
    ensures a * d <= b * d
  {
  }

  lemma QuotientBounds(x: int, d: int)
    requires d > 0
    ensures (x / d) * d <= x < (x / d) * d + d
    ensures (x / d) * d == x - x % d
    ensures (x / d + 1) * d == (x / d) * d + d
  {
  }

  lemma QuotientSign(x: int, d: int)
    requires d > 0 && x >= 0
    ensures x / d >= 0
  {
    QuotientBounds(x, d);
    if x / d < 0 { MulMonotone(x / d, -1, d); }
  }

  lemma QuotientUnique(x: int, d: int, q: int)
    requires d > 0 && q * d <= x < q * d + d
    ensures x / d == q
  {
    var p := x / d;
    QuotientBounds(x, d);
    assert (q + 1) * d == q * d + d;
    if p < q {
      MulMonotone(p + 1, q, d);
    } else if p > q {
      MulMonotone(q + 1, p, d);
    }
  }

  // ---- The grid ----

  // There is one first point, given by the cell that holds now.
  lemma FirstIsNextCell(start: int, now: int, interval: int, r: int)
    requires interval > 0
    ensures FirstAfter(start, now, interval, r) <==> r == start + ((now - start) / interval + 1) * interval
  {
    var c := (now - start) / interval;
    QuotientBounds(now - start, interval);
    if r == start + (c + 1) * interval {
      assert FirstAfter(start, now, interval, r);
    }
    if FirstAfter(start, now, interval, r) {
      var k: int :| r == start + k * interval;
      assert (k - 1) * interval == k * interval - interval;
      QuotientUnique(now - start, interval, k - 1);
    }
  }

  // It is the least point of the grid after now.
  lemma FirstIsLeast(start: int, now: int, interval: int, r: int, k: int)
    requires interval > 0 && FirstAfter(start, now, interval, r) && start + k * interval > now
    ensures r <= start + k * interval
  {
    FirstIsNextCell(start, now, interval, r);
    var c := (now - start) / interval;
    QuotientBounds(now - start, interval);
    if k <= c { MulMonotone(k, c, interval); } else { MulMonotone(c + 1, k, interval); }
  }

  // ---- The computed start ----

  // Skipping over a past distance x: the multiple of the interval just below
  // x, unless that is 2^63 and wraps around.
  lemma SkipPast(x: int, interval: int, q: int, p: int)
    requires 0 < interval && 0 < x <= -MIN && q == x / interval && p == q * interval
    ensures Skip(-x, interval) == if p < -MIN then p else MIN
  {
    QuotientBounds(x, interval);
    QuotientSign(x, interval);
    SpanOf(q, interval, p);
    SkipIsSpan(x, interval, q);
  }

  lemma SkipIsSpan(x: int, interval: int, q: int)
    requires 0 < interval && 0 < x && q == x / interval
    ensures Skip(-x, interval) == Span(q, interval)
  {
    var t := TruncDiv(-x, interval) * -1;
    assert t == q;
  }

  lemma SpanOf(q: int, interval: int, p: int)
    requires 0 <= q && 0 < interval && p == q * interval && p <= -MIN
    ensures Span(q, interval) == if p < -MIN then p else MIN
  {
    SmallQuotient(q, interval);
    if q == -MIN {
      Squeeze(q, interval, p);
      assert Int64(q) == MIN;
    } else {
      assert Int64(q) == q;
    }
  }

  lemma SmallQuotient(q: int, d: int)
    requires q >= 0 && d > 0
    ensures q <= q * d
  {
  }

  // A quotient as large as the number itself means division by one.
  lemma Squeeze(q: int, d: int, x: int)
    requires d > 0 && q > 0 && q * d <= x <= q
    ensures d == 1
  {
    if d > 1 { MulMonotone(2, d, q); }
  }

  // Skipping over a distance that has wrapped to a positive number goes back.
  lemma SkipBack(total: int, interval: int)
    requires 0 < interval && 0 <= total <= MAX
    ensures Skip(total, interval) <= 0
  {
    var q := total / interval;
    QuotientBounds(total, interval);
    SmallQuotient(q, interval);
    assert TruncDiv(total, interval) * -1 == -q;
    assert (-q) * interval == -(q * interval);
  }

  // No intermediate duration leaves the int64 range.
  predicate Fits(start: int, now: int, interval: int)
    requires interval > 0
  {
    now - start + interval <= MAX || (now - start + interval == -MIN && -MIN % interval != 0)
  }

  lemma StartTimeIsSkip(start: int, now: int, interval: int)
    requires 0 < interval <= MAX && start < now && now - start + interval <= -MIN
    ensures StartTime(start, now, interval) == start + Skip(-(now - start + interval), interval)
  {
    hide Skip;
    hide Int64;
    assert Sub(start, now) == start - now;
    Int64InRange(start - now - interval);
    assert start - now - interval == -(now - start + interval);
  }

  // Past the range the start time moves backwards.
  lemma Overflowed(start: int, now: int, interval: int)
    requires 0 < interval <= MAX && now - start + interval > -MIN
    ensures StartTime(start, now, interval) <= start
  {
    var total := Int64(Sub(start, now) - interval);
    assert Sub(start, now) < 0;
    assert total > 0;
    SkipBack(total, interval);
  }

  // For a start in the past the computed time is the first grid point after
  // now exactly when the distance fits the duration type.
  lemma StartTimeIff(start: int, now: int, interval: int)
    requires 0 < interval <= MAX && start < now
    ensures FirstAfter(start, now, interval, StartTime(start, now, interval)) <==> Fits(start, now, interval)
  {
    var x := now - start + interval;
    if x <= -MIN {
      StartTimeIsSkip(start, now, interval);
      SkipPast(x, interval, x / interval, (x / interval) * interval);
      QuotientBounds(x, interval);
      QuotientBounds(now - start, interval);
      QuotientUnique(x, interval, (now - start) / interval + 1);
      FirstIsNextCell(start, now, interval, StartTime(start, now, interval));
    } else {
      Overflowed(start, now, interval);
    }
  }

  // A start that is not in the past is used unchanged.
  lemma FutureStart(start: int, now: int, interval: int)
    requires 0 < interval && start >= now
    ensures StartTime(start, now, interval) == start
  {
  }

  // A zero start is replaced by the current time rounded down (Time.Truncate).
  function Truncate(t: int, interval: int): int
    requires interval > 0
  {
    t - t % interval
  }

  // The last multiple of the interval that is not in the future.
  lemma TruncateIsLast(t: int, interval: int)
    requires interval > 0
    ensures Truncate(t, interval) <= t < Truncate(t, interval) + interval
    ensures exists k: int :: Truncate(t, interval) == k * interval
  {
    QuotientBounds(t, interval);
    assert Truncate(t, interval) == (t / interval) * interval;
  }

  // Then the grid is the multiples of the interval, the same for all nodes.
  lemma ZeroStart(early: int, now: int, interval: int)
    requires 0 < interval <= MAX && Truncate(early, interval) < now && Fits(Truncate(early, interval), now, interval)
    ensures FirstAfter(0, now, interval, StartTime(Truncate(early, interval), now, interval))
  {
    var start := Truncate(early, interval);
    var q := early / interval;
    QuotientBounds(early, interval);
    StartTimeIff(start, now, interval);
    var r := StartTime(start, now, interval);
    var k: int :| r == start + k * interval;
    assert (q + k) * interval == q * interval + k * interval;
    assert r == 0 + (q + k) * interval;
  }

  // Two nodes fire at the same instant exactly when they start within the same
  // cell of the grid.
  lemma SameCellSameStart(start: int, now1: int, now2: int, interval: int)
    requires 0 < interval <= MAX && start < now1 && start < now2
    requires Fits(start, now1, interval) && Fits(start, now2, interval)
    ensures StartTime(start, now1, interval) == StartTime(start, now2, interval)
       <==> (now1 - start) / interval == (now2 - start) / interval
  {
    StartTimeIff(start, now1, interval);
    StartTimeIff(start, now2, interval);
    FirstIsNextCell(start, now1, interval, StartTime(start, now1, interval));
    FirstIsNextCell(start, now2, interval, StartTime(start, now2, interval));
    var a, b := (now1 - start) / interval, (now2 - start) / interval;
    if a < b { MulMonotone(a + 2, b + 1, interval); }
    if b < a { MulMonotone(b + 2, a + 1, interval); }
    assert (a + 2) * interval == (a + 1) * interval + interval;
    assert (b + 2) * interval == (b + 1) * interval + interval;
  }
}
