/** Where the arithmetic of the limiter stays exact: 64-bit nanoseconds in Go
    (internal/limiter/gcra.go), float64 microseconds in Lua (internal/limiter/redis/check.lua).
    Every condition is exact, for every valid limit. */
module Bounds {
  import opened Limits
  import opened Gcra

  const MIN_INT64 := -0x8000_0000_0000_0000

  /* ---------- reachable arrival times ---------- */

  /** What a check stores is at most one tolerance ahead of the clock, and later still is less. */
  lemma StoredTatsAreNear(l: Limit, tat: Time, now: Time, later: Time, cost: nat)
    requires l.count > 0 && l.period > 0 && 0 < cost && now <= later
    ensures GcraCheck(l, tat, now, cost).1.allowed ==> GcraCheck(l, tat, now, cost).0 <= later + Tolerance(l)
  {
    hide Emission;
    hide Tolerance;
  }

  /** A full bucket emptied at once stores exactly that much. */
  lemma EmptiedBucket(l: Limit, now: Time)
    requires Enforceable(l)
    ensures 0 < Capacity(l)
    ensures var (tat, d) := GcraCheck(l, ZERO_TIME, now, Capacity(l));
            d.allowed && tat == now + Tolerance(l)
  {
  }

  /* ---------- 64-bit durations ---------- */

  predicate FitsInt64(x: int) {
    MIN_INT64 <= x <= MAX_INT64
  }

  /** Every duration `gcraCheck` forms, branch by branch. The instants between them are
      `time.Time` values, which have room to spare. */
  predicate DurationsFit(l: Limit, tat: int, now: int, cost: nat)
    requires l.count > 0 && l.period > 0
  {
    var e, tol, t := Emission(l), Tolerance(l), if tat < now then now else tat;
    var next := t + e * cost;
    var allowAt := next - tol;
    && FitsInt64(e) && FitsInt64(tol)
    && (cost == 0 ==> FitsInt64(t - now) && FitsInt64(tol - (t - now)))
    && (cost > 0 ==> FitsInt64(e * cost) && FitsInt64(-tol))
    && (cost > 0 && allowAt > now ==> FitsInt64(t - now) && FitsInt64(tol - (t - now)) && FitsInt64(allowAt - now))
    && (cost > 0 && allowAt <= now ==> FitsInt64(next - now) && FitsInt64(tol - (next - now)))
  }

  lemma ScaleOrder(e: int, a: int, b: int)
    requires e > 0 && a <= b
    ensures e * a <= e * b
  {
    assert e * b == e * a + e * (b - a);
  }

  lemma ProductFitsExactly(e: int, c: int, bound: int)
    requires e > 0 && bound >= 0
    ensures e * c <= bound <==> c <= bound / e
  {
    var q, r := bound / e, bound % e;
    assert bound == e * q + r;
    if c <= q {
      ScaleOrder(e, c, q);
    } else {
      ScaleOrder(e, q + 1, c);
      assert e * (q + 1) == e * q + e;
    }
  }

  lemma ToleranceIs(l: Limit)
    requires Enforceable(l)
    ensures 0 < l.count && 0 < l.period && 0 < Capacity(l)
            && 0 < Emission(l) <= Tolerance(l) == Emission(l) * Capacity(l)
  {
    var e := Emission(l);
    hide Emission;
    ScaleOrder(e, 1, Capacity(l));
  }

  /** If the tolerance fits, so does everything else, for an arrival time at most one tolerance
      ahead and a cost the limit could admit. */
  lemma FitWithTheTolerance(l: Limit, tat: int, now: int, cost: nat)
    requires Enforceable(l) && Tolerance(l) <= MAX_INT64
    requires tat - now <= Tolerance(l) && cost <= Capacity(l)
    ensures DurationsFit(l, tat, now, cost)
  {
    ToleranceIs(l);
    hide Enforceable;
    hide Emission;
    hide Tolerance;
    ScaleOrder(Emission(l), 0, cost);
    ScaleOrder(Emission(l), cost, Capacity(l));
  }

  /** All durations of all reachable checks fit 64-bit nanoseconds if and only if the capacity is
      at most this quotient. `Validate` bounds burst and period separately and does not ensure it. */
  lemma DurationsFitInt64(l: Limit)
    requires Enforceable(l)
    ensures (forall tat: int, now: int, cost: nat :: tat - now <= Tolerance(l) && cost <= Capacity(l) ==>
               DurationsFit(l, tat, now, cost))
            <==> Capacity(l) <= MAX_INT64 / Emission(l)
  {
    ToleranceIs(l);
    hide Enforceable;
    hide Emission;
    hide Tolerance;
    ProductFitsExactly(Emission(l), Capacity(l), MAX_INT64);
    if Tolerance(l) <= MAX_INT64 {
      forall tat: int, now: int, cost: nat | tat - now <= Tolerance(l) && cost <= Capacity(l)
        ensures DurationsFit(l, tat, now, cost)
      {
        FitWithTheTolerance(l, tat, now, cost);
      }
    } else {
      assert !DurationsFit(l, 0, 0, 0);
    }
  }

  /** A burst no larger than the count keeps the tolerance within the period plus one
      rounding quantum per unit. */
  lemma ToleranceNearPeriod(l: Limit)
    requires Enforceable(l) && Capacity(l) <= l.count
    ensures 0 < Tolerance(l) <= l.period + 1_001 * l.count
  {
    EmissionNearQuotient(l);
    ProductBound(Emission(l), Capacity(l), Emission(l), l.count);
    ProductBound(1, 1, Emission(l), Capacity(l));
  }

  /** So the promise holds of every valid limit whose burst does not exceed its count. */
  lemma BurstWithinCountFits(l: Limit)
    requires Enforceable(l) && Capacity(l) <= l.count
    ensures Capacity(l) <= MAX_INT64 / Emission(l)
  {
    ToleranceNearPeriod(l);
    ToleranceIs(l);
    hide Emission;
    ProductFitsExactly(Emission(l), Capacity(l), MAX_INT64);
  }

  /** The 64-bit product Go computes. */
  function WrapInt64(x: int): int {
    var m := x % 0x1_0000_0000_0000_0000;
    if m > MAX_INT64 then m - 0x1_0000_0000_0000_0000 else m
  }

  /** A valid limit whose burst exceeds its count: 1 per day with a burst of 100,000,000. The
      wrapped tolerance grants about 80,000 units of burst instead of 100,000,000. */
  lemma LargeBurstWraps(name: string)
    requires name != "" && !HasDelimiter(name)
    ensures var l := Limit(name, TokenBucket, 1, MAX_PERIOD, MAX_COUNT);
            && Enforceable(l)
            && Tolerance(l) > MAX_INT64
            && WrapInt64(Tolerance(l)) / Emission(l) == 80_136
  {
    var l := Limit(name, TokenBucket, 1, MAX_PERIOD, MAX_COUNT);
    assert Emission(l) == MAX_PERIOD;
  }

  /* ---------- float64 microseconds ---------- */

  predicate Exact(x: int) {
    -TWO_TO_THE_53 < x < TWO_TO_THE_53
  }

  /** Every number the script forms for a token bucket, branch by branch. */
  predicate BucketExact(l: Limit, tat: int, now: int, cost: nat)
    requires l.count > 0 && l.period > 0
  {
    var e, tol, t := Emission(l) / QUANTUM, Tolerance(l) / QUANTUM, if tat < now then now else tat;
    var next := t + e * cost;
    var allowAt := next - tol;
    && Exact(now) && Exact(tat) && Exact(e) && Exact(tol) && Exact(t - now) && Exact(tol - (t - now))
    && (cost > 0 ==> Exact(e * cost) && Exact(next) && Exact(allowAt))
    && (cost > 0 && allowAt > now ==> Exact(allowAt - now))
    && (cost > 0 && allowAt <= now ==> Exact(next - now) && Exact(tol - (next - now)))
  }

  lemma BucketStaysExact(l: Limit, tat: nat, now: nat, cost: nat)
    requires Enforceable(l) && now + 2 * (Tolerance(l) / QUANTUM) < TWO_TO_THE_53
    requires tat <= now + Tolerance(l) / QUANTUM && cost <= Capacity(l)
    ensures BucketExact(l, tat, now, cost)
  {
    MicrosecondsAreExact(l);
    ToleranceIs(l);
    hide Enforceable;
    hide Emission;
    hide Tolerance;
    var e := Emission(l) / QUANTUM;
    ScaleOrder(e, 0, cost);
    ScaleOrder(e, cost, Capacity(l));
    ScaleOrder(e, 1, Capacity(l));
  }

  /** Every number of every reachable bucket check stays below 2^53 if and only if now leaves room
      for two tolerances: one that is owed, and one that is asked for. */
  lemma BucketNumbersStayExact(l: Limit, now: nat)
    requires Enforceable(l)
    ensures (forall tat: nat, cost: nat :: tat <= now + Tolerance(l) / QUANTUM && cost <= Capacity(l) ==>
               BucketExact(l, tat, now, cost))
            <==> now + 2 * (Tolerance(l) / QUANTUM) < TWO_TO_THE_53
  {
    MicrosecondsAreExact(l);
    ToleranceIs(l);
    hide Enforceable;
    hide Emission;
    hide Tolerance;
    var tol := Tolerance(l) / QUANTUM;
    if now + 2 * tol < TWO_TO_THE_53 {
      forall tat: nat, cost: nat | tat <= now + tol && cost <= Capacity(l)
        ensures BucketExact(l, tat, now, cost)
      {
        BucketStaysExact(l, tat, now, cost);
      }
    } else {
      assert !BucketExact(l, now + tol, now, Capacity(l));
    }
  }

  /** Every number the script forms for a sliding window that holds `used` live entries, one of
      them at `score`. */
  predicate WindowExact(l: Limit, score: int, used: int, now: int, cost: nat) {
    var period, count := l.period / QUANTUM, l.count;
    && Exact(now) && Exact(now - period) && Exact(count - used) && Exact(used + cost)
    && Exact(used + cost - count - 1) && Exact(count - used - cost)
    && Exact(score) && Exact(score + period) && Exact(score + period - now)
  }

  /** A score the script may read: a live entry, or the one it is adding. */
  predicate Readable(l: Limit, score: int, now: int) {
    score == now || now - l.period / QUANTUM < score <= now
  }

  /** Every number of every window check stays below 2^53 if and only if now leaves room for one
      period. */
  lemma WindowNumbersStayExact(l: Limit, now: nat)
    requires Enforceable(l) && l.algorithm.SlidingWindow?
    ensures (forall score: nat, used: nat, cost: nat ::
               Readable(l, score, now) && used <= l.count && cost <= l.count ==>
                 WindowExact(l, score, used, now, cost))
            <==> now + l.period / QUANTUM < TWO_TO_THE_53
  {
    if now + l.period / QUANTUM >= TWO_TO_THE_53 {
      assert Readable(l, now, now) && !WindowExact(l, now, 0, now, 0);
    }
  }

  /* ---------- the year in which they run out ---------- */

  const DAY_MICROS := 86_400_000_000

  /** Days from 1970-01-01 to the first of January of a year of the Gregorian calendar. */
  function DaysBefore(year: nat): int
    requires year >= 1970
  {
    365 * (year - 1970) + (year - 1969) / 4 - (year - 1901) / 100 + (year - 1601) / 400
  }

  /** Between 2^53 and 2^54 float64 holds the even integers only. */
  predicate IsDouble(x: nat)
    requires x <= 2 * TWO_TO_THE_53
  {
    x <= TWO_TO_THE_53 || x % 2 == 0
  }

  /** In 2255, one microsecond into the fifth of June, the first request ever made against one per
      day stores an arrival time float64 cannot hold. */
  lemma InexactIn2255(name: string)
    requires name != "" && !HasDelimiter(name)
    ensures var l, day := Limit(name, TokenBucket, 1, MAX_PERIOD, 0), 104_249;
            var now := day * DAY_MICROS + 1;
            var next := now + Emission(l) / QUANTUM * 1;
            && DaysBefore(2255) <= day < DaysBefore(2256) && day == DaysBefore(2255) + 31 + 28 + 31 + 30 + 31 + 4
            && Enforceable(l) && Capacity(l) == 1
            && TWO_TO_THE_53 < next <= 2 * TWO_TO_THE_53 && !IsDouble(next)
            && !BucketExact(l, 0, now, 1)
  {
    var l := Limit(name, TokenBucket, 1, MAX_PERIOD, 0);
    assert Emission(l) == MAX_PERIOD;
  }
}
