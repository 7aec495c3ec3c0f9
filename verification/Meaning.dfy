/** What the limiter's configuration and its reported numbers mean, in their own terms: a limit's
    fields, the costs it admits, the instants at which that changes. */
module Meaning {
  import opened Limits
  import opened Gcra
  import opened Bounds
  import opened Windows
  import opened Limiter
  import opened Runs
  import opened Parts

  /* ---------- burst and count ---------- */

  /** A valid token bucket gives out, in any interval [s, t] of any run, at most its burst and what
      count per period refills in that time; without a burst of its own, its count takes that place. */
  lemma ConfiguredQuota(ops: seq<Op>, tenant: string, l: Limit, s: int, t: int)
    requires Timely(ZERO_TIME, ops) && s <= t && Enforceable(l) && l.algorithm.TokenBucket?
    ensures var units := Admitted(ops, Answers(EMPTY, ops), KeyOf(tenant, l), s - 1, t);
            && (l.burst > 0 ==> units * l.period <= l.burst * l.period + (t - s) * l.count)
            && (l.burst == 0 ==> units * l.period <= l.count * l.period + (t - s) * l.count)
  {
    var k := KeyOf(tenant, l);
    assert k.algorithm.TokenBucket? && k.count == l.count > 0 && k.period == l.period > 0;
    assert k.capacity == if l.burst > 0 then l.burst else l.count;
    hide *;
    TokenBucketQuota(ops, k, s, t);
  }

  /** With no counter yet, one limit admits exactly the costs up to its burst, or up to its count
      when it has no burst of its own; a larger cost is an error that names it. */
  lemma EmptyCounterAdmits(st: Store, tenant: string, l: Limit, cost: int, now: Time)
    requires Enforceable(l) && cost > 0 && KeyOf(tenant, l) !in st.gcra && KeyOf(tenant, l) !in st.windows
    ensures var told := Check(st, Request(tenant, [l], cost, false, 0, 0), now).0;
            var most := if l.algorithm.TokenBucket? && l.burst > 0 then l.burst else l.count;
            if cost <= most then told.Answer? && told.result.allowed else told == CostExceedsCapacity(l.name)
  {
    var req := Request(tenant, [l], cost, false, 0, 0);
    assert EffectiveCost(req) == cost && Preflight(req.limits, cost).None? == (cost <= Capacity(l));
    assert l.burst >= 0;
    if cost <= Capacity(l) {
      FreshCounterAllows(st, tenant, l, now, cost);
      hide Judge;
      hide Charge;
      assert Judgements(st, req, now) == [Judge(st, tenant, l, now, cost)];
    } else {
      StoppedByTheFirst(req.limits, cost, 0);
    }
  }

  lemma FreshCounterAllows(st: Store, tenant: string, l: Limit, now: Time, cost: nat)
    requires Enforceable(l) && cost <= Capacity(l) && KeyOf(tenant, l) !in st.gcra && KeyOf(tenant, l) !in st.windows
    ensures Judge(st, tenant, l, now, cost).allowed
  {
    ProductBound(Emission(l), cost, Emission(l), Capacity(l));
    hide Emission;
  }

  /* ---------- Remaining ---------- */

  lemma BucketRemaining(l: Limit, tat: Time, now: Time, cost: nat)
    requires Enforceable(l) && 0 < cost <= Capacity(l)
    ensures GcraCheck(l, tat, now, cost).1.allowed <==> cost <= GcraCheck(l, tat, now, 0).1.remaining
  {
    var free := Tolerance(l) - (Later(tat, now) - now);
    hide Tolerance;
    hide Emission;
    if free >= 0 {
      ProductFitsExactly(Emission(l), cost, free);
    } else {
      ProductBound(Emission(l), 0, Emission(l), cost);
    }
  }

  lemma WindowRemaining(l: Limit, log: seq<Time>, now: Time, cost: nat)
    requires 0 < l.count && 0 < cost <= l.count
    ensures WindowVerdict(l, log, now, cost).1.allowed <==> cost <= WindowVerdict(l, log, now, 0).1.remaining
  {
  }

  /** What a limit reports as remaining is the largest cost it would admit at that instant. */
  lemma RemainingIsTheLargestCost(st: Store, tenant: string, l: Limit, now: Time, cost: nat)
    requires Enforceable(l) && 0 < cost <= Capacity(l)
    ensures Judge(st, tenant, l, now, cost).allowed <==> cost <= Judge(st, tenant, l, now, 0).remaining
  {
    var k := KeyOf(tenant, l);
    if l.algorithm.TokenBucket? {
      BucketRemaining(l, TatOf(st, k), now, cost);
    } else {
      WindowRemaining(l, LogOf(st, k), now, cost);
    }
    hide GcraCheck;
    hide WindowVerdict;
  }

  lemma BucketAfter(l: Limit, tat: Time, now: Time, cost: nat)
    requires l.count > 0 && l.period > 0 && 0 < cost && GcraCheck(l, tat, now, cost).1.allowed
    ensures var (next, d) := GcraCheck(l, tat, now, cost);
            var peek := GcraCheck(l, next, now, 0).1;
            d.remaining == peek.remaining && d.resetAfter == peek.resetAfter
  {
    ProductBound(Emission(l), 0, Emission(l), cost);
    hide Emission;
    hide Tolerance;
  }

  lemma WindowAfter(l: Limit, log: seq<Time>, now: Time, cost: nat)
    requires 0 < l.count && 0 < l.period && 0 < cost <= l.count && WindowVerdict(l, log, now, cost).1.allowed
    ensures var (next, d) := WindowVerdict(l, log, now, cost);
            var peek := WindowVerdict(l, next, now, 0).1;
            d.remaining == peek.remaining && d.resetAfter == peek.resetAfter
  {
    var live := Prune(log, now - l.period);
    var _ := PrunePoint(log, now - l.period);
    AllowedVerdict(l, log, now, cost);
    assert Prune(live + Copies(now, cost), now - l.period) == live + Copies(now, cost);
  }

  /** An admission reports for every limit what a peek right after it reports. */
  lemma AdmissionIsHonest(st: Store, req: Request, now: Time, i: nat)
    requires Admissible(req) && i < |req.limits| && !req.peekOnly
    ensures Admissible(req.(peekOnly := true))
    ensures CheckResult(st, req, now).allowed ==>
              var told := CheckResult(st, req, now).decisions[i];
              var peek := CheckResult(Charge(st, req, now), req.(peekOnly := true), now).decisions[i];
              told.remaining == peek.remaining && told.resetAfter == peek.resetAfter
  {
    RefusalIsHonest(Charge(st, req, now), req, now, i);
    if CheckResult(st, req, now).allowed {
      var l, after := req.limits[i], Charge(st, req, now);
      assert Judgements(st, req, now)[i].allowed;
      assert EffectiveCost(req) > 0 && EffectiveCost(req.(peekOnly := true)) == 0;
      ChargedLimitIsHonest(st, req, now, i);
      hide Judge;
      hide Charge;
    }
  }

  lemma ChargedLimitIsHonest(st: Store, req: Request, now: Time, i: nat)
    requires Admissible(req) && i < |req.limits| && !req.peekOnly
    requires Enforceable(req.limits[i]) && EffectiveCost(req) <= Capacity(req.limits[i])
    requires Judge(st, req.tenant, req.limits[i], now, EffectiveCost(req)).allowed
    ensures var d := Judge(st, req.tenant, req.limits[i], now, EffectiveCost(req));
            var p := Judge(Charge(st, req, now), req.tenant, req.limits[i], now, 0);
            d.remaining == p.remaining && d.resetAfter == p.resetAfter
  {
    hide *;
    var l, cost := req.limits[i], EffectiveCost(req);
    var k := KeyOf(req.tenant, l);
    KeyIsAsked(req, i);
    KeyJudgesTheSame(st, req.tenant, l, now, cost);
    ChargeAt(st, req, now, k);
    JudgeIs(st, req.tenant, l, now, cost);
    JudgeIs(Charge(st, req, now), req.tenant, l, now, 0);
    if l.algorithm.TokenBucket? {
      BucketAfter(l, TatOf(st, k), now, cost);
    } else {
      WindowAfter(l, LogOf(st, k), now, cost);
    }
  }

  lemma KeyIsAsked(req: Request, i: nat)
    requires i < |req.limits|
    ensures KeyOf(req.tenant, req.limits[i]) in KeysOf(req)
  {
  }

  lemma JudgeIs(st: Store, tenant: string, l: Limit, now: Time, cost: nat)
    requires Enforceable(l) && cost <= Capacity(l)
    ensures 0 < l.count && 0 < l.period && (l.algorithm.SlidingWindow? ==> cost <= l.count)
    ensures l.algorithm.TokenBucket? || l.algorithm.SlidingWindow?
    ensures Judge(st, tenant, l, now, cost)
            == if l.algorithm.TokenBucket? then GcraCheck(l, TatOf(st, KeyOf(tenant, l)), now, cost).1
               else WindowVerdict(l, LogOf(st, KeyOf(tenant, l)), now, cost).1
  {
    hide GcraCheck;
    hide WindowVerdict;
  }

  /* ---------- ResetAfter ---------- */

  /** A bucket is full, its whole capacity remaining, at an instant exactly when that is at or
      after now + ResetAfter. */
  lemma BucketResetIsExact(l: Limit, tat: Time, now: Time, later: Time)
    requires Enforceable(l) && now <= later
    ensures GcraCheck(l, tat, later, 0).1.remaining == Capacity(l)
            <==> later >= now + GcraCheck(l, tat, now, 0).1.resetAfter
  {
    ToleranceIs(l);
    var free := Tolerance(l) - (Later(tat, later) - later);
    hide Enforceable;
    hide Capacity;
    hide Tolerance;
    hide Emission;
    if free >= 0 {
      WholeShare(Emission(l), Capacity(l), free);
    }
  }

  lemma WholeShare(e: int, c: int, free: int)
    requires e > 0 && 0 <= free <= e * c
    ensures free / e == c <==> free == e * c
  {
    ProductFitsExactly(e, c, free);
    var q, r := free / e, free % e;
    assert free == e * q + r;
    assert e * (c + 1) == e * c + e;
    if q > c {
      ScaleOrder(e, c + 1, q);
    }
  }

  /** How many units a peek finds used. */
  function Used(l: Limit, log: seq<Time>, now: Time): nat {
    |Prune(log, now - l.period)|
  }

  /** A window's ResetAfter is when its oldest live entry leaves: nothing is released before that,
      and something is from then on. It is full only once the newest has left, so the two agree
      exactly when all live entries are of one instant. */
  lemma WindowResetIsTheFirstRelief(l: Limit, log: seq<Time>, now: Time, later: Time)
    requires 0 < l.count && 0 < l.period && now <= later && Sorted(log) && Used(l, log, now) > 0
    ensures var live, reset := Prune(log, now - l.period), WindowVerdict(l, log, now, 0).1.resetAfter;
            && reset > 0
            && (Used(l, log, later) < Used(l, log, now) <==> later >= now + reset)
            && (Used(l, log, later) == 0 <==> later >= live[|live| - 1] + l.period)
            && (Used(l, log, now + reset) == 0 <==> live[0] == live[|live| - 1])
  {
    var live := Prune(log, now - l.period);
    PruneKeepsOrder(log, now - l.period);
    ReliefAt(l, log, live, now, later);
    ReliefAt(l, log, live, now, live[0] + l.period);
  }

  lemma ReliefAt(l: Limit, log: seq<Time>, live: seq<Time>, now: Time, later: Time)
    requires 0 < l.period && now <= later && Sorted(live) && live == Prune(log, now - l.period) && live != []
    ensures Used(l, log, later) < |live| <==> later >= live[0] + l.period
    ensures Used(l, log, later) == 0 <==> later >= live[|live| - 1] + l.period
  {
    PruneTwice(log, now - l.period, later - l.period);
    var k := PrunePoint(live, later - l.period);
    assert Prune(log, later - l.period) == live[k..];
  }

  /** So a window with entries at two instants is not replenished at its reset time. */
  lemma WindowResetIsNotFull(name: string)
    requires name != "" && !HasDelimiter(name)
    ensures var l := Limit(name, SlidingWindow, 2, 1_000_000_000, 0);
            var d := WindowVerdict(l, [0, 500_000_000], 600_000_000, 0).1;
            && Enforceable(l) && d.resetAfter == 400_000_000
            && WindowVerdict(l, [0, 500_000_000], 600_000_000 + d.resetAfter, 0).1.remaining == 1
  {
    var log: seq<Time> := [0, 500_000_000];
    assert log[1..] == [500_000_000];
  }

  /* ---------- forgetting ---------- */

  /** A stored arrival time may be dropped at `now` exactly when no check from then on can tell it
      from an absent one. */
  lemma BucketForgottenExactly(l: Limit, tat: Time, now: Time)
    requires l.count > 0 && l.period > 0
    ensures GcraExpiry(tat) <= now
            <==> forall later: Time, cost: nat :: now <= later ==>
                   GcraCheck(l, tat, later, cost) == GcraCheck(l, ZERO_TIME, later, cost)
  {
    hide Emission;
    hide Tolerance;
    if GcraExpiry(tat) <= now {
      forall later: Time, cost: nat | now <= later
        ensures GcraCheck(l, tat, later, cost) == GcraCheck(l, ZERO_TIME, later, cost)
      {
        assert Later(tat, later) == Later(ZERO_TIME, later);
      }
    } else {
      assert GcraCheck(l, tat, now, 0) != GcraCheck(l, ZERO_TIME, now, 0);
    }
  }

  /** The same of a log with nothing from the future. */
  lemma WindowForgottenExactly(l: Limit, log: seq<Time>, now: Time)
    requires 0 < l.count && 0 < l.period && InOrder(log, now)
    ensures WindowExpiry(l.period, log) <= now
            <==> forall later: Time, cost: nat :: now <= later && cost <= l.count ==>
                   WindowVerdict(l, log, later, cost) == WindowVerdict(l, [], later, cost)
  {
    if WindowExpiry(l.period, log) <= now {
      forall later: Time, cost: nat | now <= later && cost <= l.count
        ensures WindowVerdict(l, log, later, cost) == WindowVerdict(l, [], later, cost)
      {
        ExpiredLogIsEmpty(log, l.period, later);
      }
    } else {
      var k := PrunePoint(log, now - l.period);
      assert k < |log|;
      assert WindowVerdict(l, log, now, 0).1.remaining != WindowVerdict(l, [], now, 0).1.remaining;
    }
  }

  /** So a sweep drops exactly the counters that have become indistinguishable from no counter. */
  lemma SweptExactlyWhenForgotten(st: Store, dropped: set<Key>, now: Time, k: Key)
    requires k in dropped && k.count > 0 && k.period > 0 && Ordered(st, now)
    ensures k in st.gcra ==>
              (k !in Sweep(st, dropped, now).gcra
               <==> forall later: Time, cost: nat :: now <= later ==>
                      GcraCheck(LimitAt(k), st.gcra[k], later, cost) == GcraCheck(LimitAt(k), ZERO_TIME, later, cost))
    ensures k in st.windows ==>
              (k !in Sweep(st, dropped, now).windows
               <==> forall later: Time, cost: nat :: now <= later && cost <= k.count ==>
                      WindowVerdict(LimitAt(k), st.windows[k], later, cost)
                      == WindowVerdict(LimitAt(k), [], later, cost))
  {
    SweepAt(st, dropped, now, k);
    assert LimitAt(k).count == k.count && LimitAt(k).period == k.period;
    assert k in st.windows ==> InOrder(st.windows[k], now);
    hide *;
    if k in st.gcra {
      BucketForgottenExactly(LimitAt(k), st.gcra[k], now);
    }
    if k in st.windows {
      WindowForgottenExactly(LimitAt(k), st.windows[k], now);
    }
  }
}
