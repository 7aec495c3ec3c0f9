/** Whole runs of checks against one store: forgetting expired counters is invisible, and
    every limit admits no more than it was configured to over any run. */
module Runs {
  import opened Limits
  import opened Gcra
  import opened Windows
  import opened Limiter

  /** A check, or the removal of those of the given counters that have expired. */
  datatype Op =
    | Ask(req: Request, now: Time)
    | Forget(dropped: set<Key>, now: Time)

  /** `Sweep` restricted to some keys: a counter goes only once its state has become
      indistinguishable from no state. */
  function Sweep(st: Store, dropped: set<Key>, now: Time): Store {
    Store(
      map k | k in st.gcra && !(k in dropped && GcraExpiry(st.gcra[k]) <= now) :: st.gcra[k],
      map k | k in st.windows && !(k in dropped && WindowExpiry(k.period, st.windows[k]) <= now) :: st.windows[k])
  }

  function Step(st: Store, op: Op): Store {
    match op
    case Ask(req, now) => Check(st, req, now).1
    case Forget(dropped, now) => Sweep(st, dropped, now)
  }

  /** The answers a run gives, one per check. */
  function Answers(st: Store, ops: seq<Op>): seq<Outcome>
    decreases |ops|
  {
    if ops == [] then []
    else
      var told := if ops[0].Ask? then [Check(st, ops[0].req, ops[0].now).0] else [];
      told + Answers(Step(st, ops[0]), ops[1..])
  }

  function After(st: Store, ops: seq<Op>): Store
    decreases |ops|
  {
    if ops == [] then st else After(Step(st, ops[0]), ops[1..])
  }

  function AsksOnly(ops: seq<Op>): seq<Op> {
    if ops == [] then []
    else (if ops[0].Ask? then [ops[0]] else []) + AsksOnly(ops[1..])
  }

  predicate Timely(from: Time, ops: seq<Op>)
    decreases |ops|
  {
    ops == [] || (from <= ops[0].now && Timely(ops[0].now, ops[1..]))
  }

  /* ---------- the store along a run ---------- */

  /** Logs are sorted and hold nothing from the future. */
  ghost predicate Ordered(st: Store, clock: Time) {
    forall k :: k in st.windows ==> InOrder(st.windows[k], clock)
  }

  ghost predicate InOrder(log: seq<Time>, clock: Time) {
    Sorted(log) && forall i :: 0 <= i < |log| ==> log[i] <= clock
  }

  lemma GrowKeepsOrder(log: seq<Time>, cutoff: int, now: Time, units: nat)
    requires InOrder(log, now)
    ensures InOrder(Prune(log, cutoff), now)
    ensures InOrder(Prune(log, cutoff) + Copies(now, units), now)
  {
    var k := PrunePoint(log, cutoff);
  }

  lemma VerdictKeepsOrder(l: Limit, log: seq<Time>, now: Time, cost: nat)
    requires 0 < l.count && cost <= l.count && InOrder(log, now)
    ensures InOrder(WindowVerdict(l, log, now, cost).0, now)
  {
    GrowKeepsOrder(log, now - l.period, now, cost);
  }

  lemma ChargeKeepsOrder(st: Store, clock: Time, req: Request, now: Time)
    requires Ordered(st, clock) && clock <= now && Admissible(req)
    ensures Ordered(Charge(st, req, now), now)
  {
    var next := Charge(st, req, now);
    forall k | k in next.windows
      ensures InOrder(next.windows[k], now)
    {
      if k in KeysOf(req) && k.algorithm.SlidingWindow? {
        VerdictKeepsOrder(LimitAt(k), LogOf(st, k), now, EffectiveCost(req));
      }
    }
  }

  lemma StepKeepsOrder(st: Store, clock: Time, op: Op)
    requires Ordered(st, clock) && clock <= op.now
    ensures Ordered(Step(st, op), op.now)
  {
    if op.Ask? && Preflight(op.req.limits, EffectiveCost(op.req)).None? {
      ChargeKeepsOrder(st, clock, op.req, op.now);
    }
  }

  /* ---------- forgetting is invisible ---------- */

  /** Two stores no check at or after `now` can tell apart. */
  ghost predicate Alike(a: Store, b: Store, now: Time) {
    && (forall k: Key :: Later(TatOf(a, k), now) == Later(TatOf(b, k), now))
    && (forall k: Key :: Prune(LogOf(a, k), now - k.period) == Prune(LogOf(b, k), now - k.period))
  }

  lemma AlikeLater(a: Store, b: Store, now: Time, later: Time)
    requires Alike(a, b, now) && now <= later
    ensures Alike(a, b, later)
  {
    forall k: Key
      ensures Later(TatOf(a, k), later) == Later(TatOf(b, k), later)
    {
      assert Later(TatOf(a, k), now) == Later(TatOf(b, k), now);
    }
    forall k: Key
      ensures Prune(LogOf(a, k), later - k.period) == Prune(LogOf(b, k), later - k.period)
    {
      assert Prune(LogOf(a, k), now - k.period) == Prune(LogOf(b, k), now - k.period);
      PruneTwice(LogOf(a, k), now - k.period, later - k.period);
      PruneTwice(LogOf(b, k), now - k.period, later - k.period);
    }
  }

  lemma AlikeJudge(a: Store, b: Store, tenant: string, l: Limit, now: Time, cost: nat)
    requires Alike(a, b, now) && Enforceable(l) && cost <= Capacity(l)
    ensures Judge(a, tenant, l, now, cost) == Judge(b, tenant, l, now, cost)
  {
    var k := KeyOf(tenant, l);
    assert Later(TatOf(a, k), now) == Later(TatOf(b, k), now);
    assert Prune(LogOf(a, k), now - k.period) == Prune(LogOf(b, k), now - k.period);
  }

  lemma AlikeResult(a: Store, b: Store, req: Request, now: Time)
    requires Alike(a, b, now) && Admissible(req)
    ensures CheckResult(a, req, now) == CheckResult(b, req, now)
  {
    forall i | 0 <= i < |req.limits|
      ensures Judge(a, req.tenant, req.limits[i], now, EffectiveCost(req))
              == Judge(b, req.tenant, req.limits[i], now, EffectiveCost(req))
      ensures Judge(a, req.tenant, req.limits[i], now, 0) == Judge(b, req.tenant, req.limits[i], now, 0)
    {
      AlikeJudge(a, b, req.tenant, req.limits[i], now, EffectiveCost(req));
      AlikeJudge(a, b, req.tenant, req.limits[i], now, 0);
    }
    var da, db := Judgements(a, req, now), Judgements(b, req, now);
    assert da == db;
    assert RestateAll(a, req, now, da) == RestateAll(b, req, now, db);
  }

  /** A request that reached a counter passed the preflight, so the key's parameters are a
      valid limit's. */
  lemma KeyOfAdmissible(req: Request, k: Key)
    requires Admissible(req) && k in KeysOf(req)
    ensures LimitAt(k).count == k.count > 0 && LimitAt(k).period == k.period > 0
    ensures LimitAt(k).algorithm == k.algorithm
    ensures EffectiveCost(req) <= Capacity(LimitAt(k))
    ensures k.algorithm.SlidingWindow? ==> Capacity(LimitAt(k)) == k.count
    ensures k.algorithm.TokenBucket? || k.algorithm.SlidingWindow?
  {
    var i :| 0 <= i < |req.limits| && KeyOf(req.tenant, req.limits[i]) == k;
    KeyKeepsTheLimit(req.tenant, req.limits[i]);
  }

  /** The two counters a key may name, after a charge. */
  lemma ChargeAt(st: Store, req: Request, now: Time, k: Key)
    requires Admissible(req)
    ensures TatOf(Charge(st, req, now), k) ==
            if k in KeysOf(req) && k.algorithm.TokenBucket?
            then GcraCheck(LimitAt(k), TatOf(st, k), now, EffectiveCost(req)).0 else TatOf(st, k)
    ensures LogOf(Charge(st, req, now), k) ==
            if k in KeysOf(req) && k.algorithm.SlidingWindow?
            then WindowVerdict(LimitAt(k), LogOf(st, k), now, EffectiveCost(req)).0 else LogOf(st, k)
  {
  }

  lemma AlikeVerdict(l: Limit, a: seq<Time>, b: seq<Time>, now: Time, cost: nat)
    requires 0 < l.count && cost <= l.count
    requires Prune(a, now - l.period) == Prune(b, now - l.period)
    ensures WindowVerdict(l, a, now, cost) == WindowVerdict(l, b, now, cost)
  {
  }

  lemma AlikeTat(l: Limit, a: Time, b: Time, now: Time, cost: nat)
    requires 0 < l.count && 0 < l.period && Later(a, now) == Later(b, now)
    ensures GcraCheck(l, a, now, cost) == GcraCheck(l, b, now, cost)
  {
  }

  lemma AlikeChargeAt(a: Store, b: Store, req: Request, now: Time, k: Key)
    requires Admissible(req)
    requires Later(TatOf(a, k), now) == Later(TatOf(b, k), now)
    requires Prune(LogOf(a, k), now - k.period) == Prune(LogOf(b, k), now - k.period)
    ensures Later(TatOf(Charge(a, req, now), k), now) == Later(TatOf(Charge(b, req, now), k), now)
    ensures Prune(LogOf(Charge(a, req, now), k), now - k.period) == Prune(LogOf(Charge(b, req, now), k), now - k.period)
  {
    hide *;
    ChargeAt(a, req, now, k);
    ChargeAt(b, req, now, k);
    if k in KeysOf(req) {
      KeyOfAdmissible(req, k);
      if k.algorithm.SlidingWindow? {
        AlikeVerdict(LimitAt(k), LogOf(a, k), LogOf(b, k), now, EffectiveCost(req));
      } else {
        AlikeTat(LimitAt(k), TatOf(a, k), TatOf(b, k), now, EffectiveCost(req));
      }
    }
  }

  lemma AlikeCharge(a: Store, b: Store, req: Request, now: Time)
    requires Alike(a, b, now) && Admissible(req)
    ensures Alike(Charge(a, req, now), Charge(b, req, now), now)
  {
    forall k: Key
      ensures Later(TatOf(Charge(a, req, now), k), now) == Later(TatOf(Charge(b, req, now), k), now)
      ensures Prune(LogOf(Charge(a, req, now), k), now - k.period)
              == Prune(LogOf(Charge(b, req, now), k), now - k.period)
    {
      AlikeChargeAt(a, b, req, now, k);
    }
  }

  lemma SweepIsAlike(st: Store, dropped: set<Key>, now: Time)
    requires LogsSorted(st)
    ensures Alike(Sweep(st, dropped, now), st, now)
  {
    forall k: Key
      ensures Prune(LogOf(Sweep(st, dropped, now), k), now - k.period) == Prune(LogOf(st, k), now - k.period)
    {
      if k in st.windows && WindowExpiry(k.period, st.windows[k]) <= now {
        ExpiredLogIsEmpty(st.windows[k], k.period, now);
      }
    }
  }

  lemma AlikeTransitive(a: Store, b: Store, c: Store, now: Time)
    requires Alike(a, b, now) && Alike(b, c, now)
    ensures Alike(a, c, now)
  {
    forall k: Key
      ensures Later(TatOf(a, k), now) == Later(TatOf(c, k), now)
      ensures Prune(LogOf(a, k), now - k.period) == Prune(LogOf(c, k), now - k.period)
    {
      assert Later(TatOf(a, k), now) == Later(TatOf(b, k), now) == Later(TatOf(c, k), now);
      assert Prune(LogOf(a, k), now - k.period) == Prune(LogOf(b, k), now - k.period)
             == Prune(LogOf(c, k), now - k.period);
    }
  }

  /** A check gets the same answer from stores that are alike, and leaves them alike. */
  lemma AlikeStep(a: Store, b: Store, op: Op)
    requires op.Ask? && Alike(a, b, op.now)
    ensures Check(a, op.req, op.now).0 == Check(b, op.req, op.now).0
    ensures Step(a, op) == Check(a, op.req, op.now).1 && Step(b, op) == Check(b, op.req, op.now).1
    ensures Alike(Step(a, op), Step(b, op), op.now)
  {
    if Preflight(op.req.limits, EffectiveCost(op.req)).None? {
      AlikeResult(a, b, op.req, op.now);
      AlikeCharge(a, b, op.req, op.now);
    }
  }

  lemma {:induction false} RunsAlike(a: Store, b: Store, clock: Time, ops: seq<Op>)
    requires Alike(a, b, clock) && Ordered(a, clock) && Timely(clock, ops)
    ensures Answers(a, ops) == Answers(b, AsksOnly(ops))
    decreases |ops|
  {
    if ops != [] {
      var op := ops[0];
      var a' := Step(a, op);
      AlikeLater(a, b, clock, op.now);
      StepKeepsOrder(a, clock, op);
      if op.Ask? {
        var b' := Step(b, op);
        AlikeStep(a, b, op);
        RunsAlike(a', b', op.now, ops[1..]);
        assert AsksOnly(ops)[1..] == AsksOnly(ops[1..]);
      } else {
        SweepIsAlike(a, op.dropped, op.now);
        AlikeTransitive(a', a, b, op.now);
        RunsAlike(a', b, op.now, ops[1..]);
        assert AsksOnly(ops) == AsksOnly(ops[1..]);
      }
    }
  }

  /** Sweeps may be inserted anywhere in a run at nondecreasing times, over any subset of the
      counters, without changing a single answer. */
  lemma ForgettingIsInvisible(st: Store, clock: Time, ops: seq<Op>)
    requires Ordered(st, clock) && Timely(clock, ops)
    ensures Answers(st, ops) == Answers(st, AsksOnly(ops))
  {
    RunsAlike(st, st, clock, ops);
  }

  /** The stores a run leaves with and without its sweeps cannot be told apart either. */
  lemma {:induction false} AfterAlike(a: Store, b: Store, clock: Time, ops: seq<Op>, now: Time)
    requires Alike(a, b, clock) && Ordered(a, clock) && Timely(clock, ops)
    requires clock <= now && forall i :: 0 <= i < |ops| ==> ops[i].now <= now
    ensures Alike(After(a, ops), After(b, AsksOnly(ops)), now)
    decreases |ops|
  {
    hide Alike;
    hide Step;
    if ops == [] {
      AlikeLater(a, b, clock, now);
    } else {
      var op := ops[0];
      var a' := Step(a, op);
      AlikeLater(a, b, clock, op.now);
      StepKeepsOrder(a, clock, op);
      if op.Ask? {
        AlikeStep(a, b, op);
        AfterAlike(a', Step(b, op), op.now, ops[1..], now);
        assert AsksOnly(ops)[1..] == AsksOnly(ops[1..]);
      } else {
        ForgetIsAlike(a, b, clock, op);
        AfterAlike(a', b, op.now, ops[1..], now);
        assert AsksOnly(ops) == AsksOnly(ops[1..]);
      }
    }
  }

  lemma ForgetIsAlike(a: Store, b: Store, clock: Time, op: Op)
    requires op.Forget? && Alike(a, b, op.now) && Ordered(a, clock)
    ensures Alike(Step(a, op), b, op.now)
  {
    SweepIsAlike(a, op.dropped, op.now);
    AlikeTransitive(Step(a, op), a, b, op.now);
  }

  lemma {:induction false} RunSnoc(st: Store, ops: seq<Op>, op: Op)
    ensures After(st, ops + [op]) == Step(After(st, ops), op)
    ensures Answers(st, ops + [op])
            == Answers(st, ops) + if op.Ask? then [Check(After(st, ops), op.req, op.now).0] else []
    decreases |ops|
  {
    hide Step;
    hide Check;
    if ops == [] {
      assert [op][1..] == [];
    } else {
      RunSnoc(Step(st, ops[0]), ops[1..], op);
      assert (ops + [op])[1..] == ops[1..] + [op];
    }
  }

  /* ---------- what a run admits ---------- */

  lemma AnswersHead(st: Store, ops: seq<Op>)
    requires ops != [] && ops[0].Ask?
    ensures Answers(st, ops) == [Check(st, ops[0].req, ops[0].now).0] + Answers(Step(st, ops[0]), ops[1..])
    ensures Answers(st, ops)[1..] == Answers(Step(st, ops[0]), ops[1..])
  {
  }

  /** Whether an answered check consumed from the counter at `k`. */
  predicate Consumes(op: Op, told: Outcome, k: Key) {
    op.Ask? && told.Answer? && told.result.allowed && !op.req.peekOnly && k in KeysOf(op.req)
  }

  /** The units a run consumed from the counter at `k` in the half-open interval (after, upTo]. */
  function Admitted(ops: seq<Op>, told: seq<Outcome>, k: Key, after: int, upTo: int): nat
    decreases |ops|
  {
    if ops == [] then 0
    else if ops[0].Forget? then Admitted(ops[1..], told, k, after, upTo)
    else if told == [] then 0
    else
      (if Consumes(ops[0], told[0], k) && after < ops[0].now <= upTo then EffectiveCost(ops[0].req) else 0)
      + Admitted(ops[1..], told[1..], k, after, upTo)
  }

  lemma {:induction false} AdmittedIgnoresSweeps(ops: seq<Op>, told: seq<Outcome>, k: Key, after: int, upTo: int)
    ensures Admitted(ops, told, k, after, upTo) == Admitted(AsksOnly(ops), told, k, after, upTo)
    decreases |ops|
  {
    if ops != [] {
      if ops[0].Forget? {
        assert AsksOnly(ops) == AsksOnly(ops[1..]);
        AdmittedIgnoresSweeps(ops[1..], told, k, after, upTo);
      } else {
        assert AsksOnly(ops)[1..] == AsksOnly(ops[1..]);
        if told != [] {
          AdmittedIgnoresSweeps(ops[1..], told[1..], k, after, upTo);
        }
      }
    }
  }

  lemma {:induction false} AsksOnlyIsTimely(from: Time, earlier: Time, ops: seq<Op>)
    requires Timely(from, ops) && earlier <= from
    ensures Timely(earlier, AsksOnly(ops))
    ensures forall i :: 0 <= i < |AsksOnly(ops)| ==> AsksOnly(ops)[i].Ask?
    decreases |ops|
  {
    if ops != [] {
      if ops[0].Ask? {
        AsksOnlyIsTimely(ops[0].now, ops[0].now, ops[1..]);
        assert AsksOnly(ops)[1..] == AsksOnly(ops[1..]);
      } else {
        AsksOnlyIsTimely(ops[0].now, earlier, ops[1..]);
        assert AsksOnly(ops) == AsksOnly(ops[1..]);
      }
    }
  }

  predicate AllAsks(ops: seq<Op>) {
    forall i :: 0 <= i < |ops| ==> ops[i].Ask?
  }

  /* ---------- one counter along a run ---------- */

  /** What one check consumed from one counter; nothing when it was refused or went elsewhere. */
  datatype Hit = Hit(now: Time, units: nat)

  function HitOf(st: Store, op: Op, k: Key): Hit
    requires op.Ask?
  {
    Hit(op.now, if Consumes(op, Check(st, op.req, op.now).0, k) then EffectiveCost(op.req) else 0)
  }

  function Hits(st: Store, ops: seq<Op>, k: Key): seq<Hit>
    requires AllAsks(ops)
    decreases |ops|
  {
    if ops == [] then [] else [HitOf(st, ops[0], k)] + Hits(Step(st, ops[0]), ops[1..], k)
  }

  function UnitsIn(hits: seq<Hit>, after: int, upTo: int): nat {
    if hits == [] then 0
    else (if after < hits[0].now <= upTo then hits[0].units else 0) + UnitsIn(hits[1..], after, upTo)
  }

  predicate HitsTimely(from: Time, hits: seq<Hit>)
    decreases |hits|
  {
    hits == [] || (from <= hits[0].now && HitsTimely(hits[0].now, hits[1..]))
  }

  lemma HitsHead(st: Store, ops: seq<Op>, k: Key)
    requires AllAsks(ops) && ops != []
    ensures ops[0].Ask? && AllAsks(ops[1..])
    ensures Hits(st, ops, k) == [HitOf(st, ops[0], k)] + Hits(Step(st, ops[0]), ops[1..], k)
    ensures After(st, ops) == After(Step(st, ops[0]), ops[1..])
  {
  }

  lemma {:induction false} AdmittedIsUnits(st: Store, ops: seq<Op>, k: Key, after: int, upTo: int)
    requires AllAsks(ops)
    ensures Admitted(ops, Answers(st, ops), k, after, upTo) == UnitsIn(Hits(st, ops, k), after, upTo)
    decreases |ops|
  {
    if ops != [] {
      AnswersHead(st, ops);
      AdmittedIsUnits(Step(st, ops[0]), ops[1..], k, after, upTo);
      assert Hits(st, ops, k)[1..] == Hits(Step(st, ops[0]), ops[1..], k);
    }
  }

  lemma {:induction false} HitsAreTimely(st: Store, ops: seq<Op>, k: Key, from: Time)
    requires AllAsks(ops) && Timely(from, ops)
    ensures HitsTimely(from, Hits(st, ops, k))
    decreases |ops|
  {
    if ops != [] {
      HitsAreTimely(Step(st, ops[0]), ops[1..], k, ops[0].now);
      assert Hits(st, ops, k)[1..] == Hits(Step(st, ops[0]), ops[1..], k);
    }
  }

  /** A check charges every counter of its request or leaves the whole store alone. */
  lemma StepChargesOrNot(st: Store, op: Op, k: Key)
    requires op.Ask?
    ensures Step(st, op) != st ==> Admissible(op.req) && Step(st, op) == Charge(st, op.req, op.now)
    ensures if Consumes(op, Check(st, op.req, op.now).0, k) then
              && Admissible(op.req) && !op.req.peekOnly && k in KeysOf(op.req)
              && AllAllow(Judgements(st, op.req, op.now)) && Step(st, op) == Charge(st, op.req, op.now)
            else Step(st, op) == st || k !in KeysOf(op.req)
    ensures HitOf(st, op, k)
            == Hit(op.now, if Consumes(op, Check(st, op.req, op.now).0, k) then EffectiveCost(op.req) else 0)
    ensures Consumes(op, Check(st, op.req, op.now).0, k) ==> HitOf(st, op, k).units > 0
  {
  }

  lemma TatStepConsumes(st: Store, req: Request, now: Time, k: Key)
    requires Admissible(req) && !req.peekOnly && k in KeysOf(req) && k.algorithm.TokenBucket?
    requires AllAllow(Judgements(st, req, now))
    ensures k.count > 0 && k.period > 0
    ensures var next := TatOf(Charge(st, req, now), k);
            && next == Later(TatOf(st, k), now) + Emission(LimitAt(k)) * EffectiveCost(req)
            && next <= now + Tolerance(LimitAt(k))
  {
    var i :| 0 <= i < |req.limits| && KeyOf(req.tenant, req.limits[i]) == k;
    assert Judgements(st, req, now)[i].allowed;
    KeyKeepsTheLimit(req.tenant, req.limits[i]);
    ChargeAt(st, req, now, k);
  }

  /** What one check does to one arrival time. */
  lemma TatStep(st: Store, op: Op, k: Key)
    requires op.Ask? && k.algorithm.TokenBucket? && k.count > 0 && k.period > 0
    ensures var hit := HitOf(st, op, k);
            var before, next := TatOf(st, k), TatOf(Step(st, op), k);
            if hit.units == 0 then next == before
            else
              && next == Later(before, hit.now) + Emission(LimitAt(k)) * hit.units
              && next <= hit.now + Tolerance(LimitAt(k))
  {
    hide *;
    StepChargesOrNot(st, op, k);
    if Consumes(op, Check(st, op.req, op.now).0, k) {
      TatStepConsumes(st, op.req, op.now, k);
    } else if Step(st, op) != st {
      ChargeAt(st, op.req, op.now, k);
    }
  }

  /** Hits a token bucket could have admitted one after the other. */
  predicate Paced(tat: Time, hits: seq<Hit>, emission: nat, tolerance: int)
    decreases |hits|
  {
    if hits == [] then true
    else if hits[0].units == 0 then Paced(tat, hits[1..], emission, tolerance)
    else
      var next := Later(tat, hits[0].now) + emission * hits[0].units;
      next <= hits[0].now + tolerance && Paced(next, hits[1..], emission, tolerance)
  }

  lemma PacedCons(tat: Time, next: Time, hit: Hit, rest: seq<Hit>, emission: nat, tolerance: int)
    requires if hit.units == 0 then next == tat
             else next == Later(tat, hit.now) + emission * hit.units && next <= hit.now + tolerance
    requires Paced(next, rest, emission, tolerance)
    ensures Paced(tat, [hit] + rest, emission, tolerance)
  {
    assert ([hit] + rest)[1..] == rest;
  }

  lemma {:induction false} RunIsPaced(st: Store, ops: seq<Op>, k: Key)
    requires AllAsks(ops) && k.algorithm.TokenBucket? && k.count > 0 && k.period > 0
    ensures Paced(TatOf(st, k), Hits(st, ops, k), Emission(LimitAt(k)), Tolerance(LimitAt(k)))
    decreases |ops|
  {
    if ops != [] {
      hide *;
      var next := Step(st, ops[0]);
      HitsHead(st, ops, k);
      TatStep(st, ops[0], k);
      RunIsPaced(next, ops[1..], k);
      PacedCons(TatOf(st, k), TatOf(next, k), HitOf(st, ops[0], k), Hits(next, ops[1..], k),
                Emission(LimitAt(k)), Tolerance(LimitAt(k)));
    }
  }

  function Room(tat: Time, s: int, t: int, tolerance: int): int {
    NonNegative(t + tolerance - (if tat < s then s else tat))
  }

  lemma CreditStep(tat: Time, next: Time, now: Time, price: int, rest: int, s: int, t: int, tolerance: int)
    requires price >= 0 && rest <= Room(next, s, t, tolerance)
    requires next == Later(tat, now) + price && next <= now + tolerance
    ensures (if s - 1 < now <= t then price else 0) + rest <= Room(tat, s, t, tolerance)
  {
  }

  lemma Distribute(a: int, b: int, c: int)
    ensures (a + b) * c == c * a + b * c
  {
  }

  /** The accounting behind the bound: however the requests are timed, what a run consumes in
      an interval fits between the arrival time it starts from and the last instant plus one
      tolerance. */
  lemma {:induction false} CreditBound(tat: Time, hits: seq<Hit>, emission: nat, tolerance: int, s: int, t: int)
    requires Paced(tat, hits, emission, tolerance)
    ensures UnitsIn(hits, s - 1, t) * emission <= Room(tat, s, t, tolerance)
    decreases |hits|
  {
    if hits != [] {
      var now, units, rest := hits[0].now, hits[0].units, UnitsIn(hits[1..], s - 1, t);
      if units == 0 {
        CreditBound(tat, hits[1..], emission, tolerance, s, t);
      } else {
        var next := Later(tat, now) + emission * units;
        CreditBound(next, hits[1..], emission, tolerance, s, t);
        var price := emission * units;
        CreditStep(tat, next, now, price, rest * emission, s, t, tolerance);
        Distribute(units, rest, emission);
      }
    }
  }

  lemma RateFromCredit(units: nat, emission: int, capacity: int, count: int, period: int, span: int)
    requires emission > 0 && count > 0 && emission * count >= period > 0 && span >= 0
    requires units * emission <= emission * capacity + span
    ensures units * period <= capacity * period + span * count
  {
    var extra := units - capacity;
    assert extra * emission <= span;
    if extra > 0 {
      assert extra * period <= extra * (emission * count);
      assert extra * (emission * count) == (extra * emission) * count;
      assert (extra * emission) * count <= span * count;
    } else {
      assert extra * period <= 0 <= span * count;
    }
  }

  /** Over any run from an empty store, sweeps included, a token bucket admits in any interval
      [s, t] no more than its capacity plus what the configured rate refills in that time. */
  lemma TokenBucketQuota(ops: seq<Op>, k: Key, s: int, t: int)
    requires Timely(ZERO_TIME, ops) && s <= t
    requires k.algorithm.TokenBucket? && k.count > 0 && k.period > 0 && k.capacity > 0
    ensures var units := Admitted(ops, Answers(EMPTY, ops), k, s - 1, t);
            && units * Emission(LimitAt(k)) <= Tolerance(LimitAt(k)) + (t - s)
            && units * k.period <= k.capacity * k.period + (t - s) * k.count
  {
    var asks := AsksOnly(ops);
    ForgettingIsInvisible(EMPTY, ZERO_TIME, ops);
    AsksOnlyIsTimely(ZERO_TIME, ZERO_TIME, ops);
    AdmittedIgnoresSweeps(ops, Answers(EMPTY, ops), k, s - 1, t);
    AdmittedIsUnits(EMPTY, asks, k, s - 1, t);
    RunIsPaced(EMPTY, asks, k);
    CreditBound(ZERO_TIME, Hits(EMPTY, asks, k), Emission(LimitAt(k)), Tolerance(LimitAt(k)), s, t);
    ProductBound(Emission(LimitAt(k)), 0, Emission(LimitAt(k)), k.capacity);
    EmissionIsLeast(LimitAt(k), 1);
    RateFromCredit(Admitted(ops, Answers(EMPTY, ops), k, s - 1, t), Emission(LimitAt(k)), k.capacity, k.count,
        k.period, t - s);
  }

  lemma AllowedVerdict(l: Limit, log: seq<Time>, now: Time, cost: nat)
    requires 0 < l.count && 0 < cost <= l.count && WindowVerdict(l, log, now, cost).1.allowed
    ensures var live := Prune(log, now - l.period);
            WindowVerdict(l, log, now, cost).0 == live + Copies(now, cost) && |live| + cost <= l.count
  {
  }

  /** A request every limit allows is one the window at each of its keys allows. */
  lemma JudgedByKey(st: Store, req: Request, now: Time, k: Key)
    requires Admissible(req) && k in KeysOf(req) && k.algorithm.SlidingWindow?
    requires AllAllow(Judgements(st, req, now))
    ensures EffectiveCost(req) <= k.count
    ensures WindowVerdict(LimitAt(k), LogOf(st, k), now, EffectiveCost(req)).1.allowed
  {
    var i :| 0 <= i < |req.limits| && KeyOf(req.tenant, req.limits[i]) == k;
    assert Judgements(st, req, now)[i].allowed;
  }

  lemma LogStepConsumes(st: Store, req: Request, now: Time, k: Key)
    requires Admissible(req) && !req.peekOnly && k in KeysOf(req) && k.algorithm.SlidingWindow?
    requires AllAllow(Judgements(st, req, now))
    ensures var live := Prune(LogOf(st, k), now - k.period);
            && LogOf(Charge(st, req, now), k) == live + Copies(now, EffectiveCost(req))
            && |live| + EffectiveCost(req) <= k.count
  {
    hide *;
    KeyOfAdmissible(req, k);
    JudgedByKey(st, req, now, k);
    ChargeAt(st, req, now, k);
    AllowedVerdict(LimitAt(k), LogOf(st, k), now, EffectiveCost(req));
  }

  /** What one check does to one log. */
  lemma LogStep(st: Store, op: Op, k: Key)
    requires op.Ask? && k.algorithm.SlidingWindow? && k.count > 0
    ensures var hit := HitOf(st, op, k);
            var live := Prune(LogOf(st, k), hit.now - k.period);
            if hit.units == 0 then LogOf(Step(st, op), k) == LogOf(st, k)
            else LogOf(Step(st, op), k) == live + Copies(hit.now, hit.units) && |live| + hit.units <= k.count
  {
    hide *;
    StepChargesOrNot(st, op, k);
    if Consumes(op, Check(st, op.req, op.now).0, k) {
      LogStepConsumes(st, op.req, op.now, k);
    } else if Step(st, op) != st {
      ChargeAt(st, op.req, op.now, k);
    }
  }

  /** Hits a sliding window could have admitted one after the other. */
  predicate Windowed(log: seq<Time>, hits: seq<Hit>, count: int, period: int)
    decreases |hits|
  {
    if hits == [] then true
    else if hits[0].units == 0 then Windowed(log, hits[1..], count, period)
    else
      var live := Prune(log, hits[0].now - period);
      |live| + hits[0].units <= count && Windowed(live + Copies(hits[0].now, hits[0].units), hits[1..], count, period)
  }

  function LogAfter(log: seq<Time>, hits: seq<Hit>, period: int): seq<Time>
    decreases |hits|
  {
    if hits == [] then log
    else if hits[0].units == 0 then LogAfter(log, hits[1..], period)
    else LogAfter(Prune(log, hits[0].now - period) + Copies(hits[0].now, hits[0].units), hits[1..], period)
  }

  lemma WindowedCons(log: seq<Time>, next: seq<Time>, hit: Hit, rest: seq<Hit>, count: int, period: int)
    requires var live := Prune(log, hit.now - period);
             if hit.units == 0 then next == log
             else next == live + Copies(hit.now, hit.units) && |live| + hit.units <= count
    requires Windowed(next, rest, count, period)
    ensures Windowed(log, [hit] + rest, count, period)
    ensures LogAfter(log, [hit] + rest, period) == LogAfter(next, rest, period)
  {
    assert ([hit] + rest)[1..] == rest;
  }

  lemma NoHitsAreWindowed(st: Store, k: Key)
    ensures Windowed(LogOf(st, k), Hits(st, [], k), k.count, k.period)
    ensures LogOf(After(st, []), k) == LogAfter(LogOf(st, k), Hits(st, [], k), k.period)
  {
  }

  lemma {:induction false} RunIsWindowed(st: Store, ops: seq<Op>, k: Key)
    requires AllAsks(ops) && k.algorithm.SlidingWindow? && k.count > 0 && k.period > 0
    ensures Windowed(LogOf(st, k), Hits(st, ops, k), k.count, k.period)
    ensures LogOf(After(st, ops), k) == LogAfter(LogOf(st, k), Hits(st, ops, k), k.period)
    decreases |ops|
  {
    hide *;
    if ops == [] {
      NoHitsAreWindowed(st, k);
    } else {
      var next := Step(st, ops[0]);
      HitsHead(st, ops, k);
      LogStep(st, ops[0], k);
      RunIsWindowed(next, ops[1..], k);
      WindowedCons(LogOf(st, k), LogOf(next, k), HitOf(st, ops[0], k), Hits(next, ops[1..], k), k.count, k.period);
    }
  }

  lemma EmptyLog(k: Key, after: int, upTo: int)
    ensures CountIn(LogOf(EMPTY, k), after, upTo) == 0 && InOrder(LogOf(EMPTY, k), ZERO_TIME) && ZERO_TIME == 0
  {
  }

  lemma LogStepCounts(log: seq<Time>, now: Time, period: int, units: nat, after: int, upTo: int)
    requires now - period <= after
    ensures CountIn(Prune(log, now - period) + Copies(now, units), after, upTo)
            == CountIn(log, after, upTo) + if after < now <= upTo then units else 0
  {
    CountInConcat(Prune(log, now - period), Copies(now, units), after, upTo);
    CountInIgnoresPruned(log, now - period, after, upTo);
    CountInCopies(now, units, after, upTo);
  }

  lemma {:induction false} NothingAfterTheWindow(hits: seq<Hit>, from: Time, after: int, upTo: int)
    requires HitsTimely(from, hits) && upTo < from
    ensures UnitsIn(hits, after, upTo) == 0
    decreases |hits|
  {
    if hits != [] {
      NothingAfterTheWindow(hits[1..], hits[0].now, after, upTo);
    }
  }

  lemma {:induction false} WindowBound(log: seq<Time>, hits: seq<Hit>, count: int, period: int, from: Time, t: int)
    requires HitsTimely(from, hits) && Windowed(log, hits, count, period)
    requires CountIn(log, t - period, t) <= count
    ensures UnitsIn(hits, t - period, t) + CountIn(log, t - period, t) <= count
    decreases |hits|
  {
    if hits != [] {
      var now, units := hits[0].now, hits[0].units;
      if t < now {
        NothingAfterTheWindow(hits, now, t - period, t);
      } else if units == 0 {
        WindowBound(log, hits[1..], count, period, now, t);
      } else {
        var next := Prune(log, now - period) + Copies(now, units);
        LogStepCounts(log, now, period, units, t - period, t);
        CountInAtMostLength(next, t - period, t);
        WindowBound(next, hits[1..], count, period, now, t);
      }
    }
  }

  lemma WindowBoundOfAsks(asks: seq<Op>, k: Key, t: int)
    requires AllAsks(asks) && Timely(ZERO_TIME, asks)
    requires k.algorithm.SlidingWindow? && k.count > 0 && k.period > 0
    ensures Admitted(asks, Answers(EMPTY, asks), k, t - k.period, t) <= k.count
  {
    hide *;
    EmptyLog(k, t - k.period, t);
    AdmittedIsUnits(EMPTY, asks, k, t - k.period, t);
    HitsAreTimely(EMPTY, asks, k, ZERO_TIME);
    RunIsWindowed(EMPTY, asks, k);
    WindowBound(LogOf(EMPTY, k), Hits(EMPTY, asks, k), k.count, k.period, ZERO_TIME, t);
  }

  /** Over any run from an empty store, sweeps included, a sliding window admits at most `count`
      units in every half-open window of length `period`. */
  lemma SlidingWindowQuota(ops: seq<Op>, k: Key, t: int)
    requires Timely(ZERO_TIME, ops)
    requires k.algorithm.SlidingWindow? && k.count > 0 && k.period > 0
    ensures Admitted(ops, Answers(EMPTY, ops), k, t - k.period, t) <= k.count
  {
    ForgettingIsInvisible(EMPTY, ZERO_TIME, ops);
    AsksOnlyIsTimely(ZERO_TIME, ZERO_TIME, ops);
    AdmittedIgnoresSweeps(ops, Answers(EMPTY, ops), k, t - k.period, t);
    WindowBoundOfAsks(AsksOnly(ops), k, t);
  }

  /** The log is the recent history: what it holds in the trailing window is what the hits
      consumed there. It stays sorted, with nothing from the future. */
  lemma {:induction false} LogIsTheHistory(log: seq<Time>, hits: seq<Hit>, period: int, from: Time, now: Time)
    requires HitsTimely(from, hits) && period > 0
    requires InOrder(log, from)
    requires from <= now && forall i :: 0 <= i < |hits| ==> hits[i].now <= now
    ensures var end := LogAfter(log, hits, period);
            && CountIn(end, now - period, now) == CountIn(log, now - period, now) + UnitsIn(hits, now - period, now)
            && InOrder(end, now)
    decreases |hits|
  {
    if hits != [] {
      var at, units := hits[0].now, hits[0].units;
      if units == 0 {
        LogIsTheHistory(log, hits[1..], period, at, now);
      } else {
        LogStepCounts(log, at, period, units, now - period, now);
        GrowKeepsOrder(log, at - period, at, units);
        LogIsTheHistory(Prune(log, at - period) + Copies(at, units), hits[1..], period, at, now);
      }
    }
  }

  lemma {:induction false} HitsAreNotLater(st: Store, ops: seq<Op>, k: Key, now: Time)
    requires AllAsks(ops) && forall i :: 0 <= i < |ops| ==> ops[i].now <= now
    ensures forall i :: 0 <= i < |Hits(st, ops, k)| ==> Hits(st, ops, k)[i].now <= now
    decreases |ops|
  {
    if ops != [] {
      HitsAreNotLater(Step(st, ops[0]), ops[1..], k, now);
    }
  }

  lemma RoomIsTheCount(l: Limit, log: seq<Time>, now: Time, cost: nat)
    requires 0 < l.count && 0 < cost <= l.count && InOrder(log, now)
    ensures WindowVerdict(l, log, now, cost).1.allowed <==> CountIn(log, now - l.period, now) + cost <= l.count
  {
    var live := Prune(log, now - l.period);
    GrowKeepsOrder(log, now - l.period, now, 0);
    PruneKeepsOrder(log, now - l.period);
    CountInIgnoresPruned(log, now - l.period, now - l.period, now);
    CountInAtMostLength(live, now - l.period, now);
  }

  lemma HistoryOfRun(ops: seq<Op>, k: Key, now: Time)
    requires AllAsks(ops) && Timely(ZERO_TIME, ops) && forall i :: 0 <= i < |ops| ==> ops[i].now <= now
    requires k.algorithm.SlidingWindow? && k.count > 0 && k.period > 0
    ensures var log := LogOf(After(EMPTY, ops), k);
            && InOrder(log, now)
            && CountIn(log, now - k.period, now) == Admitted(ops, Answers(EMPTY, ops), k, now - k.period, now)
  {
    hide *;
    EmptyLog(k, now - k.period, now);
    RunIsWindowed(EMPTY, ops, k);
    HitsAreTimely(EMPTY, ops, k, ZERO_TIME);
    HitsAreNotLater(EMPTY, ops, k, now);
    LogIsTheHistory(LogOf(EMPTY, k), Hits(EMPTY, ops, k), k.period, ZERO_TIME, now);
    AdmittedIsUnits(EMPTY, ops, k, now - k.period, now);
  }

  lemma JudgeWindow(st: Store, tenant: string, l: Limit, now: Time, cost: nat)
    requires Enforceable(l) && l.algorithm.SlidingWindow? && cost <= Capacity(l)
    ensures 0 < l.count && cost <= l.count && 0 < l.period
    ensures KeyOf(tenant, l).algorithm.SlidingWindow? && KeyOf(tenant, l).count == l.count
            && KeyOf(tenant, l).period == l.period
    ensures Judge(st, tenant, l, now, cost) == WindowVerdict(l, LogOf(st, KeyOf(tenant, l)), now, cost).1
  {
  }

  lemma AllAsksOf(ops: seq<Op>, now: Time)
    requires forall i :: 0 <= i < |ops| ==> ops[i].now <= now
    ensures AllAsks(AsksOnly(ops)) && forall i :: 0 <= i < |AsksOnly(ops)| ==> AsksOnly(ops)[i].now <= now
  {
  }

  lemma NothingYet(clock: Time)
    ensures Alike(EMPTY, EMPTY, clock) && Ordered(EMPTY, clock)
  {
  }

  /** After any run, sweeps included, a sliding window refuses a cost exactly when admitting it
      would put more than `count` units into the window that ends now. */
  lemma SlidingWindowIsExact(ops: seq<Op>, tenant: string, l: Limit, now: Time, cost: nat)
    requires Timely(ZERO_TIME, ops) && forall i :: 0 <= i < |ops| ==> ops[i].now <= now
    requires Enforceable(l) && l.algorithm.SlidingWindow? && 0 < cost <= Capacity(l)
    ensures Judge(After(EMPTY, ops), tenant, l, now, cost).allowed
            <==> Admitted(ops, Answers(EMPTY, ops), KeyOf(tenant, l), now - l.period, now) + cost <= l.count
  {
    hide *;
    var k, asks := KeyOf(tenant, l), AsksOnly(ops);
    var st := After(EMPTY, asks);
    NothingYet(ZERO_TIME);
    ItIsLater(now);
    AllAsksOf(ops, now);
    AfterAlike(EMPTY, EMPTY, ZERO_TIME, ops, now);
    AlikeJudge(After(EMPTY, ops), st, tenant, l, now, cost);
    ForgettingIsInvisible(EMPTY, ZERO_TIME, ops);
    AsksOnlyIsTimely(ZERO_TIME, ZERO_TIME, ops);
    AdmittedIgnoresSweeps(ops, Answers(EMPTY, ops), k, now - l.period, now);
    JudgeWindow(st, tenant, l, now, cost);
    HistoryOfRun(asks, k, now);
    RoomIsTheCount(l, LogOf(st, k), now, cost);
  }

  lemma ItIsLater(now: Time)
    ensures ZERO_TIME <= now
  {
  }
}
