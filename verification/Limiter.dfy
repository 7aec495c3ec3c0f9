/** The multi-limit, all-or-nothing check as a function of a store value. This is what
    `Memory.Check` (internal/limiter/memory.go) computes, the key budget aside, and what the
    Redis script must agree with. */
module Limiter {
  import opened Limits
  import opened Gcra
  import opened Windows

  /** Every live counter, across all tenants. */
  datatype Store = Store(gcra: map<Key, Time>, windows: map<Key, seq<Time>>)

  const EMPTY := Store(map[], map[])

  function TatOf(st: Store, k: Key): Time {
    if k in st.gcra then st.gcra[k] else ZERO_TIME
  }

  function LogOf(st: Store, k: Key): seq<Time> {
    if k in st.windows then st.windows[k] else []
  }

  /** A limit with the parameters a key was derived from. */
  function LimitAt(k: Key): Limit {
    Limit(k.name, k.algorithm, k.count, k.period, k.capacity)
  }

  lemma KeyKeepsTheLimit(tenant: string, l: Limit)
    requires Enforceable(l)
    ensures var m := LimitAt(KeyOf(tenant, l));
            m.name == l.name && m.count == l.count && m.period == l.period
            && Capacity(m) == Capacity(l) && Emission(m) == Emission(l) && Tolerance(m) == Tolerance(l)
  {
  }

  /* ---------- one check ---------- */

  /** What stops a request before any counter is read, if anything does. */
  function Preflight(limits: seq<Limit>, cost: nat): (stop: Option<Outcome>)
    ensures stop.None? <==> forall i :: 0 <= i < |limits| ==> Enforceable(limits[i]) && cost <= Capacity(limits[i])
    ensures stop.Some? ==> stop.value.BadLimit? || stop.value.CostExceedsCapacity?
  {
    if limits == [] then None
    else if Validate(limits[0]).Some? then Some(BadLimit(Validate(limits[0]).value))
    else if cost > Capacity(limits[0]) then Some(CostExceedsCapacity(limits[0].name))
    else
      assert limits == [limits[0]] + limits[1..];
      Preflight(limits[1..], cost)
  }

  lemma {:induction false} PreflightSkips(limits: seq<Limit>, cost: nat, i: nat)
    requires i <= |limits| && forall j :: 0 <= j < i ==> Enforceable(limits[j]) && cost <= Capacity(limits[j])
    ensures Preflight(limits, cost) == Preflight(limits[i..], cost)
  {
    if i > 0 {
      PreflightSkips(limits[1..], cost, i - 1);
      assert limits[1..][i - 1..] == limits[i..];
    }
  }

  /** Limit `i` is the first that is invalid or too small for the cost. */
  predicate FirstUnfit(limits: seq<Limit>, cost: nat, i: nat) {
    && i < |limits| && !(Validate(limits[i]).None? && cost <= Capacity(limits[i]))
    && forall j :: 0 <= j < i ==> Validate(limits[j]).None? && cost <= Capacity(limits[j])
  }

  /** A request is stopped by its first unfit limit: with that limit's own error if it is invalid,
      and otherwise, by name, for being too small. */
  lemma StoppedByTheFirst(limits: seq<Limit>, cost: nat, i: nat)
    requires FirstUnfit(limits, cost, i)
    ensures Preflight(limits, cost)
            == Some(if Validate(limits[i]).Some? then BadLimit(Validate(limits[i]).value)
                    else CostExceedsCapacity(limits[i].name))
  {
    PreflightSkips(limits, cost, i);
    assert limits[i..][0] == limits[i];
  }

  /** The loop both back ends open with. */
  method Screen(limits: seq<Limit>, cost: nat) returns (stop: Option<Outcome>)
    ensures stop == Preflight(limits, cost)
    ensures forall i: nat :: FirstUnfit(limits, cost, i) ==>
              stop == Some(if Validate(limits[i]).Some? then BadLimit(Validate(limits[i]).value)
                           else CostExceedsCapacity(limits[i].name))
    ensures (forall i: nat :: !FirstUnfit(limits, cost, i)) ==> stop == None
  {
    hide Validate;
    hide Capacity;
    hide Preflight;
    for i := 0 to |limits|
      invariant forall j :: 0 <= j < i ==> Validate(limits[j]).None? && cost <= Capacity(limits[j])
    {
      if !(Validate(limits[i]).None? && cost <= Capacity(limits[i])) {
        StoppedByTheFirst(limits, cost, i);
      }
      var problem := Validate(limits[i]);
      if problem.Some? {
        return Some(BadLimit(problem.value));
      }
      if cost > Capacity(limits[i]) {
        return Some(CostExceedsCapacity(limits[i].name));
      }
    }
    stop := None;
  }

  /** Past the preflight: every limit is enforceable and could admit the cost. */
  predicate Admissible(req: Request) {
    forall i :: 0 <= i < |req.limits| ==>
      Enforceable(req.limits[i]) && EffectiveCost(req) <= Capacity(req.limits[i])
  }

  function KeysOf(req: Request): set<Key> {
    set i | 0 <= i < |req.limits| :: KeyOf(req.tenant, req.limits[i])
  }

  /** One limit's decision about a cost, reading the store and writing nothing. */
  function Judge(st: Store, tenant: string, l: Limit, now: Time, cost: nat): Decision
    requires Enforceable(l) && cost <= Capacity(l)
  {
    var k := KeyOf(tenant, l);
    if l.algorithm.TokenBucket? then GcraCheck(l, TatOf(st, k), now, cost).1
    else WindowVerdict(l, LogOf(st, k), now, cost).1
  }

  function Judgements(st: Store, req: Request, now: Time): (ds: seq<Decision>)
    requires Admissible(req)
    ensures |ds| == |req.limits|
  {
    seq(|req.limits|, i requires 0 <= i < |req.limits| =>
      Judge(st, req.tenant, req.limits[i], now, EffectiveCost(req)))
  }

  predicate AllAllow(ds: seq<Decision>) {
    forall i :: 0 <= i < |ds| ==> ds[i].allowed
  }

  /** A refused request consumed nothing, so a limit that would have allowed it reports what
      it holds now instead of what it would have held. */
  function Restate(st: Store, req: Request, now: Time, i: nat, d: Decision): Decision
    requires Admissible(req) && i < |req.limits|
  {
    if !d.allowed then d
    else
      var peek := Judge(st, req.tenant, req.limits[i], now, 0);
      d.(remaining := peek.remaining, resetAfter := peek.resetAfter)
  }

  function RestateAll(st: Store, req: Request, now: Time, ds: seq<Decision>): seq<Decision>
    requires Admissible(req) && |ds| == |req.limits|
  {
    seq(|ds|, i requires 0 <= i < |ds| => Restate(st, req, now, i, ds[i]))
  }

  /** The refusal with the longest wait, the earliest of them on a tie, and that wait. */
  function Worst(ds: seq<Decision>): (string, int) {
    if ds == [] then ("", -1)
    else
      var d, before := ds[|ds| - 1], Worst(ds[..|ds| - 1]);
      if !d.allowed && d.retryAfter > before.1 then (d.name, d.retryAfter) else before
  }

  /** How long the caller should wait, zero when allowed. */
  function LongestWait(ds: seq<Decision>): nat {
    if ds == [] then 0
    else
      var d, before := ds[|ds| - 1], LongestWait(ds[..|ds| - 1]);
      if !d.allowed && d.retryAfter > before then d.retryAfter else before
  }

  function CheckResult(st: Store, req: Request, now: Time): Result
    requires Admissible(req)
  {
    var ds := Judgements(st, req, now);
    if AllAllow(ds) then Result(true, ds, "")
    else
      var told := RestateAll(st, req, now, ds);
      Result(false, told, Worst(told).0)
  }

  /** Every counter of the request charged, each from what it held before. */
  function Charge(st: Store, req: Request, now: Time): Store
    requires Admissible(req)
  {
    var cost := EffectiveCost(req);
    var keys := KeysOf(req);
    Store(
      st.gcra + map k | k in keys && k.algorithm.TokenBucket? :: GcraCheck(LimitAt(k), TatOf(st, k), now, cost).0,
      st.windows + map k | k in keys && k.algorithm.SlidingWindow? ::
        WindowVerdict(LimitAt(k), LogOf(st, k), now, cost).0)
  }

  /** The whole check: what the caller is told and what the store holds afterwards. */
  function Check(st: Store, req: Request, now: Time): (Outcome, Store) {
    var stop := Preflight(req.limits, EffectiveCost(req));
    if stop.Some? then (stop.value, st)
    else if req.limits == [] then (Answer(Result(true, [], "")), st)
    else
      var res := CheckResult(st, req, now);
      (Answer(res), if res.allowed && !req.peekOnly then Charge(st, req, now) else st)
  }

  /* ---------- the loops that read a list of decisions ---------- */

  method LimitingName(ds: seq<Decision>) returns (name: string)
    ensures name == Worst(ds).0
  {
    var worst := -1;
    name := "";
    for i := 0 to |ds|
      invariant (name, worst) == Worst(ds[..i])
    {
      assert ds[..i + 1][..i] == ds[..i];
      if !ds[i].allowed && ds[i].retryAfter > worst {
        worst, name := ds[i].retryAfter, ds[i].name;
      }
    }
    assert ds[..|ds|] == ds;
  }

  method RetryAfter(ds: seq<Decision>) returns (worst: nat)
    ensures worst == LongestWait(ds)
  {
    worst := 0;
    for i := 0 to |ds|
      invariant worst == LongestWait(ds[..i])
    {
      assert ds[..i + 1][..i] == ds[..i];
      if !ds[i].allowed && ds[i].retryAfter > worst {
        worst := ds[i].retryAfter;
      }
    }
    assert ds[..|ds|] == ds;
  }

  /* ---------- all or nothing, with honest numbers ---------- */

  /** A refusal or a peek leaves every counter as it was, and a refusal reports for every
      limit, those that would have allowed included, exactly the headroom and the reset time a
      peek at that instant reports. */
  lemma RefusalIsHonest(st: Store, req: Request, now: Time, i: nat)
    requires Admissible(req) && i < |req.limits|
    ensures req.peekOnly || !CheckResult(st, req, now).allowed ==> Check(st, req, now).1 == st
    ensures Admissible(req.(peekOnly := true)) && CheckResult(st, req.(peekOnly := true), now).allowed
    ensures !CheckResult(st, req, now).allowed ==>
              var told := CheckResult(st, req, now).decisions[i];
              var peek := CheckResult(st, req.(peekOnly := true), now).decisions[i];
              told.remaining == peek.remaining && told.resetAfter == peek.resetAfter
  {
    var peeked := req.(peekOnly := true);
    assert Admissible(peeked);
    hide Judge;
    hide Preflight;
    hide Charge;
    hide Enforceable;
    forall j | 0 <= j < |req.limits|
      ensures Judge(st, req.tenant, req.limits[j], now, 0).allowed
      ensures var d := Judge(st, req.tenant, req.limits[j], now, EffectiveCost(req));
              var p := Judge(st, req.tenant, req.limits[j], now, 0);
              !d.allowed ==> d.remaining == p.remaining && d.resetAfter == p.resetAfter
    {
      RefusingLimitIsHonest(st, req.tenant, req.limits[j], now, EffectiveCost(req));
    }
    assert AllAllow(Judgements(st, peeked, now));
  }

  /** A limit that refuses already reports what a peek would. */
  lemma RefusingLimitIsHonest(st: Store, tenant: string, l: Limit, now: Time, cost: nat)
    requires Enforceable(l) && cost <= Capacity(l)
    ensures var d, p := Judge(st, tenant, l, now, cost), Judge(st, tenant, l, now, 0);
            p.allowed && (!d.allowed ==> d.remaining == p.remaining && d.resetAfter == p.resetAfter)
  {
    hide Emission;
    hide Tolerance;
    hide Prune;
  }

  /* ---------- retry exactness ---------- */

  ghost predicate LogsSorted(st: Store) {
    forall k :: k in st.windows ==> Sorted(st.windows[k])
  }

  lemma JudgeRetryIsExact(st: Store, tenant: string, l: Limit, now: Time, later: Time, cost: nat)
    requires Enforceable(l) && cost <= Capacity(l) && now <= later && LogsSorted(st)
    ensures var d := Judge(st, tenant, l, now, cost);
            && d.retryAfter >= 0
            && (d.allowed <==> d.retryAfter == 0)
            && (Judge(st, tenant, l, later, cost).allowed <==> later >= now + d.retryAfter)
  {
    var k := KeyOf(tenant, l);
    if l.algorithm.TokenBucket? {
      GcraRetryIsExact(l, TatOf(st, k), now, later, cost);
    } else {
      WindowRetryIsExact(l, LogOf(st, k), now, later, cost);
    }
  }

  lemma {:induction false} LongestWaitIsTheMaximum(ds: seq<Decision>, bound: nat)
    ensures LongestWait(ds) <= bound <==> forall i :: 0 <= i < |ds| && !ds[i].allowed ==> ds[i].retryAfter <= bound
  {
    if ds != [] {
      var rest := ds[..|ds| - 1];
      LongestWaitIsTheMaximum(rest, bound);
      assert forall i :: 0 <= i < |rest| ==> rest[i] == ds[i];
    }
  }

  lemma {:induction false} WorstAttainsTheWait(ds: seq<Decision>)
    requires forall i :: 0 <= i < |ds| ==> (ds[i].allowed <==> ds[i].retryAfter == 0) && ds[i].retryAfter >= 0
    ensures AllAllow(ds) ==> Worst(ds) == ("", -1) && LongestWait(ds) == 0
    ensures !AllAllow(ds) ==>
              && Worst(ds).1 == LongestWait(ds) > 0
              && exists i :: 0 <= i < |ds| && ds[i].name == Worst(ds).0 && FirstToWait(ds, i, LongestWait(ds))
  {
    if ds != [] {
      var last := |ds| - 1;
      var rest := ds[..last];
      WorstAttainsTheWait(rest);
      LongestWaitIsTheMaximum(rest, LongestWait(rest));
      assert forall i :: 0 <= i < |rest| ==> rest[i] == ds[i];
      if !ds[last].allowed && ds[last].retryAfter > LongestWait(rest) {
        assert FirstToWait(ds, last, LongestWait(ds));
      } else if !AllAllow(rest) {
        var i :| 0 <= i < |rest| && rest[i].name == Worst(rest).0 && FirstToWait(rest, i, LongestWait(rest));
        assert FirstToWait(ds, i, LongestWait(ds));
      }
    }
  }

  /** Decision `i` is a refusal with this wait, and no refusal before it waits that long. */
  predicate FirstToWait(ds: seq<Decision>, i: nat, wait: int)
    requires i < |ds|
  {
    && !ds[i].allowed && ds[i].retryAfter == wait
    && forall j :: 0 <= j < i && !ds[j].allowed ==> ds[j].retryAfter < wait
  }

  /** With no other traffic a request is admitted at an instant exactly when that is at or after
      now + RetryAfter, which is zero exactly when it is admitted now; when it is refused,
      `Limiting` names the first limit whose own wait is that long. */
  lemma RetryIsExact(st: Store, req: Request, now: Time, later: Time)
    requires Admissible(req) && now <= later && LogsSorted(st)
    ensures var res := CheckResult(st, req, now);
            var wait := LongestWait(res.decisions);
            && (wait > 0 <==> !res.allowed)
            && (CheckResult(st, req, later).allowed <==> later >= now + wait)
            && (res.allowed ==> res.limiting == "")
            && (!res.allowed ==>
                  exists i :: 0 <= i < |res.decisions| && res.decisions[i].name == res.limiting
                              && FirstToWait(res.decisions, i, wait))
  {
    hide Judge;
    var cost := EffectiveCost(req);
    var ds, told := Judgements(st, req, now), CheckResult(st, req, now).decisions;
    forall i | 0 <= i < |ds|
      ensures told[i].allowed == ds[i].allowed && told[i].retryAfter == ds[i].retryAfter
      ensures ds[i].retryAfter >= 0 && (ds[i].allowed <==> ds[i].retryAfter == 0)
      ensures Judgements(st, req, later)[i].allowed <==> later >= now + ds[i].retryAfter
    {
      JudgeRetryIsExact(st, req.tenant, req.limits[i], now, later, cost);
    }
    WorstAttainsTheWait(told);
    LongestWaitIsTheMaximum(told, later - now);
  }

  const SECOND := 1_000_000_000

  /** The Retry-After header is in whole seconds, rounded up. */
  function SecondsCeil(d: int): int {
    if d <= 0 then 0
    else if d % SECOND != 0 then d / SECOND + 1 else d / SECOND
  }

  lemma SecondsCeilIsTight(d: nat, n: nat)
    ensures n * SECOND >= d <==> n >= SecondsCeil(d)
  {
  }

  /** The header of section 10.2.3 of RFC 9110: after any whole number of seconds the retry is
      admitted exactly when that number is at least the one advertised. */
  lemma RetryAfterHeaderIsTight(st: Store, req: Request, now: Time, seconds: nat)
    requires Admissible(req) && LogsSorted(st)
    ensures CheckResult(st, req, now + seconds * SECOND).allowed
            <==> seconds >= SecondsCeil(LongestWait(CheckResult(st, req, now).decisions))
  {
    hide *;
    SecondIs();
    var later, wait := now + seconds * SECOND, LongestWait(CheckResult(st, req, now).decisions);
    RetryIsExact(st, req, now, later);
    SecondsCeilIsTight(wait, seconds);
  }

  lemma SecondIs()
    ensures SECOND == 1_000_000_000
  {
  }
}
