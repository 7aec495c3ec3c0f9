/** Whole runs of the per-process limiter, one call at a time: sweeping to make room is
    invisible, and a check that fails closed on the key budget leaves no trace. */
module MemoryRuns {
  import opened Limits
  import opened Windows
  import opened Limiter
  import opened Runs
  import opened Parts
  import opened Memory

  /** One call, with the clock as its sweep and as its decision read it. */
  datatype Call = Call(req: Request, sweptAt: Time, now: Time)

  predicate CallsTimely(from: Time, calls: seq<Call>)
    decreases |calls|
  {
    calls == [] || (from <= calls[0].sweptAt <= calls[0].now && CallsTimely(calls[0].now, calls[1..]))
  }

  /** What `Memory.Check` answers to one call after another, as its contract states it. */
  function BudgetedAnswers(st: Store, maxKeys: nat, calls: seq<Call>): (told: seq<Outcome>)
    ensures |told| == |calls|
    decreases |calls|
  {
    if calls == [] then []
    else
      var r := BudgetedCheck(st, maxKeys, calls[0].req, calls[0].sweptAt, calls[0].now);
      [r.0] + BudgetedAnswers(r.1, maxKeys, calls[1..])
  }

  /** The answers that are not a failure to find room. */
  function Given(told: seq<Outcome>): seq<Outcome> {
    if told == [] then []
    else (if told[0].TooManyKeys? then [] else [told[0]]) + Given(told[1..])
  }

  /** The calls those answers are to. */
  function Served(calls: seq<Call>, told: seq<Outcome>): seq<Op>
    requires |calls| == |told|
  {
    if calls == [] then []
    else (if told[0].TooManyKeys? then [] else [Ask(calls[0].req, calls[0].now)]) + Served(calls[1..], told[1..])
  }

  lemma CheckNeverLacksRoom(st: Store, req: Request, now: Time)
    ensures !Check(st, req, now).0.TooManyKeys?
  {
    hide CheckResult;
    hide Charge;
  }

  lemma SweptIsAlike(a: Store, b: Store, sweptAt: Time, dropped: set<Key>)
    requires Alike(a, b, sweptAt) && Ordered(a, sweptAt)
    ensures Alike(Sweep(a, dropped, sweptAt), b, sweptAt) && Ordered(Sweep(a, dropped, sweptAt), sweptAt)
  {
    hide *;
    OrderedIsSorted(a, sweptAt);
    SweepIsAlike(a, dropped, sweptAt);
    AlikeTransitive(Sweep(a, dropped, sweptAt), a, b, sweptAt);
    SweepKeepsOrder(a, dropped, sweptAt);
  }

  lemma SweepKeepsOrder(a: Store, dropped: set<Key>, now: Time)
    requires Ordered(a, now)
    ensures Ordered(Sweep(a, dropped, now), now)
  {
    hide InOrder;
    hide WindowExpiry;
  }

  lemma OrderedIsSorted(a: Store, clock: Time)
    requires Ordered(a, clock)
    ensures LogsSorted(a)
  {
    forall k | k in a.windows
      ensures Sorted(a.windows[k])
    {
      assert InOrder(a.windows[k], clock);
    }
  }

  lemma OrderedLater(a: Store, clock: Time, later: Time)
    requires Ordered(a, clock) && clock <= later
    ensures Ordered(a, later)
  {
  }

  /** One call: an answer is the one the unbounded limiter gives, and either way the stores stay alike. */
  lemma CallAgrees(a: Store, b: Store, maxKeys: nat, clock: Time, call: Call)
    requires Alike(a, b, clock) && Ordered(a, clock) && clock <= call.sweptAt <= call.now
    ensures var r, s := BudgetedCheck(a, maxKeys, call.req, call.sweptAt, call.now), Check(b, call.req, call.now);
            && (!r.0.TooManyKeys? ==> r.0 == s.0)
            && Alike(r.1, if r.0.TooManyKeys? then b else s.1, call.now)
            && Ordered(r.1, call.now)
  {
    hide *;
    var req, now := call.req, call.now;
    BudgetedSplit(a, maxKeys, req, call.sweptAt, now);
    AlikeLater(a, b, clock, call.sweptAt);
    OrderedLater(a, clock, call.sweptAt);
    SweptIsAlike(a, b, call.sweptAt, Everything(a));
    var swept := BudgetedCheck(a, maxKeys, req, call.sweptAt, now)
      == WithinBudget(Sweep(a, Everything(a), call.sweptAt), maxKeys, req, now);
    var base := if swept then Sweep(a, Everything(a), call.sweptAt) else a;
    AlikeLater(base, b, call.sweptAt, now);
    OrderedLater(base, call.sweptAt, now);
    WithinBudgetIs(base, maxKeys, req, now);
    CheckNeverLacksRoom(base, req, now);
    AskIs(base, req, now);
    AskIs(b, req, now);
    AlikeStep(base, b, Ask(req, now));
    StepKeepsOrder(base, call.sweptAt, Ask(req, now));
  }

  lemma AskIs(st: Store, req: Request, now: Time)
    ensures Step(st, Ask(req, now)) == Check(st, req, now).1
  {
  }

  lemma BudgetedSplit(st: Store, maxKeys: nat, req: Request, sweptAt: Time, now: Time)
    ensures var r := BudgetedCheck(st, maxKeys, req, sweptAt, now);
            || r == Check(st, req, now)
            || r == WithinBudget(st, maxKeys, req, now)
            || r == WithinBudget(Sweep(st, Everything(st), sweptAt), maxKeys, req, now)
  {
    hide Check;
    hide WithinBudget;
    hide Sweep;
  }

  lemma WithinBudgetIs(st: Store, maxKeys: nat, req: Request, now: Time)
    ensures var r, s := WithinBudget(st, maxKeys, req, now), Check(st, req, now);
            r == s || r == (TooManyKeys, st)
  {
    hide Check;
  }

  /** A call fails for lack of room exactly when every limit would allow it, it is not a peek, and
      the counters it would have to create do not fit beside those alive, after the sweep that a
      request of its size sets off. */
  lemma FullExactlyWhen(st: Store, maxKeys: nat, req: Request, sweptAt: Time, now: Time)
    ensures var base := if Size(st) + |req.limits| > maxKeys then Sweep(st, Everything(st), sweptAt) else st;
            BudgetedCheck(st, maxKeys, req, sweptAt, now).0.TooManyKeys?
            <==> && req.limits != [] && Admissible(req) && !req.peekOnly && CheckResult(base, req, now).allowed
                 && Missing(base, req) != {} && Size(base) + |Missing(base, req)| > maxKeys
  {
    hide Missing;
    hide Judgements;
    hide Sweep;
    hide Charge;
    hide Size;
    var base := if Size(st) + |req.limits| > maxKeys then Sweep(st, Everything(st), sweptAt) else st;
    BudgetedCases(st, maxKeys, req, sweptAt, now);
    CheckNeverLacksRoom(st, req, now);
    if Preflight(req.limits, EffectiveCost(req)).None? && req.limits != [] {
      CheckCases(base, maxKeys, req, now);
      ChargeAddsTheMissing(base, req, now);
    }
  }

  /** Over any run of calls at nondecreasing times, every answer is the one an unbounded limiter
      that never swept would give if the calls over budget had not been made. */
  lemma {:induction false} BudgetAside(a: Store, b: Store, maxKeys: nat, clock: Time, calls: seq<Call>)
    requires Alike(a, b, clock) && Ordered(a, clock) && CallsTimely(clock, calls)
    ensures var told := BudgetedAnswers(a, maxKeys, calls);
            Given(told) == Answers(b, Served(calls, told))
    decreases |calls|
  {
    hide BudgetedCheck;
    hide Check;
    hide Alike;
    hide Ordered;
    if calls != [] {
      var call := calls[0];
      var r := BudgetedCheck(a, maxKeys, call.req, call.sweptAt, call.now);
      var told := BudgetedAnswers(a, maxKeys, calls);
      assert told[1..] == BudgetedAnswers(r.1, maxKeys, calls[1..]);
      CallAgrees(a, b, maxKeys, clock, call);
      if r.0.TooManyKeys? {
        BudgetAside(r.1, b, maxKeys, call.now, calls[1..]);
        assert Given(told) == Given(told[1..]);
        assert Served(calls, told) == Served(calls[1..], told[1..]);
      } else {
        BudgetAside(r.1, Check(b, call.req, call.now).1, maxKeys, call.now, calls[1..]);
        assert Served(calls, told)[1..] == Served(calls[1..], told[1..]);
      }
    }
  }
}
