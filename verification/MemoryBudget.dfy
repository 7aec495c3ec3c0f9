/** The key budget over interleavings: by how much overlapping checks can exceed it, and that a
    single goroutine never does. */
module MemoryBudget {
  import opened Limits
  import opened Limiter
  import opened Runs
  import opened Parts
  import opened MemoryRaces

  /** New counters a goroutine has been cleared for and the key counter has not heard of. */
  function Promised(pc: Pc): nat {
    if pc.Cleared? then pc.created else if pc.Counting? then pc.added else 0
  }

  function PromisedBy(pcs: seq<Pc>): nat {
    if pcs == [] then 0 else PromisedBy(pcs[..|pcs| - 1]) + Promised(pcs[|pcs| - 1])
  }

  /** New counters that are staged and not yet written. */
  function StagedBy(pcs: seq<Pc>): nat {
    if pcs == [] then 0
    else StagedBy(pcs[..|pcs| - 1]) + if pcs[|pcs| - 1].Cleared? then pcs[|pcs| - 1].created else 0
  }

  predicate SmallRequests(steps: seq<Step>, most: nat) {
    forall k :: 0 <= k < |steps| && steps[k].Start? ==> |steps[k].req.limits| <= most
  }

  /** A goroutine busy with at most `most` limits. */
  predicate Small(pc: Pc, most: nat) {
    && (pc.Sweeping? && pc.pending.Some? ==> |pc.pending.value.limits| <= most)
    && (pc.Locking? || pc.Found? || pc.Deciding? ==> |pc.req.limits| <= most)
    && Promised(pc) <= most
  }

  /** The counter, with everything promised to it, exceeds the budget by no more than the other
      goroutines of a clearing check can have been promised behind its back. */
  predicate WithinReach(s: State, most: nat) {
    && s.pcs != []
    && (forall i :: 0 <= i < |s.pcs| ==> Small(s.pcs[i], most))
    && s.keys + PromisedBy(s.pcs) <= s.maxKeys + (|s.pcs| - 1) * most
  }

  lemma {:induction false} PromisedUpdate(pcs: seq<Pc>, i: nat, pc: Pc)
    requires i < |pcs|
    ensures PromisedBy(pcs[i := pc]) == PromisedBy(pcs) - Promised(pcs[i]) + Promised(pc)
  {
    var n := |pcs| - 1;
    if i < n {
      PromisedUpdate(pcs[..n], i, pc);
      assert pcs[i := pc][..n] == pcs[..n][i := pc];
    } else {
      assert pcs[i := pc][..n] == pcs[..n];
    }
  }

  lemma {:induction false} PromisedAtMost(pcs: seq<Pc>, most: nat)
    requires forall i :: 0 <= i < |pcs| ==> Promised(pcs[i]) <= most
    ensures PromisedBy(pcs) <= |pcs| * most
  {
    if pcs != [] {
      PromisedAtMost(pcs[..|pcs| - 1], most);
      Once(|pcs|, most);
    }
  }

  lemma Once(n: nat, most: nat)
    requires n > 0
    ensures n * most == (n - 1) * most + most
  {
  }

  lemma {:induction false} PromisedByOthers(pcs: seq<Pc>, i: nat, most: nat)
    requires i < |pcs| && forall j :: 0 <= j < |pcs| ==> Promised(pcs[j]) <= most
    ensures PromisedBy(pcs) - Promised(pcs[i]) <= (|pcs| - 1) * most
  {
    var n := |pcs| - 1;
    if i < n {
      PromisedByOthers(pcs[..n], i, most);
      Once(n, most);
    } else {
      PromisedAtMost(pcs[..n], most);
    }
  }

  lemma {:induction false} NothingPromised(pcs: seq<Pc>)
    requires forall i :: 0 <= i < |pcs| ==> pcs[i].Idle?
    ensures PromisedBy(pcs) == 0
  {
    if pcs != [] {
      NothingPromised(pcs[..|pcs| - 1]);
    }
  }

  /** What is staged and what is owed come out of what is promised. */
  lemma {:induction false} StagedAndOwed(pcs: seq<Pc>)
    ensures OwedBy(pcs) + StagedBy(pcs) <= PromisedBy(pcs)
  {
    if pcs != [] {
      StagedAndOwed(pcs[..|pcs| - 1]);
    }
  }

  /* ---------- a check creates at most one counter per limit ---------- */

  lemma {:induction false} FewKeys(req: Request)
    ensures |KeysOf(req)| <= |req.limits|
    decreases |req.limits|
  {
    if req.limits == [] {
      assert KeysOf(req) == {};
    } else {
      var n := |req.limits| - 1;
      var less := req.(limits := req.limits[..n]);
      FewKeys(less);
      assert KeysOf(req) == KeysOf(less) + {KeyOf(req.tenant, req.limits[n])} by {
        assert forall i :: 0 <= i < n ==> less.limits[i] == req.limits[i];
        forall k | k in KeysOf(less)
          ensures k in KeysOf(req)
        {
          var i :| 0 <= i < n && KeyOf(less.tenant, less.limits[i]) == k;
          assert KeyOf(req.tenant, req.limits[i]) == k;
        }
      }
    }
  }

  lemma ChargeAddsFew(st: Store, req: Request, now: Time)
    requires Admissible(req)
    ensures Created(st, Charge(st, req, now)) == |Missing(st, req)| <= |req.limits|
  {
    hide Charge;
    hide KeysOf;
    hide Size;
    ChargeAddsTheMissing(st, req, now);
    SetGrew(Missing(st, req), KeysOf(req));
    FewKeys(req);
  }

  lemma SetGrew<T>(a: set<T>, b: set<T>)
    requires a <= b
    ensures |a| <= |b|
  {
    assert b == a + (b - a);
  }

  /* ---------- every step ---------- */

  lemma Moves(s: State, i: nat, pc: Pc, keys: int, t: State, most: nat)
    requires WithinReach(s, most) && i < |s.pcs| && Small(pc, most)
    requires t.maxKeys == s.maxKeys && t.pcs == s.pcs[i := pc] && t.keys == keys
    requires keys + Promised(pc) <= s.keys + Promised(s.pcs[i])
    ensures WithinReach(t, most)
  {
    PromisedUpdate(s.pcs, i, pc);
  }

  /** The one step that promises anything: whoever clears has just seen room for it, and nobody
      else can have been promised more than `most` meanwhile. */
  lemma ClearsWithinReach(s: State, i: nat, most: nat)
    requires WithinReach(s, most) && Enabled(s, Decide(i))
    ensures WithinReach(Decided(s, i), most)
  {
    hide CheckResult;
    hide Charge;
    hide Size;
    var Deciding(req, now, ref) := s.pcs[i];
    var s' := Decided(s, i);
    ChargeAddsFew(s.objs[ref].value, req, now);
    assert Small(s.pcs[i], most);
    if s'.pcs[i].Cleared? && s'.pcs[i].created > 0 {
      PromisedByOthers(s.pcs, i, most);
      PromisedUpdate(s.pcs, i, s'.pcs[i]);
    } else {
      Moves(s, i, s'.pcs[i], s'.keys, s', most);
    }
  }

  /** A check is let through exactly when every limit allows it, it is not a peek, and the counters
      it has to create, if any, still fit the budget as the counter stands. */
  lemma ClearedExactlyWhen(s: State, i: nat)
    requires Enabled(s, Decide(i))
    ensures var Deciding(req, now, ref) := s.pcs[i];
            var mine := s.objs[ref].value;
            var missing := |Missing(mine, req)|;
            Decided(s, i).pcs[i].Cleared?
            <==> CheckResult(mine, req, now).allowed && !req.peekOnly && (missing == 0 || s.keys + missing <= s.maxKeys)
  {
    hide CheckResult;
    hide Charge;
    hide Size;
    hide Missing;
    ChargeAddsFew(s.objs[s.pcs[i].ref].value, s.pcs[i].req, s.pcs[i].now);
  }

  /** Every decision is answered: a refusal or a peek at once, an admission when it is written; and
      only a check over budget is turned away without leaving a trace. */
  lemma AnsweredExactlyOnce(s: State, i: nat)
    requires Enabled(s, Decide(i))
    ensures var Deciding(req, now, ref) := s.pcs[i];
            var told, s' := CheckResult(s.objs[ref].value, req, now), Decided(s, i);
            if told.allowed && !req.peekOnly then
              && s'.hist == s.hist && s'.outs == s.outs
              && (s'.pcs[i].Cleared? ==>
                    var t := Committed(s', i);
                    t.hist == s.hist + [Ask(req, now)] && t.outs == s.outs + [Answer(told)])
            else s'.hist == s.hist + [Ask(req, now)] && s'.outs == s.outs + [Answer(told)]
  {
    hide CheckResult;
    hide Charge;
    hide Size;
  }

  lemma StepStaysWithinReach(s: State, step: Step, most: nat)
    requires WithinReach(s, most) && Enabled(s, step) && (step.Start? ==> |step.req.limits| <= most)
    ensures WithinReach(Apply(s, step), most)
    ensures Apply(s, step).maxKeys == s.maxKeys && |Apply(s, step).pcs| == |s.pcs|
  {
    hide CheckResult;
    hide Charge;
    hide Sweep;
    hide Size;
    hide WithinReach;
    SmallAt(s, step.i, most);
    var s' := Apply(s, step);
    if step.Decide? {
      ClearsWithinReach(s, step.i, most);
    } else {
      Moves(s, step.i, s'.pcs[step.i], s'.keys, s', most);
    }
  }

  lemma SmallAt(s: State, i: nat, most: nat)
    requires WithinReach(s, most) && i < |s.pcs|
    ensures Small(s.pcs[i], most)
  {
  }

  lemma {:induction false} RunStaysWithinReach(s: State, steps: seq<Step>, most: nat)
    requires WithinReach(s, most) && Runnable(s, steps) && SmallRequests(steps, most)
    ensures WithinReach(Final(s, steps), most)
    ensures Final(s, steps).maxKeys == s.maxKeys && |Final(s, steps).pcs| == |s.pcs|
    decreases |steps|
  {
    hide WithinReach;
    hide Apply;
    hide Enabled;
    if steps != [] {
      StepStaysWithinReach(s, steps[0], most);
      RunStaysWithinReach(Apply(s, steps[0]), steps[1..], most);
    }
  }

  lemma StartsWithinReach(maxKeys: nat, goroutines: nat, most: nat)
    requires goroutines > 0
    ensures WithinReach(Initial(maxKeys, goroutines), most)
  {
    NothingPromised(Initial(maxKeys, goroutines).pcs);
    assert (goroutines - 1) * most >= 0;
  }

  /** Over every interleaving of any number of goroutines, with requests of at most `most` limits:
      the live counters, those staged included, exceed the budget by at most `most` for every
      goroutine but one, and so does the key counter. */
  lemma OvershootIsBounded(maxKeys: nat, goroutines: nat, steps: seq<Step>, most: nat)
    requires goroutines > 0 && Runnable(Initial(maxKeys, goroutines), steps) && SmallRequests(steps, most)
    ensures var s := Final(Initial(maxKeys, goroutines), steps);
            && Size(After(EMPTY, s.hist)) + StagedBy(s.pcs) <= maxKeys + (goroutines - 1) * most
            && s.keys <= maxKeys + (goroutines - 1) * most
  {
    hide *;
    var start := Initial(maxKeys, goroutines);
    StartsWithinReach(maxKeys, goroutines, most);
    InitialIs(maxKeys, goroutines);
    RunStaysWithinReach(start, steps, most);
    RacesAreSerial(maxKeys, goroutines, steps);
    var s := Final(start, steps);
    StagedAndOwed(s.pcs);
    ReachIs(s, most);
  }

  lemma InitialIs(maxKeys: nat, goroutines: nat)
    ensures Initial(maxKeys, goroutines).maxKeys == maxKeys && |Initial(maxKeys, goroutines).pcs| == goroutines
  {
  }

  lemma ReachIs(s: State, most: nat)
    requires WithinReach(s, most)
    ensures s.pcs != [] && s.keys + PromisedBy(s.pcs) <= s.maxKeys + (|s.pcs| - 1) * most
  {
  }

  lemma {:induction false} LongestRequest(steps: seq<Step>) returns (most: nat)
    ensures SmallRequests(steps, most)
  {
    most := 0;
    if steps != [] {
      var n := |steps| - 1;
      var before := LongestRequest(steps[..n]);
      most := if steps[n].Start? && |steps[n].req.limits| > before then |steps[n].req.limits| else before;
      assert forall k :: 0 <= k < n ==> steps[..n][k] == steps[k];
    }
  }

  /** One goroutine, whatever its requests, never exceeds the budget. */
  lemma AloneNeverExceeds(maxKeys: nat, steps: seq<Step>)
    requires Runnable(Initial(maxKeys, 1), steps)
    ensures var s := Final(Initial(maxKeys, 1), steps);
            Size(After(EMPTY, s.hist)) <= maxKeys && s.keys <= maxKeys
  {
    hide *;
    var most := LongestRequest(steps);
    OvershootIsBounded(maxKeys, 1, steps, most);
    assert (1 - 1) * most == 0;
  }

  /* ---------- the bound is attained ---------- */

  /** One unit against a window of one per millisecond. */
  function OneUnit(tenant: string): Request {
    Request(tenant, [Limit("w", SlidingWindow, 1, 1_000_000, 0)], 1, false, 0, 0)
  }

  lemma FreshTenantIsAdmitted(tenant: string, now: Time)
    ensures Screened(OneUnit(tenant))
    ensures CheckResult(EMPTY, OneUnit(tenant), now).allowed && Size(Charge(EMPTY, OneUnit(tenant), now)) == 1
  {
    var req := OneUnit(tenant);
    assert Admissible(req) && EffectiveCost(req) == 1;
    var k := KeyOf(tenant, req.limits[0]);
    assert KeysOf(req) == {k};
    assert Judgements(EMPTY, req, now) == [Judge(EMPTY, tenant, req.limits[0], now, 1)];
    var c := Charge(EMPTY, req, now);
    assert c.windows.Keys == {k};
    assert c.gcra == map[];
  }

  /** The schedule: both checks read the counter before either adds to it. */
  function Meeting(a: Request, b: Request, now: Time): seq<Step> {
    [Start(0, a, now), Start(1, b, now), Lookup(0), Lookup(1), Acquire(0), Acquire(1)]
  }

  function Parting(): seq<Step> {
    [Decide(0), Decide(1), Commit(0), Commit(1), AddKeys(0), AddKeys(1)]
  }

  lemma Take(s: State, steps: seq<Step>)
    requires steps != [] && Enabled(s, steps[0]) && Runnable(Apply(s, steps[0]), steps[1..])
    ensures Runnable(s, steps) && Final(s, steps) == Final(Apply(s, steps[0]), steps[1..])
  {
  }

  lemma {:induction false} RunsOn(s: State, first: seq<Step>, rest: seq<Step>)
    requires Runnable(s, first) && Runnable(Final(s, first), rest)
    ensures Runnable(s, first + rest) && Final(s, first + rest) == Final(Final(s, first), rest)
    decreases |first|
  {
    hide Enabled;
    hide Apply;
    if first == [] {
      assert first + rest == rest;
    } else {
      RunsOn(Apply(s, first[0]), first[1..], rest);
      assert (first + rest)[1..] == first[1..] + rest;
    }
  }

  /** Both are at `x` and `y`, on new and empty tenants held as given. */
  function Halfway(a: Request, b: Request, x: Pc, y: Pc, heldA: Option<nat>, heldB: Option<nat>): State {
    State(1, [Obj(a.tenant, EMPTY, false, heldA), Obj(b.tenant, EMPTY, false, heldB)],
          map[a.tenant := 0, b.tenant := 1], 0, [x, y], [], [])
  }

  /** Both hold their tenant's lock, and the counter is still 0. */
  function Met(a: Request, b: Request, now: Time): State {
    Halfway(a, b, Deciding(a, now, 0), Deciding(b, now, 1), Some(0), Some(1))
  }

  predicate Apart(a: Request, b: Request) {
    a.tenant != b.tenant && Screened(a) && Screened(b) && |a.limits| == 1 && |b.limits| == 1
  }

  lemma TheyLookUp(a: Request, b: Request, now: Time)
    requires Apart(a, b)
    ensures var s := Halfway(a, b, Found(a, now, 0), Found(b, now, 1), None, None);
            Runnable(Initial(1, 2), Meeting(a, b, now)[..4]) && Final(Initial(1, 2), Meeting(a, b, now)[..4]) == s
  {
    hide Screened;
    hide Runnable;
    hide Final;
    var steps, s0 := Meeting(a, b, now)[..4], Initial(1, 2);
    var s1 := Apply(s0, steps[0]);
    assert s1 == State(1, [], map[], 0, [Locking(a, now), Idle], [], []);
    var s2 := Apply(s1, steps[1]);
    assert s2 == State(1, [], map[], 0, [Locking(a, now), Locking(b, now)], [], []);
    var s3 := Apply(s2, steps[2]);
    assert s3 == State(1, [Obj(a.tenant, EMPTY, false, None)], map[a.tenant := 0], 0,
                       [Found(a, now, 0), Locking(b, now)], [], []);
    var s4 := Apply(s3, steps[3]);
    assert s4 == Halfway(a, b, Found(a, now, 0), Found(b, now, 1), None, None);
    Nothing(s4);
    assert steps[3..][1..] == [] && steps[2..][1..] == steps[3..] && steps[1..][1..] == steps[2..];
    Take(s3, steps[3..]);
    Take(s2, steps[2..]);
    Take(s1, steps[1..]);
    Take(s0, steps);
  }

  lemma TheyLock(a: Request, b: Request, now: Time)
    requires Apart(a, b)
    ensures var s := Halfway(a, b, Found(a, now, 0), Found(b, now, 1), None, None);
            Runnable(s, Meeting(a, b, now)[4..]) && Final(s, Meeting(a, b, now)[4..]) == Met(a, b, now)
  {
    hide Screened;
    hide Runnable;
    hide Final;
    var steps := Meeting(a, b, now)[4..];
    var s0 := Halfway(a, b, Found(a, now, 0), Found(b, now, 1), None, None);
    var s1 := Apply(s0, steps[0]);
    assert s1 == Halfway(a, b, Deciding(a, now, 0), Found(b, now, 1), Some(0), None);
    var s2 := Apply(s1, steps[1]);
    assert s2 == Met(a, b, now);
    Nothing(s2);
    assert steps[1..][1..] == [];
    Take(s1, steps[1..]);
    Take(s0, steps);
  }

  lemma TheyMeet(a: Request, b: Request, now: Time)
    requires Apart(a, b)
    ensures Runnable(Initial(1, 2), Meeting(a, b, now)) && Final(Initial(1, 2), Meeting(a, b, now)) == Met(a, b, now)
  {
    hide *;
    TheyLookUp(a, b, now);
    TheyLock(a, b, now);
    SixSteps(a, b, now);
    RunsOn(Initial(1, 2), Meeting(a, b, now)[..4], Meeting(a, b, now)[4..]);
    assert Meeting(a, b, now)[..4] + Meeting(a, b, now)[4..] == Meeting(a, b, now);
  }

  lemma SixSteps(a: Request, b: Request, now: Time)
    ensures |Meeting(a, b, now)| == 6
  {
  }

  lemma Nothing(s: State)
    ensures Runnable(s, []) && Final(s, []) == s
  {
  }

  /** Both have been let through on a counter that says 0. */
  function Passed(a: Request, b: Request, now: Time): State
    requires Admissible(a) && Admissible(b)
  {
    var ca, cb := Charge(EMPTY, a, now), Charge(EMPTY, b, now);
    var ra, rb := CheckResult(EMPTY, a, now), CheckResult(EMPTY, b, now);
    Halfway(a, b, Cleared(a, now, 0, ca, 1, ra), Cleared(b, now, 1, cb, 1, rb), Some(0), Some(1))
  }

  predicate Admits(a: Request, now: Time) {
    && Admissible(a) && !a.peekOnly && CheckResult(EMPTY, a, now).allowed
    && Size(Charge(EMPTY, a, now)) == 1
  }

  lemma TheyPass(a: Request, b: Request, now: Time)
    requires Apart(a, b) && Admits(a, now) && Admits(b, now)
    ensures Runnable(Met(a, b, now), [Decide(0), Decide(1)])
    ensures Final(Met(a, b, now), [Decide(0), Decide(1)]) == Passed(a, b, now)
  {
    hide Screened;
    hide Runnable;
    hide Final;
    hide CheckResult;
    hide Charge;
    hide Size;
    SizeOfEmpty();
    var steps, s0 := [Decide(0), Decide(1)], Met(a, b, now);
    var ca, ra := Charge(EMPTY, a, now), CheckResult(EMPTY, a, now);
    var s1 := Apply(s0, steps[0]);
    assert s1 == s0.(pcs := [Cleared(a, now, 0, ca, 1, ra), Deciding(b, now, 1)]);
    var s2 := Apply(s1, steps[1]);
    assert s2 == Passed(a, b, now);
    Nothing(s2);
    assert steps[1..][1..] == [];
    Take(s1, steps[1..]);
    Take(s0, steps);
  }

  lemma TheyCount(a: Request, b: Request, now: Time)
    requires Admissible(a) && Admissible(b)
    ensures var steps := [Commit(0), Commit(1), AddKeys(0), AddKeys(1)];
            Runnable(Passed(a, b, now), steps) && Final(Passed(a, b, now), steps).keys == 2
  {
    hide Runnable;
    hide Final;
    hide CheckResult;
    hide Charge;
    var steps, s0 := [Commit(0), Commit(1), AddKeys(0), AddKeys(1)], Passed(a, b, now);
    var s1 := Apply(s0, steps[0]);
    assert s1.pcs == [Counting(0, 1), s0.pcs[1]] && s1.keys == 0;
    var s2 := Apply(s1, steps[1]);
    assert s2.pcs == [Counting(0, 1), Counting(1, 1)] && s2.keys == 0;
    var s3 := Apply(s2, steps[2]);
    assert s3.pcs[1] == Counting(1, 1) && s3.keys == 1;
    var s4 := Apply(s3, steps[3]);
    Nothing(s4);
    assert steps[3..][1..] == [] && steps[2..][1..] == steps[3..] && steps[1..][1..] == steps[2..];
    Take(s3, steps[3..]);
    Take(s2, steps[2..]);
    Take(s1, steps[1..]);
    Take(s0, steps);
  }

  lemma PartingIs()
    ensures Parting() == [Decide(0), Decide(1)] + [Commit(0), Commit(1), AddKeys(0), AddKeys(1)]
  {
  }

  lemma AdmitsIs(a: Request, now: Time)
    requires Admits(a, now)
    ensures Admissible(a)
  {
  }

  lemma TheyPart(a: Request, b: Request, now: Time)
    requires Apart(a, b) && Admits(a, now) && Admits(b, now)
    ensures Runnable(Met(a, b, now), Parting()) && Final(Met(a, b, now), Parting()).keys == 2
  {
    hide *;
    var first, rest := [Decide(0), Decide(1)], [Commit(0), Commit(1), AddKeys(0), AddKeys(1)];
    PartingIs();
    AdmitsIs(a, now);
    AdmitsIs(b, now);
    TheyPass(a, b, now);
    TheyCount(a, b, now);
    RunsOn(Met(a, b, now), first, rest);
  }

  lemma SizeOfEmpty()
    ensures Size(EMPTY) == 0
  {
  }

  lemma SmallSchedule(a: Request, b: Request, now: Time)
    requires |a.limits| == 1 && |b.limits| == 1
    ensures SmallRequests(Meeting(a, b, now) + Parting(), 1)
  {
  }

  /** Two overlapping checks of one limit each can leave a budget of one holding two counters,
      which is exactly what `OvershootIsBounded` allows them. */
  lemma BudgetCanBeOvershot(now: Time)
    ensures var steps := Meeting(OneUnit("a"), OneUnit("b"), now) + Parting();
            && Runnable(Initial(1, 2), steps) && SmallRequests(steps, 1)
            && Final(Initial(1, 2), steps).keys == 1 + (2 - 1) * 1
  {
    var a, b := OneUnit("a"), OneUnit("b");
    assert a.tenant[0] != b.tenant[0] && |a.limits| == 1 && |b.limits| == 1 && !a.peekOnly && !b.peekOnly;
    FreshTenantIsAdmitted("a", now);
    FreshTenantIsAdmitted("b", now);
    assert Apart(a, b) && Admits(a, now) && Admits(b, now);
    hide *;
    TheyMeet(a, b, now);
    TheyPart(a, b, now);
    RunsOn(Initial(1, 2), Meeting(a, b, now), Parting());
    SmallSchedule(a, b, now);
  }
}
