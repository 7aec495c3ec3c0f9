/** One quota across the cluster: whatever each node believes about ownership, and whatever mix of
    forwards is answered, lost after the owner decided, or never delivered
    (internal/decide/decide.go), clients are admitted no more than the counter store was debited. */
module ClusterQuota {
  import opened Limits
  import opened Limiter
  import opened Runs

  datatype Query = Query(tenant: string, cost: int, peek: bool)

  /** What a node made of a question. `at` is the position, in the store's history, of the script
      run that admitted it. */
  datatype Verdict = Admitted(at: nat) | Degraded | NotAdmitted

  /** Deciding a question on one node: not begun, about to ask the store for the first or, after a
      stale policy was fenced, the second time, or done. */
  datatype Side = Dormant | Asking(second: bool) | Closed(verdict: Verdict)

  datatype QState = QState(query: Query, sent: bool, origin: Side, owner: Side, told: Option<Verdict>)

  /** `who[h]` is the query, and whether it was its owner rather than its origin, whose script run
      is the h-th of the store's history; `outs` are what those runs answered. */
  datatype System = System(queries: seq<QState>, hist: seq<Op>, outs: seq<Outcome>, who: seq<(nat, bool)>)

  const START := System([], [], [], [])

  datatype Step =
    | Arrive(query: Query)
    | Forward(i: nat)
    | Deliver(i: nat)
    | DecideHere(i: nat)
    | Stale(i: nat, byOwner: bool)
    | Unanswered(i: nat, byOwner: bool, failOpen: bool)
    | Execute(i: nat, byOwner: bool, limits: seq<Limit>, now: Time, lost: bool, failOpen: bool)
    | Return(i: nat)
    | Finish(i: nat)

  function SideOf(q: QState, byOwner: bool): Side {
    if byOwner then q.owner else q.origin
  }

  function WithSide(q: QState, byOwner: bool, side: Side): QState {
    if byOwner then q.(owner := side) else q.(origin := side)
  }

  predicate Enabled(s: System, step: Step) {
    match step
    case Arrive(_) => true
    case Forward(i) => i < |s.queries| && !s.queries[i].sent && s.queries[i].origin.Dormant? && s.queries[i].told.None?
    case Deliver(i) => i < |s.queries| && s.queries[i].sent && s.queries[i].owner.Dormant?
    case DecideHere(i) => i < |s.queries| && s.queries[i].origin.Dormant? && s.queries[i].told.None?
    case Stale(i, b) => i < |s.queries| && SideOf(s.queries[i], b).Asking?
    case Unanswered(i, b, _) => i < |s.queries| && SideOf(s.queries[i], b).Asking?
    case Execute(i, b, _, _, _, _) => i < |s.queries| && SideOf(s.queries[i], b).Asking?
    case Return(i) =>
      && i < |s.queries| && s.queries[i].sent && s.queries[i].owner.Closed?
      && s.queries[i].origin.Dormant? && s.queries[i].told.None?
    case Finish(i) => i < |s.queries| && s.queries[i].origin.Closed? && s.queries[i].told.None?
  }

  function RequestFor(q: Query, limits: seq<Limit>): Request {
    Request(q.tenant, limits, q.cost, q.peek, 0, 0)
  }

  /** A script run for this query, under some limits. */
  predicate Asks(op: Op, q: Query) {
    op.Ask? && op.req == RequestFor(q, op.req.limits)
  }

  /** A store that did not decide leaves it to the tenant's failure mode. */
  function Outage(failOpen: bool): Verdict {
    if failOpen then Degraded else NotAdmitted
  }

  /** What the asking node makes of a run whose reply reached it. */
  function Heard(out: Outcome, at: nat, failOpen: bool): Verdict {
    match out
    case Answer(result) => if result.allowed then Admitted(at) else NotAdmitted
    case CostExceedsCapacity(_) => NotAdmitted
    case _ => Outage(failOpen)
  }

  function Executed(s: System, i: nat, byOwner: bool, limits: seq<Limit>, now: Time, lost: bool, failOpen: bool): System
    requires i < |s.queries|
  {
    var q := s.queries[i];
    var req := RequestFor(q.query, limits);
    var out := Check(After(EMPTY, s.hist), req, now).0;
    var verdict := if lost then Outage(failOpen) else Heard(out, |s.hist|, failOpen);
    System(s.queries[i := WithSide(q, byOwner, Closed(verdict))],
           s.hist + [Ask(req, now)], s.outs + [out], s.who + [(i, byOwner)])
  }

  function SetQuery(s: System, i: nat, q: QState): System
    requires i < |s.queries|
  {
    s.(queries := s.queries[i := q])
  }

  function Apply(s: System, step: Step): System
    requires Enabled(s, step)
  {
    match step
    case Arrive(query) => s.(queries := s.queries + [QState(query, false, Dormant, Dormant, None)])
    case Forward(i) => SetQuery(s, i, s.queries[i].(sent := true))
    case Deliver(i) => SetQuery(s, i, s.queries[i].(owner := Asking(false)))
    case DecideHere(i) => SetQuery(s, i, s.queries[i].(origin := Asking(false)))
    case Stale(i, b) =>
      var side := SideOf(s.queries[i], b);
      SetQuery(s, i, WithSide(s.queries[i], b, if side.second then Closed(NotAdmitted) else Asking(true)))
    case Unanswered(i, b, failOpen) => SetQuery(s, i, WithSide(s.queries[i], b, Closed(Outage(failOpen))))
    case Execute(i, b, limits, now, lost, failOpen) => Executed(s, i, b, limits, now, lost, failOpen)
    case Return(i) => SetQuery(s, i, s.queries[i].(told := Some(s.queries[i].owner.verdict)))
    case Finish(i) => SetQuery(s, i, s.queries[i].(told := Some(s.queries[i].origin.verdict)))
  }

  predicate Runnable(s: System, steps: seq<Step>)
    decreases |steps|
  {
    steps == [] || (Enabled(s, steps[0]) && Runnable(Apply(s, steps[0]), steps[1..]))
  }

  function Final(s: System, steps: seq<Step>): System
    requires Runnable(s, steps)
    decreases |steps|
  {
    if steps == [] then s else Final(Apply(s, steps[0]), steps[1..])
  }

  /* ---------- what every step keeps ---------- */

  /** The store ran what the history says, and each run belongs to a side that is done. */
  ghost predicate Ledger(s: System) {
    && |s.who| == |s.hist| == |s.outs| && s.outs == Answers(EMPTY, s.hist)
    && (forall h :: 0 <= h < |s.who| ==>
          && s.who[h].0 < |s.queries| && SideOf(s.queries[s.who[h].0], s.who[h].1).Closed?
          && Asks(s.hist[h], s.queries[s.who[h].0].query))
    && (forall g, h :: 0 <= g < h < |s.who| ==> s.who[g] != s.who[h])
  }

  /** An admission points at a run of its own query that the store allowed. */
  ghost predicate Backed(s: System, i: nat, v: Verdict) {
    v.Admitted? ==>
      && v.at < |s.who| && |s.outs| == |s.who| && s.who[v.at].0 == i
      && s.outs[v.at].Answer? && s.outs[v.at].result.allowed
  }

  ghost predicate QueryInv(s: System, i: nat, q: QState) {
    && (q.origin.Closed? ==> Backed(s, i, q.origin.verdict))
    && (q.owner.Closed? ==> Backed(s, i, q.owner.verdict))
    && (q.told.Some? ==> Backed(s, i, q.told.value))
    && (!q.owner.Dormant? ==> q.sent)
  }

  ghost predicate Inv(s: System) {
    Ledger(s) && forall i :: 0 <= i < |s.queries| ==> QueryInv(s, i, s.queries[i])
  }

  /** A query moves without a script run. */
  lemma MoveKeepsInv(s: System, i: nat, q: QState)
    requires Inv(s) && i < |s.queries| && QueryInv(s, i, q) && q.query == s.queries[i].query
    requires s.queries[i].origin.Closed? ==> q.origin.Closed?
    requires s.queries[i].owner.Closed? ==> q.owner.Closed?
    ensures Inv(SetQuery(s, i, q))
  {
    hide Answers;
    hide Backed;
    var s' := SetQuery(s, i, q);
    forall h | 0 <= h < |s'.who|
      ensures s'.who[h].0 < |s'.queries| && SideOf(s'.queries[s'.who[h].0], s'.who[h].1).Closed?
      ensures Asks(s'.hist[h], s'.queries[s'.who[h].0].query)
    {
      assert s'.queries[s'.who[h].0].query == s.queries[s.who[h].0].query;
    }
    forall j | 0 <= j < |s'.queries|
      ensures QueryInv(s', j, s'.queries[j])
    {
      assert QueryInv(s, j, s.queries[j]);
      BackedSame(s, s');
    }
  }

  lemma BackedSame(s: System, t: System)
    requires s.who == t.who && s.outs == t.outs
    ensures forall i, v :: Backed(s, i, v) <==> Backed(t, i, v)
  {
  }

  lemma ArriveKeepsInv(s: System, query: Query)
    requires Inv(s)
    ensures Inv(Apply(s, Arrive(query)))
  {
    hide Answers;
    var s' := Apply(s, Arrive(query));
    forall h | 0 <= h < |s'.who|
      ensures Asks(s'.hist[h], s'.queries[s'.who[h].0].query)
    {
      assert s'.queries[s'.who[h].0].query == s.queries[s.who[h].0].query;
    }
    forall j | 0 <= j < |s'.queries|
      ensures QueryInv(s', j, s'.queries[j])
    {
      if j < |s.queries| {
        assert QueryInv(s, j, s.queries[j]);
      }
    }
  }

  lemma ExecuteKeepsLedger(s: System, i: nat, b: bool, limits: seq<Limit>, now: Time, lost: bool, failOpen: bool)
    requires Inv(s) && Enabled(s, Execute(i, b, limits, now, lost, failOpen))
    ensures Ledger(Executed(s, i, b, limits, now, lost, failOpen))
  {
    hide Answers;
    hide Check;
    hide After;
    hide QueryInv;
    var s' := Executed(s, i, b, limits, now, lost, failOpen);
    var req := RequestFor(s.queries[i].query, limits);
    RunSnoc(EMPTY, s.hist, Ask(req, now));
    assert s'.outs == Answers(EMPTY, s'.hist);
    forall h | 0 <= h < |s'.who|
      ensures s'.who[h].0 < |s'.queries| && SideOf(s'.queries[s'.who[h].0], s'.who[h].1).Closed?
      ensures Asks(s'.hist[h], s'.queries[s'.who[h].0].query)
    {
      assert s'.queries[s'.who[h].0].query == s.queries[s'.who[h].0].query;
      if h < |s.who| {
        assert s'.hist[h] == s.hist[h] && s'.who[h] == s.who[h];
      }
    }
    forall g, h | 0 <= g < h < |s'.who|
      ensures s'.who[g] != s'.who[h]
    {
      if h == |s.who| {
        assert SideOf(s.queries[s.who[g].0], s.who[g].1).Closed?;
      }
    }
  }

  lemma ExecuteKeepsInv(s: System, i: nat, b: bool, limits: seq<Limit>, now: Time, lost: bool, failOpen: bool)
    requires Inv(s) && Enabled(s, Execute(i, b, limits, now, lost, failOpen))
    ensures Inv(Executed(s, i, b, limits, now, lost, failOpen))
  {
    ExecuteKeepsLedger(s, i, b, limits, now, lost, failOpen);
    hide Answers;
    hide Check;
    hide After;
    hide Ledger;
    var s' := Executed(s, i, b, limits, now, lost, failOpen);
    LedgerIsEven(s);
    BackedStill(s, s');
    NewestIsBacked(s, i, b, limits, now, lost, failOpen);
    hide Backed;
    hide Heard;
    forall j | 0 <= j < |s'.queries|
      ensures QueryInv(s', j, s'.queries[j])
    {
      assert QueryInv(s, j, s.queries[j]);
    }
  }

  lemma NewestIsBacked(s: System, i: nat, b: bool, limits: seq<Limit>, now: Time, lost: bool, failOpen: bool)
    requires i < |s.queries| && |s.who| == |s.outs| == |s.hist|
    ensures var s' := Executed(s, i, b, limits, now, lost, failOpen);
            SideOf(s'.queries[i], b).Closed? && Backed(s', i, SideOf(s'.queries[i], b).verdict)
  {
    hide Check;
    hide After;
  }

  /** What a node makes of a run: exactly a reply that reached it and allowed admits, and a store
      that did not decide, or whose reply was lost, admits degraded exactly when that is the
      tenant's failure mode. */
  lemma ClosesExactly(s: System, i: nat, b: bool, limits: seq<Limit>, now: Time, lost: bool, failOpen: bool)
    requires i < |s.queries|
    ensures var out := Check(After(EMPTY, s.hist), RequestFor(s.queries[i].query, limits), now).0;
            var side := SideOf(Executed(s, i, b, limits, now, lost, failOpen).queries[i], b);
            && side.Closed?
            && (side.verdict.Admitted? <==> !lost && out.Answer? && out.result.allowed)
            && (side.verdict == Degraded <==> failOpen && (lost || !(out.Answer? || out.CostExceedsCapacity?)))
            && (side.verdict.Admitted? ==> side.verdict.at == |s.hist|)
  {
    hide Check;
    hide After;
  }

  lemma LedgerIsEven(s: System)
    requires Ledger(s)
    ensures |s.who| == |s.outs| == |s.hist|
  {
  }

  lemma BackedStill(s: System, t: System)
    requires |s.who| == |s.outs| && |t.who| == |t.outs| && s.who <= t.who && s.outs <= t.outs
    ensures forall i, v :: Backed(s, i, v) ==> Backed(t, i, v)
  {
  }

  lemma StepKeepsInv(s: System, step: Step)
    requires Inv(s) && Enabled(s, step)
    ensures Inv(Apply(s, step))
  {
    hide Answers;
    hide Ledger;
    hide Executed;
    match step
    case Arrive(query) => ArriveKeepsInv(s, query);
    case Execute(i, b, limits, now, lost, failOpen) => ExecuteKeepsInv(s, i, b, limits, now, lost, failOpen);
    case _ =>
      assert QueryInv(s, step.i, s.queries[step.i]);
      MoveKeepsInv(s, step.i, Apply(s, step).queries[step.i]);
  }

  lemma {:induction false} RunKeepsInv(s: System, steps: seq<Step>)
    requires Inv(s) && Runnable(s, steps)
    ensures Inv(Final(s, steps))
    decreases |steps|
  {
    hide Inv;
    hide Apply;
    if steps != [] {
      StepKeepsInv(s, steps[0]);
      RunKeepsInv(Apply(s, steps[0]), steps[1..]);
    }
  }

  /* ---------- debits ---------- */

  /** The store took units for this run. */
  predicate Debit(op: Op, out: Outcome) {
    op.Ask? && !op.req.peekOnly && op.req.limits != [] && out.Answer? && out.result.allowed
  }

  function DebitsOf(s: System, i: nat): set<nat>
    requires |s.who| == |s.hist| == |s.outs|
  {
    set h | 0 <= h < |s.who| && s.who[h].0 == i && Debit(s.hist[h], s.outs[h])
  }

  lemma AtMostOne(a: set<nat>)
    requires forall g, h :: g in a && h in a ==> g == h
    ensures |a| <= 1
  {
    if a != {} {
      var h :| h in a;
      assert a == {h};
    }
  }

  lemma EachSideOnce(s: System)
    requires Ledger(s)
    ensures |s.who| == |s.hist| == |s.outs|
    ensures forall g, h :: 0 <= g < |s.who| && 0 <= h < |s.who| && s.who[g] == s.who[h] ==> g == h
  {
  }

  lemma AtMostTwo(s: System, i: nat)
    requires Ledger(s)
    ensures |s.who| == |s.hist| == |s.outs| && |DebitsOf(s, i)| <= 2
  {
    hide Ledger;
    hide Debit;
    EachSideOnce(s);
    var all := DebitsOf(s, i);
    var mine, theirs := set h | h in all && s.who[h].1, set h | h in all && !s.who[h].1;
    AtMostOne(mine);
    AtMostOne(theirs);
    assert all == mine + theirs;
  }

  /** For any views of ownership and any fate of the forwards: a query is debited at most twice,
      and an admission that is not degraded is backed by a run of the store that allowed its
      tenant its cost. That run is a debit exactly when the question was not a peek and some limit
      applied to it. */
  lemma EveryAdmissionIsBacked(steps: seq<Step>, i: nat)
    requires Runnable(START, steps) && i < |Final(START, steps).queries|
    ensures var s := Final(START, steps);
            && |s.who| == |s.hist| == |s.outs| && |DebitsOf(s, i)| <= 2
            && (s.queries[i].told.Some? && s.queries[i].told.value.Admitted? ==>
                  var at := s.queries[i].told.value.at;
                  && at < |s.hist| && s.who[at].0 == i && Asks(s.hist[at], s.queries[i].query)
                  && (at in DebitsOf(s, i) <==> !s.queries[i].query.peek && s.hist[at].req.limits != []))
  {
    hide Apply;
    hide Answers;
    StartInv();
    RunKeepsInv(START, steps);
    var s := Final(START, steps);
    AtMostTwo(s, i);
    assert QueryInv(s, i, s.queries[i]);
  }

  lemma StartInv()
    ensures Inv(START)
  {
  }

  /* ---------- what clients are admitted, against what the store gave out ---------- */

  function Sum(ws: seq<nat>): nat {
    if ws == [] then 0 else ws[0] + Sum(ws[1..])
  }

  /** The weights of the runs made for query `i`. */
  function SumFor(who: seq<(nat, bool)>, ws: seq<nat>, i: nat): nat
    requires |who| == |ws|
    decreases |ws|
  {
    if ws == [] then 0 else (if who[0].0 == i then ws[0] else 0) + SumFor(who[1..], ws[1..], i)
  }

  function SumOver(who: seq<(nat, bool)>, ws: seq<nat>, m: nat): nat
    requires |who| == |ws|
  {
    if m == 0 then 0 else SumOver(who, ws, m - 1) + SumFor(who, ws, m - 1)
  }

  lemma {:induction false} SumOverHead(who: seq<(nat, bool)>, ws: seq<nat>, m: nat)
    requires |who| == |ws| > 0
    ensures SumOver(who, ws, m) == SumOver(who[1..], ws[1..], m) + if who[0].0 < m then ws[0] else 0
  {
    if m > 0 {
      SumOverHead(who, ws, m - 1);
    }
  }

  lemma {:induction false} SumOfNone(m: nat)
    ensures SumOver([], [], m) == 0
  {
    if m > 0 {
      SumOfNone(m - 1);
    }
  }

  /** Adding up run by run or query by query comes to the same. */
  lemma {:induction false} SumsAgree(who: seq<(nat, bool)>, ws: seq<nat>, m: nat)
    requires |who| == |ws| && forall h :: 0 <= h < |who| ==> who[h].0 < m
    ensures SumOver(who, ws, m) == Sum(ws)
    decreases |ws|
  {
    if ws == [] {
      assert who == [];
      SumOfNone(m);
    } else {
      SumOverHead(who, ws, m);
      SumsAgree(who[1..], ws[1..], m);
    }
  }

  lemma {:induction false} OneOfTheSum(who: seq<(nat, bool)>, ws: seq<nat>, h: nat)
    requires |who| == |ws| && h < |ws|
    ensures SumFor(who, ws, who[h].0) >= ws[h]
    decreases |ws|
  {
    if h > 0 {
      OneOfTheSum(who[1..], ws[1..], h - 1);
    }
  }

  /** The weight of what the first `m` queries were told they were admitted. */
  function Credited(queries: seq<QState>, ws: seq<nat>, m: nat): nat
    requires m <= |queries|
  {
    if m == 0 then 0
    else
      var told := queries[m - 1].told;
      Credited(queries, ws, m - 1)
      + if told.Some? && told.value.Admitted? && told.value.at < |ws| then ws[told.value.at] else 0
  }

  lemma {:induction false} CreditedIsBacked(s: System, ws: seq<nat>, m: nat)
    requires Inv(s) && m <= |s.queries| && |ws| == |s.who|
    ensures Credited(s.queries, ws, m) <= SumOver(s.who, ws, m)
  {
    hide Ledger;
    if m > 0 {
      CreditedIsBacked(s, ws, m - 1);
      assert QueryInv(s, m - 1, s.queries[m - 1]);
      var told := s.queries[m - 1].told;
      if told.Some? && told.value.Admitted? {
        OneOfTheSum(s.who, ws, told.value.at);
      }
    }
  }

  lemma CreditedInAll(s: System, ws: seq<nat>)
    requires Inv(s) && |ws| == |s.who|
    ensures Credited(s.queries, ws, |s.queries|) <= Sum(ws)
  {
    CreditedIsBacked(s, ws, |s.queries|);
    SumsAgree(s.who, ws, |s.queries|);
  }

  /** What each run took from the store. */
  function Debited(hist: seq<Op>, outs: seq<Outcome>): (ws: seq<nat>)
    requires |hist| == |outs|
    ensures |ws| == |hist|
  {
    seq(|hist|, h requires 0 <= h < |hist| => if Debit(hist[h], outs[h]) then EffectiveCost(hist[h].req) else 0)
  }

  /** What a query asked for: a peek nothing, and at least one unit otherwise. */
  function CostOf(q: Query): nat {
    EffectiveCost(RequestFor(q, []))
  }

  /** The client was admitted, not degraded, under the limits of the run `told` points at. */
  predicate AdmittedUnder(s: System, q: QState) {
    q.told.Some? && q.told.value.Admitted? && q.told.value.at < |s.hist| && s.hist[q.told.value.at].Ask?
  }

  /** The cost of the first `m` queries whose clients were admitted although some limit applied. */
  function AdmittedCost(s: System, m: nat): nat
    requires m <= |s.queries|
  {
    if m == 0 then 0
    else
      var q := s.queries[m - 1];
      AdmittedCost(s, m - 1)
      + if AdmittedUnder(s, q) && s.hist[q.told.value.at].req.limits != [] then CostOf(q.query) else 0
  }

  lemma ToldIsBacked(s: System, i: nat)
    requires Inv(s) && i < |s.queries|
    ensures |s.who| == |s.hist| == |s.outs|
    ensures var q := s.queries[i];
            q.told.Some? && q.told.value.Admitted? ==>
              var at := q.told.value.at;
              at < |s.hist| && Asks(s.hist[at], q.query) && s.outs[at].Answer? && s.outs[at].result.allowed
  {
    hide Answers;
    assert QueryInv(s, i, s.queries[i]);
  }

  lemma CostsAgree(op: Op, q: Query)
    requires Asks(op, q)
    ensures EffectiveCost(op.req) == CostOf(q) && (op.req.peekOnly ==> CostOf(q) == 0)
  {
  }

  lemma {:induction false} AdmittedCostIsCredited(s: System, m: nat)
    requires Inv(s) && m <= |s.queries| && |s.hist| == |s.outs|
    ensures AdmittedCost(s, m) == Credited(s.queries, Debited(s.hist, s.outs), m)
  {
    hide Inv;
    if m > 0 {
      AdmittedCostIsCredited(s, m - 1);
      ToldIsBacked(s, m - 1);
      var q := s.queries[m - 1];
      if q.told.Some? && q.told.value.Admitted? {
        CostsAgree(s.hist[q.told.value.at], q.query);
      }
    }
  }

  /** The cost of all queries whose clients were admitted under some limit never exceeds the cost
      the store was debited in all. */
  lemma AdmittedAtMostDebited(steps: seq<Step>)
    requires Runnable(START, steps)
    ensures var s := Final(START, steps);
            |s.hist| == |s.outs| && AdmittedCost(s, |s.queries|) <= Sum(Debited(s.hist, s.outs))
  {
    hide *;
    StartInv();
    RunKeepsInv(START, steps);
    var s := Final(START, steps);
    HistoryOf(s);
    AdmittedCostIsCredited(s, |s.queries|);
    CreditedInAll(s, Debited(s.hist, s.outs));
  }

  /** What each run took from the counter at `k` in the half-open interval (after, upTo]. */
  function Taken(hist: seq<Op>, outs: seq<Outcome>, k: Key, after: int, upTo: int): (ws: seq<nat>)
    requires |hist| == |outs|
    ensures |ws| == |hist|
  {
    seq(|hist|, h requires 0 <= h < |hist| =>
      if Consumes(hist[h], outs[h], k) && after < hist[h].now <= upTo then EffectiveCost(hist[h].req) else 0)
  }

  lemma {:induction false} TakenIsAdmitted(hist: seq<Op>, outs: seq<Outcome>, k: Key, after: int, upTo: int)
    requires |hist| == |outs| && forall h :: 0 <= h < |hist| ==> hist[h].Ask?
    ensures Sum(Taken(hist, outs, k, after, upTo)) == Runs.Admitted(hist, outs, k, after, upTo)
    decreases |hist|
  {
    if hist != [] {
      TakenIsAdmitted(hist[1..], outs[1..], k, after, upTo);
      assert Taken(hist, outs, k, after, upTo)[1..] == Taken(hist[1..], outs[1..], k, after, upTo);
    }
  }

  /** The cost of the first `m` queries whose clients were admitted against the limit at `k`, by a
      decision in the half-open interval (after, upTo]. */
  function AdmittedAgainst(s: System, k: Key, after: int, upTo: int, m: nat): nat
    requires m <= |s.queries|
  {
    if m == 0 then 0
    else
      var q := s.queries[m - 1];
      AdmittedAgainst(s, k, after, upTo, m - 1)
      + if AdmittedUnder(s, q) && Counts(s.hist[q.told.value.at], k, after, upTo) then CostOf(q.query) else 0
  }

  predicate Counts(op: Op, k: Key, after: int, upTo: int)
    requires op.Ask?
  {
    k in KeysOf(op.req) && after < op.now <= upTo
  }

  lemma {:induction false} AdmittedAgainstIsCredited(s: System, k: Key, after: int, upTo: int, m: nat)
    requires Inv(s) && m <= |s.queries| && |s.hist| == |s.outs|
    ensures AdmittedAgainst(s, k, after, upTo, m) == Credited(s.queries, Taken(s.hist, s.outs, k, after, upTo), m)
  {
    hide Inv;
    hide KeysOf;
    if m > 0 {
      AdmittedAgainstIsCredited(s, k, after, upTo, m - 1);
      ToldIsBacked(s, m - 1);
      var q := s.queries[m - 1];
      if q.told.Some? && q.told.value.Admitted? {
        CostsAgree(s.hist[q.told.value.at], q.query);
      }
    }
  }

  lemma AdmittedWithin(s: System, k: Key, after: int, upTo: int)
    requires Inv(s)
    ensures |s.hist| == |s.outs| && s.outs == Answers(EMPTY, s.hist)
    ensures AdmittedAgainst(s, k, after, upTo, |s.queries|) <= Runs.Admitted(s.hist, s.outs, k, after, upTo)
  {
    hide *;
    HistoryOf(s);
    AdmittedAgainstIsCredited(s, k, after, upTo, |s.queries|);
    CreditedInAll(s, Taken(s.hist, s.outs, k, after, upTo));
    TakenIsAdmitted(s.hist, s.outs, k, after, upTo);
  }

  /** One quota across the cluster: if the store ran its scripts at nondecreasing times, the cost of
      all queries, on all nodes, whose clients were admitted against one limit stays within that
      limit, over every window and every interval. */
  lemma OneQuota(steps: seq<Step>, k: Key, from: int, t: int)
    requires Runnable(START, steps) && Timely(ZERO_TIME, Final(START, steps).hist)
    requires 0 < k.count && 0 < k.period && 0 < k.capacity && from <= t
    ensures var s := Final(START, steps);
            && (k.algorithm.SlidingWindow? ==> AdmittedAgainst(s, k, t - k.period, t, |s.queries|) <= k.count)
            && (k.algorithm.TokenBucket? ==>
                  AdmittedAgainst(s, k, from - 1, t, |s.queries|) * k.period
                  <= k.capacity * k.period + (t - from) * k.count)
  {
    hide *;
    StartInv();
    RunKeepsInv(START, steps);
    var s := Final(START, steps);
    if k.algorithm.SlidingWindow? {
      AdmittedWithin(s, k, t - k.period, t);
      SlidingWindowQuota(s.hist, k, t);
    }
    if k.algorithm.TokenBucket? {
      AdmittedWithin(s, k, from - 1, t);
      TokenBucketQuota(s.hist, k, from, t);
      var told, taken := AdmittedAgainst(s, k, from - 1, t, |s.queries|), Runs.Admitted(s.hist, s.outs, k, from - 1, t);
      Scaled(told, taken, k.period);
    }
  }

  lemma HistoryOf(s: System)
    requires Inv(s)
    ensures |s.who| == |s.hist| == |s.outs| && s.outs == Answers(EMPTY, s.hist)
    ensures forall h :: 0 <= h < |s.hist| ==> s.hist[h].Ask?
  {
    hide Answers;
    forall h | 0 <= h < |s.hist|
      ensures s.hist[h].Ask?
    {
      assert Asks(s.hist[h], s.queries[s.who[h].0].query);
    }
  }

  lemma Scaled(a: nat, b: nat, n: nat)
    requires a <= b
    ensures a * n <= b * n
  {
    assert b * n == a * n + (b - a) * n;
  }
}
