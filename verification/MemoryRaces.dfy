/** Interleavings of `lockTenant`, `Check` and `Sweep` (internal/limiter/memory.go) on any number
    of goroutines. Between two steps of one goroutine any others may run; a step is what happens
    under one lock. The shard locks are left out, which only allows more interleavings. */
module MemoryRaces {
  import opened Limits
  import opened Limiter
  import opened Runs
  import opened Parts

  /** A tenant's state on the heap; goroutines may hold references to it for as long as they like. */
  datatype Obj = Obj(tenant: string, value: Store, detached: bool, holder: Option<nat>)

  /** Where a goroutine is. */
  datatype Pc =
    | Idle
    /** Walking the tenants; a check sweeps before it looks up its own. */
    | Sweeping(sweptAt: Time, removed: nat, pending: Option<Request>)
    /** Clock read, about to look the tenant up. */
    | Locking(req: Request, now: Time)
    /** Holds a reference that may have gone stale, not the lock. */
    | Found(req: Request, now: Time, ref: nat)
    | Deciding(req: Request, now: Time, ref: nat)
    /** Allowed and within budget; the writes are staged, `created` of them new counters. */
    | Cleared(req: Request, now: Time, ref: nat, staged: Store, created: nat, result: Result)
    /** Written; the key counter still has to learn about `added`. */
    | Counting(ref: nat, added: nat)
    | Releasing(ref: nat)

  /** `hist` and `outs` are the operations in the order they took effect and what the checks
      among them answered. */
  datatype State = State(
    maxKeys: nat, objs: seq<Obj>, table: map<string, nat>, keys: int, pcs: seq<Pc>, hist: seq<Op>, outs: seq<Outcome>)

  function Initial(maxKeys: nat, goroutines: nat): State {
    State(maxKeys, [], map[], 0, seq(goroutines, _ => Idle), [], [])
  }

  datatype Step =
    | Start(i: nat, req: Request, now: Time)
    | StartSweep(i: nat, now: Time)
    | SweepTenant(i: nat, tenant: string)
    | EndSweep(i: nat, now: Time)
    | Lookup(i: nat)
    | Acquire(i: nat)
    | Decide(i: nat)
    | Commit(i: nat)
    | AddKeys(i: nat)
    | Release(i: nat)

  predicate Free(s: State, ref: nat) {
    ref < |s.objs| && s.objs[ref].holder.None?
  }

  /** A request that passed the loop at the head of `Check` and carries limits. */
  predicate Screened(req: Request) {
    Admissible(req) && DistinctKeys(req) && req.limits != []
  }

  predicate Enabled(s: State, step: Step) {
    && step.i < |s.pcs|
    && match step
       case Start(i, req, _) => s.pcs[i].Idle? && Screened(req)
       case StartSweep(i, _) => s.pcs[i].Idle?
       case SweepTenant(i, t) => s.pcs[i].Sweeping? && t in s.table && Free(s, s.table[t])
       case EndSweep(i, _) => s.pcs[i].Sweeping?
       case Lookup(i) => s.pcs[i].Locking?
       case Acquire(i) => s.pcs[i].Found? && Free(s, s.pcs[i].ref)
       case Decide(i) => s.pcs[i].Deciding? && s.pcs[i].ref < |s.objs| && Admissible(s.pcs[i].req)
       case Commit(i) => s.pcs[i].Cleared? && s.pcs[i].ref < |s.objs|
       case AddKeys(i) => s.pcs[i].Counting?
       case Release(i) => s.pcs[i].Releasing? && s.pcs[i].ref < |s.objs|
  }

  /** How many counters a write adds. */
  function Created(before: Store, after: Store): nat {
    if Size(after) > Size(before) then Size(after) - Size(before) else 0
  }

  /** Pass one under the tenant's lock, and the budget check. Refusals and peeks take effect
      here; an over-budget check takes no effect at all. */
  function Decided(s: State, i: nat): State
    requires Enabled(s, Decide(i))
  {
    var Deciding(req, now, ref) := s.pcs[i];
    var mine := s.objs[ref].value;
    var result := CheckResult(mine, req, now);
    if !result.allowed || req.peekOnly then
      s.(pcs := s.pcs[i := Releasing(ref)], hist := s.hist + [Ask(req, now)], outs := s.outs + [Answer(result)])
    else
      var staged := Charge(mine, req, now);
      var created := Created(mine, staged);
      if created > 0 && s.keys + created > s.maxKeys then s.(pcs := s.pcs[i := Releasing(ref)])
      else s.(pcs := s.pcs[i := Cleared(req, now, ref, staged, created, result)])
  }

  function Committed(s: State, i: nat): State
    requires Enabled(s, Commit(i))
  {
    var Cleared(req, now, ref, staged, created, result) := s.pcs[i];
    var obj := s.objs[ref];
    s.(pcs := s.pcs[i := Counting(ref, created)],
       objs := s.objs[ref := obj.(value := staged)],
       hist := s.hist + [Ask(req, now)], outs := s.outs + [Answer(result)])
  }

  function Swept(s: State, i: nat, t: string): State
    requires Enabled(s, SweepTenant(i, t))
  {
    var Sweeping(at, removed, pending) := s.pcs[i];
    var ref := s.table[t];
    var obj := s.objs[ref];
    var kept := Sweep(obj.value, Everything(obj.value), at);
    var gone := Size(obj.value) - Size(kept);
    var empty := kept == EMPTY;
    s.(pcs := s.pcs[i := Sweeping(at, removed + if gone > 0 then gone else 0, pending)],
       objs := s.objs[ref := obj.(value := kept, detached := empty)],
       table := if empty then s.table - {t} else s.table,
       hist := s.hist + [Forget(Everything(obj.value), at)])
  }

  function LookedUp(s: State, i: nat): State
    requires Enabled(s, Lookup(i))
  {
    var Locking(req, now) := s.pcs[i];
    if req.tenant in s.table then s.(pcs := s.pcs[i := Found(req, now, s.table[req.tenant])])
    else
      s.(pcs := s.pcs[i := Found(req, now, |s.objs|)],
         objs := s.objs + [Obj(req.tenant, EMPTY, false, None)],
         table := s.table[req.tenant := |s.objs|])
  }

  function Acquired(s: State, i: nat): State
    requires Enabled(s, Acquire(i))
  {
    var Found(req, now, ref) := s.pcs[i];
    if s.objs[ref].detached then s.(pcs := s.pcs[i := Locking(req, now)])
    else s.(pcs := s.pcs[i := Deciding(req, now, ref)], objs := s.objs[ref := s.objs[ref].(holder := Some(i))])
  }

  function Apply(s: State, step: Step): State
    requires Enabled(s, step)
  {
    match step
    case Start(i, req, now) =>
      if s.keys + |req.limits| > s.maxKeys then s.(pcs := s.pcs[i := Sweeping(now, 0, Some(req))])
      else s.(pcs := s.pcs[i := Locking(req, now)])
    case StartSweep(i, now) => s.(pcs := s.pcs[i := Sweeping(now, 0, None)])
    case SweepTenant(i, t) => Swept(s, i, t)
    case EndSweep(i, now) =>
      var Sweeping(_, removed, pending) := s.pcs[i];
      s.(keys := s.keys - removed,
         pcs := s.pcs[i := if pending.Some? then Locking(pending.value, now) else Idle])
    case Lookup(i) => LookedUp(s, i)
    case Acquire(i) => Acquired(s, i)
    case Decide(i) => Decided(s, i)
    case Commit(i) => Committed(s, i)
    case AddKeys(i) => s.(keys := s.keys + s.pcs[i].added, pcs := s.pcs[i := Releasing(s.pcs[i].ref)])
    case Release(i) =>
      var ref := s.pcs[i].ref;
      s.(pcs := s.pcs[i := Idle], objs := s.objs[ref := s.objs[ref].(holder := None)])
  }

  /* ---------- what every step keeps ---------- */

  /** A tenant object is detached exactly when the table does not lead to it, and then it is empty. */
  ghost predicate TableInv(s: State) {
    && (forall t :: t in s.table ==> s.table[t] < |s.objs| && s.objs[s.table[t]].tenant == t)
    && (forall r :: 0 <= r < |s.objs| ==>
          (s.objs[r].detached <==> !(s.objs[r].tenant in s.table && s.table[s.objs[r].tenant] == r)))
    && (forall r :: 0 <= r < |s.objs| && s.objs[r].detached ==> s.objs[r].value == EMPTY)
  }

  predicate Holding(pc: Pc, ref: nat) {
    (pc.Deciding? || pc.Cleared? || pc.Counting? || pc.Releasing?) && pc.ref == ref
  }

  /** What a goroutine's position promises about the object it refers to. */
  ghost predicate Placed(objs: seq<Obj>, i: nat, pc: Pc) {
    && (pc.Sweeping? && pc.pending.Some? ==> Screened(pc.pending.value))
    && (pc.Locking? || pc.Found? || pc.Deciding? || pc.Cleared? ==> Screened(pc.req))
    && (pc.Found? || pc.Deciding? || pc.Cleared? ==> pc.ref < |objs| && objs[pc.ref].tenant == pc.req.tenant)
    && (pc.Deciding? || pc.Cleared? || pc.Counting? || pc.Releasing? ==>
          pc.ref < |objs| && objs[pc.ref].holder == Some(i) && !objs[pc.ref].detached)
    && (pc.Cleared? ==>
          && pc.staged == Charge(objs[pc.ref].value, pc.req, pc.now)
          && pc.created == Created(objs[pc.ref].value, pc.staged)
          && pc.result == CheckResult(objs[pc.ref].value, pc.req, pc.now)
          && pc.result.allowed && !pc.req.peekOnly)
  }

  ghost predicate LockInv(s: State) {
    && (forall i :: 0 <= i < |s.pcs| ==> Placed(s.objs, i, s.pcs[i]))
    && (forall r :: 0 <= r < |s.objs| && s.objs[r].holder.Some? ==>
          s.objs[r].holder.value < |s.pcs| && Holding(s.pcs[s.objs[r].holder.value], r))
  }

  /** What a check of tenant `t` would find if it looked now. */
  ghost function Seen(s: State, t: string): Store {
    if t in s.table && s.table[t] < |s.objs| then s.objs[s.table[t]].value else EMPTY
  }

  /** The counters any check can see are those the operations so far leave behind, run one at a time. */
  ghost predicate SerialInv(s: State) {
    && (forall t :: Part(After(EMPTY, s.hist), t) == Seen(s, t))
    && s.outs == Answers(EMPTY, s.hist)
  }

  /** Counters written but not yet counted, less removals not yet subtracted. */
  function Owed(pc: Pc): int {
    if pc.Counting? then pc.added else if pc.Sweeping? then 0 - pc.removed else 0
  }

  function OwedBy(pcs: seq<Pc>): int {
    if pcs == [] then 0 else OwedBy(pcs[..|pcs| - 1]) + Owed(pcs[|pcs| - 1])
  }

  ghost predicate CountInv(s: State) {
    s.keys + OwedBy(s.pcs) == Size(After(EMPTY, s.hist))
  }

  ghost predicate Inv(s: State) {
    TableInv(s) && LockInv(s) && SerialInv(s) && CountInv(s)
  }

  lemma {:induction false} OwedUpdate(pcs: seq<Pc>, i: nat, pc: Pc)
    requires i < |pcs|
    ensures OwedBy(pcs[i := pc]) == OwedBy(pcs) - Owed(pcs[i]) + Owed(pc)
  {
    var n := |pcs| - 1;
    if i < n {
      OwedUpdate(pcs[..n], i, pc);
      assert pcs[i := pc][..n] == pcs[..n][i := pc];
    } else {
      assert pcs[i := pc][..n] == pcs[..n];
    }
  }

  lemma {:induction false} NothingOwed(pcs: seq<Pc>)
    requires forall i :: 0 <= i < |pcs| ==> pcs[i].Idle?
    ensures OwedBy(pcs) == 0
  {
    if pcs != [] {
      NothingOwed(pcs[..|pcs| - 1]);
    }
  }

  lemma PartOfEmpty(t: string)
    ensures Part(EMPTY, t) == EMPTY
  {
  }

  lemma InitialInv(maxKeys: nat, goroutines: nat)
    ensures Inv(Initial(maxKeys, goroutines))
  {
    var s := Initial(maxKeys, goroutines);
    NothingOwed(s.pcs);
    forall t
      ensures Part(EMPTY, t) == EMPTY
    {
      PartOfEmpty(t);
    }
  }

  /** Steps that move one goroutine and touch neither tenants nor history. */
  lemma MoveKeepsInv(s: State, i: nat, pc: Pc, keys: int)
    requires Inv(s) && i < |s.pcs|
    requires Placed(s.objs, i, pc)
    requires forall r :: Holding(s.pcs[i], r) <==> Holding(pc, r)
    requires keys + Owed(pc) == s.keys + Owed(s.pcs[i])
    ensures Inv(s.(pcs := s.pcs[i := pc], keys := keys))
  {
    hide Part;
    hide Placed;
    hide After;
    hide Answers;
    hide Size;
    OwedUpdate(s.pcs, i, pc);
    var s' := s.(pcs := s.pcs[i := pc], keys := keys);
    forall r | 0 <= r < |s'.objs| && s'.objs[r].holder.Some?
      ensures s'.objs[r].holder.value < |s'.pcs| && Holding(s'.pcs[s'.objs[r].holder.value], r)
    {
      assert Holding(s.pcs[s.objs[r].holder.value], r);
    }
  }

  lemma AtPc(s: State, i: nat)
    requires LockInv(s) && i < |s.pcs|
    ensures Placed(s.objs, i, s.pcs[i])
  {
  }

  /** A goroutine takes the lock of a free, reachable object. */
  lemma AcquireKeepsInv(s: State, i: nat)
    requires Inv(s) && Enabled(s, Acquire(i)) && !s.objs[s.pcs[i].ref].detached
    ensures Inv(Acquired(s, i))
  {
    hide CheckResult;
    hide Charge;
    hide Screened;
    hide TableInv;
    hide SerialInv;
    hide CountInv;
    var s' := Acquired(s, i);
    HolderDoesNotShow(s, i, s'.pcs[i], s.pcs[i].ref, Some(i));
    forall j | 0 <= j < |s'.pcs|
      ensures Placed(s'.objs, j, s'.pcs[j])
    {
      AtPc(s, j);
    }
  }

  /** Who holds a lock shows neither in the table nor in what checks can see. */
  lemma HolderDoesNotShow(s: State, i: nat, pc: Pc, ref: nat, holder: Option<nat>)
    requires TableInv(s) && SerialInv(s) && CountInv(s) && i < |s.pcs| && ref < |s.objs| && Owed(pc) == Owed(s.pcs[i])
    ensures var s' := s.(pcs := s.pcs[i := pc], objs := s.objs[ref := s.objs[ref].(holder := holder)]);
            TableInv(s') && SerialInv(s') && CountInv(s')
  {
    hide Part;
    hide After;
    hide Answers;
    hide Size;
    var s' := s.(pcs := s.pcs[i := pc], objs := s.objs[ref := s.objs[ref].(holder := holder)]);
    OwedUpdate(s.pcs, i, pc);
    forall t
      ensures Seen(s', t) == Seen(s, t)
    {
    }
  }

  lemma ReleaseKeepsInv(s: State, i: nat)
    requires Inv(s) && Enabled(s, Release(i))
    ensures Inv(Apply(s, Release(i)))
  {
    hide CheckResult;
    hide Charge;
    hide Screened;
    hide TableInv;
    hide SerialInv;
    hide CountInv;
    var s' := Apply(s, Release(i));
    HolderDoesNotShow(s, i, Idle, s.pcs[i].ref, None);
    AtPc(s, i);
    forall j | 0 <= j < |s'.pcs|
      ensures Placed(s'.objs, j, s'.pcs[j])
    {
      AtPc(s, j);
    }
    forall r | 0 <= r < |s'.objs| && s'.objs[r].holder.Some?
      ensures s'.objs[r].holder.value < |s'.pcs| && Holding(s'.pcs[s'.objs[r].holder.value], r)
    {
      assert Holding(s.pcs[s.objs[r].holder.value], r);
    }
  }

  /** A tenant seen for the first time, or again after a sweep, starts empty. */
  lemma CreateKeepsInv(s: State, i: nat)
    requires Inv(s) && Enabled(s, Lookup(i)) && s.pcs[i].req.tenant !in s.table
    ensures Inv(LookedUp(s, i))
  {
    hide CheckResult;
    hide Charge;
    hide Screened;
    hide Part;
    hide After;
    hide Answers;
    hide Size;
    var s' := LookedUp(s, i);
    OwedUpdate(s.pcs, i, s'.pcs[i]);
    forall j | 0 <= j < |s'.pcs|
      ensures Placed(s'.objs, j, s'.pcs[j])
    {
      AtPc(s, j);
    }
    forall r | 0 <= r < |s'.objs| && s'.objs[r].holder.Some?
      ensures s'.objs[r].holder.value < |s'.pcs| && Holding(s'.pcs[s'.objs[r].holder.value], r)
    {
      assert Holding(s.pcs[s.objs[r].holder.value], r);
    }
    forall t
      ensures Seen(s', t) == Seen(s, t)
    {
    }
  }

  lemma CheckOfScreened(st: Store, req: Request, now: Time)
    requires Screened(req)
    ensures Check(st, req, now)
            == (Answer(CheckResult(st, req, now)),
                if CheckResult(st, req, now).allowed && !req.peekOnly then Charge(st, req, now) else st)
  {
    hide CheckResult;
    hide Charge;
  }

  lemma AskIs(st: Store, req: Request, now: Time)
    ensures Runs.Step(st, Ask(req, now)) == Check(st, req, now).1
  {
  }

  /** A refusal or a peek: answered as the serial run answers it, and nothing moves. */
  lemma AnswerKeepsInv(s: State, i: nat)
    requires Inv(s) && Enabled(s, Decide(i))
    requires var r := CheckResult(s.objs[s.pcs[i].ref].value, s.pcs[i].req, s.pcs[i].now);
             !r.allowed || s.pcs[i].req.peekOnly
    ensures Inv(Decided(s, i))
  {
    hide CheckResult;
    hide Charge;
    hide Part;
    hide After;
    hide Answers;
    hide Check;
    hide Runs.Step;
    hide Size;
    AtPc(s, i);
    var Deciding(req, now, ref) := s.pcs[i];
    var all := After(EMPTY, s.hist);
    MoveKeepsInv(s, i, Releasing(ref), s.keys);
    RunSnoc(EMPTY, s.hist, Ask(req, now));
    CheckOfScreened(all, req, now);
    AskIs(all, req, now);
    assert Part(all, req.tenant) == Seen(s, req.tenant);
    ResultIsLocal(all, req, now);
  }

  lemma MapGrew<K, V>(a: map<K, V>, b: map<K, V>)
    requires a.Keys <= b.Keys
    ensures |a| <= |b|
  {
    assert |b.Keys| == |a.Keys| + |b.Keys - a.Keys|;
  }

  lemma ChargeGrows(st: Store, req: Request, now: Time)
    requires Admissible(req)
    ensures Size(st) <= Size(Charge(st, req, now))
  {
    hide Charge;
    var c := Charge(st, req, now);
    forall k: Key
      ensures k in st.gcra ==> k in c.gcra
      ensures k in st.windows ==> k in c.windows
    {
      ChargeMember(st, req, now, k);
    }
    MapGrew(st.gcra, c.gcra);
    MapGrew(st.windows, c.windows);
  }

  lemma SweepShrinks(st: Store, dropped: set<Key>, now: Time)
    ensures Size(Sweep(st, dropped, now)) <= Size(st)
  {
    hide Sweep;
    var c := Sweep(st, dropped, now);
    forall k: Key
      ensures k in c.gcra ==> k in st.gcra
      ensures k in c.windows ==> k in st.windows
    {
      SweepAt(st, dropped, now, k);
    }
    MapGrew(c.gcra, st.gcra);
    MapGrew(c.windows, st.windows);
  }

  /** The history with a charge at its end, seen tenant by tenant. */
  lemma ChargedHistory(hist: seq<Op>, req: Request, now: Time)
    requires Screened(req)
    requires CheckResult(Part(After(EMPTY, hist), req.tenant), req, now).allowed && !req.peekOnly
    ensures var all, mine := After(EMPTY, hist), Part(After(EMPTY, hist), req.tenant);
            var next := After(EMPTY, hist + [Ask(req, now)]);
            && Part(next, req.tenant) == Charge(mine, req, now)
            && (forall t :: t != req.tenant ==> Part(next, t) == Part(all, t))
            && Size(next) - Size(all) == Size(Charge(mine, req, now)) - Size(mine) >= 0
            && Answers(EMPTY, hist + [Ask(req, now)]) == Answers(EMPTY, hist) + [Answer(CheckResult(mine, req, now))]
  {
    ScreenedIs(req);
    hide *;
    var all := After(EMPTY, hist);
    RunSnoc(EMPTY, hist, Ask(req, now));
    AskIs(all, req, now);
    CheckOfScreened(all, req, now);
    ResultIsLocal(all, req, now);
    ChargeIsLocal(all, req, now);
    ChargeGrows(Part(all, req.tenant), req, now);
    SizeSplits(all, req.tenant);
    SizeSplits(Charge(all, req, now), req.tenant);
  }

  lemma ScreenedIs(req: Request)
    requires Screened(req)
    ensures Admissible(req)
  {
  }

  lemma SweptHistory(hist: seq<Op>, t: string, at: Time)
    ensures var all, mine := After(EMPTY, hist), Part(After(EMPTY, hist), t);
            var op := Forget(Everything(mine), at);
            var next := After(EMPTY, hist + [op]);
            && Part(next, t) == Sweep(mine, Everything(mine), at)
            && (forall u :: u != t ==> Part(next, u) == Part(all, u))
            && Size(all) - Size(next) == Size(mine) - Size(Sweep(mine, Everything(mine), at)) >= 0
            && Answers(EMPTY, hist + [op]) == Answers(EMPTY, hist)
  {
    hide *;
    var all := After(EMPTY, hist);
    var op := Forget(Everything(Part(all, t)), at);
    RunSnoc(EMPTY, hist, op);
    ForgetIs(all, op.dropped, at);
    SweepIsLocal(all, t, at);
    SweepShrinks(Part(all, t), op.dropped, at);
    SizeSplits(all, t);
    SizeSplits(Sweep(all, op.dropped, at), t);
  }

  lemma ForgetIs(st: Store, dropped: set<Key>, now: Time)
    ensures Runs.Step(st, Forget(dropped, now)) == Sweep(st, dropped, now)
  {
  }

  /** One object gets a new value, and leaves the table if it is told to; goroutine `i` moves on. */
  function Rewritten(s: State, i: nat, pc: Pc, ref: nat, value: Store, empty: bool): State
    requires i < |s.pcs| && ref < |s.objs|
  {
    s.(pcs := s.pcs[i := pc], objs := s.objs[ref := s.objs[ref].(value := value, detached := empty)],
       table := if empty then s.table - {s.objs[ref].tenant} else s.table)
  }

  lemma RewriteKeepsTable(s: State, i: nat, pc: Pc, ref: nat, value: Store, empty: bool)
    requires TableInv(s) && i < |s.pcs| && ref < |s.objs| && !s.objs[ref].detached && (empty ==> value == EMPTY)
    ensures TableInv(Rewritten(s, i, pc, ref, value, empty))
  {
  }

  lemma RewriteKeepsLocks(s: State, i: nat, pc: Pc, ref: nat, value: Store, empty: bool)
    requires LockInv(s) && i < |s.pcs| && ref < |s.objs| && !s.objs[ref].detached
    requires forall r :: Holding(s.pcs[i], r) <==> Holding(pc, r)
    requires Holding(pc, ref) || s.objs[ref].holder.None?
    requires Holding(pc, ref) ==> !empty
    requires !pc.Cleared? && Placed(s.objs, i, pc)
    ensures LockInv(Rewritten(s, i, pc, ref, value, empty))
  {
    hide CheckResult;
    hide Charge;
    hide Screened;
    hide Created;
    var s' := Rewritten(s, i, pc, ref, value, empty);
    AtPc(s, i);
    forall j | 0 <= j < |s'.pcs|
      ensures Placed(s'.objs, j, s'.pcs[j])
    {
      AtPc(s, j);
    }
    forall r | 0 <= r < |s'.objs| && s'.objs[r].holder.Some?
      ensures s'.objs[r].holder.value < |s'.pcs| && Holding(s'.pcs[s'.objs[r].holder.value], r)
    {
      assert Holding(s.pcs[s.objs[r].holder.value], r);
    }
  }

  lemma CommitKeepsInv(s: State, i: nat)
    requires Inv(s) && Enabled(s, Commit(i))
    ensures Inv(Committed(s, i))
  {
    hide CheckResult;
    hide Charge;
    hide Part;
    hide After;
    hide Answers;
    hide Size;
    hide Screened;
    AtPc(s, i);
    var Cleared(req, now, ref, staged, created, result) := s.pcs[i];
    var s' := Committed(s, i);
    assert Part(After(EMPTY, s.hist), req.tenant) == Seen(s, req.tenant) == s.objs[ref].value;
    ChargedHistory(s.hist, req, now);
    OwedUpdate(s.pcs, i, s'.pcs[i]);
    RewriteKeepsTable(s, i, s'.pcs[i], ref, staged, false);
    RewriteKeepsLocks(s, i, s'.pcs[i], ref, staged, false);
    assert s.objs[ref].(value := staged, detached := false) == s.objs[ref].(value := staged);
    forall t
      ensures Part(After(EMPTY, s'.hist), t) == Seen(s', t)
    {
      assert Part(After(EMPTY, s.hist), t) == Seen(s, t);
    }
  }

  lemma SweepKeepsInv(s: State, i: nat, t: string)
    requires Inv(s) && Enabled(s, SweepTenant(i, t))
    ensures Inv(Swept(s, i, t))
  {
    hide Sweep;
    hide Everything;
    hide CheckResult;
    hide Charge;
    hide Part;
    hide After;
    hide Answers;
    hide Size;
    hide Screened;
    AtPc(s, i);
    var ref := s.table[t];
    var s' := Swept(s, i, t);
    var mine := s.objs[ref].value;
    var kept := Sweep(mine, Everything(mine), s.pcs[i].sweptAt);
    assert Part(After(EMPTY, s.hist), t) == Seen(s, t) == mine;
    SweptHistory(s.hist, t, s.pcs[i].sweptAt);
    OwedUpdate(s.pcs, i, s'.pcs[i]);
    RewriteKeepsTable(s, i, s'.pcs[i], ref, kept, kept == EMPTY);
    RewriteKeepsLocks(s, i, s'.pcs[i], ref, kept, kept == EMPTY);
    forall u
      ensures Part(After(EMPTY, s'.hist), u) == Seen(s', u)
    {
      assert Part(After(EMPTY, s.hist), u) == Seen(s, u);
    }
  }

  /** Allowed: the check fails closed on the budget or stages its writes. */
  lemma ClearKeepsInv(s: State, i: nat)
    requires Inv(s) && Enabled(s, Decide(i))
    requires CheckResult(s.objs[s.pcs[i].ref].value, s.pcs[i].req, s.pcs[i].now).allowed && !s.pcs[i].req.peekOnly
    ensures Inv(Decided(s, i))
  {
    hide CheckResult;
    hide Charge;
    hide Size;
    hide Screened;
    hide TableInv;
    hide SerialInv;
    hide CountInv;
    AtPc(s, i);
    var s' := Decided(s, i);
    assert s' == s.(pcs := s.pcs[i := s'.pcs[i]], keys := s.keys);
    MoveKeepsInv(s, i, s'.pcs[i], s.keys);
  }

  lemma MoveOnKeepsInv(s: State, step: Step)
    requires Inv(s) && Enabled(s, step) && (step.Start? || step.StartSweep? || step.EndSweep? || step.AddKeys?)
    ensures Inv(Apply(s, step))
  {
    hide CheckResult;
    hide Charge;
    hide Screened;
    hide TableInv;
    hide SerialInv;
    hide CountInv;
    AtPc(s, step.i);
    var s' := Apply(s, step);
    assert s' == s.(pcs := s.pcs[step.i := s'.pcs[step.i]], keys := s'.keys);
    MoveKeepsInv(s, step.i, s'.pcs[step.i], s'.keys);
  }

  lemma LookupKeepsInv(s: State, i: nat)
    requires Inv(s) && Enabled(s, Lookup(i))
    ensures Inv(LookedUp(s, i))
  {
    hide CheckResult;
    hide Charge;
    hide Screened;
    hide SerialInv;
    hide CountInv;
    AtPc(s, i);
    if s.pcs[i].req.tenant in s.table {
      var s' := LookedUp(s, i);
      assert s' == s.(pcs := s.pcs[i := s'.pcs[i]], keys := s.keys);
      MoveKeepsInv(s, i, s'.pcs[i], s.keys);
    } else {
      CreateKeepsInv(s, i);
    }
  }

  /** A stale reference sends the goroutine back to the table. */
  lemma TryLockKeepsInv(s: State, i: nat)
    requires Inv(s) && Enabled(s, Acquire(i))
    ensures Inv(Acquired(s, i))
  {
    hide CheckResult;
    hide Charge;
    hide Screened;
    hide TableInv;
    hide SerialInv;
    hide CountInv;
    AtPc(s, i);
    if s.objs[s.pcs[i].ref].detached {
      var s' := Acquired(s, i);
      assert s' == s.(pcs := s.pcs[i := s'.pcs[i]], keys := s.keys);
      MoveKeepsInv(s, i, s'.pcs[i], s.keys);
    } else {
      AcquireKeepsInv(s, i);
    }
  }

  lemma StepKeepsInv(s: State, step: Step)
    requires Inv(s) && Enabled(s, step)
    ensures Inv(Apply(s, step))
  {
    hide Inv;
    hide CheckResult;
    hide Charge;
    hide Sweep;
    match step
    case SweepTenant(i, t) => SweepKeepsInv(s, i, t);
    case Lookup(i) => LookupKeepsInv(s, i);
    case Acquire(i) => TryLockKeepsInv(s, i);
    case Decide(i) =>
      var r := CheckResult(s.objs[s.pcs[i].ref].value, s.pcs[i].req, s.pcs[i].now);
      if r.allowed && !s.pcs[i].req.peekOnly {
        ClearKeepsInv(s, i);
      } else {
        AnswerKeepsInv(s, i);
      }
    case Commit(i) => CommitKeepsInv(s, i);
    case Release(i) => ReleaseKeepsInv(s, i);
    case _ => MoveOnKeepsInv(s, step);
  }

  /* ---------- whole interleavings ---------- */

  predicate Runnable(s: State, steps: seq<Step>)
    decreases |steps|
  {
    steps == [] || (Enabled(s, steps[0]) && Runnable(Apply(s, steps[0]), steps[1..]))
  }

  function Final(s: State, steps: seq<Step>): State
    requires Runnable(s, steps)
    decreases |steps|
  {
    if steps == [] then s else Final(Apply(s, steps[0]), steps[1..])
  }

  lemma {:induction false} RunKeepsInv(s: State, steps: seq<Step>)
    requires Inv(s) && Runnable(s, steps)
    ensures Inv(Final(s, steps))
    decreases |steps|
  {
    hide Inv;
    hide Apply;
    if steps != [] {
      StepKeepsInv(s, steps[0]);
      RunKeepsInv(Apply(s, steps[0]), steps[1..]);
    }
  }

  /** After any interleaving: a tenant object is detached exactly when the table does not lead to
      it; a goroutine about to write holds the lock of an object the table leads to, so no debit
      lands out of reach; every answer given is the one the same operations give one at a time,
      in the order they took effect; and the key counter is the number of live counters, plus
      removals a running sweep has yet to subtract, less additions a check has yet to make. */
  lemma RacesAreSerial(maxKeys: nat, goroutines: nat, steps: seq<Step>)
    requires Runnable(Initial(maxKeys, goroutines), steps)
    ensures var s := Final(Initial(maxKeys, goroutines), steps);
            && (forall r :: 0 <= r < |s.objs| ==>
                  (s.objs[r].detached <==> !(s.objs[r].tenant in s.table && s.table[s.objs[r].tenant] == r)))
            && (forall i :: 0 <= i < |s.pcs| && s.pcs[i].Cleared? ==>
                  && s.pcs[i].req.tenant in s.table && s.table[s.pcs[i].req.tenant] == s.pcs[i].ref < |s.objs|
                  && s.objs[s.pcs[i].ref].holder == Some(i))
            && s.outs == Answers(EMPTY, s.hist)
            && (forall t :: Seen(s, t) == Part(After(EMPTY, s.hist), t))
            && s.keys == Size(After(EMPTY, s.hist)) - OwedBy(s.pcs)
  {
    hide Apply;
    InitialInv(maxKeys, goroutines);
    RunKeepsInv(Initial(maxKeys, goroutines), steps);
    var s := Final(Initial(maxKeys, goroutines), steps);
    forall i | 0 <= i < |s.pcs| && s.pcs[i].Cleared?
      ensures s.pcs[i].req.tenant in s.table && s.table[s.pcs[i].req.tenant] == s.pcs[i].ref < |s.objs|
      ensures s.objs[s.pcs[i].ref].holder == Some(i)
    {
      AtPc(s, i);
    }
  }

  /** When in addition the operations took effect at nondecreasing times, sweeps are invisible to
      every racing check, and no limit gives out more than it was configured to. */
  lemma RacesKeepTheQuota(maxKeys: nat, goroutines: nat, steps: seq<Step>, k: Key, from: int, t: int)
    requires Runnable(Initial(maxKeys, goroutines), steps)
    requires Timely(ZERO_TIME, Final(Initial(maxKeys, goroutines), steps).hist)
    requires 0 < k.count && 0 < k.period && 0 < k.capacity && from <= t
    ensures var s := Final(Initial(maxKeys, goroutines), steps);
            && s.outs == Answers(EMPTY, AsksOnly(s.hist))
            && (k.algorithm.SlidingWindow? ==> Admitted(s.hist, s.outs, k, t - k.period, t) <= k.count)
            && (k.algorithm.TokenBucket? ==>
                  Admitted(s.hist, s.outs, k, from - 1, t) * k.period <= k.capacity * k.period + (t - from) * k.count)
  {
    hide *;
    RacesAreSerial(maxKeys, goroutines, steps);
    var s := Final(Initial(maxKeys, goroutines), steps);
    EmptyIsOrdered(ZERO_TIME);
    ForgettingIsInvisible(EMPTY, ZERO_TIME, s.hist);
    if k.algorithm.SlidingWindow? {
      SlidingWindowQuota(s.hist, k, t);
    }
    if k.algorithm.TokenBucket? {
      TokenBucketQuota(s.hist, k, from, t);
    }
  }

  lemma EmptyIsOrdered(clock: Time)
    ensures Ordered(EMPTY, clock)
  {
  }
}
