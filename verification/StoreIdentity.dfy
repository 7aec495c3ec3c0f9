/** Store identity over runs with wipes, restarts, lagging nodes and racing minters. */
module StoreIdentity {
  import opened Limits
  import opened Fences
  import opened ClusterState
  import opened ClusterLog
  import opened StoreGuard

  /** Where a node's probe stands; `lifetime` says of which store it learnt the generation. */
  datatype Probe =
    | Resting
    | Read(id: Identity, lifetime: nat)
    | Minting(candidate: nat, committed: nat)
    | InForce(gen: nat, lifetime: nat)

  datatype Node = Node(applied: nat, guard: GuardState, probe: Probe)

  /** A question as it reached a node; `refused` says that the guard was latched at that moment. */
  datatype Question = Question(node: nat, tenant: string, refused: bool)

  /** A check that passed the fences, and the question it was made for. */
  datatype Pass = Pass(lifetime: nat, tenant: string, storeGen: nat, question: nat)

  /** A reply of the minting script. */
  datatype Reply = Reply(lifetime: nat, gen: nat)

  /** A guard opening, while lifetime `during` was current, on a generation read in `lifetime`. */
  datatype Opening = Opening(node: nat, lifetime: nat, gen: nat, committed: nat, during: nat)

  /** `names[l]` is the generation written in lifetime `l`, 0 for none yet, and `against[l]` is what
      the log had committed at that moment; the last lifetime is the current one. `proposed` are
      the generations some guard has asked the log to commit. */
  datatype System = System(
    log: seq<Entry>, nodes: seq<Node>, names: seq<nat>, against: seq<nat>, runID: string,
    metas: map<string, Meta>, proposed: set<nat>, questions: seq<Question>,
    replies: seq<Reply>, openings: seq<Opening>, passed: seq<Pass>)

  function Initial(nodes: nat, runID: string): System {
    System([], seq(nodes, _ => Node(0, FRESH, Resting)), [0], [0], runID, map[], {}, [], [], [], [])
  }

  datatype Step =
    | Append(entry: Entry)
    | Learn(n: nat, applied: nat)
    | Wipe(runID: string)
    | Restart(runID: string)
    | Reboot(n: nat, applied: nat)
    | ReadIdentity(n: nat)
    | Judge(n: nat)
    | Mint(n: nat)
    | Conclude(n: nat)
    | Begin(n: nat, tenant: string)
    | Check(q: nat, policyGen: nat)

  function CommittedIn(log: seq<Entry>): nat {
    Replay(START, log).storeGen
  }

  function MetaOf(s: System, tenant: string): Meta {
    if tenant in s.metas then s.metas[tenant] else NO_META
  }

  predicate Alive(s: System, n: nat) {
    n < |s.nodes| && s.nodes[n].applied <= |s.log| && s.names != [] && |s.against| == |s.names|
  }

  /** Store generations are committed only because a guard proposed them. */
  predicate Proposable(s: System, entry: Entry) {
    entry.Some? && entry.value.SetStoreGen? ==> entry.value.gen in s.proposed
  }

  predicate Enabled(s: System, step: Step) {
    match step
    case Learn(n, applied) => n < |s.nodes| && applied <= |s.log|
    case Reboot(n, applied) => n < |s.nodes| && applied <= |s.log|
    case ReadIdentity(n) => Alive(s, n) && s.nodes[n].probe.Resting?
    case Judge(n) => Alive(s, n) && s.nodes[n].probe.Read?
    case Mint(n) => Alive(s, n) && s.nodes[n].probe.Minting?
    case Conclude(n) => Alive(s, n) && s.nodes[n].probe.InForce?
    case Begin(n, _) => Alive(s, n)
    case Check(q, _) => q < |s.questions| && !s.questions[q].refused && Alive(s, s.questions[q].node)
    case Append(entry) => Proposable(s, entry)
    case _ => true
  }

  /** What node `n` knows to be committed. */
  function Knows(s: System, n: nat): nat
    requires Alive(s, n)
  {
    CommittedIn(s.log[..s.nodes[n].applied])
  }

  function SetNode(s: System, n: nat, node: Node): System
    requires n < |s.nodes|
  {
    s.(nodes := s.nodes[n := node])
  }

  function Open(s: System, o: Opening): System {
    s.(openings := s.openings + [o])
  }

  function Judging(s: System, n: nat): System
    requires Enabled(s, Judge(n))
  {
    var Node(applied, guard, Read(id, lifetime)) := s.nodes[n];
    var (g, plan) := Judged(guard, id.gen, Knows(s, n));
    match plan
    case Settled =>
      Open(SetNode(s, n, Node(applied, g, Resting)), Opening(n, lifetime, id.gen, Knows(s, n), |s.names| - 1))
    case Adopt(candidate) =>
      var probe := if id.gen == 0 then Minting(candidate, Knows(s, n)) else InForce(id.gen, lifetime);
      SetNode(s, n, Node(applied, g, probe))
  }

  function MintingStep(s: System, n: nat): System
    requires Enabled(s, Mint(n))
  {
    var Node(applied, guard, Minting(candidate, _)) := s.nodes[n];
    var now := |s.names| - 1;
    var (stored, reply) := MintOnce(s.names[now], candidate);
    SetNode(s, n, Node(applied, guard.(seen := reply), InForce(reply, now)))
      .(names := s.names[now := stored], replies := s.replies + [Reply(now, reply)],
        against := if s.names[now] == 0 then s.against[now := CommittedIn(s.log)] else s.against)
  }

  function Concluding(s: System, n: nat): System
    requires Enabled(s, Conclude(n))
  {
    var Node(applied, guard, InForce(gen, lifetime)) := s.nodes[n];
    var (g, proposed) := Concluded(guard, gen, Knows(s, n));
    var s' := SetNode(s, n, Node(applied, g, Resting));
    if proposed.None? then Open(s', Opening(n, lifetime, gen, Knows(s, n), |s.names| - 1))
    else s'.(proposed := s.proposed + {proposed.value})
  }

  /** A question is refused, and the refusal counted, exactly while the guard is latched. */
  function Beginning(s: System, n: nat, tenant: string): System
    requires Enabled(s, Begin(n, tenant))
  {
    var node := s.nodes[n];
    var denials := node.guard.denials + if node.guard.blocked then 1 else 0;
    SetNode(s, n, node.(guard := node.guard.(denials := denials)))
      .(questions := s.questions + [Question(n, tenant, node.guard.blocked)])
  }

  /** It carries the store generation its node knows when it reaches the store. */
  function Checking(s: System, q: nat, policyGen: nat): System
    requires Enabled(s, Check(q, policyGen))
  {
    var Question(n, tenant, _) := s.questions[q];
    var carried := Knows(s, n);
    match Verify(MetaOf(s, tenant), carried, policyGen)
    case Passed =>
      s.(metas := s.metas[tenant := Record(MetaOf(s, tenant), carried, policyGen)],
         passed := s.passed + [Pass(|s.names| - 1, tenant, carried, q)])
    case StoreReset(_) => SetNode(s, n, s.nodes[n].(guard := Latched(s.nodes[n].guard, RefusedInBand(tenant))))
    case PolicyStale(_) => s
  }

  function Apply(s: System, step: Step): System
    requires Enabled(s, step)
  {
    match step
    case Append(entry) => s.(log := s.log + [entry])
    case Learn(n, applied) => SetNode(s, n, s.nodes[n].(applied := applied))
    case Wipe(runID) => s.(names := s.names + [0], against := s.against + [0], metas := map[], runID := runID)
    case Restart(runID) => s.(runID := runID)
    case Reboot(n, applied) => SetNode(s, n, Node(applied, FRESH, Resting))
    case ReadIdentity(n) =>
      var id := Identity(s.names[|s.names| - 1], s.runID);
      SetNode(s, n, s.nodes[n].(guard := Probed(s.nodes[n].guard, id), probe := Read(id, |s.names| - 1)))
    case Judge(n) => Judging(s, n)
    case Mint(n) => MintingStep(s, n)
    case Conclude(n) => Concluding(s, n)
    case Begin(n, tenant) => Beginning(s, n, tenant)
    case Check(q, policyGen) => Checking(s, q, policyGen)
  }

  predicate Runnable(s: System, steps: seq<Step>)
    decreases |steps|
  {
    steps == [] || (Enabled(s, steps[0]) && Runnable(Apply(s, steps[0]), steps[1..]))
  }

  function Final(s: System, steps: seq<Step>): System
    requires Runnable(s, steps)
    decreases |steps|
  {
    if steps == [] then s else Final(Apply(s, steps[0]), steps[1..])
  }

  /* ---------- what every step keeps ---------- */

  /** A generation learnt in a lifetime is the one name that lifetime was ever given. */
  ghost predicate Learnt(names: seq<nat>, gen: nat, lifetime: nat) {
    lifetime < |names| && (gen != 0 ==> names[lifetime] == gen)
  }

  ghost predicate ProbeInv(names: seq<nat>, p: Probe) {
    match p
    case Resting => true
    case Read(id, lifetime) => Learnt(names, id.gen, lifetime)
    case Minting(candidate, committed) => candidate == committed + 1
    case InForce(gen, lifetime) => gen != 0 && Learnt(names, gen, lifetime)
  }

  ghost predicate NamedOnce(s: System) {
    && s.names != [] && |s.against| == |s.names|
    && (forall n :: 0 <= n < |s.nodes| ==> s.nodes[n].applied <= |s.log| && ProbeInv(s.names, s.nodes[n].probe))
    && (forall i :: 0 <= i < |s.replies| ==>
          s.replies[i].gen != 0 && Learnt(s.names, s.replies[i].gen, s.replies[i].lifetime))
  }

  ghost predicate OpenedRightly(s: System) {
    forall i :: 0 <= i < |s.openings| ==>
      var o := s.openings[i];
      o.gen == o.committed != 0 && Learnt(s.names, o.gen, o.lifetime)
  }

  ghost predicate OneStorePerLifetime(s: System) {
    && (forall i :: 0 <= i < |s.passed| ==> s.passed[i].lifetime < |s.names| && BegunOpen(s, s.passed[i]))
    && (forall i :: 0 <= i < |s.passed| && s.passed[i].lifetime == |s.names| - 1 && s.passed[i].storeGen > 0 ==>
          MetaOf(s, s.passed[i].tenant).storeGen == Some(s.passed[i].storeGen))
    && (forall i, j :: 0 <= i < j < |s.passed| && Comparable(s.passed[i], s.passed[j]) ==>
          s.passed[i].storeGen == s.passed[j].storeGen)
  }

  /** The question was about that tenant and did not meet a latched guard. */
  predicate BegunOpen(s: System, p: Pass) {
    p.question < |s.questions| && s.questions[p.question].tenant == p.tenant && !s.questions[p.question].refused
  }

  /** Two fenced checks of one tenant in one lifetime. */
  predicate Comparable(a: Pass, b: Pass) {
    a.lifetime == b.lifetime && a.tenant == b.tenant && a.storeGen > 0 && b.storeGen > 0
  }

  ghost predicate Inv(s: System) {
    NamedOnce(s) && OpenedRightly(s) && OneStorePerLifetime(s)
  }

  /** Once a lifetime has a name it keeps it. */
  ghost predicate NamesKept(a: seq<nat>, b: seq<nat>) {
    |a| <= |b| && forall l :: 0 <= l < |a| && a[l] != 0 ==> b[l] == a[l]
  }

  lemma MoveNode(s: System, n: nat, node: Node, openings: seq<Opening>)
    requires Inv(s) && n < |s.nodes| && node.applied <= |s.log| && ProbeInv(s.names, node.probe)
    requires OpenedRightly(s.(openings := openings))
    ensures Inv(SetNode(s, n, node).(openings := openings))
  {
    hide ProbeInv;
    hide Learnt;
  }

  lemma JudgeKeepsInv(s: System, n: nat)
    requires Inv(s) && Enabled(s, Judge(n))
    ensures Inv(Judging(s, n))
  {
    hide CommittedIn;
    assert ProbeInv(s.names, s.nodes[n].probe);
    var s' := Judging(s, n);
    assert s' == SetNode(s, n, s'.nodes[n]).(openings := s'.openings);
    MoveNode(s, n, s'.nodes[n], s'.openings);
  }

  lemma ConcludeKeepsInv(s: System, n: nat)
    requires Inv(s) && Enabled(s, Conclude(n))
    ensures Inv(Concluding(s, n))
  {
    hide CommittedIn;
    assert ProbeInv(s.names, s.nodes[n].probe);
    var s' := Concluding(s, n);
    assert s' == SetNode(s, n, s'.nodes[n]).(openings := s'.openings, proposed := s'.proposed);
    MoveNode(s, n, s'.nodes[n], s'.openings);
  }

  lemma ProbeSurvives(a: seq<nat>, b: seq<nat>, p: Probe)
    requires NamesKept(a, b) && ProbeInv(a, p)
    ensures ProbeInv(b, p)
  {
  }

  lemma RenameKeepsInv(s: System, names: seq<nat>, against: seq<nat>)
    requires Inv(s) && NamesKept(s.names, names) && |names| == |s.names| == |against|
    ensures Inv(s.(names := names, against := against))
  {
    forall n | 0 <= n < |s.nodes|
      ensures ProbeInv(names, s.nodes[n].probe)
    {
      ProbeSurvives(s.names, names, s.nodes[n].probe);
    }
    forall i | 0 <= i < |s.replies|
      ensures Learnt(names, s.replies[i].gen, s.replies[i].lifetime)
    {
      assert Learnt(s.names, s.replies[i].gen, s.replies[i].lifetime);
    }
    forall i | 0 <= i < |s.openings|
      ensures Learnt(names, s.openings[i].gen, s.openings[i].lifetime)
    {
      assert Learnt(s.names, s.openings[i].gen, s.openings[i].lifetime);
    }
  }

  lemma MintKeepsInv(s: System, n: nat)
    requires Inv(s) && Enabled(s, Mint(n))
    ensures Inv(MintingStep(s, n))
  {
    assert ProbeInv(s.names, s.nodes[n].probe);
    var s' := MintingStep(s, n);
    RenameKeepsInv(s, s'.names, s'.against);
    var t := s.(names := s'.names, against := s'.against);
    MoveNode(t, n, s'.nodes[n], t.openings);
  }

  lemma WipeKeepsInv(s: System, runID: string)
    requires Inv(s)
    ensures Inv(Apply(s, Wipe(runID)))
  {
    var s' := Apply(s, Wipe(runID));
    forall n | 0 <= n < |s.nodes|
      ensures ProbeInv(s'.names, s.nodes[n].probe)
    {
      ProbeSurvives(s.names, s'.names, s.nodes[n].probe);
    }
    forall i | 0 <= i < |s.replies|
      ensures Learnt(s'.names, s.replies[i].gen, s.replies[i].lifetime)
    {
      assert Learnt(s.names, s.replies[i].gen, s.replies[i].lifetime);
    }
    forall i | 0 <= i < |s.openings|
      ensures Learnt(s'.names, s.openings[i].gen, s.openings[i].lifetime)
    {
      assert Learnt(s.names, s.openings[i].gen, s.openings[i].lifetime);
    }
  }

  lemma CheckKeepsInv(s: System, q: nat, policyGen: nat)
    requires Inv(s) && Enabled(s, Check(q, policyGen))
    ensures Inv(Checking(s, q, policyGen))
  {
    hide CommittedIn;
    var s' := Checking(s, q, policyGen);
    var Question(n, tenant, _) := s.questions[q];
    var carried, meta := Knows(s, n), MetaOf(s, tenant);
    if Verify(meta, carried, policyGen).Passed? {
      PassingIsRecorded(meta, carried, policyGen);
      forall i, j | 0 <= i < j < |s'.passed| && Comparable(s'.passed[i], s'.passed[j])
        ensures s'.passed[i].storeGen == s'.passed[j].storeGen
      {
        if j < |s.passed| {
          assert Comparable(s.passed[i], s.passed[j]);
        }
      }
    } else if Verify(meta, carried, policyGen).StoreReset? {
      assert ProbeInv(s.names, s.nodes[n].probe);
      MoveNode(s, n, s'.nodes[n], s.openings);
    }
  }

  lemma BeginKeepsInv(s: System, n: nat, tenant: string)
    requires Inv(s) && Enabled(s, Begin(n, tenant))
    ensures Inv(Beginning(s, n, tenant))
  {
    hide CommittedIn;
    assert ProbeInv(s.names, s.nodes[n].probe);
    var s' := Beginning(s, n, tenant);
    MoveNode(s, n, s'.nodes[n], s.openings);
  }

  lemma StepKeepsInv(s: System, step: Step)
    requires Inv(s) && Enabled(s, step)
    ensures Inv(Apply(s, step))
  {
    hide CommittedIn;
    match step
    case Learn(n, applied) =>
      assert ProbeInv(s.names, s.nodes[n].probe);
      MoveNode(s, n, Apply(s, step).nodes[n], s.openings);
    case Reboot(n, applied) => MoveNode(s, n, Apply(s, step).nodes[n], s.openings);
    case ReadIdentity(n) => MoveNode(s, n, Apply(s, step).nodes[n], s.openings);
    case Judge(n) => JudgeKeepsInv(s, n);
    case Mint(n) => MintKeepsInv(s, n);
    case Conclude(n) => ConcludeKeepsInv(s, n);
    case Wipe(runID) => WipeKeepsInv(s, runID);
    case Begin(n, tenant) => BeginKeepsInv(s, n, tenant);
    case Check(q, policyGen) => CheckKeepsInv(s, q, policyGen);
    case _ =>
  }

  lemma {:induction false} RunKeepsInv(s: System, steps: seq<Step>)
    requires Inv(s) && Runnable(s, steps)
    ensures Inv(Final(s, steps))
    decreases |steps|
  {
    hide Inv;
    hide Apply;
    if steps != [] {
      StepKeepsInv(s, steps[0]);
      RunKeepsInv(Apply(s, steps[0]), steps[1..]);
    }
  }

  lemma InitialInv(nodes: nat, runID: string)
    ensures Inv(Initial(nodes, runID))
  {
  }

  /** Over every run: in one lifetime of the store every minter is told the same generation, and
      it is the one the store carries; a guard opens only on the generation its node knows to be
      committed, which was the name of the lifetime it was read in; no question that met a latched
      guard passes; and all fenced checks of a tenant that pass in one lifetime carry the same
      store generation. */
  lemma IdentityHolds(nodes: nat, runID: string, steps: seq<Step>)
    requires Runnable(Initial(nodes, runID), steps)
    ensures var s := Final(Initial(nodes, runID), steps);
            && (forall i :: 0 <= i < |s.replies| ==>
                  s.replies[i].lifetime < |s.names| && s.replies[i].gen == s.names[s.replies[i].lifetime] != 0)
            && (forall i :: 0 <= i < |s.openings| ==>
                  && s.openings[i].gen == s.openings[i].committed != 0
                  && s.openings[i].lifetime < |s.names| && s.names[s.openings[i].lifetime] == s.openings[i].gen)
            && (forall i :: 0 <= i < |s.passed| ==>
                  s.passed[i].question < |s.questions| && !s.questions[s.passed[i].question].refused)
            && (forall i, j :: 0 <= i < j < |s.passed| && Comparable(s.passed[i], s.passed[j]) ==>
                  s.passed[i].storeGen == s.passed[j].storeGen)
  {
    hide Apply;
    InitialInv(nodes, runID);
    RunKeepsInv(Initial(nodes, runID), steps);
  }

  /** A running node's guard opens only by a probe that concluded so, and every one is on record. */
  lemma OpeningsAreRecorded(s: System, step: Step, n: nat)
    requires Enabled(s, step) && !step.Reboot? && n < |s.nodes| && s.nodes[n].guard.blocked
    ensures var s' := Apply(s, step);
            n < |s'.nodes| && (!s'.nodes[n].guard.blocked ==>
              s'.openings != s.openings && s'.openings[|s'.openings| - 1].node == n)
  {
    hide CommittedIn;
  }

  /** The committed store generation never decreases along a run. */
  lemma {:induction false} CommittedNeverFalls(s: System, steps: seq<Step>)
    requires Runnable(s, steps)
    ensures CommittedIn(s.log) <= CommittedIn(Final(s, steps).log)
    decreases |steps|
  {
    hide CommittedIn;
    if steps != [] {
      LogOnlyGrows(s, steps[0]);
      CommittedNeverFalls(Apply(s, steps[0]), steps[1..]);
    }
  }

  lemma LogOnlyGrows(s: System, step: Step)
    requires Enabled(s, step)
    ensures CommittedIn(s.log) <= CommittedIn(Apply(s, step).log)
  {
    var after := Apply(s, step).log;
    if step.Append? {
      GenerationsRise(after, |s.log|);
      assert after[..|s.log|] == s.log;
    }
  }

  /** Recovery is not promised: a tenant whose counters were adopted under one generation refuses
      every other one for the rest of that lifetime, and the node that tried latches. */
  lemma AdoptedGenerationSticks(s: System, i: nat, q: nat, policyGen: nat)
    requires Inv(s) && i < |s.passed| && s.passed[i].lifetime == |s.names| - 1 && s.passed[i].storeGen > 0
    requires Enabled(s, Check(q, policyGen)) && s.questions[q].tenant == s.passed[i].tenant
    requires Knows(s, s.questions[q].node) != 0 && Knows(s, s.questions[q].node) != s.passed[i].storeGen
    ensures var s' := Checking(s, q, policyGen);
            s'.passed == s.passed && s'.metas == s.metas && s'.nodes[s.questions[q].node].guard.blocked
  {
    hide CommittedIn;
    assert MetaOf(s, s.passed[i].tenant).storeGen == Some(s.passed[i].storeGen);
  }
}
