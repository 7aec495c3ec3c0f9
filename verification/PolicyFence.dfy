/** The policy fence over every interleaving of the parts that implement it: edits land in the
    policy store and then mint a generation in the log (internal/gateway/cluster_admin.go), each
    node applies the log at its own pace, a cache stamps the generation it knows before it reads
    the policy (internal/policy/cache.go), and the counter store compares generations
    (internal/limiter/redis/check.lua). */
module PolicyFence {
  import opened Limits
  import opened Fences
  import opened ClusterState
  import opened ClusterLog

  /** What the policy store holds: the limits of each tenant. */
  type Policies = map<string, seq<Limit>>

  /** Edit number `edit` was given generation `gen`. */
  datatype Mint = Mint(edit: nat, gen: nat)

  /** A query whose generation has been read and whose answer has not arrived. */
  datatype Fetch = Fetch(tenant: string, gen: nat)

  /** A policy as a node holds it: read at version `version` of the store, stamped `gen`. */
  datatype Copy = Copy(tenant: string, version: nat, limits: seq<Limit>, gen: nat)

  /** A check that passed the fences, in the given lifetime of the counter store. */
  datatype Pass = Pass(lifetime: nat, copy: Copy)

  /** `versions[e]` is the first content that includes edit `e`; `versions[0]` includes none. A
      node is how much of the log it has applied. `copies` are all policies any node ever held:
      whatever a cache keeps, drops or has in flight, a check uses one of these. */
  datatype System = System(
    versions: seq<Policies>, log: seq<Entry>, mints: set<Mint>, nodes: seq<nat>,
    fetches: set<Fetch>, copies: set<Copy>, metas: map<string, Meta>, lifetime: nat, passed: seq<Pass>)

  function Initial(policies: Policies, nodes: nat): System {
    System([policies], [], {}, seq(nodes, _ => 0), {}, {}, map[], 0, [])
  }

  datatype Step =
    | Edit(policies: Policies)
    | Bump(edit: nat)
    | Append(entry: Entry)
    | Learn(node: nat, applied: nat)
    | ReadStamp(node: nat, tenant: string)
    | ReadPolicy(fetch: Fetch)
    | Check(copy: Copy, storeGen: nat)
    | Wipe

  function GenOf(log: seq<Entry>): nat {
    Replay(START, log).policyGen
  }

  function MetaOf(s: System, tenant: string): Meta {
    if tenant in s.metas then s.metas[tenant] else NO_META
  }

  predicate Enabled(s: System, step: Step) {
    match step
    case Bump(e) => 0 < e < |s.versions|
    case Learn(n, applied) => n < |s.nodes| && applied <= |s.log|
    case ReadStamp(n, _) => n < |s.nodes| && s.nodes[n] <= |s.log|
    case ReadPolicy(f) => f in s.fetches && s.versions != [] && f.tenant in s.versions[|s.versions| - 1]
    case Check(x, _) => x in s.copies
    case _ => true
  }

  function Apply(s: System, step: Step): System
    requires Enabled(s, step)
  {
    match step
    case Edit(policies) => s.(versions := s.versions + [policies])
    case Bump(e) =>
      var log := s.log + [Some(BumpPolicyGen)];
      s.(log := log, mints := s.mints + {Mint(e, GenOf(log))})
    case Append(entry) => s.(log := s.log + [entry])
    case Learn(n, applied) => s.(nodes := s.nodes[n := applied])
    case ReadStamp(n, tenant) => s.(fetches := s.fetches + {Fetch(tenant, GenOf(s.log[..s.nodes[n]]))})
    case ReadPolicy(f) =>
      var v := |s.versions| - 1;
      s.(copies := s.copies + {Copy(f.tenant, v, s.versions[v][f.tenant], f.gen)})
    case Check(x, storeGen) =>
      if Verify(MetaOf(s, x.tenant), storeGen, x.gen).Passed? then
        s.(metas := s.metas[x.tenant := Record(MetaOf(s, x.tenant), storeGen, x.gen)],
           passed := s.passed + [Pass(s.lifetime, x)])
      else s
    case Wipe => s.(metas := map[], lifetime := s.lifetime + 1)
  }

  predicate Runnable(s: System, steps: seq<Step>)
    decreases |steps|
  {
    steps == [] || (Enabled(s, steps[0]) && Runnable(Apply(s, steps[0]), steps[1..]))
  }

  function Final(s: System, steps: seq<Step>): System
    requires Runnable(s, steps)
    decreases |steps|
  {
    if steps == [] then s else Final(Apply(s, steps[0]), steps[1..])
  }

  /* ---------- what every step keeps ---------- */

  /** Generations are minted for edits that have landed, and no node has seen a larger one than
      the log holds. */
  ghost predicate Minted(s: System) {
    && s.versions != []
    && (forall m :: m in s.mints ==> 0 < m.edit < |s.versions| && m.gen <= GenOf(s.log))
    && (forall f :: f in s.fetches ==> f.gen <= GenOf(s.log))
    && (forall n :: 0 <= n < |s.nodes| ==> s.nodes[n] <= |s.log|)
  }

  /** The stamp was read before the policy: a copy stamped `g` includes every edit with a
      generation up to `g`. It is what the store held at the version it was read at. */
  ghost predicate Truthful(s: System) {
    && (forall x, m :: x in s.copies && m in s.mints && m.gen <= x.gen ==> m.edit <= x.version)
    && (forall x :: x in s.copies ==>
          && x.gen <= GenOf(s.log) && x.version < |s.versions|
          && x.tenant in s.versions[x.version] && x.limits == s.versions[x.version][x.tenant])
  }

  /** The counter store remembers the largest generation that passed in this lifetime, so
      generations that pass never go back. */
  ghost predicate Fenced(s: System) {
    && (forall i :: 0 <= i < |s.passed| ==> s.passed[i].lifetime <= s.lifetime && s.passed[i].copy in s.copies)
    && (forall i :: 0 <= i < |s.passed| && s.passed[i].lifetime == s.lifetime && s.passed[i].copy.gen > 0 ==>
          var meta := MetaOf(s, s.passed[i].copy.tenant);
          meta.policyGen.Some? && s.passed[i].copy.gen <= meta.policyGen.value)
    && (forall i, j :: 0 <= i < j < |s.passed| && Comparable(s.passed[i], s.passed[j]) ==>
          s.passed[i].copy.gen <= s.passed[j].copy.gen)
  }

  /** Two fenced checks of one tenant in one lifetime. */
  predicate Comparable(a: Pass, b: Pass) {
    a.lifetime == b.lifetime && a.copy.tenant == b.copy.tenant && a.copy.gen > 0 && b.copy.gen > 0
  }

  /** Nothing newer than the log has minted is ever recorded. */
  ghost predicate Bounded(s: System) {
    forall t :: t in s.metas && s.metas[t].policyGen.Some? ==> s.metas[t].policyGen.value <= GenOf(s.log)
  }

  ghost predicate Inv(s: System) {
    Minted(s) && Truthful(s) && Fenced(s) && Bounded(s)
  }

  lemma LogGrows(log: seq<Entry>, e: Entry)
    ensures GenOf(log) <= GenOf(log + [e])
    ensures e == Some(BumpPolicyGen) ==> GenOf(log + [e]) == GenOf(log) + 1
  {
    hide Next;
    assert (log + [e])[..|log|] == log;
    Reachable(log);
    if e.Some? {
      EveryEntry(Replay(START, log), e.value);
    }
  }

  lemma PrefixGen(log: seq<Entry>, k: nat)
    requires k <= |log|
    ensures GenOf(log[..k]) <= GenOf(log)
  {
    GenerationsRise(log, k);
  }

  lemma LogKeepsInv(s: System, e: Entry, mints: set<Mint>)
    requires Inv(s) && forall m :: m in mints ==>
             0 < m.edit < |s.versions| && m.gen == GenOf(s.log + [e]) > GenOf(s.log)
    ensures Inv(s.(log := s.log + [e], mints := s.mints + mints))
  {
    hide GenOf;
    LogGrows(s.log, e);
  }

  lemma CheckKeepsInv(s: System, x: Copy, storeGen: nat)
    requires Inv(s) && x in s.copies
    ensures Inv(Apply(s, Check(x, storeGen)))
  {
    hide GenOf;
    var s' := Apply(s, Check(x, storeGen));
    var meta := MetaOf(s, x.tenant);
    if Verify(meta, storeGen, x.gen).Passed? {
      PassingIsRecorded(meta, storeGen, x.gen);
      forall i, j | 0 <= i < j < |s'.passed| && Comparable(s'.passed[i], s'.passed[j])
        ensures s'.passed[i].copy.gen <= s'.passed[j].copy.gen
      {
        if j < |s.passed| {
          assert Comparable(s.passed[i], s.passed[j]);
        }
      }
    }
  }

  lemma StepKeepsInv(s: System, step: Step)
    requires Inv(s) && Enabled(s, step)
    ensures Inv(Apply(s, step))
  {
    hide GenOf;
    match step
    case Bump(e) =>
      hide *;
      BumpKeepsInv(s, e);
    case Append(entry) =>
      hide *;
      AppendKeepsInv(s, entry);
    case ReadStamp(n, tenant) =>
      PrefixGen(s.log, s.nodes[n]);
      assert Fenced(Apply(s, step));
    case Check(x, storeGen) => CheckKeepsInv(s, x, storeGen);
    case Edit(policies) => EditKeepsInv(s, policies);
    case ReadPolicy(f) => ReadKeepsInv(s, f);
    case _ =>
  }

  lemma BumpKeepsInv(s: System, e: nat)
    requires Inv(s) && Enabled(s, Bump(e))
    ensures Inv(Apply(s, Bump(e)))
  {
    hide GenOf;
    hide Inv;
    LogGrows(s.log, Some(BumpPolicyGen));
    LogKeepsInv(s, Some(BumpPolicyGen), {Mint(e, GenOf(s.log + [Some(BumpPolicyGen)]))});
  }

  lemma AppendKeepsInv(s: System, entry: Entry)
    requires Inv(s)
    ensures Inv(Apply(s, Append(entry)))
  {
    hide Inv;
    LogKeepsInv(s, entry, {});
    assert s.mints + {} == s.mints;
  }

  lemma EditKeepsInv(s: System, policies: Policies)
    requires Inv(s)
    ensures Inv(Apply(s, Edit(policies)))
  {
    hide GenOf;
    assert Fenced(Apply(s, Edit(policies)));
    hide Fenced;
  }

  lemma ReadKeepsInv(s: System, f: Fetch)
    requires Inv(s) && Enabled(s, ReadPolicy(f))
    ensures Inv(Apply(s, ReadPolicy(f)))
  {
    hide GenOf;
    assert Fenced(Apply(s, ReadPolicy(f)));
    hide Fenced;
  }

  lemma {:induction false} RunKeepsInv(s: System, steps: seq<Step>)
    requires Inv(s) && Runnable(s, steps)
    ensures Inv(Final(s, steps))
    decreases |steps|
  {
    hide Inv;
    hide Apply;
    if steps != [] {
      StepKeepsInv(s, steps[0]);
      RunKeepsInv(Apply(s, steps[0]), steps[1..]);
    }
  }

  lemma InitialInv(policies: Policies, nodes: nat)
    ensures Inv(Initial(policies, nodes))
  {
  }

  /** Over every interleaving, once a check carrying an edit's generation, or a later one, has
      passed for a tenant, no later check of that tenant in the same lifetime of the store passes
      with a nonzero stamp and limits that predate the edit. */
  lemma NoCheckPredatesAnEnforcedEdit(policies: Policies, nodes: nat, steps: seq<Step>, m: Mint, i: nat, j: nat)
    requires Runnable(Initial(policies, nodes), steps)
    requires var s := Final(Initial(policies, nodes), steps);
             && m in s.mints && i <= j < |s.passed|
             && Comparable(s.passed[i], s.passed[j]) && m.gen <= s.passed[i].copy.gen
    ensures var s := Final(Initial(policies, nodes), steps);
            var used := s.passed[j].copy;
            && m.edit <= used.version < |s.versions|
            && used.tenant in s.versions[used.version] && used.limits == s.versions[used.version][used.tenant]
  {
    hide Apply;
    hide GenOf;
    InitialInv(policies, nodes);
    RunKeepsInv(Initial(policies, nodes), steps);
    var s := Final(Initial(policies, nodes), steps);
    assert s.passed[i].copy.gen <= s.passed[j].copy.gen;
    assert s.passed[j].copy in s.copies;
  }

  /** Every policy a node ever holds with a nonzero stamp includes every edit minted up to it. */
  lemma StampsAreHonest(policies: Policies, nodes: nat, steps: seq<Step>, x: Copy, m: Mint)
    requires Runnable(Initial(policies, nodes), steps)
    requires var s := Final(Initial(policies, nodes), steps);
             x in s.copies && m in s.mints && m.gen <= x.gen
    ensures m.edit <= x.version
  {
    hide Apply;
    hide GenOf;
    InitialInv(policies, nodes);
    RunKeepsInv(Initial(policies, nodes), steps);
  }

  /* ---------- a new policy takes hold ---------- */

  /** A check under the newest generation minted passes, whatever the tenant's meta holds, unless
      the store is not the one it names. */
  lemma NewestPasses(s: System, x: Copy, storeGen: nat)
    requires Inv(s) && x in s.copies && x.gen == GenOf(s.log) && SameStore(MetaOf(s, x.tenant), storeGen)
    ensures Apply(s, Check(x, storeGen)).passed == s.passed + [Pass(s.lifetime, x)]
  {
    hide GenOf;
    PassesExactlyWhen(MetaOf(s, x.tenant), storeGen, x.gen);
  }

  /** An edit that has landed is bumped, node `n` applies the bump, stamps, reads and checks. */
  function TakesHold(s: System, e: nat, n: nat, x: Copy, storeGen: nat): seq<Step> {
    [Bump(e), Learn(n, |s.log| + 1), ReadStamp(n, x.tenant), ReadPolicy(Fetch(x.tenant, x.gen)), Check(x, storeGen)]
  }

  /** What that node reads: the newest content, under the generation just minted. */
  function Reading(s: System, tenant: string): Copy
    requires s.versions != [] && tenant in s.versions[|s.versions| - 1]
  {
    var newest := |s.versions| - 1;
    Copy(tenant, newest, s.versions[newest][tenant], GenOf(s.log) + 1)
  }

  lemma Take(s: System, steps: seq<Step>)
    requires steps != [] && Enabled(s, steps[0]) && Runnable(Apply(s, steps[0]), steps[1..])
    ensures Runnable(s, steps) && Final(s, steps) == Final(Apply(s, steps[0]), steps[1..])
  {
  }

  /** A node that has applied the whole log stamps, reads and checks. */
  lemma CaughtUpPasses(s: System, n: nat, tenant: string, storeGen: nat)
    requires Inv(s) && n < |s.nodes| && s.nodes[n] == |s.log|
    requires s.versions != [] && tenant in s.versions[|s.versions| - 1] && SameStore(MetaOf(s, tenant), storeGen)
    ensures var newest := |s.versions| - 1;
            var x := Copy(tenant, newest, s.versions[newest][tenant], GenOf(s.log));
            var steps := [ReadStamp(n, tenant), ReadPolicy(Fetch(tenant, x.gen)), Check(x, storeGen)];
            && Runnable(s, steps)
            && Final(s, steps).passed == s.passed + [Pass(s.lifetime, x)] && Final(s, steps).mints == s.mints
  {
    hide Runnable;
    hide Final;
    hide Inv;
    hide GenOf;
    var newest := |s.versions| - 1;
    var x := Copy(tenant, newest, s.versions[newest][tenant], GenOf(s.log));
    var steps := [ReadStamp(n, tenant), ReadPolicy(Fetch(tenant, x.gen)), Check(x, storeGen)];
    assert s.log[..s.nodes[n]] == s.log;
    var s1 := Apply(s, steps[0]);
    StepKeepsInv(s, steps[0]);
    var s2 := Apply(s1, steps[1]);
    StepKeepsInv(s1, steps[1]);
    NewestPasses(s2, x, storeGen);
    var s3 := Apply(s2, steps[2]);
    Nothing(s3);
    assert steps[2..][1..] == [] && steps[1..][1..] == steps[2..];
    Take(s2, steps[2..]);
    Take(s1, steps[1..]);
    Take(s, steps);
  }

  /** From any state a run can reach: once an edit's bump has been learnt, stamped and read, the
      check that carries it passes, and what it enforces includes the edit. */
  lemma EditTakesHold(s: System, e: nat, n: nat, tenant: string, storeGen: nat)
    requires Inv(s) && 0 < e < |s.versions| && n < |s.nodes| && tenant in s.versions[|s.versions| - 1]
    requires SameStore(MetaOf(s, tenant), storeGen)
    ensures var x := Reading(s, tenant);
            var steps := TakesHold(s, e, n, x, storeGen);
            && Runnable(s, steps)
            && var t := Final(s, steps);
               t.passed == s.passed + [Pass(s.lifetime, x)] && Mint(e, x.gen) in t.mints && e <= x.version
  {
    hide Runnable;
    hide Final;
    hide Inv;
    var x := Reading(s, tenant);
    var steps := TakesHold(s, e, n, x, storeGen);
    LogGrows(s.log, Some(BumpPolicyGen));
    hide GenOf;
    var s1 := Apply(s, steps[0]);
    StepKeepsInv(s, steps[0]);
    var s2 := Apply(s1, steps[1]);
    StepKeepsInv(s1, steps[1]);
    CaughtUpPasses(s2, n, tenant, storeGen);
    assert steps[2..] == [ReadStamp(n, tenant), ReadPolicy(Fetch(tenant, x.gen)), Check(x, storeGen)];
    assert steps[1..][1..] == steps[2..];
    Take(s1, steps[1..]);
    Take(s, steps);
  }

  lemma Nothing(s: System)
    ensures Runnable(s, []) && Final(s, []) == s
  {
  }

  /** In particular after any run from the start. */
  lemma EditTakesHoldAfterAnyRun(policies: Policies, nodes: nat, run: seq<Step>, e: nat, n: nat, tenant: string,
      gen: nat)
    requires Runnable(Initial(policies, nodes), run)
    requires var s := Final(Initial(policies, nodes), run);
             && 0 < e < |s.versions| && n < |s.nodes| && tenant in s.versions[|s.versions| - 1]
             && SameStore(MetaOf(s, tenant), gen)
    ensures var s := Final(Initial(policies, nodes), run);
            var x := Reading(s, tenant);
            && Runnable(s, TakesHold(s, e, n, x, gen))
            && Final(s, TakesHold(s, e, n, x, gen)).passed == s.passed + [Pass(s.lifetime, x)]
            && e <= x.version
  {
    hide *;
    InitialInv(policies, nodes);
    RunKeepsInv(Initial(policies, nodes), run);
    EditTakesHold(Final(Initial(policies, nodes), run), e, n, tenant, gen);
  }
}
