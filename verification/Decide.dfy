/** The one place an admission question is answered, internal/decide/decide.go. */
module Decide {
  import opened Limits
  import opened StoreGuard
  import opened PolicyCache

  datatype Query = Query(tenant: string, verb: string, path: string, cost: int, peek: bool, forwarded: bool)

  /** What one attempt meets: the lookup's surroundings, the newest policy generation and the store
      generation this node knows, the counter store's reply, and the owner's id if there is a ring. */
  datatype Attempt = Attempt(meeting: Meeting, newest: nat, storeGen: nat, reply: Outcome, owner: Option<string>)

  /** A question put to the counter store under a policy; `refreshed` says that it was put after
      the cached copy had been dropped. */
  datatype Asked = Asked(request: Request, reply: Outcome, policy: Policy, refreshed: bool)

  type LimitsFor = (Policy, string, string) -> seq<Limit>

  /** An answer with everything a surface needs to render it. */
  datatype Verdict = Verdict(result: Result, policy: Policy, degraded: bool, owner: string, forwarded: bool)

  datatype Problem =
    | NoTenantNamed
    | Fenced
    | StoreUnavailable
    | Impossible(limit: string)
    | Tenant(error: TenantError)
    | PolicyStoreDown

  datatype Ruling = Given(verdict: Verdict) | Failed(problem: Problem)

  /** Who coordinates the tenant, as this node sees it, and what came of asking. */
  datatype Peer =
    | NoRing
    | Self
    | Remote(id: string, answer: Forward)

  datatype Forward = Answered(verdict: Verdict) | PeerUnavailable | AboutTheTenant(problem: Problem)

  /** What the store's reply to one question means. A store that did not decide leaves it to the
      policy's failure mode; a fence refuses whatever that says. */
  predicate Means(a: Asked, r: Ruling) {
    match a.reply
    case Answer(result) => r.Given? && !r.verdict.degraded && r.verdict.result == result && r.verdict.policy == a.policy
    case CostExceedsCapacity(name) => r == Failed(Impossible(name))
    case PolicyIsStale(_, _) => r == Failed(Fenced)
    case StoreWasReset(_, _) => r == Failed(Fenced)
    case _ =>
      if a.policy.failsClosed then r == Failed(StoreUnavailable)
      else r.Given? && r.verdict.degraded && r.verdict.policy == a.policy && r.verdict.result == Result(true, [], "")
  }

  /** No policy could be had, so the store was not asked, or not asked again. */
  predicate NoPolicy(r: Ruling) {
    r.Failed? && (r.problem.PolicyStoreDown? || r.problem.Tenant?)
  }

  /** How a ruling follows from the questions put to the store. */
  predicate Follows(asked: seq<Asked>, r: Ruling) {
    if asked == [] then NoPolicy(r)
    else
      var last := asked[|asked| - 1];
      Means(last, r) || (last.reply.PolicyIsStale? && NoPolicy(r))
  }

  /** What a lookup found, as a ruling when it is not a policy. */
  function Unruled(answer: Option<Told>): Ruling
    requires answer.Some? ==> answer.value.error.Some?
  {
    if answer.None? then Failed(PolicyStoreDown) else Failed(Tenant(answer.value.error.value))
  }

  /** The first lookup found a policy, and either this node knows of a newer generation than its
      stamp or the store does. */
  predicate Outdated(answer: Option<Told>, first: Attempt) {
    && answer.Some? && answer.value.error.None?
    && ((answer.value.policy.gen > 0 && first.newest > answer.value.policy.gen) || first.reply.PolicyIsStale?)
  }

  /** A question as it must be put: the query's own tenant, cost and peek, the limits of the policy
      it is about, that policy's stamp, and the store generation read for this attempt. */
  predicate Proper(a: Asked, q: Query, limitsFor: LimitsFor, attempt: Attempt) {
    && a.reply == attempt.reply
    && a.request.tenant == q.tenant && a.request.cost == q.cost && a.request.peekOnly == q.peek
    && a.request.limits == limitsFor(a.policy, q.verb, q.path)
    && a.request.policyGen == a.policy.gen && a.request.storeGen == attempt.storeGen
  }

  /** Put properly, under no stamped policy older than generation `known`: the policy the first
      lookup found, or the one the policy store gave after the copy had been dropped. */
  predicate Vetted(
    a: Asked, q: Query, limitsFor: LimitsFor, answer: Option<Told>, first: Attempt, second: Attempt, known: nat)
  {
    && Proper(a, q, limitsFor, if a.refreshed then second else first)
    && (a.request.policyGen > 0 ==> a.request.policyGen >= known)
    && (!a.refreshed ==> answer == Some(Told(a.policy, None)))
    && (a.refreshed ==>
          second.meeting.reply.Found? && a.policy == second.meeting.reply.policy.(gen := second.meeting.gen))
  }

  lemma NothingAsked()
    ensures Follows([], Failed(PolicyStoreDown)) && forall e :: Follows([], Failed(Tenant(e)))
    ensures !Follows([], Failed(Fenced)) && forall r :: Follows([], r) ==> NoPolicy(r)
    ensures !NoPolicy(Failed(Fenced))
  {
  }

  lemma OnceAsked(a: Asked)
    ensures forall r :: Means(a, r) ==> Follows([a], r)
    ensures a.reply.PolicyIsStale? ==> Follows([a], Failed(Fenced))
    ensures forall r :: Follows([a], r) && r.Given? ==> !a.reply.PolicyIsStale?
  {
  }

  lemma FollowsLater(head: Asked, asked: seq<Asked>, r: Ruling)
    requires Follows(asked, r) && head.reply.PolicyIsStale?
    ensures Follows([head] + asked, r)
  {
  }

  /** A lookup with nothing held gives what the policy store gives, under the generation read for it. */
  lemma LookedFresh(config: Config, entries: map<string, Entry>, tenant: string, m: Meeting)
    requires tenant !in entries
    ensures var answer := Looked(config, entries, tenant, m).0;
            && (answer.None? <==> m.reply.Unreachable?)
            && (answer.Some? && answer.value.error.None? ==>
                  m.reply.Found? && answer.value.policy == m.reply.policy.(gen := m.gen))
            && (answer.Some? && answer.value.error.Some? ==> m.reply.Fact? && m.reply.error == answer.value.error.value)
  {
  }

  /** What a refreshed lookup amounts to when it finds no policy. */
  function SecondProblem(second: Attempt): Ruling
    requires !second.meeting.reply.Found?
  {
    if second.meeting.reply.Unreachable? then Failed(PolicyStoreDown) else Failed(Tenant(second.meeting.reply.error))
  }

  /** The question put in one attempt. */
  function Put(q: Query, limitsFor: LimitsFor, pol: Policy, attempt: Attempt, refreshed: bool): Asked {
    Asked(Request(q.tenant, limitsFor(pol, q.verb, q.path), q.cost, q.peek, attempt.storeGen, pol.gen),
          attempt.reply, pol, refreshed)
  }

  lemma PutIsVetted(
      q: Query, limitsFor: LimitsFor, pol: Policy, answer: Option<Told>, first: Attempt, second: Attempt,
      known: nat, refreshed: bool)
    requires pol.gen > 0 ==> pol.gen >= known
    requires !refreshed ==> answer == Some(Told(pol, None))
    requires refreshed ==>
               && first == second && second.meeting.reply.Found?
               && pol == second.meeting.reply.policy.(gen := second.meeting.gen)
    ensures Vetted(Put(q, limitsFor, pol, first, refreshed), q, limitsFor, answer, first, second, known)
    ensures var a := Put(q, limitsFor, pol, first, refreshed);
            a.reply == first.reply && a.policy == pol && a.refreshed == refreshed
  {
  }

  lemma VettedCarries(
      a: Asked, q: Query, limitsFor: LimitsFor, found: Option<Told>, answer: Option<Told>, first: Attempt,
      second: Attempt, known: nat)
    requires a.refreshed && Vetted(a, q, limitsFor, found, second, second, known)
    ensures Vetted(a, q, limitsFor, answer, first, second, known)
  {
  }

  class Service {
    const cache: Cache
    const guard: Guard?
    /** `Policy.LimitsFor`: the limits that apply to a method and a path. */
    const limitsFor: LimitsFor
    var local: nat
    var forwarded: nat
    var fellBack: nat
    var policyStale: nat
    var storeFenced: nat

    constructor (policies: Cache, g: Guard?, limits: LimitsFor)
      ensures cache == policies && guard == g && limitsFor == limits
      ensures local == forwarded == fellBack == policyStale == storeFenced == 0
    {
      cache, guard, limitsFor := policies, g, limits;
      local, forwarded, fellBack, policyStale, storeFenced := 0, 0, 0, 0, 0;
    }

    /** Answers without consulting the ring. `refreshed` marks the second attempt, after this
        node's copy of the policy turned out to be out of date; there is no third. `known` is the
        newest generation this node had heard of when the question arrived. */
    method DecideHere(q: Query, refreshed: bool, first: Attempt, second: Attempt, ghost known: nat)
      returns (r: Ruling, asked: seq<Asked>)
      requires known <= first.newest && known <= first.meeting.gen && known <= second.meeting.gen
               && known <= second.newest
      requires refreshed ==> q.tenant !in cache.entries && first == second
      modifies this, cache, guard
      // It asks at most twice: the second time after a refresh, because the first question was fenced.
      ensures |asked| <= if refreshed then 1 else 2
      ensures |asked| == 2 ==> asked[0].reply.PolicyIsStale? && !asked[0].refreshed && asked[1].refreshed
      ensures refreshed ==> forall i :: 0 <= i < |asked| ==> asked[i].refreshed
      // Each question carries what its attempt read, and no stamped policy older than was known at the start.
      ensures var answer := Looked(cache.config, old(cache.entries), q.tenant, first.meeting).0;
              forall i :: 0 <= i < |asked| ==> Vetted(asked[i], q, limitsFor, answer, first, second, known)
      // It invalidates exactly when the copy it found is out of date, and then once.
      ensures var answer := Looked(cache.config, old(cache.entries), q.tenant, first.meeting).0;
              cache.stats.invalidated
              == old(cache.stats.invalidated) + if !refreshed && Outdated(answer, first) then 1 else 0
      // The ruling is what the last reply means, or that there is no policy to ask under.
      ensures Follows(asked, r)
      ensures var answer := Looked(cache.config, old(cache.entries), q.tenant, first.meeting).0;
              NoPolicy(r) ==>
                if !refreshed && Outdated(answer, first)
                then !second.meeting.reply.Found? && r == SecondProblem(second)
                else (answer.Some? ==> answer.value.error.Some?) && r == Unruled(answer)
      ensures r.Given? ==> !r.verdict.forwarded && asked != []
      // A store that turned out to be another one closes the guard; nothing here opens it.
      ensures guard != null && asked != [] && asked[|asked| - 1].reply.StoreWasReset? ==> guard.blocked
      ensures guard != null && old(guard.blocked) ==> guard.blocked
      ensures local == old(local) + if r.Given? && !r.verdict.degraded then 1 else 0
      ensures forwarded == old(forwarded) && fellBack == old(fellBack)
      ensures storeFenced == old(storeFenced) + if asked != [] && asked[|asked| - 1].reply.StoreWasReset? then 1 else 0
      // Every stale copy is counted: the one dropped, and the one still stale after refreshing.
      ensures policyStale - old(policyStale) == cache.stats.invalidated - old(cache.stats.invalidated)
              + if asked != [] && asked[|asked| - 1].reply.PolicyIsStale? && r == Failed(Fenced) then 1 else 0
      decreases !refreshed
    {
      hide Looked;
      hide Follows;
      hide NoPolicy;
      hide Means;
      hide Vetted;
      hide Put;
      ghost var held := cache.entries;
      asked := [];
      var answer := cache.Lookup(q.tenant, first.meeting);
      if refreshed {
        LookedFresh(cache.config, held, q.tenant, first.meeting);
      }
      NothingAsked();
      if answer.None? {
        return Failed(PolicyStoreDown), asked;
      }
      if answer.value.error.Some? {
        return Failed(Tenant(answer.value.error.value)), asked;
      }
      var pol := answer.value.policy;
      if pol.gen > 0 && !refreshed && first.newest > pol.gen {
        policyStale := policyStale + 1;
        cache.Invalidate(q.tenant);
        r, asked := Refreshed(q, second, known, answer, first);
        return;
      }
      PutIsVetted(q, limitsFor, pol, answer, first, second, known, refreshed);
      asked := [Put(q, limitsFor, pol, first, refreshed)];
      OnceAsked(asked[0]);
      if first.reply.PolicyIsStale? {
        policyStale := policyStale + 1;
        if refreshed {
          return Failed(Fenced), asked;
        }
        cache.Invalidate(q.tenant);
        var again;
        r, again := Refreshed(q, second, known, answer, first);
        FollowsLater(asked[0], again, r);
        asked := asked + again;
      } else {
        r := Conclude(q, asked[0], first.owner);
      }
    }

    /** The second attempt, right after the cached copy has been dropped. */
    method Refreshed(q: Query, second: Attempt, ghost known: nat, ghost answer: Option<Told>, ghost first: Attempt)
      returns (r: Ruling, asked: seq<Asked>)
      requires known <= second.meeting.gen && known <= second.newest && q.tenant !in cache.entries
      modifies this, cache, guard
      ensures |asked| <= 1 && (forall i :: 0 <= i < |asked| ==> asked[i].refreshed)
      ensures forall i :: 0 <= i < |asked| ==> Vetted(asked[i], q, limitsFor, answer, first, second, known)
      ensures cache.stats.invalidated == old(cache.stats.invalidated)
      ensures Follows(asked, r) && (NoPolicy(r) ==> !second.meeting.reply.Found? && r == SecondProblem(second))
      ensures r.Given? ==> !r.verdict.forwarded && asked != []
      ensures guard != null && asked != [] && asked[|asked| - 1].reply.StoreWasReset? ==> guard.blocked
      ensures guard != null && old(guard.blocked) ==> guard.blocked
      ensures local == old(local) + if r.Given? && !r.verdict.degraded then 1 else 0
      ensures forwarded == old(forwarded) && fellBack == old(fellBack)
      ensures storeFenced == old(storeFenced) + if asked != [] && asked[|asked| - 1].reply.StoreWasReset? then 1 else 0
      ensures policyStale == old(policyStale)
              + if asked != [] && asked[|asked| - 1].reply.PolicyIsStale? && r == Failed(Fenced) then 1 else 0
      decreases true, 0
    {
      hide Looked;
      hide Follows;
      hide NoPolicy;
      hide Means;
      hide Vetted;
      ghost var held := cache.entries;
      LookedFresh(cache.config, held, q.tenant, second.meeting);
      r, asked := DecideHere(q, true, second, second, known);
      if asked != [] {
        ghost var found := Looked(cache.config, held, q.tenant, second.meeting).0;
        VettedCarries(asked[0], q, limitsFor, found, answer, first, second, known);
      }
    }

    /** What a reply other than a stale policy means. A store that turned out to be another one
        closes the guard, and refuses whatever the failure mode says. */
    method Conclude(q: Query, a: Asked, owner: Option<string>) returns (r: Ruling)
      requires !a.reply.PolicyIsStale?
      modifies this, guard
      ensures Means(a, r) && !NoPolicy(r) && (r.Given? ==> !r.verdict.forwarded)
      ensures r.Given? ==> r.verdict.owner == if owner.Some? && !r.verdict.degraded then owner.value else ""
      ensures guard != null ==> guard.blocked == (old(guard.blocked) || a.reply.StoreWasReset?)
      ensures local == old(local) + if r.Given? && !r.verdict.degraded then 1 else 0
      ensures storeFenced == old(storeFenced) + if a.reply.StoreWasReset? then 1 else 0
      ensures forwarded == old(forwarded) && fellBack == old(fellBack) && policyStale == old(policyStale)
    {
      match a.reply {
        case Answer(result) =>
          local := local + 1;
          r := Given(Verdict(result, a.policy, false, if owner.Some? then owner.value else "", false));
        case CostExceedsCapacity(name) =>
          r := Failed(Impossible(name));
        case StoreWasReset(_, _) =>
          storeFenced := storeFenced + 1;
          if guard != null {
            guard.Fence(q.tenant);
          }
          r := Failed(Fenced);
        case _ =>
          r := if a.policy.failsClosed then Failed(StoreUnavailable)
               else Given(Verdict(Result(true, [], ""), a.policy, true, "", false));
      }
    }

    /** Sends the question to the tenant's owner when that is another node, unless it has been
        sent once already. A peer that does not answer is not an error: this node decides. */
    method MaybeForward(q: Query, peer: Peer) returns (r: Option<Ruling>)
      modifies this
      ensures q.forwarded || !peer.Remote? ==> r == None && forwarded == old(forwarded) && fellBack == old(fellBack)
      ensures !q.forwarded && peer.Remote? ==>
                match peer.answer
                case Answered(verdict) =>
                  && forwarded == old(forwarded) + 1 && fellBack == old(fellBack)
                  && r == Some(Given(verdict.(owner := peer.id, forwarded := true)))
                case PeerUnavailable => r == None && fellBack == old(fellBack) + 1 && forwarded == old(forwarded)
                case AboutTheTenant(problem) =>
                  r == Some(Failed(problem)) && forwarded == old(forwarded) && fellBack == old(fellBack)
      ensures local == old(local) && policyStale == old(policyStale) && storeFenced == old(storeFenced)
    {
      if q.forwarded || !peer.Remote? {
        return None;
      }
      match peer.answer {
        case Answered(verdict) =>
          forwarded := forwarded + 1;
          r := Some(Given(verdict.(owner := peer.id, forwarded := true)));
        case PeerUnavailable =>
          fellBack := fellBack + 1;
          r := None;
        case AboutTheTenant(problem) =>
          r := Some(Failed(problem));
      }
    }

    /** Answers one question. */
    method Decide(q: Query, peer: Peer, first: Attempt, second: Attempt, ghost known: nat)
      returns (r: Ruling, asked: seq<Asked>, sent: bool)
      requires known <= first.newest && known <= first.meeting.gen && known <= second.meeting.gen
               && known <= second.newest
      modifies this, cache, guard
      ensures q.tenant == "" ==> r == Failed(NoTenantNamed) && asked == [] && !sent
      // A question that arrives while the guard is latched is neither decided nor passed on.
      ensures q.tenant != "" && guard != null && old(guard.blocked) ==>
                && r == Failed(Fenced) && asked == [] && !sent && guard.blocked
                && guard.denials == old(guard.denials) + 1 && storeFenced == old(storeFenced) + 1
      // Otherwise it is passed on exactly when it has not been before and the owner is another node.
      ensures q.tenant != "" && (guard == null || old(!guard.blocked)) ==> (sent <==> !q.forwarded && peer.Remote?)
      ensures sent && peer.answer.Answered? ==>
                asked == [] && r == Given(peer.answer.verdict.(owner := peer.id, forwarded := true))
      ensures sent && peer.answer.AboutTheTenant? ==> asked == [] && r == Failed(peer.answer.problem)
      // What this node rules itself follows from what it asked, and each question carries what it read.
      ensures q.tenant != "" && (guard == null || old(!guard.blocked)) && (sent ==> peer.answer.PeerUnavailable?) ==>
                Follows(asked, r) && (r.Given? ==> asked != [] && !r.verdict.forwarded)
      ensures |asked| <= 2
      ensures |asked| == 2 ==> asked[0].reply.PolicyIsStale? && !asked[0].refreshed && asked[1].refreshed
      ensures var answer := Looked(cache.config, old(cache.entries), q.tenant, first.meeting).0;
              forall i :: 0 <= i < |asked| ==> Vetted(asked[i], q, limitsFor, answer, first, second, known)
      ensures forall i :: 0 <= i < |asked| ==>
                asked[i].request.storeGen == if asked[i].refreshed then second.storeGen else first.storeGen
      ensures cache.stats.invalidated <= old(cache.stats.invalidated) + 1
    {
      asked, sent := [], false;
      if q.tenant == "" {
        return Failed(NoTenantNamed), asked, sent;
      }
      if guard != null {
        var open := guard.Check();
        if !open {
          storeFenced := storeFenced + 1;
          return Failed(Fenced), asked, sent;
        }
      }
      sent := !q.forwarded && peer.Remote?;
      var handled := MaybeForward(q, peer);
      if handled.Some? {
        return handled.value, asked, sent;
      }
      r, asked := DecideHere(q, false, first, second, known);
      ghost var answer := Looked(cache.config, old(cache.entries), q.tenant, first.meeting).0;
      assert forall i :: 0 <= i < |asked| ==> Vetted(asked[i], q, limitsFor, answer, first, second, known);
    }
  }
}
