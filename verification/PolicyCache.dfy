/** The policy cache of internal/policy/cache.go, one lookup at a time: what it may answer, how
    old that may be, and what an invalidation does to the next answer. */
module PolicyCache {
  import opened Limits

  datatype Policy = Policy(name: string, failsClosed: bool, gen: nat)

  const NO_POLICY := Policy("", false, 0)

  datatype TenantError = NotFound | Disabled

  /** What the policy store says: an answer about the tenant, or nothing. */
  datatype Reply = Found(policy: Policy) | Fact(error: TenantError) | Unreachable

  datatype Told = Told(policy: Policy, error: Option<TenantError>)

  datatype Entry = Entry(answer: Told, fetchedAt: Time)

  datatype Config = Config(ttl: int, negTTL: int, stale: int)

  datatype Stats = Stats(hits: nat, misses: nat, stale: nat, invalidated: nat)

  /** What one lookup meets: the clock as it reads it on entry, before a fetch and after it, the
      generation this node knows, and the policy store's reply. */
  datatype Meeting = Meeting(now: Time, again: Time, gen: nat, reply: Reply, fetchedAt: Time)

  /** A reply that is an answer, stamped with the generation read before it was asked for. */
  function Stamped(reply: Reply, gen: nat): (told: Told)
    requires !reply.Unreachable?
    ensures told.policy.gen == gen
    ensures reply.Found? ==>
              && told.error == None && told.policy.name == reply.policy.name
              && told.policy.failsClosed == reply.policy.failsClosed
    ensures reply.Fact? ==> told.error == Some(reply.error)
  {
    if reply.Found? then Told(reply.policy.(gen := gen), None) else Told(NO_POLICY.(gen := gen), Some(reply.error))
  }

  function TTL(config: Config, e: Entry): int {
    if e.answer.error.Some? then config.negTTL else config.ttl
  }

  predicate Expired(config: Config, e: Entry, now: Time) {
    now - e.fetchedAt >= TTL(config, e)
  }

  /** An answer is good for `ttl`, a fact about a tenant that has no policy for `negTTL`. */
  predicate Young(config: Config, e: Entry, now: Time) {
    && (e.answer.error == None ==> now < e.fetchedAt + config.ttl)
    && (e.answer.error != None ==> now < e.fetchedAt + config.negTTL)
  }

  lemma ExpiredIsNotYoung(config: Config, e: Entry, now: Time)
    ensures Expired(config, e, now) <==> !Young(config, e, now)
  {
  }

  class Cache {
    const config: Config
    var entries: map<string, Entry>
    var stats: Stats

    constructor (c: Config)
      ensures config == c && entries == map[] && stats == Stats(0, 0, 0, 0)
    {
      config, entries, stats := c, map[], Stats(0, 0, 0, 0);
    }

    /** A tenant's policy, from the cache when it can; None when the policy store could not be
        reached and nothing recent enough is held. */
    method Lookup(tenant: string, m: Meeting) returns (answer: Option<Told>)
      modifies this
      ensures (answer, entries) == Looked(config, old(entries), tenant, m)
      ensures stats.invalidated == old(stats.invalidated)
      ensures stats.hits == old(stats.hits)
              + if tenant in old(entries) && Young(config, old(entries)[tenant], m.now) then 1 else 0
      ensures stats.stale == old(stats.stale)
              + if answer.Some? && m.reply.Unreachable? && tenant in old(entries)
                   && !Young(config, old(entries)[tenant], m.now) && !Young(config, old(entries)[tenant], m.again)
                then 1 else 0
      ensures stats.hits + stats.misses + stats.stale
              == old(stats.hits + stats.misses + stats.stale) + if answer.Some? then 1 else 0
    {
      var held := if tenant in entries then Some(entries[tenant]) else None;
      if held.Some? && !Expired(config, held.value, m.now) {
        stats := stats.(hits := stats.hits + 1);
        return Some(held.value.answer);
      }
      // Inside the flight: somebody else may have refreshed the entry in the meantime.
      if held.Some? && !Expired(config, held.value, m.again) {
        stats := stats.(misses := stats.misses + 1);
        return Some(held.value.answer);
      }
      if m.reply.Unreachable? {
        if held.Some? && config.stale > 0 && m.now - held.value.fetchedAt <= config.stale {
          stats := stats.(stale := stats.stale + 1);
          return Some(held.value.answer);
        }
        return None;
      }
      var read := Entry(Stamped(m.reply, m.gen), m.fetchedAt);
      entries := entries[tenant := read];
      stats := stats.(misses := stats.misses + 1);
      answer := Some(read.answer);
    }

    method Invalidate(tenant: string)
      modifies this
      ensures entries == old(entries) - {tenant} && stats == old(stats).(invalidated := old(stats).invalidated + 1)
    {
      entries := entries - {tenant};
      stats := stats.(invalidated := stats.invalidated + 1);
    }

    method InvalidateAll()
      modifies this
      ensures entries == map[] && stats == old(stats).(invalidated := old(stats).invalidated + |old(entries)|)
    {
      stats := stats.(invalidated := stats.invalidated + |entries|);
      entries := map[];
    }
  }

  /** One lookup as a function of what is held. */
  function Looked(config: Config, entries: map<string, Entry>, tenant: string, m: Meeting)
    : (Option<Told>, map<string, Entry>)
  {
    if tenant in entries && !(Expired(config, entries[tenant], m.now) && Expired(config, entries[tenant], m.again)) then
      (Some(entries[tenant].answer), entries)
    else if !m.reply.Unreachable? then
      (Some(Stamped(m.reply, m.gen)), entries[tenant := Entry(Stamped(m.reply, m.gen), m.fetchedAt)])
    else if tenant in entries && 0 < config.stale && m.now - entries[tenant].fetchedAt <= config.stale then
      (Some(entries[tenant].answer), entries)
    else (None, entries)
  }

  /* ---------- whole runs ---------- */

  datatype Op =
    | Look(tenant: string, meeting: Meeting)
    | Drop(tenant: string)
    | DropAll

  function Step(config: Config, entries: map<string, Entry>, op: Op): map<string, Entry> {
    match op
    case Look(t, m) => Looked(config, entries, t, m).1
    case Drop(t) => entries - {t}
    case DropAll => map[]
  }

  /** What is held after a run that started empty. */
  function Held(config: Config, ops: seq<Op>): map<string, Entry> {
    if ops == [] then map[] else Step(config, Held(config, ops[..|ops| - 1]), ops[|ops| - 1])
  }

  /** The lookup at position `i` of the run fetched this entry from the policy store. */
  predicate Fetched(ops: seq<Op>, i: nat, tenant: string, e: Entry) {
    && i < |ops| && ops[i].Look? && ops[i].tenant == tenant && !ops[i].meeting.reply.Unreachable?
    && e == Entry(Stamped(ops[i].meeting.reply, ops[i].meeting.gen), ops[i].meeting.fetchedAt)
  }

  /** No invalidation of the tenant at or after position `i`. */
  predicate Undisturbed(ops: seq<Op>, i: nat, tenant: string) {
    forall j :: i <= j < |ops| ==> !ops[j].DropAll? && ops[j] != Drop(tenant)
  }

  /** What is held was fetched, and has not been invalidated since. */
  lemma {:induction false} HeldWasFetched(config: Config, ops: seq<Op>, tenant: string) returns (i: nat)
    requires tenant in Held(config, ops)
    ensures Fetched(ops, i, tenant, Held(config, ops)[tenant]) && Undisturbed(ops, i, tenant)
  {
    var n := |ops| - 1;
    var before := Held(config, ops[..n]);
    var fetchedNow := ops[n].Look? && ops[n].tenant == tenant
        && (tenant !in before || Held(config, ops)[tenant] != before[tenant]);
    if fetchedNow {
      i := n;
    } else {
      i := HeldWasFetched(config, ops[..n], tenant);
      assert ops[..n][i] == ops[i];
      assert forall j :: i <= j < n ==> ops[..n][j] == ops[j];
    }
  }

  /** Why an answer was given: fetched by this very lookup, or by an earlier one that nothing has
      invalidated, when it is younger than `ttl`, or than `negTTL` if it is a fact about a tenant
      without a policy, or at most `stale` old and the policy store has just failed. */
  predicate Justified(config: Config, ops: seq<Op>, i: nat, tenant: string, m: Meeting, answer: Told, e: Entry) {
    && e.answer == answer
    && Fetched(ops + [Look(tenant, m)], i, tenant, e) && Undisturbed(ops, i, tenant)
    && (|| i == |ops|
        || (answer.error == None && (m.now < e.fetchedAt + config.ttl || m.again < e.fetchedAt + config.ttl))
        || (answer.error != None && (m.now < e.fetchedAt + config.negTTL || m.again < e.fetchedAt + config.negTTL))
        || (m.reply.Unreachable? && 0 < config.stale && m.now <= e.fetchedAt + config.stale))
  }

  /** Bounded staleness over every run of lookups, invalidations and failures. */
  lemma BoundedStaleness(config: Config, ops: seq<Op>, tenant: string, m: Meeting) returns (i: nat, e: Entry)
    requires Looked(config, Held(config, ops), tenant, m).0.Some?
    ensures Justified(config, ops, i, tenant, m, Looked(config, Held(config, ops), tenant, m).0.value, e)
  {
    var held := Held(config, ops);
    var all := ops + [Look(tenant, m)];
    var current := tenant in held && !(Expired(config, held[tenant], m.now) && Expired(config, held[tenant], m.again));
    if !current && !m.reply.Unreachable? {
      i, e := |ops|, Entry(Stamped(m.reply, m.gen), m.fetchedAt);
      assert all[i] == Look(tenant, m);
    } else {
      e := held[tenant];
      i := HeldWasFetched(config, ops, tenant);
      assert all[i] == ops[i];
    }
  }

  /** When the clock does not run backwards a lookup reads it once: the second test never
      overrules the first. */
  lemma SecondReadingIsRedundant(config: Config, entries: map<string, Entry>, tenant: string, m: Meeting)
    requires m.now <= m.again && tenant in entries && Expired(config, entries[tenant], m.now)
    ensures Expired(config, entries[tenant], m.again)
  {
  }

  /** There is no answer exactly when the policy store is down and nothing held is young enough,
      and what is held is replaced exactly when it is not and the store answers. */
  lemma NoAnswerExactlyWhen(config: Config, entries: map<string, Entry>, tenant: string, m: Meeting)
    requires m.now <= m.again
    ensures var (answer, next) := Looked(config, entries, tenant, m);
            && (answer.None? <==>
                  && m.reply.Unreachable?
                  && (tenant in entries ==>
                        var e := entries[tenant];
                        && (e.answer.error == None ==> m.now >= e.fetchedAt + config.ttl)
                        && (e.answer.error != None ==> m.now >= e.fetchedAt + config.negTTL)
                        && !(0 < config.stale && m.now <= e.fetchedAt + config.stale)))
            && next == if m.reply.Unreachable? || (tenant in entries && Young(config, entries[tenant], m.now))
                       then entries else entries[tenant := Entry(Stamped(m.reply, m.gen), m.fetchedAt)]
  {
    if tenant in entries && Expired(config, entries[tenant], m.now) {
      SecondReadingIsRedundant(config, entries, tenant, m);
    }
  }

  /** What the policy store would say about a tenant it knows under this name. */
  function Named(name: string): Reply {
    Found(Policy(name, false, 0))
  }

  /** A held answer is served whatever the policy store would say, that is without asking it,
      exactly while it is younger than `ttl`, or than `negTTL` if it is a fact about a tenant
      without a policy. */
  lemma ServedWithoutAsking(config: Config, entries: map<string, Entry>, tenant: string, now: Time, again: Time,
      gen: nat)
    requires now <= again && tenant in entries
    ensures var e := entries[tenant];
            (forall reply: Reply :: Looked(config, entries, tenant, Meeting(now, again, gen, reply, again))
                                    == (Some(e.answer), entries))
            <==> (if e.answer.error == None then now < e.fetchedAt + config.ttl else now < e.fetchedAt + config.negTTL)
  {
    var e := entries[tenant];
    if Expired(config, e, now) {
      var other := Named(e.answer.policy.name + "'");
      var m := Meeting(now, again, gen, other, again);
      SecondReadingIsRedundant(config, entries, tenant, m);
      assert Looked(config, entries, tenant, m).0.value.policy.name == e.answer.policy.name + "'";
      assert |e.answer.policy.name + "'"| != |e.answer.policy.name|;
    }
  }

  /** A failure is never cached: what is held stays what it was. */
  lemma FailuresAreNotCached(config: Config, entries: map<string, Entry>, tenant: string, m: Meeting)
    requires m.reply.Unreachable?
    ensures Looked(config, entries, tenant, m).1 == entries
  {
  }

  /** After an invalidation, with no fetch for the tenant since, the next answer is one the policy
      store gives now, under the generation known now; if it cannot be reached there is none. */
  lemma FreshAfterInvalidation(config: Config, ops: seq<Op>, d: nat, tenant: string, m: Meeting)
    requires d < |ops| && (ops[d] == Drop(tenant) || ops[d].DropAll?)
    requires forall j :: d < j < |ops| && ops[j].Look? && ops[j].tenant == tenant ==> ops[j].meeting.reply.Unreachable?
    ensures Looked(config, Held(config, ops), tenant, m).0
            == if m.reply.Unreachable? then None else Some(Stamped(m.reply, m.gen))
  {
    assert tenant !in Held(config, ops) by {
      if tenant in Held(config, ops) {
        var i := HeldWasFetched(config, ops, tenant);
      }
    }
  }
}
