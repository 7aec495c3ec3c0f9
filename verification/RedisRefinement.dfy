/** The script and the in-memory limiter agree on every field of every answer, over every run:
    the Redis database abstracts to a store value, a script call is a check of that value, and a
    key expiring at its deadline is a sweep. */
module RedisRefinement {
  import opened Limits
  import opened Fences
  import opened Gcra
  import opened Windows
  import opened Limiter
  import opened Runs
  import opened RedisStore
  import opened CheckScript
  import RedisClient

  /** The Unix epoch, in nanoseconds since Go's zero time. */
  const UNIX_EPOCH: Time := 62_135_596_800_000_000_000

  function Instant(micros: int): Time
    requires micros >= 0
  {
    UNIX_EPOCH + QUANTUM * micros
  }

  predicate Dated(z: seq<Scored>) {
    forall i :: 0 <= i < |z| ==> z[i].score >= 0
  }

  function Instants(z: seq<Scored>): (log: seq<Time>)
    requires Dated(z)
    ensures |log| == |z| && forall i :: 0 <= i < |z| ==> log[i] == Instant(z[i].score)
  {
    if z == [] then [] else [Instant(z[0].score)] + Instants(z[1..])
  }

  /** Scores in order and none in the future; every member spells its own score, with a suffix
      no larger than the number of entries that share the score. */
  ghost predicate Tidy(z: seq<Scored>, now: int) {
    && Dated(z)
    && (forall i, j :: 0 <= i < j < |z| ==> z[i].score <= z[j].score)
    && (forall i :: 0 <= i < |z| ==> z[i].score <= now && z[i].member.stamp == z[i].score
                                     && z[i].member.suffix <= CountAt(z, z[i].score))
  }

  predicate LivesLongEnough(v: StringValue) {
    0 <= v.value <= v.deadline
  }

  ghost predicate HealthySet(k: Key, s: SortedSet, now: int) {
    && Tidy(s.elements, now)
    && forall i :: 0 <= i < |s.elements| ==> QUANTUM * s.elements[i].score + k.period <= QUANTUM * s.deadline
  }

  /** Every key outlives what it has to say. */
  ghost predicate Healthy(db: Db, now: int) {
    && (forall k :: k in db.strings ==> LivesLongEnough(db.strings[k]))
    && (forall k :: k in db.zsets ==> HealthySet(k, db.zsets[k], now))
  }

  lemma HealthyLater(db: Db, now: int, later: int)
    requires Healthy(db, now) && now <= later
    ensures Healthy(db, later)
  {
  }

  /** The store value a database stands for. */
  ghost function Abs(db: Db, now: int): Store
    requires Healthy(db, now)
  {
    Store(map k | k in db.strings :: Instant(db.strings[k].value),
          map k | k in db.zsets :: Instants(db.zsets[k].elements))
  }

  /* ---------- sorted sets are logs ---------- */

  lemma {:induction false} AboveIsPrune(z: seq<Scored>, cutoff: int, bound: int)
    requires Dated(z) && forall i, j :: 0 <= i < j < |z| ==> z[i].score <= z[j].score
    requires forall i :: 0 <= i < |z| ==> (z[i].score > cutoff <==> Instant(z[i].score) > bound)
    ensures Dated(Above(z, cutoff)) && Instants(Above(z, cutoff)) == Prune(Instants(z), bound)
  {
    if z != [] {
      AboveIsPrune(z[1..], cutoff, bound);
      assert Instants(z)[1..] == Instants(z[1..]);
      if z[0].score > cutoff {
        KeepsAll(z[1..], cutoff);
        assert [z[0]] + z[1..] == z;
      }
    }
  }

  lemma {:induction false} KeepsAll(z: seq<Scored>, cutoff: int)
    requires forall i :: 0 <= i < |z| ==> z[i].score > cutoff
    ensures Above(z, cutoff) == z
  {
    if z != [] {
      KeepsAll(z[1..], cutoff);
    }
  }

  lemma {:induction false} CountAtAbove(z: seq<Scored>, cutoff: int, score: int)
    requires score > cutoff
    ensures CountAt(Above(z, cutoff), score) == CountAt(z, score)
  {
    if z != [] {
      CountAtAbove(z[1..], cutoff, score);
      if z[0].score > cutoff {
        assert Above(z, cutoff)[1..] == Above(z[1..], cutoff);
      } else {
        assert Above(z, cutoff) == Above(z[1..], cutoff);
      }
    }
  }

  lemma {:induction false} AboveKeepsElements(z: seq<Scored>, cutoff: int)
    ensures forall i :: 0 <= i < |Above(z, cutoff)| ==> Above(z, cutoff)[i] in z && Above(z, cutoff)[i].score > cutoff
    ensures (forall i, j :: 0 <= i < j < |z| ==> z[i].score <= z[j].score) ==>
              forall i, j :: 0 <= i < j < |Above(z, cutoff)| ==> Above(z, cutoff)[i].score <= Above(z, cutoff)[j].score
  {
    if z != [] {
      AboveKeepsElements(z[1..], cutoff);
      var rest := Above(z[1..], cutoff);
      assert forall i :: 0 <= i < |rest| ==> rest[i] in z[1..];
    }
  }

  lemma AboveIsTidy(z: seq<Scored>, cutoff: int, now: int)
    requires Tidy(z, now)
    ensures Tidy(Above(z, cutoff), now)
  {
    var kept := Above(z, cutoff);
    AboveKeepsElements(z, cutoff);
    forall i | 0 <= i < |kept|
      ensures 0 <= kept[i].score <= now && kept[i].member.stamp == kept[i].score
      ensures kept[i].member.suffix <= CountAt(kept, kept[i].score)
    {
      CountAtAbove(z, cutoff, kept[i].score);
    }
  }

  lemma {:induction false} AbsentMember(z: seq<Scored>, m: Member)
    requires forall i :: 0 <= i < |z| ==> z[i].member != m
    ensures WithoutMember(z, m) == z
  {
    if z != [] {
      AbsentMember(z[1..], m);
    }
  }

  lemma {:induction false} InsertAtEnd(z: seq<Scored>, x: Scored)
    requires forall i :: 0 <= i < |z| ==> z[i].score <= x.score
    ensures Insert(z, x) == z + [x]
  {
    if z != [] {
      InsertAtEnd(z[1..], x);
    }
  }

  lemma {:induction false} CountAtSnoc(z: seq<Scored>, x: Scored, score: int)
    ensures CountAt(z + [x], score) == CountAt(z, score) + if x.score == score then 1 else 0
  {
    if z == [] {
      assert z + [x] == [x];
    } else {
      assert (z + [x])[1..] == z[1..] + [x];
      CountAtSnoc(z[1..], x, score);
    }
  }

  lemma AppendIsTidy(z: seq<Scored>, x: Scored, now: int)
    requires Tidy(z, now) && x.score == now >= 0 && x.member == Member(now, CountAt(z, now) + 1)
    ensures Tidy(z + [x], now)
  {
    hide CountAt;
    var grown := z + [x];
    forall i | 0 <= i < |grown|
      ensures grown[i].member.suffix <= CountAt(grown, grown[i].score)
    {
      CountAtSnoc(z, x, grown[i].score);
    }
  }

  /** A suffix that counts on from the entries sharing the score is a new member, so `ZADD`
      adds it, at the end of a set that holds nothing from the future. */
  lemma AddIsAppend(z: seq<Scored>, x: Scored, now: int)
    requires Tidy(z, now) && x.score == now && x.member == Member(now, CountAt(z, now) + 1)
    ensures ZAdd(z, now, x.member) == z + [x]
  {
    hide CountAt;
    hide WithoutMember;
    hide Insert;
    AbsentMember(z, x.member);
    InsertAtEnd(z, x);
  }

  lemma InstantsSnoc(z: seq<Scored>, x: Scored)
    requires Dated(z) && x.score >= 0
    ensures Dated(z + [x]) && Instants(z + [x]) == Instants(z) + [Instant(x.score)]
  {
  }

  lemma UnfoldUnits(z: seq<Scored>, now: int, same: nat, at: Time, n: nat)
    ensures n == 0 ==> ZAddUnits(z, now, same, n) == z && Copies(at, n) == []
    ensures n > 0 ==> ZAddUnits(z, now, same, n) == ZAdd(ZAddUnits(z, now, same, n - 1), now, Member(now, same + n))
                      && Copies(at, n) == Copies(at, n - 1) + [at]
  {
  }

  /** The members stay unique: one `ZADD` per unit lengthens the log by one entry each. */
  lemma {:induction false} UnitsAreAppended(z: seq<Scored>, now: int, n: nat)
    requires Tidy(z, now) && Dated(z) && now >= 0
    ensures var grown := ZAddUnits(z, now, CountAt(z, now), n);
            Tidy(grown, now) && CountAt(grown, now) == CountAt(z, now) + n
            && Dated(grown) && Instants(grown) == Instants(z) + Copies(Instant(now), n)
  {
    hide *;
    UnfoldUnits(z, now, CountAt(z, now), Instant(now), n);
    if n > 0 {
      UnitsAreAppended(z, now, n - 1);
      var before := ZAddUnits(z, now, CountAt(z, now), n - 1);
      var x := Scored(now, Member(now, CountAt(before, now) + 1));
      AddIsAppend(before, x, now);
      AppendIsTidy(before, x, now);
      CountAtSnoc(before, x, now);
      InstantsSnoc(before, x);
    }
  }

  /* ---------- one limit ---------- */

  lemma ScaledQuotient(x: int, e: int)
    requires x >= 0 && e > 0
    ensures (QUANTUM * x) / (QUANTUM * e) == x / e
  {
    var q, r := x / e, x % e;
    assert x == e * q + r;
    var step, left := QUANTUM * e, QUANTUM * r;
    assert QUANTUM * x == step * q + left && 0 <= left < step;
    QuotientIsUnique(QUANTUM * x, step, q, left);
  }

  lemma QuotientIsUnique(a: int, n: int, q: int, r: int)
    requires n > 0 && a == n * q + r && 0 <= r < n
    ensures a / n == q
  {
    var q', r' := a / n, a % n;
    assert a == n * q' + r';
    var d := q' - q;
    assert n * d == r - r';
    assert d >= 1 ==> n * d >= n;
    assert d <= -1 ==> n * d <= -n;
  }

  /** What the script computes for a limit against what the limiter decides: `d` about the cost
      and `p` about a peek. */
  predicate Mirrors(e: Entry, d: Decision, p: Decision) {
    && e.allowed == d.allowed
    && QUANTUM * e.retry == d.retryAfter
    && e.remainingNow == p.remaining && QUANTUM * e.resetNow == p.resetAfter
    && (if e.allowed then e.remainingAfter == d.remaining && QUANTUM * e.resetAfter == d.resetAfter
        else d.remaining == p.remaining && d.resetAfter == p.resetAfter)
  }

  /** GCRA in whole microseconds, on bare numbers. */
  lemma PricedAgrees(l: Limit, it: Item, t: int, now: int, price: int)
    requires l.count > 0 && l.period > 0 && it.a > 0 && 0 <= now <= t && price >= 0
    requires Emission(l) == QUANTUM * it.a && Tolerance(l) == QUANTUM * it.b
    ensures var e, peek := BucketPriced(it, t, now, price), BucketNow(it, t, now);
            var p := Decision(l.name, true, Capacity(l), Headroom(l, Instant(t), Instant(now)), 0,
                Instant(t) - Instant(now));
            && Mirrors(e, Priced(l, Instant(t), Instant(now), QUANTUM * price).1, p)
            && (e.allowed ==>
                  e.write >= now && Instant(e.write) == Priced(l, Instant(t), Instant(now), QUANTUM * price).0)
            && Mirrors(peek, p, p)
  {
    hide Emission;
    hide Tolerance;
    hide Headroom;
    HeadroomAgrees(l, it.a, it.b, t, now);
    HeadroomAgrees(l, it.a, it.b, t + price, now);
  }

  lemma BucketAgrees(l: Limit, db: Db, it: Item, tat: Time, now: int, cost: nat)
    requires Enforceable(l) && now >= 0
    requires it.a == Emission(l) / QUANTUM && it.b == Tolerance(l) / QUANTUM && it.a > 0
    requires if it.key in db.strings then db.strings[it.key].value >= 0 && tat == Instant(db.strings[it.key].value)
             else tat == ZERO_TIME
    ensures var e := EvaluateBucket(db, it, now, cost);
            && Mirrors(e, GcraCheck(l, tat, Instant(now), cost).1, GcraCheck(l, tat, Instant(now), 0).1)
            && (e.allowed && cost > 0 ==> e.write >= now && Instant(e.write) == GcraCheck(l, tat, Instant(now), cost).0)
  {
    MicrosecondsAreExact(l);
    hide Emission;
    hide Tolerance;
    hide Headroom;
    hide Enforceable;
    hide Priced;
    hide BucketPriced;
    hide BucketNow;
    hide Mirrors;
    var t := if it.key in db.strings && db.strings[it.key].value >= now then db.strings[it.key].value else now;
    assert Later(tat, Instant(now)) == Instant(t);
    ProductBound(it.a, 0, it.a, cost);
    PricedAgrees(l, it, t, now, it.a * cost);
    Associate(Emission(l), it.a, cost);
  }

  lemma Associate(e: int, a: int, c: int)
    requires e == QUANTUM * a
    ensures e * c == QUANTUM * (a * c)
  {
  }

  lemma HeadroomAgrees(l: Limit, emission: int, tolerance: int, t: int, now: int)
    requires l.count > 0 && l.period > 0 && emission > 0 && 0 <= now <= t
    requires Emission(l) == QUANTUM * emission && Tolerance(l) == QUANTUM * tolerance
    ensures Headroom(l, Instant(t), Instant(now)) == NonNegative(tolerance - (t - now)) / emission
  {
    var free := tolerance - (t - now);
    assert Tolerance(l) - (Instant(t) - Instant(now)) == QUANTUM * free;
    if free >= 0 {
      ScaledQuotient(free, emission);
    } else {
      ScaledQuotient(0, emission);
    }
  }

  /** The two numbers reported as things stand. */
  lemma LiveStanding(l: Limit, it: Item, live: seq<Scored>, log: seq<Time>, now: int)
    requires 0 < l.count && now >= 0 && l.period == QUANTUM * it.a && it.b == l.count
    requires Dated(live) && |log| == |live| && forall i :: 0 <= i < |live| ==>
             live[i].score > now - it.a && log[i] == Instant(live[i].score)
    ensures var e, p := EvaluateLive(it, live, now, 0), LiveVerdict(l, log, Instant(now), 0).1;
            e.remainingNow == p.remaining && QUANTUM * e.resetNow == p.resetAfter && Mirrors(e, p, p)
  {
  }

  lemma LiveRefusal(l: Limit, it: Item, live: seq<Scored>, log: seq<Time>, now: int, cost: nat)
    requires 0 < l.count && 0 < cost <= l.count && now >= 0 && l.period == QUANTUM * it.a && it.b == l.count
    requires Dated(live) && |log| == |live| && forall i :: 0 <= i < |live| ==>
             live[i].score > now - it.a && log[i] == Instant(live[i].score)
    requires |live| + cost > l.count
    ensures Mirrors(EvaluateLive(it, live, now, cost), LiveVerdict(l, log, Instant(now), cost).1,
            LiveVerdict(l, log, Instant(now), 0).1)
  {
    LiveStanding(l, it, live, log, now);
  }

  lemma LiveAdmission(l: Limit, it: Item, live: seq<Scored>, log: seq<Time>, now: int, cost: nat)
    requires 0 < l.count && 0 < cost <= l.count && now >= 0 && l.period == QUANTUM * it.a && it.b == l.count
    requires Dated(live) && |log| == |live| && forall i :: 0 <= i < |live| ==>
             live[i].score > now - it.a && log[i] == Instant(live[i].score)
    requires |live| + cost <= l.count
    ensures var e := EvaluateLive(it, live, now, cost);
            Mirrors(e, LiveVerdict(l, log, Instant(now), cost).1, LiveVerdict(l, log, Instant(now), 0).1)
            && e.cutoff == now - it.a && e.period == it.a
  {
    hide Copies;
    LiveStanding(l, it, live, log, now);
  }

  /** The sliding window in whole microseconds, from the live entries on. */
  lemma LiveAgrees(l: Limit, it: Item, live: seq<Scored>, now: int, cost: nat)
    requires 0 < l.count && cost <= l.count && now >= 0
    requires l.period == QUANTUM * it.a && it.b == l.count
    requires Dated(live) && forall i :: 0 <= i < |live| ==> live[i].score > now - it.a
    ensures var e := EvaluateLive(it, live, now, cost);
            && Mirrors(e, LiveVerdict(l, Instants(live), Instant(now), cost).1,
               LiveVerdict(l, Instants(live), Instant(now), 0).1)
            && (e.allowed && cost > 0 ==> e.cutoff == now - it.a && e.period == it.a)
  {
    if cost == 0 {
      LiveStanding(l, it, live, Instants(live), now);
    } else if |live| + cost > l.count {
      LiveRefusal(l, it, live, Instants(live), now, cost);
      assert !EvaluateLive(it, live, now, cost).allowed;
    } else {
      hide LiveVerdict;
      hide EvaluateLive;
      LiveAdmission(l, it, live, Instants(live), now, cost);
    }
  }

  lemma LiveIsPruned(z: seq<Scored>, now: int, micros: int)
    requires Tidy(z, now) && now >= 0
    ensures var live := Above(z, now - micros);
            && Dated(live) && Instants(live) == Prune(Instants(z), Instant(now) - QUANTUM * micros)
            && forall i :: 0 <= i < |live| ==> live[i].score > now - micros
  {
    AboveKeepsElements(z, now - micros);
    AboveIsPrune(z, now - micros, Instant(now) - QUANTUM * micros);
  }

  /** The sliding window in whole microseconds. */
  lemma WindowAgrees(l: Limit, db: Db, it: Item, now: int, cost: nat)
    requires 0 < l.count && cost <= l.count && now >= 0
    requires l.period == QUANTUM * it.a && it.b == l.count
    requires Tidy(ElementsAt(db, it.key), now) && Dated(ElementsAt(db, it.key))
    ensures var log := Instants(ElementsAt(db, it.key));
            var e := EvaluateWindow(db, it, now, cost);
            && Mirrors(e, WindowVerdict(l, log, Instant(now), cost).1, WindowVerdict(l, log, Instant(now), 0).1)
            && (e.allowed && cost > 0 ==> e.cutoff == now - it.a && e.period == it.a)
  {
    hide Prune;
    hide Above;
    hide LiveVerdict;
    hide EvaluateLive;
    hide Tidy;
    hide Instants;
    LiveIsPruned(ElementsAt(db, it.key), now, it.a);
    LiveAgrees(l, it, Above(ElementsAt(db, it.key), now - it.a), now, cost);
  }

  /** What the agreement needs of a request: distinct keys, and windows of a whole number of
      microseconds, because the script is told the period in microseconds. */
  predicate Faithful(req: Request) {
    && DistinctKeys(req)
    && forall i :: 0 <= i < |req.limits| && req.limits[i].algorithm.SlidingWindow? ==>
       req.limits[i].period % QUANTUM == 0
  }

  lemma EntryMirrors(db: Db, req: Request, i: nat, now: int)
    requires Healthy(db, now) && now >= 0 && Admissible(req) && Faithful(req) && i < |req.limits|
    ensures var l, cost := req.limits[i], EffectiveCost(req);
            var e := Evaluate(db, RedisClient.ItemFor(req.tenant, l), now, cost);
            Mirrors(e, Judge(Abs(db, now), req.tenant, l, Instant(now), cost),
                Judge(Abs(db, now), req.tenant, l, Instant(now), 0))
  {
    var l, cost := req.limits[i], EffectiveCost(req);
    var it := RedisClient.ItemFor(req.tenant, l);
    if l.algorithm.TokenBucket? {
      BucketAgrees(l, db, it, TatOf(Abs(db, now), it.key), now, cost);
    } else {
      assert Tidy(ElementsAt(db, it.key), now);
      assert LogOf(Abs(db, now), it.key) == Instants(ElementsAt(db, it.key));
      assert l.period == QUANTUM * it.a;
      WindowAgrees(l, db, it, now, cost);
    }
  }

  /* ---------- the commit ---------- */

  function StringAt(db: Db, k: Key): Option<StringValue> {
    if k in db.strings then Some(db.strings[k]) else None
  }

  function ZsetAt(db: Db, k: Key): Option<SortedSet> {
    if k in db.zsets then Some(db.zsets[k]) else None
  }

  predicate SameAt(a: Db, b: Db, k: Key) {
    StringAt(a, k) == StringAt(b, k) && ZsetAt(a, k) == ZsetAt(b, k)
  }

  predicate DistinctEntries(es: seq<Entry>) {
    forall i, j :: 0 <= i < j < |es| ==> es[i].key != es[j].key
  }

  lemma CommitTouchesOneKey(db: Db, e: Entry, now: int, cost: nat, k: Key)
    requires k != e.key
    ensures SameAt(CommitOne(db, e, now, cost), db, k)
  {
  }

  lemma CommitReadsOneKey(a: Db, b: Db, e: Entry, now: int, cost: nat)
    requires SameAt(a, b, e.key)
    ensures SameAt(CommitOne(a, e, now, cost), CommitOne(b, e, now, cost), e.key)
  {
  }

  lemma CommitAllUnfolds(db: Db, es: seq<Entry>, now: int, cost: nat)
    ensures CommitAll(db, es, now, cost) ==
            if es == [] then db
            else CommitOne(CommitAll(db, es[..|es| - 1], now, cost), es[|es| - 1], now, cost)
  {
  }

  /** With distinct keys each entry is committed as if it were alone. */
  lemma {:induction false} CommitAllAt(db: Db, es: seq<Entry>, now: int, cost: nat, k: Key)
    requires DistinctEntries(es)
    ensures (forall i :: 0 <= i < |es| ==> es[i].key != k) ==> SameAt(CommitAll(db, es, now, cost), db, k)
    ensures forall i :: 0 <= i < |es| && es[i].key == k ==>
            SameAt(CommitAll(db, es, now, cost), CommitOne(db, es[i], now, cost), k)
    decreases |es|
  {
    hide CommitOne;
    hide CommitAll;
    hide StringAt;
    hide ZsetAt;
    CommitAllUnfolds(db, es, now, cost);
    if es != [] {
      var n := |es| - 1;
      var before, e := CommitAll(db, es[..n], now, cost), es[n];
      CommitAllAt(db, es[..n], now, cost, k);
      if e.key == k {
        CommitReadsOneKey(before, db, e, now, cost);
      } else {
        CommitTouchesOneKey(before, e, now, cost, k);
      }
    }
  }

  /* ---------- a whole call ---------- */

  function Entries(db: Db, req: Request, now: int): (es: seq<Entry>)
    requires Admissible(req)
    ensures |es| == |req.limits|
  {
    EvaluateAll(db, RedisClient.ItemsFor(req), now, EffectiveCost(req))
  }

  lemma EntryAt(db: Db, req: Request, now: int, i: nat)
    requires Admissible(req) && i < |req.limits|
    ensures var it := RedisClient.ItemFor(req.tenant, req.limits[i]);
            && Entries(db, req, now)[i] == Evaluate(db, it, now, EffectiveCost(req))
            && Entries(db, req, now)[i].key == KeyOf(req.tenant, req.limits[i])
            && Entries(db, req, now)[i].kind == it.kind
  {
  }

  lemma JudgeIsLabelled(st: Store, tenant: string, l: Limit, now: Time, cost: nat)
    requires Enforceable(l) && cost <= Capacity(l)
    ensures Judge(st, tenant, l, now, cost).name == l.name && Judge(st, tenant, l, now, cost).limit == Capacity(l)
  {
  }

  /** The numbers the client reports for one limit are the limiter's, whichever of the two
      pairs the script chose. */
  lemma ReportAgrees(l: Limit, e: Entry, d: Decision, p: Decision, after: bool)
    requires Mirrors(e, d, p) && d.name == l.name && d.limit == Capacity(l)
    ensures after && d.allowed ==> RedisClient.DecisionFrom(l, e, after) == d
    ensures !after && d.allowed ==>
            RedisClient.DecisionFrom(l, e, after) == d.(remaining := p.remaining, resetAfter := p.resetAfter)
    ensures !after && !d.allowed ==> RedisClient.DecisionFrom(l, e, after) == d
  {
  }

  lemma AllAllowAgree(db: Db, req: Request, now: int)
    requires Healthy(db, now) && now >= 0 && Admissible(req) && Faithful(req)
    ensures AllAllowed(Entries(db, req, now)) <==> AllAllow(Judgements(Abs(db, now), req, Instant(now)))
  {
    var es, ds := Entries(db, req, now), Judgements(Abs(db, now), req, Instant(now));
    forall i | 0 <= i < |es|
      ensures es[i].allowed == ds[i].allowed
    {
      EntryAt(db, req, now, i);
      EntryMirrors(db, req, i, now);
    }
  }

  /** Whether the script writes, from what the client sent. */
  predicate Writes(db: Db, req: Request, now: int)
    requires Admissible(req)
  {
    AllAllowed(Entries(db, req, now)) && !req.peekOnly
  }

  lemma DecisionAgrees(db: Db, req: Request, now: int, i: nat)
    requires Healthy(db, now) && now >= 0 && Admissible(req) && Faithful(req) && i < |req.limits|
    ensures RedisClient.DecisionFrom(req.limits[i], Entries(db, req, now)[i], Writes(db, req, now))
            == CheckResult(Abs(db, now), req, Instant(now)).decisions[i]
  {
    var st, l, cost := Abs(db, now), req.limits[i], EffectiveCost(req);
    var d, p := Judge(st, req.tenant, l, Instant(now), cost), Judge(st, req.tenant, l, Instant(now), 0);
    EntryAt(db, req, now, i);
    EntryMirrors(db, req, i, now);
    JudgeIsLabelled(st, req.tenant, l, Instant(now), cost);
    ReportAgrees(l, Entries(db, req, now)[i], d, p, Writes(db, req, now));
    AllAllowAgree(db, req, now);
    assert Judgements(st, req, Instant(now))[i] == d;
  }

  /** The reply, read by the client, is the limiter's answer. */
  lemma ResultAgrees(db: Db, req: Request, now: int)
    requires Healthy(db, now) && now >= 0 && Admissible(req) && Faithful(req) && req.limits != []
    ensures var es := Entries(db, req, now);
            RedisClient.Parse(Values([STATUS_OK, Bit(AllAllowed(es))] + Flatten(es, Writes(db, req, now))), req)
            == Answer(CheckResult(Abs(db, now), req, Instant(now)))
  {
    hide *;
    var es, res := Entries(db, req, now), CheckResult(Abs(db, now), req, Instant(now));
    EntriesLength(db, req, now);
    RedisClient.ReplyRoundTrip(es, Writes(db, req, now), req);
    ResultIs(Abs(db, now), req, Instant(now));
    var told := RedisClient.Parse(Values([STATUS_OK, Bit(AllAllowed(es))] + Flatten(es, Writes(db, req, now))), req);
    AllAllowAgree(db, req, now);
    forall i | 0 <= i < |es|
      ensures told.result.decisions[i] == res.decisions[i]
    {
      DecisionAgrees(db, req, now, i);
    }
    assert told.result.decisions == res.decisions;
  }

  lemma EntriesLength(db: Db, req: Request, now: int)
    requires Admissible(req)
    ensures |Entries(db, req, now)| == |req.limits|
  {
  }

  lemma ResultIs(st: Store, req: Request, now: Time)
    requires Admissible(req)
    ensures var res := CheckResult(st, req, now);
            && |res.decisions| == |req.limits|
            && res.allowed == AllAllow(Judgements(st, req, now))
            && res.limiting == if res.allowed then "" else Worst(res.decisions).0
  {
  }

  /* ---------- what a call leaves behind ---------- */

  lemma TtlCovers(micros: int)
    ensures 1_000 * TtlMillis(micros) >= micros
  {
    CeilingDivision(micros, 1_000);
  }

  lemma TtlIsTight(micros: int)
    requires micros > 0
    ensures micros <= 1_000 * TtlMillis(micros) < micros + 1_000
  {
    TtlCovers(micros);
    CeilingDivision(micros, 1_000);
  }

  /** A written counter outlives its meaning by less than the millisecond its deadline is rounded
      up to: a bucket from the instant it is full again, a log from the instant its newest entry,
      the one just added, ages out. */
  lemma DeadlinesAreTight(db: Db, e: Entry, now: int, cost: nat)
    ensures var next := CommitOne(db, e, now, cost);
            && (e.kind == "tb" && e.write > now ==>
                  e.key in next.strings && e.write <= next.strings[e.key].deadline < e.write + 1_000)
            && (e.kind == "sw" && e.period > 0 ==>
                  e.key in next.zsets && now + e.period <= next.zsets[e.key].deadline < now + e.period + 1_000)
  {
    hide TtlMillis;
    if e.kind == "tb" && e.write > now {
      TtlIsTight(e.write - now);
    }
    if e.kind == "sw" && e.period > 0 {
      TtlIsTight(e.period);
    }
  }

  lemma BucketCommit(db: Db, req: Request, now: int, i: nat)
    requires Healthy(db, now) && now >= 0 && Admissible(req) && i < |req.limits| && !req.peekOnly
    requires req.limits[i].algorithm.TokenBucket? && Entries(db, req, now)[i].allowed
    ensures var k, e := KeyOf(req.tenant, req.limits[i]), Entries(db, req, now)[i];
            var next := CommitOne(db, e, now, EffectiveCost(req));
            && k in next.strings && LivesLongEnough(next.strings[k]) && ZsetAt(next, k) == ZsetAt(db, k)
            && Instant(next.strings[k].value) == TatOf(Charge(Abs(db, now), req, Instant(now)), k)
  {
    var l, cost := req.limits[i], EffectiveCost(req);
    var k, it := KeyOf(req.tenant, l), RedisClient.ItemFor(req.tenant, l);
    EntryAt(db, req, now, i);
    BucketAgrees(l, db, it, TatOf(Abs(db, now), k), now, cost);
    TtlCovers(Entries(db, req, now)[i].write - now);
    KeyKeepsTheLimit(req.tenant, l);
    ChargeAt(Abs(db, now), req, Instant(now), k);
  }

  /** The set a committed window leaves: pruned, grown by one entry per unit, and alive for one
      period after its newest entry. */
  lemma WindowGrowth(k: Key, z: seq<Scored>, now: int, micros: int, units: nat)
    requires Tidy(z, now) && Dated(z) && now >= 0 && k.period == QUANTUM * micros
    ensures var kept := Above(z, now - micros);
            var grown := SortedSet(ZAddUnits(kept, now, CountAt(kept, now), units), now + 1_000 * TtlMillis(micros));
            && HealthySet(k, grown, now) && Dated(grown.elements)
            && Instants(grown.elements) == Prune(Instants(z), Instant(now) - k.period) + Copies(Instant(now), units)
  {
    hide Above;
    hide ZAddUnits;
    hide CountAt;
    hide TtlMillis;
    hide Instants;
    hide Prune;
    hide Copies;
    LiveIsPruned(z, now, micros);
    AboveIsTidy(z, now - micros, now);
    UnitsAreAppended(Above(z, now - micros), now, units);
    TtlCovers(micros);
  }

  lemma WindowCommitIs(db: Db, e: Entry, now: int, cost: nat)
    requires e.kind == "sw"
    ensures var kept := Above(ElementsAt(db, e.key), e.cutoff);
            var next := CommitOne(db, e, now, cost);
            && next.zsets == db.zsets[e.key :=
               SortedSet(ZAddUnits(kept, now, CountAt(kept, now), cost), now + 1_000 * TtlMillis(e.period))]
            && next.strings == db.strings
  {
  }

  lemma WindowItem(tenant: string, l: Limit)
    requires Enforceable(l) && l.algorithm.SlidingWindow? && l.period % QUANTUM == 0
    ensures var it := RedisClient.ItemFor(tenant, l);
            && it == Item("sw", RedisClient.Micros(l.period), l.count, l.count, KeyOf(tenant, l))
            && l.period == QUANTUM * it.a == KeyOf(tenant, l).period && 0 < l.count && Capacity(l) == l.count
  {
  }

  lemma AbsLog(db: Db, now: int, k: Key)
    requires Healthy(db, now)
    ensures Tidy(ElementsAt(db, k), now) && Dated(ElementsAt(db, k))
    ensures LogOf(Abs(db, now), k) == Instants(ElementsAt(db, k))
  {
  }

  lemma AdmissibleAt(req: Request, i: nat)
    requires Admissible(req) && i < |req.limits|
    ensures Enforceable(req.limits[i]) && EffectiveCost(req) <= Capacity(req.limits[i])
    ensures Faithful(req) && req.limits[i].algorithm.SlidingWindow? ==> req.limits[i].period % QUANTUM == 0
    ensures !req.peekOnly ==> EffectiveCost(req) > 0
  {
  }

  /** What the script does about a window: the entry it keeps, and that the limiter agrees. */
  lemma WindowEntry(db: Db, req: Request, now: int, i: nat)
    requires Healthy(db, now) && now >= 0 && Admissible(req) && Faithful(req) && i < |req.limits| && !req.peekOnly
    requires req.limits[i].algorithm.SlidingWindow? && Entries(db, req, now)[i].allowed
    ensures var l, k, e := req.limits[i], KeyOf(req.tenant, req.limits[i]), Entries(db, req, now)[i];
            && e.kind == "sw" && e.key == k && e.cutoff == now - e.period && k.period == QUANTUM * e.period
            && 0 < l.count && EffectiveCost(req) <= l.count
            && WindowVerdict(l, LogOf(Abs(db, now), k), Instant(now), EffectiveCost(req)).1.allowed
  {
    var l, cost := req.limits[i], EffectiveCost(req);
    var k, it := KeyOf(req.tenant, l), RedisClient.ItemFor(req.tenant, l);
    AdmissibleAt(req, i);
    WindowItem(req.tenant, l);
    EntryAt(db, req, now, i);
    AbsLog(db, now, k);
    hide EvaluateWindow;
    hide WindowVerdict;
    hide Abs;
    hide Tidy;
    WindowAgrees(l, db, it, now, cost);
  }

  lemma WindowCharge(st: Store, req: Request, at: Time, i: nat)
    requires Admissible(req) && i < |req.limits| && !req.peekOnly && req.limits[i].algorithm.SlidingWindow?
    requires 0 < req.limits[i].count && EffectiveCost(req) <= req.limits[i].count
    requires WindowVerdict(req.limits[i], LogOf(st, KeyOf(req.tenant, req.limits[i])), at, EffectiveCost(req)).1.allowed
    ensures var k := KeyOf(req.tenant, req.limits[i]);
            LogOf(Charge(st, req, at), k) == Prune(LogOf(st, k), at - k.period) + Copies(at, EffectiveCost(req))
  {
    hide Charge;
    hide Admissible;
    hide Prune;
    hide Copies;
    var l := req.limits[i];
    var k := KeyOf(req.tenant, l);
    ChargeAt(st, req, at, k);
    AllowedVerdict(l, LogOf(st, k), at, EffectiveCost(req));
    assert LimitAt(k).count == l.count && LimitAt(k).period == l.period;
  }

  lemma WindowCommit(db: Db, req: Request, now: int, i: nat)
    requires Healthy(db, now) && now >= 0 && Admissible(req) && Faithful(req) && i < |req.limits| && !req.peekOnly
    requires req.limits[i].algorithm.SlidingWindow? && Entries(db, req, now)[i].allowed
    ensures var k, e := KeyOf(req.tenant, req.limits[i]), Entries(db, req, now)[i];
            var next := CommitOne(db, e, now, EffectiveCost(req));
            && k in next.zsets && HealthySet(k, next.zsets[k], now) && Dated(next.zsets[k].elements)
               && next.strings == db.strings
            && Instants(next.zsets[k].elements) == LogOf(Charge(Abs(db, now), req, Instant(now)), k)
  {
    hide *;
    var k, e := KeyOf(req.tenant, req.limits[i]), Entries(db, req, now)[i];
    WindowEntry(db, req, now, i);
    AbsLog(db, now, k);
    WindowCharge(Abs(db, now), req, Instant(now), i);
    WindowCommitIs(db, e, now, EffectiveCost(req));
    WindowGrowth(k, ElementsAt(db, k), now, e.period, EffectiveCost(req));
  }

  lemma EntriesAreDistinct(db: Db, req: Request, now: int)
    requires Admissible(req) && DistinctKeys(req)
    ensures DistinctEntries(Entries(db, req, now))
  {
    var es := Entries(db, req, now);
    forall i, j | 0 <= i < j < |es|
      ensures es[i].key != es[j].key
    {
      EntryAt(db, req, now, i);
      EntryAt(db, req, now, j);
    }
  }

  /** What the database and the store it stands for hold at one key. */
  ghost predicate AgreeAt(db: Db, st: Store, k: Key, now: int) {
    && (k in db.strings <==> k in st.gcra)
    && (k in db.strings ==> LivesLongEnough(db.strings[k]) && st.gcra[k] == Instant(db.strings[k].value))
    && (k in db.zsets <==> k in st.windows)
    && (k in db.zsets ==> HealthySet(k, db.zsets[k], now) && st.windows[k] == Instants(db.zsets[k].elements))
  }

  lemma AgreesHere(db: Db, st: Store, now: int)
    requires forall k: Key :: AgreeAt(db, st, k, now)
    ensures Healthy(db, now) && Abs(db, now) == st
  {
    assert forall k :: k in db.strings ==> AgreeAt(db, st, k, now);
    assert forall k :: k in db.zsets ==> AgreeAt(db, st, k, now);
    assert forall k :: k in st.gcra ==> AgreeAt(db, st, k, now);
    assert forall k :: k in st.windows ==> AgreeAt(db, st, k, now);
    assert Abs(db, now).gcra == st.gcra;
    assert Abs(db, now).windows == st.windows;
  }

  lemma AgreesEverywhere(db: Db, st: Store, now: int)
    ensures (Healthy(db, now) && Abs(db, now) == st) <==> forall k: Key :: AgreeAt(db, st, k, now)
  {
    hide *;
    if forall k: Key :: AgreeAt(db, st, k, now) {
      AgreesHere(db, st, now);
    }
    if Healthy(db, now) && Abs(db, now) == st {
      forall k: Key
        ensures AgreeAt(db, st, k, now)
      {
        AbsAgrees(db, now, k);
      }
    }
  }

  lemma AgreeMoves(a: Db, b: Db, st: Store, st': Store, k: Key, now: int)
    requires SameAt(a, b, k) && AgreeAt(b, st, k, now)
    requires (k in st.gcra <==> k in st'.gcra) && (k in st.gcra ==> st.gcra[k] == st'.gcra[k])
    requires (k in st.windows <==> k in st'.windows) && (k in st.windows ==> st.windows[k] == st'.windows[k])
    ensures AgreeAt(a, st', k, now)
  {
  }

  lemma ChargeKeys(st: Store, req: Request, at: Time, k: Key)
    requires Admissible(req)
    ensures k in Charge(st, req, at).gcra <==> k in st.gcra || (k in KeysOf(req) && k.algorithm.TokenBucket?)
    ensures k in Charge(st, req, at).windows <==> k in st.windows || (k in KeysOf(req) && k.algorithm.SlidingWindow?)
    ensures !(k in KeysOf(req) && k.algorithm.TokenBucket?) && k in st.gcra ==>
            Charge(st, req, at).gcra[k] == st.gcra[k]
    ensures !(k in KeysOf(req) && k.algorithm.SlidingWindow?) && k in st.windows ==>
            Charge(st, req, at).windows[k] == st.windows[k]
  {
  }

  lemma AbsAgrees(db: Db, now: int, k: Key)
    requires Healthy(db, now)
    ensures AgreeAt(db, Abs(db, now), k, now)
  {
  }

  lemma CommitOneAgrees(db: Db, req: Request, now: int, i: nat)
    requires Healthy(db, now) && now >= 0 && Admissible(req) && Faithful(req) && i < |req.limits| && !req.peekOnly
    requires Entries(db, req, now)[i].allowed
    ensures AgreeAt(CommitOne(db, Entries(db, req, now)[i], now, EffectiveCost(req)),
                    Charge(Abs(db, now), req, Instant(now)), KeyOf(req.tenant, req.limits[i]), now)
  {
    var k, st := KeyOf(req.tenant, req.limits[i]), Abs(db, now);
    AdmissibleAt(req, i);
    assert k in KeysOf(req) && k.algorithm == req.limits[i].algorithm && !k.algorithm.UnknownAlgorithm?;
    ChargeKeys(st, req, Instant(now), k);
    AbsAgrees(db, now, k);
    hide Charge;
    hide Abs;
    hide CommitOne;
    hide Entries;
    hide Admissible;
    hide Healthy;
    hide HealthySet;
    if req.limits[i].algorithm.TokenBucket? {
      BucketCommit(db, req, now, i);
    } else {
      WindowCommit(db, req, now, i);
    }
  }

  lemma CommitAgreesAt(db: Db, req: Request, now: int, k: Key)
    requires Healthy(db, now) && now >= 0 && Admissible(req) && Faithful(req) && !req.peekOnly
    requires AllAllowed(Entries(db, req, now))
    ensures AgreeAt(CommitAll(db, Entries(db, req, now), now, EffectiveCost(req)),
            Charge(Abs(db, now), req, Instant(now)), k, now)
  {
    var es, cost, st := Entries(db, req, now), EffectiveCost(req), Abs(db, now);
    var next, st' := CommitAll(db, es, now, cost), Charge(st, req, Instant(now));
    EntriesAreDistinct(db, req, now);
    CommitAllAt(db, es, now, cost, k);
    ChargeKeys(st, req, Instant(now), k);
    AbsAgrees(db, now, k);
    if k in KeysOf(req) {
      var i :| 0 <= i < |req.limits| && KeyOf(req.tenant, req.limits[i]) == k;
      EntryAt(db, req, now, i);
      hide *;
      CommitOneAgrees(db, req, now, i);
      AgreeMoves(next, CommitOne(db, es[i], now, cost), st', st', k, now);
    } else {
      forall i | 0 <= i < |es|
        ensures es[i].key != k
      {
        EntryAt(db, req, now, i);
      }
      hide *;
      AgreeMoves(next, db, st, st', k, now);
    }
  }

  /** An admitted call leaves a database that stands for the charged store. */
  lemma CommitAgrees(db: Db, req: Request, now: int)
    requires Healthy(db, now) && now >= 0 && Admissible(req) && Faithful(req) && !req.peekOnly
    requires AllAllowed(Entries(db, req, now))
    ensures var next := CommitAll(db, Entries(db, req, now), now, EffectiveCost(req));
            Healthy(next, now) && Abs(next, now) == Charge(Abs(db, now), req, Instant(now))
  {
    hide *;
    var next := CommitAll(db, Entries(db, req, now), now, EffectiveCost(req));
    forall k: Key
      ensures AgreeAt(next, Charge(Abs(db, now), req, Instant(now)), k, now)
    {
      CommitAgreesAt(db, req, now, k);
    }
    AgreesEverywhere(next, Charge(Abs(db, now), req, Instant(now)), now);
  }

  /* ---------- whole runs ---------- */

  lemma SettleIs(db: Db, req: Request, now: int)
    requires Admissible(req)
    ensures var es, writes := Entries(db, req, now), Writes(db, req, now);
            Settle(db, RedisClient.ItemsFor(req), now, EffectiveCost(req), Bit(req.peekOnly))
            == (Values([STATUS_OK, Bit(AllAllowed(es))] + Flatten(es, writes)),
                if writes then CommitAll(db, es, now, EffectiveCost(req)) else db)
  {
  }

  /** Everything after the fences, against the check of the store the database stands for. */
  lemma SettleAgrees(db: Db, req: Request, now: int)
    requires Healthy(db, now) && now >= 0 && Admissible(req) && Faithful(req) && req.limits != []
    ensures var (reply, next) := Settle(db, RedisClient.ItemsFor(req), now, EffectiveCost(req), Bit(req.peekOnly));
            && RedisClient.Parse(reply, req) == Limiter.Check(Abs(db, now), req, Instant(now)).0
            && Healthy(next, now)
            && Abs(next, now) == Limiter.Check(Abs(db, now), req, Instant(now)).1
  {
    CheckIs(Abs(db, now), req, Instant(now));
    SettleIs(db, req, now);
    ResultAgrees(db, req, now);
    AllAllowAgree(db, req, now);
    hide *;
    if Writes(db, req, now) {
      CommitAgrees(db, req, now);
    }
  }

  lemma CheckIs(st: Store, req: Request, at: Time)
    requires Admissible(req) && req.limits != []
    ensures Limiter.Check(st, req, at)
            == (Answer(CheckResult(st, req, at)),
                if AllAllow(Judgements(st, req, at)) && !req.peekOnly then Charge(st, req, at) else st)
  {
  }

  /** The time a call is decided at. */
  function NowOf(override: nat, time: nat): nat {
    if override > 0 then override else time
  }

  lemma MetasDoNotCount(a: Db, b: Db, now: int)
    requires a.strings == b.strings && a.zsets == b.zsets && Healthy(a, now)
    ensures Healthy(b, now) && Abs(b, now) == Abs(a, now)
  {
  }

  lemma RecordingKeepsCounters(db: Db, req: Request)
    ensures var recorded := Recorded(db, req.tenant, req.storeGen, req.policyGen);
            recorded.strings == db.strings && recorded.zsets == db.zsets
  {
  }

  lemma ClientIs(db: Db, req: Request, override: nat, time: nat)
    ensures Admissible(req) && req.limits != [] ==>
              match Verify(MetaAt(db, req.tenant), req.storeGen, req.policyGen)
              case StoreReset(stored) =>
                RedisClient.Consult(db, req, override, time) == (StoreWasReset(req.storeGen, stored), db)
              case PolicyStale(stored) =>
                RedisClient.Consult(db, req, override, time) == (PolicyIsStale(req.policyGen, stored), db)
              case Passed =>
                var settled := Settle(Recorded(db, req.tenant, req.storeGen, req.policyGen), RedisClient.ItemsFor(req),
                                      NowOf(override, time), EffectiveCost(req), Bit(req.peekOnly));
                RedisClient.Consult(db, req, override, time) == (RedisClient.Parse(settled.0, req), settled.1)
    ensures !Admissible(req) || req.limits == [] ==>
              RedisClient.Consult(db, req, override, time) == (Limiter.Check(EMPTY, req, ZERO_TIME).0, db)
  {
    if Admissible(req) && req.limits != [] {
      RedisClient.FramingRoundTrip(req, override);
      hide Settle;
      hide EvaluateAll;
    }
  }

  /** One call through the client. A call the fences let pass answers exactly what the limiter
      answers for the store the database stands for; a fenced one says so and changes no counter. */
  lemma CallAgrees(db: Db, req: Request, override: nat, time: nat)
    requires Healthy(db, NowOf(override, time)) && (Admissible(req) ==> Faithful(req))
    ensures var now := NowOf(override, time);
            var (told, next) := RedisClient.Consult(db, req, override, time);
            var passed := Verify(MetaAt(db, req.tenant), req.storeGen, req.policyGen).Passed?;
            && Healthy(next, now)
            && (passed || !Admissible(req) || req.limits == [] ==>
                  told == Limiter.Check(Abs(db, now), req, Instant(now)).0
                  && Abs(next, now) == Limiter.Check(Abs(db, now), req, Instant(now)).1)
            && (!passed && Admissible(req) && req.limits != [] ==>
                  (told.StoreWasReset? || told.PolicyIsStale?) && Abs(next, now) == Abs(db, now))
  {
    hide *;
    var now := NowOf(override, time);
    ClientIs(db, req, override, time);
    if Admissible(req) && req.limits != [] {
      var recorded := Recorded(db, req.tenant, req.storeGen, req.policyGen);
      RecordingKeepsCounters(db, req);
      MetasDoNotCount(db, recorded, now);
      SettleAgrees(recorded, req, now);
    } else {
      StopsAnywhere(Abs(db, now), req, Instant(now));
    }
  }

  /** What the client is told by the fences, exactly: another store, or an older policy on the right
      store, each with both generations; and anybody else is answered. */
  lemma FencedExactlyWhen(db: Db, req: Request, override: nat, time: nat)
    requires Healthy(db, NowOf(override, time)) && Admissible(req) && Faithful(req) && req.limits != []
    ensures var told, meta := RedisClient.Consult(db, req, override, time).0, MetaAt(db, req.tenant);
            if !SameStore(meta, req.storeGen) then told == StoreWasReset(req.storeGen, meta.storeGen.value)
            else if !NewEnough(meta, req.policyGen) then told == PolicyIsStale(req.policyGen, meta.policyGen.value)
            else told.Answer?
  {
    PassesExactlyWhen(MetaAt(db, req.tenant), req.storeGen, req.policyGen);
    AnswersAre(Abs(db, NowOf(override, time)), req, Instant(NowOf(override, time)));
    hide Limiter.Check;
    hide RedisClient.Consult;
    hide Healthy;
    hide Abs;
    hide Settle;
    ClientIs(db, req, override, time);
    CallAgrees(db, req, override, time);
  }

  lemma AnswersAre(st: Store, req: Request, now: Time)
    requires Admissible(req)
    ensures Limiter.Check(st, req, now).0.Answer?
  {
    hide CheckResult;
    hide Charge;
  }

  /** A request that stops before any counter is read is answered alike by every store. */
  lemma StopsAnywhere(st: Store, req: Request, now: Time)
    requires !Admissible(req) || req.limits == []
    ensures Limiter.Check(st, req, now) == (Limiter.Check(EMPTY, req, ZERO_TIME).0, st)
  {
  }

  /** A call, or the removal of some of the keys whose deadline has passed. */
  datatype RedisOp =
    | Call(req: Request, override: nat, time: nat)
    | Expiry(gone: set<Key>, at: nat)

  function When(op: RedisOp): nat {
    if op.Call? then NowOf(op.override, op.time) else op.at
  }

  function RedisStep(db: Db, op: RedisOp): Db {
    match op
    case Call(req, override, time) => RedisClient.Consult(db, req, override, time).1
    case Expiry(gone, at) => Expire(db, gone, at)
  }

  function RedisAnswers(db: Db, ops: seq<RedisOp>): seq<Outcome>
    decreases |ops|
  {
    if ops == [] then []
    else
      var op := ops[0];
      var told := if op.Call? then [RedisClient.Consult(db, op.req, op.override, op.time).0] else [];
      told + RedisAnswers(RedisStep(db, op), ops[1..])
  }

  predicate RedisTimely(from: nat, ops: seq<RedisOp>)
    decreases |ops|
  {
    ops == [] || (from <= When(ops[0]) && RedisTimely(When(ops[0]), ops[1..]))
  }

  /** The same checks as the in-memory limiter sees them. */
  function AsksOf(ops: seq<RedisOp>): seq<Op> {
    if ops == [] then []
    else (if ops[0].Call? then [Ask(ops[0].req, Instant(When(ops[0])))] else []) + AsksOf(ops[1..])
  }

  /** Callers that carry no generation, with requests the two implementations can agree on. */
  predicate Comparable(ops: seq<RedisOp>) {
    forall i :: 0 <= i < |ops| && ops[i].Call? ==>
      ops[i].req.storeGen == 0 && ops[i].req.policyGen == 0 && (Admissible(ops[i].req) ==> Faithful(ops[i].req))
  }

  /** A key past its deadline has nothing left to say, so removing it is a sweep. */
  lemma ExpiryIsASweep(db: Db, gone: set<Key>, now: int)
    requires Healthy(db, now) && now >= 0
    ensures Healthy(Expire(db, gone, now), now)
    ensures Alike(Abs(Expire(db, gone, now), now), Abs(db, now), Instant(now))
  {
    var a, b := Abs(Expire(db, gone, now), now), Abs(db, now);
    forall k: Key
      ensures Later(TatOf(a, k), Instant(now)) == Later(TatOf(b, k), Instant(now))
    {
    }
    forall k: Key
      ensures Prune(LogOf(a, k), Instant(now) - k.period) == Prune(LogOf(b, k), Instant(now) - k.period)
    {
      if k in db.zsets && k in gone && db.zsets[k].deadline <= now {
        ExpiredSet(k, db.zsets[k], now);
      }
    }
  }

  lemma ExpiredSet(k: Key, s: SortedSet, now: int)
    requires HealthySet(k, s, now) && s.deadline <= now && now >= 0
    ensures Dated(s.elements) && Prune(Instants(s.elements), Instant(now) - k.period) == []
  {
    var j := PrunePoint(Instants(s.elements), Instant(now) - k.period);
  }

  lemma AbsIgnoresTheClock(db: Db, now: int, later: int)
    requires Healthy(db, now) && now <= later
    ensures Healthy(db, later) && Abs(db, later) == Abs(db, now)
  {
    HealthyLater(db, now, later);
  }

  lemma UnfencedPasses(meta: Meta)
    ensures Verify(meta, 0, 0).Passed?
  {
  }

  lemma {:induction false} RedisRunAgrees(db: Db, st: Store, clock: nat, ops: seq<RedisOp>)
    requires Healthy(db, clock) && Alike(Abs(db, clock), st, Instant(clock))
    requires RedisTimely(clock, ops) && Comparable(ops)
    ensures RedisAnswers(db, ops) == Answers(st, AsksOf(ops))
    decreases |ops|
  {
    if ops != [] {
      var op, now, next := ops[0], When(ops[0]), RedisStep(db, ops[0]);
      AbsIgnoresTheClock(db, clock, now);
      var a := Abs(db, now);
      assert Alike(a, st, Instant(now)) by {
        AlikeLater(a, st, Instant(clock), Instant(now));
      }
      RedisAnswersHead(db, ops);
      hide *;
      if op.Call? {
        CallAgrees(db, op.req, op.override, op.time);
        UnfencedPasses(MetaAt(db, op.req.tenant));
        AlikeStep(a, st, Ask(op.req, Instant(now)));
        AnswersHead(st, AsksOf(ops));
        RedisRunAgrees(next, Step(st, Ask(op.req, Instant(now))), now, ops[1..]);
      } else {
        ExpiryIsASweep(db, op.gone, now);
        AlikeTransitive(Abs(next, now), a, st, Instant(now));
        RedisRunAgrees(next, st, now, ops[1..]);
      }
    }
  }

  lemma RedisAnswersHead(db: Db, ops: seq<RedisOp>)
    requires ops != []
    ensures var op, next := ops[0], RedisStep(db, ops[0]);
            && (op.Call? ==>
                  && RedisAnswers(db, ops)
                     == [RedisClient.Consult(db, op.req, op.override, op.time).0] + RedisAnswers(next, ops[1..])
                  && next == RedisClient.Consult(db, op.req, op.override, op.time).1
                  && AsksOf(ops) == [Ask(op.req, Instant(When(op)))] + AsksOf(ops[1..])
                  && AsksOf(ops)[1..] == AsksOf(ops[1..]))
            && (op.Expiry? ==>
                  && RedisAnswers(db, ops) == RedisAnswers(next, ops[1..])
                  && next == Expire(db, op.gone, When(op))
                  && AsksOf(ops) == AsksOf(ops[1..]))
  {
  }

  /** For every sequence of calls at nondecreasing times, with Redis expiring keys at or after
      their deadlines whenever it likes and the in-memory limiter sweeping whenever it likes, the
      two give the same outcome, on every field of every decision. */
  lemma RedisAgreesWithMemory(ops: seq<RedisOp>, memory: seq<Op>)
    requires RedisTimely(0, ops) && Comparable(ops)
    requires Timely(ZERO_TIME, memory) && AsksOnly(memory) == AsksOf(ops)
    ensures RedisAnswers(EMPTY_DB, ops) == Answers(EMPTY, memory)
  {
    assert Healthy(EMPTY_DB, 0) && Abs(EMPTY_DB, 0) == EMPTY;
    RedisRunAgrees(EMPTY_DB, EMPTY, 0, ops);
    ForgettingIsInvisible(EMPTY, ZERO_TIME, memory);
  }

  /** What the script tells a first request of one unit, for any window. */
  lemma ScriptTellsTheTruncatedPeriod(tenant: string, l: Limit, time: nat)
    requires Enforceable(l) && l.algorithm.SlidingWindow?
    ensures var told := RedisClient.Consult(EMPTY_DB, Request(tenant, [l], 1, false, 0, 0), 0, time).0;
            && told.Answer? && |told.result.decisions| == 1
            && told.result.decisions[0].resetAfter == QUANTUM * RedisClient.Micros(l.period)
  {
    var req := Request(tenant, [l], 1, false, 0, 0);
    assert Admissible(req) && EffectiveCost(req) == 1;
    ClientIs(EMPTY_DB, req, 0, time);
    SettleIs(EMPTY_DB, req, time);
    EntryAt(EMPTY_DB, req, time, 0);
    var es := Entries(EMPTY_DB, req, time);
    assert es[0].allowed && es[0].resetAfter == RedisClient.Micros(l.period);
    RedisClient.ReplyRoundTrip(es, true, req);
  }

  /** What the in-memory limiter tells it. */
  lemma MemoryTellsThePeriod(tenant: string, l: Limit, now: Time)
    requires Enforceable(l) && l.algorithm.SlidingWindow?
    ensures var told := Limiter.Check(EMPTY, Request(tenant, [l], 1, false, 0, 0), now).0;
            told.Answer? && |told.result.decisions| == 1 && told.result.decisions[0].resetAfter == l.period
  {
    var req := Request(tenant, [l], 1, false, 0, 0);
    assert Admissible(req) && EffectiveCost(req) == 1;
    CheckIs(EMPTY, req, now);
    var d := Judge(EMPTY, tenant, l, now, 1);
    assert d.allowed && d.resetAfter == l.period;
    assert Judgements(EMPTY, req, now) == [d];
  }

  /** Without the whole-microsecond periods of `Faithful` the agreement fails, for every such
      limit and at once: the first admitted request already reports a different reset time. */
  lemma WholeMicrosecondsAreNeeded(tenant: string, l: Limit, time: nat)
    requires Enforceable(l) && l.algorithm.SlidingWindow? && l.period % QUANTUM != 0
    ensures var req := Request(tenant, [l], 1, false, 0, 0);
            RedisClient.Consult(EMPTY_DB, req, 0, time).0 != Limiter.Check(EMPTY, req, Instant(time)).0
  {
    assert QUANTUM * RedisClient.Micros(l.period) != l.period;
    hide *;
    ScriptTellsTheTruncatedPeriod(tenant, l, time);
    MemoryTellsThePeriod(tenant, l, Instant(time));
  }
}
