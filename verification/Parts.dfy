/** One tenant's part of the store. A check reads and writes its own tenant's counters only,
    which is why one lock per tenant makes it atomic (internal/limiter/memory.go). */
module Parts {
  import opened Limits
  import opened Gcra
  import opened Windows
  import opened Limiter
  import opened Runs

  function Size(st: Store): nat {
    |st.gcra| + |st.windows|
  }

  /** The keys of every live counter. */
  function Everything(st: Store): set<Key> {
    st.gcra.Keys + st.windows.Keys
  }

  function Part(st: Store, tenant: string): Store {
    Store(map k | k in st.gcra && k.tenant == tenant :: st.gcra[k],
          map k | k in st.windows && k.tenant == tenant :: st.windows[k])
  }

  function Rest(st: Store, tenant: string): Store {
    Store(map k | k in st.gcra && k.tenant != tenant :: st.gcra[k],
          map k | k in st.windows && k.tenant != tenant :: st.windows[k])
  }

  lemma MapSplits<V>(m: map<Key, V>, tenant: string)
    ensures |m| == |map k | k in m && k.tenant == tenant :: m[k]| + |map k | k in m && k.tenant != tenant :: m[k]|
  {
    var a, b := map k | k in m && k.tenant == tenant :: m[k], map k | k in m && k.tenant != tenant :: m[k];
    assert m.Keys == a.Keys + b.Keys;
    assert |a.Keys| == |a| && |b.Keys| == |b| && |m.Keys| == |m|;
  }

  lemma SizeSplits(st: Store, tenant: string)
    ensures Size(st) == Size(Part(st, tenant)) + Size(Rest(st, tenant))
  {
    MapSplits(st.gcra, tenant);
    MapSplits(st.windows, tenant);
  }

  lemma PartReads(st: Store, tenant: string, k: Key)
    requires k.tenant == tenant
    ensures TatOf(Part(st, tenant), k) == TatOf(st, k) && LogOf(Part(st, tenant), k) == LogOf(st, k)
  {
  }

  lemma JudgeIsLocal(st: Store, tenant: string, l: Limit, now: Time, cost: nat)
    requires Enforceable(l) && cost <= Capacity(l)
    ensures Judge(Part(st, tenant), tenant, l, now, cost) == Judge(st, tenant, l, now, cost)
  {
    hide Part;
    hide GcraCheck;
    hide WindowVerdict;
    hide TatOf;
    hide LogOf;
    PartReads(st, tenant, KeyOf(tenant, l));
  }

  lemma JudgementsAreLocal(st: Store, req: Request, now: Time)
    requires Admissible(req)
    ensures Judgements(Part(st, req.tenant), req, now) == Judgements(st, req, now)
  {
    hide Judge;
    forall i | 0 <= i < |req.limits|
      ensures Judge(Part(st, req.tenant), req.tenant, req.limits[i], now, EffectiveCost(req))
              == Judge(st, req.tenant, req.limits[i], now, EffectiveCost(req))
    {
      JudgeIsLocal(st, req.tenant, req.limits[i], now, EffectiveCost(req));
    }
  }

  /** A verdict depends on the tenant's own counters only. */
  lemma ResultIsLocal(st: Store, req: Request, now: Time)
    requires Admissible(req)
    ensures CheckResult(Part(st, req.tenant), req, now) == CheckResult(st, req, now)
  {
    hide Judge;
    hide Judgements;
    var mine := Part(st, req.tenant);
    JudgementsAreLocal(st, req, now);
    var ds := Judgements(st, req, now);
    forall i | 0 <= i < |ds|
      ensures Restate(mine, req, now, i, ds[i]) == Restate(st, req, now, i, ds[i])
    {
      JudgeIsLocal(st, req.tenant, req.limits[i], now, 0);
    }
    assert RestateAll(mine, req, now, ds) == RestateAll(st, req, now, ds);
  }

  /** Which counters a charge leaves, and what is read from them. */
  lemma ChargeMember(st: Store, req: Request, now: Time, k: Key)
    requires Admissible(req)
    ensures var c := Charge(st, req, now);
            && (k in c.gcra <==> k in st.gcra || (k in KeysOf(req) && k.algorithm.TokenBucket?))
            && (k in c.windows <==> k in st.windows || (k in KeysOf(req) && k.algorithm.SlidingWindow?))
            && (k in c.gcra ==> c.gcra[k] == TatOf(c, k))
            && (k in c.windows ==> c.windows[k] == LogOf(c, k))
  {
    hide GcraCheck;
    hide WindowVerdict;
  }

  /** A key carries everything its limit's verdicts depend on. */
  lemma KeyJudgesTheSame(st: Store, tenant: string, l: Limit, now: Time, cost: nat)
    requires Enforceable(l) && cost <= Capacity(l)
    ensures var k := KeyOf(tenant, l);
            && k.algorithm == l.algorithm && (l.algorithm.TokenBucket? || l.algorithm.SlidingWindow?)
            && 0 < l.count == LimitAt(k).count && 0 < l.period == LimitAt(k).period
            && (l.algorithm.TokenBucket? ==>
                  GcraCheck(LimitAt(k), TatOf(st, k), now, cost).0 == GcraCheck(l, TatOf(st, k), now, cost).0)
            && (l.algorithm.SlidingWindow? ==>
                  cost <= l.count
                  && WindowVerdict(LimitAt(k), LogOf(st, k), now, cost).0
                     == WindowVerdict(l, LogOf(st, k), now, cost).0)
  {
    hide Emission;
    hide Tolerance;
    KeyKeepsTheLimit(tenant, l);
  }

  predicate SameAt(a: Store, b: Store, k: Key) {
    && (k in a.gcra <==> k in b.gcra) && (k in a.gcra ==> a.gcra[k] == b.gcra[k])
    && (k in a.windows <==> k in b.windows) && (k in a.windows ==> a.windows[k] == b.windows[k])
  }

  lemma SameEverywhere(a: Store, b: Store)
    requires forall k: Key :: SameAt(a, b, k)
    ensures a == b
  {
    assert forall k :: k in a.gcra ==> SameAt(a, b, k);
    assert forall k :: k in b.gcra ==> SameAt(a, b, k);
    assert forall k :: k in a.windows ==> SameAt(a, b, k);
    assert forall k :: k in b.windows ==> SameAt(a, b, k);
    assert a.gcra == b.gcra && a.windows == b.windows;
  }

  lemma SameByReading(a: Store, b: Store, k: Key)
    requires k in a.gcra <==> k in b.gcra
    requires k in a.windows <==> k in b.windows
    requires TatOf(a, k) == TatOf(b, k) && LogOf(a, k) == LogOf(b, k)
    ensures SameAt(a, b, k)
  {
  }

  lemma PartMember(st: Store, tenant: string, k: Key)
    ensures k in Part(st, tenant).gcra <==> k in st.gcra && k.tenant == tenant
    ensures k in Part(st, tenant).windows <==> k in st.windows && k.tenant == tenant
    ensures k.tenant == tenant ==> SameAt(Part(st, tenant), st, k)
  {
  }

  lemma KeysBelong(req: Request, k: Key)
    requires k in KeysOf(req)
    ensures k.tenant == req.tenant
  {
  }

  lemma ChargeIsLocalAt(st: Store, req: Request, now: Time, k: Key)
    requires Admissible(req)
    ensures k.tenant == req.tenant ==> SameAt(Charge(Part(st, req.tenant), req, now), Charge(st, req, now), k)
    ensures k.tenant != req.tenant ==> SameAt(Charge(st, req, now), st, k)
    ensures k.tenant != req.tenant ==>
              k !in Charge(Part(st, req.tenant), req, now).gcra && k !in Charge(Part(st, req.tenant), req, now).windows
  {
    hide *;
    var mine := Part(st, req.tenant);
    PartMember(st, req.tenant, k);
    ChargeMember(st, req, now, k);
    ChargeMember(mine, req, now, k);
    ChargeAt(st, req, now, k);
    ChargeAt(mine, req, now, k);
    if k in KeysOf(req) {
      KeysBelong(req, k);
    }
    if k.tenant == req.tenant {
      PartReads(st, req.tenant, k);
      SameByReading(Charge(mine, req, now), Charge(st, req, now), k);
    } else {
      SameByReading(Charge(st, req, now), st, k);
    }
  }

  lemma PartIs(a: Store, b: Store, tenant: string)
    requires forall k: Key :: k.tenant == tenant ==> SameAt(a, b, k)
    requires forall k: Key :: k.tenant != tenant ==> k !in a.gcra && k !in a.windows
    ensures a == Part(b, tenant)
  {
    forall k: Key
      ensures SameAt(a, Part(b, tenant), k)
    {
      PartMember(b, tenant, k);
      assert k.tenant == tenant ==> SameAt(a, b, k);
    }
    SameEverywhere(a, Part(b, tenant));
  }

  lemma PartsAgree(a: Store, b: Store, tenant: string)
    requires forall k: Key :: k.tenant == tenant ==> SameAt(a, b, k)
    ensures Part(a, tenant) == Part(b, tenant)
  {
    forall k: Key
      ensures SameAt(Part(a, tenant), Part(b, tenant), k)
    {
      PartMember(a, tenant, k);
      PartMember(b, tenant, k);
      assert k.tenant == tenant ==> SameAt(a, b, k);
    }
    SameEverywhere(Part(a, tenant), Part(b, tenant));
  }

  lemma RestsAgree(a: Store, b: Store, tenant: string)
    requires forall k: Key :: k.tenant != tenant ==> SameAt(a, b, k)
    ensures Rest(a, tenant) == Rest(b, tenant)
  {
    var x, y := Rest(a, tenant), Rest(b, tenant);
    forall k: Key
      ensures SameAt(x, y, k)
    {
      assert k.tenant != tenant ==> SameAt(a, b, k);
    }
    SameEverywhere(x, y);
  }

  /** Charging a tenant is charging its part; every other tenant's part stays as it was. */
  lemma ChargeIsLocal(st: Store, req: Request, now: Time)
    requires Admissible(req)
    ensures Part(Charge(st, req, now), req.tenant) == Charge(Part(st, req.tenant), req, now)
    ensures forall t :: t != req.tenant ==> Part(Charge(st, req, now), t) == Part(st, t)
    ensures Rest(Charge(st, req, now), req.tenant) == Rest(st, req.tenant)
  {
    hide *;
    var all, mine := Charge(st, req, now), Charge(Part(st, req.tenant), req, now);
    forall k: Key
      ensures k.tenant == req.tenant ==> SameAt(mine, all, k)
      ensures k.tenant != req.tenant ==> SameAt(all, st, k) && k !in mine.gcra && k !in mine.windows
    {
      ChargeIsLocalAt(st, req, now, k);
    }
    PartIs(mine, all, req.tenant);
    RestsAgree(all, st, req.tenant);
    forall t | t != req.tenant
      ensures Part(all, t) == Part(st, t)
    {
      PartsAgree(all, st, t);
    }
  }

  lemma SweepAt(st: Store, dropped: set<Key>, now: Time, k: Key)
    ensures k in Sweep(st, dropped, now).gcra <==> k in st.gcra && !(k in dropped && GcraExpiry(st.gcra[k]) <= now)
    ensures k in Sweep(st, dropped, now).windows <==>
            k in st.windows && !(k in dropped && WindowExpiry(k.period, st.windows[k]) <= now)
    ensures k in Sweep(st, dropped, now).gcra ==> Sweep(st, dropped, now).gcra[k] == st.gcra[k]
    ensures k in Sweep(st, dropped, now).windows ==> Sweep(st, dropped, now).windows[k] == st.windows[k]
  {
  }

  lemma EverythingHas(st: Store, k: Key)
    ensures k in Everything(st) <==> k in st.gcra || k in st.windows
  {
  }

  lemma SweepsAgreeAt(a: Store, b: Store, dropA: set<Key>, dropB: set<Key>, now: Time, k: Key)
    requires SameAt(a, b, k) && (k in a.gcra || k in a.windows ==> (k in dropA <==> k in dropB))
    ensures SameAt(Sweep(a, dropA, now), Sweep(b, dropB, now), k)
  {
    SweepAt(a, dropA, now, k);
    SweepAt(b, dropB, now, k);
  }

  lemma UnsweptAt(st: Store, dropped: set<Key>, now: Time, k: Key)
    requires k !in dropped
    ensures SameAt(Sweep(st, dropped, now), st, k)
  {
    SweepAt(st, dropped, now, k);
  }

  /** Sweeping one tenant's counters is sweeping its part. */
  lemma SweepIsLocal(st: Store, tenant: string, now: Time)
    ensures var swept := Sweep(st, Everything(Part(st, tenant)), now);
            && Part(swept, tenant) == Sweep(Part(st, tenant), Everything(Part(st, tenant)), now)
            && (forall t :: t != tenant ==> Part(swept, t) == Part(st, t))
            && Rest(swept, tenant) == Rest(st, tenant)
  {
    hide *;
    var mine := Part(st, tenant);
    var dropped := Everything(mine);
    var swept, here := Sweep(st, dropped, now), Sweep(mine, dropped, now);
    forall k: Key
      ensures k.tenant == tenant ==> SameAt(here, swept, k)
      ensures k.tenant != tenant ==> SameAt(swept, st, k) && k !in here.gcra && k !in here.windows
    {
      PartMember(st, tenant, k);
      EverythingHas(mine, k);
      SweepAt(mine, dropped, now, k);
      if k.tenant == tenant {
        SweepsAgreeAt(mine, st, dropped, dropped, now, k);
      } else {
        UnsweptAt(st, dropped, now, k);
      }
    }
    PartIs(here, swept, tenant);
    RestsAgree(swept, st, tenant);
    forall t | t != tenant
      ensures Part(swept, t) == Part(st, t)
    {
      PartsAgree(swept, st, t);
    }
  }

  lemma SweepTwice(st: Store, a: set<Key>, b: set<Key>, now: Time)
    ensures Sweep(Sweep(st, a, now), b, now) == Sweep(st, a + b, now)
  {
    hide *;
    var once := Sweep(st, a, now);
    forall k: Key
      ensures SameAt(Sweep(once, b, now), Sweep(st, a + b, now), k)
    {
      SweepTwiceAt(st, a, b, now, k);
    }
    SameEverywhere(Sweep(once, b, now), Sweep(st, a + b, now));
  }

  lemma SweepTwiceAt(st: Store, a: set<Key>, b: set<Key>, now: Time, k: Key)
    ensures SameAt(Sweep(Sweep(st, a, now), b, now), Sweep(st, a + b, now), k)
  {
    hide Sweep;
    hide GcraExpiry;
    hide WindowExpiry;
    var once := Sweep(st, a, now);
    SweepAt(st, a, now, k);
    SweepAt(once, b, now, k);
    SweepAt(st, a + b, now, k);
  }

  lemma SweepOfLive(st: Store, a: set<Key>, b: set<Key>, now: Time)
    requires forall k :: k in Everything(st) ==> (k in a <==> k in b)
    ensures Sweep(st, a, now) == Sweep(st, b, now)
  {
    hide *;
    forall k: Key
      ensures SameAt(Sweep(st, a, now), Sweep(st, b, now), k)
    {
      EverythingHas(st, k);
      SameAsItself(st, k);
      SweepsAgreeAt(st, st, a, b, now, k);
    }
    SameEverywhere(Sweep(st, a, now), Sweep(st, b, now));
  }

  lemma SameAsItself(st: Store, k: Key)
    ensures SameAt(st, st, k)
  {
  }

  lemma SweepNothing(st: Store, now: Time)
    ensures Sweep(st, {}, now) == st
  {
    hide *;
    forall k: Key
      ensures SameAt(Sweep(st, {}, now), st, k)
    {
      UnsweptAt(st, {}, now, k);
    }
    SameEverywhere(Sweep(st, {}, now), st);
  }

  /* ---------- what a charge creates ---------- */

  /** The counters of a request that do not exist yet. */
  function Missing(st: Store, req: Request): set<Key> {
    set k | k in KeysOf(req) && (if k.algorithm.TokenBucket? then k !in st.gcra else k !in st.windows)
  }

  function OfKind(keys: set<Key>, kind: Algorithm): set<Key> {
    set k | k in keys && k.algorithm == kind
  }

  lemma MissingOfKind(st: Store, req: Request)
    requires Admissible(req)
    ensures var missing := Missing(st, req);
            |missing| == |OfKind(missing, TokenBucket)| + |OfKind(missing, SlidingWindow)|
  {
    var missing := Missing(st, req);
    var buckets, windows := OfKind(missing, TokenBucket), OfKind(missing, SlidingWindow);
    forall k | k in missing
      ensures k.algorithm.TokenBucket? || k.algorithm.SlidingWindow?
    {
      KeyOfAdmissible(req, k);
    }
    assert buckets !! windows && missing == buckets + windows;
  }

  lemma MissingMember(st: Store, req: Request, k: Key)
    ensures k in OfKind(Missing(st, req), TokenBucket) <==>
            k in KeysOf(req) && k.algorithm.TokenBucket? && k !in st.gcra
    ensures k in OfKind(Missing(st, req), SlidingWindow)
            <==> k in KeysOf(req) && k.algorithm.SlidingWindow? && k !in st.windows
  {
  }

  /** A charge creates exactly the counters that were missing. */
  lemma ChargeAddsTheMissing(st: Store, req: Request, now: Time)
    requires Admissible(req)
    ensures Size(Charge(st, req, now)) == Size(st) + |Missing(st, req)|
  {
    hide *;
    var c, missing := Charge(st, req, now), Missing(st, req);
    var buckets, windows := OfKind(missing, TokenBucket), OfKind(missing, SlidingWindow);
    forall k: Key
      ensures k in c.gcra <==> k in st.gcra.Keys + buckets
      ensures k in c.windows <==> k in st.windows.Keys + windows
      ensures !(k in st.gcra && k in buckets) && !(k in st.windows && k in windows)
    {
      ChargeMember(st, req, now, k);
      MissingMember(st, req, k);
    }
    Adds(st.gcra.Keys, buckets, c.gcra.Keys);
    Adds(st.windows.Keys, windows, c.windows.Keys);
    MissingOfKind(st, req);
    SizeByKeys(st);
    SizeByKeys(c);
  }

  lemma Adds<T>(a: set<T>, b: set<T>, c: set<T>)
    requires a !! b && forall x :: x in c <==> x in a + b
    ensures |c| == |a| + |b|
  {
    assert c == a + b;
  }

  lemma SizeByKeys(st: Store)
    ensures Size(st) == |st.gcra.Keys| + |st.windows.Keys|
  {
  }
}
