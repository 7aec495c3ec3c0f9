/** The per-process limiter of internal/limiter/memory.go: tenant states updated in place, logs
    whose slices share backing arrays, a key counter and a budget. One call at a time; the
    interleavings are the subject of MemoryRaces. */
module Memory {
  import opened Limits
  import opened Gcra
  import opened Slices
  import opened Windows
  import opened Limiter
  import opened Runs
  import opened Parts

  /** A stored log and the instant its newest entry ages out. */
  datatype WindowState = WindowState(log: Slice, expiry: int)

  /** What pass one of a check intends to write for one limit. */
  datatype Pending = Pending(key: Key, limit: Limit, tat: Time, window: Option<WindowState>, isNew: bool)

  function Prefix(req: Request, n: nat): Request
    requires n <= |req.limits|
  {
    req.(limits := req.limits[..n])
  }

  class TenantState {
    var gcra: map<Key, Time>
    var windows: map<Key, WindowState>
    /** Set once the sweeper has dropped this state from the tenant table. */
    var detached: bool
    /** What the logs read as. */
    ghost var logs: map<Key, seq<Time>>
    ghost var Repr: set<object>

    constructor ()
      ensures Valid() && fresh(Repr) && Value() == EMPTY && !detached
    {
      gcra, windows, detached := map[], map[], false;
      logs, Repr := map[], {this};
    }

    ghost function Value(): Store
      reads this
    {
      Store(gcra, logs)
    }

    static ghost predicate Reads(w: WindowState, k: Key, log: seq<Time>)
      reads w.log.backing
    {
      Fits(w.log) && Contents(w.log) == log && w.expiry == WindowExpiry(k.period, log)
    }

    /** Every stored slice reads as its log, and no two logs share a backing array. */
    ghost predicate Valid()
      reads this, Repr
    {
      && this in Repr
      && windows.Keys == logs.Keys
      && (forall k :: k in windows ==> windows[k].log.backing in Repr && Reads(windows[k], k, logs[k]))
      && (forall j, k :: j in windows && k in windows && j != k ==> windows[j].log.backing != windows[k].log.backing)
    }

    lemma LogIsStored(key: Key)
      requires Valid()
      ensures LogOf(Value(), key) == if key in windows then logs[key] else []
      ensures key in windows ==> Fits(windows[key].log) && Contents(windows[key].log) == logs[key]
    {
    }

    lemma EmptySliceReads(none: array<Time>)
      ensures Fits(Slice(none, 0, 0)) && Contents(Slice(none, 0, 0)) == []
    {
    }

    /** Pass one for a sliding window. The check may append behind the stored log, in the very
        array that log lives in; every stored log reads the same afterwards. */
    method StageWindow(l: Limit, key: Key, now: Time, cost: nat) returns (w: WindowState, d: Decision)
      requires Valid()
      requires 0 < l.count && cost <= l.count && key.period == l.period
      modifies if key in windows then {windows[key].log.backing} else {}
      ensures Valid()
      ensures Reads(w, key, WindowVerdict(l, LogOf(Value(), key), now, cost).0)
      ensures d == WindowVerdict(l, LogOf(Value(), key), now, cost).1
      ensures fresh(w.log.backing) || (key in windows && w.log.backing == windows[key].log.backing)
    {
      hide WindowVerdict;
      hide WindowExpiry;
      hide Contents;
      hide LogOf;
      LogIsStored(key);
      var log: Slice;
      if key in windows {
        log := windows[key].log;
      } else {
        var none := new Time[0];
        log := Slice(none, 0, 0);
        EmptySliceReads(none);
      }
      var kept;
      kept, d := WindowCheck(l, log, now, cost);
      var expiry := ExpiryOf(l.period, kept);
      w := WindowState(kept, expiry);
    }

    /** A pending write for `l`, computed from `st`. */
    static ghost predicate Ready(p: Pending, st: Store, tenant: string, l: Limit, now: Time, cost: nat)
      requires Enforceable(l) && cost <= Capacity(l)
      reads Backings([p])
    {
      && p.limit == l && p.key == KeyOf(tenant, l)
      && (l.algorithm.TokenBucket? ==>
            p.window.None? && p.isNew == (p.key !in st.gcra) && p.tat == GcraCheck(l, TatOf(st, p.key), now, cost).0)
      && (l.algorithm.SlidingWindow? ==>
            && p.window.Some? && p.isNew == (p.key !in st.windows)
            && Reads(p.window.value, p.key, WindowVerdict(l, LogOf(st, p.key), now, cost).0))
    }

    /** In an array no other stored log uses. */
    static ghost predicate Placed(p: Pending, windows: map<Key, WindowState>, owned: set<object>) {
      p.window.Some? ==>
        || p.window.value.log.backing !in owned
        || (p.key in windows && p.window.value.log.backing == windows[p.key].log.backing)
    }

    /** Computed from what is stored now. */
    ghost predicate Staged(p: Pending, tenant: string, l: Limit, now: Time, cost: nat)
      requires Enforceable(l) && cost <= Capacity(l)
      reads this, Backings([p])
    {
      Ready(p, Value(), tenant, l, now, cost) && Placed(p, windows, Repr)
    }

    static ghost function Backings(staged: seq<Pending>): set<object> {
      set p | p in staged && p.window.Some? :: p.window.value.log.backing
    }

    ghost predicate AllStaged(staged: seq<Pending>, req: Request, n: nat, now: Time)
      requires Admissible(req) && n <= |req.limits|
      reads this, Backings(staged)
    {
      && |staged| == n
      && forall i :: 0 <= i < n ==> Staged(staged[i], req.tenant, req.limits[i], now, EffectiveCost(req))
    }

    /** Pending logs are in arrays of their own. */
    static ghost predicate Apart(staged: seq<Pending>) {
      forall i, j :: 0 <= i < j < |staged| && staged[i].window.Some? && staged[j].window.Some? ==>
        staged[i].window.value.log.backing != staged[j].window.value.log.backing
    }

    lemma StagedSnoc(staged: seq<Pending>, p: Pending, req: Request, i: nat, now: Time)
      requires Admissible(req) && i < |req.limits| && AllStaged(staged, req, i, now) && Apart(staged)
      requires Staged(p, req.tenant, req.limits[i], now, EffectiveCost(req))
      requires p.window.Some? ==> p.window.value.log.backing !in Backings(staged)
      ensures AllStaged(staged + [p], req, i + 1, now) && Apart(staged + [p])
    {
    }

    /** The array a window is about to be checked in holds none of the pending logs. */
    lemma NotYetStaged(staged: seq<Pending>, req: Request, i: nat, now: Time)
      requires Valid() && Admissible(req) && DistinctKeys(req) && i < |req.limits| && AllStaged(staged, req, i, now)
      ensures var key := KeyOf(req.tenant, req.limits[i]);
              key in windows ==> windows[key].log.backing !in Backings(staged)
    {
      forall p | p in staged && p.window.Some?
        ensures var key := KeyOf(req.tenant, req.limits[i]);
                key in windows ==> windows[key].log.backing != p.window.value.log.backing
      {
        var j :| 0 <= j < i && staged[j] == p;
        assert Staged(staged[j], req.tenant, req.limits[j], now, EffectiveCost(req));
      }
    }

    lemma WindowIsStaged(w: WindowState, tenant: string, l: Limit, now: Time, cost: nat)
      requires Valid() && Enforceable(l) && cost <= Capacity(l) && l.algorithm.SlidingWindow?
      requires 0 < l.count && cost <= l.count
      requires Reads(w, KeyOf(tenant, l), WindowVerdict(l, LogOf(Value(), KeyOf(tenant, l)), now, cost).0)
      requires w.log.backing !in Repr
               || (KeyOf(tenant, l) in windows && w.log.backing == windows[KeyOf(tenant, l)].log.backing)
      ensures var key := KeyOf(tenant, l);
              Staged(Pending(key, l, ZERO_TIME, Some(w), key !in windows), tenant, l, now, cost)
    {
    }

    lemma BucketIsStaged(tenant: string, l: Limit, now: Time, cost: nat)
      requires Enforceable(l) && cost <= Capacity(l) && l.algorithm.TokenBucket?
      ensures var key := KeyOf(tenant, l);
              var r := GcraCheck(l, if key in gcra then gcra[key] else ZERO_TIME, now, cost);
              && Staged(Pending(key, l, r.0, None, key !in gcra), tenant, l, now, cost)
              && r.1 == Judge(Value(), tenant, l, now, cost)
    {
    }

    lemma BackingIsOwned(key: Key)
      requires Valid()
      ensures key in windows ==> windows[key].log.backing in Repr - {this}
    {
    }

    lemma StageFacts(st: Store, req: Request, i: nat, now: Time)
      requires Admissible(req) && i < |req.limits|
      ensures var l, cost := req.limits[i], EffectiveCost(req);
              && Enforceable(l) && cost <= Capacity(l) && (l.algorithm.TokenBucket? || l.algorithm.SlidingWindow?)
              && 0 < l.count && 0 < l.period && KeyOf(req.tenant, l).period == l.period
              && (l.algorithm.SlidingWindow? ==> cost <= l.count)
              && (l.algorithm.SlidingWindow? ==>
                    Judge(st, req.tenant, l, now, cost)
                    == WindowVerdict(l, LogOf(st, KeyOf(req.tenant, l)), now, cost).1)
    {
    }

    /** Pass one for a window, behind pending writes of other limits. */
    method StageBehind(req: Request, i: nat, now: Time, ghost staged: seq<Pending>) returns (p: Pending, d: Decision)
      requires Valid() && Admissible(req) && DistinctKeys(req) && i < |req.limits|
      requires req.limits[i].algorithm.SlidingWindow?
      requires AllStaged(staged, req, i, now) && Apart(staged)
      modifies Repr - {this}
      ensures Valid()
      ensures AllStaged(staged + [p], req, i + 1, now) && Apart(staged + [p])
      ensures p.window.Some? ==> p.window.value.log.backing in Repr || fresh(p.window.value.log.backing)
      ensures d == Judge(Value(), req.tenant, req.limits[i], now, EffectiveCost(req))
    {
      hide *;
      NotABacking(staged);
      var l, cost := req.limits[i], EffectiveCost(req);
      var key := KeyOf(req.tenant, l);
      StageFacts(Value(), req, i, now);
      BackingIsOwned(key);
      NotYetStaged(staged, req, i, now);
      var w;
      w, d := StageWindow(l, key, now, cost);
      p := Pending(key, l, ZERO_TIME, Some(w), key !in windows);
      WindowIsStaged(w, req.tenant, l, now, cost);
      StagedSnoc(staged, p, req, i, now);
    }

    /** Pass one for one limit. Later limits leave earlier pending writes alone. */
    method StageOne(req: Request, i: nat, now: Time, ghost staged: seq<Pending>) returns (p: Pending, d: Decision)
      requires Valid() && Admissible(req) && DistinctKeys(req) && i < |req.limits|
      requires AllStaged(staged, req, i, now) && Apart(staged)
      modifies Repr - {this}
      ensures Valid()
      ensures AllStaged(staged + [p], req, i + 1, now) && Apart(staged + [p])
      ensures p.window.Some? ==> p.window.value.log.backing in Repr || fresh(p.window.value.log.backing)
      ensures d == Judge(Value(), req.tenant, req.limits[i], now, EffectiveCost(req))
    {
      hide *;
      var l, cost := req.limits[i], EffectiveCost(req);
      var key := KeyOf(req.tenant, l);
      StageFacts(Value(), req, i, now);
      if l.algorithm.TokenBucket? {
        var tat := if key in gcra then gcra[key] else ZERO_TIME;
        var r := GcraCheck(l, tat, now, cost);
        d := r.1;
        p := Pending(key, l, r.0, None, key !in gcra);
        BucketIsStaged(req.tenant, l, now, cost);
        StagedSnoc(staged, p, req, i, now);
      } else {
        p, d := StageBehind(req, i, now, staged);
      }
    }

    /** Pass one: every limit judged, nothing stored. */
    method Stage(req: Request, now: Time) returns (ds: seq<Decision>, staged: seq<Pending>, created: nat)
      requires Valid() && Admissible(req) && DistinctKeys(req)
      modifies Repr - {this}
      ensures Valid()
      ensures ds == Judgements(Value(), req, now)
      ensures AllStaged(staged, req, |req.limits|, now) && Apart(staged)
      ensures forall o :: o in Backings(staged) ==> o in Repr || fresh(o)
      ensures created == CountNew(staged)
    {
      ds, staged, created := [], [], 0;
      for i := 0 to |req.limits|
        invariant Valid()
        invariant |ds| == i && forall j :: 0 <= j < i ==>
                  ds[j] == Judge(Value(), req.tenant, req.limits[j], now, EffectiveCost(req))
        invariant AllStaged(staged, req, i, now) && Apart(staged)
        invariant forall o :: o in Backings(staged) ==> o in Repr || fresh(o)
        invariant created == CountNew(staged)
      {
        var p, d := StageOne(req, i, now, staged);
        CountNewSnoc(staged, p);
        BackingsSnoc(staged, p);
        ds, staged := ds + [d], staged + [p];
        if p.isNew { created := created + 1; }
      }
    }

    static lemma BackingsSnoc(staged: seq<Pending>, p: Pending)
      ensures Backings(staged + [p]) == Backings(staged) + if p.window.Some? then {p.window.value.log.backing} else {}
    {
    }

    static ghost predicate AllReady(staged: seq<Pending>, st: Store, req: Request, now: Time)
      requires Admissible(req)
      reads Backings(staged)
    {
      && |staged| == |req.limits|
      && forall i :: 0 <= i < |staged| ==> Ready(staged[i], st, req.tenant, req.limits[i], now, EffectiveCost(req))
    }

    static ghost predicate AllPlaced(staged: seq<Pending>, from: nat, windows: map<Key, WindowState>,
        owned: set<object>) {
      forall i :: from <= i < |staged| ==> Placed(staged[i], windows, owned)
    }

    static lemma ReadyAt(staged: seq<Pending>, i: nat, st: Store, req: Request, now: Time)
      requires Admissible(req) && i < |req.limits| && AllReady(staged, st, req, now)
      requires Enforceable(req.limits[i]) && EffectiveCost(req) <= Capacity(req.limits[i])
      ensures |staged| == |req.limits|
      ensures var p, l, cost := staged[i], req.limits[i], EffectiveCost(req);
              && p.limit == l && p.key == KeyOf(req.tenant, l)
              && 0 < l.count && 0 < l.period
              && (l.algorithm.TokenBucket? ==>
                    p.isNew == (p.key !in st.gcra) && p.tat == GcraCheck(l, TatOf(st, p.key), now, cost).0)
              && (l.algorithm.SlidingWindow? ==>
                    && cost <= l.count && p.window.Some? && p.isNew == (p.key !in st.windows)
                    && Reads(p.window.value, p.key, WindowVerdict(l, LogOf(st, p.key), now, cost).0))
    {
      var l := req.limits[i];
      assert l.algorithm.SlidingWindow? ==> Capacity(l) == l.count;
      hide GcraCheck;
      hide WindowVerdict;
      assert Ready(staged[i], st, req.tenant, req.limits[i], now, EffectiveCost(req));
    }

    static lemma StillPlaced(staged: seq<Pending>, i: nat, windows: map<Key, WindowState>, owned: set<object>)
      requires i < |staged| && AllPlaced(staged, i, windows, owned) && Apart(staged) && staged[i].window.Some?
      requires forall j :: i < j < |staged| ==> staged[j].key != staged[i].key
      ensures Placed(staged[i], windows, owned)
      ensures var w := staged[i].window.value;
              AllPlaced(staged, i + 1, windows[staged[i].key := w], owned + {w.log.backing})
    {
      var key, w := staged[i].key, staged[i].window.value;
      forall j | i + 1 <= j < |staged|
        ensures Placed(staged[j], windows[key := w], owned + {w.log.backing})
      {
        assert Placed(staged[j], windows, owned);
      }
    }

    static lemma BackingMember(staged: seq<Pending>, i: nat)
      requires i < |staged| && staged[i].window.Some?
      ensures staged[i].window.value.log.backing in Backings(staged)
    {
    }

    /** Puts one window in place; every other log keeps its own array. */
    method StoreWindow(key: Key, w: WindowState, ghost log: seq<Time>)
      requires Valid() && Reads(w, key, log)
      requires w.log.backing !in Repr || (key in windows && w.log.backing == windows[key].log.backing)
      modifies this
      ensures Valid() && gcra == old(gcra) && detached == old(detached)
      ensures logs == old(logs)[key := log] && windows == old(windows)[key := w]
      ensures Repr == old(Repr) + {w.log.backing}
    {
      windows := windows[key := w];
      logs := logs[key := log];
      Repr := Repr + {w.log.backing};
    }

    lemma ValueIs()
      ensures Value() == Store(gcra, logs)
    {
    }

    static lemma KeysDiffer(staged: seq<Pending>, i: nat, st: Store, req: Request, now: Time)
      requires Admissible(req) && DistinctKeys(req) && i < |req.limits| && AllReady(staged, st, req, now)
      ensures |staged| == |req.limits|
      ensures forall j :: i < j < |staged| ==> staged[j].key != staged[i].key
    {
      hide Reads;
      assert Ready(staged[i], st, req.tenant, req.limits[i], now, EffectiveCost(req));
      forall j | i < j < |staged|
        ensures staged[j].key != staged[i].key
      {
        assert Ready(staged[j], st, req.tenant, req.limits[j], now, EffectiveCost(req));
      }
    }

    method StoreBucket(key: Key, tat: Time)
      requires Valid()
      modifies this`gcra
      ensures Valid() && gcra == old(gcra)[key := tat]
    {
      gcra := gcra[key := tat];
    }

    lemma NotABacking(staged: seq<Pending>)
      ensures this !in Backings(staged) && forall o :: o in Backings(staged) ==> allocated(o)
    {
    }

    static lemma PlacedTail(staged: seq<Pending>, i: nat, windows: map<Key, WindowState>, owned: set<object>)
      requires AllPlaced(staged, i, windows, owned)
      ensures AllPlaced(staged, i + 1, windows, owned)
    {
    }

    static lemma BucketWritten(staged: seq<Pending>, i: nat, st: Store, req: Request, now: Time, before: Store)
      requires Admissible(req) && DistinctKeys(req) && i < |req.limits| && AllReady(staged, st, req, now)
      requires Admissible(Prefix(req, i)) && before == Charge(st, Prefix(req, i), now)
      requires req.limits[i].algorithm.TokenBucket?
      ensures |staged| == |req.limits| && Admissible(Prefix(req, i + 1))
      ensures var p, after := staged[i], Charge(st, Prefix(req, i + 1), now);
              && after == Store(before.gcra[p.key := p.tat], before.windows)
              && Size(after) == Size(before) + if p.isNew then 1 else 0
    {
      hide *;
      ChargeStep(st, req, i, now);
      ReadyAt(staged, i, st, req, now);
      MapGrows(before.gcra, staged[i].key, staged[i].tat);
      SizeIs(before);
      SizeIs(Charge(st, Prefix(req, i + 1), now));
    }

    static lemma WindowWritten(staged: seq<Pending>, i: nat, st: Store, req: Request, now: Time, before: Store)
        returns (log: seq<Time>)
      requires Admissible(req) && DistinctKeys(req) && i < |req.limits| && AllReady(staged, st, req, now)
      requires Admissible(Prefix(req, i)) && before == Charge(st, Prefix(req, i), now)
      requires !req.limits[i].algorithm.TokenBucket?
      ensures |staged| == |req.limits| && Admissible(Prefix(req, i + 1))
      ensures staged[i].window.Some? && Reads(staged[i].window.value, staged[i].key, log)
      ensures var p, after := staged[i], Charge(st, Prefix(req, i + 1), now);
              && after == Store(before.gcra, before.windows[p.key := log])
              && Size(after) == Size(before) + if p.isNew then 1 else 0
    {
      hide *;
      ChargeStep(st, req, i, now);
      ReadyAt(staged, i, st, req, now);
      var key := staged[i].key;
      log := WindowVerdict(req.limits[i], LogOf(st, key), now, EffectiveCost(req)).0;
      MapGrows(before.windows, key, log);
      SizeIs(before);
      SizeIs(Charge(st, Prefix(req, i + 1), now));
    }

    method CommitBucket(staged: seq<Pending>, i: nat, ghost st: Store, ghost req: Request, ghost now: Time)
      requires Valid() && Admissible(req) && DistinctKeys(req) && i < |req.limits|
      requires AllReady(staged, st, req, now) && AllPlaced(staged, i, windows, Repr) && Apart(staged)
      requires Admissible(Prefix(req, i)) && Value() == Charge(st, Prefix(req, i), now)
      requires req.limits[i].algorithm.TokenBucket?
      modifies this
      ensures Valid() && detached == old(detached)
      ensures AllPlaced(staged, i + 1, windows, Repr)
      ensures Admissible(Prefix(req, i + 1)) && Value() == Charge(st, Prefix(req, i + 1), now)
      ensures old(Repr) <= Repr <= old(Repr) + Backings(staged)
      ensures i < |staged| && Size(Value()) == old(Size(Value())) + if staged[i].isNew then 1 else 0
    {
      hide *;
      PlacedTail(staged, i, windows, Repr);
      BucketWritten(staged, i, st, req, now, Value());
      ValueIs();
      StoreBucket(staged[i].key, staged[i].tat);
      ValueIs();
    }

    method CommitWindow(staged: seq<Pending>, i: nat, ghost st: Store, ghost req: Request, ghost now: Time)
      requires Valid() && Admissible(req) && DistinctKeys(req) && i < |req.limits|
      requires AllReady(staged, st, req, now) && AllPlaced(staged, i, windows, Repr) && Apart(staged)
      requires Admissible(Prefix(req, i)) && Value() == Charge(st, Prefix(req, i), now)
      requires !req.limits[i].algorithm.TokenBucket?
      modifies this
      ensures Valid() && detached == old(detached)
      ensures AllPlaced(staged, i + 1, windows, Repr)
      ensures Admissible(Prefix(req, i + 1)) && Value() == Charge(st, Prefix(req, i + 1), now)
      ensures old(Repr) <= Repr <= old(Repr) + Backings(staged)
      ensures i < |staged| && Size(Value()) == old(Size(Value())) + if staged[i].isNew then 1 else 0
    {
      hide *;
      KeysDiffer(staged, i, st, req, now);
      ghost var log := WindowWritten(staged, i, st, req, now, Value());
      StillPlaced(staged, i, windows, Repr);
      BackingMember(staged, i);
      ValueIs();
      StoreWindow(staged[i].key, staged[i].window.value, log);
      ValueIs();
    }

    /** Pass two for one limit. */
    method CommitOne(staged: seq<Pending>, i: nat, ghost st: Store, ghost req: Request, ghost now: Time)
      requires Valid() && Admissible(req) && DistinctKeys(req) && i < |req.limits|
      requires AllReady(staged, st, req, now) && AllPlaced(staged, i, windows, Repr) && Apart(staged)
      requires Admissible(Prefix(req, i)) && Value() == Charge(st, Prefix(req, i), now)
      modifies this
      ensures Valid() && detached == old(detached)
      ensures AllPlaced(staged, i + 1, windows, Repr)
      ensures Admissible(Prefix(req, i + 1)) && Value() == Charge(st, Prefix(req, i + 1), now)
      ensures old(Repr) <= Repr <= old(Repr) + Backings(staged)
      ensures i < |staged| && Size(Value()) == old(Size(Value())) + if staged[i].isNew then 1 else 0
      ensures AllReady(staged, st, req, now)
    {
      hide *;
      NotABacking(staged);
      KeysDiffer(staged, i, st, req, now);
      StageFacts(st, req, i, now);
      ReadyAt(staged, i, st, req, now);
      if staged[i].limit.algorithm.TokenBucket? {
        CommitBucket(staged, i, st, req, now);
      } else {
        CommitWindow(staged, i, st, req, now);
      }
    }

    static lemma StagedIsReady(ts: TenantState, staged: seq<Pending>, req: Request, now: Time)
      requires Admissible(req) && ts.AllStaged(staged, req, |req.limits|, now)
      ensures AllReady(staged, ts.Value(), req, now) && AllPlaced(staged, 0, ts.windows, ts.Repr)
    {
      hide Ready;
      hide Placed;
      forall i | 0 <= i < |staged|
        ensures Ready(staged[i], ts.Value(), req.tenant, req.limits[i], now, EffectiveCost(req))
        ensures Placed(staged[i], ts.windows, ts.Repr)
      {
        assert ts.Staged(staged[i], req.tenant, req.limits[i], now, EffectiveCost(req));
      }
    }

    /** Pass two: every pending write stored. */
    method Commit(staged: seq<Pending>, req: Request, ghost now: Time) returns (added: nat)
      requires Valid() && Admissible(req) && DistinctKeys(req)
      requires AllStaged(staged, req, |req.limits|, now) && Apart(staged)
      modifies this
      ensures Valid() && detached == old(detached)
      ensures Value() == Charge(old(Value()), req, now)
      ensures old(Repr) <= Repr <= old(Repr) + Backings(staged)
      ensures added == CountNew(staged) && Size(Value()) == old(Size(Value())) + added
    {
      hide *;
      ghost var st := Value();
      StagedIsReady(this, staged, req, now);
      StagedLength(staged, req, now);
      ChargeNothing(st, req, now);
      CountNone(staged);
      added := 0;
      for i := 0 to |staged|
        invariant Valid() && detached == old(detached)
        invariant AllReady(staged, st, req, now) && AllPlaced(staged, i, windows, Repr)
        invariant Admissible(Prefix(req, i)) && Value() == Charge(st, Prefix(req, i), now)
        invariant old(Repr) <= Repr <= old(Repr) + Backings(staged)
        invariant added == CountNew(staged[..i]) && Size(Value()) == Size(st) + added
      {
        CommitOne(staged, i, st, req, now);
        CountUpTo(staged, i);
        if staged[i].isNew { added := added + 1; }
      }
      PrefixOfAll(req);
      assert staged[..|staged|] == staged;
    }

    /** A limit read without consuming anything. */
    method Peek(tenant: string, l: Limit, now: Time) returns (d: Decision)
      requires Valid() && Enforceable(l)
      modifies Repr - {this}
      ensures Valid()
      ensures 0 <= Capacity(l) && d == Judge(Value(), tenant, l, now, 0)
    {
      hide *;
      var key := KeyOf(tenant, l);
      PeekFacts(Value(), tenant, l, now);
      BackingIsOwned(key);
      if l.algorithm.TokenBucket? {
        BucketIsStaged(tenant, l, now, 0);
        d := GcraCheck(l, if key in gcra then gcra[key] else ZERO_TIME, now, 0).1;
      } else {
        var w;
        w, d := StageWindow(l, key, now, 0);
      }
    }

    static lemma PeekFacts(st: Store, tenant: string, l: Limit, now: Time)
      requires Enforceable(l)
      ensures 0 <= Capacity(l) && 0 < l.count && 0 < l.period && KeyOf(tenant, l).period == l.period
      ensures !l.algorithm.TokenBucket? ==>
              Judge(st, tenant, l, now, 0) == WindowVerdict(l, LogOf(st, KeyOf(tenant, l)), now, 0).1
    {
    }

    /** What a refusal reports: the limits that would have allowed are read again. */
    method Report(ds: seq<Decision>, req: Request, now: Time) returns (told: seq<Decision>)
      requires Valid() && Admissible(req) && |ds| == |req.limits|
      modifies Repr - {this}
      ensures Valid()
      ensures told == RestateAll(Value(), req, now, ds)
    {
      told := ds;
      for i := 0 to |ds|
        invariant Valid() && |told| == |ds|
        invariant forall j :: i <= j < |ds| ==> told[j] == ds[j]
        invariant forall j :: 0 <= j < i ==> told[j] == Restate(Value(), req, now, j, ds[j])
      {
        if told[i].allowed {
          var peek := Peek(req.tenant, req.limits[i], now);
          told := told[i := told[i].(remaining := peek.remaining, resetAfter := peek.resetAfter)];
        }
      }
    }

    method SweepBuckets(now: Time) returns (removed: nat)
      requires Valid()
      modifies this`gcra
      ensures Valid() && removed + |gcra| == |old(gcra)|
      ensures gcra == map k | k in old(gcra) && !(GcraExpiry(old(gcra)[k]) <= now) :: old(gcra)[k]
    {
      removed := 0;
      var todo := gcra.Keys;
      while todo != {}
        invariant Valid() && gcra.Keys <= old(gcra).Keys && todo <= old(gcra).Keys
        invariant forall k :: k in old(gcra) ==> (k in gcra <==> k in todo || !(GcraExpiry(old(gcra)[k]) <= now))
        invariant forall k :: k in gcra ==> gcra[k] == old(gcra)[k]
        invariant removed + |gcra| == |old(gcra)|
        decreases |todo|
      {
        var k :| k in todo;
        todo := todo - {k};
        if GcraExpiry(gcra[k]) <= now {
          MapShrinks(gcra, k);
          gcra := gcra - {k};
          removed := removed + 1;
        }
      }
    }

    lemma ValidMeans()
      requires Valid()
      ensures this in Repr && windows.Keys == logs.Keys
      ensures forall k :: k in windows ==> windows[k].log.backing in Repr && Reads(windows[k], k, logs[k])
      ensures forall j, k :: j in windows && k in windows && j != k ==> windows[j].log.backing != windows[k].log.backing
    {
    }

    lemma ValidAgain()
      requires this in Repr && windows.Keys == logs.Keys
      requires forall k :: k in windows ==> windows[k].log.backing in Repr && Reads(windows[k], k, logs[k])
      requires forall j, k :: j in windows && k in windows && j != k ==>
               windows[j].log.backing != windows[k].log.backing
      ensures Valid()
    {
    }

    method DropWindow(k: Key)
      requires Valid() && k in windows
      modifies this`windows, this`logs
      ensures Valid() && windows == old(windows) - {k} && logs == old(logs) - {k} && |logs| + 1 == |old(logs)|
    {
      hide *;
      ValidMeans();
      MapShrinks(logs, k);
      windows, logs := windows - {k}, logs - {k};
      ValidAgain();
    }

    lemma EmptyMeansBothMaps()
      requires Valid()
      ensures (gcra == map[] && windows == map[]) <==> Value() == EMPTY
    {
      assert windows == map[] <==> windows.Keys == {};
    }

    lemma StoredExpiry(k: Key)
      requires Valid() && k in windows
      ensures k in logs && windows[k].expiry == WindowExpiry(k.period, logs[k])
    {
    }

    lemma SameWindows()
      requires Valid()
      ensures windows.Keys == logs.Keys
    {
    }

    method SweepWindows(now: Time) returns (removed: nat)
      requires Valid()
      modifies this`windows, this`logs
      ensures Valid() && removed + |logs| == |old(logs)|
      ensures logs == map k | k in old(logs) && !(WindowExpiry(k.period, old(logs)[k]) <= now) :: old(logs)[k]
    {
      hide *;
      SameWindows();
      removed := 0;
      var todo := windows.Keys;
      while todo != {}
        invariant Valid() && logs.Keys <= old(logs).Keys && todo <= logs.Keys
        invariant forall k :: k in old(logs) ==>
                  (k in logs <==> k in todo || !(WindowExpiry(k.period, old(logs)[k]) <= now))
        invariant forall k :: k in logs ==> logs[k] == old(logs)[k]
        invariant removed + |logs| == |old(logs)|
        decreases |todo|
      {
        var k :| k in todo;
        SameWindows();
        StoredExpiry(k);
        todo := todo - {k};
        if windows[k].expiry <= now {
          DropWindow(k);
          removed := removed + 1;
        }
      }
    }

    /** Every expired counter dropped. */
    method Expire(now: Time) returns (removed: nat)
      requires Valid()
      modifies this`gcra, this`windows, this`logs
      ensures Valid() && Value() == Runs.Sweep(old(Value()), Everything(old(Value())), now)
      ensures removed + Size(Value()) == old(Size(Value()))
    {
      hide *;
      ghost var before := Value();
      ValueIs();
      SweepShape(before, now);
      SizeIs(before);
      var buckets := SweepBuckets(now);
      var expired := SweepWindows(now);
      removed := buckets + expired;
      ValueIs();
      SizeIs(Value());
    }

    lemma StagedLength(staged: seq<Pending>, req: Request, now: Time)
      requires Admissible(req) && AllStaged(staged, req, |req.limits|, now)
      ensures |staged| == |req.limits|
      ensures forall i :: 0 <= i < |staged| ==>
              staged[i].limit == req.limits[i] && staged[i].key == KeyOf(req.tenant, req.limits[i])
    {
      hide Reads;
      forall i | 0 <= i < |staged|
        ensures staged[i].limit == req.limits[i] && staged[i].key == KeyOf(req.tenant, req.limits[i])
      {
        assert Staged(staged[i], req.tenant, req.limits[i], now, EffectiveCost(req));
      }
    }
  }

  lemma SweepShape(st: Store, now: Time)
    ensures Runs.Sweep(st, Everything(st), now)
            == Store(map k | k in st.gcra && !(GcraExpiry(st.gcra[k]) <= now) :: st.gcra[k],
                     map k | k in st.windows && !(WindowExpiry(k.period, st.windows[k]) <= now) :: st.windows[k])
  {
    hide WindowExpiry;
    hide GcraExpiry;
    var a, b := Runs.Sweep(st, Everything(st), now),
      Store(map k | k in st.gcra && !(GcraExpiry(st.gcra[k]) <= now) :: st.gcra[k],
            map k | k in st.windows && !(WindowExpiry(k.period, st.windows[k]) <= now) :: st.windows[k]);
    assert a.gcra == b.gcra;
    assert a.windows == b.windows;
  }

  lemma MapShrinks<K, V>(m: map<K, V>, k: K)
    requires k in m
    ensures |m - {k}| + 1 == |m|
  {
    assert m == (m - {k})[k := m[k]];
  }

  /** A charge adds exactly the counters that pass one found missing. */
  lemma {:induction false} ChargeSize(staged: seq<Pending>, n: nat, st: Store, req: Request, now: Time)
    requires Admissible(req) && DistinctKeys(req) && n <= |req.limits|
    requires TenantState.AllReady(staged, st, req, now)
    ensures |staged| == |req.limits| && Admissible(Prefix(req, n))
    ensures Size(Charge(st, Prefix(req, n), now)) == Size(st) + CountNew(staged[..n])
  {
    hide *;
    if n == 0 {
      ChargeNothing(st, req, now);
      CountNone(staged);
      ReadyLength(staged, st, req, now);
    } else {
      ChargeSize(staged, n - 1, st, req, now);
      CountUpTo(staged, n - 1);
      var before := Charge(st, Prefix(req, n - 1), now);
      if req.limits[n - 1].algorithm.TokenBucket? {
        TenantState.BucketWritten(staged, n - 1, st, req, now, before);
      } else {
        var log := TenantState.WindowWritten(staged, n - 1, st, req, now, before);
      }
    }
  }

  lemma ReadyLength(staged: seq<Pending>, st: Store, req: Request, now: Time)
    requires Admissible(req) && TenantState.AllReady(staged, st, req, now)
    ensures |staged| == |req.limits|
  {
  }

  lemma CountNone(staged: seq<Pending>)
    ensures CountNew(staged[..0]) == 0
  {
  }

  lemma CountUpTo(staged: seq<Pending>, i: nat)
    requires i < |staged|
    ensures CountNew(staged[..i + 1]) == CountNew(staged[..i]) + if staged[i].isNew then 1 else 0
  {
    assert staged[..i + 1] == staged[..i] + [staged[i]];
    CountNewSnoc(staged[..i], staged[i]);
  }

  lemma PrefixOfAll(req: Request)
    ensures Prefix(req, |req.limits|) == req
  {
    assert req.limits[..|req.limits|] == req.limits;
  }

  lemma ChargeNothing(st: Store, req: Request, now: Time)
    requires Admissible(req)
    ensures Admissible(Prefix(req, 0)) && Charge(st, Prefix(req, 0), now) == st
  {
    assert KeysOf(Prefix(req, 0)) == {};
  }

  lemma SizeIs(st: Store)
    ensures Size(st) == |st.gcra| + |st.windows|
  {
  }

  lemma MapGrows<K, V>(m: map<K, V>, k: K, v: V)
    ensures |m[k := v]| == |m| + if k in m then 0 else 1
  {
  }

  lemma PrefixIsAdmissible(req: Request, n: nat)
    requires Admissible(req) && n <= |req.limits|
    ensures Admissible(Prefix(req, n)) && EffectiveCost(Prefix(req, n)) == EffectiveCost(req)
  {
  }

  lemma PrefixKeys(req: Request, n: nat)
    requires n < |req.limits|
    ensures KeysOf(Prefix(req, n + 1)) == KeysOf(Prefix(req, n)) + {KeyOf(req.tenant, req.limits[n])}
    ensures DistinctKeys(req) ==> KeyOf(req.tenant, req.limits[n]) !in KeysOf(Prefix(req, n))
  {
    var a, b := Prefix(req, n + 1), Prefix(req, n);
    assert forall i :: 0 <= i < n ==> a.limits[i] == b.limits[i];
    assert a.limits[n] == req.limits[n];
    forall k | k in KeysOf(b)
      ensures k in KeysOf(a)
    {
      var i :| 0 <= i < n && KeyOf(b.tenant, b.limits[i]) == k;
      assert KeyOf(a.tenant, a.limits[i]) == k;
    }
    assert KeyOf(a.tenant, a.limits[n]) in KeysOf(a);
  }

  /** One limit more charged at `k`: the write of that limit's own key, or no change. */
  lemma ChargeStepAt(st: Store, req: Request, n: nat, now: Time, k: Key)
    requires Admissible(req) && n < |req.limits| && Admissible(Prefix(req, n)) && Admissible(Prefix(req, n + 1))
    requires EffectiveCost(Prefix(req, n)) == EffectiveCost(Prefix(req, n + 1))
    requires KeysOf(Prefix(req, n + 1)) == KeysOf(Prefix(req, n)) + {KeyOf(req.tenant, req.limits[n])}
    ensures var key, less, more :=
            KeyOf(req.tenant, req.limits[n]), Charge(st, Prefix(req, n), now), Charge(st, Prefix(req, n + 1), now);
            k != key || !k.algorithm.TokenBucket? ==>
              (k in more.gcra <==> k in less.gcra) && (k in more.gcra ==> more.gcra[k] == less.gcra[k])
    ensures var key, less, more :=
            KeyOf(req.tenant, req.limits[n]), Charge(st, Prefix(req, n), now), Charge(st, Prefix(req, n + 1), now);
            k != key || !k.algorithm.SlidingWindow? ==>
              (k in more.windows <==> k in less.windows) && (k in more.windows ==> more.windows[k] == less.windows[k])
  {
    hide *;
    ChargeAt(st, Prefix(req, n), now, k);
    ChargeAt(st, Prefix(req, n + 1), now, k);
    ChargeMember(st, Prefix(req, n), now, k);
    ChargeMember(st, Prefix(req, n + 1), now, k);
  }

  lemma ChargeStepHere(st: Store, req: Request, n: nat, now: Time)
    requires Admissible(req) && n < |req.limits| && Admissible(Prefix(req, n + 1))
    requires KeyOf(req.tenant, req.limits[n]) in KeysOf(Prefix(req, n + 1))
    requires EffectiveCost(Prefix(req, n + 1)) == EffectiveCost(req)
    ensures var l, cost := req.limits[n], EffectiveCost(req);
            var key, more := KeyOf(req.tenant, l), Charge(st, Prefix(req, n + 1), now);
            && Enforceable(l) && cost <= Capacity(l) && key.algorithm == l.algorithm
            && (l.algorithm.TokenBucket? || l.algorithm.SlidingWindow?)
            && 0 < l.count && 0 < l.period
            && (l.algorithm.TokenBucket? ==>
                  key in more.gcra && more.gcra[key] == GcraCheck(l, TatOf(st, key), now, cost).0)
            && (l.algorithm.SlidingWindow? ==>
                  && cost <= l.count && key in more.windows
                  && more.windows[key] == WindowVerdict(l, LogOf(st, key), now, cost).0)
  {
    assert Enforceable(req.limits[n]) && EffectiveCost(req) <= Capacity(req.limits[n]);
    hide *;
    var k := KeyOf(req.tenant, req.limits[n]);
    KeyJudgesTheSame(st, req.tenant, req.limits[n], now, EffectiveCost(req));
    ChargeAt(st, Prefix(req, n + 1), now, k);
    ChargeMember(st, Prefix(req, n + 1), now, k);
  }

  /** Charging one limit more is one more write, of what that limit decided about `st`. */
  lemma ChargeStep(st: Store, req: Request, n: nat, now: Time)
    requires Admissible(req) && n < |req.limits|
    ensures Admissible(Prefix(req, n)) && Admissible(Prefix(req, n + 1))
    ensures var l, cost := req.limits[n], EffectiveCost(req);
            var k, before := KeyOf(req.tenant, l), Charge(st, Prefix(req, n), now);
            && Enforceable(l) && cost <= Capacity(l) && 0 < l.count && 0 < l.period
            && (l.algorithm.TokenBucket? || l.algorithm.SlidingWindow?)
            && (l.algorithm.SlidingWindow? ==> cost <= l.count)
            && Charge(st, Prefix(req, n + 1), now)
               == if l.algorithm.TokenBucket?
                  then Store(before.gcra[k := GcraCheck(l, TatOf(st, k), now, cost).0], before.windows)
                  else Store(before.gcra, before.windows[k := WindowVerdict(l, LogOf(st, k), now, cost).0])
    ensures DistinctKeys(req) ==>
              var k, before := KeyOf(req.tenant, req.limits[n]), Charge(st, Prefix(req, n), now);
              && (k in before.gcra <==> k in st.gcra)
              && (k in before.windows <==> k in st.windows)
  {
    hide *;
    PrefixIsAdmissible(req, n);
    PrefixIsAdmissible(req, n + 1);
    PrefixKeys(req, n);
    ChargeStepHere(st, req, n, now);
    var less, more, key := Charge(st, Prefix(req, n), now), Charge(st, Prefix(req, n + 1), now),
        KeyOf(req.tenant, req.limits[n]);
    ChargeMember(st, Prefix(req, n), now, key);
    forall k
      ensures k != key || !k.algorithm.TokenBucket? ==>
                (k in more.gcra <==> k in less.gcra) && (k in more.gcra ==> more.gcra[k] == less.gcra[k])
      ensures k != key || !k.algorithm.SlidingWindow? ==>
                (k in more.windows <==> k in less.windows) && (k in more.windows ==> more.windows[k] == less.windows[k])
    {
      ChargeStepAt(st, req, n, now, k);
    }
    if req.limits[n].algorithm.TokenBucket? {
      assert more.gcra == less.gcra[key := more.gcra[key]];
      assert more.windows == less.windows;
    } else {
      assert more.windows == less.windows[key := more.windows[key]];
      assert more.gcra == less.gcra;
    }
  }

  function CountNew(staged: seq<Pending>): nat {
    if staged == [] then 0
    else CountNew(staged[..|staged| - 1]) + if staged[|staged| - 1].isNew then 1 else 0
  }

  lemma CountNewSnoc(staged: seq<Pending>, p: Pending)
    ensures CountNew(staged + [p]) == CountNew(staged) + if p.isNew then 1 else 0
  {
    assert (staged + [p])[..|staged|] == staged;
  }

  /* ---------- the limiter ---------- */

  /** A check that fails closed, changing nothing, when it would create a counter over budget. */
  function WithinBudget(st: Store, maxKeys: nat, req: Request, now: Time): (Outcome, Store) {
    var (told, next) := Check(st, req, now);
    if Size(next) > Size(st) && Size(next) > maxKeys then (TooManyKeys, st) else (told, next)
  }

  /** The store after the sweep a request that could overflow the budget sets off. */
  function MadeRoom(st: Store, maxKeys: nat, req: Request, sweptAt: Time): Store {
    if Size(st) + |req.limits| > maxKeys then Runs.Sweep(st, Everything(st), sweptAt) else st
  }

  /** A check against a store that may hold `maxKeys` counters: it sweeps first when the request
      could overflow the budget. */
  function BudgetedCheck(st: Store, maxKeys: nat, req: Request, sweptAt: Time, now: Time): (Outcome, Store) {
    if Preflight(req.limits, EffectiveCost(req)).Some? || req.limits == [] then Check(st, req, now)
    else WithinBudget(MadeRoom(st, maxKeys, req, sweptAt), maxKeys, req, now)
  }

  lemma BudgetedCases(st: Store, maxKeys: nat, req: Request, sweptAt: Time, now: Time)
    ensures var stop, r := Preflight(req.limits, EffectiveCost(req)), BudgetedCheck(st, maxKeys, req, sweptAt, now);
            && (stop.Some? ==> r == (stop.value, st))
            && (stop.None? ==> Admissible(req))
            && (stop.None? && req.limits == [] ==> r == (Answer(Result(true, [], "")), st))
            && (stop.None? && req.limits != [] ==>
                  r == WithinBudget(if Size(st) + |req.limits| > maxKeys then Runs.Sweep(st, Everything(st), sweptAt)
                                    else st,
                                    maxKeys, req, now))
  {
    hide CheckResult;
    hide Charge;
    hide WithinBudget;
    hide Runs.Sweep;
  }

  lemma CheckCases(st: Store, maxKeys: nat, req: Request, now: Time)
    requires Admissible(req) && req.limits != []
    ensures var ds, r, next := Judgements(st, req, now), WithinBudget(st, maxKeys, req, now), Charge(st, req, now);
            var told := RestateAll(st, req, now, ds);
            && (!AllAllow(ds) ==> r == (Answer(Result(false, told, Worst(told).0)), st))
            && (AllAllow(ds) && req.peekOnly ==> r == (Answer(Result(true, ds, "")), st))
            && (AllAllow(ds) && !req.peekOnly ==>
                  r == if Size(next) > Size(st) && Size(next) > maxKeys then (TooManyKeys, st)
                       else (Answer(Result(true, ds, "")), next))
  {
    hide Charge;
    hide Judgements;
    hide RestateAll;
    hide AllAllow;
  }

  class Memory {
    const maxKeys: nat
    var tenants: map<string, TenantState>
    var keys: int
    /** Every counter of every tenant. */
    ghost var view: Store
    ghost var Repr: set<object>

    constructor (budget: nat)
      ensures Valid() && fresh(Repr) && view == EMPTY && maxKeys == budget
    {
      maxKeys, tenants, keys := budget, map[], 0;
      view, Repr := EMPTY, {this};
    }

    /** One tenant's objects: whole, reachable, and holding exactly `part`. */
    static ghost predicate Holds(ts: TenantState, part: Store)
      reads ts, ts.Repr
    {
      ts.Valid() && !ts.detached && ts.Value() == part
    }

    /** Tenants share nothing with one another or with the table. */
    ghost predicate Owned()
      reads this`tenants, this`Repr, tenants.Values
    {
      && this in Repr
      && (forall t :: t in tenants ==>
            tenants[t] in tenants[t].Repr && tenants[t].Repr <= Repr && this !in tenants[t].Repr)
      && (forall s, t :: s in tenants && t in tenants && s != t ==> tenants[s].Repr !! tenants[t].Repr)
    }

    /** The tenants in the table, none of them detached, together hold the view. */
    ghost predicate Shape()
      reads this`tenants, this`view, this`Repr, tenants.Values, set t, o | t in tenants && o in tenants[t].Repr :: o
    {
      && Owned()
      && (forall t :: t in tenants ==> Holds(tenants[t], Part(view, t)))
      && (forall t :: t !in tenants ==> Part(view, t) == EMPTY)
    }

    /** The counter is the number of live counters and is within the budget. */
    ghost predicate Valid()
      reads this, tenants.Values, set t, o | t in tenants && o in tenants[t].Repr :: o
    {
      Shape() && keys == Size(view) <= maxKeys
    }

    /** What changing one tenant's objects leaves alone. */
    lemma Neighbours(t: string)
      requires Shape() && t in tenants
      ensures Owned() && Holds(tenants[t], Part(view, t)) && tenants[t] in tenants[t].Repr && this !in tenants[t].Repr
      ensures forall s :: s in tenants && s != t ==>
                && tenants[s] !in tenants[t].Repr && tenants[s].Repr !! tenants[t].Repr
                && Holds(tenants[s], Part(view, s))
      ensures forall s :: s !in tenants ==> Part(view, s) == EMPTY
    {
    }

    lemma Whole()
      requires Owned()
      requires forall t :: t in tenants ==> Holds(tenants[t], Part(view, t))
      requires forall t :: t !in tenants ==> Part(view, t) == EMPTY
      ensures Shape()
    {
    }

    /** The tenant's state, put in the table empty when it is not there. */
    method LockTenant(t: string) returns (ts: TenantState)
      requires Shape()
      modifies this
      ensures Shape() && t in tenants && tenants[t] == ts && (old(t in tenants) ==> ts == old(tenants[t]))
      ensures view == old(view) && keys == old(keys) && old(Repr) <= Repr && fresh(Repr - old(Repr))
    {
      hide *;
      if t in tenants {
        ts := tenants[t];
      } else {
        ts := new TenantState();
        OwnsItself(ts);
        Absent(t);
        HoldsIs(ts, EMPTY);
        tenants := tenants[t := ts];
        Repr := Repr + ts.Repr;
        NewlyOwned(t);
        Whole();
      }
    }

    lemma Absent(t: string)
      requires Shape() && t !in tenants
      ensures Part(view, t) == EMPTY && this in Repr
      ensures forall s :: s in tenants ==>
                && tenants[s] in tenants[s].Repr && tenants[s].Repr <= Repr && this !in tenants[s].Repr
                && Holds(tenants[s], Part(view, s))
      ensures forall r, s :: r in tenants && s in tenants && r != s ==> tenants[r].Repr !! tenants[s].Repr
      ensures forall s :: s !in tenants ==> Part(view, s) == EMPTY
    {
    }

    lemma NewlyOwned(t: string)
      requires t in tenants && this in Repr
      requires forall s :: s in tenants ==>
                 tenants[s] in tenants[s].Repr && tenants[s].Repr <= Repr && this !in tenants[s].Repr
      requires forall r, s :: r in tenants && s in tenants && r != s ==> tenants[r].Repr !! tenants[s].Repr
      ensures Owned()
    {
    }

    static lemma OwnsItself(ts: TenantState)
      requires ts.Valid()
      ensures ts in ts.Repr
    {
    }

    /** Pass one for the request's own tenant: no tenant's counters change. */
    method StageIn(ts: TenantState, req: Request, now: Time)
        returns (ds: seq<Decision>, staged: seq<Pending>, created: nat)
      requires Shape() && req.tenant in tenants && ts == tenants[req.tenant] && Admissible(req) && DistinctKeys(req)
      modifies ts.Repr - {ts}
      ensures Shape()
      ensures ds == Judgements(view, req, now)
      ensures ts.AllStaged(staged, req, |req.limits|, now) && TenantState.Apart(staged)
      ensures forall o :: o in TenantState.Backings(staged) ==> o in ts.Repr || fresh(o)
      ensures created == CountNew(staged)
    {
      hide *;
      Neighbours(req.tenant);
      HoldsIs(ts, Part(view, req.tenant));
      JudgementsAreLocal(view, req, now);
      ds, staged, created := ts.Stage(req, now);
      HoldsIs(ts, Part(view, req.tenant));
      Whole();
    }

    static lemma HoldsIs(ts: TenantState, part: Store)
      ensures Holds(ts, part) <==> ts.Valid() && !ts.detached && ts.Value() == part
    {
    }

    method ReportIn(ts: TenantState, ds: seq<Decision>, req: Request, now: Time) returns (told: seq<Decision>)
      requires Shape() && req.tenant in tenants && ts == tenants[req.tenant] && Admissible(req) && |ds| == |req.limits|
      modifies ts.Repr - {ts}
      ensures Shape()
      ensures told == RestateAll(view, req, now, ds)
    {
      hide *;
      Neighbours(req.tenant);
      HoldsIs(ts, Part(view, req.tenant));
      RestatingIsLocal(view, req, now, ds);
      told := ts.Report(ds, req, now);
      HoldsIs(ts, Part(view, req.tenant));
      Whole();
    }

    /** Pass two for the request's own tenant. */
    method CommitIn(ts: TenantState, staged: seq<Pending>, req: Request, ghost now: Time) returns (added: nat)
      requires Shape() && req.tenant in tenants && ts == tenants[req.tenant] && Admissible(req) && DistinctKeys(req)
      requires ts.AllStaged(staged, req, |req.limits|, now) && TenantState.Apart(staged)
      requires forall o :: o in TenantState.Backings(staged) ==> o in ts.Repr || o !in Repr
      modifies this, ts
      ensures Shape() && view == Charge(old(view), req, now) && keys == old(keys)
      ensures added == CountNew(staged) && Size(view) == Size(old(view)) + added
      ensures old(Repr) <= Repr <= old(Repr) + TenantState.Backings(staged)
    {
      hide *;
      Neighbours(req.tenant);
      NotABacking(staged);
      HoldsIs(ts, Part(view, req.tenant));
      ChargeIsLocal(view, req, now);
      SizeSplits(view, req.tenant);
      SizeSplits(Charge(view, req, now), req.tenant);
      added := ts.Commit(staged, req, now);
      view := Charge(view, req, now);
      Repr := Repr + ts.Repr;
      HoldsIs(ts, Part(view, req.tenant));
      StillOwned(req.tenant);
      Whole();
    }

    /** One tenant of a sweep: its expired counters go, and a state left empty is detached and
        leaves the table in the same step. */
    method ExpireIn(t: string, now: Time) returns (removed: nat)
      requires Shape() && t in tenants
      modifies this`tenants, this`view, tenants[t]
      ensures Shape() && keys == old(keys) && Repr == old(Repr)
      ensures view == Runs.Sweep(old(view), Everything(Part(old(view), t)), now)
      ensures removed + Size(view) == Size(old(view))
      ensures tenants == if Part(view, t) == EMPTY then old(tenants) - {t} else old(tenants)
      ensures old(tenants[t]).detached <==> t !in tenants
    {
      hide *;
      Neighbours(t);
      var ts := tenants[t];
      HoldsIs(ts, Part(view, t));
      SweepIsLocal(view, t, now);
      SizeSplits(view, t);
      SizeSplits(Runs.Sweep(view, Everything(Part(view, t)), now), t);
      removed := ts.Expire(now);
      view := Runs.Sweep(view, Everything(Part(view, t)), now);
      ts.EmptyMeansBothMaps();
      HoldsIs(ts, Part(view, t));
      if ts.gcra == map[] && ts.windows == map[] {
        ts.detached := true;
        tenants := tenants - {t};
      }
      Whole();
    }

    /** Drops every expired counter of every tenant. */
    method Sweep(now: Time) returns (removed: nat)
      requires Valid()
      modifies Repr
      ensures Valid() && Repr == old(Repr)
      ensures view == Runs.Sweep(old(view), Everything(old(view)), now)
      ensures removed + Size(view) == Size(old(view))
    {
      hide *;
      ValidIs();
      ghost var all := view;
      ghost var gone: set<Key> := {};
      SweepNothing(view, now);
      TenantsCoverTheView();
      removed := 0;
      var todo := tenants.Keys;
      while todo != {}
        invariant Shape() && Repr == old(Repr) && keys == old(keys)
        invariant todo <= tenants.Keys
        invariant view == Runs.Sweep(all, gone, now) && removed + Size(view) == Size(all)
        invariant forall k :: k in Everything(all) ==> k.tenant in todo || k in gone
        decreases |todo|
      {
        var t :| t in todo;
        OwnedParts();
        SweepTwice(all, gone, Everything(Part(view, t)), now);
        SweptOrGone(all, gone, t, now);
        gone := gone + Everything(Part(view, t));
        todo := todo - {t};
        var n := ExpireIn(t, now);
        removed := removed + n;
      }
      OwnedParts();
      SweepOfLive(all, gone, Everything(all), now);
      if removed > 0 {
        keys := keys - removed;
      }
      ValidIs();
    }

    /** The part of a check that runs under the tenant's lock. */
    method CheckLocked(req: Request, now: Time) returns (out: Outcome)
      requires Valid() && Admissible(req) && DistinctKeys(req) && req.limits != []
      modifies Repr
      ensures Valid() && old(Repr) <= Repr && fresh(Repr - old(Repr))
      ensures (out, view) == WithinBudget(old(view), maxKeys, req, now)
    {
      hide *;
      ValidIs();
      ghost var base := view;
      CheckCases(base, maxKeys, req, now);
      OwnedParts();
      var ts := LockTenant(req.tenant);
      OwnedPart(req.tenant);
      var ds, staged, created := StageIn(ts, req, now);
      StagedChargeSize(ts, staged, req, now);
      if !AllAllow(ds) {
        var told := ReportIn(ts, ds, req, now);
        var name := LimitingName(told);
        out := Answer(Result(false, told, name));
      } else if req.peekOnly {
        out := Answer(Result(true, ds, ""));
      } else if created > 0 && keys + created > maxKeys {
        out := TooManyKeys;
      } else {
        var added := CommitIn(ts, staged, req, now);
        OwnedParts();
        if added > 0 {
          keys := keys + added;
        }
        out := Answer(Result(true, ds, ""));
      }
      ValidIs();
    }

    /** Consumes from every limit of the request or from none. The two clock readings are
        parameters: one for the sweep that makes room, one for the decision. */
    method Check(req: Request, sweptAt: Time, now: Time) returns (out: Outcome)
      requires Valid() && DistinctKeys(req)
      modifies Repr
      ensures Valid() && old(Repr) <= Repr && fresh(Repr - old(Repr))
      ensures (out, view) == BudgetedCheck(old(view), maxKeys, req, sweptAt, now)
    {
      hide *;
      ValidIs();
      OwnedParts();
      BudgetedCases(view, maxKeys, req, sweptAt, now);
      var stop := Screen(req.limits, EffectiveCost(req));
      if stop.Some? {
        return stop.value;
      }
      if req.limits == [] {
        return Answer(Result(true, [], ""));
      }
      if keys + |req.limits| > maxKeys {
        var removed := Sweep(sweptAt);
      }
      out := CheckLocked(req, now);
    }

    lemma StagedChargeSize(ts: TenantState, staged: seq<Pending>, req: Request, now: Time)
      requires Shape() && req.tenant in tenants && ts == tenants[req.tenant] && Admissible(req) && DistinctKeys(req)
      requires ts.AllStaged(staged, req, |req.limits|, now)
      ensures Size(Charge(view, req, now)) == Size(view) + CountNew(staged)
    {
      hide *;
      Neighbours(req.tenant);
      HoldsIs(ts, Part(view, req.tenant));
      TenantState.StagedIsReady(ts, staged, req, now);
      ChargeSize(staged, |req.limits|, ts.Value(), req, now);
      PrefixOfAll(req);
      assert staged[..|staged|] == staged;
      ChargeIsLocal(view, req, now);
      SizeSplits(view, req.tenant);
      SizeSplits(Charge(view, req, now), req.tenant);
    }

    lemma OwnedPart(t: string)
      requires Shape() && t in tenants
      ensures tenants[t].Repr <= Repr && tenants[t] in tenants[t].Repr && this !in tenants[t].Repr
    {
    }

    lemma ValidIs()
      ensures Valid() <==> Shape() && keys == Size(view) <= maxKeys
    {
    }

    lemma OwnedParts()
      requires Shape()
      ensures Owned() && this in Repr
      ensures forall t :: t in tenants ==>
                && tenants[t] in Repr && this !in tenants[t].Repr
                && Holds(tenants[t], Part(view, t))
      ensures forall t :: t !in tenants ==> Part(view, t) == EMPTY
    {
    }

    lemma TenantsCoverTheView()
      requires Shape()
      ensures forall k :: k in Everything(view) ==> k.tenant in tenants
      ensures this in Repr
    {
      forall k | k in Everything(view)
        ensures k.tenant in tenants
      {
        PartMember(view, k.tenant, k);
      }
    }

    lemma NotABacking(staged: seq<Pending>)
      ensures this !in TenantState.Backings(staged)
    {
    }

    lemma StillOwned(t: string)
      requires t in tenants && this in Repr && tenants[t] in tenants[t].Repr && tenants[t].Repr <= Repr
               && this !in tenants[t].Repr
      requires forall s :: s in tenants && s != t ==>
                 && tenants[s] in tenants[s].Repr && tenants[s].Repr <= Repr && this !in tenants[s].Repr
                 && tenants[s].Repr !! tenants[t].Repr
      requires forall r, s :: r in tenants && s in tenants && r != s && r != t && s != t ==>
               tenants[r].Repr !! tenants[s].Repr
      ensures Owned()
    {
    }
  }

  lemma SweptOrGone(all: Store, gone: set<Key>, t: string, now: Time)
    ensures forall k :: k in Everything(all) && k.tenant == t ==>
              k in gone || k in Everything(Part(Runs.Sweep(all, gone, now), t))
  {
    hide *;
    forall k | k in Everything(all) && k.tenant == t && k !in gone
      ensures k in Everything(Part(Runs.Sweep(all, gone, now), t))
    {
      EverythingHas(all, k);
      SweepAt(all, gone, now, k);
      PartMember(Runs.Sweep(all, gone, now), t, k);
      EverythingHas(Part(Runs.Sweep(all, gone, now), t), k);
    }
  }

  lemma RestatingIsLocal(st: Store, req: Request, now: Time, ds: seq<Decision>)
    requires Admissible(req) && |ds| == |req.limits|
    ensures RestateAll(Part(st, req.tenant), req, now, ds) == RestateAll(st, req, now, ds)
  {
    hide Judge;
    forall i | 0 <= i < |ds|
      ensures Restate(Part(st, req.tenant), req, now, i, ds[i]) == Restate(st, req, now, i, ds[i])
    {
      JudgeIsLocal(st, req.tenant, req.limits[i], now, 0);
    }
  }
}
