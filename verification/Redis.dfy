/** Redis as the check script sees it: strings and sorted sets with deadlines, and the
    tenants' meta hashes. Times are whole microseconds since the Unix epoch. */
module RedisStore {
  import opened Limits
  import opened Fences

  /** A sorted-set member, the decimal stamp and suffix that the script joins with a dash. */
  datatype Member = Member(stamp: int, suffix: int)

  datatype Scored = Scored(score: int, member: Member)

  datatype StringValue = StringValue(value: int, deadline: int)

  /** Elements in ascending order of score; only scores are ever read back, so the order of
      members within a score does not matter. */
  datatype SortedSet = SortedSet(elements: seq<Scored>, deadline: int)

  datatype Db = Db(strings: map<Key, StringValue>, zsets: map<Key, SortedSet>, metas: map<string, Meta>)

  const EMPTY_DB := Db(map[], map[], map[])

  function ElementsAt(db: Db, k: Key): seq<Scored> {
    if k in db.zsets then db.zsets[k].elements else []
  }

  function MetaAt(db: Db, tenant: string): Meta {
    if tenant in db.metas then db.metas[tenant] else NO_META
  }

  /** The elements with a score above the cutoff, as `ZRANGEBYSCORE (cutoff +inf` lists them. */
  function Above(z: seq<Scored>, cutoff: int): seq<Scored> {
    if z == [] then []
    else (if z[0].score > cutoff then [z[0]] else []) + Above(z[1..], cutoff)
  }

  /** `ZCOUNT score score`. */
  function CountAt(z: seq<Scored>, score: int): nat {
    if z == [] then 0
    else (if z[0].score == score then 1 else 0) + CountAt(z[1..], score)
  }

  function WithoutMember(z: seq<Scored>, m: Member): seq<Scored> {
    if z == [] then []
    else (if z[0].member == m then [] else [z[0]]) + WithoutMember(z[1..], m)
  }

  function Insert(z: seq<Scored>, x: Scored): seq<Scored> {
    if z == [] || z[0].score > x.score then [x] + z else [z[0]] + Insert(z[1..], x)
  }

  /** `ZADD`: a member that is already there is moved to the new score, not added again. */
  function ZAdd(z: seq<Scored>, score: int, m: Member): seq<Scored> {
    Insert(WithoutMember(z, m), Scored(score, m))
  }

  /** One `ZADD` per unit, with suffixes counting on from the entries that share the score. */
  function ZAddUnits(z: seq<Scored>, now: int, same: nat, n: nat): seq<Scored> {
    if n == 0 then z else ZAdd(ZAddUnits(z, now, same, n - 1), now, Member(now, same + n))
  }

  /** Redis removes a key only once its deadline has passed, and may do so at any time after. */
  function Expire(db: Db, gone: set<Key>, now: int): Db {
    db.(strings := map k | k in db.strings && !(k in gone && db.strings[k].deadline <= now) :: db.strings[k],
        zsets := map k | k in db.zsets && !(k in gone && db.zsets[k].deadline <= now) :: db.zsets[k])
  }
}

/** internal/limiter/redis/check.lua: as functions, and as the script's own loops. */
module CheckScript {
  import opened Limits
  import opened Fences
  import opened Windows
  import opened RedisStore

  datatype RedisKey = MetaKey(tenant: string) | CounterKey(key: Key)

  datatype Arg = Num(n: int) | Word(w: string)

  datatype Reply = Values(values: seq<int>) | ErrorReply

  const STATUS_OK := 0
  const STATUS_POLICY_STALE := 1
  const STATUS_STORE_RESET := 2

  /** The four arguments of one limit, with its key. */
  datatype Item = Item(kind: string, a: int, b: int, capacity: int, key: Key)

  /** KEYS and ARGV in the layout the script documents. */
  predicate WellFramed(keys: seq<RedisKey>, argv: seq<Arg>) {
    && |keys| >= 1 && keys[0].MetaKey? && (forall i :: 1 <= i < |keys| ==> keys[i].CounterKey?)
    && |argv| == 5 + 4 * (|keys| - 1)
    && (forall i :: 0 <= i < 5 ==> argv[i].Num?)
    && argv[0].n >= 0 && argv[1].n >= 0 && argv[2].n >= 0
    && (forall i :: 0 <= i < |keys| - 1 ==> ItemFramed(argv, i))
  }

  predicate ItemFramed(argv: seq<Arg>, i: nat) {
    && 5 + 4 * i + 4 <= |argv|
    && argv[5 + 4 * i].Word? && argv[5 + 4 * i + 1].Num? && argv[5 + 4 * i + 2].Num? && argv[5 + 4 * i + 3].Num?
    && (argv[5 + 4 * i].w == "tb" ==> argv[5 + 4 * i + 1].n > 0)
  }

  function ItemAt(keys: seq<RedisKey>, argv: seq<Arg>, i: nat): (it: Item)
    requires WellFramed(keys, argv) && i < |keys| - 1
    ensures Divisible(it)
  {
    assert ItemFramed(argv, i);
    Item(argv[5 + 4 * i].w, argv[5 + 4 * i + 1].n, argv[5 + 4 * i + 2].n, argv[5 + 4 * i + 3].n, keys[i + 1].key)
  }

  function Items(keys: seq<RedisKey>, argv: seq<Arg>): (items: seq<Item>)
    requires WellFramed(keys, argv)
    ensures |items| == |keys| - 1
    ensures forall i :: 0 <= i < |items| ==> items[i] == ItemAt(keys, argv, i)
    ensures forall i :: 0 <= i < |items| ==> Divisible(items[i])
  {
    seq(|keys| - 1, i requires 0 <= i < |keys| - 1 => ItemAt(keys, argv, i))
  }

  predicate Divisible(it: Item) {
    it.kind == "tb" ==> it.a > 0
  }

  predicate Known(it: Item) {
    it.kind == "tb" || it.kind == "sw"
  }

  /** The script's `state` entry for one limit: the numbers if the request is admitted and the
      numbers as things stand. */
  datatype Entry = Entry(
    kind: string, key: Key, allowed: bool, retry: int,
    remainingNow: int, resetNow: int, remainingAfter: int, resetAfter: int,
    write: int, cutoff: int, period: int)

  function EvaluateBucket(db: Db, it: Item, now: int, cost: nat): Entry
    requires it.a > 0
  {
    var tat := if it.key in db.strings && db.strings[it.key].value >= now then db.strings[it.key].value else now;
    if cost == 0 then BucketNow(it, tat, now) else BucketPriced(it, tat, now, it.a * cost)
  }

  function BucketNow(it: Item, tat: int, now: int): Entry
    requires it.a > 0
  {
    var emission, tolerance := it.a, it.b;
    var remainingNow := NonNegative(tolerance - (tat - now)) / emission;
    var resetNow := NonNegative(tat - now);
    Entry(it.kind, it.key, true, 0, remainingNow, resetNow, remainingNow, resetNow, 0, 0, 0)
  }

  function BucketPriced(it: Item, tat: int, now: int, price: int): Entry
    requires it.a > 0
  {
    var emission, tolerance := it.a, it.b;
    var base := BucketNow(it, tat, now);
    var newTat := tat + price;
    var allowAt := newTat - tolerance;
    if allowAt > now then base.(allowed := false, retry := NonNegative(allowAt - now))
    else base.(remainingAfter := NonNegative(tolerance - (newTat - now)) / emission,
               resetAfter := NonNegative(newTat - now), write := newTat)
  }

  function EvaluateWindow(db: Db, it: Item, now: int, cost: nat): Entry {
    EvaluateLive(it, Above(ElementsAt(db, it.key), now - it.a), now, cost)
  }

  /** A window judged by the elements `ZRANGEBYSCORE` lists above its cutoff. */
  function EvaluateLive(it: Item, live: seq<Scored>, now: int, cost: nat): Entry {
    var period, count := it.a, it.b;
    var cutoff := now - period;
    var used := |live|;
    var remainingNow := NonNegative(count - used);
    var resetNow := if used > 0 then NonNegative(live[0].score + period - now) else 0;
    var base := Entry(it.kind, it.key, true, 0, remainingNow, resetNow, remainingNow, resetNow, 0, 0, 0);
    if cost == 0 then base
    else if used + cost > count then
      var idx := used + cost - count - 1;
      base.(allowed := false,
            retry := if 0 <= idx < used then NonNegative(live[idx].score + period - now) else period)
    else
      base.(remainingAfter := NonNegative(count - used - cost),
            resetAfter := if used > 0 then NonNegative(live[0].score + period - now) else period,
            write := used, cutoff := cutoff, period := period)
  }

  function Evaluate(db: Db, it: Item, now: int, cost: nat): Entry
    requires Divisible(it)
  {
    if it.kind == "tb" then EvaluateBucket(db, it, now, cost) else EvaluateWindow(db, it, now, cost)
  }

  function EvaluateAll(db: Db, items: seq<Item>, now: int, cost: nat): (es: seq<Entry>)
    requires forall i :: 0 <= i < |items| ==> Divisible(items[i])
    ensures |es| == |items|
  {
    seq(|items|, i requires 0 <= i < |items| => Evaluate(db, items[i], now, cost))
  }

  function TtlMillis(micros: int): int {
    var ms := CeilQuotient(micros, 1_000);
    if ms < 1 then 1 else ms
  }

  /** The writes of one admitted limit. */
  function CommitOne(db: Db, e: Entry, now: int, cost: nat): Db {
    if e.kind == "tb" then
      db.(strings := db.strings[e.key := StringValue(e.write, now + 1_000 * TtlMillis(e.write - now))])
    else
      var kept := Above(ElementsAt(db, e.key), e.cutoff);
      var grown := ZAddUnits(kept, now, CountAt(kept, now), cost);
      db.(zsets := db.zsets[e.key := SortedSet(grown, now + 1_000 * TtlMillis(e.period))])
  }

  function CommitAll(db: Db, es: seq<Entry>, now: int, cost: nat): Db {
    if es == [] then db else CommitOne(CommitAll(db, es[..|es| - 1], now, cost), es[|es| - 1], now, cost)
  }

  function Bit(b: bool): int {
    if b then 1 else 0
  }

  function Flatten(es: seq<Entry>, after: bool): seq<int> {
    if es == [] then []
    else
      var e := es[|es| - 1];
      Flatten(es[..|es| - 1], after)
      + [Bit(e.allowed), if after then e.remainingAfter else e.remainingNow,
         e.retry, if after then e.resetAfter else e.resetNow]
  }

  predicate AllAllowed(es: seq<Entry>) {
    forall i :: 0 <= i < |es| ==> es[i].allowed
  }

  /** The meta key once a caller is past the fences; an unfenced caller writes nothing. */
  function Recorded(db: Db, tenant: string, storeGen: nat, policyGen: nat): Db {
    if storeGen > 0 || policyGen > 0
    then db.(metas := db.metas[tenant := Record(MetaAt(db, tenant), storeGen, policyGen)]) else db
  }

  /** What follows the fences: evaluate, commit if every limit allows, reply. */
  function Settle(db: Db, items: seq<Item>, now: int, cost: nat, peek: int): (Reply, Db)
    requires forall i :: 0 <= i < |items| ==> Divisible(items[i])
  {
    if exists i :: 0 <= i < |items| && !Known(items[i]) then (ErrorReply, db)
    else
      var es := EvaluateAll(db, items, now, cost);
      var writes := AllAllowed(es) && peek == 0 && cost > 0;
      (Values([STATUS_OK, Bit(AllAllowed(es))] + Flatten(es, writes)),
       if writes then CommitAll(db, es, now, cost) else db)
  }

  /** The whole script: its reply and the database it leaves. `time` is what Redis's own clock
      reads, used unless the caller overrides it. */
  function Run(db: Db, keys: seq<RedisKey>, argv: seq<Arg>, time: int): (Reply, Db)
    requires WellFramed(keys, argv)
  {
    var storeGen, policyGen := argv[0].n, argv[1].n;
    match Verify(MetaAt(db, keys[0].tenant), storeGen, policyGen)
    case StoreReset(stored) => (Values([STATUS_STORE_RESET, stored]), db)
    case PolicyStale(stored) => (Values([STATUS_POLICY_STALE, stored]), db)
    case Passed =>
      var now := if argv[4].n > 0 then argv[4].n else time;
      Settle(Recorded(db, keys[0].tenant, storeGen, policyGen), Items(keys, argv), now, argv[2].n, argv[3].n)
  }

  /** The server the script runs in. A script is one atomic step. */
  class Server {
    var strings: map<Key, StringValue>
    var zsets: map<Key, SortedSet>
    var metas: map<string, Meta>

    constructor ()
      ensures View() == EMPTY_DB
    {
      strings, zsets, metas := map[], map[], map[];
    }

    ghost function View(): Db
      reads this
    {
      Db(strings, zsets, metas)
    }

    /** The commit of one sliding window: trim, count the score's namesakes, add one by one. */
    method CommitWindow(e: Entry, now: int, cost: nat)
      requires e.kind == "sw"
      modifies this`zsets
      ensures View() == CommitOne(old(View()), e, now, cost)
    {
      var kept := Above(if e.key in zsets then zsets[e.key].elements else [], e.cutoff);
      var same := CountAt(kept, now);
      var grown := kept;
      for j := 0 to cost
        invariant grown == ZAddUnits(kept, now, same, j)
      {
        grown := ZAdd(grown, now, Member(now, same + j + 1));
      }
      zsets := zsets[e.key := SortedSet(grown, now + 1_000 * TtlMillis(e.period))];
    }

    /** The script's commit loop over its state table. */
    method Commit(es: seq<Entry>, now: int, cost: nat)
      requires forall i :: 0 <= i < |es| ==> es[i].kind == "tb" || es[i].kind == "sw"
      modifies this`strings, this`zsets
      ensures View() == CommitAll(old(View()), es, now, cost)
    {
      for i := 0 to |es|
        invariant View() == CommitAll(old(View()), es[..i], now, cost)
      {
        var e := es[i];
        assert es[..i + 1][..i] == es[..i];
        if e.kind == "tb" {
          strings := strings[e.key := StringValue(e.write, now + 1_000 * TtlMillis(e.write - now))];
        } else {
          CommitWindow(e, now, cost);
        }
      }
      assert es[..|es|] == es;
    }

    /** The evaluation loop: one state entry per limit, and whether all of them allow. */
    method EvaluateLimits(items: seq<Item>, now: int, cost: nat) returns (known: bool, es: seq<Entry>, allowed: bool)
      requires forall i :: 0 <= i < |items| ==> Divisible(items[i])
      ensures known <==> forall i :: 0 <= i < |items| ==> Known(items[i])
      ensures known ==> es == EvaluateAll(View(), items, now, cost) && allowed == AllAllowed(es)
      ensures known ==> forall i :: 0 <= i < |es| ==> es[i].kind == "tb" || es[i].kind == "sw"
    {
      es, allowed, known := [], true, true;
      for i := 0 to |items|
        invariant |es| == i
        invariant forall j :: 0 <= j < i ==> Known(items[j]) && es[j] == Evaluate(View(), items[j], now, cost)
        invariant allowed == AllAllowed(es)
      {
        var it := items[i];
        if it.kind == "tb" {
          es := es + [EvaluateBucket(Db(strings, zsets, metas), it, now, cost)];
        } else if it.kind == "sw" {
          es := es + [EvaluateWindow(Db(strings, zsets, metas), it, now, cost)];
        } else {
          known := false;
          return;
        }
        if !es[i].allowed { allowed := false; }
      }
    }

    /** The script's evaluate, commit and reply loops, in their order. */
    method SettleLimits(items: seq<Item>, now: int, cost: nat, peek: int) returns (reply: Reply)
      requires forall i :: 0 <= i < |items| ==> Divisible(items[i])
      modifies this`strings, this`zsets
      ensures (reply, View()) == Settle(old(View()), items, now, cost, peek)
    {
      hide EvaluateAll;
      hide CommitAll;
      var known, es, allowed := EvaluateLimits(items, now, cost);
      if !known {
        return ErrorReply;
      }
      var writes := allowed && peek == 0 && cost > 0;
      if writes {
        Commit(es, now, cost);
      }
      var out := [STATUS_OK, Bit(allowed)];
      for i := 0 to |es|
        invariant out == [STATUS_OK, Bit(allowed)] + Flatten(es[..i], writes)
      {
        var e := es[i];
        assert es[..i + 1][..i] == es[..i];
        out := out + [Bit(e.allowed), if writes then e.remainingAfter else e.remainingNow,
                      e.retry, if writes then e.resetAfter else e.resetNow];
      }
      assert es[..|es|] == es;
      reply := Values(out);
    }

    /** The fences: what the caller is refused with, or its generations recorded. */
    method PassFences(tenant: string, storeGen: nat, policyGen: nat) returns (v: Verdict)
      modifies this`metas
      ensures v == Verify(MetaAt(old(View()), tenant), storeGen, policyGen)
      ensures var meta := MetaAt(old(View()), tenant);
              && (v == Passed <==> SameStore(meta, storeGen) && NewEnough(meta, policyGen))
              && (v.StoreReset? <==> !SameStore(meta, storeGen))
              && (v.StoreReset? ==> meta.storeGen == Some(v.stored))
              && (v.PolicyStale? ==> meta.policyGen == Some(v.stored))
      ensures View() == if v.Passed? then Recorded(old(View()), tenant, storeGen, policyGen) else old(View())
    {
      var meta := if tenant in metas then metas[tenant] else NO_META;
      if storeGen > 0 && meta.storeGen.Some? && meta.storeGen.value != storeGen {
        return StoreReset(meta.storeGen.value);
      }
      if policyGen > 0 && meta.policyGen.Some? && policyGen < meta.policyGen.value {
        return PolicyStale(meta.policyGen.value);
      }
      if storeGen > 0 && meta.storeGen.None? {
        metas := metas[tenant := meta.(storeGen := Some(storeGen))];
      }
      if policyGen > 0 && (meta.policyGen.None? || policyGen > meta.policyGen.value) {
        var current := if tenant in metas then metas[tenant] else NO_META;
        metas := metas[tenant := current.(policyGen := Some(policyGen))];
      }
      v := Passed;
    }

    method Check(keys: seq<RedisKey>, argv: seq<Arg>, time: int) returns (reply: Reply)
      requires WellFramed(keys, argv)
      modifies this
      ensures (reply, View()) == Run(old(View()), keys, argv, time)
    {
      var verdict := PassFences(keys[0].tenant, argv[0].n, argv[1].n);
      match verdict
      case StoreReset(stored) => reply := Values([STATUS_STORE_RESET, stored]);
      case PolicyStale(stored) => reply := Values([STATUS_POLICY_STALE, stored]);
      case Passed =>
        var now := if argv[4].n > 0 then argv[4].n else time;
        reply := SettleLimits(Items(keys, argv), now, argv[2].n, argv[3].n);
    }
  }
}
