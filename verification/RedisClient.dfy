/** internal/limiter/redis/redis.go: the flat arrays around the check script. */
module RedisClient {
  import opened Limits
  import opened Limiter
  import opened RedisStore
  import opened CheckScript

  /** Whole microseconds of a duration; the rest is cut off. */
  function Micros(d: int): int {
    d / QUANTUM
  }

  function ArgsFor(l: Limit): (args: seq<Arg>)
    requires Enforceable(l)
    ensures |args| == 4
  {
    if l.algorithm.TokenBucket? then [Word("tb"), Num(Micros(Emission(l))), Num(Micros(Tolerance(l))), Num(Capacity(l))]
    else [Word("sw"), Num(Micros(l.period)), Num(l.count), Num(l.count)]
  }

  function LimitArgs(limits: seq<Limit>): (args: seq<Arg>)
    requires forall i :: 0 <= i < |limits| ==> Enforceable(limits[i])
    ensures |args| == 4 * |limits|
  {
    if limits == [] then [] else LimitArgs(limits[..|limits| - 1]) + ArgsFor(limits[|limits| - 1])
  }

  function LimitKeys(tenant: string, limits: seq<Limit>): (keys: seq<RedisKey>)
    ensures |keys| == |limits|
  {
    seq(|limits|, i requires 0 <= i < |limits| => CounterKey(KeyOf(tenant, limits[i])))
  }

  function KeysFor(req: Request): seq<RedisKey> {
    [MetaKey(req.tenant)] + LimitKeys(req.tenant, req.limits)
  }

  function ArgvFor(req: Request, override: nat): seq<Arg>
    requires Admissible(req)
  {
    [Num(req.storeGen), Num(req.policyGen), Num(EffectiveCost(req)), Num(Bit(req.peekOnly)), Num(override)]
    + LimitArgs(req.limits)
  }

  lemma ArgsStart(tenant: string)
    ensures LimitArgs([]) == [] && LimitKeys(tenant, []) == []
  {
  }

  lemma ArgsStep(tenant: string, limits: seq<Limit>, i: nat)
    requires i < |limits| && forall j :: 0 <= j < |limits| ==> Enforceable(limits[j])
    ensures LimitArgs(limits[..i + 1]) == LimitArgs(limits[..i]) + ArgsFor(limits[i])
    ensures LimitKeys(tenant, limits[..i + 1])
            == LimitKeys(tenant, limits[..i]) + [CounterKey(KeyOf(tenant, limits[i]))]
  {
    hide ArgsFor;
    assert limits[..i + 1][..i] == limits[..i];
  }

  /** What the script is called with, built limit by limit. */
  method CallArgs(req: Request, override: nat) returns (keys: seq<RedisKey>, argv: seq<Arg>)
    requires Admissible(req)
    ensures keys == KeysFor(req) && argv == ArgvFor(req, override)
  {
    hide Emission;
    hide Tolerance;
    hide LimitArgs;
    hide LimitKeys;
    ArgsStart(req.tenant);
    keys := [MetaKey(req.tenant)];
    argv := [Num(req.storeGen), Num(req.policyGen), Num(EffectiveCost(req)), Num(Bit(req.peekOnly)), Num(override)];
    ghost var head := argv;
    for i := 0 to |req.limits|
      invariant keys == [MetaKey(req.tenant)] + LimitKeys(req.tenant, req.limits[..i])
      invariant argv == head + LimitArgs(req.limits[..i])
    {
      var l := req.limits[i];
      ArgsStep(req.tenant, req.limits, i);
      keys := keys + [CounterKey(KeyOf(req.tenant, l))];
      if l.algorithm.TokenBucket? {
        argv := argv + [Word("tb"), Num(Micros(Emission(l))), Num(Micros(Tolerance(l))), Num(Capacity(l))];
      } else {
        argv := argv + [Word("sw"), Num(Micros(l.period)), Num(l.count), Num(l.count)];
      }
    }
    assert req.limits[..|req.limits|] == req.limits;
  }

  /** The decision four reply values spell. */
  function DecisionOf(l: Limit, allowed: int, remaining: int, retry: int, reset: int): Decision {
    Decision(l.name, allowed == 1, Capacity(l), remaining, retry * QUANTUM, reset * QUANTUM)
  }

  function DecisionAt(l: Limit, values: seq<int>, i: nat): Decision
    requires 2 + 4 * i + 4 <= |values|
  {
    DecisionOf(l, values[2 + 4 * i], values[2 + 4 * i + 1], values[2 + 4 * i + 2], values[2 + 4 * i + 3])
  }

  function Decisions(limits: seq<Limit>, values: seq<int>): (ds: seq<Decision>)
    requires |values| == 2 + 4 * |limits|
    ensures |ds| == |limits|
  {
    seq(|limits|, i requires 0 <= i < |limits| => DecisionAt(limits[i], values, i))
  }

  /** What a reply means. The status is read before the length, because a fenced reply is two
      values long whatever was asked. */
  function Parse(reply: Reply, req: Request): Outcome {
    match reply
    case ErrorReply => ScriptFailed
    case Values(values) =>
      if values == [] then MalformedReply
      else if values[0] != STATUS_OK then
        var stored := if |values| > 1 then values[1] else 0;
        if values[0] == STATUS_POLICY_STALE then PolicyIsStale(req.policyGen, stored)
        else if values[0] == STATUS_STORE_RESET then StoreWasReset(req.storeGen, stored)
        else MalformedReply
      else if |values| != 2 + 4 * |req.limits| then MalformedReply
      else
        var ds := Decisions(req.limits, values);
        Answer(Result(values[1] == 1, ds, if values[1] == 1 then "" else Worst(ds).0))
  }

  /** Every reply there can be: which outcome it is, by its status and its length. */
  lemma ParsesExactly(values: seq<int>, req: Request)
    ensures var told := Parse(Values(values), req);
            && (told.PolicyIsStale? <==> values != [] && values[0] == 1)
            && (told.StoreWasReset? <==> values != [] && values[0] == 2)
            && (told.Answer? <==> values != [] && values[0] == 0 && |values| == 2 + 4 * |req.limits|)
            && (told == MalformedReply <==> !(told.PolicyIsStale? || told.StoreWasReset? || told.Answer?))
            && (told.PolicyIsStale? && |values| == 2 ==> told == PolicyIsStale(req.policyGen, values[1]))
            && (told.StoreWasReset? && |values| == 2 ==> told == StoreWasReset(req.storeGen, values[1]))
            && (told.Answer? ==> (told.result.allowed <==> values[1] == 1))
  {
  }

  method ParseResult(reply: Reply, req: Request) returns (told: Outcome)
    ensures told == Parse(reply, req)
  {
    if reply.ErrorReply? {
      return ScriptFailed;
    }
    var values := reply.values;
    if |values| == 0 {
      return MalformedReply;
    }
    var status := values[0];
    if status != STATUS_OK {
      var stored := if |values| > 1 then values[1] else 0;
      if status == STATUS_POLICY_STALE {
        return PolicyIsStale(req.policyGen, stored);
      } else if status == STATUS_STORE_RESET {
        return StoreWasReset(req.storeGen, stored);
      }
      return MalformedReply;
    }
    if |values| != 2 + 4 * |req.limits| {
      return MalformedReply;
    }
    var ds: seq<Decision> := [];
    for i := 0 to |req.limits|
      invariant |ds| == i
      invariant forall j :: 0 <= j < i ==> ds[j] == DecisionAt(req.limits[j], values, j)
    {
      var base := 2 + 4 * i;
      ds := ds + [DecisionOf(req.limits[i], values[base], values[base + 1], values[base + 2], values[base + 3])];
    }
    assert ds == Decisions(req.limits, values);
    var limiting := "";
    if values[1] != 1 {
      limiting := LimitingName(ds);
    }
    told := Answer(Result(values[1] == 1, ds, limiting));
  }

  /* ---------- framing ---------- */

  function ItemFor(tenant: string, l: Limit): Item
    requires Enforceable(l)
  {
    if l.algorithm.TokenBucket?
    then Item("tb", Micros(Emission(l)), Micros(Tolerance(l)), Capacity(l), KeyOf(tenant, l))
    else Item("sw", Micros(l.period), l.count, l.count, KeyOf(tenant, l))
  }

  function ItemsFor(req: Request): (items: seq<Item>)
    requires Admissible(req)
    ensures |items| == |req.limits|
    ensures forall i :: 0 <= i < |items| ==> Divisible(items[i]) && Known(items[i])
  {
    seq(|req.limits|, i requires 0 <= i < |req.limits| => ItemFor(req.tenant, req.limits[i]))
  }

  lemma {:induction false} LimitArgsAt(limits: seq<Limit>, i: nat)
    requires forall i :: 0 <= i < |limits| ==> Enforceable(limits[i])
    requires i < |limits|
    ensures LimitArgs(limits)[4 * i..4 * i + 4] == ArgsFor(limits[i])
    decreases |limits|
  {
    hide ArgsFor;
    hide Enforceable;
    var n := |limits| - 1;
    assert LimitArgs(limits) == LimitArgs(limits[..n]) + ArgsFor(limits[n]);
    if i < n {
      LimitArgsAt(limits[..n], i);
      assert LimitArgs(limits)[4 * i..4 * i + 4] == LimitArgs(limits[..n])[4 * i..4 * i + 4];
    }
  }

  lemma ArgvAt(req: Request, override: nat, i: nat)
    requires Admissible(req) && i < |req.limits|
    ensures |ArgvFor(req, override)| == 5 + 4 * |req.limits|
    ensures forall j :: 0 <= j < 4 ==> ArgvFor(req, override)[5 + 4 * i + j] == ArgsFor(req.limits[i])[j]
  {
    hide ArgsFor;
    var args := LimitArgs(req.limits);
    LimitArgsAt(req.limits, i);
    forall j | 0 <= j < 4
      ensures ArgvFor(req, override)[5 + 4 * i + j] == ArgsFor(req.limits[i])[j]
    {
      assert args[4 * i..4 * i + 4][j] == args[4 * i + j];
    }
  }

  lemma FramedArgs(req: Request, override: nat, i: nat)
    requires Admissible(req) && i < |req.limits|
    ensures ItemFramed(ArgvFor(req, override), i)
  {
    ArgvAt(req, override, i);
    var args := ArgsFor(req.limits[i]);
    assert ArgvFor(req, override)[5 + 4 * i + 0] == args[0];
    assert ArgvFor(req, override)[5 + 4 * i + 1] == args[1];
    assert ArgvFor(req, override)[5 + 4 * i + 2] == args[2];
    assert ArgvFor(req, override)[5 + 4 * i + 3] == args[3];
  }

  /** The script reads back from KEYS and ARGV exactly the limits the client wrote there. */
  lemma FramingRoundTrip(req: Request, override: nat)
    requires Admissible(req)
    ensures WellFramed(KeysFor(req), ArgvFor(req, override))
    ensures Items(KeysFor(req), ArgvFor(req, override)) == ItemsFor(req)
  {
    var keys, argv := KeysFor(req), ArgvFor(req, override);
    forall i | 0 <= i < |req.limits|
      ensures ItemFramed(argv, i)
    {
      FramedArgs(req, override, i);
    }
    assert WellFramed(keys, argv);
    forall i | 0 <= i < |req.limits|
      ensures ItemAt(keys, argv, i) == ItemFor(req.tenant, req.limits[i])
    {
      ArgvAt(req, override, i);
      var args := ArgsFor(req.limits[i]);
      assert argv[5 + 4 * i + 0] == args[0] && argv[5 + 4 * i + 1] == args[1];
      assert argv[5 + 4 * i + 2] == args[2] && argv[5 + 4 * i + 3] == args[3];
    }
  }

  lemma {:induction false} FlattenAt(es: seq<Entry>, after: bool, i: nat)
    requires i < |es|
    ensures |Flatten(es, after)| == 4 * |es|
    ensures var e := es[i];
            Flatten(es, after)[4 * i..4 * i + 4]
            == [Bit(e.allowed), if after then e.remainingAfter else e.remainingNow,
                e.retry, if after then e.resetAfter else e.resetNow]
    decreases |es|
  {
    var n := |es| - 1;
    if i < n {
      FlattenAt(es[..n], after, i);
    } else if n > 0 {
      FlattenAt(es[..n], after, 0);
    }
  }

  /** The decision the client makes of one of the script's state entries. */
  function DecisionFrom(l: Limit, e: Entry, after: bool): Decision {
    DecisionOf(l, Bit(e.allowed), if after then e.remainingAfter else e.remainingNow,
               e.retry, if after then e.resetAfter else e.resetNow)
  }

  /** The client reads back from a reply exactly the entries the script flattened into it. */
  lemma ReplyRoundTrip(es: seq<Entry>, after: bool, req: Request)
    requires |es| == |req.limits| > 0
    ensures var reply := Values([STATUS_OK, Bit(AllAllowed(es))] + Flatten(es, after));
            var told := Parse(reply, req);
            && told.Answer? && told.result.allowed == AllAllowed(es)
            && |told.result.decisions| == |es|
            && (forall i :: 0 <= i < |es| ==> told.result.decisions[i] == DecisionFrom(req.limits[i], es[i], after))
            && told.result.limiting == if AllAllowed(es) then "" else Worst(told.result.decisions).0
  {
    var values := [STATUS_OK, Bit(AllAllowed(es))] + Flatten(es, after);
    FlattenAt(es, after, 0);
    forall i | 0 <= i < |es|
      ensures DecisionAt(req.limits[i], values, i) == DecisionFrom(req.limits[i], es[i], after)
    {
      FlattenAt(es, after, i);
      var four := Flatten(es, after)[4 * i..4 * i + 4];
      assert values[2 + 4 * i] == four[0] && values[2 + 4 * i + 1] == four[1];
      assert values[2 + 4 * i + 2] == four[2] && values[2 + 4 * i + 3] == four[3];
    }
  }

  /** One consultation of the store: the preflight, then one atomic script call. */
  function Consult(db: Db, req: Request, override: nat, time: nat): (Outcome, Db) {
    var stop := Preflight(req.limits, EffectiveCost(req));
    if stop.Some? then (stop.value, db)
    else if req.limits == [] then (Answer(Result(true, [], "")), db)
    else
      FramingRoundTrip(req, override);
      var (reply, next) := Run(db, KeysFor(req), ArgvFor(req, override), time);
      (Parse(reply, req), next)
  }

  /** The client bound to a server. */
  class Checker {
    const server: Server

    constructor (server: Server)
      ensures this.server == server
    {
      this.server := server;
    }

    /** `override` is the test seam; a production client passes 0 and the script reads Redis's
        own clock, `time`. */
    method Check(req: Request, override: nat, time: nat) returns (told: Outcome)
      modifies server
      ensures (told, server.View()) == Consult(old(server.View()), req, override, time)
    {
      var stop := Screen(req.limits, EffectiveCost(req));
      if stop.Some? {
        return stop.value;
      }
      if |req.limits| == 0 {
        return Answer(Result(true, [], ""));
      }
      FramingRoundTrip(req, override);
      var keys, argv := CallArgs(req, override);
      var reply := server.Check(keys, argv, time);
      told := ParseResult(reply, req);
    }
  }
}
