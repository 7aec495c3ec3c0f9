/** The generic cell rate algorithm of internal/limiter/gcra.go, and the token bucket it
    is another way of writing. */
module Gcra {
  import opened Limits

  function Later(a: Time, b: Time): Time {
    if a < b then b else a
  }

  /** Units that fit before the arrival time `t` sits a whole tolerance ahead of now. */
  function Headroom(l: Limit, t: Time, now: Time): int
    requires l.count > 0 && l.period > 0
  {
    var free := Tolerance(l) - (t - now);
    if free < 0 then 0 else free / Emission(l)
  }

  /** A request that would move the arrival time `t` by `price`. */
  function Priced(l: Limit, t: Time, now: Time, price: nat): (Time, Decision)
    requires l.count > 0 && l.period > 0
  {
    var next := t + price;
    var allowAt := next - Tolerance(l);
    if allowAt > now then
      (t, Decision(l.name, false, Capacity(l), Headroom(l, t, now), allowAt - now, t - now))
    else
      (next, Decision(l.name, true, Capacity(l), Headroom(l, next, now), 0, next - now))
  }

  /** Evaluates a cost against the stored theoretical arrival time. Returns the arrival time
      to store, which a refusal or a peek leaves where it was, and the decision. */
  function GcraCheck(l: Limit, tat: Time, now: Time, cost: nat): (r: (Time, Decision))
    requires l.count > 0 && l.period > 0
    ensures r.0 >= tat && r.0 >= now
    ensures !r.1.allowed || cost == 0 ==> r.0 == Later(tat, now)
    ensures r.1.retryAfter >= 0 && (r.1.allowed <==> r.1.retryAfter == 0)
  {
    var t := Later(tat, now);
    if cost == 0 then
      (t, Decision(l.name, true, Capacity(l), Headroom(l, t, now), 0, t - now))
    else
      Priced(l, t, now, Emission(l) * cost)
  }

  /** The instant at which the stored state stops carrying information. */
  function GcraExpiry(tat: Time): Time {
    tat
  }

  /** Waiting exactly `retryAfter` is both necessary and enough: with no other traffic the same
      cost is refused at every earlier instant and admitted at every later one. */
  lemma GcraRetryIsExact(l: Limit, tat: Time, now: Time, later: Time, cost: nat)
    requires l.count > 0 && l.period > 0 && cost <= Capacity(l) && now <= later
    ensures GcraCheck(l, tat, later, cost).1.allowed
            <==> later >= now + GcraCheck(l, tat, now, cost).1.retryAfter
  {
    ProductBound(Emission(l), cost, Emission(l), Capacity(l));
  }

  /* ---------- the token bucket ---------- */

  /** A bucket holding `level` nanoseconds of credit as of `last`; one unit costs one emission
      interval and the bucket holds one tolerance. */
  datatype Bucket = Bucket(level: int, last: Time)

  function Refill(l: Limit, b: Bucket, now: Time): Bucket
    requires l.count > 0 && l.period > 0
  {
    var filled := b.level + (now - b.last);
    Bucket(if filled > Tolerance(l) then Tolerance(l) else filled, now)
  }

  /** One request against a bucket, which must already be refilled. */
  function BucketCheck(l: Limit, b: Bucket, cost: nat): (Bucket, Decision)
    requires l.count > 0 && l.period > 0
  {
    var price := Emission(l) * cost;
    var after := if price <= b.level then Bucket(b.level - price, b.last) else b;
    (after, Decision(l.name, price <= b.level, Capacity(l), after.level / Emission(l),
                     if price <= b.level then 0 else price - b.level, Tolerance(l) - after.level))
  }

  /** A request put to one limit. `charged` says that every other limit of the request allowed
      it too and that it was not a peek, so an admission is committed. */
  datatype Event = Event(now: Time, cost: nat, charged: bool)

  predicate Nondecreasing(from: Time, events: seq<Event>)
    decreases |events|
  {
    events == [] || (from <= events[0].now && Nondecreasing(events[0].now, events[1..]))
  }

  function GcraRun(l: Limit, tat: Time, events: seq<Event>): seq<Decision>
    requires l.count > 0 && l.period > 0
    decreases |events|
  {
    if events == [] then []
    else
      var e := events[0];
      var (next, d) := GcraCheck(l, tat, e.now, e.cost);
      [d] + GcraRun(l, if d.allowed && e.charged then next else tat, events[1..])
  }

  function BucketRun(l: Limit, b: Bucket, events: seq<Event>): seq<Decision>
    requires l.count > 0 && l.period > 0
    decreases |events|
  {
    if events == [] then []
    else
      var e := events[0];
      var full := Refill(l, b, e.now);
      var (next, d) := BucketCheck(l, full, e.cost);
      [d] + BucketRun(l, if d.allowed && e.charged then next else full, events[1..])
  }

  /** The bucket a stored arrival time stands for. */
  function LevelOf(l: Limit, tat: Time, at: Time): int
    requires l.count > 0 && l.period > 0
  {
    Tolerance(l) - (Later(tat, at) - at)
  }

  predicate Stands(l: Limit, tat: Time, b: Bucket)
    requires l.count > 0 && l.period > 0
  {
    b.level >= 0 && b.level == LevelOf(l, tat, b.last)
  }

  lemma RefillFollowsTheClock(l: Limit, tat: Time, b: Bucket, now: Time)
    requires l.count > 0 && l.period > 0 && Stands(l, tat, b) && b.last <= now
    ensures Stands(l, tat, Refill(l, b, now))
  {
  }

  lemma OneRequestAgrees(l: Limit, tat: Time, b: Bucket, cost: nat)
    requires l.count > 0 && l.period > 0 && Stands(l, tat, b)
    ensures GcraCheck(l, tat, b.last, cost).1 == BucketCheck(l, b, cost).1
    ensures GcraCheck(l, tat, b.last, cost).1.allowed ==>
              Stands(l, GcraCheck(l, tat, b.last, cost).0, BucketCheck(l, b, cost).0)
  {
    ProductBound(Emission(l), 0, Emission(l), cost);
  }

  /** Over any run at nondecreasing times the one stored timestamp and the bucket give the same
      answer to every request, on every field: admission, headroom, wait and time to full. */
  lemma {:induction false} GcraIsATokenBucket(l: Limit, tat: Time, b: Bucket, events: seq<Event>)
    requires l.count > 0 && l.period > 0
    requires Stands(l, tat, b) && Nondecreasing(b.last, events)
    ensures GcraRun(l, tat, events) == BucketRun(l, b, events)
    decreases |events|
  {
    if events != [] {
      var e := events[0];
      var full := Refill(l, b, e.now);
      RefillFollowsTheClock(l, tat, b, e.now);
      OneRequestAgrees(l, tat, full, e.cost);
      var (next, d) := GcraCheck(l, tat, e.now, e.cost);
      if d.allowed && e.charged {
        GcraIsATokenBucket(l, next, BucketCheck(l, full, e.cost).0, events[1..]);
      } else {
        GcraIsATokenBucket(l, tat, full, events[1..]);
      }
    }
  }

  /** A counter that does not exist is a full bucket, whatever the time. */
  lemma NoStateIsAFullBucket(l: Limit, now: Time)
    requires l.count > 0 && l.period > 0 && Capacity(l) >= 0
    ensures Stands(l, ZERO_TIME, Bucket(Tolerance(l), now))
  {
    ProductBound(Emission(l), 0, Emission(l), Capacity(l));
  }
}
