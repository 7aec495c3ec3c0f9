/** Quota rules, requests and decisions: the data model of internal/limiter/limit.go,
    and the arithmetic of the GCRA parameters. */
module Limits {

  datatype Option<+T> = None | Some(value: T)

  /** Nanoseconds since the zero time of Go's `time.Time`, which no clock reading precedes.
      A counter that does not exist reads as the zero time. */
  type Time = nat

  const ZERO_TIME: Time := 0

  /** One microsecond, the resolution both back ends work at. */
  const QUANTUM := 1_000
  const MAX_PERIOD := 86_400_000_000_000
  const MAX_COUNT := 100_000_000
  const MAX_WINDOW_COUNT := 100_000

  const MAX_INT64 := 0x7FFF_FFFF_FFFF_FFFF

  /** Integers up to this bound are exact in the float64 numbers of Lua. */
  const TWO_TO_THE_53 := 0x20_0000_0000_0000

  datatype Algorithm = TokenBucket | SlidingWindow | UnknownAlgorithm(spelling: string)

  datatype Limit = Limit(name: string, algorithm: Algorithm, count: int, period: int, burst: int)

  datatype LimitError =
    | EmptyName | DelimiterInName | AlgorithmNotKnown
    | CountNotPositive | CountTooLarge | PeriodNotPositive | PeriodTooLarge
    | NegativeBurst | BurstTooLarge | FasterThanOnePerNanosecond
    | WindowHasNoBurst | WindowCountTooLarge

  predicate HasDelimiter(name: string) {
    ':' in name || '{' in name || '}' in name
  }

  /** Why a limit cannot be enforced, if it cannot. The first failing rule is the one reported. */
  function Validate(l: Limit): (problem: Option<LimitError>)
    ensures problem.None? <==>
              && l.name != "" && !HasDelimiter(l.name) && !l.algorithm.UnknownAlgorithm?
              && 0 < l.count <= MAX_COUNT && 0 < l.period <= MAX_PERIOD && 0 <= l.burst <= MAX_COUNT
              && (l.algorithm.TokenBucket? ==> l.count <= l.period)
              && (l.algorithm.SlidingWindow? ==> l.count <= MAX_WINDOW_COUNT && l.burst in {0, l.count})
  {
    assert l.count > 0 ==> (l.period / l.count < 1 <==> l.period < l.count) by {
      if l.count > 0 {
        WholeQuotient(l.period, l.count);
      }
    }
    if l.name == "" then Some(EmptyName)
    else if HasDelimiter(l.name) then Some(DelimiterInName)
    else if l.algorithm.UnknownAlgorithm? then Some(AlgorithmNotKnown)
    else if l.count <= 0 then Some(CountNotPositive)
    else if l.count > MAX_COUNT then Some(CountTooLarge)
    else if l.period <= 0 then Some(PeriodNotPositive)
    else if l.period > MAX_PERIOD then Some(PeriodTooLarge)
    else if l.burst < 0 then Some(NegativeBurst)
    else if l.burst > MAX_COUNT then Some(BurstTooLarge)
    else if l.algorithm.TokenBucket? && l.period / l.count < 1 then Some(FasterThanOnePerNanosecond)
    else if l.algorithm.SlidingWindow? && l.burst != 0 && l.burst != l.count then Some(WindowHasNoBurst)
    else if l.algorithm.SlidingWindow? && l.count > MAX_WINDOW_COUNT then Some(WindowCountTooLarge)
    else None
  }

  lemma WholeQuotient(a: int, n: int)
    requires n > 0
    ensures a / n < 1 <==> a < n
  {
    var q := a / n;
    assert a == n * q + a % n;
    if q >= 1 {
      assert n * (q - 1) >= 0;
    } else {
      assert n * q <= 0;
    }
  }

  predicate Enforceable(l: Limit) {
    Validate(l).None?
  }

  /** The largest cost this limit can ever admit in one request. */
  function Capacity(l: Limit): int {
    if l.algorithm.SlidingWindow? then l.count
    else if l.burst > 0 then l.burst
    else l.count
  }

  function CeilQuotient(a: int, n: int): int
    requires n > 0
  {
    if a % n != 0 then a / n + 1 else a / n
  }

  function RoundUp(x: int): (r: int)
    ensures r % QUANTUM == 0 && x <= r < x + QUANTUM
  {
    if x % QUANTUM != 0 then x + (QUANTUM - x % QUANTUM) else x
  }

  /** The time one unit of quota takes to accrue, rounded up to a whole quantum. */
  function Emission(l: Limit): (e: int)
    requires l.count > 0 && l.period > 0
    ensures e >= QUANTUM && e % QUANTUM == 0
  {
    var whole := RoundUp(CeilQuotient(l.period, l.count));
    if whole < QUANTUM then QUANTUM else whole
  }

  /** How far ahead of now the theoretical arrival time may sit. */
  function Tolerance(l: Limit): int
    requires l.count > 0 && l.period > 0
  {
    Emission(l) * Capacity(l)
  }

  /** Where a limit's counter lives for one tenant. The fingerprint in the stored key is a
      hash of the last four components; it is modelled as those components themselves. */
  datatype Key = Key(tenant: string, name: string, algorithm: Algorithm, count: int, period: int, capacity: int)

  function KeyOf(tenant: string, l: Limit): Key {
    Key(tenant, l.name, l.algorithm, l.count, l.period, Capacity(l))
  }

  datatype Request = Request(
    tenant: string, limits: seq<Limit>, cost: int, peekOnly: bool, storeGen: nat, policyGen: nat)

  /** The cost after the zero-means-one rule: only a peek costs nothing. */
  function EffectiveCost(req: Request): (c: nat)
    ensures c == 0 <==> req.peekOnly
    ensures !req.peekOnly && req.cost > 0 ==> c == req.cost
    ensures !req.peekOnly && req.cost <= 0 ==> c == 1
  {
    if req.peekOnly then 0 else if req.cost <= 0 then 1 else req.cost
  }

  /** The outcome for a single limit. `retryAfter` is zero when the limit allowed. */
  datatype Decision = Decision(
    name: string, allowed: bool, limit: int, remaining: int, retryAfter: int, resetAfter: int)

  datatype Result = Result(allowed: bool, decisions: seq<Decision>, limiting: string)

  datatype Outcome =
    | Answer(result: Result)
    | BadLimit(error: LimitError)
    | CostExceedsCapacity(name: string)
    | TooManyKeys
    | PolicyIsStale(sent: nat, stored: int)
    | StoreWasReset(sent: nat, stored: int)
    | MalformedReply
    | ScriptFailed

  /** Policies are refused when two of their limits share a name
      (internal/policy/postgres.go:368-377), so the limits of a request live under distinct keys. */
  predicate DistinctKeys(req: Request) {
    forall i, j :: 0 <= i < j < |req.limits| ==> KeyOf(req.tenant, req.limits[i]) != KeyOf(req.tenant, req.limits[j])
  }

  /* ---------- the emission interval ---------- */

  lemma CeilingDivision(a: int, n: int)
    requires n > 0
    ensures CeilQuotient(a, n) * n >= a && (CeilQuotient(a, n) - 1) * n < a
  {
    assert a == n * (a / n) + a % n;
  }

  /** A quotient can be compared without dividing. */
  lemma AtLeastCeiling(a: int, n: int, c: int, e: int)
    requires n > 0 && (c - 1) * n < a && e * n >= a
    ensures c <= e
  {
    var d := c - 1 - e;
    assert d * n == (c - 1) * n - e * n;
    assert d >= 0 ==> d * n >= 0;
  }

  lemma RoundUpIsLeastMultiple(up: int, e: int)
    requires e % QUANTUM == 0 && e >= up
    ensures RoundUp(up) <= e
  {
  }

  lemma ScaleUp(a: int, b: int, n: int)
    requires a <= b && n >= 0
    ensures a * n <= b * n
  {
  }

  /** The emission interval is the least positive whole number of quanta at which `count`
      units take at least the period, so rounding never makes a limit faster than configured. */
  lemma EmissionIsLeast(l: Limit, e: int)
    requires l.count > 0 && l.period > 0
    ensures Emission(l) * l.count >= l.period
    ensures e > 0 && e % QUANTUM == 0 && e * l.count >= l.period ==> Emission(l) <= e
  {
    hide CeilQuotient;
    var up := CeilQuotient(l.period, l.count);
    CeilingDivision(l.period, l.count);
    ScaleUp(up, Emission(l), l.count);
    if e > 0 && e % QUANTUM == 0 && e * l.count >= l.period {
      AtLeastCeiling(l.period, l.count, up, e);
      RoundUpIsLeastMultiple(up, e);
    }
  }

  /** Rounding adds less than one unit and one quantum per emission interval. */
  lemma EmissionNearQuotient(l: Limit)
    requires l.count > 0 && l.period > 0
    ensures Emission(l) * l.count <= l.period + 1_001 * l.count
  {
    hide CeilQuotient;
    var up := CeilQuotient(l.period, l.count);
    CeilingDivision(l.period, l.count);
    ScaleUp(Emission(l), (up - 1) + 1_001, l.count);
    assert ((up - 1) + 1_001) * l.count == (up - 1) * l.count + 1_001 * l.count;
  }

  lemma ProductBound(a: int, b: int, c: int, d: int)
    requires 0 <= a <= c && 0 <= b <= d
    ensures 0 <= a * b <= c * d
  {
    assert a * b <= c * b <= c * d;
  }

  /** Both parameters are whole microseconds, so the script is told them exactly. */
  lemma MicrosecondsAreExact(l: Limit)
    requires l.count > 0 && l.period > 0
    ensures var e := Emission(l) / QUANTUM;
            && e > 0 && Emission(l) == QUANTUM * e
            && Tolerance(l) == QUANTUM * (e * Capacity(l)) && Tolerance(l) / QUANTUM == e * Capacity(l)
  {
    var e, c := Emission(l) / QUANTUM, Capacity(l);
    assert Emission(l) == QUANTUM * e;
    hide Emission;
    assert (QUANTUM * e) * c == QUANTUM * (e * c);
  }
}
