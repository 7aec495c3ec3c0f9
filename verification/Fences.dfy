/** The two fences of internal/limiter/redis/check.lua, evaluated against a tenant's meta key
    before any counter is read. */
module Fences {
  import opened Limits

  /** What a tenant's meta key holds; an absent field has never been written. */
  datatype Meta = Meta(storeGen: Option<nat>, policyGen: Option<nat>)

  const NO_META := Meta(None, None)

  datatype Verdict = Passed | StoreReset(stored: nat) | PolicyStale(stored: nat)

  /** Generation 0 is an unfenced caller. A store generation that differs in either direction
      is a different store; a policy generation below the stored one is out of date. */
  function Verify(meta: Meta, storeGen: nat, policyGen: nat): Verdict {
    if storeGen > 0 && meta.storeGen.Some? && meta.storeGen.value != storeGen then StoreReset(meta.storeGen.value)
    else if policyGen > 0 && meta.policyGen.Some? && policyGen < meta.policyGen.value then
      PolicyStale(meta.policyGen.value)
    else Passed
  }

  /** What a caller past the fences leaves behind, on every call, refused and peeked ones included. */
  function Record(meta: Meta, storeGen: nat, policyGen: nat): Meta {
    Meta(if storeGen > 0 && meta.storeGen.None? then Some(storeGen) else meta.storeGen,
         if policyGen > 0 && (meta.policyGen.None? || policyGen > meta.policyGen.value)
         then Some(policyGen) else meta.policyGen)
  }

  /** The caller's store is the recorded one, as far as both say. */
  predicate SameStore(meta: Meta, storeGen: nat) {
    storeGen == 0 || meta.storeGen == None || meta.storeGen == Some(storeGen)
  }

  /** The caller's policy is at least as new as any recorded one, as far as both say. */
  predicate NewEnough(meta: Meta, policyGen: nat) {
    policyGen == 0 || meta.policyGen == None || meta.policyGen.value <= policyGen
  }

  /** Exactly who passes, and what everybody else is told: another store first, and a policy that
      is out of date only to callers of the right store. */
  lemma PassesExactlyWhen(meta: Meta, storeGen: nat, policyGen: nat)
    ensures Verify(meta, storeGen, policyGen) == Passed <==> SameStore(meta, storeGen) && NewEnough(meta, policyGen)
    ensures forall stored: nat :: Verify(meta, storeGen, policyGen) == StoreReset(stored)
              <==> !SameStore(meta, storeGen) && meta.storeGen == Some(stored)
    ensures forall stored: nat :: Verify(meta, storeGen, policyGen) == PolicyStale(stored)
              <==> SameStore(meta, storeGen) && !NewEnough(meta, policyGen) && meta.policyGen == Some(stored)
  {
  }

  /** What a passing call leaves: a store generation only where there was none, the larger of two
      policy generations, and nothing at all from an unfenced caller. */
  lemma RecordsExactly(meta: Meta, storeGen: nat, policyGen: nat)
    ensures var next := Record(meta, storeGen, policyGen);
            && next.storeGen == (if meta.storeGen != None then meta.storeGen
                                 else if storeGen == 0 then None else Some(storeGen))
            && (policyGen == 0 ==> next.policyGen == meta.policyGen)
            && (policyGen > 0 ==>
                  && next.policyGen.Some? && next.policyGen.value >= policyGen
                  && (meta.policyGen.Some? ==> next.policyGen.value >= meta.policyGen.value)
                  && (next.policyGen == Some(policyGen) || next.policyGen == meta.policyGen))
  {
  }

  /** Whatever the meta held, a passing caller's nonzero generations are in force afterwards:
      its store generation is the recorded one and its policy generation is the largest so far. */
  lemma PassingIsRecorded(meta: Meta, storeGen: nat, policyGen: nat)
    requires Verify(meta, storeGen, policyGen).Passed?
    ensures var next := Record(meta, storeGen, policyGen);
            && (storeGen > 0 ==> next.storeGen == Some(storeGen))
            && (policyGen > 0 ==> next.policyGen == Some(policyGen))
            && (meta.storeGen.Some? ==> next.storeGen == meta.storeGen)
            && (meta.policyGen.Some? ==> next.policyGen.Some? && next.policyGen.value >= meta.policyGen.value)
            && Verify(next, storeGen, policyGen).Passed?
  {
  }
}
