/** The guard of internal/storegen/guard.go and the mint-once script
    internal/limiter/redis/storegen.lua. */
module StoreGuard {
  import opened Limits

  datatype Reason =
    | Nothing
    | CountersCleared
    | OtherGeneration(gen: nat, committed: nat)
    | RefusedInBand(tenant: string)

  datatype GuardState = GuardState(
    blocked: bool, reason: Reason, runID: string, seen: nat, denials: nat, latches: nat)

  const FRESH := GuardState(false, Nothing, "", 0, 0, 0)

  /** What the store says about itself; generation 0 is no generation. */
  datatype Identity = Identity(gen: nat, runID: string)

  /** Whether a probe is done, or a name has to be found for the store. */
  datatype Plan = Settled | Adopt(candidate: nat)

  /** The script: the first caller names the store, every later one is told that name. */
  function MintOnce(stored: nat, candidate: nat): (r: (nat, nat))
    ensures r.0 == r.1 && (stored != 0 ==> r.0 == stored) && (candidate != 0 ==> r.0 != 0)
  {
    if stored != 0 then (stored, stored) else (candidate, candidate)
  }

  /** The store's own key, absent until somebody mints. */
  class StoreKey {
    var name: Option<nat>

    function Gen(): nat
      reads this
    {
      if name.Some? then name.value else 0
    }

    method Mint(candidate: nat) returns (inForce: nat)
      requires 0 < candidate && (name.Some? ==> name.value != 0)
      modifies this
      ensures (Gen(), inForce) == MintOnce(old(Gen()), candidate)
      ensures old(name).Some? ==> name == old(name)
    {
      if name.Some? {
        return name.value;
      }
      name := Some(candidate);
      inForce := candidate;
    }
  }

  function Latched(g: GuardState, reason: Reason): GuardState {
    g.(blocked := true, reason := reason, latches := g.latches + if g.blocked then 0 else 1)
  }

  function Opened(g: GuardState): GuardState {
    g.(blocked := false, reason := Nothing)
  }

  function Probed(g: GuardState, id: Identity): GuardState {
    g.(runID := id.runID, seen := id.gen)
  }

  /** The verdict on a generation just read, against the one this node knows to be committed. */
  function Judged(g: GuardState, gen: nat, committed: nat): (GuardState, Plan) {
    if committed == 0 then (g, Adopt(1))
    else if gen == 0 then (Latched(g, CountersCleared), Adopt(committed + 1))
    else if gen != committed then (Latched(g, OtherGeneration(gen, committed)), Adopt(committed + 1))
    else (Opened(g), Settled)
  }

  /** With a generation in force: serve if it is the committed one, otherwise propose it. */
  function Concluded(g: GuardState, inForce: nat, committed: nat): (GuardState, Option<nat>) {
    if inForce == committed then (Opened(g), None) else (g, Some(inForce))
  }

  /** A whole probe: `identity` and `mint` are the store's replies, None when it cannot be reached. */
  function Reconciled(g: GuardState, identity: Option<Identity>, committed: nat, mint: nat -> Option<nat>, again: nat)
    : (GuardState, Option<nat>)
  {
    if identity.None? then (g, None)
    else
      var gen := identity.value.gen;
      var (h, plan) := Judged(Probed(g, identity.value), gen, committed);
      if plan.Settled? then (h, None)
      else if gen != 0 then Concluded(h, gen, again)
      else
        var reply := mint(plan.candidate);
        if reply.None? then (h, None) else Concluded(h.(seen := reply.value), reply.value, again)
  }

  /** The generation a probe finds in force, if it finds one. */
  function InForceAfter(id: Identity, committed: nat, mint: nat -> Option<nat>): Option<nat> {
    if id.gen != 0 then Some(id.gen) else mint(committed + 1)
  }

  /** Once something is committed, a probe that reaches the store leaves the guard open exactly
      when the generation it read is the committed one, or the one it found in force is committed
      by the time it looks again; it proposes exactly what is in force and not committed. */
  lemma OpensExactlyOnAMatch(g: GuardState, id: Identity, committed: nat, mint: nat -> Option<nat>, again: nat)
    requires committed > 0
    ensures var (h, proposed) := Reconciled(g, Some(id), committed, mint, again);
            var inForce := InForceAfter(id, committed, mint);
            && (!h.blocked <==> id.gen == committed || inForce == Some(again))
            && proposed == (if id.gen == committed || inForce == Some(again) then None else inForce)
            && h.seen == (if inForce.Some? then inForce.value else 0)
            && h.runID == id.runID && h.denials == g.denials
            && h.reason == (if !h.blocked then Nothing
                            else if id.gen == 0 then CountersCleared else OtherGeneration(id.gen, committed))
            && h.latches == g.latches + (if id.gen != committed && !g.blocked then 1 else 0)
  {
  }

  /** Before anything is committed a probe never closes the guard. */
  lemma NothingCommittedNeverLatches(g: GuardState, id: Identity, mint: nat -> Option<nat>, again: nat)
    ensures var (h, _) := Reconciled(g, Some(id), 0, mint, again);
            h.latches == g.latches && (h.blocked ==> g.blocked)
  {
  }

  class Guard {
    var blocked: bool
    var reason: Reason
    var runID: string
    var seen: nat
    var denials: nat
    var latches: nat

    constructor ()
      ensures State() == FRESH
    {
      blocked, reason, runID, seen, denials, latches := false, Nothing, "", 0, 0, 0;
    }

    function State(): GuardState
      reads this
    {
      GuardState(blocked, reason, runID, seen, denials, latches)
    }

    /** Refuses, and counts the refusal, exactly while latched. */
    method Check() returns (ok: bool)
      modifies this`denials
      ensures ok == !blocked
      ensures denials == old(denials) + if blocked then 1 else 0
    {
      ok := !blocked;
      if blocked {
        denials := denials + 1;
      }
    }

    method Latch(why: Reason)
      modifies this
      ensures State() == Latched(old(State()), why)
    {
      var first := !blocked;
      blocked, reason := true, why;
      if first {
        latches := latches + 1;
      }
    }

    /** The in-band path: the script itself reported another generation. */
    method Fence(tenant: string)
      modifies this
      ensures blocked && State() == Latched(old(State()), RefusedInBand(tenant))
    {
      Latch(RefusedInBand(tenant));
    }

    method Clear()
      modifies this
      ensures State() == Opened(old(State()))
    {
      blocked, reason := false, Nothing;
    }

    /** One probe. `committed` and `again` are what this node knows to be committed, read twice.
        It is the only method that opens a latched guard, and it does so only when the generation
        just read or minted is the committed one. */
    method Reconcile(identity: Option<Identity>, committed: nat, mint: nat -> Option<nat>, again: nat)
      returns (proposed: Option<nat>)
      modifies this
      ensures (State(), proposed) == Reconciled(old(State()), identity, committed, mint, again)
      ensures old(blocked) && !blocked ==>
                identity.Some? && ((committed > 0 && identity.value.gen == committed) || seen == again)
      ensures proposed.Some? ==> proposed.value == seen != again
    {
      if identity.None? {
        return None;
      }
      var gen := identity.value.gen;
      runID, seen := identity.value.runID, gen;
      if committed == 0 {
        proposed := AdoptName(gen, 1, mint, again);
        return;
      }
      if gen == 0 {
        Latch(CountersCleared);
      } else if gen != committed {
        Latch(OtherGeneration(gen, committed));
      } else {
        Clear();
        return None;
      }
      proposed := AdoptName(gen, committed + 1, mint, again);
    }

    /** Names a store that has no generation, and commits whatever is in force. */
    method AdoptName(observed: nat, candidate: nat, mint: nat -> Option<nat>, again: nat)
        returns (proposed: Option<nat>)
      requires seen == observed
      modifies this
      ensures (State(), proposed)
              == if observed != 0 then Concluded(old(State()), observed, again)
                 else if mint(candidate).None? then (old(State()), None)
                 else Concluded(old(State()).(seen := mint(candidate).value), mint(candidate).value, again)
    {
      var inForce := observed;
      if observed == 0 {
        var reply := mint(candidate);
        if reply.None? {
          return None;
        }
        inForce := reply.value;
        seen := inForce;
      }
      if inForce == again {
        Clear();
        return None;
      }
      proposed := Some(inForce);
    }
  }
}
