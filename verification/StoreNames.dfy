/** Where the names of store lifetimes come from, when they outrank one another, and what a guard's
    opening says about the lifetime it opens on. */
module StoreNames {
  import opened Limits
  import opened ClusterLog
  import opened StoreGuard
  import opened StoreIdentity

  /* ---------- what a mint outranks ---------- */

  /** No node knows of more than is committed. */
  ghost predicate Behind(s: System) {
    forall n :: 0 <= n < |s.nodes| && s.nodes[n].probe.Minting? ==> s.nodes[n].probe.committed <= CommittedIn(s.log)
  }

  lemma StepKeepsBehind(s: System, step: Step)
    requires Enabled(s, step) && Behind(s)
    ensures Behind(Apply(s, step))
  {
    LogOnlyGrows(s, step);
    if step.Judge? {
      GenerationsRise(s.log, s.nodes[step.n].applied);
    }
    hide CommittedIn;
  }

  lemma {:induction false} RunKeepsBehind(s: System, steps: seq<Step>)
    requires Runnable(s, steps) && Behind(s)
    ensures Behind(Final(s, steps))
    decreases |steps|
  {
    hide Behind;
    hide Apply;
    if steps != [] {
      StepKeepsBehind(s, steps[0]);
      RunKeepsBehind(Apply(s, steps[0]), steps[1..]);
    }
  }

  /** The name a mint gives outranks everything committed exactly when the minting node was not
      behind the log when it judged. */
  lemma MintOutranksUnlessBehind(nodes: nat, runID: string, steps: seq<Step>, n: nat)
    requires Runnable(Initial(nodes, runID), steps)
    requires Enabled(Final(Initial(nodes, runID), steps), Mint(n))
    requires var s := Final(Initial(nodes, runID), steps);
             s.names[|s.names| - 1] == 0
    ensures var s := Final(Initial(nodes, runID), steps);
            var t := MintingStep(s, n);
            t.names[|t.names| - 1] > CommittedIn(s.log) <==> s.nodes[n].probe.committed == CommittedIn(s.log)
  {
    hide Apply;
    hide CommittedIn;
    InitialInv(nodes, runID);
    RunKeepsInv(Initial(nodes, runID), steps);
    RunKeepsBehind(Initial(nodes, runID), steps);
    var s := Final(Initial(nodes, runID), steps);
    assert ProbeInv(s.names, s.nodes[n].probe);
  }

  /* ---------- committed generations were minted ---------- */

  ghost predicate IsName(names: seq<nat>, gen: nat) {
    exists l :: 0 <= l < |names| && names[l] == gen
  }

  /** What is proposed was some lifetime's name, and what is committed was proposed. */
  ghost predicate Origins(s: System) {
    && (forall g :: g in s.proposed ==> g != 0 && IsName(s.names, g))
    && (forall i :: 0 <= i < |s.log| ==> Proposable(s, s.log[i]))
  }

  lemma NameSurvives(a: seq<nat>, b: seq<nat>, gen: nat)
    requires NamesKept(a, b) && gen != 0 && IsName(a, gen)
    ensures IsName(b, gen)
  {
    var l :| 0 <= l < |a| && a[l] == gen;
    assert b[l] == gen;
  }

  lemma NamesAreKept(s: System, step: Step)
    requires Inv(s) && Enabled(s, step)
    ensures NamesKept(s.names, Apply(s, step).names)
  {
    hide CommittedIn;
  }

  lemma StepKeepsOrigins(s: System, step: Step)
    requires Inv(s) && Origins(s) && Enabled(s, step)
    ensures Origins(Apply(s, step))
  {
    hide CommittedIn;
    NamesAreKept(s, step);
    var s' := Apply(s, step);
    forall g | g in s'.proposed
      ensures g != 0 && IsName(s'.names, g)
    {
      if g in s.proposed {
        NameSurvives(s.names, s'.names, g);
      } else {
        var n := step.n;
        assert ProbeInv(s.names, s.nodes[n].probe);
        assert s'.names[s.nodes[n].probe.lifetime] == g;
      }
    }
    forall i | 0 <= i < |s'.log|
      ensures Proposable(s', s'.log[i])
    {
      if i < |s.log| {
        assert Proposable(s, s.log[i]);
      }
    }
  }

  lemma {:induction false} RunKeepsOrigins(s: System, steps: seq<Step>)
    requires Inv(s) && Origins(s) && Runnable(s, steps)
    ensures Origins(Final(s, steps))
    decreases |steps|
  {
    hide Inv;
    hide Origins;
    hide Apply;
    if steps != [] {
      StepKeepsInv(s, steps[0]);
      StepKeepsOrigins(s, steps[0]);
      RunKeepsOrigins(Apply(s, steps[0]), steps[1..]);
    }
  }

  /** Over every run, whatever is committed was the name of some lifetime of the store. */
  lemma CommittedWasMinted(nodes: nat, runID: string, steps: seq<Step>)
    requires Runnable(Initial(nodes, runID), steps)
    ensures var s := Final(Initial(nodes, runID), steps);
            CommittedIn(s.log) != 0 ==> IsName(s.names, CommittedIn(s.log))
  {
    hide Apply;
    InitialInv(nodes, runID);
    RunKeepsOrigins(Initial(nodes, runID), steps);
    var s := Final(Initial(nodes, runID), steps);
    StoreGenIsAnEntry(s.log);
  }

  /* ---------- which lifetime a guard opens on ---------- */

  /** An opening is on something committed, so every lifetime named later was named knowing it. */
  ghost predicate Dated(s: System, o: Opening) {
    && o.gen <= CommittedIn(s.log) && o.lifetime <= o.during < |s.names| == |s.against|
    && (forall l :: o.during < l < |s.names| && s.names[l] != 0 ==> o.gen <= s.against[l])
  }

  ghost predicate AllDated(s: System) {
    forall i :: 0 <= i < |s.openings| ==> Dated(s, s.openings[i])
  }

  lemma KnowsLess(s: System, n: nat)
    requires Alive(s, n)
    ensures Knows(s, n) <= CommittedIn(s.log)
  {
    GenerationsRise(s.log, s.nodes[n].applied);
  }

  lemma StaysDated(s: System, step: Step, o: Opening)
    requires Inv(s) && Enabled(s, step) && Dated(s, o)
    ensures Dated(Apply(s, step), o)
  {
    LogOnlyGrows(s, step);
    hide CommittedIn;
  }

  /** The one opening a step may add. */
  lemma NewOpeningIsDated(s: System, step: Step)
    requires Inv(s) && Enabled(s, step)
    ensures var s' := Apply(s, step);
            s'.openings == s.openings || exists o :: s'.openings == s.openings + [o] && Dated(s', o)
  {
    hide CommittedIn;
    if step.Judge? || step.Conclude? {
      var n := step.n;
      KnowsLess(s, n);
      assert ProbeInv(s.names, s.nodes[n].probe);
      var s' := Apply(s, step);
      if s'.openings != s.openings {
        var o := s'.openings[|s.openings|];
        assert s'.openings == s.openings + [o] && Dated(s', o);
      }
    }
  }

  lemma StepKeepsDated(s: System, step: Step)
    requires Inv(s) && AllDated(s) && Enabled(s, step)
    ensures AllDated(Apply(s, step))
  {
    hide Inv;
    hide Dated;
    NewOpeningIsDated(s, step);
    var s' := Apply(s, step);
    forall i | 0 <= i < |s'.openings|
      ensures Dated(s', s'.openings[i])
    {
      if i < |s.openings| {
        StaysDated(s, step, s.openings[i]);
      }
    }
  }

  lemma {:induction false} RunKeepsDated(s: System, steps: seq<Step>)
    requires Inv(s) && AllDated(s) && Runnable(s, steps)
    ensures AllDated(Final(s, steps))
    decreases |steps|
  {
    hide Inv;
    hide AllDated;
    hide Apply;
    if steps != [] {
      StepKeepsInv(s, steps[0]);
      StepKeepsDated(s, steps[0]);
      RunKeepsDated(Apply(s, steps[0]), steps[1..]);
    }
  }

  /** Made in the lifetime it was read in, which was named by a node that was not behind the log. */
  predicate Trustworthy(s: System, o: Opening) {
    && o.during == o.lifetime < |s.names| == |s.against|
    && s.names[o.lifetime] > s.against[o.lifetime]
  }

  /** Then one generation means one lifetime: two such openings on it, on whatever nodes, are on
      the same store, with no wipe between them. */
  lemma OneLifetimePerGeneration(nodes: nat, runID: string, steps: seq<Step>, i: nat, j: nat)
    requires Runnable(Initial(nodes, runID), steps)
    requires var s := Final(Initial(nodes, runID), steps);
             && i < |s.openings| && j < |s.openings| && s.openings[i].gen == s.openings[j].gen
             && Trustworthy(s, s.openings[i]) && Trustworthy(s, s.openings[j])
    ensures var s := Final(Initial(nodes, runID), steps);
            s.openings[i].lifetime == s.openings[j].lifetime
  {
    hide Apply;
    hide CommittedIn;
    InitialInv(nodes, runID);
    RunKeepsInv(Initial(nodes, runID), steps);
    RunKeepsDated(Initial(nodes, runID), steps);
    var s := Final(Initial(nodes, runID), steps);
    assert Dated(s, s.openings[i]) && Dated(s, s.openings[j]);
    assert Learnt(s.names, s.openings[i].gen, s.openings[i].lifetime);
    assert Learnt(s.names, s.openings[j].gen, s.openings[j].lifetime);
  }
}
