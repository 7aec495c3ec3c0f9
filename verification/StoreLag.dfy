/** A run of the store-identity protocol in which a wipe goes unnoticed. Every generation it commits
    was minted, as `internal/storegen/guard.go` and `cmd/gateway/main.go` have it. */
module StoreLag {
  import opened Limits
  import opened ClusterState
  import opened ClusterLog
  import opened StoreGuard
  import SI = StoreIdentity

  /** A probe that finds no name, gives one and proposes it. */
  function NameIt(n: nat): seq<SI.Step> {
    [SI.ReadIdentity(n), SI.Judge(n), SI.Mint(n), SI.Conclude(n)]
  }

  /** A probe that finds a name. */
  function Look(n: nat): seq<SI.Step> {
    [SI.ReadIdentity(n), SI.Judge(n)]
  }

  lemma Take(s: SI.System, steps: seq<SI.Step>)
    requires steps != [] && SI.Enabled(s, steps[0]) && SI.Runnable(SI.Apply(s, steps[0]), steps[1..])
    ensures SI.Runnable(s, steps) && SI.Final(s, steps) == SI.Final(SI.Apply(s, steps[0]), steps[1..])
  {
  }

  lemma Nothing(s: SI.System)
    ensures SI.Runnable(s, []) && SI.Final(s, []) == s
  {
  }

  lemma {:induction false} RunsOn(s: SI.System, first: seq<SI.Step>, rest: seq<SI.Step>)
    requires SI.Runnable(s, first) && SI.Runnable(SI.Final(s, first), rest)
    ensures SI.Runnable(s, first + rest) && SI.Final(s, first + rest) == SI.Final(SI.Final(s, first), rest)
    decreases |first|
  {
    hide SI.Enabled;
    hide SI.Apply;
    if first == [] {
      assert first + rest == rest;
    } else {
      RunsOn(SI.Apply(s, first[0]), first[1..], rest);
      assert (first + rest)[1..] == first[1..] + rest;
    }
  }

  /** Node `n` is between probes. */
  predicate Rests(s: SI.System, n: nat) {
    SI.Alive(s, n) && s.nodes[n].probe.Resting?
  }

  /** Everything but node `n`, the current name and the books. */
  predicate OnlyMoved(s: SI.System, t: SI.System, n: nat) {
    && t.log == s.log && |t.nodes| == |s.nodes| && |t.names| == |s.names| == |t.against|
    && n < |s.nodes| && t.nodes[n].applied == s.nodes[n].applied && t.nodes[n].probe.Resting?
    && (forall m :: 0 <= m < |s.nodes| && m != n ==> t.nodes[m] == s.nodes[m])
  }

  /** What a probe that found no name is about to mint. */
  function Poised(s: SI.System, n: nat): SI.System
    requires SI.Alive(s, n)
  {
    var known, g := SI.Knows(s, n), Probed(s.nodes[n].guard, Identity(0, s.runID));
    var h := if known == 0 then g else Latched(g, CountersCleared);
    SI.SetNode(s, n, SI.Node(s.nodes[n].applied, h, SI.Minting(known + 1, known)))
  }

  lemma FindsNoName(s: SI.System, n: nat)
    requires Rests(s, n) && s.names[|s.names| - 1] == 0
    ensures SI.Runnable(s, Look(n)) && SI.Final(s, Look(n)) == Poised(s, n)
  {
    hide SI.Runnable;
    hide SI.Final;
    hide SI.CommittedIn;
    var steps := Look(n);
    var s1 := SI.Apply(s, steps[0]);
    assert SI.Knows(s1, n) == SI.Knows(s, n);
    var s2 := SI.Apply(s1, steps[1]);
    assert s2 == Poised(s, n);
    Nothing(s2);
    assert steps[1..][1..] == [];
    Take(s1, steps[1..]);
    Take(s, steps);
  }

  lemma GivesAName(s: SI.System, n: nat)
    requires Rests(s, n) && s.names[|s.names| - 1] == 0
    ensures SI.Runnable(Poised(s, n), [SI.Mint(n), SI.Conclude(n)])
    ensures var t, known, g := SI.Final(Poised(s, n), [SI.Mint(n), SI.Conclude(n)]), SI.Knows(s, n), s.nodes[n].guard;
            && OnlyMoved(s, t, n)
            && t.names == s.names[|s.names| - 1 := known + 1]
            && t.proposed == s.proposed + {known + 1} && t.openings == s.openings
            && t.nodes[n].guard.latches == g.latches + (if known > 0 && !g.blocked then 1 else 0)
            && t.nodes[n].guard.blocked == (g.blocked || known > 0)
  {
    hide SI.Runnable;
    hide SI.Final;
    hide SI.CommittedIn;
    var steps := [SI.Mint(n), SI.Conclude(n)];
    var s2 := Poised(s, n);
    assert SI.Knows(s2, n) == SI.Knows(s, n);
    var s3 := SI.Apply(s2, steps[0]);
    assert s3.nodes[n].probe == SI.InForce(SI.Knows(s, n) + 1, |s.names| - 1) && SI.Knows(s3, n) == SI.Knows(s, n);
    var s4 := SI.Apply(s3, steps[1]);
    Nothing(s4);
    assert steps[1..][1..] == [];
    Take(s3, steps[1..]);
    Take(s2, steps);
  }

  /** A node that finds the store without a name gives it the number after the last one it knows to
      be committed, whatever the log holds beyond that. */
  lemma NamingRound(s: SI.System, n: nat)
    requires Rests(s, n) && s.names[|s.names| - 1] == 0
    ensures SI.Runnable(s, NameIt(n))
    ensures var t, known, g := SI.Final(s, NameIt(n)), SI.Knows(s, n), s.nodes[n].guard;
            && OnlyMoved(s, t, n)
            && t.names == s.names[|s.names| - 1 := known + 1]
            && t.proposed == s.proposed + {known + 1} && t.openings == s.openings
            && t.nodes[n].guard.latches == g.latches + (if known > 0 && !g.blocked then 1 else 0)
            && t.nodes[n].guard.blocked == (g.blocked || known > 0)
  {
    hide SI.Runnable;
    hide SI.Final;
    hide SI.Apply;
    hide SI.Knows;
    hide Poised;
    FindsNoName(s, n);
    GivesAName(s, n);
    RunsOn(s, Look(n), [SI.Mint(n), SI.Conclude(n)]);
    assert NameIt(n) == Look(n) + [SI.Mint(n), SI.Conclude(n)];
  }

  /** A node that finds the generation it knows to be committed opens, or stays open, and counts no
      latch, whichever lifetime the name was given in. */
  lemma MatchingNameGoesUnnoticed(s: SI.System, n: nat)
    requires Rests(s, n) && s.names[|s.names| - 1] == SI.Knows(s, n) != 0
    ensures SI.Runnable(s, Look(n))
    ensures var t, known, now := SI.Final(s, Look(n)), SI.Knows(s, n), |s.names| - 1;
            && OnlyMoved(s, t, n) && t.names == s.names && t.proposed == s.proposed
            && t.openings == s.openings + [SI.Opening(n, now, known, known, now)]
            && !t.nodes[n].guard.blocked && t.nodes[n].guard.latches == s.nodes[n].guard.latches
  {
    hide SI.Runnable;
    hide SI.Final;
    hide SI.CommittedIn;
    var steps := Look(n);
    var s1 := SI.Apply(s, steps[0]);
    assert SI.Knows(s1, n) == SI.Knows(s, n);
    var s2 := SI.Apply(s1, steps[1]);
    Nothing(s2);
    assert steps[1..][1..] == [];
    Take(s1, steps[1..]);
    Take(s, steps);
  }

  function Gen(g: nat): Entry {
    Some(SetStoreGen(g))
  }

  lemma Replays()
    ensures SI.CommittedIn([]) == 0 && SI.CommittedIn([Gen(1)]) == 1 && SI.CommittedIn([Gen(1), Gen(2)]) == 2
  {
    var one, two := [Gen(1)], [Gen(1), Gen(2)];
    assert one[..0] == [] && two[..1] == one;
    assert Replay(START, one) == StepEntry(START, one[0]);
    assert Replay(START, two) == StepEntry(Replay(START, one), two[1]);
  }

  /** Two nodes between probes, having applied `a` and `b` entries of the log. */
  predicate Scene(s: SI.System, log: seq<Entry>, names: seq<nat>, a: nat, b: nat) {
    && s.log == log && s.names == names && |s.nodes| == 2 && Rests(s, 0) && Rests(s, 1)
    && s.nodes[0].applied == a && s.nodes[1].applied == b
  }

  lemma KnowsInScene(s: SI.System, log: seq<Entry>, names: seq<nat>, a: nat, b: nat)
    requires Scene(s, log, names, a, b)
    ensures a <= |log| && b <= |log|
    ensures SI.Knows(s, 0) == SI.CommittedIn(log[..a]) && SI.Knows(s, 1) == SI.CommittedIn(log[..b])
  {
  }

  /** Node 0 names the first store 1, and both nodes apply the entry that commits it. */
  function First(): seq<SI.Step> {
    [SI.Append(Gen(1)), SI.Learn(0, 1), SI.Learn(1, 1)]
  }

  /** Node 0 applies the entry that commits 2; node 1 does not. */
  function Second(): seq<SI.Step> {
    [SI.Append(Gen(2)), SI.Learn(0, 2)]
  }

  lemma FirstCommits(s: SI.System)
    requires Scene(s, [], [1], 0, 0) && 1 in s.proposed
    ensures SI.Runnable(s, First())
    ensures var t := SI.Final(s, First());
            Scene(t, [Gen(1)], [1], 1, 1) && t.nodes[0].guard == s.nodes[0].guard && t.openings == s.openings
  {
    hide SI.Runnable;
    hide SI.Final;
    var steps := First();
    var s1 := SI.Apply(s, steps[0]);
    var s2 := SI.Apply(s1, steps[1]);
    var s3 := SI.Apply(s2, steps[2]);
    Nothing(s3);
    assert steps[2..][1..] == [] && steps[1..][1..] == steps[2..];
    Take(s2, steps[2..]);
    Take(s1, steps[1..]);
    Take(s, steps);
  }

  lemma SecondCommits(s: SI.System)
    requires Scene(s, [Gen(1)], [1, 2], 1, 1) && 2 in s.proposed
    ensures SI.Runnable(s, Second())
    ensures var t := SI.Final(s, Second());
            Scene(t, [Gen(1), Gen(2)], [1, 2], 2, 1) && t.nodes[0].guard == s.nodes[0].guard && t.openings == s.openings
  {
    hide SI.Runnable;
    hide SI.Final;
    var steps := Second();
    var s1 := SI.Apply(s, steps[0]);
    var s2 := SI.Apply(s1, steps[1]);
    Nothing(s2);
    assert steps[1..][1..] == [];
    Take(s1, steps[1..]);
    Take(s, steps);
  }

  lemma Wiped(s: SI.System, runID: string, log: seq<Entry>, names: seq<nat>, a: nat, b: nat)
    requires Scene(s, log, names, a, b)
    ensures SI.Runnable(s, [SI.Wipe(runID)])
    ensures var t := SI.Final(s, [SI.Wipe(runID)]);
            && Scene(t, log, names + [0], a, b) && t.nodes == s.nodes && t.openings == s.openings
            && t.proposed == s.proposed
  {
    var steps := [SI.Wipe(runID)];
    Nothing(SI.Apply(s, steps[0]));
    assert steps[1..] == [];
    Take(s, steps);
  }

  lemma SceneMoves(s: SI.System, t: SI.System, n: nat, log: seq<Entry>, names: seq<nat>, a: nat, b: nat)
    requires Scene(s, log, names, a, b) && OnlyMoved(s, t, n) && n < 2
    ensures Scene(t, log, t.names, a, b)
  {
  }

  /** Up to the first wipe: the store is named 1 and both nodes know it. */
  function Founding(): seq<SI.Step> {
    NameIt(0) + First()
  }

  /** The first wipe: node 0 names the store 2, which is committed, and serves again; node 1 has
      not applied that entry. */
  function FirstWipe(runID: string): seq<SI.Step> {
    [SI.Wipe(runID)] + NameIt(0) + Second() + Look(0)
  }

  /** The second wipe: node 1 names the store. */
  function SecondWipe(runID: string): seq<SI.Step> {
    [SI.Wipe(runID)] + NameIt(1)
  }

  lemma Founded(runID: string)
    ensures SI.Runnable(SI.Initial(2, runID), Founding())
    ensures var t := SI.Final(SI.Initial(2, runID), Founding());
            && Scene(t, [Gen(1)], [1], 1, 1) && t.openings == [] && t.nodes[0].guard.latches == 0
            && !t.nodes[0].guard.blocked
  {
    var s := SI.Initial(2, runID);
    assert Scene(s, [], [0], 0, 0) && s.nodes[0].guard == FRESH && s.openings == [];
    hide SI.Runnable;
    hide SI.Final;
    hide SI.Apply;
    Replays();
    KnowsInScene(s, [], [0], 0, 0);
    NamingRound(s, 0);
    var t := SI.Final(s, NameIt(0));
    SceneMoves(s, t, 0, [], [0], 0, 0);
    assert t.names == [1];
    FirstCommits(t);
    RunsOn(s, NameIt(0), First());
  }

  lemma SurvivesTheFirstWipe(s: SI.System, runID: string)
    requires Scene(s, [Gen(1)], [1], 1, 1) && s.openings == [] && s.nodes[0].guard.latches == 0
             && !s.nodes[0].guard.blocked
    ensures SI.Runnable(s, FirstWipe(runID))
    ensures var t := SI.Final(s, FirstWipe(runID));
            && Scene(t, [Gen(1), Gen(2)], [1, 2], 2, 1) && t.openings == [SI.Opening(0, 1, 2, 2, 1)]
            && t.nodes[0].guard.latches == 1 && !t.nodes[0].guard.blocked
  {
    hide SI.Runnable;
    hide SI.Final;
    hide SI.Apply;
    hide SI.CommittedIn;
    Replays();
    Wiped(s, runID, [Gen(1)], [1], 1, 1);
    var s1 := SI.Final(s, [SI.Wipe(runID)]);
    assert [Gen(1)][..1] == [Gen(1)] && [1] + [0] == [1, 0];
    KnowsInScene(s1, [Gen(1)], [1, 0], 1, 1);
    NamingRound(s1, 0);
    var s2 := SI.Final(s1, NameIt(0));
    SceneMoves(s1, s2, 0, [Gen(1)], [1, 0], 1, 1);
    assert s2.names == [1, 2];
    SecondCommits(s2);
    var s3 := SI.Final(s2, Second());
    assert [Gen(1), Gen(2)][..2] == [Gen(1), Gen(2)];
    KnowsInScene(s3, [Gen(1), Gen(2)], [1, 2], 2, 1);
    MatchingNameGoesUnnoticed(s3, 0);
    SceneMoves(s3, SI.Final(s3, Look(0)), 0, [Gen(1), Gen(2)], [1, 2], 2, 1);
    RunsOn(s, [SI.Wipe(runID)], NameIt(0));
    RunsOn(s, [SI.Wipe(runID)] + NameIt(0), Second());
    RunsOn(s, [SI.Wipe(runID)] + NameIt(0) + Second(), Look(0));
  }

  lemma NamesItTwoAgain(s: SI.System, runID: string)
    requires Scene(s, [Gen(1), Gen(2)], [1, 2], 2, 1)
    ensures SI.Runnable(s, SecondWipe(runID))
    ensures var t := SI.Final(s, SecondWipe(runID));
            Scene(t, [Gen(1), Gen(2)], [1, 2, 2], 2, 1) && t.openings == s.openings && t.nodes[0] == s.nodes[0]
  {
    hide SI.Runnable;
    hide SI.Final;
    hide SI.Apply;
    hide SI.CommittedIn;
    Replays();
    var log := [Gen(1), Gen(2)];
    Wiped(s, runID, log, [1, 2], 2, 1);
    var s1 := SI.Final(s, [SI.Wipe(runID)]);
    assert log[..1] == [Gen(1)] && [1, 2] + [0] == [1, 2, 0];
    KnowsInScene(s1, log, [1, 2, 0], 2, 1);
    NamingRound(s1, 1);
    var s2 := SI.Final(s1, NameIt(1));
    SceneMoves(s1, s2, 1, log, [1, 2, 0], 2, 1);
    assert s2.names == [1, 2, 2];
    RunsOn(s, [SI.Wipe(runID)], NameIt(1));
  }

  function Lagging(runID: string): seq<SI.Step> {
    Founding() + FirstWipe(runID) + SecondWipe(runID)
  }

  /** The number after a wipe need not outrank the one before it: with 2 committed and the store
      wiped again, a node that has applied only the entry for 1 names it 2 once more. */
  lemma LaggingNodeMintsBelow(runID: string)
    ensures SI.Runnable(SI.Initial(2, runID), Lagging(runID))
    ensures var s := SI.Final(SI.Initial(2, runID), Lagging(runID));
            && s.names == [1, 2, 2] && s.log == [Gen(1), Gen(2)] && SI.CommittedIn(s.log) == 2
            && Scene(s, [Gen(1), Gen(2)], [1, 2, 2], 2, 1) && s.openings == [SI.Opening(0, 1, 2, 2, 1)]
            && s.nodes[0].guard.latches == 1 && !s.nodes[0].guard.blocked
  {
    hide *;
    var s0 := SI.Initial(2, runID);
    LaggingIs(runID);
    Replays();
    Founded(runID);
    var s1 := SI.Final(s0, Founding());
    SurvivesTheFirstWipe(s1, runID);
    var s2 := SI.Final(s1, FirstWipe(runID));
    NamesItTwoAgain(s2, runID);
    RunsOn(s0, Founding(), FirstWipe(runID));
    RunsOn(s0, Founding() + FirstWipe(runID), SecondWipe(runID));
    SceneIs(SI.Final(s0, Lagging(runID)), [Gen(1), Gen(2)], [1, 2, 2], 2, 1);
  }

  lemma LaggingIs(runID: string)
    ensures Lagging(runID) == Founding() + FirstWipe(runID) + SecondWipe(runID)
  {
  }

  lemma SceneIs(s: SI.System, log: seq<Entry>, names: seq<nat>, a: nat, b: nat)
    requires Scene(s, log, names, a, b)
    ensures s.log == log && s.names == names && |s.nodes| == 2
  {
  }

  /** So the second wipe goes unnoticed: the node that served before it probes the wiped store,
      stays open and counts no latch, and its two openings on generation 2 are on two stores. */
  lemma SecondWipeGoesUnnoticed(runID: string)
    ensures SI.Runnable(SI.Initial(2, runID), Lagging(runID) + Look(0))
    ensures var s := SI.Final(SI.Initial(2, runID), Lagging(runID) + Look(0));
            && |s.nodes| == 2 && !s.nodes[0].guard.blocked && s.nodes[0].guard.latches == 1
            && s.openings == [SI.Opening(0, 1, 2, 2, 1), SI.Opening(0, 2, 2, 2, 2)]
  {
    hide SI.Runnable;
    hide SI.Final;
    hide SI.Apply;
    hide SI.CommittedIn;
    hide Lagging;
    var s0 := SI.Initial(2, runID);
    var log := [Gen(1), Gen(2)];
    LaggingNodeMintsBelow(runID);
    var s := SI.Final(s0, Lagging(runID));
    assert log[..2] == log;
    KnowsInScene(s, log, [1, 2, 2], 2, 1);
    MatchingNameGoesUnnoticed(s, 0);
    RunsOn(s0, Lagging(runID), Look(0));
  }
}
