/** The replicated membership state machine of internal/cluster/state.go. */
module ClusterState {
  import opened Order
  import opened Rings

  datatype State = State(members: seq<Node>, vnodes: int, ringEpoch: nat, policyGen: nat, storeGen: nat)

  datatype Command =
    | SeedRing(members: seq<Node>, vnodes: int)
    | AddShard(member: Node)
    | RemoveShard(id: string)
    | SetVNodes(vnodes: int)
    | BumpPolicyGen
    | SetStoreGen(gen: nat)
    | UnknownKind(kind: string)

  datatype Verdict = Changed(state: State) | Unchanged | Refused

  const START := State([], 0, 0, 0, 0)

  /** The index of the first member with an id, or the length. */
  function IndexOf(members: seq<Node>, id: string): (i: nat)
    ensures i <= |members|
    ensures i < |members| ==> members[i].id == id
    ensures forall j :: 0 <= j < i ==> members[j].id != id
  {
    if members == [] || members[0].id == id then 0 else 1 + IndexOf(members[1..], id)
  }

  predicate Has(members: seq<Node>, id: string) {
    exists i :: 0 <= i < |members| && members[i].id == id
  }

  /** Somebody else answers on this address. */
  predicate AddressTaken(members: seq<Node>, m: Node) {
    exists i :: 0 <= i < |members| && members[i].id != m.id && members[i].addr == m.addr
  }

  /* ---------- the transition function ---------- */

  function Added(s: State, m: Node): Verdict {
    if m.id == "" || m.addr == "" || AddressTaken(s.members, m) then Refused
    else
      var i := IndexOf(s.members, m.id);
      if i == |s.members| then Changed(s.(members := SortNodes(s.members + [m]), ringEpoch := s.ringEpoch + 1))
      else if s.members[i].addr == m.addr then Unchanged
      else Changed(s.(members := s.members[i := Node(s.members[i].id, m.addr)]))
  }

  function Removed(s: State, id: string): Verdict {
    var i := IndexOf(s.members, id);
    if id == "" then Refused
    else if i == |s.members| then Unchanged
    else Changed(s.(members := s.members[..i] + s.members[i + 1..], ringEpoch := s.ringEpoch + 1))
  }

  /** The state a verdict leaves behind. */
  function Settle(s: State, v: Verdict): State {
    if v.Changed? then v.state else s
  }

  /** Adding one member after another, as long as none is refused. */
  function AddedAll(s: State, members: seq<Node>): Verdict {
    if members == [] then Changed(s)
    else
      var before := AddedAll(s, members[..|members| - 1]);
      if !before.Changed? then Refused
      else
        var v := Added(before.state, members[|members| - 1]);
        if v.Refused? then Refused else Changed(Settle(before.state, v))
  }

  function Seeded(s: State, members: seq<Node>, vnodes: int): Verdict {
    if s.members != [] then Unchanged
    else if members == [] || vnodes < 0 || vnodes > MAX_VNODES || !DistinctIds(members) then Refused
    else
      var v := AddedAll(State([], vnodes, s.ringEpoch, s.policyGen, s.storeGen), members);
      if v.Changed? then Changed(v.state.(ringEpoch := s.ringEpoch + 1)) else Refused
  }

  function Next(s: State, c: Command): Verdict {
    match c
    case SeedRing(members, vnodes) => Seeded(s, members, vnodes)
    case AddShard(m) => Added(s, m)
    case RemoveShard(id) => Removed(s, id)
    case SetVNodes(vnodes) =>
      if vnodes < 0 || vnodes > MAX_VNODES then Refused
      else if vnodes == s.vnodes then Unchanged
      else Changed(s.(vnodes := vnodes, ringEpoch := s.ringEpoch + 1))
    case BumpPolicyGen => Changed(s.(policyGen := s.policyGen + 1))
    case SetStoreGen(gen) =>
      if gen == 0 || gen < s.storeGen then Refused
      else if gen == s.storeGen then Unchanged
      else Changed(s.(storeGen := gen))
    case UnknownKind(_) => Refused
  }

  /* ---------- the loops that compute it ---------- */

  method AddLoop(s: State, m: Node) returns (v: Verdict)
    ensures v == Added(s, m)
  {
    if m.id == "" || m.addr == "" {
      return Refused;
    }
    var next := s;
    for i := 0 to |next.members|
      invariant forall j :: 0 <= j < i ==> !(next.members[j].id != m.id && next.members[j].addr == m.addr)
    {
      if next.members[i].id != m.id && next.members[i].addr == m.addr {
        return Refused;
      }
    }
    for i := 0 to |next.members|
      invariant forall j :: 0 <= j < i ==> next.members[j].id != m.id
    {
      if next.members[i].id == m.id {
        assert IndexOf(s.members, m.id) == i;
        if next.members[i].addr == m.addr {
          return Unchanged;
        }
        next := next.(members := next.members[i := Node(next.members[i].id, m.addr)]);
        return Changed(next);
      }
    }
    next := next.(members := SortNodes(next.members + [m]), ringEpoch := next.ringEpoch + 1);
    v := Changed(next);
  }

  method RemoveLoop(s: State, id: string) returns (v: Verdict)
    ensures v == Removed(s, id)
  {
    if id == "" {
      return Refused;
    }
    for i := 0 to |s.members|
      invariant forall j :: 0 <= j < i ==> s.members[j].id != id
    {
      if s.members[i].id == id {
        assert IndexOf(s.members, id) == i;
        return Changed(s.(members := s.members[..i] + s.members[i + 1..], ringEpoch := s.ringEpoch + 1));
      }
    }
    v := Unchanged;
  }

  lemma {:induction false} RefusalSticks(s: State, members: seq<Node>, k: nat)
    requires k <= |members| && AddedAll(s, members[..k]).Refused?
    ensures AddedAll(s, members).Refused?
    decreases |members| - k
  {
    if k < |members| {
      assert members[..k + 1][..k] == members[..k];
      RefusalSticks(s, members, k + 1);
    } else {
      assert members[..k] == members;
    }
  }

  lemma AddedAllStep(s: State, members: seq<Node>, i: nat)
    requires i < |members| && AddedAll(s, members[..i]).Changed?
    ensures var now := AddedAll(s, members[..i]).state;
            AddedAll(s, members[..i + 1])
            == if Added(now, members[i]).Refused? then Refused else Changed(Settle(now, Added(now, members[i])))
  {
    hide Added;
    assert members[..i + 1][..i] == members[..i];
  }

  /** No id is named twice. */
  method NamesEachOnce(members: seq<Node>) returns (once: bool)
    ensures once == DistinctIds(members)
  {
    var seen: set<string> := {};
    for i := 0 to |members|
      invariant seen == set j | 0 <= j < i :: members[j].id
      invariant forall j, k :: 0 <= j < k < i ==> members[j].id != members[k].id
    {
      if members[i].id in seen {
        return false;
      }
      seen := seen + {members[i].id};
    }
    once := true;
  }

  method SeedLoop(s: State, members: seq<Node>, vnodes: int) returns (v: Verdict)
    ensures v == Seeded(s, members, vnodes)
  {
    hide Added;
    hide AddedAll;
    hide Settle;
    hide DistinctIds;
    if s.members != [] {
      return Unchanged;
    }
    if members == [] || vnodes < 0 || vnodes > MAX_VNODES {
      return Refused;
    }
    var once := NamesEachOnce(members);
    if !once {
      return Refused;
    }
    var start := State([], vnodes, s.ringEpoch, s.policyGen, s.storeGen);
    var seeded := start;
    AddedNone(start, members);
    for i := 0 to |members|
      invariant AddedAll(start, members[..i]) == Changed(seeded)
    {
      AddedAllStep(start, members, i);
      var added := AddLoop(seeded, members[i]);
      if added.Refused? {
        RefusalSticks(start, members, i + 1);
        return Refused;
      }
      seeded := Settle(seeded, added);
    }
    assert members[..|members|] == members;
    v := Changed(seeded.(ringEpoch := s.ringEpoch + 1));
  }

  lemma AddedNone(s: State, members: seq<Node>)
    ensures AddedAll(s, members[..0]) == Changed(s)
  {
  }

  /** One committed entry applied to a state. */
  method Apply(s: State, c: Command) returns (v: Verdict)
    ensures v == Next(s, c)
  {
    match c {
      case SeedRing(members, vnodes) => v := SeedLoop(s, members, vnodes);
      case AddShard(m) => v := AddLoop(s, m);
      case RemoveShard(id) => v := RemoveLoop(s, id);
      case _ => v := Next(s, c);
    }
  }

  /* ---------- what every entry keeps ---------- */

  predicate DistinctAddrs(members: seq<Node>) {
    forall i, j :: 0 <= i < j < |members| ==> members[i].addr != members[j].addr
  }

  predicate Named(members: seq<Node>) {
    forall i :: 0 <= i < |members| ==> members[i].id != "" && members[i].addr != ""
  }

  /** Members strictly sorted by id, with unique nonempty ids and addresses. */
  ghost predicate Sound(s: State) {
    StrictlySorted(s.members) && Named(s.members) && DistinctAddrs(s.members)
  }

  lemma SortedMembers(nodes: seq<Node>, n: Node)
    ensures n in SortNodes(nodes) <==> n in nodes
    ensures |SortNodes(nodes)| == |nodes|
  {
    InMultiset(SortNodes(nodes), nodes, n);
    assert |multiset(SortNodes(nodes))| == |SortNodes(nodes)| && |multiset(nodes)| == |nodes|;
  }

  lemma SortIsStrict(nodes: seq<Node>)
    requires DistinctIds(nodes)
    ensures StrictlySorted(SortNodes(nodes))
  {
    SortedByIds(nodes);
    SameDistinctness(nodes, SortNodes(nodes));
    StrictBecauseDistinct(SortNodes(nodes));
  }

  lemma {:induction false} AddrsInAnyOrder(a: seq<Node>, b: seq<Node>)
    requires multiset(a) == multiset(b) && DistinctIds(a) && DistinctAddrs(a) && Named(a)
    ensures DistinctAddrs(b) && Named(b)
  {
    DistinctInAnyOrder(a, b);
    forall i | 0 <= i < |b|
      ensures b[i].id != "" && b[i].addr != ""
    {
      InMultiset(a, b, b[i]);
    }
    forall i, j | 0 <= i < j < |b|
      ensures b[i].addr != b[j].addr
    {
      InMultiset(a, b, b[i]);
      InMultiset(a, b, b[j]);
      var x :| 0 <= x < |a| && a[x] == b[i];
      var y :| 0 <= y < |a| && a[y] == b[j];
      assert x != y by {
        assert b[i].id != b[j].id;
      }
    }
  }

  lemma IdsOfSorted(nodes: seq<Node>)
    ensures IdsOf(SortNodes(nodes)) == IdsOf(nodes)
  {
    forall n
      ensures n in SortNodes(nodes) <==> n in nodes
    {
      SortedMembers(nodes, n);
    }
  }

  lemma AddedNew(s: State, m: Node)
    requires Sound(s) && m.id != "" && m.addr != "" && !AddressTaken(s.members, m)
    requires IndexOf(s.members, m.id) == |s.members|
    ensures var s' := Added(s, m).state;
            && Added(s, m).Changed? && Sound(s') && IdsOf(s'.members) == IdsOf(s.members) + {m.id}
            && m.id !in IdsOf(s.members) && s' == s.(members := s'.members, ringEpoch := s.ringEpoch + 1)
            && (forall n :: n in s'.members <==> n in s.members || n == m)
  {
    hide SortNodes;
    var grown := s.members + [m];
    StrictIsDistinct(s.members);
    assert DistinctIds(grown) && DistinctAddrs(grown) && Named(grown);
    SortIsStrict(grown);
    AddrsInAnyOrder(grown, SortNodes(grown));
    IdsOfSorted(grown);
    forall n
      ensures n in SortNodes(grown) <==> n in s.members || n == m
    {
      SortedMembers(grown, n);
    }
  }

  lemma Readdressed(s: State, m: Node)
    requires Sound(s) && m.addr != "" && !AddressTaken(s.members, m)
    requires IndexOf(s.members, m.id) < |s.members|
    ensures var i := IndexOf(s.members, m.id);
            var s' := s.(members := s.members[i := Node(s.members[i].id, m.addr)]);
            && Sound(s') && IdsOf(s'.members) == IdsOf(s.members)
  {
    var i := IndexOf(s.members, m.id);
    var now := s.members[i := Node(s.members[i].id, m.addr)];
    assert forall j :: 0 <= j < |now| ==> now[j].id == s.members[j].id;
    forall x
      ensures x in IdsOf(now) <==> x in IdsOf(s.members)
    {
      if x in IdsOf(now) {
        var j :| 0 <= j < |now| && now[j].id == x;
        assert s.members[j] in s.members;
      }
      if x in IdsOf(s.members) {
        var j :| 0 <= j < |now| && s.members[j].id == x;
        assert now[j] in now;
      }
    }
    StrictIsDistinct(s.members);
  }

  function DropAt(members: seq<Node>, i: nat): (less: seq<Node>)
    requires i < |members|
    ensures |less| == |members| - 1
    ensures forall j :: 0 <= j < |less| ==> less[j] == members[if j < i then j else j + 1]
  {
    members[..i] + members[i + 1..]
  }

  lemma DropKeepsOrder(s: State, i: nat)
    requires Sound(s) && i < |s.members|
    ensures Sound(s.(members := DropAt(s.members, i)))
  {
    hide Less;
    hide DropAt;
  }

  lemma DropLosesOneId(members: seq<Node>, i: nat)
    requires DistinctIds(members) && i < |members|
    ensures IdsOf(DropAt(members, i)) == IdsOf(members) - {members[i].id}
  {
    hide DropAt;
    var less := DropAt(members, i);
    forall x
      ensures x in IdsOf(less) <==> x in IdsOf(members) - {members[i].id}
    {
      if x in IdsOf(members) && x != members[i].id {
        var j :| 0 <= j < |members| && members[j].id == x;
        assert less[if j < i then j else j - 1] == members[j];
      }
    }
  }

  lemma WithoutOne(s: State, i: nat)
    requires Sound(s) && i < |s.members|
    ensures var s' := s.(members := s.members[..i] + s.members[i + 1..], ringEpoch := s.ringEpoch + 1);
            && Sound(s') && IdsOf(s'.members) == IdsOf(s.members) - {s.members[i].id}
  {
    hide IdsOf;
    StrictIsDistinct(s.members);
    DropKeepsOrder(s, i);
    DropLosesOneId(s.members, i);
  }

  /** Adding members with distinct ids one at a time: it is refused exactly when the whole list is
      not a configuration, and otherwise leaves those members and no others. */
  lemma {:induction false} AddedAllIs(s: State, members: seq<Node>)
    requires s.members == [] && Sound(s) && DistinctIds(members)
    ensures AddedAll(s, members).Changed? <==> Named(members) && DistinctAddrs(members)
    ensures AddedAll(s, members).Changed? ==>
              var s' := AddedAll(s, members).state;
              && Sound(s') && s' == s.(members := s'.members, ringEpoch := s'.ringEpoch)
              && forall n :: n in s'.members <==> n in members
    ensures !AddedAll(s, members).Unchanged?
  {
    hide Sound;
    if members != [] {
      var last := |members| - 1;
      var m, rest := members[last], members[..last];
      AddedAllIs(s, rest);
      assert members == rest + [m];
      if AddedAll(s, rest).Changed? {
        OneMore(AddedAll(s, rest).state, rest, m);
      } else {
        assert !(Named(rest) && DistinctAddrs(rest));
      }
    }
  }

  lemma OneMore(s: State, rest: seq<Node>, m: Node)
    requires Sound(s) && (forall n :: n in s.members <==> n in rest)
    requires Named(rest) && DistinctAddrs(rest) && DistinctIds(rest + [m])
    ensures var v, all := Added(s, m), rest + [m];
            && (!v.Refused? <==> Named(all) && DistinctAddrs(all))
            && (!v.Refused? ==>
                  && v.Changed? && Sound(v.state)
                  && v.state == s.(members := v.state.members, ringEpoch := v.state.ringEpoch)
                  && forall n :: n in v.state.members <==> n in all)
  {
    hide SortNodes;
    hide Sound;
    var all := rest + [m];
    assert all[|rest|] == m && forall i :: 0 <= i < |rest| ==> all[i] == rest[i];
    forall i | 0 <= i < |s.members|
      ensures s.members[i].id != m.id
    {
      assert s.members[i] in rest;
      var j :| 0 <= j < |rest| && rest[j] == s.members[i];
      assert all[j].id != all[|rest|].id;
    }
    assert IndexOf(s.members, m.id) == |s.members|;
    assert AddressTaken(s.members, m) <==> exists j :: 0 <= j < |rest| && rest[j].addr == m.addr by {
      if AddressTaken(s.members, m) {
        var i :| 0 <= i < |s.members| && s.members[i].id != m.id && s.members[i].addr == m.addr;
        assert s.members[i] in rest;
      }
      if j :| 0 <= j < |rest| && rest[j].addr == m.addr {
        assert rest[j] in s.members;
        assert all[j].id != all[|rest|].id;
      }
    }
    if !Added(s, m).Refused? {
      AddedNew(s, m);
    }
  }

  /** Seeding depends on the set of members, not on the order a configuration lists them in. */
  lemma SeedInAnyOrder(s: State, a: seq<Node>, b: seq<Node>, vnodes: int)
    requires multiset(a) == multiset(b)
    ensures Next(s, SeedRing(a, vnodes)) == Next(s, SeedRing(b, vnodes))
  {
    SameDistinctness(a, b);
    if s.members == [] && a != [] && 0 <= vnodes <= MAX_VNODES && DistinctIds(a) {
      var start := State([], vnodes, s.ringEpoch, s.policyGen, s.storeGen);
      AddedAllIs(start, a);
      AddedAllIs(start, b);
      if Named(a) && DistinctAddrs(a) {
        AddrsInAnyOrder(a, b);
      }
      if Named(b) && DistinctAddrs(b) {
        AddrsInAnyOrder(b, a);
      }
      if Named(a) && DistinctAddrs(a) {
        var x, y := AddedAll(start, a).state, AddedAll(start, b).state;
        forall n
          ensures n in x.members <==> n in y.members
        {
          InMultiset(a, b, n);
        }
        OneSortedList(x.members, y.members);
      }
    }
  }

  /** Along every entry: the members stay sorted and unique, and the epoch rises by exactly one
      when the id set or the virtual node count changes and otherwise stays. Policy generations
      rise by one per mint and store generations never fall. */
  lemma EveryEntry(s: State, c: Command)
    requires Sound(s)
    ensures var s' := Settle(s, Next(s, c));
            && Sound(s') && (0 <= s.vnodes <= MAX_VNODES ==> 0 <= s'.vnodes <= MAX_VNODES)
            && s'.ringEpoch == s.ringEpoch
               + (if IdsOf(s'.members) != IdsOf(s.members) || s'.vnodes != s.vnodes then 1 else 0)
            && s'.policyGen == s.policyGen + (if c.BumpPolicyGen? then 1 else 0)
            && s.storeGen <= s'.storeGen
  {
    match c
    case SeedRing(members, vnodes) =>
      hide *;
      NextSeeds(s, members, vnodes);
      SeedEntry(s, members, vnodes);
    case AddShard(m) =>
      hide *;
      AddEntry(s, m);
    case RemoveShard(id) =>
      hide *;
      RemoveEntry(s, id);
    case _ =>
      hide IdsOf;
      hide Added;
      hide Removed;
      hide Seeded;
  }

  lemma NextSeeds(s: State, members: seq<Node>, vnodes: int)
    ensures var v := Next(s, SeedRing(members, vnodes));
            v == Seeded(s, members, vnodes) && Settle(s, v) == if v.Changed? then v.state else s
  {
    hide Seeded;
  }

  lemma AddEntry(s: State, m: Node)
    requires Sound(s)
    ensures var s' := Settle(s, Next(s, AddShard(m)));
            && Sound(s') && s'.vnodes == s.vnodes && s'.policyGen == s.policyGen && s'.storeGen == s.storeGen
            && s'.ringEpoch == s.ringEpoch + if IdsOf(s'.members) != IdsOf(s.members) then 1 else 0
  {
    hide SortNodes;
    hide Sound;
    hide IdsOf;
    if Added(s, m).Changed? {
      if IndexOf(s.members, m.id) == |s.members| {
        AddedNew(s, m);
      } else {
        Readdressed(s, m);
      }
    }
  }

  lemma RemoveEntry(s: State, id: string)
    requires Sound(s)
    ensures var s' := Settle(s, Next(s, RemoveShard(id)));
            && Sound(s') && s'.vnodes == s.vnodes && s'.policyGen == s.policyGen && s'.storeGen == s.storeGen
            && s'.ringEpoch == s.ringEpoch + if IdsOf(s'.members) != IdsOf(s.members) then 1 else 0
  {
    hide Sound;
    hide IdsOf;
    var i := IndexOf(s.members, id);
    if i < |s.members| {
      WithoutOne(s, i);
      IdIsListed(s.members, i);
    }
  }

  lemma IdIsListed(members: seq<Node>, i: nat)
    requires i < |members|
    ensures members[i].id in IdsOf(members)
  {
    assert members[i] in members;
  }

  /** What an entry does, member by member: who is listed afterwards, and exactly when it is refused. */
  lemma EntryByMember(s: State, c: Command, n: Node)
    requires Sound(s)
    ensures var v := Next(s, c);
            var listed := n in Settle(s, v).members;
            match c
            case SeedRing(members, vnodes) =>
              && (v.Refused? <==>
                    s.members == [] && !(members != [] && 0 <= vnodes <= MAX_VNODES && DistinctIds(members)
                                         && Named(members) && DistinctAddrs(members)))
              && (listed <==> if v.Changed? then n in members else n in s.members)
            case AddShard(m) =>
              && (v.Refused? <==> m.id == "" || m.addr == "" || AddressTaken(s.members, m))
              && (listed <==> if v.Refused? then n in s.members else n == m || (n in s.members && n.id != m.id))
            case RemoveShard(id) => (v.Refused? <==> id == "") && (listed <==> n in s.members && n.id != id)
            case _ => listed <==> n in s.members
  {
    hide SortNodes;
    match c
    case SeedRing(members, vnodes) =>
      if s.members == [] && members != [] && 0 <= vnodes <= MAX_VNODES && DistinctIds(members) {
        AddedAllIs(State([], vnodes, s.ringEpoch, s.policyGen, s.storeGen), members);
      }
    case AddShard(m) => AddByMember(s, m, n);
    case RemoveShard(id) => RemoveByMember(s, id, n);
    case _ =>
  }

  /** Everything but the members, after each entry, and whether it changed anything. */
  lemma EntryByField(s: State, c: Command)
    requires Sound(s)
    ensures var v := Next(s, c);
            var t := Settle(s, v);
            match c
            case SeedRing(members, vnodes) =>
              && (v.Unchanged? <==> s.members != [])
              && (v.Changed? ==>
                    && t.vnodes == vnodes && t.ringEpoch == s.ringEpoch + 1
                    && t.policyGen == s.policyGen && t.storeGen == s.storeGen)
            case AddShard(m) =>
              && (v.Unchanged? ==> m in s.members)
              && (v.Changed? ==> m !in s.members)
              && t == s.(members := t.members, ringEpoch := s.ringEpoch + if t.ringEpoch != s.ringEpoch then 1 else 0)
              && (t.ringEpoch != s.ringEpoch <==> !v.Refused? && m.id !in IdsOf(s.members))
            case RemoveShard(id) =>
              && (id != "" ==> (v.Changed? <==> id in IdsOf(s.members)) && !v.Refused?)
              && t == s.(members := t.members, ringEpoch := s.ringEpoch + if v.Changed? then 1 else 0)
            case SetVNodes(vnodes) =>
              && (v.Refused? <==> !(0 <= vnodes <= MAX_VNODES))
              && (!v.Refused? ==>
                    && (v.Changed? <==> vnodes != s.vnodes)
                    && t == s.(vnodes := vnodes, ringEpoch := s.ringEpoch + if vnodes != s.vnodes then 1 else 0))
            case BumpPolicyGen => v == Changed(s.(policyGen := s.policyGen + 1))
            case SetStoreGen(gen) =>
              && (v.Refused? <==> gen == 0 || gen < s.storeGen)
              && (!v.Refused? ==> t == s.(storeGen := gen) && (v.Changed? <==> gen > s.storeGen))
            case UnknownKind(_) => v.Refused?
  {
    match c
    case SeedRing(members, vnodes) => SeedByField(s, members, vnodes);
    case AddShard(m) => AddByField(s, m);
    case RemoveShard(id) => RemoveByField(s, id);
    case _ =>
  }

  lemma SeedByField(s: State, members: seq<Node>, vnodes: int)
    requires Sound(s)
    ensures var v := Seeded(s, members, vnodes);
            && (v.Unchanged? <==> s.members != [])
            && (v.Changed? ==>
                  && v.state.vnodes == vnodes && v.state.ringEpoch == s.ringEpoch + 1
                  && v.state.policyGen == s.policyGen && v.state.storeGen == s.storeGen)
  {
    if s.members == [] && members != [] && 0 <= vnodes <= MAX_VNODES && DistinctIds(members) {
      AddedAllIs(State([], vnodes, s.ringEpoch, s.policyGen, s.storeGen), members);
    }
  }

  lemma AddByField(s: State, m: Node)
    requires Sound(s)
    ensures var v := Added(s, m);
            var t := Settle(s, v);
            && (v.Unchanged? ==> m in s.members) && (v.Changed? ==> m !in s.members)
            && t == s.(members := t.members, ringEpoch := s.ringEpoch + if t.ringEpoch != s.ringEpoch then 1 else 0)
            && (t.ringEpoch != s.ringEpoch <==> !v.Refused? && m.id !in IdsOf(s.members))
  {
    hide SortNodes;
    StrictIsDistinct(s.members);
    var i := IndexOf(s.members, m.id);
    if i < |s.members| {
      IdIsListed(s.members, i);
      assert s.members[i].addr == m.addr ==> s.members[i] == m;
      if m in s.members {
        var j :| 0 <= j < |s.members| && s.members[j] == m;
        assert i == j;
      }
    }
  }

  lemma RemoveByField(s: State, id: string)
    requires Sound(s)
    ensures var v := Removed(s, id);
            var t := Settle(s, v);
            && (id != "" ==> (v.Changed? <==> id in IdsOf(s.members)) && !v.Refused?)
            && t == s.(members := t.members, ringEpoch := s.ringEpoch + if v.Changed? then 1 else 0)
  {
    var i := IndexOf(s.members, id);
    if i < |s.members| {
      IdIsListed(s.members, i);
    }
  }

  lemma AddByMember(s: State, m: Node, n: Node)
    requires Sound(s)
    ensures var v := Added(s, m);
            n in Settle(s, v).members <==>
              if v.Refused? then n in s.members else n == m || (n in s.members && n.id != m.id)
  {
    hide SortNodes;
    StrictIsDistinct(s.members);
    var i := IndexOf(s.members, m.id);
    if !Added(s, m).Refused? {
      if i == |s.members| {
        AddedNew(s, m);
      } else {
        var now := s.members[i := Node(s.members[i].id, m.addr)];
        assert now[i] == m;
        if n in s.members && n.id != m.id {
          var j :| 0 <= j < |s.members| && s.members[j] == n;
          assert now[j] == n;
        }
        if n in now && n != m {
          var j :| 0 <= j < |now| && now[j] == n;
          assert s.members[j] == n;
        }
      }
    }
  }

  lemma DropByMember(members: seq<Node>, i: nat, n: Node)
    requires DistinctIds(members) && i < |members|
    ensures n in DropAt(members, i) <==> n in members && n.id != members[i].id
  {
    hide DropAt;
    var less := DropAt(members, i);
    if n in members && n.id != members[i].id {
      var j :| 0 <= j < |members| && members[j] == n;
      assert less[if j < i then j else j - 1] == n;
    }
    if n in less {
      var j :| 0 <= j < |less| && less[j] == n;
      assert members[if j < i then j else j + 1] == n;
    }
  }

  lemma RemoveByMember(s: State, id: string, n: Node)
    requires Sound(s)
    ensures n in Settle(s, Removed(s, id)).members <==> n in s.members && n.id != id
  {
    SoundIds(s);
    hide Sound;
    var i := IndexOf(s.members, id);
    if id != "" && i < |s.members| {
      DropByMember(s.members, i, n);
    }
  }

  lemma SoundIds(s: State)
    requires Sound(s)
    ensures DistinctIds(s.members) && forall n :: n in s.members ==> n.id != ""
  {
    StrictIsDistinct(s.members);
  }

  lemma SeedEntry(s: State, members: seq<Node>, vnodes: int)
    requires Sound(s)
    ensures var v := Seeded(s, members, vnodes);
            v.Changed? ==>
              && Sound(v.state) && 0 <= v.state.vnodes <= MAX_VNODES && IdsOf(s.members) == {} != IdsOf(v.state.members)
              && v.state.ringEpoch == s.ringEpoch + 1
              && v.state.policyGen == s.policyGen && v.state.storeGen == s.storeGen
  {
    if Seeded(s, members, vnodes).Changed? {
      var start := State([], vnodes, s.ringEpoch, s.policyGen, s.storeGen);
      AddedAllIs(start, members);
      var seeded := Seeded(s, members, vnodes).state;
      assert members[0] in seeded.members;
      assert members[0].id in IdsOf(seeded.members);
    }
  }
}

/** The log-driven state machine of internal/cluster/fsm.go, and every replica that runs it. */
module ClusterLog {
  import opened Limits
  import opened Order
  import opened Rings
  import opened ClusterState

  /** The bytes of a committed entry either decode to a command or do not. */
  type Entry = Option<Command>

  /** Encoding sorts the members; what is left of it is injective. Decoding sorts again. */
  datatype Encoded = Encoded(state: State)

  function Encode(s: State): Encoded {
    Encoded(s.(members := SortNodes(s.members)))
  }

  function Decode(e: Encoded): State {
    e.state.(members := SortNodes(e.state.members))
  }

  function StepEntry(s: State, e: Entry): State {
    if e.None? then s else Settle(s, Next(s, e.value))
  }

  /** What a replica holds after a log. */
  function Replay(s: State, log: seq<Entry>): State {
    if log == [] then s else StepEntry(Replay(s, log[..|log| - 1]), log[|log| - 1])
  }

  datatype Applied = Applied(state: Option<State>, changed: bool)

  class FSM {
    var state: State
    /** The states handed to the request path, oldest first. */
    var adopted: seq<State>

    constructor ()
      ensures state == START && adopted == []
    {
      state, adopted := START, [];
    }

    /** One committed entry: refused and undecodable ones are reported and skipped. */
    method Apply(e: Entry) returns (a: Applied)
      modifies this
      ensures state == StepEntry(old(state), e)
      ensures a.changed <==> e.Some? && Next(old(state), e.value).Changed?
      ensures a.state == if e.Some? && !Next(old(state), e.value).Refused? then Some(state) else None
      ensures adopted == if a.changed then old(adopted) + [state] else old(adopted)
    {
      if e.None? {
        return Applied(None, false);
      }
      var v := ClusterState.Apply(state, e.value);
      if v.Refused? {
        return Applied(None, false);
      }
      if v.Changed? {
        state := v.state;
        adopted := adopted + [state];
      }
      a := Applied(Some(state), v.Changed?);
    }

    method Snapshot() returns (bytes: Encoded)
      ensures bytes == Encode(state)
    {
      bytes := Encode(state);
    }

    /** Replaces the state wholesale, unless the bytes do not decode. */
    method Restore(bytes: Option<Encoded>) returns (ok: bool)
      modifies this
      ensures ok == bytes.Some?
      ensures state == if ok then Decode(bytes.value) else old(state)
      ensures adopted == if ok then old(adopted) + [state] else old(adopted)
    {
      if bytes.None? {
        return false;
      }
      state := Decode(bytes.value);
      adopted := adopted + [state];
      ok := true;
    }
  }

  /* ---------- every reachable state ---------- */

  lemma {:induction false} Reachable(log: seq<Entry>)
    ensures Sound(Replay(START, log)) && 0 <= Replay(START, log).vnodes <= MAX_VNODES
  {
    if log != [] {
      var n := |log| - 1;
      Reachable(log[..n]);
      if log[n].Some? {
        EveryEntry(Replay(START, log[..n]), log[n].value);
      }
    }
  }

  lemma {:induction false} ReplaySplits(s: State, log: seq<Entry>, k: nat)
    requires k <= |log|
    ensures Replay(s, log) == Replay(Replay(s, log[..k]), log[k..])
    decreases |log| - k
  {
    hide StepEntry;
    if k == |log| {
      assert log[..k] == log && log[k..] == [];
    } else {
      var n := |log| - 1;
      ReplaySplits(s, log[..n], k);
      assert log[..n][..k] == log[..k] && log[..n][k..] == log[k..][..n - k];
      assert log[k..][n - k] == log[n];
    }
  }

  /** Encoding and decoding a state the log can reach gives it back. */
  lemma RoundTrip(s: State)
    requires Sound(s)
    ensures Decode(Encode(s)) == s
  {
    AlreadySorted(s.members);
  }

  lemma AlreadySorted(nodes: seq<Node>)
    requires StrictlySorted(nodes)
    ensures SortNodes(nodes) == nodes
  {
    hide SortNodes;
    StrictIsDistinct(nodes);
    SortIsStrict(nodes);
    forall n
      ensures n in SortNodes(nodes) <==> n in nodes
    {
      SortedMembers(nodes, n);
    }
    OneSortedList(SortNodes(nodes), nodes);
  }

  /** A replica that restores a snapshot taken at any point and applies what is left of the log
      holds what a replica that applied the whole log holds, refused entries included. */
  lemma RestoreAndCatchUp(log: seq<Entry>, k: nat)
    requires k <= |log|
    ensures Replay(Decode(Encode(Replay(START, log[..k]))), log[k..]) == Replay(START, log)
  {
    Reachable(log[..k]);
    RoundTrip(Replay(START, log[..k]));
    ReplaySplits(START, log, k);
  }

  /** Along a log the epoch, the policy generation and the committed store generation never fall. */
  lemma {:induction false} GenerationsRise(log: seq<Entry>, k: nat)
    requires k <= |log|
    ensures var early, late := Replay(START, log[..k]), Replay(START, log);
            && early.ringEpoch <= late.ringEpoch && early.policyGen <= late.policyGen && early.storeGen <= late.storeGen
            && (early.ringEpoch == late.ringEpoch ==>
                  IdsOf(early.members) == IdsOf(late.members) && early.vnodes == late.vnodes)
    decreases |log| - k
  {
    if k == |log| {
      assert log[..k] == log;
    } else {
      var n := |log| - 1;
      GenerationsRise(log[..n], k);
      assert log[..n][..k] == log[..k];
      Reachable(log[..n]);
      if log[n].Some? {
        EveryEntry(Replay(START, log[..n]), log[n].value);
      }
    }
  }

  lemma StoreGenMoves(s: State, c: Command)
    requires Sound(s)
    ensures var t := Settle(s, Next(s, c));
            t.storeGen == s.storeGen || (c.SetStoreGen? && t.storeGen == c.gen)
  {
    match c
    case SeedRing(members, vnodes) =>
      hide *;
      NextSeeds(s, members, vnodes);
      SeedEntry(s, members, vnodes);
    case AddShard(m) =>
      hide *;
      AddEntry(s, m);
    case RemoveShard(id) =>
      hide *;
      RemoveEntry(s, id);
    case _ =>
  }

  /** The committed store generation was put there by an entry of the log. */
  lemma {:induction false} StoreGenIsAnEntry(log: seq<Entry>)
    ensures Replay(START, log).storeGen == 0 || Some(SetStoreGen(Replay(START, log).storeGen)) in log
  {
    hide Next;
    hide Settle;
    if log != [] {
      var n := |log| - 1;
      StoreGenIsAnEntry(log[..n]);
      Reachable(log[..n]);
      if log[n].Some? {
        StoreGenMoves(Replay(START, log[..n]), log[n].value);
      }
      assert log == log[..n] + [log[n]];
    }
  }

  /** Two replicas anywhere along one log that agree on the epoch agree on who owns every tenant. */
  lemma EpochFencesOwnership(hashes: Hashing, log: seq<Entry>, j: nat, k: nat, tenant: string, a: string, b: string)
    requires j <= k <= |log|
    requires var s, t := Replay(START, log[..j]), Replay(START, log[..k]);
             && s.ringEpoch == t.ringEpoch
             && Owns(hashes, IdsOf(s.members), EffectiveVNodes(s.vnodes), tenant, a)
             && Owns(hashes, IdsOf(t.members), EffectiveVNodes(t.vnodes), tenant, b)
    ensures a == b
  {
    hide Owns;
    GenerationsRise(log[..k], j);
    assert log[..k][..j] == log[..j];
    var s := Replay(START, log[..j]);
    OneOwner(hashes, IdsOf(s.members), EffectiveVNodes(s.vnodes), tenant, a, b);
  }
}

/** A node's view of the membership, internal/cluster/cluster.go. */
module ClusterView {
  import opened Limits
  import opened Rings
  import opened ClusterState

  /** A committed state and the ring derived from it, swapped together. */
  datatype Snapshot = Snapshot(state: State, ring: Ring)

  /** The ring is the one its own state describes, and self is in it. */
  ghost predicate Coherent(hashes: Hashing, self: string, snap: Snapshot) {
    && WellBuilt(hashes, snap.ring) && multiset(snap.ring.nodes) == multiset(snap.state.members)
    && IdsOf(snap.ring.nodes) == IdsOf(snap.state.members)
    && snap.ring.vnodes == EffectiveVNodes(snap.state.vnodes)
    && self in IdsOf(snap.ring.nodes)
  }

  /** The states a view adopts: those that name this node and describe a ring. */
  ghost predicate Adoptable(self: string, s: State) {
    && Has(s.members, self) && s.vnodes <= MAX_VNODES
    && (forall n :: n in s.members ==> n.id != "") && DistinctIds(s.members)
  }

  method HasLoop(s: State, id: string) returns (has: bool)
    ensures has == Has(s.members, id)
  {
    for i := 0 to |s.members|
      invariant forall j :: 0 <= j < i ==> s.members[j].id != id
    {
      if s.members[i].id == id {
        return true;
      }
    }
    has := false;
  }

  lemma HasIsMembership(members: seq<Node>, id: string)
    ensures Has(members, id) <==> id in IdsOf(members)
  {
    if Has(members, id) {
      var i :| 0 <= i < |members| && members[i].id == id;
      assert members[i] in members;
    }
  }

  /** Part of the way from `s` to a new membership. */
  ghost predicate Progress(s: State, next: State) {
    && Sound(next) && next.policyGen == s.policyGen && next.storeGen == s.storeGen && s.ringEpoch <= next.ringEpoch
    && (next.ringEpoch == s.ringEpoch <==> IdsOf(next.members) == IdsOf(s.members))
  }

  lemma PrefixIds(members: seq<Node>, i: nat)
    requires i < |members|
    ensures IdsOf(members[..i + 1]) == IdsOf(members[..i]) + {members[i].id} && members[i].id in IdsOf(members)
    ensures DistinctIds(members) ==> members[i].id !in IdsOf(members[..i])
  {
    assert members[..i + 1] == members[..i] + [members[i]];
    assert members[i] in members;
  }

  lemma RemoveMakesProgress(s: State, next: State, id: string)
    requires Progress(s, next) && id in IdsOf(next.members) && IdsOf(next.members) <= IdsOf(s.members)
    ensures var v := Next(next, RemoveShard(id));
            && v.Changed? && Progress(s, v.state) && IdsOf(v.state.members) == IdsOf(next.members) - {id}
            && v.state.vnodes == next.vnodes
  {
    HasIsMembership(next.members, id);
    var i := IndexOf(next.members, id);
    assert i < |next.members|;
    WithoutOne(next, i);
  }

  lemma AddMakesProgress(s: State, next: State, m: Node, keep: set<string>)
    requires Progress(s, next) && m.id in keep && IdsOf(s.members) * keep <= IdsOf(next.members)
    requires !Next(next, AddShard(m)).Refused?
    ensures var t := Settle(next, Next(next, AddShard(m)));
            Progress(s, t) && IdsOf(t.members) == IdsOf(next.members) + {m.id} && t.vnodes == next.vnodes
  {
    hide SortNodes;
    var i := IndexOf(next.members, m.id);
    if i == |next.members| {
      AddedNew(next, m);
    } else {
      assert next.members[i] in next.members && next.members[i].id in IdsOf(next.members);
      assert IdsOf(next.members) + {m.id} == IdsOf(next.members);
      if next.members[i].addr != m.addr {
        Readdressed(next, m);
      }
    }
  }

  lemma NoProgressYet(s: State)
    requires Sound(s)
    ensures Progress(s, s)
  {
  }

  lemma ProgressIs(s: State, next: State)
    requires Progress(s, next)
    ensures Sound(next) && next.policyGen == s.policyGen && next.storeGen == s.storeGen && s.ringEpoch <= next.ringEpoch
    ensures next.ringEpoch == s.ringEpoch <==> IdsOf(next.members) == IdsOf(s.members)
  {
  }

  lemma VNodesVerdict(s: State, vnodes: int)
    ensures Next(s, SetVNodes(vnodes)).Refused? <==> vnodes < 0 || vnodes > MAX_VNODES
  {
  }

  lemma AdoptsASound(self: string, s: State)
    requires Sound(s)
    ensures Adoptable(self, s) <==> self in IdsOf(s.members) && s.vnodes <= MAX_VNODES
  {
    StrictIsDistinct(s.members);
    HasIsMembership(s.members, self);
  }

  lemma VNodesMakeProgress(s: State, vnodes: int)
    requires Sound(s) && vnodes != s.vnodes && !Next(s, SetVNodes(vnodes)).Refused?
    ensures Next(s, SetVNodes(vnodes)) == Changed(s.(vnodes := vnodes, ringEpoch := s.ringEpoch + 1))
    ensures Sound(Next(s, SetVNodes(vnodes)).state)
  {
  }

  lemma NoIds(members: seq<Node>)
    ensures IdsOf(members[..0]) == {} && IdsOf(members[..|members|]) == IdsOf(members)
  {
    assert members[..|members|] == members;
  }

  lemma SoundIsDistinct(s: State)
    requires Sound(s)
    ensures DistinctIds(s.members) && forall i :: 0 <= i < |s.members| ==> s.members[i].id != ""
  {
    StrictIsDistinct(s.members);
  }

  /* ---------- who a configuration lists ---------- */

  /** `n` is what a list says last about its id. */
  predicate LastSaid(members: seq<Node>, n: Node) {
    exists i :: 0 <= i < |members| && members[i] == n && forall j :: i < j < |members| ==> members[j].id != n.id
  }

  /** Listed once the first `i` of `members` have joined those of `before` that stay. */
  predicate Standing(before: seq<Node>, members: seq<Node>, i: nat, n: Node)
    requires i <= |members|
  {
    LastSaid(members[..i], n) || (n in before && n.id in IdsOf(members) && n.id !in IdsOf(members[..i]))
  }

  /** The i-th member has an id and an address, and nobody standing by then answers on it. */
  ghost predicate Joins(before: seq<Node>, members: seq<Node>, i: nat)
    requires i < |members|
  {
    && members[i].id != "" && members[i].addr != ""
    && forall n :: Standing(before, members, i, n) && n.id != members[i].id ==> n.addr != members[i].addr
  }

  /** Every member joins in turn. */
  ghost predicate AllJoin(before: seq<Node>, members: seq<Node>) {
    forall i :: 0 <= i < |members| ==> Joins(before, members, i)
  }

  lemma LastSaidStep(members: seq<Node>, m: Node, n: Node)
    ensures LastSaid(members + [m], n) <==> n == m || (LastSaid(members, n) && n.id != m.id)
  {
    var more := members + [m];
    if LastSaid(members, n) && n.id != m.id {
      var i :| 0 <= i < |members| && members[i] == n && forall j :: i < j < |members| ==> members[j].id != n.id;
      assert more[i] == n && forall j :: i < j < |more| ==> more[j].id != n.id;
    }
    if n == m {
      assert more[|members|] == n;
    }
    if LastSaid(more, n) && n != m {
      var i :| 0 <= i < |more| && more[i] == n && forall j :: i < j < |more| ==> more[j].id != n.id;
      assert more[|members|] == m;
      assert forall j :: i < j < |members| ==> members[j] == more[j];
    }
  }

  lemma StandingStep(before: seq<Node>, members: seq<Node>, i: nat, n: Node)
    requires i < |members|
    ensures Standing(before, members, i + 1, n)
            <==> n == members[i] || (Standing(before, members, i, n) && n.id != members[i].id)
  {
    PrefixIds(members, i);
    assert members[..i + 1] == members[..i] + [members[i]];
    hide LastSaid;
    hide IdsOf;
    LastSaidStep(members[..i], members[i], n);
  }

  lemma StandingAtTheEnd(before: seq<Node>, members: seq<Node>, n: Node)
    ensures Standing(before, members, |members|, n) <==> LastSaid(members, n)
  {
    hide LastSaid;
    assert members[..|members|] == members;
  }

  lemma StandingAtTheStart(before: seq<Node>, members: seq<Node>, n: Node)
    ensures Standing(before, members, 0, n) <==> n in before && n.id in IdsOf(members)
  {
  }

  lemma AddVerdict(now: State, before: seq<Node>, members: seq<Node>, i: nat)
    requires i < |members| && forall n :: n in now.members <==> Standing(before, members, i, n)
    ensures Next(now, AddShard(members[i])).Refused? <==> !Joins(before, members, i)
  {
    hide Standing;
    var m := members[i];
    if AddressTaken(now.members, m) {
      var j :| 0 <= j < |now.members| && now.members[j].id != m.id && now.members[j].addr == m.addr;
      assert Standing(before, members, i, now.members[j]);
    }
    if n :| Standing(before, members, i, n) && n.id != m.id && n.addr == m.addr {
      assert n in now.members;
    }
  }

  lemma AddLists(now: State, before: seq<Node>, members: seq<Node>, i: nat)
    requires Sound(now) && i < |members| && !Next(now, AddShard(members[i])).Refused?
    requires forall n :: n in now.members <==> Standing(before, members, i, n)
    ensures var t := Settle(now, Next(now, AddShard(members[i])));
            forall n :: n in t.members <==> Standing(before, members, i + 1, n)
  {
    hide *;
    var t := Settle(now, Next(now, AddShard(members[i])));
    forall n
      ensures n in t.members <==> Standing(before, members, i + 1, n)
    {
      AddsAre(now, members[i]);
      AddByMember(now, members[i], n);
      StandingStep(before, members, i, n);
    }
  }

  lemma AddsAre(s: State, m: Node)
    ensures Next(s, AddShard(m)) == Added(s, m)
  {
  }

  /** The members of a state that a configuration keeps. */
  predicate Kept(s: State, gone: seq<Node>, keep: set<string>, n: Node) {
    n in s.members && (n.id in keep || n.id !in IdsOf(gone))
  }

  lemma RemoveLists(s: State, next: State, i: nat, keep: set<string>)
    requires Sound(next) && i < |s.members| && s.members[i].id !in keep && s.members[i].id != ""
    requires forall n :: n in next.members <==> Kept(s, s.members[..i], keep, n)
    ensures var t := Settle(next, Next(next, RemoveShard(s.members[i].id)));
            forall n :: n in t.members <==> Kept(s, s.members[..i + 1], keep, n)
  {
    PrefixIds(s.members, i);
    hide IdsOf;
    hide Removed;
    hide Sound;
    forall n
      ensures n in Settle(next, Removed(next, s.members[i].id)).members <==> Kept(s, s.members[..i + 1], keep, n)
    {
      RemoveByMember(next, s.members[i].id, n);
    }
  }

  /** Departures first: a newcomer may take over the address of a member that left. */
  method Depart(s: State, members: seq<Node>) returns (next: State)
    requires Sound(s) && Progress(s, s)
    ensures Progress(s, next) && next.vnodes == s.vnodes
    ensures IdsOf(next.members) == IdsOf(s.members) * IdsOf(members)
    ensures forall n :: n in next.members <==> Standing(s.members, members, 0, n)
  {
    hide *;
    SoundIsDistinct(s);
    NoIds(s.members);
    var keep := IdsOf(members);
    next := s;
    KeptAtTheStart(s, keep);
    for i := 0 to |s.members|
      invariant Progress(s, next) && next.vnodes == s.vnodes
      invariant IdsOf(next.members) == IdsOf(s.members) - (IdsOf(s.members[..i]) - keep)
      invariant forall n :: n in next.members <==> Kept(s, s.members[..i], keep, n)
    {
      PrefixIds(s.members, i);
      if s.members[i].id !in keep {
        ProgressIs(s, next);
        RemoveLists(s, next, i, keep);
        RemoveMakesProgress(s, next, s.members[i].id);
        var gone := ClusterState.Apply(next, RemoveShard(s.members[i].id));
        SettleIs(next, gone);
        next := gone.state;
      } else {
        KeptAnyway(s, i, keep);
      }
    }
    forall n
      ensures n in next.members <==> Standing(s.members, members, 0, n)
    {
      KeptAtTheEnd(s, keep, n);
      StandingAtTheStart(s.members, members, n);
    }
  }

  lemma KeptAtTheStart(s: State, keep: set<string>)
    ensures forall n :: n in s.members <==> Kept(s, s.members[..0], keep, n)
  {
  }

  lemma KeptAnyway(s: State, i: nat, keep: set<string>)
    requires i < |s.members| && s.members[i].id in keep
    ensures forall n :: Kept(s, s.members[..i], keep, n) <==> Kept(s, s.members[..i + 1], keep, n)
  {
    PrefixIds(s.members, i);
    hide IdsOf;
  }

  lemma KeptAtTheEnd(s: State, keep: set<string>, n: Node)
    ensures Kept(s, s.members[..|s.members|], keep, n) <==> n in s.members && n.id in keep
  {
    assert s.members[..|s.members|] == s.members;
  }

  /** Then arrivals and address changes, in the order given. */
  method Join(s: State, start: State, members: seq<Node>) returns (next: Option<State>)
    requires Progress(s, start) && IdsOf(start.members) == IdsOf(s.members) * IdsOf(members)
    requires forall n :: n in start.members <==> Standing(s.members, members, 0, n)
    ensures next.Some? <==> AllJoin(s.members, members)
    ensures next.Some? ==>
              && Progress(s, next.value) && next.value.vnodes == start.vnodes
              && IdsOf(next.value.members) == IdsOf(members)
              && forall n :: n in next.value.members <==> LastSaid(members, n)
  {
    hide *;
    NoIds(members);
    var now := start;
    for i := 0 to |members|
      invariant Progress(s, now) && now.vnodes == start.vnodes
      invariant IdsOf(now.members) == IdsOf(s.members) * IdsOf(members) + IdsOf(members[..i])
      invariant forall n :: n in now.members <==> Standing(s.members, members, i, n)
      invariant forall j :: 0 <= j < i ==> Joins(s.members, members, j)
    {
      PrefixIds(members, i);
      ProgressIs(s, now);
      AddVerdict(now, s.members, members, i);
      var added := ClusterState.Apply(now, AddShard(members[i]));
      if added.Refused? {
        NotAllJoin(s.members, members, i);
        return None;
      }
      AddLists(now, s.members, members, i);
      AddMakesProgress(s, now, members[i], IdsOf(members));
      SettleIs(now, added);
      now := if added.Changed? then added.state else now;
    }
    TheyAllJoin(s.members, members);
    forall n
      ensures n in now.members <==> LastSaid(members, n)
    {
      StandingAtTheEnd(s.members, members, n);
    }
    next := Some(now);
  }

  lemma NotAllJoin(before: seq<Node>, members: seq<Node>, i: nat)
    requires i < |members| && !Joins(before, members, i)
    ensures !AllJoin(before, members)
  {
  }

  lemma TheyAllJoin(before: seq<Node>, members: seq<Node>)
    requires forall i :: 0 <= i < |members| ==> Joins(before, members, i)
    ensures AllJoin(before, members)
  {
  }

  lemma SettleIs(s: State, v: Verdict)
    ensures Settle(s, v) == if v.Changed? then v.state else s
  {
  }

  class View {
    const hashes: Hashing
    const self: string
    var current: Snapshot

    ghost predicate Valid()
      reads this
    {
      Coherent(hashes, self, current)
    }

    constructor Of(hashing: Hashing, id: string, snap: Snapshot)
      requires Coherent(hashing, id, snap)
      ensures Valid() && hashes == hashing && self == id && current == snap
    {
      hashes, self, current := hashing, id, snap;
    }

    /** Installs a committed state, or refuses one that leaves this node out or has no ring. */
    method Adopt(s: State) returns (ok: bool)
      requires Valid()
      modifies this
      ensures Valid()
      ensures ok <==> Adoptable(self, s)
      ensures if ok then current.state == s else current == old(current)
    {
      var has := HasLoop(s, self);
      HasIsMembership(s.members, self);
      if !has {
        return false;
      }
      var b := New(hashes, s.members, s.vnodes);
      if b.Failed? {
        return false;
      }
      current := Snapshot(s, b.ring);
      ok := true;
    }

    /** Who coordinates a tenant, and whether that is this node. */
    method Owner(tenant: string) returns (node: Node, isSelf: bool)
      requires Valid()
      ensures node in current.state.members
      ensures Owns(hashes, IdsOf(current.state.members), EffectiveVNodes(current.state.vnodes), tenant, node.id)
      ensures isSelf <==> node.id == self
    {
      node := Rings.Owner(hashes, current.ring, tenant);
      InMultiset(current.ring.nodes, current.state.members, node);
      isSelf := node.id == self;
    }

    /** Swaps in a configured membership by way of the entries that would have produced it. */
    method Replace(members: seq<Node>, vnodes: int) returns (ok: bool)
      requires Valid() && Sound(current.state)
      modifies this
      ensures Valid() && Sound(current.state)
      ensures ok <==>
                && AllJoin(old(current.state.members), members) && self in IdsOf(members)
                && vnodes <= MAX_VNODES && (vnodes == old(current.state.vnodes) || 0 <= vnodes)
      ensures !ok ==> current == old(current)
      ensures ok ==>
                var s, t := old(current.state), current.state;
                && (forall n :: n in t.members <==> LastSaid(members, n))
                && IdsOf(t.members) == IdsOf(members) && t.vnodes == vnodes
                && t.policyGen == s.policyGen && t.storeGen == s.storeGen && s.ringEpoch <= t.ringEpoch
                && (t.ringEpoch == s.ringEpoch <==> IdsOf(t.members) == IdsOf(s.members) && t.vnodes == s.vnodes)
    {
      hide *;
      var s := current.state;
      NoProgressYet(s);
      var next := Depart(s, members);
      var joined := Join(s, next, members);
      if joined.None? {
        return false;
      }
      next := joined.value;
      ProgressIs(s, next);
      VNodesVerdict(next, vnodes);
      if vnodes != next.vnodes {
        var v := ClusterState.Apply(next, SetVNodes(vnodes));
        if v.Refused? {
          return false;
        }
        VNodesMakeProgress(next, vnodes);
        next := v.state;
      }
      AdoptsASound(self, next);
      ok := Adopt(next);
    }
  }

  /** A view with a configured membership, applied as entries. Without an id of its own, a place
      in the membership or a ring there is none. */
  method NewView(hashing: Hashing, id: string, members: seq<Node>, vnodes: int) returns (v: View?)
    ensures v != null <==> id != "" && id in IdsOf(members) && vnodes <= MAX_VNODES && AllJoin([], members)
    ensures v != null ==>
              && fresh(v) && v.Valid() && v.hashes == hashing && v.self == id && Sound(v.current.state)
              && (forall n :: n in v.current.state.members <==> LastSaid(members, n))
              && IdsOf(v.current.state.members) == IdsOf(members) && v.current.state.vnodes == vnodes
  {
    hide LastSaid;
    hide Joins;
    hide AllJoin;
    if id == "" {
      return null;
    }
    var start := State([], vnodes, 0, 0, 0);
    assert IdsOf(start.members) == {};
    NoProgressYet(start);
    forall n
      ensures n in start.members <==> Standing(start.members, members, 0, n)
    {
      StandingAtTheStart(start.members, members, n);
    }
    var joined := Join(start, start, members);
    if joined.None? {
      return null;
    }
    var s := joined.value;
    ProgressIs(start, s);
    AdoptsASound(id, s);
    var has := HasLoop(s, id);
    HasIsMembership(s.members, id);
    if !has {
      return null;
    }
    var b := New(hashing, s.members, s.vnodes);
    if b.Failed? {
      return null;
    }
    v := new View.Of(hashing, id, Snapshot(s, b.ring));
  }
}
