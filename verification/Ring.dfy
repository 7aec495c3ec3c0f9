/** Byte-wise string order, as Go's `<` on strings. */
module Order {
  predicate Less(a: string, b: string) {
    b != "" && (a == "" || a[0] < b[0] || (a[0] == b[0] && Less(a[1..], b[1..])))
  }

  predicate AtMost(a: string, b: string) {
    a == b || Less(a, b)
  }

  /** The first place where two strings differ decides, and a string comes before its extensions. */
  predicate DiffersAt(a: string, b: string, k: nat) {
    && k <= |a| && k < |b| && a[..k] == b[..k]
    && (k < |a| ==> a[k] < b[k])
  }

  lemma {:induction false} LessIsLexicographic(a: string, b: string)
    ensures Less(a, b) <==> exists k: nat :: DiffersAt(a, b, k)
  {
    if a != "" && b != "" && a[0] == b[0] {
      LessIsLexicographic(a[1..], b[1..]);
      if Less(a, b) {
        var k: nat :| DiffersAt(a[1..], b[1..], k);
        assert a[..k + 1] == [a[0]] + a[1..][..k] && b[..k + 1] == [b[0]] + b[1..][..k];
        assert DiffersAt(a, b, k + 1);
      }
      if k: nat :| DiffersAt(a, b, k) {
        assert a[..k][1..] == a[1..][..k - 1] && b[..k][1..] == b[1..][..k - 1];
        assert DiffersAt(a[1..], b[1..], k - 1);
      }
    } else {
      assert Less(a, b) ==> DiffersAt(a, b, 0);
      if k: nat :| DiffersAt(a, b, k) && k > 0 {
        assert a[..k][0] == b[..k][0];
      }
    }
  }

  lemma {:induction false} LessIsTotal(a: string, b: string)
    ensures a == b || Less(a, b) || Less(b, a)
  {
    if a != "" && b != "" && a[0] == b[0] {
      LessIsTotal(a[1..], b[1..]);
      assert a == [a[0]] + a[1..] && b == [b[0]] + b[1..];
    }
  }

  lemma {:induction false} LessIsAsymmetric(a: string, b: string)
    requires Less(a, b)
    ensures !Less(b, a) && a != b
  {
    if a != "" && a[0] == b[0] {
      LessIsAsymmetric(a[1..], b[1..]);
    }
  }

  lemma {:induction false} LessIsTransitive(a: string, b: string, c: string)
    requires Less(a, b) && Less(b, c)
    ensures Less(a, c)
  {
    if a != "" && a[0] == b[0] && b[0] == c[0] {
      LessIsTransitive(a[1..], b[1..], c[1..]);
    }
  }
}

/** The consistent hash of internal/ring/ring.go. The two hash functions are parameters, so
    everything here holds whatever they collide on. */
module Rings {
  import opened Order
  import opened Limits

  const DEFAULT_VNODES := 256
  const MAX_VNODES := 4096

  datatype Node = Node(id: string, addr: string)

  /** `node` is an index into the ring's nodes. */
  datatype Point = Point(hash: nat, node: nat)

  datatype Ring = Ring(vnodes: nat, nodes: seq<Node>, points: seq<Point>)

  /** Where the i-th virtual node of an id, and where a key, sit on the ring. */
  datatype Hashing = Hashing(vnode: (string, nat) -> nat, key: string -> nat)

  datatype RingError = NoNodes | TooManyVNodes | EmptyId | SharedId

  datatype Building = Built(ring: Ring) | Failed(error: RingError)

  function IdsOf(nodes: seq<Node>): set<string> {
    set n | n in nodes :: n.id
  }

  function EffectiveVNodes(vnodes: int): nat {
    if vnodes <= 0 then DEFAULT_VNODES else vnodes
  }

  /* ---------- who owns a key, said without a ring ---------- */

  datatype Spot = Spot(hash: nat, id: string)

  /** Walking upwards from `h` and wrapping, `a` comes no later than `b`; equal hashes go by id. */
  predicate NoLater(h: nat, a: Spot, b: Spot) {
    if (a.hash < h) != (b.hash < h) then a.hash >= h
    else a.hash < b.hash || (a.hash == b.hash && AtMost(a.id, b.id))
  }

  ghost predicate First(hashes: Hashing, ids: set<string>, vnodes: nat, h: nat, spot: Spot) {
    forall j, w :: j in ids && 0 <= w < vnodes ==> NoLater(h, spot, Spot(hashes.vnode(j, w), j))
  }

  /** `id` holds the first virtual node at or after the key among those of the member ids. */
  ghost predicate Owns(hashes: Hashing, ids: set<string>, vnodes: nat, key: string, id: string) {
    && id in ids
    && exists v :: 0 <= v < vnodes && First(hashes, ids, vnodes, hashes.key(key), Spot(hashes.vnode(id, v), id))
  }

  lemma NoLaterIsTotal(h: nat, a: Spot, b: Spot)
    ensures NoLater(h, a, b) || NoLater(h, b, a)
  {
    LessIsTotal(a.id, b.id);
  }

  lemma NoLaterIsAntisymmetric(h: nat, a: Spot, b: Spot)
    requires NoLater(h, a, b) && NoLater(h, b, a)
    ensures a == b
  {
    if Less(a.id, b.id) {
      LessIsAsymmetric(a.id, b.id);
    }
  }

  lemma NoLaterIsTransitive(h: nat, a: Spot, b: Spot, c: Spot)
    requires NoLater(h, a, b) && NoLater(h, b, c)
    ensures NoLater(h, a, c)
  {
    if Less(a.id, b.id) && Less(b.id, c.id) {
      LessIsTransitive(a.id, b.id, c.id);
    }
  }

  /** Ownership is a function of the ids, the virtual node count and the key alone: no order of
      members, no address and no collision can make two nodes own a key. */
  lemma OneOwner(hashes: Hashing, ids: set<string>, vnodes: nat, key: string, a: string, b: string)
    requires Owns(hashes, ids, vnodes, key, a) && Owns(hashes, ids, vnodes, key, b)
    ensures a == b
  {
    var h := hashes.key(key);
    var v :| 0 <= v < vnodes && First(hashes, ids, vnodes, h, Spot(hashes.vnode(a, v), a));
    var w :| 0 <= w < vnodes && First(hashes, ids, vnodes, h, Spot(hashes.vnode(b, w), b));
    NoLaterIsAntisymmetric(h, Spot(hashes.vnode(a, v), a), Spot(hashes.vnode(b, w), b));
  }

  /** In plain numbers: the owner holds the lowest virtual node at or above the key, or the lowest
      of all when there is none above, and of those who hold that same number it has the least id. */
  lemma OwnerInPlainTerms(hashes: Hashing, ids: set<string>, vnodes: nat, key: string, id: string)
    ensures Owns(hashes, ids, vnodes, key, id)
            <==> && id in ids
                 && exists v :: 0 <= v < vnodes
                                && Lowest(hashes, ids, vnodes, hashes.key(key), hashes.vnode(id, v), id)
  {
    if Owns(hashes, ids, vnodes, key, id) {
      var v :| 0 <= v < vnodes && First(hashes, ids, vnodes, hashes.key(key), Spot(hashes.vnode(id, v), id));
      assert Lowest(hashes, ids, vnodes, hashes.key(key), hashes.vnode(id, v), id);
    }
    if v :| id in ids && 0 <= v < vnodes && Lowest(hashes, ids, vnodes, hashes.key(key), hashes.vnode(id, v), id) {
      assert First(hashes, ids, vnodes, hashes.key(key), Spot(hashes.vnode(id, v), id));
    }
  }

  ghost predicate Lowest(hashes: Hashing, ids: set<string>, vnodes: nat, h: nat, p: nat, id: string) {
    forall j, w :: j in ids && 0 <= w < vnodes ==>
      var other := hashes.vnode(j, w);
      && (p >= h ==> other >= h ==> p < other || (p == other && AtMost(id, j)))
      && (p < h ==> other < h && (p < other || (p == other && AtMost(id, j))))
  }

  /** Removing a node moves only the keys it owned. */
  lemma RemovingMovesOnlyItsKeys(hashes: Hashing, ids: set<string>, vnodes: nat, key: string, owner: string,
      gone: string)
    requires Owns(hashes, ids, vnodes, key, owner) && gone != owner
    ensures Owns(hashes, ids - {gone}, vnodes, key, owner)
  {
    var v :| 0 <= v < vnodes && First(hashes, ids, vnodes, hashes.key(key), Spot(hashes.vnode(owner, v), owner));
    assert First(hashes, ids - {gone}, vnodes, hashes.key(key), Spot(hashes.vnode(owner, v), owner));
  }

  /** Adding a node moves keys only to it. */
  lemma AddingMovesKeysOnlyToIt(hashes: Hashing, ids: set<string>, vnodes: nat, key: string, owner: string,
      joined: string)
    requires Owns(hashes, ids + {joined}, vnodes, key, owner) && owner != joined && joined !in ids
    ensures Owns(hashes, ids, vnodes, key, owner)
  {
    RemovingMovesOnlyItsKeys(hashes, ids + {joined}, vnodes, key, owner, joined);
    assert ids + {joined} - {joined} == ids;
  }

  /** A list in replication order: each next one owns the key once those before it have left. */
  ghost predicate Succession(hashes: Hashing, ids: set<string>, vnodes: nat, key: string, list: seq<string>) {
    forall k :: 0 <= k < |list| ==> Owns(hashes, ids - Taken(list, k), vnodes, key, list[k])
  }

  function Taken(list: seq<string>, k: nat): set<string>
    requires k <= |list|
  {
    set i | 0 <= i < k :: list[i]
  }

  lemma SuccessionIsDistinct(hashes: Hashing, ids: set<string>, vnodes: nat, key: string, list: seq<string>)
    requires Succession(hashes, ids, vnodes, key, list)
    ensures forall i, j :: 0 <= i < j < |list| ==> list[i] != list[j]
    ensures forall i :: 0 <= i < |list| ==> list[i] in ids
  {
    forall i, j | 0 <= i < j < |list|
      ensures list[i] != list[j]
    {
      assert Owns(hashes, ids - Taken(list, j), vnodes, key, list[j]);
      assert list[i] in Taken(list, j);
    }
    forall i | 0 <= i < |list|
      ensures list[i] in ids
    {
      assert Owns(hashes, ids - Taken(list, i), vnodes, key, list[i]);
    }
  }

  /** The tail of a succession is the succession of the ring without the owner. */
  lemma SuccessionTail(hashes: Hashing, ids: set<string>, vnodes: nat, key: string, list: seq<string>)
    requires Succession(hashes, ids, vnodes, key, list) && list != []
    ensures Owns(hashes, ids, vnodes, key, list[0])
    ensures Succession(hashes, ids - {list[0]}, vnodes, key, list[1..])
  {
    assert ids - Taken(list, 0) == ids;
    var rest := list[1..];
    forall k | 0 <= k < |rest|
      ensures Owns(hashes, ids - {list[0]} - Taken(rest, k), vnodes, key, rest[k])
    {
      assert Owns(hashes, ids - Taken(list, k + 1), vnodes, key, list[k + 1]);
      assert Taken(list, k + 1) == {list[0]} + Taken(rest, k) by {
        forall x | x in Taken(list, k + 1)
          ensures x in {list[0]} + Taken(rest, k)
        {
          var i :| 0 <= i < k + 1 && list[i] == x;
          if i > 0 {
            assert rest[i - 1] == x;
          }
        }
        assert forall i :: 0 <= i < k ==> rest[i] == list[i + 1];
      }
      assert ids - Taken(list, k + 1) == ids - {list[0]} - Taken(rest, k);
    }
  }

  /** Successions of one length over one set of ids are one list. */
  lemma {:induction false} OneSuccession(hashes: Hashing, ids: set<string>, vnodes: nat, key: string, a: seq<string>,
      b: seq<string>)
    requires Succession(hashes, ids, vnodes, key, a) && Succession(hashes, ids, vnodes, key, b) && |a| == |b|
    ensures a == b
    decreases |a|
  {
    if a != [] {
      SuccessionTail(hashes, ids, vnodes, key, a);
      SuccessionTail(hashes, ids, vnodes, key, b);
      OneOwner(hashes, ids, vnodes, key, a[0], b[0]);
      OneSuccession(hashes, ids - {a[0]}, vnodes, key, a[1..], b[1..]);
      assert a == [a[0]] + a[1..] && b == [b[0]] + b[1..];
    }
  }

  /** So what follows the owner is who would be asked if it left. */
  lemma TailIsTheRingWithoutTheOwner(hashes: Hashing, ids: set<string>, vnodes: nat, key: string, list: seq<string>,
      rest: seq<string>)
    requires Succession(hashes, ids, vnodes, key, list) && list != []
    requires Succession(hashes, ids - {list[0]}, vnodes, key, rest) && |rest| == |list| - 1
    ensures list[1..] == rest
  {
    SuccessionTail(hashes, ids, vnodes, key, list);
    OneSuccession(hashes, ids - {list[0]}, vnodes, key, list[1..], rest);
  }

  /* ---------- the ring as built ---------- */

  ghost predicate NodesSorted(nodes: seq<Node>) {
    forall i, j :: 0 <= i < j < |nodes| ==> AtMost(nodes[i].id, nodes[j].id)
  }

  ghost predicate StrictlySorted(nodes: seq<Node>) {
    forall i, j :: 0 <= i < j < |nodes| ==> Less(nodes[i].id, nodes[j].id)
  }

  function InsertNode(sorted: seq<Node>, n: Node): (r: seq<Node>)
    ensures multiset(r) == multiset(sorted) + multiset{n}
  {
    if sorted == [] || AtMost(n.id, sorted[0].id) then [n] + sorted
    else
      assert sorted == [sorted[0]] + sorted[1..];
      [sorted[0]] + InsertNode(sorted[1..], n)
  }

  /** Sorts by id. */
  function SortNodes(nodes: seq<Node>): (r: seq<Node>)
    ensures multiset(r) == multiset(nodes)
  {
    if nodes == [] then []
    else
      assert nodes == [nodes[0]] + nodes[1..];
      InsertNode(SortNodes(nodes[1..]), nodes[0])
  }

  lemma AtMostIsTransitive(a: string, b: string, c: string)
    requires AtMost(a, b) && AtMost(b, c)
    ensures AtMost(a, c)
  {
    if Less(a, b) && Less(b, c) {
      LessIsTransitive(a, b, c);
    }
  }

  lemma HeadFirst(n: Node, rest: seq<Node>)
    requires NodesSorted(rest) && forall m :: m in rest ==> AtMost(n.id, m.id)
    ensures NodesSorted([n] + rest)
  {
    var all := [n] + rest;
    forall i, j | 0 <= i < j < |all|
      ensures AtMost(all[i].id, all[j].id)
    {
      assert all[j] == rest[j - 1] && rest[j - 1] in rest;
      if i > 0 {
        assert all[i] == rest[i - 1];
      }
    }
  }

  lemma InMultiset<T>(a: seq<T>, b: seq<T>, x: T)
    requires multiset(a) == multiset(b)
    ensures x in a <==> x in b
  {
    assert x in multiset(a) <==> x in multiset(b);
  }

  lemma {:induction false} InsertKeepsOrder(sorted: seq<Node>, n: Node)
    requires NodesSorted(sorted)
    ensures NodesSorted(InsertNode(sorted, n))
  {
    if sorted == [] {
    } else if AtMost(n.id, sorted[0].id) {
      forall m | m in sorted
        ensures AtMost(n.id, m.id)
      {
        AtMostIsTransitive(n.id, sorted[0].id, m.id);
      }
      HeadFirst(n, sorted);
    } else {
      LessIsTotal(n.id, sorted[0].id);
      var rest := InsertNode(sorted[1..], n);
      InsertKeepsOrder(sorted[1..], n);
      forall m | m in rest
        ensures AtMost(sorted[0].id, m.id)
      {
        assert m in multiset(rest);
        assert m in sorted[1..] || m == n;
      }
      HeadFirst(sorted[0], rest);
    }
  }

  lemma {:induction false} SortedByIds(nodes: seq<Node>)
    ensures NodesSorted(SortNodes(nodes))
  {
    if nodes != [] {
      SortedByIds(nodes[1..]);
      InsertKeepsOrder(SortNodes(nodes[1..]), nodes[0]);
    }
  }

  /** Two strictly sorted lists of the same nodes are the same list. */
  lemma {:induction false} OneSortedList(a: seq<Node>, b: seq<Node>)
    requires StrictlySorted(a) && StrictlySorted(b) && forall n :: n in a <==> n in b
    ensures a == b
  {
    assert a != [] ==> a[0] in b;
    assert b != [] ==> b[0] in a;
    if a != [] && b != [] {
      SmallestFirst(a, b);
      assert a[0] == b[0];
      forall n: Node
        ensures n in a[1..] <==> n in b[1..]
      {
        TailMembers(a, n);
        TailMembers(b, n);
      }
      OneSortedList(a[1..], b[1..]);
      assert a == [a[0]] + a[1..] && b == [b[0]] + b[1..];
    }
  }

  lemma SmallestFirst(a: seq<Node>, b: seq<Node>)
    requires StrictlySorted(a) && StrictlySorted(b) && a != [] && b != [] && a[0] in b && b[0] in a
    ensures a[0] == b[0]
  {
    if a[0] != b[0] {
      var i :| 0 <= i < |a| && a[i] == b[0];
      var j :| 0 <= j < |b| && b[j] == a[0];
      LessIsAsymmetric(a[0].id, b[0].id);
    }
  }

  lemma TailMembers(a: seq<Node>, n: Node)
    requires StrictlySorted(a) && a != []
    ensures n in a[1..] <==> n in a && n != a[0]
  {
    assert a == [a[0]] + a[1..];
    if n in a[1..] {
      var i :| 0 <= i < |a[1..]| && a[1..][i] == n;
      LessIsAsymmetric(a[0].id, a[i + 1].id);
    }
  }

  /* ---------- points ---------- */

  function SpotOf(nodes: seq<Node>, p: Point): Spot
    requires p.node < |nodes|
  {
    Spot(p.hash, nodes[p.node].id)
  }

  predicate Indexed(nodes: seq<Node>, points: seq<Point>) {
    forall i :: 0 <= i < |points| ==> points[i].node < |nodes|
  }

  /** The order of the point array: by hash, collisions by id. That is the walk from zero. */
  ghost predicate PointsSorted(nodes: seq<Node>, points: seq<Point>) {
    Indexed(nodes, points)
    && forall i, j :: 0 <= i < j < |points| ==> NoLater(0, SpotOf(nodes, points[i]), SpotOf(nodes, points[j]))
  }

  function InsertPoint(nodes: seq<Node>, sorted: seq<Point>, p: Point): (r: seq<Point>)
    requires Indexed(nodes, sorted) && p.node < |nodes|
    ensures multiset(r) == multiset(sorted) + multiset{p} && Indexed(nodes, r)
  {
    if sorted == [] || NoLater(0, SpotOf(nodes, p), SpotOf(nodes, sorted[0])) then [p] + sorted
    else
      assert sorted == [sorted[0]] + sorted[1..];
      [sorted[0]] + InsertPoint(nodes, sorted[1..], p)
  }

  function SortPoints(nodes: seq<Node>, points: seq<Point>): (r: seq<Point>)
    requires Indexed(nodes, points)
    ensures multiset(r) == multiset(points) && Indexed(nodes, r)
  {
    if points == [] then []
    else
      assert points == [points[0]] + points[1..];
      InsertPoint(nodes, SortPoints(nodes, points[1..]), points[0])
  }

  lemma FirstPoint(nodes: seq<Node>, p: Point, rest: seq<Point>)
    requires PointsSorted(nodes, rest) && p.node < |nodes|
    requires forall q :: q in rest ==> q.node < |nodes| && NoLater(0, SpotOf(nodes, p), SpotOf(nodes, q))
    ensures PointsSorted(nodes, [p] + rest)
  {
    var all := [p] + rest;
    forall i, j | 0 <= i < j < |all|
      ensures NoLater(0, SpotOf(nodes, all[i]), SpotOf(nodes, all[j]))
    {
      assert all[j] == rest[j - 1] && rest[j - 1] in rest;
      if i > 0 {
        assert all[i] == rest[i - 1];
      }
    }
  }

  lemma {:induction false} InsertPointKeepsOrder(nodes: seq<Node>, sorted: seq<Point>, p: Point)
    requires PointsSorted(nodes, sorted) && p.node < |nodes|
    ensures PointsSorted(nodes, InsertPoint(nodes, sorted, p))
  {
    if sorted == [] {
    } else if NoLater(0, SpotOf(nodes, p), SpotOf(nodes, sorted[0])) {
      forall q | q in sorted
        ensures NoLater(0, SpotOf(nodes, p), SpotOf(nodes, q))
      {
        if q != sorted[0] {
          NoLaterIsTransitive(0, SpotOf(nodes, p), SpotOf(nodes, sorted[0]), SpotOf(nodes, q));
        }
      }
      FirstPoint(nodes, p, sorted);
    } else {
      NoLaterIsTotal(0, SpotOf(nodes, p), SpotOf(nodes, sorted[0]));
      var rest := InsertPoint(nodes, sorted[1..], p);
      InsertPointKeepsOrder(nodes, sorted[1..], p);
      forall q | q in rest
        ensures q.node < |nodes| && NoLater(0, SpotOf(nodes, sorted[0]), SpotOf(nodes, q))
      {
        assert q in multiset(rest);
        assert q in sorted[1..] || q == p;
      }
      FirstPoint(nodes, sorted[0], rest);
    }
  }

  lemma {:induction false} PointsAreSorted(nodes: seq<Node>, points: seq<Point>)
    requires Indexed(nodes, points)
    ensures PointsSorted(nodes, SortPoints(nodes, points))
  {
    if points != [] {
      PointsAreSorted(nodes, points[1..]);
      InsertPointKeepsOrder(nodes, SortPoints(nodes, points[1..]), points[0]);
    }
  }

  /** Point `p` is one of the virtual nodes of its node. */
  ghost predicate Hashed(hashes: Hashing, nodes: seq<Node>, vnodes: nat, p: Point) {
    p.node < |nodes| && exists v :: 0 <= v < vnodes && p.hash == hashes.vnode(nodes[p.node].id, v)
  }

  /** The ring of a set of members: every virtual node of every member, in walking order. */
  ghost predicate WellBuilt(hashes: Hashing, r: Ring) {
    && r.nodes != [] && 0 < r.vnodes && StrictlySorted(r.nodes)
    && PointsSorted(r.nodes, r.points)
    && (forall p :: p in r.points ==> Hashed(hashes, r.nodes, r.vnodes, p))
    && (forall i, v :: 0 <= i < |r.nodes| && 0 <= v < r.vnodes ==> Point(hashes.vnode(r.nodes[i].id, v), i) in r.points)
  }

  predicate DistinctIds(nodes: seq<Node>) {
    forall i, j :: 0 <= i < j < |nodes| ==> nodes[i].id != nodes[j].id
  }

  lemma StrictBecauseDistinct(nodes: seq<Node>)
    requires NodesSorted(nodes) && DistinctIds(nodes)
    ensures StrictlySorted(nodes)
  {
  }

  /** Every virtual node of every member, in no particular order. */
  method Points(hashes: Hashing, nodes: seq<Node>, vnodes: nat) returns (points: seq<Point>)
    ensures Indexed(nodes, points)
    ensures forall p :: p in points ==> Hashed(hashes, nodes, vnodes, p)
    ensures forall i, v :: 0 <= i < |nodes| && 0 <= v < vnodes ==> Point(hashes.vnode(nodes[i].id, v), i) in points
  {
    points := [];
    for i := 0 to |nodes|
      invariant Indexed(nodes, points)
      invariant forall p :: p in points ==> Hashed(hashes, nodes, vnodes, p)
      invariant forall j, v :: 0 <= j < i && 0 <= v < vnodes ==> Point(hashes.vnode(nodes[j].id, v), j) in points
    {
      for v := 0 to vnodes
        invariant Indexed(nodes, points)
        invariant forall p :: p in points ==> Hashed(hashes, nodes, vnodes, p)
        invariant forall j, w :: 0 <= j < i && 0 <= w < vnodes ==> Point(hashes.vnode(nodes[j].id, w), j) in points
        invariant forall w :: 0 <= w < v ==> Point(hashes.vnode(nodes[i].id, w), i) in points
      {
        points := points + [Point(hashes.vnode(nodes[i].id, v), i)];
      }
    }
  }

  /** The loop over the sorted members that refuses a bad id. */
  method ScreenIds(sorted: seq<Node>) returns (problem: Option<RingError>)
    requires NodesSorted(sorted)
    ensures problem == None <==> (forall n :: n in sorted ==> n.id != "") && DistinctIds(sorted)
    ensures problem == Some(EmptyId) <==> exists n :: n in sorted && n.id == ""
    ensures problem.None? || problem == Some(EmptyId) || problem == Some(SharedId)
  {
    var seen: set<string> := {};
    for i := 0 to |sorted|
      invariant seen == set j | 0 <= j < i :: sorted[j].id
      invariant forall j :: 0 <= j < i ==> sorted[j].id != ""
      invariant DistinctIds(sorted[..i])
    {
      if sorted[i].id == "" {
        return Some(EmptyId);
      }
      if sorted[i].id in seen {
        var j :| 0 <= j < i && sorted[j].id == sorted[i].id;
        EmptyComesFirst(sorted);
        return Some(SharedId);
      }
      seen := seen + {sorted[i].id};
    }
    assert sorted[..|sorted|] == sorted;
    problem := None;
  }

  lemma EmptyComesFirst(sorted: seq<Node>)
    requires NodesSorted(sorted) && sorted != []
    ensures (exists n :: n in sorted && n.id == "") <==> sorted[0].id == ""
  {
    if n :| n in sorted && n.id == "" {
      var i :| 0 <= i < |sorted| && sorted[i] == n;
    }
  }

  lemma {:induction false} DistinctInAnyOrder(a: seq<Node>, b: seq<Node>)
    requires multiset(a) == multiset(b) && DistinctIds(a)
    ensures DistinctIds(b)
  {
    forall i, j | 0 <= i < j < |b|
      ensures b[i].id != b[j].id
    {
      InMultiset(a, b, b[i]);
      InMultiset(a, b, b[j]);
      var x :| 0 <= x < |a| && a[x] == b[i];
      var y :| 0 <= y < |a| && a[y] == b[j];
      if b[i].id == b[j].id {
        assert x == y;
        TwiceInside(b, i, j);
        OnceInside(a, x);
      }
    }
  }

  lemma TwiceInside<T>(s: seq<T>, i: nat, j: nat)
    requires i < j < |s| && s[i] == s[j]
    ensures multiset(s)[s[i]] >= 2
  {
    assert s == s[..j] + [s[j]] + s[j + 1..];
    assert s[i] in s[..j];
    assert multiset(s) == multiset(s[..j]) + multiset{s[j]} + multiset(s[j + 1..]);
  }

  lemma OnceInside(s: seq<Node>, x: nat)
    requires DistinctIds(s) && x < |s|
    ensures multiset(s)[s[x]] == 1
  {
    assert s == s[..x] + [s[x]] + s[x + 1..];
    assert multiset(s) == multiset(s[..x]) + multiset{s[x]} + multiset(s[x + 1..]);
    assert s[x] !in s[..x] && s[x] !in s[x + 1..];
  }

  /** Builds the ring, or says why there is none. */
  method New(hashes: Hashing, nodes: seq<Node>, vnodes: int) returns (b: Building)
    ensures b == Failed(NoNodes) <==> nodes == []
    ensures b == Failed(TooManyVNodes) <==> nodes != [] && vnodes > MAX_VNODES
    ensures b == Failed(EmptyId) <==> nodes != [] && vnodes <= MAX_VNODES && exists n :: n in nodes && n.id == ""
    ensures b.Built? <==>
              nodes != [] && vnodes <= MAX_VNODES && (forall n :: n in nodes ==> n.id != "") && DistinctIds(nodes)
    ensures b.Built? ==>
              && WellBuilt(hashes, b.ring) && b.ring.vnodes == EffectiveVNodes(vnodes)
              && b.ring.vnodes == (if vnodes > 0 then vnodes else 256)
              && multiset(b.ring.nodes) == multiset(nodes) && IdsOf(b.ring.nodes) == IdsOf(nodes)
  {
    if nodes == [] {
      return Failed(NoNodes);
    }
    var each := if vnodes <= 0 then DEFAULT_VNODES else vnodes;
    if each > MAX_VNODES {
      return Failed(TooManyVNodes);
    }
    var sorted := SortNodes(nodes);
    SortedByIds(nodes);
    forall n
      ensures n in sorted <==> n in nodes
    {
      InMultiset(sorted, nodes, n);
    }
    SameDistinctness(nodes, sorted);
    var problem := ScreenIds(sorted);
    if problem.Some? {
      return Failed(problem.value);
    }
    var points := Points(hashes, sorted, each);
    var ring := Ring(each, sorted, SortPoints(sorted, points));
    SortedIsWellBuilt(hashes, sorted, each, points);
    b := Built(ring);
  }

  lemma SameDistinctness(a: seq<Node>, b: seq<Node>)
    requires multiset(a) == multiset(b)
    ensures DistinctIds(a) <==> DistinctIds(b)
    ensures |a| == |b|
  {
    if DistinctIds(a) {
      DistinctInAnyOrder(a, b);
    }
    if DistinctIds(b) {
      DistinctInAnyOrder(b, a);
    }
    assert |multiset(a)| == |a| && |multiset(b)| == |b|;
  }

  lemma SortedIsWellBuilt(hashes: Hashing, nodes: seq<Node>, vnodes: nat, points: seq<Point>)
    requires nodes != [] && 0 < vnodes && NodesSorted(nodes) && DistinctIds(nodes) && Indexed(nodes, points)
    requires forall p :: p in points ==> Hashed(hashes, nodes, vnodes, p)
    requires forall i, v :: 0 <= i < |nodes| && 0 <= v < vnodes ==> Point(hashes.vnode(nodes[i].id, v), i) in points
    ensures WellBuilt(hashes, Ring(vnodes, nodes, SortPoints(nodes, points)))
  {
    hide Hashed;
    hide SortPoints;
    var sorted := SortPoints(nodes, points);
    StrictBecauseDistinct(nodes);
    PointsAreSorted(nodes, points);
    forall p
      ensures p in sorted <==> p in points
    {
      InMultiset(sorted, points, p);
    }
  }

  /** The first `near` points lie before `h`, the rest at or after it. */
  ghost predicate Splits(r: Ring, h: nat, near: nat) {
    && near <= |r.points|
    && (forall i :: 0 <= i < near ==> r.points[i].hash < h)
    && (forall i :: near <= i < |r.points| ==> r.points[i].hash >= h)
  }

  /** Binary search for the first point at or after `h`; past the last point it wraps. */
  method Search(r: Ring, h: nat) returns (start: nat)
    requires PointsSorted(r.nodes, r.points) && r.points != []
    ensures exists near: nat :: Splits(r, h, near) && start == if near == |r.points| then 0 else near
  {
    var lo, hi := 0, |r.points|;
    while lo < hi
      invariant 0 <= lo <= hi <= |r.points|
      invariant forall i :: 0 <= i < lo ==> r.points[i].hash < h
      invariant forall i :: hi <= i < |r.points| ==> r.points[i].hash >= h
    {
      var mid := (lo + hi) / 2;
      if r.points[mid].hash >= h {
        forall i | mid <= i < |r.points|
          ensures r.points[i].hash >= h
        {
          assert mid < i ==> NoLater(0, SpotOf(r.nodes, r.points[mid]), SpotOf(r.nodes, r.points[i]));
        }
        hi := mid;
      } else {
        forall i | 0 <= i <= mid
          ensures r.points[i].hash < h
        {
          assert i < mid ==> NoLater(0, SpotOf(r.nodes, r.points[i]), SpotOf(r.nodes, r.points[mid]));
        }
        lo := mid + 1;
      }
    }
    assert Splits(r, h, lo);
    start := if lo == |r.points| then 0 else lo;
  }

  /** The index of the a-th point of the walk. */
  function Walk(n: nat, near: nat, a: nat): (i: nat)
    requires near <= n && a < n
    ensures i < n
  {
    if near + a < n then near + a else near + a - n
  }

  lemma OnceAround(x: int, n: int)
    requires 0 < n <= x < 2 * n
    ensures x % n == x - n
  {
    assert x / n == 1;
  }

  lemma WalkWraps(n: nat, near: nat, a: nat)
    requires near <= n && a < n
    ensures ((if near == n then 0 else near) + a) % n == Walk(n, near, a)
  {
    var start := if near == n then 0 else near;
    if start + a >= n {
      OnceAround(start + a, n);
    } else {
      assert (start + a) % n == start + a;
    }
  }

  lemma WalkCovers(n: nat, near: nat, i: nat) returns (a: nat)
    requires near <= n && i < n
    ensures a < n && Walk(n, near, a) == i
  {
    a := if i >= near then i - near else i + n - near;
  }

  /** Walking from the start visits the points in the key's own order. */
  lemma WalkIsOrdered(r: Ring, h: nat, near: nat, a: nat, b: nat)
    requires PointsSorted(r.nodes, r.points) && Splits(r, h, near) && a <= b < |r.points|
    ensures var n := |r.points|;
            NoLater(h, SpotOf(r.nodes, r.points[Walk(n, near, a)]), SpotOf(r.nodes, r.points[Walk(n, near, b)]))
  {
    var n := |r.points|;
    var i, j := Walk(n, near, a), Walk(n, near, b);
    if i < j {
      assert NoLater(0, SpotOf(r.nodes, r.points[i]), SpotOf(r.nodes, r.points[j]));
    }
  }

  lemma NodeIndex(r: Ring, id: string) returns (i: nat)
    requires id in IdsOf(r.nodes)
    ensures i < |r.nodes| && r.nodes[i].id == id
  {
    i :| 0 <= i < |r.nodes| && r.nodes[i].id == id;
  }

  /** A point at step `a` of the walk that precedes every point of the ids still in play is its
      node's claim to the key. */
  lemma FirstOnTheWalk(hashes: Hashing, r: Ring, key: string, near: nat, a: nat, ids: set<string>)
    requires WellBuilt(hashes, r) && Splits(r, hashes.key(key), near) && a < |r.points| && ids <= IdsOf(r.nodes)
    requires forall b :: 0 <= b < a ==> r.nodes[r.points[Walk(|r.points|, near, b)].node].id !in ids
    requires r.nodes[r.points[Walk(|r.points|, near, a)].node].id in ids
    ensures Owns(hashes, ids, r.vnodes, key, r.nodes[r.points[Walk(|r.points|, near, a)].node].id)
  {
    var n := |r.points|;
    var p := r.points[Walk(n, near, a)];
    var id := r.nodes[p.node].id;
    assert p in r.points;
    var v :| 0 <= v < r.vnodes && p.hash == hashes.vnode(id, v);
    forall j, w | j in ids && 0 <= w < r.vnodes
      ensures NoLater(hashes.key(key), Spot(hashes.vnode(id, v), id), Spot(hashes.vnode(j, w), j))
    {
      var x := NodeIndex(r, j);
      var q := Point(hashes.vnode(j, w), x);
      assert q in r.points;
      var i :| 0 <= i < n && r.points[i] == q;
      var b := WalkCovers(n, near, i);
      assert a <= b;
      WalkIsOrdered(r, hashes.key(key), near, a, b);
    }
    assert First(hashes, ids, r.vnodes, hashes.key(key), Spot(hashes.vnode(id, v), id));
  }

  lemma HasPoints(hashes: Hashing, r: Ring)
    requires WellBuilt(hashes, r)
    ensures r.points != []
  {
    assert Point(hashes.vnode(r.nodes[0].id, 0), 0) in r.points;
  }

  /** The node that owns a key, as the ring-free definition says. */
  method Owner(hashes: Hashing, r: Ring, key: string) returns (owner: Node)
    requires WellBuilt(hashes, r)
    ensures owner in r.nodes && Owns(hashes, IdsOf(r.nodes), r.vnodes, key, owner.id)
  {
    HasPoints(hashes, r);
    var start := Search(r, hashes.key(key));
    ghost var near: nat :| Splits(r, hashes.key(key), near) && start == if near == |r.points| then 0 else near;
    assert start == Walk(|r.points|, near, 0);
    assert r.points[start] in r.points;
    owner := r.nodes[r.points[start].node];
    FirstOnTheWalk(hashes, r, key, near, 0, IdsOf(r.nodes));
  }

  function IdList(nodes: seq<Node>): (ids: seq<string>)
    ensures |ids| == |nodes| && forall i :: 0 <= i < |nodes| ==> ids[i] == nodes[i].id
  {
    seq(|nodes|, i requires 0 <= i < |nodes| => nodes[i].id)
  }

  /** Up to `n` distinct nodes in replication order, starting at the owner. */
  method Successors(hashes: Hashing, r: Ring, key: string, n: int) returns (out: seq<Node>)
    requires WellBuilt(hashes, r)
    ensures forall i :: 0 <= i < |out| ==> out[i] in r.nodes
    ensures |out| == if n <= 0 then 0 else if n < |r.nodes| then n else |r.nodes|
    ensures Succession(hashes, IdsOf(r.nodes), r.vnodes, key, IdList(out))
  {
    hide Succession;
    hide Owns;
    hide Taken;
    hide Hashed;
    hide PointsSorted;
    hide StrictlySorted;
    hide IdsOf;
    PointsAreIndexed(hashes, r);
    NoSuccession(hashes, r, key);
    if n <= 0 {
      return [];
    }
    var want := if n > |r.nodes| then |r.nodes| else n;
    HasPoints(hashes, r);
    var size, ids := |r.points|, IdsOf(r.nodes);
    var start := Search(r, hashes.key(key));
    ghost var near: nat :| Splits(r, hashes.key(key), near) && start == if near == |r.points| then 0 else near;
    var seen: set<string> := {};
    out := [];
    var i := 0;
    while i < size && |out| < want
      invariant 0 <= i <= size && |out| <= want
      invariant seen == Taken(IdList(out), |out|)
      invariant forall j :: 0 <= j < |out| ==> out[j] in r.nodes
      invariant forall b :: 0 <= b < i ==> r.nodes[r.points[Walk(size, near, b)].node].id in seen
      invariant Succession(hashes, ids, r.vnodes, key, IdList(out))
      decreases size - i
    {
      WalkWraps(size, near, i);
      var p := r.points[(start + i) % size];
      assert p in r.points;
      var node := r.nodes[p.node];
      if node.id !in seen {
        FirstOnTheWalk(hashes, r, key, near, i, ids - seen);
        SuccessionGrows(hashes, r, key, out, node);
        seen := seen + {node.id};
        out := out + [node];
      }
      i := i + 1;
    }
    if |out| < want {
      WalkedEverything(hashes, r, near, seen);
      TooFew(hashes, r, key, out);
    }
  }

  lemma PointsAreIndexed(hashes: Hashing, r: Ring)
    requires WellBuilt(hashes, r)
    ensures Indexed(r.nodes, r.points)
    ensures forall i :: 0 <= i < |r.nodes| ==> r.nodes[i].id in IdsOf(r.nodes)
  {
  }

  lemma NoSuccession(hashes: Hashing, r: Ring, key: string)
    ensures Succession(hashes, IdsOf(r.nodes), r.vnodes, key, IdList([])) && Taken(IdList([]), 0) == {}
  {
  }

  lemma SuccessionGrows(hashes: Hashing, r: Ring, key: string, out: seq<Node>, node: Node)
    requires Succession(hashes, IdsOf(r.nodes), r.vnodes, key, IdList(out))
    requires Owns(hashes, IdsOf(r.nodes) - Taken(IdList(out), |out|), r.vnodes, key, node.id)
    ensures Succession(hashes, IdsOf(r.nodes), r.vnodes, key, IdList(out + [node]))
    ensures Taken(IdList(out + [node]), |out| + 1) == Taken(IdList(out), |out|) + {node.id}
  {
    hide Owns;
    var less, more := IdList(out), IdList(out + [node]);
    assert more == less + [node.id];
    forall k | 0 <= k <= |less|
      ensures Taken(more, k) == Taken(less, k)
    {
      assert forall j :: 0 <= j < k ==> more[j] == less[j];
    }
  }

  lemma WalkedEverything(hashes: Hashing, r: Ring, near: nat, seen: set<string>)
    requires WellBuilt(hashes, r) && near <= |r.points|
    requires forall b :: 0 <= b < |r.points| ==> r.nodes[r.points[Walk(|r.points|, near, b)].node].id in seen
    ensures IdsOf(r.nodes) <= seen
  {
    forall id | id in IdsOf(r.nodes)
      ensures id in seen
    {
      var x := NodeIndex(r, id);
      var q := Point(hashes.vnode(id, 0), x);
      assert q in r.points;
      var i :| 0 <= i < |r.points| && r.points[i] == q;
      var b := WalkCovers(|r.points|, near, i);
    }
  }

  lemma {:induction false} CountIds(nodes: seq<Node>)
    requires DistinctIds(nodes)
    ensures |IdsOf(nodes)| == |nodes|
  {
    if nodes == [] {
      assert IdsOf(nodes) == {};
    } else {
      var n := |nodes| - 1;
      CountIds(nodes[..n]);
      assert IdsOf(nodes) == IdsOf(nodes[..n]) + {nodes[n].id} by {
        assert nodes == nodes[..n] + [nodes[n]];
      }
      assert nodes[n].id !in IdsOf(nodes[..n]);
    }
  }

  lemma {:induction false} TakenIsSmall(list: seq<string>, k: nat)
    requires k <= |list|
    ensures |Taken(list, k)| <= k
  {
    if k == 0 {
      assert Taken(list, 0) == {};
    } else {
      TakenIsSmall(list, k - 1);
      assert Taken(list, k) == Taken(list, k - 1) + {list[k - 1]};
    }
  }

  lemma SubsetIsSmaller<T>(a: set<T>, b: set<T>)
    requires a <= b
    ensures |a| <= |b|
  {
    assert |b| == |a| + |b - a| by {
      assert b == a + (b - a);
    }
  }

  lemma StrictIsDistinct(nodes: seq<Node>)
    requires StrictlySorted(nodes)
    ensures DistinctIds(nodes)
  {
    forall i, j | 0 <= i < j < |nodes|
      ensures nodes[i].id != nodes[j].id
    {
      LessIsAsymmetric(nodes[i].id, nodes[j].id);
    }
  }

  /** A list that takes in every member is as long as the membership. */
  lemma TooFew(hashes: Hashing, r: Ring, key: string, out: seq<Node>)
    requires WellBuilt(hashes, r) && IdsOf(r.nodes) <= Taken(IdList(out), |out|)
    ensures |out| >= |r.nodes|
  {
    StrictIsDistinct(r.nodes);
    CountIds(r.nodes);
    TakenIsSmall(IdList(out), |out|);
    SubsetIsSmaller(IdsOf(r.nodes), Taken(IdList(out), |out|));
  }
}