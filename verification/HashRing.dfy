/**
  The consistent-hash ring: virtual points kept sorted by hash, the owner of a key being
  the first point at or after the key's hash, wrapping around. The 64-bit string hash is
  an arbitrary function.
 */
module HashRing {
  import opened Common

  const TWO64: nat := 0x1_0000_0000_0000_0000

  type U64 = x: int | 0 <= x < TWO64

  type NodeId = string

  datatype Point = Point(hash: U64, id: NodeId)

  function VirtualKey(id: NodeId, i: nat): string {
    id + "-" + Decimal(i)
  }

  function VirtualPoints(h: string -> U64, id: NodeId, replicas: nat): seq<Point> {
    seq(replicas, i requires 0 <= i < replicas => Point(h(VirtualKey(id, i)), id))
  }

  /** No two virtual keys coincide, whatever the node ids contain. */
  lemma VirtualKeysDiffer(a: NodeId, i: nat, b: NodeId, j: nat)
    requires VirtualKey(a, i) == VirtualKey(b, j)
    ensures a == b && i == j
  {
    DecimalDigits(i);
    DecimalDigits(j);
    var s, m, n := VirtualKey(a, i), |Decimal(i)|, |Decimal(j)|;
    assert s[|s| - m - 1] == '-' && s[|s| - n - 1] == '-';
    assert forall k :: 0 <= k < m ==> s[|s| - m + k] == Decimal(i)[k];
    assert forall k :: 0 <= k < n ==> s[|s| - n + k] == Decimal(j)[k];
    assert m == n;
    assert Decimal(i) == s[|s| - m..] && Decimal(j) == s[|s| - m..];
    assert a == s[..|s| - m - 1] && b == s[..|s| - m - 1];
    DecimalInjective(i, j);
  }

  ghost predicate Sorted(ring: seq<Point>) {
    forall i, j :: 0 <= i < j < |ring| ==> ring[i].hash <= ring[j].hash
  }

  /** Places a point after every point of the same hash. */
  function Insert(ring: seq<Point>, p: Point): seq<Point> {
    if ring == [] then [p]
    else if ring[0].hash <= p.hash then [ring[0]] + Insert(ring[1..], p)
    else [p] + ring
  }

  function InsertAll(ring: seq<Point>, ps: seq<Point>): seq<Point> {
    if ps == [] then ring else Insert(InsertAll(ring, ps[..|ps| - 1]), ps[|ps| - 1])
  }

  function AddNode(h: string -> U64, ring: seq<Point>, id: NodeId, replicas: nat): seq<Point> {
    InsertAll(ring, VirtualPoints(h, id, replicas))
  }

  function RemoveNode(ring: seq<Point>, id: NodeId): seq<Point> {
    if ring == [] then []
    else if ring[0].id == id then RemoveNode(ring[1..], id)
    else [ring[0]] + RemoveNode(ring[1..], id)
  }

  /** The first point at or after `k`. */
  function Successor(ring: seq<Point>, k: U64): Option<Point> {
    if ring == [] then None
    else if ring[0].hash >= k then Some(ring[0])
    else Successor(ring[1..], k)
  }

  function OwnerPoint(ring: seq<Point>, k: U64): Point
    requires ring != []
  {
    match Successor(ring, k) case Some(p) => p case None => ring[0]
  }

  function Owner(ring: seq<Point>, k: U64): Option<NodeId> {
    if ring == [] then None else Some(OwnerPoint(ring, k).id)
  }

  // ----- minimal disruption --------------------------------------------------

  lemma {:induction false} SuccessorAfterInsert(ring: seq<Point>, p: Point, k: U64)
    ensures Successor(Insert(ring, p), k) == Successor(ring, k) || Successor(Insert(ring, p), k) == Some(p)
    ensures Insert(ring, p)[0] == p || (ring != [] && Insert(ring, p)[0] == ring[0])
    ensures Successor(Insert(ring, p), k).None? ==> Successor(ring, k).None?
    ensures ring != [] && ring[0].hash <= p.hash ==> Insert(ring, p)[0] == ring[0]
  {
    if ring != [] && ring[0].hash <= p.hash {
      SuccessorAfterInsert(ring[1..], p, k);
      assert Insert(ring, p)[1..] == Insert(ring[1..], p);
    } else {
      assert Insert(ring, p)[1..] == ring;
    }
  }

  lemma {:induction false} InsertAllDisruption(ring: seq<Point>, ps: seq<Point>, id: NodeId, k: U64)
    requires forall p :: p in ps ==> p.id == id
    ensures Owner(InsertAll(ring, ps), k) == Owner(ring, k) || Owner(InsertAll(ring, ps), k) == Some(id)
  {
    if ps != [] {
      InsertAllDisruption(ring, ps[..|ps| - 1], id, k);
      SuccessorAfterInsert(InsertAll(ring, ps[..|ps| - 1]), ps[|ps| - 1], k);
    }
  }

  /** Adding a node moves a key only to that node. */
  lemma AddingMovesKeysOnlyToTheNewNode(h: string -> U64, ring: seq<Point>, id: NodeId, replicas: nat, k: U64)
    ensures Owner(AddNode(h, ring, id, replicas), k) == Owner(ring, k)
         || Owner(AddNode(h, ring, id, replicas), k) == Some(id)
  {
    InsertAllDisruption(ring, VirtualPoints(h, id, replicas), id, k);
  }

  lemma {:induction false} SuccessorAfterRemove(ring: seq<Point>, id: NodeId, k: U64)
    ensures Successor(ring, k).None? ==> Successor(RemoveNode(ring, id), k).None?
    ensures Successor(ring, k).Some? && Successor(ring, k).value.id != id ==>
              Successor(RemoveNode(ring, id), k) == Successor(ring, k)
    ensures ring != [] && ring[0].id != id ==> RemoveNode(ring, id) != [] && RemoveNode(ring, id)[0] == ring[0]
    ensures Successor(ring, k).Some? && Successor(ring, k).value.id != id ==> RemoveNode(ring, id) != []
  {
    if ring != [] {
      SuccessorAfterRemove(ring[1..], id, k);
      if ring[0].id != id {
        assert RemoveNode(ring, id)[1..] == RemoveNode(ring[1..], id);
      }
    }
  }

  /** Removing a node moves only the keys it owned. */
  lemma RemovingMovesOnlyOwnedKeys(ring: seq<Point>, id: NodeId, k: U64)
    requires Owner(ring, k) != Some(id)
    ensures Owner(RemoveNode(ring, id), k) == Owner(ring, k)
  {
    SuccessorAfterRemove(ring, id, k);
  }

  // ----- the ring stays sorted, and what is on it -----------------------------

  lemma {:induction false} InsertKeepsSorted(ring: seq<Point>, p: Point)
    requires Sorted(ring)
    ensures Sorted(Insert(ring, p))
    ensures forall q :: q in Insert(ring, p) <==> q == p || q in ring
  {
    if ring != [] && ring[0].hash <= p.hash {
      InsertKeepsSorted(ring[1..], p);
      assert ring == [ring[0]] + ring[1..];
      var rest := Insert(ring[1..], p);
      assert forall i :: 0 <= i < |rest| ==> rest[i] in rest;
      assert forall i :: 0 <= i < |rest| ==> rest[i].hash >= ring[0].hash;
    }
  }

  lemma {:induction false} InsertAllContents(ring: seq<Point>, ps: seq<Point>)
    requires Sorted(ring)
    ensures Sorted(InsertAll(ring, ps))
    ensures forall q :: q in InsertAll(ring, ps) <==> q in ps || q in ring
  {
    if ps != [] {
      var init, last := ps[..|ps| - 1], ps[|ps| - 1];
      InsertAllContents(ring, init);
      InsertKeepsSorted(InsertAll(ring, init), last);
      assert ps == init + [last];
    }
  }

  lemma {:induction false} RemoveKeepsOthers(ring: seq<Point>, id: NodeId, q: Point)
    ensures q in RemoveNode(ring, id) <==> q in ring && q.id != id
  {
    if ring != [] {
      RemoveKeepsOthers(ring[1..], id, q);
      assert ring == [ring[0]] + ring[1..];
    }
  }

  lemma {:induction false} RemoveKeepsSorted(ring: seq<Point>, id: NodeId)
    requires Sorted(ring)
    ensures Sorted(RemoveNode(ring, id))
  {
    if ring != [] {
      RemoveKeepsSorted(ring[1..], id);
      var rest := RemoveNode(ring[1..], id);
      forall i | 0 <= i < |rest| ensures ring[0].hash <= rest[i].hash {
        RemoveKeepsOthers(ring[1..], id, rest[i]);
        assert rest[i] in ring[1..];
      }
    }
  }

  lemma RemoveContents(ring: seq<Point>, id: NodeId)
    ensures forall q :: q in RemoveNode(ring, id) <==> q in ring && q.id != id
    ensures Sorted(ring) ==> Sorted(RemoveNode(ring, id))
  {
    forall q ensures q in RemoveNode(ring, id) <==> q in ring && q.id != id {
      RemoveKeepsOthers(ring, id, q);
    }
    if Sorted(ring) {
      RemoveKeepsSorted(ring, id);
    }
  }

  lemma {:induction false} RemoveAfterInsert(ring: seq<Point>, p: Point)
    ensures RemoveNode(Insert(ring, p), p.id) == RemoveNode(ring, p.id)
  {
    if ring != [] && ring[0].hash <= p.hash {
      RemoveAfterInsert(ring[1..], p);
      assert Insert(ring, p)[1..] == Insert(ring[1..], p);
    } else {
      assert Insert(ring, p)[1..] == ring;
    }
  }

  lemma {:induction false} RemoveAfterInsertAll(ring: seq<Point>, ps: seq<Point>, id: NodeId)
    requires forall p :: p in ps ==> p.id == id
    ensures RemoveNode(InsertAll(ring, ps), id) == RemoveNode(ring, id)
  {
    if ps != [] {
      RemoveAfterInsertAll(ring, ps[..|ps| - 1], id);
      RemoveAfterInsert(InsertAll(ring, ps[..|ps| - 1]), ps[|ps| - 1]);
    }
  }

  lemma {:induction false} RemoveAbsent(ring: seq<Point>, id: NodeId)
    requires forall p :: p in ring ==> p.id != id
    ensures RemoveNode(ring, id) == ring
  {
    if ring != [] {
      RemoveAbsent(ring[1..], id);
    }
  }

  /** Removing a node that was just added restores the exact ring. */
  lemma RemoveUndoesAdd(h: string -> U64, ring: seq<Point>, id: NodeId, replicas: nat)
    requires forall p :: p in ring ==> p.id != id
    ensures RemoveNode(AddNode(h, ring, id, replicas), id) == ring
  {
    RemoveAfterInsertAll(ring, VirtualPoints(h, id, replicas), id);
    RemoveAbsent(ring, id);
  }

  // ----- the owner is the nearest point clockwise -----------------------------

  /** How far clockwise `p` is from `k` on a circle of 2^64 positions. */
  function Distance(k: U64, p: U64): nat {
    if p >= k then p - k else p + TWO64 - k
  }

  lemma {:induction false} SuccessorIsFirst(ring: seq<Point>, k: U64)
    requires Sorted(ring)
    ensures Successor(ring, k).None? ==> forall q :: q in ring ==> q.hash < k
    ensures Successor(ring, k).Some? ==>
              var p := Successor(ring, k).value;
              p in ring && p.hash >= k && forall q :: q in ring && q.hash >= k ==> p.hash <= q.hash
  {
    if ring != [] {
      SuccessorIsFirst(ring[1..], k);
      assert ring == [ring[0]] + ring[1..];
    }
  }

  lemma OwnerIsNearestClockwise(ring: seq<Point>, k: U64)
    requires Sorted(ring) && ring != []
    ensures OwnerPoint(ring, k) in ring
    ensures forall q :: q in ring ==> Distance(k, OwnerPoint(ring, k).hash) <= Distance(k, q.hash)
  {
    SuccessorIsFirst(ring, k);
    forall q | q in ring ensures ring[0].hash <= q.hash {
      var i :| 0 <= i < |ring| && ring[i] == q;
    }
  }

  /** Points of different nodes never share a hash. */
  ghost predicate Separated(ring: seq<Point>) {
    forall p, q :: p in ring && q in ring && p.hash == q.hash ==> p.id == q.id
  }

  /** Without such collisions the owner depends on the set of points alone. */
  lemma OwnerDependsOnPoints(a: seq<Point>, b: seq<Point>, k: U64)
    requires Sorted(a) && Sorted(b) && Separated(a)
    requires forall p :: p in a <==> p in b
    ensures Owner(a, k) == Owner(b, k)
  {
    assert |b| > 0 ==> b[0] in a;
    if a != [] {
      assert a[0] in b;
      OwnerIsNearestClockwise(a, k);
      OwnerIsNearestClockwise(b, k);
      assert OwnerPoint(b, k) in a;
      assert OwnerPoint(a, k).hash == OwnerPoint(b, k).hash;
    }
  }

  // ----- runs of membership changes -------------------------------------------

  datatype Change = Join(id: NodeId) | Leave(id: NodeId)

  function RingAfter(h: string -> U64, replicas: nat, changes: seq<Change>): seq<Point> {
    if changes == [] then []
    else
      var ring := RingAfter(h, replicas, changes[..|changes| - 1]);
      match changes[|changes| - 1]
      case Join(id) => AddNode(h, ring, id, replicas)
      case Leave(id) => RemoveNode(ring, id)
  }

  function Members(changes: seq<Change>): set<NodeId> {
    if changes == [] then {}
    else
      match changes[|changes| - 1]
      case Join(id) => Members(changes[..|changes| - 1]) + {id}
      case Leave(id) => Members(changes[..|changes| - 1]) - {id}
  }

  ghost predicate IsPointOf(h: string -> U64, replicas: nat, p: Point) {
    p in VirtualPoints(h, p.id, replicas)
  }

  /** However it was reached, the ring is sorted and holds exactly the members' points. */
  lemma {:induction false} RingHoldsMembers(h: string -> U64, replicas: nat, changes: seq<Change>)
    ensures Sorted(RingAfter(h, replicas, changes))
    ensures forall p :: p in RingAfter(h, replicas, changes) <==> p.id in Members(changes) && IsPointOf(h, replicas, p)
  {
    if changes != [] {
      var init, last := changes[..|changes| - 1], changes[|changes| - 1];
      var ring := RingAfter(h, replicas, init);
      RingHoldsMembers(h, replicas, init);
      match last
      case Join(id) => InsertAllContents(ring, VirtualPoints(h, id, replicas));
      case Leave(id) => RemoveContents(ring, id);
    }
  }

  /** Ownership is a function of the member set: order and repetition of changes do not matter. */
  ghost predicate OrderFree(h: string -> U64, replicas: nat) {
    forall a: seq<Change>, b: seq<Change>, k: U64 | Members(a) == Members(b) ::
      Owner(RingAfter(h, replicas, a), k) == Owner(RingAfter(h, replicas, b), k)
  }

  ghost predicate Collide(h: string -> U64, replicas: nat, p: Point, q: Point) {
    IsPointOf(h, replicas, p) && IsPointOf(h, replicas, q) && p.hash == q.hash && p.id != q.id
  }

  ghost predicate CollisionFree(h: string -> U64, replicas: nat) {
    forall p, q :: !Collide(h, replicas, p, q)
  }

  lemma SameMembersSameOwner(h: string -> U64, replicas: nat, a: seq<Change>, b: seq<Change>, k: U64)
    requires CollisionFree(h, replicas) && Members(a) == Members(b)
    ensures Owner(RingAfter(h, replicas, a), k) == Owner(RingAfter(h, replicas, b), k)
  {
    RingHoldsMembers(h, replicas, a);
    RingHoldsMembers(h, replicas, b);
    var ring := RingAfter(h, replicas, a);
    forall p, q | p in ring && q in ring && p.hash == q.hash ensures p.id == q.id {
      assert !Collide(h, replicas, p, q);
    }
    OwnerDependsOnPoints(ring, RingAfter(h, replicas, b), k);
  }

  /** A point already sitting at `k` keeps owning `k`: stable sorting puts newcomers behind it. */
  lemma {:induction false} OldestAtHashKeepsKey(ring: seq<Point>, p: Point, k: U64)
    requires Successor(ring, k).Some? && Successor(ring, k).value.hash == k
    ensures Successor(Insert(ring, p), k) == Successor(ring, k) || p.hash < k
    ensures Sorted(ring) ==> Successor(Insert(ring, p), k) == Successor(ring, k)
  {
    if ring[0].hash <= p.hash {
      assert Insert(ring, p)[1..] == Insert(ring[1..], p);
      if ring[0].hash < k {
        OldestAtHashKeepsKey(ring[1..], p, k);
      }
    } else {
      assert Insert(ring, p)[1..] == ring;
    }
  }

  lemma {:induction false} OldestSurvivesInsertAll(ring: seq<Point>, ps: seq<Point>, k: U64)
    requires Sorted(ring) && Successor(ring, k).Some? && Successor(ring, k).value.hash == k
    ensures Successor(InsertAll(ring, ps), k) == Successor(ring, k)
  {
    if ps != [] {
      OldestSurvivesInsertAll(ring, ps[..|ps| - 1], k);
      InsertAllContents(ring, ps[..|ps| - 1]);
      OldestAtHashKeepsKey(InsertAll(ring, ps[..|ps| - 1]), ps[|ps| - 1], k);
    }
  }

  lemma FirstJoinerOwns(h: string -> U64, replicas: nat, p: Point, other: NodeId)
    requires IsPointOf(h, replicas, p)
    ensures Owner(RingAfter(h, replicas, [Join(p.id), Join(other)]), p.hash) == Some(p.id)
  {
    var one, two := [Join(p.id)], [Join(p.id), Join(other)];
    assert two[..1] == one && one[..0] == [];
    RingHoldsMembers(h, replicas, one);
    var ring := RingAfter(h, replicas, one);
    assert Members(one) == {p.id} by { assert Members([]) == {}; }
    SuccessorIsFirst(ring, p.hash);
    OldestSurvivesInsertAll(ring, VirtualPoints(h, other, replicas), p.hash);
    assert RingAfter(h, replicas, two) == AddNode(h, ring, other, replicas);
    InsertAllContents(ring, VirtualPoints(h, other, replicas));
  }

  lemma MembersOfTwo(a: NodeId, b: NodeId)
    ensures Members([Join(a), Join(b)]) == {a, b}
  {
    assert [Join(a), Join(b)][..1] == [Join(a)] && [Join(a)][..0] == [];
    assert Members([]) == {};
    assert Members([Join(a)]) == {a};
  }

  /** A hash without collisions on the virtual keys keeps nodes' points apart. */
  lemma DistinctHashesAreCollisionFree(h: string -> U64, replicas: nat)
    requires forall a, i, b, j ::
      0 <= i < replicas && 0 <= j < replicas && h(VirtualKey(a, i)) == h(VirtualKey(b, j)) ==>
               VirtualKey(a, i) == VirtualKey(b, j)
    ensures CollisionFree(h, replicas)
  {
    forall p, q ensures !Collide(h, replicas, p, q) {
      if Collide(h, replicas, p, q) {
        var i :| 0 <= i < replicas && VirtualPoints(h, p.id, replicas)[i] == p;
        var j :| 0 <= j < replicas && VirtualPoints(h, q.id, replicas)[j] == q;
        VirtualKeysDiffer(p.id, i, q.id, j);
      }
    }
  }

  /** Exactly when points of different nodes never collide does membership alone decide ownership. */
  lemma OwnershipIsMembershipIffNoCollision(h: string -> U64, replicas: nat)
    ensures OrderFree(h, replicas) <==> CollisionFree(h, replicas)
  {
    if CollisionFree(h, replicas) {
      forall a: seq<Change>, b: seq<Change>, k: U64 | Members(a) == Members(b)
        ensures Owner(RingAfter(h, replicas, a), k) == Owner(RingAfter(h, replicas, b), k)
      {
        SameMembersSameOwner(h, replicas, a, b, k);
      }
    } else {
      var p, q :| Collide(h, replicas, p, q);
      var a, b := [Join(p.id), Join(q.id)], [Join(q.id), Join(p.id)];
      FirstJoinerOwns(h, replicas, p, q.id);
      FirstJoinerOwns(h, replicas, q, p.id);
      MembersOfTwo(p.id, q.id);
      MembersOfTwo(q.id, p.id);
    }
  }

  // ----- the ring object -------------------------------------------------------

  lemma {:induction false} InsertAtEnd(ring: seq<Point>, p: Point)
    requires forall q :: q in ring ==> q.hash <= p.hash
    ensures Insert(ring, p) == ring + [p]
  {
    if ring != [] {
      InsertAtEnd(ring[1..], p);
    }
  }

  lemma PrefixIsBelow(ring: seq<Point>, n: nat, q: Point)
    requires Sorted(ring) && n < |ring| && q in ring[..n]
    ensures q.hash <= ring[n].hash
  {
    var i :| 0 <= i < n && ring[..n][i] == q;
    assert ring[i] == q;
  }

  lemma InsertAllSnoc(ring: seq<Point>, ps: seq<Point>, p: Point)
    ensures InsertAll(ring, ps + [p]) == Insert(InsertAll(ring, ps), p)
  {
    assert (ps + [p])[..|ps|] == ps;
  }

  lemma {:induction false} SortOfPrefix(ring: seq<Point>, n: nat)
    requires Sorted(ring) && n <= |ring|
    ensures InsertAll([], ring[..n]) == ring[..n]
  {
    if n > 0 {
      var init, last := ring[..n - 1], ring[n - 1];
      SortOfPrefix(ring, n - 1);
      assert ring[..n] == init + [last];
      InsertAllSnoc([], init, last);
      forall q | q in init ensures q.hash <= last.hash {
        PrefixIsBelow(ring, n - 1, q);
      }
      InsertAtEnd(init, last);
    }
  }

  lemma SortOfSorted(ring: seq<Point>)
    requires Sorted(ring)
    ensures InsertAll([], ring) == ring
  {
    SortOfPrefix(ring, |ring|);
    assert ring[..|ring|] == ring;
  }

  lemma {:induction false} InsertAllConcat(ring: seq<Point>, a: seq<Point>, b: seq<Point>)
    ensures InsertAll(ring, a + b) == InsertAll(InsertAll(ring, a), b)
  {
    if b == [] {
      assert a + b == a;
    } else {
      assert (a + b)[..|a + b| - 1] == a + b[..|b| - 1];
      InsertAllConcat(ring, a, b[..|b| - 1]);
    }
  }

  /** The points at one hash, in ring order. */
  function AtHash(ps: seq<Point>, x: U64): seq<Point> {
    if ps == [] then []
    else if ps[0].hash == x then [ps[0]] + AtHash(ps[1..], x)
    else AtHash(ps[1..], x)
  }

  lemma {:induction false} AtHashAfterInsert(ring: seq<Point>, p: Point, x: U64)
    requires Sorted(ring)
    ensures AtHash(Insert(ring, p), x) == AtHash(ring, x) + if p.hash == x then [p] else []
  {
    if ring != [] && ring[0].hash <= p.hash {
      AtHashAfterInsert(ring[1..], p, x);
      assert Insert(ring, p)[1..] == Insert(ring[1..], p);
    } else {
      assert Insert(ring, p)[1..] == ring;
      if p.hash == x {
        NoneAtSmallerHash(ring, x);
      }
    }
  }

  lemma {:induction false} NoneAtSmallerHash(ring: seq<Point>, x: U64)
    requires Sorted(ring) && (ring != [] ==> ring[0].hash > x)
    ensures AtHash(ring, x) == []
  {
    if ring != [] {
      NoneAtSmallerHash(ring[1..], x);
    }
  }

  lemma {:induction false} AtHashSnoc(ps: seq<Point>, p: Point, x: U64)
    ensures AtHash(ps + [p], x) == AtHash(ps, x) + if p.hash == x then [p] else []
  {
    if ps == [] {
      assert ps + [p] == [p] && [p][1..] == [];
    } else {
      assert (ps + [p])[1..] == ps[1..] + [p];
      AtHashSnoc(ps[1..], p, x);
    }
  }

  /** Inserting points one by one is the stable sort: sorted, and equal hashes keep their order. */
  lemma {:induction false} InsertAllIsStableSort(ps: seq<Point>, x: U64)
    ensures Sorted(InsertAll([], ps))
    ensures AtHash(InsertAll([], ps), x) == AtHash(ps, x)
  {
    if ps != [] {
      var init, last := ps[..|ps| - 1], ps[|ps| - 1];
      InsertAllIsStableSort(init, x);
      InsertAllContents([], init);
      InsertKeepsSorted(InsertAll([], init), last);
      AtHashAfterInsert(InsertAll([], init), last, x);
      AtHashSnoc(init, last, x);
      assert ps == init + [last];
    }
  }

  method SortByHash(ps: seq<Point>) returns (ring: seq<Point>)
    ensures ring == InsertAll([], ps)
  {
    ring := [];
    for i := 0 to |ps|
      invariant ring == InsertAll([], ps[..i])
    {
      assert ps[..i + 1][..i] == ps[..i];
      ring := Insert(ring, ps[i]);
    }
    assert ps[..|ps|] == ps;
  }

  class ConsistentHashRing {
    const h: string -> U64
    const replicas: nat
    var nodes: seq<Point>

    ghost predicate Valid()
      reads this
    {
      Sorted(nodes)
    }

    constructor (h: string -> U64, replicas: nat)
      ensures Valid() && nodes == [] && this.h == h && this.replicas == replicas
    {
      this.h, this.replicas, nodes := h, replicas, [];
    }

    method Add(id: NodeId)
      requires Valid()
      modifies this
      ensures Valid() && nodes == AddNode(h, old(nodes), id, replicas)
    {
      ghost var points := VirtualPoints(h, id, replicas);
      for i := 0 to replicas
        invariant nodes == old(nodes) + points[..i]
      {
        nodes := nodes + [Point(h(VirtualKey(id, i)), id)];
        assert points[..i + 1] == points[..i] + [points[i]];
      }
      assert points[..replicas] == points;
      SortOfSorted(old(nodes));
      InsertAllConcat([], old(nodes), points);
      InsertAllContents(old(nodes), points);
      nodes := SortByHash(nodes);
    }

    method Remove(id: NodeId)
      requires Valid()
      modifies this
      ensures Valid() && nodes == RemoveNode(old(nodes), id)
    {
      RemoveContents(nodes, id);
      nodes := Retain(nodes, id);
    }

    method GetNode(key: string) returns (r: Option<NodeId>)
      ensures r == Owner(nodes, h(key))
    {
      if nodes == [] {
        return None;
      }
      var hash := h(key);
      for i := 0 to |nodes|
        invariant Successor(nodes, hash) == Successor(nodes[i..], hash)
      {
        if nodes[i].hash >= hash {
          return Some(nodes[i].id);
        }
        assert nodes[i..][1..] == nodes[i + 1..];
      }
      return Some(nodes[0].id);
    }
  }

  lemma {:induction false} RemoveSnoc(ring: seq<Point>, p: Point, id: NodeId)
    ensures RemoveNode(ring + [p], id) == RemoveNode(ring, id) + if p.id == id then [] else [p]
  {
    if ring == [] {
      assert ring + [p] == [p] && [p][1..] == [];
    } else {
      assert (ring + [p])[1..] == ring[1..] + [p];
      RemoveSnoc(ring[1..], p, id);
    }
  }

  method Retain(ring: seq<Point>, id: NodeId) returns (kept: seq<Point>)
    ensures kept == RemoveNode(ring, id)
  {
    kept := [];
    for i := 0 to |ring|
      invariant kept == RemoveNode(ring[..i], id)
    {
      assert ring[..i + 1] == ring[..i] + [ring[i]];
      RemoveSnoc(ring[..i], ring[i], id);
      if ring[i].id != id {
        kept := kept + [ring[i]];
      }
    }
    assert ring[..|ring|] == ring;
  }
}
