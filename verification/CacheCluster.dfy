/** Cluster membership: the node table, the ring it feeds, and replica selection. */
module ClusterMembership {
  import opened Common
  import opened HashRing

  /** Virtual points per physical node. */
  const VIRTUAL_NODES: nat := 100

  datatype NodeStatus = NodeStatus(
    address: string,
    weight: nat,
    region: Option<string>,
    healthy: bool,
    lastHeartbeat: int)

  // ----- replica selection ----------------------------------------------------

  function FirstIndexOf(ring: seq<Point>, id: NodeId): nat
    requires exists p :: p in ring && p.id == id
    ensures FirstIndexOf(ring, id) < |ring| && ring[FirstIndexOf(ring, id)].id == id
    ensures forall i :: 0 <= i < FirstIndexOf(ring, id) ==> ring[i].id != id
  {
    if ring[0].id == id then 0
    else
      assert exists p :: p in ring[1..] && p.id == id by { assert ring == [ring[0]] + ring[1..]; }
      1 + FirstIndexOf(ring[1..], id)
  }

  function IdAfter(ring: seq<Point>, start: nat, i: nat): NodeId
    requires ring != []
  {
    ring[(start + i) % |ring|].id
  }

  /** Scans `n` ring points after index `start`, keeping new ids other than the primary. */
  function ScanReplicas(ring: seq<Point>, start: nat, primary: NodeId, n: nat): seq<NodeId>
    requires ring != []
  {
    if n == 0 then []
    else
      var found := ScanReplicas(ring, start, primary, n - 1);
      var id := IdAfter(ring, start, n);
      if id != primary && id !in found then found + [id] else found
  }

  function ReplicasOfPrimary(ring: seq<Point>, primary: Option<NodeId>, factor: nat): seq<NodeId>
    requires primary.Some? ==> exists p :: p in ring && p.id == primary.value
  {
    match primary
    case None => []
    case Some(id) => ScanReplicas(ring, FirstIndexOf(ring, id), id, factor)
  }

  lemma {:induction false} OwnerIsMember(ring: seq<Point>, k: U64)
    ensures Owner(ring, k).Some? <==> ring != []
    ensures Owner(ring, k).Some? ==> exists p :: p in ring && p.id == Owner(ring, k).value
  {
    if ring != [] {
      SuccessorIsMember(ring, k);
      assert OwnerPoint(ring, k) in ring;
    }
  }

  lemma {:induction false} SuccessorIsMember(ring: seq<Point>, k: U64)
    ensures Successor(ring, k).Some? ==> Successor(ring, k).value in ring
  {
    if ring != [] && ring[0].hash < k {
      SuccessorIsMember(ring[1..], k);
    }
  }

  function ReplicaNodes(ring: seq<Point>, k: U64, factor: nat): seq<NodeId> {
    OwnerIsMember(ring, k);
    ReplicasOfPrimary(ring, Owner(ring, k), factor)
  }

  lemma {:induction false} ScanIsSound(ring: seq<Point>, start: nat, primary: NodeId, n: nat)
    requires ring != []
    ensures var r := ScanReplicas(ring, start, primary, n);
            && |r| <= n && Distinct(r) && primary !in r
            && (forall id :: id in r <==> id != primary && exists i :: 1 <= i <= n && IdAfter(ring, start, i) == id)
  {
    if n > 0 {
      ScanIsSound(ring, start, primary, n - 1);
    }
  }

  /** The ids on the `n` ring points after index `start`, in ring order. */
  function IdsAfter(ring: seq<Point>, start: nat, n: nat): (ids: seq<NodeId>)
    requires ring != []
    ensures |ids| == n && forall i :: 0 <= i < n ==> ids[i] == IdAfter(ring, start, i + 1)
  {
    if n == 0 then [] else IdsAfter(ring, start, n - 1) + [IdAfter(ring, start, n)]
  }

  /** Where the id first occurs; the length if nowhere. */
  function FirstIn(s: seq<NodeId>, id: NodeId): (i: nat)
    ensures i <= |s| && (i < |s| ==> s[i] == id)
    ensures forall j :: 0 <= j < i ==> s[j] != id
  {
    if s == [] || s[0] == id then 0 else 1 + FirstIn(s[1..], id)
  }

  /** The ids are listed in the order in which they first occur in `s`. */
  ghost predicate InOrderOf(s: seq<NodeId>, ids: seq<NodeId>) {
    && (forall a :: 0 <= a < |ids| ==> FirstIn(s, ids[a]) < |s|)
    && (forall a, b :: 0 <= a < b < |ids| ==> FirstIn(s, ids[a]) < FirstIn(s, ids[b]))
  }

  lemma FirstInLonger(s: seq<NodeId>, x: NodeId, id: NodeId)
    ensures FirstIn(s, id) < |s| ==> FirstIn(s + [x], id) == FirstIn(s, id)
    ensures x !in s ==> FirstIn(s + [x], x) == |s|
  {
    var i := FirstIn(s + [x], id);
    assert forall j :: 0 <= j < |s| ==> (s + [x])[j] == s[j];
    assert (s + [x])[|s|] == x;
  }

  lemma LongerKeepsOrder(s: seq<NodeId>, x: NodeId, ids: seq<NodeId>)
    requires InOrderOf(s, ids)
    ensures InOrderOf(s + [x], ids)
    ensures x !in s ==> InOrderOf(s + [x], ids + [x])
  {
    forall a | 0 <= a < |ids| ensures FirstIn(s + [x], ids[a]) == FirstIn(s, ids[a]) < |s| {
      FirstInLonger(s, x, ids[a]);
    }
    FirstInLonger(s, x, x);
  }

  lemma {:induction false} ScanInOrder(ring: seq<Point>, start: nat, primary: NodeId, n: nat)
    requires ring != []
    ensures InOrderOf(IdsAfter(ring, start, n), ScanReplicas(ring, start, primary, n))
  {
    if n > 0 {
      ScanInOrder(ring, start, primary, n - 1);
      ScanIsSound(ring, start, primary, n - 1);
      LongerKeepsOrder(
        IdsAfter(ring, start, n - 1), IdAfter(ring, start, n), ScanReplicas(ring, start, primary, n - 1));
    }
  }

  /** Replicas are listed in the order in which the ring points after the primary first carry them. */
  lemma ReplicasAreInRingOrder(ring: seq<Point>, k: U64, factor: nat)
    requires ring != []
    ensures Owner(ring, k).Some? && exists p :: p in ring && p.id == Owner(ring, k).value
    ensures var start := FirstIndexOf(ring, Owner(ring, k).value);
            InOrderOf(IdsAfter(ring, start, factor), ReplicaNodes(ring, k, factor))
  {
    OwnerIsMember(ring, k);
    var primary := Owner(ring, k).value;
    ScanInOrder(ring, FirstIndexOf(ring, primary), primary, factor);
  }

  /**
    The replicas of a key are distinct members other than its primary, at most `factor`
    of them, exactly the ids met on the next `factor` ring points, and the same for all
    keys with the same primary.
   */
  lemma ReplicasAreSound(ring: seq<Point>, k: U64, factor: nat)
    ensures var r := ReplicaNodes(ring, k, factor);
            && |r| <= factor && Distinct(r)
            && (forall id :: id in r ==> Owner(ring, k) != Some(id) && exists p :: p in ring && p.id == id)
            && (ring != [] ==>
                  var start := FirstIndexOf(ring, Owner(ring, k).value);
                  forall i :: 1 <= i <= factor ==>
                    Some(IdAfter(ring, start, i)) == Owner(ring, k) || IdAfter(ring, start, i) in r)
            && (forall k' :: Owner(ring, k') == Owner(ring, k) ==> ReplicaNodes(ring, k', factor) == r)
  {
    OwnerIsMember(ring, k);
    if ring != [] {
      var primary := Owner(ring, k).value;
      ScanIsSound(ring, FirstIndexOf(ring, primary), primary, factor);
    }
  }

  // ----- ring and table -------------------------------------------------------

  /** The ring starts with the local node; the table does not. */
  function ClusterRing(h: string -> U64, local: NodeId, changes: seq<Change>): seq<Point> {
    RingAfter(h, VIRTUAL_NODES, [Join(local)] + changes)
  }

  lemma {:induction false} LocalStaysUntilItLeaves(local: NodeId, changes: seq<Change>, id: NodeId)
    ensures id in Members([Join(local)] + changes) <==>
            id in Members(changes) || (id == local && Leave(local) !in changes)
  {
    var all := [Join(local)] + changes;
    if changes == [] {
      assert all[..0] == [];
    } else {
      var init, last := changes[..|changes| - 1], changes[|changes| - 1];
      assert all[..|all| - 1] == [Join(local)] + init;
      LocalStaysUntilItLeaves(local, init, id);
      assert changes == init + [last];
    }
  }

  /** Ring members are the table's keys, plus the local node until it is removed. */
  lemma RingMembersAreTableKeys(h: string -> U64, local: NodeId, changes: seq<Change>, id: NodeId)
    ensures (exists p :: p in ClusterRing(h, local, changes) && p.id == id) <==>
            id in Members(changes) || (id == local && Leave(local) !in changes)
  {
    var all := [Join(local)] + changes;
    RingHoldsMembers(h, VIRTUAL_NODES, all);
    LocalStaysUntilItLeaves(local, changes, id);
    if id in Members(all) {
      var p := VirtualPoints(h, id, VIRTUAL_NODES)[0];
      assert IsPointOf(h, VIRTUAL_NODES, p);
      assert p in ClusterRing(h, local, changes);
    }
  }

  lemma ClusterSnoc(h: string -> U64, local: NodeId, changes: seq<Change>, c: Change)
    ensures var before, after := ClusterRing(h, local, changes), ClusterRing(h, local, changes + [c]);
            && after == (if c.Join? then AddNode(h, before, c.id, VIRTUAL_NODES) else RemoveNode(before, c.id))
            && Members(changes + [c]) == if c.Join? then Members(changes) + {c.id} else Members(changes) - {c.id}
  {
    var all := [Join(local)] + (changes + [c]);
    assert all[..|all| - 1] == [Join(local)] + changes && all[|all| - 1] == c;
    assert (changes + [c])[..|changes|] == changes;
  }

  class CacheCluster {
    const localId: NodeId
    const replicationFactor: nat
    const ring: ConsistentHashRing
    var nodes: map<NodeId, NodeStatus>
    ghost var changes: seq<Change>

    ghost predicate Valid()
      reads this, ring
    {
      && ring.replicas == VIRTUAL_NODES && ring.Valid()
      && ring.nodes == ClusterRing(ring.h, localId, changes)
      && nodes.Keys == Members(changes)
    }

    constructor (h: string -> U64, localId: NodeId, replicationFactor: nat)
      ensures Valid() && fresh(ring) && changes == [] && ring.h == h
      ensures this.localId == localId && this.replicationFactor == replicationFactor
    {
      this.localId, this.replicationFactor := localId, replicationFactor;
      var r := new ConsistentHashRing(h, VIRTUAL_NODES);
      r.Add(localId);
      ring, nodes, changes := r, map[], [];
      new;
      assert [Join(localId)] + [] == [Join(localId)] && [Join(localId)][..0] == [];
      assert RingAfter(h, VIRTUAL_NODES, []) == [];
    }

    method AddNode(id: NodeId, status: NodeStatus)
      requires Valid()
      modifies this, ring
      ensures Valid() && changes == old(changes) + [Join(id)]
      ensures nodes == old(nodes)[id := status]
    {
      nodes := nodes[id := status];
      ring.Add(id);
      changes := changes + [Join(id)];
      ClusterSnoc(ring.h, localId, old(changes), Join(id));
    }

    method RemoveNode(id: NodeId)
      requires Valid()
      modifies this, ring
      ensures Valid() && changes == old(changes) + [Leave(id)]
      ensures nodes == old(nodes) - {id}
    {
      nodes := nodes - {id};
      ring.Remove(id);
      changes := changes + [Leave(id)];
      ClusterSnoc(ring.h, localId, old(changes), Leave(id));
    }

    method GetReplicaNodes(key: string) returns (replicas: seq<NodeId>)
      requires Valid()
      ensures replicas == ReplicaNodes(ring.nodes, ring.h(key), replicationFactor)
    {
      OwnerIsMember(ring.nodes, ring.h(key));
      var primary := ring.GetNode(key);
      if primary.None? {
        return [];
      }
      var id := primary.value;
      var start := FirstIndexOf(ring.nodes, id);
      replicas := [];
      for i := 1 to replicationFactor + 1
        invariant replicas == ScanReplicas(ring.nodes, start, id, i - 1)
      {
        var candidate := IdAfter(ring.nodes, start, i);
        if candidate != id && candidate !in replicas {
          replicas := replicas + [candidate];
        }
      }
    }
  }
}
