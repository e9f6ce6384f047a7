/**
  The clustered cache seen from one node: a local store, one client per linked node, a
  ring that says which nodes are responsible for a key. Reads go local, primary,
  replicas; a replica hit repairs the primary. Writes land locally and are sent to the
  responsible nodes by background tasks, each of which may land at any later time or
  be lost.
 */
module DistributedCaching {
  import opened Common
  import opened HashRing
  import opened ClusterMembership

  type Key = string
  type Store = map<Key, Bytes>

  datatype Write = Write(node: NodeId, key: Key, data: Bytes)

  /** `linked` are the nodes with a client, `up` those that currently answer. */
  datatype Cache = Cache(
    ring: seq<Point>,
    factor: nat,
    local: Store,
    stores: map<NodeId, Store>,
    linked: set<NodeId>,
    up: set<NodeId>,
    pending: multiset<Write>)

  function StoreOf(c: Cache, n: NodeId): Store {
    if n in c.stores then c.stores[n] else map[]
  }

  function StoreAt(c: Cache, n: NodeId, key: Key, data: Bytes): Cache {
    c.(stores := c.stores[n := StoreOf(c, n)[key := data]])
  }

  /** Primary first, then replicas; only nodes with a client are contacted. */
  function Linked(ids: seq<NodeId>, linked: set<NodeId>): seq<NodeId> {
    if ids == [] then []
    else if ids[0] in linked then [ids[0]] + Linked(ids[1..], linked)
    else Linked(ids[1..], linked)
  }

  function Responsible(c: Cache, k: U64): seq<NodeId> {
    (match Owner(c.ring, k) case Some(id) => [id] case None => []) + ReplicaNodes(c.ring, k, c.factor)
  }

  function Targets(h: string -> U64, c: Cache, key: Key): seq<NodeId> {
    Linked(Responsible(c, h(key)), c.linked)
  }

  /** First target that holds the key; an unreachable one on the way is an error. */
  function Locate(c: Cache, targets: seq<NodeId>, key: Key): Result<Option<NodeId>> {
    if targets == [] then Ok(None)
    else if targets[0] !in c.up then Err
    else if key in StoreOf(c, targets[0]) then Ok(Some(targets[0]))
    else Locate(c, targets[1..], key)
  }

  /** The probes of `has`, which stop at the first node that has the key or does not answer. */
  function ProbeAll(c: Cache, targets: seq<NodeId>, key: Key): Result<bool> {
    if targets == [] then Ok(false)
    else if targets[0] !in c.up then Err
    else if key in StoreOf(c, targets[0]) then Ok(true)
    else ProbeAll(c, targets[1..], key)
  }

  function Has(h: string -> U64, c: Cache, key: Key): Result<bool> {
    if key in c.local then Ok(true) else ProbeAll(c, Targets(h, c, key), key)
  }

  lemma {:induction false} LocatedHolds(c: Cache, targets: seq<NodeId>, key: Key)
    ensures var at := Locate(c, targets, key);
            at.Ok? && at.value.Some? ==>
              var n := at.value.value;
              n in targets && key in StoreOf(c, n) && n in c.up
  {
    if targets != [] && targets[0] in c.up && key !in StoreOf(c, targets[0]) {
      LocatedHolds(c, targets[1..], key);
    }
  }

  datatype Read = Read(answer: Result<Option<Bytes>>, after: Cache)

  /** `repairLands`: whether the best-effort write back to the primary succeeds. */
  function Get(h: string -> U64, c: Cache, key: Key, repairLands: bool): Read {
    if key in c.local then Read(Ok(Some(c.local[key])), c)
    else
      LocatedHolds(c, Targets(h, c, key), key);
      match Locate(c, Targets(h, c, key), key)
      case Err => Read(Err, c)
      case Ok(None) => Read(Ok(None), c)
      case Ok(Some(at)) =>
        var data := StoreOf(c, at)[key];
        var cached := c.(local := c.local[key := data]);
        var primary := Owner(c.ring, h(key));
        var repairs := primary.Some? && primary.value != at && primary.value in c.linked && primary.value in c.up;
        if repairs && repairLands then
          Read(Ok(Some(data)), StoreAt(cached, primary.value, key, data))
        else
          Read(Ok(Some(data)), cached)
  }

  function Writes(targets: seq<NodeId>, key: Key, data: Bytes): multiset<Write> {
    if targets == [] then multiset{} else multiset{Write(targets[0], key, data)} + Writes(targets[1..], key, data)
  }

  function Put(h: string -> U64, c: Cache, key: Key, data: Bytes): Cache {
    c.(local := c.local[key := data], pending := c.pending + Writes(Targets(h, c, key), key, data))
  }

  datatype Event =
    | DoPut(key: Key, data: Bytes)
    | DoGet(key: Key, repairLands: bool)
    | Deliver(w: Write)
    | Lose(w: Write)
    | Member(change: Change)
    | Link(id: NodeId)
    | Reach(up: set<NodeId>)
    | EvictLocal(key: Key)
    | EvictAt(id: NodeId, evicted: Key)

  function Next(h: string -> U64, c: Cache, e: Event): Cache {
    match e
    case DoPut(key, data) => Put(h, c, key, data)
    case DoGet(key, repairLands) => Get(h, c, key, repairLands).after
    case Deliver(w) =>
      if w in c.pending then StoreAt(c, w.node, w.key, w.data).(pending := c.pending - multiset{w}) else c
    case Lose(w) => c.(pending := c.pending - multiset{w})
    case Member(Join(id)) => c.(ring := AddNode(h, c.ring, id, VIRTUAL_NODES))
    case Member(Leave(id)) => c.(ring := RemoveNode(c.ring, id))
    case Link(id) => c.(linked := c.linked + {id})
    case Reach(up) => c.(up := up)
    case EvictLocal(key) => c.(local := c.local - {key})
    case EvictAt(id, key) => c.(stores := c.stores[id := StoreOf(c, id) - {key}])
  }

  function After(h: string -> U64, c: Cache, events: seq<Event>): Cache {
    if events == [] then c else Next(h, After(h, c, events[..|events| - 1]), events[|events| - 1])
  }

  // ----- one content per key ---------------------------------------------------

  ghost predicate Holds(s: Store, content: Key -> Bytes) {
    forall k :: k in s ==> s[k] == content(k)
  }

  ghost predicate SingleContent(c: Cache, content: Key -> Bytes) {
    && Holds(c.local, content)
    && (forall n :: Holds(StoreOf(c, n), content))
    && (forall w :: w in c.pending ==> w.data == content(w.key))
  }

  ghost predicate PutsContent(e: Event, content: Key -> Bytes) {
    e.DoPut? ==> e.data == content(e.key)
  }

  lemma {:induction false} WritesCarry(targets: seq<NodeId>, key: Key, data: Bytes, w: Write)
    requires w in Writes(targets, key, data)
    ensures w.key == key && w.data == data && w.node in targets
  {
    if w != Write(targets[0], key, data) {
      WritesCarry(targets[1..], key, data, w);
    }
  }

  lemma GetIsSound(h: string -> U64, c: Cache, key: Key, repairLands: bool, content: Key -> Bytes)
    requires SingleContent(c, content)
    ensures var r := Get(h, c, key, repairLands);
            && (r.answer.Err? || r.answer == Ok(None) || r.answer == Ok(Some(content(key))))
            && SingleContent(r.after, content)
  {
    var targets := Targets(h, c, key);
    LocatedHolds(c, targets, key);
    var at := Locate(c, targets, key);
    if key !in c.local && at.Ok? && at.value.Some? {
      assert Holds(StoreOf(c, at.value.value), content);
      var after := Get(h, c, key, repairLands).after;
      forall n ensures Holds(StoreOf(after, n), content) {
        assert Holds(StoreOf(c, n), content);
      }
    }
  }

  lemma StoreKeepsContent(c: Cache, n: NodeId, key: Key, content: Key -> Bytes)
    requires SingleContent(c, content)
    ensures SingleContent(StoreAt(c, n, key, content(key)), content)
  {
    forall m ensures Holds(StoreOf(StoreAt(c, n, key, content(key)), m), content) {
      assert Holds(StoreOf(c, m), content);
    }
  }

  lemma PutKeepsContent(h: string -> U64, c: Cache, key: Key, content: Key -> Bytes)
    requires SingleContent(c, content)
    ensures SingleContent(Put(h, c, key, content(key)), content)
  {
    var c' := Put(h, c, key, content(key));
    forall n ensures Holds(StoreOf(c', n), content) {
      assert Holds(StoreOf(c, n), content);
    }
    forall w | w in c'.pending ensures w.data == content(w.key) {
      if w !in c.pending {
        WritesCarry(Targets(h, c, key), key, content(key), w);
      }
    }
  }

  lemma EvictKeepsContent(c: Cache, id: NodeId, key: Key, content: Key -> Bytes)
    requires SingleContent(c, content)
    ensures SingleContent(c.(stores := c.stores[id := StoreOf(c, id) - {key}]), content)
  {
    var c' := c.(stores := c.stores[id := StoreOf(c, id) - {key}]);
    forall n ensures Holds(StoreOf(c', n), content) {
      assert Holds(StoreOf(c, n), content);
    }
  }

  lemma LessKeepsContent(c: Cache, less: Cache, content: Key -> Bytes)
    requires SingleContent(c, content) && less.stores == c.stores
    requires (forall k :: k in less.local ==> k in c.local && less.local[k] == c.local[k]) && less.pending <= c.pending
    ensures SingleContent(less, content)
  {
    forall n ensures Holds(StoreOf(less, n), content) {
      assert Holds(StoreOf(c, n), content);
    }
    assert forall w :: w in less.pending ==> w in c.pending;
  }

  lemma DeliverKeepsContent(h: string -> U64, c: Cache, w: Write, content: Key -> Bytes)
    requires SingleContent(c, content)
    ensures SingleContent(Next(h, c, Deliver(w)), content)
  {
    if w in c.pending {
      StoreKeepsContent(c, w.node, w.key, content);
      LessKeepsContent(StoreAt(c, w.node, w.key, w.data), Next(h, c, Deliver(w)), content);
    }
  }

  lemma NextKeepsContent(h: string -> U64, c: Cache, e: Event, content: Key -> Bytes)
    requires SingleContent(c, content) && PutsContent(e, content)
    ensures SingleContent(Next(h, c, e), content)
  {
    match e
    case DoPut(key, _) => PutKeepsContent(h, c, key, content);
    case DoGet(key, repairLands) => GetIsSound(h, c, key, repairLands, content);
    case Deliver(w) => DeliverKeepsContent(h, c, w, content);
    case EvictAt(id, key) => EvictKeepsContent(c, id, key, content);
    case _ => LessKeepsContent(c, Next(h, c, e), content);
  }

  /**
    Over every run of puts, gets, delayed or lost replication, membership changes,
    outages and evictions in which each key is put with one content, every store holds
    only that content and every get answers that content, nothing, or an error.
   */
  lemma {:induction false} OneContentEverywhere(h: string -> U64, c: Cache, events: seq<Event>, content: Key -> Bytes)
    requires SingleContent(c, content)
    requires forall i :: 0 <= i < |events| ==> PutsContent(events[i], content)
    ensures SingleContent(After(h, c, events), content)
    ensures forall key, lands ::
      var answer := Get(h, After(h, c, events), key, lands).answer;
      answer.Err? || answer == Ok(None) || answer == Ok(Some(content(key)))
  {
    if events != [] {
      var init := events[..|events| - 1];
      OneContentEverywhere(h, c, init, content);
      NextKeepsContent(h, After(h, c, init), events[|events| - 1], content);
    }
    forall key, lands
      ensures var answer := Get(h, After(h, c, events), key, lands).answer;
              answer.Err? || answer == Ok(None) || answer == Ok(Some(content(key)))
    {
      GetIsSound(h, After(h, c, events), key, lands, content);
    }
  }

  lemma {:induction false} ProbesFindWhatIsLocated(c: Cache, targets: seq<NodeId>, key: Key)
    ensures Locate(c, targets, key).Err? <==> ProbeAll(c, targets, key).Err?
    ensures Locate(c, targets, key).Ok? ==> ProbeAll(c, targets, key) == Ok(Locate(c, targets, key).value.Some?)
  {
    if targets != [] {
      ProbesFindWhatIsLocated(c, targets[1..], key);
    }
  }

  /** In one state `has` and `get` agree, errors included, and a hit leaves the key local. */
  lemma HasAgreesWithGet(h: string -> U64, c: Cache, key: Key, lands: bool)
    ensures var r := Get(h, c, key, lands);
            && (Has(h, c, key).Err? <==> r.answer.Err?)
            && (r.answer.Ok? ==> Has(h, c, key) == Ok(r.answer.value.Some?))
            && (r.answer.Ok? && r.answer.value.Some? ==>
                  && key in r.after.local && r.after.local[key] == r.answer.value.value
                  && Get(h, r.after, key, lands) == Read(r.answer, r.after))
            && (!(r.answer.Ok? && r.answer.value.Some?) ==> r.after == c)
  {
    LocatedHolds(c, Targets(h, c, key), key);
    ProbesFindWhatIsLocated(c, Targets(h, c, key), key);
  }

  // ----- what a get answers ------------------------------------------------------

  /** The first `i` targets all answer and none of them has the key. */
  ghost predicate NoneBefore(c: Cache, targets: seq<NodeId>, key: Key, i: nat)
    requires i <= |targets|
  {
    forall j :: 0 <= j < i ==> targets[j] in c.up && key !in StoreOf(c, targets[j])
  }

  lemma {:induction false} LocateSkips(c: Cache, targets: seq<NodeId>, key: Key, i: nat)
    requires i <= |targets| && NoneBefore(c, targets, key, i)
    ensures Locate(c, targets, key) == Locate(c, targets[i..], key)
  {
    if i > 0 {
      assert targets[0] in c.up && key !in StoreOf(c, targets[0]);
      assert NoneBefore(c, targets[1..], key, i - 1) by {
        forall j | 0 <= j < i - 1 ensures targets[1..][j] in c.up && key !in StoreOf(c, targets[1..][j]) {
          assert targets[1..][j] == targets[j + 1];
        }
      }
      LocateSkips(c, targets[1..], key, i - 1);
      assert targets[1..][i - 1..] == targets[i..];
    } else {
      assert targets[0..] == targets;
    }
  }

  /** What ends the search: the first target that does not answer or has the key, or the end of the list. */
  ghost predicate EndsAt(c: Cache, targets: seq<NodeId>, key: Key, i: nat) {
    && i <= |targets| && NoneBefore(c, targets, key, i)
    && (i < |targets| ==> targets[i] !in c.up || key in StoreOf(c, targets[i]))
  }

  lemma {:induction false} SearchEnds(c: Cache, targets: seq<NodeId>, key: Key)
    ensures exists i: nat :: EndsAt(c, targets, key, i)
  {
    if targets == [] || targets[0] !in c.up || key in StoreOf(c, targets[0]) {
      assert EndsAt(c, targets, key, 0);
    } else {
      SearchEnds(c, targets[1..], key);
      var j: nat :| EndsAt(c, targets[1..], key, j);
      forall k | 0 <= k < j + 1 ensures targets[k] in c.up && key !in StoreOf(c, targets[k]) {
        assert k > 0 ==> targets[k] == targets[1..][k - 1];
      }
      assert EndsAt(c, targets, key, j + 1);
    }
  }

  /**
    A get asks in order, primary first, and what ends the search decides: the first target
    that has the key answers with its data, one that does not answer first makes the get
    fail, and a search that ends without either finds nothing.
   */
  lemma GetAsksInOrder(h: string -> U64, c: Cache, key: Key, lands: bool, i: nat)
    requires EndsAt(c, Targets(h, c, key), key, i)
    ensures var targets, answer := Targets(h, c, key), Get(h, c, key, lands).answer;
            answer == if key in c.local then Ok(Some(c.local[key]))
                      else if i == |targets| then Ok(None)
                      else if targets[i] !in c.up then Err
                      else Ok(Some(StoreOf(c, targets[i])[key]))
  {
    LocateSkips(c, Targets(h, c, key), key, i);
  }

  // ----- the node that made the put --------------------------------------------

  /** A put is read back at once by the node that made it, whatever is linked or up. */
  lemma PutThenGet(h: string -> U64, c: Cache, key: Key, data: Bytes, lands: bool)
    ensures Get(h, Put(h, c, key, data), key, lands) == Read(Ok(Some(data)), Put(h, c, key, data))
    ensures Has(h, Put(h, c, key, data), key) == Ok(true)
  {
  }

  /** Events that neither evict the local copy nor put the key again. */
  predicate LeavesLocal(e: Event, key: Key) {
    e != EvictLocal(key) && !(e.DoPut? && e.key == key)
  }

  ghost predicate HeldLocally(c: Cache, key: Key, data: Bytes) {
    key in c.local && c.local[key] == data
  }

  lemma NextKeepsLocal(h: string -> U64, c: Cache, e: Event, key: Key, data: Bytes)
    requires HeldLocally(c, key, data) && LeavesLocal(e, key)
    ensures HeldLocally(Next(h, c, e), key, data)
  {
  }

  lemma {:induction false} RunsKeepLocal(h: string -> U64, c: Cache, events: seq<Event>, key: Key, data: Bytes)
    requires HeldLocally(c, key, data) && forall i :: 0 <= i < |events| ==> LeavesLocal(events[i], key)
    ensures HeldLocally(After(h, c, events), key, data)
  {
    if events != [] {
      RunsKeepLocal(h, c, events[..|events| - 1], key, data);
      NextKeepsLocal(h, After(h, c, events[..|events| - 1]), events[|events| - 1], key, data);
    }
  }

  /** And it stays readable there over every run without a local eviction or another put of the key. */
  lemma PutStaysLocal(h: string -> U64, c: Cache, key: Key, data: Bytes, events: seq<Event>, lands: bool)
    requires forall i :: 0 <= i < |events| ==> LeavesLocal(events[i], key)
    ensures var c' := After(h, Put(h, c, key, data), events);
            Get(h, c', key, lands).answer == Ok(Some(data)) && Has(h, c', key) == Ok(true)
  {
    RunsKeepLocal(h, Put(h, c, key, data), events, key, data);
  }

  // ----- retention at the primary ----------------------------------------------

  /** Events that neither take the key from node `p` nor make another node its primary. */
  ghost predicate Retains(h: string -> U64, c: Cache, e: Event, p: NodeId, key: Key) {
    match e
    case Member(Join(id)) => id == p || Owner(AddNode(h, c.ring, id, VIRTUAL_NODES), h(key)) != Some(id)
    case Member(Leave(id)) => id != p
    case EvictAt(id, evicted) => id != p || evicted != key
    case _ => true
  }

  ghost predicate KeptAtPrimary(h: string -> U64, c: Cache, p: NodeId, key: Key) {
    Owner(c.ring, h(key)) == Some(p) && p in c.linked && key in StoreOf(c, p)
  }

  lemma NextRetains(h: string -> U64, c: Cache, e: Event, p: NodeId, key: Key)
    requires KeptAtPrimary(h, c, p, key) && Retains(h, c, e, p, key)
    ensures KeptAtPrimary(h, Next(h, c, e), p, key)
  {
    match e
    case Member(Join(id)) => AddingMovesKeysOnlyToTheNewNode(h, c.ring, id, VIRTUAL_NODES, h(key));
    case Member(Leave(id)) => RemovingMovesOnlyOwnedKeys(c.ring, id, h(key));
    case _ =>
  }

  lemma KeptIsRead(h: string -> U64, c: Cache, p: NodeId, key: Key, content: Key -> Bytes, lands: bool)
    requires KeptAtPrimary(h, c, p, key) && SingleContent(c, content) && p in c.up
    ensures Get(h, c, key, lands).answer == Ok(Some(content(key)))
  {
    assert Responsible(c, h(key))[0] == p;
    assert Targets(h, c, key)[0] == p;
    assert Locate(c, Targets(h, c, key), key) == Ok(Some(p));
    GetIsSound(h, c, key, lands, content);
  }

  ghost predicate RetainsAt(h: string -> U64, c: Cache, events: seq<Event>, i: nat, p: NodeId, key: Key)
    requires i < |events|
  {
    Retains(h, After(h, c, events[..i]), events[i], p, key)
  }

  lemma {:induction false} RunsRetain(h: string -> U64, c: Cache, events: seq<Event>, n: nat, p: NodeId, key: Key)
    requires KeptAtPrimary(h, c, p, key) && n <= |events|
    requires forall i: nat :: i < |events| ==> RetainsAt(h, c, events, i, p, key)
    ensures KeptAtPrimary(h, After(h, c, events[..n]), p, key)
  {
    if n > 0 {
      RunsRetain(h, c, events, n - 1, p, key);
      assert RetainsAt(h, c, events, n - 1, p, key);
      assert events[..n][..n - 1] == events[..n - 1];
      NextRetains(h, After(h, c, events[..n - 1]), events[n - 1], p, key);
    }
  }

  /**
    Data that reached its primary stays there over every run in which the primary stays a
    member, keeps the key and is not displaced by a joining node, whatever other nodes
    leave. It reads back whenever the primary answers, after any number of outages and
    even once the local copy is gone.
   */
  lemma PrimaryKeepsData(
    h: string -> U64, c: Cache, events: seq<Event>, p: NodeId, key: Key, content: Key -> Bytes, lands: bool)
    requires KeptAtPrimary(h, c, p, key) && SingleContent(c, content)
    requires forall i :: 0 <= i < |events| ==> PutsContent(events[i], content)
    requires forall i: nat :: i < |events| ==> RetainsAt(h, c, events, i, p, key)
    ensures KeptAtPrimary(h, After(h, c, events), p, key)
    ensures p in After(h, c, events).up ==> Get(h, After(h, c, events), key, lands).answer == Ok(Some(content(key)))
  {
    RunsRetain(h, c, events, |events|, p, key);
    assert events[..|events|] == events;
    OneContentEverywhere(h, c, events, content);
    if p in After(h, c, events).up {
      KeptIsRead(h, After(h, c, events), p, key, content, lands);
    }
  }

  // ----- replication and repair --------------------------------------------------

  lemma {:induction false} LinkedIsFilter(ids: seq<NodeId>, linked: set<NodeId>, n: NodeId)
    ensures n in Linked(ids, linked) <==> n in ids && n in linked
    ensures ids != [] && ids[0] in linked ==> Linked(ids, linked) != [] && Linked(ids, linked)[0] == ids[0]
    ensures multiset(Linked(ids, linked))[n] == if n in linked then multiset(ids)[n] else 0
  {
    if ids != [] {
      assert ids == [ids[0]] + ids[1..];
      LinkedIsFilter(ids[1..], linked, n);
    }
  }

  lemma {:induction false} WritesCount(targets: seq<NodeId>, key: Key, data: Bytes, n: NodeId)
    ensures Writes(targets, key, data)[Write(n, key, data)] == multiset(targets)[n]
  {
    if targets != [] {
      assert targets == [targets[0]] + targets[1..];
      WritesCount(targets[1..], key, data, n);
    }
  }

  lemma ResponsibleOnce(c: Cache, k: U64, n: NodeId)
    ensures multiset(Responsible(c, k))[n] ==
            if Owner(c.ring, k) == Some(n) || n in ReplicaNodes(c.ring, k, c.factor) then 1 else 0
  {
    var replicas := ReplicaNodes(c.ring, k, c.factor);
    ReplicasAreSound(c.ring, k, c.factor);
    DistinctCountsOnce(replicas, n);
    assert Owner(c.ring, k) == Some(n) ==> n !in replicas;
  }

  lemma {:induction false} DistinctCountsOnce(ids: seq<NodeId>, n: NodeId)
    requires Distinct(ids)
    ensures multiset(ids)[n] == if n in ids then 1 else 0
  {
    if ids != [] {
      assert ids == [ids[0]] + ids[1..];
      DistinctCountsOnce(ids[1..], n);
    }
  }

  /** A put sends exactly one write to every linked primary or replica of the key, and none to any other node. */
  lemma PutSendsOneWriteEach(h: string -> U64, c: Cache, key: Key, data: Bytes, n: NodeId)
    ensures var w := Write(n, key, data);
            Put(h, c, key, data).pending[w] == c.pending[w] +
              if n in Responsible(c, h(key)) && n in c.linked then 1 else 0
  {
    LinkedIsFilter(Responsible(c, h(key)), c.linked, n);
    WritesCount(Targets(h, c, key), key, data, n);
    ResponsibleOnce(c, h(key), n);
  }

  /** Once its write to the primary lands, a put is kept there, so `PrimaryKeepsData` applies from then on. */
  lemma DeliveredPutIsKept(h: string -> U64, c: Cache, key: Key, data: Bytes, p: NodeId)
    requires Owner(c.ring, h(key)) == Some(p) && p in c.linked
    ensures KeptAtPrimary(h, Next(h, Next(h, c, DoPut(key, data)), Deliver(Write(p, key, data))), p, key)
  {
    PutSendsOneWriteEach(h, c, key, data, p);
  }

  lemma {:induction false} LocateIsExact(c: Cache, targets: seq<NodeId>, key: Key)
    requires forall i :: 0 <= i < |targets| ==> targets[i] in c.up
    ensures Locate(c, targets, key).Ok?
    ensures Locate(c, targets, key).value.Some? <==> exists i :: 0 <= i < |targets| && key in StoreOf(c, targets[i])
  {
    if targets != [] {
      LocateIsExact(c, targets[1..], key);
      if i :| 0 <= i < |targets| && key in StoreOf(c, targets[i]) {
        assert i > 0 ==> targets[1..][i - 1] == targets[i];
      }
    }
  }

  /** With every target answering, a get finds the key exactly when it is local or one of them holds it. */
  lemma GetIsExact(h: string -> U64, c: Cache, key: Key, lands: bool)
    requires forall n :: n in Targets(h, c, key) ==> n in c.up
    ensures Get(h, c, key, lands).answer.Ok?
    ensures Get(h, c, key, lands).answer.value.Some? <==>
            key in c.local || exists n :: n in Targets(h, c, key) && key in StoreOf(c, n)
  {
    var targets := Targets(h, c, key);
    LocateIsExact(c, targets, key);
    if n :| n in targets && key in StoreOf(c, n) {
      var i :| 0 <= i < |targets| && targets[i] == n;
    }
  }

  /** Read repair: a get answered by a replica, whose write back lands, leaves the key at its primary. */
  lemma RepairRestoresPrimary(h: string -> U64, c: Cache, key: Key, p: NodeId)
    requires key !in c.local && Owner(c.ring, h(key)) == Some(p) && p in c.linked && p in c.up
    requires var r := Get(h, c, key, true); r.answer.Ok? && r.answer.value.Some?
    ensures KeptAtPrimary(h, Get(h, c, key, true).after, p, key)
  {
    LocatedHolds(c, Targets(h, c, key), key);
  }

  // ----- the object -------------------------------------------------------------

  function DataAt(c: Cache, at: Result<Option<NodeId>>, key: Key): Result<Option<Bytes>> {
    match at
    case Err => Err
    case Ok(None) => Ok(None)
    case Ok(Some(n)) => if key in StoreOf(c, n) then Ok(Some(StoreOf(c, n)[key])) else Ok(None)
  }

  /** The primary is asked first; what follows is the search among the replicas, none of which is the primary. */
  lemma SearchOrder(h: string -> U64, c: Cache, key: Key)
    ensures var primary := Owner(c.ring, h(key));
            var rest := Linked(ReplicaNodes(c.ring, h(key), c.factor), c.linked);
            && Targets(h, c, key) ==
               (if primary.Some? && primary.value in c.linked then [primary.value] + rest else rest)
            && (primary.Some? ==> primary.value !in rest)
            && (Locate(c, rest, key).Ok? && Locate(c, rest, key).value.Some? ==>
                  Locate(c, rest, key).value.value in rest && key in StoreOf(c, Locate(c, rest, key).value.value))
  {
    var primary, replicas := Owner(c.ring, h(key)), ReplicaNodes(c.ring, h(key), c.factor);
    ReplicasAreSound(c.ring, h(key), c.factor);
    LocatedHolds(c, Linked(replicas, c.linked), key);
    if primary.Some? {
      LinkedIsFilter(replicas, c.linked, primary.value);
      assert Responsible(c, h(key))[1..] == replicas;
    } else {
      assert Responsible(c, h(key)) == replicas;
    }
  }

  lemma WritesFirst(ids: seq<NodeId>, linked: set<NodeId>, key: Key, data: Bytes)
    requires ids != []
    ensures Writes(Linked(ids, linked), key, data) ==
            (if ids[0] in linked then multiset{Write(ids[0], key, data)} else multiset{})
            + Writes(Linked(ids[1..], linked), key, data)
  {
    var rest := Linked(ids[1..], linked);
    assert ids[0] in linked ==> ([ids[0]] + rest)[1..] == rest;
  }

  lemma TargetWrites(h: string -> U64, c: Cache, key: Key, data: Bytes)
    ensures var p := Owner(c.ring, h(key));
            Writes(Targets(h, c, key), key, data) ==
            (if p.Some? && p.value in c.linked then multiset{Write(p.value, key, data)} else multiset{})
            + Writes(Linked(ReplicaNodes(c.ring, h(key), c.factor), c.linked), key, data)
  {
    var p, replicas := Owner(c.ring, h(key)), ReplicaNodes(c.ring, h(key), c.factor);
    if p.Some? {
      assert Responsible(c, h(key))[1..] == replicas;
      WritesFirst(Responsible(c, h(key)), c.linked, key, data);
    } else {
      assert Responsible(c, h(key)) == replicas;
    }
  }

  /** The background writes once the primary's was added. */
  function AfterPrimary(c: Cache, p: Option<NodeId>, key: Key, data: Bytes): multiset<Write> {
    if p.Some? && p.value in c.linked then c.pending + multiset{Write(p.value, key, data)} else c.pending
  }

  lemma PutInParts(h: string -> U64, c: Cache, key: Key, data: Bytes)
    ensures var rest := Writes(Linked(ReplicaNodes(c.ring, h(key), c.factor), c.linked), key, data);
            Put(h, c, key, data) ==
            c.(local := c.local[key := data], pending := AfterPrimary(c, Owner(c.ring, h(key)), key, data) + rest)
  {
    TargetWrites(h, c, key, data);
  }

  /** What a get is once it has asked a linked primary that fails to answer or has the key. */
  lemma GetAtPrimary(h: string -> U64, c: Cache, key: Key, lands: bool, p: NodeId)
    requires key !in c.local && Owner(c.ring, h(key)) == Some(p) && p in c.linked
    ensures p !in c.up ==> Get(h, c, key, lands) == Read(Err, c)
    ensures p in c.up && key in StoreOf(c, p) ==>
              var data := StoreOf(c, p)[key];
              Get(h, c, key, lands) == Read(Ok(Some(data)), c.(local := c.local[key := data]))
  {
    SearchOrder(h, c, key);
  }

  /** What a get is once no linked primary has the key: a search among the replicas, and the repair. */
  lemma GetElsewhere(h: string -> U64, c: Cache, key: Key, lands: bool)
    requires key !in c.local
    requires var p := Owner(c.ring, h(key));
             p.Some? && p.value in c.linked ==> p.value in c.up && key !in StoreOf(c, p.value)
    ensures var p := Owner(c.ring, h(key));
            var rest := Linked(ReplicaNodes(c.ring, h(key), c.factor), c.linked);
            var found := DataAt(c, Locate(c, rest, key), key);
            Get(h, c, key, lands) == Read(found,
              if found.Err? || found.value.None? then c
              else
                var cached := c.(local := c.local[key := found.value.value]);
                if p.Some? && p.value in c.linked && p.value in c.up && lands then
                  StoreAt(cached, p.value, key, found.value.value)
                else cached)
  {
    SearchOrder(h, c, key);
  }

  class DistributedCache {
    const cluster: CacheCluster
    var local: Store
    var stores: map<NodeId, Store>
    var linked: set<NodeId>
    var up: set<NodeId>
    var pending: multiset<Write>

    ghost function State(): Cache
      reads this, cluster, cluster.ring
    {
      Cache(cluster.ring.nodes, cluster.replicationFactor, local, stores, linked, up, pending)
    }

    ghost predicate Valid()
      reads this, cluster, cluster.ring
    {
      cluster.Valid()
    }

    constructor (cluster: CacheCluster)
      requires cluster.Valid()
      ensures Valid() && this.cluster == cluster
      ensures State() == Cache(cluster.ring.nodes, cluster.replicationFactor, map[], map[], {}, {}, multiset{})
    {
      this.cluster := cluster;
      local, stores, linked, up, pending := map[], map[], {}, {}, multiset{};
    }

    /** Asks one node: its data, nothing, or an error when it does not answer. */
    method Ask(node: NodeId, key: Key) returns (r: Result<Option<Bytes>>)
      ensures r == if node !in up then Err
                   else if key in StoreOf(State(), node) then Ok(Some(StoreOf(State(), node)[key]))
                   else Ok(None)
    {
      if node !in up {
        return Err;
      }
      if node in stores && key in stores[node] {
        return Ok(Some(stores[node][key]));
      }
      return Ok(None);
    }

    /** Asks one node whether it has the key; an error when it does not answer. */
    method Probe(node: NodeId, key: Key) returns (r: Result<bool>)
      ensures r == if node !in up then Err else Ok(key in StoreOf(State(), node))
    {
      if node !in up {
        return Err;
      }
      return Ok(node in stores && key in stores[node]);
    }

    method HasKey(key: Key) returns (r: Result<bool>)
      requires Valid()
      ensures r == Has(cluster.ring.h, State(), key)
    {
      if key in local {
        return Ok(true);
      }
      var primary := cluster.ring.GetNode(key);
      SearchOrder(cluster.ring.h, State(), key);
      if primary.Some? && primary.value in linked {
        r := Probe(primary.value, key);
        if r.Err? || r.value {
          return;
        }
      }
      var replicas := cluster.GetReplicaNodes(key);
      for i := 0 to |replicas|
        invariant Has(cluster.ring.h, State(), key) == ProbeAll(State(), Linked(replicas[i..], linked), key)
      {
        assert replicas[i..][1..] == replicas[i + 1..];
        if replicas[i] in linked {
          r := Probe(replicas[i], key);
          if r.Err? || r.value {
            return;
          }
        }
      }
      r := Ok(false);
    }

    method SearchReplicas(replicas: seq<NodeId>, key: Key) returns (r: Result<Option<Bytes>>)
      ensures r == DataAt(State(), Locate(State(), Linked(replicas, linked), key), key)
    {
      for i := 0 to |replicas|
        invariant Locate(State(), Linked(replicas, linked), key) == Locate(State(), Linked(replicas[i..], linked), key)
      {
        assert replicas[i..][1..] == replicas[i + 1..];
        if replicas[i] in linked {
          r := Ask(replicas[i], key);
          if r.Err? || r.value.Some? {
            return;
          }
        }
      }
      r := Ok(None);
    }

    method ReadThrough(key: Key, repairLands: bool) returns (r: Result<Option<Bytes>>)
      requires Valid()
      modifies this
      ensures Valid()
      ensures Read(r, State()) == Get(cluster.ring.h, old(State()), key, repairLands)
    {
      if key in local {
        return Ok(Some(local[key]));
      }
      var primary := cluster.ring.GetNode(key);
      var replicas := cluster.GetReplicaNodes(key);
      if primary.Some? && primary.value in linked {
        r := Ask(primary.value, key);
        GetAtPrimary(cluster.ring.h, State(), key, repairLands, primary.value);
        if r.Err? {
          return;
        }
        if r.value.Some? {
          local := local[key := r.value.value];
          return;
        }
      }
      GetElsewhere(cluster.ring.h, State(), key, repairLands);
      r := SearchReplicas(replicas, key);
      if r.Ok? && r.value.Some? {
        local := local[key := r.value.value];
        if primary.Some? && primary.value in linked && primary.value in up && repairLands {
          var s := if primary.value in stores then stores[primary.value] else map[];
          stores := stores[primary.value := s[key := r.value.value]];
        }
      }
    }

    /** One background task per replica that has a client. */
    method SendCopies(replicas: seq<NodeId>, key: Key, data: Bytes)
      modifies `pending
      ensures pending == old(pending) + Writes(Linked(replicas, linked), key, data)
    {
      for i := 0 to |replicas|
        invariant pending + Writes(Linked(replicas[i..], linked), key, data) ==
                  old(pending) + Writes(Linked(replicas, linked), key, data)
      {
        assert replicas[i..][1..] == replicas[i + 1..];
        WritesFirst(replicas[i..], linked, key, data);
        if replicas[i] in linked {
          pending := pending + multiset{Write(replicas[i], key, data)};
        }
      }
    }

    /** One background task for the primary, if it has a client, and one per such replica. */
    method Replicate(key: Key, data: Bytes)
      requires Valid()
      modifies `pending
      ensures var c, h := old(State()), cluster.ring.h;
              pending == AfterPrimary(c, Owner(c.ring, h(key)), key, data)
                         + Writes(Linked(ReplicaNodes(c.ring, h(key), c.factor), c.linked), key, data)
    {
      var primary := cluster.ring.GetNode(key);
      var replicas := cluster.GetReplicaNodes(key);
      if primary.Some? && primary.value in linked {
        pending := pending + multiset{Write(primary.value, key, data)};
      }
      SendCopies(replicas, key, data);
    }

    method WriteReplicated(key: Key, data: Bytes)
      requires Valid()
      modifies this
      ensures Valid() && State() == Put(cluster.ring.h, old(State()), key, data)
    {
      local := local[key := data];
      Replicate(key, data);
      PutInParts(cluster.ring.h, old(State()), key, data);
    }
  }
}
