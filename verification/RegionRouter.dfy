/**
  Routing between cache regions: reads try the healthy regions in configured order,
  writes go to the first healthy region and are copied to the others by background
  tasks that may land late or never.
 */
module RegionRouting {
  import opened Common

  type Key = string
  type Store = map<Key, Bytes>

  /** `healthy` is the router's view, `reachable` whether a call would get through. */
  datatype Region = Region(name: string, healthy: bool, reachable: bool, store: Store)

  datatype Write = Write(region: nat, key: Key, data: Bytes)

  datatype Router = Router(regions: seq<Region>, pending: multiset<Write>)

  // ----- selection -------------------------------------------------------------------

  function NodesForRead(regions: seq<Region>, n: nat): (r: seq<nat>)
    requires n <= |regions|
    ensures forall i :: 0 <= i < |r| ==> r[i] < n && regions[r[i]].healthy
    ensures forall i: nat :: i in r <==> i < n && regions[i].healthy
    ensures forall i, j :: 0 <= i < j < |r| ==> r[i] < r[j]
  {
    if n == 0 then []
    else
      var r := NodesForRead(regions, n - 1);
      if regions[n - 1].healthy then r + [n - 1] else r
  }

  function FirstHealthy(regions: seq<Region>, from: nat): (i: nat)
    requires from <= |regions|
    ensures from <= i <= |regions|
    ensures i < |regions| ==> regions[i].healthy
    ensures forall j :: from <= j < i ==> !regions[j].healthy
    decreases |regions| - from
  {
    if from == |regions| || regions[from].healthy then from else FirstHealthy(regions, from + 1)
  }

  /** The first healthy region; the very first one when none is. */
  function PrimaryForWrite(regions: seq<Region>): (i: nat)
    requires regions != []
    ensures i < |regions|
  {
    var i := FirstHealthy(regions, 0);
    if i < |regions| then i else 0
  }

  /** With some region healthy, the write primary is the first region a read tries. */
  lemma PrimaryIsReadFirst(regions: seq<Region>)
    requires exists i :: 0 <= i < |regions| && regions[i].healthy
    ensures var order := NodesForRead(regions, |regions|);
            order != [] && order[0] == PrimaryForWrite(regions) && regions[order[0]].healthy
  {
    var order := NodesForRead(regions, |regions|);
    var p := FirstHealthy(regions, 0);
    var i :| 0 <= i < |regions| && regions[i].healthy;
    assert p in order;
    assert order[0] in order;
  }

  // ----- operations --------------------------------------------------------------------

  function Locate(regions: seq<Region>, order: seq<nat>, key: Key): Option<Bytes>
    requires forall i :: 0 <= i < |order| ==> order[i] < |regions|
  {
    if order == [] then None
    else
      var r := regions[order[0]];
      if r.reachable && key in r.store then Some(r.store[key]) else Locate(regions, order[1..], key)
  }

  function Get(rt: Router, key: Key): Option<Bytes> {
    Locate(rt.regions, NodesForRead(rt.regions, |rt.regions|), key)
  }

  function StoreIn(regions: seq<Region>, i: nat, key: Key, data: Bytes): seq<Region>
    requires i < |regions|
  {
    regions[i := regions[i].(store := regions[i].store[key := data])]
  }

  /** Copies go to every region that does not bear the primary's name. */
  function ReplicaWrites(regions: seq<Region>, n: nat, primary: string, key: Key, data: Bytes): multiset<Write>
    requires n <= |regions|
  {
    if n == 0 then multiset{}
    else
      ReplicaWrites(regions, n - 1, primary, key, data)
      + if regions[n - 1].name != primary then multiset{Write(n - 1, key, data)} else multiset{}
  }

  /** Err: the primary did not accept the write, and nothing was sent to any replica. */
  function Put(rt: Router, key: Key, data: Bytes): Result<Router>
    requires rt.regions != []
  {
    var p := PrimaryForWrite(rt.regions);
    if !rt.regions[p].reachable then Err
    else
      Ok(Router(StoreIn(rt.regions, p, key, data),
                rt.pending + ReplicaWrites(rt.regions, |rt.regions|, rt.regions[p].name, key, data)))
  }

  datatype Event =
    | DoPut(key: Key, data: Bytes)
    | Land(w: Write)
    | Lose(w: Write)
    | Status(region: nat, healthy: bool, reachable: bool)

  function Next(rt: Router, e: Event): Router {
    match e
    case DoPut(key, data) =>
      if rt.regions == [] then rt else (match Put(rt, key, data) case Ok(after) => after case Err => rt)
    case Land(w) =>
      if w in rt.pending && w.region < |rt.regions| then
        Router(StoreIn(rt.regions, w.region, w.key, w.data), rt.pending - multiset{w})
      else rt
    case Lose(w) => rt.(pending := rt.pending - multiset{w})
    case Status(i, healthy, reachable) =>
      if i < |rt.regions| then
        rt.(regions := rt.regions[i := rt.regions[i].(healthy := healthy, reachable := reachable)])
      else rt
  }

  function After(rt: Router, events: seq<Event>): Router {
    if events == [] then rt else Next(After(rt, events[..|events| - 1]), events[|events| - 1])
  }

  // ----- reads ----------------------------------------------------------------------------

  lemma {:induction false} LocateIsExact(regions: seq<Region>, order: seq<nat>, key: Key)
    requires forall i :: 0 <= i < |order| ==> order[i] < |regions|
    ensures Locate(regions, order, key).Some? <==>
            exists i :: 0 <= i < |order| && regions[order[i]].reachable && key in regions[order[i]].store
  {
    if order != [] {
      LocateIsExact(regions, order[1..], key);
      if i :| 0 <= i < |order| && regions[order[i]].reachable && key in regions[order[i]].store {
        assert i > 0 ==> order[1..][i - 1] == order[i];
      }
    }
  }

  /** A read succeeds exactly when some healthy, reachable region holds the key. */
  lemma GetIsExact(rt: Router, key: Key)
    ensures Get(rt, key).Some? <==>
            exists i ::
              0 <= i < |rt.regions| && rt.regions[i].healthy && rt.regions[i].reachable && key in rt.regions[i].store
  {
    var order := NodesForRead(rt.regions, |rt.regions|);
    LocateIsExact(rt.regions, order, key);
    if i :| 0 <= i < |rt.regions| && rt.regions[i].healthy && rt.regions[i].reachable && key in rt.regions[i].store {
      assert i in order;
      var j :| 0 <= j < |order| && order[j] == i;
    }
  }

  /** With no region healthy a write still goes to the first region, where no read looks. */
  lemma UnhealthyWritesAreUnread(rt: Router, key: Key, data: Bytes)
    requires rt.regions != [] && rt.regions[0].reachable
    requires forall i :: 0 <= i < |rt.regions| ==> !rt.regions[i].healthy
    ensures Put(rt, key, data).Ok? && Holds(Put(rt, key, data).value, 0, key)
    ensures Get(Put(rt, key, data).value, key) == None
  {
    GetIsExact(Put(rt, key, data).value, key);
  }

  ghost predicate Holds(rt: Router, i: nat, key: Key) {
    i < |rt.regions| && key in rt.regions[i].store
  }

  /** Reads go to this region and get through. */
  predicate Answers(rt: Router, i: nat) {
    i < |rt.regions| && rt.regions[i].healthy && rt.regions[i].reachable
  }

  lemma NextKeepsHeld(rt: Router, e: Event, i: nat, key: Key)
    ensures |Next(rt, e).regions| == |rt.regions|
    ensures Holds(rt, i, key) ==> Holds(Next(rt, e), i, key)
  {
  }

  /** Nothing removes data, so a region that holds a key at some moment keeps it for the rest of the run. */
  lemma {:induction false} HeldFromThenOn(rt: Router, events: seq<Event>, k: nat, i: nat, key: Key)
    requires k <= |events|
    ensures |After(rt, events).regions| == |rt.regions|
    ensures Holds(After(rt, events[..k]), i, key) ==> Holds(After(rt, events), i, key)
  {
    if events != [] {
      var init := events[..|events| - 1];
      HeldFromThenOn(rt, init, if k < |events| then k else 0, i, key);
      assert k < |events| ==> init[..k] == events[..k];
      assert k == |events| ==> events[..k] == events;
      NextKeepsHeld(After(rt, init), events[|events| - 1], i, key);
    }
  }

  lemma HeldStaysHeld(rt: Router, events: seq<Event>, i: nat, key: Key)
    ensures |After(rt, events).regions| == |rt.regions|
    ensures Holds(rt, i, key) ==> Holds(After(rt, events), i, key)
  {
    HeldFromThenOn(rt, events, 0, i, key);
  }

  ghost predicate SingleContent(rt: Router, content: Key -> Bytes) {
    && (forall i :: 0 <= i < |rt.regions| ==> StoreHolds(rt.regions[i].store, content))
    && (forall w :: w in rt.pending ==> w.data == content(w.key))
  }

  ghost predicate StoreHolds(s: Store, content: Key -> Bytes) {
    forall k :: k in s ==> s[k] == content(k)
  }

  ghost predicate PutsContent(e: Event, content: Key -> Bytes) {
    e.DoPut? ==> e.data == content(e.key)
  }

  ghost predicate AllPutContent(events: seq<Event>, content: Key -> Bytes) {
    forall i :: 0 <= i < |events| ==> PutsContent(events[i], content)
  }

  lemma NextKeepsContent(rt: Router, e: Event, content: Key -> Bytes)
    requires SingleContent(rt, content) && PutsContent(e, content)
    ensures SingleContent(Next(rt, e), content)
  {
    if e.DoPut? && rt.regions != [] {
      var p := PrimaryForWrite(rt.regions);
      forall w | w in ReplicaWrites(rt.regions, |rt.regions|, rt.regions[p].name, e.key, e.data)
        ensures w.data == content(w.key)
      {
        ReplicaWritesCover(rt.regions, |rt.regions|, rt.regions[p].name, e.key, e.data, w);
      }
    }
  }

  lemma {:induction false} RunsKeepContent(rt: Router, events: seq<Event>, content: Key -> Bytes)
    requires SingleContent(rt, content) && AllPutContent(events, content)
    ensures SingleContent(After(rt, events), content)
  {
    if events != [] {
      RunsKeepContent(rt, events[..|events| - 1], content);
      NextKeepsContent(After(rt, events[..|events| - 1]), events[|events| - 1], content);
    }
  }

  lemma {:induction false} LocatedIsContent(regions: seq<Region>, order: seq<nat>, key: Key, content: Key -> Bytes)
    requires forall i :: 0 <= i < |order| ==> order[i] < |regions|
    requires forall i :: 0 <= i < |regions| ==> StoreHolds(regions[i].store, content)
    ensures Locate(regions, order, key).Some? ==> Locate(regions, order, key) == Some(content(key))
  {
    if order != [] {
      assert StoreHolds(regions[order[0]].store, content);
      LocatedIsContent(regions, order[1..], key, content);
    }
  }

  /** Region `i` is the first healthy one, or the very first when none is. */
  ghost predicate IsPrimary(regions: seq<Region>, i: nat) {
    i < |regions| &&
    if regions[i].healthy then forall j :: 0 <= j < i ==> !regions[j].healthy
    else i == 0 && forall j :: 0 <= j < |regions| ==> !regions[j].healthy
  }

  /** A put is accepted if and only if the region it must go to is reachable, and then that region holds the data. */
  lemma PutIsAcceptedIff(rt: Router, key: Key, data: Bytes, p: nat)
    requires IsPrimary(rt.regions, p)
    ensures Put(rt, key, data).Ok? <==> rt.regions[p].reachable
    ensures Put(rt, key, data).Ok? ==>
      var after := Put(rt, key, data).value;
      && |after.regions| == |rt.regions| && Holds(after, p, key) && after.regions[p].store[key] == data
      && forall i :: 0 <= i < |rt.regions| && i != p ==> after.regions[i] == rt.regions[i]
  {
  }

  /** A get asks the healthy regions in order: the first reachable one that has the key answers with its data. */
  lemma GetAsksInOrder(rt: Router, key: Key, i: nat)
    requires Answers(rt, i) && key in rt.regions[i].store
    requires forall j :: 0 <= j < i && Answers(rt, j) ==> key !in rt.regions[j].store
    ensures Get(rt, key) == Some(rt.regions[i].store[key])
  {
    var order := NodesForRead(rt.regions, |rt.regions|);
    assert i in order;
    var k :| 0 <= k < |order| && order[k] == i;
    LocateSkips(rt.regions, order, key, k);
  }

  lemma {:induction false} LocateSkips(regions: seq<Region>, order: seq<nat>, key: Key, k: nat)
    requires (forall i :: 0 <= i < |order| ==> order[i] < |regions|) && k < |order|
    requires forall j :: 0 <= j < k ==> !(regions[order[j]].reachable && key in regions[order[j]].store)
    requires regions[order[k]].reachable && key in regions[order[k]].store
    ensures Locate(regions, order, key) == Some(regions[order[k]].store[key])
  {
    if k > 0 {
      assert forall j :: 0 <= j < k - 1 ==> order[1..][j] == order[j + 1];
      LocateSkips(regions, order[1..], key, k - 1);
    }
  }

  /** A put is what the very next get answers, as long as some region was healthy. */
  lemma PutThenGet(rt: Router, key: Key, data: Bytes)
    requires rt.regions != [] && Put(rt, key, data).Ok?
    requires exists i :: 0 <= i < |rt.regions| && rt.regions[i].healthy
    ensures Get(Put(rt, key, data).value, key) == Some(data)
  {
    var after := Put(rt, key, data).value;
    PrimaryIsReadFirst(rt.regions);
    SameHealthSameOrder(rt.regions, after.regions, |rt.regions|);
    var order := NodesForRead(after.regions, |after.regions|);
    assert order == NodesForRead(rt.regions, |rt.regions|);
    assert after.regions[order[0]].reachable && after.regions[order[0]].store[key] == data;
  }

  /** An accepted put is what the next get answers if and only if some region is healthy. */
  lemma PutIsReadIffSomeHealthy(rt: Router, key: Key, data: Bytes)
    requires rt.regions != [] && Put(rt, key, data).Ok?
    ensures Get(Put(rt, key, data).value, key) == Some(data) <==>
            exists i :: 0 <= i < |rt.regions| && rt.regions[i].healthy
  {
    if i :| 0 <= i < |rt.regions| && rt.regions[i].healthy {
      PutThenGet(rt, key, data);
    } else {
      UnhealthyWritesAreUnread(rt, key, data);
    }
  }

  lemma {:induction false} SameHealthSameOrder(a: seq<Region>, b: seq<Region>, n: nat)
    requires n <= |a| == |b| && forall i :: 0 <= i < |a| ==> a[i].healthy == b[i].healthy
    ensures NodesForRead(a, n) == NodesForRead(b, n)
  {
    if n > 0 {
      SameHealthSameOrder(a, b, n - 1);
    }
  }

  /**
    With one content per key, what was put reads back exactly after every run (later puts,
    landed or lost copies, changing health) that ends with the region it was written to
    healthy and reachable.
   */
  lemma PutStaysReadable(rt: Router, key: Key, events: seq<Event>, content: Key -> Bytes)
    requires rt.regions != [] && SingleContent(rt, content) && Put(rt, key, content(key)).Ok?
    requires AllPutContent(events, content)
    requires Answers(After(Put(rt, key, content(key)).value, events), PrimaryForWrite(rt.regions))
    ensures Get(After(Put(rt, key, content(key)).value, events), key) == Some(content(key))
  {
    var after := Put(rt, key, content(key)).value;
    var end := After(after, events);
    assert after == Next(rt, DoPut(key, content(key)));
    NextKeepsContent(rt, DoPut(key, content(key)), content);
    RunsKeepContent(after, events, content);
    HeldStaysHeld(after, events, PrimaryForWrite(rt.regions), key);
    GetIsExact(end, key);
    LocatedIsContent(end.regions, NodesForRead(end.regions, |end.regions|), key, content);
  }

  // ----- replication ------------------------------------------------------------------------

  lemma {:induction false} ReplicaWritesCover(
    regions: seq<Region>, n: nat, primary: string, key: Key, data: Bytes, w: Write)
    requires n <= |regions|
    ensures w in ReplicaWrites(regions, n, primary, key, data) <==>
            w.region < n && regions[w.region].name != primary && w.key == key && w.data == data
  {
    if n > 0 {
      ReplicaWritesCover(regions, n - 1, primary, key, data, w);
    }
  }

  ghost predicate DistinctNames(regions: seq<Region>) {
    forall i, j :: 0 <= i < j < |regions| ==> regions[i].name != regions[j].name
  }

  /** A put stores at the primary and sends one copy to each region that does not share the primary's name. */
  lemma PutCovers(rt: Router, key: Key, data: Bytes, i: nat)
    requires rt.regions != [] && i < |rt.regions| && Put(rt, key, data).Ok?
    ensures var p := PrimaryForWrite(rt.regions);
            var after := Put(rt, key, data).value;
            && (i == p ==> Holds(after, i, key))
            && (rt.regions[i].name != rt.regions[p].name ==>
                  after.pending[Write(i, key, data)] == rt.pending[Write(i, key, data)] + 1)
            && (i != p && rt.regions[i].name == rt.regions[p].name ==>
                  after.regions[i] == rt.regions[i] &&
                  after.pending[Write(i, key, data)] == rt.pending[Write(i, key, data)])
  {
    var p := PrimaryForWrite(rt.regions);
    ReplicaWritesOnce(rt.regions, |rt.regions|, rt.regions[p].name, key, data, Write(i, key, data));
  }

  lemma {:induction false} ReplicaWritesOnce(
    regions: seq<Region>, n: nat, primary: string, key: Key, data: Bytes, w: Write)
    requires n <= |regions| && w.key == key && w.data == data
    ensures ReplicaWrites(regions, n, primary, key, data)[w] ==
            if w.region < n && regions[w.region].name != primary then 1 else 0
  {
    if n > 0 {
      ReplicaWritesOnce(regions, n - 1, primary, key, data, w);
    }
  }

  /** The `k`-th event of the run is the landing of this write. */
  ghost predicate LandsAt(rt: Router, w: Write, events: seq<Event>, k: nat) {
    k < |events| && events[k] == Land(w) && w in After(rt, events[..k]).pending
  }

  ghost predicate Lands(rt: Router, w: Write, events: seq<Event>) {
    exists k: nat :: LandsAt(rt, w, events, k)
  }

  /** In every region but `p` a copy has landed at some moment of the run, whatever was lost before or after. */
  ghost predicate Replicated(rt: Router, p: nat, key: Key, data: Bytes, events: seq<Event>) {
    forall i: nat :: i < |rt.regions| && i != p ==> Lands(rt, Write(i, key, data), events)
  }

  lemma NextKeepsPending(rt: Router, e: Event, w: Write)
    requires w.region < |rt.regions| && w in rt.pending && e != Lose(w) && e != Land(w)
    ensures w in Next(rt, e).pending
  {
  }

  /** A pending write that a run does not drop and that is no longer pending after it has landed. */
  lemma {:induction false} UndroppedLands(rt: Router, events: seq<Event>, w: Write)
    requires w.region < |rt.regions| && w in rt.pending && Lose(w) !in events
    ensures w in After(rt, events).pending || Lands(rt, w, events)
  {
    if events != [] {
      var n := |events| - 1;
      var init := events[..n];
      UndroppedLands(rt, init, w);
      if w in After(rt, init).pending {
        HeldStaysHeld(rt, init, w.region, w.key);
        if events[n] == Land(w) {
          assert LandsAt(rt, w, events, n);
        } else {
          NextKeepsPending(After(rt, init), events[n], w);
        }
      } else {
        var k: nat :| LandsAt(rt, w, init, k);
        assert init[..k] == events[..k];
        assert LandsAt(rt, w, events, k);
      }
    }
  }

  ghost predicate Drained(rt: Router, w: Write, events: seq<Event>) {
    Lose(w) !in events && w !in After(rt, events).pending
  }

  lemma CopyIsPending(rt: Router, key: Key, data: Bytes, i: nat)
    requires rt.regions != [] && DistinctNames(rt.regions) && Put(rt, key, data).Ok?
    requires i < |rt.regions| && i != PrimaryForWrite(rt.regions)
    ensures Write(i, key, data) in Put(rt, key, data).value.pending
  {
    var p := PrimaryForWrite(rt.regions);
    ReplicaWritesCover(rt.regions, |rt.regions|, rt.regions[p].name, key, data, Write(i, key, data));
  }

  lemma DrainedLanded(rt: Router, key: Key, data: Bytes, events: seq<Event>, i: nat)
    requires rt.regions != [] && DistinctNames(rt.regions) && Put(rt, key, data).Ok?
    requires i < |rt.regions| && i != PrimaryForWrite(rt.regions)
    requires Drained(Put(rt, key, data).value, Write(i, key, data), events)
    ensures Lands(Put(rt, key, data).value, Write(i, key, data), events)
  {
    CopyIsPending(rt, key, data, i);
    UndroppedLands(Put(rt, key, data).value, events, Write(i, key, data));
  }

  ghost predicate AllDrained(rt: Router, p: nat, key: Key, data: Bytes, events: seq<Event>) {
    forall i: nat :: i < |rt.regions| && i != p ==> Drained(rt, Write(i, key, data), events)
  }

  /** With distinct names, a put none of whose copies was dropped or is still pending is replicated. */
  lemma DrainedIsReplicated(rt: Router, key: Key, data: Bytes, events: seq<Event>)
    requires rt.regions != [] && DistinctNames(rt.regions) && Put(rt, key, data).Ok?
    requires AllDrained(Put(rt, key, data).value, PrimaryForWrite(rt.regions), key, data, events)
    ensures Replicated(Put(rt, key, data).value, PrimaryForWrite(rt.regions), key, data, events)
  {
    var after, p := Put(rt, key, data).value, PrimaryForWrite(rt.regions);
    assert |after.regions| == |rt.regions|;
    forall i: nat | i < |after.regions| && i != p ensures Lands(after, Write(i, key, data), events) {
      assert Drained(after, Write(i, key, data), events);
      DrainedLanded(rt, key, data, events, i);
    }
  }

  lemma LandedIsHeld(rt: Router, w: Write, events: seq<Event>, k: nat)
    requires w.region < |rt.regions| && LandsAt(rt, w, events, k)
    ensures Holds(After(rt, events), w.region, w.key)
  {
    HeldStaysHeld(rt, events[..k], w.region, w.key);
    assert events[..k + 1][..k] == events[..k];
    assert After(rt, events[..k + 1]) == Next(After(rt, events[..k]), Land(w));
    HeldFromThenOn(rt, events, k + 1, w.region, w.key);
  }

  /** A replicated put is held by every region, in every later state. */
  lemma ReplicatedIsHeldEverywhere(rt: Router, key: Key, data: Bytes, events: seq<Event>, later: seq<Event>, i: nat)
    requires rt.regions != [] && Put(rt, key, data).Ok? && i < |rt.regions|
    requires Replicated(Put(rt, key, data).value, PrimaryForWrite(rt.regions), key, data, events)
    ensures Holds(After(After(Put(rt, key, data).value, events), later), i, key)
  {
    var after, w := Put(rt, key, data).value, Write(i, key, data);
    if i == PrimaryForWrite(rt.regions) {
      HeldStaysHeld(after, events, i, key);
    } else {
      var k: nat :| LandsAt(after, w, events, k);
      LandedIsHeld(after, w, events, k);
    }
    HeldStaysHeld(After(after, events), later, i, key);
  }

  /**
    Once a copy of a put has landed in each region but its primary, any further run
    (later puts of this key or others, landed and lost copies, changing health) that ends
    with at least one healthy and reachable region reads exactly what was put.
   */
  lemma ReplicatedIsAlwaysReadable(
    rt: Router, key: Key, events: seq<Event>, later: seq<Event>, content: Key -> Bytes, alive: nat)
    requires rt.regions != [] && SingleContent(rt, content) && Put(rt, key, content(key)).Ok?
    requires var p := PrimaryForWrite(rt.regions);
             Replicated(Put(rt, key, content(key)).value, p, key, content(key), events)
    requires AllPutContent(events, content) && AllPutContent(later, content)
    requires Answers(After(After(Put(rt, key, content(key)).value, events), later), alive)
    ensures Get(After(After(Put(rt, key, content(key)).value, events), later), key) == Some(content(key))
  {
    var data := content(key);
    var after := Put(rt, key, data).value;
    var landed := After(after, events);
    var end := After(landed, later);
    assert after == Next(rt, DoPut(key, data));
    NextKeepsContent(rt, DoPut(key, data), content);
    RunsKeepContent(after, events, content);
    RunsKeepContent(landed, later, content);
    HeldStaysHeld(after, events, alive, key);
    HeldStaysHeld(landed, later, alive, key);
    ReplicatedIsHeldEverywhere(rt, key, data, events, later, alive);
    GetIsExact(end, key);
    LocatedIsContent(end.regions, NodesForRead(end.regions, |end.regions|), key, content);
  }

  // ----- the loops ------------------------------------------------------------------------------

  method SelectForRead(regions: seq<Region>) returns (order: seq<nat>)
    ensures order == NodesForRead(regions, |regions|)
  {
    order := [];
    for i := 0 to |regions|
      invariant order == NodesForRead(regions, i)
    {
      if regions[i].healthy {
        order := order + [i];
      }
    }
  }

  method RouteGet(rt: Router, key: Key) returns (r: Option<Bytes>)
    ensures r == Get(rt, key)
  {
    var order := SelectForRead(rt.regions);
    for k := 0 to |order|
      invariant Locate(rt.regions, order, key) == Locate(rt.regions, order[k..], key)
    {
      assert order[k..][1..] == order[k + 1..];
      var region := rt.regions[order[k]];
      if region.reachable && key in region.store {
        return Some(region.store[key]);
      }
    }
    return None;
  }
}
