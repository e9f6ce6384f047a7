/**
  The cache server as a whole (metadata tables plus the blob store they describe) and
  the garbage collector that sweeps it. Plain artifacts and layers share one blob
  namespace, keyed by content hash.

  Which entries are old is decided by the clock, so a sweep takes that list as a
  parameter. A sweep runs without a registration in between.
 */
module GarbageCollection {
  import opened Common
  import opened Metadata

  datatype Server = Server(t: Tables, blobs: map<Hash, Bytes>)

  const NEW_SERVER := Server(EMPTY, map[])

  // ----- request handlers ----------------------------------------------------

  /** storage.put: the first content stored under a hash stays. */
  function StoreBlob(blobs: map<Hash, Bytes>, hash: Hash, data: Bytes): map<Hash, Bytes> {
    if hash in blobs then blobs else blobs[hash := data]
  }

  datatype Request =
    | PutArtifact(hash: Hash, data: Bytes, now: int)
    | PutLayer(hash: Hash, data: Bytes, now: int)
    | RegisterNode(node: Hash, size: nat, layers: seq<Hash>, now: int)
    | TouchEntry(hash: Hash, now: int)
    | SweepOld(stale: seq<Hash>)

  /** A body whose hash is not the one in the URL is refused before anything is stored. */
  function Handle(H: Bytes -> Hash, s: Server, req: Request): Server {
    match req
    case PutArtifact(h, data, now) =>
      if H(data) != h then s
      else Server(Apply(s.t, Insert(h, h, |data|, now)), StoreBlob(s.blobs, h, data))
    case PutLayer(h, data, now) =>
      if H(data) != h then s
      else Server(Apply(s.t, InsertLayer(h, h, |data|, now)), StoreBlob(s.blobs, h, data))
    case RegisterNode(n, size, list, now) => s.(t := Apply(s.t, Register(n, size, list, now)))
    case TouchEntry(h, now) => s.(t := Apply(s.t, Touch(h, now)))
    case SweepOld(stale) => Swept(s, stale)
  }

  function Serve(H: Bytes -> Hash, reqs: seq<Request>): Server {
    if reqs == [] then NEW_SERVER else Handle(H, Serve(H, reqs[..|reqs| - 1]), reqs[|reqs| - 1])
  }

  // ----- the sweep -----------------------------------------------------------

  function ExpireOne(s: Server, h: Hash): Server {
    if h in s.t.entries then Server(Apply(s.t, Delete(h)), s.blobs - {h}) else s
  }

  function Expire(s: Server, stale: seq<Hash>): Server {
    if stale == [] then s else ExpireOne(Expire(s, stale[..|stale| - 1]), stale[|stale| - 1])
  }

  function UnusedLayers(t: Tables): set<Hash> {
    set l | l in t.layers && Unused(t, l)
  }

  function Swept(s: Server, stale: seq<Hash>): Server {
    var e := Expire(s, stale);
    Server(Apply(e.t, CollectUnused), e.blobs - UnusedLayers(e.t))
  }

  function ExpiredCount(s: Server, stale: seq<Hash>): nat {
    if stale == [] then 0
    else
      var before := Expire(s, stale[..|stale| - 1]);
      ExpiredCount(s, stale[..|stale| - 1]) + (if stale[|stale| - 1] in before.t.entries then 1 else 0)
  }

  function ExpiredBytes(s: Server, stale: seq<Hash>): nat {
    if stale == [] then 0
    else
      var before, h := Expire(s, stale[..|stale| - 1]), stale[|stale| - 1];
      ExpiredBytes(s, stale[..|stale| - 1]) + (if h in before.t.entries then before.t.entries[h].size else 0)
  }

  /** The statements a sweep sends to the database. */
  function ExpireOps(s: Server, stale: seq<Hash>): seq<Op> {
    if stale == [] then []
    else
      var init, h := stale[..|stale| - 1], stale[|stale| - 1];
      ExpireOps(s, init) + (if h in Expire(s, init).t.entries then [Delete(h)] else [])
  }

  lemma {:induction false} ExpireIsRun(ops: seq<Op>, s: Server, stale: seq<Hash>)
    requires s.t == Run(ops)
    ensures Expire(s, stale).t == Run(ops + ExpireOps(s, stale))
  {
    if stale == [] {
      assert ops + ExpireOps(s, stale) == ops;
    } else {
      var init, h := stale[..|stale| - 1], stale[|stale| - 1];
      ExpireIsRun(ops, s, init);
      if h in Expire(s, init).t.entries {
        assert ops + ExpireOps(s, stale) == (ops + ExpireOps(s, init)) + [Delete(h)];
        RunSnoc(ops + ExpireOps(s, init), Delete(h));
      } else {
        assert ops + ExpireOps(s, stale) == ops + ExpireOps(s, init);
      }
    }
  }

  /** Expiry deletes exactly the listed entries and their blobs, and no layer row. */
  lemma {:induction false} ExpireRemoves(s: Server, stale: seq<Hash>, h: Hash)
    ensures h in Expire(s, stale).t.entries <==> h in s.t.entries && h !in stale
    ensures h in Expire(s, stale).blobs <==> h in s.blobs && !(h in stale && h in s.t.entries)
    ensures h in Expire(s, stale).blobs ==> Expire(s, stale).blobs[h] == s.blobs[h]
    ensures Expire(s, stale).t.layers.Keys == s.t.layers.Keys
  {
    if stale != [] {
      var init, last := stale[..|stale| - 1], stale[|stale| - 1];
      assert stale == init + [last];
      ExpireRemoves(s, init, h);
      ExpireRemoves(s, init, last);
    }
  }

  /**
    A sweep never removes the row of a layer that is still mapped after it, and it
    removes that layer's blob exactly when the layer's hash is also the hash of an
    entry that expired in the same sweep.
   */
  lemma SweepKeepsMappedLayers(ops: seq<Op>, blobs: map<Hash, Bytes>, stale: seq<Hash>, l: Hash)
    requires var s := Server(Run(ops), blobs); CountLayer(Swept(s, stale).t.rows, l) > 0
    ensures var s := Server(Run(ops), blobs);
            && l in Swept(s, stale).t.layers
            && (l in blobs ==> (l !in Swept(s, stale).blobs <==> l in stale && l in s.t.entries))
            && (l in Swept(s, stale).blobs ==> l in blobs && Swept(s, stale).blobs[l] == blobs[l])
  {
    var s := Server(Run(ops), blobs);
    ExpireIsRun(ops, s, stale);
    LeakAccounting(ops + ExpireOps(s, stale), l);
    ExpireRemoves(s, stale, l);
  }

  /** The foreign key is never what saves a mapped layer: nothing the sweep lists is mapped. */
  lemma SweepListsOnlyUnmapped(ops: seq<Op>, blobs: map<Hash, Bytes>, stale: seq<Hash>, l: Hash)
    requires l in UnusedLayers(Expire(Server(Run(ops), blobs), stale).t)
    ensures CountLayer(Expire(Server(Run(ops), blobs), stale).t.rows, l) == 0
    ensures l !in Swept(Server(Run(ops), blobs), stale).t.layers
  {
    var s := Server(Run(ops), blobs);
    ExpireIsRun(ops, s, stale);
    LeakAccounting(ops + ExpireOps(s, stale), l);
  }

  lemma {:induction false} ExpireKeepsRows(s: Server, stale: seq<Hash>, n: Hash)
    ensures RowsOf(Expire(s, stale).t.rows, n) ==
            if n in stale && n in s.t.entries then [] else RowsOf(s.t.rows, n)
  {
    if stale != [] {
      var init, h := stale[..|stale| - 1], stale[|stale| - 1];
      assert stale == init + [h];
      ExpireKeepsRows(s, init, n);
      ExpireRemoves(s, init, h);
      if h in Expire(s, init).t.entries {
        RowsOfExcept(Expire(s, init).t.rows, h, n);
      }
    }
  }

  /** After the expiry nothing maps the layer and nothing is stranded on it. */
  ghost predicate Unneeded(ops: seq<Op>, s: Server, stale: seq<Hash>, l: Hash) {
    && l in s.t.layers
    && CountLayer(Expire(s, stale).t.rows, l) == 0 && Leak(ops + ExpireOps(s, stale), l) == 0
  }

  /**
    What a sweep takes, exactly: the expired entries with their mappings and blobs, and the
    rows and blobs of the layers that nothing maps any more and nothing was stranded on.
   */
  lemma SweepIsExact(ops: seq<Op>, s: Server, stale: seq<Hash>, h: Hash)
    requires s.t == Run(ops)
    ensures var s' := Swept(s, stale);
            && (h in s'.t.entries <==> h in s.t.entries && h !in stale)
            && (h in s'.t.layers <==> h in s.t.layers && !Unneeded(ops, s, stale, h))
            && (h in s'.blobs <==>
                  h in s.blobs && !(h in stale && h in s.t.entries) && !Unneeded(ops, s, stale, h))
            && (h in s'.blobs ==> s'.blobs[h] == s.blobs[h])
            && RowsOf(s'.t.rows, h) == if h in stale && h in s.t.entries then [] else RowsOf(s.t.rows, h)
  {
    ExpireRemoves(s, stale, h);
    ExpireKeepsRows(s, stale, h);
    ExpireIsRun(ops, s, stale);
    LeakAccounting(ops + ExpireOps(s, stale), h);
  }

  // ----- what a sweep reports -----------------------------------------------

  ghost function TotalSize(entries: map<Hash, Entry>): nat {
    if entries.Keys == {} then 0
    else
      var h :| h in entries;
      entries[h].size + TotalSize(entries - {h})
  }

  lemma {:induction false} TotalSizeWithout(entries: map<Hash, Entry>, h: Hash)
    requires h in entries
    ensures TotalSize(entries) == entries[h].size + TotalSize(entries - {h})
    decreases |entries|
  {
    var g :| g in entries && TotalSize(entries) == entries[g].size + TotalSize(entries - {g});
    if g != h {
      TotalSizeWithout(entries - {g}, h);
      TotalSizeWithout(entries - {h}, g);
      assert (entries - {g}) - {h} == (entries - {h}) - {g};
    }
  }

  lemma OneExpiryCounts(s: Server, h: Hash)
    ensures var gone := h in s.t.entries;
            && |ExpireOne(s, h).t.entries| + (if gone then 1 else 0) == |s.t.entries|
            && TotalSize(ExpireOne(s, h).t.entries) + (if gone then s.t.entries[h].size else 0) ==
               TotalSize(s.t.entries)
  {
    if h in s.t.entries {
      TotalSizeWithout(s.t.entries, h);
      assert (s.t.entries - {h}).Keys == s.t.entries.Keys - {h};
    }
  }

  /** The reported count and bytes are what the entry table has lost in number and total size. */
  lemma {:induction false} ReportIsExact(s: Server, stale: seq<Hash>)
    ensures ExpiredCount(s, stale) + |Expire(s, stale).t.entries| == |s.t.entries|
    ensures ExpiredBytes(s, stale) + TotalSize(Expire(s, stale).t.entries) == TotalSize(s.t.entries)
  {
    if stale != [] {
      var init, h := stale[..|stale| - 1], stale[|stale| - 1];
      ReportIsExact(s, init);
      OneExpiryCounts(Expire(s, init), h);
    }
  }

  // ----- whole server runs ---------------------------------------------------

  /** The layer's row, if it has one, is backed by a blob. */
  predicate Backed(s: Server, l: Hash) {
    l in s.t.layers ==> l in s.blobs
  }

  ghost predicate BlobsAddressed(H: Bytes -> Hash, s: Server) {
    forall h :: h in s.blobs ==> H(s.blobs[h]) == h
  }

  /** The sweep does not expire an entry whose hash still has a layer row after it. */
  predicate Spares(s: Server, stale: seq<Hash>, l: Hash) {
    l in stale && l in s.t.entries ==> l !in Swept(s, stale).t.layers
  }

  ghost predicate SparesAt(H: Bytes -> Hash, reqs: seq<Request>, i: nat, l: Hash)
    requires i < |reqs|
  {
    reqs[i].SweepOld? ==> Spares(Serve(H, reqs[..i]), reqs[i].stale, l)
  }

  ghost predicate SweepsSpare(H: Bytes -> Hash, reqs: seq<Request>, l: Hash) {
    forall i: nat :: i < |reqs| ==> SparesAt(H, reqs, i, l)
  }

  function DatabaseOps(H: Bytes -> Hash, s: Server, req: Request): seq<Op> {
    match req
    case PutArtifact(h, data, now) => if H(data) != h then [] else [Insert(h, h, |data|, now)]
    case PutLayer(h, data, now) => if H(data) != h then [] else [InsertLayer(h, h, |data|, now)]
    case RegisterNode(n, size, list, now) => [Register(n, size, list, now)]
    case TouchEntry(h, now) => [Touch(h, now)]
    case SweepOld(stale) => ExpireOps(s, stale) + [CollectUnused]
  }

  function AllDatabaseOps(H: Bytes -> Hash, reqs: seq<Request>): seq<Op> {
    if reqs == [] then []
    else
      AllDatabaseOps(H, reqs[..|reqs| - 1])
      + DatabaseOps(H, Serve(H, reqs[..|reqs| - 1]), reqs[|reqs| - 1])
  }

  lemma SweepIsRun(ops: seq<Op>, s: Server, stale: seq<Hash>)
    requires s.t == Run(ops)
    ensures Swept(s, stale).t == Run(ops + (ExpireOps(s, stale) + [CollectUnused]))
  {
    ExpireIsRun(ops, s, stale);
    assert ops + (ExpireOps(s, stale) + [CollectUnused]) == (ops + ExpireOps(s, stale)) + [CollectUnused];
    RunSnoc(ops + ExpireOps(s, stale), CollectUnused);
  }

  lemma HandleIsRun(H: Bytes -> Hash, ops: seq<Op>, s: Server, req: Request)
    requires s.t == Run(ops)
    ensures Handle(H, s, req).t == Run(ops + DatabaseOps(H, s, req))
  {
    match req
    case SweepOld(stale) => SweepIsRun(ops, s, stale);
    case RegisterNode(n, size, list, now) => RunSnoc(ops, Register(n, size, list, now));
    case TouchEntry(h, now) => RunSnoc(ops, Touch(h, now));
    case PutArtifact(h, data, now) =>
      assert ops + [] == ops;
      RunSnoc(ops, Insert(h, h, |data|, now));
    case PutLayer(h, data, now) =>
      assert ops + [] == ops;
      RunSnoc(ops, InsertLayer(h, h, |data|, now));
  }

  /** The request uses an entry that is there. */
  predicate UsesEntry(H: Bytes -> Hash, s: Server, req: Request, h: Hash) {
    match req
    case PutArtifact(hash, data, _) => hash == h && H(data) == h
    case RegisterNode(node, _, list, _) => node == h && Accepts(s.t, list)
    case TouchEntry(hash, _) => hash == h
    case _ => false
  }

  /** Requests other than sweeps take no entry, count one hit and the time for each use, and keep size and creation. */
  lemma RequestsCountUses(H: Bytes -> Hash, s: Server, req: Request, h: Hash)
    requires h in s.t.entries && !req.SweepOld?
    ensures var e, s' := s.t.entries[h], Handle(H, s, req);
            h in s'.t.entries && s'.t.entries[h] ==
              if UsesEntry(H, s, req, h) then e.(lastUsed := req.now, hitCount := e.hitCount + 1) else e
  {
  }

  /** An upload is stored under its hash, with its entry or layer row, or refused without any effect. */
  lemma UploadIsStoredIff(H: Bytes -> Hash, s: Server, hash: Hash, data: Bytes, now: int)
    requires BlobsAddressed(H, s)
    ensures var s' := Handle(H, s, PutArtifact(hash, data, now));
            if H(data) == hash then
              && hash in s'.t.entries && hash in s'.blobs && H(s'.blobs[hash]) == hash
              && (hash !in s.t.entries ==> s'.t.entries[hash].size == |data| && s'.t.entries[hash].createdAt == now)
            else s' == s
    ensures var s' := Handle(H, s, PutLayer(hash, data, now));
            if H(data) == hash then
              && hash in s'.t.layers && hash in s'.blobs && H(s'.blobs[hash]) == hash
              && (hash !in s.t.layers ==> s'.t.layers[hash].size == |data| && s'.t.layers[hash].createdAt == now)
            else s' == s
  {
  }

  /** Server runs are database runs, so all the accounting of the tables applies to them. */
  lemma {:induction false} ServeIsRun(H: Bytes -> Hash, reqs: seq<Request>)
    ensures Serve(H, reqs).t == Run(AllDatabaseOps(H, reqs))
  {
    if reqs != [] {
      var init := reqs[..|reqs| - 1];
      ServeIsRun(H, init);
      HandleIsRun(H, AllDatabaseOps(H, init), Serve(H, init), reqs[|reqs| - 1]);
    }
  }

  lemma HandleKeepsAddressed(H: Bytes -> Hash, s: Server, req: Request)
    requires BlobsAddressed(H, s)
    ensures BlobsAddressed(H, Handle(H, s, req))
  {
    if req.SweepOld? {
      forall h | h in Swept(s, req.stale).blobs ensures H(Swept(s, req.stale).blobs[h]) == h {
        ExpireRemoves(s, req.stale, h);
      }
    }
  }

  /** Over every server run each blob is stored under its own hash. */
  lemma {:induction false} RunsKeepAddressed(H: Bytes -> Hash, reqs: seq<Request>)
    ensures BlobsAddressed(H, Serve(H, reqs))
  {
    if reqs != [] {
      RunsKeepAddressed(H, reqs[..|reqs| - 1]);
      HandleKeepsAddressed(H, Serve(H, reqs[..|reqs| - 1]), reqs[|reqs| - 1]);
    }
  }

  lemma SweptIsBackedIff(ops: seq<Op>, s: Server, stale: seq<Hash>, l: Hash)
    requires s.t == Run(ops) && Backed(s, l)
    ensures Backed(Swept(s, stale), l) <==> Spares(s, stale, l)
  {
    ExpireIsRun(ops, s, stale);
    LeakAccounting(ops + ExpireOps(s, stale), l);
    ExpireRemoves(s, stale, l);
  }

  lemma HandledIsBackedIff(H: Bytes -> Hash, ops: seq<Op>, s: Server, req: Request, l: Hash)
    requires s.t == Run(ops) && Backed(s, l)
    ensures Backed(Handle(H, s, req), l) <==> (req.SweepOld? ==> Spares(s, req.stale, l))
  {
    if req.SweepOld? {
      SweptIsBackedIff(ops, s, req.stale, l);
    }
  }

  ghost predicate BackedAfter(H: Bytes -> Hash, reqs: seq<Request>, n: nat, l: Hash)
    requires n <= |reqs|
  {
    Backed(Serve(H, reqs[..n]), l)
  }

  lemma NextIsBackedIff(H: Bytes -> Hash, reqs: seq<Request>, n: nat, l: Hash)
    requires n < |reqs| && BackedAfter(H, reqs, n, l)
    ensures BackedAfter(H, reqs, n + 1, l) <==> SparesAt(H, reqs, n, l)
  {
    var init := reqs[..n];
    assert reqs[..n + 1][..n] == init;
    ServeIsRun(H, init);
    HandledIsBackedIff(H, AllDatabaseOps(H, init), Serve(H, init), reqs[n], l);
  }

  lemma {:induction false} BackedUpToIff(H: Bytes -> Hash, reqs: seq<Request>, n: nat, l: Hash)
    requires n <= |reqs|
    ensures (forall k: nat :: k <= n ==> BackedAfter(H, reqs, k, l)) <==>
            (forall i: nat :: i < n ==> SparesAt(H, reqs, i, l))
  {
    if n == 0 {
      assert BackedAfter(H, reqs, 0, l);
    } else {
      BackedUpToIff(H, reqs, n - 1, l);
      if BackedAfter(H, reqs, n - 1, l) {
        NextIsBackedIff(H, reqs, n - 1, l);
      }
    }
  }

  /**
    The exact condition: a layer is backed after every request of a run if and only if no
    sweep of the run expires an entry of the same hash while the layer's row survives it.
   */
  lemma BackedThroughoutIff(H: Bytes -> Hash, reqs: seq<Request>, l: Hash)
    ensures (forall n: nat :: n <= |reqs| ==> BackedAfter(H, reqs, n, l)) <==> SweepsSpare(H, reqs, l)
  {
    BackedUpToIff(H, reqs, |reqs|, l);
  }

  /** Over such a run the layer, if it has a row or a node maps it, is stored under its own hash. */
  lemma RunsKeepLayersBacked(H: Bytes -> Hash, reqs: seq<Request>, l: Hash)
    requires SweepsSpare(H, reqs, l)
    requires l in Serve(H, reqs).t.layers || exists r :: r in Serve(H, reqs).t.rows && r.layer == l
    ensures l in Serve(H, reqs).blobs && H(Serve(H, reqs).blobs[l]) == l
  {
    BackedThroughoutIff(H, reqs, l);
    assert BackedAfter(H, reqs, |reqs|, l) && reqs[..|reqs|] == reqs;
    ServeIsRun(H, reqs);
    RefCountsCoverMappings(AllDatabaseOps(H, reqs));
    RunsKeepAddressed(H, reqs);
  }

  /** The same bytes, stored as a plain artifact, as a layer, and mapped by a node. */
  function StoreTwice(H: Bytes -> Hash, s: Server, data: Bytes, node: Hash): Server {
    var s0 := Handle(H, s, PutArtifact(H(data), data, 0));
    var s1 := Handle(H, s0, PutLayer(H(data), data, 0));
    Handle(H, s1, RegisterNode(node, |data|, [H(data)], 0))
  }

  lemma StoreTwiceState(H: Bytes -> Hash, s: Server, data: Bytes, node: Hash)
    ensures var h, s' := H(data), StoreTwice(H, s, data, node);
            h in s'.t.entries && h in s'.blobs && RowsOf(s'.t.rows, node) == [Row(node, h, 0)]
  {
    var s0 := Handle(H, s, PutArtifact(H(data), data, 0));
    var s1 := Handle(H, s0, PutLayer(H(data), data, 0));
    assert H(data) in s1.t.entries && H(data) in s1.t.layers && H(data) in s1.blobs && s1.t.rows == s.t.rows;
    MappedOnce(H, s1, H(data), |data|, node);
    NewRowsOfOne(node, H(data));
  }

  lemma MappedOnce(H: Bytes -> Hash, s: Server, h: Hash, size: nat, node: Hash)
    requires h in s.t.entries && h in s.t.layers && h in s.blobs
    ensures var s' := Handle(H, s, RegisterNode(node, size, [h], 0));
            h in s'.t.entries && h in s'.blobs && RowsOf(s'.t.rows, node) == NewRows(node, [h])
  {
    RegisteredRows(s.t, node, size, [h], 0);
  }

  lemma NewRowsOfOne(node: Hash, h: Hash)
    ensures NewRows(node, [h]) == [Row(node, h, 0)]
  {
  }

  lemma StoreTwiceIsRun(H: Bytes -> Hash, ops: seq<Op>, s: Server, data: Bytes, node: Hash) returns (ops': seq<Op>)
    requires s.t == Run(ops)
    ensures StoreTwice(H, s, data, node).t == Run(ops')
  {
    var r0, r1 := PutArtifact(H(data), data, 0), PutLayer(H(data), data, 0);
    var r2 := RegisterNode(node, |data|, [H(data)], 0);
    var s0 := Handle(H, s, r0);
    var s1 := Handle(H, s0, r1);
    HandleIsRun(H, ops, s, r0);
    var ops0 := ops + DatabaseOps(H, s, r0);
    HandleIsRun(H, ops0, s0, r1);
    var ops1 := ops0 + DatabaseOps(H, s0, r1);
    HandleIsRun(H, ops1, s1, r2);
    ops' := ops1 + DatabaseOps(H, s1, r2);
  }

  /**
    Without that condition a mapped layer can lose its blob, after any run: bytes stored
    both as a plain artifact and as a layer share one hash, and expiring the artifact
    takes the blob from under the layer.
   */
  lemma SharedHashLosesBlob(H: Bytes -> Hash, reqs: seq<Request>, data: Bytes, node: Hash)
    requires H(data) != node
    ensures var h, s' := H(data), Swept(StoreTwice(H, Serve(H, reqs), data, node), [H(data)]);
            NodeLayers(s'.t, node) == Some([h]) && h in s'.t.layers && h !in s'.blobs
  {
    ServeIsRun(H, reqs);
    var ops := StoreTwiceIsRun(H, AllDatabaseOps(H, reqs), Serve(H, reqs), data, node);
    StoreTwiceState(H, Serve(H, reqs), data, node);
    OneMapperSurvives(ops, StoreTwice(H, Serve(H, reqs), data, node), node, H(data));
  }

  lemma OneMapperSurvives(ops: seq<Op>, s: Server, node: Hash, h: Hash)
    requires s.t == Run(ops) && h in s.t.entries && h in s.blobs && node != h
    requires RowsOf(s.t.rows, node) == [Row(node, h, 0)]
    ensures var s' := Swept(s, [h]); NodeLayers(s'.t, node) == Some([h]) && h in s'.t.layers && h !in s'.blobs
  {
    var s' := Swept(s, [h]);
    assert s'.t.rows == RowsExcept(s.t.rows, h) by { assert [h][..0] == []; assert Expire(s, []) == s; }
    assert RowsOf(s'.t.rows, node) == [Row(node, h, 0)] by { RowsOfExcept(s.t.rows, h, node); }
    assert LayersIn([Row(node, h, 0)]) == [h];
    assert CountLayer(s'.t.rows, h) > 0 by {
      CountSplitsByNode(s'.t.rows, node, h);
      assert [Row(node, h, 0)][..0] == [];
    }
    SweepKeepsMappedLayers(ops, s.blobs, [h], h);
  }

  // ----- the collector -------------------------------------------------------

  class Storage {
    var blobs: map<Hash, Bytes>

    constructor ()
      ensures blobs == map[]
    {
      blobs := map[];
    }

    method Put(hash: Hash, data: Bytes)
      modifies this
      ensures blobs == StoreBlob(old(blobs), hash, data)
    {
      if hash !in blobs {
        blobs := blobs[hash := data];
      }
    }

    method Delete(hash: Hash)
      modifies this
      ensures blobs == old(blobs) - {hash}
    {
      blobs := blobs - {hash};
    }
  }

  /** The layer table once the listed layers were deleted as far as the foreign key allows. */
  function LayersWithout(t: Tables, gone: set<Hash>): map<Hash, Layer> {
    map l | l in t.layers && !(l in gone && CountLayer(t.rows, l) == 0) :: t.layers[l]
  }

  lemma WithoutOneMore(t: Tables, gone: set<Hash>, h: Hash)
    ensures LayersWithout(t, gone + {h}) ==
            if CountLayer(t.rows, h) == 0 then LayersWithout(t, gone) - {h} else LayersWithout(t, gone)
  {
  }

  lemma WithoutNone(t: Tables)
    ensures t.(layers := LayersWithout(t, {})) == t
  {
  }

  lemma WithoutUnused(t: Tables)
    ensures Apply(t, CollectUnused) == t.(layers := LayersWithout(t, UnusedLayers(t)))
  {
  }

  datatype GcRunResult = GcRunResult(deletedArtifacts: nat, deletedLayers: nat, freedBytes: nat)

  class GarbageCollector {
    const maxAgeDays: nat
    var running: bool
    var totalDeleted: nat
    var totalRuns: nat
    var bytesFreed: nat

    constructor (maxAgeDays: nat)
      ensures this.maxAgeDays == maxAgeDays && !running
      ensures totalDeleted == totalRuns == bytesFreed == 0
    {
      this.maxAgeDays := maxAgeDays;
      running, totalDeleted, totalRuns, bytesFreed := false, 0, 0, 0;
    }

    /** `stale` is what get_old_entries answered. A collector already running does nothing. */
    method Sweep(metadata: MetadataStore, storage: Storage, stale: seq<Hash>) returns (r: GcRunResult)
      modifies this, metadata, storage
      ensures running == old(running)
      ensures old(running) ==>
        && r == GcRunResult(0, 0, 0)
        && metadata.Contents() == old(metadata.Contents()) && storage.blobs == old(storage.blobs)
        && totalRuns == old(totalRuns) && totalDeleted == old(totalDeleted) && bytesFreed == old(bytesFreed)
      ensures !old(running) && maxAgeDays > 0 ==>
        var s := Server(old(metadata.Contents()), old(storage.blobs));
        && Server(metadata.Contents(), storage.blobs) == Swept(s, stale)
        && r == GcRunResult(ExpiredCount(s, stale), |UnusedLayers(Expire(s, stale).t)|, ExpiredBytes(s, stale))
      ensures !old(running) && maxAgeDays == 0 ==>
        && r == GcRunResult(0, 0, 0)
        && metadata.Contents() == old(metadata.Contents()) && storage.blobs == old(storage.blobs)
      ensures !old(running) ==>
        && totalRuns == old(totalRuns) + 1
        && totalDeleted == old(totalDeleted) + r.deletedArtifacts + r.deletedLayers
        && bytesFreed == old(bytesFreed) + r.freedBytes
    {
      if running {
        return GcRunResult(0, 0, 0);
      }
      running := true;
      r := GcRunResult(0, 0, 0);
      if maxAgeDays > 0 {
        var artifacts, freed := ExpireEntries(metadata, storage, stale);
        var layers := CollectLayers(metadata, storage);
        r := GcRunResult(artifacts, layers, freed);
      }
      totalDeleted := totalDeleted + r.deletedArtifacts + r.deletedLayers;
      totalRuns := totalRuns + 1;
      bytesFreed := bytesFreed + r.freedBytes;
      running := false;
    }

    method ExpireEntries(metadata: MetadataStore, storage: Storage, stale: seq<Hash>)
      returns (artifacts: nat, freed: nat)
      modifies metadata, storage
      ensures var s := Server(old(metadata.Contents()), old(storage.blobs));
              && Server(metadata.Contents(), storage.blobs) == Expire(s, stale)
              && artifacts == ExpiredCount(s, stale) && freed == ExpiredBytes(s, stale)
    {
      ghost var s := Server(metadata.Contents(), storage.blobs);
      artifacts, freed := 0, 0;
      for i := 0 to |stale|
        invariant Server(metadata.Contents(), storage.blobs) == Expire(s, stale[..i])
        invariant artifacts == ExpiredCount(s, stale[..i]) && freed == ExpiredBytes(s, stale[..i])
      {
        assert stale[..i + 1][..i] == stale[..i];
        if stale[i] in metadata.entries {
          freed := freed + metadata.entries[stale[i]].size;
          storage.Delete(stale[i]);
          metadata.Delete(stale[i]);
          artifacts := artifacts + 1;
        }
      }
      assert stale[..|stale|] == stale;
    }

    method CollectOne(metadata: MetadataStore, storage: Storage, hash: Hash, ghost t: Tables, ghost gone: set<Hash>)
      requires metadata.Contents() == t.(layers := LayersWithout(t, gone))
      modifies metadata, storage
      ensures metadata.Contents() == t.(layers := LayersWithout(t, gone + {hash}))
      ensures storage.blobs == old(storage.blobs) - {hash}
    {
      storage.Delete(hash);
      var _ := metadata.DeleteLayerMetadata(hash);
      WithoutOneMore(t, gone, hash);
    }

    method CollectAll(metadata: MetadataStore, storage: Storage, unused: set<Hash>) returns (layers: nat)
      modifies metadata, storage
      ensures metadata.Contents() ==
              old(metadata.Contents()).(layers := LayersWithout(old(metadata.Contents()), unused))
      ensures storage.blobs == old(storage.blobs) - unused
      ensures layers == |unused|
    {
      ghost var t := metadata.Contents();
      var todo := unused;
      ghost var done: set<Hash> := {};
      WithoutNone(t);
      layers := 0;
      while todo != {}
        invariant todo !! done && todo + done == unused
        invariant layers == |done|
        invariant metadata.Contents() == t.(layers := LayersWithout(t, done))
        invariant storage.blobs == old(storage.blobs) - done
        decreases todo
      {
        var hash :| hash in todo;
        CollectOne(metadata, storage, hash, t, done);
        layers := layers + 1;
        todo, done := todo - {hash}, done + {hash};
      }
      assert done == unused;
    }

    method CollectLayers(metadata: MetadataStore, storage: Storage) returns (layers: nat)
      modifies metadata, storage
      ensures metadata.Contents() == Apply(old(metadata.Contents()), CollectUnused)
      ensures storage.blobs == old(storage.blobs) - UnusedLayers(old(metadata.Contents()))
      ensures layers == |UnusedLayers(old(metadata.Contents()))|
    {
      WithoutUnused(metadata.Contents());
      layers := CollectAll(metadata, storage, UnusedLayers(Tables(metadata.entries, metadata.layers, metadata.rows)));
    }
  }
}
