/**
  The two-tier artifact cache: a local store in front of the server's layered protocol.
  Storing splits an artifact, uploads the layers the server lacks and registers the
  layer list; reading looks the list up, fetches every layer and merges.
 */
module HybridCaching {
  import opened Common
  import opened Metadata
  import opened GarbageCollection
  import opened Chunking

  // ----- what one uninterrupted call does to the server -----------------------

  function UploadOne(H: Bytes -> Hash, s: Server, chunk: Bytes, now: int): Server {
    if H(chunk) in s.t.layers then s else Handle(H, s, PutLayer(H(chunk), chunk, now))
  }

  function Uploaded(H: Bytes -> Hash, s: Server, chunks: seq<Bytes>, now: int): Server {
    if chunks == [] then s
    else UploadOne(H, Uploaded(H, s, chunks[..|chunks| - 1], now), chunks[|chunks| - 1], now)
  }

  function Put(H: Bytes -> Hash, s: Server, key: Hash, data: Bytes, now: int): Server {
    Handle(H, Uploaded(H, s, Chunks(data), now), RegisterNode(key, |data|, Hashes(H, Chunks(data)), now))
  }

  function BlobsOf(s: Server, list: seq<Hash>): seq<Bytes>
    requires forall l :: l in list ==> l in s.blobs
  {
    seq(|list|, i requires 0 <= i < |list| => assert list[i] in list; s.blobs[list[i]])
  }

  /** Err is the "layer missing" integrity failure. */
  function Fetch(s: Server, key: Hash): Result<Option<Bytes>> {
    match NodeLayers(s.t, key)
    case Some(list) =>
      if forall l :: l in list ==> l in s.blobs then Ok(Some(Merge(BlobsOf(s, list)))) else Err
    case None =>
      Ok(if key in s.blobs then Some(s.blobs[key]) else None)
  }

  // ----- uploading -----------------------------------------------------------

  /** Uploading adds exactly the missing chunk hashes, once each, and changes nothing that was there. */
  lemma {:induction false} UploadedState(H: Bytes -> Hash, s: Server, chunks: seq<Bytes>, now: int)
    ensures var u := Uploaded(H, s, chunks, now);
            && u.t.layers.Keys == s.t.layers.Keys + (set i | 0 <= i < |chunks| :: H(chunks[i]))
            && u.t.rows == s.t.rows && u.t.entries == s.t.entries
            && (forall l :: l in s.t.layers ==> u.t.layers[l] == s.t.layers[l])
            && (forall h :: h in s.blobs ==> h in u.blobs && u.blobs[h] == s.blobs[h])
  {
    if chunks != [] {
      var init, last := chunks[..|chunks| - 1], chunks[|chunks| - 1];
      UploadedState(H, s, init, now);
      assert (set i | 0 <= i < |chunks| :: H(chunks[i])) == (set i | 0 <= i < |init| :: H(init[i])) + {H(last)} by {
        assert forall i :: 0 <= i < |init| ==> chunks[i] == init[i];
      }
    }
  }

  lemma PutIsAccepted(H: Bytes -> Hash, s: Server, data: Bytes, now: int)
    ensures Accepts(Uploaded(H, s, Chunks(data), now).t, Hashes(H, Chunks(data)))
  {
    UploadedState(H, s, Chunks(data), now);
  }

  function UploadRequests(H: Bytes -> Hash, s: Server, chunks: seq<Bytes>, now: int): seq<Request> {
    if chunks == [] then []
    else
      var init, last := chunks[..|chunks| - 1], chunks[|chunks| - 1];
      UploadRequests(H, s, init, now)
      + if H(last) in Uploaded(H, s, init, now).t.layers then [] else [PutLayer(H(last), last, now)]
  }

  /** The state-changing requests one put_artifact call sends. */
  function PutRequests(H: Bytes -> Hash, s: Server, key: Hash, data: Bytes, now: int): seq<Request> {
    UploadRequests(H, s, Chunks(data), now) + [RegisterNode(key, |data|, Hashes(H, Chunks(data)), now)]
  }

  lemma ServeSnoc(H: Bytes -> Hash, reqs: seq<Request>, r: Request)
    ensures Serve(H, reqs + [r]) == Handle(H, Serve(H, reqs), r)
  {
    assert (reqs + [r])[..|reqs|] == reqs;
  }

  lemma {:induction false} UploadIsServed(H: Bytes -> Hash, reqs: seq<Request>, chunks: seq<Bytes>, now: int)
    ensures Serve(H, reqs + UploadRequests(H, Serve(H, reqs), chunks, now)) == Uploaded(H, Serve(H, reqs), chunks, now)
  {
    var s := Serve(H, reqs);
    if chunks == [] {
      assert reqs + UploadRequests(H, s, chunks, now) == reqs;
    } else {
      var init, last := chunks[..|chunks| - 1], chunks[|chunks| - 1];
      UploadIsServed(H, reqs, init, now);
      var sofar := reqs + UploadRequests(H, s, init, now);
      if H(last) in Uploaded(H, s, init, now).t.layers {
        assert reqs + UploadRequests(H, s, chunks, now) == sofar;
      } else {
        assert reqs + UploadRequests(H, s, chunks, now) == sofar + [PutLayer(H(last), last, now)];
        ServeSnoc(H, sofar, PutLayer(H(last), last, now));
      }
    }
  }

  lemma PutIsServed(H: Bytes -> Hash, reqs: seq<Request>, key: Hash, data: Bytes, now: int)
    ensures Serve(H, reqs + PutRequests(H, Serve(H, reqs), key, data, now)) == Put(H, Serve(H, reqs), key, data, now)
  {
    UploadIsServed(H, reqs, Chunks(data), now);
    var up := UploadRequests(H, Serve(H, reqs), Chunks(data), now);
    var reg := RegisterNode(key, |data|, Hashes(H, Chunks(data)), now);
    assert reqs + (up + [reg]) == (reqs + up) + [reg];
    ServeSnoc(H, reqs + up, reg);
  }

  // ----- reading back --------------------------------------------------------

  /** A node that lists the chunk hashes of `data` reads back as `data` from any backed server. */
  lemma ListedReadsBack(H: Bytes -> Hash, s: Server, key: Hash, data: Bytes)
    requires Injective(H) && BlobsAddressed(H, s)
    requires NodeLayers(s.t, key) == Some(Hashes(H, Chunks(data)))
    requires forall l :: l in Hashes(H, Chunks(data)) ==> l in s.blobs
    ensures Fetch(s, key) == Ok(Some(data))
  {
    var list := Hashes(H, Chunks(data));
    forall i | 0 <= i < |list| ensures s.blobs[list[i]] == Chunks(data)[i] {
      assert list[i] in list;
      assert H(s.blobs[list[i]]) == H(Chunks(data)[i]);
    }
    assert BlobsOf(s, list) == Chunks(data);
    MergeUndoesSplit(data);
  }

  /** A listed layer without a blob makes the read fail. */
  lemma MissingLayerFails(s: Server, key: Hash, l: Hash)
    requires NodeLayers(s.t, key).Some? && l in NodeLayers(s.t, key).value && l !in s.blobs
    ensures Fetch(s, key) == Err
  {
  }

  /** Exactly when a node that lists the chunk hashes of `data` reads back: otherwise the read is an error. */
  lemma ListedReadsBackIff(H: Bytes -> Hash, s: Server, key: Hash, data: Bytes)
    requires Injective(H) && BlobsAddressed(H, s)
    requires NodeLayers(s.t, key) == Some(Hashes(H, Chunks(data)))
    ensures Fetch(s, key) == if forall l :: l in Hashes(H, Chunks(data)) ==> l in s.blobs then Ok(Some(data)) else Err
  {
    if l :| l in Hashes(H, Chunks(data)) && l !in s.blobs {
      MissingLayerFails(s, key, l);
    } else {
      ListedReadsBack(H, s, key, data);
    }
  }

  predicate LeavesAlone(req: Request, key: Hash) {
    match req
    case RegisterNode(n, _, _, _) => n != key
    case SweepOld(stale) => key !in stale
    case _ => true
  }

  lemma HandleKeepsList(H: Bytes -> Hash, s: Server, req: Request, key: Hash)
    requires LeavesAlone(req, key) && key in s.t.entries
    ensures key in Handle(H, s, req).t.entries
    ensures NodeLayers(Handle(H, s, req).t, key) == NodeLayers(s.t, key)
  {
    match req
    case RegisterNode(n, _, list, _) =>
      if Accepts(s.t, list) {
        RowsAfterRegister(s.t.rows, n, list, key);
      }
    case SweepOld(stale) =>
      ExpireRemoves(s, stale, key);
      ExpireKeepsRows(s, stale, key);
    case _ =>
  }

  lemma {:induction false} ServeKeepsList(H: Bytes -> Hash, reqs: seq<Request>, more: seq<Request>, key: Hash)
    requires key in Serve(H, reqs).t.entries
    requires forall i :: 0 <= i < |more| ==> LeavesAlone(more[i], key)
    ensures key in Serve(H, reqs + more).t.entries
    ensures NodeLayers(Serve(H, reqs + more).t, key) == NodeLayers(Serve(H, reqs).t, key)
  {
    if more == [] {
      assert reqs + more == reqs;
    } else {
      var init, last := more[..|more| - 1], more[|more| - 1];
      ServeKeepsList(H, reqs, init, key);
      assert reqs + more == (reqs + init) + [last];
      ServeSnoc(H, reqs + init, last);
      HandleKeepsList(H, Serve(H, reqs + init), last, key);
    }
  }

  lemma PutRegisters(H: Bytes -> Hash, s: Server, key: Hash, data: Bytes, now: int)
    ensures key in Put(H, s, key, data, now).t.entries
    ensures NodeLayers(Put(H, s, key, data, now).t, key) == Some(Hashes(H, Chunks(data)))
    ensures var e := Put(H, s, key, data, now).t.entries[key];
            e.lastUsed == now && (key !in s.t.entries ==> e.size == |data| && e.layered)
  {
    UploadedState(H, s, Chunks(data), now);
    PutIsAccepted(H, s, data, now);
    var u := Uploaded(H, s, Chunks(data), now);
    RegisterThenRead(u.t, key, |data|, Hashes(H, Chunks(data)), now, key);
  }

  lemma RegisteredLayersAreRows(t: Tables, key: Hash, l: Hash)
    requires NodeLayers(t, key).Some? && l in NodeLayers(t, key).value
    ensures exists r :: r in t.rows && r.layer == l
  {
    var mine := RowsOf(t.rows, key);
    var i :| 0 <= i < |mine| && LayersIn(mine)[i] == l;
    assert mine[i] in mine;
    RowsOfAreRows(t.rows, key, mine[i]);
  }

  lemma {:induction false} RowsOfAreRows(rows: seq<Row>, key: Hash, r: Row)
    requires r in RowsOf(rows, key)
    ensures r in rows
  {
    var init := rows[..|rows| - 1];
    if r in RowsOf(init, key) {
      RowsOfAreRows(init, key, r);
    }
  }

  lemma PutKeepsList(H: Bytes -> Hash, reqs: seq<Request>, key: Hash, data: Bytes, now: int, more: seq<Request>)
    requires forall i :: 0 <= i < |more| ==> LeavesAlone(more[i], key)
    ensures var s := Serve(H, reqs + PutRequests(H, Serve(H, reqs), key, data, now) + more);
            NodeLayers(s.t, key) == Some(Hashes(H, Chunks(data)))
  {
    var put := reqs + PutRequests(H, Serve(H, reqs), key, data, now);
    PutIsServed(H, reqs, key, data, now);
    PutRegisters(H, Serve(H, reqs), key, data, now);
    ServeKeepsList(H, put, more, key);
  }

  /**
    A read never returns anything but the artifact: after any run, a put and any continuation
    that leaves the key alone, whatever its sweeps took, the read is the artifact if and only
    if every chunk still has its blob, and the integrity error otherwise.
   */
  lemma ReadsBackIff(H: Bytes -> Hash, reqs: seq<Request>, key: Hash, data: Bytes, now: int, more: seq<Request>)
    requires Injective(H)
    requires forall i :: 0 <= i < |more| ==> LeavesAlone(more[i], key)
    ensures var s := Serve(H, reqs + PutRequests(H, Serve(H, reqs), key, data, now) + more);
            Fetch(s, key) == if forall l :: l in Hashes(H, Chunks(data)) ==> l in s.blobs then Ok(Some(data)) else Err
  {
    var all := reqs + PutRequests(H, Serve(H, reqs), key, data, now) + more;
    PutKeepsList(H, reqs, key, data, now, more);
    RunsKeepAddressed(H, all);
    ListedReadsBackIff(H, Serve(H, all), key, data);
  }

  /** The read of a node whose layer lost its blob to a sweep is the integrity error. */
  lemma SharedHashReadFails(H: Bytes -> Hash, reqs: seq<Request>, data: Bytes, node: Hash)
    requires H(data) != node
    ensures Fetch(Swept(StoreTwice(H, Serve(H, reqs), data, node), [H(data)]), node) == Err
  {
    SharedHashLosesBlob(H, reqs, data, node);
    MissingLayerFails(Swept(StoreTwice(H, Serve(H, reqs), data, node), [H(data)]), node, H(data));
  }

  /**
    A plain artifact has an entry and no layers, which a reader takes for a node of zero
    layers: it reads back as the empty artifact, so correctly if and only if it is empty.
   */
  lemma PlainArtifactReadsEmpty(H: Bytes -> Hash, reqs: seq<Request>, data: Bytes, now: int)
    requires RowsOf(Serve(H, reqs).t.rows, H(data)) == []
    ensures var s := Serve(H, reqs + [PutArtifact(H(data), data, now)]);
            H(data) in s.blobs && Fetch(s, H(data)) == Ok(Some([]))
  {
    ServeSnoc(H, reqs, PutArtifact(H(data), data, now));
    assert Merge([]) == [];
  }

  /** The fallback only answers for a key without an entry: with the blob of that hash, or with nothing. */
  lemma FallbackReadsBlob(H: Bytes -> Hash, reqs: seq<Request>, key: Hash)
    requires key !in Serve(H, reqs).t.entries
    ensures var s := Serve(H, reqs);
            if key in s.blobs then Fetch(s, key) == Ok(Some(s.blobs[key])) && H(s.blobs[key]) == key
            else Fetch(s, key) == Ok(None)
  {
    ServeIsRun(H, reqs);
    RunsKeepPositions(AllDatabaseOps(H, reqs));
    RunsKeepAddressed(H, reqs);
  }

  /**
    Durable round trip. After any server run, an artifact stored under `key` reads back
    exactly, for every length including 0, to any client with nothing cached locally, and
    keeps doing so over every continuation (puts, registrations, sweeps) that neither
    re-registers nor expires that key, provided the hash is collision-free and no sweep
    expires an entry that shares its hash with a chunk of the artifact whose row survives.
   */
  lemma DurableRoundTrip(H: Bytes -> Hash, reqs: seq<Request>, key: Hash, data: Bytes, now: int, more: seq<Request>)
    requires Injective(H)
    requires forall l :: l in Hashes(H, Chunks(data)) ==>
      SweepsSpare(H, reqs + PutRequests(H, Serve(H, reqs), key, data, now) + more, l)
    requires forall i :: 0 <= i < |more| ==> LeavesAlone(more[i], key)
    ensures Fetch(Serve(H, reqs + PutRequests(H, Serve(H, reqs), key, data, now) + more), key) == Ok(Some(data))
  {
    var put := reqs + PutRequests(H, Serve(H, reqs), key, data, now);
    PutKeepsList(H, reqs, key, data, now, more);
    RunsKeepAddressed(H, put + more);
    var s := Serve(H, put + more);
    forall l | l in Hashes(H, Chunks(data)) ensures l in s.blobs {
      RegisteredLayersAreRows(s.t, key, l);
      RunsKeepLayersBacked(H, put + more, l);
    }
    ListedReadsBack(H, s, key, data);
  }

  // ----- the objects ---------------------------------------------------------

  class CacheServer {
    const H: Bytes -> Hash
    const metadata: MetadataStore
    const storage: Storage

    ghost function State(): Server
      reads metadata, storage
    {
      Server(metadata.Contents(), storage.blobs)
    }

    constructor (H: Bytes -> Hash)
      ensures this.H == H && State() == NEW_SERVER && fresh(metadata) && fresh(storage)
    {
      this.H := H;
      metadata := new MetadataStore();
      storage := new Storage();
    }

    method HasLayer(hash: Hash) returns (b: bool)
      ensures b == (hash in State().t.layers)
    {
      b := hash in metadata.layers;
    }

    method PutLayer(hash: Hash, data: Bytes, now: int) returns (ok: bool)
      modifies metadata, storage
      ensures ok == (H(data) == hash)
      ensures State() == Handle(H, old(State()), Request.PutLayer(hash, data, now))
    {
      if H(data) != hash {
        return false;
      }
      storage.Put(hash, data);
      metadata.InsertLayer(hash, hash, |data|, now);
      ok := true;
    }

    method GetLayer(hash: Hash) returns (r: Option<Bytes>)
      ensures r == if hash in State().blobs then Some(State().blobs[hash]) else None
    {
      r := if hash in storage.blobs then Some(storage.blobs[hash]) else None;
    }

    method RegisterNodeLayers(node: Hash, list: seq<Hash>, size: nat, now: int) returns (ok: bool)
      modifies metadata
      ensures ok == Accepts(old(State()).t, list)
      ensures State() == Handle(H, old(State()), RegisterNode(node, size, list, now))
    {
      ok := metadata.InsertLayeredNode(node, size, list, now);
    }
  }

  lemma UploadedNext(H: Bytes -> Hash, s: Server, chunks: seq<Bytes>, i: nat, now: int)
    requires i < |chunks|
    ensures Uploaded(H, s, chunks[..i + 1], now) == UploadOne(H, Uploaded(H, s, chunks[..i], now), chunks[i], now)
    ensures Hashes(H, chunks[..i + 1]) == Hashes(H, chunks[..i]) + [H(chunks[i])]
  {
    assert chunks[..i + 1][..i] == chunks[..i];
  }

  class HybridCache {
    var local: map<Hash, Bytes>
    const remote: CacheServer?

    constructor (remote: CacheServer?)
      ensures local == map[] && this.remote == remote
    {
      this.local, this.remote := map[], remote;
    }

    /** Uploads a layer the server lacks; the upload is accepted because the layer is addressed by its content. */
    method Upload(layer: ArtifactLayer, now: int)
      requires remote != null && layer.hash == remote.H(layer.data)
      modifies remote.metadata, remote.storage
      ensures remote.State() == UploadOne(remote.H, old(remote.State()), layer.data, now)
    {
      var has := remote.HasLayer(layer.hash);
      if !has {
        var ok := remote.PutLayer(layer.hash, layer.data, now);
        assert ok;
      }
    }

    method UploadAll(data: Bytes, now: int) returns (hashes: seq<Hash>)
      requires remote != null
      modifies remote.metadata, remote.storage
      ensures hashes == Hashes(remote.H, Chunks(data))
      ensures remote.State() == Uploaded(remote.H, old(remote.State()), Chunks(data), now)
    {
      ghost var chunks := Chunks(data);
      var layers := SplitArtifact(remote.H, data);
      hashes := [];
      for i := 0 to |layers|
        invariant hashes == Hashes(remote.H, chunks[..i])
        invariant remote.State() == Uploaded(remote.H, old(remote.State()), chunks[..i], now)
      {
        UploadedNext(remote.H, old(remote.State()), chunks, i, now);
        hashes := hashes + [layers[i].hash];
        Upload(layers[i], now);
      }
      assert chunks[..|chunks|] == chunks;
    }

    /** Never fails against a reachable server: every put_layer is addressed, every registration accepted. */
    method PutArtifact(key: Hash, data: Bytes, now: int) returns (ok: bool)
      modifies this, if remote == null then {} else {remote.metadata, remote.storage}
      ensures ok && local == old(local)[key := data]
      ensures remote != null ==> remote.State() == Put(remote.H, old(remote.State()), key, data, now)
    {
      local := local[key := data];
      if remote == null {
        return true;
      }
      PutIsAccepted(remote.H, remote.State(), data, now);
      var hashes := UploadAll(data, now);
      ok := remote.RegisterNodeLayers(key, hashes, |data|, now);
    }

    /** A local hit answers at once; otherwise the answer is the server's, and a hit is kept locally. */
    method GetArtifact(key: Hash) returns (r: Result<Option<Bytes>>)
      modifies this
      ensures key in old(local) ==> r == Ok(Some(old(local)[key]))
      ensures key !in old(local) ==> r == if remote == null then Ok(None) else Fetch(remote.State(), key)
      ensures local == if r.Ok? && r.value.Some? then old(local)[key := r.value.value] else old(local)
    {
      if key in local {
        assert local == local[key := local[key]];
        return Ok(Some(local[key]));
      }
      if remote == null {
        return Ok(None);
      }
      var listed := remote.metadata.GetNodeLayers(key);
      if listed.None? {
        // The server also refreshes the entry's usage, but without a list there is no entry.
        var whole := remote.GetLayer(key);
        if whole.Some? {
          local := local[key := whole.value];
        }
        return Ok(whole);
      }
      var list, data := listed.value, [];
      for i := 0 to |list|
        invariant unchanged(this)
        invariant forall l :: l in list[..i] ==> l in remote.State().blobs
        invariant data == BlobsOf(remote.State(), list[..i])
      {
        assert list[..i + 1] == list[..i] + [list[i]];
        var layer := remote.GetLayer(list[i]);
        if layer.None? {
          assert list[i] in list && list[i] !in remote.State().blobs;
          return Err;
        }
        data := data + [layer.value];
      }
      assert list[..|list|] == list;
      var merged := MergeArtifact(data);
      local := local[key := merged];
      return Ok(Some(merged));
    }
  }
}
