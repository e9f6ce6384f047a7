/**
  The incremental executor: level by level, parallelizable nodes first, each node served
  from the cache or built and cached. Nodes of a parallel batch run interleaved: each
  probes the cache at some moment and finishes at some later one, in any order.
 */
module Execution {
  import opened Common
  import opened TopologicalOrder
  import opened Levels
  import opened DagBuilder

  /**
    What the surroundings do during a run: which cache reads fail (a failed read counts
    as a miss), which cache writes are lost (their errors are ignored), and what building
    a node yields.
   */
  datatype World = World(unreadable: set<string>, lost: set<nat>, outcome: nat -> Result<Bytes>)

  datatype Stats = Stats(total: nat, executed: nat, hits: nat, misses: nat, levels: nat)

  type Cache = map<string, Bytes>

  /** The only fields a run changes, and to what: a dry-run miss keeps its dirty flag. */
  ghost predicate Handled(dryRun: bool, before: Node, after: Node) {
    after == before.(dirty := if dryRun && !after.cacheHit then before.dirty else false, cacheHit := after.cacheHit)
  }

  /** A reported hit was in the cache; a readable entry from before the run is always a hit; a build is cached. */
  ghost predicate Accounted(w: World, dryRun: bool, initial: Cache, cache: Cache, id: nat, hash: string, hit: bool) {
    && (hit ==> hash in cache && hash !in w.unreadable)
    && (hash in initial && hash !in w.unreadable ==> hit)
    && (!hit && !dryRun ==> w.outcome(id).Ok? && (id !in w.lost ==> hash in cache))
  }

  /** The cache only gains what some node's build produced, and nothing in a dry run. */
  ghost predicate Grown(w: World, dryRun: bool, initial: Cache, cache: Cache, nodes: seq<Node>) {
    && initial.Keys <= cache.Keys
    && (dryRun ==> cache == initial)
    && forall h :: h in cache ==>
         (h in initial && cache[h] == initial[h]) ||
         exists v :: 0 <= v < |nodes| && nodes[v].hash == h && w.outcome(v) == Ok(cache[h])
  }

  lemma GrowOne(w: World, initial: Cache, cache: Cache, nodes: seq<Node>, id: nat)
    requires Grown(w, false, initial, cache, nodes) && id < |nodes| && w.outcome(id).Ok?
    ensures Grown(w, false, initial, cache[nodes[id].hash := w.outcome(id).value], nodes)
  {
  }

  datatype NodeResult = NodeResult(dirty: bool, hit: bool)

  /** How many of the handled nodes were not served from the cache. */
  function MissCount(nodes: seq<Node>, done: seq<nat>): nat
    requires forall i :: 0 <= i < |done| ==> done[i] < |nodes|
  {
    if done == [] then 0
    else MissCount(nodes, done[..|done| - 1]) + (if nodes[done[|done| - 1]].cacheHit then 0 else 1)
  }

  lemma {:induction false} MissCountFrame(a: seq<Node>, b: seq<Node>, done: seq<nat>)
    requires (forall i :: 0 <= i < |done| ==> done[i] < |a|) && |a| == |b|
    requires forall i :: 0 <= i < |done| ==> a[done[i]] == b[done[i]]
    ensures MissCount(a, done) == MissCount(b, done)
  {
    if done != [] {
      MissCountFrame(a, b, done[..|done| - 1]);
    }
  }

  /** A run seen from outside: where it started and what it goes by. */
  datatype Run = Run(w: World, dryRun: bool, initial: Cache, start: seq<Node>)

  ghost predicate InRange(n: nat, ids: seq<nat>) {
    forall i :: 0 <= i < |ids| ==> ids[i] < n
  }

  ghost predicate Counted(nodes: seq<Node>, stats: Stats, done: seq<nat>)
    requires InRange(|nodes|, done)
  {
    && stats.hits + stats.misses == |done|
    && stats.executed == stats.misses == MissCount(nodes, done)
  }

  ghost predicate HandledSoFar(run: Run, nodes: seq<Node>, cache: Cache, done: seq<nat>)
    requires |nodes| == |run.start|
  {
    forall v :: 0 <= v < |nodes| ==>
      if v in done then
        Handled(run.dryRun, run.start[v], nodes[v]) &&
        Accounted(run.w, run.dryRun, run.initial, cache, v, run.start[v].hash, nodes[v].cacheHit)
      else nodes[v] == run.start[v]
  }

  /** Everything handled so far is handled right and counted once; the rest is untouched. */
  ghost predicate Progress(run: Run, nodes: seq<Node>, cache: Cache, stats: Stats, done: seq<nat>) {
    && |nodes| == |run.start| && InRange(|nodes|, done)
    && Grown(run.w, run.dryRun, run.initial, cache, run.start)
    && Counted(nodes, stats, done)
    && HandledSoFar(run, nodes, cache, done)
  }

  /** A node's result is right, given the cache as it is afterwards. */
  ghost predicate Right(run: Run, cache: Cache, id: nat, r: NodeResult)
    requires id < |run.start|
  {
    && Accounted(run.w, run.dryRun, run.initial, cache, id, run.start[id].hash, r.hit)
    && r.dirty == if run.dryRun && !r.hit then run.start[id].dirty else false
  }

  function Recorded(stats: Stats, r: NodeResult): Stats {
    if r.hit then stats.(hits := stats.hits + 1)
    else stats.(misses := stats.misses + 1, executed := stats.executed + 1)
  }

  lemma RecordCounts(nodes: seq<Node>, stats: Stats, done: seq<nat>, id: nat, r: NodeResult, node: Node)
    requires InRange(|nodes|, done) && id < |nodes| && id !in done && Counted(nodes, stats, done)
    requires node.cacheHit == r.hit
    ensures Counted(nodes[id := node], Recorded(stats, r), done + [id])
  {
    MissCountFrame(nodes, nodes[id := node], done);
    assert (done + [id])[..|done|] == done;
  }

  lemma RecordProgress(
    run: Run, nodes: seq<Node>, cache: Cache, cache': Cache, stats: Stats, done: seq<nat>, id: nat, r: NodeResult)
    requires Progress(run, nodes, cache, stats, done) && id < |nodes| && id !in done
    requires cache.Keys <= cache'.Keys && Grown(run.w, run.dryRun, run.initial, cache', run.start)
    requires Right(run, cache', id, r)
    ensures var nodes' := nodes[id := nodes[id].(dirty := r.dirty, cacheHit := r.hit)];
            Progress(run, nodes', cache', Recorded(stats, r), done + [id])
  {
    RecordCounts(nodes, stats, done, id, r, nodes[id].(dirty := r.dirty, cacheHit := r.hit));
  }

  /** Ids of a batch: in range, pairwise different, not handled before. */
  ghost predicate Pending(n: nat, ids: seq<nat>, done: seq<nat>) {
    Distinct(ids) && InRange(n, ids) && forall i :: 0 <= i < |ids| ==> ids[i] !in done
  }

  lemma NextPending(n: nat, ids: seq<nat>, done: seq<nat>, k: nat)
    requires Pending(n, ids, done) && k < |ids|
    ensures ids[k] in ids && ids[k] !in done + ids[..k] && done + ids[..k + 1] == done + ids[..k] + [ids[k]]
  {
  }

  lemma UntouchedNode(run: Run, nodes: seq<Node>, cache: Cache, stats: Stats, done: seq<nat>, id: nat)
    requires Progress(run, nodes, cache, stats, done) && id < |nodes| && id !in done
    ensures nodes[id] == run.start[id]
  {
  }

  class IncrementalExecutor {
    const dryRun: bool
    var cache: Cache
    var stats: Stats

    constructor (dryRun: bool, cache: Cache)
      ensures this.dryRun == dryRun && this.cache == cache
    {
      this.dryRun, this.cache, stats := dryRun, cache, Stats(0, 0, 0, 0, 0);
    }

    ghost predicate Doing(run: Run, nodes: array<Node>, done: seq<nat>)
      reads this, nodes
    {
      run.dryRun == dryRun && Progress(run, nodes[..], cache, stats, done)
    }

    /** The batch was handled up to its `k`-th node, whose build failed. */
    ghost predicate StoppedAt(run: Run, nodes: array<Node>, done: seq<nat>, ids: seq<nat>, k: nat)
      reads this, nodes
    {
      k < |ids| && Doing(run, nodes, done + ids[..k]) && !dryRun && run.w.outcome(ids[k]).Err?
    }

    method Record(nodes: array<Node>, id: nat, r: NodeResult, ghost run: Run, ghost before: Cache, ghost done: seq<nat>)
      requires run.dryRun == dryRun && Progress(run, nodes[..], before, stats, done)
      requires id < nodes.Length && id !in done && before.Keys <= cache.Keys
      requires Grown(run.w, dryRun, run.initial, cache, run.start) && Right(run, cache, id, r)
      modifies nodes, `stats
      ensures Doing(run, nodes, done + [id])
      ensures stats.total == old(stats.total) && stats.levels == old(stats.levels)
    {
      RecordProgress(run, nodes[..], before, cache, stats, done, id, r);
      ghost var updated := nodes[..][id := nodes[id].(dirty := r.dirty, cacheHit := r.hit)];
      nodes[id] := nodes[id].(dirty := r.dirty, cacheHit := r.hit);
      assert nodes[..] == updated;
      if r.hit {
        stats := stats.(hits := stats.hits + 1);
      } else {
        stats := stats.(misses := stats.misses + 1, executed := stats.executed + 1);
      }
    }

    /** Builds a node that missed and caches the artifact; a lost write is not an error. */
    method Build(id: nat, hash: string, ghost run: Run, w: World) returns (r: Result<NodeResult>)
      requires run.w == w && id < |run.start| && run.start[id].hash == hash && !dryRun && !run.dryRun
      requires Grown(w, false, run.initial, cache, run.start)
      modifies `cache
      ensures r == if w.outcome(id).Ok? then Ok(NodeResult(false, false)) else Err
      ensures old(cache).Keys <= cache.Keys && Grown(w, false, run.initial, cache, run.start)
      ensures r.Ok? && id !in w.lost ==> hash in cache
    {
      match w.outcome(id)
      case Err => r := Err;
      case Ok(data) =>
        if id !in w.lost {
          GrowOne(w, run.initial, cache, run.start, id);
          cache := cache[hash := data];
        }
        r := Ok(NodeResult(false, false));
    }

    /** Probe, then build, without interruption. */
    method ExecuteNode(node: Node, id: nat, ghost run: Run, w: World) returns (r: Result<NodeResult>)
      requires run.w == w && id < |run.start| && node == run.start[id] && run.dryRun == dryRun
      requires Grown(w, dryRun, run.initial, cache, run.start)
      modifies `cache
      ensures old(cache).Keys <= cache.Keys && Grown(w, dryRun, run.initial, cache, run.start)
      ensures r.Ok? ==> Right(run, cache, id, r.value)
      ensures r.Err? ==> !dryRun && w.outcome(id).Err?
    {
      if node.hash in cache && node.hash !in w.unreadable {
        return Ok(NodeResult(false, true));
      }
      if dryRun {
        return Ok(NodeResult(node.dirty, false));
      }
      r := Build(id, node.hash, run, w);
    }

    method ExecuteSequential(nodes: array<Node>, ids: seq<nat>, ghost run: Run, w: World, ghost done: seq<nat>)
      returns (ok: bool)
      requires run.w == w && Doing(run, nodes, done) && Pending(nodes.Length, ids, done)
      requires Distinct(done)
      modifies this, nodes
      ensures old(cache).Keys <= cache.Keys
      ensures stats.total == old(stats.total) && stats.levels == old(stats.levels)
      ensures ok ==> Doing(run, nodes, done + ids)
      ensures !ok ==> exists k: nat :: FailedAt(run, nodes[..], cache, stats, done, ids, k)
    {
      assert done + ids[..0] == done;
      for k := 0 to |ids|
        invariant stats.total == old(stats.total) && stats.levels == old(stats.levels)
        invariant Doing(run, nodes, done + ids[..k]) && old(cache).Keys <= cache.Keys
      {
        var id := ids[k];
        ghost var before := cache;
        NextPending(nodes.Length, ids, done, k);
        UntouchedNode(run, nodes[..], cache, stats, done + ids[..k], id);
        var r := ExecuteNode(nodes[id], id, run, w);
        if r.Err? {
          ProgressStable(run, nodes[..], before, cache, stats, done + ids[..k]);
          assert StoppedAt(run, nodes, done, ids, k);
          StopIsFailure(run, nodes[..], cache, stats, done, ids, k);
          return false;
        }
        Record(nodes, id, r.value, run, before, done + ids[..k]);
      }
      assert ids[..|ids|] == ids;
      ok := true;
    }

    /**
      A parallel batch. At each turn any unfinished node moves: a waiting one probes the
      cache, a building one finishes. Results are applied in batch order once all are in;
      the first error stops there.
     */
    method ExecuteParallel(nodes: array<Node>, ids: seq<nat>, ghost run: Run, w: World, ghost done: seq<nat>)
      returns (ok: bool)
      requires run.w == w && Doing(run, nodes, done) && Pending(nodes.Length, ids, done)
      requires Distinct(done)
      modifies this, nodes
      ensures !dryRun ==> BatchCached(run, cache, ids)
      ensures old(cache).Keys <= cache.Keys
      ensures stats.total == old(stats.total) && stats.levels == old(stats.levels)
      ensures ok ==> Doing(run, nodes, done + ids)
      ensures !ok ==> exists k: nat :: FailedAt(run, nodes[..], cache, stats, done, ids, k)
    {
      BatchStarts(run, nodes[..], cache, stats, done, ids);
      var results := RunBatch(nodes[..], ids, run, w);
      ProgressStable(run, nodes[..], old(cache), cache, stats, done);
      BatchIsCached(run, cache, results, ids);
      ok := ApplyResults(nodes, ids, results, run, w, done);
      if !ok {
        ghost var k: nat :| StoppedAt(run, nodes, done, ids, k);
        StopIsFailure(run, nodes[..], cache, stats, done, ids, k);
      }
    }

    method ApplyResults(
      nodes: array<Node>, ids: seq<nat>, results: map<nat, Result<NodeResult>>, ghost run: Run, w: World,
      ghost done: seq<nat>)
      returns (ok: bool)
      requires run.w == w && Doing(run, nodes, done) && Pending(nodes.Length, ids, done)
      requires (forall id :: id in ids ==> id in results) && Settled(run, cache, results)
      modifies `stats, nodes
      ensures stats.total == old(stats.total) && stats.levels == old(stats.levels)
      ensures ok ==> Doing(run, nodes, done + ids)
      ensures !ok ==> exists k: nat :: StoppedAt(run, nodes, done, ids, k)
    {
      assert done + ids[..0] == done;
      for k := 0 to |ids|
        invariant stats.total == old(stats.total) && stats.levels == old(stats.levels)
        invariant Doing(run, nodes, done + ids[..k])
      {
        var id := ids[k];
        NextPending(nodes.Length, ids, done, k);
        var r := results[id];
        if r.Err? {
          assert StoppedAt(run, nodes, done, ids, k);
          return false;
        }
        Record(nodes, id, r.value, run, cache, done + ids[..k]);
      }
      assert ids[..|ids|] == ids;
      ok := true;
    }

    method RunBatch(nodes: seq<Node>, ids: seq<nat>, ghost run: Run, w: World)
      returns (results: map<nat, Result<NodeResult>>)
      requires run.w == w && run.dryRun == dryRun && Untouched(run, nodes, set id | id in ids)
      requires Grown(w, dryRun, run.initial, cache, run.start)
      modifies `cache
      ensures old(cache).Keys <= cache.Keys && Grown(w, dryRun, run.initial, cache, run.start)
      ensures forall id :: id in ids ==> id in results
      ensures Settled(run, cache, results)
    {
      results := map[];
      var waiting: set<nat>, building: set<nat> := set id | id in ids, {};
      while waiting + building != {}
        invariant forall id :: id in ids ==> id in waiting + building || id in results
        invariant Untouched(run, nodes, waiting + building)
        invariant forall id :: id in building ==> MayBuild(run, id)
        invariant old(cache).Keys <= cache.Keys && Grown(w, dryRun, run.initial, cache, run.start)
        invariant Settled(run, cache, results)
        decreases waiting, building
      {
        var id :| id in waiting + building;
        if id in building {
          results := Finish(id, nodes[id].hash, run, w, results);
          building := building - {id};
        } else {
          waiting := waiting - {id};
          var r := Probe(nodes[id], id, run, w);
          if r.Some? {
            results := results[id := Ok(r.value)];
          } else {
            building := building + {id};
          }
        }
      }
    }

    /** Builds a waiting node of the batch and files its result. */
    method Finish(id: nat, hash: string, ghost run: Run, w: World, results: map<nat, Result<NodeResult>>)
      returns (filed: map<nat, Result<NodeResult>>)
      requires run.w == w && run.dryRun == dryRun && MayBuild(run, id) && run.start[id].hash == hash
      requires Grown(w, dryRun, run.initial, cache, run.start) && Settled(run, cache, results)
      modifies `cache
      ensures old(cache).Keys <= cache.Keys && Grown(w, dryRun, run.initial, cache, run.start)
      ensures filed.Keys == results.Keys + {id} && Settled(run, cache, filed)
    {
      ghost var before := cache;
      var r := Build(id, hash, run, w);
      BuiltSettles(run, before, cache, results, id, r);
      filed := results[id := r];
    }

    /** None: not served from the cache, to be built. */
    method Probe(node: Node, id: nat, ghost run: Run, w: World) returns (r: Option<NodeResult>)
      requires run.w == w && run.dryRun == dryRun && id < |run.start| && node == run.start[id]
      requires run.initial.Keys <= cache.Keys
      ensures r.Some? ==> Right(run, cache, id, r.value)
      ensures r.None? ==> MayBuild(run, id)
    {
      if node.hash in cache && node.hash !in w.unreadable {
        return Some(NodeResult(false, true));
      }
      if dryRun {
        return Some(NodeResult(node.dirty, false));
      }
      return None;
    }

    method SplitLevel(nodes: array<Node>, level: seq<nat>) returns (par: seq<nat>, sequential: seq<nat>)
      requires InRange(nodes.Length, level) && Distinct(level) && InIdOrder(level)
      ensures Distinct(par + sequential) && forall v :: v in level <==> v in par + sequential
      ensures (forall v :: v in par ==> v < nodes.Length && nodes[v].parallelizable) &&
              (forall v :: v in sequential ==> v < nodes.Length && !nodes[v].parallelizable)
      ensures InIdOrder(par) && InIdOrder(sequential)
    {
      par, sequential := [], [];
      for i := 0 to |level|
        invariant Distinct(par + sequential) && forall v :: v in level[..i] <==> v in par + sequential
        invariant forall v :: v in par ==> v < nodes.Length && nodes[v].parallelizable
        invariant forall v :: v in sequential ==> v < nodes.Length && !nodes[v].parallelizable
        invariant OrderedBelow(par, level, i) && OrderedBelow(sequential, level, i)
      {
        assert level[..i + 1] == level[..i] + [level[i]];
        assert level[i] !in level[..i];
        SnocDistinct(par, sequential, level[i]);
        SnocOrdered(par, level, i);
        SnocOrdered(sequential, level, i);
        if nodes[level[i]].parallelizable {
          par := par + [level[i]];
        } else {
          sequential := sequential + [level[i]];
        }
      }
      assert level[..|level|] == level;
    }

    /** One level: its parallelizable nodes as a batch, then the others one by one. */
    method ExecuteLevel(nodes: array<Node>, level: seq<nat>, ghost run: Run, w: World, ghost done: seq<nat>)
      returns (ok: bool, ghost now: seq<nat>)
      requires run.w == w && Doing(run, nodes, done) && Pending(nodes.Length, level, done) && Distinct(done)
      requires InIdOrder(level)
      modifies this, nodes
      ensures old(cache).Keys <= cache.Keys
      ensures stats.total == old(stats.total) && stats.levels == old(stats.levels)
      ensures ok ==> Doing(run, nodes, now) && Distinct(now) && forall v :: v in now <==> v in done || v in level
      ensures !ok ==> InRange(|run.start|, level) &&
                      exists stop, v :: StoppedInLevel(run, nodes[..], cache, stats, done, level, stop, v)
    {
      var par, sequential := SplitLevel(nodes, level);
      SplitOfStart(run, nodes[..], cache, stats, done, level, par, sequential);
      BatchesPending(nodes.Length, level, par, sequential, done);
      now := done + par + sequential;
      ok := ExecuteBatches(nodes, par, sequential, run, w, done, level);
    }

    method ExecuteBatches(
      nodes: array<Node>, par: seq<nat>, sequential: seq<nat>, ghost run: Run, w: World, ghost done: seq<nat>,
      ghost level: seq<nat>)
      returns (ok: bool)
      requires run.w == w && Doing(run, nodes, done) && Distinct(done) && Distinct(done + par)
      requires Pending(nodes.Length, par, done) && Pending(nodes.Length, sequential, done + par)
      requires InRange(|run.start|, level) && IsSplit(run.start, level, par, sequential)
      modifies this, nodes
      ensures old(cache).Keys <= cache.Keys
      ensures stats.total == old(stats.total) && stats.levels == old(stats.levels)
      ensures ok ==> Doing(run, nodes, done + par + sequential)
      ensures !ok ==> exists stop, v :: StoppedInLevel(run, nodes[..], cache, stats, done, level, stop, v)
    {
      ok := ExecuteParallel(nodes, par, run, w, done);
      if !ok {
        ghost var k: nat :| FailedAt(run, nodes[..], cache, stats, done, par, k);
        ParallelStop(run, nodes[..], cache, stats, done, level, par, sequential, k);
        return;
      }
      ok := ExecuteSequential(nodes, sequential, run, w, done + par);
      if !ok {
        ghost var k: nat :| FailedAt(run, nodes[..], cache, stats, done + par, sequential, k);
        SequentialStop(run, nodes[..], cache, stats, done, level, par, sequential, k);
      }
    }

    /** A whole run over the levels the graph assigns. */
    method Execute(nodes: array<Node>, w: World) returns (ok: bool)
      modifies this, nodes
      ensures old(cache).Keys <= cache.Keys
      ensures ok ==> Complete(Run(w, dryRun, old(cache), old(nodes[..])), nodes[..], cache, stats)
      ensures ok ==> stats.total == nodes.Length && stats.levels == |Groups(NodeLevels(DepsOf(old(nodes[..]))))|
      ensures !ok ==>
        exists stop, v :: StoppedFirst(Run(w, dryRun, old(cache), old(nodes[..])), nodes[..], cache, stats, stop, v)
    {
      ghost var run := Run(w, dryRun, cache, nodes[..]);
      var groups := ComputeLevels(DepsOf(nodes[..]));
      ghost var levels := NodeLevels(DepsOf(nodes[..]));
      GroupsPartition(levels);
      stats := Stats(nodes.Length, 0, 0, 0, |groups|);
      ghost var done: seq<nat> := [];
      for l := 0 to |groups|
        invariant stats.total == nodes.Length && stats.levels == |groups|
        invariant Doing(run, nodes, done) && Distinct(done) && old(cache).Keys <= cache.Keys
        invariant forall v: nat :: v in done <==> v < |levels| && levels[v] < l
      {
        LevelPending(levels, l, done);
        ghost var now;
        ok, now := ExecuteLevel(nodes, groups[l], run, w, done);
        if !ok {
          ghost var stop, v :| StoppedInLevel(run, nodes[..], cache, stats, done, groups[l], stop, v);
          LevelStopIsFirst(run, nodes[..], cache, stats, levels, l, done, stop, v);
          return false;
        }
        done := now;
      }
      ok := true;
      assert Finished(run, nodes[..], cache, stats, done);
    }
  }

  // ----- order -----------------------------------------------------------------------------

  ghost predicate InIdOrder(ids: seq<nat>) {
    forall i, j :: 0 <= i < j < |ids| ==> ids[i] < ids[j]
  }

  /** In id order, and all of it below what `level` lists from position `n` on. */
  ghost predicate OrderedBelow(ids: seq<nat>, level: seq<nat>, n: nat) {
    InIdOrder(ids) && forall i, j :: 0 <= i < |ids| && n <= j < |level| ==> ids[i] < level[j]
  }

  lemma SnocOrdered(ids: seq<nat>, level: seq<nat>, n: nat)
    requires InIdOrder(level) && n < |level| && OrderedBelow(ids, level, n)
    ensures OrderedBelow(ids, level, n + 1) && OrderedBelow(ids + [level[n]], level, n + 1)
  {
  }

  lemma PrefixIsBelow(ids: seq<nat>, k: nat, u: nat)
    requires InIdOrder(ids) && k < |ids|
    ensures u in ids[..k] <==> u in ids && u < ids[k]
  {
    if u in ids && u < ids[k] {
      var i :| 0 <= i < |ids| && ids[i] == u;
      assert i < k;
      assert ids[..k][i] == u;
    }
  }

  /** Within a level the parallelizable nodes go first, and otherwise the smaller id. */
  predicate Ahead(start: seq<Node>, u: nat, v: nat)
    requires u < |start| && v < |start|
  {
    if start[u].parallelizable != start[v].parallelizable then start[u].parallelizable else u < v
  }

  /** The run stopped inside this level, at the first node in schedule order that is not handled. */
  ghost predicate StoppedInLevel(
    run: Run, nodes: seq<Node>, cache: Cache, stats: Stats, done: seq<nat>, level: seq<nat>, stop: seq<nat>, v: nat)
    requires InRange(|run.start|, level)
  {
    && Failed(run, nodes, cache, stats, stop, v) && v in level && v < |run.start|
    && forall u: nat :: u in stop <==> u in done || (u in level && u < |run.start| && Ahead(run.start, u, v))
  }

  /** How a level is split: by flag, in ascending order. */
  ghost predicate IsSplit(start: seq<Node>, level: seq<nat>, par: seq<nat>, sequential: seq<nat>)
    requires InRange(|start|, level)
  {
    && InIdOrder(par) && InIdOrder(sequential)
    && (forall u: nat :: u in par <==> u in level && u < |start| && start[u].parallelizable)
    && (forall u: nat :: u in sequential <==> u in level && u < |start| && !start[u].parallelizable)
  }

  lemma ParallelStop(
    run: Run, nodes: seq<Node>, cache: Cache, stats: Stats, done: seq<nat>, level: seq<nat>,
    par: seq<nat>, sequential: seq<nat>, k: nat)
    requires InRange(|run.start|, level) && IsSplit(run.start, level, par, sequential) && k < |par|
    requires Failed(run, nodes, cache, stats, done + par[..k], par[k])
    ensures StoppedInLevel(run, nodes, cache, stats, done, level, done + par[..k], par[k])
  {
    assert par[k] in par;
    forall u: nat
      ensures u in done + par[..k] <==> u in done || (u in level && u < |run.start| && Ahead(run.start, u, par[k]))
    {
      PrefixIsBelow(par, k, u);
    }
  }

  lemma SequentialStop(
    run: Run, nodes: seq<Node>, cache: Cache, stats: Stats, done: seq<nat>, level: seq<nat>,
    par: seq<nat>, sequential: seq<nat>, k: nat)
    requires InRange(|run.start|, level) && IsSplit(run.start, level, par, sequential) && k < |sequential|
    requires Failed(run, nodes, cache, stats, done + par + sequential[..k], sequential[k])
    ensures StoppedInLevel(run, nodes, cache, stats, done, level, done + par + sequential[..k], sequential[k])
  {
    assert sequential[k] in sequential;
    forall u: nat
      ensures u in done + par + sequential[..k] <==>
              u in done || (u in level && u < |run.start| && Ahead(run.start, u, sequential[k]))
    {
      PrefixIsBelow(sequential, k, u);
    }
  }

  lemma SplitOfStart(
    run: Run, nodes: seq<Node>, cache: Cache, stats: Stats, done: seq<nat>, level: seq<nat>,
    par: seq<nat>, sequential: seq<nat>)
    requires Progress(run, nodes, cache, stats, done) && Pending(|nodes|, level, done)
    requires InIdOrder(par) && InIdOrder(sequential) && forall v :: v in level <==> v in par + sequential
    requires forall v :: v in par ==> v < |nodes| && nodes[v].parallelizable
    requires forall v :: v in sequential ==> v < |nodes| && !nodes[v].parallelizable
    ensures IsSplit(run.start, level, par, sequential)
  {
    forall v | v in level ensures v < |nodes| && nodes[v] == run.start[v] {
      var i :| 0 <= i < |level| && level[i] == v;
      UntouchedNode(run, nodes, cache, stats, done, v);
    }
  }

  // ----- batches --------------------------------------------------------------------------

  ghost predicate Settled(run: Run, cache: Cache, results: map<nat, Result<NodeResult>>) {
    forall id :: id in results ==>
      id < |run.start| &&
      (results[id].Ok? ==> Right(run, cache, id, results[id].value)) &&
      (results[id].Err? ==> !run.dryRun && run.w.outcome(id).Err?)
  }

  /** Not a dry run, and no readable entry from before the run. */
  ghost predicate MayBuild(run: Run, id: nat) {
    id < |run.start| && !run.dryRun && !(run.start[id].hash in run.initial && run.start[id].hash !in run.w.unreadable)
  }

  ghost predicate Untouched(run: Run, nodes: seq<Node>, ids: set<nat>) {
    |nodes| == |run.start| && forall id :: id in ids ==> id < |nodes| && nodes[id] == run.start[id]
  }

  lemma BatchStarts(run: Run, nodes: seq<Node>, cache: Cache, stats: Stats, done: seq<nat>, ids: seq<nat>)
    requires Progress(run, nodes, cache, stats, done) && Pending(|nodes|, ids, done)
    ensures Untouched(run, nodes, set id | id in ids)
  {
    forall id | id in ids ensures id < |nodes| && nodes[id] == run.start[id] {
      var i :| 0 <= i < |ids| && ids[i] == id;
    }
  }

  lemma BatchIsCached(run: Run, cache: Cache, results: map<nat, Result<NodeResult>>, ids: seq<nat>)
    requires Settled(run, cache, results) && forall id :: id in ids ==> id in results
    ensures !run.dryRun ==> BatchCached(run, cache, ids)
  {
  }

  /** Every node of the batch whose build succeeds has its artifact in the cache, unless the write was lost. */
  ghost predicate BatchCached(run: Run, cache: Cache, ids: seq<nat>) {
    forall id :: id in ids && id < |run.start| && run.w.outcome(id).Ok? && id !in run.w.lost ==>
      run.start[id].hash in cache
  }

  lemma BuiltSettles(
    run: Run, cache: Cache, cache': Cache, results: map<nat, Result<NodeResult>>, id: nat, r: Result<NodeResult>)
    requires Settled(run, cache, results) && cache.Keys <= cache'.Keys
    requires MayBuild(run, id) && r == if run.w.outcome(id).Ok? then Ok(NodeResult(false, false)) else Err
    requires r.Ok? && id !in run.w.lost ==> run.start[id].hash in cache'
    ensures Settled(run, cache', results[id := r])
  {
  }

  lemma ProgressStable(run: Run, nodes: seq<Node>, cache: Cache, cache': Cache, stats: Stats, done: seq<nat>)
    requires Progress(run, nodes, cache, stats, done)
    requires cache.Keys <= cache'.Keys && Grown(run.w, run.dryRun, run.initial, cache', run.start)
    ensures Progress(run, nodes, cache', stats, done)
  {
  }

  lemma SnocDistinct(a: seq<nat>, b: seq<nat>, v: nat)
    requires Distinct(a + b) && v !in a + b
    ensures Distinct(a + [v] + b) && Distinct(a + (b + [v]))
    ensures forall u :: u in a + [v] + b <==> u in a + b || u == v
    ensures forall u :: u in a + (b + [v]) <==> u in a + b || u == v
  {
    var s, t := a + b, a + [v] + b;
    assert forall i :: 0 <= i < |s| ==> s[i] in s;
    assert forall i :: 0 <= i < |a| ==> t[i] == s[i];
    assert forall i :: |a| < i < |t| ==> t[i] == s[i - 1];
    assert a + (b + [v]) == s + [v];
  }

  lemma ConcatParts(a: seq<nat>, b: seq<nat>)
    requires Distinct(a + b)
    ensures Distinct(a) && Distinct(b) && forall i :: 0 <= i < |b| ==> b[i] !in a
  {
    var s := a + b;
    assert forall i :: 0 <= i < |a| ==> a[i] == s[i];
    assert forall i :: 0 <= i < |b| ==> b[i] == s[|a| + i];
  }

  lemma MembersPending(n: nat, level: seq<nat>, done: seq<nat>, ids: seq<nat>)
    requires Pending(n, level, done) && Distinct(ids) && forall i :: 0 <= i < |ids| ==> ids[i] in level
    ensures Pending(n, ids, done)
  {
  }

  lemma BatchesPending(n: nat, level: seq<nat>, par: seq<nat>, sequential: seq<nat>, done: seq<nat>)
    requires Pending(n, level, done) && Distinct(done)
    requires Distinct(par + sequential) && forall v :: v in level <==> v in par + sequential
    ensures Pending(n, par, done) && Pending(n, sequential, done + par)
    ensures Distinct(done + par) && Distinct(done + par + sequential)
    ensures forall v :: v in done + par + sequential <==> v in done || v in level
  {
    var both := par + sequential;
    ConcatParts(par, sequential);
    MembersPending(n, level, done, par);
    MembersPending(n, level, done, sequential);
    MembersPending(n, level, done, both);
    ConcatDistinct(done, par);
    ConcatDistinct(done, both);
    assert done + par + sequential == done + both;
  }

  lemma ConcatDistinct(a: seq<nat>, b: seq<nat>)
    requires Distinct(a) && Distinct(b) && forall i :: 0 <= i < |b| ==> b[i] !in a
    ensures Distinct(a + b)
  {
    forall i, j | 0 <= i < j < |a + b| ensures (a + b)[i] != (a + b)[j] {
      if i < |a| <= j {
        assert a[i] in a && (a + b)[j] == b[j - |a|];
      }
    }
  }

  lemma LevelPending(levels: seq<nat>, l: nat, done: seq<nat>)
    requires l < |Groups(levels)|
    requires forall v: nat :: v in done <==> v < |levels| && levels[v] < l
    ensures Pending(|levels|, Groups(levels)[l], done) && InIdOrder(Groups(levels)[l])
    ensures forall v: nat :: v in done || v in Groups(levels)[l] <==> v < |levels| && levels[v] < l + 1
  {
    var ids := Groups(levels)[l];
    forall i | 0 <= i < |ids| ensures ids[i] < |levels| && ids[i] !in done {
      assert ids[i] in ids;
    }
  }

  /** The batch was handled up to its `k`-th node, whose build failed. */
  ghost predicate FailedAt(
    run: Run, nodes: seq<Node>, cache: Cache, stats: Stats, done: seq<nat>, ids: seq<nat>, k: nat)
  {
    k < |ids| && Failed(run, nodes, cache, stats, done + ids[..k], ids[k])
  }

  // ----- what a failed run guarantees --------------------------------------------------------

  /** Exactly the nodes in `stop` were handled, and the build of another one failed. */
  ghost predicate Failed(run: Run, nodes: seq<Node>, cache: Cache, stats: Stats, stop: seq<nat>, v: nat) {
    && Progress(run, nodes, cache, stats, stop) && Distinct(stop) && v < |nodes| && v !in stop
    && !run.dryRun && run.w.outcome(v).Err?
  }

  /** The order in which a run takes the nodes: by level, parallelizable ones first, then by id. */
  ghost predicate Before(start: seq<Node>, u: nat, v: nat)
    requires u < |start| && v < |start|
  {
    var levels := NodeLevels(DepsOf(start));
    levels[u] < levels[v] || (levels[u] == levels[v] && Ahead(start, u, v))
  }

  /** The run handled exactly the nodes that come before `v` in its order, and the build of `v` failed. */
  ghost predicate StoppedFirst(run: Run, nodes: seq<Node>, cache: Cache, stats: Stats, stop: seq<nat>, v: nat) {
    && Failed(run, nodes, cache, stats, stop, v) && v < |run.start|
    && forall u: nat :: u in stop <==> u < |run.start| && Before(run.start, u, v)
  }

  lemma LevelStopIsFirst(
    run: Run, nodes: seq<Node>, cache: Cache, stats: Stats, levels: seq<nat>, l: nat, done: seq<nat>,
    stop: seq<nat>, v: nat)
    requires levels == NodeLevels(DepsOf(run.start)) && l < |Groups(levels)|
    requires forall u: nat :: u in done <==> u < |levels| && levels[u] < l
    requires InRange(|run.start|, Groups(levels)[l])
    requires StoppedInLevel(run, nodes, cache, stats, done, Groups(levels)[l], stop, v)
    ensures StoppedFirst(run, nodes, cache, stats, stop, v)
  {
    GroupsPartition(levels);
    assert levels[v] == l;
    forall u: nat ensures u in stop <==> u < |run.start| && Before(run.start, u, v) {
      assert u in Groups(levels)[l] <==> u < |levels| && levels[u] == l;
    }
  }

  lemma StopIsFailure(
    run: Run, nodes: seq<Node>, cache: Cache, stats: Stats, done: seq<nat>, ids: seq<nat>, k: nat)
    requires Distinct(done) && Pending(|nodes|, ids, done) && k < |ids|
    requires Progress(run, nodes, cache, stats, done + ids[..k]) && !run.dryRun && run.w.outcome(ids[k]).Err?
    ensures FailedAt(run, nodes, cache, stats, done, ids, k)
  {
    NextPending(|nodes|, ids, done, k);
    ConcatDistinct(done, ids[..k]);
  }

  /**
    A failed run loses nothing: everything cached before is still there, what was handled is
    counted once, clean and cached unless its write was lost, and all other nodes, the
    failing one included, are as they were.
   */
  lemma FailedRunKeepsWork(run: Run, nodes: seq<Node>, cache: Cache, stats: Stats, stop: seq<nat>, v: nat)
    requires Failed(run, nodes, cache, stats, stop, v)
    ensures run.initial.Keys <= cache.Keys
    ensures stats.hits + stats.misses == |stop| < |nodes| && stats.executed == stats.misses
    ensures forall u :: 0 <= u < |nodes| ==>
      if u in stop then !nodes[u].dirty && (nodes[u].cacheHit || u !in run.w.lost ==> nodes[u].hash in cache)
      else nodes[u] == run.start[u]
    ensures nodes[v] == run.start[v]
  {
    FewerThan(stop, |nodes|, v);
  }

  lemma FewerThan(ids: seq<nat>, n: nat, missing: nat)
    requires Distinct(ids) && InRange(n, ids) && missing < n && missing !in ids
    ensures |ids| < n
  {
    var s := set v | v in ids;
    DistinctLength(ids, s);
    BelowSize(n);
    assert s <= Below(n) - {missing};
    SubsetSize(s, Below(n) - {missing});
  }

  lemma {:induction false} SubsetSize(a: set<nat>, b: set<nat>)
    requires a <= b
    ensures |a| <= |b|
  {
    if a != {} {
      var x :| x in a;
      SubsetSize(a - {x}, b - {x});
    }
  }

  // ----- what a completed run guarantees ----------------------------------------------------

  ghost predicate Finished(run: Run, nodes: seq<Node>, cache: Cache, stats: Stats, done: seq<nat>) {
    && Progress(run, nodes, cache, stats, done) && Distinct(done)
    && forall v: nat :: v in done <==> v < |run.start|
  }

  ghost predicate Complete(run: Run, nodes: seq<Node>, cache: Cache, stats: Stats) {
    exists done :: Finished(run, nodes, cache, stats, done)
  }

  lemma {:induction false} DistinctLength(done: seq<nat>, s: set<nat>)
    requires Distinct(done) && forall v :: v in done <==> v in s
    ensures |done| == |s|
  {
    if done != [] {
      var init, last := done[..|done| - 1], done[|done| - 1];
      assert done == init + [last];
      DistinctLength(init, s - {last});
    } else {
      assert s == {};
    }
  }

  lemma {:induction false} BelowSize(n: nat)
    ensures |Below(n)| == n
  {
    if n > 0 {
      BelowSize(n - 1);
    }
  }

  lemma {:induction false} MissCountZero(nodes: seq<Node>, done: seq<nat>)
    requires InRange(|nodes|, done)
    ensures MissCount(nodes, done) == 0 <==> forall i :: 0 <= i < |done| ==> nodes[done[i]].cacheHit
  {
    if done != [] {
      MissCountZero(nodes, done[..|done| - 1]);
      assert done == done[..|done| - 1] + [done[|done| - 1]];
    }
  }

  /** Conservation: every node is handled exactly once, and the counters add up to the node count. */
  lemma RunConserves(run: Run, nodes: seq<Node>, cache: Cache, stats: Stats)
    requires Complete(run, nodes, cache, stats)
    ensures stats.hits + stats.misses == |nodes| == |run.start| && stats.executed == stats.misses
    ensures forall v :: 0 <= v < |nodes| ==> Handled(run.dryRun, run.start[v], nodes[v])
    ensures stats.misses == 0 <==> forall v :: 0 <= v < |nodes| ==> nodes[v].cacheHit
  {
    var done :| Finished(run, nodes, cache, stats, done);
    DistinctLength(done, Below(|nodes|));
    BelowSize(|nodes|);
    MissCountZero(nodes, done);
    if stats.misses == 0 {
      forall v | 0 <= v < |nodes| ensures nodes[v].cacheHit {
        assert v in done;
      }
    }
  }

  /** A real run leaves every node clean, and if no write was lost every node's artifact is cached. */
  lemma RealRunCleansAndCaches(run: Run, nodes: seq<Node>, cache: Cache, stats: Stats, v: nat)
    requires Complete(run, nodes, cache, stats) && !run.dryRun && v < |nodes|
    ensures !nodes[v].dirty && (v !in run.w.lost ==> nodes[v].hash in cache)
  {
    var done :| Finished(run, nodes, cache, stats, done);
    assert v in done;
  }

  /** A dry run stores nothing and leaves the dirty flag of every missed node as it was. */
  lemma DryRunChangesNothing(run: Run, nodes: seq<Node>, cache: Cache, stats: Stats)
    requires Complete(run, nodes, cache, stats) && run.dryRun
    ensures cache == run.initial
    ensures forall v :: 0 <= v < |nodes| ==> nodes[v].dirty == (run.start[v].dirty && !nodes[v].cacheHit)
  {
    var done :| Finished(run, nodes, cache, stats, done);
    assert forall v :: 0 <= v < |nodes| ==> v in done;
  }

  /** Idempotence: after a real run whose writes all took, a second run is all hits and executes nothing. */
  lemma SecondRunIsAllHits(
    first: Run, nodes: seq<Node>, cache: Cache, stats: Stats,
    second: Run, nodes': seq<Node>, cache': Cache, stats': Stats)
    requires Complete(first, nodes, cache, stats) && !first.dryRun && first.w.lost == {}
    requires Complete(second, nodes', cache', stats') && second.start == nodes && second.initial == cache
    requires second.w.unreadable == {}
    ensures stats'.hits == |nodes| && stats'.misses == 0 && stats'.executed == 0
  {
    var done :| Finished(second, nodes', cache', stats', done);
    forall v | 0 <= v < |nodes'| ensures nodes'[v].cacheHit {
      RealRunCleansAndCaches(first, nodes, cache, stats, v);
      assert v in done;
    }
    RunConserves(second, nodes', cache', stats');
  }
}
