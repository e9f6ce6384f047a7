# MemoBuild, verified model

A Dafny model of the parts of MemoBuild whose correctness is not visible from one
function: layer reference counting and garbage collection, the layered artifact
protocol, the consistent-hash cluster cache, the build graph from Dockerfile text to
execution, and three small state machines (rate limiter, audit log, region router).
`dafny verify dfyconfig.toml` checks everything.

## How the model is laid out

| file | models |
|---|---|
| `Metadata.dfy` | the three SQL tables, their statements, runs of statements, leak accounting |
| `GarbageCollection.dfy` | the server (tables plus blobs), its request handlers, the sweep |
| `Chunking.dfy`, `HybridCache.dfy`, `ArtifactProtocol.dfy` | splitting and merging, put/get of one client, any number of interleaved clients |
| `HashRing.dfy`, `CacheCluster.dfy`, `DistributedCache.dfy` | the ring, membership and replicas, read-through/write-replicated cache |
| `Dockerfile.dfy`, `DagBuilder.dfy` | parser, printed content, dependency graph |
| `BuildGraph.dfy`, `TopologicalOrder.dfy`, `Levels.dfy`, `DirtyPropagation.dfy` | paths, DFS ordering, levelling, dirty marking |
| `NodeKey.dfy`, `Executor.dfy` | content-addressed node keys, the incremental executor |
| `RateLimiter.dfy`, `AuditLog.dfy`, `RegionRouter.dfy` | the three small state machines |
| `Common.dfy` | bytes, options, results, text helpers |

State that the source changes in place is a class (or an array) whose methods are proved
against a specification function; runs are sequences of operations folded over those
functions, and the theorems quantify over every run.

## Assumptions

- Foreign keys declared at `src/server/metadata.rs:73-74` are enforced, and a failed
  transaction leaves nothing behind. (The bundled SQLite build enables them by default.)
- A node's mapping rows are kept in insertion order; `Metadata.RunsKeepPositions` proves
  that this is their position order, so `ORDER BY position` needs no sort in the model.
- Listing unused layers and deleting them happens without a registration in between; the
  `running` flag of the collector does not enforce this. Which entries are old is decided
  by the clock and is a parameter of the sweep.
- Hash functions are arbitrary function parameters. Freedom from collisions is a
  precondition only where a statement needs it, for the audit log and the node key only
  on the texts involved.
- Randomness, clocks, the network and the sandbox are parameters (`now`, reachability
  sets, landing or losing of background writes, build outcomes) or schedule choices.

## Where the code differs from its documentation

- `topological_order` is documented as an execution order but reverses an order that
  already lists dependencies first. `TopologicalOrder.OrderIsExecutableIffNoEdges` says
  when the result is usable: only without any in-range dependency.
- `levels` is documented as grouping nodes that can run in parallel. On acyclic graphs it
  produces only levels 0 and 1 (`Levels.OnlyTwoLevels`); it meets its documentation
  exactly on graphs where no dependency has dependencies (`Levels.LevelsRespectDepsIffShallow`).
  Over the unreversed order the same loop yields longest-path levels
  (`Levels.IntendedLevelIsLongestPath`).
- Layer counts are not exact: re-registration releases nothing and deletion releases each
  distinct layer once. `Metadata.StaysExactIff` gives the per-statement condition.
- The rate limiter's burst bound is 2·max − 1, one less than two full windows, and is
  attained (`RateLimiting.BurstIsBounded`, `RateLimiting.BurstBoundIsTight`).
- A limit of 0 still admits one request per window (`RateLimiting.ActsAsEffective`).
- `get_artifact` has a fallback for plain artifacts, but the server lists a plain entry as
  a node of zero layers, so the client rebuilds an empty artifact instead of falling back
  (`HybridCaching.PlainArtifactReadsEmpty`). The fallback is reached only for keys without
  an entry (`HybridCaching.FallbackReadsBlob`).
- The HTTP client compresses layer bodies (`src/cache/http.rs:192-202`) while the server
  compares the hash of the body it receives with the hash of the layer
  (`src/server/mod.rs:647-665`). Through this pair every missing layer is refused and only
  empty artifacts can be put (`ArtifactProtocol.HashChangingWireStoresNothing`); the
  protocol works exactly over encodings that keep hashes
  (`ArtifactProtocol.NoClientFailsIffTransparent`).

## Model

| member | source | states |
|---|---|---|
| Metadata.LeakAccounting | src/server/metadata.rs:98-138 | after every sequence of statements each layer's ref_count equals its mapping rows plus the references stranded since its row was created; a layer without a row is mapped nowhere |
| Metadata.StepKeepsBalance | src/server/metadata.rs:117-134 | every single statement keeps that balance |
| Metadata.RefCountsCoverMappings | src/server/metadata.rs:123-134 | in every reachable state counts never undershoot the mapping rows and every mapping row's layer has a row |
| Metadata.CollectedExactly | src/server/metadata.rs:268-288 | collection removes a layer exactly when nothing maps it and nothing was ever stranded on it |
| Metadata.LeaksAreForever | src/server/metadata.rs:244-266 | a layer with a stranded reference survives every later run |
| Metadata.StaysExactIff | src/server/metadata.rs:117-134 | an exact count stays exact if and only if the statement drops no row of the layer unreleased, a condition on the tables before it |
| Metadata.ReRegistrationStrands | src/server/metadata.rs:117-121 | from any state, registering a node twice, with any two accepted lists, strands every reference the first list made: each of its layers' counts stays that much above the rows |
| Metadata.DeletionStrandsRepeats | src/server/metadata.rs:248-253 | from any state, registering a list that names a layer k > 1 times and deleting the node strands k - 1 references to it |
| Metadata.TidyCountsAreExact | src/server/metadata.rs:98-138 | counts are exact when no live node is re-registered and no list repeats a layer |
| Metadata.RunsKeepPositions | src/server/metadata.rs:67-77 | a node's rows are numbered from 0 in table order, and belong to a node with an entry |
| Metadata.RegisterThenRead | src/server/metadata.rs:153-178 | an accepted registration reads back as its list (the empty list included), a refused one changes nothing, other nodes' lists are untouched |
| Metadata.DeleteThenRead | src/server/metadata.rs:244-266 | a deleted node reads as unknown, other nodes' lists are untouched |
| Metadata.EntryHistory | src/server/metadata.rs:84-115 | over every run an entry is there exactly when some statement created it and none deleted it since; it has that statement's size, path, kind and creation time, one hit per later use and the time of the latest one |
| Metadata.LayerHistory | src/server/metadata.rs:140-151 | over every run a layer's row keeps path, size and creation time of the upload that created it and the time of the latest upload |
| Metadata.MetadataStore.Insert | src/server/metadata.rs:84-96 | the upsert of a plain entry, against the statement's specification |
| Metadata.MetadataStore.InsertLayer | src/server/metadata.rs:140-151 | the upsert of a layer row with count 0, or its refresh |
| Metadata.MapLayers | src/server/metadata.rs:123-134 | the registration loop adds one row and one count per position, and fails exactly on a layer without a row |
| Metadata.MetadataStore.InsertLayeredNode | src/server/metadata.rs:98-138 | the whole transaction, with rollback on a foreign key failure |
| Metadata.MetadataStore.GetNodeLayers | src/server/metadata.rs:153-178 | the ordered list, None only for a node without an entry |
| Metadata.LayersMappedBy | src/server/metadata.rs:248-253 | the distinct layers a node's rows name |
| Metadata.MetadataStore.Delete | src/server/metadata.rs:244-266 | one release per distinct layer, then rows and entry go |
| Metadata.MetadataStore.DeleteLayerMetadata | src/server/metadata.rs:281-288 | deletes the row exactly when no mapping row names the layer |
| GarbageCollection.SweepKeepsMappedLayers | src/gc.rs:121-143 | a sweep never removes the row of a layer still mapped after it, and its blob exactly when the hash is also that of an entry expired in the same sweep |
| GarbageCollection.SweepListsOnlyUnmapped | src/gc.rs:134-142 | nothing the sweep lists for deletion is mapped, and all of it is deleted |
| GarbageCollection.ExpireRemoves | src/gc.rs:122-132 | expiry deletes exactly the listed entries and their blobs, and no layer row |
| GarbageCollection.SweepIsExact | src/gc.rs:121-143 | after any run a sweep takes exactly the expired entries with their mappings and blobs, and the rows and blobs of the layers that nothing maps any more and nothing was stranded on |
| GarbageCollection.ReportIsExact | src/gc.rs:122-132 | the reported number and bytes are what the entry table has lost in number and total size |
| GarbageCollection.RequestsCountUses | src/server/mod.rs:519-704 | every request that uses an existing entry adds one hit and sets its last use, and no request but a sweep changes anything else of it or removes it |
| GarbageCollection.UploadIsStoredIff | src/server/mod.rs:519-557 | an upload is stored under the hash of its bytes, with its row, if that is the hash in the request, and otherwise changes nothing |
| GarbageCollection.BackedThroughoutIff | src/gc.rs:121-143 | a layer's row is backed by a blob after every request of a run if and only if no sweep of the run expires an entry of the same hash while the layer's row survives that sweep |
| GarbageCollection.RunsKeepLayersBacked | src/server/mod.rs:647-681 | over every such run a layer that has a row or that a node maps is stored under its own hash |
| GarbageCollection.ServeIsRun | src/server/mod.rs:519-704 | server runs are database runs, so the accounting applies to them |
| GarbageCollection.SharedHashLosesBlob | src/gc.rs:124-130 | without that condition, after any run, a mapped layer can lose its blob |
| GarbageCollection.Storage.Put | src/storage/local.rs:31-47 | the first content stored under a hash stays |
| GarbageCollection.GarbageCollector.Sweep | src/gc.rs:105-177 | the whole sweep: new tables and blobs, result counts, running counters, and the skip while already running |
| GarbageCollection.GarbageCollector.ExpireEntries | src/gc.rs:123-132 | the expiry loop with its counts of artifacts and bytes |
| GarbageCollection.GarbageCollector.CollectLayers | src/gc.rs:135-142 | the collection loop over the unused layers in any order |
| Chunking.MergeUndoesSplit | src/cache/utils.rs:11-30 | merging the chunks of any artifact gives the artifact |
| Chunking.SplitUndoesMerge | src/cache/utils.rs:11-30 | splitting undoes merging on well-chunked lists, so chunk lists are unique |
| Chunking.ChunksAreWellChunked | src/cache/utils.rs:13-13 | all chunks are full-size except possibly the last, which is not empty |
| Chunking.ChunkAt | src/cache/utils.rs:13-18 | chunk i is the i-th window of the artifact |
| Chunking.SplitArtifact | src/cache/utils.rs:11-21 | the split loop yields every chunk with its hash |
| Chunking.MergeArtifact | src/cache/utils.rs:24-30 | the merge loop concatenates in order |
| HybridCaching.DurableRoundTrip | src/cache/hybrid.rs:29-83 | after any server run, a stored artifact of any length reads back exactly, and keeps doing so over every continuation that neither re-registers nor expires its key, as long as no sweep expires an entry sharing its hash with a surviving chunk of that artifact |
| HybridCaching.ListedReadsBack | src/cache/hybrid.rs:31-51 | a node listing an artifact's chunk hashes reads back as that artifact from any backed server |
| HybridCaching.MissingLayerFails | src/cache/hybrid.rs:38-47 | a listed layer without a blob makes the read fail |
| HybridCaching.ReadsBackIff | src/cache/hybrid.rs:31-51 | after any run, a put and any continuation that leaves the key alone, the read is exactly the artifact if every chunk has its blob and the integrity error otherwise, never anything else |
| HybridCaching.SharedHashReadFails | src/cache/hybrid.rs:38-47 | reading a node whose layer lost its blob to a sweep is the integrity error |
| HybridCaching.PlainArtifactReadsEmpty | src/server/metadata.rs:153-178 | a plain artifact, which has an entry and no layers, reads back as the empty artifact |
| HybridCaching.FallbackReadsBlob | src/cache/hybrid.rs:53-58 | the fallback answers for keys without an entry only: with the blob of that hash, or nothing |
| HybridCaching.UploadedState | src/cache/hybrid.rs:73-78 | uploading adds exactly the missing chunk hashes, once each, and changes nothing already there |
| HybridCaching.PutIsServed | src/cache/hybrid.rs:64-86 | a put is a sequence of server requests |
| HybridCaching.PutRegisters | src/cache/hybrid.rs:80-82 | the registration is always accepted, lists the chunk hashes in order and records the artifact's size |
| HybridCaching.CacheServer.PutLayer | src/server/mod.rs:647-681 | a layer is stored only under the hash of its bytes |
| HybridCaching.CacheServer.RegisterNodeLayers | src/server/mod.rs:689-704 | registration through the metadata transaction |
| HybridCaching.HybridCache.PutArtifact | src/cache/hybrid.rs:64-86 | local copy, upload loop and registration, which cannot fail |
| HybridCaching.HybridCache.GetArtifact | src/cache/hybrid.rs:23-62 | local hit, layered fetch that stops at the first missing layer, plain fallback, and what is kept locally |
| ArtifactProtocol.EveryRunKeepsInv | src/cache/hybrid.rs:23-86 | the protocol invariant holds in every interleaving of any number of clients, whatever encoding they use on the wire as long as it decodes back |
| ArtifactProtocol.RegisteredLayersAreStored | src/cache/hybrid.rs:73-83 | every layer of every registered node is stored under its own hash |
| ArtifactProtocol.NoClientFails | src/cache/hybrid.rs:38-47 | no get fails (the missing-layer failure is unreachable), and a put fails only if encoding changes the hash of one of its chunks |
| ArtifactProtocol.NoClientFailsIffTransparent | src/server/mod.rs:647-665 | no put and no get of any run ever fails if and only if the wire encoding leaves the hash of every possible chunk alone |
| ArtifactProtocol.HashChangingWireStoresNothing | src/cache/http.rs:192-202 | with an encoding that changes every chunk's hash, as compression does, no run ever stores a layer and a finished put succeeded exactly when its artifact was empty |
| ArtifactProtocol.ReconstructionIsExact | src/cache/hybrid.rs:31-51 | each reconstruction is the artifact registered when its list was read, encoded transport included |
| ArtifactProtocol.PutCompletes | src/cache/hybrid.rs:64-86 | however other clients interleave, a put is over within two turns per chunk plus one, successfully if encoding leaves its chunks' hashes alone |
| ArtifactProtocol.StoredPutSkipsUploads | src/cache/hybrid.rs:73-83 | a put of chunks the server has already is over within one turn per chunk plus one, successfully over every wire |
| ArtifactProtocol.GetCompletes | src/cache/hybrid.rs:23-62 | however other clients interleave, a get is over within two turns more than the artifact it reads has chunks, and never falls back for a registered key |
| ArtifactProtocol.HandledIsReadLocally | src/cache/hybrid.rs:24-27 | after every run a client that has just put or read an artifact gets it back at once from its local store |
| ArtifactProtocol.SuccessRegisters | src/cache/hybrid.rs:80-82 | the step on which a put succeeds registers its artifact |
| HashRing.AddingMovesKeysOnlyToTheNewNode | src/cache_cluster.rs:55-62 | adding a node leaves a key's owner or moves it to that node |
| HashRing.RemovingMovesOnlyOwnedKeys | src/cache_cluster.rs:64-66 | removing a node changes the owner only of keys it owned |
| HashRing.RemoveUndoesAdd | src/cache_cluster.rs:55-66 | removing a freshly added absent node restores the exact ring |
| HashRing.OwnerIsNearestClockwise | src/cache_cluster.rs:68-82 | the owner is the point at least clockwise distance on the 64-bit circle |
| HashRing.RingHoldsMembers | src/cache_cluster.rs:55-66 | after any membership changes the ring is sorted and holds exactly the members' points |
| HashRing.OwnershipIsMembershipIffNoCollision | src/cache_cluster.rs:55-82 | ownership is a function of the member set alone if and only if points of different nodes never collide |
| HashRing.DistinctHashesAreCollisionFree | src/cache_cluster.rs:56-60 | a hash without collisions on virtual keys keeps nodes' points apart |
| HashRing.VirtualKeysDiffer | src/cache_cluster.rs:57-57 | virtual keys of different nodes or indices never coincide |
| HashRing.InsertAllIsStableSort | src/cache_cluster.rs:61-61 | the resulting order is sorted and keeps points of equal hash in their order |
| HashRing.ConsistentHashRing.Add | src/cache_cluster.rs:55-62 | push loop and stable sort |
| HashRing.ConsistentHashRing.Remove | src/cache_cluster.rs:64-66 | retain loop |
| HashRing.ConsistentHashRing.GetNode | src/cache_cluster.rs:68-82 | the lookup loop with wrap-around |
| ClusterMembership.ReplicasAreSound | src/cache_cluster.rs:146-168 | replicas are distinct members other than the primary, at most the factor, all ids on the next points, and the same for keys with the same primary |
| ClusterMembership.ReplicasAreInRingOrder | src/cache_cluster.rs:157-165 | replicas are listed in the order in which the ring points after the primary first carry them |
| ClusterMembership.RingMembersAreTableKeys | src/cache_cluster.rs:95-137 | ring members are the table's keys plus the local node until it is removed |
| ClusterMembership.CacheCluster.AddNode | src/cache_cluster.rs:108-125 | table and ring change together |
| ClusterMembership.CacheCluster.RemoveNode | src/cache_cluster.rs:128-137 | table and ring change together |
| ClusterMembership.CacheCluster.GetReplicaNodes | src/cache_cluster.rs:146-168 | the replica scan loop |
| DistributedCaching.OneContentEverywhere | src/cache_cluster.rs:239-361 | over every run with one content per key, stores hold only it and get answers it, nothing or an error |
| DistributedCaching.HasAgreesWithGet | src/cache_cluster.rs:241-314 | the probes of has and the search of get agree in one state, errors included, and a hit makes the key local |
| DistributedCaching.GetIsExact | src/cache_cluster.rs:275-314 | with responsible nodes answering, get succeeds exactly when the key is local or one of them holds it |
| DistributedCaching.GetAsksInOrder | src/cache_cluster.rs:275-314 | the first target in order that has the key answers with its data, one that does not answer before that makes the get fail, and otherwise nothing is found |
| DistributedCaching.SearchEnds | src/cache_cluster.rs:275-314 | every search ends somewhere: at the first target that has the key or does not answer, or at the end of the list |
| DistributedCaching.PutThenGet | src/cache_cluster.rs:320-321 | from every state, whatever is linked or up, the node that made a put reads it back at once, and has agrees |
| DistributedCaching.PutStaysLocal | src/cache_cluster.rs:275-321 | and keeps reading it back over every run without a local eviction or another put of the key |
| DistributedCaching.PrimaryKeepsData | src/cache_cluster.rs:283-292 | data at its primary stays there while the primary stays an undisplaced member, whatever other nodes leave, and reads back whenever the primary answers, after any outages and without the local copy |
| DistributedCaching.PutSendsOneWriteEach | src/cache_cluster.rs:323-353 | a put sends exactly one write to each linked responsible node and none to any other |
| DistributedCaching.DeliveredPutIsKept | src/cache_cluster.rs:329-340 | a put whose write to the primary landed is kept there |
| DistributedCaching.RepairRestoresPrimary | src/cache_cluster.rs:294-309 | read repair leaves the key at its primary |
| DistributedCaching.DistributedCache.HasKey | src/cache_cluster.rs:241-273 | the has path: local, primary, then the replica loop, stopping at the first hit or error |
| DistributedCaching.DistributedCache.ReadThrough | src/cache_cluster.rs:275-314 | the get path: local, primary, replicas, caching and repair |
| DistributedCaching.DistributedCache.WriteReplicated | src/cache_cluster.rs:316-361 | the put path: the local write, then one background write per target |
| TopologicalOrder.OrderIsPermutation | src/graph.rs:144-168 | on every graph, cyclic or with dangling dependencies, each node is listed exactly once |
| TopologicalOrder.FinishOrderIsTopologicalIffAcyclic | src/graph.rs:158-168 | the finish order lists dependencies first if and only if the graph is acyclic |
| TopologicalOrder.OrderIsDependentsFirst | src/graph.rs:154-155 | on acyclic graphs the returned order puts dependents before their dependencies |
| TopologicalOrder.OrderIsExecutableIffNoEdges | src/graph.rs:143-156 | the returned order is an execution order if and only if there is no in-range dependency |
| TopologicalOrder.BackwardOrderIsDescending | src/graph.rs:144-156 | with backward dependencies the order is n-1 down to 0 |
| TopologicalOrder.DfsTopo | src/graph.rs:158-168 | the recursive visit over the visited array |
| TopologicalOrder.TopologicalSort | src/graph.rs:144-156 | the driver loop and the reversal |
| Levels.OnlyTwoLevels | src/graph.rs:171-183 | as written, on every acyclic graph, nodes without dependencies are in level 0 and all others in level 1 |
| Levels.LevelsRespectDepsIffShallow | src/graph.rs:170-193 | on every graph dependencies sit in lower levels if and only if no dependency has dependencies |
| Levels.ChainSharesLevel | src/graph.rs:171-193 | a chain of three puts a dependency beside its dependent |
| Levels.IntendedLevelIsLongestPath | src/graph.rs:170-183 | over the unreversed order a level is the longest dependency-path length |
| Levels.IntendedLevelsRespectDeps | src/graph.rs:170-170 | over the unreversed order dependencies are strictly lower if and only if the graph is acyclic |
| Levels.GroupsPartition | src/graph.rs:185-192 | the groups list every id exactly once, each in its level's group |
| Levels.LastGroupIsUsed | src/graph.rs:185-186 | the last group is not empty, unless there are no nodes at all |
| Levels.AssignLevels | src/graph.rs:175-183 | the level loop over any order |
| Levels.GroupLevels | src/graph.rs:185-192 | the grouping loop |
| Levels.ComputeLevels | src/graph.rs:171-193 | the whole of levels |
| DirtyPropagation.PassIsExact | src/core.rs:12-24 | on every graph the pass dirties exactly the nodes with a path to a dirty node on which only the last edge may go upwards |
| DirtyPropagation.BackwardPassIsReachability | src/core.rs:12-24 | with backward dependencies it computes exactly what depends on a dirty node |
| DirtyPropagation.ForwardChainIsMissed | src/core.rs:14-22 | a chain of forward dependencies is missed |
| DirtyPropagation.PassIsReachabilityIffSettles | src/core.rs:12-24 | one pass is reachability for all flags if and only if everything a node depends on ends a path of it that goes upwards on its last edge at most |
| DirtyPropagation.PropagateDirty | src/core.rs:12-24 | the nested loops over the flags |
| Dockerfile.FileNormalForm | src/docker/parser.rs:16-108 | a file of re-parsable instructions, printed one content text per line, parses back to the same instructions |
| Dockerfile.FileNormalFormIff | src/docker/dag.rs:28-220 | a parsed file, printed one content text per line, parses back to the same instructions if and only if each is a re-parsable kind or a COPY_EXTEND whose destination and only tag are the arrow |
| Dockerfile.ReparseYieldsSame | src/docker/dag.rs:28-151 | re-parsing the content printed for a parsed instruction yields it again |
| Dockerfile.ContentParses | src/docker/dag.rs:28-151 | the content text of every well-formed FROM, WORKDIR, COPY, ENV, CMD, GIT or unknown instruction parses to it |
| Dockerfile.ContentParsesIff | src/docker/dag.rs:28-220 | the same condition for the content text of any one well-formed instruction, HOOK included |
| Dockerfile.HookReparsesToListWords | src/docker/dag.rs:194-200 | the printed parameter list of a HOOK parses back as its own words |
| Dockerfile.ParserRange | src/docker/parser.rs:38-104 | an instruction of any kind is the parse of some line if and only if it is well-formed |
| Dockerfile.RunNeverReparses | src/docker/dag.rs:99-105 | the content of a RUN or RUN_EXTEND never parses back to it |
| Dockerfile.RunContentIsCommand | src/docker/dag.rs:99-105 | behind its keyword the content of a RUN parses back to the instruction |
| Dockerfile.RunExtendContentIsCommand | src/docker/dag.rs:155-165 | the same for RUN_EXTEND |
| Dockerfile.ContentPinsInstruction | src/docker/dag.rs:28-220 | two instructions of one kind have the same content exactly when they are the same, a COPY_EXTEND up to its tags |
| Dockerfile.LineByWords | src/docker/parser.rs:38-100 | how a line of words with a keyword in any case parses: extra words are ignored, a missing one drops the line, GIT clones to . by default |
| Dockerfile.LineByArgs | src/docker/parser.rs:31-82 | RUN, RUN_EXTEND and CMD take the trimmed rest of the line |
| Dockerfile.EnvLine | src/docker/parser.rs:58-66 | ENV splits the trimmed rest at its first blank or equals sign, and is dropped without one |
| Dockerfile.KeywordCaseIsIgnored | src/docker/parser.rs:31-38 | the case of a known keyword never changes the parse |
| Dockerfile.PaddingIsIgnored | src/docker/parser.rs:20-24 | blanks around a line never change the parse |
| Dockerfile.CopyExtendReparsesWithArrow | src/docker/dag.rs:182-191 | the printed arrow of a COPY_EXTEND parses back as its destination |
| Dockerfile.ParseDockerfile | src/docker/parser.rs:16-108 | the line loop |
| DagBuilder.BuildGraphFromInstructions | src/docker/dag.rs:14-242 | node i has instruction i's content and depends on exactly i-1 (not for FROM) and, for a RUN, the latest COPY of each source it names, without repeats |
| DagBuilder.RunDeps | src/docker/dag.rs:80-91 | the dependency loop of a RUN, for every iteration order of the source table |
| DagBuilder.NamesIff | src/docker/dag.rs:85-86 | a command names a copied source exactly when the source occurs in it at some position |
| DagBuilder.ParallelNodes | src/docker/dag.rs:93-97 | a node may run in parallel unless it is a FROM, HOOK or unknown line, or a RUN whose command mentions rm, mv or chmod |
| DagBuilder.RunNodesDiffer | src/docker/dag.rs:99-105 | two RUN nodes have the same content exactly when their commands are the same |
| DagBuilder.NodeDependsIff | src/docker/dag.rs:28-106 | a node depends exactly on the instruction just before it (a FROM on nothing) and, for a RUN, on the last COPY of each source that occurs in its command |
| DagBuilder.BuiltGraphsAreBackward | src/docker/dag.rs:23-239 | built graphs have backward dependencies, are acyclic and are ordered n-1 down to 0 |
| DagBuilder.DirtySpreadsToNextFrom | src/docker/dag.rs:29-106 | dirtying an instruction dirties everything up to the next FROM |
| DagBuilder.CopyDirtiesItsUsers | src/docker/dag.rs:80-91 | dirtying the last COPY of a source dirties every RUN whose command names it, across any FROM in between |
| DagBuilder.FromIsNeverDirtied | src/docker/dag.rs:29-38 | a FROM is dirty after the pass exactly when it was before |
| NodeKeys.KeysAgreeIffDepsPermuted | src/graph.rs:111-116 | with 64-character hashes and no collision, two keys agree exactly when the dependency hashes are equal up to order |
| NodeKeys.EveryInputCounts | src/graph.rs:86-125 | two values of one of kind, content, context, source hash, flag, priority or fingerprint give the same hashed text exactly when they are equal, an absent context, source hash or fingerprint being equal to an empty one |
| NodeKeys.EnvValuesCount | src/graph.rs:90-99 | changing the value of one environment variable changes the hashed text |
| NodeKeys.NamesAreCanonical | src/graph.rs:92-93 | the environment is fed in one order whatever the map's iteration order |
| NodeKeys.SortedEqualIffPermuted | src/graph.rs:112-113 | sorting forgets exactly the order |
| NodeKeys.FieldsAreNotSeparated | src/graph.rs:101-109 | text moved between context and source hash leaves the key unchanged |
| NodeKeys.KeyPinsInputsIff | src/graph.rs:76-128 | with no collision on the two texts, all inputs of two nodes agree (dependencies up to order, absent as empty) exactly when their keys agree and every input, environment name and entry is as long as its counterpart |
| NodeKeys.ComputeNodeKey | src/graph.rs:78-128 | the key, for every order in which the environment is drawn from the map |
| Execution.RunConserves | src/executor.rs:228-233 | every node is handled exactly once, hits plus misses is the node count, executed equals misses |
| Execution.RealRunCleansAndCaches | src/executor.rs:440-448 | a real run leaves every node clean and, unless its write was lost, its artifact cached |
| Execution.DryRunChangesNothing | src/executor.rs:341-347 | a dry run stores nothing and keeps missed nodes' dirty flags |
| Execution.SecondRunIsAllHits | src/executor.rs:331-336 | after a real run whose writes all took, a second run is all hits and executes nothing |
| Execution.FailedRunKeepsWork | src/executor.rs:298-298 | a failed run loses nothing: earlier cache entries stay, what was handled is counted once, clean and cached unless its write was lost, and all other nodes are as they were |
| Execution.IncrementalExecutor.Execute | src/executor.rs:74-146 | a successful run is complete in the sense of the lemmas above; a failed one stopped at a failing build outside a dry run, having handled exactly the nodes before it in the order level, parallelizable first, id |
| Execution.IncrementalExecutor.ExecuteParallel | src/executor.rs:149-238 | a parallel batch under every interleaving of probes and builds; results are applied up to the first error, and every successful build is cached even then |
| Execution.IncrementalExecutor.ExecuteSequential | src/executor.rs:241-315 | the sequential loop, stopping at the first error with everything before it kept |
| Execution.IncrementalExecutor.SplitLevel | src/executor.rs:113-115 | exactly the parallelizable nodes of a level enter its parallel batch |
| Execution.IncrementalExecutor.ExecuteNode | src/executor.rs:318-449 | probe, dry-run exit, build and cache of one node |
| RateLimiting.EveryKeyIsBounded | src/auth.rs:122-147 | for every limit, over every trace with a non-decreasing clock, no key is admitted more than 2·max − 1 times in a closed interval of one window length (once for a limit of 0) |
| RateLimiting.BurstIsBounded | src/auth.rs:127-139 | the same bound for one key's requests |
| RateLimiting.BurstBoundIsTight | src/auth.rs:127-139 | the bound is attained for every limit and every positive window |
| RateLimiting.WindowAdmitsAtMostMax | src/auth.rs:134-138 | the current window admitted exactly its count, at most max |
| RateLimiting.RefusedIff | src/auth.rs:127-139 | a request is refused exactly when the current window is not over and has admitted its limit already |
| RateLimiting.ActsAsEffective | src/auth.rs:127-146 | a limit of 0 acts as a limit of 1 |
| RateLimiting.LateRequestIsAdmitted | src/auth.rs:128-132 | a request more than a window after the opening is admitted and opens the next window |
| RateLimiting.KeysAreIndependent | src/auth.rs:127-146 | each key sees exactly the limiter run on its own requests |
| RateLimiting.RateLimiter.CheckRateLimit | src/auth.rs:122-147 | one decision and the bucket update |
| Auditing.AppendedLogsVerify | src/audit.rs:25-51 | every appended log verifies and so does each prefix |
| Auditing.HeadHashPinsLog | src/audit.rs:32-51 | two verifying logs with the same final hash agree in length and in every entry's serialized fields, link and hash |
| Auditing.TamperIsNoticed | src/audit.rs:32-51 | a verifying log in which any one field of any one entry was changed and the stored hashes were kept does not verify |
| Auditing.RelinkingIsNoticed | src/audit.rs:36-42 | nor does one in which an entry's link was changed |
| Auditing.EveryFieldIsHashed | src/audit.rs:96-108 | changing any single field of an entry changes its hashed text |
| Auditing.FieldBoundariesAreNotPinned | src/audit.rs:99-105 | text may move between any two neighbouring fields from the actor to the details without changing the hash |
| Auditing.PayloadPinsFieldsIff | src/audit.rs:96-108 | two entries have the same timestamp and event exactly when their hashed texts agree and every field is as long as its counterpart |
| Auditing.HeadHashPinsFieldsIff | src/audit.rs:32-51 | two verifying logs with the same final hash are equal field by field exactly when the fields of each entry are as long as those of its counterpart |
| Auditing.PrefixesVerify | src/audit.rs:32-51 | truncation is not noticed |
| Auditing.AuditLog.AppendEvent | src/audit.rs:25-30 | appending keeps the chain and the stored last hash |
| Auditing.Verify | src/audit.rs:32-51 | the verification loop accepts exactly chained logs |
| RegionRouting.PrimaryIsReadFirst | src/remote_router/router.rs:163-187 | with some region healthy the write primary is the first region a read tries |
| RegionRouting.GetIsExact | src/remote_router/router.rs:36-48 | a read succeeds exactly when a healthy, reachable region holds the key |
| RegionRouting.GetAsksInOrder | src/remote_router/router.rs:36-48 | the first healthy, reachable region in configured order that has the key answers with its data |
| RegionRouting.UnhealthyWritesAreUnread | src/remote_router/router.rs:180-187 | with no region healthy a write is accepted by the first region and not found by a read |
| RegionRouting.PutThenGet | src/remote_router/router.rs:36-64 | the next get answers what was put |
| RegionRouting.PutIsReadIffSomeHealthy | src/remote_router/router.rs:36-64 | an accepted put is what the next get answers if and only if some region is healthy |
| RegionRouting.PutIsAcceptedIff | src/remote_router/router.rs:50-52 | a put is accepted if and only if the first healthy region (the very first when none is) is reachable; that region then holds the data and no other region has changed |
| RegionRouting.PutStaysReadable | src/remote_router/router.rs:50-64 | a put reads back exactly after every run that ends with its region healthy and reachable |
| RegionRouting.PutCovers | src/remote_router/router.rs:189-199 | a put stores at the primary and sends exactly one copy to each region, none to a region that shares the primary's name |
| RegionRouting.DrainedIsReplicated | src/remote_router/router.rs:54-62 | with distinct names, a put none of whose copies was dropped or is still pending has landed in every other region |
| RegionRouting.ReplicatedIsHeldEverywhere | src/remote_router/router.rs:54-62 | once a copy of a put has landed in each other region at some moment, every region holds the key from then on |
| RegionRouting.ReplicatedIsAlwaysReadable | src/remote_router/router.rs:36-64 | from then on every further run (re-puts, lost copies, changing health) that ends with any healthy, reachable region reads exactly what was put |
| RegionRouting.SelectForRead | src/remote_router/router.rs:163-178 | the read selection loop |
| RegionRouting.RouteGet | src/remote_router/router.rs:36-48 | the read loop |

## Left out

- HTTP, gRPC, compression, Redis, S3, GCS and Postgres clients, TLS, tokens, metrics, dashboard, sandboxes and exporters: I/O or foreign libraries.
- HybridCaching.HybridCache.PutArtifact: the sequential client and `DurableRoundTrip` are stated for a remote that receives raw bytes; the wire encoding is modelled in `ArtifactProtocol.dfy`.
- get_old_entries: the comparison of timestamps as text; the sweep takes the list of old entries as given.
- A sweep that interleaves with an upload: listing and deleting unused layers is one step of the model.
- The number of replicas: the scan looks at `replication_factor` ring points only, so fewer nodes than that may be found; only the bound and the exact scan are stated.
- Dependency-ordered execution: it does not follow from the levels as written; it is stated for the unreversed order as `Levels.IntendedLevelsRespectDeps`.
- Layer variants of the cluster cache and the router: the same code shape as has, get and put.
- Hook parameters: their debug text is an arbitrary function, assumed only to be one bracketed line whose first word is longer than the first parameter where re-parsing HOOK is decided.
- Text outside ASCII: whitespace and upper-casing are the ASCII ones.
- Widths of counters (positions as 32-bit, counts as 32- or 64-bit integers): numbers are unbounded.
- `compute_composite_hashes`, `detect_changes`, `propagate_manifests`, auto scaling, worker pool, secrets, SBOM, SLSA and AI modules: no property beyond their bodies, or floating-point heuristics.
- Node kind, tags and source path in built graphs, and the router's `has`: carried along or the same loop as `get`.
- Timing fields of nodes and statistics (`last_executed`, durations, progress bar, observer events).
