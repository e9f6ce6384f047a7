/** Content-addressed chunking of artifacts: splitting, merging, and that they are inverse. */
module Chunking {
  import opened Common
  import opened Metadata

  const CHUNK_SIZE: nat := 1024 * 1024

  datatype ArtifactLayer = ArtifactLayer(hash: Hash, data: Bytes)

  /** slice::chunks(CHUNK_SIZE) */
  function Chunks(data: Bytes): seq<Bytes> {
    if |data| == 0 then []
    else if |data| <= CHUNK_SIZE then [data]
    else [data[..CHUNK_SIZE]] + Chunks(data[CHUNK_SIZE..])
  }

  function Merge(layers: seq<Bytes>): Bytes {
    if layers == [] then [] else layers[0] + Merge(layers[1..])
  }

  function Hashes(H: Bytes -> Hash, chunks: seq<Bytes>): seq<Hash> {
    seq(|chunks|, i requires 0 <= i < |chunks| => H(chunks[i]))
  }

  function Layered(H: Bytes -> Hash, chunks: seq<Bytes>): seq<ArtifactLayer> {
    seq(|chunks|, i requires 0 <= i < |chunks| => ArtifactLayer(H(chunks[i]), chunks[i]))
  }

  ghost predicate Injective(H: Bytes -> Hash) {
    forall a, b :: H(a) == H(b) ==> a == b
  }

  /** Full-size chunks, the last one non-empty and possibly short. */
  ghost predicate WellChunked(cs: seq<Bytes>) {
    && (forall i :: 0 <= i < |cs| - 1 ==> |cs[i]| == CHUNK_SIZE)
    && (cs != [] ==> 0 < |cs[|cs| - 1]| <= CHUNK_SIZE)
  }

  lemma {:induction false} ChunksAreWellChunked(data: Bytes)
    ensures WellChunked(Chunks(data))
    decreases |data|
  {
    if |data| > CHUNK_SIZE {
      ChunksAreWellChunked(data[CHUNK_SIZE..]);
    }
  }

  /** Merging undoes splitting, for every artifact. */
  lemma {:induction false} MergeUndoesSplit(data: Bytes)
    ensures Merge(Chunks(data)) == data
    decreases |data|
  {
    if 0 < |data| <= CHUNK_SIZE {
      assert Chunks(data)[1..] == [];
      assert Merge(Chunks(data)) == data + Merge([]);
    } else if |data| > CHUNK_SIZE {
      MergeUndoesSplit(data[CHUNK_SIZE..]);
      assert Chunks(data)[1..] == Chunks(data[CHUNK_SIZE..]);
    }
  }

  /** Splitting undoes merging on well-chunked lists, so the chunk list of an artifact is unique. */
  lemma {:induction false} SplitUndoesMerge(cs: seq<Bytes>)
    requires WellChunked(cs)
    ensures Chunks(Merge(cs)) == cs
    decreases |cs|
  {
    if |cs| == 1 {
      assert cs[1..] == [];
      assert Merge(cs) == cs[0] + Merge([]) == cs[0];
    } else if |cs| > 1 {
      var tail := cs[1..];
      assert WellChunked(tail);
      SplitUndoesMerge(tail);
      assert |Merge(tail)| > 0;
      assert Merge(cs)[..CHUNK_SIZE] == cs[0] && Merge(cs)[CHUNK_SIZE..] == Merge(tail);
    }
  }

  lemma ChunksCons(data: Bytes)
    requires |data| >= CHUNK_SIZE
    ensures Chunks(data) == [data[..CHUNK_SIZE]] + Chunks(data[CHUNK_SIZE..])
  {
    assert |data| == CHUNK_SIZE ==> data[..CHUNK_SIZE] == data;
  }

  lemma SliceOfTail(data: Bytes, from: nat, a: nat, b: nat)
    requires from + b <= |data| && a <= b
    ensures data[from..][a..b] == data[from + a..from + b]
  {
  }

  /** Chunk i is the i-th CHUNK_SIZE window of the artifact. */
  lemma {:induction false} ChunkAt(data: Bytes, i: nat)
    requires i < |Chunks(data)|
    ensures i * CHUNK_SIZE < |data|
    ensures var end := if (i + 1) * CHUNK_SIZE < |data| then (i + 1) * CHUNK_SIZE else |data|;
            Chunks(data)[i] == data[i * CHUNK_SIZE..end]
    decreases |data|
  {
    if |data| > CHUNK_SIZE && i > 0 {
      var rest := data[CHUNK_SIZE..];
      ChunkAt(rest, i - 1);
      ChunksCons(data);
      var end := if i * CHUNK_SIZE < |rest| then i * CHUNK_SIZE else |rest|;
      SliceOfTail(data, CHUNK_SIZE, (i - 1) * CHUNK_SIZE, end);
    }
  }

  lemma ConcatHead(head: Bytes, a: seq<Bytes>, b: seq<Bytes>)
    ensures [head] + (a + b) == ([head] + a) + b
  {
  }

  lemma {:induction false} ChunksOfPrefix(data: Bytes, n: nat)
    requires n % CHUNK_SIZE == 0 && n < |data|
    ensures Chunks(data) == Chunks(data[..n]) + Chunks(data[n..])
    decreases |data|
  {
    if n == 0 {
      assert data[n..] == data;
    } else {
      var head, rest := data[..CHUNK_SIZE], data[CHUNK_SIZE..];
      var m := n - CHUNK_SIZE;
      ChunksOfPrefix(rest, m);
      ChunksCons(data);
      ChunksCons(data[..n]);
      assert data[..n][..CHUNK_SIZE] == head && data[..n][CHUNK_SIZE..] == rest[..m] && rest[m..] == data[n..];
      ConcatHead(head, Chunks(rest[..m]), Chunks(rest[m..]));
    }
  }

  lemma {:induction false} MergeConcat(a: seq<Bytes>, b: seq<Bytes>)
    ensures Merge(a + b) == Merge(a) + Merge(b)
  {
    if a == [] {
      assert a + b == b;
    } else {
      assert (a + b)[1..] == a[1..] + b;
      MergeConcat(a[1..], b);
    }
  }

  method SplitArtifact(H: Bytes -> Hash, data: Bytes) returns (layers: seq<ArtifactLayer>)
    ensures layers == Layered(H, Chunks(data))
  {
    layers := [];
    var start := 0;
    while start < |data|
      invariant 0 <= start <= |data|
      invariant start < |data| ==> start % CHUNK_SIZE == 0
      invariant layers == Layered(H, Chunks(data[..start]))
    {
      var end := if start + CHUNK_SIZE < |data| then start + CHUNK_SIZE else |data|;
      var chunk := data[start..end];
      ChunksOfPrefix(data[..end], start);
      assert data[..end][..start] == data[..start] && data[..end][start..] == chunk;
      assert Chunks(chunk) == [chunk];
      layers := layers + [ArtifactLayer(H(chunk), chunk)];
      start := end;
    }
    assert data[..start] == data;
  }

  method MergeArtifact(layers: seq<Bytes>) returns (data: Bytes)
    ensures data == Merge(layers)
  {
    data := [];
    for i := 0 to |layers|
      invariant data == Merge(layers[..i])
    {
      assert layers[..i + 1] == layers[..i] + [layers[i]];
      MergeConcat(layers[..i], [layers[i]]);
      assert Merge([layers[i]]) == layers[i] + Merge([]) by { assert [layers[i]][1..] == []; }
      data := data + layers[i];
    }
    assert layers[..|layers|] == layers;
  }
}
