/**
 * The position of a chunk info reader as a value: what seek, seek_src/seek_dst and
 * next_chunk do to it, and the properties of those steps over whole runs.
 */
module ChunkCursor {
  import opened Arith
  import opened EdgeLayout
  import opened Graph
  import opened Results
  import opened Types

  /** vertex_chunk_index_, chunk_index_ and the cached chunk_num_. */
  datatype Cursor = Cursor(part: nat, chunk: nat, chunkNum: nat)

  /** Chunk (part, chunk) is one of the files of the list. */
  ghost predicate ChunkExists(info: EdgeSizes, parts: seq<seq<Edge>>, part: nat, chunk: nat)
    requires info.Validated()
  {
    part < |parts| && chunk < ChunkCount(info, parts[part])
  }

  ghost predicate Before(part: nat, chunk: nat, part': nat, chunk': nat) {
    part < part' || (part == part' && chunk < chunk')
  }

  /** The reader is inside the list with an up-to-date chunk_num_, or past its end. */
  ghost predicate Synced(info: EdgeSizes, parts: seq<seq<Edge>>, c: Cursor)
    requires info.Validated()
  {
    if c.part < |parts| then c.chunkNum == ChunkCount(info, parts[c.part])
    else c.chunk >= c.chunkNum
  }

  // ----- the steps -----

  ghost function Seek(info: EdgeSizes, c: Cursor, index: nat): (Cursor, Status)
    requires info.Validated()
  {
    var chunk := index / info.chunkSize;
    (c.(chunk := chunk), if chunk >= c.chunkNum then IndexError else OK)
  }

  /** seek_src (bySource) and seek_dst (!bySource). */
  ghost function SeekVertex(info: EdgeSizes, t: AdjListType, files: EdgeFiles, parts: seq<seq<Edge>>,
                            c: Cursor, id: nat, bySource: bool): (Cursor, Status)
    requires info.Validated()
  {
    if t.BySource() != bySource then (c, Invalid)
    else
      var part := id / info.VertexChunkSize(t);
      if part >= |parts| then (c, IndexError)
      else
        var c' := if c.part != part then Cursor(part, c.chunk, ChunkCount(info, parts[part])) else c;
        if !t.Ordered() then Seek(info, c', 0)
        else
          match GetAdjListOffsetOfVertex(info, files, t, id)
          case Success(range) => Seek(info, c', range.0)
          case Failure(e) => (c', e)
  }

  /** The while loop of next_chunk. */
  ghost function SkipEmptyParts(info: EdgeSizes, parts: seq<seq<Edge>>, c: Cursor): (Cursor, Status)
    requires info.Validated()
    decreases |parts| - c.part
  {
    if c.chunk < c.chunkNum then (c, OK)
    else if c.part + 1 >= |parts| then (c.(part := c.part + 1), IndexError)
    else SkipEmptyParts(info, parts, Cursor(c.part + 1, 0, ChunkCount(info, parts[c.part + 1])))
  }

  ghost function Next(info: EdgeSizes, parts: seq<seq<Edge>>, c: Cursor): (Cursor, Status)
    requires info.Validated()
  {
    SkipEmptyParts(info, parts, c.(chunk := c.chunk + 1))
  }

  // ----- seek -----

  /** Inside the list, a bare seek answers OK exactly for rows of existing chunks; past the
      end it consults a stale chunk_num_, so an OK there never names a chunk. */
  lemma SeekIsExact(info: EdgeSizes, parts: seq<seq<Edge>>, c: Cursor, index: nat)
    requires info.Validated() && Synced(info, parts, c)
    ensures var (c', st) := Seek(info, c, index);
      && c'.part == c.part
      && (c.part < |parts| ==> Synced(info, parts, c'))
      && (c.part < |parts| ==> (st == OK <==> ChunkExists(info, parts, c'.part, index / info.chunkSize)))
      && (st == OK ==> (ChunkExists(info, parts, c'.part, c'.chunk) <==> c.part < |parts|))
      && c'.chunk * info.chunkSize <= index < c'.chunk * info.chunkSize + info.chunkSize
      && c'.chunkNum == c.chunkNum
  {
    DivBounds(index, info.chunkSize);
  }

  /** A run that shows the trap: one part of one edge, read to the end, then seek(0) says OK. */
  lemma SeekAfterEndIsStale()
    ensures var info, parts := EdgeSizes(1, 1, 1), [[Edge(0, 0)]];
      var (c, st) := Next(info, parts, Cursor(0, 0, 1));
      && Synced(info, parts, Cursor(0, 0, 1))
      && st == IndexError
      && Seek(info, c, 0).1 == OK
      && !ChunkExists(info, parts, Seek(info, c, 0).0.part, Seek(info, c, 0).0.chunk)
  {
    var info, parts := EdgeSizes(1, 1, 1), [[Edge(0, 0)]];
    assert ChunkCount(info, parts[0]) == 1;
  }

  // ----- seek_src and seek_dst -----

  /** Whatever the reader did before, an aligned vertex seek leaves it in step with the list. */
  lemma SeekVertexKeepsSynced(info: EdgeSizes, t: AdjListType, files: EdgeFiles, parts: seq<seq<Edge>>,
                              c: Cursor, id: nat, bySource: bool)
    requires Stores(info, t, files, parts) && Synced(info, parts, c)
    ensures var (c', st) := SeekVertex(info, t, files, parts, c, id, bySource);
      && Synced(info, parts, c')
      && (st == Invalid <==> t.BySource() != bySource)
      && (st == OK ==> ChunkExists(info, parts, c'.part, c'.chunk) && c'.part == id / info.VertexChunkSize(t))
      && (st == OK || st == Invalid || st == IndexError)
  {
    if t.BySource() == bySource && id / info.VertexChunkSize(t) < |parts| && t.Ordered() {
      OffsetSelectsVertex(info, t, files, parts, id);
    }
  }

  /** Where a seek for vertex id leaves the reader in the vertex's part p. */
  ghost predicate Sought(info: EdgeSizes, t: AdjListType, parts: seq<seq<Edge>>, p: nat, c: Cursor, st: Status, id: nat)
    requires info.Validated() && p < |parts|
  {
    && c.part == p && c.chunkNum == ChunkCount(info, parts[p])
    && (st == OK || st == IndexError) && (st == OK <==> ChunkExists(info, parts, p, c.chunk))
    && (if t.Ordered() then exists at: nat :: SplitsAt(t, parts[p], at, id) && c.chunk == at / info.chunkSize
        else c.chunk == 0 && (st == OK <==> parts[p] != []))
  }

  /**
   * Where a vertex seek leads, from any state: nowhere in the wrong direction or beyond the last
   * part; otherwise to the vertex's part, in an unordered list to its first chunk, in an ordered
   * one to the chunk of the first row whose key is not below id. It succeeds iff that chunk exists.
   */
  lemma SeekVertexLands(info: EdgeSizes, t: AdjListType, files: EdgeFiles, parts: seq<seq<Edge>>,
                        c: Cursor, id: nat, bySource: bool)
    requires Stores(info, t, files, parts) && Synced(info, parts, c)
    ensures var (c', st) := SeekVertex(info, t, files, parts, c, id, bySource);
      var p := id / info.VertexChunkSize(t);
      if t.BySource() != bySource then (c', st) == (c, Invalid)
      else if p >= |parts| then (c', st) == (c, IndexError)
      else Sought(info, t, parts, p, c', st, id)
  {
    hide StoresPart, OffsetsFor, SplitsAt, ChunkCount, GetAdjListOffsetOfVertex, Sought;
    if t.BySource() == bySource && id / info.VertexChunkSize(t) < |parts| {
      if t.Ordered() {
        OrderedSought(info, t, files, parts, c, id);
      } else {
        UnorderedSought(info, t, files, parts, c, id);
      }
    }
  }

  lemma UnorderedSought(info: EdgeSizes, t: AdjListType, files: EdgeFiles, parts: seq<seq<Edge>>, c: Cursor, id: nat)
    requires info.Validated() && Synced(info, parts, c) && !t.Ordered() && id / info.VertexChunkSize(t) < |parts|
    ensures var (c', st) := SeekVertex(info, t, files, parts, c, id, t.BySource());
      Sought(info, t, parts, id / info.VertexChunkSize(t), c', st, id)
  {
    hide ChunkCount;
    FirstChunkIff(info, parts[id / info.VertexChunkSize(t)]);
    DivUnique(0, info.chunkSize, 0);
  }

  lemma OrderedSought(info: EdgeSizes, t: AdjListType, files: EdgeFiles, parts: seq<seq<Edge>>, c: Cursor, id: nat)
    requires Stores(info, t, files, parts) && Synced(info, parts, c)
    requires t.Ordered() && id / info.VertexChunkSize(t) < |parts|
    ensures var (c', st) := SeekVertex(info, t, files, parts, c, id, t.BySource());
      Sought(info, t, parts, id / info.VertexChunkSize(t), c', st, id)
  {
    hide StoresPart, OffsetsFor, SplitsAt, ChunkCount, GetAdjListOffsetOfVertex;
    OffsetSplitsPart(info, t, files, parts, id);
  }

  lemma FirstChunkIff(info: EdgeSizes, part: seq<Edge>)
    requires info.Validated()
    ensures 0 < ChunkCount(info, part) <==> part != []
  {
    CeilDivExists(|part|, info.chunkSize, 0);
  }

  /** For an ordered list and a vertex with an edge, the seek lands on the chunk that holds
      the vertex's first edge. */
  lemma SeekVertexFindsFirstEdge(info: EdgeSizes, t: AdjListType, files: EdgeFiles, parts: seq<seq<Edge>>,
                                 c: Cursor, id: nat, k: nat)
    requires Stores(info, t, files, parts) && Synced(info, parts, c) && t.Ordered()
    requires var p := id / info.VertexChunkSize(t);
      p < |parts| && k < |parts[p]| && Key(t, parts[p][k]) == id && forall j :: 0 <= j < k ==> Key(t, parts[p][j]) != id
    ensures var (c', st) := SeekVertex(info, t, files, parts, c, id, t.BySource());
      var p := id / info.VertexChunkSize(t);
      && st == OK && c'.part == p && c'.chunk == k / info.chunkSize
      && ChunkExists(info, parts, p, c'.chunk)
      && (p, c'.chunk) in files.adjList
      && k % info.chunkSize < |files.adjList[(p, c'.chunk)]|
      && files.adjList[(p, c'.chunk)][k % info.chunkSize] == parts[p][k]
  {
    var p := id / info.VertexChunkSize(t);
    OffsetSelectsVertex(info, t, files, parts, id);
    var r := GetAdjListOffsetOfVertex(info, files, t, id).value;
    assert r.0 <= k < r.1;
    assert Key(t, parts[p][r.0]) == id;
    RowInChunk(|parts[p]|, info.chunkSize, k);
    DivBounds(k, info.chunkSize);
    assert StoresPart(info, files, parts[p], p);
  }

  /** For a vertex of an existing part the seek fails exactly when no row exists at or after
      its offset in a chunk that starts there: the part is empty, or the offset is the end of
      a part whose last chunk is full. */
  lemma SeekVertexFailsExactly(info: EdgeSizes, t: AdjListType, files: EdgeFiles, parts: seq<seq<Edge>>,
                               c: Cursor, id: nat)
    requires Stores(info, t, files, parts) && Synced(info, parts, c) && t.Ordered()
    requires id / info.VertexChunkSize(t) < |parts|
    ensures var part := parts[id / info.VertexChunkSize(t)];
      var offset := GetAdjListOffsetOfVertex(info, files, t, id).value.0;
      SeekVertex(info, t, files, parts, c, id, t.BySource()).1 == IndexError <==>
        offset == |part| && |part| % info.chunkSize == 0
  {
    OffsetSelectsVertex(info, t, files, parts, id);
    var offset := GetAdjListOffsetOfVertex(info, files, t, id).value.0;
    hide Stores, GetAdjListOffsetOfVertex, OffsetsFor;
    OffsetPastEnd(|parts[id / info.VertexChunkSize(t)]|, info.chunkSize, offset);
  }

  lemma OffsetPastEnd(n: nat, size: nat, offset: nat)
    requires size > 0 && offset <= n
    ensures offset / size >= CeilDiv(n, size) <==> offset == n && n % size == 0
  {
    DivBounds(offset, size);
    CeilDivExists(n, size, offset / size);
  }

  // ----- next_chunk -----

  lemma {:induction false} SkipFindsLeast(info: EdgeSizes, parts: seq<seq<Edge>>, c: Cursor)
    requires info.Validated() && Synced(info, parts, c)
    ensures var (c', st) := SkipEmptyParts(info, parts, c);
      && Synced(info, parts, c')
      && (st == OK || st == IndexError)
      && (st == IndexError <==> c'.part >= |parts|)
      && (st == OK ==> ChunkExists(info, parts, c'.part, c'.chunk) && !Before(c'.part, c'.chunk, c.part, c.chunk))
      && forall p: nat, k: nat :: ChunkExists(info, parts, p, k) && !Before(p, k, c.part, c.chunk) ==>
           st == OK && !Before(p, k, c'.part, c'.chunk)
    decreases |parts| - c.part
  {
    if c.chunk >= c.chunkNum && c.part + 1 < |parts| {
      SkipFindsLeast(info, parts, Cursor(c.part + 1, 0, ChunkCount(info, parts[c.part + 1])));
    }
  }

  /**
   * next_chunk moves to the least existing chunk after the current position, over any run
   * of empty parts, and fails exactly when there is none. It also keeps the reader in step.
   */
  lemma NextIsSuccessor(info: EdgeSizes, parts: seq<seq<Edge>>, c: Cursor)
    requires info.Validated() && Synced(info, parts, c)
    ensures var (c', st) := Next(info, parts, c);
      && Synced(info, parts, c')
      && (st == OK || st == IndexError)
      && (st == IndexError <==>
           forall p: nat, k: nat :: ChunkExists(info, parts, p, k) ==> !Before(c.part, c.chunk, p, k))
      && (st == OK ==>
           && ChunkExists(info, parts, c'.part, c'.chunk)
           && Before(c.part, c.chunk, c'.part, c'.chunk)
           && forall p: nat, k: nat :: ChunkExists(info, parts, p, k) && Before(c.part, c.chunk, p, k) ==>
                !Before(p, k, c'.part, c'.chunk))
  {
    SkipFindsLeast(info, parts, c.(chunk := c.chunk + 1));
    var (c', st) := Next(info, parts, c);
    if st == OK {
      assert Before(c.part, c.chunk, c'.part, c'.chunk);
    }
    assert forall p: nat, k: nat :: Before(c.part, c.chunk, p, k) <==> !Before(p, k, c.part, c.chunk + 1);
  }

  /** Once next_chunk has failed, every later next_chunk fails too. */
  lemma EndIsFinal(info: EdgeSizes, parts: seq<seq<Edge>>, c: Cursor)
    requires info.Validated() && Synced(info, parts, c) && c.part >= |parts|
    ensures var (c', st) := Next(info, parts, c);
      st == IndexError && Synced(info, parts, c') && c'.part >= |parts|
  {
  }

  // ----- enumeration -----

  /** The existing chunks at or after (p, k), part by part. */
  ghost function ChunksFrom(info: EdgeSizes, parts: seq<seq<Edge>>, p: nat, k: nat): seq<(nat, nat)>
    requires info.Validated()
    decreases |parts| - p, if p < |parts| then ChunkCount(info, parts[p]) - k else 0
  {
    if p >= |parts| then []
    else if k < ChunkCount(info, parts[p]) then [(p, k)] + ChunksFrom(info, parts, p, k + 1)
    else ChunksFrom(info, parts, p + 1, 0)
  }

  ghost predicate Increasing(list: seq<(nat, nat)>) {
    forall i, j :: 0 <= i < j < |list| ==> Before(list[i].0, list[i].1, list[j].0, list[j].1)
  }

  /** The list names each existing chunk once, in lexicographic order. */
  lemma {:induction false} ChunksFromExact(info: EdgeSizes, parts: seq<seq<Edge>>, p: nat, k: nat)
    requires info.Validated()
    ensures forall x :: x in ChunksFrom(info, parts, p, k) <==>
      ChunkExists(info, parts, x.0, x.1) && !Before(x.0, x.1, p, k)
    decreases |parts| - p, if p < |parts| then ChunkCount(info, parts[p]) - k else 0
  {
    hide ChunkCount;
    if p < |parts| {
      if k < ChunkCount(info, parts[p]) {
        ChunksFromExact(info, parts, p, k + 1);
      } else {
        ChunksFromExact(info, parts, p + 1, 0);
      }
    }
  }

  lemma {:induction false} ChunksFromIncrease(info: EdgeSizes, parts: seq<seq<Edge>>, p: nat, k: nat)
    requires info.Validated()
    ensures Increasing(ChunksFrom(info, parts, p, k))
    decreases |parts| - p, if p < |parts| then ChunkCount(info, parts[p]) - k else 0
  {
    hide ChunkCount;
    if p < |parts| {
      if k < ChunkCount(info, parts[p]) {
        ChunksFromIncrease(info, parts, p, k + 1);
        ChunksFromExact(info, parts, p, k + 1);
        var rest := ChunksFrom(info, parts, p, k + 1);
        var list := [(p, k)] + rest;
        forall i, j | 0 <= i < j < |list| ensures Before(list[i].0, list[i].1, list[j].0, list[j].1) {
          assert list[j] == rest[j - 1] && rest[j - 1] in rest;
          assert !Before(list[j].0, list[j].1, p, k + 1);
          if i > 0 {
            assert Before(rest[i - 1].0, rest[i - 1].1, rest[j - 1].0, rest[j - 1].1);
          }
        }
      } else {
        ChunksFromIncrease(info, parts, p + 1, 0);
      }
    }
  }

  lemma {:induction false} SkipKeepsRemaining(info: EdgeSizes, parts: seq<seq<Edge>>, c: Cursor)
    requires info.Validated() && Synced(info, parts, c)
    ensures var (c', st) := SkipEmptyParts(info, parts, c);
      ChunksFrom(info, parts, c.part, c.chunk) ==
        if st == OK then [(c'.part, c'.chunk)] + ChunksFrom(info, parts, c'.part, c'.chunk + 1) else []
    decreases |parts| - c.part
  {
    if c.chunk >= c.chunkNum && c.part + 1 < |parts| {
      SkipKeepsRemaining(info, parts, Cursor(c.part + 1, 0, ChunkCount(info, parts[c.part + 1])));
    }
  }

  /** next_chunk takes the head of what remains to be visited, and fails when nothing does. */
  lemma NextTakesHead(info: EdgeSizes, parts: seq<seq<Edge>>, c: Cursor)
    requires info.Validated() && Synced(info, parts, c)
    ensures var (c', st) := Next(info, parts, c);
      && Synced(info, parts, c')
      && (st == OK || st == IndexError)
      && (st == IndexError <==> c'.part >= |parts|)
      && ChunksFrom(info, parts, c.part, c.chunk + 1) ==
           if st == OK then [(c'.part, c'.chunk)] + ChunksFrom(info, parts, c'.part, c'.chunk + 1) else []
  {
    SkipFindsLeast(info, parts, c.(chunk := c.chunk + 1));
    SkipKeepsRemaining(info, parts, c.(chunk := c.chunk + 1));
  }

  // ----- reading everything -----

  /** The rows of the named chunk files, one after another. */
  ghost function ReadChunks(files: EdgeFiles, list: seq<(nat, nat)>): seq<Edge>
    requires forall x :: x in list ==> x in files.adjList
  {
    if list == [] then [] else files.adjList[list[0]] + ReadChunks(files, list[1..])
  }

  lemma ChunksAreFiles(info: EdgeSizes, t: AdjListType, files: EdgeFiles, parts: seq<seq<Edge>>, p: nat, k: nat)
    requires Stores(info, t, files, parts)
    ensures forall x :: x in ChunksFrom(info, parts, p, k) ==> x in files.adjList
  {
    ChunksFromExact(info, parts, p, k);
    forall x | x in ChunksFrom(info, parts, p, k) ensures x in files.adjList {
      assert StoresPart(info, files, parts[x.0], x.0);
    }
  }

  /** What is left to read at chunk k of part p: the rest of that part and all later parts. */
  ghost function RowsFrom(info: EdgeSizes, parts: seq<seq<Edge>>, p: nat, k: nat): seq<Edge>
    requires info.Validated()
  {
    if p < |parts| then parts[p][Min(k * info.chunkSize, |parts[p]|)..] + Flatten(parts[p + 1..]) else []
  }

  lemma NextRows(info: EdgeSizes, files: EdgeFiles, parts: seq<seq<Edge>>, p: nat, k: nat)
    requires info.Validated() && p < |parts| && StoresPart(info, files, parts[p], p)
    requires k < ChunkCount(info, parts[p])
    ensures (p, k) in files.adjList
    ensures RowsFrom(info, parts, p, k) == files.adjList[(p, k)] + RowsFrom(info, parts, p, k + 1)
  {
    var part, size := parts[p], info.chunkSize;
    CeilDivExists(|part|, size, k);
    assert (k + 1) * size == k * size + size;
    var hi := Min(k * size + size, |part|);
    assert part[k * size..] == part[k * size..hi] + part[hi..];
  }

  lemma PartEnd(info: EdgeSizes, parts: seq<seq<Edge>>, p: nat, k: nat)
    requires info.Validated() && p < |parts| && k >= ChunkCount(info, parts[p])
    ensures RowsFrom(info, parts, p, k) == RowsFrom(info, parts, p + 1, 0)
  {
    CeilDivExists(|parts[p]|, info.chunkSize, k);
    assert parts[p][|parts[p]|..] == [];
    if p + 1 < |parts| {
      assert parts[p + 1..][1..] == parts[p + 1 + 1..];
      assert parts[p + 1][0..] == parts[p + 1];
    }
  }

  lemma {:induction false} ReadChunksFrom(info: EdgeSizes, t: AdjListType, files: EdgeFiles, parts: seq<seq<Edge>>,
                                          p: nat, k: nat)
    requires Stores(info, t, files, parts)
    requires forall x :: x in ChunksFrom(info, parts, p, k) ==> x in files.adjList
    ensures ReadChunks(files, ChunksFrom(info, parts, p, k)) == RowsFrom(info, parts, p, k)
    decreases |parts| - p, if p < |parts| then ChunkCount(info, parts[p]) - k else 0
  {
    if p < |parts| {
      if k < ChunkCount(info, parts[p]) {
        ReadChunksFrom(info, t, files, parts, p, k + 1);
        assert ChunksFrom(info, parts, p, k)[1..] == ChunksFrom(info, parts, p, k + 1);
        NextRows(info, files, parts, p, k);
      } else {
        ReadChunksFrom(info, t, files, parts, p + 1, 0);
        PartEnd(info, parts, p, k);
      }
    }
  }

  /** The chunk files, read in enumeration order, are the parts one after another. */
  lemma ReadAllChunks(info: EdgeSizes, t: AdjListType, files: EdgeFiles, parts: seq<seq<Edge>>)
    requires Stores(info, t, files, parts)
    ensures forall x :: x in ChunksFrom(info, parts, 0, 0) ==> x in files.adjList
    ensures ReadChunks(files, ChunksFrom(info, parts, 0, 0)) == Flatten(parts)
  {
    ChunksAreFiles(info, t, files, parts, 0, 0);
    ReadChunksFrom(info, t, files, parts, 0, 0);
    if parts != [] {
      assert parts[0][0..] == parts[0];
    }
  }
}
