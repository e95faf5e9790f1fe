/**
 * Reading an adjacency list chunk by chunk with the arrow chunk reader, as the mid-level
 * reader example does (cpp/examples/mid_level_reader_example.cc).
 */
module ArrowReading {
  import opened Arith
  import opened ChunkCursor
  import opened EdgeIters
  import opened EdgeLayout
  import opened Graph
  import opened Results
  import StoredRows
  import opened Types

  /** Behind chunk k of part p the rest of the list begins with the chunk that next_chunk moves to. */
  lemma NextRowsFrom(info: EdgeSizes, t: AdjListType, files: EdgeFiles, parts: seq<seq<Edge>>, c: Cursor)
    requires Stores(info, t, files, parts) && Synced(info, parts, c)
    ensures var (c', st) := Next(info, parts, c);
      && Synced(info, parts, c')
      && (st == OK || st == IndexError)
      && (st == OK ==>
           && ChunkExists(info, parts, c'.part, c'.chunk)
           && |ChunksFrom(info, parts, c'.part, c'.chunk + 1)| < |ChunksFrom(info, parts, c.part, c.chunk + 1)|)
      && RowsFrom(info, parts, c.part, c.chunk + 1) ==
           if st == OK then RowsFrom(info, parts, c'.part, c'.chunk) else []
  {
    hide StoresPart, OffsetsFor, RowsFrom, ChunkCount;
    var (c', st) := Next(info, parts, c);
    var list := ChunksFrom(info, parts, c.part, c.chunk + 1);
    NextTakesHead(info, parts, c);
    NextIsSuccessor(info, parts, c);
    ChunksAreFiles(info, t, files, parts, c.part, c.chunk + 1);
    ReadChunksFrom(info, t, files, parts, c.part, c.chunk + 1);
    if st == OK {
      ChunksAreFiles(info, t, files, parts, c'.part, c'.chunk);
      ReadChunksFrom(info, t, files, parts, c'.part, c'.chunk);
      assert ChunksFrom(info, parts, c'.part, c'.chunk) == list;
    }
  }

  /** What the reader has still to deliver: from the sought row of its chunk to the end of the list. */
  ghost function Remaining(parts: seq<seq<Edge>>, p: nat, from: nat): seq<Edge>
    requires p < |parts|
  {
    parts[p][Min(from, |parts[p]|)..] + Flatten(parts[p + 1..])
  }

  /** The rows a chunk gives from the sought row on, and what is left behind them. */
  lemma ChunkThenRest(info: EdgeSizes, parts: seq<seq<Edge>>, p: nat, offset: nat)
    requires info.Validated() && ChunkExists(info, parts, p, offset / info.chunkSize)
    ensures var q := offset / info.chunkSize;
      && ChunkFrom(info, parts[p], q, offset).Success?
      && Remaining(parts, p, offset) ==
           ChunkFrom(info, parts[p], q, offset).value + RowsFrom(info, parts, p, q + 1)
  {
    hide Flatten;
    var part, q, size := parts[p], offset / info.chunkSize, info.chunkSize;
    CeilDivExists(|part|, size, q);
    DivBounds(offset, size);
    assert (q + 1) * size == q * size + size;
    var lo, hi := Min(offset, |part|), Min(q * size + size, |part|);
    assert part[lo..] == part[lo..hi] + part[hi..];
  }

  lemma RemainingAtChunk(info: EdgeSizes, parts: seq<seq<Edge>>, p: nat, q: nat)
    requires info.Validated() && p < |parts|
    ensures Remaining(parts, p, q * info.chunkSize) == RowsFrom(info, parts, p, q)
  {
  }

  lemma ChunkStartIsAligned(info: EdgeSizes, q: nat)
    requires info.Validated()
    ensures q * info.chunkSize / info.chunkSize == q
  {
    DivUnique(q * info.chunkSize, info.chunkSize, q);
  }

  /**
   * GetChunk, then next_chunk and GetChunk in turn until next_chunk fails: every row from the
   * sought one on, in storage order, over any run of empty parts.
   */
  method ReadOn(reader: AdjListArrowChunkReader) returns (rows: seq<Edge>)
    requires reader.Valid() && reader.chunkIndex == reader.seekOffset / reader.info.chunkSize && reader.chunkNum >= 0
    requires ChunkExists(reader.info, reader.parts, reader.vertexChunkIndex, reader.chunkIndex)
    modifies reader
    ensures reader.Valid() && old(reader.vertexChunkIndex) < |reader.parts|
    ensures rows == Remaining(reader.parts, old(reader.vertexChunkIndex), old(reader.seekOffset))
  {
    hide RowsFrom, Remaining, ChunkFrom, Next, StoresPart, OffsetsFor, ChunkCount, ChunksFrom;
    ghost var info, t, files, parts := reader.info, reader.adjListType, reader.files, reader.parts;
    ChunkThenRest(info, parts, reader.vertexChunkIndex, reader.seekOffset);
    ghost var all := Remaining(parts, reader.vertexChunkIndex, reader.seekOffset);
    var chunk := reader.GetChunk();
    rows := chunk.value;
    var more := true;
    ghost var c := Cursor(reader.vertexChunkIndex, reader.chunkIndex, reader.chunkNum);
    while more
      invariant reader.Valid() && reader.chunkNum >= 0
      invariant c == Cursor(reader.vertexChunkIndex, reader.chunkIndex, reader.chunkNum)
      invariant more ==> ChunkExists(info, parts, c.part, c.chunk) && Synced(info, parts, c)
      invariant all == rows + if more then RowsFrom(info, parts, c.part, c.chunk + 1) else []
      decreases more, if more then |ChunksFrom(info, parts, c.part, c.chunk + 1)| else 0
    {
      NextRowsFrom(info, t, files, parts, c);
      var st := reader.NextChunk();
      c := Cursor(reader.vertexChunkIndex, reader.chunkIndex, reader.chunkNum);
      if st == OK {
        ChunkStartIsAligned(info, c.chunk);
        ChunkThenRest(info, parts, c.part, reader.seekOffset);
        RemainingAtChunk(info, parts, c.part, c.chunk);
        chunk := reader.GetChunk();
        assert all == (rows + chunk.value) + RowsFrom(info, parts, c.part, c.chunk + 1);
        rows := rows + chunk.value;
      } else {
        more := false;
      }
    }
  }

  /** From a fresh reader, moved to the first stored chunk when part 0 has none, to the end: the whole list. */
  method ReadAll(info: EdgeSizes, t: AdjListType, files: EdgeFiles, ghost parts: seq<seq<Edge>>)
    returns (rows: seq<Edge>)
    requires Stores(info, t, files, parts) && parts != []
    ensures rows == Flatten(parts)
  {
    hide StoresPart, OffsetsFor, Flatten, Next, ChunkCount, RowsFrom, Remaining;
    var reader := new AdjListArrowChunkReader(info, t, files, parts);
    var st := reader.Seek(0);
    FirstChunkExists(info, parts[0]);
    WholeList(info, parts);
    if st != OK {
      NextRowsFrom(info, t, files, parts, Cursor(0, 0, 0));
      st := reader.NextChunk();
      if st != OK {
        return [];
      }
      ChunkStartIsAligned(info, reader.chunkIndex);
      RemainingAtChunk(info, parts, reader.vertexChunkIndex, reader.chunkIndex);
    }
    rows := ReadOn(reader);
  }

  lemma WholeList(info: EdgeSizes, parts: seq<seq<Edge>>)
    requires info.Validated() && parts != []
    ensures Remaining(parts, 0, 0) == Flatten(parts) == RowsFrom(info, parts, 0, 0)
    ensures ChunkCount(info, parts[0]) == 0 ==> RowsFrom(info, parts, 0, 1) == Flatten(parts)
  {
    assert parts[0][0..] == parts[0];
    CeilDivExists(|parts[0]|, info.chunkSize, 0);
    assert ChunkCount(info, parts[0]) == 0 ==> parts[0] == [];
  }

  /** What a vertex can have before and behind the sought row: nothing before it, all of it from there on. */
  lemma RemainingHoldsVertex(info: EdgeSizes, t: AdjListType, parts: seq<seq<Edge>>, id: nat, from: nat, x: Edge)
    requires info.Validated() && StoredRows.AllInPart(info, t, parts) && Key(t, x) == id
    requires id / info.VertexChunkSize(t) < |parts| && from <= |parts[id / info.VertexChunkSize(t)]|
    requires forall k :: 0 <= k < from ==> Key(t, parts[id / info.VertexChunkSize(t)][k]) != id
    ensures multiset(Remaining(parts, id / info.VertexChunkSize(t), from))[x] == multiset(Flatten(parts))[x]
  {
    hide Flatten, Key, StoredRows.AllInPart;
    var p := id / info.VertexChunkSize(t);
    StoredRows.OtherPartsLackKey(info, t, parts, p, x);
    StoredRows.FlattenAround(parts, p);
    var before, after := parts[p][..from], parts[p][from..];
    assert parts[p] == before + after;
    assert x !in before;
    assert Remaining(parts, p, from) == after + Flatten(parts[p + 1..]);
  }

  lemma NoEdgeOfVertex(info: EdgeSizes, t: AdjListType, parts: seq<seq<Edge>>, id: nat)
    requires info.Validated() && StoredRows.AllInPart(info, t, parts)
    requires var p := id / info.VertexChunkSize(t); p < |parts| ==> forall x :: x in parts[p] ==> Key(t, x) != id
    ensures forall x :: x in Flatten(parts) ==> Key(t, x) != id
  {
    hide Flatten;
    forall x | x in Flatten(parts) ensures Key(t, x) != id {
      StoredRows.PartOfEdge(info, t, parts, x);
    }
  }

  /**
   * seek_src (seek_dst for a list by destination), then reading on: every edge of the vertex, as
   * often as it is stored; in an ordered list they come first. A failed seek means the vertex has no edge.
   */
  method ReadFromVertex(reader: AdjListArrowChunkReader, id: nat) returns (st: Status, rows: seq<Edge>)
    requires reader.Valid() && StoredRows.AllInPart(reader.info, reader.adjListType, reader.parts)
    modifies reader
    ensures reader.Valid() && (st == OK || st == IndexError)
    ensures st != OK ==> forall x :: x in Flatten(reader.parts) ==> Key(reader.adjListType, x) != id
    ensures st == OK ==> forall x :: Key(reader.adjListType, x) == id ==>
      multiset(rows)[x] == multiset(Flatten(reader.parts))[x]
    ensures st == OK && reader.adjListType.Ordered() &&
            (exists x :: x in Flatten(reader.parts) && Key(reader.adjListType, x) == id) ==>
      rows != [] && Key(reader.adjListType, rows[0]) == id
  {
    hide StoresPart, OffsetsFor, Flatten, ChunkCount, Remaining, StoredRows.AllInPart;
    ghost var info, t, parts := reader.info, reader.adjListType, reader.parts;
    rows := [];
    if reader.adjListType.BySource() {
      st := reader.SeekSrc(id);
    } else {
      st := reader.SeekDst(id);
    }
    ghost var p, from := id / info.VertexChunkSize(t), reader.seekOffset;
    if st != OK {
      if p < |parts| {
        NoRowSought(info, t, parts[p], from, id);
      }
      NoEdgeOfVertex(info, t, parts, id);
      return;
    }
    RowSought(info, t, parts[p], from, id);
    rows := ReadOn(reader);
    forall x | Key(t, x) == id ensures multiset(rows)[x] == multiset(Flatten(parts))[x] {
      RemainingHoldsVertex(info, t, parts, id, from, x);
    }
    if t.Ordered() && exists x :: x in Flatten(parts) && Key(t, x) == id {
      var x :| x in Flatten(parts) && Key(t, x) == id;
      StoredRows.PartOfEdge(info, t, parts, x);
      FirstSought(info, t, reader.files, parts, from, id, x);
    }
  }

  /**
   * The same for the info readers, whatever their state: reading the chunk files from the place
   * of a successful vertex seek on gives every edge of the vertex, ordered list or not; after a
   * failed one there is none.
   */
  lemma SeekReadsVertex(info: EdgeSizes, t: AdjListType, files: EdgeFiles, parts: seq<seq<Edge>>,
                        c: Cursor, id: nat, x: Edge)
    requires Stores(info, t, files, parts) && Synced(info, parts, c) && StoredRows.AllInPart(info, t, parts)
    requires Key(t, x) == id
    ensures var (c', st) := SeekVertex(info, t, files, parts, c, id, t.BySource());
      && (st != OK ==> x !in Flatten(parts))
      && (st == OK ==>
           && (forall y :: y in ChunksFrom(info, parts, c'.part, c'.chunk) ==> y in files.adjList)
           && multiset(ReadChunks(files, ChunksFrom(info, parts, c'.part, c'.chunk)))[x] == multiset(Flatten(parts))[x])
  {
    hide StoresPart, OffsetsFor, Flatten, ChunkCount, Remaining, RowsFrom, SeekVertex, SplitsAt, StoredRows.AllInPart;
    var (c', st) := SeekVertex(info, t, files, parts, c, id, t.BySource());
    var p := id / info.VertexChunkSize(t);
    SeekVertexLands(info, t, files, parts, c, id, t.BySource());
    if p < |parts| {
      var at := SoughtRow(info, t, parts[p], c'.chunk, id);
      if st != OK {
        NoRowSought(info, t, parts[p], at, id);
      } else {
        ChunkOfRowSought(info, t, parts[p], at, id);
        RemainingHoldsVertex(info, t, parts, id, c'.chunk * info.chunkSize, x);
        RemainingAtChunk(info, parts, p, c'.chunk);
        ChunksAreFiles(info, t, files, parts, p, c'.chunk);
        ReadChunksFrom(info, t, files, parts, p, c'.chunk);
      }
    }
    if st != OK {
      NoEdgeOfVertex(info, t, parts, id);
    }
  }

  lemma SoughtRow(info: EdgeSizes, t: AdjListType, part: seq<Edge>, q: nat, id: nat) returns (at: nat)
    requires info.Validated()
    requires if t.Ordered() then exists k: nat :: SplitsAt(t, part, k, id) && q == k / info.chunkSize else q == 0
    ensures q == at / info.chunkSize && if t.Ordered() then SplitsAt(t, part, at, id) else at == 0
  {
    DivUnique(0, info.chunkSize, 0);
    at := 0;
    if t.Ordered() {
      at :| SplitsAt(t, part, at, id) && q == at / info.chunkSize;
    }
  }

  lemma ChunkOfRowSought(info: EdgeSizes, t: AdjListType, part: seq<Edge>, at: nat, id: nat)
    requires info.Validated() && if t.Ordered() then SplitsAt(t, part, at, id) else at == 0
    ensures var from := at / info.chunkSize * info.chunkSize;
      from <= |part| && forall k :: 0 <= k < from ==> Key(t, part[k]) != id
  {
    DivBounds(at, info.chunkSize);
  }

  /** A chunk index beyond the part means that no row is at or after the sought one. */
  lemma NoRowSought(info: EdgeSizes, t: AdjListType, part: seq<Edge>, from: nat, id: nat)
    requires info.Validated() && from / info.chunkSize >= ChunkCount(info, part)
    requires if t.Ordered() then SplitsAt(t, part, from, id) else from == 0
    ensures forall x :: x in part ==> Key(t, x) != id
  {
    CeilDivExists(|part|, info.chunkSize, from / info.chunkSize);
    DivBounds(from, info.chunkSize);
    assert from >= |part|;
  }

  lemma RowSought(info: EdgeSizes, t: AdjListType, part: seq<Edge>, from: nat, id: nat)
    requires info.Validated() && if t.Ordered() then SplitsAt(t, part, from, id) else from == 0
    ensures from <= |part| && forall k :: 0 <= k < from ==> Key(t, part[k]) != id
  {
  }

  lemma FirstSought(info: EdgeSizes, t: AdjListType, files: EdgeFiles, parts: seq<seq<Edge>>,
                    from: nat, id: nat, x: Edge)
    requires Stores(info, t, files, parts) && t.Ordered() && id / info.VertexChunkSize(t) < |parts|
    requires var part := parts[id / info.VertexChunkSize(t)];
             SplitsAt(t, part, from, id) && x in part && Key(t, x) == id
    ensures var rest := Remaining(parts, id / info.VertexChunkSize(t), from); rest != [] && Key(t, rest[0]) == id
  {
    hide Flatten, StoresPart, OffsetsFor, GetAdjListOffsetOfVertex;
    var part := parts[id / info.VertexChunkSize(t)];
    OffsetSelectsVertex(info, t, files, parts, id);
    OffsetSplitsPart(info, t, files, parts, id);
    var b := GetAdjListOffsetOfVertex(info, files, t, id).value.0;
    SplitUnique(t, part, from, b, id);
    var k :| 0 <= k < |part| && part[k] == x;
    assert Key(t, part[b]) == id;
  }

  lemma SplitUnique(t: AdjListType, part: seq<Edge>, a: nat, b: nat, id: nat)
    requires SplitsAt(t, part, a, id) && SplitsAt(t, part, b, id)
    ensures a == b
  {
    var k := if a < b then a else b;
    assert k < |part| ==> (k < a <==> Key(t, part[k]) < id) && (k < b <==> Key(t, part[k]) < id);
  }
}
