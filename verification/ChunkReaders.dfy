/**
 * The chunk info readers of an adjacency list and of an edge property group
 * (cpp/src/graphar/chunk_info_reader.cc), run against the layout.
 */
module ChunkReaders {
  import opened Arith
  import opened ChunkCursor
  import opened EdgeLayout
  import opened EdgesBuilders
  import opened Graph
  import opened Results
  import opened Types

  /** The topology chunk reader (lines 113-230). */
  class AdjListChunkInfoReader {
    const info: EdgeSizes
    const adjListType: AdjListType
    const files: EdgeFiles
    const vertexChunkNum: nat
    var vertexChunkIndex: nat
    var chunkIndex: nat
    var chunkNum: nat
    ghost const parts: seq<seq<Edge>>

    /** The files hold a layout, and the constructor's vertex chunk count is its part count. */
    ghost predicate Valid() {
      Stores(info, adjListType, files, parts) && vertexChunkNum == |parts|
    }

    ghost function State(): Cursor
      reads this
    {
      Cursor(vertexChunkIndex, chunkIndex, chunkNum)
    }

    /** Construction reads the edge count of part 0, so that part must exist. */
    constructor (info: EdgeSizes, adjListType: AdjListType, files: EdgeFiles, ghost parts: seq<seq<Edge>>)
      requires Stores(info, adjListType, files, parts) && parts != []
      ensures Valid() && this.info == info && this.adjListType == adjListType
      ensures this.files == files && this.parts == parts
      ensures State() == Cursor(0, 0, ChunkCount(info, parts[0])) && Synced(info, parts, State())
    {
      this.info, this.adjListType, this.files, this.parts := info, adjListType, files, parts;
      vertexChunkIndex, chunkIndex := 0, 0;
      assert StoresPart(info, files, parts[0], 0);
      vertexChunkNum := GetVertexChunkNum(info, files, adjListType);
      chunkNum := GetEdgeChunkNum(info, files, 0).value;
    }

    method Seek(index: nat) returns (st: Status)
      requires Valid()
      modifies this`chunkIndex
      ensures (State(), st) == ChunkCursor.Seek(info, old(State()), index)
    {
      chunkIndex := index / info.chunkSize;
      if chunkIndex >= chunkNum {
        return IndexError;
      }
      return OK;
    }

    method SeekSrc(id: nat) returns (st: Status)
      requires Valid()
      modifies this
      ensures (State(), st) == SeekVertex(info, adjListType, files, parts, old(State()), id, true)
    {
      if adjListType != UnorderedBySource && adjListType != OrderedBySource {
        return Invalid;
      }
      var newVertexChunkIndex := id / info.srcChunkSize;
      if newVertexChunkIndex >= vertexChunkNum {
        return IndexError;
      }
      if vertexChunkIndex != newVertexChunkIndex {
        vertexChunkIndex := newVertexChunkIndex;
        assert StoresPart(info, files, parts[vertexChunkIndex], vertexChunkIndex);
        chunkNum := GetEdgeChunkNum(info, files, vertexChunkIndex).value;
      }
      if adjListType == UnorderedBySource {
        st := Seek(0);
      } else {
        var range := GetAdjListOffsetOfVertex(info, files, adjListType, id);
        OffsetSelectsVertex(info, adjListType, files, parts, id);
        st := Seek(range.value.0);
      }
    }

    method SeekDst(id: nat) returns (st: Status)
      requires Valid()
      modifies this
      ensures (State(), st) == SeekVertex(info, adjListType, files, parts, old(State()), id, false)
    {
      if adjListType != UnorderedByDest && adjListType != OrderedByDest {
        return Invalid;
      }
      var newVertexChunkIndex := id / info.dstChunkSize;
      if newVertexChunkIndex >= vertexChunkNum {
        return IndexError;
      }
      if vertexChunkIndex != newVertexChunkIndex {
        vertexChunkIndex := newVertexChunkIndex;
        assert StoresPart(info, files, parts[vertexChunkIndex], vertexChunkIndex);
        chunkNum := GetEdgeChunkNum(info, files, vertexChunkIndex).value;
      }
      if adjListType == UnorderedByDest {
        st := Seek(0);
      } else {
        var range := GetAdjListOffsetOfVertex(info, files, adjListType, id);
        OffsetSelectsVertex(info, adjListType, files, parts, id);
        st := Seek(range.value.0);
      }
    }

    method NextChunk() returns (st: Status)
      requires Valid()
      modifies this
      ensures (State(), st) == Next(info, parts, old(State()))
    {
      chunkIndex := chunkIndex + 1;
      while chunkIndex >= chunkNum
        invariant SkipEmptyParts(info, parts, State()) == Next(info, parts, old(State()))
        decreases vertexChunkNum - vertexChunkIndex
      {
        vertexChunkIndex := vertexChunkIndex + 1;
        if vertexChunkIndex >= vertexChunkNum {
          return IndexError;
        }
        chunkIndex := 0;
        assert StoresPart(info, files, parts[vertexChunkIndex], vertexChunkIndex);
        chunkNum := GetEdgeChunkNum(info, files, vertexChunkIndex).value;
      }
      return OK;
    }

    /** The current chunk, named by its part and chunk index. */
    method GetChunk() returns (chunk: (nat, nat))
      ensures chunk == (State().part, State().chunk)
    {
      return (vertexChunkIndex, chunkIndex);
    }
  }

  /** The property chunk reader (lines 338-462): a second copy of the same state machine. */
  class AdjListPropertyChunkInfoReader {
    const info: EdgeSizes
    const adjListType: AdjListType
    const files: EdgeFiles
    const vertexChunkNum: nat
    var vertexChunkIndex: nat
    var chunkIndex: nat
    var chunkNum: nat
    ghost const parts: seq<seq<Edge>>

    ghost predicate Valid() {
      Stores(info, adjListType, files, parts) && vertexChunkNum == |parts|
    }

    ghost function State(): Cursor
      reads this
    {
      Cursor(vertexChunkIndex, chunkIndex, chunkNum)
    }

    constructor (info: EdgeSizes, adjListType: AdjListType, files: EdgeFiles, ghost parts: seq<seq<Edge>>)
      requires Stores(info, adjListType, files, parts) && parts != []
      ensures Valid() && this.info == info && this.adjListType == adjListType
      ensures this.files == files && this.parts == parts
      ensures State() == Cursor(0, 0, ChunkCount(info, parts[0])) && Synced(info, parts, State())
    {
      this.info, this.adjListType, this.files, this.parts := info, adjListType, files, parts;
      vertexChunkIndex, chunkIndex := 0, 0;
      assert StoresPart(info, files, parts[0], 0);
      vertexChunkNum := GetVertexChunkNum(info, files, adjListType);
      chunkNum := GetEdgeChunkNum(info, files, 0).value;
    }

    method Seek(offset: nat) returns (st: Status)
      requires Valid()
      modifies this`chunkIndex
      ensures (State(), st) == ChunkCursor.Seek(info, old(State()), offset)
    {
      chunkIndex := offset / info.chunkSize;
      if chunkIndex >= chunkNum {
        return IndexError;
      }
      return OK;
    }

    method SeekSrc(id: nat) returns (st: Status)
      requires Valid()
      modifies this
      ensures (State(), st) == SeekVertex(info, adjListType, files, parts, old(State()), id, true)
    {
      if adjListType != UnorderedBySource && adjListType != OrderedBySource {
        return Invalid;
      }
      var newVertexChunkIndex := id / info.srcChunkSize;
      if newVertexChunkIndex >= vertexChunkNum {
        return IndexError;
      }
      if vertexChunkIndex != newVertexChunkIndex {
        vertexChunkIndex := newVertexChunkIndex;
        assert StoresPart(info, files, parts[vertexChunkIndex], vertexChunkIndex);
        chunkNum := GetEdgeChunkNum(info, files, vertexChunkIndex).value;
      }
      if adjListType == UnorderedBySource {
        st := Seek(0);
      } else {
        var range := GetAdjListOffsetOfVertex(info, files, adjListType, id);
        OffsetSelectsVertex(info, adjListType, files, parts, id);
        st := Seek(range.value.0);
      }
    }

    method SeekDst(id: nat) returns (st: Status)
      requires Valid()
      modifies this
      ensures (State(), st) == SeekVertex(info, adjListType, files, parts, old(State()), id, false)
    {
      if adjListType != UnorderedByDest && adjListType != OrderedByDest {
        return Invalid;
      }
      var newVertexChunkIndex := id / info.dstChunkSize;
      if newVertexChunkIndex >= vertexChunkNum {
        return IndexError;
      }
      if vertexChunkIndex != newVertexChunkIndex {
        vertexChunkIndex := newVertexChunkIndex;
        assert StoresPart(info, files, parts[vertexChunkIndex], vertexChunkIndex);
        chunkNum := GetEdgeChunkNum(info, files, vertexChunkIndex).value;
      }
      if adjListType == UnorderedByDest {
        st := Seek(0);
      } else {
        var range := GetAdjListOffsetOfVertex(info, files, adjListType, id);
        OffsetSelectsVertex(info, adjListType, files, parts, id);
        st := Seek(range.value.0);
      }
    }

    method NextChunk() returns (st: Status)
      requires Valid()
      modifies this
      ensures (State(), st) == Next(info, parts, old(State()))
    {
      chunkIndex := chunkIndex + 1;
      while chunkIndex >= chunkNum
        invariant SkipEmptyParts(info, parts, State()) == Next(info, parts, old(State()))
        decreases vertexChunkNum - vertexChunkIndex
      {
        vertexChunkIndex := vertexChunkIndex + 1;
        if vertexChunkIndex >= vertexChunkNum {
          return IndexError;
        }
        chunkIndex := 0;
        assert StoresPart(info, files, parts[vertexChunkIndex], vertexChunkIndex);
        chunkNum := GetEdgeChunkNum(info, files, vertexChunkIndex).value;
      }
      return OK;
    }
  }

  // ----- runs -----

  datatype Op = SeekSrcOp(id: nat) | SeekDstOp(id: nat) | SeekOp(index: nat) | NextOp

  ghost function Apply(info: EdgeSizes, t: AdjListType, files: EdgeFiles, parts: seq<seq<Edge>>, c: Cursor,
                       op: Op): (Cursor, Status)
    requires Stores(info, t, files, parts)
  {
    match op
    case SeekSrcOp(id) => SeekVertex(info, t, files, parts, c, id, true)
    case SeekDstOp(id) => SeekVertex(info, t, files, parts, c, id, false)
    case SeekOp(index) => ChunkCursor.Seek(info, c, index)
    case NextOp => Next(info, parts, c)
  }

  /** The reader states after each operation of a run, with the status it returned. */
  ghost function Run(info: EdgeSizes, t: AdjListType, files: EdgeFiles, parts: seq<seq<Edge>>, c: Cursor,
                     ops: seq<Op>): seq<(Cursor, Status)>
    requires Stores(info, t, files, parts)
    decreases |ops|
  {
    if ops == [] then []
    else
      var r := Apply(info, t, files, parts, c, ops[0]);
      [r] + Run(info, t, files, parts, r.0, ops[1..])
  }

  /** The cached chunk_num_ is that of the current part, or of the last one past the end. */
  ghost predicate Tracks(info: EdgeSizes, parts: seq<seq<Edge>>, c: Cursor)
    requires info.Validated()
  {
    parts != [] && c.chunkNum == ChunkCount(info, parts[if c.part < |parts| then c.part else |parts| - 1])
  }

  lemma {:induction false} SkipTracks(info: EdgeSizes, parts: seq<seq<Edge>>, c: Cursor)
    requires info.Validated() && Tracks(info, parts, c)
    ensures var (c', st) := SkipEmptyParts(info, parts, c);
      && Tracks(info, parts, c')
      && (st == OK ==> c'.chunk < c'.chunkNum)
    decreases |parts| - c.part
  {
    if c.chunk >= c.chunkNum && c.part + 1 < |parts| {
      SkipTracks(info, parts, Cursor(c.part + 1, 0, ChunkCount(info, parts[c.part + 1])));
    }
  }

  lemma SeekVertexTracks(info: EdgeSizes, t: AdjListType, files: EdgeFiles, parts: seq<seq<Edge>>,
                         c: Cursor, id: nat, bySource: bool)
    requires Stores(info, t, files, parts) && Tracks(info, parts, c)
    ensures var (c', st) := SeekVertex(info, t, files, parts, c, id, bySource);
      && Tracks(info, parts, c')
      && (st == OK ==> c'.chunk < c'.chunkNum)
  {
    if t.BySource() == bySource && id / info.VertexChunkSize(t) < |parts| && t.Ordered() {
      OffsetSelectsVertex(info, t, files, parts, id);
    }
  }

  /**
   * In every run, whatever its operations, an OK names an existing chunk exactly when the
   * reader is not past the end.
   */
  lemma {:induction false} RunTracks(info: EdgeSizes, t: AdjListType, files: EdgeFiles, parts: seq<seq<Edge>>,
                                     c: Cursor, ops: seq<Op>)
    requires Stores(info, t, files, parts) && Tracks(info, parts, c)
    ensures forall r :: r in Run(info, t, files, parts, c, ops) ==>
      && Tracks(info, parts, r.0)
      && (r.1 == OK ==> (ChunkExists(info, parts, r.0.part, r.0.chunk) <==> r.0.part < |parts|))
    decreases |ops|
  {
    if ops != [] {
      var r := Apply(info, t, files, parts, c, ops[0]);
      match ops[0] {
        case SeekSrcOp(id) => SeekVertexTracks(info, t, files, parts, c, id, true);
        case SeekDstOp(id) => SeekVertexTracks(info, t, files, parts, c, id, false);
        case SeekOp(index) =>
        case NextOp => SkipTracks(info, parts, c.(chunk := c.chunk + 1));
      }
      RunTracks(info, t, files, parts, r.0, ops[1..]);
    }
  }

  /** No bare seek is made while the reader is past the end. */
  ghost predicate Legal(info: EdgeSizes, t: AdjListType, files: EdgeFiles, parts: seq<seq<Edge>>, c: Cursor,
                        ops: seq<Op>)
    requires Stores(info, t, files, parts)
    decreases |ops|
  {
    ops != [] ==>
      && (ops[0].SeekOp? ==> c.part < |parts|)
      && Legal(info, t, files, parts, Apply(info, t, files, parts, c, ops[0]).0, ops[1..])
  }

  /** In every legal run the cached chunk_num_ stays right and every OK names an existing chunk. */
  lemma {:induction false} RunStaysSynced(info: EdgeSizes, t: AdjListType, files: EdgeFiles, parts: seq<seq<Edge>>,
                                          c: Cursor, ops: seq<Op>)
    requires Stores(info, t, files, parts) && Synced(info, parts, c) && Legal(info, t, files, parts, c, ops)
    ensures forall r :: r in Run(info, t, files, parts, c, ops) ==>
      && Synced(info, parts, r.0)
      && (r.1 == OK ==> ChunkExists(info, parts, r.0.part, r.0.chunk))
    decreases |ops|
  {
    if ops != [] {
      var r := Apply(info, t, files, parts, c, ops[0]);
      match ops[0] {
        case SeekSrcOp(id) => SeekVertexKeepsSynced(info, t, files, parts, c, id, true);
        case SeekDstOp(id) => SeekVertexKeepsSynced(info, t, files, parts, c, id, false);
        case SeekOp(index) => SeekIsExact(info, parts, c, index);
        case NextOp => NextIsSuccessor(info, parts, c);
      }
      RunStaysSynced(info, t, files, parts, r.0, ops[1..]);
    }
  }

  /** Both readers, driven by the same operations, stay at the same chunk and answer alike. */
  method RunInLockstep(topology: AdjListChunkInfoReader, property: AdjListPropertyChunkInfoReader, ops: seq<Op>)
    returns (statuses: seq<Status>, statuses': seq<Status>)
    requires topology.Valid() && property.Valid()
    requires topology.info == property.info && topology.adjListType == property.adjListType
    requires topology.files == property.files && topology.parts == property.parts
    requires topology.State() == property.State()
    modifies topology, property
    ensures topology.State() == property.State() && statuses == statuses'
    ensures |statuses| == |ops|
    ensures
      var run := Run(topology.info, topology.adjListType, topology.files, topology.parts, old(topology.State()), ops);
      |run| == |ops| && forall i :: 0 <= i < |ops| ==> statuses[i] == run[i].1
  {
    hide Stores, SeekVertex, ChunkCursor.Seek, Next, Synced;
    if ops == [] {
      return [], [];
    }
    var st, st';
    match ops[0] {
      case SeekSrcOp(id) => st := topology.SeekSrc(id); st' := property.SeekSrc(id);
      case SeekDstOp(id) => st := topology.SeekDst(id); st' := property.SeekDst(id);
      case SeekOp(index) => st := topology.Seek(index); st' := property.Seek(index);
      case NextOp => st := topology.NextChunk(); st' := property.NextChunk();
    }
    var rest, rest' := RunInLockstep(topology, property, ops[1..]);
    statuses, statuses' := [st] + rest, [st'] + rest';
  }

  lemma FirstChunk(info: EdgeSizes, parts: seq<seq<Edge>>)
    requires info.Validated() && parts != []
    ensures Synced(info, parts, Cursor(0, 0, ChunkCount(info, parts[0])))
    ensures ChunksFrom(info, parts, 0, 0) ==
            (if ChunkCount(info, parts[0]) > 0 then [(0, 0)] else []) + ChunksFrom(info, parts, 0, 1)
  {
    hide ChunkCount;
  }

  /** From a fresh reader, repeated next_chunk visits every chunk once, in lexicographic order. */
  method ListChunks(reader: AdjListChunkInfoReader) returns (list: seq<(nat, nat)>)
    requires reader.Valid() && reader.parts != []
    requires reader.State() == Cursor(0, 0, ChunkCount(reader.info, reader.parts[0]))
    modifies reader
    ensures list == ChunksFrom(reader.info, reader.parts, 0, 0)
    ensures reader.State().part >= |reader.parts| && Synced(reader.info, reader.parts, reader.State())
  {
    hide StoresPart, OffsetsFor, ChunkCount, Next, ChunksFrom, Synced;
    ghost var info, parts := reader.info, reader.parts;
    FirstChunk(info, parts);
    list := [];
    if reader.chunkNum > 0 {
      list := [(0, 0)];
    }
    ghost var rest := ChunksFrom(info, parts, 0, 1);
    while true
      invariant Synced(info, parts, reader.State())
      invariant rest == ChunksFrom(info, parts, reader.State().part, reader.State().chunk + 1)
      invariant list + rest == ChunksFrom(info, parts, 0, 0)
      decreases |rest|
    {
      ghost var c := reader.State();
      NextTakesHead(info, parts, c);
      var st := reader.NextChunk();
      if st != OK {
        break;
      }
      var chunk := reader.GetChunk();
      ghost var later := ChunksFrom(info, parts, reader.State().part, reader.State().chunk + 1);
      assert list + ([chunk] + later) == list + [chunk] + later;
      list, rest := list + [chunk], later;
    }
  }

  /** Reading the listed chunk files one after another. */
  method ReadFiles(files: EdgeFiles, list: seq<(nat, nat)>) returns (rows: seq<Edge>)
    requires forall x :: x in list ==> x in files.adjList
    ensures rows == ReadChunks(files, list)
  {
    if list == [] {
      return [];
    }
    var rest := ReadFiles(files, list[1..]);
    rows := files.adjList[list[0]] + rest;
  }

  /**
   * Writing a list of edges and reading every chunk back returns the same edge multiset,
   * for every adjacency list type, all chunk sizes and any number of empty parts.
   */
  method WriteAndReadBack(info: EdgeSizes, t: AdjListType, numVertices: nat, edges: seq<Edge>) returns (rows: seq<Edge>)
    requires info.Validated() && numVertices > 0
    requires forall k :: 0 <= k < |edges| ==> Key(t, edges[k]) < numVertices
    ensures multiset(rows) == multiset(edges)
    ensures t == OrderedBySource ==> SortedBySrc(rows)
    ensures t == OrderedByDest ==> SortedByDst(rows)
  {
    var files;
    ghost var parts;
    files, parts := WriteEdges(info, t, numVertices, edges);
    VertexInPart(info, t, files, parts, 0);
    var reader := new AdjListChunkInfoReader(info, t, files, parts);
    var list := ListChunks(reader);
    ReadAllChunks(info, t, files, parts);
    rows := ReadFiles(files, list);
    if t.Ordered() {
      FlattenSorted(info, t, parts, 0);
    }
  }

  /** Sorted parts in part order make one sorted list. */
  lemma {:induction false} FlattenSorted(info: EdgeSizes, t: AdjListType, parts: seq<seq<Edge>>, first: nat)
    requires info.Validated()
    requires forall i: nat :: i < |parts| ==> SortedByKey(t, parts[i])
    requires forall i: nat, k: nat :: i < |parts| && k < |parts[i]| ==> InPart(info, t, parts[i][k], first + i)
    ensures SortedByKey(t, Flatten(parts))
    ensures forall k :: 0 <= k < |Flatten(parts)| ==> Key(t, Flatten(parts)[k]) >= first * info.VertexChunkSize(t)
  {
    if parts != [] {
      var size := info.VertexChunkSize(t);
      forall i: nat, k: nat | i < |parts[1..]| && k < |parts[1..][i]|
        ensures InPart(info, t, parts[1..][i][k], first + 1 + i)
      {
        assert InPart(info, t, parts[i + 1][k], first + (i + 1));
      }
      FlattenSorted(info, t, parts[1..], first + 1);
      assert (first + 1) * size == first * size + size;
      forall k: nat | k < |parts[0]|
        ensures first * size <= Key(t, parts[0][k]) < first * size + size
      {
        assert InPart(info, t, parts[0][k], first + 0);
        DivBounds(Key(t, parts[0][k]), size);
      }
    }
  }
}
