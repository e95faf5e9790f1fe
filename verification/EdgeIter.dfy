/**
 * The edge iterator (cpp/src/graphar/high-level/graph_reader.h and .cc) over its chunk reader
 * (cpp/src/graphar/arrow/chunk_reader.cc). A C++ exception is a Failure here.
 */
module EdgeIters {
  import opened Arith
  import opened ChunkCursor
  import opened EdgeLayout
  import opened Graph
  import opened Results
  import opened Types

  // ----- arithmetic of one step -----

  ghost function ChunkLength(info: EdgeSizes, part: seq<Edge>, q: nat): int
    requires info.Validated()
  {
    Min(q * info.chunkSize + info.chunkSize, |part|) - q * info.chunkSize
  }

  /** The chunk of row r, its length, and the place of row r in it. */
  lemma RowPlace(info: EdgeSizes, part: seq<Edge>, r: nat)
    requires info.Validated() && r < |part|
    ensures var q := r / info.chunkSize;
      && q < ChunkCount(info, part) && q * info.chunkSize <= r < q * info.chunkSize + info.chunkSize
      && 0 < ChunkLength(info, part, q) <= info.chunkSize
      && r % info.chunkSize == r - q * info.chunkSize
      && r - q * info.chunkSize < ChunkLength(info, part, q)
  {
    DivBounds(r, info.chunkSize);
    RowInChunk(|part|, info.chunkSize, r);
  }

  /** Row r is the last one of a full chunk q: row r + 1 would open chunk q + 1. */
  lemma RowAfterFullChunk(info: EdgeSizes, part: seq<Edge>, r: nat, q: nat)
    requires info.Validated() && r < |part| && q == r / info.chunkSize
    requires r + 1 == q * info.chunkSize + info.chunkSize
    ensures (r + 1) / info.chunkSize == q + 1 && (r + 1) % info.chunkSize == 0
    ensures ChunkLength(info, part, q) == info.chunkSize
    ensures q + 1 < ChunkCount(info, part) <==> r + 1 < |part|
    ensures q + 1 <= ChunkCount(info, part)
  {
    assert (q + 1) * info.chunkSize == q * info.chunkSize + info.chunkSize;
    DivUnique(r + 1, info.chunkSize, q + 1);
    CeilDivExists(|part|, info.chunkSize, q + 1);
    CeilDivExists(|part|, info.chunkSize, q);
  }

  /** Otherwise row r + 1 is still in the range of chunk q, and past its rows only at the end of the part. */
  lemma RowAfterInside(info: EdgeSizes, part: seq<Edge>, r: nat, q: nat)
    requires info.Validated() && r < |part| && q == r / info.chunkSize
    requires r + 1 != q * info.chunkSize + info.chunkSize
    ensures (r + 1) / info.chunkSize == q && (r + 1) % info.chunkSize == r + 1 - q * info.chunkSize > 0
    ensures ChunkLength(info, part, q) != info.chunkSize ==>
      (r + 1 - q * info.chunkSize >= ChunkLength(info, part, q) <==> r + 1 == |part|)
    ensures ChunkLength(info, part, q) == info.chunkSize ==> r + 1 < |part|
    ensures q < ChunkCount(info, part)
    ensures r + 1 == |part| ==> q + 1 == ChunkCount(info, part)
  {
    RowPlace(info, part, r);
    DivUnique(r + 1, info.chunkSize, q);
    if r + 1 == |part| {
      assert (q + 1) * info.chunkSize == q * info.chunkSize + info.chunkSize;
      CeilDivExists(|part|, info.chunkSize, q + 1);
    }
  }

  /** The last chunk of a non-empty part is full. */
  ghost predicate FullTail(info: EdgeSizes, part: seq<Edge>)
    requires info.Validated()
  {
    part != [] && |part| % info.chunkSize == 0
  }

  lemma FullTailAtLastRow(info: EdgeSizes, part: seq<Edge>, r: nat, q: nat)
    requires info.Validated() && r + 1 == |part| && q == r / info.chunkSize
    ensures FullTail(info, part) <==> r + 1 == q * info.chunkSize + info.chunkSize
  {
    if r + 1 == q * info.chunkSize + info.chunkSize {
      RowAfterFullChunk(info, part, r, q);
    } else {
      RowAfterInside(info, part, r, q);
    }
  }

  lemma LastRowInLastChunk(info: EdgeSizes, part: seq<Edge>, r: nat)
    requires info.Validated() && r + 1 == |part|
    ensures r / info.chunkSize + 1 == ChunkCount(info, part)
  {
    var q := r / info.chunkSize;
    RowPlace(info, part, r);
    if r + 1 == q * info.chunkSize + info.chunkSize {
      RowAfterFullChunk(info, part, r, q);
    } else {
      RowAfterInside(info, part, r, q);
    }
  }

  /** What operator++ sees when it seeks to row r + 1: the next row of the same chunk, the first
      row of the next chunk, the end of a partial chunk, or the end of a full last chunk. */
  lemma NextOffset(info: EdgeSizes, part: seq<Edge>, r: nat)
    requires info.Validated() && r < |part|
    ensures var size, q, q' := info.chunkSize, r / info.chunkSize, (r + 1) / info.chunkSize;
      var rows := ChunkLength(info, part, q);
      && (r + 1 < |part| ==>
           && q' < ChunkCount(info, part)
           && (rows != size ==> (r + 1) % size < rows)
           && (if rows == size && (r + 1) % size == 0 then q' == q + 1 else q' == q))
      && (r + 1 == |part| && FullTail(info, part) ==> q' >= ChunkCount(info, part) && rows == size)
      && (r + 1 == |part| && !FullTail(info, part) ==>
           && q' < ChunkCount(info, part) && rows != size && (r + 1) % size >= rows
           && ((q' + 1) * size) / size == ChunkCount(info, part))
  {
    var q := r / info.chunkSize;
    if r + 1 == q * info.chunkSize + info.chunkSize {
      RowAfterFullChunk(info, part, r, q);
    } else {
      RowAfterInside(info, part, r, q);
      DivUnique((q + 1) * info.chunkSize, info.chunkSize, q + 1);
    }
    if r + 1 == |part| {
      FullTailAtLastRow(info, part, r, q);
    }
  }

  // ----- global chunk indices -----

  /** How many chunks the parts below p have. */
  ghost function ChunkBase(info: EdgeSizes, parts: seq<seq<Edge>>, p: nat): nat
    requires info.Validated() && p <= |parts|
  {
    if p == 0 then 0 else ChunkBase(info, parts, p - 1) + ChunkCount(info, parts[p - 1])
  }

  lemma {:induction false} ChunkBaseMonotone(info: EdgeSizes, parts: seq<seq<Edge>>, p: nat, p': nat)
    requires info.Validated() && p < p' <= |parts|
    ensures ChunkBase(info, parts, p) + ChunkCount(info, parts[p]) <= ChunkBase(info, parts, p')
    decreases p'
  {
    if p + 1 < p' {
      ChunkBaseMonotone(info, parts, p, p' - 1);
    }
  }

  lemma {:induction false} ChunkBaseSkips(info: EdgeSizes, parts: seq<seq<Edge>>, p: nat, p': nat)
    requires info.Validated() && p < p' <= |parts|
    requires forall i: nat :: p < i < p' ==> ChunkCount(info, parts[i]) == 0
    ensures ChunkBase(info, parts, p') == ChunkBase(info, parts, p) + ChunkCount(info, parts[p])
    decreases p'
  {
    if p + 1 < p' {
      ChunkBaseSkips(info, parts, p, p' - 1);
    }
  }

  /** The counts the collection reads when it is made: one per part. */
  ghost predicate CountsOf(info: EdgeSizes, parts: seq<seq<Edge>>, edgeChunkNums: seq<nat>)
    requires info.Validated()
  {
    |edgeChunkNums| == |parts| && forall i: nat :: i < |parts| ==> edgeChunkNums[i] == ChunkCount(info, parts[i])
  }

  /** IndexConverter::IndexPairToGlobalChunkIndex. */
  method PairToGlobal(ghost info: EdgeSizes, ghost parts: seq<seq<Edge>>, edgeChunkNums: seq<nat>, part: nat,
                      chunk: nat)
    returns (g: nat)
    requires info.Validated() && CountsOf(info, parts, edgeChunkNums) && part <= |parts|
    ensures g == ChunkBase(info, parts, part) + chunk
  {
    g := 0;
    for i := 0 to part
      invariant g == ChunkBase(info, parts, i)
    {
      g := g + edgeChunkNums[i];
    }
    g := g + chunk;
  }

  /** IndexConverter::GlobalChunkIndexToIndexPair: the inverse on existing chunks. */
  method GlobalToPair(ghost info: EdgeSizes, ghost parts: seq<seq<Edge>>, edgeChunkNums: seq<nat>, g: nat)
    returns (pair: (nat, nat))
    requires info.Validated() && CountsOf(info, parts, edgeChunkNums)
    ensures g < ChunkBase(info, parts, |parts|) ==>
      ChunkExists(info, parts, pair.0, pair.1) && ChunkBase(info, parts, pair.0) + pair.1 == g
    ensures g >= ChunkBase(info, parts, |parts|) ==> pair == (0, 0)
  {
    pair := (0, 0);
    var rest: nat := g;
    for i := 0 to |edgeChunkNums|
      invariant rest + ChunkBase(info, parts, i) == g && pair == (0, 0)
    {
      if rest < edgeChunkNums[i] {
        var part: nat := i;
        pair := (part, rest);
        ChunkBaseMonotone(info, parts, i, |parts|);
        break;
      }
      rest := rest - edgeChunkNums[i];
    }
  }

  /** Different existing chunks have different global indices, in lexicographic order. */
  lemma GlobalOrder(info: EdgeSizes, parts: seq<seq<Edge>>, p: nat, k: nat, p': nat, k': nat)
    requires info.Validated() && ChunkExists(info, parts, p, k) && ChunkExists(info, parts, p', k')
    ensures Before(p, k, p', k') <==> ChunkBase(info, parts, p) + k < ChunkBase(info, parts, p') + k'
  {
    if p < p' {
      ChunkBaseMonotone(info, parts, p, p');
    } else if p' < p {
      ChunkBaseMonotone(info, parts, p', p);
    }
  }

  // ----- the chunk reader underneath -----

  class AdjListArrowChunkReader {
    const info: EdgeSizes
    const adjListType: AdjListType
    const files: EdgeFiles
    const vertexChunkNum: nat
    var vertexChunkIndex: nat
    var chunkIndex: nat
    var seekOffset: nat
    var chunkTable: Option<seq<Edge>>
    var chunkNum: int  // -1 means uninitialized
    ghost const parts: seq<seq<Edge>>

    /** Inside the list, the cached chunk count and table are those of the current position. */
    ghost predicate Valid()
      reads this
    {
      && Stores(info, adjListType, files, parts) && vertexChunkNum == |parts|
      && (vertexChunkIndex < |parts| && chunkNum >= 0 ==> chunkNum == ChunkCount(info, parts[vertexChunkIndex]))
      && (vertexChunkIndex < |parts| && chunkTable.Some? ==>
           && (vertexChunkIndex, chunkIndex) in files.adjList
           && chunkTable.value == files.adjList[(vertexChunkIndex, chunkIndex)])
    }

    constructor (info: EdgeSizes, adjListType: AdjListType, files: EdgeFiles, ghost parts: seq<seq<Edge>>)
      requires Stores(info, adjListType, files, parts)
      ensures Valid() && chunkNum == -1 && vertexChunkIndex == 0 && chunkIndex == 0 && seekOffset == 0
      ensures this.info == info && this.adjListType == adjListType && this.files == files && this.parts == parts
    {
      this.info, this.adjListType, this.files, this.parts := info, adjListType, files, parts;
      vertexChunkIndex, chunkIndex, seekOffset, chunkTable, chunkNum := 0, 0, 0, None, -1;
      vertexChunkNum := GetVertexChunkNum(info, files, adjListType);
    }

    /** The part's chunk count is read when it is still unknown. */
    method Seek(offset: nat) returns (st: Status)
      requires Valid()
      modifies this`seekOffset, this`chunkIndex, this`chunkTable, this`chunkNum
      ensures Valid() && seekOffset == offset && chunkIndex == offset / info.chunkSize
      ensures old(chunkNum) >= 0 ==> chunkNum == old(chunkNum)
      ensures old(chunkNum) >= 0 || vertexChunkIndex < |parts| ==>
        chunkNum >= 0 && st == if chunkIndex >= chunkNum then IndexError else OK
    {
      seekOffset := offset;
      var preChunkIndex := chunkIndex;
      chunkIndex := offset / info.chunkSize;
      if chunkIndex != preChunkIndex {
        chunkTable := None;
      }
      if chunkNum < 0 {
        st := InitChunkNum();
        if st != OK {
          return st;
        }
      }
      return if chunkIndex >= chunkNum then IndexError else OK;
    }

    /** seek_src: the first row a vertex can have, in the part of its vertex chunk. */
    method SeekSrc(id: nat) returns (st: Status)
      requires Valid()
      modifies this
      ensures Valid()
      ensures !adjListType.BySource() ==> st == Invalid && unchanged(this)
      ensures adjListType.BySource() ==> SoughtVertex(id, old(Place()), st)
    {
      hide StoresPart, OffsetsFor, GetAdjListOffsetOfVertex, ChunkCount, SplitsAt;
      if adjListType != UnorderedBySource && adjListType != OrderedBySource {
        return Invalid;
      }
      var newVertexChunkIndex := id / info.srcChunkSize;
      if newVertexChunkIndex >= vertexChunkNum {
        return IndexError;
      }
      if chunkNum < 0 || vertexChunkIndex != newVertexChunkIndex {
        vertexChunkIndex := newVertexChunkIndex;
        var _ := InitChunkNum();
        chunkTable := None;
      }
      if adjListType == UnorderedBySource {
        st := Seek(0);
      } else {
        OffsetSplitsPart(info, adjListType, files, parts, id);
        var range := GetAdjListOffsetOfVertex(info, files, adjListType, id);
        st := Seek(range.value.0);
      }
    }

    /** seek_dst, likewise. */
    method SeekDst(id: nat) returns (st: Status)
      requires Valid()
      modifies this
      ensures Valid()
      ensures adjListType.BySource() ==> st == Invalid && unchanged(this)
      ensures !adjListType.BySource() ==> SoughtVertex(id, old(Place()), st)
    {
      hide StoresPart, OffsetsFor, GetAdjListOffsetOfVertex, ChunkCount, SplitsAt;
      if adjListType != UnorderedByDest && adjListType != OrderedByDest {
        return Invalid;
      }
      var newVertexChunkIndex := id / info.dstChunkSize;
      if newVertexChunkIndex >= vertexChunkNum {
        return IndexError;
      }
      if chunkNum < 0 || vertexChunkIndex != newVertexChunkIndex {
        vertexChunkIndex := newVertexChunkIndex;
        var _ := InitChunkNum();
        chunkTable := None;
      }
      if adjListType == UnorderedByDest {
        st := Seek(0);
      } else {
        OffsetSplitsPart(info, adjListType, files, parts, id);
        var range := GetAdjListOffsetOfVertex(info, files, adjListType, id);
        st := Seek(range.value.0);
      }
    }

    ghost function Place(): (nat, nat, nat, int)
      reads this
    {
      (vertexChunkIndex, chunkIndex, seekOffset, chunkNum)
    }

    /**
     * After a seek for a vertex of this list's direction: IndexError and no move beyond the last
     * part; otherwise row 0 of the vertex's part, or, in an ordered list, the first row whose key
     * is not below id, with OK exactly when the chunk of that row exists.
     */
    ghost predicate SoughtVertex(id: nat, before: (nat, nat, nat, int), st: Status)
      requires info.Validated()
      reads this
    {
      var p := id / info.VertexChunkSize(adjListType);
      if p >= |parts| then st == IndexError && Place() == before
      else
        && vertexChunkIndex == p && chunkNum == ChunkCount(info, parts[p])
        && chunkIndex == seekOffset / info.chunkSize
        && (st == OK || st == IndexError) && (st == OK <==> ChunkExists(info, parts, p, chunkIndex))
        && (if adjListType.Ordered() then SplitsAt(adjListType, parts[p], seekOffset, id) else seekOffset == 0)
    }

    /** initOrUpdateEdgeChunkNum */
    method InitChunkNum() returns (st: Status)
      requires Stores(info, adjListType, files, parts)
      modifies this`chunkNum
      ensures (st == OK ==> chunkNum >= 0) && (st != OK ==> chunkNum == old(chunkNum))
      ensures st == if vertexChunkIndex in files.edgeCount then OK else IOError
      ensures vertexChunkIndex < |parts| ==> st == OK && chunkNum == ChunkCount(info, parts[vertexChunkIndex])
    {
      if vertexChunkIndex < |parts| {
        assert StoresPart(info, files, parts[vertexChunkIndex], vertexChunkIndex);
      }
      var num := GetEdgeChunkNum(info, files, vertexChunkIndex);
      if num.Failure? {
        return num.error;
      }
      chunkNum := num.value;
      return OK;
    }

    /** The sought offset moves to the start of the chunk only when the chunk index changes. */
    method SeekChunkIndex(part: nat, chunk: nat)
      requires Valid() && part < |parts|
      modifies this
      ensures Valid() && vertexChunkIndex == part && chunkIndex == chunk
      ensures chunkNum == ChunkCount(info, parts[part])
      ensures seekOffset == if old(chunkIndex) == chunk then old(seekOffset) else chunk * info.chunkSize
      ensures chunkIndex == seekOffset / info.chunkSize <==>
        old(chunkIndex) != chunk || old(chunkIndex) == old(seekOffset) / info.chunkSize
    {
      if chunkNum < 0 || vertexChunkIndex != part {
        vertexChunkIndex := part;
        var _ := InitChunkNum();
        chunkTable := None;
      }
      if chunkIndex != chunk {
        chunkIndex := chunk;
        seekOffset := chunk * info.chunkSize;
        chunkTable := None;
        DivUnique(seekOffset, info.chunkSize, chunk);
      }
    }

    /** next_chunk: the start of the next existing chunk; past the last one the sought offset stays behind. */
    method NextChunk() returns (st: Status)
      requires Valid() && (chunkNum >= 0 || vertexChunkIndex < |parts|)
      modifies this
      ensures Valid() && chunkNum >= 0
      ensures var count := if old(chunkNum) >= 0 then old(chunkNum) else ChunkCount(info, parts[old(vertexChunkIndex)]);
        (Cursor(vertexChunkIndex, chunkIndex, chunkNum), st)
          == Next(info, parts, Cursor(old(vertexChunkIndex), old(chunkIndex), count))
      ensures st == OK || st == IndexError
      ensures seekOffset == if st == OK then chunkIndex * info.chunkSize else old(seekOffset)
    {
      chunkIndex := chunkIndex + 1;
      if chunkNum < 0 {
        st := InitChunkNum();
      }
      ghost var c := Cursor(vertexChunkIndex, chunkIndex, chunkNum);
      while chunkIndex >= chunkNum
        invariant chunkNum >= 0 && seekOffset == old(seekOffset)
        invariant vertexChunkIndex < |parts| ==> chunkNum == ChunkCount(info, parts[vertexChunkIndex])
        invariant SkipEmptyParts(info, parts, Cursor(vertexChunkIndex, chunkIndex, chunkNum)) ==
          SkipEmptyParts(info, parts, c)
        decreases vertexChunkNum - vertexChunkIndex
      {
        vertexChunkIndex := vertexChunkIndex + 1;
        if vertexChunkIndex >= vertexChunkNum {
          return IndexError;
        }
        chunkIndex := 0;
        st := InitChunkNum();
      }
      seekOffset := chunkIndex * info.chunkSize;
      chunkTable := None;
      return OK;
    }

    /** GetRowNumOfChunk: fails exactly when the chunk file does not exist. */
    method GetRowNumOfChunk() returns (r: Result<nat>)
      requires Valid()
      modifies this`chunkTable
      ensures Valid()
      ensures vertexChunkIndex < |parts| ==>
        r == if ChunkExists(info, parts, vertexChunkIndex, chunkIndex)
             then Success(ChunkLength(info, parts[vertexChunkIndex], chunkIndex)) else Failure(IOError)
    {
      if vertexChunkIndex < |parts| {
        assert StoresPart(info, files, parts[vertexChunkIndex], vertexChunkIndex);
        CeilDivExists(|parts[vertexChunkIndex]|, info.chunkSize, chunkIndex);
      }
      if chunkTable.None? {
        if (vertexChunkIndex, chunkIndex) !in files.adjList {
          return Failure(IOError);
        }
        chunkTable := Some(files.adjList[(vertexChunkIndex, chunkIndex)]);
      }
      return Success(|chunkTable.value|);
    }

    /** GetChunk: the rows of the current chunk from the sought offset on. A null table is a failure. */
    method GetChunk() returns (r: Result<seq<Edge>>)
      requires Valid() && chunkIndex == seekOffset / info.chunkSize
      modifies this`chunkTable
      ensures Valid()
      ensures vertexChunkIndex < |parts| ==> r == ChunkFrom(info, parts[vertexChunkIndex], chunkIndex, seekOffset)
    {
      DivBounds(seekOffset, info.chunkSize);
      if vertexChunkIndex < |parts| {
        assert StoresPart(info, files, parts[vertexChunkIndex], vertexChunkIndex);
        CeilDivExists(|parts[vertexChunkIndex]|, info.chunkSize, chunkIndex);
      }
      if chunkTable.None? {
        var edgeNum := GetEdgeNum(files, vertexChunkIndex);
        if edgeNum.Failure? {
          return Failure(edgeNum.error);
        }
        if edgeNum.value == 0 || (vertexChunkIndex, chunkIndex) !in files.adjList {
          return Failure(IOError);
        }
        chunkTable := Some(files.adjList[(vertexChunkIndex, chunkIndex)]);
      }
      var rowOffset := seekOffset - chunkIndex * info.chunkSize;
      return Success(chunkTable.value[Min(rowOffset, |chunkTable.value|)..]);
    }
  }

  /** The rows of chunk q from row `offset` of the part on, or a failure when there is no such chunk. */
  ghost function ChunkFrom(info: EdgeSizes, part: seq<Edge>, q: nat, offset: nat): Result<seq<Edge>>
    requires info.Validated() && q == offset / info.chunkSize
  {
    if q < ChunkCount(info, part) then
      CeilDivExists(|part|, info.chunkSize, q);
      DivBounds(offset, info.chunkSize);
      Success(part[Min(offset, |part|)..Min(q * info.chunkSize + info.chunkSize, |part|)])
    else Failure(IOError)
  }

  // ----- moving past the end of a part -----

  /** The first non-empty part at or after i, or |parts|. */
  ghost function NextPart(parts: seq<seq<Edge>>, i: nat): (p: nat)
    requires i <= |parts|
    ensures i <= p <= |parts|
    ensures p < |parts| ==> parts[p] != []
    ensures forall j: nat :: i <= j < p ==> parts[j] == []
    decreases |parts| - i
  {
    if i == |parts| || parts[i] != [] then i else NextPart(parts, i + 1)
  }

  /** The edges from row r of part p on. */
  ghost function Rest(parts: seq<seq<Edge>>, p: nat, r: nat): seq<Edge> {
    if p < |parts| && r <= |parts[p]| then parts[p][r..] + Flatten(parts[p + 1..]) else []
  }

  lemma {:induction false} RestSkipsEmpty(parts: seq<seq<Edge>>, i: nat)
    requires i <= |parts|
    ensures Flatten(parts[i..]) == Rest(parts, NextPart(parts, i), 0)
    decreases |parts| - i
  {
    if i < |parts| {
      assert parts[i..][0] == parts[i] && parts[i..][1..] == parts[i + 1..];
      if parts[i] == [] {
        RestSkipsEmpty(parts, i + 1);
      } else {
        assert parts[i][0..] == parts[i];
      }
    }
  }

  lemma RestStep(parts: seq<seq<Edge>>, p: nat, r: nat)
    requires p < |parts| && r < |parts[p]|
    ensures Rest(parts, p, r) == [parts[p][r]] +
      if r + 1 < |parts[p]| then Rest(parts, p, r + 1) else Rest(parts, NextPart(parts, p + 1), 0)
  {
    hide Flatten, NextPart;
    var tail := Flatten(parts[p + 1..]);
    RestSkipsEmpty(parts, p + 1);
    assert parts[p][r..] + tail == [parts[p][r]] + (parts[p][r + 1..] + tail);
    if r + 1 == |parts[p]| {
      assert parts[p][r + 1..] + tail == tail;
    }
  }

  lemma RestAtEnd(parts: seq<seq<Edge>>, p: nat, r: nat)
    ensures p >= |parts| ==> Rest(parts, p, r) == []
  {
  }

  lemma EmptyPartsHaveNoChunks(info: EdgeSizes, parts: seq<seq<Edge>>)
    requires info.Validated()
    ensures forall i: nat :: i < |parts| ==> (ChunkCount(info, parts[i]) == 0 <==> parts[i] == [])
  {
    forall i: nat | i < |parts| ensures ChunkCount(info, parts[i]) == 0 <==> parts[i] == [] {
      CeilDivExists(|parts[i]|, info.chunkSize, 0);
    }
  }

  /** From a position behind the last chunk of part p, the chunk reader's next_chunk goes to
      chunk 0 of the next non-empty part. */
  lemma NextPartFirstChunk(info: EdgeSizes, parts: seq<seq<Edge>>, c: Cursor)
    requires info.Validated() && c.part < |parts|
    requires c.chunkNum == ChunkCount(info, parts[c.part]) && c.chunk >= c.chunkNum
    ensures var (c', st) := Next(info, parts, c);
      var p := NextPart(parts, c.part + 1);
      if p < |parts| then st == OK && c' == Cursor(p, 0, ChunkCount(info, parts[p]))
      else st == IndexError && c'.part >= |parts|
    ensures forall i: nat :: c.part < i < NextPart(parts, c.part + 1) ==> ChunkCount(info, parts[i]) == 0
    decreases |parts| - c.part
  {
    hide ChunkCount;
    EmptyPartsHaveNoChunks(info, parts);
    SkipToNextPart(info, parts, c.(chunk := c.chunk + 1));
  }

  lemma FirstChunkExists(info: EdgeSizes, part: seq<Edge>)
    requires info.Validated()
    ensures part != [] ==> 0 < ChunkCount(info, part) && 0 / info.chunkSize == 0
  {
    CeilDivExists(|part|, info.chunkSize, 0);
  }

  lemma {:induction false} SkipToNextPart(info: EdgeSizes, parts: seq<seq<Edge>>, c: Cursor)
    requires info.Validated() && c.part < |parts| && c.chunk >= c.chunkNum
    requires forall i: nat :: i < |parts| ==> (ChunkCount(info, parts[i]) == 0 <==> parts[i] == [])
    ensures var (c', st) := SkipEmptyParts(info, parts, c);
      var p := NextPart(parts, c.part + 1);
      if p < |parts| then st == OK && c' == Cursor(p, 0, ChunkCount(info, parts[p]))
      else st == IndexError && c'.part >= |parts|
    decreases |parts| - c.part
  {
    if c.part + 1 < |parts| && parts[c.part + 1] == [] {
      SkipToNextPart(info, parts, Cursor(c.part + 1, 0, ChunkCount(info, parts[c.part + 1])));
    }
  }

  /** How many non-empty parts lie in (a, p]: what ++ adds to vertex_chunk_index_ from part a to part p. */
  ghost function Steps(parts: seq<seq<Edge>>, a: nat, p: nat): nat
    requires a <= p < |parts|
    decreases p
  {
    if a == p then 0 else Steps(parts, a, p - 1) + if parts[p] == [] then 0 else 1
  }

  ghost predicate NoneSkipped(parts: seq<seq<Edge>>, a: nat, p: nat)
    requires a <= p < |parts|
  {
    forall i: nat :: a < i <= p ==> parts[i] != []
  }

  lemma {:induction false} StepsLag(parts: seq<seq<Edge>>, a: nat, p: nat)
    requires a <= p < |parts|
    ensures a + Steps(parts, a, p) <= p
    ensures a + Steps(parts, a, p) == p <==> NoneSkipped(parts, a, p)
    decreases p
  {
    if a < p {
      StepsLag(parts, a, p - 1);
    }
  }

  lemma {:induction false} StepsToNext(parts: seq<seq<Edge>>, a: nat, p: nat, p': nat)
    requires a <= p < p' < |parts| && parts[p'] != [] && forall i: nat :: p < i < p' ==> parts[i] == []
    ensures Steps(parts, a, p') == Steps(parts, a, p) + 1
  {
    StepsOverEmpty(parts, a, p, p' - 1);
  }

  lemma {:induction false} StepsOverEmpty(parts: seq<seq<Edge>>, a: nat, p: nat, q: nat)
    requires a <= p <= q < |parts| && forall i: nat :: p < i <= q ==> parts[i] == []
    ensures Steps(parts, a, q) == Steps(parts, a, p)
    decreases q
  {
    if p < q {
      StepsOverEmpty(parts, a, p, q - 1);
    }
  }

  // ----- the iterator -----

  class EdgeIter {
    const info: EdgeSizes
    const adjListType: AdjListType
    const reader: AdjListArrowChunkReader
    const edgeChunkNums: seq<nat>  // held by the index converter
    const chunkEnd: nat
    var globalChunkIndex: nat
    var vertexChunkIndex: nat
    var curOffset: nat
    var numRowOfChunk: nat
    ghost const parts: seq<seq<Edge>>
    ghost var placed: nat  // the part the iterator was last placed in by begin, first_* or to_begin

    ghost predicate Valid()
      reads this, reader
    {
      && info.Validated() && reader.Valid() && reader.chunkNum >= 0
      && reader.info == info && reader.adjListType == adjListType && reader.parts == parts
      && CountsOf(info, parts, edgeChunkNums)
      && chunkEnd == ChunkBase(info, parts, |parts|)
    }

    /** vertexChunkIndex has been stepped once for each non-empty part since the last placement. */
    ghost predicate Stepped(p: nat)
      reads this
    {
      placed <= p < |parts| && vertexChunkIndex == placed + Steps(parts, placed, p)
    }

    /** The iterator denotes row r of part p. */
    ghost predicate At(p: nat, r: nat)
      reads this, reader
    {
      && Valid() && p < |parts| && r < |parts[p]|
      && globalChunkIndex == ChunkBase(info, parts, p) + r / info.chunkSize
      && curOffset == r && reader.vertexChunkIndex == p && Stepped(p)
      && (numRowOfChunk == 0 || numRowOfChunk == ChunkLength(info, parts[p], r / info.chunkSize))
    }

    ghost predicate AtEnd()
      reads this, reader
    {
      Valid() && globalChunkIndex == chunkEnd && curOffset == 0
    }

    /** The iterator has run past the last row of part p without leaving the part. */
    ghost predicate Stuck(p: nat)
      reads this, reader
    {
      && Valid() && p < |parts| && FullTail(info, parts[p])
      && globalChunkIndex == ChunkBase(info, parts, p) + ChunkCount(info, parts[p]) - 1
      && curOffset == |parts[p]| && reader.vertexChunkIndex == p && Stepped(p)
    }

    /** Row r of part p, behind the last row of a part with a full tail, or at the end (p == |parts|). */
    ghost predicate StandsAt(p: nat, r: nat)
      reads this, reader
    {
      if p >= |parts| then AtEnd() else if r < |parts[p]| then At(p, r) else r == |parts[p]| && Stuck(p)
    }

    /** An iterator at chunk 0 (begin) of a collection over at least one vertex chunk. */
    constructor Begin(info: EdgeSizes, adjListType: AdjListType, files: EdgeFiles, edgeChunkNums: seq<nat>,
                      ghost parts: seq<seq<Edge>>)
      requires Stores(info, adjListType, files, parts) && parts != []
      requires CountsOf(info, parts, edgeChunkNums)
      ensures this.info == info && this.adjListType == adjListType && this.parts == parts && fresh(reader)
      ensures reader.files == files
      ensures var p := NextPart(parts, 0);
        if p < |parts| then At(p, 0) && placed == p else AtEnd()
    {
      this.info, this.adjListType, this.edgeChunkNums, this.parts := info, adjListType, edgeChunkNums, parts;
      reader := new AdjListArrowChunkReader(info, adjListType, files, parts);
      var total := PairToGlobal(info, parts, edgeChunkNums, |edgeChunkNums|, 0);
      chunkEnd := total;
      globalChunkIndex, curOffset, numRowOfChunk := 0, 0, 0;
      var pair := GlobalToPair(info, parts, edgeChunkNums, 0);
      vertexChunkIndex, placed := pair.0, pair.0;
      new;
      reader.SeekChunkIndex(vertexChunkIndex, 0);
      ghost var p := NextPart(parts, 0);
      EmptyPartsHaveNoChunks(info, parts);
      if p > 0 {
        ChunkBaseSkips(info, parts, 0, p);
      }
      if p < |parts| {
        ChunkBaseMonotone(info, parts, p, |parts|);
        GlobalOrder(info, parts, p, 0, pair.0, pair.1);
        GlobalOrder(info, parts, pair.0, pair.1, p, 0);
      }
    }

    predicate IsEnd()
      reads this
    {
      globalChunkIndex >= chunkEnd
    }

    /** source() and destination() seek and read the first row; here both columns at once. */
    method Current() returns (r: Result<Edge>)
      requires Valid() && reader.vertexChunkIndex < |parts|
      modifies reader
      ensures Valid() && reader.vertexChunkIndex == old(reader.vertexChunkIndex)
      ensures var part := parts[reader.vertexChunkIndex];
        if curOffset < |part| then r == Success(part[curOffset]) else r == Failure(IOError)
      ensures forall p: nat, k: nat :: old(At(p, k)) ==> At(p, k)
      ensures forall p: nat :: old(Stuck(p)) ==> Stuck(p)
    {
      ghost var part := parts[reader.vertexChunkIndex];
      var _ := reader.Seek(curOffset);
      if curOffset < |part| {
        RowPlace(info, part, curOffset);
      }
      DivBounds(curOffset, info.chunkSize);
      var rows := reader.GetChunk();
      if rows.Failure? || rows.value == [] {
        return Failure(IOError);
      }
      return Success(rows.value[0]);
    }

    /** The row count of the current chunk, read on first use (lines 591-595). */
    method LoadRowNum(ghost p: nat, ghost r: nat) returns (ok: bool)
      requires At(p, r)
      modifies this`numRowOfChunk, reader
      ensures ok && At(p, r) && numRowOfChunk == ChunkLength(info, parts[p], r / info.chunkSize)
    {
      hide Stores;
      RowPlace(info, parts[p], r);
      if numRowOfChunk == 0 {
        var _ := reader.Seek(curOffset);
        var rows := reader.GetRowNumOfChunk();
        if rows.Failure? {
          return false;
        }
        numRowOfChunk := rows.value;
      }
      return true;
    }

    /** The seek to the next offset, and the overflow check (lines 596-606). */
    method SeekNextOffset(ghost p: nat, ghost r: nat) returns (st: Status)
      requires Valid() && p < |parts| && r < |parts[p]| && curOffset == r && reader.vertexChunkIndex == p
      requires numRowOfChunk == ChunkLength(info, parts[p], r / info.chunkSize)
      modifies this`curOffset, reader
      ensures Valid() && reader.vertexChunkIndex == p
      ensures r + 1 < |parts[p]| ==>
        st == OK && curOffset == r + 1 && reader.chunkIndex == (r + 1) / info.chunkSize
      ensures r + 1 == |parts[p]| && FullTail(info, parts[p]) ==> st == IndexError && curOffset == r + 1
      ensures r + 1 == |parts[p]| && !FullTail(info, parts[p]) ==>
        st == KeyError && reader.chunkIndex >= ChunkCount(info, parts[p])
    {
      hide Stores, ChunkCount, ChunkLength, ChunkBase, CountsOf;
      NextOffset(info, parts[p], r);
      curOffset := curOffset + 1;
      st := reader.Seek(curOffset);
      if st == OK && numRowOfChunk != info.chunkSize {
        var rowOffset := curOffset % info.chunkSize;
        if rowOffset >= numRowOfChunk {
          curOffset := (curOffset / info.chunkSize + 1) * info.chunkSize;
          var _ := reader.Seek(curOffset);
          st := KeyError;
        }
      }
    }

    /** Inside a part, a new full chunk has begun when the offset is a multiple of its size (lines 607-612). */
    method EnterNextChunk(ghost p: nat, ghost r: nat) returns (ok: bool)
      requires Valid() && p < |parts| && r + 1 < |parts[p]| && reader.vertexChunkIndex == p && Stepped(p)
      requires curOffset == r + 1 && reader.chunkIndex == (r + 1) / info.chunkSize
      requires globalChunkIndex == ChunkBase(info, parts, p) + r / info.chunkSize
      requires numRowOfChunk == ChunkLength(info, parts[p], r / info.chunkSize)
      modifies this`globalChunkIndex, this`numRowOfChunk, reader
      ensures ok && At(p, r + 1)
    {
      hide Stores, ChunkCount, ChunkLength, ChunkBase, CountsOf;
      NextOffset(info, parts[p], r);
      if numRowOfChunk == info.chunkSize && curOffset % info.chunkSize == 0 {
        var rows := reader.GetRowNumOfChunk();
        if rows.Failure? {
          return false;
        }
        numRowOfChunk := rows.value;
        globalChunkIndex := globalChunkIndex + 1;
      }
      return true;
    }

    /**
     * operator++: the next row, in the same part or at the start of the next non-empty
     * one; but after the last row of a part that ends on a full chunk it gets stuck,
     * because the reader answers IndexError where a KeyError is expected.
     */
    method Increment(ghost p: nat, ghost r: nat) returns (ok: bool)
      requires At(p, r)
      modifies this, reader
      ensures ok && placed == old(placed)
      ensures var (p', r') := AfterRow(info, parts, p, r); StandsAt(p', r')
      ensures vertexChunkIndex == old(vertexChunkIndex) +
        if r + 1 == |parts[p]| && !FullTail(info, parts[p]) then 1 else 0
    {
      hide Stores, Steps;
      ok := LoadRowNum(p, r);
      var st := SeekNextOffset(p, r);
      if r + 1 == |parts[p]| {
        LastRowInLastChunk(info, parts[p], r);
      }
      if st == OK {
        ok := EnterNextChunk(p, r);
      } else if st == KeyError {
        ok := EnterNextPart(p);
      }
    }

    /** The next_chunk branch of operator++ (lines 613-626): vertexChunkIndex grows by one over any run of empty
        parts. */
    method EnterNextPart(ghost p: nat) returns (ok: bool)
      requires Valid() && p < |parts| && reader.vertexChunkIndex == p && Stepped(p)
      requires parts[p] != [] && globalChunkIndex == ChunkBase(info, parts, p) + ChunkCount(info, parts[p]) - 1
      requires reader.chunkIndex >= ChunkCount(info, parts[p])
      modifies this, reader
      ensures ok && placed == old(placed) && vertexChunkIndex == old(vertexChunkIndex) + 1
      ensures if NextPart(parts, p + 1) < |parts| then At(NextPart(parts, p + 1), 0) else AtEnd()
    {
      hide Stores, Steps, Next, SkipEmptyParts, ChunkCount, ChunkBase, ChunkLength, CountsOf;
      ghost var p' := NextPart(parts, p + 1);
      NextPartFirstChunk(info, parts, Cursor(reader.vertexChunkIndex, reader.chunkIndex, reader.chunkNum));
      ChunkBaseSkips(info, parts, p, p');
      if p' < |parts| {
        StepsToNext(parts, placed, p, p');
        FirstChunkExists(info, parts[p']);
      }
      var st := reader.NextChunk();
      globalChunkIndex := globalChunkIndex + 1;
      vertexChunkIndex := vertexChunkIndex + 1;
      if st != IndexError {
        var rows := reader.GetRowNumOfChunk();
        if rows.Failure? {
          return false;
        }
        numRowOfChunk := rows.value;
      }
      curOffset := 0;
      var _ := reader.Seek(curOffset);
      return true;
    }

    /**
     * refresh: bring the chunk reader to vertexChunkIndex and curOffset. It throws exactly when
     * that part has no such chunk, and the iterator denotes the row there when that is its
     * global chunk too.
     */
    method Refresh() returns (ok: bool)
      requires Valid() && vertexChunkIndex < |parts|
      modifies this`numRowOfChunk, this`placed, reader
      ensures Valid() && placed == vertexChunkIndex == reader.vertexChunkIndex
      ensures ok <==> ChunkExists(info, parts, vertexChunkIndex, curOffset / info.chunkSize)
      ensures (curOffset < |parts[vertexChunkIndex]| &&
               globalChunkIndex == ChunkBase(info, parts, vertexChunkIndex) + curOffset / info.chunkSize) ==>
              ok && At(vertexChunkIndex, curOffset)
    {
      hide Stores, ChunkLength, ChunkBase, CountsOf;
      if curOffset < |parts[vertexChunkIndex]| {
        RowPlace(info, parts[vertexChunkIndex], curOffset);
      }
      reader.SeekChunkIndex(vertexChunkIndex, 0);
      var _ := reader.Seek(curOffset);
      placed := vertexChunkIndex;
      var rows := reader.GetRowNumOfChunk();
      if rows.Failure? {
        return false;
      }
      numRowOfChunk := rows.value;
      return true;
    }

    /** to_begin: the first row, or a throw when the collection has none. */
    method ToBegin() returns (ok: bool)
      requires Valid() && parts != []
      modifies this, reader
      ensures Valid() && (ok <==> NextPart(parts, 0) < |parts|)
      ensures ok ==> At(NextPart(parts, 0), 0)
    {
      hide Stores, ChunkLength, ChunkCount, ChunkBase, CountsOf, Steps, ChunkExists, EdgeIter.Stuck, EdgeIter.AtEnd;
      globalChunkIndex, curOffset := 0, 0;
      var pair := GlobalToPair(info, parts, edgeChunkNums, globalChunkIndex);
      FirstGlobalChunk(info, parts);
      ghost var p := NextPart(parts, 0);
      if p < |parts| {
        ChunkBaseMonotone(info, parts, p, |parts|);
        GlobalOrder(info, parts, p, 0, pair.0, pair.1);
        GlobalOrder(info, parts, pair.0, pair.1, p, 0);
      }
      vertexChunkIndex := pair.0;
      ok := Refresh();
    }

    /** The rows of a vertex in its part; none for an id beyond the last part. */
    ghost function Row(id: nat): (nat, nat)
      requires Valid() && adjListType.Ordered()
      reads this, reader
    {
      RowOrNone(info, adjListType, reader.files, parts, id)
    }

    function PartOf(id: nat): nat
      requires info.Validated()
    {
      id / info.VertexChunkSize(adjListType)
    }

    /** A start kept with vertex chunk index v: refresh throws, or the rows of part v are read from now on. */
    ghost predicate KeptWith(found: Result<bool>, v: nat, fr: nat)
      requires info.Validated()
      reads this, reader
    {
      && found == (if ChunkExists(info, parts, v, fr / info.chunkSize) then Success(true) else Failure(IOError))
      && reader.vertexChunkIndex == v && curOffset == fr
    }

    /** The answer first_* should give: the first row of the vertex, rows b to e of part p, at or after row fr of
        part fp. */
    ghost predicate Answers(found: Result<bool>, fp: nat, fr: nat, p: nat, b: nat, e: nat)
      reads this, reader
    {
      if b < e && Before(fp, fr, p, e) then found == Success(true) && At(p, if fp == p && b < fr then fr else b)
      else found == Success(false)
    }

    /**
     * first_src on an ordered_by_source list, and first_dst on an ordered_by_dest list
     * (lines 779-825 and 894-940). `from` stands at (fp, fr): at a row, behind a full tail, or
     * at the end. The answer is right exactly when `from` is not the case that Wraps describes
     * and, in the middle of the vertex's rows, carries the right vertex chunk index.
     */
    method FirstAligned(fromGlobal: nat, fromVertexChunk: nat, fromOffset: nat, ghost fp: nat, id: nat)
      returns (found: Result<bool>)
      requires Valid() && adjListType.Ordered()
      requires FromAt(info, parts, fromGlobal, fromOffset, fp)
      requires fp < |parts| ==> fromVertexChunk < |parts|
      modifies this, reader
      ensures Valid()
      ensures var p, row := PartOf(id), Row(id);
        var outcome := FirstOutcome(info, parts, fp, fromOffset, p, row.0, row.1);
        && Landed(outcome, found, fromGlobal, fromVertexChunk, fp, fromOffset, p, row.0)
        && (outcome == Missing ==> unchanged(this) && unchanged(reader))
      ensures var p, row := PartOf(id), Row(id);
        Answers(found, fp, fromOffset, p, row.0, row.1) <==>
          && !(row.0 < row.1 && Wraps(info, parts, fp, fromOffset, p, row.1))
          && (InMiddle(fp, fromOffset, p, row) ==> fromVertexChunk == fp)
    {
      hide Stores, ChunkCount, ChunkBase, ChunkLength, CountsOf, Steps, FromAt, RowOrNone, FirstOutcome, Wraps,
           GetAdjListOffsetOfVertex, EdgeIter.Answers, EdgeIter.Landed, EdgeIter.At;
      ghost var p, row := PartOf(id), Row(id);
      var outcome, beginOffset, beginGlobal := Decide(fromGlobal, fromOffset, fp, id);
      if outcome == Missing {
        found := Success(false);
      } else {
        if outcome == Kept {
          globalChunkIndex, curOffset, vertexChunkIndex := fromGlobal, fromOffset, fromVertexChunk;
        } else {
          globalChunkIndex, curOffset := beginGlobal, beginOffset;
          vertexChunkIndex := id / info.VertexChunkSize(adjListType);
        }
        found := Refreshed();
      }
      HasLanded(this, outcome, found, fromGlobal, fromVertexChunk, fp, fromOffset, p, row.0);
      LandedIsAnswer(this, found, fromGlobal, fromVertexChunk, fp, fromOffset, p, row.0, row.1);
    }

    /** `refresh(); return true;` */
    method Refreshed() returns (found: Result<bool>)
      requires Valid() && vertexChunkIndex < |parts|
      modifies this`numRowOfChunk, this`placed, reader
      ensures Valid() && placed == vertexChunkIndex == reader.vertexChunkIndex
      ensures found == if ChunkExists(info, parts, vertexChunkIndex, curOffset / info.chunkSize) then Success(true)
                       else Failure(IOError)
      ensures (curOffset < |parts[vertexChunkIndex]| &&
               globalChunkIndex == ChunkBase(info, parts, vertexChunkIndex) + curOffset / info.chunkSize) ==>
              found == Success(true) && At(vertexChunkIndex, curOffset)
    {
      var ok := Refresh();
      return if ok then Success(true) else Failure(IOError);
    }

    /** What each outcome leaves behind. */
    ghost predicate Landed(outcome: Outcome, found: Result<bool>, fromGlobal: nat, fromVertexChunk: nat,
                           fp: nat, fr: nat, p: nat, b: nat)
      requires info.Validated()
      reads this, reader
    {
      match outcome
      case Missing => found == Success(false)
      case ToRow => found == Success(true) && At(p, b) && placed == p
      case Kept =>
        && globalChunkIndex == fromGlobal && curOffset == fr && fp < |parts|
        && vertexChunkIndex == placed == reader.vertexChunkIndex == fromVertexChunk
        && found == (if ChunkExists(info, parts, fromVertexChunk, fr / info.chunkSize) then Success(true)
                     else Failure(IOError))
        && (fromVertexChunk == fp && fr < |parts[fp]| ==> found == Success(true) && At(fp, fr))
    }

    /** The decisions of first_*, before any field changes. */
    method Decide(fromGlobal: nat, fromOffset: nat, ghost fp: nat, id: nat)
      returns (outcome: Outcome, beginOffset: nat, beginGlobal: nat)
      requires Valid() && adjListType.Ordered()
      requires FromAt(info, parts, fromGlobal, fromOffset, fp)
      ensures var p, row := PartOf(id), Row(id);
        && outcome == FirstOutcome(info, parts, fp, fromOffset, p, row.0, row.1)
        && (outcome != Missing ==> fp < |parts| && p < |parts| && row.0 < |parts[p]|)
        && (row.0 < row.1 ==> p < |parts| && row.1 <= |parts[p]|)
        && (outcome == ToRow ==>
             beginOffset == row.0 && beginGlobal == ChunkBase(info, parts, p) + row.0 / info.chunkSize)
        && (outcome == Kept ==>
             fromOffset < |parts[fp]| ==> fromGlobal == ChunkBase(info, parts, fp) + fromOffset / info.chunkSize)
    {
      hide Stores, ChunkCount, ChunkBase, ChunkLength, CountsOf, Steps, GetAdjListOffsetOfVertex;
      beginOffset, beginGlobal := 0, 0;
      FromBeforeEnd(info, parts, fromGlobal, fromOffset, fp);
      if fromGlobal >= chunkEnd {
        return Missing, beginOffset, beginGlobal;
      }
      var vertexChunkOfId := id / info.VertexChunkSize(adjListType);
      if vertexChunkOfId >= reader.vertexChunkNum {
        return Missing, beginOffset, beginGlobal;
      }
      ghost var row := RowRange(info, adjListType, reader.files, parts, id);
      var range := GetAdjListOffsetOfVertex(info, reader.files, adjListType, id).value;
      beginOffset := range.0;
      var endOffset := range.1;
      if beginOffset >= endOffset {
        return Missing, beginOffset, beginGlobal;
      }
      beginGlobal := PairToGlobal(info, parts, edgeChunkNums, vertexChunkOfId, beginOffset / info.chunkSize);
      var endGlobal := PairToGlobal(info, parts, edgeChunkNums, vertexChunkOfId, endOffset / info.chunkSize);
      FromAgainstRow(info, parts, fromGlobal, fromOffset, fp, vertexChunkOfId, beginOffset, endOffset);
      if beginGlobal <= fromGlobal <= endGlobal {
        if beginOffset < fromOffset < endOffset {
          outcome := Kept;
        } else if fromOffset <= beginOffset {
          outcome := ToRow;
        } else {
          outcome := Missing;
        }
      } else if fromGlobal < beginGlobal {
        outcome := ToRow;
      } else {
        outcome := Missing;
      }
    }

    /** next_src on an ordered_by_source list, next_dst on an ordered_by_dest list. */
    method NextAligned(ghost p: nat, ghost r: nat) returns (more: Result<bool>)
      requires At(p, r) && adjListType.Ordered()
      requires forall i: nat, k: nat :: i < |parts| && k < |parts[i]| ==> InPart(info, adjListType, parts[i][k], i)
      modifies this, reader
      ensures Valid() && placed == old(placed)
      ensures var (p', r') := AfterRow(info, parts, p, r); StandsAt(p', r')
      ensures r + 1 < |parts[p]| ==>
        more == Success(Key(adjListType, parts[p][r + 1]) == Key(adjListType, parts[p][r])) && At(p, r + 1)
      ensures r + 1 == |parts[p]| && FullTail(info, parts[p]) ==> more.Failure?
      ensures r + 1 == |parts[p]| && !FullTail(info, parts[p]) ==> more == Success(false)
    {
      hide Stores, ChunkCount, ChunkLength, CountsOf, Steps;
      RowBeforeEnd(info, parts, p, r);
      if IsEnd() {
        return Success(false);
      }
      var here := Current();
      assert InPart(info, adjListType, parts[p][r], p);
      ghost var p' := NextPart(parts, p + 1);
      if p' < |parts| {
        assert InPart(info, adjListType, parts[p'][0], p');
      }
      var ok := Increment(p, r);
      if r + 1 < |parts[p]| {
        RowBeforeEnd(info, parts, p, r + 1);
      } else {
        LastRowInLastChunk(info, parts[p], r);
        RowBeforeEnd(info, parts, p, r);
      }
      if IsEnd() {
        return Success(false);
      }
      var there := Current();
      if there.Failure? {
        return Failure(there.error);
      }
      return Success(Key(adjListType, there.value) == Key(adjListType, here.value));
    }

    /**
     * next_src(id) on an ordered_by_source list, next_dst(id) on an ordered_by_dest list: step
     * once, then search from there. The answer is right exactly when the step did not lead
     * into the case that Wraps describes and, when it led into the middle of the vertex's
     * rows, no empty part has been skipped since the last placement.
     */
    method NextTo(ghost p: nat, ghost r: nat, id: nat) returns (found: Result<bool>)
      requires At(p, r) && adjListType.Ordered()
      modifies this, reader
      ensures Valid()
      ensures var (fp, fr), q, row := AfterRow(info, parts, p, r), PartOf(id), Row(id);
        && (Answers(found, fp, fr, q, row.0, row.1) <==> SearchRight(info, parts, old(placed), fp, fr, q, row))
        && (InMiddle(fp, fr, q, row) ==> KeptWith(found, SteppedFrom(parts, old(placed), fp), fr))
    {
      hide ChunkCount, ChunkBase, ChunkLength, CountsOf, RowOrNone, Wraps, FirstOutcome, AfterRow, ChunkExists,
           EdgeIter.StandsAt, EdgeIter.Answers, EdgeIter.At, EdgeIter.Valid, Steps, NoneSkipped, Stores;
      AtIsBeforeEnd(this, p, r);
      if IsEnd() {
        return Success(false);
      }
      AfterRowPart(info, parts, p, r);
      var ok := Increment(p, r);
      ghost var (fp, fr) := AfterRow(info, parts, p, r);
      StandsIsFrom(this, fp, fr);
      found := FirstFromHere(fp, fr, id);
    }

    /** first_src(it, id), first_dst(it, id) called on the iterator itself. */
    method FirstFromHere(ghost fp: nat, ghost fr: nat, id: nat) returns (found: Result<bool>)
      requires Valid() && StandsAt(fp, fr) && fp <= |parts| && (fp == |parts| ==> fr == 0) && adjListType.Ordered()
      modifies this, reader
      ensures Valid()
      ensures var q, row := PartOf(id), Row(id);
        && (Answers(found, fp, fr, q, row.0, row.1) <==> SearchRight(info, parts, old(placed), fp, fr, q, row))
        && (InMiddle(fp, fr, q, row) ==> KeptWith(found, SteppedFrom(parts, old(placed), fp), fr))
    {
      hide ChunkCount, ChunkBase, ChunkLength, CountsOf, RowOrNone, Wraps, FirstOutcome, AfterRow, ChunkExists,
           EdgeIter.StandsAt, EdgeIter.Answers, EdgeIter.Landed, EdgeIter.At, EdgeIter.Valid, Steps, NoneSkipped,
           FromAt, Stores;
      StandsIsFrom(this, fp, fr);
      if fp < |parts| {
        StepsLag(parts, placed, fp);
      }
      ghost var q, row := PartOf(id), Row(id);
      ghost var global, v := globalChunkIndex, vertexChunkIndex;
      OutcomeInMiddle(this, id, fp, fr);
      found := FirstAligned(globalChunkIndex, vertexChunkIndex, curOffset, fp, id);
      if InMiddle(fp, fr, q, row) {
        KeptLanded(this, found, global, v, fp, fr, q, row.0);
      }
    }
  }

  /** The index a refresh would seek to is the reader's part exactly when no empty part was skipped since the last
      placement. */
  lemma IndexIsReadersIff(it: EdgeIter, p: nat, r: nat)
    requires it.At(p, r)
    ensures it.placed <= p < |it.parts| && it.vertexChunkIndex <= it.reader.vertexChunkIndex == p
    ensures it.vertexChunkIndex == it.reader.vertexChunkIndex <==> NoneSkipped(it.parts, it.placed, p)
  {
    StepsLag(it.parts, it.placed, p);
  }

  /** What ++ at row r of part p leads to, as a place of StandsAt. */
  ghost function AfterRow(info: EdgeSizes, parts: seq<seq<Edge>>, p: nat, r: nat): (nat, nat)
    requires info.Validated() && p < |parts| && r < |parts[p]|
  {
    if r + 1 < |parts[p]| || FullTail(info, parts[p]) then (p, r + 1) else (NextPart(parts, p + 1), 0)
  }

  /** The chunk of row r, or the last one for the place behind all rows. */
  ghost function ChunkOfRow(info: EdgeSizes, part: seq<Edge>, r: nat): int
    requires info.Validated()
  {
    if r < |part| then r / info.chunkSize else ChunkCount(info, part) - 1
  }

  /** The public state of an iterator that stands at (fp, fromOffset), or at the end (fp == |parts|). */
  ghost predicate FromAt(info: EdgeSizes, parts: seq<seq<Edge>>, fromGlobal: nat, fromOffset: nat, fp: nat)
    requires info.Validated()
  {
    if fp >= |parts| then fp == |parts| && fromGlobal == ChunkBase(info, parts, |parts|)
    else
      && parts[fp] != [] && fromOffset <= |parts[fp]| && (fromOffset == |parts[fp]| ==> FullTail(info, parts[fp]))
      && fromGlobal == ChunkBase(info, parts, fp) + ChunkOfRow(info, parts[fp], fromOffset)
  }

  lemma StandsIsFrom(it: EdgeIter, p: nat, r: nat)
    requires it.StandsAt(p, r) && p <= |it.parts|
    ensures it.Valid() && it.info.Validated() && Stores(it.info, it.adjListType, it.reader.files, it.parts)
    ensures FromAt(it.info, it.parts, it.globalChunkIndex, it.curOffset, p)
    ensures p < |it.parts| ==> it.Stepped(p) && it.curOffset == r
    ensures p == |it.parts| ==> it.curOffset == 0
  {
  }

  /** The state after a refresh that succeeded where it should is the one the outcome names. */
  lemma HasLanded(it: EdgeIter, outcome: Outcome, found: Result<bool>, fromGlobal: nat, fromVertexChunk: nat,
                  fp: nat, fr: nat, p: nat, b: nat)
    requires it.info.Validated()
    requires outcome == Missing ==> found == Success(false)
    requires outcome != Missing ==>
      && it.vertexChunkIndex < |it.parts| && it.placed == it.vertexChunkIndex == it.reader.vertexChunkIndex
      && found == (if ChunkExists(it.info, it.parts, it.vertexChunkIndex, it.curOffset / it.info.chunkSize)
                   then Success(true) else Failure(IOError))
      && ((it.curOffset < |it.parts[it.vertexChunkIndex]| &&
           it.globalChunkIndex ==
             ChunkBase(it.info, it.parts, it.vertexChunkIndex) + it.curOffset / it.info.chunkSize) ==>
          found == Success(true) && it.At(it.vertexChunkIndex, it.curOffset))
    requires outcome == ToRow ==>
      && p < |it.parts| && b < |it.parts[p]| && it.vertexChunkIndex == p && it.curOffset == b
      && it.globalChunkIndex == ChunkBase(it.info, it.parts, p) + b / it.info.chunkSize
    requires outcome == Kept ==>
      && fp < |it.parts| && it.globalChunkIndex == fromGlobal && it.curOffset == fr
      && it.vertexChunkIndex == fromVertexChunk
      && (fr < |it.parts[fp]| ==> fromGlobal == ChunkBase(it.info, it.parts, fp) + fr / it.info.chunkSize)
    requires it.Valid()
    ensures it.Landed(outcome, found, fromGlobal, fromVertexChunk, fp, fr, p, b)
  {
    hide EdgeIter.At, EdgeIter.Valid, ChunkExists, ChunkBase, ChunkCount;
  }

  lemma KeptLanded(it: EdgeIter, found: Result<bool>, fromGlobal: nat, fromVertexChunk: nat, fp: nat, fr: nat, p: nat,
                   b: nat)
    requires it.info.Validated() && it.Landed(Kept, found, fromGlobal, fromVertexChunk, fp, fr, p, b)
    ensures it.KeptWith(found, fromVertexChunk, fr)
  {
  }

  lemma LandedIsAnswer(it: EdgeIter, found: Result<bool>, fromGlobal: nat, fromVertexChunk: nat,
                       fp: nat, fr: nat, p: nat, b: nat, e: nat)
    requires it.info.Validated() && (b < e ==> p < |it.parts| && e <= |it.parts[p]|)
    requires it.Landed(FirstOutcome(it.info, it.parts, fp, fr, p, b, e),
                       found, fromGlobal, fromVertexChunk, fp, fr, p, b)
    ensures it.Answers(found, fp, fr, p, b, e) <==>
            !(b < e && Wraps(it.info, it.parts, fp, fr, p, e)) && (fp == p && b < fr < e ==> fromVertexChunk == fp)
  {
    hide EdgeIter.Valid, Wraps, FirstOutcome, ChunkLength, ChunkBase, Steps;
    OutcomeIsRight(it.info, it.parts, fp, fr, p, b, e);
  }

  lemma AtIsBeforeEnd(it: EdgeIter, p: nat, r: nat)
    requires it.At(p, r)
    ensures it.Valid() && it.info.Validated() && it.placed <= p < |it.parts| && r < |it.parts[p]| && !it.IsEnd()
  {
    RowBeforeEnd(it.info, it.parts, p, r);
  }

  lemma AfterRowPart(info: EdgeSizes, parts: seq<seq<Edge>>, p: nat, r: nat)
    requires info.Validated() && p < |parts| && r < |parts[p]|
    ensures p <= AfterRow(info, parts, p, r).0 <= |parts|
    ensures AfterRow(info, parts, p, r).0 == |parts| ==> AfterRow(info, parts, p, r).1 == 0
  {
  }

  /** The rows of a vertex in its part; none for an id beyond the last part. */
  ghost function RowOrNone(info: EdgeSizes, t: AdjListType, files: EdgeFiles, parts: seq<seq<Edge>>,
                           id: nat): (nat, nat)
    requires Stores(info, t, files, parts) && t.Ordered()
  {
    if id / info.VertexChunkSize(t) < |parts| then RowRange(info, t, files, parts, id) else (0, 0)
  }

  // ----- what first_* decides -----

  /**
   * The start lies in the first chunk of the part that follows a full tail of the vertex's
   * part, whose last row is the vertex's: the end of the vertex's rows then has the start's
   * global chunk index, and the code compares offsets of different parts.
   */
  ghost predicate Wraps(info: EdgeSizes, parts: seq<seq<Edge>>, fp: nat, fr: nat, p: nat, e: nat)
    requires info.Validated()
  {
    && p < fp < |parts| && e == |parts[p]| && FullTail(info, parts[p])
    && NextPart(parts, p + 1) == fp && ChunkOfRow(info, parts[fp], fr) == 0 && fr < e
  }

  /** The start lies strictly between the first and the end of the vertex's rows. */
  ghost predicate InMiddle(fp: nat, fr: nat, p: nat, row: (nat, nat)) {
    fp == p && row.0 < fr < row.1
  }

  /** vertex_chunk_index_ of an iterator placed in part `placed` that has been stepped on to part p. */
  ghost function SteppedFrom(parts: seq<seq<Edge>>, placed: nat, p: nat): nat {
    if placed <= p < |parts| then placed + Steps(parts, placed, p) else placed
  }

  /** When a search from (fp, fr) by an iterator placed in part `placed` answers rightly. */
  ghost predicate SearchRight(info: EdgeSizes, parts: seq<seq<Edge>>, placed: nat, fp: nat, fr: nat, p: nat,
                              row: (nat, nat))
    requires info.Validated()
  {
    && !(row.0 < row.1 && Wraps(info, parts, fp, fr, p, row.1))
    && (InMiddle(fp, fr, p, row) && placed <= fp < |parts| ==> NoneSkipped(parts, placed, fp))
  }

  /** No row; the vertex's first row; or the start itself, refreshed. */
  datatype Outcome = Missing | ToRow | Kept

  ghost function FirstOutcome(info: EdgeSizes, parts: seq<seq<Edge>>, fp: nat, fr: nat, p: nat, b: nat, e: nat): Outcome
    requires info.Validated()
  {
    if b >= e || !(Before(fp, fr, p, e) || Wraps(info, parts, fp, fr, p, e)) then Missing
    else if b < fr && p <= fp then Kept
    else ToRow
  }

  /** What FirstOutcome means for the answer: it misses nothing, and finds too much exactly when Wraps. */
  lemma OutcomeIsRight(info: EdgeSizes, parts: seq<seq<Edge>>, fp: nat, fr: nat, p: nat, b: nat, e: nat)
    requires info.Validated() && (b < e ==> p < |parts|)
    ensures var o := FirstOutcome(info, parts, fp, fr, p, b, e);
      && (o == Missing <==> b >= e || !(Before(fp, fr, p, e) || Wraps(info, parts, fp, fr, p, e)))
      && (o == Kept ==> b < fr < e && p <= fp < |parts|)
      && (o == ToRow ==> !(fp == p && b < fr))
      && (o == Kept && fp != p ==> Wraps(info, parts, fp, fr, p, e))
      && (fp == p && b < fr < e ==> o == Kept)
      && (Wraps(info, parts, fp, fr, p, e) ==> p < fp)
  {
  }

  /** In the middle of the vertex's rows the start is kept. */
  lemma OutcomeInMiddle(it: EdgeIter, id: nat, fp: nat, fr: nat)
    requires it.Valid() && it.adjListType.Ordered()
    ensures it.info.Validated()
    ensures InMiddle(fp, fr, it.PartOf(id), it.Row(id)) ==>
      && fp < |it.parts|
      && FirstOutcome(it.info, it.parts, fp, fr, it.PartOf(id), it.Row(id).0, it.Row(id).1) == Kept
  {
  }

  /** The comparisons of first_* on global chunk indices and offsets. */
  ghost function CodeOutcome(from: nat, fr: nat, begin: nat, end: nat, b: nat, e: nat): Outcome {
    if begin <= from <= end then
      if b < fr < e then Kept else if fr <= b then ToRow else Missing
    else if from < begin then ToRow
    else Missing
  }

  /** Those comparisons decide as FirstOutcome says. */
  lemma FromAgainstRow(info: EdgeSizes, parts: seq<seq<Edge>>, from: nat, fr: nat, fp: nat, p: nat, b: nat, e: nat)
    requires info.Validated() && FromAt(info, parts, from, fr, fp) && fp < |parts| && p < |parts| && b < e <= |parts[p]|
    ensures var base := ChunkBase(info, parts, p);
      CodeOutcome(from, fr, base + b / info.chunkSize, base + e / info.chunkSize, b, e)
        == FirstOutcome(info, parts, fp, fr, p, b, e)
  {
    hide ChunkCount, ChunkBase, FullTail, NextPart;
    DivMonotone(b, e, info.chunkSize);
    if fp < p {
      FromEarlierPart(info, parts, fp, fr, p, b);
    } else if p < fp {
      FromLaterPart(info, parts, fp, fr, p, e);
    } else {
      FromSamePart(info, parts[p], fr, b, e);
    }
  }

  lemma ChunkOfRowBounds(info: EdgeSizes, part: seq<Edge>, r: nat)
    requires info.Validated() && part != [] && r <= |part|
    ensures 0 <= ChunkOfRow(info, part, r) < ChunkCount(info, part)
  {
    CeilDivExists(|part|, info.chunkSize, 0);
    if r < |part| {
      RowPlace(info, part, r);
    }
  }

  lemma FromEarlierPart(info: EdgeSizes, parts: seq<seq<Edge>>, fp: nat, fr: nat, p: nat, b: nat)
    requires info.Validated() && fp < p < |parts| && parts[fp] != [] && fr <= |parts[fp]|
    ensures ChunkBase(info, parts, fp) + ChunkOfRow(info, parts[fp], fr) <
            ChunkBase(info, parts, p) + b / info.chunkSize
  {
    hide ChunkCount, ChunkBase, ChunkOfRow;
    ChunkOfRowBounds(info, parts[fp], fr);
    ChunkBaseMonotone(info, parts, fp, p);
    DivBounds(b, info.chunkSize);
  }

  /** Seen from a later part, the rows end in an earlier chunk, or in this one exactly behind a full tail. */
  lemma FromLaterPart(info: EdgeSizes, parts: seq<seq<Edge>>, fp: nat, fr: nat, p: nat, e: nat)
    requires info.Validated() && p < fp < |parts| && e <= |parts[p]|
    requires parts[p] != [] && parts[fp] != [] && fr <= |parts[fp]|
    ensures var from := ChunkBase(info, parts, fp) + ChunkOfRow(info, parts[fp], fr);
      var end := ChunkBase(info, parts, p) + e / info.chunkSize;
      && end <= from
      && (end == from <==>
           e == |parts[p]| && FullTail(info, parts[p]) && NextPart(parts, p + 1) == fp
           && ChunkOfRow(info, parts[fp], fr) == 0)
  {
    ChunkOfRowBounds(info, parts[fp], fr);
    EndChunk(info, parts[p], e);
    BaseOfLaterPart(info, parts, p, fp);
  }

  lemma EndChunk(info: EdgeSizes, part: seq<Edge>, e: nat)
    requires info.Validated() && part != [] && e <= |part|
    ensures e / info.chunkSize <= ChunkCount(info, part)
    ensures e / info.chunkSize == ChunkCount(info, part) <==> e == |part| && FullTail(info, part)
  {
    OffsetPastEnd(|part|, info.chunkSize, e);
    DivMonotone(e, |part| + info.chunkSize - 1, info.chunkSize);
  }

  lemma BaseOfLaterPart(info: EdgeSizes, parts: seq<seq<Edge>>, p: nat, fp: nat)
    requires info.Validated() && p < fp < |parts| && parts[fp] != []
    ensures ChunkBase(info, parts, p) + ChunkCount(info, parts[p]) <= ChunkBase(info, parts, fp)
    ensures ChunkBase(info, parts, p) + ChunkCount(info, parts[p]) == ChunkBase(info, parts, fp) <==>
            NextPart(parts, p + 1) == fp
  {
    EmptyPartsHaveNoChunks(info, parts);
    hide ChunkCount;
    var q := NextPart(parts, p + 1);
    ChunkBaseMonotone(info, parts, p, fp);
    ChunkBaseSkips(info, parts, p, q);
    if q < fp {
      ChunkBaseMonotone(info, parts, q, fp);
    }
  }

  lemma FromSamePart(info: EdgeSizes, part: seq<Edge>, fr: nat, b: nat, e: nat)
    requires info.Validated() && b < e <= |part| && fr <= |part|
    ensures fr <= b ==> ChunkOfRow(info, part, fr) <= b / info.chunkSize
    ensures b <= fr ==> b / info.chunkSize <= ChunkOfRow(info, part, fr)
    ensures fr <= e && fr < |part| ==> ChunkOfRow(info, part, fr) <= e / info.chunkSize
  {
    RowPlace(info, part, b);
    DivMonotone(if fr <= b then fr else b, if fr <= b then b else fr, info.chunkSize);
    DivMonotone(if fr <= e then fr else e, if fr <= e then e else fr, info.chunkSize);
  }

  lemma FromBeforeEnd(info: EdgeSizes, parts: seq<seq<Edge>>, from: nat, fr: nat, fp: nat)
    requires info.Validated() && FromAt(info, parts, from, fr, fp)
    ensures from >= ChunkBase(info, parts, |parts|) <==> fp == |parts|
  {
    if fp < |parts| {
      ChunkOfRowBounds(info, parts[fp], fr);
      ChunkBaseMonotone(info, parts, fp, |parts|);
    }
  }

  /** Chunk 0 of a collection is the first chunk of its first non-empty part. */
  lemma FirstGlobalChunk(info: EdgeSizes, parts: seq<seq<Edge>>)
    requires info.Validated() && parts != []
    ensures ChunkBase(info, parts, NextPart(parts, 0)) == 0
    ensures NextPart(parts, 0) < |parts| ==> ChunkExists(info, parts, NextPart(parts, 0), 0)
    ensures NextPart(parts, 0) == |parts| ==> ChunkBase(info, parts, |parts|) == 0 && !ChunkExists(info, parts, 0, 0)
  {
    EmptyPartsHaveNoChunks(info, parts);
    var p := NextPart(parts, 0);
    if p > 0 {
      ChunkBaseSkips(info, parts, 0, p);
    }
  }

  // ----- inputs on which first_* and next_*(id) answer wrongly -----

  /** Vertex 0 has a full tail in part 0; a search for it from part 1 jumps back. */
  lemma FirstJumpsBack()
    ensures var info, parts := EdgeSizes(2, 1, 1), [[Edge(0, 0), Edge(0, 1)], [Edge(1, 0)]];
      && FromAt(info, parts, 1, 0, 1)
      && Wraps(info, parts, 1, 0, 0, 2) && !Before(1, 0, 0, 2)
      && FirstOutcome(info, parts, 1, 0, 0, 0, 2) == ToRow
  {
    var info, parts := EdgeSizes(2, 1, 1), [[Edge(0, 0), Edge(0, 1)], [Edge(1, 0)]];
    assert ChunkBase(info, parts, 0) == 0 && ChunkCount(info, parts[0]) == 1;
    assert ChunkBase(info, parts, 1) == 1;
    assert NextPart(parts, 1) == 1;
  }

  /** Behind the empty part 1 the index lags by one: a search in the middle of vertex 2's rows reads part 1 and
      throws. */
  lemma NextToThrows()
    ensures var info, parts := EdgeSizes(4, 1, 1), [[Edge(0, 0)], [], [Edge(2, 0), Edge(2, 1)]];
      && AfterRow(info, parts, 0, 0) == (2, 0) && AfterRow(info, parts, 2, 0) == (2, 1)
      && !NoneSkipped(parts, 0, 2) && 0 + Steps(parts, 0, 2) == 1
      && !ChunkExists(info, parts, 1, 1 / info.chunkSize)
  {
    var info, parts := EdgeSizes(4, 1, 1), [[Edge(0, 0)], [], [Edge(2, 0), Edge(2, 1)]];
    assert parts[1] == [] && ChunkCount(info, parts[1]) == 0;
    assert Steps(parts, 0, 1) == 0;
    assert NextPart(parts, 1) == 2;
  }

  /** One part later the lagging index names a part with edges: the search for vertex 3 reads an edge of vertex 2. */
  lemma NextToReadsWrongRow()
    ensures var info := EdgeSizes(4, 1, 1);
      var parts := [[Edge(0, 0)], [], [Edge(2, 0), Edge(2, 1)], [Edge(3, 0), Edge(3, 1)]];
      && AfterRow(info, parts, 0, 0) == (2, 0) && AfterRow(info, parts, 2, 0) == (2, 1)
      && AfterRow(info, parts, 2, 1) == (3, 0) && AfterRow(info, parts, 3, 0) == (3, 1)
      && 0 + Steps(parts, 0, 3) == 2 && ChunkExists(info, parts, 2, 1 / info.chunkSize) && parts[2][1].src == 2
  {
    var info := EdgeSizes(4, 1, 1);
    var parts := [[Edge(0, 0)], [], [Edge(2, 0), Edge(2, 1)], [Edge(3, 0), Edge(3, 1)]];
    assert ChunkCount(info, parts[2]) == 1;
    assert Steps(parts, 0, 1) == 0;
    assert Steps(parts, 0, 2) == 1;
    assert NextPart(parts, 1) == 2;
    assert NextPart(parts, 3) == 3;
  }

  // ----- walking a collection -----

  lemma RowBeforeEnd(info: EdgeSizes, parts: seq<seq<Edge>>, p: nat, r: nat)
    requires info.Validated() && p < |parts| && r < |parts[p]|
    ensures ChunkBase(info, parts, p) + r / info.chunkSize < ChunkBase(info, parts, |parts|)
  {
    RowPlace(info, parts[p], r);
    ChunkBaseMonotone(info, parts, p, |parts|);
  }

  /** Where a traversal stands: at row k of part p, at the end (p == |parts|), or stuck in part p. */
  ghost predicate Stands(it: EdgeIter, p: nat, k: nat, stuck: bool)
    reads it, it.reader
  {
    if stuck then it.Stuck(p) else if p < |it.parts| then it.At(p, k) else it.AtEnd()
  }

  /** What the loop guard `it != end` sees of a standing place. */
  ghost predicate GuardSees(it: EdgeIter, p: nat, stuck: bool)
    reads it
  {
    if stuck then it.curOffset != 0
    else if p < |it.parts| then it.globalChunkIndex < it.chunkEnd
    else it.globalChunkIndex == it.chunkEnd && it.curOffset == 0
  }

  lemma StandsGuard(it: EdgeIter, p: nat, k: nat, stuck: bool)
    requires Stands(it, p, k, stuck)
    ensures GuardSees(it, p, stuck)
  {
    if !stuck && p < |it.parts| {
      RowBeforeEnd(it.info, it.parts, p, k);
    }
  }

  /** The iterator a traversal starts with. */
  method Start(info: EdgeSizes, t: AdjListType, files: EdgeFiles, edgeChunkNums: seq<nat>, ghost parts: seq<seq<Edge>>)
    returns (it: EdgeIter)
    requires Stores(info, t, files, parts) && parts != [] && CountsOf(info, parts, edgeChunkNums)
    ensures fresh(it) && fresh(it.reader) && it.info == info && it.parts == parts
    ensures it.adjListType == t && it.reader.files == files
    ensures Stands(it, NextPart(parts, 0), 0, false) && GuardSees(it, NextPart(parts, 0), false)
  {
    it := new EdgeIter.Begin(info, t, files, edgeChunkNums, parts);
    StandsGuard(it, NextPart(parts, 0), 0, false);
  }

  /** Reading the edge at the traversal's standing place. */
  method Deliver(it: EdgeIter, ghost p: nat, ghost k: nat, ghost stuck: bool) returns (e: Result<Edge>)
    requires Stands(it, p, k, stuck) && p < |it.parts|
    modifies it.reader
    ensures Stands(it, p, k, stuck)
    ensures stuck ==> e.Failure?
    ensures !stuck && p < |it.parts| ==> k < |it.parts[p]| && e == Success(it.parts[p][k])
  {
    hide Stores, ChunkCount, CountsOf;
    e := it.Current();
  }

  /** ++it, with the traversal's next standing place. */
  method Advance(it: EdgeIter, ghost p: nat, ghost k: nat) returns (ghost p': nat, ghost k': nat, ghost stuck: bool)
    requires p < |it.parts| && Stands(it, p, k, false)
    modifies it, it.reader
    ensures it.info.Validated() && k < |it.parts[p]|
    ensures Stands(it, p', k', stuck) && GuardSees(it, p', stuck)
    ensures stuck ==> p' == p && FullTail(it.info, it.parts[p])
    ensures !stuck ==> p <= p' <= |it.parts| && Rest(it.parts, p, k) == [it.parts[p][k]] + Rest(it.parts, p', k')
    ensures !stuck ==> forall i: nat :: p <= i < p' ==> !FullTail(it.info, it.parts[i])
  {
    hide Stores, ChunkCount, CountsOf, Flatten, Rest, EdgeIter.Stuck, EdgeIter.AtEnd;
    RestStep(it.parts, p, k);
    p', k', stuck := p, k + 1, false;
    if k + 1 == |it.parts[p]| {
      stuck := FullTail(it.info, it.parts[p]);
      if !stuck {
        p', k' := NextPart(it.parts, p + 1), 0;
      }
    }
    var _ := it.Increment(p, k);
    StandsGuard(it, p', k', stuck);
  }

  /** What a traversal has collected when it stands at row k of part p, or is stuck in part p. */
  ghost predicate Collected(info: EdgeSizes, parts: seq<seq<Edge>>, rows: seq<Edge>, p: nat, k: nat, stuck: bool)
    requires info.Validated()
  {
    if stuck then
      p < |parts| && FullTail(info, parts[p])
    else
      && p <= |parts|
      && (forall i: nat :: i < p ==> !FullTail(info, parts[i]))
      && rows + Rest(parts, p, k) == Flatten(parts)
  }

  lemma CollectedNothing(info: EdgeSizes, parts: seq<seq<Edge>>)
    requires info.Validated() && parts != []
    ensures Collected(info, parts, [], NextPart(parts, 0), 0, false)
  {
    assert forall i: nat :: i < |parts| && parts[i] == [] ==> !FullTail(info, parts[i]);
    RestSkipsEmpty(parts, 0);
    assert parts[0..] == parts;
  }

  lemma CollectedMore(info: EdgeSizes, parts: seq<seq<Edge>>, rows: seq<Edge>, p: nat, k: nat, p': nat, k': nat)
    requires info.Validated() && Collected(info, parts, rows, p, k, false)
    requires p < |parts| && k < |parts[p]| && p <= p' <= |parts|
    requires Rest(parts, p, k) == [parts[p][k]] + Rest(parts, p', k')
    requires forall i: nat :: p <= i < p' ==> !FullTail(info, parts[i])
    ensures Collected(info, parts, rows + [parts[p][k]], p', k', false)
    ensures |Rest(parts, p', k')| < |Rest(parts, p, k)|
  {
    assert rows + ([parts[p][k]] + Rest(parts, p', k')) == (rows + [parts[p][k]]) + Rest(parts, p', k');
  }

  lemma CollectedAll(info: EdgeSizes, parts: seq<seq<Edge>>, rows: seq<Edge>, k: nat)
    requires info.Validated() && Collected(info, parts, rows, |parts|, k, false)
    ensures rows == Flatten(parts) && forall i: nat :: i < |parts| ==> !FullTail(info, parts[i])
  {
    RestAtEnd(parts, |parts|, k);
  }

  /**
   * `for (it = begin; it != end; ++it)` as in the stream examples: it delivers every edge
   * once, in storage order, exactly when no part ends on a full chunk; otherwise it throws.
   */
  method CollectEdges(info: EdgeSizes, t: AdjListType, files: EdgeFiles, edgeChunkNums: seq<nat>,
                      ghost parts: seq<seq<Edge>>)
    returns (r: Result<seq<Edge>>)
    requires Stores(info, t, files, parts) && parts != [] && CountsOf(info, parts, edgeChunkNums)
    ensures r.Success? <==> forall i: nat :: i < |parts| ==> !FullTail(info, parts[i])
    ensures r.Success? ==> r.value == Flatten(parts)
  {
    CollectedNothing(info, parts);
    hide Stores, ChunkCount, CountsOf, FullTail, Flatten, Rest, EdgeIter.At, EdgeIter.Stuck, EdgeIter.AtEnd,
         EdgeIter.Valid, Stands;
    var it := Start(info, t, files, edgeChunkNums, parts);
    var rows: seq<Edge> := [];
    ghost var p: nat, k: nat, stuck := NextPart(parts, 0), 0, false;
    while it.globalChunkIndex != it.chunkEnd || it.curOffset != 0
      invariant it.info == info && it.parts == parts && fresh(it) && fresh(it.reader)
      invariant Stands(it, p, k, stuck) && GuardSees(it, p, stuck)
      invariant Collected(info, parts, rows, p, k, stuck)
      decreases !stuck, |Rest(parts, p, k)|
    {
      var e := Deliver(it, p, k, stuck);
      if e.Failure? {
        return Failure(e.error);
      }
      ghost var p', k';
      p', k', stuck := Advance(it, p, k);
      if !stuck {
        CollectedMore(info, parts, rows, p, k, p', k');
      }
      rows := rows + [e.value];
      p, k := p', k';
    }
    CollectedAll(info, parts, rows, k);
    return Success(rows);
  }

  /** do { ... } while (it.next_src()) from the first edge of a vertex. */
  method WalkRow(it: EdgeIter, ghost p: nat, ghost b: nat, ghost e: nat, ghost id: nat) returns (r: Result<seq<Edge>>)
    requires it.At(p, b) && it.adjListType.Ordered() && b < e <= |it.parts[p]|
    requires forall i: nat, k: nat :: i < |it.parts| && k < |it.parts[i]| ==>
      InPart(it.info, it.adjListType, it.parts[i][k], i)
    requires forall k :: 0 <= k < |it.parts[p]| ==> (b <= k < e <==> Key(it.adjListType, it.parts[p][k]) == id)
    modifies it, it.reader
    ensures it.info.Validated()
    ensures r.Failure? <==> e == |it.parts[p]| && FullTail(it.info, it.parts[p])
    ensures r.Success? ==> r.value == it.parts[p][b..e]
  {
    hide Stores, ChunkCount, ChunkLength, ChunkBase, CountsOf, FullTail;
    ghost var part := it.parts[p];
    var rows: seq<Edge> := [];
    ghost var k := b;
    var more := true;
    while more
      invariant more ==> it.At(p, k) && b <= k < e
      invariant k <= e && rows == part[b..k]
      invariant !more ==> k == e && !(e == |part| && FullTail(it.info, part))
      decreases e - k, more
    {
      var edge := it.Current();
      rows := rows + [edge.value];
      var next := it.NextAligned(p, k);
      if next.Failure? {
        return Failure(next.error);
      }
      more := next.value;
      k := k + 1;
    }
    return Success(rows);
  }

  /**
   * first_src followed by do/while next_src on an ordered_by_source list (or the dst pair on
   * an ordered_by_dest list), started from begin: found iff the vertex has an edge, and each
   * of its edges is visited once, in order. It throws exactly when the vertex's edges end a
   * part on a full chunk.
   */
  method VisitRow(info: EdgeSizes, t: AdjListType, files: EdgeFiles, edgeChunkNums: seq<nat>,
                  ghost parts: seq<seq<Edge>>, id: nat)
    returns (r: Result<seq<Edge>>)
    requires Stores(info, t, files, parts) && parts != [] && CountsOf(info, parts, edgeChunkNums)
    requires t.Ordered()
    requires forall i: nat, k: nat :: i < |parts| && k < |parts[i]| ==> InPart(info, t, parts[i][k], i)
    ensures id / info.VertexChunkSize(t) >= |parts| ==> r == Success([])
    ensures id / info.VertexChunkSize(t) < |parts| ==>
      var part := parts[id / info.VertexChunkSize(t)];
      var range := RowRange(info, t, files, parts, id);
      && (r.Failure? <==> range.0 < range.1 == |part| && FullTail(info, part))
      && (r.Success? ==> r.value == part[range.0..range.1])
  {
    var p := id / info.VertexChunkSize(t);
    if p >= GetVertexChunkNum(info, files, t) {
      return Success([]);
    }
    ghost var range := RowRange(info, t, files, parts, id);
    var it := Start(info, t, files, edgeChunkNums, parts);
    ghost var fp := NextPart(parts, 0);
    if it.IsEnd() {
      return Success([]);
    }
    var ok, found := FirstFromBegin(it, fp, p, range.0, range.1, id);
    if !found {
      return Success([]);
    }
    r := WalkRow(it, p, range.0, range.1, id);
  }

  /** first_src(begin, id). */
  method FirstFromBegin(it: EdgeIter, ghost fp: nat, ghost p: nat, ghost b: nat, ghost e: nat, id: nat)
    returns (ok: bool, found: bool)
    requires fp == NextPart(it.parts, 0) < |it.parts| && it.At(fp, 0) && it.adjListType.Ordered()
    requires p == id / it.info.VertexChunkSize(it.adjListType) < |it.parts|
    requires (b, e) == RowRange(it.info, it.adjListType, it.reader.files, it.parts, id)
    modifies it, it.reader
    ensures ok && (found <==> b < e) && (found ==> it.At(p, b))
  {
    hide Steps, ChunkBase, ChunkCount, Stores, CountsOf;
    StandsIsFrom(it, fp, 0);
    StepsLag(it.parts, it.placed, fp);
    var r := it.FirstAligned(it.globalChunkIndex, it.vertexChunkIndex, it.curOffset, fp, id);
    assert b < e ==> fp <= p;
    ok, found := r.Success?, r.Success? && r.value;
  }
}
