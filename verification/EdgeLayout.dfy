/**
 * The storage format of one adjacency list: edges partitioned by vertex chunk, each part
 * cut into edge chunks of fixed size, with an offset table per part when it is ordered;
 * and the helper functions that read it back (cpp/src/graphar/reader_util.cc).
 */
module EdgeLayout {
  import opened Arith
  import opened Graph
  import opened Results
  import opened Types

  /** The sizes an edge info fixes. */
  datatype EdgeSizes = EdgeSizes(chunkSize: nat, srcChunkSize: nat, dstChunkSize: nat) {
    predicate Validated() {
      chunkSize > 0 && srcChunkSize > 0 && dstChunkSize > 0
    }

    function VertexChunkSize(t: AdjListType): nat {
      if t.BySource() then srcChunkSize else dstChunkSize
    }
  }

  /** The files of one adjacency list; a missing key is a missing file. */
  datatype EdgeFiles = EdgeFiles(
    vertexCount: nat,
    edgeCount: map<nat, nat>,
    offset: map<nat, seq<nat>>,
    adjList: map<(nat, nat), seq<Edge>>)

  /** The vertex id that decides where an edge is stored. */
  function Key(t: AdjListType, e: Edge): nat {
    if t.BySource() then e.src else e.dst
  }

  // ----- reader_util -----

  function GetVertexChunkNum(info: EdgeSizes, files: EdgeFiles, t: AdjListType): nat
    requires info.Validated()
  {
    CeilDiv(files.vertexCount, info.VertexChunkSize(t))
  }

  function GetEdgeNum(files: EdgeFiles, part: nat): Result<nat> {
    if part in files.edgeCount then Success(files.edgeCount[part]) else Failure(IOError)
  }

  function GetEdgeChunkNum(info: EdgeSizes, files: EdgeFiles, part: nat): Result<nat>
    requires info.Validated()
  {
    match GetEdgeNum(files, part)
    case Success(num) => Success(CeilDiv(num, info.chunkSize))
    case Failure(e) => Failure(e)
  }

  /** The [begin, end) range of vid's edges inside its part. */
  function GetAdjListOffsetOfVertex(info: EdgeSizes, files: EdgeFiles, t: AdjListType, vid: nat): Result<(nat, nat)>
    requires info.Validated()
  {
    if !t.Ordered() then Failure(Invalid)
    else
      var offsetChunkIndex := vid / info.VertexChunkSize(t);
      var offsetInFile := vid % info.VertexChunkSize(t);
      if offsetChunkIndex !in files.offset || offsetInFile + 1 >= |files.offset[offsetChunkIndex]| then
        Failure(IOError)
      else
        Success((files.offset[offsetChunkIndex][offsetInFile], files.offset[offsetChunkIndex][offsetInFile + 1]))
  }

  // ----- the layout -----

  ghost function ChunkCount(info: EdgeSizes, part: seq<Edge>): nat
    requires info.Validated()
  {
    CeilDiv(|part|, info.chunkSize)
  }

  function Min(a: nat, b: nat): nat {
    if a < b then a else b
  }

  /** Rows j*chunkSize .. (j+1)*chunkSize of a part, clipped to its end. */
  ghost function ChunkRows(info: EdgeSizes, part: seq<Edge>, j: nat): seq<Edge>
    requires info.Validated() && j * info.chunkSize <= |part|
  {
    part[j * info.chunkSize .. Min(j * info.chunkSize + info.chunkSize, |part|)]
  }

  ghost predicate SortedByKey(t: AdjListType, part: seq<Edge>) {
    forall i, j :: 0 <= i < j < |part| ==> Key(t, part[i]) <= Key(t, part[j])
  }

  /** offsets[k] splits a part into the edges of vertices below first + k and the rest. */
  ghost predicate SplitsAt(t: AdjListType, part: seq<Edge>, at: nat, vid: nat) {
    && at <= |part|
    && (forall j :: 0 <= j < at ==> Key(t, part[j]) < vid)
    && (forall j :: at <= j < |part| ==> Key(t, part[j]) >= vid)
  }

  ghost predicate OffsetsFor(t: AdjListType, part: seq<Edge>, offsets: seq<nat>, first: nat, size: nat) {
    && |offsets| == size + 1
    && forall k :: 0 <= k <= size ==> SplitsAt(t, part, offsets[k], first + k)
  }

  /** The chunk files of part i are exactly the pieces of `part`. */
  ghost predicate StoresPart(info: EdgeSizes, files: EdgeFiles, part: seq<Edge>, i: nat)
    requires info.Validated()
  {
    && i in files.edgeCount && files.edgeCount[i] == |part|
    && (forall j: nat :: (i, j) in files.adjList <==> j < ChunkCount(info, part))
    && (forall j: nat :: (i, j) in files.adjList && j * info.chunkSize <= |part| ==>
         files.adjList[(i, j)] == ChunkRows(info, part, j))
  }

  /** The files hold the given parts in the prescribed layout. */
  ghost predicate Stores(info: EdgeSizes, t: AdjListType, files: EdgeFiles, parts: seq<seq<Edge>>) {
    && info.Validated()
    && |parts| == GetVertexChunkNum(info, files, t)
    && (forall i: nat :: i < |parts| ==> StoresPart(info, files, parts[i], i))
    && (t.Ordered() ==> forall i: nat :: i < |parts| ==>
         && i in files.offset
         && OffsetsFor(t, parts[i], files.offset[i], i * info.VertexChunkSize(t), info.VertexChunkSize(t)))
  }

  /** Edge e belongs to part i. */
  ghost predicate InPart(info: EdgeSizes, t: AdjListType, e: Edge, i: nat)
    requires info.Validated()
  {
    Key(t, e) / info.VertexChunkSize(t) == i
  }

  ghost function Flatten<T>(parts: seq<seq<T>>): seq<T> {
    if parts == [] then [] else parts[0] + Flatten(parts[1..])
  }

  /** `parts` is the edge list partitioned by vertex chunk (and sorted, for ordered types). */
  ghost predicate IsPartition(info: EdgeSizes, t: AdjListType, edges: seq<Edge>, parts: seq<seq<Edge>>)
    requires info.Validated()
  {
    && multiset(Flatten(parts)) == multiset(edges)
    && (forall i: nat, k: nat :: i < |parts| && k < |parts[i]| ==> InPart(info, t, parts[i][k], i))
    && (t.Ordered() ==> forall i: nat :: i < |parts| ==> SortedByKey(t, parts[i]))
  }

  lemma FlattenAppend<T>(a: seq<seq<T>>, b: seq<seq<T>>)
    ensures Flatten(a + b) == Flatten(a) + Flatten(b)
  {
    if a == [] {
      assert a + b == b;
    } else {
      assert (a + b)[1..] == a[1..] + b;
      FlattenAppend(a[1..], b);
    }
  }

  lemma {:induction false} MemberOfFlatten(parts: seq<seq<Edge>>, e: Edge)
    ensures e in Flatten(parts) <==> exists i :: 0 <= i < |parts| && e in parts[i]
  {
    if parts != [] {
      MemberOfFlatten(parts[1..], e);
      if e in parts[0] {
        assert 0 < |parts| && e in parts[0];
      }
      assert forall i :: 1 <= i < |parts| ==> parts[i] == parts[1..][i - 1];
    }
  }

  // ----- random access by vertex -----

  /**
   * For every vertex id of the list the offset table returns the range that holds exactly
   * that vertex's edges, inside the part of its vertex chunk.
   */
  lemma OffsetSelectsVertex(info: EdgeSizes, t: AdjListType, files: EdgeFiles, parts: seq<seq<Edge>>, vid: nat)
    requires Stores(info, t, files, parts) && t.Ordered()
    requires vid / info.VertexChunkSize(t) < |parts|
    ensures var r := GetAdjListOffsetOfVertex(info, files, t, vid);
      var part := parts[vid / info.VertexChunkSize(t)];
      && r.Success?
      && r.value.0 <= r.value.1 <= |part|
      && forall k :: 0 <= k < |part| ==> (r.value.0 <= k < r.value.1 <==> Key(t, part[k]) == vid)
  {
    var size := info.VertexChunkSize(t);
    var i, d := vid / size, vid % size;
    DivBounds(vid, size);
    assert SplitsAt(t, parts[i], files.offset[i][d], i * size + d);
    assert SplitsAt(t, parts[i], files.offset[i][d + 1], i * size + (d + 1));
    var b, e := files.offset[i][d], files.offset[i][d + 1];
    if e < |parts[i]| {
      assert Key(t, parts[i][e]) >= vid + 1;
    }
  }

  /** The offset itself is where the edges of vertices below vid end, whether vid has an edge or not. */
  lemma OffsetSplitsPart(info: EdgeSizes, t: AdjListType, files: EdgeFiles, parts: seq<seq<Edge>>, vid: nat)
    requires Stores(info, t, files, parts) && t.Ordered()
    requires vid / info.VertexChunkSize(t) < |parts|
    ensures var r := GetAdjListOffsetOfVertex(info, files, t, vid);
      r.Success? && SplitsAt(t, parts[vid / info.VertexChunkSize(t)], r.value.0, vid)
  {
    var size := info.VertexChunkSize(t);
    DivBounds(vid, size);
    assert SplitsAt(t, parts[vid / size], files.offset[vid / size][vid % size], vid / size * size + vid % size);
  }

  /** There are no offsets in an unordered list, and none without the file. */
  lemma OffsetFails(info: EdgeSizes, files: EdgeFiles, t: AdjListType, vid: nat)
    requires info.Validated()
    ensures !t.Ordered() ==> GetAdjListOffsetOfVertex(info, files, t, vid) == Failure(Invalid)
    ensures t.Ordered() && vid / info.VertexChunkSize(t) !in files.offset ==>
      GetAdjListOffsetOfVertex(info, files, t, vid) == Failure(IOError)
  {
  }

  /** The rows of vid's edges inside its part. */
  ghost function RowRange(info: EdgeSizes, t: AdjListType, files: EdgeFiles, parts: seq<seq<Edge>>,
                          vid: nat): (r: (nat, nat))
    requires Stores(info, t, files, parts) && t.Ordered()
    requires vid / info.VertexChunkSize(t) < |parts|
    ensures GetAdjListOffsetOfVertex(info, files, t, vid) == Success(r)
    ensures var part := parts[vid / info.VertexChunkSize(t)];
      && r.0 <= r.1 <= |part|
      && forall k :: 0 <= k < |part| ==> (r.0 <= k < r.1 <==> Key(t, part[k]) == vid)
  {
    OffsetSelectsVertex(info, t, files, parts, vid);
    GetAdjListOffsetOfVertex(info, files, t, vid).value
  }

  /** Any id below vertex_count is in an existing part. */
  lemma VertexInPart(info: EdgeSizes, t: AdjListType, files: EdgeFiles, parts: seq<seq<Edge>>, vid: nat)
    requires Stores(info, t, files, parts) && vid < files.vertexCount
    ensures vid / info.VertexChunkSize(t) < |parts|
  {
    RowInChunk(files.vertexCount, info.VertexChunkSize(t), vid);
  }

  /**
   * Neighbouring ranges tile a part: the first starts at 0, each ends where the next one
   * starts, and the last ends at the end of the part.
   */
  lemma OffsetsTilePart(info: EdgeSizes, t: AdjListType, files: EdgeFiles, parts: seq<seq<Edge>>, i: nat, d: nat)
    requires Stores(info, t, files, parts) && t.Ordered() && i < |parts|
    requires forall k: nat :: k < |parts[i]| ==> InPart(info, t, parts[i][k], i)
    requires d < info.VertexChunkSize(t)
    ensures var size := info.VertexChunkSize(t);
      var r := GetAdjListOffsetOfVertex(info, files, t, i * size + d);
      && r.Success?
      && (d == 0 ==> r.value.0 == 0)
      && (d + 1 == size ==> r.value.1 == |parts[i]|)
      && (d + 1 < size ==>
           var s := GetAdjListOffsetOfVertex(info, files, t, i * size + d + 1);
           s.Success? && s.value.0 == r.value.1)
  {
    var size, part := info.VertexChunkSize(t), parts[i];
    DivUnique(i * size + d, size, i);
    if d + 1 < size {
      DivUnique(i * size + d + 1, size, i);
    }
    assert SplitsAt(t, part, files.offset[i][0], i * size + 0);
    assert SplitsAt(t, part, files.offset[i][size], i * size + size);
    if 0 < files.offset[i][0] {
      DivBounds(Key(t, part[0]), size);
      assert InPart(info, t, part[0], i);
    }
    if files.offset[i][size] < |part| {
      var last := part[files.offset[i][size]];
      assert InPart(info, t, last, i);
      DivBounds(Key(t, last), size);
    }
  }
}
