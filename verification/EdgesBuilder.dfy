/**
 * Writing an adjacency list: edges are collected per vertex chunk, sorted, indexed by an
 * offset table and cut into chunk files (cpp/src/graphar/high-level/edges_builder.cc,
 * cpp/src/graphar/arrow/chunk_writer.cc).
 */
module EdgesBuilders {
  import opened Arith
  import opened EdgeLayout
  import opened Graph
  import opened Types

  /** The edges of part i among `edges`, in insertion order. */
  ghost function PartOf(info: EdgeSizes, t: AdjListType, edges: seq<Edge>, i: nat): seq<Edge>
    requires info.Validated()
  {
    if edges == [] then []
    else
      var rest := PartOf(info, t, edges[..|edges| - 1], i);
      if InPart(info, t, edges[|edges| - 1], i) then rest + [edges[|edges| - 1]] else rest
  }

  lemma {:induction false} PartOfInPart(info: EdgeSizes, t: AdjListType, edges: seq<Edge>, i: nat)
    requires info.Validated()
    ensures forall k: nat :: k < |PartOf(info, t, edges, i)| ==> InPart(info, t, PartOf(info, t, edges, i)[k], i)
  {
    if edges != [] {
      PartOfInPart(info, t, edges[..|edges| - 1], i);
    }
  }

  /** The first m parts of an edge list. */
  ghost function PartsOf(info: EdgeSizes, t: AdjListType, edges: seq<Edge>, m: nat): (parts: seq<seq<Edge>>)
    requires info.Validated()
    ensures |parts| == m
  {
    seq(m, i requires 0 <= i < m => PartOf(info, t, edges, i))
  }

  lemma {:induction false} FlattenUpdate(parts: seq<seq<Edge>>, p: nat, e: Edge)
    requires p < |parts|
    ensures multiset(Flatten(parts[p := parts[p] + [e]])) == multiset(Flatten(parts)) + multiset{e}
  {
    if p == 0 {
      assert parts[0 := parts[0] + [e]][1..] == parts[1..];
    } else {
      assert parts[p := parts[p] + [e]][1..] == parts[1..][p - 1 := parts[1..][p - 1] + [e]];
      FlattenUpdate(parts[1..], p - 1, e);
    }
  }

  lemma FlattenEmpty(parts: seq<seq<Edge>>)
    requires forall i :: 0 <= i < |parts| ==> parts[i] == []
    ensures Flatten(parts) == []
  {
  }

  /** Partitioning loses and invents nothing, as long as every key has its part. */
  lemma {:induction false} PartsHoldEdges(info: EdgeSizes, t: AdjListType, edges: seq<Edge>, m: nat)
    requires info.Validated()
    requires forall k :: 0 <= k < |edges| ==> Key(t, edges[k]) / info.VertexChunkSize(t) < m
    ensures multiset(Flatten(PartsOf(info, t, edges, m))) == multiset(edges)
  {
    if edges == [] {
      FlattenEmpty(PartsOf(info, t, edges, m));
    } else {
      var init, e := edges[..|edges| - 1], edges[|edges| - 1];
      PartsHoldEdges(info, t, init, m);
      var p := Key(t, e) / info.VertexChunkSize(t);
      var parts := PartsOf(info, t, init, m);
      assert PartsOf(info, t, edges, m) == parts[p := parts[p] + [e]];
      FlattenUpdate(parts, p, e);
      assert edges == init + [e];
    }
  }

  lemma {:induction false} FlattenPermuted(a: seq<seq<Edge>>, b: seq<seq<Edge>>)
    requires |a| == |b| && forall i :: 0 <= i < |a| ==> multiset(a[i]) == multiset(b[i])
    ensures multiset(Flatten(a)) == multiset(Flatten(b))
  {
    if a != [] {
      FlattenPermuted(a[1..], b[1..]);
    }
  }

  function Insert(t: AdjListType, sorted: seq<Edge>, e: Edge): seq<Edge> {
    if sorted == [] || Key(t, sorted[|sorted| - 1]) <= Key(t, e) then sorted + [e]
    else Insert(t, sorted[..|sorted| - 1], e) + [sorted[|sorted| - 1]]
  }

  lemma {:induction false} InsertKeepsElements(t: AdjListType, sorted: seq<Edge>, e: Edge)
    ensures multiset(Insert(t, sorted, e)) == multiset(sorted) + multiset{e}
  {
    if sorted != [] && Key(t, sorted[|sorted| - 1]) > Key(t, e) {
      InsertKeepsElements(t, sorted[..|sorted| - 1], e);
      assert sorted == sorted[..|sorted| - 1] + [sorted[|sorted| - 1]];
    }
  }

  lemma {:induction false} InsertSorts(t: AdjListType, sorted: seq<Edge>, e: Edge, bound: nat)
    requires SortedByKey(t, sorted) && Key(t, e) <= bound
    requires forall k :: 0 <= k < |sorted| ==> Key(t, sorted[k]) <= bound
    ensures SortedByKey(t, Insert(t, sorted, e))
    ensures forall k :: 0 <= k < |Insert(t, sorted, e)| ==> Key(t, Insert(t, sorted, e)[k]) <= bound
  {
    if sorted != [] && Key(t, sorted[|sorted| - 1]) > Key(t, e) {
      InsertSorts(t, sorted[..|sorted| - 1], e, Key(t, sorted[|sorted| - 1]));
    }
  }

  /** Stands for std::sort with cmp_src or cmp_dst: some permutation sorted by key. */
  method SortByKey(t: AdjListType, edges: seq<Edge>) returns (sorted: seq<Edge>)
    ensures SortedByKey(t, sorted) && multiset(sorted) == multiset(edges)
  {
    sorted := [];
    for i := 0 to |edges|
      invariant SortedByKey(t, sorted) && multiset(sorted) == multiset(edges[..i])
    {
      assert edges[..i + 1] == edges[..i] + [edges[i]];
      InsertKeepsElements(t, sorted, edges[i]);
      var last := if sorted == [] then 0 else Key(t, sorted[|sorted| - 1]);
      InsertSorts(t, sorted, edges[i], last + Key(t, edges[i]));
      sorted := Insert(t, sorted, edges[i]);
    }
    assert edges[..|edges|] == edges;
  }

  /** getOffsetTable: one scan over a sorted part yields the offset of every vertex of its chunk. */
  method GetOffsetTable(t: AdjListType, edges: seq<Edge>, vertexChunkIndex: nat, vertexChunkSize: nat)
    returns (offsets: seq<nat>)
    requires SortedByKey(t, edges) && vertexChunkSize > 0
    requires forall k :: 0 <= k < |edges| ==> Key(t, edges[k]) / vertexChunkSize == vertexChunkIndex
    ensures OffsetsFor(t, edges, offsets, vertexChunkIndex * vertexChunkSize, vertexChunkSize)
  {
    var beginIndex := vertexChunkIndex * vertexChunkSize;
    var endIndex := beginIndex + vertexChunkSize;
    forall k | 0 <= k < |edges| ensures Key(t, edges[k]) >= beginIndex {
      DivBounds(Key(t, edges[k]), vertexChunkSize);
    }
    offsets := [0];
    var index: nat := 0;
    for i := beginIndex to endIndex
      invariant |offsets| == i - beginIndex + 1 && offsets[|offsets| - 1] == index
      invariant forall k :: 0 <= k < |offsets| ==> SplitsAt(t, edges, offsets[k], beginIndex + k)
    {
      assert SplitsAt(t, edges, offsets[|offsets| - 1], beginIndex + (|offsets| - 1));
      while index < |edges|
        invariant index <= |edges| && forall j :: 0 <= j < index ==> Key(t, edges[j]) <= i
      {
        var x := Key(t, edges[index]);
        if x <= i {
          index := index + 1;
        } else {
          break;
        }
      }
      assert SplitsAt(t, edges, index, beginIndex + |offsets|);
      offsets := offsets + [index];
    }
  }

  /** WriteTable: the part goes to disk in slices of chunkSize rows. */
  method WriteTable(info: EdgeSizes, table: seq<Edge>, part: nat, adjList: map<(nat, nat), seq<Edge>>)
    returns (written: map<(nat, nat), seq<Edge>>)
    requires info.Validated()
    requires forall j: nat :: (part, j) !in adjList
    ensures forall j: nat :: (part, j) in written <==> j < ChunkCount(info, table)
    ensures forall j: nat :: (part, j) in written && j * info.chunkSize <= |table| ==>
      written[(part, j)] == ChunkRows(info, table, j)
    ensures forall i: nat, j: nat :: i != part ==> ((i, j) in written <==> (i, j) in adjList)
    ensures forall i: nat, j: nat :: i != part && (i, j) in adjList ==> written[(i, j)] == adjList[(i, j)]
  {
    written := adjList;
    var chunkIndex: nat, offset: nat := 0, 0;
    while offset < |table|
      invariant offset == chunkIndex * info.chunkSize
      invariant chunkIndex <= ChunkCount(info, table)
      invariant forall j: nat :: (part, j) in written <==> j < chunkIndex
      invariant forall j: nat :: j < chunkIndex && j * info.chunkSize <= |table| ==>
        written[(part, j)] == ChunkRows(info, table, j)
      invariant forall i: nat, j: nat :: i != part ==> ((i, j) in written <==> (i, j) in adjList)
      invariant forall i: nat, j: nat :: i != part && (i, j) in adjList ==> written[(i, j)] == adjList[(i, j)]
      decreases |table| - offset
    {
      CeilDivExists(|table|, info.chunkSize, chunkIndex);
      var inChunk := table[offset .. Min(offset + info.chunkSize, |table|)];
      written := written[(part, chunkIndex) := inChunk];
      offset, chunkIndex := offset + info.chunkSize, chunkIndex + 1;
    }
    CeilDivExists(|table|, info.chunkSize, chunkIndex);
  }

  lemma PermutedInPart(info: EdgeSizes, t: AdjListType, a: seq<Edge>, b: seq<Edge>, i: nat)
    requires info.Validated() && multiset(a) == multiset(b)
    requires forall k: nat :: k < |a| ==> InPart(info, t, a[k], i)
    ensures forall k: nat :: k < |b| ==> InPart(info, t, b[k], i)
  {
    forall k: nat | k < |b| ensures InPart(info, t, b[k], i) {
      assert b[k] in multiset(b);
      assert b[k] in a;
    }
  }

  /** A part as Dump leaves it: the added edges of that vertex chunk, sorted or, for unordered types, as added. */
  ghost predicate PartReady(info: EdgeSizes, t: AdjListType, added: seq<Edge>, i: nat, part: seq<Edge>)
    requires info.Validated()
  {
    && multiset(part) == multiset(PartOf(info, t, added, i))
    && (if t.Ordered() then SortedByKey(t, part) else part == PartOf(info, t, added, i))
  }

  /** The edges of a part are those of its vertex chunk, in the order they were added. */
  lemma {:induction false} PartOfIsSubsequence(info: EdgeSizes, t: AdjListType, edges: seq<Edge>, i: nat)
    returns (at: seq<nat>)
    requires info.Validated()
    ensures |at| == |PartOf(info, t, edges, i)|
    ensures forall k :: 0 <= k < |at| ==> at[k] < |edges| && edges[at[k]] == PartOf(info, t, edges, i)[k]
    ensures forall j, k :: 0 <= j < k < |at| ==> at[j] < at[k]
    ensures forall k: nat :: k < |edges| ==> (k in at <==> InPart(info, t, edges[k], i))
  {
    at := [];
    if edges != [] {
      var last := |edges| - 1;
      at := PartOfIsSubsequence(info, t, edges[..last], i);
      if InPart(info, t, edges[last], i) {
        at := at + [last];
      }
    }
  }

  lemma ReadyPartsPartition(info: EdgeSizes, t: AdjListType, added: seq<Edge>, parts: seq<seq<Edge>>, n: nat)
    requires info.Validated() && |parts| == CeilDiv(n, info.VertexChunkSize(t))
    requires forall i: nat :: i < |parts| ==> PartReady(info, t, added, i, parts[i])
    requires forall k :: 0 <= k < |added| ==> Key(t, added[k]) < n
    ensures IsPartition(info, t, added, parts)
  {
    forall k | 0 <= k < |added| ensures Key(t, added[k]) / info.VertexChunkSize(t) < |parts| {
      RowInChunk(n, info.VertexChunkSize(t), Key(t, added[k]));
    }
    PartsHoldEdges(info, t, added, |parts|);
    FlattenPermuted(parts, PartsOf(info, t, added, |parts|));
    forall i: nat, k: nat | i < |parts| && k < |parts[i]| ensures InPart(info, t, parts[i][k], i) {
      PartOfInPart(info, t, added, i);
      PermutedInPart(info, t, PartOf(info, t, added, i), parts[i], i);
    }
  }

  /** Sorts one collection and builds its offset table. */
  method PreparePart(info: EdgeSizes, t: AdjListType, ghost added: seq<Edge>, i: nat, part: seq<Edge>)
    returns (sorted: seq<Edge>, offsets: seq<nat>)
    requires info.Validated() && t.Ordered() && part == PartOf(info, t, added, i)
    ensures PartReady(info, t, added, i, sorted)
    ensures OffsetsFor(t, sorted, offsets, i * info.VertexChunkSize(t), info.VertexChunkSize(t))
  {
    sorted := SortByKey(t, part);
    PartOfInPart(info, t, added, i);
    PermutedInPart(info, t, part, sorted, i);
    assert forall k: nat :: k < |sorted| ==> InPart(info, t, sorted[k], i);
    offsets := GetOffsetTable(t, sorted, i, info.VertexChunkSize(t));
  }

  /** Per-collection facts about the written files add up to the layout. */
  lemma FilesStore(info: EdgeSizes, t: AdjListType, files: EdgeFiles, edges: map<nat, seq<Edge>>, parts: seq<seq<Edge>>)
    requires info.Validated() && |parts| == GetVertexChunkNum(info, files, t)
    requires forall i: nat :: i < |parts| ==> i in edges && edges[i] == parts[i]
    requires forall i: nat :: i < |parts| ==> i in files.edgeCount && files.edgeCount[i] == |parts[i]|
    requires forall i: nat, j: nat :: (i, j) in files.adjList <==> i in edges && j < ChunkCount(info, edges[i])
    requires forall i: nat, j: nat :: (i, j) in files.adjList && j * info.chunkSize <= |edges[i]| ==>
      files.adjList[(i, j)] == ChunkRows(info, edges[i], j)
    requires t.Ordered() ==> files.offset.Keys == edges.Keys
    requires t.Ordered() ==> forall i: nat :: i in edges ==>
      OffsetsFor(t, edges[i], files.offset[i], i * info.VertexChunkSize(t), info.VertexChunkSize(t))
    ensures Stores(info, t, files, parts)
  {
    forall i: nat | i < |parts| ensures StoresPart(info, files, parts[i], i) {
    }
  }

  /** There is one edge_count file for each part, and no other. */
  ghost predicate CountsPerPart(files: EdgeFiles, parts: seq<seq<Edge>>) {
    forall i: nat :: i in files.edgeCount <==> i < |parts|
  }

  class EdgesBuilder {
    const info: EdgeSizes
    const adjListType: AdjListType
    const numVertices: nat
    var edges: map<nat, seq<Edge>>
    var numEdges: nat
    ghost var pending: seq<Edge>  // the edges added since the last Dump

    ghost predicate Valid()
      reads this
    {
      && info.Validated()
      && forall i: nat :: PartOf(info, adjListType, pending, i) == if i in edges then edges[i] else []
    }

    constructor (info: EdgeSizes, adjListType: AdjListType, numVertices: nat)
      requires info.Validated()
      ensures Valid() && pending == [] && numEdges == 0
      ensures this.info == info && this.adjListType == adjListType && this.numVertices == numVertices
    {
      this.info, this.adjListType, this.numVertices := info, adjListType, numVertices;
      edges, numEdges, pending := map[], 0, [];
    }

    method AddEdge(e: Edge)
      requires Valid()
      modifies this
      ensures Valid() && pending == old(pending) + [e] && numEdges == old(numEdges) + 1
    {
      var vertexChunkIndex := Key(adjListType, e) / info.VertexChunkSize(adjListType);
      var chunkEdges := if vertexChunkIndex in edges then edges[vertexChunkIndex] else [];
      edges := edges[vertexChunkIndex := chunkEdges + [e]];
      numEdges := numEdges + 1;
      assert (pending + [e])[..|pending|] == pending;
      pending := pending + [e];
    }

    /** The vertex chunks without edges get an empty collection. */
    method FillEmptyParts(num: nat)
      requires Valid()
      modifies this`edges
      ensures Valid() && forall i: nat :: i < num ==> i in edges
    {
      for i := 0 to num
        invariant Valid() && forall j: nat :: j < i ==> j in edges
      {
        if i !in edges {
          edges := edges[i := []];
        }
      }
    }

    /** Sorts every collection and computes its offset table, in any order of the collections. */
    method SortParts() returns (offset: map<nat, seq<nat>>)
      requires Valid() && adjListType.Ordered()
      modifies this`edges
      ensures edges.Keys == old(edges.Keys) && offset.Keys == edges.Keys
      ensures forall i: nat :: i in edges ==> PartReady(info, adjListType, pending, i, edges[i])
      ensures forall i: nat :: i in edges ==> OffsetsFor(adjListType, edges[i], offset[i],
        i * info.VertexChunkSize(adjListType), info.VertexChunkSize(adjListType))
    {
      hide PartReady, OffsetsFor, PartOf;
      offset := map[];
      var keys := edges.Keys;
      while keys != {}
        invariant keys <= edges.Keys == old(edges.Keys) && offset.Keys == edges.Keys - keys
        invariant forall i: nat :: i in keys ==> edges[i] == PartOf(info, adjListType, pending, i)
        invariant forall i: nat :: i in offset ==> PartReady(info, adjListType, pending, i, edges[i])
        invariant forall i: nat :: i in offset ==> OffsetsFor(adjListType, edges[i], offset[i],
          i * info.VertexChunkSize(adjListType), info.VertexChunkSize(adjListType))
        decreases keys
      {
        var i :| i in keys;
        var sorted, offsets := PreparePart(info, adjListType, pending, i, edges[i]);
        edges := edges[i := sorted];
        offset := offset[i := offsets];
        keys := keys - {i};
      }
    }

    /** Writes the tables of all collections and clears them. */
    method WriteTables() returns (adjList: map<(nat, nat), seq<Edge>>)
      requires info.Validated()
      modifies this`edges
      ensures edges.Keys == old(edges.Keys) && forall i: nat :: i in edges ==> edges[i] == []
      ensures forall i: nat, j: nat :: (i, j) in adjList <==>
        i in old(edges) && j < ChunkCount(info, old(edges)[i])
      ensures forall i: nat, j: nat :: (i, j) in adjList && j * info.chunkSize <= |old(edges)[i]| ==>
        adjList[(i, j)] == ChunkRows(info, old(edges)[i], j)
    {
      adjList := map[];
      var keys := edges.Keys;
      while keys != {}
        invariant keys <= edges.Keys == old(edges.Keys)
        invariant forall i: nat :: i in edges ==> edges[i] == if i in keys then old(edges)[i] else []
        invariant forall i: nat, j: nat :: (i, j) in adjList <==>
          i in edges && i !in keys && j < ChunkCount(info, old(edges)[i])
        invariant forall i: nat, j: nat :: (i, j) in adjList && j * info.chunkSize <= |old(edges)[i]| ==>
          adjList[(i, j)] == ChunkRows(info, old(edges)[i], j)
        decreases keys
      {
        var i :| i in keys;
        adjList := WriteTable(info, edges[i], i, adjList);
        edges := edges[i := []];
        keys := keys - {i};
      }
    }

    /** The first half of Dump: empty collections, sorting and offset tables. */
    method PrepareParts(num: nat) returns (offset: map<nat, seq<nat>>, ghost parts: seq<seq<Edge>>)
      requires Valid()
      modifies this`edges
      ensures |parts| == num && forall i: nat :: i < num ==> i in edges && edges[i] == parts[i]
      ensures forall i: nat :: i < num ==> PartReady(info, adjListType, pending, i, parts[i])
      ensures adjListType.Ordered() ==> offset.Keys == edges.Keys
      ensures adjListType.Ordered() ==> forall i: nat :: i in edges ==> OffsetsFor(adjListType, edges[i], offset[i],
        i * info.VertexChunkSize(adjListType), info.VertexChunkSize(adjListType))
    {
      FillEmptyParts(num);
      offset := map[];
      if adjListType.Ordered() {
        offset := SortParts();
      }
      parts := seq(num, i requires 0 <= i < num reads this requires i in edges => edges[i]);
    }

    /** The edge_count files. */
    method CountEdges(num: nat) returns (edgeCount: map<nat, nat>)
      requires forall i: nat :: i < num ==> i in edges
      ensures forall i: nat :: i in edgeCount <==> i < num
      ensures forall i: nat :: i < num ==> edgeCount[i] == |edges[i]|
    {
      edgeCount := map[];
      for i := 0 to num
        invariant forall j: nat :: j in edgeCount <==> j < i
        invariant forall j: nat :: j < i ==> edgeCount[j] == |edges[j]|
      {
        edgeCount := edgeCount[i := if i in edges then |edges[i]| else 0];
      }
    }

    /**
     * Dump: when every key is a vertex id below numVertices, the files hold the pending
     * edges in the prescribed layout, none lost and none invented.
     */
    method Dump() returns (files: EdgeFiles, ghost parts: seq<seq<Edge>>)
      requires Valid()
      modifies this
      ensures Valid() && pending == [] && numEdges == old(numEdges)
      ensures files.vertexCount == numVertices && CountsPerPart(files, parts)
      ensures |parts| == CeilDiv(numVertices, info.VertexChunkSize(adjListType))
      ensures forall i: nat :: i < |parts| ==> PartReady(info, adjListType, old(pending), i, parts[i])
      ensures (forall k :: 0 <= k < |old(pending)| ==> Key(adjListType, old(pending)[k]) < numVertices) ==>
        && Stores(info, adjListType, files, parts)
        && IsPartition(info, adjListType, old(pending), parts)
    {
      var num := CeilDiv(numVertices, info.VertexChunkSize(adjListType));
      var offset;
      offset, parts := PrepareParts(num);
      var edgeCount := CountEdges(num);
      ghost var stored := edges;
      var adjList := WriteTables();
      files := EdgeFiles(numVertices, edgeCount, offset, adjList);
      FilesStore(info, adjListType, files, stored, parts);
      if forall k :: 0 <= k < |pending| ==> Key(adjListType, pending[k]) < numVertices {
        ReadyPartsPartition(info, adjListType, pending, parts, numVertices);
      }
      pending := [];
    }
  }

  /** Adding every edge of a list and dumping. */
  method WriteEdges(info: EdgeSizes, t: AdjListType, numVertices: nat, edges: seq<Edge>)
    returns (files: EdgeFiles, ghost parts: seq<seq<Edge>>)
    requires info.Validated()
    requires forall k :: 0 <= k < |edges| ==> Key(t, edges[k]) < numVertices
    ensures files.vertexCount == numVertices && Stores(info, t, files, parts) && IsPartition(info, t, edges, parts)
    ensures CountsPerPart(files, parts)
    ensures forall i: nat :: i < |parts| ==> |parts[i]| == |PartOf(info, t, edges, i)|
    ensures !t.Ordered() ==> parts == PartsOf(info, t, edges, |parts|)
  {
    hide EdgesBuilder.Valid, Stores, IsPartition, OffsetsFor;
    var builder := new EdgesBuilder(info, t, numVertices);
    for k := 0 to |edges|
      invariant builder.Valid() && builder.pending == edges[..k]
      invariant builder.info == info && builder.adjListType == t && builder.numVertices == numVertices
    {
      builder.AddEdge(edges[k]);
    }
    assert edges[..|edges|] == edges;
    files, parts := builder.Dump();
    forall i: nat | i < |parts| ensures |parts[i]| == |PartOf(info, t, edges, i)| {
      assert PartReady(info, t, edges, i, parts[i]);
      assert |multiset(parts[i])| == |multiset(PartOf(info, t, edges, i))|;
    }
  }
}
