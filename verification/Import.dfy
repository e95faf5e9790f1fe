/**
 * Importing tables with the command line tool: checking the source columns, resolving edge
 * endpoints to vertex rows, and counting the imported edges (cli/src, one source per table).
 */
module Imports {
  import opened Arith
  import opened EdgeLayout
  import opened EdgesBuilders
  import opened Graph
  import opened PropertyGroups
  import opened Results
  import opened Types

  // ----- checking one vertex type -----

  ghost predicate DistinctNames(ps: seq<Property>) {
    forall i, j :: 0 <= i < j < |ps| ==> ps[i].name != ps[j].name
  }

  ghost predicate OnePrimary(ps: seq<Property>) {
    && (forall i, j :: 0 <= i < j < |ps| ==> !(ps[i].isPrimary && ps[j].isPrimary))
    && (forall i :: 0 <= i < |ps| && ps[i].isPrimary ==> !ps[i].isNullable)
  }

  /** What the checks on the properties of one vertex type and its source columns accept. */
  ghost predicate Accepted(ps: seq<Property>, columns: seq<string>) {
    && DistinctNames(ps) && OnePrimary(ps)
    && (forall i :: 0 <= i < |ps| ==> ps[i].name in columns)
    && |columns| == |ps|
  }

  /** Raises on the first violation; here false. */
  method Validate(ps: seq<Property>, columns: seq<string>) returns (ok: bool)
    ensures ok <==> Accepted(ps, columns)
  {
    var names: seq<string> := [];
    var primaryKeys: seq<string> := [];
    for i := 0 to |ps|
      invariant names == Names(ps[..i])
      invariant forall j, k :: 0 <= j < k < i ==> ps[j].name != ps[k].name
      invariant forall j, k :: 0 <= j < k < i ==> !(ps[j].isPrimary && ps[k].isPrimary)
      invariant forall j :: 0 <= j < i && ps[j].isPrimary ==> !ps[j].isNullable
      invariant primaryKeys == [] <==> forall j :: 0 <= j < i ==> !ps[j].isPrimary
    {
      if ps[i].name in names {
        return false;
      }
      assert forall j :: 0 <= j < i ==> names[j] == ps[j].name;
      names := names + [ps[i].name];
      if ps[i].isPrimary {
        if |primaryKeys| > 0 {
          return false;
        }
        primaryKeys := primaryKeys + [ps[i].name];
        if ps[i].isNullable {
          return false;
        }
      }
    }
    for i := 0 to |names|
      invariant forall j :: 0 <= j < i ==> names[j] in columns
    {
      if names[i] !in columns {
        return false;
      }
    }
    ok := |columns| == |names|;
  }

  function Elements<T>(s: seq<T>): set<T> {
    set x | x in s
  }

  lemma {:induction false} DistinctSize<T>(s: seq<T>)
    ensures |Elements(s)| <= |s|
    ensures |Elements(s)| == |s| <==> forall i, j :: 0 <= i < j < |s| ==> s[i] != s[j]
  {
    if s != [] {
      var init, last := s[..|s| - 1], s[|s| - 1];
      DistinctSize(init);
      assert Elements(s) == Elements(init) + {last};
      if last in init {
        assert Elements(s) == Elements(init);
        var i :| 0 <= i < |init| && init[i] == last;
        assert s[i] == s[|s| - 1];
      }
    }
  }

  lemma DistinctMultiplicity<T>(s: seq<T>, x: T)
    requires forall i, j :: 0 <= i < j < |s| ==> s[i] != s[j]
    ensures multiset(s)[x] == if x in s then 1 else 0
  {
    if x in s {
      var i :| 0 <= i < |s| && s[i] == x;
      assert s == s[..i] + [x] + s[i + 1..];
      assert x !in s[..i] && x !in s[i + 1..];
    }
  }

  lemma SubsetOfSameSize<T>(a: set<T>, b: set<T>)
    requires a <= b && |b| <= |a|
    ensures a == b
  {
    assert b == a + (b - a);
  }

  /** Accepted columns are exactly the property names, each once: a permutation of them. */
  lemma AcceptedColumnsArePermutation(ps: seq<Property>, columns: seq<string>)
    requires Accepted(ps, columns)
    ensures multiset(columns) == multiset(Names(ps))
  {
    var names := Names(ps);
    DistinctSize(names);
    DistinctSize(columns);
    SubsetOfSameSize(Elements(names), Elements(columns));
    forall x ensures multiset(columns)[x] == multiset(names)[x] {
      DistinctMultiplicity(names, x);
      DistinctMultiplicity(columns, x);
      assert x in names <==> x in Elements(names);
      assert x in columns <==> x in Elements(columns);
    }
  }

  // ----- from keys to row numbers -----

  /** Row i is the first one with this key. */
  ghost predicate FirstRow<K>(keys: seq<Option<K>>, k: K, i: int) {
    0 <= i < |keys| && keys[i] == Some(k) && forall j :: 0 <= j < i ==> keys[j] != Some(k)
  }

  /** Emplaces (key, value) row by row; a null and columns of different lengths raise. */
  method TableToUnorderedMap<K(==)>(keys: seq<Option<K>>, values: seq<Option<nat>>) returns (r: Result<map<K, nat>>)
    ensures r.Success? <==> |keys| == |values| && forall i :: 0 <= i < |keys| ==> keys[i].Some? && values[i].Some?
    ensures r.Failure? ==> r.error == Thrown
    ensures r.Success? ==> forall i :: 0 <= i < |keys| ==> keys[i].value in r.value
    ensures r.Success? ==>
      forall k :: k in r.value ==> exists i :: FirstRow(keys, k, i) && Some(r.value[k]) == values[i]
  {
    if |keys| != |values| {
      return Failure(Thrown);
    }
    var m: map<K, nat> := map[];
    for i := 0 to |keys|
      invariant forall j :: 0 <= j < i ==> keys[j].Some? && values[j].Some? && keys[j].value in m
      invariant forall k :: k in m ==> exists j :: FirstRow(keys, k, j) && j < i && Some(m[k]) == values[j]
    {
      if keys[i].None? || values[i].None? {
        return Failure(Thrown);
      }
      ghost var before := m;
      m := Emplace(m, keys[i].value, values[i].value);
      forall k | k in m ensures exists j :: FirstRow(keys, k, j) && j < i + 1 && Some(m[k]) == values[j] {
        if k !in before {
          assert FirstRow(keys, k, i);
        }
      }
    }
    r := Success(m);
  }

  /** The ids of a vertex table: its row numbers by the values of the key column. */
  method VertexIds<K(==)>(keys: seq<Option<K>>) returns (r: Result<map<K, nat>>)
    ensures r.Success? <==> forall i :: 0 <= i < |keys| ==> keys[i].Some?
    ensures r.Failure? ==> r.error == Thrown
    ensures r.Success? ==>
      forall k :: (k in r.value <==> Some(k) in keys) && (k in r.value ==> FirstRow(keys, k, r.value[k]))
  {
    var values: seq<Option<nat>> := seq(|keys|, i => Some(i));
    r := TableToUnorderedMap(keys, values);
    if r.Success? {
      forall k ensures (k in r.value <==> Some(k) in keys) && (k in r.value ==> FirstRow(keys, k, r.value[k])) {
        if Some(k) in keys {
          var i :| 0 <= i < |keys| && keys[i] == Some(k);
          assert keys[i].value in r.value;
        }
        if k in r.value {
          var i :| FirstRow(keys, k, i) && Some(r.value[k]) == values[i];
          assert keys[i] in keys;
        }
      }
    }
  }

  datatype Row<S, D> = Row(src: Option<S>, dst: Option<D>)

  /** The edge of a row: its endpoints are the first vertex rows with the two keys. */
  ghost predicate EdgeOfRow<S, D>(e: Edge, row: Row<S, D>, srcKeys: seq<Option<S>>, dstKeys: seq<Option<D>>) {
    && row.src.Some? && FirstRow(srcKeys, row.src.value, e.src)
    && row.dst.Some? && FirstRow(dstKeys, row.dst.value, e.dst)
  }

  ghost predicate Resolvable<S, D>(row: Row<S, D>, srcKeys: seq<Option<S>>, dstKeys: seq<Option<D>>) {
    row.src.Some? && row.src in srcKeys && row.dst.Some? && row.dst in dstKeys
  }

  ghost predicate NoNullKeys<K>(keys: seq<Option<K>>) {
    forall i :: 0 <= i < |keys| ==> keys[i].Some?
  }

  ghost predicate EdgesOfRows<S, D>(edges: seq<Edge>, rows: seq<Row<S, D>>,
                                    srcKeys: seq<Option<S>>, dstKeys: seq<Option<D>>)
  {
    |edges| == |rows| && forall i :: 0 <= i < |rows| ==> EdgeOfRow(edges[i], rows[i], srcKeys, dstKeys)
  }

  /** Adds one edge per row; a key without vertex row raises. */
  method AddRows<S(==), D(==)>(builder: EdgesBuilder, srcIds: map<S, nat>, dstIds: map<D, nat>, rows: seq<Row<S, D>>,
                               ghost srcKeys: seq<Option<S>>, ghost dstKeys: seq<Option<D>>)
    returns (ok: bool, ghost edges: seq<Edge>)
    requires builder.Valid() && builder.pending == []
    requires forall k :: (k in srcIds <==> Some(k) in srcKeys) && (k in srcIds ==> FirstRow(srcKeys, k, srcIds[k]))
    requires forall k :: (k in dstIds <==> Some(k) in dstKeys) && (k in dstIds ==> FirstRow(dstKeys, k, dstIds[k]))
    modifies builder
    ensures builder.Valid()
    ensures ok <==> forall i :: 0 <= i < |rows| ==> Resolvable(rows[i], srcKeys, dstKeys)
    ensures ok ==> builder.pending == edges && EdgesOfRows(edges, rows, srcKeys, dstKeys)
  {
    edges := [];
    for i := 0 to |rows|
      invariant builder.Valid() && builder.pending == edges && |edges| == i
      invariant forall j :: 0 <= j < i ==> Resolvable(rows[j], srcKeys, dstKeys)
      invariant forall j :: 0 <= j < i ==> EdgeOfRow(edges[j], rows[j], srcKeys, dstKeys)
    {
      var row := rows[i];
      if row.src.None? || row.src.value !in srcIds || row.dst.None? || row.dst.value !in dstIds {
        return false, edges;
      }
      var e := Edge(srcIds[row.src.value], dstIds[row.dst.value]);
      builder.AddEdge(e);
      edges := edges + [e];
    }
    ok := true;
  }

  /**
   * Importing one adjacency list: unless a vertex key is null or an edge key has no vertex
   * row, the files hold one edge per row, between the first vertex rows with its keys.
   */
  method ImportEdges<S(==), D(==)>(info: EdgeSizes, t: AdjListType, srcKeys: seq<Option<S>>, dstKeys: seq<Option<D>>,
                                   rows: seq<Row<S, D>>)
    returns (r: Result<EdgeFiles>, ghost edges: seq<Edge>, ghost parts: seq<seq<Edge>>)
    requires info.Validated()
    ensures r.Success? <==>
      && NoNullKeys(srcKeys) && NoNullKeys(dstKeys)
      && forall i :: 0 <= i < |rows| ==> Resolvable(rows[i], srcKeys, dstKeys)
    ensures r.Failure? ==> r.error == Thrown
    ensures r.Success? ==> EdgesOfRows(edges, rows, srcKeys, dstKeys)
    ensures r.Success? ==> Stores(info, t, r.value, parts) && IsPartition(info, t, edges, parts)
    ensures r.Success? ==> CountsPerPart(r.value, parts)
    ensures r.Success? ==> r.value.vertexCount == if t.BySource() then |srcKeys| else |dstKeys|
    ensures r.Success? ==>
      (CountBelow(r.value, CeilDiv(r.value.vertexCount, info.srcChunkSize)) == Success(|rows|) <==>
       CountReaches(info, t, edges, r.value.vertexCount))
  {
    hide Stores, IsPartition, EdgesBuilder.Valid, CountReaches, CountBelow;
    edges, parts := [], [];
    var srcIds := VertexIds(srcKeys);
    if srcIds.Failure? {
      return Failure(Thrown), edges, parts;
    }
    var dstIds := VertexIds(dstKeys);
    if dstIds.Failure? {
      return Failure(Thrown), edges, parts;
    }
    var vertexCount := if t.BySource() then |srcKeys| else |dstKeys|;
    var builder := new EdgesBuilder(info, t, vertexCount);
    var ok;
    ok, edges := AddRows(builder, srcIds.value, dstIds.value, rows, srcKeys, dstKeys);
    if !ok {
      return Failure(Thrown), edges, parts;
    }
    KeysInRange(t, edges, rows, srcKeys, dstKeys);
    var files;
    files, parts := builder.Dump();
    ImportedCountIff(info, t, files, parts, edges);
    r := Success(files);
  }

  lemma KeysInRange<S, D>(t: AdjListType, edges: seq<Edge>, rows: seq<Row<S, D>>,
                          srcKeys: seq<Option<S>>, dstKeys: seq<Option<D>>)
    requires EdgesOfRows(edges, rows, srcKeys, dstKeys)
    ensures forall k :: 0 <= k < |edges| ==> Key(t, edges[k]) < if t.BySource() then |srcKeys| else |dstKeys|
  {
    forall k | 0 <= k < |edges| ensures Key(t, edges[k]) < if t.BySource() then |srcKeys| else |dstKeys| {
      assert EdgeOfRow(edges[k], rows[k], srcKeys, dstKeys);
    }
  }

  // ----- counting edges -----

  /** The edge_count files below n added up; a missing file raises. */
  function CountBelow(files: EdgeFiles, n: nat): Result<nat> {
    if n == 0 then Success(0)
    else match CountBelow(files, n - 1)
      case Failure(e) => Failure(e)
      case Success(sum) => if n - 1 in files.edgeCount then Success(sum + files.edgeCount[n - 1]) else Failure(Thrown)
  }

  lemma {:induction false} CountFails(files: EdgeFiles, m: nat, n: nat)
    requires m <= n && CountBelow(files, m).Failure?
    ensures CountBelow(files, n) == CountBelow(files, m)
  {
    if m < n {
      CountFails(files, m, n - 1);
    }
  }

  /** Divides by the source chunk size whatever the list's type is. */
  method GetEdgeCount(info: EdgeSizes, files: EdgeFiles) returns (r: Result<nat>)
    requires info.Validated()
    ensures r == CountBelow(files, CeilDiv(files.vertexCount, info.srcChunkSize))
  {
    var maxChunkIndex := CeilDiv(files.vertexCount, info.srcChunkSize);
    var count: nat := 0;
    for i := 0 to maxChunkIndex
      invariant CountBelow(files, i) == Success(count)
    {
      var num := GetEdgeNum(files, i);
      if num.Failure? {
        CountFails(files, i + 1, maxChunkIndex);
        return Failure(Thrown);
      }
      count := count + num.value;
    }
    r := Success(count);
  }

  lemma {:induction false} CountIsPrefix(info: EdgeSizes, t: AdjListType, files: EdgeFiles, parts: seq<seq<Edge>>,
                                         n: nat)
    requires Stores(info, t, files, parts) && n <= |parts|
    ensures CountBelow(files, n) == Success(|Flatten(parts[..n])|)
  {
    if n > 0 {
      CountIsPrefix(info, t, files, parts, n - 1);
      assert StoresPart(info, files, parts[n - 1], n - 1);
      assert parts[..n] == parts[..n - 1] + [parts[n - 1]];
      FlattenAppend(parts[..n - 1], [parts[n - 1]]);
      assert [parts[n - 1]][1..] == [];
      assert Flatten([parts[n - 1]]) == parts[n - 1];
    }
  }

  /**
   * The count is the number of stored edges exactly when dividing by the source chunk size
   * gives no more parts than there are, and the parts it does not reach are empty.
   */
  lemma EdgeCountRightIff(info: EdgeSizes, t: AdjListType, files: EdgeFiles, parts: seq<seq<Edge>>)
    requires Stores(info, t, files, parts) && CountsPerPart(files, parts)
    ensures var n := CeilDiv(files.vertexCount, info.srcChunkSize);
            CountBelow(files, n) == Success(|Flatten(parts)|) <==>
            n <= |parts| && forall i :: n <= i < |parts| ==> parts[i] == []
  {
    var n := CeilDiv(files.vertexCount, info.srcChunkSize);
    hide Stores;
    if n <= |parts| {
      CountIsPrefix(info, t, files, parts, n);
      RestEmpty(parts, n);
    } else {
      CountFails(files, |parts| + 1, n);
    }
  }

  lemma RestEmpty<T>(parts: seq<seq<T>>, n: nat)
    requires n <= |parts|
    ensures |Flatten(parts[..n])| == |Flatten(parts)| <==> forall i :: n <= i < |parts| ==> parts[i] == []
  {
    var rest := parts[n..];
    assert parts == parts[..n] + rest;
    FlattenAppend(parts[..n], rest);
    FlattenNone(rest);
    assert forall i :: n <= i < |parts| ==> parts[i] == rest[i - n];
    assert forall i :: 0 <= i < |rest| ==> rest[i] == parts[n + i];
  }

  lemma {:induction false} FlattenNone<T>(parts: seq<seq<T>>)
    ensures |Flatten(parts)| == 0 <==> forall i :: 0 <= i < |parts| ==> parts[i] == []
  {
    if parts != [] {
      FlattenNone(parts[1..]);
      assert forall i :: 1 <= i < |parts| ==> parts[i] == parts[1..][i - 1];
    }
  }

  /** Counting by the source chunk size reaches every part with an edge and no missing one. */
  ghost predicate CountReaches(info: EdgeSizes, t: AdjListType, edges: seq<Edge>, vertexCount: nat)
    requires info.Validated()
  {
    var n := CeilDiv(vertexCount, info.srcChunkSize);
    && n <= CeilDiv(vertexCount, info.VertexChunkSize(t))
    && forall e :: e in edges ==> Key(t, e) / info.VertexChunkSize(t) < n
  }

  lemma UnreachedPartsEmpty(info: EdgeSizes, t: AdjListType, parts: seq<seq<Edge>>, edges: seq<Edge>, n: nat)
    requires info.Validated() && IsPartition(info, t, edges, parts)
    ensures (forall i :: n <= i < |parts| ==> parts[i] == []) <==>
            forall e :: e in edges ==> Key(t, e) / info.VertexChunkSize(t) < n
  {
    forall e ensures e in edges <==> exists i :: 0 <= i < |parts| && e in parts[i] {
      assert e in edges <==> e in multiset(Flatten(parts));
      MemberOfFlatten(parts, e);
    }
    forall i: nat, e | i < |parts| && e in parts[i] ensures Key(t, e) / info.VertexChunkSize(t) == i {
      var k :| 0 <= k < |parts[i]| && parts[i][k] == e;
      assert InPart(info, t, parts[i][k], i);
    }
    forall i: nat | i < |parts| && parts[i] != [] ensures exists e :: e in edges && e in parts[i] {
      assert parts[i][0] in parts[i];
    }
  }

  /** The count of an imported list is its number of edges exactly when CountReaches holds of the edges. */
  lemma ImportedCountIff(info: EdgeSizes, t: AdjListType, files: EdgeFiles, parts: seq<seq<Edge>>, edges: seq<Edge>)
    requires Stores(info, t, files, parts) && CountsPerPart(files, parts) && IsPartition(info, t, edges, parts)
    ensures CountBelow(files, CeilDiv(files.vertexCount, info.srcChunkSize)) == Success(|edges|) <==>
            CountReaches(info, t, edges, files.vertexCount)
  {
    hide Flatten, InPart;
    EdgeCountRightIff(info, t, files, parts);
    UnreachedPartsEmpty(info, t, parts, edges, CeilDiv(files.vertexCount, info.srcChunkSize));
    assert |multiset(Flatten(parts))| == |multiset(edges)|;
  }

  /** For a list by source, or equal chunk sizes, every part is reached. */
  lemma EdgeCountOfImport(info: EdgeSizes, t: AdjListType, files: EdgeFiles, parts: seq<seq<Edge>>, edges: seq<Edge>)
    requires Stores(info, t, files, parts) && IsPartition(info, t, edges, parts)
    requires t.BySource() || info.srcChunkSize == info.dstChunkSize
    ensures CountBelow(files, CeilDiv(files.vertexCount, info.srcChunkSize)) == Success(|edges|)
  {
    CountIsPrefix(info, t, files, parts, |parts|);
    assert parts[..|parts|] == parts;
    assert |multiset(Flatten(parts))| == |multiset(edges)|;
  }

  /** The files of a part with no edge, or with one. */
  lemma SmallPartStored(info: EdgeSizes, files: EdgeFiles, part: seq<Edge>, i: nat)
    requires info.Validated() && |part| <= 1
    requires i in files.edgeCount && files.edgeCount[i] == |part|
    requires forall j: nat :: (i, j) in files.adjList <==> j == 0 && part != []
    requires part != [] ==> files.adjList[(i, 0)] == part
    ensures StoresPart(info, files, part, i)
  {
    hide ChunkRows;
    forall j: nat ensures (i, j) in files.adjList <==> j < ChunkCount(info, part) {
      FewChunks(|part|, info.chunkSize, j);
    }
    if part != [] {
      OneChunk(info, part);
    }
  }

  lemma FewChunks(a: nat, b: nat, j: nat)
    requires b > 0 && a <= 1
    ensures j < CeilDiv(a, b) <==> j == 0 && a > 0
  {
    CeilDivExists(a, b, j);
    if j > 0 {
      MulMonotone(1, j, b);
    }
  }

  lemma OneChunk(info: EdgeSizes, part: seq<Edge>)
    requires info.Validated() && |part| == 1
    ensures 0 * info.chunkSize <= |part| && ChunkRows(info, part, 0) == part
  {
    assert 0 * info.chunkSize == 0;
  }

  /** The dump of the edge 0 -> 1 by destination, with destination chunks of one vertex and source chunks of two. */
  ghost function FilesOfOneEdge(): EdgeFiles {
    EdgeFiles(2, map[0 := 0, 1 := 1], map[], map[(1, 0) := [Edge(0, 1)]])
  }

  lemma OneEdgeStored()
    ensures var info, parts := EdgeSizes(1, 2, 1), [[], [Edge(0, 1)]];
      Stores(info, UnorderedByDest, FilesOfOneEdge(), parts) && CountsPerPart(FilesOfOneEdge(), parts)
  {
    hide StoresPart, ChunkCount, ChunkRows;
    var info, parts := EdgeSizes(1, 2, 1), [[], [Edge(0, 1)]];
    SmallPartStored(info, FilesOfOneEdge(), parts[0], 0);
    SmallPartStored(info, FilesOfOneEdge(), parts[1], 1);
  }

  /** Its only edge enters the vertex chunk that the division does not reach: the count is 0. */
  lemma EdgeCountMisses()
    ensures var info, parts, files := EdgeSizes(1, 2, 1), [[], [Edge(0, 1)]], FilesOfOneEdge();
      && Stores(info, UnorderedByDest, files, parts) && CountsPerPart(files, parts)
      && CountBelow(files, CeilDiv(files.vertexCount, info.srcChunkSize)) == Success(0) && parts[1] != []
  {
    hide Stores, CountsPerPart;
    OneEdgeStored();
    assert CountBelow(FilesOfOneEdge(), 0) == Success(0);
  }

  /** With destination chunks larger than source chunks the count looks for a file that is not there. */
  lemma EdgeCountThrows()
    ensures var info, parts := EdgeSizes(1, 1, 2), [[Edge(0, 1)]];
      var files := EdgeFiles(2, map[0 := 1], map[], map[(0, 0) := [Edge(0, 1)]]);
      && Stores(info, UnorderedByDest, files, parts) && CountsPerPart(files, parts)
      && CountBelow(files, CeilDiv(files.vertexCount, info.srcChunkSize)) == Failure(Thrown)
  {
    hide StoresPart, ChunkCount, ChunkRows;
    var info, parts := EdgeSizes(1, 1, 2), [[Edge(0, 1)]];
    var files := EdgeFiles(2, map[0 := 1], map[], map[(0, 0) := [Edge(0, 1)]]);
    SmallPartStored(info, files, parts[0], 0);
    assert CountBelow(files, 1) == Success(1);
    assert 1 !in files.edgeCount;
  }

  // ----- which list is counted -----

  function Preferred(has: set<AdjListType>): AdjListType {
    if OrderedByDest in has then OrderedByDest
    else if OrderedBySource in has then OrderedBySource
    else if UnorderedByDest in has then UnorderedByDest
    else UnorderedBySource
  }

  /** The order of preference of the list types. */
  function Rank(t: AdjListType): nat {
    match t
    case OrderedByDest => 0
    case OrderedBySource => 1
    case UnorderedByDest => 2
    case UnorderedBySource => 3
  }

  /** The types among the first k of the order that the info has, in that order. */
  ghost predicate Chosen(types: seq<AdjListType>, has: set<AdjListType>, k: nat) {
    && (forall i, j :: 0 <= i < j < |types| ==> Rank(types[i]) < Rank(types[j]))
    && (forall t :: t in types <==> t in has && Rank(t) < k)
  }

  lemma RankUnique(t: AdjListType, t': AdjListType)
    ensures Rank(t) == Rank(t') ==> t == t'
  {
  }

  ghost function OneIf(t: AdjListType, has: set<AdjListType>): seq<AdjListType> {
    if t in has then [t] else []
  }

  method PushIfPresent(types: seq<AdjListType>, has: set<AdjListType>, t: AdjListType) returns (r: seq<AdjListType>)
    requires Chosen(types, has, Rank(t))
    ensures Chosen(r, has, Rank(t) + 1) && r == types + OneIf(t, has)
  {
    hide Rank;
    r := types;
    if t in has {
      r := types + [t];
      assert forall i :: 0 <= i < |types| ==> types[i] in types;
    }
    forall x ensures x in r <==> x in has && Rank(x) < Rank(t) + 1 {
      RankUnique(x, t);
    }
  }

  lemma AllChosen(types: seq<AdjListType>, has: set<AdjListType>)
    requires Chosen(types, has, 4)
    ensures Elements(types) == has && (has == {} <==> types == [])
    ensures types != [] ==> types[0] == Preferred(has)
    ensures forall i, j :: 0 <= i < j < |types| ==> Rank(types[i]) < Rank(types[j])
  {
    if types != [] {
      assert types[0] in types;
      assert Preferred(has) in has && Rank(Preferred(has)) < 4;
      var i :| 0 <= i < |types| && types[i] == Preferred(has);
      assert i > 0 ==> Rank(types[0]) < Rank(types[i]);
    }
  }

  /** The list types an edge info has, each once, by preference; the first one is counted. */
  method GetAdjListTypes(has: set<AdjListType>) returns (r: Result<seq<AdjListType>>)
    ensures has == {} <==> r.Failure?
    ensures r.Failure? ==> r.error == Thrown
    ensures r.Success? ==> Elements(r.value) == has && r.value != [] && r.value[0] == Preferred(has)
    ensures r.Success? ==> forall i, j :: 0 <= i < j < |r.value| ==> Rank(r.value[i]) < Rank(r.value[j])
    ensures r.Success? ==>
      r.value == OneIf(OrderedByDest, has) + OneIf(OrderedBySource, has)
               + OneIf(UnorderedByDest, has) + OneIf(UnorderedBySource, has)
  {
    hide Elements, Preferred, OneIf, Chosen;
    NoneChosen(has);
    var types := PushIfPresent([], has, OrderedByDest);
    types := PushIfPresent(types, has, OrderedBySource);
    types := PushIfPresent(types, has, UnorderedByDest);
    types := PushIfPresent(types, has, UnorderedBySource);
    AllChosen(types, has);
    if types == [] {
      return Failure(Thrown);
    }
    r := Success(types);
  }

  lemma NoneChosen(has: set<AdjListType>)
    ensures Chosen([], has, 0)
  {
  }
}
