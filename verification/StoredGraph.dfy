/**
 * Examples on a stored graph: the edges are written by the builder, read back through the edge
 * collection, and the answer is compared with the edges that were written.
 */
module StoredGraphs {
  import opened Arith
  import opened Bfs
  import BfsStream
  import opened Components
  import ComponentsStream
  import opened EdgeIters
  import opened EdgeLayout
  import opened EdgesBuilders
  import opened Graph
  import PageRank
  import opened Results
  import opened StoredRows
  import opened Types

  /** No vertex chunk has a positive multiple of the edge chunk size as its number of edges. */
  ghost predicate PartialTails(info: EdgeSizes, t: AdjListType, edges: seq<Edge>, n: nat)
    requires info.Validated()
  {
    forall i: nat :: i < CeilDiv(n, info.VertexChunkSize(t)) ==> PartialTailAt(info, |PartOf(info, t, edges, i)|)
  }

  ghost predicate PartialTailAt(info: EdgeSizes, count: nat)
    requires info.Validated()
  {
    count == 0 || count % info.chunkSize != 0
  }

  /** Writing edges and iterating over the stored collection: every edge once, or a throw. */
  method WriteAndIterate(info: EdgeSizes, t: AdjListType, n: nat, edges: seq<Edge>) returns (r: Result<seq<Edge>>)
    requires info.Validated() && n > 0 && InRange(edges, n)
    ensures r.Success? <==> PartialTails(info, t, edges, n)
    ensures r.Success? ==> SameEdges(edges, r.value)
  {
    hide CountsOf, InPart;
    var files;
    ghost var parts;
    files, parts := WriteEdges(info, t, n, edges);
    VertexInPart(info, t, files, parts, 0);
    var edgeChunkNums := ReadChunkNums(info, t, files, parts);
    r := CollectEdges(info, t, files, edgeChunkNums, parts);
    forall i: nat | i < |parts|
      ensures FullTail(info, parts[i]) <==> !PartialTailAt(info, |PartOf(info, t, edges, i)|)
    {
      assert parts[i] == [] <==> |parts[i]| == 0;
    }
  }

  /** With edge chunks of one row every edge ends a full chunk: the iteration throws. */
  lemma IterationThrows()
    ensures !PartialTails(EdgeSizes(1, 1, 1), OrderedBySource, [Edge(0, 0)], 1)
  {
    var info, edges := EdgeSizes(1, 1, 1), [Edge(0, 0)];
    assert edges[..0] == [];
    assert InPart(info, OrderedBySource, edges[0], 0);
    assert !PartialTailAt(info, |PartOf(info, OrderedBySource, edges, 0)|);
  }

  lemma DistancesOfSameEdges(edges: seq<Edge>, rows: seq<Edge>, root: nat, dist: seq<int>)
    requires SameEdges(edges, rows) && ShortestDistances(rows, root, dist)
    ensures ShortestDistances(edges, root, dist)
  {
    hide HasPath;
    SameEdgesMembers(edges, rows);
    forall v: nat | v < |dist|
      ensures dist[v] >= 0 ==> HasPath(edges, root, v, dist[v])
      ensures forall len: nat :: HasPath(edges, root, v, len) ==> 0 <= dist[v] <= len
    {
      if dist[v] >= 0 {
        MoreEdgesMorePaths(rows, edges, root, v, dist[v]);
      }
      forall len: nat | HasPath(edges, root, v, len) ensures 0 <= dist[v] <= len {
        MoreEdgesMorePaths(edges, rows, root, v, len);
      }
    }
  }

  lemma LabelsOfSameEdges(edges: seq<Edge>, rows: seq<Edge>, comp: seq<nat>)
    requires SameEdges(edges, rows) && MinLabels(rows, comp)
    ensures MinLabels(edges, comp) && AllComponents(edges, |comp|) == AllComponents(rows, |comp|)
  {
    hide Connected;
    SameEdgesMembers(edges, rows);
    forall u, v ensures Connected(edges, u, v) <==> Connected(rows, u, v) {
      if Connected(edges, u, v) {
        ConnectedSameEdges(edges, rows, u, v);
      }
      if Connected(rows, u, v) {
        ConnectedSameEdges(rows, edges, u, v);
      }
    }
    forall v: nat ensures ComponentOf(edges, |comp|, v) == ComponentOf(rows, |comp|, v) {
    }
  }

  /** Breadth-first search over the stored collection answers for the edges that were written. */
  method StoredBfs(info: EdgeSizes, t: AdjListType, n: nat, edges: seq<Edge>, root: nat)
    returns (ok: bool, distance: array<int>)
    requires info.Validated() && n > 0 && InRange(edges, n)
    ensures ok <==> PartialTails(info, t, edges, n)
    ensures ok ==> distance.Length == n && ShortestDistances(edges, root, distance[..])
  {
    var rows := WriteAndIterate(info, t, n, edges);
    ok := rows.Success?;
    if ok {
      SameEdgesInRange(edges, rows.value, n);
      distance := BfsStream.BfsDistances(n, rows.value, root);
      DistancesOfSameEdges(edges, rows.value, root, distance[..]);
    } else {
      distance := new int[0];
    }
  }

  /** Connected components over the stored collection, likewise. */
  method StoredComponents(info: EdgeSizes, t: AdjListType, n: nat, edges: seq<Edge>)
    returns (ok: bool, component: array<nat>, ccNum: nat)
    requires info.Validated() && n > 0 && InRange(edges, n)
    ensures ok <==> PartialTails(info, t, edges, n)
    ensures ok ==> component.Length == n && MinLabels(edges, component[..]) && ccNum == |AllComponents(edges, n)|
  {
    var rows := WriteAndIterate(info, t, n, edges);
    ok := rows.Success?;
    if ok {
      SameEdgesInRange(edges, rows.value, n);
      component, ccNum := ComponentsStream.ConnectedComponents(n, rows.value);
      LabelsOfSameEdges(edges, rows.value, component[..]);
    } else {
      component, ccNum := new nat[0], 0;
    }
  }

  /** PageRank over the stored collection, likewise: the order of storage does not change the ranks. */
  method StoredPageRank(info: EdgeSizes, t: AdjListType, n: nat, edges: seq<Edge>)
    returns (ok: bool, ranks: array<real>)
    requires info.Validated() && n > 0 && InRange(edges, n)
    ensures ok <==> PartialTails(info, t, edges, n)
    ensures ok ==> ranks.Length == n && ranks[..] == PageRank.Ranks(edges, n, PageRank.MAX_ITERS)
  {
    var rows := WriteAndIterate(info, t, n, edges);
    ok := rows.Success?;
    if ok {
      SameEdgesInRange(edges, rows.value, n);
      ranks := PageRank.ComputePageRank(n, rows.value);
      PageRank.RanksOfSameEdges(edges, rows.value, n, PageRank.MAX_ITERS);
    } else {
      ranks := new real[0];
    }
  }

  // ----- one vertex's edges -----

  /** What a slice of a part keeps of the multiplicities, when it holds the rows of one key. */
  lemma SliceCount(t: AdjListType, part: seq<Edge>, b: nat, e: nat, id: nat, x: Edge)
    requires b <= e <= |part| && forall k :: 0 <= k < |part| ==> (b <= k < e <==> Key(t, part[k]) == id)
    ensures multiset(part[b..e])[x] == if Key(t, x) == id then multiset(part)[x] else 0
  {
    assert part == part[..b] + part[b..e] + part[e..];
    if Key(t, x) == id {
      assert x !in part[..b] && x !in part[e..];
    } else {
      assert x !in part[b..e];
    }
  }

  lemma PartCount(info: EdgeSizes, t: AdjListType, parts: seq<seq<Edge>>, p: nat, x: Edge)
    requires info.Validated() && AllInPart(info, t, parts) && p < |parts|
    requires Key(t, x) / info.VertexChunkSize(t) == p
    ensures multiset(parts[p])[x] == multiset(Flatten(parts))[x]
  {
    hide Flatten, AllInPart, Key;
    OtherPartsLackKey(info, t, parts, p, x);
    FlattenAround(parts, p);
  }

  /** rows lists exactly the edges with this key, each as often as it was written. */
  ghost predicate RowOf(t: AdjListType, edges: seq<Edge>, id: nat, rows: seq<Edge>) {
    forall e :: multiset(rows)[e] == if Key(t, e) == id then multiset(edges)[e] else 0
  }

  ghost predicate HasKey(t: AdjListType, edges: seq<Edge>, id: nat) {
    exists e :: e in edges && Key(t, e) == id
  }

  ghost predicate LastKeyInPart(info: EdgeSizes, t: AdjListType, edges: seq<Edge>, id: nat, p: nat)
    requires info.Validated()
  {
    forall e :: e in edges && InPart(info, t, e, p) ==> Key(t, e) <= id
  }

  /** The vertex has edges, they are the last ones of its vertex chunk, and the chunk has a full tail. */
  ghost predicate RowAtFullTail(info: EdgeSizes, t: AdjListType, edges: seq<Edge>, id: nat)
    requires info.Validated()
  {
    var p := id / info.VertexChunkSize(t);
    HasKey(t, edges, id) && LastKeyInPart(info, t, edges, id, p) && !PartialTailAt(info, |PartOf(info, t, edges, p)|)
  }

  lemma RowEndsPart(t: AdjListType, part: seq<Edge>, b: nat, e: nat, id: nat)
    requires SortedByKey(t, part) && b <= e <= |part|
    requires forall k :: 0 <= k < |part| ==> (b <= k < e <==> Key(t, part[k]) == id)
    ensures b < e <==> HasKey(t, part, id)
    ensures b < e ==> (e == |part| <==> forall x :: x in part ==> Key(t, x) <= id)
  {
    if b < e {
      assert part[b] in part && Key(t, part[b]) == id;
      if e < |part| {
        assert part[e] in part && Key(t, part[e]) >= Key(t, part[b]);
      } else {
        forall x | x in part ensures Key(t, x) <= id {
          var k :| 0 <= k < |part| && part[k] == x;
          assert k == e - 1 || Key(t, part[k]) <= Key(t, part[e - 1]);
        }
      }
    }
  }

  /** part holds the edges of id's vertex chunk. */
  ghost predicate IsPartOf(info: EdgeSizes, t: AdjListType, edges: seq<Edge>, part: seq<Edge>, id: nat)
    requires info.Validated()
  {
    forall x :: x in part <==> x in edges && InPart(info, t, x, id / info.VertexChunkSize(t))
  }

  lemma KeyInPart(info: EdgeSizes, t: AdjListType, edges: seq<Edge>, part: seq<Edge>, id: nat)
    requires info.Validated() && IsPartOf(info, t, edges, part, id)
    ensures HasKey(t, part, id) <==> HasKey(t, edges, id)
  {
    if HasKey(t, edges, id) {
      var e :| e in edges && Key(t, e) == id;
      assert InPart(info, t, e, id / info.VertexChunkSize(t));
      assert e in part;
    }
    if HasKey(t, part, id) {
      var e :| e in part && Key(t, e) == id;
      assert e in edges;
    }
  }

  lemma LastKeyOfPart(info: EdgeSizes, t: AdjListType, edges: seq<Edge>, part: seq<Edge>, id: nat)
    requires info.Validated() && IsPartOf(info, t, edges, part, id)
    ensures (forall x :: x in part ==> Key(t, x) <= id) <==>
      LastKeyInPart(info, t, edges, id, id / info.VertexChunkSize(t))
  {
    hide InPart;
  }

  lemma SameEdgesInPart(info: EdgeSizes, t: AdjListType, edges: seq<Edge>, parts: seq<seq<Edge>>, p: nat, x: Edge)
    requires info.Validated() && AllInPart(info, t, parts) && p < |parts|
    requires multiset(Flatten(parts)) == multiset(edges)
    ensures x in parts[p] <==> x in edges && InPart(info, t, x, p)
  {
    hide Flatten, AllInPart;
    PartOfEdge(info, t, parts, x);
    assert x in Flatten(parts) <==> x in multiset(Flatten(parts));
    assert x in edges <==> x in multiset(edges);
    if x in parts[p] {
      InWhichPart(info, t, parts, p, x);
    }
  }

  lemma RowFailsIff(info: EdgeSizes, t: AdjListType, edges: seq<Edge>, part: seq<Edge>, id: nat, b: nat, e: nat)
    requires info.Validated() && SortedByKey(t, part) && b <= e <= |part|
    requires forall k :: 0 <= k < |part| ==> (b <= k < e <==> Key(t, part[k]) == id)
    requires |part| == |PartOf(info, t, edges, id / info.VertexChunkSize(t))| && IsPartOf(info, t, edges, part, id)
    ensures b < e == |part| && FullTail(info, part) <==> RowAtFullTail(info, t, edges, id)
  {
    hide SortedByKey, PartOf, HasKey, LastKeyInPart, InPart, IsPartOf;
    RowEndsPart(t, part, b, e, id);
    KeyInPart(info, t, edges, part, id);
    LastKeyOfPart(info, t, edges, part, id);
    assert part == [] <==> |part| == 0;
  }

  /**
   * Writing edges and visiting one vertex with first_* and next_* delivers exactly the edges
   * written for it, unless they are the last of a vertex chunk with a full tail.
   */
  method WriteAndVisit(info: EdgeSizes, t: AdjListType, n: nat, edges: seq<Edge>, id: nat)
    returns (r: Result<seq<Edge>>)
    requires info.Validated() && n > 0 && InRange(edges, n) && t.Ordered() && id < n
    ensures r.Failure? <==> RowAtFullTail(info, t, edges, id)
    ensures r.Success? ==> RowOf(t, edges, id, r.value)
  {
    hide CountsOf, OffsetsFor, StoresPart, FullTail, RowAtFullTail, SortedByKey;
    var files;
    ghost var parts;
    files, parts := WriteEdges(info, t, n, edges);
    VertexInPart(info, t, files, parts, id);
    var edgeChunkNums := ReadChunkNums(info, t, files, parts);
    r := VisitRow(info, t, files, edgeChunkNums, parts, id);
    ghost var p, range := id / info.VertexChunkSize(t), RowRange(info, t, files, parts, id);
    forall x ensures x in parts[p] <==> x in edges && InPart(info, t, x, p) {
      SameEdgesInPart(info, t, edges, parts, p, x);
    }
    RowFailsIff(info, t, edges, parts[p], id, range.0, range.1);
    if r.Success? {
      forall x ensures multiset(r.value)[x] == if Key(t, x) == id then multiset(edges)[x] else 0 {
        SliceCount(t, parts[p], range.0, range.1, id, x);
        if Key(t, x) == id {
          PartCount(info, t, parts, p, x);
        }
      }
    }
  }
}
