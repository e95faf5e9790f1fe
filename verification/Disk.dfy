/**
 * The files of the edge layout under the paths an edge info gives them: a directory tree is a
 * map from paths to contents.
 */
module Disks {
  import opened Arith
  import opened EdgeLayout
  import opened EdgesBuilders
  import opened Graph
  import opened Paths
  import opened Results
  import opened Types

  datatype Content = Count(count: nat) | Offsets(offsets: seq<nat>) | Rows(rows: seq<Edge>)

  function Lookup(disk: map<string, Content>, path: string): Option<Content> {
    if path in disk then Some(disk[path]) else None
  }

  /** What a file of an adjacency list holds; its property chunks are not part of the layout. */
  function ContentOf(files: EdgeFiles, f: EdgeFile): Option<Content> {
    match f
    case VertexCount(_) => Some(Count(files.vertexCount))
    case EdgeCount(_, i) => if i >= 0 && i in files.edgeCount then Some(Count(files.edgeCount[i])) else None
    case OffsetChunk(_, i) => if i >= 0 && i in files.offset then Some(Offsets(files.offset[i])) else None
    case AdjListChunk(_, i, j) =>
      if i >= 0 && j >= 0 && (i, j) in files.adjList then Some(Rows(files.adjList[(i, j)])) else None
    case PropertyChunk(_, _, _, _) => None
  }

  ghost predicate OfList(f: EdgeFile, list: string) {
    f.list == list && !f.PropertyChunk?
  }

  /** The tree holds exactly these files of the list, under their paths. */
  ghost predicate Reflects(disk: map<string, Content>, prefix: string, list: string, files: EdgeFiles)
    requires prefix != "" && list != ""
  {
    forall f: EdgeFile :: OfList(f, list) ==> Lookup(disk, PathOf(prefix, f)) == ContentOf(files, f)
  }

  /** Two files of one list never share a path. */
  lemma OneFilePerPath(prefix: string, list: string, f: EdgeFile, g: EdgeFile)
    requires prefix != "" && list != "" && OfList(f, list) && OfList(g, list)
    ensures PathOf(prefix, f) == PathOf(prefix, g) <==> f == g
  {
    hide PathOf, Slashed;
    PathsDetermineFiles(prefix, f, g);
  }

  /** Nor do files of lists in different directories. */
  lemma OtherListOtherPath(prefix: string, f: EdgeFile, g: EdgeFile)
    requires prefix != "" && f.Named() && g.Named() && !f.PropertyChunk? && !g.PropertyChunk?
    requires Slashed(f.list) != Slashed(g.list)
    ensures PathOf(prefix, f) != PathOf(prefix, g)
  {
    hide PathOf, Slashed;
    PathsDetermineFiles(prefix, f, g);
    SameTail(Slashed(f.list), Slashed(g.list), "adj_list/");
  }

  /** So a tree determines the files of a list. */
  lemma ReflectsUnique(disk: map<string, Content>, prefix: string, list: string, a: EdgeFiles, b: EdgeFiles)
    requires prefix != "" && list != "" && Reflects(disk, prefix, list, a) && Reflects(disk, prefix, list, b)
    ensures a == b
  {
    hide PathOf;
    forall f: EdgeFile | OfList(f, list) ensures ContentOf(a, f) == ContentOf(b, f) {
      assert Lookup(disk, PathOf(prefix, f)) == ContentOf(a, f);
    }
    assert ContentOf(a, VertexCount(list)) == ContentOf(b, VertexCount(list));
    forall i: nat ensures i in a.edgeCount <==> i in b.edgeCount
      ensures i in a.edgeCount ==> a.edgeCount[i] == b.edgeCount[i]
    {
      assert ContentOf(a, EdgeCount(list, i)) == ContentOf(b, EdgeCount(list, i));
    }
    forall i: nat ensures i in a.offset <==> i in b.offset
      ensures i in a.offset ==> a.offset[i] == b.offset[i]
    {
      assert ContentOf(a, OffsetChunk(list, i)) == ContentOf(b, OffsetChunk(list, i));
    }
    forall k: (nat, nat) ensures k in a.adjList <==> k in b.adjList
      ensures k in a.adjList ==> a.adjList[k] == b.adjList[k]
    {
      assert k == (k.0, k.1);
      assert ContentOf(a, AdjListChunk(list, k.0, k.1)) == ContentOf(b, AdjListChunk(list, k.0, k.1));
    }
    assert a.edgeCount == b.edgeCount && a.offset == b.offset && a.adjList == b.adjList;
  }

  /** The files a list consists of. */
  function FilesOf(list: string, files: EdgeFiles): (s: set<EdgeFile>)
    ensures forall f :: f in s <==> OfList(f, list) && ContentOf(files, f).Some?
  {
    {VertexCount(list)}
    + (set i | i in files.edgeCount :: EdgeCount(list, i))
    + (set i | i in files.offset :: OffsetChunk(list, i))
    + (set k | k in files.adjList :: AdjListChunk(list, k.0, k.1))
  }

  /** Writing the files of a list in any order where the list has none yet. */
  method Save(disk: map<string, Content>, prefix: string, list: string, files: EdgeFiles)
    returns (saved: map<string, Content>)
    requires prefix != "" && list != ""
    requires forall f: EdgeFile :: OfList(f, list) ==> Lookup(disk, PathOf(prefix, f)).None?
    ensures Reflects(saved, prefix, list, files)
    ensures forall f: EdgeFile :: f.Named() && !f.PropertyChunk? && Slashed(f.list) != Slashed(list) ==>
      Lookup(saved, PathOf(prefix, f)) == Lookup(disk, PathOf(prefix, f))
  {
    hide PathOf, Slashed, ContentOf, FilesOf;
    saved := disk;
    var todo := FilesOf(list, files);
    while todo != {}
      invariant todo <= FilesOf(list, files)
      invariant forall f: EdgeFile :: OfList(f, list) ==>
        Lookup(saved, PathOf(prefix, f)) == if f in todo then None else ContentOf(files, f)
      invariant forall f: EdgeFile :: f.Named() && !f.PropertyChunk? && Slashed(f.list) != Slashed(list) ==>
        Lookup(saved, PathOf(prefix, f)) == Lookup(disk, PathOf(prefix, f))
      decreases todo
    {
      var f :| f in todo;
      forall g: EdgeFile | OfList(g, list) ensures PathOf(prefix, f) == PathOf(prefix, g) <==> f == g {
        OneFilePerPath(prefix, list, f, g);
      }
      forall g: EdgeFile | g.Named() && !g.PropertyChunk? && Slashed(g.list) != Slashed(list)
        ensures PathOf(prefix, f) != PathOf(prefix, g)
      {
        OtherListOtherPath(prefix, f, g);
      }
      saved := saved[PathOf(prefix, f) := ContentOf(files, f).value];
      todo := todo - {f};
    }
  }

  /**
   * Adding edges, dumping, and what the tree holds afterwards: part i of the edges lies in the
   * chunk files of directory part<i>, row r in chunk r / chunkSize, and there are no other chunks.
   */
  method SaveEdges(disk: map<string, Content>, prefix: string, list: string,
                   info: EdgeSizes, t: AdjListType, n: nat, edges: seq<Edge>)
    returns (saved: map<string, Content>, ghost parts: seq<seq<Edge>>)
    requires prefix != "" && list != "" && info.Validated()
    requires forall k :: 0 <= k < |edges| ==> Key(t, edges[k]) < n
    requires forall f: EdgeFile :: OfList(f, list) ==> Lookup(disk, PathOf(prefix, f)).None?
    ensures IsPartition(info, t, edges, parts)
    ensures forall i: nat, j: nat :: i < |parts| ==>
      Lookup(saved, PathOf(prefix, AdjListChunk(list, i, j)))
        == if j < ChunkCount(info, parts[i]) then ChunkContent(info, parts[i], j) else None
    ensures forall i: nat :: i < |parts| ==>
      Lookup(saved, PathOf(prefix, EdgeCount(list, i))) == Some(Count(|parts[i]|))
    ensures forall f: EdgeFile :: f.Named() && !f.PropertyChunk? && Slashed(f.list) != Slashed(list) ==>
      Lookup(saved, PathOf(prefix, f)) == Lookup(disk, PathOf(prefix, f))
  {
    hide PathOf, Slashed, IsPartition, ChunkCount, PartOf, OffsetsFor;
    var files;
    files, parts := WriteEdges(info, t, n, edges);
    saved := Save(disk, prefix, list, files);
    forall i: nat, j: nat | i < |parts|
      ensures Lookup(saved, PathOf(prefix, AdjListChunk(list, i, j)))
        == if j < ChunkCount(info, parts[i]) then ChunkContent(info, parts[i], j) else None
    {
      assert OfList(AdjListChunk(list, i, j), list);
      assert StoresPart(info, files, parts[i], i);
      ChunkStart(info, parts[i], j);
    }
    forall i: nat | i < |parts| ensures Lookup(saved, PathOf(prefix, EdgeCount(list, i))) == Some(Count(|parts[i]|)) {
      assert OfList(EdgeCount(list, i), list);
      assert StoresPart(info, files, parts[i], i);
    }
  }

  lemma ChunkStart(info: EdgeSizes, part: seq<Edge>, j: nat)
    requires info.Validated()
    ensures j < ChunkCount(info, part) ==> j * info.chunkSize <= |part|
  {
    CeilDivExists(|part|, info.chunkSize, j);
  }

  ghost function ChunkContent(info: EdgeSizes, part: seq<Edge>, j: nat): Option<Content>
    requires info.Validated() && j < ChunkCount(info, part)
  {
    ChunkStart(info, part, j);
    Some(Rows(ChunkRows(info, part, j)))
  }
}
