/**
 * Dump and Load of a graph info, whose vertex and edge infos live in files of their own
 * (cpp/src/graphar/graph_info.cc). The file system is a map from a path to the tree parsed
 * from that file; a missing path is a failed read.
 */
module GraphYaml {
  import opened GraphInfos
  import opened InfoYaml
  import opened KeyIndex
  import opened PropertyGroups
  import opened Results
  import opened Types
  import opened Versions

  // ----- extra info -----

  function PairNode(pair: (string, string)): Node {
    Mapping(map["key" := Scalar(pair.0), "value" := Scalar(pair.1)])
  }

  ghost function PairNodes(pairs: seq<(string, string)>): seq<Node> {
    if pairs == [] then [] else PairNodes(pairs[..|pairs| - 1]) + [PairNode(pairs[|pairs| - 1])]
  }

  /** Emplacing one pair after the other: the first value of a key stays. */
  function LoadPairs(nodes: seq<Node>): map<string, string> {
    if nodes == [] then map[]
    else
      var n := nodes[|nodes| - 1];
      Emplace(LoadPairs(nodes[..|nodes| - 1]), n.Get("key").AsString(), n.Get("value").AsString())
  }

  /** pairs lists m, in the order the hash map happens to give. */
  ghost predicate Lists(pairs: seq<(string, string)>, m: map<string, string>) {
    && (forall i :: 0 <= i < |pairs| ==> pairs[i].0 in m && m[pairs[i].0] == pairs[i].1)
    && (forall k :: k in m ==> (k, m[k]) in pairs)
  }

  lemma {:induction false} PairsReadBack(pairs: seq<(string, string)>, m: map<string, string>)
    requires forall i :: 0 <= i < |pairs| ==> pairs[i].0 in m && m[pairs[i].0] == pairs[i].1
    ensures var loaded := LoadPairs(PairNodes(pairs));
            && (forall k :: k in loaded ==> k in m && loaded[k] == m[k])
            && (forall i :: 0 <= i < |pairs| ==> pairs[i].0 in loaded)
  {
    if pairs != [] {
      var init, last := pairs[..|pairs| - 1], pairs[|pairs| - 1];
      var nodes := PairNodes(pairs);
      PairsReadBack(init, m);
      assert nodes[..|nodes| - 1] == PairNodes(init);
      assert PairNode(last).Get("key").AsString() == last.0 && PairNode(last).Get("value").AsString() == last.1;
    }
  }

  lemma ExtraInfoReadsBack(pairs: seq<(string, string)>, m: map<string, string>)
    requires Lists(pairs, m)
    ensures LoadPairs(PairNodes(pairs)) == m
  {
    PairsReadBack(pairs, m);
    var loaded := LoadPairs(PairNodes(pairs));
    forall k | k in m ensures k in loaded {
      var i :| 0 <= i < |pairs| && pairs[i] == (k, m[k]);
    }
  }

  method DumpPairs(m: map<string, string>) returns (nodes: seq<Node>, ghost pairs: seq<(string, string)>)
    ensures Lists(pairs, m) && nodes == PairNodes(pairs) && LoadPairs(nodes) == m
  {
    nodes, pairs := [], [];
    var rest := m.Keys;
    while rest != {}
      invariant rest <= m.Keys
      invariant forall i :: 0 <= i < |pairs| ==> pairs[i].0 in m && m[pairs[i].0] == pairs[i].1
      invariant forall k :: k in m && k !in rest ==> (k, m[k]) in pairs
      invariant nodes == PairNodes(pairs)
      decreases rest
    {
      var k :| k in rest;
      rest := rest - {k};
      ghost var before := pairs;
      pairs := pairs + [(k, m[k])];
      assert pairs[..|pairs| - 1] == before;
      nodes := nodes + [PairNode((k, m[k]))];
    }
    ExtraInfoReadsBack(pairs, m);
  }

  /** The first node with this key has this value. */
  ghost predicate FirstValue(nodes: seq<Node>, key: string, value: string) {
    exists i :: 0 <= i < |nodes| && KeyAt(nodes, i) == key && nodes[i].Get("value").AsString() == value
      && forall j :: 0 <= j < i ==> KeyAt(nodes, j) != key
  }

  ghost function KeyAt(nodes: seq<Node>, i: int): string
    requires 0 <= i < |nodes|
  {
    nodes[i].Get("key").AsString()
  }

  /** Each key once, with the value of the first node that has it. */
  ghost predicate PairsFrom(nodes: seq<Node>, m: map<string, string>) {
    && (forall i :: 0 <= i < |nodes| ==> KeyAt(nodes, i) in m)
    && (forall k :: k in m ==> FirstValue(nodes, k, m[k]))
  }

  lemma FirstValueStays(nodes: seq<Node>, key: string, value: string)
    requires nodes != [] && FirstValue(nodes[..|nodes| - 1], key, value)
    ensures FirstValue(nodes, key, value)
  {
    hide Node.Get, Node.AsString;
    var init := nodes[..|nodes| - 1];
    assert forall j :: 0 <= j < |init| ==> KeyAt(init, j) == KeyAt(nodes, j);
  }

  lemma LastIsFirst(nodes: seq<Node>, m: map<string, string>)
    requires nodes != [] && PairsFrom(nodes[..|nodes| - 1], m) && KeyAt(nodes, |nodes| - 1) !in m
    ensures FirstValue(nodes, KeyAt(nodes, |nodes| - 1), nodes[|nodes| - 1].Get("value").AsString())
  {
    hide Node.Get, Node.AsString;
    var init := nodes[..|nodes| - 1];
    assert forall j :: 0 <= j < |init| ==> KeyAt(init, j) == KeyAt(nodes, j);
  }

  lemma {:induction false} PairsLoad(nodes: seq<Node>)
    ensures PairsFrom(nodes, LoadPairs(nodes))
  {
    hide Node.Get, Node.AsString, FirstValue;
    if nodes != [] {
      var init, last := nodes[..|nodes| - 1], |nodes| - 1;
      var before, m := LoadPairs(init), LoadPairs(nodes);
      PairsLoad(init);
      forall k | k in m ensures FirstValue(nodes, k, m[k]) {
        if k in before {
          FirstValueStays(nodes, k, before[k]);
        } else {
          LastIsFirst(nodes, before);
        }
      }
      forall i | 0 <= i < |nodes| ensures KeyAt(nodes, i) in m {
        assert i < last ==> KeyAt(init, i) == KeyAt(nodes, i);
      }
    }
  }

  method LoadExtraInfo(nodes: seq<Node>) returns (extra: map<string, string>)
    ensures extra == LoadPairs(nodes) && PairsFrom(nodes, extra)
  {
    PairsLoad(nodes);
    hide PairsFrom;
    extra := map[];
    for i := 0 to |nodes|
      invariant extra == LoadPairs(nodes[..i])
    {
      assert nodes[..i + 1][..i] == nodes[..i];
      extra := Emplace(extra, nodes[i].Get("key").AsString(), nodes[i].Get("value").AsString());
    }
    assert nodes[..|nodes|] == nodes;
  }

  // ----- the files of the vertex and edge infos -----

  type Files = map<string, Node>

  function VertexFileName(v: VertexInfo): string {
    v.vertexType + ".vertex.yaml"
  }

  function EdgeFileName(e: EdgeInfo): string {
    KeyOf(e) + ".edge.yaml"
  }

  function ReadFile(files: Files, path: string): Result<Node> {
    if path in files then Success(files[path]) else Failure(IOError)
  }

  function LoadVertexFile(files: Files, path: string): Result<VertexInfo> {
    match ReadFile(files, path)
    case Failure(e) => Failure(e)
    case Success(n) => LoadVertexNode(n)
  }

  function LoadEdgeFile(files: Files, path: string): Result<EdgeInfo> {
    match ReadFile(files, path)
    case Failure(e) => Failure(e)
    case Success(n) => LoadEdgeNode(n)
  }

  function LoadVertexFiles(files: Files, dir: string, names: seq<Node>): Result<seq<Option<VertexInfo>>> {
    if names == [] then Success([])
    else match LoadVertexFiles(files, dir, names[..|names| - 1])
      case Failure(e) => Failure(e)
      case Success(infos) =>
        match LoadVertexFile(files, dir + names[|names| - 1].AsString())
        case Failure(e) => Failure(e)
        case Success(v) => Success(infos + [Some(v)])
  }

  function LoadEdgeFiles(files: Files, dir: string, names: seq<Node>): Result<seq<Option<EdgeInfo>>> {
    if names == [] then Success([])
    else match LoadEdgeFiles(files, dir, names[..|names| - 1])
      case Failure(e) => Failure(e)
      case Success(infos) =>
        match LoadEdgeFile(files, dir + names[|names| - 1].AsString())
        case Failure(e) => Failure(e)
        case Success(v) => Success(infos + [Some(v)])
  }

  ghost predicate VertexFileReadable(files: Files, path: string) {
    path in files && VersionReadable(files[path]) && GroupsReadable(files[path].Get("property_groups").Items())
  }

  ghost predicate EdgeFileReadable(files: Files, path: string) {
    path in files && EdgeReadable(files[path])
  }

  /** Why a file cannot be loaded: it is missing, its version does not parse, or a name in it is unknown. */
  ghost function FileError(files: Files, path: string): Status {
    if path !in files then IOError else if VersionReadable(files[path]) then Thrown else Invalid
  }

  ghost function FilePath(dir: string, names: seq<Node>, i: nat): string
    requires i < |names|
  {
    dir + names[i].AsString()
  }

  /** The info of every named file, in order. */
  ghost predicate VerticesFrom(files: Files, dir: string, names: seq<Node>, infos: seq<Option<VertexInfo>>) {
    && |infos| == |names|
    && forall i :: 0 <= i < |names| ==>
         && infos[i].Some? && FilePath(dir, names, i) in files
         && VertexFrom(files[FilePath(dir, names, i)], infos[i].value)
         && VertexFileReadable(files, FilePath(dir, names, i))
  }

  ghost predicate EdgesFrom(files: Files, dir: string, names: seq<Node>, infos: seq<Option<EdgeInfo>>) {
    && |infos| == |names|
    && forall i :: 0 <= i < |names| ==>
         && infos[i].Some? && FilePath(dir, names, i) in files
         && EdgeFrom(files[FilePath(dir, names, i)], infos[i].value)
         && EdgeFileReadable(files, FilePath(dir, names, i))
  }

  /** The first file that cannot be loaded. */
  ghost predicate FirstBadVertex(files: Files, dir: string, names: seq<Node>, i: nat) {
    && i < |names| && !VertexFileReadable(files, FilePath(dir, names, i))
    && forall j: nat :: j < i ==> VertexFileReadable(files, FilePath(dir, names, j))
  }

  ghost predicate FirstBadEdge(files: Files, dir: string, names: seq<Node>, i: nat) {
    && i < |names| && !EdgeFileReadable(files, FilePath(dir, names, i))
    && forall j: nat :: j < i ==> EdgeFileReadable(files, FilePath(dir, names, j))
  }

  lemma VertexFileLoads(files: Files, path: string)
    ensures LoadVertexFile(files, path).Success? <==> VertexFileReadable(files, path)
    ensures LoadVertexFile(files, path).Success?
            ==> path in files && VertexFrom(files[path], LoadVertexFile(files, path).value)
    ensures LoadVertexFile(files, path).Failure? ==> LoadVertexFile(files, path).error == FileError(files, path)
  {
    hide LoadVertexNode, VertexFrom, VersionReadable, GroupsReadable;
    if path in files {
      VertexLoads(files[path]);
    }
  }

  lemma EdgeFileLoads(files: Files, path: string)
    ensures LoadEdgeFile(files, path).Success? <==> EdgeFileReadable(files, path)
    ensures LoadEdgeFile(files, path).Success?
            ==> path in files && EdgeFrom(files[path], LoadEdgeFile(files, path).value)
    ensures LoadEdgeFile(files, path).Failure? ==> LoadEdgeFile(files, path).error == FileError(files, path)
  {
    hide LoadEdgeNode, EdgeFrom, VersionReadable, EdgeReadable;
    if path in files {
      EdgeLoads(files[path]);
    }
  }

  lemma VerticesFromAppend(files: Files, dir: string, names: seq<Node>, infos: seq<Option<VertexInfo>>, x: VertexInfo)
    requires names != [] && VerticesFrom(files, dir, names[..|names| - 1], infos)
    requires var path := FilePath(dir, names, |names| - 1);
      path in files && VertexFileReadable(files, path) && VertexFrom(files[path], x)
    ensures VerticesFrom(files, dir, names, infos + [Some(x)])
  {
    hide VertexFrom, VertexFileReadable;
    var init, all := names[..|names| - 1], infos + [Some(x)];
    forall i | 0 <= i < |names|
      ensures all[i].Some? && FilePath(dir, names, i) in files
      ensures VertexFrom(files[FilePath(dir, names, i)], all[i].value)
      ensures VertexFileReadable(files, FilePath(dir, names, i))
    {
      if i < |init| {
        assert FilePath(dir, init, i) == FilePath(dir, names, i);
      }
    }
  }

  /** The first file that cannot be loaded fails with this error. */
  ghost predicate VerticesFail(files: Files, dir: string, names: seq<Node>, e: Status) {
    exists i: nat ::
      i < |names| && FirstBadVertex(files, dir, names, i) && e == FileError(files, FilePath(dir, names, i))
  }

  lemma FirstBadVertexStays(files: Files, dir: string, names: seq<Node>, i: nat)
    requires names != [] && FirstBadVertex(files, dir, names[..|names| - 1], i)
    ensures FirstBadVertex(files, dir, names, i) && FilePath(dir, names, i) == FilePath(dir, names[..|names| - 1], i)
  {
    hide VertexFileReadable;
    forall j: nat | j < i ensures VertexFileReadable(files, FilePath(dir, names, j)) {
      assert FilePath(dir, names[..|names| - 1], j) == FilePath(dir, names, j);
    }
  }

  lemma FirstBadVertexLast(files: Files, dir: string, names: seq<Node>, infos: seq<Option<VertexInfo>>)
    requires names != [] && VerticesFrom(files, dir, names[..|names| - 1], infos)
    requires !VertexFileReadable(files, FilePath(dir, names, |names| - 1))
    ensures FirstBadVertex(files, dir, names, |names| - 1)
  {
    hide VertexFileReadable, VertexFrom;
    forall j: nat | j < |names| - 1 ensures VertexFileReadable(files, FilePath(dir, names, j)) {
      assert FilePath(dir, names[..|names| - 1], j) == FilePath(dir, names, j);
    }
  }

  /** The named vertex files are loaded in order; the first bad one decides the failure. */
  lemma {:induction false} VertexFilesLoad(files: Files, dir: string, names: seq<Node>)
    ensures LoadVertexFiles(files, dir, names).Success? ==>
      VerticesFrom(files, dir, names, LoadVertexFiles(files, dir, names).value)
    ensures LoadVertexFiles(files, dir, names).Failure? ==>
      VerticesFail(files, dir, names, LoadVertexFiles(files, dir, names).error)
  {
    hide VertexFrom, VertexFileReadable, FileError, LoadVertexFile, FirstBadVertex, VerticesFrom;
    if names == [] {
      NoVertexFilesLoad(files, dir);
    } else {
      var init, last := names[..|names| - 1], |names| - 1;
      VertexFilesLoad(files, dir, init);
      VertexFileLoads(files, FilePath(dir, names, last));
      match LoadVertexFiles(files, dir, init)
      case Failure(e) =>
        var i: nat :|
          i < |init| && FirstBadVertex(files, dir, init, i) && e == FileError(files, FilePath(dir, init, i));
        FirstBadVertexStays(files, dir, names, i);
      case Success(infos) =>
        match LoadVertexFile(files, FilePath(dir, names, last))
        case Failure(_) => FirstBadVertexLast(files, dir, names, infos);
        case Success(x) => VerticesFromAppend(files, dir, names, infos, x);
    }
  }

  lemma NoVertexFilesLoad(files: Files, dir: string)
    ensures LoadVertexFiles(files, dir, []) == Success([]) && VerticesFrom(files, dir, [], [])
  {
  }

  lemma EdgesFromAppend(files: Files, dir: string, names: seq<Node>, infos: seq<Option<EdgeInfo>>, x: EdgeInfo)
    requires names != [] && EdgesFrom(files, dir, names[..|names| - 1], infos)
    requires var path := FilePath(dir, names, |names| - 1);
      path in files && EdgeFileReadable(files, path) && EdgeFrom(files[path], x)
    ensures EdgesFrom(files, dir, names, infos + [Some(x)])
  {
    hide EdgeFrom, EdgeFileReadable;
    var init, all := names[..|names| - 1], infos + [Some(x)];
    forall i | 0 <= i < |names|
      ensures all[i].Some? && FilePath(dir, names, i) in files
      ensures EdgeFrom(files[FilePath(dir, names, i)], all[i].value) && EdgeFileReadable(files, FilePath(dir, names, i))
    {
      if i < |init| {
        assert FilePath(dir, init, i) == FilePath(dir, names, i);
      }
    }
  }

  /** The first file that cannot be loaded fails with this error. */
  ghost predicate EdgesFail(files: Files, dir: string, names: seq<Node>, e: Status) {
    exists i: nat :: i < |names| && FirstBadEdge(files, dir, names, i) && e == FileError(files, FilePath(dir, names, i))
  }

  lemma FirstBadEdgeStays(files: Files, dir: string, names: seq<Node>, i: nat)
    requires names != [] && FirstBadEdge(files, dir, names[..|names| - 1], i)
    ensures FirstBadEdge(files, dir, names, i) && FilePath(dir, names, i) == FilePath(dir, names[..|names| - 1], i)
  {
    hide EdgeFileReadable;
    forall j: nat | j < i ensures EdgeFileReadable(files, FilePath(dir, names, j)) {
      assert FilePath(dir, names[..|names| - 1], j) == FilePath(dir, names, j);
    }
  }

  lemma FirstBadEdgeLast(files: Files, dir: string, names: seq<Node>, infos: seq<Option<EdgeInfo>>)
    requires names != [] && EdgesFrom(files, dir, names[..|names| - 1], infos)
    requires !EdgeFileReadable(files, FilePath(dir, names, |names| - 1))
    ensures FirstBadEdge(files, dir, names, |names| - 1)
  {
    hide EdgeFileReadable, EdgeFrom;
    forall j: nat | j < |names| - 1 ensures EdgeFileReadable(files, FilePath(dir, names, j)) {
      assert FilePath(dir, names[..|names| - 1], j) == FilePath(dir, names, j);
    }
  }

  /** The same for edge files. */
  lemma {:induction false} EdgeFilesLoad(files: Files, dir: string, names: seq<Node>)
    ensures LoadEdgeFiles(files, dir, names).Success? ==>
      EdgesFrom(files, dir, names, LoadEdgeFiles(files, dir, names).value)
    ensures LoadEdgeFiles(files, dir, names).Failure? ==>
      EdgesFail(files, dir, names, LoadEdgeFiles(files, dir, names).error)
  {
    hide EdgeFrom, EdgeFileReadable, FileError, LoadEdgeFile, FirstBadEdge, EdgesFrom;
    if names == [] {
      NoEdgeFilesLoad(files, dir);
    } else {
      var init, last := names[..|names| - 1], |names| - 1;
      EdgeFilesLoad(files, dir, init);
      EdgeFileLoads(files, FilePath(dir, names, last));
      match LoadEdgeFiles(files, dir, init)
      case Failure(e) =>
        var i: nat :| i < |init| && FirstBadEdge(files, dir, init, i) && e == FileError(files, FilePath(dir, init, i));
        FirstBadEdgeStays(files, dir, names, i);
      case Success(infos) =>
        match LoadEdgeFile(files, FilePath(dir, names, last))
        case Failure(_) => FirstBadEdgeLast(files, dir, names, infos);
        case Success(x) => EdgesFromAppend(files, dir, names, infos, x);
    }
  }

  lemma NoEdgeFilesLoad(files: Files, dir: string)
    ensures LoadEdgeFiles(files, dir, []) == Success([]) && EdgesFrom(files, dir, [], [])
  {
  }

  lemma {:induction false} VertexFilesFail(files: Files, dir: string, names: seq<Node>, i: nat)
    requires i <= |names| && LoadVertexFiles(files, dir, names[..i]).Failure?
    ensures LoadVertexFiles(files, dir, names) == LoadVertexFiles(files, dir, names[..i])
  {
    if i < |names| {
      assert names[..|names| - 1][..i] == names[..i];
      VertexFilesFail(files, dir, names[..|names| - 1], i);
    } else {
      assert names[..i] == names;
    }
  }

  lemma {:induction false} EdgeFilesFail(files: Files, dir: string, names: seq<Node>, i: nat)
    requires i <= |names| && LoadEdgeFiles(files, dir, names[..i]).Failure?
    ensures LoadEdgeFiles(files, dir, names) == LoadEdgeFiles(files, dir, names[..i])
  {
    if i < |names| {
      assert names[..|names| - 1][..i] == names[..i];
      EdgeFilesFail(files, dir, names[..|names| - 1], i);
    } else {
      assert names[..i] == names;
    }
  }

  method LoadVertices(files: Files, dir: string, names: seq<Node>) returns (r: Result<seq<Option<VertexInfo>>>)
    ensures r == LoadVertexFiles(files, dir, names)
    ensures r.Success? ==> VerticesFrom(files, dir, names, r.value)
    ensures r.Failure? ==> VerticesFail(files, dir, names, r.error)
  {
    hide LoadVertexNode, ReadFile, VerticesFrom, VerticesFail;
    VertexFilesLoad(files, dir, names);
    var infos: seq<Option<VertexInfo>> := [];
    for i := 0 to |names|
      invariant LoadVertexFiles(files, dir, names[..i]) == Success(infos)
    {
      GroupsStep(names, i);
      var input := ReadFile(files, dir + names[i].AsString());
      if input.Failure? {
        VertexFilesFail(files, dir, names, i + 1);
        return Failure(input.error);
      }
      var v := LoadVertex(input.value);
      if v.Failure? {
        VertexFilesFail(files, dir, names, i + 1);
        return Failure(v.error);
      }
      infos := infos + [Some(v.value)];
    }
    assert names[..|names|] == names;
    r := Success(infos);
  }

  method LoadEdges(files: Files, dir: string, names: seq<Node>) returns (r: Result<seq<Option<EdgeInfo>>>)
    ensures r == LoadEdgeFiles(files, dir, names)
    ensures r.Success? ==> EdgesFrom(files, dir, names, r.value)
    ensures r.Failure? ==> EdgesFail(files, dir, names, r.error)
  {
    hide LoadEdgeNode, ReadFile, EdgesFrom, EdgesFail;
    EdgeFilesLoad(files, dir, names);
    var infos: seq<Option<EdgeInfo>> := [];
    for i := 0 to |names|
      invariant LoadEdgeFiles(files, dir, names[..i]) == Success(infos)
    {
      GroupsStep(names, i);
      var input := ReadFile(files, dir + names[i].AsString());
      if input.Failure? {
        EdgeFilesFail(files, dir, names, i + 1);
        return Failure(input.error);
      }
      var e := LoadEdge(input.value);
      if e.Failure? {
        EdgeFilesFail(files, dir, names, i + 1);
        return Failure(e.error);
      }
      infos := infos + [Some(e.value)];
    }
    assert names[..|names|] == names;
    r := Success(infos);
  }

  // ----- the graph info file -----

  function VertexNames(vertices: seq<Option<VertexInfo>>): seq<string>
    requires forall i :: 0 <= i < |vertices| ==> vertices[i].Some?
  {
    seq(|vertices|, i requires 0 <= i < |vertices| => VertexFileName(vertices[i].value))
  }

  function EdgeNames(edges: seq<Option<EdgeInfo>>): seq<string>
    requires forall i :: 0 <= i < |edges| ==> edges[i].Some?
  {
    seq(|edges|, i requires 0 <= i < |edges| => EdgeFileName(edges[i].value))
  }

  ghost predicate AllSome(g: GraphInfo) {
    && (forall i :: 0 <= i < |g.vertices| ==> g.vertices[i].Some?)
    && (forall i :: 0 <= i < |g.edges| ==> g.edges[i].Some?)
  }

  /** "vertices" and "edges" are written even when empty, as a node without value. */
  function ListNode(nodes: seq<Node>): (n: Node)
    ensures n.Items() == nodes
  {
    if nodes == [] then Null else Sequence(nodes)
  }

  ghost function GraphNode(g: GraphInfo, pairs: seq<(string, string)>): Node
    requires AllSome(g)
  {
    var m := map["name" := Scalar(g.name), "prefix" := Scalar(g.prefix),
                 "vertices" := ListNode(Scalars(VertexNames(g.vertices))),
                 "edges" := ListNode(Scalars(EdgeNames(g.edges)))];
    var m := With(m, "labels", Scalars(g.labels));
    var m := With(m, "extra_info", PairNodes(pairs));
    Mapping(WithVersion(m, g.version))
  }

  /** "vertices" and "edges" name the file of every info, in order. */
  ghost predicate NamesFiles(n: Node, g: GraphInfo) {
    var vertices, edges := Texts(n.Get("vertices").Items()), Texts(n.Get("edges").Items());
    && |vertices| == |g.vertices| && |edges| == |g.edges|
    && (forall i :: 0 <= i < |g.vertices| && g.vertices[i].Some? ==>
         vertices[i] == g.vertices[i].value.vertexType + ".vertex.yaml")
    && (forall i :: 0 <= i < |g.edges| && g.edges[i].Some? ==>
         var e := g.edges[i].value; edges[i] == e.srcType + "_" + e.edgeType + "_" + e.dstType + ".edge.yaml")
  }

  lemma GraphNodeNamesFiles(g: GraphInfo, pairs: seq<(string, string)>)
    requires AllSome(g)
    ensures NamesFiles(GraphNode(g, pairs), g)
  {
    hide GraphNode, Scalars, PairNodes;
    GraphNodeEntries(g, pairs);
    TextsReadBack(VertexNames(g.vertices));
    TextsReadBack(EdgeNames(g.edges));
  }

  method DumpGraph(g: GraphInfo) returns (r: Result<Node>, ghost pairs: seq<(string, string)>)
    requires g.Built()
    ensures g.Validated() ==> AllSome(g) && Lists(pairs, g.extraInfo) && r == Success(GraphNode(g, pairs))
    ensures g.Validated() ==> NamesFiles(r.value, g)
    ensures !g.Validated() ==> r == Failure(Invalid)
  {
    hide VertexInfo.Validated, EdgeInfo.Validated, VertexInfo.Built, EdgeInfo.Built, With, WithVersion, Lists,
         PairNodes, Scalars;
    pairs := [];
    var valid := GraphIsValidated(g);
    if !valid {
      return Failure(Invalid), pairs;
    }
    var vertices := DumpTexts(VertexNames(g.vertices));
    var edges := DumpTexts(EdgeNames(g.edges));
    var m := map["name" := Scalar(g.name), "prefix" := Scalar(g.prefix),
                 "vertices" := ListNode(vertices), "edges" := ListNode(edges)];
    var labels := DumpTexts(g.labels);
    m := With(m, "labels", labels);
    var extra;
    extra, pairs := DumpPairs(g.extraInfo);
    m := With(m, "extra_info", extra);
    GraphNodeNamesFiles(g, pairs);
    r := Success(Mapping(WithVersion(m, g.version)));
  }

  function TextOr(n: Node, default: string): string {
    if n.Null? then default else n.AsString()
  }

  function LoadGraphNode(n: Node, defaultName: string, defaultPrefix: string, files: Files,
                         dir: string): Result<GraphInfo> {
    match LoadVersion(n)
    case Failure(e) => Failure(e)
    case Success(version) =>
      match LoadVertexFiles(files, dir, n.Get("vertices").Items())
      case Failure(e) => Failure(e)
      case Success(vertices) =>
        match LoadEdgeFiles(files, dir, n.Get("edges").Items())
        case Failure(e) => Failure(e)
        case Success(edges) =>
          Success(MakeGraphInfo(TextOr(n.Get("name"), defaultName), vertices, edges, Texts(n.Get("labels").Items()),
                                TextOr(n.Get("prefix"), defaultPrefix), version,
                                LoadPairs(n.Get("extra_info").Items())))
  }

  /** What each entry of a graph info's node, and the files it names, say of the info. */
  ghost predicate GraphFrom(n: Node, defaultName: string, defaultPrefix: string, files: Files, dir: string,
                            g: GraphInfo)
  {
    && g == MakeGraphInfo(g.name, g.vertices, g.edges, g.labels, g.prefix, g.version, g.extraInfo)
    && g.name == (if n.Get("name") == Null then defaultName else n.Get("name").AsString())
    && g.prefix == (if n.Get("prefix") == Null then defaultPrefix else n.Get("prefix").AsString())
    && g.labels == Texts(n.Get("labels").Items())
    && VersionFrom(n, g.version)
    && VerticesFrom(files, dir, n.Get("vertices").Items(), g.vertices)
    && EdgesFrom(files, dir, n.Get("edges").Items(), g.edges)
    && PairsFrom(n.Get("extra_info").Items(), g.extraInfo)
  }

  /** The version first, then the vertex files, then the edge files. */
  ghost predicate GraphFails(n: Node, files: Files, dir: string, e: Status) {
    if !VersionReadable(n) then e == Invalid
    else if exists x :: VerticesFail(files, dir, n.Get("vertices").Items(), x) then
      VerticesFail(files, dir, n.Get("vertices").Items(), e)
    else EdgesFail(files, dir, n.Get("edges").Items(), e)
  }

  lemma VerticesFailOrLoad(files: Files, dir: string, names: seq<Node>, infos: seq<Option<VertexInfo>>, e: Status)
    requires VerticesFrom(files, dir, names, infos)
    ensures !VerticesFail(files, dir, names, e)
  {
    hide VertexFrom, VertexFileReadable, FileError;
  }

  lemma GraphLoads(n: Node, defaultName: string, defaultPrefix: string, files: Files, dir: string)
    ensures LoadGraphNode(n, defaultName, defaultPrefix, files, dir).Success? ==>
      GraphFrom(n, defaultName, defaultPrefix, files, dir,
                LoadGraphNode(n, defaultName, defaultPrefix, files, dir).value)
    ensures LoadGraphNode(n, defaultName, defaultPrefix, files, dir).Failure? ==>
      GraphFails(n, files, dir, LoadGraphNode(n, defaultName, defaultPrefix, files, dir).error)
  {
    hide Node.Get, Node.AsString, Node.Items, VersionFrom, VersionReadable, VerticesFrom, EdgesFrom, PairsFrom,
         LoadVersion, LoadVertexFiles, LoadEdgeFiles, LoadPairs, VerticesFail, EdgesFail, LastIndex, VertexKeys,
         EdgeKeys;
    var vertices, edges := n.Get("vertices").Items(), n.Get("edges").Items();
    VersionLoads(n);
    VertexFilesLoad(files, dir, vertices);
    EdgeFilesLoad(files, dir, edges);
    PairsLoad(n.Get("extra_info").Items());
    if LoadVertexFiles(files, dir, vertices).Success? {
      forall e ensures !VerticesFail(files, dir, vertices, e) {
        VerticesFailOrLoad(files, dir, vertices, LoadVertexFiles(files, dir, vertices).value, e);
      }
    }
  }

  method ConstructGraphInfo(n: Node, defaultName: string, defaultPrefix: string, files: Files, dir: string)
    returns (r: Result<GraphInfo>)
    ensures r == LoadGraphNode(n, defaultName, defaultPrefix, files, dir)
    ensures r.Success? ==> GraphFrom(n, defaultName, defaultPrefix, files, dir, r.value)
    ensures r.Failure? ==> GraphFails(n, files, dir, r.error)
  {
    hide GraphFrom, GraphFails, VerticesFrom, EdgesFrom, VerticesFail, EdgesFail, PairsFrom;
    GraphLoads(n, defaultName, defaultPrefix, files, dir);
    var version := LoadVersion(n);
    if version.Failure? {
      return Failure(version.error);
    }
    var extra := LoadExtraInfo(n.Get("extra_info").Items());
    var vertices := LoadVertices(files, dir, n.Get("vertices").Items());
    if vertices.Failure? {
      return Failure(vertices.error);
    }
    var edges := LoadEdges(files, dir, n.Get("edges").Items());
    if edges.Failure? {
      return Failure(edges.error);
    }
    var labels := LoadTexts(n.Get("labels").Items());
    var g := NewGraphInfo(TextOr(n.Get("name"), defaultName), vertices.value, edges.value, labels,
                          TextOr(n.Get("prefix"), defaultPrefix), version.value, extra);
    r := Success(g);
  }

  // ----- round trip -----

  ghost predicate VertexSaved(files: Files, dir: string, v: VertexInfo) {
    && v.Built() && v.Validated() && v.chunkSize <= INT64_MAX && AllTyped(v.groups)
    && dir + VertexFileName(v) in files && files[dir + VertexFileName(v)] == VertexNode(v)
  }

  ghost predicate EdgeSaved(files: Files, dir: string, e: EdgeInfo) {
    && e.Built() && e.Validated() && Int64Sizes(e) && AllTyped(e.groups) && AllPresent(e.adjLists)
    && dir + EdgeFileName(e) in files && files[dir + EdgeFileName(e)] == EdgeNode(e)
  }

  ghost predicate AllVertexSaved(files: Files, dir: string, vertices: seq<Option<VertexInfo>>) {
    forall i :: 0 <= i < |vertices| ==> vertices[i].Some? && VertexSaved(files, dir, vertices[i].value)
  }

  ghost predicate AllVertexKept(vertices: seq<Option<VertexInfo>>) {
    forall i :: 0 <= i < |vertices| ==> vertices[i].Some? && VertexKept(vertices[i].value)
  }

  lemma VertexFileReadsBack(files: Files, dir: string, v: VertexInfo)
    requires VertexSaved(files, dir, v)
    ensures LoadVertexFile(files, dir + VertexFileName(v)) == Success(v) <==> VertexKept(v)
  {
    VertexReadsBack(v);
  }

  ghost predicate AllEdgeSaved(files: Files, dir: string, edges: seq<Option<EdgeInfo>>) {
    forall i :: 0 <= i < |edges| ==> edges[i].Some? && EdgeSaved(files, dir, edges[i].value)
  }

  ghost predicate AllEdgeKept(edges: seq<Option<EdgeInfo>>) {
    forall i :: 0 <= i < |edges| ==> edges[i].Some? && EdgeKept(edges[i].value)
  }

  lemma EdgeFileReadsBack(files: Files, dir: string, e: EdgeInfo)
    requires EdgeSaved(files, dir, e)
    ensures LoadEdgeFile(files, dir + EdgeFileName(e)) == Success(e) <==> EdgeKept(e)
  {
    EdgeReadsBack(e);
  }

  lemma VertexFilesAppend(files: Files, dir: string, names: seq<Node>, name: string,
                          infos: seq<Option<VertexInfo>>, v: VertexInfo)
    ensures LoadVertexFiles(files, dir, names + [Scalar(name)]) == Success(infos + [Some(v)]) <==>
            LoadVertexFiles(files, dir, names) == Success(infos) && LoadVertexFile(files, dir + name) == Success(v)
  {
    hide LoadVertexFile;
    var all := names + [Scalar(name)];
    assert all[..|all| - 1] == names && all[|all| - 1].AsString() == name;
    if LoadVertexFiles(files, dir, names).Success? && LoadVertexFile(files, dir + name).Success? {
      SameAppended(LoadVertexFiles(files, dir, names).value, Some(LoadVertexFile(files, dir + name).value), infos,
        Some(v));
    }
  }

  lemma EdgeFilesAppend(files: Files, dir: string, names: seq<Node>, name: string,
                        infos: seq<Option<EdgeInfo>>, e: EdgeInfo)
    ensures LoadEdgeFiles(files, dir, names + [Scalar(name)]) == Success(infos + [Some(e)]) <==>
            LoadEdgeFiles(files, dir, names) == Success(infos) && LoadEdgeFile(files, dir + name) == Success(e)
  {
    hide LoadEdgeFile;
    var all := names + [Scalar(name)];
    assert all[..|all| - 1] == names && all[|all| - 1].AsString() == name;
    if LoadEdgeFiles(files, dir, names).Success? && LoadEdgeFile(files, dir + name).Success? {
      SameAppended(LoadEdgeFiles(files, dir, names).value, Some(LoadEdgeFile(files, dir + name).value), infos, Some(e));
    }
  }

  lemma ScalarsAppend(texts: seq<string>, last: string)
    ensures Scalars(texts + [last]) == Scalars(texts) + [Scalar(last)]
  {
    assert (texts + [last])[..|texts|] == texts;
  }

  lemma VertexInfosSplit(files: Files, dir: string, vertices: seq<Option<VertexInfo>>)
    requires vertices != [] && AllVertexSaved(files, dir, vertices)
    ensures var init, last := vertices[..|vertices| - 1], vertices[|vertices| - 1];
            && AllVertexSaved(files, dir, init) && last.Some? && VertexSaved(files, dir, last.value)
            && vertices == init + [last]
            && VertexNames(vertices) == VertexNames(init) + [VertexFileName(last.value)]
            && (AllVertexKept(vertices) <==> AllVertexKept(init) && VertexKept(last.value))
  {
    hide VertexSaved, VertexKept, VertexFileName;
  }

  lemma NoVertexFiles(files: Files, dir: string)
    ensures LoadVertexFiles(files, dir, Scalars(VertexNames([]))) == Success([]) && AllVertexKept([])
  {
    assert VertexNames([]) == [];
  }

  lemma {:induction false} VertexFilesReadBack(files: Files, dir: string, vertices: seq<Option<VertexInfo>>)
    requires AllVertexSaved(files, dir, vertices)
    ensures LoadVertexFiles(files, dir, Scalars(VertexNames(vertices))) == Success(vertices) <==>
      AllVertexKept(vertices)
  {
    hide VertexSaved, VertexKept, AllVertexKept, LoadVertexFiles, LoadVertexFile, Scalars, VertexNames, VertexFileName;
    if vertices == [] {
      NoVertexFiles(files, dir);
    } else {
      var init, last := vertices[..|vertices| - 1], vertices[|vertices| - 1].value;
      VertexInfosSplit(files, dir, vertices);
      VertexFilesReadBack(files, dir, init);
      VertexFileReadsBack(files, dir, last);
      VertexFilesAppend(files, dir, Scalars(VertexNames(init)), VertexFileName(last), init, last);
      ScalarsAppend(VertexNames(init), VertexFileName(last));
    }
  }

  lemma EdgeInfosSplit(files: Files, dir: string, edges: seq<Option<EdgeInfo>>)
    requires edges != [] && AllEdgeSaved(files, dir, edges)
    ensures var init, last := edges[..|edges| - 1], edges[|edges| - 1];
            && AllEdgeSaved(files, dir, init) && last.Some? && EdgeSaved(files, dir, last.value)
            && edges == init + [last]
            && EdgeNames(edges) == EdgeNames(init) + [EdgeFileName(last.value)]
            && (AllEdgeKept(edges) <==> AllEdgeKept(init) && EdgeKept(last.value))
  {
    hide EdgeSaved, EdgeKept, EdgeFileName;
  }

  lemma NoEdgeFiles(files: Files, dir: string)
    ensures LoadEdgeFiles(files, dir, Scalars(EdgeNames([]))) == Success([]) && AllEdgeKept([])
  {
    assert EdgeNames([]) == [];
  }

  lemma {:induction false} EdgeFilesReadBack(files: Files, dir: string, edges: seq<Option<EdgeInfo>>)
    requires AllEdgeSaved(files, dir, edges)
    ensures LoadEdgeFiles(files, dir, Scalars(EdgeNames(edges))) == Success(edges) <==> AllEdgeKept(edges)
  {
    hide EdgeSaved, EdgeKept, AllEdgeKept, LoadEdgeFiles, LoadEdgeFile, Scalars, EdgeNames, EdgeFileName;
    if edges == [] {
      NoEdgeFiles(files, dir);
    } else {
      var init, last := edges[..|edges| - 1], edges[|edges| - 1].value;
      EdgeInfosSplit(files, dir, edges);
      EdgeFilesReadBack(files, dir, init);
      EdgeFileReadsBack(files, dir, last);
      EdgeFilesAppend(files, dir, Scalars(EdgeNames(init)), EdgeFileName(last), init, last);
      ScalarsAppend(EdgeNames(init), EdgeFileName(last));
    }
  }

  lemma GraphNodeEntries(g: GraphInfo, pairs: seq<(string, string)>)
    requires AllSome(g)
    ensures var n := GraphNode(g, pairs);
            && n.Get("name") == Scalar(g.name) && n.Get("prefix") == Scalar(g.prefix)
            && n.Get("vertices").Items() == Scalars(VertexNames(g.vertices))
            && n.Get("edges").Items() == Scalars(EdgeNames(g.edges))
            && n.Get("labels").Items() == Scalars(g.labels)
            && n.Get("extra_info").Items() == PairNodes(pairs)
            && (LoadVersion(n) == Success(g.version) <==> VersionKept(g.version))
  {
    hide With, WithVersion, Scalars, PairNodes, LoadVersion, VersionKept, ListNode, VertexNames, EdgeNames;
    var m0 := map["name" := Scalar(g.name), "prefix" := Scalar(g.prefix),
                  "vertices" := ListNode(Scalars(VertexNames(g.vertices))),
                  "edges" := ListNode(Scalars(EdgeNames(g.edges)))];
    var m1 := With(m0, "labels", Scalars(g.labels));
    var m2 := With(m1, "extra_info", PairNodes(pairs));
    WithEntry(m0, "labels", Scalars(g.labels));
    WithEntry(m1, "extra_info", PairNodes(pairs));
    WithVersionEntry(m2, g.version);
    VersionEntryReadsBack(m2, g.version);
  }

  /**
   * With every vertex and edge info saved under its file name, loading the dumped graph info
   * gives it back exactly when every info and the version survive; the extra info always does,
   * in whatever order it is listed.
   */
  lemma GraphReadsBack(g: GraphInfo, pairs: seq<(string, string)>, name: string, prefix: string,
                       files: Files, dir: string)
    requires g.Built() && AllSome(g) && Lists(pairs, g.extraInfo)
    requires AllVertexSaved(files, dir, g.vertices) && AllEdgeSaved(files, dir, g.edges)
    ensures LoadGraphNode(GraphNode(g, pairs), name, prefix, files, dir) == Success(g) <==>
            AllVertexKept(g.vertices) && AllEdgeKept(g.edges) && VersionKept(g.version)
  {
    hide AllVertexSaved, AllEdgeSaved, AllVertexKept, AllEdgeKept, VersionKept, GraphNode, LoadVertexFiles,
         LoadEdgeFiles, LoadVersion, LoadPairs, PairNodes, Scalars, LastIndex, VertexKeys, EdgeKeys, VertexInfo.Built,
         EdgeInfo.Built, Lists, Node.Get, Node.Items, VertexNames, EdgeNames;
    GraphNodeEntries(g, pairs);
    VertexFilesReadBack(files, dir, g.vertices);
    EdgeFilesReadBack(files, dir, g.edges);
    ExtraInfoReadsBack(pairs, g.extraInfo);
    TextsReadBack(g.labels);
  }
}
