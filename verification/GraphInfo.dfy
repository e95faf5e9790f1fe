/**
 * Vertex, edge and graph infos: their index maps, validity checks, lookups and the Add*
 * operations, which return a new info (cpp/src/graphar/graph_info.cc).
 */
module GraphInfos {
  import opened Joining
  import opened KeyIndex
  import opened PropertyGroups
  import opened Results
  import opened Types
  import opened Versions

  // ----- vertex info -----

  datatype VertexInfo = VertexInfo(
    vertexType: string, chunkSize: int, groups: seq<Option<PropertyGroup>>,
    labels: seq<string>, prefix: string, version: Option<Version>, index: PropertyIndex)
  {
    /** What every constructed vertex info satisfies. */
    ghost predicate Built() {
      this == MakeVertexInfo(vertexType, chunkSize, groups, labels, prefix, version)
    }

    ghost predicate Validated() {
      vertexType != "" && chunkSize > 0 && prefix != "" && ValidGroups(groups)
    }
  }

  function MakeVertexInfo(vertexType: string, chunkSize: int, groups: seq<Option<PropertyGroup>>,
                          labels: seq<string>, prefix: string, version: Option<Version>): VertexInfo
  {
    VertexInfo(vertexType, chunkSize, groups, labels, if prefix == "" then vertexType + "/" else prefix,
               version, IndexOf(Listed(groups)))
  }

  method NewVertexInfo(vertexType: string, chunkSize: int, groups: seq<Option<PropertyGroup>>,
                       labels: seq<string>, prefix: string, version: Option<Version>) returns (v: VertexInfo)
    ensures v == MakeVertexInfo(vertexType, chunkSize, groups, labels, prefix, version) && v.Built()
    ensures v.vertexType == vertexType && v.chunkSize == chunkSize && v.groups == groups && v.labels == labels
    ensures v.version == version && v.prefix == if prefix == "" then vertexType + "/" else prefix
  {
    var index := IndexProperties(groups);
    v := VertexInfo(vertexType, chunkSize, groups, labels, if prefix == "" then vertexType + "/" else prefix,
                    version, index);
  }

  method VertexIsValidated(v: VertexInfo) returns (ok: bool)
    ensures ok <==> v.Validated()
  {
    if v.vertexType == "" || v.chunkSize <= 0 || v.prefix == "" {
      return false;
    }
    ok := AreValidated(v.groups);
  }

  method AnyKnown(index: PropertyIndex, g: PropertyGroup) returns (known: bool)
    ensures known <==> exists k :: 0 <= k < |g.properties| && index.HasProperty(g.properties[k].name)
  {
    for k := 0 to |g.properties|
      invariant forall j :: 0 <= j < k ==> !index.HasProperty(g.properties[j].name)
    {
      if index.HasProperty(g.properties[k].name) {
        return true;
      }
    }
    known := false;
  }

  ghost predicate OnlyNewNames(groups: seq<Option<PropertyGroup>>, g: PropertyGroup) {
    forall k :: 0 <= k < |g.properties| ==> !Named(Listed(groups), g.properties[k].name)
  }

  lemma KnownIsOld(groups: seq<Option<PropertyGroup>>, g: PropertyGroup)
    ensures OnlyNewNames(groups, g) <==>
            forall k :: 0 <= k < |g.properties| ==> !IndexOf(Listed(groups)).HasProperty(g.properties[k].name)
  {
    forall k | 0 <= k < |g.properties|
      ensures Named(Listed(groups), g.properties[k].name) <==>
              IndexOf(Listed(groups)).HasProperty(g.properties[k].name)
    {
      HasPropertyIsNamed(groups, g.properties[k].name);
    }
  }

  /** Adding a group to a valid vertex info gives a valid one exactly when the group is valid. */
  method AddVertexPropertyGroup(v: VertexInfo, group: Option<PropertyGroup>) returns (r: Result<VertexInfo>)
    requires v.Built()
    ensures r.Success? <==> group.Some? && OnlyNewNames(v.groups, group.value)
    ensures r.Failure? ==> r.error == Invalid
    ensures r.Success? ==> r.value.Built() && r.value.groups == v.groups + [group]
    ensures r.Success? ==> r.value.(groups := v.groups, index := v.index) == v
    ensures r.Success? && v.Validated() ==> (r.value.Validated() <==> group.value.Validated())
  {
    hide IndexOf, Listed, ValidGroups, PropertyGroup.Validated, Named;
    if group.None? {
      return Failure(Invalid);
    }
    KnownIsOld(v.groups, group.value);
    var known := AnyKnown(v.index, group.value);
    if known {
      return Failure(Invalid);
    }
    var added := NewVertexInfo(v.vertexType, v.chunkSize, v.groups + [group], v.labels, v.prefix, v.version);
    if v.Validated() {
      AppendValid(v.groups, group.value);
    }
    r := Success(added);
  }

  // ----- edge info -----

  function AdjKeys(lists: seq<Option<AdjacentList>>): (keys: seq<Option<AdjListType>>)
    ensures |keys| == |lists|
  {
    seq(|lists|, i requires 0 <= i < |lists| =>
      if lists[i].None? then None else Some(lists[i].value.adjType))
  }

  datatype EdgeInfo = EdgeInfo(
    srcType: string, edgeType: string, dstType: string,
    chunkSize: int, srcChunkSize: int, dstChunkSize: int, directed: bool, prefix: string,
    adjLists: seq<Option<AdjacentList>>, groups: seq<Option<PropertyGroup>>, version: Option<Version>,
    adjIndex: map<AdjListType, nat>, index: PropertyIndex)
  {
    ghost predicate Built() {
      this == MakeEdgeInfo(srcType, edgeType, dstType, chunkSize, srcChunkSize, dstChunkSize, directed,
                           adjLists, groups, prefix, version)
    }

    ghost predicate Validated() {
      && srcType != "" && edgeType != "" && dstType != ""
      && chunkSize > 0 && srcChunkSize > 0 && dstChunkSize > 0
      && prefix != "" && adjLists != []
      && (forall i :: 0 <= i < |adjLists| ==>
           && adjLists[i].Some? && adjLists[i].value.prefix != ""
           && adjLists[i].value.fileType in {Csv, Parquet, Orc})
      && AllDistinct(AdjKeys(adjLists))
      && ValidGroups(groups)
    }

    predicate HasAdjacentListType(t: AdjListType) {
      t in adjIndex
    }

    function GetAdjacentList(t: AdjListType): Option<AdjacentList>
      requires Built()
    {
      if t in adjIndex then
        LastIndexIs(AdjKeys(adjLists), t);
        adjLists[adjIndex[t]]
      else None
    }
  }

  /** Joined with the separator, as the default prefix and the edge key are. */
  function ConcatEdgeTriple(srcType: string, edgeType: string, dstType: string): string {
    srcType + "_" + edgeType + "_" + dstType
  }

  function MakeEdgeInfo(srcType: string, edgeType: string, dstType: string,
                        chunkSize: int, srcChunkSize: int, dstChunkSize: int, directed: bool,
                        adjLists: seq<Option<AdjacentList>>, groups: seq<Option<PropertyGroup>>,
                        prefix: string, version: Option<Version>): EdgeInfo
  {
    EdgeInfo(srcType, edgeType, dstType, chunkSize, srcChunkSize, dstChunkSize, directed,
             if prefix == "" then ConcatEdgeTriple(srcType, edgeType, dstType) + "/" else prefix,
             adjLists, groups, version, LastIndex(AdjKeys(adjLists)), IndexOf(Listed(groups)))
  }

  method NewEdgeInfo(srcType: string, edgeType: string, dstType: string,
                     chunkSize: int, srcChunkSize: int, dstChunkSize: int, directed: bool,
                     adjLists: seq<Option<AdjacentList>>, groups: seq<Option<PropertyGroup>>,
                     prefix: string, version: Option<Version>) returns (e: EdgeInfo)
    ensures e == MakeEdgeInfo(srcType, edgeType, dstType, chunkSize, srcChunkSize, dstChunkSize, directed,
                              adjLists, groups, prefix, version)
    ensures e.Built()
    ensures e.srcType == srcType && e.edgeType == edgeType && e.dstType == dstType && e.chunkSize == chunkSize
    ensures e.srcChunkSize == srcChunkSize && e.dstChunkSize == dstChunkSize && e.directed == directed
    ensures e.adjLists == adjLists && e.groups == groups && e.version == version
    ensures e.prefix == if prefix == "" then srcType + "_" + edgeType + "_" + dstType + "/" else prefix
  {
    var adjIndex := FillIndex(AdjKeys(adjLists));
    var index := IndexProperties(groups);
    e := EdgeInfo(srcType, edgeType, dstType, chunkSize, srcChunkSize, dstChunkSize, directed,
                  if prefix == "" then ConcatEdgeTriple(srcType, edgeType, dstType) + "/" else prefix,
                  adjLists, groups, version, adjIndex, index);
  }

  /** The check compares sizes of the list and of the index; that finds repeated list types. */
  method EdgeIsValidated(e: EdgeInfo) returns (ok: bool)
    requires e.Built()
    ensures ok <==> e.Validated()
  {
    hide ValidGroups, IndexOf, Listed;
    if e.srcType == "" || e.edgeType == "" || e.dstType == "" || e.chunkSize <= 0 || e.srcChunkSize <= 0 ||
       e.dstChunkSize <= 0 || e.prefix == "" || e.adjLists == [] {
      return false;
    }
    for i := 0 to |e.adjLists|
      invariant forall k :: 0 <= k < i ==> e.adjLists[k].Some? && e.adjLists[k].value.Validated()
    {
      if e.adjLists[i].None? || !e.adjLists[i].value.Validated() {
        return false;
      }
    }
    var valid := AreValidated(e.groups);
    if !valid {
      return false;
    }
    SizeTellsDistinct(AdjKeys(e.adjLists));
    ok := |e.adjLists| == |e.adjIndex|;
  }

  method AddEdgePropertyGroup(e: EdgeInfo, group: Option<PropertyGroup>) returns (r: Result<EdgeInfo>)
    requires e.Built()
    ensures r.Success? <==> group.Some? && OnlyNewNames(e.groups, group.value)
    ensures r.Failure? ==> r.error == Invalid
    ensures r.Success? ==> r.value.Built() && r.value.groups == e.groups + [group]
    ensures r.Success? ==> r.value.(groups := e.groups, index := e.index) == e
    ensures r.Success? && e.Validated() ==> (r.value.Validated() <==> group.value.Validated())
  {
    hide IndexOf, Listed, ValidGroups, PropertyGroup.Validated, Named, AllDistinct, LastIndex;
    if group.None? {
      return Failure(Invalid);
    }
    KnownIsOld(e.groups, group.value);
    var known := AnyKnown(e.index, group.value);
    if known {
      return Failure(Invalid);
    }
    var added := NewEdgeInfo(e.srcType, e.edgeType, e.dstType, e.chunkSize, e.srcChunkSize, e.dstChunkSize,
                             e.directed, e.adjLists, e.groups + [group], e.prefix, e.version);
    if e.Validated() {
      AppendValid(e.groups, group.value);
    }
    r := Success(added);
  }

  /** Adding a list to a valid edge info gives a valid one exactly when the list is valid. */
  method AddAdjacentList(e: EdgeInfo, list: Option<AdjacentList>) returns (r: Result<EdgeInfo>)
    requires e.Built()
    ensures r.Success? <==> list.Some? && Some(list.value.adjType) !in AdjKeys(e.adjLists)
    ensures r.Failure? ==> r.error == Invalid
    ensures r.Success? ==> r.value.Built() && r.value.adjLists == e.adjLists + [list]
    ensures r.Success? ==> r.value.(adjLists := e.adjLists, adjIndex := e.adjIndex) == e
    ensures r.Success? && e.Validated() ==> (r.value.Validated() <==> list.value.Validated())
  {
    hide IndexOf, Listed, ValidGroups, LastIndex;
    if list.None? {
      return Failure(Invalid);
    }
    LastIndexIs(AdjKeys(e.adjLists), list.value.adjType);
    if e.HasAdjacentListType(list.value.adjType) {
      return Failure(Invalid);
    }
    var added := NewEdgeInfo(e.srcType, e.edgeType, e.dstType, e.chunkSize, e.srcChunkSize, e.dstChunkSize,
                             e.directed, e.adjLists + [list], e.groups, e.prefix, e.version);
    AddedListValid(e, added, list.value);
    r := Success(added);
  }

  lemma AddedListValid(e: EdgeInfo, added: EdgeInfo, list: AdjacentList)
    requires e.Built() && added.Built() && list.adjType !in e.adjIndex
    requires added.adjLists == e.adjLists + [Some(list)]
    requires added.(adjLists := e.adjLists, adjIndex := e.adjIndex) == e
    ensures e.Validated() ==> (added.Validated() <==> list.Validated())
  {
    hide IndexOf, Listed, ValidGroups, LastIndex, AllDistinct;
    if e.Validated() {
      AppendDistinct(AdjKeys(e.adjLists), list.adjType);
      assert AdjKeys(added.adjLists) == AdjKeys(e.adjLists) + [Some(list.adjType)];
      assert added.adjLists[|e.adjLists|] == Some(list);
    }
  }

  /** On a valid edge info the lookup by type answers as a scan of the lists. */
  lemma AdjacentListLookup(e: EdgeInfo, t: AdjListType)
    requires e.Built() && e.Validated()
    ensures forall i :: 0 <= i < |e.adjLists| && e.adjLists[i].value.adjType == t ==>
      e.GetAdjacentList(t) == e.adjLists[i]
    ensures (forall i :: 0 <= i < |e.adjLists| ==> e.adjLists[i].value.adjType != t) ==> e.GetAdjacentList(t) == None
  {
    LastIndexIs(AdjKeys(e.adjLists), t);
    forall i | 0 <= i < |e.adjLists| && e.adjLists[i].value.adjType == t ensures e.GetAdjacentList(t) == e.adjLists[i] {
      IndexFinds(AdjKeys(e.adjLists), i);
    }
  }

  // ----- graph info -----

  datatype GraphInfo = GraphInfo(
    name: string, vertices: seq<Option<VertexInfo>>, edges: seq<Option<EdgeInfo>>,
    labels: seq<string>, prefix: string, version: Option<Version>, extraInfo: map<string, string>,
    vertexIndex: map<string, nat>, edgeIndex: map<string, nat>)
  {
    ghost predicate Built() {
      && this == MakeGraphInfo(name, vertices, edges, labels, prefix, version, extraInfo)
      && (forall i :: 0 <= i < |vertices| && vertices[i].Some? ==> vertices[i].value.Built())
      && (forall i :: 0 <= i < |edges| && edges[i].Some? ==> edges[i].value.Built())
    }

    ghost predicate Validated() {
      && name != "" && prefix != ""
      && (forall i :: 0 <= i < |vertices| ==> vertices[i].Some? && vertices[i].value.Validated())
      && (forall i :: 0 <= i < |edges| ==> edges[i].Some? && edges[i].value.Validated())
      && AllDistinct(VertexKeys(vertices)) && AllDistinct(EdgeKeys(edges))
    }

    function GetVertexInfo(vertexType: string): Option<VertexInfo>
      requires Built()
    {
      if vertexType in vertexIndex then
        LastIndexIs(VertexKeys(vertices), vertexType);
        vertices[vertexIndex[vertexType]]
      else None
    }

    function GetEdgeInfo(srcType: string, edgeType: string, dstType: string): Option<EdgeInfo>
      requires Built()
    {
      var key := ConcatEdgeTriple(srcType, edgeType, dstType);
      if key in edgeIndex then
        LastIndexIs(EdgeKeys(edges), key);
        edges[edgeIndex[key]]
      else None
    }
  }

  function VertexKeys(vertices: seq<Option<VertexInfo>>): (keys: seq<Option<string>>)
    ensures |keys| == |vertices|
  {
    seq(|vertices|, i requires 0 <= i < |vertices| =>
      if vertices[i].None? then None else Some(vertices[i].value.vertexType))
  }

  function KeyOf(e: EdgeInfo): string {
    ConcatEdgeTriple(e.srcType, e.edgeType, e.dstType)
  }

  function EdgeKeys(edges: seq<Option<EdgeInfo>>): (keys: seq<Option<string>>)
    ensures |keys| == |edges|
  {
    seq(|edges|, i requires 0 <= i < |edges| =>
      if edges[i].None? then None else Some(KeyOf(edges[i].value)))
  }

  function MakeGraphInfo(name: string, vertices: seq<Option<VertexInfo>>, edges: seq<Option<EdgeInfo>>,
                         labels: seq<string>, prefix: string, version: Option<Version>,
                         extraInfo: map<string, string>): GraphInfo
  {
    GraphInfo(name, vertices, edges, labels, prefix, version, extraInfo,
              LastIndex(VertexKeys(vertices)), LastIndex(EdgeKeys(edges)))
  }

  method NewGraphInfo(name: string, vertices: seq<Option<VertexInfo>>, edges: seq<Option<EdgeInfo>>,
                      labels: seq<string>, prefix: string, version: Option<Version>,
                      extraInfo: map<string, string>) returns (g: GraphInfo)
    ensures g == MakeGraphInfo(name, vertices, edges, labels, prefix, version, extraInfo)
    ensures g.name == name && g.vertices == vertices && g.edges == edges && g.labels == labels
    ensures g.prefix == prefix && g.version == version && g.extraInfo == extraInfo
  {
    var vertexIndex := FillIndex(VertexKeys(vertices));
    var edgeIndex := FillIndex(EdgeKeys(edges));
    g := GraphInfo(name, vertices, edges, labels, prefix, version, extraInfo, vertexIndex, edgeIndex);
  }

  method GraphIsValidated(g: GraphInfo) returns (ok: bool)
    requires g.Built()
    ensures ok <==> g.Validated()
  {
    hide VertexInfo.Validated, EdgeInfo.Validated, VertexInfo.Built, EdgeInfo.Built, AllDistinct, LastIndex;
    if g.name == "" || g.prefix == "" {
      return false;
    }
    for i := 0 to |g.vertices|
      invariant forall k :: 0 <= k < i ==> g.vertices[k].Some? && g.vertices[k].value.Validated()
    {
      if g.vertices[i].None? {
        return false;
      }
      var valid := VertexIsValidated(g.vertices[i].value);
      if !valid {
        return false;
      }
    }
    for i := 0 to |g.edges|
      invariant forall k :: 0 <= k < i ==> g.edges[k].Some? && g.edges[k].value.Validated()
    {
      if g.edges[i].None? {
        return false;
      }
      var valid := EdgeIsValidated(g.edges[i].value);
      if !valid {
        return false;
      }
    }
    SizeTellsDistinct(VertexKeys(g.vertices));
    SizeTellsDistinct(EdgeKeys(g.edges));
    ok := |g.vertices| == |g.vertexIndex| && |g.edges| == |g.edgeIndex|;
  }

  /**
   * Adding a vertex info to a valid graph info gives a valid one exactly when the vertex
   * info is valid. The extra info of the graph is lost.
   */
  method AddVertex(g: GraphInfo, vertex: Option<VertexInfo>) returns (r: Result<GraphInfo>)
    requires g.Built() && (vertex.Some? ==> vertex.value.Built())
    ensures r.Success? <==> vertex.Some? && Some(vertex.value.vertexType) !in VertexKeys(g.vertices)
    ensures r.Failure? ==> r.error == Invalid
    ensures r.Success? ==> r.value.Built() && r.value.vertices == g.vertices + [vertex] && r.value.extraInfo == map[]
    ensures r.Success? ==>
      r.value.(vertices := g.vertices, vertexIndex := g.vertexIndex, extraInfo := g.extraInfo) == g
    ensures r.Success? && g.Validated() ==> (r.value.Validated() <==> vertex.value.Validated())
  {
    hide VertexInfo.Validated, EdgeInfo.Validated, VertexInfo.Built, EdgeInfo.Built, AllDistinct, LastIndex;
    if vertex.None? {
      return Failure(Invalid);
    }
    LastIndexIs(VertexKeys(g.vertices), vertex.value.vertexType);
    if vertex.value.vertexType in g.vertexIndex {
      return Failure(Invalid);
    }
    var added := NewGraphInfo(g.name, g.vertices + [vertex], g.edges, g.labels, g.prefix, g.version, map[]);
    assert VertexKeys(added.vertices) == VertexKeys(g.vertices) + [Some(vertex.value.vertexType)];
    if g.Validated() {
      AppendDistinct(VertexKeys(g.vertices), vertex.value.vertexType);
    }
    assert added.vertices[|g.vertices|] == vertex;
    r := Success(added);
  }

  /** As AddVertex; an edge info whose joined key is taken is refused. */
  method AddEdge(g: GraphInfo, edge: Option<EdgeInfo>) returns (r: Result<GraphInfo>)
    requires g.Built() && (edge.Some? ==> edge.value.Built())
    ensures r.Success? <==> edge.Some? && Some(KeyOf(edge.value)) !in EdgeKeys(g.edges)
    ensures r.Failure? ==> r.error == Invalid
    ensures r.Success? ==> r.value.Built() && r.value.edges == g.edges + [edge] && r.value.extraInfo == map[]
    ensures r.Success? ==> r.value.(edges := g.edges, edgeIndex := g.edgeIndex, extraInfo := g.extraInfo) == g
    ensures r.Success? && g.Validated() ==> (r.value.Validated() <==> edge.value.Validated())
  {
    hide VertexInfo.Validated, EdgeInfo.Validated, VertexInfo.Built, EdgeInfo.Built, AllDistinct, LastIndex;
    if edge.None? {
      return Failure(Invalid);
    }
    LastIndexIs(EdgeKeys(g.edges), KeyOf(edge.value));
    if KeyOf(edge.value) in g.edgeIndex {
      return Failure(Invalid);
    }
    var added := NewGraphInfo(g.name, g.vertices, g.edges + [edge], g.labels, g.prefix, g.version, map[]);
    assert EdgeKeys(added.edges) == EdgeKeys(g.edges) + [Some(KeyOf(edge.value))];
    if g.Validated() {
      AppendDistinct(EdgeKeys(g.edges), KeyOf(edge.value));
    }
    assert added.edges[|g.edges|] == edge;
    r := Success(added);
  }

  /** On a valid graph info the lookup by vertex type answers as a scan of the vertex infos. */
  lemma VertexLookup(g: GraphInfo, vertexType: string)
    requires g.Built() && g.Validated()
    ensures forall i :: 0 <= i < |g.vertices| && g.vertices[i].value.vertexType == vertexType ==>
              g.GetVertexInfo(vertexType) == g.vertices[i]
    ensures (forall i :: 0 <= i < |g.vertices| ==> g.vertices[i].value.vertexType != vertexType) ==>
              g.GetVertexInfo(vertexType) == None
  {
    LastIndexIs(VertexKeys(g.vertices), vertexType);
    forall i | 0 <= i < |g.vertices| && g.vertices[i].value.vertexType == vertexType
      ensures g.GetVertexInfo(vertexType) == g.vertices[i]
    {
      IndexFinds(VertexKeys(g.vertices), i);
    }
  }

  // ----- edge lookups: exact only without separators -----

  predicate HasTriple(e: EdgeInfo, srcType: string, edgeType: string, dstType: string) {
    e.srcType == srcType && e.edgeType == edgeType && e.dstType == dstType
  }

  /** The linear scan for an edge info of exactly these three types. */
  function ScanEdges(edges: seq<Option<EdgeInfo>>, srcType: string, edgeType: string,
                     dstType: string): Option<EdgeInfo> {
    if edges == [] then None
    else if edges[0].Some? && HasTriple(edges[0].value, srcType, edgeType, dstType) then edges[0]
    else ScanEdges(edges[1..], srcType, edgeType, dstType)
  }

  predicate SeparatorFree(e: EdgeInfo) {
    '_' !in e.srcType && '_' !in e.edgeType && '_' !in e.dstType
  }

  lemma {:induction false} ScanEdgesIs(edges: seq<Option<EdgeInfo>>, s: string, e: string, d: string)
    ensures var r := ScanEdges(edges, s, e, d);
            && (r.Some? ==> r in edges && HasTriple(r.value, s, e, d))
            && (r.None? ==> forall i :: 0 <= i < |edges| && edges[i].Some? ==> !HasTriple(edges[i].value, s, e, d))
  {
    if edges != [] {
      ScanEdgesIs(edges[1..], s, e, d);
      assert forall i :: 1 <= i < |edges| ==> edges[i] == edges[1..][i - 1];
    }
  }

  function Count(s: string, c: char): nat {
    if s == [] then 0 else (if s[0] == c then 1 else 0) + Count(s[1..], c)
  }

  lemma {:induction false} CountAppend(a: string, b: string, c: char)
    ensures Count(a + b, c) == Count(a, c) + Count(b, c)
  {
    if a == [] {
      assert a + b == b;
    } else {
      assert (a + b)[1..] == a[1..] + b;
      CountAppend(a[1..], b, c);
    }
  }

  lemma {:induction false} CountZero(s: string, c: char)
    ensures Count(s, c) == 0 <==> c !in s
  {
    if s != [] {
      CountZero(s[1..], c);
    }
  }

  lemma KeyCount(s: string, e: string, d: string)
    ensures Count(ConcatEdgeTriple(s, e, d), '_') == Count(s, '_') + Count(e, '_') + Count(d, '_') + 2
  {
    CountAppend(s + "_" + e + "_", d, '_');
    CountAppend(s + "_" + e, "_", '_');
    CountAppend(s + "_", e, '_');
    CountAppend(s, "_", '_');
    assert Count("_", '_') == 1;
  }

  lemma KeyTerminated(s: string, e: string, d: string)
    ensures ConcatEdgeTriple(s, e, d) + "_" == Terminated([s, e, d], '_')
  {
    assert [s, e, d][1..] == [e, d] && [e, d][1..] == [d];
    assert Terminated([d][1..], '_') == "";
    assert Terminated([d], '_') == d + "_";
    assert Terminated([e, d], '_') == e + "_" + (d + "_");
    assert Terminated([s, e, d], '_') == s + "_" + (e + "_" + (d + "_"));
  }

  /** A separator-free triple shares its key with no other triple. */
  lemma KeyOfSeparatorFree(s: string, e: string, d: string, s': string, e': string, d': string)
    requires '_' !in s && '_' !in e && '_' !in d
    requires ConcatEdgeTriple(s, e, d) == ConcatEdgeTriple(s', e', d')
    ensures s == s' && e == e' && d == d'
  {
    KeyCount(s, e, d);
    KeyCount(s', e', d');
    CountZero(s, '_'); CountZero(e, '_'); CountZero(d, '_');
    CountZero(s', '_'); CountZero(e', '_'); CountZero(d', '_');
    KeyTerminated(s, e, d);
    KeyTerminated(s', e', d');
    TerminatedInjective([s, e, d], [s', e', d'], '_');
    assert [s, e, d][0] == [s', e', d'][0] && [s, e, d][1] == [s', e', d'][1] && [s, e, d][2] == [s', e', d'][2];
  }

  /** A separator inside a name can be moved to the next name or back. */
  lemma MoveSeparator(a: string, b: string, c: string, d: string)
    ensures ConcatEdgeTriple(a + "_" + b, c, d) == ConcatEdgeTriple(a, b + "_" + c, d)
    ensures ConcatEdgeTriple(a, b + "_" + c, d) == ConcatEdgeTriple(a, b, c + "_" + d)
  {
    assert (a + "_" + b) + "_" + c == a + "_" + (b + "_" + c);
    assert a + "_" + (b + "_" + c) + "_" + d == a + "_" + b + "_" + (c + "_" + d);
  }

  lemma SplitName(s: string) returns (a: string, b: string)
    requires '_' in s
    ensures s == a + "_" + b && |a| < |s|
  {
    var i := Find(s, '_');
    a, b := s[..i], s[i + 1..];
  }

  /** A triple with a separator in a name shares its key with another triple. */
  lemma SharedKey(s: string, e: string, d: string) returns (s': string, e': string, d': string)
    requires '_' in s || '_' in e || '_' in d
    ensures ConcatEdgeTriple(s, e, d) == ConcatEdgeTriple(s', e', d')
    ensures |s'| != |s| || |e'| != |e|
  {
    hide ConcatEdgeTriple;
    if '_' in s {
      var a, b := SplitName(s);
      MoveSeparator(a, b, e, d);
      s', e', d' := a, b + "_" + e, d;
    } else if '_' in e {
      var a, b := SplitName(e);
      MoveSeparator(s, a, b, d);
      s', e', d' := s + "_" + a, b, d;
    } else {
      var a, b := SplitName(d);
      MoveSeparator(s, e, a, b);
      s', e', d' := s, e + "_" + a, b;
    }
  }

  ghost predicate EdgeLookupExact(g: GraphInfo)
    requires g.Built()
  {
    forall s, e, d :: g.GetEdgeInfo(s, e, d) == ScanEdges(g.edges, s, e, d)
  }

  lemma LookupByKey(g: GraphInfo, s: string, e: string, d: string)
    requires g.Built() && g.Validated()
    ensures var r := g.GetEdgeInfo(s, e, d);
            && (r.Some? ==> r in g.edges && KeyOf(r.value) == ConcatEdgeTriple(s, e, d))
            && (forall i :: 0 <= i < |g.edges| && KeyOf(g.edges[i].value) == ConcatEdgeTriple(s, e, d) ==>
                 r == g.edges[i])
  {
    var key := ConcatEdgeTriple(s, e, d);
    LastIndexIs(EdgeKeys(g.edges), key);
    forall i | 0 <= i < |g.edges| && KeyOf(g.edges[i].value) == key ensures g.GetEdgeInfo(s, e, d) == g.edges[i] {
      IndexFinds(EdgeKeys(g.edges), i);
    }
  }

  /**
   * On a valid graph info every edge lookup answers as the scan by the three types exactly
   * when no stored type name holds the separator.
   */
  lemma EdgeLookupExactIff(g: GraphInfo)
    requires g.Built() && g.Validated()
    ensures EdgeLookupExact(g) <==> forall i :: 0 <= i < |g.edges| ==> SeparatorFree(g.edges[i].value)
  {
    hide GraphInfo.GetEdgeInfo, LastIndex, EdgeInfo.Built, VertexInfo.Built, EdgeInfo.Validated, VertexInfo.Validated;
    if forall i :: 0 <= i < |g.edges| ==> SeparatorFree(g.edges[i].value) {
      forall s, e, d ensures g.GetEdgeInfo(s, e, d) == ScanEdges(g.edges, s, e, d) {
        SeparatorFreeLookup(g, s, e, d);
      }
    } else {
      var i :| 0 <= i < |g.edges| && !SeparatorFree(g.edges[i].value);
      var x := g.edges[i].value;
      var s, e, d := SharedKey(x.srcType, x.edgeType, x.dstType);
      LookupByKey(g, s, e, d);
      ScanEdgesIs(g.edges, s, e, d);
      assert g.GetEdgeInfo(s, e, d) != ScanEdges(g.edges, s, e, d);
    }
  }

  lemma SeparatorFreeLookup(g: GraphInfo, s: string, e: string, d: string)
    requires g.Built() && g.Validated()
    requires forall i :: 0 <= i < |g.edges| ==> SeparatorFree(g.edges[i].value)
    ensures g.GetEdgeInfo(s, e, d) == ScanEdges(g.edges, s, e, d)
  {
    hide GraphInfo.GetEdgeInfo, LastIndex, EdgeInfo.Built, VertexInfo.Built, EdgeInfo.Validated, VertexInfo.Validated,
         ConcatEdgeTriple;
    LookupByKey(g, s, e, d);
    ScanEdgesIs(g.edges, s, e, d);
    var r := g.GetEdgeInfo(s, e, d);
    if r.Some? {
      var x := r.value;
      KeyOfSeparatorFree(x.srcType, x.edgeType, x.dstType, s, e, d);
      assert HasTriple(x, s, e, d);
      var i :| 0 <= i < |g.edges| && g.edges[i] == r;
      var scanned := ScanEdges(g.edges, s, e, d);
      assert scanned.Some?;
      var j :| 0 <= j < |g.edges| && g.edges[j] == scanned;
      assert KeyOf(scanned.value) == ConcatEdgeTriple(s, e, d);
    } else {
      assert forall i :: 0 <= i < |g.edges| ==> KeyOf(g.edges[i].value) != ConcatEdgeTriple(s, e, d);
    }
  }
}
