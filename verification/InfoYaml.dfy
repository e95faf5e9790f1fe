/**
 * Dump and Load of the infos at the level of YAML node trees (cpp/src/graphar/graph_info.cc).
 * Writing a tree as text and parsing it back is the YAML library's part.
 */
module InfoYaml {
  import opened GraphInfos
  import opened KeyIndex
  import opened PropertyGroups
  import opened Results
  import opened Types
  import opened Versions

  datatype Node = Null | Scalar(text: string) | Sequence(items: seq<Node>) | Mapping(entries: map<string, Node>) {
    function Get(key: string): Node {
      if Mapping? && key in entries then entries[key] else Null
    }

    function Items(): seq<Node> {
      if Sequence? then items else []
    }

    function AsString(): string {
      if Scalar? then text else ""
    }

    predicate AsBool() {
      Lower(AsString()) in {"true", "yes", "1"}
    }
  }

  function Lower(s: string): string {
    seq(|s|, i requires 0 <= i < |s| => if 'A' <= s[i] <= 'Z' then (s[i] as int + 32) as char else s[i])
  }

  function BoolText(b: bool): (s: string)
    ensures s == (if b then "true" else "false") && Scalar(s).AsBool() == b
  {
    if b then assert Lower("true") == "true"; "true"
    else
      assert |Lower("false")| == 5 && Lower("false")[0] == 'f';
      "false"
  }

  /** Case aside, the texts of true; everything else is false, an absent entry too. */
  lemma BoolReads(s: string)
    ensures Scalar(s).AsBool() <==>
      || (|s| == 4 && s[0] in "tT" && s[1] in "rR" && s[2] in "uU" && s[3] in "eE")
      || (|s| == 3 && s[0] in "yY" && s[1] in "eE" && s[2] in "sS")
      || s == "1"
    ensures !Null.AsBool() && Null.AsString() == "" && Null.Items() == []
  {
    var l := Lower(s);
    if |s| == 4 {
      assert l == "true" <==> l[0] == 't' && l[1] == 'r' && l[2] == 'u' && l[3] == 'e';
    } else if |s| == 3 {
      assert l == "yes" <==> l[0] == 'y' && l[1] == 'e' && l[2] == 's';
    } else if |s| == 1 {
      assert l == "1" <==> l[0] == '1';
    }
  }

  // ----- properties and property groups -----

  function PropertyNode(p: Property): Node
    requires p.dataType.Some?
  {
    Mapping(map["name" := Scalar(p.name), "data_type" := Scalar(TypeName(p.dataType.value)),
                "is_primary" := Scalar(BoolText(p.isPrimary)), "is_nullable" := Scalar(BoolText(p.isNullable))])
  }

  ghost predicate Typed(ps: seq<Property>) {
    forall i :: 0 <= i < |ps| ==> ps[i].dataType.Some?
  }

  ghost function PropertyNodes(ps: seq<Property>): seq<Node>
    requires Typed(ps)
  {
    if ps == [] then [] else PropertyNodes(ps[..|ps| - 1]) + [PropertyNode(ps[|ps| - 1])]
  }

  function LoadProperty(n: Node): Result<Property> {
    match TypeNameToDataType(n.Get("data_type").AsString())
    case Failure(e) => Failure(e)
    case Success(t) =>
      Success(NewProperty(n.Get("name").AsString(), Some(t), n.Get("is_primary").AsBool(),
                          n.Get("is_nullable").Null? || n.Get("is_nullable").AsBool()))
  }

  ghost predicate Readable(n: Node) {
    exists t :: Nameable(t) && n.Get("data_type").AsString() == TypeName(t)
  }

  /** What each entry of a property's node says of the property; without "is_nullable" it is nullable. */
  ghost predicate PropertyFrom(n: Node, p: Property) {
    && p.name == n.Get("name").AsString()
    && p.dataType.Some? && Nameable(p.dataType.value) && n.Get("data_type").AsString() == TypeName(p.dataType.value)
    && (p.isPrimary <==> n.Get("is_primary").AsBool())
    && (p.isNullable <==> !p.isPrimary && (n.Get("is_nullable") == Null || n.Get("is_nullable").AsBool()))
  }

  lemma PropertyLoads(n: Node)
    ensures LoadProperty(n).Success? <==> Readable(n)
    ensures LoadProperty(n).Success? ==> PropertyFrom(n, LoadProperty(n).value)
    ensures LoadProperty(n).Failure? ==> LoadProperty(n).error == Thrown
  {
    hide Node.Get, Node.AsString, Node.AsBool, TypeName, TypeNameToDataType;
    TypeNamesKnown(n.Get("data_type").AsString());
  }

  /** One node after the other; the first failure ends the load. */
  function LoadProperties(nodes: seq<Node>): Result<seq<Property>> {
    if nodes == [] then Success([])
    else match LoadProperties(nodes[..|nodes| - 1])
      case Failure(e) => Failure(e)
      case Success(ps) =>
        match LoadProperty(nodes[|nodes| - 1])
        case Failure(e) => Failure(e)
        case Success(p) => Success(ps + [p])
  }

  ghost predicate PropertiesFrom(nodes: seq<Node>, ps: seq<Property>) {
    |ps| == |nodes| && forall i :: 0 <= i < |nodes| ==> PropertyFrom(nodes[i], ps[i])
  }

  ghost predicate AllReadable(nodes: seq<Node>) {
    forall i :: 0 <= i < |nodes| ==> Readable(nodes[i])
  }

  lemma {:induction false} PropertiesLoad(nodes: seq<Node>)
    ensures LoadProperties(nodes).Success? <==> AllReadable(nodes)
    ensures LoadProperties(nodes).Success? ==> PropertiesFrom(nodes, LoadProperties(nodes).value)
    ensures LoadProperties(nodes).Failure? ==> LoadProperties(nodes).error == Thrown
  {
    hide PropertyFrom, Readable, LoadProperty;
    if nodes != [] {
      PropertiesLoad(nodes[..|nodes| - 1]);
      PropertyLoads(nodes[|nodes| - 1]);
    }
  }

  function GroupNode(g: PropertyGroup, properties: seq<Node>): Node {
    var node := map["file_type" := Scalar(FileTypeToString(g.fileType)), "properties" := Sequence(properties)];
    Mapping(if g.prefix == "" then node else node["prefix" := Scalar(g.prefix)])
  }

  ghost predicate AllTyped(groups: seq<Option<PropertyGroup>>) {
    forall i :: 0 <= i < |groups| ==> groups[i].Some? && Typed(groups[i].value.properties)
  }

  ghost function GroupNodes(groups: seq<Option<PropertyGroup>>): seq<Node>
    requires AllTyped(groups)
  {
    if groups == [] then []
    else
      var g := groups[|groups| - 1].value;
      GroupNodes(groups[..|groups| - 1]) + [GroupNode(g, PropertyNodes(g.properties))]
  }

  function LoadGroup(n: Node): Result<PropertyGroup> {
    match StringToFileType(n.Get("file_type").AsString())
    case Failure(e) => Failure(e)
    case Success(fileType) =>
      match LoadProperties(n.Get("properties").Items())
      case Failure(e) => Failure(e)
      case Success(ps) => Success(MakeGroup(ps, fileType, n.Get("prefix").AsString()))
  }

  function LoadGroups(nodes: seq<Node>): Result<seq<Option<PropertyGroup>>> {
    if nodes == [] then Success([])
    else match LoadGroups(nodes[..|nodes| - 1])
      case Failure(e) => Failure(e)
      case Success(groups) =>
        match LoadGroup(nodes[|nodes| - 1])
        case Failure(e) => Failure(e)
        case Success(g) => Success(groups + [Some(g)])
  }

  /** The same of a group: without a prefix it gets the joined names of its properties. */
  ghost predicate GroupFrom(n: Node, g: PropertyGroup) {
    && n.Get("file_type").AsString() == FileTypeToString(g.fileType)
    && PropertiesFrom(n.Get("properties").Items(), g.properties)
    && g.prefix == if n.Get("prefix").AsString() == "" && g.properties != [] then DefaultPrefix(g.properties)
                   else n.Get("prefix").AsString()
  }

  ghost predicate ReadableGroup(n: Node) {
    && (exists t :: n.Get("file_type").AsString() == FileTypeToString(t))
    && AllReadable(n.Get("properties").Items())
  }

  lemma GroupLoads(n: Node)
    ensures LoadGroup(n).Success? <==> ReadableGroup(n)
    ensures LoadGroup(n).Success? ==> GroupFrom(n, LoadGroup(n).value)
    ensures LoadGroup(n).Failure? ==> LoadGroup(n).error == Thrown
  {
    hide Node.Get, Node.AsString, Node.Items, PropertiesFrom, AllReadable, LoadProperties, FileTypeToString,
         StringToFileType, DefaultPrefix;
    FileTypeNamesKnown(n.Get("file_type").AsString());
    PropertiesLoad(n.Get("properties").Items());
  }

  ghost predicate GroupsFrom(nodes: seq<Node>, groups: seq<Option<PropertyGroup>>) {
    |groups| == |nodes| && forall i :: 0 <= i < |nodes| ==> groups[i].Some? && GroupFrom(nodes[i], groups[i].value)
  }

  ghost predicate GroupsReadable(nodes: seq<Node>) {
    forall i :: 0 <= i < |nodes| ==> ReadableGroup(nodes[i])
  }

  lemma {:induction false} GroupsLoad(nodes: seq<Node>)
    ensures LoadGroups(nodes).Success? <==> GroupsReadable(nodes)
    ensures LoadGroups(nodes).Success? ==> GroupsFrom(nodes, LoadGroups(nodes).value)
    ensures LoadGroups(nodes).Failure? ==> LoadGroups(nodes).error == Thrown
  {
    hide GroupFrom, ReadableGroup, LoadGroup;
    if nodes != [] {
      GroupsLoad(nodes[..|nodes| - 1]);
      GroupLoads(nodes[|nodes| - 1]);
    }
  }

  method DumpGroups(groups: seq<Option<PropertyGroup>>) returns (nodes: seq<Node>)
    requires AllTyped(groups)
    ensures nodes == GroupNodes(groups)
  {
    nodes := [];
    for i := 0 to |groups|
      invariant nodes == GroupNodes(groups[..i])
    {
      var g := groups[i].value;
      var properties := DumpProperties(g.properties);
      assert groups[..i + 1][..i] == groups[..i];
      nodes := nodes + [GroupNode(g, properties)];
    }
    assert groups[..|groups|] == groups;
  }

  method DumpProperties(ps: seq<Property>) returns (nodes: seq<Node>)
    requires Typed(ps)
    ensures nodes == PropertyNodes(ps)
  {
    nodes := [];
    for i := 0 to |ps|
      invariant nodes == PropertyNodes(ps[..i])
    {
      assert ps[..i + 1][..i] == ps[..i];
      nodes := nodes + [PropertyNode(ps[i])];
    }
    assert ps[..|ps|] == ps;
  }

  method LoadPropertyGroups(nodes: seq<Node>) returns (r: Result<seq<Option<PropertyGroup>>>)
    ensures r == LoadGroups(nodes)
    ensures r.Success? <==> GroupsReadable(nodes)
    ensures r.Success? ==> GroupsFrom(nodes, r.value)
    ensures r.Failure? ==> r.error == Thrown
  {
    hide GroupsReadable, GroupsFrom, GroupFrom, ReadableGroup;
    GroupsLoad(nodes);
    var groups: seq<Option<PropertyGroup>> := [];
    for i := 0 to |nodes|
      invariant LoadGroups(nodes[..i]) == Success(groups)
    {
      GroupsStep(nodes, i);
      var group := LoadPropertyGroup(nodes[i]);
      if group.Failure? {
        LoadGroupsFails(nodes, i + 1);
        return Failure(group.error);
      }
      groups := groups + [Some(group.value)];
    }
    assert nodes[..|nodes|] == nodes;
    r := Success(groups);
  }

  lemma GroupsStep(nodes: seq<Node>, i: nat)
    requires i < |nodes|
    ensures nodes[..i + 1][..i] == nodes[..i] && nodes[..i + 1][i] == nodes[i]
  {
  }

  lemma {:induction false} LoadGroupsFails(nodes: seq<Node>, i: nat)
    requires i <= |nodes| && LoadGroups(nodes[..i]).Failure?
    ensures LoadGroups(nodes) == LoadGroups(nodes[..i])
  {
    if i < |nodes| {
      assert nodes[..|nodes| - 1][..i] == nodes[..i];
      LoadGroupsFails(nodes[..|nodes| - 1], i);
    } else {
      assert nodes[..i] == nodes;
    }
  }

  method LoadPropertyGroup(n: Node) returns (r: Result<PropertyGroup>)
    ensures r == LoadGroup(n)
    ensures r.Success? <==> ReadableGroup(n)
    ensures r.Success? ==> GroupFrom(n, r.value)
    ensures r.Failure? ==> r.error == Thrown
  {
    hide GroupFrom, ReadableGroup;
    GroupLoads(n);
    var fileType := StringToFileType(n.Get("file_type").AsString());
    if fileType.Failure? {
      return Failure(fileType.error);
    }
    var nodes := n.Get("properties").Items();
    var ps: seq<Property> := [];
    for i := 0 to |nodes|
      invariant LoadProperties(nodes[..i]) == Success(ps)
    {
      GroupsStep(nodes, i);
      var p := LoadProperty(nodes[i]);
      if p.Failure? {
        LoadPropertiesFails(nodes, i + 1);
        return Failure(p.error);
      }
      ps := ps + [p.value];
    }
    assert nodes[..|nodes|] == nodes;
    var g := NewPropertyGroup(ps, fileType.value, n.Get("prefix").AsString());
    r := Success(g);
  }

  lemma {:induction false} LoadPropertiesFails(nodes: seq<Node>, i: nat)
    requires i <= |nodes| && LoadProperties(nodes[..i]).Failure?
    ensures LoadProperties(nodes) == LoadProperties(nodes[..i])
  {
    if i < |nodes| {
      assert nodes[..|nodes| - 1][..i] == nodes[..i];
      LoadPropertiesFails(nodes[..|nodes| - 1], i);
    } else {
      assert nodes[..i] == nodes;
    }
  }

  /** A property that survives the file: its type has a name there, and it is normalised. */
  ghost predicate Kept(p: Property) {
    p.dataType.Some? && Nameable(p.dataType.value) && !(p.isPrimary && p.isNullable)
  }

  ghost predicate AllKept(ps: seq<Property>) {
    forall i :: 0 <= i < |ps| ==> Kept(ps[i])
  }

  ghost predicate GroupsKept(groups: seq<Option<PropertyGroup>>) {
    forall i :: 0 <= i < |groups| ==> groups[i].Some? && AllKept(groups[i].value.properties)
  }

  lemma PropertyReadsBack(p: Property)
    requires p.dataType.Some?
    ensures LoadProperty(PropertyNode(p)) == Success(p) <==> Kept(p)
  {
    TypeNameReadsBack(p.dataType.value);
  }

  lemma SameAppended<T>(a: seq<T>, x: T, b: seq<T>, y: T)
    ensures a + [x] == b + [y] <==> a == b && x == y
  {
    if a + [x] == b + [y] {
      assert a == (a + [x])[..|a|] && b == (b + [y])[..|b|];
      assert (a + [x])[|a|] == x && (b + [y])[|b|] == y;
    }
  }

  lemma LoadPropertiesAppend(nodes: seq<Node>, n: Node, ps: seq<Property>, p: Property)
    ensures LoadProperties(nodes + [n]) == Success(ps + [p]) <==>
            LoadProperties(nodes) == Success(ps) && LoadProperty(n) == Success(p)
  {
    var all := nodes + [n];
    assert all[..|all| - 1] == nodes;
    if LoadProperties(nodes).Success? && LoadProperty(n).Success? {
      SameAppended(LoadProperties(nodes).value, LoadProperty(n).value, ps, p);
    }
  }

  lemma KeptSplit(ps: seq<Property>)
    requires ps != []
    ensures var init, last := ps[..|ps| - 1], ps[|ps| - 1];
            && (Typed(ps) <==> Typed(init) && last.dataType.Some?)
            && (AllKept(ps) <==> AllKept(init) && Kept(last))
  {
  }

  lemma NoProperties()
    ensures AllKept([]) && LoadProperties([]) == Success([])
  {
  }

  lemma {:induction false} PropertiesReadBack(ps: seq<Property>)
    requires Typed(ps)
    ensures LoadProperties(PropertyNodes(ps)) == Success(ps) <==> AllKept(ps)
  {
    hide PropertyNode, LoadProperty, LoadProperties, Kept, AllKept, Typed;
    if ps == [] {
      NoProperties();
    } else {
      var init, last := ps[..|ps| - 1], ps[|ps| - 1];
      KeptSplit(ps);
      PropertiesReadBack(init);
      PropertyReadsBack(last);
      LoadPropertiesAppend(PropertyNodes(init), PropertyNode(last), init, last);
      assert ps == init + [last];
    }
  }

  lemma GroupReadsBack(g: PropertyGroup)
    requires g.Validated() && Typed(g.properties)
    ensures LoadGroup(GroupNode(g, PropertyNodes(g.properties))) == Success(g) <==> AllKept(g.properties)
  {
    PropertiesReadBack(g.properties);
    var n := GroupNode(g, PropertyNodes(g.properties));
    assert n.Get("properties").Items() == PropertyNodes(g.properties);
    assert StringToFileType(n.Get("file_type").AsString()) == Success(g.fileType);
    assert n.Get("prefix").AsString() == g.prefix;
  }

  lemma LoadGroupsAppend(nodes: seq<Node>, n: Node, groups: seq<Option<PropertyGroup>>, g: PropertyGroup)
    ensures LoadGroups(nodes + [n]) == Success(groups + [Some(g)]) <==>
            LoadGroups(nodes) == Success(groups) && LoadGroup(n) == Success(g)
  {
    hide LoadGroup;
    var all := nodes + [n];
    assert all[..|all| - 1] == nodes;
    if LoadGroups(nodes).Success? && LoadGroup(n).Success? {
      SameAppended(LoadGroups(nodes).value, Some(LoadGroup(n).value), groups, Some(g));
    }
  }

  ghost predicate AllValid(groups: seq<Option<PropertyGroup>>) {
    forall i :: 0 <= i < |groups| ==> groups[i].Some? && groups[i].value.Validated()
  }

  lemma GroupsSplit(groups: seq<Option<PropertyGroup>>)
    requires groups != []
    ensures var init, last := groups[..|groups| - 1], groups[|groups| - 1];
            && (AllTyped(groups) <==> AllTyped(init) && last.Some? && Typed(last.value.properties))
            && (AllValid(groups) <==> AllValid(init) && last.Some? && last.value.Validated())
            && (GroupsKept(groups) <==> GroupsKept(init) && last.Some? && AllKept(last.value.properties))
  {
    hide Typed, AllKept, PropertyGroup.Validated;
  }

  lemma NoGroupNodes()
    ensures GroupsKept([]) && LoadGroups([]) == Success([])
  {
  }

  lemma {:induction false} GroupsReadBack(groups: seq<Option<PropertyGroup>>)
    requires AllTyped(groups) && AllValid(groups)
    ensures LoadGroups(GroupNodes(groups)) == Success(groups) <==> GroupsKept(groups)
  {
    hide GroupNode, LoadGroup, LoadGroups, PropertyGroup.Validated, AllKept, Typed, AllTyped, AllValid, GroupsKept;
    if groups == [] {
      NoGroupNodes();
    } else {
      var init, last := groups[..|groups| - 1], groups[|groups| - 1];
      GroupsSplit(groups);
      GroupsReadBack(init);
      GroupReadsBack(last.value);
      LoadGroupsAppend(GroupNodes(init), GroupNode(last.value, PropertyNodes(last.value.properties)), init, last.value);
      assert groups == init + [last];
    }
  }

  lemma ValidIsTyped(groups: seq<Option<PropertyGroup>>)
    requires ValidGroups(groups)
    ensures AllTyped(groups)
  {
  }

  // ----- labels -----

  ghost function Scalars(texts: seq<string>): seq<Node> {
    if texts == [] then [] else Scalars(texts[..|texts| - 1]) + [Scalar(texts[|texts| - 1])]
  }

  function Texts(nodes: seq<Node>): (texts: seq<string>)
    ensures |texts| == |nodes|
  {
    seq(|nodes|, i requires 0 <= i < |nodes| => nodes[i].AsString())
  }

  lemma {:induction false} TextsReadBack(texts: seq<string>)
    ensures |Scalars(texts)| == |texts| && Texts(Scalars(texts)) == texts
  {
    if texts != [] {
      TextsReadBack(texts[..|texts| - 1]);
      assert forall i :: 0 <= i < |texts| - 1 ==> Texts(Scalars(texts[..|texts| - 1]))[i] == texts[i];
    }
  }

  method DumpTexts(texts: seq<string>) returns (nodes: seq<Node>)
    ensures nodes == Scalars(texts)
  {
    nodes := [];
    for i := 0 to |texts|
      invariant nodes == Scalars(texts[..i])
    {
      assert texts[..i + 1][..i] == texts[..i];
      nodes := nodes + [Scalar(texts[i])];
    }
    assert texts[..|texts|] == texts;
  }

  method LoadTexts(nodes: seq<Node>) returns (texts: seq<string>)
    ensures texts == Texts(nodes)
  {
    texts := [];
    for i := 0 to |nodes|
      invariant texts == Texts(nodes[..i])
    {
      texts := texts + [nodes[i].AsString()];
    }
    assert nodes[..|nodes|] == nodes;
  }

  // ----- entries present only when there is something to write -----

  function With(entries: map<string, Node>, key: string, nodes: seq<Node>): map<string, Node> {
    if nodes == [] then entries else entries[key := Sequence(nodes)]
  }

  function WithVersion(entries: map<string, Node>, version: Option<Version>): map<string, Node> {
    if version.None? then entries else entries["version" := Scalar(ToText(version.value))]
  }

  function LoadVersion(n: Node): Result<Option<Version>> {
    if n.Get("version").Null? then Success(None)
    else match Parse(n.Get("version").AsString())
      case Failure(e) => Failure(e)
      case Success(v) => Success(Some(v))
  }

  /** No entry, no version; otherwise the text must parse. */
  ghost predicate VersionFrom(n: Node, version: Option<Version>) {
    if n.Get("version") == Null then version == None
    else version.Some? && Parse(n.Get("version").AsString()) == Success(version.value)
  }

  ghost predicate VersionReadable(n: Node) {
    n.Get("version") != Null ==> Parse(n.Get("version").AsString()).Success?
  }

  lemma VersionLoads(n: Node)
    ensures LoadVersion(n).Success? <==> VersionReadable(n)
    ensures LoadVersion(n).Success? ==> VersionFrom(n, LoadVersion(n).value)
    ensures LoadVersion(n).Failure? ==> LoadVersion(n).error == Invalid
  {
    hide Node.Get, Node.AsString;
  }

  ghost predicate VersionKept(version: Option<Version>) {
    version.Some? ==> Representable(version.value)
  }

  lemma VersionEntryReadsBack(entries: map<string, Node>, version: Option<Version>)
    requires "version" !in entries
    ensures LoadVersion(Mapping(WithVersion(entries, version))) == Success(version) <==> VersionKept(version)
  {
    if version.Some? {
      VersionReadsBack(version.value);
    }
  }

  // ----- vertex info -----

  ghost function VertexNode(v: VertexInfo): Node
    requires AllTyped(v.groups)
  {
    var m := map["type" := Scalar(v.vertexType), "chunk_size" := Scalar(ToString(v.chunkSize)),
                 "prefix" := Scalar(v.prefix)];
    var m := With(m, "labels", Scalars(v.labels));
    var m := With(m, "property_groups", GroupNodes(v.groups));
    Mapping(WithVersion(m, v.version))
  }

  method DumpVertex(v: VertexInfo) returns (r: Result<Node>)
    ensures v.Validated() ==> AllTyped(v.groups) && r == Success(VertexNode(v))
    ensures !v.Validated() ==> r == Failure(Invalid)
  {
    var valid := VertexIsValidated(v);
    if !valid {
      return Failure(Invalid);
    }
    ValidIsTyped(v.groups);
    var m := map["type" := Scalar(v.vertexType), "chunk_size" := Scalar(ToString(v.chunkSize)),
                 "prefix" := Scalar(v.prefix)];
    var labels := DumpTexts(v.labels);
    m := With(m, "labels", labels);
    var groups := DumpGroups(v.groups);
    m := With(m, "property_groups", groups);
    r := Success(Mapping(WithVersion(m, v.version)));
  }

  function LoadVertexNode(n: Node): Result<VertexInfo> {
    match LoadVersion(n)
    case Failure(e) => Failure(e)
    case Success(version) =>
      match LoadGroups(n.Get("property_groups").Items())
      case Failure(e) => Failure(e)
      case Success(groups) =>
        Success(MakeVertexInfo(n.Get("type").AsString(), ParseInt64(n.Get("chunk_size").AsString()), groups,
                               Texts(n.Get("labels").Items()), n.Get("prefix").AsString(), version))
  }

  /** What each entry of a vertex info's node says of the info. */
  ghost predicate VertexFrom(n: Node, v: VertexInfo) {
    && v.Built() && v.vertexType == n.Get("type").AsString()
    && v.chunkSize == ParseInt64(n.Get("chunk_size").AsString())
    && v.prefix == (if n.Get("prefix").AsString() == "" then v.vertexType + "/" else n.Get("prefix").AsString())
    && v.labels == Texts(n.Get("labels").Items())
    && GroupsFrom(n.Get("property_groups").Items(), v.groups)
    && VersionFrom(n, v.version)
  }

  lemma VertexLoads(n: Node)
    ensures LoadVertexNode(n).Success? <==> VersionReadable(n) && GroupsReadable(n.Get("property_groups").Items())
    ensures LoadVertexNode(n).Success? ==> VertexFrom(n, LoadVertexNode(n).value)
    ensures LoadVertexNode(n).Failure? ==>
      LoadVertexNode(n).error == if VersionReadable(n) then Thrown else Invalid
  {
    hide Node.Get, Node.AsString, Node.Items, GroupsFrom, GroupsReadable, LoadGroups, LoadVersion, VersionFrom,
         VersionReadable, ParseInt64, IndexOf, Listed;
    VersionLoads(n);
    GroupsLoad(n.Get("property_groups").Items());
  }

  method LoadVertex(n: Node) returns (r: Result<VertexInfo>)
    ensures r == LoadVertexNode(n)
    ensures r.Success? <==> VersionReadable(n) && GroupsReadable(n.Get("property_groups").Items())
    ensures r.Success? ==> VertexFrom(n, r.value)
    ensures r.Failure? ==> r.error == if VersionReadable(n) then Thrown else Invalid
  {
    hide VertexFrom, VersionReadable, GroupsReadable, GroupsFrom;
    VertexLoads(n);
    var labels := LoadTexts(n.Get("labels").Items());
    var version := LoadVersion(n);
    if version.Failure? {
      return Failure(version.error);
    }
    var groups := LoadPropertyGroups(n.Get("property_groups").Items());
    if groups.Failure? {
      return Failure(groups.error);
    }
    var v := NewVertexInfo(n.Get("type").AsString(), ParseInt64(n.Get("chunk_size").AsString()), groups.value,
                           labels, n.Get("prefix").AsString(), version.value);
    r := Success(v);
  }

  lemma WithEntry(entries: map<string, Node>, key: string, nodes: seq<Node>)
    requires key !in entries
    ensures Mapping(With(entries, key, nodes)).Get(key).Items() == nodes
    ensures forall k :: k != key ==> Mapping(With(entries, key, nodes)).Get(k) == Mapping(entries).Get(k)
    ensures forall k :: k != key ==> (k in With(entries, key, nodes) <==> k in entries)
  {
  }

  lemma WithVersionEntry(entries: map<string, Node>, version: Option<Version>)
    ensures forall k :: k != "version" ==> Mapping(WithVersion(entries, version)).Get(k) == Mapping(entries).Get(k)
  {
  }

  lemma VertexNodeEntries(v: VertexInfo)
    requires AllTyped(v.groups)
    ensures var n := VertexNode(v);
            && n.Get("type").AsString() == v.vertexType
            && n.Get("chunk_size").AsString() == ToString(v.chunkSize)
            && n.Get("prefix").AsString() == v.prefix
            && n.Get("labels").Items() == Scalars(v.labels)
            && n.Get("property_groups").Items() == GroupNodes(v.groups)
            && (LoadVersion(n) == Success(v.version) <==> VersionKept(v.version))
  {
    hide With, WithVersion, Scalars, GroupNodes, ToString, LoadVersion, VersionKept, AllTyped;
    var m0 := map["type" := Scalar(v.vertexType), "chunk_size" := Scalar(ToString(v.chunkSize)),
                  "prefix" := Scalar(v.prefix)];
    var m1 := With(m0, "labels", Scalars(v.labels));
    var m2 := With(m1, "property_groups", GroupNodes(v.groups));
    WithEntry(m0, "labels", Scalars(v.labels));
    WithEntry(m1, "property_groups", GroupNodes(v.groups));
    WithVersionEntry(m2, v.version);
    VersionEntryReadsBack(m2, v.version);
  }

  ghost predicate VertexKept(v: VertexInfo) {
    GroupsKept(v.groups) && VersionKept(v.version)
  }

  /** Loading what a valid vertex info dumps gives that info back exactly when every part has a name in the file. */
  lemma VertexReadsBack(v: VertexInfo)
    requires v.Built() && v.Validated() && v.chunkSize <= INT64_MAX && AllTyped(v.groups)
    ensures LoadVertexNode(VertexNode(v)) == Success(v) <==> VertexKept(v)
  {
    hide VertexNode, LoadVersion, VersionKept, GroupsKept, LoadGroups, GroupNodes, Scalars, ParseInt64, ToString,
         IndexOf, Listed;
    VertexNodeEntries(v);
    GroupsReadBack(v.groups);
    TextsReadBack(v.labels);
    Int64ReadsBack(v.chunkSize);
  }

  // ----- edge info -----

  function AdjListNode(list: AdjacentList): Node {
    var pair := AdjListTypeToOrderedAligned(list.adjType);
    Mapping(map["ordered" := Scalar(BoolText(pair.0)), "aligned_by" := Scalar(pair.1),
                "prefix" := Scalar(list.prefix), "file_type" := Scalar(FileTypeToString(list.fileType))])
  }

  ghost predicate AllPresent(lists: seq<Option<AdjacentList>>) {
    forall i :: 0 <= i < |lists| ==> lists[i].Some?
  }

  ghost function AdjListNodes(lists: seq<Option<AdjacentList>>): seq<Node>
    requires AllPresent(lists)
  {
    if lists == [] then [] else AdjListNodes(lists[..|lists| - 1]) + [AdjListNode(lists[|lists| - 1].value)]
  }

  function LoadAdjList(n: Node): Result<AdjacentList> {
    match StringToFileType(n.Get("file_type").AsString())
    case Failure(e) => Failure(e)
    case Success(fileType) =>
      Success(NewAdjacentList(
        OrderedAlignedToAdjListType(n.Get("ordered").AsBool(), n.Get("aligned_by").AsString()),
        fileType, n.Get("prefix").AsString()))
  }

  /** What each entry of an adjacency list's node says of the list. */
  ghost predicate AdjListFrom(n: Node, list: AdjacentList) {
    && (list.adjType.Ordered() <==> n.Get("ordered").AsBool())
    && (list.adjType.BySource() <==> n.Get("aligned_by").AsString() == "src")
    && n.Get("file_type").AsString() == FileTypeToString(list.fileType)
    && list.prefix == if n.Get("prefix").AsString() == "" then AdjListTypeToString(list.adjType) + "/"
                      else n.Get("prefix").AsString()
  }

  ghost predicate ReadableList(n: Node) {
    exists t :: n.Get("file_type").AsString() == FileTypeToString(t)
  }

  lemma AdjListLoads(n: Node)
    ensures LoadAdjList(n).Success? <==> ReadableList(n)
    ensures LoadAdjList(n).Success? ==> AdjListFrom(n, LoadAdjList(n).value)
    ensures LoadAdjList(n).Failure? ==> LoadAdjList(n).error == Thrown
  {
    hide Node.Get, Node.AsString, Node.AsBool, FileTypeToString, StringToFileType, AdjListTypeToString,
         OrderedAlignedToAdjListType, AdjListType.Ordered, AdjListType.BySource;
    FileTypeNamesKnown(n.Get("file_type").AsString());
    AlignedKnown(n.Get("ordered").AsBool(), n.Get("aligned_by").AsString());
  }

  ghost predicate AdjListsFrom(nodes: seq<Node>, lists: seq<Option<AdjacentList>>) {
    |lists| == |nodes| && forall i :: 0 <= i < |nodes| ==> lists[i].Some? && AdjListFrom(nodes[i], lists[i].value)
  }

  ghost predicate ListsReadable(nodes: seq<Node>) {
    forall i :: 0 <= i < |nodes| ==> ReadableList(nodes[i])
  }

  lemma {:induction false} AdjListsLoad(nodes: seq<Node>)
    ensures LoadAdjLists(nodes).Success? <==> ListsReadable(nodes)
    ensures LoadAdjLists(nodes).Success? ==> AdjListsFrom(nodes, LoadAdjLists(nodes).value)
    ensures LoadAdjLists(nodes).Failure? ==> LoadAdjLists(nodes).error == Thrown
  {
    hide AdjListFrom, ReadableList, LoadAdjList;
    if nodes != [] {
      AdjListsLoad(nodes[..|nodes| - 1]);
      AdjListLoads(nodes[|nodes| - 1]);
    }
  }

  function LoadAdjLists(nodes: seq<Node>): Result<seq<Option<AdjacentList>>> {
    if nodes == [] then Success([])
    else match LoadAdjLists(nodes[..|nodes| - 1])
      case Failure(e) => Failure(e)
      case Success(lists) =>
        match LoadAdjList(nodes[|nodes| - 1])
        case Failure(e) => Failure(e)
        case Success(list) => Success(lists + [Some(list)])
  }

  method DumpAdjLists(lists: seq<Option<AdjacentList>>) returns (nodes: seq<Node>)
    requires AllPresent(lists)
    ensures nodes == AdjListNodes(lists)
  {
    nodes := [];
    for i := 0 to |lists|
      invariant nodes == AdjListNodes(lists[..i])
    {
      assert lists[..i + 1][..i] == lists[..i];
      nodes := nodes + [AdjListNode(lists[i].value)];
    }
    assert lists[..|lists|] == lists;
  }

  method LoadAdjacentLists(nodes: seq<Node>) returns (r: Result<seq<Option<AdjacentList>>>)
    ensures r == LoadAdjLists(nodes)
  {
    var lists: seq<Option<AdjacentList>> := [];
    for i := 0 to |nodes|
      invariant LoadAdjLists(nodes[..i]) == Success(lists)
    {
      GroupsStep(nodes, i);
      var list := LoadAdjList(nodes[i]);
      if list.Failure? {
        LoadAdjListsFails(nodes, i + 1);
        return Failure(list.error);
      }
      lists := lists + [Some(list.value)];
    }
    assert nodes[..|nodes|] == nodes;
    r := Success(lists);
  }

  lemma {:induction false} LoadAdjListsFails(nodes: seq<Node>, i: nat)
    requires i <= |nodes| && LoadAdjLists(nodes[..i]).Failure?
    ensures LoadAdjLists(nodes) == LoadAdjLists(nodes[..i])
  {
    if i < |nodes| {
      assert nodes[..|nodes| - 1][..i] == nodes[..i];
      LoadAdjListsFails(nodes[..|nodes| - 1], i);
    } else {
      assert nodes[..i] == nodes;
    }
  }

  lemma AdjListReadsBack(list: AdjacentList)
    requires list.Validated()
    ensures LoadAdjList(AdjListNode(list)) == Success(list)
  {
  }

  lemma {:induction false} AdjListsReadBack(lists: seq<Option<AdjacentList>>)
    requires AllPresent(lists) && forall i :: 0 <= i < |lists| ==> lists[i].value.Validated()
    ensures LoadAdjLists(AdjListNodes(lists)) == Success(lists)
  {
    hide AdjListNode, LoadAdjList;
    if lists != [] {
      var init, last := lists[..|lists| - 1], lists[|lists| - 1];
      var nodes := AdjListNodes(lists);
      AdjListsReadBack(init);
      AdjListReadsBack(last.value);
      assert nodes[..|nodes| - 1] == AdjListNodes(init);
      assert lists == init + [last];
    }
  }

  ghost function EdgeNode(e: EdgeInfo): Node
    requires AllTyped(e.groups) && AllPresent(e.adjLists)
  {
    var m := With(EdgeEntries(e), "adj_lists", AdjListNodes(e.adjLists));
    var m := With(m, "property_groups", GroupNodes(e.groups));
    Mapping(WithVersion(m, e.version))
  }

  function EdgeEntries(e: EdgeInfo): map<string, Node> {
    map["src_type" := Scalar(e.srcType), "edge_type" := Scalar(e.edgeType), "dst_type" := Scalar(e.dstType),
        "chunk_size" := Scalar(ToString(e.chunkSize)), "src_chunk_size" := Scalar(ToString(e.srcChunkSize)),
        "dst_chunk_size" := Scalar(ToString(e.dstChunkSize)), "prefix" := Scalar(e.prefix),
        "directed" := Scalar(BoolText(e.directed))]
  }

  method DumpEdge(e: EdgeInfo) returns (r: Result<Node>)
    requires e.Built()
    ensures e.Validated() ==> AllTyped(e.groups) && AllPresent(e.adjLists) && r == Success(EdgeNode(e))
    ensures !e.Validated() ==> r == Failure(Invalid)
  {
    hide EdgeEntries, With, WithVersion, GroupNodes, AdjListNodes, ValidGroups, AllTyped, AllDistinct, EdgeInfo.Built;
    var valid := EdgeIsValidated(e);
    if !valid {
      return Failure(Invalid);
    }
    ValidIsTyped(e.groups);
    var lists := DumpAdjLists(e.adjLists);
    var groups := DumpGroups(e.groups);
    var entries := With(With(EdgeEntries(e), "adj_lists", lists), "property_groups", groups);
    r := Success(Mapping(WithVersion(entries, e.version)));
  }

  function LoadEdgeNode(n: Node): Result<EdgeInfo> {
    match LoadVersion(n)
    case Failure(e) => Failure(e)
    case Success(version) =>
      match LoadAdjLists(n.Get("adj_lists").Items())
      case Failure(e) => Failure(e)
      case Success(lists) =>
        match LoadGroups(n.Get("property_groups").Items())
        case Failure(e) => Failure(e)
        case Success(groups) =>
          Success(MakeEdgeInfo(
            n.Get("src_type").AsString(), n.Get("edge_type").AsString(), n.Get("dst_type").AsString(),
            ParseInt64(n.Get("chunk_size").AsString()), ParseInt64(n.Get("src_chunk_size").AsString()),
            ParseInt64(n.Get("dst_chunk_size").AsString()), n.Get("directed").AsBool(), lists, groups,
            n.Get("prefix").AsString(), version))
  }

  /** What each entry of an edge info's node says of the info. */
  ghost predicate EdgeFrom(n: Node, e: EdgeInfo) {
    && e.Built() && e.srcType == n.Get("src_type").AsString()
    && e.edgeType == n.Get("edge_type").AsString() && e.dstType == n.Get("dst_type").AsString()
    && e.chunkSize == ParseInt64(n.Get("chunk_size").AsString())
    && e.srcChunkSize == ParseInt64(n.Get("src_chunk_size").AsString())
    && e.dstChunkSize == ParseInt64(n.Get("dst_chunk_size").AsString())
    && (e.directed <==> n.Get("directed").AsBool())
    && e.prefix == (if n.Get("prefix").AsString() == "" then e.srcType + "_" + e.edgeType + "_" + e.dstType + "/"
                    else n.Get("prefix").AsString())
    && AdjListsFrom(n.Get("adj_lists").Items(), e.adjLists)
    && GroupsFrom(n.Get("property_groups").Items(), e.groups)
    && VersionFrom(n, e.version)
  }

  ghost predicate EdgeReadable(n: Node) {
    && VersionReadable(n) && ListsReadable(n.Get("adj_lists").Items())
    && GroupsReadable(n.Get("property_groups").Items())
  }

  lemma EdgeLoads(n: Node)
    ensures LoadEdgeNode(n).Success? <==> EdgeReadable(n)
    ensures LoadEdgeNode(n).Success? ==> EdgeFrom(n, LoadEdgeNode(n).value)
    ensures LoadEdgeNode(n).Failure? ==> LoadEdgeNode(n).error == if VersionReadable(n) then Thrown else Invalid
  {
    hide Node.Get, Node.AsString, Node.AsBool, Node.Items, GroupsFrom, GroupsReadable, LoadGroups, LoadVersion,
         VersionFrom, VersionReadable, ParseInt64, IndexOf, Listed, LastIndex, AdjKeys, LoadAdjLists, AdjListsFrom,
         ListsReadable;
    VersionLoads(n);
    AdjListsLoad(n.Get("adj_lists").Items());
    GroupsLoad(n.Get("property_groups").Items());
  }

  method LoadEdge(n: Node) returns (r: Result<EdgeInfo>)
    ensures r == LoadEdgeNode(n)
    ensures r.Success? <==> EdgeReadable(n)
    ensures r.Success? ==> EdgeFrom(n, r.value)
    ensures r.Failure? ==> r.error == if VersionReadable(n) then Thrown else Invalid
  {
    hide EdgeFrom, EdgeReadable, VersionReadable, GroupsReadable, GroupsFrom;
    EdgeLoads(n);
    var version := LoadVersion(n);
    if version.Failure? {
      return Failure(version.error);
    }
    var lists := LoadAdjacentLists(n.Get("adj_lists").Items());
    if lists.Failure? {
      return Failure(lists.error);
    }
    var groups := LoadPropertyGroups(n.Get("property_groups").Items());
    if groups.Failure? {
      return Failure(groups.error);
    }
    var e := NewEdgeInfo(
      n.Get("src_type").AsString(), n.Get("edge_type").AsString(), n.Get("dst_type").AsString(),
      ParseInt64(n.Get("chunk_size").AsString()), ParseInt64(n.Get("src_chunk_size").AsString()),
      ParseInt64(n.Get("dst_chunk_size").AsString()), n.Get("directed").AsBool(), lists.value, groups.value,
      n.Get("prefix").AsString(), version.value);
    r := Success(e);
  }

  ghost predicate Plain(key: string) {
    key != "adj_lists" && key != "property_groups" && key != "version"
  }

  lemma PlainKeys()
    ensures Plain("src_type") && Plain("edge_type") && Plain("dst_type") && Plain("prefix") && Plain("directed")
    ensures Plain("chunk_size") && Plain("src_chunk_size") && Plain("dst_chunk_size")
  {
  }

  lemma EdgeNameEntries(e: EdgeInfo)
    ensures var n := Mapping(EdgeEntries(e));
            && n.Get("src_type").AsString() == e.srcType
            && n.Get("edge_type").AsString() == e.edgeType
            && n.Get("dst_type").AsString() == e.dstType
            && n.Get("prefix").AsString() == e.prefix
            && n.Get("directed").AsBool() == e.directed
  {
    hide ToString, Lower;
  }

  lemma EdgeSizeEntries(e: EdgeInfo)
    ensures var n := Mapping(EdgeEntries(e));
            && n.Get("chunk_size").AsString() == ToString(e.chunkSize)
            && n.Get("src_chunk_size").AsString() == ToString(e.srcChunkSize)
            && n.Get("dst_chunk_size").AsString() == ToString(e.dstChunkSize)
  {
    hide ToString, BoolText;
  }

  lemma OnlyPlainEntries(e: EdgeInfo)
    ensures "adj_lists" !in EdgeEntries(e) && "property_groups" !in EdgeEntries(e) && "version" !in EdgeEntries(e)
  {
    hide ToString, BoolText;
  }

  lemma EdgeNodeEntries(e: EdgeInfo)
    requires AllTyped(e.groups) && AllPresent(e.adjLists)
    ensures forall k :: Plain(k) ==> EdgeNode(e).Get(k) == Mapping(EdgeEntries(e)).Get(k)
    ensures EdgeNode(e).Get("adj_lists").Items() == AdjListNodes(e.adjLists)
    ensures EdgeNode(e).Get("property_groups").Items() == GroupNodes(e.groups)
    ensures LoadVersion(EdgeNode(e)) == Success(e.version) <==> VersionKept(e.version)
  {
    var m0 := EdgeEntries(e);
    hide With, WithVersion, AdjListNodes, GroupNodes, LoadVersion, VersionKept, AllTyped, EdgeEntries, AllPresent;
    var m1 := With(m0, "adj_lists", AdjListNodes(e.adjLists));
    var m2 := With(m1, "property_groups", GroupNodes(e.groups));
    OnlyPlainEntries(e);
    WithEntry(m0, "adj_lists", AdjListNodes(e.adjLists));
    WithEntry(m1, "property_groups", GroupNodes(e.groups));
    WithVersionEntry(m2, e.version);
    VersionEntryReadsBack(m2, e.version);
  }

  ghost predicate EdgeKept(e: EdgeInfo) {
    GroupsKept(e.groups) && VersionKept(e.version)
  }

  ghost predicate Int64Sizes(e: EdgeInfo) {
    e.chunkSize <= INT64_MAX && e.srcChunkSize <= INT64_MAX && e.dstChunkSize <= INT64_MAX
  }

  lemma EdgeScalarsReadBack(e: EdgeInfo)
    requires e.Validated() && Int64Sizes(e) && AllTyped(e.groups) && AllPresent(e.adjLists)
    ensures var n := EdgeNode(e);
            && n.Get("src_type").AsString() == e.srcType
            && n.Get("edge_type").AsString() == e.edgeType
            && n.Get("dst_type").AsString() == e.dstType
            && ParseInt64(n.Get("chunk_size").AsString()) == e.chunkSize
            && ParseInt64(n.Get("src_chunk_size").AsString()) == e.srcChunkSize
            && ParseInt64(n.Get("dst_chunk_size").AsString()) == e.dstChunkSize
            && n.Get("prefix").AsString() == e.prefix
            && n.Get("directed").AsBool() == e.directed
  {
    hide EdgeNode, ParseInt64, ToString, AllTyped, AllPresent, ValidGroups, AllDistinct, EdgeEntries, Plain,
         Node.Get, Node.AsString, Node.AsBool;
    EdgeNodeEntries(e);
    PlainKeys();
    EdgeNameEntries(e);
    EdgeSizeEntries(e);
    Int64ReadsBack(e.chunkSize);
    Int64ReadsBack(e.srcChunkSize);
    Int64ReadsBack(e.dstChunkSize);
  }

  /** As for vertex infos; adjacency lists always come back. */
  lemma EdgeReadsBack(e: EdgeInfo)
    requires e.Built() && e.Validated() && Int64Sizes(e) && AllTyped(e.groups) && AllPresent(e.adjLists)
    ensures LoadEdgeNode(EdgeNode(e)) == Success(e) <==> EdgeKept(e)
  {
    hide EdgeNode, LoadVersion, VersionKept, GroupsKept, LoadGroups, GroupNodes, ParseInt64, ToString, LoadAdjLists,
         AdjListNodes, EdgeEntries, Node.AsString, Node.AsBool, Node.Get, Node.Items, Int64Sizes, AllTyped, AllPresent;
    assert AllValid(e.groups);
    EdgeScalarsReadBack(e);
    EdgeNodeEntries(e);
    AdjListsReadBack(e.adjLists);
    GroupsReadBack(e.groups);
    EdgeAssembled(e, EdgeNode(e));
  }

  lemma EdgeAssembled(e: EdgeInfo, n: Node)
    requires e.Built()
    requires n.Get("src_type").AsString() == e.srcType && n.Get("edge_type").AsString() == e.edgeType
    requires n.Get("dst_type").AsString() == e.dstType && n.Get("prefix").AsString() == e.prefix
    requires ParseInt64(n.Get("chunk_size").AsString()) == e.chunkSize
    requires ParseInt64(n.Get("src_chunk_size").AsString()) == e.srcChunkSize
    requires ParseInt64(n.Get("dst_chunk_size").AsString()) == e.dstChunkSize
    requires n.Get("directed").AsBool() == e.directed
    requires LoadAdjLists(n.Get("adj_lists").Items()) == Success(e.adjLists)
    ensures LoadEdgeNode(n) == Success(e) <==>
            LoadVersion(n) == Success(e.version) && LoadGroups(n.Get("property_groups").Items()) == Success(e.groups)
  {
    hide LoadVersion, LoadGroups, ParseInt64, LoadAdjLists, Node.AsString, Node.AsBool, Node.Get, Node.Items,
         IndexOf, Listed, LastIndex, AdjKeys;
  }
}
