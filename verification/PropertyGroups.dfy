/**
 * Properties, property groups and adjacency lists, and the name index a vertex or edge info
 * keeps over its groups (cpp/src/graphar/graph_info.h, cpp/src/graphar/graph_info.cc).
 * A null shared pointer is None.
 */
module PropertyGroups {
  import opened Joining
  import opened Results
  import opened Types

  datatype Property = Property(name: string, dataType: Option<DataType>, isPrimary: bool, isNullable: bool)

  /** A primary property is never nullable. */
  function NewProperty(name: string, dataType: Option<DataType>, isPrimary: bool, isNullable: bool): (p: Property)
    ensures p.isPrimary ==> !p.isNullable
  {
    Property(name, dataType, isPrimary, !isPrimary && isNullable)
  }

  predicate DataFile(t: FileType) {
    t == Csv || t == Parquet || t == Orc
  }

  predicate ValidProperty(p: Property, fileType: FileType) {
    p.name != "" && p.dataType.Some? && !(p.dataType.value.List? && fileType == Csv)
  }

  datatype PropertyGroup = PropertyGroup(properties: seq<Property>, fileType: FileType, prefix: string) {
    ghost predicate Validated() {
      && prefix != "" && fileType in {Csv, Parquet, Orc} && properties != []
      && (forall i :: 0 <= i < |properties| ==> ValidProperty(properties[i], fileType))
      && (forall i, j :: 0 <= i < j < |properties| ==> properties[i].name != properties[j].name)
    }
  }

  function Names(ps: seq<Property>): (names: seq<string>)
    ensures |names| == |ps| && forall i :: 0 <= i < |ps| ==> names[i] == ps[i].name
  {
    seq(|ps|, i requires 0 <= i < |ps| => ps[i].name)
  }

  function DefaultPrefix(ps: seq<Property>): string
    requires ps != []
  {
    var joined := Terminated(Names(ps), '_');
    joined[..|joined| - 1] + "/"
  }

  /** The names in order, joined with underscores and closed with a slash. */
  lemma DefaultPrefixForm(ps: seq<Property>, p: Property)
    ensures DefaultPrefix([p]) == p.name + "/"
    ensures ps != [] ==>
      var init := DefaultPrefix(ps);
      init != "" && DefaultPrefix(ps + [p]) == init[..|init| - 1] + "_" + p.name + "/"
  {
    TerminatedAppend([], p.name, '_');
    assert Names([p]) == [] + [p.name];
    assert Terminated([p.name], '_') == p.name + "_";
    if ps != [] {
      TerminatedAppend(Names(ps), p.name, '_');
      assert Names(ps + [p]) == Names(ps) + [p.name];
      var joined := Terminated(Names(ps), '_');
      TerminatedAppend(Names(ps)[..|ps| - 1], Names(ps)[|ps| - 1], '_');
      assert Names(ps) == Names(ps)[..|ps| - 1] + [Names(ps)[|ps| - 1]];
      assert joined[|joined| - 1] == '_' && joined == joined[..|joined| - 1] + "_";
    }
  }

  function MakeGroup(ps: seq<Property>, fileType: FileType, prefix: string): PropertyGroup {
    PropertyGroup(ps, fileType, if prefix == "" && ps != [] then DefaultPrefix(ps) else prefix)
  }

  method NewPropertyGroup(ps: seq<Property>, fileType: FileType, prefix: string) returns (g: PropertyGroup)
    ensures g == MakeGroup(ps, fileType, prefix)
    ensures g.properties == ps && g.fileType == fileType
    ensures g.prefix == if prefix == "" && ps != [] then DefaultPrefix(ps) else prefix
  {
    var built := prefix;
    if prefix == "" && ps != [] {
      for i := 0 to |ps|
        invariant built == Terminated(Names(ps)[..i], '_')
      {
        TerminatedAppend(Names(ps)[..i], ps[i].name, '_');
        assert Names(ps)[..i + 1] == Names(ps)[..i] + [ps[i].name];
        built := built + ps[i].name + "_";
      }
      assert Names(ps)[..|ps|] == Names(ps);
      built := built[|built| - 1 := '/'];
    }
    g := PropertyGroup(ps, fileType, built);
  }

  /** Default prefixes tell groups apart when no property name holds the separator. */
  lemma DefaultPrefixInjective(a: seq<Property>, b: seq<Property>)
    requires a != [] && b != [] && FreeOf(Names(a), '_') && FreeOf(Names(b), '_')
    requires DefaultPrefix(a) == DefaultPrefix(b)
    ensures Names(a) == Names(b)
  {
    var s, t := Terminated(Names(a), '_'), Terminated(Names(b), '_');
    TerminatedAppend(Names(a)[..|a| - 1], Names(a)[|a| - 1], '_');
    TerminatedAppend(Names(b)[..|b| - 1], Names(b)[|b| - 1], '_');
    assert Names(a) == Names(a)[..|a| - 1] + [Names(a)[|a| - 1]];
    assert Names(b) == Names(b)[..|b| - 1] + [Names(b)[|b| - 1]];
    assert s == DefaultPrefix(a)[..|s| - 1] + "_";
    assert t == DefaultPrefix(b)[..|t| - 1] + "_";
    TerminatedInjective(Names(a), Names(b), '_');
  }

  method IsValidated(g: PropertyGroup) returns (ok: bool)
    ensures ok <==> g.Validated()
  {
    if g.prefix == "" || !DataFile(g.fileType) || g.properties == [] {
      return false;
    }
    var seen: set<string> := {};
    for i := 0 to |g.properties|
      invariant forall k :: 0 <= k < i ==> ValidProperty(g.properties[k], g.fileType)
      invariant forall j, k :: 0 <= j < k < i ==> g.properties[j].name != g.properties[k].name
      invariant forall k :: 0 <= k < i ==> g.properties[k].name in seen
      invariant forall name :: name in seen ==> exists k :: 0 <= k < i && g.properties[k].name == name
    {
      var p := g.properties[i];
      if p.name == "" || p.dataType.None? {
        return false;
      }
      if p.name in seen {
        return false;
      }
      seen := seen + {p.name};
      if p.dataType.value.List? && g.fileType == Csv {
        return false;
      }
    }
    ok := true;
  }

  datatype AdjacentList = AdjacentList(adjType: AdjListType, fileType: FileType, prefix: string) {
    predicate Validated() {
      prefix != "" && DataFile(fileType)
    }
  }

  function NewAdjacentList(adjType: AdjListType, fileType: FileType, prefix: string): AdjacentList {
    AdjacentList(adjType, fileType, if prefix == "" then AdjListTypeToString(adjType) + "/" else prefix)
  }

  // ----- the properties of a list of groups, in order, with their group's position -----

  datatype Entry = Entry(group: nat, property: Property)

  function Tag(i: nat, ps: seq<Property>): (list: seq<Entry>)
    ensures |list| == |ps| && forall k :: 0 <= k < |ps| ==> list[k] == Entry(i, ps[k])
  {
    seq(|ps|, k requires 0 <= k < |ps| => Entry(i, ps[k]))
  }

  function Listed(groups: seq<Option<PropertyGroup>>): seq<Entry> {
    if groups == [] then []
    else
      var last := groups[|groups| - 1];
      Listed(groups[..|groups| - 1]) + if last.None? then [] else Tag(|groups| - 1, last.value.properties)
  }

  /** The linear scan: the first property of that name. */
  function FirstOf(list: seq<Entry>, name: string): Option<Entry> {
    if list == [] then None
    else if list[0].property.name == name then Some(list[0])
    else FirstOf(list[1..], name)
  }

  ghost predicate Distinct(list: seq<Entry>) {
    forall i, j :: 0 <= i < j < |list| ==> list[i].property.name != list[j].property.name
  }

  ghost predicate Named(list: seq<Entry>, name: string) {
    exists i :: 0 <= i < |list| && list[i].property.name == name
  }

  lemma {:induction false} ListedHolds(groups: seq<Option<PropertyGroup>>, i: nat, p: Property)
    ensures Entry(i, p) in Listed(groups) <==> i < |groups| && groups[i].Some? && p in groups[i].value.properties
  {
    if groups != [] {
      ListedHolds(groups[..|groups| - 1], i, p);
      var last := groups[|groups| - 1];
      if last.Some? && i == |groups| - 1 {
        var tagged := Tag(i, last.value.properties);
        assert p in last.value.properties ==> Entry(i, p) in tagged by {
          if p in last.value.properties {
            var k :| 0 <= k < |last.value.properties| && last.value.properties[k] == p;
            assert tagged[k] == Entry(i, p);
          }
        }
      }
    }
  }

  lemma {:induction false} FirstOfIs(list: seq<Entry>, name: string)
    ensures FirstOf(list, name).Some? <==> Named(list, name)
    ensures FirstOf(list, name).Some? ==>
      FirstOf(list, name).value in list && FirstOf(list, name).value.property.name == name
  {
    if list != [] && list[0].property.name != name {
      FirstOfIs(list[1..], name);
      if Named(list, name) {
        var i :| 0 <= i < |list| && list[i].property.name == name;
        assert list[1..][i - 1] == list[i];
      }
    }
  }

  lemma {:induction false} FirstOfAppend(list: seq<Entry>, e: Entry, name: string)
    ensures FirstOf(list + [e], name) ==
            if FirstOf(list, name).Some? then FirstOf(list, name)
            else if e.property.name == name then Some(e) else None
  {
    if list == [] {
      assert ([e])[1..] == [];
    } else {
      assert (list + [e])[1..] == list[1..] + [e];
      FirstOfAppend(list[1..], e, name);
    }
  }

  /** With distinct names the scan finds the one property of that name. */
  lemma FirstOfDistinct(list: seq<Entry>, e: Entry)
    requires Distinct(list) && e in list
    ensures FirstOf(list, e.property.name) == Some(e)
  {
    var i :| 0 <= i < |list| && list[i] == e;
    FirstOfIs(list, e.property.name);
    assert Named(list, e.property.name);
    var found := FirstOf(list, e.property.name).value;
    var j :| 0 <= j < |list| && list[j] == found;
    assert i == j;
  }

  // ----- the four maps a constructor fills with emplace, so that the first entry wins -----

  datatype PropertyIndex = PropertyIndex(
    group: map<string, nat>,
    primary: map<string, bool>,
    nullable: map<string, bool>,
    dataType: map<string, Option<DataType>>)
  {
    predicate HasProperty(name: string) {
      name in group
    }

    predicate IsPrimaryKey(name: string) {
      name in primary && primary[name]
    }

    predicate IsNullableKey(name: string) {
      name in nullable && nullable[name]
    }

    function GetPropertyType(name: string): Result<Option<DataType>> {
      if name in dataType then Success(dataType[name]) else Failure(Invalid)
    }
  }

  function GetPropertyGroup(groups: seq<Option<PropertyGroup>>, ix: PropertyIndex, name: string): Option<PropertyGroup>
    requires ix == IndexOf(Listed(groups))
  {
    if ix.HasProperty(name) then
      IndexInRange(groups, name);
      groups[ix.group[name]]
    else None
  }

  function Emplace<K, V>(m: map<K, V>, k: K, v: V): map<K, V> {
    if k in m then m else m[k := v]
  }

  function EmplaceEntry(ix: PropertyIndex, e: Entry): PropertyIndex {
    var Entry(i, p) := e;
    PropertyIndex(Emplace(ix.group, p.name, i), Emplace(ix.primary, p.name, p.isPrimary),
                  Emplace(ix.nullable, p.name, p.isNullable), Emplace(ix.dataType, p.name, p.dataType))
  }

  function IndexOf(list: seq<Entry>): PropertyIndex {
    if list == [] then PropertyIndex(map[], map[], map[], map[])
    else EmplaceEntry(IndexOf(list[..|list| - 1]), list[|list| - 1])
  }

  lemma IndexAppend(list: seq<Entry>, e: Entry)
    ensures IndexOf(list + [e]) == EmplaceEntry(IndexOf(list), e)
  {
    var all := list + [e];
    assert all[..|all| - 1] == list;
  }

  ghost predicate Answers(ix: PropertyIndex, name: string, found: Option<Entry>) {
    match found
    case None => name !in ix.group && name !in ix.primary && name !in ix.nullable && name !in ix.dataType
    case Some(e) =>
      && name in ix.group && ix.group[name] == e.group
      && name in ix.primary && ix.primary[name] == e.property.isPrimary
      && name in ix.nullable && ix.nullable[name] == e.property.isNullable
      && name in ix.dataType && ix.dataType[name] == e.property.dataType
  }

  /** The maps answer every name as the linear scan does. */
  lemma {:induction false} IndexIsScan(list: seq<Entry>, name: string)
    ensures Answers(IndexOf(list), name, FirstOf(list, name))
  {
    if list != [] {
      var init := list[..|list| - 1];
      IndexIsScan(init, name);
      FirstOfAppend(init, list[|list| - 1], name);
      assert list == init + [list[|list| - 1]];
    }
  }

  lemma IndexInRange(groups: seq<Option<PropertyGroup>>, name: string)
    ensures var ix := IndexOf(Listed(groups)); name in ix.group ==> ix.group[name] < |groups|
  {
    var list := Listed(groups);
    IndexIsScan(list, name);
    FirstOfIs(list, name);
    if FirstOf(list, name).Some? {
      var e := FirstOf(list, name).value;
      ListedHolds(groups, e.group, e.property);
    }
  }

  /** On valid groups every lookup by a property's name answers with that property and its group. */
  lemma LookupFinds(groups: seq<Option<PropertyGroup>>, i: nat, k: nat)
    requires ValidGroups(groups) && i < |groups| && k < |groups[i].value.properties|
    ensures var ix, p := IndexOf(Listed(groups)), groups[i].value.properties[k];
            && GetPropertyGroup(groups, ix, p.name) == groups[i]
            && ix.HasProperty(p.name)
            && ix.IsPrimaryKey(p.name) == p.isPrimary
            && ix.IsNullableKey(p.name) == p.isNullable
            && ix.GetPropertyType(p.name) == Success(p.dataType)
  {
    var p := groups[i].value.properties[k];
    ListedHolds(groups, i, p);
    FirstOfDistinct(Listed(groups), Entry(i, p));
    IndexIsScan(Listed(groups), p.name);
  }

  /** A name that no group has is answered as absent, valid groups or not. */
  lemma LookupMisses(groups: seq<Option<PropertyGroup>>, name: string)
    requires forall i, p :: 0 <= i < |groups| && groups[i].Some? && p in groups[i].value.properties ==> p.name != name
    ensures var ix := IndexOf(Listed(groups));
            && GetPropertyGroup(groups, ix, name) == None
            && !ix.HasProperty(name) && !ix.IsPrimaryKey(name) && !ix.IsNullableKey(name)
            && ix.GetPropertyType(name) == Failure(Invalid)
  {
    var list := Listed(groups);
    FirstOfIs(list, name);
    IndexIsScan(list, name);
    if FirstOf(list, name).Some? {
      var e := FirstOf(list, name).value;
      ListedHolds(groups, e.group, e.property);
      assert false;
    }
  }

  lemma HasPropertyIsNamed(groups: seq<Option<PropertyGroup>>, name: string)
    ensures IndexOf(Listed(groups)).HasProperty(name) <==> Named(Listed(groups), name)
  {
    IndexIsScan(Listed(groups), name);
    FirstOfIs(Listed(groups), name);
  }

  method IndexGroup(start: PropertyIndex, i: nat, ps: seq<Property>, ghost list: seq<Entry>) returns (ix: PropertyIndex)
    requires start == IndexOf(list)
    ensures ix == IndexOf(list + Tag(i, ps))
  {
    hide EmplaceEntry, IndexOf;
    ix := start;
    assert list + Tag(i, ps)[..0] == list;
    for k := 0 to |ps|
      invariant ix == IndexOf(list + Tag(i, ps)[..k])
    {
      IndexAppend(list + Tag(i, ps)[..k], Entry(i, ps[k]));
      assert list + Tag(i, ps)[..k + 1] == list + Tag(i, ps)[..k] + [Entry(i, ps[k])];
      ix := EmplaceEntry(ix, Entry(i, ps[k]));
    }
    assert Tag(i, ps)[..|ps|] == Tag(i, ps);
  }

  method IndexProperties(groups: seq<Option<PropertyGroup>>) returns (ix: PropertyIndex)
    ensures ix == IndexOf(Listed(groups))
  {
    ix := PropertyIndex(map[], map[], map[], map[]);
    for i := 0 to |groups|
      invariant ix == IndexOf(Listed(groups[..i]))
    {
      ListedStep(groups, i);
      if groups[i].None? {
        continue;
      }
      ix := IndexGroup(ix, i, groups[i].value.properties, Listed(groups[..i]));
    }
    assert groups[..|groups|] == groups;
  }

  lemma ListedStep(groups: seq<Option<PropertyGroup>>, i: nat)
    requires i < |groups|
    ensures Listed(groups[..i + 1]) ==
            if groups[i].None? then Listed(groups[..i])
            else Listed(groups[..i]) + Tag(i, groups[i].value.properties)
  {
    var taken := groups[..i + 1];
    assert taken[..|taken| - 1] == groups[..i];
    assert taken[|taken| - 1] == groups[i];
  }

  // ----- validity of all groups together -----

  ghost predicate ValidGroups(groups: seq<Option<PropertyGroup>>) {
    && (forall i :: 0 <= i < |groups| ==> groups[i].Some? && groups[i].value.Validated())
    && Distinct(Listed(groups))
  }

  lemma ListedAppend(groups: seq<Option<PropertyGroup>>, g: PropertyGroup)
    ensures Listed(groups + [Some(g)]) == Listed(groups) + Tag(|groups|, g.properties)
  {
    var all := groups + [Some(g)];
    ListedStep(all, |groups|);
    assert all[..|groups|] == groups;
    assert all[..|all|] == all;
  }

  lemma {:induction false} ListedPrefix(groups: seq<Option<PropertyGroup>>, i: nat)
    requires i <= |groups|
    ensures Listed(groups[..i]) <= Listed(groups)
  {
    if i < |groups| {
      ListedPrefix(groups[..|groups| - 1], i);
      assert groups[..|groups| - 1][..i] == groups[..i];
    } else {
      assert groups[..i] == groups;
    }
  }

  lemma DistinctAppend(list: seq<Entry>, more: seq<Entry>)
    ensures Distinct(list + more) <==>
            Distinct(list) && Distinct(more) && forall k :: 0 <= k < |more| ==> !Named(list, more[k].property.name)
  {
    var all := list + more;
    if Distinct(all) {
      assert Distinct(list) by {
        assert forall i :: 0 <= i < |list| ==> all[i] == list[i];
      }
      assert Distinct(more) by {
        assert forall i :: 0 <= i < |more| ==> all[|list| + i] == more[i];
      }
      forall k | 0 <= k < |more| ensures !Named(list, more[k].property.name) {
        assert all[|list| + k] == more[k];
        assert forall i :: 0 <= i < |list| ==> all[i] == list[i];
      }
    } else {
      var i, j :| 0 <= i < j < |all| && all[i].property.name == all[j].property.name;
      assert i < |list| <= j ==> Named(list, more[j - |list|].property.name);
    }
  }

  /** Appending a group keeps the groups valid exactly when it is valid and brings only new names. */
  lemma AppendValid(groups: seq<Option<PropertyGroup>>, g: PropertyGroup)
    requires ValidGroups(groups)
    ensures ValidGroups(groups + [Some(g)]) <==>
            g.Validated() && forall k :: 0 <= k < |g.properties| ==> !Named(Listed(groups), g.properties[k].name)
  {
    var all, more := groups + [Some(g)], Tag(|groups|, g.properties);
    ListedAppend(groups, g);
    DistinctAppend(Listed(groups), more);
    assert all[|groups|] == Some(g);
    assert forall k :: 0 <= k < |g.properties| ==> more[k].property == g.properties[k];
  }

  method CollectNames(seen: set<string>, ghost i: nat, ps: seq<Property>, ghost list: seq<Entry>)
    returns (unused: bool, all: set<string>)
    requires forall name :: name in seen <==> Named(list, name)
    ensures unused ==> forall k :: 0 <= k < |ps| ==> !Named(list, ps[k].name)
    ensures unused ==> forall name :: name in all <==> Named(list + Tag(i, ps), name)
    ensures !unused ==> !Distinct(list + Tag(i, ps))
  {
    all := seen;
    assert list + Tag(i, ps)[..0] == list;
    for k := 0 to |ps|
      invariant forall name :: name in all <==> Named(list + Tag(i, ps)[..k], name)
      invariant forall name :: Named(list, name) ==> name in all
      invariant forall j :: 0 <= j < k ==> !Named(list, ps[j].name)
    {
      if ps[k].name in all {
        SeenIsRepeated(list, i, ps, k);
        return false, all;
      }
      all := all + {ps[k].name};
      NamedAppend(list + Tag(i, ps)[..k], Entry(i, ps[k]));
      assert list + Tag(i, ps)[..k + 1] == list + Tag(i, ps)[..k] + [Entry(i, ps[k])];
    }
    unused := true;
    assert Tag(i, ps)[..|ps|] == Tag(i, ps);
  }

  method AreValidated(groups: seq<Option<PropertyGroup>>) returns (ok: bool)
    ensures ok <==> ValidGroups(groups)
  {
    hide PropertyGroup.Validated, Distinct, Named, Listed;
    var seen: set<string> := {};
    NoGroups();
    assert groups[..0] == [];
    for i := 0 to |groups|
      invariant ValidGroups(groups[..i])
      invariant forall name :: name in seen <==> Named(Listed(groups[..i]), name)
    {
      if groups[i].None? {
        return false;
      }
      var g := groups[i].value;
      var valid := IsValidated(g);
      if !valid {
        return false;
      }
      ListedStep(groups, i);
      AppendValid(groups[..i], g);
      assert groups[..i + 1] == groups[..i] + [Some(g)];
      var unused;
      unused, seen := CollectNames(seen, i, g.properties, Listed(groups[..i]));
      if !unused {
        RepeatedInPrefix(groups, i + 1);
        return false;
      }
    }
    assert groups[..|groups|] == groups;
    ok := true;
  }

  lemma RepeatedInPrefix(groups: seq<Option<PropertyGroup>>, i: nat)
    requires i <= |groups| && !Distinct(Listed(groups[..i]))
    ensures !ValidGroups(groups)
  {
    ListedPrefix(groups, i);
  }

  lemma NoGroups()
    ensures ValidGroups([]) && forall name :: !Named(Listed([]), name)
  {
  }

  lemma NamedAppend(list: seq<Entry>, e: Entry)
    ensures forall name :: Named(list + [e], name) <==> Named(list, name) || e.property.name == name
  {
    forall name ensures Named(list + [e], name) <==> Named(list, name) || e.property.name == name {
      assert (list + [e])[|list|] == e;
      if Named(list, name) {
        var i :| 0 <= i < |list| && list[i].property.name == name;
        assert (list + [e])[i] == list[i];
      }
    }
  }

  lemma SeenIsRepeated(list: seq<Entry>, i: nat, ps: seq<Property>, k: nat)
    requires k < |ps| && Named(list + Tag(i, ps)[..k], ps[k].name)
    ensures !Distinct(list + Tag(i, ps))
  {
    var all := list + Tag(i, ps);
    var a :| 0 <= a < |list| + k && (list + Tag(i, ps)[..k])[a].property.name == ps[k].name;
    assert all[a].property.name == all[|list| + k].property.name;
  }
}
