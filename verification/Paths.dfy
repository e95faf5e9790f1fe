/** The file paths a vertex or edge info hands out (cpp/src/graphar/graph_info.cc). */
module Paths {
  import opened GraphInfos
  import KeyIndex
  import opened PropertyGroups
  import opened Results
  import opened Types

  /** A path component with exactly one closing slash added when it has none. */
  function Slashed(p: string): (s: string)
    requires p != ""
    ensures s != "" && s[|s| - 1] == '/'
    ensures s == p || (s == p + "/" && p[|p| - 1] != '/')
  {
    if p[|p| - 1] == '/' then p else p + "/"
  }

  ghost predicate NonEmpty(paths: seq<string>) {
    forall i :: 0 <= i < |paths| ==> paths[i] != ""
  }

  ghost function Built(paths: seq<string>): string
    requires NonEmpty(paths)
  {
    if paths == [] then "" else Built(paths[..|paths| - 1]) + Slashed(paths[|paths| - 1])
  }

  method BuildPath(paths: seq<string>) returns (path: string)
    requires NonEmpty(paths)
    ensures path == Built(paths)
  {
    path := "";
    for i := 0 to |paths|
      invariant path == Built(paths[..i])
    {
      assert paths[..i + 1][..i] == paths[..i];
      if paths[i][|paths[i]| - 1] == '/' {
        path := path + paths[i];
      } else {
        path := path + (paths[i] + "/");
      }
    }
    assert paths[..|paths|] == paths;
  }

  // ----- the files of an edge info -----

  /** One data file of an edge info; list is the prefix of its adjacency list, group that of its property group. */
  datatype EdgeFile =
    | VertexCount(list: string)
    | EdgeCount(list: string, part: int)
    | AdjListChunk(list: string, part: int, chunk: int)
    | OffsetChunk(list: string, part: int)
    | PropertyChunk(list: string, group: string, part: int, chunk: int)
  {
    predicate Named() {
      list != "" && (PropertyChunk? ==> group != "")
    }

    /** Every directory below the info's prefix, and the name inside it. */
    function Dir(): string
      requires Named()
    {
      match this
      case VertexCount(_) => Slashed(list)
      case EdgeCount(_, _) => Slashed(list)
      case AdjListChunk(_, v, _) => Slashed(list) + "adj_list/" + "part" + ToString(v) + "/"
      case OffsetChunk(_, _) => Slashed(list) + "offset/"
      case PropertyChunk(_, g, v, _) => Slashed(list) + Slashed(g) + "part" + ToString(v) + "/"
    }

    function Name(): string {
      match this
      case VertexCount(_) => "vertex_count"
      case EdgeCount(_, v) => "edge_count" + ToString(v)
      case AdjListChunk(_, _, c) => "chunk" + ToString(c)
      case OffsetChunk(_, v) => "chunk" + ToString(v)
      case PropertyChunk(_, _, _, c) => "chunk" + ToString(c)
    }
  }

  function PathOf(prefix: string, f: EdgeFile): string
    requires prefix != "" && f.Named()
  {
    Slashed(prefix) + f.Dir() + f.Name()
  }

  /** The prefix of the adjacency list of type t, or the KeyError of the path getters. */
  function ListPrefix(e: EdgeInfo, t: AdjListType): Result<string>
    requires e.Built()
  {
    if e.GetAdjacentList(t).None? then Failure(KeyError) else Success(e.GetAdjacentList(t).value.prefix)
  }

  ghost predicate Prefixed(e: EdgeInfo) {
    && e.Built() && e.prefix != ""
    && forall i :: 0 <= i < |e.adjLists| && e.adjLists[i].Some? ==> e.adjLists[i].value.prefix != ""
  }

  lemma BuiltAppend(paths: seq<string>, p: string)
    requires NonEmpty(paths) && p != ""
    ensures NonEmpty(paths + [p]) && Built(paths + [p]) == Built(paths) + Slashed(p)
  {
    assert (paths + [p])[..|paths|] == paths;
  }

  lemma BuiltTwo(a: string, b: string)
    requires a != "" && b != ""
    ensures Built([a, b]) == Slashed(a) + Slashed(b)
  {
    BuiltAppend([], a);
    BuiltAppend([a], b);
    assert [] + [a] == [a] && [a] + [b] == [a, b];
    assert "" + Slashed(a) == Slashed(a);
  }

  lemma BuiltThree(a: string, b: string, c: string)
    requires a != "" && b != "" && c != ""
    ensures Built([a, b, c]) == Slashed(a) + Slashed(b) + Slashed(c)
  {
    BuiltTwo(a, b);
    BuiltAppend([a, b], c);
    assert [a, b] + [c] == [a, b, c];
  }

  lemma CountForms(prefix: string, list: string, part: int)
    requires prefix != "" && list != ""
    ensures Slashed(prefix) + Slashed(list) + "vertex_count" == PathOf(prefix, VertexCount(list))
    ensures Slashed(prefix) + Slashed(list) + "edge_count" + ToString(part) == PathOf(prefix, EdgeCount(list, part))
  {
    hide ToString, Slashed;
    assert Slashed(prefix) + Slashed(list) + "edge_count" + ToString(part)
        == Slashed(prefix) + Slashed(list) + ("edge_count" + ToString(part));
  }

  lemma OffsetForm(prefix: string, list: string, part: int)
    requires prefix != "" && list != ""
    ensures Slashed(prefix) + Slashed(list) + "offset/chunk" + ToString(part) == PathOf(prefix, OffsetChunk(list, part))
  {
    hide ToString, Slashed;
    assert "offset/chunk" == "offset/" + "chunk";
    Regroup(Slashed(prefix), Slashed(list), "offset/", "chunk", ToString(part));
  }

  lemma Regroup(p: string, l: string, x: string, y: string, c: string)
    ensures p + l + (x + y) + c == p + (l + x) + (y + c)
  {
  }

  lemma AdjListForm(prefix: string, list: string, part: int, chunk: int)
    requires prefix != "" && list != ""
    ensures Slashed(prefix) + Slashed(list) + "adj_list/part" + ToString(part) + "/chunk" + ToString(chunk)
            == PathOf(prefix, AdjListChunk(list, part, chunk))
  {
    hide ToString, Slashed;
    var p, l, v, c := Slashed(prefix), Slashed(list), ToString(part), ToString(chunk);
    assert "adj_list/part" == "adj_list/" + "part" && "/chunk" == "/" + "chunk";
    Regroup(p, l, "adj_list/", "part", v);
    Regroup(p, l + "adj_list/" + "part" + v, "/", "chunk", c);
    assert p + (l + "adj_list/") + ("part" + v) == p + (l + "adj_list/" + "part" + v);
  }

  lemma PropertyForm(prefix: string, list: string, group: string, part: int, chunk: int)
    requires prefix != "" && list != "" && group != ""
    ensures Slashed(prefix) + Slashed(list) + Slashed(group) + "part" + ToString(part) + "/chunk" + ToString(chunk)
            == PathOf(prefix, PropertyChunk(list, group, part, chunk))
  {
    hide ToString, Slashed;
    var p, l, g, v, c := Slashed(prefix), Slashed(list), Slashed(group), ToString(part), ToString(chunk);
    assert "/chunk" == "/" + "chunk";
    Regroup(p, l + g + "part" + v, "/", "chunk", c);
    assert p + l + g + "part" + v == p + (l + g + "part" + v);
  }

  /** What a path getter returns for the file that `of` makes from the list's prefix. */
  ghost predicate Returns(e: EdgeInfo, t: AdjListType, r: Result<string>, of: string -> EdgeFile)
    requires Prefixed(e)
  {
    match ListPrefix(e, t)
    case Failure(s) => r == Failure(s)
    case Success(list) => list != "" && of(list).Named() && r == Success(PathOf(e.prefix, of(list)))
  }

  lemma ListPrefixNonEmpty(e: EdgeInfo, t: AdjListType)
    requires Prefixed(e)
    ensures ListPrefix(e, t).Success? ==> ListPrefix(e, t).value != ""
  {
    if t in e.adjIndex {
      KeyIndex.LastIndexIs(AdjKeys(e.adjLists), t);
    }
  }

  method GetVerticesNumFilePath(e: EdgeInfo, t: AdjListType) returns (r: Result<string>)
    requires Prefixed(e)
    ensures Returns(e, t, r, list => VertexCount(list))
  {
    hide PathOf, Slashed, Built, ToString;
    var list := ListPrefix(e, t);
    ListPrefixNonEmpty(e, t);
    if list.Failure? { return Failure(list.error); }
    var path := BuildPath([e.prefix, list.value]);
    BuiltTwo(e.prefix, list.value);
    r := Success(path + "vertex_count");
    CountForms(e.prefix, list.value, 0);
  }

  method GetEdgesNumFilePath(e: EdgeInfo, part: int, t: AdjListType) returns (r: Result<string>)
    requires Prefixed(e)
    ensures Returns(e, t, r, list => EdgeCount(list, part))
  {
    hide PathOf, Slashed, Built, ToString;
    var list := ListPrefix(e, t);
    ListPrefixNonEmpty(e, t);
    if list.Failure? { return Failure(list.error); }
    var path := BuildPath([e.prefix, list.value]);
    BuiltTwo(e.prefix, list.value);
    r := Success(path + "edge_count" + ToString(part));
    CountForms(e.prefix, list.value, part);
  }

  method GetAdjListFilePath(e: EdgeInfo, part: int, chunk: int, t: AdjListType) returns (r: Result<string>)
    requires Prefixed(e)
    ensures Returns(e, t, r, list => AdjListChunk(list, part, chunk))
  {
    hide PathOf, Slashed, Built, ToString;
    var list := ListPrefix(e, t);
    ListPrefixNonEmpty(e, t);
    if list.Failure? { return Failure(list.error); }
    var path := BuildPath([e.prefix, list.value]);
    BuiltTwo(e.prefix, list.value);
    r := Success(path + "adj_list/part" + ToString(part) + "/chunk" + ToString(chunk));
    AdjListForm(e.prefix, list.value, part, chunk);
  }

  method GetAdjListOffsetFilePath(e: EdgeInfo, part: int, t: AdjListType) returns (r: Result<string>)
    requires Prefixed(e)
    ensures Returns(e, t, r, list => OffsetChunk(list, part))
  {
    hide PathOf, Slashed, Built, ToString;
    var list := ListPrefix(e, t);
    ListPrefixNonEmpty(e, t);
    if list.Failure? { return Failure(list.error); }
    var path := BuildPath([e.prefix, list.value]);
    BuiltTwo(e.prefix, list.value);
    r := Success(path + "offset/chunk" + ToString(part));
    OffsetForm(e.prefix, list.value, part);
  }

  method GetPropertyFilePath(e: EdgeInfo, group: Option<PropertyGroup>, t: AdjListType, part: int, chunk: int)
    returns (r: Result<string>)
    requires Prefixed(e) && (group.Some? ==> group.value.prefix != "")
    ensures group.None? ==> r == Failure(Invalid)
    ensures group.Some? ==> Returns(e, t, r, list => PropertyChunk(list, group.value.prefix, part, chunk))
  {
    hide PathOf, Slashed, Built, ToString;
    if group.None? { return Failure(Invalid); }
    var list := ListPrefix(e, t);
    ListPrefixNonEmpty(e, t);
    if list.Failure? { return Failure(list.error); }
    var path := BuildPath([e.prefix, list.value, group.value.prefix]);
    BuiltThree(e.prefix, list.value, group.value.prefix);
    r := Success(path + "part" + ToString(part) + "/chunk" + ToString(chunk));
    PropertyForm(e.prefix, list.value, group.value.prefix, part, chunk);
  }

  // ----- paths determine files -----

  ghost predicate IsDir(d: string) {
    d == "" || d[|d| - 1] == '/'
  }

  lemma LongerDir(d1: string, s1: string, d2: string, s2: string)
    requires d1 + s1 == d2 + s2 && |d1| > |d2|
    ensures d1[|d1| - 1] in s2
  {
    var k := |d1| - 1;
    assert (d1 + s1)[k] == d1[k];
    assert (d2 + s2)[k] == s2[k - |d2|];
  }

  /** A path splits in one way into a directory and a name without slash. */
  lemma LastSegment(d1: string, s1: string, d2: string, s2: string)
    requires IsDir(d1) && IsDir(d2) && '/' !in s1 && '/' !in s2
    requires d1 + s1 == d2 + s2
    ensures d1 == d2 && s1 == s2
  {
    if |d1| > |d2| {
      LongerDir(d1, s1, d2, s2);
      assert false;
    } else if |d2| > |d1| {
      LongerDir(d2, s2, d1, s1);
      assert false;
    } else {
      SplitEqual(d1, s1, d2, s2);
    }
  }

  lemma SplitEqual(a: string, x: string, b: string, y: string)
    requires a + x == b + y && |a| == |b|
    ensures a == b && x == y
  {
    assert (a + x)[..|a|] == a && (b + y)[..|b|] == b;
    assert (a + x)[|a|..] == x && (b + y)[|b|..] == y;
  }

  lemma SameHead(a: string, x: string, y: string)
    ensures a + x == a + y <==> x == y
  {
    if a + x == a + y {
      SplitEqual(a, x, a, y);
    }
  }

  lemma SameTail(x: string, y: string, b: string)
    ensures x + b == y + b <==> x == y
  {
    if x + b == y + b {
      SplitEqual(x, b, y, b);
    }
  }

  lemma NumberHasNoSlash(n: int)
    ensures '/' !in ToString(n)
  {
    DecimalReadsBack(if n < 0 then -n else n);
  }

  lemma ToStringInjective(a: int, b: int)
    requires ToString(a) == ToString(b)
    ensures a == b
  {
    var m, n := if a < 0 then -a else a, if b < 0 then -b else b;
    DecimalReadsBack(m);
    DecimalReadsBack(n);
    assert a < 0 <==> ToString(a)[0] == '-';
    if a < 0 {
      SameHead("-", Decimal(m), Decimal(n));
    }
  }

  lemma TaggedNumber(tag: string, a: int, b: int)
    requires tag + ToString(a) == tag + ToString(b)
    ensures a == b
  {
    SameHead(tag, ToString(a), ToString(b));
    ToStringInjective(a, b);
  }

  predicate InDirectory(f: EdgeFile) {
    f.AdjListChunk? || f.PropertyChunk?
  }

  /** The directory of part directories that a chunk lies in. */
  function Above(f: EdgeFile): (d: string)
    requires f.Named() && InDirectory(f)
    ensures IsDir(d)
  {
    Slashed(f.list) + if f.AdjListChunk? then "adj_list/" else Slashed(f.group)
  }

  /**
   * Two files of one info have one path exactly when they are of one kind, below one list
   * directory, with one part and chunk; for chunks the whole directory above the parts counts.
   */
  ghost predicate SamePlace(f: EdgeFile, g: EdgeFile)
    requires f.Named() && g.Named()
  {
    if InDirectory(f) && InDirectory(g) then
      Above(f) == Above(g) && f.part == g.part && f.chunk == g.chunk
    else
      && Slashed(f.list) == Slashed(g.list)
      && (if f.VertexCount? then g.VertexCount?
          else if f.EdgeCount? then g.EdgeCount? && f.part == g.part
          else f.OffsetChunk? && g.OffsetChunk? && f.part == g.part)
  }

  lemma DirAndName(f: EdgeFile)
    requires f.Named()
    ensures IsDir(f.Dir()) && '/' !in f.Name()
  {
    match f
    case VertexCount(_) =>
    case EdgeCount(_, v) => NumberHasNoSlash(v);
    case AdjListChunk(_, _, c) => NumberHasNoSlash(c);
    case OffsetChunk(_, v) => NumberHasNoSlash(v);
    case PropertyChunk(_, _, _, c) => NumberHasNoSlash(c);
  }

  lemma DirBelowDir(a: string, b: string)
    requires IsDir(a) && IsDir(b)
    ensures IsDir(a + b)
  {
  }

  lemma PathSplits(prefix: string, f: EdgeFile, g: EdgeFile)
    requires prefix != "" && f.Named() && g.Named()
    ensures PathOf(prefix, f) == PathOf(prefix, g) <==> f.Dir() == g.Dir() && f.Name() == g.Name()
  {
    DirAndName(f);
    DirAndName(g);
    var p := Slashed(prefix);
    hide EdgeFile.Dir, EdgeFile.Name, Slashed;
    if PathOf(prefix, f) == PathOf(prefix, g) {
      DirBelowDir(p, f.Dir());
      DirBelowDir(p, g.Dir());
      LastSegment(p + f.Dir(), f.Name(), p + g.Dir(), g.Name());
      SameHead(p, f.Dir(), g.Dir());
    }
  }

  /** Directories a/s/ and b/t/ with plain names s and t. */
  lemma SubDirs(a: string, s: string, b: string, t: string)
    requires IsDir(a) && IsDir(b) && '/' !in s && '/' !in t
    ensures a + s + "/" == b + t + "/" <==> a == b && s == t
  {
    SameTail(a + s, b + t, "/");
    if a + s == b + t {
      LastSegment(a, s, b, t);
    }
  }

  lemma PartName(v: int)
    ensures '/' !in "part" + ToString(v) && "part" + ToString(v) != "offset"
  {
    NumberHasNoSlash(v);
    assert ("part" + ToString(v))[0] == 'p' && "offset"[0] == 'o';
  }

  lemma DirForm(f: EdgeFile)
    requires f.Named()
    ensures InDirectory(f) ==> f.Dir() == Above(f) + ("part" + ToString(f.part)) + "/"
    ensures f.OffsetChunk? ==> f.Dir() == Slashed(f.list) + "offset" + "/"
  {
    hide ToString, Slashed;
    if f.OffsetChunk? {
      assert "offset" + "/" == "offset/";
      assert Slashed(f.list) + "offset/" == Slashed(f.list) + "offset" + "/";
    } else if InDirectory(f) {
      var s := ToString(f.part);
      assert f.Dir() == Above(f) + "part" + s + "/";
      assert Above(f) + "part" + s == Above(f) + ("part" + s);
    }
  }

  lemma PartDirs(f: EdgeFile, g: EdgeFile)
    requires f.Named() && g.Named() && InDirectory(f) && InDirectory(g)
    ensures f.Dir() == g.Dir() <==> Above(f) == Above(g) && f.part == g.part
  {
    hide ToString, EdgeFile.Dir;
    DirForm(f);
    DirForm(g);
    PartName(f.part);
    PartName(g.part);
    SubDirs(Above(f), "part" + ToString(f.part), Above(g), "part" + ToString(g.part));
    if "part" + ToString(f.part) == "part" + ToString(g.part) {
      TaggedNumber("part", f.part, g.part);
    }
  }

  lemma OffsetDirs(f: EdgeFile, g: EdgeFile)
    requires f.Named() && g.Named() && f.OffsetChunk?
    ensures g.OffsetChunk? ==> (f.Dir() == g.Dir() <==> Slashed(f.list) == Slashed(g.list))
    ensures InDirectory(g) ==> f.Dir() != g.Dir()
  {
    hide ToString, EdgeFile.Dir;
    DirForm(f);
    DirForm(g);
    if g.OffsetChunk? {
      SubDirs(Slashed(f.list), "offset", Slashed(g.list), "offset");
    } else if InDirectory(g) {
      PartName(g.part);
      SubDirs(Slashed(f.list), "offset", Above(g), "part" + ToString(g.part));
    }
  }

  lemma NameStart(f: EdgeFile)
    ensures f.Name() != ""
    ensures f.Name()[0] == if f.VertexCount? then 'v' else if f.EdgeCount? then 'e' else 'c'
  {
    hide ToString;
  }

  lemma SameName(f: EdgeFile, g: EdgeFile)
    ensures f.Name() == g.Name() ==> f.VertexCount? == g.VertexCount? && f.EdgeCount? == g.EdgeCount?
    ensures f.EdgeCount? && g.EdgeCount? ==> (f.Name() == g.Name() <==> f.part == g.part)
    ensures f.OffsetChunk? && g.OffsetChunk? ==> (f.Name() == g.Name() <==> f.part == g.part)
    ensures InDirectory(f) && InDirectory(g) ==> (f.Name() == g.Name() <==> f.chunk == g.chunk)
  {
    hide ToString;
    NameStart(f);
    NameStart(g);
    if f.Name() == g.Name() {
      if f.EdgeCount? && g.EdgeCount? {
        TaggedNumber("edge_count", f.part, g.part);
      } else if f.OffsetChunk? && g.OffsetChunk? {
        TaggedNumber("chunk", f.part, g.part);
      } else if InDirectory(f) && InDirectory(g) {
        TaggedNumber("chunk", f.chunk, g.chunk);
      }
    }
  }

  lemma PathsDetermineFiles(prefix: string, f: EdgeFile, g: EdgeFile)
    requires prefix != "" && f.Named() && g.Named()
    ensures PathOf(prefix, f) == PathOf(prefix, g) <==> SamePlace(f, g)
  {
    hide PathOf, Slashed, ToString;
    PathSplits(prefix, f, g);
    SameName(f, g);
    if InDirectory(f) && InDirectory(g) {
      PartDirs(f, g);
    } else if f.OffsetChunk? {
      OffsetDirs(f, g);
    } else if g.OffsetChunk? {
      OffsetDirs(g, f);
    }
  }

  // ----- when every file of an info has its own path -----

  /** Equal up to a closing slash of the prefixes. */
  ghost predicate SameFile(f: EdgeFile, g: EdgeFile)
    requires f.Named() && g.Named()
  {
    && Slashed(f.list) == Slashed(g.list)
    && (if f.VertexCount? then g.VertexCount?
        else if f.EdgeCount? then g.EdgeCount? && f.part == g.part
        else if f.OffsetChunk? then g.OffsetChunk? && f.part == g.part
        else if f.AdjListChunk? then g.AdjListChunk? && f.part == g.part && f.chunk == g.chunk
        else g.PropertyChunk? && Slashed(f.group) == Slashed(g.group) && f.part == g.part && f.chunk == g.chunk)
  }

  ghost predicate FileOf(f: EdgeFile, lists: set<string>, groups: set<string>) {
    f.list in lists && (f.PropertyChunk? ==> f.group in groups)
  }

  ghost predicate InjectivePaths(prefix: string, lists: set<string>, groups: set<string>)
    requires prefix != "" && "" !in lists && "" !in groups
  {
    forall f, g :: FileOf(f, lists, groups) && FileOf(g, lists, groups) && PathOf(prefix, f) == PathOf(prefix, g) ==>
      SameFile(f, g)
  }

  /** No two (list, group) directories meet, and none is a topology directory. */
  ghost predicate NoOverlap(lists: set<string>, groups: set<string>)
    requires "" !in lists && "" !in groups
  {
    && (forall a, b, h, k :: a in lists && b in lists && h in groups && k in groups ==> Apart(a, h, b, k))
    && (forall a, b, h :: a in lists && b in lists && h in groups ==> OffTopology(a, b, h))
  }

  ghost predicate Apart(a: string, h: string, b: string, k: string)
    requires a != "" && h != "" && b != "" && k != ""
  {
    Slashed(a) + Slashed(h) == Slashed(b) + Slashed(k) ==> Slashed(a) == Slashed(b)
  }

  ghost predicate OffTopology(a: string, b: string, h: string)
    requires a != "" && b != "" && h != ""
  {
    Slashed(a) + "adj_list/" != Slashed(b) + Slashed(h)
  }

  /** The path getters of an info are injective exactly when its prefixes do not overlap. */
  lemma PathsInjectiveIff(prefix: string, lists: set<string>, groups: set<string>)
    requires prefix != "" && "" !in lists && "" !in groups
    ensures InjectivePaths(prefix, lists, groups) <==> NoOverlap(lists, groups)
  {
    if NoOverlap(lists, groups) {
      NoOverlapSuffices(prefix, lists, groups);
    }
    if InjectivePaths(prefix, lists, groups) {
      forall a, b, h, k | a in lists && b in lists && h in groups && k in groups ensures Apart(a, h, b, k) {
        InjectiveKeepsApart(prefix, lists, groups, PropertyChunk(a, h, 0, 0), PropertyChunk(b, k, 0, 0));
      }
      forall a, b, h | a in lists && b in lists && h in groups ensures OffTopology(a, b, h) {
        InjectiveKeepsApart(prefix, lists, groups, AdjListChunk(a, 0, 0), PropertyChunk(b, h, 0, 0));
      }
    }
  }

  lemma NoOverlapSuffices(prefix: string, lists: set<string>, groups: set<string>)
    requires prefix != "" && "" !in lists && "" !in groups && NoOverlap(lists, groups)
    ensures InjectivePaths(prefix, lists, groups)
  {
    hide PathOf, SamePlace, SameFile, NoOverlap;
    forall f, g | FileOf(f, lists, groups) && FileOf(g, lists, groups) && PathOf(prefix, f) == PathOf(prefix, g)
      ensures SameFile(f, g)
    {
      PathsDetermineFiles(prefix, f, g);
      SamePlaceIsSameFile(f, g, lists, groups);
    }
  }

  lemma InjectiveKeepsApart(prefix: string, lists: set<string>, groups: set<string>, f: EdgeFile, g: EdgeFile)
    requires prefix != "" && "" !in lists && "" !in groups && InjectivePaths(prefix, lists, groups)
    requires FileOf(f, lists, groups) && FileOf(g, lists, groups)
    ensures SamePlace(f, g) ==> SameFile(f, g)
  {
    hide PathOf, SamePlace, SameFile;
    PathsDetermineFiles(prefix, f, g);
  }

  lemma SamePlaceIsSameFile(f: EdgeFile, g: EdgeFile, lists: set<string>, groups: set<string>)
    requires "" !in lists && "" !in groups && FileOf(f, lists, groups) && FileOf(g, lists, groups)
    requires NoOverlap(lists, groups) && SamePlace(f, g)
    ensures SameFile(f, g)
  {
    hide Slashed;
    if f.AdjListChunk? && g.AdjListChunk? {
      SameTail(Slashed(f.list), Slashed(g.list), "adj_list/");
    } else if f.AdjListChunk? && g.PropertyChunk? {
      assert false;
    } else if f.PropertyChunk? && g.AdjListChunk? {
      assert false;
    } else if f.PropertyChunk? && g.PropertyChunk? {
      assert Apart(f.list, f.group, g.list, g.group);
      SameHead(Slashed(f.list), Slashed(f.group), Slashed(g.group));
    }
  }

  lemma SlashedTopology(h: string)
    requires h != ""
    ensures Slashed(h) == "adj_list/" <==> h == "adj_list" || h == "adj_list/"
  {
    assert "adj_list" + "/" == "adj_list/";
    if h[|h| - 1] != '/' {
      SameTail(h, "adj_list", "/");
    }
  }

  /** Lists sharing one prefix never overlap unless a group's prefix is the topology directory's name. */
  lemma SharedListPrefix(list: string, groups: set<string>)
    requires list != "" && "" !in groups
    ensures NoOverlap({list}, groups) <==> "adj_list" !in groups && "adj_list/" !in groups
  {
    forall h | h in groups ensures OffTopology(list, list, h) <==> h != "adj_list" && h != "adj_list/" {
      SlashedTopology(h);
      SameHead(Slashed(list), "adj_list/", Slashed(h));
    }
    hide Slashed, OffTopology;
  }

  ghost function ListPrefixes(e: EdgeInfo): set<string> {
    set i | 0 <= i < |e.adjLists| && e.adjLists[i].Some? :: e.adjLists[i].value.prefix
  }

  ghost function GroupPrefixes(e: EdgeInfo): set<string> {
    set i | 0 <= i < |e.groups| && e.groups[i].Some? :: e.groups[i].value.prefix
  }

  lemma InfoPathsInjectiveIff(e: EdgeInfo)
    requires e.Built() && e.Validated()
    ensures Prefixed(e) && "" !in ListPrefixes(e) && "" !in GroupPrefixes(e)
    ensures InjectivePaths(e.prefix, ListPrefixes(e), GroupPrefixes(e)) <==>
      NoOverlap(ListPrefixes(e), GroupPrefixes(e))
  {
    hide InjectivePaths, NoOverlap;
    PathsInjectiveIff(e.prefix, ListPrefixes(e), GroupPrefixes(e));
  }

  // ----- vertex info -----

  method GetVertexFilePath(v: VertexInfo, group: Option<PropertyGroup>, chunk: int) returns (r: Result<string>)
    requires v.prefix != "" && (group.Some? ==> group.value.prefix != "")
    ensures group.None? ==> r == Failure(Invalid)
    ensures group.Some? ==> r == Success(VertexPath(v.prefix, group.value.prefix, chunk))
    ensures group.Some? ==>
      r == Success(Slashed(v.prefix) + Slashed(group.value.prefix) + "chunk" + ToString(chunk))
  {
    if group.None? { return Failure(Invalid); }
    var path := BuildPath([v.prefix, group.value.prefix]);
    BuiltTwo(v.prefix, group.value.prefix);
    r := Success(path + "chunk" + ToString(chunk));
    assert r.value == VertexPath(v.prefix, group.value.prefix, chunk);
  }

  ghost function VertexPath(prefix: string, group: string, chunk: int): string
    requires prefix != "" && group != ""
  {
    Slashed(prefix) + Slashed(group) + ("chunk" + ToString(chunk))
  }

  lemma VertexPathsDetermineFiles(prefix: string, g: string, c: int, h: string, d: int)
    requires prefix != "" && g != "" && h != ""
    ensures VertexPath(prefix, g, c) == VertexPath(prefix, h, d) <==> Slashed(g) == Slashed(h) && c == d
    ensures VertexPath(prefix, g, c) != Slashed(prefix) + "vertex_count"
  {
    hide ToString;
    NumberHasNoSlash(c);
    NumberHasNoSlash(d);
    var p := Slashed(prefix);
    DirBelowDir(p, Slashed(g));
    DirBelowDir(p, Slashed(h));
    var x, y := "chunk" + ToString(c), "chunk" + ToString(d);
    assert x[0] == 'c' && "vertex_count"[0] == 'v';
    if VertexPath(prefix, g, c) == VertexPath(prefix, h, d) {
      LastSegment(p + Slashed(g), x, p + Slashed(h), y);
      TaggedNumber("chunk", c, d);
      SameHead(p, Slashed(g), Slashed(h));
    }
    if VertexPath(prefix, g, c) == p + "vertex_count" {
      LastSegment(p + Slashed(g), x, p, "vertex_count");
    }
  }
}
