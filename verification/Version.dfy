/** The format version of a metadata file (cpp/src/graphar/version_parser.h, .cc). */
module Versions {
  import opened Joining
  import opened Results
  import opened Types

  datatype Version = Version(number: int, userTypes: seq<string>)

  /** Every name followed by a comma, the last comma turned into a closing parenthesis. */
  function ToText(v: Version): string {
    var listed := Terminated(v.userTypes, ',');
    "gar/v" + ToString(v.number) +
    if listed == "" then "" else " (" + listed[..|listed| - 1] + ")"
  }

  predicate IsBlank(c: char) {
    c == ' ' || c == '\t' || c == '\r' || c == '\n'
  }

  function TrimLeft(s: string): string {
    if s != [] && IsBlank(s[0]) then TrimLeft(s[1..]) else s
  }

  function TrimRight(s: string): string {
    if s != [] && IsBlank(s[|s| - 1]) then TrimRight(s[..|s| - 1]) else s
  }

  function Trim(s: string): string {
    TrimRight(TrimLeft(s))
  }

  function FindLast(s: string, c: char): (i: int)
    ensures -1 <= i < |s| && (i >= 0 ==> s[i] == c)
    ensures forall k :: i < k < |s| ==> s[k] != c
  {
    if s == [] then -1 else if s[|s| - 1] == c then |s| - 1 else FindLast(s[..|s| - 1], c)
  }

  /** The comma-separated pieces, trimmed, the empty ones dropped. */
  function Pieces(s: string): seq<string> {
    var comma := Find(s, ',');
    var piece := Trim(s[..comma]);
    (if piece == "" then [] else [piece]) + if comma == |s| then [] else Pieces(s[comma + 1..])
  }

  function SkipBlanks(s: string): string {
    if s != [] && s[0] == ' ' then SkipBlanks(s[1..]) else s
  }

  /** What follows the version digits: " *\((.*)\).*" or no user-defined types. */
  function ParseUserTypes(tail: string): seq<string> {
    var t := SkipBlanks(tail);
    if t == [] || t[0] != '(' then []
    else
      var close := FindLast(t, ')');
      if close < 0 then [] else Pieces(t[1..close])
  }

  predicate OneLine(s: string) {
    '\n' !in s && '\r' !in s
  }

  /** Only version 1 is known. */
  function Parse(s: string): Result<Version> {
    if |s| < 5 || s[..5] != "gar/v" then Failure(Invalid)
    else
      var digits := DigitCount(s[5..]);
      var tail := s[5 + digits..];
      if digits == 0 || !OneLine(tail) || Number(s[5..][..digits]) != 1 then Failure(Invalid)
      else Success(Version(1, ParseUserTypes(tail)))
  }

  /** A type name that survives being listed: what Parse can produce. */
  predicate Listable(name: string) {
    name != "" && ',' !in name && OneLine(name) && !IsBlank(name[0]) && !IsBlank(name[|name| - 1])
  }

  ghost predicate AllListable(names: seq<string>) {
    forall i :: 0 <= i < |names| ==> Listable(names[i])
  }

  ghost predicate Representable(v: Version) {
    v.number == 1 && AllListable(v.userTypes)
  }

  // ----- every parsed version is representable -----

  lemma {:induction false} TrimIsInner(s: string)
    ensures Trim(s) == "" || (!IsBlank(Trim(s)[0]) && !IsBlank(Trim(s)[|Trim(s)| - 1]))
    ensures forall c :: c in Trim(s) ==> c in s
  {
    TrimLeftInner(s);
    TrimRightInner(TrimLeft(s));
  }

  lemma {:induction false} TrimLeftInner(s: string)
    ensures TrimLeft(s) == "" || !IsBlank(TrimLeft(s)[0])
    ensures forall c :: c in TrimLeft(s) ==> c in s
  {
    if s != [] && IsBlank(s[0]) {
      TrimLeftInner(s[1..]);
    }
  }

  lemma {:induction false} TrimRightInner(s: string)
    ensures TrimRight(s) <= s
    ensures TrimRight(s) == "" || !IsBlank(TrimRight(s)[|TrimRight(s)| - 1])
  {
    if s != [] && IsBlank(s[|s| - 1]) {
      TrimRightInner(s[..|s| - 1]);
    }
  }

  lemma PieceListable(s: string)
    requires OneLine(s) && ',' !in s
    ensures Trim(s) == "" || Listable(Trim(s))
  {
    TrimIsInner(s);
  }

  lemma {:induction false} PiecesListable(s: string)
    requires OneLine(s)
    ensures AllListable(Pieces(s))
    decreases |s|
  {
    var comma := Find(s, ',');
    PieceListable(s[..comma]);
    if comma < |s| {
      var rest := s[comma + 1..];
      assert OneLine(rest) by {
        assert forall c :: c in rest ==> c in s;
      }
      PiecesListable(rest);
    }
  }

  lemma {:induction false} SkipBlanksInner(s: string)
    ensures |SkipBlanks(s)| <= |s| && SkipBlanks(s) == s[|s| - |SkipBlanks(s)|..]
  {
    if s != [] && s[0] == ' ' {
      SkipBlanksInner(s[1..]);
    }
  }

  lemma ParsedIsRepresentable(s: string)
    ensures Parse(s).Success? ==> Representable(Parse(s).value)
  {
    if Parse(s).Success? {
      var tail := s[5 + DigitCount(s[5..])..];
      SkipBlanksInner(tail);
      var t := SkipBlanks(tail);
      if t != [] && t[0] == '(' && FindLast(t, ')') >= 0 {
        PiecesListable(t[1..FindLast(t, ')')]);
      }
    }
  }

  // ----- every representable version reads back -----

  lemma TrimClean(s: string)
    requires Listable(s)
    ensures Trim(s) == s
  {
  }

  lemma FirstPiece(name: string, rest: string)
    requires Listable(name)
    ensures Pieces(name + "," + rest) == [name] + Pieces(rest)
  {
    var s := name + "," + rest;
    assert s[..|name|] == name;
    FindIs(s, ',', |name|);
    assert s[|name| + 1..] == rest;
    TrimClean(name);
  }

  lemma OnePiece(name: string)
    requires Listable(name)
    ensures Pieces(name) == [name]
  {
    assert Find(name, ',') == |name| && name[..|name|] == name;
    TrimClean(name);
  }

  lemma {:induction false} PiecesOfList(names: seq<string>)
    requires names != [] && AllListable(names)
    ensures Terminated(names, ',') != ""
    ensures var t := Terminated(names, ','); Pieces(t[..|t| - 1]) == names
  {
    hide Pieces, Listable;
    var t := Terminated(names, ',');
    if |names| == 1 {
      OnePiece(names[0]);
      assert Terminated(names[1..], ',') == "";
      assert t == names[0] + ",";
      assert t[..|t| - 1] == names[0];
      assert names == [names[0]];
    } else {
      PiecesOfList(names[1..]);
      var u := Terminated(names[1..], ',');
      FirstPiece(names[0], u[..|u| - 1]);
      assert t[..|t| - 1] == names[0] + "," + u[..|u| - 1];
      assert names == [names[0]] + names[1..];
    }
  }

  lemma {:induction false} ListIsOneLine(names: seq<string>)
    requires AllListable(names)
    ensures OneLine(Terminated(names, ','))
  {
    if names != [] {
      ListIsOneLine(names[1..]);
      assert OneLine(names[0]);
    }
  }

  lemma UserTypesReadBack(names: seq<string>)
    requires names != [] && AllListable(names)
    ensures var t := Terminated(names, ',');
            t != "" && ParseUserTypes(" (" + t[..|t| - 1] + ")") == names && OneLine(" (" + t[..|t| - 1] + ")")
  {
    hide Pieces, Terminated;
    PiecesOfList(names);
    ListIsOneLine(names);
    var t := Terminated(names, ',');
    BracketedTypes(t[..|t| - 1]);
    assert forall c :: c in t[..|t| - 1] ==> c in t;
  }

  lemma BracketedTypes(listed: string)
    ensures ParseUserTypes(" (" + listed + ")") == Pieces(listed)
  {
    var t := "(" + listed + ")";
    assert (" " + t)[1..] == t && " (" + listed + ")" == " " + t;
    assert SkipBlanks(" " + t) == t;
    assert FindLast(t, ')') == |t| - 1;
    assert t[1..|t| - 1] == listed;
  }

  lemma ParseOne(tail: string)
    requires OneLine(tail) && (tail == "" || !IsDigit(tail[0]))
    ensures Parse("gar/v" + "1" + tail) == Success(Version(1, ParseUserTypes(tail)))
  {
    hide ParseUserTypes;
    var s := "gar/v" + "1" + tail;
    assert s[..5] == "gar/v" && s[5..] == "1" + tail && s[6..] == tail;
    DigitCountIs(s[5..], 1);
    assert s[5..][..1] == "1";
    assert Number("1") == 1 by { assert "1"[..0] == ""; }
  }

  lemma NoUserTypes()
    ensures Terminated([], ',') == "" && ParseUserTypes("") == []
  {
  }

  /** Printing then parsing a version gives it back exactly when it is representable. */
  lemma VersionReadsBack(v: Version)
    ensures Parse(ToText(v)) == Success(v) <==> Representable(v)
  {
    hide Parse, ParseUserTypes, Terminated;
    ParsedIsRepresentable(ToText(v));
    if Representable(v) {
      var listed := Terminated(v.userTypes, ',');
      var tail := if listed == "" then "" else " (" + listed[..|listed| - 1] + ")";
      assert ToString(1) == "1";
      if v.userTypes == [] {
        NoUserTypes();
      } else {
        UserTypesReadBack(v.userTypes);
      }
      ParseOne(tail);
      assert ToText(v) == "gar/v" + "1" + tail;
    }
  }

  // ----- what is parsed, in terms of the text -----

  ghost predicate AllBlank(s: string) {
    forall i :: 0 <= i < |s| ==> s[i] in " \t\r\n"
  }

  lemma {:induction false} TrimLeftCuts(s: string) returns (l: string)
    ensures s == l + TrimLeft(s) && AllBlank(l)
  {
    l := "";
    if s != [] && IsBlank(s[0]) {
      l := TrimLeftCuts(s[1..]);
      assert s == [s[0]] + s[1..];
      l := [s[0]] + l;
    }
  }

  lemma {:induction false} TrimRightCuts(s: string) returns (r: string)
    ensures s == TrimRight(s) + r && AllBlank(r)
  {
    r := "";
    if s != [] && IsBlank(s[|s| - 1]) {
      r := TrimRightCuts(s[..|s| - 1]);
      assert s == s[..|s| - 1] + [s[|s| - 1]];
      r := r + [s[|s| - 1]];
    }
  }

  /** Trimming cuts blanks on both sides, and all of them. */
  lemma TrimCuts(s: string) returns (l: string, r: string)
    ensures s == l + Trim(s) + r && AllBlank(l) && AllBlank(r)
    ensures Trim(s) != "" ==> Trim(s)[0] !in " \t\r\n" && Trim(s)[|Trim(s)| - 1] !in " \t\r\n"
  {
    l := TrimLeftCuts(s);
    r := TrimRightCuts(TrimLeft(s));
    TrimIsInner(s);
  }

  /** A comma separates pieces; a text without one is one piece, dropped when it is blank. */
  lemma PiecesSplit(a: string, b: string)
    requires ',' !in a
    ensures Pieces(a) == if Trim(a) == "" then [] else [Trim(a)]
    ensures Pieces(a + "," + b) == Pieces(a) + Pieces(b)
  {
    hide Trim;
    assert Find(a, ',') == |a| && a[..|a|] == a;
    var s := a + "," + b;
    assert s[..|a|] == a;
    FindIs(s, ',', |a|);
    assert s[|a| + 1..] == b;
  }

  lemma {:induction false} SkipsBlanks(spaces: string, t: string)
    requires (forall i :: 0 <= i < |spaces| ==> spaces[i] == ' ') && (t != "" ==> t[0] != ' ')
    ensures SkipBlanks(spaces + t) == t
  {
    if spaces == "" {
      assert spaces + t == t;
    } else {
      assert (spaces + t)[1..] == spaces[1..] + t;
      SkipsBlanks(spaces[1..], t);
    }
  }

  /** The user types stand in parentheses behind spaces; the last closing parenthesis counts. */
  lemma UserTypesBetween(spaces: string, listed: string, rest: string)
    requires (forall i :: 0 <= i < |spaces| ==> spaces[i] == ' ') && ')' !in rest
    ensures ParseUserTypes(spaces + ("(" + listed + ")" + rest)) == Pieces(listed)
  {
    hide Pieces;
    var t := "(" + listed + ")" + rest;
    SkipsBlanks(spaces, t);
    var close := FindLast(t, ')');
    assert t[|listed| + 1] == ')';
    assert forall k :: |listed| + 1 < k < |t| ==> t[k] == rest[k - |listed| - 2];
    assert close == |listed| + 1;
    assert t[1..close] == listed;
  }

  /** Without an opening parenthesis there, or without a closing one, there are none. */
  lemma NoUserTypesIn(spaces: string, t: string)
    requires (forall i :: 0 <= i < |spaces| ==> spaces[i] == ' ') && (t != "" ==> t[0] != ' ')
    requires t == "" || t[0] != '(' || ')' !in t
    ensures ParseUserTypes(spaces + t) == []
  {
    SkipsBlanks(spaces, t);
  }

  /** The text of a version: the tag, digits, and a tail on the same line that starts with no digit. */
  ghost predicate VersionText(s: string, digits: string, tail: string) {
    && s == "gar/v" + digits + tail && digits != "" && AllDigits(digits)
    && (tail != "" ==> !IsDigit(tail[0])) && OneLine(tail)
  }

  lemma VersionTextParses(s: string, digits: string, tail: string)
    requires VersionText(s, digits, tail)
    ensures Parse(s) == if Number(digits) == 1 then Success(Version(1, ParseUserTypes(tail))) else Failure(Invalid)
  {
    hide ParseUserTypes, Number;
    assert s[..5] == "gar/v" && s[5..] == digits + tail;
    SplitDigits(digits, tail);
    assert s[5 + |digits|..] == tail;
  }

  /** A text parses exactly when it is that of version 1, in which case its tail gives the user types. */
  lemma ParseIff(s: string)
    ensures Parse(s).Success? <==> exists digits, tail :: VersionText(s, digits, tail) && Number(digits) == 1
    ensures Parse(s).Success? ==>
      exists digits, tail :: VersionText(s, digits, tail) && Parse(s).value == Version(1, ParseUserTypes(tail))
    ensures Parse(s).Failure? ==> Parse(s).error == Invalid
  {
    hide ParseUserTypes, Number;
    if Parse(s).Success? {
      var count := DigitCount(s[5..]);
      var digits, tail := s[5..][..count], s[5 + count..];
      assert s == s[..5] + digits + tail;
      assert VersionText(s, digits, tail);
    }
    if digits, tail :| VersionText(s, digits, tail) && Number(digits) == 1 {
      VersionTextParses(s, digits, tail);
    }
  }
}
