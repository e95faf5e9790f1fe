/**
 * The bracket matcher of the vendored linter (cpp/misc/cpplint.py) on text without angle
 * brackets. A Python result of None is None here.
 */
module Brackets {
  import opened Results

  predicate IsOpen(c: char) {
    c == '(' || c == '[' || c == '{'
  }

  predicate IsClose(c: char) {
    c == ')' || c == ']' || c == '}'
  }

  /** The partner of a bracket; any other character is its own. */
  function Flip(c: char): char {
    if c == '(' then ')' else if c == '[' then ']' else if c == '{' then '}'
    else if c == ')' then '(' else if c == ']' then '[' else if c == '}' then '{'
    else c
  }

  predicate NoAngles(s: string) {
    '<' !in s && '>' !in s
  }

  // ----- the grammar of matched text -----

  datatype Item = Plain(c: char) | Nest(open: char, inner: seq<Item>)

  ghost predicate Proper(items: seq<Item>) {
    items != [] ==> ProperItem(items[0]) && Proper(items[1..])
  }

  ghost predicate ProperItem(item: Item) {
    match item
    case Plain(c) => !IsOpen(c) && !IsClose(c)
    case Nest(open, inner) => IsOpen(open) && Proper(inner)
  }

  ghost function Text(items: seq<Item>): string {
    if items == [] then ""
    else ItemText(items[0]) + Text(items[1..])
  }

  ghost function ItemText(item: Item): string {
    match item
    case Plain(c) => [c]
    case Nest(open, inner) => [open] + Text(inner) + [Flip(open)]
  }

  ghost predicate Balanced(s: string) {
    exists items :: Proper(items) && s == Text(items)
  }

  /** An opening bracket, balanced text, and the bracket that closes it. */
  ghost predicate Matched(s: string) {
    |s| >= 2 && IsOpen(s[0]) && s[|s| - 1] == Flip(s[0]) && Balanced(s[1..|s| - 1])
  }

  lemma BalancedNil()
    ensures Balanced("")
  {
    assert Proper([]) && Text([]) == "";
  }

  lemma BalancedPlain(c: char, s: string)
    requires !IsOpen(c) && !IsClose(c) && Balanced(s)
    ensures Balanced([c] + s)
  {
    var items :| Proper(items) && s == Text(items);
    var more := [Plain(c)] + items;
    assert more[1..] == items;
    assert Text(more) == ItemText(Plain(c)) + Text(items);
    assert Proper(more) && Text(more) == [c] + s;
  }

  lemma BalancedNest(open: char, s: string, t: string)
    requires IsOpen(open) && Balanced(s) && Balanced(t)
    ensures Balanced([open] + s + [Flip(open)] + t)
  {
    var inner :| Proper(inner) && s == Text(inner);
    var items :| Proper(items) && t == Text(items);
    var more := [Nest(open, inner)] + items;
    assert more[1..] == items;
    assert Text(more) == ItemText(Nest(open, inner)) + Text(items);
    assert ProperItem(more[0]) && Proper(more);
    assert Text(more) == [open] + s + [Flip(open)] + t;
  }

  lemma {:induction false} BalancedConcat(items: seq<Item>, t: string)
    requires Proper(items) && Balanced(t)
    ensures Balanced(Text(items) + t)
  {
    if items == [] {
      assert Text(items) + t == t;
    } else {
      BalancedConcat(items[1..], t);
      var rest := Text(items[1..]) + t;
      match items[0]
      case Plain(c) =>
        BalancedPlain(c, rest);
        assert Text(items) + t == [c] + rest;
      case Nest(open, inner) =>
        assert Balanced(Text(inner));
        BalancedNest(open, Text(inner), rest);
        assert Text(items) + t == [open] + Text(inner) + [Flip(open)] + rest;
    }
  }

  // ----- one scan of a text -----

  datatype Outcome = Found(at: nat) | Broken | Pending(stack: string)

  datatype Move = Done | Stop | Go(stack: string)

  /** What one character does to the stack of open brackets. */
  function Step(stack: string, c: char): Move {
    if IsOpen(c) then Go(stack + [c])
    else if IsClose(c) then
      if stack == "" || stack[|stack| - 1] != Flip(c) then Stop
      else if |stack| == 1 then Done
      else Go(stack[..|stack| - 1])
    else if c == ';' && stack == "" then Stop
    else Go(stack)
  }

  /** Found is the position just after the closing bracket. */
  ghost function Scan(s: string, stack: string): Outcome {
    if s == "" then Pending(stack)
    else match Step(stack, s[0])
      case Done => Found(1)
      case Stop => Broken
      case Go(next) => Shift(1, Scan(s[1..], next))
  }

  ghost function Shift(n: nat, o: Outcome): Outcome {
    if o.Found? then Found(o.at + n) else o
  }

  lemma {:induction false} ScanAppend(a: string, b: string, stack: string)
    ensures Scan(a + b, stack) ==
      if Scan(a, stack).Pending? then Shift(|a|, Scan(b, Scan(a, stack).stack)) else Scan(a, stack)
  {
    if a == "" {
      assert a + b == b;
    } else {
      assert (a + b)[1..] == a[1..] + b && (a + b)[0] == a[0];
      match Step(stack, a[0])
      case Done =>
      case Stop =>
      case Go(next) => ScanAppend(a[1..], b, next);
    }
  }

  lemma {:induction false} ScanBounds(s: string, stack: string)
    ensures Scan(s, stack).Found? ==> 1 <= Scan(s, stack).at <= |s|
    ensures Scan(s, stack).Pending? && stack != "" ==> Scan(s, stack).stack != ""
  {
    if s != "" && Step(stack, s[0]).Go? {
      ScanBounds(s[1..], Step(stack, s[0]).stack);
    }
  }

  lemma ScanOne(c: char, stack: string)
    ensures Scan([c], stack) ==
            match Step(stack, c) case Done => Found(1) case Stop => Broken case Go(next) => Pending(next)
  {
    assert [c][1..] == "";
  }

  /** A nest around text that leaves the stack alone leaves it alone too, or ends the scan of an empty one. */
  lemma ScanNest(open: char, inner: string, stack: string)
    requires IsOpen(open) && Scan(inner, stack + [open]) == Pending(stack + [open])
    ensures Scan([open] + inner + [Flip(open)], stack) == if stack == "" then Found(|inner| + 2) else Pending(stack)
  {
    hide Scan;
    var pushed := stack + [open];
    assert pushed[|pushed| - 1] == open && pushed[..|pushed| - 1] == stack;
    assert Flip(Flip(open)) == open && !IsOpen(Flip(open)) && IsClose(Flip(open));
    ScanOne(open, stack);
    ScanAppend([open], inner, stack);
    ScanOne(Flip(open), pushed);
    ScanAppend([open] + inner, [Flip(open)], stack);
  }

  /** Balanced text leaves a non-empty stack as it was. */
  lemma {:induction false} ScanBalanced(items: seq<Item>, stack: string)
    requires Proper(items) && stack != ""
    ensures Scan(Text(items), stack) == Pending(stack)
    decreases items
  {
    if items != [] {
      var rest := Text(items[1..]);
      ScanBalanced(items[1..], stack);
      match items[0]
      case Plain(c) =>
        assert Text(items) == [c] + rest;
        assert ([c] + rest)[0] == c && ([c] + rest)[1..] == rest;
      case Nest(open, inner) =>
        ScanBalanced(inner, stack + [open]);
        ScanNest(open, Text(inner), stack);
        ScanAppend([open] + Text(inner) + [Flip(open)], rest, stack);
    }
  }

  lemma MatchedParts(m: string) returns (items: seq<Item>)
    requires Matched(m)
    ensures Proper(items) && IsOpen(m[0]) && m == [m[0]] + Text(items) + [Flip(m[0])]
  {
    items :| Proper(items) && m[1..|m| - 1] == Text(items);
  }

  /** A matched text is what the scan of anything that starts with it stops behind. */
  lemma MatchedIsFound(s: string, k: nat)
    requires k <= |s| && Matched(s[..k])
    ensures Scan(s, "") == Found(k)
  {
    hide Scan, Text, Proper, IsOpen, Flip;
    var m := s[..k];
    assert m + s[k..] == s;
    var items := MatchedParts(m);
    ScanBalanced(items, "" + [m[0]]);
    ScanNest(m[0], Text(items), "");
    ScanAppend(m, s[k..], "");
  }

  /** s closes every bracket of the stack, innermost first, with balanced text before each. */
  ghost predicate Unwinds(s: string, stack: string)
    decreases |stack|
  {
    if stack == "" then s == ""
    else exists inner, rest :: Peels(s, Top(stack), inner, rest) && Unwinds(rest, Pop(stack))
  }

  function Top(stack: string): char
    requires stack != ""
  {
    stack[|stack| - 1]
  }

  function Pop(stack: string): string
    requires stack != ""
  {
    stack[..|stack| - 1]
  }

  ghost predicate Peels(s: string, open: char, inner: string, rest: string) {
    Balanced(inner) && s == inner + [Flip(open)] + rest
  }

  lemma UnwindsBuild(inner: string, rest: string, stack: string)
    requires stack != "" && Balanced(inner) && Unwinds(rest, Pop(stack))
    ensures Unwinds(inner + [Flip(Top(stack))] + rest, stack)
  {
    assert Peels(inner + [Flip(Top(stack))] + rest, Top(stack), inner, rest);
  }

  lemma UnwindsSplit(s: string, stack: string) returns (inner: string, rest: string)
    requires stack != "" && Unwinds(s, stack)
    ensures s == inner + [Flip(Top(stack))] + rest
    ensures Balanced(inner) && Unwinds(rest, Pop(stack))
  {
    inner, rest :| Peels(s, Top(stack), inner, rest) && Unwinds(rest, Pop(stack));
  }

  lemma UnwindsPlain(c: char, s: string, stack: string)
    requires !IsOpen(c) && !IsClose(c) && stack != "" && Unwinds(s, stack)
    ensures Unwinds([c] + s, stack)
  {
    hide Unwinds, Balanced, Flip;
    var inner, rest := UnwindsSplit(s, stack);
    BalancedPlain(c, inner);
    UnwindsBuild([c] + inner, rest, stack);
    assert [c] + s == [c] + inner + [Flip(Top(stack))] + rest;
  }

  lemma UnwindsClose(c: char, s: string, stack: string)
    requires IsClose(c) && stack != "" && Top(stack) == Flip(c) && Unwinds(s, Pop(stack))
    ensures Unwinds([c] + s, stack)
  {
    BalancedNil();
    hide Unwinds, Balanced;
    assert Flip(Top(stack)) == c;
    UnwindsBuild("", s, stack);
    assert "" + [c] + s == [c] + s;
  }

  lemma UnwindsOpen(c: char, s: string, stack: string)
    requires IsOpen(c) && stack != "" && Unwinds(s, stack + [c])
    ensures Unwinds([c] + s, stack)
  {
    hide Unwinds, Balanced, Flip;
    var pushed := stack + [c];
    assert Pop(pushed) == stack && Top(pushed) == c;
    var inner, rest := UnwindsSplit(s, pushed);
    var outer, tail := UnwindsSplit(rest, stack);
    BalancedNest(c, inner, outer);
    UnwindsBuild([c] + inner + [Flip(c)] + outer, tail, stack);
    assert [c] + s == [c] + inner + [Flip(c)] + outer + [Flip(Top(stack))] + tail;
  }

  lemma {:induction false} FoundUnwinds(s: string, stack: string)
    requires stack != "" && Scan(s, stack).Found?
    ensures Scan(s, stack).at <= |s| && Unwinds(s[..Scan(s, stack).at], stack)
  {
    var c, k := s[0], Scan(s, stack).at;
    ScanBounds(s, stack);
    match Step(stack, c)
    case Done =>
      assert s[..1] == [c] + "" && Pop(stack) == "";
      UnwindsClose(c, "", stack);
    case Go(next) =>
      ScanBounds(s[1..], next);
      FoundUnwinds(s[1..], next);
      assert s[..k] == [c] + s[1..][..k - 1];
      if IsOpen(c) {
        UnwindsOpen(c, s[1..][..k - 1], stack);
      } else if IsClose(c) {
        UnwindsClose(c, s[1..][..k - 1], stack);
      } else {
        UnwindsPlain(c, s[1..][..k - 1], stack);
      }
    case Stop => assert false;
  }

  lemma MatchedForm(open: char, inner: string)
    requires IsOpen(open) && Balanced(inner)
    ensures Matched([open] + inner + [Flip(open)])
  {
    hide Balanced;
    assert ([open] + inner + [Flip(open)])[1..|inner| + 1] == inner;
  }

  lemma OneUnwinds(s: string, open: char) returns (inner: string)
    requires Unwinds(s, "" + [open])
    ensures Balanced(inner) && s == inner + [Flip(open)]
  {
    var stack := "" + [open];
    assert Top(stack) == open && Pop(stack) == "";
    var rest;
    inner, rest := UnwindsSplit(s, stack);
    assert rest == "";
  }

  lemma AfterOpener(s: string, k: nat)
    requires s != "" && IsOpen(s[0]) && Scan(s, "") == Found(k)
    ensures k > 0 && Scan(s[1..], "" + [s[0]]) == Found(k - 1)
  {
  }

  lemma FoundIsMatched(s: string, k: nat)
    requires s != "" && IsOpen(s[0]) && Scan(s, "") == Found(k)
    ensures k <= |s| && Matched(s[..k])
  {
    hide *;
    var open := "" + [s[0]];
    AfterOpener(s, k);
    FoundUnwinds(s[1..], open);
    var inner := OneUnwinds(s[1..][..k - 1], s[0]);
    MatchedForm(s[0], inner);
    assert s[..k] == [s[0]] + s[1..][..k - 1];
    assert s[..k] == [s[0]] + inner + [Flip(s[0])];
  }

  /** From an opening bracket the scan stops exactly behind the partner the grammar gives it. */
  lemma FoundIffMatched(s: string, k: nat)
    requires s != "" && IsOpen(s[0]) && k <= |s|
    ensures Scan(s, "") == Found(k) <==> Matched(s[..k])
  {
    hide Scan, Matched;
    if Matched(s[..k]) {
      MatchedIsFound(s, k);
    }
    if Scan(s, "") == Found(k) {
      FoundIsMatched(s, k);
    }
  }

  /** Outside all brackets the scan passes everything up to a semicolon or a bracket: the first two end it. */
  lemma {:induction false} ScanOutside(plain: string, c: char, rest: string)
    requires forall i :: 0 <= i < |plain| ==> !IsOpen(plain[i]) && !IsClose(plain[i]) && plain[i] != ';'
    requires IsOpen(c) || IsClose(c) || c == ';'
    ensures Scan(plain, "") == Pending("")
    ensures Scan(plain + [c] + rest, "") ==
      if IsOpen(c) then Shift(|plain|, Scan([c] + rest, "")) else Broken
  {
    if plain == "" {
      assert plain + [c] + rest == [c] + rest;
    } else {
      var s := plain + [c] + rest;
      assert s[1..] == plain[1..] + [c] + rest;
      ScanOutside(plain[1..], c, rest);
    }
  }

  ghost predicate AllOpen(stack: string) {
    forall i :: 0 <= i < |stack| ==> IsOpen(stack[i])
  }

  lemma {:induction false} PendingIsOpen(s: string, stack: string)
    requires AllOpen(stack)
    ensures Scan(s, stack).Pending? ==> AllOpen(Scan(s, stack).stack)
  {
    if s != "" && Step(stack, s[0]).Go? {
      PendingIsOpen(s[1..], Step(stack, s[0]).stack);
    }
  }

  lemma {:induction false} MirrorClosesStack(stack: string)
    requires AllOpen(stack) && stack != ""
    ensures Scan(Mirror(stack), stack) == Found(|stack|)
  {
    var m := Mirror(stack);
    assert m[0] == Flip(stack[|stack| - 1]) && IsClose(m[0]) && !IsOpen(m[0]) && Flip(m[0]) == stack[|stack| - 1];
    if |stack| > 1 {
      assert m[1..] == Mirror(stack[..|stack| - 1]);
      MirrorClosesStack(stack[..|stack| - 1]);
    }
  }

  /**
   * A scan that is pending has the unclosed brackets on its stack: closing just these, innermost
   * first, completes the match. One that is broken stays so, whatever follows.
   */
  lemma PendingCloses(s: string)
    requires s != "" && IsOpen(s[0])
    ensures Scan(s, "").Broken? ==> forall t, k :: 0 <= k <= |s + t| ==> !Matched((s + t)[..k])
    ensures Scan(s, "").Pending? ==>
      var left := Scan(s, "").stack; left != "" && AllOpen(left) && Matched(s + Mirror(left))
  {
    hide Scan, Matched, Mirror;
    match Scan(s, "")
    case Found(_) =>
    case Broken =>
      forall t, k | 0 <= k <= |s + t| ensures !Matched((s + t)[..k]) {
        ScanAppend(s, t, "");
        FoundIffMatched(s + t, k);
      }
    case Pending(left) =>
      PendingIsOpen(s, "");
      PendingAfterOpener(s);
      ScanAppend(s, Mirror(left), "");
      MirrorClosesStack(left);
      assert (s + Mirror(left))[..|s| + |left|] == s + Mirror(left);
      FoundIffMatched(s + Mirror(left), |s| + |left|);
  }

  lemma PendingAfterOpener(s: string)
    requires s != "" && IsOpen(s[0])
    ensures Scan(s, "").Pending? ==> Scan(s, "").stack != ""
  {
    ScanBounds(s[1..], "" + [s[0]]);
  }

  // ----- the scan backwards is the scan of the mirrored text -----

  function Mirror(s: string): (m: string)
    ensures |m| == |s| && forall i :: 0 <= i < |s| ==> m[i] == Flip(s[|s| - 1 - i])
  {
    seq(|s|, i requires 0 <= i < |s| => Flip(s[|s| - 1 - i]))
  }

  function FlipAll(s: string): (m: string)
    ensures |m| == |s| && forall i :: 0 <= i < |s| ==> m[i] == Flip(s[i])
  {
    seq(|s|, i requires 0 <= i < |s| => Flip(s[i]))
  }

  /** One character read backwards: closing brackets are pushed. */
  function StepBack(stack: string, c: char): Move {
    if IsClose(c) then Go(stack + [c])
    else if IsOpen(c) then
      if stack == "" || stack[|stack| - 1] != Flip(c) then Stop
      else if |stack| == 1 then Done
      else Go(stack[..|stack| - 1])
    else if c == ';' && stack == "" then Stop
    else Go(stack)
  }

  /** Found is the position of the opening bracket. */
  ghost function ScanBack(s: string, stack: string): Outcome {
    if s == "" then Pending(stack)
    else match StepBack(stack, s[|s| - 1])
      case Done => Found(|s| - 1)
      case Stop => Broken
      case Go(next) => ScanBack(s[..|s| - 1], next)
  }

  lemma StepBackIsStep(stack: string, c: char)
    ensures match StepBack(stack, c)
            case Done => Step(FlipAll(stack), Flip(c)).Done?
            case Stop => Step(FlipAll(stack), Flip(c)).Stop?
            case Go(next) => Step(FlipAll(stack), Flip(c)) == Go(FlipAll(next))
  {
    if IsClose(c) {
      assert FlipAll(stack + [c]) == FlipAll(stack) + [Flip(c)];
    } else if IsOpen(c) && stack != "" {
      assert FlipAll(stack[..|stack| - 1]) == FlipAll(stack)[..|stack| - 1];
    }
  }

  lemma {:induction false} ScanBackIsScan(s: string, stack: string)
    ensures match ScanBack(s, stack)
            case Found(i) => i < |s| && Scan(Mirror(s), FlipAll(stack)) == Found(|s| - i)
            case Broken => Scan(Mirror(s), FlipAll(stack)).Broken?
            case Pending(left) => Scan(Mirror(s), FlipAll(stack)) == Pending(FlipAll(left))
  {
    if s != "" {
      var c := s[|s| - 1];
      StepBackIsStep(stack, c);
      assert Mirror(s)[1..] == Mirror(s[..|s| - 1]);
      match StepBack(stack, c)
      case Done =>
      case Stop =>
      case Go(next) => ScanBackIsScan(s[..|s| - 1], next);
    }
  }

  lemma {:induction false} ScanBackAppend(a: string, b: string, stack: string)
    ensures ScanBack(a + b, stack) ==
            match ScanBack(b, stack)
            case Found(i) => Found(|a| + i)
            case Broken => Broken
            case Pending(left) => ScanBack(a, left)
  {
    if b == "" {
      assert a + b == a;
    } else {
      assert (a + b)[..|a + b| - 1] == a + b[..|b| - 1];
      match StepBack(stack, b[|b| - 1])
      case Done =>
      case Stop =>
      case Go(next) => ScanBackAppend(a, b[..|b| - 1], next);
    }
  }

  lemma {:induction false} MirrorBalanced(items: seq<Item>)
    requires Proper(items)
    ensures Balanced(Mirror(Text(items)))
    decreases items
  {
    if items == [] {
      assert Mirror("") == "";
      BalancedNil();
    } else {
      var rest := Text(items[1..]);
      MirrorBalanced(items[1..]);
      match items[0]
      case Plain(c) =>
        BalancedNil();
        BalancedPlain(c, "");
        assert Mirror(Text(items)) == Mirror(rest) + ([c] + "");
        BalancedJoin(Mirror(rest), [c] + "");
      case Nest(open, inner) =>
        MirrorBalanced(inner);
        BalancedNil();
        BalancedNest(open, Mirror(Text(inner)), "");
        var m := [open] + Mirror(Text(inner)) + [Flip(open)] + "";
        assert Mirror(Text(items)) == Mirror(rest) + m by {
          MirrorNest(open, Text(inner), rest);
        }
        BalancedJoin(Mirror(rest), m);
    }
  }

  lemma MirrorNest(open: char, inner: string, rest: string)
    ensures Mirror([open] + inner + [Flip(open)] + rest) == Mirror(rest) + ([open] + Mirror(inner) + [Flip(open)] + "")
  {
  }

  lemma BalancedJoin(s: string, t: string)
    requires Balanced(s) && Balanced(t)
    ensures Balanced(s + t)
  {
    var items :| Proper(items) && s == Text(items);
    BalancedConcat(items, t);
  }

  lemma MirrorMatched(s: string)
    ensures Matched(Mirror(s)) <==> Matched(s)
  {
    if Matched(s) {
      MirrorMatchedOneWay(s);
    }
    if Matched(Mirror(s)) {
      MirrorMatchedOneWay(Mirror(s));
      assert Mirror(Mirror(s)) == s;
    }
  }

  lemma MirrorMatchedOneWay(s: string)
    requires Matched(s)
    ensures Matched(Mirror(s))
  {
    var inner := s[1..|s| - 1];
    var items :| Proper(items) && inner == Text(items);
    MirrorBalanced(items);
    assert Mirror(s)[1..|s| - 1] == Mirror(inner);
  }

  /** From a closing bracket the backward scan stops exactly at the partner the grammar gives it. */
  lemma FoundBackIffMatched(s: string, i: nat)
    requires s != "" && IsClose(s[|s| - 1]) && i <= |s|
    ensures ScanBack(s, "") == Found(i) <==> Matched(s[i..])
  {
    assert Mirror(s)[..|s| - i] == Mirror(s[i..]);
    assert FlipAll("") == "";
    assert IsOpen(Mirror(s)[0]);
    hide Scan, ScanBack, Matched, Mirror, FlipAll, Flip;
    ScanBackIsScan(s, "");
    FoundIffMatched(Mirror(s), |s| - i);
    MirrorMatched(s[i..]);
  }

  /**
   * Duality: a bracket at p is closed just before e by the forward scan exactly when the
   * backward scan from e - 1 opens at p.
   */
  lemma CloseThenReverse(text: string, p: nat, e: nat)
    requires p < e <= |text|
    ensures IsOpen(text[p]) && Scan(text[p..], "") == Found(e - p) <==>
            IsClose(text[e - 1]) && ScanBack(text[..e], "") == Found(p)
  {
    if IsOpen(text[p]) {
      FoundIffMatched(text[p..], e - p);
      assert text[p..][..e - p] == text[p..e];
    }
    if IsClose(text[e - 1]) {
      FoundBackIffMatched(text[..e], p);
      assert text[..e][p..] == text[p..e];
    }
  }

  // ----- the scanners over lines -----

  function Joined(lines: seq<string>): string {
    if lines == [] then "" else Joined(lines[..|lines| - 1]) + lines[|lines| - 1]
  }

  ghost predicate Cleansed(lines: seq<string>) {
    forall i :: 0 <= i < |lines| ==> NoAngles(lines[i])
  }

  /** The place of (line, position) in the joined text. */
  function Offset(lines: seq<string>, line: nat, pos: int): int
    requires line <= |lines|
  {
    |Joined(lines[..line])| + pos
  }

  method FindEndOfExpressionInLine(line: string, startpos: nat, stack0: string)
    returns (end: int, stack: Option<string>)
    requires startpos <= |line| && NoAngles(line)
    ensures match Scan(line[startpos..], stack0)
            case Found(k) => end == startpos + k && stack == None
            case Broken => end == -1 && stack == None
            case Pending(left) => end == -1 && stack == Some(left)
    ensures end == -1 || startpos < end <= |line|
  {
    var open := stack0;
    for i := startpos to |line|
      invariant Scan(line[startpos..], stack0) == Shift(i - startpos, Scan(line[i..], open))
    {
      var c := line[i];
      assert line[i..][0] == c && line[i..][1..] == line[i + 1..];
      if IsOpen(c) {
        open := open + [c];
      } else if IsClose(c) {
        if open == "" {
          return -1, None;
        }
        if open[|open| - 1] == Flip(c) {
          open := open[..|open| - 1];
          if open == "" {
            return i + 1, None;
          }
        } else {
          return -1, None;
        }
      } else if c == ';' {
        if open == "" {
          return -1, None;
        }
      }
    }
    return -1, Some(open);
  }

  method FindStartOfExpressionInLine(line: string, endpos: int, stack0: string)
    returns (start: int, stack: Option<string>)
    requires -1 <= endpos < |line| && NoAngles(line)
    ensures match ScanBack(line[..endpos + 1], stack0)
            case Found(k) => start == k && stack == None
            case Broken => start == -1 && stack == None
            case Pending(left) => start == -1 && stack == Some(left)
    ensures start <= endpos
  {
    var open := stack0;
    var i := endpos;
    while i >= 0
      invariant -1 <= i <= endpos
      invariant ScanBack(line[..endpos + 1], stack0) == ScanBack(line[..i + 1], open)
    {
      var c := line[i];
      assert line[..i + 1][i] == c && line[..i + 1][..i] == line[..i];
      if IsClose(c) {
        open := open + [c];
      } else if IsOpen(c) {
        if open == "" {
          return -1, None;
        }
        if open[|open| - 1] == Flip(c) {
          open := open[..|open| - 1];
          if open == "" {
            return i, None;
          }
        } else {
          return -1, None;
        }
      } else if c == ';' {
        if open == "" {
          return -1, None;
        }
      }
      i := i - 1;
    }
    return -1, Some(open);
  }

  /** The bracket at `at` is closed just before `end`. */
  ghost predicate Partners(text: string, at: int, end: int) {
    0 <= at < end <= |text| && Matched(text[at..end])
  }

  ghost predicate NeverClosed(text: string, at: int) {
    forall end :: !Partners(text, at, end)
  }

  ghost predicate NeverOpened(text: string, end: int) {
    forall start :: !Partners(text, start, end)
  }

  lemma {:induction false} JoinedSplit(lines: seq<string>, n: nat)
    requires n < |lines|
    ensures Joined(lines[..n + 1]) == Joined(lines[..n]) + lines[n]
    ensures |Joined(lines[..n + 1])| <= |Joined(lines)|
    ensures Joined(lines)[|Joined(lines[..n])|..|Joined(lines[..n + 1])|] == lines[n]
    ensures Joined(lines)[..|Joined(lines[..n + 1])|] == Joined(lines[..n + 1])
  {
    assert lines[..n + 1][..n] == lines[..n];
    if n + 1 == |lines| {
      assert lines[..n + 1] == lines;
    } else {
      var init := lines[..|lines| - 1];
      JoinedSplit(init, n);
      assert init[..n] == lines[..n] && init[..n + 1] == lines[..n + 1];
    }
  }

  /** The text from a position to the end of line m. */
  ghost function Seen(lines: seq<string>, n: nat, p: nat, m: nat): string
    requires n <= m < |lines| && p <= |lines[n]|
    decreases m
  {
    if m == n then lines[n][p..] else Seen(lines, n, p, m - 1) + lines[m]
  }

  /** The search for the partner of (n, p) ends on line m: at once, on a mismatch, or on the last line. */
  ghost predicate GivesUpAt(lines: seq<string>, n: nat, p: nat, m: nat)
    requires n < |lines| && p < |lines[n]|
  {
    if !IsOpen(lines[n][p]) then m == n
    else
      && n <= m < |lines| && !Scan(Seen(lines, n, p, m), "").Found?
      && (Scan(Seen(lines, n, p, m), "").Pending? ==> m == |lines| - 1)
      && forall k: nat :: n <= k < m ==> Scan(Seen(lines, n, p, k), "").Pending?
  }

  ghost function Left(stack: Option<string>): Outcome {
    if stack.None? then Broken else Pending(stack.value)
  }

  /**
   * The position just after the partner of the bracket at (linenum0, pos0), on whatever line
   * it is; or (number of lines, -1) when the rest of the text holds no partner.
   */
  method CloseExpression(lines: seq<string>, linenum0: nat, pos0: nat) returns (line: string, linenum: nat, pos: int)
    requires linenum0 < |lines| && pos0 < |lines[linenum0]| && Cleansed(lines)
    ensures pos >= 0 ==> linenum < |lines| && line == lines[linenum] && 0 < pos <= |line|
    ensures pos >= 0 ==> Partners(Joined(lines), Offset(lines, linenum0, pos0), Offset(lines, linenum, pos))
    ensures pos < 0 ==> linenum == |lines| && pos == -1
    ensures pos < 0 ==> NeverClosed(Joined(lines), Offset(lines, linenum0, pos0))
    ensures pos < 0 ==> exists m: nat :: GivesUpAt(lines, linenum0, pos0, m) && m < |lines| && line == lines[m]
  {
    hide Scan, Matched, Joined;
    linenum := linenum0;
    line := lines[linenum];
    ghost var text, at := Joined(lines), Offset(lines, linenum0, pos0);
    FirstLineScanned(lines, linenum0, pos0);
    if !IsOpen(line[pos0]) {
      NotOpened(text, at);
      assert GivesUpAt(lines, linenum0, pos0, linenum);
      return line, |lines|, -1;
    }
    var end, stack := FindEndOfExpressionInLine(line, pos0, "");
    if end > -1 {
      FoundIsPartner(text, at, end - pos0);
      return line, linenum, end;
    }
    while stack.Some? && stack.value != "" && linenum < |lines| - 1
      invariant linenum0 <= linenum < |lines| && line == lines[linenum]
      invariant |Joined(lines[..linenum + 1])| <= |text|
      invariant at < |Joined(lines[..linenum + 1])|
      invariant Scan(text[at..], "") == ScanRest(text, at, |Joined(lines[..linenum + 1])|, stack)
      invariant stack.Some? ==> stack.value != ""
      invariant Scan(Seen(lines, linenum0, pos0, linenum), "") == Left(stack)
      invariant forall k: nat :: linenum0 <= k < linenum ==> Scan(Seen(lines, linenum0, pos0, k), "").Pending?
    {
      linenum := linenum + 1;
      line := lines[linenum];
      NextLineScanned(lines, linenum, at, stack.value);
      assert line[0..] == line;
      ScanAppend(Seen(lines, linenum0, pos0, linenum - 1), line, "");
      end, stack := FindEndOfExpressionInLine(line, 0, stack.value);
      if end > -1 {
        FoundIsPartner(text, at, |Joined(lines[..linenum])| + end - at);
        return line, linenum, end;
      }
    }
    NoPartner(text, at, lines, linenum, stack);
    assert GivesUpAt(lines, linenum0, pos0, linenum);
    return line, |lines|, -1;
  }

  /** What is left of a scan of text[at..] that has reached `from` with this stack. */
  ghost function ScanRest(text: string, at: nat, from: nat, stack: Option<string>): Outcome
    requires at <= from <= |text|
  {
    if stack.None? then Broken else Shift(from - at, Scan(text[from..], stack.value))
  }

  lemma NotOpened(text: string, at: nat)
    requires at < |text| && !IsOpen(text[at])
    ensures NeverClosed(text, at)
  {
    forall end ensures !Partners(text, at, end) {
      if at < end <= |text| {
        assert text[at..end][0] == text[at];
      }
    }
  }

  lemma FirstLineScanned(lines: seq<string>, n: nat, p: nat)
    requires n < |lines| && p < |lines[n]|
    ensures var text, at, next := Joined(lines), Offset(lines, n, p), |Joined(lines[..n + 1])|;
            && 0 <= at < next <= |text| && text[at] == lines[n][p]
            && Scan(text[at..], "") ==
               match Scan(lines[n][p..], "")
               case Pending(left) => Shift(next - at, Scan(text[next..], left))
               case o => o
    ensures IsOpen(lines[n][p]) && Scan(lines[n][p..], "").Pending? ==> Scan(lines[n][p..], "").stack != ""
  {
    if IsOpen(lines[n][p]) {
      assert lines[n][p..][1..] == lines[n][p + 1..];
      ScanBounds(lines[n][p + 1..], "" + [lines[n][p]]);
    }
    JoinedSplit(lines, n);
    var text, at, next := Joined(lines), Offset(lines, n, p), |Joined(lines[..n + 1])|;
    var start := |Joined(lines[..n])|;
    assert text[at..next] == text[start..next][p..];
    assert text[at..] == lines[n][p..] + text[next..];
    ScanAppend(lines[n][p..], text[next..], "");
  }

  lemma FoundIsPartner(text: string, at: nat, k: nat)
    requires at < |text| && IsOpen(text[at]) && Scan(text[at..], "") == Found(k)
    ensures Partners(text, at, at + k)
  {
    ScanBounds(text[at..], "");
    FoundIffMatched(text[at..], k);
    assert text[at..][..k] == text[at..at + k];
  }

  lemma NoPartner(text: string, at: nat, lines: seq<string>, linenum: nat, stack: Option<string>)
    requires text == Joined(lines) && linenum < |lines| && at < |Joined(lines[..linenum + 1])| <= |text|
    requires IsOpen(text[at]) && Scan(text[at..], "") == ScanRest(text, at, |Joined(lines[..linenum + 1])|, stack)
    requires stack.None? || linenum == |lines| - 1
    ensures NeverClosed(text, at)
  {
    if linenum == |lines| - 1 {
      assert lines[..linenum + 1] == lines;
      assert text[|text|..] == "";
    }
    NotFoundIsNeverClosed(text, at);
  }

  lemma NotFoundIsNeverClosed(text: string, at: nat)
    requires at < |text| && !Scan(text[at..], "").Found?
    ensures NeverClosed(text, at)
  {
    forall end ensures !Partners(text, at, end) {
      if Partners(text, at, end) {
        assert text[at..][..end - at] == text[at..end];
        MatchedIsFound(text[at..], end - at);
      }
    }
  }

  /** One more line of a scan that is still pending. */
  lemma NextLineScanned(lines: seq<string>, n: nat, at: nat, stack: string)
    requires n < |lines| && at <= |Joined(lines[..n])| <= |Joined(lines)| && stack != ""
    ensures var text, before, after := Joined(lines), |Joined(lines[..n])|, |Joined(lines[..n + 1])|;
            && before <= after <= |text|
            && ScanRest(text, at, before, Some(stack)) ==
               match Scan(lines[n], stack)
               case Found(k) => Found(before + k - at)
               case Broken => Broken
               case Pending(left) => ScanRest(text, at, after, Some(left))
    ensures Scan(lines[n], stack).Pending? ==> Scan(lines[n], stack).stack != ""
  {
    JoinedSplit(lines, n);
    var text, before, after := Joined(lines), |Joined(lines[..n])|, |Joined(lines[..n + 1])|;
    assert text[before..] == lines[n] + text[after..];
    ScanAppend(lines[n], text[after..], stack);
    ScanBounds(lines[n], stack);
  }

  /** The text from the start of line m to a position. */
  ghost function SeenBack(lines: seq<string>, n: nat, p: nat, m: nat): string
    requires m <= n < |lines| && p < |lines[n]|
    decreases n - m
  {
    if m == n then lines[n][..p + 1] else lines[m] + SeenBack(lines, n, p, m + 1)
  }

  /** The backward search for the partner of (n, p) ends on line m: at once, on a mismatch, or on line 0. */
  ghost predicate GivesUpBackAt(lines: seq<string>, n: nat, p: nat, m: nat)
    requires n < |lines| && p < |lines[n]|
  {
    if !IsClose(lines[n][p]) then m == n
    else
      && m <= n && !ScanBack(SeenBack(lines, n, p, m), "").Found?
      && (ScanBack(SeenBack(lines, n, p, m), "").Pending? ==> m == 0)
      && forall k: nat :: m < k <= n ==> ScanBack(SeenBack(lines, n, p, k), "").Pending?
  }

  /**
   * The position of the partner of the closing bracket at (linenum0, pos0); or (0, -1) when
   * the text before it holds no partner.
   */
  method ReverseCloseExpression(lines: seq<string>, linenum0: nat, pos0: nat)
    returns (line: string, linenum: nat, pos: int)
    requires linenum0 < |lines| && pos0 < |lines[linenum0]| && Cleansed(lines)
    ensures pos >= 0 ==> linenum < |lines| && line == lines[linenum] && pos < |line|
    ensures pos >= 0 ==> Partners(Joined(lines), Offset(lines, linenum, pos), Offset(lines, linenum0, pos0) + 1)
    ensures pos < 0 ==> linenum == 0 && pos == -1
    ensures pos < 0 ==> NeverOpened(Joined(lines), Offset(lines, linenum0, pos0) + 1)
    ensures pos < 0 ==> exists m: nat :: GivesUpBackAt(lines, linenum0, pos0, m) && m < |lines| && line == lines[m]
  {
    hide ScanBack, Matched, Joined;
    linenum := linenum0;
    line := lines[linenum];
    ghost var text, end := Joined(lines), Offset(lines, linenum0, pos0) + 1;
    LastLineScanned(lines, linenum0, pos0);
    if !IsClose(line[pos0]) {
      NotClosed(text, end);
      assert GivesUpBackAt(lines, linenum0, pos0, linenum);
      return line, 0, -1;
    }
    var start, stack := FindStartOfExpressionInLine(line, pos0, "");
    if start > -1 {
      FoundIsOpener(text, end, |Joined(lines[..linenum])| + start);
      return line, linenum, start;
    }
    while stack.Some? && stack.value != "" && linenum > 0
      invariant linenum <= linenum0 && line == lines[linenum]
      invariant |Joined(lines[..linenum])| <= end
      invariant ScanBack(text[..end], "") == ScanBackRest(text[..|Joined(lines[..linenum])|], stack)
      invariant stack.Some? ==> stack.value != ""
      invariant ScanBack(SeenBack(lines, linenum0, pos0, linenum), "") == Left(stack)
      invariant forall k: nat :: linenum < k <= linenum0 ==>
        ScanBack(SeenBack(lines, linenum0, pos0, k), "").Pending?
    {
      linenum := linenum - 1;
      line := lines[linenum];
      PreviousLineScanned(lines, linenum, stack.value);
      assert line[..|line| - 1 + 1] == line;
      ScanBackAppend(line, SeenBack(lines, linenum0, pos0, linenum + 1), "");
      start, stack := FindStartOfExpressionInLine(line, |line| - 1, stack.value);
      if start > -1 {
        FoundIsOpener(text, end, |Joined(lines[..linenum])| + start);
        return line, linenum, start;
      }
    }
    NoOpener(text, end, lines, linenum, stack);
    assert GivesUpBackAt(lines, linenum0, pos0, linenum);
    return line, 0, -1;
  }

  ghost function ScanBackRest(before: string, stack: Option<string>): Outcome {
    if stack.None? then Broken else ScanBack(before, stack.value)
  }

  lemma StackBackNonEmpty(s: string, stack: string)
    requires stack != ""
    ensures ScanBack(s, stack).Pending? ==> ScanBack(s, stack).stack != ""
  {
    ScanBackIsScan(s, stack);
    ScanBounds(Mirror(s), FlipAll(stack));
  }

  lemma LastLineScanned(lines: seq<string>, n: nat, p: nat)
    requires n < |lines| && p < |lines[n]|
    ensures var text, before, end := Joined(lines), |Joined(lines[..n])|, Offset(lines, n, p) + 1;
            && before < end <= |text| && text[end - 1] == lines[n][p]
            && ScanBack(text[..end], "") ==
               match ScanBack(lines[n][..p + 1], "")
               case Found(i) => Found(before + i)
               case Broken => Broken
               case Pending(left) => ScanBack(text[..before], left)
    ensures IsClose(lines[n][p]) && ScanBack(lines[n][..p + 1], "").Pending? ==>
      ScanBack(lines[n][..p + 1], "").stack != ""
  {
    hide ScanBack, Joined;
    LineCut(lines, n, p);
    var text, before := Joined(lines), |Joined(lines[..n])|;
    ScanBackAppend(text[..before], lines[n][..p + 1], "");
    if IsClose(lines[n][p]) {
      AfterCloser(lines[n][..p + 1]);
    }
  }

  lemma LineCut(lines: seq<string>, n: nat, p: nat)
    requires n < |lines| && p < |lines[n]|
    ensures var text, before, end := Joined(lines), |Joined(lines[..n])|, Offset(lines, n, p) + 1;
            && before < end <= |text| && text[end - 1] == lines[n][p]
            && text[..end] == text[..before] + lines[n][..p + 1]
  {
    JoinedSplit(lines, n);
    var text, before, end := Joined(lines), |Joined(lines[..n])|, Offset(lines, n, p) + 1;
    var next := |Joined(lines[..n + 1])|;
    assert text[before..end] == text[before..next][..p + 1];
    assert text[..end] == text[..before] + text[before..end];
  }

  lemma AfterCloser(s: string)
    requires s != "" && IsClose(s[|s| - 1])
    ensures ScanBack(s, "").Pending? ==> ScanBack(s, "").stack != ""
  {
    StackBackNonEmpty(s[..|s| - 1], "" + [s[|s| - 1]]);
  }

  /** One more line of a backward scan that is still pending. */
  lemma PreviousLineScanned(lines: seq<string>, n: nat, stack: string)
    requires n < |lines| && stack != ""
    ensures var text, before, after := Joined(lines), |Joined(lines[..n])|, |Joined(lines[..n + 1])|;
            && before <= after <= |text|
            && ScanBackRest(text[..after], Some(stack)) ==
               match ScanBack(lines[n], stack)
               case Found(i) => Found(before + i)
               case Broken => Broken
               case Pending(left) => ScanBackRest(text[..before], Some(left))
    ensures ScanBack(lines[n], stack).Pending? ==> ScanBack(lines[n], stack).stack != ""
  {
    JoinedSplit(lines, n);
    var text, before, after := Joined(lines), |Joined(lines[..n])|, |Joined(lines[..n + 1])|;
    assert text[..before] == Joined(lines[..n]) by {
      assert Joined(lines[..n + 1])[..before] == Joined(lines[..n]);
      assert text[..after][..before] == text[..before];
    }
    assert text[..after] == text[..before] + lines[n];
    ScanBackAppend(text[..before], lines[n], stack);
    StackBackNonEmpty(lines[n], stack);
  }

  lemma NotClosed(text: string, end: nat)
    requires 0 < end <= |text| && !IsClose(text[end - 1])
    ensures NeverOpened(text, end)
  {
    forall start ensures !Partners(text, start, end) {
      if 0 <= start < end {
        assert text[start..end][end - start - 1] == text[end - 1];
      }
    }
  }

  lemma FoundIsOpener(text: string, end: nat, at: nat)
    requires 0 < end <= |text| && IsClose(text[end - 1]) && ScanBack(text[..end], "") == Found(at)
    ensures Partners(text, at, end)
  {
    ScanBackIsScan(text[..end], "");
    FoundBackIffMatched(text[..end], at);
    assert text[..end][at..] == text[at..end];
  }

  lemma NoOpener(text: string, end: nat, lines: seq<string>, linenum: nat, stack: Option<string>)
    requires text == Joined(lines) && linenum < |lines| && |Joined(lines[..linenum])| <= end <= |text| && 0 < end
    requires IsClose(text[end - 1])
    requires ScanBack(text[..end], "") == ScanBackRest(text[..|Joined(lines[..linenum])|], stack)
    requires stack.None? || linenum == 0
    ensures NeverOpened(text, end)
  {
    assert lines[..0] == [];
    assert !ScanBack(text[..end], "").Found?;
    forall start ensures !Partners(text, start, end) {
      if 0 <= start < end {
        FoundBackIffMatched(text[..end], start);
        assert text[..end][start..] == text[start..end];
      }
    }
  }

  /** A bracket has at most one partner, on either side: closing then reversing comes back. */
  lemma PartnersUnique(text: string, p: int, e: int, q: int, f: int)
    requires Partners(text, p, e) && Partners(text, q, f)
    ensures p == q <==> e == f
  {
    MatchedIsFoundAt(text, p, e);
    MatchedIsFoundAt(text, q, f);
  }

  lemma MatchedIsFoundAt(text: string, p: int, e: int)
    requires Partners(text, p, e)
    ensures Scan(text[p..], "") == Found(e - p) && ScanBack(text[..e], "") == Found(p)
  {
    assert text[p..][..e - p] == text[p..e] && text[p] == text[p..e][0];
    FoundIffMatched(text[p..], e - p);
    CloseThenReverse(text, p, e);
  }
}
