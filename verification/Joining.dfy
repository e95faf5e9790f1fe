/** Names joined into one string, each followed by a separator. */
module Joining {

  function Terminated(names: seq<string>, end: char): string {
    if names == [] then "" else names[0] + [end] + Terminated(names[1..], end)
  }

  /** The first position of c, or |s|. */
  function Find(s: string, c: char): (i: nat)
    ensures i <= |s| && (i < |s| ==> s[i] == c)
    ensures forall k :: 0 <= k < i ==> s[k] != c
  {
    if s == [] || s[0] == c then 0 else 1 + Find(s[1..], c)
  }

  lemma FindIs(s: string, c: char, i: nat)
    requires i < |s| && s[i] == c && c !in s[..i]
    ensures Find(s, c) == i
  {
    assert forall k :: 0 <= k < i ==> s[k] == s[..i][k];
  }

  ghost predicate FreeOf(names: seq<string>, end: char) {
    forall i :: 0 <= i < |names| ==> end !in names[i]
  }

  lemma FirstNameFixed(a: string, restA: string, b: string, restB: string, end: char)
    requires end !in a && end !in b
    requires a + [end] + restA == b + [end] + restB
    ensures a == b && restA == restB
  {
    var t := a + [end] + restA;
    assert t[..|a|] == a && t[..|b|] == b;
    FindIs(t, end, |a|);
    FindIs(t, end, |b|);
    assert t[|a| + 1..] == restA && t[|b| + 1..] == restB;
  }

  /** Lists of separator-free names are determined by their joined form. */
  lemma {:induction false} TerminatedInjective(a: seq<string>, b: seq<string>, end: char)
    requires FreeOf(a, end) && FreeOf(b, end)
    requires Terminated(a, end) == Terminated(b, end)
    ensures a == b
  {
    if a != [] && b != [] {
      FirstNameFixed(a[0], Terminated(a[1..], end), b[0], Terminated(b[1..], end), end);
      TerminatedInjective(a[1..], b[1..], end);
    }
  }

  lemma {:induction false} TerminatedAppend(names: seq<string>, last: string, end: char)
    ensures Terminated(names + [last], end) == Terminated(names, end) + last + [end]
  {
    if names == [] {
      assert Terminated([last][1..], end) == "";
    } else {
      TerminatedAppend(names[1..], last, end);
      assert (names + [last])[1..] == names[1..] + [last];
    }
  }
}
