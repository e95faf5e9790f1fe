/** Edge lists, and the CSR/CSC row cursor the example algorithms walk them with. */
module Graph {

  datatype Edge = Edge(src: nat, dst: nat)

  /** Every endpoint is an internal vertex id below n. */
  ghost predicate InRange(edges: seq<Edge>, n: nat) {
    forall k :: 0 <= k < |edges| ==> edges[k].src < n && edges[k].dst < n
  }

  /** The CSR order (ordered_by_source). */
  ghost predicate SortedBySrc(edges: seq<Edge>) {
    forall j, k :: 0 <= j < k < |edges| ==> edges[j].src <= edges[k].src
  }

  /** The CSC order (ordered_by_dest). */
  ghost predicate SortedByDst(edges: seq<Edge>) {
    forall j, k :: 0 <= j < k < |edges| ==> edges[j].dst <= edges[k].dst
  }

  /** Two listings of one edge multiset. */
  ghost predicate SameEdges(a: seq<Edge>, b: seq<Edge>) {
    multiset(a) == multiset(b)
  }

  lemma SameEdgesMembers(a: seq<Edge>, b: seq<Edge>)
    requires SameEdges(a, b)
    ensures forall e :: e in a <==> e in b
  {
    forall e ensures e in a <==> e in b {
      assert e in a <==> e in multiset(a);
      assert e in b <==> e in multiset(b);
    }
  }

  lemma SameEdgesInRange(a: seq<Edge>, b: seq<Edge>, n: nat)
    requires SameEdges(a, b) && InRange(a, n)
    ensures InRange(b, n)
  {
    SameEdgesMembers(a, b);
    forall k | 0 <= k < |b| ensures b[k].src < n && b[k].dst < n {
      assert b[k] in a;
    }
  }

  /**
   * first_src on an ordered_by_source list: the first edge leaving id at or after
   * position `from`. The iterator itself stays at `it` when there is none.
   */
  method FirstSrc(edges: seq<Edge>, it: nat, from: nat, id: nat) returns (found: bool, pos: nat)
    requires from <= |edges|
    ensures found <==> exists k :: from <= k < |edges| && edges[k].src == id
    ensures found ==> from <= pos < |edges| && edges[pos].src == id
    ensures found ==> forall k :: from <= k < pos ==> edges[k].src != id
    ensures !found ==> pos == it
  {
    pos := from;
    while pos < |edges| && edges[pos].src != id
      invariant from <= pos <= |edges|
      invariant forall k :: from <= k < pos ==> edges[k].src != id
    {
      pos := pos + 1;
    }
    found := pos < |edges|;
    if !found {
      pos := it;
    }
  }

  /** first_dst on an ordered_by_dest list. */
  method FirstDst(edges: seq<Edge>, it: nat, from: nat, id: nat) returns (found: bool, pos: nat)
    requires from <= |edges|
    ensures found <==> exists k :: from <= k < |edges| && edges[k].dst == id
    ensures found ==> from <= pos < |edges| && edges[pos].dst == id
    ensures found ==> forall k :: from <= k < pos ==> edges[k].dst != id
    ensures !found ==> pos == it
  {
    pos := from;
    while pos < |edges| && edges[pos].dst != id
      invariant from <= pos <= |edges|
      invariant forall k :: from <= k < pos ==> edges[k].dst != id
    {
      pos := pos + 1;
    }
    found := pos < |edges|;
    if !found {
      pos := it;
    }
  }

  /** next_src: step once, and report whether the edge there still leaves the same vertex. */
  function NextSrc(edges: seq<Edge>, it: nat): (more: bool)
    requires it < |edges|
  {
    it + 1 < |edges| && edges[it + 1].src == edges[it].src
  }

  /** next_dst: step once, and report whether the edge there still enters the same vertex. */
  function NextDst(edges: seq<Edge>, it: nat): (more: bool)
    requires it < |edges|
  {
    it + 1 < |edges| && edges[it + 1].dst == edges[it].dst
  }

  function Sum(s: seq<nat>): nat {
    if s == [] then 0 else s[0] + Sum(s[1..])
  }

  lemma SumUpdate(s: seq<nat>, i: nat, x: nat)
    requires i < |s|
    ensures Sum(s[i := x]) == Sum(s) - s[i] + x
  {
    if i == 0 {
      assert s[0 := x][1..] == s[1..];
    } else {
      assert s[i := x][1..] == s[1..][i - 1 := x];
      SumUpdate(s[1..], i - 1, x);
    }
  }

  function CountTrue(s: seq<bool>): nat {
    if s == [] then 0 else (if s[0] then 1 else 0) + CountTrue(s[1..])
  }

  lemma CountTrueUpdate(s: seq<bool>, i: nat)
    requires i < |s| && !s[i]
    ensures CountTrue(s[i := true]) == CountTrue(s) + 1
  {
    if i == 0 {
      assert s[0 := true][1..] == s[1..];
    } else {
      assert s[i := true][1..] == s[1..][i - 1 := true];
      CountTrueUpdate(s[1..], i - 1);
    }
  }

  lemma CountTrueZero(s: seq<bool>)
    ensures CountTrue(s) == 0 <==> forall i :: 0 <= i < |s| ==> !s[i]
  {
    if s != [] {
      CountTrueZero(s[1..]);
      assert forall i :: 1 <= i < |s| ==> s[i] == s[1..][i - 1];
      assert forall i :: 0 <= i < |s| - 1 ==> s[1..][i] == s[i + 1];
    }
  }

  lemma CountTrueAll(s: seq<bool>)
    requires forall i :: 0 <= i < |s| ==> s[i]
    ensures CountTrue(s) == |s|
  {
    if s != [] {
      CountTrueAll(s[1..]);
    }
  }
}
