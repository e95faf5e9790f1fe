/**
 * What breadth-first search computes, and the one-level expansion that every BFS example
 * (stream, push, pull, father) performs per iteration in its own order.
 */
module Bfs {
  import opened Graph

  /** p follows edges in their direction. */
  ghost predicate IsPath(edges: seq<Edge>, p: seq<nat>) {
    p != [] && forall i :: 0 <= i < |p| - 1 ==> Edge(p[i], p[i + 1]) in edges
  }

  /** Some directed path from u to v has exactly len edges. */
  ghost predicate HasPath(edges: seq<Edge>, u: nat, v: nat, len: nat) {
    exists p :: IsPath(edges, p) && |p| == len + 1 && p[0] == u && p[len] == v
  }

  lemma EmptyPath(edges: seq<Edge>, u: nat)
    ensures HasPath(edges, u, u, 0)
  {
    var p := [u];
    assert IsPath(edges, p) && p[0] == u;
  }

  lemma ZeroPath(edges: seq<Edge>, u: nat, v: nat)
    requires HasPath(edges, u, v, 0)
    ensures u == v
  {
  }

  lemma ExtendPath(edges: seq<Edge>, u: nat, v: nat, w: nat, len: nat)
    requires HasPath(edges, u, v, len) && Edge(v, w) in edges
    ensures HasPath(edges, u, w, len + 1)
  {
    var p :| IsPath(edges, p) && |p| == len + 1 && p[0] == u && p[len] == v;
    var q := p + [w];
    assert IsPath(edges, q) && |q| == len + 2 && q[0] == u && q[len + 1] == w;
  }

  lemma LastEdge(edges: seq<Edge>, u: nat, w: nat, len: nat) returns (v: nat)
    requires len > 0 && HasPath(edges, u, w, len)
    ensures HasPath(edges, u, v, len - 1) && Edge(v, w) in edges
  {
    var p :| IsPath(edges, p) && |p| == len + 1 && p[0] == u && p[len] == w;
    v := p[len - 1];
    var q := p[..len];
    assert IsPath(edges, q) && |q| == len && q[0] == u && q[len - 1] == v;
    assert Edge(p[len - 1], p[len - 1 + 1]) in edges;
  }

  lemma MoreEdgesMorePaths(few: seq<Edge>, many: seq<Edge>, u: nat, v: nat, len: nat)
    requires forall e :: e in few ==> e in many
    requires HasPath(few, u, v, len)
    ensures HasPath(many, u, v, len)
  {
    var p :| IsPath(few, p) && |p| == len + 1 && p[0] == u && p[len] == v;
    assert IsPath(many, p);
  }

  /** dist[v] is the length of a shortest path from root to v, or -1 when there is none. */
  ghost predicate ShortestDistances(edges: seq<Edge>, root: nat, dist: seq<int>) {
    forall v: nat :: v < |dist| ==>
      && dist[v] >= -1
      && (dist[v] >= 0 ==> HasPath(edges, root, v, dist[v]))
      && forall len: nat :: HasPath(edges, root, v, len) ==> 0 <= dist[v] <= len
  }

  /** The distances depend on the edge set alone, so all BFS variants agree on it. */
  lemma ShortestDistancesUnique(edges: seq<Edge>, edges': seq<Edge>, root: nat, a: seq<int>, b: seq<int>)
    requires SameEdges(edges, edges') && |a| == |b|
    requires ShortestDistances(edges, root, a) && ShortestDistances(edges', root, b)
    ensures a == b
  {
    SameEdgesMembers(edges, edges');
    forall v: nat | v < |a| ensures a[v] == b[v] {
      if a[v] >= 0 { MoreEdgesMorePaths(edges, edges', root, v, a[v]); }
      if b[v] >= 0 { MoreEdgesMorePaths(edges', edges, root, v, b[v]); }
    }
  }

  /** v is entered by an edge from the frontier, the vertices at distance iter. */
  ghost predicate Touched(edges: seq<Edge>, dist: seq<int>, iter: int, v: nat)
    requires InRange(edges, |dist|)
  {
    exists k :: 0 <= k < |edges| && edges[k].dst == v && dist[edges[k].src] == iter
  }

  /** One level of BFS: every unlabelled vertex the frontier touches gets distance iter + 1. */
  ghost function Expand(edges: seq<Edge>, dist: seq<int>, iter: int): (r: seq<int>)
    requires InRange(edges, |dist|)
    ensures |r| == |dist|
    ensures forall v: nat :: v < |dist| ==>
      r[v] == if dist[v] == -1 && Touched(edges, dist, iter, v) then iter + 1 else dist[v]
  {
    seq(|dist|, v requires 0 <= v < |dist| =>
      if dist[v] == -1 && Touched(edges, dist, iter, v) then iter + 1 else dist[v])
  }

  /** The labels up to level iter are exactly the shortest distances up to iter. */
  ghost predicate ExactUpTo(edges: seq<Edge>, root: nat, dist: seq<int>, iter: nat) {
    forall v: nat :: v < |dist| ==>
      && -1 <= dist[v] <= iter
      && (dist[v] >= 0 ==> HasPath(edges, root, v, dist[v]))
      && forall len: nat :: len <= iter && HasPath(edges, root, v, len) ==> 0 <= dist[v] <= len
  }

  ghost predicate InitialDistances(root: nat, dist: seq<int>) {
    forall v: nat :: v < |dist| ==> dist[v] == if v == root then 0 else -1
  }

  lemma ExactInitially(edges: seq<Edge>, root: nat, dist: seq<int>)
    requires InitialDistances(root, dist)
    ensures ExactUpTo(edges, root, dist, 0)
  {
    EmptyPath(edges, root);
    forall v: nat, len: nat | v < |dist| && len <= 0 && HasPath(edges, root, v, len)
      ensures 0 <= dist[v] <= len
    {
      ZeroPath(edges, root, v);
    }
  }

  /** A path to v of length at most iter + 1 is answered by one expansion. */
  lemma PathAfterExpand(edges: seq<Edge>, root: nat, dist: seq<int>, iter: nat, v: nat, len: nat)
    requires InRange(edges, |dist|) && ExactUpTo(edges, root, dist, iter)
    requires v < |dist| && len <= iter + 1 && HasPath(edges, root, v, len)
    ensures 0 <= Expand(edges, dist, iter)[v] <= len
  {
    if len == iter + 1 {
      var u := LastEdge(edges, root, v, len);
      var k :| 0 <= k < |edges| && edges[k] == Edge(u, v);
      assert 0 <= dist[u] <= iter;
      if dist[u] < iter {
        ExtendPath(edges, root, u, v, dist[u]);
      } else {
        assert Touched(edges, dist, iter, v);
      }
    }
  }

  lemma ExpandKeepsExact(edges: seq<Edge>, root: nat, dist: seq<int>, iter: nat)
    requires InRange(edges, |dist|) && ExactUpTo(edges, root, dist, iter)
    ensures ExactUpTo(edges, root, Expand(edges, dist, iter), iter + 1)
  {
    var r := Expand(edges, dist, iter);
    forall v: nat | v < |dist|
      ensures -1 <= r[v] <= iter + 1
      ensures r[v] >= 0 ==> HasPath(edges, root, v, r[v])
      ensures forall len: nat :: len <= iter + 1 && HasPath(edges, root, v, len) ==> 0 <= r[v] <= len
    {
      if dist[v] == -1 && Touched(edges, dist, iter, v) {
        var k :| 0 <= k < |edges| && edges[k].dst == v && dist[edges[k].src] == iter;
        assert edges[k] == Edge(edges[k].src, v);
        ExtendPath(edges, root, edges[k].src, v, iter);
      }
      forall len: nat | len <= iter + 1 && HasPath(edges, root, v, len) ensures 0 <= r[v] <= len {
        PathAfterExpand(edges, root, dist, iter, v, len);
      }
    }
  }

  /** When an expansion adds nothing, every path of any length is answered. */
  lemma {:induction false} PathAfterFixpoint(edges: seq<Edge>, root: nat, dist: seq<int>, iter: nat, v: nat, len: nat)
    requires InRange(edges, |dist|) && ExactUpTo(edges, root, dist, iter)
    requires Expand(edges, dist, iter) == dist
    requires v < |dist| && HasPath(edges, root, v, len)
    ensures 0 <= dist[v] <= len
    decreases len
  {
    if len > iter {
      var u := LastEdge(edges, root, v, len);
      var k :| 0 <= k < |edges| && edges[k] == Edge(u, v);
      PathAfterFixpoint(edges, root, dist, iter, u, len - 1);
      ExtendPath(edges, root, u, v, dist[u]);
      PathAfterExpand(edges, root, dist, iter, v, dist[u] + 1);
    }
  }

  lemma FixpointIsShortest(edges: seq<Edge>, root: nat, dist: seq<int>, iter: nat)
    requires InRange(edges, |dist|) && ExactUpTo(edges, root, dist, iter)
    requires Expand(edges, dist, iter) == dist
    ensures ShortestDistances(edges, root, dist)
  {
    forall v: nat, len: nat | v < |dist| && HasPath(edges, root, v, len) ensures 0 <= dist[v] <= len {
      PathAfterFixpoint(edges, root, dist, iter, v, len);
    }
  }

  /** How many vertices still carry -1: the termination measure of every variant. */
  function Unlabelled(dist: seq<int>): nat {
    if dist == [] then 0 else (if dist[0] == -1 then 1 else 0) + Unlabelled(dist[1..])
  }

  lemma UnlabelledUpdate(dist: seq<int>, v: nat, d: nat)
    requires v < |dist| && dist[v] == -1
    ensures Unlabelled(dist[v := d]) == Unlabelled(dist) - 1
  {
    if v == 0 {
      assert dist[0 := d][1..] == dist[1..];
    } else {
      assert dist[v := d][1..] == dist[1..][v - 1 := d];
      UnlabelledUpdate(dist[1..], v - 1, d);
    }
  }

  /** A sweep in progress from labels dist0: it has only labelled touched vertices, with
      iter + 1, and counted each of them. */
  ghost predicate Sweeping(edges: seq<Edge>, dist0: seq<int>, dist: seq<int>, iter: nat, count: nat) {
    && |dist| == |dist0|
    && InRange(edges, |dist0|)
    && (forall v: nat :: v < |dist| ==>
         dist[v] == dist0[v] || (dist0[v] == -1 && dist[v] == iter + 1 && Touched(edges, dist0, iter, v)))
    && Unlabelled(dist) + count == Unlabelled(dist0)
    && (count == 0 ==> dist == dist0)
  }

  /** Edge k has been accounted for: if it leaves the frontier, its head is labelled. */
  ghost predicate Settled(edges: seq<Edge>, dist0: seq<int>, dist: seq<int>, iter: nat, k: nat)
    requires |dist| == |dist0| && InRange(edges, |dist|) && k < |edges|
  {
    dist0[edges[k].src] == iter ==> dist[edges[k].dst] != -1
  }

  /** Labelling the head of a frontier edge keeps a sweep going. */
  lemma LabelStep(edges: seq<Edge>, dist0: seq<int>, dist: seq<int>, iter: nat, count: nat, k: nat)
    requires Sweeping(edges, dist0, dist, iter, count)
    requires k < |edges| && dist[edges[k].src] == iter && dist[edges[k].dst] == -1
    ensures Sweeping(edges, dist0, dist[edges[k].dst := iter + 1], iter, count + 1)
    ensures forall j: nat :: j < |edges| && (Settled(edges, dist0, dist, iter, j) || edges[j].dst == edges[k].dst) ==>
      Settled(edges, dist0, dist[edges[k].dst := iter + 1], iter, j)
  {
    UnlabelledUpdate(dist, edges[k].dst, iter + 1);
    assert Touched(edges, dist0, iter, edges[k].dst);
  }

  /** A sweep that has settled every edge has performed the expansion, whatever its order. */
  lemma SweptIsExpand(edges: seq<Edge>, dist0: seq<int>, dist: seq<int>, iter: nat, count: nat)
    requires Sweeping(edges, dist0, dist, iter, count)
    requires forall k :: 0 <= k < |edges| ==> Settled(edges, dist0, dist, iter, k)
    ensures dist == Expand(edges, dist0, iter)
  {
    forall v: nat | v < |dist| ensures dist[v] == Expand(edges, dist0, iter)[v] {
      if dist0[v] == -1 && Touched(edges, dist0, iter, v) {
        var k :| 0 <= k < |edges| && edges[k].dst == v && dist0[edges[k].src] == iter;
        assert Settled(edges, dist0, dist, iter, k);
      }
    }
  }
}
