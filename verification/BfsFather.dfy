/**
 * BFS that also records a parent per vertex, and the graph of BFS-tree edges it emits
 * (cpp/examples/bfs_father_example.cc).
 */
module BfsFather {
  import opened Graph
  import opened Bfs

  /** The parent array describes a tree over the labelled vertices, one level per edge. */
  ghost predicate ParentTree(edges: seq<Edge>, root: nat, dist: seq<int>, pre: seq<int>) {
    && |pre| == |dist|
    && forall v: nat :: v < |dist| ==>
      && (dist[v] == 0 <==> v == root)
      && (v == root ==> pre[v] == root)
      && (dist[v] == -1 ==> pre[v] == -1)
      && dist[v] >= -1
      && (dist[v] > 0 ==>
           && 0 <= pre[v] < |dist|
           && Edge(pre[v], v) in edges
           && dist[v] == dist[pre[v]] + 1)
  }

  /** ParentTree while iteration iter is still adding vertices at distance iter + 1. */
  lemma AdoptStep(edges: seq<Edge>, root: nat, dist: seq<int>, pre: seq<int>, iter: nat, k: nat)
    requires ParentTree(edges, root, dist, pre) && InRange(edges, |dist|)
    requires k < |edges| && dist[edges[k].src] == iter && dist[edges[k].dst] == -1
    ensures ParentTree(edges, root, dist[edges[k].dst := iter + 1], pre[edges[k].dst := edges[k].src])
  {
    assert edges[k] == Edge(edges[k].src, edges[k].dst);
  }

  /** One pass over the edge stream (lines 61-69). */
  method Pass(edges: seq<Edge>, distance: array<int>, pre: array<int>, iter: nat, ghost root: nat) returns (count: nat)
    requires InRange(edges, distance.Length) && distance != pre
    requires ParentTree(edges, root, distance[..], pre[..])
    modifies distance, pre
    ensures distance[..] == Expand(edges, old(distance[..]), iter)
    ensures Unlabelled(distance[..]) + count == Unlabelled(old(distance[..]))
    ensures count == 0 ==> distance[..] == old(distance[..])
    ensures ParentTree(edges, root, distance[..], pre[..])
  {
    hide Expand, Unlabelled;
    count := 0;
    ghost var dist0 := distance[..];
    for it := 0 to |edges|
      invariant Sweeping(edges, dist0, distance[..], iter, count)
      invariant forall k: nat :: k < it ==> Settled(edges, dist0, distance[..], iter, k)
      invariant ParentTree(edges, root, distance[..], pre[..])
    {
      var src, dst := edges[it].src, edges[it].dst;
      if distance[src] == iter && distance[dst] == -1 {
        ghost var dist, parents := distance[..], pre[..];
        LabelStep(edges, dist0, dist, iter, count, it);
        AdoptStep(edges, root, dist, parents, iter, it);
        distance[dst] := distance[src] + 1;
        pre[dst] := src;
        count := count + 1;
        assert distance[..] == dist[dst := iter + 1];
        assert pre[..] == parents[dst := src];
      }
    }
    SweptIsExpand(edges, dist0, distance[..], iter, count);
  }

  /** The traversal: shortest distances, and a parent array that is a shortest-path tree. */
  method BfsParents(n: nat, edges: seq<Edge>, root: nat) returns (distance: array<int>, pre: array<int>)
    requires InRange(edges, n)
    ensures distance.Length == pre.Length == n
    ensures ShortestDistances(edges, root, distance[..])
    ensures ParentTree(edges, root, distance[..], pre[..])
  {
    distance := new int[n](i => if i == root then 0 else -1);
    pre := new int[n](i => if i == root then root else -1);
    ExactInitially(edges, root, distance[..]);
    var iter := 0;
    while true
      invariant iter >= 0 && ExactUpTo(edges, root, distance[..], iter)
      invariant ParentTree(edges, root, distance[..], pre[..])
      decreases Unlabelled(distance[..])
    {
      ghost var dist0 := distance[..];
      var count := Pass(edges, distance, pre, iter, root);
      if count == 0 {
        FixpointIsShortest(edges, root, dist0, iter);
        break;
      }
      ExpandKeepsExact(edges, root, dist0, iter);
      iter := iter + 1;
    }
  }

  /** The vertex reached from v by following pre k times. */
  ghost function Ancestor(pre: seq<int>, v: int, k: nat): int
    decreases k
  {
    if k == 0 then v
    else if 0 <= v < |pre| then Ancestor(pre, pre[v], k - 1)
    else -1
  }

  /** Following pre reaches root after exactly dist[v] steps, and not before. */
  lemma {:induction false} AncestorIsRoot(edges: seq<Edge>, root: nat, dist: seq<int>, pre: seq<int>, v: nat)
    requires ParentTree(edges, root, dist, pre) && v < |dist| && dist[v] >= 0
    ensures Ancestor(pre, v, dist[v]) == root
    ensures forall k: nat :: k < dist[v] ==> Ancestor(pre, v, k) != root
    decreases dist[v]
  {
    if dist[v] > 0 {
      AncestorIsRoot(edges, root, dist, pre, pre[v]);
      forall k: nat | k < dist[v] ensures Ancestor(pre, v, k) != root {
        if k > 0 {
          assert Ancestor(pre, v, k) == Ancestor(pre, pre[v], k - 1);
        }
      }
    }
  }

  /** The edges of the BFS tree, in the order the second half of the example adds them. */
  method EmitTree(root: nat, pre: array<int>) returns (tree: seq<Edge>)
    requires forall v :: 0 <= v < pre.Length ==> pre[v] >= -1
    ensures tree == TreeEdges(root, pre[..], pre.Length)
  {
    tree := [];
    for i := 0 to pre.Length
      invariant tree == TreeEdges(root, pre[..], i)
    {
      if i == root || pre[i] == -1 {
        continue;
      }
      tree := tree + [Edge(pre[i], i)];
    }
  }

  ghost function TreeEdges(root: nat, pre: seq<int>, m: nat): seq<Edge>
    requires m <= |pre| && forall v :: 0 <= v < |pre| ==> pre[v] >= -1
  {
    if m == 0 then []
    else if m - 1 == root || pre[m - 1] == -1 then TreeEdges(root, pre, m - 1)
    else TreeEdges(root, pre, m - 1) + [Edge(pre[m - 1], m - 1)]
  }

  lemma {:induction false} TreeEdgesMembers(root: nat, pre: seq<int>, m: nat)
    requires m <= |pre| && forall v :: 0 <= v < |pre| ==> pre[v] >= -1
    ensures forall e :: e in TreeEdges(root, pre, m) <==>
      e.dst < m && e.dst != root && pre[e.dst] != -1 && pre[e.dst] == e.src
  {
    if m > 0 {
      TreeEdgesMembers(root, pre, m - 1);
    }
  }

  /** One emitted edge per reached vertex below m other than root. */
  lemma {:induction false} TreeEdgesCount(edges: seq<Edge>, root: nat, dist: seq<int>, pre: seq<int>, m: nat)
    requires ParentTree(edges, root, dist, pre) && m <= |pre|
    requires forall v :: 0 <= v < |pre| ==> pre[v] >= -1
    ensures |TreeEdges(root, pre, m)| + Unlabelled(dist[..m]) + (if root < m then 1 else 0) == m
  {
    if m > 0 {
      TreeEdgesCount(edges, root, dist, pre, m - 1);
      UnlabelledSnoc(dist[..m - 1], dist[m - 1]);
      assert dist[..m] == dist[..m - 1] + [dist[m - 1]];
    }
  }

  /** Their heads increase, so no two edges enter one vertex. */
  lemma {:induction false} TreeEdgesIncrease(root: nat, pre: seq<int>, m: nat)
    requires m <= |pre| && forall v :: 0 <= v < |pre| ==> pre[v] >= -1
    ensures forall i, j :: 0 <= i < j < |TreeEdges(root, pre, m)| ==>
      TreeEdges(root, pre, m)[i].dst < TreeEdges(root, pre, m)[j].dst
  {
    if m > 0 {
      TreeEdgesIncrease(root, pre, m - 1);
      TreeEdgesMembers(root, pre, m - 1);
      var shorter := TreeEdges(root, pre, m - 1);
      forall i | 0 <= i < |shorter| ensures shorter[i].dst < m - 1 {
        assert shorter[i] in shorter;
      }
    }
  }

  lemma UnlabelledSnoc(s: seq<int>, d: int)
    ensures Unlabelled(s + [d]) == Unlabelled(s) + if d == -1 then 1 else 0
  {
    if s != [] {
      UnlabelledSnoc(s[1..], d);
      assert (s + [d])[1..] == s[1..] + [d];
    }
  }

  lemma {:induction false} TreePath(edges: seq<Edge>, root: nat, dist: seq<int>, pre: seq<int>, v: nat)
    requires ParentTree(edges, root, dist, pre) && v < |dist| && dist[v] >= 0
    requires forall v :: 0 <= v < |pre| ==> pre[v] >= -1
    ensures HasPath(TreeEdges(root, pre, |pre|), root, v, dist[v])
    decreases dist[v]
  {
    var tree := TreeEdges(root, pre, |pre|);
    if dist[v] == 0 {
      EmptyPath(tree, root);
    } else {
      TreePath(edges, root, dist, pre, pre[v]);
      TreeEdgesMembers(root, pre, |pre|);
      assert Edge(pre[v], v) in tree;
      ExtendPath(tree, root, pre[v], v, dist[pre[v]]);
    }
  }

  lemma TreeIsSubgraph(edges: seq<Edge>, root: nat, dist: seq<int>, pre: seq<int>)
    requires ParentTree(edges, root, dist, pre)
    requires forall v :: 0 <= v < |pre| ==> pre[v] >= -1
    ensures forall e :: e in TreeEdges(root, pre, |pre|) ==> e in edges
  {
    TreeEdgesMembers(root, pre, |pre|);
    forall e | e in TreeEdges(root, pre, |pre|) ensures e in edges {
      assert dist[e.dst] > 0;
    }
  }

  /** The tree's paths are as short as the graph's, and it reaches nothing else. */
  lemma TreeKeepsDistances(edges: seq<Edge>, root: nat, dist: seq<int>, pre: seq<int>)
    requires ParentTree(edges, root, dist, pre) && ShortestDistances(edges, root, dist)
    requires forall v :: 0 <= v < |pre| ==> pre[v] >= -1
    ensures ShortestDistances(TreeEdges(root, pre, |pre|), root, dist)
  {
    hide HasPath, TreeEdges;
    var tree := TreeEdges(root, pre, |pre|);
    TreeIsSubgraph(edges, root, dist, pre);
    forall v: nat | v < |dist|
      ensures dist[v] >= 0 ==> HasPath(tree, root, v, dist[v])
      ensures forall len: nat :: HasPath(tree, root, v, len) ==> 0 <= dist[v] <= len
    {
      if dist[v] >= 0 {
        TreePath(edges, root, dist, pre, v);
      }
      forall len: nat | HasPath(tree, root, v, len) ensures 0 <= dist[v] <= len {
        MoreEdgesMorePaths(tree, edges, root, v, len);
      }
    }
  }

  /**
   * The emitted edges span the reached vertices: they are edges of the graph, they keep
   * every shortest distance and reach nothing else, and there is exactly one for each
   * reached vertex other than root.
   */
  lemma TreeSpans(edges: seq<Edge>, root: nat, dist: seq<int>, pre: seq<int>)
    requires ParentTree(edges, root, dist, pre) && ShortestDistances(edges, root, dist)
    requires forall v :: 0 <= v < |pre| ==> pre[v] >= -1
    requires root < |dist|
    ensures var tree := TreeEdges(root, pre, |pre|);
      && (forall e :: e in tree ==> e in edges)
      && ShortestDistances(tree, root, dist)
      && |tree| == |dist| - Unlabelled(dist) - 1
      && forall i, j :: 0 <= i < j < |tree| ==> tree[i].dst < tree[j].dst
  {
    assert dist[..|pre|] == dist;
    hide ShortestDistances;
    TreeIsSubgraph(edges, root, dist, pre);
    TreeKeepsDistances(edges, root, dist, pre);
    TreeEdgesCount(edges, root, dist, pre, |pre|);
    TreeEdgesIncrease(root, pre, |pre|);
  }

  /** The whole example: distances, parents and the emitted tree together. */
  method BfsTree(n: nat, edges: seq<Edge>, root: nat)
    returns (distance: array<int>, pre: array<int>, tree: seq<Edge>)
    requires InRange(edges, n)
    ensures distance.Length == pre.Length == n
    ensures ShortestDistances(edges, root, distance[..]) && ParentTree(edges, root, distance[..], pre[..])
    ensures forall v: nat :: v < n && distance[v] >= 0 ==> Ancestor(pre[..], v, distance[v]) == root
    ensures root < n ==>
      && (forall e :: e in tree ==> e in edges)
      && ShortestDistances(tree, root, distance[..])
      && |tree| == n - Unlabelled(distance[..]) - 1
  {
    distance, pre := BfsParents(n, edges, root);
    tree := EmitTree(root, pre);
    forall v: nat | v < n && distance[v] >= 0 ensures Ancestor(pre[..], v, distance[v]) == root {
      AncestorIsRoot(edges, root, distance[..], pre[..], v);
    }
    if root < n {
      TreeSpans(edges, root, distance[..], pre[..]);
    }
  }
}
