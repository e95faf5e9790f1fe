/** BFS by repeated passes over an unordered edge stream (cpp/examples/bfs_stream_example.cc). */
module BfsStream {
  import opened Graph
  import opened Bfs

  /** One pass (lines 58-65): the expansion of level iter, for every edge order. */
  method Pass(edges: seq<Edge>, distance: array<int>, iter: nat) returns (count: nat)
    requires InRange(edges, distance.Length)
    modifies distance
    ensures distance[..] == Expand(edges, old(distance[..]), iter)
    ensures Unlabelled(distance[..]) + count == Unlabelled(old(distance[..]))
    ensures count == 0 ==> distance[..] == old(distance[..])
  {
    count := 0;
    ghost var dist0 := distance[..];
    for it := 0 to |edges|
      invariant Sweeping(edges, dist0, distance[..], iter, count)
      invariant forall k: nat :: k < it ==> Settled(edges, dist0, distance[..], iter, k)
    {
      var src, dst := edges[it].src, edges[it].dst;
      if distance[src] == iter && distance[dst] == -1 {
        ghost var dist := distance[..];
        LabelStep(edges, dist0, dist, iter, count, it);
        distance[dst] := distance[src] + 1;
        count := count + 1;
        assert distance[..] == dist[dst := iter + 1];
      }
    }
    SweptIsExpand(edges, dist0, distance[..], iter, count);
  }

  /** The whole example: it terminates with the shortest distances from root. */
  method BfsDistances(n: nat, edges: seq<Edge>, root: nat) returns (distance: array<int>)
    requires InRange(edges, n)
    ensures distance.Length == n && ShortestDistances(edges, root, distance[..])
  {
    distance := new int[n](i => if i == root then 0 else -1);
    ExactInitially(edges, root, distance[..]);
    var iter := 0;
    while true
      invariant iter >= 0 && ExactUpTo(edges, root, distance[..], iter)
      decreases Unlabelled(distance[..])
    {
      ghost var dist0 := distance[..];
      var count := Pass(edges, distance, iter);
      if count == 0 {
        FixpointIsShortest(edges, root, dist0, iter);
        break;
      }
      ExpandKeepsExact(edges, root, dist0, iter);
      iter := iter + 1;
    }
  }
}
