/** Top-down BFS over CSR rows (cpp/examples/bfs_push_example.cc). */
module BfsPush {
  import opened Graph
  import opened Bfs

  /** The do/while over the outgoing edges of a frontier vertex (lines 66-72). */
  method ExpandRow(edges: seq<Edge>, distance: array<int>, iter: nat, vid: nat, first: nat,
                   ghost dist0: seq<int>, count: nat) returns (count': nat, it: nat)
    requires SortedBySrc(edges) && vid < distance.Length
    requires Sweeping(edges, dist0, distance[..], iter, count) && distance[vid] == iter
    requires forall k: nat :: k < |edges| && edges[k].src < vid ==> Settled(edges, dist0, distance[..], iter, k)
    requires first < |edges| && edges[first].src == vid && forall k :: 0 <= k < first ==> edges[k].src < vid
    modifies distance
    ensures Sweeping(edges, dist0, distance[..], iter, count')
    ensures forall k: nat :: k < |edges| && edges[k].src <= vid ==> Settled(edges, dist0, distance[..], iter, k)
    ensures it <= |edges| && forall k :: 0 <= k < it ==> edges[k].src <= vid
  {
    it := first;
    count' := count;
    var more := true;
    while more
      invariant first <= it <= |edges|
      invariant more ==> it < |edges| && edges[it].src == vid
      invariant !more ==> forall k :: 0 <= k < |edges| && edges[k].src == vid ==> k < it
      invariant forall k :: 0 <= k < it ==> edges[k].src <= vid
      invariant distance[vid] == iter && Sweeping(edges, dist0, distance[..], iter, count')
      invariant forall k: nat :: k < |edges| && (edges[k].src < vid || (edges[k].src == vid && k < it)) ==>
        Settled(edges, dist0, distance[..], iter, k)
      decreases |edges| - it, more
    {
      var src, dst := edges[it].src, edges[it].dst;
      if distance[dst] == -1 {
        ghost var dist := distance[..];
        LabelStep(edges, dist0, dist, iter, count', it);
        distance[dst] := distance[src] + 1;
        count' := count' + 1;
        assert distance[..] == dist[dst := iter + 1];
      }
      more := NextSrc(edges, it);
      it := it + 1;
    }
  }

  /** One sweep in vertex order (lines 60-74). Vertices labelled during the sweep carry
      iter + 1 and are not expanded by it. */
  method Sweep(edges: seq<Edge>, distance: array<int>, iter: nat) returns (count: nat)
    requires InRange(edges, distance.Length) && SortedBySrc(edges)
    modifies distance
    ensures distance[..] == Expand(edges, old(distance[..]), iter)
    ensures Unlabelled(distance[..]) + count == Unlabelled(old(distance[..]))
    ensures count == 0 ==> distance[..] == old(distance[..])
  {
    count := 0;
    ghost var dist0 := distance[..];
    var it: nat := 0;
    for vid := 0 to distance.Length
      invariant it <= |edges| && forall k :: 0 <= k < it ==> edges[k].src < vid
      invariant Sweeping(edges, dist0, distance[..], iter, count)
      invariant forall k: nat :: k < |edges| && edges[k].src < vid ==> Settled(edges, dist0, distance[..], iter, k)
    {
      if distance[vid] == iter {
        var found, pos := FirstSrc(edges, it, it, vid);
        if !found {
          continue;
        }
        count, it := ExpandRow(edges, distance, iter, vid, pos, dist0, count);
      }
    }
    SweptIsExpand(edges, dist0, distance[..], iter, count);
  }

  /** The whole example: the shortest distances from root. */
  method BfsDistances(n: nat, edges: seq<Edge>, root: nat) returns (distance: array<int>)
    requires InRange(edges, n) && SortedBySrc(edges)
    ensures distance.Length == n && ShortestDistances(edges, root, distance[..])
  {
    distance := new int[n](i => if i == root then 0 else -1);
    ExactInitially(edges, root, distance[..]);
    var iter := 0;
    while true
      invariant iter >= 0 && ExactUpTo(edges, root, distance[..], iter)
      decreases Unlabelled(distance[..])
    {
      ghost var dist0 := distance[..];
      var count := Sweep(edges, distance, iter);
      if count == 0 {
        FixpointIsShortest(edges, root, dist0, iter);
        break;
      }
      ExpandKeepsExact(edges, root, dist0, iter);
      iter := iter + 1;
    }
  }
}
