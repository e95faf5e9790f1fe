/** Bottom-up BFS over CSC rows, with early break (cpp/examples/bfs_pull_example.cc). */
module BfsPull {
  import opened Graph
  import opened Bfs

  /** The do/while over the incoming edges of an unlabelled vertex, which breaks at the
      first one that comes from the frontier (lines 66-73). */
  method ProbeRow(edges: seq<Edge>, distance: array<int>, iter: nat, vid: nat, first: nat,
                  ghost dist0: seq<int>, count: nat) returns (count': nat, it: nat)
    requires SortedByDst(edges) && vid < distance.Length
    requires Sweeping(edges, dist0, distance[..], iter, count) && distance[vid] == -1
    requires forall k: nat :: k < |edges| && edges[k].dst < vid ==> Settled(edges, dist0, distance[..], iter, k)
    requires first < |edges| && edges[first].dst == vid && forall k :: 0 <= k < first ==> edges[k].dst < vid
    modifies distance
    ensures Sweeping(edges, dist0, distance[..], iter, count')
    ensures forall k: nat :: k < |edges| && edges[k].dst <= vid ==> Settled(edges, dist0, distance[..], iter, k)
    ensures it <= |edges| && forall k :: 0 <= k < it ==> edges[k].dst <= vid
  {
    it := first;
    count' := count;
    var more := true;
    while more
      invariant first <= it <= |edges|
      invariant more ==> it < |edges| && edges[it].dst == vid
      invariant !more ==> forall k :: 0 <= k < |edges| && edges[k].dst == vid ==> k < it
      invariant forall k :: 0 <= k < it ==> edges[k].dst <= vid
      invariant distance[..] == old(distance[..]) && count' == count
      invariant forall k: nat :: k < |edges| && (edges[k].dst < vid || (edges[k].dst == vid && k < it)) ==>
        Settled(edges, dist0, distance[..], iter, k)
      decreases |edges| - it, more
    {
      var src, dst := edges[it].src, edges[it].dst;
      if distance[src] == iter {
        ghost var dist := distance[..];
        LabelStep(edges, dist0, dist, iter, count, it);
        distance[dst] := distance[src] + 1;
        count' := count' + 1;
        assert distance[..] == dist[dst := iter + 1];
        break;
      }
      more := NextDst(edges, it);
      it := it + 1;
    }
  }

  /** One sweep in vertex order (lines 60-75). */
  method Sweep(edges: seq<Edge>, distance: array<int>, iter: nat) returns (count: nat)
    requires InRange(edges, distance.Length) && SortedByDst(edges)
    modifies distance
    ensures distance[..] == Expand(edges, old(distance[..]), iter)
    ensures Unlabelled(distance[..]) + count == Unlabelled(old(distance[..]))
    ensures count == 0 ==> distance[..] == old(distance[..])
  {
    count := 0;
    ghost var dist0 := distance[..];
    var it: nat := 0;
    for vid := 0 to distance.Length
      invariant it <= |edges| && forall k :: 0 <= k < it ==> edges[k].dst < vid
      invariant Sweeping(edges, dist0, distance[..], iter, count)
      invariant forall k: nat :: k < |edges| && edges[k].dst < vid ==> Settled(edges, dist0, distance[..], iter, k)
    {
      if distance[vid] == -1 {
        var found, pos := FirstDst(edges, it, it, vid);
        if !found {
          continue;
        }
        count, it := ProbeRow(edges, distance, iter, vid, pos, dist0, count);
      }
    }
    SweptIsExpand(edges, dist0, distance[..], iter, count);
  }

  /** The whole example: the shortest distances from root. */
  method BfsDistances(n: nat, edges: seq<Edge>, root: nat) returns (distance: array<int>)
    requires InRange(edges, n) && SortedByDst(edges)
    ensures distance.Length == n && ShortestDistances(edges, root, distance[..])
  {
    distance := new int[n](i => if i == root then 0 else -1);
    ExactInitially(edges, root, distance[..]);
    var iter := 0;
    while true
      invariant iter >= 0 && ExactUpTo(edges, root, distance[..], iter)
      decreases Unlabelled(distance[..])
    {
      ghost var dist0 := distance[..];
      var count := Sweep(edges, distance, iter);
      if count == 0 {
        FixpointIsShortest(edges, root, dist0, iter);
        break;
      }
      ExpandKeepsExact(edges, root, dist0, iter);
      iter := iter + 1;
    }
  }
}
