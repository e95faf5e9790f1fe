/**
 * The examples that walk rows, driven by the iterator of a stored collection instead of a row
 * cursor: what they answer, and exactly when the iterator makes them throw.
 */
module StoredExamples {
  import opened Arith
  import opened Bfs
  import opened Components
  import opened ComponentsPush
  import opened EdgeIters
  import opened EdgeLayout
  import opened EdgesBuilders
  import opened Graph
  import opened Results
  import opened StoredGraphs
  import opened StoredRows
  import opened Types

  /** An iterator over a list ordered by this end of the edges, with its edges. */
  ghost predicate Lists(it: EdgeIter, t: AdjListType, edges: seq<Edge>) {
    it.adjListType == t && edges == Edges(it) && Opened(it)
  }

  lemma ListsSorted(it: EdgeIter, t: AdjListType, edges: seq<Edge>)
    requires Lists(it, t, edges)
    ensures t == OrderedBySource ==> SortedBySrc(edges)
    ensures t == OrderedByDest ==> SortedByDst(edges)
  {
  }

  /** No edge of vid up to `pos` ends a full tail. */
  ghost predicate NoTailBefore(it: EdgeIter, vid: nat, pos: nat)
    requires it.info.Validated()
  {
    forall k: nat :: k < pos && k < |Edges(it)| && Key(it.adjListType, Edges(it)[k]) == vid ==> !EndsFullTail(it, k)
  }

  lemma NoTailStart(it: EdgeIter, vid: nat, first: nat)
    requires it.info.Validated()
    requires forall k :: 0 <= k < first && k < |Edges(it)| ==> Key(it.adjListType, Edges(it)[k]) != vid
    ensures NoTailBefore(it, vid, first)
  {
  }

  /** What one next_* of the walk over vid's row adds: a tail, or one place without. */
  lemma NoTailStep(it: EdgeIter, vid: nat, pos: nat)
    requires it.info.Validated() && pos < |Edges(it)| && Key(it.adjListType, Edges(it)[pos]) == vid
    requires NoTailBefore(it, vid, pos)
    ensures EndsFullTail(it, pos) ==> TailRow(it, vid)
    ensures !EndsFullTail(it, pos) ==> NoTailBefore(it, vid, pos + 1)
  {
  }

  lemma NoTailEnd(it: EdgeIter, vid: nat, pos: nat)
    requires it.info.Validated() && NoTailBefore(it, vid, pos)
    requires forall k :: 0 <= k < |Edges(it)| && Key(it.adjListType, Edges(it)[k]) == vid ==> k < pos
    ensures !TailRow(it, vid)
  {
  }

  // ----- push BFS (cpp/examples/bfs_push_example.cc) -----

  /** The edges leaving vertices below vid are settled, and so are the first `pos` of those leaving vid. */
  ghost predicate SettledOut(edges: seq<Edge>, dist0: seq<int>, dist: seq<int>, iter: nat, vid: nat, pos: nat)
    requires |dist| == |dist0| && InRange(edges, |dist|)
  {
    forall k: nat :: k < |edges| && (edges[k].src < vid || (edges[k].src == vid && k < pos)) ==>
      Settled(edges, dist0, dist, iter, k)
  }

  /** The body of the do/while (lines 67-71): label the head of the edge unless it has a label. */
  method LabelHead(ghost edges: seq<Edge>, distance: array<int>, iter: nat, src: nat, dst: nat, ghost pos: nat,
                   ghost dist0: seq<int>, count: nat) returns (count': nat)
    requires Sweeping(edges, dist0, distance[..], iter, count)
    requires pos < |edges| && edges[pos] == Edge(src, dst) && distance[src] == iter
    requires SettledOut(edges, dist0, distance[..], iter, src, pos)
    modifies distance
    ensures Sweeping(edges, dist0, distance[..], iter, count') && distance[src] == iter
    ensures SettledOut(edges, dist0, distance[..], iter, src, pos + 1)
  {
    count' := count;
    if distance[dst] == -1 {
      ghost var dist := distance[..];
      LabelStep(edges, dist0, dist, iter, count, pos);
      distance[dst] := distance[src] + 1;
      count' := count' + 1;
      assert distance[..] == dist[dst := iter + 1];
    }
  }

  /** The do/while over the outgoing edges of a frontier vertex (lines 66-72): it throws exactly at a tail row. */
  method ExpandRow(it: EdgeIter, ghost edges: seq<Edge>, distance: array<int>, iter: nat, vid: nat, ghost first: nat,
                   ghost dist0: seq<int>, count: nat)
    returns (ok: bool, count': nat, ghost pos: nat)
    requires Lists(it, OrderedBySource, edges) && SortedBySrc(edges) && vid < distance.Length
    requires Sweeping(edges, dist0, distance[..], iter, count) && distance[vid] == iter
    requires SettledOut(edges, dist0, distance[..], iter, vid, 0)
    requires On(it, first) && first < |edges| && edges[first].src == vid
    requires forall k :: 0 <= k < first ==> edges[k].src != vid
    modifies distance, it, it.reader
    ensures it.info.Validated() && (ok <==> !TailRow(it, vid))
    ensures ok ==> On(it, pos) && pos <= |edges| && forall k :: 0 <= k < pos ==> edges[k].src <= vid
    ensures ok ==>
      Sweeping(edges, dist0, distance[..], iter, count') && SettledOut(edges, dist0, distance[..], iter, vid + 1, 0)
  {
    hide On, EndsFullTail, Settled, EdgeIter.Valid, TailRow, NoTailBefore, Flatten;
    NoTailStart(it, vid, first);
    pos, count', ok := first, count, true;
    var more := true;
    while more
      invariant first <= pos <= |edges| && On(it, pos)
      invariant more ==> pos < |edges| && edges[pos].src == vid
      invariant !more ==> forall k :: 0 <= k < |edges| && edges[k].src == vid ==> k < pos
      invariant forall k :: 0 <= k < pos ==> edges[k].src <= vid
      invariant NoTailBefore(it, vid, pos)
      invariant distance[vid] == iter && Sweeping(edges, dist0, distance[..], iter, count')
      invariant SettledOut(edges, dist0, distance[..], iter, vid, pos)
      decreases |edges| - pos, more
    {
      var e := Read(it, pos);
      count' := LabelHead(edges, distance, iter, e.src, e.dst, pos, dist0, count');
      NoTailStep(it, vid, pos);
      var next := Next(it, pos);
      if next.Failure? {
        return false, count', pos;
      }
      more := next.value;
      pos := pos + 1;
    }
    NoTailEnd(it, vid, pos);
  }

  /** Every frontier vertex below `below` can be walked to its last edge. */
  ghost predicate FrontierWalkable(it: EdgeIter, dist: seq<int>, iter: int, below: nat)
    requires it.info.Validated() && below <= |dist|
  {
    forall v: nat :: v < below && dist[v] == iter ==> !TailRow(it, v)
  }

  /** One sweep in vertex order on one moving iterator (lines 60-74): it throws exactly at a frontier vertex with a
      tail row. */
  method SweepPush(it: EdgeIter, ghost edges: seq<Edge>, distance: array<int>, iter: nat) returns (ok: bool, count: nat)
    requires Lists(it, OrderedBySource, edges) && On(it, 0) && InRange(edges, distance.Length)
    modifies distance, it, it.reader
    ensures it.info.Validated() && (ok <==> FrontierWalkable(it, old(distance[..]), iter, distance.Length))
    ensures ok ==> it.Valid() && distance[..] == Expand(edges, old(distance[..]), iter)
    ensures ok ==> Unlabelled(distance[..]) + count == Unlabelled(old(distance[..]))
    ensures ok ==> (count == 0 ==> distance[..] == old(distance[..]))
  {
    hide On, EdgeIter.Valid, TailRow, Flatten;
    ListsSorted(it, OrderedBySource, edges);
    count, ok := 0, true;
    ghost var dist0 := distance[..];
    ghost var pos: nat := 0;
    OnIsValid(it, 0);
    for vid := 0 to distance.Length
      invariant On(it, pos) && pos <= |edges| && forall k :: 0 <= k < pos ==> edges[k].src < vid
      invariant Sweeping(edges, dist0, distance[..], iter, count)
      invariant SettledOut(edges, dist0, distance[..], iter, vid, 0)
      invariant FrontierWalkable(it, dist0, iter, vid)
    {
      if distance[vid] == iter {
        OnIsValid(it, pos);
        OnIsFrom(it, it, pos);
        var found, first := First(it, it.globalChunkIndex, it.vertexChunkIndex, it.curOffset, pos, vid);
        if !found {
          NoTailEnd(it, vid, 0);
          continue;
        }
        ok, count, pos := ExpandRow(it, edges, distance, iter, vid, first, dist0, count);
        if !ok {
          return;
        }
      }
    }
    OnIsValid(it, pos);
    SweptIsExpand(edges, dist0, distance[..], iter, count);
  }

  ghost predicate Reachable(edges: seq<Edge>, root: nat, v: nat) {
    exists len: nat :: HasPath(edges, root, v, len)
  }

  /** The labelled vertices are the reachable ones. */
  lemma LabelledIsReachable(edges: seq<Edge>, root: nat, dist: seq<int>, v: nat)
    requires v < |dist|
    ensures ShortestDistances(edges, root, dist) ==> (dist[v] >= 0 <==> Reachable(edges, root, v))
    ensures (exists iter: nat :: ExactUpTo(edges, root, dist, iter)) && dist[v] >= 0 ==> Reachable(edges, root, v)
  {
  }

  /** Every vertex reached before level iter can be walked to its last edge. */
  ghost predicate ReachedWalkable(it: EdgeIter, dist: seq<int>, iter: int)
    requires it.info.Validated()
  {
    forall v: nat :: v < |dist| && 0 <= dist[v] < iter ==> !TailRow(it, v)
  }

  ghost predicate ReachableWalkable(it: EdgeIter, edges: seq<Edge>, root: nat, n: nat)
    requires it.info.Validated()
  {
    forall v: nat :: v < n && Reachable(edges, root, v) ==> !TailRow(it, v)
  }

  lemma SweptWalkable(it: EdgeIter, edges: seq<Edge>, dist: seq<int>, iter: nat)
    requires it.info.Validated() && InRange(edges, |dist|) && ReachedWalkable(it, dist, iter)
    requires FrontierWalkable(it, dist, iter, |dist|)
    ensures ReachedWalkable(it, Expand(edges, dist, iter), iter + 1)
  {
  }

  lemma FrontierReachable(it: EdgeIter, edges: seq<Edge>, root: nat, dist: seq<int>, iter: nat)
    requires it.info.Validated() && ExactUpTo(edges, root, dist, iter)
    requires !FrontierWalkable(it, dist, iter, |dist|)
    ensures !ReachableWalkable(it, edges, root, |dist|)
  {
    var v: nat :| v < |dist| && dist[v] == iter && TailRow(it, v);
    LabelledIsReachable(edges, root, dist, v);
  }

  lemma AllReachedWalkable(it: EdgeIter, edges: seq<Edge>, root: nat, dist: seq<int>, iter: nat)
    requires it.info.Validated() && ShortestDistances(edges, root, dist) && ReachedWalkable(it, dist, iter)
    requires forall v: nat :: v < |dist| ==> dist[v] < iter
    ensures ReachableWalkable(it, edges, root, |dist|)
  {
    forall v: nat | v < |dist| && Reachable(edges, root, v) ensures !TailRow(it, v) {
      LabelledIsReachable(edges, root, dist, v);
    }
  }

  /**
   * The whole push example: it throws exactly when there is no edge (to_begin) or some vertex
   * reachable from root has a tail row; otherwise it answers the shortest distances.
   */
  method PushDistances(it: EdgeIter, ghost edges: seq<Edge>, n: nat, root: nat) returns (ok: bool, distance: array<int>)
    requires Lists(it, OrderedBySource, edges) && it.Valid() && InRange(edges, n)
    modifies it, it.reader
    ensures it.info.Validated() && (ok <==> edges != [] && ReachableWalkable(it, edges, root, n))
    ensures ok ==> distance.Length == n && fresh(distance) && ShortestDistances(edges, root, distance[..])
  {
    hide On, EdgeIter.Valid, TailRow, Flatten, ReachableWalkable, ReachedWalkable, FrontierWalkable, HasPath;
    distance := new int[n](i => if i == root then 0 else -1);
    ExactInitially(edges, root, distance[..]);
    WalkableInitially(it, distance[..]);
    var iter := 0;
    while true
      invariant iter >= 0 && it.Valid() && ExactUpTo(edges, root, distance[..], iter)
      invariant ReachedWalkable(it, distance[..], iter)
      invariant iter > 0 ==> edges != []
      decreases Unlabelled(distance[..])
    {
      ghost var dist0 := distance[..];
      ok := Rewind(it);
      if !ok {
        return;
      }
      var count;
      ok, count := SweepPush(it, edges, distance, iter);
      if !ok {
        FrontierReachable(it, edges, root, dist0, iter);
        return;
      }
      SweptWalkable(it, edges, dist0, iter);
      if count == 0 {
        FixpointIsShortest(edges, root, dist0, iter);
        AllReachedWalkable(it, edges, root, dist0, iter + 1);
        break;
      }
      ExpandKeepsExact(edges, root, dist0, iter);
      iter := iter + 1;
    }
  }

  lemma WalkableInitially(it: EdgeIter, dist: seq<int>)
    requires it.info.Validated()
    ensures ReachedWalkable(it, dist, 0)
  {
  }

  // ----- pull BFS (cpp/examples/bfs_pull_example.cc) -----

  /** The edges entering vertices below vid are settled, and so are the first `pos` of those entering vid. */
  ghost predicate SettledIn(edges: seq<Edge>, dist0: seq<int>, dist: seq<int>, iter: nat, vid: nat, pos: nat)
    requires |dist| == |dist0| && InRange(edges, |dist|)
  {
    forall k: nat :: k < |edges| && (edges[k].dst < vid || (edges[k].dst == vid && k < pos)) ==>
      Settled(edges, dist0, dist, iter, k)
  }

  /** The edges entering vid up to `pos` do not come from the frontier. */
  ghost predicate UntouchedBefore(edges: seq<Edge>, dist0: seq<int>, iter: nat, vid: nat, pos: nat)
    requires InRange(edges, |dist0|)
  {
    forall k: nat :: k < pos && k < |edges| && edges[k].dst == vid ==> dist0[edges[k].src] != iter
  }

  lemma TailIsLastOfRow(it: EdgeIter, t: AdjListType, edges: seq<Edge>, pos: nat)
    requires Lists(it, t, edges) && t.Ordered() && pos < |edges| && EndsFullTail(it, pos)
    ensures forall k :: pos < k < |edges| ==> Key(t, edges[k]) != Key(t, edges[pos])
  {
    hide Flatten, FullTail, AllInPart;
    var p: nat :| p < |it.parts| && FullTail(it.info, it.parts[p]) && pos + 1 == Pos(it.parts, p, |it.parts[p]|);
    FullTailNonEmpty(it.info, it.parts[p]);
    LaterPartsDiffer(it, t, edges, p, pos);
  }

  lemma LaterPartsDiffer(it: EdgeIter, t: AdjListType, edges: seq<Edge>, p: nat, pos: nat)
    requires Lists(it, t, edges) && p < |it.parts| && it.parts[p] != []
    requires pos + 1 == Pos(it.parts, p, |it.parts[p]|) <= |edges|
    ensures forall k :: pos < k < |edges| ==> Key(t, edges[k]) != Key(t, edges[pos])
  {
    hide Flatten, AllInPart, SortedByKey;
    var last := |it.parts[p]| - 1;
    RowInFlat(it.parts, p, last);
    PosAdds(it.parts, p, last);
    PosAdds(it.parts, p, last + 1);
    var after := Flatten(it.parts[p + 1..]);
    FlattenAround(it.parts, p);
    forall k | pos < k < |edges| ensures Key(t, edges[k]) != Key(t, edges[pos]) {
      assert edges[k] == after[k - (pos + 1)];
      if Key(t, edges[k]) == Key(t, edges[pos]) {
        InWhichPart(it.info, t, it.parts, p, edges[pos]);
        OtherPartsLackKey(it.info, t, it.parts, p, edges[k]);
      }
    }
  }

  lemma UntouchedAtTail(it: EdgeIter, edges: seq<Edge>, dist0: seq<int>, iter: nat, vid: nat, pos: nat)
    requires Lists(it, OrderedByDest, edges) && InRange(edges, |dist0|) && pos < |edges| && edges[pos].dst == vid
    requires UntouchedBefore(edges, dist0, iter, vid, pos + 1) && EndsFullTail(it, pos)
    ensures !Touched(edges, dist0, iter, vid)
  {
    hide EndsFullTail, Lists;
    TailIsLastOfRow(it, OrderedByDest, edges, pos);
  }

  /** Before the row of vid, no edge into vid has been probed. */
  lemma ProbeStart(edges: seq<Edge>, dist0: seq<int>, dist: seq<int>, iter: nat, vid: nat, first: nat)
    requires |dist| == |dist0| && InRange(edges, |dist|) && SettledIn(edges, dist0, dist, iter, vid, 0)
    requires forall k :: 0 <= k < first && k < |edges| ==> edges[k].dst != vid
    ensures SettledIn(edges, dist0, dist, iter, vid, first) && UntouchedBefore(edges, dist0, iter, vid, first)
  {
  }

  lemma ProbeMiss(edges: seq<Edge>, dist0: seq<int>, dist: seq<int>, iter: nat, count: nat, vid: nat, pos: nat)
    requires Sweeping(edges, dist0, dist, iter, count) && pos < |edges| && dist[edges[pos].src] != iter
    requires SettledIn(edges, dist0, dist, iter, vid, pos) && UntouchedBefore(edges, dist0, iter, vid, pos)
    ensures SettledIn(edges, dist0, dist, iter, vid, pos + 1) && UntouchedBefore(edges, dist0, iter, vid, pos + 1)
  {
    assert dist0[edges[pos].src] != iter;
  }

  lemma ProbeHit(edges: seq<Edge>, dist0: seq<int>, dist: seq<int>, iter: nat, count: nat, vid: nat, pos: nat)
    requires Sweeping(edges, dist0, dist, iter, count) && SettledIn(edges, dist0, dist, iter, vid, pos)
    requires pos < |edges| && edges[pos].dst == vid && dist[edges[pos].src] == iter && dist[vid] == -1
    ensures Sweeping(edges, dist0, dist[vid := iter + 1], iter, count + 1)
    ensures SettledIn(edges, dist0, dist[vid := iter + 1], iter, vid + 1, 0) && Touched(edges, dist0, iter, vid)
  {
    LabelStep(edges, dist0, dist, iter, count, pos);
    TouchedHere(edges, dist0, iter, vid, pos);
  }

  lemma ProbeEnd(edges: seq<Edge>, dist0: seq<int>, dist: seq<int>, iter: nat, vid: nat, pos: nat)
    requires |dist| == |dist0| && InRange(edges, |dist|) && SettledIn(edges, dist0, dist, iter, vid, pos)
    requires forall k :: 0 <= k < |edges| && edges[k].dst == vid ==> k < pos
    ensures SettledIn(edges, dist0, dist, iter, vid + 1, 0)
  {
  }

  /**
   * The do/while over the incoming edges of an unlabelled vertex, with its early break (lines
   * 66-73): it throws exactly at a tail row without an edge from the frontier.
   */
  method ProbeRow(it: EdgeIter, ghost edges: seq<Edge>, distance: array<int>, iter: nat, vid: nat, ghost first: nat,
                  ghost dist0: seq<int>, count: nat)
    returns (ok: bool, count': nat, ghost pos: nat)
    requires Lists(it, OrderedByDest, edges) && SortedByDst(edges) && vid < distance.Length
    requires Sweeping(edges, dist0, distance[..], iter, count) && distance[vid] == -1
    requires SettledIn(edges, dist0, distance[..], iter, vid, 0)
    requires On(it, first) && first < |edges| && edges[first].dst == vid
    requires forall k :: 0 <= k < first ==> edges[k].dst != vid
    modifies distance, it, it.reader
    ensures it.info.Validated() && InRange(edges, |dist0|)
    ensures ok <==> TailRow(it, vid) ==> Touched(edges, dist0, iter, vid)
    ensures ok ==> On(it, pos) && pos <= |edges| && forall k :: 0 <= k < pos ==> edges[k].dst <= vid
    ensures ok ==>
      Sweeping(edges, dist0, distance[..], iter, count') && SettledIn(edges, dist0, distance[..], iter, vid + 1, 0)
    ensures forall v :: 0 <= v < distance.Length && v != vid ==> distance[v] == old(distance[v])
  {
    hide On, EndsFullTail, EdgeIter.Valid, TailRow, NoTailBefore, Flatten, SettledIn,
         UntouchedBefore, Touched;
    NoTailStart(it, vid, first);
    ProbeStart(edges, dist0, distance[..], iter, vid, first);
    pos, count', ok := first, count, true;
    var more := true;
    while more
      invariant first <= pos <= |edges| && On(it, pos)
      invariant more ==> pos < |edges| && edges[pos].dst == vid
      invariant !more ==> forall k :: 0 <= k < |edges| && edges[k].dst == vid ==> k < pos
      invariant forall k :: 0 <= k < pos ==> edges[k].dst <= vid
      invariant NoTailBefore(it, vid, pos) && UntouchedBefore(edges, dist0, iter, vid, pos)
      invariant distance[..] == old(distance[..]) && count' == count
      invariant SettledIn(edges, dist0, distance[..], iter, vid, pos)
      decreases |edges| - pos, more
    {
      var e := Read(it, pos);
      if distance[e.src] == iter {
        ProbeHit(edges, dist0, distance[..], iter, count, vid, pos);
        distance[e.dst] := distance[e.src] + 1;
        count' := count' + 1;
        assert distance[..] == old(distance[..])[vid := iter + 1];
        return;
      }
      ProbeMiss(edges, dist0, distance[..], iter, count, vid, pos);
      NoTailStep(it, vid, pos);
      var next := Next(it, pos);
      if next.Failure? {
        UntouchedAtTail(it, edges, dist0, iter, vid, pos);
        return false, count', pos;
      }
      more := next.value;
      pos := pos + 1;
    }
    NoTailEnd(it, vid, pos);
    ProbeEnd(edges, dist0, distance[..], iter, vid, pos);
  }

  lemma TouchedHere(edges: seq<Edge>, dist0: seq<int>, iter: nat, vid: nat, pos: nat)
    requires InRange(edges, |dist0|) && pos < |edges| && edges[pos].dst == vid && dist0[edges[pos].src] == iter
    ensures Touched(edges, dist0, iter, vid)
  {
  }

  /** Every unlabelled vertex below `below` with a tail row is touched by the frontier. */
  ghost predicate TailsTouched(it: EdgeIter, edges: seq<Edge>, dist: seq<int>, iter: int, below: nat)
    requires it.info.Validated() && below <= |dist| && InRange(edges, |dist|)
  {
    forall v: nat :: v < below && dist[v] == -1 && TailRow(it, v) ==> Touched(edges, dist, iter, v)
  }

  /** One sweep in vertex order (lines 60-75): it throws exactly at an unlabelled vertex with a tail row that no
      frontier edge enters. */
  method SweepPull(it: EdgeIter, ghost edges: seq<Edge>, distance: array<int>, iter: nat) returns (ok: bool, count: nat)
    requires Lists(it, OrderedByDest, edges) && On(it, 0) && InRange(edges, distance.Length)
    modifies distance, it, it.reader
    ensures it.info.Validated() && (ok <==> TailsTouched(it, edges, old(distance[..]), iter, distance.Length))
    ensures ok ==> it.Valid() && distance[..] == Expand(edges, old(distance[..]), iter)
    ensures ok ==> Unlabelled(distance[..]) + count == Unlabelled(old(distance[..]))
    ensures ok ==> (count == 0 ==> distance[..] == old(distance[..]))
  {
    hide On, EdgeIter.Valid, TailRow, Flatten, Touched;
    ListsSorted(it, OrderedByDest, edges);
    count, ok := 0, true;
    ghost var dist0 := distance[..];
    ghost var pos: nat := 0;
    OnIsValid(it, 0);
    for vid := 0 to distance.Length
      invariant On(it, pos) && pos <= |edges| && forall k :: 0 <= k < pos ==> edges[k].dst < vid
      invariant Sweeping(edges, dist0, distance[..], iter, count)
      invariant SettledIn(edges, dist0, distance[..], iter, vid, 0)
      invariant forall v :: vid <= v < distance.Length ==> distance[v] == dist0[v]
      invariant TailsTouched(it, edges, dist0, iter, vid)
    {
      if distance[vid] == -1 {
        OnIsValid(it, pos);
        OnIsFrom(it, it, pos);
        var found, first := First(it, it.globalChunkIndex, it.vertexChunkIndex, it.curOffset, pos, vid);
        if !found {
          NoTailEnd(it, vid, 0);
          continue;
        }
        ok, count, pos := ProbeRow(it, edges, distance, iter, vid, first, dist0, count);
        if !ok {
          return;
        }
      } else {
        LabelledIsSettled(edges, dist0, distance[..], iter, vid);
      }
    }
    OnIsValid(it, pos);
    SweptIsExpand(edges, dist0, distance[..], iter, count);
  }

  lemma LabelledIsSettled(edges: seq<Edge>, dist0: seq<int>, dist: seq<int>, iter: nat, vid: nat)
    requires |dist| == |dist0| && InRange(edges, |dist|) && vid < |dist| && dist[vid] != -1
    requires SettledIn(edges, dist0, dist, iter, vid, 0)
    ensures SettledIn(edges, dist0, dist, iter, vid + 1, 0)
  {
  }

  /** Every vertex with a tail row, other than root, is entered by an edge from root. */
  ghost predicate RootCoversTails(it: EdgeIter, edges: seq<Edge>, root: nat, n: nat)
    requires it.info.Validated()
  {
    forall v: nat :: v < n && v != root && TailRow(it, v) ==> Edge(root, v) in edges
  }

  lemma TouchedByRoot(edges: seq<Edge>, root: nat, dist: seq<int>, v: nat)
    requires InRange(edges, |dist|) && InitialDistances(root, dist) && v < |dist|
    ensures Touched(edges, dist, 0, v) <==> Edge(root, v) in edges
  {
    if Touched(edges, dist, 0, v) {
      var k :| 0 <= k < |edges| && edges[k].dst == v && dist[edges[k].src] == 0;
      assert edges[k] == Edge(root, v);
    }
    if Edge(root, v) in edges {
      var k :| 0 <= k < |edges| && edges[k] == Edge(root, v);
    }
  }

  /** Only the first sweep can meet an untouched tail row. */
  lemma FirstSweepDecides(it: EdgeIter, edges: seq<Edge>, root: nat, dist: seq<int>)
    requires it.info.Validated() && InRange(edges, |dist|) && InitialDistances(root, dist)
    ensures TailsTouched(it, edges, dist, 0, |dist|) <==> RootCoversTails(it, edges, root, |dist|)
  {
    hide TailRow, Touched;
    forall v: nat | v < |dist| ensures Touched(edges, dist, 0, v) <==> Edge(root, v) in edges {
      TouchedByRoot(edges, root, dist, v);
    }
  }

  /** Every vertex with a tail row has a label. */
  ghost predicate TailsLabelled(it: EdgeIter, dist: seq<int>)
    requires it.info.Validated()
  {
    forall v: nat :: v < |dist| && TailRow(it, v) ==> dist[v] != -1
  }

  lemma TailsStayLabelled(it: EdgeIter, edges: seq<Edge>, dist: seq<int>, iter: nat)
    requires it.info.Validated() && InRange(edges, |dist|)
    ensures TailsTouched(it, edges, dist, iter, |dist|) ==> TailsLabelled(it, Expand(edges, dist, iter))
    ensures TailsLabelled(it, dist) ==> TailsTouched(it, edges, dist, iter, |dist|)
  {
    hide TailRow, Touched;
  }

  /**
   * The whole pull example: it throws exactly when there is no edge (to_begin) or some vertex
   * other than root has a tail row without an edge from root; otherwise it answers the
   * shortest distances.
   */
  method PullDistances(it: EdgeIter, ghost edges: seq<Edge>, n: nat, root: nat) returns (ok: bool, distance: array<int>)
    requires Lists(it, OrderedByDest, edges) && it.Valid() && InRange(edges, n)
    modifies it, it.reader
    ensures it.info.Validated() && (ok <==> edges != [] && RootCoversTails(it, edges, root, n))
    ensures ok ==> distance.Length == n && fresh(distance) && ShortestDistances(edges, root, distance[..])
  {
    hide On, EdgeIter.Valid, TailRow, Flatten, RootCoversTails, TailsTouched, TailsLabelled, HasPath;
    distance := new int[n](i => if i == root then 0 else -1);
    ExactInitially(edges, root, distance[..]);
    var iter := 0;
    while true
      invariant iter >= 0 && it.Valid() && ExactUpTo(edges, root, distance[..], iter)
      invariant iter == 0 ==> InitialDistances(root, distance[..])
      invariant iter > 0 ==> edges != [] && RootCoversTails(it, edges, root, n) && TailsLabelled(it, distance[..])
      decreases Unlabelled(distance[..])
    {
      ghost var dist0 := distance[..];
      ok := Rewind(it);
      if !ok {
        return;
      }
      TailsStayLabelled(it, edges, dist0, iter);
      if iter == 0 {
        FirstSweepDecides(it, edges, root, dist0);
      }
      var count;
      ok, count := SweepPull(it, edges, distance, iter);
      if !ok {
        return;
      }
      if count == 0 {
        FixpointIsShortest(edges, root, dist0, iter);
        break;
      }
      ExpandKeepsExact(edges, root, dist0, iter);
      iter := iter + 1;
    }
  }

  // ----- push connected components (cpp/examples/cc_push_example.cc) -----

  /** What a search reads of the begin iterator it starts from; begin is never stepped. */
  datatype Place = Place(globalChunkIndex: nat, vertexChunkIndex: nat, curOffset: nat)

  ghost predicate IsBegin(it: EdgeIter, begin: Place)
    requires it.info.Validated()
  {
    FromPos(it, begin.globalChunkIndex, begin.vertexChunkIndex, begin.curOffset, 0)
  }

  /** Positions before the row of vid have nothing to pass. */
  lemma StartOutgoing(bySrc: seq<Edge>, byDst: seq<Edge>, comp: seq<nat>, cur: seq<bool>, next: seq<bool>,
                      vid: nat, first: nat, count: nat)
    requires SweepInv(bySrc, byDst, comp, cur, next, vid, 0, 0, count)
    requires first <= |bySrc| && forall k :: 0 <= k < first ==> bySrc[k].src != vid
    ensures SweepInv(bySrc, byDst, comp, cur, next, vid, first, 0, count)
  {
  }

  lemma StartIncoming(bySrc: seq<Edge>, byDst: seq<Edge>, comp: seq<nat>, cur: seq<bool>, next: seq<bool>,
                      vid: nat, it1: nat, first: nat, count: nat)
    requires SweepInv(bySrc, byDst, comp, cur, next, vid, it1, 0, count)
    requires first <= |byDst| && forall k :: 0 <= k < first ==> byDst[k].dst != vid
    ensures SweepInv(bySrc, byDst, comp, cur, next, vid, it1, first, count)
  {
  }

  /** The do/while over the outgoing edges of vid (lines 77-88). */
  method WalkOutgoing(it: EdgeIter, ghost bySrc: seq<Edge>, ghost byDst: seq<Edge>, component: array<nat>,
                      ghost cur: array<bool>, next: array<bool>, vid: nat, ghost first: nat,
                      ghost comp0: seq<nat>, count: nat)
    returns (ok: bool, count': nat, ghost it1: nat)
    requires cur != next && Lists(it, OrderedBySource, bySrc)
    requires SweepInv(bySrc, byDst, component[..], cur[..], next[..], vid, 0, 0, count)
    requires Progress(comp0, component[..], count) && vid < component.Length
    requires On(it, first) && first < |bySrc| && bySrc[first].src == vid
    requires forall k :: 0 <= k < first ==> bySrc[k].src != vid
    modifies component, next, it, it.reader
    ensures it.info.Validated() && it.Valid() && (ok <==> !TailRow(it, vid))
    ensures ok ==> SweepInv(bySrc, byDst, component[..], cur[..], next[..], vid, it1, 0, count')
    ensures ok ==> Progress(comp0, component[..], count')
    ensures ok ==> forall k :: 0 <= k < |bySrc| && bySrc[k].src == vid ==> k < it1
  {
    hide On, EndsFullTail, EdgeIter.Valid, TailRow, NoTailBefore, Flatten, OutCovered, InCovered, Sound, CountTrue,
         Progress;
    ListsSorted(it, OrderedBySource, bySrc);
    NoTailStart(it, vid, first);
    it1, count', ok := first, count, true;
    StartOutgoing(bySrc, byDst, component[..], cur[..], next[..], vid, it1, count);
    var more := true;
    while more
      invariant first <= it1 <= |bySrc| && On(it, it1)
      invariant more ==> it1 < |bySrc| && bySrc[it1].src == vid
      invariant !more ==> forall k :: 0 <= k < |bySrc| && bySrc[k].src == vid ==> k < it1
      invariant NoTailBefore(it, vid, it1)
      invariant SweepInv(bySrc, byDst, component[..], cur[..], next[..], vid, it1, 0, count')
      invariant Progress(comp0, component[..], count')
      decreases |bySrc| - it1, more
    {
      var e := Read(it, it1);
      assert Linked(bySrc, e.src, e.dst) by { assert bySrc[it1] == Edge(e.src, e.dst); }
      count' := Push(bySrc, byDst, component, cur, next, e.src, e.dst, it1, 0, comp0, count');
      PassOutgoing(bySrc, byDst, component[..], cur[..], next[..], vid, it1, 0, count');
      NoTailStep(it, vid, it1);
      var step := Next(it, it1);
      if step.Failure? {
        return false, count', it1;
      }
      more := step.value;
      it1 := it1 + 1;
    }
    OnIsValid(it, it1);
    NoTailEnd(it, vid, it1);
  }

  /** The do/while over the incoming edges of vid (lines 90-101). */
  method WalkIncoming(it: EdgeIter, ghost bySrc: seq<Edge>, ghost byDst: seq<Edge>, component: array<nat>,
                      ghost cur: array<bool>, next: array<bool>, vid: nat, ghost it1: nat, ghost first: nat,
                      ghost comp0: seq<nat>, count: nat)
    returns (ok: bool, count': nat, ghost it2: nat)
    requires cur != next && Lists(it, OrderedByDest, byDst) && SameEdges(bySrc, byDst)
    requires SweepInv(bySrc, byDst, component[..], cur[..], next[..], vid, it1, 0, count)
    requires Progress(comp0, component[..], count) && vid < component.Length
    requires On(it, first) && first < |byDst| && byDst[first].dst == vid
    requires forall k :: 0 <= k < first ==> byDst[k].dst != vid
    modifies component, next, it, it.reader
    ensures it.info.Validated() && it.Valid() && (ok <==> !TailRow(it, vid))
    ensures ok ==> SweepInv(bySrc, byDst, component[..], cur[..], next[..], vid, it1, it2, count')
    ensures ok ==> Progress(comp0, component[..], count')
    ensures ok ==> forall k :: 0 <= k < |byDst| && byDst[k].dst == vid ==> k < it2
  {
    hide On, EndsFullTail, EdgeIter.Valid, TailRow, NoTailBefore, Flatten, OutCovered, InCovered, Sound, CountTrue,
         Progress;
    ListsSorted(it, OrderedByDest, byDst);
    NoTailStart(it, vid, first);
    it2, count', ok := first, count, true;
    StartIncoming(bySrc, byDst, component[..], cur[..], next[..], vid, it1, it2, count);
    var more := true;
    while more
      invariant first <= it2 <= |byDst| && On(it, it2)
      invariant more ==> it2 < |byDst| && byDst[it2].dst == vid
      invariant !more ==> forall k :: 0 <= k < |byDst| && byDst[k].dst == vid ==> k < it2
      invariant NoTailBefore(it, vid, it2)
      invariant SweepInv(bySrc, byDst, component[..], cur[..], next[..], vid, it1, it2, count')
      invariant Progress(comp0, component[..], count')
      decreases |byDst| - it2, more
    {
      var e := Read(it, it2);
      assert Linked(bySrc, e.dst, e.src) by {
        assert byDst[it2] == Edge(e.src, e.dst);
        SameEdgesMembers(bySrc, byDst);
      }
      count' := Push(bySrc, byDst, component, cur, next, e.dst, e.src, it1, it2, comp0, count');
      PassIncoming(bySrc, byDst, component[..], cur[..], next[..], vid, it1, it2, count');
      NoTailStep(it, vid, it2);
      var step := Next(it, it2);
      if step.Failure? {
        return false, count', it2;
      }
      more := step.value;
      it2 := it2 + 1;
    }
    OnIsValid(it, it2);
    NoTailEnd(it, vid, it2);
  }

  /** The two iterators of the example, over the two orders of one edge list. */
  ghost predicate TwoLists(it1: EdgeIter, begin1: Place, bySrc: seq<Edge>, it2: EdgeIter, begin2: Place,
                           byDst: seq<Edge>) {
    && it1 != it2 && it1.reader != it2.reader
    && Lists(it1, OrderedBySource, bySrc) && Lists(it2, OrderedByDest, byDst) && SameEdges(bySrc, byDst)
    && IsBegin(it1, begin1) && IsBegin(it2, begin2)
  }

  ghost predicate VertexWalkable(it1: EdgeIter, it2: EdgeIter, v: nat)
    requires it1.info.Validated() && it2.info.Validated()
  {
    !TailRow(it1, v) && !TailRow(it2, v)
  }

  /** `if (it1.first_src(begin1, vid)) { ... }` (lines 76-88). */
  method SweepOutgoing(it: EdgeIter, begin: Place, ghost bySrc: seq<Edge>, ghost byDst: seq<Edge>,
                       component: array<nat>, ghost cur: array<bool>, next: array<bool>, vid: nat,
                       ghost comp0: seq<nat>, count: nat)
    returns (ok: bool, count': nat, ghost it1: nat)
    requires cur != next && Lists(it, OrderedBySource, bySrc) && it.Valid() && IsBegin(it, begin)
    requires SweepInv(bySrc, byDst, component[..], cur[..], next[..], vid, 0, 0, count)
    requires Progress(comp0, component[..], count) && vid < component.Length
    modifies component, next, it, it.reader
    ensures it.info.Validated() && it.Valid() && (ok <==> !TailRow(it, vid))
    ensures ok ==> SweepInv(bySrc, byDst, component[..], cur[..], next[..], vid, it1, 0, count')
    ensures ok ==> Progress(comp0, component[..], count')
    ensures ok ==> forall k :: 0 <= k < |bySrc| && bySrc[k].src == vid ==> k < it1
  {
    hide On, EdgeIter.Valid, TailRow, Flatten, SweepInv, Progress, FromPos;
    ok, count', it1 := true, count, 0;
    var found, first := First(it, begin.globalChunkIndex, begin.vertexChunkIndex, begin.curOffset, 0, vid);
    if found {
      ok, count', it1 := WalkOutgoing(it, bySrc, byDst, component, cur, next, vid, first, comp0, count);
    } else {
      NoTailEnd(it, vid, 0);
    }
  }

  /** `if (it2.first_dst(begin2, vid)) { ... }` (lines 89-101). */
  method SweepIncoming(it: EdgeIter, begin: Place, ghost bySrc: seq<Edge>, ghost byDst: seq<Edge>,
                       component: array<nat>, ghost cur: array<bool>, next: array<bool>, vid: nat, ghost it1: nat,
                       ghost comp0: seq<nat>, count: nat)
    returns (ok: bool, count': nat, ghost it2: nat)
    requires cur != next && Lists(it, OrderedByDest, byDst) && it.Valid() && IsBegin(it, begin)
    requires SameEdges(bySrc, byDst)
    requires SweepInv(bySrc, byDst, component[..], cur[..], next[..], vid, it1, 0, count)
    requires Progress(comp0, component[..], count) && vid < component.Length
    modifies component, next, it, it.reader
    ensures it.info.Validated() && it.Valid() && (ok <==> !TailRow(it, vid))
    ensures ok ==> SweepInv(bySrc, byDst, component[..], cur[..], next[..], vid, it1, it2, count')
    ensures ok ==> Progress(comp0, component[..], count')
    ensures ok ==> forall k :: 0 <= k < |byDst| && byDst[k].dst == vid ==> k < it2
  {
    hide On, EdgeIter.Valid, TailRow, Flatten, SweepInv, Progress, FromPos, SameEdges;
    ok, count', it2 := true, count, 0;
    var found, first := First(it, begin.globalChunkIndex, begin.vertexChunkIndex, begin.curOffset, 0, vid);
    if found {
      ok, count', it2 := WalkIncoming(it, bySrc, byDst, component, cur, next, vid, it1, first, comp0, count);
    } else {
      NoTailEnd(it, vid, 0);
    }
  }

  /** The body of the vertex loop (lines 74-103): it throws exactly at an active vertex with a tail row in either
      order. */
  method SweepVertex(it1: EdgeIter, begin1: Place, ghost bySrc: seq<Edge>, it2: EdgeIter, begin2: Place,
                     ghost byDst: seq<Edge>, component: array<nat>, cur: array<bool>, next: array<bool>, vid: nat,
                     ghost comp0: seq<nat>, count: nat)
    returns (ok: bool, count': nat)
    requires TwoLists(it1, begin1, bySrc, it2, begin2, byDst) && it1.Valid() && it2.Valid() && cur != next
    requires SweepInv(bySrc, byDst, component[..], cur[..], next[..], vid, 0, 0, count)
    requires Progress(comp0, component[..], count) && vid < component.Length
    modifies component, next, it1, it1.reader, it2, it2.reader
    ensures it1.info.Validated() && it2.info.Validated() && it1.Valid() && it2.Valid() && vid < cur.Length
    ensures ok <==> cur[vid] ==> VertexWalkable(it1, it2, vid)
    ensures ok ==> SweepInv(bySrc, byDst, component[..], cur[..], next[..], vid + 1, 0, 0, count')
    ensures ok ==> Progress(comp0, component[..], count')
  {
    hide On, EdgeIter.Valid, TailRow, Flatten, Progress, FromPos, SameEdges, OutCovered, InCovered, Sound, CountTrue;
    ok, count' := true, count;
    ghost var pos1: nat, pos2: nat := 0, 0;
    if cur[vid] {
      ok, count', pos1 := SweepOutgoing(it1, begin1, bySrc, byDst, component, cur, next, vid, comp0, count');
      if !ok {
        return;
      }
      ok, count', pos2 := SweepIncoming(it2, begin2, bySrc, byDst, component, cur, next, vid, pos1, comp0, count');
      if !ok {
        return;
      }
    }
    NextVertex(bySrc, byDst, component[..], cur[..], next[..], vid, pos1, pos2, count');
  }

  ghost predicate ActiveWalkable(it1: EdgeIter, it2: EdgeIter, active: seq<bool>, below: nat)
    requires it1.info.Validated() && it2.info.Validated() && below <= |active|
  {
    forall v: nat :: v < below && active[v] ==> VertexWalkable(it1, it2, v)
  }

  /** One iteration of the outer loop (lines 71-103). */
  method Sweep(it1: EdgeIter, begin1: Place, ghost bySrc: seq<Edge>, it2: EdgeIter, begin2: Place,
               ghost byDst: seq<Edge>, component: array<nat>, cur: array<bool>, next: array<bool>)
    returns (ok: bool, count: nat)
    requires TwoLists(it1, begin1, bySrc, it2, begin2, byDst) && it1.Valid() && it2.Valid()
    requires cur != next && cur.Length == next.Length == component.Length
    requires InRange(bySrc, component.Length) && InRange(byDst, component.Length)
    requires Sound(bySrc, component[..]) && FrontierCovers(bySrc, byDst, component[..], cur[..])
    modifies component, next, it1, it1.reader, it2, it2.reader
    ensures it1.info.Validated() && it2.info.Validated() && it1.Valid() && it2.Valid()
    ensures ok <==> ActiveWalkable(it1, it2, cur[..], cur.Length)
    ensures ok ==> Sound(bySrc, component[..]) && FrontierCovers(bySrc, byDst, component[..], next[..])
    ensures ok ==> count == CountTrue(next[..]) && Progress(old(component[..]), component[..], count)
  {
    hide On, EdgeIter.Valid, TailRow, Flatten, FromPos, SameEdges, VertexWalkable;
    ghost var comp0 := component[..];
    for i := 0 to next.Length
      invariant forall j :: 0 <= j < i ==> !next[j]
      invariant component[..] == comp0 && cur[..] == old(cur[..]) && it1.Valid() && it2.Valid()
    {
      next[i] := false;
    }
    count, ok := 0, true;
    CountTrueZero(next[..]);
    for vid := 0 to component.Length
      invariant it1.Valid() && it2.Valid() && cur[..] == old(cur[..])
      invariant SweepInv(bySrc, byDst, component[..], cur[..], next[..], vid, 0, 0, count)
      invariant Progress(comp0, component[..], count)
      invariant ActiveWalkable(it1, it2, cur[..], vid)
    {
      ok, count := SweepVertex(it1, begin1, bySrc, it2, begin2, byDst, component, cur, next, vid, comp0, count);
      if !ok {
        return;
      }
    }
  }

  ghost predicate AllWalkable(it1: EdgeIter, it2: EdgeIter, n: nat)
    requires it1.info.Validated() && it2.info.Validated()
  {
    forall v: nat :: v < n ==> VertexWalkable(it1, it2, v)
  }

  /** The first sweep visits every vertex, so only it can throw. */
  lemma FirstSweepVisitsAll(it1: EdgeIter, it2: EdgeIter, active: seq<bool>)
    requires it1.info.Validated() && it2.info.Validated()
    ensures AllWalkable(it1, it2, |active|) ==> ActiveWalkable(it1, it2, active, |active|)
    ensures (forall v :: 0 <= v < |active| ==> active[v]) ==>
            (ActiveWalkable(it1, it2, active, |active|) <==> AllWalkable(it1, it2, |active|))
  {
    hide VertexWalkable;
  }

  /**
   * The whole example: it throws exactly when some vertex has a tail row in one of the two
   * orders; otherwise it answers the minimum labels and the number of components.
   */
  method PushComponents(it1: EdgeIter, ghost bySrc: seq<Edge>, it2: EdgeIter, ghost byDst: seq<Edge>, n: nat)
    returns (ok: bool, component: array<nat>, ccNum: nat)
    requires it1 != it2 && it1.reader != it2.reader && SameEdges(bySrc, byDst) && InRange(bySrc, n)
    requires Lists(it1, OrderedBySource, bySrc) && Lists(it2, OrderedByDest, byDst) && On(it1, 0) && On(it2, 0)
    modifies it1, it1.reader, it2, it2.reader
    ensures it1.info.Validated() && it2.info.Validated() && (ok <==> AllWalkable(it1, it2, n))
    ensures ok ==> component.Length == n && MinLabels(bySrc, component[..]) && ccNum == |AllComponents(bySrc, n)|
  {
    hide On, EdgeIter.Valid, TailRow, Flatten, FromPos, VertexWalkable, ActiveWalkable, AllWalkable,
         Sound, FrontierCovers, MinLabels, SameEdges, CountTrue, AllComponents, Sum, InRange;
    SameEdgesInRange(bySrc, byDst, n);
    OnIsValid(it1, 0);
    OnIsFrom(it1, it1, 0);
    OnIsValid(it2, 0);
    OnIsFrom(it2, it2, 0);
    var begin1 := Place(it1.globalChunkIndex, it1.vertexChunkIndex, it1.curOffset);
    var begin2 := Place(it2.globalChunkIndex, it2.vertexChunkIndex, it2.curOffset);
    component, ccNum := new nat[n](i => i), 0;
    var active0 := new bool[n](_ => true);
    var active1 := new bool[n](_ => false);
    var active := [active0, active1];
    SoundInitially(bySrc, component[..]);
    FullFrontierCovers(bySrc, byDst, component[..], active0[..]);
    var count := n;
    CountTrueAll(active0[..]);
    var iter := 0;
    while count > 0
      invariant iter >= 0 && component.Length == |component[..]| == n && it1.Valid() && it2.Valid()
      invariant active[iter % 2].Length == active[1 - iter % 2].Length == n
      invariant Sound(bySrc, component[..])
      invariant FrontierCovers(bySrc, byDst, component[..], active[iter % 2][..])
      invariant count == CountTrue(active[iter % 2][..])
      invariant if iter == 0 then forall v :: 0 <= v < n ==> active[iter % 2][v] else AllWalkable(it1, it2, n)
      invariant iter == 0 ==> count == n
      decreases Sum(component[..]), count
    {
      FirstSweepVisitsAll(it1, it2, active[iter % 2][..]);
      ok, count := Sweep(it1, begin1, bySrc, it2, begin2, byDst, component, active[iter % 2], active[1 - iter % 2]);
      if !ok {
        return;
      }
      iter := iter + 1;
    }
    NoVertices(it1, it2);
    EmptyFrontierIsMinimal(bySrc, byDst, component[..], active[iter % 2][..]);
    ccNum := CountComponents(bySrc, component);
    ok := true;
  }

  lemma NoVertices(it1: EdgeIter, it2: EdgeIter)
    requires it1.info.Validated() && it2.info.Validated()
    ensures AllWalkable(it1, it2, 0)
  {
  }

  // ----- writing, opening, running -----

  /** A row of the collection is a tail row exactly when it is one of the edges that were written. */
  lemma TailRowIff(it: EdgeIter, edges: seq<Edge>, n: nat, id: nat)
    requires Opened(it) && IsPartition(it.info, it.adjListType, edges, it.parts)
    requires Stores(it.info, it.adjListType, it.reader.files, it.parts) && it.reader.files.vertexCount == n && id < n
    requires forall i: nat :: i < |it.parts| ==> |it.parts[i]| == |PartOf(it.info, it.adjListType, edges, i)|
    ensures TailRow(it, id) <==> RowAtFullTail(it.info, it.adjListType, edges, id)
  {
    hide StoresPart, OffsetsFor, SortedByKey, PartOf, RowAtFullTail, TailRow, FullTail, Flatten, InPart;
    var info, t, parts := it.info, it.adjListType, it.parts;
    VertexInPart(info, t, it.reader.files, parts, id);
    var p, row := id / info.VertexChunkSize(t), RowRange(info, t, it.reader.files, parts, id);
    TailRowInPart(it, id, p, row.0, row.1);
    forall x ensures x in parts[p] <==> x in edges && InPart(info, t, x, p) {
      SameEdgesInPart(info, t, edges, parts, p, x);
    }
    RowFailsIff(info, t, edges, parts[p], id, row.0, row.1);
  }

  lemma TailRowInPart(it: EdgeIter, id: nat, p: nat, b: nat, e: nat)
    requires Opened(it) && p < |it.parts| && b <= e <= |it.parts[p]|
    requires id / it.info.VertexChunkSize(it.adjListType) == p
    requires forall k :: 0 <= k < |it.parts[p]| ==> (b <= k < e <==> Key(it.adjListType, it.parts[p][k]) == id)
    ensures TailRow(it, id) <==> b < e == |it.parts[p]| && FullTail(it.info, it.parts[p])
  {
    hide SortedByKey, FullTail, Flatten, AllInPart, EndsFullTail, Pos;
    RowsInFlat(it, id, p, b, e);
    PosAdds(it.parts, p, b);
    PosAdds(it.parts, p, e);
    if TailRow(it, id) {
      var pos: nat :| pos < |Edges(it)| && Key(it.adjListType, Edges(it)[pos]) == id && EndsFullTail(it, pos);
      var r := pos - Pos(it.parts, p, 0);
      PosAdds(it.parts, p, r);
      TailAtRow(it, p, r);
    }
    if b < e == |it.parts[p]| && FullTail(it.info, it.parts[p]) {
      PosAdds(it.parts, p, e - 1);
      RowInFlat(it.parts, p, e - 1);
      TailAtRow(it, p, e - 1);
    }
  }

  /** The vertices whose row is at a full tail make the iteration fail, and only they do. */
  lemma FullTailsHaveRows(info: EdgeSizes, t: AdjListType, edges: seq<Edge>, n: nat)
    requires info.Validated() && forall k :: 0 <= k < |edges| ==> Key(t, edges[k]) < n
    ensures PartialTails(info, t, edges, n) <==> forall v: nat :: v < n ==> !RowAtFullTail(info, t, edges, v)
  {
    hide PartOf, HasKey, LastKeyInPart, PartialTailAt;
    forall v: nat | v < n && RowAtFullTail(info, t, edges, v) ensures !PartialTails(info, t, edges, n) {
      RowInChunk(n, info.VertexChunkSize(t), v);
    }
    forall i: nat | !PartialTailAt(info, |PartOf(info, t, edges, i)|)
      ensures exists v: nat :: v < n && RowAtFullTail(info, t, edges, v)
    {
      var v := LastVertex(info, t, edges, n, i);
    }
  }

  /** The last vertex with an edge in a non-empty part. */
  lemma LastVertex(info: EdgeSizes, t: AdjListType, edges: seq<Edge>, n: nat, i: nat) returns (v: nat)
    requires info.Validated() && forall k :: 0 <= k < |edges| ==> Key(t, edges[k]) < n
    requires !PartialTailAt(info, |PartOf(info, t, edges, i)|)
    ensures v < n && v / info.VertexChunkSize(t) == i && RowAtFullTail(info, t, edges, v)
  {
    v := MaxKeyOfPart(info, t, edges, i);
    assert |PartOf(info, t, edges, i)| > 0;
  }

  lemma {:induction false} MaxKeyOfPart(info: EdgeSizes, t: AdjListType, edges: seq<Edge>, i: nat) returns (v: nat)
    requires info.Validated()
    ensures PartOf(info, t, edges, i) == [] ==> LastKeyInPart(info, t, edges, 0, i)
    ensures PartOf(info, t, edges, i) != [] ==>
      v / info.VertexChunkSize(t) == i && HasKey(t, edges, v) && LastKeyInPart(info, t, edges, v, i)
  {
    v := 0;
    if edges != [] {
      var init, last := edges[..|edges| - 1], edges[|edges| - 1];
      assert edges == init + [last];
      v := MaxKeyOfPart(info, t, init, i);
      if InPart(info, t, last, i) && (PartOf(info, t, init, i) == [] || Key(t, last) > v) {
        v := Key(t, last);
      }
    }
  }

  /** Writing an ordered list and opening an iterator on it. */
  method WriteAndOpen(info: EdgeSizes, t: AdjListType, n: nat, edges: seq<Edge>)
    returns (it: EdgeIter, ghost rows: seq<Edge>)
    requires info.Validated() && n > 0 && InRange(edges, n) && t.Ordered()
    ensures fresh(it) && fresh(it.reader) && it.info == info && Lists(it, t, rows) && On(it, 0)
    ensures SameEdges(edges, rows) && InRange(rows, n)
    ensures forall v: nat :: v < n ==> (TailRow(it, v) <==> RowAtFullTail(info, t, edges, v))
  {
    hide StoresPart, OffsetsFor, SortedByKey, PartOf, RowAtFullTail, TailRow, Flatten, InPart, On;
    var files;
    ghost var parts;
    files, parts := WriteEdges(info, t, n, edges);
    VertexInPart(info, t, files, parts, 0);
    it := Open(info, t, files, parts, edges);
    rows := Edges(it);
    SameEdgesInRange(edges, rows, n);
    forall v: nat | v < n ensures TailRow(it, v) <==> RowAtFullTail(info, t, edges, v) {
      TailRowIff(it, edges, n, v);
    }
  }

  lemma SameEdgesReachable(edges: seq<Edge>, rows: seq<Edge>, root: nat, v: nat)
    requires SameEdges(edges, rows)
    ensures Reachable(edges, root, v) <==> Reachable(rows, root, v)
    ensures edges == [] <==> rows == []
  {
    hide HasPath;
    SameEdgesMembers(edges, rows);
    assert |multiset(edges)| == |multiset(rows)|;
    forall len: nat ensures HasPath(edges, root, v, len) <==> HasPath(rows, root, v, len) {
      if HasPath(edges, root, v, len) {
        MoreEdgesMorePaths(edges, rows, root, v, len);
      }
      if HasPath(rows, root, v, len) {
        MoreEdgesMorePaths(rows, edges, root, v, len);
      }
    }
  }

  /** Push BFS on a stored graph, against the edges that were written. */
  method StoredBfsPush(info: EdgeSizes, n: nat, edges: seq<Edge>, root: nat) returns (ok: bool, distance: array<int>)
    requires info.Validated() && n > 0 && InRange(edges, n)
    ensures ok <==>
      && edges != []
      && forall v: nat :: v < n && Reachable(edges, root, v) ==> !RowAtFullTail(info, OrderedBySource, edges, v)
    ensures ok ==> distance.Length == n && ShortestDistances(edges, root, distance[..])
  {
    hide On, EdgeIter.Valid, Lists, TailRow, RowAtFullTail, Reachable, ShortestDistances, SameEdges;
    var it: EdgeIter;
    ghost var rows;
    it, rows := WriteAndOpen(info, OrderedBySource, n, edges);
    OnIsValid(it, 0);
    ok, distance := PushDistances(it, rows, n, root);
    SameEdgesReachable(edges, rows, root, root);
    forall v: nat ensures Reachable(edges, root, v) <==> Reachable(rows, root, v) {
      SameEdgesReachable(edges, rows, root, v);
    }
    if ok {
      DistancesOfSameEdges(edges, rows, root, distance[..]);
    }
  }

  /** Pull BFS likewise: an edge from root lets the search pass a tail row, whatever lies behind it. */
  method StoredBfsPull(info: EdgeSizes, n: nat, edges: seq<Edge>, root: nat) returns (ok: bool, distance: array<int>)
    requires info.Validated() && n > 0 && InRange(edges, n)
    ensures ok <==>
      && edges != []
      && forall v: nat :: v < n && v != root && RowAtFullTail(info, OrderedByDest, edges, v) ==> Edge(root, v) in edges
    ensures ok ==> distance.Length == n && ShortestDistances(edges, root, distance[..])
  {
    hide On, EdgeIter.Valid, Lists, TailRow, RowAtFullTail, Reachable, ShortestDistances, SameEdges;
    var it: EdgeIter;
    ghost var rows;
    it, rows := WriteAndOpen(info, OrderedByDest, n, edges);
    OnIsValid(it, 0);
    ok, distance := PullDistances(it, rows, n, root);
    SameEdgesReachable(edges, rows, root, root);
    SameEdgesMembers(edges, rows);
    if ok {
      DistancesOfSameEdges(edges, rows, root, distance[..]);
    }
  }

  /** Push connected components on both orders of a stored graph. */
  method StoredComponentsPush(info: EdgeSizes, n: nat, edges: seq<Edge>)
    returns (ok: bool, component: array<nat>, ccNum: nat)
    requires info.Validated() && n > 0 && InRange(edges, n)
    ensures ok <==> PartialTails(info, OrderedBySource, edges, n) && PartialTails(info, OrderedByDest, edges, n)
    ensures ok ==> component.Length == n && MinLabels(edges, component[..]) && ccNum == |AllComponents(edges, n)|
  {
    hide On, EdgeIter.Valid, Lists, TailRow, RowAtFullTail, PartialTails, MinLabels, AllComponents;
    var it1: EdgeIter, it2: EdgeIter;
    ghost var bySrc, byDst;
    it1, bySrc := WriteAndOpen(info, OrderedBySource, n, edges);
    it2, byDst := WriteAndOpen(info, OrderedByDest, n, edges);
    FullTailsHaveRows(info, OrderedBySource, edges, n);
    FullTailsHaveRows(info, OrderedByDest, edges, n);
    forall v: nat | v < n
      ensures VertexWalkable(it1, it2, v) <==>
        !RowAtFullTail(info, OrderedBySource, edges, v) && !RowAtFullTail(info, OrderedByDest, edges, v)
    {
    }
    ok, component, ccNum := PushComponents(it1, bySrc, it2, byDst, n);
    if ok {
      LabelsOfSameEdges(edges, bySrc, component[..]);
    }
  }

  // ----- inputs on which the examples throw -----

  /** With edge chunks of one row a single edge fills its part: push BFS from its source throws. */
  lemma PushThrows()
    ensures var info, edges := EdgeSizes(1, 1, 1), [Edge(0, 1)];
      && info.Validated() && InRange(edges, 2)
      && Reachable(edges, 0, 0) && RowAtFullTail(info, OrderedBySource, edges, 0)
  {
    var info, edges := EdgeSizes(1, 1, 1), [Edge(0, 1)];
    EmptyPath(edges, 0);
    assert edges[..0] == [];
    assert InPart(info, OrderedBySource, edges[0], 0);
    assert Edge(0, 1) in edges && Key(OrderedBySource, Edge(0, 1)) == 0;
  }

  /** On the same edge pull BFS answers, because the edge comes from root; from the other end it throws. */
  lemma PullThrows()
    ensures var info, edges := EdgeSizes(1, 1, 1), [Edge(0, 1)];
      && RowAtFullTail(info, OrderedByDest, edges, 1) && Edge(0, 1) in edges && Edge(2, 1) !in edges
      && forall v: nat :: v < 3 && v != 1 ==> !RowAtFullTail(info, OrderedByDest, edges, v)
  {
    var info, edges := EdgeSizes(1, 1, 1), [Edge(0, 1)];
    assert edges[..0] == [];
    assert InPart(info, OrderedByDest, edges[0], 1);
    assert Edge(0, 1) in edges && Key(OrderedByDest, Edge(0, 1)) == 1;
  }
}
