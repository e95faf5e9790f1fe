/**
 * Push-based connected components over a CSR and a CSC listing of the same edges
 * (cpp/examples/cc_push_example.cc): labels are lowered in place while a double-buffered
 * frontier is swept in vertex order.
 */
module ComponentsPush {
  import opened Graph
  import opened Components

  /**
   * Outgoing half-edges: wherever an edge could still lower its destination, the source
   * is in the next frontier, or is active now and not yet swept past. Vertices below vid
   * are swept; of vid's own row, the positions below `it` are.
   */
  ghost predicate OutCovered(bySrc: seq<Edge>, comp: seq<nat>, cur: seq<bool>, next: seq<bool>, vid: nat, it: nat)
    requires |cur| == |next| == |comp| && InRange(bySrc, |comp|)
  {
    forall k :: 0 <= k < |bySrc| ==>
      var e := bySrc[k];
      comp[e.src] < comp[e.dst] ==>
        next[e.src] || (cur[e.src] && (vid < e.src || (vid == e.src && it <= k)))
  }

  /** The same for incoming half-edges, over the CSC listing. */
  ghost predicate InCovered(byDst: seq<Edge>, comp: seq<nat>, cur: seq<bool>, next: seq<bool>, vid: nat, it: nat)
    requires |cur| == |next| == |comp| && InRange(byDst, |comp|)
  {
    forall k :: 0 <= k < |byDst| ==>
      var e := byDst[k];
      comp[e.dst] < comp[e.src] ==>
        next[e.dst] || (cur[e.dst] && (vid < e.dst || (vid == e.dst && it <= k)))
  }

  /** The invariant of a sweep: coverage, soundness, and an exact frontier count. */
  ghost predicate SweepInv(bySrc: seq<Edge>, byDst: seq<Edge>, comp: seq<nat>, cur: seq<bool>, next: seq<bool>,
                           vid: nat, it1: nat, it2: nat, count: nat)
  {
    && |cur| == |next| == |comp|
    && InRange(bySrc, |comp|) && InRange(byDst, |comp|)
    && OutCovered(bySrc, comp, cur, next, vid, it1)
    && InCovered(byDst, comp, cur, next, vid, it2)
    && Sound(bySrc, comp)
    && count == CountTrue(next)
  }

  /** What a sweep that started at labels comp0 has paid for its frontier. */
  ghost predicate Progress(comp0: seq<nat>, comp: seq<nat>, count: nat) {
    && Sum(comp) <= Sum(comp0)
    && (count > 0 ==> Sum(comp) < Sum(comp0))
  }

  /** Lowering the far end of a half-edge of vid and activating it keeps the sweep invariant. */
  lemma Relax(bySrc: seq<Edge>, byDst: seq<Edge>, comp: seq<nat>, cur: seq<bool>, next: seq<bool>,
              vid: nat, it1: nat, it2: nat, count: nat, w: nat)
    requires SweepInv(bySrc, byDst, comp, cur, next, vid, it1, it2, count)
    requires vid < |comp| && w < |comp| && Linked(bySrc, vid, w)
    requires comp[vid] < comp[w]
    ensures SweepInv(bySrc, byDst, comp[w := comp[vid]], cur, next[w := true], vid, it1, it2,
                     if next[w] then count else count + 1)
    ensures Sum(comp[w := comp[vid]]) < Sum(comp)
  {
    SoundUpdate(bySrc, comp, vid, w);
    SumUpdate(comp, w, comp[vid]);
    if next[w] {
      assert next[w := true] == next;
    } else {
      CountTrueUpdate(next, w);
    }
  }

  /** Once vid's label does not undercut the far end of its outgoing edge `it`, the cursor may pass it. */
  lemma PassOutgoing(bySrc: seq<Edge>, byDst: seq<Edge>, comp: seq<nat>, cur: seq<bool>, next: seq<bool>,
                     vid: nat, it1: nat, it2: nat, count: nat)
    requires SweepInv(bySrc, byDst, comp, cur, next, vid, it1, it2, count)
    requires it1 < |bySrc| && bySrc[it1].src == vid && comp[vid] >= comp[bySrc[it1].dst]
    ensures SweepInv(bySrc, byDst, comp, cur, next, vid, it1 + 1, it2, count)
  {
  }

  lemma PassIncoming(bySrc: seq<Edge>, byDst: seq<Edge>, comp: seq<nat>, cur: seq<bool>, next: seq<bool>,
                     vid: nat, it1: nat, it2: nat, count: nat)
    requires SweepInv(bySrc, byDst, comp, cur, next, vid, it1, it2, count)
    requires it2 < |byDst| && byDst[it2].dst == vid && comp[vid] >= comp[byDst[it2].src]
    ensures SweepInv(bySrc, byDst, comp, cur, next, vid, it1, it2 + 1, count)
  {
  }

  /** The loop body shared by both do/while loops: push vid's label over one half-edge to w. */
  method Push(ghost bySrc: seq<Edge>, ghost byDst: seq<Edge>, component: array<nat>, ghost cur: array<bool>,
              next: array<bool>, vid: nat, w: nat, ghost it1: nat, ghost it2: nat, ghost comp0: seq<nat>, count: nat)
    returns (count': nat)
    requires cur != next
    requires SweepInv(bySrc, byDst, component[..], cur[..], next[..], vid, it1, it2, count)
    requires Progress(comp0, component[..], count)
    requires vid < component.Length && w < component.Length && Linked(bySrc, vid, w)
    modifies component, next
    ensures SweepInv(bySrc, byDst, component[..], cur[..], next[..], vid, it1, it2, count')
    ensures Progress(comp0, component[..], count')
    ensures component[vid] >= component[w]
  {
    count' := count;
    ghost var c, a := component[..], next[..];
    if component[vid] < component[w] {
      Relax(bySrc, byDst, c, cur[..], a, vid, it1, it2, count, w);
      component[w] := component[vid];
      if !next[w] {
        next[w] := true;
        count' := count' + 1;
      }
      assert component[..] == c[w := c[vid]];
      assert next[..] == a[w := true];
    }
  }

  /** The do/while over the outgoing edges of vid (lines 77-88). */
  method PushOutgoing(bySrc: seq<Edge>, ghost byDst: seq<Edge>, component: array<nat>, ghost cur: array<bool>,
                      next: array<bool>, vid: nat, first: nat, ghost comp0: seq<nat>, count: nat)
    returns (count': nat, ghost it1: nat)
    requires cur != next
    requires SweepInv(bySrc, byDst, component[..], cur[..], next[..], vid, 0, 0, count)
    requires Progress(comp0, component[..], count)
    requires SortedBySrc(bySrc) && vid < component.Length && cur[vid]
    requires first < |bySrc| && bySrc[first].src == vid
    requires forall k :: 0 <= k < first ==> bySrc[k].src != vid
    modifies component, next
    ensures SweepInv(bySrc, byDst, component[..], cur[..], next[..], vid, it1, 0, count')
    ensures Progress(comp0, component[..], count')
    ensures forall k :: 0 <= k < |bySrc| && bySrc[k].src == vid ==> k < it1
  {
    var it := first;
    count' := count;
    var more := true;
    while more
      invariant more ==> first <= it < |bySrc| && bySrc[it].src == vid
      invariant !more ==> forall k :: 0 <= k < |bySrc| && bySrc[k].src == vid ==> k < it
      invariant it <= |bySrc|
      invariant SweepInv(bySrc, byDst, component[..], cur[..], next[..], vid, it, 0, count')
      invariant Progress(comp0, component[..], count')
      decreases |bySrc| - it, more
    {
      var src, dst := bySrc[it].src, bySrc[it].dst;
      assert Linked(bySrc, src, dst) by { assert bySrc[it] == Edge(src, dst); }
      count' := Push(bySrc, byDst, component, cur, next, src, dst, it, 0, comp0, count');
      PassOutgoing(bySrc, byDst, component[..], cur[..], next[..], vid, it, 0, count');
      more := NextSrc(bySrc, it);
      it := it + 1;
    }
    it1 := it;
  }

  /** The do/while over the incoming edges of vid (lines 90-101). */
  method PushIncoming(ghost bySrc: seq<Edge>, byDst: seq<Edge>, component: array<nat>, ghost cur: array<bool>,
                      next: array<bool>, vid: nat, ghost it1: nat, first: nat, ghost comp0: seq<nat>, count: nat)
    returns (count': nat, ghost it2: nat)
    requires cur != next && SameEdges(bySrc, byDst)
    requires SweepInv(bySrc, byDst, component[..], cur[..], next[..], vid, it1, 0, count)
    requires Progress(comp0, component[..], count)
    requires SortedByDst(byDst) && vid < component.Length && cur[vid]
    requires first < |byDst| && byDst[first].dst == vid
    requires forall k :: 0 <= k < first ==> byDst[k].dst != vid
    modifies component, next
    ensures SweepInv(bySrc, byDst, component[..], cur[..], next[..], vid, it1, it2, count')
    ensures Progress(comp0, component[..], count')
    ensures forall k :: 0 <= k < |byDst| && byDst[k].dst == vid ==> k < it2
  {
    var it := first;
    count' := count;
    var more := true;
    while more
      invariant more ==> first <= it < |byDst| && byDst[it].dst == vid
      invariant !more ==> forall k :: 0 <= k < |byDst| && byDst[k].dst == vid ==> k < it
      invariant it <= |byDst|
      invariant SweepInv(bySrc, byDst, component[..], cur[..], next[..], vid, it1, it, count')
      invariant Progress(comp0, component[..], count')
      decreases |byDst| - it, more
    {
      var src, dst := byDst[it].src, byDst[it].dst;
      assert Linked(bySrc, dst, src) by {
        assert byDst[it] == Edge(src, dst);
        SameEdgesMembers(bySrc, byDst);
      }
      count' := Push(bySrc, byDst, component, cur, next, dst, src, it1, it, comp0, count');
      PassIncoming(bySrc, byDst, component[..], cur[..], next[..], vid, it1, it, count');
      more := NextDst(byDst, it);
      it := it + 1;
    }
    it2 := it;
  }

  /** When every half-edge of vid is passed, or vid was not active, the sweep moves to vid + 1. */
  lemma NextVertex(bySrc: seq<Edge>, byDst: seq<Edge>, comp: seq<nat>, cur: seq<bool>, next: seq<bool>,
                   vid: nat, it1: nat, it2: nat, count: nat)
    requires SweepInv(bySrc, byDst, comp, cur, next, vid, it1, it2, count)
    requires vid < |comp|
    requires cur[vid] ==> forall k :: 0 <= k < |bySrc| && bySrc[k].src == vid ==> k < it1
    requires cur[vid] ==> forall k :: 0 <= k < |byDst| && byDst[k].dst == vid ==> k < it2
    ensures SweepInv(bySrc, byDst, comp, cur, next, vid + 1, 0, 0, count)
  {
  }

  /** Every half-edge that could still lower a label starts in the frontier. */
  ghost predicate FrontierCovers(bySrc: seq<Edge>, byDst: seq<Edge>, comp: seq<nat>, frontier: seq<bool>)
    requires |frontier| == |comp| && InRange(bySrc, |comp|) && InRange(byDst, |comp|)
  {
    && (forall k :: 0 <= k < |bySrc| ==> comp[bySrc[k].src] < comp[bySrc[k].dst] ==> frontier[bySrc[k].src])
    && (forall k :: 0 <= k < |byDst| ==> comp[byDst[k].dst] < comp[byDst[k].src] ==> frontier[byDst[k].dst])
  }

  /** The body of the vertex loop (lines 74-103): sweep vid if it is active. */
  method SweepVertex(bySrc: seq<Edge>, byDst: seq<Edge>, component: array<nat>, cur: array<bool>,
                     next: array<bool>, vid: nat, ghost comp0: seq<nat>, count: nat) returns (count': nat)
    requires cur != next && SameEdges(bySrc, byDst) && SortedBySrc(bySrc) && SortedByDst(byDst)
    requires SweepInv(bySrc, byDst, component[..], cur[..], next[..], vid, 0, 0, count)
    requires Progress(comp0, component[..], count)
    requires vid < component.Length
    modifies component, next
    ensures SweepInv(bySrc, byDst, component[..], cur[..], next[..], vid + 1, 0, 0, count')
    ensures Progress(comp0, component[..], count')
  {
    count' := count;
    ghost var it1, it2 := 0, 0;
    if cur[vid] {
      var found1, first1 := FirstSrc(bySrc, 0, 0, vid);
      if found1 {
        count', it1 := PushOutgoing(bySrc, byDst, component, cur, next, vid, first1, comp0, count');
      }
      var found2, first2 := FirstDst(byDst, 0, 0, vid);
      if found2 {
        count', it2 := PushIncoming(bySrc, byDst, component, cur, next, vid, it1, first2, comp0, count');
      }
    }
    NextVertex(bySrc, byDst, component[..], cur[..], next[..], vid, it1, it2, count');
  }

  /** One iteration of the outer loop (lines 71-103). */
  method Sweep(bySrc: seq<Edge>, byDst: seq<Edge>, component: array<nat>, cur: array<bool>, next: array<bool>)
    returns (count: nat)
    requires cur != next && cur.Length == next.Length == component.Length
    requires InRange(bySrc, component.Length) && SameEdges(bySrc, byDst) && InRange(byDst, component.Length)
    requires SortedBySrc(bySrc) && SortedByDst(byDst)
    requires Sound(bySrc, component[..]) && FrontierCovers(bySrc, byDst, component[..], cur[..])
    modifies component, next
    ensures Sound(bySrc, component[..]) && FrontierCovers(bySrc, byDst, component[..], next[..])
    ensures count == CountTrue(next[..])
    ensures Progress(old(component[..]), component[..], count)
  {
    ghost var comp0 := component[..];
    for i := 0 to next.Length
      invariant forall j :: 0 <= j < i ==> !next[j]
      invariant component[..] == comp0 && cur[..] == old(cur[..])
    {
      next[i] := false;
    }
    count := 0;
    CountTrueZero(next[..]);
    for vid := 0 to component.Length
      invariant cur[..] == old(cur[..])
      invariant SweepInv(bySrc, byDst, component[..], cur[..], next[..], vid, 0, 0, count)
      invariant Progress(comp0, component[..], count)
    {
      count := SweepVertex(bySrc, byDst, component, cur, next, vid, comp0, count);
    }
  }

  /** With nothing left in the frontier the labels are final. */
  lemma EmptyFrontierIsMinimal(bySrc: seq<Edge>, byDst: seq<Edge>, comp: seq<nat>, frontier: seq<bool>)
    requires |frontier| == |comp| && InRange(bySrc, |comp|) && InRange(byDst, |comp|)
    requires SameEdges(bySrc, byDst) && Sound(bySrc, comp)
    requires FrontierCovers(bySrc, byDst, comp, frontier) && CountTrue(frontier) == 0
    ensures MinLabels(bySrc, comp)
  {
    CountTrueZero(frontier);
    SameEdgesMembers(bySrc, byDst);
    forall k | 0 <= k < |bySrc| ensures comp[bySrc[k].src] == comp[bySrc[k].dst] {
      assert bySrc[k] in byDst;
    }
    StableIsMinimal(bySrc, comp);
  }

  /** With every vertex active the frontier covers all half-edges. */
  lemma FullFrontierCovers(bySrc: seq<Edge>, byDst: seq<Edge>, comp: seq<nat>, frontier: seq<bool>)
    requires |frontier| == |comp| && InRange(bySrc, |comp|) && InRange(byDst, |comp|)
    requires forall v :: 0 <= v < |frontier| ==> frontier[v]
    ensures FrontierCovers(bySrc, byDst, comp, frontier)
  {
  }

  /**
   * The whole example, for n vertices and any edges: it terminates with the minimum label
   * of every weakly connected component, and reports how many components there are.
   */
  method ConnectedComponents(n: nat, bySrc: seq<Edge>, byDst: seq<Edge>)
    returns (component: array<nat>, ccNum: nat)
    requires InRange(bySrc, n) && SameEdges(bySrc, byDst)
    requires SortedBySrc(bySrc) && SortedByDst(byDst)
    ensures component.Length == n
    ensures MinLabels(bySrc, component[..])
    ensures ccNum == |AllComponents(bySrc, n)|
  {
    hide Sound, FrontierCovers, MinLabels, SameEdges, SortedBySrc, SortedByDst, CountTrue, AllComponents, Sum, InRange;
    SameEdgesInRange(bySrc, byDst, n);
    component := new nat[n](i => i);
    var active0 := new bool[n](_ => true);
    var active1 := new bool[n](_ => false);
    var active := [active0, active1];
    SoundInitially(bySrc, component[..]);
    FullFrontierCovers(bySrc, byDst, component[..], active0[..]);
    var count := n;
    CountTrueAll(active0[..]);
    var iter := 0;
    while count > 0
      invariant iter >= 0 && component.Length == |component[..]| == n
      invariant active[iter % 2].Length == active[1 - iter % 2].Length == n
      invariant Sound(bySrc, component[..])
      invariant FrontierCovers(bySrc, byDst, component[..], active[iter % 2][..])
      invariant count == CountTrue(active[iter % 2][..])
      decreases Sum(component[..]), count
    {
      count := Sweep(bySrc, byDst, component, active[iter % 2], active[1 - iter % 2]);
      iter := iter + 1;
    }
    EmptyFrontierIsMinimal(bySrc, byDst, component[..], active[iter % 2][..]);
    ccNum := CountComponents(bySrc, component);
  }
}
