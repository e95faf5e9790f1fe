/**
 * Connected components by label propagation over an edge stream
 * (cpp/examples/cc_stream_example.cc): passes over the edges until one changes nothing.
 */
module ComponentsStream {
  import opened Graph
  import opened Components

  /** A pass that has changed something has lowered the label sum; one that has not has
      found equal labels on every edge so far. */
  ghost predicate PassInv(edges: seq<Edge>, comp0: seq<nat>, comp: seq<nat>, it: nat, flag: bool)
    requires InRange(edges, |comp|) && it <= |edges|
  {
    && |comp| == |comp0|
    && Sound(edges, comp)
    && (flag ==> Sum(comp) < Sum(comp0))
    && (!flag ==> comp == comp0 && forall k :: 0 <= k < it ==> comp[edges[k].src] == comp[edges[k].dst])
  }

  lemma Lower(edges: seq<Edge>, comp: seq<nat>, u: nat, v: nat)
    requires Sound(edges, comp) && u < |comp| && v < |comp|
    requires Linked(edges, u, v) && comp[u] < comp[v]
    ensures Sound(edges, comp[v := comp[u]]) && Sum(comp[v := comp[u]]) < Sum(comp)
  {
    SoundUpdate(edges, comp, u, v);
    SumUpdate(comp, v, comp[u]);
  }

  /** One pass over the edges in stream order (lines 59-69). */
  method Pass(edges: seq<Edge>, component: array<nat>) returns (flag: bool)
    requires InRange(edges, component.Length) && Sound(edges, component[..])
    modifies component
    ensures Sound(edges, component[..])
    ensures flag ==> Sum(component[..]) < Sum(old(component[..]))
    ensures !flag ==> Stable(edges, component[..])
  {
    flag := false;
    ghost var comp0 := component[..];
    for it := 0 to |edges|
      invariant PassInv(edges, comp0, component[..], it, flag)
    {
      var src, dst := edges[it].src, edges[it].dst;
      ghost var comp := component[..];
      assert Edge(src, dst) in edges by { assert edges[it] == Edge(src, dst); }
      if component[src] < component[dst] {
        Lower(edges, comp, src, dst);
        component[dst] := component[src];
        flag := true;
        assert component[..] == comp[dst := comp[src]];
      } else if component[src] > component[dst] {
        Lower(edges, comp, dst, src);
        component[src] := component[dst];
        flag := true;
        assert component[..] == comp[src := comp[dst]];
      }
    }
  }

  /** The whole example: for every edge order it terminates, with the same labels and the
      same component count as the push version. */
  method ConnectedComponents(n: nat, edges: seq<Edge>) returns (component: array<nat>, ccNum: nat)
    requires InRange(edges, n)
    ensures component.Length == n
    ensures MinLabels(edges, component[..])
    ensures ccNum == |AllComponents(edges, n)|
  {
    component := new nat[n](i => i);
    SoundInitially(edges, component[..]);
    while true
      invariant Sound(edges, component[..])
      decreases Sum(component[..])
    {
      var flag := Pass(edges, component);
      if !flag {
        break;
      }
    }
    StableIsMinimal(edges, component[..]);
    ccNum := CountComponents(edges, component);
  }
}
