/**
 * Weakly connected components of a directed edge list: the meaning of the labels the
 * two cc examples compute, and of the number of components they report.
 */
module Components {
  import opened Graph

  /** u and v are the two ends of some edge, in either direction. */
  ghost predicate Linked(edges: seq<Edge>, u: nat, v: nat) {
    Edge(u, v) in edges || Edge(v, u) in edges
  }

  ghost predicate IsWalk(edges: seq<Edge>, p: seq<nat>) {
    && p != []
    && forall i :: 0 <= i < |p| - 1 ==> Linked(edges, p[i], p[i + 1])
  }

  /** Some walk that ignores edge directions joins u to v. */
  ghost predicate Connected(edges: seq<Edge>, u: nat, v: nat) {
    exists p :: IsWalk(edges, p) && p[0] == u && p[|p| - 1] == v
  }

  lemma ConnectedReflexive(edges: seq<Edge>, v: nat)
    ensures Connected(edges, v, v)
  {
    assert IsWalk(edges, [v]) && [v][0] == v;
  }

  lemma ConnectedStep(edges: seq<Edge>, u: nat, v: nat, w: nat)
    requires Connected(edges, u, v) && Linked(edges, v, w)
    ensures Connected(edges, u, w)
  {
    var p :| IsWalk(edges, p) && p[0] == u && p[|p| - 1] == v;
    var q := p + [w];
    assert IsWalk(edges, q);
    assert q[0] == u && q[|q| - 1] == w;
  }

  ghost function Reversed(p: seq<nat>): (q: seq<nat>)
    ensures |q| == |p|
    ensures forall i :: 0 <= i < |p| ==> q[i] == p[|p| - 1 - i]
  {
    seq(|p|, i requires 0 <= i < |p| => p[|p| - 1 - i])
  }

  lemma ConnectedSymmetric(edges: seq<Edge>, u: nat, v: nat)
    requires Connected(edges, u, v)
    ensures Connected(edges, v, u)
  {
    var p :| IsWalk(edges, p) && p[0] == u && p[|p| - 1] == v;
    var q := Reversed(p);
    forall i | 0 <= i < |q| - 1 ensures Linked(edges, q[i], q[i + 1]) {
      assert Linked(edges, p[|p| - 2 - i], p[|p| - 2 - i + 1]);
    }
    assert IsWalk(edges, q) && q[0] == v && q[|q| - 1] == u;
  }

  lemma ConnectedTransitive(edges: seq<Edge>, u: nat, v: nat, w: nat)
    requires Connected(edges, u, v) && Connected(edges, v, w)
    ensures Connected(edges, u, w)
  {
    var p :| IsWalk(edges, p) && p[0] == u && p[|p| - 1] == v;
    var q :| IsWalk(edges, q) && q[0] == v && q[|q| - 1] == w;
    var r := p + q[1..];
    forall i | 0 <= i < |r| - 1 ensures Linked(edges, r[i], r[i + 1]) {
      if i < |p| - 1 {
        assert Linked(edges, p[i], p[i + 1]);
      } else {
        assert r[i] == q[i - |p| + 1] && r[i + 1] == q[i - |p| + 2];
        assert Linked(edges, q[i - |p| + 1], q[i - |p| + 1 + 1]);
      }
    }
    assert IsWalk(edges, r) && r[0] == u;
    assert r[|r| - 1] == w;
  }

  /** comp[v] is the smallest vertex id in v's weakly connected component. */
  ghost predicate MinLabels(edges: seq<Edge>, comp: seq<nat>) {
    forall v :: 0 <= v < |comp| ==>
      && comp[v] < |comp|
      && Connected(edges, comp[v], v)
      && forall u :: 0 <= u < |comp| && Connected(edges, u, v) ==> comp[v] <= u
  }

  /** The labelling is determined by the edge set alone. */
  lemma MinLabelsUnique(edges: seq<Edge>, edges': seq<Edge>, a: seq<nat>, b: seq<nat>)
    requires SameEdges(edges, edges') && |a| == |b|
    requires MinLabels(edges, a) && MinLabels(edges', b)
    ensures a == b
  {
    SameEdgesMembers(edges, edges');
    forall v | 0 <= v < |a| ensures a[v] == b[v] {
      ConnectedSameEdges(edges, edges', a[v], v);
      ConnectedSameEdges(edges', edges, b[v], v);
    }
  }

  lemma ConnectedSameEdges(edges: seq<Edge>, edges': seq<Edge>, u: nat, v: nat)
    requires forall e :: e in edges <==> e in edges'
    requires Connected(edges, u, v)
    ensures Connected(edges', u, v)
  {
    var p :| IsWalk(edges, p) && p[0] == u && p[|p| - 1] == v;
    forall i | 0 <= i < |p| - 1 ensures Linked(edges', p[i], p[i + 1]) {
      assert Linked(edges, p[i], p[i + 1]);
    }
    assert IsWalk(edges', p);
  }

  /** What every label update of both algorithms keeps: labels only ever name a smaller
      vertex of the same component. */
  ghost predicate Sound(edges: seq<Edge>, comp: seq<nat>) {
    forall v :: 0 <= v < |comp| ==> comp[v] <= v && Connected(edges, comp[v], v)
  }

  lemma SoundUpdate(edges: seq<Edge>, comp: seq<nat>, u: nat, v: nat)
    requires Sound(edges, comp) && u < |comp| && v < |comp|
    requires Linked(edges, u, v) && comp[u] < comp[v]
    ensures Sound(edges, comp[v := comp[u]])
  {
    ConnectedStep(edges, comp[u], u, v);
  }

  lemma SoundInitially(edges: seq<Edge>, comp: seq<nat>)
    requires forall v :: 0 <= v < |comp| ==> comp[v] == v
    ensures Sound(edges, comp)
  {
    forall v | 0 <= v < |comp| ensures Connected(edges, comp[v], v) {
      ConnectedReflexive(edges, v);
    }
  }

  /** No edge joins two different labels. */
  ghost predicate Stable(edges: seq<Edge>, comp: seq<nat>)
    requires InRange(edges, |comp|)
  {
    forall k :: 0 <= k < |edges| ==> comp[edges[k].src] == comp[edges[k].dst]
  }

  lemma StableAlongWalk(edges: seq<Edge>, comp: seq<nat>, p: seq<nat>)
    requires InRange(edges, |comp|) && Stable(edges, comp)
    requires IsWalk(edges, p) && p[0] < |comp|
    ensures p[|p| - 1] < |comp| && comp[p[0]] == comp[p[|p| - 1]]
  {
    if |p| > 1 {
      assert Linked(edges, p[0], p[0 + 1]);
      var q := p[1..];
      forall i | 0 <= i < |q| - 1 ensures Linked(edges, q[i], q[i + 1]) {
        assert Linked(edges, p[i + 1], p[i + 1 + 1]);
      }
      StableAlongWalk(edges, comp, q);
    }
  }

  /** A sound labelling that no edge can improve is the minimum labelling. */
  lemma StableIsMinimal(edges: seq<Edge>, comp: seq<nat>)
    requires InRange(edges, |comp|)
    requires Sound(edges, comp) && Stable(edges, comp)
    ensures MinLabels(edges, comp)
  {
    forall u, v | 0 <= u < |comp| && 0 <= v < |comp| && Connected(edges, u, v)
      ensures comp[v] <= u
    {
      var p :| IsWalk(edges, p) && p[0] == u && p[|p| - 1] == v;
      StableAlongWalk(edges, comp, p);
    }
  }

  /** The weakly connected component of v among the vertices below n. */
  ghost function ComponentOf(edges: seq<Edge>, n: nat, v: nat): set<nat> {
    set u: nat | u < n && Connected(edges, u, v)
  }

  /** The components that own a vertex below m. */
  ghost function ComponentsBelow(edges: seq<Edge>, n: nat, m: nat): set<set<nat>> {
    set v: nat | v < m :: ComponentOf(edges, n, v)
  }

  /** All weakly connected components of the graph. */
  ghost function AllComponents(edges: seq<Edge>, n: nat): set<set<nat>> {
    ComponentsBelow(edges, n, n)
  }

  ghost function LabelsBelow(comp: seq<nat>, m: nat): set<nat>
    requires m <= |comp|
  {
    set v: nat | v < m :: comp[v]
  }

  lemma SameLabelSameComponent(edges: seq<Edge>, comp: seq<nat>, u: nat, v: nat)
    requires MinLabels(edges, comp) && u < |comp| && v < |comp|
    ensures comp[u] == comp[v] <==> ComponentOf(edges, |comp|, u) == ComponentOf(edges, |comp|, v)
  {
    var n := |comp|;
    if comp[u] == comp[v] {
      ConnectedSymmetric(edges, comp[u], u);
      ConnectedTransitive(edges, u, comp[u], v);
      ConnectedSymmetric(edges, u, v);
      forall w: nat | w < n
        ensures w in ComponentOf(edges, n, u) <==> w in ComponentOf(edges, n, v)
      {
        if Connected(edges, w, u) { ConnectedTransitive(edges, w, u, v); }
        if Connected(edges, w, v) { ConnectedTransitive(edges, w, v, u); }
      }
    }
    if ComponentOf(edges, n, u) == ComponentOf(edges, n, v) {
      assert comp[u] in ComponentOf(edges, n, u);
      assert comp[v] in ComponentOf(edges, n, v);
    }
  }

  lemma LabelSeenIffComponentSeen(edges: seq<Edge>, comp: seq<nat>, w: nat)
    requires MinLabels(edges, comp) && w < |comp|
    ensures comp[w] in LabelsBelow(comp, w) <==> ComponentOf(edges, |comp|, w) in ComponentsBelow(edges, |comp|, w)
  {
    forall v: nat | v < w
      ensures comp[v] == comp[w] <==> ComponentOf(edges, |comp|, v) == ComponentOf(edges, |comp|, w)
    {
      SameLabelSameComponent(edges, comp, v, w);
    }
    hide MinLabels, ComponentOf;
  }

  /** There are as many distinct minimum labels as components. */
  lemma {:induction false} LabelsCountComponents(edges: seq<Edge>, comp: seq<nat>, m: nat)
    requires MinLabels(edges, comp) && m <= |comp|
    ensures |LabelsBelow(comp, m)| == |ComponentsBelow(edges, |comp|, m)|
  {
    hide MinLabels, ComponentOf;
    var n := |comp|;
    if m == 0 {
      assert LabelsBelow(comp, 0) == {} && ComponentsBelow(edges, n, 0) == {};
    } else {
      var w := m - 1;
      assert LabelsBelow(comp, m) == LabelsBelow(comp, w) + {comp[w]};
      assert ComponentsBelow(edges, n, m) == ComponentsBelow(edges, n, w) + {ComponentOf(edges, n, w)};
      hide LabelsBelow, ComponentsBelow;
      LabelsCountComponents(edges, comp, w);
      LabelSeenIffComponentSeen(edges, comp, w);
    }
  }

  /** The counting loop shared by both examples: a hash set of the labels seen so far. */
  method CountComponents(ghost edges: seq<Edge>, component: array<nat>) returns (ccNum: nat)
    requires MinLabels(edges, component[..])
    ensures ccNum == |AllComponents(edges, component.Length)|
  {
    var ccCount: set<nat> := {};
    ccNum := 0;
    for i := 0 to component.Length
      invariant ccCount == LabelsBelow(component[..], i)
      invariant ccNum == |ccCount|
    {
      assert LabelsBelow(component[..], i + 1) == LabelsBelow(component[..], i) + {component[i]};
      if component[i] !in ccCount {
        ccCount := ccCount + {component[i]};
        ccNum := ccNum + 1;
      }
    }
    LabelsCountComponents(edges, component[..], component.Length);
  }
}
