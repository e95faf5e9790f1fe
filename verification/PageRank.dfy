/**
 * PageRank by scattering along an edge list (cpp/examples/pagerank_example.cc), over the
 * reals. A vertex without outgoing edges keeps its damped rank.
 */
module PageRank {
  import opened Graph

  const DAMPING: real := 0.85
  const MAX_ITERS: nat := 10

  /** How many of the first m edges leave v. */
  function OutDegree(edges: seq<Edge>, m: nat, v: nat): nat
    requires m <= |edges|
  {
    if m == 0 then 0
    else OutDegree(edges, m - 1, v) + if edges[m - 1].src == v then 1 else 0
  }

  lemma {:induction false} OutDegreePositive(edges: seq<Edge>, m: nat, k: nat)
    requires k < m <= |edges|
    ensures OutDegree(edges, m, edges[k].src) > 0
  {
    if k < m - 1 {
      OutDegreePositive(edges, m - 1, k);
    }
  }

  /** The part of each vertex's rank that travels along every one of its outgoing edges. */
  ghost function Shares(edges: seq<Edge>, pr: seq<real>): (r: seq<real>)
    ensures |r| == |pr|
  {
    seq(|pr|, u requires 0 <= u < |pr| =>
      if OutDegree(edges, |edges|, u) == 0 then 0.0 else pr[u] / OutDegree(edges, |edges|, u) as real)
  }

  /** What v receives over the first m edges when every edge carries its source's share. */
  ghost function Inflow(edges: seq<Edge>, share: seq<real>, m: nat, v: nat): real
    requires m <= |edges| && InRange(edges, |share|)
  {
    if m == 0 then 0.0
    else Inflow(edges, share, m - 1, v) + if edges[m - 1].dst == v then share[edges[m - 1].src] else 0.0
  }

  /** The rank v has after one iteration. */
  ghost function NewRank(edges: seq<Edge>, pr: seq<real>, v: nat): real
    requires InRange(edges, |pr|) && v < |pr|
  {
    DAMPING * Inflow(edges, Shares(edges, pr), |edges|, v)
    + (1.0 - DAMPING) * (1.0 / |pr| as real)
    + if OutDegree(edges, |edges|, v) == 0 then DAMPING * pr[v] else 0.0
  }

  ghost function Iterate(edges: seq<Edge>, pr: seq<real>): (r: seq<real>)
    requires InRange(edges, |pr|)
    ensures |r| == |pr|
  {
    seq(|pr|, v requires 0 <= v < |pr| => NewRank(edges, pr, v))
  }

  /** The starting ranks. */
  ghost function Uniform(n: nat): (r: seq<real>)
    ensures |r| == n
  {
    seq(n, i requires 0 <= i < n => 1.0 / n as real)
  }

  /** The ranks after k iterations. */
  ghost function Ranks(edges: seq<Edge>, n: nat, k: nat): (r: seq<real>)
    requires InRange(edges, n)
    ensures |r| == n
  {
    if k == 0 then Uniform(n)
    else Iterate(edges, Ranks(edges, n, k - 1))
  }

  // ----- conservation of rank mass -----

  ghost function Mass(s: seq<real>): real {
    if s == [] then 0.0 else s[0] + Mass(s[1..])
  }

  lemma MassUpdate(s: seq<real>, i: nat, x: real)
    requires i < |s|
    ensures Mass(s[i := x]) == Mass(s) - s[i] + x
  {
    if i == 0 {
      assert s[0 := x][1..] == s[1..];
    } else {
      assert s[i := x][1..] == s[1..][i - 1 := x];
      MassUpdate(s[1..], i - 1, x);
    }
  }

  ghost function Scaled(s: seq<real>, x: real): (r: seq<real>)
    ensures |r| == |s| && forall v :: 0 <= v < |s| ==> r[v] == x * s[v]
  {
    seq(|s|, v requires 0 <= v < |s| => x * s[v])
  }

  lemma {:induction false} MassScaled(s: seq<real>, x: real, total: real)
    requires Mass(s) == total
    ensures Mass(Scaled(s, x)) == x * total
  {
    if s != [] {
      var rest := Mass(s[1..]);
      MassScaled(s[1..], x, rest);
      var tail := Scaled(s, x)[1..];
      forall v | 0 <= v < |tail| ensures tail[v] == Scaled(s[1..], x)[v] {
        assert tail[v] == x * s[v + 1];
      }
      assert tail == Scaled(s[1..], x);
      Distribute(x, s[0], rest);
    }
  }

  lemma Distribute(x: real, a: real, b: real)
    ensures x * (a + b) == x * a + x * b
  {
  }

  lemma {:induction false} MassSum(a: seq<real>, b: seq<real>, r: seq<real>)
    requires |a| == |b| == |r|
    requires forall v :: 0 <= v < |r| ==> r[v] == a[v] + b[v]
    ensures Mass(r) == Mass(a) + Mass(b)
  {
    if r != [] {
      MassSum(a[1..], b[1..], r[1..]);
    }
  }

  lemma {:induction false} MassConstant(s: seq<real>, x: real)
    requires forall v :: 0 <= v < |s| ==> s[v] == x
    ensures Mass(s) == |s| as real * x
  {
    if s != [] {
      MassConstant(s[1..], x);
    }
  }

  ghost function Inflows(edges: seq<Edge>, share: seq<real>, m: nat): (r: seq<real>)
    requires m <= |edges| && InRange(edges, |share|)
    ensures |r| == |share|
  {
    seq(|share|, v requires 0 <= v < |share| => Inflow(edges, share, m, v))
  }

  /** What v sends over the first m edges. */
  ghost function Outflow(edges: seq<Edge>, share: seq<real>, m: nat, v: nat): real
    requires m <= |edges| && InRange(edges, |share|)
  {
    if m == 0 then 0.0
    else Outflow(edges, share, m - 1, v) + if edges[m - 1].src == v then share[v] else 0.0
  }

  ghost function Outflows(edges: seq<Edge>, share: seq<real>, m: nat): (r: seq<real>)
    requires m <= |edges| && InRange(edges, |share|)
    ensures |r| == |share|
  {
    seq(|share|, v requires 0 <= v < |share| => Outflow(edges, share, m, v))
  }

  /** Double counting: over any prefix of the edges, as much is received as is sent. */
  lemma {:induction false} ReceivedIsSent(edges: seq<Edge>, share: seq<real>, m: nat)
    requires m <= |edges| && InRange(edges, |share|)
    ensures Mass(Inflows(edges, share, m)) == Mass(Outflows(edges, share, m))
  {
    if m == 0 {
      assert Inflows(edges, share, 0) == Outflows(edges, share, 0);
    } else {
      ReceivedIsSent(edges, share, m - 1);
      var e := edges[m - 1];
      var inn, out := Inflows(edges, share, m - 1), Outflows(edges, share, m - 1);
      assert Inflows(edges, share, m) == inn[e.dst := inn[e.dst] + share[e.src]];
      assert Outflows(edges, share, m) == out[e.src := out[e.src] + share[e.src]];
      MassUpdate(inn, e.dst, inn[e.dst] + share[e.src]);
      MassUpdate(out, e.src, out[e.src] + share[e.src]);
    }
  }

  /** Edges grouped by source: v sends its share once per outgoing edge. */
  lemma {:induction false} OutflowIsDegreeTimesShare(edges: seq<Edge>, share: seq<real>, m: nat, v: nat)
    requires m <= |edges| && InRange(edges, |share|) && v < |share|
    ensures Outflow(edges, share, m, v) == OutDegree(edges, m, v) as real * share[v]
  {
    if m > 0 {
      OutflowIsDegreeTimesShare(edges, share, m - 1, v);
      OneMore(OutDegree(edges, m - 1, v), share[v]);
    }
  }

  lemma OneMore(d: nat, x: real)
    ensures (d + 1) as real * x == d as real * x + x
  {
  }

  lemma WholeShare(d: nat, x: real, share: real)
    requires share == if d == 0 then 0.0 else x / d as real
    ensures d as real * share == if d == 0 then 0.0 else x
  {
  }

  /** The rank held by vertices without outgoing edges. */
  ghost function Dangling(edges: seq<Edge>, pr: seq<real>): (r: seq<real>)
    ensures |r| == |pr|
  {
    seq(|pr|, v requires 0 <= v < |pr| => if OutDegree(edges, |edges|, v) == 0 then pr[v] else 0.0)
  }

  lemma SentOrHeld(edges: seq<Edge>, pr: seq<real>, v: nat)
    requires InRange(edges, |pr|) && v < |pr|
    ensures pr[v] == Outflow(edges, Shares(edges, pr), |edges|, v) + Dangling(edges, pr)[v]
  {
    var d, share := OutDegree(edges, |edges|, v), Shares(edges, pr)[v];
    var sent := d as real * share;
    assert Outflow(edges, Shares(edges, pr), |edges|, v) == sent by {
      OutflowIsDegreeTimesShare(edges, Shares(edges, pr), |edges|, v);
    }
    assert sent == if d == 0 then 0.0 else pr[v] by { WholeShare(d, pr[v], share); }
  }

  /** What is sent along edges and what dangling vertices hold make up all rank. */
  lemma SentOrDangling(edges: seq<Edge>, pr: seq<real>)
    requires InRange(edges, |pr|)
    ensures Mass(pr) == Mass(Outflows(edges, Shares(edges, pr), |edges|)) + Mass(Dangling(edges, pr))
  {
    var out := Outflows(edges, Shares(edges, pr), |edges|);
    forall v: nat | v < |pr| ensures pr[v] == out[v] + Dangling(edges, pr)[v] {
      SentOrHeld(edges, pr, v);
    }
    MassSum(out, Dangling(edges, pr), pr);
  }

  /** What a vertex has before damping: what it received, or held if it is dangling. */
  ghost function Gathered(edges: seq<Edge>, pr: seq<real>): (r: seq<real>)
    requires InRange(edges, |pr|)
    ensures |r| == |pr|
  {
    var inn, held := Inflows(edges, Shares(edges, pr), |edges|), Dangling(edges, pr);
    seq(|pr|, v requires 0 <= v < |pr| => inn[v] + held[v])
  }

  lemma UniformScaled(n: nat, x: real)
    requires n > 0
    ensures Mass(Scaled(Uniform(n), x)) == x
  {
    MassUniform(Uniform(n));
    MassScaled(Uniform(n), x, 1.0);
  }

  lemma NewRankSplit(edges: seq<Edge>, pr: seq<real>, v: nat)
    requires InRange(edges, |pr|) && v < |pr|
    ensures NewRank(edges, pr, v)
         == Scaled(Gathered(edges, pr), DAMPING)[v] + Scaled(Uniform(|pr|), 1.0 - DAMPING)[v]
  {
    Distribute(DAMPING, Inflow(edges, Shares(edges, pr), |edges|, v), Dangling(edges, pr)[v]);
  }

  lemma GatheredMass(edges: seq<Edge>, pr: seq<real>)
    requires InRange(edges, |pr|) && Mass(pr) == 1.0
    ensures Mass(Gathered(edges, pr)) == 1.0
  {
    ReceivedIsSent(edges, Shares(edges, pr), |edges|);
    SentOrDangling(edges, pr);
    MassSum(Inflows(edges, Shares(edges, pr), |edges|), Dangling(edges, pr), Gathered(edges, pr));
  }

  /** One iteration keeps the total rank, dangling vertices included. */
  lemma IterateKeepsMass(edges: seq<Edge>, pr: seq<real>)
    requires InRange(edges, |pr|) && |pr| > 0 && Mass(pr) == 1.0
    ensures Mass(Iterate(edges, pr)) == 1.0
  {
    hide InRange, Gathered, Scaled, Uniform, Mass, NewRank;
    var damped := Scaled(Gathered(edges, pr), DAMPING);
    var teleported := Scaled(Uniform(|pr|), 1.0 - DAMPING);
    GatheredMass(edges, pr);
    MassScaled(Gathered(edges, pr), DAMPING, 1.0);
    UniformScaled(|pr|, 1.0 - DAMPING);
    forall v: nat | v < |pr| ensures Iterate(edges, pr)[v] == damped[v] + teleported[v] {
      NewRankSplit(edges, pr, v);
    }
    MassSum(damped, teleported, Iterate(edges, pr));
  }

  lemma MassUniform(s: seq<real>)
    requires |s| > 0 && forall v :: 0 <= v < |s| ==> s[v] == 1.0 / |s| as real
    ensures Mass(s) == 1.0
  {
    var x := 1.0 / |s| as real;
    MassConstant(s, x);
  }

  /** In every iteration the ranks sum to one. */
  lemma {:induction false} RankMassConserved(edges: seq<Edge>, n: nat, k: nat)
    requires InRange(edges, n) && n > 0
    ensures Mass(Ranks(edges, n, k)) == 1.0
  {
    if k == 0 {
      MassUniform(Ranks(edges, n, 0));
    } else {
      RankMassConserved(edges, n, k - 1);
      IterateKeepsMass(edges, Ranks(edges, n, k - 1));
    }
  }

  lemma {:induction false} InflowNonNegative(edges: seq<Edge>, share: seq<real>, m: nat, v: nat)
    requires m <= |edges| && InRange(edges, |share|)
    requires forall u :: 0 <= u < |share| ==> share[u] >= 0.0
    ensures Inflow(edges, share, m, v) >= 0.0
  {
    if m > 0 {
      InflowNonNegative(edges, share, m - 1, v);
    }
  }

  /** Every rank is non-negative, and at least the teleport share after the first iteration. */
  lemma {:induction false} RankLowerBound(edges: seq<Edge>, n: nat, k: nat)
    requires InRange(edges, n) && n > 0
    ensures forall v :: 0 <= v < n ==> Ranks(edges, n, k)[v] >= 0.0
    ensures k > 0 ==> forall v :: 0 <= v < n ==> Ranks(edges, n, k)[v] >= (1.0 - DAMPING) / n as real
  {
    if k > 0 {
      RankLowerBound(edges, n, k - 1);
      var pr := Ranks(edges, n, k - 1);
      forall v | 0 <= v < n ensures Ranks(edges, n, k)[v] >= (1.0 - DAMPING) / n as real {
        InflowNonNegative(edges, Shares(edges, pr), |edges|, v);
        assert (1.0 - DAMPING) * (1.0 / n as real) == (1.0 - DAMPING) / n as real;
      }
    }
  }

  // ----- the rank equation, in terms of the graph -----

  /** How many edges lead from u to v. */
  ghost function Parallel(edges: seq<Edge>, u: nat, v: nat): nat {
    multiset(edges)[Edge(u, v)]
  }

  lemma ParallelStep(edges: seq<Edge>, m: nat, u: nat, v: nat)
    requires 0 < m <= |edges|
    ensures Parallel(edges[..m], u, v) == Parallel(edges[..m - 1], u, v) + if edges[m - 1] == Edge(u, v) then 1 else 0
  {
    assert edges[..m] == edges[..m - 1] + [edges[m - 1]];
  }

  lemma ParallelOfNone(u: nat, v: nat)
    ensures Parallel([], u, v) == 0
  {
  }

  /** The out-degree is the number of positions that hold an edge leaving u. */
  lemma {:induction false} OutDegreeCounts(edges: seq<Edge>, m: nat, u: nat)
    requires m <= |edges|
    ensures OutDegree(edges, m, u) == |set k | 0 <= k < m && edges[k].src == u|
  {
    var all := set k | 0 <= k < m && edges[k].src == u;
    if m == 0 {
      assert all == {};
    } else {
      OutDegreeCounts(edges, m - 1, u);
      var few := set k | 0 <= k < m - 1 && edges[k].src == u;
      if edges[m - 1].src == u {
        assert all == few + {m - 1};
      } else {
        assert all == few;
      }
    }
  }

  /** Per source vertex, what v receives over the first m edges. */
  ghost function ReceivedFrom(edges: seq<Edge>, share: seq<real>, m: nat, v: nat): (r: seq<real>)
    requires m <= |edges|
    ensures |r| == |share|
  {
    seq(|share|, u requires 0 <= u < |share| => Parallel(edges[..m], u, v) as real * share[u])
  }

  lemma ReceivedStep(edges: seq<Edge>, share: seq<real>, m: nat, v: nat, u: nat)
    requires 0 < m <= |edges| && u < |share|
    ensures ReceivedFrom(edges, share, m, v)[u] ==
            ReceivedFrom(edges, share, m - 1, v)[u] + if edges[m - 1] == Edge(u, v) then share[u] else 0.0
  {
    hide Parallel;
    ParallelStep(edges, m, u, v);
    OneMore(Parallel(edges[..m - 1], u, v), share[u]);
  }

  /** An inflow is the sum over the source vertices, each once per edge to v. */
  lemma {:induction false} InflowIsSum(edges: seq<Edge>, share: seq<real>, m: nat, v: nat)
    requires m <= |edges| && InRange(edges, |share|)
    ensures Inflow(edges, share, m, v) == Mass(ReceivedFrom(edges, share, m, v))
  {
    hide Parallel;
    if m == 0 {
      NothingReceived(edges, share, v);
    } else {
      InflowIsSum(edges, share, m - 1, v);
      var e, before, now := edges[m - 1], ReceivedFrom(edges, share, m - 1, v), ReceivedFrom(edges, share, m, v);
      forall u: nat | u < |share| ensures now[u] == before[u] + if e == Edge(u, v) then share[u] else 0.0 {
        ReceivedStep(edges, share, m, v, u);
      }
      hide ReceivedFrom;
      MassStep(before, now, e.src, if e.dst == v then share[e.src] else 0.0);
    }
  }

  lemma NothingReceived(edges: seq<Edge>, share: seq<real>, v: nat)
    ensures Mass(ReceivedFrom(edges, share, 0, v)) == 0.0
  {
    MassConstant(ReceivedFrom(edges, share, 0, v), 0.0);
  }

  lemma MassStep(before: seq<real>, now: seq<real>, i: nat, x: real)
    requires |before| == |now| && i < |now|
    requires forall u: nat :: u < |now| ==> now[u] == before[u] + if u == i then x else 0.0
    ensures Mass(now) == Mass(before) + x
  {
    assert now == before[i := before[i] + x];
    MassUpdate(before, i, before[i] + x);
  }

  /** What v receives from u: u's rank divided by its out-degree, once per edge. */
  ghost function Sent(edges: seq<Edge>, pr: seq<real>, u: nat, v: nat): real
    requires u < |pr|
  {
    var degree := |set k | 0 <= k < |edges| && edges[k].src == u|;
    if degree == 0 then 0.0 else Parallel(edges, u, v) as real * (pr[u] / degree as real)
  }

  ghost function SentTo(edges: seq<Edge>, pr: seq<real>, v: nat): (r: seq<real>)
    ensures |r| == |pr|
  {
    seq(|pr|, u requires 0 <= u < |pr| => Sent(edges, pr, u, v))
  }

  lemma SentIsReceived(edges: seq<Edge>, pr: seq<real>, v: nat)
    ensures SentTo(edges, pr, v) == ReceivedFrom(edges, Shares(edges, pr), |edges|, v)
  {
    hide Parallel;
    assert edges[..|edges|] == edges;
    forall u: nat | u < |pr|
      ensures SentTo(edges, pr, v)[u] == ReceivedFrom(edges, Shares(edges, pr), |edges|, v)[u]
    {
      OutDegreeCounts(edges, |edges|, u);
    }
  }

  /**
   * The next rank of v: the damped sum of what every vertex u sends to v, the teleport share,
   * and the damped own rank of a vertex without outgoing edges.
   */
  lemma RankEquation(edges: seq<Edge>, n: nat, k: nat, v: nat)
    requires InRange(edges, n) && v < n
    ensures Ranks(edges, n, 0)[v] == 1.0 / n as real
    ensures Ranks(edges, n, k + 1)[v] ==
      DAMPING * Mass(SentTo(edges, Ranks(edges, n, k), v)) + (1.0 - DAMPING) / n as real
      + if exists i :: 0 <= i < |edges| && edges[i].src == v then 0.0 else DAMPING * Ranks(edges, n, k)[v]
  {
    hide Sent, ReceivedFrom, Mass, Inflow, Shares, OutDegree, SentTo;
    var pr := Ranks(edges, n, k);
    InflowIsSum(edges, Shares(edges, pr), |edges|, v);
    SentIsReceived(edges, pr, v);
    NoOutDegree(edges, v);
    Teleport(n);
  }

  lemma Teleport(n: nat)
    requires n > 0
    ensures (1.0 - DAMPING) * (1.0 / n as real) == (1.0 - DAMPING) / n as real
  {
  }

  lemma NoOutDegree(edges: seq<Edge>, v: nat)
    ensures OutDegree(edges, |edges|, v) == 0 <==> !exists i :: 0 <= i < |edges| && edges[i].src == v
  {
    OutDegreeCounts(edges, |edges|, v);
    var all := set k | 0 <= k < |edges| && edges[k].src == v;
    if i :| 0 <= i < |edges| && edges[i].src == v {
      assert i in all;
    } else {
      assert all == {};
    }
  }

  /** v has an outgoing edge and no incoming one. */
  ghost predicate OnlySource(edges: seq<Edge>, v: nat) {
    (exists i :: 0 <= i < |edges| && edges[i].src == v) && forall i :: 0 <= i < |edges| ==> edges[i].dst != v
  }

  /** A vertex that is only ever a source keeps the teleport share and nothing else. */
  lemma SourceRank(edges: seq<Edge>, n: nat, k: nat, v: nat)
    requires InRange(edges, n) && v < n && k > 0 && OnlySource(edges, v)
    ensures Ranks(edges, n, k)[v] == (1.0 - DAMPING) / n as real
  {
    hide Ranks, Mass;
    var pr := Ranks(edges, n, k - 1);
    RankEquation(edges, n, k - 1, v);
    forall u: nat | u < n ensures SentTo(edges, pr, v)[u] == 0.0 {
      assert Edge(u, v) !in edges;
    }
    MassConstant(SentTo(edges, pr, v), 0.0);
  }

  /** The out-degree is also the sum over the target vertices. */
  lemma {:induction false} OutDegreeIsSum(edges: seq<Edge>, n: nat, m: nat, u: nat)
    requires m <= |edges| && InRange(edges, n)
    ensures OutDegree(edges, m, u) == Sum(seq(n, w requires 0 <= w < n => Parallel(edges[..m], u, w)))
  {
    hide Parallel;
    var now: seq<nat> := seq(n, w requires 0 <= w < n => Parallel(edges[..m], u, w));
    if m == 0 {
      forall w: nat | w < n ensures now[w] == 0 {
        ParallelOfNone(u, w);
      }
      SumOfZeros(now);
    } else {
      OutDegreeIsSum(edges, n, m - 1, u);
      var e := edges[m - 1];
      var before: seq<nat> := seq(n, w requires 0 <= w < n => Parallel(edges[..m - 1], u, w));
      forall w: nat | w < n ensures now[w] == if e == Edge(u, w) then before[w] + 1 else before[w] {
        ParallelStep(edges, m, u, w);
      }
      if e.src == u {
        assert now == before[e.dst := before[e.dst] + 1];
        SumUpdate(before, e.dst, before[e.dst] + 1);
      } else {
        assert now == before;
      }
    }
  }

  lemma {:induction false} SumOfZeros(s: seq<nat>)
    requires forall i :: 0 <= i < |s| ==> s[i] == 0
    ensures Sum(s) == 0
  {
    if s != [] {
      SumOfZeros(s[1..]);
    }
  }

  lemma SameDegrees(edges: seq<Edge>, edges': seq<Edge>, n: nat, u: nat)
    requires SameEdges(edges, edges') && InRange(edges, n) && InRange(edges', n)
    ensures OutDegree(edges, |edges|, u) == OutDegree(edges', |edges'|, u)
  {
    assert edges[..|edges|] == edges && edges'[..|edges'|] == edges';
    OutDegreeIsSum(edges, n, |edges|, u);
    OutDegreeIsSum(edges', n, |edges'|, u);
    forall w: nat | w < n ensures Parallel(edges[..|edges|], u, w) == Parallel(edges'[..|edges'|], u, w) {
    }
    assert seq(n, w requires 0 <= w < n => Parallel(edges[..|edges|], u, w))
        == seq(n, w requires 0 <= w < n => Parallel(edges'[..|edges'|], u, w));
  }

  lemma SameInflow(edges: seq<Edge>, edges': seq<Edge>, share: seq<real>, v: nat)
    requires SameEdges(edges, edges') && InRange(edges, |share|) && InRange(edges', |share|)
    ensures Inflow(edges, share, |edges|, v) == Inflow(edges', share, |edges'|, v)
  {
    hide Parallel, Mass, Inflow, SameEdges;
    InflowIsSum(edges, share, |edges|, v);
    InflowIsSum(edges', share, |edges'|, v);
    forall u: nat | u < |share|
      ensures ReceivedFrom(edges, share, |edges|, v)[u] == ReceivedFrom(edges', share, |edges'|, v)[u]
    {
      SameParallel(edges, edges', u, v);
    }
    assert ReceivedFrom(edges, share, |edges|, v) == ReceivedFrom(edges', share, |edges'|, v);
  }

  lemma SameParallel(edges: seq<Edge>, edges': seq<Edge>, u: nat, v: nat)
    requires SameEdges(edges, edges')
    ensures Parallel(edges[..|edges|], u, v) == Parallel(edges'[..|edges'|], u, v)
  {
    assert edges[..|edges|] == edges && edges'[..|edges'|] == edges';
  }

  lemma SameIterate(edges: seq<Edge>, edges': seq<Edge>, pr: seq<real>)
    requires SameEdges(edges, edges') && InRange(edges, |pr|) && InRange(edges', |pr|)
    ensures Iterate(edges, pr) == Iterate(edges', pr)
  {
    hide Inflow, OutDegree, SameEdges, InRange;
    forall u: nat | u < |pr| ensures OutDegree(edges, |edges|, u) == OutDegree(edges', |edges'|, u) {
      SameDegrees(edges, edges', |pr|, u);
    }
    assert Shares(edges, pr) == Shares(edges', pr);
    forall v: nat | v < |pr| ensures Iterate(edges, pr)[v] == Iterate(edges', pr)[v] {
      SameInflow(edges, edges', Shares(edges, pr), v);
    }
  }

  /** The ranks depend on the edges as a multiset, not on the order they are streamed in. */
  lemma {:induction false} RanksOfSameEdges(edges: seq<Edge>, edges': seq<Edge>, n: nat, k: nat)
    requires SameEdges(edges, edges') && InRange(edges, n) && InRange(edges', n)
    ensures Ranks(edges, n, k) == Ranks(edges', n, k)
  {
    if k > 0 {
      RanksOfSameEdges(edges, edges', n, k - 1);
      SameIterate(edges, edges', Ranks(edges, n, k - 1));
    }
  }

  // ----- the program -----

  /** The scatter loop (lines 70-73): no out-degree it divides by is zero. */
  method Scatter(edges: seq<Edge>, prCurr: array<real>, prNext: array<real>, outDegree: array<nat>)
    requires prCurr != prNext && prCurr.Length == prNext.Length == outDegree.Length
    requires InRange(edges, prCurr.Length)
    requires forall v :: 0 <= v < prNext.Length ==> prNext[v] == 0.0
    requires forall v :: 0 <= v < prNext.Length ==> outDegree[v] == OutDegree(edges, |edges|, v)
    modifies prNext
    ensures prNext[..] == Inflows(edges, Shares(edges, prCurr[..]), |edges|)
  {
    ghost var pr := prCurr[..];
    for it := 0 to |edges|
      invariant prCurr[..] == pr
      invariant forall v: nat :: v < prNext.Length ==> prNext[v] == Inflow(edges, Shares(edges, pr), it, v)
    {
      var src, dst := edges[it].src, edges[it].dst;
      OutDegreePositive(edges, |edges|, it);
      prNext[dst] := prNext[dst] + prCurr[src] / outDegree[src] as real;
    }
  }

  /** The update loop (lines 74-81), which also resets prNext for the next iteration. */
  method Apply(ghost edges: seq<Edge>, prCurr: array<real>, prNext: array<real>, outDegree: array<nat>)
    requires prCurr != prNext && prCurr.Length == prNext.Length == outDegree.Length
    requires InRange(edges, prCurr.Length)
    requires prNext[..] == Inflows(edges, Shares(edges, prCurr[..]), |edges|)
    requires forall v :: 0 <= v < prNext.Length ==> outDegree[v] == OutDegree(edges, |edges|, v)
    modifies prCurr, prNext
    ensures prCurr[..] == Iterate(edges, old(prCurr[..]))
    ensures forall v :: 0 <= v < prNext.Length ==> prNext[v] == 0.0
  {
    var n := prCurr.Length;
    ghost var pr := prCurr[..];
    for i := 0 to n
      invariant forall v :: 0 <= v < i ==> prNext[v] == 0.0
      invariant forall v: nat :: v < i ==> prCurr[v] == NewRank(edges, pr, v)
      invariant forall v :: i <= v < n ==> prCurr[v] == pr[v]
      invariant forall v: nat :: i <= v < n ==> prNext[v] == Inflow(edges, Shares(edges, pr), |edges|, v)
    {
      prNext[i] := DAMPING * prNext[i] + (1.0 - DAMPING) * (1.0 / n as real);
      if outDegree[i] == 0 {
        prNext[i] := prNext[i] + DAMPING * prCurr[i];
      }
      prCurr[i] := prNext[i];
      prNext[i] := 0.0;
    }
  }

  /** The whole example; for n > 0 the result is a probability distribution. */
  method ComputePageRank(n: nat, edges: seq<Edge>) returns (prCurr: array<real>)
    requires InRange(edges, n)
    ensures prCurr.Length == n && prCurr[..] == Ranks(edges, n, 10)
    ensures n > 0 ==> Mass(prCurr[..]) == 1.0
    ensures forall v :: 0 <= v < n ==> prCurr[v] >= (1.0 - DAMPING) / n as real
    ensures forall v: nat :: v < n && OnlySource(edges, v) ==> prCurr[v] == 0.15 / n as real
  {
    prCurr := new real[n];
    var prNext := new real[n];
    var outDegree := new nat[n];
    for i := 0 to n
      invariant forall v :: 0 <= v < i ==> prCurr[v] == 1.0 / n as real && prNext[v] == 0.0 && outDegree[v] == 0
    {
      prCurr[i] := 1.0 / n as real;
      prNext[i] := 0.0;
      outDegree[i] := 0;
    }
    for it := 0 to |edges|
      invariant forall v: nat :: v < n ==> outDegree[v] == OutDegree(edges, it, v)
      invariant forall v :: 0 <= v < n ==> prCurr[v] == 1.0 / n as real && prNext[v] == 0.0
    {
      var src := edges[it].src;
      outDegree[src] := outDegree[src] + 1;
    }
    assert prCurr[..] == Ranks(edges, n, 0);
    for iter := 0 to MAX_ITERS
      invariant prCurr[..] == Ranks(edges, n, iter)
      invariant forall v :: 0 <= v < n ==> prNext[v] == 0.0 && outDegree[v] == OutDegree(edges, |edges|, v)
    {
      Scatter(edges, prCurr, prNext, outDegree);
      Apply(edges, prCurr, prNext, outDegree);
    }
    if n > 0 {
      RankMassConserved(edges, n, MAX_ITERS);
      RankLowerBound(edges, n, MAX_ITERS);
      forall v: nat | v < n && OnlySource(edges, v) ensures prCurr[v] == 0.15 / n as real {
        SourceRank(edges, n, MAX_ITERS, v);
      }
    }
  }
}
