/** `floyd_warshall(G)`: all-pairs hop distances of the board graph.
    Nodes are addressed by their position in `G.nodes()`; a distance is a
    number of edges or `inf`. The method fills the start matrix as the code
    does and is proved to compute `D`, the textbook recurrence over the
    first k pivots. From the start matrix that keeps the diagonal at 0, `D`
    over all pivots is proved to be the length of a shortest walk; the
    code's start matrix differs from it only where a node is its own
    neighbour. */
module ShortestPaths {
  import opened Graph

  /** A hop count, or `float('inf')` for "no path". */
  datatype Dist = Fin(n: nat) | Inf

  /** `dik + dist[k][j]`. */
  function Add(x: Dist, y: Dist): Dist
  {
    if x.Fin? && y.Fin? then Fin(x.n + y.n) else Inf
  }

  /** `new < dist[i][j]`. */
  predicate Less(x: Dist, y: Dist)
  {
    x.Fin? && (y.Inf? || x.n < y.n)
  }

  /** The relaxation step keeps the old entry unless the new one is smaller. */
  function Min(current: Dist, candidate: Dist): Dist
  {
    if Less(candidate, current) then candidate else current
  }

  predicate AtMost(x: Dist, bound: nat)
  {
    x.Fin? && x.n <= bound
  }

  type Matrix = seq<seq<Dist>>

  predicate Square(w: Matrix)
  {
    forall r :: 0 <= r < |w| ==> |w[r]| == |w|
  }

  /** Position b is a neighbour of position a. */
  predicate Adjacent(ns: seq<int>, adj: map<int, set<int>>, a: nat, b: nat)
  {
    a < |ns| && b < |ns| && ns[b] in Nbrs(adj, ns[a])
  }

  /** The starting matrix with the diagonal left at 0: 1 between neighbours,
      `inf` elsewhere. */
  function Initial(ns: seq<int>, adj: map<int, set<int>>): (w: Matrix)
    ensures |w| == |ns| && Square(w)
  {
    seq(|ns|, i requires 0 <= i < |ns| =>
      seq(|ns|, j requires 0 <= j < |ns| =>
        if i == j then Fin(0) else if Adjacent(ns, adj, i, j) then Fin(1) else Inf))
  }

  /** The starting matrix as `floyd_warshall` fills it: the diagonal is set
      to 0 first and then overwritten with 1 when the node is its own
      neighbour. */
  function InitialAsWritten(ns: seq<int>, adj: map<int, set<int>>): (w: Matrix)
    ensures |w| == |ns| && Square(w)
  {
    seq(|ns|, i requires 0 <= i < |ns| =>
      seq(|ns|, j requires 0 <= j < |ns| =>
        if Adjacent(ns, adj, i, j) then Fin(1) else if i == j then Fin(0) else Inf))
  }

  /** Entry (i, j) after the pivots 0 .. k-1 have been relaxed. */
  function D(w: Matrix, i: nat, j: nat, k: nat): Dist
    requires Square(w) && i < |w| && j < |w| && k <= |w|
    decreases k
  {
    if k == 0 then w[i][j]
    else Min(D(w, i, j, k - 1), Add(D(w, i, k - 1, k - 1), D(w, k - 1, j, k - 1)))
  }

  // ----- walks -----

  /** A walk through positions: consecutive positions are neighbours. */
  predicate IsWalk(ns: seq<int>, adj: map<int, set<int>>, p: seq<nat>)
  {
    && |p| >= 1
    && (forall t :: 0 <= t < |p| ==> p[t] < |ns|)
    && (forall t :: 0 <= t < |p| - 1 ==> Adjacent(ns, adj, p[t], p[t + 1]))
  }

  predicate Walk(ns: seq<int>, adj: map<int, set<int>>, p: seq<nat>, i: nat, j: nat)
  {
    IsWalk(ns, adj, p) && p[0] == i && p[|p| - 1] == j
  }

  /** Every position strictly inside the walk is below k. */
  predicate Below(p: seq<nat>, k: nat)
  {
    forall t :: 0 < t < |p| - 1 ==> p[t] < k
  }

  /** Relaxing pivot k does not change row k or column k. */
  lemma PivotStable(w: Matrix, k: nat, x: nat)
    requires Square(w) && k < |w| && x < |w|
    ensures D(w, x, k, k + 1) == D(w, x, k, k)
    ensures D(w, k, x, k + 1) == D(w, k, x, k)
  {
  }

  /** Relaxation never makes an entry larger than it started. */
  lemma {:induction false} NeverIncreases(w: Matrix, i: nat, j: nat, k: nat, bound: nat)
    requires Square(w) && i < |w| && j < |w| && k <= |w| && AtMost(w[i][j], bound)
    ensures AtMost(D(w, i, j, k), bound)
    decreases k
  {
    if k > 0 {
      NeverIncreases(w, i, j, k - 1, bound);
    }
  }

  /** Two walks that meet at a pivot below k join into one. */
  lemma JoinWalks(ns: seq<int>, adj: map<int, set<int>>, p: seq<nat>, q: seq<nat>, k: nat)
    requires IsWalk(ns, adj, p) && IsWalk(ns, adj, q) && p[|p| - 1] == q[0]
    requires Below(p, k) && Below(q, k) && q[0] < k
    ensures IsWalk(ns, adj, p + q[1..]) && Below(p + q[1..], k)
    ensures (p + q[1..])[0] == p[0] && (p + q[1..])[|p + q[1..]| - 1] == q[|q| - 1]
    ensures |p + q[1..]| == |p| + |q| - 1
  {
    var r := p + q[1..];
    forall t | 0 <= t < |r| - 1
      ensures Adjacent(ns, adj, r[t], r[t + 1])
    {
      if t < |p| - 1 {
        assert r[t] == p[t] && r[t + 1] == p[t + 1];
      } else {
        assert r[t] == q[t - |p| + 1] && r[t + 1] == q[t - |p| + 2];
      }
    }
    forall t | 0 < t < |r| - 1
      ensures r[t] < k
    {
      if t < |p| - 1 {
        assert r[t] == p[t];
      } else if t == |p| - 1 {
        assert r[t] == q[0];
      } else {
        assert r[t] == q[t - |p| + 1];
      }
    }
  }

  /** A walk cut at one of its inner positions gives two walks. */
  lemma SplitWalk(ns: seq<int>, adj: map<int, set<int>>, p: seq<nat>, t: nat, k: nat)
    requires IsWalk(ns, adj, p) && Below(p, k) && 0 < t < |p| - 1
    ensures IsWalk(ns, adj, p[..t + 1]) && Below(p[..t + 1], k)
    ensures IsWalk(ns, adj, p[t..]) && Below(p[t..], k)
    ensures p[..t + 1][0] == p[0] && p[..t + 1][t] == p[t]
    ensures p[t..][0] == p[t] && p[t..][|p| - t - 1] == p[|p| - 1]
  {
    var q := p[..t + 1];
    var r := p[t..];
    forall s | 0 <= s < |q| - 1
      ensures Adjacent(ns, adj, q[s], q[s + 1])
    {
      assert q[s] == p[s] && q[s + 1] == p[s + 1];
    }
    forall s | 0 <= s < |r| - 1
      ensures Adjacent(ns, adj, r[s], r[s + 1])
    {
      assert r[s] == p[t + s] && r[s + 1] == p[t + s + 1];
    }
  }

  /** Soundness: a finite entry is the length of a walk between the two
      positions whose inner positions are all below k. */
  lemma {:induction false} WalkForDistance(ns: seq<int>, adj: map<int, set<int>>, i: nat, j: nat, k: nat)
    returns (p: seq<nat>)
    requires i < |ns| && j < |ns| && k <= |ns|
    requires D(Initial(ns, adj), i, j, k).Fin?
    ensures Walk(ns, adj, p, i, j) && Below(p, k)
    ensures |p| - 1 == D(Initial(ns, adj), i, j, k).n
    decreases k
  {
    var w := Initial(ns, adj);
    if k == 0 {
      if i == j {
        p := [i];
      } else {
        p := [i, j];
        assert Adjacent(ns, adj, p[0], p[1]);
      }
    } else {
      var m := k - 1;
      var direct := D(w, i, j, m);
      var through := Add(D(w, i, m, m), D(w, m, j, m));
      if Less(through, direct) {
        var p1 := WalkForDistance(ns, adj, i, m, m);
        var p2 := WalkForDistance(ns, adj, m, j, m);
        JoinWalks(ns, adj, p1, p2, k);
        p := p1 + p2[1..];
      } else {
        p := WalkForDistance(ns, adj, i, j, m);
      }
    }
  }

  /** Optimality: any walk whose inner positions are below k is at least as
      long as entry (i, j) after k pivots. */
  lemma {:induction false} DistanceAtMostWalk(ns: seq<int>, adj: map<int, set<int>>, p: seq<nat>, k: nat)
    requires IsWalk(ns, adj, p) && k <= |ns| && Below(p, k)
    ensures AtMost(D(Initial(ns, adj), p[0], p[|p| - 1], k), |p| - 1)
    decreases k, |p|
  {
    var w := Initial(ns, adj);
    if |p| == 1 {
      DiagonalStaysZero(ns, adj, p[0], k);
    } else if |p| == 2 {
      assert Adjacent(ns, adj, p[0], p[1]);
      NeverIncreases(w, p[0], p[1], k, 1);
    } else {
      assert p[1] < k;
      var m := k - 1;
      if t :| 0 < t < |p| - 1 && p[t] == m {
        SplitWalk(ns, adj, p, t, k);
        DistanceAtMostWalk(ns, adj, p[..t + 1], k);
        DistanceAtMostWalk(ns, adj, p[t..], k);
        PivotStable(w, m, p[0]);
        PivotStable(w, m, p[|p| - 1]);
      } else {
        DistanceAtMostWalk(ns, adj, p, m);
      }
    }
  }

  /** After every node has served as pivot, entry (i, j) is the hop
      distance: finite exactly when some walk joins i to j, and then the
      length of a shortest such walk. */
  lemma HopDistance(ns: seq<int>, adj: map<int, set<int>>, i: nat, j: nat)
    requires i < |ns| && j < |ns|
    ensures D(Initial(ns, adj), i, j, |ns|).Fin? <==> exists p :: Walk(ns, adj, p, i, j)
    ensures D(Initial(ns, adj), i, j, |ns|).Fin? ==>
              (exists p :: Walk(ns, adj, p, i, j) && |p| - 1 == D(Initial(ns, adj), i, j, |ns|).n)
    ensures forall p :: Walk(ns, adj, p, i, j) ==> AtMost(D(Initial(ns, adj), i, j, |ns|), |p| - 1)
  {
    var d := D(Initial(ns, adj), i, j, |ns|);
    forall p | Walk(ns, adj, p, i, j)
      ensures AtMost(d, |p| - 1)
    {
      DistanceAtMostWalk(ns, adj, p, |ns|);
    }
    if d.Fin? {
      var p := WalkForDistance(ns, adj, i, j, |ns|);
    }
  }

  // ----- the diagonal, as written and as intended -----

  /** Off the diagonal, a matrix whose off-diagonal entries are at least 1
      keeps them at least 1 through every pivot. */
  lemma {:induction false} OffDiagonalAtLeastOne(w: Matrix, a: nat, b: nat, k: nat)
    requires Square(w) && a < |w| && b < |w| && k <= |w| && a != b
    requires forall x, y :: 0 <= x < |w| && 0 <= y < |w| && x != y ==> w[x][y] != Fin(0)
    ensures D(w, a, b, k) != Fin(0)
    decreases k
  {
    if k > 0 {
      var m := k - 1;
      OffDiagonalAtLeastOne(w, a, b, m);
      if m != a {
        OffDiagonalAtLeastOne(w, a, m, m);
      }
      if m != b {
        OffDiagonalAtLeastOne(w, m, b, m);
      }
    }
  }

  /** As written, a node with a self-loop is at distance 1 from itself after
      any number of pivots, although the one-node walk has length 0. */
  lemma {:induction false} SelfLoopStaysAtOne(ns: seq<int>, adj: map<int, set<int>>, i: nat, k: nat)
    requires i < |ns| && k <= |ns| && ns[i] in Nbrs(adj, ns[i])
    ensures D(InitialAsWritten(ns, adj), i, i, k) == Fin(1)
    ensures Walk(ns, adj, [i], i, i)
    decreases k
  {
    var w := InitialAsWritten(ns, adj);
    if k > 0 {
      var m := k - 1;
      SelfLoopStaysAtOne(ns, adj, i, m);
      if m != i {
        OffDiagonalAtLeastOne(w, i, m, m);
        OffDiagonalAtLeastOne(w, m, i, m);
      }
    }
  }

  /** The smallest case: one node 0 that is its own neighbour. */
  lemma SelfLoopCounterexample()
    ensures D(InitialAsWritten([0], map[0 := {0}]), 0, 0, 1) == Fin(1)
    ensures D(Initial([0], map[0 := {0}]), 0, 0, 1) == Fin(0)
    ensures Walk([0], map[0 := {0}], [0], 0, 0)
  {
    SelfLoopStaysAtOne([0], map[0 := {0}], 0, 1);
    DiagonalStaysZero([0], map[0 := {0}], 0, 1);
  }

  /** With the diagonal kept at 0, every node is at distance 0 from itself. */
  lemma {:induction false} DiagonalStaysZero(ns: seq<int>, adj: map<int, set<int>>, i: nat, k: nat)
    requires i < |ns| && k <= |ns|
    ensures D(Initial(ns, adj), i, i, k) == Fin(0)
    decreases k
  {
    if k > 0 {
      DiagonalStaysZero(ns, adj, i, k - 1);
    }
  }

  /** Without self-loops the two initialisations coincide, so the code as
      written is right on such graphs. */
  lemma AsWrittenAgreesWithoutSelfLoops(ns: seq<int>, adj: map<int, set<int>>)
    requires forall x :: x !in Nbrs(adj, x)
    ensures InitialAsWritten(ns, adj) == Initial(ns, adj)
  {
    var a := InitialAsWritten(ns, adj);
    var b := Initial(ns, adj);
    forall i | 0 <= i < |ns|
      ensures a[i] == b[i]
    {
      assert ns[i] !in Nbrs(adj, ns[i]);
    }
  }

  // ----- the algorithm -----

  /** `floyd_warshall(G)`: the returned positions are `G.nodes()` and entry
      (i, j) is the relaxed distance from `ns[i]` to `ns[j]`, starting from
      the matrix the first loop fills. */
  method FloydWarshall(g: Graph) returns (ns: seq<int>, dist: array2<Dist>)
    requires g.Valid()
    ensures ns == g.order
    ensures fresh(dist) && dist.Length0 == |ns| && dist.Length1 == |ns|
    ensures forall i, j :: 0 <= i < |ns| && 0 <= j < |ns| ==> dist[i, j] == D(InitialAsWritten(ns, g.adj), i, j, |ns|)
  {
    ns := g.Nodes();
    var n := |ns|;
    ghost var w := InitialAsWritten(ns, g.adj);
    dist := new Dist[n, n]((i, j) => Inf);
    FillInitial(g, ns, dist);
    var k := 0;
    while k < n
      invariant 0 <= k <= n
      invariant forall a, b :: 0 <= a < n && 0 <= b < n ==> dist[a, b] == D(w, a, b, k)
    {
      RelaxThrough(dist, w, k);
      k := k + 1;
    }
  }

  /** The first loop: each node is first put at 0 from itself and then at 1
      from each of its neighbours, which overwrites the 0 of a self-loop. */
  method FillInitial(g: Graph, ns: seq<int>, dist: array2<Dist>)
    requires g.Valid()
    requires dist.Length0 == |ns| && dist.Length1 == |ns|
    requires forall a, b :: 0 <= a < |ns| && 0 <= b < |ns| ==> dist[a, b] == Inf
    modifies dist
    ensures forall a, b :: 0 <= a < |ns| && 0 <= b < |ns| ==> dist[a, b] == InitialAsWritten(ns, g.adj)[a][b]
  {
    ghost var w := InitialAsWritten(ns, g.adj);
    var n := |ns|;
    for i := 0 to n
      invariant forall a, b :: 0 <= a < n && 0 <= b < n ==> dist[a, b] == if a < i then w[a][b] else Inf
    {
      dist[i, i] := Fin(0);
      var nbrs := g.Neighbors(ns[i]);
      for j := 0 to n
        invariant forall a, b :: 0 <= a < n && 0 <= b < n ==>
                    dist[a, b] == if a < i then w[a][b]
                                  else if a == i && b < j && ns[b] in nbrs then Fin(1)
                                  else if a == i && b == i then Fin(0)
                                  else Inf
      {
        if ns[j] in nbrs {
          dist[i, j] := Fin(1);
        }
      }
    }
  }

  /** A node that is not its own neighbour starts at 0 from itself in the
      matrix the code fills, and no pivot can lower that. */
  lemma {:induction false} LoopFreeDiagonalStaysZero(ns: seq<int>, adj: map<int, set<int>>, i: nat, k: nat)
    requires i < |ns| && k <= |ns| && ns[i] !in Nbrs(adj, ns[i])
    ensures D(InitialAsWritten(ns, adj), i, i, k) == Fin(0)
    decreases k
  {
    if k > 0 {
      LoopFreeDiagonalStaysZero(ns, adj, i, k - 1);
    }
  }

  /** The two start matrices give the same relaxed entry everywhere except
      on the diagonal of a node with a self-loop: off the diagonal a pivot
      at either end only adds a non-negative diagonal entry to the entry
      itself, so it never changes it. */
  lemma {:induction false} AsWrittenAgreesOffSelfLoops(ns: seq<int>, adj: map<int, set<int>>, i: nat, j: nat, k: nat)
    requires i < |ns| && j < |ns| && k <= |ns|
    requires i != j || ns[i] !in Nbrs(adj, ns[i])
    ensures D(InitialAsWritten(ns, adj), i, j, k) == D(Initial(ns, adj), i, j, k)
    decreases k
  {
    if i == j {
      LoopFreeDiagonalStaysZero(ns, adj, i, k);
      DiagonalStaysZero(ns, adj, i, k);
    } else if k > 0 {
      var m := k - 1;
      AsWrittenAgreesOffSelfLoops(ns, adj, i, j, m);
      if m != i {
        AsWrittenAgreesOffSelfLoops(ns, adj, i, m, m);
      }
      if m != j {
        AsWrittenAgreesOffSelfLoops(ns, adj, m, j, m);
      }
    }
  }

  /** Every entry the method computes, other than the diagonal entry of a
      node with a self-loop, is a hop distance: finite exactly when a walk
      joins the two positions, and then the length of a shortest such walk. */
  lemma HopDistanceAsWritten(ns: seq<int>, adj: map<int, set<int>>, i: nat, j: nat)
    requires i < |ns| && j < |ns|
    requires i != j || ns[i] !in Nbrs(adj, ns[i])
    ensures D(InitialAsWritten(ns, adj), i, j, |ns|).Fin? <==> exists p :: Walk(ns, adj, p, i, j)
    ensures D(InitialAsWritten(ns, adj), i, j, |ns|).Fin? ==>
              (exists p :: Walk(ns, adj, p, i, j) && |p| - 1 == D(InitialAsWritten(ns, adj), i, j, |ns|).n)
    ensures forall p :: Walk(ns, adj, p, i, j) ==> AtMost(D(InitialAsWritten(ns, adj), i, j, |ns|), |p| - 1)
  {
    AsWrittenAgreesOffSelfLoops(ns, adj, i, j, |ns|);
    HopDistance(ns, adj, i, j);
  }

  /** One round of the outer loop: every row relaxed through pivot k. */
  method RelaxThrough(dist: array2<Dist>, ghost w: Matrix, k: nat)
    requires Square(w) && dist.Length0 == |w| && dist.Length1 == |w| && k < |w|
    requires forall a, b :: 0 <= a < |w| && 0 <= b < |w| ==> dist[a, b] == D(w, a, b, k)
    modifies dist
    ensures forall a, b :: 0 <= a < |w| && 0 <= b < |w| ==> dist[a, b] == D(w, a, b, k + 1)
  {
    var n := dist.Length0;
    for i := 0 to n
      invariant forall a, b :: 0 <= a < n && 0 <= b < n ==>
                  dist[a, b] == if a < i then D(w, a, b, k + 1) else D(w, a, b, k)
    {
      var dik := dist[i, k];
      if dik != Inf {
        RelaxRow(dist, w, k, i, dik);
      }
    }
  }

  /** The innermost loop: row i relaxed through pivot k. */
  method RelaxRow(dist: array2<Dist>, ghost w: Matrix, k: nat, i: nat, dik: Dist)
    requires Square(w) && dist.Length0 == |w| && dist.Length1 == |w| && k < |w| && i < |w|
    requires dik == D(w, i, k, k)
    requires forall b :: 0 <= b < |w| ==> dist[i, b] == D(w, i, b, k)
    requires forall b :: 0 <= b < |w| ==> dist[k, b] == D(w, k, b, k) || dist[k, b] == D(w, k, b, k + 1)
    modifies dist
    ensures forall b :: 0 <= b < |w| ==> dist[i, b] == D(w, i, b, k + 1)
    ensures forall a, b :: 0 <= a < |w| && 0 <= b < |w| && a != i ==> dist[a, b] == old(dist[a, b])
  {
    var n := dist.Length0;
    forall b | 0 <= b < n
      ensures D(w, k, b, k + 1) == D(w, k, b, k)
    {
      PivotStable(w, k, b);
    }
    for j := 0 to n
      invariant forall b :: 0 <= b < n ==> dist[i, b] == if b < j then D(w, i, b, k + 1) else D(w, i, b, k)
      invariant forall b :: 0 <= b < n ==> dist[k, b] == D(w, k, b, k)
      invariant forall a, b :: 0 <= a < n && 0 <= b < n && a != i ==> dist[a, b] == old(dist[a, b])
    {
      var candidate := Add(dik, dist[k, j]);
      if Less(candidate, dist[i, j]) {
        dist[i, j] := candidate;
      }
    }
  }
}
