/** The minimal undirected graph the board code uses in place of networkx:
    an adjacency map from node to the set of its neighbours, kept
    symmetric, with the keys remembered in insertion order as a Python dict
    does. Nodes are integers (they are compared with `min`/`max`). */
module Graph {

  /** Undirected adjacency: every neighbour is itself a node and lists the
      node back. */
  predicate Symmetric(adj: map<int, set<int>>)
  {
    forall u, v :: u in adj && v in adj[u] ==> v in adj && u in adj[v]
  }

  /** Neighbours of a node, none for an unknown node. */
  function Nbrs(adj: map<int, set<int>>, n: int): set<int>
  {
    if n in adj then adj[n] else {}
  }

  /** `add_node`: `setdefault(node, set())`. */
  function WithNode(adj: map<int, set<int>>, n: int): map<int, set<int>>
  {
    if n in adj then adj else adj[n := {}]
  }

  /** `add_edge`: both end points become nodes, then each is added to the
      other's neighbours. */
  function WithEdge(adj: map<int, set<int>>, u: int, v: int): map<int, set<int>>
  {
    var a := WithNode(WithNode(adj, u), v);
    var b := a[u := a[u] + {v}];
    b[v := b[v] + {u}]
  }

  /** `add_edges_from`. */
  function WithEdges(adj: map<int, set<int>>, edges: seq<(int, int)>): map<int, set<int>>
  {
    if edges == [] then adj
    else WithEdge(WithEdges(adj, edges[..|edges| - 1]), edges[|edges| - 1].0, edges[|edges| - 1].1)
  }

  /** The graph `subgraph(S)` builds: exactly the nodes of S, and the edges of
      the original graph between two of them. */
  function Induced(adj: map<int, set<int>>, s: set<int>): map<int, set<int>>
  {
    map x | x in s :: Nbrs(adj, x) * s
  }

  /** `add_node` never drops a neighbour and adding a node twice is adding
      it once. */
  lemma AddNodeSpec(adj: map<int, set<int>>, n: int)
    ensures WithNode(adj, n).Keys == adj.Keys + {n}
    ensures forall u :: u in adj ==> WithNode(adj, n)[u] == adj[u]
    ensures n !in adj ==> WithNode(adj, n)[n] == {}
    ensures WithNode(WithNode(adj, n), n) == WithNode(adj, n)
    ensures Symmetric(adj) ==> Symmetric(WithNode(adj, n))
  {
  }

  /** `add_edge(u, v)` makes both end points nodes, links them both ways,
      changes no other adjacency and keeps the graph undirected. */
  lemma AddEdgeSpec(adj: map<int, set<int>>, u: int, v: int)
    ensures WithEdge(adj, u, v).Keys == adj.Keys + {u, v}
    ensures v in WithEdge(adj, u, v)[u] && u in WithEdge(adj, u, v)[v]
    ensures forall x :: x in WithEdge(adj, u, v) ==>
              WithEdge(adj, u, v)[x] == Nbrs(adj, x) + (if x == u then {v} else {}) + (if x == v then {u} else {})
    ensures Symmetric(adj) ==> Symmetric(WithEdge(adj, u, v))
  {
  }

  /** After `add_edges_from`, every listed pair is an edge both ways, the
      graph stays undirected and no earlier edge is lost. */
  lemma {:induction false} AddEdgesSpec(adj: map<int, set<int>>, edges: seq<(int, int)>)
    requires Symmetric(adj)
    ensures Symmetric(WithEdges(adj, edges))
    ensures forall k :: 0 <= k < |edges| ==>
              edges[k].1 in Nbrs(WithEdges(adj, edges), edges[k].0) &&
              edges[k].0 in Nbrs(WithEdges(adj, edges), edges[k].1)
    ensures forall u :: u in adj ==> u in WithEdges(adj, edges) && adj[u] <= WithEdges(adj, edges)[u]
  {
    if edges != [] {
      var prefix := edges[..|edges| - 1];
      var (u, v) := edges[|edges| - 1];
      AddEdgesSpec(adj, prefix);
      AddEdgeSpec(WithEdges(adj, prefix), u, v);
      forall k | 0 <= k < |edges|
        ensures edges[k].1 in Nbrs(WithEdges(adj, edges), edges[k].0)
        ensures edges[k].0 in Nbrs(WithEdges(adj, edges), edges[k].1)
      {
        if k < |edges| - 1 {
          assert edges[k] == prefix[k];
        }
      }
    }
  }

  /** The key order of a dict whose keys were `order` after the nodes are
      inserted one by one: each node not yet a key is appended, in turn. */
  function Appended(order: seq<int>, nodes: seq<int>): (r: seq<int>)
    ensures order <= r
  {
    if nodes == [] then order
    else
      var prev := Appended(order, nodes[..|nodes| - 1]);
      if nodes[|nodes| - 1] in prev then prev else prev + [nodes[|nodes| - 1]]
  }

  /** After the insertions the keys are the old ones and the inserted ones,
      each listed once when the old keys were. */
  lemma {:induction false} AppendedSpec(order: seq<int>, nodes: seq<int>)
    ensures forall x :: x in Appended(order, nodes) <==> x in order || x in nodes
    ensures (forall a, b :: 0 <= a < b < |order| ==> order[a] != order[b]) ==>
              forall a, b :: 0 <= a < b < |Appended(order, nodes)| ==> Appended(order, nodes)[a] != Appended(order, nodes)[b]
  {
    if nodes != [] {
      var prefix := nodes[..|nodes| - 1];
      AppendedSpec(order, prefix);
      assert nodes == prefix + [nodes[|nodes| - 1]];
    }
  }

  /** Inserting one more node appends it exactly when it is new. */
  lemma AppendedStep(order: seq<int>, nodes: seq<int>, n: int)
    ensures Appended(order, nodes + [n]) ==
              if n in Appended(order, nodes) then Appended(order, nodes) else Appended(order, nodes) + [n]
  {
    assert (nodes + [n])[..|nodes|] == nodes;
  }

  /** The end points `add_edges_from` inserts, in order: u then v of each pair. */
  function EdgeEnds(edges: seq<(int, int)>): (ends: seq<int>)
    ensures |ends| == 2 * |edges|
  {
    if edges == [] then []
    else EdgeEnds(edges[..|edges| - 1]) + [edges[|edges| - 1].0, edges[|edges| - 1].1]
  }

  /** One more pair inserts its u and then its v, each only when new. */
  lemma EdgeEndsStep(order: seq<int>, edges: seq<(int, int)>, i: nat)
    requires i < |edges|
    ensures var prev := Appended(order, EdgeEnds(edges[..i]));
            var (u, v) := edges[i];
            Appended(order, EdgeEnds(edges[..i + 1])) ==
              prev + (if u in prev then [] else [u]) + (if v in prev || v == u then [] else [v])
  {
    var ends := EdgeEnds(edges[..i]);
    assert edges[..i + 1][..i] == edges[..i];
    assert EdgeEnds(edges[..i + 1]) == (ends + [edges[i].0]) + [edges[i].1];
    AppendedStep(order, ends, edges[i].0);
    AppendedStep(order, ends + [edges[i].0], edges[i].1);
  }

  /** The induced subgraph has exactly the chosen nodes, an edge u–v exactly
      when u and v are chosen and adjacent in the original, and is undirected. */
  lemma InducedSpec(adj: map<int, set<int>>, s: set<int>)
    requires Symmetric(adj)
    ensures Induced(adj, s).Keys == s
    ensures forall u, v :: u in Induced(adj, s) && v in Induced(adj, s)[u] <==>
              u in s && v in s && u in adj && v in adj[u]
    ensures Symmetric(Induced(adj, s))
  {
  }

  /** An undirected edge written once, smaller end first: `(min(u, v), max(u, v))`. */
  function Norm(u: int, v: int): (int, int)
  {
    if u <= v then (u, v) else (v, u)
  }

  /** The nodes an `nbunch` argument of `edges` names: a list, tuple or set
      names its members, anything else is one node. */
  datatype NodeBunch = Single(node: int) | Several(nodes: seq<int>)

  function BunchNodes(b: NodeBunch): seq<int>
  {
    match b
    case Single(n) => [n]
    case Several(ns) => ns
  }

  /** Number of pairs `edges(nbunch)` lists: the degrees of the named nodes,
      counted once per mention. */
  function DegreeSum(adj: map<int, set<int>>, ns: seq<int>): nat
  {
    if ns == [] then 0 else DegreeSum(adj, ns[..|ns| - 1]) + |Nbrs(adj, ns[|ns| - 1])|
  }

  /** Each pair `(a, b)` is listed once per mention of a in ns when b is a
      neighbour of a, and never otherwise. */
  ghost predicate PairCounts(adj: map<int, set<int>>, edges: seq<(int, int)>, ns: seq<int>)
  {
    forall a, b :: multiset(edges)[(a, b)] == if b in Nbrs(adj, a) then multiset(ns)[a] else 0
  }

  /** Appending the pairs of one more named node u: each pair `(a, b)` is
      counted once per mention of a, as long as b is a neighbour of a. */
  lemma CountStep(adj: map<int, set<int>>, prev: seq<(int, int)>, pairs: seq<(int, int)>, ns: seq<int>, u: int)
    requires PairCounts(adj, prev, ns)
    requires forall a, b :: multiset(pairs)[(a, b)] == if a == u && b in Nbrs(adj, u) then 1 else 0
    ensures PairCounts(adj, prev + pairs, ns + [u])
  {
    assert multiset(ns + [u]) == multiset(ns) + multiset{u};
    forall a, b
      ensures multiset(prev + pairs)[(a, b)] == if b in Nbrs(adj, a) then multiset(ns + [u])[a] else 0
    {
      assert multiset(prev + pairs)[(a, b)] == multiset(prev)[(a, b)] + multiset(pairs)[(a, b)];
    }
  }

  /** A pair listed once per mention of its first node is listed exactly
      when that node is named and the second is its neighbour. */
  lemma CountsGiveMembers(adj: map<int, set<int>>, edges: seq<(int, int)>, ns: seq<int>)
    requires PairCounts(adj, edges, ns)
    ensures forall a, b :: (a, b) in edges <==> a in ns && b in Nbrs(adj, a)
  {
    forall a, b
      ensures (a, b) in edges <==> a in ns && b in Nbrs(adj, a)
    {
      assert (a, b) in edges <==> (a, b) in multiset(edges);
      assert a in ns <==> a in multiset(ns);
    }
  }

  /** Every edge of `part` joins two nodes of s that are adjacent in `whole`. */
  predicate InducedSound(part: map<int, set<int>>, whole: map<int, set<int>>, s: set<int>)
  {
    forall x, y :: x in part && y in part[x] ==> y in s && y in Nbrs(whole, x)
  }

  /** Linking two adjacent nodes of s keeps a partial induced subgraph sound. */
  lemma LinkKeepsSound(part: map<int, set<int>>, whole: map<int, set<int>>, s: set<int>, u: int, v: int)
    requires Symmetric(whole) && InducedSound(part, whole, s)
    requires u in s && v in s && v in Nbrs(whole, u)
    ensures InducedSound(WithEdge(part, u, v), whole, s)
  {
    AddEdgeSpec(part, u, v);
  }

  /** One more node of an `nbunch` prefix: its neighbours join the count. */
  lemma PrefixStep(adj: map<int, set<int>>, ns: seq<int>, i: nat)
    requires i < |ns|
    ensures DegreeSum(adj, ns[..i + 1]) == DegreeSum(adj, ns[..i]) + |Nbrs(adj, ns[i])|
  {
    assert ns[..i + 1] == ns[..i] + [ns[i]];
    assert ns[..i + 1][..i] == ns[..i];
  }

  class Graph {
    var adj: map<int, set<int>>
    /** The keys of `adj` in insertion order. */
    var order: seq<int>

    ghost predicate Valid()
      reads this
    {
      && Symmetric(adj)
      && (forall u :: u in adj <==> u in order)
      && (forall a, b :: 0 <= a < b < |order| ==> order[a] != order[b])
    }

    constructor ()
      ensures Valid() && adj == map[] && order == []
    {
      adj := map[];
      order := [];
    }

    method AddNode(n: int)
      requires Valid()
      modifies this
      ensures Valid()
      ensures adj == WithNode(old(adj), n)
      ensures order == if n in old(adj) then old(order) else old(order) + [n]
    {
      if n !in adj {
        adj := adj[n := {}];
        order := order + [n];
      }
    }

    method AddNodesFrom(nodes: seq<int>)
      requires Valid()
      modifies this
      ensures Valid()
      ensures adj.Keys == old(adj).Keys + set x | x in nodes
      ensures forall u :: u in old(adj) ==> adj[u] == old(adj)[u]
      ensures forall u :: u in adj && u !in old(adj) ==> adj[u] == {}
      ensures order == Appended(old(order), nodes)
    {
      var i := 0;
      while i < |nodes|
        invariant 0 <= i <= |nodes|
        invariant Valid()
        invariant adj.Keys == old(adj).Keys + set x | x in nodes[..i]
        invariant forall u :: u in old(adj) ==> adj[u] == old(adj)[u]
        invariant forall u :: u in adj && u !in old(adj) ==> adj[u] == {}
        invariant order == Appended(old(order), nodes[..i])
      {
        AppendedStep(old(order), nodes[..i], nodes[i]);
        AddNode(nodes[i]);
        assert nodes[..i + 1] == nodes[..i] + [nodes[i]];
        i := i + 1;
      }
      assert nodes[..i] == nodes;
    }

    method AddEdge(u: int, v: int)
      requires Valid()
      modifies this
      ensures Valid()
      ensures adj == WithEdge(old(adj), u, v)
      ensures order == old(order) + (if u in old(adj) then [] else [u])
                                  + (if v in old(adj) || v == u then [] else [v])
    {
      AddEdgeSpec(adj, u, v);
      AddNode(u);
      AddNode(v);
      ghost var keys := adj.Keys;
      adj := adj[u := adj[u] + {v}];
      adj := adj[v := adj[v] + {u}];
      assert adj.Keys == keys;
    }

    method AddEdgesFrom(edges: seq<(int, int)>)
      requires Valid()
      modifies this
      ensures Valid()
      ensures adj == WithEdges(old(adj), edges)
      ensures order == Appended(old(order), EdgeEnds(edges))
    {
      var i := 0;
      while i < |edges|
        invariant 0 <= i <= |edges|
        invariant Valid()
        invariant adj == WithEdges(old(adj), edges[..i])
        invariant order == Appended(old(order), EdgeEnds(edges[..i]))
      {
        assert edges[..i + 1][..i] == edges[..i];
        EdgeEndsStep(old(order), edges, i);
        AddEdge(edges[i].0, edges[i].1);
        i := i + 1;
      }
      assert edges[..i] == edges;
    }

    /** `neighbors`: an unknown node has none, and asking does not add it. */
    function Neighbors(n: int): (ns: set<int>)
      requires Valid()
      reads this
      ensures n in adj ==> ns == adj[n]
      ensures n !in adj ==> ns == {}
      ensures forall m :: m in ns ==> m in adj && n in adj[m]
    {
      Nbrs(adj, n)
    }

    /** `__contains__`. */
    predicate Contains(n: int)
      requires Valid()
      reads this
      ensures Contains(n) <==> n in Nodes()
    {
      n in adj
    }

    /** `nodes()`: the keys in insertion order. */
    function Nodes(): (ns: seq<int>)
      requires Valid()
      reads this
      ensures forall n :: n in ns <==> n in adj
      ensures forall a, b :: 0 <= a < b < |ns| ==> ns[a] != ns[b]
    {
      order
    }

    /** `edges()` without an argument: every undirected edge once, as
        `(min, max)`. */
    method Edges() returns (edges: seq<(int, int)>)
      requires Valid()
      ensures forall a, b :: (a, b) in edges <==> a <= b && a in adj && b in adj[a]
      ensures forall x, y :: 0 <= x < y < |edges| ==> edges[x] != edges[y]
    {
      edges := [];
      var seen: set<(int, int)> := {};
      var i := 0;
      while i < |order|
        invariant 0 <= i <= |order|
        invariant forall e :: e in edges <==> e in seen
        invariant forall x, y :: 0 <= x < y < |edges| ==> edges[x] != edges[y]
        invariant forall a, b :: (a, b) in seen ==> a <= b && a in adj && b in adj[a]
        invariant forall k, y :: 0 <= k < i && order[k] in adj && y in adj[order[k]] ==> Norm(order[k], y) in seen
      {
        var u := order[i];
        var rest := adj[u];
        while exists w :: w in rest
          decreases rest
          invariant i < |order| && u == order[i] && u in adj
          invariant rest <= adj[u]
          invariant forall e :: e in edges <==> e in seen
          invariant forall x, y :: 0 <= x < y < |edges| ==> edges[x] != edges[y]
          invariant forall a, b :: (a, b) in seen ==> a <= b && a in adj && b in adj[a]
          invariant forall k, y :: 0 <= k < i && order[k] in adj && y in adj[order[k]] ==> Norm(order[k], y) in seen
          invariant forall y :: y in adj[u] && y !in rest ==> Norm(u, y) in seen
        {
          var v :| v in rest;
          rest := rest - {v};
          var e := Norm(u, v);
          if e !in seen {
            seen := seen + {e};
            edges := edges + [e];
          }
        }
        i := i + 1;
      }
      forall a, b | a <= b && a in adj && b in adj[a]
        ensures (a, b) in edges
      {
        var k :| 0 <= k < |order| && order[k] == a;
        assert Norm(order[k], b) == (a, b);
      }
    }

    /** `edges(nbunch)`: the pair `(u, v)` for every neighbour v of every
        named node u, in the order named; unknown nodes add nothing. */
    method EdgesOf(nbunch: NodeBunch) returns (edges: seq<(int, int)>)
      ensures forall a, b :: (a, b) in edges <==> a in BunchNodes(nbunch) && b in Nbrs(adj, a)
      ensures |edges| == DegreeSum(adj, BunchNodes(nbunch))
      ensures forall a, b :: multiset(edges)[(a, b)] ==
                if b in Nbrs(adj, a) then multiset(BunchNodes(nbunch))[a] else 0
    {
      var nodes := BunchNodes(nbunch);
      edges := [];
      var i := 0;
      while i < |nodes|
        invariant 0 <= i <= |nodes|
        invariant |edges| == DegreeSum(adj, nodes[..i])
        invariant PairCounts(adj, edges, nodes[..i])
      {
        edges := AppendPairs(edges, nodes, i);
        i := i + 1;
      }
      assert nodes[..i] == nodes;
      CountsGiveMembers(adj, edges, nodes);
    }

    /** One pass of the outer loop of `edges(nbunch)`: the pairs of the
        i-th named node are appended. */
    method AppendPairs(edges: seq<(int, int)>, nodes: seq<int>, i: nat) returns (more: seq<(int, int)>)
      requires i < |nodes|
      requires |edges| == DegreeSum(adj, nodes[..i]) && PairCounts(adj, edges, nodes[..i])
      ensures |more| == DegreeSum(adj, nodes[..i + 1]) && PairCounts(adj, more, nodes[..i + 1])
    {
      var pairs := PairsFrom(nodes[i]);
      more := edges + pairs;
      PrefixStep(adj, nodes, i);
      assert nodes[..i + 1] == nodes[..i] + [nodes[i]];
      CountStep(adj, edges, pairs, nodes[..i], nodes[i]);
    }

    /** The inner loop of `edges(nbunch)`: `(u, v)` once for each neighbour v. */
    method PairsFrom(u: int) returns (pairs: seq<(int, int)>)
      ensures |pairs| == |Nbrs(adj, u)|
      ensures forall a, b :: (a, b) in pairs <==> a == u && b in Nbrs(adj, u)
      ensures forall a, b :: multiset(pairs)[(a, b)] == if a == u && b in Nbrs(adj, u) then 1 else 0
    {
      pairs := [];
      var rest := Nbrs(adj, u);
      while exists w :: w in rest
        decreases rest
        invariant rest <= Nbrs(adj, u)
        invariant |pairs| == |Nbrs(adj, u)| - |rest|
        invariant forall a, b :: (a, b) in pairs <==> a == u && b in Nbrs(adj, u) && b !in rest
        invariant forall a, b :: multiset(pairs)[(a, b)] == if a == u && b in Nbrs(adj, u) && b !in rest then 1 else 0
      {
        var v :| v in rest;
        rest := rest - {v};
        pairs := pairs + [(u, v)];
      }
      assert rest == {};
    }

    /** `subgraph(nodes)`: a new graph on exactly the given nodes with the
        edges of this one between them; this graph is left as it was. */
    method Subgraph(nodes: seq<int>) returns (sub: Graph)
      requires Valid()
      ensures fresh(sub) && sub.Valid()
      ensures sub.adj == Induced(adj, set x | x in nodes)
    {
      var s := set x | x in nodes;
      sub := new Graph();
      var pending := s;
      while exists w :: w in pending
        decreases pending
        invariant pending <= s
        invariant fresh(sub) && sub.Valid()
        invariant sub.adj.Keys == s - pending
        invariant forall x :: x in sub.adj ==> sub.adj[x] == {}
      {
        var x :| x in pending;
        sub.AddNode(x);
        pending := pending - {x};
      }
      var todo := s;
      while exists w :: w in todo
        decreases todo
        invariant todo <= s
        invariant fresh(sub) && sub.Valid()
        invariant sub.adj.Keys == s
        invariant InducedSound(sub.adj, adj, s)
        invariant forall x, y :: x in s && x !in todo && y in Nbrs(adj, x) && y in s ==> y in sub.adj[x]
      {
        var u :| u in todo;
        LinkWithin(sub, s, u);
        todo := todo - {u};
      }
      forall x | x in s
        ensures sub.adj[x] == Induced(adj, s)[x]
      {
        assert x !in todo;
        forall y | y in sub.adj[x]
          ensures y in Nbrs(adj, x) * s
        {
          assert x in sub.adj;
          assert InducedSound(sub.adj, adj, s);
          assert y in s;
          assert y in Nbrs(adj, x);
        }
        assert forall y :: y in sub.adj[x] <==> y in Nbrs(adj, x) * s;
      }
    }

    /** The inner loop of `subgraph`: links u to each of its neighbours
        inside s. Only adds edges of this graph, and loses none. */
    method LinkWithin(sub: Graph, s: set<int>, u: int)
      requires Valid() && sub.Valid() && sub != this
      requires sub.adj.Keys == s && u in s
      requires InducedSound(sub.adj, adj, s)
      modifies sub
      ensures sub.Valid() && sub.adj.Keys == s
      ensures InducedSound(sub.adj, adj, s)
      ensures forall x :: x in s ==> old(sub.adj[x]) <= sub.adj[x]
      ensures forall y :: y in Nbrs(adj, u) && y in s ==> y in sub.adj[u]
    {
      var rest := Nbrs(adj, u);
      while exists w :: w in rest
        decreases rest
        invariant rest <= Nbrs(adj, u)
        invariant sub.Valid() && sub.adj.Keys == s
        invariant InducedSound(sub.adj, adj, s)
        invariant forall x :: x in s ==> old(sub.adj[x]) <= sub.adj[x]
        invariant forall y :: y in Nbrs(adj, u) && y !in rest && y in s ==> y in sub.adj[u]
      {
        var v :| v in rest;
        rest := rest - {v};
        if v in s {
          LinkKeepsSound(sub.adj, adj, s, u, v);
          AddEdgeSpec(sub.adj, u, v);
          sub.AddEdge(u, v);
        }
      }
    }
  }
}
