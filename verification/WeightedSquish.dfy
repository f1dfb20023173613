// Squishing weighted rows: of parallel edges only the lightest stays.
module WeightedSquish {
  import opened Lists
  import opened Walks

  // NodeWeight's operator<, or equal: by vertex, then by weight.
  predicate NodeLe(a: WNode, b: WNode) { a.v < b.v || (a.v == b.v && a.w <= b.w) }

  // NodeWeight's operator==, which looks at the vertex only.
  predicate NodeEq(a: WNode, b: WNode) { a.v == b.v }

  // NodeWeight's comparison with a vertex.
  predicate NodeIs(a: WNode, u: nat) { a.v == u }

  const NODES: Compare<WNode> := Compare(NodeLe, NodeEq, NodeIs)

  function SquishedNodes(row: seq<WNode>, self: nat): seq<WNode> { SquishedBy(NODES, row, self) }

  lemma NodesAreOrdered()
    ensures TotalOrder(NODES.le) && Groups(NODES.le, NODES.eq)
  {
  }

  // x's vertex is still listed, with an edge at most as heavy.
  ghost predicate HasLighter(row: seq<WNode>, x: WNode) {
    exists y :: y in row && y.v == x.v && y.w <= x.w
  }

  // One entry for each neighbour other than the vertex itself: the lightest.
  lemma SquishedNodesProperties(row: seq<WNode>, self: nat)
    ensures var r := SquishedNodes(row, self);
      && (forall i, j | 0 <= i < j < |r| :: r[i].v < r[j].v)
      && (forall x | x in r :: x in row && x.v != self)
      && (forall x {:trigger HasLighter(r, x)} | x in row && x.v != self :: HasLighter(r, x))
  {
    hide SquishedBy, SortedBy, NoRepeats, TotalOrder, Groups;
    NodesAreOrdered();
    SquishedByProperties(NODES, row, self);
    var r := SquishedNodes(row, self);
    forall i, j | 0 <= i < j < |r| ensures r[i].v < r[j].v {
      SortedAt(NodeLe, r, i, j);
      NoRepeatsAt(NodeEq, r, i, j);
    }
    forall x | x in row && x.v != self ensures HasLighter(r, x) {
      assert HasLeast(NodeLe, NodeEq, r, x);
      var y :| y in r && NodeEq(y, x) && NodeLe(y, x);
    }
  }

  // Squishing forgets the order in which a row was filled.
  lemma SquishForgetsOrder(row: seq<WNode>, row': seq<WNode>, self: nat)
    requires multiset(row) == multiset(row')
    ensures SquishedNodes(row, self) == SquishedNodes(row', self)
  {
    SortForgetsOrder(NodeLe, row, row');
  }

  // Two entries for the same vertex are the same entry.
  lemma OneEntryEach(row: seq<WNode>, self: nat, x: WNode, y: WNode)
    requires x in SquishedNodes(row, self) && y in SquishedNodes(row, self) && x.v == y.v
    ensures x == y
  {
    hide SquishedNodes;
    SquishedNodesProperties(row, self);
    var r := SquishedNodes(row, self);
    var i :| 0 <= i < |r| && r[i] == x;
    var j :| 0 <= j < |r| && r[j] == y;
  }

  ghost function SquishedGraph(g: WGraph): (h: WGraph)
    ensures |h| == |g| && forall u: nat | u < |g| :: h[u] == SquishedNodes(g[u], u)
  {
    seq(|g|, u requires 0 <= u < |g| => SquishedNodes(g[u], u))
  }

  // ------------------------------------------------------------------ distances

  // An edge of the squished graph is an edge of the graph.
  lemma EdgeStays(g: WGraph, u: nat, k: nat) returns (j: nat)
    requires u < |g| && k < |SquishedGraph(g)[u]|
    ensures j < |g[u]| && g[u][j] == SquishedGraph(g)[u][k]
  {
    hide SquishedNodes;
    SquishedNodesProperties(g[u], u);
    var x := SquishedGraph(g)[u][k];
    assert x in g[u];
    j :| 0 <= j < |g[u]| && g[u][j] == x;
  }

  // An edge of the graph has an edge at most as heavy in the squished graph,
  // unless it is a self-loop.
  lemma LighterEdge(g: WGraph, u: nat, k: nat) returns (j: nat)
    requires u < |g| && k < |g[u]| && g[u][k].v != u
    ensures j < |SquishedGraph(g)[u]| && SquishedGraph(g)[u][j].v == g[u][k].v && SquishedGraph(g)[u][j].w <= g[u][k].w
  {
    hide SquishedNodes;
    SquishedNodesProperties(g[u], u);
    var r := SquishedGraph(g)[u];
    assert g[u][k] in g[u];
    assert HasLighter(r, g[u][k]);
    var y :| y in r && y.v == g[u][k].v && y.w <= g[u][k].w;
    j :| 0 <= j < |r| && r[j] == y;
  }

  lemma AppendHop(g: WGraph, s: nat, u: nat, p: seq<Hop>, k: nat)
    requires u < |g| && k < |g[u]| && IsWalk(g, s, u, p)
    ensures IsWalk(g, s, g[u][k].v, p + [Hop(u, k)]) && Length(g, p + [Hop(u, k)]) == Length(g, p) + g[u][k].w
  {
    var q := p + [Hop(u, k)];
    assert q[..|q| - 1] == p;
  }

  lemma {:induction false} SquishedWalkIsWalk(g: WGraph, s: nat, v: nat, p: seq<Hop>) returns (q: seq<Hop>)
    requires IsWalk(SquishedGraph(g), s, v, p)
    ensures IsWalk(g, s, v, q) && Length(g, q) == Length(SquishedGraph(g), p)
    decreases |p|
  {
    if p == [] {
      q := [];
    } else {
      var h := p[|p| - 1];
      var r := SquishedWalkIsWalk(g, s, h.u, p[..|p| - 1]);
      var j := EdgeStays(g, h.u, h.k);
      AppendHop(g, s, h.u, r, j);
      q := r + [Hop(h.u, j)];
    }
  }

  lemma {:induction false} LighterWalk(g: WGraph, s: nat, v: nat, p: seq<Hop>) returns (q: seq<Hop>)
    requires Valid(g) && IsWalk(g, s, v, p)
    ensures IsWalk(SquishedGraph(g), s, v, q) && Length(SquishedGraph(g), q) <= Length(g, p)
    decreases |p|
  {
    if p == [] {
      q := [];
    } else {
      var h := p[|p| - 1];
      var r := LighterWalk(g, s, h.u, p[..|p| - 1]);
      assert ValidEdge(g, h.u, h.k);
      if v == h.u {
        q := r;
      } else {
        var j := LighterEdge(g, h.u, h.k);
        AppendHop(SquishedGraph(g), s, h.u, r, j);
        q := r + [Hop(h.u, j)];
      }
    }
  }

  lemma SameShortest(g: WGraph, s: nat, v: nat, d: int)
    requires Valid(g)
    ensures Shortest(g, s, v, d) <==> Shortest(SquishedGraph(g), s, v, d)
  {
    var h := SquishedGraph(g);
    if Shortest(g, s, v, d) {
      forall p | IsWalk(h, s, v, p) ensures d <= Length(h, p) { var q := SquishedWalkIsWalk(g, s, v, p); }
      if d < DIST_INF {
        var p :| IsWalk(g, s, v, p) && Length(g, p) == d;
        var q := LighterWalk(g, s, v, p);
        assert IsWalk(h, s, v, q) && Length(h, q) == d;
      }
    }
    if Shortest(h, s, v, d) {
      forall p | IsWalk(g, s, v, p) ensures d <= Length(g, p) { var q := LighterWalk(g, s, v, p); }
      if d < DIST_INF {
        var p :| IsWalk(h, s, v, p) && Length(h, p) == d;
        var q := SquishedWalkIsWalk(g, s, v, p);
        assert IsWalk(g, s, v, q) && Length(g, q) == d;
      }
    }
  }

  // Squishing changes no shortest distance.
  lemma SquishingKeepsDistances(g: WGraph, s: nat, dist: seq<int>)
    requires Valid(g)
    ensures ExactDistances(g, s, dist) <==> ExactDistances(SquishedGraph(g), s, dist)
  {
    forall v: nat | v < |g| && v < |dist| ensures Shortest(g, s, v, dist[v]) <==> Shortest(SquishedGraph(g), s, v,
      dist[v]) {
      SameShortest(g, s, v, dist[v]);
    }
  }

  // -------------------------------------------------------------------- symmetry

  // Every edge has its reverse with the same weight.
  ghost predicate SymmetricWeights(g: WGraph) {
    forall u: nat, x: WNode {:trigger HasEdge(g, u, x)} | HasEdge(g, u, x) :: HasEdge(g, x.v, WNode(u, x.w))
  }

  ghost predicate HasEdge(g: WGraph, u: nat, x: WNode) { u < |g| && x in g[u] }

  lemma LighterReverse(g: WGraph, u: nat, x: WNode) returns (y: WNode)
    requires SymmetricWeights(g) && HasEdge(g, u, x) && x.v != u
    ensures x.v < |g| && HasEdge(SquishedGraph(g), x.v, y) && y.v == u && y.w <= x.w
  {
    hide SquishedNodes;
    assert HasEdge(g, x.v, WNode(u, x.w));
    SquishedNodesProperties(g[x.v], x.v);
    assert HasLighter(SquishedGraph(g)[x.v], WNode(u, x.w));
    y :| y in SquishedGraph(g)[x.v] && y.v == u && y.w <= x.w;
  }

  // Both directions keep the same lightest weight.
  lemma SquishingKeepsSymmetry(g: WGraph)
    requires SymmetricWeights(g)
    ensures SymmetricWeights(SquishedGraph(g))
  {
    hide SquishedNodes;
    var h := SquishedGraph(g);
    forall u: nat, x: WNode | HasEdge(h, u, x) ensures HasEdge(h, x.v, WNode(u, x.w)) {
      SquishedNodesProperties(g[u], u);
      assert HasEdge(g, u, x);
      var y := LighterReverse(g, u, x);
      SquishedNodesProperties(g[x.v], x.v);
      assert HasEdge(g, x.v, y);
      var z := LighterReverse(g, x.v, y);
      OneEntryEach(g[u], u, x, z);
      assert y == WNode(u, x.w);
    }
  }
}
