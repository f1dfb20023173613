module WeightedBuild {
  // Building weighted rows from an edge list: the scatter under any interleaving
  // of its threads, and squishing on the packed arrays.

  import opened Csr
  import opened CsrBuild
  import opened ScatterThreads
  import opened Walks
  import opened WeightedSquish

  type WEdge = EdgeTo<WNode>

  function Vertex(x: WNode): nat { x.v }

  // The other end of an edge, with the weight of the edge.
  function GetSource(e: WEdge): WNode { WNode(e.u, e.v.w) }

  const WEIGHTED: Ends<WNode> := Ends(Vertex, GetSource)

  ghost predicate NodesInRange(el: seq<WEdge>, n: nat) {
    forall e | e in el :: e.u < n && e.v.v < n
  }

  // What the first k edges push onto row u.
  ghost function PushedNodes(el: seq<WEdge>, forwards: bool, backwards: bool, u: nat, k: nat): seq<WNode>
    requires k <= |el|
  {
    All(Items(WEIGHTED, el, forwards, backwards, k), u)
  }

  lemma PushedNext(el: seq<WEdge>, forwards: bool, backwards: bool, u: nat, k: nat)
    requires 0 < k <= |el|
    ensures PushedNodes(el, forwards, backwards, u, k)
         == PushedNodes(el, forwards, backwards, u, k - 1)
            + (if forwards && el[k - 1].u == u then [el[k - 1].v] else [])
            + (if backwards && el[k - 1].v.v == u then [GetSource(el[k - 1])] else [])
  {
    var e, before := el[k - 1], Items(WEIGHTED, el, forwards, backwards, k - 1);
    AllAppend(before, forwards, Item(e.u, e.v), u);
    AllAppend(before + if forwards then [Item(e.u, e.v)] else [], backwards, Item(e.v.v, GetSource(e)), u);
  }

  // Row u gets a neighbour as often as an edge goes there with that weight, and,
  // backwards, as often as one comes from there.
  ghost function Times(el: seq<WEdge>, forwards: bool, backwards: bool, u: nat, x: WNode): nat {
    (if forwards then multiset(el)[Edge(u, x)] else 0)
    + (if backwards then multiset(el)[Edge(x.v, WNode(u, x.w))] else 0)
  }

  lemma {:induction false} NodesTimes(el: seq<WEdge>, forwards: bool, backwards: bool, u: nat, k: nat, x: WNode)
    requires k <= |el|
    ensures Often(PushedNodes(el, forwards, backwards, u, k), x)
         == (if forwards then Often(el[..k], Edge(u, x)) else 0)
            + (if backwards then Often(el[..k], Edge(x.v, WNode(u, x.w))) else 0)
  {
    hide Often;
    if k == 0 {
      OftenNone(x);
      OftenNone(Edge(u, x));
      OftenNone(Edge(x.v, WNode(u, x.w)));
      assert el[..0] == [];
    } else {
      NodesTimes(el, forwards, backwards, u, k - 1, x);
      PushedNext(el, forwards, backwards, u, k);
      var e, before := el[k - 1], PushedNodes(el, forwards, backwards, u, k - 1);
      OftenAppend(before, forwards && e.u == u, e.v, x);
      OftenAppend(before + if forwards && e.u == u then [e.v] else [], backwards && e.v.v == u, GetSource(e), x);
      OftenAppend(el[..k - 1], true, e, Edge(u, x));
      OftenAppend(el[..k - 1], true, e, Edge(x.v, WNode(u, x.w)));
      assert el[..k] == el[..k - 1] + [e];
    }
  }

  // The graph that a build with these flags describes.
  ghost function BuiltNodes(el: seq<WEdge>, forwards: bool, backwards: bool, n: nat): (g: WGraph)
    ensures |g| == n && forall u: nat | u < n :: g[u] == PushedNodes(el, forwards, backwards, u, |el|)
  {
    seq(n, u requires 0 <= u < n => PushedNodes(el, forwards, backwards, u, |el|))
  }

  lemma BuiltTimes(el: seq<WEdge>, forwards: bool, backwards: bool, n: nat)
    ensures var g := BuiltNodes(el, forwards, backwards, n);
      forall u: nat, x | u < n :: multiset(g[u])[x] == Times(el, forwards, backwards, u, x)
  {
    hide PushedNodes;
    forall u: nat, x: WNode | u < n
      ensures multiset(PushedNodes(el, forwards, backwards, u, |el|))[x] == Times(el, forwards, backwards, u, x)
    {
      NodesTimes(el, forwards, backwards, u, |el|, x);
      assert el[..|el|] == el;
    }
  }

  // The graph whose rows an index cuts out of a list of neighbours.
  ghost function GraphOf(offsets: seq<nat>, neighs: seq<WNode>, n: nat): (g: WGraph)
    requires Offsets(offsets, n, |neighs|)
    ensures |g| == n && forall u: nat | u < n :: g[u] == Row(offsets, neighs, u)
  {
    seq(n, u requires 0 <= u < n => Row(offsets, neighs, u))
  }

  // The same rows, filled in another order.
  ghost predicate SameRows(g: WGraph, h: WGraph) {
    |g| == |h| && forall u: nat | u < |g| :: multiset(g[u]) == multiset(h[u])
  }

  // ------------------------------------------------------------------ scattering

  // Whatever the interleaving, every row holds what the edges push onto it, and
  // squishing gives one and the same weighted graph.
  lemma {:induction false} EveryScatterSquishesAlike(el: seq<WEdge>, forwards: bool, backwards: bool, n: nat,
                                                     start: seq<nat>, states: seq<State<WNode>>, moves: seq<nat>)
    requires var items := Items(WEIGHTED, el, forwards, backwards, |el|);
      && IsRun(items, states, moves) && |start| == n + 1 && Fits(items, start, |states[0].cells|)
      && states[0] == Initial(items, start, states[0].cells)
    requires Finished(states[|moves|])
    ensures var cells, g := states[|moves|].cells, BuiltNodes(el, forwards, backwards, n);
      && Offsets(start, n, |cells|)
      && SameRows(GraphOf(start, cells, n), g) && SquishedGraph(GraphOf(start, cells, n)) == SquishedGraph(g)
  {
    var items, s := Items(WEIGHTED, el, forwards, backwards, |el|), states[|moves|];
    InitialInv(items, start, states[0].cells);
    RunInv(items, start, states, moves, |moves|);
    var log :| LogInv(items, start, s, log);
    var g, h := BuiltNodes(el, forwards, backwards, n), GraphOf(start, s.cells, n);
    forall u: nat | u < n ensures multiset(h[u]) == multiset(g[u]) && SquishedGraph(h)[u] == SquishedGraph(g)[u] {
      FinishedRow(items, start, s, u);
      SquishForgetsOrder(h[u], g[u], u);
    }
  }

  // What every row of the memory then holds, edge by edge.
  lemma {:induction false} ScatteredTimes(el: seq<WEdge>, forwards: bool, backwards: bool, n: nat,
                                          start: seq<nat>, states: seq<State<WNode>>, moves: seq<nat>)
    requires var items := Items(WEIGHTED, el, forwards, backwards, |el|);
      && IsRun(items, states, moves) && |start| == n + 1 && Fits(items, start, |states[0].cells|)
      && states[0] == Initial(items, start, states[0].cells)
    requires Finished(states[|moves|])
    ensures Offsets(start, n, |states[|moves|].cells|)
    ensures var h := GraphOf(start, states[|moves|].cells, n);
      forall u: nat, x | u < n :: multiset(h[u])[x] == Times(el, forwards, backwards, u, x)
  {
    EveryScatterSquishesAlike(el, forwards, backwards, n, start, states, moves);
    BuiltTimes(el, forwards, backwards, n);
  }

  // -------------------------------------------------------------------- symmetry

  lemma {:induction false} PushedMirror(el: seq<WEdge>, u: nat, k: nat, x: WNode)
    requires k <= |el|
    ensures x in PushedNodes(el, true, true, u, k) <==> WNode(u, x.w) in PushedNodes(el, true, true, x.v, k)
  {
    if k > 0 {
      PushedMirror(el, u, k - 1, x);
      PushedNext(el, true, true, u, k);
      PushedNext(el, true, true, x.v, k);
    }
  }

  lemma {:induction false} PushedInRange(el: seq<WEdge>, forwards: bool, backwards: bool, n: nat, u: nat, k: nat)
    requires k <= |el| && NodesInRange(el, n)
    ensures forall x | x in PushedNodes(el, forwards, backwards, u, k) :: x.v < n
  {
    if k > 0 {
      assert el[k - 1] in el;
      PushedInRange(el, forwards, backwards, n, u, k - 1);
      PushedNext(el, forwards, backwards, u, k);
    }
  }

  lemma SameRowsSymmetry(g: WGraph, h: WGraph)
    requires SameRows(g, h) && SymmetricWeights(h)
    ensures SymmetricWeights(g)
  {
    forall u: nat, x: WNode | HasEdge(g, u, x) ensures HasEdge(g, x.v, WNode(u, x.w)) {
      assert x in multiset(h[u]);
      assert HasEdge(h, u, x);
      assert HasEdge(h, x.v, WNode(u, x.w));
      assert WNode(u, x.w) in multiset(g[x.v]);
    }
  }

  // A symmetrized weighted build is symmetric, and squishing keeps it so.
  lemma {:induction false} SymmetrizedIsSymmetric(el: seq<WEdge>, n: nat)
    requires NodesInRange(el, n)
    ensures var g := BuiltNodes(el, true, true, n); SymmetricWeights(g) && SymmetricWeights(SquishedGraph(g))
  {
    var g := BuiltNodes(el, true, true, n);
    forall u: nat, x: WNode | HasEdge(g, u, x) ensures HasEdge(g, x.v, WNode(u, x.w)) {
      PushedInRange(el, true, true, n, u, |el|);
      PushedMirror(el, u, |el|, x);
    }
    SquishingKeepsSymmetry(g);
  }

  // So it is in memory, whatever the interleaving of the scatter.
  lemma {:induction false} ScatteredIsSymmetric(el: seq<WEdge>, n: nat, start: seq<nat>, states: seq<State<WNode>>,
                                                moves: seq<nat>)
    requires NodesInRange(el, n)
    requires var items := Items(WEIGHTED, el, true, true, |el|);
      && IsRun(items, states, moves) && |start| == n + 1 && Fits(items, start, |states[0].cells|)
      && states[0] == Initial(items, start, states[0].cells)
    requires Finished(states[|moves|])
    ensures Offsets(start, n, |states[|moves|].cells|)
    ensures var g := GraphOf(start, states[|moves|].cells, n); SymmetricWeights(g) && SymmetricWeights(SquishedGraph(g))
  {
    EveryScatterSquishesAlike(el, true, true, n, start, states, moves);
    SymmetrizedIsSymmetric(el, n);
    SameRowsSymmetry(GraphOf(start, states[|moves|].cells, n), BuiltNodes(el, true, true, n));
  }

  // ------------------------------------------------------------------- squishing

  // On the arrays: the packed rows are the squished graph, in which no shortest
  // distance has changed.
  method SquishWeighted(index: array<nat>, neighs: array<WNode>, n: nat)
    returns (sqIndex: array<nat>, sqNeighs: array<WNode>)
    requires Offsets(index[..], n, neighs.Length)
    modifies neighs
    ensures fresh(sqIndex) && fresh(sqNeighs) && Offsets(sqIndex[..], n, sqNeighs.Length)
    ensures GraphOf(sqIndex[..], sqNeighs[..], n) == SquishedGraph(old(GraphOf(index[..], neighs[..], n)))
    ensures old(Valid(GraphOf(index[..], neighs[..], n))) ==> forall s: nat, dist ::
      ExactDistances(old(GraphOf(index[..], neighs[..], n)), s, dist)
      <==> ExactDistances(GraphOf(sqIndex[..], sqNeighs[..], n), s, dist)
  {
    NodesAreOrdered();
    ghost var g := GraphOf(index[..], neighs[..], n);
    sqIndex, sqNeighs := SquishCSR(NODES, index, neighs, n);
    assert GraphOf(sqIndex[..], sqNeighs[..], n) == SquishedGraph(g);
    if Valid(g) {
      forall s: nat, dist: seq<int> ensures ExactDistances(g, s, dist) <==> ExactDistances(SquishedGraph(g), s, dist) {
        SquishingKeepsDistances(g, s, dist);
      }
    }
  }
}
