module Components {
  // Graphs as the unweighted kernels see them, undirected connectivity, and what
  // a correct component labelling is.

  // Row u of `outs` is what the iterators of out_neigh(u) run over, row u of
  // `ins` what those of in_neigh(u) run over.
  datatype Graph = Graph(directed: bool, outs: seq<seq<nat>>, ins: seq<seq<nat>>)
  {
    function N(): nat { |outs| }

    ghost predicate Valid() {
      && |ins| == |outs|
      && (forall u, j | 0 <= u < |outs| && 0 <= j < |outs[u]| :: outs[u][j] < |outs|)
      && (forall u, j | 0 <= u < |ins| && 0 <= j < |ins[u]| :: ins[u][j] < |outs|)
      && (forall u: nat, v: nat | u < |outs| && v < |outs| :: v in outs[u] <==> u in ins[v])
      && (!directed ==> ins == outs)
    }
  }

  ghost predicate Adjacent(g: Graph, a: nat, b: nat) {
    a < g.N() && b < g.N() && (b in g.outs[a] || a in g.outs[b])
  }

  ghost predicate IsPath(g: Graph, p: seq<nat>) {
    && p != []
    && (forall i | 0 <= i < |p| :: p[i] < g.N())
    && (forall i | 0 <= i < |p| - 1 :: Adjacent(g, p[i], p[i + 1]))
  }

  // a and b are connected when edges are followed in either direction.
  ghost predicate Connected(g: Graph, a: nat, b: nat) {
    exists p :: IsPath(g, p) && p[0] == a && p[|p| - 1] == b
  }

  lemma ConnectedReflexive(g: Graph, a: nat)
    requires a < g.N()
    ensures Connected(g, a, a)
  {
    assert IsPath(g, [a]);
  }

  lemma ConnectedEdge(g: Graph, a: nat, b: nat)
    requires Adjacent(g, a, b)
    ensures Connected(g, a, b)
  {
    var p := [a, b];
    assert IsPath(g, p) && p[0] == a && p[|p| - 1] == b;
  }

  lemma ConnectedTransitive(g: Graph, a: nat, b: nat, c: nat)
    requires Connected(g, a, b) && Connected(g, b, c)
    ensures Connected(g, a, c)
  {
    var p :| IsPath(g, p) && p[0] == a && p[|p| - 1] == b;
    var q :| IsPath(g, q) && q[0] == b && q[|q| - 1] == c;
    var r := p + q[1..];
    forall i | 0 <= i < |r| - 1 ensures Adjacent(g, r[i], r[i + 1]) {
      if i < |p| - 1 {
        assert Adjacent(g, p[i], p[i + 1]);
      } else {
        assert r[i] == q[i - (|p| - 1)] && r[i + 1] == q[i - (|p| - 1) + 1];
        assert Adjacent(g, q[i - (|p| - 1)], q[i - (|p| - 1) + 1]);
      }
    }
    assert IsPath(g, r) && r[0] == a && r[|r| - 1] == c;
  }

  lemma ConnectedSymmetric(g: Graph, a: nat, b: nat)
    requires Connected(g, a, b)
    ensures Connected(g, b, a)
  {
    var p :| IsPath(g, p) && p[0] == a && p[|p| - 1] == b;
    var r := seq(|p|, i requires 0 <= i < |p| => p[|p| - 1 - i]);
    forall i | 0 <= i < |r| - 1 ensures Adjacent(g, r[i], r[i + 1]) {
      assert Adjacent(g, p[|p| - 2 - i], p[|p| - 2 - i + 1]);
    }
    assert IsPath(g, r) && r[0] == b && r[|r| - 1] == a;
  }

  // Whatever holds across every edge holds between connected vertices.
  lemma {:induction false} AlongPath(g: Graph, tag: nat -> int, p: seq<nat>)
    requires IsPath(g, p)
    requires forall a, b | Adjacent(g, a, b) :: tag(a) == tag(b)
    ensures tag(p[0]) == tag(p[|p| - 1])
    decreases |p|
  {
    if |p| > 1 {
      assert Adjacent(g, p[0], p[0 + 1]);
      var q := p[1..];
      forall i | 0 <= i < |q| - 1 ensures Adjacent(g, q[i], q[i + 1]) {
        assert Adjacent(g, p[i + 1], p[i + 1 + 1]);
      }
      AlongPath(g, tag, q);
    }
  }

  // Every vertex carries the smallest vertex of its component.
  ghost predicate MinLabels(g: Graph, comp: seq<nat>) {
    && |comp| == g.N()
    && forall x | 0 <= x < |comp| :: Connected(g, x, comp[x]) && forall y | Connected(g, x, y) :: comp[x] <= y
  }

  lemma MinLabelsUnique(g: Graph, a: seq<nat>, b: seq<nat>)
    requires MinLabels(g, a) && MinLabels(g, b)
    ensures a == b
  {
  }

  // Labels are equal exactly on connected vertices.
  ghost predicate LabelsMatch(g: Graph, comp: seq<nat>) {
    && |comp| == g.N()
    && forall u, v | 0 <= u < |comp| && 0 <= v < |comp| :: comp[u] == comp[v] <==> Connected(g, u, v)
  }

  lemma MinLabelsMatch(g: Graph, comp: seq<nat>)
    requires MinLabels(g, comp)
    ensures LabelsMatch(g, comp)
  {
    forall u, v | 0 <= u < |comp| && 0 <= v < |comp| ensures comp[u] == comp[v] <==> Connected(g, u, v) {
      if comp[u] == comp[v] {
        ConnectedSymmetric(g, v, comp[v]);
        ConnectedTransitive(g, u, comp[u], v);
      }
      if Connected(g, u, v) {
        ConnectedTransitive(g, u, v, comp[v]);
        ConnectedSymmetric(g, u, v);
        ConnectedTransitive(g, v, u, comp[u]);
      }
    }
  }

  // ------------------------------------------------------------ label forests

  // comp read as parent pointers never points upwards.
  ghost predicate Forest(comp: seq<nat>) {
    forall x | 0 <= x < |comp| :: comp[x] <= x
  }

  function Root(comp: seq<nat>, x: nat): (r: nat)
    requires x < |comp|
  {
    if comp[x] < x then Root(comp, comp[x]) else x
  }

  ghost predicate Same(comp: seq<nat>, a: nat, b: nat) {
    a < |comp| && b < |comp| && Root(comp, a) == Root(comp, b)
  }

  lemma {:induction false} RootProperties(comp: seq<nat>, x: nat)
    requires Forest(comp) && x < |comp|
    ensures Root(comp, x) <= x && comp[Root(comp, x)] == Root(comp, x)
    ensures Root(comp, comp[x]) == Root(comp, x)
    ensures comp[x] == x <==> Root(comp, x) == x
  {
    if comp[x] < x { RootProperties(comp, comp[x]); }
  }

  // Hooking a root h under l merges exactly two trees.
  lemma {:induction false} RootAfterHook(comp: seq<nat>, h: nat, l: nat, x: nat)
    requires Forest(comp) && l < h < |comp| && comp[h] == h && x < |comp|
    ensures Root(comp[h := l], x) == if Root(comp, x) == h then Root(comp, l) else Root(comp, x)
  {
    var comp' := comp[h := l];
    RootProperties(comp, l);
    if x == h {
      BelowUnchanged(comp, comp', l);
    } else if comp[x] < x {
      RootAfterHook(comp, h, l, comp[x]);
    }
  }

  // Roots depend only on smaller vertices.
  lemma {:induction false} BelowUnchanged(comp: seq<nat>, comp': seq<nat>, x: nat)
    requires Forest(comp) && |comp| == |comp'| && x < |comp|
    requires forall y | 0 <= y <= x :: comp'[y] == comp[y]
    ensures Root(comp', x) == Root(comp, x)
  {
    if comp[x] < x { BelowUnchanged(comp, comp', comp[x]); }
  }

  // Hooking only ever merges.
  lemma HookKeepsSame(comp: seq<nat>, h: nat, l: nat, a: nat, b: nat)
    requires Forest(comp) && l < h < |comp| && comp[h] == h && Same(comp, a, b)
    ensures Same(comp[h := l], a, b)
  {
    RootAfterHook(comp, h, l, a);
    RootAfterHook(comp, h, l, b);
  }

  // Pointing x at another vertex of its own tree changes no root.
  lemma {:induction false} RootAfterJump(comp: seq<nat>, n: nat, a: nat, x: nat)
    requires Forest(comp) && n < |comp| && a <= comp[n] && Root(comp, a) == Root(comp, n) && x < |comp|
    ensures Root(comp[n := a], x) == Root(comp, x)
  {
    var comp' := comp[n := a];
    RootProperties(comp, n);
    RootProperties(comp, a);
    if x == n {
      if a < n { BelowUnchanged(comp, comp', a); }
    } else if comp[x] < x {
      RootAfterJump(comp, n, a, comp[x]);
    }
  }

  // Trees never cross components.
  ghost predicate TreesConnected(g: Graph, comp: seq<nat>) {
    && |comp| == g.N()
    && Forest(comp)
    && forall x | 0 <= x < |comp| :: Connected(g, x, comp[x])
  }

  lemma {:induction false} ConnectedToRoot(g: Graph, comp: seq<nat>, x: nat)
    requires TreesConnected(g, comp) && x < |comp|
    ensures Connected(g, x, Root(comp, x))
  {
    if comp[x] < x {
      ConnectedToRoot(g, comp, comp[x]);
      ConnectedTransitive(g, x, comp[x], Root(comp, x));
    }
  }

  lemma SameIsConnected(g: Graph, comp: seq<nat>, a: nat, b: nat)
    requires TreesConnected(g, comp) && Same(comp, a, b)
    ensures Connected(g, a, b)
  {
    ConnectedToRoot(g, comp, a);
    ConnectedToRoot(g, comp, b);
    ConnectedSymmetric(g, b, Root(comp, b));
    ConnectedTransitive(g, a, Root(comp, a), b);
  }

  ghost predicate Flat(comp: seq<nat>) {
    forall x | 0 <= x < |comp| :: comp[x] < |comp| && comp[comp[x]] == comp[x]
  }

  ghost predicate EdgesJoined(g: Graph, comp: seq<nat>) {
    forall u: nat, j: nat | u < g.N() && j < |g.outs[u]| :: Same(comp, u, g.outs[u][j])
  }

  // A flat forest that joins the ends of every edge labels every vertex with
  // the smallest vertex of its component.
  lemma JoinedFlatIsMin(g: Graph, comp: seq<nat>)
    requires g.Valid() && TreesConnected(g, comp) && Flat(comp) && EdgesJoined(g, comp)
    ensures MinLabels(g, comp)
  {
    forall x: nat, y | x < |comp| && Connected(g, x, y) ensures comp[x] <= y {
      var p :| IsPath(g, p) && p[0] == x && p[|p| - 1] == y;
      var tag := (a: nat) => if a < |comp| then Root(comp, a) else 0;
      forall a: nat, b: nat | Adjacent(g, a, b) ensures tag(a) == tag(b) {
        if b in g.outs[a] {
          var j :| 0 <= j < |g.outs[a]| && g.outs[a][j] == b;
        } else {
          var j :| 0 <= j < |g.outs[b]| && g.outs[b][j] == a;
        }
      }
      AlongPath(g, tag, p);
      RootProperties(comp, x);
      RootProperties(comp, y);
      RootProperties(comp, comp[x]);
    }
  }
}
