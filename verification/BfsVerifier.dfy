// The check of a breadth-first tree by a serial search.
module BfsVerifier {
  import opened Components
  import opened Layers
  import opened BfsTrees
  import Lists

  // A serial search that has handled the first i vertices of its list, and the
  // first j out-neighbours of the i-th.
  ghost predicate Scanned(g: Graph, s: nat, depth: seq<int>, list: seq<nat>, i: nat) {
    && g.Valid() && |depth| == g.N() && s < g.N() && i <= |list| && list != [] && list[0] == s
    && (forall v: nat {:trigger v in list} :: v in list <==> v < g.N() && depth[v] >= 0)
    && (forall a, b | 0 <= a < b < |list| :: list[a] != list[b])
    && (forall v: nat | v < g.N() :: -1 <= depth[v])
    && (forall v: nat {:trigger Explained(g, s, depth, v)} | v < g.N() :: Explained(g, s, depth, v))
    && (forall a: nat {:trigger ClosedAt(g, depth, list[a])} | a < i :: list[a] < g.N() && ClosedAt(g, depth, list[a]))
  }

  // Depths never fall along the list, and no listed vertex is more than one
  // level below the one being handled.
  ghost predicate InOrder(depth: seq<int>, list: seq<nat>, i: nat) {
    && (forall a | 0 <= a < |list| :: list[a] < |depth|)
    && (forall a, b | 0 <= a <= b < |list| :: depth[list[a]] <= depth[list[b]])
    && (i < |list| ==> depth[list[|list| - 1]] <= depth[list[i]] + 1)
  }

  ghost predicate SeenUpTo(g: Graph, depth: seq<int>, u: nat, j: nat)
    requires u < g.N() == |depth|
  {
    forall k: nat | k < j && k < |g.outs[u]| :: g.outs[u][k] < |depth| && 0 <= depth[g.outs[u][k]] <= depth[u] + 1
  }

  lemma ListedBound(g: Graph, s: nat, depth: seq<int>, list: seq<nat>, i: nat, v: nat)
    requires Scanned(g, s, depth, list, i) && InOrder(depth, list, i) && i < |list| && v < g.N() && depth[v] >= 0
    ensures depth[v] <= depth[list[i]] + 1
  {
    assert v in list;
    var a :| 0 <= a < |list| && list[a] == v;
    assert depth[list[a]] <= depth[list[|list| - 1]];
  }

  // Giving another vertex its depth keeps x closed.
  lemma ClosedStays(g: Graph, depth: seq<int>, v: nat, d: nat, x: nat)
    requires g.Valid() && x < |depth| == g.N() && v < g.N() && depth[v] == -1 && x != v && ClosedAt(g, depth, x)
    ensures ClosedAt(g, depth[v := d], x)
  {
  }

  // A fresh neighbour of list[i] goes to the end of the list.
  lemma AppendStep(g: Graph, s: nat, depth: seq<int>, list: seq<nat>, i: nat, u: nat, v: nat)
    requires Scanned(g, s, depth, list, i) && InOrder(depth, list, i) && i < |list| && u == list[i]
    requires u < g.N() && v < g.N() && v in g.outs[u] && depth[v] == -1
    ensures depth[u] >= 0
    ensures Scanned(g, s, depth[v := depth[u] + 1], list + [v], i) && InOrder(depth[v := depth[u] + 1], list + [v], i)
  {
    hide Explained, ClosedAt;
    assert u in list && v !in list;
    var depth', list' := depth[v := depth[u] + 1], list + [v];
    forall x: nat ensures x in list' <==> x < g.N() && depth'[x] >= 0 { assert x in list' <==> x in list || x == v; }
    forall x: nat | x < g.N() ensures Explained(g, s, depth', x) { ExplainedStays(g, s, depth, u, v, x); }
    forall a: nat | a < i ensures list'[a] < g.N() && ClosedAt(g, depth', list'[a]) {
      assert list[a] in list;
      ClosedStays(g, depth, v, depth[u] + 1, list[a]);
    }
    forall a | 0 <= a < |list| ensures list[a] != v && depth[list[a]] <= depth[u] + 1 {
      assert list[a] in list;
      ListedBound(g, s, depth, list, i, list[a]);
    }
  }

  lemma ExplainedStays(g: Graph, s: nat, depth: seq<int>, u: nat, v: nat, x: nat)
    requires |depth| == g.N() && u < g.N() && v < g.N() && x < g.N() && depth[u] >= 0 && depth[v] == -1
      && v in g.outs[u]
    requires Explained(g, s, depth, x) && Explained(g, s, depth, v)
    ensures Explained(g, s, depth[v := depth[u] + 1], x)
  {
    var depth' := depth[v := depth[u] + 1];
    if x == v {
      assert Above(g, depth', u, v);
    } else if depth[x] > 0 {
      var y: nat :| Above(g, depth, y, x);
      assert Above(g, depth', y, x);
    }
  }

  // All out-neighbours of list[i].
  method HandleVertex(g: Graph, depth: array<int>, list: seq<nat>, i: nat, ghost s: nat) returns (list': seq<nat>)
    requires Scanned(g, s, depth[..], list, i) && InOrder(depth[..], list, i) && i < |list|
    modifies depth
    ensures Scanned(g, s, depth[..], list', i + 1) && InOrder(depth[..], list', i + 1) && |list| <= |list'|
  {
    list' := list;
    var u := list[i];
    assert u in list;
    for j := 0 to |g.outs[u]|
      invariant i < |list'| && list'[i] == u && |list| <= |list'|
      invariant Scanned(g, s, depth[..], list', i) && InOrder(depth[..], list', i)
      invariant SeenUpTo(g, depth[..], u, j)
    {
      list' := HandleEdge(g, depth, list', i, u, j, s);
    }
    CloseStep(g, s, depth[..], list', i, u);
  }

  // With neighbour j known, at most one level down, one more has been seen.
  lemma SeenNext(g: Graph, depth: seq<int>, u: nat, j: nat)
    requires u < g.N() == |depth| && j < |g.outs[u]| && g.outs[u][j] < g.N() && depth[u] >= 0
      && SeenUpTo(g, depth, u, j)
    ensures var v := g.outs[u][j];
      && (0 <= depth[v] <= depth[u] + 1 ==> SeenUpTo(g, depth, u, j + 1))
      && (depth[v] == -1 ==> SeenUpTo(g, depth[v := depth[u] + 1], u, j + 1))
  {
  }

  // Neighbour j of list[i]: a fresh one gets its depth and goes to the end of the list.
  method HandleEdge(g: Graph, depth: array<int>, list: seq<nat>, i: nat, u: nat, j: nat, ghost s: nat)
    returns (list': seq<nat>)
    requires Scanned(g, s, depth[..], list, i) && InOrder(depth[..], list, i) && i < |list| && u == list[i] && u < g.N()
    requires j < |g.outs[u]| && SeenUpTo(g, depth[..], u, j)
    modifies depth
    ensures i < |list'| && list'[i] == u && |list| <= |list'|
    ensures Scanned(g, s, depth[..], list', i) && InOrder(depth[..], list', i) && SeenUpTo(g, depth[..], u, j + 1)
  {
    hide InOrder, Explained, ClosedAt, SeenUpTo;
    var v := g.outs[u][j];
    EdgeInRange(g, u, v);
    assert u in list;
    list' := list;
    ghost var before := depth[..];
    SeenNext(g, before, u, j);
    if depth[v] == -1 {
      AppendStep(g, s, before, list, i, u, v);
      depth[v] := depth[u] + 1;
      list' := list + [v];
      assert depth[..] == before[v := before[u] + 1];
    } else {
      ListedBound(g, s, before, list, i, v);
    }
  }

  lemma CloseStep(g: Graph, s: nat, depth: seq<int>, list: seq<nat>, i: nat, u: nat)
    requires Scanned(g, s, depth, list, i) && InOrder(depth, list, i) && i < |list| && u == list[i] && u < g.N()
    requires SeenUpTo(g, depth, u, |g.outs[u]|)
    ensures Scanned(g, s, depth, list, i + 1) && InOrder(depth, list, i + 1)
  {
    forall v: nat | v in g.outs[u] ensures v < |depth| && 0 <= depth[v] <= depth[u] + 1 {
      var k :| 0 <= k < |g.outs[u]| && g.outs[u][k] == v;
    }
    assert ClosedAt(g, depth, list[i]);
  }

  lemma SearchedIsExact(g: Graph, s: nat, depth: seq<int>, list: seq<nat>)
    requires Scanned(g, s, depth, list, |list|) && InOrder(depth, list, |list|)
    ensures Depths(g, s, depth)
  {
    var last := list[|list| - 1];
    assert last in list && s in list;
    var level: nat := depth[last];
    forall v: nat | v < g.N() ensures depth[v] <= level {
      if depth[v] >= 0 {
        assert v in list;
        var a :| 0 <= a < |list| && list[a] == v;
        assert depth[list[a]] <= depth[list[|list| - 1]];
      }
    }
    forall u: nat | u < g.N() && depth[u] >= 0 ensures ClosedAt(g, depth, u) {
      assert u in list;
      var a: nat :| a < |list| && list[a] == u;
      assert ClosedAt(g, depth, list[a]);
    }
    ClosedIsExact(g, s, depth, level);
  }

  // Distances by a serial search.
  method SerialDepths(g: Graph, source: nat) returns (depth: array<int>)
    requires g.Valid() && source < g.N()
    ensures fresh(depth) && Depths(g, source, depth[..])
  {
    depth := new int[g.N()](_ => -1);
    depth[source] := 0;
    var toVisit := [source];
    var i: nat := 0;
    while i < |toVisit|
      invariant Scanned(g, source, depth[..], toVisit, i) && InOrder(depth[..], toVisit, i)
      decreases g.N() - i
    {
      ListFits(g, source, depth[..], toVisit, i);
      toVisit := HandleVertex(g, depth, toVisit, i, source);
      i := i + 1;
    }
    SearchedIsExact(g, source, depth[..], toVisit);
  }

  lemma ListFits(g: Graph, s: nat, depth: seq<int>, list: seq<nat>, i: nat)
    requires Scanned(g, s, depth, list, i)
    ensures |list| <= g.N()
  {
    Lists.DistinctFits(g.N(), list);
  }

  // What the checks demand of one vertex.
  ghost predicate VertexOk(g: Graph, s: nat, depth: seq<int>, u: nat, p: int)
    requires u < |depth|
  {
    if depth[u] >= 0 then ParentOk(g, s, depth, u, p) else p == -1
  }

  // Looks for the parent among the in-neighbours; only the first match counts.
  method CheckParent(g: Graph, depth: array<int>, u: nat, p: int, ghost s: nat) returns (ok: bool)
    requires g.Valid() && depth.Length == g.N() && u < g.N() && u != s && depth[u] > 0
    ensures ok <==> ParentOk(g, s, depth[..], u, p)
  {
    for j := 0 to |g.ins[u]|
      invariant forall k: nat | k < j :: g.ins[u][k] != p
    {
      var v := g.ins[u][j];
      assert v in g.ins[u];
      if v == p {
        return depth[v] == depth[u] - 1;
      }
    }
    ParentIsListed(g, s, depth[..], u, p);
    return false;
  }

  lemma ParentIsListed(g: Graph, s: nat, depth: seq<int>, u: nat, p: int)
    requires g.Valid() && |depth| == g.N() && u < g.N() && u != s
    ensures ParentOk(g, s, depth, u, p) ==> exists k: nat :: k < |g.ins[u]| && g.ins[u][k] == p
  {
    if ParentOk(g, s, depth, u, p) { EdgeInRange(g, p, u); }
  }

  // True exactly for the breadth-first trees from the source.
  method BFSVerifier(g: Graph, source: nat, parent: array<int>) returns (ok: bool)
    requires g.Valid() && source < g.N() && parent.Length == g.N()
    ensures ok <==> BfsTree(g, source, parent[..])
  {
    var depth := SerialDepths(g, source);
    ghost var d := depth[..];
    DepthsAreClosed(g, source, d);
    for u := 0 to g.N()
      invariant depth[..] == d
      invariant forall v: nat | v < u :: VertexOk(g, source, d, v, parent[v])
    {
      assert -1 <= d[u] && Explained(g, source, d, u);
      if depth[u] != -1 && parent[u] != -1 {
        if u == source {
          if !(parent[u] == u && depth[u] == 0) {
            NotATree(g, source, depth[..], parent[..], u);
            return false;
          }
          continue;
        }
        var parentFound := CheckParent(g, depth, u, parent[u], source);
        if !parentFound {
          NotATree(g, source, depth[..], parent[..], u);
          return false;
        }
      } else if depth[u] != parent[u] {
        NotATree(g, source, depth[..], parent[..], u);
        return false;
      }
    }
    assert IsBfsTree(g, source, depth[..], parent[..]);
    return true;
  }

  lemma NotATree(g: Graph, s: nat, depth: seq<int>, parent: seq<int>, u: nat)
    requires Depths(g, s, depth) && |parent| == g.N() && u < g.N() && !VertexOk(g, s, depth, u, parent[u])
    ensures !BfsTree(g, s, parent)
  {
    forall other | IsBfsTree(g, s, other, parent) ensures other == depth { DepthsUnique(g, s, other, depth); }
  }
}
