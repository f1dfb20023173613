// The serial re-computation of the centrality scores: one pass for depths and
// path counts, lists of vertices by depth, and successors told by depths.

module BcVerifier {
  import opened Components
  import opened Layers
  import opened PathCounts
  import opened BfsVerifier
  import opened Centrality

  // ------------------------------------------------------------------ path counts

  // How many out-edges of each vertex have been handled: all of those listed
  // before i, j of the i-th, none of the others.
  ghost predicate HandledIs(g: Graph, list: seq<nat>, i: nat, j: nat, handled: seq<nat>) {
    && |handled| == g.N() && i <= |list|
    && forall u: nat | u < g.N() ::
      handled[u] == if u in list[..i] then |g.outs[u]| else if i < |list| && u == list[i] then j else 0
  }

  // What v has got from the handled edges of the first n vertices.
  ghost function Got(g: Graph, s: nat, depth: seq<int>, handled: seq<nat>, v: nat, n: nat): nat
    requires n <= g.N() == |depth| == |handled| && v < g.N()
  {
    if n == 0 then 0
    else Got(g, s, depth, handled, v, n - 1) + GotFrom(g, s, depth, handled[n - 1], n - 1, v)
  }

  ghost function GotFrom(g: Graph, s: nat, depth: seq<int>, k: nat, u: nat, v: nat): nat
    requires u < g.N() == |depth| && v < g.N()
  {
    if depth[u] >= 0 && depth[v] == depth[u] + 1 && k <= |g.outs[u]|
      then Mult(g.outs[u], k, v) * Walks(g, depth[u], s, u) else 0
  }

  ghost predicate CountIs(g: Graph, s: nat, depth: seq<int>, handled: seq<nat>, v: nat, count: nat)
    requires v < g.N() == |depth| == |handled|
  {
    count == if v == s then 1 else Got(g, s, depth, handled, v, g.N())
  }

  ghost predicate CountsAre(g: Graph, s: nat, depth: seq<int>, handled: seq<nat>, counts: seq<nat>) {
    && |depth| == |handled| == |counts| == g.N()
    && forall v: nat {:trigger CountIs(g, s, depth, handled, v, counts[v])} | v < g.N() ::
      CountIs(g, s, depth, handled, v, counts[v])
  }

  lemma {:induction false} GotSame(g: Graph, s: nat, a: seq<int>, b: seq<int>, handled: seq<nat>, handled': seq<nat>,
                                   v: nat, n: nat)
    requires n <= g.N() == |a| == |b| == |handled| == |handled'| && v < g.N()
    requires forall u: nat | u < n :: GotFrom(g, s, a, handled[u], u, v) == GotFrom(g, s, b, handled'[u], u, v)
    ensures Got(g, s, a, handled, v, n) == Got(g, s, b, handled', v, n)
  {
    if n > 0 { GotSame(g, s, a, b, handled, handled', v, n - 1); }
  }

  lemma {:induction false} GotZero(g: Graph, s: nat, a: seq<int>, handled: seq<nat>, v: nat, n: nat)
    requires n <= g.N() == |a| == |handled| && v < g.N()
    requires forall u: nat | u < n :: GotFrom(g, s, a, handled[u], u, v) == 0
    ensures Got(g, s, a, handled, v, n) == 0
  {
    if n > 0 { GotZero(g, s, a, handled, v, n - 1); }
  }

  // One more edge of u.
  lemma {:induction false} GotStep(g: Graph, s: nat, depth: seq<int>, handled: seq<nat>, u: nat, v: nat, n: nat)
    requires n <= g.N() == |depth| == |handled| && v < g.N() && u < g.N() && handled[u] < |g.outs[u]| && depth[u] >= 0
    ensures Got(g, s, depth, handled[u := handled[u] + 1], v, n) == Got(g, s, depth, handled, v, n)
      + if u < n && g.outs[u][handled[u]] == v && depth[v] == depth[u] + 1 then Walks(g, depth[u], s, u) else 0
  {
    if n > 0 {
      GotStep(g, s, depth, handled, u, v, n - 1);
      if n - 1 == u {
        var m, w := Mult(g.outs[u], handled[u], v), Walks(g, depth[u], s, u);
        assert (m + 1) * w == m * w + w;
      }
    }
  }

  // The edges handled so far lead to known vertices.
  ghost predicate HandledSeen(g: Graph, depth: seq<int>, handled: seq<nat>) {
    && |depth| == |handled| == g.N()
    && forall u: nat | u < g.N() ::
      handled[u] <= |g.outs[u]| && (handled[u] > 0 ==> depth[u] >= 0) && SeenUpTo(g, depth, u, handled[u])
  }

  lemma {:induction false} MultZero(row: seq<nat>, k: nat, v: nat)
    requires k <= |row| && forall j: nat | j < k :: row[j] != v
    ensures Mult(row, k, v) == 0
  {
    if k > 0 { MultZero(row, k - 1, v); }
  }

  // A vertex not known yet has got nothing, before and after it becomes known.
  lemma NewHasNothing(g: Graph, s: nat, depth: seq<int>, depth': seq<int>, handled: seq<nat>, v: nat)
    requires HandledSeen(g, depth, handled) && v < g.N() && depth[v] == -1 && |depth'| == g.N()
    ensures Got(g, s, depth', handled, v, g.N()) == 0
  {
    forall u: nat | u < g.N() ensures GotFrom(g, s, depth', handled[u], u, v) == 0 {
      assert SeenUpTo(g, depth, u, handled[u]);
      MultZero(g.outs[u], handled[u], v);
    }
    GotZero(g, s, depth', handled, v, g.N());
  }

  lemma DepthChange(g: Graph, s: nat, depth: seq<int>, handled: seq<nat>, counts: seq<nat>, v: nat, d: nat)
    requires CountsAre(g, s, depth, handled, counts) && HandledSeen(g, depth, handled) && v < g.N() && depth[v] == -1
      && v != s
    ensures CountsAre(g, s, depth[v := d], handled, counts) && counts[v] == 0
  {
    var depth' := depth[v := d];
    assert CountIs(g, s, depth, handled, v, counts[v]);
    NewHasNothing(g, s, depth, depth, handled, v);
    NewHasNothing(g, s, depth, depth', handled, v);
    forall x: nat | x < g.N() ensures CountIs(g, s, depth', handled, x, counts[x]) {
      assert CountIs(g, s, depth, handled, x, counts[x]);
      if x != v && x != s {
        forall u: nat | u < g.N() ensures GotFrom(g, s, depth, handled[u], u, x) == GotFrom(g, s, depth', handled[u],
          u, x) {
          if u == v { MultZero(g.outs[v], 0, x); }
        }
        GotSame(g, s, depth, depth', handled, handled, x, g.N());
      }
    }
  }

  lemma CountStep(g: Graph, s: nat, depth: seq<int>, handled: seq<nat>, counts: seq<nat>, u: nat, v: nat)
    requires CountsAre(g, s, depth, handled, counts) && u < g.N() && v < g.N() && s < g.N() && depth[u] >= 0
      && depth[s] == 0
    requires handled[u] < |g.outs[u]| && g.outs[u][handled[u]] == v && counts[u] == Walks(g, depth[u], s, u)
    ensures CountsAre(g, s, depth, handled[u := handled[u] + 1], if depth[v] == depth[u] + 1
                      then counts[v := counts[v] + counts[u]] else counts)
  {
    var handled' := handled[u := handled[u] + 1];
    var counts' := if depth[v] == depth[u] + 1 then counts[v := counts[v] + counts[u]] else counts;
    forall x: nat | x < g.N() ensures CountIs(g, s, depth, handled', x, counts'[x]) {
      assert CountIs(g, s, depth, handled, x, counts[x]);
      GotStep(g, s, depth, handled, u, x, g.N());
    }
  }

  // ------------------------------------------------------------ counts are final

  // Everything one level above u has been handled, and nothing above is open.
  ghost predicate AboveDone(g: Graph, depth: seq<int>, handled: seq<nat>, d: nat) {
    && g.Valid() && |depth| == |handled| == g.N()
    && (forall x: nat | x < g.N() && depth[x] >= 0 && depth[x] + 1 == d :: handled[x] == |g.outs[x]|)
    && (forall x: nat {:trigger ClosedAt(g, depth, x)} | x < g.N() && 0 <= depth[x] < d :: ClosedAt(g, depth, x))
  }

  lemma OneSource(g: Graph, s: nat, depth: seq<int>, handled: seq<nat>, u: nat, d: nat, x: nat)
    requires AboveDone(g, depth, handled, d) && s < g.N() && depth[s] == 0 && u < g.N() && depth[u] == d > 0
      && x < g.N()
    ensures GotFrom(g, s, depth, handled[x], x, u) == Mult(g.outs[x], |g.outs[x]|, u) * Walks(g, d - 1, s, x)
  {
    var row := g.outs[x];
    MultPositive(row, |row|, u);
    assert row[..|row|] == row;
    ProductPositive(Mult(row, |row|, u), Walks(g, d - 1, s, x));
    if depth[x] + 1 != d || depth[x] < 0 {
      WalksReach(g, s, d - 1, x);
      if Reaches(g, s, d - 1, x) {
        ClosedAboveBound(g, s, depth, d, d - 1, x);
        assert ClosedAt(g, depth, x);
      }
    }
  }

  lemma {:induction false} GotIsLastEdge(g: Graph, s: nat, depth: seq<int>, handled: seq<nat>, u: nat, d: nat, n: nat)
    requires AboveDone(g, depth, handled, d) && s < g.N() && depth[s] == 0 && u < g.N() && depth[u] == d > 0
      && n <= g.N()
    ensures Got(g, s, depth, handled, u, n) == LastEdge(g, d - 1, s, u, n)
  {
    if n > 0 {
      GotIsLastEdge(g, s, depth, handled, u, d, n - 1);
      OneSource(g, s, depth, handled, u, d, n - 1);
    }
  }

  lemma CountIsFinal(g: Graph, s: nat, depth: seq<int>, handled: seq<nat>, counts: seq<nat>, u: nat)
    requires CountsAre(g, s, depth, handled, counts) && s < g.N() && depth[s] == 0 && u < g.N() && depth[u] >= 0
    requires depth[u] == 0 ==> u == s
    requires AboveDone(g, depth, handled, depth[u])
    ensures counts[u] == Walks(g, depth[u], s, u)
  {
    assert CountIs(g, s, depth, handled, u, counts[u]);
    if u != s {
      GotIsLastEdge(g, s, depth, handled, u, depth[u], g.N());
      CountByLastEdge(g, depth[u] - 1, s, u);
    }
  }

  // -------------------------------------------------------------- the search pass

  ghost predicate Counting(g: Graph, s: nat, depth: seq<int>, list: seq<nat>, i: nat, j: nat, handled: seq<nat>,
                           counts: seq<nat>)
  {
    && Scanned(g, s, depth, list, i) && InOrder(depth, list, i)
    && HandledIs(g, list, i, j, handled) && HandledSeen(g, depth, handled)
    && CountsAre(g, s, depth, handled, counts)
  }

  // The vertices listed before u include all those of smaller depth.
  lemma AllAboveDone(g: Graph, s: nat, depth: seq<int>, list: seq<nat>, i: nat, j: nat, handled: seq<nat>,
                     counts: seq<nat>, u: nat)
    requires Counting(g, s, depth, list, i, j, handled, counts) && u < g.N() && depth[u] >= 0
    requires i < |list| ==> depth[u] <= depth[list[i]]
    ensures AboveDone(g, depth, handled, depth[u])
  {
    forall x: nat | x < g.N() && 0 <= depth[x] < depth[u] ensures x in list[..i] && ClosedAt(g, depth, x) {
      assert x in list;
      var a: nat :| a < |list| && list[a] == x;
      assert a < i;
      assert list[..i][a] == x;
      assert ClosedAt(g, depth, list[a]);
    }
  }

  lemma CountReady(g: Graph, s: nat, depth: seq<int>, list: seq<nat>, i: nat, j: nat, handled: seq<nat>,
                   counts: seq<nat>)
    requires Counting(g, s, depth, list, i, j, handled, counts) && i < |list|
    ensures g.Valid() && s < g.N() && |depth| == |counts| == |handled| == g.N() && list[i] < g.N()
      && depth[list[i]] >= 0 && handled[list[i]] == j
    ensures counts[list[i]] == Walks(g, depth[list[i]], s, list[i])
  {
    var u := list[i];
    assert u in list && s in list;
    assert Explained(g, s, depth, s) && Explained(g, s, depth, u);
    assert u !in list[..i];
    AllAboveDone(g, s, depth, list, i, j, handled, counts, u);
    CountIsFinal(g, s, depth, handled, counts, u);
  }

  lemma HandledAppend(g: Graph, list: seq<nat>, i: nat, j: nat, handled: seq<nat>, v: nat)
    requires HandledIs(g, list, i, j, handled) && i < |list|
    ensures HandledIs(g, list + [v], i, j, handled)
  {
    assert (list + [v])[..i] == list[..i];
  }

  lemma SeenChange(g: Graph, depth: seq<int>, handled: seq<nat>, v: nat, d: nat)
    requires HandledSeen(g, depth, handled) && v < g.N() && depth[v] == -1
    ensures HandledSeen(g, depth[v := d], handled)
  {
    var depth' := depth[v := d];
    forall x: nat | x < g.N() ensures SeenUpTo(g, depth', x, handled[x]) { assert SeenUpTo(g, depth, x, handled[x]); }
  }

  // A fresh neighbour joins the list.
  lemma ListStep(g: Graph, s: nat, depth: seq<int>, list: seq<nat>, i: nat, j: nat, handled: seq<nat>,
                 counts: seq<nat>, v: nat)
    requires Counting(g, s, depth, list, i, j, handled, counts) && i < |list|
    requires v < g.N() && v in g.outs[list[i]] && depth[v] == -1 && list[i] < g.N()
    ensures depth[list[i]] >= 0
    ensures Counting(g, s, depth[v := depth[list[i]] + 1], list + [v], i, j, handled, counts)
  {
    hide Scanned, InOrder, HandledSeen, CountsAre, HandledIs;
    var u := list[i];
    CountReady(g, s, depth, list, i, j, handled, counts);
    CurrentFacts(g, s, depth, list, i, u);
    AppendStep(g, s, depth, list, i, u, v);
    DepthChange(g, s, depth, handled, counts, v, depth[u] + 1);
    HandledAppend(g, list, i, j, handled, v);
    SeenChange(g, depth, handled, v, depth[u] + 1);
  }

  lemma SeenStep(g: Graph, depth: seq<int>, handled: seq<nat>, u: nat)
    requires HandledSeen(g, depth, handled) && u < g.N() && handled[u] < |g.outs[u]| && depth[u] >= 0
    requires var v := g.outs[u][handled[u]]; v < g.N() && 0 <= depth[v] <= depth[u] + 1
    ensures HandledSeen(g, depth, handled[u := handled[u] + 1])
  {
    var handled' := handled[u := handled[u] + 1];
    forall x: nat | x < g.N() ensures SeenUpTo(g, depth, x, handled'[x]) { assert SeenUpTo(g, depth, x, handled[x]); }
  }

  lemma HandledStep(g: Graph, list: seq<nat>, i: nat, j: nat, handled: seq<nat>)
    requires HandledIs(g, list, i, j, handled) && i < |list| && list[i] < g.N() && list[i] !in list[..i]
    ensures handled[list[i]] == j && HandledIs(g, list, i, j + 1, handled[list[i] := j + 1])
  {
  }

  lemma CurrentFacts(g: Graph, s: nat, depth: seq<int>, list: seq<nat>, i: nat, v: nat)
    requires Scanned(g, s, depth, list, i) && InOrder(depth, list, i) && i < |list| && v < g.N() && depth[v] >= 0
    ensures s < g.N() && depth[s] == 0 && list[i] !in list[..i] && depth[v] <= depth[list[i]] + 1
  {
    assert Explained(g, s, depth, s);
    ListedBound(g, s, depth, list, i, v);
  }

  // The neighbour is handled.
  lemma HandleStep(g: Graph, s: nat, depth: seq<int>, list: seq<nat>, i: nat, j: nat, handled: seq<nat>,
                   counts: seq<nat>)
    requires Counting(g, s, depth, list, i, j, handled, counts) && i < |list| && list[i] < g.N()
      && j < |g.outs[list[i]]|
    requires g.outs[list[i]][j] < g.N() && depth[g.outs[list[i]][j]] >= 0
    ensures var u, v := list[i], g.outs[list[i]][j];
      Counting(g, s, depth, list, i, j + 1, handled[u := j + 1], if depth[v] == depth[u] + 1
               then counts[v := counts[v] + counts[u]] else counts)
  {
    hide Scanned, InOrder, HandledSeen, CountsAre, HandledIs;
    var u, v := list[i], g.outs[list[i]][j];
    CountReady(g, s, depth, list, i, j, handled, counts);
    CurrentFacts(g, s, depth, list, i, v);
    HandledStep(g, list, i, j, handled);
    CountStep(g, s, depth, handled, counts, u, v);
    SeenStep(g, depth, handled, u);
  }

  lemma NextVertex(g: Graph, s: nat, depth: seq<int>, list: seq<nat>, i: nat, handled: seq<nat>, counts: seq<nat>)
    requires i < |list| && list[i] < g.N() && Counting(g, s, depth, list, i, |g.outs[list[i]]|, handled, counts)
    ensures Counting(g, s, depth, list, i + 1, 0, handled, counts)
  {
    var u := list[i];
    CountReady(g, s, depth, list, i, |g.outs[u]|, handled, counts);
    assert SeenUpTo(g, depth, u, handled[u]);
    CloseStep(g, s, depth, list, i, u);
    assert list[..i + 1] == list[..i] + [u];
    forall x: nat | x < g.N()
      ensures handled[x] == if x in list[..i + 1] then |g.outs[x]| else if i + 1 < |list| && x == list[i + 1] then 0
        else 0 {}
  }

  method CountEdge(g: Graph, depths: array<int>, counts: array<nat>, list: seq<nat>, i: nat, j: nat, ghost s: nat,
                   ghost handled: seq<nat>)
    returns (list': seq<nat>, ghost handled': seq<nat>)
    requires counts as object != depths && i < |list| && list[i] < g.N() && j < |g.outs[list[i]]|
    requires Counting(g, s, depths[..], list, i, j, handled, counts[..])
    modifies depths, counts
    ensures i < |list'| && list'[i] == list[i] && Counting(g, s, depths[..], list', i, j + 1, handled', counts[..])
  {
    hide Counting;
    var u, v := list[i], g.outs[list[i]][j];
    ghost var d0, c0 := depths[..], counts[..];
    CountReady(g, s, d0, list, i, j, handled, c0);
    EdgeInRange(g, u, v);
    list' := list;
    if depths[v] == -1 {
      ListStep(g, s, d0, list, i, j, handled, c0, v);
      depths[v] := depths[u] + 1;
      list' := list + [v];
      assert depths[..] == d0[v := d0[u] + 1];
    }
    ghost var d1 := depths[..];
    DepthKnown(g, s, d1, list', i, j, handled, c0, v);
    HandleStep(g, s, d1, list', i, j, handled, c0);
    handled' := handled[u := j + 1];
    if depths[v] == depths[u] + 1 {
      counts[v] := counts[v] + counts[u];
      assert counts[..] == c0[v := c0[v] + c0[u]];
    }
  }

  lemma DepthKnown(g: Graph, s: nat, depth: seq<int>, list: seq<nat>, i: nat, j: nat, handled: seq<nat>,
                   counts: seq<nat>, v: nat)
    requires Counting(g, s, depth, list, i, j, handled, counts) && v < g.N() && depth[v] != -1
    ensures depth[v] >= 0
  {
  }

  lemma CountingStarts(g: Graph, s: nat, depth: seq<int>, counts: seq<nat>)
    requires g.Valid() && s < g.N() && depth == FirstWave(g, s) && |counts| == g.N() && counts[s] == 1
    requires forall v: nat | v < g.N() && v != s :: counts[v] == 0
    ensures Counting(g, s, depth, [s], 0, 0, seq(g.N(), _ => 0), counts)
  {
    var handled: seq<nat> := seq(g.N(), _ => 0);
    FirstWaveIsWave(g, s);
    assert [s][..0] == [];
    forall v: nat | v < g.N() ensures CountIs(g, s, depth, handled, v, counts[v]) {
      if v != s {
        forall u: nat | u < g.N() ensures GotFrom(g, s, depth, handled[u], u, v) == 0 { MultZero(g.outs[u], 0, v); }
        GotZero(g, s, depth, handled, v, g.N());
      }
    }
  }

  // Depths and path counts of a finished pass.
  ghost predicate Passed(g: Graph, s: nat, depth: seq<int>, counts: seq<nat>) {
    && g.Valid() && s < g.N() && Depths(g, s, depth) && |counts| == g.N()
    && forall v: nat | v < g.N() && depth[v] >= 0 :: counts[v] == ShortestPaths(g, s, depth, v)
  }

  lemma CountingEnds(g: Graph, s: nat, depth: seq<int>, list: seq<nat>, handled: seq<nat>, counts: seq<nat>)
    requires Counting(g, s, depth, list, |list|, 0, handled, counts)
    ensures Passed(g, s, depth, counts)
  {
    SearchedIsExact(g, s, depth, list);
    assert s in list;
    forall v: nat | v < g.N() && depth[v] >= 0 ensures counts[v] == ShortestPaths(g, s, depth, v) {
      assert Explained(g, s, depth, s) && Explained(g, s, depth, v);
      AllAboveDone(g, s, depth, list, |list|, 0, handled, counts, v);
      CountIsFinal(g, s, depth, handled, counts, v);
    }
  }

  lemma CountingFits(g: Graph, s: nat, depth: seq<int>, list: seq<nat>, i: nat, j: nat, handled: seq<nat>,
                     counts: seq<nat>)
    requires Counting(g, s, depth, list, i, j, handled, counts)
    ensures |list| <= g.N()
  {
    ListFits(g, s, depth, list, i);
  }

  // Depths and path counts in one serial pass.
  method CountPaths(g: Graph, source: nat) returns (depths: array<int>, counts: array<nat>)
    requires g.Valid() && source < g.N()
    ensures fresh(depths) && fresh(counts) && Passed(g, source, depths[..], counts[..])
  {
    hide Counting, Passed;
    depths, counts := new int[g.N()](_ => -1), new nat[g.N()](_ => 0);
    depths[source], counts[source] := 0, 1;
    BrandesSearch.FirstDepths(g, source, depths[..]);
    CountingStarts(g, source, depths[..], counts[..]);
    var toVisit := [source];
    ghost var handled: seq<nat> := seq(g.N(), _ => 0);
    var i: nat := 0;
    while i < |toVisit|
      invariant counts as object != depths && fresh(depths) && fresh(counts)
      invariant Counting(g, source, depths[..], toVisit, i, 0, handled, counts[..]) && i <= |toVisit|
      decreases g.N() - i
    {
      CountingFits(g, source, depths[..], toVisit, i, 0, handled, counts[..]);
      CountReady(g, source, depths[..], toVisit, i, 0, handled, counts[..]);
      var u := toVisit[i];
      for j := 0 to |g.outs[u]|
        invariant counts as object != depths && fresh(depths) && fresh(counts)
        invariant i < |toVisit| && toVisit[i] == u
          && Counting(g, source, depths[..], toVisit, i, j, handled, counts[..])
      {
        toVisit, handled := CountEdge(g, depths, counts, toVisit, i, j, source, handled);
      }
      NextVertex(g, source, depths[..], toVisit, i, handled, counts[..]);
      i := i + 1;
    }
    CountingEnds(g, source, depths[..], toVisit, handled, counts[..]);
  }

  // ------------------------------------------------------------- lists by depth

  // The lists hold the vertices below n, by their depth, in increasing order.
  ghost predicate Sorted(depth: seq<int>, verts: seq<seq<nat>>, n: nat) {
    && (forall d: nat, v: nat {:trigger v in verts[d]} | d < |verts| ::
        v in verts[d] <==> v < n && v < |depth| && depth[v] == d)
    && (forall d: nat, i: nat, j: nat | d < |verts| && i < j < |verts[d]| :: verts[d][i] < verts[d][j])
    && (forall v: nat | v < n && v < |depth| :: depth[v] < |verts|)
  }

  lemma ResizeKeepsSorted(depth: seq<int>, verts: seq<seq<nat>>, n: nat, size: nat)
    requires Sorted(depth, verts, n) && |verts| <= size
    ensures Sorted(depth, Lists.Resized(verts, size), n)
  {
    var r := Lists.Resized(verts, size);
    forall d: nat, v: nat | d < |r| ensures v in r[d] <==> v < n && v < |depth| && depth[v] == d {
      if d < |verts| { assert v in verts[d] <==> v < n && v < |depth| && depth[v] == d; }
    }
  }

  lemma SortNext(depth: seq<int>, verts: seq<seq<nat>>, n: nat)
    requires Sorted(depth, verts, n) && n < |depth| && -1 <= depth[n] < |verts|
    ensures depth[n] == -1 ==> Sorted(depth, verts, n + 1)
    ensures depth[n] >= 0 ==> Sorted(depth, verts[depth[n] := verts[depth[n]] + [n]], n + 1)
  {
    if depth[n] == -1 {
      forall d: nat, v: nat | d < |verts| ensures v in verts[d] <==> v < n + 1 && v < |depth| && depth[v] == d {
        assert v in verts[d] <==> v < n && v < |depth| && depth[v] == d;
      }
    } else {
      var d0 := depth[n];
      var r := verts[d0 := verts[d0] + [n]];
      forall d: nat, v: nat | d < |r| ensures v in r[d] <==> v < n + 1 && v < |depth| && depth[v] == d {
        assert v in verts[d] <==> v < n && v < |depth| && depth[v] == d;
        if d == d0 { assert v in r[d] <==> v in verts[d] || v == n; }
      }
      forall i | 0 <= i < |verts[d0]| ensures verts[d0][i] < n { assert verts[d0][i] in verts[d0]; }
    }
  }

  method VertsAtDepth(depths: array<int>) returns (verts: seq<seq<nat>>)
    requires forall v: nat | v < depths.Length :: depths[v] >= -1
    ensures Sorted(depths[..], verts, depths.Length)
  {
    hide Sorted;
    verts := [];
    SortedStart(depths[..]);
    for n := 0 to depths.Length
      invariant Sorted(depths[..], verts, n)
    {
      if depths[n] != -1 {
        if depths[n] >= |verts| {
          ResizeKeepsSorted(depths[..], verts, n, depths[n] + 1);
          verts := Lists.Resized(verts, depths[n] + 1);
        }
        SortNext(depths[..], verts, n);
        verts := verts[depths[n] := verts[depths[n]] + [n]];
      } else {
        SortUnreached(depths[..], verts, n);
      }
    }
  }

  lemma SortedStart(depth: seq<int>)
    ensures Sorted(depth, [], 0)
  {
  }

  lemma SortUnreached(depth: seq<int>, verts: seq<seq<nat>>, n: nat)
    requires Sorted(depth, verts, n) && n < |depth| && depth[n] == -1
    ensures Sorted(depth, verts, n + 1)
  {
    forall d: nat, v: nat | d < |verts| ensures v in verts[d] <==> v < n + 1 && v < |depth| && depth[v] == d {
      assert v in verts[d] <==> v < n && v < |depth| && depth[v] == d;
    }
  }

  lemma SortedLists(depth: seq<int>, verts: seq<seq<nat>>, d: nat)
    requires Sorted(depth, verts, |depth|) && d < |verts|
    ensures PbfsThreads.ListsDepth(depth, verts[d], d)
  {
    forall v: nat ensures v in verts[d] <==> v < |depth| && depth[v] == d {}
  }

  // -------------------------------------------------------------------- the sweep

  lemma PassedTerm(g: Graph, s: nat, depth: seq<int>, counts: seq<nat>, deltas: seq<real>, u: nat, k: nat)
    requires Passed(g, s, depth, counts) && |deltas| == g.N() && u < g.N() && depth[u] >= 0 && k < |g.outs[u]|
    requires BelowOk(g, s, depth, deltas, u)
    ensures g.outs[u][k] < g.N() && (depth[g.outs[u][k]] == depth[u] + 1 <==> IsSucc(g, depth, u, k))
    ensures IsSucc(g, depth, u, k) ==>
      var v := g.outs[u][k];
      counts[v] > 0 && v != u && (counts[u] as real / counts[v] as real) * (1.0 + deltas[v]) == Term(g, s, depth, u, v)
  {
    if IsSucc(g, depth, u, k) {
      var v := g.outs[u][k];
      ShortestPathsPositive(g, s, depth, v);
      assert DeltaOk(g, s, depth, v, deltas[v]);
    }
  }

  lemma PassedFacts(g: Graph, s: nat, depth: seq<int>, counts: seq<nat>)
    requires Passed(g, s, depth, counts)
    ensures g.Valid() && s < g.N() && Depths(g, s, depth) && |counts| == |depth| == g.N()
      && forall v: nat | v < g.N() :: depth[v] >= -1
  {
    DepthsAreClosed(g, s, depth);
  }

  // The deltas below u do not depend on u's own.
  lemma OwnDelta(g: Graph, s: nat, depth: seq<int>, deltas: seq<real>, u: nat, x: real)
    requires g.Valid() && s < g.N() && Depths(g, s, depth) && |deltas| == g.N() && u < g.N() && depth[u] >= 0
    requires BelowOk(g, s, depth, deltas, u)
    ensures BelowOk(g, s, depth, deltas[u := x], u)
  {
    forall v: nat | v < g.N() && depth[v] == depth[u] + 1 ensures DeltaOk(g, s, depth, v, deltas[u := x][v]) {
      assert DeltaOk(g, s, depth, v, deltas[v]);
    }
  }

  // deltas[u] grows in place by one term per successor.
  method AddTerms(g: Graph, depths: array<int>, counts: array<nat>, deltas: array<real>, u: nat, ghost s: nat)
    requires Passed(g, s, depths[..], counts[..]) && depths as object != deltas && counts as object != deltas
    requires deltas.Length == g.N() && u < g.N() && depths[u] >= 0 && deltas[u] == 0.0
      && BelowOk(g, s, depths[..], deltas[..], u)
    modifies deltas
    ensures deltas[..] == old(deltas[..])[u := Dependency(g, s, depths[..], u, g.N())]
  {
    hide Passed, Depths, BelowOk, Term, Dependency;
    ghost var depth, d0 := depths[..], deltas[..];
    PassedFacts(g, s, depth, counts[..]);
    assert d0[u := 0.0] == d0;
    for k := 0 to |g.outs[u]|
      invariant deltas[..] == d0[u := Propagated(g, s, depth, u, k)]
    {
      OwnDelta(g, s, depth, d0, u, Propagated(g, s, depth, u, k));
      PassedTerm(g, s, depth, counts[..], deltas[..], u, k);
      var v := g.outs[u][k];
      if depths[v] == depths[u] + 1 {
        ghost var dk := deltas[..];
        var term := (counts[u] as real / counts[v] as real) * (1.0 + deltas[v]);
        assert term == Term(g, s, depth, u, v);
        deltas[u] := deltas[u] + term;
        assert deltas[..] == dk[u := dk[u] + term];
      }
    }
    PropagatedIsDependency(g, s, depth, u);
  }

  method SerialVertex(g: Graph, depths: array<int>, counts: array<nat>, deltas: array<real>, scores: array<real>,
                      u: nat, ghost s: nat, ghost before: seq<real>, ghost level: int, ghost part: seq<nat>)
    requires Passed(g, s, depths[..], counts[..]) && deltas != scores
    requires depths as object != deltas && counts as object != deltas && depths as object != scores
      && counts as object != scores
    requires Swept(g, s, depths[..], deltas[..], scores[..], before, level, part)
    requires u < g.N() == depths.Length && depths[u] == level - 1 && depths[u] >= 0 && u !in part
    modifies deltas, scores
    ensures Swept(g, s, depths[..], deltas[..], scores[..], before, level, part + [u])
  {
    hide Passed, Depths, BelowOk, VertexSwept, Dependency;
    ghost var depth, d0, s0 := depths[..], deltas[..], scores[..];
    PassedFacts(g, s, depth, counts[..]);
    SweptBelow(g, s, depth, d0, s0, before, level, part, u);
    NotSweptYet(g, s, depth, d0, s0, before, level, part, u);
    SweepOne(g, s, depth, d0, s0, before, level, part, u);
    AddTerms(g, depths, counts, deltas, u, s);
    scores[u] := scores[u] + deltas[u];
    assert scores[..] == s0[u := s0[u] + Dependency(g, s, depth, u, g.N())];
  }

  lemma NotSweptYet(g: Graph, s: nat, depth: seq<int>, deltas: seq<real>, scores: seq<real>, before: seq<real>,
                    level: int, part: seq<nat>, u: nat)
    requires Swept(g, s, depth, deltas, scores, before, level, part) && u < g.N() && depth[u] < level && u !in part
    ensures deltas[u] == 0.0
  {
    assert VertexSwept(g, s, depth, u, deltas[u], scores[u], before[u], level, part);
  }

  method SerialLevel(g: Graph, depths: array<int>, counts: array<nat>, deltas: array<real>, scores: array<real>,
                     verts: seq<nat>, d: nat, ghost s: nat, ghost before: seq<real>)
    requires Passed(g, s, depths[..], counts[..]) && deltas != scores && depths.Length == g.N()
    requires depths as object != deltas && counts as object != deltas && depths as object != scores
      && counts as object != scores
    requires Swept(g, s, depths[..], deltas[..], scores[..], before, d + 1, [])
    requires PbfsThreads.ListsDepth(depths[..], verts, d)
    modifies deltas, scores
    ensures Swept(g, s, depths[..], deltas[..], scores[..], before, d, [])
  {
    hide Passed, Swept;
    assert verts[..0] == [];
    for i := 0 to |verts|
      invariant Swept(g, s, depths[..], deltas[..], scores[..], before, d + 1, verts[..i])
    {
      var u := verts[i];
      assert u in verts && u !in verts[..i] && verts[..i + 1] == verts[..i] + [u];
      SerialVertex(g, depths, counts, deltas, scores, u, s, before, d + 1, verts[..i]);
    }
    assert verts[..|verts|] == verts;
    SweptLevel(g, s, depths[..], deltas[..], scores[..], before, d + 1, verts);
  }

  method SerialSource(g: Graph, source: nat, scores: array<real>)
    requires g.Valid() && source < g.N() == scores.Length
    modifies scores
    ensures forall u: nat | u < g.N() :: scores[u] == old(scores[u]) + Score(g, source, u)
  {
    hide Passed, Swept, Sorted, Score, Depths, ShortestPaths;
    ghost var before := scores[..];
    var depths, counts := CountPaths(g, source);
    PassedFacts(g, source, depths[..], counts[..]);
    var verts := VertsAtDepth(depths);
    SerialSweep(g, depths, counts, scores, verts, source);
  }

  lemma SortedBound(depth: seq<int>, verts: seq<seq<nat>>)
    requires Sorted(depth, verts, |depth|)
    ensures forall v: nat | v < |depth| :: depth[v] < |verts|
  {
  }

  method SerialSweep(g: Graph, depths: array<int>, counts: array<nat>, scores: array<real>, verts: seq<seq<nat>>,
                     ghost s: nat)
    requires Passed(g, s, depths[..], counts[..]) && depths.Length == g.N() == scores.Length
      && Sorted(depths[..], verts, depths.Length)
    requires depths as object != scores && counts as object != scores && g.Valid() && s < g.N()
    modifies scores
    ensures forall u: nat | u < g.N() :: scores[u] == old(scores[u]) + Score(g, s, u)
  {
    hide Passed, Swept, Sorted, Score, Depths;
    ghost var before, depth := scores[..], depths[..];
    var deltas := new real[g.N()](_ => 0.0);
    PassedFacts(g, s, depth, counts[..]);
    SortedBound(depth, verts);
    NothingSwept(g, s, depth, deltas[..], before, |verts|);
    for d := |verts| downto 0
      invariant Swept(g, s, depths[..], deltas[..], scores[..], before, d, [])
    {
      SortedLists(depth, verts, d);
      SerialLevel(g, depths, counts, deltas, scores, verts[d], d, s, before);
    }
    LastOfPiece(g, s, depth, deltas[..], scores[..], before, 0, []);
    SweptIsScore(g, s, depth, deltas[..], scores[..], before);
  }

  // The serial scores before normalization: the same as the kernel's.
  method SerialScores(g: Graph, sources: seq<nat>) returns (scores: array<real>)
    requires g.Valid() && forall i | 0 <= i < |sources| :: sources[i] < g.N()
    ensures fresh(scores) && ScoresAre(g, sources, |sources|, scores[..])
  {
    hide Score, ScoresAre;
    scores := new real[g.N()](_ => 0.0);
    ScoresStart(g, sources, scores[..]);
    for i := 0 to |sources|
      invariant ScoresAre(g, sources, i, scores[..])
    {
      ghost var before := scores[..];
      SerialSource(g, sources[i], scores);
      ScoresStep(g, sources, i, before, scores[..]);
    }
  }

  // Kernel and check compute the same scores for the same sources.
  lemma ScoresUnique(g: Graph, sources: seq<nat>, a: seq<real>, b: seq<real>)
    requires g.Valid() && forall i | 0 <= i < |sources| :: sources[i] < g.N()
    requires ScoresAre(g, sources, |sources|, a) && ScoresAre(g, sources, |sources|, b)
    ensures a == b
  {
  }

  method KernelAndCheck(g: Graph, sources: seq<nat>) returns (kernel: array<real>, check: array<real>)
    requires g.Valid() && forall i | 0 <= i < |sources| :: sources[i] < g.N()
    requires g.directed || EntriesTo(g, g.N()) % 2 == 0
    ensures ScoresAre(g, sources, |sources|, kernel[..])
    ensures check[..] == kernel[..]
  {
    hide ScoresAre;
    kernel := Centrality.Brandes(g, sources);
    ghost var scores := kernel[..];
    check := SerialScores(g, sources);
    ScoresUnique(g, sources, scores, check[..]);
  }
}
