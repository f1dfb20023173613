// The ordered count, its verifier, and the choice whether to relabel first.
module TriangleCounting {
  import opened Lists
  import opened Triangles

  // -------------------------------------------------- cutting a set into pieces

  ghost function First(s: set<Triple>, n: nat): set<Triple> { set t | t in s && t.u < n }

  ghost function At(s: set<Triple>, u: nat, vs: seq<nat>): set<Triple> { set t | t in s && t.u == u && t.v in vs }

  ghost function Pair(s: set<Triple>, u: nat, v: nat): set<Triple> { set t | t in s && t.u == u && t.v == v }

  // The triples of s start with an edge.
  ghost predicate FromEdges(g: Rows, s: set<Triple>) {
    forall t | t in s :: HasEdge(g, t.u, t.v)
  }

  lemma FirstStep(g: Rows, s: set<Triple>, u: nat)
    requires FromEdges(g, s) && u < |g|
    ensures |First(s, u + 1)| == |First(s, u)| + |At(s, u, g[u])|
  {
    forall t ensures t in First(s, u + 1) <==> t in First(s, u) || t in At(s, u, g[u]) {
      if t in s { assert HasEdge(g, t.u, t.v); }
    }
    assert First(s, u + 1) == First(s, u) + At(s, u, g[u]);
    assert First(s, u) !! At(s, u, g[u]);
  }

  lemma FirstAll(g: Rows, s: set<Triple>)
    requires FromEdges(g, s)
    ensures First(s, |g|) == s
  {
    forall t | t in s ensures t.u < |g| { assert HasEdge(g, t.u, t.v); }
  }

  lemma AtStep(s: set<Triple>, u: nat, row: seq<nat>, j: nat)
    requires j < |row| && StrictlySorted(row)
    ensures |At(s, u, row[..j + 1])| == |At(s, u, row[..j])| + |Pair(s, u, row[j])|
  {
    assert row[..j + 1] == row[..j] + [row[j]];
    assert row[j] !in row[..j];
    assert At(s, u, row[..j + 1]) == At(s, u, row[..j]) + Pair(s, u, row[j]);
    assert At(s, u, row[..j]) !! Pair(s, u, row[j]);
  }

  // The list holds the third vertices of a pair, each once.
  ghost predicate Thirds(s: set<Triple>, u: nat, v: nat, ws: seq<nat>) {
    && (forall w: nat :: w in ws <==> Triple(u, v, w) in s)
    && (forall i, j | 0 <= i < j < |ws| :: ws[i] != ws[j])
  }

  lemma {:induction false} PairSize(s: set<Triple>, u: nat, v: nat, ws: seq<nat>)
    requires Thirds(s, u, v, ws)
    ensures |Pair(s, u, v)| == |ws|
    decreases |ws|
  {
    if ws == [] {
      forall t | t in s ensures t.u != u || t.v != v {
        assert t.u == u && t.v == v ==> t == Triple(u, v, t.w) && t.w in ws;
      }
      assert Pair(s, u, v) == {};
    } else {
      var last := ws[|ws| - 1];
      var rest := ws[..|ws| - 1];
      assert ws == rest + [last];
      var t := Triple(u, v, last);
      assert last in ws && last !in rest;
      forall w: nat ensures w in rest <==> Triple(u, v, w) in s - {t} { assert w in ws <==> w in rest || w == last; }
      PairSize(s - {t}, u, v, rest);
      assert Pair(s, u, v) == Pair(s - {t}, u, v) + {t};
    }
  }

  lemma SetsFromEdges(g: Rows)
    ensures FromEdges(g, TriangleSet(g)) && FromEdges(g, ClosedSet(g))
  {
  }

  // --------------------------------------------------------------- the count

  // it skips the entries of u's row below w; v itself, further on in the row,
  // stops it in time.
  method SkipTo(row: seq<nat>, it0: nat, w: nat, ghost at: nat) returns (it: nat)
    requires StrictlySorted(row) && it0 <= at < |row| && w <= row[at]
    requires forall i | 0 <= i < it0 :: row[i] < w
    ensures it0 <= it <= at && w <= row[it] && forall i | 0 <= i < it :: row[i] < w
    ensures w == row[it] <==> w in row
  {
    it := it0;
    while row[it] < w
      invariant it0 <= it <= at && forall i | 0 <= i < it :: row[i] < w
      decreases at - it
    {
      it := it + 1;
    }
  }

  // The wedges over the edge u - v that close below v.
  method CountPair(g: Rows, u: nat, j: nat) returns (n: nat)
    requires Simple(g) && u < |g| && j < |g[u]| && g[u][j] < u
    ensures n == |Pair(TriangleSet(g), u, g[u][j])|
  {
    var v := g[u][j];
    assert v in g[u] && HasEdge(g, u, v);
    var it: nat, k: nat := 0, 0;
    n := 0;
    ghost var found: seq<nat> := [];
    while k < |g[v]| && g[v][k] <= v
      invariant k <= |g[v]| && it <= j && n == |found|
      invariant forall i | 0 <= i < it :: k > 0 && g[u][i] < g[v][k - 1]
      invariant forall w: nat :: w in found <==> w in g[v][..k] && w in g[u]
      invariant forall a, b | 0 <= a < b < |found| :: found[a] != found[b]
      invariant forall w | w in g[v][..k] :: w < v
    {
      var w := g[v][k];
      assert w in g[v];
      assert g[v][..k + 1] == g[v][..k] + [w];
      assert w !in g[v][..k];
      it := SkipTo(g[u], it, w, j);
      if w == g[u][it] {
        assert w !in found;
        n := n + 1;
        found := found + [w];
      }
      k := k + 1;
    }
    PairFound(g, u, v, k, found);
  }

  lemma PairFound(g: Rows, u: nat, v: nat, k: nat, found: seq<nat>)
    requires Simple(g) && u < |g| && v < u && HasEdge(g, u, v) && k <= |g[v]|
    requires k < |g[v]| ==> g[v][k] > v
    requires forall w: nat :: w in found <==> w in g[v][..k] && w in g[u]
    requires forall a, b | 0 <= a < b < |found| :: found[a] != found[b]
    requires forall w | w in g[v][..k] :: w < v
    ensures |found| == |Pair(TriangleSet(g), u, v)|
  {
    forall w: nat ensures w in found <==> Triple(u, v, w) in TriangleSet(g) {
      if w in g[v] && w < v {
        var i: nat :| i < |g[v]| && g[v][i] == w;
        assert i < k;
        assert w == g[v][..k][i];
      }
    }
    PairSize(TriangleSet(g), u, v, found);
  }

  lemma RowFacts(g: Rows, u: nat)
    requires Simple(g) && u < |g|
    ensures StrictlySorted(g[u]) && forall j: nat | j < |g[u]| :: g[u][j] != u && g[u][j] < |g|
  {
    forall j: nat | j < |g[u]| ensures g[u][j] != u && g[u][j] < |g| {
      assert g[u][j] in g[u];
    }
  }

  // The neighbours of u up to u itself.
  method CountVertex(g: Rows, u: nat) returns (n: nat)
    requires Simple(g) && u < |g|
    ensures n == |At(TriangleSet(g), u, g[u])|
  {
    hide TriangleSet, Simple, StrictlySorted;
    RowFacts(g, u);
    n := 0;
    var j: nat := 0;
    assert At(TriangleSet(g), u, g[u][..0]) == {};
    while j < |g[u]| && g[u][j] <= u
      invariant j <= |g[u]| && n == |At(TriangleSet(g), u, g[u][..j])|
    {
      AtStep(TriangleSet(g), u, g[u], j);
      var pairs := CountPair(g, u, j);
      n := n + pairs;
      j := j + 1;
    }
    LaterAddNothing(g, u, j);
  }

  lemma LaterAddNothing(g: Rows, u: nat, j: nat)
    requires Simple(g) && u < |g| && j <= |g[u]| && (j < |g[u]| ==> g[u][j] > u)
    ensures At(TriangleSet(g), u, g[u]) == At(TriangleSet(g), u, g[u][..j])
  {
    forall t | t in At(TriangleSet(g), u, g[u]) ensures t.v in g[u][..j] {
      var i: nat :| i < |g[u]| && g[u][i] == t.v;
      assert i < j;
      assert g[u][..j][i] == t.v;
    }
  }

  // Every triangle is counted exactly once.
  method OrderedCount(g: Rows) returns (total: nat)
    requires Simple(g)
    ensures total == TriangleCount(g)
  {
    total := 0;
    SetsFromEdges(g);
    assert First(TriangleSet(g), 0) == {};
    for u := 0 to |g|
      invariant total == |First(TriangleSet(g), u)|
    {
      FirstStep(g, TriangleSet(g), u);
      var n := CountVertex(g, u);
      total := total + n;
    }
    FirstAll(g, TriangleSet(g));
  }

  // ------------------------------------------------------------- the verifier

  // The first i entries of a and the first j of b have been merged into c.
  ghost predicate Merged(a: seq<nat>, b: seq<nat>, i: nat, j: nat, c: seq<nat>) {
    && i <= |a| && j <= |b| && StrictlySorted(c)
    && (forall x: nat :: x in c <==> x in a[..i] && x in b[..j])
    && (j < |b| ==> forall x | x in a[..i] :: x < b[j])
    && (i < |a| ==> forall x | x in b[..j] :: x < a[i])
  }

  lemma MergeLeft(a: seq<nat>, b: seq<nat>, i: nat, j: nat, c: seq<nat>)
    requires StrictlySorted(a) && Merged(a, b, i, j, c) && i < |a| && j < |b| && a[i] < b[j]
    ensures Merged(a, b, i + 1, j, c)
  {
    assert a[..i + 1] == a[..i] + [a[i]];
  }

  lemma MergeRight(a: seq<nat>, b: seq<nat>, i: nat, j: nat, c: seq<nat>)
    requires StrictlySorted(b) && Merged(a, b, i, j, c) && i < |a| && j < |b| && b[j] < a[i]
    ensures Merged(a, b, i, j + 1, c)
  {
    assert b[..j + 1] == b[..j] + [b[j]];
  }

  lemma MergeBoth(a: seq<nat>, b: seq<nat>, i: nat, j: nat, c: seq<nat>)
    requires StrictlySorted(a) && StrictlySorted(b) && Merged(a, b, i, j, c) && i < |a| && j < |b| && a[i] == b[j]
    ensures Merged(a, b, i + 1, j + 1, c + [a[i]])
  {
    assert a[..i + 1] == a[..i] + [a[i]] && b[..j + 1] == b[..j] + [b[j]];
    var c' := c + [a[i]];
    forall x: nat ensures x in c' <==> x in a[..i + 1] && x in b[..j + 1] {
      assert x in c' <==> x in c || x == a[i];
      assert x in a[..i + 1] <==> x in a[..i] || x == a[i];
      assert x in b[..j + 1] <==> x in b[..j] || x == a[i];
    }
    forall k | 0 <= k < |c| ensures c[k] < a[i] { assert c[k] in c && c[k] in b[..j]; }
  }

  lemma MergeEnds(a: seq<nat>, b: seq<nat>, i: nat, j: nat, c: seq<nat>)
    requires StrictlySorted(a) && StrictlySorted(b) && Merged(a, b, i, j, c) && (i == |a| || j == |b|)
    ensures forall x: nat :: x in c <==> x in a && x in b
  {
    forall x: nat | x in a && x in b ensures x in a[..i] && x in b[..j] {
      var p: nat :| p < |a| && a[p] == x;
      var q: nat :| q < |b| && b[q] == x;
      if i == |a| {
        assert x in a[..i];
        assert q < j && b[..j][q] == x;
      } else {
        assert x in b[..j];
        assert p < i && a[..i][p] == x;
      }
    }
  }

  // std::set_intersection of two sorted lists.
  method SetIntersection(a: seq<nat>, b: seq<nat>) returns (c: seq<nat>)
    requires StrictlySorted(a) && StrictlySorted(b)
    ensures StrictlySorted(c) && forall x: nat :: x in c <==> x in a && x in b
  {
    var i: nat, j: nat := 0, 0;
    c := [];
    while i < |a| && j < |b|
      invariant Merged(a, b, i, j, c)
      decreases |a| - i + |b| - j
    {
      if a[i] < b[j] {
        MergeLeft(a, b, i, j, c);
        i := i + 1;
      } else if b[j] < a[i] {
        MergeRight(a, b, i, j, c);
        j := j + 1;
      } else {
        MergeBoth(a, b, i, j, c);
        c := c + [a[i]];
        i, j := i + 1, j + 1;
      }
    }
    MergeEnds(a, b, i, j, c);
  }

  // All wedges over the edges of u, closed anywhere.
  method ClosedAt(g: Rows, u: nat) returns (n: nat)
    requires Simple(g) && u < |g|
    ensures n == |At(ClosedSet(g), u, g[u])|
  {
    n := 0;
    assert At(ClosedSet(g), u, g[u][..0]) == {};
    for j := 0 to |g[u]|
      invariant n == |At(ClosedSet(g), u, g[u][..j])|
    {
      var v := g[u][j];
      assert v in g[u] && HasEdge(g, u, v);
      var both := SetIntersection(g[u], g[v]);
      BothAreThirds(g, u, v, both);
      PairSize(ClosedSet(g), u, v, both);
      AtStep(ClosedSet(g), u, g[u], j);
      n := n + |both|;
    }
    assert g[u][..|g[u]|] == g[u];
  }

  lemma BothAreThirds(g: Rows, u: nat, v: nat, both: seq<nat>)
    requires Simple(g) && HasEdge(g, u, v) && StrictlySorted(both) && forall x: nat ::
      x in both <==> x in g[u] && x in g[v]
    ensures Thirds(ClosedSet(g), u, v, both)
  {
  }

  // Sums to six times the number of triangles, so the verdict is exact.
  method TCVerifier(g: Rows, testTotal: nat) returns (ok: bool)
    requires Simple(g)
    ensures ok <==> testTotal == TriangleCount(g)
  {
    var total: nat := 0;
    SetsFromEdges(g);
    assert First(ClosedSet(g), 0) == {};
    for u := 0 to |g|
      invariant total == |First(ClosedSet(g), u)|
    {
      FirstStep(g, ClosedSet(g), u);
      var n := ClosedAt(g, u);
      total := total + n;
    }
    FirstAll(g, ClosedSet(g));
    SixTimes(g);
    total := total / 6;
    ok := total == testTotal;
  }
}
