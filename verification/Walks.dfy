module Walks {
  // Weighted graphs as the kernels see them, walks, and what an array of
  // shortest distances is.  A row is the neighbourhood that the iterators of
  // out_neigh(u) run over.

  // A neighbour and the weight of the edge to it.
  datatype WNode = WNode(v: nat, w: int)

  type WGraph = seq<seq<WNode>>

  // Largest 32-bit signed value; distances and weights are 32-bit signed.
  const INT32_MAX: int := 0x7FFF_FFFF

  // The distance that stands for "not reached".
  const DIST_INF: int := INT32_MAX / 2

  // The heaviest edge for which adding it to a finite distance cannot wrap.
  const MAX_SAFE_WEIGHT: int := INT32_MAX - (DIST_INF - 1)

  // Two's complement 32-bit value of x.
  function Wrap32(x: int): (r: int)
    ensures -0x8000_0000 <= r < 0x8000_0000 && (x - r) % 0x1_0000_0000 == 0
  {
    (x + 0x8000_0000) % 0x1_0000_0000 - 0x8000_0000
  }

  ghost predicate ValidEdge(g: WGraph, u: nat, k: nat)
    requires u < |g| && k < |g[u]|
  {
    g[u][k].v < |g| && 0 <= g[u][k].w <= MAX_SAFE_WEIGHT
  }

  ghost predicate Valid(g: WGraph) {
    forall u: nat, k: nat | u < |g| && k < |g[u]| :: ValidEdge(g, u, k)
  }

  // Adding a weight to a finite distance stays inside 32 bits for every finite
  // distance exactly when the weight is at most MAX_SAFE_WEIGHT.
  lemma NoOverflowIff(w: int)
    requires 0 <= w <= INT32_MAX
    ensures (forall d: int | 0 <= d < DIST_INF :: AddsExactly(d, w)) <==> w <= MAX_SAFE_WEIGHT
    ensures w <= MAX_SAFE_WEIGHT <==> 0x3FFF_FFFE + w < 0x8000_0000
  {
    if w > MAX_SAFE_WEIGHT {
      assert !AddsExactly(DIST_INF - 1, w);
    }
  }

  ghost predicate AddsExactly(d: int, w: int) {
    Wrap32(d + w) == d + w
  }

  // One step of a walk: edge k of vertex u.
  datatype Hop = Hop(u: nat, k: nat)

  ghost predicate IsWalk(g: WGraph, s: nat, v: nat, p: seq<Hop>)
    decreases |p|
  {
    if p == [] then s == v
    else
      var h := p[|p| - 1];
      h.u < |g| && h.k < |g[h.u]| && g[h.u][h.k].v == v && IsWalk(g, s, h.u, p[..|p| - 1])
  }

  ghost function Length(g: WGraph, p: seq<Hop>): int {
    if p == [] then 0
    else
      var h := p[|p| - 1];
      Length(g, p[..|p| - 1]) + if h.u < |g| && h.k < |g[h.u]| then g[h.u][h.k].w else 0
  }

  // Some walk from s to v weighs exactly d.
  ghost predicate HasWalk(g: WGraph, s: nat, v: nat, d: int) {
    exists p :: IsWalk(g, s, v, p) && Length(g, p) == d
  }

  lemma ExtendWalk(g: WGraph, s: nat, u: nat, k: nat, d: int)
    requires u < |g| && k < |g[u]| && HasWalk(g, s, u, d)
    ensures HasWalk(g, s, g[u][k].v, d + g[u][k].w)
  {
    var p :| IsWalk(g, s, u, p) && Length(g, p) == d;
    var q := p + [Hop(u, k)];
    assert q[..|q| - 1] == p;
    assert IsWalk(g, s, g[u][k].v, q) && Length(g, q) == d + g[u][k].w;
  }

  // d is the weight of a lightest walk from s to v, capped at DIST_INF.
  ghost predicate Shortest(g: WGraph, s: nat, v: nat, d: int) {
    && d <= DIST_INF
    && (d < DIST_INF ==> HasWalk(g, s, v, d))
    && (forall p | IsWalk(g, s, v, p) :: d <= Length(g, p))
  }

  ghost predicate ExactDistances(g: WGraph, s: nat, dist: seq<int>) {
    && |dist| == |g|
    && forall v: nat | v < |g| :: Shortest(g, s, v, dist[v])
  }

  // The same with the number that stands for "not reached": below it an entry is
  // the weight of a lightest walk, and it is that number exactly when no walk is
  // lighter than that.
  ghost predicate LightestDistances(g: WGraph, s: nat, dist: seq<int>) {
    && |dist| == |g|
    && forall v: nat | v < |g| :: Lightest(g, s, v, dist[v])
  }

  ghost predicate Lightest(g: WGraph, s: nat, v: nat, d: int) {
    && d <= 0x3FFF_FFFF
    && (forall p | IsWalk(g, s, v, p) && Length(g, p) < 0x3FFF_FFFF :: d <= Length(g, p))
    && (d < 0x3FFF_FFFF ==> exists p :: IsWalk(g, s, v, p) && Length(g, p) == d)
    && (d == 0x3FFF_FFFF <==> forall p | IsWalk(g, s, v, p) :: Length(g, p) >= 0x3FFF_FFFF)
  }

  lemma ExactIsLightest(g: WGraph, s: nat, dist: seq<int>)
    ensures ExactDistances(g, s, dist) <==> LightestDistances(g, s, dist)
  {
    if |dist| == |g| {
      forall v: nat | v < |g| ensures Shortest(g, s, v, dist[v]) <==> Lightest(g, s, v, dist[v]) {
        OneLightest(g, s, v, dist[v]);
      }
    }
  }

  lemma OneLightest(g: WGraph, s: nat, v: nat, d: int)
    ensures Shortest(g, s, v, d) <==> Lightest(g, s, v, d)
  {
    if d < DIST_INF && HasWalk(g, s, v, d) {
      var p :| IsWalk(g, s, v, p) && Length(g, p) == d;
    }
  }

  // Two exact arrays are the same array.
  lemma ExactIsUnique(g: WGraph, s: nat, a: seq<int>, b: seq<int>)
    requires ExactDistances(g, s, a) && ExactDistances(g, s, b)
    ensures a == b
  {
    forall v: nat | v < |g| ensures a[v] == b[v] {
      assert Shortest(g, s, v, a[v]) && Shortest(g, s, v, b[v]);
    }
  }

  // No edge out of u, among the first k, can still improve its head.
  ghost predicate SettledUpTo(g: WGraph, dist: seq<int>, u: nat, k: nat)
    requires Valid(g) && |dist| == |g| && u < |g|
  {
    forall j: nat | j < k && j < |g[u]| :: EdgeSettled(g, dist, u, j)
  }

  ghost predicate EdgeSettled(g: WGraph, dist: seq<int>, u: nat, j: nat)
    requires Valid(g) && |dist| == |g| && u < |g| && j < |g[u]|
  {
    assert ValidEdge(g, u, j);
    dist[g[u][j].v] <= dist[u] + g[u][j].w
  }

  ghost predicate Settled(g: WGraph, dist: seq<int>, u: nat)
    requires Valid(g) && |dist| == |g| && u < |g|
  {
    SettledUpTo(g, dist, u, |g[u]|)
  }

  // Every finite entry is the weight of some walk.
  ghost predicate Sound(g: WGraph, s: nat, dist: seq<int>) {
    && |dist| == |g|
    && s < |g|
    && dist[s] == 0
    && (forall v: nat | v < |g| :: 0 <= dist[v] <= DIST_INF && (dist[v] < DIST_INF ==> HasWalk(g, s, v, dist[v])))
  }

  lemma {:induction false} SettledBound(g: WGraph, s: nat, dist: seq<int>, v: nat, p: seq<Hop>)
    requires Valid(g) && Sound(g, s, dist) && v < |g| && IsWalk(g, s, v, p)
    requires forall u: nat | u < |g| :: Settled(g, dist, u)
    ensures dist[v] <= Length(g, p)
    decreases |p|
  {
    if p != [] {
      var h := p[|p| - 1];
      SettledBound(g, s, dist, h.u, p[..|p| - 1]);
      assert ValidEdge(g, h.u, h.k);
      assert Settled(g, dist, h.u);
      assert EdgeSettled(g, dist, h.u, h.k);
    }
  }

  // A sound array with nothing left to relax is exact.
  lemma FixpointIsExact(g: WGraph, s: nat, dist: seq<int>)
    requires Valid(g) && Sound(g, s, dist)
    requires forall u: nat | u < |g| :: Settled(g, dist, u)
    ensures ExactDistances(g, s, dist)
  {
    forall v: nat | v < |g| ensures Shortest(g, s, v, dist[v]) {
      forall p | IsWalk(g, s, v, p) ensures dist[v] <= Length(g, p) {
        SettledBound(g, s, dist, v, p);
      }
    }
  }

  // Only the source starts with a finite distance.
  ghost function InitialDistances(g: WGraph, s: nat): (dist: seq<int>)
    requires s < |g|
  {
    seq(|g|, _ => DIST_INF)[s := 0]
  }

  lemma InitialIsSound(g: WGraph, s: nat)
    requires s < |g|
    ensures Sound(g, s, InitialDistances(g, s))
  {
    assert IsWalk(g, s, s, []) && Length(g, []) == 0;
  }

  // Sum of an array of non-negative numbers.
  ghost function Sum(a: seq<int>): (r: int) {
    if a == [] then 0 else Sum(a[..|a| - 1]) + a[|a| - 1]
  }

  lemma {:induction false} SumUpdate(a: seq<int>, i: nat, x: int)
    requires i < |a|
    ensures Sum(a[i := x]) == Sum(a) - a[i] + x
  {
    var m := |a| - 1;
    if i == m {
      assert a[i := x][..m] == a[..m];
    } else {
      assert a[i := x][..m] == a[..m][i := x];
      SumUpdate(a[..m], i, x);
    }
  }

  lemma {:induction false} SumNonNegative(a: seq<int>)
    requires forall i | 0 <= i < |a| :: 0 <= a[i]
    ensures 0 <= Sum(a)
  {
    if a != [] { SumNonNegative(a[..|a| - 1]); }
  }
}
