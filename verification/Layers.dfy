// Unweighted distances from a source, and how a level-by-level search builds them.
module Layers {
  import opened Components

  // Where the row of vertex k starts in the flat list of out-neighbours.
  function EntriesTo(g: Graph, k: nat): nat
    requires k <= |g.outs|
  {
    if k == 0 then 0 else EntriesTo(g, k - 1) + |g.outs[k - 1]|
  }

  lemma {:induction false} EntriesGrow(g: Graph, j: nat, k: nat)
    requires j <= k <= |g.outs|
    ensures EntriesTo(g, j) <= EntriesTo(g, k)
    decreases k
  {
    if j < k { EntriesGrow(g, j, k - 1); }
  }

  // The position of the k-th neighbour of u in the flat list.
  function Slot(g: Graph, u: nat, k: nat): nat
    requires u < g.N()
  {
    EntriesTo(g, u) + k
  }

  // No two neighbours share a slot.
  lemma SlotsDiffer(g: Graph, u: nat, k: nat, x: nat, j: nat)
    requires u < g.N() && x < g.N() && k < |g.outs[u]| && j < |g.outs[x]|
    ensures Slot(g, u, k) == Slot(g, x, j) <==> u == x && k == j
    ensures Slot(g, u, k) < EntriesTo(g, g.N())
  {
    EntriesGrow(g, u + 1, g.N());
    if u < x { EntriesGrow(g, u + 1, x); }
    if x < u { EntriesGrow(g, x + 1, u); }
  }

  // Some walk of exactly d edges leads from s to v.
  ghost predicate Reaches(g: Graph, s: nat, d: nat, v: nat)
    decreases d
  {
    if d == 0 then v == s
    else exists u: nat :: u < g.N() && v in g.outs[u] && Reaches(g, s, d - 1, u)
  }

  lemma ReachesStep(g: Graph, s: nat, d: nat, u: nat, v: nat)
    requires u < g.N() && v in g.outs[u] && Reaches(g, s, d, u)
    ensures Reaches(g, s, d + 1, v)
  {
  }

  // d edges is the fewest on any walk from s to v, or -1 when there is none.
  ghost predicate IsDepth(g: Graph, s: nat, v: nat, d: int) {
    if d >= 0 then Reaches(g, s, d, v) && forall e: nat | e < d :: !Reaches(g, s, e, v)
    else d == -1 && forall e: nat :: !Reaches(g, s, e, v)
  }

  ghost predicate Depths(g: Graph, s: nat, depth: seq<int>) {
    && |depth| == g.N()
    && forall v: nat {:trigger IsDepth(g, s, v, depth[v])} | v < g.N() :: IsDepth(g, s, v, depth[v])
  }

  lemma DepthsUnique(g: Graph, s: nat, a: seq<int>, b: seq<int>)
    requires Depths(g, s, a) && Depths(g, s, b)
    ensures a == b
  {
    forall v: nat | v < g.N() ensures a[v] == b[v] { assert IsDepth(g, s, v, a[v]) && IsDepth(g, s, v, b[v]); }
  }

  // ------------------------------------------------------------- waves

  // u is a predecessor of v one level up.
  ghost predicate Above(g: Graph, depth: seq<int>, u: nat, v: nat) {
    u < |depth| <= g.N() && v < |depth| && v in g.outs[u] && depth[u] >= 0 && depth[u] == depth[v] - 1
  }

  ghost predicate Explained(g: Graph, s: nat, depth: seq<int>, v: nat)
    requires v < |depth|
  {
    && (depth[v] == 0 <==> v == s)
    && (depth[v] > 0 ==> exists u: nat :: Above(g, depth, u, v))
  }

  // The edges out of u lead to visited vertices at most one level down.
  ghost predicate ClosedAt(g: Graph, depth: seq<int>, u: nat)
    requires g.Valid() && u < |depth| == g.N()
  {
    forall v: nat | v in g.outs[u] :: v < |depth| && 0 <= depth[v] <= depth[u] + 1
  }

  // Every vertex at most `level` edges away is known; the others have depth -1.
  ghost predicate Wave(g: Graph, s: nat, depth: seq<int>, level: nat) {
    && g.Valid() && |depth| == g.N() && s < g.N()
    && (forall v: nat | v < g.N() :: -1 <= depth[v] <= level)
    && (forall v: nat {:trigger Explained(g, s, depth, v)} | v < g.N() :: Explained(g, s, depth, v))
    && (forall u: nat {:trigger ClosedAt(g, depth, u)} | u < g.N() && 0 <= depth[u] < level :: ClosedAt(g, depth, u))
  }

  lemma EdgeInRange(g: Graph, u: nat, v: nat)
    requires g.Valid() && u < g.N() && v in g.outs[u]
    ensures v < g.N() && u in g.ins[v]
  {
    var j :| 0 <= j < |g.outs[u]| && g.outs[u][j] == v;
  }

  ghost function FirstWave(g: Graph, s: nat): (depth: seq<int>)
    requires s < g.N()
  {
    seq(g.N(), v requires 0 <= v < g.N() => if v == s then 0 else -1)
  }

  lemma FirstWaveIsWave(g: Graph, s: nat)
    requires g.Valid() && s < g.N()
    ensures Wave(g, s, FirstWave(g, s), 0)
  {
  }

  // v is next to the last level and not known yet.
  ghost predicate Discovered(g: Graph, depth: seq<int>, level: nat, v: nat)
    requires g.Valid() && |depth| == g.N()
  {
    v < g.N() && depth[v] == -1 && exists u: nat :: u < g.N() && depth[u] == level && v in g.outs[u]
  }

  ghost function Next(g: Graph, depth: seq<int>, level: nat): (next: seq<int>)
    requires g.Valid() && |depth| == g.N()
    ensures |next| == |depth|
  {
    seq(g.N(), v requires 0 <= v < g.N() => if Discovered(g, depth, level, v) then level + 1 else depth[v])
  }

  lemma NextIsWave(g: Graph, s: nat, depth: seq<int>, level: nat)
    requires Wave(g, s, depth, level)
    ensures Wave(g, s, Next(g, depth, level), level + 1)
  {
    var next := Next(g, depth, level);
    forall v: nat | v < g.N() ensures -1 <= next[v] <= level + 1 && Explained(g, s, next, v) {
      NextExplained(g, s, depth, level, v);
    }
    forall u: nat | u < g.N() && 0 <= next[u] < level + 1 ensures ClosedAt(g, next, u) {
      forall v: nat | v in g.outs[u] ensures v < g.N() && 0 <= next[v] <= next[u] + 1 {
        EdgeInRange(g, u, v);
        assert next[u] == depth[u];
        if depth[u] < level { assert ClosedAt(g, depth, u); }
      }
    }
  }

  lemma NextExplained(g: Graph, s: nat, depth: seq<int>, level: nat, v: nat)
    requires Wave(g, s, depth, level) && v < g.N()
    ensures -1 <= Next(g, depth, level)[v] <= level + 1 && Explained(g, s, Next(g, depth, level), v)
  {
    var next := Next(g, depth, level);
    assert Explained(g, s, depth, v);
    if Discovered(g, depth, level, v) {
      var u: nat :| u < g.N() && depth[u] == level && v in g.outs[u];
      assert Above(g, next, u, v);
    } else if depth[v] > 0 {
      var u: nat :| Above(g, depth, u, v);
      assert Above(g, next, u, v);
    }
  }

  lemma {:induction false} ExplainedReaches(g: Graph, s: nat, depth: seq<int>, d: nat, v: nat)
    requires |depth| == g.N() && forall x: nat | x < |depth| :: Explained(g, s, depth, x)
    requires v < |depth| && depth[v] == d
    ensures Reaches(g, s, d, v)
    decreases d
  {
    assert Explained(g, s, depth, v);
    if d > 0 {
      var u: nat :| Above(g, depth, u, v);
      ExplainedReaches(g, s, depth, d - 1, u);
      ReachesStep(g, s, d - 1, u, v);
    }
  }

  // Where every edge is closed, walks are never shorter than depths.
  lemma {:induction false} ClosedBound(g: Graph, s: nat, depth: seq<int>, level: nat, d: nat, v: nat)
    requires Wave(g, s, depth, level) && forall u: nat | u < g.N() && depth[u] >= 0 :: ClosedAt(g, depth, u)
    requires Reaches(g, s, d, v)
    ensures v < g.N() && 0 <= depth[v] <= d
    decreases d
  {
    if d == 0 {
      assert Explained(g, s, depth, v);
    } else {
      var u: nat :| u < g.N() && v in g.outs[u] && Reaches(g, s, d - 1, u);
      ClosedBound(g, s, depth, level, d - 1, u);
      assert ClosedAt(g, depth, u);
    }
  }

  // Where the edges above a level are closed, whatever a walk reaches up to that
  // level is known.
  lemma {:induction false} ClosedAboveBound(g: Graph, s: nat, depth: seq<int>, level: nat, d: nat, v: nat)
    requires g.Valid() && |depth| == g.N() && s < g.N() && depth[s] == 0
    requires forall u: nat {:trigger ClosedAt(g, depth, u)} | u < g.N() && 0 <= depth[u] < level ::
      ClosedAt(g, depth, u)
    requires d <= level && Reaches(g, s, d, v)
    ensures v < g.N() && 0 <= depth[v] <= d
    decreases d
  {
    if d > 0 {
      var u: nat :| u < g.N() && v in g.outs[u] && Reaches(g, s, d - 1, u);
      ClosedAboveBound(g, s, depth, level, d - 1, u);
      assert ClosedAt(g, depth, u);
    }
  }

  lemma WaveBound(g: Graph, s: nat, depth: seq<int>, level: nat, d: nat, v: nat)
    requires Wave(g, s, depth, level) && d <= level && Reaches(g, s, d, v)
    ensures v < g.N() && 0 <= depth[v] <= d
  {
    assert Explained(g, s, depth, s);
    ClosedAboveBound(g, s, depth, level, d, v);
  }

  // Where every edge is closed, the depths are the distances.
  lemma ClosedIsExact(g: Graph, s: nat, depth: seq<int>, level: nat)
    requires Wave(g, s, depth, level) && forall u: nat | u < g.N() && depth[u] >= 0 :: ClosedAt(g, depth, u)
    ensures Depths(g, s, depth)
  {
    forall v: nat | v < g.N() ensures IsDepth(g, s, v, depth[v]) {
      if depth[v] >= 0 { ExplainedReaches(g, s, depth, depth[v], v); }
      forall e: nat | Reaches(g, s, e, v) ensures 0 <= depth[v] <= e { ClosedBound(g, s, depth, level, e, v); }
    }
  }

  // When the last level is empty, the depths are the distances.
  lemma EmptyLevelIsExact(g: Graph, s: nat, depth: seq<int>, level: nat)
    requires Wave(g, s, depth, level) && forall v: nat | v < g.N() :: depth[v] != level
    ensures Depths(g, s, depth)
  {
    forall u: nat | u < g.N() && depth[u] >= 0 ensures ClosedAt(g, depth, u) { assert depth[u] <= level; }
    ClosedIsExact(g, s, depth, level);
  }

  // True distances explain every vertex and close every edge.
  lemma DepthsAreClosed(g: Graph, s: nat, depth: seq<int>)
    requires g.Valid() && Depths(g, s, depth) && s < g.N()
    ensures forall v: nat | v < g.N() :: -1 <= depth[v]
    ensures forall v: nat {:trigger Explained(g, s, depth, v)} | v < g.N() :: Explained(g, s, depth, v)
    ensures forall u: nat {:trigger ClosedAt(g, depth, u)} | u < g.N() && depth[u] >= 0 :: ClosedAt(g, depth, u)
  {
    forall v: nat | v < g.N() ensures -1 <= depth[v] && Explained(g, s, depth, v) {
      assert IsDepth(g, s, v, depth[v]);
      assert v == s ==> Reaches(g, s, 0, v);
      if depth[v] > 0 { HasAbove(g, s, depth, v); }
    }
    forall u: nat | u < g.N() && depth[u] >= 0 ensures ClosedAt(g, depth, u) {
      forall v: nat | v in g.outs[u] ensures v < g.N() && 0 <= depth[v] <= depth[u] + 1 {
        EdgeInRange(g, u, v);
        assert IsDepth(g, s, u, depth[u]) && IsDepth(g, s, v, depth[v]);
        assert Reaches(g, s, depth[u] + 1, v);
      }
    }
  }

  lemma HasAbove(g: Graph, s: nat, depth: seq<int>, v: nat)
    requires g.Valid() && Depths(g, s, depth) && v < g.N() && depth[v] > 0
    ensures exists u: nat :: Above(g, depth, u, v)
  {
    var d := depth[v];
    assert IsDepth(g, s, v, d);
    var u: nat :| u < g.N() && v in g.outs[u] && Reaches(g, s, d - 1, u);
    assert IsDepth(g, s, u, depth[u]);
    if depth[u] < d - 1 {
      assert Reaches(g, s, depth[u] + 1, v);
    }
    assert Above(g, depth, u, v);
  }
}
