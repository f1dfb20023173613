// Counting shortest paths, and the share of them that runs through a vertex.
module PathCounts {
  import opened Components
  import opened Layers

  // Walks of exactly d edges from u to t, by their first edge.
  ghost function Walks(g: Graph, d: nat, u: nat, t: nat): nat
    decreases d, 1, 0
  {
    if u >= g.N() then 0
    else if d == 0 then if u == t then 1 else 0
    else WalksVia(g, d, u, |g.outs[u]|, t)
  }

  // Those that leave u by one of its first k edges.
  ghost function WalksVia(g: Graph, d: nat, u: nat, k: nat, t: nat): nat
    requires 0 < d && u < g.N() && k <= |g.outs[u]|
    decreases d, 0, k
  {
    if k == 0 then 0 else WalksVia(g, d, u, k - 1, t) + Walks(g, d - 1, g.outs[u][k - 1], t)
  }

  // How often v is among the first k entries.
  function Mult(row: seq<nat>, k: nat, v: nat): nat
    requires k <= |row|
  {
    if k == 0 then 0 else Mult(row, k - 1, v) + if row[k - 1] == v then 1 else 0
  }

  lemma {:induction false} MultPositive(row: seq<nat>, k: nat, v: nat)
    requires k <= |row|
    ensures Mult(row, k, v) > 0 <==> v in row[..k]
  {
    if k > 0 {
      MultPositive(row, k - 1, v);
      assert row[..k] == row[..k - 1] + [row[k - 1]];
    }
  }

  // ------------------------------------------------- counting by the last edge

  // Walks of d + 1 edges from s to v whose last edge leaves one of the first n vertices.
  ghost function LastEdge(g: Graph, d: nat, s: nat, v: nat, n: nat): nat
    requires n <= g.N()
  {
    if n == 0 then 0 else LastEdge(g, d, s, v, n - 1) + Mult(g.outs[n - 1], |g.outs[n - 1]|, v) * Walks(g, d, s, n - 1)
  }

  ghost function LastEdgeVia(g: Graph, d: nat, s: nat, k: nat, v: nat, n: nat): nat
    requires n <= g.N() && 0 < d && s < g.N() && k <= |g.outs[s]|
  {
    if n == 0 then 0
    else LastEdgeVia(g, d, s, k, v, n - 1) + Mult(g.outs[n - 1], |g.outs[n - 1]|, v) * WalksVia(g, d, s, k, n - 1)
  }

  lemma {:induction false} LastEdgeNone(g: Graph, d: nat, s: nat, v: nat, n: nat)
    requires n <= g.N() && 0 < d && s < g.N()
    ensures LastEdgeVia(g, d, s, 0, v, n) == 0
  {
    if n > 0 { LastEdgeNone(g, d, s, v, n - 1); }
  }

  lemma {:induction false} LastEdgeAll(g: Graph, d: nat, s: nat, v: nat, n: nat)
    requires n <= g.N() && 0 < d && s < g.N()
    ensures LastEdgeVia(g, d, s, |g.outs[s]|, v, n) == LastEdge(g, d, s, v, n)
  {
    if n > 0 { LastEdgeAll(g, d, s, v, n - 1); }
  }

  lemma {:induction false} LastEdgeSplits(g: Graph, d: nat, s: nat, k: nat, v: nat, n: nat)
    requires n <= g.N() && 0 < d && s < g.N() && 0 < k <= |g.outs[s]|
    ensures LastEdgeVia(g, d, s, k, v, n) == LastEdgeVia(g, d, s, k - 1, v, n)
      + LastEdge(g, d - 1, g.outs[s][k - 1], v, n)
  {
    if n > 0 {
      LastEdgeSplits(g, d, s, k, v, n - 1);
      var m, a, b := Mult(g.outs[n - 1], |g.outs[n - 1]|, v), WalksVia(g, d, s, k - 1, n - 1),
      Walks(g, d - 1, g.outs[s][k - 1], n - 1);
      assert m * (a + b) == m * a + m * b;
    }
  }

  lemma {:induction false} LastEdgeFromSource(g: Graph, s: nat, v: nat, n: nat)
    requires n <= g.N() && s < g.N()
    ensures LastEdge(g, 0, s, v, n) == if s < n then Mult(g.outs[s], |g.outs[s]|, v) else 0
  {
    if n > 0 { LastEdgeFromSource(g, s, v, n - 1); }
  }

  lemma {:induction false} OneEdge(g: Graph, s: nat, k: nat, v: nat)
    requires g.Valid() && s < g.N() && k <= |g.outs[s]|
    ensures WalksVia(g, 1, s, k, v) == Mult(g.outs[s], k, v)
  {
    if k > 0 { OneEdge(g, s, k - 1, v); }
  }

  // The first edge and the last edge count the same walks.
  lemma {:induction false} CountByLastEdge(g: Graph, d: nat, s: nat, v: nat)
    requires g.Valid() && s < g.N()
    ensures Walks(g, d + 1, s, v) == LastEdge(g, d, s, v, g.N())
    decreases d, 1, 0
  {
    if d == 0 {
      OneEdge(g, s, |g.outs[s]|, v);
      LastEdgeFromSource(g, s, v, g.N());
    } else {
      CountViaLastEdge(g, d, s, |g.outs[s]|, v);
      LastEdgeAll(g, d, s, v, g.N());
    }
  }

  lemma {:induction false} CountViaLastEdge(g: Graph, d: nat, s: nat, k: nat, v: nat)
    requires g.Valid() && s < g.N() && 0 < d && k <= |g.outs[s]|
    ensures WalksVia(g, d + 1, s, k, v) == LastEdgeVia(g, d, s, k, v, g.N())
    decreases d, 0, k
  {
    if k == 0 {
      LastEdgeNone(g, d, s, v, g.N());
    } else {
      CountViaLastEdge(g, d, s, k - 1, v);
      assert g.outs[s][k - 1] < g.N();
      CountByLastEdge(g, d - 1, g.outs[s][k - 1], v);
      LastEdgeSplits(g, d, s, k, v, g.N());
    }
  }

  // ------------------------------------------------------- walks and distances

  lemma {:induction false} LastEdgePositive(g: Graph, d: nat, s: nat, v: nat, n: nat)
    requires n <= g.N()
    ensures LastEdge(g, d, s, v, n) > 0 <==> exists u: nat :: u < n && v in g.outs[u] && Walks(g, d, s, u) > 0
  {
    if n > 0 {
      LastEdgePositive(g, d, s, v, n - 1);
      var row := g.outs[n - 1];
      MultPositive(row, |row|, v);
      assert row[..|row|] == row;
      ProductPositive(Mult(row, |row|, v), Walks(g, d, s, n - 1));
      if LastEdge(g, d, s, v, n) > 0 {
        if LastEdge(g, d, s, v, n - 1) > 0 {
          var u: nat :| u < n - 1 && v in g.outs[u] && Walks(g, d, s, u) > 0;
        } else {
          assert v in g.outs[n - 1] && Walks(g, d, s, n - 1) > 0;
        }
      }
    }
  }

  lemma ProductPositive(a: nat, b: nat)
    ensures a * b > 0 <==> a > 0 && b > 0
  {
  }

  // There is a walk to count exactly where one reaches.
  lemma {:induction false} WalksReach(g: Graph, s: nat, d: nat, v: nat)
    requires g.Valid() && s < g.N()
    ensures Walks(g, d, s, v) > 0 <==> Reaches(g, s, d, v)
    decreases d
  {
    if d > 0 {
      CountByLastEdge(g, d - 1, s, v);
      LastEdgePositive(g, d - 1, s, v, g.N());
      var e: nat := d - 1;
      forall u: nat | u < g.N() ensures Walks(g, e, s, u) > 0 <==> Reaches(g, s, e, u) { WalksReach(g, s, e, u); }
    }
  }

  // Shortest paths from s to v.
  ghost function ShortestPaths(g: Graph, s: nat, depth: seq<int>, v: nat): nat
    requires v < |depth| && depth[v] >= 0
  {
    Walks(g, depth[v], s, v)
  }

  lemma ShortestPathsPositive(g: Graph, s: nat, depth: seq<int>, v: nat)
    requires g.Valid() && s < g.N() && Depths(g, s, depth) && v < g.N() && depth[v] >= 0
    ensures ShortestPaths(g, s, depth, v) > 0
  {
    assert IsDepth(g, s, v, depth[v]);
    WalksReach(g, s, depth[v], v);
  }

  // A walk never climbs more than one level an edge.
  lemma {:induction false} WalksBound(g: Graph, depth: seq<int>, d: nat, u: nat, t: nat)
    requires g.Valid() && |depth| == g.N() && u < g.N() && depth[u] >= 0
    requires forall x: nat {:trigger ClosedAt(g, depth, x)} | x < g.N() && depth[x] >= 0 :: ClosedAt(g, depth, x)
    requires Walks(g, d, u, t) > 0
    ensures t < g.N() && 0 <= depth[t] <= depth[u] + d
    decreases d, 1, 0
  {
    if d > 0 { WalksViaBound(g, depth, d, u, |g.outs[u]|, t); }
  }

  lemma {:induction false} WalksViaBound(g: Graph, depth: seq<int>, d: nat, u: nat, k: nat, t: nat)
    requires g.Valid() && |depth| == g.N() && u < g.N() && depth[u] >= 0 && 0 < d && k <= |g.outs[u]|
    requires forall x: nat {:trigger ClosedAt(g, depth, x)} | x < g.N() && depth[x] >= 0 :: ClosedAt(g, depth, x)
    requires WalksVia(g, d, u, k, t) > 0
    ensures t < g.N() && 0 <= depth[t] <= depth[u] + d
    decreases d, 0, k
  {
    if WalksVia(g, d, u, k - 1, t) > 0 {
      WalksViaBound(g, depth, d, u, k - 1, t);
    } else {
      var v := g.outs[u][k - 1];
      assert v in g.outs[u] && ClosedAt(g, depth, u);
      WalksBound(g, depth, d - 1, v, t);
    }
  }

  // --------------------------------------------------------------- dependencies

  // Of the shortest paths from s to t, the fraction that passes through u.
  ghost function Share(g: Graph, s: nat, depth: seq<int>, u: nat, t: nat): real
    requires g.Valid() && s < g.N() && Depths(g, s, depth) && u < g.N() && t < g.N() && depth[u] >= 0
  {
    if depth[t] > depth[u] then
      ShortestPathsPositive(g, s, depth, t);
      (ShortestPaths(g, s, depth, u) * Walks(g, depth[t] - depth[u], u, t)) as real
        / ShortestPaths(g, s, depth, t) as real
    else 0.0
  }

  // The dependency of s on u, over the targets below n.
  ghost function Dependency(g: Graph, s: nat, depth: seq<int>, u: nat, n: nat): real
    requires g.Valid() && s < g.N() && Depths(g, s, depth) && u < g.N() && n <= g.N() && depth[u] >= 0
  {
    if n == 0 then 0.0 else Dependency(g, s, depth, u, n - 1) + Share(g, s, depth, u, n - 1)
  }

  predicate IsSucc(g: Graph, depth: seq<int>, u: nat, k: nat)
    requires u < g.N() && k < |g.outs[u]|
  {
    u < |depth| && g.outs[u][k] < |depth| && depth[u] >= 0 && depth[g.outs[u][k]] == depth[u] + 1
  }

  // What back-propagation adds up over the first k edges of u.
  ghost function Propagated(g: Graph, s: nat, depth: seq<int>, u: nat, k: nat): real
    requires g.Valid() && s < g.N() && Depths(g, s, depth) && u < g.N() && k <= |g.outs[u]| && depth[u] >= 0
  {
    if k == 0 then 0.0
    else Propagated(g, s, depth, u, k - 1) + if IsSucc(g, depth, u, k - 1) then Term(g, s, depth, u, g.outs[u][k - 1])
      else 0.0
  }

  // path_counts[u] / path_counts[v] * (1 + deltas[v]).
  ghost function Term(g: Graph, s: nat, depth: seq<int>, u: nat, v: nat): real
    requires g.Valid() && s < g.N() && Depths(g, s, depth) && u < g.N() && v < g.N() && depth[u] >= 0 && depth[v] >= 0
  {
    Ratio(g, s, depth, u, v) * (1.0 + Dependency(g, s, depth, v, g.N()))
  }

  // Shortest continuations to t that leave u by one of its first k edges.
  ghost function Onward(g: Graph, depth: seq<int>, u: nat, k: nat, t: nat): nat
    requires u < |depth| == g.N() && t < |depth| && k <= |g.outs[u]| && depth[t] > depth[u]
  {
    if k == 0 then 0
    else Onward(g, depth, u, k - 1, t)
         + if IsSucc(g, depth, u, k - 1) then Walks(g, depth[t] - depth[u] - 1, g.outs[u][k - 1], t) else 0
  }

  lemma OnlyDown(g: Graph, s: nat, depth: seq<int>, u: nat, k: nat, t: nat)
    requires g.Valid() && s < g.N() && Depths(g, s, depth) && u < g.N() && t < g.N() && k < |g.outs[u]|
    requires 0 <= depth[u] < depth[t] && Walks(g, depth[t] - depth[u] - 1, g.outs[u][k], t) > 0
    ensures IsSucc(g, depth, u, k)
  {
    DepthsAreClosed(g, s, depth);
    var v := g.outs[u][k];
    assert v in g.outs[u] && ClosedAt(g, depth, u);
    WalksBound(g, depth, depth[t] - depth[u] - 1, v, t);
  }

  // Only edges one level down lie on shortest paths.
  lemma {:induction false} OnwardIsAll(g: Graph, s: nat, depth: seq<int>, u: nat, k: nat, t: nat)
    requires g.Valid() && s < g.N() && Depths(g, s, depth) && u < g.N() && t < g.N() && k <= |g.outs[u]|
    requires 0 <= depth[u] < depth[t]
    ensures WalksVia(g, depth[t] - depth[u], u, k, t) == Onward(g, depth, u, k, t)
  {
    if k > 0 {
      OnwardIsAll(g, s, depth, u, k - 1, t);
      if Walks(g, depth[t] - depth[u] - 1, g.outs[u][k - 1], t) > 0 { OnlyDown(g, s, depth, u, k - 1, t); }
    }
  }

  // The part of the dependency that leaves u by one of its first k edges.
  ghost function DependencyVia(g: Graph, s: nat, depth: seq<int>, u: nat, k: nat, n: nat): real
    requires g.Valid() && s < g.N() && Depths(g, s, depth) && u < g.N() && n <= g.N() && k <= |g.outs[u]|
      && depth[u] >= 0
  {
    if n == 0 then 0.0
    else
      DependencyVia(g, s, depth, u, k, n - 1)
      + if depth[n - 1] > depth[u] then
          ShortestPathsPositive(g, s, depth, n - 1);
          (ShortestPaths(g, s, depth, u) * Onward(g, depth, u, k, n - 1)) as real
            / ShortestPaths(g, s, depth, n - 1) as real
        else 0.0
  }

  lemma {:induction false} DependencyViaAll(g: Graph, s: nat, depth: seq<int>, u: nat, n: nat)
    requires g.Valid() && s < g.N() && Depths(g, s, depth) && u < g.N() && n <= g.N() && depth[u] >= 0
    ensures DependencyVia(g, s, depth, u, |g.outs[u]|, n) == Dependency(g, s, depth, u, n)
  {
    if n > 0 {
      DependencyViaAll(g, s, depth, u, n - 1);
      if depth[n - 1] > depth[u] { OnwardIsAll(g, s, depth, u, |g.outs[u]|, n - 1); }
    }
  }

  lemma {:induction false} DependencyViaNone(g: Graph, s: nat, depth: seq<int>, u: nat, n: nat)
    requires g.Valid() && s < g.N() && Depths(g, s, depth) && u < g.N() && n <= g.N() && depth[u] >= 0
    ensures DependencyVia(g, s, depth, u, 0, n) == 0.0
  {
    if n > 0 {
      DependencyViaNone(g, s, depth, u, n - 1);
      if depth[n - 1] > depth[u] {
        ShortestPathsPositive(g, s, depth, n - 1);
        ZeroFraction(ShortestPaths(g, s, depth, u), ShortestPaths(g, s, depth, n - 1));
      }
    }
  }

  lemma ZeroFraction(a: nat, d: nat)
    requires d > 0
    ensures (a * 0) as real / d as real == 0.0
  {
    assert a * 0 == 0;
  }

  // The targets below n, reached through the successor v of u.
  ghost function Through(g: Graph, s: nat, depth: seq<int>, u: nat, v: nat, n: nat): real
    requires g.Valid() && s < g.N() && Depths(g, s, depth) && u < g.N() && v < g.N() && n <= g.N() && depth[u] >= 0
      && depth[v] == depth[u] + 1
  {
    if n == 0 then 0.0
    else
      Through(g, s, depth, u, v, n - 1)
      + if depth[n - 1] > depth[u] then
          ShortestPathsPositive(g, s, depth, n - 1);
          (ShortestPaths(g, s, depth, u) * Walks(g, depth[n - 1] - depth[v], v, n - 1)) as real
            / ShortestPaths(g, s, depth, n - 1) as real
        else 0.0
  }

  lemma SplitFraction(a: nat, b: nat, c: nat, d: nat)
    requires d > 0
    ensures (a * (b + c)) as real / d as real == (a * b) as real / d as real + (a * c) as real / d as real
  {
    assert a * (b + c) == a * b + a * c;
    assert (a * (b + c)) as real == (a * b) as real + (a * c) as real;
  }

  lemma {:induction false} DependencyViaStep(g: Graph, s: nat, depth: seq<int>, u: nat, k: nat, n: nat)
    requires g.Valid() && s < g.N() && Depths(g, s, depth) && u < g.N() && n <= g.N() && 0 < k <= |g.outs[u]|
      && depth[u] >= 0
    ensures DependencyVia(g, s, depth, u, k, n) == DependencyVia(g, s, depth, u, k - 1, n)
      + if IsSucc(g, depth, u, k - 1) then Through(g, s, depth, u, g.outs[u][k - 1], n) else 0.0
  {
    if n > 0 {
      DependencyViaStep(g, s, depth, u, k, n - 1);
      if depth[n - 1] > depth[u] && IsSucc(g, depth, u, k - 1) {
        ShortestPathsPositive(g, s, depth, n - 1);
        SplitFraction(ShortestPaths(g, s, depth, u), Onward(g, depth, u, k - 1, n - 1),
                      Walks(g, depth[n - 1] - depth[u] - 1, g.outs[u][k - 1], n - 1),
                      ShortestPaths(g, s, depth, n - 1));
      }
    }
  }

  lemma Cancel(a: real, b: real, w: real)
    requires b != 0.0
    ensures (a / b) * (b * w) == a * w
  {
    assert (a / b) * b == a;
  }

  lemma Regroup(q: real, x: real, d: real)
    requires d != 0.0
    ensures q * (x / d) == (q * x) / d
  {
  }

  lemma ScaleFraction(a: nat, b: nat, w: nat, d: nat)
    requires b > 0 && d > 0
    ensures (a * w) as real / d as real == (a as real / b as real) * ((b * w) as real / d as real)
  {
    var ra, rb, rw, rd := a as real, b as real, w as real, d as real;
    assert (a * w) as real == ra * rw && (b * w) as real == rb * rw;
    Cancel(ra, rb, rw);
    Regroup(ra / rb, rb * rw, rd);
  }

  ghost function Ratio(g: Graph, s: nat, depth: seq<int>, u: nat, v: nat): real
    requires g.Valid() && s < g.N() && Depths(g, s, depth) && u < g.N() && v < g.N() && depth[u] >= 0 && depth[v] >= 0
  {
    ShortestPathsPositive(g, s, depth, v);
    ShortestPaths(g, s, depth, u) as real / ShortestPaths(g, s, depth, v) as real
  }

  // One target t of Through, as a share of v.
  lemma ThroughOne(g: Graph, s: nat, depth: seq<int>, u: nat, v: nat, t: nat)
    requires g.Valid() && s < g.N() && Depths(g, s, depth) && u < g.N() && v < g.N() && t < g.N()
    requires depth[u] >= 0 && depth[v] == depth[u] + 1 && depth[t] > depth[u]
    requires ShortestPaths(g, s, depth, t) > 0
    ensures (ShortestPaths(g, s, depth, u) * Walks(g, depth[t] - depth[v], v, t)) as real
      / ShortestPaths(g, s, depth, t) as real
         == Ratio(g, s, depth, u, v) * (if t == v then 1.0 else Share(g, s, depth, v, t))
  {
    ShortestPathsPositive(g, s, depth, v);
    ScaleFraction(ShortestPaths(g, s, depth, u), ShortestPaths(g, s, depth, v), Walks(g, depth[t] - depth[v], v, t),
                  ShortestPaths(g, s, depth, t));
    if depth[t] == depth[v] && t != v { ZeroFraction(ShortestPaths(g, s, depth, v), ShortestPaths(g, s, depth, t)); }
  }

  // What the target t adds for v: 1 for v itself, otherwise its share.
  ghost function Part(g: Graph, s: nat, depth: seq<int>, v: nat, t: nat): real
    requires g.Valid() && s < g.N() && Depths(g, s, depth) && v < g.N() && t < g.N() && depth[v] >= 0
  {
    if t == v then 1.0 else Share(g, s, depth, v, t)
  }

  ghost function Parts(g: Graph, s: nat, depth: seq<int>, v: nat, n: nat): real
    requires g.Valid() && s < g.N() && Depths(g, s, depth) && v < g.N() && n <= g.N() && depth[v] >= 0
  {
    if n == 0 then 0.0 else Parts(g, s, depth, v, n - 1) + Part(g, s, depth, v, n - 1)
  }

  lemma {:induction false} PartsAreDependency(g: Graph, s: nat, depth: seq<int>, v: nat, n: nat)
    requires g.Valid() && s < g.N() && Depths(g, s, depth) && v < g.N() && n <= g.N() && depth[v] >= 0
    ensures Parts(g, s, depth, v, n) == (if v < n then 1.0 else 0.0) + Dependency(g, s, depth, v, n)
  {
    if n > 0 { PartsAreDependency(g, s, depth, v, n - 1); }
  }

  // From k to k + 1, a grows q times as much as b.
  ghost predicate Grows(a: seq<real>, b: seq<real>, q: real, k: nat) {
    k + 1 < |a| == |b| && a[k + 1] - a[k] == q * (b[k + 1] - b[k])
  }

  lemma {:induction false} ScaledSums(a: seq<real>, b: seq<real>, q: real, n: nat)
    requires n < |a| == |b| && a[0] == 0.0 && b[0] == 0.0
    requires forall k: nat {:trigger Grows(a, b, q, k)} | k < n :: Grows(a, b, q, k)
    ensures a[n] == q * b[n]
  {
    if n > 0 {
      ScaledSums(a, b, q, n - 1);
      assert Grows(a, b, q, n - 1);
      assert q * (b[n] - b[n - 1]) == q * b[n] - q * b[n - 1];
    }
  }

  // The target t adds q times as much to Through as to Parts.
  ghost predicate Scaled(g: Graph, s: nat, depth: seq<int>, u: nat, v: nat, t: nat, q: real)
    requires g.Valid() && s < g.N() && Depths(g, s, depth) && u < g.N() && v < g.N() && t < g.N() && depth[u] >= 0
      && depth[v] == depth[u] + 1
  {
    && Through(g, s, depth, u, v, t + 1) - Through(g, s, depth, u, v, t) == q * Part(g, s, depth, v, t)
    && Parts(g, s, depth, v, t + 1) - Parts(g, s, depth, v, t) == Part(g, s, depth, v, t)
  }

  lemma ThroughStep(g: Graph, s: nat, depth: seq<int>, u: nat, v: nat, t: nat)
    requires g.Valid() && s < g.N() && Depths(g, s, depth) && u < g.N() && v < g.N() && t < g.N() && depth[u] >= 0
      && depth[v] == depth[u] + 1
    ensures Scaled(g, s, depth, u, v, t, Ratio(g, s, depth, u, v))
  {
    if depth[t] > depth[u] {
      ShortestPathsPositive(g, s, depth, t);
      ThroughOne(g, s, depth, u, v, t);
    }
  }

  ghost function ThroughSums(g: Graph, s: nat, depth: seq<int>, u: nat, v: nat): (a: seq<real>)
    requires g.Valid() && s < g.N() && Depths(g, s, depth) && u < g.N() && v < g.N() && depth[u] >= 0
      && depth[v] == depth[u] + 1
    ensures |a| == g.N() + 1 && forall n | 0 <= n <= g.N() :: a[n] == Through(g, s, depth, u, v, n)
  {
    seq(g.N() + 1, n requires 0 <= n <= g.N() => Through(g, s, depth, u, v, n))
  }

  ghost function PartSums(g: Graph, s: nat, depth: seq<int>, v: nat): (b: seq<real>)
    requires g.Valid() && s < g.N() && Depths(g, s, depth) && v < g.N() && depth[v] >= 0
    ensures |b| == g.N() + 1 && forall n | 0 <= n <= g.N() :: b[n] == Parts(g, s, depth, v, n)
  {
    seq(g.N() + 1, n requires 0 <= n <= g.N() => Parts(g, s, depth, v, n))
  }

  lemma GrowsAt(g: Graph, s: nat, depth: seq<int>, u: nat, v: nat, t: nat, q: real)
    requires g.Valid() && s < g.N() && Depths(g, s, depth) && u < g.N() && v < g.N() && t < g.N() && depth[u] >= 0
      && depth[v] == depth[u] + 1
    requires Scaled(g, s, depth, u, v, t, q)
    ensures Grows(ThroughSums(g, s, depth, u, v), PartSums(g, s, depth, v), q, t)
  {
    hide Depths, Through, Parts, Part, ThroughSums, PartSums;
    var a, b := ThroughSums(g, s, depth, u, v), PartSums(g, s, depth, v);
    assert a[t] == Through(g, s, depth, u, v, t) && a[t + 1] == Through(g, s, depth, u, v, t + 1);
    assert b[t] == Parts(g, s, depth, v, t) && b[t + 1] == Parts(g, s, depth, v, t + 1);
  }

  lemma ThroughGrows(g: Graph, s: nat, depth: seq<int>, u: nat, v: nat)
    requires g.Valid() && s < g.N() && Depths(g, s, depth) && u < g.N() && v < g.N() && depth[u] >= 0
      && depth[v] == depth[u] + 1
    ensures var a, b, q := ThroughSums(g, s, depth, u, v), PartSums(g, s, depth, v), Ratio(g, s, depth, u, v);
      forall t: nat {:trigger Grows(a, b, q, t)} | t < g.N() :: Grows(a, b, q, t)
  {
    var a, b, q := ThroughSums(g, s, depth, u, v), PartSums(g, s, depth, v), Ratio(g, s, depth, u, v);
    forall t: nat | t < g.N() ensures Grows(a, b, q, t) {
      ThroughStep(g, s, depth, u, v, t);
      GrowsAt(g, s, depth, u, v, t, q);
    }
  }

  lemma SumsStartAtZero(g: Graph, s: nat, depth: seq<int>, u: nat, v: nat)
    requires g.Valid() && s < g.N() && Depths(g, s, depth) && u < g.N() && v < g.N() && depth[u] >= 0
      && depth[v] == depth[u] + 1
    ensures ThroughSums(g, s, depth, u, v)[0] == 0.0 && PartSums(g, s, depth, v)[0] == 0.0
  {
  }

  lemma ThroughIsScaled(g: Graph, s: nat, depth: seq<int>, u: nat, v: nat)
    requires g.Valid() && s < g.N() && Depths(g, s, depth) && u < g.N() && v < g.N() && depth[u] >= 0
      && depth[v] == depth[u] + 1
    ensures ThroughSums(g, s, depth, u, v)[g.N()] == Ratio(g, s, depth, u, v) * PartSums(g, s, depth, v)[g.N()]
  {
    ThroughGrows(g, s, depth, u, v);
    SumsStartAtZero(g, s, depth, u, v);
    ScaledSums(ThroughSums(g, s, depth, u, v), PartSums(g, s, depth, v), Ratio(g, s, depth, u, v), g.N());
  }

  lemma LastPartSum(g: Graph, s: nat, depth: seq<int>, v: nat)
    requires g.Valid() && s < g.N() && Depths(g, s, depth) && v < g.N() && depth[v] >= 0
    ensures PartSums(g, s, depth, v)[g.N()] == 1.0 + Dependency(g, s, depth, v, g.N())
  {
    PartsAreDependency(g, s, depth, v, g.N());
  }

  // Through v runs v's own dependency, and v itself as a target.
  lemma TermIsThrough(g: Graph, s: nat, depth: seq<int>, u: nat, v: nat)
    requires g.Valid() && s < g.N() && Depths(g, s, depth) && u < g.N() && v < g.N() && depth[u] >= 0
      && depth[v] == depth[u] + 1
    ensures Term(g, s, depth, u, v) == ThroughSums(g, s, depth, u, v)[g.N()]
  {
    ThroughIsScaled(g, s, depth, u, v);
    LastPartSum(g, s, depth, v);
  }

  // Back-propagation adds up the dependency.
  lemma {:induction false} PropagatedVia(g: Graph, s: nat, depth: seq<int>, u: nat, k: nat)
    requires g.Valid() && s < g.N() && Depths(g, s, depth) && u < g.N() && k <= |g.outs[u]| && depth[u] >= 0
    ensures Propagated(g, s, depth, u, k) == DependencyVia(g, s, depth, u, k, g.N())
  {
    if k == 0 {
      DependencyViaNone(g, s, depth, u, g.N());
    } else {
      PropagatedVia(g, s, depth, u, k - 1);
      DependencyViaStep(g, s, depth, u, k, g.N());
      if IsSucc(g, depth, u, k - 1) { TermIsThrough(g, s, depth, u, g.outs[u][k - 1]); }
    }
  }

  lemma PropagatedIsDependency(g: Graph, s: nat, depth: seq<int>, u: nat)
    requires g.Valid() && s < g.N() && Depths(g, s, depth) && u < g.N() && depth[u] >= 0
    ensures Propagated(g, s, depth, u, |g.outs[u]|) == Dependency(g, s, depth, u, g.N())
  {
    PropagatedVia(g, s, depth, u, |g.outs[u]|);
    DependencyViaAll(g, s, depth, u, g.N());
  }
}
