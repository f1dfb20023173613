module PathSets {
  // The walks behind the counts: numbers of walks are sizes of sets of walks, and
  // the share of a vertex is the fraction of the shortest ones that visit it.

  import opened Components
  import opened Layers
  import opened PathCounts

  // A walk is the list of the places of its edges in their rows.  p leads from u to t.
  ghost predicate Follows(g: Graph, u: nat, p: seq<nat>, t: nat)
    decreases |p|
  {
    u < g.N() && if p == [] then u == t else p[0] < |g.outs[u]| && Follows(g, g.outs[u][p[0]], p[1..], t)
  }

  ghost function WalkSet(g: Graph, d: nat, u: nat, t: nat): set<seq<nat>>
    decreases d, 1, 0
  {
    if u >= g.N() then {}
    else if d == 0 then if u == t then {[]} else {}
    else WalkSetVia(g, d, u, |g.outs[u]|, t)
  }

  ghost function WalkSetVia(g: Graph, d: nat, u: nat, k: nat, t: nat): set<seq<nat>>
    requires 0 < d && u < g.N() && k <= |g.outs[u]|
    decreases d, 0, k
  {
    if k == 0 then {} else WalkSetVia(g, d, u, k - 1, t) + Prepended(k - 1, WalkSet(g, d - 1, g.outs[u][k - 1], t))
  }

  ghost function Prepended(k: nat, walks: set<seq<nat>>): (r: set<seq<nat>>)
    ensures forall p :: p in r <==> p != [] && p[0] == k && p[1..] in walks
  {
    var r := set q | q in walks :: [k] + q;
    assert forall p: seq<nat> | p != [] && p[0] == k && p[1..] in walks :: p == [k] + p[1..];
    r
  }

  // The sets hold exactly the walks of their length.
  lemma {:induction false} WalkSetIsAll(g: Graph, d: nat, u: nat, t: nat, p: seq<nat>)
    ensures p in WalkSet(g, d, u, t) <==> |p| == d && Follows(g, u, p, t)
    decreases d, 1, 0
  {
    if u < g.N() && d > 0 { WalkSetViaIsAll(g, d, u, |g.outs[u]|, t, p); }
  }

  lemma {:induction false} WalkSetViaIsAll(g: Graph, d: nat, u: nat, k: nat, t: nat, p: seq<nat>)
    requires 0 < d && u < g.N() && k <= |g.outs[u]|
    ensures p in WalkSetVia(g, d, u, k, t) <==> |p| == d && p[0] < k && Follows(g, u, p, t)
    decreases d, 0, k
  {
    if k > 0 {
      WalkSetViaIsAll(g, d, u, k - 1, t, p);
      if p != [] { WalkSetIsAll(g, d - 1, g.outs[u][k - 1], t, p[1..]); }
    }
  }

  lemma {:induction false} PrependedSize(k: nat, walks: set<seq<nat>>)
    ensures |Prepended(k, walks)| == |walks|
    decreases walks
  {
    if walks == {} {
      assert Prepended(k, walks) == {};
    } else {
      var p :| p in walks;
      PrependedSize(k, walks - {p});
      var one := [k] + p;
      assert one[1..] == p;
      forall q ensures q in Prepended(k, walks) <==> q in Prepended(k, walks - {p}) || q == one {
        if q != [] && q[0] == k && q[1..] == p { assert q == [k] + q[1..]; }
      }
      assert Prepended(k, walks) == Prepended(k, walks - {p}) + {one};
    }
  }

  // Counting walks is counting the elements of the set.
  lemma {:induction false} WalksAreCounted(g: Graph, d: nat, u: nat, t: nat)
    ensures |WalkSet(g, d, u, t)| == Walks(g, d, u, t)
    decreases d, 1, 0
  {
    if u < g.N() && d > 0 { WalksViaAreCounted(g, d, u, |g.outs[u]|, t); }
  }

  lemma ViaApart(g: Graph, d: nat, u: nat, k: nat, t: nat)
    requires 0 < d && u < g.N() && 0 < k <= |g.outs[u]|
    ensures WalkSetVia(g, d, u, k - 1, t) !! Prepended(k - 1, WalkSet(g, d - 1, g.outs[u][k - 1], t))
  {
    hide WalkSet, WalkSetVia, Prepended, Follows;
    var before, last := WalkSetVia(g, d, u, k - 1, t), Prepended(k - 1, WalkSet(g, d - 1, g.outs[u][k - 1], t));
    forall p | p in before ensures p !in last {
      WalkSetViaIsAll(g, d, u, k - 1, t, p);
    }
  }

  lemma {:induction false} WalksViaAreCounted(g: Graph, d: nat, u: nat, k: nat, t: nat)
    requires 0 < d && u < g.N() && k <= |g.outs[u]|
    ensures |WalkSetVia(g, d, u, k, t)| == WalksVia(g, d, u, k, t)
    decreases d, 0, k
  {
    hide WalkSet, Prepended, Walks;
    if k > 0 {
      WalksViaAreCounted(g, d, u, k - 1, t);
      WalksAreCounted(g, d - 1, g.outs[u][k - 1], t);
      PrependedSize(k - 1, WalkSet(g, d - 1, g.outs[u][k - 1], t));
      ViaApart(g, d, u, k, t);
    }
  }

  // --------------------------------------------------------- walks through a vertex

  // Where the walk p from u stands after i edges.
  ghost function Stop(g: Graph, u: nat, p: seq<nat>, i: nat): nat
    requires i <= |p|
    decreases i
  {
    if i == 0 then u
    else if u < g.N() && p[0] < |g.outs[u]| then Stop(g, g.outs[u][p[0]], p[1..], i - 1)
    else u
  }

  // A walk that stands on u after i edges is a walk to u and a walk from u.
  lemma {:induction false} SplitWalk(g: Graph, s: nat, p: seq<nat>, i: nat, u: nat, t: nat)
    requires i <= |p|
    ensures Follows(g, s, p, t) && Stop(g, s, p, i) == u <==> Follows(g, s, p[..i], u) && Follows(g, u, p[i..], t)
    decreases i
  {
    if i == 0 {
      assert p[..0] == [] && p[0..] == p;
    } else if s < g.N() && p[0] < |g.outs[s]| {
      SplitWalk(g, g.outs[s][p[0]], p[1..], i - 1, u, t);
      assert p[..i][1..] == p[1..][..i - 1] && p[1..][i - 1..] == p[i..];
    }
  }

  // The walks of d edges from s to t that stand on u after i edges.
  ghost function Passing(g: Graph, s: nat, d: nat, i: nat, u: nat, t: nat): set<seq<nat>>
    requires i <= d
  {
    set p | p in WalkSet(g, d, s, t) && |p| == d && Stop(g, s, p, i) == u
  }

  ghost function Joins(a: set<seq<nat>>, b: set<seq<nat>>): set<seq<nat>> {
    set p, q | p in a && q in b :: p + q
  }

  ghost function JoinsOf(p: seq<nat>, b: set<seq<nat>>): set<seq<nat>> {
    set q | q in b :: p + q
  }

  lemma {:induction false} JoinsOfSize(p: seq<nat>, b: set<seq<nat>>)
    ensures |JoinsOf(p, b)| == |b|
    decreases b
  {
    if b == {} {
      assert JoinsOf(p, b) == {};
    } else {
      var q :| q in b;
      JoinsOfSize(p, b - {q});
      forall r | r in JoinsOf(p, b - {q}) ensures r != p + q {
        var q' :| q' in b - {q} && r == p + q';
        assert r[|p|..] == q' && (p + q)[|p|..] == q;
      }
      assert JoinsOf(p, b) == JoinsOf(p, b - {q}) + {p + q};
    }
  }

  lemma JoinsNone(b: set<seq<nat>>)
    ensures Joins({}, b) == {}
  {
  }

  lemma OtherStart(p: seq<nat>, b: set<seq<nat>>, p': seq<nat>, q': seq<nat>)
    requires |p| == |p'| && p != p'
    ensures p' + q' !in JoinsOf(p, b)
  {
    forall q | q in b ensures p + q != p' + q' {
      assert (p + q)[..|p|] == p && (p' + q')[..|p|] == p';
    }
  }

  lemma JoinsSplit(a: set<seq<nat>>, b: set<seq<nat>>, p: seq<nat>)
    requires p in a && forall p' | p' in a :: |p'| == |p|
    ensures Joins(a, b) == Joins(a - {p}, b) + JoinsOf(p, b) && Joins(a - {p}, b) !! JoinsOf(p, b)
  {
    var rest := a - {p};
    forall r | r in Joins(rest, b) ensures r !in JoinsOf(p, b) {
      var p', q' :| p' in rest && q' in b && r == p' + q';
      OtherStart(p, b, p', q');
    }
  }

  lemma {:induction false} JoinsSize(a: set<seq<nat>>, b: set<seq<nat>>, i: nat)
    requires forall p | p in a :: |p| == i
    ensures |Joins(a, b)| == |a| * |b|
    decreases a
  {
    hide Joins, JoinsOf;
    if a == {} {
      JoinsNone(b);
    } else {
      var p :| p in a;
      var rest := a - {p};
      JoinsSize(rest, b, i);
      JoinsOfSize(p, b);
      JoinsSplit(a, b, p);
      assert |a| == |rest| + 1 && (|rest| + 1) * |b| == |rest| * |b| + |b|;
    }
  }

  lemma PassingIsJoins(g: Graph, s: nat, d: nat, i: nat, u: nat, t: nat)
    requires i <= d
    ensures Passing(g, s, d, i, u, t) == Joins(WalkSet(g, i, s, u), WalkSet(g, d - i, u, t))
  {
    hide WalkSet, Follows, Stop;
    var a, b := WalkSet(g, i, s, u), WalkSet(g, d - i, u, t);
    forall r | r in Passing(g, s, d, i, u, t) ensures r in Joins(a, b) {
      WalkSetIsAll(g, d, s, t, r);
      SplitWalk(g, s, r, i, u, t);
      WalkSetIsAll(g, i, s, u, r[..i]);
      WalkSetIsAll(g, d - i, u, t, r[i..]);
      assert r == r[..i] + r[i..];
    }
    forall r | r in Joins(a, b) ensures r in Passing(g, s, d, i, u, t) {
      var p, q :| p in a && q in b && r == p + q;
      WalkSetIsAll(g, i, s, u, p);
      WalkSetIsAll(g, d - i, u, t, q);
      assert r[..i] == p && r[i..] == q;
      SplitWalk(g, s, r, i, u, t);
      WalkSetIsAll(g, d, s, t, r);
    }
  }

  // So many walks pass through u after i edges.
  lemma PassingSize(g: Graph, s: nat, d: nat, i: nat, u: nat, t: nat)
    requires i <= d
    ensures |Passing(g, s, d, i, u, t)| == Walks(g, i, s, u) * Walks(g, d - i, u, t)
  {
    hide WalkSet, Passing, Joins, Walks, Follows;
    PassingIsJoins(g, s, d, i, u, t);
    forall p | p in WalkSet(g, i, s, u) ensures |p| == i { WalkSetIsAll(g, i, s, u, p); }
    JoinsSize(WalkSet(g, i, s, u), WalkSet(g, d - i, u, t), i);
    WalksAreCounted(g, i, s, u);
    WalksAreCounted(g, d - i, u, t);
  }

  // ------------------------------------------------------------ shortest walks

  // The shortest walks from s to t, and those of them that visit u.
  ghost function Shortest(g: Graph, s: nat, depth: seq<int>, t: nat): set<seq<nat>>
    requires t < |depth| && depth[t] >= 0
  {
    WalkSet(g, depth[t], s, t)
  }

  ghost predicate Visits(g: Graph, s: nat, p: seq<nat>, u: nat) {
    exists i: nat :: i <= |p| && Stop(g, s, p, i) == u
  }

  ghost function Visiting(g: Graph, s: nat, depth: seq<int>, u: nat, t: nat): set<seq<nat>>
    requires t < |depth| && depth[t] >= 0
  {
    set p | p in Shortest(g, s, depth, t) && Visits(g, s, p, u)
  }

  // A shortest walk is on a vertex at its depth and at no other time.
  lemma VisitTime(g: Graph, s: nat, depth: seq<int>, u: nat, t: nat, p: seq<nat>, i: nat)
    requires g.Valid() && s < g.N() && Depths(g, s, depth) && u < g.N() && t < g.N() && depth[t] >= 0
    requires p in Shortest(g, s, depth, t) && i <= |p| && Stop(g, s, p, i) == u
    ensures depth[u] == i
  {
    var d := depth[t];
    WalkSetIsAll(g, d, s, t, p);
    SplitWalk(g, s, p, i, u, t);
    WalkSetIsAll(g, i, s, u, p[..i]);
    WalkSetIsAll(g, d - i, u, t, p[i..]);
    WalksAreCounted(g, i, s, u);
    WalksAreCounted(g, d - i, u, t);
    assert Walks(g, i, s, u) > 0 && Walks(g, d - i, u, t) > 0;
    WalksReach(g, s, i, u);
    assert IsDepth(g, s, u, depth[u]);
    DepthsAreClosed(g, s, depth);
    WalksBound(g, depth, d - i, u, t);
  }

  lemma VisitingIsPassing(g: Graph, s: nat, depth: seq<int>, u: nat, t: nat)
    requires g.Valid() && s < g.N() && Depths(g, s, depth) && u < g.N() && t < g.N()
    requires 0 <= depth[u] <= depth[t]
    ensures Visiting(g, s, depth, u, t) == Passing(g, s, depth[t], depth[u], u, t)
  {
    hide WalkSet, Stop;
    forall p | p in Shortest(g, s, depth, t)
      ensures |p| == depth[t] && (Visits(g, s, p, u) <==> Stop(g, s, p, depth[u]) == u)
    {
      WalkSetIsAll(g, depth[t], s, t, p);
      if i: nat :| i <= |p| && Stop(g, s, p, i) == u { VisitTime(g, s, depth, u, t, p, i); }
    }
  }

  lemma {:induction false} EndOfWalk(g: Graph, s: nat, p: seq<nat>, t: nat)
    requires Follows(g, s, p, t)
    ensures Stop(g, s, p, |p|) == t
    decreases |p|
  {
    if p != [] { EndOfWalk(g, g.outs[s][p[0]], p[1..], t); }
  }

  lemma NobodyVisits(g: Graph, s: nat, depth: seq<int>, u: nat, t: nat)
    requires g.Valid() && s < g.N() && Depths(g, s, depth) && u < g.N() && t < g.N() && u != t
    requires depth[u] >= depth[t] >= 0
    ensures Visiting(g, s, depth, u, t) == {}
  {
    hide WalkSet;
    forall p | p in Shortest(g, s, depth, t) ensures !Visits(g, s, p, u) {
      WalkSetIsAll(g, depth[t], s, t, p);
      if i: nat :| i <= |p| && Stop(g, s, p, i) == u {
        EndOfWalk(g, s, p, t);
        VisitTime(g, s, depth, u, t, p, i);
        assert false;
      }
    }
  }

  // The share of u in the target t is the fraction of the shortest walks to t that
  // visit u; a walk counts once for every choice among parallel edges.
  lemma ShareIsFraction(g: Graph, s: nat, depth: seq<int>, u: nat, t: nat)
    requires g.Valid() && s < g.N() && Depths(g, s, depth) && u < g.N() && t < g.N() && u != t
    requires depth[u] >= 0 && depth[t] >= 0
    ensures |Shortest(g, s, depth, t)| > 0
    ensures Share(g, s, depth, u, t) == |Visiting(g, s, depth, u, t)| as real / |Shortest(g, s, depth, t)| as real
  {
    hide WalkSet, Visiting, Passing, IsDepth;
    ShortestPathsPositive(g, s, depth, t);
    WalksAreCounted(g, depth[t], s, t);
    if depth[t] > depth[u] {
      VisitingIsPassing(g, s, depth, u, t);
      PassingSize(g, s, depth[t], depth[u], u, t);
    } else {
      NobodyVisits(g, s, depth, u, t);
      assert 0 as real / |Shortest(g, s, depth, t)| as real == 0.0;
    }
  }

  // Unreached targets have no share.
  lemma UnreachedHasNoShare(g: Graph, s: nat, depth: seq<int>, u: nat, t: nat)
    requires g.Valid() && s < g.N() && Depths(g, s, depth) && u < g.N() && t < g.N() && depth[u] >= 0 && depth[t] < 0
    ensures Share(g, s, depth, u, t) == 0.0
  {
  }
}
