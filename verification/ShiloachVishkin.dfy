// Shiloach-Vishkin as one thread runs it, and its agreement with Afforest.
module ShiloachVishkin {
  import opened Components
  import opened ShiloachVishkinThreads
  import ConnectedComponents
  import AfforestThreads

  // What a pass has established so far: either nothing changed and the edges
  // seen have equal labels, or some root is gone.
  ghost predicate PassOk(g: Graph, before: seq<nat>, comp: seq<nat>, change: bool) {
    && g.Valid() && TreesConnected(g, comp) && |before| == |comp|
    && Roots(comp, |comp|) + (if change then 1 else 0) <= Roots(before, |before|)
    && (!change ==> comp == before && Flat(comp))
  }

  // A hook joins labels of one component and removes a root.
  lemma HookKeepsPass(g: Graph, before: seq<nat>, comp: seq<nat>, change: bool, u: nat, j: nat, high: nat, low: nat)
    requires PassOk(g, before, comp, change) && u < |comp| && j < |g.outs[u]| && g.outs[u][j] < |comp|
    requires low < high < |comp| && comp[high] == high
    requires {low, high} == {comp[u], comp[g.outs[u][j]]}
    ensures PassOk(g, before, comp[high := low], true)
  {
    LabelTied(g, comp, u);
    LabelTied(g, comp, g.outs[u][j]);
    EdgeTied(g, u, j, comp[u], comp[g.outs[u][j]]);
    RootsAfter(comp, comp[high := low], high, |comp|);
  }

  // The body of the loop over the edges of u.
  method HookEdge(g: Graph, u: nat, j: nat, comp: array<nat>, change: bool, ghost before: seq<nat>)
    returns (change': bool)
    requires PassOk(g, before, comp[..], change) && u < comp.Length && j < |g.outs[u]|
    modifies comp
    ensures PassOk(g, before, comp[..], change')
    ensures !change' ==> !change && g.outs[u][j] < comp.Length && comp[g.outs[u][j]] == comp[u]
  {
    change' := change;
    var v := g.outs[u][j];
    var compU: nat, compV: nat := comp[u], comp[v];
    if compU == compV { return; }
    var high := if compU > compV then compU else compV;
    var low: nat := compU + (compV as int - high as int);
    assert !change ==> comp[..][comp[u]] == comp[u] && comp[..][comp[v]] == comp[v];
    if high == comp[high] {
      HookKeepsPass(g, before, comp[..], change, u, j, high, low);
      ghost var was := comp[..];
      change' := true;
      comp[high] := low;
      assert comp[..] == was[high := low];
    }
  }

  // Hooks for the edges of u.
  method HookVertex(g: Graph, u: nat, comp: array<nat>, change: bool, ghost before: seq<nat>) returns (change': bool)
    requires PassOk(g, before, comp[..], change) && u < comp.Length
    modifies comp
    ensures PassOk(g, before, comp[..], change')
    ensures !change' ==> !change && forall j: nat | j < |g.outs[u]| ::
      g.outs[u][j] < comp.Length && comp[g.outs[u][j]] == comp[u]
  {
    change' := change;
    for j := 0 to |g.outs[u]|
      invariant PassOk(g, before, comp[..], change')
      invariant !change' ==> !change && forall i: nat | i < j ::
        g.outs[u][i] < comp.Length && comp[g.outs[u][i]] == comp[u]
    {
      change' := HookEdge(g, u, j, comp, change', before);
    }
  }

  // One hooking loop: without a change all edges have equal labels, with a
  // change there are fewer roots.
  method HookPass(g: Graph, comp: array<nat>) returns (change: bool)
    requires g.Valid() && TreesConnected(g, comp[..]) && Flat(comp[..])
    modifies comp
    ensures TreesConnected(g, comp[..])
    ensures !change ==> comp[..] == old(comp[..]) && EdgesEqual(g, comp[..])
    ensures change ==> Roots(comp[..], comp.Length) < Roots(old(comp[..]), comp.Length)
  {
    change := false;
    ghost var before := comp[..];
    for u := 0 to g.N()
      invariant PassOk(g, before, comp[..], change)
      invariant !change ==> forall x: nat, j: nat | x < u && j < |g.outs[x]| ::
        g.outs[x][j] < comp.Length && comp[g.outs[x][j]] == comp[x]
    {
      change := HookVertex(g, u, comp, change, before);
    }
  }

  lemma EqualEdgesAreMin(g: Graph, comp: seq<nat>)
    requires g.Valid() && TreesConnected(g, comp) && Flat(comp) && EdgesEqual(g, comp)
    ensures MinLabels(g, comp)
  {
    forall u: nat, j: nat | u < g.N() && j < |g.outs[u]| ensures Same(comp, u, g.outs[u][j]) {
      RootProperties(comp, u);
      RootProperties(comp, g.outs[u][j]);
    }
    JoinedFlatIsMin(g, comp);
  }

  // Compression keeps the number of roots.
  lemma {:induction false} SameRootCount(before: seq<nat>, comp: seq<nat>, n: nat)
    requires n <= |before| == |comp| && Forest(before) && Forest(comp)
    requires forall a: nat, b: nat | a < |comp| && b < |comp| :: Same(comp, a, b) <==> Same(before, a, b)
    ensures Roots(comp, n) == Roots(before, n)
  {
    if n > 0 {
      SameRootCount(before, comp, n - 1);
      var x: nat := n - 1;
      RootProperties(before, x);
      RootProperties(comp, x);
      RootOfRoot(before, x);
      RootOfRoot(comp, x);
      var r, r' := Root(before, x), Root(comp, x);
      assert Same(before, x, r) && Same(comp, x, r');
      assert Same(comp, x, r) && Same(before, x, r');
      RootProperties(comp, r);
      RootProperties(before, r');
    }
  }

  lemma RootOfRoot(comp: seq<nat>, x: nat)
    requires Forest(comp) && x < |comp|
    ensures Root(comp, x) < |comp| && Same(comp, x, Root(comp, x))
  {
    RootProperties(comp, x);
    RootProperties(comp, Root(comp, x));
  }

  // From each vertex on its own to the answer, every iteration but the last one
  // removes a root, and the last one changes nothing.
  ghost predicate Passes(n: nat, passes: seq<seq<nat>>, settled: bool) {
    var last := |passes| - 1;
    && last >= 0 && passes[0] == seq(n, x requires 0 <= x < n => x)
    && (forall i | 0 <= i <= last :: |passes[i]| == n)
    && (forall i | 0 < i <= last :: (settled && i == last) || Roots(passes[i], n) < Roots(passes[i - 1], n))
    && (settled ==> last > 0 && passes[last] == passes[last - 1])
  }

  lemma PassesBegin(n: nat, comp: seq<nat>)
    requires |comp| == n && forall x | 0 <= x < n :: comp[x] == x
    ensures Passes(n, [comp], false)
  {
  }

  lemma PassesGoOn(n: nat, passes: seq<seq<nat>>, comp: seq<nat>, change: bool)
    requires Passes(n, passes, false) && |comp| == n && passes != []
    requires var before := passes[|passes| - 1];
      |before| == n && if change then Roots(comp, n) < Roots(before, n) else comp == before
    ensures Passes(n, passes + [comp], !change)
  {
  }

  method ShiloachVishkin(g: Graph) returns (comp: array<nat>, numIter: nat, ghost passes: seq<seq<nat>>)
    requires g.Valid()
    ensures fresh(comp) && MinLabels(g, comp[..])
    ensures numIter <= if g.N() == 0 then 1 else g.N()
    ensures Passes(g.N(), passes, true) && passes[|passes| - 1] == comp[..] && numIter == |passes| - 1
  {
    hide EdgesEqual, Roots, MinLabels, Passes;
    comp := new nat[g.N()](n => n);
    forall x: nat | x < g.N() ensures Connected(g, x, comp[x]) { ConnectedReflexive(g, x); }
    var change := true;
    numIter := 0;
    passes := [comp[..]];
    PassesBegin(g.N(), comp[..]);
    RootsBound(comp[..], comp.Length);
    while change
      invariant fresh(comp) && comp.Length == g.N() && TreesConnected(g, comp[..]) && Flat(comp[..])
      invariant numIter + Roots(comp[..], comp.Length) <= comp.Length + if change then 0 else 1
      invariant !change ==> EdgesEqual(g, comp[..])
      invariant Passes(g.N(), passes, !change) && numIter + 1 == |passes| && passes[numIter] == comp[..]
      decreases change, Roots(comp[..], comp.Length)
    {
      numIter := numIter + 1;
      change := HookPass(g, comp);
      ghost var before := comp[..];
      ConnectedComponents.Compress(g, comp);
      SameRootCount(before, comp[..], comp.Length);
      if !change { FlatStays(before, comp[..]); }
      PassesGoOn(g.N(), passes, comp[..], change);
      passes := passes + [comp[..]];
    }
    RootsBound(comp[..], comp.Length);
    EqualEdgesAreMin(g, comp[..]);
  }

  // A flat forest is its own compression.
  lemma FlatStays(before: seq<nat>, comp: seq<nat>)
    requires |before| == |comp| && Forest(before) && Forest(comp) && Flat(before) && Flat(comp)
    requires forall a: nat, b: nat | a < |comp| && b < |comp| :: Same(comp, a, b) <==> Same(before, a, b)
    ensures comp == before
  {
    forall x: nat | x < |comp| ensures comp[x] == before[x] {
      RootProperties(before, x);
      RootProperties(comp, x);
      RootProperties(before, before[x]);
      RootProperties(comp, comp[x]);
      RootProperties(before, comp[x]);
      RootProperties(comp, before[x]);
      assert Same(before, x, before[x]) && Same(comp, x, comp[x]);
      assert Same(comp, x, before[x]) && Same(before, x, comp[x]);
    }
  }

  // Both kernels give the same array, whatever their schedules.
  lemma SameAnswer(g: Graph, rounds: nat, skip: int, a: seq<AfforestThreads.State>, am: seq<AfforestThreads.Move>,
                   s: seq<State>, sm: seq<Move>)
    requires g.Valid()
    requires AfforestThreads.IsRun(g, rounds, a, am) && a[0] == AfforestThreads.Initial(g, rounds, skip)
      && a[|am|].stage.Done?
    requires IsRun(g, s, sm) && s[0] == Initial(g) && s[|sm|].stage == Done
    ensures s[|sm|].comp == a[|am|].comp
  {
    AfforestThreads.AfforestIsCorrect(g, rounds, skip, a, am);
    ShiloachVishkinIsCorrect(g, s, sm);
    MinLabelsUnique(g, s[|sm|].comp, a[|am|].comp);
  }
}
