// The connected-components kernel and its verifier as one thread runs them.
module ConnectedComponents {
  import opened Components
  import opened AfforestThreads
  import opened Compression
  import opened Lists

  // Joins the trees of u and v; no tree is ever split.
  method Link(g: Graph, u: nat, v: nat, comp: array<nat>)
    requires TreesConnected(g, comp[..]) && Adjacent(g, u, v)
    modifies comp
    ensures TreesConnected(g, comp[..]) && Merged(old(comp[..]), comp[..]) && Same(comp[..], u, v)
  {
    hide Root, Connected, Merged;
    NothingMerged(comp[..]);
    ParentIsSame(comp[..], u);
    ParentIsSame(comp[..], v);
    var p1: nat := comp[u];
    var p2: nat := comp[v];
    while p1 != p2
      invariant comp[..] == old(comp[..])
      invariant InFlight(comp[..], u, v, p1, p2)
      decreases p1 + p2
    {
      var high := if p1 > p2 then p1 else p2;
      var low: nat := p1 + (p2 as int - high as int);
      var pHigh := comp[high];
      ParentIsSame(comp[..], high);
      if pHigh == low { break; }
      if pHigh == high {
        HookIsConnected(g, comp[..], u, v, p1, p2);
        HookMerges(comp[..], high, low);
        HookJoins(comp[..], u, v, p1, p2, high, low);
        comp[high] := low;
        assert comp[..] == old(comp[..])[high := low];
        break;
      }
      ParentIsSame(comp[..], comp[high]);
      ParentIsSame(comp[..], low);
      p1 := comp[comp[high]];
      p2 := comp[low];
    }
  }

  lemma NothingMerged(comp: seq<nat>)
    requires Forest(comp)
    ensures Merged(comp, comp)
  {
  }

  lemma HookJoins(comp: seq<nat>, u: nat, v: nat, p1: nat, p2: nat, high: nat, low: nat)
    requires InFlight(comp, u, v, p1, p2) && high == High(p1, p2) && low == Low(p1, p2) && low < high < |comp|
    requires Merged(comp, comp[high := low]) && Same(comp[high := low], high, low)
    ensures Same(comp[high := low], u, v)
  {
  }

  // Crawls up until every vertex points at the root of its tree.
  method Compress(g: Graph, comp: array<nat>)
    requires TreesConnected(g, comp[..])
    modifies comp
    ensures TreesConnected(g, comp[..]) && Flat(comp[..])
    ensures forall a: nat, b: nat | a < comp.Length && b < comp.Length ::
      Same(comp[..], a, b) <==> Same(old(comp[..]), a, b)
  {
    for n := 0 to comp.Length
      invariant TreesConnected(g, comp[..])
      invariant forall x: nat | x < comp.Length :: Root(comp[..], x) == Root(old(comp[..]), x)
      invariant forall x: nat | x < n :: comp[x] < comp.Length && comp[comp[x]] == comp[x]
    {
      CompressOne(g, n, comp);
    }
  }

  method CompressOne(g: Graph, n: nat, comp: array<nat>)
    requires TreesConnected(g, comp[..]) && n < comp.Length
    requires forall x: nat | x < n :: comp[x] < comp.Length && comp[comp[x]] == comp[x]
    modifies comp
    ensures TreesConnected(g, comp[..])
    ensures forall x: nat | x < comp.Length :: Root(comp[..], x) == Root(old(comp[..]), x)
    ensures forall x: nat | x <= n :: comp[x] < comp.Length && comp[comp[x]] == comp[x]
  {
    hide Connected, Root;
    while comp[n] != comp[comp[n]]
      invariant TreesConnected(g, comp[..])
      invariant forall x: nat | x < comp.Length :: Root(comp[..], x) == Root(old(comp[..]), x)
      invariant forall x: nat | x < n :: comp[x] < comp.Length && comp[comp[x]] == comp[x]
      decreases comp[n]
    {
      ghost var before := comp[..];
      RootProperties(before, n);
      RootProperties(before, before[n]);
      assert before[before[n]] < before[n];
      JumpKeepsTrees(g, before, n, before[before[n]]);
      comp[n] := comp[comp[n]];
      assert comp[..] == before[n := before[before[n]]];
    }
  }

  // Links the edges of u in order.
  method LinkAll(g: Graph, u: nat, edges: seq<nat>, comp: array<nat>)
    requires TreesConnected(g, comp[..]) && forall j | 0 <= j < |edges| :: Adjacent(g, u, edges[j])
    requires u < comp.Length
    modifies comp
    ensures TreesConnected(g, comp[..]) && Merged(old(comp[..]), comp[..]) && Linked(comp[..], u, edges, |edges|)
  {
    for j := 0 to |edges|
      invariant TreesConnected(g, comp[..]) && Merged(old(comp[..]), comp[..]) && Linked(comp[..], u, edges, j)
    {
      ghost var before := comp[..];
      Link(g, u, edges[j], comp);
      assert forall i: nat | i < j :: Same(before, u, edges[i]);
    }
  }

  // One sampling round: the r-th neighbour of every vertex.
  method SampleRound(g: Graph, r: nat, comp: array<nat>)
    requires g.Valid() && TreesConnected(g, comp[..]) && SampledUpTo(g, comp[..], r)
    modifies comp
    ensures TreesConnected(g, comp[..]) && SampledUpTo(g, comp[..], r + 1)
  {
    for u := 0 to g.N()
      invariant TreesConnected(g, comp[..]) && SampledUpTo(g, comp[..], r)
      invariant forall x: nat | x < u && r < |g.outs[x]| :: Same(comp[..], x, g.outs[x][r])
    {
      EdgesAreAdjacent(g, 0, Sample(r), u);
      LinkAll(g, u, EdgesOf(g, 0, Sample(r), u), comp);
      if r < |g.outs[u]| { assert EdgesOf(g, 0, Sample(r), u)[0] == g.outs[u][r]; }
    }
  }

  // The last linking loop, which skips the vertices labelled `skip`.
  method LinkRemaining(g: Graph, rounds: nat, skip: int, comp: array<nat>)
    requires g.Valid() && TreesConnected(g, comp[..]) && SampledUpTo(g, comp[..], rounds)
    modifies comp
    ensures TreesConnected(g, comp[..]) && EdgesJoined(g, comp[..])
  {
    for u := 0 to g.N()
      invariant TreesConnected(g, comp[..]) && SampledUpTo(g, comp[..], rounds)
      invariant forall x: nat | x < u :: LinkedOrSkipped(g, rounds, State(comp[..], LinkRest(skip), []), x)
    {
      if comp[u] == skip {
        ParentIsSame(comp[..], u);
        continue;
      }
      EdgesAreAdjacent(g, rounds, LinkRest(skip), u);
      ghost var before := comp[..];
      LinkAll(g, u, EdgesOf(g, rounds, LinkRest(skip), u), comp);
      forall x: nat | x < u ensures LinkedOrSkipped(g, rounds, State(comp[..], LinkRest(skip), []), x) {
        assert LinkedOrSkipped(g, rounds, State(before, LinkRest(skip), []), x);
      }
    }
    forall u: nat, j: nat | u < g.N() && j < |g.outs[u]| ensures Same(comp[..], u, g.outs[u][j]) {
      EdgeJoined(g, rounds, State(comp[..], LinkRest(skip), []), u, j);
    }
  }

  // The label of every vertex is the smallest vertex of its component.
  method Afforest(g: Graph, rounds: nat, skip: int) returns (comp: array<nat>)
    requires g.Valid()
    ensures fresh(comp) && MinLabels(g, comp[..])
  {
    comp := new nat[g.N()](n => n);
    forall x: nat | x < g.N() ensures Connected(g, x, comp[x]) { ConnectedReflexive(g, x); }
    for r := 0 to rounds
      invariant fresh(comp) && TreesConnected(g, comp[..]) && SampledUpTo(g, comp[..], r)
    {
      SampleRound(g, r, comp);
      ghost var before := comp[..];
      Compress(g, comp);
      forall u: nat, j: nat | u < g.N() && j < r + 1 && j < |g.outs[u]| ensures Same(comp[..], u, g.outs[u][j]) {
        assert Same(before, u, g.outs[u][j]);
      }
    }
    LinkRemaining(g, rounds, skip, comp);
    ghost var before := comp[..];
    Compress(g, comp);
    forall u: nat, j: nat | u < g.N() && j < |g.outs[u]| ensures Same(comp[..], u, g.outs[u][j]) {
      assert Same(before, u, g.outs[u][j]);
    }
    JoinedFlatIsMin(g, comp[..]);
  }

  // -------------------------------------------------------------- the verifier

  // The neighbours that the search looks at.
  function Looked(g: Graph, u: nat): seq<nat>
    requires u < |g.outs| == |g.ins|
  {
    g.outs[u] + if g.directed then g.ins[u] else []
  }

  lemma LookedIsAdjacent(g: Graph, u: nat, v: nat)
    requires g.Valid() && u < g.N()
    ensures v in Looked(g, u) <==> v < g.N() && Adjacent(g, u, v)
  {
    if v in Looked(g, u) {
      if v in g.outs[u] {
        var j :| 0 <= j < |g.outs[u]| && g.outs[u][j] == v;
      } else {
        var j :| 0 <= j < |g.ins[u]| && g.ins[u][j] == v;
      }
    }
  }

  // A finished search from `source`: what it found carries the label, is
  // connected to the source, and has no neighbour outside.
  ghost predicate Explored(g: Graph, comp: seq<nat>, visited: seq<bool>, label': nat, source: nat) {
    && g.Valid() && |comp| == |visited| == g.N()
    && source < g.N() && comp[source] == label' && visited[source]
    && forall v: nat | v < g.N() && visited[v] && comp[v] == label' ::
         Connected(g, source, v) && forall w: nat | Adjacent(g, v, w) :: visited[w] && comp[w] == label'
  }

  // Along a path nothing leaves what a finished search has visited.
  lemma {:induction false} ExploredIsClosed(g: Graph, comp: seq<nat>, visited: seq<bool>, label': nat, source: nat,
                                            p: seq<nat>)
    requires Explored(g, comp, visited, label', source) && IsPath(g, p)
    requires visited[p[0]] && comp[p[0]] == label'
    ensures visited[p[|p| - 1]] && comp[p[|p| - 1]] == label'
    decreases |p|
  {
    if |p| > 1 {
      assert Adjacent(g, p[0], p[0 + 1]);
      var q := p[1..];
      forall i | 0 <= i < |q| - 1 ensures Adjacent(g, q[i], q[i + 1]) { assert Adjacent(g, p[i + 1], p[i + 1 + 1]); }
      ExploredIsClosed(g, comp, visited, label', source, q);
    }
  }

  // A search for another label leaves a finished one as it was.
  lemma ExploredStays(g: Graph, comp: seq<nat>, before: seq<bool>, visited: seq<bool>, label': nat, source: nat)
    requires Explored(g, comp, before, label', source) && |visited| == |before|
    requires forall v: nat | v < g.N() && comp[v] == label' :: visited[v] == before[v]
    ensures Explored(g, comp, visited, label', source)
  {
  }

  lemma AllVisitedMatches(g: Graph, comp: seq<nat>, visited: seq<bool>, sources: map<nat, nat>)
    requires g.Valid() && |comp| == |visited| == g.N()
    requires forall v | 0 <= v < g.N() :: visited[v] && comp[v] in sources
    requires forall l | l in sources :: Explored(g, comp, visited, l, sources[l])
    ensures LabelsMatch(g, comp)
  {
    forall u: nat, v: nat | u < g.N() && v < g.N() ensures comp[u] == comp[v] <==> Connected(g, u, v) {
      var s := sources[comp[u]];
      assert Explored(g, comp, visited, comp[u], s);
      if comp[u] == comp[v] {
        ConnectedSymmetric(g, s, u);
        ConnectedTransitive(g, u, s, v);
      }
      if Connected(g, u, v) {
        var p :| IsPath(g, p) && p[0] == u && p[|p| - 1] == v;
        ExploredIsClosed(g, comp, visited, comp[u], s, p);
      }
    }
  }

  lemma UnvisitedMismatches(g: Graph, comp: seq<nat>, visited: seq<bool>, source: nat, n: nat)
    requires n < |comp| && n < |visited| && !visited[n] && Explored(g, comp, visited, comp[n], source)
    ensures !LabelsMatch(g, comp)
  {
    if Connected(g, source, n) {
      var p :| IsPath(g, p) && p[0] == source && p[|p| - 1] == n;
      ExploredIsClosed(g, comp, visited, comp[n], source, p);
    }
  }

  // A search under way: the frontier lists exactly the visited vertices of the
  // label, and the first i of them have only visited neighbours of the label.
  ghost predicate Searching(g: Graph, comp: seq<nat>, before: seq<bool>, visited: seq<bool>, label': nat, source: nat,
                            frontier: seq<nat>, i: nat)
  {
    && g.Valid() && |comp| == |visited| == |before| == g.N() && i <= |frontier|
    && source < g.N() && comp[source] == label' && visited[source]
    && (forall v: nat | v < g.N() :: visited[v] <==> before[v] || v in frontier)
    && (forall v | v in frontier :: v < g.N() && !before[v] && comp[v] == label' && Connected(g, source, v))
    && (forall v: nat | v < g.N() && before[v] :: comp[v] != label')
    && (forall j, k | 0 <= j < k < |frontier| :: frontier[j] != frontier[k])
    && (forall j: nat | j < i :: forall w: nat | Adjacent(g, frontier[j], w) :: visited[w] && comp[w] == label')
  }

  lemma SearchFacts(g: Graph, comp: seq<nat>, before: seq<bool>, visited: seq<bool>, label': nat, source: nat,
                    frontier: seq<nat>, i: nat)
    requires Searching(g, comp, before, visited, label', source, frontier, i) && i < |frontier|
    ensures g.Valid() && |comp| == |visited| == g.N() && source < g.N()
    ensures frontier[i] < g.N() && comp[frontier[i]] == label' && Connected(g, source, frontier[i])
  {
    assert frontier[i] in frontier;
  }

  lemma ExtendSearch(g: Graph, comp: seq<nat>, before: seq<bool>, visited: seq<bool>, label': nat, source: nat,
                     frontier: seq<nat>, i: nat, v: nat)
    requires Searching(g, comp, before, visited, label', source, frontier, i)
    requires v < g.N() && comp[v] == label' && !visited[v] && Connected(g, source, v)
    ensures Searching(g, comp, before, visited[v := true], label', source, frontier + [v], i)
  {
    assert v !in frontier;
    forall x: nat | x < g.N() ensures visited[v := true][x] <==> before[x] || x in frontier + [v] {
      assert x in frontier + [v] <==> x in frontier || x == v;
    }
  }

  lemma CloseSearch(g: Graph, comp: seq<nat>, before: seq<bool>, visited: seq<bool>, label': nat, source: nat,
                    frontier: seq<nat>, i: nat)
    requires Searching(g, comp, before, visited, label', source, frontier, i) && i < |frontier|
    requires SeenAll(g, comp, visited, label', frontier[i])
    ensures Searching(g, comp, before, visited, label', source, frontier, i + 1)
  {
  }

  // Every neighbour of u is visited and carries the label.
  ghost predicate SeenAll(g: Graph, comp: seq<nat>, visited: seq<bool>, label': nat, u: nat) {
    |comp| == |visited| == g.N() && forall w: nat | Adjacent(g, u, w) :: visited[w] && comp[w] == label'
  }

  ghost predicate LookedUpTo(g: Graph, comp: seq<nat>, visited: seq<bool>, label': nat, u: nat, j: nat) {
    && |comp| == |visited| == g.N() && u < |g.outs| == |g.ins|
    && forall x: nat | x < j && x < |Looked(g, u)| ::
      Looked(g, u)[x] < g.N() && visited[Looked(g, u)[x]] && comp[Looked(g, u)[x]] == label'
  }

  lemma LookedAll(g: Graph, comp: seq<nat>, visited: seq<bool>, label': nat, u: nat)
    requires g.Valid() && u < g.N() && LookedUpTo(g, comp, visited, label', u, |Looked(g, u)|)
    ensures SeenAll(g, comp, visited, label', u)
  {
    forall w: nat | Adjacent(g, u, w) ensures visited[w] && comp[w] == label' {
      LookedIsAdjacent(g, u, w);
      var x: nat :| x < |Looked(g, u)| && Looked(g, u)[x] == w;
    }
  }

  // Looks at the neighbours of frontier[i]; false when one has another label.
  method LookAround(g: Graph, comp: array<nat>, visited: array<bool>, label': nat, frontier: seq<nat>, i: nat,
                    ghost before: seq<bool>, ghost source: nat)
    returns (ok: bool, frontier': seq<nat>)
    requires visited.Length == g.N() && i < |frontier|
    requires Searching(g, comp[..], before, visited[..], label', source, frontier, i)
    modifies visited
    ensures ok ==> Searching(g, comp[..], before, visited[..], label', source, frontier', i + 1)
    ensures ok ==> |frontier| <= |frontier'|
    ensures !ok ==> !LabelsMatch(g, comp[..])
  {
    hide Searching, Connected, LabelsMatch, SeenAll;
    SearchFacts(g, comp[..], before, visited[..], label', source, frontier, i);
    frontier' := frontier;
    var u := frontier[i];
    for j := 0 to |Looked(g, u)|
      invariant i < |frontier'| && frontier'[i] == u && |frontier| <= |frontier'|
      invariant Searching(g, comp[..], before, visited[..], label', source, frontier', i)
      invariant LookedUpTo(g, comp[..], visited[..], label', u, j)
    {
      var v := Looked(g, u)[j];
      LookedIsAdjacent(g, u, v);
      ConnectedEdge(g, u, v);
      if comp[v] != label' {
        Mismatch(g, comp[..], u, v);
        return false, frontier';
      }
      if !visited[v] {
        ConnectedTransitive(g, source, u, v);
        ghost var seen := visited[..];
        ExtendSearch(g, comp[..], before, seen, label', source, frontier', i, v);
        visited[v] := true;
        assert visited[..] == seen[v := true];
        frontier' := frontier' + [v];
      }
    }
    LookedAll(g, comp[..], visited[..], label', u);
    CloseSearch(g, comp[..], before, visited[..], label', source, frontier', i);
    ok := true;
  }

  lemma Mismatch(g: Graph, comp: seq<nat>, u: nat, v: nat)
    requires u < |comp| && v < |comp| && Connected(g, u, v) && comp[u] != comp[v]
    ensures !LabelsMatch(g, comp)
  {
  }

  // A search from `source`; false when it meets another label.
  method Search(g: Graph, comp: array<nat>, visited: array<bool>, label': nat, source: nat) returns (ok: bool)
    requires g.Valid() && comp.Length == visited.Length == g.N() && source < g.N() && comp[source] == label'
    requires forall v: nat | v < g.N() && visited[v] :: comp[v] != label'
    modifies visited
    ensures ok ==> Explored(g, comp[..], visited[..], label', source)
    ensures ok ==> forall v: nat | v < g.N() && comp[v] != label' :: visited[v] == old(visited[v])
    ensures !ok ==> !LabelsMatch(g, comp[..])
  {
    ghost var before := visited[..];
    var frontier := [source];
    visited[source] := true;
    ConnectedReflexive(g, source);
    var i: nat := 0;
    while i < |frontier|
      invariant Searching(g, comp[..], before, visited[..], label', source, frontier, i)
      decreases g.N() - i
    {
      DistinctFits(g.N(), frontier);
      ok, frontier := LookAround(g, comp, visited, label', frontier, i, before, source);
      if !ok { return false; }
      i := i + 1;
    }
    forall v: nat | v < g.N() && visited[v] && comp[v] == label'
      ensures Connected(g, source, v) && forall w: nat | Adjacent(g, v, w) :: visited[w] && comp[w] == label'
    {
      var j :| 0 <= j < |frontier| && frontier[j] == v;
    }
    return true;
  }

  // The verdict is right in both directions, although all searches share one
  // set of visited vertices.
  method CCVerifier(g: Graph, comp: array<nat>) returns (ok: bool)
    requires g.Valid() && comp.Length == g.N()
    ensures ok <==> LabelsMatch(g, comp[..])
  {
    hide Explored, LabelsMatch;
    var labelToSource: map<nat, nat> := map[];
    for n := 0 to g.N()
      invariant forall l | l in labelToSource :: labelToSource[l] < g.N() && comp[labelToSource[l]] == l
      invariant forall v: nat | v < n :: comp[v] in labelToSource
    {
      labelToSource := labelToSource[comp[n] := n];
    }
    var visited := new bool[g.N()](_ => false);
    var todo := labelToSource.Keys;
    while todo != {}
      invariant todo <= labelToSource.Keys
      invariant forall v: nat | v < g.N() && visited[v] :: comp[v] !in todo
      invariant forall l | l in labelToSource && l !in todo :: Explored(g, comp[..], visited[..], l, labelToSource[l])
    {
      var currLabel :| currLabel in todo;
      ghost var before := visited[..];
      ok := Search(g, comp, visited, currLabel, labelToSource[currLabel]);
      if !ok { return false; }
      forall l | l in labelToSource && l !in todo ensures Explored(g, comp[..], visited[..], l, labelToSource[l]) {
        if l != currLabel { ExploredStays(g, comp[..], before, visited[..], l, labelToSource[l]); }
      }
      todo := todo - {currLabel};
    }
    for n := 0 to g.N()
      invariant forall v: nat | v < n :: visited[v]
    {
      if !visited[n] {
        UnvisitedMismatches(g, comp[..], visited[..], labelToSource[comp[n]], n);
        return false;
      }
    }
    AllVisitedMatches(g, comp[..], visited[..], labelToSource);
    return true;
  }
}
