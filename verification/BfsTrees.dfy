module BfsTrees {
  // What the parent array of a breadth-first search means, and the top-down step
  // under any interleaving of its compare-and-swaps.

  import opened Components
  import opened Layers

  // An unvisited vertex carries its negated out-degree, or -1 when it has none.
  function InitialParent(g: Graph, v: nat): int
    requires v < g.N()
  {
    if |g.outs[v]| != 0 then -|g.outs[v]| else -1
  }

  // p is a right parent for the visited vertex v.
  ghost predicate ParentOk(g: Graph, s: nat, depth: seq<int>, v: nat, p: int)
    requires v < |depth|
  {
    p >= 0 && if v == s then p == s else Above(g, depth, p, v)
  }

  // Parents of the vertices known so far; the others keep their initial value.
  ghost predicate Tree(g: Graph, s: nat, depth: seq<int>, parent: seq<int>) {
    && |parent| == |depth| == g.N()
    && forall v: nat | v < g.N() ::
      if depth[v] >= 0 then ParentOk(g, s, depth, v, parent[v]) else parent[v] == InitialParent(g, v)
  }

  // The final answer: -1 on unreachable vertices, otherwise a predecessor that
  // is one edge nearer to the source.
  ghost predicate IsBfsTree(g: Graph, s: nat, depth: seq<int>, parent: seq<int>) {
    && Depths(g, s, depth) && |parent| == g.N()
    && forall v: nat | v < g.N() ::
      if depth[v] >= 0 then ParentOk(g, s, depth, v, parent[v]) else parent[v] == -1
  }

  ghost predicate BfsTree(g: Graph, s: nat, parent: seq<int>) {
    exists depth :: IsBfsTree(g, s, depth, parent)
  }

  // ------------------------------------------------------- while a level is visited

  // v was known before, or has its initial value, or got a parent on the last level.
  ghost predicate VisitOk(g: Graph, s: nat, depth: seq<int>, level: nat, v: nat, p: int)
    requires v < |depth| == g.N()
  {
    if depth[v] >= 0 then ParentOk(g, s, depth, v, p)
    else if p < 0 then p == InitialParent(g, v)
    else p < g.N() && depth[p] == level && v in g.outs[p]
  }

  ghost predicate Visiting(g: Graph, s: nat, depth: seq<int>, level: nat, parent: seq<int>) {
    && Wave(g, s, depth, level) && |parent| == g.N()
    && forall v: nat {:trigger VisitOk(g, s, depth, level, v, parent[v])} | v < g.N() ::
      VisitOk(g, s, depth, level, v, parent[v])
  }

  // Claiming an unvisited neighbour of the last level.
  lemma ClaimKeepsVisiting(g: Graph, s: nat, depth: seq<int>, level: nat, parent: seq<int>, u: nat, v: nat)
    requires Visiting(g, s, depth, level, parent)
    requires u < g.N() && v < g.N() && depth[u] == level && v in g.outs[u] && parent[v] < 0
    ensures depth[v] == -1 && Visiting(g, s, depth, level, parent[v := u])
  {
    assert VisitOk(g, s, depth, level, v, parent[v]);
    var parent' := parent[v := u];
    forall x: nat | x < g.N() ensures VisitOk(g, s, depth, level, x, parent'[x]) {
      assert VisitOk(g, s, depth, level, x, parent[x]);
    }
  }

  ghost predicate Covered(g: Graph, parent: seq<int>, u: nat, k: nat)
    requires u < g.N() && |parent| == g.N()
  {
    forall j: nat | j < k && j < |g.outs[u]| :: g.outs[u][j] < |parent| && parent[g.outs[u][j]] >= 0
  }

  // With every edge out of the last level covered, the next level is complete.
  lemma CoveredIsNext(g: Graph, s: nat, depth: seq<int>, level: nat, parent: seq<int>)
    requires Visiting(g, s, depth, level, parent)
    requires forall u: nat | u < g.N() && depth[u] == level :: Covered(g, parent, u, |g.outs[u]|)
    ensures Wave(g, s, Next(g, depth, level), level + 1) && Tree(g, s, Next(g, depth, level), parent)
    ensures forall v: nat | v < g.N() :: depth[v] == -1 && parent[v] >= 0 <==> Next(g, depth, level)[v] == level + 1
  {
    NextIsWave(g, s, depth, level);
    var next := Next(g, depth, level);
    forall v: nat | v < g.N()
      ensures if next[v] >= 0 then ParentOk(g, s, next, v, parent[v]) else parent[v] == InitialParent(g, v)
      ensures depth[v] == -1 && parent[v] >= 0 <==> next[v] == level + 1
    {
      CoveredVertex(g, s, depth, level, parent, v);
    }
  }

  lemma CoveredVertex(g: Graph, s: nat, depth: seq<int>, level: nat, parent: seq<int>, v: nat)
    requires Visiting(g, s, depth, level, parent) && v < g.N()
    requires forall u: nat | u < g.N() && depth[u] == level :: Covered(g, parent, u, |g.outs[u]|)
    ensures var next := Next(g, depth, level);
      && (if next[v] >= 0 then ParentOk(g, s, next, v, parent[v]) else parent[v] == InitialParent(g, v))
      && (depth[v] == -1 && parent[v] >= 0 <==> next[v] == level + 1)
  {
    var next := Next(g, depth, level);
    assert VisitOk(g, s, depth, level, v, parent[v]) && Explained(g, s, depth, v) && -1 <= depth[v] <= level;
    if Discovered(g, depth, level, v) {
      var u: nat :| u < g.N() && depth[u] == level && v in g.outs[u];
      assert Covered(g, parent, u, |g.outs[u]|);
      var j :| 0 <= j < |g.outs[u]| && g.outs[u][j] == v;
      assert parent[g.outs[u][j]] >= 0;
      assert Above(g, next, parent[v], v);
    } else if depth[v] >= 0 && v != s {
      assert Above(g, depth, parent[v], v);
      assert Above(g, next, parent[v], v);
    }
  }

  // The list holds exactly the vertices visited since `depth`, each once.
  ghost predicate ListsNew(depth: seq<int>, parent: seq<int>, pushed: seq<nat>)
    requires |depth| == |parent|
  {
    && (forall v: nat {:trigger v in pushed} :: v in pushed <==> v < |depth| && depth[v] == -1 && parent[v] >= 0)
    && (forall i, j | 0 <= i < j < |pushed| :: pushed[i] != pushed[j])
  }

  // The length of a row, or 1 for an empty one.
  ghost function RowWeight(g: Graph, v: nat): nat {
    if v >= g.N() then 0 else if g.outs[v] == [] then 1 else |g.outs[v]|
  }

  // Row lengths of the listed vertices, with 1 for an empty row.
  ghost function DegreeSum(g: Graph, pushed: seq<nat>): int {
    if pushed == [] then 0
    else
      var v := pushed[|pushed| - 1];
      DegreeSum(g, pushed[..|pushed| - 1]) + RowWeight(g, v)
  }

  lemma ClaimIsListed(g: Graph, depth: seq<int>, parent: seq<int>, pushed: seq<nat>, u: nat, v: nat)
    requires |depth| == |parent| == g.N() && ListsNew(depth, parent, pushed) && v < |depth| && depth[v] == -1
      && parent[v] < 0
    requires InitialParent(g, v) == parent[v]
    ensures ListsNew(depth, parent[v := u], pushed + [v])
      && DegreeSum(g, pushed + [v]) == DegreeSum(g, pushed) - parent[v]
  {
    assert (pushed + [v])[..|pushed|] == pushed;
    assert v !in pushed;
    forall x: nat ensures x in pushed + [v] <==> x < |depth| && depth[x] == -1 && parent[v := u][x] >= 0 {
      assert x in pushed + [v] <==> x in pushed || x == v;
    }
    forall i | 0 <= i < |pushed| ensures pushed[i] != v { assert pushed[i] in pushed; }
  }

  // ------------------------------------------------------ the step in parallel

  // Look: about to read the parent of neighbour k.  Have: about to swap it.
  datatype Pc = Look | Have(currVal: int)

  datatype Proc = Proc(k: nat, pc: Pc)

  // One process per vertex of the window; pushed is the order of the pushes.
  datatype State = State(parent: seq<int>, procs: seq<Proc>, pushed: seq<nat>, scout: int)

  predicate Enabled(g: Graph, window: seq<nat>, s: State, i: nat) {
    && i < |window| == |s.procs| && window[i] < g.N()
    && s.procs[i].k < |g.outs[window[i]]| && g.outs[window[i]][s.procs[i].k] < |s.parent|
  }

  function Apply(g: Graph, window: seq<nat>, s: State, i: nat): State
    requires Enabled(g, window, s, i)
  {
    var p := s.procs[i];
    var v := g.outs[window[i]][p.k];
    match p.pc
    case Look =>
      s.(procs := s.procs[i := if s.parent[v] < 0 then Proc(p.k, Have(s.parent[v])) else Proc(p.k + 1, Look)])
    case Have(currVal) =>
      if s.parent[v] == currVal then
        State(s.parent[v := window[i]], s.procs[i := Proc(p.k + 1, Look)], s.pushed + [v], s.scout - currVal)
      else
        s.(procs := s.procs[i := Proc(p.k + 1, Look)])
  }

  function Initial(window: seq<nat>, parent: seq<int>): State {
    State(parent, seq(|window|, _ => Proc(0, Look)), [], 0)
  }

  predicate Finished(g: Graph, window: seq<nat>, s: State) {
    forall i: nat | i < |window| && i < |s.procs| && window[i] < g.N() :: s.procs[i].k >= |g.outs[window[i]]|
  }

  // The window lists the last level.
  ghost predicate ListsLevel(g: Graph, depth: seq<int>, level: nat, window: seq<nat>) {
    && |depth| == g.N()
    && forall v: nat :: v in window <==> v < g.N() && depth[v] == level
  }

  ghost predicate ProcOk(g: Graph, parent: seq<int>, u: nat, p: Proc)
    requires |parent| == g.N() && u < g.N()
  {
    && Covered(g, parent, u, p.k)
    && (p.pc.Have? ==> p.k < |g.outs[u]| && g.outs[u][p.k] < g.N() && p.pc.currVal == InitialParent(g, g.outs[u][p.k]))
  }

  ghost predicate ProcsOk(g: Graph, depth: seq<int>, level: nat, window: seq<nat>, parent: seq<int>, procs: seq<Proc>)
    requires |parent| == |depth| == g.N()
  {
    && |procs| == |window|
    && forall i: nat | i < |window| ::
      window[i] < g.N() && depth[window[i]] == level && ProcOk(g, parent, window[i], procs[i])
  }

  ghost predicate Inv(g: Graph, s: nat, depth: seq<int>, level: nat, window: seq<nat>, st: State) {
    && Visiting(g, s, depth, level, st.parent) && ListsLevel(g, depth, level, window)
    && ListsNew(depth, st.parent, st.pushed) && st.scout == DegreeSum(g, st.pushed)
    && ProcsOk(g, depth, level, window, st.parent, st.procs)
  }

  lemma InitialInv(g: Graph, s: nat, depth: seq<int>, level: nat, window: seq<nat>, parent: seq<int>)
    requires Wave(g, s, depth, level) && Tree(g, s, depth, parent) && ListsLevel(g, depth, level, window)
    ensures Inv(g, s, depth, level, window, Initial(window, parent))
  {
    forall v: nat | v < g.N() ensures VisitOk(g, s, depth, level, v, parent[v]) {}
    forall i: nat | i < |window| ensures window[i] < g.N() && depth[window[i]] == level { assert window[i] in window; }
  }

  // Parents only ever go from negative to set, so coverage is never lost.
  lemma CoveredKept(g: Graph, parent: seq<int>, v: nat, u: nat, w: nat, k: nat)
    requires |parent| == g.N() && v < g.N() && w < g.N() && Covered(g, parent, w, k)
    ensures Covered(g, parent[v := u], w, k)
  {
  }

  lemma ProcsStep(g: Graph, depth: seq<int>, level: nat, window: seq<nat>, parent: seq<int>, procs: seq<Proc>, i: nat,
                  v: nat, claim: bool, p: Proc)
    requires |parent| == |depth| == g.N() && ProcsOk(g, depth, level, window, parent, procs)
    requires i < |window| && v < g.N()
    requires ProcOk(g, if claim then parent[v := window[i]] else parent, window[i], p)
    ensures ProcsOk(g, depth, level, window, if claim then parent[v := window[i]] else parent, procs[i := p])
  {
    var parent' := if claim then parent[v := window[i]] else parent;
    forall x: nat | x < |window|
      ensures window[x] < g.N() && depth[window[x]] == level && ProcOk(g, parent', window[x], procs[i := p][x])
    {
      assert ProcOk(g, parent, window[x], procs[x]);
      if claim { CoveredKept(g, parent, v, window[i], window[x], procs[x].k); }
    }
  }

  lemma ProcFacts(g: Graph, s: nat, depth: seq<int>, level: nat, window: seq<nat>, parent: seq<int>, procs: seq<Proc>,
                  i: nat)
    requires Visiting(g, s, depth, level, parent) && ProcsOk(g, depth, level, window, parent, procs)
    requires i < |window| && procs[i].k < |g.outs[window[i]]|
    ensures var u := window[i]; var v := g.outs[u][procs[i].k];
      && u < g.N() && v < g.N() && depth[u] == level && v in g.outs[u]
      && ProcOk(g, parent, u, procs[i]) && VisitOk(g, s, depth, level, v, parent[v])
  {
    assert window[i] < g.N() && depth[window[i]] == level && ProcOk(g, parent, window[i], procs[i]);
    EdgeInRange(g, window[i], g.outs[window[i]][procs[i].k]);
  }

  // A won compare-and-swap claims the neighbour.
  lemma SwapStep(g: Graph, s: nat, depth: seq<int>, level: nat, window: seq<nat>, parent: seq<int>, procs: seq<Proc>,
                 pushed: seq<nat>, i: nat, v: nat)
    requires Visiting(g, s, depth, level, parent) && ProcsOk(g, depth, level, window, parent, procs)
      && ListsNew(depth, parent, pushed)
    requires i < |window| && procs[i].k < |g.outs[window[i]]| && v == g.outs[window[i]][procs[i].k]
    requires v < g.N() && parent[v] < 0
    ensures var parent' := parent[v := window[i]];
      && Visiting(g, s, depth, level, parent') && ListsNew(depth, parent', pushed + [v])
      && DegreeSum(g, pushed + [v]) == DegreeSum(g, pushed) - parent[v]
      && ProcsOk(g, depth, level, window, parent', procs[i := Proc(procs[i].k + 1, Look)])
  {
    var u, p := window[i], procs[i];
    ProcFacts(g, s, depth, level, window, parent, procs, i);
    ClaimKeepsVisiting(g, s, depth, level, parent, u, v);
    ClaimIsListed(g, depth, parent, pushed, u, v);
    CoveredKept(g, parent, v, u, u, p.k);
    ProcsStep(g, depth, level, window, parent, procs, i, v, true, Proc(p.k + 1, Look));
  }

  lemma LookStep(g: Graph, s: nat, depth: seq<int>, level: nat, window: seq<nat>, parent: seq<int>, procs: seq<Proc>,
                 i: nat, v: nat, p': Proc)
    requires Visiting(g, s, depth, level, parent) && ProcsOk(g, depth, level, window, parent, procs)
    requires i < |window| && procs[i].k < |g.outs[window[i]]| && v == g.outs[window[i]][procs[i].k] && v < g.N()
    requires if parent[v] < 0 then procs[i].pc.Look? && p' == Proc(procs[i].k, Have(parent[v]))
      else p' == Proc(procs[i].k + 1, Look)
    ensures ProcsOk(g, depth, level, window, parent, procs[i := p'])
  {
    ProcFacts(g, s, depth, level, window, parent, procs, i);
    ProcsStep(g, depth, level, window, parent, procs, i, v, false, p');
  }

  lemma StepKeepsInv(g: Graph, s: nat, depth: seq<int>, level: nat, window: seq<nat>, st: State, i: nat)
    requires Inv(g, s, depth, level, window, st) && Enabled(g, window, st, i)
    ensures Inv(g, s, depth, level, window, Apply(g, window, st, i))
  {
    var u, p := window[i], st.procs[i];
    var v := g.outs[u][p.k];
    ProcFacts(g, s, depth, level, window, st.parent, st.procs, i);
    var p' := Apply(g, window, st, i).procs[i];
    if p.pc.Have? && st.parent[v] == p.pc.currVal {
      SwapStep(g, s, depth, level, window, st.parent, st.procs, st.pushed, i, v);
      assert Apply(g, window, st, i) == State(st.parent[v := u], st.procs[i := Proc(p.k + 1, Look)], st.pushed + [v],
                                              st.scout - st.parent[v]);
    } else {
      LookStep(g, s, depth, level, window, st.parent, st.procs, i, v, p');
      assert Apply(g, window, st, i) == State(st.parent, st.procs[i := p'], st.pushed, st.scout);
    }
  }

  ghost predicate IsRun(g: Graph, window: seq<nat>, states: seq<State>, moves: seq<nat>) {
    && |states| == |moves| + 1
    && forall i | 0 <= i < |moves| ::
      Enabled(g, window, states[i], moves[i]) && states[i + 1] == Apply(g, window, states[i], moves[i])
  }

  lemma {:induction false} RunInv(g: Graph, s: nat, depth: seq<int>, level: nat, window: seq<nat>, states: seq<State>,
                                  moves: seq<nat>, i: nat)
    requires IsRun(g, window, states, moves) && Inv(g, s, depth, level, window, states[0]) && i < |states|
    ensures Inv(g, s, depth, level, window, states[i])
  {
    if i > 0 {
      RunInv(g, s, depth, level, window, states, moves, i - 1);
      StepKeepsInv(g, s, depth, level, window, states[i - 1], moves[i - 1]);
    }
  }

  // What one top-down step achieves: the next level, pushed once each.
  ghost predicate LevelDone(g: Graph, s: nat, depth: seq<int>, level: nat, parent: seq<int>, pushed: seq<nat>,
                            scout: int)
    requires g.Valid() && |depth| == g.N()
  {
    && Wave(g, s, Next(g, depth, level), level + 1) && Tree(g, s, Next(g, depth, level), parent)
    && ListsLevel(g, Next(g, depth, level), level + 1, pushed)
    && (forall i, j | 0 <= i < j < |pushed| :: pushed[i] != pushed[j])
    && (forall v | v in pushed :: v < |depth| && depth[v] == -1)
    && scout == DegreeSum(g, pushed)
  }

  lemma FinishedIsDone(g: Graph, s: nat, depth: seq<int>, level: nat, window: seq<nat>, st: State)
    requires Inv(g, s, depth, level, window, st) && Finished(g, window, st)
    ensures LevelDone(g, s, depth, level, st.parent, st.pushed, st.scout)
  {
    forall u: nat | u < g.N() && depth[u] == level ensures Covered(g, st.parent, u, |g.outs[u]|) {
      assert u in window;
      var i: nat :| i < |window| && window[i] == u;
      assert ProcOk(g, st.parent, window[i], st.procs[i]);
    }
    CoveredIsNext(g, s, depth, level, st.parent);
  }

  // Every interleaving of the compare-and-swaps completes exactly the next level.
  lemma TopDownIsCorrect(g: Graph, s: nat, depth: seq<int>, level: nat, window: seq<nat>, parent: seq<int>,
                         states: seq<State>, moves: seq<nat>)
    requires Wave(g, s, depth, level) && Tree(g, s, depth, parent) && ListsLevel(g, depth, level, window)
    requires IsRun(g, window, states, moves) && states[0] == Initial(window, parent)
    requires Finished(g, window, states[|moves|])
    ensures LevelDone(g, s, depth, level, states[|moves|].parent, states[|moves|].pushed, states[|moves|].scout)
  {
    InitialInv(g, s, depth, level, window, parent);
    RunInv(g, s, depth, level, window, states, moves, |moves|);
    FinishedIsDone(g, s, depth, level, window, states[|moves|]);
  }
}
