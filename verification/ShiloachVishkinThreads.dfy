module ShiloachVishkinThreads {
  // Shiloach-Vishkin as a parallel program with its unsynchronised hooks: the
  // test that the higher label is a root and the write under it are separate
  // steps, so a hook can overwrite another one.

  import opened Components
  import opened Compression

  datatype Stage = Hook | Compress | Done

  predicate AtRest(pc: Pc) { pc.Finished? || pc == Crawling(Stopped) }

  datatype Pc =
    | NextEdge
    | HaveU(compU: nat)
    | HaveBoth(compU: nat, compV: nat)
    | Write(high: nat, low: nat)
    | Crawling(c: Crawl)
    | Finished

  datatype Proc = Proc(k: nat, pc: Pc)

  // numIter counts the iterations started.
  datatype State = State(comp: seq<nat>, change: bool, numIter: nat, stage: Stage, procs: seq<Proc>)

  function Fresh(n: nat, pc: Pc): seq<Proc> { seq(n, _ => Proc(0, pc)) }

  function Initial(g: Graph): State {
    State(seq(g.N(), n => n), false, 1, Hook, Fresh(g.N(), NextEdge))
  }

  datatype Move = Run(u: nat) | Barrier

  predicate InRange(comp: seq<nat>, pc: Pc) {
    match pc
    case HaveBoth(a, b) => a < |comp| && b < |comp|
    case Write(high, _) => high < |comp|
    case Crawling(c) => Readable(comp, c)
    case _ => true
  }

  predicate Enabled(g: Graph, s: State, m: Move) {
    && |g.outs| == |s.comp| == |s.procs|
    && match m
       case Run(u) =>
         && u < |s.procs| && !AtRest(s.procs[u].pc) && InRange(s.comp, s.procs[u].pc)
         && (s.procs[u].pc.HaveU? ==> s.procs[u].k < |g.outs[u]| && g.outs[u][s.procs[u].k] < |s.comp|)
       case Barrier => s.stage != Done && forall u | 0 <= u < |s.procs| :: AtRest(s.procs[u].pc)
  }

  // One step of the iteration of u over the row `row`.
  function Step(row: seq<nat>, comp: seq<nat>, change: bool, u: nat, p: Proc): (seq<nat>, bool, Proc)
    requires u < |comp| && !AtRest(p.pc) && InRange(comp, p.pc)
    requires p.pc.HaveU? ==> p.k < |row| && row[p.k] < |comp|
  {
    var next := Proc(p.k + 1, NextEdge);
    match p.pc
    case NextEdge => (comp, change, p.(pc := if p.k < |row| then HaveU(comp[u]) else Finished))
    case HaveU(compU) => (comp, change, p.(pc := HaveBoth(compU, comp[row[p.k]])))
    case HaveBoth(compU, compV) =>
      if compU == compV then (comp, change, next)
      else
        var high := if compU > compV then compU else compV;
        var low := compU + compV - high;
        (comp, change, if high == comp[high] then p.(pc := Write(high, low)) else next)
    case Write(high, low) => (comp[high := low], true, next)
    case Crawling(c) =>
      var (comp', c') := CrawlStep(comp, u, c);
      (comp', change, p.(pc := Crawling(c')))
  }

  // The end of the hooking loop, and the test of `change` after the compression.
  function AfterBarrier(g: Graph, s: State): State {
    if s.stage == Hook then s.(stage := Compress, procs := Fresh(g.N(), Crawling(Look1)))
    else if s.change then s.(stage := Hook, change := false, numIter := s.numIter + 1, procs := Fresh(g.N(), NextEdge))
    else s.(stage := Done, procs := Fresh(g.N(), Finished))
  }

  function Apply(g: Graph, s: State, m: Move): State
    requires Enabled(g, s, m)
  {
    match m
    case Run(u) =>
      var (comp', change', p') := Step(g.outs[u], s.comp, s.change, u, s.procs[u]);
      s.(comp := comp', change := change', procs := s.procs[u := p'])
    case Barrier => AfterBarrier(g, s)
  }

  function Roots(comp: seq<nat>, n: nat): nat
    requires n <= |comp|
  {
    if n == 0 then 0 else Roots(comp, n - 1) + if comp[n - 1] == n - 1 then 1 else 0
  }

  lemma {:induction false} RootsAfter(comp: seq<nat>, comp': seq<nat>, x: nat, n: nat)
    requires n <= |comp| == |comp'| && x < |comp|
    requires forall y | 0 <= y < n && y != x :: comp'[y] == comp[y]
    requires comp'[x] < x
    ensures Roots(comp', n) == Roots(comp, n) - if x < n && comp[x] == x then 1 else 0
  {
    if n > 0 { RootsAfter(comp, comp', x, n - 1); }
  }

  lemma {:induction false} RootsBound(comp: seq<nat>, n: nat)
    requires n <= |comp| && Forest(comp)
    ensures Roots(comp, n) <= n && (n > 0 ==> Roots(comp, n) >= 1)
  {
    if n > 0 { RootsBound(comp, n - 1); }
  }

  // ---------------------------------------------------------------- invariant

  // x and y lie in one component.
  ghost predicate Tied(g: Graph, x: nat, y: nat) {
    Connected(g, x, y) && Connected(g, y, x)
  }

  ghost predicate HookOk(g: Graph, comp: seq<nat>, change: bool, u: nat, p: Proc)
    requires g.Valid() && u < |comp| == g.N()
  {
    var row := g.outs[u];
    && p.k <= |row|
    && (!change ==> forall j: nat | j < p.k :: comp[row[j]] == comp[u])
    && match p.pc
       case NextEdge => true
       case HaveU(compU) => p.k < |row| && Tied(g, u, compU) && (!change ==> compU == comp[u])
       case HaveBoth(compU, compV) =>
         && p.k < |row| && Tied(g, u, compU) && Tied(g, row[p.k], compV) && compU < g.N() && compV < g.N()
         && (!change ==> compU == comp[u] && compV == comp[row[p.k]])
       case Write(high, low) => p.k < |row| && low < high < g.N() && Tied(g, high, low)
         && (change || comp[high] == high)
       case Finished => p.k == |row|
       case _ => false
  }

  ghost predicate EdgesEqual(g: Graph, comp: seq<nat>) {
    && |comp| == g.N()
    && forall u: nat, j: nat | u < g.N() && j < |g.outs[u]| :: g.outs[u][j] < g.N() && comp[g.outs[u][j]] == comp[u]
  }

  ghost predicate Inv(g: Graph, s: State) {
    && g.Valid()
    && TreesConnected(g, s.comp)
    && |s.procs| == |s.comp|
    // every changing iteration costs a root
    && s.numIter - 1 + Roots(s.comp, g.N()) + (if s.change then 1 else 0) <= g.N()
    && match s.stage
       case Hook => (!s.change ==> Flat(s.comp)) && forall u: nat | u < g.N() ::
         HookOk(g, s.comp, s.change, u, s.procs[u])
       case Compress => (!s.change ==> EdgesEqual(g, s.comp) && Flat(s.comp)) && forall u: nat | u < g.N() ::
         s.procs[u].pc.Crawling? && CrawlOk(s.comp, u, s.procs[u].pc.c)
       case Done => EdgesEqual(g, s.comp) && Flat(s.comp) && forall u: nat | u < g.N() :: s.procs[u].pc.Finished?
  }

  // ------------------------------------------------------- every step keeps it

  lemma TiedTrans(g: Graph, a: nat, b: nat, c: nat)
    requires Tied(g, a, b) && Tied(g, b, c)
    ensures Tied(g, a, c) && Tied(g, c, a)
  {
    ConnectedTransitive(g, a, b, c);
    ConnectedTransitive(g, c, b, a);
  }

  lemma LabelTied(g: Graph, comp: seq<nat>, x: nat)
    requires TreesConnected(g, comp) && x < |comp|
    ensures Tied(g, x, comp[x])
  {
    ConnectedSymmetric(g, x, comp[x]);
  }

  lemma NeighbourTied(g: Graph, u: nat, j: nat)
    requires g.Valid() && u < g.N() && j < |g.outs[u]|
    ensures g.outs[u][j] < g.N() && Tied(g, u, g.outs[u][j])
  {
    assert g.outs[u][j] in g.outs[u];
    ConnectedEdge(g, u, g.outs[u][j]);
    ConnectedSymmetric(g, u, g.outs[u][j]);
  }

  // The labels read at the ends of an edge lie in one component.
  lemma EdgeTied(g: Graph, u: nat, j: nat, compU: nat, compV: nat)
    requires g.Valid() && u < g.N() && j < |g.outs[u]| && Tied(g, u, compU) && Tied(g, g.outs[u][j], compV)
    ensures Tied(g, compU, compV) && Tied(g, compV, compU)
  {
    NeighbourTied(g, u, j);
    TiedTrans(g, u, g.outs[u][j], compV);
    TiedTrans(g, compU, u, compV);
  }

  lemma ReadLabels(g: Graph, comp: seq<nat>, change: bool, u: nat, p: Proc)
    requires g.Valid() && TreesConnected(g, comp) && u < |comp|
    requires HookOk(g, comp, change, u, p) && (p.pc.NextEdge? || p.pc.HaveU?)
    ensures p.pc.HaveU? ==> p.k < |g.outs[u]| && g.outs[u][p.k] < |comp|
    ensures HookOk(g, comp, change, u, Step(g.outs[u], comp, change, u, p).2)
  {
    if p.pc.NextEdge? {
      LabelTied(g, comp, u);
    } else {
      NeighbourTied(g, u, p.k);
      LabelTied(g, comp, g.outs[u][p.k]);
    }
  }

  // In a flat forest both labels are roots, so the higher one passes the test.
  lemma CompareLabels(g: Graph, comp: seq<nat>, change: bool, u: nat, p: Proc)
    requires g.Valid() && (!change ==> Flat(comp)) && u < |comp| == g.N()
    requires HookOk(g, comp, change, u, p) && p.pc.HaveBoth?
    ensures HookOk(g, comp, change, u, Step(g.outs[u], comp, change, u, p).2)
  {
    assert g.outs[u][p.k] < g.N();
    assert !change ==> comp[comp[u]] == comp[u] && comp[comp[g.outs[u][p.k]]] == comp[g.outs[u][p.k]];
    EdgeTied(g, u, p.k, p.pc.compU, p.pc.compV);
  }

  // Steps of the hooking loop that only read.
  lemma HookReads(g: Graph, comp: seq<nat>, change: bool, u: nat, p: Proc)
    requires g.Valid() && TreesConnected(g, comp) && (!change ==> Flat(comp)) && u < |comp|
    requires HookOk(g, comp, change, u, p) && !AtRest(p.pc) && !p.pc.Write?
    ensures InRange(comp, p.pc) && (p.pc.HaveU? ==> p.k < |g.outs[u]| && g.outs[u][p.k] < |comp|)
    ensures var (comp', change', p') := Step(g.outs[u], comp, change, u, p);
      comp' == comp && change' == change && HookOk(g, comp, change, u, p')
  {
    if p.pc.HaveBoth? { CompareLabels(g, comp, change, u, p); } else { ReadLabels(g, comp, change, u, p); }
  }

  lemma HookWrite(g: Graph, s: State, u: nat)
    requires Inv(g, s) && s.stage == Hook && u < |s.procs| && s.procs[u].pc.Write?
    ensures Enabled(g, s, Run(u)) && Inv(g, Apply(g, s, Run(u)))
  {
    hide Connected, Root, Flat;
    assert HookOk(g, s.comp, s.change, u, s.procs[u]);
    var s' := Apply(g, s, Run(u));
    var high, low := s.procs[u].pc.high, s.procs[u].pc.low;
    RootsAfter(s.comp, s'.comp, high, g.N());
    forall x: nat | x < g.N() ensures HookOk(g, s'.comp, s'.change, x, s'.procs[x]) {
      assert HookOk(g, s.comp, s.change, x, s.procs[x]);
    }
  }

  lemma HookStep(g: Graph, s: State, u: nat)
    requires Inv(g, s) && s.stage == Hook && u < |s.procs| && !AtRest(s.procs[u].pc)
    ensures Enabled(g, s, Run(u)) && Inv(g, Apply(g, s, Run(u)))
  {
    if s.procs[u].pc.Write? {
      HookWrite(g, s, u);
    } else {
      HookReads(g, s.comp, s.change, u, s.procs[u]);
      var s' := Apply(g, s, Run(u));
      forall x: nat | x < g.N() ensures HookOk(g, s'.comp, s'.change, x, s'.procs[x]) {
        assert HookOk(g, s.comp, s.change, x, s.procs[x]);
      }
    }
  }

  lemma CompressStep(g: Graph, s: State, u: nat)
    requires Inv(g, s) && s.stage == Compress && u < |s.procs| && !AtRest(s.procs[u].pc)
    ensures Enabled(g, s, Run(u)) && Inv(g, Apply(g, s, Run(u)))
  {
    var c := s.procs[u].pc.c;
    OwnStep(g, s.comp, u, c);
    var s' := Apply(g, s, Run(u));
    if s'.comp != s.comp { RootsAfter(s.comp, s'.comp, u, g.N()); }
    forall x: nat | x < g.N() ensures s'.procs[x].pc.Crawling? && CrawlOk(s'.comp, x, s'.procs[x].pc.c) {
      if x != u { OtherStep(g, s.comp, u, c, x, s.procs[x].pc.c); }
    }
  }

  lemma BarrierStep(g: Graph, s: State)
    requires Inv(g, s) && Enabled(g, s, Barrier)
    ensures Inv(g, AfterBarrier(g, s))
  {
    if s.stage == Hook {
      forall u: nat, j: nat | u < g.N() && j < |g.outs[u]|
        ensures g.outs[u][j] < g.N() && (!s.change ==> s.comp[g.outs[u][j]] == s.comp[u])
      {
        assert HookOk(g, s.comp, s.change, u, s.procs[u]);
      }
    } else {
      forall u: nat | u < |s.comp| ensures CrawlOk(s.comp, u, Stopped) { assert AtRest(s.procs[u].pc); }
      AllStoppedIsFlat(s.comp);
    }
  }

  lemma StepKeepsInv(g: Graph, s: State, m: Move)
    requires Inv(g, s) && Enabled(g, s, m)
    ensures Inv(g, Apply(g, s, m))
  {
    match m {
      case Run(u) => if s.stage == Hook { HookStep(g, s, u); } else { CompressStep(g, s, u); }
      case Barrier => BarrierStep(g, s);
    }
  }

  lemma InitialInv(g: Graph)
    requires g.Valid()
    ensures Inv(g, Initial(g))
  {
    var comp := Initial(g).comp;
    forall x: nat | x < g.N() ensures Connected(g, x, comp[x]) { ConnectedReflexive(g, x); }
    RootsBound(comp, g.N());
  }

  ghost predicate IsRun(g: Graph, states: seq<State>, moves: seq<Move>) {
    && |states| == |moves| + 1
    && forall i | 0 <= i < |moves| :: Enabled(g, states[i], moves[i]) && states[i + 1] == Apply(g, states[i], moves[i])
  }

  lemma {:induction false} RunInv(g: Graph, states: seq<State>, moves: seq<Move>, i: nat)
    requires IsRun(g, states, moves) && Inv(g, states[0]) && i < |states|
    ensures Inv(g, states[i])
  {
    if i > 0 {
      RunInv(g, states, moves, i - 1);
      StepKeepsInv(g, states[i - 1], moves[i - 1]);
    }
  }

  // Lost hooks do no harm: the result is the smallest vertex of each component,
  // as Afforest's, and it is found within as many iterations as vertices.
  lemma ShiloachVishkinIsCorrect(g: Graph, states: seq<State>, moves: seq<Move>)
    requires g.Valid() && IsRun(g, states, moves) && states[0] == Initial(g)
    requires states[|moves|].stage == Done
    ensures MinLabels(g, states[|moves|].comp)
    ensures LabelsMatch(g, states[|moves|].comp)
  {
    InitialInv(g);
    RunInv(g, states, moves, |moves|);
    var comp := states[|moves|].comp;
    forall u: nat, j: nat | u < g.N() && j < |g.outs[u]| ensures Same(comp, u, g.outs[u][j]) {
      RootProperties(comp, u);
      RootProperties(comp, g.outs[u][j]);
    }
    JoinedFlatIsMin(g, comp);
    MinLabelsMatch(g, comp);
  }

  lemma IterationBound(g: Graph, states: seq<State>, moves: seq<Move>, i: nat)
    requires g.Valid() && IsRun(g, states, moves) && states[0] == Initial(g) && i < |states|
    ensures states[i].numIter <= if g.N() == 0 then 1 else g.N()
  {
    InitialInv(g);
    RunInv(g, states, moves, i);
    RootsBound(states[i].comp, g.N());
  }

  ghost function Barriers(moves: seq<Move>, k: nat): nat
    requires k <= |moves|
  {
    if k == 0 then 0 else Barriers(moves, k - 1) + if moves[k - 1].Barrier? then 1 else 0
  }

  // The counter counts iterations, each of which passes two barriers.
  lemma {:induction false} IterationsCounted(g: Graph, states: seq<State>, moves: seq<Move>, i: nat)
    requires IsRun(g, states, moves) && states[0] == Initial(g) && i <= |moves|
    ensures Barriers(moves, i)
         == 2 * (states[i].numIter - 1) + match states[i].stage case Hook => 0 case Compress => 1 case Done => 2
  {
    if i > 0 {
      IterationsCounted(g, states, moves, i - 1);
      assert Enabled(g, states[i - 1], moves[i - 1]) && states[i] == Apply(g, states[i - 1], moves[i - 1]);
    }
  }

  // -------------------------------------------------------------- termination

  function Potential(s: State): nat {
    2 * Roots(s.comp, |s.comp|) + if s.change then 1 else 0
  }

  function StagesLeft(stage: Stage): nat {
    match stage case Hook => 2 case Compress => 1 case Done => 0
  }

  function Height(g: Graph, comp: seq<nat>, u: nat, p: Proc): nat
    requires u < |comp| == |g.outs|
  {
    match p.pc
    case NextEdge => 1 + Left(g, u, p.k)
    case HaveU(_) => Left(g, u, p.k)
    case HaveBoth(_, _) => if Left(g, u, p.k) > 0 then Left(g, u, p.k) - 1 else 0
    case Write(_, _) => if Left(g, u, p.k) > 1 then Left(g, u, p.k) - 2 else 0
    case Crawling(c) => CrawlHeight(comp, u, c)
    case Finished => 0
  }

  function Left(g: Graph, u: nat, k: nat): nat
    requires u < |g.outs|
  {
    if k <= |g.outs[u]| then 4 * (|g.outs[u]| - k) else 0
  }

  function TotalHeight(g: Graph, comp: seq<nat>, procs: seq<Proc>): nat
    requires |procs| <= |comp| == |g.outs|
  {
    if procs == [] then 0
    else
      var m := |procs| - 1;
      TotalHeight(g, comp, procs[..m]) + Height(g, comp, m, procs[m])
  }

  lemma {:induction false} HeightUpdate(g: Graph, comp: seq<nat>, comp': seq<nat>, procs: seq<Proc>, procs': seq<Proc>,
                                        u: nat)
    requires |procs| == |procs'| <= |comp| == |comp'| == |g.outs| && u < |comp|
    requires forall x: nat | x < |procs| && x != u ::
      procs'[x] == procs[x] && Height(g, comp', x, procs'[x]) == Height(g, comp, x, procs[x])
    ensures TotalHeight(g, comp', procs') - TotalHeight(g, comp, procs)
         == if u < |procs| then Height(g, comp', u, procs'[u]) - Height(g, comp, u, procs[u]) else 0
  {
    if procs != [] {
      var m := |procs| - 1;
      HeightUpdate(g, comp, comp', procs[..m], procs'[..m], u);
    }
  }

  ghost predicate Smaller(g: Graph, s': State, s: State)
    requires |s.procs| == |s'.procs| == |s.comp| == |s'.comp| == |g.outs|
  {
    || Potential(s') < Potential(s)
    || (Potential(s') == Potential(s) && StagesLeft(s'.stage) < StagesLeft(s.stage))
    || (Potential(s') == Potential(s) && StagesLeft(s'.stage) == StagesLeft(s.stage) &&
        TotalHeight(g, s'.comp, s'.procs) < TotalHeight(g, s.comp, s.procs))
  }

  lemma HookHeight(g: Graph, comp: seq<nat>, change: bool, u: nat, p: Proc)
    requires g.Valid() && u < |comp| == g.N() && HookOk(g, comp, change, u, p) && !AtRest(p.pc) && InRange(comp, p.pc)
    requires p.pc.HaveU? ==> g.outs[u][p.k] < |comp|
    ensures var (comp', change', p') := Step(g.outs[u], comp, change, u, p);
      |comp'| == |comp| && Height(g, comp', u, p') < Height(g, comp, u, p)
  {
  }

  lemma HookShrinks(g: Graph, s: State, u: nat)
    requires Inv(g, s) && s.stage == Hook && Enabled(g, s, Run(u))
    ensures var s' := Apply(g, s, Run(u));
      && |s'.comp| == |s.comp| && Potential(s') <= Potential(s)
      && Height(g, s'.comp, u, s'.procs[u]) < Height(g, s.comp, u, s.procs[u])
  {
    HookHeight(g, s.comp, s.change, u, s.procs[u]);
    var s' := Apply(g, s, Run(u));
    if s.procs[u].pc.Write? { RootsAfter(s.comp, s'.comp, s.procs[u].pc.high, g.N()); }
  }

  lemma CrawlShrinks(g: Graph, s: State, u: nat)
    requires Inv(g, s) && s.stage == Compress && Enabled(g, s, Run(u))
    ensures var s' := Apply(g, s, Run(u));
      && |s'.comp| == |s.comp| && Potential(s') <= Potential(s)
      && Height(g, s'.comp, u, s'.procs[u]) < Height(g, s.comp, u, s.procs[u])
  {
    OwnStep(g, s.comp, u, s.procs[u].pc.c);
    var s' := Apply(g, s, Run(u));
    if s'.comp != s.comp { RootsAfter(s.comp, s'.comp, u, g.N()); }
  }

  lemma OthersKeepHeight(g: Graph, s: State, u: nat, x: nat)
    requires Inv(g, s) && Enabled(g, s, Run(u)) && x < |s.procs| && x != u
    ensures var s' := Apply(g, s, Run(u));
      |s'.comp| == |s.comp| && s'.procs[x] == s.procs[x]
        && Height(g, s'.comp, x, s'.procs[x]) == Height(g, s.comp, x, s.procs[x])
  {
    if s.stage == Compress {
      OtherStep(g, s.comp, u, s.procs[u].pc.c, x, s.procs[x].pc.c);
    } else {
      assert HookOk(g, s.comp, s.change, x, s.procs[x]);
    }
  }

  lemma RunShrinks(g: Graph, s: State, u: nat)
    requires Inv(g, s) && Enabled(g, s, Run(u))
    ensures var s' := Apply(g, s, Run(u)); |s'.comp| == |s.comp| && Smaller(g, s', s)
  {
    var s' := Apply(g, s, Run(u));
    if s.stage == Hook { HookShrinks(g, s, u); } else { CrawlShrinks(g, s, u); }
    forall x: nat | x < |s.procs| && x != u
      ensures s'.procs[x] == s.procs[x] && Height(g, s'.comp, x, s'.procs[x]) == Height(g, s.comp, x, s.procs[x])
    {
      OthersKeepHeight(g, s, u, x);
    }
    HeightUpdate(g, s.comp, s'.comp, s.procs, s'.procs, u);
  }

  lemma StepShrinks(g: Graph, s: State, m: Move)
    requires Inv(g, s) && Enabled(g, s, m)
    ensures var s' := Apply(g, s, m); |s'.procs| == |s'.comp| == |s.comp| && Smaller(g, s', s)
  {
    if m.Run? { RunShrinks(g, s, m.u); }
  }

  lemma NeverStuck(g: Graph, s: State)
    requires Inv(g, s) && s.stage != Done
    ensures exists m :: Enabled(g, s, m)
  {
    if u: nat :| u < |s.procs| && !AtRest(s.procs[u].pc) {
      if s.stage == Hook { HookStep(g, s, u); } else { CompressStep(g, s, u); }
    } else {
      assert Enabled(g, s, Barrier);
    }
  }

  ghost predicate Steps(g: Graph, s: State, s': State) {
    exists m :: Enabled(g, s, m) && s' == Apply(g, s, m)
  }

  // No schedule runs forever.
  lemma {:induction false} EveryScheduleEnds(g: Graph, run: nat -> State, i: nat)
    requires Inv(g, run(i))
    ensures exists j :: j >= i && !Steps(g, run(j), run(j + 1))
    decreases Potential(run(i)), StagesLeft(run(i).stage), TotalHeight(g, run(i).comp, run(i).procs)
  {
    if Steps(g, run(i), run(i + 1)) {
      var m :| Enabled(g, run(i), m) && run(i + 1) == Apply(g, run(i), m);
      StepKeepsInv(g, run(i), m);
      StepShrinks(g, run(i), m);
      EveryScheduleEnds(g, run, i + 1);
    }
  }
}
