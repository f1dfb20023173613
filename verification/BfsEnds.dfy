module BfsEnds {
  // No schedule of the direction-optimizing search goes on forever: what the loop
  // guard compares does not depend on how the threads interleave.

  import opened Components
  import opened Layers
  import opened BfsThreads
  import BfsPlans

  // ------------------------------------------------------------ the loop guard

  // awake_count when phase i begins inside the bottom-up loop: the size of the
  // window at first, then what the last step returned.
  ghost function AwakeAt(configs: seq<Config>, phases: seq<Phase>, i: nat): nat
    requires i <= |phases| && |configs| == |phases| + 1
  {
    if i == 0 then 0
    else if phases[i - 1].BottomUp? then Woken(phases[i - 1])
    else if QueueOk(configs[i - 1]) then |Window(configs[i - 1])|
    else 0
  }

  // The bottom-up loop goes on only if its guard says so.
  ghost predicate Guarded(g: Graph, beta: int, configs: seq<Config>, phases: seq<Phase>)
    requires |configs| == |phases| + 1 && beta > 0
  {
    forall i: nat | 0 < i < |phases| && phases[i].BottomUp? && phases[i - 1].BottomUp? ::
      GoesOn(g, beta, AwakeAt(configs, phases, i), AwakeAt(configs, phases, i - 1))
  }

  predicate GoesOn(g: Graph, beta: int, awake: nat, oldAwake: nat): (again: bool)
    requires beta > 0
    ensures again <==> awake >= oldAwake || g.N() < beta * awake
  {
    BfsPlans.AboveQuotient(g.N(), beta, awake);
    awake >= oldAwake || awake > BfsPlans.TruncDiv(g.N(), beta)
  }

  lemma StartsInBitmap(g: Graph, threads: nat, size: nat, c: Config, ph: Phase, c': Config)
    requires PhaseOk(g, threads, size, c, ph, c') && ph.BottomUp?
    ensures c.mode.FromBitmap?
  {
  }

  lemma BeforeBottomUp(g: Graph, threads: nat, size: nat, c: Config, ph: Phase, c': Config)
    requires PhaseOk(g, threads, size, c, ph, c') && c'.mode.FromBitmap?
    ensures QueueOk(c)
    ensures !ph.BottomUp? ==> Window(c) != [] && c'.mode.rounds == 0
  {
  }

  // A bottom-up step never starts with nobody awake.
  lemma {:induction false} StillAwake(g: Graph, threads: nat, size: nat, beta: int, configs: seq<Config>,
                                      phases: seq<Phase>, i: nat)
    requires IsSearch(g, threads, size, configs, phases) && beta > 0 && Guarded(g, beta, configs, phases)
    requires configs[0].mode == FromQueue && i < |phases| && phases[i].BottomUp?
    ensures i > 0 && AwakeAt(configs, phases, i) > 0
  {
    hide PhaseOk, QueueOk;
    StartsInBitmap(g, threads, size, configs[i], phases[i], configs[i + 1]);
    BeforeBottomUp(g, threads, size, configs[i - 1], phases[i - 1], configs[i]);
    if phases[i - 1].BottomUp? {
      StillAwake(g, threads, size, beta, configs, phases, i - 1);
      assert GoesOn(g, beta, AwakeAt(configs, phases, i), AwakeAt(configs, phases, i - 1));
    }
  }

  // ------------------------------------------------------------------- measure

  // Vertices without a parent among the first k.
  function Left(parent: seq<int>, k: nat): nat
    requires k <= |parent|
  {
    if k == 0 then 0 else Left(parent, k - 1) + if parent[k - 1] < 0 then 1 else 0
  }

  lemma {:induction false} LeftIsUnvisited(g: Graph, s: nat, depth: seq<int>, parent: seq<int>, k: nat)
    requires T.Tree(g, s, depth, parent) && k <= g.N() && forall v | 0 <= v < |depth| :: depth[v] >= -1
    ensures Left(parent, k) == Bfs.Unvisited(depth, k)
  {
    if k > 0 {
      LeftIsUnvisited(g, s, depth, parent, k - 1);
      assert if depth[k - 1] >= 0 then T.ParentOk(g, s, depth, k - 1, parent[k - 1]) else parent[k - 1] < 0;
    }
  }

  lemma {:induction false} LeftBound(parent: seq<int>, k: nat)
    requires k <= |parent|
    ensures Left(parent, k) <= k
  {
    if k > 0 { LeftBound(parent, k - 1); }
  }

  // The front bitmap is empty.
  ghost predicate Blank(c: Config) { forall v: nat :: v !in Bottom.Bits(c.front) }

  ghost function PhasesLeft(c: Config): nat
    requires QueueOk(c)
  {
    match c.mode
    case FromQueue => if Window(c) == [] then 0 else 3 * Left(c.parent, |c.parent|) + 3
    case FromBitmap(rounds) =>
      if rounds == 0 then 3 * Left(c.parent, |c.parent|) + 2
      else if Blank(c) then 1
      else 3 * Left(c.parent, |c.parent|) + 4
  }

  lemma QueueLeft(g: Graph, s: nat, c: Config, depth: seq<int>, level: nat)
    requires QueueOk(c) && InQueue(g, s, c, depth, level)
    ensures |c.parent| == |depth| == g.N() && Left(c.parent, g.N()) == Bfs.Unvisited(depth, g.N())
  {
    LeftIsUnvisited(g, s, depth, c.parent, g.N());
  }

  lemma BitmapLeft(g: Graph, s: nat, c: Config, depth: seq<int>, level: nat, level0: nat)
    requires QueueOk(c) && c.mode.FromBitmap? && InBitmap(g, s, c, depth, level, level0)
    ensures |c.parent| == |depth| == g.N() && Left(c.parent, g.N()) == Bfs.Unvisited(depth, g.N())
  {
    LeftIsUnvisited(g, s, depth, c.parent, g.N());
  }

  // A vertex on the new level has just been visited.
  lemma NewlyVisited(g: Graph, s: nat, depth: seq<int>, level: nat, v: nat)
    requires Wave(g, s, depth, level) && v < g.N() && Next(g, depth, level)[v] == level + 1
    ensures Bfs.Unvisited(Next(g, depth, level), g.N()) < Bfs.Unvisited(depth, g.N())
  {
    assert depth[v] <= level;
    Bfs.NextVisitsOne(g, s, depth, level, g.N(), v);
  }

  lemma QueueFacts(g: Graph, s: nat, c: Config, depth: seq<int>, level: nat)
    requires QueueOk(c) && InQueue(g, s, c, depth, level)
    ensures Wave(g, s, depth, level)
    ensures Window(c) != [] ==> Window(c)[0] < |depth| && depth[Window(c)[0]] == level
  {
    if Window(c) != [] { assert Window(c)[0] in Window(c); }
  }

  lemma TopDownShrinks(g: Graph, s: nat, threads: nat, size: nat, c: Config, ph: Phase, c': Config)
    requires size > 0 && Inv(g, s, c) && ph.TopDown? && TopDownOk(g, threads, size, c, ph, c')
    ensures QueueOk(c') && PhasesLeft(c') < PhasesLeft(c)
  {
    hide InQueue;
    var depth: seq<int>, level: nat :| InQueue(g, s, c, depth, level);
    TopDownPhase(g, s, threads, size, c, ph, c', depth, level);
    QueueLeft(g, s, c, depth, level);
    QueueFacts(g, s, c, depth, level);
    var next, up: nat := Next(g, depth, level), level + 1;
    QueueLeft(g, s, c', next, up);
    QueueFacts(g, s, c', next, up);
    if Window(c') != [] { NewlyVisited(g, s, depth, level, Window(c')[0]); }
  }

  lemma ToBitmapShrinks(c: Config, ph: Phase, c': Config)
    requires QueueOk(c) && ph.ToBitmap? && ToBitmapOk(c, ph, c')
    ensures QueueOk(c') && PhasesLeft(c') < PhasesLeft(c)
  {
  }

  lemma BitmapFacts(g: Graph, s: nat, c: Config, depth: seq<int>, level: nat, level0: nat)
    requires QueueOk(c) && c.mode.FromBitmap? && InBitmap(g, s, c, depth, level, level0)
    ensures Wave(g, s, depth, level)
    ensures c.mode.rounds > 0 ==> forall v: nat :: v in Bottom.Bits(c.front) <==> v < |depth| && depth[v] == level
  {
  }

  lemma BottomUpShrinks(g: Graph, s: nat, c: Config, ph: Phase, c': Config)
    requires Inv(g, s, c) && ph.BottomUp? && BottomUpOk(g, c, ph, c') && (c.mode.rounds > 0 ==> !Blank(c))
    ensures QueueOk(c') && PhasesLeft(c') < PhasesLeft(c)
  {
    hide InBitmap;
    var depth: seq<int>, level: nat, level0: nat :| InBitmap(g, s, c, depth, level, level0);
    BottomUpPhase(g, s, c, ph, c', depth, level, level0);
    BitmapLeft(g, s, c, depth, level, level0);
    BitmapFacts(g, s, c, depth, level, level0);
    var next, up: nat := Next(g, depth, level), level + 1;
    BitmapLeft(g, s, c', next, up, level0);
    BitmapFacts(g, s, c', next, up, level0);
    if !Blank(c') {
      var v: nat :| v in Bottom.Bits(c'.front);
      NewlyVisited(g, s, depth, level, v);
    }
  }

  lemma {:induction false} SameUnvisited(a: seq<int>, b: seq<int>, k: nat)
    requires k <= |a| && k <= |b| && forall v | 0 <= v < k :: a[v] == b[v]
    ensures Bfs.Unvisited(a, k) == Bfs.Unvisited(b, k)
  {
    if k > 0 { SameUnvisited(a, b, k - 1); }
  }

  // A step that has woken somebody leaves a bit behind.
  lemma WokenNotBlank(g: Graph, s: nat, c: Config, ph: Phase, c': Config)
    requires Inv(g, s, c) && ph.BottomUp? && BottomUpOk(g, c, ph, c') && Woken(ph) > 0
    ensures !Blank(c')
  {
    hide InBitmap;
    var depth: seq<int>, level: nat, level0: nat :| InBitmap(g, s, c, depth, level, level0);
    BottomUpPhase(g, s, c, ph, c', depth, level, level0);
    var next, up: nat := Next(g, depth, level), level + 1;
    BitmapFacts(g, s, c', next, up, level0);
    if Blank(c') {
      forall v: nat | v < g.N() ensures next[v] == depth[v] {
        assert v !in Bottom.Bits(c'.front);
      }
      SameUnvisited(next, depth, g.N());
    }
  }

  lemma ToQueueShrinks(g: Graph, s: nat, size: nat, c: Config, ph: Phase, c': Config)
    requires Inv(g, s, c) && ph.ToQueue? && ToQueueOk(g, size, c, ph, c')
    ensures QueueOk(c') && PhasesLeft(c') < PhasesLeft(c)
  {
    hide InBitmap;
    var depth: seq<int>, level: nat, level0: nat :| InBitmap(g, s, c, depth, level, level0);
    ToQueuePhase(g, s, size, c, ph, c', depth, level, level0);
    if Window(c') != [] {
      assert Window(c')[0] in Window(c');
      assert Window(c')[0] in Bottom.Bits(c.front);
    }
  }

  // --------------------------------------------------------------- every search

  lemma PhaseShrinks(g: Graph, s: nat, threads: nat, size: nat, beta: int, configs: seq<Config>, phases: seq<Phase>,
                     i: nat)
    requires size > 0 && beta > 0 && i < |phases|
    requires IsSearch(g, threads, size, configs, phases) && Guarded(g, beta, configs, phases)
    requires Inv(g, s, configs[0]) && configs[0].mode == FromQueue
    ensures QueueOk(configs[i]) && QueueOk(configs[i + 1]) && PhasesLeft(configs[i + 1]) < PhasesLeft(configs[i])
  {
    hide TopDownOk, ToBitmapOk, BottomUpOk, ToQueueOk, Inv, PhasesLeft, Blank;
    var c, ph, c' := configs[i], phases[i], configs[i + 1];
    assert PhaseOk(g, threads, size, c, ph, c');
    SearchInv(g, s, threads, size, configs, phases, i);
    match ph {
      case TopDown(_, _, _) => TopDownShrinks(g, s, threads, size, c, ph, c');
      case ToBitmap(_, _) => ToBitmapShrinks(c, ph, c');
      case BottomUp(_, _) =>
        FrontNotBlank(g, s, threads, size, beta, configs, phases, i);
        BottomUpShrinks(g, s, c, ph, c');
      case ToQueue(_, _, _) => ToQueueShrinks(g, s, size, c, ph, c');
    }
  }

  lemma FrontNotBlank(g: Graph, s: nat, threads: nat, size: nat, beta: int, configs: seq<Config>, phases: seq<Phase>,
                      i: nat)
    requires size > 0 && beta > 0 && i < |phases| && phases[i].BottomUp?
    requires IsSearch(g, threads, size, configs, phases) && Guarded(g, beta, configs, phases)
    requires Inv(g, s, configs[0]) && configs[0].mode == FromQueue
    ensures configs[i].mode.FromBitmap? && (configs[i].mode.rounds > 0 ==> !Blank(configs[i]))
  {
    hide TopDownOk, ToQueueOk, ToBitmapOk, Inv, Guarded, Blank;
    StillAwake(g, threads, size, beta, configs, phases, i);
    assert PhaseOk(g, threads, size, configs[i], phases[i], configs[i + 1]);
    assert PhaseOk(g, threads, size, configs[i - 1], phases[i - 1], configs[i]);
    if phases[i - 1].BottomUp? {
      SearchInv(g, s, threads, size, configs, phases, i - 1);
      WokenNotBlank(g, s, configs[i - 1], phases[i - 1], configs[i]);
    } else {
      BeforeBottomUp(g, threads, size, configs[i - 1], phases[i - 1], configs[i]);
    }
  }

  lemma {:induction false} SearchShrinks(g: Graph, s: nat, threads: nat, size: nat, beta: int, configs: seq<Config>,
                                         phases: seq<Phase>, i: nat)
    requires size > 0 && beta > 0 && i < |configs|
    requires IsSearch(g, threads, size, configs, phases) && Guarded(g, beta, configs, phases)
    requires Inv(g, s, configs[0]) && configs[0].mode == FromQueue
    ensures QueueOk(configs[0]) && QueueOk(configs[i]) && PhasesLeft(configs[i]) + i <= PhasesLeft(configs[0])
  {
    hide PhasesLeft, PhaseOk, Guarded;
    if i > 0 {
      SearchShrinks(g, s, threads, size, beta, configs, phases, i - 1);
      PhaseShrinks(g, s, threads, size, beta, configs, phases, i - 1);
    }
  }

  // Whatever the schedules and whichever way the direction switch decides, a
  // search has at most three phases for each vertex, and three more.
  lemma EverySearchEnds(g: Graph, s: nat, threads: nat, size: nat, beta: int, configs: seq<Config>, phases: seq<Phase>)
    requires size > 0 && beta > 0 && g.Valid()
    requires IsSearch(g, threads, size, configs, phases) && Guarded(g, beta, configs, phases)
    requires Starts(g, s, configs[0])
    ensures |phases| <= 3 * g.N() + 3
  {
    hide PhaseOk, Guarded;
    FirstInv(g, s, configs[0]);
    SearchShrinks(g, s, threads, size, beta, configs, phases, |phases|);
    LeftBound(configs[0].parent, |configs[0].parent|);
  }
}
