module AfforestThreads {
  // Afforest as a parallel program.  Every iteration of a parallel loop is a
  // process of its own that makes one shared-memory access per step, so every
  // assignment of iterations to threads and every interleaving is covered.

  import opened Components
  import opened Compression

  datatype Stage = Sample(r: nat) | CompressSample(r: nat) | LinkRest(skip: int) | CompressLast | Done

  datatype Pc =
    // LinkRest: about to compare the own label with the skipped one
    | CheckLabel
    // Link on the k-th edge of the process
    | NextEdge
    | HaveP1(p1: nat)
    | Test(p1: nat, p2: nat)
    | HaveHigh(p1: nat, p2: nat, pHigh: nat)
    | Reload1(high: nat, low: nat)
    | Reload2(high: nat, low: nat, x: nat)
    | Reload3(high: nat, low: nat, p1: nat)
    // Compress on the own vertex
    | Crawling(c: Crawl)
    | Skipped
    | Finished

  // k counts the edges that have been linked.
  datatype Proc = Proc(k: nat, pc: Pc)

  datatype State = State(comp: seq<nat>, stage: Stage, procs: seq<Proc>)

  // neighbor_rounds becomes an unsigned offset on the way to the row, so a
  // negative number lies beyond every row; the offset stops at the row's end.
  function SkipOffset(rounds: int, length: nat): (r: nat)
    ensures r <= length
  {
    if rounds < 0 || rounds > length then length else rounds
  }

  // The edges that the iteration of u links, in order.
  function EdgesOf(g: Graph, rounds: int, stage: Stage, u: nat): seq<nat>
    requires u < |g.outs| == |g.ins|
  {
    match stage
    case Sample(r) => if r < |g.outs[u]| then [g.outs[u][r]] else []
    case LinkRest(_) => g.outs[u][SkipOffset(rounds, |g.outs[u]|)..] + if g.directed then g.ins[u] else []
    case _ => []
  }

  function FirstPc(stage: Stage): Pc {
    match stage
    case Sample(_) => NextEdge
    case LinkRest(_) => CheckLabel
    case CompressSample(_) => Crawling(Look1)
    case CompressLast => Crawling(Look1)
    case Done => Finished
  }

  // The loop after the present one; `skip` is the label the sampling returns.
  function NextStage(rounds: int, stage: Stage, skip: int): Stage {
    match stage
    case Sample(r) => CompressSample(r)
    case CompressSample(r) => if r + 1 < rounds then Sample(r + 1) else LinkRest(skip)
    case LinkRest(_) => CompressLast
    case CompressLast => Done
    case Done => Done
  }

  function Enter(g: Graph, comp: seq<nat>, stage: Stage): State {
    State(comp, stage, seq(g.N(), _ => Proc(0, FirstPc(stage))))
  }

  function Initial(g: Graph, rounds: int, skip: int): State {
    Enter(g, seq(g.N(), n => n), if 0 < rounds then Sample(0) else LinkRest(skip))
  }

  predicate AtRest(pc: Pc) { pc.Skipped? || pc.Finished? || pc == Crawling(Stopped) }

  datatype Move = Run(u: nat) | Barrier(skip: int)

  predicate InRange(comp: seq<nat>, pc: Pc) {
    match pc
    case HaveP1(p1) => p1 < |comp|
    case Test(p1, p2) => p1 < |comp| && p2 < |comp|
    case HaveHigh(p1, p2, _) => p1 < |comp| && p2 < |comp|
    case Reload1(high, low) => high < |comp| && low < |comp|
    case Reload2(high, low, x) => x < |comp| && low < |comp|
    case Reload3(high, low, p1) => low < |comp|
    case Crawling(c) => Readable(comp, c)
    case _ => true
  }

  predicate Enabled(g: Graph, rounds: int, s: State, m: Move) {
    && |g.ins| == |g.outs| == |s.comp| == |s.procs|
    && match m
       case Run(u) =>
         && u < |s.procs| && !AtRest(s.procs[u].pc) && InRange(s.comp, s.procs[u].pc)
         && (s.procs[u].pc.HaveP1? ==>
             s.procs[u].k < |EdgesOf(g, rounds, s.stage, u)| && EdgesOf(g, rounds, s.stage, u)[s.procs[u].k] < |s.comp|)
       case Barrier(_) => s.stage != Done && forall u | 0 <= u < |s.procs| :: AtRest(s.procs[u].pc)
  }

  function High(p1: nat, p2: nat): nat { if p1 > p2 then p1 else p2 }
  function Low(p1: nat, p2: nat): nat { p1 + p2 - High(p1, p2) }

  // One step of the process of u with the edges `edges`.
  function Step(edges: seq<nat>, skip: int, comp: seq<nat>, u: nat, p: Proc): (seq<nat>, Proc)
    requires u < |comp| && !AtRest(p.pc) && InRange(comp, p.pc)
    requires p.pc.HaveP1? ==> p.k < |edges| && edges[p.k] < |comp|
  {
    var linked := Proc(p.k + 1, NextEdge);
    match p.pc
    case CheckLabel => (comp, p.(pc := if comp[u] == skip then Skipped else NextEdge))
    case NextEdge => (comp, p.(pc := if p.k < |edges| then HaveP1(comp[u]) else Finished))
    case HaveP1(p1) => (comp, p.(pc := Test(p1, comp[edges[p.k]])))
    case Test(p1, p2) =>
      (comp, if p1 != p2 then p.(pc := HaveHigh(p1, p2, comp[High(p1, p2)])) else linked)
    case HaveHigh(p1, p2, pHigh) =>
      var high, low := High(p1, p2), Low(p1, p2);
      if pHigh == low then (comp, linked)
      else if pHigh == high && comp[high] == high then (comp[high := low], linked)
      else (comp, p.(pc := Reload1(high, low)))
    case Reload1(high, low) => (comp, p.(pc := Reload2(high, low, comp[high])))
    case Reload2(high, low, x) => (comp, p.(pc := Reload3(high, low, comp[x])))
    case Reload3(high, low, p1) => (comp, p.(pc := Test(p1, comp[low])))
    case Crawling(c) =>
      var (comp', c') := CrawlStep(comp, u, c);
      (comp', p.(pc := Crawling(c')))
  }

  function SkipOf(stage: Stage): int { if stage.LinkRest? then stage.skip else -1 }

  function Apply(g: Graph, rounds: int, s: State, m: Move): State
    requires Enabled(g, rounds, s, m)
  {
    match m
    case Run(u) =>
      var (comp', p') := Step(EdgesOf(g, rounds, s.stage, u), SkipOf(s.stage), s.comp, u, s.procs[u]);
      s.(comp := comp', procs := s.procs[u := p'])
    case Barrier(skip) => Enter(g, s.comp, NextStage(rounds, s.stage, skip))
  }

  // ---------------------------------------------------------------- invariant

  ghost predicate Linked(comp: seq<nat>, u: nat, edges: seq<nat>, k: nat) {
    forall j: nat | j < k && j < |edges| :: Same(comp, u, edges[j])
  }

  // {p1, p2} lie in the trees of {u, v}.
  ghost predicate InFlight(comp: seq<nat>, u: nat, v: nat, p1: nat, p2: nat) {
    || (Same(comp, p1, u) && Same(comp, p2, v))
    || (Same(comp, p1, v) && Same(comp, p2, u))
  }

  ghost predicate LinkOk(g: Graph, comp: seq<nat>, edges: seq<nat>, skip: int, u: nat, p: Proc)
    requires u < |comp|
  {
    && p.k <= |edges|
    && Linked(comp, u, edges, p.k)
    && (forall j | 0 <= j < |edges| :: edges[j] < |comp| && Adjacent(g, u, edges[j]))
    && match p.pc
       case CheckLabel => p.k == 0
       case NextEdge => true
       case HaveP1(p1) => p.k < |edges| && Same(comp, p1, u) && p1 < |comp|
       case Test(p1, p2) => p.k < |edges| && InFlight(comp, u, edges[p.k], p1, p2)
       case HaveHigh(p1, p2, pHigh) =>
         && p.k < |edges| && InFlight(comp, u, edges[p.k], p1, p2) && p1 != p2
         && (pHigh == Low(p1, p2) ==> Same(comp, p1, p2))
         && (pHigh != High(p1, p2) ==> comp[High(p1, p2)] < High(p1, p2))
       case Reload1(high, low) =>
         p.k < |edges| && InFlight(comp, u, edges[p.k], high, low) && low < high && comp[high] < high
       case Reload2(high, low, x) =>
         p.k < |edges| && InFlight(comp, u, edges[p.k], high, low) && low < high && Same(comp, x, high) && x < high
       case Reload3(high, low, p1) =>
         p.k < |edges| && InFlight(comp, u, edges[p.k], p1, low) && low < high && p1 < high
       case Skipped => 0 <= skip && Same(comp, u, skip)
       case Finished => p.k == |edges|
       case _ => false
  }

  // The first r neighbours of every vertex have been linked to it.
  ghost predicate SampledUpTo(g: Graph, comp: seq<nat>, r: nat) {
    forall u: nat, j: nat | u < g.N() && j < r && j < |g.outs[u]| :: Same(comp, u, g.outs[u][j])
  }

  ghost predicate IsCompress(stage: Stage) { stage.CompressSample? || stage.CompressLast? || stage.Done? }

  // Every edge is joined, unless it leads into the tree of c.
  ghost predicate JoinedExcept(g: Graph, comp: seq<nat>, c: int) {
    forall u: nat, j: nat | u < g.N() && j < |g.outs[u]| ::
      Same(comp, u, g.outs[u][j]) || (0 <= c && Same(comp, g.outs[u][j], c))
  }

  // What the linking loops achieve.
  ghost predicate AfterLinks(g: Graph, rounds: int, comp: seq<nat>) {
    if rounds >= 0 then EdgesJoined(g, comp) else g.directed ==> exists c: int :: JoinedExcept(g, comp, c)
  }

  ghost predicate StageOk(g: Graph, rounds: int, s: State) {
    match s.stage
    case Sample(r) => r < rounds && SampledUpTo(g, s.comp, r)
    case CompressSample(r) => r < rounds && SampledUpTo(g, s.comp, r + 1)
    case LinkRest(_) => SampledUpTo(g, s.comp, if rounds >= 0 then rounds else 0)
    case CompressLast => AfterLinks(g, rounds, s.comp)
    case Done => AfterLinks(g, rounds, s.comp) && Flat(s.comp)
  }

  ghost predicate ProcOk(g: Graph, rounds: int, s: State, u: nat)
    requires u < |s.comp| == |s.procs| && |g.outs| == |g.ins| == |s.comp| && Forest(s.comp)
  {
    if IsCompress(s.stage)
    then if s.stage.Done? then s.procs[u].pc.Finished?
      else s.procs[u].pc.Crawling? && CrawlOk(s.comp, u, s.procs[u].pc.c)
    else LinkOk(g, s.comp, EdgesOf(g, rounds, s.stage, u), SkipOf(s.stage), u, s.procs[u])
  }

  ghost predicate Inv(g: Graph, rounds: int, s: State) {
    && g.Valid()
    && TreesConnected(g, s.comp)
    && |s.procs| == |s.comp|
    && StageOk(g, rounds, s)
    && forall u: nat | u < |s.procs| :: ProcOk(g, rounds, s, u)
  }

  // ------------------------------------------------------- every step keeps it

  // What one write by some process does to everybody else during linking.
  ghost predicate Merged(comp: seq<nat>, comp': seq<nat>) {
    && |comp'| == |comp| && Forest(comp')
    && (forall a, b | Same(comp, a, b) :: Same(comp', a, b))
    && (forall x | 0 <= x < |comp| :: comp[x] < x ==> comp'[x] == comp[x])
  }

  lemma HookMerges(comp: seq<nat>, h: nat, l: nat)
    requires Forest(comp) && l < h < |comp| && comp[h] == h
    ensures Merged(comp, comp[h := l])
    ensures Same(comp[h := l], h, l)
  {
    forall a, b | Same(comp, a, b) ensures Same(comp[h := l], a, b) { HookKeepsSame(comp, h, l, a, b); }
    RootAfterHook(comp, h, l, h);
    RootAfterHook(comp, h, l, l);
    RootProperties(comp, h);
    RootProperties(comp, l);
  }

  lemma LinkOkAfterMerge(g: Graph, comp: seq<nat>, comp': seq<nat>, edges: seq<nat>, skip: int, u: nat, p: Proc)
    requires u < |comp| && Merged(comp, comp') && LinkOk(g, comp, edges, skip, u, p)
    ensures LinkOk(g, comp', edges, skip, u, p)
  {
  }

  // The two parents read so far are in the trees of the edge, so the edge may
  // be hooked.
  lemma HookIsConnected(g: Graph, comp: seq<nat>, u: nat, v: nat, p1: nat, p2: nat)
    requires TreesConnected(g, comp) && Adjacent(g, u, v) && InFlight(comp, u, v, p1, p2)
    ensures Connected(g, p1, p2) && Connected(g, p2, p1)
  {
    var straight := Same(comp, p1, u) && Same(comp, p2, v);
    var a, b := if straight then u else v, if straight then v else u;
    assert Adjacent(g, a, b);
    SameIsConnected(g, comp, p1, a);
    SameIsConnected(g, comp, b, p2);
    ConnectedEdge(g, a, b);
    ConnectedTransitive(g, p1, a, b);
    ConnectedTransitive(g, p1, b, p2);
    ConnectedSymmetric(g, p1, p2);
  }

  lemma ParentIsSame(comp: seq<nat>, x: nat)
    requires Forest(comp) && x < |comp|
    ensures Same(comp, comp[x], x)
  {
    RootProperties(comp, x);
  }

  // Reading steps.
  lemma ReadStep(g: Graph, comp: seq<nat>, edges: seq<nat>, skip: int, u: nat, p: Proc)
    requires TreesConnected(g, comp) && u < |comp| && LinkOk(g, comp, edges, skip, u, p)
    requires p.pc.CheckLabel? || p.pc.NextEdge? || p.pc.HaveP1? || p.pc.Test?
    ensures InRange(comp, p.pc) && (p.pc.HaveP1? ==> p.k < |edges| && edges[p.k] < |comp|)
    ensures var (comp', p') := Step(edges, skip, comp, u, p); comp' == comp && LinkOk(g, comp, edges, skip, u, p')
  {
    ParentIsSame(comp, u);
    if p.pc.HaveP1? { ParentIsSame(comp, edges[p.k]); }
    if p.pc.Test? && p.pc.p1 != p.pc.p2 {
      ParentIsSame(comp, High(p.pc.p1, p.pc.p2));
    }
  }

  // After a hook that did not succeed, the pair moves down.
  lemma ReloadStep(g: Graph, comp: seq<nat>, edges: seq<nat>, skip: int, u: nat, p: Proc)
    requires TreesConnected(g, comp) && u < |comp| && LinkOk(g, comp, edges, skip, u, p)
    requires p.pc.Reload1? || p.pc.Reload2? || p.pc.Reload3?
    ensures InRange(comp, p.pc)
    ensures var (comp', p') := Step(edges, skip, comp, u, p); comp' == comp && LinkOk(g, comp, edges, skip, u, p')
  {
    match p.pc {
      case Reload1(high, low) => ParentIsSame(comp, high);
      case Reload2(high, low, x) => ParentIsSame(comp, x);
      case Reload3(high, low, p1) => ParentIsSame(comp, low);
    }
  }

  // The compare-and-swap that succeeds.
  lemma HookStep(g: Graph, comp: seq<nat>, edges: seq<nat>, skip: int, u: nat, p: Proc, high: nat, low: nat)
    requires TreesConnected(g, comp) && u < |comp| && LinkOk(g, comp, edges, skip, u, p) && p.pc.HaveHigh?
    requires high == High(p.pc.p1, p.pc.p2) && low == Low(p.pc.p1, p.pc.p2) && high < |comp| && comp[high] == high
    ensures low < high && TreesConnected(g, comp[high := low]) && Merged(comp, comp[high := low])
    ensures LinkOk(g, comp[high := low], edges, skip, u, Proc(p.k + 1, NextEdge))
  {
    hide Root, Connected, Adjacent;
    var HaveHigh(p1, p2, pHigh) := p.pc;
    HookIsConnected(g, comp, u, edges[p.k], p1, p2);
    HookMerges(comp, high, low);
    assert Same(comp[high := low], p1, p2);
    assert Same(comp[high := low], u, edges[p.k]);
  }

  lemma HighStep(g: Graph, comp: seq<nat>, edges: seq<nat>, skip: int, u: nat, p: Proc)
    requires TreesConnected(g, comp) && u < |comp| && LinkOk(g, comp, edges, skip, u, p) && p.pc.HaveHigh?
    ensures InRange(comp, p.pc)
    ensures var (comp', p') := Step(edges, skip, comp, u, p);
      TreesConnected(g, comp') && Merged(comp, comp') && LinkOk(g, comp', edges, skip, u, p')
  {
    hide Root, Connected;
    var HaveHigh(p1, p2, pHigh) := p.pc;
    var high, low := High(p1, p2), Low(p1, p2);
    if pHigh != low && pHigh == high && comp[high] == high {
      HookStep(g, comp, edges, skip, u, p, high, low);
    }
  }

  lemma LinkStep(g: Graph, comp: seq<nat>, edges: seq<nat>, skip: int, u: nat, p: Proc)
    requires TreesConnected(g, comp) && u < |comp| && LinkOk(g, comp, edges, skip, u, p) && !AtRest(p.pc)
    ensures InRange(comp, p.pc) && (p.pc.HaveP1? ==> p.k < |edges| && edges[p.k] < |comp|)
    ensures var (comp', p') := Step(edges, skip, comp, u, p);
      TreesConnected(g, comp') && Merged(comp, comp') && LinkOk(g, comp', edges, skip, u, p')
  {
    match p.pc {
      case HaveHigh(_, _, _) => HighStep(g, comp, edges, skip, u, p);
      case Reload1(_, _) => ReloadStep(g, comp, edges, skip, u, p);
      case Reload2(_, _, _) => ReloadStep(g, comp, edges, skip, u, p);
      case Reload3(_, _, _) => ReloadStep(g, comp, edges, skip, u, p);
      case _ => ReadStep(g, comp, edges, skip, u, p);
    }
  }

  lemma SampledAfter(g: Graph, comp: seq<nat>, comp': seq<nat>, r: nat)
    requires |comp'| == |comp| && (forall a, b | Same(comp, a, b) :: Same(comp', a, b))
    ensures SampledUpTo(g, comp, r) ==> SampledUpTo(g, comp', r)
    ensures forall rounds: int :: AfterLinks(g, rounds, comp) ==> AfterLinks(g, rounds, comp')
  {
    forall c: int | JoinedExcept(g, comp, c) ensures JoinedExcept(g, comp', c) {}
  }

  lemma RunKeepsInv(g: Graph, rounds: int, s: State, u: nat)
    requires Inv(g, rounds, s) && u < |s.procs| && !AtRest(s.procs[u].pc)
    ensures Enabled(g, rounds, s, Run(u)) && Inv(g, rounds, Apply(g, rounds, s, Run(u)))
  {
    hide Root, Connected, LinkOk, EdgesJoined, JoinedExcept, CrawlOk, Flat;
    assert ProcOk(g, rounds, s, u);
    var edges, skip, p := EdgesOf(g, rounds, s.stage, u), SkipOf(s.stage), s.procs[u];
    if IsCompress(s.stage) {
      OwnStep(g, s.comp, u, p.pc.c);
      var s' := Apply(g, rounds, s, Run(u));
      forall a, b | Same(s.comp, a, b) ensures Same(s'.comp, a, b) {}
      SampledAfter(g, s.comp, s'.comp, if s.stage.CompressSample? then s.stage.r + 1 else 0);
      forall x: nat | x < |s.procs| ensures ProcOk(g, rounds, s', x) {
        assert ProcOk(g, rounds, s, x);
        if x != u { OtherStep(g, s.comp, u, p.pc.c, x, s.procs[x].pc.c); }
      }
    } else {
      LinkStep(g, s.comp, edges, skip, u, p);
      var s' := Apply(g, rounds, s, Run(u));
      SampledAfter(g, s.comp, s'.comp, if s.stage.Sample? then s.stage.r else if rounds >= 0 then rounds else 0);
      forall x: nat | x < |s.procs| ensures ProcOk(g, rounds, s', x) {
        assert ProcOk(g, rounds, s, x);
        if x != u { LinkOkAfterMerge(g, s.comp, s'.comp, EdgesOf(g, rounds, s.stage, x), skip, x, s.procs[x]); }
      }
    }
  }

  lemma EdgesAreAdjacent(g: Graph, rounds: int, stage: Stage, u: nat)
    requires g.Valid() && u < g.N()
    ensures forall j | 0 <= j < |EdgesOf(g, rounds, stage, u)| ::
      EdgesOf(g, rounds, stage, u)[j] < g.N() && Adjacent(g, u, EdgesOf(g, rounds, stage, u)[j])
  {
    var edges := EdgesOf(g, rounds, stage, u);
    forall j | 0 <= j < |edges| ensures edges[j] < g.N() && Adjacent(g, u, edges[j]) {
      assert edges[j] in g.outs[u] || edges[j] in g.ins[u];
    }
  }

  // Entering a loop: nothing has been done yet.
  lemma EnterOk(g: Graph, rounds: int, comp: seq<nat>, stage: Stage)
    requires g.Valid() && TreesConnected(g, comp) && StageOk(g, rounds, Enter(g, comp, stage))
    ensures Inv(g, rounds, Enter(g, comp, stage))
  {
    var s := Enter(g, comp, stage);
    forall u: nat | u < |s.procs| ensures ProcOk(g, rounds, s, u) { EdgesAreAdjacent(g, rounds, stage, u); }
  }

  lemma SampleDone(g: Graph, rounds: int, s: State)
    requires Inv(g, rounds, s) && s.stage.Sample? && forall u | 0 <= u < |s.procs| :: AtRest(s.procs[u].pc)
    ensures SampledUpTo(g, s.comp, s.stage.r + 1)
  {
    forall u: nat, j: nat | u < g.N() && j < s.stage.r + 1 && j < |g.outs[u]| ensures Same(s.comp, u, g.outs[u][j]) {
      assert ProcOk(g, rounds, s, u);
      if j == s.stage.r {
        assert EdgesOf(g, rounds, s.stage, u)[0] == g.outs[u][j];
      }
    }
  }

  // In the last linking loop a process has linked all its edges, or its vertex
  // is in the tree of the skipped label.
  ghost predicate LinkedOrSkipped(g: Graph, rounds: nat, s: State, u: nat)
    requires g.Valid() && u < g.N()
  {
    || Linked(s.comp, u, EdgesOf(g, rounds, s.stage, u), |EdgesOf(g, rounds, s.stage, u)|)
    || (0 <= SkipOf(s.stage) && Same(s.comp, u, SkipOf(s.stage)))
  }

  // The edge (u, v) is joined: it was sampled, or linked from one of its ends,
  // or both ends already share the skipped tree.
  lemma EdgeJoined(g: Graph, rounds: nat, s: State, u: nat, j: nat)
    requires g.Valid() && s.stage.LinkRest? && u < g.N() == |s.comp| && j < |g.outs[u]|
      && SampledUpTo(g, s.comp, rounds)
    requires forall x: nat | x < g.N() :: LinkedOrSkipped(g, rounds, s, x)
    ensures Same(s.comp, u, g.outs[u][j])
  {
    var v := g.outs[u][j];
    if j >= rounds {
      var mine, theirs := EdgesOf(g, rounds, s.stage, u), EdgesOf(g, rounds, s.stage, v);
      assert mine[j - rounds] == v;
      assert LinkedOrSkipped(g, rounds, s, u) && LinkedOrSkipped(g, rounds, s, v);
      if Linked(s.comp, u, mine, |mine|) {
      } else if Linked(s.comp, v, theirs, |theirs|) {
        assert v in g.outs[u];
        assert u in g.ins[v];
        var i :| 0 <= i < |g.ins[v]| && g.ins[v][i] == u;
        if g.directed {
          assert theirs[|theirs| - |g.ins[v]| + i] == u;
        } else if i >= rounds {
          assert theirs[i - rounds] == u;
        }
      }
    }
  }

  lemma LinkRestDone(g: Graph, rounds: nat, s: State)
    requires Inv(g, rounds, s) && s.stage.LinkRest? && forall u | 0 <= u < |s.procs| :: AtRest(s.procs[u].pc)
    ensures EdgesJoined(g, s.comp)
  {
    forall x: nat | x < g.N() ensures LinkedOrSkipped(g, rounds, s, x) { assert ProcOk(g, rounds, s, x); }
    forall u: nat, j: nat | u < g.N() && j < |g.outs[u]| ensures Same(s.comp, u, g.outs[u][j]) {
      EdgeJoined(g, rounds, s, u, j);
    }
  }

  // A process at rest has linked all its edges, or was skipped.
  lemma AtRestLinked(g: Graph, comp: seq<nat>, edges: seq<nat>, skip: int, v: nat, p: Proc, i: nat)
    requires v < |comp| && LinkOk(g, comp, edges, skip, v, p) && AtRest(p.pc) && i < |edges|
    ensures Same(comp, edges[i], v) || (0 <= skip && Same(comp, v, skip))
  {
    hide Root, Adjacent;
  }

  // With a negative number of rounds a directed edge is linked from its head only.
  lemma HeadDone(g: Graph, rounds: int, s: State, u: nat, v: nat)
    requires Inv(g, rounds, s) && rounds < 0 && g.directed && s.stage.LinkRest?
    requires u < g.N() && v < g.N() && u in g.ins[v] && AtRest(s.procs[v].pc)
    ensures Same(s.comp, u, v) || (0 <= SkipOf(s.stage) && Same(s.comp, v, SkipOf(s.stage)))
  {
    hide Root, Connected, StageOk, LinkOk, Same;
    assert ProcOk(g, rounds, s, v);
    var i :| 0 <= i < |g.ins[v]| && g.ins[v][i] == u;
    assert EdgesOf(g, rounds, s.stage, v) == g.ins[v];
    AtRestLinked(g, s.comp, g.ins[v], SkipOf(s.stage), v, s.procs[v], i);
  }

  lemma HeadsDone(g: Graph, rounds: int, s: State)
    requires Inv(g, rounds, s) && rounds < 0 && g.directed && s.stage.LinkRest?
    requires forall u | 0 <= u < |s.procs| :: AtRest(s.procs[u].pc)
    ensures JoinedExcept(g, s.comp, SkipOf(s.stage))
  {
    hide Root, Connected, StageOk, ProcOk, Same;
    forall u: nat, j: nat | u < g.N() && j < |g.outs[u]|
      ensures Same(s.comp, u, g.outs[u][j]) || (0 <= SkipOf(s.stage) && Same(s.comp, g.outs[u][j], SkipOf(s.stage)))
    {
      var v := g.outs[u][j];
      assert v in g.outs[u] && u in g.ins[v];
      HeadDone(g, rounds, s, u, v);
    }
  }

  lemma BarrierKeepsInv(g: Graph, rounds: int, s: State, skip: int)
    requires Inv(g, rounds, s) && Enabled(g, rounds, s, Barrier(skip))
    ensures Inv(g, rounds, Apply(g, rounds, s, Barrier(skip)))
  {
    match s.stage {
      case Sample(r) => SampleDone(g, rounds, s);
      case CompressSample(r) =>
      case LinkRest(_) =>
        if rounds >= 0 {
          LinkRestDone(g, rounds, s);
        } else if g.directed {
          HeadsDone(g, rounds, s);
        }
      case CompressLast =>
        forall x: nat | x < |s.comp| ensures CrawlOk(s.comp, x, Stopped) { assert ProcOk(g, rounds, s, x); }
        AllStoppedIsFlat(s.comp);
      case Done =>
    }
    EnterOk(g, rounds, s.comp, NextStage(rounds, s.stage, skip));
  }

  lemma StepKeepsInv(g: Graph, rounds: int, s: State, m: Move)
    requires Inv(g, rounds, s) && Enabled(g, rounds, s, m)
    ensures Inv(g, rounds, Apply(g, rounds, s, m))
  {
    match m {
      case Run(u) => RunKeepsInv(g, rounds, s, u);
      case Barrier(skip) => BarrierKeepsInv(g, rounds, s, skip);
    }
  }

  lemma InitialInv(g: Graph, rounds: int, skip: int)
    requires g.Valid()
    ensures Inv(g, rounds, Initial(g, rounds, skip))
  {
    var comp := seq(g.N(), n => n);
    forall x: nat | x < g.N() ensures Connected(g, x, comp[x]) { ConnectedReflexive(g, x); }
    EnterOk(g, rounds, comp, if 0 < rounds then Sample(0) else LinkRest(skip));
  }

  ghost predicate IsRun(g: Graph, rounds: int, states: seq<State>, moves: seq<Move>) {
    && |states| == |moves| + 1
    && forall i | 0 <= i < |moves| ::
      Enabled(g, rounds, states[i], moves[i]) && states[i + 1] == Apply(g, rounds, states[i], moves[i])
  }

  lemma {:induction false} RunInv(g: Graph, rounds: int, states: seq<State>, moves: seq<Move>, i: nat)
    requires IsRun(g, rounds, states, moves) && Inv(g, rounds, states[0]) && i < |states|
    ensures Inv(g, rounds, states[i])
  {
    if i > 0 {
      RunInv(g, rounds, states, moves, i - 1);
      StepKeepsInv(g, rounds, states[i - 1], moves[i - 1]);
    }
  }

  // Afforest labels every vertex with the smallest vertex of its component,
  // whatever the interleaving, the number of rounds and the skipped label.
  lemma AfforestIsCorrect(g: Graph, rounds: nat, skip: int, states: seq<State>, moves: seq<Move>)
    requires g.Valid() && IsRun(g, rounds, states, moves) && states[0] == Initial(g, rounds, skip)
    requires states[|moves|].stage == Done
    ensures MinLabels(g, states[|moves|].comp)
    ensures LabelsMatch(g, states[|moves|].comp)
  {
    InitialInv(g, rounds, skip);
    RunInv(g, rounds, states, moves, |moves|);
    JoinedFlatIsMin(g, states[|moves|].comp);
    MinLabelsMatch(g, states[|moves|].comp);
  }

  // ------------------------------------------------------------ negative rounds

  ghost predicate HasCrossEdge(g: Graph) {
    exists u: nat, j: nat :: u < g.N() && j < |g.outs[u]| && g.outs[u][j] != u
  }

  // With a negative number of rounds an undirected graph is never linked.
  ghost predicate Untouched(g: Graph, s: State) {
    && |s.comp| == g.N() && |s.procs| == g.N()
    && !s.stage.Sample?
    && (forall x | 0 <= x < |s.comp| :: s.comp[x] == x)
    && forall u | 0 <= u < |s.procs| ::
         s.procs[u].k == 0 && match s.procs[u].pc
           case CheckLabel => s.stage.LinkRest?
           case NextEdge => s.stage.LinkRest?
           case Crawling(c) => IsCompress(s.stage) && (c.Look1? || c.Stopped? || c == Look2(u))
           case Skipped => true
           case Finished => true
           case _ => false
  }

  lemma {:induction false} StaysUntouched(g: Graph, rounds: int, states: seq<State>, moves: seq<Move>, i: nat)
    requires g.Valid() && !g.directed && rounds < 0
    requires IsRun(g, rounds, states, moves) && Untouched(g, states[0]) && i < |states|
    ensures Untouched(g, states[i])
  {
    if i > 0 { StaysUntouched(g, rounds, states, moves, i - 1); }
  }

  // The result is right for a negative number of rounds on an undirected graph
  // exactly when no edge joins two different vertices.
  lemma NegativeRounds(g: Graph, rounds: int, skip: int, states: seq<State>, moves: seq<Move>)
    requires g.Valid() && !g.directed && rounds < 0
    requires IsRun(g, rounds, states, moves) && states[0] == Initial(g, rounds, skip)
    requires states[|moves|].stage == Done
    ensures MinLabels(g, states[|moves|].comp) <==> !HasCrossEdge(g)
  {
    StaysUntouched(g, rounds, states, moves, |moves|);
    var comp := states[|moves|].comp;
    if HasCrossEdge(g) {
      var u: nat, j: nat :| u < g.N() && j < |g.outs[u]| && g.outs[u][j] != u;
      var v := g.outs[u][j];
      assert v in g.outs[u];
      ConnectedEdge(g, u, v);
      ConnectedSymmetric(g, u, v);
      assert !(comp[u] <= v && comp[v] <= u);
    } else {
      forall x: nat | x < g.N() ensures Connected(g, x, comp[x]) { ConnectedReflexive(g, x); }
      assert TreesConnected(g, comp) && Flat(comp);
      forall u: nat, j: nat | u < g.N() && j < |g.outs[u]| ensures Same(comp, u, g.outs[u][j]) {}
      JoinedFlatIsMin(g, comp);
    }
  }

  // On a directed graph every edge is linked from its head, unless the head is
  // skipped: all edges into labels other than one are joined, and the result is
  // right exactly when none enters that label from outside.
  lemma NegativeRoundsDirected(g: Graph, rounds: int, skip: int, states: seq<State>, moves: seq<Move>)
    requires g.Valid() && g.directed && rounds < 0
    requires IsRun(g, rounds, states, moves) && states[0] == Initial(g, rounds, skip)
    requires states[|moves|].stage == Done
    ensures var comp := states[|moves|].comp;
      |comp| == g.N() && exists c: int ::
        JoinedOutside(g, comp, c) && (MinLabels(g, comp) <==> NothingEnters(g, comp, c))
  {
    InitialInv(g, rounds, skip);
    RunInv(g, rounds, states, moves, |moves|);
    var comp := states[|moves|].comp;
    var c: int :| JoinedExcept(g, comp, c);
    var root: int := if 0 <= c < |comp| then comp[c] else -1;
    HeadsOutside(g, comp, c, root);
    if NothingEnters(g, comp, root) { NothingLost(g, comp, root); }
    if MinLabels(g, comp) { RightIsJoined(g, comp, root); }
  }

  lemma HeadsOutside(g: Graph, comp: seq<nat>, c: int, root: int)
    requires g.Valid() && |comp| == g.N() && Forest(comp) && Flat(comp) && JoinedExcept(g, comp, c)
    requires root == if 0 <= c < |comp| then comp[c] else -1
    ensures JoinedOutside(g, comp, root)
  {
    forall u: nat, j: nat | u < g.N() && j < |g.outs[u]| && comp[g.outs[u][j]] != root ensures comp[u]
      == comp[g.outs[u][j]] {
      FlatSame(comp, u, g.outs[u][j]);
      if 0 <= c < |comp| { FlatSame(comp, g.outs[u][j], c); }
    }
  }

  lemma NothingLost(g: Graph, comp: seq<nat>, root: int)
    requires g.Valid() && |comp| == g.N() && TreesConnected(g, comp) && Flat(comp)
    requires JoinedOutside(g, comp, root) && NothingEnters(g, comp, root)
    ensures MinLabels(g, comp)
  {
    forall u: nat, j: nat | u < g.N() && j < |g.outs[u]| ensures Same(comp, u, g.outs[u][j]) {
      FlatSame(comp, u, g.outs[u][j]);
    }
    JoinedFlatIsMin(g, comp);
  }

  lemma RightIsJoined(g: Graph, comp: seq<nat>, root: int)
    requires g.Valid() && |comp| == g.N() && MinLabels(g, comp)
    ensures NothingEnters(g, comp, root)
  {
    MinLabelsMatch(g, comp);
    forall u: nat, j: nat | u < g.N() && j < |g.outs[u]| ensures comp[u] == comp[g.outs[u][j]] {
      assert g.outs[u][j] in g.outs[u];
      ConnectedEdge(g, u, g.outs[u][j]);
    }
  }

  // In a flat forest a label is a root.
  lemma FlatSame(comp: seq<nat>, a: nat, b: nat)
    requires Forest(comp) && Flat(comp) && a < |comp|
    ensures Same(comp, a, b) <==> b < |comp| && comp[a] == comp[b]
  {
    RootProperties(comp, a);
    RootProperties(comp, comp[a]);
    if b < |comp| {
      RootProperties(comp, b);
      RootProperties(comp, comp[b]);
    }
  }

  ghost predicate JoinedOutside(g: Graph, comp: seq<nat>, root: int)
    requires g.Valid() && |comp| == g.N()
  {
    forall u: nat, j: nat | u < g.N() && j < |g.outs[u]| :: comp[g.outs[u][j]] != root ==> comp[u] == comp[g.outs[u][j]]
  }

  ghost predicate NothingEnters(g: Graph, comp: seq<nat>, root: int)
    requires g.Valid() && |comp| == g.N()
  {
    forall u: nat, j: nat | u < g.N() && j < |g.outs[u]| :: comp[g.outs[u][j]] == root ==> comp[u] == root
  }

  // Every edge between different vertices lies on a directed cycle.
  ghost predicate EdgesReturn(g: Graph) {
    forall u: nat, j: nat | u < g.N() && j < |g.outs[u]| :: Leads(g, g.outs[u][j], u)
  }

  ghost predicate IsTrail(g: Graph, p: seq<nat>) {
    && p != [] && (forall i | 0 <= i < |p| :: p[i] < g.N())
    && forall i | 0 <= i < |p| - 1 :: p[i + 1] in g.outs[p[i]]
  }

  // Edges followed forwards lead from a to b.
  ghost predicate Leads(g: Graph, a: nat, b: nat) {
    exists p :: IsTrail(g, p) && p[0] == a && p[|p| - 1] == b
  }

  // No edge leaves a label that all missed edges lead to.
  lemma {:induction false} TrailStays(g: Graph, comp: seq<nat>, root: int, p: seq<nat>, k: nat)
    requires g.Valid() && |comp| == g.N() && JoinedOutside(g, comp, root)
    requires IsTrail(g, p) && comp[p[0]] == root && k < |p|
    ensures comp[p[k]] == root
  {
    if k > 0 {
      TrailStays(g, comp, root, p, k - 1);
      assert p[k - 1 + 1] in g.outs[p[k - 1]];
      var j :| 0 <= j < |g.outs[p[k - 1]]| && g.outs[p[k - 1]][j] == p[k];
    }
  }

  // A condition on the graph alone: when every edge lies on a cycle, above all
  // when every edge has its reverse, the labels are right for every schedule and
  // every skipped label.
  lemma NegativeRoundsOnCycles(g: Graph, rounds: int, skip: int, states: seq<State>, moves: seq<Move>)
    requires g.Valid() && g.directed && rounds < 0 && EdgesReturn(g)
    requires IsRun(g, rounds, states, moves) && states[0] == Initial(g, rounds, skip)
    requires states[|moves|].stage == Done
    ensures MinLabels(g, states[|moves|].comp)
  {
    NegativeRoundsDirected(g, rounds, skip, states, moves);
    var comp := states[|moves|].comp;
    var c: int :| JoinedOutside(g, comp, c) && (MinLabels(g, comp) <==> NothingEnters(g, comp, c));
    forall u: nat, j: nat | u < g.N() && j < |g.outs[u]| && comp[g.outs[u][j]] == c ensures comp[u] == c {
      assert Leads(g, g.outs[u][j], u);
      var p :| IsTrail(g, p) && p[0] == g.outs[u][j] && p[|p| - 1] == u;
      TrailStays(g, comp, c, p, |p| - 1);
    }
  }

  lemma ReverseReturns(g: Graph)
    requires g.Valid() && forall u: nat, v: nat | u < g.N() && v in g.outs[u] && v != u :: v < g.N() && u in g.outs[v]
    ensures EdgesReturn(g)
  {
    forall u: nat, j: nat | u < g.N() && j < |g.outs[u]| ensures Leads(g, g.outs[u][j], u) {
      var v := g.outs[u][j];
      var p := if v == u then [u] else [v, u];
      assert IsTrail(g, p) && p[0] == v && p[|p| - 1] == u;
    }
  }

  ghost predicate CrawlAvoids(s: nat, x: nat, c: Crawl) {
    match c
    case Look1 => true
    case Look2(a) => a == s <==> x == s
    case Jump1 => x != s
    case Jump2(a) => x != s && a != s
    case Jump3(b) => x != s && b != s
    case Stopped => true
  }

  // No process has read the vertex s or is about to link to it.
  ghost predicate Avoids(g: Graph, s: nat, stage: Stage, x: nat, pc: Pc)
    requires x < g.N() == |g.ins|
  {
    match pc
    case CheckLabel => stage.LinkRest?
    case NextEdge => stage.LinkRest? && x != s
    case HaveP1(p1) => stage.LinkRest? && x != s && p1 != s
    case Test(p1, p2) => stage.LinkRest? && x != s && p1 != s && p2 != s
    case HaveHigh(p1, p2, _) => stage.LinkRest? && x != s && p1 != s && p2 != s
    case Reload1(high, low) => stage.LinkRest? && x != s && high != s && low != s
    case Reload2(high, low, y) => stage.LinkRest? && x != s && high != s && low != s && y != s
    case Reload3(high, low, p1) => stage.LinkRest? && x != s && low != s && p1 != s
    case Crawling(c) => CrawlAvoids(s, x, c)
    case Skipped => true
    case Finished => true
  }

  // The vertex s is a tree of its own and will stay one.
  ghost predicate Solitary(g: Graph, s: nat, st: State) {
    && s < g.N() == |g.ins| == |st.comp| == |st.procs|
    && !st.stage.Sample? && !st.stage.CompressSample? && (st.stage.LinkRest? ==> st.stage.skip == s)
    && OwnTree(st.comp, s)
    && forall x: nat | x < |st.procs| :: Avoids(g, s, st.stage, x, st.procs[x].pc)
  }

  // An edge leads into s from elsewhere, and none leads out.
  ghost predicate EnteredSink(g: Graph, s: nat) {
    && s < g.N() && (forall v | v in g.outs[s] :: v == s)
    && exists u: nat :: u < g.N() && u != s && s in g.outs[u]
  }

  ghost predicate OwnTree(comp: seq<nat>, s: nat) {
    s < |comp| && comp[s] == s && forall x | 0 <= x < |comp| && x != s :: comp[x] != s
  }

  lemma StepAvoids(g: Graph, s: nat, stage: Stage, edges: seq<nat>, comp: seq<nat>, u: nat, p: Proc)
    requires u < g.N() == |g.ins| == |comp| && OwnTree(comp, s) && Avoids(g, s, stage, u, p.pc)
    requires !AtRest(p.pc) && InRange(comp, p.pc)
    requires p.pc.HaveP1? ==> p.k < |edges| && edges[p.k] < |comp| && edges[p.k] != s
    requires stage.LinkRest? ==> stage.skip == s
    ensures var (comp', p') := Step(edges, SkipOf(stage), comp, u, p);
      |comp'| == |comp| && OwnTree(comp', s) && Avoids(g, s, stage, u, p'.pc)
  {
  }

  // The head of an edge links it, and no edge leaves s.
  lemma EdgesMissSink(g: Graph, rounds: int, s: nat, stage: Stage, u: nat, k: nat)
    requires g.Valid() && g.directed && rounds < 0 && EnteredSink(g, s) && u < g.N() && u != s
    requires stage.LinkRest? && k < |EdgesOf(g, rounds, stage, u)|
    ensures EdgesOf(g, rounds, stage, u)[k] != s
  {
    var x := EdgesOf(g, rounds, stage, u)[k];
    assert x in g.ins[u];
    assert u in g.outs[x];
  }

  lemma RunStaysSolitary(g: Graph, rounds: int, s: nat, st: State, u: nat)
    requires g.Valid() && g.directed && rounds < 0 && EnteredSink(g, s)
    requires Solitary(g, s, st) && Enabled(g, rounds, st, Run(u))
    ensures Solitary(g, s, Apply(g, rounds, st, Run(u)))
  {
    hide OwnTree, CrawlAvoids, EnteredSink, EdgesOf, Step;
    var p := st.procs[u];
    assert Avoids(g, s, st.stage, u, p.pc);
    if p.pc.HaveP1? { EdgesMissSink(g, rounds, s, st.stage, u, p.k); }
    StepAvoids(g, s, st.stage, EdgesOf(g, rounds, st.stage, u), st.comp, u, p);
  }

  lemma StaysSolitary(g: Graph, rounds: int, s: nat, st: State, m: Move)
    requires g.Valid() && g.directed && rounds < 0 && EnteredSink(g, s)
    requires Solitary(g, s, st) && Enabled(g, rounds, st, m)
    ensures Solitary(g, s, Apply(g, rounds, st, m))
  {
    hide OwnTree, EnteredSink;
    if m.Run? { RunStaysSolitary(g, rounds, s, st, m.u); }
  }

  lemma {:induction false} RunSolitary(g: Graph, rounds: int, s: nat, states: seq<State>, moves: seq<Move>, i: nat)
    requires g.Valid() && g.directed && rounds < 0 && EnteredSink(g, s)
    requires IsRun(g, rounds, states, moves) && Solitary(g, s, states[0]) && i < |states|
    ensures Solitary(g, s, states[i])
  {
    if i > 0 {
      RunSolitary(g, rounds, s, states, moves, i - 1);
      StaysSolitary(g, rounds, s, states[i - 1], moves[i - 1]);
    }
  }

  // A failing family: when the skipped label is that of a vertex which edges
  // enter and none leaves, every finished run is wrong.  The smallest such graph
  // is one edge from 0 to 1 with label 1 skipped.
  lemma NegativeRoundsLoseSink(g: Graph, rounds: int, s: nat, states: seq<State>, moves: seq<Move>)
    requires g.Valid() && g.directed && rounds < 0 && EnteredSink(g, s)
    requires IsRun(g, rounds, states, moves) && states[0] == Initial(g, rounds, s)
    requires states[|moves|].stage == Done
    ensures !MinLabels(g, states[|moves|].comp)
  {
    RunSolitary(g, rounds, s, states, moves, |moves|);
    var comp := states[|moves|].comp;
    var u: nat :| u < g.N() && u != s && s in g.outs[u];
    if MinLabels(g, comp) {
      MinLabelsMatch(g, comp);
      ConnectedEdge(g, u, s);
    }
  }

  lemma OneEdgeIsLost()
    ensures var g := Graph(true, [[1], []], [[], [0]]); g.Valid() && EnteredSink(g, 1)
  {
    var g := Graph(true, [[1], []], [[], [0]]);
    assert g.outs[0] == [1] && g.ins[1] == [0] && g.outs[1] == [] && g.ins[0] == [];
    assert 1 in g.outs[0];
  }

  // -------------------------------------------------------------- termination

  function StagesLeft(rounds: int, stage: Stage): nat {
    match stage
    case Sample(r) => if r < rounds then 2 * (rounds - r) + 3 else 0
    case CompressSample(r) => if r < rounds then 2 * (rounds - r) + 2 else 0
    case LinkRest(_) => 2
    case CompressLast => 1
    case Done => 0
  }

  // Edges the process has still to link, counting the end as one.
  function EdgesLeft(g: Graph, rounds: int, stage: Stage, u: nat, p: Proc): nat
    requires u < |g.outs| == |g.ins|
  {
    if AtRest(p.pc) then 0
    else var m := |EdgesOf(g, rounds, stage, u)|; 1 + if p.k <= m then m - p.k else 0
  }

  // Steps inside one edge or one vertex: the sum of the pair falls with every
  // round of Link, the label with every jump of Compress.
  function Height(comp: seq<nat>, u: nat, p: Proc): nat
    requires u < |comp|
  {
    match p.pc
    case CheckLabel => 16 * |comp| + 20
    case NextEdge => 16 * |comp| + 19
    case HaveP1(_) => 16 * |comp| + 18
    case Test(p1, p2) => 8 * (p1 + p2) + 8
    case HaveHigh(p1, p2, _) => 8 * (p1 + p2) + 7
    case Reload1(high, low) => 8 * (high + low) + 6
    case Reload2(high, low, _) => 8 * (high + low) + 5
    case Reload3(high, low, _) => 8 * (high + low) + 4
    case Crawling(c) => CrawlHeight(comp, u, c)
    case Skipped => 0
    case Finished => 0
  }

  function TotalEdgesLeft(g: Graph, rounds: int, stage: Stage, procs: seq<Proc>): nat
    requires |procs| <= |g.outs| == |g.ins|
  {
    if procs == [] then 0
    else
      var m := |procs| - 1;
      TotalEdgesLeft(g, rounds, stage, procs[..m]) + EdgesLeft(g, rounds, stage, m, procs[m])
  }

  function TotalHeight(comp: seq<nat>, procs: seq<Proc>): nat
    requires |procs| <= |comp|
  {
    if procs == [] then 0
    else
      var m := |procs| - 1;
      TotalHeight(comp, procs[..m]) + Height(comp, m, procs[m])
  }

  lemma {:induction false} EdgesLeftUpdate(g: Graph, rounds: int, stage: Stage, procs: seq<Proc>, u: nat, p: Proc)
    requires u < |procs| <= |g.outs| == |g.ins|
    ensures TotalEdgesLeft(g, rounds, stage, procs[u := p])
         == TotalEdgesLeft(g, rounds, stage, procs) - EdgesLeft(g, rounds, stage, u, procs[u])
           + EdgesLeft(g, rounds, stage, u, p)
  {
    var m := |procs| - 1;
    if u == m {
      assert procs[u := p][..m] == procs[..m];
    } else {
      assert procs[u := p][..m] == procs[..m][u := p];
      EdgesLeftUpdate(g, rounds, stage, procs[..m], u, p);
    }
  }

  // A process changes nobody's height but its own.
  lemma {:induction false} HeightUpdate(comp: seq<nat>, comp': seq<nat>, procs: seq<Proc>, procs': seq<Proc>, u: nat)
    requires |procs| == |procs'| <= |comp| == |comp'| && u < |comp|
    requires forall x: nat | x < |procs| && x != u ::
      procs'[x] == procs[x] && Height(comp', x, procs'[x]) == Height(comp, x, procs[x])
    ensures TotalHeight(comp', procs') - TotalHeight(comp, procs)
         == if u < |procs| then Height(comp', u, procs'[u]) - Height(comp, u, procs[u]) else 0
  {
    if procs != [] {
      var m := |procs| - 1;
      HeightUpdate(comp, comp', procs[..m], procs'[..m], u);
    }
  }

  ghost predicate Smaller(g: Graph, rounds: int, s': State, s: State)
    requires |s.procs| == |s'.procs| == |s.comp| == |s'.comp| == |g.outs| == |g.ins|
  {
    var left, left' := StagesLeft(rounds, s.stage), StagesLeft(rounds, s'.stage);
    var edges, edges' := TotalEdgesLeft(g, rounds, s.stage, s.procs), TotalEdgesLeft(g, rounds, s'.stage, s'.procs);
    || left' < left
    || (left' == left && edges' < edges)
    || (left' == left && edges' == edges && TotalHeight(s'.comp, s'.procs) < TotalHeight(s.comp, s.procs))
  }

  ghost predicate Lower(left': nat, height': nat, left: nat, height: nat) {
    left' < left || (left' == left && height' < height)
  }

  lemma LinkShrinks(g: Graph, rounds: int, stage: Stage, comp: seq<nat>, u: nat, p: Proc)
    requires |g.outs| == |g.ins| == |comp| && u < |comp| && Forest(comp) && !AtRest(p.pc)
    requires LinkOk(g, comp, EdgesOf(g, rounds, stage, u), SkipOf(stage), u, p) && InRange(comp, p.pc)
    ensures var (comp', p') := Step(EdgesOf(g, rounds, stage, u), SkipOf(stage), comp, u, p);
      |comp'| == |comp| && Lower(EdgesLeft(g, rounds, stage, u, p'), Height(comp', u, p'),
                                 EdgesLeft(g, rounds, stage, u, p), Height(comp, u, p))
  {
  }

  lemma ProcShrinks(g: Graph, rounds: int, s: State, u: nat)
    requires Inv(g, rounds, s) && Enabled(g, rounds, s, Run(u))
    ensures var s' := Apply(g, rounds, s, Run(u));
      && |s'.comp| == |s.comp|
      && Lower(EdgesLeft(g, rounds, s.stage, u, s'.procs[u]), Height(s'.comp, u, s'.procs[u]),
               EdgesLeft(g, rounds, s.stage, u, s.procs[u]), Height(s.comp, u, s.procs[u]))
  {
    assert ProcOk(g, rounds, s, u);
    if IsCompress(s.stage) {
      OwnStep(g, s.comp, u, s.procs[u].pc.c);
    } else {
      LinkShrinks(g, rounds, s.stage, s.comp, u, s.procs[u]);
    }
  }

  lemma OthersKeepHeight(g: Graph, rounds: int, s: State, u: nat, x: nat)
    requires Inv(g, rounds, s) && Enabled(g, rounds, s, Run(u)) && x < |s.procs| && x != u
    ensures var s' := Apply(g, rounds, s, Run(u));
      |s'.comp| == |s.comp| && s'.procs[x] == s.procs[x]
        && Height(s'.comp, x, s'.procs[x]) == Height(s.comp, x, s.procs[x])
  {
    assert ProcOk(g, rounds, s, u);
    assert ProcOk(g, rounds, s, x);
    if IsCompress(s.stage) { OtherStep(g, s.comp, u, s.procs[u].pc.c, x, s.procs[x].pc.c); }
  }

  // Every move makes the measure smaller; in Link even a lost compare-and-swap
  // lets the process go on with a smaller pair.
  lemma StepShrinks(g: Graph, rounds: int, s: State, m: Move)
    requires Inv(g, rounds, s) && Enabled(g, rounds, s, m)
    ensures var s' := Apply(g, rounds, s, m); |s'.procs| == |s'.comp| == |s.comp| && Smaller(g, rounds, s', s)
  {
    match m {
      case Run(u) =>
        var s' := Apply(g, rounds, s, Run(u));
        ProcShrinks(g, rounds, s, u);
        EdgesLeftUpdate(g, rounds, s.stage, s.procs, u, s'.procs[u]);
        RunKeepsInv(g, rounds, s, u);
        forall x: nat | x < |s.procs| && x != u
          ensures s'.procs[x] == s.procs[x] && Height(s'.comp, x, s'.procs[x]) == Height(s.comp, x, s.procs[x])
        {
          OthersKeepHeight(g, rounds, s, u, x);
        }
        HeightUpdate(s.comp, s'.comp, s.procs, s'.procs, u);
      case Barrier(skip) =>
    }
  }

  // Processes never block each other.
  lemma NeverStuck(g: Graph, rounds: int, s: State)
    requires Inv(g, rounds, s) && s.stage != Done
    ensures exists m :: Enabled(g, rounds, s, m)
  {
    if u: nat :| u < |s.procs| && !AtRest(s.procs[u].pc) {
      RunKeepsInv(g, rounds, s, u);
    } else {
      assert Enabled(g, rounds, s, Barrier(0));
    }
  }

  ghost predicate Steps(g: Graph, rounds: int, s: State, s': State) {
    exists m :: Enabled(g, rounds, s, m) && s' == Apply(g, rounds, s, m)
  }

  // No schedule runs forever.
  lemma {:induction false} EveryScheduleEnds(g: Graph, rounds: int, run: nat -> State, i: nat)
    requires Inv(g, rounds, run(i))
    ensures exists j :: j >= i && !Steps(g, rounds, run(j), run(j + 1))
    decreases StagesLeft(rounds, run(i).stage), TotalEdgesLeft(g, rounds, run(i).stage, run(i).procs),
    TotalHeight(run(i).comp, run(i).procs)
  {
    if Steps(g, rounds, run(i), run(i + 1)) {
      var m :| Enabled(g, rounds, run(i), m) && run(i + 1) == Apply(g, rounds, run(i), m);
      StepKeepsInv(g, rounds, run(i), m);
      StepShrinks(g, rounds, run(i), m);
      EveryScheduleEnds(g, rounds, run, i + 1);
    }
  }
}
