module SearchThreads {
  // The search phase of betweenness centrality as a parallel program.  Within a
  // level each vertex belongs to some thread, and the vertices that its
  // compare-and-swaps win go through that thread's buffer into the shared queue.
  // The levels follow each other across barriers.

  import opened Components
  import opened Layers
  import P = PbfsThreads
  import Q = SlidingQueues
  import S = BrandesSearch
  import Top = TopDownThreads
  import Bfs
  import Lists

  datatype State = State(p: P.State, q: Q.State)

  // Search: one step for vertex u.  Queue: one step of thread t's buffer.
  datatype Move = Search(u: nat) | Queue(t: nat)

  // Thread t has been through all of its vertices.
  ghost predicate AllSearched(g: Graph, depth: seq<int>, level: nat, owner: seq<nat>, procs: seq<P.Proc>, t: nat) {
    forall u: nat | u < g.N() && u < |owner| && u < |depth| && u < |procs| && owner[u] == t && depth[u] == level ::
      procs[u].k >= |g.outs[u]|
  }

  // The last flush of a thread comes after its part of the loop.
  ghost predicate Enabled(g: Graph, depth: seq<int>, level: nat, owner: seq<nat>, st: State, m: Move) {
    match m
    case Search(u) => P.Enabled(g, depth, level, st.p, u) && u < |owner| && owner[u] < |st.q.threads|
    case Queue(t) =>
      && Q.Enabled(st.q, t)
      && (st.q.threads[t].pc.Filling? && st.q.threads[t].todo == [] ==>
          AllSearched(g, depth, level, owner, st.p.procs, t))
  }

  ghost function Apply(g: Graph, depth: seq<int>, level: nat, owner: seq<nat>, size: nat, st: State, m: Move): State
    requires Enabled(g, depth, level, owner, st, m)
  {
    match m
    case Search(u) =>
      var p' := P.Apply(g, depth, level, st.p, u);
      State(p', if |p'.pushed| > |st.p.pushed| then Q.Feed(st.q, owner[u], p'.pushed[|st.p.pushed|]) else st.q)
    case Queue(t) => st.(q := Q.Apply(size, st.q, t))
  }

  ghost function Initial(g: Graph, depth: seq<int>, counts: seq<nat>, succ: set<nat>, shared: seq<nat>, from: nat,
                         threads: nat): State
  {
    State(P.Start(g, depth, counts, succ), Q.State(shared, from, Q.IdleThreads(threads)))
  }

  ghost predicate Finished(g: Graph, depth: seq<int>, level: nat, st: State) {
    P.Finished(g, depth, level, st.p) && forall t | 0 <= t < |st.q.threads| :: st.q.threads[t].pc.Done?
  }

  ghost predicate IsRun(g: Graph, depth: seq<int>, level: nat, owner: seq<nat>, size: nat, states: seq<State>,
                        moves: seq<Move>)
  {
    && |states| == |moves| + 1
    && forall i | 0 <= i < |moves| ::
      && Enabled(g, depth, level, owner, states[i], moves[i])
      && states[i + 1] == Apply(g, depth, level, owner, size, states[i], moves[i])
  }

  // ---------------------------------------------------------------- invariant

  // A thread on its last flush has no vertex left.
  ghost predicate EndOk(g: Graph, depth: seq<int>, level: nat, owner: seq<nat>, procs: seq<P.Proc>, th: Q.Thread,
                        t: nat)
  {
    th.pc.Done? || (th.pc.Copying? && th.todo == []) ==> AllSearched(g, depth, level, owner, procs, t)
  }

  ghost predicate EndsOk(g: Graph, depth: seq<int>, level: nat, owner: seq<nat>, procs: seq<P.Proc>,
                         threads: seq<Q.Thread>)
  {
    forall t: nat {:trigger EndOk(g, depth, level, owner, procs, threads[t], t)} | t < |threads| ::
      EndOk(g, depth, level, owner, procs, threads[t], t)
  }

  ghost predicate InBounds(g: Graph, procs: seq<P.Proc>) {
    |procs| == g.N() && forall u: nat | u < g.N() :: procs[u].k <= |g.outs[u]|
  }

  ghost predicate Inv(g: Graph, s: nat, depth: seq<int>, level: nat, owner: seq<nat>, before: seq<nat>, from: nat,
                      st: State)
  {
    && P.Inv(g, s, depth, level, st.p) && InBounds(g, st.p.procs)
    && from <= |before| && g.N() <= |before| && Bfs.Enqueued(before[..from], depth)
    && Q.Inv(before, from, multiset(st.p.pushed), st.q)
    && EndsOk(g, depth, level, owner, st.p.procs, st.q.threads)
  }

  // Every vertex is queued at most once, so the queue never runs out of cells.
  lemma NewFits(g: Graph, s: nat, depth: seq<int>, level: nat, p: P.State, all: seq<nat>)
    requires P.Inv(g, s, depth, level, p) && Bfs.Enqueued(all, depth)
    ensures |all| + |p.pushed| <= g.N()
    ensures forall i, j | 0 <= i < j < |all + p.pushed| :: (all + p.pushed)[i] != (all + p.pushed)[j]
  {
    forall v | v in p.pushed ensures v < |depth| && depth[v] == -1 {}
    Top.RoomFor(depth, all, p.pushed);
  }

  lemma SearchStep(g: Graph, s: nat, depth: seq<int>, level: nat, owner: seq<nat>, size: nat, before: seq<nat>,
                   from: nat, st: State, u: nat)
    requires Inv(g, s, depth, level, owner, before, from, st) && Enabled(g, depth, level, owner, st, Search(u))
    ensures Inv(g, s, depth, level, owner, before, from, Apply(g, depth, level, owner, size, st, Search(u)))
  {
    hide P.Inv, Q.Inv, Bfs.Enqueued;
    var p' := P.Apply(g, depth, level, st.p, u);
    var st' := Apply(g, depth, level, owner, size, st, Search(u));
    P.StepKeepsInv(g, s, depth, level, st.p, u);
    var t := owner[u];
    assert EndOk(g, depth, level, owner, st.p.procs, st.q.threads[t], t);
    assert !AllSearched(g, depth, level, owner, st.p.procs, t);
    if |p'.pushed| > |st.p.pushed| {
      var v := p'.pushed[|st.p.pushed|];
      assert p'.pushed == st.p.pushed + [v];
      NewFits(g, s, depth, level, p', before[..from]);
      assert |multiset(st.p.pushed)| == |st.p.pushed|;
      Q.FeedStep(before, from, multiset(st.p.pushed), st.q, t, v);
    }
    forall x: nat | x < |st'.q.threads| ensures EndOk(g, depth, level, owner, p'.procs, st'.q.threads[x], x) {
      assert EndOk(g, depth, level, owner, st.p.procs, st.q.threads[x], x);
    }
  }

  lemma QueueStep(g: Graph, s: nat, depth: seq<int>, level: nat, owner: seq<nat>, size: nat, before: seq<nat>,
                  from: nat, st: State, t: nat)
    requires Inv(g, s, depth, level, owner, before, from, st) && Enabled(g, depth, level, owner, st, Queue(t))
    ensures Inv(g, s, depth, level, owner, before, from, Apply(g, depth, level, owner, size, st, Queue(t)))
  {
    hide P.Inv, Q.Inv, Bfs.Enqueued, AllSearched;
    var st' := Apply(g, depth, level, owner, size, st, Queue(t));
    Q.StepKeepsInv(before, from, multiset(st.p.pushed), st.q, size, t);
    forall x: nat | x < |st'.q.threads| ensures EndOk(g, depth, level, owner, st.p.procs, st'.q.threads[x], x) {
      assert EndOk(g, depth, level, owner, st.p.procs, st.q.threads[x], x);
    }
  }

  lemma StepKeepsInv(g: Graph, s: nat, depth: seq<int>, level: nat, owner: seq<nat>, size: nat, before: seq<nat>,
                     from: nat, st: State, m: Move)
    requires Inv(g, s, depth, level, owner, before, from, st) && Enabled(g, depth, level, owner, st, m)
    ensures Inv(g, s, depth, level, owner, before, from, Apply(g, depth, level, owner, size, st, m))
  {
    hide Inv, Enabled, Apply;
    match m
    case Search(u) => SearchStep(g, s, depth, level, owner, size, before, from, st, u);
    case Queue(t) => QueueStep(g, s, depth, level, owner, size, before, from, st, t);
  }

  lemma {:induction false} RunInv(g: Graph, s: nat, depth: seq<int>, level: nat, owner: seq<nat>, size: nat,
                                  before: seq<nat>, from: nat, states: seq<State>, moves: seq<Move>, i: nat)
    requires IsRun(g, depth, level, owner, size, states, moves) && i < |states|
    requires Inv(g, s, depth, level, owner, before, from, states[0])
    ensures Inv(g, s, depth, level, owner, before, from, states[i])
  {
    hide Inv, Enabled, Apply;
    if i > 0 {
      RunInv(g, s, depth, level, owner, size, before, from, states, moves, i - 1);
      StepKeepsInv(g, s, depth, level, owner, size, before, from, states[i - 1], moves[i - 1]);
    }
  }

  lemma InitialInv(g: Graph, s: nat, depth: seq<int>, level: nat, owner: seq<nat>, counts: seq<nat>, succ: set<nat>,
                   shared: seq<nat>, from: nat, threads: nat)
    requires P.LevelOk(g, s, depth, level, counts, succ)
    requires from <= |shared| && g.N() <= |shared| && Bfs.Enqueued(shared[..from], depth)
    ensures Inv(g, s, depth, level, owner, shared, from, Initial(g, depth, counts, succ, shared, from, threads))
  {
    hide P.Inv, P.LevelOk, Bfs.Enqueued;
    P.StartInv(g, s, depth, level, counts, succ);
    Q.IdleInv(shared, from, threads);
    assert multiset(Initial(g, depth, counts, succ, shared, from, threads).p.pushed) == multiset{};
  }

  // ----------------------------------------------------------------- one level

  // Every interleaving of the searches and the flushes completes the level: its
  // counts, its successor bits, and in the queue each of its vertices once.
  lemma LevelIsCorrect(g: Graph, s: nat, depth: seq<int>, level: nat, owner: seq<nat>, size: nat, counts: seq<nat>,
                       succ: set<nat>, shared: seq<nat>, from: nat, threads: nat, states: seq<State>, moves: seq<Move>)
    requires P.LevelOk(g, s, depth, level, counts, succ)
    requires from <= |shared| && g.N() <= |shared| && Bfs.Enqueued(shared[..from], depth)
    requires IsRun(g, depth, level, owner, size, states, moves)
    requires states[0] == Initial(g, depth, counts, succ, shared, from, threads)
      && Finished(g, depth, level, states[|moves|])
    ensures g.Valid() && |depth| == g.N()
    ensures var st, next := states[|moves|], Next(g, depth, level);
      && st.p.depths == next && P.LevelOk(g, s, next, level + 1, st.p.counts, st.p.succ)
      && from <= st.q.sharedIn <= |st.q.shared| == |shared| && st.q.shared[..from] == shared[..from]
      && P.ListsDepth(next, st.q.shared[from..st.q.sharedIn], level + 1)
      && Bfs.Enqueued(st.q.shared[..st.q.sharedIn], next)
  {
    hide P.LevelOk, P.Inv, Q.Inv, EndsOk, Bfs.Enqueued, P.ListsDepth;
    var st := states[|moves|];
    var pushed := st.p.pushed;
    InitialInv(g, s, depth, level, owner, counts, succ, shared, from, threads);
    RunInv(g, s, depth, level, owner, size, shared, from, states, moves, |moves|);
    ValidFacts(g, s, depth, level, st.p);
    P.LevelEnds(g, s, depth, level, st.p);
    P.PushedIsNext(g, s, depth, level, st.p);
    Q.AllFlushed(shared, from, multiset(pushed), st.q);
    Q.StaysInside(shared, from, multiset(pushed), st.q);
    var added := st.q.shared[from..st.q.sharedIn];
    ListsPermuted(Next(g, depth, level), level + 1, pushed, added);
    NewFits(g, s, depth, level, st.p, shared[..from]);
    assert st.q.shared[..st.q.sharedIn] == shared[..from] + added;
    EnqueuedGrows(g, s, depth, level, shared[..from], added);
  }

  lemma ValidFacts(g: Graph, s: nat, depth: seq<int>, level: nat, p: P.State)
    requires P.Inv(g, s, depth, level, p)
    ensures g.Valid() && |depth| == g.N() && Wave(g, s, depth, level)
  {
  }

  lemma ListsPermuted(depth: seq<int>, d: int, a: seq<nat>, b: seq<nat>)
    requires P.ListsDepth(depth, a, d) && multiset(a) == multiset(b)
    ensures P.ListsDepth(depth, b, d)
  {
    Lists.PermutedDistinct(a, b);
  }

  lemma EnqueuedGrows(g: Graph, s: nat, depth: seq<int>, level: nat, all: seq<nat>, added: seq<nat>)
    requires Wave(g, s, depth, level) && Bfs.Enqueued(all, depth)
      && P.ListsDepth(Next(g, depth, level), added, level + 1)
    ensures Bfs.Enqueued(all + added, Next(g, depth, level))
  {
    forall v | v in added ensures v < |depth| && depth[v] == -1 { assert -1 <= depth[v] <= level; }
    Top.RoomFor(depth, all, added);
    forall x | x in all + added ensures x < |depth| && Next(g, depth, level)[x] >= 0 {
      assert x in all || x in added;
    }
  }

  // -------------------------------------------------------- ending of one level

  // Threads never wait for each other, and every vertex has its thread.
  lemma NeverStuck(g: Graph, s: nat, depth: seq<int>, level: nat, owner: seq<nat>, before: seq<nat>, from: nat,
                   st: State)
    requires Inv(g, s, depth, level, owner, before, from, st) && !Finished(g, depth, level, st)
    requires |owner| == g.N() && forall u | 0 <= u < |owner| :: owner[u] < |st.q.threads|
    ensures exists m :: Enabled(g, depth, level, owner, st, m)
  {
    hide Q.Inv, Q.Enabled, Bfs.Enqueued, EndsOk, P.BitsOk;
    if !P.Finished(g, depth, level, st.p) {
      var u: nat :| u < g.N() && u < |depth| && u < |st.p.procs| && depth[u] == level
        && st.p.procs[u].k < |g.outs[u]|;
      assert g.outs[u][st.p.procs[u].k] < g.N();
      assert Enabled(g, depth, level, owner, st, Search(u));
    } else {
      var t: nat :| t < |st.q.threads| && !st.q.threads[t].pc.Done?;
      Q.NeverStuck(before, from, multiset(st.p.pushed), st.q, t);
      forall x: nat ensures AllSearched(g, depth, level, owner, st.p.procs, x) {}
      assert Enabled(g, depth, level, owner, st, Queue(t));
    }
  }

  function Rank(pc: P.Step): nat {
    match pc case Look => 0 case Swap => 1 case Check => 2 case Mark => 3 case Count => 4
  }

  // Steps that vertex u has still to take: at most five for each edge.
  function SearchLeft(g: Graph, u: nat, p: P.Proc): nat {
    if u < g.N() && p.k < |g.outs[u]| then 5 * (|g.outs[u]| - p.k) - Rank(p.pc) else 0
  }

  function AllSearchLeft(g: Graph, procs: seq<P.Proc>, k: nat): nat
    requires k <= |procs|
  {
    if k == 0 then 0 else AllSearchLeft(g, procs, k - 1) + SearchLeft(g, k - 1, procs[k - 1])
  }

  lemma {:induction false} SearchUpdate(g: Graph, procs: seq<P.Proc>, u: nat, p: P.Proc, k: nat)
    requires u < |procs| && k <= |procs|
    ensures AllSearchLeft(g, procs[u := p], k)
         == AllSearchLeft(g, procs, k) + if u < k then SearchLeft(g, u, p) - SearchLeft(g, u, procs[u]) else 0
  {
    hide SearchLeft;
    if k > 0 { SearchUpdate(g, procs, u, p, k - 1); }
  }

  lemma SearchShrinks(g: Graph, depth: seq<int>, level: nat, p: P.State, u: nat)
    requires P.Enabled(g, depth, level, p, u)
    ensures var procs' := P.Apply(g, depth, level, p, u).procs;
      |procs'| == |p.procs| && AllSearchLeft(g, procs', |procs'|) < AllSearchLeft(g, p.procs, |p.procs|)
  {
    hide AllSearchLeft;
    SearchUpdate(g, p.procs, u, P.Apply(g, depth, level, p, u).procs[u], |p.procs|);
  }

  // A search step leaves fewer of them, and between two of them the buffers can
  // only be moved on so often.
  lemma StepShrinks(g: Graph, depth: seq<int>, level: nat, owner: seq<nat>, size: nat, st: State, m: Move)
    requires size > 0 && Q.FlushesOk(st.q.threads) && Enabled(g, depth, level, owner, st, m)
    ensures var st' := Apply(g, depth, level, owner, size, st, m);
      || AllSearchLeft(g, st'.p.procs, |st'.p.procs|) < AllSearchLeft(g, st.p.procs, |st.p.procs|)
      || (st'.p == st.p && Q.AllStepsLeft(st'.q.threads) < Q.AllStepsLeft(st.q.threads))
  {
    hide P.Apply, Q.Apply, P.Enabled, Q.FlushesOk, AllSearched, AllSearchLeft, Q.AllStepsLeft;
    match m
    case Search(u) => SearchShrinks(g, depth, level, st.p, u);
    case Queue(t) => Q.MoveShrinks(size, st.q, t);
  }

  lemma StepKeepsFlushes(g: Graph, s: nat, depth: seq<int>, level: nat, owner: seq<nat>, size: nat, before: seq<nat>,
                         from: nat, st: State, m: Move)
    requires size > 0 && Inv(g, s, depth, level, owner, before, from, st) && Q.FlushesOk(st.q.threads)
    requires Enabled(g, depth, level, owner, st, m)
    ensures Q.FlushesOk(Apply(g, depth, level, owner, size, st, m).q.threads)
  {
    hide P.Inv, Q.Inv, Bfs.Enqueued, P.Apply, Q.Apply, InBounds;
    match m
    case Search(u) =>
      var t := owner[u];
      assert EndOk(g, depth, level, owner, st.p.procs, st.q.threads[t], t);
      assert !AllSearched(g, depth, level, owner, st.p.procs, t);
      assert Q.FlushOk(st.q.threads[t]);
    case Queue(t) => Q.StepKeepsFlushes(size, st.q, t);
  }

  ghost predicate Steps(g: Graph, depth: seq<int>, level: nat, owner: seq<nat>, size: nat, st: State, st': State) {
    exists m :: Enabled(g, depth, level, owner, st, m) && st' == Apply(g, depth, level, owner, size, st, m)
  }

  // No schedule of a level runs forever.
  lemma {:induction false} EveryScheduleEnds(g: Graph, s: nat, depth: seq<int>, level: nat, owner: seq<nat>, size: nat,
                                             before: seq<nat>, from: nat, run: nat -> State, i: nat)
    requires size > 0 && Inv(g, s, depth, level, owner, before, from, run(i)) && Q.FlushesOk(run(i).q.threads)
    ensures exists j :: j >= i && !Steps(g, depth, level, owner, size, run(j), run(j + 1))
    decreases AllSearchLeft(g, run(i).p.procs, |run(i).p.procs|), Q.AllStepsLeft(run(i).q.threads)
  {
    hide Inv, Enabled, Apply, Q.FlushesOk;
    if Steps(g, depth, level, owner, size, run(i), run(i + 1)) {
      var m :| Enabled(g, depth, level, owner, run(i), m)
        && run(i + 1) == Apply(g, depth, level, owner, size, run(i), m);
      StepShrinks(g, depth, level, owner, size, run(i), m);
      StepKeepsInv(g, s, depth, level, owner, size, before, from, run(i), m);
      StepKeepsFlushes(g, s, depth, level, owner, size, before, from, run(i), m);
      EveryScheduleEnds(g, s, depth, level, owner, size, before, from, run, i + 1);
    }
  }

  // ------------------------------------------------------------ the whole search

  // All that the levels share; the window is shared[start..end], and index is
  // the depth index so far.
  datatype Config = Config(depths: seq<int>, counts: seq<nat>, succ: set<nat>, shared: seq<nat>, start: nat, end: nat,
                           index: seq<nat>)

  // One level: the threads' parts of the loop, and what they did.
  datatype Level = Level(owner: seq<nat>, states: seq<State>, moves: seq<Move>)

  ghost predicate QueueOk(c: Config) { c.start <= c.end <= |c.shared| }

  ghost function Window(c: Config): seq<nat>
    requires QueueOk(c)
  {
    c.shared[c.start..c.end]
  }

  // The loop over the window, the barrier, and the slide to what was found.
  ghost predicate LevelRuns(g: Graph, threads: nat, size: nat, level: nat, c: Config, l: Level, c': Config) {
    && QueueOk(c) && Window(c) != []
    && |l.states| == |l.moves| + 1 && IsRun(g, c.depths, level, l.owner, size, l.states, l.moves)
    && l.states[0] == Initial(g, c.depths, c.counts, c.succ, c.shared, c.end, threads)
    && var last := l.states[|l.moves|];
       && Finished(g, c.depths, level, last)
       && c' == Config(last.p.depths, last.p.counts, last.p.succ, last.q.shared, c.end, last.q.sharedIn,
                       c.index + [c.start])
  }

  ghost predicate IsSearch(g: Graph, threads: nat, size: nat, configs: seq<Config>, levels: seq<Level>) {
    && |configs| == |levels| + 1
    && forall i: nat | i < |levels| :: LevelRuns(g, threads, size, i, configs[i], levels[i], configs[i + 1])
  }

  // Only the source is known, counted and queued; the index has its empty first piece.
  ghost predicate Starts(g: Graph, s: nat, c: Config) {
    && s < g.N() && c.depths == FirstWave(g, s)
    && |c.counts| == g.N() && c.counts[s] == 1 && (forall v: nat | v < g.N() && v != s :: c.counts[v] == 0)
    && c.succ == {} && g.N() <= |c.shared| && c.start == 0 && c.end == 1 && c.shared[0] == s && c.index == [0]
  }

  ghost function Bits(bits: set<nat>): iset<nat> {
    iset p: nat | p in bits
  }

  ghost predicate At(g: Graph, s: nat, level: nat, c: Config) {
    && QueueOk(c) && g.N() <= |c.shared|
    && S.AtLevel(g, s, c.depths, level, c.depths, c.counts, Bits(c.succ), c.succ, Window(c), c.shared[..c.end],
                 c.index + [c.start])
  }

  lemma FirstAt(g: Graph, s: nat, c: Config)
    requires g.Valid() && Starts(g, s, c)
    ensures At(g, s, 0, c)
  {
    hide S.AtLevel;
    S.FirstLevel(g, s, c.counts, Bits(c.succ));
    assert Window(c) == [s] && c.shared[..c.end] == [s] && c.index + [c.start] == [0, 0];
  }

  lemma AtFacts(g: Graph, s: nat, level: nat, c: Config)
    requires At(g, s, level, c)
    ensures P.LevelOk(g, s, c.depths, level, c.counts, c.succ) && Bfs.Enqueued(c.shared[..c.end], c.depths)
    ensures |c.shared[..c.end]| == c.end
  {
  }

  lemma LevelKeepsAt(g: Graph, s: nat, threads: nat, size: nat, level: nat, c: Config, l: Level, c': Config)
    requires At(g, s, level, c) && LevelRuns(g, threads, size, level, c, l, c')
    ensures At(g, s, level + 1, c')
  {
    hide S.AtLevel, P.LevelOk, IsRun, Finished, Bfs.Enqueued, P.ListsDepth, Next;
    AtFacts(g, s, level, c);
    LevelIsCorrect(g, s, c.depths, level, l.owner, size, c.counts, c.succ, c.shared, c.end, threads, l.states, l.moves);
    assert c'.shared[..c'.end] == c.shared[..c.end] + Window(c');
    S.LevelAdvances(g, s, c.depths, level, c.depths, c.counts, Bits(c.succ), c.succ, Window(c), c.shared[..c.end],
                    c.index + [c.start], c'.counts, Bits(c'.succ), c'.succ, Window(c'), c'.shared[..c'.end]);
  }

  lemma {:induction false} SearchAt(g: Graph, s: nat, threads: nat, size: nat, configs: seq<Config>,
                                    levels: seq<Level>, i: nat)
    requires IsSearch(g, threads, size, configs, levels) && At(g, s, 0, configs[0]) && i < |configs|
    ensures At(g, s, i, configs[i])
  {
    hide At, LevelRuns;
    if i > 0 {
      SearchAt(g, s, threads, size, configs, levels, i - 1);
      LevelKeepsAt(g, s, threads, size, i - 1, configs[i - 1], levels[i - 1], configs[i]);
    }
  }

  // Whatever the threads' parts and however they interleave on each level, a
  // search that ends with an empty window hands back-propagation the numbers of
  // shortest paths, the bits of exactly the edges between consecutive depths, and
  // the depth index.
  lemma EverySearchCountsPaths(g: Graph, s: nat, threads: nat, size: nat, configs: seq<Config>, levels: seq<Level>)
    requires g.Valid() && IsSearch(g, threads, size, configs, levels) && Starts(g, s, configs[0])
    requires var c := configs[|levels|]; QueueOk(c) && Window(c) == []
    ensures var c := configs[|levels|];
      S.Searched(g, s, c.depths, c.counts, Bits(c.succ), c.shared[..c.end], c.index + [c.start])
  {
    hide S.AtLevel, S.Searched, LevelRuns, Starts;
    var c := configs[|levels|];
    FirstAt(g, s, configs[0]);
    SearchAt(g, s, threads, size, configs, levels, |levels|);
    S.SearchEnds(g, s, c.depths, |levels|, c.depths, c.counts, Bits(c.succ), c.succ, c.shared[..c.end],
                 c.index + [c.start]);
  }

  lemma QueuedFits(g: Graph, s: nat, level: nat, c: Config)
    requires At(g, s, level, c)
    ensures QueueOk(c) && c.end <= g.N()
  {
    hide S.AtLevel, P.LevelOk;
    AtFacts(g, s, level, c);
    Lists.DistinctFits(|c.depths|, c.shared[..c.end]);
    DepthsCovered(g, s, c.depths, level, c.counts, c.succ);
  }

  lemma DepthsCovered(g: Graph, s: nat, depth: seq<int>, level: nat, counts: seq<nat>, succ: set<nat>)
    requires P.LevelOk(g, s, depth, level, counts, succ)
    ensures |depth| == g.N()
  {
  }

  lemma {:induction false} QueueGrows(g: Graph, threads: nat, size: nat, configs: seq<Config>, levels: seq<Level>,
                                      i: nat)
    requires IsSearch(g, threads, size, configs, levels) && configs[0].start == 0 && i < |levels|
    ensures configs[i].end > i
  {
    assert LevelRuns(g, threads, size, i, configs[i], levels[i], configs[i + 1]);
    if i > 0 {
      QueueGrows(g, threads, size, configs, levels, i - 1);
      assert LevelRuns(g, threads, size, i - 1, configs[i - 1], levels[i - 1], configs[i]);
    }
  }

  // No search goes on forever: it has at most as many levels as the graph has vertices.
  lemma EverySearchEnds(g: Graph, s: nat, threads: nat, size: nat, configs: seq<Config>, levels: seq<Level>)
    requires g.Valid() && IsSearch(g, threads, size, configs, levels) && Starts(g, s, configs[0])
    ensures |levels| <= g.N()
  {
    hide S.AtLevel, LevelRuns;
    FirstAt(g, s, configs[0]);
    if levels != [] {
      var i := |levels| - 1;
      SearchAt(g, s, threads, size, configs, levels, i);
      QueuedFits(g, s, i, configs[i]);
      QueueGrows(g, threads, size, configs, levels, i);
    }
  }
}
