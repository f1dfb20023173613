module BfsThreads {
  // The whole direction-optimizing search as a parallel program: a sequence of
  // phases, each of them any finished run of its machine, in whatever directions
  // the heuristics pick.

  import opened Components
  import opened Layers
  import T = BfsTrees
  import B = Bitmaps
  import Q = SlidingQueues
  import Top = TopDownThreads
  import Bottom = BottomUpThreads
  import Bfs
  import Lists

  // FromQueue: the last level is the queue's window.  FromBitmap: it is in the
  // front bitmap, after some bottom-up steps of the same phase.
  datatype Mode = FromQueue | FromBitmap(rounds: nat)

  // All that the phases share; the window is shared[start..end].
  datatype Config = Config(parent: seq<int>, shared: seq<nat>, start: nat, end: nat, front: seq<bv64>, curr: seq<bv64>,
                           mode: Mode)

  // One parallel loop each: the top-down step, queue to bitmap, the bottom-up
  // step, and bitmap to queue.
  datatype Phase =
    | TopDown(owner: seq<nat>, topStates: seq<Top.State>, topMoves: seq<Top.Move>)
    | ToBitmap(setStates: seq<B.State>, setMoves: seq<nat>)
    | BottomUp(upStates: seq<Bottom.State>, upMoves: seq<nat>)
    | ToQueue(shares: seq<seq<nat>>, queueStates: seq<Q.State>, queueMoves: seq<nat>)

  // What a bottom-up step returns: how many vertices it has visited.
  function Woken(ph: Phase): nat
    requires ph.BottomUp?
  {
    if ph.upStates == [] then 0 else Bottom.Awake(ph.upStates[|ph.upStates| - 1].procs)
  }

  ghost predicate QueueOk(c: Config) { c.start <= c.end <= |c.shared| }

  ghost function Window(c: Config): seq<nat>
    requires QueueOk(c)
  {
    c.shared[c.start..c.end]
  }

  ghost function AllQueued(c: Config): seq<nat>
    requires QueueOk(c)
  {
    c.shared[..c.end]
  }

  // The vertices that the threads go through, one after another.
  function Joined(shares: seq<seq<nat>>): seq<nat> {
    if shares == [] then [] else Joined(shares[..|shares| - 1]) + shares[|shares| - 1]
  }

  // Each of the n vertices is in one thread's share.
  ghost predicate Divided(n: nat, shares: seq<seq<nat>>) {
    && (forall v: nat :: v in Joined(shares) <==> v < n)
    && (forall i, j | 0 <= i < j < |Joined(shares)| :: Joined(shares)[i] != Joined(shares)[j])
  }

  // What a thread pushes: the vertices of its share whose bit is set.
  function Marked(words: seq<bv64>, share: seq<nat>): seq<nat> {
    if share == [] then []
    else Marked(words, share[..|share| - 1]) + if B.Member(words, share[|share| - 1]) then [share[|share| - 1]] else []
  }

  function Scripts(words: seq<bv64>, shares: seq<seq<nat>>): seq<seq<nat>> {
    if shares == [] then [] else Scripts(words, shares[..|shares| - 1]) + [Marked(words, shares[|shares| - 1])]
  }

  ghost predicate TopDownOk(g: Graph, threads: nat, size: nat, c: Config, ph: Phase, c': Config)
    requires ph.TopDown? && QueueOk(c)
  {
    && c.mode == FromQueue && Window(c) != []
    && Top.IsRun(g, Window(c), ph.owner, size, ph.topStates, ph.topMoves)
    && ph.topStates[0] == Top.Initial(Window(c), c.parent, c.shared, c.end, threads)
    && |ph.topStates| == |ph.topMoves| + 1
    && var last := ph.topStates[|ph.topMoves|];
       && Top.Finished(g, Window(c), last)
       && c' == Config(last.td.parent, last.q.shared, c.end, last.q.sharedIn, c.front, c.curr, FromQueue)
  }

  ghost predicate ToBitmapOk(c: Config, ph: Phase, c': Config)
    requires ph.ToBitmap? && QueueOk(c)
  {
    && c.mode == FromQueue && Window(c) != []
    && B.IsRun(Window(c), ph.setStates, ph.setMoves) && ph.setStates[0] == B.Initial(Window(c), c.front)
    && |ph.setStates| == |ph.setMoves| + 1
    && var last := ph.setStates[|ph.setMoves|];
       && (forall t | 0 <= t < |last.pcs| :: last.pcs[t].Done?)
       && c' == c.(front := last.words, start := c.end, mode := FromBitmap(0))
  }

  // The step into the cleared bitmap, and the exchange of the two.
  ghost predicate BottomUpOk(g: Graph, c: Config, ph: Phase, c': Config)
    requires ph.BottomUp?
  {
    && c.mode.FromBitmap?
    && Bottom.IsRun(g, c.front, ph.upStates, ph.upMoves)
    && ph.upStates[0] == Bottom.Initial(g.N(), c.parent, |c.curr|)
    && |ph.upStates| == |ph.upMoves| + 1
    && var last := ph.upStates[|ph.upMoves|];
       && Bottom.Finished(g, last)
       && c' == c.(parent := last.parent, front := last.words, curr := c.front, mode := FromBitmap(c.mode.rounds + 1))
  }

  ghost predicate ToQueueOk(g: Graph, size: nat, c: Config, ph: Phase, c': Config)
    requires ph.ToQueue?
  {
    && c.mode.FromBitmap? && c.mode.rounds > 0 && Divided(g.N(), ph.shares)
    && Q.IsRun(size, ph.queueStates, ph.queueMoves)
    && ph.queueStates[0] == Q.State(c.shared, c.end, Q.StartThreads(Scripts(c.front, ph.shares)))
    && |ph.queueStates| == |ph.queueMoves| + 1
    && var last := ph.queueStates[|ph.queueMoves|];
       && (forall t | 0 <= t < |last.threads| :: last.threads[t].pc.Done?)
       && c' == c.(shared := last.shared, start := c.end, end := last.sharedIn, mode := FromQueue)
  }

  ghost predicate PhaseOk(g: Graph, threads: nat, size: nat, c: Config, ph: Phase, c': Config) {
    && QueueOk(c)
    && match ph
       case TopDown(_, _, _) => TopDownOk(g, threads, size, c, ph, c')
       case ToBitmap(_, _) => ToBitmapOk(c, ph, c')
       case BottomUp(_, _) => BottomUpOk(g, c, ph, c')
       case ToQueue(_, _, _) => ToQueueOk(g, size, c, ph, c')
  }

  ghost predicate IsSearch(g: Graph, threads: nat, size: nat, configs: seq<Config>, phases: seq<Phase>) {
    && |configs| == |phases| + 1
    && forall i | 0 <= i < |phases| :: PhaseOk(g, threads, size, configs[i], phases[i], configs[i + 1])
  }

  // Before the first phase: only the source is visited and queued.
  ghost predicate Starts(g: Graph, s: nat, c: Config) {
    && |c.parent| == g.N() <= |c.shared| && s < g.N() && c.parent[s] == s
    && (forall v: nat | v < g.N() && v != s :: c.parent[v] == T.InitialParent(g, v))
    && c.start == 0 && c.end == 1 && c.shared[0] == s
    && g.N() <= B.BITS_PER_WORD * |c.front| && c.front == Bottom.Zeros(|c.front|) && |c.curr| == |c.front|
    && c.mode == FromQueue
  }

  // ---------------------------------------------------------------- invariant

  ghost predicate InQueue(g: Graph, s: nat, c: Config, depth: seq<int>, level: nat)
    requires QueueOk(c)
  {
    Bfs.Between(g, s, depth, level, c.parent, Window(c), AllQueued(c), Bottom.Bits(c.front))
  }

  ghost predicate InBitmap(g: Graph, s: nat, c: Config, depth: seq<int>, level: nat, level0: nat)
    requires QueueOk(c) && c.mode.FromBitmap?
  {
    && Bfs.InBottomUp(g, s, depth, level, c.parent, Bottom.Bits(c.front), AllQueued(c), level0)
    && (c.mode.rounds > 0 ==> level0 < level)
  }

  ghost predicate Sizes(g: Graph, c: Config) {
    && QueueOk(c) && g.N() <= |c.shared|
    && g.N() <= B.BITS_PER_WORD * |c.front| && g.N() <= B.BITS_PER_WORD * |c.curr|
  }

  ghost predicate Inv(g: Graph, s: nat, c: Config) {
    && Sizes(g, c)
    && if c.mode.FromQueue? then exists depth: seq<int>, level: nat :: InQueue(g, s, c, depth, level)
       else exists depth: seq<int>, level: nat, level0: nat :: InBitmap(g, s, c, depth, level, level0)
  }

  lemma FirstInv(g: Graph, s: nat, c: Config)
    requires g.Valid() && Starts(g, s, c)
    ensures Inv(g, s, c)
  {
    Bfs.FirstBetween(g, s, c.parent);
    Bottom.Cleared(|c.front|);
    assert Bottom.Bits(c.front) == iset{};
    assert Window(c) == [s] && AllQueued(c) == [s];
    assert InQueue(g, s, c, FirstWave(g, s), 0);
  }

  lemma LevelFacts(g: Graph, s: nat, depth: seq<int>, level: nat)
    requires Wave(g, s, depth, level)
    ensures g.Valid() && |depth| == g.N() && s < g.N()
  {
  }

  // ------------------------------------------------------------------- phases

  lemma QueuedWereVisited(g: Graph, s: nat, c: Config, depth: seq<int>, level: nat)
    requires QueueOk(c) && InQueue(g, s, c, depth, level)
    ensures Bfs.Enqueued(AllQueued(c), depth)
  {
    forall x | x in AllQueued(c) ensures x < |depth| && depth[x] >= 0 {
      assert c.parent[x] >= 0;
    }
  }

  lemma EnqueuedNext(g: Graph, s: nat, depth: seq<int>, parent: seq<int>, all: seq<nat>)
    requires T.Tree(g, s, depth, parent) && Bfs.Enqueued(all, depth)
    ensures Bfs.Enqueued(all, parent)
  {
    forall x | x in all ensures x < |parent| && parent[x] >= 0 {
      assert depth[x] >= 0;
      assert T.ParentOk(g, s, depth, x, parent[x]);
    }
  }

  lemma TopDownPhase(g: Graph, s: nat, threads: nat, size: nat, c: Config, ph: Phase, c': Config, depth: seq<int>,
                     level: nat)
    requires size > 0 && Sizes(g, c) && InQueue(g, s, c, depth, level)
    requires ph.TopDown? && TopDownOk(g, threads, size, c, ph, c')
    ensures Sizes(g, c') && g.Valid() && |depth| == g.N()
      && InQueue(g, s, c', Next(g, depth, level), level + 1)
  {
    hide Top.IsRun, Top.Finished, Wave, T.Tree, T.ListsLevel;
    LevelFacts(g, s, depth, level);
    QueuedWereVisited(g, s, c, depth, level);
    Top.TopDownIsCorrect(g, s, depth, level, Window(c), ph.owner, size, c.parent, c.shared, c.end, threads,
                         ph.topStates, ph.topMoves);
    var last := ph.topStates[|ph.topMoves|];
    var next := Next(g, depth, level);
    EnqueuedNext(g, s, next, c'.parent, AllQueued(c'));
    Bfs.AfterTopDown(g, s, depth, level, c.parent, Window(c), AllQueued(c), Bottom.Bits(c.front),
                     c'.parent, Window(c'), AllQueued(c'), last.td.scout);
  }

  lemma ToBitmapPhase(g: Graph, s: nat, c: Config, ph: Phase, c': Config, depth: seq<int>, level: nat)
    requires Sizes(g, c) && InQueue(g, s, c, depth, level) && ph.ToBitmap? && ToBitmapOk(c, ph, c')
    ensures Sizes(g, c') && InBitmap(g, s, c', depth, level, level)
  {
    hide B.IsRun, Wave, T.Tree, B.Member;
    WindowInRange(g, s, c, depth, level);
    B.AtomicBitsAllLand(Window(c), c.front, ph.setStates, ph.setMoves);
    Bfs.BottomUpBegins(g, s, depth, level, c.parent, Window(c), AllQueued(c), Bottom.Bits(c.front),
                       Bottom.Bits(c'.front));
  }

  lemma WindowInRange(g: Graph, s: nat, c: Config, depth: seq<int>, level: nat)
    requires Sizes(g, c) && InQueue(g, s, c, depth, level)
    ensures forall t | 0 <= t < |Window(c)| :: B.WordOffset(Window(c)[t]) < |c.front|
  {
    forall t | 0 <= t < |Window(c)| ensures B.WordOffset(Window(c)[t]) < |c.front| {
      assert Window(c)[t] in Window(c);
    }
  }

  lemma BottomUpPhase(g: Graph, s: nat, c: Config, ph: Phase, c': Config, depth: seq<int>, level: nat, level0: nat)
    requires Sizes(g, c) && c.mode.FromBitmap? && InBitmap(g, s, c, depth, level, level0)
    requires ph.BottomUp? && BottomUpOk(g, c, ph, c')
    ensures Sizes(g, c') && g.Valid() && |depth| == g.N()
      && InBitmap(g, s, c', Next(g, depth, level), level + 1, level0)
    ensures Woken(ph) == Bfs.Unvisited(depth, g.N()) - Bfs.Unvisited(Next(g, depth, level), g.N())
  {
    hide Bottom.IsRun, Bottom.Finished, Wave, T.Tree, B.Member, Bfs.FrontOk, Bottom.Initial;
    LevelFacts(g, s, depth, level);
    Bottom.BottomUpIsCorrect(g, s, depth, level, c.front, c.parent, |c.curr|, ph.upStates, ph.upMoves);
    Bfs.BottomUpContinues(g, s, depth, level, c.parent, Bottom.Bits(c.front), AllQueued(c), level0, c'.parent,
                          Bottom.Bits(c'.front));
  }

  // --------------------------------------------------------- bitmap to queue

  lemma {:induction false} MarkedMembers(words: seq<bv64>, share: seq<nat>, v: nat)
    ensures multiset(Marked(words, share))[v] == if B.Member(words, v) then multiset(share)[v] else 0
  {
    hide B.Member;
    if share != [] {
      var m := |share| - 1;
      MarkedMembers(words, share[..m], v);
      assert share == share[..m] + [share[m]];
    }
  }

  lemma {:induction false} ScriptMembers(words: seq<bv64>, shares: seq<seq<nat>>, v: nat)
    ensures Q.AllPushes(Scripts(words, shares))[v] == if B.Member(words, v) then multiset(Joined(shares))[v] else 0
  {
    hide B.Member;
    if shares != [] {
      var m := |shares| - 1;
      ScriptMembers(words, shares[..m], v);
      MarkedMembers(words, shares[m], v);
      var scripts := Scripts(words, shares);
      assert scripts[..|scripts| - 1] == Scripts(words, shares[..m]);
    }
  }

  lemma {:induction false} PushesAreJoined(scripts: seq<seq<nat>>)
    ensures Q.AllPushes(scripts) == multiset(Joined(scripts))
  {
    if scripts != [] { PushesAreJoined(scripts[..|scripts| - 1]); }
  }

  // Whatever the shares, each set bit is pushed exactly once.
  lemma PushedBits(n: nat, words: seq<bv64>, shares: seq<seq<nat>>)
    requires Divided(n, shares)
    ensures Bfs.ListsSet(Bottom.Bits(words), Joined(Scripts(words, shares)), n)
    ensures Q.AllPushes(Scripts(words, shares)) == multiset(Joined(Scripts(words, shares)))
  {
    hide B.Member, Joined, Scripts, Q.AllPushes;
    var pushed := Joined(Scripts(words, shares));
    PushesAreJoined(Scripts(words, shares));
    forall v: nat ensures v in pushed <==> v < n && v in Bottom.Bits(words) {
      ScriptMembers(words, shares, v);
      assert v in pushed <==> v in multiset(pushed);
      assert v in Joined(shares) <==> v in multiset(Joined(shares));
    }
    forall i, j | 0 <= i < j < |pushed| ensures pushed[i] != pushed[j] {
      if pushed[i] == pushed[j] {
        Lists.RepeatedTwice(pushed, i, j);
        ScriptMembers(words, shares, pushed[i]);
        Lists.DistinctOnce(Joined(shares), pushed[i]);
      }
    }
  }

  lemma BitsAreNew(g: Graph, s: nat, c: Config, depth: seq<int>, level: nat, level0: nat, pushed: seq<nat>)
    requires QueueOk(c) && c.mode.FromBitmap? && c.mode.rounds > 0 && InBitmap(g, s, c, depth, level, level0)
    requires Bfs.ListsSet(Bottom.Bits(c.front), pushed, g.N())
    ensures |AllQueued(c)| + |pushed| <= g.N()
    ensures forall x | x in AllQueued(c) :: x < g.N() && x !in pushed
  {
    Lists.DisjointFits(g.N(), AllQueued(c), pushed);
  }

  // The threads' pushes become the new window, in some order.
  lemma QueueRun(g: Graph, size: nat, c: Config, ph: Phase, c': Config, pushed: seq<nat>)
    requires QueueOk(c) && ph.ToQueue? && ToQueueOk(g, size, c, ph, c')
    requires pushed == Joined(Scripts(c.front, ph.shares)) && Bfs.ListsSet(Bottom.Bits(c.front), pushed, g.N())
    requires Q.AllPushes(Scripts(c.front, ph.shares)) == multiset(pushed) && c.end + |pushed| <= |c.shared|
    ensures QueueOk(c') && AllQueued(c') == AllQueued(c) + Window(c') && |c'.shared| == |c.shared|
    ensures Bfs.ListsSet(Bottom.Bits(c.front), Window(c'), g.N())
  {
    hide Q.IsRun, Divided, B.Member, Scripts, Joined, Q.StartThreads, Q.AllPushes;
    assert |multiset(pushed)| == |pushed|;
    Q.WindowIsWhatWasPushed(c.shared, c.end, Scripts(c.front, ph.shares), size, ph.queueStates, ph.queueMoves);
    Lists.PermutedDistinct(pushed, Window(c'));
  }

  lemma ToQueuePhase(g: Graph, s: nat, size: nat, c: Config, ph: Phase, c': Config, depth: seq<int>, level: nat,
                     level0: nat)
    requires Sizes(g, c) && c.mode.FromBitmap? && InBitmap(g, s, c, depth, level, level0)
    requires ph.ToQueue? && ToQueueOk(g, size, c, ph, c')
    ensures Sizes(g, c') && InQueue(g, s, c', depth, level)
    ensures Bfs.ListsSet(Bottom.Bits(c.front), Window(c'), g.N())
  {
    hide Q.IsRun, Divided, Bfs.InBottomUp, Bfs.Between, Bfs.ListsSet, B.Member;
    var pushed := Joined(Scripts(c.front, ph.shares));
    PushedBits(g.N(), c.front, ph.shares);
    BitsAreNew(g, s, c, depth, level, level0, pushed);
    QueueRun(g, size, c, ph, c', pushed);
    NewWindow(g, s, c, depth, level, level0, Window(c'));
    Bfs.BottomUpLeaves(g, s, depth, level, c.parent, Bottom.Bits(c.front), AllQueued(c), level0, Window(c'),
                       AllQueued(c'));
  }

  lemma NewWindow(g: Graph, s: nat, c: Config, depth: seq<int>, level: nat, level0: nat, window: seq<nat>)
    requires QueueOk(c) && c.mode.FromBitmap? && c.mode.rounds > 0 && InBitmap(g, s, c, depth, level, level0)
    requires Bfs.ListsSet(Bottom.Bits(c.front), window, g.N())
    ensures forall i, j | 0 <= i < j < |AllQueued(c) + window| ::
      (AllQueued(c) + window)[i] != (AllQueued(c) + window)[j]
  {
    BitsAreNew(g, s, c, depth, level, level0, window);
    Lists.DisjointFits(g.N(), AllQueued(c), window);
  }

  // ---------------------------------------------------------- the whole search

  lemma PhaseKeepsInv(g: Graph, s: nat, threads: nat, size: nat, c: Config, ph: Phase, c': Config)
    requires size > 0
    requires Inv(g, s, c) && PhaseOk(g, threads, size, c, ph, c')
    ensures Inv(g, s, c')
  {
    hide Top.IsRun, Top.Finished, B.IsRun, Bottom.IsRun, Bottom.Finished, Q.IsRun, Divided, InQueue, InBitmap;
    if c.mode.FromQueue? {
      var depth: seq<int>, level: nat :| InQueue(g, s, c, depth, level);
      if ph.TopDown? {
        TopDownPhase(g, s, threads, size, c, ph, c', depth, level);
        var next, up: nat := Next(g, depth, level), level + 1;
        assert InQueue(g, s, c', next, up);
      } else {
        ToBitmapPhase(g, s, c, ph, c', depth, level);
        assert InBitmap(g, s, c', depth, level, level);
      }
    } else {
      var depth: seq<int>, level: nat, level0: nat :| InBitmap(g, s, c, depth, level, level0);
      if ph.BottomUp? {
        BottomUpPhase(g, s, c, ph, c', depth, level, level0);
        var next, up: nat := Next(g, depth, level), level + 1;
        assert InBitmap(g, s, c', next, up, level0);
      } else {
        ToQueuePhase(g, s, size, c, ph, c', depth, level, level0);
        assert InQueue(g, s, c', depth, level);
      }
    }
  }

  lemma {:induction false} SearchInv(g: Graph, s: nat, threads: nat, size: nat, configs: seq<Config>,
                                     phases: seq<Phase>, i: nat)
    requires size > 0
    requires IsSearch(g, threads, size, configs, phases) && Inv(g, s, configs[0]) && i < |configs|
    ensures Inv(g, s, configs[i])
  {
    hide Inv, PhaseOk;
    if i > 0 {
      SearchInv(g, s, threads, size, configs, phases, i - 1);
      PhaseKeepsInv(g, s, threads, size, configs[i - 1], phases[i - 1], configs[i]);
    }
  }

  // What the last loop makes of the parents.
  function Cleaned(parent: seq<int>): seq<int> {
    seq(|parent|, v requires 0 <= v < |parent| => if parent[v] < -1 then -1 else parent[v])
  }

  // Whatever directions are picked and however the threads of each phase
  // interleave, a search that ends with an empty window has found a
  // breadth-first tree.
  lemma EverySearchFindsATree(g: Graph, s: nat, threads: nat, size: nat, configs: seq<Config>, phases: seq<Phase>)
    requires size > 0
    requires g.Valid() && IsSearch(g, threads, size, configs, phases) && Starts(g, s, configs[0])
    requires var c := configs[|phases|]; c.mode == FromQueue && QueueOk(c) && Window(c) == []
    ensures T.BfsTree(g, s, Cleaned(configs[|phases|].parent))
  {
    hide Starts, PhaseOk, Bfs.Between;
    var c := configs[|phases|];
    FirstInv(g, s, configs[0]);
    SearchInv(g, s, threads, size, configs, phases, |phases|);
    var depth: seq<int>, level: nat :| InQueue(g, s, c, depth, level);
    Bfs.EndIsTree(g, s, depth, level, c.parent, AllQueued(c), Bottom.Bits(c.front), Cleaned(c.parent));
    assert T.IsBfsTree(g, s, depth, Cleaned(c.parent));
  }
}
