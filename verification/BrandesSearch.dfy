// Betweenness centrality, first half: a search, level by level, that counts
// shortest paths and notes the edges on them.
module BrandesSearch {
  import opened Components
  import opened Layers
  import opened PathCounts
  import opened PbfsThreads
  import B = Bitmaps
  import Q = SlidingQueues
  import Bfs

  // ----------------------------------------------------------------- the search

  // The arrays, the bitmap and the queue hold the state st of a level under way.
  ghost predicate Mirrors(st: State, depths: seq<int>, counts: seq<nat>, succ: iset<nat>, pushed: seq<nat>) {
    && st.depths == depths && st.counts == counts && st.pushed == pushed
    && forall p: nat :: p in succ <==> p in st.succ
  }

  ghost predicate Searching(g: Graph, s: nat, depth: seq<int>, level: nat, st: State, all: seq<nat>) {
    Inv(g, s, depth, level, st) && Bfs.Enqueued(all, st.depths)
  }

  lemma EdgeStep(g: Graph, s: nat, depth: seq<int>, level: nat, st: State, all: seq<nat>, u: nat)
    requires Searching(g, s, depth, level, st, all) && Enabled(g, depth, level, st, u) && st.procs[u].pc == Look
    ensures var v := g.outs[u][st.procs[u].k];
      && Searching(g, s, depth, level, AfterEdge(g, depth, level, st, u), if st.depths[v] == -1 then all + [v] else all)
      && (st.depths[v] == -1 ==> |all| < g.N())
      && Slot(g, u, st.procs[u].k) < EntriesTo(g, g.N())
  {
    var k := st.procs[u].k;
    var v := g.outs[u][k];
    EdgeKeepsInv(g, s, depth, level, st, u);
    SlotsDiffer(g, u, k, u, k);
    if st.depths[v] == -1 {
      Bfs.RoomForOne(all, st.depths, v);
      Bfs.ClaimIsEnqueued(all, st.depths, level + 1, v);
    }
  }

  ghost predicate Apart(depths: array<int>, pathCounts: array<nat>, words: array<bv64>, local: array<nat>,
                        shared: array<nat>)
  {
    && depths as object != pathCounts && depths as object != words && depths as object != local
      && depths as object != shared
    && pathCounts as object != words && pathCounts != local && pathCounts != shared
    && words as object != local && words as object != shared && local != shared
  }

  // The concrete data hold the state st; base is what was queued before this level.
  ghost predicate Holding(g: Graph, depths: array<int>, pathCounts: array<nat>, succ: B.Bitmap, lqueue: Q.QueueBuffer,
                          st: State, base: seq<nat>)
    reads depths, pathCounts, succ, succ.words, lqueue, lqueue.localQueue, lqueue.sq, lqueue.sq.shared
  {
    && lqueue.Valid() && Apart(depths, pathCounts, succ.words, lqueue.localQueue, lqueue.sq.shared)
    && g.N() <= lqueue.sq.shared.Length && succ.Covers(EntriesTo(g, g.N()))
    && Mirrors(st, depths[..], pathCounts[..], Bfs.Bits(succ), lqueue.sq.Pending() + lqueue.Held())
    && lqueue.sq.All() + lqueue.Held() == base + (lqueue.sq.Pending() + lqueue.Held())
  }

  // The body of the inner loop.
  method SearchEdge(g: Graph, depths: array<int>, pathCounts: array<nat>, succ: B.Bitmap, lqueue: Q.QueueBuffer,
                    u: nat, k: nat, level: nat, ghost s: nat, ghost depth: seq<int>, ghost st: State,
                    ghost base: seq<nat>)
    returns (ghost st': State)
    requires Holding(g, depths, pathCounts, succ, lqueue, st, base)
    requires Searching(g, s, depth, level, st, lqueue.sq.All() + lqueue.Held())
    requires Enabled(g, depth, level, st, u) && st.procs[u] == Proc(k, Look)
    modifies depths, pathCounts, succ.words, lqueue`in', lqueue.localQueue, lqueue.sq`sharedIn, lqueue.sq.shared
    ensures Holding(g, depths, pathCounts, succ, lqueue, st', base) && lqueue.sq.Window() == old(lqueue.sq.Window())
    ensures st' == AfterEdge(g, depth, level, st, u)
    ensures Searching(g, s, depth, level, st', lqueue.sq.All() + lqueue.Held())
  {
    hide Searching, B.Member, B.WithMember, Slot, EntriesTo;
    var v := g.outs[u][k];
    ghost var depths0 := depths[..];
    EdgeStep(g, s, depth, level, st, lqueue.sq.All() + lqueue.Held(), u);
    st' := AfterEdge(g, depth, level, st, u);
    if depths[v] == -1 {
      depths[v] := level + 1;
      assert depths[..] == depths0[v := level + 1];
      ghost var pushed := lqueue.sq.Pending() + lqueue.Held();
      lqueue.PushBack(v);
      assert base + (pushed + [v]) == (base + pushed) + [v];
    }
    if depths[v] == level + 1 {
      CountDown(pathCounts, succ, u, v, Slot(g, u, k));
    }
  }

  // The edge leads one level down: mark it and add the paths to its tail.
  method CountDown(pathCounts: array<nat>, succ: B.Bitmap, u: nat, v: nat, slot: nat)
    requires u < pathCounts.Length && v < pathCounts.Length && B.WordOffset(slot) < succ.words.Length
    requires pathCounts as object != succ.words
    modifies pathCounts, succ.words
    ensures pathCounts[..] == old(pathCounts[..])[v := old(pathCounts[v]) + old(pathCounts[u])]
    ensures forall p: nat :: p in Bfs.Bits(succ) <==> p == slot || p in old(Bfs.Bits(succ))
  {
    hide B.Member;
    ghost var counts0 := pathCounts[..];
    succ.SetBit(slot);
    pathCounts[v] := pathCounts[v] + pathCounts[u];
    assert pathCounts[..] == counts0[v := counts0[v] + counts0[u]];
  }

  lemma EnabledAt(g: Graph, s: nat, depth: seq<int>, level: nat, st: State, all: seq<nat>, u: nat, k: nat)
    requires Searching(g, s, depth, level, st, all) && u < g.N() && u < |depth| && depth[u] == level
    requires u < |st.procs| && st.procs[u] == Proc(k, Look) && k < |g.outs[u]|
    ensures Enabled(g, depth, level, st, u)
  {
  }

  // All neighbours of one vertex of the window.
  method SearchVertex(g: Graph, depths: array<int>, pathCounts: array<nat>, succ: B.Bitmap, lqueue: Q.QueueBuffer,
                      u: nat, level: nat, ghost s: nat, ghost depth: seq<int>, ghost st: State, ghost base: seq<nat>)
    returns (ghost st': State)
    requires Holding(g, depths, pathCounts, succ, lqueue, st, base)
    requires Searching(g, s, depth, level, st, lqueue.sq.All() + lqueue.Held())
    requires u < g.N() && u < |depth| && depth[u] == level && u < |st.procs| && st.procs[u] == Proc(0, Look)
    modifies depths, pathCounts, succ.words, lqueue`in', lqueue.localQueue, lqueue.sq`sharedIn, lqueue.sq.shared
    ensures Holding(g, depths, pathCounts, succ, lqueue, st', base) && lqueue.sq.Window() == old(lqueue.sq.Window())
    ensures Searching(g, s, depth, level, st', lqueue.sq.All() + lqueue.Held())
    ensures st'.procs == st.procs[u := Proc(|g.outs[u]|, Look)]
  {
    hide Searching, Mirrors, B.Member;
    st' := st;
    for k := 0 to |g.outs[u]|
      invariant Holding(g, depths, pathCounts, succ, lqueue, st', base) && lqueue.sq.Window() == old(lqueue.sq.Window())
      invariant Searching(g, s, depth, level, st', lqueue.sq.All() + lqueue.Held())
      invariant st'.procs == st.procs[u := Proc(k, Look)]
    {
      EnabledAt(g, s, depth, level, st', lqueue.sq.All() + lqueue.Held(), u, k);
      st' := SearchEdge(g, depths, pathCounts, succ, lqueue, u, k, level, s, depth, st', base);
    }
  }

  // The vertices of the list are done, the others have not begun.
  ghost predicate DoneAre(g: Graph, procs: seq<Proc>, done: seq<nat>) {
    && |procs| == g.N()
    && forall u: nat | u < g.N() :: procs[u] == Proc(if u in done then |g.outs[u]| else 0, Look)
  }

  lemma DoneNext(g: Graph, procs: seq<Proc>, window: seq<nat>, i: nat)
    requires i < |window| && window[i] < g.N() && DoneAre(g, procs, window[..i])
    requires forall a, b | 0 <= a < b < |window| :: window[a] != window[b]
    ensures procs[window[i]] == Proc(0, Look)
    ensures DoneAre(g, procs[window[i] := Proc(|g.outs[window[i]]|, Look)], window[..i + 1])
  {
    assert window[i] !in window[..i];
    assert window[..i + 1] == window[..i] + [window[i]];
  }

  // All vertices of the window.
  method SearchWindow(g: Graph, depths: array<int>, pathCounts: array<nat>, succ: B.Bitmap, lqueue: Q.QueueBuffer,
                      level: nat, ghost s: nat, ghost depth: seq<int>, ghost st: State, ghost base: seq<nat>)
    returns (ghost st': State)
    requires Holding(g, depths, pathCounts, succ, lqueue, st, base)
    requires Searching(g, s, depth, level, st, lqueue.sq.All() + lqueue.Held()) && |depth| == g.N()
    requires |st.procs| == g.N() && DoneAre(g, st.procs, [])
    requires forall i: nat | i < |lqueue.sq.Window()| ::
      lqueue.sq.Window()[i] < g.N() && depth[lqueue.sq.Window()[i]] == level
    requires forall a, b | 0 <= a < b < |lqueue.sq.Window()| :: lqueue.sq.Window()[a] != lqueue.sq.Window()[b]
    modifies depths, pathCounts, succ.words, lqueue`in', lqueue.localQueue, lqueue.sq`sharedIn, lqueue.sq.shared
    ensures Holding(g, depths, pathCounts, succ, lqueue, st', base) && lqueue.sq.Window() == old(lqueue.sq.Window())
    ensures Searching(g, s, depth, level, st', lqueue.sq.All() + lqueue.Held())
    ensures DoneAre(g, st'.procs, lqueue.sq.Window())
  {
    hide Searching, Mirrors, DoneAre, B.Member;
    st' := st;
    ghost var window := lqueue.sq.Window();
    var first, last := lqueue.sq.sharedOutStart, lqueue.sq.sharedOutEnd;
    assert window[..0] == [];
    for q := first to last
      invariant Holding(g, depths, pathCounts, succ, lqueue, st', base) && lqueue.sq.Window() == window
      invariant Searching(g, s, depth, level, st', lqueue.sq.All() + lqueue.Held())
      invariant |st'.procs| == g.N() && DoneAre(g, st'.procs, window[..q - first])
    {
      var u := lqueue.sq.shared[q];
      assert u == lqueue.sq.Window()[q - first] == window[q - first];
      DoneNext(g, st'.procs, window, q - first);
      st' := SearchVertex(g, depths, pathCounts, succ, lqueue, u, level, s, depth, st', base);
    }
    assert window[..last - first] == window;
  }

  // ------------------------------------------------------------ the depth index

  // The entries cut what was queued: first an empty piece, then one level each.
  ghost predicate Indexed(depth: seq<int>, all: seq<nat>, index: seq<nat>) {
    && |index| >= 2 && index[0] == index[1] == 0 && index[|index| - 1] <= |all|
    && (forall i: nat {:trigger index[i + 1]} | i + 1 < |index| :: index[i] <= index[i + 1])
    && (forall i: nat {:trigger PieceOk(depth, all, index, i)} | 1 <= i < |index| - 1 :: PieceOk(depth, all, index, i))
  }

  ghost predicate PieceOk(depth: seq<int>, all: seq<nat>, index: seq<nat>, i: nat) {
    && i + 1 < |index| && index[i] <= index[i + 1] <= |all|
    && ListsDepth(depth, all[index[i]..index[i + 1]], i - 1)
  }

  lemma {:induction false} IndexGrows(depth: seq<int>, all: seq<nat>, index: seq<nat>, i: nat)
    requires Indexed(depth, all, index) && i < |index|
    ensures index[i] <= index[|index| - 1]
    decreases |index| - i
  {
    if i + 1 < |index| { IndexGrows(depth, all, index, i + 1); }
  }

  // The next level adds its piece and leaves the earlier ones alone.
  lemma IndexStep(g: Graph, s: nat, depth: seq<int>, level: nat, all: seq<nat>, all': seq<nat>, index: seq<nat>,
                  window: seq<nat>)
    requires Wave(g, s, depth, level) && Indexed(depth, all, index) && |index| == level + 2
    requires all == all[..index[|index| - 1]] + window && all <= all' && ListsDepth(depth, window, level)
    ensures Indexed(Next(g, depth, level), all', index + [|all|])
  {
    var next, index' := Next(g, depth, level), index + [|all|];
    forall i: nat | 1 <= i < |index'| - 1 ensures PieceOk(next, all', index', i) {
      if i < |index| - 1 {
        assert PieceOk(depth, all, index, i);
        assert all'[index'[i]..index'[i + 1]] == all[index[i]..index[i + 1]];
        ListsDepthLater(g, s, depth, level, all[index[i]..index[i + 1]], i - 1);
      } else {
        assert all'[index'[i]..index'[i + 1]] == window;
        ListsDepthLater(g, s, depth, level, window, level);
      }
    }
    forall i: nat | i + 1 < |index'| ensures index'[i] <= index'[i + 1] {
      if i + 1 < |index| { assert index[i] <= index[i + 1]; }
    }
  }

  lemma ListsDepthLater(g: Graph, s: nat, depth: seq<int>, level: nat, piece: seq<nat>, d: nat)
    requires Wave(g, s, depth, level) && ListsDepth(depth, piece, d) && d <= level
    ensures ListsDepth(Next(g, depth, level), piece, d)
  {
    forall v: nat ensures v in piece <==> v < |depth| && Next(g, depth, level)[v] == d {
      assert v in piece <==> v < |depth| && depth[v] == d;
    }
  }

  // ------------------------------------------------------------ levels in a row

  ghost predicate AtLevel(g: Graph, s: nat, depth: seq<int>, level: nat, depths: seq<int>, counts: seq<nat>,
                          succ: iset<nat>, bits: set<nat>, window: seq<nat>, all: seq<nat>, index: seq<nat>)
  {
    && LevelOk(g, s, depth, level, counts, bits) && depths == depth
    && (forall p: nat :: p in succ <==> p in bits)
    && ListsDepth(depth, window, level) && Bfs.Enqueued(all, depth)
    && Indexed(depth, all, index) && |index| == level + 2 && all == all[..index[|index| - 1]] + window
  }

  lemma LevelBegins(g: Graph, s: nat, depth: seq<int>, level: nat, depths: seq<int>, counts: seq<nat>, succ: iset<nat>,
                    bits: set<nat>, window: seq<nat>, all: seq<nat>, index: seq<nat>)
    requires AtLevel(g, s, depth, level, depths, counts, succ, bits, window, all, index)
    ensures var st := Start(g, depth, counts, bits);
      && Searching(g, s, depth, level, st, all) && Mirrors(st, depths, counts, succ, [])
      && |st.procs| == |depth| == g.N() && DoneAre(g, st.procs, []) && g.Valid()
    ensures forall i: nat | i < |window| :: window[i] < g.N() && depth[window[i]] == level
    ensures forall a, b | 0 <= a < b < |window| :: window[a] != window[b]
  {
    StartInv(g, s, depth, level, counts, bits);
    forall i: nat | i < |window| ensures window[i] < g.N() && depth[window[i]] == level { assert window[i] in window; }
  }

  // A finished level, its pushes queued behind the earlier ones.
  lemma LevelAdvances(g: Graph, s: nat, depth: seq<int>, level: nat, depths0: seq<int>, counts0: seq<nat>,
                      succ0: iset<nat>, bits0: set<nat>, window: seq<nat>, all: seq<nat>, index: seq<nat>,
                      counts: seq<nat>, succ: iset<nat>, bits: set<nat>, pushed: seq<nat>, all': seq<nat>)
    requires AtLevel(g, s, depth, level, depths0, counts0, succ0, bits0, window, all, index)
    requires LevelOk(g, s, Next(g, depth, level), level + 1, counts, bits) && forall p: nat :: p in succ <==> p in bits
    requires ListsDepth(Next(g, depth, level), pushed, level + 1)
    requires all' == all + pushed && Bfs.Enqueued(all', Next(g, depth, level))
    ensures AtLevel(g, s, Next(g, depth, level), level + 1, Next(g, depth, level), counts, succ, bits, pushed, all',
                    index + [|all|])
    ensures pushed != [] ==> Bfs.Unvisited(Next(g, depth, level), g.N()) < Bfs.Unvisited(depth, g.N())
    ensures Bfs.Unvisited(Next(g, depth, level), g.N()) <= Bfs.Unvisited(depth, g.N())
  {
    IndexStep(g, s, depth, level, all, all', index, window);
    Bfs.NextVisitsMore(g, s, depth, level, g.N());
    if pushed != [] {
      assert pushed[0] in pushed;
      assert -1 <= depth[pushed[0]] <= level;
      Bfs.NextVisitsOne(g, s, depth, level, g.N(), pushed[0]);
    }
  }

  lemma LevelDone(g: Graph, s: nat, depth: seq<int>, level: nat, st: State, all: seq<nat>, all': seq<nat>,
                  index: seq<nat>, window: seq<nat>, depths0: seq<int>, counts0: seq<nat>, succ0: iset<nat>,
                  bits0: set<nat>, depths: seq<int>, counts: seq<nat>, succ: iset<nat>, pushed: seq<nat>)
    requires Searching(g, s, depth, level, st, all') && Mirrors(st, depths, counts, succ, pushed)
    requires DoneAre(g, st.procs, window) && all' == all + pushed
    requires AtLevel(g, s, depth, level, depths0, counts0, succ0, bits0, window, all, index)
    ensures AtLevel(g, s, Next(g, depth, level), level + 1, depths, counts, succ, st.succ, pushed, all',
                    index + [|all|])
    ensures pushed != [] ==> Bfs.Unvisited(Next(g, depth, level), g.N()) < Bfs.Unvisited(depth, g.N())
    ensures Bfs.Unvisited(Next(g, depth, level), g.N()) <= Bfs.Unvisited(depth, g.N())
  {
    forall u: nat | u < g.N() && depth[u] == level ensures st.procs[u].k == |g.outs[u]| { assert u in window; }
    LevelEnds(g, s, depth, level, st);
    PushedIsNext(g, s, depth, level, st);
    LevelAdvances(g, s, depth, level, depths0, counts0, succ0, bits0, window, all, index, counts, succ, st.succ,
                  pushed, all');
  }

  // A new buffer holds nothing.
  lemma HoldingStarts(g: Graph, depths: array<int>, pathCounts: array<nat>, succ: B.Bitmap, lqueue: Q.QueueBuffer,
                      st: State, base: seq<nat>)
    requires lqueue.Valid() && Apart(depths, pathCounts, succ.words, lqueue.localQueue, lqueue.sq.shared)
    requires lqueue.Held() == [] && lqueue.sq.Pending() == [] && base == lqueue.sq.All()
    requires g.N() <= lqueue.sq.shared.Length && succ.Covers(EntriesTo(g, g.N()))
    requires Mirrors(st, depths[..], pathCounts[..], Bfs.Bits(succ), [])
    ensures Holding(g, depths, pathCounts, succ, lqueue, st, base)
    ensures lqueue.sq.All() + lqueue.Held() == base
  {
    assert lqueue.sq.Pending() + lqueue.Held() == [] && lqueue.sq.All() + lqueue.Held() == base;
  }

  lemma HoldingFacts(g: Graph, depths: array<int>, pathCounts: array<nat>, succ: B.Bitmap, lqueue: Q.QueueBuffer,
                     st: State, base: seq<nat>)
    requires Holding(g, depths, pathCounts, succ, lqueue, st, base)
    ensures lqueue.Valid() && g.N() <= lqueue.sq.shared.Length
    ensures Apart(depths, pathCounts, succ.words, lqueue.localQueue, lqueue.sq.shared)
    ensures Mirrors(st, depths[..], pathCounts[..], Bfs.Bits(succ), lqueue.sq.Pending() + lqueue.Held())
    ensures lqueue.sq.All() + lqueue.Held() == base + (lqueue.sq.Pending() + lqueue.Held())
    ensures lqueue.sq.sharedIn + lqueue.in' == |lqueue.sq.All() + lqueue.Held()|
  {
  }

  // The parallel loop of a level and the flush.
  method SearchAndFlush(g: Graph, depths: array<int>, pathCounts: array<nat>, succ: B.Bitmap, queue: Q.SlidingQueue,
                        level: nat, ghost s: nat, ghost depth: seq<int>, ghost st: State)
    returns (ghost st': State)
    requires queue.Valid() && queue.Pending() == [] && g.N() <= queue.shared.Length && succ.Covers(EntriesTo(g, g.N()))
    requires depths as object != pathCounts && depths as object != succ.words && depths as object != queue.shared
    requires pathCounts as object != succ.words && pathCounts != queue.shared && succ.words as object != queue.shared
    requires Searching(g, s, depth, level, st, queue.All())
      && Mirrors(st, depths[..], pathCounts[..], Bfs.Bits(succ), [])
    requires |st.procs| == |depth| == g.N() && DoneAre(g, st.procs, [])
    requires forall i: nat | i < |queue.Window()| :: queue.Window()[i] < g.N() && depth[queue.Window()[i]] == level
    requires forall a, b | 0 <= a < b < |queue.Window()| :: queue.Window()[a] != queue.Window()[b]
    modifies depths, pathCounts, succ.words, queue`sharedIn, queue.shared
    ensures queue.Valid() && queue.Window() == old(queue.Window()) && queue.All() == old(queue.All()) + queue.Pending()
    ensures Searching(g, s, depth, level, st', queue.All()) && DoneAre(g, st'.procs, queue.Window())
    ensures Mirrors(st', depths[..], pathCounts[..], Bfs.Bits(succ), queue.Pending())
  {
    hide Searching, Mirrors, DoneAre, B.Member, EntriesTo, Bfs.Bits, Holding;
    ghost var all := queue.All();
    var lqueue := new Q.QueueBuffer(queue, 16384);
    HoldingStarts(g, depths, pathCounts, succ, lqueue, st, all);
    st' := SearchWindow(g, depths, pathCounts, succ, lqueue, level, s, depth, st, all);
    HoldingFacts(g, depths, pathCounts, succ, lqueue, st', all);
    FitsQueue(g, s, depth, level, st', lqueue.sq.All() + lqueue.Held());
    lqueue.Flush();
  }

  // One level: the parallel loop, the flush, and the slide to what was found.
  method SearchLevel(g: Graph, depths: array<int>, pathCounts: array<nat>, succ: B.Bitmap, queue: Q.SlidingQueue,
                     index: seq<nat>, level: nat, ghost s: nat, ghost depth: seq<int>, ghost bits: set<nat>)
    returns (index': seq<nat>, ghost next: seq<int>, ghost bits': set<nat>)
    requires queue.Valid() && queue.Pending() == [] && g.N() <= queue.shared.Length && succ.Covers(EntriesTo(g, g.N()))
    requires depths as object != pathCounts && depths as object != succ.words && depths as object != queue.shared
    requires pathCounts as object != succ.words && pathCounts != queue.shared && succ.words as object != queue.shared
    requires |index| > 0 && AtLevel(g, s, depth, level, depths[..], pathCounts[..], Bfs.Bits(succ), bits,
                                    queue.Window(), queue.All(), index + [queue.sharedOutStart])
    modifies depths, pathCounts, succ.words, queue, queue.shared
    ensures queue.Valid() && queue.Pending() == [] && |index'| > 0
    ensures AtLevel(g, s, next, level + 1, depths[..], pathCounts[..], Bfs.Bits(succ), bits', queue.Window(),
                    queue.All(), index' + [queue.sharedOutStart])
    ensures |next| == |depth| == g.N() && Bfs.Unvisited(next, |next|) <= Bfs.Unvisited(depth, |depth|)
    ensures queue.Window() != [] ==> Bfs.Unvisited(next, |next|) < Bfs.Unvisited(depth, |depth|)
  {
    hide AtLevel, Searching, Mirrors, DoneAre, Next, LevelOk, ListsDepth, Indexed, B.Member;
    ghost var all, window, full := queue.All(), queue.Window(), index + [queue.sharedOutStart];
    ghost var depths0, counts0, succ0 := depths[..], pathCounts[..], Bfs.Bits(succ);
    LevelBegins(g, s, depth, level, depths0, counts0, succ0, bits, window, all, full);
    ghost var st := SearchAndFlush(g, depths, pathCounts, succ, queue, level, s, depth, Start(g, depth, counts0, bits));
    next, bits' := Next(g, depth, level), st.succ;
    LevelDone(g, s, depth, level, st, all, queue.All(), full, window, depths0, counts0, succ0, bits, depths[..],
              pathCounts[..], Bfs.Bits(succ), queue.Pending());
    index' := index + [queue.sharedOutStart];
    queue.SlideWindow();
  }

  lemma FitsQueue(g: Graph, s: nat, depth: seq<int>, level: nat, st: State, all: seq<nat>)
    requires Searching(g, s, depth, level, st, all)
    ensures |all| <= g.N()
  {
    Bfs.AllFits(all, st.depths);
  }

  // ------------------------------------------------------------- the whole search

  // What the search hands to back-propagation.
  ghost predicate Searched(g: Graph, s: nat, depth: seq<int>, counts: seq<nat>, succ: iset<nat>, all: seq<nat>,
                           index: seq<nat>)
  {
    && g.Valid() && s < g.N() && Depths(g, s, depth) && |counts| == g.N()
    && (forall v: nat | v < g.N() :: counts[v] == if depth[v] >= 0 then ShortestPaths(g, s, depth, v) else 0)
    && (forall u: nat, k: nat {:trigger Slot(g, u, k)} | u < g.N() && k < |g.outs[u]| ::
        Slot(g, u, k) in succ <==> IsSucc(g, depth, u, k))
    && Indexed(depth, all, index)
    && (forall v: nat | v < g.N() :: depth[v] < |index| - 2)
  }

  lemma FirstLevel(g: Graph, s: nat, counts: seq<nat>, succ: iset<nat>)
    requires g.Valid() && s < g.N() && |counts| == g.N() && counts[s] == 1 && forall v: nat | v < g.N() && v != s ::
      counts[v] == 0
    requires forall p: nat :: p !in succ
    ensures AtLevel(g, s, FirstWave(g, s), 0, FirstWave(g, s), counts, succ, {}, [s], [s], [0, 0])
  {
    FirstWaveIsWave(g, s);
    var depth := FirstWave(g, s);
    forall v: nat | v < g.N() ensures CountOk(g, s, depth, v, counts[v]) {}
    forall u: nat, k: nat | u < g.N() && k < |g.outs[u]| ensures SuccOk(g, depth, 0, {}, u, k) {}
  }

  lemma SearchEnds(g: Graph, s: nat, depth: seq<int>, level: nat, depths: seq<int>, counts: seq<nat>, succ: iset<nat>,
                   bits: set<nat>, all: seq<nat>, index: seq<nat>)
    requires AtLevel(g, s, depth, level, depths, counts, succ, bits, [], all, index)
    ensures Searched(g, s, depth, counts, succ, all, index)
  {
    forall v: nat | v < g.N() ensures depth[v] < level {
      assert v !in [];
      assert depth[v] <= level;
    }
    EmptyLevelIsExact(g, s, depth, level);
    forall v: nat | v < g.N() ensures counts[v] == if depth[v] >= 0 then ShortestPaths(g, s, depth, v) else 0 {
      assert CountOk(g, s, depth, v, counts[v]);
    }
    forall u: nat, k: nat | u < g.N() && k < |g.outs[u]| ensures Slot(g, u, k) in succ <==> IsSucc(g, depth, u, k) {
      assert SuccOk(g, depth, level, bits, u, k);
    }
  }

  lemma FirstDepths(g: Graph, s: nat, depths: seq<int>)
    requires s < g.N() == |depths| && depths[s] == 0 && forall v: nat | v < g.N() && v != s :: depths[v] == -1
    ensures depths == FirstWave(g, s)
  {
  }

  // Counts shortest paths level by level and notes where each level was queued.
  method PBFS(g: Graph, source: nat, pathCounts: array<nat>, succ: B.Bitmap, queue: Q.SlidingQueue)
    returns (depthIndex: seq<nat>, ghost depth: seq<int>)
    requires g.Valid() && source < g.N() && pathCounts.Length == g.N() && forall v: nat | v < g.N() ::
      pathCounts[v] == 0
    requires succ.Covers(EntriesTo(g, g.N())) && forall p: nat :: !succ.Has(p)
    requires queue.Valid() && queue.All() == [] && queue.Window() == [] && queue.sharedIn == 0
      && g.N() <= queue.shared.Length
    requires pathCounts as object != succ.words && pathCounts != queue.shared && succ.words as object != queue.shared
    modifies pathCounts, succ.words, queue, queue.shared
    ensures queue.Valid() && |depth| == g.N()
    ensures Searched(g, source, depth, pathCounts[..], Bfs.Bits(succ), queue.All(), depthIndex)
  {
    hide AtLevel, Searched, FirstWave, B.Member;
    var depths := new int[g.N()](_ => -1);
    depths[source] := 0;
    FirstDepths(g, source, depths[..]);
    pathCounts[source] := 1;
    queue.PushBack(source);
    depthIndex := [queue.sharedOutStart];
    queue.SlideWindow();
    FirstLevel(g, source, pathCounts[..], Bfs.Bits(succ));
    assert queue.All() == [source] && queue.Window() == [source] && depthIndex + [queue.sharedOutStart] == [0, 0];
    ghost var level, bits;
    depthIndex, depth, level, bits := SearchLevels(g, depths, pathCounts, succ, queue, depthIndex, source);
    SearchEnds(g, source, depth, level, depths[..], pathCounts[..], Bfs.Bits(succ), bits, queue.All(),
               depthIndex + [queue.sharedOutStart]);
    depthIndex := depthIndex + [queue.sharedOutStart];
  }

  // Level after level until nothing new is found.
  method SearchLevels(g: Graph, depths: array<int>, pathCounts: array<nat>, succ: B.Bitmap, queue: Q.SlidingQueue,
                      index: seq<nat>, ghost s: nat)
    returns (index': seq<nat>, ghost depth: seq<int>, ghost level: nat, ghost bits: set<nat>)
    requires queue.Valid() && queue.Pending() == [] && g.N() <= queue.shared.Length
      && succ.Covers(EntriesTo(g, g.N())) && s < g.N()
    requires depths as object != pathCounts && depths as object != succ.words && depths as object != queue.shared
    requires pathCounts as object != succ.words && pathCounts != queue.shared && succ.words as object != queue.shared
    requires |index| > 0 && AtLevel(g, s, FirstWave(g, s), 0, depths[..], pathCounts[..], Bfs.Bits(succ), {},
                                    queue.Window(), queue.All(), index + [queue.sharedOutStart])
    modifies depths, pathCounts, succ.words, queue, queue.shared
    ensures queue.Valid() && |depth| == g.N()
    ensures AtLevel(g, s, depth, level, depths[..], pathCounts[..], Bfs.Bits(succ), bits, [], queue.All(),
                    index' + [queue.sharedOutStart])
  {
    hide AtLevel, B.Member;
    index', depth, bits := index, FirstWave(g, s), {};
    var depthNow: nat := 0;
    while !queue.Empty()
      invariant queue.Valid() && queue.Pending() == [] && |index'| > 0 && |depth| == g.N()
      invariant AtLevel(g, s, depth, depthNow, depths[..], pathCounts[..], Bfs.Bits(succ), bits, queue.Window(),
                        queue.All(), index' + [queue.sharedOutStart])
      decreases Bfs.Unvisited(depth, |depth|), queue.Window() != []
    {
      index', depth, bits := SearchLevel(g, depths, pathCounts, succ, queue, index', depthNow, s, depth, bits);
      depthNow := depthNow + 1;
    }
    assert queue.Window() == [];
    level := depthNow;
  }
}
