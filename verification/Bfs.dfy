// The direction-optimizing breadth-first search as one thread runs it.
module Bfs {
  import opened Components
  import opened Layers
  import opened BfsTrees
  import opened BfsPlans
  import opened Bitmaps
  import opened SlidingQueues
  import EdgeCounts
  import Lists

  method InitParent(g: Graph) returns (parent: array<int>)
    ensures fresh(parent) && parent.Length == g.N()
    ensures forall v: nat | v < g.N() :: parent[v] == InitialParent(g, v)
    ensures forall v: nat | v < g.N() :: parent[v] == if g.outs[v] == [] then -1 else -|g.outs[v]|
  {
    parent := new int[g.N()];
    for n := 0 to g.N()
      invariant forall v: nat | v < n :: parent[v] == InitialParent(g, v)
    {
      parent[n] := if |g.outs[n]| != 0 then -|g.outs[n]| else -1;
    }
  }

  // ---------------------------------------------------------------- top down

  // The queue has taken distinct vertices only, all of them visited.
  ghost predicate Enqueued(all: seq<nat>, parent: seq<int>) {
    && (forall x | x in all :: x < |parent| && parent[x] >= 0)
    && (forall i, j | 0 <= i < j < |all| :: all[i] != all[j])
  }

  // So there is always room for one more.
  lemma RoomForOne(all: seq<nat>, parent: seq<int>, v: nat)
    requires Enqueued(all, parent) && v < |parent| && parent[v] < 0
    ensures |all| < |parent|
  {
    var more := all + [v];
    forall i | 0 <= i < |all| ensures all[i] != v { assert all[i] in all; }
    forall x | x in more ensures x < |parent| { assert x in all || x == v; }
    Lists.DistinctFits(|parent|, more);
  }

  lemma AllFits(all: seq<nat>, parent: seq<int>)
    requires Enqueued(all, parent)
    ensures |all| <= |parent|
  {
    Lists.DistinctFits(|parent|, all);
  }

  lemma ClaimIsEnqueued(all: seq<nat>, parent: seq<int>, u: nat, v: nat)
    requires Enqueued(all, parent) && v < |parent| && parent[v] < 0
    ensures Enqueued(all + [v], parent[v := u])
  {
    forall i | 0 <= i < |all| ensures all[i] != v { assert all[i] in all; }
    forall x | x in all + [v] ensures x < |parent| && parent[v := u][x] >= 0 { assert x in all || x == v; }
  }

  ghost predicate TopDown(g: Graph, s: nat, depth: seq<int>, level: nat, parent: seq<int>, pushed: seq<nat>,
                          all: seq<nat>, scout: int)
  {
    Visiting(g, s, depth, level, parent) && ListsNew(depth, parent, pushed) && Enqueued(all, parent)
      && scout == DegreeSum(g, pushed)
  }

  lemma ClaimStep(g: Graph, s: nat, depth: seq<int>, level: nat, parent: seq<int>, pushed: seq<nat>, all: seq<nat>,
                  scout: int, u: nat, v: nat)
    requires TopDown(g, s, depth, level, parent, pushed, all, scout)
    requires u < g.N() && v < g.N() && depth[u] == level && v in g.outs[u] && parent[v] < 0
    ensures TopDown(g, s, depth, level, parent[v := u], pushed + [v], all + [v], scout - parent[v]) && |all| < g.N()
  {
    assert VisitOk(g, s, depth, level, v, parent[v]);
    ClaimKeepsVisiting(g, s, depth, level, parent, u, v);
    ClaimIsListed(g, depth, parent, pushed, u, v);
    RoomForOne(all, parent, v);
    ClaimIsEnqueued(all, parent, u, v);
  }

  // One edge: read, compare and swap, push.
  method TDEdge(g: Graph, parent: array<int>, lqueue: QueueBuffer, u: nat, v: nat, scout0: int, ghost s: nat,
                ghost depth: seq<int>, ghost level: nat)
    returns (scout: int)
    requires lqueue.Valid() && parent as object != lqueue.localQueue && parent as object != lqueue.sq.shared
    requires parent.Length == g.N() <= lqueue.sq.shared.Length
    requires TopDown(g, s, depth, level, parent[..], lqueue.sq.Pending() + lqueue.Held(),
                     lqueue.sq.All() + lqueue.Held(), scout0)
    requires u < g.N() && v < g.N() && depth[u] == level && v in g.outs[u]
    modifies parent, lqueue`in', lqueue.localQueue, lqueue.sq`sharedIn, lqueue.sq.shared
    ensures lqueue.Valid() && lqueue.sq.Window() == old(lqueue.sq.Window())
    ensures TopDown(g, s, depth, level, parent[..], lqueue.sq.Pending() + lqueue.Held(),
                    lqueue.sq.All() + lqueue.Held(), scout)
    ensures parent[v] >= 0 && forall x: nat | x < g.N() && old(parent[x]) >= 0 :: parent[x] >= 0
  {
    scout := scout0;
    var currVal := parent[v];
    if currVal < 0 {
      ghost var pushed, all, before := lqueue.sq.Pending() + lqueue.Held(), lqueue.sq.All() + lqueue.Held(), parent[..];
      ClaimStep(g, s, depth, level, before, pushed, all, scout, u, v);
      parent[v] := u;
      assert parent[..] == before[v := u];
      lqueue.PushBack(v);
      scout := scout - currVal;
    }
  }

  // All edges of one vertex of the window.
  method TDVertex(g: Graph, parent: array<int>, lqueue: QueueBuffer, u: nat, scout0: int, ghost s: nat,
                  ghost depth: seq<int>, ghost level: nat)
    returns (scout: int)
    requires lqueue.Valid() && parent as object != lqueue.localQueue && parent as object != lqueue.sq.shared
    requires parent.Length == g.N() <= lqueue.sq.shared.Length
    requires TopDown(g, s, depth, level, parent[..], lqueue.sq.Pending() + lqueue.Held(),
                     lqueue.sq.All() + lqueue.Held(), scout0)
    requires u < g.N() && depth[u] == level
    modifies parent, lqueue`in', lqueue.localQueue, lqueue.sq`sharedIn, lqueue.sq.shared
    ensures lqueue.Valid() && lqueue.sq.Window() == old(lqueue.sq.Window())
    ensures TopDown(g, s, depth, level, parent[..], lqueue.sq.Pending() + lqueue.Held(),
                    lqueue.sq.All() + lqueue.Held(), scout)
    ensures Covered(g, parent[..], u, |g.outs[u]|) && forall x: nat | x < g.N() && old(parent[x]) >= 0 :: parent[x] >= 0
  {
    scout := scout0;
    for j := 0 to |g.outs[u]|
      invariant lqueue.Valid() && lqueue.sq.Window() == old(lqueue.sq.Window())
      invariant TopDown(g, s, depth, level, parent[..], lqueue.sq.Pending() + lqueue.Held(),
                        lqueue.sq.All() + lqueue.Held(), scout)
      invariant Covered(g, parent[..], u, j) && forall x: nat | x < g.N() && old(parent[x]) >= 0 :: parent[x] >= 0
    {
      EdgeInRange(g, u, g.outs[u][j]);
      scout := TDEdge(g, parent, lqueue, u, g.outs[u][j], scout, s, depth, level);
    }
  }

  // All vertices of the window.
  method TDWindow(g: Graph, parent: array<int>, lqueue: QueueBuffer, ghost s: nat, ghost depth: seq<int>,
                  ghost level: nat)
    returns (scout: int)
    requires lqueue.Valid() && parent as object != lqueue.localQueue && parent as object != lqueue.sq.shared
    requires parent.Length == g.N() <= lqueue.sq.shared.Length
    requires TopDown(g, s, depth, level, parent[..], lqueue.sq.Pending() + lqueue.Held(),
                     lqueue.sq.All() + lqueue.Held(), 0)
    requires forall i: nat | i < |lqueue.sq.Window()| ::
      lqueue.sq.Window()[i] < g.N() && depth[lqueue.sq.Window()[i]] == level
    modifies parent, lqueue`in', lqueue.localQueue, lqueue.sq`sharedIn, lqueue.sq.shared
    ensures lqueue.Valid() && lqueue.sq.Window() == old(lqueue.sq.Window())
    ensures TopDown(g, s, depth, level, parent[..], lqueue.sq.Pending() + lqueue.Held(),
                    lqueue.sq.All() + lqueue.Held(), scout)
    ensures forall i: nat | i < |lqueue.sq.Window()| :: CoveredAll(g, parent[..], lqueue.sq.Window()[i])
  {
    hide TopDown, Covered;
    scout := 0;
    ghost var window := lqueue.sq.Window();
    var first, last := lqueue.sq.sharedOutStart, lqueue.sq.sharedOutEnd;
    for q := first to last
      invariant lqueue.Valid() && lqueue.sq.Window() == window
      invariant TopDown(g, s, depth, level, parent[..], lqueue.sq.Pending() + lqueue.Held(),
                        lqueue.sq.All() + lqueue.Held(), scout)
      invariant forall i: nat | i < q - first :: CoveredAll(g, parent[..], window[i])
    {
      var u := lqueue.sq.shared[q];
      assert u == lqueue.sq.Window()[q - first] == window[q - first];
      ghost var before := parent[..];
      scout := TDVertex(g, parent, lqueue, u, scout, s, depth, level);
      forall i: nat | i < q - first ensures CoveredAll(g, parent[..], window[i]) {
        CoveredStays(g, before, parent[..], window[i]);
      }
    }
  }

  ghost predicate CoveredAll(g: Graph, parent: seq<int>, u: nat)
    requires |parent| == g.N()
  {
    u < g.N() && Covered(g, parent, u, |g.outs[u]|)
  }

  lemma CoveredStays(g: Graph, before: seq<int>, after: seq<int>, u: nat)
    requires |before| == |after| == g.N() && CoveredAll(g, before, u)
    requires forall x: nat | x < g.N() && before[x] >= 0 :: after[x] >= 0
    ensures CoveredAll(g, after, u)
  {
  }

  // Visits the next level and queues it; the sum of its degrees.
  method TDStep(g: Graph, parent: array<int>, queue: SlidingQueue, ghost s: nat, ghost depth: seq<int>,
                ghost level: nat)
    returns (scout: int)
    requires queue.Valid() && parent as object != queue.shared && parent.Length == g.N() <= queue.shared.Length
    requires Wave(g, s, depth, level) && Tree(g, s, depth, parent[..])
    requires ListsLevel(g, depth, level, queue.Window()) && queue.Pending() == [] && Enqueued(queue.All(), parent[..])
    modifies parent, queue`sharedIn, queue.shared
    ensures queue.Valid() && Enqueued(queue.All(), parent[..])
    ensures LevelDone(g, s, depth, level, parent[..], queue.Pending(), scout)
  {
    ghost var window := queue.Window();
    var lqueue := new QueueBuffer(queue, 16384);
    TopDownStarts(g, s, depth, level, parent[..], queue.All(), window);
    assert queue.All() + lqueue.Held() == queue.All() && queue.Pending() + lqueue.Held() == [];
    scout := TDWindow(g, parent, lqueue, s, depth, level);
    AllFits(queue.All() + lqueue.Held(), parent[..]);
    lqueue.Flush();
    LevelIsDone(g, s, depth, level, parent[..], window, queue.Pending(), queue.All(), scout);
  }

  lemma TopDownStarts(g: Graph, s: nat, depth: seq<int>, level: nat, parent: seq<int>, all: seq<nat>, window: seq<nat>)
    requires Wave(g, s, depth, level) && Tree(g, s, depth, parent) && Enqueued(all, parent)
      && ListsLevel(g, depth, level, window)
    ensures TopDown(g, s, depth, level, parent, [], all, 0)
    ensures forall i: nat | i < |window| :: window[i] < g.N() && depth[window[i]] == level
  {
    forall v: nat | v < g.N() ensures VisitOk(g, s, depth, level, v, parent[v]) {}
    forall i: nat | i < |window| ensures window[i] < g.N() && depth[window[i]] == level { assert window[i] in window; }
  }

  lemma LevelIsDone(g: Graph, s: nat, depth: seq<int>, level: nat, parent: seq<int>, window: seq<nat>,
                    pushed: seq<nat>, all: seq<nat>, scout: int)
    requires TopDown(g, s, depth, level, parent, pushed, all, scout) && ListsLevel(g, depth, level, window)
    requires forall i: nat | i < |window| :: CoveredAll(g, parent, window[i])
    ensures LevelDone(g, s, depth, level, parent, pushed, scout)
  {
    forall u: nat | u < g.N() && depth[u] == level ensures Covered(g, parent, u, |g.outs[u]|) {
      assert u in window;
      var i: nat :| i < |window| && window[i] == u;
      assert CoveredAll(g, parent, window[i]);
    }
    CoveredIsNext(g, s, depth, level, parent);
  }

  // --------------------------------------------------------------- bottom up

  // Vertices not visited yet, among the first k.
  ghost function Unvisited(depth: seq<int>, k: nat): nat
    requires k <= |depth|
  {
    if k == 0 then 0 else Unvisited(depth, k - 1) + if depth[k - 1] == -1 then 1 else 0
  }

  ghost function OnLevel(depth: seq<int>, level: int, k: nat): set<nat>
    requires k <= |depth|
  {
    set v: nat | v < k && depth[v] == level
  }

  lemma OnLevelNext(depth: seq<int>, level: int, k: nat)
    requires k < |depth|
    ensures |OnLevel(depth, level, k + 1)| == |OnLevel(depth, level, k)| + if depth[k] == level then 1 else 0
  {
    assert OnLevel(depth, level, k + 1) == OnLevel(depth, level, k) + if depth[k] == level then {k} else {};
  }

  lemma OnLevelNone(depth: seq<int>, level: int)
    ensures |OnLevel(depth, level, 0)| == 0
  {
    assert OnLevel(depth, level, 0) == {};
  }

  // As many have been visited as stand on the new level.
  lemma {:induction false} VisitedIsLevel(g: Graph, depth: seq<int>, level: nat, k: nat)
    requires g.Valid() && k <= |depth| == g.N() && forall v: nat | v < g.N() :: depth[v] <= level
    ensures Unvisited(depth, k) - Unvisited(Next(g, depth, level), k) == |OnLevel(Next(g, depth, level), level + 1, k)|
  {
    hide OnLevel;
    if k == 0 {
      OnLevelNone(Next(g, depth, level), level + 1);
    } else {
      VisitedIsLevel(g, depth, level, k - 1);
      OnLevelNext(Next(g, depth, level), level + 1, k - 1);
    }
  }

  lemma AwakeIsSize(g: Graph, s: nat, depth: seq<int>, level: nat)
    requires Wave(g, s, depth, level)
    ensures Unvisited(depth, g.N()) - Unvisited(Next(g, depth, level), g.N())
         == |set v: nat | v < g.N() && Next(g, depth, level)[v] == level + 1|
  {
    VisitedIsLevel(g, depth, level, g.N());
    assert OnLevel(Next(g, depth, level), level + 1, g.N())
        == set v: nat | v < g.N() && Next(g, depth, level)[v] == level + 1;
  }

  // Every visited vertex may be in `front`, and all of the last level are: a
  // stale bit is harmless, because everything its vertex leads to is visited.
  ghost predicate FrontOk(depth: seq<int>, level: nat, front: iset<nat>) {
    && (forall v: nat | v < |depth| && depth[v] == level :: v in front)
    && (forall v: nat | v in front && v < |depth| :: depth[v] >= 0)
  }

  ghost function Bits(b: Bitmap): iset<nat>
    reads b, b.words
  {
    iset p: nat | b.Has(p)
  }

  // The first k vertices have looked for a parent.
  ghost predicate BottomUp(g: Graph, s: nat, depth: seq<int>, level: nat, parent: seq<int>, next: iset<nat>,
                           awake: int, k: nat)
    requires g.Valid() && k <= |depth| == g.N()
  {
    && Visiting(g, s, depth, level, parent)
    && (forall v: nat | v < k :: depth[v] == -1 && parent[v] >= 0 <==> Next(g, depth, level)[v] == level + 1)
    && (forall v: nat | k <= v < |depth| && depth[v] == -1 :: parent[v] < 0)
    && (forall v: nat :: v in next <==> v < k && depth[v] == -1 && parent[v] >= 0)
    && awake == Unvisited(depth, k) - Unvisited(Next(g, depth, level), k)
  }

  // A front bit that an unvisited vertex sees is one of the last level.
  lemma FrontBitIsLast(g: Graph, s: nat, depth: seq<int>, level: nat, front: iset<nat>, u: nat, v: nat)
    requires Wave(g, s, depth, level) && FrontOk(depth, level, front) && u < g.N() && depth[u] == -1
    requires v in g.ins[u]
    ensures v < g.N() && u in g.outs[v] && (v in front <==> depth[v] == level)
  {
    var j :| 0 <= j < |g.ins[u]| && g.ins[u][j] == v;
    assert g.ins[u][j] < g.N();
    if 0 <= depth[v] < level { ClosedNeighbour(g, s, depth, level, v, u); }
  }

  lemma ClosedNeighbour(g: Graph, s: nat, depth: seq<int>, level: nat, v: nat, u: nat)
    requires Wave(g, s, depth, level) && v < g.N() && 0 <= depth[v] < level && u in g.outs[v]
    ensures u < g.N() && depth[u] >= 0
  {
    assert ClosedAt(g, depth, v);
  }

  lemma NotDiscovered(g: Graph, depth: seq<int>, level: nat, u: nat)
    requires g.Valid() && |depth| == g.N() && u < g.N()
    requires forall i: nat | i < |g.ins[u]| :: g.ins[u][i] < g.N() && depth[g.ins[u][i]] != level
    ensures !Discovered(g, depth, level, u)
  {
    forall x: nat | x < g.N() && u in g.outs[x] ensures depth[x] != level {
      EdgeInRange(g, x, u);
      var i: nat :| i < |g.ins[u]| && g.ins[u][i] == x;
    }
  }

  // The first in-neighbour with a front bit becomes the parent.
  method FindParent(g: Graph, front: Bitmap, u: nat, ghost s: nat, ghost depth: seq<int>, ghost level: nat)
    returns (found: bool, p: nat)
    requires Wave(g, s, depth, level) && front.Covers(g.N()) && FrontOk(depth, level, Bits(front))
    requires u < g.N() && depth[u] == -1
    ensures found <==> Discovered(g, depth, level, u)
    ensures found ==> p < g.N() && depth[p] == level && u in g.outs[p]
  {
    for j := 0 to |g.ins[u]|
      invariant forall i: nat | i < j :: g.ins[u][i] < g.N() && depth[g.ins[u][i]] != level
    {
      var v := g.ins[u][j];
      FrontBitIsLast(g, s, depth, level, Bits(front), u, v);
      var bit := front.GetBit(v);
      if bit {
        return true, v;
      }
    }
    NotDiscovered(g, depth, level, u);
    return false, 0;
  }

  lemma WakeStep(g: Graph, s: nat, depth: seq<int>, level: nat, parent: seq<int>, next: iset<nat>, awake: int, u: nat,
                 p: nat)
    requires g.Valid() && u < |depth| == g.N() && BottomUp(g, s, depth, level, parent, next, awake, u)
    requires depth[u] == -1 && p < g.N() && depth[p] == level && u in g.outs[p]
    ensures BottomUp(g, s, depth, level, parent[u := p], next + iset{u}, awake + 1, u + 1)
  {
    assert Discovered(g, depth, level, u);
    ClaimKeepsVisiting(g, s, depth, level, parent, p, u);
  }

  lemma SleepStep(g: Graph, s: nat, depth: seq<int>, level: nat, parent: seq<int>, next: iset<nat>, awake: int, u: nat)
    requires g.Valid() && u < |depth| == g.N() && BottomUp(g, s, depth, level, parent, next, awake, u)
    requires !Discovered(g, depth, level, u)
    ensures BottomUp(g, s, depth, level, parent, next, awake, u + 1)
  {
    assert depth[u] <= level;
  }

  // The next vertex is as it was before the step.
  lemma BottomUpAt(g: Graph, s: nat, depth: seq<int>, level: nat, parent: seq<int>, next: iset<nat>, awake: int, u: nat)
    requires g.Valid() && u < |depth| == g.N() && BottomUp(g, s, depth, level, parent, next, awake, u)
    ensures |parent| == g.N() && Wave(g, s, depth, level)
    ensures if parent[u] < 0 then depth[u] == -1 else !Discovered(g, depth, level, u)
  {
    assert VisitOk(g, s, depth, level, u, parent[u]);
  }

  method BUVertex(g: Graph, parent: array<int>, front: Bitmap, next: Bitmap, u: nat, awake0: int, ghost s: nat,
                  ghost depth: seq<int>, ghost level: nat)
    returns (awake: int)
    requires g.Valid() && u < |depth| == g.N() == parent.Length && front.Covers(g.N()) && next.Covers(g.N())
    requires front.words != next.words && parent as object != front.words && parent as object != next.words
    requires FrontOk(depth, level, Bits(front)) && BottomUp(g, s, depth, level, parent[..], Bits(next), awake0, u)
    modifies parent, next.words
    ensures BottomUp(g, s, depth, level, parent[..], Bits(next), awake, u + 1)
  {
    hide FrontOk, BottomUp, Member, Next, Unvisited;
    awake := awake0;
    ghost var before, bits := parent[..], Bits(next);
    BottomUpAt(g, s, depth, level, before, bits, awake, u);
    if parent[u] < 0 {
      var found, v := FindParent(g, front, u, s, depth, level);
      if found {
        WakeStep(g, s, depth, level, before, bits, awake, u, v);
        parent[u] := v;
        assert parent[..] == before[u := v];
        next.SetBit(u);
        assert Bits(next) == bits + iset{u};
        awake := awake + 1;
        return;
      }
    }
    SleepStep(g, s, depth, level, before, bits, awake, u);
  }

  lemma BottomUpStarts(g: Graph, s: nat, depth: seq<int>, level: nat, parent: seq<int>)
    requires Wave(g, s, depth, level) && Tree(g, s, depth, parent)
    ensures BottomUp(g, s, depth, level, parent, iset{}, 0, 0)
  {
    forall v: nat | v < g.N() ensures VisitOk(g, s, depth, level, v, parent[v]) {}
    forall v: nat | v < |depth| && depth[v] == -1 ensures parent[v] < 0 { assert parent[v] == InitialParent(g, v); }
  }

  lemma BottomUpEnds(g: Graph, s: nat, depth: seq<int>, level: nat, parent: seq<int>, next: iset<nat>, awake: int)
    requires g.Valid() && |depth| == g.N() && BottomUp(g, s, depth, level, parent, next, awake, g.N())
    ensures Wave(g, s, Next(g, depth, level), level + 1) && Tree(g, s, Next(g, depth, level), parent)
    ensures forall v: nat :: v in next <==> v < g.N() && Next(g, depth, level)[v] == level + 1
  {
    forall u: nat | u < g.N() && depth[u] == level ensures Covered(g, parent, u, |g.outs[u]|) {
      forall j: nat | j < |g.outs[u]| ensures g.outs[u][j] < |parent| && parent[g.outs[u][j]] >= 0 {
        var v := g.outs[u][j];
        EdgeInRange(g, u, v);
        assert VisitOk(g, s, depth, level, v, parent[v]);
        assert depth[v] == -1 ==> Discovered(g, depth, level, v);
      }
    }
    CoveredIsNext(g, s, depth, level, parent);
  }

  // Visits the next level from the unvisited side; how many vertices woke up.
  method BUStep(g: Graph, parent: array<int>, front: Bitmap, next: Bitmap, ghost s: nat, ghost depth: seq<int>,
                ghost level: nat)
    returns (awakeCount: int)
    requires Wave(g, s, depth, level) && Tree(g, s, depth, parent[..]) && front.Covers(g.N()) && next.Covers(g.N())
    requires front.words != next.words && parent as object != front.words && parent as object != next.words
    requires FrontOk(depth, level, Bits(front))
    modifies parent, next.words
    ensures Wave(g, s, Next(g, depth, level), level + 1) && Tree(g, s, Next(g, depth, level), parent[..])
    ensures forall v: nat :: next.Has(v) <==> v < g.N() && Next(g, depth, level)[v] == level + 1
    ensures awakeCount == Unvisited(depth, g.N()) - Unvisited(Next(g, depth, level), g.N())
    ensures awakeCount == |set v: nat | v < g.N() && Next(g, depth, level)[v] == level + 1|
  {
    awakeCount := 0;
    next.Reset();
    assert Bits(next) == iset{};
    BottomUpStarts(g, s, depth, level, parent[..]);
    for u := 0 to g.N()
      invariant BottomUp(g, s, depth, level, parent[..], Bits(next), awakeCount, u)
      invariant FrontOk(depth, level, Bits(front))
    {
      awakeCount := BUVertex(g, parent, front, next, u, awakeCount, s, depth, level);
    }
    BottomUpEnds(g, s, depth, level, parent[..], Bits(next), awakeCount);
    AwakeIsSize(g, s, depth, level);
    forall v: nat ensures next.Has(v) <==> v < g.N() && Next(g, depth, level)[v] == level + 1 {
      assert next.Has(v) <==> v in Bits(next);
    }
  }

  // ------------------------------------------------------------ conversions

  method QueueToBitmap(queue: SlidingQueue, bm: Bitmap, ghost n: nat)
    requires queue.Valid() && bm.Covers(n) && bm.words as object != queue.shared && forall v | v in queue.Window() ::
      v < n
    modifies bm.words
    ensures forall p: nat :: bm.Has(p) <==> old(bm.Has(p)) || p in queue.Window()
  {
    ghost var window := queue.Window();
    var first, last := queue.sharedOutStart, queue.sharedOutEnd;
    for q := first to last
      invariant queue.Window() == window && bm.words == old(bm.words)
      invariant forall p: nat :: bm.Has(p) <==> old(bm.Has(p)) || p in window[..q - first]
    {
      var u := queue.shared[q];
      assert u == queue.Window()[q - first] == window[q - first] && u in window;
      assert window[..q - first + 1] == window[..q - first] + [u];
      bm.SetBit(u);
    }
    assert window[..last - first] == window;
  }

  // The vertices below k whose bit is set, each once.
  ghost predicate ListsSet(bits: iset<nat>, pushed: seq<nat>, k: nat) {
    && (forall v: nat :: v in pushed <==> v < k && v in bits)
    && (forall i, j | 0 <= i < j < |pushed| :: pushed[i] != pushed[j])
  }

  // The vertices below k whose bit is set, in increasing order.
  ghost predicate ListsBits(bits: iset<nat>, pushed: seq<nat>, k: nat) {
    && (forall v: nat :: v in pushed <==> v < k && v in bits)
    && (forall i, j | 0 <= i < j < |pushed| :: pushed[i] < pushed[j])
  }

  lemma ListNext(bits: iset<nat>, pushed: seq<nat>, k: nat)
    requires ListsBits(bits, pushed, k)
    ensures ListsBits(bits, if k in bits then pushed + [k] else pushed, k + 1)
  {
    forall i | 0 <= i < |pushed| ensures pushed[i] < k { assert pushed[i] in pushed; }
    forall v: nat ensures v in pushed + [k] <==> v in pushed || v == k {}
  }

  // What was queued before stays; the set bits are new to the queue.
  ghost predicate Disjoint(all: seq<nat>, bits: iset<nat>, n: nat) {
    && (forall x | x in all :: x < n && x !in bits)
    && (forall i, j | 0 <= i < j < |all| :: all[i] != all[j])
  }

  lemma RoomForBits(all: seq<nat>, bits: iset<nat>, pushed: seq<nat>, n: nat, k: nat)
    requires Disjoint(all, bits, n) && ListsBits(bits, pushed, k) && k <= n
    ensures |all| + |pushed| <= n && (k < n && k in bits ==> |all| + |pushed| < n)
    ensures forall i, j | 0 <= i < j < |all + pushed| :: (all + pushed)[i] != (all + pushed)[j]
  {
    var both := all + pushed;
    Lists.DisjointFits(n, all, pushed);
    if k < n && k in bits {
      var more := both + [k];
      forall i | 0 <= i < |both| ensures both[i] != k {
        assert both[i] in both;
        assert both[i] in all || both[i] in pushed;
      }
      forall x | x in more ensures x < n { assert x in both || x == k; }
      Lists.DistinctFits(n, more);
    }
  }

  method PushBits(n: nat, bm: Bitmap, lqueue: QueueBuffer, ghost all: seq<nat>)
    requires lqueue.Valid() && bm.Covers(n) && bm.words as object != lqueue.localQueue
      && bm.words as object != lqueue.sq.shared
    requires n <= lqueue.sq.shared.Length && Disjoint(all, Bits(bm), n)
    requires all == lqueue.sq.All() && lqueue.sq.Pending() == [] && lqueue.Held() == []
    modifies lqueue`in', lqueue.localQueue, lqueue.sq`sharedIn, lqueue.sq.shared
    ensures lqueue.Valid() && ListsBits(Bits(bm), lqueue.sq.Pending() + lqueue.Held(), n)
    ensures lqueue.sq.All() + lqueue.Held() == all + (lqueue.sq.Pending() + lqueue.Held())
  {
    ghost var bits := Bits(bm);
    for k := 0 to n
      invariant lqueue.Valid() && Bits(bm) == bits
      invariant ListsBits(bits, lqueue.sq.Pending() + lqueue.Held(), k)
      invariant lqueue.sq.All() + lqueue.Held() == all + (lqueue.sq.Pending() + lqueue.Held())
    {
      PushBit(n, bm, lqueue, all, k);
    }
  }

  method PushBit(n: nat, bm: Bitmap, lqueue: QueueBuffer, ghost all: seq<nat>, k: nat)
    requires lqueue.Valid() && bm.Covers(n) && bm.words as object != lqueue.localQueue
      && bm.words as object != lqueue.sq.shared
    requires n <= lqueue.sq.shared.Length && Disjoint(all, Bits(bm), n) && k < n
    requires ListsBits(Bits(bm), lqueue.sq.Pending() + lqueue.Held(), k)
    requires lqueue.sq.All() + lqueue.Held() == all + (lqueue.sq.Pending() + lqueue.Held())
    modifies lqueue`in', lqueue.localQueue, lqueue.sq`sharedIn, lqueue.sq.shared
    ensures lqueue.Valid() && Bits(bm) == old(Bits(bm))
    ensures ListsBits(Bits(bm), lqueue.sq.Pending() + lqueue.Held(), k + 1)
    ensures lqueue.sq.All() + lqueue.Held() == all + (lqueue.sq.Pending() + lqueue.Held())
  {
    hide Disjoint, ListsBits, Member;
    ghost var pushed := lqueue.sq.Pending() + lqueue.Held();
    ListNext(Bits(bm), pushed, k);
    RoomForBits(all, Bits(bm), pushed, n, k);
    assert bm.Has(k) <==> k in Bits(bm);
    var bit := bm.GetBit(k);
    if bit {
      assert |lqueue.sq.All() + lqueue.Held()| == |all| + |pushed|;
      lqueue.PushBack(k);
      assert all + (pushed + [k]) == (all + pushed) + [k];
    }
  }

  // The queue's window becomes the vertices whose bit is set.
  method BitmapToQueue(n: nat, bm: Bitmap, queue: SlidingQueue)
    requires queue.Valid() && bm.Covers(n) && bm.words as object != queue.shared && n <= queue.shared.Length
    requires Disjoint(queue.All(), Bits(bm), n) && queue.Pending() == []
    modifies queue, queue.shared
    ensures queue.Valid() && ListsBits(Bits(bm), queue.Window(), n) && queue.Pending() == []
    ensures queue.All() == old(queue.All()) + queue.Window()
    ensures forall i, j | 0 <= i < j < |queue.All()| :: queue.All()[i] != queue.All()[j]
  {
    ghost var all := queue.All();
    var lqueue := new QueueBuffer(queue, 16384);
    PushBits(n, bm, lqueue, all);
    RoomForBits(all, Bits(bm), queue.Pending() + lqueue.Held(), n, n);
    assert |queue.All() + lqueue.Held()| == |all| + |queue.Pending() + lqueue.Held()|;
    lqueue.Flush();
    queue.SlideWindow();
  }

  // ---------------------------------------------------------------- the kernel

  // Between two steps: the window lists the last level, the queue has taken
  // distinct visited vertices, and every bit left in `front` is of a visited one.
  ghost predicate Between(g: Graph, s: nat, depth: seq<int>, level: nat, parent: seq<int>, window: seq<nat>,
                          all: seq<nat>, front: iset<nat>)
  {
    && Wave(g, s, depth, level) && Tree(g, s, depth, parent)
    && ListsLevel(g, depth, level, window)
    && Enqueued(all, parent)
    && (forall v: nat | v in front && v < g.N() :: depth[v] >= 0)
  }

  lemma AfterTopDown(g: Graph, s: nat, depth: seq<int>, level: nat, parent: seq<int>, window: seq<nat>, all: seq<nat>,
                     front: iset<nat>, parent': seq<int>, pushed: seq<nat>, all': seq<nat>, scout: int)
    requires Between(g, s, depth, level, parent, window, all, front)
    requires LevelDone(g, s, depth, level, parent', pushed, scout) && Enqueued(all', parent')
    ensures Between(g, s, Next(g, depth, level), level + 1, parent', pushed, all', front)
    ensures Unvisited(Next(g, depth, level), g.N()) <= Unvisited(depth, |depth|)
    ensures pushed != [] ==> Unvisited(Next(g, depth, level), g.N()) < Unvisited(depth, |depth|)
  {
    NextVisitsMore(g, s, depth, level, g.N());
    if pushed != [] {
      assert pushed[0] in pushed;
      assert Next(g, depth, level)[pushed[0]] == level + 1;
      NextVisitsOne(g, s, depth, level, g.N(), pushed[0]);
    }
  }

  lemma {:induction false} NextVisitsMore(g: Graph, s: nat, depth: seq<int>, level: nat, k: nat)
    requires g.Valid() && k <= |depth| == g.N()
    ensures Unvisited(Next(g, depth, level), k) <= Unvisited(depth, k)
  {
    if k > 0 { NextVisitsMore(g, s, depth, level, k - 1); }
  }

  lemma {:induction false} NextVisitsOne(g: Graph, s: nat, depth: seq<int>, level: nat, k: nat, v: nat)
    requires g.Valid() && v < k <= |depth| == g.N() && depth[v] == -1 && Next(g, depth, level)[v] == level + 1
    ensures Unvisited(Next(g, depth, level), k) < Unvisited(depth, k)
  {
    if v < k - 1 {
      NextVisitsOne(g, s, depth, level, k - 1, v);
    } else {
      NextVisitsMore(g, s, depth, level, k - 1);
    }
  }

  // Between two bottom-up steps; level0 is where the phase began, and the queue
  // still holds what it took up to there.
  ghost predicate InBottomUp(g: Graph, s: nat, depth: seq<int>, level: nat, parent: seq<int>, front: iset<nat>,
                             all: seq<nat>, level0: nat)
  {
    && Wave(g, s, depth, level) && Tree(g, s, depth, parent) && FrontOk(depth, level, front)
    && (forall x | x in all :: x < g.N() && 0 <= depth[x] <= level0)
    && (forall i, j | 0 <= i < j < |all| :: all[i] != all[j])
    && level0 <= level
    && (level0 < level ==> forall v: nat :: v in front <==> v < g.N() && depth[v] == level)
  }

  lemma BottomUpBegins(g: Graph, s: nat, depth: seq<int>, level: nat, parent: seq<int>, window: seq<nat>,
                       all: seq<nat>, front: iset<nat>, front': iset<nat>)
    requires Between(g, s, depth, level, parent, window, all, front)
    requires forall p: nat :: p in front' <==> p in front || p in window
    ensures InBottomUp(g, s, depth, level, parent, front', all, level)
  {
    forall x | x in all ensures x < g.N() && 0 <= depth[x] <= level { assert parent[x] >= 0; }
  }

  lemma BottomUpContinues(g: Graph, s: nat, depth: seq<int>, level: nat, parent: seq<int>, front: iset<nat>,
                          all: seq<nat>, level0: nat, parent': seq<int>, front': iset<nat>)
    requires InBottomUp(g, s, depth, level, parent, front, all, level0)
    requires Wave(g, s, Next(g, depth, level), level + 1) && Tree(g, s, Next(g, depth, level), parent')
    requires forall v: nat :: v in front' <==> v < g.N() && Next(g, depth, level)[v] == level + 1
    ensures InBottomUp(g, s, Next(g, depth, level), level + 1, parent', front', all, level0)
  {
  }

  lemma BottomUpLeaves(g: Graph, s: nat, depth: seq<int>, level: nat, parent: seq<int>, front: iset<nat>,
                       all: seq<nat>, level0: nat, window: seq<nat>, all': seq<nat>)
    requires InBottomUp(g, s, depth, level, parent, front, all, level0) && level0 < level
    requires ListsSet(front, window, g.N()) && all' == all + window
    requires forall i, j | 0 <= i < j < |all'| :: all'[i] != all'[j]
    ensures Between(g, s, depth, level, parent, window, all', front)
  {
    forall x | x in all' ensures x < |parent| && parent[x] >= 0 {
      assert x in all || x in window;
    }
  }

  ghost predicate HasLevel(depth: seq<int>, level: nat) {
    exists v: nat :: v < |depth| && depth[v] == level
  }

  // One bottom-up step and the exchange of the bitmaps.
  method BURound(g: Graph, parent: array<int>, front: Bitmap, curr: Bitmap, ghost s: nat, ghost depth: seq<int>,
                 ghost level: nat, ghost all: seq<nat>, ghost level0: nat)
    returns (awakeCount: int, ghost next: seq<int>)
    requires InBottomUp(g, s, depth, level, parent[..], Bits(front), all, level0)
    requires front != curr && front.Covers(g.N()) && curr.Covers(g.N())
    requires front.words != curr.words && parent as object != front.words && parent as object != curr.words
    modifies parent, front, curr, curr.words
    ensures front.words == old(curr.words) && curr.words == old(front.words)
    ensures |next| == g.N() && InBottomUp(g, s, next, level + 1, parent[..], Bits(front), all, level0)
    ensures Unvisited(next, |next|) + awakeCount == Unvisited(depth, |depth|) && awakeCount >= 0
    ensures HasLevel(next, level + 1) ==> awakeCount > 0
    ensures SameBelow(depth, next, level) && awakeCount == |Level(next, level + 1)|
  {
    hide SameBelow, Level;
    ghost var parent0, front0 := parent[..], Bits(front);
    next := Next(g, depth, level);
    awakeCount := BUStep(g, parent, front, curr, s, depth, level);
    front.Swap(curr);
    BottomUpContinues(g, s, depth, level, parent0, front0, all, level0, parent[..], Bits(front));
    NextVisitsMore(g, s, depth, level, g.N());
    NewLevelShrinks(g, s, depth, level);
    RoundIsNext(g, depth, level);
  }

  lemma RoundIsNext(g: Graph, depth: seq<int>, level: nat)
    requires g.Valid() && |depth| == g.N()
    ensures SameBelow(depth, Next(g, depth, level), level)
    ensures Level(Next(g, depth, level), level + 1) == set v: nat | v < g.N() && Next(g, depth, level)[v] == level + 1
  {
    NextSameBelow(g, depth, level);
  }

  // The state of the do-while loop: a round that woke nobody is the last one.
  ghost predicate Rounds(g: Graph, s: nat, depth: seq<int>, level: nat, parent: seq<int>, front: iset<nat>,
                         all: seq<nat>, depth0: seq<int>, level0: nat, again: bool, awakeCount: int)
  {
    && InBottomUp(g, s, depth, level, parent, front, all, level0)
    && (again || level0 < level) && (again ==> awakeCount > 0)
    && Unvisited(depth, |depth|) <= Unvisited(depth0, |depth0|)
    && (level0 < level && HasLevel(depth, level) ==> Unvisited(depth, |depth|) < Unvisited(depth0, |depth0|))
  }

  // The loop condition; it fails after a round that woke nobody.
  method StaysBottomUp(n: nat, awakeCount: int, oldAwakeCount: int, beta: int) returns (again: bool)
    requires beta > 0
    ensures again <==> awakeCount >= oldAwakeCount || n < beta * awakeCount
    ensures again && oldAwakeCount > 0 ==> awakeCount > 0
  {
    AboveQuotient(n, beta, awakeCount);
    QuotientNonNegative(n, beta);
    again := awakeCount >= oldAwakeCount || awakeCount > TruncDiv(n, beta);
  }

  lemma QuotientNonNegative(n: nat, beta: int)
    requires beta > 0
    ensures TruncDiv(n, beta) >= 0
  {
  }

  // The body of the loop and its condition.
  method BUIterate(g: Graph, parent: array<int>, front: Bitmap, curr: Bitmap, oldAwakeCount: int, beta: int,
                   ghost s: nat, ghost depth: seq<int>, ghost level: nat, ghost depth0: seq<int>, ghost level0: nat,
                   ghost all: seq<nat>)
    returns (awakeCount: int, again: bool, ghost next: seq<int>)
    requires Rounds(g, s, depth, level, parent[..], Bits(front), all, depth0, level0, true, oldAwakeCount)
    requires Climbs(g, beta, depth0, level0, depth, level, true, oldAwakeCount)
    requires front != curr && front.Covers(g.N()) && curr.Covers(g.N()) && beta > 0
    requires front.words != curr.words && parent as object != front.words && parent as object != curr.words
    modifies parent, front, curr, curr.words
    ensures front.words == old(curr.words) && curr.words == old(front.words)
    ensures |next| == g.N() == |depth|
    ensures Rounds(g, s, next, level + 1, parent[..], Bits(front), all, depth0, level0, again, awakeCount)
    ensures Climbs(g, beta, depth0, level0, next, level + 1, again, awakeCount)
    ensures Unvisited(next, |next|) <= Unvisited(depth, |depth|)
      && (again ==> Unvisited(next, |next|) < Unvisited(depth, |depth|))
  {
    hide Climbs, Level, SameBelow;
    awakeCount, next := BURound(g, parent, front, curr, s, depth, level, all, level0);
    again := StaysBottomUp(g.N(), awakeCount, oldAwakeCount, beta);
    RoundsStep(g, s, level, parent[..], Bits(front), all, depth0, level0, Unvisited(depth, |depth|), next, again,
               awakeCount);
    ClimbStep(g, beta, depth0, level0, depth, level, next, again, awakeCount, oldAwakeCount);
  }

  lemma RoundsStep(g: Graph, s: nat, level: nat, parent: seq<int>, front: iset<nat>, all: seq<nat>, depth0: seq<int>,
                   level0: nat, unvisited: nat, next: seq<int>, again: bool, awakeCount: int)
    requires InBottomUp(g, s, next, level + 1, parent, front, all, level0) && level0 <= level
    requires unvisited <= Unvisited(depth0, |depth0|) && Unvisited(next, |next|) + awakeCount == unvisited
      && awakeCount >= 0
    requires HasLevel(next, level + 1) ==> awakeCount > 0
    requires again ==> awakeCount > 0
    ensures Rounds(g, s, next, level + 1, parent, front, all, depth0, level0, again, awakeCount)
  {
  }

  // Bottom-up steps until few enough vertices wake up.
  method BURounds(g: Graph, parent: array<int>, front: Bitmap, curr: Bitmap, awake0: int, beta: int, ghost s: nat,
                  ghost depth0: seq<int>, ghost level0: nat, ghost all: seq<nat>)
    returns (awakeCount: int, ghost depth: seq<int>, ghost level: nat)
    requires Rounds(g, s, depth0, level0, parent[..], Bits(front), all, depth0, level0, true, awake0)
    requires Climbs(g, beta, depth0, level0, depth0, level0, true, awake0)
    requires front != curr && front.Covers(g.N()) && curr.Covers(g.N()) && beta > 0
    requires front.words != curr.words && parent as object != front.words && parent as object != curr.words
    modifies parent, front, curr, front.words, curr.words
    ensures {front.words, curr.words} == old({front.words, curr.words}) && front.words != curr.words
    ensures Rounds(g, s, depth, level, parent[..], Bits(front), all, depth0, level0, false, awakeCount)
    ensures Climbs(g, beta, depth0, level0, depth, level, false, awakeCount)
  {
    hide Rounds, Climbs;
    depth, level := depth0, level0;
    awakeCount := awake0;
    var again := true;
    while again
      invariant {front.words, curr.words} == old({front.words, curr.words}) && front.words != curr.words
      invariant front.Covers(g.N()) && curr.Covers(g.N())
      invariant Rounds(g, s, depth, level, parent[..], Bits(front), all, depth0, level0, again, awakeCount)
      invariant Climbs(g, beta, depth0, level0, depth, level, again, awakeCount)
      decreases Unvisited(depth, |depth|), again
    {
      awakeCount, again, depth := BUIterate(g, parent, front, curr, awakeCount, beta, s, depth, level, depth0, level0,
                                            all);
      level := level + 1;
    }
  }

  lemma NewLevelShrinks(g: Graph, s: nat, depth: seq<int>, level: nat)
    requires Wave(g, s, depth, level)
    ensures HasLevel(Next(g, depth, level), level + 1) ==>
      Unvisited(Next(g, depth, level), g.N()) < Unvisited(depth, g.N())
  {
    var next := Next(g, depth, level);
    if HasLevel(next, level + 1) {
      var v: nat :| v < |next| && next[v] == level + 1;
      assert depth[v] <= level;
      NextVisitsOne(g, s, depth, level, g.N(), v);
    }
  }

  lemma WindowInRange(g: Graph, s: nat, depth: seq<int>, level: nat, parent: seq<int>, window: seq<nat>, all: seq<nat>,
                      front: iset<nat>)
    requires Between(g, s, depth, level, parent, window, all, front)
    ensures forall v | v in window :: v < g.N()
    ensures |depth| == g.N()
  {
  }

  lemma RoundsBegin(g: Graph, s: nat, depth: seq<int>, level: nat, parent: seq<int>, window: seq<nat>, all: seq<nat>,
                    front: iset<nat>, front': iset<nat>)
    requires Between(g, s, depth, level, parent, window, all, front) && window != []
    requires forall p: nat :: p in front' <==> p in front || p in window
    ensures Rounds(g, s, depth, level, parent, front', all, depth, level, true, |window|)
  {
    BottomUpBegins(g, s, depth, level, parent, window, all, front, front');
  }

  lemma RoundsEnd(g: Graph, s: nat, depth: seq<int>, level: nat, parent: seq<int>, front: iset<nat>, all: seq<nat>,
                  depth0: seq<int>, level0: nat, awakeCount: int)
    requires Rounds(g, s, depth, level, parent, front, all, depth0, level0, false, awakeCount)
    ensures InBottomUp(g, s, depth, level, parent, front, all, level0) && level0 < level
    ensures |depth| == g.N() && Disjoint(all, front, g.N())
    ensures Unvisited(depth, |depth|) <= Unvisited(depth0, |depth0|)
    ensures HasLevel(depth, level) ==> Unvisited(depth, |depth|) < Unvisited(depth0, |depth0|)
  {
  }

  lemma ListedHasLevel(g: Graph, s: nat, depth: seq<int>, level: nat, parent: seq<int>, front: iset<nat>,
                       all: seq<nat>, level0: nat, window: seq<nat>, all': seq<nat>)
    requires InBottomUp(g, s, depth, level, parent, front, all, level0) && level0 < level
    requires ListsBits(front, window, g.N()) && all' == all + window
    requires forall i, j | 0 <= i < j < |all'| :: all'[i] != all'[j]
    ensures Between(g, s, depth, level, parent, window, all', front)
    ensures window != [] ==> HasLevel(depth, level)
  {
    BottomUpLeaves(g, s, depth, level, parent, front, all, level0, window, all');
    if window != [] { assert window[0] in window; }
  }

  lemma WindowIsDistinct(queue: SlidingQueue, parent: seq<int>)
    requires queue.Valid()
    ensures Enqueued(queue.All(), parent) ==>
      forall i, j | 0 <= i < j < |queue.Window()| :: queue.Window()[i] != queue.Window()[j]
  {
    forall i | 0 <= i < |queue.Window()|
      ensures queue.Window()[i] == queue.All()[queue.sharedOutStart + i] {}
  }

  lemma ClimbStart(g: Graph, s: nat, depth: seq<int>, level: nat, parent: seq<int>, window: seq<nat>, all: seq<nat>,
                   front: iset<nat>, beta: int)
    requires Between(g, s, depth, level, parent, window, all, front)
    requires Enqueued(all, parent) ==> forall i, j | 0 <= i < j < |window| :: window[i] != window[j]
    ensures Climbs(g, beta, depth, level, depth, level, true, |window|)
  {
    ListedLevel(g, depth, level, window);
  }

  // From queue to bitmap, the bottom-up steps, and back.
  method BUPhase(g: Graph, parent: array<int>, queue: SlidingQueue, front: Bitmap, curr: Bitmap, beta: int,
                 ghost s: nat, ghost depth0: seq<int>, ghost level0: nat)
    returns (ghost depth: seq<int>, ghost level: nat)
    requires queue.Valid() && front != curr && front.Covers(g.N()) && curr.Covers(g.N()) && beta > 0
    requires front.words != curr.words && parent as object != front.words && parent as object != curr.words
    requires parent as object != queue.shared && front.words as object != queue.shared
      && curr.words as object != queue.shared
    requires g.N() <= queue.shared.Length && queue.Window() != [] && queue.Pending() == []
    requires Between(g, s, depth0, level0, parent[..], queue.Window(), queue.All(), Bits(front))
    modifies parent, queue, queue.shared, front, curr, front.words, curr.words
    ensures queue.Valid() && queue.Pending() == [] && {front.words, curr.words} == old({front.words, curr.words})
      && front.words != curr.words
    ensures Between(g, s, depth, level, parent[..], queue.Window(), queue.All(), Bits(front))
    ensures |depth| == g.N() && Unvisited(depth, |depth|) <= Unvisited(depth0, |depth0|)
    ensures queue.Window() != [] ==> Unvisited(depth, |depth|) < Unvisited(depth0, |depth0|)
    ensures SameBelow(depth0, depth, level0) && Climbed(g, beta, depth, level0, level)
  {
    hide Rounds, Between, InBottomUp, Disjoint, ListsBits, Member, Unvisited, HasLevel, Climbs, SameBelow, Climbed;
    ghost var window, all, bits := queue.Window(), queue.All(), Bits(front);
    WindowIsDistinct(queue, parent[..]);
    ClimbStart(g, s, depth0, level0, parent[..], window, all, bits, beta);
    WindowInRange(g, s, depth0, level0, parent[..], window, all, bits);
    QueueToBitmap(queue, front, g.N());
    RoundsBegin(g, s, depth0, level0, parent[..], window, all, bits, Bits(front));
    var awakeCount := queue.Size();
    queue.SlideWindow();
    awakeCount, depth, level := BURounds(g, parent, front, curr, awakeCount, beta, s, depth0, level0, all);
    RoundsEnd(g, s, depth, level, parent[..], Bits(front), all, depth0, level0, awakeCount);
    ClimbEnd(g, beta, depth0, level0, depth, level, awakeCount);
    ghost var found := Bits(front);
    BitmapToQueue(g.N(), front, queue);
    ListedHasLevel(g, s, depth, level, parent[..], found, all, level0, queue.Window(), queue.All());
  }

  // A top-down step and the slide to what it found.
  method TDPhase(g: Graph, parent: array<int>, queue: SlidingQueue, ghost front: iset<nat>, ghost s: nat,
                 ghost depth0: seq<int>, ghost level0: nat)
    returns (scout: int, ghost depth: seq<int>)
    requires queue.Valid() && parent as object != queue.shared && g.N() <= queue.shared.Length && queue.Pending() == []
    requires Between(g, s, depth0, level0, parent[..], queue.Window(), queue.All(), front)
    modifies parent, queue, queue.shared
    ensures queue.Valid() && queue.Pending() == [] && scout == DegreeSum(g, queue.Window())
    ensures SameBelow(depth0, depth, level0) && scout == Weight(g, Level(depth, level0 + 1), g.N())
    ensures Between(g, s, depth, level0 + 1, parent[..], queue.Window(), queue.All(), front)
    ensures |depth| == g.N() && Unvisited(depth, |depth|) <= Unvisited(depth0, |depth0|)
    ensures queue.Window() != [] ==> Unvisited(depth, |depth|) < Unvisited(depth0, |depth0|)
  {
    ghost var parent0, window, all := parent[..], queue.Window(), queue.All();
    depth := Next(g, depth0, level0);
    scout := TDStep(g, parent, queue, s, depth0, level0);
    AfterTopDown(g, s, depth0, level0, parent0, window, all, front, parent[..], queue.Pending(), queue.All(), scout);
    NextSameBelow(g, depth0, level0);
    ListedLevel(g, depth, level0 + 1, queue.Pending());
    queue.SlideWindow();
  }

  lemma FirstBetween(g: Graph, s: nat, parent: seq<int>)
    requires g.Valid() && s < g.N() && |parent| == g.N() && parent[s] == s
    requires forall v: nat | v < g.N() && v != s :: parent[v] == InitialParent(g, v)
    ensures Between(g, s, FirstWave(g, s), 0, parent, [s], [s], iset{})
  {
    FirstWaveIsWave(g, s);
  }

  lemma EndIsTree(g: Graph, s: nat, depth: seq<int>, level: nat, parent: seq<int>, all: seq<nat>, front: iset<nat>,
                  final: seq<int>)
    requires Between(g, s, depth, level, parent, [], all, front)
    requires |final| == |parent| && forall v: nat | v < |parent| :: final[v] == if parent[v] < -1 then -1 else parent[v]
    ensures IsBfsTree(g, s, depth, final)
  {
    forall v: nat | v < g.N() ensures depth[v] != level {
      assert v !in [];
    }
    EmptyLevelIsExact(g, s, depth, level);
    forall v: nat | v < g.N() ensures if depth[v] >= 0 then ParentOk(g, s, depth, v, final[v]) else final[v] == -1 {
      assert depth[v] >= -1;
    }
  }

  // One round of the search, in the direction that the two heuristics pick.
  method Advance(g: Graph, parent: array<int>, queue: SlidingQueue, front: Bitmap, curr: Bitmap, alpha: int, beta: int,
                 edges0: int, scout0: int, ghost s: nat, ghost depth0: seq<int>, ghost level0: nat)
    returns (edgesToCheck: int, scoutCount: int, ghost depth: seq<int>, ghost level: nat)
    requires queue.Valid() && front != curr && front.Covers(g.N()) && curr.Covers(g.N()) && beta > 0 && alpha != 0
    requires front.words != curr.words && parent as object != front.words && parent as object != curr.words
    requires parent as object != queue.shared && front.words as object != queue.shared
      && curr.words as object != queue.shared
    requires g.N() <= queue.shared.Length && queue.Window() != [] && queue.Pending() == []
    requires Between(g, s, depth0, level0, parent[..], queue.Window(), queue.All(), Bits(front))
    modifies parent, queue, queue.shared, front, curr, front.words, curr.words
    ensures queue.Valid() && queue.Pending() == [] && {front.words, curr.words} == old({front.words, curr.words})
      && front.words != curr.words
    ensures Between(g, s, depth, level, parent[..], queue.Window(), queue.All(), Bits(front))
    ensures |depth| == g.N() && Unvisited(depth, |depth|) <= Unvisited(depth0, |depth0|)
    ensures queue.Window() != [] ==> Unvisited(depth, |depth|) < Unvisited(depth0, |depth0|)
    ensures if scout0 > TruncDiv(edges0, alpha) then edgesToCheck == edges0 && scoutCount == 1
            else edgesToCheck == edges0 - scout0 && scoutCount == DegreeSum(g, queue.Window()) && level == level0 + 1
    ensures SameBelow(depth0, depth, level0)
      && Follows(g, alpha, beta, depth, Stage(level0, edges0, scout0), Stage(level, edgesToCheck, scoutCount))
  {
    hide Between, Unvisited, SameBelow, Climbed, Level, Weight, DegreeSum;
    edgesToCheck := edges0;
    if scout0 > TruncDiv(edgesToCheck, alpha) {
      depth, level := BUPhase(g, parent, queue, front, curr, beta, s, depth0, level0);
      scoutCount := 1;
    } else {
      edgesToCheck := edgesToCheck - scout0;
      scoutCount, depth := TDPhase(g, parent, queue, Bits(front), s, depth0, level0);
      level := level0 + 1;
    }
  }

  lemma WindowIsLevel(g: Graph, s: nat, depth: seq<int>, level: nat, parent: seq<int>, window: seq<nat>,
                      all: seq<nat>, front: iset<nat>)
    requires Between(g, s, depth, level, parent, window, all, front)
    ensures window == [] <==> Level(depth, level) == {}
  {
    if window != [] { assert window[0] in window && window[0] in Level(depth, level); }
  }

  // The search proper, until the window is empty.
  method Traverse(g: Graph, source: nat, parent: array<int>, queue: SlidingQueue, front: Bitmap, curr: Bitmap,
                  alpha: int, beta: int)
    returns (ghost depth: seq<int>, ghost level: nat, ghost plan: seq<Stage>)
    requires source < g.N() && alpha != 0 && beta > 0
    requires queue.Valid() && front != curr && front.Covers(g.N()) && curr.Covers(g.N())
    requires front.words != curr.words && parent as object != front.words && parent as object != curr.words
    requires parent as object != queue.shared && front.words as object != queue.shared
      && curr.words as object != queue.shared
    requires g.N() <= queue.shared.Length && queue.Pending() == []
    requires Between(g, source, FirstWave(g, source), 0, parent[..], queue.Window(), queue.All(), Bits(front))
    modifies parent, queue, queue.shared, front, curr, front.words, curr.words
    ensures exists all, bits :: Between(g, source, depth, level, parent[..], [], all, bits)
    ensures IsPlan(g, source, alpha, beta, depth, plan)
  {
    hide Between, Unvisited, Follows, Level, SameBelow, StartsPlan;
    depth, level := FirstWave(g, source), 0;
    var edgesToCheck: int := EdgeCounts.NumEdgesDirected(g);
    var scoutCount: int := |g.outs[source]|;
    plan := [Stage(0, edgesToCheck, scoutCount)];
    PlanStarts(g, source, alpha, beta, depth);
    while !queue.Empty()
      invariant queue.Valid() && queue.Pending() == []
      invariant {front.words, curr.words} == old({front.words, curr.words}) && front.words != curr.words
      invariant front.Covers(g.N()) && curr.Covers(g.N())
      invariant Between(g, source, depth, level, parent[..], queue.Window(), queue.All(), Bits(front))
      invariant StartsPlan(g, source, alpha, beta, depth, plan)
      invariant plan != [] && plan[|plan| - 1] == Stage(level, edgesToCheck, scoutCount)
      decreases Unvisited(depth, |depth|), queue.Window() != []
    {
      ghost var before := depth;
      WindowIsLevel(g, source, depth, level, parent[..], queue.Window(), queue.All(), Bits(front));
      edgesToCheck, scoutCount, depth, level := Advance(g, parent, queue, front, curr, alpha, beta, edgesToCheck,
                                                        scoutCount, source, depth, level);
      PlanNext(g, source, alpha, beta, before, depth, plan, Stage(level, edgesToCheck, scoutCount));
      plan := plan + [Stage(level, edgesToCheck, scoutCount)];
    }
    assert queue.Window() == [];
    WindowIsLevel(g, source, depth, level, parent[..], queue.Window(), queue.All(), Bits(front));
  }

  // Unreached vertices all end with -1.
  method ClearUnreached(parent: array<int>)
    modifies parent
    ensures forall v: nat | v < parent.Length :: parent[v] == if old(parent[v]) < -1 then -1 else old(parent[v])
  {
    for n := 0 to parent.Length
      invariant forall v: nat | v < n :: parent[v] == if old(parent[v]) < -1 then -1 else old(parent[v])
      invariant forall v: nat | n <= v < parent.Length :: parent[v] == old(parent[v])
    {
      if parent[n] < -1 {
        parent[n] := -1;
      }
    }
  }

  // For every alpha and every positive beta the answer is a breadth-first tree, and
  // the rounds were those that the distances prescribe.
  method DOBFS(g: Graph, source: nat, alpha: int, beta: int) returns (parent: array<int>, ghost plan: seq<Stage>)
    requires g.Valid() && source < g.N() && alpha != 0 && beta > 0
    ensures BfsTree(g, source, parent[..])
    ensures forall depth | Depths(g, source, depth) :: IsPlan(g, source, alpha, beta, depth, plan)
  {
    parent := InitParent(g);
    parent[source] := source;
    var queue := new SlidingQueue(g.N());
    queue.PushBack(source);
    queue.SlideWindow();
    ghost var depth, level;
    depth, level, plan := Search(g, source, parent, queue, alpha, beta);
    ghost var before := parent[..];
    ClearUnreached(parent);
    Finish(g, source, depth, level, before, parent[..]);
    forall d: seq<int> | Depths(g, source, d) ensures d == depth { DepthsUnique(g, source, d, depth); }
  }

  // Sets up the two bitmaps and runs the search.
  method Search(g: Graph, source: nat, parent: array<int>, queue: SlidingQueue, alpha: int, beta: int)
    returns (ghost depth: seq<int>, ghost level: nat, ghost plan: seq<Stage>)
    requires g.Valid() && source < g.N() && alpha != 0 && beta > 0
    requires parent.Length == g.N() && parent[source] == source && parent as object != queue.shared
    requires forall v: nat | v < g.N() && v != source :: parent[v] == InitialParent(g, v)
    requires queue.Valid() && g.N() <= queue.shared.Length && queue.Window() == [source] && queue.All() == [source]
      && queue.Pending() == []
    modifies parent, queue, queue.shared
    ensures exists all, bits :: Between(g, source, depth, level, parent[..], [], all, bits)
    ensures IsPlan(g, source, alpha, beta, depth, plan)
  {
    var curr := new Bitmap(g.N());
    curr.Reset();
    var front := new Bitmap(g.N());
    front.Reset();
    FirstBetween(g, source, parent[..]);
    assert Bits(front) == iset{};
    depth, level, plan := Traverse(g, source, parent, queue, front, curr, alpha, beta);
  }

  lemma Finish(g: Graph, s: nat, depth: seq<int>, level: nat, parent: seq<int>, final: seq<int>)
    requires exists all, bits :: Between(g, s, depth, level, parent, [], all, bits)
    requires |final| == |parent| && forall v: nat | v < |parent| :: final[v] == if parent[v] < -1 then -1 else parent[v]
    ensures BfsTree(g, s, final) && Depths(g, s, depth)
  {
    var all, bits :| Between(g, s, depth, level, parent, [], all, bits);
    EndIsTree(g, s, depth, level, parent, all, bits, final);
  }
}
