module TopDownThreads {
  // The top-down step with its buffers: each vertex of the window belongs to some
  // thread, what its compare-and-swaps win goes to that thread's buffer, and the
  // buffers are flushed into the shared queue, all in any interleaving.

  import opened Components
  import opened Layers
  import T = BfsTrees
  import Q = SlidingQueues
  import Bfs
  import Lists

  datatype State = State(td: T.State, q: Q.State)

  // Visit: one step for window entry i.  Queue: one step of thread t's buffer.
  datatype Move = Visit(i: nat) | Queue(t: nat)

  // Thread t has been through all of its vertices.
  ghost predicate AllVisited(g: Graph, window: seq<nat>, owner: seq<nat>, procs: seq<T.Proc>, t: nat) {
    forall i: nat | i < |window| && i < |owner| && i < |procs| && owner[i] == t && window[i] < g.N() ::
      procs[i].k >= |g.outs[window[i]]|
  }

  // The last flush of a thread comes after its part of the loop.
  ghost predicate Enabled(g: Graph, window: seq<nat>, owner: seq<nat>, st: State, m: Move) {
    match m
    case Visit(i) => T.Enabled(g, window, st.td, i) && i < |owner| && owner[i] < |st.q.threads|
    case Queue(t) =>
      && Q.Enabled(st.q, t)
      && (st.q.threads[t].pc.Filling? && st.q.threads[t].todo == [] ==> AllVisited(g, window, owner, st.td.procs, t))
  }

  ghost function Apply(g: Graph, window: seq<nat>, owner: seq<nat>, size: nat, st: State, m: Move): State
    requires Enabled(g, window, owner, st, m)
  {
    match m
    case Visit(i) =>
      var td' := T.Apply(g, window, st.td, i);
      State(td', if |td'.pushed| > |st.td.pushed| then Q.Feed(st.q, owner[i], td'.pushed[|st.td.pushed|]) else st.q)
    case Queue(t) => st.(q := Q.Apply(size, st.q, t))
  }

  function Initial(window: seq<nat>, parent: seq<int>, shared: seq<nat>, from: nat, threads: nat): State {
    State(T.Initial(window, parent), Q.State(shared, from, Q.IdleThreads(threads)))
  }

  ghost predicate Finished(g: Graph, window: seq<nat>, st: State) {
    T.Finished(g, window, st.td) && forall t | 0 <= t < |st.q.threads| :: st.q.threads[t].pc.Done?
  }

  ghost predicate IsRun(g: Graph, window: seq<nat>, owner: seq<nat>, size: nat, states: seq<State>, moves: seq<Move>) {
    && |states| == |moves| + 1
    && forall i | 0 <= i < |moves| ::
      Enabled(g, window, owner, states[i], moves[i])
        && states[i + 1] == Apply(g, window, owner, size, states[i], moves[i])
  }

  // ---------------------------------------------------------------- invariant

  // A thread on its last flush has nothing left to visit; other flushes move values.
  ghost predicate EndOk(g: Graph, window: seq<nat>, owner: seq<nat>, procs: seq<T.Proc>, th: Q.Thread, t: nat) {
    && (th.pc.Done? || (th.pc.Copying? && th.todo == []) ==> AllVisited(g, window, owner, procs, t))
    && Q.FlushOk(th)
  }

  ghost predicate EndsOk(g: Graph, window: seq<nat>, owner: seq<nat>, procs: seq<T.Proc>, threads: seq<Q.Thread>) {
    forall t: nat {:trigger EndOk(g, window, owner, procs, threads[t], t)} | t < |threads| ::
      EndOk(g, window, owner, procs, threads[t], t)
  }

  ghost predicate Inv(g: Graph, s: nat, depth: seq<int>, level: nat, window: seq<nat>, owner: seq<nat>,
                      before: seq<nat>, from: nat, st: State)
  {
    && T.Inv(g, s, depth, level, window, st.td)
    && from <= |before| && g.N() <= |before| && Bfs.Enqueued(before[..from], depth)
    && Q.Inv(before, from, multiset(st.td.pushed), st.q)
    && EndsOk(g, window, owner, st.td.procs, st.q.threads)
  }

  // Every vertex is queued at most once, so the queue never runs out of cells.
  lemma RoomFor(depth: seq<int>, all: seq<nat>, pushed: seq<nat>)
    requires Bfs.Enqueued(all, depth)
    requires forall v | v in pushed :: v < |depth| && depth[v] == -1
    requires forall i, j | 0 <= i < j < |pushed| :: pushed[i] != pushed[j]
    ensures |all| + |pushed| <= |depth|
    ensures forall i, j | 0 <= i < j < |all + pushed| :: (all + pushed)[i] != (all + pushed)[j]
  {
    Lists.DisjointFits(|depth|, all, pushed);
  }

  // One look or swap, with its push.
  lemma VisitStep(g: Graph, s: nat, depth: seq<int>, level: nat, window: seq<nat>, owner: seq<nat>, size: nat,
                  before: seq<nat>, from: nat, st: State, i: nat)
    requires size > 0
    requires Inv(g, s, depth, level, window, owner, before, from, st) && Enabled(g, window, owner, st, Visit(i))
    ensures Inv(g, s, depth, level, window, owner, before, from, Apply(g, window, owner, size, st, Visit(i)))
  {
    hide T.Inv, Q.Inv, Bfs.Enqueued;
    var td' := T.Apply(g, window, st.td, i);
    var st' := Apply(g, window, owner, size, st, Visit(i));
    T.StepKeepsInv(g, s, depth, level, window, st.td, i);
    var t := owner[i];
    assert EndOk(g, window, owner, st.td.procs, st.q.threads[t], t);
    assert !AllVisited(g, window, owner, st.td.procs, t);
    if |td'.pushed| > |st.td.pushed| {
      var v := td'.pushed[|st.td.pushed|];
      assert td'.pushed == st.td.pushed + [v];
      NewFits(g, s, depth, level, window, td', before[..from]);
      assert |multiset(st.td.pushed)| == |st.td.pushed|;
      Q.FeedStep(before, from, multiset(st.td.pushed), st.q, t, v);
    }
    forall u: nat | u < |st'.q.threads| ensures EndOk(g, window, owner, td'.procs, st'.q.threads[u], u) {
      assert EndOk(g, window, owner, st.td.procs, st.q.threads[u], u);
    }
  }

  lemma NewFits(g: Graph, s: nat, depth: seq<int>, level: nat, window: seq<nat>, td: T.State, all: seq<nat>)
    requires T.Inv(g, s, depth, level, window, td) && Bfs.Enqueued(all, depth)
    ensures |all| + |td.pushed| <= g.N()
    ensures forall i, j | 0 <= i < j < |all + td.pushed| :: (all + td.pushed)[i] != (all + td.pushed)[j]
  {
    forall v | v in td.pushed ensures v < |depth| && depth[v] == -1 {}
    RoomFor(depth, all, td.pushed);
  }

  lemma QueueStep(g: Graph, s: nat, depth: seq<int>, level: nat, window: seq<nat>, owner: seq<nat>, size: nat,
                  before: seq<nat>, from: nat, st: State, t: nat)
    requires size > 0
    requires Inv(g, s, depth, level, window, owner, before, from, st) && Enabled(g, window, owner, st, Queue(t))
    ensures Inv(g, s, depth, level, window, owner, before, from, Apply(g, window, owner, size, st, Queue(t)))
  {
    hide T.Inv, Q.Inv, Bfs.Enqueued, AllVisited;
    var st' := Apply(g, window, owner, size, st, Queue(t));
    Q.StepKeepsInv(before, from, multiset(st.td.pushed), st.q, size, t);
    forall u: nat | u < |st'.q.threads| ensures EndOk(g, window, owner, st.td.procs, st'.q.threads[u], u) {
      assert EndOk(g, window, owner, st.td.procs, st.q.threads[u], u);
    }
  }

  lemma StepKeepsInv(g: Graph, s: nat, depth: seq<int>, level: nat, window: seq<nat>, owner: seq<nat>, size: nat,
                     before: seq<nat>, from: nat, st: State, m: Move)
    requires size > 0
    requires Inv(g, s, depth, level, window, owner, before, from, st) && Enabled(g, window, owner, st, m)
    ensures Inv(g, s, depth, level, window, owner, before, from, Apply(g, window, owner, size, st, m))
  {
    hide Inv, Enabled, Apply;
    match m
    case Visit(i) => VisitStep(g, s, depth, level, window, owner, size, before, from, st, i);
    case Queue(t) => QueueStep(g, s, depth, level, window, owner, size, before, from, st, t);
  }

  lemma {:induction false} RunInv(g: Graph, s: nat, depth: seq<int>, level: nat, window: seq<nat>, owner: seq<nat>,
                                  size: nat, before: seq<nat>, from: nat, states: seq<State>, moves: seq<Move>, i: nat)
    requires size > 0
    requires IsRun(g, window, owner, size, states, moves) && i < |states|
    requires Inv(g, s, depth, level, window, owner, before, from, states[0])
    ensures Inv(g, s, depth, level, window, owner, before, from, states[i])
  {
    hide Inv, Enabled, Apply;
    if i > 0 {
      RunInv(g, s, depth, level, window, owner, size, before, from, states, moves, i - 1);
      StepKeepsInv(g, s, depth, level, window, owner, size, before, from, states[i - 1], moves[i - 1]);
    }
  }

  lemma InitialInv(g: Graph, s: nat, depth: seq<int>, level: nat, window: seq<nat>, owner: seq<nat>, parent: seq<int>,
                   shared: seq<nat>, from: nat, threads: nat)
    requires Wave(g, s, depth, level) && T.Tree(g, s, depth, parent) && T.ListsLevel(g, depth, level, window)
    requires from <= |shared| && g.N() <= |shared| && Bfs.Enqueued(shared[..from], depth)
    ensures Inv(g, s, depth, level, window, owner, shared, from, Initial(window, parent, shared, from, threads))
  {
    T.InitialInv(g, s, depth, level, window, parent);
    Q.IdleInv(shared, from, threads);
    assert multiset(Initial(window, parent, shared, from, threads).td.pushed) == multiset{};
  }

  // In every state of every run the queue has room for what is reserved in it,
  // and a thread that is ready to move its buffer on is never refused a cell.
  lemma CapacitySuffices(g: Graph, s: nat, depth: seq<int>, level: nat, window: seq<nat>, owner: seq<nat>, size: nat,
                         parent: seq<int>, shared: seq<nat>, from: nat, threads: nat, states: seq<State>,
                         moves: seq<Move>, i: nat)
    requires size > 0
    requires Wave(g, s, depth, level) && T.Tree(g, s, depth, parent) && T.ListsLevel(g, depth, level, window)
    requires from <= |shared| && g.N() <= |shared| && Bfs.Enqueued(shared[..from], depth)
    requires IsRun(g, window, owner, size, states, moves) && i < |states|
    requires states[0] == Initial(window, parent, shared, from, threads)
    ensures from <= states[i].q.sharedIn <= |states[i].q.shared| == |shared|
    ensures forall t: nat | t < |states[i].q.threads| && !states[i].q.threads[t].pc.Done? :: Q.Enabled(states[i].q, t)
  {
    hide T.Inv, Q.Inv, Bfs.Enqueued, EndsOk, T.Tree, Wave, T.ListsLevel, T.Initial, Q.Enabled;
    InitialInv(g, s, depth, level, window, owner, parent, shared, from, threads);
    RunInv(g, s, depth, level, window, owner, size, shared, from, states, moves, i);
    var q, pushes := states[i].q, multiset(states[i].td.pushed);
    Q.StaysInside(shared, from, pushes, q);
    forall t: nat | t < |q.threads| && !q.threads[t].pc.Done? ensures Q.Enabled(q, t) {
      Q.NeverStuck(shared, from, pushes, q, t);
    }
  }

  // ------------------------------------------------------------- the new window

  lemma ScoutAppend(g: Graph, a: seq<nat>, v: nat)
    ensures T.DegreeSum(g, a + [v]) == T.DegreeSum(g, a) + T.RowWeight(g, v)
  {
    assert (a + [v])[..|a|] == a;
  }

  lemma {:induction false} ScoutWithout(g: Graph, a: seq<nat>, j: nat)
    requires j < |a|
    ensures T.DegreeSum(g, a) == T.DegreeSum(g, a[..j] + a[j + 1..]) + T.RowWeight(g, a[j])
  {
    hide T.DegreeSum, T.RowWeight;
    var m := |a| - 1;
    var front := a[..m];
    assert a == front + [a[m]];
    ScoutAppend(g, front, a[m]);
    if j == m {
      assert a[..j] + a[j + 1..] == front;
    } else {
      ScoutWithout(g, front, j);
      var rest := front[..j] + front[j + 1..];
      ScoutAppend(g, rest, a[m]);
      assert a[..j] + a[j + 1..] == rest + [a[m]];
    }
  }

  lemma WithoutLast(a: seq<nat>, b: seq<nat>, j: nat)
    requires a != [] && multiset(a) == multiset(b) && j < |b| && b[j] == a[|a| - 1]
    ensures multiset(a[..|a| - 1]) == multiset(b[..j] + b[j + 1..])
  {
    var x := a[|a| - 1];
    assert a == a[..|a| - 1] + [x];
    assert b == b[..j] + [x] + b[j + 1..];
    assert multiset(a[..|a| - 1]) == multiset(a) - multiset{x};
    assert multiset(b[..j] + b[j + 1..]) == multiset(b) - multiset{x};
  }

  // The degree sum does not depend on the order of the pushes.
  lemma {:induction false} ScoutPermuted(g: Graph, a: seq<nat>, b: seq<nat>)
    requires multiset(a) == multiset(b)
    ensures T.DegreeSum(g, a) == T.DegreeSum(g, b)
    decreases |a|
  {
    if a == [] {
      assert |multiset(b)| == |b|;
    } else {
      var x := a[|a| - 1];
      assert x in multiset(a);
      var j: nat :| j < |b| && b[j] == x;
      WithoutLast(a, b, j);
      ScoutPermuted(g, a[..|a| - 1], b[..j] + b[j + 1..]);
      ScoutWithout(g, b, j);
    }
  }

  lemma DonePermuted(g: Graph, s: nat, depth: seq<int>, level: nat, parent: seq<int>, a: seq<nat>, b: seq<nat>,
                     scout: int)
    requires g.Valid() && |depth| == g.N() && T.LevelDone(g, s, depth, level, parent, a, scout)
      && multiset(a) == multiset(b)
    ensures T.LevelDone(g, s, depth, level, parent, b, scout)
  {
    hide Wave, T.Tree;
    Lists.PermutedDistinct(a, b);
    ScoutPermuted(g, a, b);
  }

  // Every interleaving of the visits and the flushes leaves a right tree of the
  // next level and, in the queue, a window that lists that level once each.
  lemma TopDownIsCorrect(g: Graph, s: nat, depth: seq<int>, level: nat, window: seq<nat>, owner: seq<nat>, size: nat,
                         parent: seq<int>, shared: seq<nat>, from: nat, threads: nat, states: seq<State>,
                         moves: seq<Move>)
    requires size > 0
    requires Wave(g, s, depth, level) && T.Tree(g, s, depth, parent) && T.ListsLevel(g, depth, level, window)
    requires from <= |shared| && g.N() <= |shared| && Bfs.Enqueued(shared[..from], depth)
    requires IsRun(g, window, owner, size, states, moves) && states[0] == Initial(window, parent, shared, from, threads)
    requires Finished(g, window, states[|moves|])
    ensures var q := states[|moves|].q;
      && from <= q.sharedIn <= |q.shared| == |shared| && q.shared[..from] == shared[..from]
      && T.LevelDone(g, s, depth, level, states[|moves|].td.parent, q.shared[from..q.sharedIn],
                     states[|moves|].td.scout)
      && Bfs.Enqueued(q.shared[..q.sharedIn], Next(g, depth, level))
  {
    hide Wave, T.Tree, T.Inv, Q.Inv, EndsOk, T.ListsLevel, T.Initial, T.Finished;
    var st := states[|moves|];
    var q, pushed := st.q, st.td.pushed;
    InitialInv(g, s, depth, level, window, owner, parent, shared, from, threads);
    RunInv(g, s, depth, level, window, owner, size, shared, from, states, moves, |moves|);
    T.FinishedIsDone(g, s, depth, level, window, st.td);
    Q.AllFlushed(shared, from, multiset(pushed), q);
    Q.StaysInside(shared, from, multiset(pushed), q);
    ValidFacts(g, s, depth, level, window, st.td);
    var added := q.shared[from..q.sharedIn];
    DonePermuted(g, s, depth, level, st.td.parent, pushed, added, st.td.scout);
    assert q.shared[..q.sharedIn] == shared[..from] + added;
    EnqueuedGrows(g, s, depth, level, st.td.parent, shared[..from], added, st.td.scout);
  }

  lemma ValidFacts(g: Graph, s: nat, depth: seq<int>, level: nat, window: seq<nat>, td: T.State)
    requires T.Inv(g, s, depth, level, window, td)
    ensures g.Valid() && |depth| == g.N()
  {
  }

  lemma EnqueuedGrows(g: Graph, s: nat, depth: seq<int>, level: nat, parent: seq<int>, all: seq<nat>, added: seq<nat>,
                      scout: int)
    requires g.Valid() && |depth| == g.N() && T.LevelDone(g, s, depth, level, parent, added, scout)
      && Bfs.Enqueued(all, depth)
    ensures Bfs.Enqueued(all + added, Next(g, depth, level))
  {
    RoomFor(depth, all, added);
    forall x | x in all + added ensures x < |depth| && Next(g, depth, level)[x] >= 0 {
      assert x in all || x in added;
    }
  }

  // ---------------------------------------------------------------- termination

  // Threads never wait for each other, and every vertex has its thread.
  lemma NeverStuck(g: Graph, s: nat, depth: seq<int>, level: nat, window: seq<nat>, owner: seq<nat>,
                   before: seq<nat>, from: nat, st: State)
    requires Inv(g, s, depth, level, window, owner, before, from, st) && !Finished(g, window, st)
    requires |owner| == |window| && forall i | 0 <= i < |owner| :: owner[i] < |st.q.threads|
    ensures exists m :: Enabled(g, window, owner, st, m)
  {
    hide Q.Inv, Q.Enabled, Bfs.Enqueued, EndsOk;
    if !T.Finished(g, window, st.td) {
      var i: nat :| i < |window| && i < |st.td.procs| && window[i] < g.N() && st.td.procs[i].k < |g.outs[window[i]]|;
      T.ProcFacts(g, s, depth, level, window, st.td.parent, st.td.procs, i);
      assert Enabled(g, window, owner, st, Visit(i));
    } else {
      var t: nat :| t < |st.q.threads| && !st.q.threads[t].pc.Done?;
      Q.NeverStuck(before, from, multiset(st.td.pushed), st.q, t);
      assert Enabled(g, window, owner, st, Queue(t));
    }
  }

  function VisitsLeft(g: Graph, u: nat, p: T.Proc): nat {
    if u < g.N() && p.k < |g.outs[u]| then 2 * (|g.outs[u]| - p.k) - if p.pc.Have? then 1 else 0 else 0
  }

  function AllVisitsLeft(g: Graph, window: seq<nat>, procs: seq<T.Proc>): nat
    requires |procs| <= |window|
  {
    if procs == [] then 0
    else var m := |procs| - 1; AllVisitsLeft(g, window, procs[..m]) + VisitsLeft(g, window[m], procs[m])
  }

  lemma {:induction false} VisitsUpdate(g: Graph, window: seq<nat>, procs: seq<T.Proc>, i: nat, p: T.Proc)
    requires i < |procs| <= |window|
    ensures AllVisitsLeft(g, window, procs[i := p])
         == AllVisitsLeft(g, window, procs) - VisitsLeft(g, window[i], procs[i]) + VisitsLeft(g, window[i], p)
  {
    var m := |procs| - 1;
    if i == m {
      assert procs[i := p][..m] == procs[..m];
    } else {
      assert procs[i := p][..m] == procs[..m][i := p];
      VisitsUpdate(g, window, procs[..m], i, p);
    }
  }

  lemma VisitShrinks(g: Graph, window: seq<nat>, td: T.State, i: nat)
    requires T.Enabled(g, window, td, i)
    ensures var procs' := T.Apply(g, window, td, i).procs;
      |procs'| == |window| && AllVisitsLeft(g, window, procs') < AllVisitsLeft(g, window, td.procs)
  {
    VisitsUpdate(g, window, td.procs, i, T.Apply(g, window, td, i).procs[i]);
  }

  // A visit leaves fewer visits, and between two visits the buffers can only be
  // moved on so often.
  lemma StepShrinks(g: Graph, s: nat, depth: seq<int>, level: nat, window: seq<nat>, owner: seq<nat>, size: nat,
                    before: seq<nat>, from: nat, st: State, m: Move)
    requires size > 0
    requires Inv(g, s, depth, level, window, owner, before, from, st) && Enabled(g, window, owner, st, m)
    ensures var st' := Apply(g, window, owner, size, st, m);
      && |st'.td.procs| == |st.td.procs| == |window|
      && (AllVisitsLeft(g, window, st'.td.procs) < AllVisitsLeft(g, window, st.td.procs)
          || (st'.td == st.td && Q.AllStepsLeft(st'.q.threads) < Q.AllStepsLeft(st.q.threads)))
  {
    hide T.Visiting, T.ListsLevel, T.ListsNew, Q.Inv, Q.Apply, Bfs.Enqueued, AllVisited, T.Apply;
    match m
    case Visit(i) => VisitShrinks(g, window, st.td, i);
    case Queue(t) =>
      assert EndOk(g, window, owner, st.td.procs, st.q.threads[t], t);
      Q.StepShrinks(size, st.q, t);
  }

  ghost predicate Steps(g: Graph, window: seq<nat>, owner: seq<nat>, size: nat, st: State, st': State) {
    exists m :: Enabled(g, window, owner, st, m) && st' == Apply(g, window, owner, size, st, m)
  }

  // No schedule runs forever.
  lemma {:induction false} EveryScheduleEnds(g: Graph, s: nat, depth: seq<int>, level: nat, window: seq<nat>,
                                             owner: seq<nat>, size: nat, before: seq<nat>, from: nat,
                                             run: nat -> State, i: nat)
    requires size > 0
    requires Inv(g, s, depth, level, window, owner, before, from, run(i)) && |run(i).td.procs| == |window|
    ensures exists j :: j >= i && !Steps(g, window, owner, size, run(j), run(j + 1))
    decreases AllVisitsLeft(g, window, run(i).td.procs), Q.AllStepsLeft(run(i).q.threads)
  {
    hide Inv, Enabled, Apply;
    if Steps(g, window, owner, size, run(i), run(i + 1)) {
      var m :| Enabled(g, window, owner, run(i), m) && run(i + 1) == Apply(g, window, owner, size, run(i), m);
      StepShrinks(g, s, depth, level, window, owner, size, before, from, run(i), m);
      StepKeepsInv(g, s, depth, level, window, owner, size, before, from, run(i), m);
      EveryScheduleEnds(g, s, depth, level, window, owner, size, before, from, run, i + 1);
    }
  }
}
