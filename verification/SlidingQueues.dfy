// The double-ended window queue and its thread-local buffers.

module SlidingQueues {

  class SlidingQueue {
    const shared: array<nat>
    var sharedIn: nat
    var sharedOutStart: nat
    var sharedOutEnd: nat

    ghost predicate Valid()
      reads this
    {
      sharedOutStart <= sharedOutEnd <= sharedIn <= shared.Length
    }

    // Everything ever pushed since the last reset.
    ghost function All(): seq<nat>
      requires Valid()
      reads this, shared
    {
      shared[..sharedIn]
    }

    // What iteration runs over.
    ghost function Window(): seq<nat>
      requires Valid()
      reads this, shared
    {
      shared[sharedOutStart..sharedOutEnd]
    }

    // What the next slide will show.
    ghost function Pending(): seq<nat>
      requires Valid()
      reads this, shared
    {
      shared[sharedOutEnd..sharedIn]
    }

    constructor (sharedSize: nat)
      ensures Valid() && fresh(shared) && shared.Length == sharedSize
      ensures All() == [] && Window() == [] && Pending() == []
    {
      shared := new nat[sharedSize];
      sharedIn, sharedOutStart, sharedOutEnd := 0, 0, 0;
    }

    method PushBack(toAdd: nat)
      requires Valid() && sharedIn < shared.Length
      modifies this`sharedIn, shared
      ensures Valid() && All() == old(All()) + [toAdd]
      ensures Window() == old(Window()) && Pending() == old(Pending()) + [toAdd]
      ensures sharedOutStart == old(sharedOutStart) && sharedOutEnd == old(sharedOutEnd)
    {
      shared[sharedIn] := toAdd;
      sharedIn := sharedIn + 1;
    }

    predicate Empty()
      reads this
    {
      sharedOutStart == sharedOutEnd
    }

    method Reset()
      requires Valid()
      modifies this
      ensures Valid() && All() == [] && Window() == [] && Pending() == []
    {
      sharedOutStart, sharedOutEnd, sharedIn := 0, 0, 0;
    }

    method SlideWindow()
      requires Valid()
      modifies this`sharedOutStart, this`sharedOutEnd
      ensures Valid() && Window() == old(Pending()) && Pending() == [] && All() == old(All())
    {
      sharedOutStart := sharedOutEnd;
      sharedOutEnd := sharedIn;
    }

    function Size(): nat
      requires Valid()
      reads this
    {
      sharedOutEnd - sharedOutStart
    }
  }

  class QueueBuffer {
    var in': nat
    const localQueue: array<nat>
    const sq: SlidingQueue
    const localSize: nat

    ghost predicate Valid()
      reads this, sq
    {
      && in' <= localSize == localQueue.Length && 0 < localSize
      && localQueue != sq.shared && sq.Valid()
    }

    // Pushed into this buffer and not yet handed over.
    ghost function Held(): seq<nat>
      requires Valid()
      reads this, sq, localQueue
    {
      localQueue[..in']
    }

    constructor (master: SlidingQueue, givenSize: nat)
      requires master.Valid() && givenSize > 0
      ensures Valid() && sq == master && fresh(localQueue) && Held() == []
    {
      sq := master;
      localSize := givenSize;
      localQueue := new nat[givenSize];
      in' := 0;
    }

    // Nothing is lost or reordered on the way into the queue.
    method PushBack(toAdd: nat)
      requires Valid() && sq.sharedIn + in' < sq.shared.Length
      modifies this`in', localQueue, sq`sharedIn, sq.shared
      ensures Valid() && sq.Window() == old(sq.Window())
      ensures sq.All() + Held() == old(sq.All() + Held()) + [toAdd]
      ensures sq.Pending() + Held() == old(sq.Pending() + Held()) + [toAdd]
    {
      if in' == localSize {
        Flush();
      }
      localQueue[in'] := toAdd;
      in' := in' + 1;
    }

    method Flush()
      requires Valid() && sq.sharedIn + in' <= sq.shared.Length
      modifies this`in', sq`sharedIn, sq.shared
      ensures Valid() && Held() == [] && sq.Window() == old(sq.Window())
      ensures sq.All() == old(sq.All() + Held()) && sq.Pending() == old(sq.Pending() + Held())
    {
      var copyStart := sq.sharedIn;
      sq.sharedIn := sq.sharedIn + in';
      for k := 0 to in'
        invariant Valid() && sq.sharedIn == old(sq.sharedIn) + in' && in' == old(in')
        invariant sq.shared[..copyStart] == old(sq.shared[..copyStart])
        invariant sq.shared[copyStart..copyStart + k] == old(localQueue[..k])
      {
        sq.shared[copyStart + k] := localQueue[k];
      }
      in' := 0;
    }
  }

  // -------------------------------------------------------- buffers in parallel

  // Copying: the range from start is reserved, and the first k values are copied.
  datatype Pc = Filling | Copying(start: nat, k: nat) | Done

  // A thread that still has `todo` to push, with a buffer of its own.
  datatype Thread = Thread(todo: seq<nat>, local: seq<nat>, pc: Pc)

  datatype State = State(shared: seq<nat>, sharedIn: nat, threads: seq<Thread>)

  predicate Enabled(s: State, t: nat) {
    && t < |s.threads|
    && match s.threads[t].pc
       case Filling => true
       case Copying(start, k) => k >= |s.threads[t].local| || start + k < |s.shared|
       case Done => false
  }

  // One push into the buffer, one fetch_and_add, or one copied value.
  function Apply(size: nat, s: State, t: nat): State
    requires Enabled(s, t)
  {
    var th := s.threads[t];
    match th.pc
    case Filling =>
      if th.todo == [] || |th.local| >= size then
        s.(sharedIn := s.sharedIn + |th.local|, threads := s.threads[t := th.(pc := Copying(s.sharedIn, 0))])
      else
        s.(threads := s.threads[t := Thread(th.todo[1..], th.local + [th.todo[0]], Filling)])
    case Copying(start, k) =>
      if k < |th.local| then
        s.(shared := s.shared[start + k := th.local[k]], threads := s.threads[t := th.(pc := Copying(start, k + 1))])
      else
        s.(threads := s.threads[t := Thread(th.todo, [], if th.todo == [] then Done else Filling)])
  }

  // What a thread has not reserved a cell for.
  ghost function Unreserved(th: Thread): multiset<nat> {
    multiset(th.todo) + if th.pc.Filling? then multiset(th.local) else multiset{}
  }

  ghost function AllUnreserved(threads: seq<Thread>): multiset<nat> {
    if threads == [] then multiset{}
    else AllUnreserved(threads[..|threads| - 1]) + Unreserved(threads[|threads| - 1])
  }

  lemma AddSwap(a: multiset<nat>, b: multiset<nat>, c: multiset<nat>)
    ensures (a + b) + c == (a + c) + b
  {
  }

  lemma {:induction false} UnreservedStep(threads: seq<Thread>, t: nat, th: Thread, moved: multiset<nat>)
    requires t < |threads| && Unreserved(threads[t]) == Unreserved(th) + moved
    ensures AllUnreserved(threads) == AllUnreserved(threads[t := th]) + moved
  {
    var m := |threads| - 1;
    if t < m {
      assert threads[t := th][..m] == threads[..m][t := th];
      UnreservedStep(threads[..m], t, th, moved);
      AddSwap(AllUnreserved(threads[..m][t := th]), moved, Unreserved(threads[m]));
    } else {
      assert threads[t := th][..m] == threads[..m];
      UnreservedLast(AllUnreserved(threads[..m]), Unreserved(th), moved);
    }
  }

  lemma UnreservedLast(a: multiset<nat>, b: multiset<nat>, c: multiset<nat>)
    ensures a + (b + c) == (a + b) + c
  {
  }

  // promised[j] is the value that cell from + j is reserved for.
  ghost predicate ThreadOk(from: nat, promised: seq<nat>, th: Thread) {
    match th.pc
    case Copying(start, k) =>
      && k <= |th.local| && from <= start && start + |th.local| <= from + |promised|
      && promised[start - from..start - from + |th.local|] == th.local
    case Done => th.todo == [] && th.local == []
    case Filling => true
  }

  ghost predicate Pending(th: Thread, cell: nat) {
    th.pc.Copying? && th.pc.start + th.pc.k <= cell < th.pc.start + |th.local|
  }

  ghost predicate CellOk(s: State, from: nat, promised: seq<nat>, j: nat)
    requires j < |promised|
  {
    from + j < |s.shared| && (s.shared[from + j] == promised[j] || exists t ::
                              0 <= t < |s.threads| && Pending(s.threads[t], from + j))
  }

  // No two threads copy to the same cell.
  ghost predicate RangesApart(threads: seq<Thread>) {
    forall t, u | 0 <= t < u < |threads| && threads[t].pc.Copying? && threads[u].pc.Copying? ::
      || threads[t].pc.start + |threads[t].local| <= threads[u].pc.start
      || threads[u].pc.start + |threads[u].local| <= threads[t].pc.start
  }

  // Nothing that was to be pushed is lost or doubled.
  ghost predicate Conserved(pushes: multiset<nat>, s: State, promised: seq<nat>) {
    multiset(promised) + AllUnreserved(s.threads) == pushes
  }

  ghost predicate KeepsPromises(before: seq<nat>, from: nat, s: State, promised: seq<nat>) {
    && from <= |before| == |s.shared| && s.shared[..from] == before[..from]
    && s.sharedIn == from + |promised|
    && (forall t | 0 <= t < |s.threads| :: ThreadOk(from, promised, s.threads[t]))
    && (forall j: nat | j < |promised| :: CellOk(s, from, promised, j))
    && RangesApart(s.threads)
  }

  ghost predicate LogInv(before: seq<nat>, from: nat, pushes: multiset<nat>, s: State, promised: seq<nat>) {
    from + |pushes| <= |before| && Conserved(pushes, s, promised) && KeepsPromises(before, from, s, promised)
  }

  ghost predicate Inv(before: seq<nat>, from: nat, pushes: multiset<nat>, s: State) {
    exists promised :: LogInv(before, from, pushes, s, promised)
  }

  lemma PromisedFits(before: seq<nat>, from: nat, pushes: multiset<nat>, s: State, promised: seq<nat>)
    requires LogInv(before, from, pushes, s, promised)
    ensures from + |promised| + |AllUnreserved(s.threads)| == from + |pushes| <= |s.shared|
  {
    assert |multiset(promised)| == |promised|;
  }

  lemma FillStep(before: seq<nat>, from: nat, pushes: multiset<nat>, s: State, promised: seq<nat>, size: nat, t: nat)
    requires LogInv(before, from, pushes, s, promised) && Enabled(s, t) && s.threads[t].pc.Filling?
    requires s.threads[t].todo != [] && |s.threads[t].local| < size
    ensures LogInv(before, from, pushes, Apply(size, s, t), promised)
  {
    var th, s' := s.threads[t], Apply(size, s, t);
    hide CellOk, RangesApart, AllUnreserved;
    assert th.todo == [th.todo[0]] + th.todo[1..];
    NothingReserved(pushes, s, promised, t, s'.threads[t]);
    FillKeepsPromises(before, from, s, promised, size, t);
  }

  lemma FillKeepsPromises(before: seq<nat>, from: nat, s: State, promised: seq<nat>, size: nat, t: nat)
    requires KeepsPromises(before, from, s, promised) && Enabled(s, t) && s.threads[t].pc.Filling?
    requires s.threads[t].todo != [] && |s.threads[t].local| < size
    ensures KeepsPromises(before, from, Apply(size, s, t), promised)
  {
    OthersStillPending(s, Apply(size, s, t), from, promised, t);
  }

  // Steps that leave the cells alone and end no pending copy keep every promise.
  lemma OthersStillPending(s: State, s': State, from: nat, promised: seq<nat>, t: nat)
    requires t < |s.threads| == |s'.threads| && s'.shared == s.shared
    requires forall u | 0 <= u < |s.threads| && u != t :: s'.threads[u] == s.threads[u]
    requires forall cell: nat | Pending(s.threads[t], cell) :: Pending(s'.threads[t], cell)
    requires forall j: nat | j < |promised| :: CellOk(s, from, promised, j)
    ensures forall j: nat | j < |promised| :: CellOk(s', from, promised, j)
  {
    forall j: nat | j < |promised| ensures CellOk(s', from, promised, j) {
      assert CellOk(s, from, promised, j);
      if s.shared[from + j] != promised[j] {
        var u :| 0 <= u < |s.threads| && Pending(s.threads[u], from + j);
        assert Pending(s'.threads[u], from + j);
      }
    }
  }

  lemma ReserveConserves(pushes: multiset<nat>, s: State, promised: seq<nat>, t: nat, th: Thread)
    requires Conserved(pushes, s, promised) && t < |s.threads| && s.threads[t].pc.Filling?
    requires th.todo == s.threads[t].todo && !th.pc.Filling?
    ensures multiset(promised + s.threads[t].local) + AllUnreserved(s.threads[t := th]) == pushes
  {
    var local := multiset(s.threads[t].local);
    UnreservedStep(s.threads, t, th, local);
    UnreservedLast(multiset(promised), AllUnreserved(s.threads[t := th]), local);
    AddSwap(multiset(promised), AllUnreserved(s.threads[t := th]), local);
  }

  lemma ReserveKeepsCell(before: seq<nat>, from: nat, s: State, promised: seq<nat>, size: nat, t: nat, j: nat)
    requires KeepsPromises(before, from, s, promised) && Enabled(s, t) && s.threads[t].pc.Filling?
    requires s.threads[t].todo == [] || |s.threads[t].local| >= size
    requires j < |promised + s.threads[t].local| && from + j < |s.shared|
    ensures CellOk(Apply(size, s, t), from, promised + s.threads[t].local, j)
  {
    var s' := Apply(size, s, t);
    if j < |promised| {
      assert CellOk(s, from, promised, j);
      if s.shared[from + j] != promised[j] {
        var u :| 0 <= u < |s.threads| && Pending(s.threads[u], from + j);
        assert Pending(s'.threads[u], from + j);
      }
    } else {
      assert Pending(s'.threads[t], from + j);
    }
  }

  lemma ReserveKeepsApart(before: seq<nat>, from: nat, s: State, promised: seq<nat>, size: nat, t: nat)
    requires KeepsPromises(before, from, s, promised) && Enabled(s, t) && s.threads[t].pc.Filling?
    requires s.threads[t].todo == [] || |s.threads[t].local| >= size
    ensures RangesApart(Apply(size, s, t).threads)
  {
    var s' := Apply(size, s, t);
    forall u, v | 0 <= u < v < |s'.threads| && s'.threads[u].pc.Copying? && s'.threads[v].pc.Copying?
      ensures || s'.threads[u].pc.start + |s'.threads[u].local| <= s'.threads[v].pc.start
              || s'.threads[v].pc.start + |s'.threads[v].local| <= s'.threads[u].pc.start
    {
      assert ThreadOk(from, promised, s.threads[u]) && ThreadOk(from, promised, s.threads[v]);
    }
  }

  lemma ReserveStep(before: seq<nat>, from: nat, pushes: multiset<nat>, s: State, promised: seq<nat>, size: nat, t: nat)
    requires LogInv(before, from, pushes, s, promised) && Enabled(s, t) && s.threads[t].pc.Filling?
    requires s.threads[t].todo == [] || |s.threads[t].local| >= size
    ensures LogInv(before, from, pushes, Apply(size, s, t), promised + s.threads[t].local)
  {
    var th, s' := s.threads[t], Apply(size, s, t);
    var promised' := promised + th.local;
    ReserveConserves(pushes, s, promised, t, s'.threads[t]);
    assert Conserved(pushes, s', promised');
    assert |multiset(promised')| == |promised'|;
    forall u | 0 <= u < |s'.threads| ensures ThreadOk(from, promised', s'.threads[u]) {
      if u != t { ThreadOkGrows(from, promised, th.local, s.threads[u]); }
    }
    forall j: nat | j < |promised'| ensures CellOk(s', from, promised', j) {
      ReserveKeepsCell(before, from, s, promised, size, t, j);
    }
    ReserveKeepsApart(before, from, s, promised, size, t);
  }

  lemma ThreadOkGrows(from: nat, promised: seq<nat>, more: seq<nat>, th: Thread)
    requires ThreadOk(from, promised, th)
    ensures ThreadOk(from, promised + more, th)
  {
    if th.pc.Copying? {
      var a, b := th.pc.start - from, th.pc.start - from + |th.local|;
      assert (promised + more)[a..b] == promised[a..b];
    }
  }

  lemma CopyKeepsCell(before: seq<nat>, from: nat, s: State, promised: seq<nat>, size: nat, t: nat, j: nat)
    requires KeepsPromises(before, from, s, promised) && Enabled(s, t) && s.threads[t].pc.Copying?
    requires s.threads[t].pc.k < |s.threads[t].local| && j < |promised|
    ensures CellOk(Apply(size, s, t), from, promised, j)
  {
    var th, s' := s.threads[t], Apply(size, s, t);
    assert ThreadOk(from, promised, th) && CellOk(s, from, promised, j);
    if from + j == th.pc.start + th.pc.k {
      assert promised[j] == promised[th.pc.start - from..th.pc.start - from + |th.local|][th.pc.k];
    } else if s.shared[from + j] != promised[j] {
      var u :| 0 <= u < |s.threads| && Pending(s.threads[u], from + j);
      assert Pending(s'.threads[u], from + j);
    }
  }

  // A step that reserves nothing conserves everything.
  lemma NothingReserved(pushes: multiset<nat>, s: State, promised: seq<nat>, t: nat, th: Thread)
    requires Conserved(pushes, s, promised) && t < |s.threads| && Unreserved(th) == Unreserved(s.threads[t])
    ensures multiset(promised) + AllUnreserved(s.threads[t := th]) == pushes
  {
    UnreservedStep(s.threads, t, th, multiset{});
  }

  lemma CopyKeepsPromises(before: seq<nat>, from: nat, s: State, promised: seq<nat>, size: nat, t: nat)
    requires KeepsPromises(before, from, s, promised) && Enabled(s, t) && s.threads[t].pc.Copying?
    requires s.threads[t].pc.k < |s.threads[t].local|
    ensures KeepsPromises(before, from, Apply(size, s, t), promised)
  {
    var th, s' := s.threads[t], Apply(size, s, t);
    assert ThreadOk(from, promised, th);
    forall j: nat | j < |promised| ensures CellOk(s', from, promised, j) {
      CopyKeepsCell(before, from, s, promised, size, t, j);
    }
    assert s'.shared[..from] == s.shared[..from];
  }

  lemma CopyStep(before: seq<nat>, from: nat, pushes: multiset<nat>, s: State, promised: seq<nat>, size: nat, t: nat)
    requires LogInv(before, from, pushes, s, promised) && Enabled(s, t) && s.threads[t].pc.Copying?
    requires s.threads[t].pc.k < |s.threads[t].local|
    ensures LogInv(before, from, pushes, Apply(size, s, t), promised)
  {
    NothingReserved(pushes, s, promised, t, Apply(size, s, t).threads[t]);
    CopyKeepsPromises(before, from, s, promised, size, t);
  }

  lemma EndFlushStep(before: seq<nat>, from: nat, pushes: multiset<nat>, s: State, promised: seq<nat>, size: nat,
                     t: nat)
    requires LogInv(before, from, pushes, s, promised) && Enabled(s, t) && s.threads[t].pc.Copying?
    requires s.threads[t].pc.k >= |s.threads[t].local|
    ensures LogInv(before, from, pushes, Apply(size, s, t), promised)
  {
    var th, s' := s.threads[t], Apply(size, s, t);
    NothingReserved(pushes, s, promised, t, s'.threads[t]);
    OthersStillPending(s, s', from, promised, t);
  }

  lemma StepKeepsInv(before: seq<nat>, from: nat, pushes: multiset<nat>, s: State, size: nat, t: nat)
    requires Inv(before, from, pushes, s) && Enabled(s, t)
    ensures Inv(before, from, pushes, Apply(size, s, t))
  {
    var promised :| LogInv(before, from, pushes, s, promised);
    var th := s.threads[t];
    if th.pc.Filling? {
      if th.todo == [] || |th.local| >= size {
        ReserveStep(before, from, pushes, s, promised, size, t);
      } else {
        FillStep(before, from, pushes, s, promised, size, t);
      }
    } else if th.pc.k < |th.local| {
      CopyStep(before, from, pushes, s, promised, size, t);
    } else {
      EndFlushStep(before, from, pushes, s, promised, size, t);
    }
  }

  function StartThreads(scripts: seq<seq<nat>>): seq<Thread> {
    if scripts == [] then [] else StartThreads(scripts[..|scripts| - 1]) + [Thread(scripts[|scripts| - 1], [], Filling)]
  }

  ghost function AllPushes(scripts: seq<seq<nat>>): multiset<nat> {
    if scripts == [] then multiset{} else AllPushes(scripts[..|scripts| - 1]) + multiset(scripts[|scripts| - 1])
  }

  lemma {:induction false} StartUnreserved(scripts: seq<seq<nat>>)
    ensures AllUnreserved(StartThreads(scripts)) == AllPushes(scripts)
    ensures forall t | 0 <= t < |StartThreads(scripts)| :: StartThreads(scripts)[t].pc.Filling?
  {
    if scripts != [] {
      StartUnreserved(scripts[..|scripts| - 1]);
      var threads := StartThreads(scripts);
      assert threads[..|threads| - 1] == StartThreads(scripts[..|scripts| - 1]);
    }
  }

  lemma {:induction false} AllDoneUnreserved(threads: seq<Thread>)
    requires forall t | 0 <= t < |threads| :: threads[t].pc.Done? && threads[t].todo == []
    ensures AllUnreserved(threads) == multiset{}
  {
    if threads != [] { AllDoneUnreserved(threads[..|threads| - 1]); }
  }

  ghost predicate IsRun(size: nat, states: seq<State>, moves: seq<nat>) {
    && |states| == |moves| + 1
    && forall i | 0 <= i < |moves| :: Enabled(states[i], moves[i]) && states[i + 1] == Apply(size, states[i], moves[i])
  }

  lemma {:induction false} RunInv(before: seq<nat>, from: nat, pushes: multiset<nat>, size: nat, states: seq<State>,
                                  moves: seq<nat>, i: nat)
    requires IsRun(size, states, moves) && Inv(before, from, pushes, states[0]) && i < |states|
    ensures Inv(before, from, pushes, states[i])
  {
    if i > 0 {
      RunInv(before, from, pushes, size, states, moves, i - 1);
      StepKeepsInv(before, from, pushes, states[i - 1], size, moves[i - 1]);
    }
  }

  lemma StartInv(shared: seq<nat>, from: nat, scripts: seq<seq<nat>>)
    requires from + |AllPushes(scripts)| <= |shared|
    ensures Inv(shared, from, AllPushes(scripts), State(shared, from, StartThreads(scripts)))
  {
    hide AllPushes, StartThreads, AllUnreserved;
    StartUnreserved(scripts);
    var s, none: seq<nat> := State(shared, from, StartThreads(scripts)), [];
    NothingAdded(AllUnreserved(s.threads));
    assert Conserved(AllPushes(scripts), s, none);
    assert KeepsPromises(shared, from, s, none);
    assert LogInv(shared, from, AllPushes(scripts), s, none);
  }

  lemma NothingAdded(a: multiset<nat>)
    ensures multiset([]) + a == a
  {
  }

  // However the threads interleave, the next window is exactly what they pushed.
  lemma WindowIsWhatWasPushed(shared: seq<nat>, from: nat, scripts: seq<seq<nat>>, size: nat, states: seq<State>,
                              moves: seq<nat>)
    requires from + |AllPushes(scripts)| <= |shared|
    requires IsRun(size, states, moves) && states[0] == State(shared, from, StartThreads(scripts))
    requires forall t | 0 <= t < |states[|moves|].threads| :: states[|moves|].threads[t].pc.Done?
    ensures var s := states[|moves|];
      && from <= s.sharedIn <= |s.shared| == |shared| && s.shared[..from] == shared[..from]
      && multiset(s.shared[from..s.sharedIn]) == AllPushes(scripts)
  {
    hide LogInv, AllPushes, StartThreads, Apply;
    var pushes, s := AllPushes(scripts), states[|moves|];
    StartInv(shared, from, scripts);
    RunInv(shared, from, pushes, size, states, moves, |moves|);
    var promised :| LogInv(shared, from, pushes, s, promised);
    FinishedWindow(shared, from, pushes, s, promised);
  }

  lemma FinishedWindow(before: seq<nat>, from: nat, pushes: multiset<nat>, s: State, promised: seq<nat>)
    requires LogInv(before, from, pushes, s, promised)
    requires forall t | 0 <= t < |s.threads| :: s.threads[t].pc.Done?
    ensures from <= s.sharedIn <= |s.shared| == |before| && s.shared[..from] == before[..from]
    ensures multiset(s.shared[from..s.sharedIn]) == pushes
  {
    forall t | 0 <= t < |s.threads| ensures s.threads[t].todo == [] { assert ThreadOk(from, promised, s.threads[t]); }
    AllDoneUnreserved(s.threads);
    PromisedFits(before, from, pushes, s, promised);
    forall j: nat | j < |promised| ensures s.shared[from + j] == promised[j] { assert CellOk(s, from, promised, j); }
    assert s.shared[from..s.sharedIn] == promised;
  }

  // Nobody copies outside the queue, so a thread that is not done can always move.
  lemma NeverStuck(before: seq<nat>, from: nat, pushes: multiset<nat>, s: State, t: nat)
    requires Inv(before, from, pushes, s) && t < |s.threads| && !s.threads[t].pc.Done?
    ensures Enabled(s, t)
  {
    var promised :| LogInv(before, from, pushes, s, promised);
    PromisedFits(before, from, pushes, s, promised);
    assert ThreadOk(from, promised, s.threads[t]);
  }

  // ------------------------------------------- what is to be pushed, found on the way

  // The loop that fills the buffers has found one more value for thread t.
  function Feed(s: State, t: nat, v: nat): State
    requires t < |s.threads|
  {
    s.(threads := s.threads[t := s.threads[t].(todo := s.threads[t].todo + [v])])
  }

  lemma FeedConserves(pushes: multiset<nat>, s: State, promised: seq<nat>, t: nat, v: nat)
    requires Conserved(pushes, s, promised) && t < |s.threads|
    ensures Conserved(pushes + multiset{v}, Feed(s, t, v), promised)
  {
    var s', th := Feed(s, t, v), s.threads[t];
    assert s'.threads[t := th] == s.threads;
    UnreservedStep(s'.threads, t, th, multiset{v});
    UnreservedLast(multiset(promised), AllUnreserved(s.threads), multiset{v});
  }

  lemma FeedKeepsPromises(before: seq<nat>, from: nat, s: State, promised: seq<nat>, t: nat, v: nat)
    requires KeepsPromises(before, from, s, promised) && t < |s.threads| && !s.threads[t].pc.Done?
    ensures KeepsPromises(before, from, Feed(s, t, v), promised)
  {
    var s' := Feed(s, t, v);
    OthersStillPending(s, s', from, promised, t);
    forall u | 0 <= u < |s'.threads| ensures ThreadOk(from, promised, s'.threads[u]) {
      assert ThreadOk(from, promised, s.threads[u]);
    }
  }

  lemma FeedStep(before: seq<nat>, from: nat, pushes: multiset<nat>, s: State, t: nat, v: nat)
    requires Inv(before, from, pushes, s) && t < |s.threads| && !s.threads[t].pc.Done?
    requires from + |pushes| < |before|
    ensures Inv(before, from, pushes + multiset{v}, Feed(s, t, v))
  {
    hide Conserved, KeepsPromises, Feed;
    var promised :| LogInv(before, from, pushes, s, promised);
    FeedConserves(pushes, s, promised, t, v);
    FeedKeepsPromises(before, from, s, promised, t, v);
    assert LogInv(before, from, pushes + multiset{v}, Feed(s, t, v), promised);
  }

  // Threads that have found nothing yet.
  function IdleThreads(count: nat): seq<Thread> {
    seq(count, _ => Thread([], [], Filling))
  }

  lemma {:induction false} IdleUnreserved(count: nat)
    ensures AllUnreserved(IdleThreads(count)) == multiset{}
  {
    if count > 0 {
      IdleUnreserved(count - 1);
      var threads := IdleThreads(count);
      assert threads[..|threads| - 1] == IdleThreads(count - 1);
    }
  }

  lemma IdleInv(before: seq<nat>, from: nat, count: nat)
    requires from <= |before|
    ensures Inv(before, from, multiset{}, State(before, from, IdleThreads(count)))
  {
    IdleUnreserved(count);
    assert LogInv(before, from, multiset{}, State(before, from, IdleThreads(count)), []);
  }

  // Nothing is ever reserved or copied beyond the last cell.
  lemma StaysInside(before: seq<nat>, from: nat, pushes: multiset<nat>, s: State)
    requires Inv(before, from, pushes, s)
    ensures from <= s.sharedIn <= |s.shared| == |before| && s.shared[..from] == before[..from]
    ensures forall t | 0 <= t < |s.threads| && s.threads[t].pc.Copying? ::
      from <= s.threads[t].pc.start && s.threads[t].pc.start + |s.threads[t].local| <= |s.shared|
  {
    var promised :| LogInv(before, from, pushes, s, promised);
    PromisedFits(before, from, pushes, s, promised);
    forall t | 0 <= t < |s.threads| && s.threads[t].pc.Copying?
      ensures from <= s.threads[t].pc.start && s.threads[t].pc.start + |s.threads[t].local| <= |s.shared|
    {
      assert ThreadOk(from, promised, s.threads[t]);
    }
  }

  // Once every thread is done, the new cells hold what was found.
  lemma AllFlushed(before: seq<nat>, from: nat, pushes: multiset<nat>, s: State)
    requires Inv(before, from, pushes, s)
    requires forall t | 0 <= t < |s.threads| :: s.threads[t].pc.Done?
    ensures from <= s.sharedIn <= |s.shared| && multiset(s.shared[from..s.sharedIn]) == pushes
  {
    var promised :| LogInv(before, from, pushes, s, promised);
    FinishedWindow(before, from, pushes, s, promised);
  }

  // ---------------------------------------------------------------- termination

  // Steps that a thread may still take with what it has to push.
  function StepsLeft(th: Thread): nat {
    match th.pc
    case Filling => 6 * |th.todo| + 4 * |th.local| + 3
    case Copying(_, k) => 6 * |th.todo| + 3 * |th.local| + 2 + if k < |th.local| then |th.local| - k else 0
    case Done => 0
  }

  function AllStepsLeft(threads: seq<Thread>): nat {
    if threads == [] then 0 else AllStepsLeft(threads[..|threads| - 1]) + StepsLeft(threads[|threads| - 1])
  }

  lemma {:induction false} StepsUpdate(threads: seq<Thread>, t: nat, th: Thread)
    requires t < |threads|
    ensures AllStepsLeft(threads[t := th]) == AllStepsLeft(threads) - StepsLeft(threads[t]) + StepsLeft(th)
  {
    var m := |threads| - 1;
    if t == m {
      assert threads[t := th][..m] == threads[..m];
    } else {
      assert threads[t := th][..m] == threads[..m][t := th];
      StepsUpdate(threads[..m], t, th);
    }
  }

  // A flush that has copied nothing is a thread's last.
  ghost predicate FlushOk(th: Thread) { th.pc.Copying? ==> th.todo == [] || th.local != [] }

  ghost predicate FlushesOk(threads: seq<Thread>) { forall t | 0 <= t < |threads| :: FlushOk(threads[t]) }

  lemma StepShrinks(size: nat, s: State, t: nat)
    requires Enabled(s, t) && size > 0 && FlushOk(s.threads[t])
    ensures AllStepsLeft(Apply(size, s, t).threads) < AllStepsLeft(s.threads)
  {
    StepsUpdate(s.threads, t, Apply(size, s, t).threads[t]);
  }

  lemma StepKeepsFlushes(size: nat, s: State, t: nat)
    requires size > 0 && Enabled(s, t) && FlushesOk(s.threads)
    ensures FlushesOk(Apply(size, s, t).threads)
  {
    assert FlushOk(s.threads[t]);
  }

  lemma {:induction false} StartFlushes(scripts: seq<seq<nat>>)
    ensures FlushesOk(StartThreads(scripts))
  {
    if scripts != [] { StartFlushes(scripts[..|scripts| - 1]); }
  }

  ghost predicate Steps(size: nat, s: State, s': State) {
    exists t :: Enabled(s, t) && s' == Apply(size, s, t)
  }

  // No schedule of pushes and flushes runs forever.
  lemma {:induction false} EveryScheduleEnds(size: nat, run: nat -> State, i: nat)
    requires size > 0 && FlushesOk(run(i).threads)
    ensures exists j :: j >= i && !Steps(size, run(j), run(j + 1))
    decreases AllStepsLeft(run(i).threads)
  {
    hide Enabled, Apply;
    if Steps(size, run(i), run(i + 1)) {
      var t :| Enabled(run(i), t) && run(i + 1) == Apply(size, run(i), t);
      MoveShrinks(size, run(i), t);
      StepKeepsFlushes(size, run(i), t);
      EveryScheduleEnds(size, run, i + 1);
    }
  }

  lemma MoveShrinks(size: nat, s: State, t: nat)
    requires size > 0 && Enabled(s, t) && FlushesOk(s.threads)
    ensures AllStepsLeft(Apply(size, s, t).threads) < AllStepsLeft(s.threads)
  {
    hide Apply, AllStepsLeft;
    assert t < |s.threads| && FlushOk(s.threads[t]);
    StepShrinks(size, s, t);
  }
}
