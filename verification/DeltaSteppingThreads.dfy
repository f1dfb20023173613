module DeltaSteppingThreads {
  // Delta-stepping as T threads run it; the two barriers of an iteration are moves
  // that all threads make together.  A thread makes one access to shared memory
  // per step, with two exceptions: the stores of the single block, and the copy
  // of a bin to the frontier, are one step each.  Nobody else reads what they
  // write before the next barrier, so finer steps would commute with the steps of
  // the other threads and end in the same state (ResetCommutes, CopyMayBeInterrupted).

  import opened Walks
  import opened Lists

  const MAX_BIN: nat := 0x7FFF_FFFF_FFFF_FFFF
  const BIN_SIZE_THRESHOLD: nat := 1000

  // Where a thread stands.  Take: about to take the next vertex of `list`;
  // Edge, HaveOld, HaveNew, Retry and Push: inside RelaxEdges at edge k of u.
  datatype Pc =
    | Take
    | Edge(u: nat, k: nat)
    | HaveOld(u: nat, k: nat, oldDist: int)
    | HaveNew(u: nat, k: nat, oldDist: int, newDist: int)
    | Retry(u: nat, k: nat, newDist: int)
    | Push(u: nat, k: nat, newDist: int)
    | Fuse
    | Vote
    | AtBarrier1
    | PastBarrier1
    | Reserve
    | CopyOut(start: nat)
    | AtBarrier2
    | Exit

  // `list` is what is left of the thread's share of the frontier, or of its
  // copy of the current bin when `fused`.
  datatype Thread = Thread(pc: Pc, list: seq<nat>, fused: bool, bins: seq<seq<nat>>)

  datatype Phase = Working | Moving | Finished

  // `frontier` maps a slot to its vertex.  It is forgotten at the first
  // barrier: a slot that is read later has been written in between.
  datatype State = State(dist: seq<int>, frontier: map<nat, nat>, idx: seq<nat>, tails: seq<nat>,
                         iter: nat, singleTaken: bool, phase: Phase, threads: seq<Thread>)
  {
    function CurrSlot(): nat { iter % 2 }
    function NextSlot(): nat { (iter + 1) % 2 }
    predicate TwoBuffers() { |idx| == 2 && |tails| == 2 }
    function Curr(): nat requires |idx| == 2 { idx[CurrSlot()] }
    function Next(): nat requires |idx| == 2 { idx[NextSlot()] }
    function NextTail(): nat requires |tails| == 2 { tails[NextSlot()] }
  }

  datatype Move = Run(t: nat) | Release1 | Release2(owner: seq<nat>)

  function PushBin(bins: seq<seq<nat>>, b: nat, v: nat): seq<seq<nat>> {
    var r := Resized(bins, b + 1);
    r[b := r[b] + [v]]
  }

  function FirstNonEmpty(bins: seq<seq<nat>>, start: nat): (b: nat)
    ensures b == MAX_BIN || (start <= b < |bins| && bins[b] != [])
    ensures forall i | start <= i < |bins| && i < b :: bins[i] == []
    decreases |bins| - start
  {
    if start >= |bins| || start >= MAX_BIN then MAX_BIN
    else if bins[start] != [] then start
    else FirstNonEmpty(bins, start + 1)
  }

  // The frontier after `batch` has been copied to the slots from `start` on.
  function Write(frontier: map<nat, nat>, start: nat, batch: seq<nat>): (r: map<nat, nat>)
    ensures forall i {:trigger i in r} :: i in r <==> i in frontier || start <= i < start + |batch|
    ensures forall i {:trigger r[i]} | i in r ::
      r[i] == if start <= i < start + |batch| then batch[i - start] else frontier[i]
  {
    if batch == [] then frontier
    else
      var m := |batch| - 1;
      Write(frontier, start, batch[..m])[start + m := batch[m]]
  }

  // The slots given to thread t, in order, when slot i goes to owner[i].
  function Share(frontier: map<nat, nat>, owner: seq<nat>, t: nat): (share: seq<nat>)
    requires forall i | 0 <= i < |owner| :: i in frontier
  {
    if owner == [] then []
    else
      var m := |owner| - 1;
      Share(frontier, owner[..m], t) + if owner[m] == t then [frontier[m]] else []
  }

  predicate CanRun(g: WGraph, s: State, t: nat)
    requires |s.dist| == |g| && s.TwoBuffers()
  {
    && t < |s.threads|
    && CanStep(g, s.dist, s.threads[t])
    && !s.threads[t].pc.AtBarrier1? && !s.threads[t].pc.AtBarrier2? && !s.threads[t].pc.Exit?
    && (s.threads[t].pc.CopyOut? ==> s.Next() < |s.threads[t].bins|)
  }

  predicate Enabled(g: WGraph, s: State, m: Move) {
    && |s.dist| == |g|
    && s.TwoBuffers()
    && match m
       case Run(t) => CanRun(g, s, t)
       case Release1 => forall t | 0 <= t < |s.threads| :: s.threads[t].pc == AtBarrier1
       case Release2(owner) =>
         && (forall t | 0 <= t < |s.threads| :: s.threads[t].pc == AtBarrier2)
         && |owner| == s.NextTail()
         && (forall i | 0 <= i < |owner| :: i in s.frontier && owner[i] < |s.threads|)
  }

  function WithThread(s: State, t: nat, th: Thread): State
    requires t < |s.threads|
  {
    s.(threads := s.threads[t := th])
  }

  // The thread is between two barriers and touches nothing but the distances
  // and its own bins.
  predicate Local(pc: Pc) {
    pc.Take? || pc.Edge? || pc.HaveOld? || pc.HaveNew? || pc.Retry? || pc.Push? || pc.Fuse?
  }

  predicate CanStep(g: WGraph, dist: seq<int>, th: Thread)
    requires |dist| == |g|
  {
    match th.pc
    case Take => th.list == [] || th.list[0] < |g|
    case Edge(u, k) => u < |g| && (k < |g[u]| ==> g[u][k].v < |g|)
    case HaveOld(u, k, _) => u < |g| && k < |g[u]|
    case HaveNew(u, k, _, _) => u < |g| && k < |g[u]| && g[u][k].v < |g|
    case Retry(u, k, _) => u < |g| && k < |g[u]| && g[u][k].v < |g|
    case Push(u, k, new') => u < |g| && k < |g[u]| && new' >= 0
    case _ => true
  }

  // One step inside RelaxEdges, the frontier loop or the fusion loop, where c
  // is the current bin and floor the least distance of that bin.
  function Step(g: WGraph, delta: nat, floor: int, c: nat, dist: seq<int>, th: Thread): (seq<int>, Thread)
    requires delta > 0 && |dist| == |g| && Local(th.pc) && CanStep(g, dist, th)
  {
    match th.pc
    case Take =>
      if th.list == [] then (dist, th.(pc := Fuse))
      else
        var u := th.list[0];
        (dist, th.(list := th.list[1..], pc := if th.fused || dist[u] >= floor then Edge(u, 0) else Take))
    case Edge(u, k) => (dist, th.(pc := if k < |g[u]| then HaveOld(u, k, dist[g[u][k].v]) else Take))
    case HaveOld(u, k, old') => (dist, th.(pc := HaveNew(u, k, old', Wrap32(dist[u] + g[u][k].w))))
    case HaveNew(u, k, old', new') =>
      var v := g[u][k].v;
      if new' < old' then
        if dist[v] == old'
        then (dist[v := new'], th.(pc := Push(u, k, new')))
        else (dist, th.(pc := Retry(u, k, new')))
      else (dist, th.(pc := Edge(u, k + 1)))
    case Retry(u, k, new') => (dist, th.(pc := HaveNew(u, k, dist[g[u][k].v], new')))
    case Push(u, k, new') => (dist, th.(pc := Edge(u, k + 1), bins := PushBin(th.bins, new' / delta, g[u][k].v)))
    case Fuse =>
      if c < |th.bins| && th.bins[c] != [] && |th.bins[c]| < BIN_SIZE_THRESHOLD
      then (dist, th.(pc := Take, fused := true, list := th.bins[c], bins := th.bins[c := []]))
      else (dist, th.(pc := Vote))
  }

  // One step of thread t.
  function RunThread(g: WGraph, delta: nat, s: State, t: nat): State
    requires delta > 0 && |s.dist| == |g| && s.TwoBuffers() && CanRun(g, s, t)
  {
    var th := s.threads[t];
    if Local(th.pc) then
      var (dist', th') := Step(g, delta, delta * s.Curr(), s.Curr(), s.dist, th);
      WithThread(s, t, th').(dist := dist')
    else match th.pc
      case Vote => DoVote(s, t)
      case PastBarrier1 => DoReset(s, t)
      case Reserve => DoReserve(s, t)
      case CopyOut(_) => DoCopyOut(s, t)
  }

  // The critical section that lowers the shared index of the next bin.
  function DoVote(s: State, t: nat): State
    requires s.TwoBuffers() && t < |s.threads|
  {
    var b := FirstNonEmpty(s.threads[t].bins, s.Curr());
    var s' := s.(idx := s.idx[s.NextSlot() := if b < s.Next() then b else s.Next()]);
    WithThread(s', t, s.threads[t].(pc := AtBarrier1))
  }

  // The two stores of the single block.
  function Cleared(s: State): State
    requires s.TwoBuffers()
  {
    s.(idx := s.idx[s.CurrSlot() := MAX_BIN], tails := s.tails[s.CurrSlot() := 0])
  }

  // The first thread to come by clears the buffer of the current bin.
  function DoReset(s: State, t: nat): State
    requires s.TwoBuffers() && t < |s.threads|
  {
    var s' := if s.singleTaken then s else Cleared(s.(singleTaken := true));
    WithThread(s', t, s.threads[t].(pc := Reserve))
  }

  // The fetch-and-add that reserves frontier slots for the thread's next bin.
  function DoReserve(s: State, t: nat): State
    requires s.TwoBuffers() && t < |s.threads|
  {
    var th := s.threads[t];
    if s.Next() < |th.bins|
    then
      WithThread(s, t, th.(pc := CopyOut(s.NextTail())))
        .(tails := s.tails[s.NextSlot() := s.NextTail() + |th.bins[s.Next()]|])
    else WithThread(s, t, th.(pc := AtBarrier2))
  }

  // The copy into the reserved slots.
  function DoCopyOut(s: State, t: nat): State
    requires s.TwoBuffers() && t < |s.threads| && s.threads[t].pc.CopyOut? && s.Next() < |s.threads[t].bins|
  {
    var th := s.threads[t];
    WithThread(s, t, th.(pc := AtBarrier2, bins := th.bins[s.Next() := []]))
      .(frontier := Write(s.frontier, th.pc.start, th.bins[s.Next()]))
  }

  // The stores of the single block may land before or after any step that another
  // thread takes between the barriers.
  lemma ResetCommutes(s: State, u: nat)
    requires s.TwoBuffers() && u < |s.threads|
    ensures DoReserve(Cleared(s), u) == Cleared(DoReserve(s, u))
    ensures s.threads[u].pc.CopyOut? && s.Next() < |s.threads[u].bins| ==>
      DoCopyOut(Cleared(s), u) == Cleared(DoCopyOut(s, u))
    ensures s.singleTaken ==> DoReset(Cleared(s), u) == Cleared(DoReset(s, u))
  {
    assert s.CurrSlot() != s.NextSlot();
    var tail := s.NextTail() + if s.Next() < |s.threads[u].bins| then |s.threads[u].bins[s.Next()]| else 0;
    assert s.tails[s.CurrSlot() := 0][s.NextSlot() := tail] == s.tails[s.NextSlot() := tail][s.CurrSlot() := 0];
  }

  // Copies to different slots may be interleaved in any way, entry by entry.
  lemma CopiesCommute(frontier: map<nat, nat>, a: nat, x: seq<nat>, b: nat, y: seq<nat>)
    requires a + |x| <= b || b + |y| <= a
    ensures Write(Write(frontier, a, x), b, y) == Write(Write(frontier, b, y), a, x)
  {
    var one, other := Write(Write(frontier, a, x), b, y), Write(Write(frontier, b, y), a, x);
    forall i ensures i in one <==> i in other {}
    forall i | i in one ensures one[i] == other[i] {}
  }

  lemma CopyInParts(frontier: map<nat, nat>, a: nat, x: seq<nat>, k: nat)
    requires k <= |x|
    ensures Write(frontier, a, x) == Write(Write(frontier, a, x[..k]), a + k, x[k..])
  {
    var one, other := Write(frontier, a, x), Write(Write(frontier, a, x[..k]), a + k, x[k..]);
    forall i ensures i in one <==> i in other {}
    forall i | i in one ensures one[i] == other[i] {}
  }

  // A copy may be interrupted at any entry by another thread's copy.
  lemma CopyMayBeInterrupted(frontier: map<nat, nat>, a: nat, x: seq<nat>, k: nat, b: nat, y: seq<nat>)
    requires k <= |x| && (a + |x| <= b || b + |y| <= a)
    ensures Write(Write(Write(frontier, a, x[..k]), b, y), a + k, x[k..]) == Write(Write(frontier, a, x), b, y)
  {
    hide Write;
    CopyInParts(frontier, a, x, k);
    CopiesCommute(Write(frontier, a, x[..k]), a + k, x[k..], b, y);
  }

  // All threads leave the first barrier.
  function LeaveBarrier1(s: State): State {
    s.(phase := Moving, singleTaken := false, frontier := map[],
       threads := seq(|s.threads|, t requires 0 <= t < |s.threads| => s.threads[t].(pc := PastBarrier1)))
  }

  // All threads leave the second barrier and test the loop condition.
  function LeaveBarrier2(s: State, owner: seq<nat>): State
    requires s.TwoBuffers() && forall i | 0 <= i < |owner| :: i in s.frontier
  {
    var s' := s.(iter := s.iter + 1);
    if s'.Curr() == MAX_BIN
    then
      s'.(phase := Finished,
          threads := seq(|s.threads|, t requires 0 <= t < |s.threads| => s.threads[t].(pc := Exit)))
    else
      s'.(phase := Working,
          threads := seq(|s.threads|, t requires 0 <= t < |s.threads| =>
            s.threads[t].(pc := Take, fused := false, list := Share(s.frontier, owner, t))))
  }

  function Apply(g: WGraph, delta: nat, s: State, m: Move): State
    requires delta > 0 && Enabled(g, s, m)
  {
    match m
    case Run(t) => RunThread(g, delta, s, t)
    case Release1 => LeaveBarrier1(s)
    case Release2(owner) => LeaveBarrier2(s, owner)
  }

  // The state at the top of the loop: `first` takes the only frontier entry.
  function Initial(g: WGraph, source: nat, workers: nat, first: nat): State
    requires source < |g| && first < workers
  {
    State(seq(|g|, v => if v == source then 0 else DIST_INF), map[0 := source], [0, MAX_BIN], [1, 0], 0, false, Working,
          seq(workers, t => Thread(Take, if t == first then [source] else [], false, [])))
  }

  // ---------------------------------------------------------------- invariant

  ghost predicate Reached(dist: seq<int>, list: seq<nat>) {
    forall u | u in list :: u < |dist| && dist[u] < DIST_INF
  }

  // Every frontier slot in use lies below the tail and holds a reached vertex.
  ghost predicate FrontierOk(dist: seq<int>, tail: nat, frontier: map<nat, nat>) {
    forall i | i in frontier :: i < tail && frontier[i] < |dist| && dist[frontier[i]] < DIST_INF
  }

  ghost predicate Above(dist: seq<int>, floor: int, list: seq<nat>) {
    forall u | u in list && u < |dist| :: floor <= dist[u]
  }

  ghost predicate AtEdge(g: WGraph, dist: seq<int>, floor: int, u: nat, k: nat)
    requires |dist| == |g| && Valid(g)
  {
    u < |g| && k < |g[u]| && floor <= dist[u] < DIST_INF && ValidEdge(g, u, k)
  }

  // What a thread inside RelaxEdges may rely on.
  ghost predicate PcOk(g: WGraph, source: nat, dist: seq<int>, floor: int, pc: Pc)
    requires |dist| == |g| && Valid(g)
  {
    match pc
    case Edge(u, k) => u < |g| && k <= |g[u]| && floor <= dist[u] < DIST_INF
    case HaveOld(u, k, old') => AtEdge(g, dist, floor, u, k) && dist[g[u][k].v] <= old' <= DIST_INF
    case HaveNew(u, k, old', new') =>
      AtEdge(g, dist, floor, u, k) && dist[g[u][k].v] <= old' <= DIST_INF && floor <= new'
        && HasWalk(g, source, g[u][k].v, new')
    case Retry(u, k, new') =>
      AtEdge(g, dist, floor, u, k) && floor <= new' && HasWalk(g, source, g[u][k].v, new')
    case Push(u, k, new') =>
      AtEdge(g, dist, floor, u, k) && floor <= new' < DIST_INF && floor <= dist[g[u][k].v] <= new'
    case _ => true
  }

  ghost predicate BinsOk(delta: nat, dist: seq<int>, low: nat, bins: seq<seq<nat>>) {
    && |bins| <= DIST_INF
    && (forall b | 0 <= b < |bins| :: Reached(dist, bins[b]) && (b < low ==> bins[b] == []))
    && (forall b | 0 <= b < |bins| && bins[b] != [] :: delta * b < DIST_INF)
  }

  ghost predicate InWorkingPart(pc: Pc) {
    !pc.PastBarrier1? && !pc.Reserve? && !pc.CopyOut? && !pc.AtBarrier2? && !pc.Exit?
  }

  ghost predicate InMovingPart(pc: Pc) {
    pc.PastBarrier1? || pc.Reserve? || pc.CopyOut? || pc.AtBarrier2?
  }

  // What holds of a thread while the current bin c is being processed.
  ghost predicate WorkerOk(g: WGraph, source: nat, delta: nat, floor: int, dist: seq<int>, c: nat, next: nat,
                           th: Thread)
    requires |dist| == |g| && Valid(g)
  {
    && InWorkingPart(th.pc)
    && PcOk(g, source, dist, floor, th.pc)
    && BinsOk(delta, dist, c, th.bins)
    && Reached(dist, th.list)
    && (th.fused ==> Above(dist, floor, th.list))
    && (c < |th.bins| ==> Above(dist, floor, th.bins[c]))
    && (th.pc.Fuse? || th.pc.Vote? || th.pc.AtBarrier1? ==> th.list == [])
    && (th.pc.AtBarrier1? ==> Voted(th.bins, next))
  }

  // Every entry of the bins lies in bin `next` or later.
  ghost predicate Voted(bins: seq<seq<nat>>, next: nat) {
    forall b | 0 <= b < |bins| && bins[b] != [] :: next <= b
  }

  // What holds of a thread while the bin `next` is moved to the frontier.
  ghost predicate MoverOk(delta: nat, dist: seq<int>, next: nat, tail: nat, frontier: map<nat, nat>, th: Thread) {
    && InMovingPart(th.pc)
    && BinsOk(delta, dist, 0, th.bins)
    && Voted(th.bins, next)
    && th.list == []
    && (th.pc.CopyOut? ==>
        && next < |th.bins|
        && th.pc.start + |th.bins[next]| <= tail
        && forall i | th.pc.start <= i < th.pc.start + |th.bins[next]| :: i !in frontier)
    && (th.pc.AtBarrier2? && next < |th.bins| ==> th.bins[next] == [])
  }

  // Slot i has been reserved by the thread and not been written yet.
  ghost predicate Reserving(th: Thread, next: nat, i: nat) {
    th.pc.CopyOut? && next < |th.bins| && th.pc.start <= i < th.pc.start + |th.bins[next]|
  }

  // The bins hold u early enough for it to pass the filter with distance d.
  ghost predicate InBin(delta: nat, bins: seq<seq<nat>>, u: nat, d: int) {
    exists b :: 0 <= b < |bins| && u in bins[b] && delta * b <= d
  }

  // The thread will still look at the edges of u that can be relaxed.
  ghost predicate Covers(g: WGraph, delta: nat, floor: int, dist: seq<int>, th: Thread, u: nat)
    requires |dist| == |g| && Valid(g) && u < |g| && delta > 0
  {
    || InBin(delta, th.bins, u, dist[u])
    || (u in th.list && floor <= dist[u])
    || match th.pc
       case Edge(x, k) => x == u && SettledUpTo(g, dist, u, k)
       case HaveOld(x, k, _) => x == u && SettledUpTo(g, dist, u, k)
       case HaveNew(x, k, _, new') =>
         x == u && SettledUpTo(g, dist, u, k) && k < |g[u]| && new' == dist[u] + g[u][k].w
       case Retry(x, k, new') =>
         x == u && SettledUpTo(g, dist, u, k) && k < |g[u]| && new' == dist[u] + g[u][k].w
       case Push(x, k, new') =>
         || (x == u && SettledUpTo(g, dist, u, k + 1))
         || (x < |g| && k < |g[x]| && g[x][k].v == u && new' == dist[u])
       case _ => false
  }

  // The frontier being filled holds u, in the bin of its distance or an earlier one.
  ghost predicate Waiting(s: State, delta: nat, u: nat)
    requires s.TwoBuffers() && u < |s.dist|
  {
    s.phase == Moving && delta * s.Next() <= s.dist[u] &&
    exists i :: i in s.frontier && i < s.NextTail() && s.frontier[i] == u
  }

  ghost predicate SomeoneCovers(g: WGraph, delta: nat, s: State, u: nat)
    requires |s.dist| == |g| && Valid(g) && u < |g| && delta > 0 && s.TwoBuffers()
  {
    exists t :: 0 <= t < |s.threads| && Covers(g, delta, delta * s.Curr(), s.dist, s.threads[t], u)
  }

  // No work is ever lost: the tail of an edge that can still be relaxed is
  // pending in a bin or in the frontier, or is in some thread's hands.
  ghost predicate NothingLost(g: WGraph, delta: nat, s: State)
    requires |s.dist| == |g| && Valid(g) && delta > 0 && s.TwoBuffers()
  {
    forall u: nat | u < |g| :: Settled(g, s.dist, u) || SomeoneCovers(g, delta, s, u) || Waiting(s, delta, u)
  }

  ghost predicate WorkingOk(g: WGraph, source: nat, delta: nat, s: State)
    requires |s.dist| == |g| && Valid(g) && s.TwoBuffers()
  {
    && s.Curr() < MAX_BIN
    && delta * s.Curr() < DIST_INF
    && s.NextTail() == 0
    && s.Curr() <= s.Next()
    && (forall t | 0 <= t < |s.threads| ::
        WorkerOk(g, source, delta, delta * s.Curr(), s.dist, s.Curr(), s.Next(), s.threads[t]))
    && (s.Next() == MAX_BIN ||
        exists t :: 0 <= t < |s.threads| && s.threads[t].pc.AtBarrier1? && HasBin(s.threads[t].bins, s.Next()))
  }

  ghost predicate HasBin(bins: seq<seq<nat>>, b: nat) {
    b < |bins| && bins[b] != []
  }

  ghost predicate MovingOk(delta: nat, s: State)
    requires s.TwoBuffers()
  {
    && (forall t | 0 <= t < |s.threads| :: MoverOk(delta, s.dist, s.Next(), s.NextTail(), s.frontier, s.threads[t]))
    && (s.Next() == MAX_BIN || delta * s.Next() < DIST_INF)
    && FrontierOk(s.dist, s.NextTail(), s.frontier)
    && (forall i: nat | i < s.NextTail() :: i in s.frontier || exists t ::
        0 <= t < |s.threads| && Reserving(s.threads[t], s.Next(), i))
    && (forall t, t', i | 0 <= t < t' < |s.threads| && Reserving(s.threads[t], s.Next(), i) ::
        !Reserving(s.threads[t'], s.Next(), i))
    && (forall t | 0 <= t < |s.threads| && !s.threads[t].pc.PastBarrier1? :: s.singleTaken)
    && (s.singleTaken ==> s.idx[s.CurrSlot()] == MAX_BIN && s.tails[s.CurrSlot()] == 0)
    && (s.Next() != MAX_BIN && s.NextTail() == 0 ==>
        exists t :: 0 <= t < |s.threads| && HasBin(s.threads[t].bins, s.Next()) && (s.threads[t].pc.PastBarrier1?
          || s.threads[t].pc.Reserve?))
  }

  ghost predicate Inv(g: WGraph, source: nat, delta: nat, s: State) {
    && delta > 0
    && Valid(g)
    && s.TwoBuffers()
    && |s.threads| > 0
    && Sound(g, source, s.dist)
    && NothingLost(g, delta, s)
    && match s.phase
       case Working => WorkingOk(g, source, delta, s)
       case Moving => MovingOk(delta, s)
       case Finished => forall t | 0 <= t < |s.threads| ::
         s.threads[t].pc.Exit? && s.threads[t].list == [] && Voted(s.threads[t].bins, MAX_BIN)
           && |s.threads[t].bins| <= DIST_INF
  }

  // ------------------------------------------------------- every step keeps it

  // Distances only fall, and never below the current bin.
  ghost predicate Lowered(dist: seq<int>, dist': seq<int>, floor: int) {
    && |dist'| == |dist|
    && forall u | 0 <= u < |dist| :: dist'[u] <= dist[u] && (floor <= dist[u] ==> floor <= dist'[u])
  }

  lemma SettledMonotone(g: WGraph, dist: seq<int>, dist': seq<int>, u: nat, k: nat)
    requires Valid(g) && |dist| == |dist'| == |g| && u < |g|
    requires forall x | 0 <= x < |g| :: dist'[x] <= dist[x]
    requires dist'[u] == dist[u] && SettledUpTo(g, dist, u, k)
    ensures SettledUpTo(g, dist', u, k)
  {
    forall j: nat | j < k && j < |g[u]| ensures EdgeSettled(g, dist', u, j) {
      assert ValidEdge(g, u, j) && EdgeSettled(g, dist, u, j);
    }
  }

  lemma CoversMonotone(g: WGraph, delta: nat, floor: int, dist: seq<int>, dist': seq<int>, th: Thread, u: nat)
    requires Valid(g) && |dist| == |dist'| == |g| && u < |g| && delta > 0
    requires forall x | 0 <= x < |g| :: dist'[x] <= dist[x]
    requires dist'[u] == dist[u] && Covers(g, delta, floor, dist, th, u)
    ensures Covers(g, delta, floor, dist', th, u)
  {
    forall k: nat | SettledUpTo(g, dist, u, k) ensures SettledUpTo(g, dist', u, k) {
      SettledMonotone(g, dist, dist', u, k);
    }
  }

  lemma WorkerMonotone(g: WGraph, source: nat, delta: nat, floor: int, dist: seq<int>, dist': seq<int>, c: nat,
                       next: nat, th: Thread)
    requires Valid(g) && |dist| == |g| && Lowered(dist, dist', floor)
    requires WorkerOk(g, source, delta, floor, dist, c, next, th)
    ensures WorkerOk(g, source, delta, floor, dist', c, next, th)
  {
  }

  // The thread that moved answers for every vertex it answered for before,
  // and for the vertex whose distance it lowered.
  ghost predicate KeepsCover(g: WGraph, delta: nat, floor: int, dist: seq<int>, th: Thread, dist': seq<int>,
                             th': Thread)
    requires |dist| == |dist'| == |g| && Valid(g) && delta > 0
  {
    forall u: nat | u < |g| ::
      && (dist'[u] == dist[u] && Covers(g, delta, floor, dist, th, u) ==>
          Covers(g, delta, floor, dist', th', u) || Settled(g, dist', u))
      && (dist'[u] != dist[u] ==> Covers(g, delta, floor, dist', th', u))
  }

  lemma CoverAfterStep(g: WGraph, delta: nat, s: State, t: nat, s': State)
    requires |s.dist| == |s'.dist| == |g| && Valid(g) && delta > 0 && s.TwoBuffers() && s'.TwoBuffers()
    requires s.phase == s'.phase == Working && s'.Curr() == s.Curr()
    requires t < |s.threads| == |s'.threads| && s'.threads == s.threads[t := s'.threads[t]]
    requires forall x | 0 <= x < |g| :: s'.dist[x] <= s.dist[x]
    requires KeepsCover(g, delta, delta * s.Curr(), s.dist, s.threads[t], s'.dist, s'.threads[t])
    requires NothingLost(g, delta, s)
    ensures NothingLost(g, delta, s')
  {
    var floor := delta * s.Curr();
    forall u: nat | u < |g| ensures Settled(g, s'.dist, u) || SomeoneCovers(g, delta, s', u) {
      if s'.dist[u] != s.dist[u] {
        assert Covers(g, delta, floor, s'.dist, s'.threads[t], u);
      } else if Settled(g, s.dist, u) {
        SettledMonotone(g, s.dist, s'.dist, u, |g[u]|);
      } else {
        assert SomeoneCovers(g, delta, s, u);
        var x :| 0 <= x < |s.threads| && Covers(g, delta, floor, s.dist, s.threads[x], u);
        if x != t {
          CoversMonotone(g, delta, floor, s.dist, s'.dist, s.threads[x], u);
          assert s'.threads[x] == s.threads[x];
        }
      }
    }
  }

  // A step of thread t inside the working part that leaves the vote alone.
  lemma WorkingStep(g: WGraph, source: nat, delta: nat, s: State, t: nat, s': State)
    requires Inv(g, source, delta, s) && s.phase == Working && t < |s.threads|
    requires s' == s.(dist := s'.dist, threads := s'.threads)
    requires |s'.threads| == |s.threads| && s'.threads == s.threads[t := s'.threads[t]]
    requires !s.threads[t].pc.AtBarrier1?
    requires Sound(g, source, s'.dist) && Lowered(s.dist, s'.dist, delta * s.Curr())
    requires WorkerOk(g, source, delta, delta * s.Curr(), s'.dist, s.Curr(), s.Next(), s'.threads[t])
    requires KeepsCover(g, delta, delta * s.Curr(), s.dist, s.threads[t], s'.dist, s'.threads[t])
    ensures Inv(g, source, delta, s')
  {
    hide WorkerOk, Covers, HasWalk, Valid, SettledUpTo, KeepsCover;
    CoverAfterStep(g, delta, s, t, s');
    forall x | 0 <= x < |s'.threads| ensures WorkerOk(g, source, delta, delta * s.Curr(), s'.dist, s'.Curr(),
                                                      s'.Next(), s'.threads[x]) {
      if x != t {
        assert s'.threads[x] == s.threads[x];
        WorkerMonotone(g, source, delta, delta * s.Curr(), s.dist, s'.dist, s.Curr(), s.Next(), s.threads[x]);
      }
    }
    if s.Next() != MAX_BIN {
      var x :| 0 <= x < |s.threads| && s.threads[x].pc.AtBarrier1? && HasBin(s.threads[x].bins, s.Next());
      assert s'.threads[x] == s.threads[x];
    }
  }

  // The step of one thread keeps what it owes and what it may rely on.
  ghost predicate GoodStep(g: WGraph, source: nat, delta: nat, floor: int, c: nat, next: nat, dist: seq<int>,
                           th: Thread)
    requires delta > 0 && Valid(g) && |dist| == |g| && Local(th.pc) && CanStep(g, dist, th)
  {
    var (dist', th') := Step(g, delta, floor, c, dist, th);
    && Sound(g, source, dist')
    && Lowered(dist, dist', floor)
    && WorkerOk(g, source, delta, floor, dist', c, next, th')
    && KeepsCover(g, delta, floor, dist, th, dist', th')
  }

  ghost predicate Before(g: WGraph, source: nat, delta: nat, floor: int, c: nat, next: nat, dist: seq<int>,
                         th: Thread)
  {
    && delta > 0 && floor == delta * c && Valid(g) && Sound(g, source, dist)
    && WorkerOk(g, source, delta, floor, dist, c, next, th)
    && Local(th.pc)
  }

  lemma StepTake(g: WGraph, source: nat, delta: nat, floor: int, c: nat, next: nat, dist: seq<int>, th: Thread)
    requires Before(g, source, delta, floor, c, next, dist, th) && th.pc.Take?
    ensures CanStep(g, dist, th) && GoodStep(g, source, delta, floor, c, next, dist, th)
  {
    hide HasWalk, EdgeSettled;
    if th.list != [] {
      assert th.list[0] in th.list;
      assert forall u | u in th.list :: u == th.list[0] || u in th.list[1..];
      assert forall u | u in th.list[1..] :: u in th.list;
    }
  }

  lemma StepEdge(g: WGraph, source: nat, delta: nat, floor: int, c: nat, next: nat, dist: seq<int>, th: Thread)
    requires Before(g, source, delta, floor, c, next, dist, th) && th.pc.Edge?
    ensures CanStep(g, dist, th) && GoodStep(g, source, delta, floor, c, next, dist, th)
  {
    if th.pc.k < |g[th.pc.u]| { assert ValidEdge(g, th.pc.u, th.pc.k); }
  }

  lemma StepHaveOld(g: WGraph, source: nat, delta: nat, floor: int, c: nat, next: nat, dist: seq<int>, th: Thread)
    requires Before(g, source, delta, floor, c, next, dist, th) && th.pc.HaveOld?
    ensures CanStep(g, dist, th) && GoodStep(g, source, delta, floor, c, next, dist, th)
    ensures Wrap32(dist[th.pc.u] + g[th.pc.u][th.pc.k].w) == dist[th.pc.u] + g[th.pc.u][th.pc.k].w
  {
    hide HasWalk, BinsOk, Reached, Above, SettledUpTo, Voted;
    var HaveOld(u, k, old') := th.pc;
    assert AtEdge(g, dist, floor, u, k) && ValidEdge(g, u, k);
    ExtendWalk(g, source, u, k, dist[u]);
  }

  lemma StepRetry(g: WGraph, source: nat, delta: nat, floor: int, c: nat, next: nat, dist: seq<int>, th: Thread)
    requires Before(g, source, delta, floor, c, next, dist, th) && th.pc.Retry?
    ensures CanStep(g, dist, th) && GoodStep(g, source, delta, floor, c, next, dist, th)
  {
  }

  lemma NextEdgeSettled(g: WGraph, dist: seq<int>, u: nat, k: nat)
    requires Valid(g) && |dist| == |g| && u < |g| && k < |g[u]| && ValidEdge(g, u, k)
    requires SettledUpTo(g, dist, u, k) && dist[g[u][k].v] <= dist[u] + g[u][k].w
    ensures SettledUpTo(g, dist, u, k + 1)
  {
    forall j: nat | j < k + 1 && j < |g[u]| ensures EdgeSettled(g, dist, u, j) {
      if j < k { assert EdgeSettled(g, dist, u, j); }
    }
  }

  // The compare-and-swap keeps the distances sound.
  lemma LowerKeepsSound(g: WGraph, source: nat, dist: seq<int>, floor: int, v: nat, d: int)
    requires Valid(g) && Sound(g, source, dist) && v < |g| && 0 <= floor <= d < dist[v] && HasWalk(g, source, v, d)
    ensures Sound(g, source, dist[v := d]) && Lowered(dist, dist[v := d], floor)
  {
  }

  lemma HaveNewCover(g: WGraph, dist: seq<int>, delta: nat, floor: int, c: nat, th: Thread, x: nat)
    requires Valid(g) && delta > 0 && |dist| == |g| && th.pc.HaveNew? && CanStep(g, dist, th) && x < |g|
    requires ValidEdge(g, th.pc.u, th.pc.k) && dist[g[th.pc.u][th.pc.k].v] <= th.pc.oldDist
    requires Covers(g, delta, floor, dist, th, x)
    ensures var (dist', th') := Step(g, delta, floor, c, dist, th); dist'[x] == dist[x] ==>
      Covers(g, delta, floor, dist', th', x)
  {
    var HaveNew(u, k, old', new') := th.pc;
    var v := g[u][k].v;
    var (dist', th') := Step(g, delta, floor, c, dist, th);
    if x == u && dist'[x] == dist[x] && SettledUpTo(g, dist, u, k) && new' == dist[u] + g[u][k].w {
      SettledMonotone(g, dist, dist', u, k);
      if dist'[v] <= new' { NextEdgeSettled(g, dist', u, k); }
    }
  }

  lemma HaveNewKeepsCover(g: WGraph, delta: nat, floor: int, c: nat, dist: seq<int>, th: Thread)
    requires Valid(g) && delta > 0 && |dist| == |g| && th.pc.HaveNew? && CanStep(g, dist, th)
    requires dist[g[th.pc.u][th.pc.k].v] <= th.pc.oldDist
    ensures var (dist', th') := Step(g, delta, floor, c, dist, th); KeepsCover(g, delta, floor, dist, th, dist', th')
  {
    hide SettledUpTo, InBin;
    assert ValidEdge(g, th.pc.u, th.pc.k);
    var (dist', th') := Step(g, delta, floor, c, dist, th);
    forall x: nat | x < |g| && Covers(g, delta, floor, dist, th, x)
      ensures dist'[x] == dist[x] ==> Covers(g, delta, floor, dist', th', x)
    {
      HaveNewCover(g, dist, delta, floor, c, th, x);
    }
  }

  lemma StepHaveNew(g: WGraph, source: nat, delta: nat, floor: int, c: nat, next: nat, dist: seq<int>, th: Thread)
    requires Before(g, source, delta, floor, c, next, dist, th) && th.pc.HaveNew?
    ensures CanStep(g, dist, th) && GoodStep(g, source, delta, floor, c, next, dist, th)
  {
    hide KeepsCover, Covers, HasWalk, BinsOk, Reached, Above;
    var HaveNew(u, k, old', new') := th.pc;
    var v := g[u][k].v;
    assert ValidEdge(g, u, k);
    HaveNewKeepsCover(g, delta, floor, c, dist, th);
    var (dist', th') := Step(g, delta, floor, c, dist, th);
    if new' < old' && dist[v] == old' {
      LowerKeepsSound(g, source, dist, floor, v, new');
      WorkerMonotone(g, source, delta, floor, dist, dist', c, next, th.(pc := Take));
    }
  }

  lemma PushBinOk(delta: nat, dist: seq<int>, low: nat, bins: seq<seq<nat>>, b: nat, v: nat)
    requires low <= b < DIST_INF && delta * b < DIST_INF && BinsOk(delta, dist, low, bins) && v < |dist|
      && dist[v] < DIST_INF
    ensures var bins' := PushBin(bins, b, v);
      && b < |bins'|
      && BinsOk(delta, dist, low, bins')
      && v in bins'[b]
      && (forall i, u | 0 <= i < |bins| && u in bins[i] :: i < |bins'| && u in bins'[i])
      && (forall i, u | 0 <= i < |bins'| && u in bins'[i] :: (i == b && u == v) || (i < |bins| && u in bins[i]))
  {
  }

  lemma DivBounds(x: int, d: int, low: int)
    requires d > 0 && 0 <= x && d * low <= x
    ensures low <= x / d <= x && d * (x / d) <= x
  {
    var q, r := x / d, x % d;
    assert x == d * q + r;
    if q < low { MulMonotone(d, q + 1, low); }
    if q > x { MulMonotone(1, d, d); MulMonotone(q, 1, d); }
  }

  lemma MulMonotone(d: int, a: int, b: int)
    requires 0 <= d && a <= b
    ensures d * a <= d * b
  {
  }

  lemma PushKeepsInBin(delta: nat, bins: seq<seq<nat>>, b: nat, v: nat, x: nat, d: int)
    requires InBin(delta, bins, x, d)
    ensures InBin(delta, PushBin(bins, b, v), x, d)
  {
    var i :| 0 <= i < |bins| && x in bins[i] && delta * i <= d;
    assert x in PushBin(bins, b, v)[i];
  }

  lemma PushedIsInBin(delta: nat, bins: seq<seq<nat>>, b: nat, v: nat, d: int)
    requires delta * b <= d
    ensures InBin(delta, PushBin(bins, b, v), v, d)
  {
    assert v in PushBin(bins, b, v)[b];
  }

  lemma PushCover(g: WGraph, delta: nat, floor: int, c: nat, dist: seq<int>, th: Thread, x: nat)
    requires Valid(g) && delta > 0 && |dist| == |g| && th.pc.Push? && CanStep(g, dist, th) && x < |g|
    requires Covers(g, delta, floor, dist, th, x)
    ensures Covers(g, delta, floor, dist, Step(g, delta, floor, c, dist, th).1, x)
  {
    var Push(u, k, new') := th.pc;
    DivBounds(new', delta, 0);
    if InBin(delta, th.bins, x, dist[x]) {
      PushKeepsInBin(delta, th.bins, new' / delta, g[u][k].v, x, dist[x]);
    } else if g[u][k].v == x && new' == dist[x] {
      PushedIsInBin(delta, th.bins, new' / delta, x, new');
    }
  }

  lemma StepPush(g: WGraph, source: nat, delta: nat, floor: int, c: nat, next: nat, dist: seq<int>, th: Thread)
    requires Before(g, source, delta, floor, c, next, dist, th) && th.pc.Push?
    ensures CanStep(g, dist, th) && GoodStep(g, source, delta, floor, c, next, dist, th)
  {
    var Push(u, k, new') := th.pc;
    var b, v := new' / delta, g[u][k].v;
    DivBounds(new', delta, c);
    PushBinOk(delta, dist, c, th.bins, b, v);
    var th' := Step(g, delta, floor, c, dist, th).1;
    forall x: nat | x < |g| && Covers(g, delta, floor, dist, th, x)
      ensures Covers(g, delta, floor, dist, th', x)
    {
      PushCover(g, delta, floor, c, dist, th, x);
    }
    PushAbove(dist, floor, c, th.bins, b, v, delta);
  }

  // What is pushed into the current bin belongs there.
  lemma PushAbove(dist: seq<int>, floor: int, c: nat, bins: seq<seq<nat>>, b: nat, v: nat, delta: nat)
    requires BinsOk(delta, dist, c, bins) && v < |dist| && dist[v] < DIST_INF && c <= b < DIST_INF
      && delta * b < DIST_INF
    requires c < |bins| ==> Above(dist, floor, bins[c])
    requires floor <= dist[v]
    ensures c < |PushBin(bins, b, v)| ==> Above(dist, floor, PushBin(bins, b, v)[c])
  {
    PushBinOk(delta, dist, c, bins, b, v);
  }

  lemma StepFuse(g: WGraph, source: nat, delta: nat, floor: int, c: nat, next: nat, dist: seq<int>, th: Thread)
    requires Before(g, source, delta, floor, c, next, dist, th) && th.pc.Fuse?
    ensures CanStep(g, dist, th) && GoodStep(g, source, delta, floor, c, next, dist, th)
  {
    var th' := Step(g, delta, floor, c, dist, th).1;
    forall x: nat | x < |g| && InBin(delta, th.bins, x, dist[x])
      ensures Covers(g, delta, floor, dist, th', x)
    {
      var b :| 0 <= b < |th.bins| && x in th.bins[b] && delta * b <= dist[x];
      assert b == c || b >= |th'.bins| || x in th'.bins[b];
    }
  }

  lemma LocalStep(g: WGraph, source: nat, delta: nat, s: State, t: nat)
    requires Inv(g, source, delta, s) && s.phase == Working && t < |s.threads| && Local(s.threads[t].pc)
    ensures CanRun(g, s, t) && Inv(g, source, delta, RunThread(g, delta, s, t))
  {
    hide WorkerOk, Covers, SettledUpTo, HasWalk, Valid, NothingLost, KeepsCover;
    var th, floor, c, next := s.threads[t], delta * s.Curr(), s.Curr(), s.Next();
    assert WorkerOk(g, source, delta, floor, s.dist, c, next, th);
    match th.pc {
      case Take => StepTake(g, source, delta, floor, c, next, s.dist, th);
      case Edge(_, _) => StepEdge(g, source, delta, floor, c, next, s.dist, th);
      case HaveOld(_, _, _) => StepHaveOld(g, source, delta, floor, c, next, s.dist, th);
      case HaveNew(_, _, _, _) => StepHaveNew(g, source, delta, floor, c, next, s.dist, th);
      case Retry(_, _, _) => StepRetry(g, source, delta, floor, c, next, s.dist, th);
      case Push(_, _, _) => StepPush(g, source, delta, floor, c, next, s.dist, th);
      case Fuse => StepFuse(g, source, delta, floor, c, next, s.dist, th);
    }
    WorkingStep(g, source, delta, s, t, RunThread(g, delta, s, t));
  }

  // The thread has put in its vote, which is no later than its first entry.
  lemma VoterOk(g: WGraph, source: nat, delta: nat, floor: int, dist: seq<int>, c: nat, next: nat, th: Thread)
    requires |dist| == |g| && Valid(g) && WorkerOk(g, source, delta, floor, dist, c, next, th) && th.pc.Vote?
    ensures var b := FirstNonEmpty(th.bins, c);
      && WorkerOk(g, source, delta, floor, dist, c, if b < next then b else next, th.(pc := AtBarrier1))
      && (b != MAX_BIN ==> HasBin(th.bins, b) && c <= b)
  {
    hide HasWalk, Reached;
  }

  // A lower vote changes nothing for the others.
  lemma VoteKeepsOthers(g: WGraph, source: nat, delta: nat, floor: int, dist: seq<int>, c: nat, next: nat, next': nat,
                        th: Thread)
    requires |dist| == |g| && Valid(g) && WorkerOk(g, source, delta, floor, dist, c, next, th) && next' <= next
    ensures WorkerOk(g, source, delta, floor, dist, c, next', th)
  {
    hide PcOk, BinsOk, Reached, Above;
  }

  lemma VoteKeepsCover(g: WGraph, delta: nat, floor: int, dist: seq<int>, th: Thread)
    requires |dist| == |g| && Valid(g) && delta > 0 && th.pc.Vote?
    ensures KeepsCover(g, delta, floor, dist, th, dist, th.(pc := AtBarrier1))
  {
  }

  lemma VoteStep(g: WGraph, source: nat, delta: nat, s: State, t: nat)
    requires Inv(g, source, delta, s) && s.phase == Working && t < |s.threads| && s.threads[t].pc.Vote?
    ensures Inv(g, source, delta, DoVote(s, t))
  {
    hide WorkerOk, KeepsCover, Covers, HasWalk, Valid, SettledUpTo, HasBin, NothingLost;
    var s' := DoVote(s, t);
    var th, floor := s.threads[t], delta * s.Curr();
    var b := FirstNonEmpty(th.bins, s.Curr());
    assert WorkerOk(g, source, delta, floor, s.dist, s.Curr(), s.Next(), th);
    VoterOk(g, source, delta, floor, s.dist, s.Curr(), s.Next(), th);
    assert s'.Curr() == s.Curr() && s'.Next() == if b < s.Next() then b else s.Next();
    forall x | 0 <= x < |s'.threads|
      ensures WorkerOk(g, source, delta, floor, s'.dist, s'.Curr(), s'.Next(), s'.threads[x])
    {
      if x != t { VoteKeepsOthers(g, source, delta, floor, s.dist, s.Curr(), s.Next(), s'.Next(), s.threads[x]); }
    }
    VoteKeepsCover(g, delta, floor, s.dist, th);
    CoverAfterStep(g, delta, s, t, s');
    if s'.Next() != MAX_BIN {
      if b < s.Next() {
        assert s'.threads[t].pc.AtBarrier1? && HasBin(s'.threads[t].bins, s'.Next());
      } else {
        var x :| 0 <= x < |s.threads| && s.threads[x].pc.AtBarrier1? && HasBin(s.threads[x].bins, s.Next());
        assert s'.threads[x] == s.threads[x];
      }
    }
  }

  lemma Release1Cover(g: WGraph, source: nat, delta: nat, s: State, u: nat)
    requires Inv(g, source, delta, s) && Enabled(g, s, Release1) && s.phase == Working && u < |g|
    ensures Settled(g, s.dist, u) || SomeoneCovers(g, delta, LeaveBarrier1(s), u)
  {
    if !Settled(g, s.dist, u) {
      var s' := LeaveBarrier1(s);
      var t :| 0 <= t < |s.threads| && Covers(g, delta, delta * s.Curr(), s.dist, s.threads[t], u);
      assert WorkerOk(g, source, delta, delta * s.Curr(), s.dist, s.Curr(), s.Next(), s.threads[t]);
      assert InBin(delta, s'.threads[t].bins, u, s.dist[u]);
      assert Covers(g, delta, delta * s'.Curr(), s'.dist, s'.threads[t], u);
    }
  }

  lemma Release1Mover(g: WGraph, source: nat, delta: nat, s: State, t: nat)
    requires Inv(g, source, delta, s) && Enabled(g, s, Release1) && t < |s.threads|
    ensures var s' := LeaveBarrier1(s); MoverOk(delta, s'.dist, s'.Next(), s'.NextTail(), s'.frontier, s'.threads[t])
  {
    hide PcOk, HasWalk, Valid, Reached, Above, NothingLost, Sound;
    assert s.threads[0].pc.AtBarrier1? && s.threads[t].pc.AtBarrier1?;
    assert s.phase == Working;
    assert WorkerOk(g, source, delta, delta * s.Curr(), s.dist, s.Curr(), s.Next(), s.threads[t]);
  }

  lemma Release1Step(g: WGraph, source: nat, delta: nat, s: State)
    requires Inv(g, source, delta, s) && Enabled(g, s, Release1)
    ensures s.phase == Working && Inv(g, source, delta, LeaveBarrier1(s))
  {
    hide PcOk, Covers, SettledUpTo, HasWalk, Valid, Reached, Above;
    assert s.threads[0].pc.AtBarrier1?;
    assert s.phase == Working;
    var s' := LeaveBarrier1(s);
    assert s'.Next() == s.Next() && s'.NextTail() == 0;
    forall t | 0 <= t < |s.threads|
      ensures MoverOk(delta, s'.dist, s'.Next(), s'.NextTail(), s'.frontier, s'.threads[t])
    {
      Release1Mover(g, source, delta, s, t);
    }
    forall u: nat | u < |g| ensures Settled(g, s'.dist, u) || SomeoneCovers(g, delta, s', u) {
      Release1Cover(g, source, delta, s, u);
    }
    if s'.Next() != MAX_BIN {
      var t :| 0 <= t < |s.threads| && s.threads[t].pc.AtBarrier1? && HasBin(s.threads[t].bins, s.Next());
      assert HasBin(s'.threads[t].bins, s'.Next()) && s'.threads[t].pc.PastBarrier1?;
      assert WorkerOk(g, source, delta, delta * s.Curr(), s.dist, s.Curr(), s.Next(), s.threads[t]);
    }
  }

  // Whoever answered for a vertex while the next bin is moved still does, as
  // long as no bin loses an entry.
  lemma CoverAfterMove(g: WGraph, source: nat, delta: nat, s: State, t: nat, s': State)
    requires Inv(g, source, delta, s)
    requires s.phase == Moving && s'.phase == Moving && t < |s.threads|
    requires |s'.threads| == |s.threads| && s'.threads == s.threads[t := s'.threads[t]]
    requires s'.dist == s.dist && s'.TwoBuffers() && s'.Next() == s.Next() && s'.NextTail() >= s.NextTail()
    requires s'.frontier == s.frontier && s'.threads[t].bins == s.threads[t].bins
    ensures NothingLost(g, delta, s')
  {
    hide MoverOk, Covers, HasWalk, Valid, SettledUpTo, InBin;
    forall u: nat | u < |g|
      ensures Settled(g, s'.dist, u) || SomeoneCovers(g, delta, s', u) || Waiting(s', delta, u)
    {
      if SomeoneCovers(g, delta, s, u) {
        var x :| 0 <= x < |s.threads| && Covers(g, delta, delta * s.Curr(), s.dist, s.threads[x], u);
        assert MoverOk(delta, s.dist, s.Next(), s.NextTail(), s.frontier, s.threads[x]);
        MoverCovers(g, delta, delta * s.Curr(), s, s.threads[x], u);
        assert s'.threads[x].bins == s.threads[x].bins;
        BinCovers(g, delta, delta * s'.Curr(), s'.dist, s'.threads[x], u);
      }
    }
  }

  // Whoever holds u early enough in a bin covers it.
  lemma BinCovers(g: WGraph, delta: nat, floor: int, dist: seq<int>, th: Thread, u: nat)
    requires |dist| == |g| && Valid(g) && u < |g| && delta > 0 && InBin(delta, th.bins, u, dist[u])
    ensures Covers(g, delta, floor, dist, th, u)
  {
  }

  // On its way to the reservation a thread holds the same.
  lemma ResetMover(delta: nat, dist: seq<int>, next: nat, tail: nat, frontier: map<nat, nat>, th: Thread)
    requires MoverOk(delta, dist, next, tail, frontier, th) && th.pc.PastBarrier1?
    ensures MoverOk(delta, dist, next, tail, frontier, th.(pc := Reserve))
  {
  }

  lemma ResetStep(g: WGraph, source: nat, delta: nat, s: State, t: nat)
    requires Inv(g, source, delta, s) && s.phase == Moving && t < |s.threads| && s.threads[t].pc.PastBarrier1?
    ensures Inv(g, source, delta, DoReset(s, t))
  {
    hide MoverOk, HasWalk, Valid, SettledUpTo, Covers, HasBin, NothingLost;
    var s' := DoReset(s, t);
    assert s'.Next() == s.Next() && s'.NextTail() == s.NextTail() && s'.singleTaken;
    CoverAfterMove(g, source, delta, s, t, s');
    forall x | 0 <= x < |s'.threads|
      ensures MoverOk(delta, s'.dist, s'.Next(), s'.NextTail(), s'.frontier, s'.threads[x])
    {
      assert MoverOk(delta, s.dist, s.Next(), s.NextTail(), s.frontier, s.threads[x]);
      if x == t { ResetMover(delta, s.dist, s.Next(), s.NextTail(), s.frontier, s.threads[t]); }
    }
    forall i: nat | i < s'.NextTail()
      ensures i in s'.frontier || exists x :: 0 <= x < |s'.threads| && Reserving(s'.threads[x], s'.Next(), i)
    {
      if i !in s.frontier {
        var x :| 0 <= x < |s.threads| && Reserving(s.threads[x], s.Next(), i);
        assert Reserving(s'.threads[x], s'.Next(), i);
      }
    }
    if s'.Next() != MAX_BIN && s'.NextTail() == 0 {
      var x :| 0 <= x < |s.threads| && HasBin(s.threads[x].bins, s.Next())
        && (s.threads[x].pc.PastBarrier1? || s.threads[x].pc.Reserve?);
      assert HasBin(s'.threads[x].bins, s'.Next());
    }
  }

  lemma ReserveSlots(g: WGraph, source: nat, delta: nat, s: State, t: nat)
    requires Inv(g, source, delta, s) && s.phase == Moving && t < |s.threads| && s.threads[t].pc.Reserve?
    ensures var s' := DoReserve(s, t);
      && (forall i: nat | i < s'.NextTail() :: i in s'.frontier || exists x ::
          0 <= x < |s'.threads| && Reserving(s'.threads[x], s'.Next(), i))
      && (forall x, y, i | 0 <= x < y < |s'.threads| && Reserving(s'.threads[x], s'.Next(), i) ::
          !Reserving(s'.threads[y], s'.Next(), i))
  {
    hide Valid, Sound, NothingLost, MovingOk;
    ReserveKeepsNext(g, source, delta, s, t);
    var next, s' := s.Next(), DoReserve(s, t);
    forall i: nat | i < s'.NextTail()
      ensures i in s'.frontier || exists x :: 0 <= x < |s'.threads| && Reserving(s'.threads[x], next, i)
    {
      ReservedOrWritten(g, source, delta, s, t, i);
    }
    forall x, y, i | 0 <= x < y < |s'.threads| && Reserving(s'.threads[x], next, i)
      ensures !Reserving(s'.threads[y], next, i)
    {
      ReservedApart(g, source, delta, s, t, x, y, i);
    }
  }

  lemma ReserveKeepsNext(g: WGraph, source: nat, delta: nat, s: State, t: nat)
    requires Inv(g, source, delta, s) && s.phase == Moving && t < |s.threads| && s.threads[t].pc.Reserve?
    ensures s.TwoBuffers() && s.Next() == DoReserve(s, t).Next()
  {
    hide NothingLost, Sound, Valid, MoverOk, Reserving;
  }

  // A slot below the new tail has been written, or somebody is about to.
  lemma ReservedOrWritten(g: WGraph, source: nat, delta: nat, s: State, t: nat, i: nat)
    requires Inv(g, source, delta, s) && s.phase == Moving && t < |s.threads| && s.threads[t].pc.Reserve?
    requires i < DoReserve(s, t).NextTail()
    ensures i in s.frontier || exists x ::
      0 <= x < |s.threads| && Reserving(DoReserve(s, t).threads[x], s.Next(), i)
  {
    hide NothingLost, HasWalk, Valid, Sound, BinsOk, Voted;
    var next, s' := s.Next(), DoReserve(s, t);
    if i >= s.NextTail() {
      assert Reserving(s'.threads[t], next, i);
    } else if i !in s.frontier {
      var x :| 0 <= x < |s.threads| && Reserving(s.threads[x], next, i);
      assert s'.threads[x] == s.threads[x];
    }
  }

  // The new slots lie behind those that others have reserved.
  lemma ReservedApart(g: WGraph, source: nat, delta: nat, s: State, t: nat, x: nat, y: nat, i: nat)
    requires Inv(g, source, delta, s) && s.phase == Moving && t < |s.threads| && s.threads[t].pc.Reserve?
    requires x < y < |s.threads| && Reserving(DoReserve(s, t).threads[x], s.Next(), i)
    ensures !Reserving(DoReserve(s, t).threads[y], s.Next(), i)
  {
    hide NothingLost, HasWalk, Valid, Sound, BinsOk, Voted;
    assert MoverOk(delta, s.dist, s.Next(), s.NextTail(), s.frontier, s.threads[x]);
    assert MoverOk(delta, s.dist, s.Next(), s.NextTail(), s.frontier, s.threads[y]);
    if x != t && y != t { assert Reserving(s.threads[x], s.Next(), i); }
  }

  // A reservation takes the slots behind the tail.
  lemma ReserveMovers(g: WGraph, source: nat, delta: nat, s: State, t: nat, x: nat)
    requires Inv(g, source, delta, s) && s.phase == Moving && t < |s.threads| && s.threads[t].pc.Reserve?
      && x < |s.threads|
    ensures var s' := DoReserve(s, t); MoverOk(delta, s'.dist, s'.Next(), s'.NextTail(), s'.frontier, s'.threads[x])
  {
    hide BinsOk, Voted, HasWalk, NothingLost;
    assert MoverOk(delta, s.dist, s.Next(), s.NextTail(), s.frontier, s.threads[x]);
  }

  lemma ReserveStep(g: WGraph, source: nat, delta: nat, s: State, t: nat)
    requires Inv(g, source, delta, s) && s.phase == Moving && t < |s.threads| && s.threads[t].pc.Reserve?
    ensures Inv(g, source, delta, DoReserve(s, t))
  {
    hide MoverOk, HasWalk, NothingLost;
    var s' := DoReserve(s, t);
    CoverAfterMove(g, source, delta, s, t, s');
    ReserveSlots(g, source, delta, s, t);
    forall x | 0 <= x < |s'.threads|
      ensures MoverOk(delta, s'.dist, s'.Next(), s'.NextTail(), s'.frontier, s'.threads[x])
    {
      ReserveMovers(g, source, delta, s, t, x);
    }
    if s.Next() != MAX_BIN && s'.NextTail() == 0 {
      var x :| 0 <= x < |s.threads| && HasBin(s.threads[x].bins, s.Next())
        && (s.threads[x].pc.PastBarrier1? || s.threads[x].pc.Reserve?);
      assert x != t && HasBin(s'.threads[x].bins, s'.Next());
    }
  }

  lemma CopyOutMovers(g: WGraph, source: nat, delta: nat, s: State, t: nat, x: nat)
    requires Inv(g, source, delta, s) && s.phase == Moving && t < |s.threads| && s.threads[t].pc.CopyOut?
      && x < |s.threads|
    ensures s.Next() < |s.threads[t].bins|
    ensures var s' := DoCopyOut(s, t); MoverOk(delta, s'.dist, s'.Next(), s'.NextTail(), s'.frontier, s'.threads[x])
  {
    var next, th, thx := s.Next(), s.threads[t], s.threads[x];
    assert MoverOk(delta, s.dist, next, s.NextTail(), s.frontier, th);
    assert MoverOk(delta, s.dist, next, s.NextTail(), s.frontier, thx);
    var s' := DoCopyOut(s, t);
    if x != t && thx.pc.CopyOut? {
      forall i | thx.pc.start <= i < thx.pc.start + |thx.bins[next]| ensures i !in s'.frontier {
        assert Reserving(thx, next, i);
        assert !Reserving(th, next, i);
      }
    }
  }

  lemma CopyOutSlots(g: WGraph, source: nat, delta: nat, s: State, t: nat)
    requires Inv(g, source, delta, s) && s.phase == Moving && t < |s.threads| && s.threads[t].pc.CopyOut?
      && s.Next() < |s.threads[t].bins|
    ensures var s' := DoCopyOut(s, t);
      && (forall i: nat | i < s'.NextTail() :: i in s'.frontier || exists x ::
          0 <= x < |s'.threads| && Reserving(s'.threads[x], s'.Next(), i))
      && (forall x, y, i | 0 <= x < y < |s'.threads| && Reserving(s'.threads[x], s'.Next(), i) ::
          !Reserving(s'.threads[y], s'.Next(), i))
  {
    hide NothingLost, HasWalk, Valid, MoverOk, Write;
    var next, th, s' := s.Next(), s.threads[t], DoCopyOut(s, t);
    forall i: nat | i < s'.NextTail()
      ensures i in s'.frontier || exists x :: 0 <= x < |s'.threads| && Reserving(s'.threads[x], next, i)
    {
      if i !in s'.frontier {
        var x :| 0 <= x < |s.threads| && Reserving(s.threads[x], next, i);
        assert s'.threads[x] == s.threads[x];
      }
    }
    forall x, y, i | 0 <= x < y < |s'.threads| && Reserving(s'.threads[x], next, i) ensures !Reserving(s'.threads[y],
      next, i) {
      if x != t && y != t { assert Reserving(s.threads[x], next, i); }
    }
  }

  lemma CopyOutLosesNothing(g: WGraph, source: nat, delta: nat, s: State, t: nat)
    requires Inv(g, source, delta, s) && s.phase == Moving && t < |s.threads| && s.threads[t].pc.CopyOut?
      && s.Next() < |s.threads[t].bins|
    ensures NothingLost(g, delta, DoCopyOut(s, t))
  {
    hide Covers, HasWalk, SettledUpTo, Write, InMovingPart, MoverOk, SomeoneCovers, Waiting;
    var s' := DoCopyOut(s, t);
    forall u: nat | u < |g|
      ensures Settled(g, s'.dist, u) || SomeoneCovers(g, delta, s', u) || Waiting(s', delta, u)
    {
      CopyOutCover(g, source, delta, s, t, u);
    }
  }

  lemma WriteKeepsFrontier(dist: seq<int>, tail: nat, frontier: map<nat, nat>, start: nat, batch: seq<nat>)
    requires FrontierOk(dist, tail, frontier) && start + |batch| <= tail
    requires Reached(dist, batch)
    ensures FrontierOk(dist, tail, Write(frontier, start, batch))
  {
    hide Write;
    var f := Write(frontier, start, batch);
    forall i | i in f ensures i < tail && f[i] < |dist| && dist[f[i]] < DIST_INF {
      if start <= i < start + |batch| { assert f[i] == batch[i - start] && batch[i - start] in batch; }
    }
  }

  // What is copied has been reached.
  lemma CopiedIsReached(g: WGraph, source: nat, delta: nat, s: State, t: nat)
    requires Inv(g, source, delta, s) && s.phase == Moving && t < |s.threads| && s.threads[t].pc.CopyOut?
      && s.Next() < |s.threads[t].bins|
    ensures var s' := DoCopyOut(s, t); FrontierOk(s'.dist, s'.NextTail(), s'.frontier)
  {
    hide Covers, HasWalk, SettledUpTo, NothingLost, Sound, Write;
    assert MoverOk(delta, s.dist, s.Next(), s.NextTail(), s.frontier, s.threads[t]);
    WriteKeepsFrontier(s.dist, s.NextTail(), s.frontier, s.threads[t].pc.start, s.threads[t].bins[s.Next()]);
  }

  lemma CopyOutStep(g: WGraph, source: nat, delta: nat, s: State, t: nat)
    requires Inv(g, source, delta, s) && s.phase == Moving && t < |s.threads| && s.threads[t].pc.CopyOut?
    ensures s.Next() < |s.threads[t].bins| && Inv(g, source, delta, DoCopyOut(s, t))
  {
    hide NothingLost, HasWalk, Valid, Write, InMovingPart, BinsOk, Voted;
    assert MoverOk(delta, s.dist, s.Next(), s.NextTail(), s.frontier, s.threads[t]);
    var next, s' := s.Next(), DoCopyOut(s, t);
    forall x | 0 <= x < |s'.threads|
      ensures MoverOk(delta, s'.dist, s'.Next(), s'.NextTail(), s'.frontier, s'.threads[x])
    {
      CopyOutMovers(g, source, delta, s, t, x);
    }
    CopyOutSlots(g, source, delta, s, t);
    CopyOutLosesNothing(g, source, delta, s, t);
    CopiedIsReached(g, source, delta, s, t);
    if next != MAX_BIN && s'.NextTail() == 0 {
      var x :| 0 <= x < |s.threads| && HasBin(s.threads[x].bins, next)
        && (s.threads[x].pc.PastBarrier1? || s.threads[x].pc.Reserve?);
      assert s'.threads[x] == s.threads[x];
    }
  }

  // What leaves the bin of thread t is in the frontier afterwards.
  lemma CopiedIsWaiting(g: WGraph, source: nat, delta: nat, s: State, t: nat, u: nat)
    requires Inv(g, source, delta, s) && s.phase == Moving && t < |s.threads| && s.threads[t].pc.CopyOut?
    requires s.Next() < |s.threads[t].bins| && u < |g| && InBin(delta, s.threads[t].bins, u, s.dist[u])
    ensures var s' := DoCopyOut(s, t); InBin(delta, s'.threads[t].bins, u, s'.dist[u]) || Waiting(s', delta, u)
  {
    hide MoverOk, HasWalk, NothingLost, Write;
    var next, th, s' := s.Next(), s.threads[t], DoCopyOut(s, t);
    var batch, start := th.bins[next], th.pc.start;
    assert MoverOk(delta, s.dist, next, s.NextTail(), s.frontier, th);
    CopyFits(delta, s.dist, next, s.NextTail(), s.frontier, th);
    var b :| 0 <= b < |th.bins| && u in th.bins[b] && delta * b <= s.dist[u];
    if b == next {
      var j :| 0 <= j < |batch| && batch[j] == u;
      assert start + j in s'.frontier && s'.frontier[start + j] == u;
    } else {
      assert u in s'.threads[t].bins[b];
    }
  }

  lemma CopyFits(delta: nat, dist: seq<int>, next: nat, tail: nat, frontier: map<nat, nat>, th: Thread)
    requires MoverOk(delta, dist, next, tail, frontier, th) && th.pc.CopyOut?
    ensures next < |th.bins| && th.pc.start + |th.bins[next]| <= tail
  {
  }

  // While bins are moved, only bins cover.
  lemma MoverCovers(g: WGraph, delta: nat, floor: int, s: State, th: Thread, u: nat)
    requires Valid(g) && |s.dist| == |g| && u < |g| && delta > 0 && s.TwoBuffers()
    requires MoverOk(delta, s.dist, s.Next(), s.NextTail(), s.frontier, th)
    ensures Covers(g, delta, floor, s.dist, th, u) <==> InBin(delta, th.bins, u, s.dist[u])
  {
  }

  lemma CopyOutKeepsWaiting(s: State, delta: nat, t: nat, u: nat)
    requires s.TwoBuffers() && t < |s.threads| && s.threads[t].pc.CopyOut? && s.Next() < |s.threads[t].bins|
      && u < |s.dist|
    requires MoverOk(delta, s.dist, s.Next(), s.NextTail(), s.frontier, s.threads[t]) && Waiting(s, delta, u)
    ensures Waiting(DoCopyOut(s, t), delta, u)
  {
    var i :| i in s.frontier && i < s.NextTail() && s.frontier[i] == u;
    var s' := DoCopyOut(s, t);
    assert i in s'.frontier && s'.frontier[i] == u;
  }

  lemma CopyOutKeepsBins(g: WGraph, source: nat, delta: nat, s: State, t: nat, x: nat, u: nat)
    requires Inv(g, source, delta, s) && s.phase == Moving && t < |s.threads| && s.threads[t].pc.CopyOut?
    requires s.Next() < |s.threads[t].bins| && u < |g| && x < |s.threads|
      && InBin(delta, s.threads[x].bins, u, s.dist[u])
    ensures var s' := DoCopyOut(s, t); SomeoneCovers(g, delta, s', u) || Waiting(s', delta, u)
  {
    var s' := DoCopyOut(s, t);
    if x == t { CopiedIsWaiting(g, source, delta, s, t, u); }
    if InBin(delta, s'.threads[x].bins, u, s'.dist[u]) {
      assert Covers(g, delta, delta * s'.Curr(), s'.dist, s'.threads[x], u);
    }
  }

  lemma CopyOutCover(g: WGraph, source: nat, delta: nat, s: State, t: nat, u: nat)
    requires Inv(g, source, delta, s) && s.phase == Moving && t < |s.threads| && s.threads[t].pc.CopyOut?
    requires s.Next() < |s.threads[t].bins| && u < |g|
    ensures var s' := DoCopyOut(s, t);
      Settled(g, s'.dist, u) || SomeoneCovers(g, delta, s', u) || Waiting(s', delta, u)
  {
    if Waiting(s, delta, u) {
      assert MoverOk(delta, s.dist, s.Next(), s.NextTail(), s.frontier, s.threads[t]);
      CopyOutKeepsWaiting(s, delta, t, u);
    } else if !Settled(g, s.dist, u) {
      var x :| 0 <= x < |s.threads| && Covers(g, delta, delta * s.Curr(), s.dist, s.threads[x], u);
      MoverCovers(g, delta, delta * s.Curr(), s, s.threads[x], u);
      CopyOutKeepsBins(g, source, delta, s, t, x, u);
    }
  }

  lemma {:induction false} ShareHolds(frontier: map<nat, nat>, owner: seq<nat>, i: nat)
    requires forall j | 0 <= j < |owner| :: j in frontier
    requires i < |owner|
    ensures frontier[i] in Share(frontier, owner, owner[i])
    decreases |owner|
  {
    var m := |owner| - 1;
    if i < m { ShareHolds(frontier, owner[..m], i); }
  }

  lemma {:induction false} ShareOnly(frontier: map<nat, nat>, owner: seq<nat>, t: nat, u: nat)
    requires forall j | 0 <= j < |owner| :: j in frontier
    requires u in Share(frontier, owner, t)
    ensures exists i :: 0 <= i < |owner| && frontier[i] == u
    decreases |owner|
  {
    var m := |owner| - 1;
    if !(owner[m] == t && frontier[m] == u) { ShareOnly(frontier, owner[..m], t, u); }
  }

  lemma Release2Worker(g: WGraph, source: nat, delta: nat, s: State, owner: seq<nat>, t: nat)
    requires Inv(g, source, delta, s) && s.phase == Moving && Enabled(g, s, Release2(owner)) && s.Next() != MAX_BIN
    requires t < |s.threads|
    ensures var s' := LeaveBarrier2(s, owner);
      WorkerOk(g, source, delta, delta * s.Next(), s.dist, s.Next(), s'.Next(), s'.threads[t])
  {
    var th := s.threads[t];
    assert MoverOk(delta, s.dist, s.Next(), s.NextTail(), s.frontier, th);
    forall u | u in Share(s.frontier, owner, t) ensures u < |g| && s.dist[u] < DIST_INF {
      ShareOnly(s.frontier, owner, t, u);
    }
  }

  lemma Release2Cover(g: WGraph, source: nat, delta: nat, s: State, owner: seq<nat>, u: nat)
    requires Inv(g, source, delta, s) && s.phase == Moving && Enabled(g, s, Release2(owner)) && u < |g|
    ensures Settled(g, s.dist, u) || SomeoneCovers(g, delta, LeaveBarrier2(s, owner), u)
  {
    hide BinsOk, Voted, HasWalk, SettledUpTo, Write;
    var s' := LeaveBarrier2(s, owner);
    assert s'.CurrSlot() == s.NextSlot();
    if Settled(g, s.dist, u) {
    } else if Waiting(s, delta, u) {
      var i :| i in s.frontier && i < s.NextTail() && s.frontier[i] == u;
      ShareHolds(s.frontier, owner, i);
      if s.Next() == MAX_BIN {
        MulMonotone(MAX_BIN, 1, delta);
        assert false;
      } else {
        assert u in s'.threads[owner[i]].list;
        assert Covers(g, delta, delta * s'.Curr(), s'.dist, s'.threads[owner[i]], u);
      }
    } else {
      var x :| 0 <= x < |s.threads| && Covers(g, delta, delta * s.Curr(), s.dist, s.threads[x], u);
      assert MoverOk(delta, s.dist, s.Next(), s.NextTail(), s.frontier, s.threads[x]);
      assert s'.threads[x].bins == s.threads[x].bins;
      assert Covers(g, delta, delta * s'.Curr(), s'.dist, s'.threads[x], u);
    }
  }

  // Everybody waits at the second barrier only while the next bin is moved.
  lemma Release2Phase(g: WGraph, source: nat, delta: nat, s: State, owner: seq<nat>)
    requires Inv(g, source, delta, s) && Enabled(g, s, Release2(owner))
    ensures s.phase == Moving && s.singleTaken
  {
    hide HasWalk, Valid, SettledUpTo, Covers, PcOk, Above, Reached, NothingLost, BinsOk;
    assert s.threads[0].pc.AtBarrier2?;
  }

  lemma Release2Step(g: WGraph, source: nat, delta: nat, s: State, owner: seq<nat>)
    requires Inv(g, source, delta, s) && Enabled(g, s, Release2(owner))
    ensures s.phase == Moving && Inv(g, source, delta, LeaveBarrier2(s, owner))
  {
    hide HasWalk, Valid, SettledUpTo, Covers, PcOk, Above, Reached, FrontierOk, Reserving, WorkerOk, SomeoneCovers;
    Release2Phase(g, source, delta, s, owner);
    var s' := LeaveBarrier2(s, owner);
    assert s'.CurrSlot() == s.NextSlot() && s'.NextSlot() == s.CurrSlot();
    forall u: nat | u < |g| ensures Settled(g, s'.dist, u) || SomeoneCovers(g, delta, s', u) {
      Release2Cover(g, source, delta, s, owner, u);
    }
    forall t | 0 <= t < |s.threads|
      ensures s.Next() != MAX_BIN ==>
        WorkerOk(g, source, delta, delta * s'.Curr(), s'.dist, s'.Curr(), s'.Next(), s'.threads[t])
    {
      assert MoverOk(delta, s.dist, s.Next(), s.NextTail(), s.frontier, s.threads[t]);
      if s.Next() != MAX_BIN { Release2Worker(g, source, delta, s, owner, t); }
    }
  }

  // Every move of every thread keeps the invariant.
  lemma StepKeepsInv(g: WGraph, source: nat, delta: nat, s: State, m: Move)
    requires Inv(g, source, delta, s) && Enabled(g, s, m)
    ensures Inv(g, source, delta, Apply(g, delta, s, m))
  {
    hide Inv, DoVote, DoReset, DoReserve, DoCopyOut, LeaveBarrier1, LeaveBarrier2;
    match m {
      case Run(t) =>
        PhaseOfThread(g, source, delta, s, t);
        match s.threads[t].pc {
          case Vote => VoteStep(g, source, delta, s, t);
          case PastBarrier1 => ResetStep(g, source, delta, s, t);
          case Reserve => ReserveStep(g, source, delta, s, t);
          case CopyOut(_) => CopyOutStep(g, source, delta, s, t);
          case _ => LocalStep(g, source, delta, s, t);
        }
      case Release1 => Release1Step(g, source, delta, s);
      case Release2(owner) => Release2Step(g, source, delta, s, owner);
    }
  }

  lemma PhaseOfThread(g: WGraph, source: nat, delta: nat, s: State, t: nat)
    requires Inv(g, source, delta, s) && t < |s.threads|
    ensures s.phase == Working <==> InWorkingPart(s.threads[t].pc)
    ensures s.phase == Moving <==> InMovingPart(s.threads[t].pc)
  {
    if s.phase == Working {
      assert WorkerOk(g, source, delta, delta * s.Curr(), s.dist, s.Curr(), s.Next(), s.threads[t]);
    } else if s.phase == Moving {
      assert MoverOk(delta, s.dist, s.Next(), s.NextTail(), s.frontier, s.threads[t]);
    }
  }

  lemma InitialInv(g: WGraph, source: nat, delta: nat, workers: nat, first: nat)
    requires Valid(g) && source < |g| && delta > 0 && first < workers
    ensures Inv(g, source, delta, Initial(g, source, workers, first))
  {
    var s := Initial(g, source, workers, first);
    InitialIsSound(g, source);
    assert s.dist == InitialDistances(g, source);
    assert Covers(g, delta, 0, s.dist, s.threads[first], source);
    forall u: nat | u < |g| ensures Settled(g, s.dist, u) || SomeoneCovers(g, delta, s, u) {
      if u != source {
        forall j: nat | j < |g[u]| ensures EdgeSettled(g, s.dist, u, j) {
          assert ValidEdge(g, u, j);
        }
      }
    }
  }

  // A run: the states it goes through and the moves between them.
  ghost predicate IsRun(g: WGraph, delta: nat, states: seq<State>, moves: seq<Move>)
    requires delta > 0
  {
    && |states| == |moves| + 1
    && forall i | 0 <= i < |moves| ::
      Enabled(g, states[i], moves[i]) && states[i + 1] == Apply(g, delta, states[i], moves[i])
  }

  lemma {:induction false} RunKeepsInv(g: WGraph, source: nat, delta: nat, states: seq<State>, moves: seq<Move>, i: nat)
    requires delta > 0 && IsRun(g, delta, states, moves) && Inv(g, source, delta, states[0]) && i < |states|
    ensures Inv(g, source, delta, states[i])
  {
    if i > 0 {
      RunKeepsInv(g, source, delta, states, moves, i - 1);
      StepKeepsInv(g, source, delta, states[i - 1], moves[i - 1]);
    }
  }

  // Once all threads have left the loop nothing is pending, so the distances
  // are exact: for every graph, source, delta, number of threads and schedule.
  lemma FinishedIsExact(g: WGraph, source: nat, delta: nat, workers: nat, first: nat, states: seq<State>,
                        moves: seq<Move>)
    requires Valid(g) && source < |g| && delta > 0 && first < workers
    requires IsRun(g, delta, states, moves) && states[0] == Initial(g, source, workers, first)
    requires states[|moves|].phase == Finished
    ensures ExactDistances(g, source, states[|moves|].dist) && LightestDistances(g, source, states[|moves|].dist)
  {
    InitialInv(g, source, delta, workers, first);
    RunKeepsInv(g, source, delta, states, moves, |moves|);
    var s := states[|moves|];
    forall u: nat | u < |g| ensures Settled(g, s.dist, u) {
    }
    FixpointIsExact(g, source, s.dist);
    ExactIsLightest(g, source, s.dist);
  }

  // No schedule can get stuck before the end.  In particular no thread ever
  // reads a frontier slot, a vertex or a bin that is not there.
  lemma NeverStuck(g: WGraph, source: nat, delta: nat, s: State)
    requires Inv(g, source, delta, s) && s.phase != Finished
    ensures exists m :: Enabled(g, s, m)
  {
    if t :| 0 <= t < |s.threads| && !s.threads[t].pc.AtBarrier1? && !s.threads[t].pc.AtBarrier2? {
      ThreadCanRun(g, source, delta, s, t);
      assert Enabled(g, s, Run(t));
    } else {
      forall t | 0 <= t < |s.threads| ensures s.threads[t].pc == if s.phase == Working then AtBarrier1 else AtBarrier2 {
        PhaseOfThread(g, source, delta, s, t);
      }
      if s.phase == Working {
        assert Enabled(g, s, Release1);
      } else {
        var owner := seq(s.NextTail(), i => 0 as nat);
        assert forall i: nat | i < s.NextTail() :: i in s.frontier;
        assert Enabled(g, s, Release2(owner));
      }
    }
  }

  lemma ThreadCanRun(g: WGraph, source: nat, delta: nat, s: State, t: nat)
    requires Inv(g, source, delta, s) && s.phase != Finished && t < |s.threads|
    requires !s.threads[t].pc.AtBarrier1? && !s.threads[t].pc.AtBarrier2?
    ensures CanRun(g, s, t)
  {
    PhaseOfThread(g, source, delta, s, t);
    if Local(s.threads[t].pc) {
      LocalStep(g, source, delta, s, t);
    } else if s.phase == Moving {
      assert MoverOk(delta, s.dist, s.Next(), s.NextTail(), s.frontier, s.threads[t]);
    }
  }

  // The bin being processed, or about to be.
  function Position(s: State): nat
    requires s.TwoBuffers()
  {
    if s.phase == Moving then s.Next() else s.Curr()
  }

  lemma InvFacts(g: WGraph, source: nat, delta: nat, s: State)
    requires Inv(g, source, delta, s)
    ensures delta > 0 && Valid(g) && |s.dist| == |g| && s.TwoBuffers()
  {
  }

  lemma RunKeepsPosition(g: WGraph, source: nat, delta: nat, s: State, t: nat)
    requires Inv(g, source, delta, s) && CanRun(g, s, t)
    ensures RunThread(g, delta, s, t).TwoBuffers() && Position(RunThread(g, delta, s, t)) == Position(s)
  {
    hide Inv, Step, CanStep, FirstNonEmpty, Write;
    InvFacts(g, source, delta, s);
    PhaseOfThread(g, source, delta, s, t);
  }

  // Bins are processed in non-decreasing order.
  lemma BinsNeverGoBack(g: WGraph, source: nat, delta: nat, s: State, m: Move)
    requires Inv(g, source, delta, s) && Enabled(g, s, m)
    ensures Apply(g, delta, s, m).TwoBuffers() && Position(s) <= Position(Apply(g, delta, s, m))
  {
    match m {
      case Run(t) => RunKeepsPosition(g, source, delta, s, t);
      case Release1 => PhaseOfThread(g, source, delta, s, 0);
      case Release2(owner) => PhaseOfThread(g, source, delta, s, 0);
    }
  }

  // -------------------------------------------------------------- termination

  function Entries(bins: seq<seq<nat>>): nat {
    if bins == [] then 0 else Entries(bins[..|bins| - 1]) + |bins[|bins| - 1]|
  }

  lemma {:induction false} EntriesUpdate(bins: seq<seq<nat>>, b: nat, bin: seq<nat>)
    requires b < |bins|
    ensures Entries(bins[b := bin]) == Entries(bins) - |bins[b]| + |bin|
  {
    var m := |bins| - 1;
    if b == m {
      assert bins[b := bin][..m] == bins[..m];
    } else {
      assert bins[b := bin][..m] == bins[..m][b := bin];
      EntriesUpdate(bins[..m], b, bin);
    }
  }

  lemma {:induction false} EntriesResized(bins: seq<seq<nat>>, n: nat)
    ensures Entries(Resized(bins, n)) == Entries(bins)
    decreases n
  {
    if n > |bins| {
      var r := Resized(bins, n);
      assert r[..n - 1] == Resized(bins, n - 1);
      EntriesResized(bins, n - 1);
    }
  }

  lemma EntriesPush(bins: seq<seq<nat>>, b: nat, v: nat)
    ensures Entries(PushBin(bins, b, v)) == Entries(bins) + 1
  {
    EntriesResized(bins, b + 1);
    var r := Resized(bins, b + 1);
    EntriesUpdate(r, b, r[b] + [v]);
  }

  // What a thread still holds: entries of bins weigh more than entries of the
  // frontier, which weigh more than the ones taken from it.
  function Weight(th: Thread): nat {
    3 * Entries(th.bins) + |th.list| + if th.pc.Push? then 4 else 0
  }

  // How far a thread is from the second barrier when nothing else moves.
  function Distance(g: WGraph, dist: seq<int>, pc: Pc): nat {
    match pc
    case Exit => 0
    case AtBarrier2 => 1
    case CopyOut(_) => 2
    case Reserve => 3
    case PastBarrier1 => 4
    case AtBarrier1 => 5
    case Vote => 6
    case Fuse => 7
    case Take => 8
    case Edge(u, k) => 9 + EdgesLeft(g, u, k)
    case HaveOld(u, k, _) => 8 + EdgesLeft(g, u, k)
    case HaveNew(u, k, old', _) =>
      if u < |g| && k < |g[u]| && g[u][k].v < |dist| && dist[g[u][k].v] == old' then 5 + EdgesLeft(g, u, k)
        else 7 + EdgesLeft(g, u, k)
    case Retry(u, k, _) => 6 + EdgesLeft(g, u, k)
    case Push(u, k, _) => 0
  }

  function EdgesLeft(g: WGraph, u: nat, k: nat): nat {
    if u < |g| && k <= |g[u]| then 6 * (|g[u]| - k) else 0
  }

  function Weights(ths: seq<Thread>): nat {
    if ths == [] then 0 else Weights(ths[..|ths| - 1]) + Weight(ths[|ths| - 1])
  }

  function Distances(g: WGraph, dist: seq<int>, ths: seq<Thread>): nat {
    if ths == [] then 0 else Distances(g, dist, ths[..|ths| - 1]) + Distance(g, dist, ths[|ths| - 1].pc)
  }

  lemma {:induction false} WeightsUpdate(ths: seq<Thread>, t: nat, th: Thread)
    requires t < |ths|
    ensures Weights(ths[t := th]) == Weights(ths) - Weight(ths[t]) + Weight(th)
  {
    var m := |ths| - 1;
    if t == m {
      assert ths[t := th][..m] == ths[..m];
    } else {
      assert ths[t := th][..m] == ths[..m][t := th];
      WeightsUpdate(ths[..m], t, th);
    }
  }

  lemma {:induction false} DistancesUpdate(g: WGraph, dist: seq<int>, ths: seq<Thread>, t: nat, th: Thread)
    requires t < |ths|
    ensures Distances(g, dist, ths[t := th]) == Distances(g, dist, ths) - Distance(g, dist, ths[t].pc)
      + Distance(g, dist, th.pc)
  {
    var m := |ths| - 1;
    if t == m {
      assert ths[t := th][..m] == ths[..m];
    } else {
      assert ths[t := th][..m] == ths[..m][t := th];
      DistancesUpdate(g, dist, ths[..m], t, th);
    }
  }

  // All pending entries.
  function Pending(s: State): nat {
    Weights(s.threads) + Filled(s)
  }

  // (sum of the distances, weight of what is pending, distance to the barrier)
  ghost predicate Smaller(g: WGraph, s': State, s: State) {
    || Sum(s'.dist) < Sum(s.dist)
    || (Sum(s'.dist) == Sum(s.dist) && Pending(s') < Pending(s))
    || (Sum(s'.dist) == Sum(s.dist) && Pending(s') == Pending(s) &&
        Distances(g, s'.dist, s'.threads) < Distances(g, s.dist, s.threads))
  }

  // The measure shrinks when the part of the thread that moves shrinks.
  lemma ThreadShrinks(g: WGraph, s: State, s': State, t: nat, th': Thread)
    requires t < |s.threads| && s'.threads == s.threads[t := th'] && s'.dist == s.dist && s'.phase == s.phase
    requires var before, after := Weight(s.threads[t]) + Filled(s), Weight(th') + Filled(s');
      after < before || (after == before && Distance(g, s.dist, th'.pc) < Distance(g, s.dist, s.threads[t].pc))
    ensures Smaller(g, s', s)
  {
    WeightsUpdate(s.threads, t, th');
    DistancesUpdate(g, s.dist, s.threads, t, th');
  }

  function Filled(s: State): nat {
    if s.phase == Moving then 2 * |s.frontier| else 0
  }

  ghost predicate ShrinksAfter(g: WGraph, delta: nat, floor: int, c: nat, dist: seq<int>, th: Thread)
    requires delta > 0 && |dist| == |g| && Local(th.pc) && CanStep(g, dist, th)
  {
    var (dist', th') := Step(g, delta, floor, c, dist, th);
    || Sum(dist') < Sum(dist)
    || (dist' == dist && Weight(th') < Weight(th))
    || (dist' == dist && Weight(th') == Weight(th) && Distance(g, dist, th'.pc) < Distance(g, dist, th.pc))
  }

  lemma RelaxShrinks(g: WGraph, delta: nat, floor: int, c: nat, dist: seq<int>, th: Thread)
    requires delta > 0 && |dist| == |g| && (th.pc.Take? || th.pc.Edge? || th.pc.HaveOld? || th.pc.Retry?)
      && CanStep(g, dist, th)
    ensures ShrinksAfter(g, delta, floor, c, dist, th)
  {
  }

  lemma HaveNewShrinks(g: WGraph, delta: nat, floor: int, c: nat, dist: seq<int>, th: Thread)
    requires delta > 0 && |dist| == |g| && th.pc.HaveNew? && CanStep(g, dist, th)
    ensures ShrinksAfter(g, delta, floor, c, dist, th)
  {
    var HaveNew(u, k, old', new') := th.pc;
    if new' < old' && dist[g[u][k].v] == old' { SumUpdate(dist, g[u][k].v, new'); }
  }

  lemma PushShrinks(g: WGraph, delta: nat, floor: int, c: nat, dist: seq<int>, th: Thread)
    requires delta > 0 && |dist| == |g| && th.pc.Push? && CanStep(g, dist, th)
    ensures ShrinksAfter(g, delta, floor, c, dist, th)
  {
    DivBounds(th.pc.newDist, delta, 0);
    EntriesPush(th.bins, th.pc.newDist / delta, g[th.pc.u][th.pc.k].v);
  }

  lemma FuseShrinks(g: WGraph, delta: nat, floor: int, c: nat, dist: seq<int>, th: Thread)
    requires delta > 0 && |dist| == |g| && th.pc.Fuse? && CanStep(g, dist, th)
    requires th.list == []
    ensures ShrinksAfter(g, delta, floor, c, dist, th)
  {
    if HasBin(th.bins, c) { EntriesUpdate(th.bins, c, []); }
  }

  // What the thread's own step shrinks makes the whole smaller.
  lemma OwnShrinks(g: WGraph, delta: nat, s: State, t: nat)
    requires delta > 0 && |s.dist| == |g| && s.TwoBuffers() && CanRun(g, s, t) && Local(s.threads[t].pc)
    requires ShrinksAfter(g, delta, delta * s.Curr(), s.Curr(), s.dist, s.threads[t])
    ensures Smaller(g, RunThread(g, delta, s, t), s)
  {
    hide Step, Weight, Distance, Distances, Sum;
    var (dist', th') := Step(g, delta, delta * s.Curr(), s.Curr(), s.dist, s.threads[t]);
    if dist' == s.dist { ThreadShrinks(g, s, RunThread(g, delta, s, t), t, th'); }
  }

  lemma LocalStepShrinks(g: WGraph, source: nat, delta: nat, s: State, t: nat)
    requires Inv(g, source, delta, s) && s.phase == Working && CanRun(g, s, t) && Local(s.threads[t].pc)
    ensures Smaller(g, RunThread(g, delta, s, t), s)
  {
    hide NothingLost, HasWalk, Valid, Smaller, ShrinksAfter, BinsOk, Reached, Above, PcOk;
    var th, floor, c := s.threads[t], delta * s.Curr(), s.Curr();
    match th.pc {
      case HaveNew(_, _, _, _) => HaveNewShrinks(g, delta, floor, c, s.dist, th);
      case Push(_, _, _) => PushShrinks(g, delta, floor, c, s.dist, th);
      case Fuse =>
        assert WorkerOk(g, source, delta, floor, s.dist, c, s.Next(), th);
        FuseShrinks(g, delta, floor, c, s.dist, th);
      case _ => RelaxShrinks(g, delta, floor, c, s.dist, th);
    }
    OwnShrinks(g, delta, s, t);
  }

  // The slots reserved by one thread are counted once they are written.
  lemma {:induction false} WriteSize(frontier: map<nat, nat>, start: nat, batch: seq<nat>)
    requires forall i | start <= i < start + |batch| :: i !in frontier
    ensures |Write(frontier, start, batch)| == |frontier| + |batch|
  {
    if batch != [] {
      var m := |batch| - 1;
      WriteSize(frontier, start, batch[..m]);
    }
  }

  lemma CopyOutShrinks(g: WGraph, source: nat, delta: nat, s: State, t: nat)
    requires Inv(g, source, delta, s) && s.phase == Moving && t < |s.threads| && s.threads[t].pc.CopyOut?
      && s.Next() < |s.threads[t].bins|
    ensures Smaller(g, DoCopyOut(s, t), s)
  {
    hide NothingLost, HasWalk, Valid, Smaller, BinsOk, Voted, Reserving;
    var th, s' := s.threads[t], DoCopyOut(s, t);
    assert MoverOk(delta, s.dist, s.Next(), s.NextTail(), s.frontier, th);
    WriteSize(s.frontier, th.pc.start, th.bins[s.Next()]);
    EntriesUpdate(th.bins, s.Next(), []);
    ThreadShrinks(g, s, s', t, s'.threads[t]);
  }

  lemma VoteShrinks(g: WGraph, s: State, t: nat)
    requires s.TwoBuffers() && t < |s.threads| && s.threads[t].pc.Vote?
    ensures Smaller(g, DoVote(s, t), s)
  {
    hide Smaller;
    ThreadShrinks(g, s, DoVote(s, t), t, s.threads[t].(pc := AtBarrier1));
  }

  lemma ResetShrinks(g: WGraph, s: State, t: nat)
    requires s.TwoBuffers() && t < |s.threads| && s.threads[t].pc.PastBarrier1?
    ensures Smaller(g, DoReset(s, t), s)
  {
    hide Smaller;
    ThreadShrinks(g, s, DoReset(s, t), t, s.threads[t].(pc := Reserve));
  }

  lemma ReserveShrinks(g: WGraph, s: State, t: nat)
    requires s.TwoBuffers() && t < |s.threads| && s.threads[t].pc.Reserve?
    ensures Smaller(g, DoReserve(s, t), s)
  {
    hide Smaller;
    ThreadShrinks(g, s, DoReserve(s, t), t, DoReserve(s, t).threads[t]);
  }

  lemma MoveShrinks(g: WGraph, source: nat, delta: nat, s: State, t: nat)
    requires Inv(g, source, delta, s) && CanRun(g, s, t) && !Local(s.threads[t].pc)
    ensures Smaller(g, RunThread(g, delta, s, t), s)
  {
    hide NothingLost, WorkingOk, MovingOk, HasWalk, Valid, Smaller, DoVote, DoReset, DoReserve, DoCopyOut;
    PhaseOfThread(g, source, delta, s, t);
    match s.threads[t].pc {
      case Vote => VoteShrinks(g, s, t);
      case PastBarrier1 => ResetShrinks(g, s, t);
      case Reserve => ReserveShrinks(g, s, t);
      case CopyOut(_) => CopyOutShrinks(g, source, delta, s, t);
    }
  }

  lemma {:induction false} Release1Weights(g: WGraph, dist: seq<int>, ths: seq<Thread>, ths': seq<Thread>)
    requires |ths| == |ths'|
    requires forall t | 0 <= t < |ths| :: ths[t].pc == AtBarrier1 && ths'[t] == ths[t].(pc := PastBarrier1)
    ensures Weights(ths') == Weights(ths)
    ensures Distances(g, dist, ths') + |ths| == Distances(g, dist, ths)
  {
    if ths != [] {
      var m := |ths| - 1;
      Release1Weights(g, dist, ths[..m], ths'[..m]);
    }
  }

  lemma {:induction false} ExitWeights(g: WGraph, dist: seq<int>, ths: seq<Thread>, ths': seq<Thread>)
    requires |ths| == |ths'|
    requires forall t | 0 <= t < |ths| :: ths[t].pc == AtBarrier2 && ths'[t] == ths[t].(pc := Exit)
    ensures Weights(ths') == Weights(ths)
    ensures Distances(g, dist, ths') + |ths| == Distances(g, dist, ths)
  {
    if ths != [] {
      var m := |ths| - 1;
      ExitWeights(g, dist, ths[..m], ths'[..m]);
    }
  }

  function Shares(frontier: map<nat, nat>, owner: seq<nat>, workers: nat): nat
    requires forall i | 0 <= i < |owner| :: i in frontier
  {
    if workers == 0 then 0 else Shares(frontier, owner, workers - 1) + |Share(frontier, owner, workers - 1)|
  }

  // Every slot goes to exactly one thread.
  lemma {:induction false} SharesTotal(frontier: map<nat, nat>, owner: seq<nat>, workers: nat)
    requires forall i | 0 <= i < |owner| :: i in frontier && owner[i] < workers
    ensures Shares(frontier, owner, workers) == |owner|
    decreases |owner|
  {
    if owner == [] {
      NoShares(frontier, workers);
    } else {
      var m := |owner| - 1;
      SharesTotal(frontier, owner[..m], workers);
      SharesGrow(frontier, owner, workers);
    }
  }

  lemma {:induction false} NoShares(frontier: map<nat, nat>, workers: nat)
    ensures Shares(frontier, [], workers) == 0
  {
    if workers > 0 { NoShares(frontier, workers - 1); }
  }

  lemma {:induction false} SharesGrow(frontier: map<nat, nat>, owner: seq<nat>, workers: nat)
    requires owner != [] && forall i | 0 <= i < |owner| :: i in frontier
    ensures Shares(frontier, owner, workers)
         == Shares(frontier, owner[..|owner| - 1], workers) + if owner[|owner| - 1] < workers then 1 else 0
  {
    if workers > 0 { SharesGrow(frontier, owner, workers - 1); }
  }

  lemma {:induction false} TakeWeights(frontier: map<nat, nat>, owner: seq<nat>, ths: seq<Thread>, ths': seq<Thread>)
    requires |ths| == |ths'| && forall i | 0 <= i < |owner| :: i in frontier
    requires forall t | 0 <= t < |ths| :: ths[t].pc == AtBarrier2 && ths[t].list == []
    requires forall t | 0 <= t < |ths| ::
      ths'[t] == ths[t].(pc := Take, fused := false, list := Share(frontier, owner, t))
    ensures Weights(ths') == Weights(ths) + Shares(frontier, owner, |ths|)
  {
    if ths != [] {
      var m := |ths| - 1;
      TakeWeights(frontier, owner, ths[..m], ths'[..m]);
    }
  }

  lemma {:induction false} SlotsCounted(frontier: map<nat, nat>, n: nat)
    requires forall i | i in frontier :: i < n
    requires forall i: nat | i < n :: i in frontier
    ensures |frontier| == n
  {
    if n > 0 {
      SlotsCounted(frontier - {n - 1}, n - 1);
      assert (frontier - {n - 1}).Keys + {n - 1} == frontier.Keys;
    }
  }

  // At the second barrier every list is used up and every slot is written.
  lemma FrontierComplete(g: WGraph, source: nat, delta: nat, s: State, owner: seq<nat>)
    requires Inv(g, source, delta, s) && Enabled(g, s, Release2(owner))
    ensures s.phase == Moving && |s.frontier| == s.NextTail() && (s.Next() != MAX_BIN ==> s.NextTail() > 0)
    ensures forall t | 0 <= t < |s.threads| :: s.threads[t].list == []
  {
    assert s.threads[0].pc.AtBarrier2?;
    forall t | 0 <= t < |s.threads| ensures s.threads[t].list == [] {
      assert MoverOk(delta, s.dist, s.Next(), s.NextTail(), s.frontier, s.threads[t]);
    }
    SlotsCounted(s.frontier, s.NextTail());
  }

  lemma Release2Shrinks(g: WGraph, source: nat, delta: nat, s: State, owner: seq<nat>)
    requires Inv(g, source, delta, s) && Enabled(g, s, Release2(owner))
    ensures Smaller(g, LeaveBarrier2(s, owner), s)
  {
    FrontierComplete(g, source, delta, s, owner);
    LeavingShrinks(g, s, owner);
  }

  lemma LeavingShrinks(g: WGraph, s: State, owner: seq<nat>)
    requires Enabled(g, s, Release2(owner)) && s.threads != []
    requires s.phase == Moving && |s.frontier| == s.NextTail() && (s.Next() != MAX_BIN ==> s.NextTail() > 0)
    requires forall t | 0 <= t < |s.threads| :: s.threads[t].list == []
    ensures Smaller(g, LeaveBarrier2(s, owner), s)
  {
    var s' := LeaveBarrier2(s, owner);
    if s'.phase == Finished {
      ExitWeights(g, s.dist, s.threads, s'.threads);
    } else {
      TakeWeights(s.frontier, owner, s.threads, s'.threads);
      SharesTotal(s.frontier, owner, |s.threads|);
    }
  }

  // Every move makes the measure smaller, whoever makes it.
  lemma StepShrinks(g: WGraph, source: nat, delta: nat, s: State, m: Move)
    requires Inv(g, source, delta, s) && Enabled(g, s, m)
    ensures Smaller(g, Apply(g, delta, s, m), s)
  {
    match m {
      case Run(t) =>
        PhaseOfThread(g, source, delta, s, t);
        if Local(s.threads[t].pc) {
          LocalStepShrinks(g, source, delta, s, t);
        } else {
          MoveShrinks(g, source, delta, s, t);
        }
      case Release1 =>
        Release1Step(g, source, delta, s);
        Release1Weights(g, s.dist, s.threads, LeaveBarrier1(s).threads);
      case Release2(owner) => Release2Shrinks(g, source, delta, s, owner);
    }
  }

  // No schedule runs forever: in every infinite sequence of states that starts
  // in a reachable one there is a state that is not followed by a move.
  lemma {:induction false} EveryScheduleEnds(g: WGraph, source: nat, delta: nat, run: nat -> State, i: nat)
    requires Inv(g, source, delta, run(i))
    ensures exists j :: j >= i && !Steps(g, delta, run(j), run(j + 1))
    decreases Sum(run(i).dist), Pending(run(i)), Distances(g, run(i).dist, run(i).threads)
  {
    if Steps(g, delta, run(i), run(i + 1)) {
      var m :| Enabled(g, run(i), m) && run(i + 1) == Apply(g, delta, run(i), m);
      StepKeepsInv(g, source, delta, run(i), m);
      StepShrinks(g, source, delta, run(i), m);
      SumNonNegative(run(i).dist);
      SumNonNegative(run(i + 1).dist);
      EveryScheduleEnds(g, source, delta, run, i + 1);
    }
  }

  ghost predicate Steps(g: WGraph, delta: nat, s: State, s': State)
    requires delta > 0
  {
    exists m :: Enabled(g, s, m) && s' == Apply(g, delta, s, m)
  }
}
