// Delta-stepping with one thread, proved by following the steps of the
// many-thread machine.
module DeltaStepping {
  import opened Walks
  import opened DeltaSteppingThreads

  // A lone thread: nothing is lost, although nobody else can answer for it.
  ghost predicate Alone(g: WGraph, source: nat, delta: nat, c: nat, dist: seq<int>, th: Thread) {
    && delta > 0 && Valid(g) && Sound(g, source, dist)
    && WorkerOk(g, source, delta, delta * c, dist, c, MAX_BIN, th)
    && forall u: nat | u < |g| :: Settled(g, dist, u) || Covers(g, delta, delta * c, dist, th, u)
  }

  lemma AloneStep(g: WGraph, source: nat, delta: nat, c: nat, dist: seq<int>, th: Thread)
    requires Alone(g, source, delta, c, dist, th) && Local(th.pc)
    ensures CanStep(g, dist, th)
    ensures var (dist', th') := Step(g, delta, delta * c, c, dist, th); Alone(g, source, delta, c, dist', th')
    ensures th.pc.HaveOld? ==> Wrap32(dist[th.pc.u] + g[th.pc.u][th.pc.k].w) == dist[th.pc.u] + g[th.pc.u][th.pc.k].w
  {
    var floor := delta * c;
    match th.pc {
      case Take => StepTake(g, source, delta, floor, c, MAX_BIN, dist, th);
      case Edge(_, _) => StepEdge(g, source, delta, floor, c, MAX_BIN, dist, th);
      case HaveOld(_, _, _) => StepHaveOld(g, source, delta, floor, c, MAX_BIN, dist, th);
      case HaveNew(_, _, _, _) => StepHaveNew(g, source, delta, floor, c, MAX_BIN, dist, th);
      case Retry(_, _, _) => StepRetry(g, source, delta, floor, c, MAX_BIN, dist, th);
      case Push(_, _, _) => StepPush(g, source, delta, floor, c, MAX_BIN, dist, th);
      case Fuse => StepFuse(g, source, delta, floor, c, MAX_BIN, dist, th);
    }
    AfterGoodStep(g, source, delta, floor, c, dist, th);
  }

  lemma AfterGoodStep(g: WGraph, source: nat, delta: nat, floor: int, c: nat, dist: seq<int>, th: Thread)
    requires delta > 0 && Valid(g) && |dist| == |g| && Local(th.pc) && CanStep(g, dist, th)
    requires GoodStep(g, source, delta, floor, c, MAX_BIN, dist, th)
    requires forall u: nat | u < |g| :: Settled(g, dist, u) || Covers(g, delta, floor, dist, th, u)
    ensures var (dist', th') := Step(g, delta, floor, c, dist, th);
      forall u: nat | u < |g| :: Settled(g, dist', u) || Covers(g, delta, floor, dist', th', u)
  {
    var (dist', th') := Step(g, delta, floor, c, dist, th);
    forall u: nat | u < |g| ensures Settled(g, dist', u) || Covers(g, delta, floor, dist', th', u) {
      if Settled(g, dist, u) && dist'[u] == dist[u] { SettledMonotone(g, dist, dist', u, |g[u]|); }
    }
  }

  lemma AloneEdge(g: WGraph, source: nat, delta: nat, c: nat, dist: seq<int>, u: nat, k: nat, list: seq<nat>,
                  fused: bool, bins: seq<seq<nat>>)
    requires Alone(g, source, delta, c, dist, Thread(Edge(u, k), list, fused, bins))
    ensures u < |g| && k <= |g[u]|
    ensures k == |g[u]| ==> Alone(g, source, delta, c, dist, Thread(Take, list, fused, bins))
    ensures k < |g[u]| ==> g[u][k].v < |g| && Alone(g, source, delta, c, dist,
                                                    Thread(HaveOld(u, k, dist[g[u][k].v]), list, fused, bins))
  {
    AloneStep(g, source, delta, c, dist, Thread(Edge(u, k), list, fused, bins));
  }

  lemma AloneHaveOld(g: WGraph, source: nat, delta: nat, c: nat, dist: seq<int>, u: nat, k: nat, old': int,
                     list: seq<nat>, fused: bool, bins: seq<seq<nat>>)
    requires Alone(g, source, delta, c, dist, Thread(HaveOld(u, k, old'), list, fused, bins))
    ensures u < |g| && k < |g[u]| && 0 <= Wrap32(dist[u] + g[u][k].w) && old' <= DIST_INF
    ensures Alone(g, source, delta, c, dist, Thread(HaveNew(u, k, old', Wrap32(dist[u] + g[u][k].w)), list, fused,
                                                    bins))
  {
    AloneStep(g, source, delta, c, dist, Thread(HaveOld(u, k, old'), list, fused, bins));
  }

  lemma AloneHaveNew(g: WGraph, source: nat, delta: nat, c: nat, dist: seq<int>, u: nat, k: nat, new': int,
                     list: seq<nat>, fused: bool, bins: seq<seq<nat>>)
    requires u < |g| == |dist| && k < |g[u]| && g[u][k].v < |g|
    requires Alone(g, source, delta, c, dist, Thread(HaveNew(u, k, dist[g[u][k].v], new'), list, fused, bins))
    ensures var v := g[u][k].v;
      if new' < dist[v]
      then Alone(g, source, delta, c, dist[v := new'], Thread(Push(u, k, new'), list, fused, bins))
      else Alone(g, source, delta, c, dist, Thread(Edge(u, k + 1), list, fused, bins))
  {
    AloneStep(g, source, delta, c, dist, Thread(HaveNew(u, k, dist[g[u][k].v], new'), list, fused, bins));
  }

  lemma AlonePush(g: WGraph, source: nat, delta: nat, c: nat, dist: seq<int>, u: nat, k: nat, new': int,
                  list: seq<nat>, fused: bool, bins: seq<seq<nat>>)
    requires Alone(g, source, delta, c, dist, Thread(Push(u, k, new'), list, fused, bins))
    ensures u < |g| && k < |g[u]| && delta > 0 && 0 <= new'
    ensures Alone(g, source, delta, c, dist, Thread(Edge(u, k + 1), list, fused,
                                                    PushBin(bins, new' / delta, g[u][k].v)))
  {
    AloneStep(g, source, delta, c, dist, Thread(Push(u, k, new'), list, fused, bins));
  }

  // What relaxing edge k of u does when no other thread interferes.
  lemma EdgeRelaxed(g: WGraph, source: nat, delta: nat, c: nat, dist: seq<int>, u: nat, k: nat, list: seq<nat>,
                    fused: bool, bins: seq<seq<nat>>)
    requires u < |g| == |dist| && delta > 0
    requires Alone(g, source, delta, c, dist, Thread(Edge(u, k), list, fused, bins)) && k < |g[u]|
    ensures g[u][k].v < |g| && dist[g[u][k].v] <= DIST_INF
    ensures var v, newDist := g[u][k].v, Wrap32(dist[u] + g[u][k].w);
      && 0 <= newDist
      && if newDist < dist[v]
         then Alone(g, source, delta, c, dist[v := newDist],
                    Thread(Edge(u, k + 1), list, fused, PushBin(bins, newDist / delta, v)))
         else Alone(g, source, delta, c, dist, Thread(Edge(u, k + 1), list, fused, bins))
  {
    AloneEdge(g, source, delta, c, dist, u, k, list, fused, bins);
    var v, newDist := g[u][k].v, Wrap32(dist[u] + g[u][k].w);
    AloneHaveOld(g, source, delta, c, dist, u, k, dist[v], list, fused, bins);
    AloneHaveNew(g, source, delta, c, dist, u, k, newDist, list, fused, bins);
    if newDist < dist[v] {
      AlonePush(g, source, delta, c, dist[v := newDist], u, k, newDist, list, fused, bins);
    }
  }

  // The serial meaning of the atomic.
  method CompareAndSwap(a: array<int>, i: nat, oldVal: int, newVal: int) returns (ok: bool)
    requires i < a.Length
    modifies a
    ensures ok == (old(a[i]) == oldVal)
    ensures a[..] == if ok then old(a[..])[i := newVal] else old(a[..])
  {
    if a[i] == oldVal {
      a[i] := newVal;
      return true;
    }
    return false;
  }

  lemma AloneFacts(g: WGraph, source: nat, delta: nat, c: nat, dist: seq<int>, u: nat, k: nat, list: seq<nat>,
                   fused: bool, bins: seq<seq<nat>>)
    requires Alone(g, source, delta, c, dist, Thread(Edge(u, k), list, fused, bins))
    ensures u < |g| == |dist| && delta > 0
  {
  }

  // Relaxes the edges of u; `list` and `fused` say what the caller still has to do.
  method RelaxEdges(g: WGraph, u: nat, delta: nat, dist: array<int>, bins: seq<seq<nat>>,
                    ghost source: nat, ghost c: nat, ghost list: seq<nat>, ghost fused: bool)
    returns (bins': seq<seq<nat>>)
    requires dist.Length == |g|
    requires Alone(g, source, delta, c, dist[..], Thread(Edge(u, 0), list, fused, bins))
    modifies dist
    ensures Alone(g, source, delta, c, dist[..], Thread(Take, list, fused, bins'))
    ensures Sum(dist[..]) < Sum(old(dist[..])) || (dist[..] == old(dist[..]) && bins' == bins)
  {
    hide Alone, Sum, PushBin, Wrap32;
    AloneFacts(g, source, delta, c, dist[..], u, 0, list, fused, bins);
    bins' := bins;
    for k := 0 to |g[u]|
      invariant Alone(g, source, delta, c, dist[..], Thread(Edge(u, k), list, fused, bins'))
      invariant Sum(dist[..]) < Sum(old(dist[..])) || (dist[..] == old(dist[..]) && bins' == bins)
    {
      EdgeRelaxed(g, source, delta, c, dist[..], u, k, list, fused, bins');
      bins' := RelaxEdge(g[u][k], u, delta, dist, bins');
    }
    AloneEdge(g, source, delta, c, dist[..], u, |g[u]|, list, fused, bins');
  }

  // The body of the loop over the edges of u.  With one thread the swap cannot
  // fail, so the retry loop around it runs once.
  method RelaxEdge(edge: WNode, u: nat, delta: nat, dist: array<int>, bins: seq<seq<nat>>)
    returns (bins': seq<seq<nat>>)
    requires delta > 0 && u < dist.Length && edge.v < dist.Length && 0 <= Wrap32(dist[u] + edge.w)
    modifies dist
    ensures var newDist, before := Wrap32(old(dist[u]) + edge.w), old(dist[..]);
      if newDist < before[edge.v]
      then
        && dist[..] == before[edge.v := newDist]
        && bins' == PushBin(bins, newDist / delta, edge.v)
        && Sum(dist[..]) < Sum(before)
      else dist[..] == before && bins' == bins
  {
    bins' := bins;
    var oldDist := dist[edge.v];
    var newDist := Wrap32(dist[u] + edge.w);
    if newDist < oldDist {
      SumUpdate(dist[..], edge.v, newDist);
      var swapped := CompareAndSwap(dist, edge.v, oldDist, newDist);
      assert swapped;
      bins' := PushBin(bins, newDist / delta, edge.v);
    }
  }

  // The bins in the order the outer loop sees them: only the current bin of the
  // shared frontier is left to process.
  ghost predicate RoundReady(g: WGraph, source: nat, delta: nat, c: nat, dist: seq<int>, frontier: seq<nat>,
                             bins: seq<seq<nat>>)
  {
    if c == MAX_BIN
    then Valid(g) && Sound(g, source, dist) && forall u: nat | u < |g| :: Settled(g, dist, u)
    else Alone(g, source, delta, c, dist, Thread(Take, frontier, false, bins))
  }

  // Moving the first non-empty bin b to the frontier starts the next round.
  lemma NextRound(g: WGraph, source: nat, delta: nat, c: nat, dist: seq<int>, fused: bool, bins: seq<seq<nat>>, b: nat)
    requires Alone(g, source, delta, c, dist, Thread(Vote, [], fused, bins))
    requires b == MAX_BIN || HasBin(bins, b)
    requires forall i | c <= i < |bins| && i < b :: bins[i] == []
    ensures b == MAX_BIN ==> RoundReady(g, source, delta, MAX_BIN, dist, [], bins)
    ensures b != MAX_BIN ==> b < MAX_BIN && RoundReady(g, source, delta, b, dist, bins[b], bins[b := []])
  {
    forall u: nat | u < |g| ensures Settled(g, dist, u) || InBin(delta, bins, u, dist[u]) {}
    if b != MAX_BIN {
      var th := Thread(Take, bins[b], false, bins[b := []]);
      assert BinsOk(delta, dist, b, th.bins);
      forall u: nat | u < |g| && InBin(delta, bins, u, dist[u]) ensures Covers(g, delta, delta * b, dist, th, u) {
        var i :| 0 <= i < |bins| && u in bins[i] && delta * i <= dist[u];
        if i != b { assert u in th.bins[i]; }
      }
    } else {
      assert forall u: nat | u < |g| :: Settled(g, dist, u);
    }
  }

  lemma InitialRound(g: WGraph, source: nat, delta: nat)
    requires Valid(g) && source < |g| && delta > 0
    ensures RoundReady(g, source, delta, 0, InitialDistances(g, source), [source], [])
  {
    InitialInv(g, source, delta, 1, 0);
    var s := Initial(g, source, 1, 0);
    assert s.dist == InitialDistances(g, source);
    assert s.threads == [Thread(Take, [source], false, [])];
    forall u: nat | u < |g| ensures Settled(g, s.dist, u) || Covers(g, delta, 0, s.dist, s.threads[0], u) {
      if !Settled(g, s.dist, u) {
        var t :| 0 <= t < |s.threads| && Covers(g, delta, 0, s.dist, s.threads[t], u);
        assert t == 0;
      }
    }
  }

  // The first non-empty bin from `start` on, as the voting loop finds it.
  method FindBin(bins: seq<seq<nat>>, start: nat) returns (b: nat)
    requires |bins| < MAX_BIN
    ensures b == MAX_BIN || (start <= b && HasBin(bins, b))
    ensures forall i | start <= i < |bins| && i < b :: bins[i] == []
  {
    var i := start;
    while i < |bins|
      invariant start <= i
      invariant forall j | start <= j < |bins| && j < i :: bins[j] == []
    {
      if bins[i] != [] { return i; }
      i := i + 1;
    }
    return MAX_BIN;
  }

  // The loop over the shared frontier, with its filter for stale entries.
  method ProcessFrontier(g: WGraph, delta: nat, c: nat, dist: array<int>, frontier: seq<nat>, tail: nat,
                         bins: seq<seq<nat>>, ghost source: nat)
    returns (bins': seq<seq<nat>>)
    requires dist.Length == |g| && tail <= |frontier|
    requires Alone(g, source, delta, c, dist[..], Thread(Take, frontier[..tail], false, bins))
    modifies dist
    ensures Alone(g, source, delta, c, dist[..], Thread(Fuse, [], false, bins'))
    ensures Sum(dist[..]) < Sum(old(dist[..])) || (dist[..] == old(dist[..]) && bins' == bins)
  {
    bins' := bins;
    for i := 0 to tail
      invariant Alone(g, source, delta, c, dist[..], Thread(Take, frontier[i..tail], false, bins'))
      invariant Sum(dist[..]) < Sum(old(dist[..])) || (dist[..] == old(dist[..]) && bins' == bins)
    {
      var u := frontier[i];
      assert frontier[i..tail][1..] == frontier[i + 1..tail];
      AloneStep(g, source, delta, c, dist[..], Thread(Take, frontier[i..tail], false, bins'));
      if dist[u] >= delta * c {
        bins' := RelaxEdges(g, u, delta, dist, bins', source, c, frontier[i + 1..tail], false);
      }
    }
    AloneStep(g, source, delta, c, dist[..], Thread(Take, [], false, bins'));
  }

  // One round of bucket fusion: the vertices of the copied bin.
  method ProcessCopy(g: WGraph, delta: nat, c: nat, dist: array<int>, copied: seq<nat>, bins: seq<seq<nat>>,
                     ghost source: nat)
    returns (bins': seq<seq<nat>>)
    requires dist.Length == |g|
    requires Alone(g, source, delta, c, dist[..], Thread(Take, copied, true, bins))
    modifies dist
    ensures Alone(g, source, delta, c, dist[..], Thread(Fuse, [], true, bins'))
    ensures Sum(dist[..]) < Sum(old(dist[..])) || (dist[..] == old(dist[..]) && bins' == bins)
  {
    bins' := bins;
    for i := 0 to |copied|
      invariant Alone(g, source, delta, c, dist[..], Thread(Take, copied[i..], true, bins'))
      invariant Sum(dist[..]) < Sum(old(dist[..])) || (dist[..] == old(dist[..]) && bins' == bins)
    {
      AloneStep(g, source, delta, c, dist[..], Thread(Take, copied[i..], true, bins'));
      bins' := RelaxEdges(g, copied[i], delta, dist, bins', source, c, copied[i + 1..], true);
    }
    AloneStep(g, source, delta, c, dist[..], Thread(Take, [], true, bins'));
  }

  // Bucket fusion: small batches of the current bin are processed right away.
  method FuseBins(g: WGraph, delta: nat, c: nat, dist: array<int>, bins: seq<seq<nat>>, ghost source: nat)
    returns (bins': seq<seq<nat>>, ghost fused: bool)
    requires dist.Length == |g|
    requires Alone(g, source, delta, c, dist[..], Thread(Fuse, [], false, bins))
    modifies dist
    ensures Alone(g, source, delta, c, dist[..], Thread(Vote, [], fused, bins'))
    ensures !(c < |bins'| && 0 < |bins'[c]| < 1000)
    ensures Sum(dist[..]) < Sum(old(dist[..])) || (dist[..] == old(dist[..]) && Entries(bins') <= Entries(bins))
  {
    bins', fused := bins, false;
    while c < |bins'| && bins'[c] != [] && |bins'[c]| < BIN_SIZE_THRESHOLD
      invariant Alone(g, source, delta, c, dist[..], Thread(Fuse, [], fused, bins'))
      invariant Sum(dist[..]) < Sum(old(dist[..])) || (dist[..] == old(dist[..]) && Entries(bins') <= Entries(bins))
      decreases Sum(dist[..]), Entries(bins')
    {
      var copied := bins'[c];
      EntriesUpdate(bins', c, []);
      AloneStep(g, source, delta, c, dist[..], Thread(Fuse, [], fused, bins'));
      SumNonNegative(dist[..]);
      bins' := ProcessCopy(g, delta, c, dist, copied, bins'[c := []], source);
      fused := true;
      SumNonNegative(dist[..]);
    }
    AloneStep(g, source, delta, c, dist[..], Thread(Fuse, [], fused, bins'));
  }

  // The part of an iteration before the first barrier: the shared bin, the
  // fusion loop, and the vote for the next bin b.
  method ProcessBin(g: WGraph, delta: nat, c: nat, dist: array<int>, frontier: seq<nat>, tail: nat,
                    bins: seq<seq<nat>>, ghost source: nat)
    returns (bins': seq<seq<nat>>, b: nat)
    requires dist.Length == |g| && tail <= |frontier| && c != MAX_BIN
    requires RoundReady(g, source, delta, c, dist[..], frontier[..tail], bins)
    modifies dist
    ensures b == MAX_BIN || (b < |bins'| && HasBin(bins', b))
    ensures |bins'| < MAX_BIN && 0 <= Sum(old(dist[..]))
    ensures RoundReady(g, source, delta, b, dist[..], if b == MAX_BIN then [] else bins'[b], if b == MAX_BIN
                       then bins' else bins'[b := []])
    ensures Sum(dist[..]) < Sum(old(dist[..])) || (dist[..] == old(dist[..]) && Entries(bins') <= Entries(bins))
  {
    SumNonNegative(dist[..]);
    bins' := ProcessFrontier(g, delta, c, dist, frontier, tail, bins, source);
    ghost var fused;
    bins', fused := FuseBins(g, delta, c, dist, bins', source);
    b := FindBin(bins', c);
    NextRound(g, source, delta, c, dist[..], fused, bins', b);
  }

  // The end of an iteration: the voted bin becomes the shared frontier, and the
  // other halves of the double buffers are reset for the vote after it.
  method SwitchBuffers(iter: nat, b: nat, indexes: seq<nat>, tails: seq<nat>, frontier: seq<nat>, bins: seq<seq<nat>>)
    returns (indexes': seq<nat>, tails': seq<nat>, frontier': seq<nat>, bins': seq<seq<nat>>)
    requires |indexes| == |tails| == 2 && tails[(iter + 1) % 2] == 0 && |bins| < MAX_BIN && (b == MAX_BIN || b < |bins|)
    ensures |indexes'| == |tails'| == 2 && indexes'[(iter + 1) % 2] == b && indexes'[(iter + 2) % 2] == MAX_BIN
    ensures tails'[(iter + 2) % 2] == 0 && tails'[(iter + 1) % 2] <= |frontier'|
    ensures frontier'[..tails'[(iter + 1) % 2]] == if b == MAX_BIN then [] else bins[b]
    ensures bins' == if b == MAX_BIN then bins else bins[b := []]
  {
    var curr, other := iter % 2, (iter + 1) % 2;
    frontier', bins' := frontier, bins;
    indexes' := indexes[other := b];
    indexes', tails' := indexes'[curr := MAX_BIN], tails[curr := 0];
    var next := indexes'[other];
    if next < |bins| {
      var copyStart := tails'[other];
      tails' := tails'[other := copyStart + |bins[next]|];
      frontier' := frontier[..copyStart] + bins[next];
      bins' := bins[next := []];
    }
  }

  // Shortest distances by delta-stepping: exact for every delta of at least one.
  method DeltaStep(g: WGraph, source: nat, delta: nat) returns (dist: array<int>)
    requires Valid(g) && source < |g| && delta > 0
    ensures fresh(dist) && ExactDistances(g, source, dist[..]) && LightestDistances(g, source, dist[..])
  {
    hide RoundReady, ExactDistances, LightestDistances, Sum, Entries;
    dist := new int[|g|](_ => DIST_INF);
    dist[source] := 0;
    assert dist[..] == InitialDistances(g, source);
    InitialRound(g, source, delta);
    var frontier: seq<nat> := [source];
    var sharedIndexes: seq<nat>, frontierTails: seq<nat> := [0, MAX_BIN], [1, 0];
    var bins: seq<seq<nat>>, iter: nat := [], 0;
    assert frontier[..frontierTails[iter % 2]] == [source];
    while sharedIndexes[iter % 2] != MAX_BIN
      invariant fresh(dist) && dist.Length == |g| && 0 <= iter && |sharedIndexes| == |frontierTails| == 2
      invariant sharedIndexes[(iter + 1) % 2] == MAX_BIN && frontierTails[(iter + 1) % 2] == 0
      invariant frontierTails[iter % 2] <= |frontier|
      invariant RoundReady(g, source, delta, sharedIndexes[iter % 2], dist[..], frontier[..frontierTails[iter % 2]],
                           bins)
      decreases Sum(dist[..]), Entries(bins), if sharedIndexes[iter % 2] == MAX_BIN then 0 else 1
    {
      var b: nat;
      bins, b := ProcessBin(g, delta, sharedIndexes[iter % 2], dist, frontier, frontierTails[iter % 2], bins, source);
      if b != MAX_BIN { EntriesUpdate(bins, b, []); }
      sharedIndexes, frontierTails, frontier, bins :=
        SwitchBuffers(iter, b, sharedIndexes, frontierTails, frontier, bins);
      iter := iter + 1;
    }
    NothingLeft(g, source, delta, dist[..], frontier[..frontierTails[iter % 2]], bins);
  }

  // Voting for no bin at all means that nothing is left to relax.
  lemma NothingLeft(g: WGraph, source: nat, delta: nat, dist: seq<int>, frontier: seq<nat>, bins: seq<seq<nat>>)
    requires RoundReady(g, source, delta, MAX_BIN, dist, frontier, bins)
    ensures ExactDistances(g, source, dist) && LightestDistances(g, source, dist)
  {
    FixpointIsExact(g, source, dist);
    ExactIsLightest(g, source, dist);
  }
}
