// The oracle of the shortest-path kernel: Dijkstra with a priority queue from
// which outdated entries are never removed.
module SsspVerifier {
  import opened Walks

  type Entry = (int, nat)

  predicate AtMost(a: Entry, b: Entry) {
    a.0 < b.0 || (a.0 == b.0 && a.1 <= b.1)
  }

  predicate IsTop(mq: multiset<Entry>, top: Entry) {
    top in mq && forall x | x in mq :: AtMost(top, x)
  }

  lemma {:induction false} TopExists(mq: multiset<Entry>)
    requires mq != multiset{}
    ensures exists top :: IsTop(mq, top)
    decreases |mq|
  {
    var e :| e in mq;
    var rest := mq - multiset{e};
    if rest == multiset{} {
      forall x | x in mq ensures AtMost(e, x) { assert x == e || x in rest; }
      assert IsTop(mq, e);
    } else {
      TopExists(rest);
      var top :| IsTop(rest, top);
      var best := if AtMost(e, top) then e else top;
      forall x | x in mq ensures AtMost(best, x) { assert x == e || x in rest; }
      assert IsTop(mq, best);
    }
  }

  // Entries are never better than the recorded distance.
  ghost predicate QueueOk(dist: seq<int>, mq: multiset<Entry>) {
    forall e | e in mq :: e.1 < |dist| && dist[e.1] <= e.0 < DIST_INF
  }

  // A vertex with an edge to relax has an entry with its present distance.
  ghost predicate Queued(g: WGraph, dist: seq<int>, mq: multiset<Entry>, except: int)
    requires Valid(g) && |dist| == |g|
  {
    forall u: nat | u < |g| && u != except :: Settled(g, dist, u) || (dist[u], u) in mq
  }

  lemma LoweredKeepsSettled(g: WGraph, dist: seq<int>, x: nat, j: nat, v: nat, d: int)
    requires Valid(g) && |dist| == |g| && v < |g| && x < |g| && v != x && d < dist[v]
    requires SettledUpTo(g, dist, x, j)
    ensures SettledUpTo(g, dist[v := d], x, j)
  {
    var dist' := dist[v := d];
    forall i: nat | i < j && i < |g[x]| ensures EdgeSettled(g, dist', x, i) {
      assert ValidEdge(g, x, i) && EdgeSettled(g, dist, x, i);
    }
  }

  lemma LoweredKeepsQueued(g: WGraph, dist: seq<int>, mq: multiset<Entry>, u: nat, v: nat, d: int)
    requires Valid(g) && |dist| == |g| && v < |g| && u < |g| && v != u && d < dist[v]
    requires Queued(g, dist, mq, u)
    ensures Queued(g, dist[v := d], mq + multiset{(d, v)}, u)
  {
    var dist', mq' := dist[v := d], mq + multiset{(d, v)};
    forall x: nat | x < |g| && x != u ensures Settled(g, dist', x) || (dist'[x], x) in mq' {
      if x == v {
        assert (d, v) in mq';
      } else if Settled(g, dist, x) {
        LoweredKeepsSettled(g, dist, x, |g[x]|, v, d);
      }
    }
  }

  // What holds in the middle of expanding u, before edge k.
  ghost predicate Expanding(g: WGraph, source: nat, u: nat, k: nat, dist: seq<int>, mq: multiset<Entry>) {
    && Valid(g) && Sound(g, source, dist) && u < |g| && k <= |g[u]| && dist[u] < DIST_INF
    && QueueOk(dist, mq) && Queued(g, dist, mq, u) && SettledUpTo(g, dist, u, k)
  }

  lemma ExpandEdge(g: WGraph, source: nat, u: nat, k: nat, dist: seq<int>, mq: multiset<Entry>)
    requires Expanding(g, source, u, k, dist, mq) && k < |g[u]|
    ensures var wn := g[u][k]; var sum := Wrap32(dist[u] + wn.w);
      && wn.v < |g|
      && if sum < dist[wn.v]
         then wn.v != u && Expanding(g, source, u, k + 1, dist[wn.v := sum], mq + multiset{(sum, wn.v)})
         else Expanding(g, source, u, k + 1, dist, mq)
  {
    hide Settled, SettledUpTo, EdgeSettled, HasWalk;
    var wn := g[u][k];
    assert ValidEdge(g, u, k);
    var sum := dist[u] + wn.w;
    assert Wrap32(sum) == sum;
    if sum < dist[wn.v] {
      ExtendWalk(g, source, u, k, dist[u]);
      LoweredKeepsQueued(g, dist, mq, u, wn.v, sum);
      LoweredKeepsSettled(g, dist, u, k, wn.v, sum);
      EdgeDone(g, dist[wn.v := sum], u, k);
    } else {
      EdgeDone(g, dist, u, k);
    }
  }

  lemma EdgeDone(g: WGraph, dist: seq<int>, u: nat, k: nat)
    requires Valid(g) && |dist| == |g| && u < |g| && k < |g[u]| && ValidEdge(g, u, k)
    requires SettledUpTo(g, dist, u, k) && dist[g[u][k].v] <= dist[u] + g[u][k].w
    ensures SettledUpTo(g, dist, u, k + 1)
  {
    forall j: nat | j < k + 1 && j < |g[u]| ensures EdgeSettled(g, dist, u, j) {
      if j < k { assert EdgeSettled(g, dist, u, j); }
    }
  }

  // The body of the loop over the edges of u.
  method ExpandOne(wn: WNode, td: int, dist: array<int>, mq: multiset<Entry>) returns (mq': multiset<Entry>)
    requires wn.v < dist.Length
    modifies dist
    ensures var sum, before := Wrap32(td + wn.w), old(dist[..]);
      if sum < before[wn.v]
      then dist[..] == before[wn.v := sum] && mq' == mq + multiset{(sum, wn.v)} && Sum(dist[..]) < Sum(before)
      else dist[..] == before && mq' == mq
  {
    mq' := mq;
    if Wrap32(td + wn.w) < dist[wn.v] {
      SumUpdate(dist[..], wn.v, Wrap32(td + wn.w));
      dist[wn.v] := Wrap32(td + wn.w);
      assert dist[..] == old(dist[..])[wn.v := Wrap32(td + wn.w)];
      mq' := mq' + multiset{(Wrap32(td + wn.w), wn.v)};
    }
  }

  lemma ExpandingFacts(g: WGraph, source: nat, u: nat, k: nat, dist: seq<int>, mq: multiset<Entry>)
    requires Expanding(g, source, u, k, dist, mq)
    ensures u < |g| == |dist|
  {
  }

  // Processes the vertex u that was taken with its present distance td.
  method Expand(g: WGraph, u: nat, td: int, dist: array<int>, mq: multiset<Entry>, ghost source: nat)
    returns (mq': multiset<Entry>)
    requires dist.Length == |g| && Expanding(g, source, u, 0, dist[..], mq) && dist[u] == td
    modifies dist
    ensures Expanding(g, source, u, |g[u]|, dist[..], mq')
    ensures Sum(dist[..]) < Sum(old(dist[..])) || (dist[..] == old(dist[..]) && mq' == mq)
  {
    hide Expanding, Sum, Wrap32;
    ExpandingFacts(g, source, u, 0, dist[..], mq);
    mq' := mq;
    for k := 0 to |g[u]|
      invariant Expanding(g, source, u, k, dist[..], mq') && dist[u] == td
      invariant Sum(dist[..]) < Sum(old(dist[..])) || (dist[..] == old(dist[..]) && mq' == mq)
    {
      ExpandEdge(g, source, u, k, dist[..], mq');
      mq' := ExpandOne(g[u][k], td, dist, mq');
    }
  }

  // Taking the top entry away leaves everybody but its vertex queued.
  lemma PopKeepsQueued(g: WGraph, dist: seq<int>, mq: multiset<Entry>, top: Entry)
    requires Valid(g) && |dist| == |g| && top in mq && QueueOk(dist, mq) && Queued(g, dist, mq, -1)
    ensures QueueOk(dist, mq - multiset{top})
    ensures Queued(g, dist, mq - multiset{top}, if top.0 == dist[top.1] then top.1 else -1)
  {
    var rest := mq - multiset{top};
    assert forall e | e in mq :: e == top || e in rest;
  }

  lemma InitiallyQueued(g: WGraph, source: nat)
    requires Valid(g) && source < |g|
    ensures Sound(g, source, InitialDistances(g, source))
    ensures QueueOk(InitialDistances(g, source), multiset{(0, source)})
    ensures Queued(g, InitialDistances(g, source), multiset{(0, source)}, -1)
  {
    InitialIsSound(g, source);
    var dist := InitialDistances(g, source);
    forall u: nat | u < |g| && u != source ensures Settled(g, dist, u) {
      forall j: nat | j < |g[u]| ensures EdgeSettled(g, dist, u, j) { assert ValidEdge(g, u, j); }
    }
  }

  lemma TopInRange(g: WGraph, dist: seq<int>, mq: multiset<Entry>, top: Entry)
    requires QueueOk(dist, mq) && top in mq
    ensures top.1 < |dist| && dist[top.1] <= top.0 < DIST_INF
  {
  }

  lemma SoundSum(g: WGraph, source: nat, dist: seq<int>)
    requires Sound(g, source, dist)
    ensures 0 <= Sum(dist)
  {
    SumNonNegative(dist);
  }

  lemma ExpandingBegins(g: WGraph, source: nat, u: nat, dist: seq<int>, mq: multiset<Entry>)
    requires Valid(g) && Sound(g, source, dist) && u < |g| && dist[u] < DIST_INF && QueueOk(dist, mq)
      && Queued(g, dist, mq, u)
    ensures Expanding(g, source, u, 0, dist, mq)
  {
  }

  // With all its edges relaxed the vertex needs no entry.
  lemma ExpandingEnds(g: WGraph, source: nat, u: nat, dist: seq<int>, mq: multiset<Entry>)
    requires u < |g| && Expanding(g, source, u, |g[u]|, dist, mq)
    ensures |dist| == |g| && Sound(g, source, dist) && QueueOk(dist, mq) && Queued(g, dist, mq, -1)
  {
  }

  // One turn of the loop: takes the top entry and expands it unless outdated.
  method PopTop(g: WGraph, dist: array<int>, mq: multiset<Entry>, ghost source: nat) returns (mq': multiset<Entry>)
    requires Valid(g) && dist.Length == |g| && Sound(g, source, dist[..]) && mq != multiset{}
    requires QueueOk(dist[..], mq) && Queued(g, dist[..], mq, -1)
    modifies dist
    ensures Sound(g, source, dist[..]) && QueueOk(dist[..], mq') && Queued(g, dist[..], mq', -1)
    ensures 0 <= Sum(old(dist[..]))
    ensures Sum(dist[..]) < Sum(old(dist[..])) || (Sum(dist[..]) == Sum(old(dist[..])) && |mq'| < |mq|)
  {
    hide Sound, Queued, QueueOk, Expanding, Sum;
    TopExists(mq);
    var top :| IsTop(mq, top);
    var (td, u) := top;
    PopKeepsQueued(g, dist[..], mq, top);
    mq' := mq - multiset{top};
    SoundSum(g, source, dist[..]);
    TopInRange(g, dist[..], mq, top);
    if td == dist[u] {
      ExpandingBegins(g, source, u, dist[..], mq');
      mq' := Expand(g, u, td, dist, mq', source);
      ExpandingEnds(g, source, u, dist[..], mq');
    }
  }

  method Dijkstra(g: WGraph, source: nat) returns (dist: array<int>)
    requires Valid(g) && source < |g|
    ensures fresh(dist) && ExactDistances(g, source, dist[..]) && LightestDistances(g, source, dist[..])
  {
    hide ExactDistances, LightestDistances;
    dist := new int[|g|](_ => DIST_INF);
    dist[source] := 0;
    assert dist[..] == InitialDistances(g, source);
    InitiallyQueued(g, source);
    var mq: multiset<Entry> := multiset{(0, source)};
    while mq != multiset{}
      invariant fresh(dist) && dist.Length == |g| && Sound(g, source, dist[..])
      invariant QueueOk(dist[..], mq) && Queued(g, dist[..], mq, -1)
      decreases Sum(dist[..]), |mq|
    {
      mq := PopTop(g, dist, mq, source);
    }
    FixpointIsExact(g, source, dist[..]);
    ExactIsLightest(g, source, dist[..]);
  }

  lemma ExactIffEqual(g: WGraph, source: nat, oracle: seq<int>, other: seq<int>)
    requires ExactDistances(g, source, oracle)
    ensures ExactDistances(g, source, other) <==> other == oracle
  {
    if ExactDistances(g, source, other) { ExactIsUnique(g, source, oracle, other); }
  }

  // The verdict is right in both directions.
  method Verify(g: WGraph, source: nat, distToTest: array<int>) returns (allOk: bool)
    requires Valid(g) && source < |g| && distToTest.Length == |g|
    ensures allOk <==> ExactDistances(g, source, distToTest[..])
    ensures allOk <==> LightestDistances(g, source, distToTest[..])
  {
    hide LightestDistances;
    var oracle := Dijkstra(g, source);
    allOk := true;
    for n := 0 to |g|
      invariant allOk <==> forall v | 0 <= v < n :: distToTest[v] == oracle[v]
    {
      if distToTest[n] != oracle[n] { allOk := false; }
    }
    ExactIffEqual(g, source, oracle[..], distToTest[..]);
    ExactIsLightest(g, source, distToTest[..]);
    assert allOk ==> distToTest[..] == oracle[..];
    assert !allOk ==> distToTest[..] != oracle[..];
  }
}
