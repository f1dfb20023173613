// The PageRank kernel and its check, over exact numbers.
module PageRankRun {
  import opened Components
  import opened PathCounts
  import opened PageRank
  import opened PageRankLaws

  // ------------------------------------------------------------------ the pull

  // In a division by a zero out-degree the quotient may be anything: it is never read.
  method Divide(score: real, degree: nat, junk: real) returns (q: real)
    ensures degree > 0 ==> q == score / degree as real
  {
    q := if degree == 0 then junk else score / degree as real;
  }

  ghost predicate ContribsOk(g: Graph, x: seq<real>, contrib: seq<real>)
  {
    |contrib| == |x| == g.N() && forall v: nat | v < g.N() && |g.outs[v]| > 0 :: contrib[v] == Contribution(g, x, v)
  }

  lemma InNeighbourSends(g: Graph, u: nat, j: nat)
    requires g.Valid() && u < g.N() && j < |g.ins[u]|
    ensures g.ins[u][j] < g.N() && |g.outs[g.ins[u][j]]| > 0
  {
    var v := g.ins[u][j];
    assert v in g.ins[u];
    assert u in g.outs[v];
  }

  method OutgoingContributions(g: Graph, scores: array<real>, contrib: array<real>, junk: real)
    requires scores != contrib && scores.Length == contrib.Length == g.N()
    modifies contrib
    ensures ContribsOk(g, scores[..], contrib[..])
  {
    for n := 0 to g.N()
      invariant forall v: nat | v < n && |g.outs[v]| > 0 :: contrib[v] == Contribution(g, scores[..], v)
    {
      contrib[n] := Divide(scores[n], |g.outs[n]|, junk);
    }
  }

  method IncomingTotal(g: Graph, contrib: array<real>, u: nat, ghost x: seq<real>) returns (total: real)
    requires g.Valid() && u < g.N() && ContribsOk(g, x, contrib[..])
    ensures total == ListSum(g.ins[u], |g.ins[u]|, Contributions(g, x))
  {
    total := 0.0;
    for j := 0 to |g.ins[u]|
      invariant total == ListSum(g.ins[u], j, Contributions(g, x))
    {
      InNeighbourSends(g, u, j);
      total := total + contrib[g.ins[u][j]];
    }
  }

  // The first u entries are new.
  ghost predicate Replaced(x: seq<real>, y: seq<real>, now: seq<real>, u: nat) {
    |x| == |y| == |now| && forall i | 0 <= i < |x| :: now[i] == if i < u then y[i] else x[i]
  }

  lemma NextAt(g: Graph, x: seq<real>, u: nat)
    requires g.N() == |x| == |g.ins| && g.N() > 0 && u < g.N()
    ensures Next(g, x)[u] == BaseScore(g) + DAMP * ListSum(g.ins[u], |g.ins[u]|, Contributions(g, x))
  {
  }

  lemma ErrorStep(a: seq<real>, b: seq<real>, n: nat)
    requires n < |a| && n < |b|
    ensures ErrorTo(a, b, n + 1) == ErrorTo(a, b, n) + Abs(a[n] - b[n])
  {
  }

  method PullVertex(g: Graph, scores: array<real>, contrib: array<real>, u: nat, error0: real, ghost x: seq<real>,
                    ghost y: seq<real>) returns (error: real)
    requires g.Valid() && g.N() > 0 && scores != contrib && u < g.N() == |x| == scores.Length == contrib.Length
      && y == Next(g, x)
    requires Replaced(x, y, scores[..], u) && ContribsOk(g, x, contrib[..]) && error0 == ErrorTo(y, x, u)
    modifies scores
    ensures Replaced(x, y, scores[..], u + 1) && error == ErrorTo(y, x, u + 1)
  {
    hide Next, ContribsOk, Contributions, ListSum, ErrorTo;
    NextAt(g, x, u);
    ErrorStep(y, x, u);
    var incomingTotal := IncomingTotal(g, contrib, u, x);
    var oldScore := scores[u];
    scores[u] := BaseScore(g) + DAMP * incomingTotal;
    error := error0 + Abs(scores[u] - oldScore);
  }

  // One iteration in place: the next scores, and how much they moved.
  method PullOnce(g: Graph, scores: array<real>, contrib: array<real>, junk: real) returns (error: real)
    requires g.Valid() && g.N() > 0 && scores != contrib && scores.Length == contrib.Length == g.N()
    modifies scores, contrib
    ensures scores[..] == Next(g, old(scores[..])) && error == Error(scores[..], old(scores[..]))
    ensures Transposed(g) ==> PulledFrom(g, old(scores[..]), scores[..])
    ensures Transposed(g) ==> Total(scores[..], g.N()) == 0.15 + 0.85 * Flowing(g, old(scores[..]), g.N())
    ensures forall epsilon: real :: error < epsilon <==> Within(scores[..], old(scores[..]), epsilon)
  {
    hide Next, ContribsOk, Contributions, ListSum;
    ghost var x := scores[..];
    ghost var y := Next(g, x);
    OutgoingContributions(g, scores, contrib, junk);
    error := 0.0;
    for u := 0 to g.N()
      invariant Replaced(x, y, scores[..], u) && ContribsOk(g, x, contrib[..])
      invariant error == ErrorTo(y, x, u)
    {
      error := PullVertex(g, scores, contrib, u, error, x, y);
    }
    assert scores[..] == y;
    PulledLaws(g, x, y);
  }

  lemma PulledLaws(g: Graph, x: seq<real>, y: seq<real>)
    requires g.Valid() && g.N() > 0 && |x| == g.N() && y == Next(g, x)
    ensures Transposed(g) ==> PulledFrom(g, x, y) && Total(y, g.N()) == 0.15 + 0.85 * Flowing(g, x, g.N())
    ensures forall epsilon: real :: Error(y, x) < epsilon <==> Within(y, x, epsilon)
  {
    hide Next, PulledFrom, Total, Flowing, Transposed, Within, Error;
    if Transposed(g) {
      NextIsPulled(g, x);
      TotalAfter(g, x);
    }
    forall epsilon: real ensures Error(y, x) < epsilon <==> Within(y, x, epsilon) { ErrorIsLargest(y, x, epsilon); }
  }

  // The exact scores after k iterations; it stops early at the first one that
  // moves them by less than epsilon.
  method PageRankPull(g: Graph, maxIters: int, epsilon: real, junk: real)
    returns (scores: array<real>, ghost k: nat, ghost stopped: bool)
    requires g.Valid() && g.N() > 0
    ensures fresh(scores) && scores[..] == Iterate(g, k)
    ensures k <= if maxIters > 0 then maxIters else 0
    ensures stopped ==> k > 0 && Moved(g, k) < epsilon
    ensures !stopped ==> k == if maxIters > 0 then maxIters else 0
    ensures forall i: nat | 0 < i && (if stopped then i < k else i <= k) :: Moved(g, i) >= epsilon
    ensures Transposed(g) ==> RanFor(g, scores[..], epsilon, k, stopped)
    ensures Transposed(g) && NoDeadEnds(g) ==> Total(scores[..], g.N()) == 1.0
  {
    hide Next, Error, Contributions, RanFor, Total, NoDeadEnds, Transposed, PulledFrom, Within, Flowing;
    scores := new real[g.N()](_ => 1.0 / g.N() as real);
    assert scores[..] == Iterate(g, 0);
    var contrib := new real[g.N()];
    k, stopped := 0, false;
    var iter: int := 0;
    while iter < maxIters
      invariant k == iter && 0 <= iter && (iter <= maxIters || iter == 0)
      invariant scores[..] == Iterate(g, k)
      invariant forall i: nat | 0 < i <= k :: Moved(g, i) >= epsilon
    {
      var error := PullOnce(g, scores, contrib, junk);
      k := k + 1;
      assert error == Moved(g, k);
      if error < epsilon {
        stopped := true;
        RunLaws(g, k, epsilon, stopped);
        return;
      }
      iter := iter + 1;
    }
    RunLaws(g, k, epsilon, stopped);
  }

  lemma RunLaws(g: Graph, k: nat, epsilon: real, stopped: bool)
    requires g.Valid() && g.N() > 0 && (stopped ==> k > 0 && Moved(g, k) < epsilon)
    requires forall i: nat | 0 < i && (if stopped then i < k else i <= k) :: Moved(g, i) >= epsilon
    ensures Transposed(g) ==> RanFor(g, Iterate(g, k), epsilon, k, stopped)
    ensures Transposed(g) && NoDeadEnds(g) ==> Total(Iterate(g, k), g.N()) == 1.0
  {
    hide Iterate, Moved, RanFor, Total, NoDeadEnds, Transposed;
    if Transposed(g) {
      RunsAsTold(g, k, epsilon, stopped);
      if NoDeadEnds(g) { TotalIsOne(g, k); }
    }
  }

  // ------------------------------------------------------------------ the check

  // What the vertices below n push to v.
  ghost function Pushed(g: Graph, c: seq<real>, v: nat, n: nat): real
    requires n <= |c| == g.N()
  {
    if n == 0 then 0.0 else Pushed(g, c, v, n - 1) + Mult(g.outs[n - 1], |g.outs[n - 1]|, v) as real * c[n - 1]
  }

  lemma {:induction false} PushedIsMultSum(g: Graph, c: seq<real>, v: nat, n: nat)
    requires g.Valid() && Transposed(g) && n <= |c| == g.N() && v < g.N()
    ensures Pushed(g, c, v, n) == MultSum(g.ins[v], |g.ins[v]|, c, n)
  {
    hide Mult;
    if n > 0 {
      PushedIsMultSum(g, c, v, n - 1);
      assert Mult(g.outs[n - 1], |g.outs[n - 1]|, v) == Mult(g.ins[v], |g.ins[v]|, n - 1);
    }
  }

  // Pushing along out-edges and pulling along in-edges give the same sums.
  lemma PushIsPull(g: Graph, c: seq<real>, v: nat)
    requires g.Valid() && Transposed(g) && |c| == g.N() && v < g.N()
    ensures Pushed(g, c, v, g.N()) == ListSum(g.ins[v], |g.ins[v]|, c)
  {
    PushedIsMultSum(g, c, v, g.N());
    ListSumIsMultSum(g.ins[v], |g.ins[v]|, c);
  }

  // The sums hold what the vertices below u, and the first j out-edges of u, push.
  ghost predicate SumsAre(g: Graph, c: seq<real>, sums: seq<real>, u: nat, j: nat) {
    && |sums| == |c| == g.N() && u < g.N() && j <= |g.outs[u]|
    && forall v: nat | v < g.N() :: sums[v] == Pushed(g, c, v, u) + Mult(g.outs[u], j, v) as real * c[u]
  }

  ghost predicate AllPushed(g: Graph, c: seq<real>, sums: seq<real>, u: nat) {
    |sums| == |c| == g.N() && u <= g.N() && forall v: nat | v < g.N() :: sums[v] == Pushed(g, c, v, u)
  }

  lemma PushStep(g: Graph, c: seq<real>, sums: seq<real>, u: nat, j: nat)
    requires g.Valid() && SumsAre(g, c, sums, u, j) && j < |g.outs[u]|
    ensures g.outs[u][j] < g.N() && SumsAre(g, c, sums[g.outs[u][j] := sums[g.outs[u][j]] + c[u]], u, j + 1)
  {
    var w := g.outs[u][j];
    assert w < g.N();
    var sums' := sums[w := sums[w] + c[u]];
    forall v: nat | v < g.N() ensures sums'[v] == Pushed(g, c, v, u) + Mult(g.outs[u], j + 1, v) as real * c[u] {
      if v == w { OneMoreTimes(Mult(g.outs[u], j, v), c[u]); }
    }
  }

  lemma ZeroTimes(x: real)
    ensures 0 as real * x == 0.0
  {
  }

  lemma PushBegins(g: Graph, c: seq<real>, sums: seq<real>, u: nat)
    requires AllPushed(g, c, sums, u) && u < g.N()
    ensures SumsAre(g, c, sums, u, 0)
  {
    ZeroTimes(c[u]);
  }

  lemma PushEnds(g: Graph, c: seq<real>, sums: seq<real>, u: nat)
    requires u < g.N() && SumsAre(g, c, sums, u, |g.outs[u]|)
    ensures |sums| == g.N() && AllPushed(g, c, sums, u + 1)
  {
  }

  method PushVertex(g: Graph, scores: array<real>, sums: array<real>, u: nat, junk: real)
    requires g.Valid() && scores != sums && u < scores.Length == g.N()
    requires AllPushed(g, Contributions(g, scores[..]), sums[..], u)
    modifies sums
    ensures AllPushed(g, Contributions(g, scores[..]), sums[..], u + 1)
  {
    hide SumsAre, AllPushed, Pushed, Contributions;
    ghost var c := Contributions(g, scores[..]);
    var outgoingContrib := Divide(scores[u], |g.outs[u]|, junk);
    PushBegins(g, c, sums[..], u);
    for j := 0 to |g.outs[u]|
      invariant SumsAre(g, c, sums[..], u, j)
    {
      ghost var before := sums[..];
      PushStep(g, c, before, u, j);
      assert c[u] == Contribution(g, scores[..], u) == outgoingContrib;
      var v := g.outs[u][j];
      sums[v] := sums[v] + outgoingContrib;
      assert sums[..] == before[v := before[v] + c[u]];
    }
    PushEnds(g, c, sums[..], u);
  }

  // Accepts exactly when one more iteration would move the scores by less than the target.
  method PRVerifier(g: Graph, scores: array<real>, targetError: real, junk: real) returns (ok: bool)
    requires Good(g) && scores.Length == g.N()
    ensures ok <==> Error(Next(g, scores[..]), scores[..]) < targetError
    ensures forall y | PulledFrom(g, scores[..], y) :: ok <==> Within(y, scores[..], targetError)
  {
    hide Next, Contributions, AllPushed, Error, PulledFrom, Within;
    var sums := new real[g.N()](_ => 0.0);
    ghost var x := scores[..];
    ghost var c := Contributions(g, x);
    NothingPushed(g, c, sums[..]);
    for u := 0 to g.N()
      invariant AllPushed(g, c, sums[..], u)
    {
      PushVertex(g, scores, sums, u, junk);
    }
    var error := ErrorOfSums(g, scores, sums, x);
    ok := error < targetError;
    forall y | PulledFrom(g, x, y) ensures |y| == |x| && (ok <==> Within(y, x, targetError)) {
      VerdictLaw(g, x, y, targetError);
    }
  }

  lemma NothingPushed(g: Graph, c: seq<real>, sums: seq<real>)
    requires |c| == |sums| == g.N() && forall v: nat | v < g.N() :: sums[v] == 0.0
    ensures AllPushed(g, c, sums, 0)
  {
  }

  // Sums from n on are still what was pushed.
  ghost predicate SumsFrom(g: Graph, c: seq<real>, sums: seq<real>, n: nat) {
    |sums| == |c| == g.N() && forall v: nat | n <= v < g.N() :: sums[v] == Pushed(g, c, v, g.N())
  }

  // The second loop of the check; it also clears the sums.
  method ErrorOfSums(g: Graph, scores: array<real>, sums: array<real>, ghost x: seq<real>) returns (error: real)
    requires Good(g) && scores != sums && scores[..] == x && |x| == g.N()
    requires AllPushed(g, Contributions(g, x), sums[..], g.N())
    modifies sums
    ensures error == Error(Next(g, x), x) && forall n | 0 <= n < sums.Length :: sums[n] == 0.0
  {
    hide Next, Contributions, ListSum, Pushed;
    error := 0.0;
    for n := 0 to g.N()
      invariant forall m | 0 <= m < n :: sums[m] == 0.0
      invariant SumsFrom(g, Contributions(g, x), sums[..], n)
      invariant error == ErrorTo(Next(g, x), x, n)
    {
      PushIsPull(g, Contributions(g, x), n);
      NextAt(g, x, n);
      ErrorStep(Next(g, x), x, n);
      error := error + Abs(BaseScore(g) + DAMP * sums[n] - scores[n]);
      sums[n] := 0.0;
    }
  }

  // Whenever the kernel stops because it moved by less than epsilon, the check
  // with the same tolerance accepts its scores.
  lemma StoppedIsAccepted(g: Graph, k: nat, epsilon: real)
    requires Good(g) && k > 0 && Moved(g, k) < epsilon
    ensures Error(Next(g, Iterate(g, k)), Iterate(g, k)) < epsilon
  {
    var x, y := Iterate(g, k - 1), Iterate(g, k);
    Contraction(g, y, x);
    ErrorNonNegative(y, x, g.N());
  }

  // Some iteration up to the n-th moves the scores by less than epsilon.
  ghost predicate Settles(g: Graph, n: nat, epsilon: real)
    requires g.N() == |g.ins| && g.N() > 0
  {
    exists i: nat :: 0 < i <= n && Moved(g, i) < epsilon
  }

  // Kernel and check together: accepted exactly when some iteration, or the one
  // that the check performs, moves the scores by less than epsilon.
  method RunAndCheck(g: Graph, maxIters: int, epsilon: real, junk: real, junk': real) returns (accepted: bool)
    requires Good(g)
    ensures accepted <==> Settles(g, 1 + if maxIters > 0 then maxIters else 0, epsilon)
    ensures forall xs | IsTrace(g, xs) && |xs| == 2 + (if maxIters > 0 then maxIters else 0) ::
      accepted <==> exists i: nat :: 0 < i < |xs| && MovedWithin(xs, i, epsilon)
  {
    hide Error, Next, RanFor, Total, NoDeadEnds, Transposed, PulledFrom, Within, IsTrace, MovedWithin;
    var scores, k, early := PageRankPull(g, maxIters, epsilon, junk);
    if early {
      StoppedIsAccepted(g, k, epsilon);
    }
    accepted := PRVerifier(g, scores, epsilon, junk');
    assert Iterate(g, k + 1) == Next(g, Iterate(g, k));
    assert accepted <==> Moved(g, k + 1) < epsilon;
    forall xs | IsTrace(g, xs) && |xs| == 2 + (if maxIters > 0 then maxIters else 0)
      ensures accepted <==> exists i: nat :: 0 < i < |xs| && MovedWithin(xs, i, epsilon)
    {
      SettlesInTrace(g, xs, epsilon);
    }
  }

  lemma SettlesInTrace(g: Graph, xs: seq<seq<real>>, epsilon: real)
    requires Good(g) && IsTrace(g, xs)
    ensures Settles(g, |xs| - 1, epsilon) <==> exists i: nat :: 0 < i < |xs| && MovedWithin(xs, i, epsilon)
  {
    hide Moved, MovedWithin, IsTrace;
    forall i: nat | 0 < i < |xs| ensures MovedWithin(xs, i, epsilon) <==> Moved(g, i) < epsilon {
      MovedIsWithin(g, xs, i, epsilon);
    }
  }
}
