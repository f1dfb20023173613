module PageRankLaws {
  // What an iteration of PageRank does to the numbers, said without the functions
  // that compute it: by out-degrees, multiplicities and the two constants, and
  // distances by sums of signed differences.

  import opened Components
  import opened PathCounts
  import opened PageRank

  // ------------------------------------------------------------ one iteration

  // What v sends to u: its score divided by its out-degree, once for every edge to u.
  ghost function Sends(g: Graph, x: seq<real>, u: nat, v: nat): real
    requires v < |x| == g.N()
  {
    var row := g.outs[v];
    if row == [] then 0.0 else multiset(row)[u] as real * (x[v] / |row| as real)
  }

  // What u receives from the vertices below n.
  ghost function Inflow(g: Graph, x: seq<real>, u: nat, n: nat): real
    requires n <= |x| == g.N()
  {
    if n == 0 then 0.0 else Inflow(g, x, u, n - 1) + Sends(g, x, u, n - 1)
  }

  // Every vertex has 0.15 / N, and 0.85 of what it receives.
  ghost predicate PulledFrom(g: Graph, x: seq<real>, y: seq<real>) {
    && |x| == |y| == g.N()
    && forall u: nat | u < g.N() :: g.N() as real * (y[u] - 0.85 * Inflow(g, x, u, g.N())) == 0.15
  }

  lemma {:induction false} MultIsMultiplicity(row: seq<nat>, k: nat, v: nat)
    requires k <= |row|
    ensures Mult(row, k, v) == multiset(row[..k])[v]
  {
    if k > 0 {
      MultIsMultiplicity(row, k - 1, v);
      assert row[..k] == row[..k - 1] + [row[k - 1]];
    }
  }

  lemma NoMultiple(m: nat)
    ensures m as real * 0.0 == 0.0
  {
  }

  lemma SameMultiplicity(g: Graph, u: nat, v: nat)
    requires g.Valid() && Transposed(g) && u < g.N() && v < g.N()
    ensures Mult(g.ins[u], |g.ins[u]|, v) == multiset(g.outs[v])[u]
  {
    hide Mult;
    var row := g.outs[v];
    MultIsMultiplicity(row, |row|, u);
    assert row[..|row|] == row;
    assert Mult(row, |row|, u) == Mult(g.ins[u], |g.ins[u]|, v);
  }

  lemma InflowTerm(g: Graph, x: seq<real>, u: nat, v: nat)
    requires g.Valid() && Transposed(g) && u < g.N() && v < g.N() == |x|
    ensures Mult(g.ins[u], |g.ins[u]|, v) as real * Contribution(g, x, v) == Sends(g, x, u, v)
  {
    hide Mult, Transposed;
    SameMultiplicity(g, u, v);
    NoMultiple(multiset(g.outs[v])[u]);
  }

  lemma {:induction false} InflowIsMultSum(g: Graph, x: seq<real>, u: nat, n: nat)
    requires g.Valid() && Transposed(g) && u < g.N() && n <= |x| == g.N()
    ensures Inflow(g, x, u, n) == MultSum(g.ins[u], |g.ins[u]|, Contributions(g, x), n)
  {
    hide Mult, Transposed, Contribution, Sends;
    if n > 0 {
      InflowIsMultSum(g, x, u, n - 1);
      InflowTerm(g, x, u, n - 1);
    }
  }

  lemma Scaled(n: nat, base: real, s: real)
    requires n as real * base == 0.15
    ensures n as real * ((base + 0.85 * s) - 0.85 * s) == 0.15
  {
  }

  lemma BaseIsShare(g: Graph)
    requires g.N() > 0
    ensures g.N() as real * BaseScore(g) == 0.15
  {
    TimesShare(g.N(), 1.0 - DAMP);
  }

  lemma NextIsPulled(g: Graph, x: seq<real>)
    requires Good(g) && |x| == g.N()
    ensures PulledFrom(g, x, Next(g, x))
  {
    hide Transposed, BaseScore, Contributions, ListSum, Inflow;
    var y := Next(g, x);
    BaseIsShare(g);
    forall u: nat | u < g.N() ensures g.N() as real * (y[u] - 0.85 * Inflow(g, x, u, g.N())) == 0.15 {
      InflowIsMultSum(g, x, u, g.N());
      ListSumIsMultSum(g.ins[u], |g.ins[u]|, Contributions(g, x));
      Scaled(g.N(), BaseScore(g), Inflow(g, x, u, g.N()));
    }
  }

  lemma SameFactor(n: nat, a: real, b: real)
    requires n > 0 && n as real * a == n as real * b
    ensures a == b
  {
  }

  // Nothing else satisfies it.
  lemma PulledUnique(g: Graph, x: seq<real>, y: seq<real>, z: seq<real>)
    requires PulledFrom(g, x, y) && PulledFrom(g, x, z)
    ensures y == z
  {
    hide Inflow;
    forall u: nat | u < g.N() ensures y[u] == z[u] {
      var s := 0.85 * Inflow(g, x, u, g.N());
      SameFactor(g.N(), y[u] - s, z[u] - s);
    }
  }

  // ------------------------------------------------------------------- totals

  ghost function Total(x: seq<real>, n: nat): real
    requires n <= |x|
  {
    if n == 0 then 0.0 else Total(x, n - 1) + x[n - 1]
  }

  lemma {:induction false} TotalTo(g: Graph, x: seq<real>, n: nat)
    requires g.N() == |x| == |g.ins| && n <= g.N() && g.N() > 0
    ensures Total(Next(g, x), n) == n as real * BaseScore(g) + 0.85 * Received(g, Contributions(g, x), n)
  {
    hide BaseScore, Contributions, ListSum;
    if n > 0 {
      TotalTo(g, x, n - 1);
      OneMoreTimes(n - 1, BaseScore(g));
    } else {
      assert 0 as real * BaseScore(g) == 0.0;
    }
  }

  // After an iteration the total is 0.15 and 0.85 of what vertices with out-edges had.
  lemma TotalAfter(g: Graph, x: seq<real>)
    requires Good(g) && |x| == g.N()
    ensures Total(Next(g, x), g.N()) == 0.15 + 0.85 * Flowing(g, x, g.N())
  {
    hide BaseScore, Contributions, Received, Flowing, Transposed;
    TotalTo(g, x, g.N());
    BaseIsShare(g);
    FlowIsConserved(g, x);
  }

  ghost predicate NoDeadEnds(g: Graph) { forall v: nat | v < g.N() :: g.outs[v] != [] }

  lemma {:induction false} AllFlows(g: Graph, x: seq<real>, n: nat)
    requires NoDeadEnds(g) && n <= |x| == g.N()
    ensures Flowing(g, x, n) == Total(x, n)
  {
    if n > 0 { AllFlows(g, x, n - 1); }
  }

  lemma {:induction false} EqualShares(x: seq<real>, share: real, n: nat)
    requires n <= |x| && forall i | 0 <= i < |x| :: x[i] == share
    ensures Total(x, n) == n as real * share
  {
    if n > 0 {
      EqualShares(x, share, n - 1);
      OneMoreTimes(n - 1, share);
    }
  }

  // Without dead ends nothing is gained or lost.
  lemma {:induction false} TotalIsOne(g: Graph, k: nat)
    requires Good(g) && NoDeadEnds(g)
    ensures Total(Iterate(g, k), g.N()) == 1.0
  {
    hide Next, Flowing, Total, NoDeadEnds, Transposed;
    if k == 0 {
      EqualShares(Iterate(g, 0), 1.0 / g.N() as real, g.N());
      TimesShare(g.N(), 1.0);
    } else {
      TotalIsOne(g, k - 1);
      TotalAfter(g, Iterate(g, k - 1));
      AllFlows(g, Iterate(g, k - 1), g.N());
    }
  }

  // ---------------------------------------------------------------- distances

  // Differences added up with the signs s.
  ghost function Signed(a: seq<real>, b: seq<real>, s: seq<bool>, n: nat): real
    requires n <= |a| && n <= |b| && n <= |s|
  {
    if n == 0 then 0.0 else Signed(a, b, s, n - 1) + if s[n - 1] then a[n - 1] - b[n - 1] else b[n - 1] - a[n - 1]
  }

  lemma {:induction false} SignedAtMost(a: seq<real>, b: seq<real>, s: seq<bool>, n: nat)
    requires n <= |a| && n <= |b| && n <= |s|
    ensures Signed(a, b, s, n) <= ErrorTo(a, b, n)
  {
    if n > 0 { SignedAtMost(a, b, s, n - 1); }
  }

  lemma {:induction false} RightSigns(a: seq<real>, b: seq<real>, s: seq<bool>, n: nat)
    requires n <= |a| && n <= |b| && n <= |s| && forall i | 0 <= i < n :: s[i] <==> a[i] >= b[i]
    ensures Signed(a, b, s, n) == ErrorTo(a, b, n)
  {
    if n > 0 { RightSigns(a, b, s, n - 1); }
  }

  // However the signs are chosen, a and b differ by less than epsilon in total.
  ghost predicate Within(a: seq<real>, b: seq<real>, epsilon: real)
    requires |a| == |b|
  {
    forall s: seq<bool> | |s| == |a| :: Signed(a, b, s, |a|) < epsilon
  }

  // The error is the largest of the signed sums.
  lemma ErrorIsLargest(a: seq<real>, b: seq<real>, epsilon: real)
    requires |a| == |b|
    ensures Error(a, b) < epsilon <==> Within(a, b, epsilon)
  {
    var s := seq(|a|, i requires 0 <= i < |a| => a[i] >= b[i]);
    RightSigns(a, b, s, |a|);
    forall t: seq<bool> | |t| == |a| ensures Signed(a, b, t, |a|) <= Error(a, b) { SignedAtMost(a, b, t, |a|); }
  }

  // The error of the next scores, told by any vector that is pulled from x.
  lemma VerdictLaw(g: Graph, x: seq<real>, y: seq<real>, epsilon: real)
    requires Good(g) && PulledFrom(g, x, y)
    ensures |x| == |y| == g.N() && (Error(Next(g, x), x) < epsilon <==> Within(y, x, epsilon))
  {
    hide Next, Error, Within;
    NextIsPulled(g, x);
    PulledUnique(g, x, y, Next(g, x));
    ErrorIsLargest(y, x, epsilon);
  }

  // Where one vector lies above the other, the error is the difference of the totals.
  lemma {:induction false} ErrorAbove(a: seq<real>, b: seq<real>, n: nat)
    requires n <= |a| && n <= |b| && forall i | 0 <= i < n :: a[i] >= b[i]
    ensures ErrorTo(a, b, n) == Total(a, n) - Total(b, n) == ErrorTo(b, a, n)
  {
    if n > 0 { ErrorAbove(a, b, n - 1); }
  }

  // -------------------------------------------------------------------- traces

  // The score vectors of a run: at first 1 / N everywhere, then each is pulled
  // from the one before.
  ghost predicate IsTrace(g: Graph, xs: seq<seq<real>>) {
    && xs != [] && |xs[0]| == g.N()
    && (forall u: nat | u < g.N() :: g.N() as real * xs[0][u] == 1.0)
    && forall i: nat | i + 1 < |xs| :: PulledFrom(g, xs[i], xs[i + 1])
  }

  ghost function Iterates(g: Graph, k: nat): (xs: seq<seq<real>>)
    requires g.N() == |g.ins| && g.N() > 0
    ensures |xs| == k + 1 && forall i: nat | i <= k :: xs[i] == Iterate(g, i)
  {
    seq(k + 1, i requires 0 <= i <= k => Iterate(g, i))
  }

  lemma FirstShares(g: Graph, u: nat)
    requires u < g.N()
    ensures g.N() as real * InitialScores(g)[u] == 1.0
  {
    TimesShare(g.N(), 1.0);
  }

  lemma IteratesAreTrace(g: Graph, k: nat)
    requires Good(g)
    ensures IsTrace(g, Iterates(g, k))
  {
    hide Next, PulledFrom, Transposed, InitialScores;
    var xs := Iterates(g, k);
    assert xs[0] == InitialScores(g);
    forall u: nat | u < g.N() ensures g.N() as real * xs[0][u] == 1.0 { FirstShares(g, u); }
    forall i: nat | i + 1 < |xs| ensures PulledFrom(g, xs[i], xs[i + 1]) { NextIsPulled(g, Iterate(g, i)); }
  }

  // There is only one trace.
  lemma {:induction false} TraceIsIterates(g: Graph, xs: seq<seq<real>>, i: nat)
    requires Good(g) && IsTrace(g, xs) && i < |xs|
    ensures xs[i] == Iterate(g, i)
  {
    hide Next, PulledFrom, Transposed, InitialScores;
    if i == 0 {
      forall u: nat | u < g.N() ensures xs[0][u] == InitialScores(g)[u] {
        FirstShares(g, u);
        SameFactor(g.N(), xs[0][u], InitialScores(g)[u]);
      }
      assert xs[0] == InitialScores(g);
    } else {
      TraceIsIterates(g, xs, i - 1);
      assert PulledFrom(g, xs[i - 1], xs[i - 1 + 1]);
      NextIsPulled(g, xs[i - 1]);
      PulledUnique(g, xs[i - 1], xs[i], Next(g, xs[i - 1]));
    }
  }

  ghost predicate MovedWithin(xs: seq<seq<real>>, i: nat, epsilon: real)
    requires 0 < i < |xs|
  {
    |xs[i]| == |xs[i - 1]| && Within(xs[i], xs[i - 1], epsilon)
  }

  // The run of k iterations stopped, or not, as the tolerance asks.
  ghost predicate RanFor(g: Graph, scores: seq<real>, epsilon: real, k: nat, stopped: bool) {
    exists xs :: IsTrace(g, xs) && EndsRun(xs, scores, epsilon, k, stopped)
  }

  ghost predicate EndsRun(xs: seq<seq<real>>, scores: seq<real>, epsilon: real, k: nat, stopped: bool) {
    && |xs| == k + 1 && xs[k] == scores && (stopped ==> k > 0)
    && forall i: nat | 0 < i <= k :: MovedWithin(xs, i, epsilon) <==> i == k && stopped
  }

  lemma MovedIsWithin(g: Graph, xs: seq<seq<real>>, i: nat, epsilon: real)
    requires Good(g) && IsTrace(g, xs) && 0 < i < |xs|
    ensures MovedWithin(xs, i, epsilon) <==> Moved(g, i) < epsilon
  {
    hide Iterate, IsTrace, Error, Within;
    TraceIsIterates(g, xs, i);
    TraceIsIterates(g, xs, i - 1);
    ErrorIsLargest(xs[i], xs[i - 1], epsilon);
  }

  lemma RunsAsTold(g: Graph, k: nat, epsilon: real, stopped: bool)
    requires Good(g) && (stopped ==> k > 0 && Moved(g, k) < epsilon)
    requires forall i: nat | 0 < i && (if stopped then i < k else i <= k) :: Moved(g, i) >= epsilon
    ensures RanFor(g, Iterate(g, k), epsilon, k, stopped)
  {
    hide Iterate, Moved, IsTrace;
    var xs := Iterates(g, k);
    IteratesAreTrace(g, k);
    forall i: nat | 0 < i <= k ensures MovedWithin(xs, i, epsilon) <==> i == k && stopped {
      MovedIsWithin(g, xs, i, epsilon);
    }
    assert EndsRun(xs, Iterate(g, k), epsilon, k, stopped);
  }
}
