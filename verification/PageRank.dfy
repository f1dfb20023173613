// PageRank over exact numbers: the pull iteration, its contraction, and the
// push-direction check.
module PageRank {
  import opened Components
  import opened PathCounts

  const DAMP: real := 0.85

  // In-rows are the transpose of the out-rows, parallel edges included.
  ghost predicate Transposed(g: Graph) {
    && |g.ins| == g.N()
    && forall u: nat, v: nat | u < g.N() && v < g.N() ::
      Mult(g.outs[u], |g.outs[u]|, v) == Mult(g.ins[v], |g.ins[v]|, u)
  }

  ghost predicate Good(g: Graph) { g.Valid() && Transposed(g) && g.N() > 0 }

  function Abs(x: real): (r: real)
    ensures 0.0 <= r && (r == x || r == -x)
  {
    if x < 0.0 then -x else x
  }

  function BaseScore(g: Graph): real
    requires g.N() > 0
  {
    (1.0 - DAMP) / g.N() as real
  }

  // What v passes along each of its out-edges.
  function Contribution(g: Graph, x: seq<real>, v: nat): real
    requires v < g.N() == |x|
  {
    if |g.outs[v]| == 0 then 0.0 else x[v] / |g.outs[v]| as real
  }

  function Contributions(g: Graph, x: seq<real>): (c: seq<real>)
    requires g.N() == |x|
    ensures |c| == g.N() && forall v: nat | v < g.N() :: c[v] == Contribution(g, x, v)
  {
    seq(g.N(), v requires 0 <= v < g.N() => Contribution(g, x, v))
  }

  // Sum of c over the first k entries of the row.
  function ListSum(row: seq<nat>, k: nat, c: seq<real>): real
    requires k <= |row|
  {
    if k == 0 then 0.0 else ListSum(row, k - 1, c) + if row[k - 1] < |c| then c[row[k - 1]] else 0.0
  }

  // One exact iteration.
  function Next(g: Graph, x: seq<real>): (y: seq<real>)
    requires g.N() == |x| == |g.ins| && g.N() > 0
    ensures |y| == g.N()
  {
    seq(g.N(), u requires 0 <= u < g.N() => BaseScore(g) + DAMP * ListSum(g.ins[u], |g.ins[u]|, Contributions(g, x)))
  }

  function InitialScores(g: Graph): (x: seq<real>)
    requires g.N() > 0
    ensures |x| == g.N()
  {
    seq(g.N(), _ => 1.0 / g.N() as real)
  }

  function Iterate(g: Graph, k: nat): (x: seq<real>)
    requires g.N() == |g.ins| && g.N() > 0
    ensures |x| == g.N()
  {
    if k == 0 then InitialScores(g) else Next(g, Iterate(g, k - 1))
  }

  // Total absolute difference over the first n vertices.
  function ErrorTo(a: seq<real>, b: seq<real>, n: nat): real
    requires n <= |a| && n <= |b|
  {
    if n == 0 then 0.0 else ErrorTo(a, b, n - 1) + Abs(a[n - 1] - b[n - 1])
  }

  function Error(a: seq<real>, b: seq<real>): real
    requires |a| == |b|
  {
    ErrorTo(a, b, |a|)
  }

  // ------------------------------------------------------- sums by multiplicity

  ghost function MultSum(row: seq<nat>, k: nat, c: seq<real>, n: nat): real
    requires k <= |row| && n <= |c|
  {
    if n == 0 then 0.0 else MultSum(row, k, c, n - 1) + Mult(row, k, n - 1) as real * c[n - 1]
  }

  lemma {:induction false} MultSumNone(row: seq<nat>, c: seq<real>, n: nat)
    requires n <= |c|
    ensures MultSum(row, 0, c, n) == 0.0
  {
    if n > 0 { MultSumNone(row, c, n - 1); }
  }

  lemma OneMoreTimes(m: nat, x: real)
    ensures (m + 1) as real * x == m as real * x + x
  {
    assert (m + 1) as real == m as real + 1.0;
  }

  lemma TermStep(a: real, b: real, extra: real, m: nat, m': nat, x: real, hit: bool)
    requires a == b + extra && m' == m + if hit then 1 else 0
    ensures a + m' as real * x == (b + m as real * x) + extra + if hit then x else 0.0
  {
    OneMoreTimes(m, x);
  }

  lemma MultNext(row: seq<nat>, k: nat, v: nat)
    requires 0 < k <= |row|
    ensures Mult(row, k, v) == Mult(row, k - 1, v) + if row[k - 1] == v then 1 else 0
  {
  }

  lemma {:induction false} MultSumStep(row: seq<nat>, k: nat, c: seq<real>, n: nat)
    requires 0 < k <= |row| && n <= |c|
    ensures MultSum(row, k, c, n) == MultSum(row, k - 1, c, n) + if row[k - 1] < n then c[row[k - 1]] else 0.0
  {
    hide Mult;
    if n > 0 {
      MultSumStep(row, k, c, n - 1);
      MultNext(row, k, n - 1);
      TermStep(MultSum(row, k, c, n - 1), MultSum(row, k - 1, c, n - 1), if row[k - 1] < n - 1 then c[row[k - 1]]
               else 0.0, Mult(row, k - 1, n - 1), Mult(row, k, n - 1), c[n - 1], row[k - 1] == n - 1);
    }
  }

  lemma {:induction false} ListSumIsMultSum(row: seq<nat>, k: nat, c: seq<real>)
    requires k <= |row|
    ensures ListSum(row, k, c) == MultSum(row, k, c, |c|)
  {
    if k == 0 {
      MultSumNone(row, c, |c|);
    } else {
      ListSumIsMultSum(row, k - 1, c);
      MultSumStep(row, k, c, |c|);
    }
  }

  // How often v is listed in the first m in-rows.
  ghost function ColumnMult(g: Graph, m: nat, v: nat): nat
    requires m <= |g.ins|
  {
    if m == 0 then 0 else ColumnMult(g, m - 1, v) + Mult(g.ins[m - 1], |g.ins[m - 1]|, v)
  }

  ghost function RowMults(row: seq<nat>, k: nat, n: nat): nat
    requires k <= |row|
  {
    if n == 0 then 0 else RowMults(row, k, n - 1) + Mult(row, k, n - 1)
  }

  lemma {:induction false} RowMultsStep(row: seq<nat>, k: nat, n: nat)
    requires 0 < k <= |row|
    ensures RowMults(row, k, n) == RowMults(row, k - 1, n) + if row[k - 1] < n then 1 else 0
  {
    if n > 0 { RowMultsStep(row, k, n - 1); }
  }

  lemma {:induction false} RowMultsNone(row: seq<nat>, n: nat)
    ensures RowMults(row, 0, n) == 0
  {
    if n > 0 { RowMultsNone(row, n - 1); }
  }

  lemma {:induction false} RowMultsAll(row: seq<nat>, k: nat, n: nat)
    requires k <= |row| && forall j | 0 <= j < k :: row[j] < n
    ensures RowMults(row, k, n) == k
  {
    if k == 0 {
      RowMultsNone(row, n);
    } else {
      RowMultsAll(row, k - 1, n);
      RowMultsStep(row, k, n);
    }
  }

  lemma {:induction false} ColumnIsRow(g: Graph, m: nat, v: nat)
    requires g.Valid() && Transposed(g) && m <= g.N() && v < g.N()
    ensures ColumnMult(g, m, v) == RowMults(g.outs[v], |g.outs[v]|, m)
  {
    if m > 0 {
      ColumnIsRow(g, m - 1, v);
      assert Mult(g.outs[v], |g.outs[v]|, m - 1) == Mult(g.ins[m - 1], |g.ins[m - 1]|, v);
    }
  }

  // A vertex is listed by its out-neighbours exactly once per out-edge.
  lemma ListedOncePerEdge(g: Graph, v: nat)
    requires g.Valid() && Transposed(g) && v < g.N()
    ensures ColumnMult(g, g.N(), v) == |g.outs[v]|
  {
    ColumnIsRow(g, g.N(), v);
    RowMultsAll(g.outs[v], |g.outs[v]|, g.N());
  }

  // The in-sums of the first m vertices, added up.
  ghost function Received(g: Graph, c: seq<real>, m: nat): real
    requires m <= |g.ins|
  {
    if m == 0 then 0.0 else Received(g, c, m - 1) + ListSum(g.ins[m - 1], |g.ins[m - 1]|, c)
  }

  ghost function SentTo(g: Graph, c: seq<real>, m: nat, n: nat): real
    requires m <= |g.ins| && n <= |c|
  {
    if n == 0 then 0.0 else SentTo(g, c, m, n - 1) + ColumnMult(g, m, n - 1) as real * c[n - 1]
  }

  lemma {:induction false} SentToNobody(g: Graph, c: seq<real>, n: nat)
    requires n <= |c|
    ensures SentTo(g, c, 0, n) == 0.0
  {
    if n > 0 { SentToNobody(g, c, n - 1); }
  }

  lemma SumTimes(a: nat, b: nat, x: real)
    ensures (a + b) as real * x == a as real * x + b as real * x
  {
    assert (a + b) as real == a as real + b as real;
  }

  lemma {:induction false} SentToStep(g: Graph, c: seq<real>, m: nat, n: nat)
    requires 0 < m <= |g.ins| && n <= |c|
    ensures SentTo(g, c, m, n) == SentTo(g, c, m - 1, n) + MultSum(g.ins[m - 1], |g.ins[m - 1]|, c, n)
  {
    if n > 0 {
      SentToStep(g, c, m, n - 1);
      SumTimes(ColumnMult(g, m - 1, n - 1), Mult(g.ins[m - 1], |g.ins[m - 1]|, n - 1), c[n - 1]);
    }
  }

  lemma {:induction false} ReceivedIsSent(g: Graph, c: seq<real>, m: nat)
    requires m <= |g.ins|
    ensures Received(g, c, m) == SentTo(g, c, m, |c|)
  {
    if m == 0 {
      SentToNobody(g, c, |c|);
    } else {
      ReceivedIsSent(g, c, m - 1);
      ListSumIsMultSum(g.ins[m - 1], |g.ins[m - 1]|, c);
      SentToStep(g, c, m, |c|);
    }
  }

  // Sum of the first n entries, leaving out vertices without out-edges.
  ghost function Flowing(g: Graph, x: seq<real>, n: nat): real
    requires n <= |x| == g.N()
  {
    if n == 0 then 0.0 else Flowing(g, x, n - 1) + if |g.outs[n - 1]| == 0 then 0.0 else x[n - 1]
  }

  lemma TimesShare(d: nat, x: real)
    requires d > 0
    ensures d as real * (x / d as real) == x
  {
  }

  lemma OneSender(g: Graph, x: seq<real>, v: nat)
    requires g.Valid() && Transposed(g) && v < |x| == g.N()
    ensures ColumnMult(g, g.N(), v) as real * Contribution(g, x, v) == if |g.outs[v]| == 0 then 0.0 else x[v]
  {
    hide Transposed, ColumnMult;
    ListedOncePerEdge(g, v);
    var d := |g.outs[v]|;
    assert ColumnMult(g, g.N(), v) == d;
    if d > 0 {
      TimesShare(d, x[v]);
      assert Contribution(g, x, v) == x[v] / d as real;
    }
  }

  lemma {:induction false} SentIsFlow(g: Graph, x: seq<real>, n: nat)
    requires g.Valid() && Transposed(g) && n <= |x| == g.N()
    ensures SentTo(g, Contributions(g, x), g.N(), n) == Flowing(g, x, n)
  {
    hide Transposed, Contribution, ColumnMult;
    if n > 0 {
      SentIsFlow(g, x, n - 1);
      OneSender(g, x, n - 1);
      assert Contributions(g, x)[n - 1] == Contribution(g, x, n - 1);
    }
  }

  // All that is received is what the vertices with out-edges had.
  lemma FlowIsConserved(g: Graph, x: seq<real>)
    requires g.Valid() && Transposed(g) && |x| == g.N()
    ensures Received(g, Contributions(g, x), g.N()) == Flowing(g, x, g.N())
  {
    ReceivedIsSent(g, Contributions(g, x), g.N());
    SentIsFlow(g, x, g.N());
  }

  // --------------------------------------------------------------- contraction

  // Absolute differences.
  ghost function Diff(a: seq<real>, b: seq<real>): (d: seq<real>)
    requires |a| == |b|
    ensures |d| == |a| && forall i | 0 <= i < |a| :: d[i] == Abs(a[i] - b[i])
  {
    seq(|a|, i requires 0 <= i < |a| => Abs(a[i] - b[i]))
  }

  lemma AbsSum(p: real, q: real, x: real, y: real)
    ensures Abs((p + q) - (x + y)) <= Abs(p - x) + Abs(q - y)
  {
  }

  lemma AbsShare(x: real, y: real, d: nat)
    requires d > 0
    ensures Abs(x / d as real - y / d as real) == Abs(x - y) / d as real
  {
    var r := d as real;
    assert x / r - y / r == (x - y) / r;
    assert (-(x - y)) / r == -((x - y) / r);
    if x - y < 0.0 { NegativeShare(x - y, r); }
  }

  lemma NegativeShare(x: real, r: real)
    requires r > 0.0
    ensures x < 0.0 <==> x / r < 0.0
  {
    assert (x / r) * r == x;
  }

  lemma ContributionDiff(g: Graph, a: seq<real>, b: seq<real>, v: nat)
    requires |a| == |b| == g.N() && v < g.N()
    ensures Abs(Contribution(g, a, v) - Contribution(g, b, v)) == Contribution(g, Diff(a, b), v)
  {
    if |g.outs[v]| > 0 {
      AbsShare(a[v], b[v], |g.outs[v]|);
      NegativeShare(a[v] - b[v], |g.outs[v]| as real);
    }
  }

  lemma {:induction false} ListSumDiff(g: Graph, row: seq<nat>, k: nat, a: seq<real>, b: seq<real>)
    requires |a| == |b| == g.N() && k <= |row|
    ensures Abs(ListSum(row, k, Contributions(g, a)) - ListSum(row, k, Contributions(g, b)))
      <= ListSum(row, k, Contributions(g, Diff(a, b)))
  {
    if k > 0 {
      ListSumDiff(g, row, k - 1, a, b);
      var v := row[k - 1];
      if v < g.N() {
        ContributionDiff(g, a, b, v);
        AbsSum(ListSum(row, k - 1, Contributions(g, a)), Contribution(g, a, v),
               ListSum(row, k - 1, Contributions(g, b)), Contribution(g, b, v));
      }
    }
  }

  lemma Damped(p: real, q: real, base: real)
    ensures Abs((base + DAMP * p) - (base + DAMP * q)) == DAMP * Abs(p - q)
  {
  }

  lemma OneError(g: Graph, a: seq<real>, b: seq<real>, u: nat)
    requires g.N() == |g.ins| && g.N() > 0 && |a| == |b| == g.N() && u < g.N()
    ensures Abs(Next(g, a)[u] - Next(g, b)[u]) <= DAMP * ListSum(g.ins[u], |g.ins[u]|, Contributions(g, Diff(a, b)))
  {
    var row := g.ins[u];
    ListSumDiff(g, row, |row|, a, b);
    Damped(ListSum(row, |row|, Contributions(g, a)), ListSum(row, |row|, Contributions(g, b)), BaseScore(g));
  }

  lemma {:induction false} ErrorOfNext(g: Graph, a: seq<real>, b: seq<real>, m: nat)
    requires g.N() == |g.ins| && g.N() > 0 && |a| == |b| == g.N() && m <= g.N()
    ensures ErrorTo(Next(g, a), Next(g, b), m) <= DAMP * Received(g, Contributions(g, Diff(a, b)), m)
  {
    hide Next, Contributions, ListSum;
    if m > 0 {
      ErrorOfNext(g, a, b, m - 1);
      OneError(g, a, b, m - 1);
    }
  }

  lemma {:induction false} FlowAtMost(g: Graph, a: seq<real>, b: seq<real>, n: nat)
    requires |a| == |b| == g.N() && n <= g.N()
    ensures Flowing(g, Diff(a, b), n) <= ErrorTo(a, b, n)
  {
    if n > 0 { FlowAtMost(g, a, b, n - 1); }
  }

  // One iteration brings any two score vectors closer by the damping factor.
  lemma Contraction(g: Graph, a: seq<real>, b: seq<real>)
    requires Good(g) && |a| == |b| == g.N()
    ensures Error(Next(g, a), Next(g, b)) <= DAMP * Error(a, b)
  {
    ErrorOfNext(g, a, b, g.N());
    FlowIsConserved(g, Diff(a, b));
    FlowAtMost(g, a, b, g.N());
  }

  lemma {:induction false} ErrorNonNegative(a: seq<real>, b: seq<real>, n: nat)
    requires n <= |a| && n <= |b|
    ensures ErrorTo(a, b, n) >= 0.0
  {
    if n > 0 { ErrorNonNegative(a, b, n - 1); }
  }

  lemma {:induction false} ErrorSymmetric(a: seq<real>, b: seq<real>, n: nat)
    requires n <= |a| && n <= |b|
    ensures ErrorTo(a, b, n) == ErrorTo(b, a, n)
  {
    if n > 0 { ErrorSymmetric(a, b, n - 1); }
  }

  ghost function Power(k: nat): real { if k == 0 then 1.0 else DAMP * Power(k - 1) }

  lemma Chain(e1: real, e0: real, power: real, start: real)
    requires e1 <= DAMP * e0 && e0 <= power * start
    ensures e1 <= (DAMP * power) * start
  {
    assert (DAMP * power) * start == DAMP * (power * start);
  }

  // How much iteration i moves the scores.
  function Moved(g: Graph, i: nat): real
    requires g.N() == |g.ins| && g.N() > 0 && i > 0
  {
    Error(Iterate(g, i), Iterate(g, i - 1))
  }

  // Every iteration moves the scores by at most 0.85 times the one before.
  lemma MovesShrink(g: Graph, i: nat)
    requires Good(g) && i > 0
    ensures Moved(g, i + 1) <= DAMP * Moved(g, i)
  {
    hide Error, Next, InitialScores;
    Contraction(g, Iterate(g, i), Iterate(g, i - 1));
    assert Iterate(g, i + 1) == Next(g, Iterate(g, i));
    assert Iterate(g, i) == Next(g, Iterate(g, i - 1));
  }

  lemma {:induction false} MovesGeometric(g: Graph, i: nat)
    requires Good(g) && i > 0
    ensures Moved(g, i) <= Power(i - 1) * Moved(g, 1)
  {
    hide Moved;
    if i > 1 {
      MovesGeometric(g, i - 1);
      MovesShrink(g, i - 1);
      Chain(Moved(g, i), Moved(g, i - 1), Power(i - 2), Moved(g, 1));
    }
  }

  lemma {:induction false} TriangleInequality(a: seq<real>, b: seq<real>, c: seq<real>, n: nat)
    requires n <= |a| && n <= |b| && n <= |c|
    ensures ErrorTo(a, c, n) <= ErrorTo(a, b, n) + ErrorTo(b, c, n)
  {
    if n > 0 { TriangleInequality(a, b, c, n - 1); }
  }

  lemma {:induction false} ErrorOfNothing(a: seq<real>, n: nat)
    requires n <= |a|
    ensures ErrorTo(a, a, n) == 0.0
  {
    if n > 0 { ErrorOfNothing(a, n - 1); }
  }

  lemma NoDistance(a: seq<real>)
    ensures Error(a, a) == 0.0
  {
    ErrorOfNothing(a, |a|);
  }

  // One more term of the geometric sum.
  lemma OneMoreMove(e: real, move: real, p0: real, pm: real, start: real)
    requires (1.0 - DAMP) * e <= (p0 - pm) * start && move <= pm * start
    ensures (1.0 - DAMP) * (move + e) <= (p0 - DAMP * pm) * start
  {
    assert (p0 - DAMP * pm) * start == (p0 - pm) * start + (1.0 - DAMP) * (pm * start);
  }

  lemma OneMoveOn(g: Graph, k: nat, j: nat)
    requires g.N() == |g.ins| && g.N() > 0
    ensures Error(Iterate(g, j + 1), Iterate(g, k)) <= Moved(g, j + 1) + Error(Iterate(g, j), Iterate(g, k))
  {
    hide Iterate;
    TriangleInequality(Iterate(g, j + 1), Iterate(g, j), Iterate(g, k), g.N());
  }

  lemma PowerNext(j: nat)
    ensures Power(j + 1) == DAMP * Power(j)
  {
  }

  // The iterates are a Cauchy sequence, whether or not a fixpoint is known: no
  // later iterate is farther away than a geometric bound.
  lemma {:induction false} LaterIteratesAreNear(g: Graph, k: nat, m: nat)
    requires Good(g)
    ensures (1.0 - DAMP) * Error(Iterate(g, k + m), Iterate(g, k)) <= (Power(k) - Power(k + m)) * Moved(g, 1)
  {
    hide Iterate, Error, Moved, Power;
    if m == 0 {
      NoDistance(Iterate(g, k));
    } else {
      var j := k + m - 1;
      LaterIteratesAreNear(g, k, m - 1);
      MovesGeometric(g, j + 1);
      OneMoveOn(g, k, j);
      PowerNext(j);
      OneMoreMove(Error(Iterate(g, j), Iterate(g, k)), Moved(g, j + 1), Power(k), Power(j), Moved(g, 1));
    }
  }

  lemma {:induction false} PowerBound(k: nat)
    ensures Power(k) > 0.0 && Power(k) * (1.0 + k as real * 0.15) <= 1.0
  {
    if k > 0 {
      PowerBound(k - 1);
      var p, t := Power(k - 1), (k - 1) as real * 0.15;
      assert DAMP * (p * (1.0 + t + 0.15)) == DAMP * (p * (1.0 + t)) + DAMP * 0.15 * p;
      assert k as real * 0.15 == t + 0.15;
      PowerStep(p, t);
    }
  }

  lemma PowerStep(p: real, t: real)
    requires p > 0.0 && t >= 0.0 && p * (1.0 + t) <= 1.0
    ensures (DAMP * p) * (1.0 + t + 0.15) <= 1.0
  {
    assert DAMP * (1.0 + t + 0.15) <= 1.0 + t;
    var slack := (1.0 + t) - DAMP * (1.0 + t + 0.15);
    assert p * slack >= 0.0;
    assert (DAMP * p) * (1.0 + t + 0.15) == p * (1.0 + t) - p * slack;
  }

  // For every positive tolerance some iteration moves the scores by less, so with
  // enough iterations allowed the kernel always stops early.
  lemma SomeMoveIsSmall(g: Graph, epsilon: real)
    requires Good(g) && epsilon > 0.0
    ensures exists i: nat :: i > 0 && Moved(g, i) < epsilon
  {
    hide Moved;
    var start := Moved(g, 1);
    var k: int := if start <= 0.0 then 1 else (start / (epsilon * 0.15)).Floor + 1;
    if start > 0.0 {
      assert start / (epsilon * 0.15) > 0.0;
    }
    assert k > 0;
    MovesGeometric(g, k + 1);
    PowerBound(k);
    SmallEnough(Power(k), k, start, epsilon);
    assert Moved(g, k + 1) < epsilon;
  }

  lemma SmallEnough(p: real, k: nat, start: real, epsilon: real)
    requires p > 0.0 && p * (1.0 + k as real * 0.15) <= 1.0 && epsilon > 0.0
    requires start <= 0.0 || k == (start / (epsilon * 0.15)).Floor + 1
    ensures p * start < epsilon
  {
    if start <= 0.0 {
      assert p * start <= 0.0;
    } else {
      var q, unit := start / (epsilon * 0.15), epsilon * 0.15;
      assert q * unit == start;
      assert q < k as real;
      TimesKeepsOrder(q, k as real, unit);
      assert start < k as real * unit;
      ProductBelow(p, start, epsilon, k as real * 0.15);
    }
  }

  lemma TimesKeepsOrder(a: real, b: real, unit: real)
    requires a < b && unit > 0.0
    ensures a * unit < b * unit
  {
  }

  lemma ProductBelow(p: real, start: real, epsilon: real, t: real)
    requires p > 0.0 && t >= 0.0 && p * (1.0 + t) <= 1.0 && start < t * epsilon && epsilon > 0.0
    ensures p * start < epsilon
  {
    TimesKeepsOrder(start, t * epsilon, p);
    assert (t * epsilon) * p == (p * t) * epsilon;
    assert p * (1.0 + t) == p + p * t;
    TimesKeepsOrder(p * t, 1.0, epsilon);
  }

  // The iterates close in on any fixpoint geometrically.
  lemma {:induction false} Convergence(g: Graph, p: seq<real>, k: nat)
    requires Good(g) && |p| == g.N() && Next(g, p) == p
    ensures Error(Iterate(g, k), p) <= Power(k) * Error(InitialScores(g), p)
  {
    hide Next, Error, InitialScores;
    if k > 0 {
      Convergence(g, p, k - 1);
      Contraction(g, Iterate(g, k - 1), p);
      Chain(Error(Iterate(g, k), p), Error(Iterate(g, k - 1), p), Power(k - 1), Error(InitialScores(g), p));
    }
  }

  lemma {:induction false} NoErrorIsEqual(a: seq<real>, b: seq<real>, n: nat)
    requires n <= |a| && n <= |b| && ErrorTo(a, b, n) <= 0.0
    ensures forall i | 0 <= i < n :: a[i] == b[i]
  {
    if n > 0 {
      ErrorNonNegative(a, b, n - 1);
      NoErrorIsEqual(a, b, n - 1);
    }
  }

  // There is at most one fixpoint.
  lemma FixpointUnique(g: Graph, p: seq<real>, q: seq<real>)
    requires Good(g) && |p| == |q| == g.N() && Next(g, p) == p && Next(g, q) == q
    ensures p == q
  {
    Contraction(g, p, q);
    NoErrorIsEqual(p, q, g.N());
  }
}
