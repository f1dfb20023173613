module PbfsThreads {
  // One level of the search phase of betweenness centrality, under any
  // interleaving of its compare-and-swaps, bit settings and atomic additions.

  import opened Components
  import opened Layers
  import opened PathCounts
  import BfsTrees

  // Look: read the depth of the k-th neighbour.  Swap: claim it.  Check: compare
  // its depth.  Mark: set the successor bit.  Count: add the path count.
  datatype Step = Look | Swap | Check | Mark | Count

  datatype Proc = Proc(k: nat, pc: Step)

  // One process per vertex of the graph; only those of the last level move.
  datatype State = State(depths: seq<int>, counts: seq<nat>, succ: set<nat>, pushed: seq<nat>, procs: seq<Proc>)

  predicate Enabled(g: Graph, depth: seq<int>, level: nat, st: State, u: nat) {
    && u < g.N() == |depth| == |st.procs| == |st.depths| == |st.counts|
    && depth[u] == level && st.procs[u].k < |g.outs[u]| && g.outs[u][st.procs[u].k] < g.N()
  }

  function Apply(g: Graph, depth: seq<int>, level: nat, st: State, u: nat): State
    requires Enabled(g, depth, level, st, u)
  {
    var k := st.procs[u].k;
    var v := g.outs[u][k];
    match st.procs[u].pc
    case Look => st.(procs := st.procs[u := Proc(k, if st.depths[v] == -1 then Swap else Check)])
    case Swap =>
      if st.depths[v] == -1 then
        st.(depths := st.depths[v := level + 1], pushed := st.pushed + [v], procs := st.procs[u := Proc(k, Check)])
      else
        st.(procs := st.procs[u := Proc(k, Check)])
    case Check => st.(procs := st.procs[u := if st.depths[v] == level + 1 then Proc(k, Mark) else Proc(k + 1, Look)])
    case Mark => st.(succ := st.succ + {Slot(g, u, k)}, procs := st.procs[u := Proc(k, Count)])
    case Count => st.(counts := st.counts[v := st.counts[v] + st.counts[u]], procs := st.procs[u := Proc(k + 1, Look)])
  }

  function AtRest(n: nat): seq<Proc> { seq(n, _ => Proc(0, Look)) }

  predicate Finished(g: Graph, depth: seq<int>, level: nat, st: State) {
    forall u: nat | u < g.N() && u < |depth| && u < |st.procs| && depth[u] == level :: st.procs[u].k >= |g.outs[u]|
  }

  // ------------------------------------------------------------- between levels

  ghost predicate CountOk(g: Graph, s: nat, depth: seq<int>, v: nat, count: nat)
    requires v < |depth|
  {
    count == if depth[v] >= 0 then Walks(g, depth[v], s, v) else 0
  }

  ghost predicate SuccOk(g: Graph, depth: seq<int>, level: nat, succ: set<nat>, u: nat, k: nat)
    requires u < g.N() == |depth| && k < |g.outs[u]|
  {
    Slot(g, u, k) in succ <==> depth[u] < level && IsSucc(g, depth, u, k)
  }

  // Path counts are right up to the last level, and the successor bits are those
  // of the edges between the levels before it.
  ghost predicate LevelOk(g: Graph, s: nat, depth: seq<int>, level: nat, counts: seq<nat>, succ: set<nat>) {
    && Wave(g, s, depth, level) && |counts| == g.N()
    && (forall v: nat {:trigger CountOk(g, s, depth, v, counts[v])} | v < g.N() :: CountOk(g, s, depth, v, counts[v]))
    && (forall u: nat, k: nat {:trigger SuccOk(g, depth, level, succ, u, k)} | u < g.N() && k < |g.outs[u]| ::
        SuccOk(g, depth, level, succ, u, k))
  }

  // ---------------------------------------------------------------- invariant

  ghost predicate DepthOk(g: Graph, depth: seq<int>, level: nat, v: nat, d: int)
    requires g.Valid() && v < |depth| == g.N()
  {
    if depth[v] >= 0 then d == depth[v] else d == -1 || (d == level + 1 && Discovered(g, depth, level, v))
  }

  ghost predicate Seen(g: Graph, depths: seq<int>, u: nat, k: nat)
    requires u < g.N() == |depths|
  {
    forall j: nat | j < k && j < |g.outs[u]| :: g.outs[u][j] < |depths| && depths[g.outs[u][j]] >= 0
  }

  ghost predicate ProcOk(g: Graph, depth: seq<int>, level: nat, depths: seq<int>, u: nat, p: Proc)
    requires u < g.N() == |depths| == |depth|
  {
    if depth[u] != level then p == Proc(0, Look)
    else
      && Seen(g, depths, u, p.k)
      && (p.pc != Look ==> p.k < |g.outs[u]| && g.outs[u][p.k] < g.N())
      && (p.pc in {Check, Mark, Count} ==> depths[g.outs[u][p.k]] >= 0)
      && (p.pc in {Mark, Count} ==> depths[g.outs[u][p.k]] == level + 1)
  }

  // The bits that are set so far.
  ghost predicate Marked(g: Graph, depth: seq<int>, level: nat, depths: seq<int>, u: nat, p: Proc, k: nat)
    requires u < g.N() == |depth| && k < |g.outs[u]|
  {
    if depth[u] == level then
      && (k < p.k || (k == p.k && p.pc == Count))
      && g.outs[u][k] < |depths| && depths[g.outs[u][k]] == level + 1
    else depth[u] < level && IsSucc(g, depth, u, k)
  }

  ghost predicate BitOk(g: Graph, depth: seq<int>, level: nat, st: State, u: nat, k: nat)
    requires u < g.N() == |depth| == |st.procs| && k < |g.outs[u]|
  {
    Slot(g, u, k) in st.succ <==> Marked(g, depth, level, st.depths, u, st.procs[u], k)
  }

  // What v has received from the vertices below n of the last level.
  ghost function Received(g: Graph, s: nat, depth: seq<int>, level: nat, procs: seq<Proc>, v: nat, n: nat): nat
    requires n <= g.N() == |depth| == |procs|
  {
    if n == 0 then 0
    else
      var row := g.outs[n - 1];
      Received(g, s, depth, level, procs, v, n - 1)
      + if depth[n - 1] == level && procs[n - 1].k <= |row|
        then Mult(row, procs[n - 1].k, v) * Walks(g, level, s, n - 1) else 0
  }

  ghost predicate SumOk(g: Graph, s: nat, depth: seq<int>, level: nat, procs: seq<Proc>, v: nat, count: nat)
    requires v < g.N() == |depth| == |procs|
  {
    count == if depth[v] >= 0 then Walks(g, depth[v], s, v) else Received(g, s, depth, level, procs, v, g.N())
  }

  ghost predicate DepthsOk(g: Graph, s: nat, depth: seq<int>, level: nat, depths: seq<int>, pushed: seq<nat>) {
    && Wave(g, s, depth, level) && |depths| == g.N()
    && (forall v: nat {:trigger DepthOk(g, depth, level, v, depths[v])} | v < g.N() ::
        DepthOk(g, depth, level, v, depths[v]))
    && BfsTrees.ListsNew(depth, depths, pushed)
  }

  ghost predicate ProcsOk(g: Graph, depth: seq<int>, level: nat, depths: seq<int>, procs: seq<Proc>) {
    && |depths| == |depth| == |procs| == g.N()
    && forall u: nat {:trigger ProcOk(g, depth, level, depths, u, procs[u])} | u < g.N() ::
      ProcOk(g, depth, level, depths, u, procs[u])
  }

  ghost predicate BitsOk(g: Graph, depth: seq<int>, level: nat, st: State) {
    && g.N() == |depth| == |st.procs|
    && forall u: nat, k: nat {:trigger BitOk(g, depth, level, st, u, k)} | u < g.N() && k < |g.outs[u]| ::
      BitOk(g, depth, level, st, u, k)
  }

  ghost predicate SumsOk(g: Graph, s: nat, depth: seq<int>, level: nat, procs: seq<Proc>, counts: seq<nat>) {
    && g.N() == |depth| == |procs| == |counts|
    && forall v: nat {:trigger SumOk(g, s, depth, level, procs, v, counts[v])} | v < g.N() ::
      SumOk(g, s, depth, level, procs, v, counts[v])
  }

  ghost predicate Inv(g: Graph, s: nat, depth: seq<int>, level: nat, st: State) {
    && DepthsOk(g, s, depth, level, st.depths, st.pushed)
    && ProcsOk(g, depth, level, st.depths, st.procs)
    && BitsOk(g, depth, level, st)
    && SumsOk(g, s, depth, level, st.procs, st.counts)
  }

  // --------------------------------------------------------------- sums of moves

  lemma {:induction false} ReceivedElsewhere(g: Graph, s: nat, depth: seq<int>, level: nat, procs: seq<Proc>, u: nat,
                                             p: Proc, v: nat, n: nat)
    requires n <= u < g.N() == |depth| == |procs|
    ensures Received(g, s, depth, level, procs[u := p], v, n) == Received(g, s, depth, level, procs, v, n)
  {
    if n > 0 { ReceivedElsewhere(g, s, depth, level, procs, u, p, v, n - 1); }
  }

  // One more neighbour of u handled.
  lemma {:induction false} ReceivedStep(g: Graph, s: nat, depth: seq<int>, level: nat, procs: seq<Proc>, u: nat,
                                        pc: Step, v: nat, n: nat)
    requires u < n <= g.N() == |depth| == |procs| && depth[u] == level && procs[u].k < |g.outs[u]|
    ensures Received(g, s, depth, level, procs[u := Proc(procs[u].k + 1, pc)], v, n)
         == Received(g, s, depth, level, procs, v, n) + if g.outs[u][procs[u].k] == v then Walks(g, level, s, u) else 0
  {
    if u == n - 1 {
      ReceivedElsewhere(g, s, depth, level, procs, u, Proc(procs[u].k + 1, pc), v, n - 1);
      OneMore(Mult(g.outs[u], procs[u].k, v), Walks(g, level, s, u));
    } else {
      ReceivedStep(g, s, depth, level, procs, u, pc, v, n - 1);
    }
  }

  lemma OneMore(m: nat, w: nat)
    ensures (m + 1) * w == m * w + w && (m + 0) * w == m * w
  {
  }

  lemma {:induction false} ReceivedSame(g: Graph, s: nat, depth: seq<int>, level: nat, procs: seq<Proc>, u: nat,
                                        p: Proc, v: nat, n: nat)
    requires u < g.N() && n <= g.N() == |depth| == |procs| && p.k == procs[u].k
    ensures Received(g, s, depth, level, procs[u := p], v, n) == Received(g, s, depth, level, procs, v, n)
  {
    if n > 0 { ReceivedSame(g, s, depth, level, procs, u, p, v, n - 1); }
  }

  lemma SumsStay(g: Graph, s: nat, depth: seq<int>, level: nat, procs: seq<Proc>, counts: seq<nat>, u: nat, p: Proc)
    requires SumsOk(g, s, depth, level, procs, counts) && u < g.N() && p.k == procs[u].k
    ensures SumsOk(g, s, depth, level, procs[u := p], counts)
  {
    forall v: nat | v < g.N() ensures SumOk(g, s, depth, level, procs[u := p], v, counts[v]) {
      assert SumOk(g, s, depth, level, procs, v, counts[v]);
      ReceivedSame(g, s, depth, level, procs, u, p, v, g.N());
    }
  }

  lemma ProcsMove(g: Graph, depth: seq<int>, level: nat, depths: seq<int>, procs: seq<Proc>, u: nat, p: Proc)
    requires ProcsOk(g, depth, level, depths, procs) && u < g.N() && ProcOk(g, depth, level, depths, u, p)
    ensures ProcsOk(g, depth, level, depths, procs[u := p])
  {
    var procs' := procs[u := p];
    forall x: nat | x < g.N() ensures ProcOk(g, depth, level, depths, x, procs'[x]) {
      assert ProcOk(g, depth, level, depths, x, procs[x]);
    }
  }

  // A move that changes no marked bit and sets none.
  lemma BitsStay(g: Graph, depth: seq<int>, level: nat, st: State, st': State, u: nat)
    requires BitsOk(g, depth, level, st) && u < g.N() && |st'.procs| == |st.procs| && st'.succ == st.succ
    requires forall x: nat | x < g.N() && x != u :: st'.procs[x] == st.procs[x]
    requires forall x: nat, k: nat | x < g.N() && k < |g.outs[x]| ::
      Marked(g, depth, level, st'.depths, x, st'.procs[x], k) <==> Marked(g, depth, level, st.depths, x, st.procs[x], k)
    ensures BitsOk(g, depth, level, st')
  {
    forall x: nat, k: nat | x < g.N() && k < |g.outs[x]| ensures BitOk(g, depth, level, st', x, k) {
      assert BitOk(g, depth, level, st, x, k);
    }
  }

  // What the process of u knows about its current neighbour.
  lemma ProcFacts(g: Graph, s: nat, depth: seq<int>, level: nat, st: State, u: nat)
    requires Inv(g, s, depth, level, st) && Enabled(g, depth, level, st, u)
    ensures var v := g.outs[u][st.procs[u].k];
      && v < g.N() && v in g.outs[u] && ProcOk(g, depth, level, st.depths, u, st.procs[u])
      && DepthOk(g, depth, level, v, st.depths[v]) && -1 <= depth[v] <= level
  {
    assert ProcOk(g, depth, level, st.depths, u, st.procs[u]);
    var v := g.outs[u][st.procs[u].k];
    assert DepthOk(g, depth, level, v, st.depths[v]);
  }

  // ------------------------------------------------------------------- steps

  // A step that only moves the process on.
  lemma MoveStep(g: Graph, s: nat, depth: seq<int>, level: nat, st: State, u: nat, p: Proc)
    requires Inv(g, s, depth, level, st) && Enabled(g, depth, level, st, u) && ProcOk(g, depth, level, st.depths, u, p)
    requires p.k == st.procs[u].k && p.pc != Count && st.procs[u].pc != Count
    ensures Inv(g, s, depth, level, st.(procs := st.procs[u := p]))
  {
    var st' := st.(procs := st.procs[u := p]);
    ProcsMove(g, depth, level, st.depths, st.procs, u, p);
    SumsStay(g, s, depth, level, st.procs, st.counts, u, p);
    forall x: nat, k: nat | x < g.N() && k < |g.outs[x]|
      ensures Marked(g, depth, level, st'.depths, x, st'.procs[x], k) <==>
        Marked(g, depth, level, st.depths, x, st.procs[x], k) {}
    BitsStay(g, depth, level, st, st', u);
  }

  lemma ClaimDepths(g: Graph, s: nat, depth: seq<int>, level: nat, depths: seq<int>, pushed: seq<nat>, u: nat, v: nat)
    requires DepthsOk(g, s, depth, level, depths, pushed) && u < g.N() && v < g.N() && depth[u] == level
      && v in g.outs[u] && depths[v] == -1
    ensures DepthsOk(g, s, depth, level, depths[v := level + 1], pushed + [v])
  {
    assert DepthOk(g, depth, level, v, depths[v]);
    assert Discovered(g, depth, level, v);
    var depths' := depths[v := level + 1];
    forall x: nat | x < g.N() ensures DepthOk(g, depth, level, x, depths'[x]) {
      assert DepthOk(g, depth, level, x, depths[x]);
    }
    assert v !in pushed;
    forall x: nat ensures x in pushed + [v] <==> x < |depth| && depth[x] == -1 && depths'[x] >= 0 {
      assert x in pushed + [v] <==> x in pushed || x == v;
    }
    forall i | 0 <= i < |pushed| ensures pushed[i] != v { assert pushed[i] in pushed; }
  }

  lemma ClaimProc(g: Graph, depth: seq<int>, level: nat, depths: seq<int>, x: nat, p: Proc, v: nat)
    requires x < g.N() == |depths| == |depth| && v < g.N() && depths[v] == -1 && ProcOk(g, depth, level, depths, x, p)
    ensures ProcOk(g, depth, level, depths[v := level + 1], x, p)
    ensures forall k: nat | k < |g.outs[x]| ::
      Marked(g, depth, level, depths[v := level + 1], x, p, k) <==> Marked(g, depth, level, depths, x, p, k)
  {
  }

  lemma ClaimStep(g: Graph, s: nat, depth: seq<int>, level: nat, st: State, u: nat)
    requires Inv(g, s, depth, level, st) && Enabled(g, depth, level, st, u) && st.procs[u].pc == Swap
    requires st.depths[g.outs[u][st.procs[u].k]] == -1
    ensures Inv(g, s, depth, level, Apply(g, depth, level, st, u))
  {
    var k := st.procs[u].k;
    var v := g.outs[u][k];
    ProcFacts(g, s, depth, level, st, u);
    ClaimDepths(g, s, depth, level, st.depths, st.pushed, u, v);
    var mid := State(st.depths[v := level + 1], st.counts, st.succ, st.pushed + [v], st.procs);
    forall x: nat | x < g.N() ensures ProcOk(g, depth, level, mid.depths, x, mid.procs[x]) {
      assert ProcOk(g, depth, level, st.depths, x, st.procs[x]);
      ClaimProc(g, depth, level, st.depths, x, st.procs[x], v);
    }
    forall x: nat, j: nat | x < g.N() && j < |g.outs[x]|
      ensures Marked(g, depth, level, mid.depths, x, mid.procs[x], j) <==>
        Marked(g, depth, level, st.depths, x, st.procs[x], j)
    {
      assert ProcOk(g, depth, level, st.depths, x, st.procs[x]);
      ClaimProc(g, depth, level, st.depths, x, st.procs[x], v);
    }
    BitsStay(g, depth, level, st, mid, u);
    MoveStep(g, s, depth, level, mid, u, Proc(k, Check));
  }

  // The neighbour was on an earlier level: nothing to mark or count.
  lemma SkipStep(g: Graph, s: nat, depth: seq<int>, level: nat, st: State, u: nat)
    requires Inv(g, s, depth, level, st) && Enabled(g, depth, level, st, u) && st.procs[u].pc == Check
    requires st.depths[g.outs[u][st.procs[u].k]] != level + 1
    ensures Inv(g, s, depth, level, Apply(g, depth, level, st, u))
  {
    var k := st.procs[u].k;
    var v := g.outs[u][k];
    ProcFacts(g, s, depth, level, st, u);
    var p := Proc(k + 1, Look);
    var st' := Apply(g, depth, level, st, u);
    ProcsMove(g, depth, level, st.depths, st.procs, u, p);
    forall x: nat | x < g.N() ensures SumOk(g, s, depth, level, st'.procs, x, st.counts[x]) {
      assert SumOk(g, s, depth, level, st.procs, x, st.counts[x]);
      ReceivedStep(g, s, depth, level, st.procs, u, Look, x, g.N());
    }
    forall x: nat, j: nat | x < g.N() && j < |g.outs[x]|
      ensures Marked(g, depth, level, st'.depths, x, st'.procs[x], j) <==>
        Marked(g, depth, level, st.depths, x, st.procs[x], j) {}
    BitsStay(g, depth, level, st, st', u);
  }

  lemma MarkStep(g: Graph, s: nat, depth: seq<int>, level: nat, st: State, u: nat)
    requires Inv(g, s, depth, level, st) && Enabled(g, depth, level, st, u) && st.procs[u].pc == Mark
    ensures Inv(g, s, depth, level, Apply(g, depth, level, st, u))
  {
    var k := st.procs[u].k;
    ProcFacts(g, s, depth, level, st, u);
    var st' := Apply(g, depth, level, st, u);
    ProcsMove(g, depth, level, st.depths, st.procs, u, Proc(k, Count));
    SumsStay(g, s, depth, level, st.procs, st.counts, u, Proc(k, Count));
    forall x: nat, j: nat | x < g.N() && j < |g.outs[x]| ensures BitOk(g, depth, level, st', x, j) {
      assert BitOk(g, depth, level, st, x, j);
      SlotsDiffer(g, u, k, x, j);
    }
  }

  lemma CountStep(g: Graph, s: nat, depth: seq<int>, level: nat, st: State, u: nat)
    requires Inv(g, s, depth, level, st) && Enabled(g, depth, level, st, u) && st.procs[u].pc == Count
    ensures Inv(g, s, depth, level, Apply(g, depth, level, st, u))
  {
    var k := st.procs[u].k;
    var v := g.outs[u][k];
    ProcFacts(g, s, depth, level, st, u);
    var st' := Apply(g, depth, level, st, u);
    ProcsMove(g, depth, level, st.depths, st.procs, u, Proc(k + 1, Look));
    assert SumOk(g, s, depth, level, st.procs, u, st.counts[u]);
    forall x: nat | x < g.N() ensures SumOk(g, s, depth, level, st'.procs, x, st'.counts[x]) {
      assert SumOk(g, s, depth, level, st.procs, x, st.counts[x]);
      ReceivedStep(g, s, depth, level, st.procs, u, Look, x, g.N());
    }
    forall x: nat, j: nat | x < g.N() && j < |g.outs[x]|
      ensures Marked(g, depth, level, st'.depths, x, st'.procs[x], j) <==>
        Marked(g, depth, level, st.depths, x, st.procs[x], j) {}
    BitsStay(g, depth, level, st, st', u);
  }

  lemma StepKeepsInv(g: Graph, s: nat, depth: seq<int>, level: nat, st: State, u: nat)
    requires Inv(g, s, depth, level, st) && Enabled(g, depth, level, st, u)
    ensures Inv(g, s, depth, level, Apply(g, depth, level, st, u))
  {
    var k := st.procs[u].k;
    var v := g.outs[u][k];
    ProcFacts(g, s, depth, level, st, u);
    match st.procs[u].pc
    case Look => MoveStep(g, s, depth, level, st, u, Proc(k, if st.depths[v] == -1 then Swap else Check));
    case Swap => if st.depths[v] == -1 {
      ClaimStep(g, s, depth, level, st, u);
    } else {
      MoveStep(g, s, depth, level, st, u, Proc(k, Check));
    }
    case Check => if st.depths[v] == level + 1 {
      MoveStep(g, s, depth, level, st, u, Proc(k, Mark));
    } else {
      SkipStep(g, s, depth, level, st, u);
    }
    case Mark => MarkStep(g, s, depth, level, st, u);
    case Count => CountStep(g, s, depth, level, st, u);
  }

  // One neighbour handled from start to end.
  function AfterEdge(g: Graph, depth: seq<int>, level: nat, st: State, u: nat): State
    requires Enabled(g, depth, level, st, u)
  {
    var k := st.procs[u].k;
    var v := g.outs[u][k];
    var isNew := st.depths[v] == -1;
    var down := isNew || st.depths[v] == level + 1;
    State(if isNew then st.depths[v := level + 1] else st.depths,
          if down then st.counts[v := st.counts[v] + st.counts[u]] else st.counts,
          if down then st.succ + {Slot(g, u, k)} else st.succ,
          if isNew then st.pushed + [v] else st.pushed,
          st.procs[u := Proc(k + 1, Look)])
  }

  lemma EdgeKeepsInv(g: Graph, s: nat, depth: seq<int>, level: nat, st: State, u: nat)
    requires Inv(g, s, depth, level, st) && Enabled(g, depth, level, st, u) && st.procs[u].pc == Look
    ensures Inv(g, s, depth, level, AfterEdge(g, depth, level, st, u))
  {
    var k := st.procs[u].k;
    var v := g.outs[u][k];
    hide Inv;
    var st1 := Apply(g, depth, level, st, u);
    StepKeepsInv(g, s, depth, level, st, u);
    var st2 := if st.depths[v] == -1 then Apply(g, depth, level, st1, u) else st1;
    if st.depths[v] == -1 { StepKeepsInv(g, s, depth, level, st1, u); }
    FinishEdge(g, s, depth, level, st2, u);
    assert st2.procs[u := Proc(k + 1, Look)] == st.procs[u := Proc(k + 1, Look)];
  }

  // From the comparison to the end of the neighbour.
  function AfterCheck(g: Graph, depth: seq<int>, level: nat, st: State, u: nat): State
    requires Enabled(g, depth, level, st, u)
  {
    var k := st.procs[u].k;
    var v := g.outs[u][k];
    if st.depths[v] == level + 1 then
      State(st.depths, st.counts[v := st.counts[v] + st.counts[u]], st.succ + {Slot(g, u, k)}, st.pushed,
            st.procs[u := Proc(k + 1, Look)])
    else
      st.(procs := st.procs[u := Proc(k + 1, Look)])
  }

  lemma FinishEdge(g: Graph, s: nat, depth: seq<int>, level: nat, st: State, u: nat)
    requires Inv(g, s, depth, level, st) && Enabled(g, depth, level, st, u) && st.procs[u].pc == Check
    ensures Inv(g, s, depth, level, AfterCheck(g, depth, level, st, u))
  {
    var k := st.procs[u].k;
    StepKeepsInv(g, s, depth, level, st, u);
    if st.depths[g.outs[u][k]] == level + 1 {
      var st1 := Apply(g, depth, level, st, u);
      StepKeepsInv(g, s, depth, level, st1, u);
      var st2 := Apply(g, depth, level, st1, u);
      StepKeepsInv(g, s, depth, level, st2, u);
      assert Apply(g, depth, level, st2, u).procs == st.procs[u := Proc(k + 1, Look)];
    }
  }

  // ------------------------------------------------------------------ a level

  ghost function Start(g: Graph, depths: seq<int>, counts: seq<nat>, succ: set<nat>): State {
    State(depths, counts, succ, [], AtRest(g.N()))
  }

  lemma {:induction false} NothingReceived(g: Graph, s: nat, depth: seq<int>, level: nat, v: nat, n: nat)
    requires n <= g.N() == |depth|
    ensures Received(g, s, depth, level, AtRest(g.N()), v, n) == 0
  {
    if n > 0 { NothingReceived(g, s, depth, level, v, n - 1); }
  }

  lemma StartInv(g: Graph, s: nat, depth: seq<int>, level: nat, counts: seq<nat>, succ: set<nat>)
    requires LevelOk(g, s, depth, level, counts, succ)
    ensures Inv(g, s, depth, level, Start(g, depth, counts, succ))
  {
    var st := Start(g, depth, counts, succ);
    forall v: nat | v < g.N() ensures DepthOk(g, depth, level, v, st.depths[v]) {}
    forall u: nat | u < g.N() ensures ProcOk(g, depth, level, st.depths, u, st.procs[u]) {}
    forall u: nat, k: nat | u < g.N() && k < |g.outs[u]| ensures BitOk(g, depth, level, st, u, k) {
      assert SuccOk(g, depth, level, succ, u, k);
      assert -1 <= depth[u];
    }
    forall v: nat | v < g.N() ensures SumOk(g, s, depth, level, st.procs, v, st.counts[v]) {
      assert CountOk(g, s, depth, v, counts[v]);
      NothingReceived(g, s, depth, level, v, g.N());
    }
  }

  // Everything that reaches v on the next level comes from the last level.
  lemma {:induction false} ReceivedIsLastEdge(g: Graph, s: nat, depth: seq<int>, level: nat, procs: seq<Proc>, v: nat,
                                              n: nat)
    requires Wave(g, s, depth, level) && |procs| == g.N() && v < g.N() && depth[v] == -1 && n <= g.N()
    requires forall u: nat | u < g.N() && depth[u] == level :: procs[u].k == |g.outs[u]|
    ensures Received(g, s, depth, level, procs, v, n) == LastEdge(g, level, s, v, n)
  {
    if n > 0 {
      ReceivedIsLastEdge(g, s, depth, level, procs, v, n - 1);
      if depth[n - 1] != level { NothingFrom(g, s, depth, level, n - 1, v); }
    }
  }

  lemma NothingFrom(g: Graph, s: nat, depth: seq<int>, level: nat, u: nat, v: nat)
    requires Wave(g, s, depth, level) && u < g.N() && depth[u] != level && v < g.N() && depth[v] == -1
    ensures Mult(g.outs[u], |g.outs[u]|, v) * Walks(g, level, s, u) == 0
  {
    var row := g.outs[u];
    MultPositive(row, |row|, v);
    assert row[..|row|] == row;
    if depth[u] >= 0 {
      assert ClosedAt(g, depth, u);
      assert v !in row;
    } else {
      WalksReach(g, s, level, u);
      if Reaches(g, s, level, u) { WaveBound(g, s, depth, level, level, u); }
    }
    ProductPositive(Mult(row, |row|, v), Walks(g, level, s, u));
  }

  lemma EndCount(g: Graph, s: nat, depth: seq<int>, level: nat, st: State, v: nat)
    requires Inv(g, s, depth, level, st) && v < g.N() && |Next(g, depth, level)| == g.N()
    requires forall u: nat | u < g.N() && depth[u] == level :: st.procs[u].k == |g.outs[u]|
    ensures CountOk(g, s, Next(g, depth, level), v, st.counts[v])
  {
    assert SumOk(g, s, depth, level, st.procs, v, st.counts[v]);
    if depth[v] == -1 {
      ReceivedIsLastEdge(g, s, depth, level, st.procs, v, g.N());
      CountByLastEdge(g, level, s, v);
      if !Discovered(g, depth, level, v) { NotReached(g, s, depth, level, v); }
    }
  }

  lemma NotReached(g: Graph, s: nat, depth: seq<int>, level: nat, v: nat)
    requires Wave(g, s, depth, level) && v < g.N() && depth[v] == -1 && !Discovered(g, depth, level, v)
    ensures LastEdge(g, level, s, v, g.N()) == 0
  {
    LastEdgePositive(g, level, s, v, g.N());
    forall u: nat | u < g.N() && v in g.outs[u] ensures Walks(g, level, s, u) == 0 {
      var row := g.outs[u];
      assert depth[u] != level;
      NothingFrom(g, s, depth, level, u, v);
      MultPositive(row, |row|, v);
      assert row[..|row|] == row;
      ProductPositive(Mult(row, |row|, v), Walks(g, level, s, u));
    }
  }

  lemma EndDepth(g: Graph, s: nat, depth: seq<int>, level: nat, st: State, v: nat)
    requires Inv(g, s, depth, level, st) && v < g.N()
    requires forall u: nat | u < g.N() && depth[u] == level :: st.procs[u].k == |g.outs[u]|
    ensures st.depths[v] == Next(g, depth, level)[v]
  {
    assert DepthOk(g, depth, level, v, st.depths[v]);
    if Discovered(g, depth, level, v) {
      var u: nat :| u < g.N() && depth[u] == level && v in g.outs[u];
      var j: nat :| j < |g.outs[u]| && g.outs[u][j] == v;
      assert ProcOk(g, depth, level, st.depths, u, st.procs[u]);
      assert st.depths[g.outs[u][j]] >= 0;
    }
  }

  lemma EndBit(g: Graph, s: nat, depth: seq<int>, level: nat, st: State, u: nat, k: nat)
    requires Inv(g, s, depth, level, st) && u < g.N() && k < |g.outs[u]| && st.depths == Next(g, depth, level)
    requires depth[u] == level ==> st.procs[u].k == |g.outs[u]|
    ensures SuccOk(g, Next(g, depth, level), level + 1, st.succ, u, k)
  {
    assert BitOk(g, depth, level, st, u, k);
    var v := g.outs[u][k];
    assert v in g.outs[u];
    EdgeInRange(g, u, v);
    assert -1 <= depth[u] <= level;
    if 0 <= depth[u] < level { assert ClosedAt(g, depth, u); }
  }

  // All processes done: the next level is complete, with its counts and bits.
  lemma LevelEnds(g: Graph, s: nat, depth: seq<int>, level: nat, st: State)
    requires Inv(g, s, depth, level, st)
    requires forall u: nat | u < g.N() && depth[u] == level :: st.procs[u].k == |g.outs[u]|
    ensures st.depths == Next(g, depth, level)
    ensures LevelOk(g, s, Next(g, depth, level), level + 1, st.counts, st.succ)
  {
    NextIsWave(g, s, depth, level);
    var next := Next(g, depth, level);
    forall v: nat | v < g.N() ensures st.depths[v] == next[v] { EndDepth(g, s, depth, level, st, v); }
    assert st.depths == next;
    forall v: nat | v < g.N() ensures CountOk(g, s, next, v, st.counts[v]) { EndCount(g, s, depth, level, st, v); }
    var up: nat := level + 1;
    forall u: nat, k: nat | u < g.N() && k < |g.outs[u]|
      ensures SuccOk(g, next, up, st.succ, u, k)
    {
      EndBit(g, s, depth, level, st, u, k);
    }
  }

  // The piece lists the vertices of one depth, each once.
  ghost predicate ListsDepth(depth: seq<int>, piece: seq<nat>, d: int) {
    && (forall v: nat {:trigger v in piece} :: v in piece <==> v < |depth| && depth[v] == d)
    && (forall i, j | 0 <= i < j < |piece| :: piece[i] != piece[j])
  }

  lemma PushedIsNext(g: Graph, s: nat, depth: seq<int>, level: nat, st: State)
    requires Inv(g, s, depth, level, st) && st.depths == Next(g, depth, level)
    ensures ListsDepth(Next(g, depth, level), st.pushed, level + 1)
    ensures forall v | v in st.pushed :: v < |depth| && depth[v] == -1 && Next(g, depth, level)[v] == level + 1
  {
    forall v: nat ensures v in st.pushed <==> v < |depth| && Next(g, depth, level)[v] == level + 1 {
      if v < |depth| { assert -1 <= depth[v] <= level; }
    }
  }

  ghost predicate IsRun(g: Graph, depth: seq<int>, level: nat, states: seq<State>, moves: seq<nat>) {
    && |states| == |moves| + 1
    && forall i | 0 <= i < |moves| ::
      Enabled(g, depth, level, states[i], moves[i]) && states[i + 1] == Apply(g, depth, level, states[i], moves[i])
  }

  lemma {:induction false} RunInv(g: Graph, s: nat, depth: seq<int>, level: nat, states: seq<State>, moves: seq<nat>,
                                  i: nat)
    requires IsRun(g, depth, level, states, moves) && Inv(g, s, depth, level, states[0]) && i < |states|
    ensures Inv(g, s, depth, level, states[i])
  {
    if i > 0 {
      RunInv(g, s, depth, level, states, moves, i - 1);
      StepKeepsInv(g, s, depth, level, states[i - 1], moves[i - 1]);
    }
  }

  lemma {:induction false} NeverPastEnd(g: Graph, depth: seq<int>, level: nat, states: seq<State>, moves: seq<nat>,
                                        i: nat, u: nat)
    requires IsRun(g, depth, level, states, moves) && i < |states| && |states[0].procs| == g.N() && u < g.N()
    requires states[0].procs == AtRest(g.N())
    ensures |states[i].procs| == g.N() && states[i].procs[u].k <= |g.outs[u]|
  {
    if i > 0 { NeverPastEnd(g, depth, level, states, moves, i - 1, u); }
  }

  // Every interleaving counts every path to the next level exactly once, sets
  // exactly the bits of the edges to it, and pushes each of its vertices once.
  lemma LevelIsCorrect(g: Graph, s: nat, depth: seq<int>, level: nat, counts: seq<nat>, succ: set<nat>,
                       states: seq<State>, moves: seq<nat>)
    requires LevelOk(g, s, depth, level, counts, succ)
    requires IsRun(g, depth, level, states, moves) && states[0] == Start(g, depth, counts, succ)
    requires Finished(g, depth, level, states[|moves|])
    ensures states[|moves|].depths == Next(g, depth, level)
    ensures LevelOk(g, s, Next(g, depth, level), level + 1, states[|moves|].counts, states[|moves|].succ)
    ensures ListsDepth(Next(g, depth, level), states[|moves|].pushed, level + 1)
  {
    var st := states[|moves|];
    StartInv(g, s, depth, level, counts, succ);
    RunInv(g, s, depth, level, states, moves, |moves|);
    forall u: nat | u < g.N() && depth[u] == level ensures st.procs[u].k == |g.outs[u]| {
      NeverPastEnd(g, depth, level, states, moves, |moves|, u);
    }
    LevelEnds(g, s, depth, level, st);
    PushedIsNext(g, s, depth, level, st);
  }
}
