module BottomUpThreads {
  // The bottom-up step under any interleaving.  The loop is scheduled in chunks of
  // 1024 vertices; a chunk is a process that makes one shared access per step, and
  // the plain set_bit on the next bitmap is two of them: it loads a whole word and
  // later stores that word with one more bit, losing whatever came in between.

  import opened Components
  import opened Layers
  import B = Bitmaps
  import T = BfsTrees
  import Bfs

  const CHUNK: nat := 1024

  function Chunks(n: nat): nat { (n + CHUNK - 1) / CHUNK }

  function Low(c: nat): nat { c * CHUNK }

  function High(n: nat, c: nat): nat { if (c + 1) * CHUNK <= n then (c + 1) * CHUNK else n }

  function Owner(x: nat): nat { x / CHUNK }

  // Look: read the parent of vertex u.  Scan: look for in-neighbour k in the front
  // bitmap.  Wake: store the parent.  Load and Store: the two halves of set_bit.
  datatype Pc = Look | Scan(k: nat) | Wake(v: nat) | Load | Store(word: bv64)

  // Vertex u of the chunk is under way; `awake` is this chunk's share of the sum.
  datatype Proc = Proc(u: nat, pc: Pc, awake: nat)

  datatype State = State(parent: seq<int>, words: seq<bv64>, procs: seq<Proc>)

  predicate Enabled(g: Graph, st: State, c: nat) {
    && c < |st.procs| && st.procs[c].u < High(g.N(), c)
    && st.procs[c].u < g.N() == |st.parent| == |g.ins| && B.WordOffset(st.procs[c].u) < |st.words|
  }

  function Advanced(g: Graph, front: seq<bv64>, st: State, p: Proc): Proc
    requires p.u < g.N() == |st.parent| == |g.ins| && B.WordOffset(p.u) < |st.words|
  {
    match p.pc
    case Look => if st.parent[p.u] < 0 then p.(pc := Scan(0)) else Proc(p.u + 1, Look, p.awake)
    case Scan(k) =>
      if k >= |g.ins[p.u]| then Proc(p.u + 1, Look, p.awake)
      else if B.Member(front, g.ins[p.u][k]) then p.(pc := Wake(g.ins[p.u][k]))
      else p.(pc := Scan(k + 1))
    case Wake(v) => Proc(p.u, Load, p.awake + 1)
    case Load => p.(pc := Store(st.words[B.WordOffset(p.u)]))
    case Store(word) => Proc(p.u + 1, Look, p.awake)
  }

  function Apply(g: Graph, front: seq<bv64>, st: State, c: nat): State
    requires Enabled(g, st, c)
  {
    var p := st.procs[c];
    State(
      if p.pc.Wake? then st.parent[p.u := p.pc.v] else st.parent,
      if p.pc.Store? then st.words[B.WordOffset(p.u) := B.WithBit(p.pc.word, B.BitOffset(p.u))] else st.words,
      st.procs[c := Advanced(g, front, st, p)])
  }

  // The bitmap right after its reset.
  function Zeros(size: nat): seq<bv64> {
    seq(size, _ => 0)
  }

  function Initial(n: nat, parent: seq<int>, size: nat): State {
    State(parent, Zeros(size), seq(Chunks(n), c requires 0 <= c => Proc(Low(c), Look, 0)))
  }

  predicate Finished(g: Graph, st: State) {
    forall c: nat | c < |st.procs| :: st.procs[c].u >= High(g.N(), c)
  }

  // The sum that the reduction forms.
  function Awake(procs: seq<Proc>): nat {
    if procs == [] then 0 else Awake(procs[..|procs| - 1]) + procs[|procs| - 1].awake
  }

  // ---------------------------------------------------------------- invariant

  // How many of the first k vertices are on the next level.
  ghost function Woken(g: Graph, depth: seq<int>, level: nat, k: nat): int
    requires g.Valid() && k <= |depth| == g.N()
  {
    Bfs.Unvisited(depth, k) - Bfs.Unvisited(Next(g, depth, level), k)
  }

  // Vertex x is the one that p has under way.
  ghost predicate UnderWay(g: Graph, depth: seq<int>, level: nat, parent: seq<int>, words: seq<bv64>, pc: Pc, x: nat)
    requires g.Valid() && x < |depth| == |parent| == g.N()
  {
    && !B.Member(words, x)
    && (parent[x] >= 0 <==> pc.Load? || pc.Store?)
    && match pc
       case Look => true
       case Scan(k) => k <= |g.ins[x]| && forall i: nat | i < k :: g.ins[x][i] < g.N() && depth[g.ins[x][i]] != level
       case Wake(v) => v < g.N() && depth[v] == level && x in g.outs[v]
       case Load => Discovered(g, depth, level, x)
       case Store(word) => Discovered(g, depth, level, x) && B.WordOffset(x) < |words| && word == words[B.WordOffset(x)]
  }

  // What holds of vertex x of the chunk of p.
  ghost predicate VertexOk(g: Graph, depth: seq<int>, level: nat, parent: seq<int>, words: seq<bv64>, p: Proc, x: nat)
    requires g.Valid() && x < |depth| == |parent| == g.N()
  {
    if depth[x] >= 0 then !B.Member(words, x) && (x == p.u ==> p.pc == Look)
    else if x < p.u then
      && (parent[x] >= 0 <==> Discovered(g, depth, level, x))
      && (B.Member(words, x) <==> Discovered(g, depth, level, x))
    else if x > p.u then parent[x] < 0 && !B.Member(words, x)
    else UnderWay(g, depth, level, parent, words, p.pc, x)
  }

  ghost predicate VerticesOk(g: Graph, depth: seq<int>, level: nat, st: State) {
    && g.Valid() && |depth| == |st.parent| == g.N() && |st.procs| == Chunks(g.N())
    && forall x: nat {:trigger VertexOk(g, depth, level, st.parent, st.words, st.procs[Owner(x)], x)} | x < g.N() ::
      VertexOk(g, depth, level, st.parent, st.words, st.procs[Owner(x)], x)
  }

  ghost predicate ProcOk(g: Graph, depth: seq<int>, level: nat, c: nat, p: Proc)
    requires g.Valid() && |depth| == g.N() && c < Chunks(g.N())
  {
    && Low(c) <= p.u <= High(g.N(), c) && (p.u == High(g.N(), c) ==> p.pc == Look)
    && p.awake == Woken(g, depth, level, p.u) - Woken(g, depth, level, Low(c)) + if p.pc.Load? || p.pc.Store? then 1
      else 0
  }

  ghost predicate ProcsOk(g: Graph, depth: seq<int>, level: nat, procs: seq<Proc>) {
    && g.Valid() && |depth| == g.N() && |procs| == Chunks(g.N())
    && forall c: nat {:trigger ProcOk(g, depth, level, c, procs[c])} | c < |procs| ::
      ProcOk(g, depth, level, c, procs[c])
  }

  // The bitmap has a bit for every vertex and no other bit set.
  ghost predicate WordsOk(n: nat, words: seq<bv64>) {
    && n <= B.BITS_PER_WORD * |words|
    && forall p: nat | B.Member(words, p) :: p < n
  }

  ghost function Bits(words: seq<bv64>): iset<nat> {
    iset p: nat | B.Member(words, p)
  }

  ghost predicate Inv(g: Graph, s: nat, depth: seq<int>, level: nat, st: State) {
    && T.Visiting(g, s, depth, level, st.parent) && WordsOk(g.N(), st.words)
    && VerticesOk(g, depth, level, st) && ProcsOk(g, depth, level, st.procs)
  }

  // ------------------------------------------------------------------- the step

  lemma ChunkFacts(n: nat, x: nat)
    requires x < n
    ensures Owner(x) < Chunks(n) && Low(Owner(x)) <= x < High(n, Owner(x))
  {
  }

  // Another chunk's vertex notices nothing, because its word is another one.
  lemma OtherChunk(g: Graph, s: nat, depth: seq<int>, level: nat, front: seq<bv64>, st: State, c: nat, x: nat)
    requires Inv(g, s, depth, level, st) && Enabled(g, st, c) && x < g.N() && Owner(x) != c
    ensures VertexOk(g, depth, level, Apply(g, front, st, c).parent, Apply(g, front, st, c).words, st.procs[Owner(x)],
                     x)
  {
    var u := st.procs[c].u;
    assert ProcOk(g, depth, level, c, st.procs[c]);
    CurrentVertex(g, s, depth, level, st, c);
    B.ChunksApart(u, x);
    if st.procs[c].pc.Store? { B.SetAddsOne(st.words, u, x); }
    assert VertexOk(g, depth, level, st.parent, st.words, st.procs[Owner(x)], x);
  }

  lemma CurrentVertex(g: Graph, s: nat, depth: seq<int>, level: nat, st: State, c: nat)
    requires Inv(g, s, depth, level, st) && Enabled(g, st, c)
    ensures var p := st.procs[c];
      && Owner(p.u) == c && p.u < g.N()
      && (if depth[p.u] >= 0 then p.pc == Look && !B.Member(st.words, p.u)
          else UnderWay(g, depth, level, st.parent, st.words, p.pc, p.u))
      && T.VisitOk(g, s, depth, level, p.u, st.parent[p.u])
  {
    var u := st.procs[c].u;
    assert ProcOk(g, depth, level, c, st.procs[c]);
    assert Owner(u) == c;
    assert VertexOk(g, depth, level, st.parent, st.words, st.procs[Owner(u)], u);
    assert T.VisitOk(g, s, depth, level, u, st.parent[u]);
  }

  // Setting the bit of u, with the word that was loaded for it, adds that bit only.
  lemma StoreAddsOne(g: Graph, s: nat, depth: seq<int>, level: nat, front: seq<bv64>, st: State, c: nat, x: nat)
    requires Inv(g, s, depth, level, st) && Enabled(g, st, c)
    ensures B.Member(Apply(g, front, st, c).words, x) <==>
            B.Member(st.words, x) || (st.procs[c].pc.Store? && x == st.procs[c].u)
  {
    CurrentVertex(g, s, depth, level, st, c);
    if st.procs[c].pc.Store? {
      B.SetAddsOne(st.words, st.procs[c].u, x);
    }
  }

  lemma SameChunk(g: Graph, s: nat, depth: seq<int>, level: nat, front: seq<bv64>, st: State, c: nat, x: nat)
    requires Inv(g, s, depth, level, st) && Enabled(g, st, c)
    requires x < g.N() && Owner(x) == c && x != st.procs[c].u
    ensures var st' := Apply(g, front, st, c); VertexOk(g, depth, level, st'.parent, st'.words, st'.procs[c], x)
  {
    assert VertexOk(g, depth, level, st.parent, st.words, st.procs[Owner(x)], x);
    StoreAddsOne(g, s, depth, level, front, st, c, x);
  }

  // The vertex that is under way, when the front bitmap is right.
  lemma ThisVertex(g: Graph, s: nat, depth: seq<int>, level: nat, front: seq<bv64>, st: State, c: nat)
    requires Inv(g, s, depth, level, st) && Enabled(g, st, c) && Bfs.FrontOk(depth, level, Bits(front))
    ensures var st' := Apply(g, front, st, c);
      VertexOk(g, depth, level, st'.parent, st'.words, st'.procs[c], st.procs[c].u)
  {
    var p := st.procs[c];
    var u := p.u;
    CurrentVertex(g, s, depth, level, st, c);
    StoreAddsOne(g, s, depth, level, front, st, c, u);
    match p.pc
    case Look =>
    case Scan(k) =>
      if k < |g.ins[u]| {
        Bfs.FrontBitIsLast(g, s, depth, level, Bits(front), u, g.ins[u][k]);
      } else {
        Bfs.NotDiscovered(g, depth, level, u);
      }
    case Wake(v) => assert Discovered(g, depth, level, u);
    case Load =>
    case Store(word) =>
  }

  lemma ParentsStep(g: Graph, s: nat, depth: seq<int>, level: nat, front: seq<bv64>, st: State, c: nat)
    requires Inv(g, s, depth, level, st) && Enabled(g, st, c)
    ensures T.Visiting(g, s, depth, level, Apply(g, front, st, c).parent)
    ensures WordsOk(g.N(), Apply(g, front, st, c).words)
  {
    var p, words' := st.procs[c], Apply(g, front, st, c).words;
    CurrentVertex(g, s, depth, level, st, c);
    if p.pc.Wake? {
      T.ClaimKeepsVisiting(g, s, depth, level, st.parent, p.pc.v, p.u);
    }
    forall x: nat | B.Member(words', x) ensures x < g.N() {
      StoreAddsOne(g, s, depth, level, front, st, c, x);
    }
  }

  // Going on to the next vertex counts the one that was woken.
  lemma ProcStep(g: Graph, s: nat, depth: seq<int>, level: nat, front: seq<bv64>, st: State, c: nat)
    requires Inv(g, s, depth, level, st) && Enabled(g, st, c) && Bfs.FrontOk(depth, level, Bits(front))
    ensures c < Chunks(g.N()) && ProcOk(g, depth, level, c, Advanced(g, front, st, st.procs[c]))
  {
    hide VertexOk, WordsOk, T.VisitOk, B.Member;
    var p, p' := st.procs[c], Advanced(g, front, st, st.procs[c]);
    CurrentVertex(g, s, depth, level, st, c);
    assert ProcOk(g, depth, level, c, p);
    if p'.u != p.u {
      WokenOne(g, s, depth, level, p.u);
      if p.pc.Look? {
        assert depth[p.u] >= 0;
      } else if p.pc.Scan? {
        Bfs.NotDiscovered(g, depth, level, p.u);
      }
    }
  }

  lemma WokenOne(g: Graph, s: nat, depth: seq<int>, level: nat, u: nat)
    requires Wave(g, s, depth, level) && u < g.N()
    ensures Woken(g, depth, level, u + 1) - Woken(g, depth, level, u) == if Discovered(g, depth, level, u) then 1 else 0
  {
    assert -1 <= depth[u];
  }

  lemma StepKeepsInv(g: Graph, s: nat, depth: seq<int>, level: nat, front: seq<bv64>, st: State, c: nat)
    requires Inv(g, s, depth, level, st) && Enabled(g, st, c) && Bfs.FrontOk(depth, level, Bits(front))
    ensures Inv(g, s, depth, level, Apply(g, front, st, c))
  {
    hide VertexOk, WordsOk, T.Visiting, Advanced, ProcOk, Bfs.FrontOk;
    var st' := Apply(g, front, st, c);
    ParentsStep(g, s, depth, level, front, st, c);
    ProcStep(g, s, depth, level, front, st, c);
    CurrentVertex(g, s, depth, level, st, c);
    forall d: nat | d < |st'.procs| ensures ProcOk(g, depth, level, d, st'.procs[d]) {
      assert d != c ==> ProcOk(g, depth, level, d, st.procs[d]);
    }
    forall x: nat | x < g.N() ensures VertexOk(g, depth, level, st'.parent, st'.words, st'.procs[Owner(x)], x) {
      ChunkFacts(g.N(), x);
      if Owner(x) != c {
        OtherChunk(g, s, depth, level, front, st, c, x);
      } else if x != st.procs[c].u {
        SameChunk(g, s, depth, level, front, st, c, x);
      } else {
        ThisVertex(g, s, depth, level, front, st, c);
      }
    }
  }

  // ------------------------------------------------------------- the whole loop

  lemma Cleared(size: nat)
    ensures forall p: nat :: !B.Member(Zeros(size), p)
  {
    forall p: nat ensures !B.Member(Zeros(size), p) {
      assert !B.Bit(0, B.BitOffset(p));
    }
  }

  lemma InitialInv(g: Graph, s: nat, depth: seq<int>, level: nat, parent: seq<int>, size: nat)
    requires Wave(g, s, depth, level) && T.Tree(g, s, depth, parent) && g.N() <= B.BITS_PER_WORD * size
    ensures Inv(g, s, depth, level, Initial(g.N(), parent, size))
  {
    var st := Initial(g.N(), parent, size);
    Cleared(size);
    forall v: nat | v < g.N() ensures T.VisitOk(g, s, depth, level, v, parent[v]) {}
    forall x: nat | x < g.N() ensures VertexOk(g, depth, level, parent, st.words, st.procs[Owner(x)], x) {
      ChunkFacts(g.N(), x);
    }
    forall c: nat | c < |st.procs| ensures ProcOk(g, depth, level, c, st.procs[c]) {}
  }

  ghost predicate IsRun(g: Graph, front: seq<bv64>, states: seq<State>, moves: seq<nat>) {
    && |states| == |moves| + 1
    && forall i | 0 <= i < |moves| ::
      Enabled(g, states[i], moves[i]) && states[i + 1] == Apply(g, front, states[i], moves[i])
  }

  lemma {:induction false} RunInv(g: Graph, s: nat, depth: seq<int>, level: nat, front: seq<bv64>,
                                  states: seq<State>, moves: seq<nat>, i: nat)
    requires IsRun(g, front, states, moves) && Inv(g, s, depth, level, states[0]) && i < |states|
    requires Bfs.FrontOk(depth, level, Bits(front))
    ensures Inv(g, s, depth, level, states[i])
    ensures |states[i].words| == |states[0].words|
  {
    if i > 0 {
      RunInv(g, s, depth, level, front, states, moves, i - 1);
      StepKeepsInv(g, s, depth, level, front, states[i - 1], moves[i - 1]);
    }
  }

  // The chunks' shares add up.
  lemma {:induction false} AwakeSum(g: Graph, depth: seq<int>, level: nat, procs: seq<Proc>, c: nat)
    requires ProcsOk(g, depth, level, procs) && c <= |procs|
    requires forall d: nat | d < |procs| :: procs[d].u >= High(g.N(), d)
    ensures Awake(procs[..c]) == Woken(g, depth, level, if Low(c) <= g.N() then Low(c) else g.N())
  {
    if c > 0 {
      AwakeSum(g, depth, level, procs, c - 1);
      assert procs[..c][..c - 1] == procs[..c - 1];
      assert ProcOk(g, depth, level, c - 1, procs[c - 1]);
    }
  }

  // What the bottom-up step promises: the next level, its bits, and its size.
  ghost predicate StepDone(g: Graph, s: nat, depth: seq<int>, level: nat, parent: seq<int>, words: seq<bv64>,
                           awake: int)
    requires g.Valid() && |depth| == g.N()
  {
    && Wave(g, s, Next(g, depth, level), level + 1) && T.Tree(g, s, Next(g, depth, level), parent)
    && (forall v: nat :: B.Member(words, v) <==> v < g.N() && Next(g, depth, level)[v] == level + 1)
    && awake == Bfs.Unvisited(depth, g.N()) - Bfs.Unvisited(Next(g, depth, level), g.N())
    && awake == |set v: nat | v < g.N() && Next(g, depth, level)[v] == level + 1|
  }

  lemma FinishedIsDone(g: Graph, s: nat, depth: seq<int>, level: nat, st: State)
    requires Inv(g, s, depth, level, st) && Finished(g, st)
    ensures StepDone(g, s, depth, level, st.parent, st.words, Awake(st.procs))
  {
    forall x: nat | x < g.N() ensures depth[x] == -1 ==>
      && (st.parent[x] >= 0 <==> Discovered(g, depth, level, x))
      && (B.Member(st.words, x) <==> Discovered(g, depth, level, x))
      ensures depth[x] >= 0 ==> !B.Member(st.words, x)
    {
      ChunkFacts(g.N(), x);
      assert VertexOk(g, depth, level, st.parent, st.words, st.procs[Owner(x)], x);
    }
    AwakeSum(g, depth, level, st.procs, |st.procs|);
    assert st.procs[..|st.procs|] == st.procs;
    AllBottomUp(g, s, depth, level, st.parent, Bits(st.words), Awake(st.procs));
    Bfs.BottomUpEnds(g, s, depth, level, st.parent, Bits(st.words), Awake(st.procs));
    Bfs.AwakeIsSize(g, s, depth, level);
    forall v: nat ensures B.Member(st.words, v) <==> v < g.N() && Next(g, depth, level)[v] == level + 1 {
      assert B.Member(st.words, v) <==> v in Bits(st.words);
    }
  }

  // The one-thread loop would stand at its end.
  lemma AllBottomUp(g: Graph, s: nat, depth: seq<int>, level: nat, parent: seq<int>, bits: iset<nat>, awake: int)
    requires T.Visiting(g, s, depth, level, parent) && awake == Woken(g, depth, level, g.N())
    requires forall x: nat | x < g.N() && depth[x] == -1 ::
      (parent[x] >= 0 <==> Discovered(g, depth, level, x)) && (x in bits <==> Discovered(g, depth, level, x))
    requires forall x: nat | x in bits :: x < g.N() && depth[x] == -1
    ensures Bfs.BottomUp(g, s, depth, level, parent, bits, awake, g.N())
  {
    forall v: nat | v < g.N()
      ensures depth[v] == -1 && parent[v] >= 0 <==> Next(g, depth, level)[v] == level + 1
    {
      assert -1 <= depth[v] <= level;
    }
  }

  // Every interleaving of the chunks does what the serial loop does, and no bit
  // is lost between the loads and the stores of words.
  lemma BottomUpIsCorrect(g: Graph, s: nat, depth: seq<int>, level: nat, front: seq<bv64>, parent: seq<int>, size: nat,
                          states: seq<State>, moves: seq<nat>)
    requires Wave(g, s, depth, level) && T.Tree(g, s, depth, parent) && g.N() <= B.BITS_PER_WORD * size
    requires Bfs.FrontOk(depth, level, Bits(front))
    requires IsRun(g, front, states, moves) && states[0] == Initial(g.N(), parent, size)
    requires Finished(g, states[|moves|])
    ensures StepDone(g, s, depth, level, states[|moves|].parent, states[|moves|].words, Awake(states[|moves|].procs))
    ensures |states[|moves|].words| == size
  {
    InitialInv(g, s, depth, level, parent, size);
    RunInv(g, s, depth, level, front, states, moves, |moves|);
    FinishedIsDone(g, s, depth, level, states[|moves|]);
  }

  // ---------------------------------------------------------------- termination

  // Chunks never wait for each other.
  lemma NeverStuck(g: Graph, s: nat, depth: seq<int>, level: nat, st: State)
    requires Inv(g, s, depth, level, st) && !Finished(g, st)
    ensures exists c :: Enabled(g, st, c)
  {
    var c: nat :| c < |st.procs| && st.procs[c].u < High(g.N(), c);
    ChunkCanMove(g, s, depth, level, st, c);
  }

  lemma ChunkCanMove(g: Graph, s: nat, depth: seq<int>, level: nat, st: State, c: nat)
    requires Inv(g, s, depth, level, st) && c < |st.procs| && st.procs[c].u < High(g.N(), c)
    ensures Enabled(g, st, c)
  {
  }

  // Steps that the vertices from u up to `high` may still take.
  function StepsFrom(g: Graph, u: nat, high: nat): nat
    requires high <= |g.ins|
    decreases high - u
  {
    if u >= high then 0 else |g.ins[u]| + 5 + StepsFrom(g, u + 1, high)
  }

  function StepsTaken(g: Graph, p: Proc): nat
    requires p.u < |g.ins|
  {
    var m := |g.ins[p.u]|;
    match p.pc
    case Look => 0
    case Scan(k) => if k <= m then 1 + k else 1 + m
    case Wake(_) => m + 2
    case Load => m + 3
    case Store(_) => m + 4
  }

  function StepsLeft(g: Graph, c: nat, p: Proc): nat
    requires g.N() == |g.ins|
  {
    if p.u >= High(g.N(), c) then 0 else StepsFrom(g, p.u, High(g.N(), c)) - StepsTaken(g, p)
  }

  function TotalLeft(g: Graph, procs: seq<Proc>): nat
    requires g.N() == |g.ins|
  {
    if procs == [] then 0
    else var m := |procs| - 1; TotalLeft(g, procs[..m]) + StepsLeft(g, m, procs[m])
  }

  lemma {:induction false} TotalUpdate(g: Graph, procs: seq<Proc>, c: nat, p: Proc)
    requires g.N() == |g.ins| && c < |procs|
    ensures TotalLeft(g, procs[c := p]) == TotalLeft(g, procs) - StepsLeft(g, c, procs[c]) + StepsLeft(g, c, p)
  {
    var m := |procs| - 1;
    if c == m {
      assert procs[c := p][..m] == procs[..m];
    } else {
      assert procs[c := p][..m] == procs[..m][c := p];
      TotalUpdate(g, procs[..m], c, p);
    }
  }

  lemma StepShrinks(g: Graph, s: nat, depth: seq<int>, level: nat, front: seq<bv64>, st: State, c: nat)
    requires Inv(g, s, depth, level, st) && Enabled(g, st, c)
    ensures TotalLeft(g, Apply(g, front, st, c).procs) < TotalLeft(g, st.procs)
  {
    hide Inv, StepsLeft;
    ProcShrinks(g, s, depth, level, front, st, c);
    TotalUpdate(g, st.procs, c, Advanced(g, front, st, st.procs[c]));
  }

  lemma ProcShrinks(g: Graph, s: nat, depth: seq<int>, level: nat, front: seq<bv64>, st: State, c: nat)
    requires Inv(g, s, depth, level, st) && Enabled(g, st, c)
    ensures StepsLeft(g, c, Advanced(g, front, st, st.procs[c])) < StepsLeft(g, c, st.procs[c])
  {
    hide VertexOk, WordsOk, T.Visiting;
    CurrentVertex(g, s, depth, level, st, c);
  }

  ghost predicate Steps(g: Graph, front: seq<bv64>, st: State, st': State) {
    exists c :: Enabled(g, st, c) && st' == Apply(g, front, st, c)
  }

  // No schedule runs forever.
  lemma {:induction false} EveryScheduleEnds(g: Graph, s: nat, depth: seq<int>, level: nat, front: seq<bv64>,
                                             run: nat -> State, i: nat)
    requires Inv(g, s, depth, level, run(i)) && Bfs.FrontOk(depth, level, Bits(front))
    ensures exists j :: j >= i && !Steps(g, front, run(j), run(j + 1))
    decreases TotalLeft(g, run(i).procs)
  {
    if Steps(g, front, run(i), run(i + 1)) {
      var c :| Enabled(g, run(i), c) && run(i + 1) == Apply(g, front, run(i), c);
      StepKeepsInv(g, s, depth, level, front, run(i), c);
      StepShrinks(g, s, depth, level, front, run(i), c);
      EveryScheduleEnds(g, s, depth, level, front, run, i + 1);
    }
  }
}
