// Back-propagation and the scores of betweenness centrality over exact numbers.
module Centrality {
  import opened Components
  import opened Layers
  import opened PathCounts
  import opened BrandesSearch
  import PbfsThreads
  import EdgeCounts

  // ---------------------------------------------------------- what a score means

  lemma {:induction false} WavesEnd(g: Graph, s: nat, depth: seq<int>, level: nat)
    requires Wave(g, s, depth, level)
    ensures exists d :: Depths(g, s, d)
    decreases Bfs.Unvisited(depth, |depth|), Bfs.HasLevel(depth, level)
  {
    if Bfs.HasLevel(depth, level) {
      NextIsWave(g, s, depth, level);
      Bfs.NextVisitsMore(g, s, depth, level, g.N());
      Bfs.NewLevelShrinks(g, s, depth, level);
      WavesEnd(g, s, Next(g, depth, level), level + 1);
    } else {
      EmptyLevelIsExact(g, s, depth, level);
    }
  }

  // The distances from s.
  ghost function DepthsFrom(g: Graph, s: nat): (depth: seq<int>)
    requires g.Valid() && s < g.N()
    ensures Depths(g, s, depth)
  {
    FirstWaveIsWave(g, s);
    WavesEnd(g, s, FirstWave(g, s), 0);
    var depth :| Depths(g, s, depth);
    depth
  }

  // The sum, over the targets t other than u that s reaches, of the fraction of
  // shortest s-t paths that pass through u.
  ghost function Score(g: Graph, s: nat, u: nat): real
    requires g.Valid() && s < g.N() && u < g.N()
  {
    var depth := DepthsFrom(g, s);
    if depth[u] >= 0 then Dependency(g, s, depth, u, g.N()) else 0.0
  }

  ghost function TotalScore(g: Graph, sources: seq<nat>, k: nat, u: nat): real
    requires g.Valid() && k <= |sources| && u < g.N() && forall i | 0 <= i < |sources| :: sources[i] < g.N()
  {
    if k == 0 then 0.0 else TotalScore(g, sources, k - 1, u) + Score(g, sources[k - 1], u)
  }

  // ------------------------------------------------------------ back-propagation

  ghost predicate DeltaOk(g: Graph, s: nat, depth: seq<int>, v: nat, delta: real)
    requires g.Valid() && s < g.N() && Depths(g, s, depth) && v < g.N() && depth[v] >= 0
  {
    delta == Dependency(g, s, depth, v, g.N())
  }

  // The deltas one level below u are right.
  ghost predicate BelowOk(g: Graph, s: nat, depth: seq<int>, deltas: seq<real>, u: nat)
    requires g.Valid() && s < g.N() && Depths(g, s, depth) && |deltas| == g.N() && u < g.N() && depth[u] >= 0
  {
    forall v: nat | v < g.N() && depth[v] == depth[u] + 1 :: DeltaOk(g, s, depth, v, deltas[v])
  }

  lemma EdgeTerm(g: Graph, s: nat, depth: seq<int>, counts: seq<nat>, succ: iset<nat>, all: seq<nat>, index: seq<nat>,
                 deltas: seq<real>, u: nat, k: nat)
    requires Searched(g, s, depth, counts, succ, all, index)
    requires |deltas| == g.N() && u < g.N() && depth[u] >= 0 && k < |g.outs[u]| && BelowOk(g, s, depth, deltas, u)
    ensures g.outs[u][k] < g.N() && Slot(g, u, k) < EntriesTo(g, g.N())
    ensures Slot(g, u, k) in succ <==> IsSucc(g, depth, u, k)
    ensures IsSucc(g, depth, u, k) ==>
      var v := g.outs[u][k];
      counts[v] > 0 && (counts[u] as real / counts[v] as real) * (1.0 + deltas[v]) == Term(g, s, depth, u, v)
  {
    SlotsDiffer(g, u, k, u, k);
    if IsSucc(g, depth, u, k) {
      var v := g.outs[u][k];
      ShortestPathsPositive(g, s, depth, v);
      assert DeltaOk(g, s, depth, v, deltas[v]);
    }
  }

  lemma SearchedFacts(g: Graph, s: nat, depth: seq<int>, counts: seq<nat>, succ: iset<nat>, all: seq<nat>,
                      index: seq<nat>)
    requires Searched(g, s, depth, counts, succ, all, index)
    ensures g.Valid() && s < g.N() && Depths(g, s, depth) && |counts| == g.N() == |depth|
    ensures Indexed(depth, all, index) && forall v: nat | v < g.N() :: depth[v] < |index| - 2
  {
  }

  // The loop over the successors of u.
  method DeltaOf(g: Graph, pathCounts: array<nat>, succ: B.Bitmap, deltas: array<real>, u: nat,
                 ghost s: nat, ghost depth: seq<int>, ghost all: seq<nat>, ghost index: seq<nat>)
    returns (deltaU: real)
    requires Searched(g, s, depth, pathCounts[..], Bfs.Bits(succ), all, index) && succ.Covers(EntriesTo(g, g.N()))
    requires deltas.Length == g.N() && u < g.N() && depth[u] >= 0 && BelowOk(g, s, depth, deltas[..], u)
    ensures deltaU == Dependency(g, s, depth, u, g.N())
  {
    hide Searched, Depths, BelowOk, Term, Dependency, B.Member;
    SearchedFacts(g, s, depth, pathCounts[..], Bfs.Bits(succ), all, index);
    deltaU := 0.0;
    for k := 0 to |g.outs[u]|
      invariant deltaU == Propagated(g, s, depth, u, k)
    {
      EdgeTerm(g, s, depth, pathCounts[..], Bfs.Bits(succ), all, index, deltas[..], u, k);
      var v := g.outs[u][k];
      var bit := succ.GetBit(Slot(g, u, k));
      if bit {
        deltaU := deltaU + (pathCounts[u] as real / pathCounts[v] as real) * (1.0 + deltas[v]);
      }
    }
    PropagatedIsDependency(g, s, depth, u);
  }

  // Vertices of at least `level` are done; so is the list `part` of the level above.
  ghost predicate Swept(g: Graph, s: nat, depth: seq<int>, deltas: seq<real>, scores: seq<real>, before: seq<real>,
                        level: int, part: seq<nat>)
  {
    && g.Valid() && s < g.N() && Depths(g, s, depth) && |deltas| == |scores| == |before| == g.N()
    && forall v: nat {:trigger VertexSwept(g, s, depth, v, deltas[v], scores[v], before[v], level, part)} | v < g.N() ::
      VertexSwept(g, s, depth, v, deltas[v], scores[v], before[v], level, part)
  }

  ghost predicate VertexSwept(g: Graph, s: nat, depth: seq<int>, v: nat, delta: real, score: real, before: real,
                              level: int, part: seq<nat>)
    requires g.Valid() && s < g.N() && Depths(g, s, depth) && v < g.N()
  {
    if depth[v] >= 0 && (depth[v] >= level || v in part)
    then DeltaOk(g, s, depth, v, delta) && score == before + delta
    else delta == 0.0 && score == before
  }

  lemma SweptBelow(g: Graph, s: nat, depth: seq<int>, deltas: seq<real>, scores: seq<real>, before: seq<real>,
                   level: int, part: seq<nat>, u: nat)
    requires Swept(g, s, depth, deltas, scores, before, level, part) && u < g.N() && depth[u] >= 0
      && depth[u] + 1 >= level
    ensures BelowOk(g, s, depth, deltas, u)
  {
    forall v: nat | v < g.N() && depth[v] == depth[u] + 1 ensures DeltaOk(g, s, depth, v, deltas[v]) {
      assert VertexSwept(g, s, depth, v, deltas[v], scores[v], before[v], level, part);
    }
  }

  lemma SweepOne(g: Graph, s: nat, depth: seq<int>, deltas: seq<real>, scores: seq<real>, before: seq<real>,
                 level: int, part: seq<nat>, u: nat)
    requires Swept(g, s, depth, deltas, scores, before, level, part) && u < g.N() && 0 <= depth[u] < level && u !in part
    ensures var d := Dependency(g, s, depth, u, g.N());
      Swept(g, s, depth, deltas[u := d], scores[u := scores[u] + d], before, level, part + [u])
  {
    var d := Dependency(g, s, depth, u, g.N());
    var deltas', scores' := deltas[u := d], scores[u := scores[u] + d];
    forall v: nat | v < g.N() ensures VertexSwept(g, s, depth, v, deltas'[v], scores'[v], before[v], level,
                                                  part + [u]) {
      assert VertexSwept(g, s, depth, v, deltas[v], scores[v], before[v], level, part);
    }
  }

  // A whole level listed is a whole level swept.
  lemma SweptLevel(g: Graph, s: nat, depth: seq<int>, deltas: seq<real>, scores: seq<real>, before: seq<real>,
                   level: int, part: seq<nat>)
    requires Swept(g, s, depth, deltas, scores, before, level, part) && PbfsThreads.ListsDepth(depth, part, level - 1)
    ensures Swept(g, s, depth, deltas, scores, before, level - 1, [])
  {
    forall v: nat | v < g.N() ensures VertexSwept(g, s, depth, v, deltas[v], scores[v], before[v], level - 1, []) {
      assert VertexSwept(g, s, depth, v, deltas[v], scores[v], before[v], level, part);
    }
  }

  lemma NothingSwept(g: Graph, s: nat, depth: seq<int>, zeros: seq<real>, scores: seq<real>, level: int)
    requires g.Valid() && s < g.N() && Depths(g, s, depth) && |zeros| == |scores| == g.N()
    requires forall v: nat | v < g.N() :: depth[v] < level && zeros[v] == 0.0
    ensures Swept(g, s, depth, zeros, scores, scores, level, [])
  {
    forall v: nat | v < g.N() ensures VertexSwept(g, s, depth, v, zeros[v], scores[v], scores[v], level, []) {}
  }

  // One vertex: its delta, and its score.
  method SweepVertex(g: Graph, pathCounts: array<nat>, succ: B.Bitmap, deltas: array<real>, scores: array<real>,
                     u: nat, ghost s: nat, ghost depth: seq<int>, ghost all: seq<nat>, ghost index: seq<nat>,
                     ghost before: seq<real>, ghost level: int, ghost part: seq<nat>)
    requires deltas != scores && pathCounts as object != deltas && pathCounts as object != scores
    requires succ.words as object != deltas && succ.words as object != scores && succ.Covers(EntriesTo(g, g.N()))
    requires Searched(g, s, depth, pathCounts[..], Bfs.Bits(succ), all, index)
    requires Swept(g, s, depth, deltas[..], scores[..], before, level, part)
    requires u < g.N() && depth[u] == level - 1 && depth[u] >= 0 && u !in part
    modifies deltas, scores
    ensures Swept(g, s, depth, deltas[..], scores[..], before, level, part + [u])
  {
    hide Searched, Depths, BelowOk, VertexSwept, Dependency, B.Member;
    ghost var d0, s0 := deltas[..], scores[..];
    SweptBelow(g, s, depth, d0, s0, before, level, part, u);
    SweepOne(g, s, depth, d0, s0, before, level, part, u);
    var deltaU := DeltaOf(g, pathCounts, succ, deltas, u, s, depth, all, index);
    deltas[u] := deltaU;
    scores[u] := scores[u] + deltaU;
    assert deltas[..] == d0[u := deltaU] && scores[..] == s0[u := s0[u] + deltaU];
  }

  lemma PieceFacts(depth: seq<int>, all: seq<nat>, index: seq<nat>, d: nat)
    requires Indexed(depth, all, index) && d < |index| - 1 && forall v: nat | v < |depth| :: -1 <= depth[v]
    ensures index[d] <= index[d + 1] <= |all| && (d == 0 ==> index[0] == index[1])
    ensures d > 0 ==> PbfsThreads.ListsDepth(depth, all[index[d]..index[d + 1]], d - 1)
  {
    if d > 0 { assert PieceOk(depth, all, index, d); } else { IndexGrows(depth, all, index, 1); }
  }

  // One piece of the depth index.
  method SweepPiece(g: Graph, pathCounts: array<nat>, succ: B.Bitmap, queue: Q.SlidingQueue, depthIndex: seq<nat>,
                    deltas: array<real>, scores: array<real>, d: nat, ghost s: nat, ghost depth: seq<int>,
                    ghost before: seq<real>)
    requires deltas != scores && pathCounts as object != deltas && pathCounts as object != scores
    requires succ.words as object != deltas && succ.words as object != scores && succ.Covers(EntriesTo(g, g.N()))
    requires queue.Valid() && queue.shared as object != deltas && queue.shared as object != scores
    requires Searched(g, s, depth, pathCounts[..], Bfs.Bits(succ), queue.All(), depthIndex) && d < |depthIndex| - 1
    requires Swept(g, s, depth, deltas[..], scores[..], before, d, [])
    modifies deltas, scores
    ensures Swept(g, s, depth, deltas[..], scores[..], before, (d as int) - 1, [])
  {
    hide Searched, Swept, Depths, Indexed, VertexSwept, B.Member;
    SearchedFacts(g, s, depth, pathCounts[..], Bfs.Bits(succ), queue.All(), depthIndex);
    DepthsAreClosed(g, s, depth);
    PieceFacts(depth, queue.All(), depthIndex, d);
    ghost var piece := queue.All()[depthIndex[d]..depthIndex[d + 1]];
    assert piece[..0] == [];
    for it := depthIndex[d] to depthIndex[d + 1]
      invariant Swept(g, s, depth, deltas[..], scores[..], before, d, piece[..it - depthIndex[d]])
    {
      ghost var j := it - depthIndex[d];
      var u := queue.shared[it];
      assert u == queue.All()[it] == piece[j] && u in piece;
      assert u !in piece[..j] && piece[..j + 1] == piece[..j] + [u];
      SweepVertex(g, pathCounts, succ, deltas, scores, u, s, depth, queue.All(), depthIndex, before, d, piece[..j]);
    }
    assert piece[..depthIndex[d + 1] - depthIndex[d]] == piece;
    LastOfPiece(g, s, depth, deltas[..], scores[..], before, d, piece);
  }

  lemma LastOfPiece(g: Graph, s: nat, depth: seq<int>, deltas: seq<real>, scores: seq<real>, before: seq<real>, d: nat,
                    piece: seq<nat>)
    requires Swept(g, s, depth, deltas, scores, before, d, piece)
    requires if d == 0 then piece == [] else PbfsThreads.ListsDepth(depth, piece, d - 1)
    ensures Swept(g, s, depth, deltas, scores, before, (d as int) - 1, [])
  {
    if d > 0 {
      SweptLevel(g, s, depth, deltas, scores, before, d, piece);
    } else {
      forall v: nat | v < g.N() ensures VertexSwept(g, s, depth, v, deltas[v], scores[v], before[v], -1, []) {
        assert VertexSwept(g, s, depth, v, deltas[v], scores[v], before[v], 0, []);
      }
    }
  }

  lemma SweptIsScore(g: Graph, s: nat, depth: seq<int>, deltas: seq<real>, scores: seq<real>, before: seq<real>)
    requires Swept(g, s, depth, deltas, scores, before, -1, [])
    ensures forall u: nat | u < g.N() :: scores[u] == before[u] + Score(g, s, u)
  {
    DepthsUnique(g, s, depth, DepthsFrom(g, s));
    forall u: nat | u < g.N() ensures scores[u] == before[u] + Score(g, s, u) {
      assert VertexSwept(g, s, depth, u, deltas[u], scores[u], before[u], -1, []);
    }
  }

  // From the farthest level to the source.
  method BackPropagate(g: Graph, pathCounts: array<nat>, succ: B.Bitmap, queue: Q.SlidingQueue, depthIndex: seq<nat>,
                       scores: array<real>, ghost s: nat, ghost depth: seq<int>)
    requires pathCounts as object != scores && succ.words as object != scores && succ.Covers(EntriesTo(g, g.N()))
    requires queue.Valid() && queue.shared as object != scores && scores.Length == g.N() && g.Valid() && s < g.N()
    requires Searched(g, s, depth, pathCounts[..], Bfs.Bits(succ), queue.All(), depthIndex)
    modifies scores
    ensures forall u: nat | u < g.N() :: scores[u] == old(scores[u]) + Score(g, s, u)
  {
    hide Searched, Swept, Depths, Indexed, VertexSwept, Score, B.Member;
    SearchedFacts(g, s, depth, pathCounts[..], Bfs.Bits(succ), queue.All(), depthIndex);
    ghost var before := scores[..];
    var deltas := new real[g.N()](_ => 0.0);
    AtLeastTwo(depth, queue.All(), depthIndex);
    NothingSwept(g, s, depth, deltas[..], before, |depthIndex| - 2);
    SweepPieces(g, pathCounts, succ, queue, depthIndex, deltas, scores, s, depth, before);
    SweptIsScore(g, s, depth, deltas[..], scores[..], before);
  }

  lemma AtLeastTwo(depth: seq<int>, all: seq<nat>, index: seq<nat>)
    requires Indexed(depth, all, index)
    ensures |index| >= 2
  {
  }

  method SweepPieces(g: Graph, pathCounts: array<nat>, succ: B.Bitmap, queue: Q.SlidingQueue, depthIndex: seq<nat>,
                     deltas: array<real>, scores: array<real>, ghost s: nat, ghost depth: seq<int>,
                     ghost before: seq<real>)
    requires deltas != scores && pathCounts as object != deltas && pathCounts as object != scores
    requires succ.words as object != deltas && succ.words as object != scores && succ.Covers(EntriesTo(g, g.N()))
    requires queue.Valid() && queue.shared as object != deltas && queue.shared as object != scores && |depthIndex| >= 2
    requires Searched(g, s, depth, pathCounts[..], Bfs.Bits(succ), queue.All(), depthIndex)
    requires Swept(g, s, depth, deltas[..], scores[..], before, |depthIndex| - 2, [])
    modifies deltas, scores
    ensures Swept(g, s, depth, deltas[..], scores[..], before, -1, [])
  {
    hide Searched, Swept, B.Member;
    var d: int := |depthIndex| - 2;
    while d >= 0
      invariant -1 <= d <= |depthIndex| - 2
      invariant Swept(g, s, depth, deltas[..], scores[..], before, d, [])
    {
      SweepPiece(g, pathCounts, succ, queue, depthIndex, deltas, scores, d, s, depth, before);
      d := d - 1;
    }
  }

  method ClearCounts(counts: array<nat>)
    modifies counts
    ensures forall v: nat | v < counts.Length :: counts[v] == 0
  {
    for v := 0 to counts.Length
      invariant forall x: nat | x < v :: counts[x] == 0
    {
      counts[v] := 0;
    }
  }

  // One iteration: search from the source, propagate back.
  method OneSource(g: Graph, source: nat, pathCounts: array<nat>, succ: B.Bitmap, queue: Q.SlidingQueue,
                   scores: array<real>)
    requires g.Valid() && source < g.N() && pathCounts.Length == scores.Length == g.N()
    requires pathCounts as object != succ.words && pathCounts != queue.shared && succ.words as object != queue.shared
    requires scores as object != pathCounts && scores as object != succ.words && scores as object != queue.shared
    requires queue.Valid() && g.N() <= queue.shared.Length && succ.Covers(EntriesTo(g, g.N()))
    modifies pathCounts, succ.words, queue, queue.shared, scores
    ensures queue.Valid() && forall u: nat | u < g.N() :: scores[u] == old(scores[u]) + Score(g, source, u)
  {
    hide Searched, Score, Indexed, Depths, B.Member;
    ClearCounts(pathCounts);
    queue.Reset();
    succ.Reset();
    var depthIndex, depth := PBFS(g, source, pathCounts, succ, queue);
    BackPropagate(g, pathCounts, succ, queue, depthIndex, scores, source, depth);
  }

  ghost predicate ScoresAre(g: Graph, sources: seq<nat>, k: nat, scores: seq<real>)
    requires g.Valid() && k <= |sources| && forall i | 0 <= i < |sources| :: sources[i] < g.N()
  {
    |scores| == g.N() && forall u: nat | u < g.N() :: scores[u] == TotalScore(g, sources, k, u)
  }

  lemma ScoresStart(g: Graph, sources: seq<nat>, scores: seq<real>)
    requires g.Valid() && forall i | 0 <= i < |sources| :: sources[i] < g.N()
    requires |scores| == g.N() && forall u: nat | u < g.N() :: scores[u] == 0.0
    ensures ScoresAre(g, sources, 0, scores)
  {
  }

  lemma ScoresStep(g: Graph, sources: seq<nat>, k: nat, before: seq<real>, after: seq<real>)
    requires g.Valid() && k < |sources| && forall i | 0 <= i < |sources| :: sources[i] < g.N()
    requires ScoresAre(g, sources, k, before) && |after| == g.N()
    requires forall u: nat | u < g.N() :: after[u] == before[u] + Score(g, sources[k], u)
    ensures ScoresAre(g, sources, k + 1, after)
  {
  }

  // The scores before normalization: the sum over the picked sources of each
  // vertex's share of shortest paths.
  method Brandes(g: Graph, sources: seq<nat>) returns (scores: array<real>)
    requires g.Valid() && forall i | 0 <= i < |sources| :: sources[i] < g.N()
    requires g.directed || EntriesTo(g, g.N()) % 2 == 0
    ensures fresh(scores) && ScoresAre(g, sources, |sources|, scores[..])
  {
    hide Score, B.Member, ScoresAre, EntriesTo;
    scores := new real[g.N()](_ => 0.0);
    ScoresStart(g, sources, scores[..]);
    var pathCounts := new nat[g.N()];
    var succ := new B.Bitmap(EdgeCounts.NumEdgesDirected(g));
    EdgeCounts.CountIsExact(g);
    var queue := new Q.SlidingQueue(g.N());
    ghost var words := succ.words;
    for i := 0 to |sources|
      invariant succ.words == words && queue.Valid()
      invariant ScoresAre(g, sources, i, scores[..])
    {
      ghost var before := scores[..];
      OneSource(g, sources[i], pathCounts, succ, queue, scores);
      ScoresStep(g, sources, i, before, scores[..]);
    }
  }
}
