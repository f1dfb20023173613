// Rebuilding a graph with its vertices named by decreasing degree.
module Relabel {
  import opened Lists
  import opened Csr
  import opened CsrBuild
  import opened Triangles
  import TriangleCounting

  datatype DegreeId = DegreeId(degree: nat, id: nat)

  // std::greater on (degree, id) pairs, or equal.
  predicate Greater(a: DegreeId, b: DegreeId) {
    a.degree > b.degree || (a.degree == b.degree && a.id >= b.id)
  }

  function Pairs(g: Rows): (p: seq<DegreeId>)
    ensures |p| == |g| && forall n | 0 <= n < |g| :: p[n] == DegreeId(|g[n]|, n)
  {
    seq(|g|, n requires 0 <= n < |g| => DegreeId(|g[n]|, n))
  }

  function ByDegree(g: Rows): seq<DegreeId> { SortBy(Greater, Pairs(g)) }

  // a comes before b: by degree, and by name among equal degrees, both decreasing.
  ghost predicate Before(g: Rows, a: nat, b: nat) {
    a < |g| && b < |g| && (|g[a]| > |g[b]| || (|g[a]| == |g[b]| && a > b))
  }

  // The sorted pairs list every vertex once, with its degree, in that order.
  ghost predicate Ranking(g: Rows, ranks: seq<DegreeId>) {
    && |ranks| == |g|
    && (forall n | 0 <= n < |g| :: ranks[n].id < |g| && ranks[n].degree == |g[ranks[n].id]|)
    && (forall a, b | 0 <= a < b < |g| :: Before(g, ranks[a].id, ranks[b].id))
  }

  lemma ByDegreeRanks(g: Rows)
    ensures Ranking(g, ByDegree(g))
  {
    SortByProperties(Greater, Pairs(g));
    var ranks := ByDegree(g);
    forall n | 0 <= n < |g| ensures ranks[n].id < |g| && ranks[n].degree == |g[ranks[n].id]| {
      assert ranks[n] in ranks;
    }
    forall a, b | 0 <= a < b < |g| ensures Before(g, ranks[a].id, ranks[b].id) {
      SortedAt(Greater, ranks, a, b);
      if ranks[a].id == ranks[b].id {
        RepeatedTwice(ranks, a, b);
        DistinctOnce(Pairs(g), ranks[a]);
      }
    }
  }

  // newIds gives rank n to the n-th vertex of the ranking.
  ghost predicate Numbered(g: Rows, ranks: seq<DegreeId>, names: seq<nat>) {
    && Ranking(g, ranks) && |names| == |g|
    && forall n | 0 <= n < |g| :: names[ranks[n].id] == n
  }

  lemma NumberedIsBijection(g: Rows, ranks: seq<DegreeId>, names: seq<nat>, u: nat)
    requires Numbered(g, ranks, names) && u < |g|
    ensures names[u] < |g| && ranks[names[u]].id == u
  {
    var ids := seq(|g|, n requires 0 <= n < |g| => ranks[n].id);
    NamesCover(ids, |g|, u);
    var n: nat :| n < |g| && ids[n] == u;
    assert names[ranks[n].id] == n;
  }

  // degrees[n] and new_ids from the sorted pairs.
  method Number(g: Rows, ranks: seq<DegreeId>) returns (degrees: array<nat>, newIds: array<nat>)
    requires Ranking(g, ranks)
    ensures fresh(degrees) && fresh(newIds) && degrees.Length == |g| && Numbered(g, ranks, newIds[..])
    ensures forall n | 0 <= n < |g| :: degrees[n] == ranks[n].degree
  {
    degrees, newIds := new nat[|g|], new nat[|g|];
    for n := 0 to |g|
      invariant forall k | 0 <= k < n :: degrees[k] == ranks[k].degree && newIds[ranks[k].id] == k
    {
      degrees[n] := ranks[n].degree;
      newIds[ranks[n].id] := n;
    }
  }

  // ------------------------------------------------------------------- the rows

  ghost function Translated(names: seq<nat>, row: seq<nat>): (r: seq<nat>)
    ensures |r| == |row| && forall j | 0 <= j < |row| && row[j] < |names| :: r[j] == names[row[j]]
  {
    seq(|row|, j requires 0 <= j < |row| => if row[j] < |names| then names[row[j]] else 0)
  }

  // Rows of the vertices below u are written and sorted, the others empty.
  ghost predicate Written(g: Rows, names: seq<nat>, rows: seq<seq<nat>>, u: nat)
    requires Simple(g) && |names| == |g|
  {
    && |rows| == |g|
    && forall x: nat | x < |g| && names[x] < |g| ::
      rows[names[x]] == if x < u then Sort(Translated(names, g[x])) else []
  }

  ghost predicate RowFits(g: Rows, names: seq<nat>, start: seq<nat>, u: nat)
    requires u < |g| == |names|
  {
    names[u] + 1 < |start| && start[names[u]] + |g[u]| == start[names[u] + 1]
  }

  method FillRow(g: Rows, newIds: array<nat>, offs: array<nat>, neighs: array<nat>, u: nat, ghost start: seq<nat>,
                 ghost rows: seq<seq<nat>>)
    requires Simple(g) && u < |g| == newIds.Length == |rows| && newIds[u] < |g|
    requires offs != neighs && newIds != offs && newIds != neighs
    requires Filled(start, offs[..], neighs[..], rows) && Offsets(start, |g|, neighs.Length) && rows[newIds[u]] == []
    requires RowFits(g, newIds[..], start, u)
    modifies offs, neighs
    ensures Filled(start, offs[..], neighs[..], rows[newIds[u] := Translated(newIds[..], g[u])])
  {
    var r := newIds[u];
    assert rows[r := Translated(newIds[..], g[u][..0])] == rows;
    for j := 0 to |g[u]|
      invariant Filled(start, offs[..], neighs[..], rows[r := Translated(newIds[..], g[u][..j])])
    {
      assert g[u][j] in g[u];
      ghost var now := rows[r := Translated(newIds[..], g[u][..j])];
      var x := newIds[g[u][j]];
      assert Translated(newIds[..], g[u][..j + 1]) == now[r] + [x];
      assert now[r := now[r] + [x]] == rows[r := Translated(newIds[..], g[u][..j + 1])];
      Push(offs, neighs, r, x, start, now);
    }
    assert g[u][..|g[u]|] == g[u];
  }

  lemma SortedRowStaysFilled(start: seq<nat>, offs: seq<nat>, neighs: seq<nat>, neighs': seq<nat>, rows: seq<seq<nat>>,
                             r: nat)
    requires Filled(start, offs, neighs, rows) && Offsets(start, |rows|, |neighs|) && r < |rows|
    requires start[r] + |rows[r]| == start[r + 1] && |Sort(rows[r])| == |rows[r]|
    requires SameOutside(neighs, neighs', start[r], start[r + 1]) && Holds(neighs', start[r], Sort(rows[r]))
    ensures Filled(start, offs, neighs', rows[r := Sort(rows[r])])
  {
    var rows' := rows[r := Sort(rows[r])];
    forall u: nat | u < |rows'| ensures RowFilled(start, offs, neighs', rows'[u], u) {
      assert RowFilled(start, offs, neighs, rows[u], u);
      if u != r {
        assert if u < r then start[u + 1] <= start[r] else start[r + 1] <= start[u];
        HoldsElsewhere(neighs, neighs', start[r], start[r + 1], start[u], rows[u]);
      }
    }
  }

  // One vertex: its renamed neighbours, sorted.
  method WriteRow(g: Rows, newIds: array<nat>, index: array<nat>, offs: array<nat>, neighs: array<nat>, u: nat,
                  ghost rows: seq<seq<nat>>)
    returns (ghost rows': seq<seq<nat>>)
    requires Simple(g) && u < |g| == newIds.Length == |rows| && newIds[u] < |g|
    requires offs != neighs && newIds != offs && newIds != neighs && index != offs && index != neighs
    requires Filled(index[..], offs[..], neighs[..], rows) && Offsets(index[..], |g|, neighs.Length)
      && rows[newIds[u]] == []
    requires RowFits(g, newIds[..], index[..], u)
    modifies offs, neighs
    ensures rows' == rows[newIds[u] := Sort(Translated(newIds[..], g[u]))]
    ensures Filled(index[..], offs[..], neighs[..], rows')
  {
    var r := newIds[u];
    ghost var row := Translated(newIds[..], g[u]);
    ghost var mid := rows[r := row];
    FillRow(g, newIds, offs, neighs, u, index[..], rows);
    assert RowFilled(index[..], offs[..], neighs[..], mid[r], r);
    HoldsSlice(neighs[..], index[r], row);
    assert neighs[index[r]..index[r + 1]] == row;
    ghost var before := neighs[..];
    SortRange(neighs, index[r], index[r + 1]);
    SortedRowStaysFilled(index[..], offs[..], before, neighs[..], mid, r);
    rows' := mid[r := Sort(row)];
  }

  ghost function RowsOf(index: seq<nat>, neighs: seq<nat>, n: nat): (h: Rows)
    requires Offsets(index, n, |neighs|)
    ensures |h| == n && forall u: nat | u < n :: h[u] == Row(index, neighs, u)
  {
    seq(n, u requires 0 <= u < n => Row(index, neighs, u))
  }

  lemma WrittenStep(g: Rows, ranks: seq<DegreeId>, names: seq<nat>, rows: seq<seq<nat>>, u: nat)
    requires Simple(g) && Numbered(g, ranks, names) && u < |g| && Written(g, names, rows, u) && names[u] < |g|
    ensures rows[names[u]] == []
    ensures Written(g, names, rows[names[u] := Sort(Translated(names, g[u]))], u + 1)
  {
    forall x: nat | x < |g| && x != u ensures names[x] != names[u] {
      NumberedIsBijection(g, ranks, names, x);
      NumberedIsBijection(g, ranks, names, u);
    }
  }

  lemma RanksFit(g: Rows, ranks: seq<DegreeId>, names: seq<nat>, degrees: seq<nat>, start: seq<nat>, u: nat)
    requires Numbered(g, ranks, names) && |degrees| == |g| && PrefixSums(degrees, start) && u < |g|
    requires forall n | 0 <= n < |g| :: degrees[n] == ranks[n].degree
    ensures names[u] < |g| && RowFits(g, names, start, u)
  {
    NumberedIsBijection(g, ranks, names, u);
    assert SumTo(degrees, names[u] + 1) == SumTo(degrees, names[u]) + degrees[names[u]];
  }

  // ---------------------------------------------------------- what comes out

  // h is g under the names, rows sorted, degrees never rising; the names follow the order.
  ghost predicate Relabelled(g: Rows, h: Rows, names: seq<nat>) {
    && Renames(g, h, names) && Simple(h)
    && (forall u: nat, v: nat | u < |g| && v < |g| :: names[u] < names[v] <==> Before(g, u, v))
    && forall a, b | 0 <= a <= b < |h| :: |h[a]| >= |h[b]|
  }

  lemma TranslatedProperties(g: Rows, ranks: seq<DegreeId>, names: seq<nat>, u: nat)
    requires Simple(g) && Numbered(g, ranks, names) && u < |g|
    ensures StrictlySorted(Sort(Translated(names, g[u]))) && |Sort(Translated(names, g[u]))| == |g[u]|
    ensures forall v: nat | v < |g| :: names[v] in Sort(Translated(names, g[u])) <==> v in g[u]
    ensures forall x | x in Sort(Translated(names, g[u])) :: exists v: nat :: v in g[u] && v < |g| && names[v] == x
  {
    var row := Translated(names, g[u]);
    forall j | 0 <= j < |row| ensures g[u][j] < |g| { assert g[u][j] in g[u]; }
    forall i, j | 0 <= i < j < |row| ensures row[i] != row[j] {
      NumberedIsBijection(g, ranks, names, g[u][i]);
      NumberedIsBijection(g, ranks, names, g[u][j]);
    }
    SortDistinct(row);
    forall x | x in row ensures exists v: nat :: v in g[u] && v < |g| && names[v] == x {
      var j :| 0 <= j < |row| && row[j] == x;
      assert g[u][j] in g[u];
    }
    forall v: nat | v < |g| ensures names[v] in row <==> v in g[u] {
      if v in g[u] {
        var j :| 0 <= j < |g[u]| && g[u][j] == v;
        assert row[j] == names[v];
      }
      if names[v] in row {
        var w: nat :| w in g[u] && w < |g| && names[w] == names[v];
        NumberedIsBijection(g, ranks, names, v);
        NumberedIsBijection(g, ranks, names, w);
      }
    }
  }

  lemma WrittenIsRelabelled(g: Rows, ranks: seq<DegreeId>, names: seq<nat>, h: Rows)
    requires Simple(g) && Numbered(g, ranks, names) && Written(g, names, h, |g|)
    ensures Relabelled(g, h, names)
  {
    forall u: nat | u < |g| ensures names[u] < |g| && h[names[u]] == Sort(Translated(names,
      g[u])) && ranks[names[u]].id == u {
      NumberedIsBijection(g, ranks, names, u);
    }
    forall u, v | 0 <= u < v < |g| ensures names[u] != names[v] {
      assert ranks[names[u]].id == u && ranks[names[v]].id == v;
    }
    forall u: nat, v: nat | u < |g| && v < |g| ensures HasEdge(g, u, v) <==> HasEdge(h, names[u], names[v]) {
      TranslatedProperties(g, ranks, names, u);
    }
    RelabelledRows(g, ranks, names, h);
  }

  lemma RelabelledRows(g: Rows, ranks: seq<DegreeId>, names: seq<nat>, h: Rows)
    requires Simple(g) && Numbered(g, ranks, names) && |h| == |g| && Renames(g, h, names)
    requires forall u: nat | u < |g| ::
      names[u] < |g| && h[names[u]] == Sort(Translated(names, g[u])) && ranks[names[u]].id == u
    ensures Simple(h) && forall a, b | 0 <= a <= b < |h| :: |h[a]| >= |h[b]|
  {
    forall a: nat | a < |h|
      ensures StrictlySorted(h[a]) && a !in h[a] && (forall b | b in h[a] :: b < |h|) && |h[a]| == ranks[a].degree
    {
      var u := ranks[a].id;
      assert names[u] == a;
      TranslatedProperties(g, ranks, names, u);
      assert u !in g[u];
    }
    forall a: nat, b: nat | HasEdge(h, a, b) ensures HasEdge(h, b, a) {
      var u, v := ranks[a].id, ranks[b].id;
      assert names[u] == a && names[v] == b;
      assert HasEdge(g, u, v) && HasEdge(g, v, u);
    }
  }

  lemma FilledAreRows(start: seq<nat>, offs: seq<nat>, neighs: seq<nat>, rows: seq<seq<nat>>)
    requires Filled(start, offs, neighs, rows) && Offsets(start, |rows|, |neighs|)
    requires forall r: nat | r < |rows| :: start[r] + |rows[r]| == start[r + 1]
    ensures RowsOf(start, neighs, |rows|) == rows
  {
    forall r: nat | r < |rows| ensures Row(start, neighs, r) == rows[r] {
      assert RowFilled(start, offs, neighs, rows[r], r);
    }
  }

  // The same graph with names by decreasing degree.
  method RelabelByDegree(g: Rows) returns (index: array<nat>, neighs: array<nat>, ghost names: seq<nat>)
    requires Simple(g)
    ensures Offsets(index[..], |g|, neighs.Length) && Relabelled(g, RowsOf(index[..], neighs[..], |g|), names)
  {
    hide Simple, Ranking, Written, RowFits, ByDegree, Relabelled, Translated;
    var ranks := ByDegree(g);
    ByDegreeRanks(g);
    var degrees, newIds := Number(g, ranks);
    names := newIds[..];
    var offsets := ParallelPrefixSum(degrees);
    PrefixSumsAreOffsets(degrees[..], offsets[..]);
    neighs := new nat[offsets[|g|]];
    index := GenIndex(offsets);
    forall u: nat | u < |g| ensures names[u] < |g| && RowFits(g, names, index[..], u) {
      RanksFit(g, ranks, names, degrees[..], index[..], u);
    }
    ghost var rows := WriteRows(g, ranks, newIds, index, offsets, neighs);
    forall r: nat | r < |g| ensures index[r] + |rows[r]| == index[r + 1] {
      RowIsFull(g, ranks, names, rows, index[..], r);
    }
    FilledAreRows(index[..], offsets[..], neighs[..], rows);
    WrittenIsRelabelled(g, ranks, names, rows);
  }

  lemma RowIsFull(g: Rows, ranks: seq<DegreeId>, names: seq<nat>, rows: seq<seq<nat>>, start: seq<nat>, r: nat)
    requires Simple(g) && Numbered(g, ranks, names) && Written(g, names, rows, |g|) && r < |g| && |start| == |g| + 1
    requires forall u: nat | u < |g| :: names[u] < |g| && RowFits(g, names, start, u)
    ensures start[r] + |rows[r]| == start[r + 1]
  {
    hide Simple, StrictlySorted, Sort, Translated;
    var u := ranks[r].id;
    assert names[u] == r && RowFits(g, names, start, u);
    TranslatedProperties(g, ranks, names, u);
  }

  method WriteRows(g: Rows, ranks: seq<DegreeId>, newIds: array<nat>, index: array<nat>, offs: array<nat>,
                   neighs: array<nat>)
    returns (ghost rows: seq<seq<nat>>)
    requires Simple(g) && Numbered(g, ranks, newIds[..]) && Offsets(index[..], |g|, neighs.Length)
      && offs[..] == index[..]
    requires offs != neighs && newIds != offs && newIds != neighs && index != offs && index != neighs
    requires forall u: nat | u < |g| :: newIds[u] < |g| && RowFits(g, newIds[..], index[..], u)
    modifies offs, neighs
    ensures |rows| == |g| && Filled(index[..], offs[..], neighs[..], rows) && Written(g, newIds[..], rows, |g|)
  {
    rows := seq(|g|, _ => []);
    NothingFilled(index[..], neighs[..], rows);
    for u := 0 to |g|
      invariant |rows| == |g| && Filled(index[..], offs[..], neighs[..], rows) && Written(g, newIds[..], rows, u)
    {
      WrittenStep(g, ranks, newIds[..], rows, u);
      rows := WriteRow(g, newIds, index, offs, neighs, u, rows);
    }
  }

  // Triangles, counted after relabelling or directly, whatever the heuristic says.
  method Hybrid(g: Rows, worthRelabelling: bool) returns (total: nat)
    requires Simple(g)
    ensures total == TriangleCount(g)
  {
    if worthRelabelling {
      var index, neighs, names := RelabelByDegree(g);
      ghost var h := RowsOf(index[..], neighs[..], |g|);
      RenamingKeepsTriangles(g, h, names);
      var rows := ReadRows(index, neighs, |g|);
      total := TriangleCounting.OrderedCount(rows);
    } else {
      total := TriangleCounting.OrderedCount(g);
    }
  }

  // The rows that the iterators of the new graph run over.
  method ReadRows(index: array<nat>, neighs: array<nat>, n: nat) returns (rows: Rows)
    requires Offsets(index[..], n, neighs.Length)
    ensures rows == RowsOf(index[..], neighs[..], n)
  {
    rows := [];
    for u := 0 to n
      invariant |rows| == u && forall x: nat | x < u :: rows[x] == Row(index[..], neighs[..], x)
    {
      rows := rows + [neighs[index[u]..index[u + 1]]];
    }
  }
}
