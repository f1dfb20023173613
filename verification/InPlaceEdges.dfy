// The first half of building in place: the sorted edge list's own memory is
// overwritten with the rows of outgoing neighbours.
module InPlaceEdges {
  import opened Lists
  import opened Csr
  import opened CsrBuild

  predicate EdgeLe(a: Edge, b: Edge) { a.u < b.u || (a.u == b.u && a.v <= b.v) }

  predicate EdgeEq(a: Edge, b: Edge) { a == b }

  ghost predicate StrictlyOrdered(sq: seq<Edge>) {
    forall i, j | 0 <= i < j < |sq| :: EdgeLe(sq[i], sq[j]) && sq[i] != sq[j]
  }

  // sort, unique and remove_if of self-loops on the edge list.
  function Prepared(el: seq<Edge>): seq<Edge> {
    Without((e: Edge) => e.u == e.v, DropRepeats(EdgeEq, SortBy(EdgeLe, el)))
  }

  // Every edge that is not a self-loop survives once, in order.
  lemma {:induction false} PreparedProperties(el: seq<Edge>)
    ensures StrictlyOrdered(Prepared(el))
    ensures forall e :: e in Prepared(el) <==> e in el && e.u != e.v
  {
    SortByProperties(EdgeLe, el);
    var s := SortBy(EdgeLe, el);
    DropRepeatsProperties(EdgeLe, EdgeEq, s);
    var u := DropRepeats(EdgeEq, s);
    WithoutKeepsOrder(EdgeLe, EdgeEq, (e: Edge) => e.u == e.v, u);
    var r := Prepared(el);
    forall i, j | 0 <= i < j < |r| ensures EdgeLe(r[i], r[j]) && r[i] != r[j] {
      SortedAt(EdgeLe, r, i, j);
      NoRepeatsAt(EdgeEq, r, i, j);
    }
    forall e ensures e in r <==> e in el && e.u != e.v {
      if e in el { assert HasLeast(EdgeLe, EdgeEq, u, e); }
    }
  }

  // ------------------------------------- where the rows of a sorted list start

  // How many of the first k edges leave a vertex below u.
  ghost function CountBelow(sq: seq<Edge>, u: nat, k: nat): nat
    requires k <= |sq|
  {
    if k == 0 then 0 else CountBelow(sq, u, k - 1) + if sq[k - 1].u < u then 1 else 0
  }

  lemma {:induction false} CountNext(sq: seq<Edge>, u: nat, k: nat)
    requires k <= |sq|
    ensures CountBelow(sq, u + 1, k) == CountBelow(sq, u, k) + |Pushed(sq, true, false, u, k)|
  {
    if k > 0 { CountNext(sq, u, k - 1); }
  }

  lemma {:induction false} CountZero(sq: seq<Edge>, k: nat)
    requires k <= |sq|
    ensures CountBelow(sq, 0, k) == 0
  {
    if k > 0 { CountZero(sq, k - 1); }
  }

  // Prefix sums of the out-degrees count the edges below.
  lemma {:induction false} SumsCountBelow(sq: seq<Edge>, degrees: seq<nat>, u: nat)
    requires u <= |degrees| && DegreesOf(sq, true, false, |sq|, degrees)
    ensures SumTo(degrees, u) == CountBelow(sq, u, |sq|)
  {
    if u == 0 {
      CountZero(sq, |sq|);
    } else {
      SumsCountBelow(sq, degrees, u - 1);
      CountNext(sq, u - 1, |sq|);
    }
  }

  lemma {:induction false} AllBelow(sq: seq<Edge>, u: nat, k: nat)
    requires k <= |sq| && forall i | 0 <= i < k :: sq[i].u < u
    ensures CountBelow(sq, u, k) == k
  {
    if k > 0 { AllBelow(sq, u, k - 1); }
  }

  lemma {:induction false} NoneBelow(sq: seq<Edge>, u: nat, j: nat, k: nat)
    requires j <= k <= |sq| && forall i | j <= i < k :: sq[i].u >= u
    ensures CountBelow(sq, u, k) == CountBelow(sq, u, j)
    decreases k
  {
    if j < k { NoneBelow(sq, u, j, k - 1); }
  }

  // offsets are where the rows of sq start.
  ghost predicate RowStarts(sq: seq<Edge>, n: nat, offsets: seq<nat>) {
    && StrictlyOrdered(sq) && InRange(sq, n)
    && |offsets| == n + 1
    && forall u: nat | u <= n :: offsets[u] == CountBelow(sq, u, |sq|)
  }

  // Edge k of a sorted list is the next value of its row at cell k.
  lemma {:induction false} HitsCell(sq: seq<Edge>, n: nat, offsets: seq<nat>, k: nat)
    requires RowStarts(sq, n, offsets) && k < |sq|
    ensures sq[k].u < n && sq[k].v < n
    ensures offsets[sq[k].u] + |Pushed(sq, true, false, sq[k].u, k)| == k
  {
    var u := sq[k].u;
    assert sq[k] in sq;
    forall i | k <= i < |sq| ensures sq[i].u >= u { assert i > k ==> EdgeLe(sq[k], sq[i]); }
    forall i | 0 <= i < k ensures sq[i].u < u + 1 { assert EdgeLe(sq[i], sq[k]); }
    NoneBelow(sq, u, k, |sq|);
    CountNext(sq, u, k);
    AllBelow(sq, u + 1, k);
  }

  lemma {:induction false} PushedAreCells(sq: seq<Edge>, n: nat, offsets: seq<nat>, u: nat, k: nat)
    requires RowStarts(sq, n, offsets) && u < n && k <= |sq|
    ensures forall t: nat | t < |Pushed(sq, true, false, u, k)| ::
      offsets[u] + t < k && sq[offsets[u] + t] == Edge(u, Pushed(sq, true, false, u, k)[t])
  {
    if k > 0 {
      PushedAreCells(sq, n, offsets, u, k - 1);
      HitsCell(sq, n, offsets, k - 1);
    }
  }

  lemma {:induction false} CountOrder(sq: seq<Edge>, u: nat, w: nat, k: nat)
    requires k <= |sq| && u <= w
    ensures CountBelow(sq, u, k) <= CountBelow(sq, w, k)
  {
    if k > 0 { CountOrder(sq, u, w, k - 1); }
  }

  lemma {:induction false} RowStartsAreOffsets(sq: seq<Edge>, n: nat, offsets: seq<nat>)
    requires RowStarts(sq, n, offsets)
    ensures Offsets(offsets, n, |sq|)
  {
    CountZero(sq, |sq|);
    forall i | 0 <= i < |sq| ensures sq[i].u < n { assert sq[i] in sq; }
    AllBelow(sq, n, |sq|);
    forall u, w | 0 <= u <= w <= n ensures offsets[u] <= offsets[w] { CountOrder(sq, u, w, |sq|); }
  }

  ghost function Targets(sq: seq<Edge>): (r: seq<nat>)
    ensures |r| == |sq| && forall k | 0 <= k < |sq| :: r[k] == sq[k].v
  {
    seq(|sq|, k requires 0 <= k < |sq| => sq[k].v)
  }

  ghost function OutRows(sq: seq<Edge>, n: nat): seq<seq<nat>> { RowsAt(sq, true, false, n, |sq|) }

  // Rows of length |rows[u]|, strictly sorted, follow one another from the offsets.
  ghost predicate RowsInPlace(offsets: seq<nat>, mem: seq<nat>, rows: seq<seq<nat>>) {
    && |offsets| == |rows| + 1 && offsets[0] == 0
    && forall u: nat | u < |rows| ::
      offsets[u] + |rows[u]| == offsets[u + 1] && Holds(mem, offsets[u], rows[u]) && StrictlySorted(rows[u])
  }

  // The targets of the sorted edges are the rows, one after another.
  lemma {:induction false} TargetsAreRows(sq: seq<Edge>, n: nat, offsets: seq<nat>, mem: seq<nat>)
    requires RowStarts(sq, n, offsets) && |sq| <= |mem| && mem[..|sq|] == Targets(sq)
    ensures RowsInPlace(offsets, mem, OutRows(sq, n)) && offsets[n] == |sq|
    ensures forall u: nat, v: nat | u < n :: v in OutRows(sq, n)[u] <==> Edge(u, v) in sq
  {
    RowStartsAreOffsets(sq, n, offsets);
    forall u: nat | u < n
      ensures offsets[u] + |OutRows(sq, n)[u]| == offsets[u + 1] && Holds(mem, offsets[u], OutRows(sq, n)[u])
      ensures StrictlySorted(OutRows(sq, n)[u])
    {
      CountNext(sq, u, |sq|);
      RowIsSlice(sq, n, offsets, mem, u);
    }
    forall u: nat, v: nat | u < n ensures v in OutRows(sq, n)[u] <==> Edge(u, v) in sq {
      PushedMembers(sq, true, false, u, |sq|, v);
      assert sq[..|sq|] == sq;
    }
  }

  lemma {:induction false} RowIsSlice(sq: seq<Edge>, n: nat, offsets: seq<nat>, mem: seq<nat>, u: nat)
    requires RowStarts(sq, n, offsets) && |sq| <= |mem| && mem[..|sq|] == Targets(sq) && u < n
    requires offsets[u] + |Pushed(sq, true, false, u, |sq|)| == offsets[u + 1]
    ensures Holds(mem, offsets[u], Pushed(sq, true, false, u, |sq|)) && StrictlySorted(Pushed(sq, true, false, u, |sq|))
  {
    var row := Pushed(sq, true, false, u, |sq|);
    PushedAreCells(sq, n, offsets, u, |sq|);
    RowStartsAreOffsets(sq, n, offsets);
    forall i | offsets[u] <= i < offsets[u] + |row| ensures mem[i] == row[i - offsets[u]] {
      assert sq[offsets[u] + (i - offsets[u])] == Edge(u, row[i - offsets[u]]);
      assert mem[..|sq|][i] == mem[i];
    }
    forall s, t | 0 <= s < t < |row| ensures row[s] < row[t] {
      assert EdgeLe(sq[offsets[u] + s], sq[offsets[u] + t]);
    }
  }

  // ---------------------------------------------- overwriting the edge list

  // Cells 2k and 2k + 1 hold the ends of edge k, for every edge from the k-th on.
  ghost predicate EdgesFrom(mem: seq<nat>, sq: seq<Edge>, k: nat) {
    && 2 * |sq| <= |mem|
    && forall i: nat | k <= i < |sq| :: mem[2 * i] == sq[i].u && mem[2 * i + 1] == sq[i].v
  }

  lemma {:induction false} WriteKeepsLaterEdges(mem: seq<nat>, sq: seq<Edge>, k: nat, x: nat)
    requires EdgesFrom(mem, sq, k) && k < |sq|
    ensures EdgesFrom(mem[k := x], sq, k + 1)
  {
  }

  // Lays the edges out two cells each, as the edge list's storage holds them.
  method Storage(sq: seq<Edge>) returns (mem: array<nat>)
    ensures fresh(mem) && mem.Length == 2 * |sq| && EdgesFrom(mem[..], sq, 0)
  {
    mem := new nat[2 * |sq|];
    for k := 0 to |sq|
      invariant forall i: nat | i < k :: mem[2 * i] == sq[i].u && mem[2 * i + 1] == sq[i].v
    {
      mem[2 * k] := sq[k].u;
      mem[2 * k + 1] := sq[k].v;
    }
  }

  ghost predicate Advanced(sq: seq<Edge>, start: seq<nat>, offs: seq<nat>, k: nat)
    requires k <= |sq|
  {
    && |offs| == |start| > 0 && offs[|start| - 1] == start[|start| - 1]
    && forall u: nat | u + 1 < |start| :: offs[u] == start[u] + |Pushed(sq, true, false, u, k)|
  }

  lemma {:induction false} AdvancedStart(sq: seq<Edge>, start: seq<nat>)
    requires start != []
    ensures Advanced(sq, start, start, 0)
  {
  }

  lemma {:induction false} AdvanceOne(sq: seq<Edge>, n: nat, start: seq<nat>, offs: seq<nat>, k: nat)
    requires RowStarts(sq, n, start) && k < |sq| && Advanced(sq, start, offs, k)
    ensures sq[k].u < n && offs[sq[k].u] == k
    ensures Advanced(sq, start, offs[sq[k].u := k + 1], k + 1)
  {
    HitsCell(sq, n, start, k);
  }

  // The first k cells hold the targets of the first k edges; the later edges are intact.
  ghost predicate Overwritten(mem: seq<nat>, sq: seq<Edge>, start: seq<nat>, offs: seq<nat>, k: nat) {
    && k <= |sq| && EdgesFrom(mem, sq, k)
    && (forall i: nat | i < k :: mem[i] == sq[i].v)
    && Advanced(sq, start, offs, k)
  }

  lemma {:induction false} OverwriteStep(mem: seq<nat>, sq: seq<Edge>, start: seq<nat>, offs: seq<nat>, n: nat, k: nat)
    requires RowStarts(sq, n, start) && Overwritten(mem, sq, start, offs, k) && k < |sq|
    ensures sq[k].u < |offs| && offs[sq[k].u] == k < |mem|
    ensures Overwritten(mem[k := sq[k].v], sq, start, offs[sq[k].u := k + 1], k + 1)
  {
    AdvanceOne(sq, n, start, offs, k);
    WriteKeepsLaterEdges(mem, sq, k, sq[k].v);
  }

  // (*neighs)[offsets[e.u]++] = e.v over the edge list's own memory: edge k
  // goes to cell k, and no edge is overwritten before it is read.
  method OverwriteEdges(mem: array<nat>, offs: array<nat>, ghost sq: seq<Edge>, m: nat)
    requires mem != offs && offs.Length > 0 && m == |sq| && EdgesFrom(mem[..], sq, 0)
      && RowStarts(sq, offs.Length - 1, offs[..])
    modifies mem, offs
    ensures Overwritten(mem[..], sq, old(offs[..]), offs[..], m)
  {
    ghost var start := offs[..];
    AdvancedStart(sq, start);
    for k := 0 to m
      invariant Overwritten(mem[..], sq, start, offs[..], k)
    {
      OverwriteEdge(mem, offs, sq, start, k);
    }
  }

  method OverwriteEdge(mem: array<nat>, offs: array<nat>, ghost sq: seq<Edge>, ghost start: seq<nat>, k: nat)
    requires mem != offs && offs.Length > 0 && k < |sq|
    requires RowStarts(sq, offs.Length - 1, start) && Overwritten(mem[..], sq, start, offs[..], k)
    modifies mem, offs
    ensures Overwritten(mem[..], sq, start, offs[..], k + 1)
  {
    var u: nat, v: nat := mem[2 * k], mem[2 * k + 1];
    OverwriteStep(mem[..], sq, start, offs[..], offs.Length - 1, k);
    ghost var mem0, offs0 := mem[..], offs[..];
    mem[offs[u]] := v;
    offs[u] := offs[u] + 1;
    assert mem[..] == mem0[k := v] && offs[..] == offs0[u := (k + 1) as nat];
  }

  // Shifting every offset down by one vertex takes back the advances.
  method ShiftDown(offs: array<nat>)
    requires offs.Length > 0
    modifies offs
    ensures offs[0] == 0 && forall u: nat | 0 < u < offs.Length :: offs[u] == old(offs[u - 1])
  {
    for n := offs.Length downto 0
      invariant forall u: nat | u < n :: offs[u] == old(offs[u])
      invariant forall u: nat | n <= u < offs.Length :: offs[u] == if u == 0 then 0 else old(offs[u - 1])
    {
      offs[n] := if n != 0 then offs[n - 1] else 0;
    }
  }

  lemma {:induction false} ShiftRestores(sq: seq<Edge>, n: nat, start: seq<nat>, offs: seq<nat>, shifted: seq<nat>)
    requires RowStarts(sq, n, start) && Advanced(sq, start, offs, |sq|) && |shifted| == n + 1
    requires shifted[0] == 0 && forall u: nat | 0 < u <= n :: shifted[u] == offs[u - 1]
    ensures shifted == start
  {
    CountZero(sq, |sq|);
    forall u: nat | 0 < u <= n ensures shifted[u] == start[u] {
      CountNext(sq, u - 1, |sq|);
    }
  }

  // Turns the prepared edge list into rows of outgoing neighbours, in its own memory.
  method OutgoingInPlace(sq: seq<Edge>, n: nat, symmetrize: bool) returns (mem: array<nat>, offsets: array<nat>)
    requires StrictlyOrdered(sq) && InRange(sq, n)
    ensures fresh(mem) && fresh(offsets) && mem != offsets && |sq| <= mem.Length
    ensures RowStarts(sq, n, offsets[..]) && mem[..|sq|] == Targets(sq)
  {
    var degrees := CountDegrees(sq, n, symmetrize, false, true);
    offsets := ParallelPrefixSum(degrees);
    forall u: nat | u <= n ensures offsets[u] == CountBelow(sq, u, |sq|) { SumsCountBelow(sq, degrees[..], u); }
    mem := Storage(sq);
    ghost var start := offsets[..];
    OverwriteEdges(mem, offsets, sq, |sq|);
    ghost var advanced := offsets[..];
    assert mem[..|sq|] == Targets(sq);
    ShiftDown(offsets);
    ShiftRestores(sq, n, start, advanced, offsets[..]);
  }

  // ------------------------------------------------ without symmetrization

  // The rows of incoming neighbours, filled by walking the outgoing rows in order.
  method Invert(mem: array<nat>, offsets: array<nat>, n: nat, ghost sq: seq<Edge>, inoffs: array<nat>, inv: array<nat>)
    requires inoffs != inv && mem != inoffs && mem != inv && offsets != inoffs && offsets != inv
    requires RowStarts(sq, n, offsets[..]) && |sq| <= mem.Length && mem[..|sq|] == Targets(sq)
    requires Offsets(inoffs[..], n, inv.Length) && Room(sq, false, true, inoffs[..])
    modifies inoffs, inv
    ensures Filled(old(inoffs[..]), inoffs[..], inv[..], RowsAt(sq, false, true, n, |sq|))
  {
    ghost var start := inoffs[..];
    NothingFilled(start, inv[..], RowsAt(sq, false, true, n, 0));
    RowStartsAreOffsets(sq, n, offsets[..]);
    for u := 0 to n
      invariant Filled(start, inoffs[..], inv[..], RowsAt(sq, false, true, n, offsets[u]))
    {
      InvertRow(mem, offsets, n, sq, inoffs, inv, start, u);
    }
  }

  method InvertRow(mem: array<nat>, offsets: array<nat>, n: nat, ghost sq: seq<Edge>, inoffs: array<nat>,
                   inv: array<nat>, ghost start: seq<nat>, u: nat)
    requires inoffs != inv && mem != inoffs && mem != inv && offsets != inoffs && offsets != inv && u < n
    requires RowStarts(sq, n, offsets[..]) && |sq| <= mem.Length && mem[..|sq|] == Targets(sq)
    requires offsets[u] <= offsets[u + 1] <= |sq|
    requires Offsets(start, n, inv.Length) && Room(sq, false, true, start)
    requires Filled(start, inoffs[..], inv[..], RowsAt(sq, false, true, n, offsets[u]))
    modifies inoffs, inv
    ensures Filled(start, inoffs[..], inv[..], RowsAt(sq, false, true, n, offsets[u + 1]))
  {
    for it := offsets[u] to offsets[u + 1]
      invariant Filled(start, inoffs[..], inv[..], RowsAt(sq, false, true, n, it))
    {
      SourceOfCell(sq, n, offsets[..], u, it);
      assert mem[..|sq|][it] == mem[it];
      InvertCell(n, sq, inoffs, inv, start, it, u, mem[it]);
    }
  }

  method InvertCell(n: nat, ghost sq: seq<Edge>, inoffs: array<nat>, inv: array<nat>, ghost start: seq<nat>,
                    ghost k: nat, u: nat, v: nat)
    requires inoffs != inv && InRange(sq, n) && k < |sq| && sq[k] == Edge(u, v) && u < n && v < n
    requires Offsets(start, n, inv.Length) && Room(sq, false, true, start)
    requires Filled(start, inoffs[..], inv[..], RowsAt(sq, false, true, n, k))
    modifies inoffs, inv
    ensures Filled(start, inoffs[..], inv[..], RowsAt(sq, false, true, n, k + 1))
  {
    EdgeRows(sq, false, true, n, k);
    RoomForEdge(sq, false, true, start, n, k);
    Push(inoffs, inv, v, u, start, RowsAt(sq, false, true, n, k));
  }

  // The cells of row u hold the edges of u.
  lemma {:induction false} SourceOfCell(sq: seq<Edge>, n: nat, offsets: seq<nat>, u: nat, k: nat)
    requires RowStarts(sq, n, offsets) && u < n && k < |sq| && offsets[u] <= k < offsets[u + 1]
    ensures sq[k].u == u && sq[k].v < n
  {
    CountNext(sq, u, |sq|);
    PushedAreCells(sq, n, offsets, u, |sq|);
    var t := k - offsets[u];
    assert sq[offsets[u] + t] == Edge(u, Pushed(sq, true, false, u, |sq|)[t]);
    assert sq[k] in sq;
  }

  // Sources pushed in the order of a sorted list come out sorted.
  lemma {:induction false} IncomingSorted(sq: seq<Edge>, v: nat, k: nat)
    requires StrictlyOrdered(sq) && k <= |sq|
    ensures StrictlySorted(Pushed(sq, false, true, v, k))
    ensures forall u | u in Pushed(sq, false, true, v, k) :: Edge(u, v) in sq[..k]
  {
    if k > 0 {
      IncomingSorted(sq, v, k - 1);
      var before := Pushed(sq, false, true, v, k - 1);
      assert sq[..k] == sq[..k - 1] + [sq[k - 1]];
      var now := Pushed(sq, false, true, v, k);
      forall i, j | 0 <= i < j < |now| ensures now[i] < now[j] {
        if j == |before| {
          assert now[i] == before[i] && before[i] in before;
          var e :| 0 <= e < k - 1 && sq[e] == Edge(before[i], v);
          assert EdgeLe(sq[e], sq[k - 1]);
        } else {
          assert now[i] == before[i] && now[j] == before[j];
        }
      }
    }
  }

  // What either row of the prepared list holds is what the full edge list asks for.
  lemma {:induction false} PreparedNeighbours(el: seq<Edge>, forwards: bool, backwards: bool, u: nat, row: seq<nat>)
    requires StrictlySorted(row)
    requires forall v: nat ::
      v in row <==> (forwards && Edge(u, v) in Prepared(el)) || (backwards && Edge(v, u) in Prepared(el))
    ensures RowBuilt(el, forwards, backwards, u, row)
  {
    PreparedProperties(el);
  }
}
