// Building compressed sparse rows from an edge list and squishing them:
// counting sort by row, then sort, unique and remove inside every row.
module CsrBuild {
  import opened Lists
  import opened Csr

  // Which ends of an edge go into the rows of a build.
  predicate Forwards(symmetrize: bool, transpose: bool) { symmetrize || !transpose }

  predicate Backwards(symmetrize: bool, transpose: bool) { symmetrize || transpose }

  // What the first k edges push onto row u, in edge order.
  function Pushed(el: seq<Edge>, forwards: bool, backwards: bool, u: nat, k: nat): seq<nat>
    requires k <= |el|
  {
    if k == 0 then []
    else
      var e := el[k - 1];
      Pushed(el, forwards, backwards, u, k - 1)
      + (if forwards && e.u == u then [e.v] else [])
      + (if backwards && e.v == u then [e.u] else [])
  }

  function RowValues(el: seq<Edge>, forwards: bool, backwards: bool, u: nat): seq<nat> {
    Pushed(el, forwards, backwards, u, |el|)
  }

  lemma {:induction false} PushedMembers(el: seq<Edge>, forwards: bool, backwards: bool, u: nat, k: nat, v: nat)
    requires k <= |el|
    ensures v in Pushed(el, forwards, backwards, u, k) <==>
            (forwards && Edge(u, v) in el[..k]) || (backwards && Edge(v, u) in el[..k])
  {
    if k > 0 {
      PushedMembers(el, forwards, backwards, u, k - 1, v);
      assert el[..k] == el[..k - 1] + [el[k - 1]];
    }
  }

  // How often the edge list puts v into row u: as often as it joins the two, in
  // the direction of the build, or in both.
  ghost function Times(el: seq<Edge>, symmetrize: bool, transpose: bool, u: nat, v: nat): nat {
    if symmetrize then multiset(el)[Edge(u, v)] + multiset(el)[Edge(v, u)]
    else if transpose then multiset(el)[Edge(v, u)]
    else multiset(el)[Edge(u, v)]
  }

  ghost function Often<T>(a: seq<T>, x: T): nat { multiset(a)[x] }

  lemma OftenAppend<T>(a: seq<T>, pushes: bool, y: T, x: T)
    ensures Often(a + if pushes then [y] else [], x) == Often(a, x) + if pushes && y == x then 1 else 0
  {
    if !pushes { assert a + [] == a; }
  }

  lemma OftenNone<T>(x: T)
    ensures Often([], x) == 0
  {
  }

  lemma {:induction false} PushedTimes(el: seq<Edge>, forwards: bool, backwards: bool, u: nat, k: nat, v: nat)
    requires k <= |el|
    ensures Often(Pushed(el, forwards, backwards, u, k), v)
         == (if forwards then Often(el[..k], Edge(u, v)) else 0) + (if backwards then Often(el[..k], Edge(v, u)) else 0)
  {
    hide Often;
    if k == 0 {
      OftenNone(v);
      OftenNone(Edge(u, v));
      OftenNone(Edge(v, u));
      assert el[..0] == [];
    } else {
      PushedTimes(el, forwards, backwards, u, k - 1, v);
      var e, before := el[k - 1], Pushed(el, forwards, backwards, u, k - 1);
      OftenAppend(before, forwards && e.u == u, e.v, v);
      OftenAppend(before + if forwards && e.u == u then [e.v] else [], backwards && e.v == u, e.u, v);
      OftenAppend(el[..k - 1], true, e, Edge(u, v));
      OftenAppend(el[..k - 1], true, e, Edge(v, u));
      assert el[..k] == el[..k - 1] + [e];
    }
  }

  lemma RowTimes(el: seq<Edge>, symmetrize: bool, transpose: bool, u: nat, v: nat)
    ensures multiset(RowValues(el, Forwards(symmetrize, transpose), Backwards(symmetrize, transpose), u))[v]
         == Times(el, symmetrize, transpose, u, v)
  {
    PushedTimes(el, Forwards(symmetrize, transpose), Backwards(symmetrize, transpose), u, |el|, v);
    assert el[..|el|] == el;
  }

  lemma {:induction false} PushedGrows(el: seq<Edge>, forwards: bool, backwards: bool, u: nat, j: nat, k: nat)
    requires j <= k <= |el|
    ensures |Pushed(el, forwards, backwards, u, j)| <= |Pushed(el, forwards, backwards, u, k)|
    decreases k
  {
    if j < k { PushedGrows(el, forwards, backwards, u, j, k - 1); }
  }

  // Squishing any list with the right members gives the built row.
  lemma SquishedIsBuilt(el: seq<Edge>, forwards: bool, backwards: bool, u: nat, row: seq<nat>)
    requires multiset(row) == multiset(RowValues(el, forwards, backwards, u))
    ensures RowBuilt(el, forwards, backwards, u, Squished(row, u))
  {
    SquishedProperties(row, u);
    forall v: nat ensures v in Squished(row, u) <==> Neighbour(el, forwards, backwards, u, v) {
      PushedMembers(el, forwards, backwards, u, |el|, v);
      assert el[..|el|] == el;
      assert v in row <==> v in multiset(row);
      assert v in RowValues(el, forwards, backwards, u) <==> v in multiset(row);
    }
  }

  // ------------------------------------------------------------------ degrees

  ghost predicate DegreesOf(el: seq<Edge>, forwards: bool, backwards: bool, k: nat, degrees: seq<nat>)
    requires k <= |el|
  {
    forall u: nat | u < |degrees| :: degrees[u] == |Pushed(el, forwards, backwards, u, k)|
  }

  method CountDegrees(el: seq<Edge>, n: nat, symmetrize: bool, transpose: bool, inPlace: bool)
    returns (degrees: array<nat>)
    requires InRange(el, n)
    ensures fresh(degrees) && degrees.Length == n
    ensures DegreesOf(el, Forwards(symmetrize, transpose), Backwards(symmetrize, transpose)
                      && !(symmetrize && inPlace), |el|, degrees[..])
  {
    degrees := new nat[n](_ => 0);
    for k := 0 to |el|
      invariant DegreesOf(el, Forwards(symmetrize, transpose), Backwards(symmetrize, transpose)
                          && !(symmetrize && inPlace), k, degrees[..])
    {
      var e := el[k];
      assert e in el;
      if symmetrize || (!symmetrize && !transpose) {
        degrees[e.u] := degrees[e.u] + 1;
      }
      if (symmetrize && !inPlace) || (!symmetrize && transpose) {
        degrees[e.v] := degrees[e.v] + 1;
      }
    }
  }

  // --------------------------------------------------------------- scattering

  // Row u holds `row` from its start, and offs[u] is where its next value goes.
  ghost predicate RowFilled(start: seq<nat>, offs: seq<nat>, neighs: seq<nat>, row: seq<nat>, u: nat)
    requires u + 1 < |start| && u < |offs|
  {
    offs[u] == start[u] + |row| <= start[u + 1] && Holds(neighs, start[u], row)
  }

  ghost predicate Filled(start: seq<nat>, offs: seq<nat>, neighs: seq<nat>, rows: seq<seq<nat>>) {
    && |start| == |offs| == |rows| + 1
    && forall u: nat | u < |rows| :: RowFilled(start, offs, neighs, rows[u], u)
  }

  lemma PushKeepsFilled(start: seq<nat>, offs: seq<nat>, neighs: seq<nat>, rows: seq<seq<nat>>, r: nat, x: nat)
    requires Filled(start, offs, neighs, rows) && Offsets(start, |rows|, |neighs|)
    requires r < |rows| && start[r] + |rows[r]| < start[r + 1]
    ensures offs[r] < |neighs|
    ensures Filled(start, offs[r := offs[r] + 1], neighs[offs[r] := x], rows[r := rows[r] + [x]])
  {
    assert RowFilled(start, offs, neighs, rows[r], r);
    var rows', offs' := rows[r := rows[r] + [x]], offs[r := offs[r] + 1];
    var cell := offs[r];
    var neighs' := neighs[cell := x];
    forall u: nat | u < |rows| ensures RowFilled(start, offs', neighs', rows'[u], u) {
      assert RowFilled(start, offs, neighs, rows[u], u);
      if u != r {
        assert if u < r then start[u + 1] <= start[r] else start[r + 1] <= start[u];
        HoldsElsewhere(neighs, neighs', cell, cell + 1, start[u], rows[u]);
      }
    }
  }

  lemma NothingFilled(start: seq<nat>, neighs: seq<nat>, rows: seq<seq<nat>>)
    requires Offsets(start, |rows|, |neighs|) && forall u | 0 <= u < |rows| :: rows[u] == []
    ensures Filled(start, start, neighs, rows)
  {
  }

  // (*neighs)[fetch_and_add(offsets[r], 1)] = x.
  method Push(offs: array<nat>, neighs: array<nat>, r: nat, x: nat, ghost start: seq<nat>, ghost rows: seq<seq<nat>>)
    requires offs != neighs && Filled(start, offs[..], neighs[..], rows) && Offsets(start, |rows|, neighs.Length)
    requires r < |rows| && start[r] + |rows[r]| < start[r + 1]
    modifies offs, neighs
    ensures Filled(start, offs[..], neighs[..], rows[r := rows[r] + [x]])
    ensures neighs[..] == old(neighs[..])[old(offs[r]) := x] && offs[..] == old(offs[..])[r := old(offs[r]) + 1]
  {
    assert RowFilled(start, offs[..], neighs[..], rows[r], r);
    PushKeepsFilled(start, offs[..], neighs[..], rows, r, x);
    ghost var offs0, neighs0 := offs[..], neighs[..];
    neighs[offs[r]] := x;
    offs[r] := offs[r] + 1;
    assert offs[..] == offs0[r := offs0[r] + 1] && neighs[..] == neighs0[offs0[r] := x];
  }

  ghost function RowsAt(el: seq<Edge>, forwards: bool, backwards: bool, n: nat, k: nat): (rows: seq<seq<nat>>)
    requires k <= |el|
    ensures |rows| == n && forall u: nat | u < n :: rows[u] == Pushed(el, forwards, backwards, u, k)
  {
    seq(n, u requires 0 <= u < n => Pushed(el, forwards, backwards, u, k))
  }

  ghost function After(rows: seq<seq<nat>>, on: bool, r: nat, x: nat): (rows': seq<seq<nat>>)
    requires r < |rows|
    ensures |rows'| == |rows|
  {
    if on then rows[r := rows[r] + [x]] else rows
  }

  lemma EdgeRows(el: seq<Edge>, forwards: bool, backwards: bool, n: nat, k: nat)
    requires k < |el| && InRange(el, n) && el[k].u < n && el[k].v < n
    ensures RowsAt(el, forwards, backwards, n, k + 1)
         == After(After(RowsAt(el, forwards, backwards, n, k), forwards, el[k].u, el[k].v), backwards, el[k].v, el[k].u)
  {
    var r := After(After(RowsAt(el, forwards, backwards, n, k), forwards, el[k].u, el[k].v), backwards, el[k].v,
                   el[k].u);
    forall u: nat | u < n ensures RowsAt(el, forwards, backwards, n, k + 1)[u] == r[u] {}
  }

  // start leaves room in every row for all that the edges push onto it.
  ghost predicate Room(el: seq<Edge>, forwards: bool, backwards: bool, start: seq<nat>) {
    forall u: nat | u + 1 < |start| :: start[u] + |RowValues(el, forwards, backwards, u)| == start[u + 1]
  }

  lemma PrefixSumsLeaveRoom(el: seq<Edge>, forwards: bool, backwards: bool, degrees: seq<nat>, start: seq<nat>)
    requires DegreesOf(el, forwards, backwards, |el|, degrees) && PrefixSums(degrees, start)
    ensures Room(el, forwards, backwards, start)
  {
    forall u: nat | u + 1 < |start| ensures start[u] + |RowValues(el, forwards, backwards, u)| == start[u + 1] {
      assert SumTo(degrees, u + 1) == SumTo(degrees, u) + degrees[u];
    }
  }

  lemma RoomForEdge(el: seq<Edge>, forwards: bool, backwards: bool, start: seq<nat>, n: nat, k: nat)
    requires k < |el| && InRange(el, n) && el[k].u < n && el[k].v < n && |start| == n + 1
    requires Room(el, forwards, backwards, start)
    ensures var rows := RowsAt(el, forwards, backwards, n, k);
            var e := el[k];
            && (forwards ==> start[e.u] + |rows[e.u]| < start[e.u + 1])
            && (backwards ==> start[e.v] + |After(rows, forwards, e.u, e.v)[e.v]| < start[e.v + 1])
  {
    PushedGrows(el, forwards, backwards, el[k].u, k + 1, |el|);
    PushedGrows(el, forwards, backwards, el[k].v, k + 1, |el|);
  }

  // Both writes for one edge.
  method ScatterEdge(el: seq<Edge>, n: nat, symmetrize: bool, transpose: bool, k: nat,
                     offs: array<nat>, neighs: array<nat>, ghost start: seq<nat>, ghost rows: seq<seq<nat>>)
    requires offs != neighs && k < |el| && el[k].u < n && el[k].v < n && |rows| == n
    requires Filled(start, offs[..], neighs[..], rows) && Offsets(start, n, neighs.Length)
    requires Forwards(symmetrize, transpose) ==> start[el[k].u] + |rows[el[k].u]| < start[el[k].u + 1]
    requires Backwards(symmetrize, transpose) ==>
      start[el[k].v] + |After(rows, Forwards(symmetrize, transpose), el[k].u, el[k].v)[el[k].v]| < start[el[k].v + 1]
    modifies offs, neighs
    ensures Filled(start, offs[..], neighs[..], After(After(rows, Forwards(symmetrize, transpose), el[k].u, el[k].v),
                                                      Backwards(symmetrize, transpose), el[k].v, el[k].u))
  {
    var e := el[k];
    if symmetrize || (!symmetrize && !transpose) {
      Push(offs, neighs, e.u, e.v, start, rows);
    }
    if symmetrize || (!symmetrize && transpose) {
      Push(offs, neighs, e.v, e.u, start, After(rows, Forwards(symmetrize, transpose), e.u, e.v));
    }
  }

  lemma FilledRows(el: seq<Edge>, forwards: bool, backwards: bool, n: nat, start: seq<nat>, offs: seq<nat>,
                   neighs: seq<nat>)
    requires Filled(start, offs, neighs, RowsAt(el, forwards, backwards, n, |el|))
    requires Offsets(start, n, |neighs|) && Room(el, forwards, backwards, start)
    ensures forall u: nat | u < n :: Row(start, neighs, u) == RowValues(el, forwards, backwards, u)
  {
    forall u: nat | u < n ensures Row(start, neighs, u) == RowValues(el, forwards, backwards, u) {
      assert RowFilled(start, offs, neighs, RowsAt(el, forwards, backwards, n, |el|)[u], u);
    }
  }

  // Pointers to the row starts, as positions in the neighbour list.
  method GenIndex(offsets: array<nat>) returns (index: array<nat>)
    ensures fresh(index) && index[..] == offsets[..]
  {
    index := new nat[offsets.Length];
    for n := 0 to offsets.Length
      invariant index[..n] == offsets[..n]
    {
      index[n] := offsets[n];
    }
  }

  // Every row is what the edges push onto it, in edge order.
  method MakeCSR(el: seq<Edge>, n: nat, symmetrize: bool, transpose: bool)
    returns (index: array<nat>, neighs: array<nat>)
    requires InRange(el, n)
    ensures fresh(index) && fresh(neighs) && index != neighs && Offsets(index[..], n, neighs.Length)
    ensures forall u: nat | u < n ::
      Row(index[..], neighs[..], u) == RowValues(el, Forwards(symmetrize, transpose), Backwards(symmetrize, transpose),
                                                 u)
    ensures forall u: nat, v: nat | u < n ::
      multiset(Row(index[..], neighs[..], u))[v] == Times(el, symmetrize, transpose, u, v)
  {
    hide Forwards, Backwards, DegreesOf, Room, Filled, RowValues, PrefixSums;
    var degrees := CountDegrees(el, n, symmetrize, transpose, false);
    var offsets := ParallelPrefixSum(degrees);
    PrefixSumsAreOffsets(degrees[..], offsets[..]);
    ghost var forwards, backwards := Forwards(symmetrize, transpose), Backwards(symmetrize, transpose);
    PrefixSumsLeaveRoom(el, forwards, backwards, degrees[..], offsets[..]);
    neighs := new nat[offsets[n]];
    index := GenIndex(offsets);
    ghost var start := offsets[..];
    Scatter(el, n, symmetrize, transpose, offsets, neighs);
    FilledRows(el, forwards, backwards, n, start, offsets[..], neighs[..]);
    forall u: nat, v: nat | u < n
      ensures multiset(Row(index[..], neighs[..], u))[v] == Times(el, symmetrize, transpose, u, v)
    {
      RowTimes(el, symmetrize, transpose, u, v);
    }
  }

  // The scatter loop.
  method Scatter(el: seq<Edge>, n: nat, symmetrize: bool, transpose: bool, offs: array<nat>, neighs: array<nat>)
    requires offs != neighs && InRange(el, n)
    requires Offsets(offs[..], n, neighs.Length)
      && Room(el, Forwards(symmetrize, transpose), Backwards(symmetrize, transpose), offs[..])
    modifies offs, neighs
    ensures Filled(old(offs[..]), offs[..], neighs[..],
                   RowsAt(el, Forwards(symmetrize, transpose), Backwards(symmetrize, transpose), n, |el|))
  {
    ghost var start, forwards, backwards := offs[..], Forwards(symmetrize, transpose), Backwards(symmetrize, transpose);
    NothingFilled(start, neighs[..], RowsAt(el, forwards, backwards, n, 0));
    for k := 0 to |el|
      invariant Filled(start, offs[..], neighs[..], RowsAt(el, forwards, backwards, n, k))
    {
      assert el[k] in el;
      EdgeRows(el, forwards, backwards, n, k);
      RoomForEdge(el, forwards, backwards, start, n, k);
      ScatterEdge(el, n, symmetrize, transpose, k, offs, neighs, start, RowsAt(el, forwards, backwards, n, k));
    }
  }

  // ---------------------------------------------------------------- squishing

  // std::unique on a[lo..hi]; the new end.
  method UniqueRange<T>(eq: (T, T) -> bool, a: array<T>, lo: nat, hi: nat) returns (end: nat)
    requires lo <= hi <= a.Length
    modifies a
    ensures lo <= end <= hi && a[lo..end] == DropRepeats(eq, old(a[lo..hi]))
    ensures SameOutside(old(a[..]), a[..], lo, hi)
  {
    var s := DropRepeats(eq, a[lo..hi]);
    Overwrite(a, lo, s);
    end := lo + |s|;
  }

  // std::remove on a[lo..hi]; the new end.
  method RemoveRange<T(!new)>(p: T -> bool, a: array<T>, lo: nat, hi: nat) returns (end: nat)
    requires lo <= hi <= a.Length
    modifies a
    ensures lo <= end <= hi && a[lo..end] == Without(p, old(a[lo..hi]))
    ensures SameOutside(old(a[..]), a[..], lo, hi)
  {
    var s := Without(p, a[lo..hi]);
    Overwrite(a, lo, s);
    end := lo + |s|;
  }

  // Squishes the row a[lo..hi] of vertex n in place; how long it still is.
  method SquishRow<T(!new)>(c: Compare<T>, a: array<T>, lo: nat, hi: nat, n: nat) returns (len: nat)
    requires lo <= hi <= a.Length && TotalOrder(c.le)
    modifies a
    ensures lo + len <= hi && len == |SquishedBy(c, old(a[lo..hi]), n)|
    ensures Holds(a[..], lo, SquishedBy(c, old(a[lo..hi]), n)) && SameOutside(old(a[..]), a[..], lo, hi)
  {
    ghost var before := a[..];
    ghost var row := a[lo..hi];
    SortRangeBy(c.le, a, lo, hi);
    ghost var sorted := a[..];
    HoldsSlice(sorted, lo, SortBy(c.le, row));
    assert a[lo..hi] == SortBy(c.le, row);
    var end := UniqueRange(c.eq, a, lo, hi);
    ghost var uniq := a[..];
    SameOutsideChain(before, sorted, uniq, lo, hi, hi);
    end := RemoveRange(IsSelf(c, n), a, lo, end);
    SameOutsideChain(before, uniq, a[..], lo, hi, hi);
    SliceHolds(a[..], lo, end, SquishedBy(c, row, n));
    len := end - lo;
  }

  ghost predicate RowSquished<T(!new)>(c: Compare<T>, index: seq<nat>, before: seq<T>, now: seq<T>, diffs: seq<nat>,
                                       u: nat)
    requires u + 1 < |index| && index[u] <= index[u + 1] <= |before| && u < |diffs|
  {
    && diffs[u] == |SquishedBy(c, Row(index, before, u), u)|
    && index[u] + diffs[u] <= index[u + 1]
    && Holds(now, index[u], SquishedBy(c, Row(index, before, u), u))
  }

  // The first n rows are squished, the later ones untouched.
  ghost predicate SquishedSoFar<T(!new)>(c: Compare<T>, index: seq<nat>, before: seq<T>, now: seq<T>, diffs: seq<nat>,
                                         n: nat)
  {
    && Offsets(index, |diffs|, |before|) && |now| == |before| && n <= |diffs|
    && (forall u: nat | u < n :: RowSquished(c, index, before, now, diffs, u))
    && (forall i | index[n] <= i < |before| :: now[i] == before[i])
  }

  lemma UntouchedRow<T(!new)>(c: Compare<T>, index: seq<nat>, before: seq<T>, now: seq<T>, diffs: seq<nat>, n: nat)
    requires SquishedSoFar(c, index, before, now, diffs, n) && n < |diffs|
    ensures index[n] <= index[n + 1] <= |now| && now[index[n]..index[n + 1]] == Row(index, before, n)
  {
  }

  lemma SquishStep<T(!new)>(c: Compare<T>, index: seq<nat>, before: seq<T>, now: seq<T>, now': seq<T>, diffs: seq<nat>,
                            n: nat, len: nat)
    requires SquishedSoFar(c, index, before, now, diffs, n) && n < |diffs|
    requires index[n] + len <= index[n + 1] && len == |SquishedBy(c, Row(index, before, n), n)|
    requires Holds(now', index[n], SquishedBy(c, Row(index, before, n), n))
    requires SameOutside(now, now', index[n], index[n + 1])
    ensures SquishedSoFar(c, index, before, now', diffs[n := len], n + 1)
  {
    var diffs' := diffs[n := len];
    forall u: nat | u < n + 1 ensures RowSquished(c, index, before, now', diffs', u) {
      if u < n {
        assert RowSquished(c, index, before, now, diffs, u);
        assert index[u + 1] <= index[n];
        HoldsElsewhere(now, now', index[n], index[n + 1], index[u], SquishedBy(c, Row(index, before, u), u));
      }
    }
  }

  method SquishRows<T(!new)>(c: Compare<T>, index: array<nat>, neighs: array<T>, n: nat) returns (diffs: array<nat>)
    requires TotalOrder(c.le)
    requires index != neighs && Offsets(index[..], n, neighs.Length)
    modifies neighs
    ensures fresh(diffs) && diffs.Length == n && SquishedSoFar(c, index[..], old(neighs[..]), neighs[..], diffs[..], n)
  {
    diffs := new nat[n](_ => 0);
    for u := 0 to n
      invariant SquishedSoFar(c, index[..], old(neighs[..]), neighs[..], diffs[..], u)
    {
      SquishNext(c, index, neighs, diffs, u, old(neighs[..]));
    }
  }

  method SquishNext<T(!new)>(c: Compare<T>, index: array<nat>, neighs: array<T>, diffs: array<nat>, u: nat,
                             ghost before: seq<T>)
    requires TotalOrder(c.le)
    requires index != neighs && index != diffs && neighs != diffs
    requires u < diffs.Length && SquishedSoFar(c, index[..], before, neighs[..], diffs[..], u)
    modifies neighs, diffs
    ensures SquishedSoFar(c, index[..], before, neighs[..], diffs[..], u + 1)
  {
    ghost var now, was := neighs[..], diffs[..];
    UntouchedRow(c, index[..], before, now, was, u);
    assert neighs[index[u]..index[u + 1]] == Row(index[..], before, u);
    var len := SquishRow(c, neighs, index[u], index[u + 1], u);
    SquishStep(c, index[..], before, now, neighs[..], was, u, len);
    diffs[u] := len;
    assert diffs[..] == was[u := len];
  }

  ghost predicate RowsCopied<T(!new)>(c: Compare<T>, index: seq<nat>, before: seq<T>, sqIndex: seq<nat>, sq: seq<T>,
                                      n: nat, k: nat)
    requires Offsets(index, n, |before|) && Offsets(sqIndex, n, |sq|)
  {
    forall u: nat | u < k && u < n :: Holds(sq, sqIndex[u], SquishedBy(c, Row(index, before, u), u))
  }

  ghost predicate PackedStarts<T(!new)>(c: Compare<T>, index: seq<nat>, before: seq<T>, sqIndex: seq<nat>, n: nat)
    requires Offsets(index, n, |before|) && |sqIndex| == n + 1
  {
    forall u: nat | u < n :: sqIndex[u] + |SquishedBy(c, Row(index, before, u), u)| == sqIndex[u + 1]
  }

  lemma SquishedFits<T(!new)>(c: Compare<T>, index: seq<nat>, before: seq<T>, now: seq<T>, diffs: seq<nat>,
                              sqIndex: seq<nat>)
    requires SquishedSoFar(c, index, before, now, diffs, |diffs|) && PrefixSums(diffs, sqIndex)
    ensures PackedStarts(c, index, before, sqIndex, |diffs|)
  {
    forall u: nat | u < |diffs| ensures sqIndex[u] + |SquishedBy(c, Row(index, before, u), u)| == sqIndex[u + 1] {
      assert RowSquished(c, index, before, now, diffs, u);
      assert SumTo(diffs, u + 1) == SumTo(diffs, u) + diffs[u];
    }
  }

  lemma CopyStep<T(!new)>(c: Compare<T>, index: seq<nat>, before: seq<T>, sqIndex: seq<nat>, sq: seq<T>, sq': seq<T>,
                          n: nat, k: nat)
    requires Offsets(index, n, |before|) && Offsets(sqIndex, n, |sq|) && |sq'| == |sq| && k < n
    requires RowsCopied(c, index, before, sqIndex, sq, n, k) && PackedStarts(c, index, before, sqIndex, n)
    requires Holds(sq', sqIndex[k], SquishedBy(c, Row(index, before, k), k))
    requires SameOutside(sq, sq', sqIndex[k], sqIndex[k + 1])
    ensures RowsCopied(c, index, before, sqIndex, sq', n, k + 1)
  {
    forall u: nat | u < k + 1 ensures Holds(sq', sqIndex[u], SquishedBy(c, Row(index, before, u), u)) {
      if u < k {
        assert sqIndex[u] + |SquishedBy(c, Row(index, before, u), u)| == sqIndex[u + 1] <= sqIndex[k];
        HoldsElsewhere(sq, sq', sqIndex[k], sqIndex[k + 1], sqIndex[u], SquishedBy(c, Row(index, before, u), u));
      }
    }
  }

  // std::copy of the squished part of row u.
  method CopyRow<T(!new)>(c: Compare<T>, index: array<nat>, neighs: array<T>, diffs: array<nat>, sqIndex: array<nat>,
                          sqNeighs: array<T>, n: nat, u: nat, ghost before: seq<T>)
    requires sqNeighs != index && sqNeighs != neighs && sqNeighs != diffs && sqNeighs != sqIndex
    requires u < n == diffs.Length && SquishedSoFar(c, index[..], before, neighs[..], diffs[..], n)
    requires Offsets(sqIndex[..], n, sqNeighs.Length) && PackedStarts(c, index[..], before, sqIndex[..], n)
    requires RowsCopied(c, index[..], before, sqIndex[..], sqNeighs[..], n, u)
    modifies sqNeighs
    ensures RowsCopied(c, index[..], before, sqIndex[..], sqNeighs[..], n, u + 1)
  {
    assert RowSquished(c, index[..], before, neighs[..], diffs[..], u);
    ghost var row := SquishedBy(c, Row(index[..], before, u), u);
    HoldsSlice(neighs[..], index[u], row);
    assert neighs[index[u]..index[u] + diffs[u]] == row;
    assert sqIndex[u] + |row| == sqIndex[u + 1];
    ghost var sq := sqNeighs[..];
    Overwrite(sqNeighs, sqIndex[u], neighs[index[u]..index[u] + diffs[u]]);
    CopyStep(c, index[..], before, sqIndex[..], sq, sqNeighs[..], n, u);
  }

  method CopyRows<T(!new)>(c: Compare<T>, index: array<nat>, neighs: array<T>, diffs: array<nat>, sqIndex: array<nat>,
                           sqNeighs: array<T>, n: nat, ghost before: seq<T>)
    requires sqNeighs != index && sqNeighs != neighs && sqNeighs != diffs && sqNeighs != sqIndex
    requires n == diffs.Length && SquishedSoFar(c, index[..], before, neighs[..], diffs[..], n)
    requires Offsets(sqIndex[..], n, sqNeighs.Length) && PackedStarts(c, index[..], before, sqIndex[..], n)
    modifies sqNeighs
    ensures RowsCopied(c, index[..], before, sqIndex[..], sqNeighs[..], n, n)
  {
    for u := 0 to n
      invariant RowsCopied(c, index[..], before, sqIndex[..], sqNeighs[..], n, u)
    {
      CopyRow(c, index, neighs, diffs, sqIndex, sqNeighs, n, u, before);
    }
  }

  lemma CopiedRows<T(!new)>(c: Compare<T>, index: seq<nat>, before: seq<T>, sqIndex: seq<nat>, sq: seq<T>, n: nat)
    requires Offsets(index, n, |before|) && Offsets(sqIndex, n, |sq|)
    requires RowsCopied(c, index, before, sqIndex, sq, n, n) && PackedStarts(c, index, before, sqIndex, n)
    ensures forall u: nat | u < n :: Row(sqIndex, sq, u) == SquishedBy(c, Row(index, before, u), u)
  {
    hide SquishedBy, Holds;
    forall u: nat | u < n ensures Row(sqIndex, sq, u) == SquishedBy(c, Row(index, before, u), u) {
      assert sqIndex[u] + |SquishedBy(c, Row(index, before, u), u)| == sqIndex[u + 1];
      HoldsSlice(sq, sqIndex[u], SquishedBy(c, Row(index, before, u), u));
    }
  }

  // Sorts every row and drops self-loops and repeated neighbours; rows end up packed.
  method SquishCSR<T(0,!new)>(c: Compare<T>, index: array<nat>, neighs: array<T>, n: nat)
    returns (sqIndex: array<nat>, sqNeighs: array<T>)
    requires TotalOrder(c.le)
    requires index != neighs && Offsets(index[..], n, neighs.Length)
    modifies neighs
    ensures fresh(sqIndex) && fresh(sqNeighs) && Offsets(sqIndex[..], n, sqNeighs.Length)
    ensures forall u: nat | u < n ::
      Row(sqIndex[..], sqNeighs[..], u) == SquishedBy(c, Row(index[..], old(neighs[..]), u), u)
  {
    ghost var before := neighs[..];
    var diffs := SquishRows(c, index, neighs, n);
    var sqOffsets := ParallelPrefixSum(diffs);
    PrefixSumsAreOffsets(diffs[..], sqOffsets[..]);
    SquishedFits(c, index[..], before, neighs[..], diffs[..], sqOffsets[..]);
    sqNeighs := new T[sqOffsets[n]];
    sqIndex := GenIndex(sqOffsets);
    CopyRows(c, index, neighs, diffs, sqIndex, sqNeighs, n, before);
    CopiedRows(c, index[..], before, sqIndex[..], sqNeighs[..], n);
  }

  // The plain path: build, then squish.
  method BuildThenSquish(el: seq<Edge>, n: nat, symmetrize: bool, transpose: bool)
    returns (index: array<nat>, neighs: array<nat>)
    requires InRange(el, n)
    ensures Built(el, n, Forwards(symmetrize, transpose), Backwards(symmetrize, transpose), index[..], neighs[..])
    ensures forall u: nat | u < n :: StrictlySorted(Row(index[..], neighs[..], u))
    ensures forall u: nat, v: nat | u < n ::
      v in Row(index[..], neighs[..], u) <==> u != v && Times(el, symmetrize, transpose, u, v) > 0
  {
    var rawIndex, rawNeighs := MakeCSR(el, n, symmetrize, transpose);
    ghost var raw := rawNeighs[..];
    index, neighs := SquishCSR(IDS, rawIndex, rawNeighs, n);
    forall u: nat | u < n
      ensures RowBuilt(el, Forwards(symmetrize, transpose), Backwards(symmetrize, transpose), u,
                       Row(index[..], neighs[..], u))
    {
      SquishedIsBuilt(el, Forwards(symmetrize, transpose), Backwards(symmetrize, transpose), u,
                      Row(rawIndex[..], raw, u));
    }
  }
}
