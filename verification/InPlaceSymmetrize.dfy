module InPlaceSymmetrize {
  // The second half of building in place: missing inverse edges are counted,
  // rows are spread backwards to make room, and the inverses are put in front.

  import opened Lists
  import opened Csr
  import opened InPlaceEdges

  // Rows of outgoing neighbours: in range, strictly sorted, no self-loops.
  ghost predicate GoodRows(rows: seq<seq<nat>>) {
    forall u: nat | u < |rows| :: StrictlySorted(rows[u]) && u !in rows[u] && forall v | v in rows[u] :: v < |rows|
  }

  // Edge u -> v lacks its inverse.
  predicate Missing(rows: seq<seq<nat>>, v: nat, u: nat)
    requires v < |rows|
  {
    u < |rows| && v in rows[u] && u !in rows[v]
  }

  // Inverses that row v lacks from the first k vertices.
  ghost function MissCount(rows: seq<seq<nat>>, v: nat, k: nat): nat
    requires v < |rows|
  {
    if k == 0 then 0 else MissCount(rows, v, k - 1) + if Missing(rows, v, k - 1) then 1 else 0
  }

  // Row v with the inverses from the first k vertices in front, latest first.
  ghost function Grown(rows: seq<seq<nat>>, v: nat, k: nat): seq<nat>
    requires v < |rows|
  {
    if k == 0 then rows[v]
    else if Missing(rows, v, k - 1) then [k - 1] + Grown(rows, v, k - 1)
    else Grown(rows, v, k - 1)
  }

  lemma {:induction false} GrownSize(rows: seq<seq<nat>>, v: nat, k: nat)
    requires v < |rows|
    ensures |Grown(rows, v, k)| == |rows[v]| + MissCount(rows, v, k)
  {
    if k > 0 { GrownSize(rows, v, k - 1); }
  }

  lemma {:induction false} GrownMembers(rows: seq<seq<nat>>, v: nat, k: nat, x: nat)
    requires v < |rows|
    ensures x in Grown(rows, v, k) <==> x in rows[v] || (x < k && Missing(rows, v, x))
  {
    if k > 0 { GrownMembers(rows, v, k - 1, x); }
  }

  lemma {:induction false} GrownDistinct(rows: seq<seq<nat>>, v: nat, k: nat)
    requires v < |rows| && GoodRows(rows)
    ensures forall i, j | 0 <= i < j < |Grown(rows, v, k)| :: Grown(rows, v, k)[i] != Grown(rows, v, k)[j]
  {
    if k > 0 {
      GrownDistinct(rows, v, k - 1);
      GrownMembers(rows, v, k - 1, k - 1);
    }
  }

  lemma {:induction false} MissCountGrows(rows: seq<seq<nat>>, v: nat, j: nat, k: nat)
    requires v < |rows| && j <= k
    ensures MissCount(rows, v, j) <= MissCount(rows, v, k)
    decreases k
  {
    if j < k { MissCountGrows(rows, v, j, k - 1); }
  }

  // ------------------------------------------------------------ binary search

  // Everything below the key comes first, everything above it last; nothing is
  // said about the order inside either part.
  ghost predicate Partitioned(s: seq<nat>, key: nat) {
    forall i, j | 0 <= i < j < |s| :: (s[j] < key ==> s[i] < key) && (s[j] <= key ==> s[i] <= key)
  }

  // std::binary_search on a[lo..hi].
  method BinarySearch(a: array<nat>, lo: nat, hi: nat, key: nat) returns (found: bool)
    requires lo <= hi <= a.Length && Partitioned(a[lo..hi], key)
    ensures found <==> key in a[lo..hi]
  {
    var first: nat, count: nat := lo, hi - lo;
    ghost var s := a[lo..hi];
    while count > 0
      invariant lo <= first && first + count <= hi
      invariant forall i | lo <= i < first :: a[i] < key
      invariant forall i | first + count <= i < hi :: a[i] >= key
    {
      var step: nat := count / 2;
      var it := first + step;
      assert s[it - lo] == a[it];
      if a[it] < key {
        forall i | lo <= i < it ensures a[i] < key { assert s[i - lo] == a[i]; }
        first := it + 1;
        count := count - (step + 1);
      } else {
        forall i | it < i < hi ensures a[i] >= key { assert s[i - lo] == a[i]; }
        count := step;
      }
    }
    found := first < hi && a[first] <= key;
    if found {
      assert s[first - lo] == key;
    } else if first < hi {
      assert s[first - lo] == a[first];
      forall i | lo <= i < hi ensures a[i] != key {
        assert s[i - lo] == a[i];
      }
    }
  }

  lemma SortedPartitioned(s: seq<nat>, key: nat)
    requires StrictlySorted(s)
    ensures Partitioned(s, key)
  {
  }

  // The searched range is not sorted, yet it is partitioned around the key:
  // every inverse in front is smaller than the key.
  lemma {:induction false} GrownPartitioned(rows: seq<seq<nat>>, v: nat, k: nat, key: nat)
    requires v < |rows| && GoodRows(rows) && k <= key
    ensures Partitioned(Grown(rows, v, k), key)
  {
    hide Partitioned, StrictlySorted;
    if k > 0 {
      GrownPartitioned(rows, v, k - 1, key);
      SmallerInFront(Grown(rows, v, k - 1), k - 1, key);
    } else {
      SortedPartitioned(rows[v], key);
    }
  }

  lemma SmallerInFront(s: seq<nat>, x: nat, key: nat)
    requires Partitioned(s, key) && x < key
    ensures Partitioned([x] + s, key)
  {
    var g := [x] + s;
    forall i, j | 0 <= i < j < |g| ensures (g[j] < key ==> g[i] < key) && (g[j] <= key ==> g[i] <= key) {
      assert g[j] == s[j - 1] && (i > 0 ==> g[i] == s[i - 1]);
    }
  }

  // ---------------------------------------------------------- counting inverses

  ghost predicate NeededAt(rows: seq<seq<nat>>, needed: seq<nat>, u: nat, done: seq<nat>) {
    && |needed| == |rows|
    && forall v: nat | v < |rows| ::
      needed[v] == MissCount(rows, v, if v in done then u + 1 else u)
  }

  // One binary search for the inverse of u -> v, in v's original row.
  method CountInverse(mem: array<nat>, offsets: array<nat>, needed: array<nat>, u: nat, j: nat, v: nat,
                      ghost rows: seq<seq<nat>>)
    requires mem != needed && offsets != needed
    requires RowsInPlace(offsets[..], mem[..], rows) && GoodRows(rows)
    requires u < |rows| && j < |rows[u]| && v == rows[u][j] && v < |rows|
    requires NeededAt(rows, needed[..], u, rows[u][..j])
    modifies needed
    ensures NeededAt(rows, needed[..], u, rows[u][..j + 1])
  {
    assert Holds(mem[..], offsets[v], rows[v]);
    HoldsSlice(mem[..], offsets[v], rows[v]);
    assert mem[offsets[v]..offsets[v + 1]] == rows[v];
    SortedPartitioned(rows[v], u);
    var found := BinarySearch(mem, offsets[v], offsets[v + 1], u);
    assert rows[u][..j + 1] == rows[u][..j] + [v];
    assert v !in rows[u][..j];
    assert v in rows[u];
    assert Missing(rows, v, u) <==> !found;
    if !found {
      needed[v] := needed[v] + 1;
    }
  }

  // What row u did not list needs nothing from u.
  lemma NeededNext(rows: seq<seq<nat>>, needed: seq<nat>, u: nat)
    requires u < |rows| && NeededAt(rows, needed, u, rows[u])
    ensures NeededAt(rows, needed, u + 1, [])
  {
    forall v: nat | v < |rows| ensures needed[v] == MissCount(rows, v, u + 1) {
      if v !in rows[u] { assert !Missing(rows, v, u); }
    }
  }

  // Step 1: how many inverses every row lacks.
  method CountNeeded(mem: array<nat>, offsets: array<nat>, n: nat, ghost rows: seq<seq<nat>>)
    returns (needed: array<nat>)
    requires n == |rows| && RowsInPlace(offsets[..], mem[..], rows) && GoodRows(rows)
    ensures fresh(needed) && needed.Length == n
    ensures forall v: nat | v < n :: needed[v] == MissCount(rows, v, n)
  {
    needed := new nat[n](_ => 0);
    for u := 0 to n
      invariant NeededAt(rows, needed[..], u, [])
    {
      CountRow(mem, offsets, needed, u, rows);
      NeededNext(rows, needed[..], u);
    }
  }

  method CountRow(mem: array<nat>, offsets: array<nat>, needed: array<nat>, u: nat, ghost rows: seq<seq<nat>>)
    requires mem != needed && offsets != needed
    requires RowsInPlace(offsets[..], mem[..], rows) && GoodRows(rows) && u < |rows|
    requires NeededAt(rows, needed[..], u, [])
    modifies needed
    ensures NeededAt(rows, needed[..], u, rows[u])
  {
    assert Holds(mem[..], offsets[u], rows[u]);
    for i := offsets[u] to offsets[u + 1]
      invariant NeededAt(rows, needed[..], u, rows[u][..i - offsets[u]])
    {
      ghost var j := i - offsets[u];
      var v := mem[i];
      assert v == rows[u][j] && v in rows[u];
      CountOne(mem, offsets, needed, u, i, v, rows);
    }
    assert rows[u][..offsets[u + 1] - offsets[u]] == rows[u];
  }

  method CountOne(mem: array<nat>, offsets: array<nat>, needed: array<nat>, u: nat, i: nat, v: nat,
                  ghost rows: seq<seq<nat>>)
    requires mem != needed && offsets != needed
    requires RowsInPlace(offsets[..], mem[..], rows) && GoodRows(rows)
    requires u < |rows| && offsets[u] <= i < offsets[u + 1] && v == rows[u][i - offsets[u]] && v < |rows|
    requires NeededAt(rows, needed[..], u, rows[u][..i - offsets[u]])
    modifies needed
    ensures NeededAt(rows, needed[..], u, rows[u][..i + 1 - offsets[u]])
  {
    CountInverse(mem, offsets, needed, u, i - offsets[u], v, rows);
  }

  // ------------------------------------------------------------- making room

  // offsets pushed up by the inverses still to come.
  ghost predicate Raised(base: seq<nat>, needed: seq<nat>, offs: seq<nat>) {
    && |base| == |offs| == |needed| + 1
    && forall x: nat | x <= |needed| :: offs[x] == base[x] + SumTo(needed, x)
  }

  // The loop also reads the word one past the end of needed, whatever it is: no
  // offset is raised by it, but the total is.
  method RaiseOffsets(offs: array<nat>, needed: array<nat>, extra: nat) returns (total: nat)
    requires offs != needed && offs.Length == needed.Length + 1
    modifies offs
    ensures Raised(old(offs[..]), needed[..], offs[..]) && total == SumTo(needed[..], needed.Length) + extra
  {
    hide SumTo;
    ghost var base := offs[..];
    total := 0;
    assert SumTo(needed[..], 0) == 0 by { NoSum(needed[..]); }
    for x := 0 to offs.Length
      invariant total == if x <= needed.Length then SumTo(needed[..], x) else SumTo(needed[..], needed.Length) + extra
      invariant forall y: nat | y < x :: offs[y] == base[y] + SumTo(needed[..], y)
      invariant forall y: nat | x <= y < offs.Length :: offs[y] == base[y]
    {
      offs[x] := offs[x] + total;
      if x < needed.Length { SumToNext(needed[..], x); }
      total := total + if x < needed.Length then needed[x] else extra;
    }
  }

  lemma NoSum(d: seq<nat>)
    ensures SumTo(d, 0) == 0
  {
  }

  // realloc: a block of the new size with the old contents, as far as they fit.
  method Realloc(a: array<nat>, size: nat) returns (b: array<nat>)
    ensures fresh(b) && b.Length == size
    ensures forall i: nat | i < a.Length && i < size :: b[i] == a[i]
  {
    b := new nat[size];
    for i := 0 to if a.Length < size then a.Length else size
      invariant forall k: nat | k < i :: b[k] == a[k]
    {
      b[i] := a[i];
    }
  }

  // ------------------------------------------------------- spreading the rows

  // The range [newStart, end) receives the cells total below it, last first; the
  // copy leaves the block when that is below its first cell.
  method SpreadRow(a: array<nat>, newStart: nat, end: nat, total: nat, tail0: int) returns (tail: int, inside: bool)
    requires newStart <= end <= a.Length && tail0 == end - 1
    modifies a
    ensures inside <==> newStart == end || total <= newStart
    ensures inside ==> tail == newStart - 1
    ensures inside ==> forall x: nat | newStart <= x < end :: a[x] == old(a[x - total])
    ensures SameOutside(old(a[..]), a[..], newStart, end)
  {
    tail, inside := tail0, true;
    var i := end - 1;
    while i >= newStart
      invariant newStart - 1 <= i < end && tail == i && (i < end - 1 ==> total <= i + 1)
      invariant forall x: nat | i < x < end :: a[x] == old(a[x - total])
      invariant forall x: nat | x < a.Length && !(i < x < end) :: a[x] == old(a[x])
    {
      if i < total {
        inside := false;
        return;
      }
      a[tail] := a[i - total];
      tail := tail - 1;
      i := i - 1;
    }
  }

  // Row v sits at the end of its range, below free space for its inverses.
  ghost predicate RowPlaced(offs: seq<nat>, needed: seq<nat>, mem: seq<nat>, row: seq<nat>, v: nat)
    requires v < |needed| && v + 1 < |offs|
  {
    offs[v] + needed[v] + |row| == offs[v + 1] && Holds(mem, offs[v] + needed[v], row)
  }

  ghost predicate Placed(offs: seq<nat>, needed: seq<nat>, mem: seq<nat>, rows: seq<seq<nat>>, from: nat) {
    && |offs| == |rows| + 1 && |needed| == |rows|
    && forall v: nat | from <= v < |rows| :: RowPlaced(offs, needed, mem, rows[v], v)
  }

  // The rows by length, and where they stand before and after the raise.
  ghost predicate Layout(base: seq<nat>, offs: seq<nat>, needed: seq<nat>, rows: seq<seq<nat>>) {
    && |needed| == |rows| && Raised(base, needed, offs) && Offsets(base, |rows|, base[|base| - 1])
    && forall v: nat | v < |rows| :: base[v] + |rows[v]| == base[v + 1]
  }

  // Rows from n on are in their new place, rows below n still in their old one.
  ghost predicate HalfSpread(base: seq<nat>, offs: seq<nat>, needed: seq<nat>, mem: seq<nat>, rows: seq<seq<nat>>,
                             n: nat)
  {
    && Layout(base, offs, needed, rows)
    && Placed(offs, needed, mem, rows, n)
    && (forall v: nat | v < n && v < |rows| :: Holds(mem, base[v], rows[v]))
  }

  lemma RaisedOrder(base: seq<nat>, needed: seq<nat>, offs: seq<nat>, a: nat, b: nat)
    requires Raised(base, needed, offs) && a <= b <= |needed| && base[a] <= base[b]
    ensures offs[a] <= offs[b]
    ensures a < b ==> SumTo(needed, a + 1) == SumTo(needed, a) + needed[a] && base[b] + SumTo(needed, a + 1) <= offs[b]
  {
    SumToGrows(needed, a, b);
    if a < b { SumToGrows(needed, a + 1, b); }
  }

  lemma SumToNext(d: seq<nat>, n: nat)
    requires n < |d|
    ensures SumTo(d, n + 1) == SumTo(d, n) + d[n]
  {
  }

  lemma CopiedRow(mem: seq<nat>, mem': seq<nat>, from: nat, to: nat, row: seq<nat>)
    requires from <= to && Holds(mem, from, row) && to + |row| <= |mem'|
    requires forall x: nat | to <= x < to + |row| :: mem'[x] == mem[x - (to - from)]
    ensures Holds(mem', to, row)
  {
    forall i | to <= i < to + |row| ensures mem'[i] == row[i - to] {
      assert mem[i - (to - from)] == row[i - to];
    }
  }

  lemma SpreadStep(base: seq<nat>, offs: seq<nat>, needed: seq<nat>, mem: seq<nat>, mem': seq<nat>,
                   rows: seq<seq<nat>>, n: nat)
    requires n < |rows| && HalfSpread(base, offs, needed, mem, rows, n + 1)
    requires SumTo(needed, n + 1) <= offs[n] + needed[n] <= offs[n + 1] <= |mem|
    requires SameOutside(mem, mem', offs[n] + needed[n], offs[n + 1])
    requires forall x: nat | offs[n] + needed[n] <= x < offs[n + 1] :: mem'[x] == mem[x - SumTo(needed, n + 1)]
    ensures HalfSpread(base, offs, needed, mem', rows, n)
  {
    hide SumTo, Holds;
    var lo, hi := offs[n] + needed[n], offs[n + 1];
    forall v: nat | n <= v < |rows| ensures RowPlaced(offs, needed, mem', rows[v], v) {
      if v == n {
        SumToNext(needed, n);
        assert lo == base[n] + SumTo(needed, n + 1);
        CopiedRow(mem, mem', base[n], lo, rows[n]);
      } else {
        assert RowPlaced(offs, needed, mem, rows[v], v);
        RaisedOrder(base, needed, offs, n + 1, v);
        HoldsElsewhere(mem, mem', lo, hi, offs[v] + needed[v], rows[v]);
      }
    }
    forall v: nat | v < n ensures Holds(mem', base[v], rows[v]) {
      assert Holds(mem, base[v], rows[v]);
      assert base[v + 1] <= base[n] <= offs[n];
      HoldsElsewhere(mem, mem', lo, hi, base[v], rows[v]);
    }
  }

  // Where the copy of row n stands, and how far below its cells are.
  lemma SpreadRoom(base: seq<nat>, offs: seq<nat>, needed: seq<nat>, rows: seq<seq<nat>>, n: nat)
    requires n < |rows| && Layout(base, offs, needed, rows)
    ensures SumTo(needed, n + 1) == SumTo(needed, n) + needed[n]
    ensures offs[n] + needed[n] == base[n] + SumTo(needed, n + 1)
    ensures offs[n] + needed[n] + |rows[n]| == offs[n + 1] <= offs[|rows|]
  {
    RaisedOrder(base, needed, offs, n, n + 1);
    RaisedOrder(base, needed, offs, n + 1, |rows|);
  }

  // No row from n on is copied from below the block.
  ghost predicate CopiedInside(base: seq<nat>, rows: seq<seq<nat>>, extra: nat, n: nat)
    requires |base| == |rows| + 1
  {
    forall v: nat | n <= v < |rows| :: rows[v] == [] || extra <= base[v]
  }

  lemma {:induction false} NothingBefore(base: seq<nat>, offs: seq<nat>, needed: seq<nat>, rows: seq<seq<nat>>,
                                         extra: nat, v: nat)
    requires Layout(base, offs, needed, rows) && CopiedInside(base, rows, extra, 0) && extra > 0 && v <= |rows|
    ensures base[v] == 0
  {
    if v > 0 { NothingBefore(base, offs, needed, rows, extra, v - 1); }
  }

  // With nothing to copy, every row is in place.
  lemma NothingToSpread(base: seq<nat>, offs: seq<nat>, needed: seq<nat>, mem: seq<nat>, rows: seq<seq<nat>>)
    requires Layout(base, offs, needed, rows) && base[|rows|] == 0 && offs[|rows|] == |mem|
    ensures Placed(offs, needed, mem, rows, 0)
  {
    forall v: nat | v < |rows| ensures RowPlaced(offs, needed, mem, rows[v], v) {
      SpreadRoom(base, offs, needed, rows, v);
      assert base[v + 1] <= base[|rows|];
    }
  }

  // Step 2: spread the rows, last row first, so that no unread neighbour is lost.
  // Any word but 0 in the total makes some copy leave the block, unless there is
  // nothing to copy.
  method Spread(a: array<nat>, offs: array<nat>, needed: array<nat>, n: nat, total0: nat, ghost extra: nat,
                ghost base: seq<nat>, ghost rows: seq<seq<nat>>)
    returns (inside: bool)
    requires a != offs && a != needed && offs != needed && n == |rows| == needed.Length
    requires offs.Length == n + 1 && a.Length == offs[n]
    requires total0 == SumTo(needed[..], n) + extra && HalfSpread(base, offs[..], needed[..], a[..], rows, n)
    modifies a
    ensures inside <==> extra == 0 || base[n] == 0
    ensures inside ==> Placed(offs[..], needed[..], a[..], rows, 0)
  {
    hide SumTo, Layout, Placed;
    var total := total0;
    var tail: int := offs[n] as int - 1;
    inside := true;
    LayoutSize(base, offs[..], needed[..], rows);
    for k := n downto 0
      invariant total == SumTo(needed[..], k) + extra && tail == offs[k] as int - 1 && inside
      invariant extra == 0 ==> HalfSpread(base, offs[..], needed[..], a[..], rows, k)
      invariant CopiedInside(base, rows, extra, k)
    {
      ghost var mem := a[..];
      SpreadRoom(base, offs[..], needed[..], rows, k);
      tail, inside := SpreadRow(a, offs[k] + needed[k], offs[k + 1], total, tail);
      if !inside {
        SomethingToCopy(base, offs[..], needed[..], rows, k);
        return;
      }
      if extra == 0 { SpreadStep(base, offs[..], needed[..], mem, a[..], rows, k); }
      total := total - needed[k];
      tail := tail - needed[k];
    }
    if extra > 0 {
      NothingBefore(base, offs[..], needed[..], rows, extra, n);
      NothingToSpread(base, offs[..], needed[..], a[..], rows);
    }
  }

  lemma LayoutSize(base: seq<nat>, offs: seq<nat>, needed: seq<nat>, rows: seq<seq<nat>>)
    requires Layout(base, offs, needed, rows)
    ensures |base| == |rows| + 1
  {
  }

  lemma SomethingToCopy(base: seq<nat>, offs: seq<nat>, needed: seq<nat>, rows: seq<seq<nat>>, v: nat)
    requires Layout(base, offs, needed, rows) && v < |rows| && rows[v] != []
    ensures base[|rows|] > 0
  {
    assert base[v] + |rows[v]| == base[v + 1] <= base[|rows|];
  }

  // ------------------------------------------- the word past the end of needed

  // The cell that row v's copy into cell i reads, with any word in the total.
  ghost function CopySource(needed: seq<nat>, extra: int, v: nat, i: nat): int
    requires v < |needed|
  {
    i - (SumTo(needed, v + 1) + extra)
  }

  ghost predicate CopiesInside(offs: seq<nat>, needed: seq<nat>, extra: int)
    requires |offs| == |needed| + 1
  {
    forall v: nat, i: nat | v < |needed| && offs[v] + needed[v] <= i < offs[v + 1] ::
      0 <= CopySource(needed, extra, v, i) < offs[|needed|]
  }

  lemma {:induction false} RowOfCell(base: seq<nat>, c: nat, n: nat) returns (v: nat)
    requires n < |base| && base[0] <= c < base[n]
    ensures v < n && base[v] <= c < base[v + 1]
  {
    if base[n - 1] <= c { v := n - 1; } else { v := RowOfCell(base, c, n - 1); }
  }

  // Old cell c is read at c - extra.
  lemma CopyOfCell(base: seq<nat>, offs: seq<nat>, needed: seq<nat>, rows: seq<seq<nat>>, extra: int, c: nat)
    returns (v: nat, i: nat)
    requires Layout(base, offs, needed, rows) && c < base[|rows|]
    ensures v < |rows| && offs[v] + needed[v] <= i < offs[v + 1] && CopySource(needed, extra, v, i) == c - extra
  {
    v := RowOfCell(base, c, |rows|);
    SpreadRoom(base, offs, needed, rows, v);
    i := c + SumTo(needed, v + 1);
  }

  // For every word, also a negative one: all copies read inside the block exactly
  // when there is nothing to copy, or the word is at most 0 and no further below
  // it than there are missing inverses.
  lemma CopiesInsideExactlyWhen(base: seq<nat>, offs: seq<nat>, needed: seq<nat>, rows: seq<seq<nat>>, extra: int)
    requires Layout(base, offs, needed, rows)
    ensures CopiesInside(offs, needed, extra) <==> base[|rows|] == 0 || extra <= 0 <= extra + SumTo(needed, |rows|)
  {
    hide SumTo;
    var n := |rows|;
    assert offs[n] == base[n] + SumTo(needed, n);
    if CopiesInside(offs, needed, extra) && base[n] > 0 {
      var v, i := CopyOfCell(base, offs, needed, rows, extra, 0);
      var w, k := CopyOfCell(base, offs, needed, rows, extra, base[n] - 1);
      assert 0 <= CopySource(needed, extra, v, i) && CopySource(needed, extra, w, k) < offs[n];
    }
    if base[n] == 0 || extra <= 0 <= extra + SumTo(needed, n) {
      forall v: nat, i: nat | v < |needed| && offs[v] + needed[v] <= i < offs[v + 1]
        ensures 0 <= CopySource(needed, extra, v, i) < offs[n]
      {
        SpreadRoom(base, offs, needed, rows, v);
        assert base[v] + |rows[v]| == base[v + 1] <= base[n];
      }
    }
  }

  // ----------------------------------------------------- inserting the inverses

  // While row u is walked: the rows listed so far have u's inverse, too.
  ghost function Progress(rows: seq<seq<nat>>, u: nat, done: seq<nat>): (now: seq<seq<nat>>)
    ensures |now| == |rows|
  {
    seq(|rows|, v requires 0 <= v < |rows| => Grown(rows, v, if v in done then u + 1 else u))
  }

  ghost predicate RoomFor(rows: seq<seq<nat>>, offs: seq<nat>) {
    && |offs| == |rows| + 1
    && forall v: nat | v < |rows| :: offs[v] + |rows[v]| + MissCount(rows, v, |rows|) == offs[v + 1]
  }

  // Putting u in the last free cell of row v.
  lemma InsertStep(offs: seq<nat>, needed: seq<nat>, mem: seq<nat>, now: seq<seq<nat>>, v: nat, u: nat)
    requires Placed(offs, needed, mem, now, 0) && v < |now| && needed[v] > 0 && Offsets(offs, |now|, |mem|)
    ensures offs[v] + needed[v] - 1 < |mem|
    ensures Placed(offs, needed[v := (needed[v] - 1) as nat], mem[offs[v] + needed[v] - 1 := u],
                   now[v := [u] + now[v]], 0)
  {
    assert RowPlaced(offs, needed, mem, now[v], v);
    var cell: nat := offs[v] + needed[v] - 1;
    var needed' := needed[v := (needed[v] - 1) as nat];
    var mem' := mem[cell := u];
    var now' := now[v := [u] + now[v]];
    forall x: nat | x < |now| ensures RowPlaced(offs, needed', mem', now'[x], x) {
      assert RowPlaced(offs, needed, mem, now[x], x);
      if x == v {
        assert Holds(mem, cell + 1, now[v]);
        forall i | cell <= i < cell + |now'[v]| ensures mem'[i] == now'[v][i - cell] {
          if i > cell { assert mem[i] == now[v][i - (cell + 1)]; }
        }
      } else {
        assert if x < v then offs[x + 1] <= offs[v] else offs[v + 1] <= offs[x];
        HoldsElsewhere(mem, mem', cell, cell + 1, offs[x] + needed[x], now[x]);
      }
    }
  }

  // The row being walked never lists its own vertex, and lists nothing twice.
  lemma WalkedRow(rows: seq<seq<nat>>, u: nat, j: nat)
    requires GoodRows(rows) && u < |rows| && j < |Grown(rows, u, u)|
    ensures Grown(rows, u, u)[j] < |rows| && Grown(rows, u, u)[j] != u && u !in Grown(rows, u, u)[..j]
    ensures Grown(rows, u, u)[j] !in Grown(rows, u, u)[..j]
    ensures var v := Grown(rows, u, u)[j]; Missing(rows, v, u) <==> u !in Grown(rows, v, u)
  {
    var walk := Grown(rows, u, u);
    var v := walk[j];
    GrownMembers(rows, u, u, v);
    GrownMembers(rows, u, u, u);
    GrownDistinct(rows, u, u);
    assert v in walk;
    assert u !in walk;
    GrownMembers(rows, v, u, u);
    forall x | x in walk[..j] ensures x in walk && x != v {
      var i :| 0 <= i < j && walk[i] == x;
      assert walk[i] in walk;
    }
  }

  lemma GrownNext(rows: seq<seq<nat>>, v: nat, u: nat)
    requires v < |rows| && u < |rows|
    ensures Grown(rows, v, u + 1) == if Missing(rows, v, u) then [u] + Grown(rows, v, u) else Grown(rows, v, u)
  {
  }

  lemma ProgressStep(rows: seq<seq<nat>>, u: nat, j: nat)
    requires GoodRows(rows) && u < |rows| && j < |Grown(rows, u, u)|
    ensures var walk := Grown(rows, u, u);
            var v := walk[j];
            var now := Progress(rows, u, walk[..j]);
            && v < |rows|
            && now[v] == Grown(rows, v, u)
            && Progress(rows, u, walk[..j + 1]) == if Missing(rows, v, u) then now[v := [u] + now[v]] else now
  {
    hide Grown, Missing, GoodRows;
    WalkedRow(rows, u, j);
    var walk := Grown(rows, u, u);
    assert walk[..j + 1] == walk[..j] + [walk[j]];
    var v := walk[j];
    GrownNext(rows, v, u);
    var now, next := Progress(rows, u, walk[..j]), Progress(rows, u, walk[..j + 1]);
    forall x: nat | x < |rows| ensures next[x] == (if Missing(rows, v, u) then now[v := [u] + now[v]] else now)[x] {
      assert x in walk[..j + 1] <==> x in walk[..j] || x == v;
    }
    assert next == if Missing(rows, v, u) then now[v := [u] + now[v]] else now;
  }

  // A missing inverse always finds a reserved cell.
  lemma SlotReserved(rows: seq<seq<nat>>, offs: seq<nat>, needed: seq<nat>, mem: seq<nat>, now: seq<seq<nat>>, v: nat,
                     u: nat)
    requires v < |rows| && u < |rows| && RoomFor(rows, offs) && Placed(offs, needed, mem, now, 0)
    requires |now| == |rows| && now[v] == Grown(rows, v, u) && Missing(rows, v, u)
    ensures needed[v] > 0
  {
    assert RowPlaced(offs, needed, mem, now[v], v);
    GrownSize(rows, v, u);
    MissCountGrows(rows, v, u + 1, |rows|);
  }

  // Entry j of the walk is where it should be, and the row to search is the
  // target's, partitioned around u.
  lemma InverseSought(rows: seq<seq<nat>>, u: nat, j: nat, offs: seq<nat>, needed: seq<nat>, mem: seq<nat>)
    requires GoodRows(rows) && u < |rows| && j < |Grown(rows, u, u)| && Offsets(offs, |rows|, |mem|)
    requires Placed(offs, needed, mem, Progress(rows, u, Grown(rows, u, u)[..j]), 0)
    ensures |offs| == |rows| + 1 && |needed| == |rows| && offs[u] + needed[u] + j < |mem|
    ensures mem[offs[u] + needed[u] + j] == Grown(rows, u, u)[j]
    ensures var v := mem[offs[u] + needed[u] + j];
      && v < |rows| && offs[v] + needed[v] <= offs[v + 1] <= |mem|
      && Partitioned(mem[offs[v] + needed[v]..offs[v + 1]], u)
      && (u in mem[offs[v] + needed[v]..offs[v + 1]] <==> !Missing(rows, v, u))
  {
    hide GoodRows, Grown, Missing, Partitioned;
    var now, v := Progress(rows, u, Grown(rows, u, u)[..j]), Grown(rows, u, u)[j];
    WalkedRow(rows, u, j);
    assert RowPlaced(offs, needed, mem, now[u], u) && RowPlaced(offs, needed, mem, now[v], v);
    assert now[u] == Grown(rows, u, u) && now[v] == Grown(rows, v, u);
    HoldsSlice(mem, offs[v] + needed[v], now[v]);
    GrownPartitioned(rows, v, u, u);
  }

  // Entry j of the walk and whether its row already lists u.
  method FindInverse(a: array<nat>, offs: array<nat>, needed: array<nat>, u: nat, j: nat, ghost rows: seq<seq<nat>>)
    returns (v: nat, found: bool)
    requires GoodRows(rows) && u < |rows| && j < |Grown(rows, u, u)|
    requires Offsets(offs[..], |rows|, a.Length)
    requires Placed(offs[..], needed[..], a[..], Progress(rows, u, Grown(rows, u, u)[..j]), 0)
    ensures v == Grown(rows, u, u)[j] && v < |rows| && (found <==> !Missing(rows, v, u))
  {
    hide Placed, Progress, Grown, Missing, GoodRows, Partitioned, Offsets;
    InverseSought(rows, u, j, offs[..], needed[..], a[..]);
    v := a[offs[u] + needed[u] + j];
    found := BinarySearch(a, offs[v] + needed[v], offs[v + 1], u);
  }

  // Puts u in the last free cell of row v.
  method PutInverse(a: array<nat>, offs: array<nat>, needed: array<nat>, u: nat, v: nat, ghost now: seq<seq<nat>>)
    requires a != offs && a != needed && offs != needed
    requires Placed(offs[..], needed[..], a[..], now, 0) && v < |now| && needed[v] > 0
      && Offsets(offs[..], |now|, a.Length)
    modifies a, needed
    ensures Placed(offs[..], needed[..], a[..], now[v := [u] + now[v]], 0)
    ensures needed[..] == old(needed[..])[v := (old(needed[v]) - 1) as nat]
  {
    InsertStep(offs[..], needed[..], a[..], now, v, u);
    ghost var mem, need := a[..], needed[..];
    a[offs[v] + needed[v] - 1] := u;
    needed[v] := needed[v] - 1;
    assert a[..] == mem[offs[v] + need[v] - 1 := u] && needed[..] == need[v := (need[v] - 1) as nat];
  }

  method InsertInverse(a: array<nat>, offs: array<nat>, needed: array<nat>, u: nat, j: nat, ghost rows: seq<seq<nat>>)
    requires a != offs && a != needed && offs != needed
    requires GoodRows(rows) && u < |rows| && j < |Grown(rows, u, u)|
    requires RoomFor(rows, offs[..]) && Offsets(offs[..], |rows|, a.Length)
    requires Placed(offs[..], needed[..], a[..], Progress(rows, u, Grown(rows, u, u)[..j]), 0)
    modifies a, needed
    ensures Placed(offs[..], needed[..], a[..], Progress(rows, u, Grown(rows, u, u)[..j + 1]), 0)
    ensures u < needed.Length && needed[u] == old(needed[u])
  {
    ghost var now := Progress(rows, u, Grown(rows, u, u)[..j]);
    WalkedRow(rows, u, j);
    ProgressStep(rows, u, j);
    var v, found := FindInverse(a, offs, needed, u, j, rows);
    if !found {
      SlotReserved(rows, offs[..], needed[..], a[..], now, v, u);
      PutInverse(a, offs, needed, u, v, now);
    }
  }

  lemma ProgressStart(rows: seq<seq<nat>>)
    ensures Progress(rows, 0, []) == rows
  {
  }

  lemma ProgressNext(rows: seq<seq<nat>>, u: nat)
    requires GoodRows(rows) && u < |rows|
    ensures Progress(rows, u, Grown(rows, u, u)) == Progress(rows, u + 1, [])
  {
    var now, next := Progress(rows, u, Grown(rows, u, u)), Progress(rows, u + 1, []);
    forall v: nat | v < |rows| ensures now[v] == next[v] {
      GrownMembers(rows, u, u, v);
    }
    assert now == next;
  }

  // Step 3, one vertex: the bounds of the walk are read before anything is inserted.
  method InsertFrom(a: array<nat>, offs: array<nat>, needed: array<nat>, u: nat, ghost rows: seq<seq<nat>>)
    requires a != offs && a != needed && offs != needed
    requires GoodRows(rows) && u < |rows| && RoomFor(rows, offs[..]) && Offsets(offs[..], |rows|, a.Length)
    requires Placed(offs[..], needed[..], a[..], Progress(rows, u, []), 0)
    modifies a, needed
    ensures Placed(offs[..], needed[..], a[..], Progress(rows, u + 1, []), 0)
  {
    ghost var walk := Grown(rows, u, u);
    assert RowPlaced(offs[..], needed[..], a[..], Progress(rows, u, [])[u], u);
    var start := offs[u] + needed[u];
    assert walk[..0] == [];
    for i := start to offs[u + 1]
      invariant Placed(offs[..], needed[..], a[..], Progress(rows, u, walk[..i - start]), 0)
      invariant needed.Length == |rows| && offs[u] + needed[u] == start
    {
      InsertInverse(a, offs, needed, u, i - start, rows);
    }
    assert walk[..offs[u + 1] - start] == walk;
    ProgressNext(rows, u);
  }

  // Step 3: every missing inverse goes into a reserved cell, and none is left over.
  method InsertInverses(a: array<nat>, offs: array<nat>, needed: array<nat>, n: nat, ghost rows: seq<seq<nat>>)
    requires a != offs && a != needed && offs != needed && n == |rows|
    requires GoodRows(rows) && RoomFor(rows, offs[..]) && Offsets(offs[..], n, a.Length)
    requires Placed(offs[..], needed[..], a[..], rows, 0)
    modifies a, needed
    ensures forall v: nat | v < n :: needed[v] == 0
    ensures forall v: nat | v < n ::
      Holds(a[..], offs[v], Grown(rows, v, n)) && offs[v] + |Grown(rows, v, n)| == offs[v + 1]
  {
    hide Grown, GoodRows, Progress, RoomFor, RowPlaced, Holds;
    ProgressStart(rows);
    for u := 0 to n
      invariant Placed(offs[..], needed[..], a[..], Progress(rows, u, []), 0)
    {
      InsertFrom(a, offs, needed, u, rows);
    }
    AllInserted(offs[..], needed[..], a[..], rows);
  }

  lemma AllInserted(offs: seq<nat>, needed: seq<nat>, mem: seq<nat>, rows: seq<seq<nat>>)
    requires RoomFor(rows, offs)
    requires Placed(offs, needed, mem, Progress(rows, |rows|, []), 0)
    ensures forall v: nat | v < |rows| :: needed[v] == 0
    ensures forall v: nat | v < |rows| ::
      Holds(mem, offs[v], Grown(rows, v, |rows|)) && offs[v] + |Grown(rows, v, |rows|)| == offs[v + 1]
  {
    hide Grown, Holds;
    forall v: nat | v < |rows|
      ensures needed[v] == 0 && Holds(mem, offs[v], Grown(rows, v, |rows|))
      ensures offs[v] + |Grown(rows, v, |rows|)| == offs[v + 1]
    {
      assert RowPlaced(offs, needed, mem, Progress(rows, |rows|, [])[v], v);
      GrownSize(rows, v, |rows|);
    }
  }
}
