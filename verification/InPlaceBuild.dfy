// The whole in-place build, and its agreement with building then squishing.
module InPlaceBuild {
  import opened Lists
  import opened Csr
  import opened CsrBuild
  import opened InPlaceEdges
  import opened InPlaceSymmetrize

  lemma OutRowsAreGood(sq: seq<Edge>, n: nat, offsets: seq<nat>, mem: seq<nat>)
    requires RowStarts(sq, n, offsets) && |sq| <= |mem| && mem[..|sq|] == Targets(sq)
    requires forall e | e in sq :: e.u != e.v
    ensures GoodRows(OutRows(sq, n)) && RowsInPlace(offsets, mem, OutRows(sq, n))
  {
    TargetsAreRows(sq, n, offsets, mem);
    forall u: nat, v | u < n && v in OutRows(sq, n)[u] ensures v < n && v != u {
      assert Edge(u, v) in sq;
    }
  }

  lemma RaisedRoom(base: seq<nat>, needed: seq<nat>, offs: seq<nat>, rows: seq<seq<nat>>, mem: seq<nat>)
    requires Raised(base, needed, offs) && |needed| == |rows| && RowsInPlace(base, mem, rows)
    requires Offsets(base, |rows|, base[|rows|])
    requires forall v: nat | v < |rows| :: needed[v] == MissCount(rows, v, |rows|)
    ensures RoomFor(rows, offs) && Offsets(offs, |rows|, offs[|rows|])
    ensures base[|rows|] <= offs[|rows|]
  {
    forall v: nat | v < |rows| ensures offs[v] + |rows[v]| + MissCount(rows, v, |rows|) == offs[v + 1] {
      assert SumTo(needed, v + 1) == SumTo(needed, v) + needed[v];
      assert base[v] + |rows[v]| == base[v + 1];
    }
    forall i, j | 0 <= i <= j <= |rows| ensures offs[i] <= offs[j] { SumToGrows(needed, i, j); }
  }

  // A block that keeps the first cells keeps the rows.
  lemma ReallocKeepsRows(base: seq<nat>, mem: seq<nat>, mem': seq<nat>, rows: seq<seq<nat>>)
    requires RowsInPlace(base, mem, rows) && Offsets(base, |rows|, base[|rows|]) && base[|rows|] <= |mem'|
    requires forall i: nat | i < |mem| && i < |mem'| :: mem'[i] == mem[i]
    ensures forall v: nat | v < |rows| :: Holds(mem', base[v], rows[v])
  {
    forall v: nat | v < |rows| ensures Holds(mem', base[v], rows[v]) {
      assert base[v] + |rows[v]| == base[v + 1] <= base[|rows|] && Holds(mem, base[v], rows[v]);
    }
  }

  lemma StartSpread(base: seq<nat>, offs: seq<nat>, needed: seq<nat>, mem: seq<nat>, mem': seq<nat>,
                    rows: seq<seq<nat>>)
    requires Raised(base, needed, offs) && |needed| == |rows| && RowsInPlace(base, mem, rows)
    requires Offsets(base, |rows|, base[|rows|]) && base[|rows|] <= |mem'|
    requires forall i: nat | i < |mem| && i < |mem'| :: mem'[i] == mem[i]
    ensures HalfSpread(base, offs, needed, mem', rows, |rows|)
  {
    ReallocKeepsRows(base, mem, mem', rows);
  }

  ghost predicate SortedUpTo(offs: seq<nat>, mem: seq<nat>, grown: seq<seq<nat>>, k: nat)
    requires |offs| == |grown| + 1
  {
    forall v: nat | v < |grown| :: Holds(mem, offs[v], if v < k then Sort(grown[v]) else grown[v])
  }

  lemma SortStep(offs: seq<nat>, mem: seq<nat>, mem': seq<nat>, grown: seq<seq<nat>>, k: nat)
    requires Offsets(offs, |grown|, |mem|) && k < |grown| && SortedUpTo(offs, mem, grown, k)
    requires forall v: nat | v < |grown| :: offs[v] + |grown[v]| == offs[v + 1] && |Sort(grown[v])| == |grown[v]|
    requires SameOutside(mem, mem', offs[k], offs[k + 1]) && Holds(mem', offs[k], Sort(grown[k]))
    ensures SortedUpTo(offs, mem', grown, k + 1)
  {
    forall v: nat | v < |grown| ensures Holds(mem', offs[v], if v < k + 1 then Sort(grown[v]) else grown[v]) {
      if v != k {
        assert if v < k then offs[v + 1] <= offs[k] else offs[k + 1] <= offs[v];
        HoldsElsewhere(mem, mem', offs[k], offs[k + 1], offs[v], if v < k then Sort(grown[v]) else grown[v]);
      }
    }
  }

  method SortRows(offs: array<nat>, a: array<nat>, n: nat, ghost grown: seq<seq<nat>>)
    requires offs != a && n == |grown| && Offsets(offs[..], n, a.Length) && SortedUpTo(offs[..], a[..], grown, 0)
    requires forall v: nat | v < n :: offs[v] + |grown[v]| == offs[v + 1]
    modifies a
    ensures SortedUpTo(offs[..], a[..], grown, n)
  {
    forall v: nat | v < n ensures |Sort(grown[v])| == |grown[v]| { SortByProperties(IdLe, grown[v]); }
    for k := 0 to n
      invariant SortedUpTo(offs[..], a[..], grown, k)
    {
      SortNext(offs, a, k, grown);
    }
  }

  method SortNext(offs: array<nat>, a: array<nat>, k: nat, ghost grown: seq<seq<nat>>)
    requires offs != a && k < |grown| && Offsets(offs[..], |grown|, a.Length) && SortedUpTo(offs[..], a[..], grown, k)
    requires forall v: nat | v < |grown| :: offs[v] + |grown[v]| == offs[v + 1] && |Sort(grown[v])| == |grown[v]|
    modifies a
    ensures SortedUpTo(offs[..], a[..], grown, k + 1)
  {
    HoldsSlice(a[..], offs[k], grown[k]);
    assert a[offs[k]..offs[k + 1]] == grown[k];
    ghost var mem := a[..];
    SortRange(a, offs[k], offs[k + 1]);
    SortStep(offs[..], mem, a[..], grown, k);
  }

  ghost function AllGrown(rows: seq<seq<nat>>): (g: seq<seq<nat>>)
    ensures |g| == |rows| && forall v: nat | v < |rows| :: g[v] == Grown(rows, v, |rows|)
  {
    seq(|rows|, v requires 0 <= v < |rows| => Grown(rows, v, |rows|))
  }

  // Steps 1 and 2: every row in its new place, above free cells for its inverses.
  method MakeRoom(mem: array<nat>, offs: array<nat>, n: nat, extra: nat, ghost rows: seq<seq<nat>>)
    returns (neighs: array<nat>, needed: array<nat>, inside: bool)
    requires mem != offs && n == |rows| && RowsInPlace(offs[..], mem[..], rows) && GoodRows(rows)
    requires Offsets(offs[..], n, offs[n])
    modifies offs
    ensures fresh(neighs) && fresh(needed) && neighs != needed && offs.Length == n + 1 && neighs.Length == offs[n]
    ensures RoomFor(rows, offs[..]) && Offsets(offs[..], n, neighs.Length)
    ensures inside <==> extra == 0 || old(offs[n]) == 0
    ensures inside ==> Placed(offs[..], needed[..], neighs[..], rows, 0)
  {
    needed := CountNeeded(mem, offs, n, rows);
    ghost var base := offs[..];
    var total := RaiseOffsets(offs, needed, extra);
    RaisedRoom(base, needed[..], offs[..], rows, mem[..]);
    neighs := Realloc(mem, offs[n]);
    StartSpread(base, offs[..], needed[..], mem[..], neighs[..], rows);
    inside := Spread(neighs, offs, needed, n, total, extra, base, rows);
  }

  lemma SortedRowsAt(offs: seq<nat>, mem: seq<nat>, rows: seq<seq<nat>>)
    requires Offsets(offs, |rows|, |mem|) && SortedUpTo(offs, mem, AllGrown(rows), |rows|)
    requires forall v: nat | v < |rows| :: offs[v] + |Grown(rows, v, |rows|)| == offs[v + 1]
    ensures forall v: nat | v < |rows| :: Row(offs, mem, v) == Sort(Grown(rows, v, |rows|))
  {
    forall v: nat | v < |rows| ensures Row(offs, mem, v) == Sort(Grown(rows, v, |rows|)) {
      assert Holds(mem, offs[v], Sort(AllGrown(rows)[v]));
      SortedRowAt(offs, mem, Grown(rows, v, |rows|), v);
    }
  }

  lemma SortedRowAt(offs: seq<nat>, mem: seq<nat>, grown: seq<nat>, v: nat)
    requires v + 1 < |offs| && offs[v] + |grown| == offs[v + 1] && Holds(mem, offs[v], Sort(grown))
    ensures |Sort(grown)| == |grown| && offs[v + 1] <= |mem| && Row(offs, mem, v) == Sort(grown)
  {
    SortByProperties(IdLe, grown);
    HoldsSlice(mem, offs[v], Sort(grown));
  }

  // Adds every missing inverse edge to the rows, in place; extra is the word past
  // the end of the counters.
  method AddInverses(mem: array<nat>, offs: array<nat>, n: nat, extra: nat, ghost rows: seq<seq<nat>>)
    returns (neighs: array<nat>, inside: bool)
    requires mem != offs && n == |rows| && RowsInPlace(offs[..], mem[..], rows) && GoodRows(rows)
    requires Offsets(offs[..], n, offs[n])
    modifies offs
    ensures fresh(neighs) && Offsets(offs[..], n, neighs.Length)
    ensures inside <==> extra == 0 || old(offs[n]) == 0
    ensures inside ==> forall v: nat | v < n :: Row(offs[..], neighs[..], v) == Sort(Grown(rows, v, n))
  {
    var needed;
    neighs, needed, inside := MakeRoom(mem, offs, n, extra, rows);
    if inside {
      InsertInverses(neighs, offs, needed, n, rows);
      SortRows(offs, neighs, n, AllGrown(rows));
      SortedRowsAt(offs[..], neighs[..], rows);
    }
  }

  // A grown row lists exactly the neighbours in either direction.
  lemma GrownIsBuilt(el: seq<Edge>, n: nat, v: nat)
    requires InRange(el, n) && v < n && GoodRows(OutRows(Prepared(el), n))
    requires forall u: nat, x: nat | u < n :: x in OutRows(Prepared(el), n)[u] <==> Edge(u, x) in Prepared(el)
    ensures RowBuilt(el, true, true, v, Sort(Grown(OutRows(Prepared(el), n), v, n)))
  {
    var rows, sq := OutRows(Prepared(el), n), Prepared(el);
    PreparedProperties(el);
    GrownDistinct(rows, v, n);
    var g := Grown(rows, v, n);
    SortDistinct(g);
    forall x: nat ensures x in Sort(g) <==> Edge(v, x) in sq || Edge(x, v) in sq {
      GrownMembers(rows, v, n, x);
      if Edge(x, v) in sq { assert Edge(x, v) in el && x < n; }
    }
    PreparedNeighbours(el, true, true, v, Sort(g));
  }

  lemma OutgoingRow(sq: seq<Edge>, n: nat, offsets: seq<nat>, mem: seq<nat>, u: nat)
    requires RowStarts(sq, n, offsets) && mem == Targets(sq) && u < n && Offsets(offsets, n, |mem|)
    ensures StrictlySorted(Row(offsets, mem, u)) && forall v: nat :: v in Row(offsets, mem, u) <==> Edge(u, v) in sq
  {
    hide RowStarts, OutRows, Targets, StrictlySorted, SumTo;
    assert mem[..|sq|] == mem;
    TargetsAreRows(sq, n, offsets, mem);
    HoldsSlice(mem, offsets[u], OutRows(sq, n)[u]);
    assert Row(offsets, mem, u) == OutRows(sq, n)[u];
  }

  lemma OutgoingIsBuilt(el: seq<Edge>, n: nat, offsets: seq<nat>, mem: seq<nat>)
    requires RowStarts(Prepared(el), n, offsets) && mem == Targets(Prepared(el))
    ensures Built(el, n, true, false, offsets, mem)
  {
    RowStartsAreOffsets(Prepared(el), n, offsets);
    forall u: nat | u < n ensures RowBuilt(el, true, false, u, Row(offsets, mem, u)) {
      OutgoingRow(Prepared(el), n, offsets, mem, u);
      PreparedNeighbours(el, true, false, u, Row(offsets, mem, u));
    }
  }

  lemma IncomingIsBuilt(el: seq<Edge>, n: nat, inoffsets: seq<nat>, inv: seq<nat>)
    requires StrictlyOrdered(Prepared(el)) && Offsets(inoffsets, n, |inv|)
    requires forall v: nat | v < n :: Row(inoffsets, inv, v) == RowValues(Prepared(el), false, true, v)
    ensures Built(el, n, false, true, inoffsets, inv)
  {
    var sq := Prepared(el);
    forall v: nat | v < n ensures RowBuilt(el, false, true, v, Row(inoffsets, inv, v)) {
      IncomingSorted(sq, v, |sq|);
      assert sq[..|sq|] == sq;
      forall u: nat ensures u in RowValues(sq, false, true, v) <==> Edge(u, v) in sq {
        PushedMembers(sq, false, true, v, |sq|, u);
      }
      PreparedNeighbours(el, false, true, v, RowValues(sq, false, true, v));
    }
  }

  // Incoming rows of a graph that is not symmetrized.
  method MakeIncoming(mem: array<nat>, offsets: array<nat>, n: nat, ghost el: seq<Edge>, indegrees: array<nat>)
    returns (invIndex: array<nat>, inv: array<nat>)
    requires indegrees.Length == n && InRange(Prepared(el), n)
    requires DegreesOf(Prepared(el), false, true, |Prepared(el)|, indegrees[..])
    requires RowStarts(Prepared(el), n, offsets[..]) && mem[..] == Targets(Prepared(el))
    ensures fresh(invIndex) && fresh(inv) && Built(el, n, false, true, invIndex[..], inv[..])
  {
    hide Prepared, DegreesOf, Room, Filled, RowValues, PrefixSums, Built, StrictlyOrdered;
    ghost var sq := Prepared(el);
    var inoffsets := ParallelPrefixSum(indegrees);
    PrefixSumsAreOffsets(indegrees[..], inoffsets[..]);
    PrefixSumsLeaveRoom(sq, false, true, indegrees[..], inoffsets[..]);
    inv := new nat[inoffsets[n]];
    invIndex := GenIndex(inoffsets);
    assert mem[..|sq|] == mem[..];
    Invert(mem, offsets, n, sq, inoffsets, inv);
    FilledRows(sq, false, true, n, invIndex[..], inoffsets[..], inv[..]);
    IncomingIsBuilt(el, n, invIndex[..], inv[..]);
  }

  lemma PreparedInRange(el: seq<Edge>, n: nat)
    requires InRange(el, n)
    ensures InRange(Prepared(el), n) && StrictlyOrdered(Prepared(el)) && forall e | e in Prepared(el) :: e.u != e.v
  {
    PreparedProperties(el);
    forall e | e in Prepared(el) ensures e.u < n && e.v < n { assert e in el; }
  }

  ghost predicate OnlyLoops(el: seq<Edge>) {
    forall e | e in el :: e.u == e.v
  }

  lemma PreparedEmpty(el: seq<Edge>)
    ensures Prepared(el) == [] <==> OnlyLoops(el)
  {
    PreparedProperties(el);
    if Prepared(el) != [] { assert Prepared(el)[0] in Prepared(el); }
  }

  // Symmetrized, the rows hold the neighbours in either direction; otherwise the
  // outgoing ones, with the incoming ones beside them.  Whatever word stands past
  // the end of the counters, the build is right when it stays inside its memory,
  // and it does so exactly when that word is 0, or not used.
  method MakeCSRInPlace(el: seq<Edge>, n: nat, symmetrize: bool, extra: nat)
    returns (index: array<nat>, neighs: array<nat>, invIndex: array<nat>, invNeighs: array<nat>, inside: bool)
    requires InRange(el, n)
    ensures inside <==> !symmetrize || extra == 0 || OnlyLoops(el)
    ensures inside ==> Built(el, n, true, symmetrize, index[..], neighs[..])
    ensures !symmetrize ==> Built(el, n, false, true, invIndex[..], invNeighs[..])
  {
    var sq := Prepared(el);
    PreparedInRange(el, n);
    var indegrees := CountDegrees(sq, n, symmetrize, true, true);
    var mem, offsets := OutgoingInPlace(sq, n, symmetrize);
    invIndex, invNeighs, inside := new nat[0], new nat[0], true;
    RowStartsAreOffsets(sq, n, offsets[..]);
    if !symmetrize {
      neighs := Realloc(mem, |sq|);
      assert neighs[..] == mem[..|sq|];
      OutgoingIsBuilt(el, n, offsets[..], neighs[..]);
      index := GenIndex(offsets);
      invIndex, invNeighs := MakeIncoming(neighs, offsets, n, el, indegrees);
    } else {
      ghost var rows := OutRows(sq, n);
      TargetsAreRows(sq, n, offsets[..], mem[..]);
      OutRowsAreGood(sq, n, offsets[..], mem[..]);
      PreparedEmpty(el);
      assert offsets[n] == |sq|;
      neighs, inside := AddInverses(mem, offsets, n, extra, rows);
      if inside {
        forall v: nat | v < n ensures RowBuilt(el, true, true, v, Row(offsets[..], neighs[..], v)) {
          GrownIsBuilt(el, n, v);
        }
      }
      index := GenIndex(offsets);
    }
  }

  // Both paths build the same graph, when the in-place one stays inside its memory.
  method BothPaths(el: seq<Edge>, n: nat, symmetrize: bool, extra: nat)
    returns (index: array<nat>, neighs: array<nat>, index': array<nat>, neighs': array<nat>, inside: bool)
    requires InRange(el, n)
    ensures Built(el, n, true, symmetrize, index[..], neighs[..])
    ensures inside <==> !symmetrize || extra == 0 || OnlyLoops(el)
    ensures inside ==> index'[..] == index[..] && neighs'[..] == neighs[..]
  {
    index, neighs := BuildThenSquish(el, n, symmetrize, false);
    ghost var offsets, row := index[..], neighs[..];
    var invIndex, invNeighs;
    index', neighs', invIndex, invNeighs, inside := MakeCSRInPlace(el, n, symmetrize, extra);
    if inside { BuiltUnique(el, n, true, symmetrize, offsets, row, index'[..], neighs'[..]); }
  }
}
