module ScatterThreads {
  // The scatter loop of the builder under any interleaving.  Each write to a row
  // is two steps: fetch_and_add claims a cell, then the value is stored there.

  import opened Lists
  import opened Csr
  import opened CsrBuild

  // One value on its way to a row.
  datatype Item<T> = Item(row: nat, value: T)

  datatype Pc = Waiting | Claimed(slot: nat) | Stored(slot: nat)

  datatype State<T> = State(offs: seq<nat>, cells: seq<T>, pcs: seq<Pc>)

  // What the builder reads off an edge: the vertex that its other end names, and
  // what that end's row gets in return (GetSource).
  datatype Ends<!T> = Ends(node: T -> nat, source: EdgeTo<T> -> T)

  function Itself(v: nat): nat { v }

  function Source(e: Edge): nat { e.u }

  const PLAIN: Ends<nat> := Ends(Itself, Source)

  // The writes that the first k edges ask for.
  function Items<T>(ends: Ends<T>, el: seq<EdgeTo<T>>, forwards: bool, backwards: bool, k: nat): seq<Item<T>>
    requires k <= |el|
  {
    if k == 0 then []
    else
      var e := el[k - 1];
      Items(ends, el, forwards, backwards, k - 1)
      + (if forwards then [Item(e.u, e.v)] else [])
      + (if backwards then [Item(ends.node(e.v), ends.source(e))] else [])
  }

  // The values among the first k items that row r is to get.
  function ValuesFor<T>(items: seq<Item<T>>, r: nat, k: nat): seq<T>
    requires k <= |items|
  {
    if k == 0 then []
    else ValuesFor(items, r, k - 1) + if items[k - 1].row == r then [items[k - 1].value] else []
  }

  lemma {:induction false} ValuesForPrefix<T>(a: seq<Item<T>>, b: seq<Item<T>>, r: nat, k: nat)
    requires k <= |a| && k <= |b| && a[..k] == b[..k]
    ensures ValuesFor(a, r, k) == ValuesFor(b, r, k)
  {
    if k > 0 {
      assert a[k - 1] == a[..k][k - 1] == b[..k][k - 1];
      assert a[..k - 1] == a[..k][..k - 1] && b[..k - 1] == b[..k][..k - 1];
      ValuesForPrefix(a, b, r, k - 1);
    }
  }

  function All<T>(items: seq<Item<T>>, r: nat): seq<T> { ValuesFor(items, r, |items|) }

  lemma AllAppend<T>(items: seq<Item<T>>, on: bool, item: Item<T>, r: nat)
    ensures All(items + if on then [item] else [], r) == All(items, r) + if on && item.row == r then [item.value]
      else []
  {
    var longer := items + if on then [item] else [];
    ValuesForPrefix(items, longer, r, |items|);
  }

  lemma {:induction false} ItemsAreRowValues(el: seq<Edge>, forwards: bool, backwards: bool, r: nat, k: nat)
    requires k <= |el|
    ensures All(Items(PLAIN, el, forwards, backwards, k), r) == Pushed(el, forwards, backwards, r, k)
  {
    if k > 0 {
      var e, before := el[k - 1], Items(PLAIN, el, forwards, backwards, k - 1);
      ItemsAreRowValues(el, forwards, backwards, r, k - 1);
      AllAppend(before, forwards, Item(e.u, e.v), r);
      AllAppend(before + if forwards then [Item(e.u, e.v)] else [], backwards, Item(e.v, e.u), r);
    }
  }

  predicate Enabled<T>(items: seq<Item<T>>, s: State<T>, i: nat) {
    && i < |items| == |s.pcs|
    && match s.pcs[i]
       case Waiting => items[i].row < |s.offs|
       case Claimed(slot) => slot < |s.cells|
       case Stored(_) => false
  }

  function Apply<T>(items: seq<Item<T>>, s: State<T>, i: nat): State<T>
    requires Enabled(items, s, i)
  {
    match s.pcs[i]
    case Waiting =>
      var r := items[i].row;
      s.(offs := s.offs[r := s.offs[r] + 1], pcs := s.pcs[i := Claimed(s.offs[r])])
    case Claimed(slot) => s.(cells := s.cells[slot := items[i].value], pcs := s.pcs[i := Stored(slot)])
  }

  function Initial<T>(items: seq<Item<T>>, start: seq<nat>, cells: seq<T>): State<T> {
    State(start, cells, seq(|items|, _ => Waiting))
  }

  predicate Finished<T>(s: State<T>) { forall i | 0 <= i < |s.pcs| :: s.pcs[i].Stored? }

  ghost predicate IsRun<T>(items: seq<Item<T>>, states: seq<State<T>>, moves: seq<nat>) {
    && |states| == |moves| + 1
    && forall i | 0 <= i < |moves| ::
      Enabled(items, states[i], moves[i]) && states[i + 1] == Apply(items, states[i], moves[i])
  }

  // ---------------------------------------------------------------- invariant

  // The values that row r has not reserved a cell for yet.
  ghost function Unclaimed<T>(items: seq<Item<T>>, pcs: seq<Pc>, r: nat, k: nat): multiset<T>
    requires k <= |items| == |pcs|
  {
    if k == 0 then multiset{}
    else Unclaimed(items, pcs, r, k - 1) + Share(items[k - 1], pcs[k - 1], r)
  }

  ghost function Share<T>(item: Item<T>, pc: Pc, r: nat): multiset<T> {
    if item.row == r && pc.Waiting? then multiset{item.value} else multiset{}
  }

  predicate HasSlot(pc: Pc) { pc.Claimed? || pc.Stored? }

  // Rows have room for exactly the values that are to come.
  ghost predicate Fits<T>(items: seq<Item<T>>, start: seq<nat>, total: nat) {
    && |start| > 0 && Offsets(start, |start| - 1, total)
    && (forall i | 0 <= i < |items| :: items[i].row + 1 < |start|)
    && (forall r: nat | r + 1 < |start| :: start[r] + |ValuesFor(items, r, |items|)| == start[r + 1])
  }

  // log[r][j] is the value that was promised cell j of row r.
  ghost predicate RowOk<T>(items: seq<Item<T>>, start: seq<nat>, s: State<T>, log: seq<seq<T>>, r: nat)
    requires r < |start| && r < |s.offs| && r < |log| && |items| == |s.pcs|
  {
    && s.offs[r] == start[r] + |log[r]|
    && multiset(log[r]) + Unclaimed(items, s.pcs, r, |items|) == multiset(ValuesFor(items, r, |items|))
  }

  ghost predicate SlotOk<T>(items: seq<Item<T>>, start: seq<nat>, s: State<T>, log: seq<seq<T>>, i: nat)
    requires i < |items| == |s.pcs|
  {
    HasSlot(s.pcs[i]) ==>
      var r, slot := items[i].row, s.pcs[i].slot;
      && r < |start| && r < |log|
      && start[r] <= slot < start[r] + |log[r]| && log[r][slot - start[r]] == items[i].value
  }

  // A promised cell holds its value, or its owner is about to store it.
  ghost predicate CellOk<T>(start: seq<nat>, s: State<T>, log: seq<seq<T>>, r: nat, j: nat)
    requires r < |start| && r < |log| && j < |log[r]|
  {
    start[r] + j < |s.cells| &&
    (s.cells[start[r] + j] == log[r][j] || exists i :: 0 <= i < |s.pcs| && s.pcs[i] == Claimed(start[r] + j))
  }

  ghost predicate SlotsApart<T>(items: seq<Item<T>>, s: State<T>) {
    && |items| == |s.pcs|
    && forall i, k | 0 <= i < k < |items| && HasSlot(s.pcs[i]) && HasSlot(s.pcs[k]) :: s.pcs[i].slot != s.pcs[k].slot
  }

  ghost predicate LogInv<T>(items: seq<Item<T>>, start: seq<nat>, s: State<T>, log: seq<seq<T>>) {
    && Fits(items, start, |s.cells|) && |s.offs| == |start| && |log| == |start| - 1 && |s.pcs| == |items|
    && (forall r: nat | r < |log| :: RowOk(items, start, s, log, r))
    && (forall i: nat | i < |items| :: SlotOk(items, start, s, log, i))
    && (forall r: nat, j: nat | r < |log| && j < |log[r]| :: CellOk(start, s, log, r, j))
    && SlotsApart(items, s)
  }

  ghost predicate Inv<T(!new)>(items: seq<Item<T>>, start: seq<nat>, s: State<T>) {
    exists log :: LogInv(items, start, s, log)
  }

  lemma {:induction false} UnclaimedStart<T>(items: seq<Item<T>>, pcs: seq<Pc>, r: nat, k: nat)
    requires k <= |items| == |pcs| && forall i | 0 <= i < |pcs| :: pcs[i].Waiting?
    ensures Unclaimed(items, pcs, r, k) == multiset(ValuesFor(items, r, k))
  {
    if k > 0 { UnclaimedStart(items, pcs, r, k - 1); }
  }

  lemma {:induction false} UnclaimedEnd<T>(items: seq<Item<T>>, pcs: seq<Pc>, r: nat, k: nat)
    requires k <= |items| == |pcs| && forall i | 0 <= i < |pcs| :: !pcs[i].Waiting?
    ensures Unclaimed(items, pcs, r, k) == multiset{}
  {
    if k > 0 { UnclaimedEnd(items, pcs, r, k - 1); }
  }

  lemma {:induction false} UnclaimedBelow<T>(items: seq<Item<T>>, pcs: seq<Pc>, i: nat, pc: Pc, r: nat, k: nat)
    requires k <= i < |items| == |pcs|
    ensures Unclaimed(items, pcs[i := pc], r, k) == Unclaimed(items, pcs, r, k)
  {
    if k > 0 { UnclaimedBelow(items, pcs, i, pc, r, k - 1); }
  }

  lemma Swap<T>(a: multiset<T>, b: multiset<T>, c: multiset<T>)
    ensures (a + b) + c == (a + c) + b
  {
  }

  lemma NothingToShare<T>(item: Item<T>, pc: Pc, r: nat)
    requires !pc.Waiting?
    ensures Share(item, pc, r) == multiset{}
  {
  }

  lemma EmptySum<T>(a: multiset<T>)
    ensures a + multiset{} == a
  {
  }

  // Claiming moves one value of one row, and nothing else.
  lemma {:induction false} UnclaimedStep<T>(items: seq<Item<T>>, pcs: seq<Pc>, i: nat, pc: Pc, r: nat, k: nat)
    requires i < k <= |items| == |pcs| && !pc.Waiting?
    ensures Unclaimed(items, pcs, r, k) == Unclaimed(items, pcs[i := pc], r, k) + Share(items[i], pcs[i], r)
  {
    hide Share;
    if i < k - 1 {
      UnclaimedStep(items, pcs, i, pc, r, k - 1);
      Swap(Unclaimed(items, pcs[i := pc], r, k - 1), Share(items[i], pcs[i], r), Share(items[k - 1], pcs[k - 1], r));
    } else {
      UnclaimedBelow(items, pcs, i, pc, r, k - 1);
      NothingToShare(items[i], pc, r);
      EmptySum(Unclaimed(items, pcs, r, k - 1));
    }
  }

  lemma InitialInv<T(!new)>(items: seq<Item<T>>, start: seq<nat>, cells: seq<T>)
    requires Fits(items, start, |cells|)
    ensures Inv(items, start, Initial(items, start, cells))
  {
    var s := Initial(items, start, cells);
    var log: seq<seq<T>> := seq(|start| - 1, _ => []);
    forall r: nat | r < |log| ensures RowOk(items, start, s, log, r) { UnclaimedStart(items, s.pcs, r, |items|); }
    assert LogInv(items, start, s, log);
  }

  // A row with a value still to claim has a free cell.
  lemma RoomToClaim<T>(items: seq<Item<T>>, start: seq<nat>, s: State<T>, log: seq<seq<T>>, i: nat)
    requires LogInv(items, start, s, log) && i < |items| && s.pcs[i].Waiting?
    ensures items[i].row < |log| && start[items[i].row] + |log[items[i].row]| < start[items[i].row + 1] <= |s.cells|
    ensures s.offs[items[i].row] == start[items[i].row] + |log[items[i].row]|
  {
    var r := items[i].row;
    assert RowOk(items, start, s, log, r);
    UnclaimedStep(items, s.pcs, i, Claimed(0), r, |items|);
    assert |multiset(log[r])| + |Unclaimed(items, s.pcs, r, |items|)| == |multiset(ValuesFor(items, r, |items|))|;
  }

  lemma ClaimKeepsRows<T>(items: seq<Item<T>>, start: seq<nat>, s: State<T>, log: seq<seq<T>>, i: nat)
    requires LogInv(items, start, s, log) && Enabled(items, s, i) && s.pcs[i].Waiting? && items[i].row < |log|
    ensures var log' := log[items[i].row := log[items[i].row] + [items[i].value]];
            forall r: nat | r < |log| :: RowOk(items, start, Apply(items, s, i), log', r)
  {
    var q, s' := items[i].row, Apply(items, s, i);
    var log' := log[q := log[q] + [items[i].value]];
    forall r: nat | r < |log| ensures RowOk(items, start, s', log', r) {
      assert RowOk(items, start, s, log, r);
      UnclaimedStep(items, s.pcs, i, Claimed(s.offs[q]), r, |items|);
    }
  }

  // Slots of a row lie below where its next claim will be, and rows lie apart.
  lemma ClaimIsNew<T>(items: seq<Item<T>>, start: seq<nat>, s: State<T>, log: seq<seq<T>>, i: nat, k: nat)
    requires LogInv(items, start, s, log) && i < |items| && s.pcs[i].Waiting? && k < |items| && HasSlot(s.pcs[k])
    ensures items[i].row < |s.offs| && s.pcs[k].slot != s.offs[items[i].row]
  {
    RoomToClaim(items, start, s, log, i);
    assert SlotOk(items, start, s, log, k);
    var r, q := items[i].row, items[k].row;
    LogFits(items, start, s, log, q);
    assert r < q ==> start[r + 1] <= start[q];
    assert q < r ==> start[q + 1] <= start[r];
  }

  lemma LogFits<T>(items: seq<Item<T>>, start: seq<nat>, s: State<T>, log: seq<seq<T>>, r: nat)
    requires LogInv(items, start, s, log) && r < |log|
    ensures start[r] + |log[r]| <= start[r + 1] <= |s.cells|
  {
    assert RowOk(items, start, s, log, r);
    assert |multiset(log[r])| + |Unclaimed(items, s.pcs, r, |items|)| == |multiset(ValuesFor(items, r, |items|))|;
  }

  lemma ClaimStep<T(!new)>(items: seq<Item<T>>, start: seq<nat>, s: State<T>, log: seq<seq<T>>, i: nat)
    requires LogInv(items, start, s, log) && Enabled(items, s, i) && s.pcs[i].Waiting?
    ensures Inv(items, start, Apply(items, s, i))
  {
    RoomToClaim(items, start, s, log, i);
    var r, s' := items[i].row, Apply(items, s, i);
    var log' := log[r := log[r] + [items[i].value]];
    ClaimKeepsRows(items, start, s, log, i);
    forall k: nat | k < |items| ensures SlotOk(items, start, s', log', k) {
      if k != i { assert SlotOk(items, start, s, log, k); }
    }
    forall q: nat, j: nat | q < |log'| && j < |log'[q]| ensures CellOk(start, s', log', q, j) {
      ClaimKeepsCell(items, start, s, log, i, q, j);
    }
    forall a, b | 0 <= a < b < |items| && HasSlot(s'.pcs[a]) && HasSlot(s'.pcs[b])
      ensures s'.pcs[a].slot != s'.pcs[b].slot {
      if a == i { ClaimIsNew(items, start, s, log, i, b); }
      if b == i { ClaimIsNew(items, start, s, log, i, a); }
    }
    assert LogInv(items, start, s', log');
  }

  lemma ClaimKeepsCell<T>(items: seq<Item<T>>, start: seq<nat>, s: State<T>, log: seq<seq<T>>, i: nat, q: nat, j: nat)
    requires LogInv(items, start, s, log) && Enabled(items, s, i) && s.pcs[i].Waiting? && items[i].row < |log|
      && q < |log|
    requires j < |log[items[i].row := log[items[i].row] + [items[i].value]][q]|
    ensures CellOk(start, Apply(items, s, i), log[items[i].row := log[items[i].row] + [items[i].value]], q, j)
  {
    var r, s' := items[i].row, Apply(items, s, i);
    RoomToClaim(items, start, s, log, i);
    if q == r && j == |log[r]| {
      assert s'.pcs[i] == Claimed(start[q] + j);
    } else {
      assert CellOk(start, s, log, q, j);
      if s.cells[start[q] + j] != log[q][j] {
        var k :| 0 <= k < |s.pcs| && s.pcs[k] == Claimed(start[q] + j);
        assert s'.pcs[k] == Claimed(start[q] + j);
      }
    }
  }

  lemma StoreStep<T(!new)>(items: seq<Item<T>>, start: seq<nat>, s: State<T>, log: seq<seq<T>>, i: nat)
    requires LogInv(items, start, s, log) && Enabled(items, s, i) && s.pcs[i].Claimed?
    ensures Inv(items, start, Apply(items, s, i))
  {
    var s' := Apply(items, s, i);
    forall r: nat | r < |log| ensures RowOk(items, start, s', log, r) {
      assert RowOk(items, start, s, log, r);
      UnclaimedStep(items, s.pcs, i, Stored(s.pcs[i].slot), r, |items|);
    }
    forall k: nat | k < |items| ensures SlotOk(items, start, s', log, k) { assert SlotOk(items, start, s, log, k); }
    forall q: nat, j: nat | q < |log| && j < |log[q]| ensures CellOk(start, s', log, q, j) {
      StoreKeepsCell(items, start, s, log, i, q, j);
    }
    assert SlotsApart(items, s');
    assert LogInv(items, start, s', log);
  }

  lemma StoreKeepsCell<T>(items: seq<Item<T>>, start: seq<nat>, s: State<T>, log: seq<seq<T>>, i: nat, q: nat, j: nat)
    requires LogInv(items, start, s, log) && Enabled(items, s, i) && s.pcs[i].Claimed? && q < |log| && j < |log[q]|
    ensures CellOk(start, Apply(items, s, i), log, q, j)
  {
    var s', slot := Apply(items, s, i), s.pcs[i].slot;
    assert CellOk(start, s, log, q, j) && SlotOk(items, start, s, log, i);
    if start[q] + j == slot {
      var r := items[i].row;
      LogFits(items, start, s, log, r);
      LogFits(items, start, s, log, q);
      assert s'.cells[slot] == log[q][j];
    } else if s.cells[start[q] + j] != log[q][j] {
      var k :| 0 <= k < |s.pcs| && s.pcs[k] == Claimed(start[q] + j);
      assert s'.pcs[k] == Claimed(start[q] + j);
    }
  }

  lemma StepKeepsInv<T(!new)>(items: seq<Item<T>>, start: seq<nat>, s: State<T>, i: nat)
    requires Inv(items, start, s) && Enabled(items, s, i)
    ensures Inv(items, start, Apply(items, s, i))
  {
    var log :| LogInv(items, start, s, log);
    if s.pcs[i].Waiting? { ClaimStep(items, start, s, log, i); } else { StoreStep(items, start, s, log, i); }
  }

  lemma {:induction false} RunInv<T(!new)>(items: seq<Item<T>>, start: seq<nat>, states: seq<State<T>>,
                                           moves: seq<nat>, i: nat)
    requires IsRun(items, states, moves) && Inv(items, start, states[0]) && i < |states|
    ensures Inv(items, start, states[i])
  {
    if i > 0 {
      RunInv(items, start, states, moves, i - 1);
      StepKeepsInv(items, start, states[i - 1], moves[i - 1]);
    }
  }

  // ------------------------------------------------------------------ results

  // Once everything is stored, a row holds exactly its values, each in a cell of its own.
  lemma FinishedRow<T(!new)>(items: seq<Item<T>>, start: seq<nat>, s: State<T>, r: nat)
    requires Inv(items, start, s) && Finished(s) && r + 1 < |start|
    ensures SlotsApart(items, s) && start[r] <= start[r + 1] <= |s.cells|
    ensures multiset(Row(start, s.cells, r)) == multiset(ValuesFor(items, r, |items|))
  {
    hide SlotOk, ValuesFor, Unclaimed;
    var log :| LogInv(items, start, s, log);
    assert RowOk(items, start, s, log, r);
    UnclaimedEnd(items, s.pcs, r, |items|);
    EmptySum(multiset(log[r]));
    assert multiset(log[r]) == multiset(ValuesFor(items, r, |items|));
    assert |multiset(log[r])| == |multiset(ValuesFor(items, r, |items|))|;
    var row := Row(start, s.cells, r);
    forall j: nat | j < |row| ensures row[j] == log[r][j] { assert CellOk(start, s, log, r, j); }
    assert row == log[r];
  }

  // Row r holds what the edges push onto it, and squishes to the built row.
  ghost predicate RowScattered(el: seq<Edge>, forwards: bool, backwards: bool, start: seq<nat>, cells: seq<nat>, r: nat)
    requires r + 1 < |start|
  {
    && start[r] <= start[r + 1] <= |cells|
    && multiset(Row(start, cells, r)) == multiset(RowValues(el, forwards, backwards, r))
    && RowBuilt(el, forwards, backwards, r, Squished(Row(start, cells, r), r))
  }

  // Whatever the interleaving, squishing the finished rows gives the built graph.
  lemma {:induction false} ScatterIsCorrect(el: seq<Edge>, forwards: bool, backwards: bool, start: seq<nat>,
                                            states: seq<State<nat>>, moves: seq<nat>)
    requires var items := Items(PLAIN, el, forwards, backwards, |el|);
      && IsRun(items, states, moves) && Fits(items, start, |states[0].cells|)
      && states[0] == Initial(items, start, states[0].cells)
    requires Finished(states[|moves|])
    ensures forall r: nat | r + 1 < |start| :: RowScattered(el, forwards, backwards, start, states[|moves|].cells, r)
  {
    var items, s := Items(PLAIN, el, forwards, backwards, |el|), states[|moves|];
    InitialInv(items, start, states[0].cells);
    RunInv(items, start, states, moves, |moves|);
    forall r: nat | r + 1 < |start| ensures RowScattered(el, forwards, backwards, start, s.cells, r) {
      FinishedRow(items, start, s, r);
      ItemsAreRowValues(el, forwards, backwards, r, |el|);
      SquishedIsBuilt(el, forwards, backwards, r, Row(start, s.cells, r));
    }
  }

  lemma NeverStuck<T(!new)>(items: seq<Item<T>>, start: seq<nat>, s: State<T>)
    requires Inv(items, start, s) && !Finished(s)
    ensures exists i :: Enabled(items, s, i)
  {
    var log :| LogInv(items, start, s, log);
    var i: nat :| i < |s.pcs| && !s.pcs[i].Stored?;
    assert SlotOk(items, start, s, log, i);
    if s.pcs[i].Claimed? { LogFits(items, start, s, log, items[i].row); }
    assert Enabled(items, s, i);
  }

  // Every move takes one write a step further, so that no schedule is longer than
  // two moves for each of them.
  function StepsLeft(pcs: seq<Pc>, k: nat): nat
    requires k <= |pcs|
  {
    if k == 0 then 0
    else StepsLeft(pcs, k - 1) + match pcs[k - 1] case Waiting => 2 case Claimed(_) => 1 case Stored(_) => 0
  }

  lemma {:induction false} StepsLeftOf(pcs: seq<Pc>, pcs': seq<Pc>, i: nat, k: nat)
    requires k <= |pcs| == |pcs'| && i < |pcs| && pcs' == pcs[i := pcs'[i]]
    requires if pcs[i].Waiting? then pcs'[i].Claimed? else pcs[i].Claimed? && pcs'[i].Stored?
    ensures StepsLeft(pcs, k) == StepsLeft(pcs', k) + if i < k then 1 else 0
  {
    if k > 0 { StepsLeftOf(pcs, pcs', i, k - 1); }
  }

  lemma {:induction false} StepsLeftBound(pcs: seq<Pc>, k: nat)
    requires k <= |pcs|
    ensures StepsLeft(pcs, k) <= 2 * k
  {
    if k > 0 { StepsLeftBound(pcs, k - 1); }
  }

  lemma {:induction false} RunShrinks<T>(items: seq<Item<T>>, states: seq<State<T>>, moves: seq<nat>, i: nat)
    requires IsRun(items, states, moves) && i < |states|
    ensures |states[i].pcs| == |states[0].pcs|
    ensures StepsLeft(states[i].pcs, |states[0].pcs|) + i == StepsLeft(states[0].pcs, |states[0].pcs|)
  {
    if i > 0 {
      RunShrinks(items, states, moves, i - 1);
      StepsLeftOf(states[i - 1].pcs, states[i].pcs, moves[i - 1], |states[0].pcs|);
    }
  }

  lemma EveryScheduleEnds<T>(items: seq<Item<T>>, states: seq<State<T>>, moves: seq<nat>)
    requires IsRun(items, states, moves)
    ensures |moves| <= 2 * |states[0].pcs|
  {
    RunShrinks(items, states, moves, |moves|);
    StepsLeftBound(states[0].pcs, |states[0].pcs|);
  }

  // Prefix sums of the degrees give every row exactly the room it needs.
  lemma PrefixSumsFit<T>(items: seq<Item<T>>, degrees: seq<nat>, start: seq<nat>)
    requires PrefixSums(degrees, start) && forall i | 0 <= i < |items| :: items[i].row < |degrees|
    requires forall r: nat | r < |degrees| :: degrees[r] == |All(items, r)|
    ensures Fits(items, start, start[|degrees|])
  {
    PrefixSumsAreOffsets(degrees, start);
    forall r: nat | r + 1 < |start| ensures start[r] + |ValuesFor(items, r, |items|)| == start[r + 1] {
      assert degrees[r] == |All(items, r)|;
      assert SumTo(degrees, r + 1) == SumTo(degrees, r) + degrees[r];
    }
  }

  lemma {:induction false} ItemRows<T>(ends: Ends<T>, el: seq<EdgeTo<T>>, forwards: bool, backwards: bool, n: nat,
                                       k: nat)
    requires k <= |el| && forall e | e in el :: e.u < n && ends.node(e.v) < n
    ensures forall item | item in Items(ends, el, forwards, backwards, k) :: item.row < n
  {
    if k > 0 {
      assert el[k - 1] in el;
      ItemRows(ends, el, forwards, backwards, n, k - 1);
    }
  }

  // What the builder does before the scatter is what the scatter needs.
  lemma DegreesFit(el: seq<Edge>, forwards: bool, backwards: bool, degrees: seq<nat>, start: seq<nat>)
    requires InRange(el, |degrees|) && DegreesOf(el, forwards, backwards, |el|, degrees) && PrefixSums(degrees, start)
    ensures Fits(Items(PLAIN, el, forwards, backwards, |el|), start, start[|degrees|])
  {
    var items := Items(PLAIN, el, forwards, backwards, |el|);
    ItemRows(PLAIN, el, forwards, backwards, |degrees|, |el|);
    forall r: nat | r < |degrees| ensures degrees[r] == |All(items, r)| {
      ItemsAreRowValues(el, forwards, backwards, r, |el|);
    }
    PrefixSumsFit(items, degrees, start);
  }
}
