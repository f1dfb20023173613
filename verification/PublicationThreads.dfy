module PublicationThreads {
  // One writer and any number of readers over one coherent memory: the writer
  // stores the words of the image in any order and the flag last; a reader polls
  // the flag and, once it has seen 1, loads any words.

  import opened Publication

  datatype Load = Load(at: nat, value: nat)

  datatype Reader = Reader(past: bool, loads: seq<Load>)

  datatype State = State(mem: seq<nat>, done: set<nat>, published: bool, readers: seq<Reader>)

  // Put: the writer stores one word.  Raise: it sets the flag.  Poll and Get: a
  // reader looks at the flag, and loads a word.
  datatype Move = Put(a: nat) | Raise | Poll(r: nat) | Get(r: nat, at: nat)

  // Every word of the image has been stored.
  ghost predicate AllStored(g: Publication.Graph, done: set<nat>) {
    forall a: nat | Stored(g, a) :: a in done
  }

  ghost predicate Enabled(g: Publication.Graph, s: State, m: Move)
    requires g.Valid()
  {
    match m
    case Put(a) => !s.published && Stored(g, a) && a < |s.mem|
    case Raise => !s.published && AllStored(g, s.done) && |s.mem| > 0
    case Poll(r) => r < |s.readers| && !s.readers[r].past && |s.mem| > 0
    case Get(r, at) => r < |s.readers| && s.readers[r].past && at < |s.mem|
  }

  ghost function Apply(g: Publication.Graph, s: State, m: Move): State
    requires g.Valid() && Enabled(g, s, m)
  {
    match m
    case Put(a) => s.(mem := s.mem[a := Image(g, a)], done := s.done + {a})
    case Raise => s.(mem := s.mem[SYNCH := 1], published := true)
    case Poll(r) => if s.mem[SYNCH] == 1 then s.(readers := s.readers[r := s.readers[r].(past := true)]) else s
    case Get(r, at) => s.(readers := s.readers[r := s.readers[r].(loads := s.readers[r].loads + [Load(at, s.mem[at])])])
  }

  function Initial(mem: seq<nat>, readers: nat): State {
    State(mem, {}, false, seq(readers, _ => Reader(false, [])))
  }

  ghost predicate IsRun(g: Publication.Graph, states: seq<State>, moves: seq<Move>)
    requires g.Valid()
  {
    && |states| == |moves| + 1
    && forall i | 0 <= i < |moves| :: Enabled(g, states[i], moves[i]) && states[i + 1] == Apply(g, states[i], moves[i])
  }

  // Every load of an image word got that word.
  ghost predicate LoadsRight(g: Publication.Graph, r: Reader)
    requires g.Valid()
  {
    forall i | 0 <= i < |r.loads| && Stored(g, r.loads[i].at) :: r.loads[i].value == Image(g, r.loads[i].at)
  }

  ghost predicate AllLoadsRight(g: Publication.Graph, s: State)
    requires g.Valid()
  {
    forall r | 0 <= r < |s.readers| :: LoadsRight(g, s.readers[r])
  }

  // Until the flag is up nobody is past it; from then on the image is complete.
  ghost predicate Inv(g: Publication.Graph, s: State)
    requires g.Valid()
  {
    && g.Total() <= |s.mem|
    && (forall a: nat | Stored(g, a) && a in s.done :: s.mem[a] == Image(g, a))
    && (if s.published then AllStored(g, s.done) && s.mem[SYNCH] == 1
        else s.mem[SYNCH] != 1 && forall r | 0 <= r < |s.readers| :: !s.readers[r].past)
    && AllLoadsRight(g, s)
  }

  lemma StepKeepsInv(g: Publication.Graph, s: State, m: Move)
    requires g.Valid() && Inv(g, s) && Enabled(g, s, m)
    ensures Inv(g, Apply(g, s, m))
  {
    hide Image;
    if m.Get? {
      assert s.published;
      assert LoadsRight(g, s.readers[m.r]);
      if Stored(g, m.at) { assert s.mem[m.at] == Image(g, m.at); }
    }
  }

  lemma {:induction false} RunInv(g: Publication.Graph, states: seq<State>, moves: seq<Move>, i: nat)
    requires g.Valid() && IsRun(g, states, moves) && Inv(g, states[0]) && i < |states|
    ensures Inv(g, states[i])
  {
    if i > 0 {
      RunInv(g, states, moves, i - 1);
      StepKeepsInv(g, states[i - 1], moves[i - 1]);
    }
  }

  // With a flag that starts different from 1, in every interleaving a reader past
  // the flag finds the whole image and has never loaded anything else.
  lemma PublicationIsSafe(g: Publication.Graph, mem: seq<nat>, readers: nat, states: seq<State>, moves: seq<Move>)
    requires g.Valid() && g.Total() <= |mem| && mem[SYNCH] != 1
    requires IsRun(g, states, moves) && states[0] == Initial(mem, readers)
    ensures var s := states[|moves|];
      AllLoadsRight(g, s) && forall r | 0 <= r < |s.readers| && s.readers[r].past ::
        Published(g, s.mem) && LaidOut(g, s.mem)
  {
    hide LaidOut, Image;
    RunInv(g, states, moves, |moves|);
    var s := states[|moves|];
    if Published(g, s.mem) { PublishedIsLaidOut(g, s.mem); }
  }

  // The view holds what some load of the reader got, wherever the reader needs it.
  ghost predicate Collected(g: Publication.Graph, r: Reader, view: seq<nat>) {
    && g.Total() <= |view|
    && forall a: nat | Needed(g, a) :: Load(a, view[a]) in r.loads
  }

  lemma CollectedIsReadable(g: Publication.Graph, r: Reader, view: seq<nat>)
    requires g.Valid() && LoadsRight(g, r) && Collected(g, r, view)
    ensures Readable(g, view)
  {
    hide Image;
    forall a: nat | Needed(g, a) ensures view[a] == Image(g, a) {
      var i :| 0 <= i < |r.loads| && r.loads[i] == Load(a, view[a]);
    }
  }

  // A reader may take any number of steps for its loads: once it has the metadata,
  // the row sizes and the rows, they are the writer's node count, edge count and
  // rows, and it attaches to what it has collected as to the image itself.
  lemma ReaderRebuilds(g: Publication.Graph, mem: seq<nat>, readers: nat, states: seq<State>, moves: seq<Move>, r: nat,
                       view: seq<nat>)
    requires g.Valid() && g.Total() <= |mem| && mem[SYNCH] != 1
    requires IsRun(g, states, moves) && states[0] == Initial(mem, readers)
    requires r < |states[|moves|].readers| && Collected(g, states[|moves|].readers[r], view)
    ensures Readable(g, view)
    ensures Join(view[NUM_NODES], view[NUM_NODES + 1]) == g.N()
    ensures Join(view[INDEX_X], view[INDEX_X + 1]) == |g.offsets|
      && Join(view[NEIGH_SIZE], view[NEIGH_SIZE + 1]) == g.Count()
    ensures forall u: nat | u < g.N() :: HoldsRow(g, view, u)
  {
    hide Image, Readable, Collected, Enabled, Apply, SizesAt;
    PublicationIsSafe(g, mem, readers, states, moves);
    CollectedIsReadable(g, states[|moves|].readers[r], view);
    MetadataAt(g, view);
    ReadableSizes(g, view);
    forall u: nat | u < g.N() ensures HoldsRow(g, view, u) {
      RowAt(g, view, u);
    }
  }

  // The stored size of u is right, and its row stands after the earlier ones.
  ghost predicate HoldsRow(g: Publication.Graph, view: seq<nat>, u: nat)
    requires g.Valid() && u < g.N()
  {
    var start := RowData(|g.neighs|, |g.offsets|);
    && g.At(u) <= g.At(u + 1) <= |g.neighs| && start + g.At(u + 1) <= |view| && SizesAt(g, view, u)
    && view[start + g.At(u)..start + g.At(u + 1)] == g.RowWords(u)
  }

  // ----------------------------------------------------- when the flag is stale

  // Some run lets a reader load a wrong word.
  ghost predicate CanGoWrong(g: Publication.Graph, mem: seq<nat>)
    requires g.Valid()
  {
    exists states, moves ::
      IsRun(g, states, moves) && states[0] == Initial(mem, 1) && !AllLoadsRight(g, states[|moves|])
  }

  lemma StaleFlagGoesWrong(g: Publication.Graph, mem: seq<nat>, a: nat)
    requires g.Valid() && g.Total() <= |mem| && mem[SYNCH] == 1 && Stored(g, a) && mem[a] != Image(g, a)
    ensures CanGoWrong(g, mem)
  {
    var s0 := Initial(mem, 1);
    var s1 := Apply(g, s0, Poll(0));
    var s2 := Apply(g, s1, Get(0, a));
    var states, moves := [s0, s1, s2], [Poll(0), Get(0, a)];
    assert s2.readers[0].loads[0] == Load(a, mem[a]);
    assert !LoadsRight(g, s2.readers[0]);
    assert IsRun(g, states, moves);
  }

  // A memory that already holds the image stays right whatever the flag says.
  ghost predicate AlreadyThere(g: Publication.Graph, s: State)
    requires g.Valid()
  {
    Published(g, s.mem) && AllLoadsRight(g, s)
  }

  lemma AlreadyThereStep(g: Publication.Graph, s: State, m: Move)
    requires g.Valid() && AlreadyThere(g, s) && Enabled(g, s, m)
    ensures AlreadyThere(g, Apply(g, s, m))
  {
    hide Image;
    if m.Get? { assert LoadsRight(g, s.readers[m.r]); }
  }

  lemma {:induction false} AlreadyThereRun(g: Publication.Graph, states: seq<State>, moves: seq<Move>, i: nat)
    requires g.Valid() && IsRun(g, states, moves) && AlreadyThere(g, states[0]) && i < |states|
    ensures AlreadyThere(g, states[i])
  {
    if i > 0 {
      AlreadyThereRun(g, states, moves, i - 1);
      AlreadyThereStep(g, states[i - 1], moves[i - 1]);
    }
  }

  // The protocol is safe from a memory exactly when its flag is down, or the
  // image is there already.
  lemma SafeExactlyWhen(g: Publication.Graph, mem: seq<nat>)
    requires g.Valid() && g.Total() <= |mem|
    ensures !CanGoWrong(g, mem) <==> mem[SYNCH] != 1 || Published(g, mem)
  {
    if mem[SYNCH] == 1 && !Published(g, mem) {
      var a: nat :| Stored(g, a) && mem[a] != Image(g, a);
      StaleFlagGoesWrong(g, mem, a);
    }
    if mem[SYNCH] != 1 || Published(g, mem) {
      forall states, moves | IsRun(g, states, moves) && states[0] == Initial(mem, 1) ensures AllLoadsRight(g,
        states[|moves|]) {
        if mem[SYNCH] != 1 {
          PublicationIsSafe(g, mem, 1, states, moves);
        } else {
          AlreadyThereRun(g, states, moves, |moves|);
        }
      }
    }
  }
}
