// The bitmap: a set of positions kept as single bits of 64-bit words.

module Bitmaps {

  const BITS_PER_WORD: nat := 64

  function WordOffset(n: nat): nat { n / BITS_PER_WORD }

  function BitOffset(n: nat): bv6 { (n % BITS_PER_WORD) as bv6 }

  // (w >> b) & 1.
  predicate Bit(w: bv64, b: bv6) { (w >> b) & 1 == 1 }

  // w | (1 << b).
  function WithBit(w: bv64, b: bv6): bv64 { w | ((1 as bv64) << b) }

  lemma BitIsSet(w: bv64, b: bv6)
    ensures Bit(WithBit(w, b), b)
  {
  }

  lemma OtherBitStays(w: bv64, b: bv6, c: bv6)
    requires b != c
    ensures Bit(WithBit(w, b), c) <==> Bit(w, c)
  {
  }

  lemma WithBitBits(w: bv64, b: bv6, c: bv6)
    ensures Bit(WithBit(w, b), c) <==> b == c || Bit(w, c)
  {
    hide Bit, WithBit;
    BitIsSet(w, b);
    if b != c { OtherBitStays(w, b, c); }
  }

  lemma OffsetValue(n: nat)
    ensures BitOffset(n) as nat == n % BITS_PER_WORD
  {
  }

  // Two positions share a word and a bit only if they are the same.
  lemma OffsetsIdentify(a: nat, b: nat)
    ensures WordOffset(a) == WordOffset(b) && BitOffset(a) == BitOffset(b) ==> a == b
  {
    OffsetValue(a);
    OffsetValue(b);
  }

  predicate Member(words: seq<bv64>, pos: nat) {
    WordOffset(pos) < |words| && Bit(words[WordOffset(pos)], BitOffset(pos))
  }

  function WithMember(words: seq<bv64>, pos: nat): seq<bv64>
    requires WordOffset(pos) < |words|
  {
    words[WordOffset(pos) := WithBit(words[WordOffset(pos)], BitOffset(pos))]
  }

  // Setting a bit adds exactly that position to the set.
  lemma SetAddsOne(words: seq<bv64>, pos: nat, p: nat)
    requires WordOffset(pos) < |words|
    ensures Member(WithMember(words, pos), p) <==> p == pos || Member(words, p)
  {
    OffsetsIdentify(pos, p);
    if WordOffset(p) == WordOffset(pos) { WithBitBits(words[WordOffset(pos)], BitOffset(pos), BitOffset(p)); }
  }

  class Bitmap {
    var words: array<bv64>

    predicate Has(pos: nat)
      reads this, words
    {
      Member(words[..], pos)
    }

    // There is a bit for every position below n.
    predicate Covers(n: nat)
      reads this
    {
      n <= BITS_PER_WORD * words.Length
    }

    constructor (size: nat)
      ensures fresh(words) && Covers(size) && words.Length == (size + 63) / 64
    {
      words := new bv64[(size + BITS_PER_WORD - 1) / BITS_PER_WORD];
    }

    method Reset()
      modifies words
      ensures forall p: nat :: !Has(p)
    {
      for i := 0 to words.Length
        invariant forall k | 0 <= k < i :: words[k] == 0
      {
        words[i] := 0;
      }
      assert forall p: nat :: Member(words[..], p) ==> !Bit(0, BitOffset(p));
    }

    method SetBit(pos: nat)
      requires WordOffset(pos) < words.Length
      modifies words
      ensures words[..] == WithMember(old(words[..]), pos)
      ensures forall p: nat :: Has(p) <==> p == pos || old(Has(p))
    {
      ghost var before := words[..];
      words[WordOffset(pos)] := WithBit(words[WordOffset(pos)], BitOffset(pos));
      assert words[..] == WithMember(before, pos);
      forall p: nat ensures Has(p) <==> p == pos || Member(before, p) { SetAddsOne(before, pos, p); }
    }

    method GetBit(pos: nat) returns (r: bool)
      requires WordOffset(pos) < words.Length
      ensures r <==> Has(pos)
    {
      r := (words[WordOffset(pos)] >> BitOffset(pos)) & 1 == 1;
    }

    // Exchanges the contents of two bitmaps by exchanging their storage.
    method Swap(other: Bitmap)
      modifies this, other
      ensures words == old(other.words) && other.words == old(words)
      ensures forall p: nat :: (Has(p) <==> old(other.Has(p))) && (other.Has(p) <==> old(Has(p)))
    {
      words, other.words := other.words, words;
    }
  }

  // -------------------------------------------------- setting bits in parallel

  // set_bit_atomic by any number of threads: each reads the word, then swaps the
  // new one in if the word is still the one it read; otherwise it starts over.
  datatype Pc = Start | Have(oldVal: bv64) | Done

  datatype State = State(words: seq<bv64>, pcs: seq<Pc>)

  predicate Enabled(positions: seq<nat>, s: State, t: nat) {
    && t < |positions| == |s.pcs| && !s.pcs[t].Done? && WordOffset(positions[t]) < |s.words|
  }

  function Apply(positions: seq<nat>, s: State, t: nat): State
    requires Enabled(positions, s, t)
  {
    var w, b := WordOffset(positions[t]), BitOffset(positions[t]);
    match s.pcs[t]
    case Start => s.(pcs := s.pcs[t := Have(s.words[w])])
    case Have(oldVal) =>
      if s.words[w] == oldVal then s.(words := s.words[w := WithBit(oldVal, b)], pcs := s.pcs[t := Done])
      else s.(pcs := s.pcs[t := Start])
  }

  function Initial(positions: seq<nat>, before: seq<bv64>): State {
    State(before, seq(|positions|, _ => Start))
  }

  ghost predicate IsRun(positions: seq<nat>, states: seq<State>, moves: seq<nat>) {
    && |states| == |moves| + 1
    && forall i | 0 <= i < |moves| ::
      Enabled(positions, states[i], moves[i]) && states[i + 1] == Apply(positions, states[i], moves[i])
  }

  // Only bits of finished threads, and all of them, have been added.
  ghost predicate Inv(positions: seq<nat>, before: seq<bv64>, s: State) {
    && |positions| == |s.pcs| && |s.words| == |before|
    && (forall t | 0 <= t < |positions| :: WordOffset(positions[t]) < |before|)
    && forall p: nat :: Member(s.words, p) <==> Member(before, p) || exists t ::
      0 <= t < |positions| && positions[t] == p && s.pcs[t].Done?
  }

  lemma StepKeepsInv(positions: seq<nat>, before: seq<bv64>, s: State, t: nat)
    requires Inv(positions, before, s) && Enabled(positions, s, t)
    ensures Inv(positions, before, Apply(positions, s, t))
  {
    var s' := Apply(positions, s, t);
    if s'.pcs[t].Done? {
      assert s'.words == WithMember(s.words, positions[t]);
      forall p: nat
        ensures Member(s'.words, p) <==>
          Member(before, p) || exists u :: 0 <= u < |positions| && positions[u] == p && s'.pcs[u].Done?
      {
        SetAddsOne(s.words, positions[t], p);
        if u :| 0 <= u < |positions| && positions[u] == p && s.pcs[u].Done? { assert s'.pcs[u].Done?; }
      }
    } else {
      assert forall u | 0 <= u < |s.pcs| :: s'.pcs[u].Done? <==> s.pcs[u].Done?;
    }
  }

  lemma AtomicBitsAllLand(positions: seq<nat>, before: seq<bv64>, states: seq<State>, moves: seq<nat>)
    requires IsRun(positions, states, moves) && states[0] == Initial(positions, before)
    requires forall t | 0 <= t < |positions| :: WordOffset(positions[t]) < |before|
    requires forall t | 0 <= t < |states[|moves|].pcs| :: states[|moves|].pcs[t].Done?
    ensures forall p: nat :: Member(states[|moves|].words, p) <==> Member(before, p) || p in positions
    ensures |states[|moves|].words| == |before|
  {
    RunInv(positions, before, states, moves, |moves|);
    var s := states[|moves|];
    forall p: nat ensures Member(s.words, p) <==> Member(before, p) || p in positions {
      if p in positions {
        var t :| 0 <= t < |positions| && positions[t] == p;
        assert s.pcs[t].Done?;
      }
    }
  }

  lemma {:induction false} RunInv(positions: seq<nat>, before: seq<bv64>, states: seq<State>, moves: seq<nat>, i: nat)
    requires IsRun(positions, states, moves) && states[0] == Initial(positions, before) && i < |states|
    requires forall t | 0 <= t < |positions| :: WordOffset(positions[t]) < |before|
    ensures Inv(positions, before, states[i])
  {
    if i > 0 {
      RunInv(positions, before, states, moves, i - 1);
      StepKeepsInv(positions, before, states[i - 1], moves[i - 1]);
    }
  }

  // Threads never wait for each other.
  lemma NeverStuck(positions: seq<nat>, before: seq<bv64>, s: State, t: nat)
    requires Inv(positions, before, s) && t < |s.pcs| && !s.pcs[t].Done?
    ensures Enabled(positions, s, t)
  {
  }

  // Threads that have not set their bit yet.
  function NotDone(pcs: seq<Pc>, k: nat): nat
    requires k <= |pcs|
  {
    if k == 0 then 0 else NotDone(pcs, k - 1) + if pcs[k - 1].Done? then 0 else 1
  }

  // Steps up to the next try that nobody disturbs: a thread that holds an
  // outdated word has to go back and read it again.
  function TryLeft(words: seq<bv64>, position: nat, pc: Pc): nat {
    match pc
    case Start => 2
    case Have(oldVal) => if WordOffset(position) < |words| && words[WordOffset(position)] == oldVal then 1 else 3
    case Done => 0
  }

  function TriesLeft(positions: seq<nat>, words: seq<bv64>, pcs: seq<Pc>, k: nat): nat
    requires k <= |pcs| <= |positions|
  {
    if k == 0 then 0 else TriesLeft(positions, words, pcs, k - 1) + TryLeft(words, positions[k - 1], pcs[k - 1])
  }

  lemma {:induction false} NotDoneUpdate(pcs: seq<Pc>, t: nat, pc: Pc, k: nat)
    requires t < |pcs| && k <= |pcs| && !pcs[t].Done?
    ensures NotDone(pcs[t := pc], k) == NotDone(pcs, k) - if t < k && pc.Done? then 1 else 0
  {
    if k > 0 { NotDoneUpdate(pcs, t, pc, k - 1); }
  }

  lemma {:induction false} TriesUpdate(positions: seq<nat>, words: seq<bv64>, pcs: seq<Pc>, t: nat, pc: Pc, k: nat)
    requires t < |pcs| <= |positions| && k <= |pcs|
    requires TryLeft(words, positions[t], pc) < TryLeft(words, positions[t], pcs[t])
    ensures TriesLeft(positions, words, pcs[t := pc], k) <= TriesLeft(positions, words, pcs, k)
    ensures t < k ==> TriesLeft(positions, words, pcs[t := pc], k) < TriesLeft(positions, words, pcs, k)
  {
    hide TryLeft;
    if k > 0 { TriesUpdate(positions, words, pcs, t, pc, k - 1); }
  }

  // A swap that lands finishes a thread; until then nobody's word goes out of
  // date, and every step brings its thread closer to a try.
  lemma StepShrinks(positions: seq<nat>, s: State, t: nat)
    requires Enabled(positions, s, t)
    ensures var s' := Apply(positions, s, t);
      && |s'.pcs| == |s.pcs|
      && (NotDone(s'.pcs, |s.pcs|) < NotDone(s.pcs, |s.pcs|)
          || (NotDone(s'.pcs, |s.pcs|) == NotDone(s.pcs, |s.pcs|)
              && TriesLeft(positions, s'.words, s'.pcs, |s.pcs|) < TriesLeft(positions, s.words, s.pcs, |s.pcs|)))
  {
    hide NotDone, TriesLeft, WithBit;
    var s' := Apply(positions, s, t);
    NotDoneUpdate(s.pcs, t, s'.pcs[t], |s.pcs|);
    if !s'.pcs[t].Done? {
      TriesUpdate(positions, s.words, s.pcs, t, s'.pcs[t], |s.pcs|);
    }
  }

  ghost predicate Steps(positions: seq<nat>, s: State, s': State) {
    exists t :: Enabled(positions, s, t) && s' == Apply(positions, s, t)
  }

  // No schedule runs forever, however often a swap is lost.
  lemma {:induction false} EveryScheduleEnds(positions: seq<nat>, run: nat -> State, i: nat)
    requires |run(i).pcs| == |positions|
    ensures exists j :: j >= i && !Steps(positions, run(j), run(j + 1))
    decreases NotDone(run(i).pcs, |run(i).pcs|), TriesLeft(positions, run(i).words, run(i).pcs, |run(i).pcs|)
  {
    hide Apply, Enabled;
    if Steps(positions, run(i), run(i + 1)) {
      var t :| Enabled(positions, run(i), t) && run(i + 1) == Apply(positions, run(i), t);
      StepShrinks(positions, run(i), t);
      EveryScheduleEnds(positions, run, i + 1);
    }
  }

  // A scheduled chunk of 1024 vertices never shares a word with another chunk.
  lemma ChunksApart(a: nat, b: nat)
    requires a / 1024 != b / 1024
    ensures WordOffset(a) != WordOffset(b)
  {
    assert a / 1024 == (a / 64) / 16 && b / 1024 == (b / 64) / 16;
  }
}
