// The shared-memory image of a graph: where the writer puts each 32-bit word,
// and how a reader gets the neighbourhoods back.

module Publication {
  import opened Csr

  const WORD: nat := 0x1_0000_0000

  // Where the regions start, in words.
  const SYNCH: nat := 0
  const NUM_NODES: nat := 1
  const INDEX_X: nat := 3
  const NEIGH_SIZE: nat := 5
  const NEIGHS: nat := 7

  // Behind the flat list of neighbours, which takes `words` words.
  function Sizes(words: nat): nat { NEIGHS + words }

  function RowData(words: nat, indexX: nat): nat { Sizes(words) + 2 * indexX }

  // What the writer publishes.  An entry of a row takes `entry` words: one for a
  // plain vertex, two for a vertex with a weight; offsets count entries, and
  // neighs lists the words of all entries.
  datatype Graph = Graph(entry: nat, offsets: seq<nat>, neighs: seq<nat>)
  {
    function N(): nat
      requires offsets != []
    {
      |offsets| - 1
    }

    // How many entries there are.
    function Count(): nat
      requires offsets != []
    {
      offsets[|offsets| - 1]
    }

    // Where row u begins among the words.
    function At(u: nat): nat
      requires u < |offsets|
    {
      offsets[u] * entry
    }

    // A built graph whose numbers fit their fields.
    ghost predicate Valid() {
      && entry > 0 && offsets != [] && Offsets(offsets, |offsets| - 1, Count()) && |neighs| == Count() * entry
      && |offsets| < WORD * WORD && |neighs| < WORD * WORD
      && forall k | 0 <= k < |neighs| :: neighs[k] < WORD
    }

    function RowSize(u: nat): nat
      requires u + 1 < |offsets| && offsets[u] <= offsets[u + 1]
    {
      offsets[u + 1] - offsets[u]
    }

    function Total(): nat { RowData(|neighs|, |offsets|) + |neighs| }

    // The words of row u.
    function RowWords(u: nat): seq<nat>
      requires u + 1 < |offsets| && At(u) <= At(u + 1) <= |neighs|
    {
      neighs[At(u)..At(u + 1)]
    }
  }

  lemma ScaleKeepsOrder(a: nat, b: nat, entry: nat)
    requires a <= b
    ensures a * entry <= b * entry && (a < b ==> a * entry + entry <= b * entry)
  {
    if a < b {
      assert (b - a - 1) * entry >= 0;
      assert b * entry == (b - a - 1) * entry + a * entry + entry;
    }
  }

  lemma RowsInside(g: Graph, u: nat)
    requires g.Valid() && u + 1 < |g.offsets|
    ensures g.offsets[u] <= g.offsets[u + 1] && g.At(u) <= g.At(u + 1) <= |g.neighs|
  {
    ScaleKeepsOrder(g.offsets[u], g.offsets[u + 1], g.entry);
    ScaleKeepsOrder(g.offsets[u + 1], g.Count(), g.entry);
  }

  // Halves of a 64-bit number.
  function Lo(x: nat): nat { x % WORD }

  function Hi(x: nat): nat { x / WORD }

  function Join(lo: nat, hi: nat): nat { lo + WORD * hi }

  lemma JoinHalves(x: nat)
    ensures Join(Lo(x), Hi(x)) == x
  {
  }

  // Addresses that the writer stores to: everything from the node count to the
  // end of the row data, except the last row size.
  ghost predicate Stored(g: Graph, a: nat) {
    NUM_NODES <= a < g.Total() && !(RowData(|g.neighs|, |g.offsets|) - 2 <= a < RowData(|g.neighs|, |g.offsets|))
  }

  // Half h of row size u.
  function SizeWord(g: Graph, u: nat, h: nat): nat
    requires g.offsets != [] && u + 1 < |g.offsets| && g.offsets[u] <= g.offsets[u + 1]
  {
    if h == 0 then Lo(g.RowSize(u)) else Hi(g.RowSize(u))
  }

  // The word that belongs at a stored address.
  function Image(g: Graph, a: nat): nat
    requires g.Valid() && Stored(g, a)
  {
    if a == NUM_NODES then Lo(g.N())
    else if a == NUM_NODES + 1 then Hi(g.N())
    else if a == INDEX_X then Lo(|g.offsets|)
    else if a == INDEX_X + 1 then Hi(|g.offsets|)
    else if a == NEIGH_SIZE then Lo(g.Count())
    else if a == NEIGH_SIZE + 1 then Hi(g.Count())
    else if a < Sizes(|g.neighs|) then g.neighs[a - NEIGHS]
    else if a < RowData(|g.neighs|, |g.offsets|) then
      SizeWord(g, (a - Sizes(|g.neighs|)) / 2, (a - Sizes(|g.neighs|)) % 2)
    else g.neighs[a - RowData(|g.neighs|, |g.offsets|)]
  }

  ghost predicate Published(g: Graph, mem: seq<nat>)
    requires g.Valid()
  {
    g.Total() <= |mem| && forall a: nat | Stored(g, a) :: mem[a] == Image(g, a)
  }

  // Addresses that a reader needs: all but the flat copy of the neighbours.
  ghost predicate Needed(g: Graph, a: nat) {
    Stored(g, a) && !(NEIGHS <= a < Sizes(|g.neighs|))
  }

  // What is needed is there.
  ghost predicate Readable(g: Graph, mem: seq<nat>)
    requires g.Valid()
  {
    g.Total() <= |mem| && forall a: nat | Needed(g, a) :: mem[a] == Image(g, a)
  }

  // Word w of entry i, among the words of all entries.
  function WordOf(g: Graph, i: nat, w: nat): (k: nat)
    requires g.Valid() && i < g.Count() && w < g.entry
    ensures k < |g.neighs|
  {
    ScaleKeepsOrder(i, g.Count(), g.entry);
    i * g.entry + w
  }

  lemma SizeWordAt(g: Graph, u: nat, h: nat)
    requires g.Valid() && u + 1 < |g.offsets| && h < 2
    ensures g.offsets[u] <= g.offsets[u + 1]
    ensures Stored(g, Sizes(|g.neighs|) + 2 * u + h) && Image(g, Sizes(|g.neighs|) + 2 * u + h) == SizeWord(g, u, h)
  {
  }

  lemma FlatAt(g: Graph, k: nat)
    requires g.Valid() && k < |g.neighs|
    ensures Stored(g, NEIGHS + k) && Image(g, NEIGHS + k) == g.neighs[k]
  {
  }

  lemma RowDataAt(g: Graph, k: nat)
    requires g.Valid() && k < |g.neighs|
    ensures var a := RowData(|g.neighs|, |g.offsets|) + k; Stored(g, a) && Image(g, a) == g.neighs[k]
  {
  }

  // The regions follow one another without overlap, and end where the data end,
  // whatever the size of an entry: word w of entry i of the flat list, half h of
  // the size of row u, and word x of entry j of the rows.
  lemma RegionsApart(g: Graph, i: nat, w: nat, u: nat, h: nat, j: nat, x: nat)
    requires g.Valid() && i < g.Count() && w < g.entry && j < g.Count() && x < g.entry
    requires u + 1 < |g.offsets| && h < 2
    ensures g.offsets[u] <= g.offsets[u + 1]
    ensures var flat, size := NEIGHS + WordOf(g, i, w), Sizes(|g.neighs|) + 2 * u + h;
      var data := RowData(|g.neighs|, |g.offsets|) + WordOf(g, j, x);
      && NEIGH_SIZE + 1 < flat < size < data < g.Total()
      && Stored(g, flat) && Image(g, flat) == g.neighs[WordOf(g, i, w)]
      && Stored(g, size) && Image(g, size) == SizeWord(g, u, h)
      && Stored(g, data) && Image(g, data) == g.neighs[WordOf(g, j, x)]
  {
    hide Image, SizeWord;
    FlatAt(g, WordOf(g, i, w));
    SizeWordAt(g, u, h);
    RowDataAt(g, WordOf(g, j, x));
  }

  // The image, cell by cell: the numbers of nodes, row starts and neighbours, two
  // words each; the neighbours; the row sizes, two words each, the last one
  // unused; and the rows.
  ghost predicate LaidOut(g: Graph, mem: seq<nat>)
    requires g.Valid()
  {
    var x, w, base := |g.offsets|, |g.neighs|, 0x1_0000_0000;
    && 7 + w + 2 * x + w <= |mem| && (forall a | 1 <= a < 7 :: mem[a] < base)
    && mem[1] + base * mem[2] == x - 1 && mem[3] + base * mem[4] == x
    && mem[5] + base * mem[6] == g.offsets[x - 1]
    && (forall k | 0 <= k < w :: mem[7 + k] == g.neighs[k] && mem[7 + w + 2 * x + k] == g.neighs[k])
    && forall u: nat | u + 1 < x :: SizeAt(mem, 7 + w + 2 * u, g.offsets[u + 1] - g.offsets[u])
  }

  // Two words, the low half first.
  ghost predicate SizeAt(mem: seq<nat>, at: nat, size: int) {
    at + 1 < |mem| && mem[at] < 0x1_0000_0000 && mem[at + 1] < 0x1_0000_0000
      && mem[at] + 0x1_0000_0000 * mem[at + 1] == size
  }

  lemma Halves(x: nat)
    requires x < 0x1_0000_0000 * 0x1_0000_0000
    ensures Lo(x) < 0x1_0000_0000 && Hi(x) < 0x1_0000_0000 && Lo(x) + 0x1_0000_0000 * Hi(x) == x
  {
  }

  lemma RowSizeFits(g: Graph, u: nat)
    requires g.Valid() && u + 1 < |g.offsets|
    ensures g.offsets[u] <= g.offsets[u + 1] && g.RowSize(u) <= g.Count() < 0x1_0000_0000 * 0x1_0000_0000
  {
    ScaleKeepsOrder(1, g.entry, g.Count());
  }

  lemma PublishedIsLaidOut(g: Graph, mem: seq<nat>)
    requires g.Valid() && Published(g, mem)
    ensures LaidOut(g, mem)
  {
    hide Image, Lo, Hi, SizeAt;
    MetadataIsLaidOut(g, mem);
    SizesAreLaidOut(g, mem);
    forall k | 0 <= k < |g.neighs|
      ensures mem[7 + k] == g.neighs[k] && mem[7 + |g.neighs| + 2 * |g.offsets| + k] == g.neighs[k]
    {
      FlatAt(g, k);
      RowDataAt(g, k);
    }
  }

  lemma SizesAreLaidOut(g: Graph, mem: seq<nat>)
    requires g.Valid() && Published(g, mem)
    ensures forall u: nat | u + 1 < |g.offsets| ::
      SizeAt(mem, 7 + |g.neighs| + 2 * u, g.offsets[u + 1] - g.offsets[u])
  {
    hide Image, Lo, Hi;
    forall u: nat | u + 1 < |g.offsets|
      ensures SizeAt(mem, 7 + |g.neighs| + 2 * u, g.offsets[u + 1] - g.offsets[u])
    {
      SizeWordAt(g, u, 0);
      SizeWordAt(g, u, 1);
      RowSizeFits(g, u);
      Halves(g.RowSize(u));
    }
  }

  lemma MetadataIsLaidOut(g: Graph, mem: seq<nat>)
    requires g.Valid() && Published(g, mem)
    ensures 7 <= |mem| && forall a | 1 <= a < 7 :: mem[a] < 0x1_0000_0000
    ensures mem[1] + 0x1_0000_0000 * mem[2] == |g.offsets| - 1 && mem[3] + 0x1_0000_0000 * mem[4] == |g.offsets|
      && mem[5] + 0x1_0000_0000 * mem[6] == g.offsets[|g.offsets| - 1]
  {
    hide Lo, Hi;
    ScaleKeepsOrder(1, g.entry, g.Count());
    Halves(g.N());
    Halves(|g.offsets|);
    Halves(g.Count());
    assert forall a: nat | 1 <= a < 7 :: Stored(g, a);
  }

  // ----------------------------------------------------------------- the writer

  // Stores so far: everything below `low` and, of the sizes and the row data,
  // everything below `high`; nothing else has changed.
  ghost predicate Progress(g: Graph, before: seq<nat>, mem: seq<nat>, low: nat, high: nat)
    requires g.Valid()
  {
    && |mem| == |before| && g.Total() <= |mem|
    && forall a: nat | a < |mem| ::
      if Stored(g, a) && (a < low || Sizes(|g.neighs|) <= a < high) then mem[a] == Image(g, a) else mem[a] == before[a]
  }

  // Both words of a 64-bit number.
  method Store64(mem: array<nat>, at: nat, x: nat)
    requires at + 1 < mem.Length
    modifies mem
    ensures mem[..] == old(mem[..])[at := Lo(x)][at + 1 := Hi(x)]
  {
    mem[at] := Lo(x);
    mem[at + 1] := Hi(x);
  }

  method WriteMetadata(mem: array<nat>, g: Graph, ghost before: seq<nat>)
    requires g.Valid() && mem[..] == before && g.Total() <= mem.Length
    modifies mem
    ensures Progress(g, before, mem[..], NEIGHS, Sizes(|g.neighs|))
  {
    Store64(mem, NUM_NODES, g.N());
    Store64(mem, INDEX_X, |g.offsets|);
    Store64(mem, NEIGH_SIZE, g.Count());
  }

  lemma SizesStep(g: Graph, before: seq<nat>, mem: seq<nat>, i: nat)
    requires g.Valid() && i + 1 < |g.offsets| && Progress(g, before, mem, NEIGHS, Sizes(|g.neighs|) + 2 * i)
    ensures g.offsets[i] <= g.offsets[i + 1] && Sizes(|g.neighs|) + 2 * i + 1 < |mem|
    ensures Progress(g, before, mem[Sizes(|g.neighs|) + 2 * i := Lo(g.RowSize(i))][Sizes(|g.neighs|) + 2 * i + 1 :=
      Hi(g.RowSize(i))], NEIGHS, Sizes(|g.neighs|) + 2 * i + 2)
  {
    hide Image;
    SizeWordAt(g, i, 0);
    SizeWordAt(g, i, 1);
  }

  // index_index_array[i] = index[i + 1] - index[i].
  method WriteSizes(mem: array<nat>, g: Graph, ghost before: seq<nat>)
    requires g.Valid() && Progress(g, before, mem[..], NEIGHS, Sizes(|g.neighs|))
    modifies mem
    ensures Progress(g, before, mem[..], NEIGHS, RowData(|g.neighs|, |g.offsets|))
  {
    for i := 0 to |g.offsets| - 1
      invariant Progress(g, before, mem[..], NEIGHS, Sizes(|g.neighs|) + 2 * i)
    {
      SizesStep(g, before, mem[..], i);
      Store64(mem, Sizes(|g.neighs|) + 2 * i, g.RowSize(i));
    }
  }

  // The row starts: out_index_[i] after the sizes of the rows before it.
  method WriterIndex(mem: array<nat>, g: Graph) returns (outIndex: array<nat>)
    requires g.Valid() && g.Total() <= mem.Length
    requires forall u: nat | u + 1 < |g.offsets| :: SizesAt(g, mem[..], u)
    ensures fresh(outIndex) && outIndex.Length == |g.offsets|
    ensures forall u: nat | u < |g.offsets| :: outIndex[u] == RowData(|g.neighs|, |g.offsets|) + g.At(u)
  {
    outIndex := IndexFromSizes(mem, |g.offsets|, g.Count(), g.entry, g);
  }

  // The stored size of row u.
  ghost predicate SizesAt(g: Graph, mem: seq<nat>, u: nat)
    requires g.Valid() && u + 1 < |g.offsets|
  {
    var at := Sizes(|g.neighs|) + 2 * u;
    at + 1 < |mem| && mem[at] == SizeWord(g, u, 0) && mem[at + 1] == SizeWord(g, u, 1)
  }

  // Both sides turn the stored sizes into row starts; the last size is read but not used.
  method IndexFromSizes(mem: array<nat>, indexX: nat, neighSize: nat, entry: nat, ghost g: Graph)
    returns (outIndex: array<nat>)
    requires g.Valid() && entry == g.entry && indexX == |g.offsets| && neighSize == g.Count()
    requires g.Total() <= mem.Length
    requires forall u: nat | u + 1 < |g.offsets| :: SizesAt(g, mem[..], u)
    ensures fresh(outIndex) && outIndex.Length == indexX
    ensures forall u: nat | u < indexX :: outIndex[u] == RowData(neighSize * entry, indexX) + g.At(u)
  {
    outIndex := new nat[indexX];
    var words := neighSize * entry;
    var sumLocal: nat := 0;
    for i := 0 to indexX
      invariant i < indexX ==> sumLocal == g.offsets[i]
      invariant forall u: nat | u < i :: outIndex[u] == RowData(words, indexX) + g.At(u)
    {
      outIndex[i] := RowData(words, indexX) + sumLocal * entry;
      if i + 1 < indexX {
        assert SizesAt(g, mem[..], i);
        JoinHalves(g.RowSize(i));
      }
      sumLocal := sumLocal + Join(mem[Sizes(words) + 2 * i], mem[Sizes(words) + 2 * i + 1]);
    }
  }

  lemma Distribute(a: nat, b: nat, c: nat)
    ensures (a + b) * c == a * c + b * c
  {
  }

  // Where entry j of row i stands among the words, and where the next one does.
  lemma EntryAt(g: Graph, i: nat, j: nat)
    requires g.Valid() && i + 1 < |g.offsets| && g.offsets[i] + j < g.offsets[i + 1]
    ensures (g.offsets[i] + j) * g.entry == g.At(i) + j * g.entry
    ensures (g.offsets[i] + j + 1) * g.entry == (g.offsets[i] + j) * g.entry + g.entry <= |g.neighs|
  {
    Distribute(g.offsets[i], j, g.entry);
    Distribute(g.offsets[i] + j, 1, g.entry);
    ScaleKeepsOrder(g.offsets[i] + j, g.Count(), g.entry);
  }

  // out_index_[i][j] = index[i][j], row after row.
  method WriteRows(mem: array<nat>, g: Graph, outIndex: array<nat>, ghost before: seq<nat>)
    requires g.Valid() && outIndex != mem && outIndex.Length == |g.offsets|
    requires forall u: nat | u < |g.offsets| :: outIndex[u] == RowData(|g.neighs|, |g.offsets|) + g.At(u)
    requires Progress(g, before, mem[..], NEIGHS, RowData(|g.neighs|, |g.offsets|))
    modifies mem
    ensures Progress(g, before, mem[..], NEIGHS, g.Total())
  {
    hide Progress;
    for i := 0 to |g.offsets| - 1
      invariant Progress(g, before, mem[..], NEIGHS, RowData(|g.neighs|, |g.offsets|) + g.At(i))
    {
      WriteRow(mem, g, outIndex[i], i, before);
    }
  }

  method WriteRow(mem: array<nat>, g: Graph, start: nat, i: nat, ghost before: seq<nat>)
    requires g.Valid() && i + 1 < |g.offsets| && start == RowData(|g.neighs|, |g.offsets|) + g.At(i)
    requires Progress(g, before, mem[..], NEIGHS, start)
    modifies mem
    ensures Progress(g, before, mem[..], NEIGHS, RowData(|g.neighs|, |g.offsets|) + g.At(i + 1))
  {
    hide Progress;
    for j := 0 to g.RowSize(i)
      invariant Progress(g, before, mem[..], NEIGHS, RowData(|g.neighs|, |g.offsets|) + (g.offsets[i] + j) * g.entry)
    {
      EntryAt(g, i, j);
      WriteEntry(mem, g, start + j * g.entry, (g.offsets[i] + j) * g.entry, before);
    }
  }

  // One entry, word by word: the entry that begins at word p.
  method WriteEntry(mem: array<nat>, g: Graph, at: nat, p: nat, ghost before: seq<nat>)
    requires g.Valid() && p + g.entry <= |g.neighs| && at == RowData(|g.neighs|, |g.offsets|) + p
    requires Progress(g, before, mem[..], NEIGHS, at)
    modifies mem
    ensures Progress(g, before, mem[..], NEIGHS, at + g.entry)
  {
    hide Progress, Offsets;
    for w := 0 to g.entry
      invariant Progress(g, before, mem[..], NEIGHS, at + w)
    {
      WriteOne(mem, g, at + w, g.neighs[p + w], p + w, before);
    }
  }

  method WriteOne(mem: array<nat>, g: Graph, at: nat, value: nat, ghost p: nat, ghost before: seq<nat>)
    requires g.Valid() && p < |g.neighs| && at == RowData(|g.neighs|, |g.offsets|) + p && value == g.neighs[p]
    requires Progress(g, before, mem[..], NEIGHS, RowData(|g.neighs|, |g.offsets|) + p)
    modifies mem
    ensures Progress(g, before, mem[..], NEIGHS, RowData(|g.neighs|, |g.offsets|) + p + 1)
  {
    mem[at] := value;
  }

  // The flat list of neighbours, through both of its names.
  method WriteNeighs(mem: array<nat>, g: Graph, ghost before: seq<nat>)
    requires g.Valid() && Progress(g, before, mem[..], NEIGHS, g.Total())
    modifies mem
    ensures Progress(g, before, mem[..], Sizes(|g.neighs|), g.Total())
  {
    hide Progress;
    for i := 0 to g.Count()
      invariant Progress(g, before, mem[..], NEIGHS + i * g.entry, g.Total())
    {
      ScaleKeepsOrder(i, g.Count(), g.entry);
      for w := 0 to g.entry
        invariant Progress(g, before, mem[..], NEIGHS + i * g.entry + w, g.Total())
      {
        WriteFlat(mem, g, i * g.entry + w, before);
      }
      assert (i + 1) * g.entry == i * g.entry + g.entry;
    }
  }

  method WriteFlat(mem: array<nat>, g: Graph, k: nat, ghost before: seq<nat>)
    requires g.Valid() && k < |g.neighs| && Progress(g, before, mem[..], NEIGHS + k, g.Total())
    modifies mem
    ensures Progress(g, before, mem[..], NEIGHS + k + 1, g.Total())
  {
    mem[NEIGHS + k] := g.neighs[k];
    mem[NEIGHS + k] := g.neighs[k];
  }

  // The iterators of u run over exactly the writer's row, word by word.
  ghost predicate ReadsRow(g: Graph, mem: seq<nat>, outIndex: seq<nat>, u: nat)
    requires g.Valid() && u + 1 < |g.offsets|
  {
    var from, to := g.offsets[u] * g.entry, g.offsets[u + 1] * g.entry;
    && u + 1 < |outIndex| && outIndex[u] <= outIndex[u + 1] <= |mem|
    && 0 <= from <= to <= |g.neighs| && mem[outIndex[u]..outIndex[u + 1]] == g.neighs[from..to]
  }

  lemma CountOfWords(count: nat, entry: nat)
    requires entry > 0
    ensures count * entry / entry == count
  {
    var q := count * entry / entry;
    assert count * entry == q * entry + count * entry % entry;
    if q < count {
      ScaleKeepsOrder(q, count, entry);
    } else {
      ScaleKeepsOrder(count, q, entry);
    }
  }

  // The writer: the whole image, and the flag last.
  method Publish(mem: array<nat>, g: Graph) returns (outIndex: array<nat>)
    requires g.Valid() && g.Total() <= mem.Length
    modifies mem
    ensures Published(g, mem[..]) && LaidOut(g, mem[..]) && mem[0] == 1
    ensures var last := 7 + |g.neighs| + 2 * |g.offsets| - 2;
      forall a: nat | a < mem.Length && (last <= a < last + 2 || last + 2 + |g.neighs| <= a) :: mem[a] == old(mem[a])
    ensures fresh(outIndex) && outIndex.Length == |g.offsets|
    ensures forall u: nat | u + 1 < |g.offsets| :: ReadsRow(g, mem[..], outIndex[..], u)
    ensures (outIndex[|g.offsets| - 1] - outIndex[0]) / g.entry / 2 == g.offsets[|g.offsets| - 1] / 2
  {
    hide SizesAt, Progress, Published, Stored, LaidOut, ReadsRow;
    ghost var before := mem[..];
    WriteMetadata(mem, g, before);
    WriteSizes(mem, g, before);
    WrittenSizes(g, before, mem[..]);
    outIndex := WriterIndex(mem, g);
    WriteRows(mem, g, outIndex, before);
    WriteNeighs(mem, g, before);
    ghost var stored := mem[..];
    mem[SYNCH] := 1;
    assert mem[..] == stored[SYNCH := 1];
    FlagRaised(g, before, stored);
    PublishedIsLaidOut(g, mem[..]);
    OwnRows(g, mem[..], outIndex[..]);
  }

  // The writer's own pointers lead to its rows in the image, as a reader's do.
  lemma OwnRows(g: Graph, mem: seq<nat>, outIndex: seq<nat>)
    requires g.Valid() && Published(g, mem) && |outIndex| == |g.offsets|
    requires forall u: nat | u < |g.offsets| :: outIndex[u] == RowData(|g.neighs|, |g.offsets|) + g.At(u)
    ensures forall u: nat | u + 1 < |g.offsets| :: ReadsRow(g, mem, outIndex, u)
    ensures (outIndex[|g.offsets| - 1] - outIndex[0]) / g.entry / 2 == g.offsets[|g.offsets| - 1] / 2
  {
    hide Image;
    forall u: nat | u + 1 < |g.offsets| ensures ReadsRow(g, mem, outIndex, u) { RowAt(g, mem, u); }
    CountOfWords(g.Count(), g.entry);
  }

  // With every word stored, raising the flag publishes the image.
  lemma FlagRaised(g: Graph, before: seq<nat>, stored: seq<nat>)
    requires g.Valid() && Progress(g, before, stored, Sizes(|g.neighs|), g.Total())
    ensures Published(g, stored[SYNCH := 1])
    ensures var last := 7 + |g.neighs| + 2 * |g.offsets| - 2;
      forall a: nat | a < |stored| && (last <= a < last + 2 || last + 2 + |g.neighs| <= a) :: stored[a] == before[a]
  {
    hide Image;
  }

  lemma WrittenSizes(g: Graph, before: seq<nat>, mem: seq<nat>)
    requires g.Valid() && Progress(g, before, mem, NEIGHS, RowData(|g.neighs|, |g.offsets|))
    ensures forall u: nat | u + 1 < |g.offsets| :: SizesAt(g, mem, u)
  {
    forall u: nat | u + 1 < |g.offsets| ensures SizesAt(g, mem, u) {
      SizeWordAt(g, u, 0);
      SizeWordAt(g, u, 1);
    }
  }

  // ----------------------------------------------------------------- the reader

  // Past the flag: the metadata, then the row starts from the stored sizes.
  method Attach(mem: array<nat>, entry: nat, ghost g: Graph)
    returns (numNodes: nat, outIndex: array<nat>, numEdges: nat)
    requires g.Valid() && entry == g.entry && Readable(g, mem[..])
    ensures numNodes == |g.offsets| - 1 && outIndex.Length == numNodes + 1
    ensures numEdges == g.offsets[|g.offsets| - 1] / 2
    ensures forall u: nat | u < numNodes :: ReadsRow(g, mem[..], outIndex[..], u)
  {
    hide Readable, SizesAt, Join;
    MetadataAt(g, mem[..]);
    numNodes := Join(mem[NUM_NODES], mem[NUM_NODES + 1]);
    var indexX := Join(mem[INDEX_X], mem[INDEX_X + 1]);
    var neighSize := Join(mem[NEIGH_SIZE], mem[NEIGH_SIZE + 1]);
    ReadableSizes(g, mem[..]);
    outIndex := IndexFromSizes(mem, indexX, neighSize, entry, g);
    forall u: nat | u < numNodes ensures ReadsRow(g, mem[..], outIndex[..], u) { RowAt(g, mem[..], u); }
    assert outIndex[numNodes] - outIndex[0] == g.Count() * entry;
    CountOfWords(g.Count(), entry);
    numEdges := (outIndex[numNodes] - outIndex[0]) / entry / 2;
  }

  lemma ReadableSizes(g: Graph, mem: seq<nat>)
    requires g.Valid() && Readable(g, mem)
    ensures g.Total() <= |mem| && forall u: nat | u + 1 < |g.offsets| :: SizesAt(g, mem, u)
  {
    forall u: nat | u + 1 < |g.offsets| ensures SizesAt(g, mem, u) {
      SizeWordAt(g, u, 0);
      SizeWordAt(g, u, 1);
      assert Needed(g, Sizes(|g.neighs|) + 2 * u) && Needed(g, Sizes(|g.neighs|) + 2 * u + 1);
    }
  }

  lemma MetadataAt(g: Graph, mem: seq<nat>)
    requires g.Valid() && Readable(g, mem)
    ensures g.Total() <= |mem|
    ensures Join(mem[NUM_NODES], mem[NUM_NODES + 1]) == g.N()
    ensures Join(mem[INDEX_X], mem[INDEX_X + 1]) == |g.offsets|
    ensures Join(mem[NEIGH_SIZE], mem[NEIGH_SIZE + 1]) == g.Count()
  {
    JoinHalves(g.N());
    JoinHalves(|g.offsets|);
    JoinHalves(g.Count());
    assert forall a: nat | NUM_NODES <= a < NEIGHS :: Needed(g, a);
  }

  lemma RowAt(g: Graph, mem: seq<nat>, u: nat)
    requires g.Valid() && Readable(g, mem) && u + 1 < |g.offsets|
    ensures var start := RowData(|g.neighs|, |g.offsets|);
      && g.At(u) <= g.At(u + 1) <= |g.neighs| && start + g.At(u + 1) <= |mem|
      && mem[start + g.At(u)..start + g.At(u + 1)] == g.RowWords(u)
  {
    RowsInside(g, u);
    var start := RowData(|g.neighs|, |g.offsets|);
    var row := mem[start + g.At(u)..start + g.At(u + 1)];
    forall j | 0 <= j < |row| ensures row[j] == g.RowWords(u)[j] {
      assert Needed(g, start + g.At(u) + j);
    }
  }

  // The words of a neighbourhood from an entry on, never past its end.
  function Neighborhood(mem: seq<nat>, outIndex: seq<nat>, entry: nat, u: nat, startOffset: nat): seq<nat>
    requires u + 1 < |outIndex| && outIndex[u] <= outIndex[u + 1] <= |mem| && entry > 0
  {
    var maxOffset := (outIndex[u + 1] - outIndex[u]) / entry;
    var from := outIndex[u] + (if startOffset < maxOffset then startOffset else maxOffset) * entry;
    if from <= outIndex[u + 1] then mem[from..outIndex[u + 1]] else []
  }

  // So many words make up so many entries.
  lemma EntriesOf(a: nat, b: nat, entry: nat)
    requires a <= b && entry > 0
    ensures b * entry - a * entry == (b - a) * entry && (b * entry - a * entry) / entry == b - a
  {
    CountOfWords(b - a, entry);
  }

  // Iterating from startOffset on drops that many entries of the row, or all of them.
  lemma NeighborhoodIsSuffix(g: Graph, mem: seq<nat>, outIndex: seq<nat>, u: nat, startOffset: nat)
    requires g.Valid() && u + 1 < |g.offsets| && ReadsRow(g, mem, outIndex, u)
    ensures g.offsets[u] <= g.offsets[u + 1]
    ensures var dropped := if startOffset < g.RowSize(u) then startOffset else g.RowSize(u);
      && dropped * g.entry <= |g.RowWords(u)|
      && Neighborhood(mem, outIndex, g.entry, u, startOffset) == g.RowWords(u)[dropped * g.entry..]
  {
    var k := if startOffset < g.RowSize(u) then startOffset else g.RowSize(u);
    EntriesOf(g.offsets[u], g.offsets[u + 1], g.entry);
    ScaleKeepsOrder(k, g.RowSize(u), g.entry);
    assert |g.RowWords(u)| == g.RowSize(u) * g.entry == outIndex[u + 1] - outIndex[u];
    assert mem[outIndex[u]..outIndex[u + 1]][k * g.entry..] == mem[outIndex[u] + k * g.entry..outIndex[u + 1]];
  }
}
