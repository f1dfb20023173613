// Compressed sparse rows: offsets into one flat list of neighbours, what a
// correctly built one is, and the prefix sums that place the rows.

module Csr {
  import opened Lists

  // An edge from u to what names its other end: a vertex, or a vertex with a weight.
  datatype EdgeTo<T> = Edge(u: nat, v: T)

  type Edge = EdgeTo<nat>

  ghost predicate InRange(el: seq<Edge>, n: nat) {
    forall e | e in el :: e.u < n && e.v < n
  }

  // Sum of the first i entries.
  function SumTo(d: seq<nat>, i: nat): nat
    requires i <= |d|
  {
    if i == 0 then 0 else SumTo(d, i - 1) + d[i - 1]
  }

  ghost predicate PrefixSums(d: seq<nat>, sums: seq<nat>) {
    && |sums| == |d| + 1
    && forall i: nat | i <= |d| :: sums[i] == SumTo(d, i)
  }

  lemma {:induction false} SumToGrows(d: seq<nat>, i: nat, j: nat)
    requires i <= j <= |d|
    ensures SumTo(d, i) <= SumTo(d, j)
    decreases j
  {
    if i < j { SumToGrows(d, i, j - 1); }
  }

  // Offsets that cut the neighbours into n consecutive rows.
  ghost predicate Offsets(offsets: seq<nat>, n: nat, total: nat) {
    && |offsets| == n + 1 && offsets[0] == 0 && offsets[n] == total
    && forall i, j | 0 <= i <= j <= n :: offsets[i] <= offsets[j]
  }

  lemma PrefixSumsAreOffsets(d: seq<nat>, sums: seq<nat>)
    requires PrefixSums(d, sums)
    ensures Offsets(sums, |d|, SumTo(d, |d|))
  {
    forall i, j | 0 <= i <= j <= |d| ensures sums[i] <= sums[j] { SumToGrows(d, i, j); }
  }

  function Row<T>(offsets: seq<nat>, neighs: seq<T>, u: nat): seq<T>
    requires u + 1 < |offsets| && offsets[u] <= offsets[u + 1] <= |neighs|
  {
    neighs[offsets[u]..offsets[u + 1]]
  }

  // v belongs in row u: along the edges, against them, or either way.
  ghost predicate Neighbour(el: seq<Edge>, forwards: bool, backwards: bool, u: nat, v: nat) {
    u != v && ((forwards && Edge(u, v) in el) || (backwards && Edge(v, u) in el))
  }

  ghost predicate RowBuilt(el: seq<Edge>, forwards: bool, backwards: bool, u: nat, row: seq<nat>) {
    StrictlySorted(row) && forall v: nat :: v in row <==> Neighbour(el, forwards, backwards, u, v)
  }

  // Every row is the strictly sorted set of the vertex's neighbours without itself.
  ghost predicate Built(el: seq<Edge>, n: nat, forwards: bool, backwards: bool, offsets: seq<nat>, neighs: seq<nat>) {
    && Offsets(offsets, n, |neighs|)
    && forall u: nat | u < n :: RowBuilt(el, forwards, backwards, u, Row(offsets, neighs, u))
  }

  // An edge list has only one built form.
  lemma BuiltUnique(el: seq<Edge>, n: nat, forwards: bool, backwards: bool,
                    offsets: seq<nat>, neighs: seq<nat>, offsets': seq<nat>, neighs': seq<nat>)
    requires Built(el, n, forwards, backwards, offsets, neighs)
    requires Built(el, n, forwards, backwards, offsets', neighs')
    ensures offsets == offsets' && neighs == neighs'
  {
    BuiltPrefixUnique(el, n, forwards, backwards, offsets, neighs, offsets', neighs', n);
    assert neighs[..offsets[n]] == neighs && neighs'[..offsets[n]] == neighs';
    forall i | 0 <= i <= n ensures offsets[i] == offsets'[i] {
      BuiltPrefixUnique(el, n, forwards, backwards, offsets, neighs, offsets', neighs', i);
    }
  }

  lemma {:induction false} BuiltPrefixUnique(el: seq<Edge>, n: nat, forwards: bool, backwards: bool, offsets: seq<nat>,
                                             neighs: seq<nat>, offsets': seq<nat>, neighs': seq<nat>, k: nat)
    requires Built(el, n, forwards, backwards, offsets, neighs)
    requires Built(el, n, forwards, backwards, offsets', neighs')
    requires k <= n
    ensures offsets[k] == offsets'[k] && neighs[..offsets[k]] == neighs'[..offsets[k]]
  {
    if k > 0 {
      BuiltPrefixUnique(el, n, forwards, backwards, offsets, neighs, offsets', neighs', k - 1);
      var row, row' := Row(offsets, neighs, k - 1), Row(offsets', neighs', k - 1);
      assert RowBuilt(el, forwards, backwards, k - 1, row) && RowBuilt(el, forwards, backwards, k - 1, row');
      StrictlySortedUnique(row, row');
      assert neighs[..offsets[k]] == neighs[..offsets[k - 1]] + row;
      assert neighs'[..offsets'[k]] == neighs'[..offsets[k - 1]] + row';
    }
  }

  // ------------------------------------------------------------- prefix sums

  method PrefixSum(degrees: array<nat>) returns (sums: array<nat>)
    ensures fresh(sums) && PrefixSums(degrees[..], sums[..])
  {
    sums := new nat[degrees.Length + 1];
    var total: nat := 0;
    for n := 0 to degrees.Length
      invariant total == SumTo(degrees[..], n)
      invariant forall i: nat | i < n :: sums[i] == SumTo(degrees[..], i)
    {
      sums[n] := total;
      total := total + degrees[n];
    }
    sums[degrees.Length] := total;
  }

  const BLOCK_SIZE: nat := 0x10_0000

  function NumBlocks(n: nat): nat { (n + BLOCK_SIZE - 1) / BLOCK_SIZE }

  // The least of x and y.
  function Min(x: nat, y: nat): nat { if x < y then x else y }

  function BlockStart(block: nat, n: nat): (r: nat)
    ensures r <= n
  {
    Min(block * BLOCK_SIZE, n)
  }

  function BlockEnd(block: nat, n: nat): (r: nat)
    ensures r <= n
  {
    Min((block + 1) * BLOCK_SIZE, n)
  }

  // The blocks cover every entry, one after another.
  lemma BlocksCover(n: nat)
    ensures BlockStart(0, n) == 0 && BlockStart(NumBlocks(n), n) == n
  {
  }

  lemma BlockCovers(b: nat, n: nat)
    requires b < NumBlocks(n)
    ensures b * BLOCK_SIZE == BlockStart(b, n) <= BlockEnd(b, n) == BlockStart(b + 1, n) <= n
  {
  }

  // Sums each block, prefix-sums the block totals, then fills every block from its own start.
  method ParallelPrefixSum(degrees: array<nat>) returns (prefix: array<nat>)
    ensures fresh(prefix) && PrefixSums(degrees[..], prefix[..])
  {
    BlocksCover(degrees.Length);
    var localSums := SumWithinBlocks(degrees);
    var bulkPrefix := SumBlocks(degrees, localSums);
    prefix := FillBlocks(degrees, bulkPrefix);
  }

  method SumWithinBlocks(degrees: array<nat>) returns (localSums: array<nat>)
    ensures fresh(localSums) && localSums.Length == NumBlocks(degrees.Length)
    ensures forall b: nat | b < localSums.Length ::
      SumTo(degrees[..], BlockStart(b, degrees.Length)) + localSums[b]
        == SumTo(degrees[..], BlockStart(b + 1, degrees.Length))
  {
    hide SumTo, BlockStart, BlockEnd;
    BlocksCover(degrees.Length);
    localSums := new nat[NumBlocks(degrees.Length)];
    for block: nat := 0 to localSums.Length
      invariant forall b: nat | b < block ::
        SumTo(degrees[..], BlockStart(b, degrees.Length)) + localSums[b]
          == SumTo(degrees[..], BlockStart(b + 1, degrees.Length))
    {
      BlockCovers(block, degrees.Length);
      localSums[block] := BlockSum(degrees, block * BLOCK_SIZE, BlockEnd(block, degrees.Length));
    }
  }

  method FillBlocks(degrees: array<nat>, bulkPrefix: array<nat>) returns (prefix: array<nat>)
    requires bulkPrefix.Length == NumBlocks(degrees.Length) + 1
    requires forall b: nat | b < bulkPrefix.Length :: bulkPrefix[b] == SumTo(degrees[..], BlockStart(b, degrees.Length))
    ensures fresh(prefix) && PrefixSums(degrees[..], prefix[..])
  {
    hide SumTo, BlockStart, BlockEnd;
    BlocksCover(degrees.Length);
    prefix := new nat[degrees.Length + 1];
    for block: nat := 0 to bulkPrefix.Length - 1
      invariant forall i: nat | i < BlockStart(block, degrees.Length) :: prefix[i] == SumTo(degrees[..], i)
    {
      BlockCovers(block, degrees.Length);
      FillBlock(degrees, prefix, block * BLOCK_SIZE, BlockEnd(block, degrees.Length), bulkPrefix[block]);
    }
    prefix[degrees.Length] := bulkPrefix[bulkPrefix.Length - 1];
  }

  // The serial pass over the block totals.
  method SumBlocks(degrees: array<nat>, localSums: array<nat>) returns (bulkPrefix: array<nat>)
    requires localSums.Length == NumBlocks(degrees.Length)
    requires forall b: nat | b < localSums.Length ::
      SumTo(degrees[..], BlockStart(b, degrees.Length)) + localSums[b]
        == SumTo(degrees[..], BlockStart(b + 1, degrees.Length))
    ensures fresh(bulkPrefix) && bulkPrefix.Length == localSums.Length + 1
    ensures forall b: nat | b <= localSums.Length :: bulkPrefix[b] == SumTo(degrees[..], BlockStart(b, degrees.Length))
  {
    bulkPrefix := new nat[localSums.Length + 1];
    var total: nat := 0;
    for block: nat := 0 to localSums.Length
      invariant total == SumTo(degrees[..], BlockStart(block, degrees.Length))
      invariant forall b: nat | b < block :: bulkPrefix[b] == SumTo(degrees[..], BlockStart(b, degrees.Length))
    {
      bulkPrefix[block] := total;
      total := total + localSums[block];
    }
    bulkPrefix[localSums.Length] := total;
  }

  method BlockSum(degrees: array<nat>, lo: nat, hi: nat) returns (lsum: nat)
    requires lo <= hi <= degrees.Length
    ensures lsum == SumTo(degrees[..], hi) - SumTo(degrees[..], lo)
  {
    lsum := 0;
    for i := lo to hi
      invariant lsum == SumTo(degrees[..], i) - SumTo(degrees[..], lo)
    {
      lsum := lsum + degrees[i];
    }
  }

  method FillBlock(degrees: array<nat>, prefix: array<nat>, lo: nat, hi: nat, start: nat)
    requires lo <= hi <= degrees.Length < prefix.Length && prefix != degrees && start == SumTo(degrees[..], lo)
    modifies prefix
    ensures forall i: nat | lo <= i < hi :: prefix[i] == SumTo(degrees[..], i)
    ensures forall i: nat | i < prefix.Length && !(lo <= i < hi) :: prefix[i] == old(prefix[i])
  {
    var localTotal := start;
    for i := lo to hi
      invariant localTotal == SumTo(degrees[..], i)
      invariant forall k: nat | lo <= k < i :: prefix[k] == SumTo(degrees[..], k)
      invariant forall k: nat | k < prefix.Length && !(lo <= k < i) :: prefix[k] == old(prefix[k])
    {
      prefix[i] := localTotal;
      localTotal := localTotal + degrees[i];
    }
  }

  // ------------------------------------------------------------- array pieces

  // The cells from lo on hold s.
  ghost predicate Holds<T>(a: seq<T>, lo: nat, s: seq<T>) {
    lo + |s| <= |a| && forall i | lo <= i < lo + |s| :: a[i] == s[i - lo]
  }

  ghost predicate SameOutside<T>(a: seq<T>, b: seq<T>, lo: nat, hi: nat) {
    |a| == |b| && forall i | 0 <= i < |a| && !(lo <= i < hi) :: a[i] == b[i]
  }

  lemma HoldsElsewhere<T>(a: seq<T>, b: seq<T>, lo: nat, hi: nat, at: nat, s: seq<T>)
    requires SameOutside(a, b, lo, hi) && Holds(a, at, s) && (at + |s| <= lo || hi <= at)
    ensures Holds(b, at, s)
  {
    forall i | at <= i < at + |s| ensures b[i] == s[i - at] { assert a[i] == s[i - at]; }
  }

  lemma HoldsSlice<T>(a: seq<T>, lo: nat, s: seq<T>)
    requires Holds(a, lo, s)
    ensures a[lo..lo + |s|] == s
  {
  }

  lemma SliceHolds<T>(a: seq<T>, lo: nat, hi: nat, s: seq<T>)
    requires lo <= hi <= |a| && a[lo..hi] == s
    ensures Holds(a, lo, s)
  {
    forall i | lo <= i < hi ensures a[i] == s[i - lo] { assert a[lo..hi][i - lo] == a[i]; }
  }

  lemma SameOutsideChain<T>(a: seq<T>, b: seq<T>, c: seq<T>, lo: nat, mid: nat, hi: nat)
    requires SameOutside(a, b, lo, hi) && SameOutside(b, c, lo, mid) && mid <= hi
    ensures SameOutside(a, c, lo, hi)
  {
  }

  // Copies s over the cells from lo on.
  method Overwrite<T>(a: array<T>, lo: nat, s: seq<T>)
    requires lo + |s| <= a.Length
    modifies a
    ensures Holds(a[..], lo, s) && SameOutside(old(a[..]), a[..], lo, lo + |s|)
  {
    for i := 0 to |s|
      invariant forall k | lo <= k < lo + i :: a[k] == s[k - lo]
      invariant forall k | 0 <= k < a.Length && !(lo <= k < lo + i) :: a[k] == old(a[k])
    {
      a[lo + i] := s[i];
    }
  }

  // std::sort on a range.
  method SortRangeBy<T(!new)>(le: (T, T) -> bool, a: array<T>, lo: nat, hi: nat)
    requires lo <= hi <= a.Length && TotalOrder(le)
    modifies a
    ensures |SortBy(le, old(a[lo..hi]))| == hi - lo
    ensures Holds(a[..], lo, SortBy(le, old(a[lo..hi]))) && SameOutside(old(a[..]), a[..], lo, hi)
  {
    var s := a[lo..hi];
    SortByProperties(le, s);
    Overwrite(a, lo, SortBy(le, s));
  }

  method SortRange(a: array<nat>, lo: nat, hi: nat)
    requires lo <= hi <= a.Length
    modifies a
    ensures |Sort(old(a[lo..hi]))| == hi - lo
    ensures Holds(a[..], lo, Sort(old(a[lo..hi]))) && SameOutside(old(a[..]), a[..], lo, hi)
  {
    SortRangeBy(IdLe, a, lo, hi);
  }
}
