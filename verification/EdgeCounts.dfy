// The edge count that a graph reports, and when it is the number of entries in
// its rows.
module EdgeCounts {
  import opened Components
  import opened Layers
  import opened Csr
  import opened CsrBuild

  // The entries of an undirected graph are halved into edges, and num_edges_directed
  // doubles the edges again.
  function NumEdgesDirected(g: Graph): (r: nat)
    ensures g.directed ==> r == EntriesTo(g, |g.outs|)
    ensures !g.directed ==> r % 2 == 0 && r <= EntriesTo(g, |g.outs|) <= r + 1
  {
    if g.directed then EntriesTo(g, |g.outs|) else 2 * (EntriesTo(g, |g.outs|) / 2)
  }

  // Rows as the builder leaves them: strictly sorted and without the vertex itself.
  ghost predicate SquishedRows(g: Graph) {
    forall u: nat | u < g.N() :: Lists.StrictlySorted(g.outs[u]) && u !in g.outs[u]
  }

  // How many vertices below n the row names.
  ghost function CountBelow(row: seq<nat>, n: nat): nat {
    if n == 0 then 0 else CountBelow(row, n - 1) + if n - 1 in row then 1 else 0
  }

  lemma {:induction false} BelowAppend(row: seq<nat>, x: nat, n: nat)
    requires x !in row
    ensures CountBelow(row + [x], n) == CountBelow(row, n) + if x < n then 1 else 0
  {
    if n > 0 { BelowAppend(row, x, n - 1); }
  }

  lemma {:induction false} BelowNone(n: nat)
    ensures CountBelow([], n) == 0
  {
    if n > 0 { BelowNone(n - 1); }
  }

  lemma {:induction false} BelowIsLength(row: seq<nat>, n: nat)
    requires forall i, j | 0 <= i < j < |row| :: row[i] != row[j]
    requires forall x | x in row :: x < n
    ensures CountBelow(row, n) == |row|
  {
    if row == [] {
      BelowNone(n);
    } else {
      var m := |row| - 1;
      assert row == row[..m] + [row[m]] && row[m] in row;
      forall x | x in row[..m] ensures x < n {
        assert x in row;
      }
      BelowIsLength(row[..m], n);
      BelowAppend(row[..m], row[m], n);
    }
  }

  // Entries of the first k rows that name a vertex below n.
  ghost function Square(g: Graph, k: nat, n: nat): nat
    requires k <= g.N()
  {
    if k == 0 then 0 else Square(g, k - 1, n) + CountBelow(g.outs[k - 1], n)
  }

  // A new column of an undirected graph is the new row.
  lemma {:induction false} NewColumn(g: Graph, k: nat, n: nat)
    requires g.Valid() && !g.directed && k <= g.N() && n < g.N()
    ensures Square(g, k, n + 1) == Square(g, k, n) + CountBelow(g.outs[n], k)
  {
    if k > 0 {
      NewColumn(g, k - 1, n);
      assert n in g.outs[k - 1] <==> k - 1 in g.outs[n];
    }
  }

  lemma {:induction false} SquareIsEven(g: Graph, n: nat)
    requires g.Valid() && !g.directed && SquishedRows(g) && n <= g.N()
    ensures Square(g, n, n) % 2 == 0
  {
    if n > 0 {
      SquareIsEven(g, n - 1);
      NewColumn(g, n - 1, n - 1);
      assert n - 1 !in g.outs[n - 1];
    }
  }

  lemma {:induction false} EntriesAreSquare(g: Graph, k: nat)
    requires g.Valid() && SquishedRows(g) && k <= g.N()
    ensures EntriesTo(g, k) == Square(g, k, g.N())
  {
    if k > 0 {
      EntriesAreSquare(g, k - 1);
      var row := g.outs[k - 1];
      forall x | x in row ensures x < g.N() {
        EdgeInRange(g, k - 1, x);
      }
      BelowIsLength(row, g.N());
    }
  }

  // The reported count is exact for a directed graph, and for an undirected one
  // with an even number of entries; squished rows have such a number.
  lemma CountIsExact(g: Graph)
    requires g.Valid()
    ensures NumEdgesDirected(g) == EntriesTo(g, g.N()) <==> g.directed || EntriesTo(g, g.N()) % 2 == 0
    ensures SquishedRows(g) ==> NumEdgesDirected(g) == EntriesTo(g, g.N())
  {
    if !g.directed && SquishedRows(g) {
      EntriesAreSquare(g, g.N());
      SquareIsEven(g, g.N());
    }
  }

  // -------------------------------------------------- before squishing, as built

  // How many values the first k edges of a symmetrized build push onto the rows below n.
  ghost function PushedBelow(el: seq<Edge>, k: nat, n: nat): nat
    requires k <= |el|
  {
    if n == 0 then 0 else PushedBelow(el, k, n - 1) + |Pushed(el, true, true, n - 1, k)|
  }

  lemma {:induction false} PushedNext(el: seq<Edge>, k: nat, n: nat)
    requires k < |el|
    ensures PushedBelow(el, k + 1, n)
         == PushedBelow(el, k, n) + (if el[k].u < n then 1 else 0) + (if el[k].v < n then 1 else 0)
  {
    if n > 0 { PushedNext(el, k, n - 1); }
  }

  lemma {:induction false} NothingPushed(el: seq<Edge>, n: nat)
    ensures PushedBelow(el, 0, n) == 0
  {
    if n > 0 { NothingPushed(el, n - 1); }
  }

  // A symmetrized build has two entries for each edge, a self-loop included, so
  // that its count is exact even before squishing.
  lemma {:induction false} SymmetrizedIsEven(el: seq<Edge>, k: nat, n: nat)
    requires InRange(el, n) && k <= |el|
    ensures PushedBelow(el, k, n) == 2 * k
  {
    if k == 0 {
      NothingPushed(el, n);
    } else {
      assert el[k - 1] in el;
      SymmetrizedIsEven(el, k - 1, n);
      PushedNext(el, k - 1, n);
    }
  }
}
