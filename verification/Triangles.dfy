// Triangles of a simple undirected graph: how they are counted once, six times,
// and under other vertex names.
module Triangles {
  import opened Lists

  type Rows = seq<seq<nat>>

  ghost predicate HasEdge(g: Rows, u: nat, v: nat) { u < |g| && v < |g| && v in g[u] }

  ghost predicate Symmetric(g: Rows) {
    forall u: nat, v: nat {:trigger HasEdge(g, u, v)} | HasEdge(g, u, v) :: HasEdge(g, v, u)
  }

  // Undirected, no self-loops, strictly sorted rows.
  ghost predicate Simple(g: Rows) {
    && (forall u: nat | u < |g| :: StrictlySorted(g[u]) && u !in g[u] && forall v | v in g[u] :: v < |g|)
    && Symmetric(g)
  }

  datatype Triple = Triple(u: nat, v: nat, w: nat)

  // Pairwise adjacent, as seen from the first vertex.
  ghost predicate Closed3(g: Rows, t: Triple) {
    HasEdge(g, t.u, t.v) && HasEdge(g, t.u, t.w) && HasEdge(g, t.v, t.w)
  }

  // The triangles, each listed once from its largest vertex down.
  ghost predicate Triangle(g: Rows, t: Triple) {
    Closed3(g, t) && t.u > t.v > t.w
  }

  // Every triple of vertices below n; the sets below are cut out of it.
  ghost function Cube(n: nat): (c: set<Triple>)
    ensures forall t: Triple :: t in c <==> t.u < n && t.v < n && t.w < n
  {
    CubeOf(n, n)
  }

  ghost function CubeOf(n: nat, k: nat): (c: set<Triple>)
    ensures forall t: Triple :: t in c <==> t.u < k && t.v < n && t.w < n
  {
    if k == 0 then {} else CubeOf(n, k - 1) + Plane(n, k - 1, n)
  }

  ghost function Plane(n: nat, u: nat, k: nat): (c: set<Triple>)
    ensures forall t: Triple :: t in c <==> t.u == u && t.v < k && t.w < n
  {
    if k == 0 then {} else Plane(n, u, k - 1) + Line(u, k - 1, n)
  }

  ghost function Line(u: nat, v: nat, k: nat): (c: set<Triple>)
    ensures forall t: Triple :: t in c <==> t.u == u && t.v == v && t.w < k
  {
    if k == 0 then {} else Line(u, v, k - 1) + {Triple(u, v, k - 1)}
  }

  ghost function TriangleSet(g: Rows): set<Triple> {
    set t | t in Cube(|g|) && Triangle(g, t)
  }

  ghost function ClosedSet(g: Rows): set<Triple> {
    set t | t in Cube(|g|) && Closed3(g, t)
  }

  // How many triangles there are.
  ghost function TriangleCount(g: Rows): nat { |TriangleSet(g)| }

  // ---------------------------------------------------------------- six orders

  ghost function Ordered(i: nat, t: Triple): Triple {
    match i
    case 0 => t
    case 1 => Triple(t.u, t.w, t.v)
    case 2 => Triple(t.v, t.u, t.w)
    case 3 => Triple(t.v, t.w, t.u)
    case 4 => Triple(t.w, t.u, t.v)
    case _ => Triple(t.w, t.v, t.u)
  }

  ghost function Image(i: nat, s: set<Triple>): set<Triple> { set t | t in s :: Ordered(i, t) }

  lemma {:induction false} ImageSize(i: nat, s: set<Triple>)
    ensures |Image(i, s)| == |s|
  {
    if s != {} {
      var t :| t in s;
      ImageSize(i, s - {t});
      assert Image(i, s) == Image(i, s - {t}) + {Ordered(i, t)};
      assert Ordered(i, t) !in Image(i, s - {t});
    }
  }

  // Triples in the i-th order of their three vertices.
  ghost predicate InOrder(i: nat, t: Triple) {
    match i
    case 0 => t.u > t.v > t.w
    case 1 => t.u > t.w > t.v
    case 2 => t.v > t.u > t.w
    case 3 => t.w > t.u > t.v
    case 4 => t.v > t.w > t.u
    case _ => t.w > t.v > t.u
  }

  ghost function ClosedIn(g: Rows, i: nat): set<Triple> { set t | t in ClosedSet(g) && InOrder(i, t) }

  // Undo the i-th order.
  ghost function Back(i: nat): nat {
    match i
    case 3 => 4
    case 4 => 3
    case _ => i
  }

  lemma BackUndoes(i: nat, t: Triple)
    ensures Ordered(i, Ordered(Back(i), t)) == t
    ensures InOrder(i, t) ==> Ordered(Back(i), t).u > Ordered(Back(i), t).v > Ordered(Back(i), t).w
  {
  }

  lemma ClosedAnyOrder(g: Rows, i: nat, t: Triple)
    requires Symmetric(g)
    ensures Closed3(g, Ordered(i, t)) <==> Closed3(g, t)
    ensures t in Cube(|g|) <==> Ordered(i, t) in Cube(|g|)
  {
    hide HasEdge;
  }

  lemma OneOrder(g: Rows, i: nat)
    requires Symmetric(g) && i < 6
    ensures |ClosedIn(g, i)| == TriangleCount(g)
  {
    forall t ensures t in ClosedIn(g, i) <==> t in Image(i, TriangleSet(g)) { OneOrderMember(g, i, t); }
    assert ClosedIn(g, i) == Image(i, TriangleSet(g));
    ImageSize(i, TriangleSet(g));
  }

  lemma OneOrderMember(g: Rows, i: nat, t: Triple)
    requires Symmetric(g) && i < 6
    ensures t in ClosedIn(g, i) <==> t in Image(i, TriangleSet(g))
  {
    hide Closed3, Symmetric;
    if t in ClosedIn(g, i) {
      var r := Ordered(Back(i), t);
      BackUndoes(i, t);
      ClosedAnyOrder(g, Back(i), t);
      assert r in TriangleSet(g) && Ordered(i, r) == t;
    }
    if t in Image(i, TriangleSet(g)) {
      var r :| r in TriangleSet(g) && Ordered(i, r) == t;
      ClosedAnyOrder(g, i, r);
    }
  }

  ghost function ClosedUpTo(g: Rows, i: nat): set<Triple> {
    if i == 0 then {} else ClosedUpTo(g, i - 1) + ClosedIn(g, i - 1)
  }

  lemma {:induction false} ClosedUpToMembers(g: Rows, i: nat, t: Triple)
    requires i <= 6
    ensures t in ClosedUpTo(g, i) <==> t in ClosedSet(g) && exists j: nat :: j < i && InOrder(j, t)
  {
    if i > 0 { ClosedUpToMembers(g, i - 1, t); }
  }

  lemma OrdersDiffer(i: nat, j: nat, t: Triple)
    requires InOrder(i, t) && InOrder(j, t) && i < 6 && j < 6
    ensures i == j
  {
  }

  lemma OrdersApart(g: Rows, i: nat, t: Triple)
    requires i < 6 && t in ClosedUpTo(g, i)
    ensures t !in ClosedIn(g, i)
  {
    ClosedUpToMembers(g, i, t);
    var j: nat :| j < i && InOrder(j, t);
    if InOrder(i, t) { OrdersDiffer(j, i, t); }
  }

  lemma ClosedUpToStep(g: Rows, k: nat)
    requires Symmetric(g) && k < 6
    ensures |ClosedUpTo(g, k + 1)| == |ClosedUpTo(g, k)| + TriangleCount(g)
  {
    hide ClosedIn, TriangleCount, Symmetric;
    OneOrder(g, k);
    forall t | t in ClosedUpTo(g, k) ensures t !in ClosedIn(g, k) { OrdersApart(g, k, t); }
    assert ClosedUpTo(g, k) !! ClosedIn(g, k);
  }

  lemma SomeOrder(g: Rows, t: Triple)
    requires Simple(g) && Closed3(g, t)
    ensures exists j: nat :: j < 6 && InOrder(j, t)
  {
    assert t.u != t.v && t.u != t.w && t.v != t.w;
    assert InOrder(0, t) || InOrder(1, t) || InOrder(2, t) || InOrder(3, t) || InOrder(4, t) || InOrder(5, t);
  }

  lemma SixSteps(g: Rows)
    requires Symmetric(g)
    ensures |ClosedUpTo(g, 6)| == 6 * TriangleCount(g)
  {
    hide ClosedIn, TriangleCount, Symmetric;
    var c := TriangleCount(g);
    ClosedUpToStep(g, 0);
    ClosedUpToStep(g, 1);
    ClosedUpToStep(g, 2);
    ClosedUpToStep(g, 3);
    ClosedUpToStep(g, 4);
    ClosedUpToStep(g, 5);
    assert |ClosedUpTo(g, 6)| == c + c + c + c + c + c;
  }

  // Every triangle is closed in exactly six orders.
  lemma SixTimes(g: Rows)
    requires Simple(g)
    ensures |ClosedSet(g)| == 6 * TriangleCount(g)
  {
    forall t ensures t in ClosedSet(g) <==> t in ClosedUpTo(g, 6) {
      ClosedUpToMembers(g, 6, t);
      if t in ClosedSet(g) { SomeOrder(g, t); }
    }
    assert ClosedSet(g) == ClosedUpTo(g, 6);
    SixSteps(g);
  }

  // -------------------------------------------------------------- other names

  // names gives every vertex of g a name of its own, and h has the same edges
  // between the names.
  ghost predicate Renames(g: Rows, h: Rows, names: seq<nat>) {
    && |names| == |g| == |h|
    && (forall u | 0 <= u < |g| :: names[u] < |g|)
    && (forall u, v | 0 <= u < v < |g| :: names[u] != names[v])
    && (forall u: nat, v: nat {:trigger HasEdge(g, u, v)} | u < |g| && v < |g| ::
        HasEdge(g, u, v) <==> HasEdge(h, names[u], names[v]))
  }

  ghost predicate Below(t: Triple, n: nat) { t.u < n && t.v < n && t.w < n }

  ghost function Named(names: seq<nat>, t: Triple): Triple
    requires t.u < |names| && t.v < |names| && t.w < |names|
  {
    Triple(names[t.u], names[t.v], names[t.w])
  }

  ghost function NamedSet(names: seq<nat>, s: set<Triple>): set<Triple>
    requires forall t | t in s :: t.u < |names| && t.v < |names| && t.w < |names|
  {
    set t | t in s :: Named(names, t)
  }

  lemma NamedInjective(names: seq<nat>, a: Triple, b: Triple)
    requires Below(a, |names|) && Below(b, |names|) && Named(names, a) == Named(names, b)
    requires forall u, v | 0 <= u < v < |names| :: names[u] != names[v]
    ensures a == b
  {
  }

  lemma {:induction false} NamedSize(names: seq<nat>, s: set<Triple>)
    requires forall t | t in s :: t.u < |names| && t.v < |names| && t.w < |names|
    requires forall u, v | 0 <= u < v < |names| :: names[u] != names[v]
    ensures |NamedSet(names, s)| == |s|
  {
    if s != {} {
      var t :| t in s;
      NamedSize(names, s - {t});
      assert NamedSet(names, s) == NamedSet(names, s - {t}) + {Named(names, t)};
      forall r | r in s - {t} ensures Named(names, r) != Named(names, t) {
        if Named(names, r) == Named(names, t) { NamedInjective(names, r, t); }
      }
    }
  }

  // Distinct names below n hit every number below n.
  lemma NamesCover(names: seq<nat>, n: nat, x: nat)
    requires |names| == n && x < n && (forall u | 0 <= u < n :: names[u] < n)
    requires forall u, v | 0 <= u < v < n :: names[u] != names[v]
    ensures exists u: nat :: u < n && names[u] == x
  {
    if x !in names {
      var more := names + [x];
      forall i, j | 0 <= i < j < |more| ensures more[i] != more[j] { assert names[i] in names; }
      forall v | v in more ensures v < n { assert v in names || v == x; }
      DistinctFits(n, more);
    }
  }

  lemma NamedClosed(g: Rows, h: Rows, names: seq<nat>, t: Triple)
    requires Renames(g, h, names) && Below(t, |g|)
    ensures Closed3(h, Named(names, t)) <==> Closed3(g, t)
  {
    assert HasEdge(g, t.u, t.v) <==> HasEdge(h, names[t.u], names[t.v]);
    assert HasEdge(g, t.u, t.w) <==> HasEdge(h, names[t.u], names[t.w]);
    assert HasEdge(g, t.v, t.w) <==> HasEdge(h, names[t.v], names[t.w]);
  }

  // The triple whose vertices carry the names of t.
  lemma Unnamed(g: Rows, h: Rows, names: seq<nat>, t: Triple) returns (r: Triple)
    requires Renames(g, h, names) && Below(t, |h|)
    ensures Below(r, |g|) && Named(names, r) == t
  {
    NamesCover(names, |g|, t.u);
    NamesCover(names, |g|, t.v);
    NamesCover(names, |g|, t.w);
    var u: nat :| u < |g| && names[u] == t.u;
    var v: nat :| v < |g| && names[v] == t.v;
    var w: nat :| w < |g| && names[w] == t.w;
    r := Triple(u, v, w);
  }

  lemma NamedMember(g: Rows, h: Rows, names: seq<nat>, t: Triple)
    requires Renames(g, h, names)
    ensures t in ClosedSet(h) <==> t in NamedSet(names, ClosedSet(g))
  {
    hide Closed3;
    if t in ClosedSet(h) {
      var r := Unnamed(g, h, names, t);
      NamedClosed(g, h, names, r);
      assert r in ClosedSet(g) && Named(names, r) == t;
    }
    if t in NamedSet(names, ClosedSet(g)) {
      var r :| r in ClosedSet(g) && Named(names, r) == t;
      NamedClosed(g, h, names, r);
    }
  }

  // Renaming the vertices keeps the number of triangles.
  lemma RenamingKeepsTriangles(g: Rows, h: Rows, names: seq<nat>)
    requires Simple(g) && Simple(h) && Renames(g, h, names)
    ensures TriangleCount(h) == TriangleCount(g)
  {
    hide Simple, TriangleCount;
    forall t ensures t in ClosedSet(h) <==> t in NamedSet(names, ClosedSet(g)) { NamedMember(g, h, names, t); }
    assert ClosedSet(h) == NamedSet(names, ClosedSet(g));
    NamedSize(names, ClosedSet(g));
    SixTimes(g);
    SixTimes(h);
  }
}
