module Compression {
  // The compression loop that both component kernels run between their linking
  // loops: the process of vertex u moves comp[u] up its tree, one shared-memory
  // access per step, while the other processes do the same for theirs.

  import opened Components

  datatype Crawl =
    | Look1
    | Look2(a: nat)
    | Jump1
    | Jump2(a: nat)
    | Jump3(b: nat)
    | Stopped

  predicate Readable(comp: seq<nat>, c: Crawl) {
    match c
    case Look2(a) => a < |comp|
    case Jump2(a) => a < |comp|
    case _ => true
  }

  function CrawlStep(comp: seq<nat>, u: nat, c: Crawl): (seq<nat>, Crawl)
    requires u < |comp| && Readable(comp, c)
  {
    match c
    case Look1 => (comp, Look2(comp[u]))
    case Look2(a) => (comp, if comp[a] == a then Stopped else Jump1)
    case Jump1 => (comp, Jump2(comp[u]))
    case Jump2(a) => (comp, Jump3(comp[a]))
    case Jump3(b) => (comp[u := b], Look1)
    case Stopped => (comp, Stopped)
  }

  ghost predicate CrawlOk(comp: seq<nat>, u: nat, c: Crawl) {
    && u < |comp| && Forest(comp)
    && match c
       case Look1 => true
       case Look2(a) => a == comp[u]
       case Jump1 => comp[comp[u]] < comp[u]
       case Jump2(a) => a == comp[u] && comp[a] < a
       case Jump3(b) => b < comp[u] && Root(comp, b) == Root(comp, u)
       case Stopped => comp[comp[u]] == comp[u]
  }

  // What is left to do for u: every jump lowers comp[u].
  function CrawlHeight(comp: seq<nat>, u: nat, c: Crawl): nat
    requires u < |comp|
  {
    match c
    case Look1 => 6 * comp[u] + 6
    case Look2(_) => 6 * comp[u] + 5
    case Jump1 => 6 * comp[u] + 4
    case Jump2(_) => 6 * comp[u] + 3
    case Jump3(_) => 6 * comp[u] + 2
    case Stopped => 0
  }

  // No root changes, so no tree does.
  ghost predicate SameRoots(comp: seq<nat>, comp': seq<nat>) {
    |comp'| == |comp| && forall x: nat | x < |comp| :: Root(comp', x) == Root(comp, x)
  }

  lemma JumpKeepsTrees(g: Graph, comp: seq<nat>, u: nat, b: nat)
    requires TreesConnected(g, comp) && u < |comp| && b < comp[u] && Root(comp, b) == Root(comp, u)
    ensures TreesConnected(g, comp[u := b]) && SameRoots(comp, comp[u := b])
  {
    SameIsConnected(g, comp, u, b);
    var comp' := comp[u := b];
    forall x: nat | x < |comp| ensures Root(comp', x) == Root(comp, x) { RootAfterJump(comp, u, b, x); }
  }

  // A step of u is safe for u.
  lemma OwnStep(g: Graph, comp: seq<nat>, u: nat, c: Crawl)
    requires TreesConnected(g, comp) && CrawlOk(comp, u, c) && !c.Stopped?
    ensures Readable(comp, c)
    ensures var (comp', c') := CrawlStep(comp, u, c);
      && TreesConnected(g, comp') && SameRoots(comp, comp') && CrawlOk(comp', u, c')
      && CrawlHeight(comp', u, c') < CrawlHeight(comp, u, c)
      && comp'[u] <= comp[u] && comp' == comp[u := comp'[u]]
      && (comp[u] == u ==> comp' == comp)
      && (comp' != comp ==> comp[comp[u]] < comp[u])
  {
    RootProperties(comp, u);
    match c {
      case Jump2(a) => RootProperties(comp, a);
      case Jump3(b) =>
        RootProperties(comp, b);
        RootProperties(comp, comp[u]);
        JumpKeepsTrees(g, comp, u, b);
      case _ =>
    }
  }

  // A step of u is safe for everybody else.
  lemma OtherStep(g: Graph, comp: seq<nat>, u: nat, c: Crawl, x: nat, d: Crawl)
    requires TreesConnected(g, comp) && CrawlOk(comp, u, c) && !c.Stopped? && CrawlOk(comp, x, d) && x != u
    ensures Readable(comp, c)
    ensures var comp' := CrawlStep(comp, u, c).0;
      |comp'| == |comp| && CrawlOk(comp', x, d) && CrawlHeight(comp', x, d) == CrawlHeight(comp, x, d)
  {
    OwnStep(g, comp, u, c);
    RootProperties(comp, u);
    RootProperties(comp, comp[x]);
  }

  lemma AllStoppedIsFlat(comp: seq<nat>)
    requires Forest(comp) && forall x: nat | x < |comp| :: CrawlOk(comp, x, Stopped)
    ensures Flat(comp)
  {
    forall x: nat | x < |comp| ensures comp[comp[x]] == comp[x] { assert CrawlOk(comp, x, Stopped); }
  }
}
