// The library algorithms that graph construction uses, by what they promise:
// sort, unique and remove on lists.

module Lists {

  ghost predicate TotalOrder<T(!new)>(le: (T, T) -> bool) {
    && (forall a, b :: le(a, b) || le(b, a))
    && (forall a, b :: le(a, b) && le(b, a) ==> a == b)
    && (forall a, b, c :: le(a, b) && le(b, c) ==> le(a, c))
  }

  ghost predicate AllAbove<T>(le: (T, T) -> bool, x: T, a: seq<T>) {
    forall y | y in a :: le(x, y)
  }

  ghost predicate SortedBy<T>(le: (T, T) -> bool, a: seq<T>) {
    a == [] || (AllAbove(le, a[0], a[1..]) && SortedBy(le, a[1..]))
  }

  lemma {:induction false} SortedAt<T>(le: (T, T) -> bool, a: seq<T>, i: nat, j: nat)
    requires SortedBy(le, a) && i < j < |a|
    ensures le(a[i], a[j])
  {
    if i == 0 {
      assert a[j] == a[1..][j - 1];
    } else {
      SortedAt(le, a[1..], i - 1, j - 1);
    }
  }

  function InsertBy<T>(le: (T, T) -> bool, x: T, a: seq<T>): seq<T> {
    if a == [] then [x]
    else if le(x, a[0]) then [x] + a
    else [a[0]] + InsertBy(le, x, a[1..])
  }

  function SortBy<T>(le: (T, T) -> bool, a: seq<T>): seq<T> {
    if a == [] then [] else InsertBy(le, a[0], SortBy(le, a[1..]))
  }

  lemma {:induction false} InsertByKeepsAll<T>(le: (T, T) -> bool, x: T, a: seq<T>)
    ensures multiset(InsertBy(le, x, a)) == multiset(a) + multiset{x}
    ensures forall y :: y in InsertBy(le, x, a) <==> y == x || y in a
  {
    if a != [] {
      assert a == [a[0]] + a[1..];
      if !le(x, a[0]) {
        InsertByKeepsAll(le, x, a[1..]);
      }
    }
  }

  lemma {:induction false} InsertBySorts<T(!new)>(le: (T, T) -> bool, x: T, a: seq<T>)
    requires TotalOrder(le) && SortedBy(le, a)
    ensures SortedBy(le, InsertBy(le, x, a))
  {
    if a != [] {
      assert a == [a[0]] + a[1..];
      if le(x, a[0]) {
        assert ([x] + a)[1..] == a;
      } else {
        InsertBySorts(le, x, a[1..]);
        InsertByKeepsAll(le, x, a[1..]);
        var r := InsertBy(le, x, a[1..]);
        assert ([a[0]] + r)[1..] == r;
      }
    }
  }

  // Sorting orders the list and keeps every copy of every element.
  lemma {:induction false} SortByProperties<T(!new)>(le: (T, T) -> bool, a: seq<T>)
    requires TotalOrder(le)
    ensures SortedBy(le, SortBy(le, a)) && multiset(SortBy(le, a)) == multiset(a)
    ensures |SortBy(le, a)| == |a|
    ensures forall x :: x in SortBy(le, a) <==> x in a
  {
    if a != [] {
      SortByProperties(le, a[1..]);
      InsertBySorts(le, a[0], SortBy(le, a[1..]));
      InsertByKeepsAll(le, a[0], SortBy(le, a[1..]));
      assert a == [a[0]] + a[1..];
    }
    assert |multiset(SortBy(le, a))| == |SortBy(le, a)| && |multiset(a)| == |a|;
  }

  lemma FirstIsLeast<T(!new)>(le: (T, T) -> bool, a: seq<T>, y: T)
    requires TotalOrder(le) && SortedBy(le, a) && y in a
    ensures le(a[0], y)
  {
    var j :| 0 <= j < |a| && a[j] == y;
    if j > 0 { SortedAt(le, a, 0, j); }
  }

  lemma SameFirst<T(!new)>(le: (T, T) -> bool, a: seq<T>, b: seq<T>)
    requires TotalOrder(le) && SortedBy(le, a) && SortedBy(le, b) && multiset(a) == multiset(b) && a != []
    ensures b != [] && a[0] == b[0]
  {
    hide SortedBy;
    assert a[0] in multiset(b);
    assert b[0] in multiset(a);
    FirstIsLeast(le, a, b[0]);
    FirstIsLeast(le, b, a[0]);
  }

  lemma SameRest<T>(a: seq<T>, b: seq<T>)
    requires a != [] && b != [] && a[0] == b[0] && multiset(a) == multiset(b)
    ensures multiset(a[1..]) == multiset(b[1..])
  {
    assert a == [a[0]] + a[1..] && b == [b[0]] + b[1..];
    assert multiset(a[1..]) == multiset(a) - multiset{a[0]};
    assert multiset(b[1..]) == multiset(b) - multiset{b[0]};
  }

  // A sorted list is determined by its elements and how often it has them.
  lemma {:induction false} SortedUnique<T(!new)>(le: (T, T) -> bool, a: seq<T>, b: seq<T>)
    requires TotalOrder(le) && SortedBy(le, a) && SortedBy(le, b) && multiset(a) == multiset(b)
    ensures a == b
  {
    hide TotalOrder, AllAbove;
    if a == [] {
      assert |multiset(b)| == 0;
    } else {
      SameFirst(le, a, b);
      SameRest(a, b);
      SortedUnique(le, a[1..], b[1..]);
      assert a == [a[0]] + a[1..] && b == [b[0]] + b[1..];
    }
  }

  // Sorting forgets the order that it was given.
  lemma SortForgetsOrder<T(!new)>(le: (T, T) -> bool, a: seq<T>, b: seq<T>)
    requires TotalOrder(le) && multiset(a) == multiset(b)
    ensures SortBy(le, a) == SortBy(le, b)
  {
    SortByProperties(le, a);
    SortByProperties(le, b);
    SortedUnique(le, SortBy(le, a), SortBy(le, b));
  }

  // Keeps the first element of every run of equal ones.
  function DropRepeats<T>(eq: (T, T) -> bool, a: seq<T>): (r: seq<T>)
    ensures |r| <= |a| && (a != [] ==> r != [] && r[0] == a[0])
    decreases |a|
  {
    if |a| <= 1 then a
    else if eq(a[0], a[1]) then DropRepeats(eq, [a[0]] + a[2..])
    else [a[0]] + DropRepeats(eq, a[1..])
  }

  // eq joins elements that are next to each other in the order.
  ghost predicate Groups<T(!new)>(le: (T, T) -> bool, eq: (T, T) -> bool) {
    && (forall a :: eq(a, a))
    && (forall a, b :: eq(a, b) ==> eq(b, a))
    && (forall a, b, c :: eq(a, b) && eq(b, c) ==> eq(a, c))
    && (forall a, b, c :: le(a, b) && le(b, c) && eq(a, c) ==> eq(a, b))
  }

  ghost predicate NoRepeats<T>(eq: (T, T) -> bool, a: seq<T>) {
    a == [] || ((forall y | y in a[1..] :: !eq(a[0], y)) && NoRepeats(eq, a[1..]))
  }

  lemma {:induction false} NoRepeatsAt<T>(eq: (T, T) -> bool, a: seq<T>, i: nat, j: nat)
    requires NoRepeats(eq, a) && i < j < |a|
    ensures !eq(a[i], a[j])
  {
    if i == 0 {
      assert a[j] == a[1..][j - 1];
    } else {
      NoRepeatsAt(eq, a[1..], i - 1, j - 1);
    }
  }

  ghost predicate HasLeast<T(!new)>(le: (T, T) -> bool, eq: (T, T) -> bool, r: seq<T>, x: T) {
    exists y :: y in r && eq(y, x) && le(y, x)
  }

  // Of a sorted list, unique keeps exactly the least element of every group.
  ghost predicate LeastOfGroups<T(!new)>(le: (T, T) -> bool, eq: (T, T) -> bool, a: seq<T>, r: seq<T>) {
    && SortedBy(le, r)
    && NoRepeats(eq, r)
    && (forall x | x in r :: x in a)
    && (forall x | x in a :: HasLeast(le, eq, r, x))
  }

  lemma {:induction false} DropRepeatsProperties<T(!new)>(le: (T, T) -> bool, eq: (T, T) -> bool, a: seq<T>)
    requires TotalOrder(le) && Groups(le, eq) && SortedBy(le, a)
    ensures LeastOfGroups(le, eq, a, DropRepeats(eq, a))
    decreases |a|
  {
    hide Groups, LeastOfGroups;
    if |a| <= 1 {
      AlreadyLeast(le, eq, a);
    } else if eq(a[0], a[1]) {
      DropRepeatsSkips(le, eq, a);
      DropRepeatsProperties(le, eq, [a[0]] + a[2..]);
      RepeatLeaves(le, eq, a, DropRepeats(eq, [a[0]] + a[2..]));
    } else {
      DropRepeatsProperties(le, eq, a[1..]);
      DropRepeatsKeeps(le, eq, a, DropRepeats(eq, a[1..]));
    }
  }

  lemma AlreadyLeast<T(!new)>(le: (T, T) -> bool, eq: (T, T) -> bool, a: seq<T>)
    requires TotalOrder(le) && Groups(le, eq) && |a| <= 1
    ensures LeastOfGroups(le, eq, a, a)
  {
    forall x | x in a ensures HasLeast(le, eq, a, x) { assert eq(x, x) && le(x, x); }
  }

  lemma RepeatLeaves<T(!new)>(le: (T, T) -> bool, eq: (T, T) -> bool, a: seq<T>, r: seq<T>)
    requires |a| >= 2 && eq(a[0], a[1]) && le(a[0], a[1]) && r != [] && r[0] == a[0]
    requires LeastOfGroups(le, eq, [a[0]] + a[2..], r)
    requires forall x :: x in a <==> x in [a[0]] + a[2..] || x == a[1]
    ensures LeastOfGroups(le, eq, a, r)
  {
    hide SortedBy, NoRepeats;
    forall x | x in a ensures HasLeast(le, eq, r, x) {
      if x !in [a[0]] + a[2..] { assert x == a[1] && r[0] in r; }
    }
  }

  lemma DropRepeatsSkips<T(!new)>(le: (T, T) -> bool, eq: (T, T) -> bool, a: seq<T>)
    requires TotalOrder(le) && SortedBy(le, a) && |a| >= 2
    ensures SortedBy(le, [a[0]] + a[2..]) && le(a[0], a[1])
    ensures forall x :: x in a <==> x in [a[0]] + a[2..] || x == a[1]
  {
    assert a == [a[0], a[1]] + a[2..];
    assert a[1..] == [a[1]] + a[2..];
    assert a[1..][1..] == a[2..];
    var b := [a[0]] + a[2..];
    assert b[1..] == a[2..];
    assert AllAbove(le, b[0], b[1..]);
  }

  lemma DropRepeatsKeeps<T(!new)>(le: (T, T) -> bool, eq: (T, T) -> bool, a: seq<T>, rest: seq<T>)
    requires TotalOrder(le) && Groups(le, eq) && SortedBy(le, a) && |a| >= 2 && !eq(a[0], a[1])
    requires LeastOfGroups(le, eq, a[1..], rest)
    ensures LeastOfGroups(le, eq, a, [a[0]] + rest)
  {
    var r := [a[0]] + rest;
    assert a == [a[0]] + a[1..] && a[1..] == [a[1]] + a[1..][1..];
    assert r[1..] == rest;
    forall x | x in rest ensures le(a[0], x) && !eq(a[0], x) {
      assert x in a[1..];
      assert x == a[1] || x in a[1..][1..];
      assert le(a[0], a[1]) && le(a[1], x);
    }
    forall x | x in a ensures HasLeast(le, eq, r, x) {
      if x in a[1..] {
        HasLeastGrows(le, eq, rest, a[0], x);
      } else {
        assert x in r && eq(x, x) && le(x, x);
      }
    }
  }

  lemma HasLeastGrows<T(!new)>(le: (T, T) -> bool, eq: (T, T) -> bool, r: seq<T>, first: T, x: T)
    requires HasLeast(le, eq, r, x)
    ensures HasLeast(le, eq, [first] + r, x)
  {
    var y :| y in r && eq(y, x) && le(y, x);
    assert y in [first] + r;
  }

  // Keeps the elements that do not satisfy p.
  function Without<T(!new)>(p: T -> bool, a: seq<T>): (r: seq<T>)
    ensures |r| <= |a|
    ensures forall x :: x in r <==> x in a && !p(x)
  {
    if a == [] then []
    else
      assert a == [a[0]] + a[1..];
      if p(a[0]) then Without(p, a[1..])
      else [a[0]] + Without(p, a[1..])
  }

  lemma {:induction false} WithoutKeepsOrder<T(!new)>(le: (T, T) -> bool, eq: (T, T) -> bool, p: T -> bool, a: seq<T>)
    requires SortedBy(le, a) && NoRepeats(eq, a)
    ensures SortedBy(le, Without(p, a)) && NoRepeats(eq, Without(p, a))
  {
    if a != [] {
      WithoutKeepsOrder(le, eq, p, a[1..]);
      var rest := Without(p, a[1..]);
      if !p(a[0]) {
        assert ([a[0]] + rest)[1..] == rest;
      }
    }
  }

  // ------------------------------------------------------ lists of vertex ids

  ghost predicate StrictlySorted(a: seq<nat>) {
    forall i, j | 0 <= i < j < |a| :: a[i] < a[j]
  }

  // A strictly sorted list is determined by its elements.
  lemma {:induction false} StrictlySortedUnique(a: seq<nat>, b: seq<nat>)
    requires StrictlySorted(a) && StrictlySorted(b) && forall x :: x in a <==> x in b
    ensures a == b
    decreases |a|
  {
    assert (a != [] ==> a[0] in a) && (b != [] ==> b[0] in b);
    if a != [] && b != [] {
      var m, k := |a| - 1, |b| - 1;
      assert a[m] in b && b[k] in a;
      assert a[m] == b[k];
      forall x ensures x in a[..m] <==> x in b[..k] {
        assert x in a <==> x in a[..m] || x == a[m];
        assert x in b <==> x in b[..k] || x == b[k];
      }
      StrictlySortedUnique(a[..m], b[..k]);
    }
  }

  // A vector of rows made at least n rows long.
  function Resized(rows: seq<seq<nat>>, n: nat): (r: seq<seq<nat>>)
    ensures |r| == if n <= |rows| then |rows| else n
    ensures forall d | 0 <= d < |r| :: r[d] == if d < |rows| then rows[d] else []
  {
    if n <= |rows| then rows else rows + seq(n - |rows|, _ => [])
  }

  // Distinct ids below n number at most n.
  lemma {:induction false} DistinctFits(n: nat, ids: seq<nat>)
    requires forall v | v in ids :: v < n
    requires forall j, k | 0 <= j < k < |ids| :: ids[j] != ids[k]
    ensures |ids| <= n
    decreases n
  {
    assert |ids| > 0 ==> ids[0] in ids;
    if n == 0 {
    } else if j :| 0 <= j < |ids| && ids[j] == n - 1 {
      var rest := ids[..j] + ids[j + 1..];
      forall v | v in rest ensures v < n - 1 {
        assert v in ids;
        var k :| 0 <= k < |rest| && rest[k] == v;
        assert v == ids[if k < j then k else k + 1];
      }
      DistinctFits(n - 1, rest);
    } else {
      forall v | v in ids ensures v < n - 1 {
        var k :| 0 <= k < |ids| && ids[k] == v;
      }
      DistinctFits(n - 1, ids);
    }
  }

  // Two lists of distinct ids that share none fit together.
  lemma DisjointFits(n: nat, a: seq<nat>, b: seq<nat>)
    requires forall x | x in a :: x < n && x !in b
    requires forall x | x in b :: x < n
    requires forall i, j | 0 <= i < j < |a| :: a[i] != a[j]
    requires forall i, j | 0 <= i < j < |b| :: b[i] != b[j]
    ensures |a| + |b| <= n && forall i, j | 0 <= i < j < |a + b| :: (a + b)[i] != (a + b)[j]
  {
    var both := a + b;
    forall i, j | 0 <= i < j < |both| ensures both[i] != both[j] {
      if i < |a| <= j { assert a[i] in a && b[j - |a|] in b; }
    }
    forall x | x in both ensures x < n { assert x in a || x in b; }
    DistinctFits(n, both);
  }

  predicate IdLe(x: nat, y: nat) { x <= y }

  predicate IdEq(x: nat, y: nat) { x == y }

  function Sort(a: seq<nat>): seq<nat> { SortBy(IdLe, a) }

  // Sorting distinct ids sorts them strictly.
  lemma SortDistinct(a: seq<nat>)
    requires forall i, j | 0 <= i < j < |a| :: a[i] != a[j]
    ensures StrictlySorted(Sort(a)) && |Sort(a)| == |a| && forall x :: x in Sort(a) <==> x in a
  {
    SortByProperties(IdLe, a);
    var r := Sort(a);
    forall i, j | 0 <= i < j < |r| ensures r[i] < r[j] {
      SortedAt(IdLe, r, i, j);
      if r[i] == r[j] {
        RepeatedTwice(r, i, j);
        DistinctOnce(a, r[i]);
      }
    }
  }

  lemma RepeatedTwice<T>(r: seq<T>, i: nat, j: nat)
    requires i < j < |r| && r[i] == r[j]
    ensures multiset(r)[r[i]] >= 2
  {
    assert r == r[..i] + [r[i]] + r[i + 1..j] + [r[j]] + r[j + 1..];
  }

  lemma {:induction false} DistinctOnce<T>(a: seq<T>, x: T)
    requires forall i, j | 0 <= i < j < |a| :: a[i] != a[j]
    ensures multiset(a)[x] <= 1
  {
    if a != [] {
      DistinctOnce(a[1..], x);
      assert a == [a[0]] + a[1..];
      assert a[0] !in a[1..];
    }
  }

  // Another order of the same distinct values.
  lemma PermutedDistinct<T>(a: seq<T>, b: seq<T>)
    requires multiset(a) == multiset(b) && forall i, j | 0 <= i < j < |a| :: a[i] != a[j]
    ensures forall i, j | 0 <= i < j < |b| :: b[i] != b[j]
    ensures |a| == |b| && forall x :: x in a <==> x in b
  {
    forall i, j | 0 <= i < j < |b| ensures b[i] != b[j] {
      if b[i] == b[j] {
        RepeatedTwice(b, i, j);
        DistinctOnce(a, b[i]);
      }
    }
    assert |multiset(a)| == |a| && |multiset(b)| == |b|;
    forall x ensures x in a <==> x in b {
      assert x in a <==> x in multiset(a);
    }
  }

  // A type of row entries: the order of its operator<, its operator==, and its
  // comparison with a vertex.
  datatype Compare<!T> = Compare(le: (T, T) -> bool, eq: (T, T) -> bool, isVertex: (T, nat) -> bool)

  function IsSelf<T>(c: Compare<T>, self: nat): T -> bool {
    (x: T) => c.isVertex(x, self)
  }

  // The squished form of a row: sort, unique, then remove the vertex itself.
  function SquishedBy<T(!new)>(c: Compare<T>, a: seq<T>, self: nat): seq<T> {
    Without(IsSelf(c, self), DropRepeats(c.eq, SortBy(c.le, a)))
  }

  // Squishing keeps the least entry of every group, in order, and none that names
  // the vertex itself.
  lemma SquishedByProperties<T(!new)>(c: Compare<T>, a: seq<T>, self: nat)
    requires TotalOrder(c.le) && Groups(c.le, c.eq)
    requires forall x, y :: c.eq(x, y) ==> (c.isVertex(x, self) <==> c.isVertex(y, self))
    ensures var r := SquishedBy(c, a, self);
      && SortedBy(c.le, r) && NoRepeats(c.eq, r)
      && (forall x | x in r :: x in a && !c.isVertex(x, self))
      && (forall x | x in a && !c.isVertex(x, self) :: HasLeast(c.le, c.eq, r, x))
  {
    var s := SortBy(c.le, a);
    SortByProperties(c.le, a);
    var u := DropRepeats(c.eq, s);
    DropRepeatsProperties(c.le, c.eq, s);
    WithoutKeepsOrder(c.le, c.eq, IsSelf(c, self), u);
    var r := SquishedBy(c, a, self);
    forall x | x in a && !c.isVertex(x, self) ensures HasLeast(c.le, c.eq, r, x) {
      assert x in s && HasLeast(c.le, c.eq, u, x);
      var y :| y in u && c.eq(y, x) && c.le(y, x);
      assert y in r;
    }
  }

  // Plain vertex ids.
  const IDS: Compare<nat> := Compare(IdLe, IdEq, IdEq)

  function Squished(a: seq<nat>, self: nat): seq<nat> { SquishedBy(IDS, a, self) }

  // Squishing keeps every neighbour once, in increasing order, and never the vertex itself.
  lemma SquishedProperties(a: seq<nat>, self: nat)
    ensures StrictlySorted(Squished(a, self))
    ensures forall x: nat :: x in Squished(a, self) <==> x in a && x != self
  {
    SquishedByProperties(IDS, a, self);
    var r := Squished(a, self);
    forall i, j | 0 <= i < j < |r| ensures r[i] < r[j] {
      SortedAt(IdLe, r, i, j);
      NoRepeatsAt(IdEq, r, i, j);
    }
    forall x: nat ensures x in r <==> x in a && x != self {
      if x in a && x != self { assert HasLeast(IdLe, IdEq, r, x); }
    }
  }
}
