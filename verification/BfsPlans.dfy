module BfsPlans {
  // Which levels a direction-optimizing search builds from the visited side and
  // which from the unvisited one: its two heuristics, read off the distances.

  import opened Components
  import opened Layers
  import opened BfsTrees
  import EdgeCounts

  // C's division, which truncates towards zero: the rest is smaller than the
  // divisor and has the sign of the dividend.
  function TruncDiv(a: int, b: int): (r: int)
    requires b != 0
    ensures var rest := a - b * r;
      (if b > 0 then -b < rest < b else b < rest < -b) && (if a >= 0 then rest >= 0 else rest <= 0)
  {
    if a >= 0 then a / b else -((-a) / b)
  }

  lemma AboveQuotient(n: nat, beta: int, x: int)
    requires beta > 0
    ensures x > TruncDiv(n, beta) <==> n < beta * x
  {
    var q := TruncDiv(n, beta);
    if x > q {
      assert beta * x >= beta * (q + 1) == beta * q + beta;
    } else {
      assert beta * x <= beta * q;
    }
  }

  ghost function Level(depth: seq<int>, l: nat): set<nat> {
    set v: nat | v < |depth| && depth[v] == l
  }

  // Row lengths of the members below k, with 1 for an empty row.
  ghost function Weight(g: Graph, level: set<nat>, k: nat): nat {
    if k == 0 then 0 else Weight(g, level, k - 1) + if k - 1 in level then RowWeight(g, k - 1) else 0
  }

  // After the bottom-up step that built level l the next step is bottom-up too.
  ghost predicate StaysUp(g: Graph, beta: int, depth: seq<int>, l: nat) {
    l > 0 && (|Level(depth, l)| >= |Level(depth, l - 1)| || g.N() < beta * |Level(depth, l)|)
  }

  // What the loop holds before it looks at a level.
  datatype Stage = Stage(level: nat, edges: int, scout: int)

  // Bottom-up steps from level a end at b, the first level that is small and shrinking.
  ghost predicate Climbed(g: Graph, beta: int, depth: seq<int>, a: nat, b: nat) {
    a < b && (forall l: nat | a < l < b :: StaysUp(g, beta, depth, l)) && !StaysUp(g, beta, depth, b)
  }

  // One round: bottom-up steps, or one level top-down.
  ghost predicate Follows(g: Graph, alpha: int, beta: int, depth: seq<int>, a: Stage, b: Stage)
    requires alpha != 0
  {
    if a.scout > TruncDiv(a.edges, alpha) then
      b.edges == a.edges && b.scout == 1 && Climbed(g, beta, depth, a.level, b.level)
    else
      && b.edges == a.edges - a.scout && b.level == a.level + 1
      && b.scout == Weight(g, Level(depth, b.level), g.N())
  }

  ghost predicate StartsPlan(g: Graph, s: nat, alpha: int, beta: int, depth: seq<int>, plan: seq<Stage>)
    requires alpha != 0 && s < g.N()
  {
    && plan != [] && plan[0] == Stage(0, EdgeCounts.NumEdgesDirected(g), |g.outs[s]|)
    && forall i: nat | i + 1 < |plan| ::
      Level(depth, plan[i].level) != {} && Follows(g, alpha, beta, depth, plan[i], plan[i + 1])
  }

  // The rounds of a whole search; the level after the last one is empty.
  ghost predicate IsPlan(g: Graph, s: nat, alpha: int, beta: int, depth: seq<int>, plan: seq<Stage>)
    requires alpha != 0 && s < g.N()
  {
    StartsPlan(g, s, alpha, beta, depth, plan) && Level(depth, plan[|plan| - 1].level) == {}
  }

  lemma FollowsOnce(g: Graph, alpha: int, beta: int, depth: seq<int>, a: Stage, b: Stage, b': Stage)
    requires alpha != 0 && Follows(g, alpha, beta, depth, a, b) && Follows(g, alpha, beta, depth, a, b')
    ensures b == b'
  {
  }

  lemma {:induction false} PlanPrefix(g: Graph, s: nat, alpha: int, beta: int, depth: seq<int>, plan: seq<Stage>,
                                      plan': seq<Stage>, i: nat)
    requires alpha != 0 && s < g.N() && i < |plan| && i < |plan'|
    requires StartsPlan(g, s, alpha, beta, depth, plan) && StartsPlan(g, s, alpha, beta, depth, plan')
    ensures plan[i] == plan'[i]
  {
    if i > 0 {
      PlanPrefix(g, s, alpha, beta, depth, plan, plan', i - 1);
      assert Follows(g, alpha, beta, depth, plan[i - 1], plan[i - 1 + 1]);
      assert Follows(g, alpha, beta, depth, plan'[i - 1], plan'[i - 1 + 1]);
      FollowsOnce(g, alpha, beta, depth, plan[i - 1], plan[i], plan'[i]);
    }
  }

  // The graph, the source and the two parameters decide every direction.
  lemma PlanUnique(g: Graph, s: nat, alpha: int, beta: int, depth: seq<int>, plan: seq<Stage>, plan': seq<Stage>)
    requires alpha != 0 && s < g.N()
    requires IsPlan(g, s, alpha, beta, depth, plan) && IsPlan(g, s, alpha, beta, depth, plan')
    ensures plan == plan'
  {
    hide Follows;
    forall i: nat | i < |plan| && i < |plan'| ensures plan[i] == plan'[i] {
      PlanPrefix(g, s, alpha, beta, depth, plan, plan', i);
    }
  }

  // ------------------------------------------------------- while the search goes on

  // Later distances agree on the levels up to `level`.
  ghost predicate SameBelow(before: seq<int>, after: seq<int>, level: int) {
    && |before| == |after|
    && forall v: nat | v < |before| && (0 <= before[v] <= level || 0 <= after[v] <= level) :: before[v] == after[v]
  }

  lemma NextSameBelow(g: Graph, depth: seq<int>, level: nat)
    requires g.Valid() && |depth| == g.N()
    ensures SameBelow(depth, Next(g, depth, level), level)
  {
  }

  lemma LevelStays(before: seq<int>, after: seq<int>, level: int, l: nat)
    requires SameBelow(before, after, level) && l <= level
    ensures Level(before, l) == Level(after, l)
  {
  }

  lemma FollowsStays(g: Graph, alpha: int, beta: int, before: seq<int>, after: seq<int>, a: Stage, b: Stage)
    requires alpha != 0 && SameBelow(before, after, b.level) && Follows(g, alpha, beta, before, a, b)
    ensures Follows(g, alpha, beta, after, a, b)
  {
    forall l: nat | l <= b.level ensures Level(before, l) == Level(after, l) {
      LevelStays(before, after, b.level, l);
    }
    forall l: nat | l <= b.level ensures StaysUp(g, beta, before, l) <==> StaysUp(g, beta, after, l) {
      if l > 0 { LevelStays(before, after, b.level, l - 1); }
    }
  }

  lemma {:induction false} LevelsGrow(g: Graph, s: nat, alpha: int, beta: int, depth: seq<int>, plan: seq<Stage>,
                                      i: nat, k: nat)
    requires alpha != 0 && s < g.N() && StartsPlan(g, s, alpha, beta, depth, plan) && i <= k < |plan|
    ensures plan[i].level <= plan[k].level
    decreases k
  {
    if i < k {
      LevelsGrow(g, s, alpha, beta, depth, plan, i, k - 1);
      assert Follows(g, alpha, beta, depth, plan[k - 1], plan[k - 1 + 1]);
    }
  }

  lemma PlanStarts(g: Graph, s: nat, alpha: int, beta: int, depth: seq<int>)
    requires alpha != 0 && s < g.N()
    ensures StartsPlan(g, s, alpha, beta, depth, [Stage(0, EdgeCounts.NumEdgesDirected(g), |g.outs[s]|)])
  {
  }

  // One more round.
  lemma PlanNext(g: Graph, s: nat, alpha: int, beta: int, before: seq<int>, after: seq<int>, plan: seq<Stage>, b: Stage)
    requires alpha != 0 && s < g.N() && StartsPlan(g, s, alpha, beta, before, plan)
    requires var a := plan[|plan| - 1];
      SameBelow(before, after, a.level) && Level(before, a.level) != {} && Follows(g, alpha, beta, after, a, b)
    ensures StartsPlan(g, s, alpha, beta, after, plan + [b])
  {
    hide Follows, Level;
    var last := |plan| - 1;
    forall i: nat | i + 1 < |plan + [b]|
      ensures Level(after, plan[i].level) != {} && Follows(g, alpha, beta, after, plan[i], (plan + [b])[i + 1])
    {
      LevelsGrow(g, s, alpha, beta, before, plan, i, last);
      LevelStays(before, after, plan[last].level, plan[i].level);
      if i < last {
        LevelsGrow(g, s, alpha, beta, before, plan, i + 1, last);
        assert SameBelow(before, after, plan[i + 1].level);
        FollowsStays(g, alpha, beta, before, after, plan[i], plan[i + 1]);
      }
    }
  }

  // ------------------------------------------------------------ lists of a level

  lemma {:induction false} WeightAppend(g: Graph, level: set<nat>, v: nat, k: nat)
    requires v !in level
    ensures Weight(g, level + {v}, k) == Weight(g, level, k) + if v < k then RowWeight(g, v) else 0
  {
    if k > 0 { WeightAppend(g, level, v, k - 1); }
  }

  lemma {:induction false} WeightNone(g: Graph, k: nat)
    ensures Weight(g, {}, k) == 0
  {
    if k > 0 { WeightNone(g, k - 1); }
  }

  ghost function Members(list: seq<nat>): set<nat> { set v: nat | v in list }

  // The size and the sum of degrees do not depend on the order of the list.
  lemma {:induction false} ListedOnce(g: Graph, list: seq<nat>)
    requires forall i, j | 0 <= i < j < |list| :: list[i] != list[j]
    requires forall v | v in list :: v < g.N()
    ensures |list| == |Members(list)| && DegreeSum(g, list) == Weight(g, Members(list), g.N())
  {
    if list == [] {
      assert Members(list) == {};
      WeightNone(g, g.N());
    } else {
      var m := |list| - 1;
      var before, v := list[..m], list[m];
      assert list == before + [v] && v in list;
      forall x | x in before ensures x < g.N() { assert x in list; }
      assert v !in before;
      ListedOnce(g, before);
      assert Members(list) == Members(before) + {v};
      WeightAppend(g, Members(before), v, g.N());
    }
  }

  lemma ListedLevel(g: Graph, depth: seq<int>, level: nat, window: seq<nat>)
    requires ListsLevel(g, depth, level, window)
    requires forall i, j | 0 <= i < j < |window| :: window[i] != window[j]
    ensures |window| == |Level(depth, level)| && DegreeSum(g, window) == Weight(g, Level(depth, level), g.N())
  {
    ListedOnce(g, window);
    assert Members(window) == Level(depth, level);
  }

  // ------------------------------------------------------- the bottom-up steps

  // From level0 on, steps were bottom-up and went on as the heuristic says;
  // `again` is what it says after the last one.
  ghost predicate Climbs(g: Graph, beta: int, depth0: seq<int>, level0: nat, depth: seq<int>, level: nat, again: bool,
                         awake: int)
  {
    && SameBelow(depth0, depth, level0) && level0 <= level && awake == |Level(depth, level)|
    && (forall l: nat | level0 < l < level :: StaysUp(g, beta, depth, l))
    && (level0 < level ==> (again <==> StaysUp(g, beta, depth, level)))
  }

  lemma ClimbStep(g: Graph, beta: int, depth0: seq<int>, level0: nat, depth: seq<int>, level: nat, next: seq<int>,
                  again: bool, awake: int, old': int)
    requires Climbs(g, beta, depth0, level0, depth, level, true, old') && SameBelow(depth, next, level)
    requires awake == |Level(next, level + 1)|
    requires again <==> awake >= old' || g.N() < beta * awake
    ensures Climbs(g, beta, depth0, level0, next, level + 1, again, awake)
  {
    hide Level;
    forall l: nat | l <= level ensures Level(depth, l) == Level(next, l) { LevelStays(depth, next, level, l); }
    forall l: nat | level0 < l <= level ensures StaysUp(g, beta, next, l) { assert StaysUp(g, beta, depth, l); }
  }

  lemma ClimbEnd(g: Graph, beta: int, depth0: seq<int>, level0: nat, depth: seq<int>, level: nat, awake: int)
    requires Climbs(g, beta, depth0, level0, depth, level, false, awake) && level0 < level
    ensures SameBelow(depth0, depth, level0) && Climbed(g, beta, depth, level0, level)
  {
  }
}
