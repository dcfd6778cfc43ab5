/**
 * The marking part of `defense::execute`
 * (src/ai_server/game/agent/defense.cc): choose the enemies worth marking,
 * rank them by their y coordinate, then hand each of them, best ranked
 * first, the nearest marker that is still free.
 *
 * The `std::unordered_map` of markers is iterated in an order the language
 * leaves open; here it is the order the marker ids were given in. Distances
 * are compared squared, which picks the same nearest marker.
 */
module DefenseMarking {
  import opened Geometry
  import opened World
  import opened Seqs
  import opened Sorting

  /** Enemies this close to the predicted ball are left to the walls. */
  const BallClearance: real := 1000.0
  /** Enemies beyond this x (deep in their own half) are not marked. */
  const MarkXLimit: real := 3000.0
  /** The marker of the best ranked enemy blocks the corner at this radius. */
  const CornerRadius: real := 600.0
  /** Every other marker blocks the shot at this radius. */
  const ShootRadius: real := 250.0

  /** The first loop's filter: far enough from the ball, and not too far up the field. */
  function Markable(ball: Vec): Robot -> bool {
    (e: Robot) => !(Within(ball, e.pos, BallClearance) || e.pos.x > MarkXLimit)
  }

  /** The enemies the marking considers, in the order vision lists them. */
  function MarkTargets(ball: Vec, enemies: seq<Robot>): (r: seq<Robot>)
    ensures |r| <= |enemies|
    ensures forall e :: e in r <==>
              e in enemies && !Within(ball, e.pos, BallClearance) && e.pos.x <= MarkXLimit
  {
    Filter(Markable(ball), enemies)
  }

  /**
   * The comparator of the first sort as a key: y ascending, or y descending
   * when the ball's y has its sign bit set (reals have no -0, so that is
   * `ball.y < 0`).
   */
  function PriorityKey(ball: Vec): Robot -> real {
    if ball.y < 0.0 then (e: Robot) => -e.pos.y else (e: Robot) => e.pos.y
  }

  /** The enemies in priority order: ordered by y towards the side the ball is on. */
  function Prioritize(ball: Vec, es: seq<Robot>): (r: seq<Robot>)
    ensures multiset(r) == multiset(es)
    ensures ball.y < 0.0 ==> forall i, j :: 0 <= i < j < |r| ==> r[j].pos.y <= r[i].pos.y
    ensures 0.0 <= ball.y ==> forall i, j :: 0 <= i < j < |r| ==> r[i].pos.y <= r[j].pos.y
  {
    var r := SortBy(es, PriorityKey(ball));
    assert forall i, j :: 0 <= i < j < |r| ==> PriorityKey(ball)(r[i]) <= PriorityKey(ball)(r[j]);
    r
  }

  /** An enemy with the score the ranking gave it. */
  datatype Ranked = Ranked(robot: Robot, score: nat)

  /** The scoring loop: `size` for the first enemy, counting down to 1 for the last. */
  function Rank(es: seq<Robot>): (r: seq<Ranked>)
    ensures |r| == |es|
    ensures forall i :: 0 <= i < |r| ==> r[i].robot == es[i]
    ensures forall i :: 0 <= i < |r| ==> 1 <= r[i].score <= |es|
    ensures forall i, j :: 0 <= i < j < |r| ==> r[j].score < r[i].score
  {
    if es == [] then [] else [Ranked(es[0], |es|)] + Rank(es[1..])
  }

  /** The comparator of the second sort, `a.score > b.score`, as a key. */
  function ScoreKey(e: Ranked): real { -(e.score as real) }

  /** The second sort, by descending score, gives back the ranking unchanged. */
  lemma ResortKeepsRanking(es: seq<Robot>)
    ensures SortBy(Rank(es), ScoreKey) == Rank(es)
  {
    var r := Rank(es);
    assert SortedBy(r, ScoreKey);
    SortSortedIsIdentity(r, ScoreKey);
  }

  /** The enemies to mark, best first. */
  function Ranking(ball: Vec, enemies: seq<Robot>): seq<Ranked> {
    SortBy(Rank(Prioritize(ball, MarkTargets(ball, enemies))), ScoreKey)
  }

  /** A marking robot that vision sees, with its position. */
  datatype Marker = Marker(id: nat, pos: Vec)

  function MarkerId(m: Marker): nat { m.id }

  /**
   * `mark_list`: one entry per marking id whose robot vision sees; a
   * repeated id is inserted once, as `unordered_map::insert` ignores a key
   * already present.
   */
  function MarkList(ids: seq<nat>, robots: seq<Robot>): (r: seq<Marker>)
    ensures forall i :: 0 <= i < |r| ==>
              Find(robots, r[i].id).Some? && Find(robots, r[i].id).value.pos == r[i].pos
    ensures forall id :: id in Map(MarkerId, r) <==> id in ids && Visible(robots, id)
    ensures forall i, j :: 0 <= i < j < |r| ==> r[i].id != r[j].id
  {
    if ids == [] then []
    else
      var init := ids[..|ids| - 1];
      var id := ids[|ids| - 1];
      var front := MarkList(init, robots);
      assert ids == init + [id];
      var r := if id !in init && Visible(robots, id) then front + [Marker(id, Find(robots, id).value.pos)] else front;
      assert Map(MarkerId, r) == Map(MarkerId, front) + (if r == front then [] else [id]);
      r
  }

  datatype MarkMode = CornerBlock | ShootBlock

  /** `mark_robot(enemy)` with the mode and radius set on the marker's action. */
  datatype Assignment = Assignment(marker: Marker, enemy: nat, mode: MarkMode, radius: real)

  /** The assignments made, and the markers left in `mark_list` afterwards. */
  datatype Matching = Matching(pairs: seq<Assignment>, left: seq<Marker>)

  function MarkersOf(ps: seq<Assignment>): (r: seq<Marker>)
    ensures |r| == |ps|
    ensures forall i :: 0 <= i < |ps| ==> r[i] == ps[i].marker
  {
    if ps == [] then [] else [ps[0].marker] + MarkersOf(ps[1..])
  }

  /** The enemy ids, in assignment order. */
  function EnemiesOf(ps: seq<Assignment>): (r: seq<nat>)
    ensures |r| == |ps|
  {
    if ps == [] then [] else [ps[0].enemy] + EnemiesOf(ps[1..])
  }

  /** The enemy ids, in ranking order. */
  function RankedIds(es: seq<Ranked>): (r: seq<nat>)
    ensures |r| == |es|
  {
    if es == [] then [] else [es[0].robot.id] + RankedIds(es[1..])
  }

  function Min(a: nat, b: nat): nat { if a <= b then a else b }

  /** How far marker `m` is from `p` by the measure `dist`: the key of the nearest-marker search. */
  function DistTo(dist: (Vec, Vec) -> real, p: Vec): Marker -> real {
    (m: Marker) => dist(p, m.pos)
  }

  /**
   * The greedy loop: each enemy in ranking order takes the nearest free
   * marker (the first of several equally near), until either list runs out.
   * `first` says whether the enemy at the head is the first of the ranking,
   * whose marker blocks the corner; every other marker blocks the shot.
   */
  function Assign(dist: (Vec, Vec) -> real, es: seq<Ranked>, markers: seq<Marker>, first: bool): (r: Matching)
    ensures |r.pairs| == Min(|es|, |markers|)
    ensures |r.left| == |markers| - |r.pairs|
    ensures EnemiesOf(r.pairs) == RankedIds(es)[..|r.pairs|]
    ensures forall i :: 0 <= i < |r.pairs| ==>
              if first && i == 0 then r.pairs[i].mode == CornerBlock && r.pairs[i].radius == CornerRadius
              else r.pairs[i].mode == ShootBlock && r.pairs[i].radius == ShootRadius
  {
    if es == [] || markers == [] then Matching([], markers)
    else
      var e := es[0].robot;
      var k := ArgMin(markers, DistTo(dist, e.pos));
      var a := if first then Assignment(markers[k], e.id, CornerBlock, CornerRadius)
               else Assignment(markers[k], e.id, ShootBlock, ShootRadius);
      var rest := Assign(dist, es[1..], RemoveAt(markers, k), false);
      var pairs := [a] + rest.pairs;
      assert pairs[1..] == rest.pairs;
      assert RankedIds(es)[..|pairs|] == [e.id] + RankedIds(es[1..])[..|rest.pairs|];
      Matching(pairs, rest.left)
  }

  /** The markers given out and the markers left over are the markers there were. */
  lemma {:induction false} AssignPermutes(dist: (Vec, Vec) -> real, es: seq<Ranked>, markers: seq<Marker>, first: bool)
    ensures var r := Assign(dist, es, markers, first);
            multiset(MarkersOf(r.pairs)) + multiset(r.left) == multiset(markers)
  {
    if es != [] && markers != [] {
      var r := Assign(dist, es, markers, first);
      var k := ArgMin(markers, DistTo(dist, es[0].robot.pos));
      var free := RemoveAt(markers, k);
      var rest := Assign(dist, es[1..], free, false);
      AssignPermutes(dist, es[1..], free, false);
      assert r.pairs == [r.pairs[0]] + rest.pairs && r.left == rest.left;
      assert MarkersOf(r.pairs) == [markers[k]] + MarkersOf(rest.pairs);
    }
  }

  /** Every marker given out or left over by the loop is one of the markers it started with. */
  lemma AssignDrawsFrom(dist: (Vec, Vec) -> real, es: seq<Ranked>, markers: seq<Marker>, first: bool, m: Marker)
    requires var r := Assign(dist, es, markers, first);
             m in r.left || m in MarkersOf(r.pairs)
    ensures m in markers
  {
    AssignPermutes(dist, es, markers, first);
    var r := Assign(dist, es, markers, first);
    assert m in multiset(MarkersOf(r.pairs)) + multiset(r.left);
  }

  /** The first enemy's marker is no farther from it than any marker given out later or left over. */
  lemma HeadNearest(dist: (Vec, Vec) -> real, es: seq<Ranked>, markers: seq<Marker>, first: bool, m: Marker)
    requires es != [] && markers != []
    requires var r := Assign(dist, es, markers, first);
             m in r.left || m in MarkersOf(r.pairs[1..])
    ensures var r := Assign(dist, es, markers, first);
            dist(es[0].robot.pos, r.pairs[0].marker.pos) <= dist(es[0].robot.pos, m.pos)
  {
    var r := Assign(dist, es, markers, first);
    var p := es[0].robot.pos;
    var k := ArgMin(markers, DistTo(dist, p));
    var free := RemoveAt(markers, k);
    assert r.pairs[1..] == Assign(dist, es[1..], free, false).pairs && r.left == Assign(dist, es[1..], free, false).left;
    AssignDrawsFrom(dist, es[1..], free, false, m);
    var j :| 0 <= j < |free| && free[j] == m;
    assert m == markers[if j < k then j else j + 1];
  }

  /** The marker enemy `i` is given is no farther from it than any marker left over. */
  lemma {:induction false} NearerThanLeft(dist: (Vec, Vec) -> real, es: seq<Ranked>, markers: seq<Marker>, first: bool, i: nat, m: Marker)
    requires i < |Assign(dist, es, markers, first).pairs|
    requires m in Assign(dist, es, markers, first).left
    ensures var a := Assign(dist, es, markers, first).pairs[i];
            dist(es[i].robot.pos, a.marker.pos) <= dist(es[i].robot.pos, m.pos)
    decreases i
  {
    if i == 0 {
      HeadNearest(dist, es, markers, first, m);
    } else {
      var r := Assign(dist, es, markers, first);
      var k := ArgMin(markers, DistTo(dist, es[0].robot.pos));
      var free := RemoveAt(markers, k);
      var rest := Assign(dist, es[1..], free, false);
      assert r.pairs[1..] == rest.pairs && r.left == rest.left;
      NearerThanLeft(dist, es[1..], free, false, i - 1, m);
      assert r.pairs[i] == rest.pairs[i - 1] && es[i] == es[1..][i - 1];
    }
  }

  /** The marker enemy `i` is given is no farther from it than the marker a later enemy `j` is given. */
  lemma {:induction false} NearerThanLater(dist: (Vec, Vec) -> real, es: seq<Ranked>, markers: seq<Marker>, first: bool, i: nat, j: nat)
    requires i < j < |Assign(dist, es, markers, first).pairs|
    ensures var r := Assign(dist, es, markers, first);
            dist(es[i].robot.pos, r.pairs[i].marker.pos) <= dist(es[i].robot.pos, r.pairs[j].marker.pos)
    decreases i
  {
    var r := Assign(dist, es, markers, first);
    if i == 0 {
      assert MarkersOf(r.pairs[1..])[j - 1] == r.pairs[j].marker;
      HeadNearest(dist, es, markers, first, r.pairs[j].marker);
    } else {
      var k := ArgMin(markers, DistTo(dist, es[0].robot.pos));
      var free := RemoveAt(markers, k);
      var rest := Assign(dist, es[1..], free, false);
      assert |r.pairs| == |rest.pairs| + 1;
      NearerThanLater(dist, es[1..], free, false, i - 1, j - 1);
      assert r.pairs[i] == rest.pairs[i - 1] && r.pairs[j] == rest.pairs[j - 1] && es[i] == es[1..][i - 1];
    }
  }

  /**
   * The greedy choice: the marker an enemy is given was, when it was given,
   * the nearest free one, so no marker left free and no marker given to a
   * later enemy is nearer to that enemy.
   */
  lemma AssignNearest(dist: (Vec, Vec) -> real, es: seq<Ranked>, markers: seq<Marker>, first: bool)
    ensures var r := Assign(dist, es, markers, first);
            forall i, m :: 0 <= i < |r.pairs| && m in r.left ==>
              dist(es[i].robot.pos, r.pairs[i].marker.pos) <= dist(es[i].robot.pos, m.pos)
    ensures var r := Assign(dist, es, markers, first);
            forall i, j :: 0 <= i < j < |r.pairs| ==>
              dist(es[i].robot.pos, r.pairs[i].marker.pos) <= dist(es[i].robot.pos, r.pairs[j].marker.pos)
  {
    var r := Assign(dist, es, markers, first);
    forall i, m | 0 <= i < |r.pairs| && m in r.left
      ensures dist(es[i].robot.pos, r.pairs[i].marker.pos) <= dist(es[i].robot.pos, m.pos)
    {
      NearerThanLeft(dist, es, markers, first, i, m);
    }
    forall i, j | 0 <= i < j < |r.pairs|
      ensures dist(es[i].robot.pos, r.pairs[i].marker.pos) <= dist(es[i].robot.pos, r.pairs[j].marker.pos)
    {
      NearerThanLater(dist, es, markers, first, i, j);
    }
  }

  /** Markers with distinct ids: as `mark_list` is keyed by id. */
  ghost predicate DistinctIds(ms: seq<Marker>) {
    forall i, j :: 0 <= i < j < |ms| ==> ms[i].id != ms[j].id
  }

  /** No marker is given two enemies, and none is both given one and left free. */
  lemma AssignNoMarkerTwice(dist: (Vec, Vec) -> real, es: seq<Ranked>, markers: seq<Marker>, first: bool)
    requires DistinctIds(markers)
    ensures var r := Assign(dist, es, markers, first);
            DistinctIds(MarkersOf(r.pairs) + r.left)
  {
    var r := Assign(dist, es, markers, first);
    var s := MarkersOf(r.pairs) + r.left;
    AssignPermutes(dist, es, markers, first);
    assert multiset(s) == multiset(markers);
    NoDupPermutation(markers, s);
    forall i, j | 0 <= i < j < |s|
      ensures s[i].id != s[j].id
    {
      assert s[i] in multiset(markers) && s[j] in multiset(markers);
    }
  }

  /**
   * The whole marking step: rank the enemies, then assign the markers vision
   * sees greedily by (squared) distance.
   */
  function MarkPlan(ball: Vec, enemies: seq<Robot>, markingIds: seq<nat>, allies: seq<Robot>): Matching {
    Assign(SqDist, Ranking(ball, enemies), MarkList(markingIds, allies), true)
  }

  /** A marker left over carries an id of the markers there were, and not one given out. */
  lemma LeftIdIsFree(markers: seq<Marker>, given: seq<Marker>, left: seq<Marker>, id: nat)
    requires multiset(given) + multiset(left) == multiset(markers)
    requires DistinctIds(given + left)
    requires id in Map(MarkerId, left)
    ensures id in Map(MarkerId, markers) && id !in Map(MarkerId, given)
  {
    var s := given + left;
    var k :| 0 <= k < |left| && Map(MarkerId, left)[k] == id;
    assert s[|given| + k] == left[k];
    assert left[k] in multiset(markers);
    var j :| 0 <= j < |markers| && markers[j] == left[k];
    assert Map(MarkerId, markers)[j] == id;
    forall i | 0 <= i < |given|
      ensures Map(MarkerId, given)[i] != id
    {
      assert s[i] == given[i];
      assert s[i].id != s[|given| + k].id;
    }
  }

  /** A marker not given out is left over. */
  lemma FreeIdIsLeft(markers: seq<Marker>, given: seq<Marker>, left: seq<Marker>, id: nat)
    requires multiset(given) + multiset(left) == multiset(markers)
    requires id in Map(MarkerId, markers) && id !in Map(MarkerId, given)
    ensures id in Map(MarkerId, left)
  {
    var s := given + left;
    var j :| 0 <= j < |markers| && Map(MarkerId, markers)[j] == id;
    assert markers[j] in multiset(s);
    var i :| 0 <= i < |s| && s[i] == markers[j];
    if i < |given| {
      assert false;
    } else {
      assert Map(MarkerId, left)[i - |given|] == id;
    }
  }

  /**
   * The ids `marking_ids()` reports afterwards: exactly the marking robots
   * vision sees that were not given an enemy.
   */
  lemma MarkPlanLeftover(ball: Vec, enemies: seq<Robot>, markingIds: seq<nat>, allies: seq<Robot>)
    ensures var plan := MarkPlan(ball, enemies, markingIds, allies);
            forall id :: id in Map(MarkerId, plan.left) <==>
              id in markingIds && Visible(allies, id) && id !in Map(MarkerId, MarkersOf(plan.pairs))
  {
    var markers := MarkList(markingIds, allies);
    var es := Ranking(ball, enemies);
    var plan := Assign(SqDist, es, markers, true);
    AssignPermutes(SqDist, es, markers, true);
    AssignNoMarkerTwice(SqDist, es, markers, true);
    forall id
      ensures id in Map(MarkerId, plan.left) <==>
                id in Map(MarkerId, markers) && id !in Map(MarkerId, MarkersOf(plan.pairs))
    {
      if id in Map(MarkerId, plan.left) {
        LeftIdIsFree(markers, MarkersOf(plan.pairs), plan.left, id);
      }
      if id in Map(MarkerId, markers) && id !in Map(MarkerId, MarkersOf(plan.pairs)) {
        FreeIdIsLeft(markers, MarkersOf(plan.pairs), plan.left, id);
      }
    }
  }
}
