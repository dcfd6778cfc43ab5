/**
 * The defence tactic (src/ai_server/game/agent/defense.cc): a keeper, a wall
 * of robots in front of our goal, and marking robots. Each call of
 * `execute` reads one vision snapshot and answers the list of actions to
 * run, in a fixed shape: the wall robots (one of them possibly sent to clear
 * the ball), then the marking robots, then the keeper.
 *
 * The actions are objects the tactic keeps between calls; here an action is
 * named by its kind and robot id (`Act`), and what `execute` sets on the
 * actions during one call is returned as `Orders`.
 */
module Defense {
  import opened Geometry
  import opened World
  import opened Optional
  import opened Seqs
  import opened Sorting
  import opened DefenseSetting
  import opened DefenseWall
  import opened DefenseMarking
  import opened DefenseKeeper

  /** A ball slower than this is remembered as the ball the keeper decides on. */
  const MemorySpeed: real := 150.0
  /** The ball is predicted this many seconds ahead. */
  const Lookahead: real := 0.5
  /** A wall robot clears a ball closer to the goal than this ... */
  const ClearFar: real := 2000.0
  /** ... but farther than this ... */
  const ClearNear: real := 1400.0
  /** ... slower than this ... */
  const ClearSlow: real := 200.0
  /** ... in front of this x ... */
  const ClearLine: real := -4000.0
  /** ... and farther than this from the enemy nearest to the predicted ball. */
  const EnemyClearance: real := 300.0

  /** What vision reports in one frame. */
  datatype Snapshot = Snapshot(field: Field, ballPos: Vec, ballVel: Vec, allies: seq<Robot>, enemies: seq<Robot>)

  /** The kind of an action: `guard`, `get_ball` or `marking`. */
  datatype Role = Guard | GetBall | Mark

  datatype Act = Act(role: Role, id: nat)

  function GuardOf(id: nat): Act { Act(Guard, id) }

  function MarkOf(id: nat): Act { Act(Mark, id) }

  /**
   * The tactic's state between calls: the robots it commands, the order its
   * wall actions are in (the wall is sorted in place every call), the
   * marking ids reported back, the mode, and the remembered ball.
   */
  datatype Defense = Defense(
    keeperId: nat,
    wallIds: seq<nat>,
    walls: seq<nat>,
    markingIds: seq<nat>,
    markingIdsRe: seq<nat>,
    mode: Mode,
    ball: Vec)

  /** The wall actions are always the wall ids, in some order. */
  ghost predicate Valid(d: Defense) {
    multiset(d.walls) == multiset(d.wallIds)
  }

  /** Both constructors: the two-argument one passes no marking ids. */
  function New(keeperId: nat, wallIds: seq<nat>, markingIds: seq<nat>): (d: Defense)
    ensures Valid(d)
    ensures d.keeperId == keeperId && d.wallIds == wallIds && d.walls == wallIds
    ensures d.markingIds == markingIds
    ensures d.mode == NormalMode && d.ball == Origin && MarkingIds(d) == []
  {
    Defense(keeperId, wallIds, wallIds, markingIds, [], NormalMode, Origin)
  }

  /** `set_mode`: only the mode changes. */
  function SetMode(d: Defense, m: Mode): (r: Defense)
    ensures r.mode == m
    ensures r.(mode := d.mode) == d
  {
    d.(mode := m)
  }

  /** `marking_ids`: the marking robots the last marking step left without an enemy. */
  function MarkingIds(d: Defense): seq<nat> {
    d.markingIdsRe
  }

  /** The ball the keeper decides on: the ball itself when slow, otherwise the one remembered. */
  function Remember(d: Defense, w: Snapshot): Vec {
    if Slower(w.ballVel, MemorySpeed) then w.ballPos else d.ball
  }

  /** The ball is behind either goal line. */
  predicate OutOfField(w: Snapshot) {
    w.ballPos.x < w.field.xMin || w.ballPos.x > w.field.xMax
  }

  /**
   * Sorting the wall looks up every wall robot with `at`, which throws for
   * a robot vision does not see; with fewer than two walls nothing is
   * compared.
   */
  predicate LostWall(d: Defense, w: Snapshot) {
    |d.walls| >= 2 && exists i :: 0 <= i < |d.walls| && !Visible(w.allies, d.walls[i])
  }

  /** The centre of our goal. */
  function GoalOf(f: Field): Vec { Vec(f.xMin, 0.0) }

  /** Where the ball will be half a second from now. */
  function Predicted(w: Snapshot): Vec { Add(w.ballPos, Scale(Lookahead, w.ballVel)) }

  /** The angle about the goal of the robot `id`: the key the wall is sorted by. */
  function AngleOf(geo: Geo, goal: Vec, allies: seq<Robot>): nat -> real {
    (id: nat) => match Find(allies, id)
                 case Some(rb) => geo.angle(goal, rb.pos)
                 case None => 0.0
  }

  /** The angle about the goal of a point: the key the wall's targets are sorted by. */
  function TargetAngle(geo: Geo, goal: Vec): Vec -> real {
    (p: Vec) => geo.angle(goal, p)
  }

  /** How far the robot `id` is from `p`: the key of the search for the clearing robot. */
  function AllyDist(allies: seq<Robot>, p: Vec): nat -> real {
    (id: nat) => match Find(allies, id)
                 case Some(rb) => SqDist(rb.pos, p)
                 case None => 0.0
  }

  /** The wall's target points, sorted by their angle about the goal. */
  function WallPoints(geo: Geo, goal: Vec, ball: Vec, orient: Vec, nWalls: nat): (r: seq<Vec>)
    ensures |r| == nWalls
    ensures SortedBy(r, TargetAngle(geo, goal))
    ensures multiset(r) == multiset(WallTargets(geo.iso, ball, orient, nWalls, Within(ball, goal, Demarcation)))
  {
    var t := WallTargets(geo.iso, ball, orient, nWalls, Within(ball, goal, Demarcation));
    var r := SortBy(t, TargetAngle(geo, goal));
    assert |r| == |multiset(r)| == |multiset(t)| == |t|;
    r
  }

  /** What one wall robot is told: where to go, if vision sees it. */
  datatype WallOrder = WallOrder(id: nat, move: Option<Vec>)

  /** The wall loop: the `i`-th wall robot in angle order goes for the `i`-th target in angle order. */
  function WallOrders(goal: Vec, field: Field, allies: seq<Robot>, walls: seq<nat>, targets: seq<Vec>): (r: seq<WallOrder>)
    requires |walls| == |targets|
    ensures |r| == |walls|
    ensures forall i :: 0 <= i < |r| ==>
              r[i].id == walls[i] && r[i].move == WallMove(goal, field, Find(allies, walls[i]), targets[i])
  {
    if walls == [] then []
    else [WallOrder(walls[0], WallMove(goal, field, Find(allies, walls[0]), targets[0]))]
         + WallOrders(goal, field, allies, walls[1..], targets[1..])
  }

  /** The ball is worth clearing, judged against the enemy `shooter` nearest to it. */
  predicate ClearChance(goal: Vec, ballPos: Vec, vel: Vec, shooter: Vec) {
    && Within(goal, ballPos, ClearFar)
    && Beyond(goal, ballPos, ClearNear)
    && Slower(vel, ClearSlow)
    && ballPos.x > ClearLine
    && Beyond(ballPos, shooter, EnemyClearance)
  }

  /** The enemy nearest to the predicted ball. */
  function Shooter(w: Snapshot): Robot
    requires w.enemies != []
  {
    w.enemies[ArgMin(w.enemies, RobotDist(Predicted(w)))]
  }

  /** Whether a wall robot leaves the wall to clear the ball. */
  predicate Clears(d: Defense, w: Snapshot) {
    && d.wallIds != []
    && d.mode != StopMode
    && w.enemies != []
    && ClearChance(GoalOf(w.field), w.ballPos, w.ballVel, Shooter(w).pos)
  }

  /** One `get_ball` action per entry of the wall ids equal to `id`. */
  function GetBalls(ids: seq<nat>, id: nat): (r: seq<Act>)
    ensures |r| == multiset(ids)[id]
    ensures forall i :: 0 <= i < |r| ==> r[i] == Act(GetBall, id)
  {
    if ids == [] then []
    else
      assert ids == [ids[0]] + ids[1..];
      (if ids[0] == id then [Act(GetBall, id)] else []) + GetBalls(ids[1..], id)
  }

  /**
   * The wall's actions after the clearing step: the wall robot nearest to
   * the predicted ball is taken out of the wall and its `get_ball` actions
   * go to the end.
   */
  function WallActs(d: Defense, w: Snapshot, walls: seq<nat>): (r: seq<Act>)
    requires |walls| == |d.wallIds|
  {
    if Clears(d, w) then
      var k := ArgMin(walls, AllyDist(w.allies, Predicted(w)));
      RemoveAt(Map(GuardOf, walls), k) + GetBalls(d.wallIds, walls[k])
    else Map(GuardOf, walls)
  }

  /** The marking step, which runs only when there are marking robots. */
  function Marking(d: Defense, w: Snapshot): Option<Matching> {
    if d.markingIds == [] then None
    else Some(MarkPlan(Predicted(w), w.enemies, d.markingIds, w.allies))
  }

  /** `marking_ids_re_` after the marking step: the markers left free, or as it was. */
  function Leftover(d: Defense, plan: Option<Matching>): seq<nat> {
    match plan
    case None => d.markingIdsRe
    case Some(m) => Map(MarkerId, m.left)
  }

  /** The keeper's action: `get_ball` when it clears, `guard` otherwise. */
  function KeeperAct(id: nat, k: KeeperPlan): Act {
    Act(if k.clear then GetBall else Guard, id)
  }

  /** What `execute` sets on the wall, marking and keeper actions during one call. */
  datatype Orders = Orders(walls: seq<WallOrder>, wallKick: KickFlag, marking: Option<Matching>, keeper: KeeperPlan)

  /**
   * The three ways a call ends: with the ball out of the field every
   * action is halted; an invisible wall robot makes the sort throw;
   * otherwise the actions are answered with their orders.
   */
  datatype Outcome =
    | Halted(d: Defense, acts: seq<Act>)
    | Done(d: Defense, acts: seq<Act>, orders: Orders)
    | Thrown

  /** The answer of a call that gets past the early exits: the wall, then the marking robots, then the keeper. */
  function Answer(d: Defense, w: Snapshot, walls: seq<nat>, keeper: KeeperPlan): seq<Act>
    requires |walls| == |d.wallIds|
  {
    WallActs(d, w, walls) + Map(MarkOf, d.markingIds) + [KeeperAct(d.keeperId, keeper)]
  }

  /** The part of `execute` after the ball is known to be in the field; `d.ball` is already updated. */
  function Play(d: Defense, geo: Geo, w: Snapshot): (r: Outcome)
    requires Valid(d)
    ensures r.Done?
    ensures Valid(r.d)
    ensures r.d == d.(walls := r.d.walls, markingIdsRe := r.d.markingIdsRe)
  {
    var goal := GoalOf(w.field);
    var ball := Predicted(w);
    var orient := geo.basePoint(goal, ball);
    var targets := WallPoints(geo, goal, ball, orient, |d.walls|);
    var walls := SortBy(d.walls, AngleOf(geo, goal, w.allies));
    assert |walls| == |multiset(walls)| == |multiset(d.wallIds)| == |d.wallIds|;
    var plan := Marking(d, w);
    var keeper := Keeper(d.mode, geo, goal, d.ball, ball, w.ballPos, orient, w.ballVel, w.enemies);
    Done(d.(walls := walls, markingIdsRe := Leftover(d, plan)),
         Answer(d, w, walls, keeper),
         Orders(WallOrders(goal, w.field, w.allies, walls, targets), WallKick(d.mode), plan, keeper))
  }

  /**
   * `defense::execute`. The ball is remembered first, whatever happens
   * next; a ball out of the field halts the wall and the keeper; otherwise
   * the call either throws or answers every action.
   */
  function Execute(d: Defense, geo: Geo, w: Snapshot): (r: Outcome)
    requires Valid(d)
    ensures r.Halted? <==> OutOfField(w)
    ensures r.Thrown? <==> !OutOfField(w) && LostWall(d, w)
    ensures r.Halted? ==> r.d == d.(ball := Remember(d, w))
                          && r.acts == Map(GuardOf, d.walls) + [GuardOf(d.keeperId)]
    ensures r.Done? ==> Valid(r.d) && r.d.ball == Remember(d, w)
    ensures r.Done? ==> r.d == d.(walls := r.d.walls, markingIdsRe := r.d.markingIdsRe, ball := r.d.ball)
  {
    var d1 := d.(ball := Remember(d, w));
    if OutOfField(w) then Halted(d1, Map(GuardOf, d.walls) + [GuardOf(d.keeperId)])
    else if LostWall(d, w) then Thrown
    else Play(d1, geo, w)
  }

  /** The wall's actions in an answer: everything before the marking and keeper actions. */
  function WallPart(d: Defense, acts: seq<Act>): seq<Act> {
    if |d.markingIds| + 1 <= |acts| then acts[..|acts| - |d.markingIds| - 1] else []
  }

  /** How an answer splits: the wall's actions, the marking actions, the keeper's action. */
  lemma AnswerParts(d: Defense, w: Snapshot, walls: seq<nat>, keeper: KeeperPlan)
    requires |walls| == |d.wallIds|
    ensures var a := Answer(d, w, walls, keeper);
            && |a| == |WallActs(d, w, walls)| + |d.markingIds| + 1
            && WallPart(d, a) == WallActs(d, w, walls)
            && a[|a| - |d.markingIds| - 1 .. |a| - 1] == Map(MarkOf, d.markingIds)
            && a[|a| - 1] == KeeperAct(d.keeperId, keeper)
  {
    var wallActs := WallActs(d, w, walls);
    var marks := Map(MarkOf, d.markingIds);
    var a := Answer(d, w, walls, keeper);
    assert a == wallActs + marks + [KeeperAct(d.keeperId, keeper)];
    TakeConcat(wallActs, marks, [KeeperAct(d.keeperId, keeper)]);
    assert a[|wallActs| .. |a| - 1] == marks;
  }

  /** A call that gets past the early exits answers `Answer` for the re-sorted wall and the keeper's plan. */
  lemma ExecuteAnswer(d: Defense, geo: Geo, w: Snapshot)
    requires Valid(d)
    ensures var r := Execute(d, geo, w);
            r.Done? ==>
              && |r.d.walls| == |d.wallIds|
              && r.acts == Answer(d.(ball := Remember(d, w)), w, r.d.walls, r.orders.keeper)
              && (r.orders.keeper.clear <==> ClearsBall(d.mode, GoalOf(w.field), Remember(d, w), w.ballVel))
              && r.orders.wallKick == WallKick(d.mode)
  {
    var r := Execute(d, geo, w);
    if r.Done? {
      assert |r.d.walls| == |multiset(r.d.walls)| == |multiset(d.wallIds)| == |d.wallIds|;
    }
  }

  /**
   * An answer ends with every marking action, in the order the marking ids
   * were given, and then the keeper, whose action is `get_ball` exactly
   * when the remembered ball is worth clearing.
   */
  lemma ExecuteAnswerShape(d: Defense, geo: Geo, w: Snapshot)
    requires Valid(d)
    ensures var r := Execute(d, geo, w);
            r.Done? ==>
              && |r.acts| >= |d.markingIds| + 1
              && r.acts[|r.acts| - |d.markingIds| - 1 .. |r.acts| - 1] == Map(MarkOf, d.markingIds)
              && r.acts[|r.acts| - 1]
                 == Act(if ClearsBall(d.mode, GoalOf(w.field), Remember(d, w), w.ballVel) then GetBall else Guard, d.keeperId)
  {
    var r := Execute(d, geo, w);
    if r.Done? {
      ExecuteAnswer(d, geo, w);
      AnswerParts(d.(ball := Remember(d, w)), w, r.d.walls, r.orders.keeper);
    }
  }

  /** The wall part of an answer is what the clearing step makes of the re-sorted wall. */
  lemma ExecuteWallPart(d: Defense, geo: Geo, w: Snapshot)
    requires Valid(d)
    ensures var r := Execute(d, geo, w);
            r.Done? ==>
              && |r.d.walls| == |d.wallIds|
              && WallPart(d, r.acts) == WallActs(d.(ball := Remember(d, w)), w, r.d.walls)
  {
    var r := Execute(d, geo, w);
    if r.Done? {
      var d1 := d.(ball := Remember(d, w));
      ExecuteAnswer(d, geo, w);
      AnswerParts(d1, w, r.d.walls, r.orders.keeper);
      assert WallPart(d, r.acts) == WallPart(d1, r.acts);
    }
  }

  /** When no wall robot clears, the wall part is one `guard` per wall robot, in angle order. */
  lemma ExecuteWallGuards(d: Defense, geo: Geo, w: Snapshot)
    requires Valid(d)
    requires !Clears(d, w)
    ensures var r := Execute(d, geo, w);
            r.Done? ==> WallPart(d, r.acts) == Map(GuardOf, r.d.walls)
  {
    ExecuteWallPart(d, geo, w);
    var d1 := d.(ball := Remember(d, w));
    assert Clears(d1, w) == Clears(d, w);
  }

  /**
   * `part` is the wall's part of an answer in which wall robot `walls[k]`,
   * the first of the ones nearest by `dist`, went for the ball: the other
   * robots' guards in order, then its `get_ball` once per time its id is
   * among `ids`.
   */
  ghost predicate ClearedBy(part: seq<Act>, walls: seq<nat>, ids: seq<nat>, dist: nat -> real) {
    exists k :: 0 <= k < |walls|
      && (forall j :: 0 <= j < |walls| ==> dist(walls[k]) <= dist(walls[j]))
      && (forall j :: 0 <= j < k ==> dist(walls[k]) < dist(walls[j]))
      && |part| == |walls| - 1 + multiset(ids)[walls[k]]
      && part[..|walls| - 1] == RemoveAt(Map(GuardOf, walls), k)
      && (forall i :: |walls| - 1 <= i < |part| ==> part[i] == Act(GetBall, walls[k]))
  }

  /**
   * The clearing step on its own: the first wall robot nearest to the
   * predicted ball has its `guard` taken out, the others keep their order,
   * and its `get_ball` actions follow.
   */
  lemma WallActsClear(d: Defense, w: Snapshot, walls: seq<nat>)
    requires |walls| == |d.wallIds|
    requires Clears(d, w)
    ensures var part := WallActs(d, w, walls);
            ClearedBy(part, walls, d.wallIds, AllyDist(w.allies, Predicted(w)))
  {
    var k := ArgMin(walls, AllyDist(w.allies, Predicted(w)));
    var kept := RemoveAt(Map(GuardOf, walls), k);
    var gets := GetBalls(d.wallIds, walls[k]);
    var part := WallActs(d, w, walls);
    assert part == kept + gets;
    assert part[..|walls| - 1] == kept;
    forall i | |walls| - 1 <= i < |part|
      ensures part[i] == Act(GetBall, walls[k])
    {
      assert part[i] == gets[i - (|walls| - 1)];
    }
  }

  /**
   * When the ball is worth clearing, the wall robot nearest to the
   * predicted ball (the first of several equally near) leaves the wall:
   * the other wall robots keep guarding, in angle order, and it is given
   * its `get_ball` action once for each time its id is among the wall ids.
   */
  lemma ExecuteWallClears(d: Defense, geo: Geo, w: Snapshot)
    requires Valid(d)
    requires Clears(d, w)
    ensures var r := Execute(d, geo, w);
            r.Done? ==>
              var walls := r.d.walls;
              var part := WallPart(d, r.acts);
              ClearedBy(part, walls, d.wallIds, AllyDist(w.allies, Predicted(w)))
  {
    var r := Execute(d, geo, w);
    if r.Done? {
      var d1 := d.(ball := Remember(d, w));
      ExecuteWallPart(d, geo, w);
      assert Clears(d1, w) == Clears(d, w) && d1.wallIds == d.wallIds;
      WallActsClear(d1, w, r.d.walls);
    }
  }

  /**
   * The wall is re-sorted every call by the robots' angle about the goal,
   * and the `i`-th wall robot in that order is sent towards the `i`-th
   * target point in angle order, subject to the defence-area rule.
   */
  lemma ExecuteWallOrders(d: Defense, geo: Geo, w: Snapshot)
    requires Valid(d)
    ensures var r := Execute(d, geo, w);
            r.Done? ==>
              var goal := GoalOf(w.field);
              var ball := Predicted(w);
              var targets := WallPoints(geo, goal, ball, geo.basePoint(goal, ball), |d.walls|);
              && SortedBy(r.d.walls, AngleOf(geo, goal, w.allies))
              && |r.orders.walls| == |r.d.walls| == |targets|
              && forall i :: 0 <= i < |r.orders.walls| ==>
                   r.orders.walls[i].id == r.d.walls[i]
                   && r.orders.walls[i].move == WallMove(goal, w.field, Find(w.allies, r.d.walls[i]), targets[i])
  {
  }

  /** When the call does not throw on a wall of two or more, every wall robot is seen and sent somewhere. */
  lemma ExecuteMovesWholeWall(d: Defense, geo: Geo, w: Snapshot)
    requires Valid(d)
    requires |d.walls| >= 2
    ensures var r := Execute(d, geo, w);
            r.Done? ==> forall i :: 0 <= i < |r.orders.walls| ==> r.orders.walls[i].move.Some?
  {
    var r := Execute(d, geo, w);
    if r.Done? {
      ExecuteWallOrders(d, geo, w);
      forall i | 0 <= i < |r.orders.walls|
        ensures r.orders.walls[i].move.Some?
      {
        var id := r.d.walls[i];
        assert id in multiset(d.walls);
        var j :| 0 <= j < |d.walls| && d.walls[j] == id;
        assert Visible(w.allies, d.walls[j]);
      }
    }
  }

  /**
   * `marking_ids()` after a call: unchanged without marking robots (or when
   * the call halts), otherwise exactly the marking robots vision sees that
   * were not given an enemy.
   */
  lemma ExecuteMarkingIds(d: Defense, geo: Geo, w: Snapshot)
    requires Valid(d)
    ensures var r := Execute(d, geo, w);
            (r.Halted? || (r.Done? && d.markingIds == [])) ==> MarkingIds(r.d) == MarkingIds(d)
    ensures var r := Execute(d, geo, w);
            r.Done? && d.markingIds != [] ==>
              && r.orders.marking.Some?
              && forall id :: id in MarkingIds(r.d) <==>
                   id in d.markingIds && Visible(w.allies, id)
                   && id !in Map(MarkerId, MarkersOf(r.orders.marking.value.pairs))
  {
    var r := Execute(d, geo, w);
    if r.Done? && d.markingIds != [] {
      MarkPlanLeftover(Predicted(w), w.enemies, d.markingIds, w.allies);
    }
  }

  /** Without a wall robot or the keeper clearing, an answer holds no `get_ball` action. */
  lemma AnswerGuardsOnly(d: Defense, w: Snapshot, walls: seq<nat>, keeper: KeeperPlan)
    requires |walls| == |d.wallIds|
    requires !Clears(d, w) && !keeper.clear
    ensures var a := Answer(d, w, walls, keeper);
            forall i :: 0 <= i < |a| ==> a[i].role != GetBall
  {
    var a := Answer(d, w, walls, keeper);
    var n := |walls| + |d.markingIds|;
    assert a == Map(GuardOf, walls) + Map(MarkOf, d.markingIds) + [Act(Guard, d.keeperId)];
    forall i | 0 <= i < |a|
      ensures a[i].role != GetBall
    {
      if i < |walls| {
        assert a[i] == GuardOf(walls[i]);
      } else if i < n {
        assert a[i] == MarkOf(d.markingIds[i - |walls|]);
      }
    }
  }

  /** In stop mode no robot goes for the ball and the wall carries no kick. */
  lemma StopModeKeepsAway(d: Defense, geo: Geo, w: Snapshot)
    requires Valid(d)
    ensures Valid(SetMode(d, StopMode))
    ensures var r := Execute(SetMode(d, StopMode), geo, w);
            r.Done? ==>
              && r.orders.wallKick.kind == NoKick
              && !r.orders.keeper.clear
              && forall i :: 0 <= i < |r.acts| ==> r.acts[i].role != GetBall
  {
    var s := SetMode(d, StopMode);
    var r := Execute(s, geo, w);
    if r.Done? {
      var s1 := s.(ball := Remember(s, w));
      ExecuteAnswer(s, geo, w);
      AnswerGuardsOnly(s1, w, r.d.walls, r.orders.keeper);
    }
  }
}
