/**
 * The keeper part of `defense::execute`
 * (src/ai_server/game/agent/defense.cc): whether the keeper goes for the
 * ball, and where it stands in each mode. The geometry of normal mode is
 * abstract; the penalty-kick rules are modelled exactly.
 */
module DefenseKeeper {
  import opened Geometry
  import opened World
  import opened Seqs
  import opened DefenseSetting

  /** The keeper clears a remembered ball closer to the goal than this ... */
  const ClearOuter: real := 1000.0
  /** ... but not closer than this ... */
  const ClearInner: real := 400.0
  /** ... when the ball is slower than this, outside stop mode. */
  const ClearSpeed: real := 500.0
  /** In a penalty kick the keeper stays within this far of the goal centre line. */
  const PkReach: real := 410.0
  /** In a penalty kick the keeper stands this far in front of the goal line. */
  const PkDepth: real := 70.0
  /** The shooter's line of sight is followed out to this distance. */
  const SightDistance: real := 1000.0
  /** In the extension of a penalty kick the keeper stands this far beyond the ball in x, away from our goal. */
  const PkExtentionOffset: real := 45.0

  /** The condition for the keeper to go and clear the ball (`flag`). */
  predicate ClearsBall(mode: Mode, goal: Vec, remembered: Vec, vel: Vec) {
    && (mode == NormalMode || mode == StopMode)
    && Within(remembered, goal, ClearOuter)
    && Beyond(remembered, goal, ClearInner)
    && Slower(vel, ClearSpeed)
    && mode != StopMode
  }

  /** The penalty-kick keeper's y: the shooter's line of sight, kept in front of the goal. */
  function PkClamp(y: real): (r: real)
    ensures -PkReach <= r <= PkReach
    ensures -PkReach <= y <= PkReach ==> r == y
    ensures y > PkReach ==> r == PkReach
    ensures y < -PkReach ==> r == -PkReach
  {
    if y > PkReach then PkReach else if y < -PkReach then -PkReach else y
  }

  /** How far robot `e` is from `p`: the key of the nearest-robot search. */
  function RobotDist(p: Vec): Robot -> real {
    (e: Robot) => SqDist(e.pos, p)
  }

  /** Where the keeper goes, and whether it is the ball-getting action that is sent. */
  datatype KeeperPlan = KeeperPlan(target: Vec, clear: bool)

  /**
   * The keeper's plan in each mode. Stop mode runs the normal-mode code (its
   * `case` falls through) but never clears. When the keeper clears, its
   * guard action is still sent to the origin, the value `keeper` starts
   * with. In a penalty kick the keeper follows the line of sight of the
   * enemy nearest the predicted ball, and stays at the origin when vision
   * sees no enemy; in the extension it stands 45 beyond the ball, away from our goal.
   */
  function Keeper(mode: Mode, geo: Geo, goal: Vec, remembered: Vec, ball: Vec, ballPos: Vec,
                  orient: Vec, vel: Vec, enemies: seq<Robot>): (r: KeeperPlan)
    ensures r.clear <==> ClearsBall(mode, goal, remembered, vel)
    ensures r.clear ==> mode == NormalMode && r.target == Origin
    ensures mode == PkNormalMode && enemies != [] ==>
              r.target.x == goal.x + PkDepth && -PkReach <= r.target.y <= PkReach
    ensures mode == PkNormalMode && enemies == [] ==> r.target == Origin
    ensures mode == PkExtentionMode ==> r.target == Vec(ballPos.x + PkExtentionOffset, ballPos.y)
  {
    match mode
    case NormalMode | StopMode =>
      if ClearsBall(mode, goal, remembered, vel) then KeeperPlan(Origin, true)
      else KeeperPlan(geo.guardPoint(remembered, ball, ballPos, orient, vel), false)
    case PkNormalMode =>
      if enemies == [] then KeeperPlan(Origin, false)
      else
        var shooter := enemies[ArgMin(enemies, RobotDist(ball))];
        KeeperPlan(Vec(goal.x + PkDepth, PkClamp(-(SightDistance * geo.tan(shooter.theta)))), false)
    case PkExtentionMode =>
      KeeperPlan(Vec(ballPos.x + PkExtentionOffset, ballPos.y), false)
  }

  /** In a penalty kick, a shooter looking within the goal is followed exactly. */
  lemma PkFollowsShooter(geo: Geo, goal: Vec, remembered: Vec, ball: Vec, ballPos: Vec,
                         orient: Vec, vel: Vec, enemies: seq<Robot>)
    requires enemies != []
    requires var shooter := enemies[ArgMin(enemies, RobotDist(ball))];
             -PkReach <= -(SightDistance * geo.tan(shooter.theta)) <= PkReach
    ensures var shooter := enemies[ArgMin(enemies, RobotDist(ball))];
            Keeper(PkNormalMode, geo, goal, remembered, ball, ballPos, orient, vel, enemies).target
              == Vec(goal.x + PkDepth, -(SightDistance * geo.tan(shooter.theta)))
  {
  }

  /**
   * In a penalty kick, a shooter looking past either goal post is followed
   * only as far as that post: the keeper stands at 410 on that side.
   */
  lemma PkSaturates(geo: Geo, goal: Vec, remembered: Vec, ball: Vec, ballPos: Vec,
                    orient: Vec, vel: Vec, enemies: seq<Robot>)
    requires enemies != []
    ensures var sight := -(SightDistance * geo.tan(enemies[ArgMin(enemies, RobotDist(ball))].theta));
            var y := Keeper(PkNormalMode, geo, goal, remembered, ball, ballPos, orient, vel, enemies).target.y;
            && (sight > PkReach ==> y == PkReach)
            && (sight < -PkReach ==> y == -PkReach)
  {
  }
}
