/**
 * What the defence tactic (src/ai_server/game/agent/defense.cc) is told
 * about the world beyond the robot lists: its mode, and the geometry it
 * computes with square roots and arc tangents, kept abstract.
 */
module DefenseSetting {
  import opened Geometry

  /** `defense_mode`. */
  datatype Mode = NormalMode | StopMode | PkNormalMode | PkExtentionMode

  datatype Geo = Geo(
    /** `calc_base_point(goal, ball, 1850)`: the point the wall forms around. */
    basePoint: (Vec, Vec) -> Vec,
    /** `calc_isosceles_vertexes(ball, orientation, shift)`: the two base corners of an isosceles triangle. */
    iso: (Vec, Vec, real) -> (Vec, Vec),
    /** `atan2(p.y - goal.y, p.x - goal.x)` for `angle(goal, p)`. */
    angle: (Vec, Vec) -> real,
    /**
     * Where the keeper stands in normal mode when it does not clear the
     * ball, from the remembered ball, the predicted ball, the ball, the
     * orientation point and the ball velocity.
     */
    guardPoint: (Vec, Vec, Vec, Vec, Vec) -> Vec,
    /** `std::tan`. */
    tan: real -> real)
}

/**
 * The wall part of `defense::execute`: how many target points the wall
 * gets, where they lie along the triangle the geometry spans, and the rule
 * that keeps a wall robot near the goal out of the defence area.
 */
module DefenseWall {
  import opened Geometry
  import opened World
  import opened Optional
  import opened DefenseSetting

  /** A ball closer than this to the goal makes the wall close up. */
  const Demarcation: real := 3500.0
  /** A wall robot closer than this to the goal may have its target moved. */
  const GuardRadius: real := 1900.0
  /** `|y|` bounds of the defence area's front edge. */
  const CentreBand: real := 1200.0
  const WingBand: real := 1380.0
  /** Depth of the line the wall falls back to, measured from the goal. */
  const AreaDepth: real := 1360.0

  /** The shift of the first pair of wall points and how fast later pairs move out. */
  datatype Spacing = Spacing(shift: real, magnification: real)

  /** How far apart consecutive pairs of wall points are along the triangle. */
  function Step(sp: Spacing): real { sp.shift * sp.magnification }

  /**
   * The shift rules: an even wall starts at 190 (90 when the ball is close)
   * and steps by twice that; an odd wall, whose middle robot stands on the
   * orientation point, starts at 360 (180 when close) and steps by that.
   * Either way the points are evenly spread: pairs step 380 apart (360 for
   * odd walls), or 180 when the ball is close.
   */
  function WallSpacing(nWalls: nat, close: bool): (sp: Spacing)
    ensures nWalls % 2 == 0 ==> 2.0 * sp.shift == Step(sp)
    ensures nWalls % 2 != 0 ==> sp.shift == Step(sp)
    ensures close ==> Step(sp) == 180.0
    ensures !close ==> Step(sp) == (if nWalls % 2 == 0 then 380.0 else 360.0)
  {
    if nWalls % 2 != 0 then Spacing(if close then 180.0 else 360.0, 1.0)
    else Spacing(if close then 90.0 else 190.0, 2.0)
  }

  /** The shift used for the `m`-th point the loop pushes. */
  function ShiftAt(sp: Spacing, m: nat): real {
    sp.shift + ((m / 2) as real) * Step(sp)
  }

  /** The `m`-th point the loop pushes: left and right corners alternate, each pair further out. */
  function Vertex(iso: (Vec, Vec, real) -> (Vec, Vec), ball: Vec, orient: Vec, sp: Spacing, m: nat): Vec {
    var v := iso(ball, orient, ShiftAt(sp, m));
    if m % 2 == 0 then v.0 else v.1
  }

  /**
   * The loop over the walls as written: `second` is the toggle `i`, and the
   * shift grows by one step after each right-hand corner.
   */
  function VertexLoop(iso: (Vec, Vec, real) -> (Vec, Vec), ball: Vec, orient: Vec, sp: Spacing,
                      shift: real, second: bool, count: nat): (r: seq<Vec>)
    ensures |r| == count
    decreases count
  {
    if count == 0 then []
    else
      var v := iso(ball, orient, shift);
      [if second then v.1 else v.0]
      + VertexLoop(iso, ball, orient, sp, if second then shift + Step(sp) else shift, !second, count - 1)
  }

  lemma ShiftAtNext(sp: Spacing, m: nat)
    ensures ShiftAt(sp, m + 1) == ShiftAt(sp, m) + (if m % 2 == 1 then Step(sp) else 0.0)
  {
    var h := m / 2;
    if m % 2 == 1 {
      assert (m + 1) / 2 == h + 1;
      assert ((h + 1) as real) * Step(sp) == (h as real) * Step(sp) + Step(sp);
    } else {
      assert (m + 1) / 2 == h;
    }
  }

  /** The loop started at point `m` pushes points `m`, `m + 1`, ... of the closed form. */
  lemma {:induction false} VertexLoopClosedForm(iso: (Vec, Vec, real) -> (Vec, Vec), ball: Vec, orient: Vec,
                                                sp: Spacing, shift: real, second: bool, m: nat, count: nat)
    requires shift == ShiftAt(sp, m) && second == (m % 2 == 1)
    ensures forall j :: 0 <= j < count ==>
              VertexLoop(iso, ball, orient, sp, shift, second, count)[j] == Vertex(iso, ball, orient, sp, m + j)
    decreases count
  {
    if count > 0 {
      var r := VertexLoop(iso, ball, orient, sp, shift, second, count);
      ShiftAtNext(sp, m);
      var next := if second then shift + Step(sp) else shift;
      VertexLoopClosedForm(iso, ball, orient, sp, next, !second, m + 1, count - 1);
      var rest := VertexLoop(iso, ball, orient, sp, next, !second, count - 1);
      assert r == [Vertex(iso, ball, orient, sp, m)] + rest;
      forall j | 0 < j < count
        ensures r[j] == Vertex(iso, ball, orient, sp, m + j)
      {
        assert r[j] == rest[j - 1];
        assert rest[j - 1] == Vertex(iso, ball, orient, sp, m + 1 + (j - 1));
      }
    }
  }

  /**
   * The wall's target points before sorting: one per wall robot. An even
   * wall takes the loop's points; an odd wall takes the orientation point
   * first and drops the loop's last point.
   */
  function WallTargets(iso: (Vec, Vec, real) -> (Vec, Vec), ball: Vec, orient: Vec, nWalls: nat, close: bool): (r: seq<Vec>)
    ensures |r| == nWalls
    ensures nWalls % 2 == 0 ==>
              forall j :: 0 <= j < nWalls ==> r[j] == Vertex(iso, ball, orient, WallSpacing(nWalls, close), j)
    ensures nWalls % 2 != 0 ==>
              r[0] == orient
              && forall j :: 1 <= j < nWalls ==> r[j] == Vertex(iso, ball, orient, WallSpacing(nWalls, close), j - 1)
  {
    var sp := WallSpacing(nWalls, close);
    assert ShiftAt(sp, 0) == sp.shift;
    var pushed := VertexLoop(iso, ball, orient, sp, sp.shift, false, nWalls);
    VertexLoopClosedForm(iso, ball, orient, sp, sp.shift, false, 0, nWalls);
    if nWalls % 2 == 0 then pushed
    else
      var r := ([orient] + pushed)[..nWalls];
      assert forall j :: 1 <= j < nWalls ==> r[j] == pushed[j - 1];
      r
  }

  /** The wall points of an odd wall are the orientation point and, around it, the points an even loop would push. */
  lemma OddWallCentred(iso: (Vec, Vec, real) -> (Vec, Vec), ball: Vec, orient: Vec, nWalls: nat, close: bool)
    requires nWalls % 2 != 0
    ensures var r := WallTargets(iso, ball, orient, nWalls, close);
            r == [orient] + VertexLoop(iso, ball, orient, WallSpacing(nWalls, close), WallSpacing(nWalls, close).shift, false, nWalls - 1)
  {
    var sp := WallSpacing(nWalls, close);
    var r := WallTargets(iso, ball, orient, nWalls, close);
    var rest := VertexLoop(iso, ball, orient, sp, sp.shift, false, nWalls - 1);
    assert ShiftAt(sp, 0) == sp.shift;
    VertexLoopClosedForm(iso, ball, orient, sp, sp.shift, false, 0, nWalls - 1);
    assert forall j :: 1 <= j < nWalls ==> r[j] == rest[j - 1];
  }

  /**
   * Where a wall robot is sent for its target. A robot vision does not see
   * is not sent anywhere. A robot within 1900 of the goal that would cross
   * the front of the defence area falls back onto the line 1360 in front of
   * the goal: to a quarter of the field width on the target's side when it
   * is in the middle and the target out wide, to 1360 on the target's side
   * when it is out wide and the target in the middle.
   */
  function WallMove(goal: Vec, field: Field, robot: Option<Robot>, target: Vec): (r: Option<Vec>)
    ensures r.Some? <==> robot.Some?
    ensures robot.Some? && !Within(robot.value.pos, goal, GuardRadius) ==> r == Some(target)
    ensures r.Some? && r.value != target ==>
              Within(robot.value.pos, goal, GuardRadius) && r.value.x == goal.x + AreaDepth
    ensures robot.Some? && Within(robot.value.pos, goal, GuardRadius)
            && Abs(target.y) > CentreBand && Abs(robot.value.pos.y) < CentreBand ==>
              r == Some(Vec(goal.x + AreaDepth, CopySign(field.width / 4.0, target.y)))
    ensures robot.Some? && Within(robot.value.pos, goal, GuardRadius)
            && !(Abs(target.y) > CentreBand && Abs(robot.value.pos.y) < CentreBand)
            && Abs(target.y) < WingBand && Abs(robot.value.pos.y) > CentreBand ==>
              r == Some(Vec(goal.x + AreaDepth, CopySign(AreaDepth, target.y)))
    ensures robot.Some? && r.value != target ==>
              (Abs(target.y) > CentreBand && Abs(robot.value.pos.y) < CentreBand)
              || (Abs(target.y) < WingBand && Abs(robot.value.pos.y) > CentreBand)
    ensures r.Some? && 0.0 <= field.width ==>
              (target.y < 0.0 ==> r.value.y <= 0.0) && (0.0 <= target.y ==> 0.0 <= r.value.y)
  {
    match robot
    case None => None
    case Some(rb) =>
      if Within(rb.pos, goal, GuardRadius) then
        if Abs(target.y) > CentreBand && Abs(rb.pos.y) < CentreBand then
          Some(Vec(goal.x + AreaDepth, CopySign(field.width / 4.0, target.y)))
        else if Abs(target.y) < WingBand && Abs(rb.pos.y) > CentreBand then
          Some(Vec(goal.x + AreaDepth, CopySign(AreaDepth, target.y)))
        else Some(target)
      else Some(target)
  }

  /** The kick a wall robot is armed with: none in stop mode, otherwise a full-power chip. */
  function WallKick(mode: Mode): (k: KickFlag)
    ensures k.kind == NoKick <==> mode == StopMode
  {
    if mode == StopMode then NoKickFlag else KickFlag(Chip, 255.0)
  }
}
