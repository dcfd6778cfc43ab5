/**
 * The `rush` action (src/ai_server/game/action/rush.cc): drive at the ball
 * with the kicker armed, and call it finished once the ball has moved away
 * from where it lay when the robot last drove at it.
 *
 * The action is a state machine over `flag_` and `previous_kick_ball_`; one
 * `execute` call is one step, answering the command for the robot. The
 * direction to the ball and its cosine and sine are abstract.
 */
module Rush {
  import opened Geometry
  import opened World
  import opened Optional

  /** A ball farther than this from where it was counts as kicked. */
  const KickedDistance: real := 200.0
  /** The speed the robot drives at the ball with. */
  const RushSpeed: real := 2000.0
  /** The power of the armed straight kick. */
  const RushKickPower: real := 10.0

  datatype Rush = Rush(id: nat, flag: bool, previousKickBall: Vec)

  /** The velocity part of a command: translation and turn rate. */
  datatype Velocity = Velocity(vx: real, vy: real, omega: real)

  /** A command for robot `id`; a kick left `None` is not set by the action. */
  datatype Command = Command(id: nat, velocity: Velocity, kick: Option<KickFlag>)

  /** `std::atan2`, `std::cos` and `std::sin`. */
  datatype Trig = Trig(atan2: (real, real) -> real, cos: real -> real, sin: real -> real)

  /** What the action relies on: cosine and sine of one angle lie on the unit circle. */
  ghost predicate ValidTrig(t: Trig) {
    forall a :: t.cos(a) * t.cos(a) + t.sin(a) * t.sin(a) == 1.0
  }

  /** `rush::rush`: not finished, and the ball as it lies now is the reference. */
  function New(id: nat, ball: Vec): (r: Rush)
    ensures !Finished(r)
    ensures r.id == id && r.previousKickBall == ball
  {
    Rush(id, false, ball)
  }

  /** `rush::finished`. */
  function Finished(r: Rush): bool {
    r.flag
  }

  /** The direction from the robot to the ball. */
  function Heading(t: Trig, rb: Robot, ball: Vec): real {
    t.atan2(ball.y - rb.pos.y, ball.x - rb.pos.x)
  }

  /** The result of one step: the new state and the command sent. */
  datatype Step = Step(rush: Rush, command: Command)

  /**
   * `rush::execute`. An unseen robot is stopped and nothing changes. A ball
   * more than 200 from the reference ends the rush: the robot only turns
   * towards the ball, and the reference stays where it was. Otherwise the
   * robot drives at the ball at 2000 with a straight kick armed, and the
   * ball becomes the new reference.
   */
  function Execute(r: Rush, t: Trig, robots: seq<Robot>, ball: Vec): (s: Step)
    ensures s.command.id == r.id && s.rush.id == r.id
    ensures !Visible(robots, r.id) ==>
              s.rush == r && s.command.velocity == Velocity(0.0, 0.0, 0.0) && s.command.kick.None?
    ensures Visible(robots, r.id) ==>
              s.command.velocity.omega == Heading(t, Find(robots, r.id).value, ball) - Find(robots, r.id).value.theta
    ensures Visible(robots, r.id) ==>
              (Finished(s.rush) <==> Beyond(r.previousKickBall, ball, KickedDistance))
    ensures Visible(robots, r.id) && Finished(s.rush) ==>
              && s.rush.previousKickBall == r.previousKickBall
              && s.command.velocity.vx == 0.0 && s.command.velocity.vy == 0.0
              && s.command.kick.None?
    ensures Visible(robots, r.id) && !Finished(s.rush) ==>
              && s.rush.previousKickBall == ball
              && s.command.kick == Some(KickFlag(Line, RushKickPower))
    ensures ValidTrig(t) && Visible(robots, r.id) && !Finished(s.rush) ==>
              SqNorm(Vec(s.command.velocity.vx, s.command.velocity.vy)) == RushSpeed * RushSpeed
  {
    match Find(robots, r.id)
    case None => Step(r, Command(r.id, Velocity(0.0, 0.0, 0.0), None))
    case Some(rb) =>
      var theta := Heading(t, rb, ball);
      var omega := theta - rb.theta;
      if Beyond(r.previousKickBall, ball, KickedDistance) then
        Step(r.(flag := true), Command(r.id, Velocity(0.0, 0.0, omega), None))
      else
        var vx := RushSpeed * t.cos(theta);
        var vy := RushSpeed * t.sin(theta);
        assert ValidTrig(t) ==> vx * vx + vy * vy == RushSpeed * RushSpeed by {
          if ValidTrig(t) {
            assert vx * vx + vy * vy == RushSpeed * RushSpeed * (t.cos(theta) * t.cos(theta) + t.sin(theta) * t.sin(theta));
          }
        }
        Step(r.(flag := false, previousKickBall := ball), Command(r.id, Velocity(vx, vy, omega), Some(KickFlag(Line, RushKickPower))))
  }

  /** One vision frame: the robots of our team and the ball. */
  datatype Frame = Frame(robots: seq<Robot>, ball: Vec)

  /** The state after one `execute` per frame, in order. */
  function Run(r: Rush, t: Trig, frames: seq<Frame>): (q: Rush)
    ensures q.id == r.id
    decreases |frames|
  {
    if frames == [] then r
    else
      var last := frames[|frames| - 1];
      Execute(Run(r, t, frames[..|frames| - 1]), t, last.robots, last.ball).rush
  }

  /**
   * Once finished, a rush stays finished, with the same reference, for as
   * long as the ball stays more than 200 from that reference.
   */
  lemma {:induction false} RunStaysFinished(r: Rush, t: Trig, frames: seq<Frame>)
    requires Finished(r)
    requires forall i :: 0 <= i < |frames| ==> Beyond(r.previousKickBall, frames[i].ball, KickedDistance)
    ensures Finished(Run(r, t, frames)) && Run(r, t, frames).previousKickBall == r.previousKickBall
    decreases |frames|
  {
    if frames != [] {
      var init := frames[..|frames| - 1];
      assert forall i :: 0 <= i < |init| ==> init[i] == frames[i];
      RunStaysFinished(r, t, init);
    }
  }

  /**
   * A rush becomes finished only in a frame in which the robot is seen and
   * the ball has moved more than 200 from the reference of that moment.
   */
  lemma {:induction false} FinishesOnlyWhenKicked(r: Rush, t: Trig, frames: seq<Frame>)
    requires !Finished(r)
    requires Finished(Run(r, t, frames))
    ensures exists i :: 0 <= i < |frames|
              && Visible(frames[i].robots, r.id)
              && Beyond(Run(r, t, frames[..i]).previousKickBall, frames[i].ball, KickedDistance)
    decreases |frames|
  {
    var n := |frames| - 1;
    var init := frames[..n];
    assert frames[..n] == init;
    var before := Run(r, t, init);
    if Visible(frames[n].robots, r.id) {
      assert Beyond(Run(r, t, frames[..n]).previousKickBall, frames[n].ball, KickedDistance);
    } else {
      FinishesOnlyWhenKicked(r, t, init);
      var i :| 0 <= i < |init| && Visible(init[i].robots, r.id)
               && Beyond(Run(r, t, init[..i]).previousKickBall, init[i].ball, KickedDistance);
      assert init[..i] == frames[..i] && init[i] == frames[i];
    }
  }

  /** Driving at the ball re-arms the rush: if the ball has not moved, the next step drives again. */
  lemma RearmsOnStillBall(r: Rush, t: Trig, robots: seq<Robot>, ball: Vec)
    requires Visible(robots, r.id)
    requires !Finished(Execute(r, t, robots, ball).rush)
    ensures var s := Execute(Execute(r, t, robots, ball).rush, t, robots, ball);
            !Finished(s.rush) && s.rush == Execute(r, t, robots, ball).rush
  {
    var q := Execute(r, t, robots, ball).rush;
    assert q.previousKickBall == ball;
    assert SqDist(ball, ball) == 0.0;
  }
}
