/**
 * The game rules the search plays on (src/ai_server/game/detail/mcts.cc):
 * a state is a hypothetical ball position and the simulated time to get it
 * there; a behaviour sends the ball to a target point.
 *
 * Everything the search consults but cannot compute exactly is carried in
 * `Env` as an abstract function: the neural network behind `probability`,
 * Eigen's `norm()` (used only for the elapsed time) and the UCB1 exploration
 * term `sqrt(2 ln t / n)`.
 */
module MctsGame {
  import opened Geometry
  import opened World
  import opened Seqs

  /** A ball this close to a goal ends the simulation. */
  const GoalRadius: real := 500.0
  /** Ball speed used to turn a pass length into elapsed time. */
  const BallSpeed: real := 6000.0
  /** Passes longer than this have probability zero. */
  const PassRange: real := 10000.0
  /** The two extra shots aim this far either side of the goal centre. */
  const GoalSideOffset: real := 200.0
  /** A teammate this close to the ball is not a pass target. */
  const ReceiverClearance: real := 500.0
  /** How far the penalty area is enlarged when excluding receivers. */
  const PenaltyMargin: real := 200.0

  datatype State = State(ballPos: Vec, t: real)

  datatype Behavior = Behavior(target: Vec)

  datatype Env = Env(
    field: Field,
    ourRobots: seq<Robot>,
    ourGoal: Vec,
    eneGoal: Vec,
    /** The network's success estimate for a pass, against the fixed enemy robots. */
    net: (Vec, Vec) -> real,
    /** Euclidean length, used only to advance simulated time. */
    norm: Vec -> real,
    /** The UCB1 exploration term `sqrt(2 ln t / n)` for `t` total and `n` own visits. */
    explore: (nat, nat) -> real,
    /** Bound on the number of playout steps. */
    playoutFuel: nat)

  /** What the search trusts about its abstract functions. */
  ghost predicate ValidEnv(env: Env) {
    && IsEuclidean(env.norm)
    && forall a, b :: 0.0 <= env.net(a, b) <= 1.0
  }

  predicate NearEnemyGoal(env: Env, s: State) { Within(s.ballPos, env.eneGoal, GoalRadius) }

  predicate NearOurGoal(env: Env, s: State) { Within(s.ballPos, env.ourGoal, GoalRadius) }

  /** `worker::end`: the simulation stops near either goal. */
  predicate End(env: Env, s: State) { NearEnemyGoal(env, s) || NearOurGoal(env, s) }

  /**
   * `worker::score`: +1 near the enemy goal (checked first), -1 near ours,
   * otherwise 0. A state scores non-zero exactly when it is terminal.
   */
  function Score(env: Env, s: State): (r: real)
    ensures r == -1.0 || r == 0.0 || r == 1.0
    ensures r != 0.0 <==> End(env, s)
    ensures r == 1.0 <==> NearEnemyGoal(env, s)
  {
    if NearEnemyGoal(env, s) then 1.0
    else if NearOurGoal(env, s) then -1.0
    else 0.0
  }

  /**
   * `worker::probability`: zero beyond the pass range, otherwise the
   * network's estimate (the network itself is not modelled).
   */
  function Probability(env: Env, pos: Vec, target: Vec): (r: real)
    ensures Beyond(pos, target, PassRange) ==> r == 0.0
    ensures ValidEnv(env) ==> 0.0 <= r <= 1.0
  {
    if Beyond(pos, target, PassRange) then 0.0 else env.net(pos, target)
  }

  /** Scaling a probability by a probability can only lower it. */
  lemma Damped(p: real, q: real)
    requires 0.0 <= p && 0.0 <= q <= 1.0
    ensures 0.0 <= p * q <= p
  {
    assert p * (1.0 - q) >= 0.0;
  }

  /**
   * A teammate can receive a pass: more than 500 from the ball, strictly
   * inside the field, and outside the penalty area enlarged by 200.
   */
  predicate Receivable(env: Env, s: State, pos: Vec) {
    var f := env.field;
    && Beyond(pos, s.ballPos, ReceiverClearance)
    && Abs(pos.x) < f.xMax
    && Abs(pos.y) < f.yMax
    && (Abs(pos.x) < f.xMax - f.penaltyLength - PenaltyMargin
        || Abs(pos.y) > f.penaltyWidth / 2.0 + PenaltyMargin)
  }

  /** Where our robots stand. */
  function Positions(robots: seq<Robot>): set<Vec> {
    set i | 0 <= i < |robots| :: robots[i].pos
  }

  /** The pass to a robot: the ball goes to where it stands. */
  function ToBehavior(rb: Robot): Behavior { Behavior(rb.pos) }

  /** The robots that can receive a pass in state `s`. */
  function IsReceiver(env: Env, s: State): Robot -> bool {
    (rb: Robot) => Receivable(env, s, rb.pos)
  }

  /** The passes to teammates, in the order the robots are listed. */
  function Receivers(env: Env, s: State, robots: seq<Robot>): (r: seq<Behavior>)
    ensures |r| <= |robots|
    ensures forall b :: b in r <==> b.target in Positions(robots) && Receivable(env, s, b.target)
  {
    if robots == [] then []
    else
      assert Positions(robots) == {robots[0].pos} + Positions(robots[1..]) by {
        assert forall i :: 1 <= i < |robots| ==> robots[i].pos == robots[1..][i - 1].pos;
      }
      (if Receivable(env, s, robots[0].pos) then [Behavior(robots[0].pos)] else [])
      + Receivers(env, s, robots[1..])
  }

  /**
   * The passes are exactly one per robot that can receive, in the order the
   * robots are listed: no pass is dropped, repeated or reordered.
   */
  lemma {:induction false} ReceiversInOrder(env: Env, s: State, robots: seq<Robot>)
    ensures Receivers(env, s, robots) == Map(ToBehavior, Filter(IsReceiver(env, s), robots))
    decreases |robots|
  {
    if robots != [] {
      ReceiversInOrder(env, s, robots[1..]);
      var kept := Filter(IsReceiver(env, s), robots[1..]);
      if IsReceiver(env, s)(robots[0]) {
        assert Map(ToBehavior, [robots[0]] + kept) == [ToBehavior(robots[0])] + Map(ToBehavior, kept);
      }
    }
  }

  /**
   * `worker::legal_behaviors`: a shot at the enemy goal centre, shots 200
   * either side of it, then exactly the passes to teammates that can
   * receive one.
   */
  function LegalBehaviors(env: Env, s: State): (r: seq<Behavior>)
    ensures 3 <= |r| <= 3 + |env.ourRobots|
    ensures r[0] == Behavior(env.eneGoal)
    ensures r[1] == Behavior(Vec(env.eneGoal.x, GoalSideOffset))
    ensures r[2] == Behavior(Vec(env.eneGoal.x, -GoalSideOffset))
    ensures forall b :: b in r[3..] <==> b.target in Positions(env.ourRobots) && Receivable(env, s, b.target)
    ensures r[3..] == Receivers(env, s, env.ourRobots)
  {
    var r := [ Behavior(env.eneGoal),
               Behavior(Vec(env.eneGoal.x, GoalSideOffset)),
               Behavior(Vec(env.eneGoal.x, -GoalSideOffset)) ]
             + Receivers(env, s, env.ourRobots);
    assert r[3..] == Receivers(env, s, env.ourRobots);
    r
  }

  /**
   * `worker::next_state`: the ball is at the target, and the clock has
   * advanced by the pass length over the ball speed; it stands still only
   * when the ball does not move.
   */
  function NextState(env: Env, s: State, b: Behavior): (r: State)
    ensures r.ballPos == b.target
    ensures ValidEnv(env) ==> s.t <= r.t
    ensures ValidEnv(env) ==> (r.t == s.t <==> b.target == s.ballPos)
  {
    var d := Sub(s.ballPos, b.target);
    assert ValidEnv(env) ==> 0.0 <= env.norm(d) && (env.norm(d) == 0.0 <==> b.target == s.ballPos) by {
      if ValidEnv(env) {
        NormZero(env.norm, d);
      }
    }
    State(b.target, s.t + env.norm(d) / BallSpeed)
  }

  /**
   * The clock advances by the pass length over the ball speed: 6000 times
   * the elapsed time, squared, is the squared distance the ball travels.
   */
  lemma NextStateElapsed(env: Env, s: State, b: Behavior)
    requires ValidEnv(env)
    ensures var r := NextState(env, s, b);
            (BallSpeed * (r.t - s.t)) * (BallSpeed * (r.t - s.t)) == SqDist(s.ballPos, b.target)
  {
    var d := Sub(s.ballPos, b.target);
    var r := NextState(env, s, b);
    assert BallSpeed * (r.t - s.t) == env.norm(d);
    assert env.norm(d) * env.norm(d) == SqNorm(d);
  }
}
