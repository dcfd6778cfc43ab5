/**
 * `worker::playout` (src/ai_server/game/detail/mcts.cc): a random game
 * from a state until it ends, returning the reached score weighted by the
 * product of the pass probabilities along the way. When a shot at the goal
 * centre succeeds with probability above 0.8 it is always taken; otherwise a
 * legal behaviour is drawn uniformly.
 *
 * The Mersenne Twister is replaced by a stream of draws, and the recursion,
 * which has no termination argument in the source, by a step budget.
 */
module MctsPlayout {
  import opened Geometry
  import opened MctsGame

  /** Shots at the goal more likely than this are taken without a draw. */
  const GreedyShot: real := 0.8

  /** A random stream: the `k`-th value drawn is `draw(k)`. */
  datatype Rng = Rng(draw: nat -> nat, pos: nat)

  /** `std::uniform_int_distribution(0, bound - 1)` applied to the stream. */
  function Pick(rng: Rng, bound: nat): (r: (nat, Rng))
    requires bound > 0
    ensures r.0 < bound
    ensures r.1 == Rng(rng.draw, rng.pos + 1)
  {
    (rng.draw(rng.pos) % bound, Rng(rng.draw, rng.pos + 1))
  }

  /** A move of a playout: the behaviour taken, and the stream after choosing it. */
  datatype Move = Move(b: Behavior, rng: Rng)

  /**
   * How a playout moves from a state that has not ended: the shot at the
   * goal centre, without a draw, when it succeeds with probability above
   * 0.8; otherwise a legal behaviour drawn uniformly, using one draw.
   */
  function NextMove(env: Env, rng: Rng, s: State): (m: Move)
    ensures Probability(env, s.ballPos, env.eneGoal) > GreedyShot ==>
              m == Move(Behavior(env.eneGoal), rng)
    ensures Probability(env, s.ballPos, env.eneGoal) <= GreedyShot ==>
              && m.b in LegalBehaviors(env, s)
              && m.b == LegalBehaviors(env, s)[Pick(rng, |LegalBehaviors(env, s)|).0]
              && m.rng == Rng(rng.draw, rng.pos + 1)
  {
    if Probability(env, s.ballPos, env.eneGoal) > GreedyShot then Move(Behavior(env.eneGoal), rng)
    else
      var bs := LegalBehaviors(env, s);
      var (k, next) := Pick(rng, |bs|);
      Move(bs[k], next)
  }

  /**
   * The weight of a playout after a move whose success probability is
   * `pass`: `p * pass`, which for a probability stays within `[0, p]`.
   */
  function Weigh(p: real, pass: real): (q: real)
    ensures 0.0 <= p && 0.0 <= pass <= 1.0 ==> 0.0 <= q <= p
  {
    if 0.0 <= p && 0.0 <= pass <= 1.0 then Damped(p, pass); p * pass else p * pass
  }

  /** The value a playout returns, and the stream after it. */
  datatype Rollout = Rollout(v: real, rng: Rng)

  /**
   * `worker::playout(state, p)` with at most `fuel` moves; a game that has
   * not ended when the budget runs out is worth 0.
   */
  function Playout(env: Env, rng: Rng, fuel: nat, s: State, p: real): (r: Rollout)
    ensures ValidEnv(env) && 0.0 <= p ==> -p <= r.v <= p
    ensures End(env, s) ==> r == Rollout(p * Score(env, s), rng)
    ensures r.rng.draw == rng.draw && rng.pos <= r.rng.pos <= rng.pos + fuel
    decreases fuel
  {
    if End(env, s) then Rollout(p * Score(env, s), rng)
    else if fuel == 0 then Rollout(0.0, rng)
    else
      var m := NextMove(env, rng, s);
      var pass := Probability(env, s.ballPos, m.b.target);
      Playout(env, m.rng, fuel - 1, NextState(env, s, m.b), Weigh(p, pass))
  }

  /**
   * A shot at the goal centre that succeeds with probability above 0.8 is
   * taken without a draw: the game goes on from the ball at the goal centre,
   * weighted by that probability, and the first move uses no draw.
   */
  lemma {:induction false} PlayoutGreedy(env: Env, rng: Rng, fuel: nat, s: State, p: real)
    requires !End(env, s) && fuel > 0
    requires Probability(env, s.ballPos, env.eneGoal) > GreedyShot
    ensures Playout(env, rng, fuel, s, p)
              == Playout(env, rng, fuel - 1, NextState(env, s, Behavior(env.eneGoal)),
                         p * Probability(env, s.ballPos, env.eneGoal))
    ensures Playout(env, rng, fuel, s, p).rng.pos <= rng.pos + fuel - 1
  {
  }

  /** Otherwise the first move is drawn, so a playout that does not end at once uses a draw. */
  lemma {:induction false} PlayoutDraws(env: Env, rng: Rng, fuel: nat, s: State, p: real)
    requires !End(env, s) && fuel > 0
    requires Probability(env, s.ballPos, env.eneGoal) <= GreedyShot
    ensures rng.pos + 1 <= Playout(env, rng, fuel, s, p).rng.pos
  {
  }

  /** `PlayoutStep` with the new weight kept as a `Weigh` term. */
  lemma {:induction false} PlayoutWeighed(env: Env, rng: Rng, fuel: nat, s: State, p: real)
    requires !End(env, s) && fuel > 0
    ensures var m := NextMove(env, rng, s);
            Playout(env, rng, fuel, s, p)
              == Playout(env, m.rng, fuel - 1, NextState(env, s, m.b), Weigh(p, Probability(env, s.ballPos, m.b.target)))
  {
  }

  /**
   * Every move of a game that has not ended: the playout goes on from the
   * state the move leads to, with the stream after the move and the weight
   * multiplied by the move's success probability.
   */
  lemma {:induction false} PlayoutStep(env: Env, rng: Rng, fuel: nat, s: State, p: real)
    requires !End(env, s) && fuel > 0
    ensures var m := NextMove(env, rng, s);
            Playout(env, rng, fuel, s, p)
              == Playout(env, m.rng, fuel - 1, NextState(env, s, m.b), p * Probability(env, s.ballPos, m.b.target))
  {
    PlayoutWeighed(env, rng, fuel, s, p);
  }
}
