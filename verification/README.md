# Search, defence and rush rules of a robot-soccer AI server, in Dafny

This project models three parts of an AI server for small-size robot soccer.

- **The Monte Carlo tree search** (`src/ai_server/game/detail/mcts.cc`) that chooses where the ball goes next.
  - A tree of hypothetical ball states. Each node counts its visits `n`, sums its rewards `w` and carries the probability `p` of reaching it.
  - `evaluate` descends through the tree by UCB1 and expands a leaf on exactly its 10th visit. It plays a random game out from a leaf and adds the value it gets back to every node on the path.
  - `expand` keeps exactly the behaviours whose success probability reaches the best probability-weighted score.
  - The game rules: `score`, `end`, `legal_behaviors` and `next_state`.
  - The search is modelled as "expand the root, then `k` evaluations in sequence".
- **The defence tactic** (`src/ai_server/game/agent/defense.cc`). One `execute` call reads a vision frame and answers the actions for a keeper, a wall and the marking robots. The model covers:
  - the early halt when the ball is past a goal line;
  - the exception thrown when a wall robot cannot be seen;
  - the number and order of the wall's target points;
  - the wall robot sent to clear the ball;
  - the filter, priority order and greedy nearest-marker matching of the marking step, with the ids it leaves over;
  - the keeper's clearing flag and its penalty-kick position;
  - `set_mode` and `marking_ids`.
- **The `rush` action** (`src/ai_server/game/action/rush.cc`), a two-field state machine. It drives at the ball and reports itself finished once the ball has moved more than 200 from where it lay.

Modelling conventions:
- Doubles are reals. A threshold `(a - b).norm() < r` is a comparison of squared lengths (`Geometry.Within`, `Geometry.Beyond`, `Geometry.Slower`). `Geometry.NormBelow` shows the two agree for any Euclidean norm.
- Whatever the code computes with square roots, logarithms, arc tangents or the neural network is an abstract function, passed in:
  - `MctsGame.Env`: the network, the vector norm and the UCB1 exploration term;
  - `DefenseSetting.Geo`: the base point, the isosceles vertices, angles about the goal, the keeper's normal-mode position and `tan`;
  - `Rush.Trig`: `atan2`, `cos` and `sin`.
- The robot maps (`robots_list`, an unordered map keyed by id) and `mark_list` are sequences. Their iteration order is the sequence order.
- `std::sort` is a stable insertion sort (`Sorting.SortBy`). `std::min_element` and `std::max_element` pick the first extremum (`Seqs.ArgMin`, `Seqs.ArgMax`).
- The action objects the defence keeps between calls are named by kind and robot id (`Defense.Act`). What a call sets on them is returned as `Defense.Orders`.

## Model

| member | source | states |
|---|---|---|
| `MctsGame.Score` | src/ai_server/game/detail/mcts.cc:253-260 | The score is +1, -1 or 0. It is +1 exactly near the enemy goal, which is checked first. It is non-zero exactly when the state is terminal. |
| `MctsGame.End` | src/ai_server/game/detail/mcts.cc:290-293 | The simulation stops when the ball is within 500 of either goal; `Score` is non-zero exactly on such states. |
| `MctsGame.Probability` | src/ai_server/game/detail/mcts.cc:184-189 | Passes longer than 10000 have probability 0. With a network answering in [0, 1], every probability is in [0, 1]. |
| `MctsGame.Receivers` | src/ai_server/game/detail/mcts.cc:272-279 | A pass goes to a teammate exactly when the teammate can receive: more than 500 from the ball, strictly inside the field and outside the penalty area enlarged by 200. There are at most as many passes as robots. |
| `MctsGame.ReceiversInOrder` | src/ai_server/game/detail/mcts.cc:272-279 | The passes are exactly one per robot that can receive, in the order the robots are listed: the robots are filtered by `Receivable` and each kept robot becomes a pass to its position. None is dropped, repeated or reordered. |
| `MctsGame.LegalBehaviors` | src/ai_server/game/detail/mcts.cc:262-281 | The list starts with the goal centre and the two shots 200 either side of it. Everything after those three is the list of passes to teammates, in robot order (see `ReceiversInOrder`). Its length is between 3 and 3 + the number of robots. |
| `MctsGame.NextState` | src/ai_server/game/detail/mcts.cc:283-288 | The ball moves to the target. With a Euclidean norm, time never goes back, and it stands still only when the ball does not move. How far it advances is stated by `NextStateElapsed`. |
| `MctsGame.NextStateElapsed` | src/ai_server/game/detail/mcts.cc:283-288 | With a Euclidean norm, the time advances by the pass length over the ball speed 6000: `(6000 * dt)^2` is the squared pass length. |
| `MctsExpand.Assess` | src/ai_server/game/detail/mcts.cc:151-159 | A candidate's probability is the pass probability from the ball to the behaviour's target. Its score is that probability times the score of the state it leads to. With a network answering in [0, 1], the probability is in [0, 1]. |
| `MctsExpand.Candidates` | src/ai_server/game/detail/mcts.cc:151-159 | There is one candidate per legal behaviour, in the same order. |
| `MctsExpand.MaxScore` | src/ai_server/game/detail/mcts.cc:151-161 | `max_score` is at least 0 and at least every candidate's score. It is either 0 or one of the scores. |
| `MctsExpand.Expand` | src/ai_server/game/detail/mcts.cc:150-167 | The node keeps its state, `p`, `n` and `w`. The new children (kept candidates, the last one first) go in front of the old children, which are kept in order. |
| `MctsExpand.SproutsAreKept` | src/ai_server/game/detail/mcts.cc:163-166 | A child is added exactly for each candidate whose probability reaches `max_score`. It has the candidate's next state and `p` times the candidate's probability. |
| `MctsExpand.ExpandAddsChild` | src/ai_server/game/detail/mcts.cc:151-166 | With probabilities in [0, 1], expansion always adds at least one child. |
| `MctsExpand.ExpandChildren` | src/ai_server/game/detail/mcts.cc:163-166 | Every child expansion adds is an unvisited leaf with `0 <= p <= parent.p`. |
| `MctsExpand.SproutsAreFreshLeaves` | src/ai_server/game/detail/mcts.cc:163-165 | Every node expansion creates starts with `n == 0`, `w == 0` and no children. |
| `MctsExpand.ExpandPreservesValid` | src/ai_server/game/detail/mcts.cc:150-167 | Expansion keeps the tree invariant: probabilities do not increase downwards, and `|w| <= n * p` at every node. |
| `MctsExpand.ExpandGrows` | src/ai_server/game/detail/mcts.cc:163-166 | Expansion only adds children. The old tree is a part of the new one. |
| `MctsSelect.FirstUnvisited` | src/ai_server/game/detail/mcts.cc:235-238 | The position of the first child with `n == 0`, if there is one. Every child before it has been visited. |
| `MctsSelect.NextChild` | src/ai_server/game/detail/mcts.cc:231-251 | `next_child_node` returns a position among the children; which one is stated by `NextChildSelects`. |
| `MctsSelect.NextChildSelects` | src/ai_server/game/detail/mcts.cc:231-251 | The choice is the first unvisited child. When every child has been visited, it is the first child whose UCB1 value no sibling beats. |
| `MctsSelect.SelectionIsUnique` | src/ai_server/game/detail/mcts.cc:231-251 | That description leaves exactly one choice. |
| `MctsPlayout.Pick` | src/ai_server/game/detail/mcts.cc:177-178 | The drawn index is below the number of behaviours, and one draw is used. |
| `MctsPlayout.NextMove` | src/ai_server/game/detail/mcts.cc:171-180 | When the shot at the goal centre succeeds with probability above 0.8, the move is that shot and no draw is used. Otherwise the move is the legal behaviour at the drawn index (`behaviors.at(dist(mt_))`) and exactly one draw is used. |
| `MctsPlayout.Playout` | src/ai_server/game/detail/mcts.cc:169-182 | A terminal state returns `p * score` without drawing. With probabilities in [0, 1] and `p >= 0`, the value lies in [-p, p]. A playout of at most `fuel` moves uses at most `fuel` draws. |
| `MctsPlayout.PlayoutGreedy` | src/ai_server/game/detail/mcts.cc:171-174 | From a state that has not ended, a goal shot above 0.8 is taken: the playout continues from the ball at the enemy goal centre with weight `p * p_to_goal`. Its first move uses no draw, so at most `fuel - 1` draws are used. |
| `MctsPlayout.PlayoutStep` | src/ai_server/game/detail/mcts.cc:169-182 | Each move of a game that has not ended: the playout continues from the state the move leads to, with the stream after the move, and its weight is `p` times the move's pass probability. |
| `MctsPlayout.Weigh` | src/ai_server/game/detail/mcts.cc:179-180 | The weight after a move, `p * prob`, lies in [0, p] when `p >= 0` and the probability is in [0, 1]. |
| `MctsPlayout.PlayoutDraws` | src/ai_server/game/detail/mcts.cc:175-180 | From a state that has not ended, a goal shot of at most 0.8 means the move is drawn, so the playout uses at least one draw. |
| `MctsSearch.Evaluate` | src/ai_server/game/detail/mcts.cc:108-148 | Every call adds one visit, and adds to `w` exactly the value it returns. State and `p` are unchanged. |
| `MctsSearch.EvaluateTerminal` | src/ai_server/game/detail/mcts.cc:118-123 | On a terminal state the call returns `p * score`. It neither expands nor descends, and draws nothing. |
| `MctsSearch.EvaluateLeaf` | src/ai_server/game/detail/mcts.cc:125-138 | At a leaf the call returns the playout's value. The node gets children only on its 10th visit, and the call still plays out then. |
| `MctsSearch.ExpandsOnTenthVisit` | src/ai_server/game/detail/mcts.cc:125-137 | A non-terminal leaf has children after the call exactly when this was its 10th visit. |
| `MctsSearch.EvaluateDescends` | src/ai_server/game/detail/mcts.cc:139-147 | With children, the call descends into `next_child_node`'s choice. It returns that child's value unchanged. Every other child is untouched. |
| `MctsSearch.DescentCountsChild` | src/ai_server/game/detail/mcts.cc:139-146 | A descent adds exactly one visit to the children's total. |
| `MctsSearch.EvaluatePreservesValid` | src/ai_server/game/detail/mcts.cc:108-148 | An evaluation keeps the tree invariant. Its value lies in [-p, p]. |
| `MctsSearch.EvaluateGrows` | src/ai_server/game/detail/mcts.cc:108-148 | An evaluation only adds nodes and never reorders children. |
| `MctsSearch.Descents` | src/ai_server/game/detail/mcts.cc:103-106 | `k` evaluations add `k` visits to the root and leave its state and `p` alone. |
| `MctsSearch.DescentsPreserveValid` | src/ai_server/game/detail/mcts.cc:103-106 | Repeated evaluation keeps the tree invariant. |
| `MctsSearch.DescentsGrow` | src/ai_server/game/detail/mcts.cc:103-106 | Repeated evaluation only grows the tree. |
| `MctsSearch.DescentsVisitChildren` | src/ai_server/game/detail/mcts.cc:103-106 | Below a non-terminal root that has children, each evaluation adds one visit to the children's total. |
| `MctsSearch.Execute` | src/ai_server/game/detail/mcts.cc:68-87 | Expanding the root and running `k` evaluations adds `k` visits to the root. |
| `MctsSearch.ExecutePreservesValid` | src/ai_server/game/detail/mcts.cc:79-86 | A whole search keeps the tree invariant. |
| `MctsSearch.ExecuteGrows` | src/ai_server/game/detail/mcts.cc:79-86 | A whole search only grows the caller's tree. |
| `MctsSearch.ExecuteVisitsChildren` | src/ai_server/game/detail/mcts.cc:79-86 | Below a fresh non-terminal root, the root's children receive exactly `k` visits in all. |
| `DefenseWall.WallSpacing` | src/ai_server/game/agent/defense.cc:174-192 | The points are spread evenly. Pairs step 380 apart for an even wall and 360 for an odd one, or 180 when the ball is within 3500 of the goal. |
| `DefenseWall.VertexLoopClosedForm` | src/ai_server/game/agent/defense.cc:193-200 | The loop pushes the left and right corners alternately, each pair one step further out. |
| `DefenseWall.WallTargets` | src/ai_server/game/agent/defense.cc:171-203 | There are exactly as many target points as wall robots. An even wall takes the loop's points. An odd wall takes the orientation point first and then all but the loop's last point. |
| `DefenseWall.OddWallCentred` | src/ai_server/game/agent/defense.cc:185-203 | Pushing the orientation point and dropping the last pushed point is the same as pushing one point fewer. |
| `DefenseWall.WallMove` | src/ai_server/game/agent/defense.cc:225-245 | A robot vision does not see is not moved. A robot at least 1900 from the goal goes to its target. For a robot within 1900 of the goal, the target changes in two cases only, and both lie 1360 in front of the goal line. If the target has `|y| > 1200` and the robot has `|y| < 1200`, the new `y` is a quarter of the field width, with the target's sign. Otherwise, if the target has `|y| < 1380` and the robot has `|y| > 1200`, the new `y` is 1360, with the target's sign. A changed target stays on the target's side of the field. |
| `DefenseWall.WallKick` | src/ai_server/game/agent/defense.cc:247-251 | The wall carries no kick exactly in stop mode. |
| `DefenseMarking.MarkTargets` | src/ai_server/game/agent/defense.cc:310-319 | Exactly the enemies at least 1000 from the predicted ball and with `x <= 3000` are marked. |
| `DefenseMarking.Prioritize` | src/ai_server/game/agent/defense.cc:322-331 | The enemies are reordered by `y`: ascending when the ball's `y` is not negative, descending when it is. |
| `DefenseMarking.Rank` | src/ai_server/game/agent/defense.cc:332-336 | Scores run from the number of enemies down to 1, strictly decreasing along the order. |
| `DefenseMarking.ResortKeepsRanking` | src/ai_server/game/agent/defense.cc:339-341 | Re-sorting by descending score leaves the priority order as it was. |
| `DefenseMarking.MarkList` | src/ai_server/game/agent/defense.cc:346-353 | There is one marker per distinct marking id whose robot vision sees, at that robot's position. |
| `DefenseMarking.Assign` | src/ai_server/game/agent/defense.cc:355-374 | The loop makes `min(enemies, markers)` assignments, to the enemies in priority order, and the rest of the markers are left. The first enemy's marker blocks the corner with radius 600. Every other marker blocks the shot with radius 250. |
| `DefenseMarking.AssignPermutes` | src/ai_server/game/agent/defense.cc:365-373 | The markers given out and the markers left over are exactly the markers there were. |
| `DefenseMarking.AssignNearest` | src/ai_server/game/agent/defense.cc:358-373 | No marker left free, and no marker given to a later enemy, is nearer to an enemy than the marker that enemy got. |
| `DefenseMarking.AssignNoMarkerTwice` | src/ai_server/game/agent/defense.cc:365-373 | No marker gets two enemies. None is both given out and left free. |
| `DefenseMarking.MarkPlanLeftover` | src/ai_server/game/agent/defense.cc:375-382 | The ids left over are exactly the visible marking robots that were not given an enemy. |
| `DefenseKeeper.PkClamp` | src/ai_server/game/agent/defense.cc:481-486 | The keeper's `y` is clamped to [-410, 410], and a value inside is left alone. |
| `DefenseKeeper.Keeper` | src/ai_server/game/agent/defense.cc:394-503 | The keeper clears exactly when the remembered ball is between 400 and 1000 from the goal, the ball is slower than 500 and the mode is normal (stop mode falls through to the normal-mode code but never clears). In a penalty kick the keeper stands at `goal.x + 70` within 410 of the centre line (`PkFollowsShooter` and `PkSaturates` say where), or at the origin when no enemy is seen. In the extension it stands 45 beyond the ball in `x`, away from our goal. |
| `DefenseKeeper.PkFollowsShooter` | src/ai_server/game/agent/defense.cc:467-489 | In a penalty kick, when the line of sight of the enemy nearest the predicted ball falls within 410 of the goal centre, the keeper's `y` follows it exactly. |
| `DefenseKeeper.PkSaturates` | src/ai_server/game/agent/defense.cc:476-486 | In a penalty kick, when the shooter's line of sight passes beyond 410 on either side, the keeper's `y` is 410 on that side. |
| `Defense.New` | src/ai_server/game/agent/defense.cc:14-78 | A new tactic is in normal mode, with the ball remembered at the origin and no marking ids to report. It keeps the keeper id, wall ids and marking ids it is given, and its wall is the wall ids in their given order. |
| `Defense.SetMode` | src/ai_server/game/agent/defense.cc:80-82 | Only the mode changes. |
| `Defense.MarkingIds` | src/ai_server/game/agent/defense.cc:84-86 | `marking_ids()` reports the marking robots the last marking step left without an enemy; `ExecuteMarkingIds` states what it holds after a call. |
| `Defense.OutOfField` | src/ai_server/game/agent/defense.cc:134 | The ball is out of the field when its `x` is beyond either goal line; `Execute` halts exactly then. |
| `Defense.WallPoints` | src/ai_server/game/agent/defense.cc:217-221 | The wall's targets are sorted by angle about the goal and are a permutation of the points pushed. |
| `Defense.WallOrders` | src/ai_server/game/agent/defense.cc:225-245 | The `i`-th wall robot goes for the `i`-th target, under the defence-area rule. There is one order per wall robot. |
| `Defense.Play` | src/ai_server/game/agent/defense.cc:160-509 | A call that gets past the two early exits answers every action. It changes only the wall's order and the leftover marking ids, and the wall stays a permutation of the wall ids. |
| `Defense.GetBalls` | src/ai_server/game/agent/defense.cc:294-300 | One `get_ball` action is added for each entry of the wall ids equal to the clearing robot's id. |
| `Defense.Execute` | src/ai_server/game/agent/defense.cc:117-160 | The call halts exactly when the ball is out of the field. Then the answer is the wall in its current order followed by the keeper, and only the remembered ball changes. The call throws exactly when the ball is in the field, there are two or more wall robots and one of them is not seen. Otherwise the wall stays a permutation of the wall ids and the ball is remembered. The keeper id, wall ids, marking ids and mode are unchanged. |
| `Defense.ExecuteAnswerShape` | src/ai_server/game/agent/defense.cc:386-387 | After the wall, the answer holds every marking action in order. The last action is the keeper's `get_ball` exactly when it clears, its `guard` otherwise (lines 505-509). |
| `Defense.ExecuteWallPart` | src/ai_server/game/agent/defense.cc:261-304 | The wall's part of the answer is what the clearing step makes of the re-sorted wall. |
| `Defense.ExecuteWallGuards` | src/ai_server/game/agent/defense.cc:261-304 | When nothing is cleared, the wall's part is one `guard` per wall robot, in angle order. |
| `Defense.WallActsClear` | src/ai_server/game/agent/defense.cc:281-300 | When the ball is worth clearing, the clearing robot is the first of the wall robots nearest to the predicted ball. Its `guard` is removed and the other guards keep their order. Its `get_ball` actions follow, one per occurrence of its id among the wall ids. |
| `Defense.ExecuteWallClears` | src/ai_server/game/agent/defense.cc:264-304 | When the ball is worth clearing, the clearing robot is the first of the wall robots nearest to the predicted ball. Its `guard` leaves the wall's part of the answer, and the other robots keep guarding in angle order. It gets one `get_ball` per time its id is among the wall ids. |
| `Defense.ExecuteWallOrders` | src/ai_server/game/agent/defense.cc:207-258 | The wall is sorted by angle about the goal. The `i`-th wall robot goes for the `i`-th target, subject to the defence-area rule. |
| `Defense.ExecuteMovesWholeWall` | src/ai_server/game/agent/defense.cc:209-245 | When a wall of two or more does not throw, every wall robot is seen and sent somewhere. |
| `Defense.ExecuteMarkingIds` | src/ai_server/game/agent/defense.cc:306-385 | `marking_ids()` is unchanged without marking robots or after a halt. Otherwise it holds exactly the visible marking robots not given an enemy. |
| `Defense.StopModeKeepsAway` | src/ai_server/game/agent/defense.cc:247-251 | After `set_mode(stop_mode)`, no action sent is `get_ball`, the keeper does not clear, and the wall carries no kick (lines 266 and 409-410). |
| `Rush.New` | src/ai_server/game/action/rush.cc:9-13 | A new rush is not finished. Its reference is the ball as it lies at construction. |
| `Rush.Finished` | src/ai_server/game/action/rush.cc:51-53 | `finished()` reports the flag; `Execute`, `RunStaysFinished` and `FinishesOnlyWhenKicked` state when it is set. |
| `Rush.Execute` | src/ai_server/game/action/rush.cc:15-49 | An unseen robot is stopped and the state is unchanged. The rush finishes exactly when the ball is more than 200 from the reference. Then the robot only turns and the reference is kept. Otherwise a straight kick of power 10 is armed, the robot drives at speed 2000, and the ball becomes the reference. |
| `Rush.RunStaysFinished` | src/ai_server/game/action/rush.cc:35-40 | Once finished, a rush stays finished with the same reference while the ball stays more than 200 from it (`finished()`, lines 51-53). |
| `Rush.FinishesOnlyWhenKicked` | src/ai_server/game/action/rush.cc:22-47 | A rush becomes finished only in a frame where the robot is seen and the ball has moved more than 200 from the reference of that moment. |
| `Rush.RearmsOnStillBall` | src/ai_server/game/action/rush.cc:43-47 | After a drive, a ball that has not moved gets the same drive again. |

## Left out

- Threads, locks and the timed loop of the search (`evaluator::execute`, `worker::run`, the `std::unique_lock` uses) are not modelled. A search is the root's expansion followed by `k` evaluations in sequence.
- The neural network inside `worker::probability` and the loading of its model are not modelled. It is an abstract function `Env.net`; only the cutoff beyond 10000 is modelled.
- MctsPlayout.Playout: the recursion is bounded by a step budget (`Env.playoutFuel`). A game that has not ended when the budget runs out is worth 0, where the source would keep playing.
- MctsPlayout.Pick: the Mersenne Twister and `uniform_int_distribution` are a stream of natural numbers reduced modulo the number of behaviours. Uniformity is not modelled.
- The UCB1 exploration term `sqrt(2 ln t / n)` and the Euclidean norm used for elapsed time are abstract (`Env.explore`, `Env.norm`).
- `calc_base_point`, `calc_isosceles_vertexes`, the angle `atan2` about the goal, and the keeper's normal-mode position (lines 413-460 of defense.cc) are abstract functions in `DefenseSetting.Geo`.
- DefenseKeeper.Keeper: in normal mode, when the keeper does not clear, its position is the abstract `Geo.guardPoint`. Which of the four line-intersection formulas picks it is not modelled.
- Settings that only tune how an action moves are not modelled: `set_dribble`, `set_magnification`, `set_chip`, the heading `ball_theta`, and the keeper's kick type. Likewise `set_halt(false)` on the wall and keeper in a call that does not halt; a halt is the `Halted` outcome.
- Defense.Execute: a call that throws is the `Thrown` outcome and carries no state. The source has already updated the remembered ball, and `std::sort` may have partly reordered the wall, in an order the standard leaves unspecified.
- The order `std::sort` gives to equal keys is unspecified in the source. The model sorts stably, so a tie keeps its earlier order.
- The iteration order of the unordered robot maps and of `mark_list` is unspecified in the source. The model uses the order of the sequences it is given, so `marking_ids()` lists the leftover markers in that order.
- `std::copysign` of a negative zero is not modelled: reals have no signed zero.
- Rush.Execute: the heading to the ball and its cosine and sine are abstract (`Rush.Trig`). The model proves the driving speed is 2000 but not the direction. The action's `kick_type_` field, which `execute` never reads, is not modelled, and a command's kick is `None` where the action does not set one.
- src/ai_server/model/command.h, rush.h, defense.h and mcts.h are not part of this model. The fields of `state`, `node`, `enemy` and `mark` are taken from how the source files use them.
