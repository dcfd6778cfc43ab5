/**
 * `worker::expand` (src/ai_server/game/detail/mcts.cc): score every legal
 * behaviour of a node's state, keep the ones whose success probability is at
 * least the best probability-weighted score, and push a new child for each
 * kept behaviour onto the FRONT of the node's child list.
 */
module MctsExpand {
  import opened Geometry
  import opened MctsGame
  import opened MctsTree
  import opened Seqs

  /** One behaviour with its success probability and `prob * score(next_state)`. */
  datatype Candidate = Candidate(behavior: Behavior, prob: real, score: real)

  /** One behaviour as the first loop of `expand` sees it. */
  function Assess(env: Env, s: State, b: Behavior): (c: Candidate)
    ensures c.behavior == b
    ensures c.prob == Probability(env, s.ballPos, b.target)
    ensures c.score == c.prob * Score(env, NextState(env, s, b))
    ensures ValidEnv(env) ==> 0.0 <= c.prob <= 1.0
  {
    var p := Probability(env, s.ballPos, b.target);
    Candidate(b, p, p * Score(env, NextState(env, s, b)))
  }

  function AssessAll(env: Env, s: State, bs: seq<Behavior>): (r: seq<Candidate>)
    ensures |r| == |bs|
    ensures forall k :: 0 <= k < |bs| ==> r[k] == Assess(env, s, bs[k])
  {
    if bs == [] then [] else [Assess(env, s, bs[0])] + AssessAll(env, s, bs[1..])
  }

  /** The first loop of `expand`: one candidate per legal behaviour, in order. */
  function Candidates(env: Env, s: State): (r: seq<Candidate>)
    ensures |r| == |LegalBehaviors(env, s)|
    ensures forall k :: 0 <= k < |r| ==> r[k] == Assess(env, s, LegalBehaviors(env, s)[k])
  {
    AssessAll(env, s, LegalBehaviors(env, s))
  }

  /**
   * `max_score`, starting from 0 and raised by every larger candidate score:
   * the largest of 0 and all the scores.
   */
  function MaxScore(cands: seq<Candidate>): (m: real)
    ensures 0.0 <= m
    ensures forall k :: 0 <= k < |cands| ==> cands[k].score <= m
    ensures m == 0.0 || exists k :: 0 <= k < |cands| && cands[k].score == m
  {
    MaxScoreFrom(cands, 0.0)
  }

  function MaxScoreFrom(cands: seq<Candidate>, acc: real): (m: real)
    ensures acc <= m
    ensures forall k :: 0 <= k < |cands| ==> cands[k].score <= m
    ensures m == acc || exists k :: 0 <= k < |cands| && cands[k].score == m
  {
    if cands == [] then acc
    else
      var m := MaxScoreFrom(cands[1..], if acc < cands[0].score then cands[0].score else acc);
      assert m != acc && m != cands[0].score ==> exists k :: 0 <= k < |cands[1..]| && cands[1..][k].score == m;
      m
  }

  /** The pruning rule of `expand`: a candidate is kept iff its probability reaches `m`. */
  function Keeps(m: real): Candidate -> bool {
    (c: Candidate) => m <= c.prob
  }

  /** The child built for a kept candidate: its next state, and `p` scaled by its probability. */
  function Sprout(env: Env, s: State, p: real, c: Candidate): Node {
    Leaf(NextState(env, s, c.behavior), p * c.prob)
  }

  function SproutFrom(env: Env, s: State, p: real): Candidate -> Node {
    (c: Candidate) => Sprout(env, s, p, c)
  }

  /**
   * The children `expand` pushes for the candidates `cands`: one sprout per
   * kept candidate, the last kept candidate first.
   */
  function Sprouts(env: Env, s: State, p: real, cands: seq<Candidate>): seq<Node> {
    Reverse(Map(SproutFrom(env, s, p), Filter(Keeps(MaxScore(cands)), cands)))
  }

  /**
   * `worker::expand` on one node: the new children go in front of the
   * existing ones, which are kept in order; nothing else about the node
   * changes.
   */
  function Expand(env: Env, node: Node): (r: Node)
    ensures r.state == node.state && r.p == node.p && r.n == node.n && r.w == node.w
    ensures r.children == Sprouts(env, node.state, node.p, Candidates(env, node.state)) + node.children
  {
    var cands := Candidates(env, node.state);
    node.(children := PushFrontEach(Keeps(MaxScore(cands)), SproutFrom(env, node.state, node.p), cands, node.children))
  }

  /**
   * What the first loop of `expand` guarantees about its candidates when the
   * network answers probabilities: each probability is in [0, 1] and each
   * score is that probability times a game score in {-1, 0, 1}.
   */
  ghost predicate WellScored(cands: seq<Candidate>) {
    forall k :: 0 <= k < |cands| ==>
      && 0.0 <= cands[k].prob <= 1.0
      && (cands[k].score == cands[k].prob || cands[k].score == 0.0 || cands[k].score == -cands[k].prob)
  }

  lemma AssessWellScored(env: Env, s: State, b: Behavior)
    requires ValidEnv(env)
    ensures WellScored([Assess(env, s, b)])
  {
    var c := Assess(env, s, b);
    var sc := Score(env, NextState(env, s, b));
    assert c.score == c.prob * sc;
  }

  lemma CandidatesWellScored(env: Env, s: State)
    requires ValidEnv(env)
    ensures WellScored(Candidates(env, s))
  {
    var cands := Candidates(env, s);
    forall k | 0 <= k < |cands|
      ensures 0.0 <= cands[k].prob <= 1.0
      ensures cands[k].score == cands[k].prob || cands[k].score == 0.0 || cands[k].score == -cands[k].prob
    {
      AssessWellScored(env, s, LegalBehaviors(env, s)[k]);
    }
  }

  /**
   * The pruning rule: a child is added exactly for each candidate whose
   * probability reaches `max_score`, the best probability-weighted score.
   */
  lemma SproutsAreKept(env: Env, s: State, p: real, cands: seq<Candidate>, ch: Node)
    ensures ch in Sprouts(env, s, p, cands) <==>
              exists c :: c in cands && MaxScore(cands) <= c.prob && ch == Sprout(env, s, p, c)
  {
    KeptImage(Keeps(MaxScore(cands)), SproutFrom(env, s, p), cands, ch);
  }

  /**
   * The candidate achieving `max_score` survives the pruning rule: either
   * `max_score` is 0 and the first candidate's probability is at least 0, or
   * `max_score = prob * 1` for some candidate.
   */
  lemma SomeSprout(env: Env, s: State, p: real, cands: seq<Candidate>)
    requires |cands| > 0
    requires WellScored(cands)
    ensures |Sprouts(env, s, p, cands)| > 0
  {
    var m := MaxScore(cands);
    var best: nat := 0;
    if m != 0.0 {
      var k :| 0 <= k < |cands| && cands[k].score == m;
      best := k;
    }
    assert m <= cands[best].prob;
    SproutsAreKept(env, s, p, cands, Sprout(env, s, p, cands[best]));
  }

  /** Expansion with a network that answers probabilities always adds at least one child. */
  lemma ExpandAddsChild(env: Env, node: Node)
    requires ValidEnv(env)
    ensures |Expand(env, node).children| > |node.children|
  {
    CandidatesWellScored(env, node.state);
    SomeSprout(env, node.state, node.p, Candidates(env, node.state));
  }

  lemma SproutBounds(env: Env, s: State, p: real, c: Candidate)
    requires 0.0 <= p <= 1.0 && 0.0 <= c.prob <= 1.0
    ensures 0.0 <= Sprout(env, s, p, c).p <= p
  {
    Damped(p, c.prob);
    assert Sprout(env, s, p, c).p == p * c.prob;
  }

  /** A child added by expansion is an unvisited leaf no more probable than its parent. */
  lemma SproutIsFreshLeaf(env: Env, s: State, p: real, cands: seq<Candidate>, ch: Node)
    requires WellScored(cands)
    requires 0.0 <= p <= 1.0
    requires ch in Sprouts(env, s, p, cands)
    ensures ch.n == 0 && ch.w == 0.0 && ch.children == []
    ensures 0.0 <= ch.p <= p
  {
    SproutsAreKept(env, s, p, cands, ch);
    var c :| c in cands && MaxScore(cands) <= c.prob && ch == Sprout(env, s, p, c);
    var j :| 0 <= j < |cands| && cands[j] == c;
    SproutBounds(env, s, p, c);
  }

  /** All the children pushed for well-scored candidates are fresh leaves. */
  lemma SproutsAreFreshLeaves(env: Env, s: State, p: real, cands: seq<Candidate>)
    requires WellScored(cands)
    requires 0.0 <= p <= 1.0
    ensures var added := Sprouts(env, s, p, cands);
            forall k :: 0 <= k < |added| ==>
              added[k].n == 0 && added[k].w == 0.0 && added[k].children == []
              && 0.0 <= added[k].p <= p
  {
    var added := Sprouts(env, s, p, cands);
    forall k | 0 <= k < |added|
      ensures added[k].n == 0 && added[k].w == 0.0 && added[k].children == []
              && 0.0 <= added[k].p <= p
    {
      SproutIsFreshLeaf(env, s, p, cands, added[k]);
    }
  }

  /** Every child expansion creates is unvisited and no more probable than its parent. */
  lemma ExpandChildren(env: Env, node: Node)
    requires ValidEnv(env)
    requires 0.0 <= node.p <= 1.0
    ensures var r := Expand(env, node);
            forall k :: 0 <= k < |r.children| - |node.children| ==>
              r.children[k].n == 0 && r.children[k].w == 0.0 && r.children[k].children == []
              && 0.0 <= r.children[k].p <= node.p
  {
    CandidatesWellScored(env, node.state);
    SproutsAreFreshLeaves(env, node.state, node.p, Candidates(env, node.state));
  }

  /** Expansion keeps a tree valid. */
  lemma ExpandPreservesValid(env: Env, node: Node)
    requires ValidEnv(env)
    requires Valid(node)
    ensures Valid(Expand(env, node))
  {
    var added := Sprouts(env, node.state, node.p, Candidates(env, node.state));
    CandidatesWellScored(env, node.state);
    SproutsAreFreshLeaves(env, node.state, node.p, Candidates(env, node.state));
    PrependLeavesValid(node, added);
    assert Expand(env, node) == node.(children := added + node.children);
  }

  /** Expansion only adds children: the old tree grows into the new one. */
  lemma ExpandGrows(env: Env, node: Node)
    ensures Grows(node, Expand(env, node))
  {
    var r := Expand(env, node);
    assert r.children[|r.children| - |node.children|..] == node.children;
    GrowsByPrepending(node, r);
  }
}
