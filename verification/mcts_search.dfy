/**
 * `worker::evaluate` and `evaluator::execute`
 * (src/ai_server/game/detail/mcts.cc): one descent of the search from a
 * node, and a whole search as an expansion of the root followed by a number
 * of descents. The threads, the 10 ms wall-clock budget and the locks are
 * not modelled: descents run one after another, each reading and writing a
 * node atomically.
 */
module MctsSearch {
  import opened MctsGame
  import opened MctsTree
  import opened MctsExpand
  import opened MctsSelect
  import opened MctsPlayout

  /** The visit count at which a leaf is expanded. */
  const ExpandThreshold: nat := 10

  /** A node after a descent, the value the descent returned, and the stream after it. */
  datatype Visit = Visit(node: Node, v: real, rng: Rng)

  /**
   * `worker::evaluate(node)`: count the visit, then score a terminal state,
   * play out from a leaf (expanding it first on exactly its tenth visit), or
   * descend into the child `next_child_node` picks; the value found is added
   * to `w` and returned unchanged.
   */
  function Evaluate(env: Env, node: Node, rng: Rng): (r: Visit)
    ensures r.node.state == node.state && r.node.p == node.p
    ensures r.node.n == node.n + 1
    ensures r.node.w == node.w + r.v
    decreases node
  {
    var counted := node.(n := node.n + 1);
    if End(env, node.state) then
      var v := node.p * Score(env, node.state);
      Visit(counted.(w := node.w + v), v, rng)
    else if node.children == [] then
      var grown := if counted.n == ExpandThreshold then Expand(env, counted) else counted;
      var ro := Playout(env, rng, env.playoutFuel, node.state, node.p);
      Visit(grown.(w := node.w + ro.v), ro.v, ro.rng)
    else
      var i := NextChild(env, node.children);
      var sub := Evaluate(env, node.children[i], rng);
      Visit(counted.(w := node.w + sub.v, children := node.children[i := sub.node]), sub.v, sub.rng)
  }

  /** A terminal node scores itself: `p * score(state)`, with no expansion, descent or draw. */
  lemma EvaluateTerminal(env: Env, node: Node, rng: Rng)
    requires End(env, node.state)
    ensures var r := Evaluate(env, node, rng);
            && r.v == node.p * Score(env, node.state)
            && r.node.children == node.children
            && r.rng == rng
  {
  }

  /**
   * A non-terminal leaf plays out, and the value of the playout is what the
   * call returns; it grows children exactly when this is its tenth visit,
   * and then they are the ones `expand` builds.
   */
  lemma EvaluateLeaf(env: Env, node: Node, rng: Rng)
    requires !End(env, node.state) && node.children == []
    ensures var r := Evaluate(env, node, rng);
            var ro := Playout(env, rng, env.playoutFuel, node.state, node.p);
            && r.v == ro.v && r.rng == ro.rng
            && (node.n + 1 != ExpandThreshold ==> r.node.children == [])
            && (node.n + 1 == ExpandThreshold ==>
                  r.node.children == Sprouts(env, node.state, node.p, Candidates(env, node.state)))
  {
    var counted := node.(n := node.n + 1);
    if counted.n == ExpandThreshold {
      assert Expand(env, counted).children == Sprouts(env, node.state, node.p, Candidates(env, node.state)) + [];
    }
  }

  /** With a network that answers probabilities, a leaf gains children on its tenth visit and on no other. */
  lemma ExpandsOnTenthVisit(env: Env, node: Node, rng: Rng)
    requires ValidEnv(env)
    requires !End(env, node.state) && node.children == []
    ensures |Evaluate(env, node, rng).node.children| > 0 <==> node.n + 1 == ExpandThreshold
  {
    EvaluateLeaf(env, node, rng);
    if node.n + 1 == ExpandThreshold {
      ExpandAddsChild(env, node);
    }
  }

  /**
   * An inner node descends into the child `next_child_node` picks: that child
   * is replaced by its own visited self, its siblings are untouched, and the
   * child's value is passed up unchanged.
   */
  lemma EvaluateDescends(env: Env, node: Node, rng: Rng)
    requires !End(env, node.state) && node.children != []
    ensures var r := Evaluate(env, node, rng);
            var i := NextChild(env, node.children);
            var sub := Evaluate(env, node.children[i], rng);
            && |r.node.children| == |node.children|
            && r.node.children[i] == sub.node
            && (forall j :: 0 <= j < |node.children| && j != i ==> r.node.children[j] == node.children[j])
            && r.v == sub.v && r.rng == sub.rng
  {
  }

  /** One more reward of magnitude at most `p` keeps the reward sum within bounds. */
  lemma RewardStep(n: nat, p: real, w: real, v: real)
    requires RewardBounded(n, p, w)
    requires -p <= v <= p
    ensures RewardBounded(n + 1, p, w + v)
  {
    assert ((n + 1) as real) * p == (n as real) * p + p;
  }

  /** The terminal case of `EvaluatePreservesValid`. */
  lemma TerminalKeepsValid(env: Env, node: Node, rng: Rng)
    requires Valid(node)
    requires End(env, node.state)
    ensures Valid(Evaluate(env, node, rng).node)
    ensures -node.p <= Evaluate(env, node, rng).v <= node.p
  {
    var r := Evaluate(env, node, rng);
    EvaluateTerminal(env, node, rng);
    var sc := Score(env, node.state);
    assert r.v == node.p * sc;
    RewardStep(node.n, node.p, node.w, r.v);
    assert r.node == node.(n := node.n + 1, w := node.w + r.v);
  }

  /** The leaf case of `EvaluatePreservesValid`, with or without expansion. */
  lemma LeafKeepsValid(env: Env, node: Node, rng: Rng)
    requires ValidEnv(env)
    requires Valid(node)
    requires !End(env, node.state) && node.children == []
    ensures Valid(Evaluate(env, node, rng).node)
    ensures -node.p <= Evaluate(env, node, rng).v <= node.p
  {
    var r := Evaluate(env, node, rng);
    EvaluateLeaf(env, node, rng);
    RewardStep(node.n, node.p, node.w, r.v);
    var counted := node.(n := node.n + 1, w := node.w + r.v);
    assert Valid(counted);
    if node.n + 1 == ExpandThreshold {
      var cands := Candidates(env, node.state);
      var added := Sprouts(env, node.state, node.p, cands);
      CandidatesWellScored(env, node.state);
      SproutsAreFreshLeaves(env, node.state, node.p, cands);
      PrependLeavesValid(counted, added);
      assert r.node == counted.(children := added + counted.children);
    } else {
      assert r.node == counted;
    }
  }

  /** The descent case of `EvaluatePreservesValid`, given the result for the chosen child. */
  lemma DescentKeepsValid(env: Env, node: Node, rng: Rng)
    requires Valid(node)
    requires !End(env, node.state) && node.children != []
    requires var child := node.children[NextChild(env, node.children)];
             && Valid(Evaluate(env, child, rng).node)
             && -child.p <= Evaluate(env, child, rng).v <= child.p
    ensures Valid(Evaluate(env, node, rng).node)
    ensures -node.p <= Evaluate(env, node, rng).v <= node.p
  {
    var r := Evaluate(env, node, rng);
    EvaluateDescends(env, node, rng);
    var i := NextChild(env, node.children);
    var sub := Evaluate(env, node.children[i], rng);
    RewardStep(node.n, node.p, node.w, r.v);
    SumVisitsUpdate(node.children, i, sub.node);
    assert r.node == node.(n := node.n + 1, w := node.w + r.v, children := node.children[i := sub.node]);
  }

  /**
   * A descent keeps a valid tree valid, and the value it returns is a
   * probability times a score: at most the node's `p` in magnitude.
   */
  lemma {:induction false} EvaluatePreservesValid(env: Env, node: Node, rng: Rng)
    requires ValidEnv(env)
    requires Valid(node)
    ensures Valid(Evaluate(env, node, rng).node)
    ensures -node.p <= Evaluate(env, node, rng).v <= node.p
    decreases node
  {
    if End(env, node.state) {
      TerminalKeepsValid(env, node, rng);
    } else if node.children == [] {
      LeafKeepsValid(env, node, rng);
    } else {
      EvaluatePreservesValid(env, node.children[NextChild(env, node.children)], rng);
      DescentKeepsValid(env, node, rng);
    }
  }

  /** A descent only adds: every node of the old tree has grown into the new one. */
  lemma {:induction false} EvaluateGrows(env: Env, node: Node, rng: Rng)
    ensures Grows(node, Evaluate(env, node, rng).node)
    decreases node
  {
    var r := Evaluate(env, node, rng);
    if End(env, node.state) {
      EvaluateTerminal(env, node, rng);
      assert r.node.children[0..] == node.children;
      GrowsByPrepending(node, r.node);
    } else if node.children == [] {
    } else {
      EvaluateDescends(env, node, rng);
      var i := NextChild(env, node.children);
      forall j | 0 <= j < |node.children|
        ensures Grows(node.children[j], r.node.children[j])
      {
        if j == i {
          EvaluateGrows(env, node.children[i], rng);
        } else {
          GrowsReflexive(node.children[j]);
        }
      }
    }
  }

  /** A descent through a non-terminal inner node visits exactly one of its children once. */
  lemma DescentCountsChild(env: Env, node: Node, rng: Rng)
    requires !End(env, node.state) && node.children != []
    ensures var r := Evaluate(env, node, rng);
            && |r.node.children| == |node.children|
            && SumVisits(r.node.children) == SumVisits(node.children) + 1
  {
    EvaluateDescends(env, node, rng);
    var i := NextChild(env, node.children);
    var r := Evaluate(env, node, rng);
    assert r.node.children == node.children[i := Evaluate(env, node.children[i], rng).node];
    SumVisitsUpdate(node.children, i, Evaluate(env, node.children[i], rng).node);
  }

  /** A root after a number of descents, and the random stream after them. */
  datatype Search = Search(root: Node, rng: Rng)

  /** `k` descents from `root`, one after another. */
  function Descents(env: Env, root: Node, k: nat, rng: Rng): (r: Search)
    ensures r.root.state == root.state && r.root.p == root.p
    ensures r.root.n == root.n + k
    decreases k
  {
    if k == 0 then Search(root, rng)
    else
      var d := Evaluate(env, root, rng);
      Descents(env, d.node, k - 1, d.rng)
  }

  /**
   * `evaluator::execute`: expand the root once, then descend `k` times (the
   * source descends from several threads until 10 ms have passed).
   */
  function Execute(env: Env, root: Node, k: nat, rng: Rng): (r: Search)
    ensures r.root.state == root.state && r.root.p == root.p
    ensures r.root.n == root.n + k
  {
    Descents(env, Expand(env, root), k, rng)
  }

  lemma {:induction false} DescentsPreserveValid(env: Env, root: Node, k: nat, rng: Rng)
    requires ValidEnv(env) && Valid(root)
    ensures Valid(Descents(env, root, k, rng).root)
    decreases k
  {
    if k > 0 {
      var d := Evaluate(env, root, rng);
      EvaluatePreservesValid(env, root, rng);
      assert Valid(Descents(env, d.node, k - 1, d.rng).root) by {
        DescentsPreserveValid(env, d.node, k - 1, d.rng);
      }
      DescentsValidStep(env, root, k, rng);
    }
  }

  /** The root after `k` descents is the root after the last `k - 1` of them. */
  lemma DescentsValidStep(env: Env, root: Node, k: nat, rng: Rng)
    requires k > 0
    requires var d := Evaluate(env, root, rng);
             Valid(Descents(env, d.node, k - 1, d.rng).root)
    ensures Valid(Descents(env, root, k, rng).root)
  {
  }

  /** One descent followed by more search grows the tree if the later search does. */
  lemma DescentsGrowStep(env: Env, root: Node, k: nat, rng: Rng)
    requires k > 0
    requires var d := Evaluate(env, root, rng);
             Grows(d.node, Descents(env, d.node, k - 1, d.rng).root)
    ensures Grows(root, Descents(env, root, k, rng).root)
  {
    var d := Evaluate(env, root, rng);
    EvaluateGrows(env, root, rng);
    GrowsTransitive(root, d.node, Descents(env, d.node, k - 1, d.rng).root);
  }

  /** No search leaves the tree as it was, which counts as growing. */
  lemma DescentsGrowBase(env: Env, root: Node, rng: Rng)
    ensures Grows(root, Descents(env, root, 0, rng).root)
  {
    GrowsReflexive(root);
  }

  lemma {:induction false} DescentsGrow(env: Env, root: Node, k: nat, rng: Rng)
    ensures Grows(root, Descents(env, root, k, rng).root)
    decreases k
  {
    if k == 0 {
      DescentsGrowBase(env, root, rng);
    } else {
      var d := Evaluate(env, root, rng);
      assert Grows(d.node, Descents(env, d.node, k - 1, d.rng).root) by {
        DescentsGrow(env, d.node, k - 1, d.rng);
      }
      DescentsGrowStep(env, root, k, rng);
    }
  }

  /**
   * From a non-terminal root that has children, every descent goes into one
   * of them: after `k` descents the children were visited `k` more times.
   */
  lemma {:induction false} DescentsVisitChildren(env: Env, root: Node, k: nat, rng: Rng)
    requires !End(env, root.state) && root.children != []
    ensures var r := Descents(env, root, k, rng).root;
            |r.children| == |root.children| && SumVisits(r.children) == SumVisits(root.children) + k
    decreases k
  {
    if k > 0 {
      var d := Evaluate(env, root, rng);
      DescentCountsChild(env, root, rng);
      assert var r := Descents(env, d.node, k - 1, d.rng).root;
             |r.children| == |d.node.children| && SumVisits(r.children) == SumVisits(d.node.children) + (k - 1) by {
        DescentsVisitChildren(env, d.node, k - 1, d.rng);
      }
      DescentsVisitStep(env, root, k, rng);
    }
  }

  /** One descent into the children followed by more search visits the children once more. */
  lemma DescentsVisitStep(env: Env, root: Node, k: nat, rng: Rng)
    requires k > 0 && !End(env, root.state) && root.children != []
    requires var d := Evaluate(env, root, rng);
             var r := Descents(env, d.node, k - 1, d.rng).root;
             |r.children| == |d.node.children| && SumVisits(r.children) == SumVisits(d.node.children) + (k - 1)
    ensures var r := Descents(env, root, k, rng).root;
            |r.children| == |root.children| && SumVisits(r.children) == SumVisits(root.children) + k
  {
    DescentCountsChild(env, root, rng);
  }

  /** A search keeps a valid tree valid. */
  lemma ExecutePreservesValid(env: Env, root: Node, k: nat, rng: Rng)
    requires ValidEnv(env) && Valid(root)
    ensures Valid(Execute(env, root, k, rng).root)
  {
    ExpandPreservesValid(env, root);
    DescentsPreserveValid(env, Expand(env, root), k, rng);
  }

  /** A search only adds to the tree it starts from. */
  lemma ExecuteGrows(env: Env, root: Node, k: nat, rng: Rng)
    ensures Grows(root, Execute(env, root, k, rng).root)
  {
    ExpandGrows(env, root);
    DescentsGrow(env, Expand(env, root), k, rng);
    GrowsTransitive(root, Expand(env, root), Execute(env, root, k, rng).root);
  }

  /**
   * With a network that answers probabilities, a search from a non-terminal
   * root whose children have not been visited spreads all `k`
   * descents over the root's children: their visits add up to `k`.
   */
  lemma ExecuteVisitsChildren(env: Env, root: Node, k: nat, rng: Rng)
    requires ValidEnv(env)
    requires 0.0 <= root.p <= 1.0
    requires !End(env, root.state)
    requires SumVisits(root.children) == 0
    ensures SumVisits(Execute(env, root, k, rng).root.children) == k
  {
    var e := Expand(env, root);
    var cands := Candidates(env, root.state);
    var added := Sprouts(env, root.state, root.p, cands);
    ExpandAddsChild(env, root);
    CandidatesWellScored(env, root.state);
    SproutsAreFreshLeaves(env, root.state, root.p, cands);
    SumVisitsUnvisited(added);
    SumVisitsAppend(added, root.children);
    DescentsVisitChildren(env, e, k, rng);
  }
}
