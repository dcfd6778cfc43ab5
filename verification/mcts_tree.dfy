/**
 * The search tree of src/ai_server/game/detail/mcts.cc as an immutable value.
 * A node holds its state, the probability `p` of reaching it from the root,
 * its visit count `n`, its reward sum `w` and its children in list order
 * (the source keeps them in a `std::forward_list`). The node's mutex is not
 * modelled: a sequential search reads and writes each node atomically.
 */
module MctsTree {
  import opened MctsGame

  datatype Node = Node(state: State, p: real, n: nat, w: real, children: seq<Node>)

  /** `node(state, p)`: a fresh leaf, never visited, with no reward. */
  function Leaf(state: State, p: real): Node {
    Node(state, p, 0, 0.0, [])
  }

  /** The total visit count of a list of siblings. */
  function SumVisits(cs: seq<Node>): nat {
    if cs == [] then 0 else cs[0].n + SumVisits(cs[1..])
  }

  lemma {:induction false} SumVisitsAppend(a: seq<Node>, b: seq<Node>)
    ensures SumVisits(a + b) == SumVisits(a) + SumVisits(b)
  {
    if a != [] {
      assert (a + b)[1..] == a[1..] + b;
      SumVisitsAppend(a[1..], b);
    } else {
      assert a + b == b;
    }
  }

  lemma {:induction false} SumVisitsUnvisited(cs: seq<Node>)
    requires forall i :: 0 <= i < |cs| ==> cs[i].n == 0
    ensures SumVisits(cs) == 0
  {
    if cs != [] {
      SumVisitsUnvisited(cs[1..]);
    }
  }

  /** Replacing one sibling changes the total by exactly the change in its count. */
  lemma {:induction false} SumVisitsUpdate(cs: seq<Node>, i: nat, c: Node)
    requires i < |cs|
    ensures SumVisits(cs[i := c]) + cs[i].n == SumVisits(cs) + c.n
  {
    if i > 0 {
      assert cs[i := c][1..] == cs[1..][i - 1 := c];
      SumVisitsUpdate(cs[1..], i - 1, c);
    }
  }

  /** `w` lies within what `n` rewards, each of magnitude at most `p`, can sum to. */
  predicate RewardBounded(n: nat, p: real, w: real) {
    -(n as real) * p <= w <= (n as real) * p
  }

  /**
   * The invariants of a search tree: `p` is a probability that never grows
   * from parent to child, the reward sum is bounded by `n * p` in magnitude
   * (every reward is a probability times a score in {-1, 0, 1}), and the
   * children together were visited no more often than their parent.
   */

  ghost predicate Valid(node: Node)
    decreases node
  {
    && 0.0 <= node.p <= 1.0
    && RewardBounded(node.n, node.p, node.w)
    && SumVisits(node.children) <= node.n
    && forall i :: 0 <= i < |node.children| ==>
         node.children[i].p <= node.p && Valid(node.children[i])
  }

  /** A valid node with fresh leaves pushed in front of its children is still valid. */
  lemma PrependLeavesValid(node: Node, added: seq<Node>)
    requires Valid(node)
    requires forall k :: 0 <= k < |added| ==>
               added[k].n == 0 && added[k].w == 0.0 && added[k].children == []
               && 0.0 <= added[k].p <= node.p
    ensures Valid(node.(children := added + node.children))
  {
    var r := node.(children := added + node.children);
    var d := |added|;
    SumVisitsAppend(added, node.children);
    SumVisitsUnvisited(added);
    forall i | 0 <= i < |r.children|
      ensures r.children[i].p <= r.p && Valid(r.children[i])
    {
      if i >= d {
        assert r.children[i] == node.children[i - d];
      } else {
        assert r.children[i] == added[i];
        assert RewardBounded(0, added[i].p, 0.0);
      }
    }
  }

  /**
   * `b` is `a` after more search: same state and probability, no fewer
   * visits, and every old child still present, after any children that
   * were pushed in front of it.
   */
  ghost predicate Grows(a: Node, b: Node)
    decreases a
  {
    && b.state == a.state
    && b.p == a.p
    && a.n <= b.n
    && |a.children| <= |b.children|
    && forall i :: 0 <= i < |a.children| ==>
         Grows(a.children[i], b.children[|b.children| - |a.children| + i])
  }

  lemma {:induction false} GrowsReflexive(a: Node)
    ensures Grows(a, a)
    decreases a
  {
    forall i | 0 <= i < |a.children|
      ensures Grows(a.children[i], a.children[i])
    {
      GrowsReflexive(a.children[i]);
    }
  }

  /** A node whose old children are all still there, after some new ones, has grown. */
  lemma GrowsByPrepending(a: Node, b: Node)
    requires b.state == a.state && b.p == a.p && a.n <= b.n
    requires |a.children| <= |b.children|
    requires b.children[|b.children| - |a.children|..] == a.children
    ensures Grows(a, b)
  {
    var d := |b.children| - |a.children|;
    forall i | 0 <= i < |a.children|
      ensures Grows(a.children[i], b.children[d + i])
    {
      assert b.children[d..][i] == a.children[i];
      GrowsReflexive(a.children[i]);
    }
  }

  lemma {:induction false} GrowsTransitive(a: Node, b: Node, c: Node)
    requires Grows(a, b) && Grows(b, c)
    ensures Grows(a, c)
    decreases a
  {
    var da := |b.children| - |a.children|;
    var db := |c.children| - |b.children|;
    forall i | 0 <= i < |a.children|
      ensures Grows(a.children[i], c.children[|c.children| - |a.children| + i])
    {
      assert |c.children| - |a.children| + i == db + (da + i);
      GrowsTransitive(a.children[i], b.children[da + i], c.children[db + (da + i)]);
    }
  }
}
