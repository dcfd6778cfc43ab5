/**
 * `worker::next_child_node` (src/ai_server/game/detail/mcts.cc): the child
 * the descent continues into. An unvisited child wins outright, the first
 * one in list order; otherwise the UCB1 value `w/n + sqrt(2 ln t / n)` is
 * maximised, where `t` is the children's total visit count, and
 * `std::max_element` keeps the first of several equal maxima.
 */
module MctsSelect {
  import opened Seqs
  import opened MctsGame
  import opened MctsTree

  /** The UCB1 value of a visited child when its siblings were visited `t` times in all. */
  function Ucb(env: Env, t: nat, c: Node): real
    requires c.n > 0
  {
    c.w / (c.n as real) + env.explore(t, c.n)
  }

  /** `Ucb` as a key for `ArgMax`; the guard is never taken once every child is visited. */
  function UcbKey(env: Env, t: nat): Node -> real {
    (c: Node) => if c.n == 0 then 0.0 else Ucb(env, t, c)
  }

  /** The position of the first unvisited child, or `|cs|` when there is none. */
  function FirstUnvisited(cs: seq<Node>): (i: nat)
    ensures i <= |cs|
    ensures i < |cs| ==> cs[i].n == 0
    ensures forall j :: 0 <= j < i ==> cs[j].n > 0
  {
    if cs == [] then 0
    else if cs[0].n == 0 then 0
    else 1 + FirstUnvisited(cs[1..])
  }

  /** `next_child_node` over a non-empty child list, as a position in it. */
  function NextChild(env: Env, cs: seq<Node>): (i: nat)
    requires |cs| > 0
    ensures i < |cs|
  {
    var u := FirstUnvisited(cs);
    if u < |cs| then u else ArgMax(cs, UcbKey(env, SumVisits(cs)))
  }

  /**
   * What `next_child_node` picks: the first unvisited child if there is one;
   * otherwise a child whose UCB1 value no sibling beats, and no earlier
   * sibling reaches.
   */
  ghost predicate IsSelected(env: Env, cs: seq<Node>, i: nat) {
    && i < |cs|
    && if exists j :: 0 <= j < |cs| && cs[j].n == 0 then
         cs[i].n == 0 && forall j :: 0 <= j < i ==> cs[j].n > 0
       else
         var t := SumVisits(cs);
         && (forall j :: 0 <= j < |cs| ==> Ucb(env, t, cs[j]) <= Ucb(env, t, cs[i]))
         && (forall j :: 0 <= j < i ==> Ucb(env, t, cs[j]) < Ucb(env, t, cs[i]))
  }

  /** `NextChild` makes the choice `IsSelected` describes. */
  lemma NextChildSelects(env: Env, cs: seq<Node>)
    requires |cs| > 0
    ensures IsSelected(env, cs, NextChild(env, cs))
  {
    var u := FirstUnvisited(cs);
    if u == |cs| {
      var i := NextChild(env, cs);
      var key := UcbKey(env, SumVisits(cs));
      assert forall j :: 0 <= j < |cs| ==> key(cs[j]) == Ucb(env, SumVisits(cs), cs[j]);
    }
  }

  /** `IsSelected` allows exactly one position, so it pins `NextChild` down. */
  lemma SelectionIsUnique(env: Env, cs: seq<Node>, i: nat, k: nat)
    requires IsSelected(env, cs, i) && IsSelected(env, cs, k)
    ensures i == k
  {
  }
}
