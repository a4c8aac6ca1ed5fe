/** The state-space interface the graph searches consume, and the facts about
    walks through it that the searches' contracts are stated in.

    A search problem is given by its start state, its goal test and its
    successor function; the searches never look inside a state. The frontier
    entries the searches keep are (state, path, cost) triples. */
module SearchProblem {

  /** One triple returned by `get_successors`: the successor state, the action
      that reaches it and the incremental step cost. */
  datatype Successor<S, A> = Successor(state: S, action: A, cost: int)

  /** The three queries of a search problem the searches call. */
  datatype Problem<!S, A> = Problem(
    startState: S,
    isGoalState: S -> bool,
    getSuccessors: S -> seq<Successor<S, A>>)

  /** A frontier entry: a state, the actions that led to it and their cost. */
  datatype Entry<S, A> = Entry(state: S, path: seq<A>, cost: int)

  /** The entry every search starts from: the start state, no actions, cost 0. */
  function StartEntry<S, A>(p: Problem<S, A>): Entry<S, A>
  {
    Entry(p.startState, [], 0)
  }

  /** The entry pushed for successor `t` of the entry `e` being expanded:
      its path is `e`'s path plus one action, its cost `e`'s cost plus one step. */
  function Child<S, A>(e: Entry<S, A>, t: Successor<S, A>): Entry<S, A>
  {
    Entry(t.state, e.path + [t.action], e.cost + t.cost)
  }

  /** The states held by a sequence of entries, in frontier order. */
  function Coords<S, A>(f: seq<Entry<S, A>>): (c: seq<S>)
    ensures |c| == |f|
    ensures forall k :: 0 <= k < |f| ==> c[k] == f[k].state
  {
    seq(|f|, k requires 0 <= k < |f| => f[k].state)
  }

  // ---------------------------------------------------------------------------
  // Walks through the state space

  /** The state reached from `from` by the steps of `w`. */
  function End<S, A>(from: S, w: seq<Successor<S, A>>): S
  {
    if w == [] then from else w[|w| - 1].state
  }

  /** Every step of `w` is one of the successors of the state before it. */
  ghost predicate IsWalk<S, A>(p: Problem<S, A>, from: S, w: seq<Successor<S, A>>)
    decreases |w|
  {
    w == [] ||
    (IsWalk(p, from, w[..|w| - 1]) && w[|w| - 1] in p.getSuccessors(End(from, w[..|w| - 1])))
  }

  /** The actions along a walk, in order. */
  function Actions<S, A>(w: seq<Successor<S, A>>): seq<A>
    decreases |w|
  {
    if w == [] then [] else Actions(w[..|w| - 1]) + [w[|w| - 1].action]
  }

  /** The sum of the step costs along a walk. */
  function PathCost<S, A>(w: seq<Successor<S, A>>): int
    decreases |w|
  {
    if w == [] then 0 else PathCost(w[..|w| - 1]) + w[|w| - 1].cost
  }

  /** `w` is a walk from the start state that explains entry `e`: it ends in
      `e`'s state, its actions are `e`'s path and its step costs sum to `e`'s cost. */
  ghost predicate Tracks<S, A>(p: Problem<S, A>, e: Entry<S, A>, w: seq<Successor<S, A>>)
  {
    IsWalk(p, p.startState, w) && End(p.startState, w) == e.state &&
    Actions(w) == e.path && PathCost(w) == e.cost
  }

  /** Some walk from the start state explains entry `e`. */
  ghost predicate Reached<S(!new), A(!new)>(p: Problem<S, A>, e: Entry<S, A>)
  {
    exists w :: Tracks(p, e, w)
  }

  /** `path` is the action sequence of a walk from the start state to a goal. */
  ghost predicate Solution<S(!new), A(!new)>(p: Problem<S, A>, path: seq<A>)
  {
    exists w :: IsWalk(p, p.startState, w) && Actions(w) == path && p.isGoalState(End(p.startState, w))
  }

  /** Some walk from the start state ends in a goal state. */
  ghost predicate GoalReachable<S(!new), A(!new)>(p: Problem<S, A>)
  {
    exists w :: IsWalk(p, p.startState, w) && p.isGoalState(End(p.startState, w))
  }

  /** `states` is a finite state space for `p`: it holds the start state and
      is closed under successors. */
  ghost predicate Closed<S, A>(p: Problem<S, A>, states: set<S>)
  {
    p.startState in states &&
    forall s, t :: s in states && t in p.getSuccessors(s) ==> t.state in states
  }

  /** Every successor of a state in `expanded` is itself expanded or pending. */
  ghost predicate Covered<S, A>(p: Problem<S, A>, expanded: set<S>, pending: seq<S>)
  {
    forall s, t :: s in expanded && t in p.getSuccessors(s) ==> t.state in expanded || t.state in pending
  }

  /** No expanded state passed the goal test. */
  ghost predicate NoGoalIn<S, A>(p: Problem<S, A>, expanded: set<S>)
  {
    forall s :: s in expanded ==> !p.isGoalState(s)
  }

  // ---------------------------------------------------------------------------
  // Lemmas

  lemma WalkAppend<S(!new), A(!new)>(p: Problem<S, A>, from: S, w: seq<Successor<S, A>>, t: Successor<S, A>)
    requires IsWalk(p, from, w) && t in p.getSuccessors(End(from, w))
    ensures IsWalk(p, from, w + [t]) && End(from, w + [t]) == t.state
    ensures Actions(w + [t]) == Actions(w) + [t.action]
    ensures PathCost(w + [t]) == PathCost(w) + t.cost
  {
  }

  /** The start entry is explained by the empty walk. */
  lemma StartReached<S(!new), A(!new)>(p: Problem<S, A>)
    ensures Reached(p, StartEntry(p))
  {
    assert Tracks(p, StartEntry(p), []);
  }

  /** A pushed entry extends its parent's path by exactly the successor's
      action and its cost by exactly the step cost, so when the parent is
      explained by a walk from the start, so is the child, one step longer. */
  lemma ChildReached<S(!new), A(!new)>(p: Problem<S, A>, e: Entry<S, A>, t: Successor<S, A>)
    requires Reached(p, e) && t in p.getSuccessors(e.state)
    ensures Reached(p, Child(e, t))
  {
    var w :| Tracks(p, e, w);
    WalkAppend(p, p.startState, w, t);
    assert Tracks(p, Child(e, t), w + [t]);
  }

  /** A reached entry whose state is a goal carries a solution. */
  lemma ReachedGoalIsSolution<S(!new), A(!new)>(p: Problem<S, A>, e: Entry<S, A>)
    requires Reached(p, e) && p.isGoalState(e.state)
    ensures Solution(p, e.path)
  {
  }

  /** When nothing is pending, the expanded set contains the start state and
      every successor of its members, so every walk from the start ends in it. */
  lemma {:induction false} ExhaustedContainsWalkEnd<S(!new), A(!new)>(p: Problem<S, A>, expanded: set<S>, w: seq<Successor<S, A>>)
    requires p.startState in expanded && Covered(p, expanded, [])
    requires IsWalk(p, p.startState, w)
    ensures End(p.startState, w) in expanded
    decreases |w|
  {
    if w != [] {
      ExhaustedContainsWalkEnd(p, expanded, w[..|w| - 1]);
    }
  }

  /** An exhausted search with no goal among its expanded states proves that
      no goal is reachable at all. */
  lemma ExhaustedMeansNoGoal<S(!new), A(!new)>(p: Problem<S, A>, expanded: set<S>)
    requires p.startState in expanded && Covered(p, expanded, [])
    requires NoGoalIn(p, expanded)
    ensures !GoalReachable(p)
  {
    if GoalReachable(p) {
      var w :| IsWalk(p, p.startState, w) && p.isGoalState(End(p.startState, w));
      ExhaustedContainsWalkEnd(p, expanded, w);
    }
  }
}
