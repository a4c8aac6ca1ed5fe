/** `AlphaBetaAgent.get_action` of multiagent/multi_agents.py: `max_func` and
    `min_func` carry a window [alpha, beta]. Pacman's loop stops as soon as
    its running best exceeds beta and otherwise raises alpha to it; a ghost's
    loop stops as soon as its running best falls below alpha and otherwise
    lowers beta to it. Both cuts use strict comparisons, so the window is
    closed: a value equal to a bound is still exact.

    Each helper is proved against the minimax value of the same node: inside
    the window it returns that value and action exactly, above the window a
    score between beta and the value, below it a score between the value and
    alpha. */
module AlphaBeta {
  import opened GameTree
  import opened Minimax

  /** `r` is what an alpha-beta search of a node whose minimax decision is
      `v` may return for the window [alpha, beta]. */
  predicate FailSoft<A(==)>(v: Decision<A>, alpha: int, beta: int, r: Decision<A>)
  {
    (alpha <= v.score <= beta ==> r == v) && ScoreFailSoft(v.score, alpha, beta, r.score)
  }

  /** The bounds `FailSoft` puts on the returned score `x` of a node of
      value `value`. */
  predicate ScoreFailSoft(value: int, alpha: int, beta: int, x: int)
  {
    (alpha <= value <= beta ==> x == value) &&
    (value > beta ==> beta < x <= value) &&
    (value < alpha ==> value <= x < alpha)
  }

  /** `max_func(game_state, depth, alpha, beta)`: Pacman's turn. */
  method AlphaBetaMax<G, A(==)>(g: Game<G, A>, eval: G -> int, n: nat, limit: nat, s: G, depth: nat,
                                alpha: int, beta: int) returns (d: Decision<A>)
    requires n >= 2 && depth <= limit && alpha <= beta
    ensures FailSoft(MaxFunc(g, eval, n, limit, s, depth), alpha, beta, d)
    ensures depth == limit || g.isWin(s) || g.isLose(s) ==> d == MaxFunc(g, eval, n, limit, s, depth)
    decreases limit - depth, n
  {
    if depth == limit || g.isWin(s) || g.isLose(s) {
      return Decision(eval(s), None);
    }
    var maxScore := -MAXSIZE;
    var bestAction: Option<A> := None;
    var a := alpha;
    var actions := g.getLegalActions(s, 0);
    var i := 0;
    while i < |actions|
      invariant 0 <= i <= |actions|
      invariant a == if i == 0 then alpha else Max(alpha, maxScore)
      invariant alpha <= a <= beta && (i > 0 ==> maxScore <= beta)
      invariant var v := MaxLoop(g, eval, n, limit, s, depth, actions[..i]);
                (alpha <= v.score ==> Decision(maxScore, bestAction) == v) &&
                (v.score < alpha ==> v.score <= maxScore < alpha)
    {
      var action := actions[i];
      var successor := g.generateSuccessor(s, 0, action);
      var r := AlphaBetaMin(g, eval, n, limit, successor, 1, depth, a, beta);
      assert ScoreFailSoft(MaxChild(g, eval, n, limit, s, depth, action), a, beta, r.score);
      MaxLoopStep(g, eval, n, limit, s, depth, actions, i);
      if r.score > maxScore {
        maxScore := r.score;
        bestAction := Some(action);
      }
      if maxScore > beta {
        // beta cut: the remaining actions can only raise Pacman's value
        MaxLoopPrefix(g, eval, n, limit, s, depth, actions, i + 1);
        return Decision(maxScore, bestAction);
      }
      a := Max(a, maxScore);
      i := i + 1;
    }
    assert actions[..i] == actions;
    return Decision(maxScore, bestAction);
  }

  /** `min_func(agent_index, depth, game_state, alpha, beta)`: ghost
      `agent`'s turn. */
  method AlphaBetaMin<G, A(==)>(g: Game<G, A>, eval: G -> int, n: nat, limit: nat, s: G, agent: nat, depth: nat,
                                alpha: int, beta: int) returns (d: Decision<A>)
    requires n >= 2 && 1 <= agent < n && depth < limit && alpha <= beta
    ensures FailSoft(MinFunc(g, eval, n, limit, s, agent, depth), alpha, beta, d)
    ensures g.isWin(s) || g.isLose(s) ==> d == MinFunc(g, eval, n, limit, s, agent, depth)
    decreases limit - depth, n - agent
  {
    if g.isWin(s) || g.isLose(s) {
      return Decision(eval(s), None);
    }
    var minScore := MAXSIZE;
    var bestAction: Option<A> := None;
    var b := beta;
    var actions := g.getLegalActions(s, agent);
    var i := 0;
    while i < |actions|
      invariant 0 <= i <= |actions|
      invariant b == if i == 0 then beta else Min(minScore, beta)
      invariant alpha <= b <= beta && (i > 0 ==> alpha <= minScore)
      invariant var v := MinLoop(g, eval, n, limit, s, agent, depth, actions[..i]);
                (v.score <= beta ==> Decision(minScore, bestAction) == v) &&
                (beta < v.score ==> beta < minScore <= v.score)
    {
      var action := actions[i];
      var successor := g.generateSuccessor(s, agent, action);
      var r;
      if agent == n - 1 {
        r := AlphaBetaMax(g, eval, n, limit, successor, depth + 1, alpha, b);
      } else {
        r := AlphaBetaMin(g, eval, n, limit, successor, agent + 1, depth, alpha, b);
      }
      assert ScoreFailSoft(MinChild(g, eval, n, limit, s, agent, depth, action), alpha, b, r.score);
      MinLoopStep(g, eval, n, limit, s, agent, depth, actions, i);
      if r.score < minScore {
        minScore := r.score;
        bestAction := Some(action);
      }
      if minScore < alpha {
        // alpha cut: the remaining actions can only lower the ghost's value
        MinLoopPrefix(g, eval, n, limit, s, agent, depth, actions, i + 1);
        return Decision(minScore, bestAction);
      }
      b := Min(minScore, b);
      i := i + 1;
    }
    assert actions[..i] == actions;
    return Decision(minScore, bestAction);
  }

  /** `AlphaBetaAgent.get_action`: Pacman's turn at the root, at depth 0,
      with the window [-sys.maxsize, sys.maxsize]. Whenever the root's minimax
      value does not exceed `sys.maxsize` (in particular whenever every
      evaluation lies within the sentinels), the action is the minimax agent's. */
  method AlphaBetaAction<G(!new), A(==)>(g: Game<G, A>, eval: G -> int, limit: nat, s: G) returns (action: Option<A>)
    requires g.getNumAgents(s) >= 2
    ensures MaxFunc(g, eval, g.getNumAgents(s) as nat, limit, s, 0).score <= MAXSIZE ==>
              action == MinimaxAction(g, eval, limit, s)
    ensures EvaluationWithin(eval) ==> action == MinimaxAction(g, eval, limit, s)
  {
    var n := g.getNumAgents(s) as nat;
    var alpha := -MAXSIZE;
    var beta := MAXSIZE;
    var d := AlphaBetaMax(g, eval, n, limit, s, 0, alpha, beta);
    action := d.action;
    if !(limit == 0 || g.isWin(s) || g.isLose(s)) {
      MaxLoopIsFirstMax(g, eval, n, limit, s, 0, g.getLegalActions(s, 0));
    }
    if EvaluationWithin(eval) {
      MaxFuncWithin(g, eval, n, limit, s, 0);
    }
  }

  /** The alpha-beta agent with its default evaluation function,
      `score_evaluation_function`: whenever every game score lies within
      ±`sys.maxsize`, it chooses the minimax agent's action. */
  method DefaultAlphaBetaAction<G(!new), A(==)>(g: Game<G, A>, limit: nat, s: G) returns (action: Option<A>)
    requires g.getNumAgents(s) >= 2
    ensures (forall x :: -MAXSIZE <= g.getScore(x) <= MAXSIZE) ==>
              action == MinimaxAction(g, ScoreEvaluation(g), limit, s)
  {
    ScoreEvaluationWithin(g);
    action := AlphaBetaAction(g, ScoreEvaluation(g), limit, s);
  }
}
