/** The game-state queries the adversarial agents of multiagent/multi_agents.py
    call, the (score, action) pairs their recursive helpers return, and the
    default evaluation function.

    Agent 0 is Pacman, the maximizer; agents 1 .. n - 1 are the ghosts, the
    minimizers. A game state is opaque: the agents only ask it for legal
    actions, successors, whether it is won or lost, its score and the number
    of agents. */
module GameTree {

  /** `sys.maxsize` on a 64-bit build: the sentinel the agents start their
      running maximum (negated) and running minimum from. */
  const MAXSIZE: int := 0x7FFF_FFFF_FFFF_FFFF

  datatype Option<T> = None | Some(value: T)

  /** The pair `(score, action)` returned by the agents' `max_func` and
      `min_func`; the action is `None` at a leaf or when no action improved
      on the sentinel. */
  datatype Decision<A> = Decision(score: int, action: Option<A>)

  /** The queries on a game state the agents use. */
  datatype Game<!G, !A> = Game(
    getLegalActions: (G, nat) -> seq<A>,
    generateSuccessor: (G, nat, A) -> G,
    getNumAgents: G -> int,
    isWin: G -> bool,
    isLose: G -> bool,
    getScore: G -> int)

  /** Python's `max` on two numbers. */
  function Max(x: int, y: int): int
  {
    if x >= y then x else y
  }

  /** Python's `min` on two numbers. */
  function Min(x: int, y: int): int
  {
    if x <= y then x else y
  }

  /** `score_evaluation_function`: the evaluation of a state is its game score. */
  function ScoreEvaluation<G, A>(g: Game<G, A>): (eval: G -> int)
  {
    s => g.getScore(s)
  }

  /** Every evaluation lies within the agents' sentinels. */
  ghost predicate EvaluationWithin<G(!new)>(eval: G -> int)
  {
    forall s :: -MAXSIZE <= eval(s) <= MAXSIZE
  }

  /** With the default evaluation function, the evaluations lie within the
      sentinels exactly when every game score does. */
  lemma ScoreEvaluationWithin<G(!new), A>(g: Game<G, A>)
    ensures EvaluationWithin(ScoreEvaluation(g)) <==> forall s :: -MAXSIZE <= g.getScore(s) <= MAXSIZE
  {
    var eval := ScoreEvaluation(g);
    if EvaluationWithin(eval) {
      forall s ensures -MAXSIZE <= g.getScore(s) <= MAXSIZE {
        assert eval(s) == g.getScore(s);
      }
    }
  }
}
