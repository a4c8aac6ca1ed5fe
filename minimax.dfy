/** `MinimaxAgent.get_action` of multiagent/multi_agents.py as pure functions:
    `max_func` and `min_func` are mutually recursive, and the loop over an
    agent's legal actions is a fold over their prefixes that keeps the first
    action whose score strictly improves on the running best.

    The number of agents `n` is read once from the root state, as the source
    reads `num_agents` before defining its helpers. `limit` is `self.depth`;
    the depth counter only grows when the last ghost has moved. */
module Minimax {
  import opened GameTree

  /** `max_func(game_state, depth)`: Pacman's turn. */
  function MaxFunc<G, A>(g: Game<G, A>, eval: G -> int, n: nat, limit: nat, s: G, depth: nat): (r: Decision<A>)
    requires n >= 2 && depth <= limit
    decreases limit - depth, n, 1, 0
    ensures r.action.Some? ==>
              depth < limit && !g.isWin(s) && !g.isLose(s) && r.action.value in g.getLegalActions(s, 0)
    ensures depth < limit && !g.isWin(s) && !g.isLose(s) ==> -MAXSIZE <= r.score
  {
    if depth == limit || g.isWin(s) || g.isLose(s) then Decision(eval(s), None)
    else MaxLoop(g, eval, n, limit, s, depth, g.getLegalActions(s, 0))
  }

  /** The score of the state Pacman's action `a` leads to: the first ghost
      moves next, at the same depth. */
  function MaxChild<G, A>(g: Game<G, A>, eval: G -> int, n: nat, limit: nat, s: G, depth: nat, a: A): int
    requires n >= 2 && depth < limit
    decreases limit - depth, n, 0, 0
  {
    MinFunc(g, eval, n, limit, g.generateSuccessor(s, 0, a), 1, depth).score
  }

  /** Pacman's loop over `actions`, from the sentinel `-sys.maxsize`: an
      action replaces the best so far only when its score is strictly higher. */
  function MaxLoop<G, A>(g: Game<G, A>, eval: G -> int, n: nat, limit: nat, s: G, depth: nat,
                         actions: seq<A>): (r: Decision<A>)
    requires n >= 2 && depth < limit
    decreases limit - depth, n, 0, |actions|
    ensures r.action.Some? ==> r.action.value in actions
    ensures -MAXSIZE <= r.score
  {
    if actions == [] then Decision(-MAXSIZE, None)
    else
      var best := MaxLoop(g, eval, n, limit, s, depth, actions[..|actions| - 1]);
      var a := actions[|actions| - 1];
      var score := MaxChild(g, eval, n, limit, s, depth, a);
      if score > best.score then Decision(score, Some(a)) else best
  }

  /** `min_func(agent_index, depth, game_state)`: a ghost's turn. Only a won
      or lost state ends the recursion here; the depth bound is checked on
      Pacman's turn. */
  function MinFunc<G, A>(g: Game<G, A>, eval: G -> int, n: nat, limit: nat, s: G, agent: nat, depth: nat): (r: Decision<A>)
    requires n >= 2 && 1 <= agent < n && depth < limit
    decreases limit - depth, n - agent, 1, 0
    ensures r.action.Some? ==> !g.isWin(s) && !g.isLose(s) && r.action.value in g.getLegalActions(s, agent)
    ensures !g.isWin(s) && !g.isLose(s) ==> r.score <= MAXSIZE
  {
    if g.isWin(s) || g.isLose(s) then Decision(eval(s), None)
    else MinLoop(g, eval, n, limit, s, agent, depth, g.getLegalActions(s, agent))
  }

  /** The score of the state ghost `agent`'s action `a` leads to: after the
      last ghost Pacman moves one level deeper, otherwise the next ghost moves. */
  function MinChild<G, A>(g: Game<G, A>, eval: G -> int, n: nat, limit: nat, s: G, agent: nat, depth: nat, a: A): int
    requires n >= 2 && 1 <= agent < n && depth < limit
    decreases limit - depth, n - agent, 0, 0
  {
    var successor := g.generateSuccessor(s, agent, a);
    if agent == n - 1 then MaxFunc(g, eval, n, limit, successor, depth + 1).score
    else MinFunc(g, eval, n, limit, successor, agent + 1, depth).score
  }

  /** A ghost's loop over `actions`, from the sentinel `sys.maxsize`: an
      action replaces the best so far only when its score is strictly lower. */
  function MinLoop<G, A>(g: Game<G, A>, eval: G -> int, n: nat, limit: nat, s: G, agent: nat, depth: nat,
                         actions: seq<A>): (r: Decision<A>)
    requires n >= 2 && 1 <= agent < n && depth < limit
    decreases limit - depth, n - agent, 0, |actions|
    ensures r.action.Some? ==> r.action.value in actions
    ensures r.score <= MAXSIZE
  {
    if actions == [] then Decision(MAXSIZE, None)
    else
      var best := MinLoop(g, eval, n, limit, s, agent, depth, actions[..|actions| - 1]);
      var a := actions[|actions| - 1];
      var score := MinChild(g, eval, n, limit, s, agent, depth, a);
      if score < best.score then Decision(score, Some(a)) else best
  }

  /** `MinimaxAgent.get_action`: the action of Pacman's turn at the root, at
      depth 0, with the number of agents the root state reports. */
  function MinimaxAction<G, A>(g: Game<G, A>, eval: G -> int, limit: nat, s: G): (r: Option<A>)
    requires g.getNumAgents(s) >= 2
    ensures r.Some? ==> 0 < limit && !g.isWin(s) && !g.isLose(s) && r.value in g.getLegalActions(s, 0)
  {
    MaxFunc(g, eval, g.getNumAgents(s) as nat, limit, s, 0).action
  }

  // ---------------------------------------------------------------------------
  // What the folds compute

  /** `d` is what a running maximum from `-sys.maxsize` with strict
      improvement leaves: no score exceeds `d`'s; with no action, `d` is the
      sentinel, and otherwise its action is the first one attaining its score,
      which is above the sentinel. */
  ghost predicate IsFirstMax<A>(scores: seq<int>, actions: seq<A>, d: Decision<A>)
    requires |scores| == |actions|
  {
    (forall i :: 0 <= i < |scores| ==> scores[i] <= d.score) &&
    (d.action.None? ==> d.score == -MAXSIZE) &&
    (d.action.Some? ==>
       exists k :: 0 <= k < |scores| && d.action.value == actions[k] && d.score == scores[k] &&
                   -MAXSIZE < d.score && forall j :: 0 <= j < k ==> scores[j] < d.score)
  }

  /** The mirror image for a running minimum from `sys.maxsize`. */
  ghost predicate IsFirstMin<A>(scores: seq<int>, actions: seq<A>, d: Decision<A>)
    requires |scores| == |actions|
  {
    (forall i :: 0 <= i < |scores| ==> d.score <= scores[i]) &&
    (d.action.None? ==> d.score == MAXSIZE) &&
    (d.action.Some? ==>
       exists k :: 0 <= k < |scores| && d.action.value == actions[k] && d.score == scores[k] &&
                   d.score < MAXSIZE && forall j :: 0 <= j < k ==> d.score < scores[j])
  }

  /** The scores of Pacman's actions, in order. */
  function MaxScores<G, A>(g: Game<G, A>, eval: G -> int, n: nat, limit: nat, s: G, depth: nat,
                           actions: seq<A>): (r: seq<int>)
    requires n >= 2 && depth < limit
    ensures |r| == |actions|
    ensures forall i :: 0 <= i < |actions| ==> r[i] == MaxChild(g, eval, n, limit, s, depth, actions[i])
  {
    seq(|actions|, i requires 0 <= i < |actions| => MaxChild(g, eval, n, limit, s, depth, actions[i]))
  }

  /** The scores of ghost `agent`'s actions, in order. */
  function MinScores<G, A>(g: Game<G, A>, eval: G -> int, n: nat, limit: nat, s: G, agent: nat, depth: nat,
                           actions: seq<A>): (r: seq<int>)
    requires n >= 2 && 1 <= agent < n && depth < limit
    ensures |r| == |actions|
    ensures forall i :: 0 <= i < |actions| ==> r[i] == MinChild(g, eval, n, limit, s, agent, depth, actions[i])
  {
    seq(|actions|, i requires 0 <= i < |actions| => MinChild(g, eval, n, limit, s, agent, depth, actions[i]))
  }

  /** Pacman's loop returns the highest score over the sentinel, with the
      first action attaining it. */
  lemma {:induction false} MaxLoopIsFirstMax<G, A>(g: Game<G, A>, eval: G -> int, n: nat, limit: nat, s: G,
                                                   depth: nat, actions: seq<A>)
    requires n >= 2 && depth < limit
    ensures IsFirstMax(MaxScores(g, eval, n, limit, s, depth, actions), actions,
                       MaxLoop(g, eval, n, limit, s, depth, actions))
    decreases |actions|
  {
    if actions != [] {
      var m := |actions| - 1;
      var prefix := actions[..m];
      MaxLoopIsFirstMax(g, eval, n, limit, s, depth, prefix);
      var scores := MaxScores(g, eval, n, limit, s, depth, actions);
      var before := MaxScores(g, eval, n, limit, s, depth, prefix);
      assert forall i :: 0 <= i < m ==> before[i] == scores[i] && prefix[i] == actions[i];
      var best := MaxLoop(g, eval, n, limit, s, depth, prefix);
      if scores[m] > best.score {
        assert forall j :: 0 <= j < m ==> scores[j] < scores[m] by {
          forall j | 0 <= j < m ensures scores[j] < scores[m] {
            assert before[j] <= best.score;
          }
        }
      } else if best.action.Some? {
        var k :| 0 <= k < m && best.action.value == prefix[k] && best.score == before[k] &&
                 -MAXSIZE < best.score && forall j :: 0 <= j < k ==> before[j] < best.score;
        assert best.action.value == actions[k] && best.score == scores[k];
      }
    }
  }

  /** A ghost's loop returns the lowest score under the sentinel, with the
      first action attaining it. */
  lemma {:induction false} MinLoopIsFirstMin<G, A>(g: Game<G, A>, eval: G -> int, n: nat, limit: nat, s: G,
                                                   agent: nat, depth: nat, actions: seq<A>)
    requires n >= 2 && 1 <= agent < n && depth < limit
    ensures IsFirstMin(MinScores(g, eval, n, limit, s, agent, depth, actions), actions,
                       MinLoop(g, eval, n, limit, s, agent, depth, actions))
    decreases |actions|
  {
    if actions != [] {
      var m := |actions| - 1;
      var prefix := actions[..m];
      MinLoopIsFirstMin(g, eval, n, limit, s, agent, depth, prefix);
      var scores := MinScores(g, eval, n, limit, s, agent, depth, actions);
      var before := MinScores(g, eval, n, limit, s, agent, depth, prefix);
      assert forall i :: 0 <= i < m ==> before[i] == scores[i] && prefix[i] == actions[i];
      var best := MinLoop(g, eval, n, limit, s, agent, depth, prefix);
      if scores[m] < best.score {
        assert forall j :: 0 <= j < m ==> scores[m] < scores[j] by {
          forall j | 0 <= j < m ensures scores[m] < scores[j] {
            assert best.score <= before[j];
          }
        }
      } else if best.action.Some? {
        var k :| 0 <= k < m && best.action.value == prefix[k] && best.score == before[k] &&
                 best.score < MAXSIZE && forall j :: 0 <= j < k ==> best.score < before[j];
        assert best.action.value == actions[k] && best.score == scores[k];
      }
    }
  }

  /** One more of Pacman's actions updates the running best only on a
      strictly higher score. */
  lemma MaxLoopStep<G, A>(g: Game<G, A>, eval: G -> int, n: nat, limit: nat, s: G, depth: nat,
                          actions: seq<A>, i: nat)
    requires n >= 2 && depth < limit && i < |actions|
    ensures var best := MaxLoop(g, eval, n, limit, s, depth, actions[..i]);
            var score := MaxChild(g, eval, n, limit, s, depth, actions[i]);
            MaxLoop(g, eval, n, limit, s, depth, actions[..i + 1]) ==
              if score > best.score then Decision(score, Some(actions[i])) else best
  {
    assert actions[..i + 1][..i] == actions[..i];
  }

  /** One more of a ghost's actions updates the running best only on a
      strictly lower score. */
  lemma MinLoopStep<G, A>(g: Game<G, A>, eval: G -> int, n: nat, limit: nat, s: G, agent: nat, depth: nat,
                          actions: seq<A>, i: nat)
    requires n >= 2 && 1 <= agent < n && depth < limit && i < |actions|
    ensures var best := MinLoop(g, eval, n, limit, s, agent, depth, actions[..i]);
            var score := MinChild(g, eval, n, limit, s, agent, depth, actions[i]);
            MinLoop(g, eval, n, limit, s, agent, depth, actions[..i + 1]) ==
              if score < best.score then Decision(score, Some(actions[i])) else best
  {
    assert actions[..i + 1][..i] == actions[..i];
  }

  /** Going through more of Pacman's actions never lowers the running best. */
  lemma MaxLoopPrefix<G, A>(g: Game<G, A>, eval: G -> int, n: nat, limit: nat, s: G, depth: nat,
                            actions: seq<A>, i: nat)
    requires n >= 2 && depth < limit && i <= |actions|
    ensures MaxLoop(g, eval, n, limit, s, depth, actions[..i]).score <= MaxLoop(g, eval, n, limit, s, depth, actions).score
  {
    var prefix := actions[..i];
    MaxLoopIsFirstMax(g, eval, n, limit, s, depth, prefix);
    MaxLoopIsFirstMax(g, eval, n, limit, s, depth, actions);
    var before := MaxScores(g, eval, n, limit, s, depth, prefix);
    var scores := MaxScores(g, eval, n, limit, s, depth, actions);
    var best := MaxLoop(g, eval, n, limit, s, depth, prefix);
    if best.action.Some? {
      var k :| 0 <= k < i && best.action.value == prefix[k] && best.score == before[k] &&
               -MAXSIZE < best.score && forall j :: 0 <= j < k ==> before[j] < best.score;
      assert before[k] == scores[k];
    }
  }

  /** Going through more of a ghost's actions never raises the running best. */
  lemma MinLoopPrefix<G, A>(g: Game<G, A>, eval: G -> int, n: nat, limit: nat, s: G, agent: nat, depth: nat,
                            actions: seq<A>, i: nat)
    requires n >= 2 && 1 <= agent < n && depth < limit && i <= |actions|
    ensures MinLoop(g, eval, n, limit, s, agent, depth, actions).score <=
            MinLoop(g, eval, n, limit, s, agent, depth, actions[..i]).score
  {
    var prefix := actions[..i];
    MinLoopIsFirstMin(g, eval, n, limit, s, agent, depth, prefix);
    MinLoopIsFirstMin(g, eval, n, limit, s, agent, depth, actions);
    var before := MinScores(g, eval, n, limit, s, agent, depth, prefix);
    var scores := MinScores(g, eval, n, limit, s, agent, depth, actions);
    var best := MinLoop(g, eval, n, limit, s, agent, depth, prefix);
    if best.action.Some? {
      var k :| 0 <= k < i && best.action.value == prefix[k] && best.score == before[k] &&
               best.score < MAXSIZE && forall j :: 0 <= j < k ==> best.score < before[j];
      assert before[k] == scores[k];
    }
  }

  // ---------------------------------------------------------------------------
  // Values stay within the sentinels

  /** When every evaluation lies within the sentinels, so does the value of
      every Pacman turn. */
  lemma {:induction false} MaxFuncWithin<G(!new), A>(g: Game<G, A>, eval: G -> int, n: nat, limit: nat, s: G,
                                                     depth: nat)
    requires n >= 2 && depth <= limit && EvaluationWithin(eval)
    ensures -MAXSIZE <= MaxFunc(g, eval, n, limit, s, depth).score <= MAXSIZE
    decreases limit - depth, n, 1, 0
  {
    if !(depth == limit || g.isWin(s) || g.isLose(s)) {
      MaxLoopWithin(g, eval, n, limit, s, depth, g.getLegalActions(s, 0));
    }
  }

  lemma {:induction false} MaxLoopWithin<G(!new), A>(g: Game<G, A>, eval: G -> int, n: nat, limit: nat, s: G,
                                                     depth: nat, actions: seq<A>)
    requires n >= 2 && depth < limit && EvaluationWithin(eval)
    ensures -MAXSIZE <= MaxLoop(g, eval, n, limit, s, depth, actions).score <= MAXSIZE
    decreases limit - depth, n, 0, |actions|
  {
    if actions != [] {
      MaxLoopWithin(g, eval, n, limit, s, depth, actions[..|actions| - 1]);
      MinFuncWithin(g, eval, n, limit, g.generateSuccessor(s, 0, actions[|actions| - 1]), 1, depth);
    }
  }

  /** When every evaluation lies within the sentinels, so does the value of
      every ghost turn. */
  lemma {:induction false} MinFuncWithin<G(!new), A>(g: Game<G, A>, eval: G -> int, n: nat, limit: nat, s: G,
                                                     agent: nat, depth: nat)
    requires n >= 2 && 1 <= agent < n && depth < limit && EvaluationWithin(eval)
    ensures -MAXSIZE <= MinFunc(g, eval, n, limit, s, agent, depth).score <= MAXSIZE
    decreases limit - depth, n - agent, 1, 0
  {
    if !(g.isWin(s) || g.isLose(s)) {
      MinLoopWithin(g, eval, n, limit, s, agent, depth, g.getLegalActions(s, agent));
    }
  }

  lemma {:induction false} MinLoopWithin<G(!new), A>(g: Game<G, A>, eval: G -> int, n: nat, limit: nat, s: G,
                                                     agent: nat, depth: nat, actions: seq<A>)
    requires n >= 2 && 1 <= agent < n && depth < limit && EvaluationWithin(eval)
    ensures -MAXSIZE <= MinLoop(g, eval, n, limit, s, agent, depth, actions).score <= MAXSIZE
    decreases limit - depth, n - agent, 0, |actions|
  {
    if actions != [] {
      var a := actions[|actions| - 1];
      var successor := g.generateSuccessor(s, agent, a);
      MinLoopWithin(g, eval, n, limit, s, agent, depth, actions[..|actions| - 1]);
      if agent == n - 1 {
        MaxFuncWithin(g, eval, n, limit, successor, depth + 1);
      } else {
        MinFuncWithin(g, eval, n, limit, successor, agent + 1, depth);
      }
    }
  }

  // ---------------------------------------------------------------------------
  // The root decision

  /** The minimax agent's action: at a won or lost root, or with depth bound
      0, there is none; otherwise it is the first of Pacman's legal actions
      whose value is the highest, or none when no action scores above
      `-sys.maxsize`. */
  lemma MinimaxActionIsFirstBest<G, A>(g: Game<G, A>, eval: G -> int, limit: nat, s: G)
    requires g.getNumAgents(s) >= 2
    ensures limit == 0 || g.isWin(s) || g.isLose(s) ==> MinimaxAction(g, eval, limit, s) == None
    ensures limit > 0 && !g.isWin(s) && !g.isLose(s) ==>
              var n := g.getNumAgents(s) as nat;
              var actions := g.getLegalActions(s, 0);
              IsFirstMax(MaxScores(g, eval, n, limit, s, 0, actions), actions, MaxFunc(g, eval, n, limit, s, 0))
  {
    if limit > 0 && !g.isWin(s) && !g.isLose(s) {
      MaxLoopIsFirstMax(g, eval, g.getNumAgents(s) as nat, limit, s, 0, g.getLegalActions(s, 0));
    }
  }

  // ---------------------------------------------------------------------------
  // A small game

  /** Pacman has one action, "Go", from state 0 to state 1; the only ghost
      then has two actions, "L" to state 2 and "R" to state 3, which
      evaluate to 3 and 7. */
  function TwoLeafGame(): Game<int, string>
  {
    Game((s: int, agent: nat) => if s == 0 then ["Go"] else if s == 1 then ["L", "R"] else [],
         (s: int, agent: nat, a: string) => if a == "Go" then 1 else if a == "L" then 2 else 3,
         (s: int) => 2,
         (s: int) => false,
         (s: int) => false,
         (s: int) => if s == 2 then 3 else if s == 3 then 7 else 0)
  }

  /** With depth bound 1 and the default evaluation, the ghost picks the leaf
      worth 3, so Pacman's value is 3 and its action "Go". */
  lemma TwoLeafGameMinimax()
    ensures MinFunc(TwoLeafGame(), ScoreEvaluation(TwoLeafGame()), 2, 1, 1, 1, 0) == Decision(3, Some("L"))
    ensures MaxFunc(TwoLeafGame(), ScoreEvaluation(TwoLeafGame()), 2, 1, 0, 0) == Decision(3, Some("Go"))
    ensures MinimaxAction(TwoLeafGame(), ScoreEvaluation(TwoLeafGame()), 1, 0) == Some("Go")
  {
    var g := TwoLeafGame();
    var eval := ScoreEvaluation(g);
    assert MaxFunc(g, eval, 2, 1, 2, 1) == Decision(3, None);
    assert MaxFunc(g, eval, 2, 1, 3, 1) == Decision(7, None);
    var ghostActions := g.getLegalActions(1, 1);
    assert ghostActions == ["L", "R"];
    assert ghostActions[..1] == ["L"] && ghostActions[..1][..0] == [];
    assert MinLoop(g, eval, 2, 1, 1, 1, 0, ghostActions[..1]) == Decision(3, Some("L"));
    assert MinLoop(g, eval, 2, 1, 1, 1, 0, ghostActions) == Decision(3, Some("L"));
    var pacman := g.getLegalActions(0, 0);
    assert pacman == ["Go"] && pacman[..0] == [];
    assert MaxLoop(g, eval, 2, 1, 0, 0, pacman) == Decision(3, Some("Go"));
  }
}
