# Pacman search and adversarial agents, modelled in Dafny

This project models the two algorithmic cores of the Berkeley Pacman projects
as completed in this repository:

- `search/search.py`: the graph searches `depth_first_search`,
  `breadth_first_search`, `uniform_cost_search` and `a_star_search`, the
  `null_heuristic`, and the `SearchNode` class with its cumulative cost and
  `get_path`.
- `multiagent/multi_agents.py`: `MinimaxAgent.get_action` and
  `AlphaBetaAgent.get_action` with their nested `max_func` / `min_func`
  helpers, and `score_evaluation_function`.

A search problem is a value with three queries: the start state, the goal
test and the successor function. Its successors are (state, action, step
cost) triples. The searches are imperative methods. The frontier is a local
sequence and the set of expanded states is a local set. A stack pushes and
pops at the end. A queue pushes at the end and pops at the front. The
priority queue pops some entry of least priority. Each search is proved
sound and complete on a finite state space. If it returns a non-empty path,
that path is the actions of a walk from the start state to a goal state. If
it returns the empty path, either that is such a walk (the start is a goal)
or no goal state is reachable at all.

The game is a value with the queries the agents use: legal actions,
successor generation, the number of agents, won/lost tests and the score.
The minimax agent is written as pure mutually recursive functions: each
agent's loop over its legal actions is a fold over prefixes of that list.
These functions are the reference. The alpha-beta agent is written as
recursive methods with loops. Each method is proved against the minimax
value of the same node under "fail-soft" bounds:
- inside the window [alpha, beta], it returns the minimax score and action;
- above the window, it returns a score in (beta, value];
- below the window, it returns a score in [value, alpha).

From those bounds, the alpha-beta root action is proved equal to the minimax
root action. This holds whenever the root's minimax value does not exceed
`sys.maxsize`, and so whenever every evaluation lies within
±`sys.maxsize`.

Files: `search_problem.dfy` (problem interface, walks, reachability),
`graph_search.dfy` (the four searches), `search_node.dfy` (`SearchNode`),
`game.dfy` (game interface, `(score, action)` pairs, the default
evaluation), `minimax.dfy` (minimax reference and its properties),
`alpha_beta.dfy` (alpha-beta agent).

## Model

| member | source | states |
|---|---|---|
| SearchProblem.StartReached | search/search.py:140-141 | the start entry (start state, no actions, cost 0) is explained by the empty walk from the start state |
| SearchProblem.ChildReached | search/search.py:150-152 | the pushed entry (successor, path + [action], cost + step cost) of a reached entry is reached: some walk from the start ends in its state, spells its path and sums to its cost |
| SearchProblem.ReachedGoalIsSolution | search/search.py:147-148 | a reached entry whose state passes the goal test carries a solution path |
| SearchProblem.ExhaustedContainsWalkEnd | search/search.py:143-156 | when the frontier is empty, the expanded set holds the start and is closed under successors, so every walk from the start ends inside it |
| SearchProblem.ExhaustedMeansNoGoal | search/search.py:156 | an exhausted search whose expanded states are all non-goals proves no goal state is reachable, so returning `[]` is correct |
| GraphSearch.AdmitNew | search/search.py:150-152 | the entries admitted for a node's successors: the frontier is kept as a prefix; each new entry is a child of the node whose state was neither expanded nor held; every successor ends up expanded or held; distinct states stay distinct |
| GraphSearch.PushUnseen | search/search.py:150-153 | the inner loop of depth-first and breadth-first search (also lines 173-176, where the queue's states are scanned) appends exactly the entries `AdmitNew` admits |
| GraphSearch.ExpansionStep | search/search.py:143-153 | popping an entry, expanding its non-goal state and admitting its successors keeps the loop invariant: entries reached and in the state space, distinct, disjoint from the expanded set, start covered, successors of expanded states covered, no expanded goal |
| GraphSearch.AdmittedReached | search/search.py:152 | every entry admitted for a reached node's successors is reached and stays in a closed state space |
| GraphSearch.DepthFirstSearch | search/search.py:122-156 | with a stack frontier, returns the actions of a walk from the start to a goal, or `[]` and no goal is reachable |
| GraphSearch.BreadthFirstSearch | search/search.py:158-178 | with a queue frontier, returns the actions of a walk from the start to a goal, or `[]` and no goal is reachable |
| GraphSearch.LeastExists | search/search.py:189 | a non-empty priority queue has an entry of least priority to pop |
| GraphSearch.UcsPushes | search/search.py:200-203 | the entries uniform-cost search pushes for one expansion; no contract of its own, described by `GraphSearch.UcsPushesAdmit` and `GraphSearch.PushByCost` |
| GraphSearch.UcsPushesAdmit | search/search.py:200-203 | uniform-cost search pushes, for each successor whose state is not expanded, the child entry with its cumulative cost as priority, and nothing else |
| GraphSearch.PushByCost | search/search.py:200-203 | the inner loop of uniform-cost search appends exactly those entries, in successor order |
| GraphSearch.SettledAfterExpansion | search/search.py:189-203 | with non-negative step costs, every expansion cost recorded so far is at most the cost of every pending entry; so a stale entry popped later costs at least what expanding its state cost |
| GraphSearch.StalePopStep | search/search.py:191-193 | discarding a popped entry whose state is already expanded keeps the search invariant |
| GraphSearch.CostExpansionStep | search/search.py:188-203 | one expanding iteration of uniform-cost or A* search keeps the search invariant |
| GraphSearch.UniformCostSearch | search/search.py:180-205 | popping a least-cost entry and discarding stale ones, returns the actions of a walk from the start to a goal, or `[]` and no goal is reachable |
| GraphSearch.NullHeuristic | search/search.py:207-212 | the heuristic that estimates 0 for every state; no contract of its own, described by `GraphSearch.NullHeuristicPushesAsUcs` |
| GraphSearch.NullHeuristicPushesAsUcs | search/search.py:207-212 | with `null_heuristic`, A* search pushes exactly the entries and priorities uniform-cost search pushes |
| GraphSearch.AStarPushes | search/search.py:233-236 | the entries A* search pushes for one expansion; no contract of its own, described by `GraphSearch.AStarPushesAdmit` and `GraphSearch.PushByEstimate` |
| GraphSearch.AStarPushesAdmit | search/search.py:233-236 | A* search pushes, for each successor whose state is not expanded, the child entry with cumulative cost plus heuristic as priority, and nothing else |
| GraphSearch.PushByEstimate | search/search.py:233-236 | the inner loop of A* search appends exactly those entries, in successor order |
| GraphSearch.AStarSearch | search/search.py:214-238 | for any heuristic, returns the actions of a walk from the start to a goal, or `[]` and no goal is reachable |
| SearchTree.Reversed | search/search.py:110 | the reversed list has the same length, with element i taken from position length - 1 - i |
| SearchTree.SearchNode.constructor | search/search.py:78-95 | a node keeps the state and action it was given; its cost is the step cost for a root, the step cost plus the parent's cost otherwise |
| SearchTree.SearchNode.GetPath | search/search.py:104-111 | walking the parent links back to the root and reversing yields the actions from the root to the node, without the root's own action |
| SearchTree.SearchNode.StepsExplainNode | search/search.py:95 | the steps from the root spell the node's path, end in its state, and their step costs add up to its cost over the root's |
| SearchTree.SearchNode.NodeTracks | search/search.py:78-111 | a node chain built from a problem's successors, rooted at the start with cost 0, is a walk from the start explaining (state, `get_path`, cost) |
| GameTree.ScoreEvaluation | multiagent/multi_agents.py:104-112 | the state's game score as its evaluation; no contract of its own, described by `AlphaBeta.DefaultAlphaBetaAction` |
| Minimax.MaxFunc | multiagent/multi_agents.py:169-186 | Pacman's turn: when it returns an action, the depth bound was not reached, the state is neither won nor lost, and the action is one of Pacman's legal actions; at such a state the value is at least `-sys.maxsize`. Its score and action are pinned down by `Minimax.MaxLoopIsFirstMax` |
| Minimax.MaxChild | multiagent/multi_agents.py:179-180 | the score of the ghost turn (agent 1, same depth) after Pacman's action; no contract of its own, described through `Minimax.MaxLoopIsFirstMax` |
| Minimax.MaxLoop | multiagent/multi_agents.py:174-186 | Pacman's `for` loop: any action it keeps comes from the list, and its score never falls below `-sys.maxsize`; fully characterised by `Minimax.MaxLoopIsFirstMax` |
| Minimax.MinFunc | multiagent/multi_agents.py:188-209 | a ghost's turn: when it returns an action, the state is neither won nor lost and the action is one of that ghost's legal actions; at such a state the value is at most `sys.maxsize`. Its score and action are pinned down by `Minimax.MinLoopIsFirstMin` |
| Minimax.MinChild | multiagent/multi_agents.py:198-203 | the score after a ghost's action: Pacman one level deeper after the last ghost, the next ghost otherwise; no contract of its own, described through `Minimax.MinLoopIsFirstMin` |
| Minimax.MinLoop | multiagent/multi_agents.py:193-209 | a ghost's `for` loop: any action it keeps comes from the list, and its score never exceeds `sys.maxsize`; fully characterised by `Minimax.MinLoopIsFirstMin` |
| Minimax.MinimaxAction | multiagent/multi_agents.py:211-212 | the minimax agent's action is, when present, a legal action of Pacman at a root that is neither won nor lost with a positive depth bound; which action is stated by `Minimax.MinimaxActionIsFirstBest` |
| Minimax.MaxLoopIsFirstMax | multiagent/multi_agents.py:174-186 | Pacman's loop returns a score no child exceeds; with no action it is `-sys.maxsize`, otherwise the first action attaining the score, which is above `-sys.maxsize` |
| Minimax.MinLoopIsFirstMin | multiagent/multi_agents.py:193-209 | a ghost's loop returns a score no child undercuts; with no action it is `sys.maxsize`, otherwise the first action attaining the score, which is below `sys.maxsize` |
| Minimax.MaxLoopPrefix | multiagent/multi_agents.py:177-186 | looking at more of Pacman's actions never lowers its running best |
| Minimax.MinLoopPrefix | multiagent/multi_agents.py:196-209 | looking at more of a ghost's actions never raises its running best |
| Minimax.MaxFuncWithin | multiagent/multi_agents.py:169-186 | if every evaluation lies within ±`sys.maxsize`, so does every Pacman-turn value |
| Minimax.MaxLoopWithin | multiagent/multi_agents.py:174-186 | the same bound for Pacman's loop |
| Minimax.MinFuncWithin | multiagent/multi_agents.py:188-209 | if every evaluation lies within ±`sys.maxsize`, so does every ghost-turn value |
| Minimax.MinLoopWithin | multiagent/multi_agents.py:193-209 | the same bound for a ghost's loop, through both the last-ghost and next-ghost recursions |
| Minimax.MinimaxActionIsFirstBest | multiagent/multi_agents.py:211-212 | the minimax action is none at a won or lost root or with depth 0, and otherwise the first of Pacman's legal actions with the highest value (none if no value exceeds `-sys.maxsize`) |
| Minimax.TwoLeafGameMinimax | multiagent/multi_agents.py:165-212 | in a game with one Pacman move and a ghost choosing between leaves worth 3 and 7 at depth 1, the ghost picks 3 and Pacman's value is 3 |
| AlphaBeta.AlphaBetaMax | multiagent/multi_agents.py:230-250 | Pacman's pruned turn returns the minimax decision inside [alpha, beta], a score in (beta, value] above it, a score in [value, alpha) below it, and the exact evaluation at a leaf |
| AlphaBeta.AlphaBetaMin | multiagent/multi_agents.py:252-276 | a ghost's pruned turn returns the minimax decision inside [alpha, beta], a score in (beta, value] above it, a score in [value, alpha) below it, and the exact evaluation at a won or lost state |
| AlphaBeta.AlphaBetaAction | multiagent/multi_agents.py:278-281 | the alpha-beta agent's action equals the minimax agent's whenever the root value does not exceed `sys.maxsize`, in particular whenever all evaluations lie within ±`sys.maxsize` |
| AlphaBeta.DefaultAlphaBetaAction | multiagent/multi_agents.py:104-112 | with `score_evaluation_function`, the agents' default evaluation, alpha-beta chooses the minimax action whenever every game score lies within ±`sys.maxsize` |

## Left out

- `SearchProblem` (search/search.py:22-62) is an abstract class. It is modelled by the `Problem` datatype of its three queries. `get_cost_of_actions` is never called by the searches and is not modelled.
- `tiny_maze_search` returns a fixed list of moves for one maze. It is not part of the search core.
- The frontier classes come from `util.py`, which is not part of this model. Stacks and queues are sequences. The priority queue pops some least-priority entry: the heap's tie-break among equal priorities is not modelled.
- `Stack.contains` in depth-first search is modelled as "some entry on the stack holds this state". This is the same test breadth-first search makes by scanning the queue's list.
- Optimality is not proved: fewest actions for breadth-first search, least cost for uniform-cost search, and least cost for A* with an admissible or consistent heuristic. The searches are proved sound and complete only.
- Uniform-cost search is also proved to discard only stale entries that cost at least the expansion cost, when step costs are non-negative. A* makes no such claim.
- Completeness is proved for finite state spaces only. A ghost set of states that holds the start and is closed under successors stands for finiteness.
- Step costs, priorities, scores and evaluations are integers. Python floats are not modelled.
- The problem's and game's queries are pure functions. Side effects such as the expansion counters of the Pacman problems are not modelled.
- `MultiAgentSearchAgent.__init__` looks up the evaluation function by name and parses the depth from a string. Here the evaluation function and the depth bound are parameters. The depth bound is a natural number: with a negative depth the source never meets its bound, so a branch stops only at a won or lost state or where the moving agent has no legal action, and the recursion is not bounded.
- The agents need at least one ghost (`get_num_agents() >= 2`). With Pacman alone, the source's `min_func(1, ...)` never reaches `num_agents - 1`, so a branch stops only at a won or lost state or where the moving agent has no legal action, and the recursion is not bounded.
- That alpha-beta visits a subset of the nodes minimax visits is not modelled: the model counts no visits.
- AlphaBeta.AlphaBetaAction: equality with the minimax action is proved only when the root's minimax value is at most `sys.maxsize`. Above that, the root's beta cut at `sys.maxsize` can stop at an earlier action than minimax would choose.
- `ExpectimaxAgent.get_action` and `better_evaluation_function` only call `util.raise_not_defined()`, so there is no behaviour to model. `ReflexAgent` is not part of the adversarial search core.
