/** The four graph searches of search/search.py: depth-first and
    breadth-first search over a stack and a queue of entries, uniform-cost
    and A* search over a priority queue of entries.

    Each search keeps its frontier as a local sequence and its expanded
    states as a local set, as the source does. A stack pushes and pops at the
    end of the sequence, a queue pushes at the end and pops at the front, and
    the priority queue pops SOME entry of least priority: the tie-break of
    the source's priority queue is not part of this model.

    Every search is proved sound and complete on a finite state space: it
    returns the actions of a walk from the start state to a goal state, or it
    returns the empty list and no goal state is reachable at all. */
module GraphSearch {
  import opened SearchProblem

  // ---------------------------------------------------------------------------
  // Frontier helpers

  /** No two entries of `f` hold the same state. */
  ghost predicate DistinctStates<S, A>(f: seq<Entry<S, A>>)
  {
    forall i, j :: 0 <= i < j < |f| ==> f[i].state != f[j].state
  }

  /** `c` is the entry pushed for one of the successors in `succs` of `e`. */
  ghost predicate ChildIn<S, A>(e: Entry<S, A>, c: Entry<S, A>, succs: seq<Successor<S, A>>)
  {
    exists t :: t in succs && c == Child(e, t)
  }

  lemma CoordsOfPrefix<S, A>(f: seq<Entry<S, A>>, r: seq<Entry<S, A>>)
    requires |f| <= |r| && r[..|f|] == f
    ensures forall x :: x in Coords(f) ==> x in Coords(r)
  {
  }

  /** The entries the inner loop of depth-first and breadth-first search adds
      to frontier `f` while it goes through `succs`, the successors of the
      expanded entry `e`: a successor is admitted only when its state is
      neither expanded nor already held by the frontier as it stands then.
      (The source asks the stack with `contains` and scans the queue's list
      of states; both test membership of the state.) */
  function AdmitNew<S(==), A>(f: seq<Entry<S, A>>, expanded: set<S>, e: Entry<S, A>,
                              succs: seq<Successor<S, A>>): (r: seq<Entry<S, A>>)
    decreases |succs|
    ensures |f| <= |r| && r[..|f|] == f
    ensures forall k :: |f| <= k < |r| ==>
              r[k].state !in expanded && r[k].state !in Coords(f) && ChildIn(e, r[k], succs)
    ensures forall t :: t in succs ==> t.state in expanded || t.state in Coords(r)
    ensures DistinctStates(f) ==> DistinctStates(r)
  {
    if succs == [] then f
    else
      var before := AdmitNew(f, expanded, e, succs[..|succs| - 1]);
      var t := succs[|succs| - 1];
      assert forall u :: u in succs[..|succs| - 1] ==> u in succs;
      CoordsOfPrefix(f, before);
      if t.state !in Coords(before) && t.state !in expanded then
        var r := before + [Child(e, t)];
        assert r[..|before|] == before;
        assert r[..|f|] == f;
        assert Coords(r) == Coords(before) + [t.state];
        r
      else
        before
  }

  /** The inner loop of depth-first and breadth-first search: a successor is
      pushed when its state is neither held by the frontier nor expanded. */
  method PushUnseen<S(==), A>(frontier: seq<Entry<S, A>>, expanded: set<S>, e: Entry<S, A>,
                              successors: seq<Successor<S, A>>) returns (frontier': seq<Entry<S, A>>)
    ensures frontier' == AdmitNew(frontier, expanded, e, successors)
  {
    frontier' := frontier;
    var i := 0;
    while i < |successors|
      invariant 0 <= i <= |successors|
      invariant frontier' == AdmitNew(frontier, expanded, e, successors[..i])
    {
      var t := successors[i];
      assert successors[..i + 1][..i] == successors[..i];
      var frontierCoords := Coords(frontier');
      if t.state !in frontierCoords && t.state !in expanded {
        frontier' := frontier' + [Child(e, t)];
      }
      i := i + 1;
    }
    assert successors[..i] == successors;
  }

  // ---------------------------------------------------------------------------
  // Depth-first search

  /** `depth_first_search`: the frontier is a stack. */
  method DepthFirstSearch<S(==,!new), A(!new)>(p: Problem<S, A>, ghost states: set<S>) returns (path: seq<A>)
    requires Closed(p, states)
    ensures Solution(p, path) || (path == [] && !GoalReachable(p))
  {
    var expanded: set<S> := {};
    var frontier: seq<Entry<S, A>> := [StartEntry(p)];
    StartReached(p);
    assert Coords(frontier)[0] == p.startState;
    assert SearchInvariant(p, states, expanded, frontier);
    while frontier != []
      invariant SearchInvariant(p, states, expanded, frontier)
      decreases states - expanded
    {
      // frontier.pop(): the most recently pushed entry
      var e := frontier[|frontier| - 1];
      ghost var old_frontier := frontier;
      ghost var old_expanded := expanded;
      frontier := frontier[..|frontier| - 1];
      expanded := expanded + {e.state};
      if p.isGoalState(e.state) {
        ReachedGoalIsSolution(p, e);
        return e.path;
      }
      var successors := p.getSuccessors(e.state);
      ghost var before := frontier;
      frontier := PushUnseen(frontier, expanded, e, successors);
      assert old_frontier[..|old_frontier| - 1] + old_frontier[|old_frontier|..] == before;
      ExpansionStep(p, states, old_frontier, old_expanded, |old_frontier| - 1, before, frontier);
    }
    ExhaustedMeansNoGoal(p, expanded);
    return [];
  }

  // ---------------------------------------------------------------------------
  // Breadth-first search

  /** `breadth_first_search`: the frontier is a queue. */
  method BreadthFirstSearch<S(==,!new), A(!new)>(p: Problem<S, A>, ghost states: set<S>) returns (path: seq<A>)
    requires Closed(p, states)
    ensures Solution(p, path) || (path == [] && !GoalReachable(p))
  {
    var expanded: set<S> := {};
    var frontier: seq<Entry<S, A>> := [StartEntry(p)];
    StartReached(p);
    assert Coords(frontier)[0] == p.startState;
    assert SearchInvariant(p, states, expanded, frontier);
    while frontier != []
      invariant SearchInvariant(p, states, expanded, frontier)
      decreases states - expanded
    {
      // frontier.pop(): the least recently pushed entry
      var e := frontier[0];
      ghost var old_frontier := frontier;
      ghost var old_expanded := expanded;
      frontier := frontier[1..];
      expanded := expanded + {e.state};
      if p.isGoalState(e.state) {
        ReachedGoalIsSolution(p, e);
        return e.path;
      }
      var successors := p.getSuccessors(e.state);
      ghost var before := frontier;
      frontier := PushUnseen(frontier, expanded, e, successors);
      assert old_frontier[..0] + old_frontier[1..] == before;
      ExpansionStep(p, states, old_frontier, old_expanded, 0, before, frontier);
    }
    ExhaustedMeansNoGoal(p, expanded);
    return [];
  }

  /** The loop invariant of depth-first and breadth-first search: every
      frontier entry is reached and in the state space, no state is held twice
      or is both held and expanded, the start state is expanded or held, the
      successors of expanded states are expanded or held, and no expanded
      state is a goal. */
  ghost predicate SearchInvariant<S(!new), A(!new)>(p: Problem<S, A>, states: set<S>, expanded: set<S>,
                                                    f: seq<Entry<S, A>>)
  {
    (forall j :: 0 <= j < |f| ==> Reached(p, f[j]) && f[j].state in states) &&
    expanded <= states &&
    DistinctStates(f) &&
    (forall j :: 0 <= j < |f| ==> f[j].state !in expanded) &&
    (p.startState in expanded || p.startState in Coords(f)) &&
    Covered(p, expanded, Coords(f)) &&
    NoGoalIn(p, expanded)
  }

  /** Removing the entry at index `k` keeps every other entry, in order. */
  lemma RemoveAtKeeps<S, A>(f: seq<Entry<S, A>>, k: nat, rest: seq<Entry<S, A>>)
    requires k < |f| && rest == f[..k] + f[k + 1..]
    ensures |rest| == |f| - 1
    ensures forall j :: 0 <= j < |rest| ==> rest[j] == (if j < k then f[j] else f[j + 1])
    ensures DistinctStates(f) ==> DistinctStates(rest)
    ensures forall y :: y in Coords(f) ==> y == f[k].state || y in Coords(rest)
  {
    forall y | y in Coords(f) ensures y == f[k].state || y in Coords(rest) {
      var i :| 0 <= i < |f| && Coords(f)[i] == y;
      if i < k {
        assert Coords(rest)[i] == y;
      } else if i > k {
        assert Coords(rest)[i - 1] == y;
      }
    }
  }

  /** Every entry admitted for the successors of a reached entry is reached,
      and stays inside a closed state space. */
  lemma AdmittedReached<S(!new), A(!new)>(p: Problem<S, A>, states: set<S>, e: Entry<S, A>,
                                          rest: seq<Entry<S, A>>, r: seq<Entry<S, A>>, expanded: set<S>)
    requires Closed(p, states) && Reached(p, e) && e.state in states
    requires forall j :: 0 <= j < |rest| ==> Reached(p, rest[j]) && rest[j].state in states
    requires r == AdmitNew(rest, expanded, e, p.getSuccessors(e.state))
    ensures forall j :: 0 <= j < |r| ==> Reached(p, r[j]) && r[j].state in states
  {
    forall j | 0 <= j < |r| ensures Reached(p, r[j]) && r[j].state in states {
      if j >= |rest| {
        var t :| t in p.getSuccessors(e.state) && r[j] == Child(e, t);
        ChildReached(p, e, t);
      } else {
        assert r[j] == rest[j];
      }
    }
  }

  /** One iteration of depth-first or breadth-first search keeps the loop's
      invariants: the entry at index `k` of frontier `f` is popped, its state
      expanded, and `AdmitNew` adds its admitted successors to what is left. */
  lemma ExpansionStep<S(!new), A(!new)>(p: Problem<S, A>, states: set<S>, f: seq<Entry<S, A>>, expanded: set<S>,
                                        k: nat, rest: seq<Entry<S, A>>, r: seq<Entry<S, A>>)
    requires Closed(p, states)
    requires k < |f| && rest == f[..k] + f[k + 1..]
    requires SearchInvariant(p, states, expanded, f) && !p.isGoalState(f[k].state)
    requires r == AdmitNew(rest, expanded + {f[k].state}, f[k], p.getSuccessors(f[k].state))
    ensures SearchInvariant(p, states, expanded + {f[k].state}, r)
  {
    var x := f[k].state;
    var expanded' := expanded + {x};
    RemoveAtKeeps(f, k, rest);
    AdmittedReached(p, states, f[k], rest, r, expanded');
    forall j | 0 <= j < |r| ensures r[j].state !in expanded' {
      if j < |rest| {
        assert r[j] == rest[j];
      }
    }
    CoordsOfPrefix(rest, r);
  }

  // ---------------------------------------------------------------------------
  // The priority-queue frontier of uniform-cost and A* search

  /** An entry together with the priority it was pushed with. */
  datatype Queued<S, A> = Queued(entry: Entry<S, A>, priority: int)

  /** The states held by a priority-queue frontier. */
  function QCoords<S, A>(f: seq<Queued<S, A>>): (c: seq<S>)
    ensures |c| == |f|
    ensures forall k :: 0 <= k < |f| ==> c[k] == f[k].entry.state
  {
    seq(|f|, k requires 0 <= k < |f| => f[k].entry.state)
  }

  /** The frontier with the entry at index `k` taken out. */
  function RemoveAt<T>(f: seq<T>, k: nat): (r: seq<T>)
    requires k < |f|
    ensures |r| == |f| - 1
    ensures forall j :: 0 <= j < |r| ==> r[j] == (if j < k then f[j] else f[j + 1])
  {
    f[..k] + f[k + 1..]
  }

  /** The entry at index `k` has the least priority of the frontier: the
      priority queue may pop it. */
  predicate IsLeast<S, A>(f: seq<Queued<S, A>>, k: nat)
    requires k < |f|
  {
    forall j :: 0 <= j < |f| ==> f[k].priority <= f[j].priority
  }

  /** A non-empty priority queue always has an entry it may pop. */
  lemma {:induction false} LeastExists<S, A>(f: seq<Queued<S, A>>)
    requires f != []
    ensures exists k :: 0 <= k < |f| && IsLeast(f, k)
    decreases |f|
  {
    if |f| > 1 {
      var init := f[..|f| - 1];
      LeastExists(init);
      var k :| 0 <= k < |init| && IsLeast(init, k);
      if f[k].priority <= f[|f| - 1].priority {
        assert IsLeast(f, k);
      } else {
        assert IsLeast(f, |f| - 1);
      }
    } else {
      assert IsLeast(f, 0);
    }
  }

  /** The entries the inner loop of uniform-cost search pushes for `succs`, the
      successors of the expanded entry `e`: every successor whose state is not
      expanded, with its cumulative cost as its priority. */
  function UcsPushes<S(==), A>(e: Entry<S, A>, succs: seq<Successor<S, A>>, expanded: set<S>): seq<Queued<S, A>>
    decreases |succs|
  {
    if succs == [] then []
    else
      var r := UcsPushes(e, succs[..|succs| - 1], expanded);
      var t := succs[|succs| - 1];
      if t.state !in expanded then r + [Queued(Child(e, t), e.cost + t.cost)] else r
  }

  /** Uniform-cost search pushes a successor exactly when its state is not
      expanded, as the child entry of `e`, with the child's cumulative cost as
      its priority. */
  lemma {:induction false} UcsPushesAdmit<S, A>(e: Entry<S, A>, succs: seq<Successor<S, A>>, expanded: set<S>)
    ensures var r := UcsPushes(e, succs, expanded);
            (forall j :: 0 <= j < |r| ==>
               r[j].entry.state !in expanded && r[j].priority == r[j].entry.cost && ChildIn(e, r[j].entry, succs)) &&
            (forall t :: t in succs && t.state !in expanded ==> Queued(Child(e, t), e.cost + t.cost) in r) &&
            (forall t :: t in succs && t.state !in expanded ==> t.state in QCoords(r))
    decreases |succs|
  {
    if succs != [] {
      var init := succs[..|succs| - 1];
      UcsPushesAdmit(e, init, expanded);
      assert forall u :: u in init ==> u in succs;
      assert succs == init + [succs[|succs| - 1]];
    }
  }

  /** Going through one more successor appends at most one entry. */
  lemma UcsPushesStep<S, A>(e: Entry<S, A>, succs: seq<Successor<S, A>>, i: nat, expanded: set<S>)
    requires i < |succs|
    ensures UcsPushes(e, succs[..i + 1], expanded) ==
            UcsPushes(e, succs[..i], expanded) +
            (if succs[i].state !in expanded then [Queued(Child(e, succs[i]), e.cost + succs[i].cost)] else [])
  {
    assert succs[..i + 1][..i] == succs[..i];
  }

  /** The heuristic A* search uses when none is given: zero for every state. */
  function NullHeuristic<S, A>(state: S, problem: Problem<S, A>): int
  {
    0
  }

  /** The entries the inner loop of A* search pushes for `succs`, the
      successors of the expanded entry `e`: every successor whose state is not
      expanded, with its cumulative cost plus the heuristic's estimate for its
      state as its priority. */
  function AStarPushes<S(==), A>(e: Entry<S, A>, succs: seq<Successor<S, A>>, expanded: set<S>,
                                 p: Problem<S, A>, heuristic: (S, Problem<S, A>) -> int): seq<Queued<S, A>>
    decreases |succs|
  {
    if succs == [] then []
    else
      var r := AStarPushes(e, succs[..|succs| - 1], expanded, p, heuristic);
      var t := succs[|succs| - 1];
      if t.state !in expanded then r + [Queued(Child(e, t), e.cost + t.cost + heuristic(t.state, p))] else r
  }

  /** A* search pushes a successor exactly when its state is not expanded, as
      the child entry of `e`, with the child's cumulative cost plus the
      heuristic's estimate for its state as its priority. */
  lemma {:induction false} AStarPushesAdmit<S, A>(e: Entry<S, A>, succs: seq<Successor<S, A>>, expanded: set<S>,
                                                 p: Problem<S, A>, heuristic: (S, Problem<S, A>) -> int)
    ensures var r := AStarPushes(e, succs, expanded, p, heuristic);
            (forall j :: 0 <= j < |r| ==>
               r[j].entry.state !in expanded && ChildIn(e, r[j].entry, succs) &&
               r[j].priority == r[j].entry.cost + heuristic(r[j].entry.state, p)) &&
            (forall t :: t in succs && t.state !in expanded ==>
               Queued(Child(e, t), e.cost + t.cost + heuristic(t.state, p)) in r) &&
            (forall t :: t in succs && t.state !in expanded ==> t.state in QCoords(r))
    decreases |succs|
  {
    if succs != [] {
      var init := succs[..|succs| - 1];
      AStarPushesAdmit(e, init, expanded, p, heuristic);
      assert forall u :: u in init ==> u in succs;
      assert succs == init + [succs[|succs| - 1]];
    }
  }

  /** Going through one more successor appends at most one entry. */
  lemma AStarPushesStep<S, A>(e: Entry<S, A>, succs: seq<Successor<S, A>>, i: nat, expanded: set<S>,
                              p: Problem<S, A>, heuristic: (S, Problem<S, A>) -> int)
    requires i < |succs|
    ensures AStarPushes(e, succs[..i + 1], expanded, p, heuristic) ==
            AStarPushes(e, succs[..i], expanded, p, heuristic) +
            (if succs[i].state !in expanded
             then [Queued(Child(e, succs[i]), e.cost + succs[i].cost + heuristic(succs[i].state, p))]
             else [])
  {
    assert succs[..i + 1][..i] == succs[..i];
  }

  /** With the null heuristic, A* search pushes exactly the entries uniform-cost
      search pushes, in the same order and with the same priorities. */
  lemma {:induction false} NullHeuristicPushesAsUcs<S, A>(e: Entry<S, A>, succs: seq<Successor<S, A>>,
                                                              expanded: set<S>, p: Problem<S, A>)
    ensures AStarPushes(e, succs, expanded, p, NullHeuristic) == UcsPushes(e, succs, expanded)
    decreases |succs|
  {
    if succs != [] {
      NullHeuristicPushesAsUcs(e, succs[..|succs| - 1], expanded, p);
    }
  }

  /** Every expansion cost recorded so far is at most the cost of every entry
      still pending. */
  ghost predicate Settled<S, A>(expansionCost: map<S, int>, f: seq<Queued<S, A>>)
  {
    forall s, k :: s in expansionCost && 0 <= k < |f| ==> expansionCost[s] <= f[k].entry.cost
  }

  /** All step costs inside the state space are non-negative. */
  ghost predicate NonNegativeStepCosts<S, A>(p: Problem<S, A>, states: set<S>)
  {
    forall s, t :: s in states && t in p.getSuccessors(s) ==> t.cost >= 0
  }

  /** Expanding an entry of least priority, when priority is cumulative cost and
      step costs are non-negative, keeps every recorded expansion cost at most
      the cost of every pending entry. So an entry popped later for a state
      already expanded costs at least what it cost to expand that state. */
  lemma SettledAfterExpansion<S, A>(expansionCost: map<S, int>, f: seq<Queued<S, A>>, k: nat,
                                        succs: seq<Successor<S, A>>, expanded: set<S>)
    requires k < |f| && IsLeast(f, k)
    requires forall j :: 0 <= j < |f| ==> f[j].priority == f[j].entry.cost
    requires forall t :: t in succs ==> t.cost >= 0
    requires Settled(expansionCost, f)
    ensures Settled(expansionCost[f[k].entry.state := f[k].entry.cost],
                    RemoveAt(f, k) + UcsPushes(f[k].entry, succs, expanded))
  {
    var e := f[k].entry;
    var m := expansionCost[e.state := e.cost];
    var rest := RemoveAt(f, k);
    var pushed := UcsPushes(e, succs, expanded);
    UcsPushesAdmit(e, succs, expanded);
    var r := rest + pushed;
    forall s, j | s in m && 0 <= j < |r| ensures m[s] <= r[j].entry.cost {
      assert m[s] <= e.cost;
      if j < |rest| {
        assert r[j] == rest[j];
      } else {
        assert r[j] == pushed[j - |rest|];
        var t :| t in succs && pushed[j - |rest|].entry == Child(e, t);
      }
    }
  }

  /** One expanding iteration of uniform-cost or A* search keeps the loop's
      invariants: the entry at index `k` of `f` is popped, its state was not
      expanded before and is not a goal, and `pushed` holds the entries pushed
      for its successors. */
  lemma CostExpansionStep<S(!new), A(!new)>(p: Problem<S, A>, states: set<S>, f: seq<Queued<S, A>>,
                                            expanded: set<S>, k: nat, pushed: seq<Queued<S, A>>)
    requires Closed(p, states)
    requires k < |f| && f[k].entry.state !in expanded
    requires QueueInvariant(p, states, expanded, f) && !p.isGoalState(f[k].entry.state)
    requires forall j :: 0 <= j < |pushed| ==> ChildIn(f[k].entry, pushed[j].entry, p.getSuccessors(f[k].entry.state))
    requires forall t :: t in p.getSuccessors(f[k].entry.state) && t.state !in expanded + {f[k].entry.state} ==>
               t.state in QCoords(pushed)
    ensures QueueInvariant(p, states, expanded + {f[k].entry.state}, RemoveAt(f, k) + pushed)
  {
    var e := f[k].entry;
    var rest := RemoveAt(f, k);
    var r := rest + pushed;
    forall j | 0 <= j < |r| ensures Reached(p, r[j].entry) && r[j].entry.state in states {
      if j < |rest| {
        assert r[j] == rest[j];
      } else {
        assert r[j] == pushed[j - |rest|];
        var t :| t in p.getSuccessors(e.state) && r[j].entry == Child(e, t);
        ChildReached(p, e, t);
      }
    }
    QCoordsAfterPop(f, k, pushed);
  }

  /** The loop invariant of uniform-cost and A* search: every frontier entry
      is reached and in the state space, the start state is expanded or held,
      the successors of expanded states are expanded or held, and no expanded
      state is a goal. Unlike depth-first and breadth-first search, a state
      may be held several times, and also once expanded. */
  ghost predicate QueueInvariant<S(!new), A(!new)>(p: Problem<S, A>, states: set<S>, expanded: set<S>,
                                                   f: seq<Queued<S, A>>)
  {
    (forall j :: 0 <= j < |f| ==> Reached(p, f[j].entry) && f[j].entry.state in states) &&
    expanded <= states &&
    (p.startState in expanded || p.startState in QCoords(f)) &&
    Covered(p, expanded, QCoords(f)) &&
    NoGoalIn(p, expanded)
  }

  /** A state pending in `f` other than the popped one is still pending once
      the pop happened and `pushed` was appended; so is every pushed state. */
  lemma QCoordsAfterPop<S, A>(f: seq<Queued<S, A>>, k: nat, pushed: seq<Queued<S, A>>)
    requires k < |f|
    ensures forall y :: y in QCoords(f) ==> y == f[k].entry.state || y in QCoords(RemoveAt(f, k) + pushed)
    ensures forall y :: y in QCoords(pushed) ==> y in QCoords(RemoveAt(f, k) + pushed)
  {
    var rest := RemoveAt(f, k);
    var r := rest + pushed;
    forall y | y in QCoords(f) ensures y == f[k].entry.state || y in QCoords(r) {
      var i :| 0 <= i < |f| && QCoords(f)[i] == y;
      if i < k {
        assert QCoords(r)[i] == y;
      } else if i > k {
        assert QCoords(r)[i - 1] == y;
      }
    }
    forall y | y in QCoords(pushed) ensures y in QCoords(r) {
      var i :| 0 <= i < |pushed| && QCoords(pushed)[i] == y;
      assert QCoords(r)[|rest| + i] == y;
    }
  }

  /** A stale pop, of an entry whose state is already expanded, keeps the
      loop's invariants. */
  lemma StalePopStep<S(!new), A(!new)>(p: Problem<S, A>, states: set<S>, f: seq<Queued<S, A>>, expanded: set<S>, k: nat)
    requires k < |f| && f[k].entry.state in expanded
    requires QueueInvariant(p, states, expanded, f)
    ensures QueueInvariant(p, states, expanded, RemoveAt(f, k))
  {
    QCoordsAfterPop(f, k, []);
    assert RemoveAt(f, k) + [] == RemoveAt(f, k);
  }

  // ---------------------------------------------------------------------------
  // Uniform-cost search

  /** The inner loop of `uniform_cost_search`: every successor whose state is
      not yet expanded is pushed with its cumulative cost as priority. */
  method PushByCost<S(==), A>(frontier: seq<Queued<S, A>>, e: Entry<S, A>, successors: seq<Successor<S, A>>,
                              expanded: set<S>) returns (frontier': seq<Queued<S, A>>)
    ensures frontier' == frontier + UcsPushes(e, successors, expanded)
  {
    frontier' := frontier;
    var i := 0;
    while i < |successors|
      invariant 0 <= i <= |successors|
      invariant frontier' == frontier + UcsPushes(e, successors[..i], expanded)
    {
      var t := successors[i];
      UcsPushesStep(e, successors, i, expanded);
      if t.state !in expanded {
        var priority := e.cost + t.cost;
        frontier' := frontier' + [Queued(Child(e, t), priority)];
      }
      i := i + 1;
    }
    assert successors[..i] == successors;
  }

  /** `uniform_cost_search`: the frontier is a priority queue ordered by
      cumulative cost; stale entries, whose state is already expanded, are
      discarded when popped. */
  method UniformCostSearch<S(==,!new), A(!new)>(p: Problem<S, A>, ghost states: set<S>) returns (path: seq<A>)
    requires Closed(p, states)
    ensures Solution(p, path) || (path == [] && !GoalReachable(p))
  {
    var expanded: set<S> := {};
    var frontier: seq<Queued<S, A>> := [Queued(StartEntry(p), 0)];
    StartReached(p);
    assert QCoords(frontier)[0] == p.startState;
    assert QueueInvariant(p, states, expanded, frontier);
    // the cost at which each expanded state was expanded
    ghost var expansionCost: map<S, int> := map[];
    ghost var nonNegative := NonNegativeStepCosts(p, states);
    while frontier != []
      invariant QueueInvariant(p, states, expanded, frontier)
      invariant forall k :: 0 <= k < |frontier| ==> frontier[k].priority == frontier[k].entry.cost
      invariant expansionCost.Keys == expanded
      invariant nonNegative ==> Settled(expansionCost, frontier)
      decreases states - expanded, |frontier|
    {
      // frontier.pop(): an entry of least priority
      LeastExists(frontier);
      var k :| 0 <= k < |frontier| && IsLeast(frontier, k);
      var e := frontier[k].entry;
      ghost var old_frontier := frontier;
      frontier := RemoveAt(frontier, k);
      if e.state in expanded {
        // a stale entry: it costs at least what expanding its state cost
        assert nonNegative ==> expansionCost[e.state] <= e.cost;
        StalePopStep(p, states, old_frontier, expanded, k);
        continue;
      }
      ghost var old_expanded := expanded;
      expanded := expanded + {e.state};
      if p.isGoalState(e.state) {
        ReachedGoalIsSolution(p, e);
        return e.path;
      }
      var successors := p.getSuccessors(e.state);
      frontier := PushByCost(frontier, e, successors, expanded);
      ghost var pushed := UcsPushes(e, successors, expanded);
      UcsPushesAdmit(e, successors, expanded);
      CostExpansionStep(p, states, old_frontier, old_expanded, k, pushed);
      if nonNegative {
        SettledAfterExpansion(expansionCost, old_frontier, k, successors, expanded);
      }
      expansionCost := expansionCost[e.state := e.cost];
    }
    ExhaustedMeansNoGoal(p, expanded);
    return [];
  }

  // ---------------------------------------------------------------------------
  // A* search

  /** The inner loop of `a_star_search`: every successor whose state is not
      yet expanded is pushed with its cumulative cost plus the heuristic's
      estimate as priority. */
  method PushByEstimate<S(==), A>(frontier: seq<Queued<S, A>>, e: Entry<S, A>, successors: seq<Successor<S, A>>,
                                  expanded: set<S>, p: Problem<S, A>, heuristic: (S, Problem<S, A>) -> int)
    returns (frontier': seq<Queued<S, A>>)
    ensures frontier' == frontier + AStarPushes(e, successors, expanded, p, heuristic)
  {
    frontier' := frontier;
    var i := 0;
    while i < |successors|
      invariant 0 <= i <= |successors|
      invariant frontier' == frontier + AStarPushes(e, successors[..i], expanded, p, heuristic)
    {
      var t := successors[i];
      AStarPushesStep(e, successors, i, expanded, p, heuristic);
      if t.state !in expanded {
        var priority := e.cost + t.cost + heuristic(t.state, p);
        frontier' := frontier' + [Queued(Child(e, t), priority)];
      }
      i := i + 1;
    }
    assert successors[..i] == successors;
  }

  /** `a_star_search`: the frontier is a priority queue ordered by cumulative
      cost plus the heuristic's estimate; the start entry is pushed with
      priority 0. Stale entries are discarded when popped. */
  method AStarSearch<S(==,!new), A(!new)>(p: Problem<S, A>, heuristic: (S, Problem<S, A>) -> int,
                                          ghost states: set<S>) returns (path: seq<A>)
    requires Closed(p, states)
    ensures Solution(p, path) || (path == [] && !GoalReachable(p))
  {
    var expanded: set<S> := {};
    var frontier: seq<Queued<S, A>> := [Queued(StartEntry(p), 0)];
    StartReached(p);
    assert QCoords(frontier)[0] == p.startState;
    assert QueueInvariant(p, states, expanded, frontier);
    while frontier != []
      invariant QueueInvariant(p, states, expanded, frontier)
      invariant forall k :: 0 <= k < |frontier| ==>
                  frontier[k] == Queued(StartEntry(p), 0) ||
                  frontier[k].priority == frontier[k].entry.cost + heuristic(frontier[k].entry.state, p)
      decreases states - expanded, |frontier|
    {
      // frontier.pop(): an entry of least priority
      LeastExists(frontier);
      var k :| 0 <= k < |frontier| && IsLeast(frontier, k);
      var e := frontier[k].entry;
      ghost var old_frontier := frontier;
      frontier := RemoveAt(frontier, k);
      if e.state in expanded {
        StalePopStep(p, states, old_frontier, expanded, k);
        continue;
      }
      ghost var old_expanded := expanded;
      expanded := expanded + {e.state};
      if p.isGoalState(e.state) {
        ReachedGoalIsSolution(p, e);
        return e.path;
      }
      var successors := p.getSuccessors(e.state);
      frontier := PushByEstimate(frontier, e, successors, expanded, p, heuristic);
      ghost var pushed := AStarPushes(e, successors, expanded, p, heuristic);
      AStarPushesAdmit(e, successors, expanded, p, heuristic);
      CostExpansionStep(p, states, old_frontier, old_expanded, k, pushed);
    }
    ExhaustedMeansNoGoal(p, expanded);
    return [];
  }
}
