/** `SearchNode` of search/search.py: a node of the search tree that records
    its state, the action that reached it, the cumulative cost from the root
    and a reference to its parent node. A node never changes once built, so
    its fields are constants; the chain of parent references is a linked
    structure that `get_path` walks back to the root. */
module SearchTree {
  import opened SearchProblem

  /** The actions of `s` in the opposite order, as `list.reverse` leaves them. */
  function Reversed<T>(s: seq<T>): (r: seq<T>)
    decreases |s|
    ensures |r| == |s|
    ensures forall i :: 0 <= i < |s| ==> r[i] == s[|s| - 1 - i]
  {
    if s == [] then [] else [s[|s| - 1]] + Reversed(s[..|s| - 1])
  }

  class SearchNode<S, A> {
    const state: S
    const action: A
    /** The cost of reaching this node from the root of its tree. */
    const cost: int
    const parent: SearchNode?<S, A>
    /** The number of parent links between this node and the root. */
    ghost const depth: nat
    /** The step cost given when the node was built. */
    ghost const stepCost: int

    /** The node's ghost bookkeeping agrees with the chain of parents: a root
        costs its own step cost, any other node one step more than its parent. */
    ghost predicate Valid()
      decreases depth
    {
      if parent == null then depth == 0 && cost == stepCost
      else depth == parent.depth + 1 && cost == stepCost + parent.cost && parent.Valid()
    }

    /** `SearchNode.__init__(parent, node_info)` with `node_info` the triple
        (state, action, step cost): the cost accumulates the parent's cost. */
    constructor (parent: SearchNode?<S, A>, info: Successor<S, A>)
      requires parent != null ==> parent.Valid()
      ensures this.state == info.state && this.action == info.action && this.parent == parent
      ensures this.cost == if parent == null then info.cost else info.cost + parent.cost
      ensures Valid()
    {
      this.state := info.state;
      this.action := info.action;
      this.cost := if parent == null then info.cost else info.cost + parent.cost;
      this.parent := parent;
      this.depth := if parent == null then 0 else parent.depth + 1;
      this.stepCost := info.cost;
    }

    /** The actions from the root to this node; the root's own action is not
        part of it. */
    ghost function Path(): (r: seq<A>)
      requires Valid()
      decreases depth
      ensures |r| == depth
    {
      if parent == null then [] else parent.Path() + [action]
    }

    /** The steps from the root to this node, each as the (state, action,
        step cost) triple its node was built from. */
    ghost function Steps(): (r: seq<Successor<S, A>>)
      requires Valid()
      decreases depth
      ensures |r| == depth
    {
      if parent == null then [] else parent.Steps() + [Successor(state, action, stepCost)]
    }

    /** The root of this node's tree. */
    ghost function Root(): (r: SearchNode<S, A>)
      requires Valid()
      decreases depth
      ensures r.Valid() && r.parent == null
    {
      if parent == null then this else parent.Root()
    }

    /** Every node from this one up to the root was built from one of the
        successors `p` returns for its parent's state. */
    ghost predicate LinkedIn(p: Problem<S, A>)
      requires Valid()
      decreases depth
    {
      parent == null ||
      (Successor(state, action, stepCost) in p.getSuccessors(parent.state) && parent.LinkedIn(p))
    }

    /** `get_path`: follows the parent links to the root collecting actions,
        then reverses them; the result is the path from the root. */
    method GetPath() returns (path: seq<A>)
      requires Valid()
      ensures path == Path()
    {
      var collected: seq<A> := [];
      var current: SearchNode<S, A> := this;
      while current.parent != null
        invariant current.Valid()
        invariant Path() == current.Path() + Reversed(collected)
        decreases current.depth
      {
        ghost var before := collected;
        collected := collected + [current.action];
        assert collected[..|collected| - 1] == before;
        current := current.parent;
      }
      path := Reversed(collected);
    }

    /** The steps from the root explain the node: their actions are its path,
        they end in its state, and their costs add up to its cost on top of
        the root's. */
    lemma {:induction false} StepsExplainNode()
      requires Valid()
      decreases depth
      ensures Actions(Steps()) == Path()
      ensures End(Root().state, Steps()) == state
      ensures cost == Root().cost + PathCost(Steps())
    {
      if parent != null {
        parent.StepsExplainNode();
        var w := parent.Steps();
        var t := Successor(state, action, stepCost);
        assert (w + [t])[..|w|] == w;
      }
    }

    /** A node whose chain was built from successors of `p`, rooted at the
        start state with cost 0, is the end of a walk from the start state:
        the entry (state, `get_path`, cost) is explained by that walk, as the
        entries the graph searches carry are. */
    lemma {:induction false} NodeTracks(p: Problem<S, A>)
      requires Valid() && LinkedIn(p)
      requires Root().state == p.startState && Root().cost == 0
      decreases depth
      ensures Tracks(p, Entry(state, Path(), cost), Steps())
    {
      StepsExplainNode();
      if parent != null {
        parent.NodeTracks(p);
        var w := parent.Steps();
        var t := Successor(state, action, stepCost);
        parent.StepsExplainNode();
        assert (w + [t])[..|w|] == w;
      }
    }
  }
}
