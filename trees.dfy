/**
 * The tree-level entry points as objects: the scan and the close loop of
 * a tree tick, `BehaviorTree.tick` of src/blackthorn.ts (which may be given
 * a ticker to reuse), and `BehaviorTree.tick` and `Agent.tick` of
 * blackthorn.ts (a fresh ticker per tick, or the agent's one ticker).
 */
module Trees {
  import opened Memory
  import opened Nodes
  import opened Semantics
  import opened Ticks
  import opened Engine

  /** The scan for the first node of last tick's list that is not open now. */
  method StartIndex(last: seq<NodeId>, curr: seq<NodeId>) returns (start: nat)
    ensures start == StaleStart(last, curr)
  {
    var m := if |last| < |curr| then |last| else |curr|;
    start := 0;
    var i := 0;
    while i < m
      invariant 0 <= i <= m && start == i
      invariant forall k | 0 <= k < i :: last[k] == curr[k]
    {
      start := i + 1;
      if last[i] != curr[i] {
        break;
      }
      i := i + 1;
    }
  }

  /** `_close` on `last[i]` for `i` from the end down to `start`. */
  method CloseStale(t: Ticker, inst: Instances, last: seq<NodeId>, start: nat)
    modifies t, t.blackboard
    ensures WorldOf(t, inst) == CloseFrom(old(WorldOf(t, inst)), t.tree, last, start)
  {
    ghost var goal := CloseFrom(WorldOf(t, inst), t.tree, last, start);
    var i: int := |last| - 1;
    assert last[..i + 1] == last;
    while i >= start
      invariant -1 <= i < |last|
      invariant CloseFrom(WorldOf(t, inst), t.tree, last[..i + 1], start) == goal
      decreases i
    {
      assert last[..i + 1][..i] == last[..i];
      ClosePhase(last[i], t, inst);
      i := i - 1;
    }
  }

  /**
   * Everything a tree tick does after `_execute`: read last tick's list,
   * scan, close the stale nodes, store the list (a copy taken before the
   * closes, or the ticker's own list) and the node count.
   */
  method SettlePhase(t: Ticker, inst: Instances, copies: bool)
    modifies t, t.blackboard
    ensures WorldOf(t, inst) == Settle(old(WorldOf(t, inst)), t.tree, copies)
  {
    var stored := t.blackboard.Get("openNodes", t.tree, "");
    var last := LastOpen(stored);
    var curr := t.openNodes;
    var start := StartIndex(last, curr);
    CloseStale(t, inst, last, start);
    var list := if copies then curr else t.openNodes;
    t.blackboard.Set("openNodes", Nodes(list), t.tree, "");
    t.blackboard.Set("nodeCount", Int(t.nodeCount), t.tree, "");
  }

  /** `BehaviorTree` of src/blackthorn.ts; `id` is the generated identifier. */
  class BehaviorTree {
    const id: TreeId
    const root: Node

    constructor (id: TreeId, root: Node)
      ensures this.id == id && this.root == root
    {
      this.id := id;
      this.root := root;
    }

    /**
     * `tick(subject, blackboard, ticker?)`: a fresh ticker when none is
     * given, else the given one with its list emptied (its count carries
     * on); the list stored is the ticker's own, after the closes.
     */
    method Tick(blackboard: Blackboard, ticker: Ticker?, inst: Instances, env: Env)
      requires Bounded(root)
      requires ticker != null ==> ticker.tree == id && ticker.blackboard == blackboard
      modifies blackboard, ticker, inst
      ensures var count := if ticker == null then 0 else old(ticker.nodeCount);
              var r := TreeTick(root, id, env, World(old(blackboard.Model()), [], count, old(inst.counters)), false);
              && blackboard.Model() == r.store && inst.counters == r.counters
              && (ticker != null ==> ticker.openNodes == r.open && ticker.nodeCount == r.count)
    {
      var t: Ticker;
      if ticker == null {
        t := new Ticker(blackboard, id);
      } else {
        ticker.openNodes := [];
        t := ticker;
      }
      var _ := Execute(root, t, inst, env);
      SettlePhase(t, inst, false);
    }
  }

  /** `BehaviorTree` of blackthorn.ts. */
  class LegacyBehaviorTree {
    const id: TreeId
    const root: Node

    constructor (id: TreeId, root: Node)
      ensures this.id == id && this.root == root
    {
      this.id := id;
      this.root := root;
    }

    /** `tick(subject, blackboard)`: always a fresh ticker; the list stored is a copy taken before the closes. */
    method Tick(blackboard: Blackboard, inst: Instances, env: Env)
      requires LegacyTree(root) && Bounded(root)
      modifies blackboard, inst
      ensures var r := TreeTick(root, id, env, World(old(blackboard.Model()), [], 0, old(inst.counters)), true);
              blackboard.Model() == r.store && inst.counters == r.counters
    {
      var t := new Ticker(blackboard, id);
      var _ := Execute(root, t, inst, env);
      SettlePhase(t, inst, true);
    }
  }

  /** `Agent` of blackthorn.ts: a tree, a blackboard and one ticker kept across ticks. */
  class Agent {
    const tree: LegacyBehaviorTree
    const blackboard: Blackboard
    const ticker: Ticker

    predicate Valid() {
      ticker.tree == tree.id && ticker.blackboard == blackboard
    }

    constructor (tree: LegacyBehaviorTree, blackboard: Blackboard)
      ensures Valid() && this.tree == tree && this.blackboard == blackboard
      ensures fresh(ticker) && ticker.openNodes == [] && ticker.nodeCount == 0
    {
      this.tree := tree;
      this.blackboard := blackboard;
      ticker := new Ticker(blackboard, tree.id);
    }

    /**
     * `tick()`: the same steps as the tree's tick, on the agent's ticker,
     * whose list and count are never reset.
     */
    method Tick(inst: Instances, env: Env)
      requires Valid() && LegacyTree(tree.root) && Bounded(tree.root)
      modifies ticker, blackboard, inst
      ensures WorldOf(ticker, inst) == TreeTick(tree.root, tree.id, env, old(WorldOf(ticker, inst)), true)
    {
      var _ := Execute(tree.root, ticker, inst, env);
      SettlePhase(ticker, inst, true);
    }
  }
}
