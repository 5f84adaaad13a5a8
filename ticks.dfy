/**
 * What a tree tick does after executing the root: read the list of nodes
 * left open by the previous tick, close the ones that are no longer open,
 * and store this tick's list and the ticker's node count in the tree's
 * memory.
 */
module Ticks {
  import opened Memory
  import opened Nodes
  import opened Semantics
  import opened Frames

  /** The length of the longest common prefix of two lists of nodes. */
  function CommonPrefix(a: seq<NodeId>, b: seq<NodeId>): (p: nat)
    ensures p <= |a| && p <= |b|
    ensures forall k | 0 <= k < p :: a[k] == b[k]
    ensures p < |a| && p < |b| ==> a[p] != b[p]
  {
    if a == [] || b == [] || a[0] != b[0] then 0 else 1 + CommonPrefix(a[1..], b[1..])
  }

  /**
   * The index the tick's scan of the two lists ends with: the scan sets it
   * to one past each position it looks at and stops at the first mismatch,
   * so the mismatching node itself is counted as still open.
   */
  function StaleStart(last: seq<NodeId>, curr: seq<NodeId>): nat {
    var p := CommonPrefix(last, curr);
    if p < |last| && p < |curr| then p + 1 else p
  }

  /** The stored list of last tick's open nodes; anything that is not an array reads as empty. */
  function LastOpen(v: Value): seq<NodeId> {
    if v.Nodes? then v.ids else []
  }

  /** `_close` on `ids[|ids| - 1]`, then on the one before, down to `ids[start]`. */
  function CloseFrom(w: World, tree: TreeId, ids: seq<NodeId>, start: nat): World
    decreases |ids|
  {
    if |ids| <= start then w
    else CloseFrom(Close(w, tree, ids[|ids| - 1]), tree, ids[..|ids| - 1], start)
  }

  /** The slot is the `isOpen` entry of one of `ids[start..]`. */
  predicate Closes(s: Slot, tree: TreeId, ids: seq<NodeId>, start: nat) {
    exists k | start <= k < |ids| :: s == IsOpenSlot(tree, ids[k])
  }

  /** How many `_close` calls `CloseFrom` makes. */
  function Closings(ids: seq<NodeId>, start: nat): nat {
    if |ids| > start then |ids| - start else 0
  }

  function OpenNodesSlot(tree: TreeId): Slot {
    Entry(TreeScope(tree), "openNodes")
  }

  function NodeCountSlot(tree: TreeId): Slot {
    Entry(TreeScope(tree), "nodeCount")
  }

  /**
   * After the root's execution left the world `e`: close the stale nodes of
   * `last` from index `start` on, and store the open list and the count.
   * `copies` says whether the stored list is a copy taken before the closes
   * (whose pops then do not reach it) or the ticker's own list.
   */
  function Finish(e: World, tree: TreeId, last: seq<NodeId>, start: nat, copies: bool): World {
    var w1 := e.(store := Touch(e.store, tree, ""));
    var w2 := CloseFrom(w1, tree, last, start);
    var stored := if copies then e.open else w2.open;
    w2.(store := Write(Write(w2.store, "openNodes", Nodes(stored), tree, ""), "nodeCount", Int(w2.count), tree, ""))
  }

  /** The part of `BehaviorTree.tick` (and `Agent.tick`) after `_execute`, as the source has it. */
  function Settle(e: World, tree: TreeId, copies: bool): World {
    var last := LastOpen(Read(e.store, "openNodes", tree, ""));
    Finish(e, tree, last, StaleStart(last, e.open), copies)
  }

  /** The same with the scan stopping at the first mismatch and the list copied. */
  function SettleCorrected(e: World, tree: TreeId): World {
    var last := LastOpen(Read(e.store, "openNodes", tree, ""));
    Finish(e, tree, last, CommonPrefix(last, e.open), true)
  }

  /** A whole tick of the tree `tree` with root `root`, from the ticker state in `w`. */
  function TreeTick(root: Node, tree: TreeId, env: Env, w: World, copies: bool): World
    requires Bounded(root)
  {
    Settle(ExecSpec(root, tree, env, w).world, tree, copies)
  }

  /** The closes clear exactly the `isOpen` entries of `ids[start..]`. */
  lemma {:induction false} CloseFromAt(w: World, tree: TreeId, ids: seq<NodeId>, start: nat, s: Slot)
    ensures At(CloseFrom(w, tree, ids, start), s) == if Closes(s, tree, ids, start) then Bool(false) else At(w, s)
    decreases |ids|
  {
    if |ids| > start {
      var top := ids[|ids| - 1];
      var rest := ids[..|ids| - 1];
      CloseAt(w, tree, top, s);
      CloseFromAt(Close(w, tree, top), tree, rest, start, s);
      if Closes(s, tree, rest, start) {
        var k :| start <= k < |rest| && s == IsOpenSlot(tree, rest[k]);
        assert ids[k] == rest[k];
      }
      if Closes(s, tree, ids, start) && s != IsOpenSlot(tree, top) {
        var k :| start <= k < |ids| && s == IsOpenSlot(tree, ids[k]);
        assert k < |rest| && rest[k] == ids[k];
      }
    }
  }

  /** Each close pops one entry of the ticker's stack; the counter and the node counters stay. */
  lemma {:induction false} CloseFromStack(w: World, tree: TreeId, ids: seq<NodeId>, start: nat)
    ensures var r := CloseFrom(w, tree, ids, start);
            && r.open == (if Closings(ids, start) <= |w.open| then w.open[..|w.open| - Closings(ids, start)] else [])
            && r.count == w.count && r.counters == w.counters
    decreases |ids|
  {
    if |ids| > start {
      CloseFromStack(Close(w, tree, ids[|ids| - 1]), tree, ids[..|ids| - 1], start);
    }
  }

  /**
   * What `Finish` leaves: the stored list and count in the tree's bucket,
   * the closed nodes' `isOpen` cleared, and every other slot as it was.
   */
  lemma FinishEffect(e: World, tree: TreeId, last: seq<NodeId>, start: nat, copies: bool, s: Slot)
    ensures var r := Finish(e, tree, last, start, copies);
            var closed := CloseFrom(e.(store := Touch(e.store, tree, "")), tree, last, start);
            && At(r, OpenNodesSlot(tree)) == Nodes(if copies then e.open else closed.open)
            && At(r, NodeCountSlot(tree)) == Int(e.count)
            && r.open == closed.open && r.count == e.count && r.counters == e.counters
            && (s != OpenNodesSlot(tree) && s != NodeCountSlot(tree) ==>
                At(r, s) == if Closes(s, tree, last, start) then Bool(false) else At(e, s))
  {
    var w1 := e.(store := Touch(e.store, tree, ""));
    var w2 := CloseFrom(w1, tree, last, start);
    CloseFromStack(w1, tree, last, start);
    var stored := if copies then e.open else w2.open;
    var s1 := Write(w2.store, "openNodes", Nodes(stored), tree, "");
    var s2 := Write(s1, "nodeCount", Int(w2.count), tree, "");
    LookupAfterWrite(w2.store, "openNodes", Nodes(stored), tree, "", TreeScope(tree), "openNodes");
    LookupAfterWrite(s1, "nodeCount", Int(w2.count), tree, "", TreeScope(tree), "openNodes");
    LookupAfterWrite(s1, "nodeCount", Int(w2.count), tree, "", TreeScope(tree), "nodeCount");
    match s
    case Entry(scope, key) =>
      LookupAfterWrite(w2.store, "openNodes", Nodes(stored), tree, "", scope, key);
      LookupAfterWrite(s1, "nodeCount", Int(w2.count), tree, "", scope, key);
      LookupAfterTouch(e.store, tree, "", scope, key);
      CloseFromAt(w1, tree, last, start, s);
    case CounterOf(_) =>
  }

  /**
   * With the scan stopping at the first mismatch, every node of last tick's
   * list past the common prefix with this tick's list is closed, and the
   * stored list is this tick's list as the execution left it.
   */
  lemma SettleCorrectedCloses(e: World, tree: TreeId, k: nat)
    ensures var last := LastOpen(Read(e.store, "openNodes", tree, ""));
            var r := SettleCorrected(e, tree);
            && At(r, OpenNodesSlot(tree)) == Nodes(e.open)
            && (CommonPrefix(last, e.open) <= k < |last| ==> NodeRead(r, tree, last[k], "isOpen") == Bool(false))
  {
    var last := LastOpen(Read(e.store, "openNodes", tree, ""));
    var p := CommonPrefix(last, e.open);
    if p <= k < |last| {
      FinishEffect(e, tree, last, p, true, IsOpenSlot(tree, last[k]));
      assert Closes(IsOpenSlot(tree, last[k]), tree, last, p);
    } else {
      FinishEffect(e, tree, last, p, true, OpenNodesSlot(tree));
    }
  }

  /** What `Settle` leaves, in the same terms. */
  lemma SettleEffect(e: World, tree: TreeId, copies: bool, s: Slot)
    ensures var last := LastOpen(Read(e.store, "openNodes", tree, ""));
            var start := StaleStart(last, e.open);
            var r := Settle(e, tree, copies);
            && r.open == (if Closings(last, start) <= |e.open| then e.open[..|e.open| - Closings(last, start)] else [])
            && At(r, OpenNodesSlot(tree)) == Nodes(if copies then e.open else r.open)
            && At(r, NodeCountSlot(tree)) == Int(e.count)
            && r.count == e.count && r.counters == e.counters
            && (s != OpenNodesSlot(tree) && s != NodeCountSlot(tree) ==>
                At(r, s) == if Closes(s, tree, last, start) then Bool(false) else At(e, s))
  {
    var last := LastOpen(Read(e.store, "openNodes", tree, ""));
    var start := StaleStart(last, e.open);
    FinishEffect(e, tree, last, start, copies, s);
    CloseFromStack(e.(store := Touch(e.store, tree, "")), tree, last, start);
  }

  /** Last tick's list `[r, a]` with `a` open, and this tick's list `[r, b]`. */
  function MismatchWorld(): World {
    var bucket := TreeBucket(map["openNodes" := Nodes(["r", "a"])], map["a" := map["isOpen" := Bool(true)]]);
    World(Store(map[], map["t" := bucket]), ["r", "b"], 2, map[])
  }

  /**
   * The scan as written reports 2 for `[r, a]` against `[r, b]`, so `a`,
   * which is no longer open, keeps `isOpen` true; stopping at the mismatch
   * closes it.
   */
  lemma ScanSkipsFirstMismatch()
    ensures StaleStart(["r", "a"], ["r", "b"]) == 2 && CommonPrefix(["r", "a"], ["r", "b"]) == 1
    ensures NodeRead(Settle(MismatchWorld(), "t", true), "t", "a", "isOpen") == Bool(true)
    ensures NodeRead(SettleCorrected(MismatchWorld(), "t"), "t", "a", "isOpen") == Bool(false)
  {
    var e := MismatchWorld();
    assert Read(e.store, "openNodes", "t", "") == Nodes(["r", "a"]);
    assert At(e, IsOpenSlot("t", "a")) == Bool(true);
    SettleEffect(e, "t", true, IsOpenSlot("t", "a"));
    assert !Closes(IsOpenSlot("t", "a"), "t", ["r", "a"], 2);
    SettleCorrectedCloses(e, "t", 1);
  }

  /** Last tick's list `[r, c, x]`, and this tick's list `[r, c]`. */
  function ShrinkWorld(): World {
    var bucket := TreeBucket(map["openNodes" := Nodes(["r", "c", "x"])], map[]);
    World(Store(map[], map["t" := bucket]), ["r", "c"], 2, map[])
  }

  /**
   * Storing the ticker's own list: closing the stale `x` pops `c` from it,
   * so `[r]` is stored although `r` and `c` are both open; a copy taken
   * before the closes stores `[r, c]`.
   */
  lemma StoredListLosesOpenNodes()
    ensures At(Settle(ShrinkWorld(), "t", false), OpenNodesSlot("t")) == Nodes(["r"])
    ensures At(Settle(ShrinkWorld(), "t", true), OpenNodesSlot("t")) == Nodes(["r", "c"])
  {
    var e := ShrinkWorld();
    assert Read(e.store, "openNodes", "t", "") == Nodes(["r", "c", "x"]);
    assert CommonPrefix(["r", "c", "x"], ["r", "c"]) == 2;
    SettleEffect(e, "t", false, OpenNodesSlot("t"));
    SettleEffect(e, "t", true, OpenNodesSlot("t"));
    assert e.open[..1] == ["r"];
  }
}
