/**
 * What one execution can change, slot by slot. A slot is one entry of one
 * blackboard bucket or the counter kept on one node object; executing a
 * node changes only the slots of the nodes it can reach, and ticking it
 * leaves its own `isOpen` alone.
 */
module Frames {
  import opened Memory
  import opened Nodes
  import opened Semantics

  /** One thing an execution can change: a bucket entry, or a node's counter. */
  datatype Slot = Entry(scope: Scope, key: string) | CounterOf(id: NodeId)

  /** The value in a slot. */
  function At(w: World, s: Slot): Value {
    match s
    case Entry(scope, key) => Lookup(w.store, scope, key)
    case CounterOf(id) => Int(Counter(w, id))
  }

  /** The node of `tree` a slot belongs to: its node bucket's node, or its counter's node. */
  function Owner(s: Slot, tree: TreeId): Option<NodeId> {
    match s
    case Entry(scope, _) =>
      if scope.NodeScope? && scope.tree == tree && scope.node != "" then
        var id: NodeId := scope.node;
        Some(id)
      else None
    case CounterOf(id) => Some(id)
  }

  /** The slot belongs to a node that executing `n` can reach. */
  predicate OwnedBy(s: Slot, tree: TreeId, n: Node) {
    var o := Owner(s, tree);
    o.Some? && Occurs(o.value, n)
  }

  /** The slot belongs to a node strictly below `n`. */
  predicate OwnedBelow(s: Slot, tree: TreeId, n: Node) {
    var o := Owner(s, tree);
    o.Some? && OccursBelow(o.value, n)
  }

  function IsOpenSlot(tree: TreeId, id: NodeId): Slot {
    Entry(NodeScope(tree, id), "isOpen")
  }

  /** What a node's `tick` may change: the slots below it, and its own slots but `isOpen`. */
  predicate TickMay(s: Slot, tree: TreeId, n: Node) {
    OwnedBelow(s, tree, n) || (Owner(s, tree) == Some(n.id) && s != IsOpenSlot(tree, n.id))
  }

  /** What the children loop from index `i` may change: the slots of those children, and `runningChild`. */
  predicate ChildrenMay(s: Slot, tree: TreeId, n: Node, i: nat) {
    || (exists k | i <= k < |n.children| :: OwnedBy(s, tree, n.children[k]))
    || s == Entry(NodeScope(tree, n.id), "runningChild")
  }

  lemma WriteAt(w: World, tree: TreeId, id: NodeId, key: string, v: Value, s: Slot)
    ensures At(NodeWrite(w, tree, id, key, v), s) == if s == Entry(NodeScope(tree, id), key) then v else At(w, s)
  {
    match s
    case Entry(scope, key') => LookupAfterWrite(w.store, key, v, tree, id, scope, key');
    case CounterOf(_) =>
  }

  lemma TouchAt(w: World, tree: TreeId, id: NodeId, s: Slot)
    ensures At(NodeTouch(w, tree, id), s) == At(w, s)
  {
    match s
    case Entry(scope, key) => LookupAfterTouch(w.store, tree, id, scope, key);
    case CounterOf(_) =>
  }

  lemma CounterAt(w: World, id: NodeId, c: int, s: Slot)
    ensures At(w.(counters := w.counters[id := c]), s) == if s == CounterOf(id) then Int(c) else At(w, s)
  {
  }

  /** `_open` changes only the node's own slots, and sets its `isOpen`. */
  lemma OpenAt(n: Node, tree: TreeId, env: Env, w: World, s: Slot)
    ensures Owner(s, tree) != Some(n.id) ==> At(Open(n, tree, env, w), s) == At(w, s)
    ensures s == IsOpenSlot(tree, n.id) ==> At(Open(n, tree, env, w), s) == Bool(true)
  {
    var w1 := NodeWrite(w, tree, n.id, "isOpen", Bool(true));
    WriteAt(w, tree, n.id, "isOpen", Bool(true), s);
    match HookOf(n.kind, env.now)
    case NoHook =>
    case ResetEntry(key, v) =>
      assert key != "isOpen" by {
        assert key in {"runningChild", "startTime", "i"};
      }
      WriteAt(w1, tree, n.id, key, v, s);
    case ResetCounter =>
      CounterAt(w1, n.id, 0, s);
  }

  /**
   * The phases before the tick change only the node's own slots, and leave
   * `isOpen` truthy; a node that is already open keeps every slot.
   */
  lemma PrepareAt(n: Node, tree: TreeId, env: Env, w: World, s: Slot)
    ensures Owner(s, tree) != Some(n.id) ==> At(Prepare(n, tree, env, w), s) == At(w, s)
    ensures s == IsOpenSlot(tree, n.id) ==> Truthy(At(Prepare(n, tree, env, w), s))
    ensures Truthy(NodeRead(w, tree, n.id, "isOpen")) ==> At(Prepare(n, tree, env, w), s) == At(w, s)
  {
    var w1 := Enter(w, n.id);
    var w2 := NodeTouch(w1, tree, n.id);
    TouchAt(w1, tree, n.id, s);
    TouchAt(w1, tree, n.id, IsOpenSlot(tree, n.id));
    if !Truthy(NodeRead(w1, tree, n.id, "isOpen")) {
      OpenAt(n, tree, env, w2, s);
    }
  }

  /**
   * A node being opened has its `open` hook's entry or counter reset when
   * the tick starts: `runningChild` 0 for the memory composites, `i` 0 for
   * the loop decorators, `startTime` now for the timed nodes, the counter 0
   * for LimiterTicks and WaitTicks. A kind without an `open` hook (among
   * them the WaitTicks of blackthorn.ts) keeps its counter.
   */
  lemma PrepareResets(n: Node, tree: TreeId, env: Env, w: World)
    requires !Truthy(NodeRead(w, tree, n.id, "isOpen"))
    ensures var r := Prepare(n, tree, env, w);
            && NodeRead(r, tree, n.id, "isOpen") == Bool(true)
            && match HookOf(n.kind, env.now)
               case NoHook => Counter(r, n.id) == Counter(w, n.id)
               case ResetEntry(key, v) => NodeRead(r, tree, n.id, key) == v
               case ResetCounter => Counter(r, n.id) == 0
  {
    var w2 := NodeTouch(Enter(w, n.id), tree, n.id);
    var w3 := NodeWrite(w2, tree, n.id, "isOpen", Bool(true));
    ReadAfterWrite(w2.store, "isOpen", Bool(true), tree, n.id);
    match HookOf(n.kind, env.now)
    case NoHook =>
    case ResetEntry(key, v) =>
      assert key != "isOpen" by {
        assert key in {"runningChild", "startTime", "i"};
      }
      ReadAfterWrite(w3.store, key, v, tree, n.id);
      WriteIsolation(w3.store, key, v, tree, n.id, "isOpen", tree, n.id);
    case ResetCounter =>
  }

  /** `_close` changes only the node's `isOpen`, to false. */
  lemma CloseAt(w: World, tree: TreeId, id: NodeId, s: Slot)
    ensures At(Close(w, tree, id), s) == if s == IsOpenSlot(tree, id) then Bool(false) else At(w, s)
  {
    WriteAt(w.(open := Pop(w.open)), tree, id, "isOpen", Bool(false), s);
  }

  /** Executing `n` keeps every slot no node it can reach owns. */
  lemma {:induction false} ExecKeeps(n: Node, tree: TreeId, env: Env, w: World, s: Slot)
    requires Bounded(n) && !OwnedBy(s, tree, n)
    ensures At(ExecSpec(n, tree, env, w).world, s) == At(w, s)
    decreases n, 5, 0
  {
    var w1 := Prepare(n, tree, env, w);
    PrepareAt(n, tree, env, w, s);
    TickKeeps(n, tree, env, w1, s);
    var t := TickSpec(n, tree, env, w1);
    if t.status != Running {
      CloseAt(t.world, tree, n.id, s);
    }
  }

  /** Ticking `n` keeps every slot outside `TickMay`. */
  lemma {:induction false} TickKeeps(n: Node, tree: TreeId, env: Env, w: World, s: Slot)
    requires Bounded(n) && !TickMay(s, tree, n)
    ensures At(TickSpec(n, tree, env, w).world, s) == At(w, s)
    decreases n, 4, 0
  {
    match n.kind
    case Composite(_) => CompositeKeeps(n, tree, env, w, s);
    case Decorator(_) => DecoratorKeeps(n, tree, env, w, s);
    case Action(a) => ActionKeeps(a, n.id, tree, env, w, s);
    case Condition(onTrue, onFalse) =>
      var branch := if n.id in env.truths then onTrue else onFalse;
      var o := Owner(s, tree);
      assert o.Some? ==> !Occurs(o.value, branch);
      TickKeeps(branch, tree, env, w, s);
  }

  /** An action changes only its own slots other than `isOpen`. */
  lemma ActionKeeps(a: ActionKind, id: NodeId, tree: TreeId, env: Env, w: World, s: Slot)
    requires Owner(s, tree) != Some(id) || s == IsOpenSlot(tree, id)
    ensures At(ActionSpec(a, id, tree, env, w).1, s) == At(w, s)
  {
    match a
    case WaitTime(_) => TouchAt(w, tree, id, s);
    case WaitTicks(duration) => CounterAt(w, id, WaitStep(Counter(w, id), duration).0, s);
    case LegacyWaitTicks(duration) => CounterAt(w, id, WaitStep(Counter(w, id), duration).0, s);
    case _ =>
  }

  lemma {:induction false} CompositeKeeps(n: Node, tree: TreeId, env: Env, w: World, s: Slot)
    requires Bounded(n) && n.kind.Composite? && !TickMay(s, tree, n)
    ensures At(CompositeSpec(n, tree, env, w).world, s) == At(w, s)
    decreases n, 3, 0
  {
    match n.kind.composite
    case Sequence => ChildrenKeeps(n, tree, env, w, 0, Success, false, s);
    case Selector => ChildrenKeeps(n, tree, env, w, 0, Failure, false, s);
    case MemSequence => ResumeKeeps(n, tree, env, w, Success, s);
    case MemSelector => ResumeKeeps(n, tree, env, w, Failure, s);
  }

  lemma {:induction false} ResumeKeeps(n: Node, tree: TreeId, env: Env, w: World, cont: Status, s: Slot)
    requires Bounded(n) && !TickMay(s, tree, n)
    ensures At(Resume(n, tree, env, w, cont).world, s) == At(w, s)
    decreases n, 2, 0
  {
    var index := NodeRead(w, tree, n.id, "runningChild");
    var w1 := NodeTouch(w, tree, n.id);
    TouchAt(w, tree, n.id, s);
    if index.Int? && index.n >= 0 {
      assert !ChildrenMay(s, tree, n, index.n);
      ChildrenKeeps(n, tree, env, w1, index.n, cont, true, s);
    }
  }

  /** The children loop keeps every slot outside `ChildrenMay`. */
  lemma {:induction false} ChildrenKeeps(n: Node, tree: TreeId, env: Env, w: World, i: nat, cont: Status, remember: bool, s: Slot)
    requires Bounded(n) && !ChildrenMay(s, tree, n, i)
    ensures At(Children(n, tree, env, w, i, cont, remember).world, s) == At(w, s)
    decreases n, 1, |n.children| - i
  {
    if i < |n.children| {
      ExecKeeps(n.children[i], tree, env, w, s);
      var c := ExecSpec(n.children[i], tree, env, w);
      if c.status != cont {
        if remember && c.status == Running {
          WriteAt(c.world, tree, n.id, "runningChild", Int(i), s);
        }
      } else {
        ChildrenKeeps(n, tree, env, c.world, i + 1, cont, remember, s);
      }
    }
  }

  lemma {:induction false} DecoratorKeeps(n: Node, tree: TreeId, env: Env, w: World, s: Slot)
    requires Bounded(n) && n.kind.Decorator? && !TickMay(s, tree, n)
    ensures At(DecoratorSpec(n, tree, env, w).world, s) == At(w, s)
    decreases n, 3, 0
  {
    var d := n.kind.decorator;
    if IsInverter(d) {
      InvertKeeps(n, tree, env, w, s);
    } else if IsLimiter(d) {
      LimitKeeps(n, tree, env, w, s);
    } else if IsRepeater(d) {
      RepeatKeeps(n, tree, env, w, s);
    } else {
      ForceKeeps(n, tree, env, w, s);
    }
  }

  lemma {:induction false} InvertKeeps(n: Node, tree: TreeId, env: Env, w: World, s: Slot)
    requires Bounded(n) && n.kind.Decorator? && IsInverter(n.kind.decorator) && !TickMay(s, tree, n)
    ensures At(InvertSpec(n, tree, env, w).world, s) == At(w, s)
    decreases n, 2, 0
  {
    if InverterArity(n.kind.decorator, |n.children|) {
      ExecKeeps(n.children[0], tree, env, w, s);
    }
  }

  lemma {:induction false} ForceKeeps(n: Node, tree: TreeId, env: Env, w: World, s: Slot)
    requires Bounded(n) && n.kind.Decorator? && !IsInverter(n.kind.decorator) && !IsLimiter(n.kind.decorator) && !IsRepeater(n.kind.decorator)
    requires !TickMay(s, tree, n)
    ensures At(ForceSpec(n, tree, env, w).world, s) == At(w, s)
    decreases n, 2, 0
  {
    if |n.children| == 1 {
      ExecKeeps(n.children[0], tree, env, w, s);
    }
  }

  lemma {:induction false} LimitKeeps(n: Node, tree: TreeId, env: Env, w: World, s: Slot)
    requires Bounded(n) && n.kind.Decorator? && IsLimiter(n.kind.decorator) && !TickMay(s, tree, n)
    ensures At(LimitSpec(n, tree, env, w).world, s) == At(w, s)
    decreases n, 2, 0
  {
    if |n.children| == 1 {
      match n.kind.decorator
      case LimiterTime(_) =>
        var w1 := NodeTouch(w, tree, n.id);
        TouchAt(w, tree, n.id, s);
        ExecKeeps(n.children[0], tree, env, w1, s);
      case LimiterTicks(maxTicks) =>
        var elapsed := Counter(w, n.id) + 1;
        if elapsed > maxTicks {
          CounterAt(w, n.id, 0, s);
        } else {
          CounterAt(w, n.id, elapsed, s);
          ExecKeeps(n.children[0], tree, env, w.(counters := w.counters[n.id := elapsed]), s);
        }
    }
  }

  lemma {:induction false} RepeatKeeps(n: Node, tree: TreeId, env: Env, w: World, s: Slot)
    requires Bounded(n) && n.kind.Decorator? && IsRepeater(n.kind.decorator) && !TickMay(s, tree, n)
    ensures At(Repeat(n, tree, env, w).world, s) == At(w, s)
    decreases n, 2, 0
  {
    if |n.children| == 1 {
      var stored := NodeRead(w, tree, n.id, "i");
      var w1 := NodeTouch(w, tree, n.id);
      var initial := if n.kind.decorator.RepeatUntilSuccess? then Failure else Success;
      TouchAt(w, tree, n.id, s);
      match NumberOf(stored)
      case None => WriteAt(w1, tree, n.id, "i", stored, s);
      case Some(i) =>
        RepeatLoopKeeps(n, tree, env, w1, i, initial, s);
        var l := RepeatLoop(n, tree, env, w1, i, initial);
        WriteAt(l.world, tree, n.id, "i", if l.i == i then stored else Int(l.i), s);
    }
  }

  lemma RepeatLoopWorld(n: Node, tree: TreeId, env: Env, w: World, i: int, status: Status)
    requires Bounded(n) && n.kind.Decorator? && IsRepeater(n.kind.decorator) && |n.children| == 1
    requires i < n.kind.decorator.maxLoop
    ensures var c := ExecSpec(n.children[0], tree, env, w);
            RepeatLoop(n, tree, env, w, i, status).world
            == if Continues(n.kind.decorator, c.status) then RepeatLoop(n, tree, env, c.world, i + 1, c.status).world else c.world
  {
  }

  lemma {:induction false} RepeatLoopKeeps(n: Node, tree: TreeId, env: Env, w: World, i: int, status: Status, s: Slot)
    requires Bounded(n) && n.kind.Decorator? && IsRepeater(n.kind.decorator) && |n.children| == 1
    requires !OwnedBy(s, tree, n.children[0])
    ensures At(RepeatLoop(n, tree, env, w, i, status).world, s) == At(w, s)
    decreases n, 1, n.kind.decorator.maxLoop - i
  {
    if i < n.kind.decorator.maxLoop {
      RepeatLoopWorld(n, tree, env, w, i, status);
      ExecKeeps(n.children[0], tree, env, w, s);
      var c := ExecSpec(n.children[0], tree, env, w);
      if Continues(n.kind.decorator, c.status) {
        RepeatLoopKeeps(n, tree, env, c.world, i + 1, c.status, s);
      }
    }
  }
}
