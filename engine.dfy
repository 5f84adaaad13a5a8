/**
 * The engine as the source runs it: a ticker object whose stack and counter
 * are updated in place, the blackboard object, and the counters kept on the
 * node objects; `_execute` and every kind's `tick` as methods, each proved
 * to leave exactly the state its function in `Semantics` describes.
 */
module Engine {
  import opened Memory
  import opened Nodes
  import opened Semantics

  /** The per-tick record: the tree it runs, the blackboard, the open-node stack and the node counter. */
  class Ticker {
    const tree: TreeId
    const blackboard: Blackboard
    var openNodes: seq<NodeId>
    var nodeCount: int

    constructor (blackboard: Blackboard, tree: TreeId)
      ensures this.blackboard == blackboard && this.tree == tree
      ensures openNodes == [] && nodeCount == 0
    {
      this.blackboard := blackboard;
      this.tree := tree;
      openNodes := [];
      nodeCount := 0;
    }

    /** `enterNode`: count the node and push it. */
    method EnterNode(id: NodeId)
      modifies this
      ensures openNodes == old(openNodes) + [id] && nodeCount == old(nodeCount) + 1
    {
      nodeCount := nodeCount + 1;
      openNodes := openNodes + [id];
    }

    /** `closeNode`: pop the last entry, whichever node is closing; nothing happens on an empty stack. */
    method CloseNode()
      modifies this
      ensures openNodes == Pop(old(openNodes)) && nodeCount == old(nodeCount)
    {
      if openNodes != [] {
        openNodes := openNodes[..|openNodes| - 1];
      }
    }
  }

  /**
   * The fields that LimiterTicks (`elapsedTicks`) and WaitTicks (`elapsedTicks`,
   * and `elapsedTime` in the earlier variant) keep on the node objects, by node.
   * A node's counter starts at 0, which is what an absent entry stands for.
   */
  class Instances {
    var counters: map<NodeId, int>

    constructor ()
      ensures counters == map[]
    {
      counters := map[];
    }
  }

  /** The state the engine's functions describe. */
  function WorldOf(t: Ticker, inst: Instances): World
    reads t, t.blackboard, inst
  {
    World(t.blackboard.Model(), t.openNodes, t.nodeCount, inst.counters)
  }

  /** `BaseNode._execute`. */
  method Execute(n: Node, t: Ticker, inst: Instances, env: Env) returns (status: Status)
    requires Bounded(n)
    modifies t, t.blackboard, inst
    ensures var r := ExecSpec(n, t.tree, env, old(WorldOf(t, inst)));
            status == r.status && WorldOf(t, inst) == r.world
    decreases n, 5, 0
  {
    PreparePhase(n, t, inst, env);
    status := TickPhase(n, t, inst, env);
    if status != Running {
      ClosePhase(n.id, t, inst);
    }
  }

  /** `_enter`, the `isOpen` read and `_open` when it was not truthy. */
  method PreparePhase(n: Node, t: Ticker, inst: Instances, env: Env)
    modifies t, t.blackboard, inst
    ensures WorldOf(t, inst) == Prepare(n, t.tree, env, old(WorldOf(t, inst)))
  {
    t.EnterNode(n.id);
    var isOpen := t.blackboard.Get("isOpen", t.tree, n.id);
    if !Truthy(isOpen) {
      OpenPhase(n, t, inst, env);
    }
  }

  /** `_open`: set `isOpen`, then the kind's `open` hook. */
  method OpenPhase(n: Node, t: Ticker, inst: Instances, env: Env)
    modifies t.blackboard, inst
    ensures WorldOf(t, inst) == Open(n, t.tree, env, old(WorldOf(t, inst)))
  {
    t.blackboard.Set("isOpen", Bool(true), t.tree, n.id);
    match HookOf(n.kind, env.now)
    case NoHook =>
    case ResetEntry(key, v) => t.blackboard.Set(key, v, t.tree, n.id);
    case ResetCounter => inst.counters := inst.counters[n.id := 0];
  }

  /** `_close`: pop the ticker's stack and clear `isOpen` of node `id`. */
  method ClosePhase(id: NodeId, t: Ticker, inst: Instances)
    modifies t, t.blackboard
    ensures WorldOf(t, inst) == Close(old(WorldOf(t, inst)), t.tree, id)
  {
    t.CloseNode();
    t.blackboard.Set("isOpen", Bool(false), t.tree, id);
  }

  /** The kind's `tick`; a Condition calls the picked node's `tick`, not its `_execute`. */
  method TickPhase(n: Node, t: Ticker, inst: Instances, env: Env) returns (status: Status)
    requires Bounded(n)
    modifies t, t.blackboard, inst
    ensures var r := TickSpec(n, t.tree, env, old(WorldOf(t, inst)));
            status == r.status && WorldOf(t, inst) == r.world
    decreases n, 4, 0
  {
    match n.kind
    case Composite(_) => status := TickComposite(n, t, inst, env);
    case Decorator(_) => status := TickDecorator(n, t, inst, env);
    case Action(a) => status := TickAction(a, n.id, t, inst, env);
    case Condition(onTrue, onFalse) =>
      if n.id in env.truths {
        status := TickPhase(onTrue, t, inst, env);
      } else {
        status := TickPhase(onFalse, t, inst, env);
      }
  }

  method TickComposite(n: Node, t: Ticker, inst: Instances, env: Env) returns (status: Status)
    requires Bounded(n) && n.kind.Composite?
    modifies t, t.blackboard, inst
    ensures var r := CompositeSpec(n, t.tree, env, old(WorldOf(t, inst)));
            status == r.status && WorldOf(t, inst) == r.world
    decreases n, 3, 0
  {
    match n.kind.composite
    case Sequence => status := RunChildren(n, t, inst, env, 0, Success, false);
    case Selector => status := RunChildren(n, t, inst, env, 0, Failure, false);
    case MemSequence => status := ResumeChildren(n, t, inst, env, Success);
    case MemSelector => status := ResumeChildren(n, t, inst, env, Failure);
  }

  method TickDecorator(n: Node, t: Ticker, inst: Instances, env: Env) returns (status: Status)
    requires Bounded(n) && n.kind.Decorator?
    modifies t, t.blackboard, inst
    ensures var r := DecoratorSpec(n, t.tree, env, old(WorldOf(t, inst)));
            status == r.status && WorldOf(t, inst) == r.world
    decreases n, 3, 0
  {
    var d := n.kind.decorator;
    if IsInverter(d) {
      status := TickInvert(n, t, inst, env);
    } else if IsLimiter(d) {
      status := TickLimit(n, t, inst, env);
    } else if IsRepeater(d) {
      status := RepeatChild(n, t, inst, env);
    } else {
      status := TickForce(n, t, inst, env);
    }
  }

  /** Inverter (both variants). */
  method TickInvert(n: Node, t: Ticker, inst: Instances, env: Env) returns (status: Status)
    requires Bounded(n) && n.kind.Decorator? && IsInverter(n.kind.decorator)
    modifies t, t.blackboard, inst
    ensures var r := InvertSpec(n, t.tree, env, old(WorldOf(t, inst)));
            status == r.status && WorldOf(t, inst) == r.world
    decreases n, 2, 0
  {
    if !InverterArity(n.kind.decorator, |n.children|) {
      return Error;
    }
    status := Execute(n.children[0], t, inst, env);
    status := Invert(status);
  }

  /** Failer, Runner and Succeeder. */
  method TickForce(n: Node, t: Ticker, inst: Instances, env: Env) returns (status: Status)
    requires Bounded(n) && n.kind.Decorator? && !IsInverter(n.kind.decorator) && !IsLimiter(n.kind.decorator) && !IsRepeater(n.kind.decorator)
    modifies t, t.blackboard, inst
    ensures var r := ForceSpec(n, t.tree, env, old(WorldOf(t, inst)));
            status == r.status && WorldOf(t, inst) == r.world
    decreases n, 2, 0
  {
    if |n.children| != 1 {
      return Error;
    }
    var _ := Execute(n.children[0], t, inst, env);
    status := Forced(n.kind.decorator);
  }

  /** LimiterTime and LimiterTicks. */
  method TickLimit(n: Node, t: Ticker, inst: Instances, env: Env) returns (status: Status)
    requires Bounded(n) && n.kind.Decorator? && IsLimiter(n.kind.decorator)
    modifies t, t.blackboard, inst
    ensures var r := LimitSpec(n, t.tree, env, old(WorldOf(t, inst)));
            status == r.status && WorldOf(t, inst) == r.world
    decreases n, 2, 0
  {
    if |n.children| != 1 {
      return Error;
    }
    match n.kind.decorator
    case LimiterTime(maxTime) =>
      var startTime := t.blackboard.Get("startTime", t.tree, n.id);
      var started := NumberOf(startTime);
      if started.Some? && env.now - started.value > maxTime {
        status := Failure;
      } else {
        status := Execute(n.children[0], t, inst, env);
      }
    case LimiterTicks(maxTicks) =>
      var elapsed := Counter(WorldOf(t, inst), n.id) + 1;
      inst.counters := inst.counters[n.id := elapsed];
      if elapsed > maxTicks {
        inst.counters := inst.counters[n.id := 0];
        status := Failure;
      } else {
        status := Execute(n.children[0], t, inst, env);
      }
  }

  /** The actions' `tick`. */
  method TickAction(a: ActionKind, id: NodeId, t: Ticker, inst: Instances, env: Env) returns (status: Status)
    modifies t.blackboard, inst
    ensures (status, WorldOf(t, inst)) == ActionSpec(a, id, t.tree, env, old(WorldOf(t, inst)))
  {
    match a
    case ErrorAction => status := Error;
    case FailureAction => status := Failure;
    case RunningAction => status := Running;
    case SuccessAction => status := Success;
    case WaitTime(duration) =>
      var startTime := t.blackboard.Get("startTime", t.tree, id);
      var started := NumberOf(startTime);
      status := if started.Some? && env.now - started.value >= duration then Success else Running;
    case WaitTicks(duration) =>
      status := StepCounter(id, inst, duration);
    case LegacyWaitTicks(duration) =>
      status := StepCounter(id, inst, duration);
  }

  /** `if (++elapsed >= duration) { elapsed = 0; SUCCESS } else RUNNING` on node `id`'s counter. */
  method StepCounter(id: NodeId, inst: Instances, duration: int) returns (status: Status)
    modifies inst
    ensures var elapsed := if id in old(inst.counters) then old(inst.counters[id]) else 0;
            inst.counters == old(inst.counters)[id := WaitStep(elapsed, duration).0]
            && status == WaitStep(elapsed, duration).1
  {
    var elapsed := if id in inst.counters then inst.counters[id] else 0;
    elapsed := elapsed + 1;
    inst.counters := inst.counters[id := elapsed];
    if elapsed >= duration {
      inst.counters := inst.counters[id := 0];
      status := Success;
    } else {
      status := Running;
    }
  }

  /** The `for` loop of the four composites, from child `from` on. */
  method RunChildren(n: Node, t: Ticker, inst: Instances, env: Env, from: nat, cont: Status, remember: bool)
    returns (status: Status)
    requires Bounded(n)
    modifies t, t.blackboard, inst
    ensures var r := Children(n, t.tree, env, old(WorldOf(t, inst)), from, cont, remember);
            status == r.status && WorldOf(t, inst) == r.world
    decreases n, 1, 0
  {
    ghost var w := WorldOf(t, inst);
    ghost var goal := Children(n, t.tree, env, w, from, cont, remember);
    status := cont;
    var i := from;
    while i < |n.children| && status == cont
      invariant WorldOf(t, inst) == w
      invariant status == cont ==> OnTrack(n, t.tree, env, w, i, cont, remember, goal)
      invariant status != cont ==> status == goal.status && w == goal.world
      decreases |n.children| - i
    {
      status, w := ChildTurn(n, t, inst, env, i, cont, remember, w, goal);
      i := i + 1;
    }
    if status == cont {
      OffTheEnd(n, t.tree, env, w, i, cont, remember, goal);
    }
  }

  /** Past the last child the loop ends with `cont` in the world it has. */
  lemma OffTheEnd(n: Node, tree: TreeId, env: Env, w: World, i: nat, cont: Status, remember: bool, goal: Step)
    requires Bounded(n) && i >= |n.children| && OnTrack(n, tree, env, w, i, cont, remember, goal)
    ensures goal.status == cont && goal.world == w
  {
  }

  /** The loop from child `i` on, in world `w`, ends as `goal` does. */
  ghost predicate OnTrack(n: Node, tree: TreeId, env: Env, w: World, i: nat, cont: Status, remember: bool, goal: Step)
    requires Bounded(n)
  {
    var r := Children(n, tree, env, w, i, cont, remember);
    r.status == goal.status && r.world == goal.world
  }

  method ChildTurn(n: Node, t: Ticker, inst: Instances, env: Env, i: nat, cont: Status, remember: bool,
                   ghost w: World, ghost goal: Step)
    returns (status: Status, ghost w': World)
    requires Bounded(n) && i < |n.children|
    requires WorldOf(t, inst) == w && OnTrack(n, t.tree, env, w, i, cont, remember, goal)
    modifies t, t.blackboard, inst
    ensures WorldOf(t, inst) == w'
    ensures status != cont ==> status == goal.status && w' == goal.world
    ensures status == cont ==> OnTrack(n, t.tree, env, w', i + 1, cont, remember, goal)
    decreases n, 0, 0
  {
    status := Execute(n.children[i], t, inst, env);
    if status != cont && remember && status == Running {
      t.blackboard.Set("runningChild", Int(i), t.tree, n.id);
    }
    w' := WorldOf(t, inst);
  }

  /** MemSequence and MemSelector: read `runningChild` and run the loop from there. */
  method ResumeChildren(n: Node, t: Ticker, inst: Instances, env: Env, cont: Status) returns (status: Status)
    requires Bounded(n)
    modifies t, t.blackboard, inst
    ensures var r := Resume(n, t.tree, env, old(WorldOf(t, inst)), cont);
            status == r.status && WorldOf(t, inst) == r.world
    decreases n, 2, 0
  {
    var childIndex := t.blackboard.Get("runningChild", t.tree, n.id);
    if childIndex.Int? && childIndex.n >= 0 {
      status := RunChildren(n, t, inst, env, childIndex.n, cont, true);
    } else {
      status := cont;
    }
  }

  /** Repeater, RepeatUntilFailure and RepeatUntilSuccess: the `while` loop and the store of `i`. */
  method RepeatChild(n: Node, t: Ticker, inst: Instances, env: Env) returns (status: Status)
    requires Bounded(n) && n.kind.Decorator? && IsRepeater(n.kind.decorator)
    modifies t, t.blackboard, inst
    ensures var r := Repeat(n, t.tree, env, old(WorldOf(t, inst)));
            status == r.status && WorldOf(t, inst) == r.world
    decreases n, 2, 0
  {
    if |n.children| != 1 {
      return Error;
    }
    var stored := t.blackboard.Get("i", t.tree, n.id);
    status := if n.kind.decorator.RepeatUntilSuccess? then Failure else Success;
    match NumberOf(stored)
    case None =>
      t.blackboard.Set("i", stored, t.tree, n.id);
    case Some(i0) =>
      var i;
      status, i := RunRepeat(n, t, inst, env, i0, status);
      t.blackboard.Set("i", if i == i0 then stored else Int(i), t.tree, n.id);
  }

  method RunRepeat(n: Node, t: Ticker, inst: Instances, env: Env, from: int, initial: Status)
    returns (status: Status, i: int)
    requires Bounded(n) && n.kind.Decorator? && IsRepeater(n.kind.decorator) && |n.children| == 1
    modifies t, t.blackboard, inst
    ensures var l := RepeatLoop(n, t.tree, env, old(WorldOf(t, inst)), from, initial);
            status == l.status && WorldOf(t, inst) == l.world && i == l.i
    decreases n, 1, 0
  {
    ghost var w := WorldOf(t, inst);
    ghost var goal := RepeatLoop(n, t.tree, env, w, from, initial);
    status, i := initial, from;
    var more := true;
    while more && i < n.kind.decorator.maxLoop
      invariant WorldOf(t, inst) == w
      invariant more ==> Looping(n, t.tree, env, w, i, status, goal)
      invariant !more ==> status == goal.status && w == goal.world && i == goal.i
      decreases more, n.kind.decorator.maxLoop - i
    {
      status, more, w := RepeatTurn(n, t, inst, env, i, status, w, goal);
      if more {
        i := i + 1;
      }
    }
  }

  /** The loop from round `i` on, after status `last`, in world `w`, ends as `goal` does. */
  ghost predicate Looping(n: Node, tree: TreeId, env: Env, w: World, i: int, last: Status, goal: LoopStep)
    requires Bounded(n) && n.kind.Decorator? && IsRepeater(n.kind.decorator) && |n.children| == 1
  {
    var l := RepeatLoop(n, tree, env, w, i, last);
    l.status == goal.status && l.world == goal.world && l.i == goal.i
  }

  method RepeatTurn(n: Node, t: Ticker, inst: Instances, env: Env, i: int, last: Status,
                    ghost w: World, ghost goal: LoopStep)
    returns (status: Status, more: bool, ghost w': World)
    requires Bounded(n) && n.kind.Decorator? && IsRepeater(n.kind.decorator) && |n.children| == 1
    requires i < n.kind.decorator.maxLoop
    requires WorldOf(t, inst) == w && Looping(n, t.tree, env, w, i, last, goal)
    modifies t, t.blackboard, inst
    ensures WorldOf(t, inst) == w' && more == Continues(n.kind.decorator, status)
    ensures more ==> Looping(n, t.tree, env, w', i + 1, status, goal)
    ensures !more ==> status == goal.status && w' == goal.world && i == goal.i
    decreases n, 0, 0
  {
    status := Execute(n.children[0], t, inst, env);
    more := Continues(n.kind.decorator, status);
    w' := WorldOf(t, inst);
  }
}
