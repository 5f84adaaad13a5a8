/**
 * The execution protocol as functions: what one `_execute` of a node does to
 * the blackboard, the ticker (its open-node stack and node counter) and the
 * per-instance counters, for every kind in the catalogue.
 */
module Semantics {
  import opened Memory
  import opened Nodes

  /**
   * What a tick reads from outside the engine: the clock (one reading per
   * tick) and, for each Condition node, whether its predicate holds.
   */
  datatype Env = Env(now: int, truths: set<NodeId>)

  /**
   * Everything `_execute` can change: the blackboard, the ticker's
   * `openNodes` and `nodeCount`, and the counters that LimiterTicks and
   * WaitTicks keep as fields of the node object (0 until first written).
   */
  datatype World = World(store: Store, open: seq<NodeId>, count: int, counters: map<NodeId, int>)

  /**
   * The outcome of executing or ticking a node: its status and the new world,
   * with two counts about the run: how many nodes were entered, and how many
   * of those executions returned RUNNING (and so did not pop the stack).
   */
  datatype Step = Step(status: Status, world: World, entered: nat, leftOpen: nat)

  /** JavaScript's `pop`: removes the last entry, and does nothing to an empty array. */
  function Pop(s: seq<NodeId>): (r: seq<NodeId>)
    ensures s == [] ==> r == []
    ensures s != [] ==> r + [s[|s| - 1]] == s
  {
    if s == [] then [] else s[..|s| - 1]
  }

  function Counter(w: World, id: NodeId): int {
    if id in w.counters then w.counters[id] else 0
  }

  function NodeRead(w: World, tree: TreeId, id: NodeId, key: string): Value {
    Read(w.store, key, tree, id)
  }

  /** A read of node memory that creates the node's bucket. */
  function NodeTouch(w: World, tree: TreeId, id: NodeId): (r: World)
    ensures r.open == w.open && r.count == w.count && r.counters == w.counters
  {
    w.(store := Touch(w.store, tree, id))
  }

  function NodeWrite(w: World, tree: TreeId, id: NodeId, key: string, v: Value): (r: World)
    ensures r.open == w.open && r.count == w.count && r.counters == w.counters
  {
    w.(store := Write(w.store, key, v, tree, id))
  }

  /** `_enter`: count the node and push it on the ticker's stack. */
  function Enter(w: World, id: NodeId): (r: World)
    ensures r.open == w.open + [id] && r.count == w.count + 1
    ensures r.store == w.store && r.counters == w.counters
  {
    w.(open := w.open + [id], count := w.count + 1)
  }

  /**
   * What a kind's `open` hook does: nothing, write one entry of the node's
   * memory, or reset the counter kept on the node object.
   */
  datatype Hook = NoHook | ResetEntry(key: string, value: Value) | ResetCounter

  /** The `open` overrides of the catalogue. */
  function HookOf(k: Kind, now: int): Hook {
    match k
    case Composite(c) => if c.MemSequence? || c.MemSelector? then ResetEntry("runningChild", Int(0)) else NoHook
    case Decorator(d) =>
      if d.LimiterTime? then ResetEntry("startTime", Int(now))
      else if d.LimiterTicks? then ResetCounter
      else if IsRepeater(d) then ResetEntry("i", Int(0))
      else NoHook
    case Action(a) =>
      if a.WaitTime? then ResetEntry("startTime", Int(now))
      else if a.WaitTicks? then ResetCounter
      else NoHook
    case Condition(_, _) => NoHook
  }

  /** Running a node's `open` hook. */
  function OpenHook(n: Node, tree: TreeId, env: Env, w: World): (r: World)
    ensures r.open == w.open && r.count == w.count
  {
    match HookOf(n.kind, env.now)
    case NoHook => w
    case ResetEntry(key, v) => NodeWrite(w, tree, n.id, key, v)
    case ResetCounter => w.(counters := w.counters[n.id := 0])
  }

  /** `_open`: mark the node open, then run its hook. */
  function Open(n: Node, tree: TreeId, env: Env, w: World): (r: World)
    ensures r.open == w.open && r.count == w.count
  {
    OpenHook(n, tree, env, NodeWrite(w, tree, n.id, "isOpen", Bool(true)))
  }

  /** `_close`: pop the ticker's stack (whatever is on top) and mark the node closed. */
  function Close(w: World, tree: TreeId, id: NodeId): (r: World)
    ensures r.open == Pop(w.open) && r.count == w.count && r.counters == w.counters
  {
    NodeWrite(w.(open := Pop(w.open)), tree, id, "isOpen", Bool(false))
  }

  /** The phases before the tick: `_enter`, reading `isOpen`, and `_open` unless it was truthy. */
  function Prepare(n: Node, tree: TreeId, env: Env, w: World): (r: World)
  {
    var w1 := Enter(w, n.id);
    var w2 := NodeTouch(w1, tree, n.id);
    if Truthy(NodeRead(w1, tree, n.id, "isOpen")) then w2 else Open(n, tree, env, w2)
  }

  /** `BaseNode._execute`: enter, open unless already open, tick, close unless RUNNING, exit. */
  function ExecSpec(n: Node, tree: TreeId, env: Env, w: World): (r: Step)
    requires Bounded(n)
    decreases n, 5, 0
  {
    var t := TickSpec(n, tree, env, Prepare(n, tree, env, w));
    if t.status == Running then
      Step(Running, t.world, t.entered + 1, t.leftOpen + 1)
    else
      Step(t.status, Close(t.world, tree, n.id), t.entered + 1, t.leftOpen)
  }

  /** The kind-specific `tick`; a Condition ticks (without executing) the node its predicate picks. */
  function TickSpec(n: Node, tree: TreeId, env: Env, w: World): (r: Step)
    requires Bounded(n)
    decreases n, 4, 0
  {
    match n.kind
    case Composite(_) => CompositeSpec(n, tree, env, w)
    case Decorator(_) => DecoratorSpec(n, tree, env, w)
    case Action(a) =>
      var (s, w') := ActionSpec(a, n.id, tree, env, w);
      Step(s, w', 0, 0)
    case Condition(onTrue, onFalse) =>
      var branch := if n.id in env.truths then onTrue else onFalse;
      TickSpec(branch, tree, env, w)
  }

  /** Sequence and Selector run their children from the first; the memory composites resume. */
  function CompositeSpec(n: Node, tree: TreeId, env: Env, w: World): (r: Step)
    requires Bounded(n) && n.kind.Composite?
    decreases n, 3, 0
  {
    match n.kind.composite
    case Sequence => Children(n, tree, env, w, 0, Success, false)
    case Selector => Children(n, tree, env, w, 0, Failure, false)
    case MemSequence => Resume(n, tree, env, w, Success)
    case MemSelector => Resume(n, tree, env, w, Failure)
  }

  /** The decorators' `tick`, by family. */
  function DecoratorSpec(n: Node, tree: TreeId, env: Env, w: World): (r: Step)
    requires Bounded(n) && n.kind.Decorator?
    decreases n, 3, 0
  {
    var d := n.kind.decorator;
    if IsInverter(d) then InvertSpec(n, tree, env, w)
    else if IsLimiter(d) then LimitSpec(n, tree, env, w)
    else if IsRepeater(d) then Repeat(n, tree, env, w)
    else ForceSpec(n, tree, env, w)
  }

  predicate IsInverter(d: DecoratorKind) {
    d.Inverter? || d.LegacyInverter?
  }

  predicate IsLimiter(d: DecoratorKind) {
    d.LimiterTime? || d.LimiterTicks?
  }

  /**
   * The child count an Inverter accepts: exactly one in src/blackthorn.ts,
   * at least one (only the first is run) in blackthorn.ts.
   */
  predicate InverterArity(d: DecoratorKind, count: nat) {
    if d.LegacyInverter? then count > 0 else count == 1
  }

  /** Inverter: the child's run with SUCCESS and FAILURE swapped; ERROR for a wrong child count. */
  function InvertSpec(n: Node, tree: TreeId, env: Env, w: World): (r: Step)
    requires Bounded(n) && n.kind.Decorator? && IsInverter(n.kind.decorator)
    decreases n, 2, 0
  {
    if !InverterArity(n.kind.decorator, |n.children|) then Step(Error, w, 0, 0)
    else
      var c := ExecSpec(n.children[0], tree, env, w);
      c.(status := Invert(c.status))
  }

  /** The status Failer, Runner and Succeeder return whatever their child returns. */
  function Forced(d: DecoratorKind): Status {
    if d.Failer? then Failure else if d.Runner? then Running else Success
  }

  /** Failer, Runner and Succeeder: run the child once, then report the fixed status. */
  function ForceSpec(n: Node, tree: TreeId, env: Env, w: World): (r: Step)
    requires Bounded(n) && n.kind.Decorator? && !IsInverter(n.kind.decorator) && !IsLimiter(n.kind.decorator) && !IsRepeater(n.kind.decorator)
    decreases n, 2, 0
  {
    if |n.children| != 1 then Step(Error, w, 0, 0)
    else ExecSpec(n.children[0], tree, env, w).(status := Forced(n.kind.decorator))
  }

  /**
   * LimiterTime and LimiterTicks: FAILURE without executing the child once
   * the time since open exceeds `maxTime`, or once the pre-incremented tick
   * counter exceeds `maxTicks` (which also resets it); otherwise the child's run.
   */
  function LimitSpec(n: Node, tree: TreeId, env: Env, w: World): (r: Step)
    requires Bounded(n) && n.kind.Decorator? && IsLimiter(n.kind.decorator)
    decreases n, 2, 0
  {
    if |n.children| != 1 then Step(Error, w, 0, 0)
    else match n.kind.decorator
    case LimiterTime(maxTime) =>
      var started := NumberOf(NodeRead(w, tree, n.id, "startTime"));
      var w1 := NodeTouch(w, tree, n.id);
      if started.Some? && env.now - started.value > maxTime then Step(Failure, w1, 0, 0)
      else ExecSpec(n.children[0], tree, env, w1)
    case LimiterTicks(maxTicks) =>
      var elapsed := Counter(w, n.id) + 1;
      if elapsed > maxTicks then Step(Failure, w.(counters := w.counters[n.id := 0]), 0, 0)
      else ExecSpec(n.children[0], tree, env, w.(counters := w.counters[n.id := elapsed]))
  }

  /** The actions' `tick`: they read their start time or step their counter, and enter nothing. */
  function ActionSpec(a: ActionKind, id: NodeId, tree: TreeId, env: Env, w: World): (r: (Status, World))
    ensures r.1.open == w.open && r.1.count == w.count
  {
    match a
    case ErrorAction => (Error, w)
    case FailureAction => (Failure, w)
    case RunningAction => (Running, w)
    case SuccessAction => (Success, w)
    case WaitTime(duration) =>
      var started := NumberOf(NodeRead(w, tree, id, "startTime"));
      (if started.Some? && env.now - started.value >= duration then Success else Running, NodeTouch(w, tree, id))
    case WaitTicks(duration) =>
      var (elapsed, s) := WaitStep(Counter(w, id), duration);
      (s, w.(counters := w.counters[id := elapsed]))
    case LegacyWaitTicks(duration) =>
      var (elapsed, s) := WaitStep(Counter(w, id), duration);
      (s, w.(counters := w.counters[id := elapsed]))
  }

  /** WaitTicks: pre-increment the counter; SUCCESS and reset once it reaches the duration. */
  function WaitStep(elapsed: int, duration: int): (r: (int, Status))
    ensures r.1 == Success <==> elapsed + 1 >= duration
    ensures r.1 == Success || r.1 == Running
    ensures r.0 == (if r.1 == Success then 0 else elapsed + 1)
  {
    if elapsed + 1 >= duration then (0, Success) else (elapsed + 1, Running)
  }

  /**
   * The loop of Sequence and Selector (`remember` false) and of MemSequence
   * and MemSelector (`remember` true): execute the children from index `i`
   * while they return `cont`; the first other status is the result, a
   * RUNNING one recorded as `runningChild` when remembering; `cont` if none.
   */
  function Children(n: Node, tree: TreeId, env: Env, w: World, i: nat, cont: Status, remember: bool): (r: Step)
    requires Bounded(n)
    decreases n, 1, |n.children| - i
  {
    if i >= |n.children| then Step(cont, w, 0, 0)
    else
      var c := ExecSpec(n.children[i], tree, env, w);
      if c.status != cont then
        if remember && c.status == Running then c.(world := NodeWrite(c.world, tree, n.id, "runningChild", Int(i)))
        else c
      else
        var rest := Children(n, tree, env, c.world, i + 1, cont, remember);
        rest.(entered := c.entered + rest.entered, leftOpen := c.leftOpen + rest.leftOpen)
  }

  /** MemSequence and MemSelector: resume the loop at the stored `runningChild`. */
  function Resume(n: Node, tree: TreeId, env: Env, w: World, cont: Status): (r: Step)
    requires Bounded(n)
    decreases n, 2, 0
  {
    var index := NodeRead(w, tree, n.id, "runningChild");
    var w1 := NodeTouch(w, tree, n.id);
    if index.Int? && index.n >= 0 then Children(n, tree, env, w1, index.n, cont, true)
    else Step(cont, w1, 0, 0)
  }

  /** Whether a status lets a loop decorator go round again (and count the round). */
  predicate Continues(d: DecoratorKind, s: Status)
    requires IsRepeater(d)
  {
    match d
    case Repeater(_) => s == Success || s == Failure
    case RepeatUntilFailure(_) => s == Success
    case RepeatUntilSuccess(_) => s == Failure
  }

  /** The state of a loop decorator's loop: as a Step, plus the counter `i` and the rounds run. */
  datatype LoopStep = LoopStep(status: Status, world: World, entered: nat, leftOpen: nat, i: int, runs: nat)

  /** Repeater, RepeatUntilFailure and RepeatUntilSuccess with their one child. */
  function Repeat(n: Node, tree: TreeId, env: Env, w: World): (r: Step)
    requires Bounded(n) && n.kind.Decorator? && IsRepeater(n.kind.decorator)
    decreases n, 2, 0
  {
    if |n.children| != 1 then Step(Error, w, 0, 0)
    else
    var stored := NodeRead(w, tree, n.id, "i");
    var w1 := NodeTouch(w, tree, n.id);
    var initial := if n.kind.decorator.RepeatUntilSuccess? then Failure else Success;
    match NumberOf(stored)
    case None => Step(initial, NodeWrite(w1, tree, n.id, "i", stored), 0, 0)
    case Some(i) =>
      var l := RepeatLoop(n, tree, env, w1, i, initial);
      Step(l.status, NodeWrite(l.world, tree, n.id, "i", if l.i == i then stored else Int(l.i)), l.entered, l.leftOpen)
  }

  /** `while (i < maxLoop)`: execute the child; count the round if it continues, else stop. */
  function RepeatLoop(n: Node, tree: TreeId, env: Env, w: World, i: int, status: Status): (r: LoopStep)
    requires Bounded(n) && n.kind.Decorator? && IsRepeater(n.kind.decorator) && |n.children| == 1
    decreases n, 1, n.kind.decorator.maxLoop - i
  {
    if i >= n.kind.decorator.maxLoop then LoopStep(status, w, 0, 0, i, 0)
    else
      var c := ExecSpec(n.children[0], tree, env, w);
      if Continues(n.kind.decorator, c.status) then
        var rest := RepeatLoop(n, tree, env, c.world, i + 1, c.status);
        rest.(entered := c.entered + rest.entered, leftOpen := c.leftOpen + rest.leftOpen, runs := rest.runs + 1)
      else
        LoopStep(c.status, c.world, c.entered, c.leftOpen, i, 1)
  }
}
