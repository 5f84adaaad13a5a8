/**
 * Statuses and the node catalogue of both versions of the engine. A node is
 * a value with a stable identifier, a kind (with the kind's parameters) and
 * an ordered sequence of children; JavaScript object identity is stood for
 * by the identifier.
 */
module Nodes {
  import opened Memory

  datatype Status = Failure | Success | Running | Error

  /** The composites: they run their children in order. */
  datatype CompositeKind = Sequence | Selector | MemSequence | MemSelector

  /**
   * The decorators of src/blackthorn.ts (ERROR unless exactly one child), and
   * the Inverter of blackthorn.ts, which is ERROR only when there is no first child.
   */
  datatype DecoratorKind =
    | Inverter
    | LimiterTime(maxTime: int)
    | LimiterTicks(maxTicks: int)
    | Repeater(maxLoop: int)
    | RepeatUntilFailure(maxLoop: int)
    | RepeatUntilSuccess(maxLoop: int)
    | Failer
    | Runner
    | Succeeder
    | LegacyInverter

  /**
   * The actions (leaves): the constant ones (also the Error, Failer, Runner and
   * Succeeder leaves of blackthorn.ts) and the waiting ones; the WaitTicks of
   * blackthorn.ts does not reset its counter on open.
   */
  datatype ActionKind =
    | ErrorAction
    | FailureAction
    | RunningAction
    | SuccessAction
    | WaitTime(duration: int)
    | WaitTicks(duration: int)
    | LegacyWaitTicks(duration: int)

  /** A node's class; a Condition's predicate outcome for a tick is an input (see `Semantics.Env`). */
  datatype Kind =
    | Composite(composite: CompositeKind)
    | Decorator(decorator: DecoratorKind)
    | Action(action: ActionKind)
    | Condition(onTrue: Node, onFalse: Node)

  datatype Node = Node(id: NodeId, kind: Kind, children: seq<Node>)

  /** The Inverter's status swap. */
  function Invert(s: Status): (r: Status)
    ensures s == Success <==> r == Failure
    ensures s == Failure <==> r == Success
    ensures s == Running <==> r == Running
    ensures s == Error <==> r == Error
  {
    match s
    case Success => Failure
    case Failure => Success
    case _ => s
  }

  predicate IsRepeater(d: DecoratorKind) {
    d.Repeater? || d.RepeatUntilFailure? || d.RepeatUntilSuccess?
  }

  /**
   * Every loop decorator with one child has a bound: with `maxLoop < 0` the
   * source's loop only ends when the child stops returning a status that
   * continues it, which nothing guarantees.
   */
  predicate Bounded(n: Node)
    decreases n
  {
    && (n.kind.Decorator? && IsRepeater(n.kind.decorator) && |n.children| == 1 ==> n.kind.decorator.maxLoop >= 0)
    && (forall i | 0 <= i < |n.children| :: Bounded(n.children[i]))
    && (n.kind.Condition? ==> Bounded(n.kind.onTrue) && Bounded(n.kind.onFalse))
  }

  /** The nodes that executing `n` can reach: its children and a Condition's two nodes. */
  predicate OccursBelow(id: NodeId, n: Node)
    decreases n, 0
  {
    || (exists i | 0 <= i < |n.children| :: Occurs(id, n.children[i]))
    || (n.kind.Condition? && (Occurs(id, n.kind.onTrue) || Occurs(id, n.kind.onFalse)))
  }

  predicate Occurs(id: NodeId, n: Node)
    decreases n, 1
  {
    id == n.id || OccursBelow(id, n)
  }

  /** The kinds that the earlier variant, blackthorn.ts, defines. */
  predicate LegacyKind(k: Kind) {
    match k
    case Composite(_) => true
    case Decorator(d) => d.LegacyInverter?
    case Action(a) => !a.WaitTicks?
    case Condition(_, _) => false
  }

  /** A tree built only from the earlier variant's catalogue. */
  predicate LegacyTree(n: Node)
    decreases n
  {
    LegacyKind(n.kind) && forall i | 0 <= i < |n.children| :: LegacyTree(n.children[i])
  }
}
