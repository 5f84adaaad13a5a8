/**
 * The ticker's bookkeeping across one execution: the open-node stack only
 * grows above where it stood, by one entry for every execution inside that
 * returned RUNNING, and the node counter grows by the number of nodes
 * entered.
 */
module Stack {
  import opened Memory
  import opened Nodes
  import opened Semantics

  /** The stack and counter arithmetic of a run that started in `w`. */
  predicate Stacked(w: World, r: Step) {
    && w.open <= r.world.open
    && |r.world.open| == |w.open| + r.leftOpen
    && r.world.count == w.count + r.entered
    && r.leftOpen <= r.entered
  }

  function AsStep(l: LoopStep): Step {
    Step(l.status, l.world, l.entered, l.leftOpen)
  }

  /** Two runs one after the other. */
  lemma StackedThen(w: World, a: Step, b: Step)
    requires Stacked(w, a) && Stacked(a.world, b)
    ensures Stacked(w, b.(entered := a.entered + b.entered, leftOpen := a.leftOpen + b.leftOpen))
  {
  }

  /**
   * An execution enters at least its own node; when it returns RUNNING its
   * node is left on the stack, right above where the stack stood.
   */
  lemma {:induction false} ExecStack(n: Node, tree: TreeId, env: Env, w: World)
    requires Bounded(n)
    ensures var r := ExecSpec(n, tree, env, w);
            && Stacked(w, r) && r.entered >= 1
            && (r.status == Running ==> |r.world.open| > |w.open| && r.world.open[|w.open|] == n.id)
    decreases n, 5, 0
  {
    var w1 := Prepare(n, tree, env, w);
    assert w1.open == w.open + [n.id] && w1.count == w.count + 1;
    TickStack(n, tree, env, w1);
    var t := TickSpec(n, tree, env, w1);
    assert t.world.open[..|w1.open|] == w1.open;
  }

  lemma {:induction false} TickStack(n: Node, tree: TreeId, env: Env, w: World)
    requires Bounded(n)
    ensures Stacked(w, TickSpec(n, tree, env, w))
    decreases n, 4, 0
  {
    match n.kind
    case Composite(_) => CompositeStack(n, tree, env, w);
    case Decorator(_) => DecoratorStack(n, tree, env, w);
    case Action(_) =>
    case Condition(onTrue, onFalse) =>
      TickStack(if n.id in env.truths then onTrue else onFalse, tree, env, w);
  }

  lemma {:induction false} CompositeStack(n: Node, tree: TreeId, env: Env, w: World)
    requires Bounded(n) && n.kind.Composite?
    ensures Stacked(w, CompositeSpec(n, tree, env, w))
    decreases n, 3, 0
  {
    match n.kind.composite
    case Sequence => ChildrenStack(n, tree, env, w, 0, Success, false);
    case Selector => ChildrenStack(n, tree, env, w, 0, Failure, false);
    case MemSequence => ResumeStack(n, tree, env, w, Success);
    case MemSelector => ResumeStack(n, tree, env, w, Failure);
  }

  lemma {:induction false} ResumeStack(n: Node, tree: TreeId, env: Env, w: World, cont: Status)
    requires Bounded(n)
    ensures Stacked(w, Resume(n, tree, env, w, cont))
    decreases n, 2, 0
  {
    var index := NodeRead(w, tree, n.id, "runningChild");
    if index.Int? && index.n >= 0 {
      ChildrenStack(n, tree, env, NodeTouch(w, tree, n.id), index.n, cont, true);
    }
  }

  lemma {:induction false} ChildrenStack(n: Node, tree: TreeId, env: Env, w: World, i: nat, cont: Status, remember: bool)
    requires Bounded(n)
    ensures Stacked(w, Children(n, tree, env, w, i, cont, remember))
    decreases n, 1, |n.children| - i
  {
    if i < |n.children| {
      ExecStack(n.children[i], tree, env, w);
      var c := ExecSpec(n.children[i], tree, env, w);
      if c.status == cont {
        ChildrenStack(n, tree, env, c.world, i + 1, cont, remember);
        StackedThen(w, c, Children(n, tree, env, c.world, i + 1, cont, remember));
      }
    }
  }

  lemma {:induction false} DecoratorStack(n: Node, tree: TreeId, env: Env, w: World)
    requires Bounded(n) && n.kind.Decorator?
    ensures Stacked(w, DecoratorSpec(n, tree, env, w))
    decreases n, 3, 0
  {
    var d := n.kind.decorator;
    if IsInverter(d) {
      InvertStack(n, tree, env, w);
    } else if IsLimiter(d) {
      LimitStack(n, tree, env, w);
    } else if IsRepeater(d) {
      RepeatStack(n, tree, env, w);
    } else {
      ForceStack(n, tree, env, w);
    }
  }

  lemma {:induction false} InvertStack(n: Node, tree: TreeId, env: Env, w: World)
    requires Bounded(n) && n.kind.Decorator? && IsInverter(n.kind.decorator)
    ensures Stacked(w, InvertSpec(n, tree, env, w))
    decreases n, 2, 0
  {
    if InverterArity(n.kind.decorator, |n.children|) {
      ExecStack(n.children[0], tree, env, w);
    }
  }

  lemma {:induction false} ForceStack(n: Node, tree: TreeId, env: Env, w: World)
    requires Bounded(n) && n.kind.Decorator? && !IsInverter(n.kind.decorator) && !IsLimiter(n.kind.decorator) && !IsRepeater(n.kind.decorator)
    ensures Stacked(w, ForceSpec(n, tree, env, w))
    decreases n, 2, 0
  {
    if |n.children| == 1 {
      ExecStack(n.children[0], tree, env, w);
    }
  }

  lemma {:induction false} LimitStack(n: Node, tree: TreeId, env: Env, w: World)
    requires Bounded(n) && n.kind.Decorator? && IsLimiter(n.kind.decorator)
    ensures Stacked(w, LimitSpec(n, tree, env, w))
    decreases n, 2, 0
  {
    if |n.children| == 1 {
      match n.kind.decorator
      case LimiterTime(_) => ExecStack(n.children[0], tree, env, NodeTouch(w, tree, n.id));
      case LimiterTicks(maxTicks) =>
        var elapsed := Counter(w, n.id) + 1;
        if elapsed <= maxTicks {
          ExecStack(n.children[0], tree, env, w.(counters := w.counters[n.id := elapsed]));
        }
    }
  }

  lemma {:induction false} RepeatStack(n: Node, tree: TreeId, env: Env, w: World)
    requires Bounded(n) && n.kind.Decorator? && IsRepeater(n.kind.decorator)
    ensures Stacked(w, Repeat(n, tree, env, w))
    decreases n, 2, 0
  {
    if |n.children| == 1 {
      var initial := if n.kind.decorator.RepeatUntilSuccess? then Failure else Success;
      match NumberOf(NodeRead(w, tree, n.id, "i"))
      case None =>
      case Some(i) => RepeatLoopStack(n, tree, env, NodeTouch(w, tree, n.id), i, initial);
    }
  }

  lemma {:induction false} RepeatLoopStack(n: Node, tree: TreeId, env: Env, w: World, i: int, status: Status)
    requires Bounded(n) && n.kind.Decorator? && IsRepeater(n.kind.decorator) && |n.children| == 1
    ensures Stacked(w, AsStep(RepeatLoop(n, tree, env, w, i, status)))
    decreases n, 1, n.kind.decorator.maxLoop - i
  {
    if i < n.kind.decorator.maxLoop {
      ExecStack(n.children[0], tree, env, w);
      var c := ExecSpec(n.children[0], tree, env, w);
      if Continues(n.kind.decorator, c.status) {
        RepeatLoopStack(n, tree, env, c.world, i + 1, c.status);
        StackedThen(w, c, AsStep(RepeatLoop(n, tree, env, c.world, i + 1, c.status)));
      }
    }
  }

  /** An execution in which nothing returned RUNNING leaves the stack as it found it. */
  lemma ExecRestoresStack(n: Node, tree: TreeId, env: Env, w: World)
    requires Bounded(n)
    ensures var r := ExecSpec(n, tree, env, w);
            r.leftOpen == 0 ==> r.world.open == w.open && r.status != Running
  {
    ExecStack(n, tree, env, w);
  }
}
