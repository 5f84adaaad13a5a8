/**
 * What the execution protocol promises about a node, stated against the
 * functions of `Semantics`: the `isOpen` flag tracks RUNNING, decorators
 * with the wrong number of children fail with ERROR without running
 * anything, the composites stop at the first child that does not return
 * their continue status, and the loop decorators stop within their bound.
 */
module Protocol {
  import opened Memory
  import opened Nodes
  import opened Semantics
  import opened Frames
  import opened Stack
  import opened Ticks

  /**
   * After an execution, a node is marked open exactly when it returned
   * RUNNING (when it does not also occur below itself, whose execution
   * could set the flag again).
   */
  lemma OpenFlagTracksRunning(n: Node, tree: TreeId, env: Env, w: World)
    requires Bounded(n) && !OccursBelow(n.id, n)
    ensures var r := ExecSpec(n, tree, env, w);
            && (r.status == Running ==> Truthy(NodeRead(r.world, tree, n.id, "isOpen")))
            && (r.status != Running ==> NodeRead(r.world, tree, n.id, "isOpen") == Bool(false))
  {
    var s := IsOpenSlot(tree, n.id);
    var w1 := Prepare(n, tree, env, w);
    PrepareAt(n, tree, env, w, s);
    TickKeeps(n, tree, env, w1, s);
    var t := TickSpec(n, tree, env, w1);
    if t.status != Running {
      CloseAt(t.world, tree, n.id, s);
    }
  }

  /**
   * The decorators of src/blackthorn.ts return ERROR unless they have
   * exactly one child, and the Inverter of blackthorn.ts when it has none;
   * the tick then changes nothing and enters no node.
   */
  lemma DecoratorArityError(n: Node, tree: TreeId, env: Env, w: World)
    requires Bounded(n) && n.kind.Decorator?
    requires if n.kind.decorator.LegacyInverter? then |n.children| == 0 else |n.children| != 1
    ensures TickSpec(n, tree, env, w) == Step(Error, w, 0, 0)
  {
    assert TickSpec(n, tree, env, w) == DecoratorSpec(n, tree, env, w);
  }

  /**
   * Failer, Runner and Succeeder execute their child once and report their
   * fixed status whatever the child returns; everything else is the child's run.
   */
  lemma ForcedStatus(n: Node, tree: TreeId, env: Env, w: World)
    requires Bounded(n) && n.kind.Decorator? && |n.children| == 1
    requires n.kind.decorator.Failer? || n.kind.decorator.Runner? || n.kind.decorator.Succeeder?
    ensures var r := TickSpec(n, tree, env, w);
            var c := ExecSpec(n.children[0], tree, env, w);
            && r.status == (if n.kind.decorator.Failer? then Failure else if n.kind.decorator.Runner? then Running else Success)
            && r.world == c.world && r.entered == c.entered && r.leftOpen == c.leftOpen
            && r.entered >= 1
  {
    assert TickSpec(n, tree, env, w) == ForceSpec(n, tree, env, w);
    ExecStack(n.children[0], tree, env, w);
  }

  /**
   * An Inverter with an acceptable child count executes its first child
   * and returns that execution's status with SUCCESS and FAILURE swapped.
   */
  lemma InverterSwaps(n: Node, tree: TreeId, env: Env, w: World)
    requires Bounded(n) && n.kind.Decorator? && IsInverter(n.kind.decorator)
    requires InverterArity(n.kind.decorator, |n.children|)
    ensures var r := TickSpec(n, tree, env, w);
            var c := ExecSpec(n.children[0], tree, env, w);
            && Invert(r.status) == c.status && r.world == c.world && r.entered == c.entered
  {
    assert TickSpec(n, tree, env, w) == InvertSpec(n, tree, env, w);
  }

  /**
   * The constant leaves enter only themselves, return their status on
   * every tick and leave the ticker's stack as they found it unless they
   * are RUNNING.
   */
  lemma ConstantLeaf(n: Node, tree: TreeId, env: Env, w: World)
    requires Bounded(n) && n.kind.Action? && (n.kind.action.ErrorAction? || n.kind.action.FailureAction? || n.kind.action.RunningAction? || n.kind.action.SuccessAction?)
    ensures var r := ExecSpec(n, tree, env, w);
            var a := n.kind.action;
            && r.status == (if a.ErrorAction? then Error else if a.FailureAction? then Failure else if a.RunningAction? then Running else Success)
            && r.entered == 1 && r.world.count == w.count + 1
            && r.world.open == (if a.RunningAction? then w.open + [n.id] else w.open)
  {
    var w1 := Prepare(n, tree, env, w);
    assert w1.open == w.open + [n.id];
  }

  /**
   * MemSequence and MemSelector resume their children loop at the stored
   * `runningChild` when they are still open from an earlier tick, and at
   * the first child when they are being opened (the open hook resets the
   * index to 0); an unusable stored index runs no child.
   */
  lemma MemResume(n: Node, tree: TreeId, env: Env, w: World)
    requires Bounded(n) && (n.kind == Composite(MemSequence) || n.kind == Composite(MemSelector))
    ensures var index := if Truthy(NodeRead(w, tree, n.id, "isOpen")) then NodeRead(w, tree, n.id, "runningChild") else Int(0);
            var cont := if n.kind == Composite(MemSequence) then Success else Failure;
            var w1 := NodeTouch(Prepare(n, tree, env, w), tree, n.id);
            var t := TickSpec(n, tree, env, Prepare(n, tree, env, w));
            && ExecSpec(n, tree, env, w).status == t.status
            && (index.Int? && index.n >= 0 ==> t == Children(n, tree, env, w1, index.n, cont, true))
            && (!(index.Int? && index.n >= 0) ==> t == Step(cont, w1, 0, 0))
  {
    var slot := RunningChildSlot(tree, n.id);
    PrepareAt(n, tree, env, w, slot);
    if !Truthy(NodeRead(w, tree, n.id, "isOpen")) {
      PrepareResets(n, tree, env, w);
    }
    var w0 := Prepare(n, tree, env, w);
    var index := if Truthy(NodeRead(w, tree, n.id, "isOpen")) then NodeRead(w, tree, n.id, "runningChild") else Int(0);
    assert NodeRead(w0, tree, n.id, "runningChild") == index;
    var cont := if n.kind == Composite(MemSequence) then Success else Failure;
    assert TickSpec(n, tree, env, w0) == Resume(n, tree, env, w0, cont);
  }

  /**
   * A loop decorator counts its rounds on from the stored `i` while it is
   * still open from an earlier tick, and from 0 when it is being opened,
   * and stores the count it reached back in `i` for the next tick; a stored
   * `i` that is not a number is written back unchanged.
   */
  lemma RepeatResume(n: Node, tree: TreeId, env: Env, w: World)
    requires Bounded(n) && n.kind.Decorator? && IsRepeater(n.kind.decorator) && |n.children| == 1
    ensures var start := if Truthy(NodeRead(w, tree, n.id, "isOpen")) then NumberOf(NodeRead(w, tree, n.id, "i")) else Some(0);
            var initial := if n.kind.decorator.RepeatUntilSuccess? then Failure else Success;
            var w0 := Prepare(n, tree, env, w);
            var t := TickSpec(n, tree, env, w0);
            && (start.Some? ==>
                  var l := RepeatLoop(n, tree, env, NodeTouch(w0, tree, n.id), start.value, initial);
                  && t.status == l.status
                  && NumberOf(NodeRead(t.world, tree, n.id, "i")) == Some(l.i))
            && (start.None? ==> t.status == initial && t.entered == 0
                                && NodeRead(t.world, tree, n.id, "i") == NodeRead(w0, tree, n.id, "i"))
  {
    var slot := Entry(NodeScope(tree, n.id), "i");
    PrepareAt(n, tree, env, w, slot);
    if !Truthy(NodeRead(w, tree, n.id, "isOpen")) {
      PrepareResets(n, tree, env, w);
    }
    var w0 := Prepare(n, tree, env, w);
    assert TickSpec(n, tree, env, w0) == Repeat(n, tree, env, w0);
    var stored := NodeRead(w0, tree, n.id, "i");
    var w1 := NodeTouch(w0, tree, n.id);
    var initial := if n.kind.decorator.RepeatUntilSuccess? then Failure else Success;
    match NumberOf(stored)
    case None =>
      ReadAfterWrite(w1.store, "i", stored, tree, n.id);
    case Some(i) =>
      var l := RepeatLoop(n, tree, env, w1, i, initial);
      ReadAfterWrite(l.world.store, "i", if l.i == i then stored else Int(l.i), tree, n.id);
  }

  /**
   * One tick of WaitTicks is one `WaitStep` of its counter, from 0 when
   * the node is being opened and from the stored counter while it is still
   * open; the WaitTicks of blackthorn.ts steps on from its counter either way.
   */
  lemma WaitTicksStep(n: Node, tree: TreeId, env: Env, w: World)
    requires Bounded(n) && n.kind.Action? && (n.kind.action.WaitTicks? || n.kind.action.LegacyWaitTicks?)
    ensures var start := if Truthy(NodeRead(w, tree, n.id, "isOpen")) || n.kind.action.LegacyWaitTicks? then Counter(w, n.id) else 0;
            var step := WaitStep(start, n.kind.action.duration);
            var r := ExecSpec(n, tree, env, w);
            && r.status == step.1
            && Counter(r.world, n.id) == step.0
  {
    PrepareAt(n, tree, env, w, CounterOf(n.id));
    if !Truthy(NodeRead(w, tree, n.id, "isOpen")) {
      PrepareResets(n, tree, env, w);
    }
  }

  /**
   * A loop decorator whose stored counter is not a number, or has reached
   * `maxLoop`, does not execute its child and returns SUCCESS (FAILURE for
   * RepeatUntilSuccess).
   */
  lemma RepeatIdle(n: Node, tree: TreeId, env: Env, w: World)
    requires Bounded(n) && n.kind.Decorator? && IsRepeater(n.kind.decorator) && |n.children| == 1
    requires var i := NumberOf(NodeRead(w, tree, n.id, "i")); i.None? || i.value >= n.kind.decorator.maxLoop
    ensures var r := TickSpec(n, tree, env, w);
            && r.status == (if n.kind.decorator.RepeatUntilSuccess? then Failure else Success)
            && r.entered == 0 && r.world.open == w.open
  {
    assert TickSpec(n, tree, env, w) == Repeat(n, tree, env, w);
    var initial := if n.kind.decorator.RepeatUntilSuccess? then Failure else Success;
    var i := NumberOf(NodeRead(w, tree, n.id, "i"));
    if i.Some? {
      RepeatLoopBounds(n, tree, env, NodeTouch(w, tree, n.id), i.value, initial);
    }
  }

  /** The world in which child `j` of `n` runs when the loop started at child `i` in `w`. */
  ghost function Before(n: Node, tree: TreeId, env: Env, w: World, i: nat, j: nat): World
    requires Bounded(n) && i <= j <= |n.children|
    decreases j - i
  {
    if i == j then w else Before(n, tree, env, ExecSpec(n.children[i], tree, env, w).world, i + 1, j)
  }

  /** The status child `j` returns in that world. */
  ghost function StatusAt(n: Node, tree: TreeId, env: Env, w: World, i: nat, j: nat): Status
    requires Bounded(n) && i <= j < |n.children|
  {
    ExecSpec(n.children[j], tree, env, Before(n, tree, env, w, i, j)).status
  }

  /** Starting one child later from the world the first child left. */
  lemma StatusShift(n: Node, tree: TreeId, env: Env, w: World, i: nat, j: nat)
    requires Bounded(n) && i < j < |n.children|
    ensures StatusAt(n, tree, env, w, i, j) == StatusAt(n, tree, env, ExecSpec(n.children[i], tree, env, w).world, i + 1, j)
  {
    assert Before(n, tree, env, w, i, j) == Before(n, tree, env, ExecSpec(n.children[i], tree, env, w).world, i + 1, j);
  }

  /** Children `i` to `j - 1` all returned `cont`. */
  ghost predicate AllCont(n: Node, tree: TreeId, env: Env, w: World, i: nat, j: nat, cont: Status)
    requires Bounded(n) && i <= j <= |n.children|
  {
    forall k | i <= k < j :: StatusAt(n, tree, env, w, i, k) == cont
  }

  /** `AllCont` seen from the world the first child left. */
  lemma AllContShift(n: Node, tree: TreeId, env: Env, w: World, i: nat, j: nat, cont: Status)
    requires Bounded(n) && i < j <= |n.children|
    ensures AllCont(n, tree, env, w, i, j, cont)
        <==> StatusAt(n, tree, env, w, i, i) == cont && AllCont(n, tree, env, ExecSpec(n.children[i], tree, env, w).world, i + 1, j, cont)
  {
    var w' := ExecSpec(n.children[i], tree, env, w).world;
    forall k | i < k < j
      ensures StatusAt(n, tree, env, w, i, k) == StatusAt(n, tree, env, w', i + 1, k)
    {
      StatusShift(n, tree, env, w, i, k);
    }
    if StatusAt(n, tree, env, w, i, i) == cont && AllCont(n, tree, env, w', i + 1, j, cont) {
      forall k | i <= k < j
        ensures StatusAt(n, tree, env, w, i, k) == cont
      {
        if k > i {
          assert StatusAt(n, tree, env, w', i + 1, k) == cont;
        }
      }
    }
    if AllCont(n, tree, env, w, i, j, cont) {
      assert StatusAt(n, tree, env, w, i, i) == cont;
      var i' := i + 1;
      forall k | i' <= k < j
        ensures StatusAt(n, tree, env, w', i', k) == cont
      {
        assert StatusAt(n, tree, env, w, i, k) == cont;
      }
    }
  }

  /** The children loop returns `cont` exactly when every child from `i` on returned `cont`, each run in the world the previous one left. */
  lemma {:induction false} ChildrenAllCont(n: Node, tree: TreeId, env: Env, w: World, i: nat, cont: Status, remember: bool)
    requires Bounded(n) && i <= |n.children|
    ensures Children(n, tree, env, w, i, cont, remember).status == cont <==> AllCont(n, tree, env, w, i, |n.children|, cont)
    decreases |n.children| - i
  {
    if i < |n.children| {
      var c := ExecSpec(n.children[i], tree, env, w);
      assert StatusAt(n, tree, env, w, i, i) == c.status;
      AllContShift(n, tree, env, w, i, |n.children|, cont);
      if c.status == cont {
        ChildrenAllCont(n, tree, env, c.world, i + 1, cont, remember);
        assert Children(n, tree, env, w, i, cont, remember).status == Children(n, tree, env, c.world, i + 1, cont, remember).status;
      }
    }
  }

  /** Any other result of the children loop is the status of the first child that did not return `cont`. */
  lemma {:induction false} ChildrenFirstOther(n: Node, tree: TreeId, env: Env, w: World, i: nat, cont: Status, remember: bool)
    requires Bounded(n) && i <= |n.children|
    ensures var r := Children(n, tree, env, w, i, cont, remember);
            r.status != cont ==>
              exists j | i <= j < |n.children| :: AllCont(n, tree, env, w, i, j, cont) && StatusAt(n, tree, env, w, i, j) == r.status
    decreases |n.children| - i
  {
    if i < |n.children| {
      var c := ExecSpec(n.children[i], tree, env, w);
      assert StatusAt(n, tree, env, w, i, i) == c.status;
      var r := Children(n, tree, env, w, i, cont, remember);
      if c.status != cont {
        assert AllCont(n, tree, env, w, i, i, cont);
      } else if r.status != cont {
        ChildrenFirstOther(n, tree, env, c.world, i + 1, cont, remember);
        var j :| i + 1 <= j < |n.children| && AllCont(n, tree, env, c.world, i + 1, j, cont)
                 && StatusAt(n, tree, env, c.world, i + 1, j) == r.status;
        StatusShift(n, tree, env, w, i, j);
        AllContShift(n, tree, env, w, i, j, cont);
      }
    }
  }

  /** Sequence: SUCCESS when every child succeeds in turn, otherwise the first other status. */
  lemma SequenceOutcome(n: Node, tree: TreeId, env: Env, w: World)
    requires Bounded(n) && n.kind == Composite(Sequence)
    ensures var r := TickSpec(n, tree, env, w);
            && (r.status == Success <==> AllCont(n, tree, env, w, 0, |n.children|, Success))
            && (r.status != Success ==>
                 exists j | 0 <= j < |n.children| :: AllCont(n, tree, env, w, 0, j, Success) && StatusAt(n, tree, env, w, 0, j) == r.status)
  {
    ChildrenAllCont(n, tree, env, w, 0, Success, false);
    ChildrenFirstOther(n, tree, env, w, 0, Success, false);
  }

  /** Selector: FAILURE when every child fails in turn, otherwise the first other status. */
  lemma SelectorOutcome(n: Node, tree: TreeId, env: Env, w: World)
    requires Bounded(n) && n.kind == Composite(Selector)
    ensures var r := TickSpec(n, tree, env, w);
            && (r.status == Failure <==> AllCont(n, tree, env, w, 0, |n.children|, Failure))
            && (r.status != Failure ==>
                 exists j | 0 <= j < |n.children| :: AllCont(n, tree, env, w, 0, j, Failure) && StatusAt(n, tree, env, w, 0, j) == r.status)
  {
    ChildrenAllCont(n, tree, env, w, 0, Failure, false);
    ChildrenFirstOther(n, tree, env, w, 0, Failure, false);
  }

  /** The counter WaitTicks holds after `k` ticks since it was opened (the open resets it to 0). */
  function WaitAfter(duration: int, k: nat): int {
    if k == 0 then 0 else WaitStep(WaitAfter(duration, k - 1), duration).0
  }

  /** The number of ticks between two successes of WaitTicks. */
  function Period(duration: int): (d: int)
    ensures d >= 1 && (duration >= 1 ==> d == duration)
  {
    if duration < 1 then 1 else duration
  }

  /** The step of WaitTicks succeeds exactly when the counter is one short of the period. */
  lemma WaitStepAtPeriod(e: int, duration: int)
    requires 0 <= e < Period(duration)
    ensures WaitStep(e, duration).1 == Success <==> e + 1 == Period(duration)
  {
  }

  /** WaitTicks counts its ticks since opening modulo the period. */
  lemma {:induction false} WaitAfterMod(duration: int, k: nat)
    ensures WaitAfter(duration, k) == k % Period(duration)
  {
    var d := Period(duration);
    if k == 0 {
      ModUnique(0, d, 0, 0);
    } else {
      WaitAfterMod(duration, k - 1);
      var e := (k - 1) % d;
      assert 0 <= e < d;
      WaitStepAtPeriod(e, duration);
      ModNext(k - 1, d);
    }
  }

  /**
   * WaitTicks succeeds on every `d`-th tick since it was opened, `d` being
   * its duration (1 for a duration below 1), and is RUNNING in between.
   */
  lemma WaitTicksPeriod(duration: int, k: nat)
    ensures WaitStep(WaitAfter(duration, k), duration).1 == Success <==> (k + 1) % Period(duration) == 0
  {
    var d := Period(duration);
    WaitAfterMod(duration, k);
    var e := k % d;
    assert 0 <= e < d;
    WaitStepAtPeriod(e, duration);
    ModNext(k, d);
  }

  lemma {:induction false} MulAtLeast(m: int, d: int)
    requires m >= 1 && d >= 1
    ensures m * d >= d
    decreases m
  {
    if m > 1 {
      MulAtLeast(m - 1, d);
      assert m * d == (m - 1) * d + d;
    }
  }

  /** Euclidean remainder is unique. */
  lemma ModUnique(x: int, d: int, q: int, s: int)
    requires d >= 1 && 0 <= s < d && x == q * d + s
    ensures x % d == s
  {
    var q' := x / d;
    assert x == q' * d + x % d;
    assert (q - q') * d == q * d - q' * d;
    assert (q' - q) * d == q' * d - q * d;
    if q > q' {
      MulAtLeast(q - q', d);
    } else if q < q' {
      MulAtLeast(q' - q, d);
    }
  }

  /** One more tick modulo `d`. */
  lemma ModNext(k: int, d: int)
    requires d >= 1
    ensures (k + 1) % d == if k % d + 1 == d then 0 else k % d + 1
  {
    var q := k / d;
    assert k == q * d + k % d;
    if k % d + 1 == d {
      ModUnique(k + 1, d, q + 1, 0);
    } else {
      ModUnique(k + 1, d, q, k % d + 1);
    }
  }

  /**
   * The loop decorators' loop from counter `i`: it does not run when `i`
   * has reached `maxLoop`; otherwise it runs the child between 1 and
   * `maxLoop - i` times, and either every round continued and the counter
   * reached `maxLoop`, or the last round's status stopped it and that round
   * was not counted.
   */
  lemma {:induction false} RepeatLoopBounds(n: Node, tree: TreeId, env: Env, w: World, i: int, status: Status)
    requires Bounded(n) && n.kind.Decorator? && IsRepeater(n.kind.decorator) && |n.children| == 1
    ensures var l := RepeatLoop(n, tree, env, w, i, status);
            var m := n.kind.decorator.maxLoop;
            && (i >= m ==> l.runs == 0 && l.i == i && l.status == status && l.world == w)
            && (i < m ==> 1 <= l.runs <= m - i && l.entered >= l.runs
                          && (if Continues(n.kind.decorator, l.status) then l.i == m && l.runs == m - i
                              else l.i == i + l.runs - 1))
    decreases n.kind.decorator.maxLoop - i
  {
    if i < n.kind.decorator.maxLoop {
      var c := ExecSpec(n.children[0], tree, env, w);
      assert c.entered >= 1;
      if Continues(n.kind.decorator, c.status) {
        RepeatLoopBounds(n, tree, env, c.world, i + 1, c.status);
      }
    }
  }

  /**
   * The status and the world of the child's execution in the last round a
   * loop decorator's loop from counter `i` runs, or `status` and `w` if it
   * runs none: each round that continues the loop hands on the world it
   * left to the next round.
   */
  ghost function LastRound(n: Node, tree: TreeId, env: Env, w: World, i: int, status: Status): (Status, World)
    requires Bounded(n) && n.kind.Decorator? && IsRepeater(n.kind.decorator) && |n.children| == 1
    decreases n.kind.decorator.maxLoop - i
  {
    if i >= n.kind.decorator.maxLoop then (status, w)
    else
      var c := ExecSpec(n.children[0], tree, env, w);
      if Continues(n.kind.decorator, c.status) then LastRound(n, tree, env, c.world, i + 1, c.status) else (c.status, c.world)
  }

  /**
   * A loop decorator's loop returns the status of the child's execution in
   * its last round, and the world that execution left; with no round, the
   * status and world it was given.
   */
  lemma {:induction false} RepeatLoopLastRun(n: Node, tree: TreeId, env: Env, w: World, i: int, status: Status)
    requires Bounded(n) && n.kind.Decorator? && IsRepeater(n.kind.decorator) && |n.children| == 1
    ensures RepeatLoop(n, tree, env, w, i, status).status == LastRound(n, tree, env, w, i, status).0
    ensures RepeatLoop(n, tree, env, w, i, status).world == LastRound(n, tree, env, w, i, status).1
    decreases n.kind.decorator.maxLoop - i
  {
    if i < n.kind.decorator.maxLoop {
      var c := ExecSpec(n.children[0], tree, env, w);
      if Continues(n.kind.decorator, c.status) {
        RepeatLoopLastRun(n, tree, env, c.world, i + 1, c.status);
      }
    }
  }

  /**
   * LimiterTicks executes its child exactly when its counter (0 if the
   * node is being opened) stays within `maxTicks` once incremented, and
   * then returns the child's status; otherwise it fails having entered
   * only itself. Unless the node occurs below itself, the counter
   * afterwards is the incremented one, or 0 after a refusal.
   */
  lemma LimiterTicksGate(n: Node, tree: TreeId, env: Env, w: World)
    requires Bounded(n) && n.kind.Decorator? && n.kind.decorator.LimiterTicks? && |n.children| == 1
    ensures var r := ExecSpec(n, tree, env, w);
            var before := if Truthy(NodeRead(w, tree, n.id, "isOpen")) then Counter(w, n.id) else 0;
            var refused := before + 1 > n.kind.decorator.maxTicks;
            var w1 := Prepare(n, tree, env, w);
            var c := ExecSpec(n.children[0], tree, env, w1.(counters := w1.counters[n.id := before + 1]));
            && (refused <==> r.entered == 1)
            && (refused ==> r.status == Failure)
            && (!refused ==> r.status == c.status && r.entered == c.entered + 1
                             && r.world == if c.status == Running then c.world else Close(c.world, tree, n.id))
            && (!OccursBelow(n.id, n) ==> Counter(r.world, n.id) == if refused then 0 else before + 1)
  {
    var w1 := Prepare(n, tree, env, w);
    var before := if Truthy(NodeRead(w, tree, n.id, "isOpen")) then Counter(w, n.id) else 0;
    assert Counter(w1, n.id) == before;
    LimiterTick(n, tree, env, w1);
    if before + 1 <= n.kind.decorator.maxTicks {
      var w2 := w1.(counters := w1.counters[n.id := before + 1]);
      ExecStack(n.children[0], tree, env, w2);
      if !OccursBelow(n.id, n) {
        assert !Occurs(n.id, n.children[0]);
        ExecKeeps(n.children[0], tree, env, w2, CounterOf(n.id));
      }
    }
  }

  /**
   * LimiterTime executes its child exactly when the time since the node
   * was opened (0 if it is being opened now) is within `maxTime`, or no
   * start time is stored, and then returns the child's status; otherwise
   * it fails having entered only itself.
   */
  lemma LimiterTimeGate(n: Node, tree: TreeId, env: Env, w: World)
    requires Bounded(n) && n.kind.Decorator? && n.kind.decorator.LimiterTime? && |n.children| == 1
    ensures var r := ExecSpec(n, tree, env, w);
            var started := if Truthy(NodeRead(w, tree, n.id, "isOpen")) then NumberOf(NodeRead(w, tree, n.id, "startTime"))
                           else Some(env.now);
            var refused := started.Some? && env.now - started.value > n.kind.decorator.maxTime;
            var c := ExecSpec(n.children[0], tree, env, NodeTouch(Prepare(n, tree, env, w), tree, n.id));
            && (refused <==> r.entered == 1)
            && (refused ==> r.status == Failure)
            && (!refused ==> r.status == c.status && r.entered == c.entered + 1
                             && r.world == if c.status == Running then c.world else Close(c.world, tree, n.id))
  {
    var w0 := Enter(w, n.id);
    var w1 := Prepare(n, tree, env, w);
    ReadThroughTouch(w0.store, tree, n.id, "startTime", tree, n.id);
    if !Truthy(NodeRead(w0, tree, n.id, "isOpen")) {
      var w2 := NodeWrite(NodeTouch(w0, tree, n.id), tree, n.id, "isOpen", Bool(true));
      ReadAfterWrite(w2.store, "startTime", Int(env.now), tree, n.id);
    }
    LimiterTick(n, tree, env, w1);
    ExecStack(n.children[0], tree, env, NodeTouch(w1, tree, n.id));
  }

  /** The limiters' tick on the world the prepare phases left: a refusal, or the child's execution. */
  lemma LimiterTick(n: Node, tree: TreeId, env: Env, w: World)
    requires Bounded(n) && n.kind.Decorator? && IsLimiter(n.kind.decorator) && |n.children| == 1
    ensures var t := TickSpec(n, tree, env, w);
            match n.kind.decorator
            case LimiterTime(maxTime) =>
              var started := NumberOf(NodeRead(w, tree, n.id, "startTime"));
              var w1 := NodeTouch(w, tree, n.id);
              t == if started.Some? && env.now - started.value > maxTime then Step(Failure, w1, 0, 0)
                   else ExecSpec(n.children[0], tree, env, w1)
            case LimiterTicks(maxTicks) =>
              var elapsed := Counter(w, n.id) + 1;
              t == if elapsed > maxTicks then Step(Failure, w.(counters := w.counters[n.id := 0]), 0, 0)
                   else ExecSpec(n.children[0], tree, env, w.(counters := w.counters[n.id := elapsed]))
  {
    assert TickSpec(n, tree, env, w) == LimitSpec(n, tree, env, w);
  }

  /**
   * A tree tick stores as `nodeCount` the ticker's count plus the number of
   * nodes entered; when the list is copied before the closes, the stored
   * list is the ticker's list with one entry more per execution that
   * returned RUNNING, the root first when the root is RUNNING on an emptied
   * ticker.
   */
  lemma TreeTickRecords(root: Node, tree: TreeId, env: Env, w: World, copies: bool)
    requires Bounded(root)
    ensures var e := ExecSpec(root, tree, env, w);
            var r := TreeTick(root, tree, env, w, copies);
            && At(r, NodeCountSlot(tree)) == Int(w.count + e.entered)
            && (copies ==>
                 && At(r, OpenNodesSlot(tree)) == Nodes(e.world.open)
                 && w.open <= e.world.open && |e.world.open| == |w.open| + e.leftOpen
                 && (w.open == [] && e.status == Running ==> e.world.open[0] == root.id))
  {
    var e := ExecSpec(root, tree, env, w);
    ExecStack(root, tree, env, w);
    SettleEffect(e.world, tree, copies, OpenNodesSlot(tree));
  }

  /** MemSequence's and MemSelector's remembered index. */
  function RunningChildSlot(tree: TreeId, id: NodeId): Slot {
    Entry(NodeScope(tree, id), "runningChild")
  }

  /**
   * The remembering children loop writes `runningChild` only when a child
   * returns RUNNING, and then writes that child's index; any other outcome
   * leaves it as it was (when the node does not occur below itself).
   */
  lemma {:induction false} ChildrenRemembers(n: Node, tree: TreeId, env: Env, w: World, i: nat, cont: Status)
    requires Bounded(n) && !OccursBelow(n.id, n) && i <= |n.children| && cont != Running
    ensures var r := Children(n, tree, env, w, i, cont, true);
            && (r.status != Running ==> At(r.world, RunningChildSlot(tree, n.id)) == At(w, RunningChildSlot(tree, n.id)))
            && (r.status == Running ==>
                 exists j | i <= j < |n.children| ::
                   && AllCont(n, tree, env, w, i, j, cont) && StatusAt(n, tree, env, w, i, j) == Running
                   && At(r.world, RunningChildSlot(tree, n.id)) == Int(j))
    decreases |n.children| - i
  {
    var slot := RunningChildSlot(tree, n.id);
    if i < |n.children| {
      var c := ExecSpec(n.children[i], tree, env, w);
      assert StatusAt(n, tree, env, w, i, i) == c.status;
      assert !Occurs(n.id, n.children[i]);
      ExecKeeps(n.children[i], tree, env, w, slot);
      var r := Children(n, tree, env, w, i, cont, true);
      if c.status != cont {
        if c.status == Running {
          WriteAt(c.world, tree, n.id, "runningChild", Int(i), slot);
          assert AllCont(n, tree, env, w, i, i, cont);
        }
      } else {
        ChildrenRemembers(n, tree, env, c.world, i + 1, cont);
        if r.status == Running {
          var j :| i + 1 <= j < |n.children| && AllCont(n, tree, env, c.world, i + 1, j, cont)
                   && StatusAt(n, tree, env, c.world, i + 1, j) == Running
                   && At(r.world, slot) == Int(j);
          StatusShift(n, tree, env, w, i, j);
          AllContShift(n, tree, env, w, i, j, cont);
        }
      }
    }
  }
}
