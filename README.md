# Blackthorn behaviour trees in Dafny

Blackthorn is a small behaviour-tree engine written in TypeScript. A tree of
nodes is ticked against a blackboard. The blackboard is a key/value memory
with three scopes: global, one bucket per tree, and one bucket per node of a
tree. Every tick of a tree creates or reuses a ticker that records the nodes
entered (`nodeCount`) and a stack of the nodes that are currently open
(`openNodes`). `_execute` runs the same fixed phases for every node:

- enter: push the node on the ticker's stack and count it;
- open: when the node's `isOpen` flag is not truthy, set it and run the node's own `open` hook;
- tick: run the node's own `tick`;
- close: when the tick did not return RUNNING, pop the stack, clear `isOpen` and run the `close` hook;
- exit.

After the root has run, the tree tick reads the stack stored by the previous
tick. It scans that list against the ticker's list for a start index, and
closes the nodes of the previous list from the end down to that index; the
scan counts the first node that differs as still open, so that node is not
closed (see "## Findings"). Then it stores the ticker's list and the node
count in the tree's bucket. In `src/blackthorn.ts` the list stored is the
ticker's own list, which the closes have just popped; in `blackthorn.ts` it
is a copy taken before them.

The project models two versions of this engine:

- `src/blackthorn.ts`, the current one. Its node catalogue is:
  - composites: Sequence, Selector, MemSequence, MemSelector;
  - Condition;
  - decorators: Inverter, LimiterTime, LimiterTicks, Repeater,
    RepeatUntilFailure, RepeatUntilSuccess, Failer, Runner, Succeeder;
  - actions: Error, Failure, Running, Success, WaitTime, WaitTicks.

  `BehaviorTree.tick` may be given a ticker to reuse.
- `blackthorn.ts`, the earlier one. Its catalogue is smaller:
  - Inverter looks only at the first child;
  - Error, Failer, Runner and Succeeder are leaves;
  - WaitTicks is never reset on open.

  Its `BehaviorTree.tick` always makes a fresh ticker, and `Agent.tick` reuses one ticker for good. Both store a copy of the stack taken before the stale nodes are closed.

Module layout:

- `Memory` (memory.dfy): the blackboard.
  - A value-level `Store` with `Touch`, `Read` and `Write`.
  - The class `Blackboard`, whose methods are proved against those functions.
  - Lemmas about reads and writes.
- `Nodes` (nodes.dfy): statuses, the node catalogue of both versions, and the well-formedness predicate `Bounded`.
- `Semantics` (semantics.dfy): the functional specification of one execution.
  - A `World` holds the store, the open stack, the node count, and the per-instance counters of LimiterTicks and WaitTicks.
  - A `Step` holds the status, the new world, the number of nodes entered, and the number of entries left on the stack.
  - `ExecSpec` is `_execute`. `TickSpec` is the kinds' `tick`.
  - `Children`, `Resume` and `Repeat`/`RepeatLoop` are the composite and repeater loops.
- `Engine` (engine.dfy): the class `Ticker`, and `_execute` and every kind's `tick` as methods. Each method is proved to change the ticker, blackboard and counters exactly as its specification function says.
- `Frames` (frames.dfy): which blackboard slots and counters an execution may change.
- `Stack` (stack.dfy): how an execution changes the stack and the node count.
- `Ticks` (ticks.dfy): the specification of the tree-level tick (scan, close loop, stored list), and the two findings.
- `Trees` (trees.dfy): the scan and close loops as methods, and the classes:
  - `BehaviorTree`, from `src/blackthorn.ts`;
  - `LegacyBehaviorTree` and `Agent`, from `blackthorn.ts`.
- `Protocol` (protocol.dfy): what each node kind promises (the status it reports, the state it remembers), stated over the specification.

Inputs the engine takes from outside are parameters:

- the clock is `Env.now`, the one time of a tick;
- a Condition's predicate is `Env.truths`, the set of Condition nodes whose predicate holds in this tick;
- generated identifiers are given to the constructors.

## Model

| member | source | states |
|---|---|---|
| Memory.NumberOf | src/blackthorn.ts:447-461 | A stored number reads as that number. `undefined` reads as no number (NaN), so time arithmetic on a missing start time compares false |
| Memory.Blackboard.constructor | src/blackthorn.ts:32-35 | A new blackboard has an empty global bucket and no tree buckets |
| Memory.Blackboard.GetTreeMemory | src/blackthorn.ts:37-46 | Creates a missing tree bucket, with an empty `nodeMemory` and an empty `openNodes` list, and returns the bucket now stored. An existing bucket is left as it is |
| Memory.Blackboard.GetNodeMemory | src/blackthorn.ts:48-55 | Creates a missing node bucket inside the tree bucket and returns it. The tree's own entries are not changed |
| Memory.Blackboard.GetMemory | src/blackthorn.ts:57-69 | Addresses the global bucket for a falsy tree scope, the tree bucket for a falsy node scope, and the node bucket otherwise. It creates the buckets on the way |
| Memory.Blackboard.Set | src/blackthorn.ts:71-74 | The new store is the old one with the key written in the addressed bucket |
| Memory.Blackboard.Get | src/blackthorn.ts:76-79 | Returns the value the old store holds in the addressed bucket (`undefined` when absent), and creates the buckets on the way |
| Memory.ReadAfterWrite | src/blackthorn.ts:57-79 | A `get` right after a `set` with the same key and scopes returns the value set |
| Memory.WriteIsolation | src/blackthorn.ts:57-74 | A `set` leaves every reading of another key, or of the same key in another bucket, unchanged |
| Memory.WriteKeepsOthers | src/blackthorn.ts:57-74 | The same isolation stated for all other keys and scopes at once |
| Memory.TouchKeepsReads | src/blackthorn.ts:37-69 | Creating buckets on the way to a bucket changes no reading of any key in any scope |
| Memory.ReadThroughTouch | src/blackthorn.ts:76-79 | A read after a read's bucket creation returns what it would have returned before |
| Memory.ReadOfMissingTree | src/blackthorn.ts:37-46 | In a tree with no bucket yet, every key reads `undefined`, except tree-scope `openNodes`, which reads an empty list. Afterwards the tree bucket exists, holding the fresh entries |
| Memory.FalsyTreeScopeIsGlobal | src/blackthorn.ts:57-60 | With an empty tree scope, reads and writes go to the global bucket, whatever the node scope |
| Nodes.Invert | src/blackthorn.ts:419-428 | SUCCESS and FAILURE are swapped, each in both directions. RUNNING and ERROR are kept |
| Semantics.Prepare | src/blackthorn.ts:185-191 | Defines the phases before the tick: enter, then open only when `isOpen` is not truthy. Frames.PrepareAt and Frames.PrepareResets state what it changes |
| Semantics.ExecSpec | src/blackthorn.ts:183-204 | Defines `_execute`: prepare, tick, and close unless the tick returned RUNNING; the node itself counts as entered, and as left open when RUNNING. Stack.ExecStack, Frames.ExecKeeps and Protocol.OpenFlagTracksRunning state its effect |
| Semantics.TickSpec | src/blackthorn.ts:218-277 | Defines the tick phase by kind; a Condition ticks, without executing, the branch its predicate picks. Frames.TickKeeps and Stack.TickStack state its effect |
| Semantics.Children | src/blackthorn.ts:279-305 | Defines the children loop of the four composites from a start index. Protocol.ChildrenAllCont, Protocol.ChildrenFirstOther and Protocol.ChildrenRemembers state what it returns |
| Semantics.Resume | src/blackthorn.ts:313-328 | Defines the memory composites' tick: the children loop from the stored `runningChild`. Protocol.MemResume states where it resumes |
| Semantics.Repeat | src/blackthorn.ts:507-527 | Defines the repeaters' tick: read `i`, loop, write `i` back. Protocol.RepeatResume and Protocol.RepeatIdle state what it does |
| Semantics.RepeatLoop | src/blackthorn.ts:516-523 | Defines `while (i < maxLoop)` over the child's executions. Protocol.RepeatLoopBounds and Protocol.RepeatLoopLastRun state what it returns |
| Semantics.LimitSpec | src/blackthorn.ts:433-493 | Defines the two limiters' tick. Protocol.LimiterTicksGate and Protocol.LimiterTimeGate state when they refuse and what they return otherwise |
| Semantics.InvertSpec | src/blackthorn.ts:415-431 | Defines both Inverters' tick. Protocol.InverterSwaps states what it returns |
| Semantics.ForceSpec | src/blackthorn.ts:600-637 | Defines the tick of Failer, Runner and Succeeder. Protocol.ForcedStatus states what it returns |
| Semantics.Pop | src/blackthorn.ts:113-116 | Popping an empty stack leaves it empty. Otherwise it removes exactly the top entry |
| Semantics.Enter | src/blackthorn.ts:99-103 | Entering pushes the node on the stack and adds one to the count. The blackboard and the counters are unchanged |
| Semantics.Open | src/blackthorn.ts:212-216 | The open phase and its hooks change neither the stack nor the count |
| Semantics.Close | src/blackthorn.ts:223-227 | The close phase pops the stack and keeps the count and the counters |
| Semantics.ActionSpec | src/blackthorn.ts:639-710 | The leaves change neither the stack nor the count |
| Semantics.WaitStep | src/blackthorn.ts:702-709 | WaitTicks succeeds exactly when the incremented counter reaches the duration, and otherwise reports RUNNING. The counter returns to 0 on success and is incremented otherwise |
| Engine.Instances.constructor | src/blackthorn.ts:464-472 | The node instances' tick counters (`elapsedTicks` of LimiterTicks and WaitTicks) all start at 0, which an absent entry stands for |
| Engine.Ticker.constructor | src/blackthorn.ts:90-97 | A new ticker has an empty stack and a zero count, bound to its blackboard and tree |
| Engine.Ticker.EnterNode | src/blackthorn.ts:99-103 | The node is pushed on the stack and the count grows by one |
| Engine.Ticker.CloseNode | src/blackthorn.ts:113-116 | The stack is popped and the count is kept |
| Engine.Execute | src/blackthorn.ts:183-204 | Returns the status of `ExecSpec`, and leaves the blackboard, stack, count and counters exactly as `ExecSpec` says |
| Engine.PreparePhase | src/blackthorn.ts:185-191 | Enter, then open when `isOpen` is not truthy, as `Prepare` says |
| Engine.OpenPhase | src/blackthorn.ts:212-216 | Sets `isOpen` and runs the kind's open hook, as `Open` says |
| Engine.ClosePhase | src/blackthorn.ts:223-227 | Pops the stack and clears `isOpen`, as `Close` says |
| Engine.TickPhase | src/blackthorn.ts:218-221 | Dispatches on the kind, as `TickSpec` says. A Condition runs the tick of the branch its predicate chooses |
| Engine.TickComposite | src/blackthorn.ts:279-353 | The four composites, as `CompositeSpec` says |
| Engine.RunChildren | src/blackthorn.ts:280-290 | The children loop from a given index: it stops at the first child that does not return the continuing status, as `Children` says |
| Engine.ChildTurn | src/blackthorn.ts:316-324 | One turn of the children loop, including the write of `runningChild` when a child returns RUNNING |
| Engine.ResumeChildren | src/blackthorn.ts:313-328 | MemSequence and MemSelector resume at the stored `runningChild`, as `Resume` says |
| Engine.TickDecorator | src/blackthorn.ts:415-637 | The decorators, as `DecoratorSpec` says, including ERROR for a wrong number of children |
| Engine.TickInvert | src/blackthorn.ts:415-431 | The Inverter of both versions, as `InvertSpec` says |
| Engine.TickForce | src/blackthorn.ts:600-637 | Failer, Runner and Succeeder, as `ForceSpec` says |
| Engine.TickLimit | src/blackthorn.ts:433-493 | LimiterTime and LimiterTicks, as `LimitSpec` says |
| Engine.RepeatChild | src/blackthorn.ts:507-527 | The repeater family: read `i`, loop, write `i` back, as `Repeat` says |
| Engine.RunRepeat | src/blackthorn.ts:516-523 | The repeater loop runs while `i < maxLoop` and the child's status continues it, as `RepeatLoop` says |
| Engine.RepeatTurn | src/blackthorn.ts:517-522 | One turn of the repeater loop |
| Engine.TickAction | src/blackthorn.ts:639-710 | The leaves, as `ActionSpec` says |
| Engine.StepCounter | src/blackthorn.ts:702-709 | WaitTicks' counter step: the status and the new counter are those of `WaitStep`, and no other counter changes |
| Frames.OpenAt | src/blackthorn.ts:212-216 | The open phase changes only the node's own slots, and sets its `isOpen` |
| Frames.PrepareAt | src/blackthorn.ts:185-191 | The phases before the tick change only the node's own slots, and leave its `isOpen` truthy. A node already open keeps every slot: the open hook does not run |
| Frames.PrepareResets | src/blackthorn.ts:212-216 | A node that is not open is opened: its `isOpen` becomes true and its kind's open hook applies, so a memory composite's `runningChild` and a repeater's `i` read 0, a limiter's or waiter's start time reads now, and a tick counter is 0. A kind without a hook, the early WaitTicks among them, keeps its counter |
| Frames.CloseAt | src/blackthorn.ts:223-227 | The close phase changes only the node's `isOpen`, to false |
| Frames.ExecKeeps | src/blackthorn.ts:183-204 | An execution changes no blackboard slot or counter owned by a node outside its subtree, nor any global or tree-scope entry |
| Frames.TickKeeps | src/blackthorn.ts:218-221 | The tick phase changes only slots of the node and its subtree, and never the node's own `isOpen` |
| Frames.ActionKeeps | src/blackthorn.ts:639-710 | A leaf changes only its own slots other than `isOpen` |
| Frames.ChildrenKeeps | src/blackthorn.ts:280-290 | The children loop changes only slots of the children it can reach and the parent's `runningChild` |
| Frames.LimitKeeps | src/blackthorn.ts:433-493 | The limiters change only their own slots and their child's subtree |
| Frames.RepeatLoopKeeps | src/blackthorn.ts:516-523 | The repeater loop changes only slots of the child's subtree |
| Stack.ExecStack | src/blackthorn.ts:183-204 | An execution only grows the stack above where it stood: by one entry per RUNNING result it leaves open, never more than the nodes it entered. It enters at least one node. A RUNNING result leaves its own node right above the old stack |
| Stack.TickStack | src/blackthorn.ts:218-221 | The tick phase keeps the same stack and count arithmetic |
| Stack.ChildrenStack | src/blackthorn.ts:280-290 | The children loop keeps it across its turns |
| Stack.RepeatLoopStack | src/blackthorn.ts:516-523 | The repeater loop keeps it across its turns |
| Stack.ExecRestoresStack | src/blackthorn.ts:183-204 | An execution in which nothing was left open restores the stack exactly and does not return RUNNING |
| Ticks.StaleStart | src/blackthorn.ts:149-155 | Defines the start index the scan computes: one past the common prefix when both lists go on past it. Ticks.ScanSkipsFirstMismatch shows what that misses |
| Ticks.CloseFrom | src/blackthorn.ts:157-160 | Defines the close loop from the end of the previous list down to the start index. Ticks.CloseFromAt and Ticks.CloseFromStack state its effect |
| Ticks.Finish | src/blackthorn.ts:157-164 | Defines the closes and the two writes that end a tree tick. Ticks.FinishEffect states its effect |
| Ticks.Settle | src/blackthorn.ts:144-164 | Defines everything after `_execute` in a tree tick. Ticks.SettleEffect states its effect |
| Ticks.SettleCorrected | src/blackthorn.ts:149-164 | Defines the same with the scan stopping at the first mismatch and the list copied. Ticks.SettleCorrectedCloses states its effect |
| Ticks.TreeTick | src/blackthorn.ts:132-165 | Defines a whole tree tick: the root's execution, then `Settle`. Protocol.TreeTickRecords states what it stores |
| Ticks.CommonPrefix | src/blackthorn.ts:149-155 | The length of the longest common prefix of two lists: the two agree before it and differ at it |
| Ticks.CloseFromAt | src/blackthorn.ts:157-160 | The close loop clears `isOpen` of exactly the nodes at and after the start index, and changes no other slot |
| Ticks.CloseFromStack | src/blackthorn.ts:157-160 | The close loop pops the ticker's stack once per node closed, and keeps the count and counters |
| Ticks.FinishEffect | src/blackthorn.ts:157-164 | After the closes and the two writes, the stored list is the copy or the ticker's list, and the count is stored. Every other slot is as before, except the closed flags |
| Ticks.SettleEffect | src/blackthorn.ts:144-164 | Everything after `_execute` in a tree tick, in the same terms, with the start index the scan computes |
| Ticks.SettleCorrectedCloses | src/blackthorn.ts:149-160 | With the scan stopping at the first mismatch, every stale node past the common prefix is closed, and the stored list is this tick's list |
| Ticks.ScanSkipsFirstMismatch | src/blackthorn.ts:149-155 | Previous list `[r, a]` with `a` open, current list `[r, b]`: the scan starts at 2, so `a` stays open, and the corrected scan closes it |
| Ticks.StoredListLosesOpenNodes | src/blackthorn.ts:146-163 | Previous list `[r, c, x]`, current list `[r, c]`: storing the ticker's own list stores `[r]`, and storing a copy stores `[r, c]` |
| Trees.StartIndex | src/blackthorn.ts:149-155 | The scan loop computes the start index of the tree tick's scan |
| Trees.CloseStale | src/blackthorn.ts:157-160 | The close loop, from the end of the previous list down to the start index, as `CloseFrom` says |
| Trees.SettlePhase | src/blackthorn.ts:144-164 | Everything after `_execute` in a tree tick, as `Settle` says |
| Trees.BehaviorTree.constructor | src/blackthorn.ts:127-130 | The tree keeps its identifier and root |
| Trees.BehaviorTree.Tick | src/blackthorn.ts:132-165 | A fresh ticker, or the given one with its stack emptied and its count kept. Then the root is executed and the tick settled with the ticker's own list stored, as `TreeTick` says |
| Trees.LegacyBehaviorTree.Tick | blackthorn.ts:177-205 | For a tree of the earlier catalogue: a fresh ticker every tick. The list stored is a copy taken before the closes, as `TreeTick` says |
| Trees.Agent.constructor | blackthorn.ts:33-37 | The agent holds one fresh ticker, with an empty stack and a zero count, bound to its tree and blackboard |
| Trees.Agent.Tick | blackthorn.ts:39-64 | For a tree of the earlier catalogue: the agent's ticker is never reset: the count carries over, and a copy of the stack is stored |
| Protocol.OpenFlagTracksRunning | src/blackthorn.ts:183-204 | After an execution, the node's `isOpen` is truthy exactly when it returned RUNNING, and false otherwise |
| Protocol.DecoratorArityError | src/blackthorn.ts:415-419 | A decorator without exactly one child (the early Inverter: without any child) returns ERROR and changes nothing |
| Protocol.ForcedStatus | src/blackthorn.ts:600-637 | Failer, Runner and Succeeder report FAILURE, RUNNING and SUCCESS whatever their child returns. They run the child exactly once: the world, the nodes entered and the entries left open are those of the child's execution |
| Protocol.InverterSwaps | src/blackthorn.ts:415-431 | An Inverter reports the swapped status of its first child's execution, and leaves the world as that execution left it |
| Protocol.ConstantLeaf | src/blackthorn.ts:639-661 | Error, Failure, Running and Success report their own status. Each enters one node and stays on the stack only when RUNNING |
| Protocol.SequenceOutcome | src/blackthorn.ts:279-291 | A Sequence succeeds exactly when every child succeeds in turn. Otherwise it reports the first other status |
| Protocol.SelectorOutcome | src/blackthorn.ts:293-305 | A Selector fails exactly when every child fails in turn. Otherwise it reports the first other status |
| Protocol.ChildrenAllCont | src/blackthorn.ts:280-290 | The children loop returns the continuing status exactly when every child from the start index on returned it, each in the world the previous one left |
| Protocol.ChildrenFirstOther | src/blackthorn.ts:280-290 | Any other result of the children loop is the status of the first child that did not continue it |
| Protocol.ChildrenRemembers | src/blackthorn.ts:313-328 | The remembering children loop writes `runningChild` only when a child returns RUNNING, and then writes that child's index `j`, every child before it having continued the loop. Any other outcome leaves the stored index as it was |
| Protocol.MemResume | src/blackthorn.ts:307-353 | A MemSequence or MemSelector that is still open resumes its children loop at the stored `runningChild` `j` (when it is a number at least 0), and one being opened starts at child 0. Any other stored index runs no child and reports the continuing status |
| Protocol.RepeatResume | src/blackthorn.ts:495-528 | A loop decorator still open counts its rounds on from its stored `i`, and one being opened from 0. It stores the count the loop reached back in `i` for the next tick. A stored `i` that is not a number runs nothing, reports SUCCESS (FAILURE for RepeatUntilSuccess) and is written back unchanged |
| Protocol.RepeatIdle | src/blackthorn.ts:507-527 | A repeater whose stored `i` is missing or has reached `maxLoop` runs nothing. Its status is SUCCESS, or FAILURE for RepeatUntilSuccess |
| Protocol.RepeatLoopLastRun | src/blackthorn.ts:516-523 | A repeater loop returns the status of the child's execution in the last round it runs, and the world that execution left: the round that stopped it, or the round at `maxLoop - 1`. A loop that runs no round returns the status and world it was given |
| Protocol.RepeatLoopBounds | src/blackthorn.ts:516-523 | The repeater loop runs its child between 1 and `maxLoop - i` times. It ends at `maxLoop` only when every run continued it. Otherwise it ends right after the run that stopped it |
| Protocol.LimiterTicksGate | src/blackthorn.ts:464-493 | LimiterTicks refuses (FAILURE, only itself entered) exactly when the ticks since opening, this one included, exceed `maxTicks`. Its counter ends at that number, or back at 0 after a refusal. When it does not refuse, it returns the status of its child's execution with the incremented counter, and its world is that execution's world, closed unless RUNNING |
| Protocol.LimiterTimeGate | src/blackthorn.ts:433-462 | LimiterTime refuses (FAILURE, only itself entered) exactly when a start time is stored and more than `maxTime` has passed since it. A node being opened starts now. When it does not refuse, it returns the status of its child's execution |
| Protocol.WaitTicksStep | src/blackthorn.ts:688-710 | One execution of WaitTicks is one `WaitStep` of its counter: from 0 when the node is being opened, from the stored counter while it is open. Its status and new counter are that step's. The early WaitTicks (blackthorn.ts:443-461) steps on from its counter in both cases |
| Protocol.WaitAfterMod | src/blackthorn.ts:688-710 | After `k` ticks since opening, WaitTicks' counter is `k` modulo its period |
| Protocol.WaitTicksPeriod | src/blackthorn.ts:688-710 | WaitTicks succeeds on tick `k + 1` (counting from its opening) exactly when `k + 1` is a multiple of its period, `max(duration, 1)` |
| Protocol.TreeTickRecords | src/blackthorn.ts:132-165 | A tree tick stores the count plus the number of nodes entered. With a copy, the stored list is the stack the execution left: it extends the starting stack by the nodes left open, and starts with the root when the root is RUNNING |

## Left out

- RandomSelector (`src/blackthorn.ts`): it draws a child index from a random number generator. That would be a parameter like the clock, and it is not part of this model.
- Concurrent is commented out in the source and is not modelled.
- The `subject` handed to a ticker and the debug hooks (`openNode`, `tickNode`, `exitNode`) have no effect on the engine's state and are not modelled.
- The `Agent` and `DedicatedAgent` of `src/blackthorn.ts` only pass a stored ticker to `BehaviorTree.tick`. That call is `Trees.BehaviorTree.Tick` with a ticker. The early `DedicatedAgent` is not modelled either.
- `createUUID`: identifiers are parameters. Node identity is the node's id, so two distinct node objects with the same id would be one node here.
- The clock (`new Date().getTime()`) is `Env.now`, one value for the whole tick, and a Condition's predicate is `Env.truths`. Neither is modelled beyond that.
- Nodes.Bounded: a repeater with one child must have `maxLoop >= 0`. The constructors' default, -1, makes the source loop until the child stops continuing, which may never happen. That unbounded loop is not modelled.
- Semantics.Resume: a stored `runningChild` that is a negative number, a boolean or the empty list lets the loop run no rounds. The source converts it to a number and throws whenever that number is below the number of children, since it then indexes outside them; otherwise it runs no rounds, as here. A missing (`undefined`) or other stored value runs no rounds in the source too.
- Engine.ResumeChildren: the same stored values run no rounds, since the method is proved equal to `Resume`.
- Ticks.LastOpen: a stored `openNodes` that is not a list reads as the empty list. For a number or a boolean the source agrees: their `.length` is undefined, so neither the scan nor the close loop runs. Only a stored `undefined` would make the source throw.
- Trees.BehaviorTree.Tick: a given ticker must belong to the same tree and blackboard. The source does not check this.
- Memory.Blackboard: a tree-scope key named `nodeMemory` is kept apart from the dictionary of node buckets. In the source, such a key would overwrite that dictionary.
- Memory.NumberOf: JavaScript's number conversion is modelled for the values the engine stores: numbers, booleans, and lists of nodes, of which only the empty list is a number. A NaN comparison reads as "not elapsed".
- Semantics.WaitStep: the early WaitTicks never resets its counter on open. This is kept as written.
- Semantics.Close pops whatever is on top of the stack. So a Failer or Succeeder over a RUNNING child closes with the child's entry. The Runner reports RUNNING, so it is never closed. This is kept as written.
- Memory.Lookup: the buckets are plain object literals in the source. So `get("constructor")` or `get("toString")` returns a function inherited from `Object.prototype`, and `set("__proto__", v)` ignores a number or a boolean and replaces the bucket's prototype with an object. Here such keys are ordinary keys: an absent one reads as `undefined`, and a write stores the value.
- JavaScript numbers are unbounded integers here: counters, durations and times do not overflow or round.

## Findings

| source | as written | input that shows it | evidently intended | confidence | as-written member | corrected member |
|---|---|---|---|---|---|---|
| src/blackthorn.ts:149-155 | the scan sets `start = i + 1` before it breaks at the first mismatch (the same in blackthorn.ts:189-195 and 48-54), so the first node of the previous list that is no longer open is never closed | previous list `[r, a]` with `a` open, current list `[r, b]`: `a` keeps `isOpen` true | the scan stops at the first mismatch, and every node from there on is closed | not executed | Ticks.ScanSkipsFirstMismatch | Ticks.SettleCorrectedCloses |
| src/blackthorn.ts:146 | the list stored is the ticker's own list, which the close loop pops afterwards (the earlier version stores `openNodes.slice(0)`) | previous list `[r, c, x]`, current list `[r, c]`: closing `x` pops `c`, and `[r]` is stored | the list stored is the one this tick left open | not executed | Ticks.StoredListLosesOpenNodes | Ticks.TreeTickRecords |
