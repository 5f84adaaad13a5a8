/**
 * The blackboard: a three-level scoped key/value store (global, per tree,
 * per tree-and-node). Buckets are created lazily, on reads as well as on
 * writes. Both versions of the engine share this code unchanged.
 */
module Memory {

  /** Identifiers are generated UUID strings, so they are never empty. */
  type NodeId = s: string | s != "" witness "node"
  type TreeId = s: string | s != "" witness "tree"

  /** The values the engine stores: `undefined`, booleans, numbers and node arrays. */
  datatype Value = Undefined | Bool(b: bool) | Int(n: int) | Nodes(ids: seq<NodeId>)

  /** JavaScript truthiness of a stored value (every array is truthy). */
  predicate Truthy(v: Value) {
    match v
    case Undefined => false
    case Bool(b) => b
    case Int(n) => n != 0
    case Nodes(_) => true
  }

  /** JavaScript's numeric conversion of a stored value; `None` stands for NaN. */
  function NumberOf(v: Value): (r: Option<int>)
    ensures v.Int? ==> r == Some(v.n)
    ensures v.Undefined? ==> r == None
  {
    match v
    case Undefined => None
    case Bool(b) => Some(if b then 1 else 0)
    case Int(n) => Some(n)
    case Nodes(ids) => if ids == [] then Some(0) else None
  }

  datatype Option<T> = None | Some(value: T)

  type Bucket = map<string, Value>

  /** A tree bucket: its own entries and the dictionary of node buckets. */
  datatype TreeBucket = TreeBucket(entries: Bucket, nodeMemory: map<string, Bucket>)

  /** The whole store: the global bucket and the tree buckets. */
  datatype Store = Store(base: Bucket, trees: map<string, TreeBucket>)

  const EmptyStore: Store := Store(map[], map[])

  /** What a tree bucket looks like when it is first created. */
  const FreshTreeBucket: TreeBucket := TreeBucket(map["openNodes" := Nodes([])], map[])

  /** The bucket a pair of optional scopes addresses; "" is a falsy (omitted) scope. */
  datatype Scope = Global | TreeScope(tree: string) | NodeScope(tree: string, node: string)

  function ScopeOf(treeScope: string, nodeScope: string): Scope {
    if treeScope == "" then Global
    else if nodeScope == "" then TreeScope(treeScope)
    else NodeScope(treeScope, nodeScope)
  }

  /** The tree bucket of `treeScope`, created if missing. */
  function TouchTree(s: Store, treeScope: string): (r: Store)
    ensures treeScope in r.trees
    ensures r.base == s.base
    ensures treeScope in s.trees ==> r == s
    ensures treeScope !in s.trees ==> r.trees == s.trees[treeScope := FreshTreeBucket]
  {
    if treeScope in s.trees then s
    else s.(trees := s.trees[treeScope := FreshTreeBucket])
  }

  /** The node bucket of `nodeScope` inside an existing tree bucket, created if missing. */
  function TouchNode(s: Store, treeScope: string, nodeScope: string): (r: Store)
    requires treeScope in s.trees
    ensures treeScope in r.trees && nodeScope in r.trees[treeScope].nodeMemory
    ensures r.base == s.base
    ensures r.trees[treeScope].entries == s.trees[treeScope].entries
  {
    var tb := s.trees[treeScope];
    if nodeScope in tb.nodeMemory then s
    else s.(trees := s.trees[treeScope := tb.(nodeMemory := tb.nodeMemory[nodeScope := map[]])])
  }

  /** The bucket creation that every get and set performs before it reads or writes. */
  function Touch(s: Store, treeScope: string, nodeScope: string): Store {
    if treeScope == "" then s
    else
      var s1 := TouchTree(s, treeScope);
      if nodeScope == "" then s1 else TouchNode(s1, treeScope, nodeScope)
  }

  /** The bucket that a scope names in a store; empty when it does not exist. */
  function BucketOf(s: Store, scope: Scope): Bucket {
    match scope
    case Global => s.base
    case TreeScope(t) => if t in s.trees then s.trees[t].entries else map[]
    case NodeScope(t, n) =>
      if t in s.trees && n in s.trees[t].nodeMemory then s.trees[t].nodeMemory[n] else map[]
  }

  /** The same store with one bucket replaced (the bucket's tree record must exist). */
  function WithBucket(s: Store, scope: Scope, b: Bucket): Store
    requires scope.TreeScope? ==> scope.tree in s.trees
    requires scope.NodeScope? ==> scope.tree in s.trees
  {
    match scope
    case Global => s.(base := b)
    case TreeScope(t) => s.(trees := s.trees[t := s.trees[t].(entries := b)])
    case NodeScope(t, n) =>
      s.(trees := s.trees[t := s.trees[t].(nodeMemory := s.trees[t].nodeMemory[n := b])])
  }

  /** The bucket a scope names as a read sees it: missing buckets read as freshly created ones. */
  function View(s: Store, scope: Scope): Bucket {
    match scope
    case Global => s.base
    case TreeScope(t) => if t in s.trees then s.trees[t].entries else FreshTreeBucket.entries
    case NodeScope(t, n) =>
      if t in s.trees && n in s.trees[t].nodeMemory then s.trees[t].nodeMemory[n] else map[]
  }

  /** The entry `key` of the bucket `scope` as a read sees it; `undefined` when absent. */
  function Lookup(s: Store, scope: Scope, key: string): Value {
    var b := View(s, scope);
    if key in b then b[key] else Undefined
  }

  /** The value `get(key, treeScope, nodeScope)` returns. */
  function Read(s: Store, key: string, treeScope: string, nodeScope: string): Value {
    Lookup(s, ScopeOf(treeScope, nodeScope), key)
  }

  /** The store after `set(key, value, treeScope, nodeScope)`. */
  function Write(s: Store, key: string, value: Value, treeScope: string, nodeScope: string): Store {
    var s1 := Touch(s, treeScope, nodeScope);
    var scope := ScopeOf(treeScope, nodeScope);
    WithBucket(s1, scope, BucketOf(s1, scope)[key := value])
  }

  /** The blackboard object. Its two dictionaries are updated in place. */
  class Blackboard {
    var baseMemory: Bucket
    var treeMemory: map<string, TreeBucket>

    function Model(): Store
      reads this
    {
      Store(baseMemory, treeMemory)
    }

    constructor ()
      ensures Model() == EmptyStore
    {
      baseMemory := map[];
      treeMemory := map[];
    }

    /** `_getTreeMemory`: the tree bucket, created with `openNodes = []` if missing. */
    method GetTreeMemory(treeScope: string) returns (memory: TreeBucket)
      modifies this
      ensures Model() == TouchTree(old(Model()), treeScope)
      ensures memory == treeMemory[treeScope]
    {
      if treeScope !in treeMemory {
        treeMemory := treeMemory[treeScope := FreshTreeBucket];
      }
      memory := treeMemory[treeScope];
    }

    /** `_getNodeMemory`: the node bucket inside an existing tree bucket, created if missing. */
    method GetNodeMemory(treeScope: string, nodeScope: string) returns (memory: Bucket)
      requires treeScope in treeMemory
      modifies this
      ensures Model() == TouchNode(old(Model()), treeScope, nodeScope)
      ensures memory == treeMemory[treeScope].nodeMemory[nodeScope]
    {
      var tb := treeMemory[treeScope];
      if nodeScope !in tb.nodeMemory {
        treeMemory := treeMemory[treeScope := tb.(nodeMemory := tb.nodeMemory[nodeScope := map[]])];
      }
      memory := treeMemory[treeScope].nodeMemory[nodeScope];
    }

    /** `_getMemory`: resolves the scopes, creating the buckets on the way. */
    method GetMemory(treeScope: string, nodeScope: string) returns (scope: Scope)
      modifies this
      ensures scope == ScopeOf(treeScope, nodeScope)
      ensures Model() == Touch(old(Model()), treeScope, nodeScope)
    {
      scope := Global;
      if treeScope != "" {
        var _ := GetTreeMemory(treeScope);
        scope := TreeScope(treeScope);
        if nodeScope != "" {
          var _ := GetNodeMemory(treeScope, nodeScope);
          scope := NodeScope(treeScope, nodeScope);
        }
      }
    }

    method Set(key: string, value: Value, treeScope: string, nodeScope: string)
      modifies this
      ensures Model() == Write(old(Model()), key, value, treeScope, nodeScope)
    {
      var scope := GetMemory(treeScope, nodeScope);
      var b := BucketOf(Model(), scope)[key := value];
      match scope
      case Global => baseMemory := b;
      case TreeScope(t) => treeMemory := treeMemory[t := treeMemory[t].(entries := b)];
      case NodeScope(t, n) =>
        treeMemory := treeMemory[t := treeMemory[t].(nodeMemory := treeMemory[t].nodeMemory[n := b])];
    }

    method Get(key: string, treeScope: string, nodeScope: string) returns (value: Value)
      modifies this
      ensures value == Read(old(Model()), key, treeScope, nodeScope)
      ensures Model() == Touch(old(Model()), treeScope, nodeScope)
    {
      var scope := GetMemory(treeScope, nodeScope);
      var b := BucketOf(Model(), scope);
      value := if key in b then b[key] else Undefined;
    }
  }

  /** After `set(k, v, t, n)`, `get(k, t, n)` returns `v`. */
  lemma ReadAfterWrite(s: Store, key: string, value: Value, treeScope: string, nodeScope: string)
    ensures Read(Write(s, key, value, treeScope, nodeScope), key, treeScope, nodeScope) == value
  {
  }

  /** A write changes no other key of its bucket and nothing in any other bucket. */
  lemma WriteIsolation(s: Store, key: string, value: Value, treeScope: string, nodeScope: string,
                       key': string, treeScope': string, nodeScope': string)
    requires key' != key || ScopeOf(treeScope', nodeScope') != ScopeOf(treeScope, nodeScope)
    ensures Read(Write(s, key, value, treeScope, nodeScope), key', treeScope', nodeScope')
         == Read(s, key', treeScope', nodeScope')
  {
    ViewOfWrite(s, key, value, treeScope, nodeScope, ScopeOf(treeScope', nodeScope'));
  }

  /** How a write changes the view of every bucket: only its own bucket gains the key. */
  lemma ViewOfWrite(s: Store, key: string, value: Value, treeScope: string, nodeScope: string, scope: Scope)
    ensures View(Write(s, key, value, treeScope, nodeScope), scope)
         == if scope == ScopeOf(treeScope, nodeScope) then View(s, scope)[key := value] else View(s, scope)
  {
    var s1 := Touch(s, treeScope, nodeScope);
    ViewOfTouch(s, treeScope, nodeScope, scope);
    ViewOfTouch(s, treeScope, nodeScope, ScopeOf(treeScope, nodeScope));
    assert BucketOf(s1, ScopeOf(treeScope, nodeScope)) == View(s1, ScopeOf(treeScope, nodeScope));
  }

  /** One entry after a write: the written one holds the new value, every other one is unchanged. */
  lemma LookupAfterWrite(s: Store, key: string, value: Value, treeScope: string, nodeScope: string,
                         scope: Scope, key': string)
    ensures Lookup(Write(s, key, value, treeScope, nodeScope), scope, key')
         == if scope == ScopeOf(treeScope, nodeScope) && key' == key then value else Lookup(s, scope, key')
  {
    ViewOfWrite(s, key, value, treeScope, nodeScope, scope);
  }

  /** One entry after creating buckets: unchanged. */
  lemma LookupAfterTouch(s: Store, treeScope: string, nodeScope: string, scope: Scope, key: string)
    ensures Lookup(Touch(s, treeScope, nodeScope), scope, key) == Lookup(s, scope, key)
  {
    ViewOfTouch(s, treeScope, nodeScope, scope);
  }

  lemma ViewOfTouch(s: Store, treeScope: string, nodeScope: string, scope: Scope)
    ensures View(Touch(s, treeScope, nodeScope), scope) == View(s, scope)
  {
  }

  /** `WriteIsolation` for every other key and scope at once. */
  lemma WriteKeepsOthers(s: Store, key: string, value: Value, treeScope: string, nodeScope: string)
    ensures forall key', treeScope', nodeScope' ::
      (key' != key || ScopeOf(treeScope', nodeScope') != ScopeOf(treeScope, nodeScope)) ==>
      Read(Write(s, key, value, treeScope, nodeScope), key', treeScope', nodeScope') == Read(s, key', treeScope', nodeScope')
  {
    forall key', treeScope', nodeScope' |
      key' != key || ScopeOf(treeScope', nodeScope') != ScopeOf(treeScope, nodeScope)
      ensures Read(Write(s, key, value, treeScope, nodeScope), key', treeScope', nodeScope') == Read(s, key', treeScope', nodeScope')
    {
      WriteIsolation(s, key, value, treeScope, nodeScope, key', treeScope', nodeScope');
    }
  }

  /** `ReadThroughTouch` for every key and scope at once. */
  lemma TouchKeepsReads(s: Store, treeScope: string, nodeScope: string)
    ensures forall key, treeScope', nodeScope' ::
      Read(Touch(s, treeScope, nodeScope), key, treeScope', nodeScope') == Read(s, key, treeScope', nodeScope')
  {
    forall key, treeScope', nodeScope'
      ensures Read(Touch(s, treeScope, nodeScope), key, treeScope', nodeScope') == Read(s, key, treeScope', nodeScope')
    {
      ReadThroughTouch(s, treeScope, nodeScope, key, treeScope', nodeScope');
    }
  }

  /** Creating buckets never changes what any read returns. */
  lemma ReadThroughTouch(s: Store, treeScope: string, nodeScope: string,
                         key: string, treeScope': string, nodeScope': string)
    ensures Read(Touch(s, treeScope, nodeScope), key, treeScope', nodeScope') == Read(s, key, treeScope', nodeScope')
  {
    ViewOfTouch(s, treeScope, nodeScope, ScopeOf(treeScope', nodeScope'));
  }

  /**
   * Reads never fail: in a tree that has no bucket yet, every key reads `undefined`
   * except `openNodes` at tree scope, which reads the fresh bucket's empty array;
   * and the read leaves the tree and node buckets in place.
   */
  lemma ReadOfMissingTree(s: Store, key: string, treeScope: TreeId, nodeScope: string)
    requires treeScope !in s.trees
    ensures Read(s, key, treeScope, nodeScope)
         == if nodeScope == "" && key == "openNodes" then Nodes([]) else Undefined
    ensures var s' := Touch(s, treeScope, nodeScope);
            treeScope in s'.trees && s'.trees[treeScope].entries == FreshTreeBucket.entries
            && (nodeScope != "" ==> s'.trees[treeScope].nodeMemory == map[nodeScope := map[]])
  {
  }

  /** A falsy tree scope addresses the global bucket whatever the node scope. */
  lemma FalsyTreeScopeIsGlobal(s: Store, key: string, value: Value, nodeScope: string)
    ensures Read(s, key, "", nodeScope) == if key in s.base then s.base[key] else Undefined
    ensures Write(s, key, value, "", nodeScope) == s.(base := s.base[key := value])
  {
  }
}
