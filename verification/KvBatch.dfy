/** Batches of writes and what applying one in order means. */
module KvBatch {
  import opened ChainWorld

  type Key = seq<Byte>
  type Value = seq<Byte>
  type Namespace = string
  type Tree = map<Key, Value>
  type Store = map<Namespace, Tree>

  datatype WriteOp =
    | Put(ns: Namespace, key: Key, value: Value)
    | Delete(ns: Namespace, key: Key)

  function ApplyOp(t: Tree, op: WriteOp): Tree {
    match op
    case Put(_, k, v) => t[k := v]
    case Delete(_, k) => t - {k}
  }

  /** The ops applied to one tree, one after another. */
  function ApplyOps(t: Tree, ops: seq<WriteOp>): Tree
    decreases |ops|
  {
    if ops == [] then t else ApplyOp(ApplyOps(t, ops[..|ops| - 1]), ops[|ops| - 1])
  }

  /** The ops naming one namespace, in the batch's order. */
  function OpsFor(ops: seq<WriteOp>, ns: Namespace): (r: seq<WriteOp>)
    ensures forall op :: op in r <==> op in ops && op.ns == ns
    decreases |ops|
  {
    if ops == [] then []
    else
      var last := ops[|ops| - 1];
      assert ops == ops[..|ops| - 1] + [last];
      OpsFor(ops[..|ops| - 1], ns) + if last.ns == ns then [last] else []
  }

  /** The whole batch applied to the whole store, one op after another. */
  ghost function ApplyBatch(s: Store, ops: seq<WriteOp>): Store
    requires forall op :: op in ops ==> op.ns in s
    ensures ApplyBatch(s, ops).Keys == s.Keys
    decreases |ops|
  {
    if ops == [] then s
    else
      var last := ops[|ops| - 1];
      var before := ApplyBatch(s, ops[..|ops| - 1]);
      before[last.ns := ApplyOp(before[last.ns], last)]
  }

  lemma {:induction false} BatchIsPerNamespace(s: Store, ops: seq<WriteOp>, ns: Namespace)
    requires forall op :: op in ops ==> op.ns in s
    requires ns in s
    ensures ApplyBatch(s, ops)[ns] == ApplyOps(s[ns], OpsFor(ops, ns))
    decreases |ops|
  {
    if ops != [] {
      var last := ops[|ops| - 1];
      BatchIsPerNamespace(s, ops[..|ops| - 1], ns);
      if last.ns == ns {
        OpsGrow(s[ns], OpsFor(ops[..|ops| - 1], ns), last);
      } else {
        assert OpsFor(ops, ns) == OpsFor(ops[..|ops| - 1], ns);
      }
    }
  }

  lemma OpsGrow(t: Tree, ops: seq<WriteOp>, op: WriteOp)
    ensures ApplyOps(t, ops + [op]) == ApplyOp(ApplyOps(t, ops), op)
  {
  }

  lemma OpsForGrows(ops: seq<WriteOp>, op: WriteOp)
    ensures forall ns :: OpsFor(ops + [op], ns) == if op.ns == ns then OpsFor(ops, ns) + [op] else OpsFor(ops, ns)
  {
  }

  /** Two stores agreeing namespace by namespace with a batch are that batch's result. */
  lemma BatchFromNamespaces(s: Store, ops: seq<WriteOp>, t: Store)
    requires forall op :: op in ops ==> op.ns in s
    requires t.Keys == s.Keys
    requires forall ns :: ns in s ==> t[ns] == ApplyOps(s[ns], OpsFor(ops, ns))
    ensures t == ApplyBatch(s, ops)
  {
    hide ApplyBatch, ApplyOps, OpsFor;
    var applied := ApplyBatch(s, ops);
    forall ns | ns in s ensures t[ns] == applied[ns] {
      BatchIsPerNamespace(s, ops, ns);
    }
  }

  // ---- what a batch deletes and puts

  function DeletedKeys(ops: seq<WriteOp>): set<Key> {
    set op | op in ops && op.Delete? :: op.key
  }

  function PutKeys(ops: seq<WriteOp>): set<Key> {
    set op | op in ops && op.Put? :: op.key
  }

  /** The last value put under each key. */
  function Puts(ops: seq<WriteOp>): Tree
    decreases |ops|
  {
    if ops == [] then map[]
    else
      var last := ops[|ops| - 1];
      var before := Puts(ops[..|ops| - 1]);
      if last.Put? then before[last.key := last.value] else before
  }

  lemma {:induction false} PutsHasPutKeys(ops: seq<WriteOp>)
    ensures Puts(ops).Keys == PutKeys(ops)
    decreases |ops|
  {
    if ops != [] {
      PutsHasPutKeys(ops[..|ops| - 1]);
      assert ops == ops[..|ops| - 1] + [ops[|ops| - 1]];
      KeysAtLastOp(ops[..|ops| - 1], ops[|ops| - 1]);
    }
  }

  /** The sets a batch deletes and puts, taken apart at its last op. */
  lemma KeysAtLastOp(init: seq<WriteOp>, last: WriteOp)
    ensures DeletedKeys(init + [last]) ==
            if last.Delete? then DeletedKeys(init) + {last.key} else DeletedKeys(init)
    ensures PutKeys(init + [last]) == if last.Put? then PutKeys(init) + {last.key} else PutKeys(init)
  {
  }

  /** Deleting `gone`, then laying `puts` over the rest. */
  function DeleteThenPut(t: Tree, gone: set<Key>, puts: Tree): Tree {
    (t - gone) + puts
  }

  lemma DeleteCommutes(t: Tree, gone: set<Key>, puts: Tree, op: WriteOp)
    requires op.Delete? ==> op.key !in puts
    requires op.Put? ==> op.key !in gone
    ensures op.Delete? ==> ApplyOp(DeleteThenPut(t, gone, puts), op) == DeleteThenPut(t, gone + {op.key}, puts)
    ensures op.Put? ==> ApplyOp(DeleteThenPut(t, gone, puts), op) == DeleteThenPut(t, gone, puts[op.key := op.value])
  {
  }

  /** With no key both deleted and put, deleting first and then putting the last
      values is applying the ops in order. */
  lemma {:induction false} DeletesFirst(t: Tree, ops: seq<WriteOp>)
    requires DeletedKeys(ops) !! PutKeys(ops)
    ensures ApplyOps(t, ops) == DeleteThenPut(t, DeletedKeys(ops), Puts(ops))
    decreases |ops|
  {
    hide DeletedKeys, PutKeys, DeleteThenPut, ApplyOp;
    if ops == [] {
      NothingToDo(t);
    } else {
      var init, last := ops[..|ops| - 1], ops[|ops| - 1];
      assert ops == init + [last];
      KeysAtLastOp(init, last);
      DeletesFirst(t, init);
      PutsHasPutKeys(init);
      DeleteCommutes(t, DeletedKeys(init), Puts(init), last);
    }
  }

  lemma NothingToDo(t: Tree)
    ensures DeleteThenPut(t, DeletedKeys([]), Puts([])) == t
    ensures t - DeletedKeys([]) == t && Puts([]) == map[]
  {
  }

  /** What one more op adds to the deletes and to the puts. */
  lemma SplitGrows(t: Tree, ops: seq<WriteOp>, op: WriteOp)
    ensures t - DeletedKeys(ops + [op]) ==
            if op.Delete? then t - DeletedKeys(ops) - {op.key} else t - DeletedKeys(ops)
    ensures Puts(ops + [op]) == if op.Put? then Puts(ops)[op.key := op.value] else Puts(ops)
  {
  }
}
