/** One commit's transaction: plain writes in arrival order, and the sorted
    append a walk-ordered namespace gets instead. */
module WalkCommit {
  import opened Wrappers
  import opened ByteOrder
  import opened KvBatch
  import opened SortedKeys

  datatype KeyOrder = WalkOrdered | Scattered | Meta

  datatype CommitError =
    | NamespaceNotFound(ns: Namespace)
    | OutOfOrderAppend(ns: Namespace)
    | DeferredNamespaceDelete(ns: Namespace)
    | EntryTooLarge
    | WriteFailed

  /** A write transaction: private copies of the trees until it commits. */
  class Transaction {
    var trees: Store

    constructor (env: Store)
      ensures trees == env
    {
      trees := env;
    }

    method Put(ns: Namespace, key: Key, value: Value)
      requires ns in trees
      modifies this
      ensures OnlyTouches(old(trees), trees, ns)
      ensures trees[ns] == old(trees)[ns][key := value]
    {
      trees := trees[ns := trees[ns][key := value]];
    }

    method Del(ns: Namespace, key: Key)
      requires ns in trees
      modifies this
      ensures OnlyTouches(old(trees), trees, ns)
      ensures trees[ns] == old(trees)[ns] - {key}
    {
      trees := trees[ns := trees[ns] - {key}];
    }

    /** A put with the append flag: refused unless the key is past the last one. */
    method Append(ns: Namespace, key: Key, value: Value) returns (ok: bool)
      requires ns in trees
      modifies this
      ensures ok <==> forall x :: x in old(trees)[ns] ==> Less(x, key)
      ensures OnlyTouches(old(trees), trees, ns)
      ensures trees[ns] == if ok then old(trees)[ns][key := value] else old(trees)[ns]
    {
      ok := forall x :: x in trees[ns] ==> Less(x, key);
      if ok {
        trees := trees[ns := trees[ns][key := value]];
      }
    }
  }

  /** The two stores differ in one namespace at most. */
  ghost predicate OnlyTouches(before: Store, after: Store, ns: Namespace) {
    && ns in before
    && after.Keys == before.Keys
    && forall n :: n in before && n != ns ==> after[n] == before[n]
  }

  /** A key the ops both delete and put: reordering them would not be sequential
      application. */
  predicate Conflicts(ops: seq<WriteOp>) {
    !(DeletedKeys(ops) !! PutKeys(ops))
  }

  /** Some put key does not lie past every key left after the deletes. */
  ghost predicate Misordered(t: Tree, ops: seq<WriteOp>) {
    && !Conflicts(ops)
    && exists k, x :: k in PutKeys(ops) && x in t.Keys - DeletedKeys(ops) && !Less(x, k)
  }

  /** Being misordered is decided by two keys alone: the smallest put and the
      largest one left after the deletes. */
  lemma MisorderedAtTheSeam(t: Tree, ops: seq<WriteOp>, least: Key, greatest: Key)
    requires !Conflicts(ops)
    requires IsLeast(least, PutKeys(ops))
    requires IsGreatest(greatest, t.Keys - DeletedKeys(ops))
    ensures Misordered(t, ops) <==> !Less(greatest, least)
  {
    hide Less, PutKeys, DeletedKeys, Conflicts;
    var left := t.Keys - DeletedKeys(ops);
    if Less(greatest, least) {
      forall k, x | k in PutKeys(ops) && x in left ensures Less(x, k) {
        if x != greatest {
          LessIsTransitive(x, greatest, least);
        }
        if k != least {
          LessIsTransitive(x, least, k);
        }
      }
    }
  }

  lemma NothingToOrder(t: Tree, ops: seq<WriteOp>)
    requires PutKeys(ops) == {} || t.Keys <= DeletedKeys(ops)
    ensures !Misordered(t, ops)
  {
  }

  method ApplyPlain(txn: Transaction, op: WriteOp) returns (r: Result<(), CommitError>)
    modifies txn
    ensures r.Ok? <==> op.ns in old(txn.trees)
    ensures r.Ok? ==> OnlyTouches(old(txn.trees), txn.trees, op.ns)
    ensures r.Ok? ==> txn.trees[op.ns] == ApplyOp(old(txn.trees)[op.ns], op)
    ensures r.Err? ==> txn.trees == old(txn.trees) && r.error == NamespaceNotFound(op.ns)
  {
    if op.ns !in txn.trees {
      return Err(NamespaceNotFound(op.ns));
    }
    match op {
      case Put(ns, key, value) => txn.Put(ns, key, value);
      case Delete(ns, key) => txn.Del(ns, key);
    }
    return Ok(());
  }

  /** The conflicting case: the ops one after another. */
  method ApplyInOrder(txn: Transaction, ns: Namespace, ops: seq<WriteOp>)
    requires ns in txn.trees
    requires forall op :: op in ops ==> op.ns == ns
    modifies txn
    ensures OnlyTouches(old(txn.trees), txn.trees, ns)
    ensures txn.trees[ns] == ApplyOps(old(txn.trees)[ns], ops)
  {
    hide ApplyOp;
    var i := 0;
    while i < |ops|
      invariant 0 <= i <= |ops|
      invariant OnlyTouches(old(txn.trees), txn.trees, ns)
      invariant txn.trees[ns] == ApplyOps(old(txn.trees)[ns], ops[..i])
    {
      OpsGrow(old(txn.trees)[ns], ops[..i], ops[i]);
      assert ops[..i + 1] == ops[..i] + [ops[i]];
      assert ops[i] in ops;
      var _ := ApplyPlain(txn, ops[i]);
      i := i + 1;
    }
    assert ops[..|ops|] == ops;
  }

  /** The deletes applied as they come; the puts gathered, last value kept. */
  method SplitOps(txn: Transaction, ns: Namespace, ops: seq<WriteOp>) returns (puts: Tree)
    requires ns in txn.trees
    modifies txn
    ensures puts == Puts(ops)
    ensures OnlyTouches(old(txn.trees), txn.trees, ns)
    ensures txn.trees[ns] == old(txn.trees)[ns] - DeletedKeys(ops)
  {
    hide DeletedKeys, Puts;
    puts := map[];
    NothingToDo(txn.trees[ns]);
    var i := 0;
    while i < |ops|
      invariant 0 <= i <= |ops|
      invariant puts == Puts(ops[..i])
      invariant OnlyTouches(old(txn.trees), txn.trees, ns)
      invariant txn.trees[ns] == old(txn.trees)[ns] - DeletedKeys(ops[..i])
    {
      assert ops[..i + 1] == ops[..i] + [ops[i]];
      SplitGrows(old(txn.trees)[ns], ops[..i], ops[i]);
      match ops[i] {
        case Delete(_, key) => txn.Del(ns, key);
        case Put(_, key, value) => puts := puts[key := value];
      }
      i := i + 1;
    }
    assert ops[..|ops|] == ops;
  }

  /** Every key of `low` is below every key of `high`. */
  ghost predicate Below(low: set<Key>, high: set<Key>) {
    forall x, k :: x in low && k in high ==> Less(x, k)
  }

  lemma LeastDecides(low: set<Key>, high: set<Key>, k: Key)
    requires IsLeast(k, high)
    ensures Below(low, high) <==> forall x :: x in low ==> Less(x, k)
  {
    hide Less;
    if forall x :: x in low ==> Less(x, k) {
      forall x, j | x in low && j in high ensures Less(x, j) {
        if j != k {
          LessIsTransitive(x, k, j);
        }
      }
    }
  }

  /** The tree with the puts no longer pending laid over it. */
  ghost function Appended(before: Tree, puts: Tree, pending: set<Key>): Tree {
    before + (puts - pending)
  }

  lemma AppendedStep(before: Tree, puts: Tree, pending: set<Key>, k: Key)
    requires k in pending && pending <= puts.Keys
    ensures Appended(before, puts, pending)[k := puts[k]] == Appended(before, puts, pending - {k})
  {
  }

  lemma AppendedEnds(before: Tree, puts: Tree)
    ensures Appended(before, puts, puts.Keys) == before
    ensures Appended(before, puts, {}) == before + puts
  {
  }

  /** Appending in key order can only be refused at the first key. */
  lemma AppendDecided(before: Tree, puts: Tree, pending: set<Key>, k: Key)
    requires pending <= puts.Keys && IsLeast(k, pending)
    requires Below(puts.Keys - pending, pending)
    requires pending != puts.Keys ==> Below(before.Keys, puts.Keys)
    ensures Below(before.Keys, puts.Keys) <==> forall x :: x in Appended(before, puts, pending) ==> Less(x, k)
    ensures Below(puts.Keys - (pending - {k}), pending - {k})
  {
    hide Less;
    if pending == puts.Keys {
      LeastDecides(before.Keys, puts.Keys, k);
    }
  }

  method AppendSorted(txn: Transaction, ns: Namespace, puts: Tree) returns (ok: bool)
    requires ns in txn.trees
    modifies txn
    ensures ok <==> Below(old(txn.trees)[ns].Keys, puts.Keys)
    ensures OnlyTouches(old(txn.trees), txn.trees, ns)
    ensures ok ==> txn.trees[ns] == old(txn.trees)[ns] + puts
  {
    hide Less, Below, Appended;
    ghost var before := txn.trees[ns];
    var pending := puts.Keys;
    AppendedEnds(before, puts);
    NothingBelow(puts.Keys, before.Keys);
    while pending != {}
      invariant pending <= puts.Keys
      invariant OnlyTouches(old(txn.trees), txn.trees, ns)
      invariant txn.trees[ns] == Appended(before, puts, pending)
      invariant Below(puts.Keys - pending, pending)
      invariant pending != puts.Keys ==> Below(before.Keys, puts.Keys)
      decreases |pending|
    {
      HasLeast(pending);
      var k :| IsLeast(k, pending);
      AppendDecided(before, puts, pending, k);
      AppendedStep(before, puts, pending, k);
      ok := txn.Append(ns, k, puts[k]);
      if !ok {
        return;
      }
      pending := pending - {k};
    }
    ok := true;
  }

  lemma NothingBelow(keys: set<Key>, any: set<Key>)
    ensures Below(keys - keys, keys)
    ensures keys == {} ==> Below(any, keys)
  {
  }

  /** One walk-ordered namespace's ops of one commit. */
  method ApplyWalkOrdered(txn: Transaction, ns: Namespace, ops: seq<WriteOp>)
    returns (r: Result<(), CommitError>)
    requires ns in txn.trees
    requires forall op :: op in ops ==> op.ns == ns
    modifies txn
    ensures OnlyTouches(old(txn.trees), txn.trees, ns)
    ensures r.Ok? ==> txn.trees[ns] == ApplyOps(old(txn.trees)[ns], ops)
    ensures r.Err? <==> Misordered(old(txn.trees)[ns], ops)
    ensures r.Err? ==> r.error == OutOfOrderAppend(ns)
  {
    hide Less, Puts, PutKeys, DeletedKeys, ApplyOps, Below, Misordered;
    ghost var before := txn.trees[ns];
    MisorderedIsNotBelow(before, ops);
    if Conflicts(ops) {
      ApplyInOrder(txn, ns, ops);
      return Ok(());
    }
    DeletesFirst(before, ops);
    PutsHasPutKeys(ops);
    var puts := SplitOps(txn, ns, ops);
    var ok := AppendSorted(txn, ns, puts);
    if ok {
      return Ok(());
    }
    return Err(OutOfOrderAppend(ns));
  }

  lemma MisorderedIsNotBelow(t: Tree, ops: seq<WriteOp>)
    ensures Misordered(t, ops) <==> !Conflicts(ops) && !Below((t - DeletedKeys(ops)).Keys, PutKeys(ops))
  {
  }

  // ---- the whole batch

  /** What `walk` holds once the batch is split: each walk-ordered namespace's own
      ops, in the batch's order. */
  ghost predicate Grouped(walk: map<Namespace, seq<WriteOp>>, orders: map<Namespace, KeyOrder>, ops: seq<WriteOp>) {
    && (forall ns :: ns in walk ==> ns in orders && orders[ns] == WalkOrdered && walk[ns] == OpsFor(ops, ns))
    && forall ns :: ns in orders && orders[ns] == WalkOrdered && ns !in walk ==> OpsFor(ops, ns) == []
  }

  /** Everything but the walk-ordered namespaces has had its ops applied. */
  ghost predicate PlainDone(before: Store, now: Store, orders: map<Namespace, KeyOrder>, ops: seq<WriteOp>) {
    && now.Keys == before.Keys
    && forall ns :: ns in before ==>
      now[ns] == (if ns in orders && orders[ns] == WalkOrdered then before[ns]
                  else ApplyOps(before[ns], OpsFor(ops, ns)))
  }

  method SplitBatch(txn: Transaction, orders: map<Namespace, KeyOrder>, ops: seq<WriteOp>)
    returns (r: Result<map<Namespace, seq<WriteOp>>, CommitError>)
    requires orders.Keys == txn.trees.Keys
    modifies txn
    ensures r.Ok? <==> forall op :: op in ops ==> op.ns in orders
    ensures r.Ok? ==> Grouped(r.value, orders, ops) && PlainDone(old(txn.trees), txn.trees, orders, ops)
    ensures r.Err? ==> r.error.NamespaceNotFound? && r.error.ns !in orders
    ensures r.Err? ==> exists op :: op in ops && op.ns == r.error.ns
  {
    hide ApplyOps, OpsFor, ApplyOp, Grouped;
    var walk: map<Namespace, seq<WriteOp>> := map[];
    var i := 0;
    NothingSplit(txn.trees, orders);
    while i < |ops|
      invariant 0 <= i <= |ops|
      invariant forall j :: 0 <= j < i ==> ops[j].ns in orders
      invariant Grouped(walk, orders, ops[..i])
      invariant PlainDone(old(txn.trees), txn.trees, orders, ops[..i])
    {
      var op := ops[i];
      assert ops[..i + 1] == ops[..i] + [op];
      ghost var was := txn.trees;
      if op.ns in orders && orders[op.ns] == WalkOrdered {
        GroupStep(walk, orders, ops[..i], op);
        PlainSkips(old(txn.trees), was, orders, ops[..i], op);
        walk := walk[op.ns := (if op.ns in walk then walk[op.ns] else []) + [op]];
      } else {
        var applied := ApplyPlain(txn, op);
        if applied.Err? {
          return Err(applied.error);
        }
        GroupSkips(walk, orders, ops[..i], op);
        PlainStep(old(txn.trees), was, txn.trees, orders, ops[..i], op);
      }
      i := i + 1;
    }
    assert ops[..|ops|] == ops;
    return Ok(walk);
  }

  lemma NothingSplit(before: Store, orders: map<Namespace, KeyOrder>)
    ensures Grouped(map[], orders, []) && PlainDone(before, before, orders, [])
  {
  }

  lemma GroupStep(walk: map<Namespace, seq<WriteOp>>, orders: map<Namespace, KeyOrder>, ops: seq<WriteOp>, op: WriteOp)
    requires Grouped(walk, orders, ops)
    requires op.ns in orders && orders[op.ns] == WalkOrdered
    ensures Grouped(walk[op.ns := (if op.ns in walk then walk[op.ns] else []) + [op]], orders, ops + [op])
  {
    hide OpsFor;
    OpsForGrows(ops, op);
  }

  lemma GroupSkips(walk: map<Namespace, seq<WriteOp>>, orders: map<Namespace, KeyOrder>, ops: seq<WriteOp>, op: WriteOp)
    requires Grouped(walk, orders, ops)
    requires op.ns in orders ==> orders[op.ns] != WalkOrdered
    ensures Grouped(walk, orders, ops + [op])
  {
  }

  lemma PlainSkips(before: Store, now: Store, orders: map<Namespace, KeyOrder>, ops: seq<WriteOp>, op: WriteOp)
    requires PlainDone(before, now, orders, ops)
    requires op.ns in orders && orders[op.ns] == WalkOrdered
    ensures PlainDone(before, now, orders, ops + [op])
  {
    hide OpsFor, ApplyOps;
    OpsForGrows(ops, op);
  }

  lemma PlainStep(before: Store, was: Store, now: Store, orders: map<Namespace, KeyOrder>, ops: seq<WriteOp>,
      op: WriteOp)
    requires PlainDone(before, was, orders, ops)
    requires op.ns in orders ==> orders[op.ns] != WalkOrdered
    requires OnlyTouches(was, now, op.ns) && now[op.ns] == ApplyOp(was[op.ns], op)
    ensures PlainDone(before, now, orders, ops + [op])
  {
    hide OpsFor, ApplyOps, ApplyOp;
    OpsForGrows(ops, op);
    OpsGrow(before[op.ns], OpsFor(ops, op.ns), op);
  }

  /** The condition a whole batch commits under, apart from environment faults. */
  ghost predicate Committable(env: Store, orders: map<Namespace, KeyOrder>, ops: seq<WriteOp>)
    requires orders.Keys == env.Keys
  {
    && (forall op :: op in ops ==> op.ns in orders)
    && forall ns :: ns in orders && orders[ns] == WalkOrdered ==> !Misordered(env[ns], OpsFor(ops, ns))
  }

  /** The walk-ordered namespaces still pending are untouched, every other one is done. */
  ghost predicate WalkDone(before: Store, now: Store, ops: seq<WriteOp>, pending: set<Namespace>) {
    && now.Keys == before.Keys
    && forall ns :: ns in before ==>
      now[ns] == (if ns in pending then before[ns] else ApplyOps(before[ns], OpsFor(ops, ns)))
  }

  lemma WalkStarts(before: Store, now: Store, orders: map<Namespace, KeyOrder>,
      walk: map<Namespace, seq<WriteOp>>, ops: seq<WriteOp>)
    requires orders.Keys == before.Keys
    requires Grouped(walk, orders, ops) && PlainDone(before, now, orders, ops)
    ensures WalkDone(before, now, ops, walk.Keys)
    ensures Ordered(before, orders, ops, walk.Keys)
  {
  }

  lemma WalkStep(before: Store, was: Store, now: Store, ops: seq<WriteOp>, pending: set<Namespace>, ns: Namespace)
    requires WalkDone(before, was, ops, pending) && ns in pending
    requires OnlyTouches(was, now, ns) && now[ns] == ApplyOps(before[ns], OpsFor(ops, ns))
    ensures WalkDone(before, now, ops, pending - {ns})
  {
  }

  /** No walk-ordered namespace outside `pending` has a misordered put. */
  ghost predicate Ordered(env: Store, orders: map<Namespace, KeyOrder>, ops: seq<WriteOp>, pending: set<Namespace>)
    requires orders.Keys == env.Keys
  {
    forall ns :: ns in orders && orders[ns] == WalkOrdered && ns !in pending ==> !Misordered(env[ns], OpsFor(ops, ns))
  }

  method AppendWalks(txn: Transaction, ghost env: Store, orders: map<Namespace, KeyOrder>,
      walk: map<Namespace, seq<WriteOp>>, ghost ops: seq<WriteOp>)
    returns (r: Result<(), CommitError>)
    requires orders.Keys == env.Keys
    requires Grouped(walk, orders, ops) && PlainDone(env, txn.trees, orders, ops)
    modifies txn
    ensures r.Ok? <==> Ordered(env, orders, ops, {})
    ensures r.Ok? ==> WalkDone(env, txn.trees, ops, {})
    ensures r.Err? ==> r.error.OutOfOrderAppend? && r.error.ns in orders && orders[r.error.ns] == WalkOrdered
    ensures r.Err? ==> Misordered(env[r.error.ns], OpsFor(ops, r.error.ns))
  {
    hide ApplyOps, OpsFor, Misordered, PlainDone;
    WalkStarts(env, txn.trees, orders, walk, ops);
    var pending := walk.Keys;
    while pending != {}
      invariant pending <= walk.Keys
      invariant WalkDone(env, txn.trees, ops, pending)
      invariant Ordered(env, orders, ops, pending)
      decreases |pending|
    {
      var ns :| ns in pending;
      ghost var was := txn.trees;
      var applied := ApplyWalkOrdered(txn, ns, walk[ns]);
      if applied.Err? {
        return Err(applied.error);
      }
      WalkStep(env, was, txn.trees, ops, pending, ns);
      pending := pending - {ns};
    }
    return Ok(());
  }

  /** A commit's transaction. It applies the whole batch, as if op by op in the
      batch's order, or it fails and the environment keeps its trees. `faulty`
      says whether the environment refuses the transaction for its own reasons. */
  method CommitDirect(env: Store, orders: map<Namespace, KeyOrder>, direct: seq<WriteOp>, faulty: bool)
    returns (r: Result<Store, CommitError>)
    requires orders.Keys == env.Keys
    ensures r.Ok? <==> !faulty && Committable(env, orders, direct)
    ensures r.Ok? ==> r.value == ApplyBatch(env, direct)
    ensures r.Err? && r.error.OutOfOrderAppend? ==>
      && r.error.ns in orders && orders[r.error.ns] == WalkOrdered
      && Misordered(env[r.error.ns], OpsFor(direct, r.error.ns))
    ensures r.Err? ==> r.error.OutOfOrderAppend? || r.error.NamespaceNotFound? || (r.error.WriteFailed? && faulty)
    ensures r.Err? && r.error.NamespaceNotFound? ==>
      r.error.ns !in orders && exists op :: op in direct && op.ns == r.error.ns
  {
    hide ApplyOps, OpsFor, Misordered, ApplyBatch, Grouped, PlainDone;
    var txn := new Transaction(env);
    var walk :- SplitBatch(txn, orders, direct);
    var _ :- AppendWalks(txn, env, orders, walk, direct);
    BatchFromNamespaces(env, direct, txn.trees);
    if faulty {
      return Err(WriteFailed);
    }
    return Ok(txn.trees);
  }
}
