/** A crash loses the batches after the state it falls back to. Committing them
    again, one by one, lands each and gives what the store held before. */
module DeferralReplay {
  import opened Wrappers
  import opened ChainWorld
  import opened KvBatch
  import opened SortedKeys
  import opened WalkCommit
  import opened SegmentLog
  import opened SegmentMerge
  import opened DeferralState
  import opened DeferralAppend
  import opened DeferralCommit
  import opened BulkDeferral

  /** The store being restored beside the state it once had: what was pending at the
      crash has the same segments in both, and both hold the same. */
  ghost predicate Shadows(base: Env, e: Env, segs: Segments, now: Env, held: Segments) {
    && held.Keys == base.manifest.Keys && now.loaded == base.loaded
    && (forall ns :: ns in held ==> ns in segs && held[ns] == segs[ns])
    && Contents(now, held) == Contents(e, segs)
  }

  // ---- a batch that was taken is taken again

  lemma EmptyIsAccepted(e: Env, orders: Orders, deferred: set<Namespace>)
    requires e.trees.Keys == orders.Keys
    ensures Accepts(e, orders, [], deferred)
  {
    forall ns | ns in orders ensures !Misordered(e.trees[ns], OpsFor([], ns)) {
      assert PutKeys([]) == {};
      NothingToOrder(e.trees[ns], []);
    }
  }

  /** Fewer namespaces defer than before, the others being scattered: the batch is
      still accepted by a store that holds the same. */
  lemma AcceptedAgain(e: Env, orders: Orders, segs: Segments, now: Env, held: Segments, ops: Batch, deferred: set<Namespace>)
    requires EnvOk(e, orders, segs) && EnvOk(now, orders, held) && held.Keys <= segs.Keys
    requires Contents(now, held) == Contents(e, segs) && Took(e, orders, segs, ops, deferred)
    ensures Accepts(now, orders, ops, held.Keys)
  {
    hide EntryOk, SegsOk, OpsFor, Puts, Writable, SortedRecords, Direct, Misordered, Merged;
    forall op | op in Direct(ops, held.Keys) ensures op.ns in orders {
      if op.ns !in deferred {
        assert op in Direct(ops, deferred);
      }
    }
    forall ns | ns in orders && orders[ns] == WalkOrdered
      ensures !Misordered(now.trees[ns], OpsFor(Direct(ops, held.Keys), ns))
    {
      assert ns !in deferred && ns !in segs && ns !in held;
      DirectPerNamespace(ops, deferred, ns);
      DirectPerNamespace(ops, held.Keys, ns);
      SameTree(e, segs, now, held, ns);
    }
  }

  lemma SameTree(e: Env, segs: Segments, now: Env, held: Segments, ns: Namespace)
    requires Contents(now, held) == Contents(e, segs) && ns in e.trees && ns in now.trees
    requires ns !in segs && ns !in held
    ensures now.trees[ns] == e.trees[ns]
  {
    hide Merged;
    assert Contents(now, held)[ns] == Contents(e, segs)[ns];
  }

  // ---- and does no harm

  lemma UpToNarrows(a: Tree, b: Tree, m: Option<Key>, n: Option<Key>)
    requires UpTo(a, n) == UpTo(b, n) && NoLater(m, n)
    ensures UpTo(a, m) == UpTo(b, m)
  {
    hide AtMost;
    forall k | AtMost(k, m) ensures (k in a <==> k in b) && (k in a ==> a[k] == b[k]) {
      AtMostWidens(k, m, n);
      assert k in UpTo(a, n) <==> k in UpTo(b, n);
      assert k in a ==> UpTo(a, n)[k] == UpTo(b, n)[k];
    }
  }

  /** A log found as committed, its load no further than it was when the batch was
      first taken, is not harmed by the batch's segment. */
  lemma HarmlessAgain(e: Env, next: Env, ss: seq<seq<Record>>, ss': seq<seq<Record>>, ops: Batch, now: Env, orders: Orders,
      held: Segments, logs: Logs, ns: Namespace)
    requires EnvOk(now, orders, held) && Holds(logs, held) && ns in held && held[ns] == ss && OpsFor(ops, ns) != []
    requires LogSteps(e, ss, ops, next, ss', ns) && NoLater(MarkOf(now, ns), MarkOf(e, ns))
    ensures HarmlessAt(now, logs, ns, SortedRecords(Puts(OpsFor(ops, ns))))
  {
    hide OpsFor, Puts, SortedRecords, Merged, UpTo, AtMost, AsTree, SegsOk, LogOf, Segment, NoLater;
    var rs := SortedRecords(Puts(OpsFor(ops, ns)));
    assert EntryOk(now, held, ns);
    assert Tail(now, logs, ns) == [];
    assert Tail(now, logs, ns) + Segment(rs) == Segment(rs);
    UpToNarrows(Merged(ss'), Merged(ss), MarkOf(now, ns), MarkOf(e, ns));
    LoadedStillIff(now.trees[ns], ss, MarkOf(now, ns), rs);
  }

  // ---- one batch

  /** The state and batches of a running restore, before the batch that led from
      state `j` to the next. */
  ghost predicate Restoring(history: seq<Env>, pasts: seq<Segments>, orders: Orders, batches: seq<Batch>, k: nat, j: nat,
      now: Env, held: Segments, logs: Logs)
  {
    && Timeline(history, pasts, orders, batches) && k <= j < |history| == |pasts| && Intact(history, k)
    && EnvOk(now, orders, held) && Holds(logs, held)
    && Shadows(history[k], history[j], pasts[j], now, held)
  }

  lemma TakenAgain(history: seq<Env>, pasts: seq<Segments>, orders: Orders, batches: seq<Batch>, k: nat, j: nat,
      now: Env, held: Segments, logs: Logs)
    requires Restoring(history, pasts, orders, batches, k, j, now, held, logs) && j + 1 < |history| <= |batches| + 1
    ensures
      var ops := batches[CountAt(history, batches, j)];
      && now.trees.Keys == orders.Keys && Accepts(now, orders, ops, held.Keys)
      && Harmless(now, logs, RoutedPuts(ops, held.Keys))
  {
    hide Timeline, Intact, EnvOk, Accepts, Contents, OpsFor, Puts, SortedRecords, HarmlessAt, Holds, LogSteps, MarkOf;
    var n := CountAt(history, batches, j);
    var ops := batches[n];
    StepsNext(history, pasts, orders, batches, j);
    TimelineAt(history, pasts, orders, batches, j);
    TreesOf(now, orders, held);
    TreesOf(history[j], orders, pasts[j]);
    if ops == [] {
      EmptyIsAccepted(now, orders, held.Keys);
    } else {
      var deferred :| Took(history[j], orders, pasts[j], ops, deferred);
      AcceptedAgain(history[j], orders, pasts[j], now, held, ops, deferred);
    }
    forall ns | ns in RoutedPuts(ops, held.Keys)
      ensures HarmlessAt(now, logs, ns, SortedRecords(RoutedPuts(ops, held.Keys)[ns]))
    {
      StillThere(history, pasts, orders, batches, k, j, now, held, logs, ns);
      HarmlessAgain(history[j], history[j + 1], pasts[j][ns], pasts[j + 1][ns], ops, now, orders, held, logs, ns);
    }
  }

  lemma TreesOf(e: Env, orders: Orders, segs: Segments)
    requires EnvOk(e, orders, segs)
    ensures e.trees.Keys == orders.Keys
  {
  }

  lemma StepsNext(history: seq<Env>, pasts: seq<Segments>, orders: Orders, batches: seq<Batch>, j: nat)
    requires Timeline(history, pasts, orders, batches) && j + 1 < |history|
    ensures |history| == |pasts| && 0 <= CountAt(history, batches, j) < |batches|
    ensures history[j].trees.Keys == orders.Keys
    ensures StepsTo(orders, history[j], pasts[j], batches[CountAt(history, batches, j)], history[j + 1], pasts[j + 1])
  {
    hide StandsAt, StepsTo;
    assert StepAt(history, pasts, orders, batches, j + 1);
  }

  /** A log pending at the crash took the batch then as it does now. */
  lemma StillThere(history: seq<Env>, pasts: seq<Segments>, orders: Orders, batches: seq<Batch>, k: nat, j: nat,
      now: Env, held: Segments, logs: Logs, ns: Namespace)
    requires Restoring(history, pasts, orders, batches, k, j, now, held, logs) && j + 1 < |history| <= |batches| + 1
    requires ns in held
    ensures ns in pasts[j] && ns in pasts[j + 1] && held[ns] == pasts[j][ns]
    ensures LogSteps(history[j], pasts[j][ns], batches[CountAt(history, batches, j)], history[j + 1], pasts[j + 1][ns], ns)
    ensures NoLater(MarkOf(now, ns), MarkOf(history[j], ns))
  {
    hide Timeline, Intact, EnvOk, Contents, Holds, LogSteps, NoLater;
    TimelineAt(history, pasts, orders, batches, k);
    IntactGrows(history, pasts, orders, batches, k, j, ns);
    IntactGrows(history, pasts, orders, batches, k, j + 1, ns);
    StepsNext(history, pasts, orders, batches, j);
  }

  ghost function HeldAfter(held: Segments, ops: Batch): Segments {
    WithBatch(held, RoutedPuts(ops, held.Keys))
  }

  /** The segments after the batch are the ones the next state had. */
  lemma ShadowsOn(history: seq<Env>, pasts: seq<Segments>, orders: Orders, batches: seq<Batch>, k: nat, j: nat,
      now: Env, held: Segments, logs: Logs, ops: Batch, ns: Namespace)
    requires j + 1 < |history| == |pasts| <= |batches| + 1 && ops == batches[CountAt(history, batches, j)]
    requires Restoring(history, pasts, orders, batches, k, j, now, held, logs) && ns in held
    ensures ns in HeldAfter(held, ops) && ns in pasts[j + 1] && HeldAfter(held, ops)[ns] == pasts[j + 1][ns]
  {
    hide Restoring, Puts, OpsFor, SortedRecords, Merged, UpTo, NoLater;
    StillThere(history, pasts, orders, batches, k, j, now, held, logs, ns);
    BatchNames(held, RoutedPuts(ops, held.Keys));
    assert held[ns] + [] == held[ns];
  }

  lemma SameNames(held: Segments, ops: Batch)
    ensures HeldAfter(held, ops).Keys == held.Keys
  {
    hide OpsFor, Puts;
    BatchNames(held, RoutedPuts(ops, held.Keys));
  }

  /** After the batch the store shadows the next state. */
  lemma RestoresOn(history: seq<Env>, pasts: seq<Segments>, orders: Orders, batches: seq<Batch>, k: nat, j: nat,
      now: Env, held: Segments, logs: Logs, later: Env, grown: Logs)
    requires Restoring(history, pasts, orders, batches, k, j, now, held, logs) && j + 1 < |history| <= |batches| + 1
    requires later.loaded == now.loaded
    requires
      var after := HeldAfter(held, batches[CountAt(history, batches, j)]);
      EnvOk(later, orders, after) && Holds(grown, after) && Contents(later, after) == Contents(history[j + 1], pasts[j + 1])
    ensures
      var after := HeldAfter(held, batches[CountAt(history, batches, j)]);
      Restoring(history, pasts, orders, batches, k, j + 1, later, after, grown)
  {
    hide Timeline, Intact, EnvOk, Contents, Holds, HeldAfter;
    var ops := batches[CountAt(history, batches, j)];
    SameNames(held, ops);
    forall ns | ns in held
      ensures ns in HeldAfter(held, ops) && ns in pasts[j + 1] && HeldAfter(held, ops)[ns] == pasts[j + 1][ns]
    {
      ShadowsOn(history, pasts, orders, batches, k, j, now, held, logs, ops, ns);
    }
  }

  // ---- the whole restore

  /** A crash to any state none of whose logs was removed since, then the lost batches
      again: every one lands and the store holds what it held before the crash. */
  method RestoreLost(b: Backend, k: nat, torn: Logs, lost: seq<Batch>, order: seq<Namespace>) returns (landed: bool)
    requires b.Valid() && k < |b.history| && Intact(b.history, k) && Lists(order, b.orders.Keys)
    requires 0 <= CountAt(b.history, b.batches, k) <= |b.batches| && lost == b.batches[CountAt(b.history, b.batches, k)..]
    modifies b
    ensures landed && b.Valid() && b.batches == old(b.batches) && b.View() == old(b.View())
  {
    hide Timeline, Contents, Restoring, Intact, Lists, Holds, EnvOk, Replay, Covers, Backed, CutBack, Backend.Clean,
      Known;
    b.HasStates();
    b.CurrentIsSound();
    ghost var history, pasts, batches := b.history, b.pasts, b.batches;
    TimelineSizes(history, pasts, b.orders, batches);
    b.Crash(k, torn);
    var _ := b.Reopen();
    RestoreStarts(history, pasts, b.orders, batches, k, b.logs);
    var i := 0;
    while i < |lost|
      invariant 0 <= i <= |lost| && b.Valid() && !b.active && b.history != [] && b.pasts != []
      invariant b.batches == batches[..CountAt(history, batches, k + i)]
      invariant Restoring(history, pasts, b.orders, batches, k, k + i, b.Current(), b.Segs(), b.logs)
    {
      Recommit(b, history, pasts, batches, k, k + i, lost[i], order);
      i := i + 1;
    }
    b.CurrentIsSound();
    assert batches[..CountAt(history, batches, k + i)] == batches;
    landed := true;
  }

  /** One lost batch committed again. */
  method Recommit(b: Backend, ghost history: seq<Env>, ghost pasts: seq<Segments>, ghost batches: seq<Batch>, ghost k: nat,
      ghost j: nat, ops: Batch, order: seq<Namespace>)
    requires b.Valid() && !b.active && b.history != [] && b.pasts != [] && j + 1 < |history| <= |batches| + 1
    requires Lists(order, b.orders.Keys)
    requires Restoring(history, pasts, b.orders, batches, k, j, b.Current(), b.Segs(), b.logs)
    requires ops == batches[CountAt(history, batches, j)] && b.batches == batches[..CountAt(history, batches, j)]
    modifies b`history, b`logs, b`runs, b`pasts, b`batches
    ensures b.Valid() && b.history != [] && b.pasts != []
    ensures b.batches == batches[..CountAt(history, batches, j + 1)]
    ensures Restoring(history, pasts, b.orders, batches, k, j + 1, b.Current(), b.Segs(), b.logs)
  {
    hide Timeline, Contents, Restoring, Lists, Holds, EnvOk, Replay, Harmless, Accepts, Backend.Clean, RoutedPuts,
      WithBatch, AppendedAll, FailedLogs, ApplyBatch, Takes, TreesKept, Covers;
    RestoreStep(b, history, pasts, batches, k, j);
    ghost var now, held, logs, n := b.Current(), b.Segs(), b.logs, CountAt(history, batches, j);
    RestoringHolds(history, pasts, b.orders, batches, k, j, now, held, logs);
    var _ := b.Commit(ops, order, NoFault);
    b.HasStates();
    assert batches[..n] + [batches[n]] == batches[..n + 1];
    RestoreStepped(b, history, pasts, batches, k, j, now, held, logs);
  }

  lemma RestoringHolds(history: seq<Env>, pasts: seq<Segments>, orders: Orders, batches: seq<Batch>, k: nat, j: nat,
      now: Env, held: Segments, logs: Logs)
    requires Restoring(history, pasts, orders, batches, k, j, now, held, logs)
    ensures Holds(logs, held)
  {
  }

  lemma RestoreStarts(history: seq<Env>, pasts: seq<Segments>, orders: Orders, batches: seq<Batch>, k: nat, logs: Logs)
    requires Timeline(history, pasts, orders, batches) && k < |history| == |pasts| && Intact(history, k)
    requires Holds(logs, pasts[k])
    ensures Restoring(history, pasts, orders, batches, k, k, history[k], pasts[k], logs)
  {
    hide Timeline, Intact, Contents, Holds, EnvOk;
    TimelineAt(history, pasts, orders, batches, k);
  }

  /** The next lost batch will be taken, without harm. */
  lemma RestoreStep(b: Backend, history: seq<Env>, pasts: seq<Segments>, batches: seq<Batch>, k: nat, j: nat)
    requires b.Valid() && !b.active && j + 1 < |history| <= |batches| + 1
    requires Restoring(history, pasts, b.orders, batches, k, j, b.Current(), b.Segs(), b.logs)
    ensures b.Deferring() == b.Segs().Keys
    ensures b.Landing(batches[CountAt(history, batches, j)]) && b.SafeToTake(batches[CountAt(history, batches, j)])
  {
    hide Timeline, Contents, Restoring, Holds, EnvOk, Replay, Harmless, Accepts, RoutedPuts, Covers;
    b.ReadyToRoute();
    assert b.Deferring() == b.Segs().Keys;
    TakenAgain(history, pasts, b.orders, batches, k, j, b.Current(), b.Segs(), b.logs);
  }

  lemma RestoreStepped(b: Backend, history: seq<Env>, pasts: seq<Segments>, batches: seq<Batch>, k: nat, j: nat,
      now: Env, held: Segments, logs: Logs)
    requires b.Valid() && j + 1 < |history| <= |batches| + 1
    requires Restoring(history, pasts, b.orders, batches, k, j, now, held, logs)
    requires b.Segs() == HeldAfter(held, batches[CountAt(history, batches, j)])
    requires b.Current().loaded == now.loaded && Holds(b.logs, b.Segs())
    requires b.batches == batches[..CountAt(history, batches, j + 1)]
    ensures Restoring(history, pasts, b.orders, batches, k, j + 1, b.Current(), b.Segs(), b.logs)
  {
    hide Contents, Restoring, Holds, EnvOk, Replay, HeldAfter, Covers, Timeline;
    b.CurrentIsSound();
    RestoringIs(history, pasts, b.orders, batches, k, j, now, held, logs);
    TimelineAt(history, pasts, b.orders, batches, j + 1);
    RestoresOn(history, pasts, b.orders, batches, k, j, now, held, logs, b.Current(), b.logs);
  }

  lemma RestoringIs(history: seq<Env>, pasts: seq<Segments>, orders: Orders, batches: seq<Batch>, k: nat, j: nat,
      now: Env, held: Segments, logs: Logs)
    requires Restoring(history, pasts, orders, batches, k, j, now, held, logs)
    ensures Timeline(history, pasts, orders, batches) && j < |history| == |pasts|
  {
  }
}
