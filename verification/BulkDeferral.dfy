/** The backend under a bulk load: scattered puts diverted to run logs, the
    manifest committed with the batch, and recovery after a crash. */
module BulkDeferral {
  import opened Wrappers
  import opened ChainWorld
  import opened KvBatch
  import opened SortedKeys
  import opened WalkCommit
  import opened SegmentLog
  import opened SegmentMerge
  import opened DeferralState
  import opened DeferralAppend
  import opened DeferralCommit
  import opened DeferralLoad

  datatype OpenError = MissingLog(ns: Namespace) | ShortLog(ns: Namespace)

  // ---- opening

  /** Cuts a run log back to its committed length. */
  method OpenAndTruncate(ns: Namespace, logs: Logs, committedLen: nat) returns (r: Result<seq<Byte>, OpenError>)
    ensures r.Ok? <==> ns in logs && committedLen <= |logs[ns]|
    ensures r.Ok? ==> r.value == logs[ns][..committedLen]
    ensures r == Err(ShortLog(ns)) <==> ns in logs && |logs[ns]| < committedLen
  {
    if ns !in logs {
      return Err(MissingLog(ns));
    }
    if |logs[ns]| < committedLen {
      return Err(ShortLog(ns));
    }
    return Ok(logs[ns][..committedLen]);
  }

  /** Every pending log is there and no shorter than its manifest entry says. */
  predicate Backed(manifest: map<Namespace, RunEntry>, logs: Logs) {
    forall ns :: ns in manifest ==> ns in logs && manifest[ns].logLen <= |logs[ns]|
  }

  method OpenLogs(manifest: map<Namespace, RunEntry>, logs: Logs) returns (r: Result<Logs, OpenError>)
    ensures r.Ok? <==> Backed(manifest, logs)
    ensures r.Ok? ==> r.value.Keys == logs.Keys
    ensures r.Ok? ==> forall ns :: ns in manifest ==> r.value[ns] == logs[ns][..manifest[ns].logLen]
  {
    var files := logs;
    var pending := manifest.Keys;
    while pending != {}
      invariant pending <= manifest.Keys && files.Keys == logs.Keys
      invariant forall ns :: ns in manifest && ns !in pending ==> ns in logs && manifest[ns].logLen <= |logs[ns]|
      invariant forall ns :: ns in manifest && ns !in pending ==> files[ns] == logs[ns][..manifest[ns].logLen]
      invariant forall ns :: ns in files && (ns !in manifest || ns in pending) ==> files[ns] == logs[ns]
      decreases |pending|
    {
      var ns :| ns in pending;
      var file :- OpenAndTruncate(ns, files, manifest[ns].logLen);
      files := files[ns := file];
      pending := pending - {ns};
    }
    return Ok(files);
  }

  /** Removes every run log no manifest entry names. */
  method ReapOrphanLogs(logs: Logs, runs: map<Namespace, RunEntry>) returns (kept: Logs)
    ensures forall ns :: ns in kept <==> ns in logs && ns in runs
    ensures forall ns :: ns in kept ==> kept[ns] == logs[ns]
  {
    kept := logs;
    var names := logs.Keys;
    while names != {}
      invariant names <= logs.Keys
      invariant forall ns :: ns in kept <==> ns in logs && (ns in names || ns in runs)
      invariant forall ns :: ns in kept ==> kept[ns] == logs[ns]
      decreases |names|
    {
      var ns :| ns in names;
      if ns !in runs {
        kept := kept - {ns};
      }
      names := names - {ns};
    }
  }

  /** Each pending log cut back to its committed length, and no other log. */
  function CutBack(manifest: map<Namespace, RunEntry>, logs: Logs): Logs {
    map ns | ns in manifest && ns in logs && manifest[ns].logLen <= |logs[ns]| :: logs[ns][..manifest[ns].logLen]
  }

  method RecoverLogs(manifest: map<Namespace, RunEntry>, logs: Logs) returns (r: Result<Logs, OpenError>)
    ensures r.Ok? <==> Backed(manifest, logs)
    ensures r.Ok? ==> r.value == CutBack(manifest, logs)
  {
    var files :- OpenLogs(manifest, logs);
    var kept := ReapOrphanLogs(files, manifest);
    return Ok(kept);
  }

  /** What a sound disk leaves on opening: the committed segments and nothing else. */
  lemma OpensSound(e: Env, orders: Orders, segs: Segments, logs: Logs)
    requires EnvOk(e, orders, segs) && Covers(logs, segs)
    ensures Backed(e.manifest, logs) && Holds(CutBack(e.manifest, logs), segs)
  {
    hide LogOf, Merged, UpTo, SegsOk;
    forall ns | ns in segs
      ensures ns in e.manifest && e.manifest[ns].logLen <= |logs[ns]|
      ensures logs[ns][..e.manifest[ns].logLen] == LogOf(segs[ns])
    {
      assert EntryOk(e, segs, ns);
    }
  }

  /** Cutting back makes nothing sound that was not. */
  lemma OpenedWasSound(e: Env, segs: Segments, logs: Logs)
    requires Covers(CutBack(e.manifest, logs), segs)
    ensures Covers(logs, segs)
  {
    hide LogOf;
    var cut := CutBack(e.manifest, logs);
    forall ns | ns in segs ensures ns in logs && LogOf(segs[ns]) <= logs[ns] {
      assert ns in cut && cut[ns] <= logs[ns];
    }
  }

  /** Logs with leftover bytes after their own, and leftover logs beside them. */
  function TornLogs(logs: Logs, torn: Logs): (r: Logs)
    ensures r.Keys == logs.Keys + torn.Keys
    ensures forall ns :: ns in logs ==> logs[ns] <= r[ns]
  {
    map ns | ns in logs.Keys + torn.Keys :: LogAt(logs, ns) + LogAt(torn, ns)
  }

  // ---- commit outcomes

  /** The fault stops this batch. */
  ghost predicate Hits(fault: Fault, ops: Batch, deferred: set<Namespace>) {
    match fault
    case NoFault => false
    case AppendFault(ns, _) => ns in deferred && OpsFor(ops, ns) != []
    case CommitFault => true
  }

  /** What a failed commit leaves on the logs: nothing new when it was refused at
      once, the appends made so far when one failed, and otherwise what the
      rollback leaves. */
  ghost function FailedLogs(logs: Logs, runs: map<Namespace, RunEntry>, ops: Batch, deferred: set<Namespace>,
      order: seq<Namespace>, fault: Fault): Logs {
    if exists op :: op in ops && op.ns in deferred && !op.Put? then logs
    else FailedAppends(logs, runs, RoutedPuts(ops, deferred), order, fault)
  }

  ghost function FailedAppends(logs: Logs, runs: map<Namespace, RunEntry>, puts: map<Namespace, Tree>,
      order: seq<Namespace>, fault: Fault): Logs {
    var appended := AppendRun(order, puts, fault, logs);
    if appended.failed.Some? then appended.logs else RolledBack(AppendedAll(logs, puts), ActionsFor(runs, puts))
  }

  /** The later list repeats the earlier one and then holds only empty batches. */
  ghost predicate AddsNothing(before: seq<Batch>, after: seq<Batch>) {
    && |before| <= |after| && after[..|before|] == before
    && forall i :: |before| <= i < |after| ==> after[i] == []
  }

  class Backend {
    const orders: Orders
    /** Environment states a crash may fall back to; the first is flushed, the
        last is current. */
    var history: seq<Env>
    var logs: Logs
    var active: bool
    var enabled: bool
    var deferrable: set<Namespace>
    var runs: map<Namespace, RunEntry>
    /** The segments each state's run entries name. */
    ghost var pasts: seq<Segments>
    /** Every batch the current state stands for, in commit order. */
    ghost var batches: seq<Batch>

    function Current(): Env
      requires history != []
      reads this`history
    {
      history[|history| - 1]
    }

    ghost function Segs(): Segments
      requires pasts != []
      reads this`pasts
    {
      pasts[|pasts| - 1]
    }

    /** Every state stands for its batches, and the current one has its logs. */
    ghost predicate OnDisk()
      reads this`history, this`logs, this`pasts, this`batches
    {
      && history != [] && pasts != [] && Timeline(history, pasts, orders, batches)
      && Covers(logs, Segs())
    }

    /** A running process besides has every pending log open at its extent. */
    ghost predicate Valid()
      reads this`history, this`logs, this`pasts, this`batches, this`runs
    {
      OnDisk() && runs == Current().manifest
    }

    /** What the store holds, logs included. */
    ghost function View(): Store
      requires history != [] && pasts != []
      reads this`history, this`pasts
    {
      Contents(Current(), Segs())
    }

    /** A namespace is complete when no manifest entry says its log is pending. */
    predicate IsComplete(ns: Namespace)
      requires history != []
      reads this`history
    {
      ns !in Current().manifest
    }

    predicate IsDeferred(ns: Namespace)
      reads this`runs, this`active, this`enabled, this`deferrable
    {
      ns in runs || (active && enabled && ns in orders && orders[ns] == Scattered && ns in deferrable)
    }

    /** A first open: an empty store with the namespaces declared. */
    constructor (orders: Orders)
      ensures Valid() && this.orders == orders
      ensures history == [Env(Empty(orders), map[], map[])] && pasts == [map[]] && logs == map[] && batches == []
      ensures !active && runs == map[] && Clean()
    {
      hide Timeline, LogOf;
      this.orders := orders;
      history := [Env(map ns | ns in orders :: map[], map[], map[])];
      logs, runs, pasts := map[], map[], [map[]];
      active, enabled, deferrable := false, false, {};
      batches := [];
      new;
      OpensEmpty(orders);
    }

    /** Enters bulk mode. Only scattered namespaces whose tree is empty may start
        deferring, and none when the policy is off. */
    method BeginBulk(policyEnabled: bool)
      requires Valid()
      modifies this`active, this`enabled, this`deferrable
      ensures Valid()
      ensures active && enabled == policyEnabled
      ensures Current().trees.Keys == orders.Keys
      ensures Holds(logs, Segs()) && Current().loaded == map[] ==> Clean()
      ensures forall ns :: IsDeferred(ns) <==>
        ns in runs || (policyEnabled && ns in orders && orders[ns] == Scattered && Current().trees[ns] == map[])
    {
      hide Covers, Timeline, EnvOk, Contents, Replay;
      CurrentIsSound();
      active, enabled := true, policyEnabled;
      deferrable := if policyEnabled
        then set ns | ns in orders && orders[ns] == Scattered && Current().trees[ns] == map[]
        else {};
    }

    /** Makes the current state the one no crash falls behind. */
    method Flush()
      requires Valid()
      modifies this`history, this`pasts
      ensures Valid()
      ensures history == [old(Current())] && pasts == [old(Segs())]
      ensures View() == old(View())
      ensures old(Clean()) ==> Clean()
    {
      hide Covers, Contents, Timeline;
      TimelineSizes(history, pasts, orders, batches);
      TimelineOf(history, pasts, orders, batches, |history| - 1);
      assert batches[..|batches|] == batches;
      history, pasts := [Current()], [Segs()];
    }

    /** The process stops and the disk keeps some committed state `k`, losing the
        unflushed ones after it. Logs keep their bytes; `torn` is what an
        unfinished append or an uncommitted first segment left behind. The disk is
        sound exactly when the logs still begin with that state's segments, as they
        do when none of its logs was removed since. */
    method Crash(k: nat, torn: Logs)
      requires OnDisk() && k < |history|
      modifies this`history, this`pasts, this`batches, this`logs
      ensures history == [old(history)[k]] && |old(pasts)| == |old(history)| && pasts == [old(pasts)[k]]
      ensures logs == TornLogs(old(logs), torn)
      ensures |batches| == CountAt(old(history), old(batches), k) && batches <= old(batches)
      ensures Timeline(history, pasts, orders, batches)
      ensures OnDisk() <==> Covers(logs, old(pasts)[k])
      ensures Intact(old(history), k) ==> OnDisk()
    {
      hide Covers, Contents, Timeline, TornLogs, Intact;
      TimelineSizes(history, pasts, orders, batches);
      TimelineOf(history, pasts, orders, batches, k);
      if Intact(history, k) {
        IntactIsCovered(history, pasts, orders, batches, logs, k);
        CoversMore(logs, TornLogs(logs, torn), pasts[k], pasts[k]);
      }
      batches := batches[..CountAt(history, batches, k)];
      history, pasts, logs := [history[k]], [pasts[k]], TornLogs(logs, torn);
    }

    /** Opens what the disk holds: each pending log cut back to its committed
        length, every other log removed, bulk mode off. It opens when every pending
        log is long enough, and is sound when the disk was. */
    method Reopen() returns (r: Result<(), OpenError>)
      requires history != []
      modifies this`logs, this`active, this`enabled, this`deferrable, this`runs
      ensures r.Ok? <==> Backed(Current().manifest, old(logs))
      ensures r.Ok? && Valid() <==> old(OnDisk())
      ensures r.Ok? ==> logs == CutBack(Current().manifest, old(logs)) && runs == Current().manifest && !active
      ensures r.Err? ==> unchanged(this)
      ensures old(OnDisk()) ==> Holds(logs, Segs()) && (Current().loaded == map[] ==> Clean())
    {
      hide Timeline, Covers, Holds, Backed, EnvOk, Contents, Replay, CutBack;
      if OnDisk() {
        TimelineLast(history, pasts, orders, batches);
        OpensSound(Current(), orders, Segs(), logs);
        HoldsCovers(CutBack(Current().manifest, logs), Segs());
      }
      var recovered :- RecoverLogs(Current().manifest, logs);
      if pasts != [] && Covers(recovered, Segs()) {
        OpenedWasSound(Current(), Segs(), logs);
      }
      runs, logs := Current().manifest, recovered;
      active, enabled, deferrable := false, false, {};
      return Ok(());
    }

    // ---- one commit

    /** The namespaces whose puts go to a log right now. */
    function Deferring(): set<Namespace>
      reads this`runs, this`active, this`enabled, this`deferrable
    {
      set ns | ns in orders && IsDeferred(ns)
    }

    /** Splits a batch: the deferred namespaces' puts, last value kept, and
        everything else in its own order. */
    method Partition(ops: Batch) returns (r: Result<(Batch, map<Namespace, Tree>), CommitError>)
      requires runs.Keys <= orders.Keys
      ensures r.Ok? <==> forall op :: op in ops && op.ns in Deferring() ==> op.Put?
      ensures r.Ok? ==> r.value.0 == Direct(ops, Deferring()) && Routed(ops, Deferring(), r.value.1)
      ensures r.Err? ==> r.error.DeferredNamespaceDelete? && r.error.ns in Deferring()
    {
      hide Direct, RoutedPuts;
      var direct: Batch := [];
      var deferred: map<Namespace, Tree> := map[];
      var i := 0;
      NothingRouted(Deferring());
      while i < |ops|
        invariant 0 <= i <= |ops|
        invariant direct == Direct(ops[..i], Deferring())
        invariant Routed(ops[..i], Deferring(), deferred)
      {
        var op := ops[i];
        assert ops[..i + 1] == ops[..i] + [op] && op in ops;
        DirectGrows(ops[..i], op, Deferring());
        RoutedGrows(ops[..i], op, Deferring(), deferred);
        if IsDeferred(op.ns) {
          match op {
            case Put(ns, key, value) =>
              deferred := deferred[ns := (if ns in deferred then deferred[ns] else map[])[key := value]];
            case Delete(ns, _) =>
              return Err(DeferredNamespaceDelete(ns));
          }
        } else {
          direct := direct + [op];
        }
        i := i + 1;
      }
      assert ops[..|ops|] == ops;
      return Ok((direct, deferred));
    }

    /** Appends and syncs one segment per deferred namespace, in the order the map
        gives them. A put too large to frame, or a refused append, stops it and what
        was appended before stays. */
    method AppendSegments(order: seq<Namespace>, puts: map<Namespace, Tree>, fault: Fault)
      returns (r: Result<map<Namespace, SegmentAction>, CommitError>)
      requires Lists(order, puts.Keys)
      modifies this`logs
      ensures var run := AppendRun(order, puts, fault, old(logs));
        logs == run.logs && if run.failed.Some? then r == Err(run.failed.value) else r.Ok?
      ensures r.Ok? ==> logs == AppendedAll(old(logs), puts) && r.value == ActionsFor(runs, puts)
    {
      hide AppendedAll, ActionsFor, SortedRecords, Segment, Writable, ActionFor, Within;
      var actions: map<Namespace, SegmentAction> := map[];
      NoActions(runs, puts, order);
      var i := 0;
      while i < |order|
        invariant 0 <= i <= |order|
        invariant AppendRun(order, puts, fault, old(logs)) == AppendRun(order[i..], puts, fault, logs)
        invariant actions == ActionsFor(runs, Within(puts, order[..i]))
      {
        var ns := order[i];
        assert order[i..][1..] == order[i + 1..];
        ActionsGrow(runs, puts, order, i);
        if ns in puts {
          var segment := EncodeSegment(puts[ns]);
          if segment.Err? {
            return Err(CommitError.EntryTooLarge);
          }
          if Refuses(fault, ns) {
            logs := logs[ns := LogAt(logs, ns) + Cut(segment.value, fault.left)];
            return Err(WriteFailed);
          }
          actions := actions[ns := ActionFor(runs, ns, |segment.value|)];
          logs := logs[ns := LogAt(logs, ns) + segment.value];
        }
        i := i + 1;
      }
      AppendsAll(order, puts, fault, old(logs));
      AllWithin(order, puts);
      assert order[..|order|] == order;
      return Ok(actions);
    }

    /** After the transaction committed: the open logs take their new extents. */
    method FinalizeCommitted(actions: map<Namespace, SegmentAction>)
      requires forall ns :: ns in actions && actions[ns].Existing? ==> ns in runs
      modifies this`runs
      ensures runs == old(runs) + EntriesOf(actions)
    {
      hide EntriesOf;
      EntriesNamed(actions);
      ghost var entries := EntriesOf(actions);
      var pending := actions.Keys;
      NoneTaken(runs, entries);
      while pending != {}
        invariant pending <= actions.Keys
        invariant old(runs).Keys <= runs.Keys
        invariant runs == old(runs) + (entries - pending)
        decreases |pending|
      {
        var ns :| ns in pending;
        EntryTaken(old(runs), entries, pending, ns);
        match actions[ns] {
          case Existing(_, newLen, newSegments) =>
            if ns in runs {
              runs := runs[ns := RunEntry(newSegments, newLen)];
            }
          case New(newLen) =>
            runs := runs[ns := RunEntry(1, newLen)];
        }
        pending := pending - {ns};
      }
      AllTaken(old(runs), entries);
    }

    /** After the transaction failed: logs that grew are cut back, logs the batch
        created are removed. */
    method FinalizeAborted(actions: map<Namespace, SegmentAction>)
      requires actions.Keys <= logs.Keys
      modifies this`logs
      ensures logs == RolledBack(old(logs), actions)
    {
      hide RolledBack, Cut;
      var pending := actions.Keys;
      NoneRolledBack(logs, actions);
      while pending != {}
        invariant pending <= actions.Keys
        invariant logs == RolledBack(old(logs), actions - pending)
        decreases |pending|
      {
        var ns :| ns in pending;
        RollbackStep(old(logs), actions, pending, ns);
        match actions[ns] {
          case Existing(oldLen, _, _) => logs := logs[ns := Cut(logs[ns], oldLen)];
          case New(_) => logs := logs - {ns};
        }
        pending := pending - {ns};
      }
      assert actions - {} == actions;
    }

    /** One batch, the namespaces' segments appended in any `order`. It lands exactly
        when it is accepted and no fault hits it. Having landed it leaves the store
        sound, holding the batch as if applied op by op, exactly when it was harmless.
        Failing it leaves the committed state as it was, and on the logs what
        `FailedLogs` says. */
    method Commit(ops: Batch, order: seq<Namespace>, fault: Fault) returns (r: Result<(), CommitError>)
      requires Valid() && Lists(order, orders.Keys)
      modifies this`history, this`logs, this`runs, this`pasts, this`batches
      ensures r.Ok? <==> old(Landing(ops)) && !Hits(fault, ops, old(Deferring()))
      ensures r.Ok? ==> history != [] && runs == Current().manifest && Takes(old(View()), ops)
      ensures r.Ok? ==> |history| == |old(history)| + 1 && history[..|old(history)|] == old(history)
      ensures r.Ok? ==> batches == old(batches) + [ops] && Current().loaded == old(Current().loaded)
      ensures r.Ok? ==> pasts == old(pasts) + [WithBatch(old(Segs()), RoutedPuts(ops, old(Deferring())))]
      ensures r.Ok? ==> logs == AppendedAll(old(logs), RoutedPuts(ops, old(Deferring())))
      ensures r.Ok? ==> (Valid() <==> old(SafeToTake(ops)))
      ensures r.Ok? && Valid() ==> View() == ApplyBatch(old(View()), ops)
      ensures r.Ok? ==> runs.Keys == old(runs).Keys + RoutedPuts(ops, old(Deferring())).Keys
      ensures r.Ok? ==> runs == old(runs) + EntriesOf(ActionsFor(old(runs), RoutedPuts(ops, old(Deferring()))))
      ensures r.Ok? ==> TreesKept(old(Current()), Current(), old(Deferring()))
      ensures r.Ok? && old(Holds(logs, Segs())) ==> Holds(logs, Segs())
      ensures r.Ok? && old(Clean()) ==> Valid() && Clean()
      ensures r.Err? ==> Valid() && history == old(history) && pasts == old(pasts)
      ensures r.Err? ==> batches == old(batches) && runs == old(runs)
      ensures r.Err? ==> logs == FailedLogs(old(logs), runs, ops, old(Deferring()), order, fault)
      ensures r.Err? && r.error.DeferredNamespaceDelete? <==>
        exists op :: op in ops && op.ns in old(Deferring()) && op.Delete?
      ensures r.Err? && !r.error.DeferredNamespaceDelete? ==>
        var failed := AppendRun(order, RoutedPuts(ops, old(Deferring())), fault, old(logs)).failed;
        failed.Some? ==> r.error == failed.value
    {
      hide Timeline, Covers, Accepts, Direct, ApplyBatch, WithBatch, RoutedPuts, ActionsFor, EntriesOf, Committable,
        Frames, Lands, AppendedAll, RolledBack, AppendRun, Contents, Harmless, Landed, OpsFor, Routed, Hits, Refuses,
        FailedLogs, FailedAppends, EnvOk, Scatters, Takes, Lists, Holds, TreesKept, Ready;
      ReadyToRoute();
      if Clean() {
        CleanIsSafe(ops);
      }
      var parts := Partition(ops);
      if parts.Err? {
        RefusesDeletes(Current(), orders, ops, Deferring());
        FailsAtOnce(logs, runs, ops, Deferring(), order, fault);
        return Err(parts.error);
      }
      var (direct, puts) := parts.value;
      RoutedWithin(ops, Deferring(), puts, order, orders.Keys);
      CommitsIff(Current(), orders, ops, Deferring(), puts, order, fault, logs);
      FailsLater(logs, runs, ops, Deferring(), puts, order, fault);
      r := CommitRouted(ops, direct, puts, order, fault);
    }

    /** The batch once routed: append, then the transaction, then one way or the other. */
    method CommitRouted(ghost ops: Batch, direct: Batch, puts: map<Namespace, Tree>, order: seq<Namespace>, fault: Fault)
      returns (r: Result<(), CommitError>)
      requires Valid() && Routed(ops, Deferring(), puts) && direct == Direct(ops, Deferring()) && Lists(order, puts.Keys)
      requires Current().trees.Keys == orders.Keys && forall ns :: ns in puts ==> ns in order
      modifies this`history, this`logs, this`runs, this`pasts, this`batches
      ensures r.Ok? <==>
        && AppendRun(order, puts, fault, old(logs)).failed.None?
        && !fault.CommitFault? && Committable(old(Current()).trees, orders, direct)
      ensures r.Ok? ==> history != [] && runs == Current().manifest && Takes(old(View()), ops)
      ensures r.Ok? ==> |history| == |old(history)| + 1 && history[..|old(history)|] == old(history)
      ensures r.Ok? ==> batches == old(batches) + [ops] && Current().loaded == old(Current().loaded)
      ensures r.Ok? ==> pasts == old(pasts) + [WithBatch(old(Segs()), puts)] && logs == AppendedAll(old(logs), puts)
      ensures r.Ok? ==> (Valid() <==> Harmless(old(Current()), old(logs), puts))
      ensures r.Ok? && Valid() ==> View() == ApplyBatch(old(View()), ops)
      ensures r.Ok? ==> runs == old(runs) + EntriesOf(ActionsFor(old(runs), puts))
      ensures r.Ok? ==> runs.Keys == old(runs).Keys + puts.Keys && TreesKept(old(Current()), Current(), old(Deferring()))
      ensures r.Ok? && old(Holds(logs, Segs())) ==> Holds(logs, Segs())
      ensures r.Ok? && active && enabled && old(Ready(Current(), orders, deferrable, runs)) ==>
        Ready(Current(), orders, deferrable, runs)
      ensures r.Err? ==> Valid() && history == old(history) && pasts == old(pasts)
      ensures r.Err? ==> batches == old(batches) && runs == old(runs)
      ensures r.Err? ==> !r.error.DeferredNamespaceDelete?
      ensures var failed := AppendRun(order, puts, fault, old(logs)).failed; failed.Some? ==> r == Err(failed.value)
      ensures r.Err? ==> logs == FailedAppends(old(logs), runs, puts, order, fault)
    {
      hide Timeline, Covers, Accepts, Direct, ApplyBatch, WithBatch, RoutedPuts, ActionsFor, EntriesOf, Committable,
        Frames, Lands, AppendedAll, RolledBack, AppendRun, Contents, Harmless, Landed, OpsFor, Routed, Hits, Refuses,
        EnvOk, Scatters, Takes, Lists, Holds, TreesKept, Ready;
      ReadyToRoute();
      AppendsAllIff(order, puts, fault, logs);
      var appended := AppendSegments(order, puts, fault);
      if appended.Err? {
        AppendingKeeps(order, puts, fault, old(logs), Segs());
        return Err(appended.error);
      }
      var committed := CommitDirect(Current().trees, orders, direct, fault.CommitFault?);
      if committed.Err? {
        AppendedNames(old(logs), runs, puts);
        FinalizeAborted(appended.value);
        RollbackCovers(Current(), orders, Segs(), old(logs), puts);
        return Err(committed.error);
      }
      LandsNow(ops, puts, old(logs), committed.value);
      Land(ops, puts, old(logs), appended.value, committed.value);
      return Ok(());
    }

    /** The transaction's state becomes current and the logs take their extents. */
    method Land(ghost ops: Batch, ghost puts: map<Namespace, Tree>, ghost before: Logs,
        actions: map<Namespace, SegmentAction>, trees: Store)
      requires history != [] && pasts != [] && Timeline(history, pasts, orders, batches) && runs == Current().manifest
      requires Lands(Current(), orders, Segs(), before, ops, Deferring(), puts, trees)
      requires logs == AppendedAll(before, puts) && actions == ActionsFor(runs, puts)
      modifies this`history, this`runs, this`pasts, this`batches
      ensures history == old(history) + [Landed(old(Current()), trees, puts)]
      ensures pasts == old(pasts) + [WithBatch(old(Segs()), puts)] && batches == old(batches) + [ops]
      ensures runs == Current().manifest && runs == old(runs) + EntriesOf(actions)
      ensures runs.Keys == old(runs).Keys + puts.Keys
      ensures Current().loaded == old(Current()).loaded
      ensures Takes(old(View()), ops) && TreesKept(old(Current()), Current(), old(Deferring()))
      ensures Valid() <==> Harmless(old(Current()), before, puts)
      ensures Valid() ==> View() == ApplyBatch(old(View()), ops)
      ensures Holds(before, old(Segs())) ==> Holds(logs, Segs())
      ensures active && enabled && old(Ready(Current(), orders, deferrable, runs)) ==>
        Ready(Current(), orders, deferrable, runs)
    {
      hide Timeline, Covers, WithBatch, EntriesOf, Contents, ApplyBatch, Lands, Landed, AppendedAll, ActionsFor,
        Harmless, TreesKept, Holds, Ready, Takes;
      LandFacts(ops, puts, before, trees);
      history := history + [Env(trees, Current().manifest + EntriesOf(actions), Current().loaded)];
      FinalizeCommitted(actions);
      pasts, batches := pasts + [WithBatch(Segs(), puts)], batches + [ops];
    }

    lemma LandFacts(ops: Batch, puts: map<Namespace, Tree>, before: Logs, trees: Store)
      requires history != [] && pasts != [] && Timeline(history, pasts, orders, batches) && runs == Current().manifest
      requires Lands(Current(), orders, Segs(), before, ops, Deferring(), puts, trees) && logs == AppendedAll(before, puts)
      ensures
        var next := Env(trees, Current().manifest + EntriesOf(ActionsFor(runs, puts)), Current().loaded);
        var more := WithBatch(Segs(), puts);
        && next == Landed(Current(), trees, puts)
        && (Timeline(history + [next], pasts + [more], orders, batches + [ops]) && Covers(logs, more) <==>
              Harmless(Current(), before, puts))
        && Takes(View(), ops)
        && (Harmless(Current(), before, puts) ==> Contents(next, more) == ApplyBatch(View(), ops))
        && TreesKept(Current(), next, Deferring()) && next.manifest.Keys == runs.Keys + puts.Keys
        && (Holds(before, Segs()) ==> Holds(logs, more))
        && (active && enabled && Ready(Current(), orders, deferrable, runs) ==>
              Ready(next, orders, deferrable, next.manifest))
      ensures forall ns :: ns in ActionsFor(runs, puts) && ActionsFor(runs, puts)[ns].Existing? ==> ns in runs
    {
      hide Timeline, Covers, WithBatch, EntriesOf, Contents, ApplyBatch, Lands, Landed, AppendedAll, ActionsFor,
        Harmless, TreesKept, Holds, Ready;
      LandsIff(history, pasts, orders, batches, before, ops, Deferring(), puts, trees);
      LandedIs(Current(), trees, puts);
      LandsKeepsTrees(Current(), orders, Segs(), before, ops, Deferring(), puts, trees);
      ActionsKnown(runs, puts);
      ReadyIsDeferring();
      if Holds(before, Segs()) {
        AppendedHolds(before, Segs(), puts);
      }
      if active && enabled && Ready(Current(), orders, deferrable, runs) {
        var next := Landed(Current(), trees, puts);
        StaysReady(Current(), next, orders, deferrable, runs, next.manifest, Deferring());
      }
    }

    /** The batch would be taken by the current routing and the current trees. */
    ghost predicate Landing(ops: Batch)
      requires Valid()
      reads this`history, this`logs, this`pasts, this`batches, this`active, this`enabled, this`deferrable, this`runs
    {
      TreesDeclared(history, pasts, orders, batches);
      Accepts(Current(), orders, ops, Deferring())
    }

    /** Taking the batch would leave the store sound. */
    ghost predicate SafeToTake(ops: Batch)
      requires history != []
      reads this`history, this`logs, this`active, this`enabled, this`deferrable, this`runs
    {
      Harmless(Current(), logs, RoutedPuts(ops, Deferring()))
    }

    /** No leftover bytes on any log, no load stopped part way, and whatever may start
        deferring still has an empty tree or is deferring already. */
    ghost predicate Clean()
      requires history != [] && pasts != []
      reads this`history, this`pasts, this`logs, this`active, this`enabled, this`deferrable, this`runs
    {
      && Holds(logs, Segs())
      && Current().loaded == map[]
      && (active && enabled ==> Ready(Current(), orders, deferrable, runs))
    }

    /** In a clean state every batch is safe to take. */
    lemma CleanIsSafe(ops: Batch)
      requires Valid() && Clean()
      ensures SafeToTake(ops)
    {
      hide Timeline, RoutedPuts, Harmless, Holds;
      RoutedAmong(ops, Deferring());
      CleanTakes(RoutedPuts(ops, Deferring()));
    }

    lemma CleanTakes(puts: map<Namespace, Tree>)
      requires Valid() && Clean() && puts.Keys <= Deferring()
      ensures Harmless(Current(), logs, puts)
    {
      hide Timeline, Contents, Replay, HarmlessAt, SortedRecords, Covers, Holds;
      CurrentIsSound();
      forall ns | ns in puts ensures HarmlessAt(Current(), logs, ns, SortedRecords(puts[ns])) {
        assert ns in Deferring();
        NoTail(Current(), orders, Segs(), logs, ns, SortedRecords(puts[ns]));
      }
    }

    lemma ReadyIsDeferring()
      requires history != []
      ensures active && enabled && Ready(Current(), orders, deferrable, runs) ==> deferrable <= Deferring()
    {
    }

    lemma CurrentIsSound()
      requires OnDisk()
      ensures EnvOk(Current(), orders, Segs()) && Current().trees.Keys == orders.Keys
      ensures Current().manifest.Keys == Segs().Keys
      ensures Known(batches, orders) && View() == Replay(Empty(orders), orders, batches)
    {
      hide Timeline, Contents, Replay, EntryOk, SegsOk;
      TimelineLast(history, pasts, orders, batches);
    }

    lemma ReadyToRoute()
      requires Valid()
      ensures runs.Keys <= orders.Keys && Current().trees.Keys == orders.Keys
      ensures EnvOk(Current(), orders, Segs()) && Segs().Keys == runs.Keys <= Deferring()
      ensures Deferring() <= orders.Keys && Scatters(orders, Deferring())
    {
      hide Timeline, EntryOk, SegsOk;
      CurrentIsSound();
    }

    lemma LandsNow(ops: Batch, puts: map<Namespace, Tree>, before: Logs, trees: Store)
      requires history != [] && pasts != [] && Timeline(history, pasts, orders, batches) && runs == Current().manifest
      requires Covers(before, Segs()) && Routed(ops, Deferring(), puts) && forall ns :: ns in puts ==> Frames(puts[ns])
      requires EnvOk(Current(), orders, Segs()) && Segs().Keys <= Deferring() && Scatters(orders, Deferring())
      requires Current().trees.Keys == orders.Keys && Committable(Current().trees, orders, Direct(ops, Deferring()))
      requires trees == ApplyBatch(Current().trees, Direct(ops, Deferring()))
      ensures Lands(Current(), orders, Segs(), before, ops, Deferring(), puts, trees)
    {
      hide Timeline, Covers, Routed, Frames, EnvOk, Scatters, Committable, ApplyBatch, Direct;
    }

    // ---- finishing

    /** Loads one namespace's log into its tree, a transaction per chunk, clears its
        manifest entry and removes the log. The environment may refuse the transaction
        numbered `faultAt`; the chunks before it stay and the load can be resumed. */
    method FinishNamespace(ns: Namespace, cap: nat, faultAt: Option<nat>) returns (r: Result<(), CommitError>)
      requires Valid() && ns in runs && cap > 0
      modifies this`history, this`logs, this`runs, this`active, this`pasts, this`batches
      ensures Valid() && View() == old(View())
      ensures r.Err? ==> faultAt.Some?
      ensures faultAt == Some(0) ==> r.Err?
      ensures r.Err? ==> runs == old(runs) && logs == old(logs) && active == old(active)
      ensures r.Ok? ==> runs == old(runs) - {ns} && logs == old(logs) - {ns}
      ensures r.Ok? ==> ns in Current().trees && ns in View() && Current().trees[ns] == View()[ns] != map[]
      ensures r.Ok? ==> active == (old(active) && runs != map[])
      ensures OthersKept(old(Current()), Current(), ns)
      ensures old(history) <= history
      ensures AddsNothing(old(batches), batches)
    {
      hide Timeline, Covers, Contents, EnvOk, Merged, Past, UpTo, AddsNothing, OthersKept, Loaded, Rising, Reads,
        Replay;
      ReadyToLoad(ns);
      var read := ReadLog(logs[ns], runs[ns].segmentCount, runs[ns].logLen, LengthsOf(Segs()[ns]), Segs()[ns]);
      var start := LoadOf(Current(), ns);
      var states, loaded := MergeNamespace(start, read.value, cap, faultAt);
      CommitChunks(ns, start, states);
      if loaded.Err? {
        return Err(loaded.error);
      }
      if faultAt == Some(|states|) {
        return Err(WriteFailed);
      }
      OthersCleared(old(Current()), Current(), ns);
      OneMoreAdded(old(batches), batches);
      ClearRun(ns);
      return Ok(());
    }

    /** The chunk transactions of a load, one state each. */
    method CommitChunks(ns: Namespace, start: LoadState, states: seq<LoadState>)
      requires Valid() && ns in Segs() && ns in Current().trees && start == LoadOf(Current(), ns)
      requires start.tree == UpTo(Merged(Segs()[ns]), start.mark) && Rising(start, states)
      requires forall i :: 0 <= i < |states| ==> Loaded(start, Merged(Segs()[ns]), states[i])
      modifies this`history, this`pasts, this`batches
      ensures Valid() && View() == old(View()) && Segs() == old(Segs())
      ensures ns in Current().trees && LoadOf(Current(), ns) == Final(start, states)
      ensures OthersKept(old(Current()), Current(), ns)
      ensures old(history) <= history
      ensures AddsNothing(old(batches), batches)
    {
      hide Timeline, Covers, Contents, EnvOk, Merged, UpTo, AddsNothing, OthersKept, Loaded, Rising, StepsTo, Onward,
        Replay;
      NothingAdded(batches);
      AllKept(Current(), ns);
      var i := 0;
      while i < |states|
        invariant 0 <= i <= |states|
        invariant Valid() && View() == old(View()) && Segs() == old(Segs())
        invariant ns in Current().trees && LoadOf(Current(), ns) == Final(start, states[..i])
        invariant OthersKept(old(Current()), Current(), ns)
        invariant old(history) <= history
        invariant AddsNothing(old(batches), batches)
      {
        assert states[..i + 1][..i] == states[..i];
        ChunksGoOn(start, Segs()[ns], states, Current(), ns, i);
        ChunkFacts(ns, states[i]);
        ChunkedLoad(Current(), ns, states[i]);
        OthersStay(old(Current()), Current(), ns, states[i]);
        OneMoreAdded(old(batches), batches);
        history := history + [Chunked(Current(), ns, states[i])];
        pasts, batches := pasts + [Segs()], batches + [[]];
        i := i + 1;
      }
      assert states[..|states|] == states;
    }

    /** The last transaction of a load, and the removal of the log. */
    method ClearRun(ns: Namespace)
      requires Valid() && ns in Segs() && ns in runs && LoadedWhole(Current(), Segs()[ns], ns)
      modifies this`history, this`logs, this`runs, this`active, this`pasts, this`batches
      ensures Valid() && View() == old(View())
      ensures runs == old(runs) - {ns} && logs == old(logs) - {ns} && active == (old(active) && runs != map[])
      ensures Current() == Cleared(old(Current()), ns)
      ensures ns in Current().trees && ns in View() && Current().trees[ns] == View()[ns] != map[]
      ensures history == old(history) + [Current()] && batches == old(batches) + [[]]
    {
      hide Timeline, Covers, Contents, EnvOk, Merged, UpTo, StepsTo, LoadedWhole, Replay;
      ClearFacts(ns);
      history := history + [Cleared(Current(), ns)];
      runs, logs := runs - {ns}, logs - {ns};
      if runs == map[] {
        active := false;
      }
      pasts, batches := pasts + [Segs() - {ns}], batches + [[]];
    }

    lemma ReadyToLoad(ns: Namespace)
      requires Valid() && ns in runs
      ensures ns in Segs() && ns in logs && ns in Current().trees
      ensures Reads(logs[ns], runs[ns].segmentCount, runs[ns].logLen, LengthsOf(Segs()[ns]), Segs()[ns])
      ensures AllAscending(Segs()[ns]) && Appendable(Current().trees[ns], MarkOf(Current(), ns))
      ensures Current().trees[ns] == UpTo(Merged(Segs()[ns]), MarkOf(Current(), ns))
      ensures Current().trees[ns] + Past(Merged(Segs()[ns]), MarkOf(Current(), ns)) == Merged(Segs()[ns])
    {
      hide Timeline, Covers, Contents, EnvOk, Merged, Past, UpTo, Reads, Replay;
      CurrentIsSound();
      ReadsBack(Current(), orders, Segs(), logs, ns);
    }

    lemma ChunkFacts(ns: Namespace, s: LoadState)
      requires OnDisk() && ns in Segs() && Onward(Current(), Segs()[ns], ns, s)
      ensures
        var next := Chunked(Current(), ns, s);
        && Timeline(history + [next], pasts + [Segs()], orders, batches + [[]])
        && Contents(next, Segs()) == View()
    {
      hide Timeline, Covers, Contents, EnvOk, Chunked, StepsTo, Replay, ApplyBatch, Onward;
      CurrentIsSound();
      ChunkKeeps(Current(), orders, Segs(), ns, s);
      EmptyBatch(View());
      TimelineGrows(history, pasts, orders, batches, Chunked(Current(), ns, s), Segs(), []);
    }

    lemma ClearFacts(ns: Namespace)
      requires OnDisk() && ns in Segs() && LoadedWhole(Current(), Segs()[ns], ns)
      ensures
        var next, rest := Cleared(Current(), ns), Segs() - {ns};
        && Timeline(history + [next], pasts + [rest], orders, batches + [[]])
        && Contents(next, rest) == View() && Covers(logs - {ns}, rest)
        && ns in next.trees && ns in View() && next.trees[ns] == View()[ns] != map[]
    {
      hide Timeline, Covers, Contents, EnvOk, Cleared, StepsTo, Replay, ApplyBatch, LoadedWhole;
      CurrentIsSound();
      ClearKeeps(Current(), orders, Segs(), ns);
      EmptyBatch(View());
      TimelineGrows(history, pasts, orders, batches, Cleared(Current(), ns), Segs() - {ns}, []);
      CoversWithout(logs, Segs(), ns);
      ClearedShows(Current(), Segs(), ns);
    }

    /** Completes every pending namespace in any `order`. `stop` names one whose load
        the environment stops, and at which of its transactions; the ones before it in
        the order are then complete and the others still pending. With nothing pending,
        nothing changes: bulk mode, if on, stays on. */
    method FinishBulk(cap: nat, order: seq<Namespace>, stop: Option<(Namespace, nat)>) returns (r: Result<(), CommitError>)
      requires Valid() && cap > 0 && Lists(order, runs.Keys)
      modifies this`history, this`logs, this`runs, this`active, this`pasts, this`batches
      ensures Valid() && View() == old(View())
      ensures r.Err? ==> stop.Some? && StoppedAt(order, stop.value.0, old(runs), runs) && active == old(active)
      ensures stop.Some? && stop.value.0 in old(runs) && stop.value.1 == 0 ==> r.Err?
      ensures r.Ok? ==> runs == map[] && logs == old(logs) - old(runs).Keys
      ensures r.Ok? ==> active == (old(active) && old(runs) == map[])
      ensures r.Ok? && old(Clean()) ==> Clean()
      ensures old(runs) == map[] ==> unchanged(this)
      ensures old(history) <= history
      ensures AddsNothing(old(batches), batches)
    {
      hide Valid, View, AddsNothing, StoppedAt, Lists, Clean;
      HasStates();
      if runs == map[] {
        NothingAdded(batches);
        assert logs - runs.Keys == logs;
        return Ok(());
      }
      if Clean() {
        CleanNames();
      }
      r := FinishPending(cap, order, stop);
      if r.Ok? && old(Clean()) {
        assert logs == map[];
        NothingLeftIsClean();
      }
    }

    /** The loop over the pending namespaces. */
    method FinishPending(cap: nat, order: seq<Namespace>, stop: Option<(Namespace, nat)>)
      returns (r: Result<(), CommitError>)
      requires Valid() && cap > 0 && Lists(order, runs.Keys) && runs != map[]
      modifies this`history, this`logs, this`runs, this`active, this`pasts, this`batches
      ensures Valid() && history != [] && pasts != [] && View() == old(View())
      ensures r.Err? ==> stop.Some? && StoppedAt(order, stop.value.0, old(runs), runs) && active == old(active)
      ensures stop.Some? && stop.value.0 in old(runs) && stop.value.1 == 0 ==> r.Err?
      ensures r.Ok? ==> runs == map[] && logs == old(logs) - old(runs).Keys && !active
      ensures old(history) <= history
      ensures AddsNothing(old(batches), batches)
    {
      hide Valid, View, AddsNothing, OthersKept, FinishedTo, StoppedAt, Lists, Clean;
      NothingAdded(batches);
      HasStates();
      FinishStarts(order, runs, logs, active);
      var i := 0;
      while i < |order|
        invariant 0 <= i <= |order|
        invariant Valid() && history != [] && pasts != [] && View() == old(View())
        invariant FinishedTo(order, i, old(runs), old(logs), old(active), runs, logs, active)
        invariant stop.Some? && stop.value.0 in old(runs) && stop.value.1 == 0 ==> stop.value.0 in runs
        invariant old(history) <= history
        invariant AddsNothing(old(batches), batches)
      {
        var ns := order[i];
        FinishStep(order, i, old(runs), old(logs), old(active), runs, logs, active);
        if ns in runs {
          ghost var mid := batches;
          var step := FinishNamespace(ns, cap, if stop.Some? && stop.value.0 == ns then Some(stop.value.1) else None);
          AddedTwice(old(batches), mid, batches);
          HasStates();
          if step.Err? {
            StopsHere(order, i, old(runs), old(logs), old(active), runs, logs, active);
            return Err(step.error);
          }
        }
        i := i + 1;
      }
      FinishEnds(order, old(runs), old(logs), old(active), runs, logs, active);
      return Ok(());
    }

    lemma CleanNames()
      requires Valid() && Clean()
      ensures logs.Keys == runs.Keys
    {
      hide Timeline, EntryOk, SegsOk, LogOf, Contents, Replay;
      CurrentIsSound();
    }

    lemma NothingLeftIsClean()
      requires Valid() && runs == map[] && logs == map[] && !active
      ensures Clean()
    {
      hide Timeline, EntryOk, SegsOk, LogOf, Contents, Replay;
      CurrentIsSound();
      assert Segs().Keys == {};
      assert Current().loaded == map[];
    }

    lemma HasStates()
      requires Valid()
      ensures history != [] && pasts != []
    {
    }

    /** A run log, a manifest entry and an incomplete namespace are one and the same
        thing; while they stand, the log begins with the committed segments and the
        tree holds no more of them than a load has put there. */
    ghost predicate Unsplit(ns: Namespace)
      requires history != [] && pasts != [] && ns in Current().trees
      reads this
    {
      && (ns in runs <==> !IsComplete(ns))
      && (ns in runs ==> IsDeferred(ns) && ns in logs && ns in Segs() && LogOf(Segs()[ns]) <= logs[ns])
      && (ns in runs ==> View()[ns] == Merged(Segs()[ns]) && Current().trees[ns] == UpTo(View()[ns], MarkOf(Current(), ns)))
      && (ns !in runs ==> View()[ns] == Current().trees[ns])
    }

    lemma NothingIsSplit(ns: Namespace)
      requires Valid() && ns in orders
      ensures ns in Current().trees && Unsplit(ns)
    {
      hide Timeline, LogOf, Merged, Replay, SegsOk, UpTo;
      TimelineLast(history, pasts, orders, batches);
      if ns in runs {
        assert EntryOk(Current(), Segs(), ns);
      }
    }

    lemma HoldsItsBatches()
      requires Valid()
      ensures Known(batches, orders) && View() == Replay(Empty(orders), orders, batches)
      ensures forall ns :: ns in runs ==> ns in orders && orders[ns] == Scattered
    {
      hide Timeline, LogOf, Replay, EntryOk, SegsOk, Contents;
      CurrentIsSound();
    }
  }

  // ---- small facts about maps and lists

  /** Every namespace the batch names is one of the store's. */
  ghost predicate Takes(s: Store, ops: Batch) {
    forall op :: op in ops ==> op.ns in s
  }

  /** The two states differ in one namespace's tree, entry and mark at most. */
  ghost predicate OthersKept(e: Env, next: Env, ns: Namespace) {
    && next.trees.Keys == e.trees.Keys
    && (forall n :: n in e.trees && n != ns ==> next.trees[n] == e.trees[n])
    && next.manifest - {ns} == e.manifest - {ns} && next.loaded - {ns} == e.loaded - {ns}
  }

  /** The load stopped at a namespace: those before it in the order are complete. */
  ghost predicate StoppedAt(order: seq<Namespace>, ns: Namespace, before: map<Namespace, RunEntry>,
      after: map<Namespace, RunEntry>) {
    exists i :: 0 <= i < |order| && order[i] == ns && ns in after &&
      forall n :: n in after <==> n in before && n !in order[..i]
  }

  lemma TreesDeclared(history: seq<Env>, pasts: seq<Segments>, orders: Orders, batches: seq<Batch>)
    requires Timeline(history, pasts, orders, batches)
    ensures history != [] && history[|history| - 1].trees.Keys == orders.Keys
  {
    hide Contents, Replay, EntryOk, SegsOk;
    TimelineLast(history, pasts, orders, batches);
  }

  lemma NoActions(runs: map<Namespace, RunEntry>, puts: map<Namespace, Tree>, order: seq<Namespace>)
    ensures ActionsFor(runs, Within(puts, order[..0])) == map[] && order[0..] == order
  {
  }

  lemma EntriesNamed(actions: map<Namespace, SegmentAction>)
    ensures EntriesOf(actions).Keys == actions.Keys
    ensures forall ns :: ns in actions ==> EntriesOf(actions)[ns] == actions[ns].ManifestEntry()
  {
  }

  lemma NoneTaken(runs: map<Namespace, RunEntry>, entries: map<Namespace, RunEntry>)
    ensures runs == runs + (entries - entries.Keys)
  {
  }

  lemma AllTaken(runs: map<Namespace, RunEntry>, entries: map<Namespace, RunEntry>)
    ensures runs + (entries - {}) == runs + entries
  {
    assert entries - {} == entries;
  }

  lemma NoneRolledBack(logs: Logs, actions: map<Namespace, SegmentAction>)
    ensures RolledBack(logs, actions - actions.Keys) == logs
  {
  }

  /** Whatever may start deferring is scattered, and has an empty tree or a log already. */
  ghost predicate Ready(e: Env, orders: Orders, names: set<Namespace>, runs: map<Namespace, RunEntry>) {
    forall ns :: ns in names ==>
      && ns in orders && orders[ns] == Scattered
      && (ns in runs || (ns in e.trees && e.trees[ns] == map[]))
  }

  lemma StaysReady(e: Env, next: Env, orders: Orders, names: set<Namespace>, runs: map<Namespace, RunEntry>,
      later: map<Namespace, RunEntry>, deferred: set<Namespace>)
    requires Ready(e, orders, names, runs) && names <= deferred && runs.Keys <= later.Keys && TreesKept(e, next, deferred)
    ensures Ready(next, orders, names, later)
  {
  }

  /** The named namespaces' trees are as they were. */
  ghost predicate TreesKept(e: Env, next: Env, names: set<Namespace>) {
    forall ns :: ns in names && ns in e.trees ==> ns in next.trees && next.trees[ns] == e.trees[ns]
  }

  lemma LandsKeepsTrees(e: Env, orders: Orders, segs: Segments, logs: Logs, ops: Batch, deferred: set<Namespace>,
      puts: map<Namespace, Tree>, trees: Store)
    requires Lands(e, orders, segs, logs, ops, deferred, puts, trees)
    ensures TreesKept(e, Landed(e, trees, puts), deferred)
  {
    hide Lands, EnvOk, Covers, SegsOk, Landed;
    BatchFacts(e, orders, segs, logs, ops, deferred, puts, trees);
    LandedFields(e, trees, puts);
  }

  lemma RoutedAmong(ops: Batch, deferred: set<Namespace>)
    ensures RoutedPuts(ops, deferred).Keys <= deferred
  {
  }

  /** With nothing past the committed bytes and no load begun, a segment does no harm
      beside an empty tree or after other segments. */
  lemma NoTail(e: Env, orders: Orders, segs: Segments, logs: Logs, ns: Namespace, rs: seq<Record>)
    requires EnvOk(e, orders, segs) && Holds(logs, segs) && e.loaded == map[]
    requires ns !in segs ==> ns in e.trees && e.trees[ns] == map[]
    ensures HarmlessAt(e, logs, ns, rs)
  {
    hide LogOf, Merged, UpTo, Segment, SegsOk;
    if ns in segs {
      assert EntryOk(e, segs, ns);
    }
    assert Tail(e, logs, ns) == [];
    assert Tail(e, logs, ns) + Segment(rs) == Segment(rs);
  }

  lemma AppendedHolds(logs: Logs, segs: Segments, puts: map<Namespace, Tree>)
    requires Holds(logs, segs)
    ensures Holds(AppendedAll(logs, puts), WithBatch(segs, puts))
  {
    hide LogOf, Segment, SortedRecords;
    BatchNames(segs, puts);
    NoLog();
    forall ns | ns in WithBatch(segs, puts)
      ensures AppendedAll(logs, puts)[ns] == LogOf(WithBatch(segs, puts)[ns])
    {
      if ns in puts {
        LogGrows(ListOf(segs, ns), SortedRecords(puts[ns]));
      }
    }
  }

  lemma RefusesDeletes(e: Env, orders: Orders, ops: Batch, deferred: set<Namespace>)
    requires e.trees.Keys == orders.Keys
    requires exists op :: op in ops && op.ns in deferred && !op.Put?
    ensures !Accepts(e, orders, ops, deferred)
  {
  }

  lemma FailsAtOnce(logs: Logs, runs: map<Namespace, RunEntry>, ops: Batch, deferred: set<Namespace>,
      order: seq<Namespace>, fault: Fault)
    requires exists op :: op in ops && op.ns in deferred && !op.Put?
    ensures FailedLogs(logs, runs, ops, deferred, order, fault) == logs
  {
  }

  lemma FailsLater(logs: Logs, runs: map<Namespace, RunEntry>, ops: Batch, deferred: set<Namespace>,
      puts: map<Namespace, Tree>, order: seq<Namespace>, fault: Fault)
    requires Routed(ops, deferred, puts)
    ensures FailedLogs(logs, runs, ops, deferred, order, fault) == FailedAppends(logs, runs, puts, order, fault)
    ensures forall op :: op in ops && op.ns in deferred ==> op.Put?
  {
    hide FailedAppends, RoutedPuts;
  }

  /** A failed append leaves the committed segments where they were. */
  lemma AppendingKeeps(order: seq<Namespace>, puts: map<Namespace, Tree>, fault: Fault, logs: Logs, segs: Segments)
    requires Covers(logs, segs)
    ensures Covers(AppendRun(order, puts, fault, logs).logs, segs)
    ensures var failed := AppendRun(order, puts, fault, logs).failed;
      failed.Some? ==> !failed.value.DeferredNamespaceDelete?
  {
    hide AppendRun, Covers, Frames;
    AppendsOnlyGrow(order, puts, fault, logs);
    FailsTooLarge(order, puts, fault, logs);
    CoversMore(logs, AppendRun(order, puts, fault, logs).logs, segs, segs);
  }

  lemma RoutedWithin(ops: Batch, deferred: set<Namespace>, puts: map<Namespace, Tree>, order: seq<Namespace>,
      names: set<Namespace>)
    requires Routed(ops, deferred, puts) && deferred <= names && Lists(order, names)
    ensures Lists(order, puts.Keys) && puts == RoutedPuts(ops, deferred)
    ensures forall ns :: ns in puts ==> ns in order
  {
  }

  /** A routed batch is accepted and meets no fault exactly when every append and
      then the transaction go through. */
  lemma CommitsIff(e: Env, orders: Orders, ops: Batch, deferred: set<Namespace>, puts: map<Namespace, Tree>,
      order: seq<Namespace>, fault: Fault, logs: Logs)
    requires e.trees.Keys == orders.Keys && Routed(ops, deferred, puts) && forall ns :: ns in puts ==> ns in order
    ensures Accepts(e, orders, ops, deferred) && !Hits(fault, ops, deferred) <==>
      && AppendRun(order, puts, fault, logs).failed.None?
      && !fault.CommitFault? && Committable(e.trees, orders, Direct(ops, deferred))
    ensures AppendRun(order, puts, fault, logs).failed.None? ==> forall ns :: ns in puts ==> Frames(puts[ns])
  {
    hide Frames, Committable, Direct, AppendRun, Accepts, Routed, Hits, Refuses;
    AcceptsRouted(e, orders, ops, deferred, puts);
    AppendsAllIff(order, puts, fault, logs);
    HitsIsRefuses(fault, ops, deferred, puts);
  }

  lemma HitsIsRefuses(fault: Fault, ops: Batch, deferred: set<Namespace>, puts: map<Namespace, Tree>)
    requires Routed(ops, deferred, puts)
    ensures Hits(fault, ops, deferred) <==> fault.CommitFault? || exists ns :: ns in puts && Refuses(fault, ns)
  {
    if fault.AppendFault? && Hits(fault, ops, deferred) {
      assert fault.ns in puts && Refuses(fault, fault.ns);
    }
  }

  lemma AppendedNames(logs: Logs, runs: map<Namespace, RunEntry>, puts: map<Namespace, Tree>)
    ensures ActionsFor(runs, puts).Keys == puts.Keys && puts.Keys <= AppendedAll(logs, puts).Keys
  {
  }

  lemma ActionsKnown(runs: map<Namespace, RunEntry>, puts: map<Namespace, Tree>)
    ensures forall ns :: ns in ActionsFor(runs, puts) && ActionsFor(runs, puts)[ns].Existing? ==> ns in runs
    ensures (runs + EntriesOf(ActionsFor(runs, puts))).Keys == runs.Keys + puts.Keys
  {
    hide BytesFor;
  }

  lemma LandedIs(e: Env, trees: Store, puts: map<Namespace, Tree>)
    ensures Landed(e, trees, puts) == Env(trees, e.manifest + EntriesOf(ActionsFor(e.manifest, puts)), e.loaded)
  {
  }

  lemma RollbackCovers(e: Env, orders: Orders, segs: Segments, logs: Logs, puts: map<Namespace, Tree>)
    requires EnvOk(e, orders, segs) && Covers(logs, segs)
    ensures Covers(RolledBack(AppendedAll(logs, puts), ActionsFor(e.manifest, puts)), segs)
  {
    hide LogOf, Merged, UpTo, SegsOk, RolledBack, AppendedAll, ActionsFor;
    var back := RolledBack(AppendedAll(logs, puts), ActionsFor(e.manifest, puts));
    forall ns | ns in segs ensures ns in back && LogOf(segs[ns]) <= back[ns] {
      assert EntryOk(e, segs, ns);
      RollbackRestores(logs, e.manifest, puts, ns);
    }
  }

  lemma NothingAdded(batches: seq<Batch>)
    ensures AddsNothing(batches, batches)
  {
  }

  lemma OneMoreAdded(before: seq<Batch>, batches: seq<Batch>)
    requires AddsNothing(before, batches)
    ensures AddsNothing(before, batches + [[]])
  {
  }

  lemma AddedTwice(before: seq<Batch>, middle: seq<Batch>, after: seq<Batch>)
    requires AddsNothing(before, middle) && AddsNothing(middle, after)
    ensures AddsNothing(before, after)
  {
    assert after[..|before|] == after[..|middle|][..|before|];
    forall i | |before| <= i < |after| ensures after[i] == [] {
      if i < |middle| {
        assert after[i] == after[..|middle|][i];
      }
    }
  }

  lemma AllKept(e: Env, ns: Namespace)
    ensures OthersKept(e, e, ns)
  {
  }

  lemma OthersStay(was: Env, e: Env, ns: Namespace, s: LoadState)
    requires OthersKept(was, e, ns) && ns in e.trees
    ensures OthersKept(was, Chunked(e, ns, s), ns)
  {
  }

  lemma OthersCleared(was: Env, e: Env, ns: Namespace)
    requires OthersKept(was, e, ns)
    ensures OthersKept(was, Cleared(e, ns), ns)
  {
    assert (e.manifest - {ns}) - {ns} == e.manifest - {ns} && (e.loaded - {ns}) - {ns} == e.loaded - {ns};
  }

  /** A load that has gone through the first `i` of the order: those are complete, their
      logs gone, and bulk mode ends with the last. */
  ghost predicate FinishedTo(order: seq<Namespace>, i: nat, runs0: map<Namespace, RunEntry>, logs0: Logs, active0: bool,
      runs: map<Namespace, RunEntry>, logs: Logs, active: bool)
  {
    && i <= |order|
    && (forall n :: n in runs <==> n in runs0 && n !in order[..i])
    && logs == logs0 - (runs0.Keys - runs.Keys)
    && active == (active0 && runs != map[])
  }

  lemma FinishStarts(order: seq<Namespace>, runs: map<Namespace, RunEntry>, logs: Logs, active: bool)
    requires runs != map[]
    ensures FinishedTo(order, 0, runs, logs, active, runs, logs, active)
  {
    assert logs - (runs.Keys - runs.Keys) == logs;
  }

  lemma FinishStep(order: seq<Namespace>, i: nat, runs0: map<Namespace, RunEntry>, logs0: Logs, active0: bool,
      runs: map<Namespace, RunEntry>, logs: Logs, active: bool)
    requires i < |order| && FinishedTo(order, i, runs0, logs0, active0, runs, logs, active)
    ensures
      var ns := order[i];
      if ns in runs
      then FinishedTo(order, i + 1, runs0, logs0, active0, runs - {ns}, logs - {ns}, active && runs - {ns} != map[])
      else FinishedTo(order, i + 1, runs0, logs0, active0, runs, logs, active)
  {
    var ns := order[i];
    assert order[..i + 1] == order[..i] + [ns];
    if ns in runs {
      LogsLess(logs0, runs0.Keys, runs.Keys, ns);
      assert (runs - {ns}).Keys == runs.Keys - {ns};
    }
  }

  lemma FinishEnds(order: seq<Namespace>, runs0: map<Namespace, RunEntry>, logs0: Logs, active0: bool,
      runs: map<Namespace, RunEntry>, logs: Logs, active: bool)
    requires FinishedTo(order, |order|, runs0, logs0, active0, runs, logs, active) && Lists(order, runs0.Keys)
    ensures runs == map[] && logs == logs0 - runs0.Keys && !active
  {
    assert order[..|order|] == order;
    assert runs.Keys == {};
    assert runs0.Keys - runs.Keys == runs0.Keys;
  }

  lemma StopsHere(order: seq<Namespace>, i: nat, runs0: map<Namespace, RunEntry>, logs0: Logs, active0: bool,
      runs: map<Namespace, RunEntry>, logs: Logs, active: bool)
    requires i < |order| && order[i] in runs && FinishedTo(order, i, runs0, logs0, active0, runs, logs, active)
    ensures StoppedAt(order, order[i], runs0, runs) && active == active0
  {
  }

  lemma LogsLess(logs: Logs, all: set<Namespace>, left: set<Namespace>, ns: Namespace)
    requires ns in left && left <= all
    ensures (logs - (all - left)) - {ns} == logs - (all - (left - {ns}))
  {
  }

  lemma CoversWithout(logs: Logs, segs: Segments, ns: Namespace)
    requires Covers(logs, segs)
    ensures Covers(logs - {ns}, segs - {ns})
  {
    hide LogOf;
  }

  lemma ClearedShows(e: Env, segs: Segments, ns: Namespace)
    requires ns in segs && LoadedWhole(e, segs[ns], ns) && Merged(segs[ns]) != map[]
    ensures ns in Cleared(e, ns).trees && ns in Contents(e, segs)
    ensures Cleared(e, ns).trees[ns] == Contents(e, segs)[ns] != map[]
  {
    hide Merged;
  }
}
