/** Where the bulk load's guarantees stop: when a state whose logs were removed can
    still be recovered, and runs after which a store does not open, opens on other
    data, or takes a batch it should not. */
module DeferralLimits {
  import opened Wrappers
  import opened ChainWorld
  import opened KvBatch
  import opened SortedKeys
  import opened WalkCommit
  import opened SegmentLog
  import opened SegmentPrefix
  import opened SegmentMerge
  import opened DeferralState
  import opened DeferralAppend
  import opened DeferralCommit
  import opened BulkDeferral

  // ---- recovering a state from whatever logs are there

  /** The state and the bytes of the logs stand for these contents. */
  ghost predicate Recovers(e: Env, orders: Orders, logs: Logs, want: Store) {
    exists segs :: EnvOk(e, orders, segs) && Covers(logs, segs) && Contents(e, segs) == want
  }

  /** The log begins with as many segments, in as many bytes, holding the same. */
  ghost predicate StartsAlike(logs: Logs, ns: Namespace, a: seq<seq<Record>>) {
    ns in logs && exists b :: Alike(logs[ns], a, b)
  }

  ghost predicate Alike(log: seq<Byte>, a: seq<seq<Record>>, b: seq<seq<Record>>) {
    && ListOk(b) && |b| == |a| && |LogOf(b)| == |LogOf(a)|
    && LogOf(b) <= log && Merged(b) == Merged(a)
  }

  /** A committed state is recovered from whatever the logs hold now exactly when each
      log pending then still, or again, begins with the same extent and contents. */
  lemma RecoversIff(e: Env, orders: Orders, was: Segments, logs: Logs)
    requires EnvOk(e, orders, was)
    ensures Recovers(e, orders, logs, Contents(e, was)) <==> forall ns :: ns in was ==> StartsAlike(logs, ns, was[ns])
  {
    hide EnvOk, Contents, StartsAlike, Covers;
    if Recovers(e, orders, logs, Contents(e, was)) {
      var segs :| EnvOk(e, orders, segs) && Covers(logs, segs) && Contents(e, segs) == Contents(e, was);
      forall ns | ns in was ensures StartsAlike(logs, ns, was[ns]) {
        RecoveredStart(e, orders, was, segs, logs, ns);
      }
    }
    if forall ns :: ns in was ==> StartsAlike(logs, ns, was[ns]) {
      StartsRecover(e, orders, was, logs);
    }
  }

  lemma RecoveredStart(e: Env, orders: Orders, was: Segments, segs: Segments, logs: Logs, ns: Namespace)
    requires EnvOk(e, orders, was) && EnvOk(e, orders, segs) && Covers(logs, segs)
    requires Contents(e, segs) == Contents(e, was) && ns in was
    ensures StartsAlike(logs, ns, was[ns])
  {
    hide LogOf, Merged, UpTo, ListOk;
    assert ns in segs;
    EntryAt(e, orders, was, ns);
    EntryAt(e, orders, segs, ns);
    assert Contents(e, segs)[ns] == Contents(e, was)[ns];
    assert Alike(logs[ns], was[ns], segs[ns]);
  }

  ghost function StartOf(logs: Logs, ns: Namespace, a: seq<seq<Record>>): (b: seq<seq<Record>>)
    requires StartsAlike(logs, ns, a)
    ensures Alike(logs[ns], a, b)
  {
    var b :| Alike(logs[ns], a, b);
    b
  }

  /** What the logs begin with, for each run entry of a state. */
  ghost function Starts(was: Segments, logs: Logs): Segments
    requires forall ns :: ns in was ==> StartsAlike(logs, ns, was[ns])
  {
    map ns | ns in was :: StartOf(logs, ns, was[ns])
  }

  lemma StartsRecover(e: Env, orders: Orders, was: Segments, logs: Logs)
    requires EnvOk(e, orders, was) && forall ns :: ns in was ==> StartsAlike(logs, ns, was[ns])
    ensures Recovers(e, orders, logs, Contents(e, was))
  {
    hide LogOf, Merged, UpTo, StartsAlike, ListOk, Contents;
    var segs := Starts(was, logs);
    forall ns | ns in segs
      ensures EntryOk(e, segs, ns) && ListOk(segs[ns]) && ns in logs && LogOf(segs[ns]) <= logs[ns]
    {
      EntryAt(e, orders, was, ns);
      LogIsThere(logs, ns, was[ns]);
      assert Alike(logs[ns], was[ns], segs[ns]);
    }
    assert Contents(e, segs) == Contents(e, was) by { StartsHoldTheSame(e, was, logs); }
    assert EnvOk(e, orders, segs) && Covers(logs, segs);
  }

  lemma LogIsThere(logs: Logs, ns: Namespace, a: seq<seq<Record>>)
    requires StartsAlike(logs, ns, a)
    ensures ns in logs
  {
  }

  lemma StartsHoldTheSame(e: Env, was: Segments, logs: Logs)
    requires forall ns :: ns in was ==> StartsAlike(logs, ns, was[ns])
    ensures Contents(e, Starts(was, logs)) == Contents(e, was)
  {
    hide LogOf, Merged, StartsAlike, ListOk;
    var a, b := Contents(e, Starts(was, logs)), Contents(e, was);
    assert a.Keys == b.Keys;
    forall ns | ns in a ensures a[ns] == b[ns] {
      if ns in was {
        LogIsThere(logs, ns, was[ns]);
        assert Alike(logs[ns], was[ns], Starts(was, logs)[ns]);
      }
    }
  }

  /** The second list begins with as many segments, in as many bytes, holding the same. */
  ghost predicate SameStart(a: seq<seq<Record>>, b: seq<seq<Record>>) {
    && |a| <= |b|
    && |LogOf(b[..|a|])| == |LogOf(a)|
    && Merged(b[..|a|]) == Merged(a)
  }

  /** Of a log of known segments it is those that decide, unless bytes after them
      could make up for missing ones. */
  lemma AlikeIff(logs: Logs, ns: Namespace, a: seq<seq<Record>>, now: seq<seq<Record>>, tail: seq<Byte>)
    requires ListOk(now) && ns in logs && logs[ns] == LogOf(now) + tail && (tail == [] || |a| <= |now|)
    ensures StartsAlike(logs, ns, a) <==> SameStart(a, now)
  {
    hide LogOf, Merged, SegmentOk;
    if StartsAlike(logs, ns, a) {
      var b :| Alike(logs[ns], a, b);
      AllOk(b);
      AllOk(now);
      var x := logs[ns][|LogOf(b)|..];
      assert LogOf(b) + x == LogOf(now) + tail;
      LogsAgree(b, x, now, tail);
    }
    if SameStart(a, now) {
      LogOfPrefix(now, |a|);
      assert Alike(logs[ns], a, now[..|a|]);
    }
  }

  lemma AllOk(ss: seq<seq<Record>>)
    requires ListOk(ss)
    ensures AllWritable(ss)
  {
    hide Writable, Ascending;
    forall i | 0 <= i < |ss| ensures Writable(ss[i]) {
      assert SegmentOk(ss[i]);
    }
  }

  /** A crash to any state `k`, whatever it leaves torn, and an open: the state is back,
      with the contents of its batches, exactly when each of its pending logs begins
      with the same extent and contents, as it does when none was removed since. */
  method CrashThenOpen(b: Backend, k: nat, torn: Logs) returns (r: Result<(), OpenError>)
    requires b.Valid() && k < |b.history|
    modifies b
    ensures |old(b.pasts)| == |old(b.history)| && b.history == [old(b.history)[k]]
    ensures r.Ok? <==> Backed(old(b.history)[k].manifest, TornLogs(old(b.logs), torn))
    ensures Known(b.batches, b.orders) && |b.batches| == CountAt(old(b.history), old(b.batches), k)
    ensures b.batches <= old(b.batches)
    ensures r.Ok? && Recovers(b.Current(), b.orders, b.logs, Replay(Empty(b.orders), b.orders, b.batches)) <==>
      forall ns :: ns in old(b.pasts)[k] ==> StartsAlike(TornLogs(old(b.logs), torn), ns, old(b.pasts)[k][ns])
    ensures Intact(old(b.history), k) ==>
      r.Ok? && b.Valid() && b.View() == Replay(Empty(b.orders), b.orders, b.batches)
  {
    hide Timeline, Contents, EnvOk, Replay, Covers, Intact, Holds, StartsAlike, Recovers, Backed, CutBack, TornLogs;
    b.HasStates();
    ghost var pasts, logs := b.pasts, TornLogs(b.logs, torn);
    b.Crash(k, torn);
    TimelineLast(b.history, b.pasts, b.orders, b.batches);
    RecoversIff(b.Current(), b.orders, pasts[k], logs);
    r := b.Reopen();
    RecoveryIsByBytes(b.Current(), b.orders, logs, Replay(Empty(b.orders), b.orders, b.batches));
    if b.OnDisk() {
      b.CurrentIsSound();
    }
  }

  lemma NothingTorn(logs: Logs)
    ensures TornLogs(logs, map[]) == logs
  {
    assert forall ns :: ns in logs ==> logs[ns] + [] == logs[ns];
  }

  /** Cutting the logs back to their committed length neither helps nor harms. */
  lemma RecoveryIsByBytes(e: Env, orders: Orders, logs: Logs, want: Store)
    ensures Recovers(e, orders, logs, want) <==>
            Backed(e.manifest, logs) && Recovers(e, orders, CutBack(e.manifest, logs), want)
  {
    hide EnvOk, Contents, Covers, Backed, CutBack, Holds;
    if Recovers(e, orders, logs, want) {
      var segs :| EnvOk(e, orders, segs) && Covers(logs, segs) && Contents(e, segs) == want;
      OpensSound(e, orders, segs, logs);
      HoldsCovers(CutBack(e.manifest, logs), segs);
    }
    if Recovers(e, orders, CutBack(e.manifest, logs), want) {
      var segs :| EnvOk(e, orders, segs) && Covers(CutBack(e.manifest, logs), segs) && Contents(e, segs) == want;
      OpenedWasSound(e, segs, logs);
    }
  }

  // ---- a store of one scattered namespace

  const NS: Namespace := "hash_to_height"

  lemma OnlyOp(op: WriteOp)
    requires op.Put?
    ensures forall ns :: OpsFor([op], ns) == if ns == op.ns then [op] else []
    ensures Puts([op]) == map[op.key := op.value]
  {
  }

  lemma OneRecord(key: Key, value: Value)
    ensures SortedRecords(map[key := value]) == [Record(key, value)]
  {
    hide SortedRecords;
    var rs := [Record(key, value)];
    AsTreeGrows([], rs[0]);
    NoRecords();
    assert [] + [rs[0]] == rs;
    AscendingIsDetermined(rs, SortedRecords(map[key := value]));
  }

  lemma OneFrames(key: Key, value: Value)
    ensures Frames(map[key := value]) <==> |key| < U32_SPAN && |value| < U32_SPAN
    ensures |Segment([Record(key, value)])| == HEADER_LEN + 8 + |key| + |value|
    ensures LogOf([[Record(key, value)]]) == Segment([Record(key, value)])
  {
    hide Checksum, SortedRecords;
    OneRecord(key, value);
    var rs := [Record(key, value)];
    assert rs[1..] == [];
    RecordsStep(rs);
    RecordBytes(rs[0]);
    EmptyPayload();
    assert LogOf([rs][..0]) == [];
  }

  /** One op lands on a store of scattered namespaces: a put that can be framed, or
      anything where nothing is deferred. */
  lemma OneOpLands(b: Backend, op: WriteOp)
    requires b.Valid() && op.ns in b.orders && forall ns :: ns in b.orders ==> b.orders[ns] == Scattered
    requires op.ns in b.Deferring() ==> op.Put? && |op.key| < U32_SPAN && |op.value| < U32_SPAN
    ensures b.Landing([op])
  {
    hide Timeline, Covers, Contents, Replay, EnvOk, Accepts;
    b.CurrentIsSound();
    OneOpAccepted(b.Current(), b.orders, op, b.Deferring());
  }

  lemma OneOpAccepted(e: Env, orders: Orders, op: WriteOp, deferred: set<Namespace>)
    requires e.trees.Keys == orders.Keys && op.ns in orders && forall ns :: ns in orders ==> orders[ns] == Scattered
    requires op.ns in deferred ==> op.Put? && |op.key| < U32_SPAN && |op.value| < U32_SPAN
    ensures Accepts(e, orders, [op], deferred)
  {
    hide SortedRecords, Misordered, Writable, OpsFor, Puts, Direct;
    assert forall o :: o in [op] ==> o == op;
    forall ns | ns in deferred && OpsFor([op], ns) != [] ensures Writable(SortedRecords(Puts(OpsFor([op], ns)))) {
      OpsOfOne(op, ns);
      OnlyOp(op);
      OneFrames(op.key, op.value);
    }
    assert Committable(e.trees, orders, Direct([op], deferred));
  }

  lemma OpsOfOne(op: WriteOp, ns: Namespace)
    ensures OpsFor([op], ns) == if op.ns == ns then [op] else []
  {
    assert [op][..0] == [];
  }

  /** A deferred put adds one segment of one record. */
  lemma OnePutRouted(segs: Segments, op: WriteOp, deferred: set<Namespace>)
    requires op.Put? && op.ns in deferred
    ensures RoutedPuts([op], deferred) == map[op.ns := map[op.key := op.value]]
    ensures WithBatch(segs, RoutedPuts([op], deferred)) == segs[op.ns := ListOf(segs, op.ns) + [[Record(op.key, op.value)]]]
  {
    hide OpsFor, Puts, SortedRecords;
    OnlyOp(op);
    OneRecord(op.key, op.value);
    assert RoutedPuts([op], deferred) == map[op.ns := map[op.key := op.value]];
    BatchNames(segs, RoutedPuts([op], deferred));
  }

  lemma NothingRoutedBy(op: WriteOp)
    ensures RoutedPuts([op], {}) == map[]
  {
  }

  /** One put to a clean store that defers the namespace. */
  method PutDeferred(b: Backend, ns: Namespace, key: Key, value: Value, order: seq<Namespace>)
    requires b.history != [] && b.pasts != [] && b.Valid() && b.Clean() && Lists(order, b.orders.Keys)
    requires ns in b.Deferring() && |key| < U32_SPAN && |value| < U32_SPAN
    requires forall n :: n in b.orders ==> b.orders[n] == Scattered
    modifies b`history, b`logs, b`runs, b`pasts, b`batches
    ensures b.history != [] && b.pasts != [] && b.Valid() && b.Clean() && b.runs.Keys == old(b.runs).Keys + {ns}
    ensures b.Segs() == old(b.Segs())[ns := ListOf(old(b.Segs()), ns) + [[Record(key, value)]]]
    ensures old(b.history) <= b.history && |b.history| == |old(b.history)| + 1
    ensures b.View() == WithPut(old(b.View()), ns, key, value)
  {
    hide Timeline, Covers, Contents, Replay, EnvOk, Backend.Clean, Harmless, WithBatch, RoutedPuts, FailedLogs,
      AppendedAll, Lists, TreesKept, Accepts, EntriesOf, ActionsFor, AppendRun, Takes, Known, ApplyBatch;
    var op := Put(ns, key, value);
    OneOpLands(b, op);
    OnePutRouted(b.Segs(), op, b.Deferring());
    b.CurrentIsSound();
    ghost var before := b.View();
    var _ := b.Commit([op], order, NoFault);
    b.HasStates();
    OneApplied(before, op);
  }

  ghost function WithPut(s: Store, ns: Namespace, key: Key, value: Value): Store {
    if ns in s then s[ns := s[ns][key := value]] else s
  }

  lemma OneApplied(s: Store, op: WriteOp)
    requires op.ns in s
    ensures ApplyBatch(s, [op]) == s[op.ns := ApplyOp(s[op.ns], op)]
  {
    assert [op][..0] == [];
  }

  // ---- a removed log

  /** A crash right after a completed load that falls back to an earlier state: the
      store opens exactly when that state had no log pending, since the logs are gone
      whether or not the transactions clearing their entries were flushed. */
  method FinishThenCrash(b: Backend, cap: nat, order: seq<Namespace>, k: nat) returns (r: Result<(), OpenError>)
    requires b.Valid() && b.Clean() && cap > 0 && k < |b.history| && Lists(order, b.runs.Keys)
    modifies b
    ensures r.Ok? <==> old(b.history[k]).manifest == map[]
    ensures r.Ok? ==> b.Valid()
  {
    hide Timeline, Covers, Contents, AddsNothing, Backend.Clean, Lists;
    b.CleanNames();
    var _ := b.FinishBulk(cap, order, None);
    assert b.history[k] == old(b.history)[k];
    assert b.logs == map[];
    if b.history[k].manifest == map[] {
      assert Intact(b.history, k);
    }
    b.Crash(k, map[]);
    r := b.Reopen();
  }

  /** Such a state is reached by one deferred put: the store no longer opens. */
  method LostClearing() returns (r: Result<(), OpenError>)
    ensures r.Err?
  {
    hide Timeline, Covers, Contents, Backend.Clean;
    var b := new Backend(map[NS := Scattered]);
    b.BeginBulk(true);
    PutDeferred(b, NS, [1], [2], [NS]);
    b.CurrentIsSound();
    r := FinishThenCrash(b, 1, [NS], 1);
  }

  /** Deleting the only key of a namespace that is not deferred empties its tree. */
  method DeleteOnly(b: Backend, key: Key)
    requires b.history != [] && b.pasts != [] && b.Valid() && b.Clean() && b.orders == map[NS := Scattered]
    requires b.runs == map[] && !b.active && NS in b.View() && b.View()[NS].Keys == {key}
    modifies b`history, b`logs, b`runs, b`pasts, b`batches
    ensures b.history != [] && b.pasts != [] && b.Valid() && b.Clean() && b.runs == map[]
    ensures NS in b.Current().trees && b.Current().trees[NS] == map[]
    ensures old(b.history) <= b.history && |b.history| == |old(b.history)| + 1
  {
    hide Timeline, Covers, Contents, Replay, EnvOk, Backend.Clean, Harmless, WithBatch, RoutedPuts, FailedLogs,
      AppendedAll, Lists, TreesKept, Accepts, EntriesOf, ActionsFor, AppendRun, Takes, Known, ApplyBatch;
    var op := Delete(NS, key);
    assert b.Deferring() == {};
    OneOpLands(b, op);
    NothingRoutedBy(op);
    ghost var before := b.View();
    OneListed();
    var _ := b.Commit([op], [NS], NoFault);
    b.HasStates();
    OneApplied(before, op);
    assert b.runs.Keys == {};
    b.NothingIsSplit(NS);
  }

  lemma OneListed()
    ensures Lists([NS], map[NS := Scattered].Keys)
  {
  }

  /** The state flushed while [1] was pending under [2] falls back, after a load, a
      delete and another bulk load, to a log of the same name and length: the store
      opens, on the new value. Only when that is the old one is the state back. */
  method RefilledLog(value: Byte) returns (r: Result<(), OpenError>, read: Result<seq<seq<Record>>, SegmentError>,
      ghost flushed: Store)
    ensures flushed == map[NS := map[[1] := [2]]]
    ensures r.Ok? && read == Ok([[Record([1], [value])]])
  {
    hide Timeline, Covers, Contents, Replay, EnvOk, Backend.Clean, Lists, LogOf, Reads, Backed, CutBack, TornLogs,
      Known;
    var b := new Backend(map[NS := Scattered]);
    EmptyView(b);
    FlushPending(b);
    flushed := b.View();
    ghost var e := b.Current();
    Refill(b, value);
    NothingTorn(b.logs);
    b.Crash(0, map[]);
    OpensOn(b, e, value);
    r := b.Reopen();
    read := ReadLog(b.logs[NS], 1, b.runs[NS].logLen, LengthsOf([[Record([1], [value])]]), [[Record([1], [value])]]);
  }

  /** A store whose flushed state has one record pending. */
  method FlushPending(b: Backend)
    requires b.history != [] && b.pasts != [] && b.Valid() && b.Clean() && b.orders == map[NS := Scattered]
    requires b.runs == map[] && b.View() == map[NS := map[]]
    modifies b
    ensures b.history != [] && b.pasts != [] && b.Valid() && b.Clean() && |b.history| == 1 && b.runs.Keys == {NS}
    ensures b.View() == map[NS := map[[1] := [2]]]
    ensures NS in b.Current().manifest && b.Current().manifest == map[NS := RunEntry(1, HEADER_LEN + 10)]
  {
    hide Timeline, Covers, Contents, Replay, EnvOk, Lists, LogOf, Known, Holds;
    OneListed();
    NoSegs(b);
    EmptyTree(b);
    b.BeginBulk(true);
    PutDeferred(b, NS, [1], [2], [NS]);
    b.Flush();
    EntrySpans(b, [1], [2]);
  }

  /** The pending record loaded and deleted, and another put under its key. */
  method Refill(b: Backend, value: Byte)
    requires b.history != [] && b.pasts != [] && b.Valid() && b.Clean() && b.orders == map[NS := Scattered]
    requires |b.history| == 1 && b.runs.Keys == {NS} && b.View() == map[NS := map[[1] := [2]]]
    modifies b
    ensures b.history != [] && b.pasts != [] && b.Valid() && b.history[0] == old(b.history)[0]
    ensures NS in b.logs && b.logs[NS] == LogOf([[Record([1], [value])]]) && |b.logs[NS]| == HEADER_LEN + 10
  {
    hide Timeline, Covers, Contents, Replay, EnvOk, Lists, LogOf, AddsNothing, Known, Holds;
    OneListed();
    assert Lists([NS], b.runs.Keys) by { assert map[NS := Scattered].Keys == {NS}; }
    var _ := b.FinishBulk(1, [NS], None);
    b.HasStates();
    DeleteOnly(b, [1]);
    NoSegs(b);
    b.BeginBulk(true);
    PutDeferred(b, NS, [1], [value], [NS]);
    LogIs(b, [1], [value]);
  }

  lemma OpensOn(b: Backend, e: Env, value: Byte)
    requires b.history == [e] && e.manifest == map[NS := RunEntry(1, HEADER_LEN + 10)]
    requires NS in b.logs && b.logs[NS] == LogOf([[Record([1], [value])]]) && |b.logs[NS]| == HEADER_LEN + 10
    ensures Backed(e.manifest, b.logs) && NS in CutBack(e.manifest, b.logs) && CutBack(e.manifest, b.logs)[NS] == b.logs[NS]
    ensures Reads(b.logs[NS], 1, HEADER_LEN + 10, LengthsOf([[Record([1], [value])]]), [[Record([1], [value])]])
  {
    hide LogOf, Reads;
    assert b.logs[NS][..HEADER_LEN + 10] == b.logs[NS];
    OneReads(b.logs[NS], [1], [value]);
  }

  lemma OneReads(log: seq<Byte>, key: Key, value: Value)
    requires |key| < U32_SPAN && |value| < U32_SPAN && LogOf([[Record(key, value)]]) <= log
    ensures Reads(log, 1, HEADER_LEN + 8 + |key| + |value|, LengthsOf([[Record(key, value)]]), [[Record(key, value)]])
  {
    hide LogOf, Reads, Segment, Writable;
    OneFrames(key, value);
    OneRecord(key, value);
    WrittenReads(log, [[Record(key, value)]]);
  }

  lemma EmptyTree(b: Backend)
    requires b.Valid() && b.runs == map[] && NS in b.orders && NS in b.View() && b.View()[NS] == map[]
    ensures NS in b.Current().trees && b.Current().trees[NS] == map[]
  {
    hide Timeline, Covers, Contents;
    b.NothingIsSplit(NS);
  }

  lemma EmptyView(b: Backend)
    requires b.history == [Env(Empty(map[NS := Scattered]), map[], map[])] && b.pasts == [map[]]
    ensures b.View() == map[NS := map[]]
  {
    var e := Env(Empty(map[NS := Scattered]), map[], map[]);
    assert e.trees == map[NS := map[]];
    assert Contents(e, map[]) == map[NS := map[]];
  }

  /** What the run entry of a log of one record says. */
  lemma EntrySpans(b: Backend, key: Key, value: Value)
    requires b.Valid() && NS in b.Segs() && b.Segs()[NS] == [[Record(key, value)]]
    ensures NS in b.Current().manifest && b.Current().manifest.Keys == b.Segs().Keys
    ensures b.Current().manifest[NS] == RunEntry(1, HEADER_LEN + 8 + |key| + |value|)
  {
    hide Timeline, Covers, Contents, Replay, LogOf, Merged, UpTo, SegsOk;
    b.CurrentIsSound();
    assert EntryOk(b.Current(), b.Segs(), NS);
    OneFrames(key, value);
  }

  lemma NoSegs(b: Backend)
    requires b.Valid() && b.runs == map[]
    ensures b.Segs() == map[]
  {
    hide Timeline, Covers, Contents, Replay, EntryOk, SegsOk;
    b.CurrentIsSound();
    assert b.Segs().Keys == {};
  }

  lemma LogIs(b: Backend, key: Key, value: Value)
    requires b.Valid() && b.Clean() && NS in b.Segs() && b.Segs()[NS] == [[Record(key, value)]]
    ensures NS in b.logs && b.logs[NS] == LogOf([[Record(key, value)]])
    ensures |b.logs[NS]| == HEADER_LEN + 8 + |key| + |value|
  {
    hide Timeline, Contents, LogOf, Covers;
    OneFrames(key, value);
  }

  // ---- an entry too large to frame

  /** Some namespace the batch touches can be framed and another cannot. */
  ghost predicate FramesInPart(puts: map<Namespace, Tree>) {
    exists a, b :: a in puts && b in puts && Frames(puts[a]) && !Frames(puts[b])
  }

  /** From logs without leftover bytes, a batch that fails, by its own doing or with its
      transaction, leaves the logs as they were in every order exactly when it is not
      framed in part. */
  lemma FailsCleanIff(e: Env, orders: Orders, segs: Segments, logs: Logs, ops: Batch, deferred: set<Namespace>)
    requires EnvOk(e, orders, segs) && Holds(logs, segs) && deferred <= orders.Keys
    requires forall op :: op in ops && op.ns in deferred ==> op.Put?
    ensures (forall order :: Lists(order, orders.Keys) ==>
               FailedLogs(logs, e.manifest, ops, deferred, order, NoFault) == logs) <==>
            !FramesInPart(RoutedPuts(ops, deferred))
  {
    hide EnvOk, Holds, Frames, AppendRun, FailedAppends, RoutedPuts, Lists;
    var puts := RoutedPuts(ops, deferred);
    RoutedAmong(ops, deferred);
    if exists ns :: ns in puts && !Frames(puts[ns]) {
      LeavesNoTraceIff(orders.Keys, puts, logs);
      forall order | Lists(order, orders.Keys)
        ensures FailedAppends(logs, e.manifest, puts, order, NoFault) == AppendRun(order, puts, NoFault, logs).logs
      {
        FailsInAppends(logs, e.manifest, puts, order, orders.Keys);
      }
    } else {
      forall order | Lists(order, orders.Keys) ensures FailedAppends(logs, e.manifest, puts, order, NoFault) == logs {
        FailsAfterAppends(e, orders, segs, logs, puts, order);
      }
    }
  }

  lemma FailsInAppends(logs: Logs, runs: map<Namespace, RunEntry>, puts: map<Namespace, Tree>, order: seq<Namespace>,
      names: set<Namespace>)
    requires Lists(order, names) && puts.Keys <= names && exists ns :: ns in puts && !Frames(puts[ns])
    ensures FailedAppends(logs, runs, puts, order, NoFault) == AppendRun(order, puts, NoFault, logs).logs
  {
    hide Frames, AppendRun, AppendedAll, RolledBack, ActionsFor;
    AppendsAllIff(order, puts, NoFault, logs);
  }

  lemma FailsAfterAppends(e: Env, orders: Orders, segs: Segments, logs: Logs, puts: map<Namespace, Tree>,
      order: seq<Namespace>)
    requires EnvOk(e, orders, segs) && Holds(logs, segs) && forall ns :: ns in puts ==> Frames(puts[ns])
    ensures FailedAppends(logs, e.manifest, puts, order, NoFault) == logs
  {
    hide Frames, AppendRun, AppendedAll, RolledBack, ActionsFor, LogOf, Merged, UpTo, SegsOk;
    AppendsAllIff(order, puts, NoFault, logs);
    var back := RolledBack(AppendedAll(logs, puts), ActionsFor(e.manifest, puts));
    forall ns ensures (ns in back <==> ns in logs) && (ns in logs ==> back[ns] == logs[ns]) {
      if ns in segs {
        EntryAt(e, orders, segs, ns);
        assert logs[ns][..|LogOf(segs[ns])|] == logs[ns];
      }
      RollbackRestores(logs, e.manifest, puts, ns);
    }
  }

  const A: Namespace := "address_history"
  const B: Namespace := "block_hashes"

  function TwoScattered(): Orders {
    map[A := Scattered, B := Scattered]
  }

  lemma TwoListed()
    ensures Lists([A, B], TwoScattered().Keys) && Lists([B, A], TwoScattered().Keys)
  {
    assert A[0] != B[0];
  }

  /** A batch that can be framed in one namespace and not in the other. */
  function TooLarge(): Batch {
    [Put(A, [1], [2]), Put(B, [1], seq(U32_SPAN, _ => 0))]
  }

  lemma TwoPutsRouted(first: WriteOp, second: WriteOp, deferred: set<Namespace>)
    requires first.Put? && second.Put? && first.ns != second.ns && deferred == {first.ns, second.ns}
    ensures RoutedPuts([first, second], deferred) ==
            map[first.ns := map[first.key := first.value], second.ns := map[second.key := second.value]]
  {
    hide OpsFor, Puts;
    assert [first, second] == [first] + [second];
    OnlyOp(first);
    OnlyOp(second);
    OpsForGrows([first], second);
    assert [] + [second] == [second];
  }

  lemma TooLargeRouted(deferred: set<Namespace>)
    requires deferred == {A, B}
    ensures
      var puts := RoutedPuts(TooLarge(), deferred);
      && puts.Keys == {A, B} && puts[A] == map[[1] := [2]] && Frames(puts[A]) && !Frames(puts[B])
    ensures forall op :: op in TooLarge() ==> op.Put?
  {
    hide Frames, RoutedPuts;
    assert A[0] != B[0];
    var big: Value := seq(U32_SPAN, _ => 0);
    TwoPutsRouted(Put(A, [1], [2]), Put(B, [1], big), deferred);
    OneFrames([1], [2]);
    OneFrames([1], big);
  }

  /** The batch fails either way round, leaving its first segment on the log in one
      order and nothing in the other. After the first, the next put to that log lands
      and the committed bytes are the refused batch's. */
  method TooLargeThenNext() returns (first: Result<(), CommitError>, next: Result<(), CommitError>,
      read: Result<seq<seq<Record>>, SegmentError>, ghost sound: bool)
    ensures first == Err(CommitError.EntryTooLarge) && next.Ok? && !sound
    ensures read == Ok([[Record([1], [2])]])
  {
    hide Timeline, Covers, Contents, Replay, EnvOk, Lists, LogOf, Known, Holds, Segment, Reads, Harmless, WithBatch,
      RoutedPuts, AppendedAll, FailedLogs, Accepts, TreesKept, EntriesOf, ActionsFor, AppendRun, Takes, TooLarge,
      ApplyBatch, Backend.Clean, Hits;
    var b := new Backend(TwoScattered());
    BothDefer(b);
    TwoListed();
    TooLargeRefused(b, [A, B]);
    first := b.Commit(TooLarge(), [A, B], NoFault);
    b.HasStates();
    assert b.logs == map[A := Segment([Record([1], [2])])];
    next, read := PutAfterStray(b);
    sound := b.Valid();
  }

  /** Bulk mode with both namespaces deferring and nothing pending. */
  method BothDefer(b: Backend)
    requires b.history == [Env(Empty(TwoScattered()), map[], map[])] && b.pasts == [map[]] && b.Valid() && b.Clean()
    requires b.orders == TwoScattered() && b.logs == map[] && b.runs == map[]
    modifies b`active, b`enabled, b`deferrable
    ensures b.Valid() && b.Clean() && b.Deferring() == {A, B}
    ensures b.active && b.enabled && b.deferrable == {A, B}
  {
    hide Timeline, Covers, Contents, Replay, EnvOk, LogOf;
    b.BeginBulk(true);
  }

  lemma TooLargeRefused(b: Backend, order: seq<Namespace>)
    requires b.Valid() && b.Deferring() == {A, B} && b.logs == map[] && order in {[A, B], [B, A]}
    ensures !b.Landing(TooLarge()) && forall op :: op in TooLarge() ==> op.Put?
    ensures
      var run := AppendRun(order, RoutedPuts(TooLarge(), b.Deferring()), NoFault, b.logs);
      && run.failed == Some(CommitError.EntryTooLarge)
      && run.logs == if order == [A, B] then map[A := Segment([Record([1], [2])])] else map[]
    ensures FailedLogs(b.logs, b.runs, TooLarge(), b.Deferring(), order, NoFault) ==
            AppendRun(order, RoutedPuts(TooLarge(), b.Deferring()), NoFault, b.logs).logs
  {
    hide Timeline, Covers, Contents, Replay, EnvOk, SortedRecords, OpsFor, Puts, Writable, Segment, RoutedPuts,
      TooLarge;
    b.ReadyToRoute();
    TooLargeRouted(b.Deferring());
    AcceptsRouted(b.Current(), b.orders, TooLarge(), b.Deferring(), RoutedPuts(TooLarge(), b.Deferring()));
    OneRecord([1], [2]);
    assert A[0] != B[0];
    assert [A, B][1..] == [B] && [B, A][1..] == [A];
    assert [] + Segment([Record([1], [2])]) == Segment([Record([1], [2])]);
  }

  /** A put to a log that holds one leftover segment. */
  method PutAfterStray(b: Backend) returns (r: Result<(), CommitError>, read: Result<seq<seq<Record>>, SegmentError>)
    requires b.history != [] && b.pasts != [] && b.Valid() && b.orders == TwoScattered() && b.runs == map[]
    requires b.Deferring() == {A, B} && b.logs == map[A := Segment([Record([1], [2])])]
    modifies b`history, b`logs, b`runs, b`pasts, b`batches
    ensures r.Ok? && !b.Valid() && read == Ok([[Record([1], [2])]])
  {
    hide Timeline, Covers, Contents, Replay, EnvOk, Lists, LogOf, Known, Holds, Segment, Reads, Harmless, WithBatch,
      RoutedPuts, AppendedAll, FailedLogs, Accepts, TreesKept;
    TwoListed();
    var op := Put(A, [1], [3]);
    OneOpLands(b, op);
    OnePutRouted(b.Segs(), op, b.Deferring());
    StrayHarms(b.Current(), b.logs, map[[1] := [3]]);
    StrayCommitted(b.logs);
    r := b.Commit([op], [A, B], NoFault);
    ghost var segs := [[Record([1], [2])]];
    read := ReadLog(b.logs[A], b.runs[A].segmentCount, b.runs[A].logLen, LengthsOf(segs), segs);
  }

  lemma StrayHarms(e: Env, logs: Logs, t: Tree)
    requires e.manifest == map[] && logs == map[A := Segment([Record([1], [2])])] && t == map[[1] := [3]]
    ensures !Harmless(e, logs, map[A := t])
  {
    hide Segment, SortedRecords, Writable, LogOf, Early;
    OneRecord([1], [3]);
    OneFrames([1], [2]);
    OneFrames([1], [3]);
    OneRecord([1], [2]);
    var stray, rs := [[Record([1], [2])]], [Record([1], [3])];
    StrayThenSegment(stray, rs);
    assert Tail(e, logs, A) == Segment([Record([1], [2])]);
    assert !HarmlessAt(e, logs, A, SortedRecords(map[A := t][A]));
  }

  /** Where the put's entry points: at the leftover segment, of the same size. */
  lemma StrayCommitted(logs: Logs)
    requires logs == map[A := Segment([Record([1], [2])])]
    ensures
      var puts := map[A := map[[1] := [3]]];
      var grown, entries := AppendedAll(logs, puts), EntriesOf(ActionsFor(map[], puts));
      && A in grown && A in entries && entries[A] == RunEntry(1, HEADER_LEN + 10)
      && Reads(grown[A], 1, HEADER_LEN + 10, LengthsOf([[Record([1], [2])]]), [[Record([1], [2])]])
  {
    hide Segment, SortedRecords, Writable, LogOf, Reads;
    OneRecord([1], [3]);
    OneRecord([1], [2]);
    OneFrames([1], [2]);
    OneFrames([1], [3]);
    OneReads(AppendedAll(logs, map[A := map[[1] := [3]]])[A], [1], [2]);
  }

  // ---- a load that stops, or has nothing to do

  /** Finishing with nothing pending does not leave bulk mode. */
  method NothingPending() returns (r: Result<(), CommitError>, active: bool)
    ensures r.Ok? && active
  {
    hide Timeline, Covers, Contents, Lists;
    var b := new Backend(map[NS := Scattered]);
    b.BeginBulk(true);
    NoneListed();
    assert b.runs.Keys == {};
    r := b.FinishBulk(1, [NS], None);
    active := b.active;
  }

  lemma NoneListed()
    ensures Lists([NS], {})
  {
  }

  lemma OnlyOne(runs: map<Namespace, RunEntry>, ns: Namespace)
    requires ns in runs
    ensures runs - {ns} == map[] <==> runs.Keys == {ns}
  {
    assert (runs - {ns}).Keys == runs.Keys - {ns};
    if runs - {ns} == map[] {
      assert forall n :: n in runs && n != ns ==> n in runs - {ns};
    }
  }

  /** A load that stops after one namespace leaves it filled and, exactly when this
      bulk load let it start deferring and other logs remain, still deferred: no batch
      that puts to it is then safe to take. */
  method StopAfterOne(b: Backend, ns: Namespace, cap: nat) returns (split: bool)
    requires b.Valid() && ns in b.runs && cap > 0
    modifies b
    ensures b.Valid() && split == b.IsDeferred(ns)
    ensures split <==> old(b.active && b.enabled && ns in b.deferrable && b.runs.Keys != {ns})
    ensures split ==> forall ops :: OpsFor(ops, ns) != [] ==> !b.SafeToTake(ops)
  {
    hide Timeline, Covers, Contents, AddsNothing, OthersKept, Harmless, RoutedPuts, OpsFor;
    b.HoldsItsBatches();
    var _ := b.FinishNamespace(ns, cap, None);
    OnlyOne(old(b.runs), ns);
    split := b.IsDeferred(ns);
    if split {
      forall ops | OpsFor(ops, ns) != [] ensures !b.SafeToTake(ops) {
        FilledHarms(b.Current(), b.logs, ops, b.Deferring(), ns);
      }
    }
  }

  lemma FilledHarms(e: Env, logs: Logs, ops: Batch, deferred: set<Namespace>, ns: Namespace)
    requires ns in deferred && OpsFor(ops, ns) != [] && ns !in e.manifest && ns in e.trees && e.trees[ns] != map[]
    ensures !Harmless(e, logs, RoutedPuts(ops, deferred))
  {
    hide Segment, SortedRecords, OpsFor, Puts, Tail, Early;
    var puts := RoutedPuts(ops, deferred);
    assert ns in puts && !HarmlessAt(e, logs, ns, SortedRecords(puts[ns]));
  }

  /** Such a state is reached by two puts and a load that the environment stops at the
      second log; the next put to the first lands, and the store is no longer sound. */
  method StoppedLoad() returns (stopped: Result<(), CommitError>, next: Result<(), CommitError>, ghost sound: bool)
    ensures stopped.Err? && next.Ok? && !sound
  {
    hide Timeline, Covers, Contents, Replay, EnvOk, Lists, LogOf, Known, Holds;
    var b := new Backend(TwoScattered());
    BothDefer(b);
    TwoPending(b);
    stopped := StopAtSecond(b);
    next := PutToFilled(b);
    sound := b.Valid();
  }

  /** One record pending in each namespace. */
  method TwoPending(b: Backend)
    requires b.history != [] && b.pasts != [] && b.Valid() && b.Clean() && b.orders == TwoScattered()
    requires b.Deferring() == {A, B} && b.runs == map[] && b.active && b.enabled && b.deferrable == {A, B}
    modifies b`history, b`logs, b`runs, b`pasts, b`batches
    ensures b.history != [] && b.pasts != [] && b.Valid() && b.runs.Keys == {A, B}
    ensures A in b.View() && b.View()[A] != map[]
  {
    hide Timeline, Covers, Contents, Replay, EnvOk, Lists, LogOf, Known, Holds, Backend.Clean;
    TwoListed();
    assert A[0] != B[0];
    b.CurrentIsSound();
    assert A in b.View() by { ContentsAt(b.Current(), b.Segs()); }
    PutDeferred(b, A, [1], [2], [A, B]);
    assert [1] in b.View()[A];
    PutDeferred(b, B, [1], [2], [A, B]);
  }

  method StopAtSecond(b: Backend) returns (r: Result<(), CommitError>)
    requires b.history != [] && b.pasts != [] && b.Valid() && b.orders == TwoScattered() && b.runs.Keys == {A, B}
    modifies b
    ensures r.Err? && b.history != [] && b.pasts != [] && b.Valid() && b.View() == old(b.View()) && A !in b.runs
    ensures b.active == old(b.active) && b.enabled == old(b.enabled) && b.deferrable == old(b.deferrable)
  {
    hide Timeline, Covers, Contents, Replay, EnvOk, AddsNothing, Backend.Clean;
    TwoListed();
    assert A[0] != B[0];
    assert b.runs.Keys == TwoScattered().Keys;
    r := b.FinishBulk(1, [A, B], Some((B, 0)));
    b.HasStates();
    assert forall i :: 0 <= i < 2 && [A, B][i] == B ==> i == 1 && A in [A, B][..i];
  }

  /** A put to a namespace whose tree is filled and that still defers. */
  method PutToFilled(b: Backend) returns (r: Result<(), CommitError>)
    requires b.history != [] && b.pasts != [] && b.Valid() && b.orders == TwoScattered() && A !in b.runs
    requires b.active && b.enabled && b.deferrable == {A, B} && A in b.View() && b.View()[A] != map[]
    modifies b
    ensures r.Ok? && !b.Valid()
  {
    hide Timeline, Covers, Contents, Replay, EnvOk, Lists, Harmless, RoutedPuts, OpsFor, Accepts, WithBatch,
      AppendedAll, FailedLogs, Backend.Clean, Holds, TreesKept;
    TwoListed();
    var op := Put(A, [1], [3]);
    OneOpLands(b, op);
    b.NothingIsSplit(A);
    OpsOfOne(op, A);
    FilledHarms(b.Current(), b.logs, [op], b.Deferring(), A);
    r := b.Commit([op], [A, B], NoFault);
  }
}
