/** What one committed batch makes of the store: it stands for one batch more, or,
    under exactly the conditions given, no longer for what it should. */
module DeferralCommit {
  import opened Wrappers
  import opened ChainWorld
  import opened KvBatch
  import opened SortedKeys
  import opened WalkCommit
  import opened SegmentLog
  import opened SegmentMerge
  import opened DeferralState
  import opened DeferralAppend
  import Slices

  // ---- routing

  /** The last value put under each key of each deferred namespace the batch touches. */
  ghost function RoutedPuts(ops: Batch, deferred: set<Namespace>): map<Namespace, Tree> {
    map ns | ns in deferred && OpsFor(ops, ns) != [] :: Puts(OpsFor(ops, ns))
  }

  /** What the routing of a batch yields: those puts, with nothing deleted there. */
  ghost predicate Routed(ops: Batch, deferred: set<Namespace>, puts: map<Namespace, Tree>) {
    && (forall op :: op in ops && op.ns in deferred ==> op.Put?)
    && puts == RoutedPuts(ops, deferred)
  }

  lemma NothingRouted(deferred: set<Namespace>)
    ensures Direct([], deferred) == [] && Routed([], deferred, map[])
  {
    assert RoutedPuts([], deferred) == map[];
  }

  lemma RoutedGrows(ops: Batch, op: WriteOp, deferred: set<Namespace>, puts: map<Namespace, Tree>)
    requires Routed(ops, deferred, puts)
    ensures op.ns !in deferred ==> Routed(ops + [op], deferred, puts)
    ensures op.ns in deferred && op.Put? ==>
      Routed(ops + [op], deferred, puts[op.ns := (if op.ns in puts then puts[op.ns] else map[])[op.key := op.value]])
  {
    hide Puts, OpsFor;
    OpsForGrows(ops, op);
    NothingToDo(map[]);
    SplitGrows(map[], OpsFor(ops, op.ns), op);
    if op.ns !in deferred {
      assert RoutedPuts(ops + [op], deferred) == puts;
    } else if op.Put? {
      assert RoutedPuts(ops + [op], deferred) ==
             puts[op.ns := (if op.ns in puts then puts[op.ns] else map[])[op.key := op.value]];
    }
  }

  /** A routed batch is accepted when its puts can be framed and its rest commits. */
  lemma AcceptsRouted(e: Env, orders: Orders, ops: Batch, deferred: set<Namespace>, puts: map<Namespace, Tree>)
    requires e.trees.Keys == orders.Keys && Routed(ops, deferred, puts)
    ensures Accepts(e, orders, ops, deferred) <==>
            (forall ns :: ns in puts ==> Frames(puts[ns])) && Committable(e.trees, orders, Direct(ops, deferred))
  {
    hide Puts, OpsFor, Writable, SortedRecords, Committable, Direct;
    if forall ns :: ns in puts ==> Frames(puts[ns]) {
      forall ns | ns in deferred && OpsFor(ops, ns) != [] ensures Writable(SortedRecords(Puts(OpsFor(ops, ns)))) {
        assert ns in puts && Frames(puts[ns]);
      }
    }
  }

  // ---- segments after the batch

  /** Each deferred namespace the batch touches gets one more segment. */
  ghost function WithBatch(segs: Segments, puts: map<Namespace, Tree>): Segments {
    map ns | ns in segs.Keys + puts.Keys :: After(segs, puts, ns)
  }

  ghost function After(segs: Segments, puts: map<Namespace, Tree>, ns: Namespace): seq<seq<Record>> {
    if ns in puts then ListOf(segs, ns) + [SortedRecords(puts[ns])] else ListOf(segs, ns)
  }

  // ---- what a batch may not meet

  function CommittedLen(e: Env, ns: Namespace): nat {
    if ns in e.manifest then e.manifest[ns].logLen else 0
  }

  /** What stands on the log past its committed length. */
  function Tail(e: Env, logs: Logs, ns: Namespace): seq<Byte> {
    var log := LogAt(logs, ns);
    if CommittedLen(e, ns) <= |log| then log[CommittedLen(e, ns)..] else []
  }

  /** Every record at or below the load's mark is in the tree already. */
  predicate Early(e: Env, ns: Namespace, rs: seq<Record>) {
    forall k :: k in AsTree(rs) && AtMost(k, MarkOf(e, ns)) ==>
      ns in e.trees && k in e.trees[ns] && e.trees[ns][k] == AsTree(rs)[k]
  }

  /** One more segment does no harm: a first one finds an empty tree, leftover bytes
      on the log begin with the segment itself, and no record comes too late for a
      load that was stopped part way. */
  predicate HarmlessAt(e: Env, logs: Logs, ns: Namespace, rs: seq<Record>) {
    && (ns !in e.manifest ==> ns in e.trees && e.trees[ns] == map[])
    && Segment(rs) <= Tail(e, logs, ns) + Segment(rs)
    && Early(e, ns, rs)
  }

  ghost predicate Harmless(e: Env, logs: Logs, puts: map<Namespace, Tree>) {
    forall ns :: ns in puts ==> HarmlessAt(e, logs, ns, SortedRecords(puts[ns]))
  }

  /** The state the transaction commits. */
  ghost function Landed(e: Env, trees: Store, puts: map<Namespace, Tree>): Env {
    Env(trees, e.manifest + EntriesOf(ActionsFor(e.manifest, puts)), e.loaded)
  }

  /** A routed and accepted batch on a sound disk, its transaction's trees ready. */
  ghost predicate Lands(e: Env, orders: Orders, segs: Segments, logs: Logs, ops: Batch, deferred: set<Namespace>,
      puts: map<Namespace, Tree>, trees: Store)
  {
    && EnvOk(e, orders, segs) && Covers(logs, segs)
    && segs.Keys <= deferred && Scatters(orders, deferred)
    && Routed(ops, deferred, puts) && (forall ns :: ns in puts ==> Frames(puts[ns]))
    && e.trees.Keys == orders.Keys && Committable(e.trees, orders, Direct(ops, deferred))
    && trees == ApplyBatch(e.trees, Direct(ops, deferred))
  }

  // ---- one namespace

  /** The transaction leaves a deferred tree alone and applies the others' ops. */
  lemma NextTree(trees: Store, orders: Orders, ops: Batch, deferred: set<Namespace>, ns: Namespace)
    requires trees.Keys == orders.Keys && Committable(trees, orders, Direct(ops, deferred)) && ns in trees
    ensures ApplyBatch(trees, Direct(ops, deferred))[ns] ==
            if ns in deferred then trees[ns] else ApplyOps(trees[ns], OpsFor(ops, ns))
  {
    hide OpsFor, Direct, ApplyBatch, ApplyOps, Misordered;
    BatchIsPerNamespace(trees, Direct(ops, deferred), ns);
    DirectPerNamespace(ops, deferred, ns);
    NothingApplied(trees[ns]);
  }

  lemma NothingApplied(t: Tree)
    ensures ApplyOps(t, []) == t
  {
  }

  /** A tree loaded up to the mark still is, after one more segment, exactly when the
      segment's records up to the mark are in it. */
  lemma LoadedStillIff(t: Tree, ss: seq<seq<Record>>, mark: Option<Key>, rs: seq<Record>)
    requires t == UpTo(Merged(ss), mark)
    ensures t == UpTo(Merged(ss + [rs]), mark) <==>
            forall k :: k in AsTree(rs) && AtMost(k, mark) ==> k in t && t[k] == AsTree(rs)[k]
  {
    hide AtMost, AsTree, Merged;
    MergedGrows(ss, rs);
    var below := UpTo(AsTree(rs), mark);
    assert UpTo(Merged(ss + [rs]), mark) == t + below;
    if t == t + below {
      forall k | k in AsTree(rs) && AtMost(k, mark) ensures k in t && t[k] == AsTree(rs)[k] {
        assert (t + below)[k] == below[k];
      }
    }
  }

  lemma UnmarkedIsEmpty(t: Tree)
    ensures UpTo(t, None) == map[]
  {
  }

  lemma NextEntry(e: Env, orders: Orders, segs: Segments, puts: map<Namespace, Tree>, ns: Namespace)
    requires EnvOk(e, orders, segs) && ns in puts
    ensures
      var entries := EntriesOf(ActionsFor(e.manifest, puts));
      ns in entries && entries[ns] == RunEntry(|After(segs, puts, ns)|, |LogOf(After(segs, puts, ns))|)
  {
    hide LogOf, SortedRecords, Merged, UpTo, Segment;
    LogGrows(ListOf(segs, ns), SortedRecords(puts[ns]));
    NoLog();
    if ns in segs {
      assert EntryOk(e, segs, ns);
    }
  }

  lemma NoLog()
    ensures LogOf([]) == [] && Merged([]) == map[]
  {
  }

  /** A touched namespace's new entry is right exactly when its first segment finds
      an empty tree and no record comes late. */
  lemma TouchedIff(e: Env, orders: Orders, segs: Segments, puts: map<Namespace, Tree>, trees: Store, ns: Namespace)
    requires EnvOk(e, orders, segs) && ns in puts && ns in e.trees && ns in trees && trees[ns] == e.trees[ns]
    ensures
      var rs := SortedRecords(puts[ns]);
      EntryOk(Landed(e, trees, puts), WithBatch(segs, puts), ns) <==>
      (ns !in e.manifest ==> e.trees[ns] == map[]) && Early(e, ns, rs)
  {
    hide LogOf, SortedRecords, Merged, UpTo, AtMost, AsTree, EntriesOf, ActionsFor;
    NextEntry(e, orders, segs, puts, ns);
    NoLog();
    var rs, mark := SortedRecords(puts[ns]), MarkOf(e, ns);
    if ns in segs {
      assert EntryOk(e, segs, ns);
    }
    if ns in segs || e.trees[ns] == map[] {
      if ns !in segs {
        UnmarkedIsEmpty(Merged([]));
      }
      LoadedStillIff(e.trees[ns], ListOf(segs, ns), mark, rs);
    } else {
      UnmarkedIsEmpty(Merged(ListOf(segs, ns) + [rs]));
    }
  }

  lemma UntouchedStays(e: Env, orders: Orders, segs: Segments, puts: map<Namespace, Tree>, trees: Store, ns: Namespace)
    requires EnvOk(e, orders, segs) && ns in segs && ns !in puts && ns in trees && trees[ns] == e.trees[ns]
    ensures ns in WithBatch(segs, puts) && EntryOk(Landed(e, trees, puts), WithBatch(segs, puts), ns)
  {
    hide LogOf, Merged, UpTo, SortedRecords, EntriesOf;
    assert EntryOk(e, segs, ns);
    assert ns !in EntriesOf(ActionsFor(e.manifest, puts)) by { EntryNames(e.manifest, puts); }
  }

  lemma EntryNames(runs: map<Namespace, RunEntry>, puts: map<Namespace, Tree>)
    ensures EntriesOf(ActionsFor(runs, puts)).Keys == puts.Keys
  {
  }

  /** The segment lands where the entry says exactly when leftover bytes begin with it. */
  lemma CoveredIff(e: Env, orders: Orders, segs: Segments, logs: Logs, puts: map<Namespace, Tree>, ns: Namespace)
    requires EnvOk(e, orders, segs) && Covers(logs, segs) && ns in puts
    ensures
      var bytes, grown := BytesFor(puts[ns]), AppendedAll(logs, puts);
      && ns in grown
      && (LogOf(After(segs, puts, ns)) <= grown[ns] <==> bytes <= Tail(e, logs, ns) + bytes)
  {
    hide LogOf, Segment, SortedRecords, Merged, UpTo;
    NoLog();
    LogGrows(ListOf(segs, ns), SortedRecords(puts[ns]));
    if ns in segs {
      assert EntryOk(e, segs, ns);
    }
    var committed, tail, bytes := LogOf(ListOf(segs, ns)), Tail(e, logs, ns), BytesFor(puts[ns]);
    assert LogAt(logs, ns) == committed + tail;
    Slices.Associates(committed, tail, bytes);
    PrefixAfter(committed, bytes, tail + bytes);
  }

  lemma PrefixAfter<T>(a: seq<T>, x: seq<T>, y: seq<T>)
    ensures a + x <= a + y <==> x <= y
  {
    if x <= y {
      assert a + y == (a + x) + y[|x|..];
    }
    if a + x <= a + y {
      assert (a + y)[..|a + x|] == a + x;
      assert (a + y)[|a|..|a + x|] == y[..|x|] && (a + x)[|a|..|a + x|] == x;
    }
  }

  // ---- the whole batch

  lemma BatchNames(segs: Segments, puts: map<Namespace, Tree>)
    ensures WithBatch(segs, puts).Keys == segs.Keys + puts.Keys
    ensures forall ns :: ns in WithBatch(segs, puts) ==> WithBatch(segs, puts)[ns] == After(segs, puts, ns)
  {
  }

  lemma PutsNotEmpty(ops: Batch)
    requires ops != [] && forall op :: op in ops ==> op.Put?
    ensures Puts(ops) != map[]
  {
    hide Puts;
    PutsHasPutKeys(ops);
    assert ops[0] in ops && ops[0].key in PutKeys(ops);
  }

  lemma BatchSegsOk(segs: Segments, ops: Batch, deferred: set<Namespace>, puts: map<Namespace, Tree>)
    requires SegsOk(segs) && Routed(ops, deferred, puts) && forall ns :: ns in puts ==> Frames(puts[ns])
    ensures SegsOk(WithBatch(segs, puts))
  {
    hide Puts, OpsFor, Writable, SortedRecords, SegmentOk, WithBatch;
    BatchNames(segs, puts);
    forall ns | ns in WithBatch(segs, puts) ensures ListOk(After(segs, puts, ns)) {
      if ns in puts {
        RoutedSegmentOk(ops, deferred, puts, ns);
      }
    }
  }

  lemma RoutedSegmentOk(ops: Batch, deferred: set<Namespace>, puts: map<Namespace, Tree>, ns: Namespace)
    requires Routed(ops, deferred, puts) && ns in puts && Frames(puts[ns])
    ensures SegmentOk(SortedRecords(puts[ns]))
  {
    hide Puts, OpsFor, Writable, SortedRecords;
    PutsNotEmpty(OpsFor(ops, ns));
    NoRecords();
  }

  /** The store stays sound exactly when the batch is harmless. */
  lemma SoundIff(e: Env, orders: Orders, segs: Segments, logs: Logs, ops: Batch, deferred: set<Namespace>,
      puts: map<Namespace, Tree>, trees: Store)
    requires Lands(e, orders, segs, logs, ops, deferred, puts, trees)
    ensures
      EnvOk(Landed(e, trees, puts), orders, WithBatch(segs, puts)) && Covers(AppendedAll(logs, puts), WithBatch(segs, puts))
      <==> Harmless(e, logs, puts)
  {
    hide EntryOk, SegsOk, Frames, Routed, Committable, ApplyBatch, Direct, LogOf, Segment, SortedRecords, Early, Tail,
      WithBatch, Landed, After, EnvOk, Covers, AppendedAll;
    BatchFacts(e, orders, segs, logs, ops, deferred, puts, trees);
    var next, more, grown := Landed(e, trees, puts), WithBatch(segs, puts), AppendedAll(logs, puts);
    forall ns | ns in puts
      ensures HarmlessAt(e, logs, ns, SortedRecords(puts[ns])) <==> EntryOk(next, more, ns) && CoveredAt(grown, more, ns)
    {
      TouchedIff(e, orders, segs, puts, trees, ns);
      CoveredIff(e, orders, segs, logs, puts, ns);
      BatchNames(segs, puts);
    }
    SoundFromParts(e, orders, segs, logs, puts, trees);
  }

  ghost predicate CoveredAt(logs: Logs, segs: Segments, ns: Namespace)
    requires ns in segs
  {
    ns in logs && LogOf(segs[ns]) <= logs[ns]
  }

  /** What holds of a landing batch whether or not it does harm. */
  lemma BatchFacts(e: Env, orders: Orders, segs: Segments, logs: Logs, ops: Batch, deferred: set<Namespace>,
      puts: map<Namespace, Tree>, trees: Store)
    requires Lands(e, orders, segs, logs, ops, deferred, puts, trees)
    ensures EnvOk(e, orders, segs) && Covers(logs, segs)
    ensures puts.Keys <= deferred && segs.Keys <= deferred && Scatters(orders, deferred)
    ensures e.trees.Keys == trees.Keys == orders.Keys
    ensures forall ns :: ns in deferred ==> ns in trees && trees[ns] == e.trees[ns]
    ensures SegsOk(WithBatch(segs, puts)) && WithBatch(segs, puts).Keys == segs.Keys + puts.Keys
    ensures forall op :: op in ops ==> op.ns in orders
  {
    hide EntryOk, ListOk, Frames, ApplyBatch, Direct, OpsFor, WithBatch, Misordered, Covers;
    BatchSegsOk(segs, ops, deferred, puts);
    BatchNames(segs, puts);
    forall ns | ns in deferred ensures ns in trees && trees[ns] == e.trees[ns] {
      NextTree(e.trees, orders, ops, deferred, ns);
    }
    forall op | op in ops ensures op.ns in orders {
      if op.ns !in deferred {
        assert op in Direct(ops, deferred);
      }
    }
  }

  lemma LandedFields(e: Env, trees: Store, puts: map<Namespace, Tree>)
    ensures
      var next := Landed(e, trees, puts);
      next.trees == trees && next.loaded == e.loaded && next.manifest.Keys == e.manifest.Keys + puts.Keys
  {
    hide EntriesOf, ActionsFor;
    EntryNames(e.manifest, puts);
  }

  lemma SoundFromParts(e: Env, orders: Orders, segs: Segments, logs: Logs, puts: map<Namespace, Tree>, trees: Store)
    requires EnvOk(e, orders, segs) && Covers(logs, segs) && trees.Keys == orders.Keys
    requires forall ns :: ns in puts ==> ns in orders && orders[ns] == Scattered
    requires forall ns :: ns in segs ==> ns in trees && trees[ns] == e.trees[ns]
    requires WithBatch(segs, puts).Keys == segs.Keys + puts.Keys && SegsOk(WithBatch(segs, puts))
    ensures
      EnvOk(Landed(e, trees, puts), orders, WithBatch(segs, puts)) && Covers(AppendedAll(logs, puts), WithBatch(segs, puts))
      <==> forall ns :: ns in puts ==>
        && EntryOk(Landed(e, trees, puts), WithBatch(segs, puts), ns)
        && CoveredAt(AppendedAll(logs, puts), WithBatch(segs, puts), ns)
  {
    hide EntryOk, SegsOk, WithBatch, CoveredAt, EnvOk, Covers, Landed, AppendedAll;
    EnvFromParts(e, orders, segs, puts, trees);
    CoversFromParts(logs, segs, puts);
  }

  lemma EnvFromParts(e: Env, orders: Orders, segs: Segments, puts: map<Namespace, Tree>, trees: Store)
    requires EnvOk(e, orders, segs) && trees.Keys == orders.Keys
    requires forall ns :: ns in puts ==> ns in orders && orders[ns] == Scattered
    requires forall ns :: ns in segs ==> ns in trees && trees[ns] == e.trees[ns]
    requires WithBatch(segs, puts).Keys == segs.Keys + puts.Keys && SegsOk(WithBatch(segs, puts))
    ensures EnvOk(Landed(e, trees, puts), orders, WithBatch(segs, puts)) <==>
            forall ns :: ns in puts ==> EntryOk(Landed(e, trees, puts), WithBatch(segs, puts), ns)
  {
    hide EntryOk, SegsOk, WithBatch, Landed;
    LandedFields(e, trees, puts);
    forall ns | ns in segs && ns !in puts ensures EntryOk(Landed(e, trees, puts), WithBatch(segs, puts), ns) {
      UntouchedStays(e, orders, segs, puts, trees, ns);
    }
  }

  lemma CoversFromParts(logs: Logs, segs: Segments, puts: map<Namespace, Tree>)
    requires Covers(logs, segs) && WithBatch(segs, puts).Keys == segs.Keys + puts.Keys
    ensures Covers(AppendedAll(logs, puts), WithBatch(segs, puts)) <==>
            forall ns :: ns in puts ==> CoveredAt(AppendedAll(logs, puts), WithBatch(segs, puts), ns)
  {
    hide LogOf, SortedRecords, BytesFor;
    forall ns | ns in segs && ns !in puts ensures CoveredAt(AppendedAll(logs, puts), WithBatch(segs, puts), ns) {
      assert WithBatch(segs, puts)[ns] == segs[ns] && AppendedAll(logs, puts)[ns] == logs[ns];
    }
  }

  // ---- what the store then holds

  /** The namespace's contents after the commit are its ops applied in order to
      its contents before it. */
  lemma NextVisible(e: Env, orders: Orders, segs: Segments, logs: Logs, ops: Batch, deferred: set<Namespace>,
      puts: map<Namespace, Tree>, trees: Store, ns: Namespace)
    requires Lands(e, orders, segs, logs, ops, deferred, puts, trees) && Harmless(e, logs, puts)
    requires ns in e.trees && ns in trees
    ensures Visible(Landed(e, trees, puts), WithBatch(segs, puts), ns) == ApplyOps(Visible(e, segs, ns), OpsFor(ops, ns))
  {
    hide ApplyOps, Puts, OpsFor, Direct, ApplyBatch, LogOf, SortedRecords, Merged, EntryOk, SegsOk, Frames, Segment,
      Early, Tail, Misordered, Covers;
    BatchNames(segs, puts);
    NextTree(e.trees, orders, ops, deferred, ns);
    if ns in puts {
      assert HarmlessAt(e, logs, ns, SortedRecords(puts[ns]));
      NoLog();
      MergedGrows(ListOf(segs, ns), SortedRecords(puts[ns]));
      PutsOnly(Visible(e, segs, ns), OpsFor(ops, ns));
    } else if ns in deferred {
      assert OpsFor(ops, ns) == [];
      NothingApplied(Visible(e, segs, ns));
    }
  }

  /** Without deletes, a namespace's ops lay their puts over what it holds. */
  lemma PutsOnly(t: Tree, ops: Batch)
    requires forall op :: op in ops ==> op.Put?
    ensures ApplyOps(t, ops) == t + Puts(ops)
  {
  }

  /** A harmless batch is applied as if op by op to what the store holds. */
  lemma NextContents(e: Env, orders: Orders, segs: Segments, logs: Logs, ops: Batch, deferred: set<Namespace>,
      puts: map<Namespace, Tree>, trees: Store)
    requires Lands(e, orders, segs, logs, ops, deferred, puts, trees) && Harmless(e, logs, puts)
    ensures Contents(e, segs).Keys == orders.Keys && (forall op :: op in ops ==> op.ns in orders)
    ensures Contents(Landed(e, trees, puts), WithBatch(segs, puts)) == ApplyBatch(Contents(e, segs), ops)
  {
    hide ApplyOps, OpsFor, ApplyBatch, Visible, WithBatch, Lands, Harmless, Landed, EnvOk, Covers, SegsOk, Contents;
    BatchFacts(e, orders, segs, logs, ops, deferred, puts, trees);
    LandedFields(e, trees, puts);
    var was, now := Contents(e, segs), Contents(Landed(e, trees, puts), WithBatch(segs, puts));
    ContentsAt(e, segs);
    ContentsAt(Landed(e, trees, puts), WithBatch(segs, puts));
    forall ns | ns in was ensures now[ns] == ApplyOps(was[ns], OpsFor(ops, ns)) {
      NextVisible(e, orders, segs, logs, ops, deferred, puts, trees, ns);
    }
    BatchFromNamespaces(was, ops, now);
  }

  lemma ContentsAt(e: Env, segs: Segments)
    ensures Contents(e, segs).Keys == e.trees.Keys
    ensures forall ns :: ns in e.trees ==> Contents(e, segs)[ns] == Visible(e, segs, ns)
  {
  }

  /** How the committed state follows from the one before. */
  lemma BatchSteps(e: Env, orders: Orders, segs: Segments, logs: Logs, ops: Batch, deferred: set<Namespace>,
      puts: map<Namespace, Tree>, trees: Store)
    requires Lands(e, orders, segs, logs, ops, deferred, puts, trees)
    requires EnvOk(Landed(e, trees, puts), orders, WithBatch(segs, puts))
    ensures StepsTo(orders, e, segs, ops, Landed(e, trees, puts), WithBatch(segs, puts))
  {
    hide Direct, ApplyBatch, SegsOk, Frames, Committable, Covers, EnvOk, Landed, WithBatch, LogSteps, Routed, Accepts;
    BatchFacts(e, orders, segs, logs, ops, deferred, puts, trees);
    AcceptsRouted(e, orders, ops, deferred, puts);
    assert Took(e, orders, segs, ops, deferred);
    BatchNames(segs, puts);
    forall ns | ns in segs && ns in WithBatch(segs, puts)
      ensures LogSteps(e, segs[ns], ops, Landed(e, trees, puts), WithBatch(segs, puts)[ns], ns)
    {
      BatchStepsAt(e, orders, segs, ops, deferred, puts, trees, ns);
    }
  }

  lemma BatchStepsAt(e: Env, orders: Orders, segs: Segments, ops: Batch, deferred: set<Namespace>,
      puts: map<Namespace, Tree>, trees: Store, ns: Namespace)
    requires EnvOk(e, orders, segs) && EnvOk(Landed(e, trees, puts), orders, WithBatch(segs, puts))
    requires Routed(ops, deferred, puts) && ns in segs && ns in deferred && ns in WithBatch(segs, puts)
    requires ns in trees && trees[ns] == e.trees[ns]
    ensures LogSteps(e, segs[ns], ops, Landed(e, trees, puts), WithBatch(segs, puts)[ns], ns)
  {
    hide Puts, OpsFor, LogOf, SortedRecords, Merged, EnvOk, UpTo, AtMost, Landed, WithBatch;
    LandedFields(e, trees, puts);
    BatchNames(segs, puts);
    EntryAt(e, orders, segs, ns);
    EntryAt(Landed(e, trees, puts), orders, WithBatch(segs, puts), ns);
    MarkStays(MarkOf(e, ns));
    assert segs[ns] + [] == segs[ns];
  }

  /** With the batch's state the timeline goes on and the logs cover it exactly when
      the batch is harmless, and the store then holds the batch applied op by op. */
  lemma LandsIff(history: seq<Env>, pasts: seq<Segments>, orders: Orders, batches: seq<Batch>, logs: Logs, ops: Batch,
      deferred: set<Namespace>, puts: map<Namespace, Tree>, trees: Store)
    requires Timeline(history, pasts, orders, batches) && history != [] && pasts != []
    requires Lands(history[|history| - 1], orders, pasts[|pasts| - 1], logs, ops, deferred, puts, trees)
    ensures
      var e, segs := history[|history| - 1], pasts[|pasts| - 1];
      var next, more := Landed(e, trees, puts), WithBatch(segs, puts);
      && (Timeline(history + [next], pasts + [more], orders, batches + [ops]) && Covers(AppendedAll(logs, puts), more)
          <==> Harmless(e, logs, puts))
      && Contents(e, segs).Keys == orders.Keys && (forall op :: op in ops ==> op.ns in orders)
      && (Harmless(e, logs, puts) ==> Contents(next, more) == ApplyBatch(Contents(e, segs), ops))
  {
    hide Timeline, Lands, Harmless, Landed, WithBatch, EnvOk, Covers, AppendedAll, Contents, ApplyBatch, StepsTo,
      SegsOk, Replay;
    var e, segs := history[|history| - 1], pasts[|pasts| - 1];
    var next, more := Landed(e, trees, puts), WithBatch(segs, puts);
    BatchFacts(e, orders, segs, logs, ops, deferred, puts, trees);
    ContentsAt(e, segs);
    SoundIff(e, orders, segs, logs, ops, deferred, puts, trees);
    if Timeline(history + [next], pasts + [more], orders, batches + [ops]) {
      TimelineLast(history + [next], pasts + [more], orders, batches + [ops]);
    }
    if Harmless(e, logs, puts) {
      NextContents(e, orders, segs, logs, ops, deferred, puts, trees);
      BatchSteps(e, orders, segs, logs, ops, deferred, puts, trees);
      TimelineGrows(history, pasts, orders, batches, next, more, ops);
    }
  }
}
