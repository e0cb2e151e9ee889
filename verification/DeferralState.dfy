/** What the deferral of scattered writes keeps on disk: committed environment
    states, the run logs beside them, and the contents the two stand for. */
module DeferralState {
  import opened Wrappers
  import opened ChainWorld
  import opened KvBatch
  import opened SortedKeys
  import opened WalkCommit
  import opened SegmentLog
  import opened SegmentMerge

  /** How far a namespace's run log is committed. */
  datatype RunEntry = RunEntry(segmentCount: nat, logLen: nat)

  /** One committed state of the environment: the trees, the run entries and how
      far an unfinished load of each log has got. */
  datatype Env = Env(trees: Store, manifest: map<Namespace, RunEntry>, loaded: map<Namespace, Key>)

  type Orders = map<Namespace, KeyOrder>
  type Segments = map<Namespace, seq<seq<Record>>>
  type Logs = map<Namespace, seq<Byte>>
  type Batch = seq<WriteOp>

  function MarkOf(e: Env, ns: Namespace): Option<Key> {
    if ns in e.loaded then Some(e.loaded[ns]) else None
  }

  /** A run entry gives the extent of the namespace's segments, and the tree holds
      what they hold up to the load's mark: nothing, when no load has begun. */
  ghost predicate EntryOk(e: Env, segs: Segments, ns: Namespace)
    requires ns in segs
  {
    && segs[ns] != []
    && ns in e.manifest && e.manifest[ns] == RunEntry(|segs[ns]|, |LogOf(segs[ns])|)
    && ns in e.trees && e.trees[ns] == UpTo(Merged(segs[ns]), MarkOf(e, ns))
  }

  ghost predicate EnvOk(e: Env, orders: Orders, segs: Segments) {
    && e.trees.Keys == orders.Keys && e.manifest.Keys == segs.Keys && e.loaded.Keys <= segs.Keys
    && SegsOk(segs)
    && forall ns :: ns in segs ==> ns in orders && orders[ns] == Scattered && EntryOk(e, segs, ns)
  }

  lemma EntryAt(e: Env, orders: Orders, segs: Segments, ns: Namespace)
    requires EnvOk(e, orders, segs) && ns in segs
    ensures EntryOk(e, segs, ns) && ListOk(segs[ns])
  {
    hide EntryOk, ListOk;
  }

  /** What a namespace holds, whether in its tree or still in its run log. */
  ghost function Visible(e: Env, segs: Segments, ns: Namespace): Tree
    requires ns in e.trees
  {
    if ns in segs then Merged(segs[ns]) else e.trees[ns]
  }

  ghost function Contents(e: Env, segs: Segments): Store {
    map ns | ns in e.trees :: Visible(e, segs, ns)
  }

  ghost predicate SegsOk(segs: Segments) {
    forall ns :: ns in segs ==> ListOk(segs[ns])
  }

  ghost predicate ListOk(ss: seq<seq<Record>>) {
    forall i :: 0 <= i < |ss| ==> SegmentOk(ss[i])
  }

  ghost predicate SegmentOk(rs: seq<Record>) {
    Writable(rs) && Ascending(rs) && rs != []
  }

  /** The segments of a namespace, none when it has no log. */
  ghost function ListOf(segs: Segments, ns: Namespace): seq<seq<Record>> {
    if ns in segs then segs[ns] else []
  }

  // ---- logs

  function LogAt(logs: Logs, ns: Namespace): seq<Byte> {
    if ns in logs then logs[ns] else []
  }

  /** Every committed segment is on disk; more bytes may stand after them. */
  ghost predicate Covers(logs: Logs, segs: Segments) {
    forall ns :: ns in segs ==> ns in logs && LogOf(segs[ns]) <= logs[ns]
  }

  /** The logs are the committed segments and nothing else. */
  ghost predicate Holds(logs: Logs, segs: Segments) {
    && logs.Keys == segs.Keys
    && forall ns :: ns in segs ==> logs[ns] == LogOf(segs[ns])
  }

  lemma HoldsCovers(logs: Logs, segs: Segments)
    requires Holds(logs, segs)
    ensures Covers(logs, segs)
  {
    hide LogOf;
  }

  /** Logs that only grew still cover the segments, and any prefix of them. */
  lemma CoversMore(logs: Logs, more: Logs, segs: Segments, fewer: Segments)
    requires Covers(logs, segs)
    requires forall ns :: ns in logs ==> ns in more && logs[ns] <= more[ns]
    requires forall ns :: ns in fewer ==> ns in segs && fewer[ns] <= segs[ns]
    ensures Covers(more, fewer)
  {
    hide LogOf;
    forall ns | ns in fewer ensures ns in more && LogOf(fewer[ns]) <= more[ns] {
      LogOfPrefix(segs[ns], |fewer[ns]|);
      assert segs[ns][..|fewer[ns]|] == fewer[ns];
    }
  }

  // ---- replaying batches

  ghost function Empty(orders: Orders): Store {
    map ns | ns in orders :: map[]
  }

  ghost predicate Known(batches: seq<Batch>, orders: Orders) {
    forall b, op :: b in batches && op in b ==> op.ns in orders
  }

  /** The batches applied one after another, each op by op. */
  ghost function Replay(s: Store, orders: Orders, batches: seq<Batch>): (r: Store)
    requires s.Keys == orders.Keys && Known(batches, orders)
    ensures r.Keys == s.Keys
    decreases |batches|
  {
    if batches == [] then s
    else
      var init, last := batches[..|batches| - 1], batches[|batches| - 1];
      assert last in batches && forall b :: b in init ==> b in batches;
      ApplyBatch(Replay(s, orders, init), last)
  }

  lemma ReplayGrows(s: Store, orders: Orders, batches: seq<Batch>, b: Batch)
    requires s.Keys == orders.Keys && Known(batches, orders) && Known([b], orders)
    ensures Known(batches + [b], orders)
    ensures Replay(s, orders, batches + [b]) == ApplyBatch(Replay(s, orders, batches), b)
  {
  }

  lemma EmptyBatch(s: Store)
    ensures ApplyBatch(s, []) == s
  {
  }

  // ---- one committed state after another

  /** The segment a batch adds to a deferred namespace it touches. */
  ghost function NewSegment(b: Batch, ns: Namespace): seq<seq<Record>> {
    if OpsFor(b, ns) == [] then [] else [SortedRecords(Puts(OpsFor(b, ns)))]
  }

  /** The batch was taken while `deferred` went to logs, every pending one included. */
  ghost predicate Took(e: Env, orders: Orders, segs: Segments, b: Batch, deferred: set<Namespace>)
    requires e.trees.Keys == orders.Keys
  {
    && segs.Keys <= deferred && Scatters(orders, deferred)
    && Accepts(e, orders, b, deferred)
  }

  ghost predicate Scatters(orders: Orders, names: set<Namespace>) {
    forall ns :: ns in names ==> ns in orders && orders[ns] == Scattered
  }

  /** How a committed state leads to the next: a batch was taken, or a load moved
      contents. A log that is still there only grew, by the batch's own segment,
      its mark did not fall and what lies up to the mark did not change. */
  ghost predicate StepsTo(orders: Orders, e: Env, segs: Segments, b: Batch, e': Env, segs': Segments)
    requires e.trees.Keys == orders.Keys
  {
    && (b == [] || exists deferred :: Took(e, orders, segs, b, deferred))
    && forall ns :: ns in segs && ns in segs' ==> LogSteps(e, segs[ns], b, e', segs'[ns], ns)
  }

  ghost predicate LogSteps(e: Env, ss: seq<seq<Record>>, b: Batch, e': Env, ss': seq<seq<Record>>, ns: Namespace) {
    && ss' == ss + NewSegment(b, ns)
    && NoLater(MarkOf(e, ns), MarkOf(e', ns))
    && UpTo(Merged(ss'), MarkOf(e, ns)) == UpTo(Merged(ss), MarkOf(e, ns))
  }

  /** The state stands for the first `n` batches. */
  ghost predicate StandsAt(e: Env, orders: Orders, segs: Segments, batches: seq<Batch>, n: nat)
    requires Known(batches, orders)
  {
    && n <= |batches|
    && EnvOk(e, orders, segs)
    && (assert Known(batches[..n], orders);
        Contents(e, segs) == Replay(Empty(orders), orders, batches[..n]))
  }

  /** How many batches the state at `j` stands for, the last one standing for all. */
  function CountAt(history: seq<Env>, batches: seq<Batch>, j: nat): int {
    |batches| + 1 - |history| + j
  }

  /** The state at `j` came from the one before by its batch. */
  ghost predicate StepAt(history: seq<Env>, pasts: seq<Segments>, orders: Orders, batches: seq<Batch>, j: nat)
    requires 0 < j < |history| == |pasts| <= |batches| + 1
  {
    && history[j - 1].trees.Keys == orders.Keys
    && StepsTo(orders, history[j - 1], pasts[j - 1], batches[CountAt(history, batches, j) - 1], history[j], pasts[j])
  }

  /** The environment states a crash may fall back to, `history[0]` being the last
      flushed one, each with the segments its run entries name. Each stands for the
      batches committed up to it, whatever became of the logs since. */
  ghost predicate Timeline(history: seq<Env>, pasts: seq<Segments>, orders: Orders, batches: seq<Batch>) {
    && 0 < |history| == |pasts| <= |batches| + 1
    && Known(batches, orders)
    && (forall j :: 0 <= j < |history| ==>
          StandsAt(history[j], orders, pasts[j], batches, CountAt(history, batches, j)))
    && (forall j :: 0 < j < |history| ==> StepAt(history, pasts, orders, batches, j))
  }

  lemma TimelineAt(history: seq<Env>, pasts: seq<Segments>, orders: Orders, batches: seq<Batch>, j: nat)
    requires Timeline(history, pasts, orders, batches) && j < |history|
    ensures EnvOk(history[j], orders, pasts[j]) && history[j].manifest.Keys == pasts[j].Keys
    ensures
      var n := CountAt(history, batches, j);
      && 0 <= n <= |batches| && Known(batches[..n], orders)
      && Contents(history[j], pasts[j]) == Replay(Empty(orders), orders, batches[..n])
  {
    hide Contents, Replay, EntryOk, SegsOk, StepAt;
    var n := CountAt(history, batches, j);
    assert StandsAt(history[j], orders, pasts[j], batches, n);
    assert forall b :: b in batches[..n] ==> b in batches;
  }

  lemma TimelineLast(history: seq<Env>, pasts: seq<Segments>, orders: Orders, batches: seq<Batch>)
    requires Timeline(history, pasts, orders, batches)
    ensures history != [] && pasts != [] && Known(batches, orders)
    ensures EnvOk(history[|history| - 1], orders, pasts[|pasts| - 1])
    ensures Contents(history[|history| - 1], pasts[|pasts| - 1]) == Replay(Empty(orders), orders, batches)
  {
    hide EnvOk, Contents, Replay, StepAt, StandsAt;
    TimelineAt(history, pasts, orders, batches, |history| - 1);
    assert batches[..|batches|] == batches;
  }

  /** A state keeps standing when batches are added after it. */
  lemma StandsLater(e: Env, orders: Orders, segs: Segments, batches: seq<Batch>, b: Batch, n: nat)
    requires Known(batches, orders) && Known(batches + [b], orders)
    requires StandsAt(e, orders, segs, batches, n)
    ensures StandsAt(e, orders, segs, batches + [b], n)
  {
    hide EnvOk, Contents, Replay;
    assert (batches + [b])[..n] == batches[..n];
  }

  lemma StepsLater(history: seq<Env>, pasts: seq<Segments>, orders: Orders, batches: seq<Batch>, e: Env, segs: Segments,
      b: Batch, j: nat)
    requires 0 < j < |history| == |pasts| <= |batches| + 1 && StepAt(history, pasts, orders, batches, j)
    ensures StepAt(history + [e], pasts + [segs], orders, batches + [b], j)
  {
    hide StepsTo;
    var now, were, all := history + [e], pasts + [segs], batches + [b];
    var n := CountAt(history, batches, j) - 1;
    assert now[j - 1] == history[j - 1] && now[j] == history[j] && were[j - 1] == pasts[j - 1] && were[j] == pasts[j];
    assert CountAt(now, all, j) - 1 == n && all[n] == batches[n];
  }

  /** One more committed state, for one more batch. */
  lemma TimelineGrows(history: seq<Env>, pasts: seq<Segments>, orders: Orders, batches: seq<Batch>,
      e: Env, segs: Segments, ops: Batch)
    requires Timeline(history, pasts, orders, batches) && Known([ops], orders) && EnvOk(e, orders, segs)
    requires
      var last, was := history[|history| - 1], Contents(history[|history| - 1], pasts[|pasts| - 1]);
      && last.trees.Keys == orders.Keys && was.Keys == orders.Keys
      && (assert ops in [ops]; Contents(e, segs) == ApplyBatch(was, ops))
      && StepsTo(orders, last, pasts[|pasts| - 1], ops, e, segs)
    ensures Timeline(history + [e], pasts + [segs], orders, batches + [ops])
  {
    hide EnvOk, Contents, Replay, ApplyBatch, StepsTo, StepAt, StandsAt;
    var now, were, all := history + [e], pasts + [segs], batches + [ops];
    TimelineLast(history, pasts, orders, batches);
    ReplayGrows(Empty(orders), orders, batches, ops);
    forall j | 0 <= j < |now| ensures StandsAt(now[j], orders, were[j], all, CountAt(now, all, j)) {
      if j < |history| {
        assert StandsAt(history[j], orders, pasts[j], batches, CountAt(history, batches, j));
        StandsLater(history[j], orders, pasts[j], batches, ops, CountAt(history, batches, j));
      } else {
        StandsForAll(e, orders, segs, all);
      }
    }
    forall j | 0 < j < |now| ensures StepAt(now, were, orders, all, j) {
      if j < |history| {
        StepsLater(history, pasts, orders, batches, e, segs, ops, j);
      } else {
        StepNow(history, pasts, orders, batches, e, segs, ops);
      }
    }
  }

  lemma StandsForAll(e: Env, orders: Orders, segs: Segments, batches: seq<Batch>)
    requires Known(batches, orders) && EnvOk(e, orders, segs)
    requires Contents(e, segs) == Replay(Empty(orders), orders, batches)
    ensures StandsAt(e, orders, segs, batches, |batches|)
  {
    hide EnvOk, Contents, Replay;
    assert batches[..|batches|] == batches;
  }

  lemma StepNow(history: seq<Env>, pasts: seq<Segments>, orders: Orders, batches: seq<Batch>, e: Env, segs: Segments,
      b: Batch)
    requires 0 < |history| == |pasts| <= |batches| + 1 && history[|history| - 1].trees.Keys == orders.Keys
    requires StepsTo(orders, history[|history| - 1], pasts[|pasts| - 1], b, e, segs)
    ensures StepAt(history + [e], pasts + [segs], orders, batches + [b], |history|)
  {
    hide StepsTo;
  }

  /** A timeline of one state. */
  lemma TimelineOf(history: seq<Env>, pasts: seq<Segments>, orders: Orders, batches: seq<Batch>, k: nat)
    requires Timeline(history, pasts, orders, batches) && k < |history|
    ensures
      var n := CountAt(history, batches, k);
      0 <= n <= |batches| && Timeline([history[k]], [pasts[k]], orders, batches[..n])
  {
    hide EnvOk, Contents, Replay, StepAt, StandsAt;
    var n := CountAt(history, batches, k);
    TimelineAt(history, pasts, orders, batches, k);
    StandsForAll(history[k], orders, pasts[k], batches[..n]);
  }

  lemma OpensEmpty(orders: Orders)
    ensures Timeline([Env(Empty(orders), map[], map[])], [map[]], orders, [])
  {
    var e: Env := Env(Empty(orders), map[], map[]);
    assert Contents(e, map[]) == Empty(orders);
    StandsForAll(e, orders, map[], []);
  }

  // ---- whether a state's logs are still there

  /** No log pending at state `k` was removed since: its run entry stands in every
      later state. */
  predicate Intact(history: seq<Env>, k: nat)
    requires k < |history|
  {
    forall j :: k <= j < |history| ==> history[k].manifest.Keys <= history[j].manifest.Keys
  }

  /** What is still there has only grown. */
  lemma {:induction false} IntactGrows(history: seq<Env>, pasts: seq<Segments>, orders: Orders, batches: seq<Batch>,
      k: nat, j: nat, ns: Namespace)
    requires Timeline(history, pasts, orders, batches) && k <= j < |history| && Intact(history, k)
    requires ns in pasts[k]
    ensures ns in pasts[j] && pasts[k][ns] <= pasts[j][ns]
    ensures NoLater(MarkOf(history[k], ns), MarkOf(history[j], ns))
    decreases j - k
  {
    hide StandsAt, EnvOk, NewSegment, UpTo, Merged, AtMost;
    TimelineAt(history, pasts, orders, batches, k);
    TimelineAt(history, pasts, orders, batches, j);
    assert history[k].manifest.Keys <= history[j].manifest.Keys;
    if k == j {
      MarkStays(MarkOf(history[k], ns));
    } else {
      IntactGrows(history, pasts, orders, batches, k, j - 1, ns);
      assert StepAt(history, pasts, orders, batches, j);
      var b := batches[CountAt(history, batches, j) - 1];
      assert LogSteps(history[j - 1], pasts[j - 1][ns], b, history[j], pasts[j][ns], ns);
      MarksRise(MarkOf(history[k], ns), MarkOf(history[j - 1], ns), MarkOf(history[j], ns));
    }
  }

  lemma MarkStays(m: Option<Key>)
    ensures NoLater(m, m)
  {
  }

  lemma MarksRise(l: Option<Key>, m: Option<Key>, n: Option<Key>)
    requires NoLater(l, m) && NoLater(m, n)
    ensures NoLater(l, n)
  {
    if l.Some? {
      AtMostWidens(l.value, m, n);
    }
  }

  /** The logs of an intact state are still on disk. */
  lemma IntactIsCovered(history: seq<Env>, pasts: seq<Segments>, orders: Orders, batches: seq<Batch>, logs: Logs, k: nat)
    requires Timeline(history, pasts, orders, batches) && k < |history| && Intact(history, k)
    requires Covers(logs, pasts[|pasts| - 1])
    ensures Covers(logs, pasts[k])
  {
    hide Timeline, Intact, Covers;
    TimelineSizes(history, pasts, orders, batches);
    forall ns | ns in pasts[k] ensures ns in pasts[|pasts| - 1] && pasts[k][ns] <= pasts[|pasts| - 1][ns] {
      IntactGrows(history, pasts, orders, batches, k, |history| - 1, ns);
    }
    CoversMore(logs, logs, pasts[|pasts| - 1], pasts[k]);
  }

  lemma TimelineSizes(history: seq<Env>, pasts: seq<Segments>, orders: Orders, batches: seq<Batch>)
    requires Timeline(history, pasts, orders, batches)
    ensures 0 < |history| == |pasts| <= |batches| + 1
  {
  }

  // ---- what a batch needs to be taken

  /** The batch without the ops of the deferred namespaces. */
  function Direct(ops: Batch, deferred: set<Namespace>): (r: Batch)
    ensures forall op :: op in r <==> op in ops && op.ns !in deferred
    decreases |ops|
  {
    if ops == [] then []
    else
      var last := ops[|ops| - 1];
      assert ops == ops[..|ops| - 1] + [last];
      Direct(ops[..|ops| - 1], deferred) + if last.ns in deferred then [] else [last]
  }

  lemma DirectGrows(ops: Batch, op: WriteOp, deferred: set<Namespace>)
    ensures Direct(ops + [op], deferred) ==
            if op.ns in deferred then Direct(ops, deferred) else Direct(ops, deferred) + [op]
  {
  }

  lemma {:induction false} DirectPerNamespace(ops: Batch, deferred: set<Namespace>, ns: Namespace)
    ensures OpsFor(Direct(ops, deferred), ns) == if ns in deferred then [] else OpsFor(ops, ns)
    decreases |ops|
  {
    if ops != [] {
      var init, last := ops[..|ops| - 1], ops[|ops| - 1];
      assert ops == init + [last];
      DirectPerNamespace(init, deferred, ns);
      DirectGrows(init, last, deferred);
      OpsForGrows(init, last);
      OpsForGrows(Direct(init, deferred), last);
    }
  }

  /** When a batch commits, faults aside: no deferred namespace is deleted from,
      every deferred put can be framed, and the rest commits. */
  ghost predicate Accepts(e: Env, orders: Orders, ops: Batch, deferred: set<Namespace>)
    requires e.trees.Keys == orders.Keys
  {
    && (forall op :: op in ops && op.ns in deferred ==> op.Put?)
    && (forall ns :: ns in deferred && OpsFor(ops, ns) != [] ==> Writable(SortedRecords(Puts(OpsFor(ops, ns)))))
    && Committable(e.trees, orders, Direct(ops, deferred))
  }
}
