/** Whole runs of the backend: what every sequence of bulk loads, commits, flushes,
    crashes and reopens leaves. */
module DeferralRuns {
  import opened Wrappers
  import opened KvBatch
  import opened SortedKeys
  import opened WalkCommit
  import opened DeferralState
  import opened DeferralAppend
  import opened DeferralCommit
  import opened BulkDeferral

  datatype Event =
    | BeginBulk(policyEnabled: bool)
    | CommitBatch(ops: Batch, order: seq<Namespace>, fault: Fault)
    | Flush
    | FinishBulk(order: seq<Namespace>, stop: Option<(Namespace, nat)>)
    | CrashTo(k: nat, torn: Logs)

  const CHUNK_SIZE: nat := 1_000_000

  /** The orders of an event are ones a hash map of the namespaces may have. */
  ghost predicate Orderly(e: Event, orders: Orders) {
    match e
    case CommitBatch(_, order, _) => Lists(order, orders.Keys)
    case FinishBulk(order, _) => Lists(order, orders.Keys)
    case _ => true
  }

  /** The backend between two events. */
  datatype Moment = Moment(
    history: seq<Env>, pasts: seq<Segments>, logs: Logs, active: bool, enabled: bool, deferrable: set<Namespace>,
    runs: map<Namespace, RunEntry>, batches: seq<Batch>)

  ghost function Now(b: Backend): Moment
    reads b
  {
    Moment(b.history, b.pasts, b.logs, b.active, b.enabled, b.deferrable, b.runs, b.batches)
  }

  ghost function DeferringAt(m: Moment, orders: Orders): set<Namespace> {
    set ns | ns in orders &&
      (ns in m.runs || (m.active && m.enabled && orders[ns] == Scattered && ns in m.deferrable))
  }

  ghost function ViewAt(m: Moment): Store
    requires m.history != [] && m.pasts != []
  {
    Contents(m.history[|m.history| - 1], m.pasts[|m.pasts| - 1])
  }

  /** The batch commits at this moment. */
  ghost predicate LandsAt(m: Moment, orders: Orders, ops: Batch, fault: Fault) {
    && m.history != [] && m.history[|m.history| - 1].trees.Keys == orders.Keys
    && Accepts(m.history[|m.history| - 1], orders, ops, DeferringAt(m, orders))
    && !Hits(fault, ops, DeferringAt(m, orders))
  }

  /** The state a crash aimed at `k` falls back to. */
  function Target(history: seq<Env>, k: nat): int {
    if k < |history| then k else |history| - 1
  }

  /** The events no sound run goes past: a batch that lands and does harm, and a
      crash to a state that has since lost a log. */
  ghost predicate Breaks(orders: Orders, s: Moment, e: Event) {
    && s.history != []
    && match e
       case CommitBatch(ops, _, fault) =>
         && LandsAt(s, orders, ops, fault)
         && !Harmless(s.history[|s.history| - 1], s.logs, RoutedPuts(ops, DeferringAt(s, orders)))
       case CrashTo(k, _) => !Intact(s.history, Target(s.history, k))
       case _ => false
  }

  /** A commit adds its batch exactly when it lands, applied op by op. Otherwise the
      logs alone may change, as far as its appends got. */
  ghost predicate Commits(orders: Orders, s: Moment, ops: Batch, order: seq<Namespace>, fault: Fault, t: Moment) {
    var deferred := DeferringAt(s, orders);
    if LandsAt(s, orders, ops, fault) then
      && t == s.(batches := s.batches + [ops], history := t.history, pasts := t.pasts, logs := t.logs, runs := t.runs)
      && |t.history| == |s.history| + 1 && t.history[..|s.history|] == s.history
      && t.runs.Keys == s.runs.Keys + RoutedPuts(ops, deferred).Keys
      && s.pasts != [] && t.pasts != [] && Takes(ViewAt(s), ops) && ViewAt(t) == ApplyBatch(ViewAt(s), ops)
    else t == s.(logs := FailedLogs(s.logs, s.runs, ops, deferred, order, fault))
  }

  /** A load keeps every batch and all contents. Not stopped, it leaves no log
      pending; stopped, it has completed the namespaces before. */
  ghost predicate Loads(s: Moment, order: seq<Namespace>, stop: Option<(Namespace, nat)>, t: Moment) {
    && AddsNothing(s.batches, t.batches) && s.history <= t.history
    && s.history != [] && s.pasts != [] && t.pasts != [] && ViewAt(t) == ViewAt(s)
    && t.enabled == s.enabled && t.deferrable == s.deferrable
    && (if t.runs == map[] then t.logs == s.logs - s.runs.Keys && t.active == (s.active && s.runs == map[])
        else stop.Some? && StoppedAt(order, stop.value.0, s.runs, t.runs))
  }

  /** A crash falls back to the state and keeps the batches it stands for; opening
      again finds its segments on the logs and nothing else. */
  ghost predicate FallsBack(s: Moment, k: nat, t: Moment) {
    && s.history != [] && |s.pasts| == |s.history|
    && var to := Target(s.history, k);
       && t.history == [s.history[to]] && t.pasts == [s.pasts[to]]
       && |t.batches| == CountAt(s.history, s.batches, to) && t.batches <= s.batches
       && t.runs == s.history[to].manifest && !t.active && Holds(t.logs, s.pasts[to])
  }

  /** Entering bulk mode lets exactly the scattered namespaces with empty trees start
      deferring, and none when the policy is off. */
  ghost predicate Begins(orders: Orders, s: Moment, on: bool, t: Moment) {
    && s.history != [] && t == s.(active := true, enabled := on, deferrable := t.deferrable)
    && var trees := s.history[|s.history| - 1].trees;
       forall ns :: ns in orders && ns in trees ==>
         (ns in DeferringAt(t, orders) <==> ns in s.runs || (on && orders[ns] == Scattered && trees[ns] == map[]))
  }

  /** What each event does. */
  ghost predicate Next(orders: Orders, s: Moment, e: Event, t: Moment) {
    match e
    case BeginBulk(on) => Begins(orders, s, on, t)
    case CommitBatch(ops, order, fault) => Commits(orders, s, ops, order, fault, t)
    case Flush =>
      && s.history != [] && s.pasts != []
      && t == s.(history := [s.history[|s.history| - 1]], pasts := [s.pasts[|s.pasts| - 1]])
    case FinishBulk(order, stop) => Loads(s, order, stop, t)
    case CrashTo(k, _) => FallsBack(s, k, t)
  }

  /** Whether taking the batch would leave the store sound, found out beforehand. */
  method IsSafe(b: Backend, ops: Batch) returns (safe: bool)
    requires b.history != []
    ensures safe <==> b.SafeToTake(ops)
  {
    hide HarmlessAt, OpsFor, Puts, SortedRecords;
    var pending := b.Deferring();
    ghost var all, puts := pending, RoutedPuts(ops, b.Deferring());
    while pending != {}
      invariant pending <= all
      invariant forall ns :: ns in puts && ns !in pending ==> HarmlessAt(b.Current(), b.logs, ns, SortedRecords(puts[ns]))
      decreases |pending|
    {
      var ns :| ns in pending;
      var own := OpsFor(ops, ns);
      if own != [] {
        var rs := InKeyOrder(Puts(own));
        assert ns in puts && puts[ns] == Puts(own);
        if !HarmlessAt(b.Current(), b.logs, ns, rs) {
          return false;
        }
      }
      pending := pending - {ns};
    }
    return true;
  }

  /** A commit, unless it would do harm once landed; then the run ends with it. */
  method StepCommit(b: Backend, ops: Batch, order: seq<Namespace>, fault: Fault) returns (sound: bool)
    requires b.Valid() && Lists(order, b.orders.Keys)
    modifies b
    ensures sound <==> !Breaks(b.orders, old(Now(b)), CommitBatch(ops, order, fault))
    ensures sound ==> b.Valid() && Commits(b.orders, old(Now(b)), ops, order, fault, Now(b))
  {
    hide Backend.OnDisk, Contents, Harmless, RoutedPuts, ApplyBatch, AppendedAll, FailedLogs, WithBatch, Hits, Accepts,
      Lists, Takes;
    b.HasStates();
    LandsIsLanding(b, ops, fault);
    var safe := IsSafe(b, ops);
    var r := b.Commit(ops, order, fault);
    sound := r.Err? || safe;
  }

  method StepFinish(b: Backend, order: seq<Namespace>, stop: Option<(Namespace, nat)>)
    requires b.Valid() && Lists(order, b.orders.Keys)
    modifies b
    ensures b.Valid() && Loads(old(Now(b)), order, stop, Now(b))
  {
    hide Backend.Valid, Backend.Clean, Contents, AddsNothing, StoppedAt, Lists;
    b.HasStates();
    OrderHasRuns(b, order);
    var r := b.FinishBulk(CHUNK_SIZE, order, stop);
    b.HasStates();
    if r.Err? {
      StoppedHasRuns(order, stop.value.0, old(b.runs), b.runs);
    }
  }

  lemma OrderHasRuns(b: Backend, order: seq<Namespace>)
    requires b.Valid() && Lists(order, b.orders.Keys)
    ensures Lists(order, b.runs.Keys)
  {
    hide Backend.OnDisk;
    b.HoldsItsBatches();
  }

  lemma StoppedHasRuns(order: seq<Namespace>, ns: Namespace, before: map<Namespace, RunEntry>,
      after: map<Namespace, RunEntry>)
    requires StoppedAt(order, ns, before, after)
    ensures after != map[]
  {
  }

  method StepCrash(b: Backend, k: nat, torn: Logs)
    requires b.Valid() && !Breaks(b.orders, Now(b), CrashTo(k, torn))
    modifies b
    ensures b.Valid() && FallsBack(old(Now(b)), k, Now(b))
  {
    hide Timeline, Covers, Contents, CutBack, Backed, Holds, Intact;
    b.HasStates();
    b.Crash(Target(b.history, k), torn);
    var _ := b.Reopen();
  }

  /** One event, unless it breaks the run. */
  method StepEvent(b: Backend, e: Event) returns (sound: bool)
    requires b.Valid() && Orderly(e, b.orders)
    modifies b
    ensures sound <==> !Breaks(b.orders, old(Now(b)), e)
    ensures sound ==> b.Valid() && Next(b.orders, old(Now(b)), e, Now(b))
  {
    hide Backend.OnDisk, Contents, Commits, Loads, FallsBack, LandsAt, Harmless, Intact, Lists;
    b.HasStates();
    sound := true;
    match e {
      case BeginBulk(on) => b.BeginBulk(on);
      case CommitBatch(ops, order, fault) => sound := StepCommit(b, ops, order, fault);
      case Flush => b.Flush();
      case FinishBulk(order, stop) => StepFinish(b, order, stop);
      case CrashTo(k, torn) =>
        if !Intact(b.history, Target(b.history, k)) {
          return false;
        }
        StepCrash(b, k, torn);
    }
  }

  lemma LandsIsLanding(b: Backend, ops: Batch, fault: Fault)
    requires b.Valid()
    ensures DeferringAt(Now(b), b.orders) == b.Deferring()
    ensures LandsAt(Now(b), b.orders, ops, fault) <==> b.Landing(ops) && !Hits(fault, ops, b.Deferring())
  {
    hide Timeline, Accepts, Covers, Hits, Contents, Replay, EnvOk;
    b.CurrentIsSound();
    assert DeferringAt(Now(b), b.orders) == b.Deferring();
  }

  /** Every run of events goes on to its end, or to the first event that breaks it.
      Up to there the store stays sound, so holds exactly the batches it stands for,
      and `trace` accounts for each event in turn. */
  method Run(b: Backend, events: seq<Event>) returns (done: nat, ghost trace: seq<Moment>)
    requires b.Valid() && forall i :: 0 <= i < |events| ==> Orderly(events[i], b.orders)
    modifies b
    ensures done <= |events| && |trace| == done + 1 && trace[0] == old(Now(b))
    ensures forall i :: 0 <= i < done ==> Next(b.orders, trace[i], events[i], trace[i + 1])
    ensures forall i :: 0 <= i < done ==> !Breaks(b.orders, trace[i], events[i])
    ensures if done == |events| then b.Valid() && trace[done] == Now(b) else Breaks(b.orders, trace[done], events[done])
  {
    hide Backend.Valid, Next, Breaks, Orderly;
    trace, done := [Now(b)], 0;
    while done < |events|
      invariant b.Valid() && done <= |events|
      invariant |trace| == done + 1 && trace[0] == old(Now(b)) && trace[done] == Now(b)
      invariant forall j :: 0 <= j < done ==> Next(b.orders, trace[j], events[j], trace[j + 1])
      invariant forall j :: 0 <= j < done ==> !Breaks(b.orders, trace[j], events[j])
    {
      var sound := StepEvent(b, events[done]);
      if !sound {
        return;
      }
      trace, done := trace + [Now(b)], done + 1;
    }
  }
}
