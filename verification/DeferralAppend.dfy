/** The segment appends of one commit: in whatever order the namespaces come, what
    a failure part way leaves on the logs, and their rollback. */
module DeferralAppend {
  import opened Wrappers
  import opened ChainWorld
  import opened KvBatch
  import opened SortedKeys
  import opened WalkCommit
  import opened SegmentLog
  import opened DeferralState
  import Slices

  /** A segment append awaiting its transaction's outcome. */
  datatype SegmentAction =
    | Existing(oldLen: nat, newLen: nat, newSegments: nat)
    | New(newLen: nat)
  {
    function ManifestEntry(): RunEntry {
      match this
      case Existing(_, newLen, newSegments) => RunEntry(newSegments, newLen)
      case New(newLen) => RunEntry(1, newLen)
    }
  }

  /** What the environment may do to a commit: refuse a namespace's append, leaving
      some bytes of it on the log, or refuse the transaction. */
  datatype Fault = NoFault | AppendFault(ns: Namespace, left: nat) | CommitFault

  /** The logs after the appends, and why they stopped. */
  datatype Appending = Appending(logs: Logs, failed: Option<CommitError>)

  ghost predicate Frames(t: Tree) {
    Writable(SortedRecords(t))
  }

  ghost function BytesFor(t: Tree): seq<Byte> {
    Segment(SortedRecords(t))
  }

  function Cut(s: seq<Byte>, n: nat): seq<Byte> {
    if n < |s| then s[..n] else s
  }

  predicate Refuses(fault: Fault, ns: Namespace) {
    fault.AppendFault? && fault.ns == ns
  }

  /** An order in which a hash map may give up its keys: each once. */
  predicate Lists(order: seq<Namespace>, names: set<Namespace>) {
    && (forall ns :: ns in names ==> ns in order)
    && (forall i, j :: 0 <= i < j < |order| ==> order[i] != order[j])
  }

  /** The appends one after another, up to the first that cannot be framed or is
      refused. What was appended before stays. */
  ghost function AppendRun(order: seq<Namespace>, puts: map<Namespace, Tree>, fault: Fault, logs: Logs): Appending
    decreases |order|
  {
    if order == [] then Appending(logs, None)
    else
      var ns, rest := order[0], order[1..];
      if ns !in puts then AppendRun(rest, puts, fault, logs)
      else if !Frames(puts[ns]) then Appending(logs, Some(CommitError.EntryTooLarge))
      else if Refuses(fault, ns) then
        Appending(logs[ns := LogAt(logs, ns) + Cut(BytesFor(puts[ns]), fault.left)], Some(WriteFailed))
      else AppendRun(rest, puts, fault, logs[ns := LogAt(logs, ns) + BytesFor(puts[ns])])
  }

  /** Every log the batch touches longer by its segment. */
  ghost function AppendedAll(logs: Logs, puts: map<Namespace, Tree>): Logs {
    map ns | ns in logs.Keys + puts.Keys ::
      if ns in puts then LogAt(logs, ns) + BytesFor(puts[ns]) else logs[ns]
  }

  ghost function Within(puts: map<Namespace, Tree>, order: seq<Namespace>): map<Namespace, Tree> {
    map ns | ns in puts && ns in order :: puts[ns]
  }

  /** The appends are all made exactly when all can be framed and none is refused. */
  lemma {:induction false} AppendsAllIff(order: seq<Namespace>, puts: map<Namespace, Tree>, fault: Fault, logs: Logs)
    ensures AppendRun(order, puts, fault, logs).failed.None? <==>
            forall ns :: ns in puts && ns in order ==> Frames(puts[ns]) && !Refuses(fault, ns)
    decreases |order|
  {
    hide Frames, BytesFor, Refuses, Cut;
    if order != [] {
      var ns, rest := order[0], order[1..];
      assert forall n :: n in order <==> n == ns || n in rest;
      if ns in puts {
        AppendsAllIff(rest, puts, fault, logs[ns := LogAt(logs, ns) + BytesFor(puts[ns])]);
      } else {
        AppendsAllIff(rest, puts, fault, logs);
      }
    }
  }

  /** In any order they then come to the same. */
  lemma {:induction false} AppendsAll(order: seq<Namespace>, puts: map<Namespace, Tree>, fault: Fault, logs: Logs)
    requires Lists(order, {}) && AppendRun(order, puts, fault, logs).failed.None?
    ensures AppendRun(order, puts, fault, logs).logs == AppendedAll(logs, Within(puts, order))
    decreases |order|
  {
    hide Frames, BytesFor, Refuses, Cut, AppendedAll, Within;
    if order == [] {
      NothingAppended(logs, puts);
    } else {
      var ns, rest := order[0], order[1..];
      if ns in puts {
        AppendsAll(rest, puts, fault, logs[ns := LogAt(logs, ns) + BytesFor(puts[ns])]);
      } else {
        AppendsAll(rest, puts, fault, logs);
      }
      AppendedOne(order, puts, logs);
    }
  }

  lemma NothingAppended(logs: Logs, puts: map<Namespace, Tree>)
    ensures AppendedAll(logs, Within(puts, [])) == logs
  {
  }

  lemma AppendedOne(order: seq<Namespace>, puts: map<Namespace, Tree>, logs: Logs)
    requires order != [] && order[0] !in order[1..]
    ensures
      var ns, rest := order[0], order[1..];
      AppendedAll(logs, Within(puts, order)) ==
      AppendedAll(if ns in puts then logs[ns := LogAt(logs, ns) + BytesFor(puts[ns])] else logs, Within(puts, rest))
  {
    hide BytesFor, AppendedAll;
    var ns, rest := order[0], order[1..];
    assert forall n :: n in order <==> n == ns || n in rest;
    if ns in puts {
      assert Within(puts, order) == Within(puts, rest)[ns := puts[ns]];
      AppendedEarlier(logs, Within(puts, rest), ns, puts[ns]);
    } else {
      assert Within(puts, order) == Within(puts, rest);
    }
  }

  lemma AppendedEarlier(logs: Logs, puts: map<Namespace, Tree>, ns: Namespace, t: Tree)
    requires ns !in puts
    ensures AppendedAll(logs, puts[ns := t]) == AppendedAll(logs[ns := LogAt(logs, ns) + BytesFor(t)], puts)
  {
    hide BytesFor;
    var grown := logs[ns := LogAt(logs, ns) + BytesFor(t)];
    var a, b := AppendedAll(logs, puts[ns := t]), AppendedAll(grown, puts);
    assert a.Keys == b.Keys;
    forall n | n in a ensures a[n] == b[n] {
      assert n != ns ==> LogAt(grown, n) == LogAt(logs, n);
    }
  }

  lemma AllWithin(order: seq<Namespace>, puts: map<Namespace, Tree>)
    requires Lists(order, puts.Keys)
    ensures Within(puts, order) == puts
  {
  }

  /** However the appends end, no log lost a byte and only the batch's own grew. */
  lemma {:induction false} AppendsOnlyGrow(order: seq<Namespace>, puts: map<Namespace, Tree>, fault: Fault, logs: Logs)
    ensures forall ns :: ns in logs ==>
      ns in AppendRun(order, puts, fault, logs).logs && logs[ns] <= AppendRun(order, puts, fault, logs).logs[ns]
    ensures forall ns :: ns in AppendRun(order, puts, fault, logs).logs && ns !in puts ==>
      ns in logs && AppendRun(order, puts, fault, logs).logs[ns] == logs[ns]
    decreases |order|
  {
    hide Frames, BytesFor, Cut;
    if order != [] {
      var ns := order[0];
      AppendsOnlyGrow(order[1..], puts, fault, logs);
      if ns in puts {
        AppendsOnlyGrow(order[1..], puts, fault, logs[ns := LogAt(logs, ns) + BytesFor(puts[ns])]);
      }
    }
  }

  /** Without faults of the environment the appends fail only for a put too large. */
  lemma {:induction false} FailsTooLarge(order: seq<Namespace>, puts: map<Namespace, Tree>, fault: Fault, logs: Logs)
    ensures var failed := AppendRun(order, puts, fault, logs).failed;
      && (failed.Some? ==> failed.value in {CommitError.EntryTooLarge, WriteFailed})
      && (failed == Some(CommitError.EntryTooLarge) ==> exists ns :: ns in puts && !Frames(puts[ns]))
      && (failed == Some(WriteFailed) ==> fault.AppendFault? && fault.ns in puts)
    decreases |order|
  {
    hide Frames, BytesFor, Cut;
    if order != [] {
      var ns := order[0];
      FailsTooLarge(order[1..], puts, fault, logs);
      if ns in puts {
        FailsTooLarge(order[1..], puts, fault, logs[ns := LogAt(logs, ns) + BytesFor(puts[ns])]);
      }
    }
  }

  // ---- when a failure leaves the logs as they were

  /** A batch with a put too large to frame fails, and leaves the logs as they were
      in every order, exactly when no namespace it touches can be framed. */
  lemma LeavesNoTraceIff(names: set<Namespace>, puts: map<Namespace, Tree>, logs: Logs)
    requires puts.Keys <= names && exists ns :: ns in puts && !Frames(puts[ns])
    ensures (forall order :: Lists(order, names) ==> AppendRun(order, puts, NoFault, logs).logs == logs) <==>
            (forall ns :: ns in puts ==> !Frames(puts[ns]))
  {
    hide Frames, BytesFor;
    if forall ns :: ns in puts ==> !Frames(puts[ns]) {
      forall order | Lists(order, names) ensures AppendRun(order, puts, NoFault, logs).logs == logs {
        NoneFramed(order, puts, logs);
      }
    } else {
      var ns :| ns in puts && Frames(puts[ns]);
      var rest := Enumerated(names - {ns});
      var order := [ns] + rest;
      assert Lists(order, names) by {
        assert forall n :: n in names ==> n == ns || n in rest;
        assert forall i :: 0 <= i < |rest| ==> rest[i] in names - {ns};
      }
      FirstStays(ns, rest, puts, logs);
    }
  }

  lemma {:induction false} NoneFramed(order: seq<Namespace>, puts: map<Namespace, Tree>, logs: Logs)
    requires forall ns :: ns in puts ==> !Frames(puts[ns])
    ensures AppendRun(order, puts, NoFault, logs).logs == logs
    decreases |order|
  {
    hide Frames, BytesFor;
    if order != [] {
      NoneFramed(order[1..], puts, logs);
    }
  }

  lemma FirstStays(ns: Namespace, rest: seq<Namespace>, puts: map<Namespace, Tree>, logs: Logs)
    requires ns in puts && Frames(puts[ns])
    ensures AppendRun([ns] + rest, puts, NoFault, logs).logs != logs
  {
    hide Frames, BytesFor;
    var grown := logs[ns := LogAt(logs, ns) + BytesFor(puts[ns])];
    assert ([ns] + rest)[1..] == rest;
    AppendsOnlyGrow(rest, puts, NoFault, grown);
    assert BytesFor(puts[ns]) != [] by { BytesNotEmpty(puts[ns]); }
    assert |grown[ns]| > |LogAt(logs, ns)|;
  }

  lemma BytesNotEmpty(t: Tree)
    ensures |BytesFor(t)| >= HEADER_LEN
  {
    hide EncodeRecords, Checksum;
  }

  /** Some order of a set's elements. */
  ghost function Enumerated(names: set<Namespace>): (order: seq<Namespace>)
    ensures forall ns :: ns in names <==> ns in order
    ensures forall i, j :: 0 <= i < j < |order| ==> order[i] != order[j]
    decreases |names|
  {
    if names == {} then []
    else
      var ns :| ns in names;
      Enumerated(names - {ns}) + [ns]
  }

  // ---- what is recorded of each append

  function ActionFor(runs: map<Namespace, RunEntry>, ns: Namespace, len: nat): SegmentAction {
    if ns in runs then Existing(runs[ns].logLen, runs[ns].logLen + len, runs[ns].segmentCount + 1) else New(len)
  }

  ghost function ActionsFor(runs: map<Namespace, RunEntry>, puts: map<Namespace, Tree>): map<Namespace, SegmentAction> {
    map ns | ns in puts :: ActionFor(runs, ns, |BytesFor(puts[ns])|)
  }

  function EntriesOf(actions: map<Namespace, SegmentAction>): map<Namespace, RunEntry> {
    map ns | ns in actions :: actions[ns].ManifestEntry()
  }

  /** The action of one more namespace. */
  lemma ActionsGrow(runs: map<Namespace, RunEntry>, puts: map<Namespace, Tree>, order: seq<Namespace>, i: nat)
    requires i < |order|
    ensures
      var ns := order[i];
      ActionsFor(runs, Within(puts, order[..i + 1])) ==
      if ns in puts then ActionsFor(runs, Within(puts, order[..i]))[ns := ActionFor(runs, ns, |BytesFor(puts[ns])|)]
      else ActionsFor(runs, Within(puts, order[..i]))
  {
    hide BytesFor, ActionFor;
    assert order[..i + 1] == order[..i] + [order[i]];
  }

  /** Taking one more entry over. */
  lemma EntryTaken(base: map<Namespace, RunEntry>, entries: map<Namespace, RunEntry>, pending: set<Namespace>,
      ns: Namespace)
    requires ns in entries && ns in pending
    ensures (base + (entries - pending))[ns := entries[ns]] == base + (entries - (pending - {ns}))
  {
  }

  // ---- rollback

  /** Logs that grew cut back to their committed length, new ones removed. */
  function RolledBack(logs: Logs, actions: map<Namespace, SegmentAction>): Logs {
    map ns | ns in logs && (ns in actions ==> actions[ns].Existing?) ::
      if ns in actions then Cut(logs[ns], actions[ns].oldLen) else logs[ns]
  }

  lemma RollbackStep(logs: Logs, actions: map<Namespace, SegmentAction>, pending: set<Namespace>, ns: Namespace)
    requires ns in actions && ns in pending && ns in logs
    ensures
      var done := RolledBack(logs, actions - pending);
      && ns in done && done[ns] == logs[ns]
      && RolledBack(logs, actions - (pending - {ns})) ==
         if actions[ns].Existing? then done[ns := Cut(logs[ns], actions[ns].oldLen)] else done - {ns}
  {
    hide Cut;
  }

  /** After a rollback the touched logs are the committed bytes and nothing else, the
      others are as they were. */
  lemma RollbackRestores(logs: Logs, runs: map<Namespace, RunEntry>, puts: map<Namespace, Tree>, ns: Namespace)
    requires ns in runs ==> ns in logs && runs[ns].logLen <= |logs[ns]|
    ensures
      var back := RolledBack(AppendedAll(logs, puts), ActionsFor(runs, puts));
      && (ns !in puts ==> (ns in back <==> ns in logs) && LogAt(back, ns) == LogAt(logs, ns))
      && (ns in puts ==> (ns in back <==> ns in runs))
      && (ns in puts && ns in runs ==> back[ns] == logs[ns][..runs[ns].logLen])
  {
    hide BytesFor;
    if ns in puts && ns in runs {
      assert (logs[ns] + BytesFor(puts[ns]))[..runs[ns].logLen] == logs[ns][..runs[ns].logLen];
      BytesNotEmpty(puts[ns]);
    }
  }
}
