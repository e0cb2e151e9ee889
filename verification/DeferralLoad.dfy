/** Loading one namespace's log into its tree: the states its transactions commit,
    chunk by chunk, and the one that clears the run entry. None changes what the
    store holds. */
module DeferralLoad {
  import opened Wrappers
  import opened ChainWorld
  import opened KvBatch
  import opened SortedKeys
  import opened WalkCommit
  import opened SegmentLog
  import opened SegmentMerge
  import opened DeferralState

  /** One chunk's transaction: its part of the tree, and the mark beside it. */
  function Chunked(e: Env, ns: Namespace, s: LoadState): Env {
    Env(e.trees[ns := s.tree], e.manifest, if s.mark.Some? then e.loaded[ns := s.mark.value] else e.loaded)
  }

  /** The transaction that clears the run entry and the mark. */
  function Cleared(e: Env, ns: Namespace): Env {
    Env(e.trees, e.manifest - {ns}, e.loaded - {ns})
  }

  /** A load that was stopped part way, or has not begun. */
  function LoadOf(e: Env, ns: Namespace): LoadState
    requires ns in e.trees
  {
    LoadState(e.trees[ns], MarkOf(e, ns))
  }

  /** The tree holds the log's contents up to a mark no earlier than before. */
  ghost predicate Onward(e: Env, ss: seq<seq<Record>>, ns: Namespace, s: LoadState) {
    s.mark.Some? && s.tree == UpTo(Merged(ss), s.mark) && NoLater(MarkOf(e, ns), s.mark)
  }

  /** A transaction of a load: what it says of each log is right, no mark falls and
      no namespace's contents change. */
  lemma MovesContents(e: Env, orders: Orders, segs: Segments, next: Env, rest: Segments)
    requires EnvOk(e, orders, segs) && next.trees.Keys == orders.Keys
    requires next.manifest.Keys == rest.Keys && next.loaded.Keys <= rest.Keys && rest.Keys <= segs.Keys
    requires forall n :: n in rest ==>
      rest[n] == segs[n] && EntryOk(next, rest, n) && NoLater(MarkOf(e, n), MarkOf(next, n))
    requires forall n :: n in orders ==> Visible(next, rest, n) == Visible(e, segs, n)
    ensures EnvOk(next, orders, rest) && Contents(next, rest) == Contents(e, segs)
    ensures StepsTo(orders, e, segs, [], next, rest)
  {
    hide EntryOk, Visible, MarkOf, NoLater, LogSteps, ListOk, Contents;
    forall n | n in segs && n in rest ensures LogSteps(e, segs[n], [], next, rest[n], n) {
      SameLogSteps(e, segs[n], next, n);
    }
    SameContents(e, segs, next, rest);
  }

  lemma SameContents(e: Env, segs: Segments, next: Env, rest: Segments)
    requires next.trees.Keys == e.trees.Keys
    requires forall n :: n in e.trees ==> Visible(next, rest, n) == Visible(e, segs, n)
    ensures Contents(next, rest) == Contents(e, segs)
  {
    hide Visible;
    var a, b := Contents(next, rest), Contents(e, segs);
    assert a.Keys == b.Keys;
    forall n | n in a ensures a[n] == b[n] {
    }
  }

  lemma SameLogSteps(e: Env, ss: seq<seq<Record>>, next: Env, ns: Namespace)
    requires NoLater(MarkOf(e, ns), MarkOf(next, ns))
    ensures LogSteps(e, ss, [], next, ss, ns)
  {
    hide MarkOf, NoLater, UpTo, Merged;
    assert ss + [] == ss;
  }

  /** A log the transaction does not concern. */
  lemma OtherLog(e: Env, segs: Segments, next: Env, rest: Segments, n: Namespace)
    requires n in segs && n in rest && rest[n] == segs[n] && EntryOk(e, segs, n)
    requires n in next.manifest && n in e.manifest && next.manifest[n] == e.manifest[n]
    requires n in next.trees && n in e.trees && next.trees[n] == e.trees[n]
    requires MarkOf(next, n) == MarkOf(e, n)
    ensures EntryOk(next, rest, n) && NoLater(MarkOf(e, n), MarkOf(next, n))
  {
    hide LogOf, Merged, UpTo;
    MarkStays(MarkOf(e, n));
  }

  lemma ChunkKeeps(e: Env, orders: Orders, segs: Segments, ns: Namespace, s: LoadState)
    requires EnvOk(e, orders, segs) && ns in segs && Onward(e, segs[ns], ns, s)
    ensures EnvOk(Chunked(e, ns, s), orders, segs) && Contents(Chunked(e, ns, s), segs) == Contents(e, segs)
    ensures StepsTo(orders, e, segs, [], Chunked(e, ns, s), segs)
  {
    hide LogOf, Merged, UpTo, ListOk, NoLater, StepsTo, Contents;
    var next := Chunked(e, ns, s);
    forall n | n in segs ensures EntryOk(next, segs, n) && NoLater(MarkOf(e, n), MarkOf(next, n)) {
      assert EntryOk(e, segs, n);
      if n != ns {
        OtherLog(e, segs, next, segs, n);
      }
    }
    MovesContents(e, orders, segs, next, segs);
  }

  /** The tree holds the whole log. */
  ghost predicate LoadedWhole(e: Env, ss: seq<seq<Record>>, ns: Namespace) {
    ns in e.trees && e.trees[ns] == Merged(ss)
  }

  lemma ClearKeeps(e: Env, orders: Orders, segs: Segments, ns: Namespace)
    requires EnvOk(e, orders, segs) && ns in segs && LoadedWhole(e, segs[ns], ns)
    ensures EnvOk(Cleared(e, ns), orders, segs - {ns}) && Contents(Cleared(e, ns), segs - {ns}) == Contents(e, segs)
    ensures StepsTo(orders, e, segs, [], Cleared(e, ns), segs - {ns})
    ensures Merged(segs[ns]) != map[]
  {
    hide LogOf, Merged, UpTo, ListOk, NoLater, StepsTo, Contents;
    var next, rest := Cleared(e, ns), segs - {ns};
    forall n | n in rest ensures EntryOk(next, rest, n) && NoLater(MarkOf(e, n), MarkOf(next, n)) {
      assert EntryOk(e, segs, n);
      OtherLog(e, segs, next, rest, n);
    }
    MovesContents(e, orders, segs, next, rest);
    assert EntryOk(e, segs, ns);
    MergedNotEmpty(segs[ns]);
  }

  lemma MergedNotEmpty(ss: seq<seq<Record>>)
    requires ss != [] && ListOk(ss)
    ensures Merged(ss) != map[]
  {
    hide AsTree, Writable, Ascending;
    var last := ss[|ss| - 1];
    assert SegmentOk(last);
    AsTreeHasKeys(last, last[0].key);
    assert last[0].key in Merged(ss);
  }

  /** A pending log reads back as its segments, and the tree passes the target check. */
  lemma ReadsBack(e: Env, orders: Orders, segs: Segments, logs: Logs, ns: Namespace)
    requires EnvOk(e, orders, segs) && Covers(logs, segs) && ns in segs
    ensures ns in logs && ns in e.trees && ns in e.manifest
    ensures Reads(logs[ns], e.manifest[ns].segmentCount, e.manifest[ns].logLen, LengthsOf(segs[ns]), segs[ns])
    ensures AllAscending(segs[ns]) && Appendable(e.trees[ns], MarkOf(e, ns))
    ensures e.trees[ns] == UpTo(Merged(segs[ns]), MarkOf(e, ns))
    ensures e.trees[ns] + Past(Merged(segs[ns]), MarkOf(e, ns)) == Merged(segs[ns])
  {
    hide LogOf, Merged, Writable, Ascending, AtMost, Reads;
    assert EntryOk(e, segs, ns);
    forall i | 0 <= i < |segs[ns]| ensures Writable(segs[ns][i]) && Ascending(segs[ns][i]) {
      assert ListOk(segs[ns]) && SegmentOk(segs[ns][i]);
    }
    WrittenReads(logs[ns], segs[ns]);
    MergeIsRightIff(LoadOf(e, ns), Merged(segs[ns]));
  }

  /** Each chunk of a load goes on from the one before. */
  lemma ChunksGoOn(start: LoadState, ss: seq<seq<Record>>, states: seq<LoadState>, e: Env, ns: Namespace, i: nat)
    requires start.tree == UpTo(Merged(ss), start.mark) && i < |states|
    requires Rising(start, states) && Loaded(start, Merged(ss), states[i])
    requires MarkOf(e, ns) == MarkBefore(start, states, i)
    ensures Onward(e, ss, ns, states[i]) && states[i].mark.Some?
  {
    hide Merged, UpTo, Past, AtMost;
    ResumeCompletes(start, Merged(ss), states[i]);
  }

  lemma ChunkedLoad(e: Env, ns: Namespace, s: LoadState)
    requires s.mark.Some?
    ensures ns in Chunked(e, ns, s).trees && LoadOf(Chunked(e, ns, s), ns) == s
  {
  }
}
