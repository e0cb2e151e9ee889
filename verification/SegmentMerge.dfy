/** Loading a run log: the merge of its sorted segments, and the resumable
    chunked append of the merged stream. */
module SegmentMerge {
  import opened Wrappers
  import opened ByteOrder
  import opened KvBatch
  import opened SortedKeys
  import opened WalkCommit

  /** What the segments hold, a later one overriding an earlier one. */
  function Merged(segs: seq<seq<Record>>): Tree
    decreases |segs|
  {
    if segs == [] then map[] else Merged(segs[..|segs| - 1]) + AsTree(segs[|segs| - 1])
  }

  lemma MergedGrows(segs: seq<seq<Record>>, rs: seq<Record>)
    ensures Merged(segs + [rs]) == Merged(segs) + AsTree(rs)
  {
  }

  /** The latest segment holding a key decides its value. */
  lemma {:induction false} LatestWins(segs: seq<seq<Record>>, j: nat, k: Key)
    requires j < |segs| && k in AsTree(segs[j])
    requires forall i :: j < i < |segs| ==> k !in AsTree(segs[i])
    ensures k in Merged(segs) && Merged(segs)[k] == AsTree(segs[j])[k]
    decreases |segs|
  {
    hide AsTree;
    var n := |segs| - 1;
    if j < n {
      assert forall i :: 0 <= i < n ==> segs[..n][i] == segs[i];
      LatestWins(segs[..n], j, k);
    }
  }

  lemma {:induction false} MergedHolds(segs: seq<seq<Record>>, k: Key)
    requires k in Merged(segs)
    ensures exists j :: 0 <= j < |segs| && k in AsTree(segs[j])
    decreases |segs|
  {
    hide AsTree;
    var n := |segs| - 1;
    if k !in AsTree(segs[n]) {
      MergedHolds(segs[..n], k);
      var j :| 0 <= j < n && k in AsTree(segs[..n][j]);
      assert segs[..n][j] == segs[j];
    }
  }

  // ---- the k-way merge

  predicate AllAscending(segs: seq<seq<Record>>) {
    forall i :: 0 <= i < |segs| ==> Ascending(segs[i])
  }

  /** One heap entry per cursor that still has a record. */
  predicate HeapHolds(heap: set<(Key, nat)>, rest: seq<seq<Record>>) {
    && (forall e :: e in heap ==> e.1 < |rest| && rest[e.1] != [] && rest[e.1][0].key == e.0)
    && (forall i :: 0 <= i < |rest| && rest[i] != [] ==> (rest[i][0].key, i) in heap)
  }

  /** What is left in a cursor is its segment without the keys already output,
      and lies above all of them. */
  ghost predicate Left(rs: seq<Record>, rest: seq<Record>, out: Tree) {
    && Ascending(rest)
    && AsTree(rest) == AsTree(rs) - out.Keys
    && Below(out.Keys, AsTree(rest).Keys)
  }

  /** The output so far agrees with the merge on its own keys. */
  ghost predicate Agrees(out: seq<Record>, merged: Tree) {
    && Ascending(out)
    && forall k :: k in AsTree(out) ==> k in merged && merged[k] == AsTree(out)[k]
  }

  ghost predicate Merging(segs: seq<seq<Record>>, rest: seq<seq<Record>>, out: seq<Record>) {
    && |rest| == |segs|
    && (forall i :: 0 <= i < |segs| ==> Left(segs[i], rest[i], AsTree(out)))
    && Agrees(out, Merged(segs))
  }

  predicate HeadIs(rest: seq<Record>, key: Key) {
    rest != [] && rest[0].key == key
  }

  function DropHead(rest: seq<Record>, key: Key): seq<Record> {
    if HeadIs(rest, key) then rest[1..] else rest
  }

  /** `winner` is the latest cursor standing at `key`. */
  predicate LatestAt(rest: seq<seq<Record>>, key: Key, winner: nat) {
    && winner < |rest| && HeadIs(rest[winner], key)
    && forall i :: winner < i < |rest| ==> !HeadIs(rest[i], key)
  }

  function Standing(heap: set<(Key, nat)>, key: Key): set<(Key, nat)> {
    set e | e in heap && e.0 == key
  }

  /** Pops one entry, takes its cursor's record and pushes the cursor's next key. */
  method Advance(full: set<(Key, nat)>, start: seq<seq<Record>>, key: Key, seg: nat)
    returns (heap: set<(Key, nat)>, rest: seq<seq<Record>>)
    requires HeapHolds(full, start) && (key, seg) in full
    requires Ascending(start[seg])
    ensures rest == start[seg := start[seg][1..]]
    ensures HeapHolds(heap, rest)
    ensures Standing(heap, key) == Standing(full, key) - {(key, seg)}
    ensures forall i :: (key, i) in heap <==> (key, i) in full && i != seg
  {
    hide Less;
    LessIsIrreflexive(key);
    heap, rest := full - {(key, seg)}, start[seg := start[seg][1..]];
    if rest[seg] != [] {
      assert Less(start[seg][0].key, start[seg][1].key);
      heap := heap + {(rest[seg][0].key, seg)};
    }
  }

  /** The cursors at `key` and no longer in the heap have been taken from. */
  ghost predicate Drained(start: seq<seq<Record>>, rest: seq<seq<Record>>, heap: set<(Key, nat)>, key: Key) {
    && |rest| == |start|
    && forall i :: 0 <= i < |start| ==> rest[i] == (if (key, i) in heap then start[i] else DropHead(start[i], key))
  }

  /** `found` is the latest cursor taken from. */
  ghost predicate Tracks(start: seq<seq<Record>>, heap: set<(Key, nat)>, key: Key, found: Option<nat>) {
    && (found.Some? ==> found.value < |start| && HeadIs(start[found.value], key))
    && forall i :: 0 <= i < |start| && HeadIs(start[i], key) && (key, i) !in heap ==> found.Some? && i <= found.value
  }

  lemma DrainStarts(start: seq<seq<Record>>, heap: set<(Key, nat)>, key: Key)
    requires HeapHolds(heap, start)
    ensures Drained(start, start, heap, key) && Tracks(start, heap, key, None)
  {
  }

  lemma DrainEnds(start: seq<seq<Record>>, rest: seq<seq<Record>>, heap: set<(Key, nat)>, key: Key, found: Option<nat>)
    requires Drained(start, rest, heap, key) && Tracks(start, heap, key, found) && Standing(heap, key) == {}
    ensures forall i :: 0 <= i < |rest| ==> rest[i] == DropHead(start[i], key)
    ensures found.Some? ==> LatestAt(start, key, found.value)
  {
    assert forall e :: e in heap && e.0 == key ==> e in Standing(heap, key);
  }

  /** Takes the record at `key` from every cursor standing there; the latest
      segment's value wins. */
  method DrainKey(start: seq<seq<Record>>, full: set<(Key, nat)>, key: Key)
    returns (rest: seq<seq<Record>>, heap: set<(Key, nat)>, winner: nat)
    requires AllAscending(start) && HeapHolds(full, start)
    requires Standing(full, key) != {}
    ensures HeapHolds(heap, rest)
    ensures |rest| == |start| && forall i :: 0 <= i < |rest| ==> rest[i] == DropHead(start[i], key)
    ensures LatestAt(start, key, winner)
  {
    hide Ascending, LatestAt;
    rest, heap := start, full;
    var found: Option<nat> := None;
    DrainStarts(start, full, key);
    while Standing(heap, key) != {}
      invariant HeapHolds(heap, rest)
      invariant Drained(start, rest, heap, key)
      invariant Tracks(start, heap, key, found)
      invariant found.None? ==> heap == full
      decreases |Standing(heap, key)|
    {
      var top :| top in Standing(heap, key);
      var seg := top.1;
      assert (key, seg) in heap;
      heap, rest := Advance(heap, rest, key, seg);
      if found.None? || seg >= found.value {
        found := Some(seg);
      }
    }
    DrainEnds(start, rest, heap, key, found);
    winner := found.value;
  }

  /** `key` is the least key any cursor stands at. */
  ghost predicate LeastHead(rest: seq<seq<Record>>, key: Key) {
    forall i :: 0 <= i < |rest| && rest[i] != [] ==> rest[i][0].key == key || Less(key, rest[i][0].key)
  }

  /** A cursor holds the least head key only at its own head. */
  lemma AtLeastHead(rest: seq<Record>, key: Key)
    requires Ascending(rest)
    requires rest != [] ==> rest[0].key == key || Less(key, rest[0].key)
    ensures key in AsTree(rest) <==> HeadIs(rest, key)
    ensures HeadIs(rest, key) ==> AsTree(rest)[key] == rest[0].value
    ensures Ascending(DropHead(rest, key))
    ensures AsTree(DropHead(rest, key)) == AsTree(rest) - {key}
    ensures Below({key}, AsTree(DropHead(rest, key)).Keys)
  {
    hide Less, AsTree, Ascending;
    if rest == [] {
      NoRecords();
    } else {
      HeadAndTail(rest);
      if rest[0].key != key {
        forall k | k in AsTree(rest) ensures Less(key, k) && k != key {
          if k != rest[0].key {
            LessIsTransitive(key, rest[0].key, k);
          }
          LessIsIrreflexive(key);
        }
        assert AsTree(rest) - {key} == AsTree(rest);
      }
    }
  }

  lemma LeftStep(rs: seq<Record>, rest: seq<Record>, out: seq<Record>, r: Record)
    requires Left(rs, rest, AsTree(out))
    requires rest != [] ==> rest[0].key == r.key || Less(r.key, rest[0].key)
    ensures Left(rs, DropHead(rest, r.key), AsTree(out + [r]))
  {
    hide Less, AsTree, Ascending;
    AtLeastHead(rest, r.key);
    AsTreeGrows(out, r);
    assert AsTree(rest) - {r.key} == AsTree(rs) - AsTree(out + [r]).Keys;
  }

  lemma AgreesStep(segs: seq<seq<Record>>, rest: seq<seq<Record>>, out: seq<Record>, key: Key, winner: nat)
    requires Merging(segs, rest, out) && LeastHead(rest, key) && LatestAt(rest, key, winner)
    ensures Agrees(out + [Record(key, rest[winner][0].value)], Merged(segs))
  {
    hide Less, AsTree, Merged;
    var r := Record(key, rest[winner][0].value);
    AsTreeGrows(out, r);
    forall i | 0 <= i < |rest| ensures key in AsTree(rest[i]) <==> HeadIs(rest[i], key) {
      assert Left(segs[i], rest[i], AsTree(out));
      AtLeastHead(rest[i], key);
    }
    assert Left(segs[winner], rest[winner], AsTree(out));
    AtLeastHead(rest[winner], key);
    forall i | winner < i < |segs| ensures key !in AsTree(segs[i]) {
      assert Left(segs[i], rest[i], AsTree(out)) && !HeadIs(rest[i], key);
    }
    LatestWins(segs, winner, key);
    forall i | 0 <= i < |out| ensures Less(out[i].key, key) {
      AsTreeHasKeys(out, out[i].key);
    }
  }

  lemma MergeStep(segs: seq<seq<Record>>, rest: seq<seq<Record>>, out: seq<Record>, key: Key, winner: nat,
      next: seq<seq<Record>>)
    requires Merging(segs, rest, out) && LeastHead(rest, key) && LatestAt(rest, key, winner)
    requires |next| == |rest| && forall i :: 0 <= i < |rest| ==> next[i] == DropHead(rest[i], key)
    ensures Merging(segs, next, out + [Record(key, rest[winner][0].value)])
  {
    hide Less, AsTree, Left, Agrees, Merged, LatestAt;
    WinnerStands(rest, key, winner);
    var r := Record(key, rest[winner][0].value);
    AgreesStep(segs, rest, out, key, winner);
    forall i | 0 <= i < |segs| ensures Left(segs[i], next[i], AsTree(out + [r])) {
      LeftStep(segs[i], rest[i], out, r);
    }
  }

  lemma MergeStarts(segs: seq<seq<Record>>)
    requires AllAscending(segs)
    ensures Merging(segs, segs, [])
  {
  }

  lemma MergeEnds(segs: seq<seq<Record>>, rest: seq<seq<Record>>, out: seq<Record>)
    requires Merging(segs, rest, out)
    requires forall i :: 0 <= i < |rest| ==> rest[i] == []
    ensures out == SortedRecords(Merged(segs))
  {
    hide Less, AsTree, Merged, Ascending;
    NoRecords();
    forall k | k in Merged(segs) ensures k in AsTree(out) {
      MergedHolds(segs, k);
      var j :| 0 <= j < |segs| && k in AsTree(segs[j]);
      assert Left(segs[j], rest[j], AsTree(out));
      assert k !in AsTree(rest[j]);
    }
    assert AsTree(out) == Merged(segs);
    AscendingIsDetermined(out, SortedRecords(Merged(segs)));
  }

  lemma LeastIsHead(heap: set<(Key, nat)>, keys: set<Key>, rest: seq<seq<Record>>, key: Key)
    requires HeapHolds(heap, rest)
    requires keys == (set e | e in heap :: e.0) && IsLeast(key, keys)
    ensures LeastHead(rest, key) && Standing(heap, key) != {}
  {
    hide Less;
    var e :| e in heap && e.0 == key;
    assert e in Standing(heap, key);
    forall i | 0 <= i < |rest| && rest[i] != [] ensures rest[i][0].key == key || Less(key, rest[i][0].key) {
      assert (rest[i][0].key, i) in heap && rest[i][0].key in keys;
    }
  }

  lemma MergingAscends(segs: seq<seq<Record>>, rest: seq<seq<Record>>, out: seq<Record>)
    requires Merging(segs, rest, out)
    ensures AllAscending(rest)
  {
  }

  ghost function ToGo(segs: seq<seq<Record>>, out: seq<Record>): set<Key> {
    Merged(segs).Keys - AsTree(out).Keys
  }

  lemma MergeProgress(segs: seq<seq<Record>>, rest: seq<seq<Record>>, out: seq<Record>, key: Key, winner: nat)
    requires Merging(segs, rest, out) && LatestAt(rest, key, winner)
    requires Agrees(out + [Record(key, rest[winner][0].value)], Merged(segs))
    ensures ToGo(segs, out + [Record(key, rest[winner][0].value)]) < ToGo(segs, out)
  {
    hide AsTree, Merged, Less, Ascending;
    var r := Record(key, rest[winner][0].value);
    AsTreeGrows(out, r);
    assert Left(segs[winner], rest[winner], AsTree(out));
    HeadAndTail(rest[winner]);
    assert key in ToGo(segs, out) && key !in ToGo(segs, out + [r]);
  }

  /** The merged stream: ascending, each key once, the latest segment's value. */
  method MergeSegments(segs: seq<seq<Record>>) returns (out: seq<Record>)
    requires AllAscending(segs)
    ensures out == SortedRecords(Merged(segs))
  {
    hide Less, AsTree, Ascending, Left, Agrees, Merged, SortedRecords, LatestAt, IsLeast, Standing, LeastHead, ToGo;
    out := [];
    var rest: seq<seq<Record>> := segs;
    var heap: set<(Key, nat)> := set i: nat | i < |segs| && segs[i] != [] :: (segs[i][0].key, i);
    MergeStarts(segs);
    while heap != {}
      invariant HeapHolds(heap, rest)
      invariant Merging(segs, rest, out)
      decreases ToGo(segs, out)
    {
      var keys := set e | e in heap :: e.0;
      HeapKeys(heap, keys);
      HasLeast(keys);
      var key :| IsLeast(key, keys);
      LeastIsHead(heap, keys, rest, key);
      MergingAscends(segs, rest, out);
      var was: seq<seq<Record>> := rest;
      var winner: nat;
      rest, heap, winner := DrainKey(was, heap, key);
      MergeStep(segs, was, out, key, winner, rest);
      WinnerStands(was, key, winner);
      MergeProgress(segs, was, out, key, winner);
      out := out + [Record(key, was[winner][0].value)];
    }
    MergeEnds(segs, rest, out);
  }

  lemma HeapKeys(heap: set<(Key, nat)>, keys: set<Key>)
    requires heap != {} && keys == set e | e in heap :: e.0
    ensures keys != {}
  {
    var e :| e in heap;
    assert e.0 in keys;
  }

  lemma WinnerStands(rest: seq<seq<Record>>, key: Key, winner: nat)
    requires LatestAt(rest, key, winner)
    ensures winner < |rest| && rest[winner] != []
  {
  }

  // ---- loading the stream, in chunks, past a resume mark

  predicate AtMost(k: Key, mark: Option<Key>) {
    mark.Some? && (k == mark.value || Less(k, mark.value))
  }

  /** The second mark lies at or past the first. */
  predicate NoLater(m: Option<Key>, n: Option<Key>) {
    m.Some? ==> AtMost(m.value, n)
  }

  /** The part of `t` a merge that has recorded `mark` has loaded. */
  function UpTo(t: Tree, mark: Option<Key>): Tree {
    map k | k in t && AtMost(k, mark) :: t[k]
  }

  /** The part it has still to load. */
  function Past(t: Tree, mark: Option<Key>): Tree {
    map k | k in t && !AtMost(k, mark) :: t[k]
  }

  /** The target check: nothing in the tree lies past the resume mark. */
  predicate Appendable(tree: Tree, mark: Option<Key>) {
    forall k :: k in tree ==> AtMost(k, mark)
  }

  datatype LoadState = LoadState(tree: Tree, mark: Option<Key>)

  /** One chunk's transaction: its records appended, its last key the new mark.
      Only a fault of the environment's own can stop it. */
  method FlushChunk(state: LoadState, chunk: seq<Record>, faulty: bool) returns (r: Result<LoadState, CommitError>)
    requires chunk != [] && Ascending(chunk)
    requires Appendable(state.tree, state.mark)
    requires forall i :: 0 <= i < |chunk| ==> !AtMost(chunk[i].key, state.mark)
    ensures r.Err? <==> faulty
    ensures r.Ok? ==> r.value == LoadState(state.tree + AsTree(chunk), Some(chunk[|chunk| - 1].key))
  {
    hide Less, AsTree;
    var tree := state.tree;
    NoRecords();
    var i := 0;
    while i < |chunk|
      invariant 0 <= i <= |chunk|
      invariant tree == state.tree + AsTree(chunk[..i])
    {
      assert chunk[..i + 1] == chunk[..i] + [chunk[i]];
      AsTreeGrows(chunk[..i], chunk[i]);
      AppendFits(state, chunk, i);
      if exists k :: k in tree && !Less(k, chunk[i].key) {
        return Err(WriteFailed);
      }
      tree := tree[chunk[i].key := chunk[i].value];
      i := i + 1;
    }
    assert chunk[..|chunk|] == chunk;
    if faulty {
      return Err(WriteFailed);
    }
    return Ok(LoadState(tree, Some(chunk[|chunk| - 1].key)));
  }

  lemma AppendFits(state: LoadState, chunk: seq<Record>, i: nat)
    requires i < |chunk| && Ascending(chunk)
    requires Appendable(state.tree, state.mark) && !AtMost(chunk[i].key, state.mark)
    ensures forall k :: k in state.tree + AsTree(chunk[..i]) ==> Less(k, chunk[i].key)
  {
    hide Less, AsTree;
    forall k | k in state.tree + AsTree(chunk[..i]) ensures Less(k, chunk[i].key) {
      if k in AsTree(chunk[..i]) {
        AsTreeHasKeys(chunk[..i], k);
      } else {
        LessIsTotal(state.mark.value, chunk[i].key);
        if k != state.mark.value {
          LessIsTransitive(k, state.mark.value, chunk[i].key);
        }
      }
    }
  }

  /** The first `j` records lie at or below the mark, the next ones past it. */
  ghost predicate SplitAt(out: seq<Record>, j: nat, i: nat, mark: Option<Key>) {
    && j <= i <= |out|
    && (forall x :: 0 <= x < j ==> AtMost(out[x].key, mark))
    && (forall x :: j <= x < i ==> !AtMost(out[x].key, mark))
  }

  /** A state some chunk transaction of a merge from `start` committed. */
  ghost predicate Loaded(start: LoadState, stream: Tree, s: LoadState) {
    && s.mark.Some? && Appendable(s.tree, s.mark)
    && NoLater(start.mark, s.mark)
    && s.tree == start.tree + Past(UpTo(stream, s.mark), start.mark)
  }

  /** The same state by position in the stream. */
  ghost predicate LoadedTo(start: LoadState, out: seq<Record>, j: nat, s: LoadState)
    requires j <= |out|
  {
    && Appendable(s.tree, s.mark)
    && NoLater(start.mark, s.mark)
    && s.tree == start.tree + Past(AsTree(out[..j]), start.mark)
  }

  lemma AtMostWidens(k: Key, m: Option<Key>, n: Option<Key>)
    requires m.Some? ==> AtMost(m.value, n)
    requires AtMost(k, m)
    ensures AtMost(k, n)
  {
    hide Less;
    if k != m.value && m.value != n.value {
      LessIsTransitive(k, m.value, n.value);
    }
  }

  lemma PastSplits(a: Tree, b: Tree, mark: Option<Key>)
    requires forall k :: k in b ==> !AtMost(k, mark)
    ensures Past(a + b, mark) == Past(a, mark) + b
  {
  }

  lemma UpToPrefix(out: seq<Record>, j: nat, mark: Option<Key>)
    requires SplitAt(out, j, |out|, mark)
    ensures UpTo(AsTree(out), mark) == AsTree(out[..j])
  {
    hide AtMost, AsTree;
    assert out == out[..j] + out[j..];
    AsTreeSplits(out[..j], out[j..]);
    forall k | k in AsTree(out[..j]) ensures AtMost(k, mark) {
      AsTreeHasKeys(out[..j], k);
    }
    forall k | k in AsTree(out[j..]) ensures !AtMost(k, mark) {
      AsTreeHasKeys(out[j..], k);
    }
  }

  lemma AtMostBelow(a: Key, b: Key, mark: Option<Key>)
    requires Less(a, b)
    ensures AtMost(b, mark) ==> AtMost(a, mark)
  {
    hide Less;
    if AtMost(b, mark) && b != mark.value {
      LessIsTransitive(a, b, mark.value);
    }
  }

  /** Once one record is past the mark, so is everything after it. */
  lemma SplitExtends(out: seq<Record>, j: nat, i: nat, mark: Option<Key>)
    requires Ascending(out) && SplitAt(out, j, i, mark) && j < i
    ensures SplitAt(out, j, |out|, mark)
  {
    hide Less;
    forall x | i <= x < |out| ensures !AtMost(out[x].key, mark) {
      AtMostBelow(out[j].key, out[x].key, mark);
    }
  }

  lemma SplitTakes(out: seq<Record>, j: nat, i: nat, mark: Option<Key>, whole: bool)
    requires i < |out| && SplitAt(out, j, i, mark)
    requires if whole then SplitAt(out, j, |out|, mark) else !AtMost(out[i].key, mark)
    ensures SplitAt(out, j, i + 1, mark)
  {
    hide AtMost;
  }

  /** A flushed chunk ends at a split of the whole stream. */
  lemma SplitAtKey(out: seq<Record>, n: nat)
    requires Ascending(out) && 0 < n <= |out|
    ensures SplitAt(out, n, |out|, Some(out[n - 1].key))
  {
    hide Less;
    forall x | n <= x < |out| ensures !AtMost(out[x].key, Some(out[n - 1].key)) {
      LessIsAsymmetric(out[n - 1].key, out[x].key);
    }
  }

  lemma FlushAdvances(start: LoadState, out: seq<Record>, j: nat, n: nat, was: LoadState, now: LoadState)
    requires Ascending(out) && j < n <= |out|
    requires SplitAt(out, j, n, was.mark) && LoadedTo(start, out, j, was)
    requires now == LoadState(was.tree + AsTree(out[j..n]), Some(out[n - 1].key))
    ensures LoadedTo(start, out, n, now) && SplitAt(out, n, |out|, now.mark) && SplitAt(out, n, n, now.mark)
    ensures NoLater(was.mark, now.mark)
  {
    hide Less, AsTree, Past, Ascending, AtMost;
    SplitAtKey(out, n);
    assert out[..n] == out[..j] + out[j..n];
    AsTreeSplits(out[..j], out[j..n]);
    MarkRises(out, j, n, was.mark);
    forall k | k in AsTree(out[j..n]) ensures !AtMost(k, start.mark) && AtMost(k, now.mark) {
      AsTreeHasKeys(out[j..n], k);
      var x :| 0 <= x < n - j && out[j..n][x].key == k;
      assert out[j + x].key == k;
      if AtMost(k, start.mark) {
        AtMostWidens(k, start.mark, was.mark);
      }
    }
    PastSplits(AsTree(out[..j]), AsTree(out[j..n]), start.mark);
    forall k | k in was.tree ensures AtMost(k, now.mark) {
      AtMostWidens(k, was.mark, now.mark);
    }
    if start.mark.Some? {
      AtMostWidens(start.mark.value, was.mark, now.mark);
    }
  }

  lemma MarkRises(out: seq<Record>, j: nat, n: nat, mark: Option<Key>)
    requires Ascending(out) && j < n && SplitAt(out, j, n, mark)
    ensures mark.Some? ==> AtMost(mark.value, Some(out[n - 1].key))
  {
    hide Less;
    assert !AtMost(out[n - 1].key, mark);
    if mark.Some? {
      LessIsTotal(mark.value, out[n - 1].key);
    }
  }

  lemma LoadedFromIndex(start: LoadState, out: seq<Record>, j: nat, s: LoadState)
    requires s.mark.Some? && SplitAt(out, j, |out|, s.mark) && LoadedTo(start, out, j, s)
    ensures Loaded(start, AsTree(out), s)
  {
    hide AsTree, AtMost, Past, UpTo;
    UpToPrefix(out, j, s.mark);
  }

  /** Appends the stream past the start's mark, one transaction per `cap` records,
      and returns the state each committed transaction left. The environment may
      refuse the transaction numbered `faultAt`; nothing else stops the load. */
  method LoadChunks(out: seq<Record>, start: LoadState, cap: nat, faultAt: Option<nat>)
    returns (states: seq<LoadState>, r: Result<(), CommitError>)
    requires Ascending(out) && cap > 0
    requires Appendable(start.tree, start.mark)
    ensures Rising(start, states) && forall i :: 0 <= i < |states| ==> Loaded(start, AsTree(out), states[i])
    ensures r.Ok? ==> Final(start, states).tree == start.tree + Past(AsTree(out), start.mark)
    ensures r.Err? ==> faultAt == Some(|states|)
    ensures faultAt.Some? ==> |states| <= faultAt.value
  {
    hide Less, AsTree, Past, UpTo, Loaded, LoadedTo, Ascending, AtMost, Rising, SplitAt, NoLater, Appendable;
    states := [];
    var chunk: seq<Record> := [];
    var i := 0;
    ghost var j := 0;
    LoadStarts(start, out);
    while i < |out|
      invariant 0 <= j <= i <= |out| && chunk == out[j..i]
      invariant SplitAt(out, j, i, Final(start, states).mark)
      invariant states != [] ==> SplitAt(out, j, |out|, Final(start, states).mark)
      invariant LoadedTo(start, out, j, Final(start, states))
      invariant faultAt.Some? ==> |states| <= faultAt.value
      invariant Rising(start, states) && forall x :: 0 <= x < |states| ==> Loaded(start, AsTree(out), states[x])
    {
      if AtMost(out[i].key, start.mark) {
        LoadSkips(start, out, j, i, Final(start, states), states != []);
        j := j + 1;
      } else {
        SplitTakes(out, j, i, Final(start, states).mark, states != []);
        chunk := chunk + [out[i]];
        assert chunk == out[j..i + 1];
        if |chunk| >= cap {
          ChunkFits(start, out, j, i + 1, Final(start, states));
          var next := FlushChunk(Final(start, states), chunk, faultAt == Some(|states|));
          if next.Err? {
            return states, Err(next.error);
          }
          FlushAdvances(start, out, j, i + 1, Final(start, states), next.value);
          LoadedFromIndex(start, out, i + 1, next.value);
          RisesOnce(start, states, next.value);
          states, chunk, j := states + [next.value], [], i + 1;
        }
      }
      i := i + 1;
    }
    if chunk != [] {
      ChunkFits(start, out, j, |out|, Final(start, states));
      var next := FlushChunk(Final(start, states), chunk, faultAt == Some(|states|));
      if next.Err? {
        return states, Err(next.error);
      }
      FlushAdvances(start, out, j, |out|, Final(start, states), next.value);
      LoadedFromIndex(start, out, |out|, next.value);
      RisesOnce(start, states, next.value);
      states := states + [next.value];
    }
    LoadEnds(start, out, Final(start, states));
    return states, Ok(());
  }

  lemma LoadStarts(start: LoadState, out: seq<Record>)
    requires Appendable(start.tree, start.mark)
    ensures SplitAt(out, 0, 0, start.mark) && LoadedTo(start, out, 0, start)
    ensures Rising(start, [])
  {
  }

  lemma LoadEnds(start: LoadState, out: seq<Record>, s: LoadState)
    requires LoadedTo(start, out, |out|, s)
    ensures s.tree == start.tree + Past(AsTree(out), start.mark)
  {
    assert out[..|out|] == out;
  }

  /** Only a prefix of the stream, before anything is taken, is skipped. */
  lemma LoadSkips(start: LoadState, out: seq<Record>, j: nat, i: nat, s: LoadState, flushed: bool)
    requires Ascending(out) && i < |out| && SplitAt(out, j, i, s.mark) && LoadedTo(start, out, j, s)
    requires if flushed then SplitAt(out, j, |out|, s.mark) else s == start
    requires AtMost(out[i].key, start.mark)
    ensures !flushed && j == i
    ensures SplitAt(out, i + 1, i + 1, s.mark) && LoadedTo(start, out, i + 1, s)
  {
    hide AsTree, Less, Past, Ascending, AtMost;
    AtMostWidens(out[i].key, start.mark, s.mark);
    if j < i {
      SplitExtends(out, j, i, s.mark);
    }
    assert out[..i + 1] == out[..i] + [out[i]];
    AsTreeGrows(out[..i], out[i]);
    SkippedAddsNothing(AsTree(out[..i]), out[i], start.mark);
  }

  lemma SkippedAddsNothing(t: Tree, r: Record, mark: Option<Key>)
    requires AtMost(r.key, mark)
    ensures Past(t[r.key := r.value], mark) == Past(t, mark)
  {
  }

  lemma ChunkFits(start: LoadState, out: seq<Record>, j: nat, n: nat, s: LoadState)
    requires Ascending(out) && j < n <= |out| && SplitAt(out, j, n, s.mark) && LoadedTo(start, out, j, s)
    ensures Ascending(out[j..n]) && Appendable(s.tree, s.mark)
    ensures forall x :: 0 <= x < n - j ==> !AtMost(out[j..n][x].key, s.mark)
  {
  }

  /** The mark each transaction found. */
  function MarkBefore(start: LoadState, states: seq<LoadState>, i: nat): Option<Key>
    requires i <= |states|
  {
    if i == 0 then start.mark else states[i - 1].mark
  }

  /** No transaction moves the mark back. */
  ghost predicate Rising(start: LoadState, states: seq<LoadState>) {
    forall i :: 0 <= i < |states| ==> NoLater(MarkBefore(start, states, i), states[i].mark)
  }

  lemma RisesOnce(start: LoadState, states: seq<LoadState>, next: LoadState)
    requires Rising(start, states) && NoLater(Final(start, states).mark, next.mark)
    ensures Rising(start, states + [next])
  {
    hide NoLater;
    var longer := states + [next];
    forall i | 0 <= i < |longer| ensures NoLater(MarkBefore(start, longer, i), longer[i].mark) {
      if i < |states| {
        assert MarkBefore(start, longer, i) == MarkBefore(start, states, i) && longer[i] == states[i];
      }
    }
  }

  function Final(start: LoadState, states: seq<LoadState>): LoadState {
    if states == [] then start else states[|states| - 1]
  }

  // ---- what a merge, interrupted or not, leaves

  /** One namespace's merge from any tree and mark. It refuses only a tree with
      keys past the mark; otherwise it adds exactly what the segments hold past
      the mark, and every transaction it commits is a state it can resume from. */
  method MergeNamespace(start: LoadState, segs: seq<seq<Record>>, cap: nat, faultAt: Option<nat>)
    returns (states: seq<LoadState>, r: Result<(), CommitError>)
    requires AllAscending(segs) && cap > 0
    ensures r.Err? ==> !Appendable(start.tree, start.mark) || faultAt == Some(|states|)
    ensures faultAt.Some? ==> |states| <= faultAt.value
    ensures !Appendable(start.tree, start.mark) ==> r.Err? && states == []
    ensures r.Ok? ==> Final(start, states).tree == start.tree + Past(Merged(segs), start.mark)
    ensures Rising(start, states) && forall i :: 0 <= i < |states| ==> Loaded(start, Merged(segs), states[i])
  {
    hide AsTree, Merged, Loaded, Past, SortedRecords, Ascending, AtMost, NoLater;
    if !Appendable(start.tree, start.mark) {
      return [], Err(WriteFailed);
    }
    var out := MergeSegments(segs);
    states, r := LoadChunks(out, start, cap, faultAt);
  }

  /** What a merge adds gives the segments' contents exactly when the tree already
      held them up to the mark. */
  lemma MergeIsRightIff(start: LoadState, merged: Tree)
    requires Appendable(start.tree, start.mark)
    ensures start.tree + Past(merged, start.mark) == merged <==> start.tree == UpTo(merged, start.mark)
  {
  }

  /** However often a merge is cut short, each state it leaves is the segments'
      contents up to the mark, so resuming completes it. */
  lemma ResumeCompletes(start: LoadState, merged: Tree, s: LoadState)
    requires start.tree == UpTo(merged, start.mark)
    requires Loaded(start, merged, s)
    ensures s.tree == UpTo(merged, s.mark)
    ensures s.tree + Past(merged, s.mark) == merged
  {
  }

  /** A segment appended between an interruption and the resume is loaded in full
      exactly when it leaves the keys up to the mark as they were. */
  lemma LateSegmentIff(s: LoadState, segs: seq<seq<Record>>, late: seq<Record>)
    requires Appendable(s.tree, s.mark) && s.tree == UpTo(Merged(segs), s.mark)
    ensures s.tree + Past(Merged(segs + [late]), s.mark) == Merged(segs + [late]) <==>
            forall k :: k in UpTo(AsTree(late), s.mark) ==> k in s.tree && s.tree[k] == AsTree(late)[k]
  {
    hide AtMost, AsTree, Merged;
    MergedGrows(segs, late);
    var merged := Merged(segs + [late]);
    MergeIsRightIff(s, merged);
    var below := UpTo(AsTree(late), s.mark);
    assert UpTo(merged, s.mark) == s.tree + below;
    if s.tree == s.tree + below {
      forall k | k in below ensures k in s.tree && s.tree[k] == AsTree(late)[k] {
        assert (s.tree + below)[k] == below[k];
      }
    }
  }

  /** Such a segment can lose a key: loaded through 2, a late key 1 never lands. */
  lemma LateKeyIsLost()
    ensures
      var segs := [[Record([2], [7])]];
      var s := LoadState(map[[2] := [7]], Some([2]));
      && Loaded(LoadState(map[], None), Merged(segs), s)
      && [1] in Merged(segs + [[Record([1], [9])]])
      && [1] !in s.tree + Past(Merged(segs + [[Record([1], [9])]]), s.mark)
  {
  }
}
