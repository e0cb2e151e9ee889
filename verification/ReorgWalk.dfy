/** Laying one block onto the graph, and the reorg walk: descend by parent hash
    to the first block already on the best chain, rewind to it, and lay the
    branch back down oldest first. */
module ReorgWalk {
  import opened Wrappers
  import opened ChainWorld
  import opened ChainGraph
  import opened BlockSource

  /** A well-formed window whose every retained block carries exactly its
      anchor-relative work and sits at or above the window floor. */
  ghost predicate Anchored(w: World, base: nat, v: View) {
    && ValidWorld(w)
    && WellFormed(v)
    && (forall h :: h in v.retained ==> Exact(w, base, v.retained[h]))
    && (forall h :: h in v.retained ==> v.retained[h].Height() >= v.chain[0].Height())
  }

  /** Nothing retained before is lost or altered. */
  ghost predicate Keeps(before: View, after: View) {
    forall h :: h in before.retained ==> h in after.retained && after.retained[h] == before.retained[h]
  }

  /** An advance within one window: the floor stays and nothing retained is lost. */
  ghost predicate Grows(before: View, after: View) {
    && |before.chain| > 0 && |after.chain| > 0
    && after.chain[0] == before.chain[0]
    && Keeps(before, after)
  }

  lemma GrowsReflexive(graph: MapBackedSnapshot)
    requires graph.Valid()
    ensures Grows(graph.Abs(), graph.Abs())
  {
  }

  lemma GrowsTransitive(a: View, b: View, c: View)
    requires Grows(a, b) && Grows(b, c)
    ensures Grows(a, c)
  {
  }

  /** Nothing is retained beyond what was retained before and the new best chain. */
  ghost predicate AddsOnlyCanonical(before: View, after: View) {
    forall h :: h in after.retained ==> h in before.retained || HashIsCanonical(after, h)
  }

  /** The outcome of a reorg to `target` that forks at index `k` of the old chain:
      the old chain up to the fork, then blocks the old chain did not hold, then
      the target. (That the new chain is the target's ancestry is its linkage.) */
  ghost predicate Reorganised(before: View, after: View, k: nat, target: BlockHash) {
    && k < |before.chain| && k + 1 < |after.chain|
    && after.chain[..k + 1] == before.chain[..k + 1]
    && (forall j :: k < j < |after.chain| - 1 ==> !HashIsCanonical(before, after.chain[j].Hash()))
    && Tip(after).Hash() == target
    && Keeps(before, after)
    && AddsOnlyCanonical(before, after)
  }

  /** Why an advance that began after exchange `from` may stop, read off its last
      exchange: the validator failed at that question, or had no such block, or gave
      the roots of a block whose work truly leaves 128 bits. A walk limit is
      explained where it arises, and a refused move never is. */
  ghost predicate Excused(w: World, base: nat, log: seq<Exchange>, from: nat, error: AdvanceError)
    requires ValidWorld(w)
  {
    match error
    case SourceFailed => from < |log| && log[|log| - 1].Fault()
    case InconsistentSource => from < |log| && log[|log| - 1].Missing()
    case WorkOverflow => from < |log| && Overflows(w, base, log[|log| - 1])
    case WalkLimit => true
    case RefusedRewind => false
    case RefusedExtend => false
  }

  /** The roots were given of a block whose chainwork past the base exceeds 128 bits. */
  ghost predicate Overflows(w: World, base: nat, x: Exchange)
    requires ValidWorld(w)
  {
    && x.RootsAsked? && x.roots.Present?
    && x.hash in w.blocks && Chainwork(w, x.hash) > base + U128_MAX
  }

  lemma WalkLimitIsExcused(w: World, base: nat, log: seq<Exchange>, from: nat)
    requires ValidWorld(w)
    ensures Excused(w, base, log, from, WalkLimit)
  {
  }

  lemma FaultExcuses(w: World, base: nat, log: seq<Exchange>, from: nat)
    requires ValidWorld(w) && from < |log| && log[|log| - 1].Fault()
    ensures Excused(w, base, log, from, SourceFailed)
  {
  }

  lemma ExcusedWidens(w: World, base: nat, log: seq<Exchange>, from: nat, from': nat, error: AdvanceError)
    requires ValidWorld(w) && Excused(w, base, log, from', error) && from <= from'
    ensures Excused(w, base, log, from, error)
  {
  }

  /** A block the walk collects: retained already, or fetched from the source. */
  datatype Candidate = Retained(held: ChainHeadBlock) | Fetched(block: Block) {
    function Hash(): BlockHash {
      if Retained? then held.Hash() else block.hash
    }

    function Parent(): BlockHash {
      if Retained? then held.parentHash else block.prevHash
    }

    function Height(): Height {
      if Retained? then held.Height() else block.height
    }
  }

  ghost predicate Known(w: World, v: View, c: Candidate) {
    match c
    case Retained(b) => b.Hash() in v.retained && v.retained[b.Hash()] == b
    case Fetched(b) => InWorld(w, b)
  }

  /** A child of the tip extends it under a hash the best chain does not hold, and
      if it is retained already it is the very block retained. */
  lemma ChildExtendsTip(w: World, base: nat, v: View, b: ChainHeadBlock)
    requires Anchored(w, base, v) && Exact(w, base, b) && b.parentHash == Tip(v).Hash()
    ensures ExtendsTip(v, b) && !HashIsCanonical(v, b.Hash())
    ensures b.Hash() in v.retained ==> v.retained[b.Hash()] == b
  {
  }

  /** A child of the tip extends it, keeps the window anchored and loses nothing. */
  lemma LayingDown(w: World, base: nat, v: View, b: ChainHeadBlock)
    requires Anchored(w, base, v) && Exact(w, base, b) && b.parentHash == Tip(v).Hash()
    ensures ExtendsTip(v, b) && !HashIsCanonical(v, b.Hash())
    ensures Anchored(w, base, Extended(v, b))
    ensures Keeps(v, Extended(v, b))
  {
    hide Exact, HashIsCanonical, Gapless;
    ChildExtendsTip(w, base, v, b);
    ExtendKeepsInvariants(v, b);
    TipIsAboveFloor(v);
  }

  lemma TipIsAboveFloor(v: View)
    requires WellFormed(v)
    ensures v.chain[0].Height() <= Tip(v).Height()
  {
  }

  /** If the parent is in the world, it sits one height lower. */
  ghost predicate LeadsDown(w: World, c: Candidate) {
    c.Parent() in w.blocks ==> w.blocks[c.Parent()].height + 1 == c.Height()
  }

  /** A known candidate lies in the world, where its hash fixes the rest. */
  lemma KnownIsInWorld(w: World, base: nat, v: View, c: Candidate)
    requires Anchored(w, base, v) && Known(w, v, c)
    ensures c.Hash() in w.blocks && c.Height() == w.blocks[c.Hash()].height
    ensures LeadsDown(w, c)
  {
  }

  lemma DescentDescends(w: World, base: nat, v: View, c: Candidate, next: Candidate)
    requires Anchored(w, base, v) && LeadsDown(w, c) && Known(w, v, next) && next.Hash() == c.Parent()
    ensures next.Height() < c.Height() && LeadsDown(w, next)
  {
  }

  /** Accumulating a block's work onto its exact parent is exact. */
  lemma AccumulatedIsExact(w: World, base: nat, parent: ChainHeadBlock, b: ChainHeadBlock)
    requires ValidWorld(w) && Exact(w, base, parent)
    requires InWorld(w, b.block) && b.block.prevHash == parent.Hash()
    requires b.reference == BlockRef(b.block.hash, b.block.height) && b.parentHash == b.block.prevHash
    requires b.work == parent.work + b.block.blockWork
    requires b.Hash() in w.roots && b.treeRoots == w.roots[b.Hash()]
    ensures Exact(w, base, b)
  {
  }

  /** Builds the window's block for a served one, on its parent's work, or on
      nothing for the anchor, whose accumulation starts at its own work. */
  function ChainHeadBlockOf(block: Block, roots: TreeRoots, parentWork: Option<nat>)
    : (r: Result<ChainHeadBlock, AdvanceError>)
    ensures r.Err? <==> parentWork.Some? && parentWork.value + block.blockWork > U128_MAX
    ensures r.Err? ==> r.error == WorkOverflow
  {
    match parentWork
    case Some(work) =>
      if work + block.blockWork > U128_MAX then Err(WorkOverflow)
      else Ok(ChainHeadBlock(BlockRef(block.hash, block.height), block.prevHash,
                             work + block.blockWork, block, roots))
    case None =>
      Ok(ChainHeadBlock(BlockRef(block.hash, block.height), block.prevHash,
                        block.blockWork, block, roots))
  }

  /** The question numbered `n` gets the block's roots, and its work fits. */
  ghost predicate Buildable(source: Validator, base: nat, block: Block, n: nat)
    requires source.Consistent()
  {
    && source.rootsAnswer(n, block.hash).Present?
    && block.hash in source.world.blocks && Chainwork(source.world, block.hash) <= base + U128_MAX
  }

  method BlockToChainBlock(source: Validator, ghost base: nat, prev: ChainHeadBlock, block: Block)
    returns (r: Result<ChainHeadBlock, AdvanceError>)
    requires source.Consistent() && Exact(source.world, base, prev)
    requires InWorld(source.world, block) && block.prevHash == prev.Hash()
    modifies source
    ensures old(source.log) <= source.log
    ensures r.Ok? ==> Exact(source.world, base, r.value) && r.value.Hash() == block.hash
    ensures r.Ok? <==> Buildable(source, base, block, |old(source.log)|)
    ensures r.Err? ==> Excused(source.world, base, source.log, |old(source.log)|, r.error) && r.error != WalkLimit
  {
    var roots := source.TreeRootsOf(block.hash);
    if roots.Err? {
      return Err(roots.error);
    }
    r := ChainHeadBlockOf(block, roots.value, Some(prev.work));
    if r.Ok? {
      AccumulatedIsExact(source.world, base, prev, r.value);
    } else {
      assert ValidEntry(source.world, block.hash);
    }
  }

  /** A retained candidate is reused as it is; a fetched one accumulates onto `prev`. */
  method ToChainHeadBlock(source: Validator, ghost base: nat, ghost v: View, c: Candidate, prev: ChainHeadBlock)
    returns (r: Result<ChainHeadBlock, AdvanceError>)
    requires source.Consistent() && Anchored(source.world, base, v) && Known(source.world, v, c)
    requires Exact(source.world, base, prev) && c.Parent() == prev.Hash()
    modifies source
    ensures r.Ok? ==> Exact(source.world, base, r.value) && r.value.Hash() == c.Hash()
    ensures r.Ok? ==> r.value.parentHash == prev.Hash()
    ensures old(source.log) <= source.log
    ensures r.Err? ==> Excused(source.world, base, source.log, |old(source.log)|, r.error) && r.error != WalkLimit
  {
    match c {
      case Retained(held) => r := Ok(held);
      case Fetched(block) => r := BlockToChainBlock(source, base, prev, block);
    }
  }

  /** A descent by parent hash: every step names the parent of the one before,
      and past the first none is on the best chain. */
  ghost predicate Descent(w: World, v: View, path: seq<Candidate>) {
    && |path| > 0
    && (forall i :: 0 <= i < |path| ==> Known(w, v, path[i]))
    && (forall i {:trigger path[i].Hash()} :: 0 < i < |path| ==> path[i].Hash() == path[i - 1].Parent())
    && (forall i :: 0 < i < |path| ==> !HashIsCanonical(v, path[i].Hash()))
  }

  lemma DescentStarts(w: World, v: View, c: Candidate)
    requires Known(w, v, c)
    ensures Descent(w, v, [c])
  {
  }

  lemma DescentGrows(w: World, v: View, path: seq<Candidate>, c: Candidate)
    requires Descent(w, v, path) && Known(w, v, c)
    requires c.Hash() == path[|path| - 1].Parent() && !HashIsCanonical(v, c.Hash())
    ensures Descent(w, v, path + [c])
  {
    hide Known, HashIsCanonical;
    var longer := path + [c];
    forall i {:trigger longer[i].Hash()} | 0 < i < |longer|
      ensures longer[i].Hash() == longer[i - 1].Parent()
    {
      assert longer[i - 1] == path[i - 1];
      if i < |path| {
        assert longer[i] == path[i];
        assert path[i].Hash() == path[i - 1].Parent();
      }
    }
    forall i | 0 <= i < |longer|
      ensures Known(w, v, longer[i])
      ensures i > 0 ==> !HashIsCanonical(v, longer[i].Hash())
    {
      if i < |path| {
        assert longer[i] == path[i];
      }
    }
  }

  /** A retained block is canonical by hash exactly when it is by reference. */
  lemma CanonicalByHash(v: View, b: ChainHeadBlock)
    requires WellFormed(v) && b.Hash() in v.retained && v.retained[b.Hash()] == b
    ensures HashIsCanonical(v, b.Hash()) <==> Canonical(v, b.reference)
  {
  }

  /** More ancestors of the block lie off the best chain than the walk may cross. */
  ghost predicate TooDeep(w: World, v: View, block: Candidate, maxDepth: nat) {
    exists path :: Descent(w, v, path) && path[0] == block && |path| == maxDepth + 2
  }

  /** What a parent hash leads to: the fork point, or one more block of the branch. */
  datatype Step = Fork(block: ChainHeadBlock) | Branch(candidate: Candidate)

  /** One step down: a canonical retained parent is the fork point, a competing
      one is reused, and one not retained is fetched. */
  method StepDown(source: Validator, ghost base: nat, graph: MapBackedSnapshot, parentHash: BlockHash)
    returns (r: Result<Step, AdvanceError>)
    requires source.Consistent() && graph.Valid() && Anchored(source.world, base, graph.Abs())
    modifies source
    ensures old(source.log) <= source.log
    ensures r.Err? ==> Excused(source.world, base, source.log, |old(source.log)|, r.error) && r.error != WalkLimit
    ensures r.Ok? && r.value.Fork? ==>
      && r.value.block.Hash() == parentHash
      && parentHash in graph.Retained() && graph.Retained()[parentHash] == r.value.block
      && Canonical(graph.Abs(), r.value.block.reference)
    ensures r.Ok? && r.value.Branch? ==>
      && r.value.candidate.Hash() == parentHash && Known(source.world, graph.Abs(), r.value.candidate)
      && !HashIsCanonical(graph.Abs(), parentHash)
  {
    var held := graph.BlockByHash(parentHash);
    if held.Some? {
      CanonicalByHash(graph.Abs(), held.value);
      if graph.IsOnBestChain(held.value.reference) {
        return Ok(Fork(held.value));
      }
      return Ok(Branch(Retained(held.value)));
    }
    var fetched := source.BlockAtHash(parentHash);
    if fetched.Err? {
      return Err(fetched.error);
    }
    if fetched.value.None? {
      return Err(InconsistentSource);
    }
    return Ok(Branch(Fetched(fetched.value.value)));
  }

  /** The downward half of the reorg walk: the fork point, and the path down to it,
      which is the block followed by its branch, newest first. It stops within
      `maxDepth` steps. */
  method FindFork(source: Validator, maxDepth: nat, ghost base: nat, graph: MapBackedSnapshot, block: Candidate)
    returns (fork: Result<ChainHeadBlock, AdvanceError>, path: seq<Candidate>)
    requires source.Consistent() && graph.Valid()
    requires Anchored(source.world, base, graph.Abs()) && Known(source.world, graph.Abs(), block)
    modifies source
    ensures old(source.log) <= source.log
    ensures fork.Err? ==> Excused(source.world, base, source.log, |old(source.log)|, fork.error)
    ensures |path| > 0 && path[0] == block && Descent(source.world, graph.Abs(), path)
    ensures fork == Err(WalkLimit) ==> |path| == maxDepth + 2
    ensures fork.Ok? ==> |path| <= maxDepth + 1
    ensures fork.Ok? ==>
      && fork.value.Hash() == path[|path| - 1].Parent()
      && fork.value.Hash() in graph.Retained() && graph.Retained()[fork.value.Hash()] == fork.value
      && Canonical(graph.Abs(), fork.value.reference)
  {
    hide Anchored, Known, Canonical, HashIsCanonical, Descent, Represents, LeadsDown, Excused;
    path := [block];
    DescentStarts(source.world, graph.Abs(), block);
    KnownIsInWorld(source.world, base, graph.Abs(), block);
    var last := block;
    while true
      invariant |path| > 0 && path[0] == block && last == path[|path| - 1]
      invariant Descent(source.world, graph.Abs(), path)
      invariant LeadsDown(source.world, last)
      invariant |path| <= maxDepth + 2
      invariant old(source.log) <= source.log
      decreases last.Height()
    {
      if |path| - 1 > maxDepth {
        WalkLimitIsExcused(source.world, base, source.log, |old(source.log)|);
        return Err(WalkLimit), path;
      }
      ghost var from := |source.log|;
      var step := StepDown(source, base, graph, last.Parent());
      if step.Err? {
        ExcusedWidens(source.world, base, source.log, |old(source.log)|, from, step.error);
        return Err(step.error), path;
      }
      if step.value.Fork? {
        return Ok(step.value.block), path;
      }
      var next := step.value.candidate;
      DescentDescends(source.world, base, graph.Abs(), last, next);
      DescentGrows(source.world, graph.Abs(), path, next);
      path := path + [next];
      last := next;
    }
  }

  /** Progress of the upward half: `laid` blocks of the descent stand on the fork. */
  ghost predicate LaidDown(before: View, after: View, k: nat, path: seq<Candidate>, laid: nat) {
    && k < |before.chain| && laid <= |path| && |after.chain| == k + 1 + laid
    && after.chain[..k + 1] == before.chain[..k + 1]
    && (forall j :: k < j < |after.chain| ==> after.chain[j].Hash() == path[|path| - (j - k)].Hash())
    && Keeps(before, after)
    && AddsOnlyCanonical(before, after)
  }

  lemma LaidDownGrows(before: View, after: View, k: nat, path: seq<Candidate>, laid: nat, b: ChainHeadBlock)
    requires LaidDown(before, after, k, path, laid) && laid < |path|
    requires ExtendsTip(after, b) && b.Hash() == path[|path| - 1 - laid].Hash()
    requires Keeps(after, Extended(after, b))
    ensures LaidDown(before, Extended(after, b), k, path, laid + 1)
  {
    AddingOneIsCanonical(before, after, b);
    var next := Extended(after, b);
    assert next.chain[..k + 1] == after.chain[..k + 1];
    forall j | k < j < |next.chain|
      ensures next.chain[j].Hash() == path[|path| - (j - k)].Hash()
    {
      if j < |after.chain| {
        assert next.chain[j] == after.chain[j];
      }
    }
  }

  lemma AddingOneIsCanonical(before: View, after: View, b: ChainHeadBlock)
    requires |after.chain| > 0 && ExtendsTip(after, b) && AddsOnlyCanonical(before, after)
    ensures AddsOnlyCanonical(before, Extended(after, b))
  {
    var next := Extended(after, b);
    assert next.chain[|after.chain|] == b;
    forall h | h in after.retained && HashIsCanonical(after, h)
      ensures HashIsCanonical(next, h)
    {
      var i :| 0 <= i < |after.chain| && after.chain[i].Hash() == h;
      assert next.chain[i].Hash() == h;
    }
  }

  /** All laid down, the graph has reorganised to the head of the descent. */
  lemma LaidDownIsReorganised(w: World, before: View, after: View, k: nat, path: seq<Candidate>)
    requires Descent(w, before, path) && LaidDown(before, after, k, path, |path|)
    ensures Reorganised(before, after, k, path[0].Hash())
  {
  }

  /** Rewinding to a canonical block keeps the window anchored, with nothing laid yet. */
  lemma RewoundIsAnchored(w: World, base: nat, v: View, r: BlockRef, path: seq<Candidate>) returns (k: nat)
    requires Anchored(w, base, v) && Canonical(v, r)
    ensures k < |v.chain| && Rewound(v, r).chain == v.chain[..k + 1]
    ensures Anchored(w, base, Rewound(v, r)) && Tip(Rewound(v, r)).reference == r
    ensures LaidDown(v, Rewound(v, r), k, path, 0)
  {
    RewindKeepsInvariants(v, r);
    k :| 0 <= k < |v.chain| && v.chain[k].reference == r;
    assert v.chain[k].Height() == v.chain[0].Height() + k;
    assert Rewound(v, r).chain == v.chain[..k + 1];
  }

  lemma TipIsExact(w: World, base: nat, v: View)
    requires Anchored(w, base, v)
    ensures Exact(w, base, Tip(v))
  {
  }

  /** Converts one candidate and extends the graph with it. */
  method LayCandidate(source: Validator, ghost base: nat, graph: MapBackedSnapshot, ghost before: View,
                      c: Candidate, prev: ChainHeadBlock, ghost k: nat, ghost path: seq<Candidate>, ghost laid: nat)
    returns (r: Result<ChainHeadBlock, AdvanceError>)
    requires source.Consistent() && graph.Valid() && Anchored(source.world, base, graph.Abs())
    requires Anchored(source.world, base, before) && Known(source.world, before, c)
    requires graph.tip == prev && c.Parent() == prev.Hash()
    requires LaidDown(before, graph.Abs(), k, path, laid) && laid < |path| && c == path[|path| - 1 - laid]
    modifies source, graph`tip, graph`others, graph`heightsToHashes, graph`chain
    ensures graph.Valid() && Anchored(source.world, base, graph.Abs())
    ensures r.Ok? ==> LaidDown(before, graph.Abs(), k, path, laid + 1)
    ensures r.Ok? ==> graph.tip == r.value && r.value.Hash() == c.Hash()
    ensures old(source.log) <= source.log
    ensures r.Err? ==> graph.Abs() == old(graph.Abs())
    ensures r.Err? ==> Excused(source.world, base, source.log, |old(source.log)|, r.error) && r.error != WalkLimit
  {
    hide Anchored, LaidDown, Known, HashIsCanonical, Excused, Keeps;
    ghost var w, v := source.world, graph.Abs();
    TipIsExact(w, base, v);
    var built := ToChainHeadBlock(source, base, before, c, prev);
    if built.Err? {
      return Err(built.error);
    }
    LayingDown(w, base, v, built.value);
    LaidDownGrows(before, v, k, path, laid, built.value);
    var accepted := graph.Extend(built.value);
    return if accepted then built else Err(RefusedExtend);
  }

  lemma DescentStep(w: World, v: View, path: seq<Candidate>, i: nat)
    requires Descent(w, v, path) && i < |path|
    ensures Known(w, v, path[i])
    ensures i > 0 ==> path[i].Hash() == path[i - 1].Parent()
  {
  }

  /** The upward half of the reorg walk: the branch oldest first, then the block,
      which is where the descent `path` began. */
  method LayBranch(source: Validator, ghost base: nat, graph: MapBackedSnapshot, ghost before: View,
                   path: seq<Candidate>, fork: ChainHeadBlock, ghost k: nat)
    returns (r: Result<ChainHeadBlock, AdvanceError>, ghost laid: nat)
    requires source.Consistent() && graph.Valid() && Anchored(source.world, base, graph.Abs())
    requires Anchored(source.world, base, before) && Descent(source.world, before, path)
    requires graph.tip == fork && fork.Hash() == path[|path| - 1].Parent()
    requires LaidDown(before, graph.Abs(), k, path, 0)
    modifies source, graph`tip, graph`others, graph`heightsToHashes, graph`chain
    ensures graph.Valid() && Anchored(source.world, base, graph.Abs())
    ensures LaidDown(before, graph.Abs(), k, path, laid)
    ensures r.Ok? ==> laid == |path| && r.value == graph.tip
    ensures old(source.log) <= source.log
    ensures r.Err? ==> Excused(source.world, base, source.log, |old(source.log)|, r.error) && r.error != WalkLimit
  {
    hide Anchored, Known, LaidDown, Represents, Excused, Descent, Exact, Keeps;
    r := Ok(fork);
    var i := |path|;
    laid := 0;
    while i > 0
      invariant 0 <= i <= |path| && laid == |path| - i
      invariant graph.Valid() && Anchored(source.world, base, graph.Abs())
      invariant LaidDown(before, graph.Abs(), k, path, laid)
      invariant old(source.log) <= source.log
      invariant r == Ok(graph.tip) && (i > 0 ==> graph.tip.Hash() == path[i - 1].Parent())
    {
      i := i - 1;
      DescentStep(source.world, before, path, i);
      ghost var from := |source.log|;
      r := LayCandidate(source, base, graph, before, path[i], graph.tip, k, path, laid);
      if r.Err? {
        ExcusedWidens(source.world, base, source.log, |old(source.log)|, from, r.error);
        return;
      }
      laid := laid + 1;
    }
  }

  /** Reorganises the graph to `block`. A successful call leaves the old best
      chain up to the fork point followed by the block's ancestry ending in the
      block; every call keeps the window anchored, its floor in place and every
      block retained, and no rewind or extend it makes is ever refused. */
  method HandleReorg(source: Validator, maxDepth: nat, ghost base: nat, graph: MapBackedSnapshot, block: Candidate)
    returns (r: Result<ChainHeadBlock, AdvanceError>, ghost k: nat)
    requires source.Consistent() && graph.Valid()
    requires Anchored(source.world, base, graph.Abs()) && Known(source.world, graph.Abs(), block)
    modifies source, graph`tip, graph`others, graph`heightsToHashes, graph`chain
    ensures graph.Valid() && Anchored(source.world, base, graph.Abs())
    ensures Grows(old(graph.Abs()), graph.Abs())
    ensures r.Ok? ==> Reorganised(old(graph.Abs()), graph.Abs(), k, block.Hash())
    ensures r.Ok? ==> r.value == graph.tip && r.value.Hash() == block.Hash()
    ensures r.Ok? ==> |graph.chain| <= k + 2 + maxDepth
    ensures old(source.log) <= source.log
    ensures r.Err? ==> Excused(source.world, base, source.log, |old(source.log)|, r.error)
    ensures r == Err(WalkLimit) ==> TooDeep(source.world, old(graph.Abs()), block, maxDepth)
  {
    hide Anchored, Descent, Known, Excused;
    ghost var w, v := source.world, graph.Abs();
    k := 0;
    var fork, path := FindFork(source, maxDepth, base, graph, block);
    if fork.Err? {
      return Err(fork.error), k;
    }
    k := RewoundIsAnchored(w, base, v, fork.value.reference, path);
    var rewound := graph.RewindTo(fork.value.reference);
    if !rewound {
      return Err(RefusedRewind), k;
    }
    RetainedByReference(graph.Abs(), fork.value);
    ghost var from, laid := |source.log|, 0;
    r, laid := LayBranch(source, base, graph, v, path, fork.value, k);
    assert graph.chain[..k + 1][0] == v.chain[..k + 1][0];
    if r.Err? {
      ExcusedWidens(source.world, base, source.log, |old(source.log)|, from, r.error);
    } else {
      LaidDownIsReorganised(w, v, graph.Abs(), k, path);
    }
  }

  lemma RetainedByReference(v: View, b: ChainHeadBlock)
    requires WellFormed(v) && b.Hash() in v.retained && v.retained[b.Hash()] == b
    requires Tip(v).reference == b.reference
    ensures Tip(v) == b
  {
  }
}
