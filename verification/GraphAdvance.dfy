/** The steps that build the next graph from the previous one: anchor, extend to
    the validator's height, catch a reorg that raised nothing, trim, and settle
    on the most work. */
module GraphAdvance {
  import opened Wrappers
  import opened ChainWorld
  import opened ChainGraph
  import opened BlockSource
  import opened ReorgWalk
  import opened FinalitySeam

  /** Every retained block weighs at most what the tip does. */
  ghost predicate TipIsHeaviest(v: View)
    requires |v.chain| > 0
  {
    forall h :: h in v.retained ==> v.retained[h].work <= Tip(v).work
  }

  /** What was answered within a span was answered within any longer one. */
  lemma AnswersWiden(shorter: seq<Exchange>, longer: seq<Exchange>, from: nat, from': nat)
    requires shorter <= longer && from <= from'
    ensures forall b: Block :: Served(shorter, from', b) ==> Served(longer, from, b)
    ensures forall h: Height :: SaidAbsent(shorter, from', h) ==> SaidAbsent(longer, from, h)
  {
    forall b: Block | Served(shorter, from', b)
      ensures Served(longer, from, b)
    {
      var n :| from' <= n < |shorter| && shorter[n] == HeightAsked(b.height, Present(b));
      assert longer[n] == shorter[n];
    }
    forall h: Height | SaidAbsent(shorter, from', h)
      ensures SaidAbsent(longer, from, h)
    {
      var n :| from' <= n < |shorter| && shorter[n] == HeightAsked(h, Absent);
      assert longer[n] == shorter[n];
    }
  }

  /** The anchor alone is an anchored window, its base being the chainwork below it. */
  method ResolveAnchorBlock(source: Validator, anchorHeight: Height)
    returns (r: Result<ChainHeadBlock, AdvanceError>, ghost base: nat)
    requires source.Consistent()
    modifies source
    ensures old(source.log) <= source.log
    ensures r.Ok? ==> Exact(source.world, base, r.value) && r.value.Height() == anchorHeight
    ensures r.Ok? ==> Served(source.log, |old(source.log)|, r.value.block)
    ensures var answer := source.heightAnswer(|old(source.log)|, anchorHeight);
      && (r.Ok? <==> answer.Present? && source.rootsAnswer(|old(source.log)| + 1, answer.value.hash).Present?)
      && (r.Ok? ==> r.value.block == answer.value)
    ensures r.Err? ==> Excused(source.world, base, source.log, |old(source.log)|, r.error)
  {
    base := 0;
    var block := source.BlockAtHeight(anchorHeight);
    if block.Err? {
      return Err(block.error), base;
    }
    if block.value.None? {
      return Err(InconsistentSource), base;
    }
    var b := block.value.value;
    ghost var log := source.log;
    var roots := source.TreeRootsOf(b.hash);
    AnswersWiden(log, source.log, |old(source.log)|, |old(source.log)|);
    if roots.Err? {
      return Err(roots.error), base;
    }
    base := Chainwork(source.world, b.hash) - b.blockWork;
    r := ChainHeadBlockOf(b, roots.value, None);
  }

  /** Appends a served child of the tip. */
  method AppendChild(source: Validator, ghost base: nat, graph: MapBackedSnapshot, block: Block)
    returns (r: Result<(), AdvanceError>)
    requires source.Consistent() && graph.Valid() && Anchored(source.world, base, graph.Abs())
    requires InWorld(source.world, block) && block.prevHash == graph.tip.Hash()
    modifies source, graph`tip, graph`others, graph`heightsToHashes, graph`chain
    ensures graph.Valid() && Anchored(source.world, base, graph.Abs())
    ensures Grows(old(graph.Abs()), graph.Abs())
    ensures r.Ok? ==> graph.tip.Hash() == block.hash && graph.tip.Height() == old(graph.tip).Height() + 1
    ensures r.Ok? ==> graph.chain == old(graph.chain) + [graph.tip]
    ensures r.Ok? && old(TipIsHeaviest(graph.Abs())) ==> TipIsHeaviest(graph.Abs())
    ensures r.Ok? <==> Buildable(source, base, block, |old(source.log)|)
    ensures old(source.log) <= source.log
    ensures r.Err? ==> Excused(source.world, base, source.log, |old(source.log)|, r.error) && r.error != WalkLimit
  {
    hide Validator.Consistent, ValidWorld, Excused, Anchored, Exact, TipIsHeaviest, HashIsCanonical, Keeps, Buildable;
    source.WorldIsValid();
    ghost var v := graph.Abs();
    GrowsReflexive(graph);
    TipIsExact(source.world, base, v);
    var built := BlockToChainBlock(source, base, graph.tip, block);
    if built.Err? {
      return Err(built.error);
    }
    ExactIsChild(source.world, base, built.value, block);
    LayingDown(source.world, base, v, built.value);
    if TipIsHeaviest(v) {
      ChildIsHeaviest(source.world, base, v, built.value);
    }
    var accepted := graph.Extend(built.value);
    return if accepted then Ok(()) else Err(RefusedExtend);
  }

  lemma ExactIsChild(w: World, base: nat, b: ChainHeadBlock, block: Block)
    requires ValidWorld(w) && Exact(w, base, b) && InWorld(w, block) && b.Hash() == block.hash
    ensures b.parentHash == block.prevHash
  {
  }

  /** A child laid on the heaviest block is the heaviest. */
  lemma ChildIsHeaviest(w: World, base: nat, v: View, b: ChainHeadBlock)
    requires Anchored(w, base, v) && Exact(w, base, b) && b.parentHash == Tip(v).Hash() && TipIsHeaviest(v)
    requires ExtendsTip(v, b)
    ensures TipIsHeaviest(Extended(v, b))
  {
    hide Gapless;
    TipIsRetained(w, base, v);
    ChildOutweighsParent(w, base, Tip(v), b);
  }

  /** A served block one above the tip: it extends the tip or starts a reorg. */
  method TakeServed(source: Validator, maxDepth: nat, ghost base: nat, graph: MapBackedSnapshot, block: Block)
    returns (r: Result<(), AdvanceError>)
    requires source.Consistent() && graph.Valid() && Anchored(source.world, base, graph.Abs())
    requires InWorld(source.world, block) && block.height == graph.tip.Height() + 1
    modifies source, graph`tip, graph`others, graph`heightsToHashes, graph`chain
    ensures graph.Valid() && Anchored(source.world, base, graph.Abs())
    ensures Grows(old(graph.Abs()), graph.Abs())
    ensures r.Ok? ==> graph.tip.block == block && graph.tip.Height() == block.height
    ensures block.prevHash == old(graph.tip).Hash() ==> (r.Ok? <==> Buildable(source, base, block, |old(source.log)|))
    ensures block.prevHash == old(graph.tip).Hash() && r.Ok? && old(TipIsHeaviest(graph.Abs())) ==> TipIsHeaviest(graph.Abs())
    ensures old(source.log) <= source.log
    ensures r.Err? ==> Excused(source.world, base, source.log, |old(source.log)|, r.error)
    ensures r == Err(WalkLimit) ==> TooDeep(source.world, old(graph.Abs()), Fetched(block), maxDepth)
  {
    hide Validator.Consistent, ValidWorld, Anchored, Grows, Represents, Reorganised, TooDeep, Overflows, TipIsHeaviest,
      Buildable;
    source.WorldIsValid();
    if block.prevHash == graph.tip.Hash() {
      r := AppendChild(source, base, graph, block);
    } else {
      var reorged, _ := HandleReorg(source, maxDepth, base, graph, Fetched(block));
      r := if reorged.Ok? then Ok(()) else Err(reorged.error);
    }
    TipInWorld(source.world, base, graph);
  }

  /** One round of following: the next height's block extends the tip or starts
      a reorg; no block at that height ends the round with nothing done. */
  method FollowOne(source: Validator, maxDepth: nat, ghost base: nat, graph: MapBackedSnapshot, ghost best: seq<Block>)
    returns (r: Result<bool, AdvanceError>)
    requires source.Consistent() && graph.Valid() && Anchored(source.world, base, graph.Abs())
    requires graph.tip.Height() < MAX_HEIGHT
    modifies source, graph`tip, graph`others, graph`heightsToHashes, graph`chain
    ensures graph.Valid() && Anchored(source.world, base, graph.Abs())
    ensures Grows(old(graph.Abs()), graph.Abs())
    ensures |graph.chain| > 0 && graph.tip.Hash() == graph.tip.block.hash
    ensures r == Ok(true) ==> graph.tip.Height() == old(graph.tip).Height() + 1
    ensures r == Ok(true) ==> Served(source.log, |old(source.log)|, graph.tip.block)
    ensures r == Ok(false) ==> graph.Abs() == old(graph.Abs()) && graph.tip == old(graph.tip)
    ensures r == Ok(false) ==>
      SaidAbsent(source.log, |old(source.log)|, old(graph.tip).Height() + 1)
    ensures source.SteadyOn(best, old(graph.tip)) && old(graph.tip).Height() + 1 < |best| ==>
      && r == Ok(true) && source.SteadyOn(best, graph.tip)
      && (old(TipIsHeaviest(graph.Abs())) ==> TipIsHeaviest(graph.Abs()))
    ensures old(source.log) <= source.log
    ensures r.Err? ==> Excused(source.world, base, source.log, |old(source.log)|, r.error)
    ensures r == Err(WalkLimit) ==> exists b: Block ::
      && Served(source.log, |old(source.log)|, b) && b.height == old(graph.tip).Height() + 1
      && TooDeep(source.world, old(graph.Abs()), Fetched(b), maxDepth)
  {
    hide Validator.Consistent, ValidWorld, Anchored, Grows, Represents, Reorganised, TooDeep, Served, SaidAbsent,
      Overflows, TipIsHeaviest, Buildable, Validator.SteadyOn, Excused;
    source.WorldIsValid();
    GrowsReflexive(graph);
    TipInWorld(source.world, base, graph);
    if source.SteadyOn(best, graph.tip) && graph.tip.Height() + 1 < |best| {
      SteadyNext(source, best, base, graph.tip, |source.log|);
    }
    var served := source.BlockAtHeight(graph.tip.Height() + 1);
    if served.Err? {
      FaultExcuses(source.world, base, source.log, |old(source.log)|);
      return Err(served.error);
    }
    if served.value.None? {
      return Ok(false);
    }
    var block := served.value.value;
    ghost var log := source.log;
    var taken := TakeServed(source, maxDepth, base, graph, block);
    TipInWorld(source.world, base, graph);
    AnswersWiden(log, source.log, |old(source.log)|, |old(source.log)|);
    if taken.Err? {
      ExcusedWidens(source.world, base, source.log, |old(source.log)|, |log|, taken.error);
      return Err(taken.error);
    }
    return Ok(true);
  }

  lemma SteadyServes(source: Validator, best: seq<Block>, tip: ChainHeadBlock, n: nat)
    requires source.Consistent() && source.SteadyOn(best, tip)
    ensures source.heightAnswer(n, tip.Height()) == Present(tip.block)
  {
    source.SteadyBlock(best, tip.Height(), n);
  }

  /** A steady validator serves, above a block of its chain, a child that can be built on it. */
  lemma SteadyNext(source: Validator, best: seq<Block>, base: nat, tip: ChainHeadBlock, n: nat)
    requires source.Consistent() && tip.Height() + 1 < |best| && source.SteadyOn(best, tip) && tip.Hash() == tip.block.hash
    ensures tip.Height() < MAX_HEIGHT
    ensures var answer := source.heightAnswer(n, tip.Height() + 1);
      && answer == Present(best[tip.Height() + 1]) && answer.value.prevHash == tip.Hash()
      && answer.value.height == tip.Height() + 1
      && Buildable(source, base, answer.value, n + 1)
    ensures forall next: ChainHeadBlock ::
      next.block == best[tip.Height() + 1] && next.Height() == tip.Height() + 1 ==> source.SteadyOn(best, next)
  {
    source.SteadyBlock(best, tip.Height() + 1, n);
    source.SteadyBlock(best, tip.Height() + 1, n + 1);
  }

  lemma TipInWorld(w: World, base: nat, graph: MapBackedSnapshot)
    requires graph.Valid() && Anchored(w, base, graph.Abs())
    ensures |graph.chain| > 0 && graph.tip == Tip(graph.Abs())
    ensures graph.tip.Hash() in w.blocks && graph.tip.block == w.blocks[graph.tip.Hash()]
    ensures graph.tip.Height() == graph.tip.block.height && graph.tip.Hash() == graph.tip.block.hash
  {
  }

  /** Follows the validator up to `chainHeight`, or to where it says there is no
      next block. Each round raises the tip by one, whatever the validator does in
      between, so the loop ends. */
  method ExtendToHeight(source: Validator, maxDepth: nat, ghost base: nat, graph: MapBackedSnapshot,
      chainHeight: Height, ghost best: seq<Block>)
    returns (r: Result<(), AdvanceError>)
    requires source.Consistent() && graph.Valid() && Anchored(source.world, base, graph.Abs())
    modifies source, graph`tip, graph`others, graph`heightsToHashes, graph`chain
    ensures graph.Valid() && Anchored(source.world, base, graph.Abs())
    ensures Grows(old(graph.Abs()), graph.Abs())
    ensures old(source.log) <= source.log
    ensures r.Err? ==> Excused(source.world, base, source.log, |old(source.log)|, r.error)
    ensures source.SteadyOn(best, old(graph.tip)) && old(graph.tip).Height() <= chainHeight < |best| ==>
      && r.Ok? && source.SteadyOn(best, graph.tip) && graph.tip.Height() == chainHeight
      && (old(TipIsHeaviest(graph.Abs())) ==> TipIsHeaviest(graph.Abs()))
    ensures r.Ok? ==>
      || graph.Abs() == old(graph.Abs())
      || Served(source.log, |old(source.log)|, graph.tip.block)
    ensures r.Ok? ==>
      || graph.tip.Height() >= chainHeight
      || SaidAbsent(source.log, |old(source.log)|, graph.tip.Height() + 1)
  {
    hide Validator.Consistent, ValidWorld, Anchored, Excused, Grows, Represents, Served, SaidAbsent, TipIsHeaviest,
      Validator.SteadyOn, Buildable;
    source.WorldIsValid();
    ghost var before := graph.Abs();
    GrowsReflexive(graph);
    TipInWorld(source.world, base, graph);
    ghost var steady := source.SteadyOn(best, graph.tip) && graph.tip.Height() <= chainHeight < |best|;
    ghost var heaviest := TipIsHeaviest(graph.Abs());
    while graph.tip.Height() < chainHeight
      invariant graph.Valid() && Anchored(source.world, base, graph.Abs())
      invariant |graph.chain| > 0 && graph.tip.Hash() == graph.tip.block.hash && Grows(before, graph.Abs())
      invariant steady ==> source.SteadyOn(best, graph.tip) && graph.tip.Height() <= chainHeight < |best|
      invariant steady && heaviest ==> TipIsHeaviest(graph.Abs())
      invariant old(source.log) <= source.log
      invariant graph.Abs() == before || Served(source.log, |old(source.log)|, graph.tip.block)
      decreases chainHeight - graph.tip.Height()
    {
      ghost var log, middle := source.log, graph.Abs();
      var followed := FollowOne(source, maxDepth, base, graph, best);
      GrowsTransitive(before, middle, graph.Abs());
      AnswersWiden(source.log, source.log, |old(source.log)|, |log|);
      AnswersWiden(log, source.log, |old(source.log)|, |old(source.log)|);
      if followed.Err? {
        ExcusedWidens(source.world, base, source.log, |old(source.log)|, |log|, followed.error);
        return Err(followed.error);
      }
      if !followed.value {
        return Ok(());
      }
    }
    r := Ok(());
  }

  /** Steps down from the tip's height until the source serves a block, at most
      `maxDepth` heights. */
  method HighestServed(source: Validator, maxDepth: nat, tipHeight: Height)
    returns (r: Result<Option<Block>, AdvanceError>)
    requires source.Consistent()
    modifies source
    ensures old(source.log) <= source.log
    ensures r.Ok? && r.value.Some? ==>
      && InWorld(source.world, r.value.value)
      && r.value.value.height <= tipHeight <= r.value.value.height + maxDepth
      && Served(source.log, |old(source.log)|, r.value.value)
      && NothingServed(source.log, |old(source.log)|, r.value.value.height + 1, tipHeight)
    ensures r.Ok? && r.value.None? ==>
      tipHeight <= maxDepth && NothingServed(source.log, |old(source.log)|, 0, tipHeight)
    ensures var answer := source.heightAnswer(|old(source.log)|, tipHeight);
      answer.Present? ==> r == Ok(Some(answer.value))
    ensures r.Err? ==> r.error in {SourceFailed, WalkLimit}
    ensures r == Err(SourceFailed) ==>
      |old(source.log)| < |source.log| && source.log[|source.log| - 1].Fault()
    ensures r == Err(WalkLimit) ==>
      maxDepth < tipHeight &&
      NothingServed(source.log, |old(source.log)|, tipHeight - maxDepth, tipHeight)
  {
    var target: Height := tipHeight;
    while true
      invariant target <= tipHeight <= target + maxDepth + 1
      invariant old(source.log) <= source.log
      invariant NothingServed(source.log, |old(source.log)|, target + 1, tipHeight)
      invariant target < tipHeight ==> !source.heightAnswer(|old(source.log)|, tipHeight).Present?
      invariant target == tipHeight ==> source.log == old(source.log)
      decreases target
    {
      if target + maxDepth < tipHeight {
        return Err(WalkLimit);
      }
      ghost var log := source.log;
      r := source.BlockAtHeight(target);
      AnswersWiden(log, source.log, |old(source.log)|, |old(source.log)|);
      AnswersWiden(source.log, source.log, |old(source.log)|, |log|);
      if r.Err? || r.value.Some? {
        return;
      }
      if target == 0 {
        return;
      }
      target := target - 1;
    }
  }

  /** Every height from `low` to `high` was asked for and said to be absent. */
  ghost predicate NothingServed(log: seq<Exchange>, from: nat, low: int, high: Height) {
    forall h: Height :: low <= h <= high ==> SaidAbsent(log, from, h)
  }

  /** The tip is the validator's: the highest block it served at or below the old
      tip, or the old tip when it served none at all. */
  ghost predicate ValidatorsTip(log: seq<Exchange>, from: nat, before: View, after: View)
    requires |before.chain| > 0 && |after.chain| > 0
  {
    var oldHeight := Tip(before).Height();
    || (after == before && NothingServed(log, from, 0, oldHeight))
    || (&& Served(log, from, Tip(after).block)
        && Tip(after).Height() <= oldHeight
        && NothingServed(log, from, Tip(after).Height() + 1, oldHeight))
  }

  /** Catches a reorg that did not raise the tip, reorganising to the highest
      block the source serves at or below it when that is another one. */
  method CheckForNonHigherReorgs(source: Validator, maxDepth: nat, ghost base: nat, graph: MapBackedSnapshot)
    returns (r: Result<(), AdvanceError>)
    requires source.Consistent() && graph.Valid() && Anchored(source.world, base, graph.Abs())
    modifies source, graph`tip, graph`others, graph`heightsToHashes, graph`chain
    ensures graph.Valid() && Anchored(source.world, base, graph.Abs())
    ensures Grows(old(graph.Abs()), graph.Abs())
    ensures r.Ok? ==>
      ValidatorsTip(source.log, |old(source.log)|, old(graph.Abs()), graph.Abs())
    ensures source.heightAnswer(|old(source.log)|, old(graph.tip).Height()) == Present(old(graph.tip).block) ==>
      r.Ok? && graph.Abs() == old(graph.Abs()) && graph.tip == old(graph.tip)
    ensures old(source.log) <= source.log
    ensures r.Err? ==> Excused(source.world, base, source.log, |old(source.log)|, r.error)
    ensures r == Err(WalkLimit) ==>
      var tip := old(graph.tip).Height();
      || (maxDepth < tip && NothingServed(source.log, |old(source.log)|, tip - maxDepth, tip))
      || (exists b: Block ::
            && Served(source.log, |old(source.log)|, b) && b.height <= tip
            && TooDeep(source.world, old(graph.Abs()), Fetched(b), maxDepth))
  {
    hide Validator.Consistent, ValidWorld, Anchored, Grows, Served, SaidAbsent, TooDeep;
    source.WorldIsValid();
    GrowsReflexive(graph);
    TipInWorld(source.world, base, graph);
    var served := HighestServed(source, maxDepth, graph.tip.Height());
    if served.Err? {
      return Err(served.error);
    }
    if served.value.None? || served.value.value.hash == graph.tip.Hash() {
      return Ok(());
    }
    ghost var log := source.log;
    var reorged, _ := HandleReorg(source, maxDepth, base, graph, Fetched(served.value.value));
    AnswersWiden(log, source.log, |old(source.log)|, |old(source.log)|);
    if reorged.Err? {
      ExcusedWidens(source.world, base, source.log, |old(source.log)|, |log|, reorged.error);
      return Err(reorged.error);
    }
    TipInWorld(source.world, base, graph);
    assert graph.tip.block == served.value.value;
    return Ok(());
  }

  /** The validator walk: up to its height, then down to what it still serves. */
  method FollowValidator(source: Validator, maxDepth: nat, ghost base: nat, graph: MapBackedSnapshot,
      chainHeight: Height, ghost best: seq<Block>)
    returns (r: Result<(), AdvanceError>, ghost risen: View, ghost middle: nat)
    requires source.Consistent() && graph.Valid() && Anchored(source.world, base, graph.Abs())
    modifies source, graph`tip, graph`others, graph`heightsToHashes, graph`chain
    ensures graph.Valid() && Anchored(source.world, base, graph.Abs())
    ensures Grows(old(graph.Abs()), graph.Abs())
    ensures old(source.log) <= source.log && |old(source.log)| <= middle <= |source.log|
    ensures r.Ok? ==> Followed(source.log, |old(source.log)|, middle, old(graph.Abs()), risen, graph.Abs(), chainHeight)
    ensures source.SteadyOn(best, old(graph.tip)) && old(graph.tip).Height() <= chainHeight < |best| ==>
      && r.Ok? && source.SteadyOn(best, graph.tip) && graph.tip.Height() == chainHeight
      && (old(TipIsHeaviest(graph.Abs())) ==> TipIsHeaviest(graph.Abs()))
    ensures r.Err? ==> Excused(source.world, base, source.log, |old(source.log)|, r.error)
  {
    hide Validator.Consistent, ValidWorld, Anchored, Excused, ValidatorsTip, SaidAbsent, Served, Represents,
      TipIsHeaviest, Validator.SteadyOn;
    source.WorldIsValid();
    risen, middle := graph.Abs(), |source.log|;
    r := ExtendToHeight(source, maxDepth, base, graph, chainHeight, best);
    if r.Err? {
      return;
    }
    TipInWorld(source.world, base, graph);
    risen, middle := graph.Abs(), |source.log|;
    ghost var log := source.log;
    if source.SteadyOn(best, graph.tip) {
      SteadyServes(source, best, graph.tip, |log|);
    }
    r := CheckForNonHigherReorgs(source, maxDepth, base, graph);
    TipInWorld(source.world, base, graph);
    GrowsTransitive(old(graph.Abs()), risen, graph.Abs());
    assert source.log[..middle] == log;
    if r.Err? {
      ExcusedWidens(source.world, base, source.log, |old(source.log)|, middle, r.error);
    }
  }

  /** From `before` the graph was first raised to `chainHeight`, or to where the validator knew no
      next block, and its tip is then the validator's own answer. */
  ghost predicate Followed(log: seq<Exchange>, from: nat, middle: nat, before: View, risen: View, after: View,
      chainHeight: Height) {
    && from <= middle <= |log|
    && Grows(before, risen) && Grows(risen, after)
    && (Tip(risen).Height() >= chainHeight || SaidAbsent(log[..middle], from, Tip(risen).Height() + 1))
    && ValidatorsTip(log, middle, risen, after)
  }

  /** What trimming leaves is anchored, and its floor rises no further than asked. */
  lemma TrimmedIsAnchored(w: World, base: nat, v: View, floor: Height)
    requires Anchored(w, base, v)
    ensures Anchored(w, base, Trimmed(v, floor))
    ensures v.chain[0].Height() <= Trimmed(v, floor).chain[0].Height()
    ensures floor <= Tip(v).Height() ==>
      Trimmed(v, floor).chain[0].Height() <=
        (if floor <= v.chain[0].Height() then v.chain[0].Height() else floor)
  {
    TrimKeepsInvariants(v, floor);
    var d := FromIsSuffix(v.chain, floor);
    assert forall i :: 0 <= i < |v.chain| ==> v.chain[i].Height() == v.chain[0].Height() + i;
    assert Trimmed(v, floor).chain[0] == v.chain[d];
  }

  /** Trimming drops no block heavier than the tip. */
  lemma TrimKeepsHeaviest(v: View, floor: Height)
    requires WellFormed(v) && TipIsHeaviest(v)
    ensures |Trimmed(v, floor).chain| > 0 && TipIsHeaviest(Trimmed(v, floor))
  {
    TrimKeepsInvariants(v, floor);
  }

  /** Along the best chain work strictly rises. */
  lemma {:induction false} ChainWorkRises(w: World, base: nat, v: View, i: nat, j: nat)
    requires Anchored(w, base, v) && i < j < |v.chain|
    ensures v.chain[i].work < v.chain[j].work
    decreases j - i
  {
    assert v.retained[v.chain[i].Hash()] == v.chain[i];
    assert v.retained[v.chain[i + 1].Hash()] == v.chain[i + 1];
    assert v.chain[i + 1].parentHash == v.chain[i].Hash();
    ChildOutweighsParent(w, base, v.chain[i], v.chain[i + 1]);
    if i + 1 < j {
      ChainWorkRises(w, base, v, i + 1, j);
    }
  }

  /** A reorg to a block at least as heavy as everything retained leaves the tip
      heaviest: what it adds are the tip's own ancestors. */
  lemma ReorganisedTipIsHeaviest(w: World, base: nat, before: View, after: View, k: nat, target: ChainHeadBlock)
    requires Anchored(w, base, before) && Anchored(w, base, after)
    requires Reorganised(before, after, k, target.Hash())
    requires target.Hash() in before.retained && before.retained[target.Hash()] == target
    requires forall h :: h in before.retained ==> before.retained[h].work <= target.work
    ensures Tip(after) == target && TipIsHeaviest(after)
  {
    hide Anchored, HashIsCanonical;
    TipIsRetained(w, base, after);
    forall h | h in after.retained
      ensures after.retained[h].work <= Tip(after).work
    {
      if h !in before.retained {
        CanonicalIsLighter(w, base, after, h);
      }
    }
  }

  lemma TipIsRetained(w: World, base: nat, v: View)
    requires Anchored(w, base, v)
    ensures |v.chain| > 0 && Tip(v).Hash() in v.retained && v.retained[Tip(v).Hash()] == Tip(v)
  {
    hide Gapless, Exact, ValidWorld;
  }

  lemma CanonicalIsLighter(w: World, base: nat, v: View, h: BlockHash)
    requires Anchored(w, base, v) && HashIsCanonical(v, h)
    ensures h in v.retained && |v.chain| > 0 && v.retained[h].work <= Tip(v).work
  {
    hide Gapless, Exact, ValidWorld;
    var i :| 0 <= i < |v.chain| && v.chain[i].Hash() == h;
    assert v.retained[h] == v.chain[i];
    if i < |v.chain| - 1 {
      ChainWorkRises(w, base, v, i, |v.chain| - 1);
    }
  }

  /** Moves the tip to the most work retained, only for strictly more: on a tie
      the block the validator named stays. */
  method SettleOnMostWork(source: Validator, maxDepth: nat, ghost base: nat, graph: MapBackedSnapshot)
    returns (r: Result<(), AdvanceError>)
    requires source.Consistent() && graph.Valid() && Anchored(source.world, base, graph.Abs())
    modifies source, graph`tip, graph`others, graph`heightsToHashes, graph`chain
    ensures graph.Valid() && Anchored(source.world, base, graph.Abs())
    ensures Grows(old(graph.Abs()), graph.Abs())
    ensures r.Ok? ==> TipIsHeaviest(graph.Abs())
    ensures old(TipIsHeaviest(graph.Abs())) ==> r.Ok? && graph.Abs() == old(graph.Abs()) && graph.tip == old(graph.tip)
    ensures r == Err(WalkLimit) ==>
      exists h :: h in old(graph.Abs()).retained &&
        TooDeep(source.world, old(graph.Abs()), Retained(old(graph.Abs()).retained[h]), maxDepth)
    ensures old(source.log) <= source.log
    ensures r.Err? ==> Excused(source.world, base, source.log, |old(source.log)|, r.error)
  {
    hide Validator.Consistent, ValidWorld, TooDeep;
    source.WorldIsValid();
    ghost var before := graph.Abs();
    var heaviest := graph.HeaviestBlock();
    if heaviest.work <= graph.tip.work {
      return Ok(());
    }
    ghost var k;
    var reorged;
    reorged, k := HandleReorg(source, maxDepth, base, graph, Retained(heaviest));
    if reorged.Err? {
      return Err(reorged.error);
    }
    ReorganisedTipIsHeaviest(source.world, base, before, graph.Abs(), k, heaviest);
    return Ok(());
  }
}
