/** The writer: builds the next graph, publishes it under an epoch, and leaves
    the published snapshot alone when it cannot. */
module ChainHeadService {
  import opened Wrappers
  import opened ChainWorld
  import opened ChainGraph
  import opened BlockSource
  import opened ReorgWalk
  import opened GraphAdvance
  import opened FinalitySeam

  datatype Epoch = Epoch(generation: nat, bestTip: BlockRef)

  /** Generations never fall, and equal generations mean equal tips. */
  ghost predicate Ordered(history: seq<Epoch>) {
    forall i, j :: 0 <= i < j < |history| ==>
      && history[i].generation <= history[j].generation
      && (history[i].generation == history[j].generation ==> history[i].bestTip == history[j].bestTip)
  }

  /** A generation counts publications, so it stays below the 64-bit limit as long
      as their number does; until then the history is ordered. */
  ghost predicate EpochHistory(history: seq<Epoch>) {
    && |history| > 0
    && (forall i :: 0 <= i < |history| ==> history[i].generation <= i && history[i].generation <= U64_MAX)
    && (|history| <= U64_MAX ==> Ordered(history))
  }

  /** Two publications share a generation only if every one between has their tip. */
  lemma SharedGenerationMeansOneTip(history: seq<Epoch>, i: nat, k: nat, j: nat)
    requires EpochHistory(history) && |history| <= U64_MAX
    requires i <= k <= j < |history| && history[i].generation == history[j].generation
    ensures history[k].bestTip == history[i].bestTip
  {
  }

  /** The generation a publication carries. */
  function NextGeneration(tipChanged: bool, previous: nat, highestPublished: nat): nat {
    if !tipChanged then previous
    else if highestPublished < U64_MAX then highestPublished + 1 else U64_MAX
  }

  lemma PublishingKeepsHistory(history: seq<Epoch>, next: Epoch)
    requires EpochHistory(history)
    requires var last := history[|history| - 1];
      next.generation == NextGeneration(next.bestTip != last.bestTip, last.generation, last.generation)
    ensures EpochHistory(history + [next])
  {
  }

  /** A published window and what separates its work from absolute chainwork. */
  datatype Window = Window(base: nat, view: View)

  /** Every publication named the heaviest block of an anchored window. */
  ghost predicate SoundWindows(w: World, history: seq<Epoch>, windows: seq<Window>) {
    |windows| == |history| &&
    forall i :: 0 <= i < |history| ==> SoundWindow(w, history[i], windows[i])
  }

  ghost predicate SoundWindow(w: World, epoch: Epoch, window: Window) {
    && Anchored(w, window.base, window.view)
    && TipIsHeaviest(window.view)
    && epoch.bestTip == Tip(window.view).reference
  }

  lemma PublishingKeepsWindows(w: World, history: seq<Epoch>, windows: seq<Window>, epoch: Epoch, window: Window)
    requires SoundWindows(w, history, windows) && SoundWindow(w, epoch, window)
    ensures SoundWindows(w, history + [epoch], windows + [window])
  {
    hide SoundWindow;
  }

  lemma AnchorAlone(w: World, base: nat, anchor: ChainHeadBlock)
    requires ValidWorld(w) && Exact(w, base, anchor)
    ensures var v := View([anchor], map[anchor.Hash() := anchor]);
      Anchored(w, base, v) && TipIsHeaviest(v)
  {
  }

  /** What can happen to a running chain head: a writer tick, or the durable tier
      confirming heights under the horizon released last. */
  datatype Event = TickEvent | ConfirmEvent(to: Height)

  class Service {
    const source: Validator
    const seam: Seam
    const maxDepth: nat
    var current: MapBackedSnapshot
    /** The last epoch subscribers were told of. */
    var updates: Epoch
    /** What separates the published window's work from absolute chainwork. */
    ghost var base: nat
    /** The epoch of every publication, the anchoring included. */
    ghost var history: seq<Epoch>
    /** The window of every publication. */
    ghost var windows: seq<Window>

    ghost predicate Valid()
      reads this, current, seam
    {
      && source.Consistent()
      && seam.Valid()
      && current.Valid() && Anchored(source.world, base, current.Abs()) && TipIsHeaviest(current.Abs())
      && EpochHistory(history)
      && history[|history| - 1] == updates
      && SoundWindows(source.world, history, windows)
      && updates == Epoch(current.generation, current.BestTip())
    }

    /** The window reaches down to the durable tier: no height is above the
        watermark and below the window. */
    ghost predicate ReachesWatermark()
      reads this, current, seam
    {
      Reaches(current.Abs())
    }

    ghost predicate Reaches(v: View)
      reads seam`committed
    {
      seam.committed.Some? ==> |v.chain| > 0 && v.chain[0].Height() <= seam.committed.value + 1
    }

    constructor (source: Validator, seam: Seam, maxDepth: nat, anchor: ChainHeadBlock, ghost base: nat)
      requires source.Consistent() && seam.Valid() && Exact(source.world, base, anchor)
      ensures Valid() && this.source == source && this.seam == seam && this.maxDepth == maxDepth
      ensures current.chain == [anchor] && updates == Epoch(0, anchor.reference)
    {
      hide Anchored, Exact, TipIsHeaviest;
      AnchorAlone(source.world, base, anchor);
      this.source := source;
      this.seam := seam;
      this.maxDepth := maxDepth;
      this.base := base;
      var snapshot := new MapBackedSnapshot.FromInitialBlock(anchor);
      current := snapshot;
      updates := Epoch(0, anchor.reference);
      history := [Epoch(0, anchor.reference)];
      windows := [Window(base, snapshot.Abs())];
    }

    /** The graph to start from: the previous one, or a fresh anchor when the chain
        moved further than the window covers. */
    method StartingGraph(previous: MapBackedSnapshot, ghost previousBase: nat, anchorHeight: Height, ghost best: seq<Block>)
      returns (r: Result<MapBackedSnapshot, AdvanceError>, ghost newBase: nat)
      requires source.Consistent() && previous.Valid() && Anchored(source.world, previousBase, previous.Abs())
      modifies source
      ensures old(source.log) <= source.log
      ensures r.Ok? ==> fresh(r.value) && r.value.Valid() && Anchored(source.world, newBase, r.value.Abs())
      ensures r.Ok? ==> Starts(previous.Abs(), anchorHeight, r.value.Abs())
      ensures source.Steady(best) && previous.tip.Height() < anchorHeight < |best| ==>
        && r.Ok? && source.SteadyOn(best, r.value.tip) && r.value.tip.Height() == anchorHeight
        && |r.value.chain| > 0 && TipIsHeaviest(r.value.Abs())
      ensures r.Err? ==> Excused(source.world, newBase, source.log, |old(source.log)|, r.error)
    {
      hide Validator.Consistent, ValidWorld, Excused, Anchored, Exact, Represents, Validator.Steady, TipIsHeaviest;
      source.WorldIsValid();
      newBase := previousBase;
      TipInWorld(source.world, previousBase, previous);
      if previous.tip.Height() >= anchorHeight {
        var copy := new MapBackedSnapshot.CloneOf(previous);
        return Ok(copy), newBase;
      }
      if source.Steady(best) && anchorHeight < |best| {
        source.SteadyBlock(best, anchorHeight, |source.log|);
        source.SteadyBlock(best, anchorHeight, |source.log| + 1);
      }
      var anchor;
      anchor, newBase := ResolveAnchorBlock(source, anchorHeight);
      if anchor.Err? {
        return Err(anchor.error), newBase;
      }
      var graph := new MapBackedSnapshot.FromInitialBlock(anchor.value);
      AnchorAlone(source.world, newBase, anchor.value);
      return Ok(graph), newBase;
    }

    /** The trim floor: the lower of the reorg window's floor and the seam's. */
    function TrimFloor(tip: Height): (floor: Height)
      reads seam`committed
      ensures floor <= tip
      ensures floor <= HeightBelow(tip, maxDepth)
      ensures seam.committed.Some? ==> floor <= seam.RetentionFloor().value <= seam.committed.value
      ensures seam.committed.Some? ==> floor == HeightBelow(tip, maxDepth) || floor == seam.RetentionFloor().value
      ensures seam.committed.None? ==> floor == 0
    {
      var safety := HeightBelow(tip, maxDepth);
      match seam.RetentionFloor()
      case Some(retention) => if safety <= retention then safety else retention
      case None => 0
    }

    /** Trims the graph and releases the horizon below its tip, under the hash of
        the canonical block there when the window still holds it. */
    method TrimAndRelease(graph: MapBackedSnapshot, ghost newBase: nat)
      requires source.Consistent() && seam.Valid() && graph.Valid()
      requires Anchored(source.world, newBase, graph.Abs())
      modifies graph`others, graph`heightsToHashes, graph`chain, seam`released, seam`issued
      ensures seam.Valid() && graph.Valid() && Anchored(source.world, newBase, graph.Abs())
      ensures graph.tip == old(graph.tip)
      ensures graph.Abs() == Trimmed(old(graph.Abs()), TrimFloor(graph.tip.Height()))
      ensures FloorRisesTo(old(graph.Abs()), TrimFloor(graph.tip.Height()), graph.Abs())
      ensures var horizon := HeightBelow(graph.tip.Height(), seam.reorgDepth);
        var canonical := graph.BestBlockByHeight(horizon);
        seam.released ==
          if canonical.Some? && (old(seam.released).None? || old(seam.released).value.height <= horizon)
          then Some(Released(horizon, canonical.value.Hash()))
          else old(seam.released)
    {
      hide Validator.Consistent, ValidWorld, Anchored, Exact;
      source.WorldIsValid();
      var floor := TrimFloor(graph.tip.Height());
      TrimmedIsAnchored(source.world, newBase, graph.Abs(), floor);
      graph.RemoveFinalisedBlocks(floor);

      var tip := graph.tip.Height();
      var canonical := graph.BestBlockByHeight(HeightBelow(tip, seam.reorgDepth));
      if canonical.Some? {
        var _ := seam.AdvanceHorizon(tip, canonical.value.Hash());
      }
    }

    /** A graph brought to `after` by its stages: the validator followed, the trim,
        the most work. */
    ghost predicate Staged(log: seq<Exchange>, from: nat, chainHeight: Height, stages: Stages, after: View)
      reads seam`committed
    {
      && |after.chain| > 0
      && FollowedSince(log, from, stages.started, stages.followed, chainHeight)
      && stages.trimmed == Trimmed(stages.followed, TrimFloor(Tip(stages.followed).Height()))
      && FloorRisesTo(stages.followed, TrimFloor(Tip(stages.followed).Height()), stages.trimmed)
      && Grows(stages.trimmed, after)
      && TipIsHeaviest(after)
      && (TipIsHeaviest(stages.trimmed) ==> after == stages.trimmed)
    }

    /** An advance from `before`: its stages begin at the previous graph or at a
        fresh anchor. */
    ghost predicate Advanced(before: View, log: seq<Exchange>, from: nat, chainHeight: Height, stages: Stages, after: View)
      reads seam`committed
    {
      && |before.chain| > 0
      && Starts(before, HeightBelow(chainHeight, maxDepth), stages.started)
      && Staged(log, from, chainHeight, stages, after)
    }

    /** Brings a graph to `chainHeight`: follow the validator, trim, then settle on
        the most work. */
    method AdvanceGraph(graph: MapBackedSnapshot, ghost newBase: nat, chainHeight: Height, ghost best: seq<Block>)
      returns (r: Result<(), AdvanceError>, ghost stages: Stages)
      requires source.Consistent() && seam.Valid()
      requires graph.Valid() && Anchored(source.world, newBase, graph.Abs())
      modifies source, seam`released, seam`issued, graph`tip, graph`others, graph`heightsToHashes, graph`chain
      ensures seam.Valid() && old(source.log) <= source.log
      ensures graph.Valid() && Anchored(source.world, newBase, graph.Abs())
      ensures r.Ok? ==> stages.started == old(graph.Abs())
      ensures r.Ok? ==> Staged(source.log, |old(source.log)|, chainHeight, stages, graph.Abs())
      ensures source.SteadyOn(best, old(graph.tip)) && old(graph.tip).Height() <= chainHeight < |best| ==>
        |old(graph.chain)| > 0 && old(TipIsHeaviest(graph.Abs())) ==>
        r.Ok? && source.SteadyOn(best, graph.tip) && graph.tip.Height() == chainHeight
      ensures r.Err? ==> Excused(source.world, newBase, source.log, |old(source.log)|, r.error)
    {
      hide Validator.Consistent, ValidWorld, Anchored, Represents, Excused, Followed, TipIsHeaviest, Trimmed,
        FloorRisesTo, Grows, FollowedSince, Validator.SteadyOn;
      source.WorldIsValid();
      stages := Stages(graph.Abs(), graph.Abs(), graph.Abs());
      ghost var risen, middle;
      r, risen, middle := FollowValidator(source, maxDepth, newBase, graph, chainHeight, best);
      if r.Err? {
        return;
      }
      ghost var log, followed := source.log, graph.Abs();
      TipInWorld(source.world, newBase, graph);
      HeaviestAfterTrim(source.world, newBase, graph, TrimFloor(graph.tip.Height()));
      TrimAndRelease(graph, newBase);
      stages := stages.(followed := followed, trimmed := graph.Abs());
      r := SettleOnMostWork(source, maxDepth, newBase, graph);
      TipInWorld(source.world, newBase, graph);
      if r.Err? {
        ExcusedWidens(source.world, newBase, source.log, |old(source.log)|, |log|, r.error);
        return;
      }
      assert source.log[..|log|] == log;
      FollowedLater(source.log, |old(source.log)|, |old(source.log)|, middle, |log|, stages.started, risen, followed,
                    chainHeight);
    }

    /** Builds the graph as it should be at `chainHeight`, touching nothing
        published, from the previous graph or a fresh anchor. */
    method NextGraph(previous: MapBackedSnapshot, ghost previousBase: nat, chainHeight: Height, ghost best: seq<Block>)
      returns (r: Result<MapBackedSnapshot, AdvanceError>, ghost newBase: nat, ghost stages: Stages)
      requires source.Consistent() && seam.Valid()
      requires previous.Valid() && Anchored(source.world, previousBase, previous.Abs())
      modifies source, seam`released, seam`issued
      ensures seam.Valid() && old(source.log) <= source.log
      ensures r.Ok? ==> fresh(r.value) && r.value.Valid() && Anchored(source.world, newBase, r.value.Abs())
      ensures r.Ok? ==>
        Advanced(previous.Abs(), source.log, |old(source.log)|, chainHeight, stages, r.value.Abs())
      ensures source.Steady(best) && chainHeight == |best| - 1 && previous.tip.Height() < HeightBelow(chainHeight, maxDepth) ==>
        r.Ok? && source.SteadyOn(best, r.value.tip) && r.value.tip.Height() == chainHeight
      ensures r.Err? ==> Excused(source.world, newBase, source.log, |old(source.log)|, r.error)
    {
      hide Validator.Consistent, ValidWorld, Anchored, Represents, Excused, Staged, Validator.Steady,
        Validator.SteadyOn, TipIsHeaviest;
      source.WorldIsValid();
      TipInWorld(source.world, previousBase, previous);
      stages := Stages(previous.Abs(), previous.Abs(), previous.Abs());
      var started;
      started, newBase := StartingGraph(previous, previousBase, HeightBelow(chainHeight, maxDepth), best);
      if started.Err? {
        return Err(started.error), newBase, stages;
      }
      var graph := started.value;
      ghost var from := |source.log|;
      var advanced;
      advanced, stages := AdvanceGraph(graph, newBase, chainHeight, best);
      if advanced.Err? {
        ExcusedWidens(source.world, newBase, source.log, |old(source.log)|, from, advanced.error);
        return Err(advanced.error), newBase, stages;
      }
      StagedWidens(source.log, |old(source.log)|, from, chainHeight, stages, graph.Abs());
      return Ok(graph), newBase, stages;
    }

    /** Installs a snapshot under its epoch and tells subscribers of a new tip. */
    method PublishSnapshot(next: MapBackedSnapshot, ghost newBase: nat)
      requires Valid() && next != current
      requires next.Valid() && Anchored(source.world, newBase, next.Abs()) && TipIsHeaviest(next.Abs())
      modifies this`current, this`updates, this`base, this`history, this`windows, next`generation
      ensures Valid()
      ensures current == next && next.Abs() == old(next.Abs())
      ensures history == old(history) + [updates] && windows == old(windows) + [Window(newBase, next.Abs())]
      ensures updates == Epoch(NextGeneration(next.BestTip() != old(current.BestTip()),
                                              old(current.generation), old(updates.generation)),
                               next.BestTip())
      ensures next.BestTip() != old(current.BestTip()) ==>
        (updates.generation > old(updates).generation <==> old(updates).generation < U64_MAX)
    {
      hide Validator.Consistent, ValidWorld, Anchored, Represents, TipIsHeaviest, SoundWindows, Ordered;
      source.WorldIsValid();
      var previous := current;
      var staleTip, newTip := previous.BestTip(), next.BestTip();
      var highestPublished := updates.generation;
      next.StampGeneration(previous, highestPublished);
      var generation := next.generation;
      current := next;
      base := newBase;
      if newTip != staleTip {
        updates := Epoch(generation, newTip);
      }
      PublishingKeepsHistory(history, updates);
      TipInWorld(source.world, newBase, next);
      PublishingKeepsWindows(source.world, history, windows, updates, Window(newBase, next.Abs()));
      history := history + [updates];
      windows := windows + [Window(newBase, next.Abs())];
    }

    /** The source's tip, at question `n`, lies further above `held` than the
        window covers. */
    ghost predicate FellBehind(n: nat, held: BlockRef) {
      && source.tipAnswer(n).Present?
      && held.height < HeightBelow(source.tipAnswer(n).value.height, maxDepth)
    }

    /** One turn of the writer: nothing when the source's tip is held already,
        otherwise a new graph, published whole or not at all. */
    method Tick(ghost best: seq<Block>)
      returns (r: Result<(), AdvanceError>, ghost published: bool, ghost reanchored: bool, ghost stages: Stages)
      requires Valid()
      modifies this`current, this`updates, this`base, this`history, this`windows, source, seam`released, seam`issued
      ensures Valid()
      ensures published <==> r.Ok? && source.tipAnswer(|old(source.log)|) != Present(old(current.BestTip()))
      ensures r.Ok? ==> source.tipAnswer(|old(source.log)|).Present?
      ensures history == if published then old(history) + [updates] else old(history)
      ensures !published ==> current == old(current) && updates == old(updates) && unchanged(current)
      ensures published ==> fresh(current)
      ensures published ==>
        Advanced(old(current.Abs()), source.log, |old(source.log)|,
                 source.tipAnswer(|old(source.log)|).value.height, stages, current.Abs())
      ensures reanchored <==> published && FellBehind(|old(source.log)|, old(current.BestTip()))
      ensures !reanchored && old(ReachesWatermark()) ==> ReachesWatermark()
      ensures reanchored ==>
        (ReachesWatermark() <==> AnchorReaches(source.tipAnswer(|old(source.log)|).value.height))
      ensures source.Steady(best) && FellBehind(|old(source.log)|, old(current.BestTip())) ==>
        published && source.SteadyOn(best, current.tip) && current.tip.Height() == |best| - 1
      ensures old(source.log) < source.log
      ensures r.Err? ==> exists b: nat :: Excused(source.world, b, source.log, |old(source.log)|, r.error)
    {
      hide Validator.Consistent, ValidWorld, Anchored, Represents, EpochHistory, SoundWindows, TipIsHeaviest, Staged,
        Excused, Reaches, AnchorReaches, Validator.Steady, Validator.SteadyOn;
      source.WorldIsValid();
      published, reanchored := false, false;
      stages := Stages(current.Abs(), current.Abs(), current.Abs());
      ghost var v := current.Abs();
      TipInWorld(source.world, base, current);
      var tip := source.ChainTip();
      ghost var log := source.log;
      if source.Steady(best) {
        SteadyAnswersTip(source, best, |old(source.log)|);
      }
      if tip.Err? {
        FaultExcuses(source.world, base, log, |old(source.log)|);
        return Err(tip.error), published, reanchored, stages;
      }
      if tip.value == current.BestTip() {
        return Ok(()), published, reanchored, stages;
      }
      ghost var behind := current.tip.Height() < HeightBelow(tip.value.height, maxDepth);
      var next;
      ghost var newBase;
      next, newBase, stages := NextGraph(current, base, tip.value.height, best);
      if next.Err? {
        ExcusedWidens(source.world, newBase, source.log, |old(source.log)|, |log|, next.error);
        return Err(next.error), published, reanchored, stages;
      }
      StagedWidens(source.log, |old(source.log)|, |log|, tip.value.height, stages, next.value.Abs());
      SeamAfter(v, source.log, |old(source.log)|, tip.value.height, stages, next.value.Abs());
      PublishSnapshot(next.value, newBase);
      published, reanchored := true, behind;
      return Ok(()), published, reanchored, stages;
    }

    /** A fresh anchor below this height lies at or below the height after the watermark. */
    ghost predicate AnchorReaches(chainHeight: Height)
      reads seam`committed
    {
      seam.committed.Some? ==> HeightBelow(chainHeight, maxDepth) <= seam.committed.value + 1
    }

    lemma StagedWidens(log: seq<Exchange>, from: nat, from': nat, chainHeight: Height, stages: Stages, after: View)
      requires from <= from' && Staged(log, from', chainHeight, stages, after)
      ensures Staged(log, from, chainHeight, stages, after)
      ensures TipIsHeaviest(after)
    {
      hide Followed, TipIsHeaviest, Trimmed, FloorRisesTo, Grows, Starts;
    }

    /** Where the window's floor lies after an advance: above the watermark only if
        it lay there before, or was newly anchored there. */
    lemma SeamAfter(before: View, log: seq<Exchange>, from: nat, chainHeight: Height, stages: Stages, after: View)
      requires Advanced(before, log, from, chainHeight, stages, after)
      ensures var behind := Tip(before).Height() < HeightBelow(chainHeight, maxDepth);
        && (!behind && Reaches(before) ==> Reaches(after))
        && (behind ==> (Reaches(after) <==> AnchorReaches(chainHeight)))
    {
      hide TipIsHeaviest, Trimmed, Keeps, Followed;
      FollowedGrows(log, from, stages.started, stages.followed, chainHeight);
    }

    /** What one event of a run did, at which question it began and on which tip. */
    ghost predicate Accounts(o: Outcome, e: Event) {
      match o
      case Ticked(n, held, published, reanchored) =>
        && e == TickEvent
        && (published ==> source.tipAnswer(n).Present? && source.tipAnswer(n).value != held)
        && (reanchored <==> published && FellBehind(n, held))
      case Confirmed(to) => e == ConfirmEvent(to)
    }

    /** The outcomes account for the events one by one, each tick asking anew. */
    ghost predicate Accounted(outcomes: seq<Outcome>, events: seq<Event>, asked: nat) {
      && |outcomes| == |events|
      && (forall i :: 0 <= i < |events| ==> Accounts(outcomes[i], events[i]))
      && (forall i :: 0 <= i < |events| && outcomes[i].Ticked? ==> outcomes[i].question < asked)
      && (forall i, j :: 0 <= i < j < |events| && outcomes[i].Ticked? && outcomes[j].Ticked? ==>
            outcomes[i].question < outcomes[j].question)
    }

    /** Any run of ticks and confirmations: one publication per publishing tick and
        no other, and while no tick re-anchors a window that reached the watermark
        still does. */
    method Run(events: seq<Event>) returns (ghost outcomes: seq<Outcome>)
      requires Valid()
      modifies this`current, this`updates, this`base, this`history, this`windows, source, seam
      ensures Valid()
      ensures Accounted(outcomes, events, |source.log|)
      ensures old(history) <= history && |history| == |old(history)| + Publications(outcomes)
      ensures !Reanchored(outcomes) && old(seam.committed.Some? && ReachesWatermark()) ==>
        seam.committed.Some? && ReachesWatermark()
    {
      hide Valid, Accounted, Publications, Reanchored, Reaches;
      outcomes := [];
      ghost var reached := seam.committed.Some? && ReachesWatermark();
      NothingAccounted(|source.log|);
      assert events[..0] == [];
      for i := 0 to |events|
        invariant Valid()
        invariant Accounted(outcomes, events[..i], |source.log|)
        invariant old(history) <= history && |history| == |old(history)| + Publications(outcomes)
        invariant !Reanchored(outcomes) && reached ==> seam.committed.Some? && ReachesWatermark()
      {
        ghost var asked := |source.log|;
        ghost var outcome := RunEvent(events[i]);
        AccountedGrows(outcomes, events[..i], asked, outcome, events[i], |source.log|);
        assert events[..i + 1] == events[..i] + [events[i]];
        outcomes := outcomes + [outcome];
      }
      assert events[..|events|] == events;
    }

    lemma NothingAccounted(asked: nat)
      ensures Accounted([], [], asked) && Publications([]) == 0 && !Reanchored([])
    {
    }

    lemma AccountedGrows(outcomes: seq<Outcome>, events: seq<Event>, asked: nat, outcome: Outcome, e: Event, asked': nat)
      requires Accounted(outcomes, events, asked) && Accounts(outcome, e) && asked <= asked'
      requires outcome.Ticked? ==> asked <= outcome.question < asked'
      ensures Accounted(outcomes + [outcome], events + [e], asked')
      ensures Publications(outcomes + [outcome]) ==
        Publications(outcomes) + if outcome.Ticked? && outcome.published then 1 else 0
      ensures Reanchored(outcomes + [outcome]) <==>
        Reanchored(outcomes) || (outcome.Ticked? && outcome.reanchored)
    {
      hide Accounts;
      var longer := outcomes + [outcome];
      assert longer[..|outcomes|] == outcomes && longer[|outcomes|] == outcome;
      assert forall i :: 0 <= i < |outcomes| ==> longer[i] == outcomes[i];
    }

    method RunEvent(e: Event) returns (ghost outcome: Outcome)
      requires Valid()
      modifies this`current, this`updates, this`base, this`history, this`windows, source, seam
      ensures Valid() && Accounts(outcome, e)
      ensures old(source.log) <= source.log
      ensures outcome.Ticked? ==>
        outcome.question == |old(source.log)| < |source.log| && outcome.held == old(current.BestTip())
      ensures old(history) <= history
      ensures |history| == |old(history)| + if outcome.Ticked? && outcome.published then 1 else 0
      ensures !(outcome.Ticked? && outcome.reanchored) && old(seam.committed.Some? && ReachesWatermark()) ==>
        seam.committed.Some? && ReachesWatermark()
    {
      hide Validator.Consistent, ValidWorld, Anchored, Represents, EpochHistory, TipIsHeaviest;
      source.WorldIsValid();
      match e {
        case TickEvent =>
          ghost var held, asked := current.BestTip(), |source.log|;
          var r;
          ghost var published, reanchored, stages;
          r, published, reanchored, stages := Tick([]);
          outcome := Ticked(asked, held, published, reanchored);
        case ConfirmEvent(to) =>
          if seam.released.Some? {
            var _ := seam.AdvanceWatermark(seam.released.value, to);
          }
          outcome := Confirmed(to);
      }
    }
  }

  datatype Outcome =
    | Ticked(question: nat, held: BlockRef, published: bool, reanchored: bool)
    | Confirmed(to: Height)

  ghost function Publications(outcomes: seq<Outcome>): nat
    decreases |outcomes|
  {
    if outcomes == [] then 0
    else
      var last := outcomes[|outcomes| - 1];
      Publications(outcomes[..|outcomes| - 1]) + if last.Ticked? && last.published then 1 else 0
  }

  ghost predicate Reanchored(outcomes: seq<Outcome>) {
    exists i :: 0 <= i < |outcomes| && outcomes[i].Ticked? && outcomes[i].reanchored
  }

  /** The window floor after a trim: the old floor or the trim floor, whichever is higher. */
  ghost predicate FloorRisesTo(before: View, trim: Height, after: View) {
    && |before.chain| > 0 && |after.chain| > 0
    && before.chain[0].Height() <= after.chain[0].Height()
    && (after.chain[0].Height() <= before.chain[0].Height() || after.chain[0].Height() <= trim)
  }

  lemma HeaviestAfterTrim(w: World, base: nat, graph: MapBackedSnapshot, floor: Height)
    requires graph.Valid() && Anchored(w, base, graph.Abs())
    ensures |graph.chain| > 0 && |Trimmed(graph.Abs(), floor).chain| > 0
    ensures TipIsHeaviest(graph.Abs()) ==> TipIsHeaviest(Trimmed(graph.Abs(), floor))
  {
    TrimKeepsInvariants(graph.Abs(), floor);
    if TipIsHeaviest(graph.Abs()) {
      TrimKeepsHeaviest(graph.Abs(), floor);
    }
  }

  lemma SteadyAnswersTip(source: Validator, best: seq<Block>, n: nat)
    requires source.Consistent() && source.Steady(best)
    ensures |best| > 0 && source.tipAnswer(n) == Present(BlockRef(best[|best| - 1].hash, |best| - 1))
  {
  }

  /** The stages of an advance. */
  datatype Stages = Stages(started: View, followed: View, trimmed: View)

  /** An advance starts from the previous graph, or from one block at the anchor
      height when the whole graph lies below it. */
  ghost predicate Starts(before: View, anchorHeight: Height, started: View)
    requires |before.chain| > 0
  {
    if Tip(before).Height() >= anchorHeight then started == before
    else |started.chain| == 1 && started.chain[0].Height() == anchorHeight
  }

  /** Since exchange `from`, the validator was followed up and its answer taken. */
  ghost predicate FollowedSince(log: seq<Exchange>, from: nat, started: View, after: View, chainHeight: Height) {
    |after.chain| > 0 &&
    exists start, middle, end, risen ::
      from <= start <= middle <= end <= |log| &&
      Followed(log[..end], start, middle, started, risen, after, chainHeight)
  }

  lemma FollowedLater(log: seq<Exchange>, from: nat, start: nat, middle: nat, end: nat, started: View, risen: View,
      after: View, chainHeight: Height)
    requires from <= start <= middle <= end <= |log|
    requires Followed(log[..end], start, middle, started, risen, after, chainHeight)
    ensures FollowedSince(log, from, started, after, chainHeight)
  {
    hide ValidatorsTip, Keeps;
  }

  lemma FollowedGrows(log: seq<Exchange>, from: nat, started: View, after: View, chainHeight: Height)
    requires FollowedSince(log, from, started, after, chainHeight)
    ensures Grows(started, after)
  {
    hide ValidatorsTip;
    var start, middle, end, risen :|
      from <= start <= middle <= end <= |log| &&
      Followed(log[..end], start, middle, started, risen, after, chainHeight);
    GrowsTransitive(started, risen, after);
  }
}
