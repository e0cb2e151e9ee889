/** A run in which a tick that re-anchors opens a gap above the durable tier. */
module SeamGap {
  import opened Wrappers
  import opened ChainWorld
  import opened ChainGraph
  import opened BlockSource
  import opened ReorgWalk
  import opened GraphAdvance
  import opened FinalitySeam
  import opened ChainHeadService

  const TOP: Height := 3

  function HashOf(n: Byte): (h: BlockHash)
    ensures h[0] == n
  {
    seq(32, _ => n)
  }

  /** A chain of blocks of work one, each named by its height plus one. */
  function BlockOf(h: Height): Block
    requires h <= TOP
  {
    Block(HashOf(h + 1), HashOf(h), h, 1, 0, [])
  }

  const Roots: TreeRoots := TreeRoots(None, None, None)

  predicate Named(k: BlockHash) {
    1 <= k[0] <= TOP + 1 && k == HashOf(k[0])
  }

  ghost function ShortWorld(): World {
    World(imap k: BlockHash | Named(k) :: BlockOf(k[0] - 1), imap k: BlockHash | Named(k) :: Roots)
  }

  /** What the world has at a height of the chain. */
  lemma ShortEntry(h: Height)
    requires h <= TOP
    ensures Named(HashOf(h + 1)) && InWorld(ShortWorld(), BlockOf(h)) && BlockOf(h).hash == HashOf(h + 1)
    ensures HashOf(h + 1) in ShortWorld().roots && ShortWorld().roots[HashOf(h + 1)] == Roots
  {
  }

  lemma ShortWorldIsValid()
    ensures ValidWorld(ShortWorld())
  {
    forall k: BlockHash | k in ShortWorld().blocks ensures ValidEntry(ShortWorld(), k) {
      assert k == HashOf(k[0]);
    }
  }

  lemma {:induction false} ShortWork(h: Height)
    requires h <= TOP && ValidWorld(ShortWorld())
    ensures HashOf(h + 1) in ShortWorld().blocks && Chainwork(ShortWorld(), HashOf(h + 1)) == h + 1
    decreases h
  {
    hide ShortWorld, HashOf, Named;
    ShortEntry(h);
    if h > 0 {
      ShortWork(h - 1);
    }
  }

  function TipReply(n: nat): Reply<BlockRef> {
    Present(BlockRef(HashOf(TOP + 1), TOP))
  }

  function HeightReply(n: nat, h: Height): Reply<Block> {
    if h <= TOP then Present(BlockOf(h)) else Absent
  }

  function HashReply(n: nat, k: BlockHash): Reply<Block> {
    if Named(k) then Present(BlockOf(k[0] - 1)) else Absent
  }

  function RootsReply(n: nat, k: BlockHash): Reply<TreeRoots> {
    if Named(k) then Present(Roots) else Absent
  }

  /** A validator that serves the chain and nothing else. */
  ghost predicate ServesShort(v: Validator) {
    && v.world == ShortWorld()
    && (forall n :: v.tipAnswer(n) == TipReply(n))
    && (forall n, h :: v.heightAnswer(n, h) == HeightReply(n, h))
    && (forall n, k :: v.hashAnswer(n, k) == HashReply(n, k))
    && (forall n, k :: v.rootsAnswer(n, k) == RootsReply(n, k))
  }

  lemma ShortIsConsistent(v: Validator)
    requires ServesShort(v)
    ensures v.Consistent()
  {
    hide HashOf, ServesShort, ShortWorld, BlockOf;
    OfShortWorld(v);
    ShortWorldIsValid();
    forall n, h | v.heightAnswer(n, h).Present?
      ensures InWorld(v.world, v.heightAnswer(n, h).value) && v.heightAnswer(n, h).value.height == h
    {
      HeightIsConsistent(v, n, h);
    }
    forall n, k | v.hashAnswer(n, k).Present?
      ensures InWorld(v.world, v.hashAnswer(n, k).value) && v.hashAnswer(n, k).value.hash == k
    {
      HashIsConsistent(v, n, k);
    }
    forall n, k | v.rootsAnswer(n, k).Present?
      ensures k in v.world.roots && v.rootsAnswer(n, k).value == v.world.roots[k]
    {
      HashIsConsistent(v, n, k);
    }
  }

  lemma HeightIsConsistent(v: Validator, n: nat, h: Height)
    requires ServesShort(v) && v.heightAnswer(n, h).Present?
    ensures InWorld(v.world, v.heightAnswer(n, h).value) && v.heightAnswer(n, h).value.height == h
  {
    hide HashOf, ShortWorld;
    assert v.heightAnswer(n, h) == HeightReply(n, h);
    ShortEntry(h);
  }

  lemma HashIsConsistent(v: Validator, n: nat, k: BlockHash)
    requires ServesShort(v)
    ensures v.hashAnswer(n, k).Present? ==>
      InWorld(v.world, v.hashAnswer(n, k).value) && v.hashAnswer(n, k).value.hash == k
    ensures v.rootsAnswer(n, k).Present? ==> k in v.world.roots && v.rootsAnswer(n, k).value == v.world.roots[k]
  {
    hide HashOf, ShortWorld;
    assert v.hashAnswer(n, k) == HashReply(n, k) && v.rootsAnswer(n, k) == RootsReply(n, k);
    if Named(k) {
      ShortEntry(k[0] - 1);
    }
  }

  ghost function ShortChain(): (best: seq<Block>)
    ensures |best| == TOP + 1 && forall h: Height :: h <= TOP ==> best[h] == BlockOf(h)
  {
    [BlockOf(0), BlockOf(1), BlockOf(2), BlockOf(3)]
  }

  lemma ShortAnswers(v: Validator, n: nat, h: Height)
    requires ServesShort(v) && h <= TOP
    ensures v.heightAnswer(n, h) == Present(BlockOf(h)) && v.rootsAnswer(n, BlockOf(h).hash).Present?
  {
    hide ShortWorld, HashOf;
    ShortEntry(h);
    assert v.heightAnswer(n, h) == HeightReply(n, h);
    assert v.rootsAnswer(n, HashOf(h + 1)) == RootsReply(n, HashOf(h + 1));
  }

  lemma ShortTip(v: Validator, n: nat)
    requires ServesShort(v)
    ensures v.tipAnswer(n) == Present(BlockRef(BlockOf(TOP).hash, TOP))
  {
    hide ShortWorld, HashOf;
    assert v.tipAnswer(n) == TipReply(n);
  }

  lemma ShortIsSteady(v: Validator)
    requires ServesShort(v) && v.Consistent()
    ensures v.Steady(ShortChain())
  {
    hide ShortWorld, ShortChain, Validator.Consistent, ServesShort, BlockOf;
    ShortWorldIsValid();
    ShortWork(TOP);
    ShortEntry(TOP);
    assert v.world == ShortWorld() by { OfShortWorld(v); }
    var best := ShortChain();
    forall n: nat, h: Height | h < |best|
      ensures v.heightAnswer(n, h) == Present(best[h]) && v.rootsAnswer(n, best[h].hash).Present?
    {
      ShortAnswers(v, n, h);
    }
    forall n: nat ensures v.tipAnswer(n) == Present(BlockRef(best[|best| - 1].hash, |best| - 1)) {
      ShortTip(v, n);
    }
    forall h: Height {:trigger best[h].prevHash} | 0 < h < |best| ensures best[h].prevHash == best[h - 1].hash {
      BlockLinks(h);
    }
  }

  lemma OfShortWorld(v: Validator)
    requires ServesShort(v)
    ensures v.world == ShortWorld()
  {
  }

  lemma BlockLinks(h: Height)
    requires 0 < h <= TOP
    ensures BlockOf(h).prevHash == BlockOf(h - 1).hash
  {
  }

  /** The window holds genesis and the durable tier has committed it. The validator
      is three heights on and the window covers one: the tick publishes the tip, and
      the heights between are in neither tier. */
  method SeamOpens() returns (ghost reached: bool, ghost published: bool, ghost reaches: bool)
    ensures reached && published && !reaches
  {
    hide Validator.Consistent, Validator.Steady, Validator.SteadyOn, ServesShort, ShortWorld, ShortChain,
      Service.Advanced, Excused, Service.Valid, HashOf;
    var service := ShortService();
    reached := service.ReachesWatermark();
    ShortIsSteady(service.source);
    ShortTip(service.source, 0);
    var r;
    ghost var reanchored, stages;
    r, published, reanchored, stages := service.Tick(ShortChain());
    reaches := service.ReachesWatermark();
  }

  /** A window of genesis alone, committed below it, before its first tick. */
  method ShortService() returns (service: Service)
    ensures fresh(service) && fresh(service.source) && fresh(service.seam) && service.Valid() && service.maxDepth == 1
    ensures ServesShort(service.source) && service.source.Consistent() && service.source.log == []
    ensures service.current.BestTip() == BlockRef(HashOf(1), 0)
    ensures service.seam.committed == Some(0) && service.ReachesWatermark()
  {
    hide Validator.Consistent, ServesShort, ShortWorld, HashOf;
    var validator := new Validator(ShortWorld(), TipReply, HeightReply, HashReply, RootsReply);
    Serves(validator);
    ShortIsConsistent(validator);
    var seam := new Seam(0, 0);
    var _ := seam.AdvanceHorizon(0, HashOf(1));
    var _ := seam.AdvanceWatermark(seam.released.value, 0);
    GenesisIsExact();
    service := new Service(validator, seam, 1, Genesis(), 0);
  }

  lemma Serves(v: Validator)
    requires v.world == ShortWorld() && v.tipAnswer == TipReply && v.heightAnswer == HeightReply
    requires v.hashAnswer == HashReply && v.rootsAnswer == RootsReply
    ensures ServesShort(v)
  {
  }

  function Genesis(): ChainHeadBlock {
    ChainHeadBlock(BlockRef(HashOf(1), 0), HashOf(0), 1, BlockOf(0), Roots)
  }

  lemma GenesisIsExact()
    ensures ValidWorld(ShortWorld()) && Exact(ShortWorld(), 0, Genesis())
  {
    hide ShortWorld, HashOf, Named;
    ShortWorldIsValid();
    ShortEntry(0);
    ShortWork(0);
  }
}
