/** Commitment treestates over the window: the blocks above the durable seed
    folded onto it. The per-block fold, the seed decoding and the rendering are
    parameters; what is proved holds for any of them. */
module WindowTreestate {
  import opened Wrappers
  import opened ChainWorld
  import opened ChainGraph

  datatype Treestate<P> = Treestate(blockHash: BlockHash, height: Height, time: nat, pools: P)

  datatype TreestateError = NotServiceable | Fatal

  /** How a treestate is computed: the empty value, one block's step, and the two
      directions between a value and what is served of it. */
  datatype Trees<!S, !P> = Trees(
    empty: S,
    step: (S, Block) -> Option<S>,
    render: (S, Height) -> P,
    decode: P -> Option<S>)

  /** The left fold of a value over blocks, failing where a step does. */
  function Fold<S, P>(trees: Trees<S, P>, s: S, blocks: seq<Block>): Option<S>
    decreases |blocks|
  {
    if blocks == [] then Some(s)
    else
      match Fold(trees, s, blocks[..|blocks| - 1])
      case None => None
      case Some(t) => trees.step(t, blocks[|blocks| - 1])
  }

  /** Folding a prefix and then the rest is folding the whole. */
  lemma {:induction false} FoldSplits<S, P>(trees: Trees<S, P>, s: S, a: seq<Block>, b: seq<Block>)
    requires Fold(trees, s, a).Some?
    ensures Fold(trees, s, a + b) == Fold(trees, Fold(trees, s, a).value, b)
    decreases |b|
  {
    if b == [] {
      assert a + b == a;
    } else {
      FoldSplits(trees, s, a, b[..|b| - 1]);
      assert (a + b)[..|a + b| - 1] == a + b[..|b| - 1];
    }
  }

  /** The first height folded: one past the seed, or genesis without one. */
  function SeamNext<P>(seed: Option<Treestate<P>>): nat {
    if seed.Some? then seed.value.height + 1 else 0
  }

  function SeedValue<S, P>(trees: Trees<S, P>, seed: Option<Treestate<P>>): Option<S> {
    if seed.Some? then trees.decode(seed.value.pools) else Some(trees.empty)
  }

  /** The blocks of a stretch of the best chain. */
  ghost function BlocksBetween(chain: seq<ChainHeadBlock>, low: nat, high: nat): (r: seq<Block>)
    requires |chain| > 0 && chain[0].Height() <= low <= high <= chain[0].Height() + |chain|
    ensures |r| == high - low
  {
    seq(high - low, i requires 0 <= i < high - low => chain[low - chain[0].Height() + i].block)
  }

  /** A set of heights is a stretch of them. */
  ghost predicate Stretch(heights: set<Height>, low: nat, high: nat) {
    high <= MAX_HEIGHT + 1 && forall h: Height :: h in heights <==> low <= h < high
  }

  lemma IndexIsAStretch(graph: MapBackedSnapshot)
    requires graph.Valid()
    ensures |graph.chain| > 0 && graph.tip.Height() == graph.chain[0].Height() + |graph.chain| - 1
    ensures Stretch(graph.heightsToHashes.Keys, graph.chain[0].Height(), graph.chain[0].Height() + |graph.chain|)
  {
    assert graph.tip.Height() == graph.chain[0].Height() + |graph.chain| - 1;
    forall h: Height
      ensures h in graph.heightsToHashes.Keys <==>
        graph.chain[0].Height() <= h < graph.chain[0].Height() + |graph.chain|
    {
      IndexLookup(graph.heightsToHashes, graph.chain, h);
    }
  }

  lemma StretchShrinks(heights: set<Height>, low: nat, high: nat, lowest: Height)
    requires Stretch(heights, low, high)
    requires lowest in heights && forall h :: h in heights ==> lowest <= h
    ensures lowest == low && Stretch(heights - {lowest}, low + 1, high)
  {
    var first: Height := low;
    assert first in heights;
  }

  lemma EmptyStretch(heights: set<Height>, low: nat, high: nat)
    requires Stretch(heights, low, high)
    ensures heights == {} ==> high <= low
  {
    if low < high {
      var first: Height := low;
      assert first in heights;
    }
  }

  /** The canonical blocks ascending, from a height index held in no order. */
  method BestChain(graph: MapBackedSnapshot) returns (blocks: seq<ChainHeadBlock>)
    requires graph.Valid()
    ensures blocks == graph.chain
  {
    hide Stretch, Represents;
    IndexIsAStretch(graph);
    ghost var floor, end := graph.chain[0].Height(), graph.chain[0].Height() + |graph.chain|;
    var heights := graph.heightsToHashes.Keys;
    blocks := [];
    while heights != {}
      invariant |blocks| <= |graph.chain| && blocks == graph.chain[..|blocks|]
      invariant Stretch(heights, floor + |blocks|, end)
      decreases heights
    {
      var lowest := Lowest(heights);
      StretchBounds(heights, floor + |blocks|, end, lowest);
      StretchShrinks(heights, floor + |blocks|, end, lowest);
      var block := graph.BestBlockByHeight(lowest);
      blocks := blocks + [block.value];
      heights := heights - {lowest};
    }
    EmptyStretch(heights, floor + |blocks|, end);
  }

  lemma StretchBounds(heights: set<Height>, low: nat, high: nat, h: Height)
    requires Stretch(heights, low, high) && h in heights
    ensures low <= h < high
  {
  }

  method Lowest(heights: set<Height>) returns (lowest: Height)
    requires heights != {}
    ensures lowest in heights && forall h :: h in heights ==> lowest <= h
  {
    lowest :| lowest in heights;
    var rest := heights - {lowest};
    while rest != {}
      invariant rest <= heights && lowest in heights
      invariant forall h :: h in heights && h !in rest ==> lowest <= h
      decreases rest
    {
      var h :| h in rest;
      if h < lowest {
        lowest := h;
      }
      rest := rest - {h};
    }
  }

  method FoldWindow<S, P>(trees: Trees<S, P>, seed: S, blocks: seq<Block>) returns (carry: Option<S>)
    ensures carry == Fold(trees, seed, blocks)
  {
    carry := Some(seed);
    for i := 0 to |blocks|
      invariant carry == Fold(trees, seed, blocks[..i])
    {
      assert blocks[..i + 1][..i] == blocks[..i];
      carry := if carry.Some? then trees.step(carry.value, blocks[i]) else None;
    }
    assert blocks[..|blocks|] == blocks;
  }

  /** The blocks from the seam to `at`, when the window holds them all. */
  method CollectFromSeam(blocks: seq<ChainHeadBlock>, seam: nat, at: Height)
    returns (ctxs: Option<seq<Block>>, expected: nat, identity: Option<(BlockHash, nat)>)
    requires |blocks| > 0 && Gapless(blocks)
    requires at < blocks[0].Height() + |blocks|
    ensures ctxs.None? <==> seam < blocks[0].Height() <= at
    ensures ctxs.Some? && blocks[0].Height() <= seam <= at ==>
      && ctxs.value == BlocksBetween(blocks, seam, at + 1)
      && expected == at + 1
      && var b := blocks[at - blocks[0].Height()]; identity == Some((b.Hash(), b.block.time))
    ensures ctxs.Some? && at < seam ==> expected == seam && identity == None
    ensures ctxs.Some? && seam < blocks[0].Height() ==> expected == seam
  {
    ghost var floor := blocks[0].Height();
    var collected := [];
    expected := seam;
    identity := None;
    var i := 0;
    while i < |blocks|
      invariant 0 <= i <= |blocks|
      invariant floor + i <= seam ==> collected == [] && expected == seam && identity == None
      invariant floor + i > seam && i > 0 ==>
        floor <= seam && expected == floor + i <= at + 1 && collected == BlocksBetween(blocks, seam, floor + i)
      invariant i == 0 ==> collected == [] && expected == seam && identity == None
      invariant identity.Some? <==> seam <= at < expected
      invariant identity.Some? ==>
        var b := blocks[at - floor]; identity.value == (b.Hash(), b.block.time)
    {
      var block := blocks[i];
      assert block.Height() == floor + i;
      var height := block.Height();
      if height < seam {
        i := i + 1;
        continue;
      }
      if height > at {
        break;
      }
      if height != expected {
        return None, expected, identity;
      }
      collected := collected + [block.block];
      if height == at {
        identity := Some((block.Hash(), block.block.time));
      }
      expected := expected + 1;
      i := i + 1;
    }
    ctxs := Some(collected);
  }

  /** The window reaches down to the seam, and the height asked for is above the seed. */
  ghost predicate ReachesSeam<P>(chain: seq<ChainHeadBlock>, seed: Option<Treestate<P>>, at: Height)
    requires |chain| > 0
  {
    chain[0].Height() <= SeamNext(seed) <= at
  }

  /** The treestate at a height the window reaches: its block's identity, and the
      seed folded over every block from the seam to it. */
  ghost function Answer<S, P>(trees: Trees<S, P>, chain: seq<ChainHeadBlock>, seed: Option<Treestate<P>>, at: Height)
    : Result<Option<Treestate<P>>, TreestateError>
    requires |chain| > 0 && at < chain[0].Height() + |chain| && ReachesSeam(chain, seed, at)
  {
    var b := chain[at - chain[0].Height()];
    match SeedValue(trees, seed)
    case None => Err(Fatal)
    case Some(s) =>
      match Fold(trees, s, BlocksBetween(chain, SeamNext(seed), at + 1))
      case None => Err(Fatal)
      case Some(t) => Ok(Some(Treestate(b.Hash(), at, b.block.time, trees.render(t, at))))
  }

  lemma ValidChain(graph: MapBackedSnapshot)
    requires graph.Valid()
    ensures |graph.chain| > 0 && Gapless(graph.chain)
    ensures graph.tip.Height() == graph.chain[0].Height() + |graph.chain| - 1
  {
  }

  /** A height above the tip is a miss. Within it, the answer is the fold from the
      seam when the window reaches there; a gap is not serviceable, and the seed's
      own height, which the window does not fold, is fatal. */
  method WindowTreestateAt<S, P>(graph: MapBackedSnapshot, trees: Trees<S, P>, seed: Option<Treestate<P>>, at: Height)
    returns (r: Result<Option<Treestate<P>>, TreestateError>)
    requires graph.Valid()
    ensures at > graph.tip.Height() ==> r == Ok(None)
    ensures at <= graph.tip.Height() && ReachesSeam(graph.chain, seed, at) ==> r == Answer(trees, graph.chain, seed, at)
    ensures at <= graph.tip.Height() && !ReachesSeam(graph.chain, seed, at) ==>
      r == Err(if at + 1 == SeamNext(seed) then Fatal else NotServiceable)
  {
    hide Represents, Gapless, Fold, BlocksBetween;
    ValidChain(graph);
    if at > graph.tip.Height() {
      return Ok(None);
    }
    var seam := SeamNext(seed);
    var blocks := BestChain(graph);
    var ctxs, expected, identity := CollectFromSeam(blocks, seam, at);
    if ctxs.None? {
      return Err(NotServiceable);
    }
    if expected != at + 1 {
      return Err(NotServiceable);
    }
    if identity.None? {
      return Err(Fatal);
    }
    var start := SeedValue(trees, seed);
    if start.None? {
      return Err(Fatal);
    }
    var folded := FoldWindow(trees, start.value, ctxs.value);
    if folded.None? {
      return Err(Fatal);
    }
    return Ok(Some(Treestate(identity.value.0, at, identity.value.1, trees.render(folded.value, at))));
  }

  /** The seam does not show: wherever the seed was taken and wherever the window
      begins, a seed that decodes to the fold of the chain up to it yields the fold
      of the whole chain from genesis. */
  lemma SeamIndependent<S, P>(trees: Trees<S, P>, whole: seq<Block>, chain: seq<ChainHeadBlock>,
      seed: Option<Treestate<P>>, at: Height)
    requires |chain| > 0 && at < chain[0].Height() + |chain| == |whole| && ReachesSeam(chain, seed, at)
    requires forall i :: 0 <= i < |chain| ==> chain[i].block == whole[chain[0].Height() + i]
    requires SeedValue(trees, seed) == Fold(trees, trees.empty, whole[..SeamNext(seed)])
    requires SeedValue(trees, seed).Some?
    ensures var b := chain[at - chain[0].Height()];
      Answer(trees, chain, seed, at) ==
        match Fold(trees, trees.empty, whole[..at + 1])
        case None => Err(Fatal)
        case Some(t) => Ok(Some(Treestate(b.Hash(), at, b.block.time, trees.render(t, at))))
  {
    var seam := SeamNext(seed);
    assert BlocksBetween(chain, seam, at + 1) == whole[seam..at + 1];
    assert whole[..seam] + whole[seam..at + 1] == whole[..at + 1];
    FoldSplits(trees, trees.empty, whole[..seam], whole[seam..at + 1]);
  }

  /** Seeding from what another window served is the same as folding from genesis:
      with a decoding that inverts the rendering, the seam may move any way it likes. */
  lemma SeedingFromServed<S, P>(trees: Trees<S, P>, whole: seq<Block>, first: seq<ChainHeadBlock>,
      seed: Option<Treestate<P>>,
                                served: Treestate<P>, second: seq<ChainHeadBlock>, at: Height)
    requires forall s, h :: trees.decode(trees.render(s, h)) == Some(s)
    requires |first| > 0 && served.height < first[0].Height() + |first| == |whole|
    requires ReachesSeam(first, seed, served.height)
    requires forall i :: 0 <= i < |first| ==> first[i].block == whole[first[0].Height() + i]
    requires SeedValue(trees, seed) == Fold(trees, trees.empty, whole[..SeamNext(seed)])
    requires Answer(trees, first, seed, served.height) == Ok(Some(served))
    requires |second| > 0 && at < second[0].Height() + |second| == |whole|
    requires ReachesSeam(second, Some(served), at)
    requires forall i :: 0 <= i < |second| ==> second[i].block == whole[second[0].Height() + i]
    ensures var b := second[at - second[0].Height()];
      Answer(trees, second, Some(served), at) ==
        match Fold(trees, trees.empty, whole[..at + 1])
        case None => Err(Fatal)
        case Some(t) => Ok(Some(Treestate(b.Hash(), at, b.block.time, trees.render(t, at))))
  {
    SeamIndependent(trees, whole, first, seed, served.height);
    SeamIndependent(trees, whole, second, Some(served), at);
  }
}
