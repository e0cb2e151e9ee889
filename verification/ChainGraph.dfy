/** The retained block graph and the three moves that change it.

    The map-backed graph refines a pair: the best chain, as a sequence from the
    window floor to the tip, and the set of retained blocks. `extend` appends,
    `rewind_to` takes a prefix and `remove_finalised_blocks` drops a prefix. */
module ChainGraph {
  import opened Wrappers
  import opened ChainWorld

  /** What the graph stands for, independent of how it is stored. */
  datatype View = View(chain: seq<ChainHeadBlock>, retained: map<BlockHash, ChainHeadBlock>)

  /** Heights run without gaps and each block's parent is the one below it. */
  ghost predicate Gapless(chain: seq<ChainHeadBlock>) {
    && (forall i :: 0 <= i < |chain| ==> chain[i].Height() == chain[0].Height() + i)
    && (forall i {:trigger chain[i].parentHash} :: 0 < i < |chain| ==>
          chain[i].parentHash == chain[i - 1].Hash())
  }

  /** The contract's invariants: never empty, every canonical block retained,
      canonical heights gapless and parent-linked. */
  ghost predicate WellFormed(v: View) {
    && |v.chain| > 0
    && Gapless(v.chain)
    && (forall i :: 0 <= i < |v.chain| ==>
          v.chain[i].Hash() in v.retained && v.retained[v.chain[i].Hash()] == v.chain[i])
    && (forall h :: h in v.retained ==> v.retained[h].Hash() == h)
  }

  ghost function Tip(v: View): ChainHeadBlock
    requires |v.chain| > 0
  {
    v.chain[|v.chain| - 1]
  }

  ghost predicate ExtendsTip(v: View, b: ChainHeadBlock)
    requires |v.chain| > 0
  {
    b.parentHash == Tip(v).Hash() && b.Height() == Tip(v).Height() + 1
  }

  ghost predicate Canonical(v: View, r: BlockRef) {
    exists i :: 0 <= i < |v.chain| && v.chain[i].reference == r
  }

  ghost predicate HashIsCanonical(v: View, h: BlockHash) {
    exists i :: 0 <= i < |v.chain| && v.chain[i].Hash() == h
  }

  // ---- the moves on views

  ghost function Extended(v: View, b: ChainHeadBlock): View
    requires |v.chain| > 0
  {
    if ExtendsTip(v, b) then View(v.chain + [b], v.retained[b.Hash() := b]) else v
  }

  /** The canonical blocks at or below a height. */
  ghost function UpTo(chain: seq<ChainHeadBlock>, height: Height): seq<ChainHeadBlock>
    requires |chain| > 0 && chain[0].Height() <= height < chain[0].Height() + |chain|
  {
    chain[..height - chain[0].Height() + 1]
  }

  ghost function Rewound(v: View, r: BlockRef): View
    requires WellFormed(v)
  {
    if Canonical(v, r) then View(UpTo(v.chain, r.height), v.retained) else v
  }

  /** The canonical blocks at or above the floor, and the tip regardless. */
  ghost function From(chain: seq<ChainHeadBlock>, floor: Height): seq<ChainHeadBlock>
    requires |chain| > 0
  {
    if floor <= chain[0].Height() then chain
    else if floor < chain[0].Height() + |chain| then chain[floor - chain[0].Height()..]
    else chain[|chain| - 1..]
  }

  ghost function RetainedFrom(retained: map<BlockHash, ChainHeadBlock>, floor: Height, tip: BlockHash)
    : map<BlockHash, ChainHeadBlock>
  {
    map h | h in retained && (retained[h].Height() >= floor || h == tip) :: retained[h]
  }

  ghost function Trimmed(v: View, floor: Height): View
    requires |v.chain| > 0
  {
    View(From(v.chain, floor), RetainedFrom(v.retained, floor, Tip(v).Hash()))
  }

  /** The height index of a chain, as the map the graph stores. */
  ghost predicate Indexes(index: map<Height, BlockHash>, chain: seq<ChainHeadBlock>)
    requires |chain| > 0
  {
    && (forall h :: h in index ==> chain[0].Height() <= h < chain[0].Height() + |chain|)
    && (forall i :: 0 <= i < |chain| ==>
          chain[i].Height() in index && index[chain[i].Height()] == chain[i].Hash())
  }

  /** Extending keeps every invariant exactly when the block's hash is not
      already the hash of a canonical block: a second block under a canonical
      hash would evict the first from the retained map. */
  lemma ExtendKeepsInvariants(v: View, b: ChainHeadBlock)
    requires WellFormed(v) && ExtendsTip(v, b)
    ensures WellFormed(Extended(v, b)) <==> !HashIsCanonical(v, b.Hash())
  {
    var w := Extended(v, b);
    var n := |v.chain|;
    if HashIsCanonical(v, b.Hash()) {
      var i :| 0 <= i < n && v.chain[i].Hash() == b.Hash();
      assert w.chain[i] == v.chain[i] && w.retained[w.chain[i].Hash()] == b;
      assert v.chain[i].Height() == v.chain[0].Height() + i;
    } else {
      forall i | 0 <= i < |w.chain|
        ensures w.chain[i].Hash() in w.retained && w.retained[w.chain[i].Hash()] == w.chain[i]
        ensures w.chain[i].Height() == w.chain[0].Height() + i
      {
        if i < n {
          assert w.chain[i] == v.chain[i];
        }
      }
    }
  }

  /** A block that extends the tip and names itself by the tip's own hash. */
  lemma ExtendCanEvict()
    ensures exists v, b :: WellFormed(v) && ExtendsTip(v, b) && !WellFormed(Extended(v, b))
  {
    var hash := seq(32, _ => 7);
    var block := Block(hash, hash, 1, 1, 0, []);
    var roots := TreeRoots(None, None, None);
    var tip := ChainHeadBlock(BlockRef(hash, 0), hash, 0, block, roots);
    var next := ChainHeadBlock(BlockRef(hash, 1), hash, 1, block, roots);
    var v := View([tip], map[hash := tip]);
    assert v.chain[0].Hash() == next.Hash();
    ExtendKeepsInvariants(v, next);
  }

  /** A rewind keeps the invariants, the tip it names and every retained block. */
  lemma RewindKeepsInvariants(v: View, r: BlockRef)
    requires WellFormed(v) && Canonical(v, r)
    ensures WellFormed(Rewound(v, r)) && Tip(Rewound(v, r)).reference == r
  {
  }

  lemma SuffixIsGapless(chain: seq<ChainHeadBlock>, d: nat)
    requires Gapless(chain) && d < |chain|
    ensures Gapless(chain[d..])
  {
  }

  /** What survives a trim is a suffix: everything at or above the floor. */
  lemma FromIsSuffix(chain: seq<ChainHeadBlock>, floor: Height) returns (d: nat)
    requires |chain| > 0
    ensures d < |chain| && From(chain, floor) == chain[d..]
    ensures d > 0 ==> chain[0].Height() + d <= floor
    ensures d < |chain| - 1 ==> floor <= chain[0].Height() + d
  {
    d := if floor <= chain[0].Height() then 0
         else if floor < chain[0].Height() + |chain| then floor - chain[0].Height()
         else |chain| - 1;
  }

  /** A trim keeps the invariants and the tip. */
  lemma TrimKeepsInvariants(v: View, floor: Height)
    requires WellFormed(v)
    ensures WellFormed(Trimmed(v, floor)) && Tip(Trimmed(v, floor)) == Tip(v)
  {
    hide Gapless, From;
    var t := Trimmed(v, floor);
    var d := FromIsSuffix(v.chain, floor);
    SuffixIsGapless(v.chain, d);
    forall i | 0 <= i < |t.chain|
      ensures t.chain[i].Hash() in t.retained && t.retained[t.chain[i].Hash()] == t.chain[i]
    {
      SurvivorIsRetained(v, floor, d, i + d);
    }
  }

  lemma SurvivorIsRetained(v: View, floor: Height, d: nat, i: nat)
    requires WellFormed(v) && d <= i < |v.chain|
    requires d < |v.chain| - 1 ==> floor <= v.chain[0].Height() + d
    ensures v.chain[i].Hash() in Trimmed(v, floor).retained
    ensures Trimmed(v, floor).retained[v.chain[i].Hash()] == v.chain[i]
  {
    hide Gapless, From;
    HeightAt(v.chain, i);
    var b := v.chain[i];
    assert v.retained[b.Hash()] == b;
    assert b.Height() >= floor || b.Hash() == Tip(v).Hash();
  }

  lemma HeightAt(chain: seq<ChainHeadBlock>, i: nat)
    requires Gapless(chain) && i < |chain|
    ensures chain[i].Height() == chain[0].Height() + i
  {
  }

  function IndexUpTo(index: map<Height, BlockHash>, height: Height): map<Height, BlockHash> {
    map h | h in index && h <= height :: index[h]
  }

  function IndexFrom(index: map<Height, BlockHash>, floor: Height, tip: BlockHash): map<Height, BlockHash> {
    map h | h in index && (h >= floor || index[h] == tip) :: index[h]
  }

  function OthersFrom(others: map<BlockHash, ChainHeadBlock>, floor: Height): map<BlockHash, ChainHeadBlock> {
    map h | h in others && others[h].Height() >= floor :: others[h]
  }

  lemma IndexesExtended(index: map<Height, BlockHash>, chain: seq<ChainHeadBlock>, b: ChainHeadBlock)
    requires |chain| > 0 && Gapless(chain) && Indexes(index, chain)
    requires b.Height() == chain[|chain| - 1].Height() + 1
    ensures Indexes(index[b.Height() := b.Hash()], chain + [b])
  {
  }

  lemma IndexesRewound(index: map<Height, BlockHash>, chain: seq<ChainHeadBlock>, height: Height)
    requires |chain| > 0 && Gapless(chain) && Indexes(index, chain)
    requires chain[0].Height() <= height < chain[0].Height() + |chain|
    ensures Indexes(IndexUpTo(index, height), UpTo(chain, height))
  {
  }

  /** Keeping the heights at or above the floor, and whatever height names the
      tip's hash, indexes exactly what survives the trim. */
  lemma IndexesTrimmed(index: map<Height, BlockHash>, v: View, floor: Height)
    requires WellFormed(v) && Indexes(index, v.chain)
    ensures Indexes(IndexFrom(index, floor, Tip(v).Hash()), From(v.chain, floor))
  {
    OnlyTheTipHasItsHash(v);
    var d := FromIsSuffix(v.chain, floor);
    var c := v.chain;
    var kept := IndexFrom(index, floor, Tip(v).Hash());
    forall h | h in kept
      ensures c[d].Height() <= h < c[d].Height() + |c| - d
    {
      assert c[h - c[0].Height()].Height() == h;
    }
    forall i | 0 <= i < |c[d..]|
      ensures c[d..][i].Height() in kept && kept[c[d..][i].Height()] == c[d..][i].Hash()
    {
      assert c[d..][i] == c[i + d];
    }
  }

  lemma OnlyTheTipHasItsHash(v: View)
    requires WellFormed(v)
    ensures forall i :: 0 <= i < |v.chain| && v.chain[i].Hash() == Tip(v).Hash() ==> i == |v.chain| - 1
  {
  }

  /** How the three stored parts stand for a chain and a retained set. */
  ghost predicate Represents(
    tip: ChainHeadBlock, others: map<BlockHash, ChainHeadBlock>, index: map<Height, BlockHash>, v: View)
  {
    && WellFormed(v)
    && tip == Tip(v)
    && tip.Hash() !in others
    && v.retained == others[tip.Hash() := tip]
    && Indexes(index, v.chain)
  }

  /** `others` after `block` becomes the tip and the old tip is demoted. */
  function Demoted(others: map<BlockHash, ChainHeadBlock>, oldTip: ChainHeadBlock, block: ChainHeadBlock)
    : map<BlockHash, ChainHeadBlock>
  {
    var rest := others - {block.Hash()};
    if oldTip.Hash() != block.Hash() then rest[oldTip.Hash() := oldTip] else rest
  }

  lemma DemotedRetains(tip: ChainHeadBlock, others: map<BlockHash, ChainHeadBlock>, b: ChainHeadBlock)
    ensures Demoted(others, tip, b)[b.Hash() := b] == others[tip.Hash() := tip][b.Hash() := b]
  {
  }

  lemma ExtendRefines(
    tip: ChainHeadBlock, others: map<BlockHash, ChainHeadBlock>, index: map<Height, BlockHash>, v: View,
    b: ChainHeadBlock)
    requires Represents(tip, others, index, v)
    requires ExtendsTip(v, b) && !HashIsCanonical(v, b.Hash())
    ensures Represents(b, Demoted(others, tip, b), index[b.Height() := b.Hash()], Extended(v, b))
  {
    ExtendKeepsInvariants(v, b);
    IndexesExtended(index, v.chain, b);
    assert v.chain[|v.chain| - 1].Hash() == tip.Hash();
    assert Extended(v, b).retained == Demoted(others, tip, b)[b.Hash() := b];
  }

  lemma RewindRefines(
    tip: ChainHeadBlock, others: map<BlockHash, ChainHeadBlock>, index: map<Height, BlockHash>, v: View,
    r: BlockRef)
    requires Represents(tip, others, index, v)
    requires Canonical(v, r) && r != tip.reference
    ensures r.hash in others
    ensures Represents(others[r.hash], Demoted(others, tip, others[r.hash]),
                       IndexUpTo(index, r.height), Rewound(v, r))
  {
    RewindKeepsInvariants(v, r);
    IndexesRewound(index, v.chain, r.height);
    var i :| 0 <= i < |v.chain| && v.chain[i].reference == r;
    assert v.retained[r.hash] == v.chain[i];
    var newTip := others[r.hash];
    assert Demoted(others, tip, newTip)[newTip.Hash() := newTip] == v.retained;
  }

  lemma TrimRefines(
    tip: ChainHeadBlock, others: map<BlockHash, ChainHeadBlock>, index: map<Height, BlockHash>, v: View,
    floor: Height)
    requires Represents(tip, others, index, v)
    ensures Represents(tip, OthersFrom(others, floor), IndexFrom(index, floor, tip.Hash()),
                       Trimmed(v, floor))
  {
    TrimKeepsInvariants(v, floor);
    IndexesTrimmed(index, v, floor);
    assert Trimmed(v, floor).retained == OthersFrom(others, floor)[tip.Hash() := tip];
  }

  /** A height is indexed exactly when it is canonical, and names that block. */
  lemma IndexLookup(index: map<Height, BlockHash>, chain: seq<ChainHeadBlock>, height: Height)
    requires |chain| > 0 && Gapless(chain) && Indexes(index, chain)
    ensures height in index <==> chain[0].Height() <= height < chain[0].Height() + |chain|
    ensures height in index ==>
      chain[height - chain[0].Height()].reference == BlockRef(index[height], height)
  {
    var low := chain[0].Height();
    if low <= height < low + |chain| {
      var b := chain[height - low];
      assert b.Height() == height;
      assert b.reference == BlockRef(b.Hash(), b.Height());
    }
  }

  /** Looking a height up: the index has it within the chain, under the hash of the
      block there, which is the tip or among the others. */
  lemma HeightLookup(tip: ChainHeadBlock, others: map<BlockHash, ChainHeadBlock>, index: map<Height, BlockHash>, v: View,
      height: Height)
    requires Represents(tip, others, index, v)
    ensures |v.chain| > 0 && Gapless(v.chain) && Indexes(index, v.chain)
    ensures tip.Height() == v.chain[0].Height() + |v.chain| - 1
    ensures height in index <==> v.chain[0].Height() <= height <= tip.Height()
    ensures height in index ==>
      && height - v.chain[0].Height() < |v.chain|
      && (var b := v.chain[height - v.chain[0].Height()];
          && index[height] == b.Hash() && b.Hash() in v.retained && v.retained[b.Hash()] == b)
  {
    hide Gapless, Indexes;
    HeightAt(v.chain, |v.chain| - 1);
    IndexLookup(index, v.chain, height);
  }

  /** A reference is indexed, hash and height, exactly when it is canonical. */
  lemma ReferenceLookup(tip: ChainHeadBlock, others: map<BlockHash, ChainHeadBlock>, index: map<Height, BlockHash>,
      v: View, r: BlockRef)
    requires Represents(tip, others, index, v)
    ensures r.height in index && index[r.height] == r.hash <==> Canonical(v, r)
    ensures Canonical(v, r) ==>
      && |v.chain| > 0 && v.chain[0].Height() <= r.height <= tip.Height()
      && r.height - v.chain[0].Height() < |v.chain| && v.chain[r.height - v.chain[0].Height()].reference == r
  {
    hide Gapless, Indexes, Represents;
    HeightLookup(tip, others, index, v, r.height);
    if r.height in index && index[r.height] == r.hash {
      HeightAt(v.chain, r.height - v.chain[0].Height());
      assert v.chain[r.height - v.chain[0].Height()].reference == r;
    }
    forall i | 0 <= i < |v.chain| && v.chain[i].reference == r
      ensures i == r.height - v.chain[0].Height() && r.height in index && index[r.height] == r.hash
    {
      HeightAt(v.chain, i);
    }
  }

  class MapBackedSnapshot {
    /** The tip of the best chain, which `others` never holds as well. */
    var tip: ChainHeadBlock
    /** Every other retained block, canonical and competing alike. */
    var others: map<BlockHash, ChainHeadBlock>
    /** Which retained block is canonical at each height. */
    var heightsToHashes: map<Height, BlockHash>
    var generation: nat
    /** The best chain the maps stand for. */
    ghost var chain: seq<ChainHeadBlock>

    ghost function Retained(): map<BlockHash, ChainHeadBlock>
      reads this`tip, this`others
    {
      others[tip.Hash() := tip]
    }

    ghost function Abs(): View
      reads this`tip, this`others, this`chain
    {
      View(chain, Retained())
    }

    ghost predicate Valid()
      reads this`tip, this`others, this`heightsToHashes, this`chain
    {
      Represents(tip, others, heightsToHashes, Abs())
    }

    constructor FromInitialBlock(block: ChainHeadBlock)
      ensures Valid()
      ensures tip == block && chain == [block] && Retained() == map[block.Hash() := block] && generation == 0
    {
      tip := block;
      others := map[];
      heightsToHashes := map[block.Height() := block.Hash()];
      generation := 0;
      chain := [block];
    }

    constructor CloneOf(other: MapBackedSnapshot)
      requires other.Valid()
      ensures Valid() && Abs() == other.Abs() && generation == other.generation
      ensures tip == other.tip
    {
      tip := other.tip;
      others := other.others;
      heightsToHashes := other.heightsToHashes;
      generation := other.generation;
      chain := other.chain;
    }

    // ---- reads

    function BestTip(): BlockRef
      reads this`tip
    {
      tip.reference
    }

    /** The block with this hash, canonical or competing. */
    function BlockByHash(hash: BlockHash): (r: Option<ChainHeadBlock>)
      reads this
      ensures r == if hash in Retained() then Some(Retained()[hash]) else None
    {
      if tip.Hash() == hash then Some(tip)
      else if hash in others then Some(others[hash])
      else None
    }

    /** The canonical block at this height: an entry of the best chain or nothing. */
    function BestBlockByHeight(height: Height): (r: Option<ChainHeadBlock>)
      requires Valid()
      reads this
      ensures |chain| > 0 && (r.Some? <==> chain[0].Height() <= height <= tip.Height())
      ensures r.Some? ==> height - chain[0].Height() < |chain| && r.value == chain[height - chain[0].Height()]
    {
      HeightLookup(tip, others, heightsToHashes, Abs(), height);
      if height in heightsToHashes then BlockByHash(heightsToHashes[height]) else None
    }

    /** Whether the reference names a canonical block, both halves mattering. */
    predicate IsOnBestChain(block: BlockRef)
      requires Valid()
      reads this
      ensures IsOnBestChain(block) ==>
        && |chain| > 0 && chain[0].Height() <= block.height <= tip.Height()
        && block.height - chain[0].Height() < |chain| && chain[block.height - chain[0].Height()].reference == block
      ensures IsOnBestChain(block) <==> Canonical(Abs(), block)
    {
      ReferenceLookup(tip, others, heightsToHashes, Abs(), block);
      block.height in heightsToHashes && heightsToHashes[block.height] == block.hash
    }

    /** The retained block with the most accumulated work; the tip wins a tie. */
    method HeaviestBlock() returns (heaviest: ChainHeadBlock)
      requires Valid()
      ensures heaviest.Hash() in Retained() && Retained()[heaviest.Hash()] == heaviest
      ensures forall h :: h in Retained() ==> Retained()[h].work <= heaviest.work
      ensures heaviest.work == tip.work ==> heaviest == tip
    {
      heaviest := tip;
      var pending := others.Keys;
      while pending != {}
        invariant pending <= others.Keys
        invariant heaviest == tip ||
          (heaviest.Hash() in others && others[heaviest.Hash()] == heaviest && heaviest.work > tip.work)
        invariant forall h :: h in others && h !in pending ==> others[h].work <= heaviest.work
        invariant tip.work <= heaviest.work
        decreases pending
      {
        var hash :| hash in pending;
        assert hash in Retained() && Retained()[hash].Hash() == hash;
        if others[hash].work > heaviest.work {
          heaviest := others[hash];
        }
        pending := pending - {hash};
      }
    }

    // ---- moves

    /** Puts a block in the tip's place and moves the old tip among the others. */
    method ReplaceTip(block: ChainHeadBlock)
      modifies this`tip, this`others
      ensures tip == block && others == Demoted(old(others), old(tip), block)
    {
      others := others - {block.Hash()};
      var oldTip := tip;
      tip := block;
      if oldTip.Hash() != tip.Hash() {
        others := others[oldTip.Hash() := oldTip];
      }
    }

    /** Appends a block as the new tip: refused, changing nothing, unless it names
        the tip as its parent and sits one height above it. Every block is taken that
        does; the invariants survive it exactly when its hash is not canonical yet. */
    method Extend(block: ChainHeadBlock) returns (accepted: bool)
      requires Valid()
      modifies this`tip, this`others, this`heightsToHashes, this`chain
      ensures Valid() <==> !(accepted && old(HashIsCanonical(Abs(), block.Hash())))
      ensures accepted <==> old(ExtendsTip(Abs(), block))
      ensures Abs() == Extended(old(Abs()), block)
      ensures !accepted ==>
        tip == old(tip) && others == old(others) && heightsToHashes == old(heightsToHashes)
      ensures accepted ==>
        && tip == block && others == Demoted(old(others), old(tip), block)
        && heightsToHashes == old(heightsToHashes)[block.Height() := block.Hash()]
    {
      hide WellFormed, HashIsCanonical, Indexes;
      accepted := block.parentHash == tip.Hash() && tip.Height() < MAX_HEIGHT
                  && tip.Height() + 1 == block.Height();
      if !accepted {
        return;
      }
      ExtendKeepsInvariants(Abs(), block);
      if !HashIsCanonical(Abs(), block.Hash()) {
        ExtendRefines(tip, others, heightsToHashes, Abs(), block);
      }
      DemotedRetains(tip, others, block);
      heightsToHashes := heightsToHashes[block.Height() := block.Hash()];
      ReplaceTip(block);
      chain := chain + [block];
    }

    /** Makes a canonical block the tip; the blocks above stay retained. Refused,
        changing nothing, when the reference is not canonical. */
    method RewindTo(block: BlockRef) returns (accepted: bool)
      requires Valid()
      modifies this`tip, this`others, this`heightsToHashes, this`chain
      ensures Valid()
      ensures accepted <==> old(Canonical(Abs(), block))
      ensures Abs() == Rewound(old(Abs()), block)
      ensures accepted ==> tip.reference == block
      ensures !accepted || old(tip.reference) == block ==>
        tip == old(tip) && others == old(others) && heightsToHashes == old(heightsToHashes)
    {
      if block == tip.reference {
        assert chain[|chain| - 1].reference == block;
        assert UpTo(chain, block.height) == chain;
        return true;
      }
      if !IsOnBestChain(block) {
        return false;
      }
      RewindRefines(tip, others, heightsToHashes, Abs(), block);
      if block.hash !in others {
        return false;
      }
      var newTip := others[block.hash];
      RewindKeepsInvariants(Abs(), block);
      heightsToHashes := IndexUpTo(heightsToHashes, block.height);
      ReplaceTip(newTip);
      chain := UpTo(chain, block.height);
      return true;
    }

    /** Drops retained blocks below the floor, keeping the tip regardless. */
    method RemoveFinalisedBlocks(floor: Height)
      requires Valid()
      modifies this`others, this`heightsToHashes, this`chain
      ensures Valid()
      ensures Abs() == Trimmed(old(Abs()), floor)
      ensures tip == old(tip)
    {
      ghost var trimmed := Trimmed(Abs(), floor);
      TrimRefines(tip, others, heightsToHashes, Abs(), floor);
      var tipHash := tip.Hash();
      others := OthersFrom(others, floor);
      heightsToHashes := IndexFrom(heightsToHashes, floor, tipHash);
      chain := trimmed.chain;
      assert Abs() == trimmed;
    }

    /** The generation a publication carries: inherited while the tip stays,
        otherwise one past the highest published, saturating at 64 bits. */
    method StampGeneration(previous: MapBackedSnapshot, highestPublished: nat)
      requires highestPublished <= U64_MAX
      modifies this`generation
      ensures generation ==
        if BestTip() == previous.BestTip() then old(previous.generation)
        else if highestPublished < U64_MAX then highestPublished + 1 else U64_MAX
    {
      if BestTip() == previous.BestTip() {
        generation := previous.generation;
      } else {
        generation := if highestPublished < U64_MAX then highestPublished + 1 else U64_MAX;
      }
    }
  }

  const U64_MAX: nat := 0xFFFF_FFFF_FFFF_FFFF
}
