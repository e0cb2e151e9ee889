/** Blocks as the validator serves them and as the chain head retains them, and
    the fixed world of blocks both draw from.

    A block hash commits to the block, so the world is a (possibly infinite)
    table from hashes to blocks: a hash determines height, parent, work and tree
    roots. Which of those blocks a validator calls its best chain is not part of
    the world and may change between any two calls. */
module ChainWorld {
  import opened Wrappers

  type Byte = x: int | 0 <= x < 256

  type BlockHash = s: seq<Byte> | |s| == 32 witness seq(32, _ => 0)

  /** The protocol's height ceiling, 2^31 - 1. */
  const MAX_HEIGHT: nat := 0x7FFF_FFFF

  type Height = h: int | 0 <= h <= MAX_HEIGHT

  /** The accumulation of work is a 128-bit unsigned integer. */
  const U128_MAX: nat := 0xFFFF_FFFF_FFFF_FFFF_FFFF_FFFF_FFFF_FFFF

  datatype BlockRef = BlockRef(hash: BlockHash, height: Height)

  /** A block as the source serves it. `blockWork` is the work its difficulty
      target stands for; `time` and `body` are what a treestate reads. */
  datatype Block = Block(
    hash: BlockHash, prevHash: BlockHash, height: Height, blockWork: nat,
    time: nat, body: seq<Byte>)

  /** Commitment tree roots and sizes after a block, opaque here. */
  datatype TreeRoots = TreeRoots(sapling: Option<nat>, orchard: Option<nat>, ironwood: Option<nat>)

  /** A block retained in the window, with work accumulated from the anchor. */
  datatype ChainHeadBlock = ChainHeadBlock(
    reference: BlockRef, parentHash: BlockHash, work: nat, block: Block, treeRoots: TreeRoots)
  {
    function Hash(): BlockHash {
      reference.hash
    }

    function Height(): Height {
      reference.height
    }
  }

  datatype World = World(blocks: imap<BlockHash, Block>, roots: imap<BlockHash, TreeRoots>)

  /** A hash names its block, work is positive, a parent sits one height lower
      and genesis has no parent block. */
  ghost predicate ValidWorld(w: World) {
    forall h: BlockHash :: h in w.blocks ==> ValidEntry(w, h)
  }

  ghost predicate ValidEntry(w: World, h: BlockHash)
    requires h in w.blocks
  {
    var b := w.blocks[h];
    && h in w.roots
    && b.hash == h
    && 1 <= b.blockWork
    && (b.height == 0 ==> b.prevHash !in w.blocks)
    && (b.height > 0 ==>
          b.prevHash in w.blocks && w.blocks[b.prevHash].height == b.height - 1)
  }

  /** Absolute chainwork: the work of a block and of every ancestor down to genesis. */
  ghost function Chainwork(w: World, h: BlockHash): (c: nat)
    requires ValidWorld(w) && h in w.blocks
    ensures c >= w.blocks[h].blockWork
    decreases w.blocks[h].height
  {
    assert ValidEntry(w, h);
    var b := w.blocks[h];
    if b.height == 0 then b.blockWork else Chainwork(w, b.prevHash) + b.blockWork
  }

  /** `b` is exactly what the window must hold for its hash when accumulation
      starts `base` below absolute chainwork. */
  ghost predicate Exact(w: World, base: nat, b: ChainHeadBlock)
    requires ValidWorld(w)
  {
    var h := b.reference.hash;
    && h in w.blocks
    && b.block == w.blocks[h]
    && b.reference.height == b.block.height
    && b.parentHash == b.block.prevHash
    && h in w.roots && b.treeRoots == w.roots[h]
    && b.work + base == Chainwork(w, h)
  }

  /** Comparing two exact blocks compares absolute chainwork. */
  lemma WorkComparesChainwork(w: World, base: nat, a: ChainHeadBlock, b: ChainHeadBlock)
    requires ValidWorld(w) && Exact(w, base, a) && Exact(w, base, b)
    ensures a.work < b.work <==> Chainwork(w, a.Hash()) < Chainwork(w, b.Hash())
    ensures a.work == b.work <==> Chainwork(w, a.Hash()) == Chainwork(w, b.Hash())
  {
  }

  /** Within one anchoring a hash determines the whole retained block. */
  lemma ExactIsDetermined(w: World, base: nat, a: ChainHeadBlock, b: ChainHeadBlock)
    requires ValidWorld(w) && Exact(w, base, a) && Exact(w, base, b)
    requires a.Hash() == b.Hash()
    ensures a == b
  {
  }

  /** A child outweighs its parent, by its own work. */
  lemma ChildOutweighsParent(w: World, base: nat, parent: ChainHeadBlock, child: ChainHeadBlock)
    requires ValidWorld(w) && Exact(w, base, parent) && Exact(w, base, child)
    requires child.parentHash == parent.Hash()
    ensures child.Height() == parent.Height() + 1
    ensures child.work == parent.work + child.block.blockWork
    ensures child.work > parent.work
  {
  }
}
