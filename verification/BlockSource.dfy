/** The validator the chain head follows.

    Every answer is a function of how many questions came before it and of the
    question, so the validator may extend, reorganise, roll back or fail between
    any two calls. What it may not do is contradict the block world. */
module BlockSource {
  import opened Wrappers
  import opened ChainWorld

  datatype Reply<+T> = Present(value: T) | Absent | Failed

  /** Why an advance stopped. The two refusals name a graph move that was refused. */
  datatype AdvanceError =
    | SourceFailed
    | InconsistentSource
    | WalkLimit
    | WorkOverflow
    | RefusedRewind
    | RefusedExtend

  /** A question put to the validator, with the reply it got. */
  datatype Exchange =
    | TipAsked(tip: Reply<BlockRef>)
    | HeightAsked(height: Height, block: Reply<Block>)
    | HashAsked(hash: BlockHash, block: Reply<Block>)
    | RootsAsked(hash: BlockHash, roots: Reply<TreeRoots>)
  {
    /** The validator failed at this question. A tip or roots it does not have are
        a failure too. */
    predicate Fault() {
      match this
      case TipAsked(tip) => !tip.Present?
      case HeightAsked(_, block) => block.Failed?
      case HashAsked(_, block) => block.Failed?
      case RootsAsked(_, roots) => !roots.Present?
    }

    /** The validator said it has no such block. */
    predicate Missing() {
      match this
      case HeightAsked(_, block) => block.Absent?
      case HashAsked(_, block) => block.Absent?
      case _ => false
    }
  }

  /** Since exchange `from`, the block was asked for by its height and served. */
  ghost predicate Served(log: seq<Exchange>, from: nat, block: Block) {
    exists n :: from <= n < |log| && log[n] == HeightAsked(block.height, Present(block))
  }

  /** Since exchange `from`, the height was asked for and said to be absent. */
  ghost predicate SaidAbsent(log: seq<Exchange>, from: nat, height: Height) {
    exists n :: from <= n < |log| && log[n] == HeightAsked(height, Absent)
  }

  class Validator {
    ghost const world: World
    const tipAnswer: nat -> Reply<BlockRef>
    const heightAnswer: (nat, Height) -> Reply<Block>
    const hashAnswer: (nat, BlockHash) -> Reply<Block>
    const rootsAnswer: (nat, BlockHash) -> Reply<TreeRoots>
    /** Everything asked so far and what was replied. */
    var log: seq<Exchange>

    constructor (ghost world: World, tipAnswer: nat -> Reply<BlockRef>,
                 heightAnswer: (nat, Height) -> Reply<Block>,
                 hashAnswer: (nat, BlockHash) -> Reply<Block>,
                 rootsAnswer: (nat, BlockHash) -> Reply<TreeRoots>)
      ensures this.world == world && log == []
      ensures this.tipAnswer == tipAnswer && this.heightAnswer == heightAnswer
      ensures this.hashAnswer == hashAnswer && this.rootsAnswer == rootsAnswer
    {
      this.world := world;
      this.tipAnswer := tipAnswer;
      this.heightAnswer := heightAnswer;
      this.hashAnswer := hashAnswer;
      this.rootsAnswer := rootsAnswer;
      log := [];
    }

    /** The world is sound and no answer contradicts it: a block served for a
        height has that height, one served for a hash has that hash. */
    ghost predicate Consistent() {
      && ValidWorld(world)
      && (forall n, h :: heightAnswer(n, h).Present? ==>
            InWorld(world, heightAnswer(n, h).value) && heightAnswer(n, h).value.height == h)
      && (forall n, h :: hashAnswer(n, h).Present? ==>
            InWorld(world, hashAnswer(n, h).value) && hashAnswer(n, h).value.hash == h)
      && (forall n, h :: rootsAnswer(n, h).Present? ==>
            h in world.roots && rootsAnswer(n, h).value == world.roots[h])
    }

    lemma WorldIsValid()
      requires Consistent()
      ensures ValidWorld(world)
    {
    }

    /** The validator stays on one chain, whose work fits, and never fails on it. */
    ghost predicate Steady(best: seq<Block>)
      requires Consistent()
    {
      && 0 < |best| <= MAX_HEIGHT + 1
      && (forall n: nat :: tipAnswer(n) == Present(BlockRef(best[|best| - 1].hash, |best| - 1)))
      && (forall n: nat, h: Height :: h < |best| ==> heightAnswer(n, h) == Present(best[h]))
      && (forall n: nat, h: Height :: h < |best| ==> rootsAnswer(n, best[h].hash).Present?)
      && (forall h: Height {:trigger best[h].prevHash} :: 0 < h < |best| ==> best[h].prevHash == best[h - 1].hash)
      && best[|best| - 1].hash in world.blocks && Chainwork(world, best[|best| - 1].hash) <= U128_MAX
    }

    /** The validator is steady on a chain that has this block at its height. */
    ghost predicate SteadyOn(best: seq<Block>, b: ChainHeadBlock)
      requires Consistent()
    {
      Steady(best) && b.Height() < |best| && b.block == best[b.Height()]
    }

    /** What a steady validator answers about a height of its chain: its block, in the
        world, with its roots and within 128 bits of work. */
    lemma {:induction false} SteadyBlock(best: seq<Block>, h: Height, n: nat)
      requires Consistent() && Steady(best) && h < |best|
      ensures heightAnswer(n, h) == Present(best[h]) && rootsAnswer(n, best[h].hash).Present?
      ensures InWorld(world, best[h]) && best[h].height == h
      ensures Chainwork(world, best[h].hash) <= U128_MAX
      decreases |best| - h
    {
      assert heightAnswer(n, h) == Present(best[h]);
      if h < |best| - 1 {
        SteadyBlock(best, h + 1, n);
        assert best[h + 1].prevHash == best[h].hash;
      }
    }

    /** The tip's hash and height together; a validator without a tip has failed. */
    method ChainTip() returns (r: Result<BlockRef, AdvanceError>)
      modifies this
      ensures log == old(log) + [TipAsked(tipAnswer(|old(log)|))]
      ensures r == match tipAnswer(|old(log)|) case Present(t) => Ok(t) case _ => Err(SourceFailed)
    {
      var answer := tipAnswer(|log|);
      log := log + [TipAsked(answer)];
      r := if answer.Present? then Ok(answer.value) else Err(SourceFailed);
    }

    /** The block the validator's best chain has at a height; having none is an answer. */
    method BlockAtHeight(height: Height) returns (r: Result<Option<Block>, AdvanceError>)
      requires Consistent()
      modifies this
      ensures log == old(log) + [HeightAsked(height, heightAnswer(|old(log)|, height))]
      ensures r == Presence(heightAnswer(|old(log)|, height))
      ensures r.Ok? ==>
        if r.value.Some? then Served(log, |old(log)|, r.value.value) else SaidAbsent(log, |old(log)|, height)
      ensures r.Ok? && r.value.Some? ==> InWorld(world, r.value.value) && r.value.value.height == height
    {
      var answer := heightAnswer(|log|, height);
      log := log + [HeightAsked(height, answer)];
      assert log[|old(log)|] == HeightAsked(height, answer);
      r := Presence(answer);
    }

    /** The block of a hash, whichever chain it is on. */
    method BlockAtHash(hash: BlockHash) returns (r: Result<Option<Block>, AdvanceError>)
      requires Consistent()
      modifies this
      ensures log == old(log) + [HashAsked(hash, hashAnswer(|old(log)|, hash))]
      ensures r == Presence(hashAnswer(|old(log)|, hash))
      ensures r.Ok? && r.value.Some? ==> InWorld(world, r.value.value) && r.value.value.hash == hash
    {
      var answer := hashAnswer(|log|, hash);
      log := log + [HashAsked(hash, answer)];
      r := Presence(answer);
    }

    /** Commitment tree roots of a block; an unknown block is a failure here. */
    method TreeRootsOf(hash: BlockHash) returns (r: Result<TreeRoots, AdvanceError>)
      requires Consistent()
      modifies this
      ensures log == old(log) + [RootsAsked(hash, rootsAnswer(|old(log)|, hash))]
      ensures r == match rootsAnswer(|old(log)|, hash) case Present(t) => Ok(t) case _ => Err(SourceFailed)
      ensures r.Ok? ==> hash in world.roots && r.value == world.roots[hash]
    {
      var answer := rootsAnswer(|log|, hash);
      log := log + [RootsAsked(hash, answer)];
      r := if answer.Present? then Ok(answer.value) else Err(SourceFailed);
    }
  }

  ghost predicate InWorld(w: World, b: Block) {
    b.hash in w.blocks && w.blocks[b.hash] == b
  }

  /** Present, absent, or failed: absence passes through as an answer. */
  function Presence<T>(reply: Reply<T>): (r: Result<Option<T>, AdvanceError>)
    ensures r.Err? <==> reply.Failed?
    ensures r.Err? ==> r.error == SourceFailed
    ensures r.Ok? ==> (r.value.Some? <==> reply.Present?)
    ensures reply.Present? ==> r == Ok(Some(reply.value))
  {
    match reply
    case Present(v) => Ok(Some(v))
    case Absent => Ok(None)
    case Failed => Err(SourceFailed)
  }
}
