/** Every finite run of graph moves keeps the graph invariants up to the first
    append, if any, of a hash that is canonical already; there is none where a hash
    names one height. */
module ChainMoves {
  import opened ChainWorld
  import opened ChainGraph

  datatype Move =
    | Append(block: ChainHeadBlock)
    | Rewind(target: BlockRef)
    | Trim(floor: Height)

  /** Two blocks under one hash sit at one height: what a hash committing to its
      block gives, over the blocks retained now and the blocks still to come. */
  ghost predicate HashesNameHeights(v: View, moves: seq<Move>) {
    && (forall m, h :: m in moves && m.Append? && h in v.retained && m.block.Hash() == h ==>
          v.retained[h].Height() == m.block.Height())
    && (forall m, n :: m in moves && n in moves && m.Append? && n.Append? ==>
          m.block.Hash() == n.block.Hash() ==> m.block.Height() == n.block.Height())
  }

  ghost function Step(v: View, m: Move): View
    requires WellFormed(v)
  {
    match m
    case Append(b) => Extended(v, b)
    case Rewind(r) => Rewound(v, r)
    case Trim(floor) => Trimmed(v, floor)
  }

  /** The views a run passes through: append, take a prefix, drop a prefix. */
  ghost predicate RunsTo(v: View, moves: seq<Move>, w: View)
    decreases |moves|
  {
    if moves == [] then v == w
    else WellFormed(v) && RunsTo(Step(v, moves[0]), moves[1..], w)
  }

  lemma StepKeepsInvariants(v: View, m: Move, rest: seq<Move>)
    requires WellFormed(v) && HashesNameHeights(v, [m] + rest)
    ensures WellFormed(Step(v, m)) && HashesNameHeights(Step(v, m), rest)
  {
    assert m in [m] + rest;
    assert forall n :: n in rest ==> n in [m] + rest;
    match m
    case Append(b) =>
      if ExtendsTip(v, b) {
        AppendedHashIsNew(v, b);
        ExtendKeepsInvariants(v, b);
      }
    case Rewind(r) =>
      if Canonical(v, r) {
        RewindKeepsInvariants(v, r);
      }
    case Trim(floor) =>
      TrimKeepsInvariants(v, floor);
  }

  lemma AppendedHashIsNew(v: View, b: ChainHeadBlock)
    requires WellFormed(v) && ExtendsTip(v, b)
    requires b.Hash() in v.retained ==> v.retained[b.Hash()].Height() == b.Height()
    ensures !HashIsCanonical(v, b.Hash())
  {
  }

  /** An append the graph accepts though the block's hash is canonical already. */
  ghost predicate Evicts(v: View, m: Move) {
    |v.chain| > 0 && m.Append? && ExtendsTip(v, m.block) && HashIsCanonical(v, m.block.Hash())
  }

  /** One move, and whether it was such an append. */
  method ApplyMove(graph: MapBackedSnapshot, m: Move) returns (evicts: bool)
    requires graph.Valid()
    modifies graph
    ensures WellFormed(old(graph.Abs())) && graph.Abs() == Step(old(graph.Abs()), m)
    ensures evicts <==> Evicts(old(graph.Abs()), m)
    ensures graph.Valid() <==> !evicts
  {
    ghost var v := graph.Abs();
    match m {
      case Append(b) =>
        var held := graph.BlockByHash(b.Hash());
        var canonical := held.Some? && graph.IsOnBestChain(held.value.reference);
        assert canonical <==> HashIsCanonical(v, b.Hash());
        var accepted := graph.Extend(b);
        evicts := accepted && canonical;
      case Rewind(r) =>
        var _ := graph.RewindTo(r);
        evicts := false;
      case Trim(floor) =>
        graph.RemoveFinalisedBlocks(floor);
        evicts := false;
    }
  }

  /** A run that begins with a move goes on from where the move leads. */
  lemma RunsFrom(v: View, m: Move, rest: seq<Move>, n: nat, w: View)
    requires n <= |rest| && WellFormed(v) && RunsTo(Step(v, m), rest[..n], w)
    ensures RunsTo(v, ([m] + rest)[..n + 1], w)
  {
    hide Step, WellFormed;
    assert ([m] + rest)[..n + 1] == [m] + rest[..n];
    assert ([m] + rest[..n])[1..] == rest[..n];
  }

  /** Where a hash names one height no append evicts. */
  lemma EvictionMisnames(v: View, m: Move, rest: seq<Move>)
    requires WellFormed(v) && Evicts(v, m)
    ensures !HashesNameHeights(v, [m] + rest)
  {
    assert m in [m] + rest;
    if HashesNameHeights(v, [m] + rest) {
      AppendedHashIsNew(v, m.block);
    }
  }

  /** Drives a graph through any sequence of moves, refused ones included, until one
      breaks the invariants. That one is an append of a canonical hash, and no run
      in which a hash names one height has it. */
  method ApplyMoves(graph: MapBackedSnapshot, moves: seq<Move>) returns (done: nat, sound: bool)
    requires graph.Valid()
    modifies graph
    ensures done <= |moves| && RunsTo(old(graph.Abs()), moves[..done], graph.Abs())
    ensures sound <==> graph.Valid()
    ensures sound ==> done == |moves|
    ensures !sound ==>
      done > 0 && exists v :: WellFormed(v) && RunsTo(old(graph.Abs()), moves[..done - 1], v) && Evicts(v, moves[done - 1])
    ensures HashesNameHeights(old(graph.Abs()), moves) ==> sound
    decreases |moves|
  {
    hide HashesNameHeights, WellFormed, Extended, Rewound, Trimmed, HashIsCanonical;
    ghost var v := graph.Abs();
    if moves == [] {
      return 0, true;
    }
    var m, rest := moves[0], moves[1..];
    assert moves == [m] + rest;
    var evicts := ApplyMove(graph, m);
    assert moves[..1] == [m];
    if evicts {
      RunsFrom(v, m, rest, 0, graph.Abs());
      EvictionMisnames(v, m, rest);
      assert moves[..0] == [];
      return 1, false;
    }
    if HashesNameHeights(v, moves) {
      StepKeepsInvariants(v, m, rest);
    }
    ghost var w := graph.Abs();
    done, sound := ApplyMoves(graph, rest);
    RunsFrom(v, m, rest, done, graph.Abs());
    if !sound {
      ghost var u :| WellFormed(u) && RunsTo(w, rest[..done - 1], u) && Evicts(u, rest[done - 1]);
      RunsFrom(v, m, rest, done - 1, u);
      assert moves[done] == rest[done - 1];
    }
    done := done + 1;
  }
}
