/** The seam between the durable tier and the chain head: the reorg horizon the
    head releases, the watermark the durable tier commits, and the retention
    floor derived from it. */
module FinalitySeam {
  import opened Wrappers
  import opened ChainWorld

  /** A released horizon: nothing at or below it is reorganised away any more. */
  datatype Released = Released(height: Height, hash: BlockHash)

  /** `height - delta`, saturating at genesis. */
  function HeightBelow(height: Height, delta: nat): (r: Height)
    ensures r <= height && (r > 0 ==> r + delta == height) && (r == 0 ==> height <= delta)
  {
    if delta <= height then height - delta else 0
  }

  class Seam {
    const reorgDepth: nat
    const retentionMargin: nat
    var released: Option<Released>
    var committed: Option<Height>
    /** Every horizon ever handed out, each an authorisation to commit. */
    ghost var issued: set<Released>

    constructor (reorgDepth: nat, retentionMargin: nat)
      ensures Valid() && released == None && committed == None && issued == {}
      ensures this.reorgDepth == reorgDepth && this.retentionMargin == retentionMargin
    {
      this.reorgDepth := reorgDepth;
      this.retentionMargin := retentionMargin;
      released := None;
      committed := None;
      issued := {};
    }

    /** The ratchet: no authorisation exceeds the horizon, and the watermark
        never passes it. */
    ghost predicate Valid()
      reads this
    {
      && (released.Some? ==> released.value in issued)
      && (forall r :: r in issued ==> released.Some? && r.height <= released.value.height)
      && (committed.Some? ==> released.Some? && committed.value <= released.value.height)
    }

    /** Publishes the horizon derived from the tip; a lower one is a fault. */
    method AdvanceHorizon(tip: Height, hashAtHorizon: BlockHash) returns (accepted: bool)
      requires Valid()
      modifies this`released, this`issued
      ensures Valid()
      ensures accepted <==>
        old(released).None? || old(released).value.height <= HeightBelow(tip, reorgDepth)
      ensures released ==
        if accepted then Some(Released(HeightBelow(tip, reorgDepth), hashAtHorizon)) else old(released)
      ensures issued == if accepted then old(issued) + {released.value} else old(issued)
    {
      var to := HeightBelow(tip, reorgDepth);
      if released.Some? && to < released.value.height {
        return false;
      }
      released := Some(Released(to, hashAtHorizon));
      issued := issued + {released.value};
      return true;
    }

    /** The durable tier's advance, under a horizon it was handed: refused past
        that horizon and refused backwards. */
    method AdvanceWatermark(authorisedBy: Released, to: Height) returns (accepted: bool)
      requires Valid() && authorisedBy in issued
      modifies this`committed
      ensures Valid()
      ensures accepted <==>
        to <= authorisedBy.height && (old(committed).None? || old(committed).value <= to)
      ensures committed == if accepted then Some(to) else old(committed)
    {
      if to > authorisedBy.height {
        return false;
      }
      if committed.Some? && to < committed.value {
        return false;
      }
      committed := Some(to);
      return true;
    }

    /** The lowest height the head must keep: the watermark less the margin. */
    function RetentionFloor(): (r: Option<Height>)
      reads this`committed
      ensures r.None? <==> committed.None?
      ensures r.Some? ==> r.value <= committed.value
      ensures r.Some? && r.value > 0 ==> committed.value - r.value == retentionMargin
      ensures r.Some? && r.value == 0 ==> committed.value <= retentionMargin
    {
      if committed.Some? then Some(HeightBelow(committed.value, retentionMargin)) else None
    }
  }
}
