/** The parent walks over a published graph, and the chain tips derived from them. */
module ChainTips {
  import opened Wrappers
  import opened ChainWorld
  import opened ByteOrder
  import opened ChainGraph
  import opened ReorgWalk
  import ChainHeadService

  /** A retained parent sits one height below its child: what makes the walks end. */
  ghost predicate ParentsBelow(v: View) {
    forall h :: h in v.retained && v.retained[h].parentHash in v.retained ==>
      v.retained[v.retained[h].parentHash].Height() + 1 == v.retained[h].Height()
  }

  lemma AnchoredParentsBelow(w: World, base: nat, v: View)
    requires Anchored(w, base, v)
    ensures ParentsBelow(v)
  {
  }

  /** The ancestor `n` parent steps above `b`, as far as the window retains it. */
  ghost function Ancestor(retained: map<BlockHash, ChainHeadBlock>, b: ChainHeadBlock, n: nat): Option<ChainHeadBlock>
    decreases n
  {
    if n == 0 then Some(b)
    else
      match Ancestor(retained, b, n - 1)
      case None => None
      case Some(x) => if x.parentHash in retained then Some(retained[x.parentHash]) else None
  }

  /** The walk from `b` towards the best chain takes `n` steps: none of the blocks
      before is canonical, and it ends at a canonical one or by leaving the window. */
  ghost predicate WalkTakes(v: View, b: ChainHeadBlock, n: nat, reaches: bool) {
    && (forall m :: 0 <= m < n ==>
          Ancestor(v.retained, b, m).Some? && !Canonical(v, Ancestor(v.retained, b, m).value.reference))
    && (if reaches
        then Ancestor(v.retained, b, n).Some? && Canonical(v, Ancestor(v.retained, b, n).value.reference)
        else Ancestor(v.retained, b, n).None?)
  }

  /** The walk has one outcome. */
  lemma WalkIsDetermined(v: View, b: ChainHeadBlock, m: nat, reachesM: bool, n: nat, reachesN: bool)
    requires WalkTakes(v, b, m, reachesM) && WalkTakes(v, b, n, reachesN)
    ensures m == n && reachesM == reachesN
  {
  }

  /** Each step up the ancestry is one height down. */
  lemma {:induction false} AncestorHeight(v: View, b: ChainHeadBlock, n: nat)
    requires ParentsBelow(v) && b.Hash() in v.retained && v.retained[b.Hash()] == b
    requires forall h :: h in v.retained ==> v.retained[h].Hash() == h
    requires Ancestor(v.retained, b, n).Some?
    ensures var a := Ancestor(v.retained, b, n).value;
      a.Height() + n == b.Height() && a.Hash() in v.retained && v.retained[a.Hash()] == a
    decreases n
  {
    if n > 0 {
      AncestorHeight(v, b, n - 1);
    }
  }

  /** The walk both readers share: how many steps, and where it ends. */
  method WalkToBestChain(graph: MapBackedSnapshot, block: ChainHeadBlock)
    returns (steps: nat, fork: Option<ChainHeadBlock>)
    requires graph.Valid() && ParentsBelow(graph.Abs())
    requires block.Hash() in graph.Retained() && graph.Retained()[block.Hash()] == block
    ensures WalkTakes(graph.Abs(), block, steps, fork.Some?)
    ensures fork == Ancestor(graph.Retained(), block, steps)
    ensures fork.Some? ==> fork.value.Height() + steps == block.Height()
  {
    ghost var v := graph.Abs();
    steps := 0;
    var current := block;
    while true
      invariant Ancestor(v.retained, block, steps) == Some(current)
      invariant current.Hash() in v.retained && v.retained[current.Hash()] == current
      invariant current.Height() + steps == block.Height()
      invariant forall m :: 0 <= m < steps ==>
        Ancestor(v.retained, block, m).Some? && !Canonical(v, Ancestor(v.retained, block, m).value.reference)
      decreases current.Height()
    {
      if graph.IsOnBestChain(current.reference) {
        return steps, Some(current);
      }
      steps := steps + 1;
      var parent := graph.BlockByHash(current.parentHash);
      if parent.None? {
        return steps, None;
      }
      current := parent.value;
    }
  }

  /** How many blocks separate a block from the best chain: the height above its
      fork point, or the steps to the window's edge when it has none there. */
  method BranchLenToBestChain(graph: MapBackedSnapshot, block: ChainHeadBlock)
    returns (branchLen: nat)
    requires graph.Valid() && ParentsBelow(graph.Abs())
    requires block.Hash() in graph.Retained() && graph.Retained()[block.Hash()] == block
    ensures WalkTakes(graph.Abs(), block, branchLen, true) || WalkTakes(graph.Abs(), block, branchLen, false)
  {
    var fork;
    branchLen, fork := WalkToBestChain(graph, block);
  }

  /** The first canonical ancestor: nothing for a hash not retained or a branch
      rooted below the window. */
  method FindForkPoint(graph: MapBackedSnapshot, hash: BlockHash) returns (r: Option<BlockRef>, ghost steps: nat)
    requires graph.Valid() && ParentsBelow(graph.Abs())
    ensures hash !in graph.Retained() ==> r == None
    ensures hash in graph.Retained() ==>
      && WalkTakes(graph.Abs(), graph.Retained()[hash], steps, r.Some?)
      && (r.Some? ==> r.value == Ancestor(graph.Retained(), graph.Retained()[hash], steps).value.reference)
  {
    steps := 0;
    var start := graph.BlockByHash(hash);
    if start.None? {
      return None, steps;
    }
    var n, fork := WalkToBestChain(graph, start.value);
    steps := n;
    r := if fork.Some? then Some(fork.value.reference) else None;
  }

  datatype ChainTip = ChainTip(height: Height, hash: BlockHash, branchLen: nat, active: bool)

  /** A retained block no retained block claims as its parent. */
  ghost predicate IsLeaf(v: View, h: BlockHash) {
    h in v.retained && forall c :: c in v.retained ==> v.retained[c].parentHash != h
  }

  /** What must be listed: the leaves, and the canonical tip whatever hangs off it. */
  ghost predicate IsTip(v: View, h: BlockHash) {
    IsLeaf(v, h) || (|v.chain| > 0 && h == Tip(v).Hash())
  }

  /** Every retained block is an ancestor of some tip, or a tip itself. */
  lemma EveryBlockIsUnderATip(v: View, h: BlockHash) returns (tip: BlockHash, n: nat)
    requires WellFormed(v) && ParentsBelow(v) && h in v.retained
    ensures tip in v.retained && IsTip(v, tip)
    ensures Ancestor(v.retained, v.retained[tip], n) == Some(v.retained[h])
    decreases MAX_HEIGHT - v.retained[h].Height()
  {
    if IsTip(v, h) {
      return h, 0;
    }
    var c :| c in v.retained && v.retained[c].parentHash == h;
    tip, n := EveryBlockIsUnderATip(v, c);
    n := n + 1;
  }

  /** Descending height, then ascending hash as displayed. */
  predicate Before(s: ChainTip, t: ChainTip) {
    s.height > t.height || (s.height == t.height && Less(Reversed(s.hash), Reversed(t.hash)))
  }

  ghost predicate Listed(tips: seq<ChainTip>) {
    forall i, j :: 0 <= i < j < |tips| ==> Before(tips[i], tips[j])
  }

  lemma BeforeIsTransitive(a: ChainTip, b: ChainTip, c: ChainTip)
    requires Before(a, b) && Before(b, c)
    ensures Before(a, c)
  {
    if a.height == c.height {
      LessIsTransitive(Reversed(a.hash), Reversed(b.hash), Reversed(c.hash));
    }
  }

  lemma BeforeIsTotal(a: ChainTip, b: ChainTip)
    requires a.hash != b.hash
    ensures Before(a, b) || Before(b, a)
  {
    LessIsTotal(Reversed(a.hash), Reversed(b.hash));
    if Reversed(a.hash) == Reversed(b.hash) {
      ReversedIsInjective(a.hash, b.hash);
    }
  }

  /** Places a tip in a list already in order. */
  method Insert(tips: seq<ChainTip>, t: ChainTip) returns (r: seq<ChainTip>)
    requires Listed(tips) && forall s :: s in tips ==> s.hash != t.hash
    ensures Listed(r)
    ensures forall s :: s in r <==> s in tips || s == t
  {
    var i := 0;
    while i < |tips| && Before(tips[i], t)
      invariant 0 <= i <= |tips|
      invariant forall j :: 0 <= j < i ==> Before(tips[j], t)
    {
      i := i + 1;
    }
    forall j | i <= j < |tips| ensures Before(t, tips[j]) {
      BeforeIsTotal(tips[i], t);
      if i < j {
        BeforeIsTransitive(t, tips[i], tips[j]);
      }
    }
    r := tips[..i] + [t] + tips[i..];
    assert forall s :: s in tips ==> s in tips[..i] || s in tips[i..];
  }

  /** An entry reports its block's height, whether it is the canonical tip, and how
      far its branch is from the best chain. */
  ghost predicate Reports(v: View, t: ChainTip) {
    && |v.chain| > 0
    && t.hash in v.retained && t.height == v.retained[t.hash].Height()
    && (t.active <==> t.hash == Tip(v).Hash())
    && (t.active ==> t.branchLen == 0)
    && (!t.active ==> exists reaches :: WalkTakes(v, v.retained[t.hash], t.branchLen, reaches))
  }

  /** A fork with a fork point in the window is as long as it is higher. */
  lemma BranchLenIsHeightAboveFork(v: View, t: ChainTip, n: nat)
    requires WellFormed(v) && ParentsBelow(v) && Reports(v, t) && !t.active
    requires WalkTakes(v, v.retained[t.hash], n, true)
    ensures t.branchLen == n
    ensures t.height == Ancestor(v.retained, v.retained[t.hash], n).value.Height() + t.branchLen
  {
    var reaches :| WalkTakes(v, v.retained[t.hash], t.branchLen, reaches);
    WalkIsDetermined(v, v.retained[t.hash], t.branchLen, reaches, n, true);
    AncestorHeight(v, v.retained[t.hash], n);
  }

  /** The hashes to list: those no retained block names as its parent, and the tip. */
  method TipHashes(graph: MapBackedSnapshot) returns (hashes: set<BlockHash>)
    requires graph.Valid()
    ensures forall h :: h in hashes <==> IsTip(graph.Abs(), h)
    ensures forall h :: h in hashes ==> h in graph.Retained()
  {
    ghost var v := graph.Abs();
    var all := graph.others.Keys + {graph.tip.Hash()};
    var parents := {graph.tip.parentHash} + set h | h in graph.others :: graph.others[h].parentHash;
    hashes := (all - parents) + {graph.tip.Hash()};
    assert all == v.retained.Keys;
    forall h ensures h in hashes <==> IsTip(v, h) {
      if h in parents && h in all {
        if h == graph.tip.parentHash {
          assert v.retained[graph.tip.Hash()].parentHash == h;
        } else {
          var c :| c in graph.others && graph.others[c].parentHash == h;
          assert v.retained[c].parentHash == h;
        }
      }
    }
  }

  method ReportTip(graph: MapBackedSnapshot, hash: BlockHash) returns (t: ChainTip)
    requires graph.Valid() && ParentsBelow(graph.Abs()) && hash in graph.Retained()
    ensures t.hash == hash && Reports(graph.Abs(), t)
  {
    var block := graph.BlockByHash(hash).value;
    if hash == graph.tip.Hash() {
      return ChainTip(block.Height(), hash, 0, true);
    }
    var branchLen := BranchLenToBestChain(graph, block);
    return ChainTip(block.Height(), hash, branchLen, false);
  }

  /** Every tip of the retained graph exactly once, in order. Exactly one is active,
      since one hash is the canonical tip's. */
  method ChainTipsOf(graph: MapBackedSnapshot) returns (tips: seq<ChainTip>)
    requires graph.Valid() && ParentsBelow(graph.Abs())
    ensures Listed(tips)
    ensures forall t :: t in tips ==> IsTip(graph.Abs(), t.hash) && Reports(graph.Abs(), t)
    ensures forall h :: IsTip(graph.Abs(), h) ==> HasEntry(tips, h)
    ensures exists t :: t in tips && t.active
    ensures forall s, t :: s in tips && t in tips && s.active && t.active ==> s == t
  {
    hide Represents, Reports, IsTip, Listed, ParentsBelow, HasEntry;
    var hashes := TipHashes(graph);
    tips := [];
    ListedEmpty();
    ghost var all := hashes;
    while hashes != {}
      invariant hashes <= all && Listed(tips)
      invariant forall h :: h in hashes ==> h in graph.Retained()
      invariant forall t :: t in tips ==> t.hash in all - hashes && Reports(graph.Abs(), t)
      invariant forall h :: h in all && h !in hashes ==> HasEntry(tips, h)
      decreases hashes
    {
      var h :| h in hashes;
      var t := ReportTip(graph, h);
      ghost var before := tips;
      tips := Insert(tips, t);
      EntriesStay(before, tips, t);
      hashes := hashes - {h};
    }
    OneIsActive(graph, tips);
  }

  /** The chain tips of the published window, at any point of a run. */
  method PublishedTips(service: ChainHeadService.Service) returns (tips: seq<ChainTip>)
    requires service.Valid()
    ensures Listed(tips)
    ensures forall h :: HasEntry(tips, h) <==> IsTip(service.current.Abs(), h)
    ensures forall t :: t in tips ==> Reports(service.current.Abs(), t)
  {
    hide Anchored, Listed, IsTip, Reports;
    AnchoredParentsBelow(service.source.world, service.base, service.current.Abs());
    tips := ChainTipsOf(service.current);
  }

  ghost predicate HasEntry(tips: seq<ChainTip>, h: BlockHash) {
    exists t :: t in tips && t.hash == h
  }

  lemma EntriesStay(before: seq<ChainTip>, after: seq<ChainTip>, t: ChainTip)
    requires forall s :: s in after <==> s in before || s == t
    ensures forall h :: HasEntry(before, h) ==> HasEntry(after, h)
    ensures HasEntry(after, t.hash)
  {
  }

  lemma ListedEmpty()
    ensures Listed([])
  {
  }

  lemma OneIsActive(graph: MapBackedSnapshot, tips: seq<ChainTip>)
    requires graph.Valid() && Listed(tips)
    requires forall t :: t in tips ==> Reports(graph.Abs(), t)
    requires forall h :: IsTip(graph.Abs(), h) ==> HasEntry(tips, h)
    ensures exists t :: t in tips && t.active
    ensures forall s, t :: s in tips && t in tips && s.active && t.active ==> s == t
  {
    assert IsTip(graph.Abs(), graph.tip.Hash());
    var t :| t in tips && t.hash == graph.tip.Hash();
    assert t.active;
  }
}
