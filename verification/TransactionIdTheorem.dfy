/** The id commits to exactly the effecting data: the whole tree, both ways. */
module TransactionIdTheorem {
  import opened Wrappers
  import opened ChainWorld
  import opened ByteInts
  import opened Slices
  import opened WireParsing
  import opened TransactionWire
  import opened TransactionFormat
  import opened TransactionReader
  import opened TransactionId

  // ---- Orchard-shaped bundles

  predicate BundleShape(bundle: Option<RawBundle>) {
    bundle.Some? ==>
      && (forall i :: 0 <= i < |bundle.value.actions| ==> ActionOk(bundle.value.actions[i]))
      && |bundle.value.anchor| == 32
  }

  /** The bundle without an anchor the id leaves out. */
  function EffectingBundle(bundle: Option<RawBundle>, p: BundlePersonalisation): Option<RawBundle> {
    if bundle.Some? && !p.anchorInId then Some(bundle.value.(anchor := [])) else bundle
  }

  lemma ActionSizes(x: RawAction)
    requires ActionOk(x)
    ensures |x.cv| == 32 && |x.nullifier| == 32 && |x.rk| == 32 && |x.cmx| == 32 && |x.ephemeralKey| == 32
    ensures |x.encCiphertext| == 580 && |x.outCiphertext| == 80
  {
    var f := ActionFields(x);
    assert f[0] == x.cv && f[1] == x.nullifier && f[2] == x.rk && f[3] == x.cmx && f[4] == x.ephemeralKey;
    assert f[5] == x.encCiphertext && f[6] == x.outCiphertext;
  }

  lemma ActionRowsOk(actions: seq<RawAction>)
    requires forall i :: 0 <= i < |actions| ==> ActionOk(actions[i])
    ensures RowOk(actions, ActionCompact, [32, 32, 32, 52]) && RowOk(actions, ActionMemo, [512])
    ensures RowOk(actions, ActionNoncompact, [32, 32, 16, 80])
  {
    hide ActionOk;
    forall i | 0 <= i < |actions|
      ensures Sized(ActionCompact(actions[i]), [32, 32, 32, 52]) && Sized(ActionMemo(actions[i]), [512])
      ensures Sized(ActionNoncompact(actions[i]), [32, 32, 16, 80])
    {
      ActionSizes(actions[i]);
    }
  }

  lemma ActionCommits(x: RawAction, y: RawAction)
    requires |x.encCiphertext| == 580 && |y.encCiphertext| == 580
    requires ActionCompact(x) == ActionCompact(y) && ActionMemo(x) == ActionMemo(y)
    requires ActionNoncompact(x) == ActionNoncompact(y)
    ensures x == y
  {
  }

  lemma ActionsCommit(a: seq<RawAction>, b: seq<RawAction>)
    requires forall i :: 0 <= i < |a| ==> ActionOk(a[i])
    requires forall i :: 0 <= i < |b| ==> ActionOk(b[i])
    requires Row(a, ActionCompact) == Row(b, ActionCompact) && Row(a, ActionMemo) == Row(b, ActionMemo)
    requires Row(a, ActionNoncompact) == Row(b, ActionNoncompact)
    ensures a == b
  {
    hide Row, RowOk, Total, ActionOk, ActionCompact, ActionMemo, ActionNoncompact;
    ActionRowsOk(a);
    ActionRowsOk(b);
    Widths();
    RowCommits(a, ActionCompact, b, ActionCompact, [32, 32, 32, 52]);
    RowCommits(a, ActionMemo, b, ActionMemo, [512]);
    RowCommits(a, ActionNoncompact, b, ActionNoncompact, [32, 32, 16, 80]);
    forall i | 0 <= i < |a| ensures a[i] == b[i] {
      ActionSizes(a[i]);
      ActionSizes(b[i]);
      ActionCommits(a[i], b[i]);
    }
  }

  function BundleTail(x: RawBundle, p: BundlePersonalisation): seq<Bytes> {
    [[x.flags], I64Bytes(x.valueBalance), if p.anchorInId then x.anchor else []]
  }

  lemma BundleCommits(a: Option<RawBundle>, b: Option<RawBundle>, p: BundlePersonalisation, h: Hash, s: set<Preimage>)
    requires Is32(h) && CollisionFree(h, s) && BundleShape(a) && BundleShape(b)
    requires BundlePreimages(a, p) <= s && BundlePreimages(b, p) <= s
    requires BundleMsg(a, p, h) == BundleMsg(b, p, h)
    ensures EffectingBundle(a, p) == EffectingBundle(b, p)
  {
    hide Digests, Joined, Row, SetOf, ActionOk, I64Bytes;
    BundleMsgLength(a, p, h);
    BundleMsgLength(b, p, h);
    if a.Some? {
      var x, y := a.value, b.value;
      DigestsLength(h, BundleLeaves(x, p));
      DigestsLength(h, BundleLeaves(y, p));
      IsRight(Digests(h, BundleLeaves(x, p)), Joined(BundleTail(x, p)));
      IsRight(Digests(h, BundleLeaves(y, p)), Joined(BundleTail(y, p)));
      DigestsCommit(h, s, BundleLeaves(x, p), BundleLeaves(y, p));
      var l, m := BundleLeaves(x, p), BundleLeaves(y, p);
      assert l[0] == m[0] && l[1] == m[1] && l[2] == m[2];
      ActionsCommit(x.actions, y.actions);
      JoinedCommits(BundleTail(x, p), BundleTail(y, p), [1, 8, if p.anchorInId then 32 else 0]);
      var t, u := BundleTail(x, p), BundleTail(y, p);
      assert t[0][0] == u[0][0] && t[1] == u[1] && t[2] == u[2];
      I64BytesCommit(x.valueBalance, y.valueBalance);
    }
  }

  lemma BundleMsgLength(a: Option<RawBundle>, p: BundlePersonalisation, h: Hash)
    requires Is32(h)
    ensures BundleMsg(a, p, h) == [] <==> a.None?
  {
  }

  // ---- the whole transaction

  datatype Effecting = Effecting(
    version: Version, consensusBranchId: nat, lockTime: nat, expiryHeight: nat, transparent: Transparent,
    sapling: RawSapling, orchard: Option<RawBundle>, ironwood: Option<RawBundle>)

  /** Everything the id is meant to commit to; no script, proof or signature. */
  function EffectingData(tx: RawTransaction): Effecting {
    Effecting(tx.version, tx.consensusBranchId, tx.lockTime, tx.expiryHeight, EffectingTransparent(tx),
      EffectingSapling(tx.sapling, tx.version), EffectingBundle(tx.orchard, OrchardStrings(tx.version)),
      EffectingBundle(tx.ironwood, IRONWOOD_V6))
  }

  predicate Numbers(tx: RawTransaction) {
    tx.consensusBranchId < U32_SPAN && tx.lockTime < U32_SPAN && tx.expiryHeight < U32_SPAN
  }

  /** The shape the walk gives every v5 or v6 transaction. */
  predicate Walked(tx: RawTransaction) {
    && IsModern(tx.version) && Numbers(tx) && TransparentOk(tx) && SaplingOk(tx.sapling)
    && BundleShape(tx.orchard) && BundleShape(tx.ironwood) && (tx.version == V5 ==> tx.ironwood == None)
  }

  lemma KeptIsWalked(x: WireTransaction)
    requires WellFormed(x) && x.NewFormat?
    ensures Walked(Keep(x))
  {
    hide Encode, InputOk, OutputOk, SpendV5Ok, OutputV5Ok, ActionOk;
    var sapling := x.modern.sapling;
    assert SaplingV5Tail(sapling)[0] == sapling.anchor;
    assert |sapling.anchor| == SaplingTail(|sapling.spends|, |sapling.outputs|)[0];
  }

  lemma HeaderCommits(a: RawTransaction, b: RawTransaction)
    requires IsModern(a.version) && IsModern(b.version) && Numbers(a) && Numbers(b)
    requires Joined(HeaderParts(a)) == Joined(HeaderParts(b))
    ensures a.version == b.version && a.consensusBranchId == b.consensusBranchId
    ensures a.lockTime == b.lockTime && a.expiryHeight == b.expiryHeight
  {
    hide Joined, LeBytes;
    var x, y := HeaderParts(a), HeaderParts(b);
    JoinedCommits(x, y, [4, 4, 4, 4, 4]);
    assert x[0] == y[0] && x[2] == y[2] && x[3] == y[3] && x[4] == y[4];
    LeBytesCommit(a.version.HeaderWord(), b.version.HeaderWord());
    LeBytesCommit(a.consensusBranchId, b.consensusBranchId);
    LeBytesCommit(a.lockTime, b.lockTime);
    LeBytesCommit(a.expiryHeight, b.expiryHeight);
  }

  /** Equal ids of two walked transactions mean equal effecting data, unless the
      hash collides on something one of the two ids hashes. */
  lemma IdCommits(a: RawTransaction, b: RawTransaction, h: Hash)
    requires Is32(h) && Walked(a) && Walked(b)
    requires CollisionFree(h, Preimages(a, h) + Preimages(b, h))
    requires Zip244(a, h) == Zip244(b, h)
    ensures EffectingData(a) == EffectingData(b)
  {
    hide Digests, Joined, SetOf, TransparentMsg, SaplingMsg, BundleMsg, HeaderParts, TransparentLeaves,
      SaplingPreimages, BundlePreimages, SaplingOk, TransparentOk, BundleShape, EffectingTransparent, EffectingSapling,
      EffectingBundle, Personal;
    var s := Preimages(a, h) + Preimages(b, h);
    Collide(h, s, (Personal(a.consensusBranchId), Digests(h, RootLeaves(a, h))),
      (Personal(b.consensusBranchId), Digests(h, RootLeaves(b, h))));
    DigestsCommit(h, s, RootLeaves(a, h), RootLeaves(b, h));
    var l, m := RootLeaves(a, h), RootLeaves(b, h);
    assert l[0] == m[0] && l[1] == m[1] && l[2] == m[2] && l[3] == m[3];
    HeaderCommits(a, b);
    TransparentCommits(a, b, h, s);
    SaplingCommits(a.sapling, b.sapling, a.version, h, s);
    BundleCommits(a.orchard, b.orchard, OrchardStrings(a.version), h, s);
    if a.version == V6 {
      assert l[4] == m[4];
      BundleCommits(a.ironwood, b.ironwood, IRONWOOD_V6, h, s);
    }
  }

  /** The effecting data decides the id: scripts, proofs and signatures never do. */
  lemma EffectingDecidesId(a: RawTransaction, b: RawTransaction, h: Hash)
    requires Walked(a) && Walked(b) && EffectingData(a) == EffectingData(b)
    ensures Zip244(a, h) == Zip244(b, h)
  {
    hide Digests, Joined, Row, Encoded, SaplingOk, TransparentOk, BundleShape;
    SameRows(a.inputs, b.inputs);
    SameSapling(a.sapling, b.sapling, a.version, h);
    SameBundle(a.orchard, b.orchard, OrchardStrings(a.version), h);
    SameBundle(a.ironwood, b.ironwood, IRONWOOD_V6, h);
    assert |Mapped(a.inputs, Prevout)| == |Mapped(b.inputs, Prevout)|;
    assert HeaderParts(a) == HeaderParts(b);
    assert RootLeaves(a, h) == RootLeaves(b, h);
  }

  lemma SameRows(a: seq<RawInput>, b: seq<RawInput>)
    requires Mapped(a, Prevout) == Mapped(b, Prevout) && Mapped(a, SequenceOf) == Mapped(b, SequenceOf)
    ensures Row(a, PrevoutFields) == Row(b, PrevoutFields) && Row(a, SequenceFields) == Row(b, SequenceFields)
  {
    hide Encoded;
    assert |a| == |Mapped(a, Prevout)| == |Mapped(b, Prevout)|;
    forall i | 0 <= i < |a| ensures PrevoutFields(a[i]) == PrevoutFields(b[i]) && SequenceFields(a[i]) == SequenceFields(b[i]) {
      assert Mapped(a, Prevout)[i] == Mapped(b, Prevout)[i] && Mapped(a, SequenceOf)[i] == Mapped(b, SequenceOf)[i];
    }
    assert Mapped(a, PrevoutFields) == Mapped(b, PrevoutFields);
    assert Mapped(a, SequenceFields) == Mapped(b, SequenceFields);
  }

  lemma SameSapling(a: RawSapling, b: RawSapling, version: Version, h: Hash)
    requires EffectingSapling(a, version) == EffectingSapling(b, version)
    ensures SaplingMsg(a, version, h) == SaplingMsg(b, version, h)
  {
  }

  lemma SameBundle(a: Option<RawBundle>, b: Option<RawBundle>, p: BundlePersonalisation, h: Hash)
    requires EffectingBundle(a, p) == EffectingBundle(b, p)
    ensures BundleMsg(a, p, h) == BundleMsg(b, p, h)
  {
  }

  /** Two parsed v5 or v6 transactions have one id exactly when they agree on the
      effecting data. */
  lemma SameIdIff(x: WireTransaction, y: WireTransaction, h: Hash)
    requires WellFormed(x) && x.NewFormat? && WellFormed(y) && y.NewFormat?
    requires Is32(h) && CollisionFree(h, Preimages(Keep(x), h) + Preimages(Keep(y), h))
    ensures Zip244(Keep(x), h) == Zip244(Keep(y), h) <==> EffectingData(Keep(x)) == EffectingData(Keep(y))
  {
    hide WellFormed, Keep, Walked, Zip244, Preimages, EffectingData;
    KeptIsWalked(x);
    KeptIsWalked(y);
    if Zip244(Keep(x), h) == Zip244(Keep(y), h) {
      IdCommits(Keep(x), Keep(y), h);
    }
    if EffectingData(Keep(x)) == EffectingData(Keep(y)) {
      EffectingDecidesId(Keep(x), Keep(y), h);
    }
  }
}
