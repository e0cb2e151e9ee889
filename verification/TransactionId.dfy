/** The ZIP 244 transaction id as a tree of personalised hashes over field bytes,
    and what exactly it commits to. The hash is a parameter. */
module TransactionId {
  import opened Wrappers
  import opened ChainWorld
  import opened ByteInts
  import opened Slices
  import opened WireParsing
  import opened TransactionWire
  import opened TransactionReader

  /** A personalised 32-byte hash: personalisation, then message. */
  type Hash = (Bytes, Bytes) -> Bytes

  ghost predicate Is32(h: Hash) {
    forall p: Bytes, m: Bytes :: |h(p, m)| == 32
  }

  type Preimage = (Bytes, Bytes)

  /** No two of these preimages collide. */
  ghost predicate CollisionFree(h: Hash, s: set<Preimage>) {
    forall a, b :: a in s && b in s && h(a.0, a.1) == h(b.0, b.1) ==> a == b
  }

  function Ascii(s: string): (r: Bytes)
    ensures |r| == |s|
  {
    seq(|s|, i requires 0 <= i < |s| => s[i] as int % 256)
  }

  const TX_PREFIX: Bytes := Ascii("ZcashTxHash_")
  const HEADERS: Bytes := Ascii("ZTxIdHeadersHash")
  const TRANSPARENT: Bytes := Ascii("ZTxIdTranspaHash")
  const PREVOUTS: Bytes := Ascii("ZTxIdPrevoutHash")
  const SEQUENCE: Bytes := Ascii("ZTxIdSequencHash")
  const OUTPUTS: Bytes := Ascii("ZTxIdOutputsHash")
  const SAPLING: Bytes := Ascii("ZTxIdSaplingHash")
  const SAPLING_SPENDS: Bytes := Ascii("ZTxIdSSpendsHash")
  const SAPLING_SPENDS_COMPACT: Bytes := Ascii("ZTxIdSSpendCHash")
  const SAPLING_SPENDS_NONCOMPACT_V5: Bytes := Ascii("ZTxIdSSpendNHash")
  const SAPLING_SPENDS_NONCOMPACT_V6: Bytes := Ascii("ZTxIdSSpendNH_v6")
  const SAPLING_OUTPUTS: Bytes := Ascii("ZTxIdSOutputHash")
  const SAPLING_OUTPUTS_COMPACT: Bytes := Ascii("ZTxIdSOutC__Hash")
  const SAPLING_OUTPUTS_MEMOS: Bytes := Ascii("ZTxIdSOutM__Hash")
  const SAPLING_OUTPUTS_NONCOMPACT: Bytes := Ascii("ZTxIdSOutN__Hash")

  datatype BundlePersonalisation = BundlePersonalisation(
    bundle: Bytes, actionsCompact: Bytes, actionsMemos: Bytes, actionsNoncompact: Bytes, anchorInId: bool)

  const ORCHARD_V5: BundlePersonalisation := BundlePersonalisation(
    Ascii("ZTxIdOrchardHash"), Ascii("ZTxIdOrcActCHash"), Ascii("ZTxIdOrcActMHash"), Ascii("ZTxIdOrcActNHash"), true)
  const ORCHARD_V6: BundlePersonalisation := BundlePersonalisation(
    Ascii("ZTxIdOrchardH_v6"), Ascii("ZTxIdOrcActCHash"), Ascii("ZTxIdOrcActMHash"), Ascii("ZTxIdOrcActNHash"), false)
  const IRONWOOD_V6: BundlePersonalisation := BundlePersonalisation(
    Ascii("ZTxIdIronwd_H_v6"), Ascii("ZTxIdIrnActCH_v6"), Ascii("ZTxIdIrnActMH_v6"), Ascii("ZTxIdIrnActNH_v6"), false)

  const COMPACT_CIPHERTEXT: nat := 52
  const MEMO_END: nat := 564

  // ---- rows of fixed-size fields

  function Row<T>(items: seq<T>, fields: T -> seq<Bytes>): Bytes {
    Encoded(Mapped(items, fields), Joined)
  }

  predicate RowOk<T>(items: seq<T>, fields: T -> seq<Bytes>, sizes: seq<nat>) {
    forall i :: 0 <= i < |items| ==> Sized(fields(items[i]), sizes)
  }

  /** A row determines the fields of its items. */
  lemma RowCommits<T>(a: seq<T>, fa: T -> seq<Bytes>, b: seq<T>, fb: T -> seq<Bytes>, sizes: seq<nat>)
    requires RowOk(a, fa, sizes) && RowOk(b, fb, sizes) && Total(sizes) > 0
    requires Row(a, fa) == Row(b, fb)
    ensures |a| == |b| && forall i :: 0 <= i < |a| ==> fa(a[i]) == fb(b[i])
  {
    hide Joined, Sized, Encoded;
    FlatCommits(Mapped(a, fa), Mapped(b, fb), sizes);
    assert |a| == |Mapped(a, fa)| == |Mapped(b, fb)|;
    forall i | 0 <= i < |a| ensures fa(a[i]) == fb(b[i]) {
      assert Mapped(a, fa)[i] == fa(a[i]) && Mapped(b, fb)[i] == fb(b[i]);
    }
  }

  lemma {:induction false} FlatCommits(a: seq<seq<Bytes>>, b: seq<seq<Bytes>>, sizes: seq<nat>)
    requires forall i :: 0 <= i < |a| ==> Sized(a[i], sizes)
    requires forall i :: 0 <= i < |b| ==> Sized(b[i], sizes)
    requires Total(sizes) > 0 && Encoded(a, Joined) == Encoded(b, Joined)
    ensures a == b
    decreases |a|
  {
    hide Joined, Sized, Fields;
    if a == [] {
      if b != [] {
        JoinedLength(b[0], sizes);
      }
    } else {
      JoinedLength(a[0], sizes);
      assert b != [];
      var s, t := Encoded(a[1..], Joined), Encoded(b[1..], Joined);
      FieldsInvert(a[0], sizes, s);
      FieldsInvert(b[0], sizes, t);
      FlatCommits(a[1..], b[1..], sizes);
      assert a == [a[0]] + a[1..] && b == [b[0]] + b[1..];
    }
  }

  lemma RowGrows<T>(items: seq<T>, i: nat, fields: T -> seq<Bytes>)
    requires i < |items|
    ensures Row(items[..i + 1], fields) == Row(items[..i], fields) + Joined(fields(items[i]))
  {
    assert Mapped(items[..i + 1], fields) == Mapped(items[..i], fields) + [fields(items[i])];
    EncodedGrows(Mapped(items[..i], fields), fields(items[i]), Joined);
  }

  lemma {:induction false} EncodedGrows<T>(items: seq<T>, x: T, encode: T -> Bytes)
    ensures Encoded(items + [x], encode) == Encoded(items, encode) + encode(x)
    decreases |items|
  {
    if items == [] {
      assert [x][1..] == [];
      assert encode(x) + [] == encode(x);
    } else {
      EncodedGrows(items[1..], x, encode);
      assert (items + [x])[1..] == items[1..] + [x];
      Associates(encode(items[0]), Encoded(items[1..], encode), encode(x));
    }
  }

  /** A few fixed-size fields in a row determine each. */
  lemma JoinedCommits(a: seq<Bytes>, b: seq<Bytes>, sizes: seq<nat>)
    requires Sized(a, sizes) && Sized(b, sizes) && Joined(a) == Joined(b)
    ensures a == b
  {
    hide Joined, Sized, Fields;
    FieldsInvert(a, sizes, []);
    FieldsInvert(b, sizes, []);
  }

  lemma Collide(h: Hash, s: set<Preimage>, a: Preimage, b: Preimage)
    requires CollisionFree(h, s) && a in s && b in s && h(a.0, a.1) == h(b.0, b.1)
    ensures a == b
  {
  }

  // ---- the leaves' fields

  function Cut(b: Bytes, lo: nat, hi: nat): Bytes {
    if lo <= hi <= |b| then b[lo..hi] else []
  }

  function PrevoutFields(x: RawInput): seq<Bytes> {
    [x.prevoutHash, LeBytes(x.prevoutIndex, 4)]
  }

  function SequenceFields(x: RawInput): seq<Bytes> {
    [LeBytes(x.sequence, 4)]
  }

  function SpendCompact(x: RawSaplingSpend): seq<Bytes> {
    [x.nullifier]
  }

  /** The anchor stands beside every spend, when there is one to write (before v6). */
  function SpendNoncompact(anchor: Option<Bytes>): RawSaplingSpend -> seq<Bytes> {
    (x: RawSaplingSpend) => if anchor.Some? then [x.cv, anchor.value, x.rk] else [x.cv, x.rk]
  }

  function OutputCompact(x: RawSaplingOutput): seq<Bytes> {
    [x.cmu, x.ephemeralKey, Cut(x.encCiphertext, 0, COMPACT_CIPHERTEXT)]
  }

  function OutputMemo(x: RawSaplingOutput): seq<Bytes> {
    [Cut(x.encCiphertext, COMPACT_CIPHERTEXT, MEMO_END)]
  }

  function OutputNoncompact(x: RawSaplingOutput): seq<Bytes> {
    [x.cv, Cut(x.encCiphertext, MEMO_END, |x.encCiphertext|), x.outCiphertext]
  }

  function ActionCompact(x: RawAction): seq<Bytes> {
    [x.nullifier, x.cmx, x.ephemeralKey, Cut(x.encCiphertext, 0, COMPACT_CIPHERTEXT)]
  }

  function ActionMemo(x: RawAction): seq<Bytes> {
    [Cut(x.encCiphertext, COMPACT_CIPHERTEXT, MEMO_END)]
  }

  function ActionNoncompact(x: RawAction): seq<Bytes> {
    [x.cv, x.rk, Cut(x.encCiphertext, MEMO_END, |x.encCiphertext|), x.outCiphertext]
  }

  // ---- the tree, as messages

  function HeaderParts(tx: RawTransaction): seq<Bytes> {
    [LeBytes(tx.version.HeaderWord(), 4), LeBytes(tx.version.VersionGroupId(), 4), LeBytes(tx.consensusBranchId, 4),
     LeBytes(tx.lockTime, 4), LeBytes(tx.expiryHeight, 4)]
  }

  predicate NoTransparent(tx: RawTransaction) {
    tx.inputs == [] && tx.outputs == []
  }

  function TransparentLeaves(tx: RawTransaction): seq<Preimage> {
    [(PREVOUTS, Row(tx.inputs, PrevoutFields)), (SEQUENCE, Row(tx.inputs, SequenceFields)),
     (OUTPUTS, Encoded(tx.outputs, EncodeOutput))]
  }

  /** The digests of some preimages, one after another. */
  function Digests(h: Hash, leaves: seq<Preimage>): Bytes {
    Joined(Hashes(h, leaves))
  }

  function Hashes(h: Hash, leaves: seq<Preimage>): (r: seq<Bytes>)
    ensures |r| == |leaves| && forall i :: 0 <= i < |leaves| ==> r[i] == h(leaves[i].0, leaves[i].1)
  {
    seq(|leaves|, i requires 0 <= i < |leaves| => h(leaves[i].0, leaves[i].1))
  }

  function TransparentMsg(tx: RawTransaction, h: Hash): Bytes {
    if NoTransparent(tx) then [] else Digests(h, TransparentLeaves(tx))
  }

  function AnchorInId(sapling: RawSapling, version: Version): Option<Bytes> {
    if version == V6 then None else sapling.anchor
  }

  function SpendLeaves(sapling: RawSapling, version: Version): seq<Preimage> {
    [(SAPLING_SPENDS_COMPACT, Row(sapling.spends, SpendCompact)),
     (if version == V6 then SAPLING_SPENDS_NONCOMPACT_V6 else SAPLING_SPENDS_NONCOMPACT_V5,
      Row(sapling.spends, SpendNoncompact(AnchorInId(sapling, version))))]
  }

  function SpendsMsg(sapling: RawSapling, version: Version, h: Hash): Bytes {
    if sapling.spends == [] then [] else Digests(h, SpendLeaves(sapling, version))
  }

  function OutputLeaves(sapling: RawSapling): seq<Preimage> {
    [(SAPLING_OUTPUTS_COMPACT, Row(sapling.outputs, OutputCompact)), (SAPLING_OUTPUTS_MEMOS, Row(sapling.outputs, OutputMemo)),
     (SAPLING_OUTPUTS_NONCOMPACT, Row(sapling.outputs, OutputNoncompact))]
  }

  function OutputsMsg(sapling: RawSapling, h: Hash): Bytes {
    if sapling.outputs == [] then [] else Digests(h, OutputLeaves(sapling))
  }

  function SaplingMsg(sapling: RawSapling, version: Version, h: Hash): Bytes {
    if sapling.IsEmpty() then []
    else Joined([h(SAPLING_SPENDS, SpendsMsg(sapling, version, h)), h(SAPLING_OUTPUTS, OutputsMsg(sapling, h)),
                 I64Bytes(sapling.valueBalance)])
  }

  function BundleLeaves(x: RawBundle, p: BundlePersonalisation): seq<Preimage> {
    [(p.actionsCompact, Row(x.actions, ActionCompact)), (p.actionsMemos, Row(x.actions, ActionMemo)),
     (p.actionsNoncompact, Row(x.actions, ActionNoncompact))]
  }

  function BundleMsg(bundle: Option<RawBundle>, p: BundlePersonalisation, h: Hash): Bytes {
    match bundle
    case None => []
    case Some(x) =>
      Digests(h, BundleLeaves(x, p)) + Joined([[x.flags], I64Bytes(x.valueBalance), if p.anchorInId then x.anchor else []])
  }

  function Personal(branch: nat): Bytes {
    TX_PREFIX + LeBytes(branch, 4)
  }

  function RootLeaves(tx: RawTransaction, h: Hash): seq<Preimage> {
    [(HEADERS, Joined(HeaderParts(tx))), (TRANSPARENT, TransparentMsg(tx, h)), (SAPLING, SaplingMsg(tx.sapling, tx.version, h)),
     (OrchardStrings(tx.version).bundle, BundleMsg(tx.orchard, OrchardStrings(tx.version), h))] +
    if tx.version == V6 then [(IRONWOOD_V6.bundle, BundleMsg(tx.ironwood, IRONWOOD_V6, h))] else []
  }

  function OrchardStrings(version: Version): BundlePersonalisation {
    if version == V6 then ORCHARD_V6 else ORCHARD_V5
  }

  /** The v5 or v6 id. */
  function Zip244(tx: RawTransaction, h: Hash): Bytes {
    h(Personal(tx.consensusBranchId), Digests(h, RootLeaves(tx, h)))
  }

  // ---- every preimage the id hashes

  function SetOf(leaves: seq<Preimage>): set<Preimage> {
    set x | x in leaves
  }

  function SaplingPreimages(sapling: RawSapling, version: Version, h: Hash): set<Preimage> {
    if sapling.IsEmpty() then {}
    else
      {(SAPLING_SPENDS, SpendsMsg(sapling, version, h)), (SAPLING_OUTPUTS, OutputsMsg(sapling, h))} +
      (if sapling.spends == [] then {} else SetOf(SpendLeaves(sapling, version))) +
      (if sapling.outputs == [] then {} else SetOf(OutputLeaves(sapling)))
  }

  function BundlePreimages(bundle: Option<RawBundle>, p: BundlePersonalisation): set<Preimage> {
    if bundle.None? then {} else SetOf(BundleLeaves(bundle.value, p))
  }

  function Preimages(tx: RawTransaction, h: Hash): set<Preimage> {
    {(Personal(tx.consensusBranchId), Digests(h, RootLeaves(tx, h)))} + SetOf(RootLeaves(tx, h)) +
    (if NoTransparent(tx) then {} else SetOf(TransparentLeaves(tx))) +
    SaplingPreimages(tx.sapling, tx.version, h) +
    BundlePreimages(tx.orchard, OrchardStrings(tx.version)) +
    (if tx.version == V6 then BundlePreimages(tx.ironwood, IRONWOOD_V6) else {})
  }

  // ---- equal digests mean equal leaves

  /** Digests side by side are equal only preimage by preimage. */
  lemma DigestsCommit(h: Hash, s: set<Preimage>, a: seq<Preimage>, b: seq<Preimage>)
    requires Is32(h) && CollisionFree(h, s) && SetOf(a) <= s && SetOf(b) <= s
    requires Digests(h, a) == Digests(h, b)
    ensures a == b
  {
    hide Joined;
    var da, db := Hashes(h, a), Hashes(h, b);
    DigestsLength(h, a);
    DigestsLength(h, b);
    var sizes := seq(|a|, _ => 32);
    JoinedCommits(da, db, sizes);
    forall i | 0 <= i < |a| ensures a[i] == b[i] {
      assert da[i] == h(a[i].0, a[i].1) && db[i] == h(b[i].0, b[i].1);
      assert a[i] in SetOf(a) && b[i] in SetOf(b);
      Collide(h, s, a[i], b[i]);
    }
  }

  lemma DigestsLength(h: Hash, a: seq<Preimage>)
    requires Is32(h)
    ensures |Digests(h, a)| == 32 * |a|
  {
    hide Joined, Total;
    var sizes := seq(|a|, _ => 32);
    JoinedLength(Hashes(h, a), sizes);
    TotalOfHashes(|a|);
  }

  lemma {:induction false} TotalOfHashes(n: nat)
    ensures Total(seq(n, _ => 32)) == 32 * n
    decreases n
  {
    if n > 0 {
      TotalOfHashes(n - 1);
      assert seq(n, _ => 32)[1..] == seq(n - 1, _ => 32);
    }
  }

  // ---- what the id commits to

  /** The effecting fields of the transparent part. */
  datatype Transparent = Transparent(prevouts: seq<(Bytes, nat)>, sequences: seq<nat>, outputs: seq<RawOutput>)

  function Prevout(x: RawInput): (Bytes, nat) {
    (x.prevoutHash, x.prevoutIndex)
  }

  function SequenceOf(x: RawInput): nat {
    x.sequence
  }

  function EffectingTransparent(tx: RawTransaction): Transparent {
    Transparent(Mapped(tx.inputs, Prevout), Mapped(tx.inputs, SequenceOf), tx.outputs)
  }

  predicate TransparentOk(tx: RawTransaction) {
    && (forall i :: 0 <= i < |tx.inputs| ==> InputOk(tx.inputs[i]))
    && (forall i :: 0 <= i < |tx.outputs| ==> OutputOk(tx.outputs[i]))
  }

  lemma LeBytesCommit(m: nat, n: nat)
    requires m < U32_SPAN && n < U32_SPAN && LeBytes(m, 4) == LeBytes(n, 4)
    ensures m == n
  {
    hide LeBytes, FromLe;
    WordSizes();
    FromLeInverts(m, 4);
    FromLeInverts(n, 4);
  }

  lemma {:induction false} OutputsCommit(a: seq<RawOutput>, b: seq<RawOutput>)
    requires forall i :: 0 <= i < |a| ==> OutputOk(a[i])
    requires forall i :: 0 <= i < |b| ==> OutputOk(b[i])
    requires Encoded(a, EncodeOutput) == Encoded(b, EncodeOutput)
    ensures a == b
    decreases |a|
  {
    hide ReadOutput, EncodeOutput, OutputOk;
    OutputInverts();
    assert b != [] ==> OutputOk(b[0]) && |EncodeOutput(b[0])| >= MIN_OUTPUT;
    if a != [] {
      assert |EncodeOutput(a[0])| >= MIN_OUTPUT;
      assert b != [];
      var s, t := Encoded(a[1..], EncodeOutput), Encoded(b[1..], EncodeOutput);
      assert ReadOutput(EncodeOutput(a[0]) + s) == Ok((a[0], s));
      assert ReadOutput(EncodeOutput(b[0]) + t) == Ok((b[0], t));
      OutputsCommit(a[1..], b[1..]);
      assert a == [a[0]] + a[1..] && b == [b[0]] + b[1..];
    }
  }

  lemma InputsCommit(a: seq<RawInput>, b: seq<RawInput>)
    requires forall i :: 0 <= i < |a| ==> InputOk(a[i])
    requires forall i :: 0 <= i < |b| ==> InputOk(b[i])
    requires Row(a, PrevoutFields) == Row(b, PrevoutFields) && Row(a, SequenceFields) == Row(b, SequenceFields)
    ensures Mapped(a, Prevout) == Mapped(b, Prevout) && Mapped(a, SequenceOf) == Mapped(b, SequenceOf)
  {
    hide LeBytes, Row;
    RowCommits(a, PrevoutFields, b, PrevoutFields, [32, 4]);
    RowCommits(a, SequenceFields, b, SequenceFields, [4]);
    forall i | 0 <= i < |a| ensures Prevout(a[i]) == Prevout(b[i]) && SequenceOf(a[i]) == SequenceOf(b[i]) {
      assert PrevoutFields(a[i])[0] == PrevoutFields(b[i])[0] && PrevoutFields(a[i])[1] == PrevoutFields(b[i])[1];
      assert SequenceFields(a[i])[0] == SequenceFields(b[i])[0];
      LeBytesCommit(a[i].prevoutIndex, b[i].prevoutIndex);
      LeBytesCommit(a[i].sequence, b[i].sequence);
    }
  }

  lemma TransparentCommits(a: RawTransaction, b: RawTransaction, h: Hash, s: set<Preimage>)
    requires Is32(h) && CollisionFree(h, s) && TransparentOk(a) && TransparentOk(b)
    requires NoTransparent(a) || SetOf(TransparentLeaves(a)) <= s
    requires NoTransparent(b) || SetOf(TransparentLeaves(b)) <= s
    requires TransparentMsg(a, h) == TransparentMsg(b, h)
    ensures EffectingTransparent(a) == EffectingTransparent(b)
  {
    hide Digests, Row, Encoded, SetOf;
    DigestsLength(h, TransparentLeaves(a));
    DigestsLength(h, TransparentLeaves(b));
    if !NoTransparent(a) {
      DigestsCommit(h, s, TransparentLeaves(a), TransparentLeaves(b));
      assert TransparentLeaves(a)[0] == TransparentLeaves(b)[0] && TransparentLeaves(a)[1] == TransparentLeaves(b)[1];
      assert TransparentLeaves(a)[2] == TransparentLeaves(b)[2];
      InputsCommit(a.inputs, b.inputs);
      OutputsCommit(a.outputs, b.outputs);
    }
  }

  // ---- Sapling

  predicate SaplingOk(x: RawSapling) {
    && (forall i :: 0 <= i < |x.spends| ==> SpendV5Ok(x.spends[i]))
    && (forall i :: 0 <= i < |x.outputs| ==> OutputV5Ok(x.outputs[i]))
    && (x.IsEmpty() ==> x.valueBalance == 0)
    && (x.anchor.Some? <==> x.spends != []) && (x.anchor.Some? ==> |x.anchor.value| == 32)
  }

  /** The bundle without an anchor the id leaves out. */
  function EffectingSapling(x: RawSapling, version: Version): RawSapling {
    x.(anchor := AnchorInId(x, version))
  }

  lemma SpendFields(x: RawSaplingSpend)
    requires SpendV5Ok(x)
    ensures |x.cv| == 32 && |x.nullifier| == 32 && |x.rk| == 32
  {
    assert SpendV5Fields(x)[0] == x.cv && SpendV5Fields(x)[1] == x.nullifier && SpendV5Fields(x)[2] == x.rk;
  }

  lemma OutputFields(x: RawSaplingOutput)
    requires OutputV5Ok(x)
    ensures |x.cv| == 32 && |x.cmu| == 32 && |x.ephemeralKey| == 32 && |x.encCiphertext| == 580
    ensures |x.outCiphertext| == 80
  {
    assert OutputV5Fields(x)[0] == x.cv && OutputV5Fields(x)[1] == x.cmu && OutputV5Fields(x)[2] == x.ephemeralKey;
    assert OutputV5Fields(x)[3] == x.encCiphertext && OutputV5Fields(x)[4] == x.outCiphertext;
  }

  lemma SpendRowsOk(x: RawSapling, version: Version)
    requires SaplingOk(x)
    ensures RowOk(x.spends, SpendCompact, [32])
    ensures RowOk(x.spends, SpendNoncompact(AnchorInId(x, version)), if version == V6 then [32, 32] else [32, 32, 32])
  {
    forall i | 0 <= i < |x.spends| ensures |x.spends[i].cv| == 32 && |x.spends[i].nullifier| == 32 && |x.spends[i].rk| == 32 {
      SpendFields(x.spends[i]);
    }
  }

  lemma Widths()
    ensures Total([32]) > 0 && Total([32, 32]) > 0 && Total([32, 32, 32]) > 0 && Total([512]) > 0
    ensures Total([32, 32, 52]) > 0 && Total([32, 16, 80]) > 0 && Total([32, 32, 32, 52]) > 0
    ensures Total([32, 32, 16, 80]) > 0
  {
  }

  lemma SpendsCommit(a: RawSapling, b: RawSapling, version: Version, h: Hash, s: set<Preimage>)
    requires Is32(h) && CollisionFree(h, s) && SaplingOk(a) && SaplingOk(b)
    requires a.spends == [] || SetOf(SpendLeaves(a, version)) <= s
    requires b.spends == [] || SetOf(SpendLeaves(b, version)) <= s
    requires SpendsMsg(a, version, h) == SpendsMsg(b, version, h)
    ensures a.spends == b.spends && AnchorInId(a, version) == AnchorInId(b, version)
  {
    hide Digests, Row, SetOf, SpendV5Ok, OutputV5Ok, RowOk, Total;
    DigestsLength(h, SpendLeaves(a, version));
    DigestsLength(h, SpendLeaves(b, version));
    if a.spends != [] {
      DigestsCommit(h, s, SpendLeaves(a, version), SpendLeaves(b, version));
      assert SpendLeaves(a, version)[0] == SpendLeaves(b, version)[0] && SpendLeaves(a, version)[1] == SpendLeaves(b, version)[1];
      SpendRowsOk(a, version);
      SpendRowsOk(b, version);
      Widths();
      SpendRowsCommit(a.spends, AnchorInId(a, version), b.spends, AnchorInId(b, version));
    }
  }

  lemma SpendRowsCommit(a: seq<RawSaplingSpend>, aa: Option<Bytes>, b: seq<RawSaplingSpend>, ba: Option<Bytes>)
    requires a != [] && aa.Some? == ba.Some?
    requires RowOk(a, SpendCompact, [32]) && RowOk(b, SpendCompact, [32])
    requires
      var sizes := if aa.Some? then [32, 32, 32] else [32, 32];
      RowOk(a, SpendNoncompact(aa), sizes) && RowOk(b, SpendNoncompact(ba), sizes)
    requires Row(a, SpendCompact) == Row(b, SpendCompact) && Row(a, SpendNoncompact(aa)) == Row(b, SpendNoncompact(ba))
    ensures a == b && aa == ba
  {
    hide Row, RowOk, Total;
    Widths();
    RowCommits(a, SpendCompact, b, SpendCompact, [32]);
    RowCommits(a, SpendNoncompact(aa), b, SpendNoncompact(ba), if aa.Some? then [32, 32, 32] else [32, 32]);
    forall i | 0 <= i < |a| ensures a[i] == b[i] && aa == ba {
      assert SpendCompact(a[i])[0] == SpendCompact(b[i])[0];
      var x, y := SpendNoncompact(aa)(a[i]), SpendNoncompact(ba)(b[i]);
      assert x[0] == y[0] && x[1] == y[1] && (aa.Some? ==> x[2] == y[2]);
    }
    assert a[0] == b[0];
  }

  lemma OutputRowsOk(x: RawSapling)
    requires SaplingOk(x)
    ensures RowOk(x.outputs, OutputCompact, [32, 32, 52]) && RowOk(x.outputs, OutputMemo, [512])
    ensures RowOk(x.outputs, OutputNoncompact, [32, 16, 80])
  {
    hide OutputV5Ok, SpendV5Ok;
    forall i | 0 <= i < |x.outputs|
      ensures Sized(OutputCompact(x.outputs[i]), [32, 32, 52]) && Sized(OutputMemo(x.outputs[i]), [512])
      ensures Sized(OutputNoncompact(x.outputs[i]), [32, 16, 80])
    {
      OutputFields(x.outputs[i]);
    }
  }

  lemma OutputsDigestCommits(a: RawSapling, b: RawSapling, h: Hash, s: set<Preimage>)
    requires Is32(h) && CollisionFree(h, s) && SaplingOk(a) && SaplingOk(b)
    requires a.outputs == [] || SetOf(OutputLeaves(a)) <= s
    requires b.outputs == [] || SetOf(OutputLeaves(b)) <= s
    requires OutputsMsg(a, h) == OutputsMsg(b, h)
    ensures a.outputs == b.outputs
  {
    hide Digests, Row, SetOf, RowOk, Total, Cut, SpendV5Ok, OutputV5Ok;
    DigestsLength(h, OutputLeaves(a));
    DigestsLength(h, OutputLeaves(b));
    if a.outputs != [] {
      DigestsCommit(h, s, OutputLeaves(a), OutputLeaves(b));
      assert OutputLeaves(a)[0] == OutputLeaves(b)[0] && OutputLeaves(a)[1] == OutputLeaves(b)[1];
      assert OutputLeaves(a)[2] == OutputLeaves(b)[2];
      OutputRowsOk(a);
      OutputRowsOk(b);
      Widths();
      RowCommits(a.outputs, OutputCompact, b.outputs, OutputCompact, [32, 32, 52]);
      RowCommits(a.outputs, OutputMemo, b.outputs, OutputMemo, [512]);
      RowCommits(a.outputs, OutputNoncompact, b.outputs, OutputNoncompact, [32, 16, 80]);
      forall i | 0 <= i < |a.outputs| ensures a.outputs[i] == b.outputs[i] {
        OutputFields(a.outputs[i]);
        OutputFields(b.outputs[i]);
        OutputCommits(a.outputs[i], b.outputs[i]);
      }
    }
  }

  lemma OutputCommits(x: RawSaplingOutput, y: RawSaplingOutput)
    requires |x.encCiphertext| == 580 && |y.encCiphertext| == 580
    requires OutputCompact(x) == OutputCompact(y) && OutputMemo(x) == OutputMemo(y)
    requires OutputNoncompact(x) == OutputNoncompact(y)
    ensures x == y
  {
  }

  lemma I64BytesCommit(x: I64, y: I64)
    requires I64Bytes(x) == I64Bytes(y)
    ensures x == y
  {
    hide I64Bytes, I64Of;
    I64Inverts(x);
    I64Inverts(y);
  }

  lemma SaplingCommits(a: RawSapling, b: RawSapling, version: Version, h: Hash, s: set<Preimage>)
    requires Is32(h) && CollisionFree(h, s) && SaplingOk(a) && SaplingOk(b)
    requires SaplingPreimages(a, version, h) <= s && SaplingPreimages(b, version, h) <= s
    requires SaplingMsg(a, version, h) == SaplingMsg(b, version, h)
    ensures EffectingSapling(a, version) == EffectingSapling(b, version)
  {
    hide Joined, SpendsMsg, OutputsMsg, SetOf, SpendV5Ok, OutputV5Ok, SpendLeaves, OutputLeaves, I64Bytes;
    SaplingParts(a, version, h);
    SaplingParts(b, version, h);
    if !a.IsEmpty() {
      var x := [h(SAPLING_SPENDS, SpendsMsg(a, version, h)), h(SAPLING_OUTPUTS, OutputsMsg(a, h)), I64Bytes(a.valueBalance)];
      var y := [h(SAPLING_SPENDS, SpendsMsg(b, version, h)), h(SAPLING_OUTPUTS, OutputsMsg(b, h)), I64Bytes(b.valueBalance)];
      JoinedCommits(x, y, [32, 32, 8]);
      assert x[0] == y[0] && x[1] == y[1] && x[2] == y[2];
      Collide(h, s, (SAPLING_SPENDS, SpendsMsg(a, version, h)), (SAPLING_SPENDS, SpendsMsg(b, version, h)));
      Collide(h, s, (SAPLING_OUTPUTS, OutputsMsg(a, h)), (SAPLING_OUTPUTS, OutputsMsg(b, h)));
      SpendsCommit(a, b, version, h, s);
      OutputsDigestCommits(a, b, h, s);
      I64BytesCommit(a.valueBalance, b.valueBalance);
    }
  }

  /** A Sapling message is empty exactly when the bundle is. */
  lemma SaplingParts(a: RawSapling, version: Version, h: Hash)
    requires Is32(h)
    ensures SaplingMsg(a, version, h) == [] <==> a.IsEmpty()
  {
  }
}
