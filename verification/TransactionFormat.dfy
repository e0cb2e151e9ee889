/** Whole transactions on the wire: the bundles, the v1-v4 and v5-v6 layouts and
    the version word that chooses between them. */
module TransactionFormat {
  import opened Wrappers
  import opened ChainWorld
  import opened ByteInts
  import opened Slices
  import opened WireParsing
  import opened TransactionWire

  // ---- Orchard-shaped bundles

  datatype Bundle =
    | NoBundle
    | Bundle(actions: seq<RawAction>, flags: Byte, valueBalance: I64, anchor: Bytes, proof: Bytes, auths: Bytes, bindingSig: Bytes)

  function ParseBundle(s: Bytes): Parsed<Bundle> {
    var (actions, rest) :- Vector(s, ORCHARD_ACTION, ReadAction);
    if actions == [] then Ok((NoBundle, rest))
    else
      var (flags, rest) :- U8(rest);
      var (balance, rest) :- SignedLe(rest);
      var (anchor, rest) :- Take(rest, 32);
      var (proof, rest) :- VarBytes(rest);
      var (auths, rest) :- Take(rest, |actions| * SIGNATURE);
      var (sig, rest) :- Take(rest, SIGNATURE);
      Ok((Bundle(actions, flags, balance, anchor, proof, auths, sig), rest))
  }

  function EncodeBundle(x: Bundle): Bytes {
    match x
    case NoBundle => VectorBytes([], EncodeAction)
    case Bundle(actions, flags, balance, anchor, proof, auths, sig) =>
      VectorBytes(actions, EncodeAction) + ([flags] + (I64Bytes(balance) + (anchor + (VarEncoded(proof) + (auths + sig)))))
  }

  predicate BundleOk(x: Bundle) {
    x.Bundle? ==>
      && x.actions != [] && AllOk(x.actions, ActionOk) && |x.anchor| == 32 && |x.proof| <= MAX_COMPACT_SIZE
      && |x.auths| == |x.actions| * SIGNATURE && |x.bindingSig| == SIGNATURE
  }

  lemma BundleReads(x: Bundle, t: Bytes)
    requires BundleOk(x)
    ensures ParseBundle(EncodeBundle(x) + t) == Ok((x, t))
  {
    hide Vector, VectorBytes, U8, SignedLe, I64Bytes, Take, VarBytes, VarEncoded, AllOk, Inverts;
    ActionInverts();
    match x
    case NoBundle =>
      NoneOk(ActionOk);
      VectorInverts([], ORCHARD_ACTION, ReadAction, EncodeAction, ActionOk, t);
    case Bundle(actions, flags, balance, anchor, proof, auths, sig) =>
      var a, b, p := VectorBytes(actions, EncodeAction), I64Bytes(balance), VarEncoded(proof);
      Associates(a, [flags] + (b + (anchor + (p + (auths + sig)))), t);
      Associates([flags], b + (anchor + (p + (auths + sig))), t);
      Associates(b, anchor + (p + (auths + sig)), t);
      Associates(anchor, p + (auths + sig), t);
      Associates(p, auths + sig, t);
      Associates(auths, sig, t);
      var t5 := auths + (sig + t);
      var t4 := anchor + (p + t5);
      VectorInverts(actions, ORCHARD_ACTION, ReadAction, EncodeAction, ActionOk, [flags] + (b + t4));
      U8Inverts(flags, b + t4);
      SignedInverts(balance, t4);
      TakeInverts(anchor, p + t5);
      VarInverts(proof, t5);
      TakeInverts(auths, sig + t);
      TakeInverts(sig, t);
  }

  lemma NoneOk<T>(ok: T -> bool)
    ensures AllOk([], ok)
  {
  }

  lemma BundleEncodes(s: Bytes)
    ensures ParseBundle(s).Ok? ==>
      BundleOk(ParseBundle(s).value.0) && s == EncodeBundle(ParseBundle(s).value.0) + ParseBundle(s).value.1
  {
    hide Vector, VectorBytes, U8, SignedLe, I64Bytes, Take, VarBytes, VarEncoded, AllOk, Inverts;
    ActionInverts();
    VectorSplits(s, ORCHARD_ACTION, ReadAction, EncodeAction, ActionOk);
    if ParseBundle(s).Ok? && ParseBundle(s).value.0.Bundle? {
      var (actions, s1) := Vector(s, ORCHARD_ACTION, ReadAction).value;
      U8Splits(s1);
      var (flags, s2) := U8(s1).value;
      SignedSplits(s2);
      var (balance, s3) := SignedLe(s2).value;
      TakeSplits(s3, 32);
      var (anchor, s4) := Take(s3, 32).value;
      VarSplits(s4);
      var (proof, s5) := VarBytes(s4).value;
      TakeSplits(s5, |actions| * SIGNATURE);
      var (auths, s6) := Take(s5, |actions| * SIGNATURE).value;
      TakeSplits(s6, SIGNATURE);
      var (sig, s7) := Take(s6, SIGNATURE).value;
      var a, b, p := VectorBytes(actions, EncodeAction), I64Bytes(balance), VarEncoded(proof);
      Associates(a, [flags] + (b + (anchor + (p + (auths + sig)))), s7);
      Associates([flags], b + (anchor + (p + (auths + sig))), s7);
      Associates(b, anchor + (p + (auths + sig)), s7);
      Associates(anchor, p + (auths + sig), s7);
      Associates(p, auths + sig, s7);
      Associates(auths, sig, s7);
    }
  }

  // ---- JoinSplits

  /** Stepped over whole: the descriptions, then the key and signature if any. */
  datatype JoinSplits = JoinSplits(count: nat, descriptions: Bytes, keyAndSig: Bytes)

  function JoinSplitSize(groth: bool): nat {
    JOINSPLIT_WITHOUT_PROOF + if groth then GROTH_PROOF else PHGR_PROOF
  }

  function JoinSplitTail(count: nat, groth: bool): seq<nat> {
    [count * JoinSplitSize(groth), When(count > 0, 32 + SIGNATURE)]
  }

  function ParseJoinSplits(s: Bytes, groth: bool): Parsed<JoinSplits> {
    var (count, rest) :- CompactSize(s);
    var (f, rest) :- Fields(rest, JoinSplitTail(count, groth));
    Ok((JoinSplits(count, f[0], f[1]), rest))
  }

  function EncodeJoinSplits(x: JoinSplits): Bytes {
    CompactBytes(x.count) + Joined([x.descriptions, x.keyAndSig])
  }

  predicate JoinSplitsOk(x: JoinSplits, groth: bool) {
    x.count <= MAX_COMPACT_SIZE && Sized([x.descriptions, x.keyAndSig], JoinSplitTail(x.count, groth))
  }

  lemma JoinSplitsRead(x: JoinSplits, groth: bool, t: Bytes)
    requires JoinSplitsOk(x, groth)
    ensures ParseJoinSplits(EncodeJoinSplits(x) + t, groth) == Ok((x, t))
  {
    hide CompactSize, CompactBytes, Fields, Joined, Sized, JoinSplitTail;
    var f := [x.descriptions, x.keyAndSig];
    Associates(CompactBytes(x.count), Joined(f), t);
    CompactInverts(x.count, Joined(f) + t);
    FieldsInvert(f, JoinSplitTail(x.count, groth), t);
  }

  lemma JoinSplitsEncode(s: Bytes, groth: bool)
    ensures ParseJoinSplits(s, groth).Ok? ==>
      && JoinSplitsOk(ParseJoinSplits(s, groth).value.0, groth)
      && s == EncodeJoinSplits(ParseJoinSplits(s, groth).value.0) + ParseJoinSplits(s, groth).value.1
  {
    hide CompactSize, CompactBytes, Fields, Joined, Sized;
    if ParseJoinSplits(s, groth).Ok? {
      CompactSplits(s);
      var (count, rest) := CompactSize(s).value;
      FieldsSplit(rest, JoinSplitTail(count, groth));
      FieldsCount(rest, JoinSplitTail(count, groth));
      var (f, end) := Fields(rest, JoinSplitTail(count, groth)).value;
      assert f == [f[0], f[1]];
      Associates(CompactBytes(count), Joined(f), end);
    }
  }

  // ---- v1 to v4

  datatype Legacy = Legacy(
    inputs: seq<RawInput>, outputs: seq<RawOutput>, lockTime: nat, expiryHeight: nat, sapling: SaplingV4,
    joinSplits: JoinSplits, bindingSig: Bytes)

  const NO_SAPLING: SaplingV4 := SaplingV4(0, [], [])
  const NO_JOINSPLITS: JoinSplits := JoinSplits(0, [], [])

  function OptU32(s: Bytes, present: bool): Parsed<nat> {
    if present then U32(s) else Ok((0, s))
  }

  function OptU32Bytes(n: nat, present: bool): Bytes {
    if present then LeBytes(n, 4) else []
  }

  function OptSapling(s: Bytes, present: bool): Parsed<SaplingV4> {
    if present then ParseSaplingV4(s) else Ok((NO_SAPLING, s))
  }

  function OptSaplingBytes(x: SaplingV4, present: bool): Bytes {
    if present then EncodeSaplingV4(x) else []
  }

  function OptJoinSplits(s: Bytes, present: bool, groth: bool): Parsed<JoinSplits> {
    if present then ParseJoinSplits(s, groth) else Ok((NO_JOINSPLITS, s))
  }

  function OptJoinSplitsBytes(x: JoinSplits, present: bool): Bytes {
    if present then EncodeJoinSplits(x) else []
  }

  predicate IsBound(version: Version, sapling: SaplingV4) {
    version == V4 && (sapling.spends != [] || sapling.outputs != [])
  }

  function ParseLegacy(s: Bytes, version: Version): Parsed<Legacy> {
    var (inputs, rest) :- Vector(s, MIN_INPUT, ReadInput);
    var (outputs, rest) :- Vector(rest, MIN_OUTPUT, ReadOutput);
    var (lockTime, rest) :- U32(rest);
    var (expiry, rest) :- OptU32(rest, !version.Sprout?);
    var (sapling, rest) :- OptSapling(rest, version == V4);
    var (joinSplits, rest) :- OptJoinSplits(rest, version.HasSprout(), version == V4);
    var (sig, rest) :- Take(rest, When(IsBound(version, sapling), SIGNATURE));
    Ok((Legacy(inputs, outputs, lockTime, expiry, sapling, joinSplits, sig), rest))
  }

  function EncodeLegacy(x: Legacy, version: Version): Bytes {
    VectorBytes(x.inputs, EncodeInput) + (VectorBytes(x.outputs, EncodeOutput) + (LeBytes(x.lockTime, 4) +
      EncodeLegacyTail(x, version)))
  }

  function EncodeLegacyTail(x: Legacy, version: Version): Bytes {
    OptU32Bytes(x.expiryHeight, !version.Sprout?) + (OptSaplingBytes(x.sapling, version == V4) +
      (OptJoinSplitsBytes(x.joinSplits, version.HasSprout()) + x.bindingSig))
  }

  predicate LegacyOk(x: Legacy, version: Version) {
    && AllOk(x.inputs, InputOk) && AllOk(x.outputs, OutputOk)
    && x.lockTime < U32_SPAN && LegacyTailOk(x, version)
  }

  predicate LegacyTailOk(x: Legacy, version: Version) {
    && (if version.Sprout? then x.expiryHeight == 0 else x.expiryHeight < U32_SPAN)
    && (if version == V4 then SaplingV4Ok(x.sapling) else x.sapling == NO_SAPLING)
    && (if version.HasSprout() then JoinSplitsOk(x.joinSplits, version == V4) else x.joinSplits == NO_JOINSPLITS)
    && |x.bindingSig| == When(IsBound(version, x.sapling), SIGNATURE)
  }

  lemma OptU32Inverts(n: nat, present: bool, t: Bytes)
    requires if present then n < U32_SPAN else n == 0
    ensures OptU32(OptU32Bytes(n, present) + t, present) == Ok((n, t))
  {
    hide U32, LeBytes;
    assert [] + t == t;
    if present {
      U32Inverts(n, t);
    }
  }

  lemma OptU32Splits(s: Bytes, present: bool)
    ensures OptU32(s, present).Ok? ==>
      var (n, rest) := OptU32(s, present).value;
      (if present then n < U32_SPAN else n == 0) && s == OptU32Bytes(n, present) + rest
  {
    hide U32, LeBytes;
    assert [] + s == s;
    U32Splits(s);
  }

  lemma OptSaplingInverts(x: SaplingV4, present: bool, t: Bytes)
    requires if present then SaplingV4Ok(x) else x == NO_SAPLING
    ensures OptSapling(OptSaplingBytes(x, present) + t, present) == Ok((x, t))
  {
    hide ParseSaplingV4, EncodeSaplingV4, SaplingV4Ok;
    assert [] + t == t;
    if present {
      SaplingV4Reads(x, t);
    }
  }

  lemma OptSaplingSplits(s: Bytes, present: bool)
    ensures OptSapling(s, present).Ok? ==>
      var (x, rest) := OptSapling(s, present).value;
      (if present then SaplingV4Ok(x) else x == NO_SAPLING) && s == OptSaplingBytes(x, present) + rest
  {
    hide ParseSaplingV4, EncodeSaplingV4, SaplingV4Ok;
    assert [] + s == s;
    SaplingV4Encodes(s);
  }

  lemma OptJoinSplitsInvert(x: JoinSplits, present: bool, groth: bool, t: Bytes)
    requires if present then JoinSplitsOk(x, groth) else x == NO_JOINSPLITS
    ensures OptJoinSplits(OptJoinSplitsBytes(x, present) + t, present, groth) == Ok((x, t))
  {
    hide ParseJoinSplits, EncodeJoinSplits, JoinSplitsOk;
    assert [] + t == t;
    if present {
      JoinSplitsRead(x, groth, t);
    }
  }

  lemma OptJoinSplitsSplit(s: Bytes, present: bool, groth: bool)
    ensures OptJoinSplits(s, present, groth).Ok? ==>
      var (x, rest) := OptJoinSplits(s, present, groth).value;
      (if present then JoinSplitsOk(x, groth) else x == NO_JOINSPLITS) && s == OptJoinSplitsBytes(x, present) + rest
  {
    hide ParseJoinSplits, EncodeJoinSplits, JoinSplitsOk;
    assert [] + s == s;
    JoinSplitsEncode(s, groth);
  }

  lemma LegacyReads(x: Legacy, version: Version, t: Bytes)
    requires LegacyOk(x, version)
    ensures ParseLegacy(EncodeLegacy(x, version) + t, version) == Ok((x, t))
  {
    hide Vector, VectorBytes, U32, LeBytes, OptU32, OptU32Bytes, OptSapling, OptSaplingBytes, OptJoinSplits,
      OptJoinSplitsBytes, Take, AllOk, Inverts, SaplingV4Ok, JoinSplitsOk;
    var i, o, l := VectorBytes(x.inputs, EncodeInput), VectorBytes(x.outputs, EncodeOutput), LeBytes(x.lockTime, 4);
    var e, p := OptU32Bytes(x.expiryHeight, !version.Sprout?), OptSaplingBytes(x.sapling, version == V4);
    var j, b := OptJoinSplitsBytes(x.joinSplits, version.HasSprout()), x.bindingSig;
    Associates(i, o + (l + (e + (p + (j + b)))), t);
    Associates(o, l + (e + (p + (j + b))), t);
    Associates(l, e + (p + (j + b)), t);
    Associates(e, p + (j + b), t);
    Associates(p, j + b, t);
    Associates(j, b, t);
    var tail := e + (p + (j + (b + t)));
    InputInverts();
    VectorInverts(x.inputs, MIN_INPUT, ReadInput, EncodeInput, InputOk, o + (l + tail));
    OutputInverts();
    VectorInverts(x.outputs, MIN_OUTPUT, ReadOutput, EncodeOutput, OutputOk, l + tail);
    U32Inverts(x.lockTime, tail);
    OptU32Inverts(x.expiryHeight, !version.Sprout?, p + (j + (b + t)));
    OptSaplingInverts(x.sapling, version == V4, j + (b + t));
    OptJoinSplitsInvert(x.joinSplits, version.HasSprout(), version == V4, b + t);
    TakeInverts(b, t);
  }

  lemma LegacyEncodes(s: Bytes, version: Version)
    ensures ParseLegacy(s, version).Ok? ==>
      var (x, rest) := ParseLegacy(s, version).value;
      LegacyOk(x, version) && s == EncodeLegacy(x, version) + rest
  {
    hide Vector, VectorBytes, U32, LeBytes, OptU32, OptU32Bytes, OptSapling, OptSaplingBytes, OptJoinSplits,
      OptJoinSplitsBytes, Take, AllOk, Inverts, SaplingV4Ok, JoinSplitsOk;
    if ParseLegacy(s, version).Ok? {
      InputInverts();
      VectorSplits(s, MIN_INPUT, ReadInput, EncodeInput, InputOk);
      var (inputs, s1) := Vector(s, MIN_INPUT, ReadInput).value;
      OutputInverts();
      VectorSplits(s1, MIN_OUTPUT, ReadOutput, EncodeOutput, OutputOk);
      var (outputs, s2) := Vector(s1, MIN_OUTPUT, ReadOutput).value;
      U32Splits(s2);
      var (lockTime, s3) := U32(s2).value;
      OptU32Splits(s3, !version.Sprout?);
      var (expiry, s4) := OptU32(s3, !version.Sprout?).value;
      OptSaplingSplits(s4, version == V4);
      var (sapling, s5) := OptSapling(s4, version == V4).value;
      OptJoinSplitsSplit(s5, version.HasSprout(), version == V4);
      var (joinSplits, s6) := OptJoinSplits(s5, version.HasSprout(), version == V4).value;
      var n := When(IsBound(version, sapling), SIGNATURE);
      TakeSplits(s6, n);
      var (b, s7) := Take(s6, n).value;
      var i, o, l := VectorBytes(inputs, EncodeInput), VectorBytes(outputs, EncodeOutput), LeBytes(lockTime, 4);
      var e, p := OptU32Bytes(expiry, !version.Sprout?), OptSaplingBytes(sapling, version == V4);
      var j := OptJoinSplitsBytes(joinSplits, version.HasSprout());
      Associates(i, o + (l + (e + (p + (j + b)))), s7);
      Associates(o, l + (e + (p + (j + b))), s7);
      Associates(l, e + (p + (j + b)), s7);
      Associates(e, p + (j + b), s7);
      Associates(p, j + b, s7);
      Associates(j, b, s7);
    }
  }

  // ---- v5 and v6

  datatype Modern = Modern(
    consensusBranchId: nat, lockTime: nat, expiryHeight: nat, inputs: seq<RawInput>, outputs: seq<RawOutput>,
    sapling: SaplingV5, orchard: Bundle, ironwood: Bundle)

  function OptBundle(s: Bytes, present: bool): Parsed<Bundle> {
    if present then ParseBundle(s) else Ok((NoBundle, s))
  }

  function OptBundleBytes(x: Bundle, present: bool): Bytes {
    if present then EncodeBundle(x) else []
  }

  function ParseModern(s: Bytes, withIronwood: bool): Parsed<Modern> {
    var (branch, rest) :- U32(s);
    var (lockTime, rest) :- U32(rest);
    var (expiry, rest) :- U32(rest);
    var (inputs, rest) :- Vector(rest, MIN_INPUT, ReadInput);
    var (outputs, rest) :- Vector(rest, MIN_OUTPUT, ReadOutput);
    var (sapling, rest) :- ParseSaplingV5(rest);
    var (orchard, rest) :- ParseBundle(rest);
    var (ironwood, rest) :- OptBundle(rest, withIronwood);
    Ok((Modern(branch, lockTime, expiry, inputs, outputs, sapling, orchard, ironwood), rest))
  }

  function EncodeModern(x: Modern, withIronwood: bool): Bytes {
    LeBytes(x.consensusBranchId, 4) + (LeBytes(x.lockTime, 4) + (LeBytes(x.expiryHeight, 4) +
      (VectorBytes(x.inputs, EncodeInput) + (VectorBytes(x.outputs, EncodeOutput) +
        (EncodeSaplingV5(x.sapling) + (EncodeBundle(x.orchard) + OptBundleBytes(x.ironwood, withIronwood)))))))
  }

  predicate ModernOk(x: Modern, withIronwood: bool) {
    && x.consensusBranchId < U32_SPAN && x.lockTime < U32_SPAN && x.expiryHeight < U32_SPAN
    && AllOk(x.inputs, InputOk) && AllOk(x.outputs, OutputOk)
    && SaplingV5Ok(x.sapling) && BundleOk(x.orchard)
    && (if withIronwood then BundleOk(x.ironwood) else x.ironwood == NoBundle)
  }

  lemma OptBundleInverts(x: Bundle, present: bool, t: Bytes)
    requires if present then BundleOk(x) else x == NoBundle
    ensures OptBundle(OptBundleBytes(x, present) + t, present) == Ok((x, t))
  {
    hide ParseBundle, EncodeBundle, BundleOk;
    assert [] + t == t;
    if present {
      BundleReads(x, t);
    }
  }

  lemma OptBundleSplits(s: Bytes, present: bool)
    ensures OptBundle(s, present).Ok? ==>
      var (x, rest) := OptBundle(s, present).value;
      (if present then BundleOk(x) else x == NoBundle) && s == OptBundleBytes(x, present) + rest
  {
    hide ParseBundle, EncodeBundle, BundleOk;
    assert [] + s == s;
    BundleEncodes(s);
  }

  lemma ModernReads(x: Modern, withIronwood: bool, t: Bytes)
    requires ModernOk(x, withIronwood)
    ensures ParseModern(EncodeModern(x, withIronwood) + t, withIronwood) == Ok((x, t))
  {
    hide Vector, VectorBytes, U32, LeBytes, ParseSaplingV5, EncodeSaplingV5, SaplingV5Ok, ParseBundle, EncodeBundle,
      BundleOk, OptBundle, OptBundleBytes, AllOk, Inverts;
    var b, l, e := LeBytes(x.consensusBranchId, 4), LeBytes(x.lockTime, 4), LeBytes(x.expiryHeight, 4);
    var i, o, p := VectorBytes(x.inputs, EncodeInput), VectorBytes(x.outputs, EncodeOutput), EncodeSaplingV5(x.sapling);
    var r, w := EncodeBundle(x.orchard), OptBundleBytes(x.ironwood, withIronwood);
    Associates(b, l + (e + (i + (o + (p + (r + w))))), t);
    Associates(l, e + (i + (o + (p + (r + w)))), t);
    Associates(e, i + (o + (p + (r + w))), t);
    Associates(i, o + (p + (r + w)), t);
    Associates(o, p + (r + w), t);
    Associates(p, r + w, t);
    Associates(r, w, t);
    var body := i + (o + (p + (r + (w + t))));
    U32Inverts(x.consensusBranchId, l + (e + body));
    U32Inverts(x.lockTime, e + body);
    U32Inverts(x.expiryHeight, body);
    InputInverts();
    VectorInverts(x.inputs, MIN_INPUT, ReadInput, EncodeInput, InputOk, o + (p + (r + (w + t))));
    OutputInverts();
    VectorInverts(x.outputs, MIN_OUTPUT, ReadOutput, EncodeOutput, OutputOk, p + (r + (w + t)));
    SaplingV5Reads(x.sapling, r + (w + t));
    BundleReads(x.orchard, w + t);
    OptBundleInverts(x.ironwood, withIronwood, t);
  }

  lemma ModernEncodes(s: Bytes, withIronwood: bool)
    ensures ParseModern(s, withIronwood).Ok? ==>
      var (x, rest) := ParseModern(s, withIronwood).value;
      ModernOk(x, withIronwood) && s == EncodeModern(x, withIronwood) + rest
  {
    hide Vector, VectorBytes, U32, LeBytes, ParseSaplingV5, EncodeSaplingV5, SaplingV5Ok, ParseBundle, EncodeBundle,
      BundleOk, OptBundle, OptBundleBytes, AllOk, Inverts;
    if ParseModern(s, withIronwood).Ok? {
      U32Splits(s);
      var (branch, s1) := U32(s).value;
      U32Splits(s1);
      var (lockTime, s2) := U32(s1).value;
      U32Splits(s2);
      var (expiry, s3) := U32(s2).value;
      InputInverts();
      VectorSplits(s3, MIN_INPUT, ReadInput, EncodeInput, InputOk);
      var (inputs, s4) := Vector(s3, MIN_INPUT, ReadInput).value;
      OutputInverts();
      VectorSplits(s4, MIN_OUTPUT, ReadOutput, EncodeOutput, OutputOk);
      var (outputs, s5) := Vector(s4, MIN_OUTPUT, ReadOutput).value;
      SaplingV5Encodes(s5);
      var (sapling, s6) := ParseSaplingV5(s5).value;
      BundleEncodes(s6);
      var (orchard, s7) := ParseBundle(s6).value;
      OptBundleSplits(s7, withIronwood);
      var (ironwood, s8) := OptBundle(s7, withIronwood).value;
      var b, l, e := LeBytes(branch, 4), LeBytes(lockTime, 4), LeBytes(expiry, 4);
      var i, o, p := VectorBytes(inputs, EncodeInput), VectorBytes(outputs, EncodeOutput), EncodeSaplingV5(sapling);
      var r, w := EncodeBundle(orchard), OptBundleBytes(ironwood, withIronwood);
      Associates(b, l + (e + (i + (o + (p + (r + w))))), s8);
      Associates(l, e + (i + (o + (p + (r + w)))), s8);
      Associates(e, i + (o + (p + (r + w))), s8);
      Associates(i, o + (p + (r + w)), s8);
      Associates(o, p + (r + w), s8);
      Associates(p, r + w, s8);
      Associates(r, w, s8);
    }
  }

  // ---- whole transactions

  datatype WireTransaction =
    | OldFormat(version: Version, legacy: Legacy)
    | NewFormat(version: Version, modern: Modern)

  /** The version word, its top bit announcing a version group that must match. */
  function ParseVersion(s: Bytes): Parsed<Version> {
    var (header, rest) :- U32(s);
    if header >= OVERWINTER_FLAG then
      var (group, rest) :- U32(rest);
      var number := header - OVERWINTER_FLAG;
      if number == 3 && group == V3.VersionGroupId() then Ok((V3, rest))
      else if number == 4 && group == V4.VersionGroupId() then Ok((V4, rest))
      else if number == 5 && group == V5.VersionGroupId() then Ok((V5, rest))
      else if number == 6 && group == V6.VersionGroupId() then Ok((V6, rest))
      else Err(UnknownTransactionVersion(header, Some(group)))
    else if header == 1 || header == 2 then Ok((Sprout(header), rest))
    else Err(UnknownTransactionVersion(header, None))
  }

  function EncodeVersion(v: Version): Bytes {
    LeBytes(v.HeaderWord(), 4) + OptU32Bytes(v.VersionGroupId(), !v.Sprout?)
  }

  predicate VersionOk(v: Version) {
    v.Sprout? ==> v.number == 1 || v.number == 2
  }

  lemma VersionReads(v: Version, t: Bytes)
    requires VersionOk(v)
    ensures ParseVersion(EncodeVersion(v) + t) == Ok((v, t))
  {
    hide U32, LeBytes;
    var g := OptU32Bytes(v.VersionGroupId(), !v.Sprout?);
    Associates(LeBytes(v.HeaderWord(), 4), g, t);
    U32Inverts(v.HeaderWord(), g + t);
    assert [] + t == t;
    if !v.Sprout? {
      U32Inverts(v.VersionGroupId(), t);
    }
  }

  lemma VersionEncodes(s: Bytes)
    ensures ParseVersion(s).Ok? ==>
      VersionOk(ParseVersion(s).value.0) && s == EncodeVersion(ParseVersion(s).value.0) + ParseVersion(s).value.1
  {
    hide U32, LeBytes;
    if ParseVersion(s).Ok? {
      U32Splits(s);
      var (header, s1) := U32(s).value;
      U32Splits(s1);
      var (v, rest) := ParseVersion(s).value;
      var g := OptU32Bytes(v.VersionGroupId(), !v.Sprout?);
      assert [] + s1 == s1;
      Associates(LeBytes(header, 4), g, rest);
    }
  }

  predicate IsModern(v: Version) {
    v == V5 || v == V6
  }

  function ParseTransaction(s: Bytes): Parsed<WireTransaction> {
    var (version, rest) :- ParseVersion(s);
    if IsModern(version) then
      var (modern, rest) :- ParseModern(rest, version == V6);
      Ok((NewFormat(version, modern), rest))
    else
      var (legacy, rest) :- ParseLegacy(rest, version);
      Ok((OldFormat(version, legacy), rest))
  }

  function Encode(x: WireTransaction): Bytes {
    EncodeVersion(x.version) +
    match x
    case OldFormat(v, legacy) => EncodeLegacy(legacy, v)
    case NewFormat(v, modern) => EncodeModern(modern, v == V6)
  }

  predicate WellFormed(x: WireTransaction) {
    && VersionOk(x.version) && x.NewFormat? == IsModern(x.version)
    && match x
       case OldFormat(v, legacy) => LegacyOk(legacy, v)
       case NewFormat(v, modern) => ModernOk(modern, v == V6)
  }

  lemma TransactionReads(x: WireTransaction, t: Bytes)
    requires WellFormed(x)
    ensures ParseTransaction(Encode(x) + t) == Ok((x, t))
  {
    hide ParseVersion, EncodeVersion, ParseLegacy, EncodeLegacy, LegacyOk, ParseModern, EncodeModern, ModernOk,
      VersionOk;
    match x
    case OldFormat(v, legacy) =>
      Associates(EncodeVersion(v), EncodeLegacy(legacy, v), t);
      VersionReads(v, EncodeLegacy(legacy, v) + t);
      LegacyReads(legacy, v, t);
    case NewFormat(v, modern) =>
      Associates(EncodeVersion(v), EncodeModern(modern, v == V6), t);
      VersionReads(v, EncodeModern(modern, v == V6) + t);
      ModernReads(modern, v == V6, t);
  }

  lemma TransactionEncodes(s: Bytes)
    ensures ParseTransaction(s).Ok? ==>
      WellFormed(ParseTransaction(s).value.0) && s == Encode(ParseTransaction(s).value.0) + ParseTransaction(s).value.1
  {
    hide ParseVersion, EncodeVersion, ParseLegacy, EncodeLegacy, LegacyOk, ParseModern, EncodeModern, ModernOk,
      VersionOk;
    if ParseTransaction(s).Ok? {
      VersionEncodes(s);
      var (v, s1) := ParseVersion(s).value;
      if IsModern(v) {
        ModernEncodes(s1, v == V6);
        var (m, s2) := ParseModern(s1, v == V6).value;
        Associates(EncodeVersion(v), EncodeModern(m, v == V6), s2);
      } else {
        LegacyEncodes(s1, v);
        var (l, s2) := ParseLegacy(s1, v).value;
        Associates(EncodeVersion(v), EncodeLegacy(l, v), s2);
      }
    }
  }

  /** The wire format decides: bytes read as a transaction exactly when they begin
      with its encoding, and then that encoding is what was read. */
  lemma ReadsExactlyEncodings(s: Bytes, x: WireTransaction, rest: Bytes)
    ensures ParseTransaction(s) == Ok((x, rest)) <==> WellFormed(x) && s == Encode(x) + rest
  {
    hide ParseTransaction, Encode, WellFormed;
    TransactionEncodes(s);
    if WellFormed(x) {
      TransactionReads(x, rest);
    }
  }

  /** No transaction's encoding begins another's. */
  lemma EncodingsArePrefixFree(x: WireTransaction, y: WireTransaction, t: Bytes, u: Bytes)
    requires WellFormed(x) && WellFormed(y) && Encode(x) + t == Encode(y) + u
    ensures x == y && t == u
  {
    hide ParseTransaction, Encode, WellFormed;
    TransactionReads(x, t);
    TransactionReads(y, u);
  }
}
