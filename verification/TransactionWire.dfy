/** The consensus encoding of a transaction, v1 to v6, with everything the reader
    keeps and everything it steps over: the layout as a parser, the layout as an
    encoder, and each undoing the other. */
module TransactionWire {
  import opened Wrappers
  import opened ByteInts
  import opened Slices
  import opened WireParsing

  const OVERWINTER_FLAG: nat := 0x8000_0000
  const GROTH_PROOF: nat := 192
  const PHGR_PROOF: nat := 296
  const SIGNATURE: nat := 64
  const JOINSPLIT_WITHOUT_PROOF: nat := 8 + 8 + 32 + 64 + 64 + 32 + 32 + 64 + 2 * 601
  const ENC_CIPHERTEXT: nat := 580
  const OUT_CIPHERTEXT: nat := 80
  const MIN_INPUT: nat := 32 + 4 + 1 + 4
  const MIN_OUTPUT: nat := 8 + 1
  const SAPLING_SPEND_V4: nat := 32 + 32 + 32 + 32 + GROTH_PROOF + SIGNATURE
  const SAPLING_OUTPUT_V4: nat := 32 + 32 + 32 + ENC_CIPHERTEXT + OUT_CIPHERTEXT + GROTH_PROOF
  const SAPLING_SPEND_V5: nat := 32 + 32 + 32
  const SAPLING_OUTPUT_V5: nat := 32 + 32 + 32 + ENC_CIPHERTEXT + OUT_CIPHERTEXT
  const ORCHARD_ACTION: nat := 32 * 5 + ENC_CIPHERTEXT + OUT_CIPHERTEXT

  datatype Version = Sprout(number: nat) | V3 | V4 | V5 | V6 {
    predicate HasSprout() {
      match this
      case Sprout(n) => n >= 2
      case V3 => true
      case V4 => true
      case _ => false
    }

    function HeaderWord(): nat {
      match this
      case Sprout(n) => n
      case V3 => OVERWINTER_FLAG + 3
      case V4 => OVERWINTER_FLAG + 4
      case V5 => OVERWINTER_FLAG + 5
      case V6 => OVERWINTER_FLAG + 6
    }

    function VersionGroupId(): nat {
      match this
      case Sprout(_) => 0
      case V3 => 0x03C4_8270
      case V4 => 0x892F_2085
      case V5 => 0x26A7_270A
      case V6 => 0xD884_B698
    }
  }

  // ---- items

  datatype RawInput = RawInput(prevoutHash: Bytes, prevoutIndex: nat, scriptSig: Bytes, sequence: nat)

  function ReadInput(s: Bytes): Parsed<RawInput> {
    var (hash, rest) :- Take(s, 32);
    var (index, rest) :- U32(rest);
    var (script, rest) :- VarBytes(rest);
    var (sequence, rest) :- U32(rest);
    Ok((RawInput(hash, index, script, sequence), rest))
  }

  function EncodeInput(x: RawInput): Bytes {
    x.prevoutHash + (LeBytes(x.prevoutIndex, 4) + (VarEncoded(x.scriptSig) + LeBytes(x.sequence, 4)))
  }

  predicate InputOk(x: RawInput) {
    && |x.prevoutHash| == 32 && x.prevoutIndex < U32_SPAN
    && |x.scriptSig| <= MAX_COMPACT_SIZE && x.sequence < U32_SPAN
  }

  datatype RawOutput = RawOutput(value: Bytes, script: Bytes)

  function ReadOutput(s: Bytes): Parsed<RawOutput> {
    var (value, rest) :- Take(s, 8);
    var (script, rest) :- VarBytes(rest);
    Ok((RawOutput(value, script), rest))
  }

  function EncodeOutput(x: RawOutput): Bytes {
    x.value + VarEncoded(x.script)
  }

  predicate OutputOk(x: RawOutput) {
    |x.value| == 8 && |x.script| <= MAX_COMPACT_SIZE
  }

  lemma InputInverts()
    ensures Inverts(ReadInput, EncodeInput, InputOk)
    ensures forall x :: InputOk(x) ==> |EncodeInput(x)| >= MIN_INPUT
  {
    forall x: RawInput, t: Bytes | InputOk(x) ensures ReadInput(EncodeInput(x) + t) == Ok((x, t)) {
      InputReads(x, t);
    }
    forall s: Bytes | ReadInput(s).Ok?
      ensures InputOk(ReadInput(s).value.0) && s == EncodeInput(ReadInput(s).value.0) + ReadInput(s).value.1
    {
      InputEncodes(s);
    }
    assert forall b: Bytes :: |VarEncoded(b)| >= 1;
  }

  lemma InputReads(x: RawInput, t: Bytes)
    requires InputOk(x)
    ensures ReadInput(EncodeInput(x) + t) == Ok((x, t))
  {
    hide Take, U32, VarBytes, VarEncoded, LeBytes;
    var i, v, q := LeBytes(x.prevoutIndex, 4), VarEncoded(x.scriptSig), LeBytes(x.sequence, 4);
    Associates(x.prevoutHash, i + (v + q), t);
    Associates(i, v + q, t);
    Associates(v, q, t);
    TakeInverts(x.prevoutHash, i + (v + (q + t)));
    U32Inverts(x.prevoutIndex, v + (q + t));
    VarInverts(x.scriptSig, q + t);
    U32Inverts(x.sequence, t);
  }

  lemma InputEncodes(s: Bytes)
    requires ReadInput(s).Ok?
    ensures InputOk(ReadInput(s).value.0) && s == EncodeInput(ReadInput(s).value.0) + ReadInput(s).value.1
  {
    hide Take, U32, VarBytes, VarEncoded, LeBytes;
    TakeSplits(s, 32);
    var (h, s1) := Take(s, 32).value;
    U32Splits(s1);
    var (index, s2) := U32(s1).value;
    VarSplits(s2);
    var (script, s3) := VarBytes(s2).value;
    U32Splits(s3);
    var (sequence, s4) := U32(s3).value;
    var i, v, q := LeBytes(index, 4), VarEncoded(script), LeBytes(sequence, 4);
    Associates(h, i + (v + q), s4);
    Associates(i, v + q, s4);
    Associates(v, q, s4);
  }

  lemma OutputInverts()
    ensures Inverts(ReadOutput, EncodeOutput, OutputOk)
    ensures forall x :: OutputOk(x) ==> |EncodeOutput(x)| >= MIN_OUTPUT
  {
    hide Take, VarBytes;
    forall x: RawOutput, t: Bytes | OutputOk(x) ensures ReadOutput(EncodeOutput(x) + t) == Ok((x, t)) {
      Associates(x.value, VarEncoded(x.script), t);
      TakeInverts(x.value, VarEncoded(x.script) + t);
      VarInverts(x.script, t);
    }
    forall s: Bytes | ReadOutput(s).Ok?
      ensures OutputOk(ReadOutput(s).value.0) && s == EncodeOutput(ReadOutput(s).value.0) + ReadOutput(s).value.1
    {
      TakeSplits(s, 8);
      var (value, rest) := Take(s, 8).value;
      VarSplits(rest);
      Associates(value, VarEncoded(VarBytes(rest).value.0), VarBytes(rest).value.1);
    }
    assert forall b: Bytes :: |VarEncoded(b)| >= 1;
  }

  datatype RawSaplingSpend = RawSaplingSpend(cv: Bytes, nullifier: Bytes, rk: Bytes)

  datatype RawSaplingOutput = RawSaplingOutput(
    cv: Bytes, cmu: Bytes, ephemeralKey: Bytes, encCiphertext: Bytes, outCiphertext: Bytes)

  datatype RawAction = RawAction(
    cv: Bytes, nullifier: Bytes, rk: Bytes, cmx: Bytes, ephemeralKey: Bytes, encCiphertext: Bytes, outCiphertext: Bytes)

  /** A v4 spend carries its anchor, proof and signature inline. */
  datatype SpendV4 = SpendV4(spend: RawSaplingSpend, anchor: Bytes, auth: Bytes)

  datatype OutputV4 = OutputV4(output: RawSaplingOutput, proof: Bytes)

  const SPEND_V4: seq<nat> := [32, 32, 32, 32, GROTH_PROOF + SIGNATURE]
  const OUTPUT_V4: seq<nat> := [32, 32, 32, ENC_CIPHERTEXT, OUT_CIPHERTEXT, GROTH_PROOF]
  const SPEND_V5: seq<nat> := [32, 32, 32]
  const OUTPUT_V5: seq<nat> := [32, 32, 32, ENC_CIPHERTEXT, OUT_CIPHERTEXT]
  const ACTION: seq<nat> := [32, 32, 32, 32, 32, ENC_CIPHERTEXT, OUT_CIPHERTEXT]

  function At(f: seq<Bytes>, i: nat): Bytes {
    if i < |f| then f[i] else []
  }

  /** Fixed-size fields read in a row and put together. */
  function ReadFixed<T>(s: Bytes, sizes: seq<nat>, build: seq<Bytes> -> T): Parsed<T> {
    var (fields, rest) :- Fields(s, sizes);
    Ok((build(fields), rest))
  }

  function SpendV4Of(f: seq<Bytes>): SpendV4 {
    SpendV4(RawSaplingSpend(At(f, 0), At(f, 2), At(f, 3)), At(f, 1), At(f, 4))
  }

  function SpendV4Fields(x: SpendV4): seq<Bytes> {
    [x.spend.cv, x.anchor, x.spend.nullifier, x.spend.rk, x.auth]
  }

  function OutputV4Of(f: seq<Bytes>): OutputV4 {
    OutputV4(OutputV5Of(f), At(f, 5))
  }

  function OutputV4Fields(x: OutputV4): seq<Bytes> {
    [x.output.cv, x.output.cmu, x.output.ephemeralKey, x.output.encCiphertext, x.output.outCiphertext, x.proof]
  }

  function SpendV5Of(f: seq<Bytes>): RawSaplingSpend {
    RawSaplingSpend(At(f, 0), At(f, 1), At(f, 2))
  }

  function SpendV5Fields(x: RawSaplingSpend): seq<Bytes> {
    [x.cv, x.nullifier, x.rk]
  }

  function OutputV5Of(f: seq<Bytes>): RawSaplingOutput {
    RawSaplingOutput(At(f, 0), At(f, 1), At(f, 2), At(f, 3), At(f, 4))
  }

  function OutputV5Fields(x: RawSaplingOutput): seq<Bytes> {
    [x.cv, x.cmu, x.ephemeralKey, x.encCiphertext, x.outCiphertext]
  }

  function ActionOf(f: seq<Bytes>): RawAction {
    RawAction(At(f, 0), At(f, 1), At(f, 2), At(f, 3), At(f, 4), At(f, 5), At(f, 6))
  }

  function ActionFields(x: RawAction): seq<Bytes> {
    [x.cv, x.nullifier, x.rk, x.cmx, x.ephemeralKey, x.encCiphertext, x.outCiphertext]
  }

  function ReadSpendV4(s: Bytes): Parsed<SpendV4> { ReadFixed(s, SPEND_V4, SpendV4Of) }
  function ReadOutputV4(s: Bytes): Parsed<OutputV4> { ReadFixed(s, OUTPUT_V4, OutputV4Of) }
  function ReadSpendV5(s: Bytes): Parsed<RawSaplingSpend> { ReadFixed(s, SPEND_V5, SpendV5Of) }
  function ReadOutputV5(s: Bytes): Parsed<RawSaplingOutput> { ReadFixed(s, OUTPUT_V5, OutputV5Of) }
  function ReadAction(s: Bytes): Parsed<RawAction> { ReadFixed(s, ACTION, ActionOf) }

  function EncodeSpendV4(x: SpendV4): Bytes { Joined(SpendV4Fields(x)) }
  predicate SpendV4Ok(x: SpendV4) { Sized(SpendV4Fields(x), SPEND_V4) }
  function EncodeOutputV4(x: OutputV4): Bytes { Joined(OutputV4Fields(x)) }
  predicate OutputV4Ok(x: OutputV4) { Sized(OutputV4Fields(x), OUTPUT_V4) }
  function EncodeSpendV5(x: RawSaplingSpend): Bytes { Joined(SpendV5Fields(x)) }
  predicate SpendV5Ok(x: RawSaplingSpend) { Sized(SpendV5Fields(x), SPEND_V5) }
  function EncodeOutputV5(x: RawSaplingOutput): Bytes { Joined(OutputV5Fields(x)) }
  predicate OutputV5Ok(x: RawSaplingOutput) { Sized(OutputV5Fields(x), OUTPUT_V5) }
  function EncodeAction(x: RawAction): Bytes { Joined(ActionFields(x)) }
  predicate ActionOk(x: RawAction) { Sized(ActionFields(x), ACTION) }

  /** A record that is fixed-size fields in a row: whatever names its fields and
      rebuilds it from them makes a reader that inverts the writer. */
  lemma FixedInverts<T(!new)>(read: Bytes -> Parsed<T>, encode: T -> Bytes, ok: T -> bool, fields: T -> seq<Bytes>,
      build: seq<Bytes> -> T, sizes: seq<nat>)
    requires forall x: T :: encode(x) == Joined(fields(x)) && ok(x) == Sized(fields(x), sizes)
    requires forall x: T :: ok(x) ==> build(fields(x)) == x
    requires forall f: seq<Bytes> :: |f| == |sizes| ==> fields(build(f)) == f
    requires forall s: Bytes :: read(s) == ReadFixed(s, sizes, build)
    ensures Inverts(read, encode, ok)
    ensures forall x: T :: ok(x) ==> |encode(x)| == Total(sizes)
  {
    hide Fields, Joined, Sized, Total;
    forall x: T, t: Bytes | ok(x) ensures read(encode(x) + t) == Ok((x, t)) {
      FieldsInvert(fields(x), sizes, t);
    }
    forall s: Bytes | read(s).Ok? ensures ok(read(s).value.0) && s == encode(read(s).value.0) + read(s).value.1 {
      FieldsSplit(s, sizes);
      FieldsCount(s, sizes);
    }
    forall x: T | ok(x) ensures |encode(x)| == Total(sizes) {
      JoinedLength(fields(x), sizes);
    }
  }

  lemma FieldsCount(s: Bytes, sizes: seq<nat>)
    ensures Fields(s, sizes).Ok? ==> |Fields(s, sizes).value.0| == |sizes|
  {
  }

  lemma TotalOf(first: nat, rest: seq<nat>, all: seq<nat>)
    requires all == [first] + rest
    ensures Total(all) == first + Total(rest)
  {
  }

  lemma ItemSizes()
    ensures Total(SPEND_V4) == SAPLING_SPEND_V4 && Total(OUTPUT_V4) == SAPLING_OUTPUT_V4
    ensures Total(SPEND_V5) == SAPLING_SPEND_V5 && Total(OUTPUT_V5) == SAPLING_OUTPUT_V5
    ensures Total(ACTION) == ORCHARD_ACTION
  {
    hide Total;
    TotalNil();
    ThreeHashes([], SPEND_V5);
    TotalOf(OUT_CIPHERTEXT, [], [OUT_CIPHERTEXT]);
    TotalOf(ENC_CIPHERTEXT, [OUT_CIPHERTEXT], [ENC_CIPHERTEXT, OUT_CIPHERTEXT]);
    ThreeHashes([ENC_CIPHERTEXT, OUT_CIPHERTEXT], OUTPUT_V5);
    TotalOf(32, OUTPUT_V5, [32] + OUTPUT_V5);
    TotalOf(32, [32] + OUTPUT_V5, ACTION);
    TotalOf(GROTH_PROOF, [], [GROTH_PROOF]);
    TotalOf(OUT_CIPHERTEXT, [GROTH_PROOF], [OUT_CIPHERTEXT, GROTH_PROOF]);
    TotalOf(ENC_CIPHERTEXT, [OUT_CIPHERTEXT, GROTH_PROOF], [ENC_CIPHERTEXT, OUT_CIPHERTEXT, GROTH_PROOF]);
    ThreeHashes([ENC_CIPHERTEXT, OUT_CIPHERTEXT, GROTH_PROOF], OUTPUT_V4);
    TotalOf(GROTH_PROOF + SIGNATURE, [], [GROTH_PROOF + SIGNATURE]);
    TotalOf(32, [GROTH_PROOF + SIGNATURE], [32, GROTH_PROOF + SIGNATURE]);
    ThreeHashes([32, GROTH_PROOF + SIGNATURE], SPEND_V4);
  }

  lemma TotalNil()
    ensures Total([]) == 0
  {
  }

  lemma ThreeHashes(rest: seq<nat>, all: seq<nat>)
    requires all == [32, 32, 32] + rest
    ensures Total(all) == 96 + Total(rest)
  {
    hide Total;
    TotalOf(32, rest, [32] + rest);
    TotalOf(32, [32] + rest, [32, 32] + rest);
    TotalOf(32, [32, 32] + rest, all);
  }

  lemma SpendV4Rebuilds(f: seq<Bytes>, x: SpendV4)
    ensures |f| == |SPEND_V4| ==> SpendV4Fields(SpendV4Of(f)) == f
    ensures SpendV4Of(SpendV4Fields(x)) == x
  {
  }

  lemma SpendV4Inverts()
    ensures Inverts(ReadSpendV4, EncodeSpendV4, SpendV4Ok)
    ensures forall x :: SpendV4Ok(x) ==> |EncodeSpendV4(x)| >= SAPLING_SPEND_V4
  {
    hide Fields, Joined, Sized, Inverts, ReadFixed, SpendV4Fields, SpendV4Of, Total;
    forall f: seq<Bytes> ensures |f| == |SPEND_V4| ==> SpendV4Fields(SpendV4Of(f)) == f {
      SpendV4Rebuilds(f, SpendV4Of(f));
    }
    forall x ensures SpendV4Of(SpendV4Fields(x)) == x {
      SpendV4Rebuilds([], x);
    }
    ItemSizes();
    FixedInverts(ReadSpendV4, EncodeSpendV4, SpendV4Ok, SpendV4Fields, SpendV4Of, SPEND_V4);
  }

  lemma OutputV4Rebuilds(f: seq<Bytes>, x: OutputV4)
    ensures |f| == |OUTPUT_V4| ==> OutputV4Fields(OutputV4Of(f)) == f
    ensures OutputV4Of(OutputV4Fields(x)) == x
  {
  }

  lemma OutputV4Inverts()
    ensures Inverts(ReadOutputV4, EncodeOutputV4, OutputV4Ok)
    ensures forall x :: OutputV4Ok(x) ==> |EncodeOutputV4(x)| >= SAPLING_OUTPUT_V4
  {
    hide Fields, Joined, Sized, Inverts, ReadFixed, OutputV4Fields, OutputV4Of, Total;
    forall f: seq<Bytes> ensures |f| == |OUTPUT_V4| ==> OutputV4Fields(OutputV4Of(f)) == f {
      OutputV4Rebuilds(f, OutputV4Of(f));
    }
    forall x ensures OutputV4Of(OutputV4Fields(x)) == x {
      OutputV4Rebuilds([], x);
    }
    ItemSizes();
    FixedInverts(ReadOutputV4, EncodeOutputV4, OutputV4Ok, OutputV4Fields, OutputV4Of, OUTPUT_V4);
  }

  lemma SpendV5Rebuilds(f: seq<Bytes>, x: RawSaplingSpend)
    ensures |f| == |SPEND_V5| ==> SpendV5Fields(SpendV5Of(f)) == f
    ensures SpendV5Of(SpendV5Fields(x)) == x
  {
  }

  lemma SpendV5Inverts()
    ensures Inverts(ReadSpendV5, EncodeSpendV5, SpendV5Ok)
    ensures forall x :: SpendV5Ok(x) ==> |EncodeSpendV5(x)| >= SAPLING_SPEND_V5
  {
    hide Fields, Joined, Sized, Inverts, ReadFixed, SpendV5Fields, SpendV5Of, Total;
    forall f: seq<Bytes> ensures |f| == |SPEND_V5| ==> SpendV5Fields(SpendV5Of(f)) == f {
      SpendV5Rebuilds(f, SpendV5Of(f));
    }
    forall x ensures SpendV5Of(SpendV5Fields(x)) == x {
      SpendV5Rebuilds([], x);
    }
    ItemSizes();
    FixedInverts(ReadSpendV5, EncodeSpendV5, SpendV5Ok, SpendV5Fields, SpendV5Of, SPEND_V5);
  }

  lemma OutputV5Rebuilds(f: seq<Bytes>, x: RawSaplingOutput)
    ensures |f| == |OUTPUT_V5| ==> OutputV5Fields(OutputV5Of(f)) == f
    ensures OutputV5Of(OutputV5Fields(x)) == x
  {
  }

  lemma OutputV5Inverts()
    ensures Inverts(ReadOutputV5, EncodeOutputV5, OutputV5Ok)
    ensures forall x :: OutputV5Ok(x) ==> |EncodeOutputV5(x)| >= SAPLING_OUTPUT_V5
  {
    hide Fields, Joined, Sized, Inverts, ReadFixed, OutputV5Fields, OutputV5Of, Total;
    forall f: seq<Bytes> ensures |f| == |OUTPUT_V5| ==> OutputV5Fields(OutputV5Of(f)) == f {
      OutputV5Rebuilds(f, OutputV5Of(f));
    }
    forall x ensures OutputV5Of(OutputV5Fields(x)) == x {
      OutputV5Rebuilds([], x);
    }
    ItemSizes();
    FixedInverts(ReadOutputV5, EncodeOutputV5, OutputV5Ok, OutputV5Fields, OutputV5Of, OUTPUT_V5);
  }

  lemma ActionRebuilds(f: seq<Bytes>, x: RawAction)
    ensures |f| == |ACTION| ==> ActionFields(ActionOf(f)) == f
    ensures ActionOf(ActionFields(x)) == x
  {
  }

  lemma ActionInverts()
    ensures Inverts(ReadAction, EncodeAction, ActionOk)
    ensures forall x :: ActionOk(x) ==> |EncodeAction(x)| >= ORCHARD_ACTION
  {
    hide Fields, Joined, Sized, Inverts, ReadFixed, ActionFields, ActionOf, Total;
    forall f: seq<Bytes> ensures |f| == |ACTION| ==> ActionFields(ActionOf(f)) == f {
      ActionRebuilds(f, ActionOf(f));
    }
    forall x ensures ActionOf(ActionFields(x)) == x {
      ActionRebuilds([], x);
    }
    ItemSizes();
    FixedInverts(ReadAction, EncodeAction, ActionOk, ActionFields, ActionOf, ACTION);
  }

  // ---- Sapling

  /** v4: the balance, then spends and outputs with everything inline. */
  datatype SaplingV4 = SaplingV4(valueBalance: I64, spends: seq<SpendV4>, outputs: seq<OutputV4>)

  function ParseSaplingV4(s: Bytes): Parsed<SaplingV4> {
    var (balance, rest) :- SignedLe(s);
    var (spends, rest) :- Vector(rest, SAPLING_SPEND_V4, ReadSpendV4);
    var (outputs, rest) :- Vector(rest, SAPLING_OUTPUT_V4, ReadOutputV4);
    Ok((SaplingV4(balance, spends, outputs), rest))
  }

  function EncodeSaplingV4(x: SaplingV4): Bytes {
    I64Bytes(x.valueBalance) + (VectorBytes(x.spends, EncodeSpendV4) + VectorBytes(x.outputs, EncodeOutputV4))
  }

  predicate SaplingV4Ok(x: SaplingV4) {
    AllOk(x.spends, SpendV4Ok) && AllOk(x.outputs, OutputV4Ok)
  }

  lemma SaplingV4Reads(x: SaplingV4, t: Bytes)
    requires SaplingV4Ok(x)
    ensures ParseSaplingV4(EncodeSaplingV4(x) + t) == Ok((x, t))
  {
    hide Vector, VectorBytes, SignedLe, I64Bytes, AllOk, Inverts;
    var b, p, o := I64Bytes(x.valueBalance), VectorBytes(x.spends, EncodeSpendV4), VectorBytes(x.outputs, EncodeOutputV4);
    Associates(b, p + o, t);
    Associates(p, o, t);
    SignedInverts(x.valueBalance, p + (o + t));
    SpendV4Inverts();
    VectorInverts(x.spends, SAPLING_SPEND_V4, ReadSpendV4, EncodeSpendV4, SpendV4Ok, o + t);
    OutputV4Inverts();
    VectorInverts(x.outputs, SAPLING_OUTPUT_V4, ReadOutputV4, EncodeOutputV4, OutputV4Ok, t);
  }

  lemma SaplingV4Encodes(s: Bytes)
    ensures ParseSaplingV4(s).Ok? ==>
      SaplingV4Ok(ParseSaplingV4(s).value.0) && s == EncodeSaplingV4(ParseSaplingV4(s).value.0) + ParseSaplingV4(s).value.1
  {
    hide Vector, VectorBytes, SignedLe, I64Bytes, AllOk, Inverts;
    if ParseSaplingV4(s).Ok? {
      SignedSplits(s);
      var (balance, s1) := SignedLe(s).value;
      SpendV4Inverts();
      VectorSplits(s1, SAPLING_SPEND_V4, ReadSpendV4, EncodeSpendV4, SpendV4Ok);
      var (spends, s2) := Vector(s1, SAPLING_SPEND_V4, ReadSpendV4).value;
      OutputV4Inverts();
      VectorSplits(s2, SAPLING_OUTPUT_V4, ReadOutputV4, EncodeOutputV4, OutputV4Ok);
      var (outputs, s3) := Vector(s2, SAPLING_OUTPUT_V4, ReadOutputV4).value;
      var b, p, o := I64Bytes(balance), VectorBytes(spends, EncodeSpendV4), VectorBytes(outputs, EncodeOutputV4);
      Associates(b, p + o, s3);
      Associates(p, o, s3);
    }
  }

  /** v5 and v6: the effecting data, then the balance and the anchor when there is
      something to balance or to anchor, then the authorising data in rows. */
  datatype SaplingV5 = SaplingV5(
    spends: seq<RawSaplingSpend>, outputs: seq<RawSaplingOutput>, valueBalance: I64, anchor: Bytes,
    spendAuth: Bytes, outputProofs: Bytes, bindingSig: Bytes)

  function When(present: bool, size: nat): nat {
    if present then size else 0
  }

  /** The sizes of what follows the balance, by how many spends and outputs there are. */
  function SaplingTail(spends: nat, outputs: nat): seq<nat> {
    [When(spends > 0, 32), spends * (GROTH_PROOF + SIGNATURE), outputs * GROTH_PROOF, When(spends + outputs > 0, SIGNATURE)]
  }

  function OptSigned(s: Bytes, present: bool): Parsed<I64> {
    if present then SignedLe(s) else Ok((0, s))
  }

  function OptSignedBytes(x: I64, present: bool): Bytes {
    if present then I64Bytes(x) else []
  }

  function ParseSaplingV5(s: Bytes): Parsed<SaplingV5> {
    var (spends, rest) :- Vector(s, SAPLING_SPEND_V5, ReadSpendV5);
    var (outputs, rest) :- Vector(rest, SAPLING_OUTPUT_V5, ReadOutputV5);
    var (balance, rest) :- OptSigned(rest, |spends| + |outputs| > 0);
    var (tail, rest) :- Fields(rest, SaplingTail(|spends|, |outputs|));
    Ok((SaplingV5(spends, outputs, balance, tail[0], tail[1], tail[2], tail[3]), rest))
  }

  function SaplingV5Tail(x: SaplingV5): seq<Bytes> {
    [x.anchor, x.spendAuth, x.outputProofs, x.bindingSig]
  }

  function EncodeSaplingV5(x: SaplingV5): Bytes {
    VectorBytes(x.spends, EncodeSpendV5) + (VectorBytes(x.outputs, EncodeOutputV5) +
      (OptSignedBytes(x.valueBalance, |x.spends| + |x.outputs| > 0) + Joined(SaplingV5Tail(x))))
  }

  predicate SaplingV5Ok(x: SaplingV5) {
    && AllOk(x.spends, SpendV5Ok) && AllOk(x.outputs, OutputV5Ok)
    && (|x.spends| + |x.outputs| == 0 ==> x.valueBalance == 0)
    && Sized(SaplingV5Tail(x), SaplingTail(|x.spends|, |x.outputs|))
  }

  lemma OptSignedInverts(x: I64, present: bool, t: Bytes)
    requires !present ==> x == 0
    ensures OptSigned(OptSignedBytes(x, present) + t, present) == Ok((x, t))
  {
    hide SignedLe, I64Bytes;
    assert [] + t == t;
    SignedInverts(x, t);
  }

  lemma OptSignedSplits(s: Bytes, present: bool)
    ensures OptSigned(s, present).Ok? ==>
      && (!present ==> OptSigned(s, present).value.0 == 0)
      && s == OptSignedBytes(OptSigned(s, present).value.0, present) + OptSigned(s, present).value.1
  {
    hide SignedLe, I64Bytes;
    assert [] + s == s;
    SignedSplits(s);
  }

  lemma SaplingV5Reads(x: SaplingV5, t: Bytes)
    requires SaplingV5Ok(x)
    ensures ParseSaplingV5(EncodeSaplingV5(x) + t) == Ok((x, t))
  {
    hide Vector, VectorBytes, OptSigned, OptSignedBytes, AllOk, Inverts, Fields, Joined, Sized, SaplingTail;
    var any := |x.spends| + |x.outputs| > 0;
    var p, o := VectorBytes(x.spends, EncodeSpendV5), VectorBytes(x.outputs, EncodeOutputV5);
    var b, e := OptSignedBytes(x.valueBalance, any), Joined(SaplingV5Tail(x));
    Associates(p, o + (b + e), t);
    Associates(o, b + e, t);
    Associates(b, e, t);
    SpendV5Inverts();
    VectorInverts(x.spends, SAPLING_SPEND_V5, ReadSpendV5, EncodeSpendV5, SpendV5Ok, o + (b + (e + t)));
    OutputV5Inverts();
    VectorInverts(x.outputs, SAPLING_OUTPUT_V5, ReadOutputV5, EncodeOutputV5, OutputV5Ok, b + (e + t));
    OptSignedInverts(x.valueBalance, any, e + t);
    FieldsInvert(SaplingV5Tail(x), SaplingTail(|x.spends|, |x.outputs|), t);
  }

  lemma SaplingV5Encodes(s: Bytes)
    ensures ParseSaplingV5(s).Ok? ==>
      SaplingV5Ok(ParseSaplingV5(s).value.0) && s == EncodeSaplingV5(ParseSaplingV5(s).value.0) + ParseSaplingV5(s).value.1
  {
    hide Vector, VectorBytes, OptSigned, OptSignedBytes, AllOk, Inverts, Fields, Joined, Sized;
    if ParseSaplingV5(s).Ok? {
      SpendV5Inverts();
      VectorSplits(s, SAPLING_SPEND_V5, ReadSpendV5, EncodeSpendV5, SpendV5Ok);
      var (spends, s1) := Vector(s, SAPLING_SPEND_V5, ReadSpendV5).value;
      OutputV5Inverts();
      VectorSplits(s1, SAPLING_OUTPUT_V5, ReadOutputV5, EncodeOutputV5, OutputV5Ok);
      var (outputs, s2) := Vector(s1, SAPLING_OUTPUT_V5, ReadOutputV5).value;
      var any := |spends| + |outputs| > 0;
      OptSignedSplits(s2, any);
      var (balance, s3) := OptSigned(s2, any).value;
      var sizes := SaplingTail(|spends|, |outputs|);
      FieldsSplit(s3, sizes);
      FieldsCount(s3, sizes);
      var (tail, s4) := Fields(s3, sizes).value;
      var x := ParseSaplingV5(s).value.0;
      assert SaplingV5Tail(x) == tail;
      var p, o := VectorBytes(spends, EncodeSpendV5), VectorBytes(outputs, EncodeOutputV5);
      var b, e := OptSignedBytes(balance, any), Joined(tail);
      Associates(p, o + (b + e), s4);
      Associates(o, b + e, s4);
      Associates(b, e, s4);
    }
  }
}
