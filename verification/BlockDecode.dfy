/** A whole block's bytes: the header, the counted transactions and nothing
    after them, opened by a coinbase that commits to the height. */
module BlockDecode {
  import opened Wrappers
  import opened ChainWorld
  import opened Slices
  import opened WireParsing
  import opened TransactionWire
  import opened TransactionFormat
  import opened TransactionReader
  import CoinbaseHeight

  /** The fewest bytes a transaction occupies: version, two counts, lock time. */
  const MIN_TRANSACTION_SIZE: nat := 4 + 1 + 1 + 4

  /** The header's fields as encoded. */
  datatype RawHeader = RawHeader(
    version: Bytes, prevHash: Bytes, merkleRoot: Bytes, commitments: Bytes, time: Bytes, bits: Bytes, nonce: Bytes,
    solution: Bytes)

  const HEADER: seq<nat> := [4, 32, 32, 32, 4, 4, 32]

  function HeaderFields(x: RawHeader): seq<Bytes> {
    [x.version, x.prevHash, x.merkleRoot, x.commitments, x.time, x.bits, x.nonce]
  }

  function ParseHeader(s: Bytes): Parsed<RawHeader> {
    var (f, rest) :- Fields(s, HEADER);
    var (solution, rest) :- VarBytes(rest);
    Ok((RawHeader(f[0], f[1], f[2], f[3], f[4], f[5], f[6], solution), rest))
  }

  function EncodeHeader(x: RawHeader): Bytes {
    Joined(HeaderFields(x)) + VarEncoded(x.solution)
  }

  predicate HeaderOk(x: RawHeader) {
    Sized(HeaderFields(x), HEADER) && |x.solution| <= MAX_COMPACT_SIZE
  }

  lemma HeaderReads(x: RawHeader, t: Bytes)
    requires HeaderOk(x)
    ensures ParseHeader(EncodeHeader(x) + t) == Ok((x, t))
  {
    hide Fields, Joined, Sized, VarBytes, VarEncoded;
    var f, v := Joined(HeaderFields(x)), VarEncoded(x.solution);
    Associates(f, v, t);
    FieldsInvert(HeaderFields(x), HEADER, v + t);
    VarInverts(x.solution, t);
  }

  lemma HeaderEncodes(s: Bytes)
    ensures ParseHeader(s).Ok? ==>
      HeaderOk(ParseHeader(s).value.0) && s == EncodeHeader(ParseHeader(s).value.0) + ParseHeader(s).value.1
  {
    hide Fields, Joined, Sized, VarBytes, VarEncoded;
    if ParseHeader(s).Ok? {
      FieldsSplit(s, HEADER);
      FieldsCount(s, HEADER);
      var (f, s1) := Fields(s, HEADER).value;
      VarSplits(s1);
      var (solution, s2) := VarBytes(s1).value;
      assert HeaderFields(ParseHeader(s).value.0) == f;
      Associates(Joined(f), VarEncoded(solution), s2);
    }
  }

  // ---- transactions as vector items

  lemma TransactionInverts()
    ensures Inverts(ParseTransaction, Encode, WellFormed)
    ensures forall x :: WellFormed(x) ==> |Encode(x)| >= MIN_TRANSACTION_SIZE
  {
    hide ParseTransaction, Encode, WellFormed;
    forall x: WireTransaction, t: Bytes | WellFormed(x) ensures ParseTransaction(Encode(x) + t) == Ok((x, t)) {
      TransactionReads(x, t);
    }
    forall s: Bytes | ParseTransaction(s).Ok?
      ensures WellFormed(ParseTransaction(s).value.0)
      ensures s == Encode(ParseTransaction(s).value.0) + ParseTransaction(s).value.1
    {
      TransactionEncodes(s);
    }
    forall x | WellFormed(x) ensures |Encode(x)| >= MIN_TRANSACTION_SIZE {
      TransactionSize(x);
    }
  }

  lemma TransactionSize(x: WireTransaction)
    ensures |Encode(x)| >= MIN_TRANSACTION_SIZE
  {
  }

  /** The transactions one after another, each read by the walk. */
  method ReadTransactions(reader: Reader, count: nat) returns (r: Result<seq<RawTransaction>, DecodeError>)
    requires reader.Valid()
    modifies reader
    ensures reader.Valid()
    ensures Keeps(Items(old(reader.Rest()), count, ParseTransaction), (xs: seq<WireTransaction>) => Mapped(xs, Keep), r, reader.Rest())
  {
    hide ParseTransaction, Encode, WellFormed, Items, Prepended, Keep;
    ghost var all := reader.Rest();
    ghost var wire: seq<WireTransaction> := [];
    var items: seq<RawTransaction> := [];
    var i := 0;
    PrependNothing(Items(all, count, ParseTransaction));
    while i < count
      invariant 0 <= i <= count && reader.Valid()
      invariant items == Mapped(wire, Keep)
      invariant Items(all, count, ParseTransaction) == Prepended(wire, Items(reader.Rest(), count - i, ParseTransaction))
    {
      PrependStep(wire, reader.Rest(), count - i, ParseTransaction);
      ghost var step := ParseTransaction(reader.Rest());
      var item :- ReadTransaction(reader);
      MappedGrows(wire, step.value.0);
      wire := wire + [step.value.0];
      items := items + [item];
      i := i + 1;
    }
    PrependEnds(wire, reader.Rest(), ParseTransaction);
    return Ok(items);
  }

  lemma MappedGrows(xs: seq<WireTransaction>, x: WireTransaction)
    ensures Mapped(xs + [x], Keep) == Mapped(xs, Keep) + [Keep(x)]
  {
    hide Keep;
  }

  // ---- blocks

  datatype WireBlock = WireBlock(header: RawHeader, transactions: seq<WireTransaction>)

  function EncodeBlock(b: WireBlock): Bytes {
    EncodeHeader(b.header) + VectorBytes(b.transactions, Encode)
  }

  predicate BlockOk(b: WireBlock) {
    HeaderOk(b.header) && AllOk(b.transactions, WellFormed)
  }

  /** An input whose outpoint is null, so that it spends no output. */
  predicate IsCoinbase(x: RawInput) {
    x.prevoutHash == seq(32, _ => 0) && x.prevoutIndex == 0xFFFF_FFFF
  }

  function InputsOf(x: WireTransaction): seq<RawInput> {
    match x
    case OldFormat(_, legacy) => legacy.inputs
    case NewFormat(_, modern) => modern.inputs
  }

  /** The block opens with a coinbase whose script commits to `height`. */
  predicate CommitsTo(b: WireBlock, height: nat) {
    && b.transactions != []
    && |InputsOf(b.transactions[0])| == 1
    && IsCoinbase(InputsOf(b.transactions[0])[0])
    && CoinbaseHeight.Height(b.header.prevHash, InputsOf(b.transactions[0])[0].scriptSig) == Ok(height)
  }

  datatype DecodedBlock = DecodedBlock(header: RawHeader, height: nat, transactions: seq<RawTransaction>)

  ghost function Decoded(b: WireBlock, height: nat): DecodedBlock {
    DecodedBlock(b.header, height, Mapped(b.transactions, Keep))
  }

  /** The raw bytes are a block at `height`. */
  ghost predicate IsBlock(raw: Bytes, b: WireBlock, height: nat) {
    BlockOk(b) && raw == EncodeBlock(b) && CommitsTo(b, height)
  }

  /** Decodes exactly the encodings of well-formed blocks that commit to a height,
      keeping the header, the height and each transaction's fields and bytes. */
  method DecodeBlock(raw: Bytes) returns (r: Result<DecodedBlock, DecodeError>)
    ensures r.Ok? ==> exists b :: IsBlock(raw, b, r.value.height) && r.value == Decoded(b, r.value.height)
    ensures forall b, height :: IsBlock(raw, b, height) ==> r == Ok(Decoded(b, height))
  {
    hide ParseTransaction, Encode, WellFormed, Items, ParseHeader, EncodeHeader, HeaderOk, CompactSize, Keep,
      CoinbaseHeight.Height, VectorBytes, AllOk;
    forall b, height | IsBlock(raw, b, height) ensures BlockParses(raw, b) {
      BlockReads(raw, b);
    }
    var reader := new Reader(raw);
    assert raw[0..] == raw;
    var header :- ReadHeader(reader);
    var count :- reader.CompactSize();
    if count * MIN_TRANSACTION_SIZE > |reader.bytes| - reader.position {
      return Err(Truncated(count * MIN_TRANSACTION_SIZE, |reader.bytes| - reader.position));
    }
    var transactions :- ReadTransactions(reader, count);
    if reader.position != |reader.bytes| {
      return Err(Trailing(|reader.bytes| - reader.position));
    }
    ghost var s1 := ParseHeader(raw).value.1;
    ghost var wire := WireBlock(header, Vector(s1, MIN_TRANSACTION_SIZE, ParseTransaction).value.0);
    BlockEncodes(raw, wire);
    if transactions == [] {
      return Err(NoTransactions);
    }
    KeepsInputs(wire.transactions[0]);
    var inputs := transactions[0].inputs;
    if |inputs| != 1 || !IsCoinbase(inputs[0]) {
      return Err(NoCoinbase);
    }
    var height :- CoinbaseHeight.Height(header.prevHash, inputs[0].scriptSig);
    assert IsBlock(raw, wire, height);
    return Ok(DecodedBlock(header, height, transactions));
  }

  method ReadHeader(reader: Reader) returns (r: Result<RawHeader, DecodeError>)
    requires reader.Valid()
    modifies reader
    ensures reader.Valid() && Answers(ParseHeader(old(reader.Rest())), r, reader.Rest())
  {
    hide Fields, VarBytes;
    var fields: seq<Bytes> := [];
    var i := 0;
    ghost var all := reader.Rest();
    PrependNothing(Fields(all, HEADER));
    while i < |HEADER|
      invariant 0 <= i <= |HEADER| && reader.Valid() && |fields| == i
      invariant Fields(all, HEADER) == Prepended(fields, Fields(reader.Rest(), HEADER[i..]))
    {
      FieldsPrepend(fields, reader.Rest(), HEADER[i..]);
      assert HEADER[i..][1..] == HEADER[i + 1..];
      var f :- reader.Take(HEADER[i]);
      fields := fields + [f];
      i := i + 1;
    }
    assert HEADER[i..] == [];
    NoFields(reader.Rest());
    assert fields + [] == fields;
    var solution :- reader.VarBytes();
    return Ok(RawHeader(fields[0], fields[1], fields[2], fields[3], fields[4], fields[5], fields[6], solution));
  }

  lemma FieldsPrepend(done: seq<Bytes>, s: Bytes, sizes: seq<nat>)
    requires sizes != []
    ensures Prepended(done, Fields(s, sizes)) ==
      if Take(s, sizes[0]).Err? then Err(Take(s, sizes[0]).error)
      else Prepended(done + [Take(s, sizes[0]).value.0], Fields(Take(s, sizes[0]).value.1, sizes[1..]))
  {
    hide Take;
    if Take(s, sizes[0]).Ok? && Fields(Take(s, sizes[0]).value.1, sizes[1..]).Ok? {
      Associates(done, [Take(s, sizes[0]).value.0], Fields(Take(s, sizes[0]).value.1, sizes[1..]).value.0);
    }
  }

  lemma KeepsInputs(x: WireTransaction)
    ensures Keep(x).inputs == InputsOf(x)
  {
  }

  /** The parsers read the whole of `raw` as the block's parts. */
  ghost predicate BlockParses(raw: Bytes, b: WireBlock) {
    && ParseHeader(raw).Ok? && ParseHeader(raw).value.0 == b.header
    && Vector(ParseHeader(raw).value.1, MIN_TRANSACTION_SIZE, ParseTransaction) == Ok((b.transactions, []))
  }

  lemma BlockReads(raw: Bytes, b: WireBlock)
    requires BlockOk(b) && raw == EncodeBlock(b)
    ensures BlockParses(raw, b)
  {
    hide ParseTransaction, Encode, WellFormed, ParseHeader, EncodeHeader, HeaderOk, Vector, VectorBytes, AllOk, Inverts;
    HeaderReads(b.header, VectorBytes(b.transactions, Encode));
    TransactionInverts();
    assert VectorBytes(b.transactions, Encode) + [] == VectorBytes(b.transactions, Encode);
    VectorInverts(b.transactions, MIN_TRANSACTION_SIZE, ParseTransaction, Encode, WellFormed, []);
  }

  lemma BlockEncodes(raw: Bytes, b: WireBlock)
    requires BlockParses(raw, b)
    ensures BlockOk(b) && raw == EncodeBlock(b)
  {
    hide ParseTransaction, Encode, WellFormed, ParseHeader, EncodeHeader, HeaderOk, Vector, VectorBytes, AllOk, Inverts;
    HeaderEncodes(raw);
    var s1 := ParseHeader(raw).value.1;
    TransactionInverts();
    VectorSplits(s1, MIN_TRANSACTION_SIZE, ParseTransaction, Encode, WellFormed);
    assert VectorBytes(b.transactions, Encode) + [] == VectorBytes(b.transactions, Encode);
  }
}
