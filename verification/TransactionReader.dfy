/** The transaction walk itself: a cursor advanced field by field, keeping what
    the projection and the id need and stepping over the rest. */
module TransactionReader {
  import opened Wrappers
  import opened ChainWorld
  import opened ByteInts
  import opened Slices
  import opened WireParsing
  import opened TransactionWire
  import opened TransactionFormat

  datatype RawSapling = RawSapling(
    spends: seq<RawSaplingSpend>, outputs: seq<RawSaplingOutput>, valueBalance: I64, anchor: Option<Bytes>)
  {
    predicate IsEmpty() {
      spends == [] && outputs == []
    }
  }

  datatype RawBundle = RawBundle(actions: seq<RawAction>, flags: Byte, valueBalance: I64, anchor: Bytes)

  datatype RawTransaction = RawTransaction(
    version: Version, consensusBranchId: nat, lockTime: nat, expiryHeight: nat,
    inputs: seq<RawInput>, outputs: seq<RawOutput>, sapling: RawSapling,
    orchard: Option<RawBundle>, ironwood: Option<RawBundle>, bytes: Bytes)

  // ---- what is kept of the wire

  function KeptSpend(x: SpendV4): RawSaplingSpend {
    x.spend
  }

  function KeptOutput(x: OutputV4): RawSaplingOutput {
    x.output
  }

  function Mapped<T, U>(items: seq<T>, keep: T -> U): (r: seq<U>)
    ensures |r| == |items| && forall i :: 0 <= i < |items| ==> r[i] == keep(items[i])
  {
    seq(|items|, i requires 0 <= i < |items| => keep(items[i]))
  }

  function KeepSaplingV4(x: SaplingV4): RawSapling {
    RawSapling(Mapped(x.spends, KeptSpend), Mapped(x.outputs, KeptOutput), x.valueBalance, None)
  }

  function KeepSaplingV5(x: SaplingV5): RawSapling {
    RawSapling(x.spends, x.outputs, x.valueBalance, if x.spends == [] then None else Some(x.anchor))
  }

  function KeepBundle(x: Bundle): Option<RawBundle> {
    match x
    case NoBundle => None
    case Bundle(actions, flags, balance, anchor, _, _, _) => Some(RawBundle(actions, flags, balance, anchor))
  }

  function KeepLegacy(x: Legacy, version: Version, bytes: Bytes): RawTransaction {
    RawTransaction(version, 0, x.lockTime, x.expiryHeight, x.inputs, x.outputs, KeepSaplingV4(x.sapling), None, None, bytes)
  }

  function KeepModern(x: Modern, version: Version, bytes: Bytes): RawTransaction {
    RawTransaction(version, x.consensusBranchId, x.lockTime, x.expiryHeight, x.inputs, x.outputs, KeepSaplingV5(x.sapling),
      KeepBundle(x.orchard), KeepBundle(x.ironwood), bytes)
  }

  /** The reader's view of a transaction: the kept fields and the encoding itself. */
  function Keep(x: WireTransaction): RawTransaction {
    match x
    case OldFormat(v, legacy) => KeepLegacy(legacy, v, Encode(x))
    case NewFormat(v, modern) => KeepModern(modern, v, Encode(x))
  }

  // ---- the cursor

  /** The step taken is the one the parser describes. */
  ghost predicate Answers<T>(p: Parsed<T>, r: Result<T, DecodeError>, rest: Bytes) {
    if p.Ok? then r == Ok(p.value.0) && rest == p.value.1 else r == Err(p.error)
  }

  /** Items already read, put before the ones still to come. */
  ghost function Prepended<T>(items: seq<T>, p: Parsed<seq<T>>): Parsed<seq<T>> {
    if p.Ok? then Ok((items + p.value.0, p.value.1)) else p
  }

  class Reader {
    const bytes: Bytes
    var position: nat

    ghost predicate Valid()
      reads this
    {
      position <= |bytes|
    }

    constructor (bytes: Bytes)
      ensures Valid() && this.bytes == bytes && position == 0
    {
      this.bytes := bytes;
      position := 0;
    }

    ghost function Rest(): Bytes
      requires Valid()
      reads this
    {
      bytes[position..]
    }

    /** The next `n` bytes; a failed take does not move. */
    method Take(n: nat) returns (r: Result<Bytes, DecodeError>)
      requires Valid()
      modifies this
      ensures Valid() && Answers(WireParsing.Take(old(Rest()), n), r, Rest())
      ensures r.Err? ==> position == old(position)
    {
      var end := position + n;
      if end > |bytes| {
        return Err(Truncated(n, |bytes| - position));
      }
      assert bytes[position..][..n] == bytes[position..end] && bytes[position..][n..] == bytes[end..];
      r := Ok(bytes[position..end]);
      position := end;
    }

    method U8() returns (r: Result<Byte, DecodeError>)
      requires Valid()
      modifies this
      ensures Valid() && Answers(WireParsing.U8(old(Rest())), r, Rest())
    {
      var b :- Take(1);
      return Ok(b[0]);
    }

    method U32Le() returns (r: Result<nat, DecodeError>)
      requires Valid()
      modifies this
      ensures Valid() && Answers(U32(old(Rest())), r, Rest())
    {
      var b :- Take(4);
      return Ok(FromLe(b));
    }

    method I64Le() returns (r: Result<I64, DecodeError>)
      requires Valid()
      modifies this
      ensures Valid() && Answers(SignedLe(old(Rest())), r, Rest())
    {
      var b :- Take(8);
      return Ok(I64Of(b));
    }

    method CompactSize() returns (r: Result<nat, DecodeError>)
      requires Valid()
      modifies this
      ensures Valid() && Answers(WireParsing.CompactSize(old(Rest())), r, Rest())
    {
      var flag :- U8();
      var value: nat;
      if flag < 253 {
        value := flag;
      } else if flag == 253 {
        var b :- Take(2);
        value :- Canonical(FromLe(b), 253);
      } else if flag == 254 {
        var b :- Take(4);
        value :- Canonical(FromLe(b), 0x1_0000);
      } else {
        var b :- Take(8);
        value :- Canonical(FromLe(b), 0x1_0000_0000);
      }
      if value > MAX_COMPACT_SIZE {
        return Err(CompactSizeTooLarge(value));
      }
      return Ok(value);
    }

    method VarBytes() returns (r: Result<Bytes, DecodeError>)
      requires Valid()
      modifies this
      ensures Valid() && Answers(WireParsing.VarBytes(old(Rest())), r, Rest())
    {
      var len :- CompactSize();
      r := Take(len);
    }

    /** Fixed-size fields one after another. */
    method TakeFields(sizes: seq<nat>) returns (r: Result<seq<Bytes>, DecodeError>)
      requires Valid()
      modifies this
      ensures Valid() && Answers(Fields(old(Rest()), sizes), r, Rest())
    {
      hide Fields, WireParsing.Take, Prepended;
      ghost var all := Rest();
      var fields: seq<Bytes> := [];
      var i := 0;
      PrependNothing(Fields(all, sizes));
      assert sizes[0..] == sizes;
      while i < |sizes|
        invariant 0 <= i <= |sizes| && Valid()
        invariant Fields(all, sizes) == Prepended(fields, Fields(Rest(), sizes[i..]))
      {
        PrependField(fields, Rest(), sizes, i);
        var field := Take(sizes[i]);
        if field.Err? {
          return Err(field.error);
        }
        fields := fields + [field.value];
        i := i + 1;
      }
      PrependNoFields(fields, Rest(), sizes);
      return Ok(fields);
    }

    /** One item of a vector, field by field. */
    method ReadItem(kind: ItemKind) returns (r: Result<Item, DecodeError>)
      requires Valid()
      modifies this
      ensures Valid() && Answers(ParseItem(kind, old(Rest())), r, Rest())
    {
      hide WireParsing.VarBytes, U32, Fields;
      match kind {
        case Inputs =>
          var hash :- Take(32);
          var index :- U32Le();
          var script :- VarBytes();
          var sequence :- U32Le();
          return Ok(OfInput(RawInput(hash, index, script, sequence)));
        case Outputs =>
          var value :- Take(8);
          var script :- VarBytes();
          return Ok(OfOutput(RawOutput(value, script)));
        case SpendsV4 =>
          var f :- TakeFields(SPEND_V4);
          return Ok(OfSpend(SpendV4Of(f).spend));
        case OutputsV4 =>
          var f :- TakeFields(OUTPUT_V4);
          return Ok(OfShielded(OutputV4Of(f).output));
        case SpendsV5 =>
          var f :- TakeFields(SPEND_V5);
          return Ok(OfSpend(SpendV5Of(f)));
        case OutputsV5 =>
          var f :- TakeFields(OUTPUT_V5);
          return Ok(OfShielded(OutputV5Of(f)));
        case Actions =>
          var f :- TakeFields(ACTION);
          return Ok(OfAction(ActionOf(f)));
      }
    }

    method Vector(minItem: nat, kind: ItemKind) returns (r: Result<seq<Item>, DecodeError>)
      requires Valid()
      modifies this
      ensures Valid() && Answers(WireParsing.Vector(old(Rest()), minItem, ItemReader(kind)), r, Rest())
    {
      hide WireParsing.CompactSize, Items;
      var count :- CompactSize();
      var needed := count * minItem;
      if needed > |bytes| - position {
        return Err(Truncated(needed, |bytes| - position));
      }
      r := ReadItems(count, kind);
    }

    method ReadItems(count: nat, kind: ItemKind) returns (r: Result<seq<Item>, DecodeError>)
      requires Valid()
      modifies this
      ensures Valid() && Answers(Items(old(Rest()), count, ItemReader(kind)), r, Rest())
    {
      hide Items, Prepended, ParseItem;
      ghost var all, read := Rest(), ItemReader(kind);
      var items: seq<Item> := [];
      var i := 0;
      PrependNothing(Items(all, count, read));
      while i < count
        invariant 0 <= i <= count && Valid()
        invariant Items(all, count, read) == Prepended(items, Items(Rest(), count - i, read))
      {
        PrependStep(items, Rest(), count - i, read);
        var item := ReadItem(kind);
        if item.Err? {
          return Err(item.error);
        }
        items := items + [item.value];
        i := i + 1;
      }
      PrependEnds(items, Rest(), read);
      return Ok(items);
    }
  }

  lemma PrependNothing<T>(p: Parsed<seq<T>>)
    ensures Prepended([], p) == p
  {
    if p.Ok? {
      assert [] + p.value.0 == p.value.0;
    }
  }

  lemma PrependStep<T>(items: seq<T>, s: Bytes, n: nat, read: Bytes -> Parsed<T>)
    requires n > 0
    ensures Prepended(items, Items(s, n, read)) ==
      if read(s).Err? then Err(read(s).error)
      else Prepended(items + [read(s).value.0], Items(read(s).value.1, n - 1, read))
  {
    if read(s).Ok? && Items(read(s).value.1, n - 1, read).Ok? {
      Associates(items, [read(s).value.0], Items(read(s).value.1, n - 1, read).value.0);
    }
  }

  lemma PrependEnds<T>(items: seq<T>, s: Bytes, read: Bytes -> Parsed<T>)
    ensures Prepended(items, Items(s, 0, read)) == Ok((items, s))
  {
    assert items + [] == items;
  }

  lemma PrependField(fields: seq<Bytes>, s: Bytes, sizes: seq<nat>, i: nat)
    requires i < |sizes|
    ensures Prepended(fields, Fields(s, sizes[i..])) ==
      if Take(s, sizes[i]).Err? then Err(Take(s, sizes[i]).error)
      else Prepended(fields + [Take(s, sizes[i]).value.0], Fields(Take(s, sizes[i]).value.1, sizes[i + 1..]))
  {
    hide Take;
    assert sizes[i..][1..] == sizes[i + 1..];
    if Take(s, sizes[i]).Ok? && Fields(Take(s, sizes[i]).value.1, sizes[i + 1..]).Ok? {
      Associates(fields, [Take(s, sizes[i]).value.0], Fields(Take(s, sizes[i]).value.1, sizes[i + 1..]).value.0);
    }
  }

  lemma PrependNoFields(fields: seq<Bytes>, s: Bytes, sizes: seq<nat>)
    ensures Prepended(fields, Fields(s, sizes[|sizes|..])) == Ok((fields, s))
  {
    assert sizes[|sizes|..] == [] && fields + [] == fields;
  }

  /** A longer form must hold what the shorter ones could not. */
  function Canonical(value: nat, minimum: nat): Result<nat, DecodeError> {
    if value < minimum then Err(NonCanonicalCompactSize) else Ok(value)
  }

  // ---- items, as kept

  function KeptParse<T, U>(p: Parsed<T>, keep: T -> U): Parsed<U> {
    var (x, rest) :- p;
    Ok((keep(x), rest))
  }

  /** The vectors the walk reads, by what it does with one item. */
  datatype ItemKind = Inputs | Outputs | SpendsV4 | OutputsV4 | SpendsV5 | OutputsV5 | Actions

  datatype Item =
    | OfInput(input: RawInput)
    | OfOutput(output: RawOutput)
    | OfSpend(spend: RawSaplingSpend)
    | OfShielded(shielded: RawSaplingOutput)
    | OfAction(action: RawAction)

  function ParseItem(kind: ItemKind, s: Bytes): Parsed<Item> {
    match kind
    case Inputs => KeptParse(ReadInput(s), FromInput)
    case Outputs => KeptParse(ReadOutput(s), FromOutput)
    case SpendsV4 => KeptParse(ReadSpendV4(s), FromSpendV4)
    case OutputsV4 => KeptParse(ReadOutputV4(s), FromOutputV4)
    case SpendsV5 => KeptParse(ReadSpendV5(s), FromSpend)
    case OutputsV5 => KeptParse(ReadOutputV5(s), FromShielded)
    case Actions => KeptParse(ReadAction(s), FromAction)
  }

  function ItemReader(kind: ItemKind): Bytes -> Parsed<Item> {
    (s: Bytes) => ParseItem(kind, s)
  }

  function FromInput(x: RawInput): Item { OfInput(x) }
  function FromOutput(x: RawOutput): Item { OfOutput(x) }
  function FromSpendV4(x: SpendV4): Item { OfSpend(x.spend) }
  function FromOutputV4(x: OutputV4): Item { OfShielded(x.output) }
  function FromSpend(x: RawSaplingSpend): Item { OfSpend(x) }
  function FromShielded(x: RawSaplingOutput): Item { OfShielded(x) }
  function FromAction(x: RawAction): Item { OfAction(x) }

  function InputIn(x: Item): RawInput { if x.OfInput? then x.input else RawInput([], 0, [], 0) }
  function OutputIn(x: Item): RawOutput { if x.OfOutput? then x.output else RawOutput([], []) }
  function SpendIn(x: Item): RawSaplingSpend { if x.OfSpend? then x.spend else RawSaplingSpend([], [], []) }
  function ShieldedIn(x: Item): RawSaplingOutput { if x.OfShielded? then x.shielded else RawSaplingOutput([], [], [], [], []) }
  function ActionIn(x: Item): RawAction { if x.OfAction? then x.action else RawAction([], [], [], [], [], [], []) }

  /** Wrapping each item and taking it out again gives what the parser reads, kept. */
  lemma VectorUnwrapped<T(!new), U>(s: Bytes, minItem: nat, read: Bytes -> Parsed<T>, kind: ItemKind, wrap: T -> Item,
      unwrap: Item -> U, keep: T -> U)
    requires forall s: Bytes :: ParseItem(kind, s) == KeptParse(read(s), wrap)
    requires forall x: T :: unwrap(wrap(x)) == keep(x)
    ensures var p, q := Vector(s, minItem, read), Vector(s, minItem, ItemReader(kind));
      if p.Ok? then q.Ok? && q.value.1 == p.value.1 && Mapped(q.value.0, unwrap) == Mapped(p.value.0, keep)
      else q == Err(p.error)
  {
    hide Vector, ParseItem;
    VectorKept(s, minItem, read, ItemReader(kind), wrap);
    if Vector(s, minItem, read).Ok? {
      var xs := Vector(s, minItem, read).value.0;
      assert Mapped(Mapped(xs, wrap), unwrap) == Mapped(xs, keep);
    }
  }

  lemma MappedSame<T(!new)>(xs: seq<T>, same: T -> T)
    requires forall x: T :: same(x) == x
    ensures Mapped(xs, same) == xs
  {
  }

  /** Keeping part of each item is keeping part of the vector. */
  lemma VectorKept<T(!new), U>(s: Bytes, minItem: nat, read: Bytes -> Parsed<T>, kept: Bytes -> Parsed<U>, keep: T -> U)
    requires forall s: Bytes :: kept(s) == KeptParse(read(s), keep)
    ensures Vector(s, minItem, kept) == KeptParse(Vector(s, minItem, read), (xs: seq<T>) => Mapped(xs, keep))
  {
    hide CompactSize;
    if CompactSize(s).Ok? {
      var (count, rest) := CompactSize(s).value;
      ItemsKept(rest, count, read, kept, keep);
    }
  }

  lemma {:induction false} ItemsKept<T(!new), U>(s: Bytes, count: nat, read: Bytes -> Parsed<T>,
      kept: Bytes -> Parsed<U>,
      keep: T -> U)
    requires forall s: Bytes :: kept(s) == KeptParse(read(s), keep)
    ensures Items(s, count, kept) == KeptParse(Items(s, count, read), (xs: seq<T>) => Mapped(xs, keep))
    decreases count
  {
    if count == 0 {
      assert Mapped([], keep) == [];
    } else if read(s).Ok? {
      var (first, rest) := read(s).value;
      ItemsKept(rest, count - 1, read, kept, keep);
      if Items(rest, count - 1, read).Ok? {
        var others := Items(rest, count - 1, read).value.0;
        assert Mapped([first] + others, keep) == [keep(first)] + Mapped(others, keep);
      }
    }
  }

  // ---- bundles and layouts

  /** The step taken is the one the parser describes, keeping part of what it reads. */
  ghost predicate Keeps<T, U>(p: Parsed<T>, keep: T -> U, r: Result<U, DecodeError>, rest: Bytes) {
    if p.Ok? then r == Ok(keep(p.value.0)) && rest == p.value.1 else r == Err(p.error)
  }

  /** A vector of items, part of each kept. */
  method ReadVector<T(!new), U>(reader: Reader, minItem: nat, kind: ItemKind, ghost read: Bytes -> Parsed<T>,
      ghost wrap: T -> Item, unwrap: Item -> U, ghost keep: T -> U)
    returns (r: Result<seq<U>, DecodeError>)
    requires reader.Valid() && forall s: Bytes :: ParseItem(kind, s) == KeptParse(read(s), wrap)
    requires forall x: T :: unwrap(wrap(x)) == keep(x)
    modifies reader
    ensures reader.Valid()
    ensures Keeps(Vector(old(reader.Rest()), minItem, read), (xs: seq<T>) => Mapped(xs, keep), r, reader.Rest())
  {
    hide Vector, ParseItem;
    VectorUnwrapped(reader.Rest(), minItem, read, kind, wrap, unwrap, keep);
    var items :- reader.Vector(minItem, kind);
    return Ok(Mapped(items, unwrap));
  }

  /** A vector of items kept whole. */
  method ReadWhole<T(!new)>(reader: Reader, minItem: nat, kind: ItemKind, ghost read: Bytes -> Parsed<T>,
      ghost wrap: T -> Item, unwrap: Item -> T)
    returns (r: Result<seq<T>, DecodeError>)
    requires reader.Valid() && forall s: Bytes :: ParseItem(kind, s) == KeptParse(read(s), wrap)
    requires forall x: T :: unwrap(wrap(x)) == x
    modifies reader
    ensures reader.Valid() && Answers(Vector(old(reader.Rest()), minItem, read), r, reader.Rest())
  {
    hide Vector, ParseItem;
    ghost var same := (x: T) => x;
    r := ReadVector(reader, minItem, kind, read, wrap, unwrap, same);
    if r.Ok? {
      MappedSame(Vector(old(reader.Rest()), minItem, read).value.0, same);
    }
  }

  method ReadSaplingV4(reader: Reader) returns (r: Result<RawSapling, DecodeError>)
    requires reader.Valid()
    modifies reader
    ensures reader.Valid() && Keeps(ParseSaplingV4(old(reader.Rest())), KeepSaplingV4, r, reader.Rest())
  {
    hide Vector, SignedLe, ReadSpendV4, ReadOutputV4;
    var balance :- reader.I64Le();
    var spends :- ReadVector(reader, SAPLING_SPEND_V4, SpendsV4, ReadSpendV4, FromSpendV4, SpendIn, KeptSpend);
    var outputs :- ReadVector(reader, SAPLING_OUTPUT_V4, OutputsV4, ReadOutputV4, FromOutputV4, ShieldedIn, KeptOutput);
    return Ok(RawSapling(spends, outputs, balance, None));
  }

  method ReadSaplingV5(reader: Reader) returns (r: Result<RawSapling, DecodeError>)
    requires reader.Valid()
    modifies reader
    ensures reader.Valid() && Keeps(ParseSaplingV5(old(reader.Rest())), KeepSaplingV5, r, reader.Rest())
  {
    hide Vector, SignedLe, Fields;
    var spends :- ReadWhole(reader, SAPLING_SPEND_V5, SpendsV5, ReadSpendV5, FromSpend, SpendIn);
    var outputs :- ReadWhole(reader, SAPLING_OUTPUT_V5, OutputsV5, ReadOutputV5, FromShielded, ShieldedIn);
    var any := !(spends == [] && outputs == []);
    var balance: I64 := 0;
    if any {
      balance :- reader.I64Le();
    }
    FourTakes(reader.Rest(), When(|spends| > 0, 32), |spends| * (GROTH_PROOF + SIGNATURE), |outputs| * GROTH_PROOF,
      When(any, SIGNATURE));
    TakeNothing(reader.Rest());
    var anchor: Option<Bytes> := None;
    if spends != [] {
      var a :- reader.Take(32);
      anchor := Some(a);
    }
    var _ :- reader.Take(|spends| * (GROTH_PROOF + SIGNATURE));
    var _ :- reader.Take(|outputs| * GROTH_PROOF);
    TakeNothing(reader.Rest());
    if any {
      var _ :- reader.Take(SIGNATURE);
    }
    return Ok(RawSapling(spends, outputs, balance, anchor));
  }

  lemma TakeNothing(s: Bytes)
    ensures Take(s, 0) == Ok(([], s))
  {
  }

  lemma NoFields(s: Bytes)
    ensures Fields(s, []) == Ok(([], s))
  {
  }

  lemma FieldsCons(s: Bytes, first: nat, others: seq<nat>, sizes: seq<nat>)
    requires sizes == [first] + others
    ensures Fields(s, sizes) ==
      if Take(s, first).Err? then Err(Take(s, first).error)
      else
        var (x, s1) := Take(s, first).value;
        if Fields(s1, others).Err? then Err(Fields(s1, others).error)
        else Ok(([x] + Fields(s1, others).value.0, Fields(s1, others).value.1))
  {
  }

  lemma TwoTakes(s: Bytes, a: nat, b: nat)
    ensures Fields(s, [a, b]) ==
      if Take(s, a).Err? then Err(Take(s, a).error)
      else
        var (x, s1) := Take(s, a).value;
        if Take(s1, b).Err? then Err(Take(s1, b).error)
        else Ok(([x, Take(s1, b).value.0], Take(s1, b).value.1))
  {
    hide Take, Fields;
    FieldsCons(s, a, [b], [a, b]);
    if Take(s, a).Ok? {
      var (x, s1) := Take(s, a).value;
      FieldsCons(s1, b, [], [b]);
      if Take(s1, b).Ok? {
        var (y, s2) := Take(s1, b).value;
        NoFields(s2);
        assert [x] + ([y] + []) == [x, y];
      }
    }
  }

  lemma FourTakes(s: Bytes, a: nat, b: nat, c: nat, d: nat)
    ensures Fields(s, [a, b, c, d]) ==
      if Take(s, a).Err? then Err(Take(s, a).error)
      else
        var (w, s1) := Take(s, a).value;
        if Take(s1, b).Err? then Err(Take(s1, b).error)
        else
          var (x, s2) := Take(s1, b).value;
          if Take(s2, c).Err? then Err(Take(s2, c).error)
          else
            var (y, s3) := Take(s2, c).value;
            if Take(s3, d).Err? then Err(Take(s3, d).error)
            else Ok(([w, x, y, Take(s3, d).value.0], Take(s3, d).value.1))
  {
    hide Take, Fields;
    FieldsCons(s, a, [b, c, d], [a, b, c, d]);
    if Take(s, a).Ok? {
      var (w, s1) := Take(s, a).value;
      FieldsCons(s1, b, [c, d], [b, c, d]);
      if Take(s1, b).Ok? {
        var (x, s2) := Take(s1, b).value;
        TwoTakes(s2, c, d);
        if Fields(s2, [c, d]).Ok? {
          var f := Fields(s2, [c, d]).value.0;
          assert [w] + ([x] + f) == [w, x, f[0], f[1]];
        }
      }
    }
  }

  method ReadBundle(reader: Reader) returns (r: Result<Option<RawBundle>, DecodeError>)
    requires reader.Valid()
    modifies reader
    ensures reader.Valid() && Keeps(ParseBundle(old(reader.Rest())), KeepBundle, r, reader.Rest())
  {
    hide Vector, SignedLe, U8, VarBytes, Take;
    var actions :- ReadWhole(reader, ORCHARD_ACTION, Actions, ReadAction, FromAction, ActionIn);
    if actions == [] {
      return Ok(None);
    }
    var flags :- reader.U8();
    var balance :- reader.I64Le();
    var anchor :- reader.Take(32);
    var _ :- reader.VarBytes();
    var _ :- reader.Take(|actions| * SIGNATURE);
    var _ :- reader.Take(SIGNATURE);
    return Ok(Some(RawBundle(actions, flags, balance, anchor)));
  }

  method SkipJoinSplits(reader: Reader, groth: bool) returns (r: Result<(), DecodeError>)
    requires reader.Valid()
    modifies reader
    ensures reader.Valid() && Keeps(ParseJoinSplits(old(reader.Rest()), groth), (x: JoinSplits) => (), r, reader.Rest())
  {
    hide CompactSize, Fields;
    var count :- reader.CompactSize();
    TwoTakes(reader.Rest(), count * JoinSplitSize(groth), When(count > 0, 32 + SIGNATURE));
    var _ :- reader.Take(count * JoinSplitSize(groth));
    TakeNothing(reader.Rest());
    if count > 0 {
      var _ :- reader.Take(32 + SIGNATURE);
    }
    return Ok(());
  }

  method ReadV4Format(reader: Reader, version: Version) returns (r: Result<RawTransaction, DecodeError>)
    requires reader.Valid()
    modifies reader
    ensures reader.Valid()
    ensures Keeps(ParseLegacy(old(reader.Rest()), version), (x: Legacy) => KeepLegacy(x, version, []), r, reader.Rest())
  {
    hide Vector, U32, ParseSaplingV4, ParseJoinSplits;
    var inputs :- ReadWhole(reader, MIN_INPUT, Inputs, ReadInput, FromInput, InputIn);
    var outputs :- ReadWhole(reader, MIN_OUTPUT, Outputs, ReadOutput, FromOutput, OutputIn);
    var lockTime :- reader.U32Le();
    var expiry := 0;
    if !version.Sprout? {
      expiry :- reader.U32Le();
    }
    var sapling := RawSapling([], [], 0, None);
    if version == V4 {
      sapling :- ReadSaplingV4(reader);
    }
    if version.HasSprout() {
      var _ :- SkipJoinSplits(reader, version == V4);
    }
    TakeNothing(reader.Rest());
    if version == V4 && !sapling.IsEmpty() {
      var _ :- reader.Take(SIGNATURE);
    }
    return Ok(RawTransaction(version, 0, lockTime, expiry, inputs, outputs, sapling, None, None, []));
  }

  method ReadV5Format(reader: Reader, version: Version, withIronwood: bool) returns (r: Result<RawTransaction,
      DecodeError>)
    requires reader.Valid()
    modifies reader
    ensures reader.Valid()
    ensures Keeps(ParseModern(old(reader.Rest()), withIronwood), (x: Modern) => KeepModern(x, version, []), r, reader.Rest())
  {
    hide Vector, U32, ParseSaplingV5, ParseBundle;
    var branch :- reader.U32Le();
    var lockTime :- reader.U32Le();
    var expiry :- reader.U32Le();
    var inputs :- ReadWhole(reader, MIN_INPUT, Inputs, ReadInput, FromInput, InputIn);
    var outputs :- ReadWhole(reader, MIN_OUTPUT, Outputs, ReadOutput, FromOutput, OutputIn);
    var sapling :- ReadSaplingV5(reader);
    var orchard :- ReadBundle(reader);
    var ironwood: Option<RawBundle> := None;
    if withIronwood {
      ironwood :- ReadBundle(reader);
    }
    return Ok(RawTransaction(version, branch, lockTime, expiry, inputs, outputs, sapling, orchard, ironwood, []));
  }

  method ReadVersion(reader: Reader) returns (r: Result<Version, DecodeError>)
    requires reader.Valid()
    modifies reader
    ensures reader.Valid() && Answers(ParseVersion(old(reader.Rest())), r, reader.Rest())
  {
    hide U32;
    var header :- reader.U32Le();
    if header >= OVERWINTER_FLAG {
      var group :- reader.U32Le();
      var number := header - OVERWINTER_FLAG;
      if number == 3 && group == V3.VersionGroupId() {
        return Ok(V3);
      } else if number == 4 && group == V4.VersionGroupId() {
        return Ok(V4);
      } else if number == 5 && group == V5.VersionGroupId() {
        return Ok(V5);
      } else if number == 6 && group == V6.VersionGroupId() {
        return Ok(V6);
      }
      return Err(UnknownTransactionVersion(header, Some(group)));
    }
    if header == 1 || header == 2 {
      return Ok(Sprout(header));
    }
    return Err(UnknownTransactionVersion(header, None));
  }

  /** One transaction. Whatever follows, it reads exactly the encodings of
      well-formed transactions: it keeps their fields and their bytes, and stops
      where they end. */
  method ReadTransaction(reader: Reader) returns (r: Result<RawTransaction, DecodeError>)
    requires reader.Valid()
    modifies reader
    ensures reader.Valid() && Keeps(ParseTransaction(old(reader.Rest())), Keep, r, reader.Rest())
    ensures r.Ok? ==> exists x :: WellFormed(x) && old(reader.Rest()) == Encode(x) + reader.Rest() && r.value == Keep(x)
    ensures forall x, t :: WellFormed(x) && old(reader.Rest()) == Encode(x) + t ==> r == Ok(Keep(x)) && reader.Rest() == t
  {
    hide ParseVersion, ParseLegacy, ParseModern, Encode, WellFormed;
    var start := reader.position;
    ghost var s := reader.Rest();
    forall x, t | WellFormed(x) && s == Encode(x) + t ensures ParseTransaction(s) == Ok((x, t)) {
      TransactionReads(x, t);
    }
    TransactionEncodes(s);
    var version :- ReadVersion(reader);
    var kept: RawTransaction;
    if IsModern(version) {
      kept :- ReadV5Format(reader, version, version == V6);
    } else {
      kept :- ReadV4Format(reader, version);
    }
    EncodingSpan(reader.bytes, start, reader.position, Encode(ParseTransaction(s).value.0));
    return Ok(kept.(bytes := reader.bytes[start..reader.position]));
  }

  lemma EncodingSpan(bytes: Bytes, start: nat, end: nat, encoding: Bytes)
    requires start <= |bytes| && end <= |bytes| && bytes[start..] == encoding + bytes[end..]
    ensures start <= end && bytes[start..end] == encoding
  {
  }
}
