/** Reading consensus bytes as functions of what is left to read: each yields a
    value and the rest, or the reader's error. Beside each, the bytes it inverts. */
module WireParsing {
  import opened Wrappers
  import opened ChainWorld
  import opened ByteInts
  import opened Slices

  datatype DecodeError =
    | Truncated(needed: nat, available: nat)
    | CompactSizeTooLarge(value: nat)
    | NonCanonicalCompactSize
    | UnknownTransactionVersion(header: nat, group: Option<nat>)
    | CoinbaseHeight(why: string)
    | HeightOutOfRange(height: nat)
    | Trailing(left: nat)
    | NoTransactions
    | NoCoinbase

  type Bytes = seq<Byte>
  type Parsed<+T> = Result<(T, Bytes), DecodeError>

  /** The largest value a compact-size prefix may carry. */
  const MAX_COMPACT_SIZE: nat := 0x0200_0000

  function Take(s: Bytes, n: nat): Parsed<Bytes> {
    if n > |s| then Err(Truncated(n, |s|)) else Ok((s[..n], s[n..]))
  }

  function U8(s: Bytes): Parsed<Byte> {
    var (b, rest) :- Take(s, 1);
    Ok((b[0], rest))
  }

  function U32(s: Bytes): Parsed<nat> {
    var (b, rest) :- Take(s, 4);
    Ok((FromLe(b), rest))
  }

  const U32_SPAN: nat := 0x1_0000_0000
  const I64_HALF: int := 0x8000_0000_0000_0000
  const U64_SPAN: nat := 0x1_0000_0000_0000_0000

  type I64 = x: int | -I64_HALF <= x < I64_HALF witness 0

  /** Two's complement over eight little-endian bytes. */
  function I64Of(b: Bytes): I64
    requires |b| == 8
  {
    LeBytesInverts(b);
    WordSizes();
    if FromLe(b) < I64_HALF then FromLe(b) else FromLe(b) - U64_SPAN
  }

  function I64Bytes(x: I64): (b: Bytes)
    ensures |b| == 8
  {
    LeBytes(if x >= 0 then x else x + U64_SPAN, 8)
  }

  function SignedLe(s: Bytes): Parsed<I64> {
    var (b, rest) :- Take(s, 8);
    Ok((I64Of(b), rest))
  }

  /** A compact-size prefix, in its shortest form only. */
  function CompactSize(s: Bytes): Parsed<nat> {
    var (flag, rest) :- U8(s);
    if flag < 253 then Ok((flag, rest))
    else
      var width := if flag == 253 then 2 else if flag == 254 then 4 else 8;
      var minimum := if flag == 253 then 253 else if flag == 254 then 0x1_0000 else U32_SPAN;
      var (b, rest) :- Take(rest, width);
      var value := FromLe(b);
      if value < minimum then Err(NonCanonicalCompactSize)
      else if value > MAX_COMPACT_SIZE then Err(CompactSizeTooLarge(value))
      else Ok((value, rest))
  }

  /** The prefix as the encoding writes it. */
  function CompactBytes(n: nat): Bytes {
    if n < 253 then [n]
    else if n <= 0xFFFF then [253] + LeBytes(n, 2)
    else if n <= 0xFFFF_FFFF then [254] + LeBytes(n, 4)
    else [255] + LeBytes(n, 8)
  }

  function VarBytes(s: Bytes): Parsed<Bytes> {
    var (len, rest) :- CompactSize(s);
    Take(rest, len)
  }

  function VarEncoded(b: Bytes): Bytes {
    CompactBytes(|b|) + b
  }

  // ---- what each inverts

  lemma TakeInverts(a: Bytes, t: Bytes)
    ensures Take(a + t, |a|) == Ok((a, t))
  {
  }

  lemma TakeSplits(s: Bytes, n: nat)
    ensures Take(s, n).Ok? ==> |Take(s, n).value.0| == n && s == Take(s, n).value.0 + Take(s, n).value.1
  {
  }

  lemma U8Inverts(b: Byte, t: Bytes)
    ensures U8([b] + t) == Ok((b, t))
  {
  }

  lemma U8Splits(s: Bytes)
    ensures U8(s).Ok? ==> s == [U8(s).value.0] + U8(s).value.1
  {
  }

  lemma U32Inverts(n: nat, t: Bytes)
    requires n < U32_SPAN
    ensures U32(LeBytes(n, 4) + t) == Ok((n, t))
  {
    hide LeBytes, FromLe, Take;
    WordSizes();
    FromLeInverts(n, 4);
    TakeInverts(LeBytes(n, 4), t);
  }

  lemma U32Splits(s: Bytes)
    ensures U32(s).Ok? ==> U32(s).value.0 < U32_SPAN && s == LeBytes(U32(s).value.0, 4) + U32(s).value.1
  {
    hide LeBytes, FromLe, Take;
    TakeSplits(s, 4);
    if U32(s).Ok? {
      WordSizes();
      LeBytesInverts(Take(s, 4).value.0);
    }
  }

  lemma I64Inverts(x: I64)
    ensures I64Of(I64Bytes(x)) == x
  {
    hide LeBytes, FromLe;
    WordSizes();
    FromLeInverts(if x >= 0 then x else x + U64_SPAN, 8);
  }

  lemma I64BytesInverts(b: Bytes)
    requires |b| == 8
    ensures I64Bytes(I64Of(b)) == b
  {
    hide LeBytes, FromLe;
    WordSizes();
    LeBytesInverts(b);
  }

  lemma SignedInverts(x: I64, t: Bytes)
    ensures SignedLe(I64Bytes(x) + t) == Ok((x, t))
  {
    hide Take, I64Bytes, I64Of;
    I64Inverts(x);
    TakeInverts(I64Bytes(x), t);
  }

  lemma SignedSplits(s: Bytes)
    ensures SignedLe(s).Ok? ==> s == I64Bytes(SignedLe(s).value.0) + SignedLe(s).value.1
  {
    hide Take, I64Bytes, I64Of;
    TakeSplits(s, 8);
    if SignedLe(s).Ok? {
      I64BytesInverts(Take(s, 8).value.0);
    }
  }

  /** A compact size is read back from its own bytes, whatever follows. */
  lemma CompactInverts(n: nat, t: Bytes)
    requires n <= MAX_COMPACT_SIZE
    ensures CompactSize(CompactBytes(n) + t) == Ok((n, t))
  {
    hide LeBytes, FromLe, Take, U8;
    WordSizes();
    if n < 253 {
      U8Inverts(n, t);
    } else {
      var flag, w := if n <= 0xFFFF then 253 else 254, if n <= 0xFFFF then 2 else 4;
      Associates([flag], LeBytes(n, w), t);
      U8Inverts(flag, LeBytes(n, w) + t);
      TakeInverts(LeBytes(n, w), t);
      FromLeInverts(n, w);
    }
  }

  /** Nothing else is accepted: a compact size read is one written canonically. */
  lemma CompactSplits(s: Bytes)
    ensures CompactSize(s).Ok? ==>
      var (n, rest) := CompactSize(s).value;
      n <= MAX_COMPACT_SIZE && s == CompactBytes(n) + rest
  {
    hide LeBytes, FromLe, Take, U8;
    WordSizes();
    U8Splits(s);
    if CompactSize(s).Ok? && U8(s).value.0 >= 253 {
      var (flag, rest) := U8(s).value;
      var w := if flag == 253 then 2 else if flag == 254 then 4 else 8;
      TakeSplits(rest, w);
      var b := Take(rest, w).value.0;
      LeBytesInverts(b);
      Associates([flag], b, Take(rest, w).value.1);
    }
  }

  /** The whole characterisation: exactly the canonical bytes up to the maximum. */
  lemma CompactSizeIff(s: Bytes, n: nat, rest: Bytes)
    ensures CompactSize(s) == Ok((n, rest)) <==> n <= MAX_COMPACT_SIZE && s == CompactBytes(n) + rest
  {
    hide CompactBytes, CompactSize;
    CompactSplits(s);
    if n <= MAX_COMPACT_SIZE {
      CompactInverts(n, rest);
    }
  }

  /** No canonical size begins another. */
  lemma CompactIsPrefixFree(m: nat, n: nat, t: Bytes, u: Bytes)
    requires m <= MAX_COMPACT_SIZE && n <= MAX_COMPACT_SIZE
    requires CompactBytes(m) + t == CompactBytes(n) + u
    ensures m == n && t == u
  {
    hide CompactBytes, CompactSize;
    CompactInverts(m, t);
    CompactInverts(n, u);
  }

  lemma VarInverts(b: Bytes, t: Bytes)
    requires |b| <= MAX_COMPACT_SIZE
    ensures VarBytes(VarEncoded(b) + t) == Ok((b, t))
  {
    hide CompactBytes, CompactSize, Take;
    Associates(CompactBytes(|b|), b, t);
    CompactInverts(|b|, b + t);
    TakeInverts(b, t);
  }

  lemma VarSplits(s: Bytes)
    ensures VarBytes(s).Ok? ==>
      |VarBytes(s).value.0| <= MAX_COMPACT_SIZE && s == VarEncoded(VarBytes(s).value.0) + VarBytes(s).value.1
  {
    hide CompactBytes, CompactSize, Take;
    CompactSplits(s);
    if VarBytes(s).Ok? {
      var (len, rest) := CompactSize(s).value;
      TakeSplits(rest, len);
      Associates(CompactBytes(len), Take(rest, len).value.0, Take(rest, len).value.1);
    }
  }

  // ---- fixed-size fields in a row

  function Fields(s: Bytes, sizes: seq<nat>): (r: Parsed<seq<Bytes>>)
    ensures r.Ok? ==> |r.value.0| == |sizes|
    decreases |sizes|
  {
    if sizes == [] then Ok(([], s))
    else
      var (first, rest) :- Take(s, sizes[0]);
      var (others, rest) :- Fields(rest, sizes[1..]);
      Ok(([first] + others, rest))
  }

  function Joined(fields: seq<Bytes>): Bytes
    decreases |fields|
  {
    if fields == [] then [] else fields[0] + Joined(fields[1..])
  }

  predicate Sized(fields: seq<Bytes>, sizes: seq<nat>) {
    |fields| == |sizes| && forall i :: 0 <= i < |sizes| ==> |fields[i]| == sizes[i]
  }

  lemma {:induction false} FieldsInvert(fields: seq<Bytes>, sizes: seq<nat>, t: Bytes)
    requires Sized(fields, sizes)
    ensures Fields(Joined(fields) + t, sizes) == Ok((fields, t))
    decreases |sizes|
  {
    hide Take;
    assert [] + t == t;
    if sizes != [] {
      FieldsInvert(fields[1..], sizes[1..], t);
      Associates(fields[0], Joined(fields[1..]), t);
      TakeInverts(fields[0], Joined(fields[1..]) + t);
      assert fields == [fields[0]] + fields[1..];
    }
  }

  lemma {:induction false} FieldsSplit(s: Bytes, sizes: seq<nat>)
    ensures Fields(s, sizes).Ok? ==>
      Sized(Fields(s, sizes).value.0, sizes) && s == Joined(Fields(s, sizes).value.0) + Fields(s, sizes).value.1
    decreases |sizes|
  {
    hide Take;
    if sizes != [] {
      TakeSplits(s, sizes[0]);
      if Take(s, sizes[0]).Ok? {
        var (first, rest) := Take(s, sizes[0]).value;
        FieldsSplit(rest, sizes[1..]);
        if Fields(rest, sizes[1..]).Ok? {
          var (others, end) := Fields(rest, sizes[1..]).value;
          var all := [first] + others;
          assert all[1..] == others;
          Associates(first, Joined(others), end);
        }
      }
    }
  }

  function Total(sizes: seq<nat>): nat
    decreases |sizes|
  {
    if sizes == [] then 0 else sizes[0] + Total(sizes[1..])
  }

  lemma {:induction false} JoinedLength(fields: seq<Bytes>, sizes: seq<nat>)
    requires Sized(fields, sizes)
    ensures |Joined(fields)| == Total(sizes)
    decreases |sizes|
  {
    if sizes != [] {
      JoinedLength(fields[1..], sizes[1..]);
    }
  }

  // ---- counted vectors

  /** `read` undoes `encode` whatever follows, and accepts nothing else. */
  ghost predicate Inverts<T(!new)>(read: Bytes -> Parsed<T>, encode: T -> Bytes, ok: T -> bool) {
    && (forall x: T, t: Bytes :: ok(x) ==> read(encode(x) + t) == Ok((x, t)))
    && (forall s: Bytes :: read(s).Ok? ==> ok(read(s).value.0) && s == encode(read(s).value.0) + read(s).value.1)
  }

  function Items<T>(s: Bytes, count: nat, read: Bytes -> Parsed<T>): (r: Parsed<seq<T>>)
    ensures r.Ok? ==> |r.value.0| == count
    decreases count
  {
    if count == 0 then Ok(([], s))
    else
      var (first, rest) :- read(s);
      var (others, rest) :- Items(rest, count - 1, read);
      Ok(([first] + others, rest))
  }

  function Encoded<T>(items: seq<T>, encode: T -> Bytes): Bytes
    decreases |items|
  {
    if items == [] then [] else encode(items[0]) + Encoded(items[1..], encode)
  }

  lemma {:induction false} ItemsInvert<T(!new)>(items: seq<T>, read: Bytes -> Parsed<T>, encode: T -> Bytes,
      ok: T -> bool,
      t: Bytes)
    requires Inverts(read, encode, ok)
    requires forall i :: 0 <= i < |items| ==> ok(items[i])
    ensures Items(Encoded(items, encode) + t, |items|, read) == Ok((items, t))
    decreases |items|
  {
    assert [] + t == t;
    if items != [] {
      ItemsInvert(items[1..], read, encode, ok, t);
      Associates(encode(items[0]), Encoded(items[1..], encode), t);
      assert read(encode(items[0]) + (Encoded(items[1..], encode) + t)).Ok?;
      assert items == [items[0]] + items[1..];
    }
  }

  lemma {:induction false} ItemsSplit<T(!new)>(s: Bytes, count: nat, read: Bytes -> Parsed<T>, encode: T -> Bytes,
      ok: T -> bool)
    requires Inverts(read, encode, ok)
    ensures Items(s, count, read).Ok? ==>
      var (items, rest) := Items(s, count, read).value;
      (forall i :: 0 <= i < |items| ==> ok(items[i])) && s == Encoded(items, encode) + rest
    decreases count
  {
    if count > 0 && read(s).Ok? {
      var (first, rest) := read(s).value;
      ItemsSplit(rest, count - 1, read, encode, ok);
      if Items(rest, count - 1, read).Ok? {
        var (others, end) := Items(rest, count - 1, read).value;
        assert ([first] + others)[1..] == others;
        Associates(encode(first), Encoded(others, encode), end);
      }
    }
  }

  /** A count, refused before reading if what is left cannot hold that many
      items of `minItem` bytes, then the items. */
  function Vector<T>(s: Bytes, minItem: nat, read: Bytes -> Parsed<T>): Parsed<seq<T>> {
    var (count, rest) :- CompactSize(s);
    if count * minItem > |rest| then Err(Truncated(count * minItem, |rest|))
    else Items(rest, count, read)
  }

  function VectorBytes<T>(items: seq<T>, encode: T -> Bytes): Bytes {
    CompactBytes(|items|) + Encoded(items, encode)
  }

  predicate AllOk<T>(items: seq<T>, ok: T -> bool) {
    |items| <= MAX_COMPACT_SIZE && forall i :: 0 <= i < |items| ==> ok(items[i])
  }

  lemma {:induction false} EncodedLength<T(!new)>(items: seq<T>, encode: T -> Bytes, ok: T -> bool, minItem: nat)
    requires forall x: T :: ok(x) ==> |encode(x)| >= minItem
    requires forall i :: 0 <= i < |items| ==> ok(items[i])
    ensures |Encoded(items, encode)| >= |items| * minItem
    decreases |items|
  {
    if items != [] {
      EncodedLength(items[1..], encode, ok, minItem);
      assert |encode(items[0])| >= minItem;
      assert |items| * minItem == minItem + (|items| - 1) * minItem;
    }
  }

  lemma VectorInverts<T(!new)>(items: seq<T>, minItem: nat, read: Bytes -> Parsed<T>, encode: T -> Bytes, ok: T -> bool,
      t: Bytes)
    requires Inverts(read, encode, ok) && AllOk(items, ok)
    requires forall x: T :: ok(x) ==> |encode(x)| >= minItem
    ensures Vector(VectorBytes(items, encode) + t, minItem, read) == Ok((items, t))
  {
    hide CompactBytes, CompactSize, Encoded, Items, Inverts;
    var body := Encoded(items, encode);
    Associates(CompactBytes(|items|), body, t);
    CompactInverts(|items|, body + t);
    EncodedLength(items, encode, ok, minItem);
    ItemsInvert(items, read, encode, ok, t);
  }

  lemma VectorSplits<T(!new)>(s: Bytes, minItem: nat, read: Bytes -> Parsed<T>, encode: T -> Bytes, ok: T -> bool)
    requires Inverts(read, encode, ok)
    ensures Vector(s, minItem, read).Ok? ==>
      var (items, rest) := Vector(s, minItem, read).value;
      AllOk(items, ok) && s == VectorBytes(items, encode) + rest
  {
    hide CompactBytes, CompactSize, Encoded, Inverts, Items;
    CompactSplits(s);
    if CompactSize(s).Ok? {
      var (count, rest) := CompactSize(s).value;
      ItemsSplit(rest, count, read, encode, ok);
      if Items(rest, count, read).Ok? {
        var (items, end) := Items(rest, count, read).value;
        Associates(CompactBytes(count), Encoded(items, encode), end);
      }
    }
  }
}
