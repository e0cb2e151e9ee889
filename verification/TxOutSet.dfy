/** The unspent-output commitment: counters and an XOR of per-output digests,
    stepped one output at a time, against the fold over the set itself. */
module TxOutSet {
  import opened Wrappers
  import opened ChainWorld
  import opened ByteInts
  import opened WireParsing
  import opened TransactionId

  const ENTRY_LEN: nat := 32 + 4 + 8 + 20 + 1
  const U64_MAX: nat := 0xFFFF_FFFF_FFFF_FFFF

  type Digest = s: seq<bv8> | |s| == 32 witness seq(32, _ => 0)

  datatype ScriptType = P2PKH | P2SH | NonStandard

  datatype Outpoint = Outpoint(txid: Bytes, index: nat)

  datatype StoredTxOut = StoredTxOut(value: nat, addressHash: Bytes, scriptType: ScriptType)

  type OutputSet = map<Outpoint, StoredTxOut>

  /** The digest of one canonical entry, domain separator included. */
  type EntryHash = Bytes -> Digest

  // ---- the canonical entry

  function ScriptTypeTag(t: ScriptType): Byte {
    match t
    case P2PKH => 0x00
    case P2SH => 0x01
    case NonStandard => 0xFF
  }

  function EntryParts(txid: Bytes, index: nat, value: nat, addressHash: Bytes, tag: Byte): seq<Bytes> {
    [txid, LeBytes(index, 4), LeBytes(value, 8), addressHash, [tag]]
  }

  const ENTRY_SIZES: seq<nat> := [32, 4, 8, 20, 1]

  function CanonicalEntryParts(txid: Bytes, index: nat, value: nat, addressHash: Bytes, tag: Byte): Bytes {
    Joined(EntryParts(txid, index, value, addressHash, tag))
  }

  predicate PartsOk(txid: Bytes, index: nat, value: nat, addressHash: Bytes) {
    |txid| == 32 && index < U32_SPAN && value <= U64_MAX && |addressHash| == 20
  }

  lemma EntryLength(txid: Bytes, index: nat, value: nat, addressHash: Bytes, tag: Byte)
    requires PartsOk(txid, index, value, addressHash)
    ensures |CanonicalEntryParts(txid, index, value, addressHash, tag)| == ENTRY_LEN
  {
  }

  /** The entry determines all five of its parts. */
  lemma EntryIsInjective(txid: Bytes, index: nat, value: nat, addressHash: Bytes, tag: Byte,
      txid': Bytes, index': nat, value': nat, addressHash': Bytes, tag': Byte)
    requires PartsOk(txid, index, value, addressHash) && PartsOk(txid', index', value', addressHash')
    requires CanonicalEntryParts(txid, index, value, addressHash, tag) ==
             CanonicalEntryParts(txid', index', value', addressHash', tag')
    ensures txid == txid' && index == index' && value == value' && addressHash == addressHash' && tag == tag'
  {
    hide LeBytes, Joined, FromLe;
    var a, b := EntryParts(txid, index, value, addressHash, tag), EntryParts(txid', index', value', addressHash', tag');
    JoinedCommits(a, b, ENTRY_SIZES);
    assert a[0] == b[0] && a[1] == b[1] && a[2] == b[2] && a[3] == b[3] && a[4][0] == b[4][0];
    WordSizes();
    FromLeInverts(index, 4);
    FromLeInverts(index', 4);
    FromLeInverts(value, 8);
    FromLeInverts(value', 8);
  }

  function CanonicalEntry(k: Outpoint, out: StoredTxOut): Bytes {
    CanonicalEntryParts(k.txid, k.index, out.value, out.addressHash, ScriptTypeTag(out.scriptType))
  }

  /** An outpoint with its output is one entry and no other's. */
  lemma CanonicalEntryIsInjective(k: Outpoint, out: StoredTxOut, k': Outpoint, out': StoredTxOut)
    requires PartsOk(k.txid, k.index, out.value, out.addressHash)
    requires PartsOk(k'.txid, k'.index, out'.value, out'.addressHash)
    requires CanonicalEntry(k, out) == CanonicalEntry(k', out')
    ensures k == k' && out == out'
  {
    hide CanonicalEntryParts;
    EntryIsInjective(k.txid, k.index, out.value, out.addressHash, ScriptTypeTag(out.scriptType),
      k'.txid, k'.index, out'.value, out'.addressHash, ScriptTypeTag(out'.scriptType));
  }

  // ---- the fold over a set

  function Xor(a: Digest, b: Digest): (r: Digest)
    ensures forall i :: 0 <= i < 32 ==> r[i] == a[i] ^ b[i]
  {
    seq(32, i requires 0 <= i < 32 => a[i] ^ b[i])
  }

  function ZeroDigest(): (r: Digest)
    ensures forall i :: 0 <= i < 32 ==> r[i] == 0
  {
    seq(32, _ => 0)
  }

  lemma XorLaws(a: Digest, b: Digest, c: Digest)
    ensures Xor(a, b) == Xor(b, a)
    ensures Xor(Xor(a, b), c) == Xor(a, Xor(b, c))
    ensures Xor(Xor(a, b), b) == a
    ensures Xor(a, ZeroDigest()) == a
  {
  }

  /** What some outputs contribute: how many, their value, their digests' XOR. */
  datatype Summary = Summary(count: nat, total: nat, digest: Digest)

  function Plus(a: Summary, b: Summary): Summary {
    Summary(a.count + b.count, a.total + b.total, Xor(a.digest, b.digest))
  }

  function Zero(): Summary {
    Summary(0, 0, ZeroDigest())
  }

  function Contribution(k: Outpoint, out: StoredTxOut, h: EntryHash): Summary {
    Summary(1, out.value, h(CanonicalEntry(k, out)))
  }

  lemma PlusLaws(a: Summary, b: Summary, c: Summary)
    ensures Plus(a, b) == Plus(b, a)
    ensures Plus(Plus(a, b), c) == Plus(a, Plus(b, c))
    ensures Plus(a, Zero()) == a
  {
  }

  lemma Swap(a: Summary, b: Summary, c: Summary)
    ensures Plus(a, Plus(b, c)) == Plus(b, Plus(a, c))
  {
  }

  /** The fold over a set, in any order. */
  ghost function Sum(s: OutputSet, h: EntryHash): (r: Summary)
    ensures r.count == |s|
    decreases |s|
  {
    if s == map[] then Zero()
    else
      var k :| k in s;
      assert |s - {k}| == |s| - 1;
      Plus(Contribution(k, s[k], h), Sum(s - {k}, h))
  }

  lemma SumOfNone(h: EntryHash)
    ensures Sum(map[], h) == Zero()
  {
  }

  /** Any output may be folded first. */
  lemma {:induction false} SumAt(s: OutputSet, k: Outpoint, h: EntryHash)
    requires k in s
    ensures Sum(s, h) == Plus(Contribution(k, s[k], h), Sum(s - {k}, h))
    decreases |s|
  {
    hide Plus, Contribution;
    var j :| j in s && Sum(s, h) == Plus(Contribution(j, s[j], h), Sum(s - {j}, h));
    if j != k {
      Smaller(s, j);
      Smaller(s, k);
      SumAt(s - {j}, k, h);
      SumAt(s - {k}, j, h);
      assert s - {j} - {k} == s - {k} - {j};
      Swap(Contribution(j, s[j], h), Contribution(k, s[k], h), Sum(s - {j} - {k}, h));
    }
  }

  lemma Smaller(s: OutputSet, k: Outpoint)
    requires k in s
    ensures |s - {k}| == |s| - 1
  {
  }

  lemma SumAdds(s: OutputSet, k: Outpoint, out: StoredTxOut, h: EntryHash)
    requires k !in s
    ensures Sum(s[k := out], h) == Plus(Contribution(k, out, h), Sum(s, h))
  {
    hide Plus, Contribution, Sum;
    SumAt(s[k := out], k, h);
    assert s[k := out] - {k} == s;
  }

  lemma UnionWithout(a: OutputSet, b: OutputSet, k: Outpoint)
    requires k in b && k !in a
    ensures (a + b) - {k} == a + (b - {k}) && (a + b)[k] == b[k]
  {
  }

  /** Disjoint sets fold to the sum of their folds. */
  lemma {:induction false} SumUnion(a: OutputSet, b: OutputSet, h: EntryHash)
    requires a.Keys !! b.Keys
    ensures Sum(a + b, h) == Plus(Sum(a, h), Sum(b, h))
    decreases |b|
  {
    hide Plus, Contribution, Sum, Zero;
    if b == map[] {
      assert a + b == a;
      SumOfNone(h);
      PlusLaws(Sum(a, h), Zero(), Zero());
    } else {
      var k :| k in b;
      Smaller(b, k);
      SumUnion(a, b - {k}, h);
      SumAt(b, k, h);
      UnionWithout(a, b, k);
      SumAt(a + b, k, h);
      Swap(Contribution(k, b[k], h), Sum(a, h), Sum(b - {k}, h));
    }
  }

  // ---- the accumulator

  datatype Delta = Added | Removed

  datatype TxOutSetError = Overflow(field: string) | Underflow(field: string)

  function Step(delta: Delta, field: nat, amount: nat, name: string): Result<nat, TxOutSetError> {
    match delta
    case Added => if field + amount > U64_MAX then Err(Overflow(name)) else Ok(field + amount)
    case Removed => if amount > field then Err(Underflow(name)) else Ok(field - amount)
  }

  function CheckedAdd(a: nat, b: nat, name: string): Result<nat, TxOutSetError> {
    if a + b > U64_MAX then Err(Overflow(name)) else Ok(a + b)
  }

  /** The accumulator's fields as a value. */
  datatype Totals = Totals(transactions: nat, outputs: nat, bytes: nat, digest: Digest, zatoshis: nat)

  /** What one output does to the fields, in either direction. */
  function Stepped(t: Totals, digest: Digest, value: nat, delta: Delta): Result<Totals, TxOutSetError> {
    var outputs :- Step(delta, t.outputs, 1, "transaction_outputs");
    var bytes :- Step(delta, t.bytes, ENTRY_LEN, "bytes_serialized");
    var zatoshis :- Step(delta, t.zatoshis, value, "total_zatoshis");
    Ok(Totals(t.transactions, outputs, bytes, Xor(t.digest, digest), zatoshis))
  }

  /** Removing an output undoes adding it, and adding undoes removing. */
  lemma StepsUndo(t: Totals, digest: Digest, value: nat)
    requires t.outputs <= U64_MAX && t.bytes <= U64_MAX && t.zatoshis <= U64_MAX
    ensures Stepped(t, digest, value, Added).Ok? ==>
      Stepped(Stepped(t, digest, value, Added).value, digest, value, Removed) == Ok(t)
    ensures Stepped(t, digest, value, Removed).Ok? ==>
      Stepped(Stepped(t, digest, value, Removed).value, digest, value, Added) == Ok(t)
  {
    hide Xor;
    XorLaws(t.digest, digest, digest);
  }

  /** The fields a set of unspent outputs determines. */
  ghost predicate Describes(t: Totals, s: OutputSet, h: EntryHash) {
    && t.outputs == |s| && t.bytes == ENTRY_LEN * |s|
    && t.zatoshis == Sum(s, h).total && t.digest == Sum(s, h).digest
  }

  /** A set leaves no choice in the per-output fields. */
  lemma SetDecidesFields(t: Totals, u: Totals, s: OutputSet, h: EntryHash)
    requires Describes(t, s, h) && Describes(u, s, h)
    ensures t.(transactions := 0) == u.(transactions := 0)
    ensures t.bytes == ENTRY_LEN * t.outputs
  {
  }

  lemma AddDescribes(t: Totals, s: OutputSet, k: Outpoint, out: StoredTxOut, h: EntryHash)
    requires Describes(t, s, h) && k !in s
    ensures
      var r := Stepped(t, h(CanonicalEntry(k, out)), out.value, Added);
      && (r.Ok? ==> Describes(r.value, s[k := out], h))
      && (r.Ok? <==> ENTRY_LEN * (|s| + 1) <= U64_MAX && Sum(s[k := out], h).total <= U64_MAX)
  {
    hide Xor, Sum;
    SumAdds(s, k, out, h);
    XorLaws(t.digest, h(CanonicalEntry(k, out)), t.digest);
  }

  /** Removing an output the set holds always succeeds. */
  lemma RemoveDescribes(t: Totals, s: OutputSet, k: Outpoint, h: EntryHash)
    requires Describes(t, s, h) && k in s
    ensures
      var r := Stepped(t, h(CanonicalEntry(k, s[k])), s[k].value, Removed);
      r.Ok? && Describes(r.value, s - {k}, h)
  {
    hide Xor, Sum;
    var d := h(CanonicalEntry(k, s[k]));
    SumAt(s, k, h);
    Smaller(s, k);
    var rest := Sum(s - {k}, h).digest;
    XorLaws(d, rest, rest);
    XorLaws(rest, d, d);
  }

  class Accumulator {
    var transactions: nat
    var transactionOutputs: nat
    var bytesSerialized: nat
    const hashSerialized: array<bv8>
    var totalZatoshis: nat

    ghost predicate Valid()
      reads this, hashSerialized
    {
      && hashSerialized.Length == 32
      && transactions <= U64_MAX && transactionOutputs <= U64_MAX && bytesSerialized <= U64_MAX && totalZatoshis <= U64_MAX
    }

    ghost function Fields(): Totals
      requires hashSerialized.Length == 32
      reads this, hashSerialized
    {
      Totals(transactions, transactionOutputs, bytesSerialized, hashSerialized[..], totalZatoshis)
    }

    /** Over the empty set: every field zero. */
    constructor ()
      ensures Valid() && fresh(hashSerialized)
      ensures Fields() == Totals(0, 0, 0, ZeroDigest(), 0)
      ensures forall h :: Describes(Fields(), map[], h)
    {
      transactions, transactionOutputs, bytesSerialized, totalZatoshis := 0, 0, 0, 0;
      hashSerialized := new bv8[32](_ => 0);
      new;
      assert hashSerialized[..] == ZeroDigest();
    }

    method XorIn(digest: Digest)
      requires Valid()
      modifies hashSerialized
      ensures Valid() && hashSerialized[..] == Xor(old(hashSerialized[..]), digest)
    {
      var i := 0;
      while i < 32
        invariant 0 <= i <= 32
        invariant forall j :: 0 <= j < i ==> hashSerialized[j] == old(hashSerialized[j]) ^ digest[j]
        invariant forall j :: i <= j < 32 ==> hashSerialized[j] == old(hashSerialized[j])
      {
        hashSerialized[i] := hashSerialized[i] ^ digest[i];
        i := i + 1;
      }
    }

    /** One output's digest and value, in either direction. After a failure the
        fields are unspecified: the digest goes in before the counters are tried. */
    method ApplyEntry(digest: Digest, value: nat, delta: Delta) returns (r: Result<(), TxOutSetError>)
      requires Valid()
      modifies this, hashSerialized
      ensures hashSerialized.Length == 32
      ensures r.Ok? <==> Stepped(old(Fields()), digest, value, delta).Ok?
      ensures r.Ok? ==> Valid() && Fields() == Stepped(old(Fields()), digest, value, delta).value
      ensures r.Err? ==> r.error == Stepped(old(Fields()), digest, value, delta).error
    {
      hide Xor;
      XorIn(digest);
      transactionOutputs :- Step(delta, transactionOutputs, 1, "transaction_outputs");
      bytesSerialized :- Step(delta, bytesSerialized, ENTRY_LEN, "bytes_serialized");
      totalZatoshis :- Step(delta, totalZatoshis, value, "total_zatoshis");
      return Ok(());
    }

    method ApplyAddedOutput(k: Outpoint, out: StoredTxOut, h: EntryHash, ghost s: OutputSet)
      returns (r: Result<(), TxOutSetError>)
      requires Valid()
      modifies this, hashSerialized
      ensures r.Ok? ==> Valid() && Ok(Fields()) == Stepped(old(Fields()), h(CanonicalEntry(k, out)), out.value, Added)
      ensures r.Ok? && old(Describes(Fields(), s, h)) && k !in s ==> Describes(Fields(), s[k := out], h)
    {
      hide Describes, Stepped, CanonicalEntry;
      if Describes(Fields(), s, h) && k !in s {
        AddDescribes(Fields(), s, k, out, h);
      }
      r := ApplyEntry(h(CanonicalEntry(k, out)), out.value, Added);
    }

    method ApplyRemovedOutput(k: Outpoint, out: StoredTxOut, h: EntryHash, ghost s: OutputSet)
      returns (r: Result<(), TxOutSetError>)
      requires Valid()
      modifies this, hashSerialized
      ensures r.Ok? ==> Valid() && Ok(Fields()) == Stepped(old(Fields()), h(CanonicalEntry(k, out)), out.value, Removed)
      ensures old(Describes(Fields(), s, h)) && k in s && s[k] == out ==> r.Ok? && Describes(Fields(), s - {k}, h)
    {
      hide Describes, Stepped, CanonicalEntry;
      if Describes(Fields(), s, h) && k in s && s[k] == out {
        RemoveDescribes(Fields(), s, k, h);
      }
      r := ApplyEntry(h(CanonicalEntry(k, out)), out.value, Removed);
    }

    /** Folds another accumulator in. */
    method Combine(other: Accumulator) returns (r: Result<(), TxOutSetError>)
      requires Valid() && other.Valid() && other != this && other.hashSerialized != hashSerialized
      modifies this, hashSerialized
      ensures hashSerialized.Length == 32
      ensures r.Ok? <==> Combined(old(Fields()), other.Fields()).Ok?
      ensures r.Ok? ==> Valid() && Fields() == Combined(old(Fields()), other.Fields()).value
      ensures r.Err? ==> r.error == Combined(old(Fields()), other.Fields()).error
    {
      hide Xor;
      XorIn(other.hashSerialized[..]);
      transactions :- CheckedAdd(transactions, other.transactions, "transactions");
      transactionOutputs :- CheckedAdd(transactionOutputs, other.transactionOutputs, "transaction_outputs");
      bytesSerialized :- CheckedAdd(bytesSerialized, other.bytesSerialized, "bytes_serialized");
      totalZatoshis :- CheckedAdd(totalZatoshis, other.totalZatoshis, "total_zatoshis");
      return Ok(());
    }
  }

  function Combined(t: Totals, u: Totals): Result<Totals, TxOutSetError> {
    var transactions :- CheckedAdd(t.transactions, u.transactions, "transactions");
    var outputs :- CheckedAdd(t.outputs, u.outputs, "transaction_outputs");
    var bytes :- CheckedAdd(t.bytes, u.bytes, "bytes_serialized");
    var zatoshis :- CheckedAdd(t.zatoshis, u.zatoshis, "total_zatoshis");
    Ok(Totals(transactions, outputs, bytes, Xor(t.digest, u.digest), zatoshis))
  }

  /** Combining accumulators of disjoint sets accumulates their union. */
  lemma CombineDescribes(t: Totals, a: OutputSet, u: Totals, b: OutputSet, h: EntryHash)
    requires Describes(t, a, h) && Describes(u, b, h) && a.Keys !! b.Keys
    requires Combined(t, u).Ok?
    ensures Describes(Combined(t, u).value, a + b, h)
  {
    hide Xor, Sum;
    SumUnion(a, b, h);
    assert Sum(a + b, h).count == |a + b|;
  }

  // ---- whole runs

  datatype Change = Add(key: Outpoint, out: StoredTxOut) | Remove(key: Outpoint, out: StoredTxOut)

  function Changed(s: OutputSet, c: Change): OutputSet {
    match c
    case Add(k, out) => s[k := out]
    case Remove(k, _) => s - {k}
  }

  function After(s: OutputSet, changes: seq<Change>): OutputSet
    decreases |changes|
  {
    if changes == [] then s else Changed(After(s, changes[..|changes| - 1]), changes[|changes| - 1])
  }

  /** An output enters a set it is not in, and leaves one it is in as it entered. */
  predicate LegalNext(s: OutputSet, c: Change) {
    match c
    case Add(k, _) => k !in s
    case Remove(k, out) => k in s && s[k] == out
  }

  predicate Legal(s: OutputSet, changes: seq<Change>) {
    forall i :: 0 <= i < |changes| ==> LegalNext(After(s, changes[..i]), changes[i])
  }

  /** Any legal interleaving that runs through leaves the fields of the set it
      ends on. */
  method ApplyAll(acc: Accumulator, changes: seq<Change>, h: EntryHash, ghost s: OutputSet)
    returns (r: Result<(), TxOutSetError>)
    requires acc.Valid()
    modifies acc, acc.hashSerialized
    ensures r.Ok? ==> acc.Valid()
    ensures r.Ok? && old(Describes(acc.Fields(), s, h)) && Legal(s, changes) ==> Describes(acc.Fields(), After(s, changes), h)
  {
    hide Describes, Stepped, CanonicalEntry;
    var i := 0;
    assert changes[..0] == [];
    while i < |changes|
      invariant 0 <= i <= |changes| && acc.Valid()
      invariant old(Describes(acc.Fields(), s, h)) && Legal(s, changes) ==> Describes(acc.Fields(), After(s, changes[..i]), h)
    {
      ghost var now := After(s, changes[..i]);
      assert changes[..i + 1][..i] == changes[..i];
      match changes[i] {
        case Add(k, out) =>
          var _ :- acc.ApplyAddedOutput(k, out, h, now);
        case Remove(k, out) =>
          var _ :- acc.ApplyRemovedOutput(k, out, h, now);
      }
      i := i + 1;
    }
    assert changes[..|changes|] == changes;
    return Ok(());
  }

  function UnionOf(sets: seq<OutputSet>): OutputSet
    decreases |sets|
  {
    if sets == [] then map[] else UnionOf(sets[..|sets| - 1]) + sets[|sets| - 1]
  }

  predicate Disjoint(sets: seq<OutputSet>) {
    forall i, j :: 0 <= i < j < |sets| ==> sets[i].Keys !! sets[j].Keys
  }

  lemma {:induction false} UnionHas(sets: seq<OutputSet>, k: Outpoint)
    requires k in UnionOf(sets)
    ensures exists i :: 0 <= i < |sets| && k in sets[i]
    decreases |sets|
  {
    var n := |sets| - 1;
    if k !in sets[n] {
      UnionHas(sets[..n], k);
      var i :| 0 <= i < n && k in sets[..n][i];
      assert k in sets[i];
    }
  }

  lemma NextIsDisjoint(sets: seq<OutputSet>, i: nat)
    requires Disjoint(sets) && i < |sets|
    ensures UnionOf(sets[..i]).Keys !! sets[i].Keys
    ensures UnionOf(sets[..i + 1]) == UnionOf(sets[..i]) + sets[i]
  {
    hide UnionOf;
    forall k | k in UnionOf(sets[..i]) ensures k !in sets[i] {
      UnionHas(sets[..i], k);
      var j :| 0 <= j < i && k in sets[..i][j];
      assert k in sets[j].Keys;
    }
    UnionGrows(sets, i);
  }

  lemma UnionGrows(sets: seq<OutputSet>, i: nat)
    requires i < |sets|
    ensures UnionOf(sets[..i + 1]) == UnionOf(sets[..i]) + sets[i]
  {
    assert sets[..i + 1][..i] == sets[..i];
  }

  /** Each shard accumulates its own part of a set, the parts being disjoint. */
  ghost predicate Sharded(shards: seq<Accumulator>, h: EntryHash, sets: seq<OutputSet>)
    reads shards, set x | x in shards :: x.hashSerialized
  {
    && |sets| == |shards| && Disjoint(sets)
    && forall i :: 0 <= i < |shards| ==>
      shards[i].hashSerialized.Length == 32 && Describes(shards[i].Fields(), sets[i], h)
  }

  /** Shards folded together, in whatever order, accumulate their union. */
  method CombineAll(shards: seq<Accumulator>, h: EntryHash, ghost sets: seq<OutputSet>)
    returns (acc: Accumulator, r: Result<(), TxOutSetError>)
    requires forall i :: 0 <= i < |shards| ==> shards[i].Valid()
    ensures fresh(acc) && (r.Ok? ==> acc.Valid())
    ensures r.Ok? && Sharded(shards, h, sets) ==> Describes(acc.Fields(), UnionOf(sets), h)
  {
    hide Describes, Combined, UnionOf, Disjoint;
    acc := new Accumulator();
    NoUnion(sets);
    var i := 0;
    while i < |shards|
      invariant 0 <= i <= |shards| && acc.Valid() && fresh(acc) && fresh(acc.hashSerialized)
      invariant forall j :: 0 <= j < |shards| ==> shards[j].Valid()
      invariant Sharded(shards, h, sets) ==> Describes(acc.Fields(), UnionOf(sets[..i]), h)
    {
      ghost var was := acc.Fields();
      var step := acc.Combine(shards[i]);
      if step.Err? {
        return acc, Err(step.error);
      }
      if Sharded(shards, h, sets) {
        NextIsDisjoint(sets, i);
        CombineDescribes(was, UnionOf(sets[..i]), shards[i].Fields(), sets[i], h);
      }
      i := i + 1;
    }
    assert |sets| == |shards| ==> sets[..|shards|] == sets;
    r := Ok(());
  }

  lemma NoUnion(sets: seq<OutputSet>)
    ensures UnionOf(sets[..0]) == map[]
  {
  }
}
