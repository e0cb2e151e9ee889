/** The id computed as the code computes it: hasher states fed field by field in
    loops. A state is its personalisation and the bytes fed so far. */
module TransactionHasher {
  import opened Wrappers
  import opened ChainWorld
  import opened ByteInts
  import opened Slices
  import opened WireParsing
  import opened TransactionWire
  import opened TransactionFormat
  import opened TransactionReader
  import opened TransactionId

  class State {
    const personal: Bytes
    var fed: Bytes

    constructor (personal: Bytes)
      ensures this.personal == personal && fed == []
    {
      this.personal := personal;
      fed := [];
    }

    method Update(bytes: Bytes)
      modifies this
      ensures fed == old(fed) + bytes
    {
      fed := fed + bytes;
    }

    method Finish(h: Hash) returns (digest: Bytes)
      ensures digest == h(personal, fed)
    {
      digest := h(personal, fed);
    }

    /** A compact-size prefix the way the encoding writes one. */
    method WriteCompactSize(n: nat)
      requires n < U64_SPAN
      modifies this
      ensures fed == old(fed) + CompactBytes(n)
    {
      if n < 253 {
        Update([n]);
      } else if n <= 0xFFFF {
        Update([253]);
        Update(LeBytes(n, 2));
        Associates(old(fed), [253], LeBytes(n, 2));
      } else if n <= 0xFFFF_FFFF {
        Update([254]);
        Update(LeBytes(n, 4));
        Associates(old(fed), [254], LeBytes(n, 4));
      } else {
        Update([255]);
        Update(LeBytes(n, 8));
        Associates(old(fed), [255], LeBytes(n, 8));
      }
    }
  }

  lemma JoinedOne(a: Bytes)
    ensures Joined([a]) == a
  {
  }

  lemma JoinedMore(a: Bytes, rest: seq<Bytes>, all: seq<Bytes>)
    requires all == [a] + rest
    ensures Joined(all) == a + Joined(rest)
  {
  }

  lemma JoinedFour(a: Bytes, b: Bytes, c: Bytes, d: Bytes)
    ensures Joined([a, b, c, d]) == a + b + c + d
  {
  }

  lemma FeedTwo(fed: Bytes, a: Bytes, b: Bytes)
    ensures fed + a + b == fed + Joined([a, b])
  {
  }

  lemma FeedThree(fed: Bytes, a: Bytes, b: Bytes, c: Bytes)
    ensures fed + a + b + c == fed + Joined([a, b, c])
  {
  }

  lemma FeedFour(fed: Bytes, a: Bytes, b: Bytes, c: Bytes, d: Bytes)
    ensures fed + a + b + c + d == fed + Joined([a, b, c, d])
  {
  }

  lemma NoRow<T>(items: seq<T>, fields: T -> seq<Bytes>)
    ensures Row(items[..0], fields) == []
  {
  }

  lemma WholeRow<T>(items: seq<T>, fields: T -> seq<Bytes>)
    ensures Row(items[..|items|], fields) == Row(items, fields)
  {
    assert items[..|items|] == items;
  }

  method HeaderDigest(tx: RawTransaction, h: Hash) returns (d: Bytes)
    ensures d == h(HEADERS, Joined(HeaderParts(tx)))
  {
    hide Joined, LeBytes;
    var state := new State(HEADERS);
    state.Update(LeBytes(tx.version.HeaderWord(), 4));
    state.Update(LeBytes(tx.version.VersionGroupId(), 4));
    state.Update(LeBytes(tx.consensusBranchId, 4));
    state.Update(LeBytes(tx.lockTime, 4));
    state.Update(LeBytes(tx.expiryHeight, 4));
    var p := HeaderParts(tx);
    JoinedMore(p[0], [p[1], p[2], p[3], p[4]], p);
    FeedFour(p[0], p[1], p[2], p[3], p[4]);
    assert [] + p[0] == p[0];
    d := state.Finish(h);
  }

  method FeedInputs(prevouts: State, sequences: State, inputs: seq<RawInput>)
    requires prevouts != sequences && prevouts.fed == [] && sequences.fed == []
    modifies prevouts, sequences
    ensures prevouts.fed == Row(inputs, PrevoutFields) && sequences.fed == Row(inputs, SequenceFields)
  {
    hide Row, Joined, LeBytes;
    NoRow(inputs, PrevoutFields);
    NoRow(inputs, SequenceFields);
    var i := 0;
    while i < |inputs|
      invariant 0 <= i <= |inputs|
      invariant prevouts.fed == Row(inputs[..i], PrevoutFields) && sequences.fed == Row(inputs[..i], SequenceFields)
    {
      var x := inputs[i];
      RowGrows(inputs, i, PrevoutFields);
      FeedTwo(prevouts.fed, x.prevoutHash, LeBytes(x.prevoutIndex, 4));
      prevouts.Update(x.prevoutHash);
      prevouts.Update(LeBytes(x.prevoutIndex, 4));
      RowGrows(inputs, i, SequenceFields);
      JoinedOne(LeBytes(x.sequence, 4));
      sequences.Update(LeBytes(x.sequence, 4));
      i := i + 1;
    }
    WholeRow(inputs, PrevoutFields);
    WholeRow(inputs, SequenceFields);
  }

  /** Script lengths fit the machine word the size prefix is written from. */
  predicate ScriptsFit(outputs: seq<RawOutput>) {
    forall i :: 0 <= i < |outputs| ==> |outputs[i].script| < U64_SPAN
  }

  method FeedOutputs(state: State, outputs: seq<RawOutput>)
    requires state.fed == [] && ScriptsFit(outputs)
    modifies state
    ensures state.fed == Encoded(outputs, EncodeOutput)
  {
    hide Encoded, CompactBytes;
    assert outputs[..0] == [];
    NothingEncoded();
    var i := 0;
    while i < |outputs|
      invariant 0 <= i <= |outputs|
      invariant state.fed == Encoded(outputs[..i], EncodeOutput)
    {
      var x := outputs[i];
      assert outputs[..i + 1] == outputs[..i] + [x];
      EncodedGrows(outputs[..i], x, EncodeOutput);
      ghost var was := state.fed;
      state.Update(x.value);
      state.WriteCompactSize(|x.script|);
      state.Update(x.script);
      Associates(was + x.value, CompactBytes(|x.script|), x.script);
      Associates(was, x.value, VarEncoded(x.script));
      i := i + 1;
    }
    assert outputs[..|outputs|] == outputs;
  }

  lemma NothingEncoded()
    ensures Encoded([], EncodeOutput) == []
  {
  }

  /** Three digests in a row. */
  lemma ThreeDigests(h: Hash, leaves: seq<Preimage>)
    requires |leaves| == 3
    ensures Digests(h, leaves) == h(leaves[0].0, leaves[0].1) + h(leaves[1].0, leaves[1].1) + h(leaves[2].0, leaves[2].1)
  {
  }

  method TransparentDigest(tx: RawTransaction, h: Hash) returns (d: Bytes)
    requires ScriptsFit(tx.outputs)
    ensures d == h(TRANSPARENT, TransparentMsg(tx, h))
  {
    hide Row, Encoded, Digests;
    var state := new State(TRANSPARENT);
    if !(tx.inputs == [] && tx.outputs == []) {
      var prevouts := new State(PREVOUTS);
      var sequences := new State(SEQUENCE);
      FeedInputs(prevouts, sequences, tx.inputs);
      var outputs := new State(OUTPUTS);
      FeedOutputs(outputs, tx.outputs);
      var p := prevouts.Finish(h);
      var q := sequences.Finish(h);
      var o := outputs.Finish(h);
      state.Update(p);
      state.Update(q);
      state.Update(o);
      ThreeDigests(h, TransparentLeaves(tx));
      assert [] + p == p;
    }
    d := state.Finish(h);
  }

  method FeedSpends(compact: State, noncompact: State, spends: seq<RawSaplingSpend>, anchor: Option<Bytes>)
    requires compact != noncompact && compact.fed == [] && noncompact.fed == []
    modifies compact, noncompact
    ensures compact.fed == Row(spends, SpendCompact) && noncompact.fed == Row(spends, SpendNoncompact(anchor))
  {
    hide Row, Joined;
    NoRow(spends, SpendCompact);
    NoRow(spends, SpendNoncompact(anchor));
    var i := 0;
    while i < |spends|
      invariant 0 <= i <= |spends|
      invariant compact.fed == Row(spends[..i], SpendCompact)
      invariant noncompact.fed == Row(spends[..i], SpendNoncompact(anchor))
    {
      var x := spends[i];
      RowGrows(spends, i, SpendCompact);
      JoinedOne(x.nullifier);
      compact.Update(x.nullifier);
      RowGrows(spends, i, SpendNoncompact(anchor));
      ghost var was := noncompact.fed;
      noncompact.Update(x.cv);
      if anchor.Some? {
        noncompact.Update(anchor.value);
        FeedThree(was, x.cv, anchor.value, x.rk);
      } else {
        FeedTwo(was, x.cv, x.rk);
      }
      noncompact.Update(x.rk);
      i := i + 1;
    }
    WholeRow(spends, SpendCompact);
    WholeRow(spends, SpendNoncompact(anchor));
  }

  method SaplingSpendsDigest(sapling: RawSapling, version: Version, h: Hash) returns (d: Bytes)
    ensures d == h(SAPLING_SPENDS, SpendsMsg(sapling, version, h))
  {
    hide Row, Digests;
    var state := new State(SAPLING_SPENDS);
    if sapling.spends != [] {
      var personal := if version == V6 then SAPLING_SPENDS_NONCOMPACT_V6 else SAPLING_SPENDS_NONCOMPACT_V5;
      var compact := new State(SAPLING_SPENDS_COMPACT);
      var noncompact := new State(personal);
      FeedSpends(compact, noncompact, sapling.spends, AnchorInId(sapling, version));
      var c := compact.Finish(h);
      var n := noncompact.Finish(h);
      state.Update(c);
      state.Update(n);
      TwoDigests(h, SpendLeaves(sapling, version));
      assert [] + c == c;
    }
    d := state.Finish(h);
  }

  lemma TwoDigests(h: Hash, leaves: seq<Preimage>)
    requires |leaves| == 2
    ensures Digests(h, leaves) == h(leaves[0].0, leaves[0].1) + h(leaves[1].0, leaves[1].1)
  {
  }

  method FeedSaplingOutputs(compact: State, memos: State, noncompact: State, outputs: seq<RawSaplingOutput>)
    requires compact != memos && memos != noncompact && compact != noncompact
    requires compact.fed == [] && memos.fed == [] && noncompact.fed == []
    modifies compact, memos, noncompact
    ensures compact.fed == Row(outputs, OutputCompact) && memos.fed == Row(outputs, OutputMemo)
    ensures noncompact.fed == Row(outputs, OutputNoncompact)
  {
    hide Row, Joined, Cut;
    NoRow(outputs, OutputCompact);
    NoRow(outputs, OutputMemo);
    NoRow(outputs, OutputNoncompact);
    var i := 0;
    while i < |outputs|
      invariant 0 <= i <= |outputs|
      invariant compact.fed == Row(outputs[..i], OutputCompact) && memos.fed == Row(outputs[..i], OutputMemo)
      invariant noncompact.fed == Row(outputs[..i], OutputNoncompact)
    {
      var x := outputs[i];
      var enc := x.encCiphertext;
      RowGrows(outputs, i, OutputCompact);
      FeedThree(compact.fed, x.cmu, x.ephemeralKey, Cut(enc, 0, COMPACT_CIPHERTEXT));
      compact.Update(x.cmu);
      compact.Update(x.ephemeralKey);
      compact.Update(Cut(enc, 0, COMPACT_CIPHERTEXT));
      RowGrows(outputs, i, OutputMemo);
      JoinedOne(Cut(enc, COMPACT_CIPHERTEXT, MEMO_END));
      memos.Update(Cut(enc, COMPACT_CIPHERTEXT, MEMO_END));
      RowGrows(outputs, i, OutputNoncompact);
      FeedThree(noncompact.fed, x.cv, Cut(enc, MEMO_END, |enc|), x.outCiphertext);
      noncompact.Update(x.cv);
      noncompact.Update(Cut(enc, MEMO_END, |enc|));
      noncompact.Update(x.outCiphertext);
      i := i + 1;
    }
    WholeRow(outputs, OutputCompact);
    WholeRow(outputs, OutputMemo);
    WholeRow(outputs, OutputNoncompact);
  }

  method SaplingOutputsDigest(sapling: RawSapling, h: Hash) returns (d: Bytes)
    ensures d == h(SAPLING_OUTPUTS, OutputsMsg(sapling, h))
  {
    hide Row, Digests;
    var state := new State(SAPLING_OUTPUTS);
    if sapling.outputs != [] {
      var compact := new State(SAPLING_OUTPUTS_COMPACT);
      var memos := new State(SAPLING_OUTPUTS_MEMOS);
      var noncompact := new State(SAPLING_OUTPUTS_NONCOMPACT);
      FeedSaplingOutputs(compact, memos, noncompact, sapling.outputs);
      var c := compact.Finish(h);
      var m := memos.Finish(h);
      var n := noncompact.Finish(h);
      state.Update(c);
      state.Update(m);
      state.Update(n);
      ThreeDigests(h, OutputLeaves(sapling));
      assert [] + c == c;
    }
    d := state.Finish(h);
  }

  method SaplingDigest(sapling: RawSapling, version: Version, h: Hash) returns (d: Bytes)
    ensures d == h(SAPLING, SaplingMsg(sapling, version, h))
  {
    hide SpendsMsg, OutputsMsg, Joined, I64Bytes;
    var state := new State(SAPLING);
    if !sapling.IsEmpty() {
      var s := SaplingSpendsDigest(sapling, version, h);
      var o := SaplingOutputsDigest(sapling, h);
      state.Update(s);
      state.Update(o);
      state.Update(I64Bytes(sapling.valueBalance));
      FeedThree([], s, o, I64Bytes(sapling.valueBalance));
      assert [] + Joined([s, o, I64Bytes(sapling.valueBalance)]) == Joined([s, o, I64Bytes(sapling.valueBalance)]);
    }
    d := state.Finish(h);
  }

  method FeedActions(compact: State, memos: State, noncompact: State, actions: seq<RawAction>)
    requires compact != memos && memos != noncompact && compact != noncompact
    requires compact.fed == [] && memos.fed == [] && noncompact.fed == []
    modifies compact, memos, noncompact
    ensures compact.fed == Row(actions, ActionCompact) && memos.fed == Row(actions, ActionMemo)
    ensures noncompact.fed == Row(actions, ActionNoncompact)
  {
    hide Row, Joined, Cut;
    NoRow(actions, ActionCompact);
    NoRow(actions, ActionMemo);
    NoRow(actions, ActionNoncompact);
    var i := 0;
    while i < |actions|
      invariant 0 <= i <= |actions|
      invariant compact.fed == Row(actions[..i], ActionCompact) && memos.fed == Row(actions[..i], ActionMemo)
      invariant noncompact.fed == Row(actions[..i], ActionNoncompact)
    {
      var x := actions[i];
      var enc := x.encCiphertext;
      RowGrows(actions, i, ActionCompact);
      FeedFour(compact.fed, x.nullifier, x.cmx, x.ephemeralKey, Cut(enc, 0, COMPACT_CIPHERTEXT));
      compact.Update(x.nullifier);
      compact.Update(x.cmx);
      compact.Update(x.ephemeralKey);
      compact.Update(Cut(enc, 0, COMPACT_CIPHERTEXT));
      RowGrows(actions, i, ActionMemo);
      JoinedOne(Cut(enc, COMPACT_CIPHERTEXT, MEMO_END));
      memos.Update(Cut(enc, COMPACT_CIPHERTEXT, MEMO_END));
      RowGrows(actions, i, ActionNoncompact);
      FeedFour(noncompact.fed, x.cv, x.rk, Cut(enc, MEMO_END, |enc|), x.outCiphertext);
      noncompact.Update(x.cv);
      noncompact.Update(x.rk);
      noncompact.Update(Cut(enc, MEMO_END, |enc|));
      noncompact.Update(x.outCiphertext);
      i := i + 1;
    }
    WholeRow(actions, ActionCompact);
    WholeRow(actions, ActionMemo);
    WholeRow(actions, ActionNoncompact);
  }

  method OrchardDigest(bundle: Option<RawBundle>, p: BundlePersonalisation, h: Hash) returns (d: Bytes)
    ensures d == h(p.bundle, BundleMsg(bundle, p, h))
  {
    hide Row, Digests, Joined, I64Bytes;
    var state := new State(p.bundle);
    if bundle.None? {
      d := state.Finish(h);
      return;
    }
    var x := bundle.value;
    var compact := new State(p.actionsCompact);
    var memos := new State(p.actionsMemos);
    var noncompact := new State(p.actionsNoncompact);
    FeedActions(compact, memos, noncompact, x.actions);
    var c := compact.Finish(h);
    var m := memos.Finish(h);
    var n := noncompact.Finish(h);
    state.Update(c);
    state.Update(m);
    state.Update(n);
    ThreeDigests(h, BundleLeaves(x, p));
    assert [] + c == c;
    ghost var head := state.fed;
    state.Update([x.flags]);
    state.Update(I64Bytes(x.valueBalance));
    FeedThree(head, [x.flags], I64Bytes(x.valueBalance), if p.anchorInId then x.anchor else []);
    if p.anchorInId {
      state.Update(x.anchor);
    } else {
      assert state.fed + [] == state.fed;
    }
    d := state.Finish(h);
  }

  lemma RootDigests(tx: RawTransaction, h: Hash)
    ensures
      var l := RootLeaves(tx, h);
      var four := h(l[0].0, l[0].1) + h(l[1].0, l[1].1) + h(l[2].0, l[2].1) + h(l[3].0, l[3].1);
      Digests(h, l) == if tx.version == V6 then four + h(l[4].0, l[4].1) else four
  {
    hide Joined, TransparentMsg, SaplingMsg, BundleMsg, HeaderParts;
    var l := RootLeaves(tx, h);
    var d := Hashes(h, l);
    if tx.version == V6 {
      assert d == [d[0], d[1], d[2], d[3], d[4]];
      JoinedMore(d[0], [d[1], d[2], d[3], d[4]], d);
      FeedFour(d[0], d[1], d[2], d[3], d[4]);
    } else {
      assert d == [d[0], d[1], d[2], d[3]];
      JoinedFour(d[0], d[1], d[2], d[3]);
    }
  }

  method Zip244Digest(tx: RawTransaction, h: Hash) returns (id: Bytes)
    requires ScriptsFit(tx.outputs)
    ensures id == Zip244(tx, h)
  {
    hide Digests, TransparentMsg, SaplingMsg, BundleMsg, HeaderParts, Joined, LeBytes;
    var state := new State(Personal(tx.consensusBranchId));
    RootDigests(tx, h);
    var header := HeaderDigest(tx, h);
    state.Update(header);
    assert [] + header == header;
    var transparent := TransparentDigest(tx, h);
    state.Update(transparent);
    var sapling := SaplingDigest(tx.sapling, tx.version, h);
    state.Update(sapling);
    var orchard := OrchardDigest(tx.orchard, OrchardStrings(tx.version), h);
    state.Update(orchard);
    if tx.version == V6 {
      var ironwood := OrchardDigest(tx.ironwood, IRONWOOD_V6, h);
      state.Update(ironwood);
    }
    id := state.Finish(h);
  }

  /** v1 to v4 hash the whole encoding; v5 and v6 take the digest tree. */
  method TransactionIdOf(tx: RawTransaction, h: Hash, sha256d: Bytes -> Bytes) returns (id: Bytes)
    requires ScriptsFit(tx.outputs)
    ensures id == if IsModern(tx.version) then Zip244(tx, h) else sha256d(tx.bytes)
  {
    if IsModern(tx.version) {
      id := Zip244Digest(tx, h);
    } else {
      id := sha256d(tx.bytes);
    }
  }
}
