/** The run log's segment format: a header framing one commit's records, sorted
    by key, and the log a concatenation of segments. */
module SegmentLog {
  import opened Wrappers
  import opened ChainWorld
  import opened ByteInts
  import opened Slices
  import opened KvBatch
  import opened SortedKeys

  const MAGIC: seq<Byte> := [0x5A, 0x44, 0x53, 0x47]
  const VERSION: nat := 1
  const HEADER_LEN: nat := 30
  const U32_SPAN: nat := 0x1_0000_0000
  const U64_SPAN: nat := 0x1_0000_0000_0000_0000
  const FNV_OFFSET: bv64 := 0xcbf2_9ce4_8422_2325
  const FNV_PRIME: bv64 := 0x0000_0100_0000_01b3

  datatype SegmentError =
    | BadMagic
    | BadVersion(found: nat)
    | Truncated(need: nat, have: nat)
    | ChecksumMismatch
    | EntryTooLarge(len: nat)
    | LengthMismatch

  function Fnv(bytes: seq<Byte>): bv64
    decreases |bytes|
  {
    if bytes == [] then FNV_OFFSET
    else (Fnv(bytes[..|bytes| - 1]) ^ (bytes[|bytes| - 1] as bv64)) * FNV_PRIME
  }

  function Checksum(bytes: seq<Byte>): (c: nat)
    ensures c < U64_SPAN
  {
    Fnv(bytes) as int
  }

  // ---- the format

  predicate Framable(r: Record) {
    |r.key| < U32_SPAN && |r.value| < U32_SPAN
  }

  predicate AllFramable(rs: seq<Record>) {
    forall i :: 0 <= i < |rs| ==> Framable(rs[i])
  }

  function EncodeRecord(r: Record): seq<Byte> {
    BeBytes(|r.key|, 4) + r.key + BeBytes(|r.value|, 4) + r.value
  }

  function EncodeRecords(rs: seq<Record>): seq<Byte>
    decreases |rs|
  {
    if rs == [] then [] else EncodeRecord(rs[0]) + EncodeRecords(rs[1..])
  }

  function Header(count: nat, payloadLen: nat, checksum: nat): (h: seq<Byte>)
    ensures |h| == HEADER_LEN
  {
    MAGIC + BeBytes(VERSION, 2) + BeBytes(count, 8) + BeBytes(payloadLen, 8) + BeBytes(checksum, 8)
  }

  function Segment(rs: seq<Record>): seq<Byte> {
    var payload := EncodeRecords(rs);
    Header(|rs|, |payload|, Checksum(payload)) + payload
  }

  function LogOf(segs: seq<seq<Record>>): seq<Byte>
    decreases |segs|
  {
    if segs == [] then [] else LogOf(segs[..|segs| - 1]) + Segment(segs[|segs| - 1])
  }

  /** A record list whose segment the writer can produce. */
  predicate Writable(rs: seq<Record>) {
    AllFramable(rs) && |rs| < U64_SPAN && |EncodeRecords(rs)| < U64_SPAN
  }

  lemma {:induction false} EncodeSplits(a: seq<Record>, b: seq<Record>)
    ensures EncodeRecords(a + b) == EncodeRecords(a) + EncodeRecords(b)
    decreases |a|
  {
    hide EncodeRecord;
    if a == [] {
      assert a + b == b;
    } else {
      EncodeSplits(a[1..], b);
      assert (a + b)[1..] == a[1..] + b;
      var first, rest, more := EncodeRecord(a[0]), EncodeRecords(a[1..]), EncodeRecords(b);
      assert first + (rest + more) == (first + rest) + more;
    }
  }

  lemma EncodeGrows(rs: seq<Record>, r: Record)
    ensures EncodeRecords(rs + [r]) == EncodeRecords(rs) + EncodeRecord(r)
  {
    EncodeSplits(rs, [r]);
    assert EncodeRecords([r]) == EncodeRecord(r) + EncodeRecords([]);
  }

  lemma LogGrows(segs: seq<seq<Record>>, rs: seq<Record>)
    ensures LogOf(segs + [rs]) == LogOf(segs) + Segment(rs)
  {
  }

  lemma {:induction false} LogOfPrefix(segs: seq<seq<Record>>, n: nat)
    requires n <= |segs|
    ensures LogOf(segs[..n]) <= LogOf(segs)
    decreases |segs|
  {
    hide Segment;
    if n == |segs| {
      assert segs[..n] == segs;
    } else {
      LogOfPrefix(segs[..|segs| - 1], n);
      assert segs[..|segs| - 1][..n] == segs[..n];
    }
  }

  // ---- writing

  /** One segment from a batch's puts for one namespace. */
  method EncodeSegment(entries: Tree) returns (r: Result<seq<Byte>, SegmentError>)
    ensures r.Ok? <==> Writable(SortedRecords(entries))
    ensures r.Ok? ==> r.value == Segment(SortedRecords(entries))
    ensures r.Err? ==> r.error.EntryTooLarge?
  {
    hide EncodeRecords, EncodeRecord, Header, Checksum, SortedRecords, BeBytes;
    var rs := InKeyOrder(entries);
    var payload: seq<Byte> := [];
    EmptyPayload();
    var i := 0;
    while i < |rs|
      invariant 0 <= i <= |rs|
      invariant AllFramable(rs[..i])
      invariant payload == EncodeRecords(rs[..i])
    {
      var key, value := rs[i].key, rs[i].value;
      if |key| >= U32_SPAN {
        return Err(EntryTooLarge(|key|));
      }
      if |value| >= U32_SPAN {
        return Err(EntryTooLarge(|value|));
      }
      EncodeGrows(rs[..i], rs[i]);
      RecordBytes(rs[i]);
      assert rs[..i + 1] == rs[..i] + [rs[i]];
      payload := payload + (BeBytes(|key|, 4) + key + BeBytes(|value|, 4) + value);
      i := i + 1;
    }
    assert rs[..|rs|] == rs;
    if |rs| >= U64_SPAN {
      return Err(EntryTooLarge(|rs|));
    }
    if |payload| >= U64_SPAN {
      return Err(EntryTooLarge(|payload|));
    }
    return Ok(Header(|rs|, |payload|, Checksum(payload)) + payload);
  }

  lemma EmptyPayload()
    ensures EncodeRecords([]) == []
  {
  }

  lemma RecordsStep(rs: seq<Record>)
    requires rs != []
    ensures EncodeRecords(rs) == EncodeRecord(rs[0]) + EncodeRecords(rs[1..])
  {
  }

  lemma RecordBytes(r: Record)
    ensures EncodeRecord(r) == BeBytes(|r.key|, 4) + r.key + BeBytes(|r.value|, 4) + r.value
  {
  }

  // ---- reading

  datatype SegmentHeader = SegmentHeader(entryCount: nat, payloadLen: nat, checksum: nat)

  function ParseHeader(bytes: seq<Byte>): Result<SegmentHeader, SegmentError> {
    if |bytes| < HEADER_LEN then Err(Truncated(HEADER_LEN, |bytes|))
    else if bytes[0..4] != MAGIC then Err(BadMagic)
    else if FromBe(bytes[4..6]) != VERSION then Err(BadVersion(FromBe(bytes[4..6])))
    else Ok(SegmentHeader(FromBe(bytes[6..14]), FromBe(bytes[14..22]), FromBe(bytes[22..30])))
  }

  lemma HeaderParts(count: nat, payloadLen: nat, checksum: nat)
    ensures
      var h := Header(count, payloadLen, checksum);
      && h[0..4] == MAGIC && h[4..6] == BeBytes(VERSION, 2) && h[6..14] == BeBytes(count, 8)
      && h[14..22] == BeBytes(payloadLen, 8) && h[22..30] == BeBytes(checksum, 8)
  {
    hide BeBytes;
    FiveParts(MAGIC, BeBytes(VERSION, 2), BeBytes(count, 8), BeBytes(payloadLen, 8), BeBytes(checksum, 8));
  }

  lemma FiveParts(a: seq<Byte>, b: seq<Byte>, c: seq<Byte>, d: seq<Byte>, e: seq<Byte>)
    requires |a| == 4 && |b| == 2 && |c| == 8 && |d| == 8 && |e| == 8
    ensures
      var h := a + b + c + d + e;
      h[0..4] == a && h[4..6] == b && h[6..14] == c && h[14..22] == d && h[22..30] == e
  {
  }

  lemma ParseHeaderInverts(count: nat, payloadLen: nat, checksum: nat)
    requires count < U64_SPAN && payloadLen < U64_SPAN && checksum < U64_SPAN
    ensures ParseHeader(Header(count, payloadLen, checksum)) == Ok(SegmentHeader(count, payloadLen, checksum))
  {
    hide BeBytes, FromBe, Header;
    HeaderParts(count, payloadLen, checksum);
    WordSizes();
    FromBeInverts(VERSION, 2);
    FromBeInverts(count, 8);
    FromBeInverts(payloadLen, 8);
    FromBeInverts(checksum, 8);
  }

  /** One length-framed byte string at `at`, and the position past it. */
  function ReadFramed(payload: seq<Byte>, at: nat): (r: Result<(seq<Byte>, nat), SegmentError>)
    requires at <= |payload|
    ensures r.Ok? ==> at + 4 <= r.value.1 <= |payload|
  {
    if at + 4 > |payload| then Err(Truncated(4, |payload| - at))
    else
      var len := FromBe(payload[at..at + 4]);
      if at + 4 + len > |payload| then Err(Truncated(len, |payload| - at))
      else Ok((payload[at + 4..at + 4 + len], at + 4 + len))
  }

  /** A framed string is read back, whatever surrounds it. */
  lemma ReadFramedInverts(before: seq<Byte>, data: seq<Byte>, after: seq<Byte>)
    requires |data| < U32_SPAN
    ensures ReadFramed(before + BeBytes(|data|, 4) + data + after, |before|) == Ok((data, |before| + 4 + |data|))
  {
    hide BeBytes, FromBe, ReadFramed;
    WordSizes();
    FromBeInverts(|data|, 4);
    MiddleParts(before, BeBytes(|data|, 4), data, after);
    FramedAt(before + BeBytes(|data|, 4) + data + after, |before|, data);
  }

  lemma FramedAt(payload: seq<Byte>, at: nat, data: seq<Byte>)
    requires at + 4 + |data| <= |payload| && FromBe(payload[at..at + 4]) == |data|
    requires payload[at + 4..at + 4 + |data|] == data
    ensures ReadFramed(payload, at) == Ok((data, at + 4 + |data|))
  {
    hide FromBe;
  }

  /** Every record of a payload, in stored order. It reads exactly the payloads
      that are records' bytes and have the header's checksum. */
  method ReadPayload(header: SegmentHeader, payload: seq<Byte>, ghost rs: seq<Record>)
    returns (r: Result<seq<Record>, SegmentError>)
    ensures r.Ok? ==> AllFramable(r.value) && payload == EncodeRecords(r.value) && header.checksum == Checksum(payload)
    ensures AllFramable(rs) && payload == EncodeRecords(rs) && header.checksum == Checksum(payload) ==> r == Ok(rs)
  {
    hide EncodeRecords, ReadFramed, Checksum, BeBytes;
    var read: seq<Record> := [];
    var at := 0;
    EmptyPayload();
    while at < |payload|
      invariant 0 <= at <= |payload|
      invariant AllFramable(read) && payload[..at] == EncodeRecords(read)
      invariant AllFramable(rs) && payload == EncodeRecords(rs) ==> ReadSoFar(payload, rs, read, at)
      decreases |payload| - at
    {
      var key := ReadFramed(payload, at);
      if AllFramable(rs) && payload == EncodeRecords(rs) {
        ReadStep(payload, rs, read, at);
      }
      if key.Err? {
        return Err(key.error);
      }
      FramedIs(payload, at);
      var value := ReadFramed(payload, key.value.1);
      if value.Err? {
        return Err(value.error);
      }
      FramedIs(payload, key.value.1);
      TwoFrames(payload, at, key.value.1, value.value.1, read, Record(key.value.0, value.value.0));
      read := read + [Record(key.value.0, value.value.0)];
      at := value.value.1;
    }
    if AllFramable(rs) && payload == EncodeRecords(rs) {
      ReadAll(payload, rs, read);
    }
    if Checksum(payload) != header.checksum {
      return Err(ChecksumMismatch);
    }
    return Ok(read);
  }

  /** What was read is what frames it. */
  lemma FramedIs(payload: seq<Byte>, at: nat)
    requires at <= |payload| && ReadFramed(payload, at).Ok?
    ensures
      var (data, next) := ReadFramed(payload, at).value;
      && at + 4 <= next <= |payload| && |data| < U32_SPAN
      && payload[at..next] == BeBytes(|data|, 4) + data
  {
    hide BeBytes, FromBe;
    WordSizes();
    var word := payload[at..at + 4];
    BeBytesInverts(word);
    var len := FromBe(word);
    var (data, next) := ReadFramed(payload, at).value;
    assert |data| == len && next == at + 4 + len;
    assert payload[at..next] == word + data;
  }

  lemma TwoFrames(payload: seq<Byte>, at: nat, mid: nat, next: nat, read: seq<Record>, r: Record)
    requires at <= mid <= next <= |payload| && payload[..at] == EncodeRecords(read)
    requires payload[at..mid] == BeBytes(|r.key|, 4) + r.key && payload[mid..next] == BeBytes(|r.value|, 4) + r.value
    ensures payload[..next] == EncodeRecords(read + [r])
  {
    hide BeBytes, EncodeRecords;
    EncodeGrows(read, r);
    Associates(BeBytes(|r.key|, 4) + r.key, BeBytes(|r.value|, 4), r.value);
    assert payload[..next] == payload[..at] + (payload[at..mid] + payload[mid..next]);
  }

  /** `read` is a prefix of the records and `at` is where its encoding ends. */
  ghost predicate ReadSoFar(payload: seq<Byte>, rs: seq<Record>, read: seq<Record>, at: nat) {
    && |read| <= |rs|
    && read == rs[..|read|]
    && at == |EncodeRecords(read)|
    && payload == EncodeRecords(read) + EncodeRecords(rs[|read|..])
  }

  lemma ReadAll(payload: seq<Byte>, rs: seq<Record>, read: seq<Record>)
    requires ReadSoFar(payload, rs, read, |payload|)
    ensures read == rs
  {
  }

  lemma ReadStep(payload: seq<Byte>, rs: seq<Record>, read: seq<Record>, at: nat)
    requires AllFramable(rs) && ReadSoFar(payload, rs, read, at) && at < |payload|
    ensures |read| < |rs|
    ensures
      var n := rs[|read|];
      var mid := at + 4 + |n.key|;
      && ReadFramed(payload, at) == Ok((n.key, mid))
      && mid <= |payload| && ReadFramed(payload, mid) == Ok((n.value, mid + 4 + |n.value|))
      && ReadSoFar(payload, rs, read + [n], mid + 4 + |n.value|)
  {
    hide ReadFramed, BeBytes, EncodeRecords, EncodeRecord;
    EmptyPayload();
    assert rs[|rs|..] == [];
    var n := rs[|read|];
    var before, after := EncodeRecords(read), EncodeRecords(rs[|read| + 1..]);
    var k, v := BeBytes(|n.key|, 4), BeBytes(|n.value|, 4);
    assert rs[|read|..][1..] == rs[|read| + 1..];
    RecordsStep(rs[|read|..]);
    Regroup(before, k, n.key, v, n.value, after);
    ReadFramedInverts(before, n.key, v + n.value + after);
    ReadFramedInverts(before + k + n.key, n.value, after);
    EncodeGrows(read, n);
    RecordBytes(n);
    assert read + [n] == rs[..|read| + 1];
  }

  // ---- a whole log

  /** A segment under a header that gives any entry count. */
  function SegmentWith(count: nat, rs: seq<Record>): seq<Byte> {
    var payload := EncodeRecords(rs);
    Header(count, |payload|, Checksum(payload)) + payload
  }

  function LogWith(counts: seq<nat>, segs: seq<seq<Record>>): seq<Byte>
    requires |counts| == |segs|
    decreases |segs|
  {
    if segs == [] then []
    else
      var n := |segs| - 1;
      LogWith(counts[..n], segs[..n]) + SegmentWith(counts[n], segs[n])
  }

  lemma LogWithGrows(counts: seq<nat>, segs: seq<seq<Record>>, n: nat)
    requires |counts| == |segs| && n < |segs|
    ensures LogWith(counts[..n + 1], segs[..n + 1]) == LogWith(counts[..n], segs[..n]) + SegmentWith(counts[n], segs[n])
  {
    hide SegmentWith;
    assert counts[..n + 1][..n] == counts[..n] && segs[..n + 1][..n] == segs[..n];
  }

  lemma {:induction false} LogWithPrefix(counts: seq<nat>, segs: seq<seq<Record>>, n: nat)
    requires |counts| == |segs| && n <= |segs|
    ensures LogWith(counts[..n], segs[..n]) <= LogWith(counts, segs)
    decreases |segs| - n
  {
    hide SegmentWith, LogWith;
    if n == |segs| {
      assert counts[..n] == counts && segs[..n] == segs;
    } else {
      LogWithPrefix(counts, segs, n + 1);
      LogWithGrows(counts, segs, n);
    }
  }

  /** The committed bytes are the segments end to end, framed and with the right
      checksums. The entry counts of their headers may be anything. */
  ghost predicate Reads(log: seq<Byte>, segmentCount: nat, logLen: nat, counts: seq<nat>, segs: seq<seq<Record>>) {
    && |counts| == |segs| == segmentCount && logLen <= |log|
    && (forall i :: 0 <= i < |segs| ==> Headable(counts[i], segs[i]))
    && log[..logLen] == LogWith(counts, segs)
  }

  /** Every field of the segment's header fits its width. */
  predicate Headable(count: nat, rs: seq<Record>) {
    AllFramable(rs) && count < U64_SPAN && |EncodeRecords(rs)| < U64_SPAN
  }

  function CountsOf(cursors: seq<(SegmentHeader, nat)>): seq<nat> {
    seq(|cursors|, i requires 0 <= i < |cursors| => cursors[i].0.entryCount)
  }

  /** Where each segment's payload lies, by walking the headers. */
  method BuildCursors(log: seq<Byte>, segmentCount: nat, logLen: nat, ghost counts: seq<nat>, ghost segs: seq<seq<Record>>)
    returns (r: Result<seq<(SegmentHeader, nat)>, SegmentError>)
    ensures r.Ok? ==> |r.value| == segmentCount && Chained(log, r.value, logLen)
    ensures Reads(log, segmentCount, logLen, counts, segs) ==> r.Ok? && Points(log, segs, r.value)
  {
    hide LogWith, ParseHeader, Points, Chained, Headable;
    var cursors: seq<(SegmentHeader, nat)> := [];
    var offset: nat := 0;
    var i := 0;
    NoCursors(log, counts, segs);
    while i < segmentCount
      invariant 0 <= i <= segmentCount && |cursors| == i && Chained(log, cursors, offset)
      invariant Reads(log, segmentCount, logLen, counts, segs) ==>
        offset == |LogWith(counts[..i], segs[..i])| && Points(log, segs[..i], cursors)
    {
      if Reads(log, segmentCount, logLen, counts, segs) {
        CursorStep(log, segmentCount, logLen, counts, segs, cursors, i);
      }
      if offset + HEADER_LEN > |log| {
        return Err(Truncated(HEADER_LEN, if offset <= |log| then |log| - offset else 0));
      }
      var header :- ParseHeader(log[offset..offset + HEADER_LEN]);
      ChainGrows(log, cursors, offset, header);
      cursors := cursors + [(header, offset + HEADER_LEN)];
      offset := offset + HEADER_LEN + header.payloadLen;
      i := i + 1;
    }
    if Reads(log, segmentCount, logLen, counts, segs) {
      assert segs[..i] == segs && counts[..i] == counts;
    }
    if offset != logLen {
      return Err(LengthMismatch);
    }
    return Ok(cursors);
  }

  /** The segments lie end to end from the start, each under a header that parses. */
  ghost predicate Chained(log: seq<Byte>, cursors: seq<(SegmentHeader, nat)>, end: nat)
    decreases |cursors|
  {
    if cursors == [] then end == 0
    else
      var last := cursors[|cursors| - 1];
      && HeadedAt(log, last)
      && Chained(log, cursors[..|cursors| - 1], last.1 - HEADER_LEN)
      && end == last.1 + last.0.payloadLen
  }

  lemma ChainGrows(log: seq<Byte>, cursors: seq<(SegmentHeader, nat)>, end: nat, header: SegmentHeader)
    requires Chained(log, cursors, end) && end + HEADER_LEN <= |log|
    requires ParseHeader(log[end..end + HEADER_LEN]) == Ok(header)
    ensures Chained(log, cursors + [(header, end + HEADER_LEN)], end + HEADER_LEN + header.payloadLen)
  {
    hide ParseHeader;
    assert (cursors + [(header, end + HEADER_LEN)])[..|cursors|] == cursors;
  }

  ghost predicate HeadedAt(log: seq<Byte>, cursor: (SegmentHeader, nat)) {
    && HEADER_LEN <= cursor.1 <= |log|
    && ParseHeader(log[cursor.1 - HEADER_LEN..cursor.1]) == Ok(cursor.0)
  }

  /** Each cursor names its segment's payload and checksum. */
  ghost predicate Points(log: seq<Byte>, segs: seq<seq<Record>>, cursors: seq<(SegmentHeader, nat)>) {
    && |cursors| == |segs|
    && forall i :: 0 <= i < |segs| ==> PointsTo(log, segs[i], cursors[i])
  }

  ghost predicate PointsTo(log: seq<Byte>, rs: seq<Record>, cursor: (SegmentHeader, nat)) {
    && cursor.1 + cursor.0.payloadLen <= |log|
    && AllFramable(rs)
    && log[cursor.1..cursor.1 + cursor.0.payloadLen] == EncodeRecords(rs)
    && cursor.0.checksum == Checksum(EncodeRecords(rs))
  }

  lemma NoCursors(log: seq<Byte>, counts: seq<nat>, segs: seq<seq<Record>>)
    ensures |counts| == |segs| ==> LogWith(counts[..0], segs[..0]) == []
    ensures Points(log, segs[..0], []) && Chained(log, [], 0)
  {
  }

  lemma CursorStep(log: seq<Byte>, segmentCount: nat, logLen: nat, counts: seq<nat>, segs: seq<seq<Record>>,
      cursors: seq<(SegmentHeader, nat)>, i: nat)
    requires i < |counts| == |segs| && Reads(log, segmentCount, logLen, counts, segs)
    requires Points(log, segs[..i], cursors)
    ensures CursorFound(log, segs[..i + 1], cursors, |LogWith(counts[..i], segs[..i])|, HeaderFor(counts[i], segs[i]))
    ensures |LogWith(counts[..i], segs[..i])| + HEADER_LEN + HeaderFor(counts[i], segs[i]).payloadLen ==
            |LogWith(counts[..i + 1], segs[..i + 1])|
  {
    hide ParseHeader, Checksum, EncodeRecords, Header, LogWith, AllFramable;
    var before := LogWith(counts[..i], segs[..i]);
    var payload := EncodeRecords(segs[i]);
    var h := Header(counts[i], |payload|, Checksum(payload));
    assert Headable(counts[i], segs[i]);
    LogWithGrows(counts, segs, i);
    LogWithPrefix(counts, segs, i + 1);
    ParseHeaderInverts(counts[i], |payload|, Checksum(payload));
    var after := log[|before + h + payload|..];
    assert log == log[..logLen] + log[logLen..];
    assert log == before + h + payload + after;
    MiddleParts(before, h, payload, after);
    assert PointsTo(log, segs[i], (HeaderFor(counts[i], segs[i]), |before| + HEADER_LEN));
  }

  function HeaderFor(count: nat, rs: seq<Record>): SegmentHeader {
    SegmentHeader(count, |EncodeRecords(rs)|, Checksum(EncodeRecords(rs)))
  }

  /** The next header lies at `at`, and its cursor points to the last of the segments. */
  ghost predicate CursorFound(log: seq<Byte>, segs: seq<seq<Record>>, cursors: seq<(SegmentHeader, nat)>, at: nat,
      header: SegmentHeader) {
    && at + HEADER_LEN <= |log|
    && ParseHeader(log[at..at + HEADER_LEN]) == Ok(header)
    && Points(log, segs, cursors + [(header, at + HEADER_LEN)])
  }

  /** A header that parses is the one its fields write. */
  lemma ParsedIsHeader(bytes: seq<Byte>)
    requires |bytes| == HEADER_LEN && ParseHeader(bytes).Ok?
    ensures
      var h := ParseHeader(bytes).value;
      && h.entryCount < U64_SPAN && h.payloadLen < U64_SPAN && h.checksum < U64_SPAN
      && bytes == Header(h.entryCount, h.payloadLen, h.checksum)
  {
    hide BeBytes, FromBe;
    WordSizes();
    BeBytesInverts(bytes[4..6]);
    BeBytesInverts(bytes[6..14]);
    BeBytesInverts(bytes[14..22]);
    BeBytesInverts(bytes[22..30]);
    assert bytes == bytes[0..4] + bytes[4..6] + bytes[6..14] + bytes[14..22] + bytes[22..30];
  }

  lemma CursorReads(log: seq<Byte>, rs: seq<Record>, cursor: (SegmentHeader, nat))
    requires HeadedAt(log, cursor) && PointsTo(log, rs, cursor)
    ensures Headable(cursor.0.entryCount, rs)
    ensures log[cursor.1 - HEADER_LEN..cursor.1 + cursor.0.payloadLen] == SegmentWith(cursor.0.entryCount, rs)
  {
    hide ParseHeader, Checksum, EncodeRecords, Header, AllFramable;
    var (header, at) := cursor;
    ParsedIsHeader(log[at - HEADER_LEN..at]);
    assert log[at - HEADER_LEN..at + header.payloadLen] == log[at - HEADER_LEN..at] + log[at..at + header.payloadLen];
  }

  /** Headers that chain over payloads that read are segments laid end to end. */
  lemma {:induction false} ChainedReads(log: seq<Byte>, cursors: seq<(SegmentHeader, nat)>, end: nat,
      segs: seq<seq<Record>>)
    requires Chained(log, cursors, end) && Points(log, segs, cursors)
    ensures end <= |log| && Reads(log, |segs|, end, CountsOf(cursors), segs)
    decreases |cursors|
  {
    hide ParseHeader, Checksum, EncodeRecords, Header, AllFramable, Headable;
    if cursors != [] {
      var n := |cursors| - 1;
      var start := cursors[n].1 - HEADER_LEN;
      ChainedReads(log, cursors[..n], start, segs[..n]);
      CursorReads(log, segs[n], cursors[n]);
      assert CountsOf(cursors)[..n] == CountsOf(cursors[..n]);
      assert log[..end] == log[..start] + log[start..end];
      forall i | 0 <= i < |segs| ensures Headable(CountsOf(cursors)[i], segs[i]) {
        if i < n {
          assert Headable(CountsOf(cursors[..n])[i], segs[..n][i]);
        }
      }
    }
  }

  /** Every segment of a log, read back: exactly the logs whose committed bytes are
      framed segments end to end with the right checksums, whatever entry counts
      their headers give and whatever follows. */
  method ReadLog(log: seq<Byte>, segmentCount: nat, logLen: nat, ghost counts: seq<nat>, ghost segs: seq<seq<Record>>)
    returns (r: Result<seq<seq<Record>>, SegmentError>)
    ensures r.Ok? ==> exists c :: Reads(log, segmentCount, logLen, c, r.value)
    ensures Reads(log, segmentCount, logLen, counts, segs) ==> r == Ok(segs)
  {
    hide LogWith, EncodeRecords, Checksum, AllFramable, Chained;
    var cursors :- BuildCursors(log, segmentCount, logLen, counts, segs);
    var read: seq<seq<Record>> := [];
    var i := 0;
    while i < |cursors|
      invariant 0 <= i <= |cursors| && |read| == i
      invariant forall j :: 0 <= j < i ==> PointsTo(log, read[j], cursors[j])
      invariant Reads(log, segmentCount, logLen, counts, segs) ==> read == segs[..i]
    {
      var (header, at) := cursors[i];
      if at + header.payloadLen > |log| {
        return Err(Truncated(header.payloadLen, if at <= |log| then |log| - at else 0));
      }
      if Reads(log, segmentCount, logLen, counts, segs) {
        assert PointsTo(log, segs[i], cursors[i]);
      }
      var rs :- ReadPayload(header, log[at..at + header.payloadLen], if i < |segs| then segs[i] else []);
      read := read + [rs];
      i := i + 1;
    }
    ChainedReads(log, cursors, logLen, read);
    assert Reads(log, segmentCount, logLen, counts, segs) ==> segs[..i] == segs;
    return Ok(read);
  }

  // ---- a log the writer made

  function LengthsOf(segs: seq<seq<Record>>): seq<nat> {
    seq(|segs|, i requires 0 <= i < |segs| => |segs[i]|)
  }

  predicate AllWritable(segs: seq<seq<Record>>) {
    forall i :: 0 <= i < |segs| ==> Writable(segs[i])
  }

  lemma {:induction false} LogOfCounts(segs: seq<seq<Record>>)
    ensures LogOf(segs) == LogWith(LengthsOf(segs), segs)
    decreases |segs|
  {
    hide EncodeRecords, Header, Checksum;
    if segs != [] {
      var n := |segs| - 1;
      LogOfCounts(segs[..n]);
      assert LengthsOf(segs)[..n] == LengthsOf(segs[..n]);
    }
  }

  /** What was written reads back, whatever stands after it. */
  lemma WrittenReads(log: seq<Byte>, segs: seq<seq<Record>>)
    requires AllWritable(segs) && LogOf(segs) <= log
    ensures Reads(log, |segs|, |LogOf(segs)|, LengthsOf(segs), segs)
  {
    hide LogOf, LogWith, EncodeRecords, AllFramable;
    LogOfCounts(segs);
    assert log[..|LogOf(segs)|] == LogOf(segs);
    forall i | 0 <= i < |segs| ensures Headable(LengthsOf(segs)[i], segs[i]) {
      assert Writable(segs[i]);
    }
  }

  /** A segment whose header gives the wrong number of entries reads all the same. */
  method MiscountedReads() returns (r: Result<seq<seq<Record>>, SegmentError>)
    ensures r == Ok([[Record([1], [2])]])
    ensures exists log ::
      Reads(log, 1, |log|, [7], [[Record([1], [2])]]) && ParseHeader(log).Ok? && ParseHeader(log).value.entryCount == 7
  {
    hide Checksum, Header, ParseHeader, BeBytes;
    var rs := [Record([1], [2])];
    var payload := EncodeRecords(rs);
    assert |payload| == 10 by {
      RecordsStep(rs);
      RecordBytes(rs[0]);
      EmptyPayload();
    }
    var header := Header(7, |payload|, Checksum(payload));
    var log := header + payload;
    assert LogWith([7], [rs]) == log by {
      NoSegments();
      LogWithGrows([7], [rs], 0);
      assert [7][..1] == [7] && [rs][..1] == [rs];
    }
    assert log[..|log|] == log;
    ParseHeaderInverts(7, |payload|, Checksum(payload));
    HeaderOfLonger(header, payload);
    r := ReadLog(log, 1, |log|, [7], [rs]);
  }

  lemma NoSegments()
    ensures LogWith([], []) == []
  {
  }

  lemma HeaderOfLonger(header: seq<Byte>, rest: seq<Byte>)
    requires |header| == HEADER_LEN
    ensures ParseHeader(header + rest) == ParseHeader(header)
  {
    hide FromBe;
    var longer := header + rest;
    assert longer[0..4] == header[0..4] && longer[4..6] == header[4..6] && longer[6..14] == header[6..14];
    assert longer[14..22] == header[14..22] && longer[22..30] == header[22..30];
  }
}
