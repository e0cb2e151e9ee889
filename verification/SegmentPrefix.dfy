/** A run log says where each of its segments ends, so what one begins with is
    decided by its bytes. */
module SegmentPrefix {
  import opened Wrappers
  import opened ChainWorld
  import opened ByteInts
  import opened Slices
  import opened SortedKeys
  import opened SegmentLog

  lemma SameAfter<T>(a: seq<T>, x: seq<T>, y: seq<T>)
    requires a + x == a + y
    ensures x == y
  {
    assert (a + x)[|a|..] == x && (a + y)[|a|..] == y;
  }

  lemma FrameAtStart(a: seq<Byte>, x: seq<Byte>)
    requires |a| < U32_SPAN
    ensures ReadFramed(BeBytes(|a|, 4) + a + x, 0) == Ok((a, 4 + |a|))
  {
    hide BeBytes, ReadFramed, FromBe;
    WordSizes();
    FromBeInverts(|a|, 4);
    var word := BeBytes(|a|, 4);
    assert (word + a + x)[0..4] == word && (word + a + x)[4..4 + |a|] == a;
    FramedAt(word + a + x, 0, a);
  }

  /** A framed string is told apart from any other. */
  lemma FrameIsPrefixFree(a: seq<Byte>, x: seq<Byte>, b: seq<Byte>, y: seq<Byte>)
    requires |a| < U32_SPAN && |b| < U32_SPAN
    requires BeBytes(|a|, 4) + a + x == BeBytes(|b|, 4) + b + y
    ensures a == b && x == y
  {
    hide BeBytes, ReadFramed;
    FrameAtStart(a, x);
    FrameAtStart(b, y);
    SameAfter(BeBytes(|a|, 4) + a, x, y);
  }

  lemma RecordIsPrefixFree(r: Record, x: seq<Byte>, s: Record, y: seq<Byte>)
    requires Framable(r) && Framable(s) && EncodeRecord(r) + x == EncodeRecord(s) + y
    ensures r == s && x == y
  {
    hide BeBytes;
    var rv, sv := BeBytes(|r.value|, 4) + r.value + x, BeBytes(|s.value|, 4) + s.value + y;
    assert EncodeRecord(r) + x == BeBytes(|r.key|, 4) + r.key + rv;
    assert EncodeRecord(s) + y == BeBytes(|s.key|, 4) + s.key + sv;
    FrameIsPrefixFree(r.key, rv, s.key, sv);
    FrameIsPrefixFree(r.value, x, s.value, y);
  }

  lemma {:induction false} RecordsAreDetermined(a: seq<Record>, b: seq<Record>)
    requires AllFramable(a) && AllFramable(b) && EncodeRecords(a) == EncodeRecords(b)
    ensures a == b
    decreases |a|
  {
    hide EncodeRecord;
    if a == [] || b == [] {
      RecordsHaveBytes(a);
      RecordsHaveBytes(b);
    } else {
      RecordIsPrefixFree(a[0], EncodeRecords(a[1..]), b[0], EncodeRecords(b[1..]));
      RecordsAreDetermined(a[1..], b[1..]);
      assert a == [a[0]] + a[1..] && b == [b[0]] + b[1..];
    }
  }

  lemma RecordsHaveBytes(rs: seq<Record>)
    ensures EncodeRecords(rs) == [] <==> rs == []
  {
  }

  /** No segment the writer makes begins another. */
  lemma SegmentIsPrefixFree(a: seq<Record>, x: seq<Byte>, b: seq<Record>, y: seq<Byte>)
    requires Writable(a) && Writable(b) && Segment(a) + x == Segment(b) + y
    ensures a == b && x == y
  {
    hide EncodeRecords, Header, ParseHeader, Checksum, AllFramable;
    var p, q := EncodeRecords(a), EncodeRecords(b);
    var h, g := Header(|a|, |p|, Checksum(p)), Header(|b|, |q|, Checksum(q));
    Associates(h, p, x);
    Associates(g, q, y);
    ParseHeaderInverts(|a|, |p|, Checksum(p));
    ParseHeaderInverts(|b|, |q|, Checksum(q));
    HeaderOfLonger(h, p + x);
    HeaderOfLonger(g, q + y);
    SameAfter(h, p + x, q + y);
    assert (p + x)[..|p|] == p && (q + y)[..|p|] == q;
    RecordsAreDetermined(a, b);
    SameAfter(p, x, y);
  }

  lemma {:induction false} LogOfSplits(a: seq<seq<Record>>, b: seq<seq<Record>>)
    ensures LogOf(a + b) == LogOf(a) + LogOf(b)
    decreases |b|
  {
    hide Segment;
    if b == [] {
      assert a + b == a;
    } else {
      var n := |b| - 1;
      LogOfSplits(a, b[..n]);
      assert (a + b)[..|a + b| - 1] == a + b[..n];
      Associates(LogOf(a), LogOf(b[..n]), Segment(b[n]));
    }
  }

  lemma FirstOfLog(segs: seq<seq<Record>>)
    requires segs != []
    ensures LogOf(segs) == Segment(segs[0]) + LogOf(segs[1..])
  {
    hide Segment;
    assert segs == [segs[0]] + segs[1..];
    LogOfSplits([segs[0]], segs[1..]);
    assert LogOf([segs[0]]) == LogOf([]) + Segment(segs[0]);
  }

  lemma SegmentHasBytes(rs: seq<Record>)
    ensures |Segment(rs)| >= HEADER_LEN
  {
    hide EncodeRecords, Checksum;
  }

  /** Two logs with a common beginning agree on their segments as far as both go. */
  lemma {:induction false} LogsAgree(a: seq<seq<Record>>, x: seq<Byte>, b: seq<seq<Record>>, y: seq<Byte>)
    requires AllWritable(a) && AllWritable(b) && LogOf(a) + x == LogOf(b) + y
    ensures |a| <= |b| ==> a == b[..|a|]
    ensures y == [] ==> |a| <= |b|
    decreases |a|
  {
    hide LogOf, Segment, Writable;
    if a != [] {
      FirstOfLog(a);
      SegmentHasBytes(a[0]);
      if b == [] {
        assert LogOf(b) == [] by { NoLogOf(); }
      } else {
        FirstOfLog(b);
        Associates(Segment(a[0]), LogOf(a[1..]), x);
        Associates(Segment(b[0]), LogOf(b[1..]), y);
        SegmentIsPrefixFree(a[0], LogOf(a[1..]) + x, b[0], LogOf(b[1..]) + y);
        LogsAgree(a[1..], x, b[1..], y);
        assert a == [a[0]] + a[1..] && b == [b[0]] + b[1..];
      }
    }
  }

  lemma NoLogOf()
    ensures LogOf([]) == []
  {
  }

  /** Leftover bytes ahead of a segment leave it readable in its place exactly when
      they already begin with it; whole segments, exactly when theirs is the first. */
  lemma StrayThenSegment(stray: seq<seq<Record>>, rs: seq<Record>)
    requires AllWritable(stray) && Writable(rs)
    ensures Segment(rs) <= LogOf(stray) + Segment(rs) <==> stray == [] || stray[0] == rs
  {
    hide LogOf, Segment, Writable;
    NoLogOf();
    if stray != [] {
      FirstOfLog(stray);
      Associates(Segment(stray[0]), LogOf(stray[1..]), Segment(rs));
      var all := LogOf(stray) + Segment(rs);
      if Segment(rs) <= all {
        assert all == Segment(rs) + all[|Segment(rs)|..];
        SegmentIsPrefixFree(rs, all[|Segment(rs)|..], stray[0], LogOf(stray[1..]) + Segment(rs));
      }
    }
  }
}
