/** Nine-byte framed datagrams of the order session, and the nested frames of a retransmission. */
module UdpPacket {
  import opened Common
  import opened Bytes

  const SESSION_MAGIC: nat := 0x4D4F4F52
  const HEADER_LEN: nat := 9

  const T_HELLO: u8 := 0x30
  const T_ORDER: u8 := 0x01
  const T_CANCEL: u8 := 0x02
  const T_REPLACE: u8 := 0x03
  const T_NAK_REQUEST: u8 := 0x20
  const T_HEARTBEAT: u8 := 0x40
  const T_HELLO_ACK: u8 := 0x31
  const T_ORDER_ACK: u8 := 0x12
  const T_REPORT: u8 := 0x10
  const T_NAK_RESPONSE: u8 := 0x21

  const ACK_OK: u8 := 0
  const ACK_REJECT: u8 := 1
  const ACK_RETRY: u8 := 2
  const GAP_TOO_OLD: u8 := 1

  datatype Frame = Frame(seq_: nat, mtype: u8, payload: seq<u8>)

  function Encode(f: Frame): seq<u8> {
    BeBytes(SESSION_MAGIC, 4) + BeBytes(f.seq_, 4) + [f.mtype] + f.payload
  }

  function Decode(dg: seq<u8>): Option<Frame> {
    if |dg| < HEADER_LEN then None
    else if FromBe(dg[0..4]) != SESSION_MAGIC then None
    else Some(Frame(FromBe(dg[4..8]), dg[8], dg[9..]))
  }

  lemma DecodeEncode(f: Frame)
    requires f.seq_ < TWO_32
    ensures Decode(Encode(f)) == Some(f)
  {
    hide BeBytes, FromBe;
    Widths();
    BeRoundTrip(SESSION_MAGIC, 4);
    BeRoundTrip(f.seq_, 4);
    var dg := Encode(f);
    assert dg[0..4] == BeBytes(SESSION_MAGIC, 4);
    assert dg[4..8] == BeBytes(f.seq_, 4);
    assert dg[9..] == f.payload;
  }

  // ---------------------------------------------------------------- ranges and retransmitted frames

  /** A `[start][count]` pair, as carried by NAK requests and heading NAK responses. */
  function Range(start: nat, count: nat): (r: seq<u8>)
    ensures |r| == 8
  {
    BeBytes(start, 4) + BeBytes(count, 4)
  }

  lemma RangeRoundTrip(start: nat, count: nat, tail: seq<u8>)
    requires start < TWO_32 && count < TWO_32
    ensures FromBe((Range(start, count) + tail)[0..4]) == start
    ensures FromBe((Range(start, count) + tail)[4..8]) == count
  {
    hide BeBytes, FromBe;
    Widths();
    BeRoundTrip(start, 4);
    BeRoundTrip(count, 4);
    var p := Range(start, count) + tail;
    assert p[0..4] == BeBytes(start, 4);
    assert p[4..8] == BeBytes(count, 4);
  }

  datatype Report = Report(seq_: nat, payload: seq<u8>)

  function Nested(r: Report): seq<u8> {
    BeBytes(r.seq_, 4) + BeBytes(|r.payload| % TWO_16, 2) + r.payload
  }

  function NestedAll(rs: seq<Report>): seq<u8> {
    if rs == [] then [] else Nested(rs[0]) + NestedAll(rs[1..])
  }

  /** Up to `count` nested frames from offset `off`; stops at the first truncated one. */
  function ParseNested(p: seq<u8>, off: nat, count: nat): seq<Report>
    requires off <= |p|
    decreases count
  {
    if count == 0 || off + 6 > |p| then []
    else
      var len := FromBe(p[off + 4..off + 6]);
      if off + 6 + len > |p| then []
      else [Report(FromBe(p[off..off + 4]), p[off + 6..off + 6 + len])] + ParseNested(p, off + 6 + len, count - 1)
  }

  predicate Carried(rs: seq<Report>) {
    forall i :: 0 <= i < |rs| ==> rs[i].seq_ < TWO_32 && |rs[i].payload| < TWO_16
  }

  lemma NestedAt(head: seq<u8>, r: Report, tail: seq<u8>)
    requires r.seq_ < TWO_32 && |r.payload| < TWO_16
    ensures var p, off, n := head + Nested(r) + tail, |head|, |r.payload|;
      && |Nested(r)| == 6 + n
      && FromBe(p[off..off + 4]) == r.seq_ && FromBe(p[off + 4..off + 6]) == n && p[off + 6..off + 6 + n] == r.payload
  {
    hide BeBytes, FromBe;
    Widths();
    BeRoundTrip(r.seq_, 4);
    BeRoundTrip(|r.payload|, 2);
    var p, off, n := head + Nested(r) + tail, |head|, |r.payload|;
    assert p[off..off + 4] == BeBytes(r.seq_, 4);
    assert p[off + 4..off + 6] == BeBytes(n, 2);
    assert p[off + 6..off + 6 + n] == r.payload;
  }

  /** Parsing the nested frames of a response gives back the reports it was built from. */
  lemma {:induction false} ParseNestedAll(head: seq<u8>, rs: seq<Report>)
    requires Carried(rs)
    ensures ParseNested(head + NestedAll(rs), |head|, |rs|) == rs
    decreases rs
  {
    hide BeBytes, FromBe, Nested;
    if rs != [] {
      var r, rest := rs[0], rs[1..];
      NestedAt(head, r, NestedAll(rest));
      assert head + NestedAll(rs) == head + Nested(r) + NestedAll(rest);
      ParseNestedAll(head + Nested(r), rest);
    }
  }
}
