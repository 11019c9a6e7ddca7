/** MoldUDP64 wire format: a 20-byte header, then length-prefixed message blocks. */
module MoldPacket {
  import opened Common
  import opened Bytes

  const SESSION_LEN: nat := 10
  const HEADER_LEN: nat := 20
  const BLOCK_LEN: nat := 2

  /** Downstream headers and retransmission requests share this layout. */
  datatype Header = Header(session: seq<u8>, first: nat, count: nat)

  predicate HeaderFits(h: Header) {
    |h.session| == SESSION_LEN && h.first < TWO_64 && h.count < TWO_16
  }

  function EncodeHeader(h: Header): (r: seq<u8>)
    requires HeaderFits(h)
    ensures |r| == HEADER_LEN
  {
    h.session + BeBytes(h.first, 8) + BeBytes(h.count, 2)
  }

  function DecodeHeader(buf: seq<u8>): (r: Option<Header>)
    ensures r.Some? <==> |buf| >= HEADER_LEN
  {
    if |buf| < HEADER_LEN then None
    else Some(Header(buf[..SESSION_LEN], FromBe(buf[SESSION_LEN..SESSION_LEN + 8]),
        FromBe(buf[SESSION_LEN + 8..HEADER_LEN])))
  }

  /** Decoding reads back the header, whatever follows it. */
  lemma HeaderRoundTrip(h: Header, rest: seq<u8>)
    requires HeaderFits(h)
    ensures DecodeHeader(EncodeHeader(h) + rest) == Some(h)
  {
    hide BeBytes, FromBe;
    Widths();
    BeRoundTrip(h.first, 8);
    BeRoundTrip(h.count, 2);
    var buf := EncodeHeader(h) + rest;
    assert buf[..SESSION_LEN] == h.session;
    assert buf[SESSION_LEN..SESSION_LEN + 8] == BeBytes(h.first, 8);
    assert buf[SESSION_LEN + 8..HEADER_LEN] == BeBytes(h.count, 2);
  }

  lemma DecodedHeaderFits(buf: seq<u8>)
    requires |buf| >= HEADER_LEN
    ensures HeaderFits(DecodeHeader(buf).value)
  {
    Widths();
    FromBeBound(buf[SESSION_LEN..SESSION_LEN + 8]);
    FromBeBound(buf[SESSION_LEN + 8..HEADER_LEN]);
  }

  /** A block's length prefix keeps only 16 bits. */
  function Block(p: seq<u8>): (r: seq<u8>)
    ensures |r| == BLOCK_LEN + |p|
  {
    BeBytes(|p| % TWO_16, 2) + p
  }

  function Blocks(msgs: seq<seq<u8>>): seq<u8> {
    if msgs == [] then [] else Blocks(msgs[..|msgs| - 1]) + Block(msgs[|msgs| - 1])
  }

  function Downstream(session: seq<u8>, first: nat, msgs: seq<seq<u8>>): seq<u8>
    requires |session| == SESSION_LEN && first < TWO_64
  {
    EncodeHeader(Header(session, first, |msgs| % TWO_16)) + Blocks(msgs)
  }

  /** What a block area yields: the numbered messages, and whether it ended early. */
  datatype Parsed = Parsed(messages: seq<(nat, seq<u8>)>, truncated: bool)

  function ParseBlocks(buf: seq<u8>, off: nat, first: nat, count: nat): (r: Parsed)
    requires off <= |buf|
    ensures r.truncated <==> |r.messages| < count
    ensures |r.messages| <= count
    decreases count
  {
    if count == 0 then Parsed([], false)
    else if |buf| - off < BLOCK_LEN then Parsed([], true)
    else
      var len := FromBe(buf[off..off + BLOCK_LEN]);
      var body := off + BLOCK_LEN;
      if |buf| - body < len then Parsed([], true)
      else
        var rest := ParseBlocks(buf, body + len, first + 1, count - 1);
        Parsed([(first, buf[body..body + len])] + rest.messages, rest.truncated)
  }

  /** Messages inside a packet are implicitly consecutive. */
  lemma {:induction false} ParsedConsecutive(buf: seq<u8>, off: nat, first: nat, count: nat, i: nat)
    requires off <= |buf| && i < |ParseBlocks(buf, off, first, count).messages|
    ensures ParseBlocks(buf, off, first, count).messages[i].0 == first + i
    decreases count
  {
    if i > 0 {
      var len := FromBe(buf[off..off + BLOCK_LEN]);
      ParsedConsecutive(buf, off + BLOCK_LEN + len, first + 1, count - 1, i - 1);
    }
  }

  function Numbered(first: nat, msgs: seq<seq<u8>>): (r: seq<(nat, seq<u8>)>)
    ensures |r| == |msgs|
  {
    seq(|msgs|, i requires 0 <= i < |msgs| => (first + i, msgs[i]))
  }

  predicate ShortMessages(msgs: seq<seq<u8>>) {
    forall i :: 0 <= i < |msgs| ==> |msgs[i]| < TWO_16
  }

  lemma {:induction false} BlocksConcat(a: seq<seq<u8>>, b: seq<seq<u8>>)
    ensures Blocks(a + b) == Blocks(a) + Blocks(b)
  {
    hide Block;
    if b == [] {
      assert a + b == a;
    } else {
      var n := |b| - 1;
      assert (a + b)[..|a + b| - 1] == a + b[..n];
      BlocksConcat(a, b[..n]);
      assert Blocks(a) + Blocks(b[..n]) + Block(b[n]) == Blocks(a) + (Blocks(b[..n]) + Block(b[n]));
    }
  }

  lemma BlocksHead(msgs: seq<seq<u8>>)
    requires msgs != []
    ensures Blocks(msgs) == Block(msgs[0]) + Blocks(msgs[1..])
  {
    assert [msgs[0]] + msgs[1..] == msgs;
    BlocksConcat([msgs[0]], msgs[1..]);
    assert Blocks([msgs[0]]) == Blocks([msgs[0]][..0]) + Block(msgs[0]);
  }

  lemma {:induction false} ParseInvertsBlocks(buf: seq<u8>, off: nat, first: nat, msgs: seq<seq<u8>>)
    requires ShortMessages(msgs) && off <= |buf| && buf[off..] == Blocks(msgs)
    ensures ParseBlocks(buf, off, first, |msgs|) == Parsed(Numbered(first, msgs), false)
    decreases |msgs|
  {
    hide BeBytes, FromBe, Blocks;
    if msgs != [] {
      var p, rest := msgs[0], msgs[1..];
      BlocksHead(msgs);
      Widths();
      BeRoundTrip(|p|, 2);
      var body := off + BLOCK_LEN;
      HeadSlices(buf, off, BeBytes(|p|, 2), p, Blocks(rest));
      ParseInvertsBlocks(buf, body + |p|, first + 1, rest);
      assert Numbered(first, msgs) == [(first, p)] + Numbered(first + 1, rest);
    }
  }

  lemma HeadSlices(buf: seq<u8>, off: nat, pre: seq<u8>, p: seq<u8>, rest: seq<u8>)
    requires off <= |buf| && buf[off..] == pre + p + rest
    ensures |buf| == off + |pre| + |p| + |rest|
    ensures buf[off..off + |pre|] == pre
    ensures buf[off + |pre|..off + |pre| + |p|] == p
    ensures buf[off + |pre| + |p|..] == rest
  {
    var tail := buf[off..];
    assert |tail| == |pre| + |p| + |rest|;
    assert pre == tail[..|pre|] == buf[off..off + |pre|];
    SecondSlice(buf, off, pre, p, rest);
    assert rest == tail[|pre| + |p|..] == buf[off + |pre| + |p|..];
  }

  lemma SecondSlice(buf: seq<u8>, off: nat, pre: seq<u8>, p: seq<u8>, rest: seq<u8>)
    requires off <= |buf| && buf[off..] == pre + p + rest
    ensures |buf| == off + |pre| + |p| + |rest|
    ensures buf[off + |pre|..off + |pre| + |p|] == p
  {
    var tail := buf[off..];
    assert |tail| == |pre| + |p| + |rest|;
    forall i | 0 <= i < |p| ensures buf[off + |pre| + i] == p[i] {
      assert tail[|pre| + i] == buf[off + |pre| + i];
    }
  }

  /** A packet of short messages is read back whole, each message under its own number. */
  lemma DownstreamRoundTrip(session: seq<u8>, first: nat, msgs: seq<seq<u8>>)
    requires |session| == SESSION_LEN && first < TWO_64 && |msgs| < TWO_16 && ShortMessages(msgs)
    ensures var buf := Downstream(session, first, msgs);
            DecodeHeader(buf) == Some(Header(session, first, |msgs|))
            && ParseBlocks(buf, HEADER_LEN, first, |msgs|) == Parsed(Numbered(first, msgs), false)
  {
    hide BeBytes, FromBe, Blocks, DecodeHeader, ParseBlocks;
    var h := Header(session, first, |msgs|);
    HeaderRoundTrip(h, Blocks(msgs));
    var buf := EncodeHeader(h) + Blocks(msgs);
    assert buf[HEADER_LEN..] == Blocks(msgs);
    ParseInvertsBlocks(buf, HEADER_LEN, first, msgs);
  }
}
