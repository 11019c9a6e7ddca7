/** MoldUDP64 publisher, retransmission server and subscriber. */
module MoldStream {
  import opened Common
  import opened Bytes
  import opened MoldPacket
  import opened MoldRing

  const MAX_DATAGRAM: nat := 1472

  function Payloads(ms: seq<Cached>): (r: seq<seq<u8>>)
    ensures |r| == |ms|
  {
    seq(|ms|, i requires 0 <= i < |ms| => ms[i].payload)
  }

  /** The publisher numbers its messages from one, without holes. */
  ghost predicate FromOne(pushed: seq<Cached>) {
    && (forall k :: 0 <= k < |pushed| ==> pushed[k].seq_ == k + 1)
    && |pushed| + 1 < TWO_64
  }

  class MoldPublisher {
    const session: seq<u8>
    const cache: MessageRingBuf
    var nextSeq: nat

    ghost predicate Valid()
      reads this, cache, cache.slots
    {
      |session| == SESSION_LEN && cache.Valid() && FromOne(cache.pushed) && nextSeq == |cache.pushed| + 1
    }

    constructor (session: seq<u8>, capacity: nat)
      requires |session| == SESSION_LEN && capacity > 0
      ensures Valid() && fresh(cache) && fresh(cache.slots) && cache.pushed == [] && cache.capacity == capacity
    {
      this.session := session;
      cache := new MessageRingBuf(capacity);
      nextSeq := 1;
    }

    /** Publish one message as its own packet. */
    method Publish(payload: seq<u8>) returns (packet: seq<u8>)
      requires Valid() && nextSeq + 1 < TWO_64
      modifies this, cache, cache.slots
      ensures Valid()
      ensures Payloads(cache.pushed) == old(Payloads(cache.pushed)) + [payload]
      ensures packet == Downstream(session, old(nextSeq), [payload])
    {
      hide MessageRingBuf.Valid, BeBytes;
      var s := nextSeq;
      nextSeq := nextSeq + 1;
      cache.Push(s, payload);
      packet := BuildPacket(session, s, [payload]);
    }

    /**
     Publish the longest prefix of `msgs` that fits the datagram budget as one packet.
     Nothing is published when even the first message does not fit.
     */
    method PublishBatch(msgs: seq<seq<u8>>, maxBytes: nat) returns (packed: nat, packet: Option<seq<u8>>)
      requires Valid() && nextSeq + |msgs| < TWO_64
      modifies this, cache, cache.slots
      ensures Valid() && packed <= |msgs|
      ensures var max := if maxBytes == 0 then MAX_DATAGRAM else maxBytes;
              (packed > 0 ==> HEADER_LEN + |Blocks(msgs[..packed])| <= max)
              && (packed < |msgs| ==> HEADER_LEN + |Blocks(msgs[..packed + 1])| > max)
      ensures Payloads(cache.pushed) == old(Payloads(cache.pushed)) + msgs[..packed]
      ensures packet == if packed == 0 then None else Some(Downstream(session, old(nextSeq), msgs[..packed]))
    {
      hide MessageRingBuf.Valid, BeBytes;
      packet := None;
      packed := Pack(msgs, if maxBytes == 0 then MAX_DATAGRAM else maxBytes);
      if packed == 0 {
        assert Payloads(cache.pushed) + msgs[..0] == Payloads(cache.pushed);
        return;
      }
      var first := nextSeq;
      nextSeq := nextSeq + packed;
      CacheAll(first, msgs[..packed]);
      var p := BuildPacket(session, first, msgs[..packed]);
      packet := Some(p);
    }

    method CacheAll(first: nat, msgs: seq<seq<u8>>)
      requires cache.Valid() && FromOne(cache.pushed) && first == |cache.pushed| + 1 && first + |msgs| < TWO_64
      modifies cache, cache.slots
      ensures cache.Valid() && FromOne(cache.pushed) && |cache.pushed| == old(|cache.pushed|) + |msgs|
      ensures Payloads(cache.pushed) == old(Payloads(cache.pushed)) + msgs
    {
      hide MessageRingBuf.Valid;
      ghost var before := Payloads(cache.pushed);
      var i := 0;
      while i < |msgs|
        invariant 0 <= i <= |msgs| && cache.Valid() && FromOne(cache.pushed)
        invariant first + i == |cache.pushed| + 1
        invariant Payloads(cache.pushed) == before + msgs[..i]
      {
        ghost var was := cache.pushed;
        cache.Push(first + i, msgs[i]);
        assert Payloads(cache.pushed) == Payloads(was) + [msgs[i]];
        assert before + msgs[..i + 1] == before + msgs[..i] + [msgs[i]];
        i := i + 1;
      }
    }
  }

  /** How many leading messages fit a datagram of `max` bytes. */
  method Pack(msgs: seq<seq<u8>>, max: nat) returns (n: nat)
    ensures n <= |msgs|
    ensures n > 0 ==> HEADER_LEN + |Blocks(msgs[..n])| <= max
    ensures n < |msgs| ==> HEADER_LEN + |Blocks(msgs[..n + 1])| > max
  {
    n := 0;
    var total := HEADER_LEN;
    while n < |msgs|
      invariant 0 <= n <= |msgs| && total == HEADER_LEN + |Blocks(msgs[..n])|
      invariant n > 0 ==> total <= max
    {
      assert msgs[..n + 1][..n] == msgs[..n];
      var block := BLOCK_LEN + |msgs[n]|;
      if n > 0 && total + block > max {
        break;
      }
      if n == 0 && block + HEADER_LEN > max {
        break;
      }
      total := total + block;
      n := n + 1;
    }
  }

  method BuildPacket(session: seq<u8>, first: nat, msgs: seq<seq<u8>>) returns (packet: seq<u8>)
    requires |session| == SESSION_LEN && first < TWO_64
    ensures packet == Downstream(session, first, msgs)
  {
    hide BeBytes;
    var header := EncodeHeader(Header(session, first, |msgs| % TWO_16));
    packet := header;
    var i := 0;
    while i < |msgs|
      invariant 0 <= i <= |msgs|
      invariant packet == header + Blocks(msgs[..i])
    {
      assert msgs[..i + 1][..i] == msgs[..i];
      packet := packet + Block(msgs[i]);
      i := i + 1;
    }
    assert msgs[..i] == msgs;
  }

  // ---------------------------------------------------------------- retransmission server

  /** Serve one request datagram from the shared cache; malformed and foreign requests get no reply. */
  method ServeOnce(cache: MessageRingBuf, session: seq<u8>, datagram: seq<u8>) returns (reply: Option<seq<u8>>)
    requires cache.Valid() && |session| == SESSION_LEN
    requires cache.pushed != [] ==> cache.pushed[0].seq_ < TWO_64
    ensures reply.Some? ==> RepliesFrom(cache.pushed, cache.capacity, session, datagram, reply.value)
    ensures Consecutive(cache.pushed) ==> reply == ReplyTo(cache.pushed, cache.capacity, session, datagram)
  {
    hide BeBytes, FromBe, MessageRingBuf.Valid, Consecutive, Window;
    var req := DecodeHeader(datagram);
    if req == None || req.value.session != session {
      return None;
    }
    DecodedHeaderFits(datagram);
    var start := req.value.first;
    var msgs := cache.GetRange(start, req.value.count);
    if msgs == [] {
      return None;
    }
    var packet := BuildPacket(session, start, Payloads(msgs));
    reply := Some(packet);
    assert RunFrom(cache.pushed, cache.capacity, start, req.value.count, msgs);
  }

  /** Cached messages with consecutive numbers from `start`, at most `count` and at least one. */
  ghost predicate RunFrom(pushed: seq<Cached>, cap: nat, start: nat, count: nat, ms: seq<Cached>) {
    && 0 < |ms| <= count
    && forall i :: 0 <= i < |ms| ==> ms[i].seq_ == start + i && ms[i] in Window(pushed, cap)
  }

  /** Whatever was pushed: the request names this session, and the packet carries such a run from its start. */
  ghost predicate RepliesFrom(pushed: seq<Cached>, cap: nat, session: seq<u8>, datagram: seq<u8>, packet: seq<u8>) {
    && |session| == SESSION_LEN && |datagram| >= HEADER_LEN
    && var req := DecodeHeader(datagram).value;
    && req.session == session && req.first < TWO_64
    && exists ms :: RunFrom(pushed, cap, req.first, req.count, ms)
        && packet == Downstream(session, req.first, Payloads(ms))
  }

  function ReplyTo(pushed: seq<Cached>, cap: nat, session: seq<u8>, datagram: seq<u8>): Option<seq<u8>>
    requires |session| == SESSION_LEN
  {
    var req := DecodeHeader(datagram);
    if req == None || req.value.session != session then None
    else
      DecodedHeaderFits(datagram);
      var run := RetainedRun(pushed, cap, req.value.first, req.value.count);
      if run == [] then None else Some(Downstream(session, req.value.first, Payloads(run)))
  }

  // ---------------------------------------------------------------- subscriber

  datatype Gap = Gap(expected: nat, first: nat, lost: nat)

  datatype Outcome = Outcome(first: nat, count: nat, heartbeat: bool, gap: Option<Gap>, messages: seq<(nat, seq<u8>)>)

  /** What one datagram does to the watermark, and what it reports. */
  function Receive(last: Option<nat>, buf: seq<u8>): (r: (Option<nat>, Outcome))
    requires |buf| >= HEADER_LEN
  {
    var h := DecodeHeader(buf).value;
    if h.count == 0 then
      (match last
       case Some(l) => Some(Max(l, if h.first == 0 then 0 else h.first - 1))
       case None => if h.first > 1 then Some(h.first - 1) else None,
       Outcome(h.first, 0, true, None, []))
    else
      var expected := if last.Some? then last.value + 1 else h.first;
      var gap := if h.first > expected then Some(Gap(expected, h.first, h.first - expected)) else None;
      var parsed := ParseBlocks(buf, HEADER_LEN, h.first, h.count);
      var last' :=
        if parsed.truncated then last
        else
          var end := h.first + h.count - 1;
          Some(if last.Some? then Max(last.value, end) else end);
      (last', Outcome(h.first, h.count, false, gap, parsed.messages))
  }

  class MoldSubscriber {
    var lastSeq: Option<nat>

    constructor ()
      ensures lastSeq == None
    {
      lastSeq := None;
    }

    /** Short datagrams are ignored. */
    method Recv(datagram: seq<u8>) returns (r: Option<Outcome>)
      modifies this
      ensures |datagram| < HEADER_LEN ==> r == None && lastSeq == old(lastSeq)
      ensures |datagram| >= HEADER_LEN ==> (lastSeq, r) == (Receive(old(lastSeq), datagram).0,
          Some(Receive(old(lastSeq), datagram).1))
    {
      if |datagram| < HEADER_LEN {
        return None;
      }
      var o := ParsePacket(datagram);
      r := Some(o);
    }

    method ParsePacket(buf: seq<u8>) returns (o: Outcome)
      requires |buf| >= HEADER_LEN
      modifies this
      ensures (lastSeq, o) == Receive(old(lastSeq), buf)
    {
      hide FromBe;
      var h := DecodeHeader(buf).value;
      if h.count == 0 {
        if lastSeq.Some? {
          lastSeq := Some(Max(lastSeq.value, if h.first == 0 then 0 else h.first - 1));
        } else if h.first > 1 {
          lastSeq := Some(h.first - 1);
        }
        return Outcome(h.first, 0, true, None, []);
      }
      var expected := if lastSeq.Some? then lastSeq.value + 1 else h.first;
      var gap := if h.first > expected then Some(Gap(expected, h.first, h.first - expected)) else None;
      var messages, truncated := ReadBlocks(buf, h.first, h.count);
      if !truncated && messages != [] {
        var end := h.first + |messages| - 1;
        lastSeq := Some(if lastSeq.Some? then Max(lastSeq.value, end) else end);
      }
      o := Outcome(h.first, h.count, false, gap, messages);
    }
  }

  method ReadBlocks(buf: seq<u8>, first: nat, count: nat) returns (messages: seq<(nat, seq<u8>)>, truncated: bool)
    requires |buf| >= HEADER_LEN
    ensures Parsed(messages, truncated) == ParseBlocks(buf, HEADER_LEN, first, count)
  {
    hide FromBe;
    messages, truncated := [], false;
    var off := HEADER_LEN;
    var i := 0;
    assert messages + ParseBlocks(buf, off, first, count).messages == ParseBlocks(buf, off, first, count).messages;
    while i < count
      invariant 0 <= i <= count && HEADER_LEN <= off <= |buf| && !truncated
      invariant Prepend(messages, ParseBlocks(buf, off, first + i, count - i))
          == ParseBlocks(buf, HEADER_LEN, first, count)
    {
      if |buf| - off < BLOCK_LEN {
        truncated := true;
        break;
      }
      var len := FromBe(buf[off..off + BLOCK_LEN]);
      off := off + BLOCK_LEN;
      if |buf| - off < len {
        truncated := true;
        break;
      }
      var m := (first + i, buf[off..off + len]);
      PrependAssoc(messages, m, ParseBlocks(buf, off + len, first + i + 1, count - i - 1));
      messages := messages + [m];
      off := off + len;
      i := i + 1;
    }
  }

  function Prepend(ms: seq<(nat, seq<u8>)>, p: Parsed): Parsed {
    Parsed(ms + p.messages, p.truncated)
  }

  lemma PrependAssoc(ms: seq<(nat, seq<u8>)>, m: (nat, seq<u8>), p: Parsed)
    ensures Prepend(ms, Prepend([m], p)) == Prepend(ms + [m], p)
  {
    assert ms + ([m] + p.messages) == ms + [m] + p.messages;
  }
}
