/** Whole runs of a MoldUDP64 subscriber: authenticity, replay, and gap coverage. */
module MoldRuns {
  import opened Common
  import opened Bytes
  import opened MoldPacket
  import opened MoldRing
  import opened MoldStream

  /** Everything a subscriber has seen: watermark, first number tracked, deliveries, reported gaps. */
  datatype Log = Log(last: Option<nat>, floor: Option<nat>, delivered: seq<(nat, seq<u8>)>, gaps: seq<Gap>)

  function Advance(l: Log, buf: seq<u8>): Log
    requires |buf| >= HEADER_LEN
  {
    var (last', o) := Receive(l.last, buf);
    Log(last',
        if l.floor == None && last'.Some? then Some(o.first) else l.floor,
        l.delivered + o.messages,
        if o.gap.Some? then l.gaps + [o.gap.value] else l.gaps)
  }

  predicate Datagrams(bufs: seq<seq<u8>>) {
    forall i :: 0 <= i < |bufs| ==> |bufs[i]| >= HEADER_LEN
  }

  function Run(bufs: seq<seq<u8>>): Log
    requires Datagrams(bufs)
  {
    if bufs == [] then Log(None, None, [], [])
    else Advance(Run(bufs[..|bufs| - 1]), bufs[|bufs| - 1])
  }

  // ---------------------------------------------------------------- watermark

  predicate AtLeast(a: Option<nat>, b: Option<nat>) {
    b.Some? ==> a.Some? && a.value >= b.value
  }

  /** The watermark never goes back, whatever arrives. */
  lemma {:induction false} WatermarkGrows(bufs: seq<seq<u8>>, i: nat)
    requires Datagrams(bufs) && i <= |bufs|
    ensures AtLeast(Run(bufs).last, Run(bufs[..i]).last)
  {
    hide ParseBlocks, DecodeHeader;
    if i < |bufs| {
      var n := |bufs| - 1;
      WatermarkGrows(bufs[..n], i);
      assert bufs[..n][..i] == bufs[..i];
    } else {
      assert bufs[..i] == bufs;
    }
  }

  // ---------------------------------------------------------------- gap coverage

  predicate Delivered(l: Log, s: nat) {
    exists i :: 0 <= i < |l.delivered| && l.delivered[i].0 == s
  }

  predicate Reported(l: Log, s: nat) {
    exists i :: 0 <= i < |l.gaps| && l.gaps[i].expected <= s < l.gaps[i].first
  }

  /** Every number from the first tracked one to the watermark was delivered or reported lost. */
  ghost predicate Covered(l: Log) {
    l.last.Some? ==>
      l.floor.Some? && forall s: nat :: l.floor.value <= s <= l.last.value ==> Delivered(l, s) || Reported(l, s)
  }

  /** A heartbeat that announces numbers beyond the watermark. */
  predicate RunsAhead(last: Option<nat>, buf: seq<u8>)
    requires |buf| >= HEADER_LEN
  {
    var h := DecodeHeader(buf).value;
    h.count == 0 && last.Some? && h.first > last.value + 1
  }

  lemma Grown(l: Log, buf: seq<u8>, s: nat)
    requires |buf| >= HEADER_LEN && (Delivered(l, s) || Reported(l, s))
    ensures Delivered(Advance(l, buf), s) || Reported(Advance(l, buf), s)
  {
    hide ParseBlocks, DecodeHeader;
    var l' := Advance(l, buf);
    if Delivered(l, s) {
      var i :| 0 <= i < |l.delivered| && l.delivered[i].0 == s;
      assert l'.delivered[i].0 == s;
    } else {
      var i :| 0 <= i < |l.gaps| && l.gaps[i].expected <= s < l.gaps[i].first;
      assert l'.gaps[i] == l.gaps[i];
    }
  }

  /** A complete data packet accounts for every number between the old watermark and its own end. */
  lemma PacketAccounts(l: Log, buf: seq<u8>, s: nat)
    requires |buf| >= HEADER_LEN
    requires var h := DecodeHeader(buf).value;
             h.count > 0 && !ParseBlocks(buf, HEADER_LEN, h.first, h.count).truncated
             && s < h.first + h.count && (if l.last.Some? then l.last.value < s else h.first <= s)
    ensures Delivered(Advance(l, buf), s) || Reported(Advance(l, buf), s)
  {
    hide ParseBlocks, DecodeHeader;
    var h := DecodeHeader(buf).value;
    var l' := Advance(l, buf);
    var messages := ParseBlocks(buf, HEADER_LEN, h.first, h.count).messages;
    if s < h.first {
      assert l'.gaps[|l.gaps|] == Gap(l.last.value + 1, h.first, h.first - (l.last.value + 1));
    } else {
      ParsedConsecutive(buf, HEADER_LEN, h.first, h.count, s - h.first);
      assert l'.delivered[|l.delivered| + (s - h.first)] == messages[s - h.first];
    }
  }

  lemma AdvanceCovers(l: Log, buf: seq<u8>)
    requires |buf| >= HEADER_LEN && Covered(l) && Tracks(l) && !RunsAhead(l.last, buf)
    ensures Covered(Advance(l, buf)) && Tracks(Advance(l, buf))
  {
    hide ParseBlocks, DecodeHeader, Delivered, Reported;
    var h := DecodeHeader(buf).value;
    var l' := Advance(l, buf);
    if l'.last.Some? {
      forall s: nat | l'.floor.value <= s <= l'.last.value ensures Delivered(l', s) || Reported(l', s) {
        if l.last.Some? && s <= l.last.value {
          Grown(l, buf, s);
        } else {
          PacketAccounts(l, buf, s);
        }
      }
    }
  }

  /** Tracking starts with the first watermark. */
  predicate Tracks(l: Log) {
    l.floor.Some? <==> l.last.Some?
  }

  ghost predicate Quiet(bufs: seq<seq<u8>>)
    requires Datagrams(bufs)
  {
    forall i :: 0 <= i < |bufs| ==> !RunsAhead(Run(bufs[..i]).last, bufs[i])
  }

  /** Over any run, truncated packets and replays included, no loss goes unreported unless a heartbeat ran ahead. */
  lemma {:induction false} RunCovers(bufs: seq<seq<u8>>)
    requires Datagrams(bufs) && Quiet(bufs)
    ensures Covered(Run(bufs)) && Tracks(Run(bufs))
  {
    hide Advance, RunsAhead;
    if bufs != [] {
      var n := |bufs| - 1;
      assert forall i :: 0 <= i < n ==> bufs[..n][..i] == bufs[..i];
      RunCovers(bufs[..n]);
      AdvanceCovers(Run(bufs[..n]), bufs[n]);
    }
  }

  // ---------------------------------------------------------------- exactly when coverage fails

  predicate Complete(buf: seq<u8>)
    requires |buf| >= HEADER_LEN
  {
    var h := DecodeHeader(buf).value;
    !ParseBlocks(buf, HEADER_LEN, h.first, h.count).truncated
  }

  /** Nothing beyond the watermark has been delivered or reported. */
  ghost predicate Bounded(l: Log) {
    forall s: nat :: Delivered(l, s) || Reported(l, s) ==> l.last.Some? && s <= l.last.value
  }

  lemma AdvanceBounded(l: Log, buf: seq<u8>)
    requires |buf| >= HEADER_LEN && Complete(buf) && Bounded(l)
    ensures Bounded(Advance(l, buf))
  {
    hide ParseBlocks, DecodeHeader;
    var h := DecodeHeader(buf).value;
    var l' := Advance(l, buf);
    var messages := ParseBlocks(buf, HEADER_LEN, h.first, h.count).messages;
    forall s: nat | Delivered(l', s) ensures l'.last.Some? && s <= l'.last.value {
      var i :| 0 <= i < |l'.delivered| && l'.delivered[i].0 == s;
      if i < |l.delivered| {
        assert l.delivered[i].0 == s;
        assert Delivered(l, s);
      } else {
        ParsedConsecutive(buf, HEADER_LEN, h.first, h.count, i - |l.delivered|);
      }
    }
    forall s: nat | Reported(l', s) ensures l'.last.Some? && s <= l'.last.value {
      var i :| 0 <= i < |l'.gaps| && l'.gaps[i].expected <= s < l'.gaps[i].first;
      if i < |l.gaps| {
        assert l.gaps[i].expected <= s < l.gaps[i].first;
        assert Reported(l, s);
      }
    }
  }

  lemma {:induction false} RunBounded(bufs: seq<seq<u8>>)
    requires Datagrams(bufs) && forall i :: 0 <= i < |bufs| ==> Complete(bufs[i])
    ensures Bounded(Run(bufs))
  {
    hide Advance, Complete;
    if bufs != [] {
      RunBounded(bufs[..|bufs| - 1]);
      AdvanceBounded(Run(bufs[..|bufs| - 1]), bufs[|bufs| - 1]);
    }
  }

  /** A heartbeat that runs ahead leaves the numbers it skips neither delivered nor reported. */
  lemma HeartbeatSkips(l: Log, buf: seq<u8>)
    requires |buf| >= HEADER_LEN && Bounded(l) && Tracks(l) && RunsAhead(l.last, buf)
    requires l.floor.Some? ==> l.floor.value <= l.last.value + 1
    ensures !Covered(Advance(l, buf))
  {
    hide ParseBlocks, DecodeHeader;
    var s := l.last.value + 1;
    var l' := Advance(l, buf);
    assert l'.delivered == l.delivered && l'.gaps == l.gaps;
    assert !Delivered(l, s) && !Reported(l, s);
    assert Delivered(l', s) <==> Delivered(l, s);
    assert Reported(l', s) <==> Reported(l, s);
    assert l'.floor.value <= s <= l'.last.value;
  }

  lemma {:induction false} FloorBelow(bufs: seq<seq<u8>>)
    requires Datagrams(bufs)
    ensures Tracks(Run(bufs))
    ensures Run(bufs).floor.Some? ==> Run(bufs).floor.value <= Run(bufs).last.value + 1
  {
    hide ParseBlocks, DecodeHeader;
    if bufs != [] {
      FloorBelow(bufs[..|bufs| - 1]);
    }
  }

  /** Over complete datagrams coverage holds throughout a run exactly when no heartbeat in it ran ahead. */
  lemma CoverageIffQuiet(bufs: seq<seq<u8>>)
    requires Datagrams(bufs) && forall i :: 0 <= i < |bufs| ==> Complete(bufs[i])
    ensures (forall i :: 0 <= i <= |bufs| ==> Covered(Run(bufs[..i]))) <==> Quiet(bufs)
  {
    hide Advance, Complete, RunsAhead, Covered, Bounded, Tracks;
    if Quiet(bufs) {
      forall i | 0 <= i <= |bufs| ensures Covered(Run(bufs[..i])) {
        assert forall j :: 0 <= j < i ==> bufs[..i][..j] == bufs[..j];
        RunCovers(bufs[..i]);
      }
    } else {
      var i :| 0 <= i < |bufs| && RunsAhead(Run(bufs[..i]).last, bufs[i]);
      RunBounded(bufs[..i]);
      FloorBelow(bufs[..i]);
      HeartbeatSkips(Run(bufs[..i]), bufs[i]);
      assert bufs[..i + 1][..i] == bufs[..i];
      assert !Covered(Run(bufs[..i + 1]));
    }
  }

  /** One message, then a heartbeat announcing number 3: number 2 is neither delivered nor reported. */
  lemma HeartbeatExample(session: seq<u8>)
    requires |session| == SESSION_LEN
    ensures var bufs := [Downstream(session, 1, [[]]), Downstream(session, 3, [])];
      Datagrams(bufs) && Covered(Run(bufs[..1])) && !Covered(Run(bufs))
  {
    hide ParseBlocks, DecodeHeader, Downstream, Covered, Bounded;
    var bufs := [Downstream(session, 1, [[]]), Downstream(session, 3, [])];
    DownstreamRoundTrip(session, 1, [[]]);
    DownstreamRoundTrip(session, 3, []);
    var none: seq<seq<u8>> := [];
    assert bufs[..1] == [bufs[0]] && bufs[..1][..0] == none;
    assert Run(bufs[..1]) == Advance(Run(none), bufs[0]);
    var l := Run(bufs[..1]);
    assert l.last == Some(1) && l.floor == Some(1);
    assert Quiet(bufs[..1]);
    RunCovers(bufs[..1]);
    RunBounded(bufs[..1]);
    HeartbeatSkips(l, bufs[1]);
    assert Run(bufs) == Advance(l, bufs[1]);
  }

  // ---------------------------------------------------------------- authenticity

  /** A packet carrying a slice of what was published, under its own numbers; heartbeats carry none. */
  ghost predicate GenuineAt(buf: seq<u8>, session: seq<u8>, published: seq<seq<u8>>, first: nat, n: nat) {
    && |session| == SESSION_LEN && 1 <= first < TWO_64 && n < TWO_16
    && first - 1 + n <= |published|
    && buf == Downstream(session, first, published[first - 1..first - 1 + n])
  }

  ghost predicate Genuine(buf: seq<u8>, session: seq<u8>, published: seq<seq<u8>>) {
    exists first: nat, n: nat :: GenuineAt(buf, session, published, first, n)
  }

  lemma GenuineReceived(last: Option<nat>, buf: seq<u8>, session: seq<u8>, published: seq<seq<u8>>, first: nat, n: nat)
    requires GenuineAt(buf, session, published, first, n) && ShortMessages(published)
    ensures |buf| >= HEADER_LEN && Complete(buf)
    ensures Receive(last, buf).1.messages == Numbered(first, published[first - 1..first - 1 + n])
  {
    hide ParseBlocks, DecodeHeader, Blocks;
    DownstreamRoundTrip(session, first, published[first - 1..first - 1 + n]);
  }

  ghost predicate Authentic(delivered: seq<(nat, seq<u8>)>, published: seq<seq<u8>>) {
    forall i :: 0 <= i < |delivered| ==>
      1 <= delivered[i].0 <= |published| && delivered[i].1 == published[delivered[i].0 - 1]
  }

  /**
   However genuine packets are lost, repeated and reordered, only published messages surface, each under its
   number.
   */
  lemma {:induction false} OnlyPublished(bufs: seq<seq<u8>>, session: seq<u8>, published: seq<seq<u8>>)
    requires ShortMessages(published) && Datagrams(bufs)
    requires forall i :: 0 <= i < |bufs| ==> Genuine(bufs[i], session, published)
    ensures Authentic(Run(bufs).delivered, published)
    ensures forall i :: 0 <= i < |bufs| ==> Complete(bufs[i])
  {
    hide Receive, Complete, Blocks, GenuineAt;
    if bufs != [] {
      var k := |bufs| - 1;
      OnlyPublished(bufs[..k], session, published);
      assert forall i :: 0 <= i < k ==> bufs[i] == bufs[..k][i];
      var first: nat, n: nat :| GenuineAt(bufs[k], session, published, first, n);
      GenuineReceived(Run(bufs[..k]).last, bufs[k], session, published, first, n);
      SliceAuthentic(session, bufs[k], published, first, n);
    }
  }

  lemma SliceAuthentic(session: seq<u8>, buf: seq<u8>, published: seq<seq<u8>>, first: nat, n: nat)
    requires GenuineAt(buf, session, published, first, n)
    ensures Authentic(Numbered(first, published[first - 1..first - 1 + n]), published)
  {
  }

  /** A retransmission reply is a genuine packet, so it reads back as the longest retained run. */
  lemma ReplyIsGenuine(pushed: seq<Cached>, cap: nat, session: seq<u8>, datagram: seq<u8>)
    requires cap > 0 && FromOne(pushed) && |session| == SESSION_LEN && ReplyTo(pushed, cap, session, datagram).Some?
    ensures Genuine(ReplyTo(pushed, cap, session, datagram).value, session, Payloads(pushed))
  {
    hide BeBytes, FromBe, Blocks;
    DecodedHeaderFits(datagram);
    var req := DecodeHeader(datagram).value;
    var run := RetainedRun(pushed, cap, req.first, req.count);
    var first, n := req.first, |run|;
    assert Payloads(run) == Payloads(pushed)[first - 1..first - 1 + n];
    assert GenuineAt(ReplyTo(pushed, cap, session, datagram).value, session, Payloads(pushed), first, n);
  }

  /**
   The answer to a request for `count` messages from `start`: the subscriber reads the original
   pairs from `start` up to the newest or the requested count, or there is no reply because
   `start` is not retained.
   */
  lemma NakReplyExact(pushed: seq<Cached>, cap: nat, session: seq<u8>, start: nat, count: nat, last: Option<nat>)
    requires cap > 0 && FromOne(pushed) && ShortMessages(Payloads(pushed)) && |session| == SESSION_LEN
    requires start < TWO_64 && 0 < count < TWO_16
    ensures var reply := ReplyTo(pushed, cap, session, EncodeHeader(Header(session, start, count)));
            (reply.Some? <==> Oldest(|pushed|, cap) < start <= |pushed|)
            && (reply.Some? ==>
                  |reply.value| >= HEADER_LEN
                  && Receive(last, reply.value).1.messages
                     == Numbered(start, Payloads(pushed)[start - 1..Min(start - 1 + count, |pushed|)]))
  {
    hide BeBytes, FromBe, Blocks, DecodeHeader, Receive;
    var h := Header(session, start, count);
    HeaderRoundTrip(h, []);
    assert EncodeHeader(h) + [] == EncodeHeader(h);
    var reply := ReplyTo(pushed, cap, session, EncodeHeader(h));
    var run := RetainedRun(pushed, cap, start, count);
    if reply.Some? {
      var n := |run|;
      assert Payloads(run) == Payloads(pushed)[start - 1..start - 1 + n];
      assert GenuineAt(reply.value, session, Payloads(pushed), start, n);
      GenuineReceived(last, reply.value, session, Payloads(pushed), start, n);
    }
  }
}
