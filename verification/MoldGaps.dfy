/** What a MoldUDP64 subscriber reports as lost, and what its watermark is, told from the datagrams alone. */
module MoldGaps {
  import opened Common
  import opened Bytes
  import opened MoldPacket
  import opened MoldStream
  import opened MoldRuns

  predicate Between(a: nat, s: nat, b: nat) {
    a < s < b
  }

  /** The numbers strictly between two others. */
  function Strictly(a: nat, b: nat): set<nat> {
    set s: nat | s < b && Between(a, s, b)
  }

  lemma {:induction false} StrictlySize(a: nat, b: nat)
    requires a < b
    ensures |Strictly(a, b)| == b - a - 1
    decreases b
  {
    if b == a + 1 {
      assert Strictly(a, b) == {};
    } else {
      StrictlySize(a, b - 1);
      assert Strictly(a, b) == Strictly(a, b - 1) + {b - 1};
    }
  }

  /**
   A packet reports a gap if and only if it carries messages and starts beyond the number after the
   watermark. Then the numbers reported are exactly those strictly between, and `lost` is how many.
   */
  lemma GapExact(last: Option<nat>, buf: seq<u8>)
    requires |buf| >= HEADER_LEN
    ensures var h, gap := DecodeHeader(buf).value, Receive(last, buf).1.gap;
      && (gap.Some? <==> h.count > 0 && last.Some? && h.first > last.value + 1)
      && (gap.Some? ==>
            && (forall s: nat :: gap.value.expected <= s < gap.value.first <==> s in Strictly(last.value, h.first))
            && gap.value.lost == |Strictly(last.value, h.first)| > 0)
  {
    hide DecodeHeader, ParseBlocks;
    var h := DecodeHeader(buf).value;
    if last.Some? && h.first > last.value + 1 {
      StrictlySize(last.value, h.first);
    }
  }

  // ---------------------------------------------------------------- whole runs

  /** The gap the `i`-th datagram of a run reports, if any. */
  function GapAt(bufs: seq<seq<u8>>, i: nat): Option<Gap>
    requires Datagrams(bufs) && i < |bufs|
  {
    Receive(Run(bufs[..i]).last, bufs[i]).1.gap
  }

  /** Over complete datagrams nothing is reported lost that was delivered or reported lost before. */
  lemma NothingLostTwice(bufs: seq<seq<u8>>, i: nat, s: nat)
    requires Datagrams(bufs) && i < |bufs| && (forall k :: 0 <= k < i ==> Complete(bufs[k]))
    requires GapAt(bufs, i).Some? && GapAt(bufs, i).value.expected <= s < GapAt(bufs, i).value.first
    ensures !Delivered(Run(bufs[..i]), s) && !Reported(Run(bufs[..i]), s)
  {
    hide Receive, Complete, Delivered, Reported;
    RunBounded(bufs[..i]);
    GapExact(Run(bufs[..i]).last, bufs[i]);
    assert s in Strictly(Run(bufs[..i]).last.value, DecodeHeader(bufs[i]).value.first);
  }

  ghost predicate GapsApart(gaps: seq<Gap>, last: Option<nat>) {
    && (forall k :: 0 <= k < |gaps| ==> last.Some? && gaps[k].expected < gaps[k].first <= last.value + 1)
    && (forall j, k :: 0 <= j < k < |gaps| ==> gaps[j].first <= gaps[k].expected)
  }

  /** Over complete datagrams the reported gaps are apart from each other and come in increasing order. */
  lemma {:induction false} GapsDisjoint(bufs: seq<seq<u8>>)
    requires Datagrams(bufs) && forall i :: 0 <= i < |bufs| ==> Complete(bufs[i])
    ensures GapsApart(Run(bufs).gaps, Run(bufs).last)
  {
    hide ParseBlocks, DecodeHeader;
    if bufs != [] {
      var n := |bufs| - 1;
      GapsDisjoint(bufs[..n]);
      assert Complete(bufs[n]);
    }
  }

  /** The last number a complete datagram tells of; the first heartbeat of a stream tells of none. */
  function Tells(buf: seq<u8>): Option<nat>
    requires |buf| >= HEADER_LEN
  {
    var h := DecodeHeader(buf).value;
    if Complete(buf) && (h.count > 0 || h.first > 1) then Some(h.first + h.count - 1) else None
  }

  /** The watermark is the greatest number any datagram of the run tells of. */
  lemma {:induction false} WatermarkIsGreatest(bufs: seq<seq<u8>>)
    requires Datagrams(bufs)
    ensures var last := Run(bufs).last;
      && (forall i :: 0 <= i < |bufs| && Tells(bufs[i]).Some? ==> last.Some? && Tells(bufs[i]).value <= last.value)
      && (last.Some? ==> exists i :: 0 <= i < |bufs| && Tells(bufs[i]) == last)
  {
    hide ParseBlocks, DecodeHeader;
    if bufs != [] {
      var n := |bufs| - 1;
      var before := bufs[..n];
      WatermarkIsGreatest(before);
      assert forall i :: 0 <= i < n ==> before[i] == bufs[i];
      var last, was := Run(bufs).last, Run(before).last;
      TellsAdvance(was, bufs[n]);
      if last.Some? && last != Tells(bufs[n]) {
        var i :| 0 <= i < n && Tells(before[i]) == was;
        assert Tells(bufs[i]) == last;
      }
      assert last.Some? ==> last == Tells(bufs[n]) || exists i :: 0 <= i < n && Tells(bufs[i]) == last;
    }
  }

  lemma TellsAdvance(last: Option<nat>, buf: seq<u8>)
    requires |buf| >= HEADER_LEN
    ensures var last', t := Receive(last, buf).0, Tells(buf);
      last' == if t == None then last else if last == None then t else Some(Max(last.value, t.value))
  {
    hide ParseBlocks, DecodeHeader;
    if DecodeHeader(buf).value.count == 0 {
      HeartbeatComplete(buf);
    }
  }

  lemma HeartbeatComplete(buf: seq<u8>)
    requires |buf| >= HEADER_LEN && DecodeHeader(buf).value.count == 0
    ensures Complete(buf)
  {
  }

  // ---------------------------------------------------------------- truncated packets

  /** The numbers the `k`-th datagram of a run delivers or reports lost. */
  ghost predicate Settles(bufs: seq<seq<u8>>, k: nat, s: nat)
    requires Datagrams(bufs) && k < |bufs|
  {
    var o := Receive(Run(bufs[..k]).last, bufs[k]).1;
    || (exists j :: 0 <= j < |o.messages| && o.messages[j].0 == s)
    || (o.gap.Some? && o.gap.value.expected <= s < o.gap.value.first)
  }

  /** Over all runs, a number reported lost was settled before by truncated packets at most. */
  lemma SettledOnce(bufs: seq<seq<u8>>, k: nat, i: nat, s: nat)
    requires Datagrams(bufs) && k < i < |bufs| && Settles(bufs, k, s)
    requires GapAt(bufs, i).Some? && GapAt(bufs, i).value.expected <= s < GapAt(bufs, i).value.first
    ensures !Complete(bufs[k])
  {
    hide ParseBlocks, DecodeHeader, Run, Tells;
    WatermarkIsGreatest(bufs[..i]);
    assert bufs[..i][k] == bufs[k];
    if Complete(bufs[k]) {
      SettledWithin(Run(bufs[..k]).last, bufs[k], s);
    }
  }

  lemma SettledWithin(last: Option<nat>, buf: seq<u8>, s: nat)
    requires |buf| >= HEADER_LEN && Complete(buf)
    requires var o := Receive(last, buf).1;
      || (exists j :: 0 <= j < |o.messages| && o.messages[j].0 == s)
      || (o.gap.Some? && o.gap.value.expected <= s < o.gap.value.first)
    ensures Tells(buf).Some? && s <= Tells(buf).value
  {
    hide ParseBlocks, DecodeHeader;
    var h, o := DecodeHeader(buf).value, Receive(last, buf).1;
    if j :| 0 <= j < |o.messages| && o.messages[j].0 == s {
      ParsedConsecutive(buf, HEADER_LEN, h.first, h.count, j);
    }
  }

  /** A packet for two messages that ends after the first, an empty one. */
  function CutShort(session: seq<u8>, first: nat): seq<u8>
    requires |session| == SESSION_LEN && first < TWO_64
  {
    EncodeHeader(Header(session, first, 2)) + Block([])
  }

  lemma CutShortParses(session: seq<u8>, first: nat)
    requires |session| == SESSION_LEN && first < TWO_64
    ensures var buf := CutShort(session, first);
      && |buf| >= HEADER_LEN && DecodeHeader(buf) == Some(Header(session, first, 2))
      && ParseBlocks(buf, HEADER_LEN, first, 2) == Parsed([(first, [])], true)
  {
    hide BeBytes, FromBe, EncodeHeader, DecodeHeader;
    var buf := CutShort(session, first);
    HeaderRoundTrip(Header(session, first, 2), Block([]));
    Widths();
    BeRoundTrip(0, 2);
    assert buf[HEADER_LEN..HEADER_LEN + BLOCK_LEN] == BeBytes(0, 2);
    var rest := ParseBlocks(buf, HEADER_LEN + BLOCK_LEN, first + 1, 1);
    assert rest == Parsed([], true);
    assert buf[HEADER_LEN + BLOCK_LEN..HEADER_LEN + BLOCK_LEN] == [];
  }

  /** One message, a truncated packet that delivers number 2, then number 4: number 2 is reported lost. */
  lemma TruncatedExample(session: seq<u8>)
    requires |session| == SESSION_LEN
    ensures var bufs := [Downstream(session, 1, [[]]), CutShort(session, 2), Downstream(session, 4, [[]])];
      Datagrams(bufs) && Settles(bufs, 1, 2) && GapAt(bufs, 2) == Some(Gap(2, 4, 2))
  {
    hide ParseBlocks, DecodeHeader, Downstream, CutShort;
    var bufs := [Downstream(session, 1, [[]]), CutShort(session, 2), Downstream(session, 4, [[]])];
    DownstreamRoundTrip(session, 1, [[]]);
    CutShortParses(session, 2);
    DownstreamRoundTrip(session, 4, [[]]);
    var none: seq<seq<u8>> := [];
    assert bufs[..1][..0] == none && bufs[..2][..1] == bufs[..1];
    assert Run(bufs[..1]) == Advance(Run(none), bufs[0]) && Run(bufs[..2]) == Advance(Run(bufs[..1]), bufs[1]);
    assert Receive(Run(bufs[..1]).last, bufs[1]).1.messages[0].0 == 2;
  }
}
