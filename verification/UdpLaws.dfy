/** What each datagram brings about, told from the histories: what was sent, surfaced, reported and delivered. */
module UdpLaws {
  import opened Common
  import opened Bytes
  import opened UdpPacket
  import opened UdpSession
  import opened UdpProtocol

  // ---------------------------------------------------------------- orders at the server

  /** The acknowledgement of order `k`, written out. */
  function AckFrame(k: nat, result: u8): Frame {
    Frame(k, T_ORDER_ACK, BeBytes(k, 4) + [result])
  }

  /** The request to send `count` orders again from `start` on. */
  function AskFrame(start: nat, count: nat): Frame {
    Frame(0, T_NAK_REQUEST, BeBytes(start, 4) + BeBytes(count, 4))
  }

  /**
   An order that arrives is surfaced exactly when it is the next one. It is acknowledged if it has been
   surfaced by then, and otherwise to be sent again; the first time a gap shows, the gap is asked for.
   */
  lemma OrderArrives(w: World, f: Frame)
    requires Inv(w) && f in w.toServer && IsOrder(f.mtype)
    ensures var w', n := Do(w, ServerReceives(f)), |w.surfaced|;
      && w'.surfaced == w.surfaced + (if f.seq_ == n + 1 then [f.payload] else [])
      && ServerOn(w.server, f).events == (if f.seq_ == n + 1 then [OrderEvent(f.mtype, f.seq_, f.payload)] else [])
      && w'.toClient == w.toClient + {AckFrame(f.seq_, if f.seq_ <= |w'.surfaced| then ACK_OK else ACK_RETRY)}
           + (if f.seq_ > n + 1 && n + 1 !in w.naks then {AskFrame(n + 1, f.seq_ - n - 1)} else {})
      && w'.naks == w.naks + (if f.seq_ > n + 1 && n + 1 !in w.naks then [n + 1] else [])
      && w'.client == w.client && w'.sent == w.sent && w'.reports == w.reports && w'.delivered == w.delivered
  {
    hide BeBytes, FromBe, Inv, Surfaced, NakStarts, OrderFrameOk, ServerOn, AckFrame, AskFrame, Encode, Decode;
    ServerFacts(w, f);
    DecodeEncode(f);
    OrderReply(w.server, f);
    var n, r := |w.surfaced|, ServerOn(w.server, f);
    assert w.surfaced + [] == w.surfaced && w.naks + [] == w.naks;
    assert FrameSet(r.frames) == {AckFrame(f.seq_, if f.seq_ <= w.server.expected then ACK_OK else ACK_RETRY)}
      + (if f.seq_ > n + 1 && n + 1 !in w.naks then {AskFrame(n + 1, f.seq_ - n - 1)} else {});
  }

  lemma ServerFacts(w: World, f: Frame)
    requires Inv(w) && f in w.toServer && IsOrder(f.mtype)
    ensures w.server.expected == |w.surfaced| + 1 < TWO_32 && f.seq_ < TWO_32
    ensures w.server.expected in w.naks <==> w.server.lastNak == Some(w.server.expected)
  {
    AskedLast(w);
    FrameInFlight(w, f);
  }

  /** The server's answer to an order, from its own state. */
  lemma OrderReply(st: ServerState, f: Frame)
    requires IsOrder(f.mtype) && st.expected < TWO_32 && f.seq_ < TWO_32
    ensures var r := ServerOn(st, f);
      var asks := f.seq_ > st.expected && st.lastNak != Some(st.expected);
      var ack := AckFrame(f.seq_, if f.seq_ <= st.expected then ACK_OK else ACK_RETRY);
      && r.events == (if f.seq_ == st.expected then [OrderEvent(f.mtype, f.seq_, f.payload)] else [])
      && Surfaced(r.events) == (if f.seq_ == st.expected then [f.payload] else [])
      && r.frames == (if asks then [AskFrame(st.expected, f.seq_ - st.expected), ack] else [ack])
      && NakStarts(r.frames) == (if asks then [st.expected] else [])
  {
    hide BeBytes, FromBe, Surfaced, NakStarts;
    EventLists(OrderEvent(f.mtype, f.seq_, f.payload));
    if f.seq_ <= st.expected {
      AckNoNak([], f.seq_, ACK_OK);
      assert [] + [Ack(f.seq_, ACK_OK)] == [Ack(f.seq_, ACK_OK)];
    } else {
      var ask := if st.lastNak != Some(st.expected) then [AskFrame(st.expected, f.seq_ - st.expected)] else [];
      NakStartOf(st.expected, f.seq_ - st.expected);
      AckNoNak(ask, f.seq_, ACK_RETRY);
      assert ask + [Ack(f.seq_, ACK_RETRY)] == ServerOn(st, f).frames;
    }
  }

  /** The gap at the expected order has been asked for exactly when it was the last one asked for. */
  lemma AskedLast(w: World)
    requires NaksOk(w)
    ensures w.server.expected in w.naks <==> w.server.lastNak == Some(w.server.expected)
  {
    var e := w.server.expected;
    if e in w.naks {
      var i :| 0 <= i < |w.naks| && w.naks[i] == e;
      assert i == |w.naks| - 1;
    }
  }

  lemma {:induction false} SurfacedGrows(cap: nat, run: seq<World>, actions: seq<Action>, i: nat, j: nat)
    requires IsRun(cap, run, actions) && i <= j < |run|
    ensures run[i].surfaced <= run[j].surfaced
    decreases j
  {
    hide ServerOn, ClientOn, AddReport, OnWire, Surfaced;
    if i < j {
      SurfacedGrows(cap, run, actions, i, j - 1);
      assert run[j] == Do(run[j - 1], actions[j - 1]);
    }
  }

  /**
   In every run an order answered OK on receipt has been surfaced, unaltered and for good; one that has
   not is answered with the request to send it again.
   */
  lemma AcknowledgedIsSurfaced(cap: nat, run: seq<World>, actions: seq<Action>, i: nat, j: nat)
    requires IsRun(cap, run, actions) && i < j < |run|
    requires actions[i].ServerReceives? && IsOrder(actions[i].frame.mtype)
    ensures var f := actions[i].frame;
      if AckFrame(f.seq_, ACK_OK) in ServerOn(run[i].server, f).frames then
        1 <= f.seq_ <= |run[j].surfaced| && run[j].surfaced[f.seq_ - 1] == f.payload
      else
        f.seq_ > |run[i + 1].surfaced| && AckFrame(f.seq_, ACK_RETRY) in ServerOn(run[i].server, f).frames
  {
    hide Do, BeBytes, Inv;
    var f := actions[i].frame;
    RunInv(cap, run, actions, i);
    assert Enabled(run[i], actions[i]) && run[i + 1] == Do(run[i], actions[i]);
    OrderArrives(run[i], f);
    OrderAnswers(run[i], f);
    RunInv(cap, run, actions, i + 1);
    SurfacedGrows(cap, run, actions, i + 1, j);
    SurfacedOrder(run[i], run[i + 1], f);
  }

  lemma OrderAnswers(w: World, f: Frame)
    requires Inv(w) && f in w.toServer && IsOrder(f.mtype)
    ensures var ok := f.seq_ <= |Do(w, ServerReceives(f)).surfaced|;
      && (AckFrame(f.seq_, ACK_OK) in ServerOn(w.server, f).frames <==> ok)
      && (AckFrame(f.seq_, ACK_RETRY) in ServerOn(w.server, f).frames <==> !ok)
  {
    hide BeBytes, FromBe, StoreOk, ReportsOk, NakStarts, OrderFrameOk, Do;
    OrderArrives(w, f);
    var k := f.seq_;
    assert AckFrame(k, ACK_OK).payload[|BeBytes(k, 4)|] == ACK_OK;
    assert AckFrame(k, ACK_RETRY).payload[|BeBytes(k, 4)|] == ACK_RETRY;
  }

  lemma SurfacedOrder(w: World, w': World, f: Frame)
    requires Inv(w) && f in w.toServer && IsOrder(f.mtype) && Inv(w') && w'.sent == w.sent
    ensures 1 <= f.seq_ && (f.seq_ <= |w'.surfaced| ==> w'.surfaced[f.seq_ - 1] == f.payload)
  {
    FrameInFlight(w, f);
  }

  // ---------------------------------------------------------------- retransmissions

  /** The first report of those asked for that the window still has. */
  function FirstServed(w: World, start: nat): nat {
    Max(start, |w.reports| - Min(|w.reports|, w.server.cap) + 1)
  }

  /** How many reports a request gets: as many as it asks for, from there on, that exist. */
  function CountServed(w: World, start: nat, count: nat): nat {
    Max(0, Min(count, |w.reports| + 1 - FirstServed(w, start)))
  }

  /**
   A request for `count` reports from `start` on is answered with exactly the original reports from the
   first one still in the window on, as many as were asked for and exist.
   */
  lemma RequestServed(w: World, f: Frame, start: nat, count: nat)
    requires Inv(w) && f in w.toServer && f.mtype == T_NAK_REQUEST
    requires count < TWO_32 && start < TWO_32 && f.payload == BeBytes(start, 4) + BeBytes(count, 4)
    ensures var from, n := FirstServed(w, start), CountServed(w, start, count);
      && 1 <= from && from - 1 + n <= |w.reports|
      && Do(w, ServerReceives(f)) == w.(toClient := w.toClient + {Served(w, from, n)},
          lateNak := w.lateNak || from > start)
      && ServerOn(w.server, f).events == [NakEvent(start, count)]
  {
    hide FromBe, Range, NestedAll, BeBytes, Inv, Surfaced, NakStarts, NakResponse, Served, FirstServed, CountServed,
        Encode, Decode;
    assert OrderFrameOk(w, f) by { FrameInFlight(w, f); }
    DecodeEncode(f);
    assert f.payload == Range(start, count) by { RangeIs(start, count); }
    RangeRoundTrip(start, count, []);
    assert Range(start, count) + [] == Range(start, count);
    ExpectedBound(w);
    ServesSlice(w, start, count);
    EventLists(NakEvent(start, count));
    NoNakStart(NakResponse(w.server, start, count));
    assert FrameSet([NakResponse(w.server, start, count)]) == {NakResponse(w.server, start, count)};
    assert w.surfaced + [] == w.surfaced && w.naks + [] == w.naks;
  }

  lemma ServesSlice(w: World, start: nat, count: nat)
    requires Inv(w) && 1 <= start <= |w.reports| + 1 && count < TWO_32
    ensures var from, n := FirstServed(w, start), CountServed(w, start, count);
      && 1 <= from && from - 1 + n <= |w.reports|
      && NakResponse(w.server, start, count) == Served(w, from, n)
      && NakResponse(w.server, start, count).mtype == T_NAK_RESPONSE
      && (from > start <==> start < w.server.storeStart)
  {
    hide FromBe, Range, NestedAll, BeBytes, Slice, Between, OrdersOk, NaksOk, ReportsOk;
    var st := w.server;
    var from, to := NakFrom(st, start), NakTo(st, start, count);
    assert from == FirstServed(w, start) && to == from + CountServed(w, start, count);
    BetweenIsSlice(w, st.store, from, to, st.storeStart);
  }

  lemma RangeIs(start: nat, count: nat)
    ensures Range(start, count) == BeBytes(start, 4) + BeBytes(count, 4)
  {
  }

  function Served(w: World, from: nat, n: nat): Frame
    requires 1 <= from && from - 1 + n <= |w.reports|
  {
    Frame(0, T_NAK_RESPONSE, Range(from, n) + NestedAll(Slice(w.reports, from, n)))
  }

  // ---------------------------------------------------------------- reports at the client

  /**
   A report that arrives is delivered exactly when it is the expected one; a later one makes the client
   ask for all between; an earlier one does nothing.
   */
  lemma ReportArrives(w: World, f: Frame)
    requires Inv(w) && f in w.toClient && f.mtype == T_REPORT
    ensures var e := w.client.expected;
      Do(w, ClientReceives(f)) ==
        if f.seq_ == e then w.(client := w.client.(expected := e + 1),
            delivered := w.delivered + [Report(e, f.payload)])
        else if f.seq_ > e then w.(toServer := w.toServer + {AskFrame(e, f.seq_ - e)})
        else w
  {
    hide BeBytes, FromBe, Inv, Delivered, Encode, Decode;
    ReportInFlight(w, f);
    DecodeEncode(f);
    ExpectedBound(w);
    DeliveredOne(ReportEvent(Report(f.seq_, f.payload)));
    assert w.delivered + [] == w.delivered;
    assert w.toServer + FrameSet([]) == w.toServer;
    RangeIs(w.client.expected, f.seq_);
  }

  /**
   A retransmission that arrives delivers exactly those of its reports that are not yet behind the client,
   and moves it past the last of them.
   */
  lemma ResponseArrives(w: World, from: nat, n: nat)
    requires Inv(w) && 1 <= from && from - 1 + n <= |w.reports| && Served(w, from, n) in w.toClient
    ensures var e, next := w.client.expected, from + n;
      Do(w, ClientReceives(Served(w, from, n))) ==
        if n == 0 || next <= e then w
        else w.(client := w.client.(expected := next),
                delivered := w.delivered + Slice(w.reports, Max(from, e), next - Max(from, e)))
  {
    hide FromBe, Range, NestedAll, Slice, BeBytes, Inv, Delivered, Absorb, ParseNested, Encode, Decode;
    var f, rs := Served(w, from, n), Slice(w.reports, from, n);
    ReportInFlight(w, f);
    DecodeEncode(f);
    ReportBounds(w);
    RangeRoundTrip(from, n, NestedAll(rs));
    SliceCarried(w, from, n);
    ParseNestedAll(Range(from, n), rs);
    AbsorbSlice(w.reports, w.client.expected, from, n);
    DeliveredReports(Absorb(w.client.expected, rs).delivered);
    assert w.toServer + FrameSet([]) == w.toServer;
    assert w.delivered + [] == w.delivered;
  }

  /**
   A gap is closed by one exchange: a late report arrives, the request it causes is served while the gap is
   still in the window, and the answer delivers exactly the missing reports.
   */
  lemma GapCloses(w: World, f: Frame)
    requires Inv(w) && f in w.toClient && f.mtype == T_REPORT && f.seq_ > w.client.expected
    requires w.client.expected > |w.reports| - w.server.cap
    ensures var e := w.client.expected;
      var asked := Do(w, ClientReceives(f));
      && 1 <= e && f.seq_ - 1 <= |w.reports| && Enabled(asked, ServerReceives(AskFrame(e, f.seq_ - e)))
      && var answered := Do(asked, ServerReceives(AskFrame(e, f.seq_ - e)));
         && Enabled(answered, ClientReceives(Served(w, e, f.seq_ - e)))
         && var closed := Do(answered, ClientReceives(Served(w, e, f.seq_ - e)));
            closed.client.expected == f.seq_ && closed.delivered == w.delivered + Slice(w.reports, e, f.seq_ - e)
  {
    hide BeBytes, FromBe, Do, Slice, Inv;
    var e, n := w.client.expected, f.seq_ - w.client.expected;
    GapFacts(w, f);
    var ask := AskFrame(e, n);
    ReportArrives(w, f);
    var asked := Do(w, ClientReceives(f));
    DoKeeps(w, ClientReceives(f));
    assert FirstServed(asked, e) == e && CountServed(asked, e, n) == n;
    RequestServed(asked, ask, e, n);
    var answered := Do(asked, ServerReceives(ask));
    DoKeeps(asked, ServerReceives(ask));
    assert Served(asked, e, n) == Served(w, e, n) == Served(answered, e, n);
    ResponseArrives(answered, e, n);
  }

  lemma GapFacts(w: World, f: Frame)
    requires Inv(w) && f in w.toClient && f.mtype == T_REPORT
    ensures 1 <= w.client.expected && 1 <= f.seq_ <= |w.reports| < TWO_32 - 1 && w.server.cap >= 1
  {
    ReportInFlight(w, f);
  }

  // ---------------------------------------------------------------- acknowledgements and greetings

  /** An acknowledgement is read back by the client, which forgets that order and no other. */
  lemma AckArrives(c: ClientState, k: nat, result: u8)
    requires k < TWO_32
    ensures var r := ClientOn(c, AckFrame(k, result));
      && r.events == [AckEvent(k, result)] && r.frames == []
      && r.state.nextOrder == c.nextOrder && r.state.expected == c.expected
      && (forall j :: j in r.state.pending <==> j in c.pending && j != k)
      && (forall j :: j in r.state.pending ==> r.state.pending[j] == c.pending[j])
  {
    hide BeBytes, FromBe;
    Widths();
    BeRoundTrip(k, 4);
    var p := AckFrame(k, result).payload;
    assert p[0..4] == BeBytes(k, 4) && p[4] == result;
  }

  /**
   A greeting is answered with the last report and the oldest one in the window, and flagged exactly when
   the report after the greeter's last has left the window. The client reads the same back.
   */
  lemma HelloAnswered(w: World, id: nat, last: nat, c: ClientState)
    requires Inv(w) && id < TWO_32 && last + 1 < TWO_32
    ensures var r := ServerOn(w.server, Frame(0, T_HELLO, BeBytes(id, 4) + BeBytes(last, 4)));
      var oldest := |w.reports| - Min(|w.reports|, w.server.cap) + 1;
      && r.state == w.server && r.events == [HelloEvent(id, last)] && |r.frames| == 1
      && ClientOn(c, r.frames[0])
         == ClientOut(c, [HelloAckEvent(|w.reports|, oldest, if last + 1 < oldest then GAP_TOO_OLD else 0)], [])
  {
    hide BeBytes, FromBe, OrdersOk, NaksOk, ReportsOk;
    var oldest := |w.reports| - Min(|w.reports|, w.server.cap) + 1;
    assert Range(id, last) == BeBytes(id, 4) + BeBytes(last, 4);
    RangeRoundTrip(id, last, []);
    assert Range(id, last) + [] == Range(id, last);
    assert w.server.storeStart == oldest && HighWater(w.server) == |w.reports|;
    var flags: u8 := if last + 1 < oldest then GAP_TOO_OLD else 0;
    HelloAckReads(|w.reports|, oldest, flags);
  }

  lemma HelloAckReads(high: nat, start: nat, flags: u8)
    requires high < TWO_32 && start < TWO_32
    ensures var p := BeBytes(high, 4) + BeBytes(start, 4) + [flags] + [0, 0, 0, 0];
      |p| == 13 && FromBe(p[0..4]) == high && FromBe(p[4..8]) == start && p[8] == flags
  {
    hide BeBytes, FromBe;
    Widths();
    BeRoundTrip(high, 4);
    BeRoundTrip(start, 4);
    var p := BeBytes(high, 4) + BeBytes(start, 4) + [flags] + [0, 0, 0, 0];
    assert p[0..4] == BeBytes(high, 4) && p[4..8] == BeBytes(start, 4);
  }
}
