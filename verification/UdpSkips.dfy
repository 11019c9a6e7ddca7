/** When a report is skipped: exactly when a retransmission that starts too late is taken. */
module UdpSkips {
  import opened Bytes
  import opened UdpPacket
  import opened UdpSession
  import opened UdpProtocol

  /** A retransmission with something in it whose first number is beyond the one expected. */
  predicate JumpsAhead(c: ClientState, f: Frame) {
    && f.mtype == T_NAK_RESPONSE && |f.payload| >= 8
    && FromBe(f.payload[4..8]) > 0 && FromBe(f.payload[0..4]) > c.expected
  }

  predicate TakesJump(w: World, a: Action) {
    a.ClientReceives? && JumpsAhead(w.client, a.frame)
  }

  /** Reports passed over so far. */
  function Deficit(w: World): int {
    w.client.expected - 1 - |w.delivered|
  }

  // ---------------------------------------------------------------- one step

  lemma ReportDeficit(w: World, f: Frame, w': World)
    requires Inv(w) && ReportFrameOk(w, f) && f.mtype == T_REPORT && ClientStep(w, f, w')
    ensures Deficit(w') == Deficit(w)
  {
    hide FromBe, Range, BeBytes, OrdersOk, NaksOk, StoreOk, ReportsOk, Delivered;
    ExpectedBound(w);
    DeliveredOne(ReportEvent(Report(f.seq_, f.payload)));
  }

  lemma ResponseDeficit(w: World, f: Frame, w': World)
    requires Inv(w) && ReportFrameOk(w, f) && f.mtype == T_NAK_RESPONSE && ClientStep(w, f, w')
    ensures if JumpsAhead(w.client, f) then Deficit(w') > Deficit(w) else Deficit(w') == Deficit(w)
  {
    hide FromBe, Range, NestedAll, Slice, BeBytes, Inv, Delivered, Absorb, ParseNested;
    var from: nat, n: nat :| CarriesSlice(w, f.payload, from, n);
    var rs := Slice(w.reports, from, n);
    ReportBounds(w);
    RangeRoundTrip(from, n, NestedAll(rs));
    SliceCarried(w, from, n);
    ParseNestedAll(Range(from, n), rs);
    AbsorbSlice(w.reports, w.client.expected, from, n);
    DeliveredReports(Absorb(w.client.expected, rs).delivered);
  }

  lemma OtherDeficit(w: World, f: Frame, w': World)
    requires f.mtype != T_REPORT && f.mtype != T_NAK_RESPONSE && ClientStep(w, f, w')
    ensures Deficit(w') == Deficit(w)
  {
    hide FromBe, Delivered;
    var r := ClientOn(w.client, f);
    DeliveredOne(ClientHeartbeat);
    if r.events != [] {
      DeliveredOne(r.events[0]);
      assert r.events == [r.events[0]];
    }
  }

  /** The number of reports passed over grows exactly when such a retransmission is taken. */
  lemma StepDeficit(w: World, a: Action)
    requires Inv(w) && Enabled(w, a)
    ensures var w' := Do(w, a);
      if TakesJump(w, a) then Deficit(w') > Deficit(w) else Deficit(w') == Deficit(w)
  {
    hide Inv, ClientOn, ServerOn, JumpsAhead, AddReport;
    if a.ClientReceives? {
      var f := a.frame;
      ReportInFlight(w, f);
      DecodeEncode(f);
      var w' := Do(w, a);
      if f.mtype == T_REPORT {
        ReportDeficit(w, f, w');
        NoJump(w.client, f);
      } else if f.mtype == T_NAK_RESPONSE {
        ResponseDeficit(w, f, w');
      } else {
        OtherDeficit(w, f, w');
        NoJump(w.client, f);
      }
    }
  }

  lemma NoJump(c: ClientState, f: Frame)
    requires f.mtype != T_NAK_RESPONSE
    ensures !JumpsAhead(c, f)
  {
  }

  // ---------------------------------------------------------------- whole runs

  lemma {:induction false} RunDeficit(cap: nat, run: seq<World>, actions: seq<Action>, i: nat)
    requires IsRun(cap, run, actions) && i < |run|
    ensures Deficit(run[i]) >= 0
    ensures Deficit(run[i]) == 0 <==> forall j :: 0 <= j < i ==> !TakesJump(run[j], actions[j])
  {
    hide Do, Inv, TakesJump;
    if i > 0 {
      RunDeficit(cap, run, actions, i - 1);
      RunInv(cap, run, actions, i - 1);
      assert run[i] == Do(run[i - 1], actions[i - 1]);
      StepDeficit(run[i - 1], actions[i - 1]);
    }
  }

  lemma {:induction false} AtLeastPosition(ds: seq<Report>, i: nat)
    requires i < |ds| && (forall k :: 0 <= k < |ds| ==> ds[k].seq_ >= 1)
    requires forall j, k :: 0 <= j < k < |ds| ==> ds[j].seq_ < ds[k].seq_
    ensures ds[i].seq_ >= i + 1
  {
    if i > 0 {
      AtLeastPosition(ds, i - 1);
      assert ds[i - 1].seq_ < ds[i].seq_;
    }
  }

  lemma {:induction false} AtMostPosition(ds: seq<Report>, i: nat)
    requires i < |ds| && (forall k :: 0 <= k < |ds| ==> ds[k].seq_ <= |ds|)
    requires forall j, k :: 0 <= j < k < |ds| ==> ds[j].seq_ < ds[k].seq_
    ensures ds[i].seq_ <= i + 1
    decreases |ds| - i
  {
    if i < |ds| - 1 {
      AtMostPosition(ds, i + 1);
      assert ds[i].seq_ < ds[i + 1].seq_;
    }
  }

  /** Nothing passed over means the deliveries are the whole history up to the expected number. */
  lemma GaplessIff(w: World)
    requires Inv(w)
    ensures 1 <= w.client.expected <= |w.reports| + 1
    ensures Deficit(w) == 0 <==> w.delivered == Slice(w.reports, 1, w.client.expected - 1)
  {
    hide OrdersOk, NaksOk, StoreOk, ReportFrameOk;
    var ds, n := w.delivered, w.client.expected - 1;
    if Deficit(w) == 0 {
      forall i | 0 <= i < n ensures ds[i] == Report(i + 1, w.reports[i]) {
        AtLeastPosition(ds, i);
        AtMostPosition(ds, i);
      }
    }
  }

  ghost predicate Gapless(w: World) {
    1 <= w.client.expected <= |w.reports| + 1 && w.delivered == Slice(w.reports, 1, w.client.expected - 1)
  }

  /**
   In every run the client has delivered exactly the reports before the one it expects, if and only if
   it never took a retransmission whose first number was beyond the one it expected then.
   */
  lemma NoSkipIff(cap: nat, run: seq<World>, actions: seq<Action>, i: nat)
    requires IsRun(cap, run, actions) && i < |run|
    ensures Gapless(run[i]) <==> forall j :: 0 <= j < i ==> !TakesJump(run[j], actions[j])
  {
    hide TakesJump, Do, Inv;
    RunInv(cap, run, actions, i);
    RunDeficit(cap, run, actions, i);
    GaplessIff(run[i]);
  }

  // ---------------------------------------------------------------- a run that skips

  const REPORT: Action := ServerReports(0, [])
  const LATEST: Frame := Frame(3, T_REPORT, [])

  /** Three reports with room for one: the window holds the third only. */
  lemma ThreeReports()
    ensures var w := Do(Do(Do(Start(1), REPORT), REPORT), REPORT);
      && w.client == ClientState(1, 1, map[]) && LATEST in w.toClient
      && w.server.store == [Report(3, [])] && w.server.storeStart == 3 && w.server.nextReport == 4
      && w.toServer == {} && w.delivered == [] && |w.reports| == 3
  {
    hide BeBytes;
    var w0 := Start(1);
    var w1 := Do(w0, REPORT);
    assert w1.server.store == [Report(1, [])] && w1.server.nextReport == 2 && w1.server.storeStart == 1;
    var w2 := Do(w1, REPORT);
    assert [Report(1, []), Report(2, [])][1..] == [Report(2, [])];
    assert w2.server.store == [Report(2, [])] && w2.server.nextReport == 3 && w2.server.storeStart == 2;
    assert [Report(2, []), Report(3, [])][1..] == [Report(3, [])];
  }

  /** The client asks for reports 1 and 2. */
  lemma AsksForTwo(w: World)
    requires w.client == ClientState(1, 1, map[]) && LATEST in w.toClient
    ensures var w' := Do(w, ClientReceives(LATEST));
      && w'.client == w.client && w'.server == w.server && w'.toClient == w.toClient
      && w'.toServer == w.toServer + {Frame(0, T_NAK_REQUEST, Range(1, 2))}
  {
    hide Range;
    DecodeEncode(LATEST);
  }

  /** The server answers with report 3. */
  lemma AnswersLatest(w: World)
    requires Frame(0, T_NAK_REQUEST, Range(1, 2)) in w.toServer
    requires w.server.store == [Report(3, [])] && w.server.storeStart == 3 && w.server.nextReport == 4
    ensures var w' := Do(w, ServerReceives(Frame(0, T_NAK_REQUEST, Range(1, 2))));
      w'.client == w.client && NakResponse(w.server, 1, 2) in w'.toClient
  {
    hide BeBytes, FromBe, Range, NakResponse;
    var f := Frame(0, T_NAK_REQUEST, Range(1, 2));
    DecodeEncode(f);
    RangeRoundTrip(1, 2, []);
    assert Range(1, 2) + [] == Range(1, 2);
    assert NakResponse(w.server, 1, 2) in FrameSet([NakResponse(w.server, 1, 2)]);
  }

  lemma AnswerJumps(w: World)
    requires w.client.expected == 1 && w.server.storeStart == 3 && w.server.nextReport == 4
    ensures JumpsAhead(w.client, NakResponse(w.server, 1, 2))
  {
    hide BeBytes, FromBe, Range, NestedAll, Between;
    RangeRoundTrip(3, 1, NestedAll(Between(w.server.store, 3, 4)));
  }

  /** A run in which the client delivers report 3 and never sees 1 and 2. */
  lemma SkipExample()
    ensures exists run: seq<World>, actions: seq<Action> ::
      IsRun(1, run, actions) && |run| == 7 && !Gapless(run[6])
  {
    hide Do, JumpsAhead, NakResponse, Range, Gapless;
    ThreeReports();
    assert Enabled(Start(1), REPORT);
    var w1 := Do(Start(1), REPORT);
    assert Enabled(w1, REPORT) by { OneReport(); }
    var w2 := Do(w1, REPORT);
    assert Enabled(w2, REPORT) by { TwoReports(); }
    var w3 := Do(w2, REPORT);
    AsksForTwo(w3);
    var w4 := Do(w3, ClientReceives(LATEST));
    var ask := Frame(0, T_NAK_REQUEST, Range(1, 2));
    AnswersLatest(w4);
    var w5 := Do(w4, ServerReceives(ask));
    var answer := NakResponse(w4.server, 1, 2);
    AnswerJumps(w4);
    var w6 := Do(w5, ClientReceives(answer));
    var run := [Start(1), w1, w2, w3, w4, w5, w6];
    var actions := [REPORT, REPORT, REPORT, ClientReceives(LATEST), ServerReceives(ask), ClientReceives(answer)];
    assert IsRun(1, run, actions);
    assert TakesJump(run[5], actions[5]);
    NoSkipIff(1, run, actions, 6);
  }

  lemma OneReport()
    ensures |Do(Start(1), REPORT).reports| == 1
  {
  }

  lemma TwoReports()
    ensures Enabled(Do(Start(1), REPORT), REPORT)
    ensures |Do(Do(Start(1), REPORT), REPORT).reports| == 2
  {
  }
}
