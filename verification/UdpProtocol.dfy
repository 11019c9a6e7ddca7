/**
 Client and server over a network that loses, duplicates and reorders: a datagram once sent
 may be delivered at any later time, any number of times, or never.
 */
module UdpProtocol {
  import opened Common
  import opened Bytes
  import opened UdpPacket
  import opened UdpSession

  datatype World = World(
    client: ClientState,
    server: ServerState,
    toServer: set<Frame>,
    toClient: set<Frame>,
    // What happened so far.
    sent: seq<seq<u8>>,
    surfaced: seq<seq<u8>>,
    reports: seq<seq<u8>>,
    delivered: seq<Report>,
    naks: seq<nat>,
    lateNak: bool)

  datatype Action =
    | SendOrder(payload: seq<u8>)
    | Resend(seq_: nat)
    | SendHello(id: nat, last: nat)
    | ServerReceives(frame: Frame)
    | ServerReports(clientSeq: nat, payload: seq<u8>)
    | ServerRejects(clientSeq: nat)
    | ClientReceives(frame: Frame)

  function Start(cap: nat): World {
    World(ClientState(1, 1, map[]), ServerState(1, 1, [], 1, Max(cap, 1), None), {}, {}, [], [], [], [], [], false)
  }

  /** Counters stay clear of 32-bit wraparound and reports fit a datagram. */
  predicate Enabled(w: World, a: Action) {
    match a
    case SendOrder(_) => |w.sent| + 2 < TWO_32
    case Resend(k) => k in w.client.pending
    case SendHello(id, last) => id < TWO_32 && last < TWO_32
    case ServerReceives(f) => f in w.toServer
    case ServerReports(k, p) => k < TWO_32 && |w.reports| + 2 < TWO_32 && |p| < TWO_16
    case ServerRejects(k) => k < TWO_32
    case ClientReceives(f) => f in w.toClient
  }

  function FrameSet(fs: seq<Frame>): set<Frame> {
    set f | f in fs
  }

  function Surfaced(es: seq<ServerEvent>): seq<seq<u8>> {
    if es == [] then []
    else Surfaced(es[..|es| - 1]) + (if es[|es| - 1].OrderEvent? then [es[|es| - 1].payload] else [])
  }

  function Delivered(es: seq<ClientEvent>): seq<Report> {
    if es == [] then []
    else Delivered(es[..|es| - 1]) + (if es[|es| - 1].ReportEvent? then [es[|es| - 1].report] else [])
  }

  /** Gap starts of the NAK requests among outgoing frames. */
  function NakStarts(fs: seq<Frame>): seq<nat> {
    if fs == [] then []
    else NakStarts(fs[..|fs| - 1])
         + (if fs[|fs| - 1].mtype == T_NAK_REQUEST && |fs[|fs| - 1].payload| >= 4
            then [FromBe(fs[|fs| - 1].payload[0..4])] else [])
  }

  /** A retransmission request served after its start left the window. */
  predicate Late(st: ServerState, f: Frame) {
    f.mtype == T_NAK_REQUEST && |f.payload| >= 8 && FromBe(f.payload[0..4]) < st.storeStart
  }

  /** What the receiver makes of the bytes of a frame. */
  function OnWire(f: Frame): Option<Frame> {
    Decode(Encode(f))
  }

  function Do(w: World, a: Action): World
    requires Enabled(w, a)
  {
    match a
    case SendOrder(p) =>
      var k := w.client.nextOrder;
      w.(client := w.client.(nextOrder := Wrap(k + 1), pending := w.client.pending[k := p]),
         toServer := w.toServer + {Frame(k, T_ORDER, p)}, sent := w.sent + [p])
    case Resend(k) =>
      w.(toServer := w.toServer + {Frame(k, T_ORDER, w.client.pending[k])})
    case SendHello(id, last) =>
      w.(toServer := w.toServer + {Frame(0, T_HELLO, Range(id, last))})
    case ServerReceives(f) =>
      (match OnWire(f)
       case None => w
       case Some(g) =>
         var r := ServerOn(w.server, g);
         w.(server := r.state, toClient := w.toClient + FrameSet(r.frames), surfaced := w.surfaced + Surfaced(r.events),
            naks := w.naks + NakStarts(r.frames), lateNak := w.lateNak || Late(w.server, g)))
    case ServerReports(k, p) =>
      w.(server := AddReport(w.server, p), reports := w.reports + [p],
         toClient := w.toClient + {Ack(k, ACK_OK), Frame(w.server.nextReport, T_REPORT, p)})
    case ServerRejects(k) =>
      w.(toClient := w.toClient + {Ack(k, ACK_REJECT)})
    case ClientReceives(f) =>
      (match OnWire(f)
       case None => w
       case Some(g) =>
         var r := ClientOn(w.client, g);
         w.(client := r.state, toServer := w.toServer + FrameSet(r.frames),
             delivered := w.delivered + Delivered(r.events)))
  }

  // ---------------------------------------------------------------- invariant

  /** Reports `from`, `from + 1`, ... of the history, `n` of them. */
  function Slice(reports: seq<seq<u8>>, from: nat, n: nat): (r: seq<Report>)
    requires 1 <= from && from - 1 + n <= |reports|
    ensures |r| == n
  {
    seq(n, i requires 0 <= i < n => Report(from + i, reports[from - 1 + i]))
  }

  predicate OrderFrameOk(w: World, f: Frame) {
    && f.seq_ < TWO_32
    && (IsOrder(f.mtype) ==> 1 <= f.seq_ <= |w.sent| && f.payload == w.sent[f.seq_ - 1])
    && (f.mtype == T_NAK_REQUEST ==> |f.payload| == 8 && 1 <= FromBe(f.payload[0..4]) <= w.client.expected)
  }

  /** The response carries `n` consecutive original reports starting at `from`. */
  predicate CarriesSlice(w: World, payload: seq<u8>, from: nat, n: nat) {
    && 1 <= from && from - 1 + n <= |w.reports|
    && payload == Range(from, n) + NestedAll(Slice(w.reports, from, n))
    && (!w.lateNak ==> from <= w.client.expected)
  }

  ghost predicate ReportFrameOk(w: World, f: Frame) {
    && f.seq_ < TWO_32
    && (f.mtype == T_REPORT ==> 1 <= f.seq_ <= |w.reports| && f.payload == w.reports[f.seq_ - 1])
    && (f.mtype == T_NAK_RESPONSE ==> exists from, n :: CarriesSlice(w, f.payload, from, n))
  }

  predicate OrdersOk(w: World) {
    && |w.sent| + 1 < TWO_32
    && w.client.nextOrder == |w.sent| + 1
    && (forall k :: k in w.client.pending ==> 1 <= k <= |w.sent| && w.client.pending[k] == w.sent[k - 1])
    && 1 <= w.server.expected <= |w.sent| + 1
    && w.surfaced == w.sent[..w.server.expected - 1]
    && (forall f :: f in w.toServer ==> OrderFrameOk(w, f))
  }

  predicate NaksOk(w: World) {
    && (forall i, j :: 0 <= i < j < |w.naks| ==> w.naks[i] < w.naks[j])
    && (forall i :: 0 <= i < |w.naks| ==> w.naks[i] <= w.server.expected)
    && (w.server.lastNak == if w.naks == [] then None else Some(w.naks[|w.naks| - 1]))
  }

  /** The window holds exactly the last `min(n, cap)` reports. */
  predicate StoreOk(w: World) {
    var st, n := w.server, |w.reports|;
    && n + 1 < TWO_32 && st.nextReport == n + 1 && st.cap >= 1
    && |st.store| == Min(n, st.cap)
    && st.storeStart == n - |st.store| + 1
    && st.store == Slice(w.reports, st.storeStart, |st.store|)
    && (forall i :: 0 <= i < n ==> |w.reports[i]| < TWO_16)
  }

  ghost predicate ReportsOk(w: World) {
    && (forall f :: f in w.toClient ==> ReportFrameOk(w, f))
    && 1 <= w.client.expected <= |w.reports| + 1
    && (forall i :: 0 <= i < |w.delivered| ==>
          && 1 <= w.delivered[i].seq_ < w.client.expected
          && w.delivered[i].payload == w.reports[w.delivered[i].seq_ - 1])
    && (forall i, j :: 0 <= i < j < |w.delivered| ==> w.delivered[i].seq_ < w.delivered[j].seq_)
    && (!w.lateNak ==> w.delivered == Slice(w.reports, 1, w.client.expected - 1))
  }

  ghost predicate Inv(w: World) {
    OrdersOk(w) && NaksOk(w) && StoreOk(w) && ReportsOk(w)
  }

  lemma StartInv(cap: nat)
    ensures Inv(Start(cap))
  {
  }

  // ---------------------------------------------------------------- each action keeps the invariant

  lemma SendKeeps(w: World, p: seq<u8>)
    requires Inv(w) && Enabled(w, SendOrder(p))
    ensures Inv(Do(w, SendOrder(p)))
  {
    hide FromBe, Range, NestedAll, Slice;
    var w' := Do(w, SendOrder(p));
    assert w'.sent[..w'.server.expected - 1] == w.sent[..w.server.expected - 1];
    forall f | f in w'.toServer ensures OrderFrameOk(w', f) {
      if f in w.toServer {
        assert OrderFrameOk(w, f);
      }
    }
    forall f | f in w'.toClient ensures ReportFrameOk(w', f) {
      KeepReportFrame(w, w', f);
    }
  }

  /** Report frames stay justified while the history only grows. */
  lemma KeepReportFrame(w: World, w': World, f: Frame)
    requires ReportFrameOk(w, f)
    requires w.reports <= w'.reports && w.client.expected <= w'.client.expected && (w.lateNak ==> w'.lateNak)
    ensures ReportFrameOk(w', f)
  {
    hide Range, NestedAll;
    if f.mtype == T_NAK_RESPONSE {
      var from: nat, n: nat :| CarriesSlice(w, f.payload, from, n);
      assert Slice(w.reports, from, n) == Slice(w'.reports, from, n);
      assert CarriesSlice(w', f.payload, from, n);
    }
  }

  lemma KeepFrames(w: World, w': World)
    requires forall f :: f in w.toClient ==> ReportFrameOk(w, f)
    requires w.reports <= w'.reports && w.client.expected <= w'.client.expected && (w.lateNak ==> w'.lateNak)
    ensures forall f :: f in w.toClient ==> ReportFrameOk(w', f)
  {
    hide ReportFrameOk;
    forall f | f in w.toClient ensures ReportFrameOk(w', f) {
      KeepReportFrame(w, w', f);
    }
  }

  /** What each part of the invariant depends on. */
  lemma OrdersSame(w: World, w': World)
    requires OrdersOk(w) && w'.sent == w.sent && w'.surfaced == w.surfaced && w'.server.expected == w.server.expected
    requires w'.client.nextOrder == w.client.nextOrder && w'.client.pending == w.client.pending
    requires w.client.expected <= w'.client.expected
    requires forall f :: f in w'.toServer ==> f in w.toServer || OrderFrameOk(w', f)
    ensures OrdersOk(w')
  {
    hide OrderFrameOk;
    forall f | f in w'.toServer ensures OrderFrameOk(w', f) {
      if f in w.toServer {
        KeepOrderFrame(w, w', f);
      }
    }
  }

  lemma NaksSame(w: World, w': World)
    requires NaksOk(w) && w'.naks == w.naks
    requires w'.server.expected == w.server.expected && w'.server.lastNak == w.server.lastNak
    ensures NaksOk(w')
  {
  }

  lemma StoreSame(w: World, w': World)
    requires StoreOk(w) && w'.reports == w.reports && w'.server.nextReport == w.server.nextReport
    requires w'.server.cap == w.server.cap && w'.server.store == w.server.store
    requires w'.server.storeStart == w.server.storeStart
    ensures StoreOk(w')
  {
    hide Slice;
  }

  lemma ReportsGrow(w: World, w': World)
    requires ReportsOk(w) && w.reports <= w'.reports && w'.client.expected == w.client.expected
    requires w'.delivered == w.delivered && (w.lateNak ==> w'.lateNak)
    requires forall f :: f in w'.toClient ==> f in w.toClient || ReportFrameOk(w', f)
    ensures ReportsOk(w')
  {
    hide ReportFrameOk, Slice;
    KeepFrames(w, w');
    if !w'.lateNak {
      SliceGrows(w.reports, w'.reports, w.client.expected - 1);
    }
  }

  lemma SliceGrows(reports: seq<seq<u8>>, reports': seq<seq<u8>>, n: nat)
    requires reports <= reports' && n <= |reports|
    ensures Slice(reports', 1, n) == Slice(reports, 1, n)
  {
  }

  lemma ReportKeeps(w: World, k: nat, p: seq<u8>)
    requires Inv(w) && Enabled(w, ServerReports(k, p))
    ensures Inv(Do(w, ServerReports(k, p)))
  {
    hide FromBe, Range, NestedAll, BeBytes, OrdersOk, NaksOk, StoreOk, ReportsOk, AddReport;
    ReportFrames(w, k, p);
    var w' := Do(w, ServerReports(k, p));
    WindowKept(w, p, w');
    AddReportKeeps(w.server, p);
    OrdersSame(w, w');
    NaksSame(w, w');
    ReportsGrow(w, w');
  }

  lemma AddReportKeeps(st: ServerState, p: seq<u8>)
    ensures AddReport(st, p).expected == st.expected && AddReport(st, p).lastNak == st.lastNak
  {
  }

  lemma ReportFrames(w: World, k: nat, p: seq<u8>)
    requires Inv(w) && Enabled(w, ServerReports(k, p))
    ensures w.server.nextReport == |w.reports| + 1
    ensures forall w2: World :: w2.reports == w.reports + [p] ==>
              ReportFrameOk(w2, Ack(k, ACK_OK)) && ReportFrameOk(w2, Frame(w.server.nextReport, T_REPORT, p))
  {
    hide OrdersOk, NaksOk, ReportsOk;
  }

  lemma KeepOrderFrame(w: World, w': World, f: Frame)
    requires OrderFrameOk(w, f) && w.sent <= w'.sent && w.client.expected <= w'.client.expected
    ensures OrderFrameOk(w', f)
  {
  }

  lemma WindowKept(w: World, p: seq<u8>, w': World)
    requires StoreOk(w) && |w.reports| + 2 < TWO_32 && |p| < TWO_16
    requires w'.server == AddReport(w.server, p) && w'.reports == w.reports + [p]
    ensures StoreOk(w')
  {
    hide Slice;
    var st, st' := w.server, w'.server;
    var n := |w.reports|;
    SliceElements(w.reports, st.storeStart, |st.store|);
    SliceElements(w'.reports, st'.storeStart, |st'.store|);
    assert st'.store == Slice(w'.reports, st'.storeStart, |st'.store|);
  }

  // ---------------------------------------------------------------- server receives

  lemma ServerReceivesKeeps(w: World, f: Frame)
    requires Inv(w) && Enabled(w, ServerReceives(f))
    ensures Inv(Do(w, ServerReceives(f)))
  {
    hide Inv, ServerOn, Surfaced, NakStarts, FromBe, OrdersOk;
    assert OrderFrameOk(w, f) by { FrameInFlight(w, f); }
    DecodeEncode(f);
    var r := ServerOn(w.server, f);
    var w' := Do(w, ServerReceives(f));
    if IsOrder(f.mtype) {
      ServerOrderKeeps(w, f, w');
    } else if f.mtype == T_NAK_REQUEST {
      ServerNakKeeps(w, f, w');
    } else {
      ServerOtherKeeps(w, f, w');
    }
  }

  lemma FrameInFlight(w: World, f: Frame)
    requires Inv(w) && f in w.toServer
    ensures OrderFrameOk(w, f)
  {
  }

  /** The next world after the server handled `f`. */
  predicate ServerStep(w: World, f: Frame, w': World) {
    var r := ServerOn(w.server, f);
    w' == w.(server := r.state, toClient := w.toClient + FrameSet(r.frames),
        surfaced := w.surfaced + Surfaced(r.events),
             naks := w.naks + NakStarts(r.frames), lateNak := w.lateNak || Late(w.server, f))
  }

  lemma EventLists(e: ServerEvent)
    ensures Surfaced([]) == [] && Surfaced([e]) == if e.OrderEvent? then [e.payload] else []
  {
    assert Surfaced([e]) == Surfaced([e][..0]) + (if e.OrderEvent? then [e.payload] else []);
  }

  lemma AckNoNak(fs: seq<Frame>, k: nat, result: u8)
    ensures NakStarts(fs + [Ack(k, result)]) == NakStarts(fs)
    ensures NakStarts([]) == []
  {
    assert (fs + [Ack(k, result)])[..|fs|] == fs;
  }

  lemma NakStartOf(start: nat, count: nat)
    requires start < TWO_32 && count < TWO_32
    ensures NakStarts([Frame(0, T_NAK_REQUEST, Range(start, count))]) == [start]
  {
    RangeRoundTrip(start, count, []);
    assert Range(start, count) + [] == Range(start, count);
    var fs := [Frame(0, T_NAK_REQUEST, Range(start, count))];
    assert fs[..0] == [];
  }

  predicate Plain(fs: seq<Frame>) {
    forall i :: 0 <= i < |fs| ==> fs[i].seq_ < TWO_32 && fs[i].mtype != T_REPORT && fs[i].mtype != T_NAK_RESPONSE
  }

  /** A server step that sends only plain frames leaves everything about reports alone. */
  lemma QuietStep(w: World, w': World, fs: seq<Frame>)
    requires Inv(w) && Plain(fs)
    requires w' == w.(server := w'.server, toClient := w.toClient + FrameSet(fs), surfaced := w'.surfaced,
        naks := w'.naks)
    requires w'.server == w.server.(expected := w'.server.expected, lastNak := w'.server.lastNak)
    ensures StoreOk(w') && ReportsOk(w')
    ensures forall g :: g in w'.toServer ==> OrderFrameOk(w', g)
  {
    hide FromBe, Range, NestedAll, Slice, ReportFrameOk;
    forall g | g in w.toServer ensures OrderFrameOk(w', g) {
      assert OrderFrameOk(w, g);
    }
    KeepFrames(w, w');
    forall g | g in w'.toClient ensures ReportFrameOk(w', g) {
      if g !in w.toClient {
        var i :| 0 <= i < |fs| && fs[i] == g;
        PlainFrame(w', g);
      }
    }
  }

  lemma OrderBounds(w: World, f: Frame)
    requires OrderFrameOk(w, f) && IsOrder(f.mtype)
    ensures 1 <= f.seq_ <= |w.sent| && f.payload == w.sent[f.seq_ - 1] && f.seq_ < TWO_32
  {
  }

  lemma AckFields(k: nat)
    ensures forall result: u8 :: Ack(k, result).seq_ == k && Ack(k, result).mtype != T_REPORT && Ack(k,
        result).mtype != T_NAK_RESPONSE
  {
  }

  /** An order in sequence surfaces once. */
  lemma OrderSurfaces(w: World, f: Frame, w': World)
    requires Inv(w) && OrderFrameOk(w, f) && IsOrder(f.mtype) && ServerStep(w, f, w') && f.seq_ == w.server.expected
    ensures OrdersOk(w') && NaksOk(w')
  {
    hide FromBe, Range, NestedAll, BeBytes, Slice, StoreOk, ReportsOk, Surfaced, NakStarts, OrderFrameOk, Ack;
    OrderBounds(w, f);
    EventLists(OrderEvent(f.mtype, f.seq_, f.payload));
    AckNoNak([], f.seq_, ACK_OK);
    assert [] + [Ack(f.seq_, ACK_OK)] == [Ack(f.seq_, ACK_OK)];
    assert w.sent[..w.server.expected] == w.sent[..w.server.expected - 1] + [f.payload];
    forall g | g in w.toServer ensures OrderFrameOk(w', g) {
      KeepOrderFrame(w, w', g);
    }
  }

  /** A repeat, or an order beyond a gap already asked for, only gets an answer. */
  lemma OrderAnswered(w: World, f: Frame, w': World)
    requires Inv(w) && OrderFrameOk(w, f) && IsOrder(f.mtype) && ServerStep(w, f, w')
    requires f.seq_ < w.server.expected || (f.seq_ > w.server.expected && w.server.lastNak == Some(w.server.expected))
    ensures OrdersOk(w') && NaksOk(w')
  {
    hide FromBe, Range, NestedAll, BeBytes, Slice, StoreOk, ReportsOk, OrdersOk, NaksOk, Surfaced, NakStarts,
        OrderFrameOk, Ack;
    EventLists(HeartbeatEvent);
    AckNoNak([], f.seq_, ACK_OK);
    AckNoNak([], f.seq_, ACK_RETRY);
    assert [] + [Ack(f.seq_, ACK_OK)] == [Ack(f.seq_, ACK_OK)];
    assert [] + [Ack(f.seq_, ACK_RETRY)] == [Ack(f.seq_, ACK_RETRY)];
    OrdersSame(w, w');
    NaksSame(w, w');
  }

  /** The first order beyond a gap asks for a resend from the gap's start. */
  lemma OrderAsks(w: World, f: Frame, w': World)
    requires Inv(w) && OrderFrameOk(w, f) && IsOrder(f.mtype) && ServerStep(w, f, w')
    requires f.seq_ > w.server.expected && w.server.lastNak != Some(w.server.expected)
    ensures OrdersOk(w') && NaksOk(w')
  {
    hide FromBe, Range, NestedAll, BeBytes, Slice, StoreOk, ReportsOk, Surfaced, NakStarts, OrderFrameOk, Ack;
    OrderBounds(w, f);
    var e := w.server.expected;
    var nak := Frame(0, T_NAK_REQUEST, Range(e, f.seq_ - e));
    EventLists(HeartbeatEvent);
    NakStartOf(e, f.seq_ - e);
    AckNoNak([nak], f.seq_, ACK_RETRY);
    assert [nak] + [Ack(f.seq_, ACK_RETRY)] == [nak, Ack(f.seq_, ACK_RETRY)];
    assert w'.naks == w.naks + [e];
    OrdersSame(w, w');
  }

  lemma ServerOrderKeeps(w: World, f: Frame, w': World)
    requires Inv(w) && OrderFrameOk(w, f) && IsOrder(f.mtype) && ServerStep(w, f, w')
    ensures Inv(w')
  {
    hide FromBe, Range, NestedAll, BeBytes, Slice, StoreOk, ReportsOk, OrdersOk, NaksOk, Surfaced, NakStarts,
        OrderFrameOk, Ack;
    OrderBounds(w, f);
    AckFields(f.seq_);
    QuietStep(w, w', ServerOn(w.server, f).frames);
    if f.seq_ == w.server.expected {
      OrderSurfaces(w, f, w');
    } else if f.seq_ < w.server.expected || w.server.lastNak == Some(w.server.expected) {
      OrderAnswered(w, f, w');
    } else {
      OrderAsks(w, f, w');
    }
  }

  /** Frames that are neither reports nor retransmissions claim nothing about reports. */
  lemma PlainFrame(w: World, g: Frame)
    requires g.seq_ < TWO_32 && g.mtype != T_REPORT && g.mtype != T_NAK_RESPONSE
    ensures ReportFrameOk(w, g)
  {
  }

  lemma ServerOtherKeeps(w: World, f: Frame, w': World)
    requires Inv(w) && OrderFrameOk(w, f) && ServerStep(w, f, w') && !IsOrder(f.mtype) && f.mtype != T_NAK_REQUEST
    ensures Inv(w')
  {
    hide FromBe, Range, NestedAll, BeBytes, Slice, StoreOk, ReportsOk, Surfaced, NakStarts;
    var r := ServerOn(w.server, f);
    QuietStep(w, w', r.frames);
    EventLists(HeartbeatEvent);
    if r.events != [] {
      EventLists(r.events[0]);
      assert r.events == [r.events[0]];
      NoNakStart(r.frames[0]);
      assert r.frames == [r.frames[0]];
    } else {
      AckNoNak([], 0, 0);
    }
  }

  lemma NoNakStart(g: Frame)
    requires g.mtype != T_NAK_REQUEST
    ensures NakStarts([g]) == []
  {
    var fs := [g];
    assert fs[..0] == [];
  }

  // ---------------------------------------------------------------- serving a retransmission

  lemma {:induction false} BetweenIsSlice(w: World, store: seq<Report>, from: nat, to: nat, base: nat)
    requires 1 <= base && base - 1 + |store| <= |w.reports| && store == Slice(w.reports, base, |store|)
    requires base <= from <= to
    ensures var hi := Min(to, base + |store|);
      Between(store, from, to) == if from <= hi then Slice(w.reports, from, hi - from) else []
  {
    hide Slice;
    if store != [] {
      var n := |store| - 1;
      SliceSnoc(w.reports, base, n);
      assert store[..n] == Slice(w.reports, base, n);
      BetweenIsSlice(w, store[..n], from, to, base);
      if from <= base + n < to {
        SliceSnoc(w.reports, from, base + n - from);
      }
    }
    SliceNothing(w.reports, from);
  }

  lemma SliceNothing(reports: seq<seq<u8>>, from: nat)
    ensures 1 <= from <= |reports| + 1 ==> Slice(reports, from, 0) == []
  {
  }

  lemma SliceSnoc(reports: seq<seq<u8>>, from: nat, n: nat)
    requires 1 <= from && from + n <= |reports|
    ensures Slice(reports, from, n + 1) == Slice(reports, from, n) + [Report(from + n, reports[from - 1 + n])]
  {
  }

  lemma ServerNakKeeps(w: World, f: Frame, w': World)
    requires Inv(w) && OrderFrameOk(w, f) && f.mtype == T_NAK_REQUEST && ServerStep(w, f, w')
    ensures Inv(w')
  {
    hide FromBe, Range, NestedAll, BeBytes, Slice, ReportFrameOk, Between, OrdersOk, NaksOk, ReportsOk, Surfaced,
        NakStarts;
    var st := w.server;
    ExpectedBound(w);
    var start, count := FromBe(f.payload[0..4]), FromBe(f.payload[4..8]);
    var from, to := NakFrom(st, start), NakTo(st, start, count);
    BetweenIsSlice(w, st.store, from, to, st.storeStart);
    var g := NakResponse(st, start, count);
    EventLists(NakEvent(start, count));
    NoNakStart(g);
    assert CarriesSlice(w', g.payload, from, to - from);
    ResponseOk(w', g, from, to - from);
    OrdersSame(w, w');
    NaksSame(w, w');
    ReportsGrow(w, w');
  }

  lemma ExpectedBound(w: World)
    requires Inv(w)
    ensures 1 <= w.client.expected <= |w.reports| + 1 < TWO_32
  {
  }

  lemma ResponseOk(w: World, g: Frame, from: nat, n: nat)
    requires g.seq_ < TWO_32 && g.mtype == T_NAK_RESPONSE && CarriesSlice(w, g.payload, from, n)
    ensures ReportFrameOk(w, g)
  {
  }

  // ---------------------------------------------------------------- client receives

  /** Absorbing consecutive reports delivers exactly those not seen before. */
  lemma {:induction false} AbsorbSlice(reports: seq<seq<u8>>, expected: nat, from: nat, n: nat)
    requires 1 <= from && from - 1 + n <= |reports| && |reports| + 1 < TWO_32
    ensures Absorb(expected, Slice(reports, from, n)) ==
      if from + n <= expected || n == 0 then Absorbed(expected, [])
      else var first := Max(from, expected); Absorbed(from + n, Slice(reports, first, from + n - first))
    decreases n
  {
    hide Slice;
    if n > 0 {
      SliceSnoc(reports, from, n - 1);
      assert Slice(reports, from, n)[..n - 1] == Slice(reports, from, n - 1);
      AbsorbSlice(reports, expected, from, n - 1);
      var first := Max(from, expected);
      if from + n > expected {
        SliceSnoc(reports, first, from + n - 1 - first);
        SliceNothing(reports, first);
      }
    } else {
      SliceNothing(reports, from);
    }
  }

  lemma {:induction false} DeliveredReports(rs: seq<Report>)
    ensures Delivered(Reports(rs)) == rs
  {
    if rs != [] {
      var n := |rs| - 1;
      DeliveredReports(rs[..n]);
      assert Reports(rs)[..n] == Reports(rs[..n]);
    }
  }

  lemma DeliveredOne(e: ClientEvent)
    ensures Delivered([]) == [] && Delivered([e]) == if e.ReportEvent? then [e.report] else []
  {
    assert [e][..0] == [];
  }

  /** Delivering reports `first ..` up to `next` keeps everything about reports. */
  lemma DeliverKeeps(w: World, w': World, first: nat, next: nat)
    requires Inv(w) && w.client.expected <= first <= next <= |w.reports| + 1
    requires w' == w.(client := w.client.(expected := next),
        delivered := w.delivered + Slice(w.reports, first, next - first))
    requires !w.lateNak ==> first == w.client.expected
    ensures Inv(w')
  {
    hide FromBe, Range, NestedAll, ReportFrameOk, Slice;
    KeepFrames(w, w');
    SliceElements(w.reports, first, next - first);
    forall f | f in w.toServer ensures OrderFrameOk(w', f) {
      KeepOrderFrame(w, w', f);
    }
    if !w.lateNak {
      SliceJoin(w.reports, w.client.expected, next);
    }
  }

  lemma SliceElements(reports: seq<seq<u8>>, from: nat, n: nat)
    requires 1 <= from && from - 1 + n <= |reports|
    ensures forall i :: 0 <= i < n ==> Slice(reports, from, n)[i] == Report(from + i, reports[from - 1 + i])
  {
  }

  lemma SliceJoin(reports: seq<seq<u8>>, mid: nat, next: nat)
    requires 1 <= mid <= next <= |reports| + 1
    ensures Slice(reports, 1, mid - 1) + Slice(reports, mid, next - mid) == Slice(reports, 1, next - 1)
  {
  }

  lemma ClientReceivesKeeps(w: World, f: Frame)
    requires Inv(w) && Enabled(w, ClientReceives(f))
    ensures Inv(Do(w, ClientReceives(f)))
  {
    hide Inv, ClientOn, FromBe;
    assert ReportFrameOk(w, f) by { ReportInFlight(w, f); }
    DecodeEncode(f);
    var w' := Do(w, ClientReceives(f));
    if f.mtype == T_REPORT {
      ClientReportKeeps(w, f, w');
    } else if f.mtype == T_NAK_RESPONSE {
      ClientResponseKeeps(w, f, w');
    } else {
      ClientOtherKeeps(w, f, w');
    }
  }

  lemma ReportInFlight(w: World, f: Frame)
    requires Inv(w) && f in w.toClient
    ensures ReportFrameOk(w, f)
  {
  }

  predicate ClientStep(w: World, f: Frame, w': World) {
    var r := ClientOn(w.client, f);
    w' == w.(client := r.state, toServer := w.toServer + FrameSet(r.frames),
        delivered := w.delivered + Delivered(r.events))
  }

  lemma ClientReportKeeps(w: World, f: Frame, w': World)
    requires Inv(w) && ReportFrameOk(w, f) && f.mtype == T_REPORT && ClientStep(w, f, w')
    ensures Inv(w')
  {
    hide NestedAll, Slice, BeBytes, FromBe, Range, OrdersOk, NaksOk, StoreOk, ReportsOk, Delivered;
    ExpectedBound(w);
    var e := w.client.expected;
    DeliveredOne(ReportEvent(Report(f.seq_, f.payload)));
    if f.seq_ == e {
      SliceElements(w.reports, e, 1);
      assert Slice(w.reports, e, 1) == [Report(f.seq_, f.payload)];
      assert w.toServer + FrameSet([]) == w.toServer;
      DeliverKeeps(w, w', e, e + 1);
    } else if f.seq_ > e {
      var nak := Frame(0, T_NAK_REQUEST, Range(e, f.seq_ - e));
      assert FrameSet([nak]) == {nak};
      assert w.delivered + [] == w.delivered;
      AskKeeps(w, w', nak, e, f.seq_ - e);
    } else {
      assert w.delivered + [] == w.delivered;
      assert w' == w;
    }
  }

  lemma AskKeeps(w: World, w': World, nak: Frame, start: nat, count: nat)
    requires Inv(w) && w' == w.(toServer := w.toServer + {nak})
    requires nak == Frame(0, T_NAK_REQUEST, Range(start, count)) && 1 <= start <= w.client.expected && count < TWO_32
    ensures Inv(w')
  {
    hide NestedAll, Slice, BeBytes, ReportFrameOk, FromBe, Range;
    RangeRoundTrip(start, count, []);
    assert Range(start, count) + [] == Range(start, count);
    forall f | f in w'.toServer ensures OrderFrameOk(w', f) {
      if f in w.toServer {
        KeepOrderFrame(w, w', f);
      }
    }
    KeepFrames(w, w');
  }

  lemma ClientResponseKeeps(w: World, f: Frame, w': World)
    requires Inv(w) && ReportFrameOk(w, f) && f.mtype == T_NAK_RESPONSE && ClientStep(w, f, w')
    ensures Inv(w')
  {
    hide FromBe, Range, NestedAll, Slice, BeBytes, Inv, Delivered, Absorb, ParseNested;
    var from: nat, n: nat :| CarriesSlice(w, f.payload, from, n);
    var rs := Slice(w.reports, from, n);
    ReportBounds(w);
    RangeRoundTrip(from, n, NestedAll(rs));
    SliceCarried(w, from, n);
    ParseNestedAll(Range(from, n), rs);
    AbsorbSlice(w.reports, w.client.expected, from, n);
    var a := Absorb(w.client.expected, rs);
    DeliveredReports(a.delivered);
    assert FrameSet([]) == {};
    assert w.toServer + {} == w.toServer;
    if from + n <= w.client.expected || n == 0 {
      assert w.delivered + [] == w.delivered;
      assert w' == w;
    } else {
      DeliverKeeps(w, w', Max(from, w.client.expected), from + n);
    }
  }

  lemma ReportBounds(w: World)
    requires Inv(w)
    ensures |w.reports| + 1 < TWO_32
  {
  }

  lemma SliceCarried(w: World, from: nat, n: nat)
    requires Inv(w) && 1 <= from && from - 1 + n <= |w.reports|
    ensures Carried(Slice(w.reports, from, n))
  {
    SliceElements(w.reports, from, n);
  }

  lemma ClientOtherKeeps(w: World, f: Frame, w': World)
    requires Inv(w) && f.seq_ < TWO_32 && f.mtype != T_REPORT && f.mtype != T_NAK_RESPONSE && ClientStep(w, f, w')
    ensures Inv(w')
  {
    hide FromBe, Range, NestedAll, Slice, BeBytes, ReportFrameOk, Delivered;
    var r := ClientOn(w.client, f);
    DeliveredOne(ClientHeartbeat);
    if r.events != [] {
      DeliveredOne(r.events[0]);
      assert r.events == [r.events[0]];
    }
    assert w.delivered + [] == w.delivered;
    assert w.toServer + FrameSet([]) == w.toServer;
    forall g | g in w'.toServer ensures OrderFrameOk(w', g) {
      KeepOrderFrame(w, w', g);
    }
    KeepFrames(w, w');
  }

  // ---------------------------------------------------------------- all runs

  lemma OtherSendsKeep(w: World, a: Action)
    requires Inv(w) && Enabled(w, a) && (a.Resend? || a.SendHello? || a.ServerRejects?)
    ensures Inv(Do(w, a))
  {
    hide FromBe, Range, NestedAll, BeBytes, ReportFrameOk, NaksOk, StoreOk, ReportsOk;
    var w' := Do(w, a);
    if a.ServerRejects? {
      PlainFrame(w', Ack(a.clientSeq, ACK_REJECT));
    }
    OrdersSame(w, w');
    NaksSame(w, w');
    StoreSame(w, w');
    ReportsGrow(w, w');
  }

  lemma DoKeeps(w: World, a: Action)
    requires Inv(w) && Enabled(w, a)
    ensures Inv(Do(w, a))
  {
    hide Inv, Do;
    match a
    case SendOrder(p) => SendKeeps(w, p);
    case ServerReports(k, p) => ReportKeeps(w, k, p);
    case ServerReceives(f) => ServerReceivesKeeps(w, f);
    case ClientReceives(f) => ClientReceivesKeeps(w, f);
    case Resend(_) => OtherSendsKeep(w, a);
    case SendHello(_, _) => OtherSendsKeep(w, a);
    case ServerRejects(_) => OtherSendsKeep(w, a);
  }

  /** A run: each world follows from the previous one by an enabled action. */
  predicate IsRun(cap: nat, run: seq<World>, actions: seq<Action>) {
    && |run| == |actions| + 1 && run[0] == Start(cap)
    && forall i {:trigger actions[i]} :: 0 <= i < |actions| ==>
         Enabled(run[i], actions[i]) && run[i + 1] == Do(run[i], actions[i])
  }

  lemma {:induction false} RunInv(cap: nat, run: seq<World>, actions: seq<Action>, i: nat)
    requires IsRun(cap, run, actions) && i < |run|
    ensures Inv(run[i])
  {
    hide Inv, Do;
    if i == 0 {
      StartInv(cap);
    } else {
      RunInv(cap, run, actions, i - 1);
      DoKeeps(run[i - 1], actions[i - 1]);
    }
  }

  /** The orders surfaced are always a prefix of the orders sent: each once, in order, unaltered. */
  lemma SurfacedIsPrefix(cap: nat, run: seq<World>, actions: seq<Action>, i: nat)
    requires IsRun(cap, run, actions) && i < |run|
    ensures run[i].surfaced <= run[i].sent
  {
    RunInv(cap, run, actions, i);
  }

  /** The server asks for each gap at most once. */
  lemma OneNakPerGap(cap: nat, run: seq<World>, actions: seq<Action>, i: nat, j: nat, k: nat)
    requires IsRun(cap, run, actions) && i < |run| && j < k < |run[i].naks|
    ensures run[i].naks[j] != run[i].naks[k]
  {
    RunInv(cap, run, actions, i);
  }

  /** The report window is always the last reports, as many as the capacity allows. */
  lemma WindowIsLatest(cap: nat, run: seq<World>, actions: seq<Action>, i: nat)
    requires IsRun(cap, run, actions) && i < |run|
    ensures var st, rs := run[i].server, run[i].reports;
      && |st.store| == Min(|rs|, st.cap)
      && forall k :: 0 <= k < |st.store| ==>
           st.store[k] == Report(|rs| - |st.store| + 1 + k, rs[|rs| - |st.store| + k])
  {
    RunInv(cap, run, actions, i);
  }

  /**
   Reports reach the client in strictly increasing sequence with their original payloads;
   and with no report skipped unless a request was served after its start left the window.
   */
  lemma DeliveryInOrder(cap: nat, run: seq<World>, actions: seq<Action>, i: nat)
    requires IsRun(cap, run, actions) && i < |run|
    ensures var ds, rs := run[i].delivered, run[i].reports;
      && (forall k :: 0 <= k < |ds| ==> 1 <= ds[k].seq_ <= |rs| && ds[k].payload == rs[ds[k].seq_ - 1])
      && (forall j, k :: 0 <= j < k < |ds| ==> ds[j].seq_ < ds[k].seq_)
      && (!run[i].lateNak ==> |ds| <= |rs| && forall k :: 0 <= k < |ds| ==> ds[k] == Report(k + 1, rs[k]))
  {
    RunInv(cap, run, actions, i);
  }
}
