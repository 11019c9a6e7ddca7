/** The two session endpoints: per-datagram behaviour as functions, and the objects that run them. */
module UdpSession {
  import opened Common
  import opened Bytes
  import opened UdpPacket

  // ---------------------------------------------------------------- server

  datatype ServerState = ServerState(
    nextReport: nat, expected: nat, store: seq<Report>, storeStart: nat, cap: nat, lastNak: Option<nat>)

  datatype ServerEvent =
    | OrderEvent(mtype: u8, seq_: nat, payload: seq<u8>)
    | NakEvent(start: nat, count: nat)
    | HelloEvent(client: nat, last: nat)
    | HeartbeatEvent

  function Wrap(n: nat): nat {
    n % TWO_32
  }

  function SatAdd(a: nat, b: nat): nat {
    if a + b < TWO_32 then a + b else TWO_32 - 1
  }

  function HighWater(st: ServerState): nat {
    if st.nextReport == 0 then 0 else st.nextReport - 1
  }

  function Ack(seq_: nat, result: u8): Frame {
    Frame(seq_, T_ORDER_ACK, BeBytes(seq_, 4) + [result])
  }

  /** The stored reports with `from <= seq < to`. */
  function Between(store: seq<Report>, from: nat, to: nat): seq<Report> {
    if store == [] then []
    else
      var rest := Between(store[..|store| - 1], from, to);
      if from <= store[|store| - 1].seq_ < to then rest + [store[|store| - 1]] else rest
  }

  function NakFrom(st: ServerState, start: nat): nat {
    if start >= st.storeStart then start else st.storeStart
  }

  function NakTo(st: ServerState, start: nat, count: nat): nat {
    var to := SatAdd(NakFrom(st, start), count);
    if to <= HighWater(st) + 1 then to else HighWater(st) + 1
  }

  function NakResponse(st: ServerState, start: nat, count: nat): Frame {
    var from, to := NakFrom(st, start), NakTo(st, start, count);
    Frame(0, T_NAK_RESPONSE, Range(from, if to >= from then to - from else 0) + NestedAll(Between(st.store, from, to)))
  }

  datatype ServerOut = ServerOut(state: ServerState, events: seq<ServerEvent>, frames: seq<Frame>)

  predicate IsOrder(mtype: u8) {
    mtype == T_ORDER || mtype == T_CANCEL || mtype == T_REPLACE
  }

  function ServerOn(st: ServerState, f: Frame): ServerOut {
    if IsOrder(f.mtype) then
      if f.seq_ == st.expected then
        ServerOut(st.(expected := Wrap(st.expected + 1)), [OrderEvent(f.mtype, f.seq_, f.payload)],
            [Ack(f.seq_, ACK_OK)])
      else if f.seq_ < st.expected then
        ServerOut(st, [], [Ack(f.seq_, ACK_OK)])
      else if st.lastNak != Some(st.expected) then
        ServerOut(st.(lastNak := Some(st.expected)), [],
                  [Frame(0, T_NAK_REQUEST, Range(st.expected, f.seq_ - st.expected)), Ack(f.seq_, ACK_RETRY)])
      else
        ServerOut(st, [], [Ack(f.seq_, ACK_RETRY)])
    else if f.mtype == T_NAK_REQUEST then
      if |f.payload| < 8 then ServerOut(st, [], [])
      else
        var start, count := FromBe(f.payload[0..4]), FromBe(f.payload[4..8]);
        ServerOut(st, [NakEvent(start, count)], [NakResponse(st, start, count)])
    else if f.mtype == T_HELLO then
      if |f.payload| < 8 then ServerOut(st, [], [])
      else
        var client, last := FromBe(f.payload[0..4]), FromBe(f.payload[4..8]);
        var flags: u8 := if Wrap(last + 1) < st.storeStart then GAP_TOO_OLD else 0;
        ServerOut(st, [HelloEvent(client, last)],
                  [Frame(0, T_HELLO_ACK,
                         BeBytes(HighWater(st), 4) + BeBytes(st.storeStart, 4) + [flags] + [0, 0, 0, 0])])
    else if f.mtype == T_HEARTBEAT then
      ServerOut(st, [HeartbeatEvent], [Frame(0, T_HEARTBEAT, [])])
    else
      ServerOut(st, [], [])
  }

  /** Record a report, dropping the oldest once the window is full. */
  function AddReport(st: ServerState, payload: seq<u8>): ServerState {
    var store := st.store + [Report(st.nextReport, payload)];
    var next := st.(nextReport := Wrap(st.nextReport + 1));
    if |store| > st.cap then next.(store := store[1..], storeStart := Wrap(store[0].seq_ + 1))
    else next.(store := store)
  }

  function EncodeAll(fs: seq<Frame>): seq<seq<u8>> {
    seq(|fs|, i requires 0 <= i < |fs| => Encode(fs[i]))
  }

  lemma {:induction false} NestedAppend(rs: seq<Report>, r: Report)
    ensures NestedAll(rs + [r]) == NestedAll(rs) + Nested(r)
    decreases rs
  {
    if rs == [] {
      var one := [r];
      assert NestedAll(one) == Nested(one[0]) + NestedAll(one[1..]);
      assert rs + [r] == one;
    } else {
      assert (rs + [r])[1..] == rs[1..] + [r];
      NestedAppend(rs[1..], r);
    }
  }

  class ServerSession {
    var nextReport: nat
    var expected: nat
    var store: seq<Report>
    var storeStart: nat
    var cap: nat
    var lastNak: Option<nat>

    function State(): ServerState
      reads this
    {
      ServerState(nextReport, expected, store, storeStart, cap, lastNak)
    }

    constructor (storeCap: nat)
      ensures State() == ServerState(1, 1, [], 1, Max(storeCap, 1), None)
    {
      nextReport := 1;
      expected := 1;
      store := [];
      storeStart := 1;
      cap := Max(storeCap, 1);
      lastNak := None;
    }

    /** Build the retransmission of the requested range from the window. */
    method BuildNakResponse(start: nat, count: nat) returns (dg: seq<u8>)
      ensures dg == Encode(NakResponse(State(), start, count))
    {
      hide BeBytes, Encode, Nested, NestedAll;
      var from, to := NakFrom(State(), start), NakTo(State(), start, count);
      var out := Range(from, if to >= from then to - from else 0);
      ghost var head := out;
      var i := 0;
      NestedEmpty();
      while i < |store|
        invariant 0 <= i <= |store|
        invariant out == head + NestedAll(Between(store[..i], from, to))
      {
        assert store[..i + 1][..i] == store[..i];
        if from <= store[i].seq_ < to {
          NestedAppend(Between(store[..i], from, to), store[i]);
          out := out + Nested(store[i]);
        }
        i := i + 1;
      }
      assert store[..i] == store;
      dg := Encode(Frame(0, T_NAK_RESPONSE, out));
    }

    method OnDatagram(dg: seq<u8>) returns (events: seq<ServerEvent>, out: seq<seq<u8>>)
      modifies this
      ensures match Decode(dg)
        case None => State() == old(State()) && events == [] && out == []
        case Some(f) =>
          var r := ServerOn(old(State()), f);
          State() == r.state && events == r.events && out == EncodeAll(r.frames)
    {
      hide Encode, Decode, BeBytes, FromBe, NakResponse, Range;
      events, out := [], [];
      var decoded := Decode(dg);
      if decoded == None {
        return;
      }
      var f := decoded.value;
      if IsOrder(f.mtype) {
        var ack := ACK_OK;
        if f.seq_ == expected {
          expected := Wrap(expected + 1);
          events := [OrderEvent(f.mtype, f.seq_, f.payload)];
        } else if f.seq_ > expected {
          if lastNak != Some(expected) {
            lastNak := Some(expected);
            out := [Encode(Frame(0, T_NAK_REQUEST, Range(expected, f.seq_ - expected)))];
          }
          ack := ACK_RETRY;
        }
        out := out + [Encode(Ack(f.seq_, ack))];
      } else if f.mtype == T_NAK_REQUEST {
        if |f.payload| >= 8 {
          var start, count := FromBe(f.payload[0..4]), FromBe(f.payload[4..8]);
          events := [NakEvent(start, count)];
          var response := BuildNakResponse(start, count);
          out := [response];
        }
      } else if f.mtype == T_HELLO {
        if |f.payload| >= 8 {
          var client, last := FromBe(f.payload[0..4]), FromBe(f.payload[4..8]);
          events := [HelloEvent(client, last)];
          var flags: u8 := if Wrap(last + 1) < storeStart then GAP_TOO_OLD else 0;
          out := [Encode(Frame(0, T_HELLO_ACK, BeBytes(HighWater(State()), 4) + BeBytes(storeStart,
              4) + [flags] + [0, 0, 0, 0]))];
        }
      } else if f.mtype == T_HEARTBEAT {
        events := [HeartbeatEvent];
        out := [Encode(Frame(0, T_HEARTBEAT, []))];
      }
    }

    /** An accepted order: store the report in the window and send it. */
    method AckAndReport(clientSeq: nat, payload: seq<u8>) returns (out: seq<seq<u8>>)
      modifies this
      ensures State() == AddReport(old(State()), payload)
      ensures out == EncodeAll([Ack(clientSeq, ACK_OK), Frame(old(nextReport), T_REPORT, payload)])
    {
      hide Encode;
      var seq_ := nextReport;
      nextReport := Wrap(nextReport + 1);
      store := store + [Report(seq_, payload)];
      if |store| > cap {
        storeStart := Wrap(store[0].seq_ + 1);
        store := store[1..];
      }
      out := [Encode(Ack(clientSeq, ACK_OK)), Encode(Frame(seq_, T_REPORT, payload))];
    }
  }

  lemma NestedEmpty()
    ensures NestedAll([]) == []
  {
  }

  // ---------------------------------------------------------------- client

  datatype ClientState = ClientState(nextOrder: nat, expected: nat, pending: map<nat, seq<u8>>)

  datatype ClientEvent =
    | ReportEvent(report: Report)
    | AckEvent(seq_: nat, result: u8)
    | HelloAckEvent(last: nat, storeStart: nat, flags: u8)
    | ClientHeartbeat

  datatype Absorbed = Absorbed(expected: nat, delivered: seq<Report>)

  /** Retransmitted reports: anything not yet seen is delivered, also past a hole. */
  function Absorb(expected: nat, rs: seq<Report>): Absorbed {
    if rs == [] then Absorbed(expected, [])
    else
      var before := Absorb(expected, rs[..|rs| - 1]);
      var r := rs[|rs| - 1];
      if r.seq_ >= before.expected then Absorbed(Wrap(r.seq_ + 1), before.delivered + [r]) else before
  }

  lemma AbsorbNothing(expected: nat)
    ensures Absorb(expected, []) == Absorbed(expected, [])
  {
  }

  lemma AbsorbOneMore(expected: nat, rs: seq<Report>, r: Report)
    ensures var before := Absorb(expected, rs);
      Absorb(expected, rs + [r]) ==
        if r.seq_ >= before.expected then Absorbed(Wrap(r.seq_ + 1), before.delivered + [r]) else before
  {
    assert (rs + [r])[..|rs|] == rs;
  }

  /** One step of reading nested frames. */
  lemma NextNested(p: seq<u8>, off: nat, count: nat)
    requires off <= |p| && count > 0
    ensures off + 6 > |p| ==> ParseNested(p, off, count) == []
    ensures off + 6 <= |p| ==>
      var len := FromBe(p[off + 4..off + 6]);
      ParseNested(p, off, count) ==
        if off + 6 + len > |p| then []
        else [Report(FromBe(p[off..off + 4]), p[off + 6..off + 6 + len])] + ParseNested(p, off + 6 + len, count - 1)
  {
  }

  lemma NestedStops(p: seq<u8>, off: nat)
    requires off <= |p|
    ensures ParseNested(p, off, 0) == []
  {
  }

  function Reports(rs: seq<Report>): seq<ClientEvent> {
    seq(|rs|, i requires 0 <= i < |rs| => ReportEvent(rs[i]))
  }

  datatype ClientOut = ClientOut(state: ClientState, events: seq<ClientEvent>, frames: seq<Frame>)

  function ClientOn(st: ClientState, f: Frame): ClientOut {
    if f.mtype == T_REPORT then
      if f.seq_ == st.expected then
        ClientOut(st.(expected := Wrap(st.expected + 1)), [ReportEvent(Report(f.seq_, f.payload))], [])
      else if f.seq_ > st.expected then
        ClientOut(st, [], [Frame(0, T_NAK_REQUEST, Range(st.expected, f.seq_ - st.expected))])
      else ClientOut(st, [], [])
    else if f.mtype == T_NAK_RESPONSE then
      if |f.payload| < 8 then ClientOut(st, [], [])
      else
        var a := Absorb(st.expected, ParseNested(f.payload, 8, FromBe(f.payload[4..8])));
        ClientOut(st.(expected := a.expected), Reports(a.delivered), [])
    else if f.mtype == T_ORDER_ACK then
      if |f.payload| < 5 then ClientOut(st, [], [])
      else
        var seq_ := FromBe(f.payload[0..4]);
        ClientOut(st.(pending := st.pending - {seq_}), [AckEvent(seq_, f.payload[4])], [])
    else if f.mtype == T_HELLO_ACK then
      if |f.payload| < 9 then ClientOut(st, [], [])
      else ClientOut(st, [HelloAckEvent(FromBe(f.payload[0..4]), FromBe(f.payload[4..8]), f.payload[8])], [])
    else if f.mtype == T_HEARTBEAT then ClientOut(st, [ClientHeartbeat], [])
    else ClientOut(st, [], [])
  }

  class ClientSession {
    var nextOrder: nat
    var expected: nat
    var pending: map<nat, seq<u8>>

    function State(): ClientState
      reads this
    {
      ClientState(nextOrder, expected, pending)
    }

    constructor ()
      ensures State() == ClientState(1, 1, map[])
    {
      nextOrder := 1;
      expected := 1;
      pending := map[];
    }

    method SendOrder(payload: seq<u8>) returns (dg: seq<u8>)
      modifies this
      ensures State() == old(State()).(nextOrder := Wrap(old(nextOrder) + 1),
          pending := old(pending)[old(nextOrder) := payload])
      ensures dg == Encode(Frame(old(nextOrder), T_ORDER, payload))
    {
      var seq_ := nextOrder;
      nextOrder := Wrap(nextOrder + 1);
      pending := pending[seq_ := payload];
      dg := Encode(Frame(seq_, T_ORDER, payload));
    }

    /** Walk the nested frames of a retransmission. */
    method OnNakResponse(payload: seq<u8>) returns (delivered: seq<Report>)
      requires |payload| >= 8
      modifies this`expected
      ensures var a := Absorb(old(expected), ParseNested(payload, 8, FromBe(payload[4..8])));
        expected == a.expected && delivered == a.delivered
    {
      hide FromBe, Absorb, ParseNested;
      var count := FromBe(payload[4..8]);
      var off, i := 8, 0;
      delivered := [];
      ghost var all := ParseNested(payload, 8, count);
      ghost var done: seq<Report> := [];
      AbsorbNothing(expected);
      while i < count
        invariant 0 <= i <= count && 8 <= off <= |payload|
        invariant all == done + ParseNested(payload, off, count - i)
        invariant Absorbed(expected, delivered) == Absorb(old(expected), done)
      {
        NextNested(payload, off, count - i);
        if off + 6 > |payload| {
          break;
        }
        var seq_, len := FromBe(payload[off..off + 4]), FromBe(payload[off + 4..off + 6]);
        off := off + 6;
        if off + len > |payload| {
          break;
        }
        var body := payload[off..off + len];
        off := off + len;
        ghost var r := Report(seq_, body);
        AbsorbOneMore(old(expected), done, r);
        assert done + ([r] + ParseNested(payload, off, count - i - 1))
               == done + [r] + ParseNested(payload, off, count - i - 1);
        if seq_ == expected {
          expected := Wrap(expected + 1);
          delivered := delivered + [Report(seq_, body)];
        } else if seq_ > expected {
          delivered := delivered + [Report(seq_, body)];
          expected := Wrap(seq_ + 1);
        }
        done := done + [r];
        i := i + 1;
      }
      NestedStops(payload, off);
      assert done + [] == done;
      assert all == done;
    }

    method OnDatagram(dg: seq<u8>) returns (events: seq<ClientEvent>, out: seq<seq<u8>>)
      modifies this
      ensures match Decode(dg)
        case None => State() == old(State()) && events == [] && out == []
        case Some(f) =>
          var r := ClientOn(old(State()), f);
          State() == r.state && events == r.events && out == EncodeAll(r.frames)
    {
      hide Encode, Decode, FromBe, ParseNested, Absorb, Range;
      events, out := [], [];
      var decoded := Decode(dg);
      if decoded == None {
        return;
      }
      var f := decoded.value;
      if f.mtype == T_REPORT {
        if f.seq_ == expected {
          expected := Wrap(expected + 1);
          events := [ReportEvent(Report(f.seq_, f.payload))];
        } else if f.seq_ > expected {
          out := [Encode(Frame(0, T_NAK_REQUEST, Range(expected, f.seq_ - expected)))];
        }
      } else if f.mtype == T_NAK_RESPONSE {
        if |f.payload| >= 8 {
          var delivered := OnNakResponse(f.payload);
          events := Reports(delivered);
        }
      } else if f.mtype == T_ORDER_ACK {
        if |f.payload| >= 5 {
          var seq_ := FromBe(f.payload[0..4]);
          pending := pending - {seq_};
          events := [AckEvent(seq_, f.payload[4])];
        }
      } else if f.mtype == T_HELLO_ACK {
        if |f.payload| >= 9 {
          events := [HelloAckEvent(FromBe(f.payload[0..4]), FromBe(f.payload[4..8]), f.payload[8])];
        }
      } else if f.mtype == T_HEARTBEAT {
        events := [ClientHeartbeat];
      }
    }
  }
}
