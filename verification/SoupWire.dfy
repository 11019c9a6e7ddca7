/** Whole runs of a SoupBinTCP session over a byte stream that arrives in arbitrary pieces. */
module SoupWire {
  import opened Common
  import opened Bytes
  import opened SoupPacket
  import opened SoupSession
  import SoupRuns

  /** A connection: bytes the client has read but not yet consumed, and bytes still on the way. */
  datatype Link = Link(unread: seq<u8>, flying: seq<u8>)

  datatype Wired = Wired(
    sent: seq<seq<u8>>, client: ClientState, link: Option<Link>, got: seq<(nat, seq<u8>)>, skipped: set<nat>)

  datatype Action = Enqueue(payload: seq<u8>) | Login(user: seq<u8>, password: seq<u8>) | Arrive(n: nat) | Disconnect

  const INITIAL: Wired := Wired([], ClientState(1, 0, false), None, [], {})

  predicate Enabled(w: Wired, a: Action) {
    match a
    case Enqueue(p) => |p| <= MAX_PAYLOAD && |w.sent| + 2 < TWO_64
    case Login(_, _) => w.client.expected < TWO_64 && |w.sent| + 1 < TWO_64
    case Arrive(n) => w.link.Some? && n <= |w.link.value.flying|
    case Disconnect => true
  }

  /** The session with `pkts` as the packets in flight. */
  function View(w: Wired, pkts: seq<Packet>): SoupRuns.System {
    SoupRuns.System(w.sent, w.client, if w.link == None then None else Some(pkts), w.got, w.skipped)
  }

  function OnPacket(w: Wired, pkt: Packet): Wired {
    var s := SoupRuns.OnFront(View(w, []), pkt, []);
    w.(client := s.client, got := s.got, skipped := s.skipped)
  }

  function OnPackets(w: Wired, pkts: seq<Packet>): Wired
    decreases |pkts|
  {
    if pkts == [] then w else OnPackets(OnPacket(w, pkts[0]), pkts[1..])
  }

  function Do(w: Wired, a: Action, cap: nat, id: seq<u8>): Wired
    requires Enabled(w, a)
  {
    match a
    case Enqueue(p) =>
      w.(sent := w.sent + [p],
         link := if w.link == None then None
                 else Some(w.link.value.(flying := w.link.value.flying + ToBytes(Packet(SEQUENCED_DATA, p)))))
    case Login(user, password) =>
      var r := Relogin(w.sent, cap, id, user, password, w.client);
      w.(link := if !r.actions.close then Some(Link([], Wire(r.actions.outbound))) else None)
    case Arrive(n) =>
      var buf := w.link.value.unread + w.link.value.flying[..n];
      var p := Parse(buf);
      OnPackets(w, p.packets).(link := Some(Link(buf[p.consumed..], w.link.value.flying[n..])))
    case Disconnect => w.(link := None)
  }

  // ---------------------------------------------------------------- bytes and packets

  lemma {:induction false} WireConcat(a: seq<Packet>, b: seq<Packet>)
    ensures Wire(a + b) == Wire(a) + Wire(b)
  {
    hide ToBytes;
    if a == [] {
      assert a + b == b;
    } else {
      assert (a + b)[1..] == a[1..] + b;
      WireConcat(a[1..], b);
      assert ToBytes(a[0]) + (Wire(a[1..]) + Wire(b)) == ToBytes(a[0]) + Wire(a[1..]) + Wire(b);
    }
  }

  /** A parser consumes exactly the bytes its packets take. */
  lemma {:induction false} ConsumedIsWire(buf: seq<u8>, off: nat)
    requires off <= |buf|
    ensures ParseFrom(buf, off).consumed == off + |Wire(ParseFrom(buf, off).packets)|
    decreases |buf| - off
  {
    hide FromBe, BeBytes;
    if PacketSize(buf, off).Some? {
      var size := PacketSize(buf, off).value;
      ConsumedIsWire(buf, off + size);
      var p, rest := PacketAt(buf, off, size), ParseFrom(buf, off + size).packets;
      assert ([p] + rest)[1..] == rest;
    }
  }

  /** What a parser leaves holds no complete packet. */
  lemma {:induction false} StopsAtTail(buf: seq<u8>, off: nat)
    requires off <= |buf|
    ensures ParseFrom(buf, ParseFrom(buf, off).consumed).packets == []
    decreases |buf| - off
  {
    hide PacketSize, PacketAt;
    if PacketSize(buf, off).Some? {
      StopsAtTail(buf, off + PacketSize(buf, off).value);
    }
  }

  lemma TailIsPartial(buf: seq<u8>)
    ensures Parse(buf[Parse(buf).consumed..]).packets == []
  {
    hide ParseFrom;
    var c := Parse(buf).consumed;
    StopsAtTail(buf, 0);
    ParseShift(buf, c, c);
  }

  /**
   However much of the stream has arrived, the parser has read a prefix of the packets and the rest is still
   whole.
   */
  lemma PrefixArrives(buf: seq<u8>, rest: seq<u8>, pkts: seq<Packet>)
    requires Sendable(pkts) && buf + rest == Wire(pkts)
    ensures var p := Parse(buf);
      var k := |p.packets|;
      k <= |pkts| && p.packets == pkts[..k] && buf[p.consumed..] + rest == Wire(pkts[k..])
  {
    hide ParseFrom, Wire, Sendable;
    var p := Parse(buf);
    var k := |p.packets|;
    TwoChunks(buf, rest);
    ParseInvertsWire(pkts);
    assert pkts == p.packets + Parse(buf[p.consumed..] + rest).packets;
    ConsumedIsWire(buf, 0);
    WireConcat(pkts[..k], pkts[k..]);
    assert pkts[..k] + pkts[k..] == pkts;
    assert buf[p.consumed..] + rest == (buf + rest)[p.consumed..];
  }

  // ---------------------------------------------------------------- invariant

  predicate Short(msgs: seq<seq<u8>>) {
    forall i :: 0 <= i < |msgs| ==> |msgs[i]| <= MAX_PAYLOAD
  }

  ghost predicate Carries(w: Wired, pkts: seq<Packet>) {
    w.link.Some? ==>
      && Sendable(pkts) && w.link.value.unread + w.link.value.flying == Wire(pkts)
      && Parse(w.link.value.unread).packets == []
  }

  ghost predicate InvWith(w: Wired, cap: nat, id: seq<u8>, pkts: seq<Packet>) {
    Carries(w, pkts) && SoupRuns.Inv(View(w, pkts), cap, id)
  }

  ghost predicate Inv(w: Wired, cap: nat, id: seq<u8>) {
    Short(w.sent) && exists pkts: seq<Packet> :: InvWith(w, cap, id, pkts)
  }

  lemma {:induction false} PacketsArrive(w: Wired, cap: nat, id: seq<u8>, pkts: seq<Packet>, k: nat)
    requires w.link.Some? && SoupRuns.Inv(View(w, pkts), cap, id) && k <= |pkts|
    ensures SoupRuns.Inv(View(OnPackets(w, pkts[..k]), pkts[k..]), cap, id)
    ensures var w' := OnPackets(w, pkts[..k]); w'.sent == w.sent && w'.link == w.link
    decreases k
  {
    hide SoupRuns.Inv, OnClient, Accepts;
    if k == 0 {
      assert pkts[0..] == pkts;
    } else {
      SoupRuns.DoKeeps(View(w, pkts), SoupRuns.Deliver, cap, id);
      var w1 := OnPacket(w, pkts[0]);
      assert View(w1, pkts[1..]) == SoupRuns.Do(View(w, pkts), SoupRuns.Deliver, cap, id);
      PacketsArrive(w1, cap, id, pkts[1..], k - 1);
      assert pkts[..k][1..] == pkts[1..][..k - 1] && pkts[1..][k - 1..] == pkts[k..];
    }
  }

  lemma EnqueueKeeps(w: Wired, p: seq<u8>, cap: nat, id: seq<u8>, pkts: seq<Packet>)
    requires InvWith(w, cap, id, pkts) && Enabled(w, Enqueue(p)) && Short(w.sent)
    ensures Inv(Do(w, Enqueue(p), cap, id), cap, id)
  {
    hide SoupRuns.Inv, ToBytes, Wire, Parse;
    var pkt := Packet(SEQUENCED_DATA, p);
    var pkts' := if w.link == None then pkts else pkts + [pkt];
    SoupRuns.DoKeeps(View(w, pkts), SoupRuns.Enqueue(p), cap, id);
    var w' := Do(w, Enqueue(p), cap, id);
    assert View(w', pkts') == SoupRuns.Do(View(w, pkts), SoupRuns.Enqueue(p), cap, id);
    if w.link.Some? {
      var l := w.link.value;
      WireConcat(pkts, [pkt]);
      OneOnWire(pkt);
      assert l.unread + (l.flying + ToBytes(pkt)) == l.unread + l.flying + ToBytes(pkt);
    }
    assert InvWith(w', cap, id, pkts');
  }

  lemma OneOnWire(pkt: Packet)
    ensures Wire([pkt]) == ToBytes(pkt)
  {
    assert [pkt][1..] == [];
  }

  lemma LoginKeeps(w: Wired, user: seq<u8>, password: seq<u8>, cap: nat, id: seq<u8>, pkts: seq<Packet>)
    requires InvWith(w, cap, id, pkts) && Enabled(w, Login(user, password)) && Short(w.sent)
    ensures Inv(Do(w, Login(user, password), cap, id), cap, id)
  {
    hide SoupRuns.Inv, Wire, Relogin, BuildAccepted, Data, StartOf, NameSurvives;
    SoupRuns.DoKeeps(View(w, pkts), SoupRuns.Login(user, password), cap, id);
    ReloginReply(w.sent, cap, id, user, password, w.client);
    var start := StartOf(w.client.expected, |w.sent|, cap);
    ReplySendable(id, start, w.sent[start - 1..]);
    var pkts' := if NameSurvives(id) then [BuildAccepted(id, start)] + Data(w.sent[start - 1..]) else [];
    var w' := Do(w, Login(user, password), cap, id);
    assert View(w', pkts') == SoupRuns.Do(View(w, pkts), SoupRuns.Login(user, password), cap, id);
    ParseNothing();
    assert [] + Wire(pkts') == Wire(pkts');
    assert InvWith(w', cap, id, pkts');
  }

  lemma ArriveKeeps(w: Wired, n: nat, cap: nat, id: seq<u8>, pkts: seq<Packet>)
    requires InvWith(w, cap, id, pkts) && Enabled(w, Arrive(n)) && Short(w.sent)
    ensures Inv(Do(w, Arrive(n), cap, id), cap, id)
  {
    hide SoupRuns.Inv, Wire, Parse, Sendable, OnPackets;
    var l := w.link.value;
    var buf, rest := l.unread + l.flying[..n], l.flying[n..];
    assert buf + rest == l.unread + l.flying;
    PrefixArrives(buf, rest, pkts);
    var k := |Parse(buf).packets|;
    PacketsArrive(w, cap, id, pkts, k);
    TailIsPartial(buf);
    var w' := Do(w, Arrive(n), cap, id);
    assert View(w', pkts[k..]) == View(OnPackets(w, pkts[..k]), pkts[k..]);
    assert Sendable(pkts[k..]) by { TailSendable(pkts, k); }
    assert InvWith(w', cap, id, pkts[k..]);
  }

  lemma TailSendable(pkts: seq<Packet>, k: nat)
    requires Sendable(pkts) && k <= |pkts|
    ensures Sendable(pkts[k..])
  {
  }

  /** Every action keeps the session invariant, however the bytes are cut. */
  lemma DoKeeps(w: Wired, a: Action, cap: nat, id: seq<u8>)
    requires Inv(w, cap, id) && Enabled(w, a)
    ensures Inv(Do(w, a, cap, id), cap, id)
  {
    hide InvWith, Inv, Do;
    var pkts := InFlight(w, cap, id);
    match a
    case Enqueue(p) => EnqueueKeeps(w, p, cap, id, pkts);
    case Login(user, password) => LoginKeeps(w, user, password, cap, id, pkts);
    case Arrive(n) => ArriveKeeps(w, n, cap, id, pkts);
    case Disconnect => DisconnectKeeps(w, cap, id, pkts);
  }

  lemma InFlight(w: Wired, cap: nat, id: seq<u8>) returns (pkts: seq<Packet>)
    requires Inv(w, cap, id)
    ensures InvWith(w, cap, id, pkts) && Short(w.sent)
  {
    pkts :| InvWith(w, cap, id, pkts);
  }

  lemma DisconnectKeeps(w: Wired, cap: nat, id: seq<u8>, pkts: seq<Packet>)
    requires InvWith(w, cap, id, pkts) && Short(w.sent)
    ensures Inv(Do(w, Disconnect, cap, id), cap, id)
  {
    hide SoupRuns.Inv;
    SoupRuns.DoKeeps(View(w, pkts), SoupRuns.Disconnect, cap, id);
    assert InvWith(Do(w, Disconnect, cap, id), cap, id, pkts);
  }

  // ---------------------------------------------------------------- whole runs

  ghost predicate IsRun(run: seq<Wired>, actions: seq<Action>, cap: nat, id: seq<u8>) {
    && |run| == |actions| + 1 && run[0] == INITIAL
    && forall i {:trigger actions[i]} :: 0 <= i < |actions| ==>
         Enabled(run[i], actions[i]) && run[i + 1] == Do(run[i], actions[i], cap, id)
  }

  lemma InitialInv(cap: nat, id: seq<u8>)
    ensures Inv(INITIAL, cap, id)
  {
    assert InvWith(INITIAL, cap, id, []);
  }

  lemma {:induction false} RunInv(run: seq<Wired>, actions: seq<Action>, cap: nat, id: seq<u8>, i: nat)
    requires IsRun(run, actions, cap, id) && i < |run|
    ensures Inv(run[i], cap, id)
  {
    hide Do, Inv;
    if i == 0 {
      InitialInv(cap, id);
    } else {
      RunInv(run, actions, cap, id, i - 1);
      DoKeeps(run[i - 1], actions[i - 1], cap, id);
    }
  }

  /**
   Across any number of broken connections and any cutting of the stream, the client accepts original
   messages in strictly increasing order, each at most once, and every number below the one it expects
   was accepted or had left the store by the time a login passed over it.
   */
  lemma AtMostOnceInOrder(run: seq<Wired>, actions: seq<Action>, cap: nat, id: seq<u8>, i: nat)
    requires IsRun(run, actions, cap, id) && i < |run|
    ensures var w := run[i];
            (forall k :: 0 <= k < |w.got| ==> 1 <= w.got[k].0 <= |w.sent| && w.got[k].1 == w.sent[w.got[k].0 - 1])
            && (forall j, k :: 0 <= j < k < |w.got| ==> w.got[j].0 < w.got[k].0)
            && (forall k :: 1 <= k < w.client.expected ==>
                  (SoupRuns.Got(w.got, k) <==> k !in w.skipped) && (k in w.skipped ==> k < Oldest(|w.sent|, cap)))
  {
    hide Oldest, SoupRuns.Streaming, SoupRuns.Stalled, SoupRuns.Awaiting, Carries, IsRun;
    RunInv(run, actions, cap, id, i);
    var pkts := InFlight(run[i], cap, id);
    assert SoupRuns.Accounted(View(run[i], pkts), cap);
  }

  /** While everything sent still fits the store, nothing is lost: the client has exactly a prefix. */
  lemma NoLossWithinStore(run: seq<Wired>, actions: seq<Action>, cap: nat, id: seq<u8>, i: nat)
    requires IsRun(run, actions, cap, id) && i < |run| && |run[i].sent| <= cap
    ensures |run[i].got| == run[i].client.expected - 1 <= |run[i].sent|
    ensures forall k :: 0 <= k < |run[i].got| ==> run[i].got[k] == (k + 1, run[i].sent[k])
  {
    hide SoupRuns.Accounted, SoupRuns.Streaming, SoupRuns.Stalled, SoupRuns.Awaiting, Carries, IsRun;
    RunInv(run, actions, cap, id, i);
    var pkts := InFlight(run[i], cap, id);
    SoupRuns.GotIsPrefix(View(run[i], pkts), cap);
  }

  /**
   Once every byte of a live connection has arrived, the client is logged in and expects the server's next
   number, or it stopped at an empty message.
   */
  lemma CaughtUp(run: seq<Wired>, actions: seq<Action>, cap: nat, id: seq<u8>, i: nat)
    requires IsRun(run, actions, cap, id) && i < |run|
    requires run[i].link.Some? && run[i].link.value.flying == []
    ensures var c := run[i].client;
            1 <= c.expected && (if c.loggedIn then c.expected == |run[i].sent| + 1
                                else c.expected <= |run[i].sent| && run[i].sent[c.expected - 1] == [])
  {
    hide SoupRuns.Accounted, Parse, Wire, Data, BuildAccepted;
    RunInv(run, actions, cap, id, i);
    var w := run[i];
    var pkts := InFlight(w, cap, id);
    assert w.link.value.unread + [] == w.link.value.unread;
    ParseInvertsWire(pkts);
    assert SoupRuns.Streaming(View(w, [])) || SoupRuns.Stalled(View(w, []));
  }
}
