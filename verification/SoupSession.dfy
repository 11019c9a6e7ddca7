/** SoupBinTCP sessions: login, sequenced replay from the store, and the client's expected sequence. */
module SoupSession {
  import opened Common
  import opened Bytes
  import opened SoupPacket

  // ---------------------------------------------------------------- login packets

  const USERNAME_LEN: nat := 6
  const PASSWORD_LEN: nat := 10

  datatype LoginRequest = LoginRequest(session: seq<u8>, sequence: nat)

  function PadLeft(s: seq<u8>, len: nat): (r: seq<u8>)
    ensures |r| == len
  {
    var take := Min(|s|, len);
    s[..take] + Spaces(len - take)
  }

  function PadRight(s: seq<u8>, len: nat): (r: seq<u8>)
    ensures |r| == len
  {
    var take := Min(|s|, len);
    Spaces(len - take) + s[..take]
  }

  function BuildLogin(user: seq<u8>, password: seq<u8>, session: seq<u8>, sequence: nat): Packet
    requires sequence < TWO_64
  {
    Packet(LOGIN_REQUEST,
           PadLeft(user, USERNAME_LEN) + PadLeft(password, PASSWORD_LEN) + PadRight(session, SESSION_LEN)
           + SequenceField(sequence))
  }

  /** A field that is not all there reads as empty. */
  function Field(p: seq<u8>, off: nat, len: nat): seq<u8> {
    if off + len > |p| then [] else p[off..off + len]
  }

  function ParseLogin(p: seq<u8>): LoginRequest {
    LoginRequest(TrimBytes(Field(p, 16, SESSION_LEN)), ReadNumber(Field(p, 26, SEQUENCE_LEN)))
  }

  function BuildAccepted(session: seq<u8>, sequence: nat): Packet
    requires sequence < TWO_64
  {
    Packet(LOGIN_ACCEPTED, PadRight(session, SESSION_LEN) + SequenceField(sequence))
  }

  function AcceptedSequence(p: seq<u8>): nat {
    ReadNumber(Field(p, SESSION_LEN, SEQUENCE_LEN))
  }

  /** What is left of a session name after its field is padded, cut and trimmed. */
  function NameOnWire(session: seq<u8>): seq<u8> {
    TrimBytes(session[..Min(|session|, SESSION_LEN)])
  }

  /** The name reads back as itself, or as the empty name that matches any session. */
  predicate NameSurvives(session: seq<u8>) {
    NameOnWire(session) == [] || NameOnWire(session) == session
  }

  lemma {:induction false} TrimSpaces(k: nat, s: seq<u8>)
    ensures TrimBytes(Spaces(k) + s) == TrimBytes(s)
  {
    hide TrimBytes;
    if k == 0 {
      assert Spaces(0) + s == s;
    } else {
      TrimSpaces(k - 1, s);
      TrimOne(Spaces(k - 1) + s);
      assert [32] + (Spaces(k - 1) + s) == Spaces(k) + s;
    }
  }

  /** Every login request reads back with its sequence and the name as the field leaves it. */
  lemma LoginRoundTrip(user: seq<u8>, password: seq<u8>, session: seq<u8>, sequence: nat)
    requires sequence < TWO_64
    ensures ParseLogin(BuildLogin(user, password, session, sequence).payload)
        == LoginRequest(NameOnWire(session), sequence)
  {
    hide PadLeft, SequenceField, TrimBytes, ReadNumber, Spaces;
    var p := BuildLogin(user, password, session, sequence).payload;
    var take := Min(|session|, SESSION_LEN);
    assert p[16..26] == PadRight(session, SESSION_LEN);
    assert p[26..46] == SequenceField(sequence);
    TrimSpaces(SESSION_LEN - take, session[..take]);
    SequenceFieldRoundTrip(sequence);
  }

  lemma AcceptedRoundTrip(session: seq<u8>, sequence: nat)
    requires sequence < TWO_64
    ensures AcceptedSequence(BuildAccepted(session, sequence).payload) == sequence
  {
    hide PadRight, SequenceField, ReadNumber;
    var p := BuildAccepted(session, sequence).payload;
    assert p[SESSION_LEN..SESSION_LEN + SEQUENCE_LEN] == SequenceField(sequence);
    SequenceFieldRoundTrip(sequence);
  }

  // ---------------------------------------------------------------- server

  datatype Error = NotLoggedIn | LoginRejected(reason: u8) | UnexpectedPacket(kind: u8)

  datatype Actions = Actions(outbound: seq<Packet>, close: bool)

  datatype Outcome = Done(actions: Actions) | Failed(error: Error)

  /** The oldest number a store of `cap` still holds after `n` messages; a store keeps at least one. */
  function Oldest(n: nat, cap: nat): (k: nat)
    ensures k >= 1
  {
    n - Min(n, Max(cap, 1)) + 1
  }

  function Range(lo: nat, hi: nat): (r: set<nat>)
    requires lo <= hi
    ensures forall k: nat :: k in r <==> lo <= k < hi
    ensures |r| == hi - lo
    decreases hi
  {
    if lo == hi then {} else Range(lo, hi - 1) + {hi - 1}
  }

  function Message(sent: seq<seq<u8>>, k: nat): seq<u8>
    requires 1 <= k <= |sent|
  {
    sent[k - 1]
  }

  function Retained(sent: seq<seq<u8>>, cap: nat): map<nat, seq<u8>> {
    var keys := Range(Oldest(|sent|, cap), |sent| + 1);
    map k | k in keys :: Message(sent, k)
  }

  /** The smallest key of a store. */
  ghost predicate IsFirstKey(store: map<nat, seq<u8>>, k: nat) {
    k in store && forall j :: j in store ==> k <= j
  }

  lemma OldestIsFirst(sent: seq<seq<u8>>, cap: nat)
    ensures sent == [] <==> Retained(sent, cap) == map[]
    ensures sent != [] ==> IsFirstKey(Retained(sent, cap), Oldest(|sent|, cap))
  {
    var store := Retained(sent, cap);
    if sent == [] {
      assert store.Keys == {};
    } else {
      assert Oldest(|sent|, cap) in store;
    }
  }

  function StartOf(requested: nat, n: nat, cap: nat): (s: nat)
    ensures 1 <= s <= n + 1 && s >= Oldest(n, cap)
  {
    var next := n + 1;
    Max(if requested == 0 || requested > next then next else requested, Oldest(n, cap))
  }

  function Data(msgs: seq<seq<u8>>): (r: seq<Packet>)
    ensures |r| == |msgs|
  {
    seq(|msgs|, i requires 0 <= i < |msgs| => Packet(SEQUENCED_DATA, msgs[i]))
  }

  /** The answer to a login: a rejection, or the granted start followed by everything retained from it on. */
  function LoginReply(sent: seq<seq<u8>>, cap: nat, id: seq<u8>, req: LoginRequest): Actions
    requires |sent| + 1 < TWO_64
  {
    if req.session != [] && req.session != id then
      Actions([Packet(LOGIN_REJECTED, [REJECT_SESSION_UNAVAILABLE])], true)
    else
      var start := StartOf(req.sequence, |sent|, cap);
      Actions([BuildAccepted(id, start)] + Data(sent[start - 1..]), false)
  }

  /**
   What a login gets. A request for another session is rejected and the connection closed. Any other is
   granted a start and sent every message from there on: the number asked for if the store has it or it is
   the next one, the oldest one kept if that number has left the store, and the next one if it asks for 0 or
   for a number beyond.
   */
  lemma LoginGranted(sent: seq<seq<u8>>, cap: nat, id: seq<u8>, req: LoginRequest)
    requires |sent| + 1 < TWO_64
    ensures var a, next, store := LoginReply(sent, cap, id, req), |sent| + 1, Retained(sent, cap);
      if req.session != [] && req.session != id then
        a == Actions([Packet(LOGIN_REJECTED, [REJECT_SESSION_UNAVAILABLE])], true)
      else
        && !a.close && a.outbound != [] && a.outbound[0].kind == LOGIN_ACCEPTED
        && var start := AcceptedSequence(a.outbound[0].payload);
           && Granted(req.sequence, next, store, start) && |a.outbound| == 1 + (next - start)
           && forall i :: 0 <= i < |sent[start - 1..]| ==>
                a.outbound[1..][i] == Packet(SEQUENCED_DATA, sent[start - 1..][i])
  {
    hide BuildAccepted, AcceptedSequence, Retained, StartOf, Granted;
    var start := StartOf(req.sequence, |sent|, cap);
    AcceptedRoundTrip(id, start);
    GrantedByRule(sent, cap, req.sequence);
    AcceptedKind(id, start);
    var a := LoginReply(sent, cap, id, req);
    if !(req.session != [] && req.session != id) {
      assert a.outbound[0] == BuildAccepted(id, start) && a.outbound[1..] == Data(sent[start - 1..]);
    }
  }

  /** The rule for the start of a login that asks for `requested`. */
  ghost predicate Granted(requested: nat, next: nat, store: map<nat, seq<u8>>, start: nat) {
    && 1 <= start <= next
    && (requested == 0 || requested > next ==> start == next)
    && (requested == next || requested in store ==> start == requested)
    && (1 <= requested < next && requested !in store ==> IsFirstKey(store, start))
  }

  lemma GrantedByRule(sent: seq<seq<u8>>, cap: nat, requested: nat)
    ensures Granted(requested, |sent| + 1, Retained(sent, cap), StartOf(requested, |sent|, cap))
  {
    hide Retained, IsFirstKey;
    RetainedAt(sent, cap, requested);
    OldestIsFirst(sent, cap);
  }

  lemma AcceptedKind(id: seq<u8>, start: nat)
    requires start < TWO_64
    ensures BuildAccepted(id, start).kind == LOGIN_ACCEPTED
  {
  }

  lemma EvictsOldest(sent: seq<seq<u8>>, cap: nat, p: seq<u8>)
    ensures var store := Retained(sent, cap);
            var n := |sent|;
            Retained(sent + [p], cap)
            == (if |store| >= cap && n > 0 then store - {Oldest(n, cap)} else store)[n + 1 := p]
  {
    hide Retained, Range;
    var store, n := Retained(sent, cap), |sent|;
    StoreSize(sent, cap);
    var kept := if |store| >= cap && n > 0 then store - {Oldest(n, cap)} else store;
    var after := kept[n + 1 := p];
    var want := Retained(sent + [p], cap);
    forall k: nat ensures (k in want <==> k in after) && (k in want ==> want[k] == after[k]) {
      RetainedAt(sent, cap, k);
      RetainedAt(sent + [p], cap, k);
    }
    assert want.Keys == after.Keys;
  }

  lemma RetainedAt(sent: seq<seq<u8>>, cap: nat, k: nat)
    ensures k in Retained(sent, cap) <==> Oldest(|sent|, cap) <= k <= |sent|
    ensures k in Retained(sent, cap) ==> Retained(sent, cap)[k] == sent[k - 1]
  {
  }

  lemma StoreSize(sent: seq<seq<u8>>, cap: nat)
    ensures |Retained(sent, cap)| == Min(|sent|, Max(cap, 1))
  {
    assert Retained(sent, cap).Keys == Range(Oldest(|sent|, cap), |sent| + 1);
  }

  class ServerSession {
    const sessionId: seq<u8>
    const storeCapacity: nat
    var nextSeq: nat
    var store: map<nat, seq<u8>>
    var loggedIn: bool
    ghost var sent: seq<seq<u8>>

    ghost predicate Valid()
      reads this
    {
      nextSeq == |sent| + 1 < TWO_64 && store == Retained(sent, storeCapacity)
    }

    constructor (id: seq<u8>, capacity: nat)
      requires |id| <= SESSION_LEN
      ensures Valid() && sent == [] && sessionId == id && storeCapacity == capacity && !loggedIn
    {
      sessionId := id;
      storeCapacity := capacity;
      nextSeq := 1;
      store := map[];
      loggedIn := false;
      sent := [];
    }

    /** The first key in order, if any. */
    method FirstKey() returns (r: Option<nat>)
      requires Valid()
      ensures r == if sent == [] then None else Some(Oldest(|sent|, storeCapacity))
    {
      OldestIsFirst(sent, storeCapacity);
      if store == map[] {
        return None;
      }
      var k :| k in store && forall j :: j in store ==> k <= j;
      r := Some(k);
    }

    /** Number and store a message, dropping the oldest when the store is full. */
    method Enqueue(payload: seq<u8>) returns (s: nat)
      requires Valid() && nextSeq + 1 < TWO_64
      modifies this
      ensures Valid() && sent == old(sent) + [payload] && s == |sent| && loggedIn == old(loggedIn)
    {
      hide Retained, Oldest;
      EvictsOldest(sent, storeCapacity, payload);
      s := nextSeq;
      if |store| >= storeCapacity {
        var oldest := FirstKey();
        if oldest.Some? {
          store := store - {oldest.value};
        }
      }
      nextSeq := nextSeq + 1;
      store := store[s := payload];
      sent := sent + [payload];
    }

    /** Grant a login and replay the store from the granted start. */
    method HandleLogin(req: LoginRequest) returns (a: Actions)
      requires Valid()
      modifies this`loggedIn
      ensures Valid() && a == LoginReply(sent, storeCapacity, sessionId, req)
      ensures loggedIn == (old(loggedIn) || !a.close)
    {
      hide BuildAccepted, Retained, Data;
      if req.session != [] && req.session != sessionId {
        return Actions([Packet(LOGIN_REJECTED, [REJECT_SESSION_UNAVAILABLE])], true);
      }
      var start := if req.sequence == 0 || req.sequence > nextSeq then nextSeq else req.sequence;
      var storeStart := FirstKey();
      start := Max(start, if storeStart.Some? then storeStart.value else nextSeq);
      assert start == StartOf(req.sequence, |sent|, storeCapacity);
      loggedIn := true;
      var out := [BuildAccepted(sessionId, start)];
      var replayed := [];
      if start < nextSeq {
        replayed := Replay(start);
      } else {
        assert Data(sent[start - 1..]) == [];
      }
      a := Actions(out + replayed, false);
    }

    method Replay(start: nat) returns (out: seq<Packet>)
      requires Valid() && Oldest(|sent|, storeCapacity) <= start <= nextSeq
      ensures out == Data(sent[start - 1..])
    {
      out := [];
      var k := start;
      while k < nextSeq
        invariant start <= k <= nextSeq
        invariant out == Data(sent[start - 1..k - 1])
      {
        if k in store {
          out := out + [Packet(SEQUENCED_DATA, store[k])];
        }
        k := k + 1;
      }
      assert sent[start - 1..k - 1] == sent[start - 1..];
    }

    /** One packet from the client. */
    method HandlePacket(pkt: Packet) returns (r: Outcome)
      requires Valid()
      modifies this`loggedIn
      ensures Valid()
      ensures r == OnServer(sent, storeCapacity, sessionId, pkt)
      ensures pkt.kind == LOGOUT_REQUEST ==> r == Done(Actions([], true))
      ensures pkt.kind in {UNSEQUENCED_DATA, CLIENT_HEARTBEAT, DEBUG} ==> r == Done(Actions([], false))
      ensures pkt.kind !in {LOGIN_REQUEST, LOGOUT_REQUEST, UNSEQUENCED_DATA, CLIENT_HEARTBEAT, DEBUG} ==>
        r == Failed(UnexpectedPacket(pkt.kind))
      ensures loggedIn == (old(loggedIn) || (pkt.kind == LOGIN_REQUEST && !r.actions.close))
    {
      hide LoginReply, ParseLogin, Retained;
      r := Done(Actions([], false));
      if pkt.kind == LOGIN_REQUEST {
        var a := HandleLogin(ParseLogin(pkt.payload));
        return Done(a);
      } else if pkt.kind == LOGOUT_REQUEST {
        return Done(Actions([], true));
      } else if pkt.kind !in [UNSEQUENCED_DATA, CLIENT_HEARTBEAT, DEBUG] {
        return Failed(UnexpectedPacket(pkt.kind));
      }
    }
  }

  /** A session name longer than its field is refused. */
  method NewServer(id: seq<u8>, capacity: nat) returns (r: Option<ServerSession>)
    ensures r == None <==> |id| > SESSION_LEN
    ensures r.Some? ==> r.value.Valid() && r.value.sent == [] && r.value.sessionId == id
                        && r.value.storeCapacity == capacity && !r.value.loggedIn
  {
    if |id| > SESSION_LEN {
      return None;
    }
    var session := new ServerSession(id, capacity);
    r := Some(session);
  }

  function OnServer(sent: seq<seq<u8>>, cap: nat, id: seq<u8>, pkt: Packet): Outcome
    requires |sent| + 1 < TWO_64
  {
    if pkt.kind == LOGIN_REQUEST then Done(LoginReply(sent, cap, id, ParseLogin(pkt.payload)))
    else if pkt.kind == LOGOUT_REQUEST then Done(Actions([], true))
    else if pkt.kind in [UNSEQUENCED_DATA, CLIENT_HEARTBEAT, DEBUG] then Done(Actions([], false))
    else Failed(UnexpectedPacket(pkt.kind))
  }

  // ---------------------------------------------------------------- client

  datatype ClientState = ClientState(expected: nat, start: nat, loggedIn: bool)

  function OnClient(c: ClientState, pkt: Packet): (r: (ClientState, Outcome)) {
    if pkt.kind == LOGIN_ACCEPTED then
      var s := AcceptedSequence(pkt.payload);
      (ClientState(s, s, true), Done(Actions([], false)))
    else if pkt.kind == LOGIN_REJECTED then
      (c, Failed(LoginRejected(if pkt.payload == [] then 0 else pkt.payload[0])))
    else if pkt.kind == SEQUENCED_DATA then
      if !c.loggedIn then (c, Failed(NotLoggedIn))
      else if pkt.payload == [] then (c.(loggedIn := false), Done(Actions([], false)))
      else (c.(expected := c.expected + 1), Done(Actions([], false)))
    else if pkt.kind == SERVER_HEARTBEAT || pkt.kind == DEBUG then (c, Done(Actions([], false)))
    else if pkt.kind == END_OF_SESSION then (c.(loggedIn := false), Done(Actions([], true)))
    else (c, Failed(UnexpectedPacket(pkt.kind)))
  }

  class ClientSession {
    const sessionId: seq<u8>
    var expectedSeq: nat
    var startSeq: nat
    var loggedIn: bool

    function State(): ClientState
      reads this
    {
      ClientState(expectedSeq, startSeq, loggedIn)
    }

    constructor (id: seq<u8>)
      ensures sessionId == id && State() == ClientState(1, 0, false)
    {
      sessionId := id;
      expectedSeq := 1;
      startSeq := 0;
      loggedIn := false;
    }

    method HandlePacket(pkt: Packet) returns (r: Outcome)
      modifies this
      ensures (State(), r) == OnClient(old(State()), pkt)
      ensures pkt.kind == LOGIN_REJECTED ==> State() == old(State()) && r.Failed? && r.error.LoginRejected?
      ensures pkt.kind == END_OF_SESSION ==>
          !loggedIn && expectedSeq == old(expectedSeq) && r == Done(Actions([], true))
      ensures pkt.kind in {SERVER_HEARTBEAT, DEBUG} ==> State() == old(State()) && r == Done(Actions([], false))
    {
      hide AcceptedSequence;
      r := Done(Actions([], false));
      if pkt.kind == LOGIN_ACCEPTED {
        startSeq := AcceptedSequence(pkt.payload);
        expectedSeq := startSeq;
        loggedIn := true;
      } else if pkt.kind == LOGIN_REJECTED {
        return Failed(LoginRejected(if pkt.payload == [] then 0 else pkt.payload[0]));
      } else if pkt.kind == SEQUENCED_DATA {
        if !loggedIn {
          return Failed(NotLoggedIn);
        }
        if pkt.payload == [] {
          loggedIn := false;
          return;
        }
        expectedSeq := expectedSeq + 1;
      } else if pkt.kind == END_OF_SESSION {
        loggedIn := false;
        return Done(Actions([], true));
      } else if pkt.kind != SERVER_HEARTBEAT && pkt.kind != DEBUG {
        return Failed(UnexpectedPacket(pkt.kind));
      }
    }
  }

  /** The message a packet delivers to the application, if the client accepts it. */
  predicate Accepts(c: ClientState, pkt: Packet) {
    pkt.kind == SEQUENCED_DATA && c.loggedIn && pkt.payload != []
  }

  /** The client after a run of packets, and the messages it accepted. */
  function OnAll(c: ClientState, pkts: seq<Packet>): (ClientState, seq<seq<u8>>)
    decreases |pkts|
  {
    if pkts == [] then (c, [])
    else
      var rest := OnAll(OnClient(c, pkts[0]).0, pkts[1..]);
      (rest.0, (if Accepts(c, pkts[0]) then [pkts[0].payload] else []) + rest.1)
  }

  // ---------------------------------------------------------------- re-login

  predicate NonEmpty(msgs: seq<seq<u8>>) {
    forall i :: 0 <= i < |msgs| ==> msgs[i] != []
  }

  lemma DataTail(msgs: seq<seq<u8>>)
    requires msgs != []
    ensures Data(msgs)[0] == Packet(SEQUENCED_DATA, msgs[0]) && Data(msgs)[1..] == Data(msgs[1..])
  {
  }

  lemma {:induction false} LoggedOutIgnores(c: ClientState, msgs: seq<seq<u8>>)
    requires !c.loggedIn
    ensures OnAll(c, Data(msgs)) == (c, [])
    decreases |msgs|
  {
    hide Data, AcceptedSequence;
    if msgs == [] {
      assert Data(msgs) == [];
    } else {
      DataTail(msgs);
      LoggedOutIgnores(c, msgs[1..]);
      var none: seq<seq<u8>> := [];
      assert none + none == none;
    }
  }

  /** A logged-in client takes every message of a replay, exactly when none is empty. */
  lemma {:induction false} ReplayAccepted(c: ClientState, msgs: seq<seq<u8>>)
    requires c.loggedIn
    ensures NonEmpty(msgs) ==> OnAll(c, Data(msgs)) == (c.(expected := c.expected + |msgs|), msgs)
    ensures !NonEmpty(msgs) ==>
              !OnAll(c, Data(msgs)).0.loggedIn && OnAll(c, Data(msgs)).0.expected < c.expected + |msgs|
    decreases |msgs|
  {
    hide Data, AcceptedSequence;
    if msgs == [] {
      assert Data(msgs) == [];
    } else {
      DataTail(msgs);
      var rest := msgs[1..];
      assert NonEmpty(msgs) <==> msgs[0] != [] && NonEmpty(rest);
      if msgs[0] == [] {
        LoggedOutIgnores(c.(loggedIn := false), rest);
      } else {
        ReplayAccepted(c.(expected := c.expected + 1), rest);
        assert [msgs[0]] + rest == msgs;
      }
    }
  }

  /** The packets a client gets back when it logs in again. */
  function Relogin(sent: seq<seq<u8>>, cap: nat, id: seq<u8>, user: seq<u8>, password: seq<u8>, c: ClientState)
    : (r: Outcome)
    requires |sent| + 1 < TWO_64 && c.expected < TWO_64
    ensures r.Done?
  {
    OnServer(sent, cap, id, BuildLogin(user, password, id, c.expected))
  }

  lemma ReloginReply(sent: seq<seq<u8>>, cap: nat, id: seq<u8>, user: seq<u8>, password: seq<u8>, c: ClientState)
    requires |sent| + 1 < TWO_64 && c.expected < TWO_64
    ensures var start := StartOf(c.expected, |sent|, cap);
            Relogin(sent, cap, id, user, password, c)
            == Done(if NameSurvives(id) then Actions([BuildAccepted(id, start)] + Data(sent[start - 1..]), false)
                    else Actions([Packet(LOGIN_REJECTED, [REJECT_SESSION_UNAVAILABLE])], true))
  {
    hide BuildAccepted, StartOf, ParseLogin, NameOnWire;
    LoginRoundTrip(user, password, id, c.expected);
  }

  /**
   After a re-login over a byte stream cut in any way, the client has accepted exactly the
   retained messages from the granted start and expects the server's next number, if and only if
   none of those messages is empty. A name that does not survive its field is turned away instead.
   */
  lemma ReloginExact(sent: seq<seq<u8>>, cap: nat, id: seq<u8>, user: seq<u8>, password: seq<u8>, c: ClientState,
                     chunks: seq<seq<u8>>)
    requires |sent| + 1 < TWO_64 && c.expected < TWO_64
    requires forall i :: 0 <= i < |sent| ==> |sent[i]| <= MAX_PAYLOAD
    requires Concat(chunks) == Wire(Relogin(sent, cap, id, user, password, c).actions.outbound)
    ensures Receive(chunks).1 == []
    ensures !NameSurvives(id) ==> OnAll(c, Receive(chunks).0) == (c, [])
    ensures NameSurvives(id) ==>
              var start := StartOf(c.expected, |sent|, cap);
              var after := OnAll(c, Receive(chunks).0);
              (after.0.loggedIn && after.0.expected == |sent| + 1 <==> NonEmpty(sent[start - 1..]))
              && (NonEmpty(sent[start - 1..]) ==> after.1 == sent[start - 1..])
  {
    hide Relogin, StartOf, Data, Wire, Receive, Concat, BuildAccepted, NonEmpty, Parse, AcceptedSequence, NameSurvives;
    ReloginReply(sent, cap, id, user, password, c);
    var start := StartOf(c.expected, |sent|, cap);
    var msgs := sent[start - 1..];
    ChunkingInvisible(chunks);
    if NameSurvives(id) {
      var accepted := BuildAccepted(id, start);
      var out := [accepted] + Data(msgs);
      assert Sendable(out) by { ReplySendable(id, start, msgs); }
      ParseInvertsWire(out);
      assert out[0] == accepted && out[1..] == Data(msgs);
      var c' := ClientState(start, start, true);
      GrantedStart(c, id, start);
      ReplayAccepted(c', msgs);
      assert [] + OnAll(c', Data(msgs)).1 == OnAll(c', Data(msgs)).1;
    } else {
      TurnedAway(c);
      ParseInvertsWire([Packet(LOGIN_REJECTED, [REJECT_SESSION_UNAVAILABLE])]);
    }
  }

  lemma TurnedAway(c: ClientState)
    ensures OnAll(c, [Packet(LOGIN_REJECTED, [REJECT_SESSION_UNAVAILABLE])]) == (c, [])
  {
    var pkts := [Packet(LOGIN_REJECTED, [REJECT_SESSION_UNAVAILABLE])];
    assert pkts[1..] == [];
    var none: seq<seq<u8>> := [];
    assert none + none == none;
  }

  /** A single empty message is retained; the client that logs in again is logged out by it. */
  lemma EmptyMessageExample(user: seq<u8>, password: seq<u8>)
    ensures var c := ClientState(1, 0, false);
            var chunks := [Wire(Relogin([[]], 1, [], user, password, c).actions.outbound)];
            var after := OnAll(c, Receive(chunks).0).0;
            !(after.loggedIn && after.expected == 2)
  {
    hide Relogin, Wire, Receive, Concat, OnAll;
    var c := ClientState(1, 0, false);
    var chunks := [Wire(Relogin([[]], 1, [], user, password, c).actions.outbound)];
    assert Concat(chunks) == chunks[0] by { ConcatOne(chunks[0]); }
    ReloginExact([[]], 1, [], user, password, c, chunks);
    var sent: seq<seq<u8>> := [[]];
    assert StartOf(1, |sent|, 1) == 1 && sent[0..][0] == [];
    assert NameOnWire([]) == [];
  }

  /** A name that starts with a space is accepted for a session, but no login with it ever is. */
  lemma SpacedNameExample()
    ensures |[32, 97]| <= SESSION_LEN && !NameSurvives([32, 97])
  {
    var id: seq<u8> := [32, 97];
    assert id[..2] == id && id[1..] == [97];
    assert TrimBytes([97]) == [97];
  }

  lemma ConcatOne(chunk: seq<u8>)
    ensures Concat([chunk]) == chunk
  {
    assert [chunk][..0] == [];
    assert [] + chunk == chunk;
  }

  lemma GrantedStart(c: ClientState, id: seq<u8>, start: nat)
    requires start < TWO_64
    ensures OnClient(c, BuildAccepted(id, start)).0 == ClientState(start, start, true)
    ensures !Accepts(c, BuildAccepted(id, start))
  {
    hide AcceptedSequence, PadRight, SequenceField;
    AcceptedRoundTrip(id, start);
  }

  lemma ReplySendable(id: seq<u8>, start: nat, msgs: seq<seq<u8>>)
    requires start < TWO_64 && forall i :: 0 <= i < |msgs| ==> |msgs[i]| <= MAX_PAYLOAD
    ensures Sendable([BuildAccepted(id, start)] + Data(msgs))
  {
    hide PadRight, SequenceField;
  }
}
