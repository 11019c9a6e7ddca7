/** A SoupBinTCP session packet by packet: new messages, deliveries, broken connections, re-logins. */
module SoupRuns {
  import opened Common
  import opened Bytes
  import opened SoupPacket
  import opened SoupSession

  /**
   `channel` is the ordered connection to the client, if one is up. `got` records each message the
   client accepted under the number it was expecting; `skipped` the numbers a login passed over.
   */
  datatype System = System(
    sent: seq<seq<u8>>, client: ClientState, channel: Option<seq<Packet>>,
    got: seq<(nat, seq<u8>)>, skipped: set<nat>)

  datatype Action = Enqueue(payload: seq<u8>) | Login(user: seq<u8>, password: seq<u8>) | Deliver | Disconnect

  predicate Enabled(s: System, a: Action) {
    match a
    case Enqueue(p) => |p| <= MAX_PAYLOAD && |s.sent| + 2 < TWO_64
    case Login(_, _) => s.client.expected < TWO_64 && |s.sent| + 1 < TWO_64
    case Deliver => s.channel.Some? && s.channel.value != []
    case Disconnect => true
  }

  function Do(s: System, a: Action, cap: nat, id: seq<u8>): System
    requires Enabled(s, a)
  {
    match a
    case Enqueue(p) =>
      s.(sent := s.sent + [p],
         channel := if s.channel.Some? then Some(s.channel.value + [Packet(SEQUENCED_DATA, p)]) else None)
    case Login(user, password) =>
      var r := Relogin(s.sent, cap, id, user, password, s.client);
      s.(channel := if !r.actions.close then Some(r.actions.outbound) else None)
    case Deliver => OnFront(s, s.channel.value[0], s.channel.value[1..])
    case Disconnect => s.(channel := None)
  }

  function OnFront(s: System, pkt: Packet, rest: seq<Packet>): System {
    var client' := OnClient(s.client, pkt).0;
    s.(client := client', channel := Some(rest),
       got := if Accepts(s.client, pkt) then s.got + [(s.client.expected, pkt.payload)] else s.got,
       skipped := if pkt.kind == LOGIN_ACCEPTED && s.client.expected <= client'.expected
                  then s.skipped + Range(s.client.expected, client'.expected) else s.skipped)
  }

  // ---------------------------------------------------------------- invariant

  /** A login has been granted at `start` and its grant is still on the way. */
  ghost predicate Awaiting(s: System, cap: nat, id: seq<u8>, start: nat) {
    && s.channel.Some? && 1 <= s.client.expected <= start <= |s.sent| + 1 < TWO_64
    && s.channel.value == [BuildAccepted(id, start)] + Data(s.sent[start - 1..])
    && (start > s.client.expected ==> start <= Oldest(|s.sent|, cap))
  }

  ghost predicate Streaming(s: System) {
    && s.channel.Some? && s.client.loggedIn && 1 <= s.client.expected <= |s.sent| + 1
    && s.channel.value == Data(s.sent[s.client.expected - 1..])
  }

  /** The client took the empty message it was expecting for the end of the session and ignores the rest. */
  ghost predicate Stalled(s: System) {
    && s.channel.Some? && !s.client.loggedIn
    && 1 <= s.client.expected <= |s.sent| && s.sent[s.client.expected - 1] == []
    && (forall i :: 0 <= i < |s.channel.value| ==> s.channel.value[i].kind == SEQUENCED_DATA)
  }

  ghost predicate Accounted(s: System, cap: nat) {
    && 1 <= s.client.expected <= |s.sent| + 1
    && (forall i :: 0 <= i < |s.got| ==>
          1 <= s.got[i].0 < s.client.expected && s.got[i].1 == s.sent[s.got[i].0 - 1] && s.got[i].0 !in s.skipped)
    && (forall i, j :: 0 <= i < j < |s.got| ==> s.got[i].0 < s.got[j].0)
    && (forall k :: 1 <= k < s.client.expected ==> k in s.skipped || Got(s.got, k))
    && (forall k :: k in s.skipped ==> 1 <= k < s.client.expected && k < Oldest(|s.sent|, cap))
    && (s.skipped == {} ==> |s.got| == s.client.expected - 1 && forall i :: 0 <= i < |s.got| ==> s.got[i].0 == i + 1)
  }

  predicate Got(got: seq<(nat, seq<u8>)>, k: nat) {
    exists i :: 0 <= i < |got| && got[i].0 == k
  }

  ghost predicate Inv(s: System, cap: nat, id: seq<u8>) {
    && 1 <= s.client.expected <= |s.sent| + 1 < TWO_64
    && Accounted(s, cap)
    && (s.channel == None || Streaming(s) || Stalled(s) || exists start: nat :: Awaiting(s, cap, id, start))
  }

  lemma DataSnoc(sent: seq<seq<u8>>, p: seq<u8>, from: nat)
    requires from <= |sent|
    ensures Data((sent + [p])[from..]) == Data(sent[from..]) + [Packet(SEQUENCED_DATA, p)]
  {
    assert (sent + [p])[from..] == sent[from..] + [p];
  }

  lemma OldestGrows(n: nat, cap: nat)
    ensures Oldest(n, cap) <= Oldest(n + 1, cap)
  {
  }

  lemma EnqueueKeeps(s: System, p: seq<u8>, cap: nat, id: seq<u8>)
    requires Inv(s, cap, id) && Enabled(s, Enqueue(p))
    ensures Inv(Do(s, Enqueue(p), cap, id), cap, id)
  {
    hide Data, BuildAccepted, Oldest, Got;
    var s' := Do(s, Enqueue(p), cap, id);
    OldestGrows(|s.sent|, cap);
    assert Accounted(s', cap);
    if s.channel.Some? {
      if Streaming(s) {
        DataSnoc(s.sent, p, s.client.expected - 1);
      } else if Stalled(s) {
        assert Stalled(s');
      } else {
        var start: nat :| Awaiting(s, cap, id, start);
        DataSnoc(s.sent, p, start - 1);
        assert [BuildAccepted(id, start)] + Data(s.sent[start - 1..]) + [Packet(SEQUENCED_DATA, p)]
               == [BuildAccepted(id, start)] + (Data(s.sent[start - 1..]) + [Packet(SEQUENCED_DATA, p)]);
        assert Awaiting(s', cap, id, start);
      }
    }
  }

  lemma LoginKeeps(s: System, user: seq<u8>, password: seq<u8>, cap: nat, id: seq<u8>)
    requires Inv(s, cap, id) && Enabled(s, Login(user, password))
    ensures Inv(Do(s, Login(user, password), cap, id), cap, id)
  {
    hide Data, BuildAccepted, Relogin, Got, NameSurvives;
    ReloginReply(s.sent, cap, id, user, password, s.client);
    var s' := Do(s, Login(user, password), cap, id);
    assert Accounted(s', cap);
    if NameSurvives(id) {
      assert Awaiting(s', cap, id, StartOf(s.client.expected, |s.sent|, cap));
    }
  }

  /** The grant arrives: the numbers between the expected one and the start have left the store. */
  lemma GrantKeeps(s: System, cap: nat, id: seq<u8>, start: nat)
    requires Inv(s, cap, id) && Awaiting(s, cap, id, start)
    ensures Inv(Do(s, Deliver, cap, id), cap, id)
  {
    hide Data, BuildAccepted, Oldest, Accounted, Got, OnFront;
    var rest := Data(s.sent[start - 1..]);
    assert s.channel.value[0] == BuildAccepted(id, start) && s.channel.value[1..] == rest;
    GrantStep(s, id, start, rest);
    var s' := Do(s, Deliver, cap, id);
    AccountsSkip(s, s', cap, start);
    assert Streaming(s');
  }

  lemma GrantStep(s: System, id: seq<u8>, start: nat, rest: seq<Packet>)
    requires start < TWO_64 && s.client.expected <= start
    ensures OnFront(s, BuildAccepted(id, start), rest)
            == System(s.sent, ClientState(start, start, true), Some(rest), s.got,
                s.skipped + Range(s.client.expected, start))
  {
    hide BuildAccepted, OnClient, Accepts, Range;
    GrantedStart(s.client, id, start);
    AcceptedKind(id, start);
  }

  lemma AccountsSkip(s: System, s': System, cap: nat, start: nat)
    requires Accounted(s, cap) && s.client.expected <= start <= |s.sent| + 1
    requires start > s.client.expected ==> start <= Oldest(|s.sent|, cap)
    requires s'.sent == s.sent && s'.got == s.got && s'.client.expected == start
    requires s'.skipped == s.skipped + Range(s.client.expected, start)
    ensures Accounted(s', cap)
  {
    hide Oldest, Got, Range;
    var e := s.client.expected;
    if start > e {
      assert e in s'.skipped;
      forall k | 1 <= k < start ensures k in s'.skipped || Got(s'.got, k) {
        assert k < e || k in Range(e, start);
      }
    } else {
      assert s'.skipped == s.skipped;
    }
  }

  /** The next message arrives under the number the client expects. An empty one stalls the client. */
  lemma MessageKeeps(s: System, cap: nat, id: seq<u8>)
    requires Inv(s, cap, id) && Streaming(s) && Enabled(s, Deliver)
    ensures Inv(Do(s, Deliver, cap, id), cap, id)
  {
    hide BuildAccepted, Oldest, Got, AcceptedSequence;
    var e := s.client.expected;
    var msgs := s.sent[e - 1..];
    assert |msgs| == |s.channel.value|;
    DataTail(msgs);
    assert msgs[1..] == s.sent[e..] && msgs[0] == s.sent[e - 1];
    var s' := Do(s, Deliver, cap, id);
    if msgs[0] == [] {
      assert s'.got == s.got && s'.client == s.client.(loggedIn := false) && s'.skipped == s.skipped;
      assert Accounted(s', cap) by { AccountsSame(s, s', cap); }
      assert Stalled(s');
    } else {
      assert s'.got == s.got + [(e, s.sent[e - 1])] && s'.client == s.client.(expected := e + 1);
      AccountsOne(s, s', cap);
    }
  }

  lemma AccountsSame(s: System, s': System, cap: nat)
    requires Accounted(s, cap) && s'.sent == s.sent && s'.got == s.got && s'.skipped == s.skipped
    requires s'.client.expected == s.client.expected
    ensures Accounted(s', cap)
  {
  }

  /** A stalled client ignores every further message. */
  lemma StalledKeeps(s: System, cap: nat, id: seq<u8>)
    requires Inv(s, cap, id) && Stalled(s) && Enabled(s, Deliver)
    ensures Inv(Do(s, Deliver, cap, id), cap, id)
  {
    hide BuildAccepted, Oldest, Got, AcceptedSequence, Accounted;
    var s' := Do(s, Deliver, cap, id);
    assert s'.client == s.client && s'.got == s.got && s'.skipped == s.skipped;
    AccountsSame(s, s', cap);
    assert Stalled(s');
  }

  lemma AccountsOne(s: System, s': System, cap: nat)
    requires Accounted(s, cap) && 1 <= s.client.expected <= |s.sent|
    requires s'.sent == s.sent && s'.skipped == s.skipped && s'.client.expected == s.client.expected + 1
    requires s'.got == s.got + [(s.client.expected, s.sent[s.client.expected - 1])]
    ensures Accounted(s', cap)
  {
    hide Oldest, Got;
    forall k | 1 <= k < s'.client.expected ensures k in s'.skipped || Got(s'.got, k) {
      if k == s.client.expected || k !in s.skipped {
        GotGrows(s.got, s'.got[|s.got|], k);
      }
    }
  }

  lemma GotGrows(got: seq<(nat, seq<u8>)>, m: (nat, seq<u8>), k: nat)
    requires Got(got, k) || m.0 == k
    ensures Got(got + [m], k)
  {
    if m.0 == k {
      assert (got + [m])[|got|].0 == k;
    } else {
      var i :| 0 <= i < |got| && got[i].0 == k;
      assert (got + [m])[i].0 == k;
    }
  }

  lemma DoKeeps(s: System, a: Action, cap: nat, id: seq<u8>)
    requires Inv(s, cap, id) && Enabled(s, a)
    ensures Inv(Do(s, a, cap, id), cap, id)
  {
    hide Accounted, Streaming, Stalled, Awaiting, Relogin, OnFront;
    match a
    case Enqueue(p) => EnqueueKeeps(s, p, cap, id);
    case Login(user, password) => LoginKeeps(s, user, password, cap, id);
    case Disconnect => AccountsSame(s, s.(channel := None), cap);
    case Deliver =>
      if Streaming(s) {
        MessageKeeps(s, cap, id);
      } else if Stalled(s) {
        StalledKeeps(s, cap, id);
      } else {
        var start: nat :| Awaiting(s, cap, id, start);
        GrantKeeps(s, cap, id, start);
      }
  }


  lemma NothingSkipped(s: System, cap: nat)
    requires Accounted(s, cap) && |s.sent| <= cap
    ensures s.skipped == {}
  {
    if s.skipped != {} {
      var k := AnyMember(s.skipped);
    }
  }

  /** With nothing evicted, what the client got is exactly a prefix of what was sent. */
  lemma GotIsPrefix(s: System, cap: nat)
    requires Accounted(s, cap) && |s.sent| <= cap
    ensures |s.got| == s.client.expected - 1 <= |s.sent|
    ensures forall k :: 0 <= k < |s.got| ==> s.got[k] == (k + 1, s.sent[k])
  {
    hide Got, Oldest;
    NothingSkipped(s, cap);
    forall k | 0 <= k < |s.got| ensures s.got[k] == (k + 1, s.sent[k]) {
      assert s.got[k].0 == k + 1;
    }
  }
}
