/** The single-producer single-consumer command ring: as an object, and under every interleaving. */
module Spsc {
  import opened Common
  import opened HpTypes
  import opened Bytes
  import opened SpscArith

  /** The buffer holds the commands pushed and not yet popped, each in its slot. */
  ghost predicate HoldsUnread(buf: seq<HpCommand>, cap: nat, pushed: seq<HpCommand>, from: nat) {
    && cap > 0 && |buf| == cap
    && forall k :: from <= k < |pushed| ==> buf[Slot(k, cap)] == pushed[k]
  }

  ghost predicate RingOk(buf: seq<HpCommand>, cap: nat, tail: nat, head: nat, pushed: seq<HpCommand>,
      popped: seq<HpCommand>) {
    && IsCapacity(cap)
    && tail == |pushed| % TWO_64 && head == |popped| % TWO_64
    && popped <= pushed && |pushed| - |popped| <= cap
    && HoldsUnread(buf, cap, pushed, |popped|)
  }

  /** Writing the next slot of a ring that is not full keeps every unread command. */
  lemma WriteKeeps(buf: seq<HpCommand>, cap: nat, pushed: seq<HpCommand>, from: nat, cmd: HpCommand)
    requires HoldsUnread(buf, cap, pushed, from) && from <= |pushed| < from + cap
    ensures HoldsUnread(buf[Slot(|pushed|, cap) := cmd], cap, pushed, from)
    ensures forall k :: from <= k < |pushed| ==> Slot(k, cap) != Slot(|pushed|, cap)
  {
    forall k | from <= k < |pushed| ensures Slot(k, cap) != Slot(|pushed|, cap) {
      SlotsApart(k, |pushed|, cap);
    }
  }

  lemma UnreadShrinks(buf: seq<HpCommand>, cap: nat, pushed: seq<HpCommand>, from: nat, to: nat)
    requires HoldsUnread(buf, cap, pushed, from) && from <= to
    ensures HoldsUnread(buf, cap, pushed, to)
  {
  }

  method CapacityBits(request: nat) returns (k: nat)
    requires request <= TWO_63
    ensures 1 <= k <= 63 && request <= Pow2(k)
    ensures k == 1 || Pow2(k - 1) < request
  {
    k := 1;
    Pow2Of64();
    while Pow2(k) < request
      invariant 1 <= k <= 63
      invariant k == 1 || Pow2(k - 1) < request
      decreases 63 - k
    {
      k := k + 1;
    }
  }

  lemma LeastCapacity(request: nat, k: nat)
    requires 1 <= k <= 63 && (k == 1 || Pow2(k - 1) < request)
    ensures forall c :: IsCapacity(c) && request <= c ==> Pow2(k) <= c
  {
    forall c | IsCapacity(c) && request <= c ensures Pow2(k) <= c {
      var j :| 1 <= j <= 63 && c == Pow2(j);
      if j < k {
        Pow2Grows(j, k - 1);
      } else {
        Pow2Grows(k, j);
      }
    }
  }

  class SpscRing {
    const cap: nat
    const buf: array<HpCommand>
    var tail: nat
    var head: nat
    /** Everything ever pushed and popped. */
    ghost var pushed: seq<HpCommand>
    ghost var popped: seq<HpCommand>

    ghost predicate Valid()
      reads this, buf
    {
      RingOk(buf[..], cap, tail, head, pushed, popped)
    }

    /** The capacity is the least power of two that is at least 2 and at least the request. */
    constructor (request: nat)
      requires request <= TWO_63
      ensures Valid() && fresh(buf) && pushed == [] && popped == []
      ensures request <= cap
      ensures forall c :: IsCapacity(c) && request <= c ==> cap <= c
    {
      var k := CapacityBits(request);
      LeastCapacity(request, k);
      cap := Pow2(k);
      buf := new HpCommand[Pow2(k)](_ => Cancel(0));
      tail := 0;
      head := 0;
      pushed := [];
      popped := [];
    }

    /** Enqueue unless the ring is full. */
    method TryPush(cmd: HpCommand) returns (ok: bool)
      requires Valid()
      modifies this`tail, this`pushed, buf
      ensures Valid()
      ensures ok <==> old(|pushed| - |popped|) < cap
      ensures pushed == if ok then old(pushed) + [cmd] else old(pushed)
    {
      hide Slot, IsCapacity;
      CapacityBound(cap);
      WrappedDistance(|pushed|, |popped|);
      if (tail - head) % TWO_64 > cap - 1 {
        return false;
      }
      SlotOfWrapped(|pushed|, cap);
      WriteKeeps(buf[..], cap, pushed, |popped|, cmd);
      ghost var before := buf[..];
      buf[Slot(tail, cap)] := cmd;
      assert buf[..] == before[Slot(|pushed|, cap) := cmd];
      WrappedAdd(|pushed|, 1);
      tail := (tail + 1) % TWO_64;
      pushed := pushed + [cmd];
      ok := true;
    }

    method TryPop() returns (r: Option<HpCommand>)
      requires Valid()
      modifies this`head, this`popped
      ensures Valid()
      ensures r == None <==> old(popped) == pushed
      ensures popped == old(popped) + (if r == None then [] else [r.value])
    {
      hide Slot, IsCapacity;
      CapacityBound(cap);
      WrappedDistance(|pushed|, |popped|);
      if head == tail {
        assert popped + [] == popped;
        return None;
      }
      SlotOfWrapped(|popped|, cap);
      var cmd := buf[Slot(head, cap)];
      WrappedAdd(|popped|, 1);
      head := (head + 1) % TWO_64;
      popped := popped + [cmd];
      r := Some(cmd);
    }

    /** Dequeue up to `max` commands in one batch, appending them to `into`. */
    method PopN(into: seq<HpCommand>, max: nat) returns (out: seq<HpCommand>, n: nat)
      requires Valid()
      modifies this`head, this`popped
      ensures Valid()
      ensures n == Min(max, |pushed| - old(|popped|))
      ensures |popped| == old(|popped|) + n && old(popped) <= popped
      ensures out == into + popped[old(|popped|)..]
    {
      hide Slot, IsCapacity, HoldsUnread;
      CapacityBound(cap);
      WrappedDistance(|pushed|, |popped|);
      var available := (tail - head) % TWO_64;
      n := Min(available, max);
      if n == 0 {
        return into, 0;
      }
      ghost var c := |popped|;
      out := ReadBatch(into, n);
      WrappedAdd(c, n);
      head := (head + n) % TWO_64;
      popped := pushed[..c + n];
      UnreadShrinks(buf[..], cap, pushed, c, c + n);
    }

    method ReadBatch(into: seq<HpCommand>, n: nat) returns (out: seq<HpCommand>)
      requires Valid() && |popped| + n <= |pushed|
      ensures out == into + pushed[|popped|..|popped| + n]
    {
      hide Slot, IsCapacity;
      ghost var c := |popped|;
      out := into;
      var i := 0;
      while i < n
        invariant 0 <= i <= n
        invariant out == into + pushed[c..c + i]
        modifies {}
      {
        var cmd := buf[Slot((head + i) % TWO_64, cap)];
        NextRead(buf[..], cap, pushed, c, i);
        assert into + pushed[c..c + i + 1] == into + pushed[c..c + i] + [pushed[c + i]];
        out := out + [cmd];
        i := i + 1;
      }
    }
  }

  /** Single pops, `max` of them or until the ring is empty, deliver what one batch pop delivers. */
  method RepeatedTryPop(ring: SpscRing, into: seq<HpCommand>, max: nat) returns (out: seq<HpCommand>)
    requires ring.Valid()
    modifies ring`head, ring`popped
    ensures ring.Valid()
    ensures |ring.popped| == old(|ring.popped|) + Min(max, |ring.pushed| - old(|ring.popped|))
    ensures old(ring.popped) <= ring.popped
    ensures out == into + ring.popped[old(|ring.popped|)..]
  {
    out := into;
    var i := 0;
    ghost var c := |ring.popped|;
    while i < max
      invariant 0 <= i <= max && ring.Valid()
      invariant old(ring.popped) <= ring.popped && |ring.popped| == c + i
      invariant out == into + ring.popped[c..]
    {
      ghost var was := ring.popped;
      var r := ring.TryPop();
      if r == None {
        return;
      }
      assert ring.popped[c..] == was[c..] + [r.value];
      out := out + [r.value];
      i := i + 1;
    }
  }

  // ---------------------------------------------------------------- interleavings

  /** Where the producer is inside `try_push`. */
  datatype Producer = PIdle | PLoaded(cmd: HpCommand, t: nat) | PReady(cmd: HpCommand, t: nat)
      | PWrote(cmd: HpCommand, t: nat)

  /** Where the consumer is inside `try_pop` (a batch of one) or `pop_n`. */
  datatype Consumer = CIdle | CLoaded(max: nat, h: nat) | CReading(h: nat, n: nat, out: seq<HpCommand>)

  datatype System = System(
    cap: nat, buf: seq<HpCommand>, tail: nat, head: nat, producer: Producer, consumer: Consumer,
    pushed: seq<HpCommand>, popped: seq<HpCommand>)

  datatype Action =
    | ProducerStarts(cmd: HpCommand)
    | ProducerChecks
    | ProducerWrites
    | ProducerPublishes
    | ConsumerStarts(max: nat)
    | ConsumerChecks
    | ConsumerReads
    | ConsumerReleases

  predicate Enabled(s: System, a: Action) {
    match a
    case ProducerStarts(_) => s.producer.PIdle?
    case ProducerChecks => s.producer.PLoaded?
    case ProducerWrites => s.producer.PReady?
    case ProducerPublishes => s.producer.PWrote?
    case ConsumerStarts(max) => s.consumer.CIdle? && max >= 1
    case ConsumerChecks => s.consumer.CLoaded?
    case ConsumerReads => s.consumer.CReading? && |s.consumer.out| < s.consumer.n
    case ConsumerReleases => s.consumer.CReading? && |s.consumer.out| == s.consumer.n
  }

  /** One atomic step: a load, a store, or a slot access. */
  function Do(s: System, a: Action): System
    requires Enabled(s, a) && s.cap > 0 && |s.buf| == s.cap
  {
    match a
    case ProducerStarts(cmd) => s.(producer := PLoaded(cmd, s.tail))
    case ProducerChecks =>
      if (s.producer.t - s.head) % TWO_64 > s.cap - 1 then s.(producer := PIdle)
      else s.(producer := PReady(s.producer.cmd, s.producer.t))
    case ProducerWrites =>
      s.(buf := s.buf[Slot(s.producer.t, s.cap) := s.producer.cmd], producer := PWrote(s.producer.cmd, s.producer.t))
    case ProducerPublishes =>
      s.(tail := (s.producer.t + 1) % TWO_64, pushed := s.pushed + [s.producer.cmd], producer := PIdle)
    case ConsumerStarts(max) => s.(consumer := CLoaded(max, s.head))
    case ConsumerChecks =>
      var n := Min((s.tail - s.consumer.h) % TWO_64, s.consumer.max);
      s.(consumer := if n == 0 then CIdle else CReading(s.consumer.h, n, []))
    case ConsumerReads =>
      var i := |s.consumer.out|;
      s.(consumer := s.consumer.(out := s.consumer.out + [s.buf[Slot((s.consumer.h + i) % TWO_64, s.cap)]]))
    case ConsumerReleases =>
      s.(head := (s.consumer.h + s.consumer.n) % TWO_64, popped := s.popped + s.consumer.out, consumer := CIdle)
  }

  ghost predicate Inv(s: System) {
    var p, c := |s.pushed|, |s.popped|;
    && RingOk(s.buf, s.cap, s.tail, s.head, s.pushed, s.popped)
    && (match s.producer
        case PIdle => true
        case PLoaded(_, t) => t == s.tail
        case PReady(_, t) => t == s.tail && p - c < s.cap
        case PWrote(cmd, t) => t == s.tail && p - c < s.cap && s.buf[Slot(p, s.cap)] == cmd)
    && (match s.consumer
        case CIdle => true
        case CLoaded(max, h) => h == s.head && max >= 1
        case CReading(h, n, out) => h == s.head && |out| <= n && c + n <= p && out == s.pushed[c..c + |out|])
  }

  function Initial(cap: nat): System {
    System(cap, seq(cap, _ => Cancel(0)), 0, 0, PIdle, CIdle, [], [])
  }

  lemma WriteKeepsInv(s: System)
    requires Inv(s) && s.producer.PReady?
    ensures Inv(Do(s, ProducerWrites))
  {
    hide Slot, IsCapacity;
    var p, c := |s.pushed|, |s.popped|;
    SlotOfWrapped(p, s.cap);
    WriteKeeps(s.buf, s.cap, s.pushed, c, s.producer.cmd);
  }

  lemma PublishKeepsInv(s: System)
    requires Inv(s) && s.producer.PWrote?
    ensures Inv(Do(s, ProducerPublishes))
  {
    hide Slot, IsCapacity;
    var p, c := |s.pushed|, |s.popped|;
    WrappedAdd(p, 1);
    var pushed' := s.pushed + [s.producer.cmd];
    assert HoldsUnread(s.buf, s.cap, pushed', c);
    if s.consumer.CReading? {
      var m := c + |s.consumer.out|;
      assert pushed'[c..m] == s.pushed[c..m];
    }
  }

  /** The slot the consumer reads next holds the next command in order. */
  lemma NextRead(buf: seq<HpCommand>, cap: nat, pushed: seq<HpCommand>, c: nat, i: nat)
    requires IsCapacity(cap) && HoldsUnread(buf, cap, pushed, c) && c + i < |pushed|
    ensures buf[Slot((c % TWO_64 + i) % TWO_64, cap)] == pushed[c + i]
    ensures pushed[c..c + i] + [pushed[c + i]] == pushed[c..c + i + 1]
  {
    hide Slot, IsCapacity;
    SlotOfWrapped(c + i, cap);
    WrappedAdd(c, i);
  }

  lemma ReadKeepsInv(s: System)
    requires Inv(s) && Enabled(s, ConsumerReads)
    ensures Inv(Do(s, ConsumerReads))
  {
    hide Slot, IsCapacity, HoldsUnread;
    BufferSize(s);
    NextRead(s.buf, s.cap, s.pushed, |s.popped|, |s.consumer.out|);
  }

  lemma ReleaseKeepsInv(s: System)
    requires Inv(s) && Enabled(s, ConsumerReleases)
    ensures Inv(Do(s, ConsumerReleases))
  {
    hide Slot, IsCapacity, HoldsUnread;
    var c, n := |s.popped|, s.consumer.n;
    WrappedAdd(c, n);
    assert s.popped + s.consumer.out == s.pushed[..c + n];
    UnreadShrinks(s.buf, s.cap, s.pushed, c, c + n);
    BufferSize(s);
  }

  lemma BufferSize(s: System)
    requires Inv(s)
    ensures |s.buf| == s.cap > 0
  {
  }

  lemma ChecksKeepInv(s: System, a: Action)
    requires Inv(s) && Enabled(s, a) && (a.ProducerChecks? || a.ConsumerChecks?)
    ensures Inv(Do(s, a))
  {
    hide Slot, IsCapacity, HoldsUnread;
    CapacityBound(s.cap);
    WrappedDistance(|s.pushed|, |s.popped|);
    BufferSize(s);
  }

  /** Every atomic step of either side keeps the invariant. */
  lemma DoKeeps(s: System, a: Action)
    requires Inv(s) && Enabled(s, a)
    ensures Inv(Do(s, a))
  {
    hide Inv, Do;
    BufferSize(s);
    match a
    case ProducerStarts(_) => StartsKeepInv(s, a);
    case ProducerChecks => ChecksKeepInv(s, a);
    case ProducerWrites => WriteKeepsInv(s);
    case ProducerPublishes => PublishKeepsInv(s);
    case ConsumerStarts(_) => StartsKeepInv(s, a);
    case ConsumerChecks => ChecksKeepInv(s, a);
    case ConsumerReads => ReadKeepsInv(s);
    case ConsumerReleases => ReleaseKeepsInv(s);
  }

  lemma StartsKeepInv(s: System, a: Action)
    requires Inv(s) && Enabled(s, a) && (a.ProducerStarts? || a.ConsumerStarts?)
    ensures Inv(Do(s, a))
  {
    hide Slot, IsCapacity, HoldsUnread;
    BufferSize(s);
  }

  predicate IsRun(cap: nat, run: seq<System>, actions: seq<Action>) {
    && |run| == |actions| + 1 && run[0] == Initial(cap) && cap > 0
    && forall i {:trigger actions[i]} :: 0 <= i < |actions| ==>
         Enabled(run[i], actions[i]) && run[i].cap == cap && |run[i].buf| == cap && run[i + 1] == Do(run[i], actions[i])
  }

  lemma {:induction false} RunInv(cap: nat, run: seq<System>, actions: seq<Action>, i: nat)
    requires IsCapacity(cap) && IsRun(cap, run, actions) && i < |run|
    ensures Inv(run[i])
  {
    hide Do, Inv;
    if i == 0 {
      assert Inv(Initial(cap)) by { InitialInv(cap); }
    } else {
      RunInv(cap, run, actions, i - 1);
      DoKeeps(run[i - 1], actions[i - 1]);
    }
  }

  lemma InitialInv(cap: nat)
    requires IsCapacity(cap)
    ensures Inv(Initial(cap))
  {
    CapacityBound(cap);
  }

  /**
   Under every interleaving the ring is a bounded FIFO: what was popped is a prefix of what
   was pushed, and never more than the capacity is in flight.
   */
  lemma BoundedFifo(cap: nat, run: seq<System>, actions: seq<Action>, i: nat)
    requires IsCapacity(cap) && IsRun(cap, run, actions) && i < |run|
    ensures run[i].popped <= run[i].pushed
    ensures |run[i].pushed| - |run[i].popped| <= cap
  {
    RunInv(cap, run, actions, i);
    assert run[i].cap == cap by { CapacityKept(cap, run, actions, i); }
  }

  lemma {:induction false} CapacityKept(cap: nat, run: seq<System>, actions: seq<Action>, i: nat)
    requires IsRun(cap, run, actions) && i < |run|
    ensures run[i].cap == cap
  {
    if i > 0 {
      CapacityKept(cap, run, actions, i - 1);
      assert run[i] == Do(run[i - 1], actions[i - 1]);
    }
  }

  /** The producer never writes a slot whose command has not been released by the consumer. */
  lemma NoUnreadOverwritten(cap: nat, run: seq<System>, actions: seq<Action>, i: nat, k: nat)
    requires IsCapacity(cap) && IsRun(cap, run, actions) && i < |actions| && actions[i] == ProducerWrites
    requires |run[i].popped| <= k < |run[i].pushed|
    ensures run[i].producer.PReady? && Slot(run[i].producer.t, cap) != Slot(k, cap)
    ensures |run[i + 1].buf| == cap && run[i + 1].buf[Slot(k, cap)] == run[i].pushed[k]
  {
    hide Slot, IsCapacity;
    RunInv(cap, run, actions, i);
    var s := run[i];
    assert s.producer.PReady? && run[i + 1] == Do(s, actions[i]);
    SlotOfWrapped(|s.pushed|, cap);
    WriteKeeps(s.buf, cap, s.pushed, |s.popped|, s.producer.cmd);
    var buf' := run[i + 1].buf;
    assert buf' == s.buf[Slot(|s.pushed|, cap) := s.producer.cmd];
    assert HoldsUnread(buf', cap, s.pushed, |s.popped|);
  }

  /** A push is refused exactly when the ring is full, and a pop comes back empty exactly when it is empty. */
  lemma RefusalsAreExact(cap: nat, run: seq<System>, actions: seq<Action>, i: nat)
    requires IsCapacity(cap) && IsRun(cap, run, actions) && i < |actions|
    ensures actions[i] == ProducerChecks ==>
              (run[i + 1].producer == PIdle <==> |run[i].pushed| - |run[i].popped| == cap)
    ensures actions[i] == ConsumerChecks ==> (run[i + 1].consumer == CIdle <==> run[i].pushed == run[i].popped)
  {
    hide Slot, IsCapacity;
    CapacityBound(cap);
    RunInv(cap, run, actions, i);
    assert run[i].cap == cap && run[i + 1] == Do(run[i], actions[i]);
    WrappedDistance(|run[i].pushed|, |run[i].popped|);
  }

  /** The command the producer is pushing. */
  function Pushing(p: Producer): Option<HpCommand> {
    if p.PIdle? then None else Some(p.cmd)
  }

  /** Between the start of a push and its end the producer keeps the command it started with. */
  lemma {:induction false} KeepsCommand(cap: nat, run: seq<System>, actions: seq<Action>, j: nat, i: nat)
    requires IsRun(cap, run, actions) && j < i < |run| && actions[j].ProducerStarts?
    requires forall k :: j < k < i ==> !actions[k].ProducerStarts?
    ensures run[i].producer.PIdle? || Pushing(run[i].producer) == Some(actions[j].cmd)
    decreases i
  {
    assert run[i] == Do(run[i - 1], actions[i - 1]) && Enabled(run[i - 1], actions[i - 1]);
    if i > j + 1 {
      KeepsCommand(cap, run, actions, j, i - 1);
    }
  }

  /**
   Under every interleaving a push that passed its check ends by publishing the command it was started
   with, behind all others; no other step of either side changes what has been pushed.
   */
  lemma PublishesWhatItStarted(cap: nat, run: seq<System>, actions: seq<Action>, j: nat, i: nat)
    requires IsRun(cap, run, actions) && j < i < |actions| && actions[j].ProducerStarts?
    requires forall k :: j < k < i ==> !actions[k].ProducerStarts?
    ensures run[i + 1].pushed ==
      run[i].pushed + (if actions[i] == ProducerPublishes then [actions[j].cmd] else [])
  {
    KeepsCommand(cap, run, actions, j, i);
    assert run[i + 1] == Do(run[i], actions[i]) && Enabled(run[i], actions[i]);
  }

  /**
   Under every interleaving a pop takes, at its check, as many commands as are published and asked for,
   and at its end exactly the oldest so many that were not popped before.
   */
  lemma PopsTheOldest(cap: nat, run: seq<System>, actions: seq<Action>, i: nat)
    requires IsCapacity(cap) && IsRun(cap, run, actions) && i < |actions|
    ensures var s, s', c := run[i], run[i + 1], |run[i].popped|;
      && (actions[i] == ConsumerChecks && s'.consumer.CReading? ==>
            s.consumer.CLoaded? && s'.consumer.n == Min(|s.pushed| - c, s.consumer.max))
      && (actions[i] == ConsumerReleases ==>
            s.consumer.CReading? && c + s.consumer.n <= |s.pushed| && s.consumer.n >= 0
            && s'.popped == s.popped + s.pushed[c..c + s.consumer.n])
      && (actions[i] != ConsumerReleases ==> s'.popped == s.popped)
  {
    hide Slot, IsCapacity;
    CapacityBound(cap);
    RunInv(cap, run, actions, i);
    assert run[i].cap == cap && run[i + 1] == Do(run[i], actions[i]) && Enabled(run[i], actions[i]);
    WrappedDistance(|run[i].pushed|, |run[i].popped|);
  }
}
