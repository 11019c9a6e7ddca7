/** Fixed-layout byte encoding of replicated commands, with the client idempotency key last. */
module RaftCodec {
  import opened Common
  import opened HpTypes
  import opened Bytes

  function SideByte(side: Side): u8 {
    if side == Buy then 0 else 1
  }

  function ByteSide(b: u8): Side {
    if b == 0 then Buy else Sell
  }

  /** Every field fits its machine width. */
  predicate Fits(cmd: HpCommand) {
    match cmd
    case Limit(_, tick, qty, ts, client) => IsI64(tick) && IsI64(qty) && ts < TWO_64 && client < TWO_64
    case Cancel(id) => id < TWO_64
    case Market(_, qty, ts, maxFills, client) =>
      IsI64(qty) && ts < TWO_64 && client < TWO_64 && (maxFills.Some? ==> maxFills.value < TWO_32)
  }

  function U64(n: nat): (r: seq<u8>)
    ensures |r| == 8
  {
    LeBytes(n, 8)
  }

  function I64(v: int): (r: seq<u8>)
    requires IsI64(v)
    ensures |r| == 8
  {
    LeBytes(I64Bits(v), 8)
  }

  function Encode(cmd: HpCommand, idem: nat): (r: seq<u8>)
    requires Fits(cmd) && idem < TWO_64
    ensures Decodable(r)
  {
    match cmd
    case Limit(side, tick, qty, ts, client) =>
      [0] + [SideByte(side)] + I64(tick) + I64(qty) + U64(ts) + U64(client) + U64(idem)
    case Cancel(id) =>
      [1] + U64(id) + U64(idem)
    case Market(side, qty, ts, maxFills, client) =>
      [2] + [SideByte(side)] + I64(qty) + U64(ts)
      + LeBytes(if maxFills.Some? then maxFills.value else 0, 4) + U64(client) + U64(idem)
  }

  /** Long enough for its tag; shorter input makes the decoder panic. */
  predicate Decodable(p: seq<u8>) {
    p != [] && (if p[0] == 0 then |p| >= 42 else if p[0] == 1 then |p| >= 17 else |p| >= 38)
  }

  function Decode(p: seq<u8>): (r: (nat, HpCommand))
    requires Decodable(p)
  {
    if p[0] == 0 then
      (FromLe(p[34..42]),
       Limit(ByteSide(p[1]), I64FromBits(FromLe(p[2..10])), I64FromBits(FromLe(p[10..18])),
             FromLe(p[18..26]), FromLe(p[26..34])))
    else if p[0] == 1 then
      (FromLe(p[9..17]), Cancel(FromLe(p[1..9])))
    else
      var fills := FromLe(p[18..22]);
      (FromLe(p[30..38]),
       Market(ByteSide(p[1]), I64FromBits(FromLe(p[2..10])), FromLe(p[10..18]),
              if fills == 0 then None else Some(fills), FromLe(p[22..30])))
  }

  lemma I64RoundTrip(v: int)
    requires IsI64(v)
    ensures I64FromBits(FromLe(I64(v))) == v
  {
    Widths();
    LeRoundTrip(I64Bits(v), 8);
  }

  lemma U64RoundTrip(n: nat)
    requires n < TWO_64
    ensures FromLe(U64(n)) == n
  {
    Widths();
    LeRoundTrip(n, 8);
  }

  /** Only a market order with a zero fill limit shares its bytes with another command. */
  predicate ZeroFills(cmd: HpCommand) {
    cmd.Market? && cmd.maxFills == Some(0)
  }

  /** A market order for no fills reads back as one for any number of fills. */
  lemma ZeroFillsExample()
    ensures var cmd := Market(Buy, 5, 0, Some(0), 1);
      Decode(Encode(cmd, 9)) == (9, cmd.(maxFills := None)) && Decode(Encode(cmd, 9)) != (9, cmd)
  {
    hide Encode, Decode;
    DecodeEncode(Market(Buy, 5, 0, Some(0), 1), 9);
  }

  /** Decoding inverts encoding, for exactly the commands that are not a zero-limit market order. */
  lemma DecodeEncode(cmd: HpCommand, idem: nat)
    requires Fits(cmd) && idem < TWO_64
    ensures Decode(Encode(cmd, idem)).0 == idem
    ensures Decode(Encode(cmd, idem)).1 == if ZeroFills(cmd) then cmd.(maxFills := None) else cmd
    ensures Decode(Encode(cmd, idem)) == (idem, cmd) <==> !ZeroFills(cmd)
  {
    hide LeBytes, FromLe, I64FromBits, I64Bits, U64, I64;
    U64RoundTrip(idem);
    match cmd
    case Limit(side, tick, qty, ts, client) =>
      I64RoundTrip(tick);
      I64RoundTrip(qty);
      U64RoundTrip(ts);
      U64RoundTrip(client);
      LimitLayout([0] + [SideByte(side)], I64(tick), I64(qty), U64(ts), U64(client), U64(idem));
    case Cancel(id) =>
      U64RoundTrip(id);
      CancelLayout(U64(id), U64(idem));
    case Market(side, qty, ts, maxFills, client) =>
      I64RoundTrip(qty);
      U64RoundTrip(ts);
      U64RoundTrip(client);
      Widths();
      var fills := if maxFills.Some? then maxFills.value else 0;
      LeRoundTrip(fills, 4);
      MarketLayout([2] + [SideByte(side)], I64(qty), U64(ts), LeBytes(fills, 4), U64(client), U64(idem));
  }

  /** Where each field of a limit command sits. */
  lemma LimitLayout(h: seq<u8>, a: seq<u8>, b: seq<u8>, c: seq<u8>, d: seq<u8>, e: seq<u8>)
    requires |h| == 2 && |a| == 8 && |b| == 8 && |c| == 8 && |d| == 8 && |e| == 8
    ensures var p := h + a + b + c + d + e;
      |p| == 42 && p[..2] == h && p[2..10] == a && p[10..18] == b && p[18..26] == c && p[26..34] == d && p[34..42] == e
  {
  }

  lemma CancelLayout(a: seq<u8>, b: seq<u8>)
    requires |a| == 8 && |b| == 8
    ensures var p := [1] + a + b; |p| == 17 && p[1..9] == a && p[9..17] == b
  {
  }

  lemma MarketLayout(h: seq<u8>, a: seq<u8>, b: seq<u8>, f: seq<u8>, c: seq<u8>, d: seq<u8>)
    requires |h| == 2 && |a| == 8 && |b| == 8 && |f| == 4 && |c| == 8 && |d| == 8
    ensures var p := h + a + b + f + c + d;
      |p| == 38 && p[..2] == h && p[2..10] == a && p[10..18] == b && p[18..22] == f && p[22..30] == c && p[30..38] == d
  {
  }

  // ---------------------------------------------------------------- length-framed log

  function Frame(p: seq<u8>): seq<u8> {
    LeBytes(|p| % TWO_32, 4) + p
  }

  function Frames(log: seq<seq<u8>>): seq<u8> {
    if log == [] then [] else Frames(log[..|log| - 1]) + Frame(log[|log| - 1])
  }

  /** The complete records from offset `off` on; a torn tail is dropped. */
  function Records(buf: seq<u8>, off: nat): seq<seq<u8>>
    requires off <= |buf|
    decreases |buf| - off
  {
    if off + 4 > |buf| then []
    else
      var len := FromLe(buf[off..off + 4]);
      if off + 4 + len > |buf| then [] else [buf[off + 4..off + 4 + len]] + Records(buf, off + 4 + len)
  }

  lemma {:induction false} RecordsPrefix(a: seq<u8>, b: seq<u8>, off: nat)
    requires off <= |b|
    ensures Records(a + b, |a| + off) == Records(b, off)
    decreases |b| - off
  {
    hide FromLe;
    if off + 4 <= |b| {
      assert (a + b)[|a| + off..|a| + off + 4] == b[off..off + 4];
      var len := FromLe(b[off..off + 4]);
      if off + 4 + len <= |b| {
        assert (a + b)[|a| + off + 4..|a| + off + 4 + len] == b[off + 4..off + 4 + len];
        RecordsPrefix(a, b, off + 4 + len);
      }
    }
  }

  lemma {:induction false} FramesConcat(a: seq<seq<u8>>, b: seq<seq<u8>>)
    ensures Frames(a + b) == Frames(a) + Frames(b)
  {
    hide Frame;
    if b == [] {
      assert a + b == a;
    } else {
      var n := |b| - 1;
      assert (a + b)[..|a + b| - 1] == a + b[..n];
      FramesConcat(a, b[..n]);
      assert Frames(a) + Frames(b[..n]) + Frame(b[n]) == Frames(a) + (Frames(b[..n]) + Frame(b[n]));
    }
  }

  lemma OneFrame(p: seq<u8>)
    ensures Frames([p]) == Frame(p)
  {
    assert Frames([p]) == Frames([p][..0]) + Frame(p);
  }

  /** Every record fits the 32-bit length prefix. */
  predicate ShortLog(log: seq<seq<u8>>) {
    forall i :: 0 <= i < |log| ==> |log[i]| < TWO_32
  }

  /** What reading finds first in a framed log. */
  lemma FirstRecord(p: seq<u8>, rest: seq<seq<u8>>)
    ensures var buf := Frame(p) + Frames(rest);
      && (|p| < TWO_32 ==> Records(buf, 0) == [p] + Records(Frames(rest), 0))
      && (|p| >= TWO_32 ==> Records(buf, 0) != [] && |Records(buf, 0)[0]| < |p|)
  {
    hide LeBytes, FromLe, Frames;
    var buf, len := Frame(p) + Frames(rest), |p| % TWO_32;
    Widths();
    LeRoundTrip(len, 4);
    assert buf[0..4] == LeBytes(len, 4);
    if |p| < TWO_32 {
      assert buf[4..4 + |p|] == p;
      RecordsPrefix(Frame(p), Frames(rest), 0);
    } else {
      assert Records(buf, 0)[0] == buf[4..4 + len];
    }
  }

  /** Reading back a log of frames gives the records that were written, exactly when each fits its length prefix. */
  lemma {:induction false} RecordsOfFrames(log: seq<seq<u8>>)
    ensures Records(Frames(log), 0) == log <==> ShortLog(log)
  {
    hide Records, Frame;
    if log == [] {
      NothingToRead();
    } else {
      var p, rest := log[0], log[1..];
      RecordsOfFrames(rest);
      FramesConcat([p], rest);
      assert [p] + rest == log;
      OneFrame(p);
      FirstRecord(p, rest);
      assert ShortLog(log) <==> |p| < TWO_32 && ShortLog(rest);
      var tail := Records(Frames(rest), 0);
      assert [p] + tail == log ==> tail == rest by {
        assert ([p] + tail)[1..] == tail;
      }
    }
  }

  lemma NothingToRead()
    ensures Records(Frames([]), 0) == []
  {
  }
}
