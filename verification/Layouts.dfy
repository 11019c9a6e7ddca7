/** Where each field of a datagram, record or packet lies, byte by byte. */
module Layouts {
  import opened HpTypes
  import opened Bytes
  import opened Decimal
  import RaftCodec
  import UdpPacket
  import MoldPacket
  import SoupPacket
  import SoupSession

  // ---------------------------------------------------------------- replicated commands

  /** A replicated command: tag, side, then little-endian numbers, signed ones in two's complement. */
  lemma CommandLayout(cmd: HpCommand, idem: nat)
    requires RaftCodec.Fits(cmd) && idem < TWO_64
    ensures var p := RaftCodec.Encode(cmd, idem);
      match cmd
      case Limit(side, tick, qty, ts, client) =>
        && |p| == 42 && p[0] == 0 && p[1] == (if side == Buy then 0 else 1)
        && p[2..10] == LeBytes(tick % TWO_64, 8) && p[10..18] == LeBytes(qty % TWO_64, 8)
        && p[18..26] == LeBytes(ts, 8) && p[26..34] == LeBytes(client, 8) && p[34..42] == LeBytes(idem, 8)
      case Cancel(id) =>
        |p| == 17 && p[0] == 1 && p[1..9] == LeBytes(id, 8) && p[9..17] == LeBytes(idem, 8)
      case Market(side, qty, ts, maxFills, client) =>
        && |p| == 38 && p[0] == 2 && p[1] == (if side == Buy then 0 else 1)
        && p[2..10] == LeBytes(qty % TWO_64, 8) && p[10..18] == LeBytes(ts, 8)
        && p[18..22] == LeBytes(if maxFills.Some? then maxFills.value else 0, 4)
        && p[22..30] == LeBytes(client, 8) && p[30..38] == LeBytes(idem, 8)
  {
    hide LeBytes, I64Bits, RaftCodec.U64, RaftCodec.I64;
    match cmd
    case Limit(side, tick, qty, ts, client) =>
      var h: seq<u8> := [0] + [RaftCodec.SideByte(side)];
      Numbers(tick, ts, idem);
      Numbers(qty, client, idem);
      RaftCodec.LimitLayout(h, RaftCodec.I64(tick), RaftCodec.I64(qty), RaftCodec.U64(ts), RaftCodec.U64(client),
          RaftCodec.U64(idem));
      assert RaftCodec.Encode(cmd, idem)[..2] == h;
    case Cancel(id) =>
      Numbers(0, id, idem);
      RaftCodec.CancelLayout(RaftCodec.U64(id), RaftCodec.U64(idem));
    case Market(side, qty, ts, maxFills, client) =>
      var h: seq<u8> := [2] + [RaftCodec.SideByte(side)];
      Numbers(qty, ts, idem);
      Numbers(0, client, idem);
      RaftCodec.MarketLayout(h, RaftCodec.I64(qty), RaftCodec.U64(ts),
          LeBytes(if maxFills.Some? then maxFills.value else 0, 4), RaftCodec.U64(client), RaftCodec.U64(idem));
      assert RaftCodec.Encode(cmd, idem)[..2] == h;
  }

  lemma Numbers(v: int, a: nat, b: nat)
    requires IsI64(v)
    ensures RaftCodec.I64(v) == LeBytes(v % TWO_64, 8)
    ensures RaftCodec.U64(a) == LeBytes(a, 8) && RaftCodec.U64(b) == LeBytes(b, 8)
  {
    hide LeBytes, I64Bits;
    TwosComplement(v);
  }

  lemma TwosComplement(v: int)
    requires IsI64(v)
    ensures I64Bits(v) == v % TWO_64
  {
  }

  /** A logged record: its length in four little-endian bytes, then its bytes. */
  lemma RecordLayout(p: seq<u8>)
    requires |p| < TWO_32
    ensures RaftCodec.Frame(p)[..4] == LeBytes(|p|, 4) && RaftCodec.Frame(p)[4..] == p
  {
    hide LeBytes;
    Small(|p|, TWO_32);
    var l := LeBytes(|p|, 4);
    assert RaftCodec.Frame(p) == l + p && (l + p)[..4] == l && (l + p)[4..] == p;
  }

  lemma Small(n: nat, m: nat)
    requires n < m
    ensures n % m == n
  {
  }

  // ---------------------------------------------------------------- datagrams

  /** A UDP frame: the magic "MOOR", the sequence big-endian, the type, the payload. */
  lemma FrameLayout(f: UdpPacket.Frame)
    ensures var dg := UdpPacket.Encode(f);
      && |dg| == 9 + |f.payload| && dg[0..4] == [0x4D, 0x4F, 0x4F, 0x52]
      && dg[4..8] == BeBytes(f.seq_, 4) && dg[8] == f.mtype && dg[9..] == f.payload
  {
    hide BeBytes;
    Magic();
  }

  lemma Magic()
    ensures BeBytes(UdpPacket.SESSION_MAGIC, 4) == [0x4D, 0x4F, 0x4F, 0x52]
  {
    var n := UdpPacket.SESSION_MAGIC;
    assert BeBytes(n / 256 / 256 / 256 / 256, 0) == [];
    assert BeBytes(n / 256 / 256 / 256, 1) == [0x4D];
    assert BeBytes(n / 256 / 256, 2) == [0x4D, 0x4F];
    assert BeBytes(n / 256, 3) == [0x4D, 0x4F, 0x4F];
  }

  /** A MoldUDP64 packet: session, first number and count, then each message after its length, all big-endian. */
  lemma DownstreamLayout(session: seq<u8>, first: nat, msgs: seq<seq<u8>>)
    requires |session| == MoldPacket.SESSION_LEN && first < TWO_64 && 0 < |msgs| < TWO_16 && |msgs[0]| < TWO_16
    ensures var p, n := MoldPacket.Downstream(session, first, msgs), |msgs[0]|;
      && |p| >= 22 + n && p[..10] == session && p[10..18] == BeBytes(first, 8) && p[18..20] == BeBytes(|msgs|, 2)
      && p[20..22] == BeBytes(n, 2) && p[22..22 + n] == msgs[0]
      && p[22 + n..] == MoldPacket.Blocks(msgs[1..])
  {
    hide BeBytes, MoldPacket.Blocks;
    MoldPacket.BlocksHead(msgs);
  }

  // ---------------------------------------------------------------- SoupBinTCP

  /** A SoupBinTCP packet: the length of what follows it big-endian, the type, the payload. */
  lemma PacketLayout(p: SoupPacket.Packet)
    requires |p.payload| <= SoupPacket.MAX_PAYLOAD
    ensures var b := SoupPacket.ToBytes(p);
      b[..2] == BeBytes(1 + |p.payload|, 2) && b[2] == p.kind && b[3..] == p.payload
  {
    hide BeBytes;
  }

  /** A sequence number is written right-aligned in twenty characters, its numeral after spaces. */
  lemma SequenceLayout(n: nat)
    requires n < TWO_64
    ensures var f, d := SoupPacket.SequenceField(n), Digits(n);
      && |d| <= 20 == |f|
      && (forall i :: 0 <= i < 20 - |d| ==> f[i] == 32)
      && (forall i :: 0 <= i < |d| ==> f[20 - |d|..][i] == d[i] as int)
  {
    hide Digits, SoupPacket.Spaces;
    SoupPacket.TwentyDigits(n);
    var d := Digits(n);
    AllSpaces(20 - |d|);
    assert SoupPacket.SequenceField(n)[20 - |d|..] == SoupPacket.Ascii(d);
  }

  lemma {:induction false} AllSpaces(k: nat)
    ensures forall i :: 0 <= i < k ==> SoupPacket.Spaces(k)[i] == 32
  {
    if k > 0 {
      AllSpaces(k - 1);
    }
  }

  /** A login request: user, password and session in their fields, then the sequence. */
  lemma LoginLayout(user: seq<u8>, password: seq<u8>, session: seq<u8>, sequence: nat)
    requires sequence < TWO_64 && |user| == 6 && |password| == 10
    ensures var p := SoupSession.BuildLogin(user, password, session, sequence).payload;
      && |p| == 46 && p[..6] == user && p[6..16] == password
      && p[26..] == SoupPacket.SequenceField(sequence)
  {
    hide SoupPacket.SequenceField;
    Full(user);
    Full(password);
  }

  lemma Full(s: seq<u8>)
    ensures SoupSession.PadLeft(s, |s|) == s && SoupSession.PadRight(s, |s|) == s
  {
  }
}
