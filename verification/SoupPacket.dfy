/** SoupBinTCP framing: a 16-bit length, a type byte, the payload. */
module SoupPacket {
  import opened Common
  import opened Bytes
  import opened Decimal

  datatype Packet = Packet(kind: u8, payload: seq<u8>)

  const LOGIN_REQUEST: u8 := 76
  const LOGIN_ACCEPTED: u8 := 65
  const LOGIN_REJECTED: u8 := 74
  const SEQUENCED_DATA: u8 := 83
  const SERVER_HEARTBEAT: u8 := 72
  const END_OF_SESSION: u8 := 90
  const UNSEQUENCED_DATA: u8 := 85
  const CLIENT_HEARTBEAT: u8 := 82
  const LOGOUT_REQUEST: u8 := 79
  const DEBUG: u8 := 43

  const REJECT_SESSION_UNAVAILABLE: u8 := 83

  const SESSION_LEN: nat := 10
  const SEQUENCE_LEN: nat := 20

  const MAX_PAYLOAD: nat := 65534

  /** The length field: one plus the payload length cut to 16 bits, saturating. */
  function LengthField(n: nat): (r: nat)
    ensures 1 <= r < TWO_16
  {
    Min(1 + n % TWO_16, TWO_16 - 1)
  }

  function ToBytes(p: Packet): (r: seq<u8>)
    ensures |r| == 3 + |p.payload|
  {
    BeBytes(LengthField(|p.payload|), 2) + [p.kind] + p.payload
  }

  /** The packets at the front of a buffer, and how many bytes they take. */
  datatype Parsed = Parsed(packets: seq<Packet>, consumed: nat)

  /** The total size of the packet at `off`, when it is all there. */
  function PacketSize(buf: seq<u8>, off: nat): (r: Option<nat>)
    ensures r.Some? ==> 3 <= r.value && off + r.value <= |buf|
  {
    if off + 3 > |buf| then None
    else
      var len := FromBe(buf[off..off + 2]);
      if len < 1 || off + 2 + len > |buf| then None else Some(2 + len)
  }

  function PacketAt(buf: seq<u8>, off: nat, size: nat): Packet
    requires 3 <= size && off + size <= |buf|
  {
    Packet(buf[off + 2], buf[off + 3..off + size])
  }

  function ParseFrom(buf: seq<u8>, off: nat): (r: Parsed)
    requires off <= |buf|
    ensures off <= r.consumed <= |buf|
    decreases |buf| - off
  {
    match PacketSize(buf, off)
    case None => Parsed([], off)
    case Some(size) =>
      var rest := ParseFrom(buf, off + size);
      Parsed([PacketAt(buf, off, size)] + rest.packets, rest.consumed)
  }

  function Parse(buf: seq<u8>): (r: Parsed)
    ensures r.consumed <= |buf|
  {
    ParseFrom(buf, 0)
  }

  /** The parsing loop; `needsMore` says that bytes were left over. */
  method ParseStream(buf: seq<u8>) returns (packets: seq<Packet>, consumed: nat, needsMore: bool)
    ensures Parsed(packets, consumed) == Parse(buf)
    ensures needsMore <==> consumed < |buf|
  {
    hide FromBe;
    packets := [];
    var off := 0;
    assert packets + ParseFrom(buf, 0).packets == ParseFrom(buf, 0).packets;
    while off + 3 <= |buf|
      invariant 0 <= off <= |buf|
      invariant Parsed(packets + ParseFrom(buf, off).packets, ParseFrom(buf, off).consumed) == Parse(buf)
      decreases |buf| - off
    {
      var len := FromBe(buf[off..off + 2]);
      if len < 1 {
        break;
      }
      var total := 2 + len;
      if off + total > |buf| {
        break;
      }
      var p := Packet(buf[off + 2], buf[off + 3..off + total]);
      ghost var rest := ParseFrom(buf, off + total).packets;
      assert packets + ([p] + rest) == packets + [p] + rest;
      packets := packets + [p];
      off := off + total;
    }
    consumed := off;
    needsMore := off < |buf|;
  }

  // ---------------------------------------------------------------- chunking

  /** Bytes arriving later do not disturb a packet that is already complete. */
  lemma SizeStable(a: seq<u8>, b: seq<u8>, off: nat)
    requires off <= |a| && PacketSize(a, off).Some?
    ensures PacketSize(a + b, off) == PacketSize(a, off)
    ensures PacketAt(a + b, off, PacketSize(a, off).value) == PacketAt(a, off, PacketSize(a, off).value)
  {
    hide FromBe;
    var size := PacketSize(a, off).value;
    assert (a + b)[off..off + 2] == a[off..off + 2];
    assert (a + b)[off + 3..off + size] == a[off + 3..off + size];
  }

  /** Dropping consumed bytes from the front changes nothing. */
  lemma {:induction false} ParseShift(buf: seq<u8>, cut: nat, off: nat)
    requires cut <= off <= |buf|
    ensures ParseFrom(buf[cut..], off - cut).packets == ParseFrom(buf, off).packets
    ensures ParseFrom(buf[cut..], off - cut).consumed == ParseFrom(buf, off).consumed - cut
    decreases |buf| - off
  {
    hide FromBe;
    var t := buf[cut..];
    SizeShift(buf, cut, off);
    if PacketSize(buf, off).Some? {
      var size := PacketSize(buf, off).value;
      ParseShift(buf, cut, off + size);
    }
  }

  lemma SizeShift(buf: seq<u8>, cut: nat, off: nat)
    requires cut <= off <= |buf|
    ensures PacketSize(buf[cut..], off - cut) == PacketSize(buf, off)
    ensures PacketSize(buf, off).Some? ==>
              PacketAt(buf[cut..], off - cut, PacketSize(buf, off).value)
                  == PacketAt(buf, off, PacketSize(buf, off).value)
  {
    hide FromBe;
    var t := buf[cut..];
    if off + 3 <= |buf| {
      assert t[off - cut..off - cut + 2] == buf[off..off + 2];
    }
    if PacketSize(buf, off).Some? {
      var size := PacketSize(buf, off).value;
      assert t[off - cut + 3..off - cut + size] == buf[off + 3..off + size];
    }
  }

  /** Parsing resumes where an earlier part of the stream stopped. */
  lemma {:induction false} ParseResumes(a: seq<u8>, b: seq<u8>, off: nat)
    requires off <= |a|
    ensures ParseFrom(a + b, off).packets
            == ParseFrom(a, off).packets + ParseFrom(a + b, ParseFrom(a, off).consumed).packets
    ensures ParseFrom(a + b, off).consumed == ParseFrom(a + b, ParseFrom(a, off).consumed).consumed
    decreases |a| - off
  {
    hide PacketSize, PacketAt;
    if PacketSize(a, off).Some? {
      SizeStable(a, b, off);
      var size := PacketSize(a, off).value;
      ParseResumes(a, b, off + size);
      Assoc(PacketAt(a, off, size), ParseFrom(a, off + size).packets,
            ParseFrom(a + b, ParseFrom(a, off).consumed).packets);
    }
  }

  lemma Assoc(p: Packet, x: seq<Packet>, y: seq<Packet>)
    ensures [p] + (x + y) == [p] + x + y
  {
  }

  /** Parsing `a`, then its leftover with `b` appended, is parsing `a + b`. */
  lemma TwoChunks(a: seq<u8>, b: seq<u8>)
    ensures var first := Parse(a);
            var second := Parse(a[first.consumed..] + b);
            Parse(a + b) == Parsed(first.packets + second.packets, first.consumed + second.consumed)
  {
    hide ParseFrom;
    var c := Parse(a).consumed;
    ParseResumes(a, b, 0);
    assert (a + b)[c..] == a[c..] + b;
    ParseShift(a + b, c, c);
  }

  /** A receiver that keeps its leftover between reads. */
  function Receive(chunks: seq<seq<u8>>): (r: (seq<Packet>, seq<u8>))
  {
    if chunks == [] then ([], [])
    else
      var before := Receive(chunks[..|chunks| - 1]);
      var buf := before.1 + chunks[|chunks| - 1];
      var p := Parse(buf);
      (before.0 + p.packets, buf[p.consumed..])
  }

  function Concat(chunks: seq<seq<u8>>): seq<u8> {
    if chunks == [] then [] else Concat(chunks[..|chunks| - 1]) + chunks[|chunks| - 1]
  }

  /** However the stream is cut into reads, the same packets come out and the same bytes are left. */
  lemma {:induction false} ChunkingInvisible(chunks: seq<seq<u8>>)
    ensures Receive(chunks).0 == Parse(Concat(chunks)).packets
    ensures Receive(chunks).1 == Concat(chunks)[Parse(Concat(chunks)).consumed..]
  {
    hide ParseFrom;
    if chunks == [] {
      assert Parse([]) == Parsed([], 0) by { ParseNothing(); }
    } else {
      var n := |chunks| - 1;
      ChunkingInvisible(chunks[..n]);
      var a, b := Concat(chunks[..n]), chunks[n];
      TwoChunks(a, b);
      var c := Parse(a).consumed;
      var d := Parse(a[c..] + b).consumed;
      assert (a + b)[c..] == a[c..] + b;
      assert (a[c..] + b)[d..] == (a + b)[c + d..];
    }
  }

  lemma ParseNothing()
    ensures Parse([]) == Parsed([], 0)
  {
  }

  // ---------------------------------------------------------------- round trip

  function Wire(packets: seq<Packet>): seq<u8> {
    if packets == [] then [] else ToBytes(packets[0]) + Wire(packets[1..])
  }

  predicate Sendable(packets: seq<Packet>) {
    forall i :: 0 <= i < |packets| ==> |packets[i].payload| <= MAX_PAYLOAD
  }

  lemma FrontPacket(p: Packet, rest: seq<u8>)
    requires |p.payload| <= MAX_PAYLOAD
    ensures PacketSize(ToBytes(p) + rest, 0) == Some(3 + |p.payload|)
    ensures PacketAt(ToBytes(p) + rest, 0, 3 + |p.payload|) == p
  {
    hide BeBytes, FromBe;
    var buf := ToBytes(p) + rest;
    Widths();
    BeRoundTrip(LengthField(|p.payload|), 2);
    assert buf[0..2] == BeBytes(LengthField(|p.payload|), 2);
    assert buf[3..3 + |p.payload|] == p.payload;
  }

  /** Any number of packets written back to back are read back whole. */
  lemma {:induction false} ParseInvertsWire(packets: seq<Packet>)
    requires Sendable(packets)
    ensures Parse(Wire(packets)) == Parsed(packets, |Wire(packets)|)
  {
    hide ToBytes, PacketSize, PacketAt;
    if packets != [] {
      var p, rest := packets[0], packets[1..];
      var buf := ToBytes(p) + Wire(rest);
      FrontPacket(p, Wire(rest));
      ParseInvertsWire(rest);
      var size := 3 + |p.payload|;
      ParseShift(buf, size, size);
      assert buf[size..] == Wire(rest);
      assert [p] + rest == packets;
    }
  }

  /** A packet survives framing exactly when its payload is at most 65534 bytes. */
  lemma FramingExact(p: Packet)
    ensures Parse(ToBytes(p)) == Parsed([p], |ToBytes(p)|) <==> |p.payload| <= MAX_PAYLOAD
  {
    hide BeBytes, FromBe, ParseFrom;
    assert ToBytes(p) + [] == ToBytes(p);
    if |p.payload| <= MAX_PAYLOAD {
      assert Wire([p]) == ToBytes(p) + Wire([p][1..]) == ToBytes(p);
      ParseInvertsWire([p]);
    } else {
      TooLong(p);
    }
  }

  /** One byte too many. */
  lemma LongPayloadExample(ptype: u8)
    ensures var p := Packet(ptype, seq(65535, _ => 0)); Parse(ToBytes(p)) != Parsed([p], |ToBytes(p)|)
  {
    FramingExact(Packet(ptype, seq(65535, _ => 0)));
  }

  lemma TooLong(p: Packet)
    requires |p.payload| > MAX_PAYLOAD
    ensures Parse(ToBytes(p)).packets != [p]
  {
    hide BeBytes, FromBe;
    var buf, len := ToBytes(p), LengthField(|p.payload|);
    Widths();
    BeRoundTrip(len, 2);
    assert buf[0..2] == BeBytes(len, 2);
    assert Parse(buf).packets[0].payload == buf[3..2 + len];
  }

  // ---------------------------------------------------------------- the ASCII sequence field

  function Ascii(s: string): (r: seq<u8>)
    requires AllDigits(s)
    ensures |r| == |s|
  {
    seq(|s|, i requires 0 <= i < |s| => s[i] as int)
  }

  function Chars(b: seq<u8>): (r: string)
    ensures |r| == |b|
  {
    seq(|b|, i requires 0 <= i < |b| => b[i] as char)
  }

  predicate IsSpace(b: u8) {
    9 <= b <= 13 || b == 32
  }

  function TrimBytes(b: seq<u8>): seq<u8> {
    if b != [] && IsSpace(b[0]) then TrimBytes(b[1..])
    else if b != [] && IsSpace(b[|b| - 1]) then TrimBytes(b[..|b| - 1])
    else b
  }

  /** A 64-bit unsigned number, with an optional plus sign; anything else reads as zero. */
  function ReadNumber(b: seq<u8>): (n: nat) {
    var t := Chars(TrimBytes(b));
    var digits := if t != "" && t[0] == '+' then t[1..] else t;
    if digits != "" && AllDigits(digits) && Val(digits) < TWO_64 then Val(digits) else 0
  }

  function Spaces(k: nat): (r: seq<u8>)
    ensures |r| == k
  {
    if k == 0 then [] else [32] + Spaces(k - 1)
  }

  /** Right-aligned in a field of twenty characters. */
  function SequenceField(n: nat): (r: seq<u8>)
    requires n < TWO_64
    ensures |r| == SEQUENCE_LEN
  {
    var d := Digits(n);
    TwentyDigits(n);
    Spaces(SEQUENCE_LEN - |d|) + Ascii(d)
  }

  lemma TwentyDigits(n: nat)
    requires n < TWO_64
    ensures |Digits(n)| <= SEQUENCE_LEN
  {
    assert TWO_64 < Pow10(20) by { PowTwenty(); }
    DigitsLength(n, 20);
  }

  lemma PowTwenty()
    ensures Pow10(20) == 100000000000000000000
  {
    assert Pow10(4) == 10000 by { assert Pow10(2) == 100; }
    assert Pow10(8) == 100000000 by { assert Pow10(6) == 1000000; }
    assert Pow10(12) == 1000000000000 by { assert Pow10(10) == 10000000000; }
    assert Pow10(16) == 10000000000000000 by { assert Pow10(14) == 100000000000000; }
    assert Pow10(18) == 1000000000000000000;
  }

  lemma TrimOne(b: seq<u8>)
    ensures TrimBytes([32] + b) == TrimBytes(b)
  {
    assert ([32] + b)[1..] == b;
  }

  lemma {:induction false} TrimLeading(k: nat, b: seq<u8>)
    requires b != [] && !IsSpace(b[0]) && !IsSpace(b[|b| - 1])
    ensures TrimBytes(Spaces(k) + b) == b
  {
    hide IsSpace;
    if k == 0 {
      assert Spaces(0) + b == b;
    } else {
      TrimLeading(k - 1, b);
      TrimOne(Spaces(k - 1) + b);
      assert [32] + (Spaces(k - 1) + b) == Spaces(k) + b;
    }
  }

  /** Every 64-bit sequence number survives its ASCII field. */
  lemma SequenceFieldRoundTrip(n: nat)
    requires n < TWO_64
    ensures ReadNumber(SequenceField(n)) == n
  {
    hide Digits, Spaces, TrimBytes, Val;
    var d := Digits(n);
    TwentyDigits(n);
    TrimLeading(SEQUENCE_LEN - |d|, Ascii(d));
    assert Chars(Ascii(d)) == d;
    ValDigits(n);
  }
}
