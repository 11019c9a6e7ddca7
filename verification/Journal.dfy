/** The memory-mapped journal: an 8-byte committed cursor, then length-framed records. */
module Journal {
  import opened Common
  import opened Bytes
  import opened RaftCodec

  const HEADER_LEN: nat := 8

  function Written(mem: seq<u8>, at: nat, bytes: seq<u8>): (r: seq<u8>)
    requires at + |bytes| <= |mem|
    ensures |r| == |mem|
  {
    mem[..at] + bytes + mem[at + |bytes|..]
  }

  function HeaderOf(mem: seq<u8>): (c: nat)
    requires |mem| >= HEADER_LEN
    ensures c >= HEADER_LEN
  {
    Max(FromLe(mem[..HEADER_LEN]), HEADER_LEN)
  }

  /** The record area up to the cursor holds exactly the appended records. */
  ghost predicate LogOk(mem: seq<u8>, cursor: nat, records: seq<seq<u8>>) {
    HEADER_LEN <= cursor <= |mem| && mem[HEADER_LEN..cursor] == Frames(records)
  }

  lemma AppendKeepsLog(mem: seq<u8>, cursor: nat, records: seq<seq<u8>>, p: seq<u8>)
    requires LogOk(mem, cursor, records) && cursor + 4 + |p| <= |mem|
    ensures LogOk(Written(mem, cursor, Frame(p)), cursor + 4 + |p|, records + [p])
  {
    var mem' := Written(mem, cursor, Frame(p));
    assert (records + [p])[..|records|] == records;
    assert mem'[HEADER_LEN..cursor + 4 + |p|] == mem[HEADER_LEN..cursor] + Frame(p);
  }

  function Payloads(entries: seq<(nat, seq<u8>)>): (r: seq<seq<u8>>)
    ensures |r| == |entries|
  {
    seq(|entries|, i requires 0 <= i < |entries| => entries[i].1)
  }

  /** The records an iteration bounded by `end` sees; none when `end` is inside the header. */
  function RecordsUpTo(mem: seq<u8>, end: nat): seq<seq<u8>>
    requires end <= |mem|
  {
    if end < HEADER_LEN then [] else Records(mem[..end], HEADER_LEN)
  }

  method CopyInto(region: array<u8>, at: nat, bytes: seq<u8>)
    requires at + |bytes| <= region.Length
    modifies region
    ensures region[..] == Written(old(region[..]), at, bytes)
  {
    hide Written;
    ghost var before := region[..];
    WrittenNothing(before, at);
    var i := 0;
    while i < |bytes|
      invariant 0 <= i <= |bytes|
      invariant region[..] == Written(before, at, bytes[..i])
    {
      WrittenOneMore(before, at, bytes, i);
      ghost var now := region[..];
      region[at + i] := bytes[i];
      assert region[..] == now[at + i := bytes[i]];
      i := i + 1;
    }
    assert bytes[..|bytes|] == bytes;
  }

  lemma WrittenNothing(mem: seq<u8>, at: nat)
    requires at <= |mem|
    ensures Written(mem, at, []) == mem
  {
  }

  lemma WrittenOneMore(mem: seq<u8>, at: nat, bytes: seq<u8>, i: nat)
    requires at + |bytes| <= |mem| && i < |bytes|
    ensures |Written(mem, at, bytes[..i])| == |mem|
    ensures Written(mem, at, bytes[..i + 1]) == Written(mem, at, bytes[..i])[at + i := bytes[i]]
  {
  }

  lemma NoFrames()
    ensures Frames([]) == []
  {
  }

  lemma BatchStep(records: seq<seq<u8>>, payloads: seq<seq<u8>>, i: nat)
    requires i < |payloads|
    ensures records + payloads[..i + 1] == records + payloads[..i] + [payloads[i]]
    ensures |Frames(payloads[..i + 1])| == |Frames(payloads[..i])| + 4 + |payloads[i]|
  {
    assert payloads[..i + 1] == payloads[..i] + [payloads[i]];
    FramesConcat(payloads[..i], [payloads[i]]);
    OneFrame(payloads[i]);
  }

  class MmapJournal {
    const region: array<u8>
    var cursor: nat
    ghost var records: seq<seq<u8>>

    ghost predicate Valid()
      reads this, region
    {
      LogOk(region[..], cursor, records)
    }

    constructor (capacity: nat)
      requires HEADER_LEN <= capacity
      ensures Valid() && fresh(region) && region.Length == capacity && cursor == HEADER_LEN && records == []
      ensures HeaderOf(region[..]) == HEADER_LEN
    {
      region := new u8[capacity](_ => 0);
      cursor := HEADER_LEN;
      records := [];
      new;
      ZerosAreZero(region[..HEADER_LEN]);
      assert region[..][..HEADER_LEN] == region[..HEADER_LEN];
    }

    /** Append one record and return its offset; refused exactly when it does not fit. */
    method Append(payload: seq<u8>) returns (r: Option<nat>)
      requires Valid()
      modifies this, region
      ensures Valid()
      ensures r == if old(cursor) + |payload| + 4 > region.Length then None else Some(old(cursor))
      ensures records == old(records) + (if r == None then [] else [payload])
      ensures cursor == HEADER_LEN + |Frames(records)|
      ensures cursor == old(cursor) + (if r == None then 0 else |payload| + 4)
      ensures region[..old(cursor)] == old(region[..cursor])
    {
      var total := |payload| + 4;
      assert records + [] == records;
      if cursor + total > region.Length {
        return None;
      }
      r := Some(cursor);
      AppendKeepsLog(region[..], cursor, records, payload);
      CopyFrame(payload);
      cursor := cursor + total;
      records := records + [payload];
    }

    /** The two copies of an append: length prefix, then payload. */
    method CopyFrame(payload: seq<u8>)
      requires cursor + |payload| + 4 <= region.Length
      modifies region
      ensures region[..] == Written(old(region[..]), cursor, Frame(payload))
      ensures region[..cursor] == old(region[..cursor])
    {
      ghost var before := region[..];
      CopyInto(region, cursor, LeBytes(|payload| % TWO_32, 4));
      CopyInto(region, cursor + 4, payload);
      assert region[..] == Written(before, cursor, Frame(payload));
      assert region[..cursor] == region[..][..cursor] == before[..cursor];
    }

    /** Append records until one does not fit; `written` is the bytes they take. */
    method AppendBatch(payloads: seq<seq<u8>>) returns (written: nat, ghost n: nat)
      requires Valid()
      modifies this, region
      ensures Valid()
      ensures n <= |payloads| && records == old(records) + payloads[..n]
      ensures written == |Frames(payloads[..n])| && cursor == old(cursor) + written
      ensures n < |payloads| ==> cursor + |Frame(payloads[n])| > region.Length
      ensures region[..old(cursor)] == old(region[..cursor])
    {
      hide Frames;
      assert Frames(payloads[..0]) == [] by { NoFrames(); }
      written := 0;
      var i := 0;
      while i < |payloads|
        invariant 0 <= i <= |payloads| && Valid() && old(cursor) <= cursor
        invariant records == old(records) + payloads[..i]
        invariant written == |Frames(payloads[..i])| && cursor == old(cursor) + written
        invariant region[..old(cursor)] == old(region[..cursor])
      {
        ghost var before, was := region[..cursor], cursor;
        BatchStep(old(records), payloads, i);
        var r := Append(payloads[i]);
        assert region[..old(cursor)] == region[..was][..old(cursor)] == before[..old(cursor)];
        if r == None {
          return written, i;
        }
        written := written + |payloads[i]| + 4;
        i := i + 1;
      }
      n := i;
    }

    /**
     The memory side of a commit: the header becomes the cursor unless syncing the data failed first.
     `dataSynced` and `headerSynced` are the outcomes of the two system calls.
     */
    method Commit(dataSynced: bool, headerSynced: bool) returns (r: Option<nat>)
      requires Valid() && region.Length < TWO_64
      modifies region
      ensures Valid()
      ensures r == if (old(cursor) > HEADER_LEN && !dataSynced) || !headerSynced then None else Some(cursor)
      ensures region[..] == if cursor > HEADER_LEN && !dataSynced then old(region[..])
                         else Written(old(region[..]), 0, LeBytes(cursor, HEADER_LEN))
      ensures r.Some? ==> HeaderOf(region[..]) == cursor
    {
      if cursor > HEADER_LEN && !dataSynced {
        return None;
      }
      HeaderKeepsLog(region[..], cursor, records);
      CopyInto(region, 0, LeBytes(cursor, HEADER_LEN));
      if !headerSynced {
        return None;
      }
      r := Some(cursor);
    }

    /** Walk the record area up to `end`. */
    method IterRecords(end: nat) returns (out: seq<(nat, seq<u8>)>)
      requires end <= region.Length
      ensures Payloads(out) == RecordsUpTo(region[..], end)
      ensures OffsetsOk(out)
    {
      hide FromLe, Records, OffsetsOk, Walked, RecordsUpTo;
      out := [];
      var off := HEADER_LEN;
      ghost var mem := region[..];
      WalkStarts(mem, end);
      while off + 4 <= end
        invariant Walked(mem, end, off, out)
        decreases end - off
      {
        var len := FromLe(region[off..off + 4]);
        WalkInBounds(mem, end, off, out);
        assert region[off..off + 4] == mem[off..off + 4];
        if off + 4 + len > end {
          break;
        }
        var payload := region[off + 4..off + 4 + len];
        assert payload == mem[off + 4..off + 4 + len];
        WalkSteps(mem, end, off, out, len);
        out := out + [(off, payload)];
        off := off + 4 + len;
      }
      WalkStops(mem, end, off, out);
    }
  }

  /** Every entry carries the offset of its length prefix. */
  ghost predicate OffsetsOk(out: seq<(nat, seq<u8>)>) {
    forall i :: 0 <= i < |out| ==> out[i].0 == HEADER_LEN + |Frames(Payloads(out)[..i])|
  }

  /** What the walk has read by offset `off`, and what is still ahead of it. */
  ghost predicate Walked(mem: seq<u8>, end: nat, off: nat, out: seq<(nat, seq<u8>)>) {
    && end <= |mem| && OffsetsOk(out)
    && off == HEADER_LEN + |Frames(Payloads(out))|
    && (end < HEADER_LEN ==> out == [])
    && (end >= HEADER_LEN ==> off <= end && Payloads(out) + Records(mem[..end], off) == Records(mem[..end], HEADER_LEN))
  }

  lemma WalkStarts(mem: seq<u8>, end: nat)
    requires end <= |mem|
    ensures Walked(mem, end, HEADER_LEN, [])
  {
    if end >= HEADER_LEN {
      var all := Records(mem[..end], HEADER_LEN);
      assert Payloads([]) + all == all;
    }
  }

  lemma WalkInBounds(mem: seq<u8>, end: nat, off: nat, out: seq<(nat, seq<u8>)>)
    requires Walked(mem, end, off, out)
    ensures end <= |mem| && off >= HEADER_LEN
  {
  }

  lemma RecordsUnfold(mem: seq<u8>, end: nat, off: nat, len: nat)
    requires off + 4 <= end <= |mem| && len == FromLe(mem[off..off + 4]) && off + 4 + len <= end
    ensures Records(mem[..end], off) == [mem[off + 4..off + 4 + len]] + Records(mem[..end], off + 4 + len)
  {
    hide FromLe;
    var buf := mem[..end];
    assert buf[off..off + 4] == mem[off..off + 4] && buf[off + 4..off + 4 + len] == mem[off + 4..off + 4 + len];
  }

  lemma WalkSteps(mem: seq<u8>, end: nat, off: nat, out: seq<(nat, seq<u8>)>, len: nat)
    requires Walked(mem, end, off, out) && off + 4 <= end <= |mem|
    requires len == FromLe(mem[off..off + 4]) && off + 4 + len <= end
    ensures Walked(mem, end, off + 4 + len, out + [(off, mem[off + 4..off + 4 + len])])
  {
    hide FromLe, Records, Frames, Payloads, OffsetsOk;
    var payload := mem[off + 4..off + 4 + len];
    RecordsUnfold(mem, end, off, len);
    var rest := Records(mem[..end], off + 4 + len);
    PushEntry(out, off, payload);
    Assoc(Payloads(out), payload, rest);
  }

  lemma Assoc(a: seq<seq<u8>>, p: seq<u8>, b: seq<seq<u8>>)
    ensures a + [p] + b == a + ([p] + b)
  {
  }

  lemma WalkStops(mem: seq<u8>, end: nat, off: nat, out: seq<(nat, seq<u8>)>)
    requires Walked(mem, end, off, out)
    requires off + 4 > end || off + 4 + FromLe(mem[off..off + 4]) > end
    ensures Payloads(out) == RecordsUpTo(mem, end) && OffsetsOk(out)
  {
    hide FromLe;
    if end >= HEADER_LEN {
      if off + 4 <= end {
        assert mem[..end][off..off + 4] == mem[off..off + 4];
      }
      assert Records(mem[..end], off) == [];
    }
  }

  lemma PushEntry(out: seq<(nat, seq<u8>)>, off: nat, payload: seq<u8>)
    requires OffsetsOk(out) && off == HEADER_LEN + |Frames(Payloads(out))|
    ensures OffsetsOk(out + [(off, payload)])
    ensures Payloads(out + [(off, payload)]) == Payloads(out) + [payload]
    ensures |Frames(Payloads(out) + [payload])| == |Frames(Payloads(out))| + 4 + |payload|
  {
    var out' := out + [(off, payload)];
    var was, now := Payloads(out), Payloads(out');
    assert now == was + [payload];
    assert now[..|now| - 1] == was;
    forall i | 0 <= i < |out'| ensures out'[i].0 == HEADER_LEN + |Frames(now[..i])| {
      assert now[..i] == was[..i];
      assert was[..|was|] == was;
    }
  }

  lemma {:induction false} ZerosAreZero(b: seq<u8>)
    requires forall i :: 0 <= i < |b| ==> b[i] == 0
    ensures FromLe(b) == 0
  {
    if b != [] {
      ZerosAreZero(b[1..]);
    }
  }

  lemma HeaderKeepsLog(mem: seq<u8>, cursor: nat, records: seq<seq<u8>>)
    requires LogOk(mem, cursor, records) && cursor < TWO_64
    ensures LogOk(Written(mem, 0, LeBytes(cursor, HEADER_LEN)), cursor, records)
    ensures HeaderOf(Written(mem, 0, LeBytes(cursor, HEADER_LEN))) == cursor
  {
    var mem' := Written(mem, 0, LeBytes(cursor, HEADER_LEN));
    assert mem'[HEADER_LEN..cursor] == mem[HEADER_LEN..cursor];
    assert mem'[..HEADER_LEN] == LeBytes(cursor, HEADER_LEN);
    Widths();
    LeRoundTrip(cursor, HEADER_LEN);
  }

  /** One framed record reads back as itself exactly when its length fits the 32-bit prefix. */
  lemma FrameReadsBack(p: seq<u8>)
    ensures Records(Frame(p), 0) == [p] <==> |p| < TWO_32
  {
    hide LeBytes, FromLe;
    Widths();
    LeRoundTrip(|p| % TWO_32, 4);
    assert Frame(p)[0..4] == LeBytes(|p| % TWO_32, 4);
    var len := |p| % TWO_32;
    if |p| < TWO_32 {
      OneFrame(p);
      RecordsOfFrames([p]);
    } else {
      assert Records(Frame(p), 0)[0] == Frame(p)[4..4 + len];
      assert |Frame(p)[4..4 + len]| < |p|;
    }
  }

  /** A record of exactly 4 GiB. */
  lemma LongRecordExample()
    ensures var p: seq<u8> := seq(TWO_32, _ => 0); Records(Frame(p), 0) != [p]
  {
    FrameReadsBack(seq(TWO_32, _ => 0));
  }
}
