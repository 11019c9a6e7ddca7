/** The journal under crashes: mapped memory, the disk behind it, and write-back at any moment. */
module JournalCrash {
  import opened Bytes
  import opened RaftCodec
  import opened Journal

  /** Where `commit` is: before it, after its data sync, after its header write. */
  datatype Phase = Idle | DataSynced | HeaderWritten

  /**
   `mem` is the mapping and `disk` what survives a crash. The rest is history: the records
   appended, how many of them each header covers, how many are surely on disk, how many the last
   successful commit covered, and the counts at which commits were made.
   */
  datatype State = State(
    mem: seq<u8>, disk: seq<u8>, cursor: nat, phase: Phase,
    records: seq<seq<u8>>, memCut: nat, diskCut: nat, durable: nat, acked: nat, commits: set<nat>)

  datatype Action =
    | Append(payload: seq<u8>)
    | SyncData(ok: bool)
    | WriteHeader
    | SyncHeader(ok: bool, page: nat)
    | WriteBack(bytes: set<nat>, header: bool)

  predicate Enabled(s: State, a: Action) {
    match a
    case Append(_) => s.phase == Idle
    case SyncData(_) => s.phase == Idle
    case WriteHeader => s.phase == DataSynced
    case SyncHeader(_, page) => s.phase == HeaderWritten && page >= HEADER_LEN
    case WriteBack(_, _) => true
  }

  predicate Sized(s: State) {
    HEADER_LEN <= s.cursor <= |s.mem| == |s.disk| < TWO_64
  }

  /** The first `n` bytes reach the disk. */
  function Flushed(disk: seq<u8>, mem: seq<u8>, n: nat): (r: seq<u8>)
    requires |disk| == |mem|
    ensures |r| == |disk|
  {
    if n <= |mem| then mem[..n] + disk[n..] else mem
  }

  /** The kernel writes some bytes of the mapping; the aligned 8-byte header goes out whole or not at all. */
  function WrittenBack(disk: seq<u8>, mem: seq<u8>, bytes: set<nat>, header: bool): (r: seq<u8>)
    requires |disk| == |mem|
    ensures |r| == |disk|
  {
    seq(|disk|, i requires 0 <= i < |disk| =>
      if (if i < HEADER_LEN then header else i in bytes) then mem[i] else disk[i])
  }

  function Do(s: State, a: Action): State
    requires Sized(s) && Enabled(s, a)
  {
    match a
    case Append(p) =>
      if s.cursor + |p| + 4 > |s.mem| then s
      else s.(mem := Written(s.mem, s.cursor, Frame(p)), cursor := s.cursor + 4 + |p|, records := s.records + [p])
    case SyncData(ok) =>
      if s.cursor > HEADER_LEN then
        if ok then
          s.(disk := Flushed(s.disk, s.mem, s.cursor), phase := DataSynced, diskCut := s.memCut, durable := |s.records|)
        else s
      else s.(phase := DataSynced)
    case WriteHeader =>
      s.(mem := Written(s.mem, 0, LeBytes(s.cursor, HEADER_LEN)), phase := HeaderWritten,
         memCut := |s.records|, commits := s.commits + {|s.records|})
    case SyncHeader(ok, page) =>
      if ok then
        s.(disk := Flushed(s.disk, s.mem, page), phase := Idle, diskCut := s.memCut, acked := |s.records|)
      else s.(phase := Idle)
    case WriteBack(bytes, header) =>
      s.(disk := WrittenBack(s.disk, s.mem, bytes, header), diskCut := if header then s.memCut else s.diskCut)
  }

  function Initial(capacity: nat): State {
    State(seq(capacity, _ => 0), seq(capacity, _ => 0), HEADER_LEN, Idle, [], 0, 0, 0, 0, {0})
  }

  /** The cursor after the first `k` records. */
  function Cut(records: seq<seq<u8>>, k: nat): (c: nat)
    requires k <= |records|
    ensures c >= HEADER_LEN
  {
    HEADER_LEN + |Frames(records[..k])|
  }

  /** What reopening after a crash reads: the committed prefix of what is on disk. */
  function Recover(disk: seq<u8>): seq<seq<u8>>
    requires |disk| >= HEADER_LEN && HeaderOf(disk) <= |disk|
  {
    RecordsUpTo(disk, HeaderOf(disk))
  }

  ghost predicate CutsOk(records: seq<seq<u8>>, memCut: nat, diskCut: nat, durable: nat, acked: nat,
      commits: set<nat>) {
    && acked <= diskCut <= memCut <= durable <= |records|
    && diskCut in commits && memCut in commits
  }

  ghost predicate HeadersOk(mem: seq<u8>, disk: seq<u8>, records: seq<seq<u8>>, memCut: nat, diskCut: nat)
    requires |mem| >= HEADER_LEN && |disk| >= HEADER_LEN && memCut <= |records| && diskCut <= |records|
  {
    HeaderOf(mem) == Cut(records, memCut) && HeaderOf(disk) == Cut(records, diskCut)
  }

  /** Disk and memory agree on the records that are durable. */
  ghost predicate DurableOk(mem: seq<u8>, disk: seq<u8>, n: nat) {
    |mem| == |disk| && HEADER_LEN <= n <= |mem| && mem[HEADER_LEN..n] == disk[HEADER_LEN..n]
  }

  ghost predicate Inv(s: State) {
    && Sized(s) && LogOk(s.mem, s.cursor, s.records)
    && CutsOk(s.records, s.memCut, s.diskCut, s.durable, s.acked, s.commits)
    && HeadersOk(s.mem, s.disk, s.records, s.memCut, s.diskCut)
    && DurableOk(s.mem, s.disk, Cut(s.records, s.durable))
    && (s.phase != Idle ==> s.durable == |s.records|)
    && (s.phase == HeaderWritten ==> s.memCut == |s.records|)
  }

  // ---------------------------------------------------------------- effects of the writes

  lemma CutAppend(records: seq<seq<u8>>, p: seq<u8>, k: nat)
    requires k <= |records|
    ensures Cut(records + [p], k) == Cut(records, k)
  {
    assert (records + [p])[..k] == records[..k];
  }

  lemma CutIsBounded(s: State, k: nat)
    requires Sized(s) && LogOk(s.mem, s.cursor, s.records) && k <= |s.records|
    ensures Cut(s.records, k) <= s.cursor && Cut(s.records, |s.records|) == s.cursor
    ensures s.mem[HEADER_LEN..Cut(s.records, k)] == Frames(s.records[..k])
  {
    hide Frames;
    FramesConcat(s.records[..k], s.records[k..]);
    assert s.records[..k] + s.records[k..] == s.records;
    assert s.records[..|s.records|] == s.records;
    var c := Cut(s.records, k);
    var area := s.mem[HEADER_LEN..s.cursor];
    assert area[..c - HEADER_LEN] == Frames(s.records[..k]);
    assert area[..c - HEADER_LEN] == s.mem[HEADER_LEN..c];
  }

  lemma AppendKeeps(s: State, p: seq<u8>)
    requires Inv(s) && s.phase == Idle
    ensures Inv(Do(s, Append(p)))
  {
    hide Frames, FromLe, LeBytes;
    if s.cursor + |p| + 4 <= |s.mem| {
      AppendKeepsLog(s.mem, s.cursor, s.records, p);
      var mem' := Written(s.mem, s.cursor, Frame(p));
      CutIsBounded(s, s.durable);
      CutAppend(s.records, p, s.durable);
      CutAppend(s.records, p, s.memCut);
      CutAppend(s.records, p, s.diskCut);
      var n := Cut(s.records, s.durable);
      assert mem'[HEADER_LEN..n] == s.mem[HEADER_LEN..n];
      assert mem'[..HEADER_LEN] == s.mem[..HEADER_LEN];
    }
  }

  lemma SyncDataKeeps(s: State, ok: bool)
    requires Inv(s) && s.phase == Idle
    ensures Inv(Do(s, SyncData(ok)))
  {
    hide Frames, FromLe, LeBytes;
    CutIsBounded(s, |s.records|);
    var disk' := Flushed(s.disk, s.mem, s.cursor);
    assert disk'[HEADER_LEN..s.cursor] == s.mem[HEADER_LEN..s.cursor];
    assert disk'[..HEADER_LEN] == s.mem[..HEADER_LEN];
    if s.cursor == HEADER_LEN {
      NoRecords(s);
    }
  }

  lemma NoRecords(s: State)
    requires Sized(s) && LogOk(s.mem, s.cursor, s.records) && s.cursor == HEADER_LEN
    ensures s.records == []
  {
  }

  lemma WriteHeaderKeeps(s: State)
    requires Inv(s) && s.phase == DataSynced
    ensures Inv(Do(s, WriteHeader))
  {
    hide Frames, FromLe, LeBytes;
    CutIsBounded(s, |s.records|);
    HeaderKeepsLog(s.mem, s.cursor, s.records);
    var mem' := Written(s.mem, 0, LeBytes(s.cursor, HEADER_LEN));
    assert mem'[HEADER_LEN..s.cursor] == s.mem[HEADER_LEN..s.cursor];
  }

  lemma SyncHeaderKeeps(s: State, ok: bool, page: nat)
    requires Inv(s) && s.phase == HeaderWritten && page >= HEADER_LEN
    ensures Inv(Do(s, SyncHeader(ok, page)))
  {
    hide Frames, FromLe, LeBytes;
    var disk' := Flushed(s.disk, s.mem, page);
    var n := Cut(s.records, s.durable);
    assert disk'[..HEADER_LEN] == s.mem[..HEADER_LEN];
    forall i | HEADER_LEN <= i < n ensures disk'[i] == s.mem[i] {
      assert s.mem[HEADER_LEN..n][i - HEADER_LEN] == s.disk[HEADER_LEN..n][i - HEADER_LEN];
    }
    assert disk'[HEADER_LEN..n] == s.mem[HEADER_LEN..n];
  }

  lemma WriteBackKeeps(s: State, bytes: set<nat>, header: bool)
    requires Inv(s)
    ensures Inv(Do(s, WriteBack(bytes, header)))
  {
    hide Frames, FromLe, LeBytes;
    var disk' := WrittenBack(s.disk, s.mem, bytes, header);
    var n := Cut(s.records, s.durable);
    assert disk'[..HEADER_LEN] == if header then s.mem[..HEADER_LEN] else s.disk[..HEADER_LEN];
    forall i | HEADER_LEN <= i < n ensures disk'[i] == s.mem[i] {
      assert s.mem[HEADER_LEN..n][i - HEADER_LEN] == s.disk[HEADER_LEN..n][i - HEADER_LEN];
    }
    assert disk'[HEADER_LEN..n] == s.mem[HEADER_LEN..n];
  }

  lemma DoKeeps(s: State, a: Action)
    requires Inv(s) && Enabled(s, a)
    ensures Inv(Do(s, a))
  {
    hide Inv, Do;
    match a
    case Append(p) => AppendKeeps(s, p);
    case SyncData(ok) => SyncDataKeeps(s, ok);
    case WriteHeader => WriteHeaderKeeps(s);
    case SyncHeader(ok, page) => SyncHeaderKeeps(s, ok, page);
    case WriteBack(bytes, header) => WriteBackKeeps(s, bytes, header);
  }

  // ---------------------------------------------------------------- whole runs

  ghost predicate IsRun(capacity: nat, run: seq<State>, actions: seq<Action>) {
    && |run| == |actions| + 1 && run[0] == Initial(capacity)
    && forall i {:trigger actions[i]} :: 0 <= i < |actions| ==>
         Sized(run[i]) && Enabled(run[i], actions[i]) && run[i + 1] == Do(run[i], actions[i])
  }

  lemma InitialInv(capacity: nat)
    requires HEADER_LEN <= capacity < TWO_64
    ensures Inv(Initial(capacity))
  {
    var s := Initial(capacity);
    ZerosAreZero(s.mem[..HEADER_LEN]);
  }

  lemma {:induction false} RunInv(capacity: nat, run: seq<State>, actions: seq<Action>, i: nat)
    requires HEADER_LEN <= capacity < TWO_64 && IsRun(capacity, run, actions) && i < |run|
    ensures Inv(run[i])
  {
    hide Inv, Do;
    if i == 0 {
      InitialInv(capacity);
    } else {
      RunInv(capacity, run, actions, i - 1);
      DoKeeps(run[i - 1], actions[i - 1]);
    }
  }

  lemma RecoverInv(s: State)
    requires Inv(s) && ShortLog(s.records)
    ensures HeaderOf(s.disk) <= |s.disk| && Recover(s.disk) == s.records[..s.diskCut]
  {
    hide FromLe, Frames, Records;
    CutIsBounded(s, s.diskCut);
    CutIsBounded(s, s.durable);
    DiskHoldsCut(s);
    var c := HeaderOf(s.disk);
    var log := s.records[..s.diskCut];
    assert s.disk[..c] == s.disk[..HEADER_LEN] + Frames(log);
    RecordsPrefix(s.disk[..HEADER_LEN], Frames(log), 0);
    RecordsOfFrames(log);
  }

  lemma DiskHoldsCut(s: State)
    requires Inv(s)
    ensures Cut(s.records, s.diskCut) <= |s.disk|
    ensures s.disk[HEADER_LEN..Cut(s.records, s.diskCut)] == Frames(s.records[..s.diskCut])
  {
    hide FromLe, Frames, HeadersOk;
    CutIsBounded(s, s.diskCut);
    CutIsBounded(s, s.durable);
    CutsOrdered(s.records, s.diskCut, s.durable);
    var c, n := Cut(s.records, s.diskCut), Cut(s.records, s.durable);
    assert s.disk[HEADER_LEN..n][..c - HEADER_LEN] == s.disk[HEADER_LEN..c];
    assert s.mem[HEADER_LEN..n][..c - HEADER_LEN] == s.mem[HEADER_LEN..c];
  }

  lemma CutsOrdered(records: seq<seq<u8>>, j: nat, k: nat)
    requires j <= k <= |records|
    ensures Cut(records, j) <= Cut(records, k)
  {
    FramesConcat(records[..j], records[j..k]);
    assert records[..j] + records[j..k] == records[..k];
  }

  /** An append that fits adds its record, and one that does not changes nothing. */
  lemma AppendsRecord(s: State, p: seq<u8>)
    requires Inv(s) && s.phase == Idle
    ensures var s' := Do(s, Append(p));
      if s.cursor + 4 + |p| <= |s.mem| then s'.records == s.records + [p] && s'.disk == s.disk else s' == s
  {
  }

  /** A commit whose syncs succeed goes through, and a crash right after it loses nothing appended so far. */
  lemma CommitCompletes(s: State, page: nat)
    requires Inv(s) && s.phase == Idle && ShortLog(s.records) && page >= HEADER_LEN
    ensures var synced := Do(s, SyncData(true));
      && Sized(synced) && Enabled(synced, WriteHeader)
      && var written := Do(synced, WriteHeader);
         && Sized(written) && Enabled(written, SyncHeader(true, page))
         && var done := Do(written, SyncHeader(true, page));
            && done.phase == Idle && done.records == s.records
            && HEADER_LEN <= |done.disk| && HeaderOf(done.disk) <= |done.disk| && Recover(done.disk) == s.records
  {
    hide FromLe, LeBytes, Frames, Records, Recover, Written;
    DoKeeps(s, SyncData(true));
    var synced := Do(s, SyncData(true));
    DoKeeps(synced, WriteHeader);
    var written := Do(synced, WriteHeader);
    DoKeeps(written, SyncHeader(true, page));
    var done := Do(written, SyncHeader(true, page));
    RecoverInv(done);
    assert done.records[..|done.records|] == done.records;
  }

  /**
   Whenever the crash comes, recovery returns exactly the records that preceded some commit, and
   that commit is no earlier than the last one that reported success.
   */
  lemma CrashRecoversACommit(capacity: nat, run: seq<State>, actions: seq<Action>, i: nat)
    requires HEADER_LEN <= capacity < TWO_64 && IsRun(capacity, run, actions) && i < |run|
    requires ShortLog(run[i].records)
    ensures |run[i].disk| >= HEADER_LEN && HeaderOf(run[i].disk) <= |run[i].disk|
    ensures exists k: nat :: k in run[i].commits && run[i].acked <= k <= |run[i].records|
                             && Recover(run[i].disk) == run[i].records[..k]
  {
    RunInv(capacity, run, actions, i);
    RecoverInv(run[i]);
    var k: nat := run[i].diskCut;
    assert k in run[i].commits && Recover(run[i].disk) == run[i].records[..k];
  }

  /** Once a commit has reported success, everything appended before it survives every later crash. */
  lemma CommittedSurvives(capacity: nat, run: seq<State>, actions: seq<Action>, c: nat, i: nat)
    requires HEADER_LEN <= capacity < TWO_64 && IsRun(capacity, run, actions) && c < i < |run|
    requires actions[c].SyncHeader? && actions[c].ok
    requires ShortLog(run[i].records)
    ensures |run[i].disk| >= HEADER_LEN && HeaderOf(run[i].disk) <= |run[i].disk|
    ensures run[c].records <= Recover(run[i].disk)
  {
    RunInv(capacity, run, actions, i);
    RecoverInv(run[i]);
    RunInv(capacity, run, actions, c);
    assert run[c + 1] == Do(run[c], actions[c]);
    AckedGrows(capacity, run, actions, c + 1, i);
  }

  lemma {:induction false} AckedGrows(capacity: nat, run: seq<State>, actions: seq<Action>, j: nat, i: nat)
    requires HEADER_LEN <= capacity < TWO_64 && IsRun(capacity, run, actions) && j <= i < |run|
    ensures run[j].acked <= run[i].acked && run[j].records <= run[i].records
    decreases i
  {
    if j < i {
      AckedGrows(capacity, run, actions, j, i - 1);
      RunInv(capacity, run, actions, i - 1);
      assert run[i] == Do(run[i - 1], actions[i - 1]);
    }
  }
}
