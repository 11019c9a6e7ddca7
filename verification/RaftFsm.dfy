/** The replicated matching state machine: idempotent apply, command log, snapshot and restore by replay. */
module RaftFsm {
  import opened Common
  import opened HpTypes
  import opened HpSpec
  import opened HpRuns
  import opened Bytes
  import opened RaftCodec
  import HpEngine
  import PriceTime

  datatype FsmState = FsmState(engine: EngineState, cmds: seq<u8>, idem: set<nat>, fills: nat, revokes: nat)

  function CountFills(es: seq<HpEvent>): nat {
    if es == [] then 0 else CountFills(es[..|es| - 1]) + (if es[|es| - 1].Fill? then 1 else 0)
  }

  function CountRevokes(es: seq<HpEvent>): nat {
    if es == [] then 0 else CountRevokes(es[..|es| - 1]) + (if es[|es| - 1].Revoke? then 1 else 0)
  }

  lemma {:induction false} CountsAdd(a: seq<HpEvent>, b: seq<HpEvent>)
    ensures CountFills(a + b) == CountFills(a) + CountFills(b)
    ensures CountRevokes(a + b) == CountRevokes(a) + CountRevokes(b)
  {
    if b == [] {
      assert a + b == a;
    } else {
      assert (a + b)[..|a + b| - 1] == a + b[..|b| - 1];
      CountsAdd(a, b[..|b| - 1]);
    }
  }

  ghost function IsFill(): HpEvent -> bool {
    (e: HpEvent) => e.Fill?
  }

  ghost function IsRevoke(): HpEvent -> bool {
    (e: HpEvent) => e.Revoke?
  }

  /** The counters are numbers of events: how many places of the log hold a fill, and how many a revoke. */
  lemma {:induction false} CountsAreNumbers(es: seq<HpEvent>)
    ensures CountFills(es) == |Where(es, IsFill())| && CountRevokes(es) == |Where(es, IsRevoke())|
  {
    if es == [] {
      assert Where(es, IsFill()) == {} && Where(es, IsRevoke()) == {};
    } else {
      CountsAreNumbers(es[..|es| - 1]);
      WhereSnoc(es, IsFill());
      WhereSnoc(es, IsRevoke());
    }
  }

  /** A log the decoder accepts and whose lengths fit the frame prefix. */
  predicate GoodLog(log: seq<seq<u8>>) {
    forall i :: 0 <= i < |log| ==> Decodable(log[i])
  }

  function Cmds(log: seq<seq<u8>>): (r: seq<HpCommand>)
    requires forall i :: 0 <= i < |log| ==> Decodable(log[i])
    ensures |r| == |log|
  {
    seq(|log|, i requires 0 <= i < |log| => Decode(log[i]).1)
  }

  function Keys(log: seq<seq<u8>>): set<nat>
    requires forall i :: 0 <= i < |log| ==> Decodable(log[i])
  {
    if log == [] then {} else Keys(log[..|log| - 1]) + {Decode(log[|log| - 1]).0}
  }

  /** The keys of a log are those its records carry. */
  lemma {:induction false} KeysAreCarried(log: seq<seq<u8>>, key: nat)
    requires GoodLog(log)
    ensures key in Keys(log) <==> exists i :: 0 <= i < |log| && Decode(log[i]).0 == key
  {
    hide Decode, Decodable;
    if log != [] {
      var n := |log| - 1;
      KeysAreCarried(log[..n], key);
      if key in Keys(log[..n]) {
        var i :| 0 <= i < n && Decode(log[..n][i]).0 == key;
        assert log[i] == log[..n][i];
      }
      if i :| 0 <= i < |log| && Decode(log[i]).0 == key {
        assert i < n ==> log[..n][i] == log[i];
      }
    }
  }

  /** The log after one more delivery. */
  function Accept(log: seq<seq<u8>>, data: seq<u8>): seq<seq<u8>>
    requires GoodLog(log) && Decodable(data)
  {
    if Decode(data).0 in Keys(log) then log else log + [data]
  }

  lemma InitialWellFormed()
    ensures WellFormed(INITIAL)
  {
  }

  /** The state a command log stands for. */
  ghost function Build(log: seq<seq<u8>>): FsmState
    requires forall i :: 0 <= i < |log| ==> Decodable(log[i])
  {
    InitialWellFormed();
    var es := Log(INITIAL, Cmds(log));
    FsmState(Run(INITIAL, Cmds(log)), Frames(log), Keys(log), CountFills(es), CountRevokes(es))
  }

  /** One more applied command. */
  ghost function Applied(st: FsmState, data: seq<u8>): FsmState
    requires Decodable(data) && PriceTime.PositiveOpen(st.engine.orders)
  {
    var (key, cmd) := Decode(data);
    var (engine, es) := Step(st.engine, cmd);
    FsmState(engine, st.cmds + Frame(data), st.idem + {key}, st.fills + CountFills(es), st.revokes + CountRevokes(es))
  }

  lemma BuildAppend(log: seq<seq<u8>>, data: seq<u8>)
    requires (forall i :: 0 <= i < |log| ==> Decodable(log[i])) && Decodable(data)
    ensures WellFormed(Build(log).engine)
    ensures Build(log + [data]) == Applied(Build(log), data)
  {
    hide Step, Decode, Decodable, Frame;
    InitialWellFormed();
    var log' := log + [data];
    assert log'[..|log|] == log;
    assert Cmds(log')[..|log|] == Cmds(log);
    assert Cmds(log')[|log|] == Decode(data).1;
    var s := Run(INITIAL, Cmds(log));
    CountsAdd(Log(INITIAL, Cmds(log)), Step(s, Decode(data).1).1);
  }

  lemma BuildEmpty()
    ensures Build([]) == FsmState(INITIAL, [], {}, 0, 0) && Keys([]) == {}
  {
  }

  lemma BuildParts(log: seq<seq<u8>>)
    requires forall i :: 0 <= i < |log| ==> Decodable(log[i])
    ensures Build(log).cmds == Frames(log) && Build(log).idem == Keys(log)
  {
  }

  /** One step of reading the log. */
  lemma RecordsBounds(buf: seq<u8>, off: nat)
    requires off <= |buf|
    ensures off + 4 > |buf| ==> Records(buf, off) == []
    ensures off + 4 <= |buf| ==>
      var len := FromLe(buf[off..off + 4]);
      Records(buf, off)
          == if off + 4 + len > |buf| then [] else [buf[off + 4..off + 4 + len]] + Records(buf, off + 4 + len)
  {
  }

  datatype Snapshot = Snapshot(cmds: seq<u8>, idem: set<nat>)

  lemma NextRecord(records: seq<seq<u8>>, log: seq<seq<u8>>, data: seq<u8>, rest: seq<seq<u8>>)
    requires records == log + ([data] + rest)
    ensures records == log + [data] + rest
  {
  }

  class GroupState {
    const engine: HpEngine.Engine
    var cmds: seq<u8>
    var idem: set<nat>
    var fills: nat
    var revokes: nat
    /** The applied payloads, oldest first. */
    ghost var log: seq<seq<u8>>

    ghost function State(): FsmState
      reads this, engine, engine.book, engine.book.store
    {
      FsmState(engine.State(), cmds, idem, fills, revokes)
    }

    ghost predicate Valid()
      reads this, engine, engine.book, engine.book.store
    {
      engine.Valid() && GoodLog(log) && State() == Build(log)
    }

    constructor ()
      ensures Valid() && log == [] && State() == FsmState(INITIAL, [], {}, 0, 0)
      ensures fresh(engine) && fresh(engine.book) && fresh(engine.book.store)
    {
      engine := new HpEngine.Engine();
      cmds := [];
      idem := {};
      fills := 0;
      revokes := 0;
      log := [];
    }

    /** Execute one decoded command on the engine and count its events. */
    method Execute(cmd: HpCommand) returns (es: seq<HpEvent>)
      requires engine.Valid()
      modifies this`fills, this`revokes, engine`events, engine`clientToId, engine.book, engine.book.store
      ensures engine.Valid()
      ensures PriceTime.PositiveOpen(old(engine.State()).orders)
      ensures engine.State() == Step(old(engine.State()), cmd).0 && es == Step(old(engine.State()), cmd).1
      ensures fills == old(fills) + CountFills(es) && revokes == old(revokes) + CountRevokes(es)
    {
      hide HpEngine.Engine.Valid, Step, CountFills, CountRevokes;
      engine.OrdersPositive();
      es := engine.OnOrder(cmd);
      fills := fills + CountFills(es);
      revokes := revokes + CountRevokes(es);
    }

    /** Apply a replicated payload: a key seen before changes nothing and has no effects. */
    method Apply(data: seq<u8>) returns (effects: seq<HpEvent>)
      requires Valid() && Decodable(data)
      modifies this, engine`events, engine`clientToId, engine.book, engine.book.store
      ensures Valid()
      ensures GoodLog(old(log)) && log == Accept(old(log), data)
      ensures Decode(data).0 in old(idem) ==> State() == old(State()) && log == old(log) && effects == []
      ensures Decode(data).0 !in old(idem) ==>
        && log == old(log) + [data]
        && PriceTime.PositiveOpen(old(State()).engine.orders)
        && State() == Applied(old(State()), data)
        && effects == Step(old(State()).engine, Decode(data).1).1
    {
      hide Step, Decode, Decodable, Build, Frame, HpEngine.Engine.Valid;
      BuildParts(log);
      var (key, cmd) := Decode(data);
      if key in idem {
        return [];
      }
      BuildAppend(log, data);
      idem := idem + {key};
      cmds := cmds + Frame(data);
      effects := Execute(cmd);
      log := log + [data];
    }

    method TakeSnapshot() returns (s: Snapshot)
      requires Valid()
      ensures s == Snapshot(Frames(log), Keys(log))
    {
      s := Snapshot(cmds, idem);
    }

    /** The engine and the counters are those of the log replayed so far. */
    ghost predicate Replayed()
      reads this, engine, engine.book, engine.book.store
    {
      && engine.Valid()
      && (forall i :: 0 <= i < |log| ==> Decodable(log[i]))
      && engine.State() == Build(log).engine
      && fills == Build(log).fills && revokes == Build(log).revokes
    }

    method ReplayOne(data: seq<u8>)
      requires Replayed() && Decodable(data)
      modifies this`idem, this`fills, this`revokes, this`log, engine`events, engine`clientToId, engine.book,
          engine.book.store
      ensures Replayed() && log == old(log) + [data]
      ensures idem == old(idem) + {Decode(data).0}
    {
      hide Step, Decode, Decodable, Frame, HpEngine.Engine.Valid, HpEngine.Engine.State, Build, CountFills,
          CountRevokes;
      var (key, cmd) := Decode(data);
      BuildAppend(log, data);
      idem := idem + {key};
      var _ := Execute(cmd);
      log := log + [data];
    }

    /** Run every complete record of the command log through the engine. */
    method ReplayAll()
      requires Replayed() && log == []
      requires forall i :: 0 <= i < |Records(cmds, 0)| ==> Decodable(Records(cmds, 0)[i])
      modifies this`idem, this`fills, this`revokes, this`log, engine`events, engine`clientToId, engine.book,
          engine.book.store
      ensures Replayed() && log == Records(cmds, 0)
      ensures idem == old(idem) + Keys(log)
    {
      hide Decode, Decodable, Replayed, Records, FromLe;
      var off := 0;
      ghost var records := Records(cmds, 0);
      KeysEmpty();
      while off + 4 <= |cmds|
        invariant 0 <= off <= |cmds|
        invariant Replayed()
        invariant records == log + Records(cmds, off)
        invariant forall i :: 0 <= i < |log| ==> Decodable(log[i])
        invariant idem == old(idem) + Keys(log)
        decreases |cmds| - off
      {
        var len := FromLe(cmds[off..off + 4]);
        RecordsBounds(cmds, off);
        if off + 4 + len > |cmds| {
          break;
        }
        var data := cmds[off + 4..off + 4 + len];
        assert data == records[|log|];
        KeysAppend(log, data);
        NextRecord(records, log, data, Records(cmds, off + 4 + len));
        ReplayOne(data);
        off := off + 4 + len;
      }
      RecordsBounds(cmds, off);
      assert log + [] == log;
    }

    /** Restore from a snapshot: replay every complete record on a new engine. */
    constructor Restore(s: Snapshot)
      requires forall i :: 0 <= i < |Records(s.cmds, 0)| ==> Decodable(Records(s.cmds, 0)[i])
      ensures var records := Records(s.cmds, 0);
        State() == Build(records).(cmds := s.cmds, idem := s.idem + Keys(records))
      ensures engine.Valid() && log == Records(s.cmds, 0)
      ensures fresh(engine) && fresh(engine.book) && fresh(engine.book.store)
    {
      engine := new HpEngine.Engine();
      cmds := s.cmds;
      idem := s.idem;
      fills := 0;
      revokes := 0;
      log := [];
      new;
      hide Decode, Decodable, Records, Build, HpEngine.Engine.Valid, HpEngine.Engine.State;
      BuildEmpty();
      ReplayAll();
    }
  }

  lemma KeysEmpty()
    ensures Keys([]) == {}
  {
  }

  lemma KeysAppend(log: seq<seq<u8>>, data: seq<u8>)
    requires (forall i :: 0 <= i < |log| ==> Decodable(log[i])) && Decodable(data)
    ensures Keys(log + [data]) == Keys(log) + {Decode(data).0}
  {
    assert (log + [data])[..|log|] == log;
  }

  /** What a group holds, read from its log: the engine after its commands, their keys, its events counted. */
  lemma GroupReads(g: GroupState)
    requires g.Valid()
    ensures WellFormed(INITIAL)
    ensures var es := Log(INITIAL, Cmds(g.log));
      && g.engine.State() == Run(INITIAL, Cmds(g.log))
      && g.fills == |Where(es, IsFill())| && g.revokes == |Where(es, IsRevoke())|
      && (forall key :: key in g.idem <==> exists i :: 0 <= i < |g.log| && Decode(g.log[i]).0 == key)
  {
    hide Decode, Decodable, HpEngine.Engine.Valid, HpEngine.Engine.State, Run, Log;
    InitialWellFormed();
    CountsAreNumbers(Log(INITIAL, Cmds(g.log)));
    forall key ensures key in g.idem <==> exists i :: 0 <= i < |g.log| && Decode(g.log[i]).0 == key {
      KeysAreCarried(g.log, key);
    }
  }

  /** A state restored from another state's snapshot is that state, as long as its log reads back. */
  method SnapshotRestores(original: GroupState) returns (copy: GroupState)
    requires original.Valid() && ShortLog(original.log)
    ensures copy.Valid() && copy.State() == original.State() && copy.log == original.log
  {
    hide Build, Decode;
    var s := original.TakeSnapshot();
    RecordsOfFrames(original.log);
    BuildParts(original.log);
    copy := new GroupState.Restore(s);
  }
}
