/** Delivery with retries: a repeated idempotency key leaves no trace. */
module RaftRetries {
  import opened Bytes
  import opened RaftCodec
  import opened RaftFsm

  /** The log after delivering `datas` in order on top of `log`. */
  function Deliver(log: seq<seq<u8>>, datas: seq<seq<u8>>): (r: seq<seq<u8>>)
    requires GoodLog(log) && GoodLog(datas)
    ensures GoodLog(r)
  {
    if datas == [] then log else Accept(Deliver(log, datas[..|datas| - 1]), datas[|datas| - 1])
  }

  lemma {:induction false} DeliverConcat(log: seq<seq<u8>>, a: seq<seq<u8>>, b: seq<seq<u8>>)
    requires GoodLog(log) && GoodLog(a) && GoodLog(b)
    ensures Deliver(log, a + b) == Deliver(Deliver(log, a), b)
  {
    if b == [] {
      assert a + b == a;
    } else {
      assert (a + b)[..|a + b| - 1] == a + b[..|b| - 1];
      DeliverConcat(log, a, b[..|b| - 1]);
    }
  }

  lemma {:induction false} DeliverKeys(log: seq<seq<u8>>, datas: seq<seq<u8>>)
    requires GoodLog(log) && GoodLog(datas)
    ensures Keys(Deliver(log, datas)) == Keys(log) + Keys(datas)
  {
    if datas != [] {
      var n := |datas| - 1;
      DeliverKeys(log, datas[..n]);
      KeysAppend(Deliver(log, datas[..n]), datas[n]);
    }
  }

  /** A retry of a key delivered earlier is invisible wherever it arrives. */
  lemma RetryInvisible(a: seq<seq<u8>>, retry: seq<u8>, b: seq<seq<u8>>)
    requires GoodLog(a) && GoodLog(b) && Decodable(retry)
    requires exists i :: 0 <= i < |a| && Decode(a[i]).0 == Decode(retry).0
    ensures Deliver([], a + [retry] + b) == Deliver([], a + b)
  {
    hide Decode, Decodable, Deliver;
    assert Decodable([retry][0]);
    DeliverConcat([], a + [retry], b);
    DeliverConcat([], a, [retry]);
    DeliverConcat([], a, b);
    DeliverKeys([], a);
    KeysAreCarried(a, Decode(retry).0);
    KeysEmpty();
    DeliverOne(Deliver([], a), retry);
  }

  /**
   Whatever is delivered, exactly the first record of each key is accepted: a record is in the log if
   and only if it is delivered at a place before which its key was not.
   */
  lemma {:induction false} FirstOfEachKey(datas: seq<seq<u8>>, data: seq<u8>)
    requires GoodLog(datas)
    ensures data in Deliver([], datas) <==> exists i :: 0 <= i < |datas| && datas[i] == data && First(datas, i)
  {
    hide Decode, Decodable, First;
    if datas != [] {
      var n := |datas| - 1;
      var before := datas[..n];
      FirstOfEachKey(before, data);
      forall i | 0 <= i < n ensures First(before, i) <==> First(datas, i) {
        FirstPrefix(datas, i);
      }
      DeliverKeys([], before);
      KeysEmpty();
      FirstIfNew(datas);
      if data in Deliver([], before) {
        var i :| 0 <= i < n && before[i] == data && First(before, i);
        assert datas[i] == data && First(datas, i);
      }
      if i :| 0 <= i < |datas| && datas[i] == data && First(datas, i) {
        assert i < n ==> before[i] == data && First(before, i);
      }
    }
  }

  /** No earlier record carries the key of record `i`. */
  predicate First(datas: seq<seq<u8>>, i: nat)
    requires GoodLog(datas) && i < |datas|
  {
    forall j :: 0 <= j < i ==> Decode(datas[j]).0 != Decode(datas[i]).0
  }

  lemma FirstPrefix(datas: seq<seq<u8>>, i: nat)
    requires GoodLog(datas) && i < |datas| - 1
    ensures First(datas[..|datas| - 1], i) <==> First(datas, i)
  {
    hide Decode, Decodable;
    var before := datas[..|datas| - 1];
    assert forall j :: 0 <= j <= i ==> before[j] == datas[j];
  }

  lemma FirstIfNew(datas: seq<seq<u8>>)
    requires GoodLog(datas) && datas != []
    ensures var n := |datas| - 1; First(datas, n) <==> Decode(datas[n]).0 !in Keys(datas[..n])
  {
    hide Decode, Decodable;
    var n := |datas| - 1;
    var key := Decode(datas[n]).0;
    KeysAreCarried(datas[..n], key);
    assert forall j :: 0 <= j < n ==> datas[..n][j] == datas[j];
  }

  lemma DeliverOne(log: seq<seq<u8>>, data: seq<u8>)
    requires GoodLog(log) && Decodable(data)
    ensures Deliver(log, [data]) == Accept(log, data)
  {
    var ds := [data];
    assert ds[..0] == [];
  }
}
