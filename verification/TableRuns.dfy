/**
 Runs of calls on the sharded table. Such a run is a run of the plain map, so what `PlaneRuns` and
 `ControlRuns` prove of the map holds of the table; and whether a new key finds room depends only on how
 many keys the map has in its shard.
 */
module TableRuns {
  import opened Entry
  import opened Control
  import opened PlaneRuns
  import opened Table
  import opened Counting

  /** The key is already there, or its shard has a slot to spare. */
  ghost predicate Fits(entries: Plane, a: KeyAddress, n: nat, capacity: nat)
    requires n > 0
  {
    a in entries || |KeysOf(entries, n, a.placement % n, a.placement % n + 1)| < capacity
  }

  /** A new key finds no room if and only if its shard already has as many keys as slots. */
  lemma NoRoomIffFull(c: Cachelito, a: KeyAddress)
    requires c.Valid()
    ensures c.NoRoomFor(a) <==> !Fits(c.contents, a, |c.shards|, c.capacityPerShard)
  {
    var s := ShardFor(c.shards, a);
    var slots := c.shards[s];
    var keys := KeysOf(c.contents, |c.shards|, s, s + 1);
    ShardCountIsKeyCount(c.shards, c.contents, s, Any);
    assert Among(keys, c.contents, Any) == keys;
    if a in c.contents {
      assert Stored(slots, a);
      var i: nat :| i < |slots| && Holds(slots[i], a);
      assert !HoldsOther(slots[i], a);
    } else {
      forall i: nat | i < |slots| ensures !Holds(slots[i], a) && (Has(slots[i], Any) <==> HoldsOther(slots[i], a)) {
        assert SlotAgrees(c.shards, s, i, c.contents);
      }
    }
  }

  datatype Request = Request(address: KeyAddress, op: Op, now: nat)

  /** The plain map serves a request, with room for exactly the keys that fit. */
  ghost function ServeOne(p: PlaneState, q: Request, shards: nat, capacity: nat): (PlaneState, Reply)
    requires shards > 0
  {
    PlaneStep(p, q.address, q.op, q.now, Fits(p.entries, q.address, shards, capacity))
  }

  /** The plain map after the first `i` requests. */
  ghost function ServeAll(p: PlaneState, requests: seq<Request>, i: nat, shards: nat, capacity: nat): PlaneState
    requires i <= |requests| && shards > 0
  {
    if i == 0 then p else ServeOne(ServeAll(p, requests, i - 1, shards, capacity), requests[i - 1], shards, capacity).0
  }

  method Serve(c: Cachelito, q: Request) returns (reply: Reply)
    requires c.Valid()
    modifies c
    ensures c.Valid() && |c.shards| == |old(c.shards)|
    ensures (c.State(), reply) == ServeOne(old(c.State()), q, |c.shards|, c.capacityPerShard)
  {
    NoRoomIffFull(c, q.address);
    reply := c.Apply(q.address, q.op, q.now);
  }

  /** The plain map's answer to request `i`. */
  ghost function ReplyFor(p: PlaneState, requests: seq<Request>, i: nat, shards: nat, capacity: nat): Reply
    requires i < |requests| && shards > 0
  {
    ServeOne(ServeAll(p, requests, i, shards, capacity), requests[i], shards, capacity).1
  }

  method ServeNext(c: Cachelito, requests: seq<Request>, k: nat, ghost p: PlaneState) returns (reply: Reply)
    requires c.Valid() && k < |requests| && c.State() == ServeAll(p, requests, k, |c.shards|, c.capacityPerShard)
    modifies c
    ensures c.Valid() && |c.shards| == |old(c.shards)|
    ensures c.State() == ServeAll(p, requests, k + 1, |c.shards|, c.capacityPerShard)
    ensures reply == ReplyFor(p, requests, k, |c.shards|, c.capacityPerShard)
  {
    reply := Serve(c, requests[k]);
  }

  /** Any sequence of requests on any table: contents and replies are those of the plain map. */
  method ServeRequests(c: Cachelito, requests: seq<Request>) returns (replies: seq<Reply>)
    requires c.Valid()
    modifies c
    ensures c.Valid() && |c.shards| == |old(c.shards)| && |replies| == |requests|
    ensures c.State() == ServeAll(old(c.State()), requests, |requests|, |c.shards|, c.capacityPerShard)
    ensures forall i :: 0 <= i < |requests| ==> replies[i] == ReplyFor(old(c.State()), requests, i, |c.shards|, c.capacityPerShard)
  {
    replies := [];
    ghost var p, n := c.State(), |c.shards|;
    for k := 0 to |requests|
      invariant c.Valid() && |c.shards| == n && |replies| == k
      invariant c.State() == ServeAll(p, requests, k, n, c.capacityPerShard)
      invariant forall i :: 0 <= i < k ==> replies[i] == ReplyFor(p, requests, i, n, c.capacityPerShard)
    {
      var reply := ServeNext(c, requests, k, p);
      replies := replies + [reply];
    }
  }

  /** The calls the plain map sees, each with its room. */
  ghost function TraceOf(requests: seq<Request>, i: nat, shards: nat, capacity: nat): (trace: seq<PlaneCall>)
    requires i <= |requests| && shards > 0
    ensures |trace| == i
  {
    if i == 0 then []
    else
      var q := requests[i - 1];
      var before := ServeAll(EMPTY_PLANE, requests, i - 1, shards, capacity);
      TraceOf(requests, i - 1, shards, capacity)
      + [PlaneCall(q.address, q.op, q.now, Fits(before.entries, q.address, shards, capacity))]
  }

  lemma {:induction false} PlaneAfterIgnoresLaterCalls(trace: seq<PlaneCall>, c: PlaneCall, i: nat)
    requires i <= |trace|
    ensures PlaneAfter(trace + [c], i) == PlaneAfter(trace, i)
  {
    if i > 0 {
      PlaneAfterIgnoresLaterCalls(trace, c, i - 1);
    }
  }

  /** From an empty plane, serving requests is a run in the sense of `PlaneRuns`. */
  lemma {:induction false} ServingIsARun(requests: seq<Request>, i: nat, shards: nat, capacity: nat)
    requires i <= |requests| && shards > 0
    ensures ServeAll(EMPTY_PLANE, requests, i, shards, capacity) == PlaneAfter(TraceOf(requests, i, shards, capacity), i)
  {
    if i > 0 {
      ServingIsARun(requests, i - 1, shards, capacity);
      var before, all := TraceOf(requests, i - 1, shards, capacity), TraceOf(requests, i, shards, capacity);
      assert all == before + [all[i - 1]];
      PlaneAfterIgnoresLaterCalls(before, all[i - 1], i - 1);
    }
  }

  /** On a new table, a run of requests leaves exactly what the same run of the plain map leaves. */
  method RunRequests(shardCount: nat, capacity: nat, requests: seq<Request>) returns (c: Cachelito, replies: seq<Reply>)
    ensures c.Valid() && |c.shards| == (if shardCount == 0 then 1 else shardCount) && |replies| == |requests|
    ensures c.State() == PlaneAfter(TraceOf(requests, |requests|, |c.shards|, capacity), |requests|)
    ensures forall i :: 0 <= i < |requests| ==>
              replies[i] == ServeOne(PlaneAfter(TraceOf(requests, i, |c.shards|, capacity), i), requests[i], |c.shards|, capacity).1
  {
    c := new Cachelito(shardCount, capacity);
    replies := ServeRequests(c, requests);
    forall i | 0 <= i <= |requests|
      ensures ServeAll(EMPTY_PLANE, requests, i, |c.shards|, capacity) == PlaneAfter(TraceOf(requests, i, |c.shards|, capacity), i)
    {
      ServingIsARun(requests, i, |c.shards|, capacity);
    }
  }
}
