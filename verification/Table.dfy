/**
 The control plane's storage: shards of open-addressed slots, probed linearly from a key's placement.
 `Shard` and `Cachelito` are shown to behave as one plain map from address to entry, under every
 placement, all keys colliding included.
 */
module Table {
  import opened Entry
  import opened Control
  import opened Probing

  type Slots = seq<Option<ControlEntry>>

  predicate Holds(slot: Option<ControlEntry>, a: KeyAddress) {
    slot.Some? && slot.value.address == a
  }

  predicate HoldsOther(slot: Option<ControlEntry>, a: KeyAddress) {
    slot.Some? && slot.value.address != a
  }

  /** The first `k` slots on `a`'s probe sequence all belong to other addresses. */
  predicate ClearPath(slots: Slots, a: KeyAddress, k: nat)
    requires |slots| > 0 && k <= |slots|
  {
    forall j: nat :: j < k ==> HoldsOther(slots[Probe(a.placement % |slots|, j, |slots|)], a)
  }

  /** The entry in slot `i`, if any, is reached from its home past slots of other addresses only. */
  predicate IsReached(slots: Slots, i: nat)
    requires i < |slots|
  {
    slots[i].Some? ==>
      var a := slots[i].value.address;
      ClearPath(slots, a, Distance(a.placement % |slots|, i, |slots|))
  }

  /** Every entry is. This is what lets a lookup stop at the first empty slot. */
  predicate WellPlaced(slots: Slots) {
    forall i: nat {:trigger IsReached(slots, i)} :: i < |slots| ==> IsReached(slots, i)
  }

  lemma AddressesAreUnique(slots: Slots, i: nat, j: nat)
    requires WellPlaced(slots) && i < |slots| && j < |slots|
    requires slots[i].Some? && slots[j].Some? && slots[i].value.address == slots[j].value.address
    ensures i == j
  {
    var a := slots[i].value.address;
    var home := a.placement % |slots|;
    assert IsReached(slots, i) && IsReached(slots, j);
    assert ClearPath(slots, a, Distance(home, i, |slots|)) && ClearPath(slots, a, Distance(home, j, |slots|));
  }

  /** A clear path to an empty slot, or all the way round, proves the address is nowhere in the table. */
  lemma ClearPathMeansAbsent(slots: Slots, a: KeyAddress, k: nat, i: nat)
    requires |slots| > 0 && k <= |slots| && i < |slots|
    requires WellPlaced(slots) && ClearPath(slots, a, k)
    requires k < |slots| ==> slots[Probe(a.placement % |slots|, k, |slots|)].None?
    ensures !Holds(slots[i], a)
  {
    var d := Distance(a.placement % |slots|, i, |slots|);
    assert IsReached(slots, i);
    assert Holds(slots[i], a) ==> ClearPath(slots, a, d);
  }

  /** Probe for `a`, stopping at the first empty slot. */
  method FindSlot(slots: Slots, a: KeyAddress) returns (r: Option<nat>)
    requires WellPlaced(slots)
    ensures r.Some? ==> r.value < |slots| && Holds(slots[r.value], a)
    ensures r.None? ==> forall i: nat :: i < |slots| ==> !Holds(slots[i], a)
  {
    var n := |slots|;
    if n == 0 {
      return None;
    }
    var idx := a.placement % n;
    var attempts := 0;
    while attempts < n
      invariant attempts <= n
      invariant attempts < n ==> idx == Probe(a.placement % n, attempts, n)
      invariant ClearPath(slots, a, attempts)
    {
      if slots[idx].None? {
        break;
      }
      if slots[idx].value.address == a {
        return Some(idx);
      }
      if attempts + 1 < n {
        ProbeNext(a.placement % n, attempts, n);
      }
      idx := (idx + 1) % n;
      attempts := attempts + 1;
    }
    forall i: nat | i < n ensures !Holds(slots[i], a) {
      ClearPathMeansAbsent(slots, a, attempts, i);
    }
    r := None;
  }

  /** The slot a new entry for `a` may take. There is none only when every slot belongs to another address. */
  method FindEmpty(slots: Slots, a: KeyAddress) returns (r: Option<nat>)
    ensures r.Some? ==> SlotFor(slots, a, r.value)
    ensures r.None? ==> forall i: nat :: i < |slots| ==> HoldsOther(slots[i], a)
  {
    var n := |slots|;
    if n == 0 {
      return None;
    }
    var idx := a.placement % n;
    var attempts := 0;
    while attempts < n
      invariant attempts <= n
      invariant attempts < n ==> idx == Probe(a.placement % n, attempts, n)
      invariant ClearPath(slots, a, attempts)
    {
      if slots[idx].None? || slots[idx].value.address == a {
        return Some(idx);
      }
      if attempts + 1 < n {
        ProbeNext(a.placement % n, attempts, n);
      }
      idx := (idx + 1) % n;
      attempts := attempts + 1;
    }
    forall i: nat | i < n ensures HoldsOther(slots[i], a) {
      assert Probe(a.placement % n, Distance(a.placement % n, i, n), n) == i;
    }
    r := None;
  }

  /** Slot `idx` holds `a`, or is the empty slot a new entry for `a` goes to. */
  predicate SlotFor(slots: Slots, a: KeyAddress, idx: nat) {
    && idx < |slots|
    && (Holds(slots[idx], a)
        || (slots[idx].None? && ClearPath(slots, a, Distance(a.placement % |slots|, idx, |slots|))))
  }

  lemma StoreKeepsPlacement(slots: Slots, idx: nat, e: ControlEntry)
    requires WellPlaced(slots) && SlotFor(slots, e.address, idx)
    ensures WellPlaced(slots[idx := Some(e)])
  {
    var after := slots[idx := Some(e)];
    var n := |slots|;
    forall i: nat | i < n ensures IsReached(after, i) {
      if after[i].Some? {
        var a := after[i].value.address;
        var home := a.placement % n;
        forall j: nat | j < Distance(home, i, n) ensures HoldsOther(after[Probe(home, j, n)], a) {
          assert IsReached(slots, i);
          assert ClearPath(slots, a, Distance(home, i, n));
          assert HoldsOther(slots[Probe(home, j, n)], a);
        }
      }
    }
  }

  type Shards = s: seq<Slots> | |s| > 0 witness [[]]

  function ShardFor(shards: Shards, a: KeyAddress): (s: nat)
    ensures s < |shards|
  {
    a.placement % |shards|
  }

  /** Slot `i` of shard `s` holds an entry that belongs there and is the one `contents` describes. */
  predicate SlotAgrees(shards: Shards, s: nat, i: nat, contents: Plane)
    requires s < |shards| && i < |shards[s]|
  {
    shards[s][i].Some? ==>
      var e := shards[s][i].value;
      ShardFor(shards, e.address) == s && e.address in contents && contents[e.address] == e
  }

  ghost predicate Stored(slots: Slots, a: KeyAddress) {
    exists i: nat :: i < |slots| && Holds(slots[i], a)
  }

  /** The shards hold exactly the entries of `contents`, each where its probe sequence finds it. */
  ghost predicate Refines(shards: Shards, contents: Plane) {
    && (forall s: nat {:trigger WellPlaced(shards[s])} :: s < |shards| ==> WellPlaced(shards[s]))
    && (forall s: nat, i: nat {:trigger SlotAgrees(shards, s, i, contents)} :: s < |shards| && i < |shards[s]| ==> SlotAgrees(shards, s, i, contents))
    && (forall a {:trigger Stored(shards[ShardFor(shards, a)], a)} :: a in contents ==> Stored(shards[ShardFor(shards, a)], a))
  }

  function Written(shards: Shards, idx: nat, e: ControlEntry): Shards
    requires idx < |shards[ShardFor(shards, e.address)]|
  {
    var s := ShardFor(shards, e.address);
    shards[s := shards[s][idx := Some(e)]]
  }

  lemma StoreKeepsRefinement(shards: Shards, contents: Plane, idx: nat, e: ControlEntry)
    requires Refines(shards, contents)
    requires SlotFor(shards[ShardFor(shards, e.address)], e.address, idx)
    ensures Refines(Written(shards, idx, e), contents[e.address := e])
  {
    var s := ShardFor(shards, e.address);
    var slots := shards[s][idx := Some(e)];
    var after := shards[s := slots];
    var contents' := contents[e.address := e];
    StoreKeepsPlacement(shards[s], idx, e);
    forall t: nat, i: nat | t < |after| && i < |after[t]| ensures SlotAgrees(after, t, i, contents') {
      assert t != s || i != idx ==> SlotAgrees(shards, t, i, contents);
      if t == s && i != idx && Holds(slots[i], e.address) {
        AddressesAreUnique(slots, i, idx);
      }
    }
    forall a | a in contents' ensures Stored(after[ShardFor(after, a)], a) {
      if a == e.address {
        assert Holds(slots[idx], a);
      } else {
        var t := ShardFor(shards, a);
        assert Stored(shards[t], a);
        var i: nat :| i < |shards[t]| && Holds(shards[t][i], a);
        assert Holds(after[t][i], a);
      }
    }
  }

  lemma CreateThenStep(p: PlaneState, a: KeyAddress, op: Op, now: nat)
    requires a !in p.entries && Creates(op)
    ensures PlaneStep(p, a, op, now, true)
         == PlaneStep(PlaneState(p.entries[a := NewEntry(a, p.nextChannel)], p.nextChannel + 1), a, op, now, true)
  {
    var e := NewEntry(a, p.nextChannel);
    assert p.entries[a := e][a := Effect(e, op, now)] == p.entries[a := Effect(e, op, now)];
  }

  /** The control plane: one map from address to entry, held in shards chosen by placement. */
  class Cachelito {
    var shards: Shards
    const capacityPerShard: nat
    /** Names the next wakeup channel to be made. */
    var nextChannel: nat
    ghost var contents: Plane

    ghost predicate Valid()
      reads this
    {
      Refines(shards, contents) && (forall s :: 0 <= s < |shards| ==> |shards[s]| == capacityPerShard)
    }

    /** The plain map this table stands for. */
    ghost function State(): PlaneState
      reads this
    {
      PlaneState(contents, nextChannel)
    }

    /** A zero shard count is clamped to one. */
    constructor (shardCount: nat, capacityPerShard: nat)
      ensures Valid() && contents == map[] && nextChannel == 0
      ensures |shards| == if shardCount == 0 then 1 else shardCount
      ensures this.capacityPerShard == capacityPerShard
    {
      this.capacityPerShard := capacityPerShard;
      shards := seq(if shardCount == 0 then 1 else shardCount, _ => seq(capacityPerShard, _ => None));
      nextChannel := 0;
      contents := map[];
    }

    /** Every slot of `a`'s shard belongs to some other address. */
    predicate NoRoomFor(a: KeyAddress)
      reads this
    {
      var slots := shards[ShardFor(shards, a)];
      forall i: nat :: i < |slots| ==> HoldsOther(slots[i], a)
    }

    /** Slot `idx` of `a`'s shard holds its entry. */
    ghost predicate Locates(idx: nat, a: KeyAddress)
      reads this
    {
      var slots := shards[ShardFor(shards, a)];
      a in contents && idx < |slots| && slots[idx] == Some(contents[a]) && Holds(slots[idx], a)
    }

    method Find(a: KeyAddress) returns (r: Option<nat>)
      requires Valid()
      ensures r.Some? <==> a in contents
      ensures r.Some? ==> Locates(r.value, a)
    {
      var s := ShardFor(shards, a);
      r := FindSlot(shards[s], a);
      assert r.Some? ==> SlotAgrees(shards, s, r.value, contents);
      assert a in contents ==> Stored(shards[s], a);
    }

    method Store(idx: nat, e: ControlEntry)
      requires Valid() && SlotFor(shards[ShardFor(shards, e.address)], e.address, idx)
      modifies `shards, `contents
      ensures Valid() && contents == old(contents)[e.address := e] && Locates(idx, e.address)
      ensures |shards| == |old(shards)|
    {
      StoreKeepsRefinement(shards, contents, idx, e);
      var s := ShardFor(shards, e.address);
      shards := shards[s := shards[s][idx := Some(e)]];
      contents := contents[e.address := e];
    }

    /** The slot for `a`, made on demand, which fails exactly when the shard is full of other addresses. */
    method FindOrCreate(a: KeyAddress) returns (r: Option<nat>)
      requires Valid()
      modifies this
      ensures Valid() && |shards| == |old(shards)|
      ensures r.Some? ==> Locates(r.value, a)
      ensures a in old(contents) ==> r.Some? && contents == old(contents) && nextChannel == old(nextChannel)
      ensures a !in old(contents) ==> (r.None? <==> old(NoRoomFor(a)))
      ensures a !in old(contents) && r.Some? ==>
                contents == old(contents)[a := NewEntry(a, old(nextChannel))] && nextChannel == old(nextChannel) + 1
      ensures r.None? ==> contents == old(contents) && nextChannel == old(nextChannel)
    {
      r := Find(a);
      if r.None? {
        r := FindEmpty(shards[ShardFor(shards, a)], a);
        assert r.Some? ==> !HoldsOther(shards[ShardFor(shards, a)][r.value], a);
        if r.Some? {
          Store(r.value, NewEntry(a, nextChannel));
          nextChannel := nextChannel + 1;
        }
      }
    }

    /** Apply a call's effect to the slot that holds `a`. */
    method Update(idx: nat, a: KeyAddress, op: Op, now: nat) returns (reply: Reply)
      requires Valid() && Locates(idx, a)
      modifies `shards, `contents
      ensures Valid() && |shards| == |old(shards)|
      ensures (State(), reply) == PlaneStep(old(State()), a, op, now, true)
    {
      var e := shards[ShardFor(shards, a)][idx].value;
      reply := ReplyTo(e, op, now);
      EffectKeepsIdentity(e, op, now);
      Store(idx, Effect(e, op, now));
    }

    /**
     One public call: find the entry, making it where the call does, then apply the call's effect.
     The sharded table does exactly what the plain map does.
     */
    method Apply(a: KeyAddress, op: Op, now: nat) returns (reply: Reply)
      requires Valid()
      modifies this
      ensures Valid() && |shards| == |old(shards)|
      ensures (State(), reply) == PlaneStep(old(State()), a, op, now, !old(NoRoomFor(a)))
    {
      if Creates(op) {
        reply := ApplyCreating(a, op, now);
      } else {
        reply := ApplyFinding(a, op, now);
      }
    }

    method ApplyCreating(a: KeyAddress, op: Op, now: nat) returns (reply: Reply)
      requires Valid() && Creates(op)
      modifies this
      ensures Valid() && |shards| == |old(shards)|
      ensures (State(), reply) == PlaneStep(old(State()), a, op, now, !old(NoRoomFor(a)))
    {
      var idx := FindOrCreate(a);
      if idx.None? {
        return Refused(ConfigurationError);
      }
      if a !in old(contents) {
        CreateThenStep(old(State()), a, op, now);
      }
      reply := Update(idx.value, a, op, now);
    }

    method ApplyFinding(a: KeyAddress, op: Op, now: nat) returns (reply: Reply)
      requires Valid() && !Creates(op)
      modifies this
      ensures Valid() && |shards| == |old(shards)|
      ensures (State(), reply) == PlaneStep(old(State()), a, op, now, !old(NoRoomFor(a)))
    {
      var idx := Find(a);
      if idx.None? {
        reply := MissingReply(op, nextChannel);
        if op.Peek? {
          nextChannel := nextChannel + 1;
        }
        return;
      }
      reply := Update(idx.value, a, op, now);
    }
  }
}
