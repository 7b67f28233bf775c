/** Counting keys by what their entries have in common. No address has two slots, so counting slots counts keys. */
module Counting {
  import opened Entry
  import opened Control
  import opened Table

  /** What a pass counts or acts on. */
  datatype Feature =
    | Any
    | Owned
    | Intended
    | InState(state: EntryState)
    | OnRung(rung: TierId)
    | PastTtl(now: nat)
    | ReadyPastTtl(now: nat)
    | Expirable(now: nat)
    | Abortable(cutoff: nat)
    | Releasable(cutoff: nat)
    | OldMove(cutoff: nat)
  {
    predicate Of(e: ControlEntry) {
      match this
      case Any => true
      case Owned => e.owner
      case Intended => e.intent.Some?
      case InState(state) => e.state == state
      case OnRung(rung) => e.tier == rung
      case PastTtl(now) => e.ttl != 0 && e.IsExpired(now)
      case ReadyPastTtl(now) => e.state.Ready? && e.ttl != 0 && e.IsExpired(now)
      case Expirable(now) => Takes(e, Expire, now)
      case Abortable(cutoff) => HasOldIntent(e, cutoff, Write) && e.state.Prepared?
      case Releasable(cutoff) => HasOldIntent(e, cutoff, Move) && e.state.Prepared? && e.owner
      case OldMove(cutoff) => HasOldIntent(e, cutoff, Move)
    }
  }

  predicate HasOldIntent(e: ControlEntry, cutoff: nat, kind: IntentKind) {
    e.intent.Some? && e.intent.value.startedAt <= cutoff && e.intent.value.kind == kind
  }

  // ---------------------------------------------------------------- keys

  /** The keys among `keys` whose entry in `m` has the feature. */
  ghost function Among(keys: set<KeyAddress>, m: Plane, f: Feature): set<KeyAddress> {
    set a | a in keys && a in m && f.Of(m[a])
  }

  ghost function Count(m: Plane, f: Feature): nat {
    |Among(m.Keys, m, f)|
  }

  lemma OneMore(keys: set<KeyAddress>, m: Plane, f: Feature, a: KeyAddress)
    requires a in m && a !in keys
    ensures |Among(keys + {a}, m, f)| == |Among(keys, m, f)| + (if f.Of(m[a]) then 1 else 0)
  {
    if f.Of(m[a]) {
      assert Among(keys + {a}, m, f) == Among(keys, m, f) + {a};
      GrowsByOne(Among(keys, m, f), a);
    } else {
      assert Among(keys + {a}, m, f) == Among(keys, m, f);
    }
  }

  lemma GrowsByOne(s: set<KeyAddress>, a: KeyAddress)
    requires a !in s
    ensures |s + {a}| == |s| + 1
  {
  }

  lemma NoneAmongNone(m: Plane, f: Feature)
    ensures |Among({}, m, f)| == 0
  {
    assert Among({}, m, f) == {};
  }

  lemma AmongAll(keys: set<KeyAddress>, m: Plane, f: Feature)
    requires forall a :: a in m && f.Of(m[a]) ==> a in keys
    ensures Among(keys, m, f) == Among(m.Keys, m, f)
  {
  }

  lemma ReplacingCounts(m: Plane, a: KeyAddress, e: ControlEntry, f: Feature)
    requires a in m
    ensures Count(m[a := e], f) + (if f.Of(m[a]) then 1 else 0) == Count(m, f) + (if f.Of(e) then 1 else 0)
  {
    var others := m.Keys - {a};
    OneMore(others, m, f, a);
    OneMore(others, m[a := e], f, a);
    assert others + {a} == m.Keys == m[a := e].Keys;
    assert Among(others, m, f) == Among(others, m[a := e], f);
  }

  lemma {:induction false} SubsetCount<T>(small: set<T>, large: set<T>)
    requires small <= large
    ensures |small| <= |large|
  {
    assert large == small + (large - small);
  }

  // ---------------------------------------------------------------- slots

  predicate Has(slot: Option<ControlEntry>, f: Feature) {
    slot.Some? && f.Of(slot.value)
  }

  /** How many of the first `i` slots have the feature. */
  function CountIn(slots: Slots, i: nat, f: Feature): (n: nat)
    requires i <= |slots|
    ensures n <= i && (n == i <==> forall j :: 0 <= j < i ==> Has(slots[j], f))
  {
    if i == 0 then 0 else CountIn(slots, i - 1, f) + if Has(slots[i - 1], f) then 1 else 0
  }

  /** The addresses in the first `k` slots whose entries have the feature. */
  ghost function AddressesWith(slots: Slots, k: nat, f: Feature): set<KeyAddress>
    requires k <= |slots|
  {
    if k == 0 then {}
    else if Has(slots[k - 1], f) then AddressesWith(slots, k - 1, f) + {slots[k - 1].value.address}
    else AddressesWith(slots, k - 1, f)
  }

  lemma {:induction false} AddressWithHasSlot(slots: Slots, k: nat, f: Feature, a: KeyAddress) returns (i: nat)
    requires k <= |slots| && a in AddressesWith(slots, k, f)
    ensures i < k && Holds(slots[i], a) && Has(slots[i], f)
  {
    if Has(slots[k - 1], f) && slots[k - 1].value.address == a {
      i := k - 1;
    } else {
      i := AddressWithHasSlot(slots, k - 1, f, a);
    }
  }

  lemma {:induction false} SlotIsAmongAddresses(slots: Slots, k: nat, f: Feature, j: nat)
    requires j < k <= |slots| && Has(slots[j], f)
    ensures slots[j].value.address in AddressesWith(slots, k, f)
  {
    if j < k - 1 {
      SlotIsAmongAddresses(slots, k - 1, f, j);
    }
  }

  lemma AddressIsNew(slots: Slots, k: nat, f: Feature)
    requires WellPlaced(slots) && 0 < k <= |slots| && slots[k - 1].Some?
    ensures slots[k - 1].value.address !in AddressesWith(slots, k - 1, f)
  {
    var a := slots[k - 1].value.address;
    if a in AddressesWith(slots, k - 1, f) {
      var i := AddressWithHasSlot(slots, k - 1, f, a);
      AddressesAreUnique(slots, i, k - 1);
    }
  }

  /** Counting slots counts addresses. */
  lemma {:induction false} AddressesAreCounted(slots: Slots, k: nat, f: Feature)
    requires WellPlaced(slots) && k <= |slots|
    ensures |AddressesWith(slots, k, f)| == CountIn(slots, k, f)
  {
    if k > 0 {
      AddressesAreCounted(slots, k - 1, f);
      if Has(slots[k - 1], f) {
        AddressIsNew(slots, k, f);
        GrowsByOne(AddressesWith(slots, k - 1, f), slots[k - 1].value.address);
      }
    }
  }

  // ---------------------------------------------------------------- shards

  /** The keys of the map that belong to shards `from` up to but not including `to`, of `n`. */
  ghost function KeysOf(m: Plane, n: nat, from: nat, to: nat): set<KeyAddress>
    requires n > 0
  {
    set a | a in m && from <= a.placement % n < to
  }

  /** The keys of one shard with the feature are those in its slots. */
  lemma ShardHoldsItsKeys(shards: Shards, m: Plane, s: nat, f: Feature)
    requires Refines(shards, m) && s < |shards|
    ensures AddressesWith(shards[s], |shards[s]|, f) == Among(KeysOf(m, |shards|, s, s + 1), m, f)
  {
    var slots := shards[s];
    forall a | a in AddressesWith(slots, |slots|, f) ensures a in Among(KeysOf(m, |shards|, s, s + 1), m, f) {
      var i := AddressWithHasSlot(slots, |slots|, f, a);
      assert SlotAgrees(shards, s, i, m);
    }
    forall a | a in Among(KeysOf(m, |shards|, s, s + 1), m, f) ensures a in AddressesWith(slots, |slots|, f) {
      assert Stored(shards[ShardFor(shards, a)], a);
      var i: nat :| i < |slots| && Holds(slots[i], a);
      assert SlotAgrees(shards, s, i, m);
      SlotIsAmongAddresses(slots, |slots|, f, i);
    }
  }

  /** Counting one shard's slots counts its keys. */
  lemma ShardCountIsKeyCount(shards: Shards, m: Plane, s: nat, f: Feature)
    requires Refines(shards, m) && s < |shards|
    ensures CountIn(shards[s], |shards[s]|, f) == |Among(KeysOf(m, |shards|, s, s + 1), m, f)|
  {
    assert WellPlaced(shards[s]);
    AddressesAreCounted(shards[s], |shards[s]|, f);
    ShardHoldsItsKeys(shards, m, s, f);
  }

  /** The slots of the first `s` shards with the feature. */
  function CountBefore(shards: Shards, s: nat, f: Feature): nat
    requires s <= |shards|
  {
    if s == 0 then 0 else CountBefore(shards, s - 1, f) + CountIn(shards[s - 1], |shards[s - 1]|, f)
  }

  lemma KeysSplit(m: Plane, n: nat, s: nat, f: Feature)
    requires 0 < s <= n
    ensures |Among(KeysOf(m, n, 0, s), m, f)|
         == |Among(KeysOf(m, n, 0, s - 1), m, f)| + |Among(KeysOf(m, n, s - 1, s), m, f)|
  {
    var before, here := Among(KeysOf(m, n, 0, s - 1), m, f), Among(KeysOf(m, n, s - 1, s), m, f);
    KeysJoin(m, n, s, f);
    DisjointCount(before, here);
  }

  lemma KeysJoin(m: Plane, n: nat, s: nat, f: Feature)
    requires 0 < s <= n
    ensures Among(KeysOf(m, n, 0, s), m, f) == Among(KeysOf(m, n, 0, s - 1), m, f) + Among(KeysOf(m, n, s - 1, s), m, f)
    ensures Among(KeysOf(m, n, 0, s - 1), m, f) !! Among(KeysOf(m, n, s - 1, s), m, f)
  {
  }

  lemma DisjointCount<T>(x: set<T>, y: set<T>)
    requires x !! y
    ensures |x + y| == |x| + |y|
  {
  }

  lemma {:induction false} CountBeforeIsKeyCount(shards: Shards, m: Plane, s: nat, f: Feature)
    requires Refines(shards, m) && s <= |shards|
    ensures CountBefore(shards, s, f) == |Among(KeysOf(m, |shards|, 0, s), m, f)|
  {
    var n := |shards|;
    if s == 0 {
      assert KeysOf(m, n, 0, 0) == {};
      NoneAmongNone(m, f);
    } else {
      CountBeforeIsKeyCount(shards, m, s - 1, f);
      ShardCountIsKeyCount(shards, m, s - 1, f);
      KeysSplit(m, n, s, f);
    }
  }

  /** Counting all the table's slots counts its keys. */
  lemma CountAllIsKeyCount(shards: Shards, m: Plane, f: Feature)
    requires Refines(shards, m)
    ensures CountBefore(shards, |shards|, f) == Count(m, f)
  {
    CountBeforeIsKeyCount(shards, m, |shards|, f);
    assert KeysOf(m, |shards|, 0, |shards|) == m.Keys;
  }
}
