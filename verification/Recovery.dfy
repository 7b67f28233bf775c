/** Whole-plane passes: the expiry sweep, the recovery sweep and the statistics they are judged by. */
module Recovery {
  import opened Entry
  import opened Control
  import opened ControlRuns
  import opened PlaneRuns
  import opened Probing
  import opened Table
  import opened Counting

  // ---------------------------------------------------------------- statistics

  datatype RawStats = RawStats(
    occupied: nat,
    byState: seq<nat>,
    byRung: seq<nat>,
    owned: nat,
    intents: nat,
    expiredReady: nat)

  const NO_STATS := RawStats(0, [0, 0, 0, 0, 0, 0], [0, 0, 0, 0, 0, 0, 0], 0, 0, 0)

  /** Six states and seven rungs are counted apart. */
  type PlaneStats = s: RawStats | |s.byState| == 6 && |s.byRung| == AUTHORITY_RUNG_INDEX + 1 witness NO_STATS

  /** A state's place in the histogram. */
  function StateCode(s: EntryState): (n: nat)
    ensures n < 6
  {
    match s
    case Absent => 0
    case Ready => 1
    case Stale => 2
    case InFlight => 3
    case Failed => 4
    case Prepared => 5
  }

  /** The features the statistics count at `now`. */
  predicate IsCounted(f: Feature, now: nat) {
    f.Any? || f.InState? || f.OnRung? || f.Owned? || f.Intended? || f == PastTtl(now)
  }

  /** The counter for a feature. */
  function Counter(stats: PlaneStats, f: Feature): nat {
    match f
    case Any => stats.occupied
    case InState(state) => stats.byState[StateCode(state)]
    case OnRung(rung) => stats.byRung[rung.Index()]
    case Owned => stats.owned
    case Intended => stats.intents
    case _ => stats.expiredReady
  }

  function Tally(stats: PlaneStats, e: ControlEntry, now: nat): PlaneStats {
    RawStats(
      stats.occupied + 1,
      stats.byState[StateCode(e.state) := stats.byState[StateCode(e.state)] + 1],
      stats.byRung[e.tier.Index() := stats.byRung[e.tier.Index()] + 1],
      stats.owned + if e.owner then 1 else 0,
      stats.intents + if e.intent.Some? then 1 else 0,
      stats.expiredReady + if e.ttl != 0 && e.IsExpired(now) then 1 else 0)
  }

  /** Tallying an entry adds one to exactly the counters of its features. */
  lemma TallyCountsOne(stats: PlaneStats, e: ControlEntry, now: nat, f: Feature)
    requires IsCounted(f, now)
    ensures Counter(Tally(stats, e, now), f) == Counter(stats, f) + if f.Of(e) then 1 else 0
  {
  }

  method TallyShard(stats: PlaneStats, slots: Slots, now: nat) returns (r: PlaneStats)
    ensures forall f :: IsCounted(f, now) ==> Counter(r, f) == Counter(stats, f) + CountIn(slots, |slots|, f)
  {
    r := stats;
    for i := 0 to |slots|
      invariant forall f :: IsCounted(f, now) ==> Counter(r, f) == Counter(stats, f) + CountIn(slots, i, f)
    {
      if slots[i].Some? {
        forall f | IsCounted(f, now) ensures Counter(Tally(r, slots[i].value, now), f) == Counter(r, f) + if Has(slots[i], f) then 1 else 0 {
          TallyCountsOne(r, slots[i].value, now, f);
        }
        r := Tally(r, slots[i].value, now);
      }
    }
  }

  /** Every counter is the number of keys with its feature. */
  method CollectStats(c: Cachelito, now: nat) returns (stats: PlaneStats)
    requires c.Valid()
    ensures forall f :: IsCounted(f, now) ==> Counter(stats, f) == Count(c.contents, f)
    ensures stats.byState == [Count(c.contents, InState(Absent)), Count(c.contents, InState(Ready)), Count(c.contents, InState(Stale)),
                              Count(c.contents, InState(InFlight)), Count(c.contents, InState(Failed)), Count(c.contents, InState(Prepared))]
    ensures stats.byRung == [Count(c.contents, OnRung(L0)), Count(c.contents, OnRung(L1)), Count(c.contents, OnRung(L2)), Count(c.contents, OnRung(L3)),
                             Count(c.contents, OnRung(L4)), Count(c.contents, OnRung(L5)), Count(c.contents, OnRung(L6))]
    ensures stats.occupied == |c.contents| && stats.owned == Count(c.contents, Owned) && stats.intents == Count(c.contents, Intended)
            && stats.expiredReady == Count(c.contents, PastTtl(now))
  {
    stats := NO_STATS;
    for s := 0 to |c.shards|
      invariant forall f :: IsCounted(f, now) ==> Counter(stats, f) == CountBefore(c.shards, s, f)
    {
      stats := TallyShard(stats, c.shards[s], now);
    }
    forall f | IsCounted(f, now) ensures Counter(stats, f) == Count(c.contents, f) {
      CountAllIsKeyCount(c.shards, c.contents, f);
    }
    StatsInOrder(stats, c.contents, now);
  }

  /** The histograms follow the order of the states and of the rungs. */
  lemma StatsInOrder(stats: PlaneStats, m: Plane, now: nat)
    requires forall f :: IsCounted(f, now) ==> Counter(stats, f) == Count(m, f)
    ensures stats.byState == [Count(m, InState(Absent)), Count(m, InState(Ready)), Count(m, InState(Stale)),
                              Count(m, InState(InFlight)), Count(m, InState(Failed)), Count(m, InState(Prepared))]
    ensures stats.byRung == [Count(m, OnRung(L0)), Count(m, OnRung(L1)), Count(m, OnRung(L2)), Count(m, OnRung(L3)),
                             Count(m, OnRung(L4)), Count(m, OnRung(L5)), Count(m, OnRung(L6))]
    ensures stats.occupied == |m| && stats.owned == Count(m, Owned) && stats.intents == Count(m, Intended)
            && stats.expiredReady == Count(m, PastTtl(now))
  {
    assert Among(m.Keys, m, Any) == m.Keys;
    CountersByName(stats);
    assert IsCounted(PastTtl(now), now);
    assert Counter(stats, PastTtl(now)) == Count(m, PastTtl(now));
  }

  lemma CountersByName(stats: PlaneStats)
    ensures stats.byState == [Counter(stats, InState(Absent)), Counter(stats, InState(Ready)), Counter(stats, InState(Stale)),
                              Counter(stats, InState(InFlight)), Counter(stats, InState(Failed)), Counter(stats, InState(Prepared))]
    ensures stats.byRung == [Counter(stats, OnRung(L0)), Counter(stats, OnRung(L1)), Counter(stats, OnRung(L2)), Counter(stats, OnRung(L3)),
                             Counter(stats, OnRung(L4)), Counter(stats, OnRung(L5)), Counter(stats, OnRung(L6))]
    ensures stats.occupied == Counter(stats, Any) && stats.owned == Counter(stats, Owned) && stats.intents == Counter(stats, Intended)
  {
  }

  /** `expiredReady` is the number of ready entries past their TTL if and only if no other entry is past its own. */
  lemma ExpiredCountIff(m: Plane, now: nat)
    ensures Count(m, PastTtl(now)) == Count(m, ReadyPastTtl(now)) <==>
            forall a :: a in m && PastTtl(now).Of(m[a]) ==> m[a].state.Ready?
  {
    var past, ready := Among(m.Keys, m, PastTtl(now)), Among(m.Keys, m, ReadyPastTtl(now));
    assert past == ready + (past - ready);
    assert |past| == |ready| + |past - ready|;
    if |past - ready| == 0 {
      forall a | a in m && PastTtl(now).Of(m[a]) ensures m[a].state.Ready? {
        assert a in past && a !in past - ready;
      }
    } else {
      var a :| a in past - ready;
      assert a in m && PastTtl(now).Of(m[a]) && !m[a].state.Ready?;
    }
  }

  /** A committed entry, once its TTL has passed and a sweep has demoted it, is counted though it is stale. */
  lemma StaleIsCountedAsExpiredReady(address: KeyAddress)
    ensures var calls := [Call(Prepare(None, L1, Write), 1), Call(Commit(0, 1, 1), 1), Call(Expire, 2)];
            var e := After(NewEntry(address, 0), calls, 3);
            e.state.Stale? && PastTtl(2).Of(e)
  {
    var calls := [Call(Prepare(None, L1, Write), 1), Call(Commit(0, 1, 1), 1), Call(Expire, 2)];
    AfterNext(NewEntry(address, 0), calls, 0);
    AfterNext(NewEntry(address, 0), calls, 1);
    AfterNext(NewEntry(address, 0), calls, 2);
  }

  // ---------------------------------------------------------------- the expiry sweep

  function ExpireEntry(e: ControlEntry, now: nat): ControlEntry {
    Effect(e, Expire, now)
  }

  function ExpireSlot(slot: Option<ControlEntry>, now: nat): Option<ControlEntry> {
    if slot.Some? then Some(ExpireEntry(slot.value, now)) else None
  }

  ghost function Swept(m: Plane, now: nat): Plane {
    map a | a in m :: ExpireEntry(m[a], now)
  }

  /** The plane with the keys of shards `from` up to but not including `to`, of `n`, swept. */
  ghost function SweptIn(m: Plane, n: nat, from: nat, to: nat, now: nat): Plane
    requires n > 0
  {
    map a | a in m :: if from <= a.placement % n < to then ExpireEntry(m[a], now) else m[a]
  }

  predicate SweptShard(before: Slots, after: Slots, now: nat) {
    |after| == |before| && forall j: nat :: j < |before| ==> after[j] == ExpireSlot(before[j], now)
  }

  lemma SweepKeepsRefinement(before: Shards, m: Plane, s: nat, slots: Slots, now: nat)
    requires Refines(before, m) && s < |before| && SweptShard(before[s], slots, now)
    ensures Refines(before[s := slots], SweptIn(m, |before|, s, s + 1, now))
  {
    var after, m' := before[s := slots], SweptIn(m, |before|, s, s + 1, now);
    forall t: nat, j: nat | t < |after| && j < |after[t]| ensures SlotAgrees(after, t, j, m') {
      assert SlotAgrees(before, t, j, m);
    }
    forall a | a in m' ensures Stored(after[ShardFor(after, a)], a) {
      assert Stored(before[ShardFor(before, a)], a);
      var j: nat :| j < |before[ShardFor(before, a)]| && Holds(before[ShardFor(before, a)][j], a);
      assert Holds(after[ShardFor(after, a)][j], a);
    }
    forall t: nat | t < |after| ensures WellPlaced(after[t]) {
      assert WellPlaced(before[t]);
      if t == s {
        SameAddressesSamePlacement(before[s], slots);
      }
    }
  }

  lemma SameAddressesSamePlacement(before: Slots, after: Slots)
    requires WellPlaced(before) && |before| == |after|
    requires forall j :: 0 <= j < |before| ==> (before[j].Some? <==> after[j].Some?)
    requires forall j :: 0 <= j < |before| && before[j].Some? ==> before[j].value.address == after[j].value.address
    ensures WellPlaced(after)
  {
    forall i: nat | i < |after| ensures IsReached(after, i) {
      if after[i].Some? {
        var a := after[i].value.address;
        var d := Distance(a.placement % |after|, i, |after|);
        assert IsReached(before, i);
        assert ClearPath(before, a, d);
        forall j: nat | j < d ensures HoldsOther(after[Probe(a.placement % |after|, j, |after|)], a) {
          assert HoldsOther(before[Probe(a.placement % |after|, j, |after|)], a);
        }
      }
    }
  }

  method SweepShard(slots: Slots, now: nat) returns (after: Slots, demoted: nat)
    ensures SweptShard(slots, after, now) && demoted == CountIn(slots, |slots|, Expirable(now))
  {
    after, demoted := slots, 0;
    for i := 0 to |slots|
      invariant |after| == |slots| && after[i..] == slots[i..]
      invariant forall j: nat :: j < i ==> after[j] == ExpireSlot(slots[j], now)
      invariant demoted == CountIn(slots, i, Expirable(now))
    {
      assert after[i] == slots[i];
      if after[i].Some? {
        var e := after[i].value;
        if !e.tier.IsAuthorityRung() && e.state.Ready? && e.IsExpired(now) {
          after := after[i := Some(e.(state := Stale))];
          demoted := demoted + 1;
        }
      }
    }
  }

  /** One shard of the table, under its lock: exactly its expired ready entries become stale. */
  method SweepOneShard(c: Cachelito, s: nat, now: nat) returns (demoted: nat)
    requires c.Valid() && s < |c.shards|
    modifies c
    ensures c.Valid() && |c.shards| == |old(c.shards)| && c.nextChannel == old(c.nextChannel)
    ensures c.contents == SweptIn(old(c.contents), |c.shards|, s, s + 1, now)
    ensures forall t :: 0 <= t < |c.shards| && t != s ==> c.shards[t] == old(c.shards)[t]
    ensures demoted == CountIn(old(c.shards)[s], |old(c.shards)[s]|, Expirable(now))
  {
    var slots, count := SweepShard(c.shards[s], now);
    SweepKeepsRefinement(c.shards, c.contents, s, slots, now);
    c.shards, c.contents := c.shards[s := slots], SweptIn(c.contents, |c.shards|, s, s + 1, now);
    demoted := count;
  }

  lemma SweptInExtends(m: Plane, n: nat, s: nat, now: nat)
    requires n > 0
    ensures SweptIn(SweptIn(m, n, 0, s, now), n, s, s + 1, now) == SweptIn(m, n, 0, s + 1, now)
  {
  }

  method SweepExpired(c: Cachelito, now: nat) returns (demoted: nat)
    requires c.Valid()
    modifies c
    ensures c.Valid() && c.contents == Swept(old(c.contents), now)
    ensures demoted == Count(old(c.contents), Expirable(now))
  {
    demoted := 0;
    ghost var shards, m := c.shards, c.contents;
    CountAllIsKeyCount(shards, m, Expirable(now));
    assert m == SweptIn(m, |shards|, 0, 0, now);
    for s := 0 to |c.shards|
      invariant c.Valid() && |c.shards| == |shards| && c.contents == SweptIn(m, |shards|, 0, s, now)
      invariant forall t :: s <= t < |shards| ==> c.shards[t] == shards[t]
      invariant demoted == CountBefore(shards, s, Expirable(now))
    {
      SweptInExtends(m, |shards|, s, now);
      var count := SweepOneShard(c, s, now);
      demoted := demoted + count;
    }
    assert SweptIn(m, |shards|, 0, |shards|, now) == Swept(m, now);
  }

  /** The sweep is idempotent: a second pass at the same instant finds nothing and changes nothing. */
  lemma ExpirySweepIsIdempotent(m: Plane, now: nat)
    ensures Swept(Swept(m, now), now) == Swept(m, now)
    ensures Count(Swept(m, now), Expirable(now)) == 0
  {
    assert Among(Swept(m, now).Keys, Swept(m, now), Expirable(now)) == {};
  }

  /** It demotes no more entries than the statistics count as past their TTL, and the authority rung's never. */
  lemma SweepDemotesAtMostExpired(m: Plane, now: nat)
    ensures Count(m, Expirable(now)) <= Count(m, PastTtl(now))
    ensures forall a :: a in m && m[a].tier.IsAuthorityRung() ==> Swept(m, now)[a] == m[a]
  {
    SubsetCount(Among(m.Keys, m, Expirable(now)), Among(m.Keys, m, PastTtl(now)));
  }

  /** Nor does a sweep lower that count: what it demotes is counted as before. */
  lemma SweepLeavesExpiredCount(m: Plane, now: nat)
    ensures Count(Swept(m, now), PastTtl(now)) == Count(m, PastTtl(now))
  {
    assert Among(Swept(m, now).Keys, Swept(m, now), PastTtl(now)) == Among(m.Keys, m, PastTtl(now));
  }

  // ---------------------------------------------------------------- the recovery sweep

  /** What one recovery pass does to an entry: old writes are aborted, old moves only lose their claim. */
  function RecoverEntry(e: ControlEntry, cutoff: nat): ControlEntry {
    if HasOldIntent(e, cutoff, Write) then Effect(e, AbortIntent(UncommittedIntent), 0)
    else if HasOldIntent(e, cutoff, Move) then Effect(e, ReleaseClaim, 0)
    else e
  }

  ghost function RecoveredAt(m: Plane, keys: set<KeyAddress>, cutoff: nat): Plane {
    map a | a in m :: if a in keys then RecoverEntry(m[a], cutoff) else m[a]
  }

  ghost function Recovered(m: Plane, cutoff: nat): Plane {
    RecoveredAt(m, m.Keys, cutoff)
  }

  datatype RecoveryReport = RecoveryReport(recovered: nat, failed: nat, needsReconciliation: nat, released: nat)

  /** The intents recorded no later than `cutoff`, each with its address, every address once. */
  ghost predicate ListsOldIntents(found: seq<(KeyAddress, CommitIntent)>, m: Plane, keys: set<KeyAddress>, cutoff: nat) {
    && (forall k :: 0 <= k < |found| ==>
          found[k].0 in keys && found[k].0 in m && m[found[k].0].intent == Some(found[k].1)
          && found[k].1.startedAt <= cutoff)
    && (forall k, l :: 0 <= k < l < |found| ==> found[k].0 != found[l].0)
    && (forall a :: a in keys && a in m && m[a].intent.Some? && m[a].intent.value.startedAt <= cutoff ==>
          (a, m[a].intent.value) in found)
  }

  predicate HasIntentBy(slot: Option<ControlEntry>, cutoff: nat) {
    slot.Some? && slot.value.intent.Some? && slot.value.intent.value.startedAt <= cutoff
  }

  /** The intents of the first `i` slots recorded no later than `cutoff`, in slot order. */
  function OldIntentsIn(slots: Slots, i: nat, cutoff: nat): seq<(KeyAddress, CommitIntent)>
    requires i <= |slots|
  {
    if i == 0 then [] else OldIntentsIn(slots, i - 1, cutoff) + OldIntentOf(slots[i - 1], cutoff)
  }

  function OldIntentOf(slot: Option<ControlEntry>, cutoff: nat): seq<(KeyAddress, CommitIntent)> {
    if HasIntentBy(slot, cutoff) then [(slot.value.address, slot.value.intent.value)] else []
  }

  /** One shard's old intents, read under its lock. */
  method ListShard(slots: Slots, cutoff: nat) returns (found: seq<(KeyAddress, CommitIntent)>)
    ensures found == OldIntentsIn(slots, |slots|, cutoff)
  {
    found := [];
    for i := 0 to |slots|
      invariant found == OldIntentsIn(slots, i, cutoff)
    {
      if slots[i].Some? {
        var e := slots[i].value;
        if e.intent.Some? && e.intent.value.startedAt <= cutoff {
          found := found + [(e.address, e.intent.value)];
        }
      }
    }
  }

  method StaleIntents(c: Cachelito, cutoff: nat) returns (found: seq<(KeyAddress, CommitIntent)>)
    requires c.Valid()
    ensures ListsOldIntents(found, c.contents, c.contents.Keys, cutoff)
  {
    found := [];
    for s := 0 to |c.shards|
      invariant ListsOldIntents(found, c.contents, KeysOf(c.contents, |c.shards|, 0, s), cutoff)
    {
      var more := ListShard(c.shards[s], cutoff);
      ListsWholeShardToo(found, c.shards, c.contents, s, cutoff);
      found := found + more;
    }
    assert KeysOf(c.contents, |c.shards|, 0, |c.shards|) == c.contents.Keys;
  }

  lemma ListsWholeShardToo(found: seq<(KeyAddress, CommitIntent)>, shards: Shards, m: Plane, s: nat, cutoff: nat)
    requires Refines(shards, m) && s < |shards| && ListsOldIntents(found, m, KeysOf(m, |shards|, 0, s), cutoff)
    ensures ListsOldIntents(found + OldIntentsIn(shards[s], |shards[s]|, cutoff), m, KeysOf(m, |shards|, 0, s + 1), cutoff)
  {
    var n := |shards|;
    ListsShardToo(found, shards, m, s, |shards[s]|, cutoff);
    ShardHoldsItsKeys(shards, m, s, Any);
    assert Among(KeysOf(m, n, s, s + 1), m, Any) == KeysOf(m, n, s, s + 1);
    assert KeysOf(m, n, 0, s + 1) == KeysOf(m, n, 0, s) + KeysOf(m, n, s, s + 1);
  }

  lemma {:induction false} ListsShardToo(found: seq<(KeyAddress, CommitIntent)>, shards: Shards, m: Plane, s: nat, i: nat, cutoff: nat)
    requires Refines(shards, m) && s < |shards| && i <= |shards[s]|
    requires ListsOldIntents(found, m, KeysOf(m, |shards|, 0, s), cutoff)
    ensures ListsOldIntents(found + OldIntentsIn(shards[s], i, cutoff), m, KeysOf(m, |shards|, 0, s) + AddressesWith(shards[s], i, Any), cutoff)
  {
    var before := KeysOf(m, |shards|, 0, s);
    if i == 0 {
      assert found + [] == found;
      assert before + {} == before;
    } else {
      ListsShardToo(found, shards, m, s, i - 1, cutoff);
      ListsSlotToo(found + OldIntentsIn(shards[s], i - 1, cutoff), shards, m, s, i, cutoff);
      ConcatAssociates(found, OldIntentsIn(shards[s], i - 1, cutoff), OldIntentOf(shards[s][i - 1], cutoff));
    }
  }

  lemma ListsSlotToo(found: seq<(KeyAddress, CommitIntent)>, shards: Shards, m: Plane, s: nat, i: nat, cutoff: nat)
    requires Refines(shards, m) && s < |shards| && 0 < i <= |shards[s]|
    requires ListsOldIntents(found, m, KeysOf(m, |shards|, 0, s) + AddressesWith(shards[s], i - 1, Any), cutoff)
    ensures ListsOldIntents(found + OldIntentOf(shards[s][i - 1], cutoff), m, KeysOf(m, |shards|, 0, s) + AddressesWith(shards[s], i, Any), cutoff)
  {
    var slot := shards[s][i - 1];
    var keys := KeysOf(m, |shards|, 0, s) + AddressesWith(shards[s], i - 1, Any);
    assert SlotAgrees(shards, s, i - 1, m) && WellPlaced(shards[s]);
    if !HasIntentBy(slot, cutoff) {
      assert found + OldIntentOf(slot, cutoff) == found;
    }
    if slot.Some? {
      AddressIsNew(shards[s], i, Any);
      assert KeysOf(m, |shards|, 0, s) + AddressesWith(shards[s], i, Any) == keys + {slot.value.address};
      if HasIntentBy(slot, cutoff) {
        ListOneMore(found, m, keys, cutoff, slot.value.address);
      }
    }
  }

  lemma ListOneMore(found: seq<(KeyAddress, CommitIntent)>, m: Plane, keys: set<KeyAddress>, cutoff: nat, a: KeyAddress)
    requires ListsOldIntents(found, m, keys, cutoff) && a in m && a !in keys
    requires m[a].intent.Some? && m[a].intent.value.startedAt <= cutoff
    ensures ListsOldIntents(found + [(a, m[a].intent.value)], m, keys + {a}, cutoff)
  {
    var more := found + [(a, m[a].intent.value)];
    forall b | b in keys + {a} && b in m && m[b].intent.Some? && m[b].intent.value.startedAt <= cutoff
      ensures (b, m[b].intent.value) in more
    {
      if b == a {
        assert more[|found|] == (a, m[a].intent.value);
      } else {
        assert (b, m[b].intent.value) in found;
      }
    }
  }

  function RecoveryOp(kind: IntentKind): Op {
    match kind
    case Write => AbortIntent(UncommittedIntent)
    case Move => ReleaseClaim
  }

  lemma RecoveredOneMore(m: Plane, keys: set<KeyAddress>, cutoff: nat, a: KeyAddress)
    requires a in m && a !in keys
    ensures RecoveredAt(m, keys, cutoff)[a := RecoverEntry(m[a], cutoff)] == RecoveredAt(m, keys + {a}, cutoff)
  {
  }

  /** The report says what happened to the keys in `keys`. */
  ghost predicate Reports(r: RecoveryReport, m: Plane, keys: set<KeyAddress>, cutoff: nat) {
    && r.failed == 0
    && r.recovered == |Among(keys, m, Abortable(cutoff))|
    && r.needsReconciliation == |Among(keys, m, OldMove(cutoff))|
    && r.released == |Among(keys, m, Releasable(cutoff))|
  }

  function Counted(r: RecoveryReport, kind: IntentKind, acted: bool): RecoveryReport {
    match kind
    case Write => r.(recovered := r.recovered + if acted then 1 else 0)
    case Move => r.(needsReconciliation := r.needsReconciliation + 1,
                    released := r.released + if acted then 1 else 0)
  }

  lemma ReportsOneMore(r: RecoveryReport, m: Plane, keys: set<KeyAddress>, cutoff: nat, a: KeyAddress)
    requires Reports(r, m, keys, cutoff) && a in m && a !in keys
    requires m[a].intent.Some? && m[a].intent.value.startedAt <= cutoff
    ensures var kind := m[a].intent.value.kind;
            Reports(Counted(r, kind, Takes(m[a], RecoveryOp(kind), 0)), m, keys + {a}, cutoff)
  {
    OneMore(keys, m, Abortable(cutoff), a);
    OneMore(keys, m, OldMove(cutoff), a);
    OneMore(keys, m, Releasable(cutoff), a);
  }

  /** One listed intent: whether anything was cleared or released, and the plane with that key done. */
  method ResolveIntent(c: Cachelito, a: KeyAddress, kind: IntentKind, cutoff: nat, ghost m: Plane, ghost done: set<KeyAddress>)
    returns (acted: bool)
    requires c.Valid() && c.contents == RecoveredAt(m, done, cutoff)
    requires a in m && a !in done && HasOldIntent(m[a], cutoff, kind)
    modifies c
    ensures c.Valid() && c.contents == RecoveredAt(m, done + {a}, cutoff)
    ensures acted == Takes(m[a], RecoveryOp(kind), 0)
  {
    RecoveredOneMore(m, done, cutoff, a);
    var reply := c.Apply(a, RecoveryOp(kind), 0);
    acted := reply.flag;
  }

  /** The first `k` listed intents are resolved, and the report counts them. */
  ghost predicate ResolvedUpTo(c: Cachelito, found: seq<(KeyAddress, CommitIntent)>, k: nat, cutoff: nat, m: Plane, report: RecoveryReport)
    requires k <= |found|
    reads c
  {
    c.Valid() && c.contents == RecoveredAt(m, Listed(found, k), cutoff) && Reports(report, m, Listed(found, k), cutoff)
  }

  method ResolveNext(c: Cachelito, found: seq<(KeyAddress, CommitIntent)>, k: nat, cutoff: nat, report: RecoveryReport, ghost m: Plane)
    returns (r: RecoveryReport)
    requires k < |found| && ListsOldIntents(found, m, m.Keys, cutoff) && ResolvedUpTo(c, found, k, cutoff, m, report)
    modifies c
    ensures ResolvedUpTo(c, found, k + 1, cutoff, m, r)
  {
    var (a, intent) := found[k];
    NotListedYet(found, m, k, cutoff);
    ReportsOneMore(report, m, Listed(found, k), cutoff, a);
    var acted := ResolveIntent(c, a, intent.kind, cutoff, m, Listed(found, k));
    r := Counted(report, intent.kind, acted);
  }

  /** Resolve the listed intents one by one, counting what each call did. */
  method ResolveAll(c: Cachelito, found: seq<(KeyAddress, CommitIntent)>, cutoff: nat) returns (report: RecoveryReport)
    requires c.Valid() && ListsOldIntents(found, c.contents, c.contents.Keys, cutoff)
    modifies c
    ensures ResolvedUpTo(c, found, |found|, cutoff, old(c.contents), report)
  {
    report := RecoveryReport(0, 0, 0, 0);
    ghost var m := c.contents;
    NothingResolved(m, cutoff);
    for k := 0 to |found|
      invariant ResolvedUpTo(c, found, k, cutoff, m, report)
    {
      report := ResolveNext(c, found, k, cutoff, report, m);
    }
  }

  lemma NothingResolved(m: Plane, cutoff: nat)
    ensures RecoveredAt(m, {}, cutoff) == m && Reports(RecoveryReport(0, 0, 0, 0), m, {}, cutoff)
  {
    NoneAmongNone(m, Abortable(cutoff));
    NoneAmongNone(m, OldMove(cutoff));
    NoneAmongNone(m, Releasable(cutoff));
  }

  /** Resolve every intent recorded no later than `cutoff`, and report exactly what was resolved, retained and released. */
  method RecoverOlderThan(c: Cachelito, cutoff: nat) returns (report: RecoveryReport)
    requires c.Valid()
    modifies c
    ensures c.Valid() && c.contents == Recovered(old(c.contents), cutoff)
    ensures Reports(report, old(c.contents), old(c.contents).Keys, cutoff)
  {
    var found := StaleIntents(c, cutoff);
    report := ResolveAll(c, found, cutoff);
    OnlyListedChange(found, old(c.contents), cutoff);
    OnlyListedAreReported(found, old(c.contents), report, cutoff);
  }

  ghost function Listed(found: seq<(KeyAddress, CommitIntent)>, k: nat): set<KeyAddress>
    requires k <= |found|
  {
    if k == 0 then {} else Listed(found, k - 1) + {found[k - 1].0}
  }

  lemma {:induction false} ListedMeans(found: seq<(KeyAddress, CommitIntent)>, k: nat, a: KeyAddress)
    requires k <= |found|
    ensures a in Listed(found, k) <==> exists l :: 0 <= l < k && found[l].0 == a
  {
    if k > 0 {
      ListedMeans(found, k - 1, a);
    }
  }

  lemma NotListedYet(found: seq<(KeyAddress, CommitIntent)>, m: Plane, k: nat, cutoff: nat)
    requires ListsOldIntents(found, m, m.Keys, cutoff) && k < |found|
    ensures found[k].0 in m && found[k].0 !in Listed(found, k)
    ensures m[found[k].0].intent == Some(found[k].1) && found[k].1.startedAt <= cutoff
  {
    ListedMeans(found, k, found[k].0);
  }

  lemma OldIsListed(found: seq<(KeyAddress, CommitIntent)>, m: Plane, cutoff: nat, a: KeyAddress)
    requires ListsOldIntents(found, m, m.Keys, cutoff)
    requires a in m && m[a].intent.Some? && m[a].intent.value.startedAt <= cutoff
    ensures a in Listed(found, |found|)
  {
    assert (a, m[a].intent.value) in found;
    ListedMeans(found, |found|, a);
  }

  lemma OnlyListedChange(found: seq<(KeyAddress, CommitIntent)>, m: Plane, cutoff: nat)
    requires ListsOldIntents(found, m, m.Keys, cutoff)
    ensures RecoveredAt(m, Listed(found, |found|), cutoff) == Recovered(m, cutoff)
  {
    forall a | a in m && RecoverEntry(m[a], cutoff) != m[a] ensures a in Listed(found, |found|) {
      OldIsListed(found, m, cutoff, a);
    }
  }

  lemma OnlyListedAreReported(found: seq<(KeyAddress, CommitIntent)>, m: Plane, r: RecoveryReport, cutoff: nat)
    requires ListsOldIntents(found, m, m.Keys, cutoff) && Reports(r, m, Listed(found, |found|), cutoff)
    ensures Reports(r, m, m.Keys, cutoff)
  {
    var done := Listed(found, |found|);
    forall a | a in m && m[a].intent.Some? && m[a].intent.value.startedAt <= cutoff ensures a in done {
      OldIsListed(found, m, cutoff, a);
    }
    AmongAll(done, m, Abortable(cutoff));
    AmongAll(done, m, OldMove(cutoff));
    AmongAll(done, m, Releasable(cutoff));
  }

  /** After a pass no entry is prepared with an old intent, and intents are as sound as before. */
  lemma RecoveryLeavesNoOldPrepared(m: Plane, cutoff: nat)
    requires forall a :: a in m ==> IntentSound(m[a])
    ensures forall a :: a in m ==>
              var e := Recovered(m, cutoff)[a];
              IntentSound(e) && !(e.state.Prepared? && e.intent.Some? && e.intent.value.startedAt <= cutoff)
  {
    forall a | a in m
      ensures var e := Recovered(m, cutoff)[a];
              IntentSound(e) && !(e.state.Prepared? && e.intent.Some? && e.intent.value.startedAt <= cutoff)
    {
      assert IntentSound(m[a]);
    }
  }

  /** In particular after any run of the plane, whatever its calls. */
  lemma RecoveryAfterAnyRun(calls: seq<PlaneCall>, i: nat, cutoff: nat, a: KeyAddress)
    requires i <= |calls| && a in PlaneAfter(calls, i).entries
    ensures var e := Recovered(PlaneAfter(calls, i).entries, cutoff)[a];
            !(e.state.Prepared? && e.intent.Some? && e.intent.value.startedAt <= cutoff)
  {
    var m := PlaneAfter(calls, i).entries;
    forall b | b in m ensures IntentSound(m[b]) {
      PlaneIntentsAreSound(calls, i, b);
    }
    RecoveryLeavesNoOldPrepared(m, cutoff);
  }

  lemma RecoverTwice(e: ControlEntry, cutoff: nat)
    ensures var r := RecoverEntry(e, cutoff);
            RecoverEntry(r, cutoff) == r && !Abortable(cutoff).Of(r) && !Releasable(cutoff).Of(r)
            && (OldMove(cutoff).Of(r) <==> OldMove(cutoff).Of(e))
  {
  }

  /** A second pass at the same cutoff changes no entry, resolves and releases nothing, and reports the same retained moves. */
  lemma RecoveryIsIdempotent(m: Plane, cutoff: nat, first: RecoveryReport, second: RecoveryReport)
    requires Reports(first, m, m.Keys, cutoff)
    requires Reports(second, Recovered(m, cutoff), m.Keys, cutoff)
    ensures Recovered(Recovered(m, cutoff), cutoff) == Recovered(m, cutoff)
    ensures second == RecoveryReport(0, 0, first.needsReconciliation, 0)
  {
    var r := Recovered(m, cutoff);
    forall a | a in m
      ensures RecoverEntry(r[a], cutoff) == r[a] && !Abortable(cutoff).Of(r[a]) && !Releasable(cutoff).Of(r[a])
      ensures OldMove(cutoff).Of(r[a]) <==> OldMove(cutoff).Of(m[a])
    {
      RecoverTwice(m[a], cutoff);
    }
    assert Among(m.Keys, r, Abortable(cutoff)) == {};
    assert Among(m.Keys, r, Releasable(cutoff)) == {};
    assert Among(m.Keys, r, OldMove(cutoff)) == Among(m.Keys, m, OldMove(cutoff));
  }

  // ---------------------------------------------------------------- interleaved sweeps

  /** One step of some sweep: a sweep acts on an address it listed, whatever has happened to it since. */
  datatype SweepStep = SweepStep(address: KeyAddress, kind: IntentKind)

  function StepPlane(m: Plane, step: SweepStep): Plane {
    if step.address in m then m[step.address := Effect(m[step.address], RecoveryOp(step.kind), 0)] else m
  }

  /** Any number of sweeps, interleaved in any order, from any lists. */
  function RunSweeps(m: Plane, steps: seq<SweepStep>): Plane {
    if steps == [] then m else RunSweeps(StepPlane(m, steps[0]), steps[1..])
  }

  /** How many intents the sweeps, between them, report as recovered. */
  function TotalRecovered(m: Plane, steps: seq<SweepStep>): nat {
    if steps == [] then 0
    else (if Counts(m, steps[0]) then 1 else 0) + TotalRecovered(StepPlane(m, steps[0]), steps[1..])
  }

  /** The step is told that it cleared an intent. */
  predicate Counts(m: Plane, s: SweepStep) {
    s.kind.Write? && s.address in m && Takes(m[s.address], RecoveryOp(s.kind), 0)
  }

  /** Between them, racing sweeps count each cleared intent exactly once. */
  lemma {:induction false} RacingSweepsCountOnce(m: Plane, steps: seq<SweepStep>)
    ensures TotalRecovered(m, steps) == Count(m, Intended) - Count(RunSweeps(m, steps), Intended)
  {
    if steps != [] {
      RacingSweepsCountOnce(StepPlane(m, steps[0]), steps[1..]);
      StepCountsOne(m, steps[0]);
    }
  }

  lemma StepCountsOne(m: Plane, s: SweepStep)
    ensures Count(m, Intended) == Count(StepPlane(m, s), Intended) + if Counts(m, s) then 1 else 0
  {
    if s.address in m {
      ResolvingClears(m[s.address], s.kind);
      ReplacingCounts(m, s.address, Effect(m[s.address], RecoveryOp(s.kind), 0), Intended);
    }
  }

  /** A resolution clears the intent exactly when it is a write's and says it acted. */
  lemma ResolvingClears(e: ControlEntry, kind: IntentKind)
    ensures Effect(e, RecoveryOp(kind), 0).intent
         == if kind.Write? && Takes(e, RecoveryOp(kind), 0) then None else e.intent
    ensures kind.Write? && Takes(e, RecoveryOp(kind), 0) ==> e.intent.Some?
  {
  }
}
