/**
 The whole-plane passes while other tasks keep calling. A pass holds one shard's lock at a time, and the
 recovery sweep holds no lock between listing an intent and resolving it, so any calls may fall in
 between: `others(k)` says which other tasks make before the pass takes its lock for the k-th time.
 */
module Interference {
  import opened Entry
  import opened Control
  import opened ControlRuns
  import opened Table
  import opened Counting
  import opened TableRuns
  import opened Recovery

  // ---------------------------------------------------------------- the moments of a pass

  /** What a pass does each time it holds a lock. */
  datatype Pass =
    | Looking
    | Sweeping(now: nat)
    | Recovering(found: seq<(KeyAddress, CommitIntent)>, from: nat)

  /** The plane after the pass has had its k-th lock on `q`. A recovery looks `from` times before it resolves. */
  ghost function Stepped(pass: Pass, k: nat, q: PlaneState, n: nat): PlaneState
    requires n > 0
  {
    match pass
    case Looking => q
    case Sweeping(now) => q.(entries := SweptIn(q.entries, n, k, k + 1, now))
    case Recovering(found, from) =>
      if from <= k < from + |found| then ResolvedAt(q, found[k - from]) else q
  }

  ghost function ResolvedAt(q: PlaneState, x: (KeyAddress, CommitIntent)): PlaneState {
    PlaneStep(q, x.0, RecoveryOp(x.1.kind), 0, true).0
  }

  /** The plane when the k-th round of other tasks' calls begins; `planes` are those the pass found under its earlier locks. */
  ghost function Before(planes: seq<PlaneState>, p: PlaneState, k: nat, pass: Pass, n: nat): PlaneState
    requires k <= |planes| && n > 0
  {
    if k == 0 then p else Stepped(pass, k - 1, planes[k - 1], n)
  }

  /** `planes[k]` is the plane under the pass's k-th lock. */
  ghost predicate Moments(planes: seq<PlaneState>, p: PlaneState, others: nat -> seq<Request>, pass: Pass, n: nat, capacity: nat)
    requires n > 0
  {
    forall k {:trigger IsMoment(planes, p, others, pass, n, capacity, k)} :: 0 <= k < |planes| ==>
      IsMoment(planes, p, others, pass, n, capacity, k)
  }

  ghost predicate IsMoment(planes: seq<PlaneState>, p: PlaneState, others: nat -> seq<Request>, pass: Pass, n: nat, capacity: nat, k: nat)
    requires n > 0 && k < |planes|
  {
    planes[k] == ServeAll(Before(planes, p, k, pass, n), others(k), |others(k)|, n, capacity)
  }

  lemma MomentsGrow(planes: seq<PlaneState>, q: PlaneState, p: PlaneState, others: nat -> seq<Request>, pass: Pass, n: nat, capacity: nat)
    requires n > 0 && Moments(planes, p, others, pass, n, capacity)
    requires q == ServeAll(Before(planes, p, |planes|, pass, n), others(|planes|), |others(|planes|)|, n, capacity)
    ensures Moments(planes + [q], p, others, pass, n, capacity)
    ensures Before(planes + [q], p, |planes| + 1, pass, n) == Stepped(pass, |planes|, q, n)
  {
    forall k | 0 <= k <= |planes| ensures IsMoment(planes + [q], p, others, pass, n, capacity, k) {
      assert Before(planes + [q], p, k, pass, n) == Before(planes, p, k, pass, n);
      assert k < |planes| ==> IsMoment(planes, p, others, pass, n, capacity, k);
    }
  }

  /** A feature counted shard by shard, each at its own moment. */
  ghost function SumAt(planes: seq<PlaneState>, k: nat, n: nat, f: Feature): nat
    requires k <= |planes| && n > 0
  {
    if k == 0 then 0
    else
      var m := planes[k - 1].entries;
      SumAt(planes, k - 1, n, f) + |Among(KeysOf(m, n, k - 1, k), m, f)|
  }

  lemma {:induction false} SumAtIgnoresLater(planes: seq<PlaneState>, q: PlaneState, k: nat, n: nat, f: Feature)
    requires k <= |planes| && n > 0
    ensures SumAt(planes + [q], k, n, f) == SumAt(planes, k, n, f)
  {
    if k > 0 {
      SumAtIgnoresLater(planes, q, k - 1, n, f);
    }
  }

  lemma SumAtGrows(planes: seq<PlaneState>, shards: Shards, q: PlaneState, f: Feature)
    requires |planes| < |shards| && Refines(shards, q.entries)
    ensures SumAt(planes + [q], |planes| + 1, |shards|, f)
         == SumAt(planes, |planes|, |shards|, f) + CountIn(shards[|planes|], |shards[|planes|]|, f)
  {
    SumAtIgnoresLater(planes, q, |planes|, |shards|, f);
    ShardCountIsKeyCount(shards, q.entries, |planes|, f);
  }

  // ---------------------------------------------------------------- statistics among calls

  /** The statistics among arbitrary calls: every counter is the sum of what each shard had at its own moment. */
  method StatsAmidCalls(c: Cachelito, now: nat, others: nat -> seq<Request>) returns (stats: PlaneStats, ghost planes: seq<PlaneState>)
    requires c.Valid()
    modifies c
    ensures c.Valid() && |planes| == |c.shards| == |old(c.shards)|
    ensures Moments(planes, old(c.State()), others, Looking, |c.shards|, c.capacityPerShard)
    ensures c.State() == Before(planes, old(c.State()), |planes|, Looking, |c.shards|)
    ensures CountsMoments(stats, planes, |c.shards|, now)
  {
    stats, planes := NO_STATS, [];
    ghost var p := c.State();
    var n := |c.shards|;
    for s := 0 to n
      invariant c.Valid() && |c.shards| == n && |planes| == s && CountsMoments(stats, planes, n, now)
      invariant Moments(planes, p, others, Looking, n, c.capacityPerShard) && c.State() == Before(planes, p, s, Looking, n)
    {
      var _ := ServeRequests(c, others(s));
      MomentsGrow(planes, c.State(), p, others, Looking, n, c.capacityPerShard);
      stats := TallyMoment(stats, c, s, now, planes);
      planes := planes + [c.State()];
    }
  }

  /** Every counter is the sum over the shards visited so far. */
  ghost predicate CountsMoments(stats: PlaneStats, planes: seq<PlaneState>, n: nat, now: nat)
    requires n > 0
  {
    forall f :: IsCounted(f, now) ==> Counter(stats, f) == SumAt(planes, |planes|, n, f)
  }

  method TallyMoment(stats: PlaneStats, c: Cachelito, s: nat, now: nat, ghost planes: seq<PlaneState>) returns (r: PlaneStats)
    requires c.Valid() && s == |planes| < |c.shards| && CountsMoments(stats, planes, |c.shards|, now)
    ensures CountsMoments(r, planes + [c.State()], |c.shards|, now)
  {
    r := TallyShard(stats, c.shards[s], now);
    forall f | IsCounted(f, now) ensures Counter(r, f) == SumAt(planes + [c.State()], |planes| + 1, |c.shards|, f) {
      SumAtGrows(planes, c.shards, c.State(), f);
    }
  }

  // ---------------------------------------------------------------- the expiry sweep among calls

  predicate Calls(requests: seq<Request>, a: KeyAddress) {
    exists i :: 0 <= i < |requests| && requests[i].address == a
  }

  /** No other task ever calls the key. */
  ghost predicate IsQuiet(others: nat -> seq<Request>, a: KeyAddress) {
    forall g :: !Calls(others(g), a)
  }

  lemma {:induction false} ServingSparesUncalled(p: PlaneState, requests: seq<Request>, i: nat, n: nat, capacity: nat, a: KeyAddress)
    requires i <= |requests| && n > 0 && a in p.entries && !Calls(requests, a)
    ensures var q := ServeAll(p, requests, i, n, capacity); a in q.entries && q.entries[a] == p.entries[a]
  {
    if i > 0 {
      ServingSparesUncalled(p, requests, i - 1, n, capacity, a);
    }
  }

  /** A key nobody else calls is as it was until its shard's turn, and swept from then on. */
  lemma {:induction false} QuietKeyIsSwept(planes: seq<PlaneState>, p: PlaneState, others: nat -> seq<Request>, now: nat, n: nat, capacity: nat,
                                           a: KeyAddress, k: nat)
    requires n > 0 && k <= |planes| && Moments(planes, p, others, Sweeping(now), n, capacity)
    requires a in p.entries && IsQuiet(others, a)
    ensures var m := Before(planes, p, k, Sweeping(now), n).entries;
            a in m && m[a] == if a.placement % n < k then ExpireEntry(p.entries[a], now) else p.entries[a]
    ensures k < |planes| ==>
              a in planes[k].entries
              && planes[k].entries[a] == if a.placement % n < k then ExpireEntry(p.entries[a], now) else p.entries[a]
  {
    if k > 0 {
      QuietKeyIsSwept(planes, p, others, now, n, capacity, a, k - 1);
    }
    if k < |planes| {
      assert !Calls(others(k), a) && IsMoment(planes, p, others, Sweeping(now), n, capacity, k);
      ServingSparesUncalled(Before(planes, p, k, Sweeping(now), n), others(k), |others(k)|, n, capacity, a);
    }
  }

  /** The quiet keys of the first `s` shards that a sweep alone would demote. */
  ghost function QuietExpired(m: Plane, others: nat -> seq<Request>, n: nat, s: nat, now: nat): set<KeyAddress>
    requires n > 0
  {
    set a | a in m && IsQuiet(others, a) && Expirable(now).Of(m[a]) && a.placement % n < s
  }

  /** All of them are counted. */
  lemma {:induction false} QuietKeysAreCounted(planes: seq<PlaneState>, p: PlaneState, others: nat -> seq<Request>, now: nat, n: nat, capacity: nat, k: nat)
    requires n > 0 && k <= |planes| && Moments(planes, p, others, Sweeping(now), n, capacity)
    ensures |QuietExpired(p.entries, others, n, k, now)| <= SumAt(planes, k, n, Expirable(now))
  {
    if k == 0 {
      assert QuietExpired(p.entries, others, n, 0, now) == {};
    } else {
      QuietKeysAreCounted(planes, p, others, now, n, capacity, k - 1);
      var m := planes[k - 1].entries;
      var before, after := QuietExpired(p.entries, others, n, k - 1, now), QuietExpired(p.entries, others, n, k, now);
      var here := Among(KeysOf(m, n, k - 1, k), m, Expirable(now));
      forall a | a in after - before ensures a in here {
        QuietKeyIsSwept(planes, p, others, now, n, capacity, a, k - 1);
      }
      SubsetCount(after - before, here);
      assert after == before + (after - before);
    }
  }

  /**
   The expiry sweep among arbitrary calls. Each shard's expired ready entries are demoted at its own moment
   and counted, exactly; so every key that no other task calls ends as a sweep alone would leave it, and is
   counted.
   */
  method SweepAmidCalls(c: Cachelito, now: nat, others: nat -> seq<Request>) returns (demoted: nat, ghost planes: seq<PlaneState>)
    requires c.Valid()
    modifies c
    ensures c.Valid() && |planes| == |c.shards| == |old(c.shards)|
    ensures Moments(planes, old(c.State()), others, Sweeping(now), |c.shards|, c.capacityPerShard)
    ensures c.State() == Before(planes, old(c.State()), |planes|, Sweeping(now), |c.shards|)
    ensures demoted == SumAt(planes, |planes|, |c.shards|, Expirable(now))
    ensures demoted >= |QuietExpired(old(c.contents), others, |c.shards|, |c.shards|, now)|
    ensures forall a :: a in old(c.contents) && IsQuiet(others, a) ==>
              a in c.contents && c.contents[a] == ExpireEntry(old(c.contents)[a], now)
  {
    demoted, planes := 0, [];
    ghost var p := c.State();
    var n := |c.shards|;
    for s := 0 to n
      invariant c.Valid() && |c.shards| == n && |planes| == s
      invariant Moments(planes, p, others, Sweeping(now), n, c.capacityPerShard) && c.State() == Before(planes, p, s, Sweeping(now), n)
      invariant demoted == SumAt(planes, s, n, Expirable(now))
    {
      var _ := ServeRequests(c, others(s));
      MomentsGrow(planes, c.State(), p, others, Sweeping(now), n, c.capacityPerShard);
      SumAtGrows(planes, c.shards, c.State(), Expirable(now));
      planes := planes + [c.State()];
      var count := SweepOneShard(c, s, now);
      demoted := demoted + count;
    }
    QuietKeysAreCounted(planes, p, others, now, n, c.capacityPerShard, n);
    forall a | a in p.entries && IsQuiet(others, a) ensures a in c.contents && c.contents[a] == ExpireEntry(p.entries[a], now) {
      QuietKeyIsSwept(planes, p, others, now, n, c.capacityPerShard, a, n);
    }
  }

  // ---------------------------------------------------------------- what a sweep leaves, whatever happens meanwhile

  /** The entry is not stuck behind an intent as old as `cutoff`. */
  predicate Settled(e: ControlEntry, cutoff: nat) {
    !(e.state.Prepared? && e.intent.Some? && e.intent.value.startedAt <= cutoff)
  }

  /** No call but a prepare can make an entry unsettled, and a prepare later than the cutoff does not. */
  lemma CallKeepsSettled(e: ControlEntry, op: Op, now: nat, cutoff: nat)
    requires Settled(e, cutoff) && (op.Prepare? ==> now > cutoff)
    ensures Settled(Effect(e, op, now), cutoff)
  {
  }

  /** Either resolution settles any entry of a reachable plane, whichever intent it now carries. */
  lemma ResolvingSettles(e: ControlEntry, kind: IntentKind, cutoff: nat)
    requires IntentSound(e)
    ensures Settled(Effect(e, RecoveryOp(kind), 0), cutoff)
  {
  }

  ghost function Unsettled(m: Plane, cutoff: nat): set<KeyAddress> {
    set a | a in m && !Settled(m[a], cutoff)
  }

  ghost predicate IntentsSound(m: Plane) {
    forall a :: a in m ==> IntentSound(m[a])
  }

  predicate IsLate(q: Request, cutoff: nat) {
    q.op.Prepare? ==> q.now > cutoff
  }

  lemma StepKeepsUnsettled(p: PlaneState, q: Request, room: bool, cutoff: nat)
    requires IsLate(q, cutoff) && IntentsSound(p.entries)
    ensures var after := PlaneStep(p, q.address, q.op, q.now, room).0.entries;
            IntentsSound(after) && Unsettled(after, cutoff) <= Unsettled(p.entries, cutoff)
  {
    var after := PlaneStep(p, q.address, q.op, q.now, room).0.entries;
    var e := if q.address in p.entries then p.entries[q.address] else NewEntry(q.address, p.nextChannel);
    StepKeepsSound(e, q.op, q.now);
    if Settled(e, cutoff) {
      CallKeepsSettled(e, q.op, q.now, cutoff);
    }
    forall a | a in after ensures IntentSound(after[a]) && (Settled(after[a], cutoff) || a in Unsettled(p.entries, cutoff)) {
      assert a != q.address ==> a in p.entries && after[a] == p.entries[a];
    }
  }

  predicate AllLate(requests: seq<Request>, cutoff: nat) {
    forall i :: 0 <= i < |requests| ==> IsLate(requests[i], cutoff)
  }

  lemma {:induction false} ServingKeepsUnsettled(p: PlaneState, requests: seq<Request>, i: nat, n: nat, capacity: nat, cutoff: nat)
    requires i <= |requests| && n > 0 && IntentsSound(p.entries) && AllLate(requests, cutoff)
    ensures var q := ServeAll(p, requests, i, n, capacity).entries;
            IntentsSound(q) && Unsettled(q, cutoff) <= Unsettled(p.entries, cutoff)
  {
    if i > 0 {
      ServingKeepsUnsettled(p, requests, i - 1, n, capacity, cutoff);
      var q := ServeAll(p, requests, i - 1, n, capacity);
      StepKeepsUnsettled(q, requests[i - 1], Fits(q.entries, requests[i - 1].address, n, capacity), cutoff);
    }
  }

  // ---------------------------------------------------------------- listing among calls

  predicate IsOld(e: ControlEntry, cutoff: nat) {
    e.intent.Some? && e.intent.value.startedAt <= cutoff
  }

  /** `part` lists exactly the old intents of one shard of the plane. */
  ghost predicate ListsShard(part: seq<(KeyAddress, CommitIntent)>, m: Plane, n: nat, s: nat, cutoff: nat)
    requires n > 0
  {
    && (forall x :: x in part ==> x.0.placement % n == s && x.0 in m && IsOld(m[x.0], cutoff) && m[x.0].intent == Some(x.1))
    && (forall a :: a in m && a.placement % n == s && IsOld(m[a], cutoff) ==> (a, m[a].intent.value) in part)
  }

  lemma {:induction false} OldIntentIsIn(slots: Slots, i: nat, j: nat, cutoff: nat)
    requires j < i <= |slots| && HasIntentBy(slots[j], cutoff)
    ensures (slots[j].value.address, slots[j].value.intent.value) in OldIntentsIn(slots, i, cutoff)
  {
    if j < i - 1 {
      OldIntentIsIn(slots, i - 1, j, cutoff);
    }
  }

  lemma {:induction false} OldIntentHasSlot(slots: Slots, i: nat, cutoff: nat, x: (KeyAddress, CommitIntent)) returns (j: nat)
    requires i <= |slots| && x in OldIntentsIn(slots, i, cutoff)
    ensures j < i && HasIntentBy(slots[j], cutoff) && x == (slots[j].value.address, slots[j].value.intent.value)
  {
    if x in OldIntentOf(slots[i - 1], cutoff) {
      j := i - 1;
    } else {
      j := OldIntentHasSlot(slots, i - 1, cutoff, x);
    }
  }

  lemma ListingIsOfTheShard(shards: Shards, m: Plane, s: nat, cutoff: nat)
    requires Refines(shards, m) && s < |shards|
    ensures ListsShard(OldIntentsIn(shards[s], |shards[s]|, cutoff), m, |shards|, s, cutoff)
  {
    var slots := shards[s];
    var part := OldIntentsIn(slots, |slots|, cutoff);
    forall x | x in part
      ensures x.0.placement % |shards| == s && x.0 in m && IsOld(m[x.0], cutoff) && m[x.0].intent == Some(x.1)
    {
      var j := OldIntentHasSlot(slots, |slots|, cutoff, x);
      assert SlotAgrees(shards, s, j, m);
    }
    forall a | a in m && a.placement % |shards| == s && IsOld(m[a], cutoff) ensures (a, m[a].intent.value) in part {
      assert Stored(shards[ShardFor(shards, a)], a);
      var j: nat :| j < |slots| && Holds(slots[j], a);
      assert SlotAgrees(shards, s, j, m);
      OldIntentIsIn(slots, |slots|, j, cutoff);
    }
  }

  /** `found` lists exactly the old intents of the first `s` shards, each as it was at its shard's moment. */
  ghost predicate ListsMoments(found: seq<(KeyAddress, CommitIntent)>, planes: seq<PlaneState>, n: nat, s: nat, cutoff: nat)
    requires n > 0 && s <= |planes|
  {
    && (forall x :: x in found ==>
          x.0.placement % n < s
          && var m := planes[x.0.placement % n].entries;
             x.0 in m && IsOld(m[x.0], cutoff) && m[x.0].intent == Some(x.1))
    && (forall a: KeyAddress {:trigger ListsKey(found, planes, n, cutoff, a)} :: a.placement % n < s ==> ListsKey(found, planes, n, cutoff, a))
  }

  ghost predicate ListsKey(found: seq<(KeyAddress, CommitIntent)>, planes: seq<PlaneState>, n: nat, cutoff: nat, a: KeyAddress)
    requires n > 0 && a.placement % n < |planes|
  {
    var m := planes[a.placement % n].entries;
    a in m && IsOld(m[a], cutoff) ==> (a, m[a].intent.value) in found
  }

  lemma ListsNextMoment(found: seq<(KeyAddress, CommitIntent)>, part: seq<(KeyAddress, CommitIntent)>, planes: seq<PlaneState>, q: PlaneState,
                        n: nat, cutoff: nat)
    requires |planes| < n && ListsMoments(found, planes, n, |planes|, cutoff) && ListsShard(part, q.entries, n, |planes|, cutoff)
    ensures ListsMoments(found + part, planes + [q], n, |planes| + 1, cutoff)
  {
    forall a: KeyAddress | a.placement % n < |planes| + 1 ensures ListsKey(found + part, planes + [q], n, cutoff, a) {
      assert a.placement % n < |planes| ==> ListsKey(found, planes, n, cutoff, a);
    }
  }

  // ---------------------------------------------------------------- recovery among calls

  /** No key unsettled in the plane now was settled under an earlier lock. */
  ghost predicate OnlySettles(planes: seq<PlaneState>, m: Plane, cutoff: nat) {
    forall k :: 0 <= k < |planes| ==> Unsettled(m, cutoff) <= Unsettled(planes[k].entries, cutoff)
  }

  ghost predicate Lists(found: seq<(KeyAddress, CommitIntent)>, from: nat, a: KeyAddress) {
    exists k :: from <= k < |found| && found[k].0 == a
  }

  /** Everything unsettled is still to come on the list. */
  ghost predicate AllAhead(m: Plane, found: seq<(KeyAddress, CommitIntent)>, k: nat, cutoff: nat) {
    forall a :: a in Unsettled(m, cutoff) ==> Lists(found, k, a)
  }

  lemma ListedAreAhead(found: seq<(KeyAddress, CommitIntent)>, planes: seq<PlaneState>, n: nat, m: Plane, cutoff: nat)
    requires n > 0 && |planes| == n && ListsMoments(found, planes, n, n, cutoff) && OnlySettles(planes, m, cutoff)
    ensures AllAhead(m, found, 0, cutoff)
  {
    forall a | a in Unsettled(m, cutoff) ensures Lists(found, 0, a) {
      var q := planes[a.placement % n].entries;
      assert a in Unsettled(q, cutoff) && ListsKey(found, planes, n, cutoff, a);
      var k :| 0 <= k < |found| && found[k] == (a, q[a].intent.value);
    }
  }

  /** What the resolution of one listed intent meets. */
  predicate Acts(q: PlaneState, x: (KeyAddress, CommitIntent)) {
    x.0 in q.entries && Takes(q.entries[x.0], RecoveryOp(x.1.kind), 0)
  }

  /** The report: each listed write whose abort took effect is recovered, each listed move needs reconciliation, and each whose claim was held is released. */
  ghost function Tallied(found: seq<(KeyAddress, CommitIntent)>, planes: seq<PlaneState>, from: nat, k: nat): RecoveryReport
    requires k <= |found| && from + k <= |planes|
  {
    if k == 0 then RecoveryReport(0, 0, 0, 0)
    else Counted(Tallied(found, planes, from, k - 1), found[k - 1].1.kind, Acts(planes[from + k - 1], found[k - 1]))
  }

  lemma {:induction false} TalliedIgnoresLater(found: seq<(KeyAddress, CommitIntent)>, planes: seq<PlaneState>, q: PlaneState, from: nat, k: nat)
    requires k <= |found| && from + k <= |planes|
    ensures Tallied(found, planes + [q], from, k) == Tallied(found, planes, from, k)
  {
    if k > 0 {
      TalliedIgnoresLater(found, planes, q, from, k - 1);
    }
  }

  lemma ResolvingOneSettlesIt(q: PlaneState, found: seq<(KeyAddress, CommitIntent)>, k: nat, cutoff: nat)
    requires k < |found| && IntentsSound(q.entries) && AllAhead(q.entries, found, k, cutoff)
    ensures var m := ResolvedAt(q, found[k]).entries;
            IntentsSound(m) && Unsettled(m, cutoff) <= Unsettled(q.entries, cutoff) && AllAhead(m, found, k + 1, cutoff)
  {
    var (a, intent) := found[k];
    StepKeepsUnsettled(q, Request(a, RecoveryOp(intent.kind), 0), true, cutoff);
    if a in q.entries {
      ResolvingSettles(q.entries[a], intent.kind, cutoff);
    }
    var m := ResolvedAt(q, found[k]).entries;
    forall b | b in Unsettled(m, cutoff) ensures Lists(found, k + 1, b) {
      assert Lists(found, k, b) && b != a;
      var l :| k <= l < |found| && found[l].0 == b;
      assert l != k;
    }
  }

  /** Other tasks call; then one shard is listed under its lock. */
  method ListNextShard(c: Cachelito, s: nat, cutoff: nat, others: seq<Request>) returns (part: seq<(KeyAddress, CommitIntent)>)
    requires c.Valid() && s < |c.shards|
    modifies c
    ensures c.Valid() && |c.shards| == |old(c.shards)|
    ensures c.State() == ServeAll(old(c.State()), others, |others|, |c.shards|, c.capacityPerShard)
    ensures ListsShard(part, c.contents, |c.shards|, s, cutoff)
  {
    var _ := ServeRequests(c, others);
    part := ListShard(c.shards[s], cutoff);
    ListingIsOfTheShard(c.shards, c.contents, s, cutoff);
  }

  /** Other tasks call; then one listed intent is resolved. */
  method ResolveNextAmidCalls(c: Cachelito, x: (KeyAddress, CommitIntent), others: seq<Request>) returns (acted: bool, ghost q: PlaneState)
    requires c.Valid()
    modifies c
    ensures c.Valid() && |c.shards| == |old(c.shards)|
    ensures q == ServeAll(old(c.State()), others, |others|, |c.shards|, c.capacityPerShard)
    ensures c.State() == ResolvedAt(q, x) && acted == Acts(q, x)
  {
    var _ := ServeRequests(c, others);
    q := c.State();
    var reply := c.Apply(x.0, RecoveryOp(x.1.kind), 0);
    acted := reply.flag;
  }

  /** The listing half of the sweep. */
  method ListAmidCalls(c: Cachelito, cutoff: nat, others: nat -> seq<Request>)
    returns (found: seq<(KeyAddress, CommitIntent)>, ghost planes: seq<PlaneState>)
    requires c.Valid() && IntentsSound(c.contents) && forall g :: AllLate(others(g), cutoff)
    modifies c
    ensures c.Valid() && |planes| == |c.shards| == |old(c.shards)| && IntentsSound(c.contents)
    ensures Moments(planes, old(c.State()), others, Looking, |c.shards|, c.capacityPerShard)
    ensures c.State() == Before(planes, old(c.State()), |planes|, Looking, |c.shards|)
    ensures ListsMoments(found, planes, |c.shards|, |c.shards|, cutoff) && AllAhead(c.contents, found, 0, cutoff)
  {
    found, planes := [], [];
    ghost var p := c.State();
    var n := |c.shards|;
    for s := 0 to n
      invariant c.Valid() && |c.shards| == n && |planes| == s && IntentsSound(c.contents)
      invariant Moments(planes, p, others, Looking, n, c.capacityPerShard) && c.State() == Before(planes, p, s, Looking, n)
      invariant ListsMoments(found, planes, n, s, cutoff) && OnlySettles(planes, c.contents, cutoff)
    {
      ServingKeepsUnsettled(c.State(), others(s), |others(s)|, n, c.capacityPerShard, cutoff);
      var part := ListNextShard(c, s, cutoff, others(s));
      MomentsGrow(planes, c.State(), p, others, Looking, n, c.capacityPerShard);
      ListsNextMoment(found, part, planes, c.State(), n, cutoff);
      found, planes := found + part, planes + [c.State()];
    }
    ListedAreAhead(found, planes, n, c.contents, cutoff);
  }

  lemma LookingIsNotYetResolving(planes: seq<PlaneState>, p: PlaneState, others: nat -> seq<Request>, found: seq<(KeyAddress, CommitIntent)>,
                                 n: nat, capacity: nat)
    requires n > 0 && |planes| == n && Moments(planes, p, others, Looking, n, capacity)
    ensures Moments(planes, p, others, Recovering(found, n), n, capacity)
    ensures Before(planes, p, n, Recovering(found, n), n) == Before(planes, p, n, Looking, n)
  {
    forall k | 0 <= k < n ensures IsMoment(planes, p, others, Recovering(found, n), n, capacity, k) {
      assert IsMoment(planes, p, others, Looking, n, capacity, k);
    }
  }

  /** One round of resolving: the bookkeeping of `RecoverAmidCalls`. */
  lemma ResolvingRound(planes: seq<PlaneState>, q: PlaneState, p: PlaneState, others: nat -> seq<Request>, found: seq<(KeyAddress, CommitIntent)>,
                       n: nat, capacity: nat, k: nat)
    requires n > 0 && k < |found| && |planes| == n + k
    requires Moments(planes, p, others, Recovering(found, n), n, capacity)
    requires q == ServeAll(Before(planes, p, n + k, Recovering(found, n), n), others(n + k), |others(n + k)|, n, capacity)
    ensures Moments(planes + [q], p, others, Recovering(found, n), n, capacity)
    ensures Before(planes + [q], p, n + k + 1, Recovering(found, n), n) == ResolvedAt(q, found[k])
    ensures Tallied(found, planes + [q], n, k + 1) == Counted(Tallied(found, planes, n, k), found[k].1.kind, Acts(q, found[k]))
  {
    MomentsGrow(planes, q, p, others, Recovering(found, n), n, capacity);
    TalliedIgnoresLater(found, planes, q, n, k);
  }

  /** After `k` rounds of resolving: the moments so far, the report so far, and nothing unsettled behind. */
  ghost predicate InRound(c: Cachelito, p: PlaneState, planes: seq<PlaneState>, others: nat -> seq<Request>, found: seq<(KeyAddress, CommitIntent)>,
                          k: nat, cutoff: nat, report: RecoveryReport)
    reads c
  {
    var n := |c.shards|;
    && c.Valid() && IntentsSound(c.contents) && k <= |found| && |planes| == n + k
    && Moments(planes, p, others, Recovering(found, n), n, c.capacityPerShard)
    && c.State() == Before(planes, p, n + k, Recovering(found, n), n)
    && AllAhead(c.contents, found, k, cutoff) && report == Tallied(found, planes, n, k)
  }

  method ResolveRound(c: Cachelito, found: seq<(KeyAddress, CommitIntent)>, k: nat, cutoff: nat, report: RecoveryReport, others: nat -> seq<Request>,
                      ghost p: PlaneState, ghost planes: seq<PlaneState>)
    returns (r: RecoveryReport, ghost q: PlaneState)
    requires k < |found| && AllLate(others(|c.shards| + k), cutoff) && InRound(c, p, planes, others, found, k, cutoff, report)
    modifies c
    ensures |c.shards| == |old(c.shards)| && InRound(c, p, planes + [q], others, found, k + 1, cutoff, r)
  {
    var now := others(|c.shards| + k);
    ServingKeepsUnsettled(c.State(), now, |now|, |c.shards|, c.capacityPerShard, cutoff);
    var acted;
    acted, q := ResolveNextAmidCalls(c, found[k], now);
    assert AllAhead(q.entries, found, k, cutoff);
    ResolvingRound(planes, q, p, others, found, |c.shards|, c.capacityPerShard, k);
    ResolvingOneSettlesIt(q, found, k, cutoff);
    r := Counted(report, found[k].1.kind, acted);
  }

  /**
   The recovery sweep among arbitrary calls of other tasks. It lists each shard's old intents as they are at
   that shard's moment, and reports exactly which resolutions took effect. As long as the other tasks' new
   intents are later than the cutoff, no entry is left prepared behind an intent as old as the cutoff.
   */
  method RecoverAmidCalls(c: Cachelito, cutoff: nat, others: nat -> seq<Request>)
    returns (report: RecoveryReport, ghost found: seq<(KeyAddress, CommitIntent)>, ghost planes: seq<PlaneState>)
    requires c.Valid() && IntentsSound(c.contents) && forall g :: AllLate(others(g), cutoff)
    modifies c
    ensures |c.shards| == |old(c.shards)| && InRound(c, old(c.State()), planes, others, found, |found|, cutoff, report)
    ensures ListsMoments(found, planes[..|c.shards|], |c.shards|, |c.shards|, cutoff)
    ensures forall a :: a in c.contents ==> Settled(c.contents[a], cutoff)
  {
    ghost var p, n := c.State(), |c.shards|;
    ghost var heard;
    var listed;
    listed, heard := ListAmidCalls(c, cutoff, others);
    found, planes, report := listed, heard, RecoveryReport(0, 0, 0, 0);
    LookingIsNotYetResolving(planes, p, others, found, n, c.capacityPerShard);
    for k := 0 to |listed|
      invariant |c.shards| == n && InRound(c, p, planes, others, found, k, cutoff, report) && planes[..n] == heard
    {
      ghost var q;
      report, q := ResolveRound(c, listed, k, cutoff, report, others, p, planes);
      planes := planes + [q];
    }
    NothingAhead(c.contents, found, cutoff);
  }

  lemma NothingAhead(m: Plane, found: seq<(KeyAddress, CommitIntent)>, cutoff: nat)
    requires AllAhead(m, found, |found|, cutoff)
    ensures forall a :: a in m ==> Settled(m[a], cutoff)
  {
    forall a | a in m ensures Settled(m[a], cutoff) {
      assert !Lists(found, |found|, a);
    }
  }

  // ---------------------------------------------------------------- which intent a sweep resolves

  /** The intent the last prepare that took effect recorded, or the one there was at the start. */
  function LastRecorded(e: ControlEntry, calls: seq<Call>, i: nat): Option<CommitIntent>
    requires i <= |calls|
  {
    if i == 0 then e.intent
    else
      var c := calls[i - 1];
      if PreparesAt(e, calls, i - 1) then Some(CommitIntent(c.op.kind, c.op.target.Index(), After(e, calls, i - 1).generation, c.now))
      else LastRecorded(e, calls, i - 1)
  }

  predicate PreparesAt(e: ControlEntry, calls: seq<Call>, k: nat)
    requires k < |calls|
  {
    calls[k].op.Prepare? && TakesAt(e, calls, k)
  }

  lemma {:induction false} IntentIsLastRecorded(e: ControlEntry, calls: seq<Call>, i: nat)
    requires i <= |calls|
    ensures After(e, calls, i).intent.None? || After(e, calls, i).intent == LastRecorded(e, calls, i)
  {
    if i > 0 {
      IntentIsLastRecorded(e, calls, i - 1);
    }
  }

  lemma {:induction false} LastRecordedIff(e: ControlEntry, calls: seq<Call>, i: nat)
    requires i <= |calls| && e.intent.Some?
    requires forall k :: 0 <= k < |calls| && calls[k].op.Prepare? ==> calls[k].now > e.intent.value.startedAt
    ensures LastRecorded(e, calls, i) == e.intent <==> forall k :: 0 <= k < i ==> !PreparesAt(e, calls, k)
  {
    if i > 0 && !PreparesAt(e, calls, i - 1) {
      LastRecordedIff(e, calls, i - 1);
    }
  }

  /**
   Between the listing of `e`'s intent and the step that resolves it, any calls may happen. If the step
   acts, it acts on the intent it listed if and only if no prepare has taken effect since.
   */
  lemma SweepResolvesListedIff(e: ControlEntry, calls: seq<Call>)
    requires e.intent.Some? && IntentSound(e) && OwnerPlausible(e)
    requires forall k :: 0 <= k < |calls| && calls[k].op.Prepare? ==> calls[k].now > e.intent.value.startedAt
    requires Takes(After(e, calls, |calls|), RecoveryOp(e.intent.value.kind), 0)
    ensures After(e, calls, |calls|).intent.Some?
    ensures After(e, calls, |calls|).intent == e.intent <==> forall k :: 0 <= k < |calls| ==> !PreparesAt(e, calls, k)
  {
    RunKeepsIntentSound(e, calls, |calls|);
    IntentIsLastRecorded(e, calls, |calls|);
    LastRecordedIff(e, calls, |calls|);
  }

  /** A sweep that listed an old write, since committed, aborts the move prepared after it, newer than its cutoff: the committed value is lost to readers. */
  lemma SweepAbortsNewerMove(address: KeyAddress)
    ensures var calls := [Call(Prepare(None, L1, Write), 1), Call(Commit(0, 1, 0), 6), Call(Prepare(None, L0, Move), 9),
                          Call(AbortIntent(UncommittedIntent), 9)];
            var e := NewEntry(address, 0);
            && HasOldIntent(After(e, calls, 1), 5, Write)
            && After(e, calls, 2).state.Ready?
            && After(e, calls, 3).intent == Some(CommitIntent(Move, 0, 0, 9))
            && After(e, calls, 4).state.Failed? && After(e, calls, 4).intent.None?
  {
    var calls := [Call(Prepare(None, L1, Write), 1), Call(Commit(0, 1, 0), 6), Call(Prepare(None, L0, Move), 9),
                  Call(AbortIntent(UncommittedIntent), 9)];
    var e := NewEntry(address, 0);
    AfterNext(e, calls, 0);
    AfterNext(e, calls, 1);
    AfterNext(e, calls, 2);
    AfterNext(e, calls, 3);
  }
}
