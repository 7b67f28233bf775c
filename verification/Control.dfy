/**
 One control-plane entry and the effect of every public control-plane call on it.

 Each call holds its shard's lock for its whole body, so each call is one atomic step. Time is a
 parameter, in nanoseconds since the process anchor; `0` encodes "none" in `ttl` and `populatedAt`.
 */
module Control {
  import opened Entry

  datatype ControlEntry = ControlEntry(
    address: KeyAddress,
    state: EntryState,
    generation: nat,
    tier: TierId,
    owner: bool,
    populatedAt: nat,
    ttl: nat,
    lastError: Option<CacheError>,
    intent: Option<CommitIntent>,
    interrupted: EntryState,
    channel: nat)
  {
    predicate IsExpired(now: nat) {
      ttl != 0 && populatedAt != 0 && now - populatedAt >= ttl
    }

    /** Whether a waiter has something to wait for. */
    predicate Busy() {
      state.InFlight? || state.Prepared?
    }
  }

  /** The error marker has room for four errors; every other one is stored as `PopulationFailed`. */
  function Marker(e: CacheError): Option<CacheError> {
    match e
    case Timeout => Some(Timeout)
    case TierUnavailable => Some(TierUnavailable)
    case Cancelled => Some(Cancelled)
    case _ => Some(PopulationFailed)
  }

  function NewEntry(address: KeyAddress, channel: nat): ControlEntry {
    ControlEntry(address, Absent, 0, L0, false, 0, 0, None, None, Absent, channel)
  }

  datatype Op =
    | Peek
    | Acquire(tier: TierId)
    | Publish(generation: nat, tier: TierId, ttl: nat)
    | Fail(error: CacheError)
    | Release
    | Invalidate
    | MarkStale
    | Prepare(expected: Option<nat>, target: TierId, kind: IntentKind)
    | Commit(generation: nat, index: nat, ttl: nat)
    | Abort(error: CacheError, provenClean: bool)
    | ReserveEviction
    | ReleaseClaim
    | AbortIntent(error: CacheError)
    | Expire

  datatype Snapshot = Snapshot(
    state: EntryState,
    generation: nat,
    tier: TierId,
    owner: bool,
    expired: bool,
    lastError: Option<CacheError>,
    intent: Option<CommitIntent>,
    channel: nat)

  datatype Reply =
    | Seen(snapshot: Snapshot)
    | Issued(token: CommitToken)
    | Done
    | Flag(flag: bool)
    | Refused(error: CacheError)

  /** The calls that make a slot for an address that has none. */
  predicate Creates(op: Op) {
    op.Acquire? || op.Prepare? || op.MarkStale?
  }

  /** Whether the call changes the entry, or leaves it exactly as it found it. */
  predicate Takes(e: ControlEntry, op: Op, now: nat) {
    match op
    case Peek => false
    case Acquire(_) => e.state.IsClaimable()
    case Publish(g, _, _) => g == e.generation
    case Fail(_) => true
    case Release => true
    case Invalidate => true
    case MarkStale => true
    case Prepare(expected, _, _) => expected.None? || expected.value == e.generation
    case Commit(g, _, _) => g == e.generation && e.state.Prepared?
    case Abort(_, _) => e.state.Prepared?
    case ReserveEviction => e.state.Ready? && !e.owner && e.intent.None?
    case ReleaseClaim => e.state.Prepared? && e.owner
    case AbortIntent(_) => e.intent.Some? && e.state.Prepared?
    case Expire => !e.tier.IsAuthorityRung() && e.state.Ready? && e.IsExpired(now)
  }

  function Effect(e: ControlEntry, op: Op, now: nat): ControlEntry {
    if !Takes(e, op, now) then e else
      match op
      case Peek => e
      case Acquire(tier) =>
        e.(state := InFlight, owner := true, generation := e.generation + 1, tier := tier,
           lastError := None, populatedAt := now)
      case Publish(_, tier, ttl) =>
        e.(state := Ready, tier := tier, ttl := ttl, lastError := None, owner := false, populatedAt := now)
      case Fail(error) =>
        e.(state := Failed, lastError := Marker(error), owner := false, populatedAt := 0)
      case Release => Cleared(e)
      case Invalidate => Cleared(e)
      case MarkStale => e.(state := Stale)
      case Prepare(_, target, kind) =>
        e.(interrupted := e.state,
           intent := Some(CommitIntent(kind, target.Index(), e.generation, now)),
           state := Prepared, owner := true)
      case Commit(_, index, ttl) =>
        e.(state := Ready,
           tier := if FromIndex(index).Some? then FromIndex(index).value else e.tier,
           ttl := ttl, interrupted := Ready, owner := false, intent := None,
           populatedAt := now, lastError := None)
      case Abort(error, provenClean) =>
        var resolved := e.(owner := false, intent := None, lastError := Marker(error));
        if provenClean then resolved.(state := e.interrupted)
        else resolved.(state := Failed, generation := e.generation + 1)
      case ReserveEviction => e.(generation := e.generation + 1, state := Stale)
      case ReleaseClaim => e.(state := Failed, generation := e.generation + 1, owner := false)
      case AbortIntent(error) =>
        e.(state := Failed, generation := e.generation + 1, owner := false, intent := None,
           lastError := Marker(error))
      case Expire => e.(state := Stale)
  }

  function Cleared(e: ControlEntry): ControlEntry {
    e.(generation := e.generation + 1, state := Absent, owner := false, populatedAt := 0, ttl := 0,
       lastError := None)
  }

  /** Every change wakes the entry's waiters, except the two that put it into a busy state. */
  predicate Notifies(e: ControlEntry, op: Op, now: nat) {
    Takes(e, op, now) && !op.Acquire? && !op.Prepare?
  }

  function SnapshotOf(e: ControlEntry, owner: bool, now: nat): Snapshot {
    Snapshot(e.state, e.generation, e.tier, owner, e.IsExpired(now), e.lastError, e.intent, e.channel)
  }

  function ReplyTo(e: ControlEntry, op: Op, now: nat): Reply {
    match op
    case Peek => Seen(SnapshotOf(e, e.owner, now))
    case Acquire(_) => Seen(SnapshotOf(Effect(e, op, now), Takes(e, op, now), now))
    case Publish(_, _, _) => if Takes(e, op, now) then Done else Refused(StaleGeneration)
    case Prepare(_, target, kind) =>
      if Takes(e, op, now) then Issued(CommitToken(e.address, e.generation, kind, target.Index()))
      else Refused(StaleGeneration)
    case Commit(_, _, _) => if Takes(e, op, now) then Done else Refused(StaleGeneration)
    case Fail(_) => Done
    case Release => Done
    case Invalidate => Done
    case MarkStale => Done
    case Abort(_, _) => Done
    case ReserveEviction => Flag(Takes(e, op, now))
    case ReleaseClaim => Flag(Takes(e, op, now))
    case AbortIntent(_) => Flag(Takes(e, op, now))
    case Expire => Flag(Takes(e, op, now))
  }

  /** The answer when the address has no slot and the call does not make one. */
  function MissingReply(op: Op, channel: nat): Reply {
    match op
    case Peek => Seen(Snapshot(Absent, 0, L0, false, false, None, None, channel))
    case Publish(_, _, _) => Refused(Miss)
    case Fail(_) => Refused(Miss)
    case Commit(_, _, _) => Refused(Miss)
    case ReserveEviction => Flag(false)
    case ReleaseClaim => Flag(false)
    case AbortIntent(_) => Flag(false)
    case Expire => Flag(false)
    case _ => Done
  }

  /** No call changes an entry's identity, its wakeup channel, or moves its generation back. */
  lemma EffectKeepsIdentity(e: ControlEntry, op: Op, now: nat)
    ensures Effect(e, op, now).address == e.address
    ensures Effect(e, op, now).channel == e.channel
    ensures e.generation <= Effect(e, op, now).generation <= e.generation + 1
  {
  }

  /** Which calls may touch which part of an entry, whatever they find there. */
  lemma WhatACallLeavesAlone(e: ControlEntry, op: Op, now: nat)
    ensures var x := Effect(e, op, now);
            && (x.tier != e.tier ==> op.Acquire? || op.Publish? || op.Commit?)
            && (x.ttl != e.ttl ==> op.Publish? || op.Commit? || op.Release? || op.Invalidate?)
            && (x.populatedAt != e.populatedAt ==> op.Acquire? || op.Publish? || op.Commit? || op.Fail? || op.Release? || op.Invalidate?)
            && (x.intent != e.intent ==> op.Prepare? || op.Commit? || op.Abort? || op.AbortIntent?)
            && (x.interrupted != e.interrupted ==> op.Prepare? || op.Commit?)
            && (x.owner && !e.owner ==> op.Acquire? || op.Prepare?)
            && (e.owner && !x.owner ==> !op.Peek? && !op.Acquire? && !op.Prepare? && !op.MarkStale? && !op.Expire? && !op.ReserveEviction?)
            && (x.lastError != e.lastError ==>
                  op.Acquire? || op.Publish? || op.Commit? || op.Fail? || op.Release? || op.Invalidate? || op.Abort? || op.AbortIntent?)
            && (x.generation != e.generation ==>
                  op.Acquire? || op.Release? || op.Invalidate? || op.Abort? || op.AbortIntent? || op.ReserveEviction? || op.ReleaseClaim?)
  {
  }

  /** The error reported to waiters is the one that happened only for these four. */
  lemma MarkerKeepsFourErrors(e: CacheError)
    ensures Marker(e) == Some(e) <==> e in [Timeout, TierUnavailable, Cancelled, PopulationFailed]
    ensures Marker(e) == Some(e) || Marker(e) == Some(PopulationFailed)
  {
  }

  /** A snapshot shows the entry as it stands after the call, its expiry included; a claim attempt shows ownership only to the caller who got it. */
  lemma SnapshotIsCurrent(e: ControlEntry, op: Op, now: nat)
    requires op.Peek? || op.Acquire?
    ensures var r, x := ReplyTo(e, op, now), Effect(e, op, now);
            && r.Seen?
            && var s := r.snapshot;
            && s.state == x.state && s.generation == x.generation && s.tier == x.tier
            && s.lastError == x.lastError && s.intent == x.intent && s.channel == x.channel
            && (s.expired <==> x.ttl != 0 && x.populatedAt != 0 && now - x.populatedAt >= x.ttl)
            && (op.Peek? ==> x == e && (s.owner <==> e.owner))
            && (op.Acquire? ==> (s.owner <==> x.generation == e.generation + 1))
  {
  }

  /** An answer of yes means that something changed, an answer of no or a refusal that nothing did; only a wrong generation, or a commit of nothing prepared, is refused. */
  lemma AnswersTellTheEffect(e: ControlEntry, op: Op, now: nat)
    ensures var r, x := ReplyTo(e, op, now), Effect(e, op, now);
            && (op.ReserveEviction? || op.ReleaseClaim? || op.AbortIntent? || op.Expire? ==> r == Flag(x != e))
            && (r.Refused? ==> x == e && r.error.StaleGeneration?)
            && (r.Refused? <==>
                  || (op.Publish? && op.generation != e.generation)
                  || (op.Prepare? && op.expected.Some? && op.expected.value != e.generation)
                  || (op.Commit? && (op.generation != e.generation || !e.state.Prepared?)))
  {
  }

  /** A missing key answers as a new entry would, except that publishing, failing and committing are misses. */
  lemma MissingLooksNew(a: KeyAddress, op: Op, channel: nat, now: nat)
    requires !(op.Acquire? || op.Prepare? || op.MarkStale?)
    ensures !Creates(op)
    ensures if op.Publish? || op.Fail? || op.Commit? then MissingReply(op, channel) == Refused(Miss)
            else MissingReply(op, channel) == ReplyTo(NewEntry(a, channel), op, now)
  {
  }

  /** A claim, a prepare and the raw stale marker leave an entry behind for a key that had none, if there is room; no other call does. */
  lemma WhatMakesAnEntry(p: PlaneState, a: KeyAddress, op: Op, now: nat, room: bool)
    requires a !in p.entries
    ensures var after := PlaneStep(p, a, op, now, room).0.entries;
            if room && (op.Acquire? || op.Prepare? || op.MarkStale?)
            then after.Keys == p.entries.Keys + {a} else after == p.entries
  {
  }

  type Plane = map<KeyAddress, ControlEntry>

  /** The plane as a plain map, with the supply of fresh wakeup channels. */
  datatype PlaneState = PlaneState(entries: Plane, nextChannel: nat)

  /** One call on the plain map. `room` says whether a slot can be made for a new address. */
  function PlaneStep(p: PlaneState, a: KeyAddress, op: Op, now: nat, room: bool): (r: (PlaneState, Reply)) {
    if a in p.entries then
      (p.(entries := p.entries[a := Effect(p.entries[a], op, now)]), ReplyTo(p.entries[a], op, now))
    else if !Creates(op) then
      (p.(nextChannel := p.nextChannel + if op.Peek? then 1 else 0), MissingReply(op, p.nextChannel))
    else if room then
      var e := NewEntry(a, p.nextChannel);
      (PlaneState(p.entries[a := Effect(e, op, now)], p.nextChannel + 1), ReplyTo(e, op, now))
    else
      (p, Refused(ConfigurationError))
  }
}
