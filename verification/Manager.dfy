/**
 The manager's write and move protocols over unreliable rungs.

 Everything outside the task's control is an oracle. `world(n)` says what happens at the task's n-th
 await: which control-plane calls and rung changes other tasks make before the rung acts and after it
 has acted, how the rung answers, whether the bytes landed, and whether the task is dropped there and
 never resumes. A theorem about every `world` is a theorem about every interleaving of the task's steps
 with other tasks' calls, every failure and every cancellation point.
 */
module Manager {
  import opened Entry
  import opened Control

  /** One key's place on one rung. */
  datatype Cell = Cell(rung: nat, address: KeyAddress)

  /** Another task's call; `room` says whether a slot could be made for a new address. */
  datatype OtherCall = OtherCall(address: KeyAddress, op: Op, now: nat, room: bool)

  /**
   What other tasks do in one stretch. `disturbed` names the keys on which one of their calls takes effect;
   a call that would take effect on any other key is not among those made.
   */
  datatype Others<V> = Others(calls: seq<OtherCall>, moved: map<Cell, Option<V>>, disturbed: set<KeyAddress>) {
    /** No call takes effect on `a`, and none of its cells is changed. Reads, and claims, commits and reservations that are refused, may happen. */
    predicate Spares(a: KeyAddress) {
      a !in disturbed && forall c :: c in moved ==> c.address != a
    }

    predicate SparesRung(rung: nat) {
      forall c :: c in moved ==> c.rung != rung
    }
  }

  datatype Await<V> = Await(
    before: Others<V>,
    after: Others<V>,
    cancelled: bool,
    error: Option<CacheError>,
    landed: bool,
    leftover: Option<V>,
    now: nat)
  {
    /** The rung answered, and its answer leaves no doubt about what it stored. */
    predicate IsPlain() {
      !cancelled && (error.Some? ==> ProvablyStoredNothing(error.value))
    }

    /** The rung's answer. A dropped task gets none, which is as good as an error that proves nothing. */
    function Answer(): Option<CacheError> {
      if cancelled then Some(CacheError.Cancelled) else error
    }

    /** The rung took the write. */
    predicate IsAccepted() {
      !cancelled && error.None?
    }
  }

  /** The call changes the key's entry, or makes one. */
  predicate TakesEffect(plane: PlaneState, c: OtherCall) {
    if c.address in plane.entries then Takes(plane.entries[c.address], c.op, c.now) else Creates(c.op)
  }

  /** The plane after other tasks' calls, one at a time, in order. */
  function Replay(plane: PlaneState, calls: seq<OtherCall>, disturbed: set<KeyAddress>): PlaneState {
    if calls == [] then plane else
      var before, c := Replay(plane, calls[..|calls| - 1], disturbed), calls[|calls| - 1];
      if c.address in disturbed || !TakesEffect(before, c) then PlaneStep(before, c.address, c.op, c.now, c.room).0 else before
  }

  /** They leave every entry alone that is not among the disturbed. */
  lemma {:induction false} ReplaySpares(plane: PlaneState, calls: seq<OtherCall>, disturbed: set<KeyAddress>, b: KeyAddress)
    requires b !in disturbed
    ensures EntryIn(Replay(plane, calls, disturbed), b) == EntryIn(plane, b)
  {
    if calls != [] {
      ReplaySpares(plane, calls[..|calls| - 1], disturbed, b);
    }
  }

  /** One data write: the rung asked, and what it answered; `None` is success. */
  datatype Written = Written(rung: nat, answer: Option<CacheError>)

  /** What a rung answers when asked for an eviction victim, and what removing it leaves. */
  datatype Nominee<V> = Nominee(address: Option<KeyAddress>, removed: bool, leftover: Option<V>)

  function At<V>(cells: map<Cell, V>, rung: nat, a: KeyAddress): Option<V> {
    if Cell(rung, a) in cells then Some(cells[Cell(rung, a)]) else None
  }

  function Put<V>(cells: map<Cell, V>, c: Cell, v: Option<V>): (after: map<Cell, V>)
    ensures forall r: nat, b :: At(after, r, b) == if Cell(r, b) == c then v else At(cells, r, b)
  {
    if v.Some? then cells[c := v.value] else cells - {c}
  }

  /** The rungs after other tasks have changed some cells. */
  function Moved<V>(cells: map<Cell, V>, moved: map<Cell, Option<V>>): (after: map<Cell, V>)
    ensures forall r: nat, b :: Cell(r, b) !in moved ==> At(after, r, b) == At(cells, r, b)
    ensures forall r: nat, b :: Cell(r, b) in moved ==> At(after, r, b) == moved[Cell(r, b)]
  {
    map c | c in cells.Keys + moved.Keys && (c in moved ==> moved[c].Some?) ::
      if c in moved then moved[c].value else cells[c]
  }

  /** The rung below, or the authority when there is none; the walk stops there. */
  function PreviousRung(rung: TierId): (r: TierId)
    ensures rung.L0? ==> !r.IsCacheRung()
    ensures !rung.L0? ==> r.Index() == rung.Index() - 1
  {
    match rung
    case L0 => L6
    case L1 => L0
    case L2 => L1
    case L3 => L2
    case L4 => L3
    case L5 => L4
    case L6 => L5
  }

  /** Rungs left to try, this one included. */
  function Remaining(rung: TierId): nat {
    if rung.IsCacheRung() then rung.Index() + 1 else 0
  }

  lemma OneRungLess(rung: TierId)
    requires rung.IsCacheRung()
    ensures Remaining(rung) == rung.Index() + 1 && Remaining(PreviousRung(rung)) == rung.Index()
  {
  }

  ghost function EntryIn(plane: PlaneState, a: KeyAddress): Option<ControlEntry> {
    if a in plane.entries then Some(plane.entries[a]) else None
  }

  predicate IsReady(e: Option<ControlEntry>) {
    e.Some? && e.value.state.Ready?
  }

  /** The entry reads exactly as before: same state, generation, rung and lifetime. */
  predicate SameEntry(e0: Option<ControlEntry>, e1: Option<ControlEntry>) {
    if e0.None? then e1.None? || (e1.value.state.Absent? && e1.value.generation == 0)
    else e1.Some? && e1.value.state == e0.value.state && Beneath(e0.value, e1.value)
  }

  /** No intent stands in the way of the key's readers. */
  predicate Unclaimed(e: Option<ControlEntry>) {
    e.Some? ==> !e.value.state.Prepared?
  }

  /** The entry was given up for `error`: its readers are told, and nobody owns it. */
  predicate Explains(e: Option<ControlEntry>, error: CacheError) {
    e.Some? && e.value.lastError == Marker(error) && !e.value.owner && e.value.intent.None?
  }

  /** Same generation, rung and lifetime, whatever the state. */
  predicate Beneath(e0: ControlEntry, e1: ControlEntry) {
    e1.generation == e0.generation && e1.tier == e0.tier && e1.ttl == e0.ttl && e1.populatedAt == e0.populatedAt
  }

  /** `e1` is `e0` with an intent prepared over it. */
  predicate PreparedOver(e0: Option<ControlEntry>, e1: Option<ControlEntry>) {
    && e1.Some? && e1.value.state.Prepared?
    && (if e0.None? then e1.value.interrupted.Absent? && e1.value.generation == 0
        else e1.value.interrupted == e0.value.state && Beneath(e0.value, e1.value))
  }

  /** What recovery finds, should it come by: a write to abort, or a move of committed data to release. */
  predicate IsIntended(e: Option<ControlEntry>, kind: IntentKind, target: TierId) {
    e.Some? && e.value.intent.Some? && e.value.intent.value.kind == kind && e.value.intent.value.target == target.Index()
  }

  ghost predicate SameBytes<V>(cells0: map<Cell, V>, cells1: map<Cell, V>, a: KeyAddress) {
    forall r: nat :: At(cells1, r, a) == At(cells0, r, a)
  }

  /** No key changed on one rung. */
  ghost predicate SameRung<V>(cells0: map<Cell, V>, cells1: map<Cell, V>, rung: nat) {
    forall b :: At(cells1, rung, b) == At(cells0, rung, b)
  }

  /** An unfinished write: unless something marred it, the key is restored; if something did, it is not readable. The authority is untouched. */
  ghost predicate Unharmed<V>(e0: Option<ControlEntry>, cells0: map<Cell, V>, e1: Option<ControlEntry>, cells1: map<Cell, V>, a: KeyAddress, marred: bool) {
    && (if marred then e1.Some? && !IsReady(e1) else SameEntry(e0, e1) && SameBytes(cells0, cells1, a))
    && At(cells1, AUTHORITY_RUNG_INDEX, a) == At(cells0, AUTHORITY_RUNG_INDEX, a)
  }

  lemma UnharmedCompose<V>(e0: Option<ControlEntry>, c0: map<Cell, V>, e1: Option<ControlEntry>, c1: map<Cell, V>,
                           e2: Option<ControlEntry>, c2: map<Cell, V>, a: KeyAddress, m1: bool, m2: bool)
    requires Unharmed(e0, c0, e1, c1, a, m1) && Unharmed(e1, c1, e2, c2, a, m2)
    ensures Unharmed(e0, c0, e2, c2, a, m1 || m2)
  {
  }

  /** A finished write: `rung` holds the value. Every other rung is as it was, or, where an earlier attempt was marred, at least the authority is. */
  ghost predicate Placed<V>(cells0: map<Cell, V>, cells1: map<Cell, V>, a: KeyAddress, rung: nat, value: V, marred: bool) {
    && At(cells1, rung, a) == Some(value)
    && (forall r: nat :: r != rung && (!marred || r == AUTHORITY_RUNG_INDEX) ==> At(cells1, r, a) == At(cells0, r, a))
  }

  lemma PlacedAfter<V>(e0: Option<ControlEntry>, c0: map<Cell, V>, e1: Option<ControlEntry>, c1: map<Cell, V>,
                       c2: map<Cell, V>, a: KeyAddress, rung: nat, value: V, m1: bool, m2: bool)
    requires Unharmed(e0, c0, e1, c1, a, m1) && Placed(c1, c2, a, rung, value, m2)
    ensures Placed(c0, c2, a, rung, value, m1 || m2)
  {
  }

  // ---------------------------------------------------------------- eviction, as one key sees it

  predicate Evictable(e: Option<ControlEntry>) {
    IsReady(e) && !e.value.owner && e.value.intent.None?
  }

  /** A committed, unclaimed entry was given up: it is stale, one generation later. */
  predicate WasEvicted(e0: Option<ControlEntry>, e1: Option<ControlEntry>) {
    Evictable(e0) && e1 == Some(e0.value.(state := Stale, generation := e0.value.generation + 1))
  }

  /** One nomination: the rung asked, the victim it named, whether the control plane gave the victim up, and whether the rung then removed it. */
  datatype Ask = Ask(rung: nat, victim: Option<KeyAddress>, reserved: bool, removed: bool) {
    /** A slot is free. */
    predicate Frees() {
      reserved && removed
    }

    /** The victim was not given up, so the rung is asked again. */
    predicate IsRefused() {
      victim.Some? && !reserved
    }

    /** The rung is not asked again, and freed nothing: it named nobody, or did not remove the victim. */
    predicate EndsRung() {
      !IsRefused() && !Frees()
    }
  }

  predicate FreedBy(asks: seq<Ask>) {
    asks != [] && asks[|asks| - 1].Frees()
  }

  function AskFor<V>(entries: Plane, v: Nominee<V>, rung: nat): Ask {
    var reserved := v.address.Some? && v.address.value in entries && Evictable(Some(entries[v.address.value]));
    Ask(rung, v.address, reserved, v.removed)
  }

  function GivenUp(entries: Plane, b: KeyAddress): Plane
    requires b in entries
  {
    entries[b := entries[b].(state := Stale, generation := entries[b].generation + 1)]
  }

  function AfterAsk(entries: Plane, ask: Ask): Plane {
    if ask.reserved && ask.victim.Some? && ask.victim.value in entries then GivenUp(entries, ask.victim.value) else entries
  }

  /** The nominations a reclaim makes from `rung` up to but not including `top`, with `left` to go: a refused victim has the rung asked again, anything else but success moves on to the next. */
  function ScanFrom<V>(entries: Plane, nominee: nat -> Nominee<V>, n: nat, rung: nat, top: nat, left: nat): seq<Ask>
    decreases left, n
  {
    if rung >= top || left == 0 then []
    else
      var ask := AskFor(entries, nominee(n), rung);
      if ask.Frees() then [ask]
      else [ask] + ScanFrom(AfterAsk(entries, ask), nominee, n + 1, if ask.IsRefused() then rung else rung + 1, top, left - 1)
  }

  /** At most one of the key's cache rungs changed. */
  ghost predicate OneCellAtMost<V>(cells0: map<Cell, V>, cells1: map<Cell, V>, b: KeyAddress) {
    exists v: nat :: v <= LAST_CACHE_RUNG_INDEX && SameBytesBut(cells0, cells1, b, v)
  }

  ghost predicate SameBytesBut<V>(cells0: map<Cell, V>, cells1: map<Cell, V>, b: KeyAddress, v: nat) {
    forall r: nat :: r != v ==> At(cells1, r, b) == At(cells0, r, b)
  }

  /** A key the task did not write: exactly as it was, or evicted. */
  ghost predicate Spared<V>(e0: Option<ControlEntry>, cells0: map<Cell, V>, e1: Option<ControlEntry>, cells1: map<Cell, V>, b: KeyAddress) {
    if e1 == e0 then SameBytes(cells0, cells1, b) else WasEvicted(e0, e1) && OneCellAtMost(cells0, cells1, b)
  }

  ghost predicate AllSpared<V>(p0: PlaneState, c0: map<Cell, V>, p1: PlaneState, c1: map<Cell, V>) {
    forall b {:trigger Spared(EntryIn(p0, b), c0, EntryIn(p1, b), c1, b)} :: Spared(EntryIn(p0, b), c0, EntryIn(p1, b), c1, b)
  }

  lemma AllSparedCompose<V>(p0: PlaneState, c0: map<Cell, V>, p1: PlaneState, c1: map<Cell, V>, p2: PlaneState, c2: map<Cell, V>)
    requires AllSpared(p0, c0, p1, c1) && AllSpared(p1, c1, p2, c2)
    ensures AllSpared(p0, c0, p2, c2)
  {
    forall b ensures Spared(EntryIn(p0, b), c0, EntryIn(p2, b), c2, b) {
      assert Spared(EntryIn(p0, b), c0, EntryIn(p1, b), c1, b) && Spared(EntryIn(p1, b), c1, EntryIn(p2, b), c2, b);
      SparedCompose(EntryIn(p0, b), c0, EntryIn(p1, b), c1, EntryIn(p2, b), c2, b);
    }
  }

  /** Giving up one key spares all others. */
  lemma ReservationSpares<V>(p0: PlaneState, c0: map<Cell, V>, c1: map<Cell, V>, v: KeyAddress, rung: nat)
    requires v in p0.entries && Evictable(Some(p0.entries[v])) && rung <= LAST_CACHE_RUNG_INDEX
    requires SameBytesBut(c0, c1, v, rung) && forall b :: b != v ==> SameBytes(c0, c1, b)
    ensures AllSpared(p0, c0, p0.(entries := GivenUp(p0.entries, v)), c1)
  {
  }

  lemma NothingSpared<V>(p: PlaneState, c: map<Cell, V>)
    ensures AllSpared(p, c, p, c)
  {
  }

  /** No key is evicted twice. */
  lemma SparedCompose<V>(e0: Option<ControlEntry>, c0: map<Cell, V>, e1: Option<ControlEntry>, c1: map<Cell, V>,
                         e2: Option<ControlEntry>, c2: map<Cell, V>, b: KeyAddress)
    requires Spared(e0, c0, e1, c1, b) && Spared(e1, c1, e2, c2, b)
    ensures Spared(e0, c0, e2, c2, b)
  {
    if e2 != e0 && e1 == e0 {
      var v: nat :| v <= LAST_CACHE_RUNG_INDEX && SameBytesBut(c1, c2, b, v);
      assert SameBytesBut(c0, c2, b, v);
    } else if e2 != e0 {
      var v: nat :| v <= LAST_CACHE_RUNG_INDEX && SameBytesBut(c0, c1, b, v);
      assert SameBytesBut(c0, c2, b, v);
    }
  }

  lemma SparedIsUnharmed<V>(e0: Option<ControlEntry>, c0: map<Cell, V>, e1: Option<ControlEntry>, c1: map<Cell, V>, a: KeyAddress)
    requires Spared(e0, c0, e1, c1, a)
    ensures Unharmed(e0, c0, e1, c1, a, e1 != e0)
  {
  }

  // ---------------------------------------------------------------- the rungs a task writes

  /** From position `from` on, the rungs written lie below `top`, never go up, and go strictly down within any `MAX_COMMIT_ATTEMPTS` steps. */
  ghost predicate Descends(log: seq<Written>, from: nat, top: nat) {
    forall i: nat, j: nat {:trigger IsBelow(log, i, j, top)} :: from <= i <= j < |log| ==> IsBelow(log, i, j, top)
  }

  predicate IsBelow(log: seq<Written>, i: nat, j: nat, top: nat)
    requires i <= j < |log|
  {
    log[j].rung <= log[i].rung < top && (i + MAX_COMMIT_ATTEMPTS <= j ==> log[j].rung < log[i].rung)
  }

  /** What an attempt reports is what the rung answered to its write. */
  predicate Tells(res: Attempt, w: Written) {
    && (res.Committed? || res.LostRace? <==> w.answer.None?)
    && (res.Declined? ==> w.answer == Some(res.error))
  }

  /** An error that ends a walk: one no lower rung could help with, being the last write's answer, the want of a slot, or the race budget. */
  predicate EndsWalk(error: CacheError, log: seq<Written>, from: nat) {
    !IsRungLevel(error) && (error.ConfigurationError? || (error.WriteContended? && LostEveryRace(log, from)) || LastAnswer(log, from, Some(error)))
  }

  /** Where the error of a failed write comes from: a denied rung, the want of a control slot, the race budget, no bound rung, or the last write's answer. */
  predicate ErrorSource(error: CacheError, chosen: TierId, log: seq<Written>, from: nat) {
    || (error.PolicyDenied? && chosen.IsAuthorityRung()) || error.ConfigurationError? || (error.WriteContended? && LostEveryRace(log, from))
    || (error.TierUnavailable? && |log| == from) || LastAnswer(log, from, Some(error))
  }

  /** How many nominations from position `from` on freed a slot. */
  function FreeCount(asked: seq<Ask>, from: nat): nat
    decreases |asked|
  {
    if |asked| <= from then 0
    else FreeCount(asked[..|asked| - 1], from) + if asked[|asked| - 1].Frees() then 1 else 0
  }

  /** A write that ends for want of room has asked for victims, and either the last reclaim freed nothing or each of the seventeen passes freed a slot. */
  predicate GaveUp(asked: seq<Ask>, from: nat) {
    from < |asked| && (asked[|asked| - 1].Frees() ==> FreeCount(asked, from) == 17)
  }

  lemma {:induction false} FreeCountGrows(before: seq<Ask>, after: seq<Ask>, from: nat)
    requires from <= |before| && before <= after && forall i :: |before| <= i < |after| - 1 ==> !after[i].Frees()
    ensures FreeCount(after, from) == FreeCount(before, from) + if |after| > |before| && after[|after| - 1].Frees() then 1 else 0
  {
    if |after| > |before| {
      FreeCountGrows(before, after[..|after| - 1], from);
    } else {
      assert before == after;
    }
  }

  /** No write from position `from` on was accepted. */
  predicate NoneAccepted(log: seq<Written>, from: nat) {
    forall i: nat {:trigger IsFailure(log, i)} :: from <= i < |log| ==> IsFailure(log, i)
  }

  predicate IsFailure(log: seq<Written>, i: nat)
    requires i < |log|
  {
    log[i].answer.Some?
  }

  lemma StillNoneAccepted(before: seq<Written>, after: seq<Written>, from: nat)
    requires from <= |before| && before <= after && NoneAccepted(before, from) && NoneAccepted(after, |before|)
    ensures NoneAccepted(after, from)
  {
    forall i: nat | from <= i < |after| ensures IsFailure(after, i) {
      assert i < |before| ==> IsFailure(before, i) && after[i] == before[i];
    }
  }

  /** Every rung written from position `from` on lies between `low` and `high`. */
  predicate RungsWithin(log: seq<Written>, from: nat, low: nat, high: nat) {
    forall i: nat {:trigger IsWithin(log, i, low, high)} :: from <= i < |log| ==> IsWithin(log, i, low, high)
  }

  predicate IsWithin(log: seq<Written>, i: nat, low: nat, high: nat)
    requires i < |log|
  {
    low <= log[i].rung <= high
  }

  lemma StillWithin(before: seq<Written>, after: seq<Written>, from: nat, low: nat, high: nat)
    requires from <= |before| && before <= after && RungsWithin(before, from, low, high) && RungsWithin(after, |before|, low, high)
    ensures RungsWithin(after, from, low, high)
  {
    forall i: nat | from <= i < |after| ensures IsWithin(after, i, low, high) {
      assert i < |before| ==> IsWithin(before, i, low, high) && after[i] == before[i];
    }
  }

  /** Every write from position `from` on was accepted. */
  predicate AllAccepted(log: seq<Written>, from: nat) {
    forall i: nat {:trigger IsAcceptance(log, i)} :: from <= i < |log| ==> IsAcceptance(log, i)
  }

  predicate IsAcceptance(log: seq<Written>, i: nat)
    requires i < |log|
  {
    log[i].answer.None?
  }

  /** The race budget is spent: since position `from` there were 64 writes, accepted to the last, with no commit. */
  predicate LostEveryRace(log: seq<Written>, from: nat) {
    from + 64 <= |log| && AllAccepted(log, |log| - 64)
  }

  /** One more write on a rung, after writes that were all accepted there. */
  lemma OneMoreWrite(before: seq<Written>, after: seq<Written>, from: nat, rung: nat)
    requires from <= |before| && before <= after && |after| <= |before| + 1
    requires AllAccepted(before, from) && RungsWithin(before, from, rung, rung)
    requires |after| > |before| ==> after[|before|].rung == rung
    ensures RungsWithin(after, from, rung, rung)
    ensures |after| > |before| && after[|before|].answer.None? ==> AllAccepted(after, from)
  {
    forall i: nat | from <= i < |after| ensures IsWithin(after, i, rung, rung) {
      assert i < |before| ==> IsWithin(before, i, rung, rung) && after[i] == before[i];
    }
    if |after| > |before| && after[|before|].answer.None? {
      forall i: nat | from <= i < |after| ensures IsAcceptance(after, i) {
        assert i < |before| ==> IsAcceptance(before, i) && after[i] == before[i];
      }
    }
  }

  /** The last write from position `from` on was answered `answer`. */
  predicate LastAnswer(log: seq<Written>, from: nat, answer: Option<CacheError>) {
    from < |log| && log[|log| - 1].answer == answer
  }

  /** Another rung's attempts, below all the earlier ones, keep the descent. */
  lemma DescendsFurther(before: seq<Written>, after: seq<Written>, from: nat, top: nat, rung: nat)
    requires from <= |before| <= |after| <= |before| + MAX_COMMIT_ATTEMPTS && before <= after && rung < top
    requires Descends(before, from, top)
    requires RungsWithin(before, from, rung + 1, top) && RungsWithin(after, |before|, rung, rung)
    ensures Descends(after, from, top) && RungsWithin(after, from, rung, top)
  {
    assert forall i :: 0 <= i < |before| ==> after[i] == before[i];
    forall i: nat | from <= i < |after| ensures IsWithin(after, i, rung, top) {
      assert if i < |before| then IsWithin(before, i, rung + 1, top) else IsWithin(after, i, rung, rung);
    }
    forall i: nat, j: nat | from <= i <= j < |after| ensures IsBelow(after, i, j, top) {
      assert j < |before| ==> IsBelow(before, i, j, top);
      assert i < |before| ==> IsBelow(before, i, i, top) && IsWithin(before, i, rung + 1, top);
      assert j < |before| || IsWithin(after, j, rung, rung);
      assert i < |before| || IsWithin(after, i, rung, rung);
    }
  }

  datatype Attempt = Committed | LostRace | Declined(error: CacheError) | Dropped | Stopped(error: CacheError)

  datatype Outcome = Success | Failure(error: CacheError) | Abandoned {
    /** What readers are told of a task that did not succeed. */
    function Reason(): CacheError
      requires !Success?
    {
      if Failure? then error else CacheError.Cancelled
    }
  }

  const MAX_COMMIT_ATTEMPTS: nat := 64

  const MAX_EVICTION_PASSES: nat := 16

  const MAX_EVICTION_ATTEMPTS: nat := 8

  /** What a walk down the ladder comes to: a rung that takes the value, an end before the last rung, or the end of the ladder after `n` awaits. */
  datatype Fate = Lands(rung: nat) | Ends(outcome: Outcome) | RunsOut(n: nat)

  /** A walk's outcome, and the entry it leaves, are those of its fate. */
  predicate Follows(fate: Fate, r: Option<Outcome>, e: Option<ControlEntry>) {
    match fate
    case Lands(rung) => r == Some(Success) && e.Some? && e.value.tier.Index() == rung
    case Ends(outcome) => r == Some(outcome)
    case RunsOut(_) => r.None?
  }

  /** The key had a control slot, or could be given one. */
  predicate HasSlot(e: Option<ControlEntry>, r: Option<Outcome>) {
    e.Some? || r != Some(Failure(ConfigurationError))
  }

  /** Where the first walk does not run out, the write ends as it does. */
  predicate IsForetold(fate: Fate, r: Outcome, e: Option<ControlEntry>) {
    fate.RunsOut? || Follows(fate, Some(r), e)
  }

  /** The errors a lower rung may not share: all but those of a caller, a contract, or a race. */
  predicate IsRungLevel(e: CacheError)
    ensures !IsRungLevel(e) <==>
              || e.Unauthenticated? || e.Unauthorized? || e.PolicyDenied? || e.Miss? || e.PopulationFailed?
              || e.Cancelled? || e.StaleGeneration? || e.WriteContended? || e.ConfigurationError? || e.UncommittedIntent?
  {
    e.CapacityExhausted? || e.TierUnavailable? || e.Timeout? || e.Corrupted? || e.SerializationFailed? || e.WriteIndeterminate?
  }

  /** The attempt left the rung's content in doubt, so the entry was failed rather than restored. */
  predicate Mars(res: Attempt) {
    res.Dropped? || (res.Declined? && !ProvablyStoredNothing(res.error))
  }

  class CacheManager<V> {
    /** The control plane, as the plain map `Table.Cachelito` is shown to be. */
    var plane: PlaneState
    /** How many rungs are bound, from L0 up. */
    const bound: nat
    const world: nat -> Await<V>
    const nominee: nat -> Nominee<V>
    var cells: map<Cell, V>
    var awaits: nat
    var nominations: nat
    /** The data writes this task has made, in order. */
    ghost var log: seq<Written>
    /** The eviction victims it has asked for, in order. */
    ghost var asked: seq<Ask>

    constructor (bound: nat, world: nat -> Await<V>, nominee: nat -> Nominee<V>)
      ensures plane == PlaneState(map[], 0) && cells == map[] && log == [] && asked == [] && this.bound == bound
    {
      this.bound, this.world, this.nominee := bound, world, nominee;
      plane, cells, awaits, nominations := PlaneState(map[], 0), map[], 0, 0;
      log, asked := [], [];
    }

    /** At no await does another task's call take effect on `a`, or another task change what a rung holds for it. */
    ghost predicate Undisturbed(a: KeyAddress) {
      forall n {:trigger SparesAt(n, a)} :: SparesAt(n, a)
    }

    predicate SparesAt(n: nat, a: KeyAddress) {
      world(n).before.Spares(a) && world(n).after.Spares(a)
    }

    /** No other task writes the authority rung. */
    ghost predicate AuthorityQuiet() {
      forall n {:trigger SparesAuthorityAt(n)} :: SparesAuthorityAt(n)
    }

    predicate SparesAuthorityAt(n: nat) {
      world(n).before.SparesRung(AUTHORITY_RUNG_INDEX) && world(n).after.SparesRung(AUTHORITY_RUNG_INDEX)
    }

    /** No await leaves a rung's content in doubt or drops the task. */
    ghost predicate AllPlain() {
      forall n :: world(n).IsPlain()
    }

    /** How an undisturbed move ends if its source is read at await `n` and holds `source`. */
    ghost function MoveFate(n: nat, source: Option<V>): Outcome {
      if world(n).cancelled then Abandoned
      else if world(n).error.Some? then Failure(world(n).error.value)
      else if !world(n).landed || source.None? then Failure(Miss)
      else DeliveryFate(n + 1)
    }

    /** And if its destination is written at await `n`: the next await clears the source. */
    ghost function DeliveryFate(n: nat): Outcome {
      if world(n).cancelled || (world(n).error.None? && world(n + 1).cancelled) then Abandoned
      else if world(n).error.Some? then Failure(world(n).error.value)
      else Success
    }

    /** What an undisturbed move leaves on the rungs: nothing is written unless the source was read. */
    ghost predicate Carried(n: nat, cells0: map<Cell, V>, cells1: map<Cell, V>, a: KeyAddress, from: nat, to: nat) {
      var source := At(cells0, from, a);
      if world(n).IsAccepted() && world(n).landed && source.Some? then Delivered(n + 1, cells0, cells1, a, from, to, source.value)
      else SameBytes(cells0, cells1, a)
    }

    /** The destination is written at await `n`. The source is cleared if that was accepted, and else kept; no other rung changes. */
    ghost predicate Delivered(n: nat, cells0: map<Cell, V>, cells1: map<Cell, V>, a: KeyAddress, from: nat, to: nat, value: V) {
      && At(cells1, to, a) == AfterWrite(At(cells0, to, a), value, world(n).Answer(), world(n).landed)
      && At(cells1, from, a) == (if world(n).IsAccepted() then world(n + 1).leftover else At(cells0, from, a))
      && forall r: nat :: r != from && r != to ==> At(cells1, r, a) == At(cells0, r, a)
    }

    /** At await `n` the cell was cleared; only another task's change at that await can have filled it again. */
    ghost predicate TakenBack(n: nat, cells1: map<Cell, V>, cell: Cell) {
      cell !in world(n).after.moved ==> At(cells1, cell.rung, cell.address) == world(n).leftover
    }

    /** No rung ever nominates `a` for eviction. */
    ghost predicate NeverNominated(a: KeyAddress) {
      forall n {:trigger IsNominee(n, a)} :: !IsNominee(n, a)
    }

    predicate IsNominee(n: nat, a: KeyAddress) {
      nominee(n).address == Some(a)
    }

    predicate IsBound(rung: TierId) {
      rung.Index() < bound
    }

    /** Between the two states this task changed nothing but `a`: neither another key nor the authority rung. */
    ghost predicate Framed(plane0: PlaneState, cells0: map<Cell, V>, plane1: PlaneState, cells1: map<Cell, V>, a: KeyAddress) {
      && (AuthorityQuiet() ==> SameRung(cells0, cells1, AUTHORITY_RUNG_INDEX))
      && (forall b {:trigger KeptIfQuiet(plane0, cells0, plane1, cells1, b)} :: b != a ==> KeptIfQuiet(plane0, cells0, plane1, cells1, b))
    }

    ghost predicate KeptIfQuiet(plane0: PlaneState, cells0: map<Cell, V>, plane1: PlaneState, cells1: map<Cell, V>, b: KeyAddress) {
      Undisturbed(b) ==> EntryIn(plane1, b) == EntryIn(plane0, b) && SameBytes(cells0, cells1, b)
    }

    lemma CallIsFramed(p0: PlaneState, p1: PlaneState, c: map<Cell, V>, a: KeyAddress)
      requires forall b :: b != a ==> EntryIn(p1, b) == EntryIn(p0, b)
      ensures Framed(p0, c, p1, c, a)
    {
    }

    lemma PutIsFramed(p: PlaneState, c: map<Cell, V>, cell: Cell, v: Option<V>)
      requires cell.rung <= LAST_CACHE_RUNG_INDEX
      ensures Framed(p, c, p, Put(c, cell, v), cell.address)
    {
    }

    lemma FramedTwice(p0: PlaneState, c0: map<Cell, V>, p1: PlaneState, c1: map<Cell, V>, p2: PlaneState, c2: map<Cell, V>, a: KeyAddress)
      requires Framed(p0, c0, p1, c1, a) && Framed(p1, c1, p2, c2, a)
      ensures Framed(p0, c0, p2, c2, a)
    {
      forall b | b != a ensures KeptIfQuiet(p0, c0, p2, c2, b) {
        assert KeptIfQuiet(p0, c0, p1, c1, b) && KeptIfQuiet(p1, c1, p2, c2, b);
      }
    }

    /** A move between two cache rungs keeps to its key. */
    lemma MovesFramed(from: TierId, to: TierId, p0: PlaneState, c0: map<Cell, V>, p1: PlaneState, c1: map<Cell, V>, p2: PlaneState, c2: map<Cell, V>, a: KeyAddress)
      requires from.IsCacheRung() && to.IsCacheRung() ==> Framed(p0, c0, p1, c1, a) && Framed(p1, c1, p2, c2, a)
      ensures from.IsCacheRung() && to.IsCacheRung() ==> Framed(p0, c0, p2, c2, a)
    {
      if from.IsCacheRung() && to.IsCacheRung() {
        FramedTwice(p0, c0, p1, c1, p2, c2, a);
      }
    }

    /** The same, but for keys it evicted. */
    ghost predicate FramedBarEviction(plane0: PlaneState, cells0: map<Cell, V>, plane1: PlaneState, cells1: map<Cell, V>, a: KeyAddress) {
      && (AuthorityQuiet() ==> SameRung(cells0, cells1, AUTHORITY_RUNG_INDEX))
      && (forall b {:trigger SparedIfQuiet(plane0, cells0, plane1, cells1, b)} :: b != a ==> SparedIfQuiet(plane0, cells0, plane1, cells1, b))
    }

    ghost predicate SparedIfQuiet(plane0: PlaneState, cells0: map<Cell, V>, plane1: PlaneState, cells1: map<Cell, V>, b: KeyAddress) {
      Undisturbed(b) ==> Spared(EntryIn(plane0, b), cells0, EntryIn(plane1, b), cells1, b)
    }

    lemma FramedIsBarEviction(p0: PlaneState, c0: map<Cell, V>, p1: PlaneState, c1: map<Cell, V>, a: KeyAddress)
      requires Framed(p0, c0, p1, c1, a)
      ensures FramedBarEviction(p0, c0, p1, c1, a)
    {
      forall b | b != a ensures SparedIfQuiet(p0, c0, p1, c1, b) {
        assert KeptIfQuiet(p0, c0, p1, c1, b);
      }
    }

    lemma FramedCompose(p0: PlaneState, c0: map<Cell, V>, p1: PlaneState, c1: map<Cell, V>, p2: PlaneState, c2: map<Cell, V>, a: KeyAddress)
      requires FramedBarEviction(p0, c0, p1, c1, a) && FramedBarEviction(p1, c1, p2, c2, a)
      ensures FramedBarEviction(p0, c0, p2, c2, a)
    {
      forall b | b != a ensures SparedIfQuiet(p0, c0, p2, c2, b) {
        assert SparedIfQuiet(p0, c0, p1, c1, b) && SparedIfQuiet(p1, c1, p2, c2, b);
        if Undisturbed(b) {
          SparedCompose(EntryIn(p0, b), c0, EntryIn(p1, b), c1, EntryIn(p2, b), c2, b);
        }
      }
    }

    lemma SparingIsFramed(p0: PlaneState, c0: map<Cell, V>, p1: PlaneState, c1: map<Cell, V>, a: KeyAddress)
      requires AllSpared(p0, c0, p1, c1)
      ensures FramedBarEviction(p0, c0, p1, c1, a)
    {
      forall b ensures At(c1, AUTHORITY_RUNG_INDEX, b) == At(c0, AUTHORITY_RUNG_INDEX, b) {
        assert Spared(EntryIn(p0, b), c0, EntryIn(p1, b), c1, b);
      }
    }

    /** After `n` awaits the entry names `rung`, unclaimed and without error, with the TTL armed at the last of them. */
    ghost predicate CommittedAt(e: Option<ControlEntry>, n: nat, rung: TierId, ttl: nat) {
      && IsReady(e) && n > 0
      && e.value.tier == rung && e.value.ttl == ttl && e.value.populatedAt == world(n - 1).now
      && !e.value.owner && e.value.intent.None? && e.value.lastError.None?
    }

    /**
     A successful write left the entry committed and, unless another task changed that cell at the last
     await, its rung holding the value. One that was dropped, or ended on an error no lower rung could help
     with, left no intent behind.
     */
    ghost predicate Concludes(r: Outcome, e: Option<ControlEntry>, cells1: map<Cell, V>, n: nat, a: KeyAddress, value: V, ttl: nat) {
      if r.Success? then e.Some? && HoldsAt(e, cells1, n, a, e.value.tier, value, ttl)
      else (r.Failure? && IsRungLevel(r.error)) || Unclaimed(e)
    }

    ghost predicate HoldsAt(e: Option<ControlEntry>, cells1: map<Cell, V>, n: nat, a: KeyAddress, rung: TierId, value: V, ttl: nat) {
      && CommittedAt(e, n, rung, ttl)
      && (Cell(rung.Index(), a) !in world(n - 1).after.moved ==> At(cells1, rung.Index(), a) == Some(value))
    }

    /**
     What an undisturbed attempt begun at await `n` comes to and what it leaves on the rung, by what the
     rung answers. An indeterminate write is cleared, at a second await. Readers are told why it failed.
     */
    ghost predicate Answers(n: nat, before: Option<V>, value: V, res: Attempt, awaited: nat, left: Option<V>, e: Option<ControlEntry>) {
      var w := world(n);
      && (res.Committed? || Explains(e, if res.Declined? then res.error else CacheError.Cancelled))
      && if !w.cancelled && w.error == Some(WriteIndeterminate) then
           && left == world(n + 1).leftover && awaited == n + 2
           && res == if world(n + 1).cancelled then Dropped else Declined(WriteIndeterminate)
         else
           && left == AfterWrite(before, value, w.Answer(), w.landed) && awaited == n + 1
           && res == if w.cancelled then Dropped else if w.error.None? then Committed else Declined(w.error.value)
    }

    /** Where a walk that has `left` rungs left to try ends up, if nobody disturbs it from await `n` on. Six errors send it down; every other one ends it. */
    ghost function Descent(n: nat, left: nat): Fate
      decreases left
    {
      if left == 0 then RunsOut(n)
      else if left > bound then Descent(n, left - 1)
      else if world(n).cancelled then Ends(Abandoned)
      else match world(n).error
        case None => Lands(left - 1)
        case Some(CapacityExhausted) => Descent(n + 1, left - 1)
        case Some(TierUnavailable) => Descent(n + 1, left - 1)
        case Some(Timeout) => Descent(n + 1, left - 1)
        case Some(Corrupted) => Descent(n + 1, left - 1)
        case Some(SerializationFailed) => Descent(n + 1, left - 1)
        case Some(WriteIndeterminate) => if world(n + 1).cancelled then Ends(Abandoned) else Descent(n + 2, left - 1)
        case Some(e) => Ends(Failure(e))
    }

    /** From await `n` on, rungs refuse in turn with these errors, and the task outlives the clearing after each indeterminate one. */
    ghost predicate RefusedInTurn(n: nat, errors: seq<CacheError>)
      decreases |errors|
    {
      errors == [] || (
        && !world(n).cancelled && world(n).error == Some(errors[0])
        && (errors[0].WriteIndeterminate? ==> !world(n + 1).cancelled)
        && RefusedInTurn(AfterRefusal(n, errors[0]), errors[1..]))
    }

    function AfterRefusal(n: nat, error: CacheError): nat {
      if error.WriteIndeterminate? then n + 2 else n + 1
    }

    /** The await at which the next rung is written. */
    ghost function AfterRefusals(n: nat, errors: seq<CacheError>): nat
      decreases |errors|
    {
      if errors == [] then n else AfterRefusals(AfterRefusal(n, errors[0]), errors[1..])
    }

    /** Whatever mix of the six errors the bound rungs above it refuse with, the first rung to accept takes the value. */
    lemma {:induction false} FirstToAcceptTakesIt(n: nat, left: nat, errors: seq<CacheError>)
      requires |errors| < left <= bound && RefusedInTurn(n, errors) && world(AfterRefusals(n, errors)).IsAccepted()
      requires forall e :: e in errors ==>
                 e in [CapacityExhausted, TierUnavailable, Timeout, Corrupted, SerializationFailed, WriteIndeterminate]
      ensures Descent(n, left) == Lands(left - 1 - |errors|)
      decreases |errors|
    {
      if errors != [] {
        assert errors[0] in errors;
        FirstToAcceptTakesIt(AfterRefusal(n, errors[0]), left - 1, errors[1..]);
      }
    }

    /** A walk ends on a rung's error before the last rung only if it is none of the six; and if it lands, it was on a bound rung that accepted. */
    lemma {:induction false} DescentEndsForAReason(n: nat, left: nat)
      ensures Descent(n, left).Ends? ==> Descent(n, left).outcome.Abandoned? || Descent(n, left).outcome.Failure?
      ensures forall e :: Descent(n, left) == Ends(Failure(e)) ==>
                e !in [CapacityExhausted, TierUnavailable, Timeout, Corrupted, SerializationFailed, WriteIndeterminate]
      ensures Descent(n, left).Lands? ==> Descent(n, left).rung < Min(left, bound)
      decreases left
    {
      if left > 0 {
        DescentEndsForAReason(n, left - 1);
        DescentEndsForAReason(n + 1, left - 1);
        DescentEndsForAReason(n + 2, left - 1);
      }
    }

    /** One step of a descent, with `left` rungs to try: it goes on from await `awaited`, or ends as foretold. */
    ghost predicate Steps(n: nat, left: nat, r: Option<Outcome>, e: Option<ControlEntry>, awaited: nat)
      requires left > 0
    {
      if r.None? then Descent(n, left) == Descent(awaited, left - 1) else Follows(Descent(n, left), r, e)
    }

    /** One control-plane call, as one key sees it. */
    method Call(a: KeyAddress, op: Op, now: nat) returns (reply: Reply)
      modifies this`plane
      ensures forall b :: b != a ==> EntryIn(plane, b) == EntryIn(old(plane), b)
      ensures EntryIn(old(plane), a).Some? ==>
                EntryIn(plane, a) == Some(Effect(EntryIn(old(plane), a).value, op, now))
                && reply == ReplyTo(EntryIn(old(plane), a).value, op, now)
      ensures EntryIn(old(plane), a).None? && !Creates(op) ==> EntryIn(plane, a).None? && reply == MissingReply(op, old(plane.nextChannel))
      ensures EntryIn(old(plane), a).None? && Creates(op) ==>
                var e := NewEntry(a, old(plane.nextChannel));
                || (EntryIn(plane, a) == Some(Effect(e, op, now)) && reply == ReplyTo(e, op, now))
                || (EntryIn(plane, a).None? && reply == Refused(ConfigurationError))
    {
      var room: bool := *;
      var step := PlaneStep(plane, a, op, now, room);
      plane, reply := step.0, step.1;
    }

    /** Other tasks run. */
    method RunOthers(o: Others<V>)
      modifies this`plane, this`cells
      ensures plane == Replay(old(plane), o.calls, o.disturbed) && cells == Moved(old(cells), o.moved)
      ensures forall b :: o.Spares(b) ==> EntryIn(plane, b) == EntryIn(old(plane), b) && SameBytes(old(cells), cells, b)
      ensures forall rung: nat :: o.SparesRung(rung) ==> SameRung(old(cells), cells, rung)
    {
      for i := 0 to |o.calls|
        invariant cells == old(cells) && plane == Replay(old(plane), o.calls[..i], o.disturbed)
      {
        var c := o.calls[i];
        assert o.calls[..i + 1][..i] == o.calls[..i];
        if c.address in o.disturbed || !TakesEffect(plane, c) {
          var step := PlaneStep(plane, c.address, c.op, c.now, c.room);
          plane := step.0;
        }
      }
      assert o.calls[..|o.calls|] == o.calls;
      cells := Moved(cells, o.moved);
      forall b | o.Spares(b) ensures EntryIn(plane, b) == EntryIn(old(plane), b) && SameBytes(old(cells), cells, b) {
        ReplaySpares(old(plane), o.calls, o.disturbed, b);
        assert forall r: nat :: Cell(r, b) !in o.moved;
      }
      forall rung: nat | o.SparesRung(rung) ensures SameRung(old(cells), cells, rung) {
        assert forall b :: Cell(rung, b) !in o.moved;
      }
    }

    /** The task waits, and other tasks run before the rung acts. */
    method Wait() returns (w: Await<V>)
      modifies this`plane, this`cells, this`awaits
      ensures w == world(old(awaits)) && awaits == old(awaits) + 1
      ensures plane == Replay(old(plane), w.before.calls, w.before.disturbed) && cells == Moved(old(cells), w.before.moved)
      ensures forall a :: Framed(old(plane), old(cells), plane, cells, a)
      ensures forall b {:trigger Undisturbed(b)} :: Undisturbed(b) ==> EntryIn(plane, b) == EntryIn(old(plane), b) && SameBytes(old(cells), cells, b)
    {
      w := world(awaits);
      awaits := awaits + 1;
      assert forall b :: Undisturbed(b) ==> SparesAt(old(awaits), b);
      assert AuthorityQuiet() ==> SparesAuthorityAt(old(awaits));
      RunOthers(w.before);
    }

    /** The rung has acted, and other tasks run before the task goes on. */
    method Resume()
      requires awaits > 0
      modifies this`plane, this`cells
      ensures var after := world(awaits - 1).after;
              plane == Replay(old(plane), after.calls, after.disturbed) && cells == Moved(old(cells), after.moved)
      ensures forall a :: Framed(old(plane), old(cells), plane, cells, a)
      ensures forall b {:trigger Undisturbed(b)} :: Undisturbed(b) ==> EntryIn(plane, b) == EntryIn(old(plane), b) && SameBytes(old(cells), cells, b)
    {
      assert forall b :: Undisturbed(b) ==> SparesAt(awaits - 1, b);
      assert AuthorityQuiet() ==> SparesAuthorityAt(awaits - 1);
      RunOthers(world(awaits - 1).after);
    }

    /** Record an intent on `a`. It fails only when no slot can be made for a new key. */
    method Begin(a: KeyAddress, target: TierId, kind: IntentKind) returns (r: Result<CommitToken>)
      modifies this`plane
      ensures Framed(old(plane), cells, plane, cells, a)
      ensures r.Ok? ==> PreparedOver(EntryIn(old(plane), a), EntryIn(plane, a))
                        && r.value.generation == EntryIn(plane, a).value.generation && r.value.target == target.Index()
                        && IsIntended(EntryIn(plane, a), kind, target)
      ensures r.Err? ==> r.error.ConfigurationError? && EntryIn(old(plane), a).None? && EntryIn(plane, a).None?
    {
      var reply := Call(a, Prepare(None, target, kind), world(awaits).now);
      CallIsFramed(old(plane), plane, cells, a);
      r := if reply.Issued? then Ok(reply.token) else Err(ConfigurationError);
    }

    /** Present a token. It wins exactly on an entry still prepared at its generation, which then names its rung and arms the TTL; a refused token changes nothing. */
    method Commit(a: KeyAddress, token: CommitToken, rung: TierId, ttl: nat) returns (won: bool)
      requires token.target == rung.Index() && awaits > 0
      modifies this`plane
      ensures Framed(old(plane), cells, plane, cells, a)
      ensures var e := EntryIn(old(plane), a);
              won <==> e.Some? && e.value.state.Prepared? && e.value.generation == token.generation
      ensures if won then CommittedAt(EntryIn(plane, a), awaits, rung, ttl) else EntryIn(plane, a) == EntryIn(old(plane), a)
    {
      var reply := Call(a, Op.Commit(token.generation, token.target, ttl), world(awaits - 1).now);
      CallIsFramed(old(plane), plane, cells, a);
      won := reply.Done?;
    }

    /** Abandon an intent: restore what it interrupted when the rung provably stored nothing, else fail the entry. */
    method Resolve(a: KeyAddress, error: CacheError, provenClean: bool, now: nat, ghost e0: Option<ControlEntry>)
      modifies this`plane
      ensures Framed(old(plane), cells, plane, cells, a)
      ensures PreparedOver(e0, EntryIn(old(plane), a)) ==>
                if provenClean then SameEntry(e0, EntryIn(plane, a)) else EntryIn(plane, a).Some? && EntryIn(plane, a).value.state.Failed?
      ensures !provenClean ==> Unclaimed(EntryIn(plane, a))
      ensures EntryIn(old(plane), a).Some? && EntryIn(old(plane), a).value.state.Prepared? ==> Explains(EntryIn(plane, a), error)
    {
      var _ := Call(a, Abort(error, provenClean), now);
      CallIsFramed(old(plane), plane, cells, a);
    }

    /** Ask a rung to store a value, under its write contract. */
    method WriteCell(cell: Cell, value: V) returns (w: Await<V>)
      modifies this`plane, this`cells, this`awaits, this`log
      ensures w == world(old(awaits)) && awaits == old(awaits) + 1 && log == old(log) + [Written(cell.rung, w.Answer())]
      ensures cell.rung <= LAST_CACHE_RUNG_INDEX ==> Framed(old(plane), old(cells), plane, cells, cell.address)
      ensures Undisturbed(cell.address) ==> EntryIn(plane, cell.address) == EntryIn(old(plane), cell.address)
      ensures Undisturbed(cell.address) ==>
                forall r: nat :: At(cells, r, cell.address)
                  == if r == cell.rung then AfterWrite(At(old(cells), r, cell.address), value, w.Answer(), w.landed)
                     else At(old(cells), r, cell.address)
      ensures w.IsAccepted() && cell !in w.after.moved ==> At(cells, cell.rung, cell.address) == Some(value)
    {
      w := Wait();
      log := log + [Written(cell.rung, w.Answer())];
      StoreAndResume(cell, AfterWrite(At(cells, cell.rung, cell.address), value, w.Answer(), w.landed), old(plane), old(cells));
    }

    /** The rung's content changes, and then the task goes on. */
    method StoreAndResume(cell: Cell, v: Option<V>, ghost plane0: PlaneState, ghost cells0: map<Cell, V>)
      requires awaits > 0 && forall a :: Framed(plane0, cells0, plane, cells, a)
      modifies this`plane, this`cells
      ensures cell.rung <= LAST_CACHE_RUNG_INDEX ==> Framed(plane0, cells0, plane, cells, cell.address)
      ensures Undisturbed(cell.address) ==> EntryIn(plane, cell.address) == EntryIn(old(plane), cell.address)
      ensures Undisturbed(cell.address) ==>
                forall r: nat :: At(cells, r, cell.address) == if r == cell.rung then v else At(old(cells), r, cell.address)
      ensures cell !in world(awaits - 1).after.moved ==> At(cells, cell.rung, cell.address) == v
    {
      cells := Put(cells, cell, v);
      ghost var plane1, cells1 := plane, cells;
      Resume();
      if cell.rung <= LAST_CACHE_RUNG_INDEX {
        PutIsFramed(old(plane), old(cells), cell, v);
        assert Framed(plane0, cells0, old(plane), old(cells), cell.address) && Framed(plane1, cells1, plane, cells, cell.address);
        FramedTwice(plane0, cells0, old(plane), old(cells), plane1, cells1, cell.address);
        FramedTwice(plane0, cells0, plane1, cells1, plane, cells, cell.address);
      }
    }

    /** Ask a rung to remove a value. Whether it did is not known; what it leaves is. */
    method ClearCell(cell: Cell) returns (w: Await<V>)
      modifies this`plane, this`cells, this`awaits
      ensures w == world(old(awaits)) && awaits == old(awaits) + 1
      ensures cell.rung <= LAST_CACHE_RUNG_INDEX ==> Framed(old(plane), old(cells), plane, cells, cell.address)
      ensures Undisturbed(cell.address) ==> EntryIn(plane, cell.address) == EntryIn(old(plane), cell.address)
      ensures Undisturbed(cell.address) ==> SameBytesBut(old(cells), cells, cell.address, cell.rung)
      ensures Undisturbed(cell.address) || cell !in w.after.moved ==> At(cells, cell.rung, cell.address) == w.leftover
    {
      w := Wait();
      StoreAndResume(cell, w.leftover, old(plane), old(cells));
    }

    /** Prepare, write the rung, commit or abort: one turn of the innermost loop of `set`. */
    method WriteOnce(a: KeyAddress, value: V, rung: TierId, ttl: nat) returns (res: Attempt)
      requires rung.IsCacheRung()
      modifies this
      ensures nominations == old(nominations) && asked == old(asked) && old(awaits) <= awaits && Framed(old(plane), old(cells), plane, cells, a)
      ensures if res.Stopped? then log == old(log)
              else old(log) <= log && |log| == |old(log)| + 1 && log[|log| - 1].rung == rung.Index() && Tells(res, log[|log| - 1])
      ensures AllPlain() ==> !Mars(res)
      ensures res.Stopped? ==> res.error.ConfigurationError? && EntryIn(old(plane), a).None? && EntryIn(plane, a).None?
      ensures Mars(res) ==> Unclaimed(EntryIn(plane, a))
      ensures res.Committed? ==> HoldsAt(EntryIn(plane, a), cells, awaits, a, rung, value, ttl)
      ensures Undisturbed(a) && !res.Stopped? ==> Answers(old(awaits), At(old(cells), rung.Index(), a), value, res, awaits, At(cells, rung.Index(), a), EntryIn(plane, a))
      ensures Undisturbed(a) && res.Committed? ==> Placed(old(cells), cells, a, rung.Index(), value, false)
      ensures Undisturbed(a) && !res.Committed? ==>
                Unharmed(EntryIn(old(plane), a), old(cells), EntryIn(plane, a), cells, a, Mars(res))
    {
      var begun := Begin(a, rung, Write);
      if begun.Err? {
        return Stopped(begun.error);
      }
      ghost var plane1 := plane;
      res := Deliver(a, value, rung, ttl, begun.value, EntryIn(old(plane), a));
      FramedTwice(old(plane), old(cells), plane1, old(cells), plane, cells, a);
    }

    /** The data write and its resolution, once the intent is recorded. */
    method Deliver(a: KeyAddress, value: V, rung: TierId, ttl: nat, token: CommitToken, ghost e0: Option<ControlEntry>)
      returns (res: Attempt)
      requires rung.IsCacheRung() && token.target == rung.Index()
      requires IsIntended(EntryIn(plane, a), Write, rung) && PreparedOver(e0, EntryIn(plane, a)) && token.generation == EntryIn(plane, a).value.generation
      modifies this
      ensures nominations == old(nominations) && asked == old(asked) && old(awaits) <= awaits && Framed(old(plane), old(cells), plane, cells, a)
      ensures old(log) <= log && |log| == |old(log)| + 1 && log[|log| - 1].rung == rung.Index() && Tells(res, log[|log| - 1])
      ensures AllPlain() ==> !Mars(res)
      ensures !res.Stopped?
      ensures Mars(res) ==> Unclaimed(EntryIn(plane, a))
      ensures res.Committed? ==> HoldsAt(EntryIn(plane, a), cells, awaits, a, rung, value, ttl)
      ensures Undisturbed(a) ==> Answers(old(awaits), At(old(cells), rung.Index(), a), value, res, awaits, At(cells, rung.Index(), a), EntryIn(plane, a))
      ensures Undisturbed(a) && res.Committed? ==> Placed(old(cells), cells, a, rung.Index(), value, false)
      ensures Undisturbed(a) && !res.Committed? ==> Unharmed(e0, old(cells), EntryIn(plane, a), cells, a, Mars(res))
    {
      var cell := Cell(rung.Index(), a);
      var w := WriteCell(cell, value);
      assert AllPlain() ==> w.IsPlain();
      ghost var plane1, cells1 := plane, cells;
      if w.cancelled {
        Resolve(a, CacheError.Cancelled, false, w.now, e0);
        res := Dropped;
      } else if w.error.None? {
        var won := Commit(a, token, rung, ttl);
        res := if won then Committed else LostRace;
      } else {
        res := Decline(a, cell, w.error.value, w.now, e0);
      }
      FramedTwice(old(plane), old(cells), plane1, cells1, plane, cells, a);
    }

    /** The rung refused the write: clear an indeterminate one, then abandon the intent. */
    method Decline(a: KeyAddress, cell: Cell, error: CacheError, now: nat, ghost e0: Option<ControlEntry>) returns (res: Attempt)
      requires cell.address == a && cell.rung <= LAST_CACHE_RUNG_INDEX
      modifies this
      ensures nominations == old(nominations) && asked == old(asked) && log == old(log) && old(awaits) <= awaits && Framed(old(plane), old(cells), plane, cells, a)
      ensures res == Declined(error) || res == Dropped
      ensures if error.WriteIndeterminate? then awaits == old(awaits) + 1 && (res.Dropped? <==> world(old(awaits)).cancelled)
              else awaits == old(awaits) && cells == old(cells) && res == Declined(error)
      ensures Mars(res) ==> Unclaimed(EntryIn(plane, a))
      ensures Undisturbed(a) && PreparedOver(e0, EntryIn(old(plane), a)) ==>
                && Explains(EntryIn(plane, a), if res.Dropped? then CacheError.Cancelled else error)
                && if ProvablyStoredNothing(error) then SameEntry(e0, EntryIn(plane, a)) else !IsReady(EntryIn(plane, a))
      ensures Undisturbed(a) && error.WriteIndeterminate? ==>
                SameBytesBut(old(cells), cells, a, cell.rung) && At(cells, cell.rung, a) == world(old(awaits)).leftover
    {
      res := Declined(error);
      CallIsFramed(plane, plane, cells, a);
      if error.WriteIndeterminate? {
        var r := ClearCell(cell);
        if r.cancelled {
          res := Dropped;
        }
      }
      ghost var plane1, cells1 := plane, cells;
      if res.Dropped? {
        Resolve(a, CacheError.Cancelled, false, world(awaits - 1).now, e0);
      } else {
        Resolve(a, error, ProvablyStoredNothing(error), now, e0);
      }
      FramedTwice(old(plane), old(cells), plane1, cells1, plane, cells, a);
    }

    /** After a lost race, give up this attempt's intent, first letting the winner run unless this was the last attempt. */
    method YieldToWinner(a: KeyAddress, isLast: bool) returns (dropped: bool)
      modifies this`plane, this`cells, this`awaits
      ensures awaits == old(awaits) + (if isLast then 0 else 1) && Framed(old(plane), old(cells), plane, cells, a)
      ensures dropped == (!isLast && world(old(awaits)).cancelled) && Unclaimed(EntryIn(plane, a))
      ensures AllPlain() ==> !dropped
    {
      if isLast {
        Resolve(a, CacheError.Cancelled, false, world(awaits).now, None);
        return false;
      }
      var w := Wait();
      ghost var plane1, cells1 := plane, cells;
      Resume();
      FramedTwice(old(plane), old(cells), plane1, cells1, plane, cells, a);
      plane1, cells1 := plane, cells;
      Resolve(a, CacheError.Cancelled, false, w.now, None);
      FramedTwice(old(plane), old(cells), plane1, cells1, plane, cells, a);
      assert AllPlain() ==> w.IsPlain();
      dropped := w.cancelled;
    }

    /** Retry on one rung while other writers keep winning, up to the race budget. */
    method WriteAtRung(a: KeyAddress, value: V, rung: TierId, ttl: nat) returns (res: Attempt)
      requires rung.IsCacheRung()
      modifies this
      ensures nominations == old(nominations) && asked == old(asked) && !res.LostRace? && old(awaits) <= awaits && Framed(old(plane), old(cells), plane, cells, a)
      ensures old(log) <= log && |log| <= |old(log)| + MAX_COMMIT_ATTEMPTS
      ensures RungsWithin(log, |old(log)|, rung.Index(), rung.Index())
      ensures !res.Stopped? ==> |log| > |old(log)|
      ensures res.Committed? ==> LastAnswer(log, |old(log)|, None)
      ensures res.Declined? ==> LastAnswer(log, |old(log)|, Some(res.error))
      ensures res.Stopped? ==> res.error.ConfigurationError? || (res.error.WriteContended? && LostEveryRace(log, |old(log)|))
      ensures AllPlain() ==> !Mars(res) && !res.Dropped?
      ensures Mars(res) || res.Stopped? ==> Unclaimed(EntryIn(plane, a))
      ensures res.Committed? ==> HoldsAt(EntryIn(plane, a), cells, awaits, a, rung, value, ttl)
      ensures Undisturbed(a) && !res.Committed? ==> NoneAccepted(log, |old(log)|)
      ensures Undisturbed(a) && res.Stopped? ==> res.error.ConfigurationError? && EntryIn(old(plane), a).None?
      ensures Undisturbed(a) && !res.Stopped? ==> Answers(old(awaits), At(old(cells), rung.Index(), a), value, res, awaits, At(cells, rung.Index(), a), EntryIn(plane, a))
      ensures Undisturbed(a) && res.Committed? ==> Placed(old(cells), cells, a, rung.Index(), value, false)
      ensures Undisturbed(a) && !res.Committed? ==>
                Unharmed(EntryIn(old(plane), a), old(cells), EntryIn(plane, a), cells, a, Mars(res))
    {
      var lostRaces := 0;
      CallIsFramed(plane, plane, cells, a);
      while true
        invariant lostRaces < MAX_COMMIT_ATTEMPTS && nominations == old(nominations) && asked == old(asked) && old(awaits) <= awaits
        invariant old(log) <= log && |log| == |old(log)| + lostRaces && Framed(old(plane), old(cells), plane, cells, a)
        invariant RungsWithin(log, |old(log)|, rung.Index(), rung.Index()) && AllAccepted(log, |old(log)|)
        invariant Undisturbed(a) ==> lostRaces == 0 && awaits == old(awaits) && EntryIn(plane, a) == EntryIn(old(plane), a) && cells == old(cells)
        decreases MAX_COMMIT_ATTEMPTS - lostRaces
      {
        ghost var plane1, cells1, log1 := plane, cells, log;
        res := WriteOnce(a, value, rung, ttl);
        OneMoreWrite(log1, log, |old(log)|, rung.Index());
        FramedTwice(old(plane), old(cells), plane1, cells1, plane, cells, a);
        if !res.LostRace? {
          return;
        }
        lostRaces := lostRaces + 1;
        plane1, cells1 := plane, cells;
        var dropped := YieldToWinner(a, lostRaces >= MAX_COMMIT_ATTEMPTS);
        FramedTwice(old(plane), old(cells), plane1, cells1, plane, cells, a);
        if lostRaces >= MAX_COMMIT_ATTEMPTS {
          return Stopped(WriteContended);
        }
        if dropped {
          return Dropped;
        }
      }
    }

    /** The next rung of a walk that began at `plane0` and `cells0` and has come to nothing so far. */
    method TryRung(a: KeyAddress, value: V, rung: TierId, ttl: nat,
                   ghost plane0: PlaneState, ghost cells0: map<Cell, V>, ghost from: nat, ghost marred: bool)
      returns (res: Attempt)
      requires rung.IsCacheRung() && from <= |log| && Framed(plane0, cells0, plane, cells, a)
      requires InVain(plane0, cells0, plane, cells, log, a, from, marred)
      modifies this
      ensures nominations == old(nominations) && asked == old(asked) && !res.LostRace? && old(awaits) <= awaits && Framed(plane0, cells0, plane, cells, a)
      ensures old(log) <= log && |log| <= |old(log)| + MAX_COMMIT_ATTEMPTS && RungsWithin(log, |old(log)|, rung.Index(), rung.Index())
      ensures !res.Stopped? ==> |log| > |old(log)|
      ensures res.Committed? ==> LastAnswer(log, |old(log)|, None)
      ensures res.Declined? ==> LastAnswer(log, |old(log)|, Some(res.error))
      ensures res.Stopped? ==> res.error.ConfigurationError? || (res.error.WriteContended? && LostEveryRace(log, |old(log)|))
      ensures AllPlain() ==> !Mars(res) && !res.Dropped?
      ensures Undisturbed(a) && res.Stopped? ==> res.error.ConfigurationError? && EntryIn(plane0, a).None?
      ensures Mars(res) || res.Stopped? ==> Unclaimed(EntryIn(plane, a))
      ensures res.Committed? ==> HoldsAt(EntryIn(plane, a), cells, awaits, a, rung, value, ttl)
      ensures Undisturbed(a) && !res.Stopped? ==> Answers(old(awaits), At(old(cells), rung.Index(), a), value, res, awaits, At(cells, rung.Index(), a), EntryIn(plane, a))
      ensures Undisturbed(a) && res.Committed? ==> Placed(cells0, cells, a, rung.Index(), value, marred)
      ensures !res.Committed? ==> InVain(plane0, cells0, plane, cells, log, a, from, marred || Mars(res))
    {
      assert NothingCame(plane0, cells0, plane, cells, log, from, marred, a);
      res := WriteAtRung(a, value, rung, ttl);
      FramedTwice(plane0, cells0, old(plane), old(cells), plane, cells, a);
      if Undisturbed(a) && res.Committed? {
        PlacedAfter(EntryIn(plane0, a), cells0, EntryIn(old(plane), a), old(cells), cells, a, rung.Index(), value, marred, false);
      } else if Undisturbed(a) {
        StillNoneAccepted(old(log), log, from);
        UnharmedCompose(EntryIn(plane0, a), cells0, EntryIn(old(plane), a), old(cells), EntryIn(plane, a), cells, a, marred, Mars(res));
      }
    }

    /** The next rung of a walk, and what to do about its answer: stop, or go on with its error. */
    method TryOrStop(a: KeyAddress, value: V, rung: TierId, ttl: nat, ghost plane0: PlaneState, ghost cells0: map<Cell, V>, ghost from: nat, ghost before: bool)
      returns (r: Option<Outcome>, lastError: CacheError, ghost marred: bool)
      requires rung.IsCacheRung() && from <= |log| && Framed(plane0, cells0, plane, cells, a)
      requires InVain(plane0, cells0, plane, cells, log, a, from, before)
      modifies this
      ensures nominations == old(nominations) && asked == old(asked) && old(awaits) <= awaits && Framed(plane0, cells0, plane, cells, a)
      ensures old(log) <= log && |log| <= |old(log)| + MAX_COMMIT_ATTEMPTS && RungsWithin(log, |old(log)|, rung.Index(), rung.Index())
      ensures r.None? ==> LastAnswer(log, |old(log)|, Some(lastError)) && IsRungLevel(lastError)
      ensures r == Some(Success) ==> LastAnswer(log, |old(log)|, None)
      ensures r.Some? && r.value.Failure? ==> EndsWalk(r.value.error, log, |old(log)|)
      ensures AllPlain() ==> (!before ==> !marred) && r != Some(Abandoned)
      ensures r.Some? ==> Concludes(r.value, EntryIn(plane, a), cells, awaits, a, value, ttl)
      ensures Undisturbed(a) && HasSlot(EntryIn(plane0, a), r) && IsBound(rung) ==> Steps(old(awaits), rung.Index() + 1, r, EntryIn(plane, a), awaits)
      ensures Undisturbed(a) && EntryIn(plane0, a).Some? && r.Some? && r.value.Failure? ==> LastAnswer(log, |old(log)|, Some(r.value.error))
      ensures Undisturbed(a) && r == Some(Success) ==> Finished(cells0, plane, cells, awaits, a, value, rung.Index() + 1, ttl, marred)
      ensures r != Some(Success) ==> InVain(plane0, cells0, plane, cells, log, a, from, marred)
    {
      var res := TryRung(a, value, rung, ttl, plane0, cells0, from, before);
      lastError := if res.Declined? || res.Stopped? then res.error else CacheError.Cancelled;
      marred := before || (!res.Committed? && Mars(res));
      r := if res.Committed? then Some(Success)
           else if res.Dropped? then Some(Abandoned)
           else if res.Stopped? || !IsRungLevel(res.error) then Some(Failure(res.error))
           else None;
      if Undisturbed(a) && !res.Stopped? && IsBound(rung) {
        AnswerSteps(old(awaits), At(old(cells), rung.Index(), a), value, res, awaits, At(cells, rung.Index(), a), rung.Index() + 1, r, EntryIn(plane, a));
      }
    }

    /** What a rung answers takes a descent one step further. */
    lemma AnswerSteps(n: nat, before: Option<V>, value: V, res: Attempt, awaited: nat, bytes: Option<V>, left: nat, r: Option<Outcome>, e: Option<ControlEntry>)
      requires 0 < left <= bound && Answers(n, before, value, res, awaited, bytes, e)
      requires res.Committed? ==> r == Some(Success) && e.Some? && e.value.tier.Index() == left - 1
      requires res.Dropped? ==> r == Some(Abandoned)
      requires res.Declined? ==> r == if IsRungLevel(res.error) then None else Some(Failure(res.error))
      ensures Steps(n, left, r, e, awaited)
    {
    }

    /** One step of a walk from `top - 1`, with `left` rungs left to try: try the next rung, if it is bound. */
    method StepDown(a: KeyAddress, value: V, rung: TierId, ttl: nat, error: CacheError, ghost plane0: PlaneState, ghost cells0: map<Cell, V>,
                    ghost log0: seq<Written>, ghost last: CacheError, ghost left: nat, ghost top: nat, ghost before: bool)
      returns (r: Option<Outcome>, lastError: CacheError, ghost marred: bool)
      requires rung.Index() + 1 == left <= top <= LAST_CACHE_RUNG_INDEX + 1 && Framed(plane0, cells0, plane, cells, a)
      requires Tried(log0, log, left, top, last, error) && InVain(plane0, cells0, plane, cells, log, a, |log0|, before)
      modifies this
      ensures nominations == old(nominations) && asked == old(asked) && old(awaits) <= awaits && Framed(plane0, cells0, plane, cells, a)
      ensures log0 <= log && Descends(log, |log0|, top) && (bound == 0 ==> log == log0)
      ensures r.None? ==> Tried(log0, log, left - 1, top, last, lastError)
      ensures r == Some(Success) ==> LastAnswer(log, |log0|, None)
      ensures r.Some? && r.value.Failure? ==> EndsWalk(r.value.error, log, |log0|)
      ensures AllPlain() ==> (!before ==> !marred) && r != Some(Abandoned)
      ensures r.Some? ==> Concludes(r.value, EntryIn(plane, a), cells, awaits, a, value, ttl)
      ensures Undisturbed(a) && HasSlot(EntryIn(plane0, a), r) ==> Steps(old(awaits), left, r, EntryIn(plane, a), awaits)
      ensures Undisturbed(a) && EntryIn(plane0, a).Some? && r.Some? && r.value.Failure? ==> LastAnswer(log, |log0|, Some(r.value.error))
      ensures Undisturbed(a) && r == Some(Success) ==> Finished(cells0, plane, cells, awaits, a, value, top, ttl, marred)
      ensures r != Some(Success) ==> InVain(plane0, cells0, plane, cells, log, a, |log0|, marred)
    {
      if !IsBound(rung) {
        r, lastError, marred := None, error, before;
        TriedOneMore(log0, log, log, left, top, last, error, error);
      } else {
        r, lastError, marred := TryOrStop(a, value, rung, ttl, plane0, cells0, |log0|, before);
        TriedToTheEnd(log0, old(log), log, left, top, last, error);
        if r.None? {
          TriedOneMore(log0, old(log), log, left, top, last, error, lastError);
        }
      }
    }

    /** The writes a walk from `top - 1` has made once `left` rungs are left to try: in descending order, all of them on bound rungs, and the last answer is the last error. */
    ghost predicate Tried(log0: seq<Written>, log1: seq<Written>, left: nat, top: nat, last: CacheError, lastError: CacheError) {
      && log0 <= log1 && Descends(log1, |log0|, top) && RungsWithin(log1, |log0|, left, top)
      && (bound == 0 ==> log1 == log0) && |log1| >= |log0| + Min(bound, top) - Min(bound, left)
      && (if log1 == log0 then lastError == last else LastAnswer(log1, |log0|, Some(lastError)) && IsRungLevel(lastError))
    }

    lemma TriedNothing(log0: seq<Written>, top: nat, last: CacheError)
      ensures Tried(log0, log0, top, top, last, last)
    {
    }

    lemma TriedOneMore(log0: seq<Written>, log1: seq<Written>, log2: seq<Written>, left: nat, top: nat, last: CacheError, e1: CacheError, e2: CacheError)
      requires 0 < left <= top && Tried(log0, log1, left, top, last, e1)
      requires log1 <= log2 && |log2| <= |log1| + MAX_COMMIT_ATTEMPTS && RungsWithin(log2, |log1|, left - 1, left - 1)
      requires if left <= bound then LastAnswer(log2, |log1|, Some(e2)) && IsRungLevel(e2) else log2 == log1 && e2 == e1
      ensures Tried(log0, log2, left - 1, top, last, e2)
    {
      DescendsFurther(log1, log2, |log0|, top, left - 1);
    }

    /** The last writes of a walk that ends keep the descent too. */
    lemma TriedToTheEnd(log0: seq<Written>, log1: seq<Written>, log2: seq<Written>, left: nat, top: nat, last: CacheError, e1: CacheError)
      requires 0 < left <= top && Tried(log0, log1, left, top, last, e1)
      requires log1 <= log2 && |log2| <= |log1| + MAX_COMMIT_ATTEMPTS && RungsWithin(log2, |log1|, left - 1, left - 1)
      ensures log0 <= log2 && Descends(log2, |log0|, top)
    {
      DescendsFurther(log1, log2, |log0|, top, left - 1);
    }

    /** On an undisturbed key, nothing has come of the writes since `plane0` and `cells0`. The quantifier keeps the definition folded until a key is named. */
    ghost predicate InVain(plane0: PlaneState, cells0: map<Cell, V>, plane1: PlaneState, cells1: map<Cell, V>, log1: seq<Written>,
                           a: KeyAddress, from: nat, marred: bool) {
      forall b {:trigger NothingCame(plane0, cells0, plane1, cells1, log1, from, marred, b)} :: b == a ==>
        NothingCame(plane0, cells0, plane1, cells1, log1, from, marred, b)
    }

    /** None of the writes was accepted, and the key is unharmed. */
    ghost predicate NothingCame(plane0: PlaneState, cells0: map<Cell, V>, plane1: PlaneState, cells1: map<Cell, V>,
                                log1: seq<Written>, from: nat, marred: bool, a: KeyAddress) {
      Undisturbed(a) ==> Unharmed(EntryIn(plane0, a), cells0, EntryIn(plane1, a), cells1, a, marred) && NoneAccepted(log1, from)
    }

    /** Walk down the ladder from `start`. `None` means every rung was tried or unbound. */
    method Walk(a: KeyAddress, value: V, start: TierId, ttl: nat, last: CacheError)
      returns (r: Option<Outcome>, lastError: CacheError, ghost marred: bool)
      requires start.IsCacheRung()
      modifies this
      ensures nominations == old(nominations) && asked == old(asked) && old(awaits) <= awaits && Framed(old(plane), old(cells), plane, cells, a)
      ensures old(log) <= log && Descends(log, |old(log)|, start.Index() + 1) && (bound == 0 ==> log == old(log))
      ensures r.None? ==> Tried(old(log), log, 0, start.Index() + 1, last, lastError)
      ensures r == Some(Success) ==> LastAnswer(log, |old(log)|, None)
      ensures r.Some? && r.value.Failure? ==> EndsWalk(r.value.error, log, |old(log)|)
      ensures AllPlain() ==> !marred && r != Some(Abandoned)
      ensures Undisturbed(a) && EntryIn(old(plane), a).Some? && r.Some? && r.value.Failure? ==> LastAnswer(log, |old(log)|, Some(r.value.error))
      ensures r.Some? ==> Concludes(r.value, EntryIn(plane, a), cells, awaits, a, value, ttl)
      ensures Undisturbed(a) && HasSlot(EntryIn(old(plane), a), r) ==> Follows(Descent(old(awaits), start.Index() + 1), r, EntryIn(plane, a))
      ensures Undisturbed(a) && r == Some(Success) ==> Finished(old(cells), plane, cells, awaits, a, value, start.Index() + 1, ttl, marred)
      ensures r != Some(Success) ==> InVain(old(plane), old(cells), plane, cells, log, a, |old(log)|, marred)
    {
      r, lastError, marred := None, last, false;
      var rung := start;
      ghost var top, left := start.Index() + 1, start.Index() + 1;
      CallIsFramed(plane, plane, cells, a);
      TriedNothing(log, top, last);
      while rung.IsCacheRung()
        invariant left == Remaining(rung) && left <= top && r.None?
        invariant nominations == old(nominations) && asked == old(asked) && old(awaits) <= awaits
        invariant Framed(old(plane), old(cells), plane, cells, a) && InVain(old(plane), old(cells), plane, cells, log, a, |old(log)|, marred)
        invariant Tried(old(log), log, left, top, last, lastError)
        invariant AllPlain() ==> !marred
        invariant Undisturbed(a) ==> Descent(old(awaits), top) == Descent(awaits, left)
        decreases left
      {
        OneRungLess(rung);
        r, lastError, marred := StepDown(a, value, rung, ttl, lastError, old(plane), old(cells), old(log), last, left, top, marred);
        if r.Some? {
          return;
        }
        rung := PreviousRung(rung);
        left := left - 1;
      }
    }

    /** The write went through: after `n` awaits the entry names a rung below `top`, which holds the value. */
    ghost predicate Finished(cells0: map<Cell, V>, plane1: PlaneState, cells1: map<Cell, V>, n: nat, a: KeyAddress, value: V, top: nat, ttl: nat, marred: bool) {
      && EntryIn(plane1, a).Some?
      && var rung := EntryIn(plane1, a).value.tier;
      rung.Index() < top && CommittedAt(EntryIn(plane1, a), n, rung, ttl) && Placed(cells0, cells1, a, rung.Index(), value, marred)
    }

    /** Ask the control plane to give up `b`. It agrees exactly for a committed, unclaimed entry, and otherwise changes nothing. */
    method Reserve(b: KeyAddress, now: nat) returns (agreed: bool)
      modifies this`plane
      ensures agreed <==> Evictable(EntryIn(old(plane), b))
      ensures plane == if agreed then old(plane).(entries := GivenUp(old(plane).entries, b)) else old(plane)
    {
      var step := PlaneStep(plane, b, ReserveEviction, now, true);
      plane := step.0;
      agreed := step.1 == Flag(true);
    }

    /** The last victim named was given up, and its slot on `rung` is gone. */
    ghost predicate FreedSlot(plane0: PlaneState, cells0: map<Cell, V>, rung: nat)
      reads this
    {
      && nominations > 0
      && var v := nominee(nominations - 1);
      v.address.Some? && v.removed
      && WasEvicted(EntryIn(plane0, v.address.value), EntryIn(plane, v.address.value))
      && cells == Put(cells0, Cell(rung, v.address.value), v.leftover)
    }

    /** The victims a reclaim starting now at `rung`, with `left` nominations to go, will ask for. */
    ghost function Scan(rung: nat, left: nat): seq<Ask>
      reads this
    {
      ScanFrom(plane.entries, nominee, nominations, rung, Top(), left)
    }

    /** A key no rung ever names keeps its entry. */
    ghost predicate OnlyNominated(p0: PlaneState, p1: PlaneState) {
      forall b {:trigger NeverNominated(b)} :: NeverNominated(b) ==> EntryIn(p1, b) == EntryIn(p0, b)
    }

    /** One nomination: ask the rung for a victim, have the control plane authorise it, then remove it. */
    method Nominate(rung: TierId) returns (ask: Ask)
      requires rung.IsCacheRung()
      modifies this`plane, this`cells, this`nominations, this`asked
      ensures ask == AskFor(old(plane).entries, nominee(old(nominations)), rung.Index())
      ensures nominations == old(nominations) + 1 && asked == old(asked) + [ask]
      ensures plane == old(plane).(entries := AfterAsk(old(plane).entries, ask))
      ensures if ask.Frees() then FreedSlot(old(plane), old(cells), rung.Index()) else cells == old(cells)
      ensures AllSpared(old(plane), old(cells), plane, cells) && OnlyNominated(old(plane), plane)
    {
      var victim := nominee(nominations);
      nominations := nominations + 1;
      var reserved := false;
      if victim.address.Some? {
        var v := victim.address.value;
        reserved := Reserve(v, world(awaits).now);
        if reserved && victim.removed {
          cells := Put(cells, Cell(rung.Index(), v), victim.leftover);
        }
        if reserved {
          ReservationSpares(old(plane), old(cells), cells, v, rung.Index());
        }
      }
      if !reserved {
        NothingSpared(plane, cells);
      }
      assert forall b :: IsNominee(old(nominations), b) <==> victim.address == Some(b);
      ask := Ask(rung.Index(), victim.address, reserved, victim.removed);
      asked := asked + [ask];
    }

    /** Ask a rung for victims while they are refused, up to the budget; `last` is the first nomination that was not. */
    method AskRung(rung: TierId, attempts: nat) returns (used: nat, last: Option<Ask>, ghost refused: seq<Ask>)
      requires rung.IsCacheRung() && attempts <= MAX_EVICTION_ATTEMPTS
      modifies this`plane, this`cells, this`nominations, this`asked
      ensures attempts <= used <= MAX_EVICTION_ATTEMPTS && nominations - old(nominations) == used - attempts
      ensures AllRefused(refused, old(plane).entries, nominee, old(nominations), rung.Index())
      ensures last.None? ==> |refused| == used - attempts && used == MAX_EVICTION_ATTEMPTS && asked == old(asked) + refused
                             && plane == old(plane) && cells == old(cells)
      ensures last.Some? ==> |refused| + 1 == used - attempts && asked == old(asked) + (refused + [last.value])
                             && last.value == AskFor(old(plane).entries, nominee(old(nominations) + |refused|), rung.Index()) && !last.value.IsRefused()
                             && plane == old(plane).(entries := AfterAsk(old(plane).entries, last.value))
      ensures last.Some? ==> if last.value.Frees() then FreedSlot(old(plane), old(cells), rung.Index()) else cells == old(cells)
      ensures last.Some? ==> AllSpared(old(plane), old(cells), plane, cells) && OnlyNominated(old(plane), plane)
    {
      used, last, refused := attempts, None, [];
      while used < MAX_EVICTION_ATTEMPTS
        invariant attempts <= used <= MAX_EVICTION_ATTEMPTS && nominations - old(nominations) == used - attempts == |refused|
        invariant asked == old(asked) + refused && cells == old(cells) && plane == old(plane) && last.None?
        invariant AllRefused(refused, plane.entries, nominee, old(nominations), rung.Index())
      {
        used := used + 1;
        var ask := Nominate(rung);
        ConcatAssociates(old(asked), refused, [ask]);
        if !ask.IsRefused() {
          return used, Some(ask), refused;
        }
        refused := refused + [ask];
      }
    }

    /** Free one slot of a rung: ask for victims until one is given up, none is named, or the budget is spent. */
    method TryEvictAtRung(rung: TierId, attempts: nat) returns (freed: bool, used: nat, ghost asks: seq<Ask>)
      requires rung.IsCacheRung() && IsBound(rung) && attempts <= MAX_EVICTION_ATTEMPTS
      modifies this`plane, this`cells, this`nominations, this`asked
      ensures attempts <= used <= MAX_EVICTION_ATTEMPTS && nominations - old(nominations) == used - attempts
      ensures asked == old(asked) + asks && (freed <==> FreedBy(asks))
      ensures old(Scan(rung.Index(), MAX_EVICTION_ATTEMPTS - attempts))
           == asks + if freed then [] else Scan(rung.Index() + 1, MAX_EVICTION_ATTEMPTS - used)
      ensures if freed then FreedSlot(old(plane), old(cells), rung.Index()) else cells == old(cells)
      ensures AllSpared(old(plane), old(cells), plane, cells) && OnlyNominated(old(plane), plane)
    {
      var last;
      used, last, asks := AskRung(rung, attempts);
      if last.None? {
        BudgetSpent(old(plane).entries, nominee, old(nominations), rung.Index(), Top(), asks);
        assert asks + Scan(rung.Index() + 1, 0) == asks;
        NothingSpared(plane, cells);
        return false, used, asks;
      }
      freed := last.value.Frees();
      RungEnded(old(plane).entries, nominee, old(nominations), rung.Index(), Top(), MAX_EVICTION_ATTEMPTS - attempts, asks, last.value,
                if freed then [] else Scan(rung.Index() + 1, MAX_EVICTION_ATTEMPTS - used));
      asks := asks + [last.value];
    }

    /** The cache rungs bound, from L0 up. */
    function Top(): nat {
      Min(bound, LAST_CACHE_RUNG_INDEX + 1)
    }

    /** The next rung of a reclaim, if it is bound. */
    method TryNextRung(i: nat, attempts: nat, ghost asks: seq<Ask>, ghost all: seq<Ask>)
      returns (freed: bool, used: nat, ghost more: seq<Ask>)
      requires i <= LAST_CACHE_RUNG_INDEX && attempts <= MAX_EVICTION_ATTEMPTS && !FreedBy(asks)
      requires all == asks + Scan(i, MAX_EVICTION_ATTEMPTS - attempts)
      modifies this`plane, this`cells, this`nominations, this`asked
      ensures attempts <= used <= MAX_EVICTION_ATTEMPTS && nominations - old(nominations) == used - attempts
      ensures asked == old(asked) + more && (freed <==> FreedBy(asks + more))
      ensures all == asks + more + if freed then [] else Scan(i + 1, MAX_EVICTION_ATTEMPTS - used)
      ensures if freed then FreedSlot(old(plane), old(cells), i) else cells == old(cells)
      ensures AllSpared(old(plane), old(cells), plane, cells) && OnlyNominated(old(plane), plane)
    {
      freed, used, more := false, attempts, [];
      if IsBound(FromIndex(i).value) {
        freed, used, more := TryEvictAtRung(FromIndex(i).value, attempts);
        ConcatAssociates(asks, more, if freed then [] else Scan(i + 1, MAX_EVICTION_ATTEMPTS - used));
      } else {
        NothingSpared(plane, cells);
      }
    }

    /** Reclaim one slot anywhere in the ladder, asking for at most eight victims in all. It asks for exactly the victims of `Scan`, from L0 up. */
    method TryFree() returns (freed: bool)
      modifies this`plane, this`cells, this`nominations, this`asked
      ensures old(nominations) <= nominations <= old(nominations) + MAX_EVICTION_ATTEMPTS
      ensures asked == old(asked) + old(Scan(0, MAX_EVICTION_ATTEMPTS)) && (freed <==> FreedBy(old(Scan(0, MAX_EVICTION_ATTEMPTS))))
      ensures if freed then exists rung: nat :: rung <= LAST_CACHE_RUNG_INDEX && FreedSlot(old(plane), old(cells), rung)
              else cells == old(cells)
      ensures AllSpared(old(plane), old(cells), plane, cells) && OnlyNominated(old(plane), plane)
    {
      freed := false;
      var used := 0;
      ghost var asks, all := [], Scan(0, MAX_EVICTION_ATTEMPTS);
      NothingSpared(plane, cells);
      for i := 0 to LAST_CACHE_RUNG_INDEX + 1
        invariant used <= MAX_EVICTION_ATTEMPTS && nominations - old(nominations) == used && cells == old(cells)
        invariant !freed && asked == old(asked) + asks && !FreedBy(asks)
        invariant all == asks + Scan(i, MAX_EVICTION_ATTEMPTS - used)
        invariant AllSpared(old(plane), old(cells), plane, cells) && OnlyNominated(old(plane), plane)
      {
        ghost var plane1, more := plane, [];
        freed, used, more := TryNextRung(i, used, asks, all);
        AllSparedCompose(old(plane), old(cells), plane1, old(cells), plane, cells);
        ConcatAssociates(old(asked), asks, more);
        asks := asks + more;
        if freed {
          FreedSlotSince(old(plane), plane1, old(cells), i);
          assert all == asks;
          return;
        }
      }
      assert all == asks;
    }

    /** The victim just given up was still there to give up when the reclaim began. */
    lemma FreedSlotSince(plane0: PlaneState, plane1: PlaneState, cells0: map<Cell, V>, rung: nat)
      requires AllSpared(plane0, cells0, plane1, cells0) && FreedSlot(plane1, cells0, rung)
      ensures FreedSlot(plane0, cells0, rung)
    {
      var b := nominee(nominations - 1).address.value;
      assert Spared(EntryIn(plane0, b), cells0, EntryIn(plane1, b), cells0, b);
    }

    /** A reclaim is tried exactly when one is due. Where any rung is bound it asks for a victim, and it makes for another pass exactly when its last nomination, and no earlier one, freed a slot. */
    ghost predicate Reclaims(due: bool, again: bool, before: seq<Ask>, after: seq<Ask>) {
      && before <= after && (!due ==> after == before) && (due && bound > 0 ==> |after| > |before|)
      && (again <==> |after| > |before| && after[|after| - 1].Frees())
      && (forall i :: |before| <= i < |after| - 1 ==> !after[i].Frees())
    }

    /** Try to free a slot, as a write does that began at `plane0` and `cells0` and found no room. */
    method Reclaim(ghost a: KeyAddress, ghost plane0: PlaneState, ghost cells0: map<Cell, V>, ghost from: nat, ghost before: bool)
      returns (again: bool, ghost marred: bool)
      requires FramedBarEviction(plane0, cells0, plane, cells, a) && InVain(plane0, cells0, plane, cells, log, a, from, before)
      modifies this`plane, this`cells, this`nominations, this`asked
      ensures old(nominations) <= nominations <= old(nominations) + MAX_EVICTION_ATTEMPTS
      ensures Reclaims(true, again, old(asked), asked)
      ensures FramedBarEviction(plane0, cells0, plane, cells, a) && InVain(plane0, cells0, plane, cells, log, a, from, marred)
      ensures NeverNominated(a) && !before ==> !marred
    {
      ScanStopsAtSuccess(plane.entries, nominee, nominations, 0, Top(), MAX_EVICTION_ATTEMPTS);
      again := TryFree();
      marred := before || EntryIn(plane, a) != EntryIn(old(plane), a);
      SparingIsFramed(old(plane), old(cells), plane, cells, a);
      FramedCompose(plane0, cells0, old(plane), old(cells), plane, cells, a);
      assert Spared(EntryIn(old(plane), a), old(cells), EntryIn(plane, a), cells, a);
      SparedIsUnharmed(EntryIn(old(plane), a), old(cells), EntryIn(plane, a), cells, a);
      VainTwice(plane0, cells0, old(plane), old(cells), plane, cells, log, a, from, before);
    }

    /** One pass of the write: walk down the ladder and, when the last rung to refuse was full, try to free a slot. `None` with `again` asks for another pass. */
    method Pass(a: KeyAddress, value: V, chosen: TierId, ttl: nat, last: CacheError)
      returns (r: Option<Outcome>, again: bool, lastError: CacheError, ghost marred: bool)
      requires chosen.IsCacheRung()
      modifies this
      ensures old(nominations) <= nominations <= old(nominations) + MAX_EVICTION_ATTEMPTS && old(awaits) <= awaits
      ensures old(log) <= log && Descends(log, |old(log)|, chosen.Index() + 1) && (bound == 0 ==> log == old(log))
      ensures FramedBarEviction(old(plane), old(cells), plane, cells, a)
      ensures r.None? ==> Tried(old(log), log, 0, chosen.Index() + 1, last, lastError)
      ensures Reclaims(r.None? && lastError.CapacityExhausted?, again, old(asked), asked)
      ensures r == Some(Success) ==> LastAnswer(log, |old(log)|, None)
      ensures r.Some? && r.value.Failure? ==> EndsWalk(r.value.error, log, |old(log)|)
      ensures AllPlain() ==> (NeverNominated(a) ==> !marred) && r != Some(Abandoned)
      ensures Undisturbed(a) && EntryIn(old(plane), a).Some? && r.Some? && r.value.Failure? ==> LastAnswer(log, |old(log)|, Some(r.value.error))
      ensures r.Some? ==> Concludes(r.value, EntryIn(plane, a), cells, awaits, a, value, ttl)
      ensures Undisturbed(a) && HasSlot(EntryIn(old(plane), a), r) ==> Follows(Descent(old(awaits), chosen.Index() + 1), r, EntryIn(plane, a))
      ensures Undisturbed(a) && r == Some(Success) ==> Finished(old(cells), plane, cells, awaits, a, value, chosen.Index() + 1, ttl, marred)
      ensures r != Some(Success) ==> InVain(old(plane), old(cells), plane, cells, log, a, |old(log)|, marred)
    {
      again := false;
      r, lastError, marred := Walk(a, value, chosen, ttl, last);
      FramedIsBarEviction(old(plane), old(cells), plane, cells, a);
      if r.Some? || !lastError.CapacityExhausted? {
        return;
      }
      again, marred := Reclaim(a, old(plane), old(cells), |old(log)|, marred);
    }

    /** An eviction after writes that came to nothing. */
    lemma VainTwice(p0: PlaneState, c0: map<Cell, V>, p1: PlaneState, c1: map<Cell, V>, p2: PlaneState, c2: map<Cell, V>,
                    log1: seq<Written>, a: KeyAddress, from: nat, before: bool)
      requires InVain(p0, c0, p1, c1, log1, a, from, before)
      requires Unharmed(EntryIn(p1, a), c1, EntryIn(p2, a), c2, a, EntryIn(p2, a) != EntryIn(p1, a))
      ensures InVain(p0, c0, p2, c2, log1, a, from, before || EntryIn(p2, a) != EntryIn(p1, a))
    {
      assert NothingCame(p0, c0, p1, c1, log1, from, before, a);
      if Undisturbed(a) {
        UnharmedCompose(EntryIn(p0, a), c0, EntryIn(p1, a), c1, EntryIn(p2, a), c2, a, before, EntryIn(p2, a) != EntryIn(p1, a));
      }
    }

    /** Writes that came to nothing after writes that came to nothing. */
    lemma VainAgain(p0: PlaneState, c0: map<Cell, V>, p1: PlaneState, c1: map<Cell, V>, p2: PlaneState, c2: map<Cell, V>,
                    log1: seq<Written>, log2: seq<Written>, a: KeyAddress, from: nat, m1: bool, m2: bool)
      requires from <= |log1| && log1 <= log2
      requires InVain(p0, c0, p1, c1, log1, a, from, m1) && InVain(p1, c1, p2, c2, log2, a, |log1|, m2)
      ensures InVain(p0, c0, p2, c2, log2, a, from, m1 || m2)
    {
      assert NothingCame(p0, c0, p1, c1, log1, from, m1, a) && NothingCame(p1, c1, p2, c2, log2, |log1|, m2, a);
      if Undisturbed(a) {
        StillNoneAccepted(log1, log2, from);
        UnharmedCompose(EntryIn(p0, a), c0, EntryIn(p1, a), c1, EntryIn(p2, a), c2, a, m1, m2);
      }
    }

    /** A write that went through after writes that came to nothing. */
    lemma FinishedAfter(p0: PlaneState, c0: map<Cell, V>, p1: PlaneState, c1: map<Cell, V>, p2: PlaneState, c2: map<Cell, V>,
                        log1: seq<Written>, n: nat, a: KeyAddress, value: V, from: nat, top: nat, ttl: nat, m1: bool, m2: bool)
      requires Undisturbed(a) && InVain(p0, c0, p1, c1, log1, a, from, m1) && Finished(c1, p2, c2, n, a, value, top, ttl, m2)
      ensures Finished(c0, p2, c2, n, a, value, top, ttl, m1 || m2)
    {
      assert NothingCame(p0, c0, p1, c1, log1, from, m1, a);
      PlacedAfter(EntryIn(p0, a), c0, EntryIn(p1, a), c1, c2, a, EntryIn(p2, a).value.tier.Index(), value, m1, m2);
    }

    /** The next pass of a write that began at `plane0` and `cells0`, with `log0` written and `askFrom` nominations made before it, and has come to nothing so far. */
    method NextPass(a: KeyAddress, value: V, chosen: TierId, ttl: nat, last: CacheError,
                    ghost plane0: PlaneState, ghost cells0: map<Cell, V>, ghost log0: seq<Written>, ghost askFrom: nat, ghost before: bool)
      returns (r: Option<Outcome>, again: bool, lastError: CacheError, ghost marred: bool)
      requires chosen.IsCacheRung() && FramedBarEviction(plane0, cells0, plane, cells, a)
      requires OnlyFailures(last, chosen, log0, log) && askFrom <= |asked|
      requires InVain(plane0, cells0, plane, cells, log, a, |log0|, before)
      modifies this
      ensures old(nominations) <= nominations <= old(nominations) + MAX_EVICTION_ATTEMPTS && old(awaits) <= awaits
      ensures old(log) <= log && |log| <= |old(log)| + (chosen.Index() + 1) * MAX_COMMIT_ATTEMPTS && RungsWithin(log, |log0|, 0, chosen.Index())
      ensures FramedBarEviction(plane0, cells0, plane, cells, a)
      ensures r.None? ==> |log| >= |old(log)| + Min(bound, chosen.Index() + 1) && OnlyFailures(lastError, chosen, log0, log)
      ensures r == Some(Success) ==> LastAnswer(log, |log0|, None)
      ensures r.Some? && r.value.Failure? ==> EndsWalk(r.value.error, log, |log0|)
      ensures old(asked) <= asked && Reclaimed(r, again, lastError, FreeCount(old(asked), askFrom), asked, askFrom)
      ensures AllPlain() ==> (NeverNominated(a) && !before ==> !marred) && r != Some(Abandoned)
      ensures r.Some? ==> Concludes(r.value, EntryIn(plane, a), cells, awaits, a, value, ttl)
      ensures Undisturbed(a) && HasSlot(EntryIn(old(plane), a), r) ==> Follows(Descent(old(awaits), chosen.Index() + 1), r, EntryIn(plane, a))
      ensures Undisturbed(a) && EntryIn(plane0, a).Some? && r.Some? && r.value.Failure? ==> LastAnswer(log, |log0|, Some(r.value.error))
      ensures Undisturbed(a) && r == Some(Success) ==> Finished(cells0, plane, cells, awaits, a, value, chosen.Index() + 1, ttl, marred)
      ensures r != Some(Success) ==> InVain(plane0, cells0, plane, cells, log, a, |log0|, marred)
    {
      ghost var more;
      assert Undisturbed(a) && EntryIn(plane0, a).Some? ==> EntryIn(plane, a).Some? by {
        assert NothingCame(plane0, cells0, plane, cells, log, |log0|, before, a);
      }
      r, again, lastError, more := Pass(a, value, chosen, ttl, last);
      marred := before || more;
      FramedCompose(plane0, cells0, old(plane), old(cells), plane, cells, a);
      FreeCountGrows(old(asked), asked, askFrom);
      PassesCompose(plane0, cells0, old(plane), old(cells), plane, cells, log0, old(log), log, awaits, a, value, chosen, ttl, last,
                    r, lastError, before, more);
    }

    /** The state of a write after one more pass. */
    lemma PassesCompose(p0: PlaneState, c0: map<Cell, V>, p1: PlaneState, c1: map<Cell, V>, p2: PlaneState, c2: map<Cell, V>,
                        log0: seq<Written>, log1: seq<Written>, log2: seq<Written>, n: nat, a: KeyAddress, value: V, chosen: TierId, ttl: nat,
                        last: CacheError, r: Option<Outcome>, lastError: CacheError, m1: bool, m2: bool)
      requires OnlyFailures(last, chosen, log0, log1) && InVain(p0, c0, p1, c1, log1, a, |log0|, m1)
      requires log1 <= log2 && Descends(log2, |log1|, chosen.Index() + 1) && (bound == 0 ==> log2 == log1)
      requires r.None? ==> Tried(log1, log2, 0, chosen.Index() + 1, last, lastError)
      requires Undisturbed(a) && r == Some(Success) ==> Finished(c1, p2, c2, n, a, value, chosen.Index() + 1, ttl, m2)
      requires r != Some(Success) ==> InVain(p1, c1, p2, c2, log2, a, |log1|, m2)
      ensures |log2| <= |log1| + (chosen.Index() + 1) * MAX_COMMIT_ATTEMPTS && RungsWithin(log2, |log0|, 0, chosen.Index())
      ensures r.None? ==> |log2| >= |log1| + Min(bound, chosen.Index() + 1) && OnlyFailures(lastError, chosen, log0, log2)
      ensures Undisturbed(a) && r == Some(Success) ==> Finished(c0, p2, c2, n, a, value, chosen.Index() + 1, ttl, m1 || m2)
      ensures r != Some(Success) ==> InVain(p0, c0, p2, c2, log2, a, |log0|, m1 || m2)
    {
      StillDescending(log0, log1, log2, chosen.Index() + 1);
      if r.None? {
        StillOnlyFailures(log0, log1, log2, chosen, last, lastError);
      }
      if r != Some(Success) {
        VainAgain(p0, c0, p1, c1, p2, c2, log1, log2, a, |log0|, m1, m2);
      } else if Undisturbed(a) {
        FinishedAfter(p0, c0, p1, c1, p2, c2, log1, n, a, value, |log0|, chosen.Index() + 1, ttl, m1, m2);
      }
    }

    lemma StillDescending(log0: seq<Written>, log1: seq<Written>, log2: seq<Written>, top: nat)
      requires log0 <= log1 <= log2 && 0 < top && RungsWithin(log1, |log0|, 0, top - 1) && Descends(log2, |log1|, top)
      ensures |log2| <= |log1| + top * MAX_COMMIT_ATTEMPTS && RungsWithin(log2, |log0|, 0, top - 1)
    {
      DescentIsBounded(log2, |log1|, top);
      StillWithin(log1, log2, |log0|, 0, top - 1);
    }

    lemma StillOnlyFailures(log0: seq<Written>, log1: seq<Written>, log2: seq<Written>, chosen: TierId, last: CacheError, lastError: CacheError)
      requires OnlyFailures(last, chosen, log0, log1) && Tried(log1, log2, 0, chosen.Index() + 1, last, lastError)
      requires RungsWithin(log2, |log0|, 0, chosen.Index())
      ensures |log2| >= |log1| + Min(bound, chosen.Index() + 1) && OnlyFailures(lastError, chosen, log0, log2)
    {
    }

    /** Every write so far was on a rung up to the chosen one and has failed, the last one with `last`. */
    ghost predicate OnlyFailures(last: CacheError, chosen: TierId, log0: seq<Written>, log1: seq<Written>) {
      && log0 <= log1 && (bound == 0 ==> log1 == log0) && RungsWithin(log1, |log0|, 0, chosen.Index())
      && IsRungLevel(last) && (if |log1| == |log0| then last.TierUnavailable? else LastAnswer(log1, |log0|, Some(last)))
    }

    /** What a pass did about room: another pass has one more slot freed behind it; a pass that ends for want of room has asked in vain. */
    ghost predicate Reclaimed(r: Option<Outcome>, again: bool, lastError: CacheError, count: nat, asked: seq<Ask>, askFrom: nat) {
      && FreeCount(asked, askFrom) == count + (if again then 1 else 0)
      && (again ==> r.None? && askFrom < |asked| && asked[|asked| - 1].Frees())
      && (r.None? && lastError.CapacityExhausted? && !again ==> askFrom < |asked| && !asked[|asked| - 1].Frees())
    }

    /** The write from a chosen cache rung: passes until one decides, or none of them freed a slot, or their number is spent. */
    method WriteInPasses(a: KeyAddress, value: V, chosen: TierId, ttl: nat) returns (r: Outcome, ghost marred: bool)
      requires chosen.IsCacheRung()
      modifies this
      ensures |log| <= |old(log)| + (MAX_EVICTION_PASSES + 1) * ((chosen.Index() + 1) * MAX_COMMIT_ATTEMPTS)
      ensures old(log) <= log && RungsWithin(log, |old(log)|, 0, chosen.Index())
      ensures nominations <= old(nominations) + (MAX_EVICTION_PASSES + 1) * MAX_EVICTION_ATTEMPTS
      ensures FramedBarEviction(old(plane), old(cells), plane, cells, a)
      ensures r.Failure? && IsRungLevel(r.error) ==> |log| >= |old(log)| + Min(bound, chosen.Index() + 1)
      ensures old(asked) <= asked && (r.Success? ==> LastAnswer(log, |old(log)|, None))
      ensures r.Failure? ==> ErrorSource(r.error, chosen, log, |old(log)|)
      ensures r == Failure(CapacityExhausted) ==> GaveUp(asked, |old(asked)|)
      ensures AllPlain() ==> !r.Abandoned? && (NeverNominated(a) ==> !marred)
      ensures Undisturbed(a) && EntryIn(old(plane), a).Some? && r.Failure? ==>
                LastAnswer(log, |old(log)|, Some(r.error)) || (r.error.TierUnavailable? && bound == 0)
      ensures Concludes(r, EntryIn(plane, a), cells, awaits, a, value, ttl)
      ensures Undisturbed(a) && HasSlot(EntryIn(old(plane), a), Some(r)) ==>
                IsForetold(Descent(old(awaits), chosen.Index() + 1), r, EntryIn(plane, a))
      ensures Undisturbed(a) && r.Success? ==> Finished(old(cells), plane, cells, awaits, a, value, chosen.Index() + 1, ttl, marred)
      ensures !r.Success? ==> InVain(old(plane), old(cells), plane, cells, log, a, |old(log)|, marred)
    {
      marred := false;
      var lastError := TierUnavailable;
      var pass := 0;
      CallIsFramed(plane, plane, cells, a);
      FramedIsBarEviction(plane, cells, plane, cells, a);
      ghost var perPass := (chosen.Index() + 1) * MAX_COMMIT_ATTEMPTS;
      while pass <= MAX_EVICTION_PASSES
        invariant pass <= MAX_EVICTION_PASSES + 1 && old(awaits) <= awaits && old(nominations) <= nominations
        invariant old(log) <= log && |log| <= |old(log)| + pass * perPass && OnlyFailures(lastError, chosen, old(log), log)
        invariant FramedBarEviction(old(plane), old(cells), plane, cells, a)
        invariant old(asked) <= asked && FreeCount(asked, |old(asked)|) == pass
        invariant pass > 0 ==> |log| >= |old(log)| + Min(bound, chosen.Index() + 1) && |asked| > |old(asked)| && asked[|asked| - 1].Frees()
        invariant AllPlain() && NeverNominated(a) ==> !marred
        invariant pass == 0 ==> awaits == old(awaits) && EntryIn(plane, a) == EntryIn(old(plane), a)
        invariant pass > 0 && Undisturbed(a) ==> Descent(old(awaits), chosen.Index() + 1).RunsOut?
        invariant nominations <= old(nominations) + pass * MAX_EVICTION_ATTEMPTS
        invariant InVain(old(plane), old(cells), plane, cells, log, a, |old(log)|, marred)
      {
        var out, again;
        out, again, lastError, marred := NextPass(a, value, chosen, ttl, lastError, old(plane), old(cells), old(log), |old(asked)|, marred);
        WithinBudget(pass, perPass);
        if out.Some? {
          return out.value, marred;
        }
        pass := pass + 1;
        if !again {
          break;
        }
      }
      return Failure(lastError), marred;
    }

    /**
     The write. It always ends, within its write budget, and writes only rungs up to the chosen one, going
     down within each pass. It disturbs no other key, but may evict some, and never the authority. On an
     undisturbed key it is atomic: either it succeeded and the named rung holds the new value, or no write
     was accepted and the key reads exactly as before, or, when something marred the attempt, the key is
     not readable; and unless the first walk runs out of rungs, it ends as the rungs' answers foretell.
     */
    method Set(a: KeyAddress, value: V, chosen: TierId, ttl: nat) returns (r: Outcome, ghost marred: bool)
      modifies this
      ensures |log| <= |old(log)| + 17 * ((chosen.Index() + 1) * 64)
      ensures old(log) <= log && RungsWithin(log, |old(log)|, 0, Min(chosen.Index(), LAST_CACHE_RUNG_INDEX))
      ensures nominations <= old(nominations) + 17 * 8
      ensures chosen.IsAuthorityRung() ==> r == Failure(PolicyDenied) && unchanged(this)
      ensures FramedBarEviction(old(plane), old(cells), plane, cells, a)
      ensures r.Failure? && IsRungLevel(r.error) ==> |log| >= |old(log)| + Min(bound, chosen.Index() + 1)
      ensures old(asked) <= asked && (r.Success? ==> LastAnswer(log, |old(log)|, None))
      ensures r.Failure? ==> ErrorSource(r.error, chosen, log, |old(log)|)
      ensures r == Failure(CapacityExhausted) && chosen.IsCacheRung() ==> GaveUp(asked, |old(asked)|)
      ensures AllPlain() ==> !r.Abandoned?
      ensures Undisturbed(a) && EntryIn(old(plane), a).Some? && chosen.IsCacheRung() && r.Failure? ==>
                LastAnswer(log, |old(log)|, Some(r.error)) || (r.error.TierUnavailable? && bound == 0)
      ensures AllPlain() && NeverNominated(a) ==> !marred
      ensures chosen.IsCacheRung() ==> Concludes(r, EntryIn(plane, a), cells, awaits, a, value, ttl)
      ensures Undisturbed(a) && chosen.IsCacheRung() && HasSlot(EntryIn(old(plane), a), Some(r)) ==>
                IsForetold(Descent(old(awaits), chosen.Index() + 1), r, EntryIn(plane, a))
      ensures Undisturbed(a) && r.Success? ==> Finished(old(cells), plane, cells, awaits, a, value, chosen.Index() + 1, ttl, marred)
      ensures !r.Success? ==> InVain(old(plane), old(cells), plane, cells, log, a, |old(log)|, marred)
    {
      if chosen.IsAuthorityRung() {
        CallIsFramed(plane, plane, cells, a);
        FramedIsBarEviction(plane, cells, plane, cells, a);
        return Failure(PolicyDenied), false;
      }
      r, marred := WriteInPasses(a, value, chosen, ttl);
    }

    /**
     Move a committed value to another rung: prepare, read the source, write the destination, clear the
     source, commit. On an undisturbed key its outcome and both rungs' contents are what the three awaits
     decide: wherever it stops the value is on the source or the destination, and the entry is readable exactly
     when the move succeeded, naming the rung that holds it. Whatever other tasks do, it leaves no intent.
     */
    method MoveEntry(a: KeyAddress, from: TierId, to: TierId, ttl: nat) returns (r: Outcome)
      requires from != to
      modifies this
      ensures log == old(log) || (old(log) <= log && |log| == |old(log)| + 1 && log[|log| - 1].rung == to.Index())
      ensures from.IsCacheRung() && to.IsCacheRung() ==> Framed(old(plane), old(cells), plane, cells, a)
      ensures Unclaimed(EntryIn(plane, a)) && (r.Success? ==> CommittedAt(EntryIn(plane, a), awaits, to, ttl))
      ensures r.Failure? && LastAnswer(log, |old(log)|, None) ==>
                r.error.StaleGeneration? && awaits > 0 && TakenBack(awaits - 1, cells, Cell(to.Index(), a))
      ensures Undisturbed(a) && EntryIn(old(plane), a).Some? ==>
                && (r.Success? <==> IsReady(EntryIn(plane, a)))
                && if IsBound(from) && IsBound(to) then
                     && r == MoveFate(old(awaits), At(old(cells), from.Index(), a)) && Carried(old(awaits), old(cells), cells, a, from.Index(), to.Index())
                     && (r.Success? || Explains(EntryIn(plane, a), r.Reason()))
                   else r == Failure(TierUnavailable) && cells == old(cells)
      ensures Undisturbed(a) && EntryIn(old(plane), a).Some? && r.Success? ==>
                && At(old(cells), from.Index(), a).Some? && At(cells, to.Index(), a) == At(old(cells), from.Index(), a)
                && awaits == old(awaits) + 3 && At(cells, from.Index(), a) == world(awaits - 1).leftover
      ensures Undisturbed(a) && EntryIn(old(plane), a).Some? ==>
                var value := At(old(cells), from.Index(), a);
                At(cells, from.Index(), a) == value || At(cells, to.Index(), a) == value
    {
      var begun := Begin(a, to, Move);
      if begun.Err? {
        return Failure(begun.error);
      }
      ghost var plane1 := plane;
      r := MovePrepared(a, from, to, ttl, begun.value, EntryIn(old(plane), a));
      MovesFramed(from, to, old(plane), old(cells), plane1, old(cells), plane, cells, a);
    }

    /** The move once its intent is recorded: both rungs must be bound. */
    method MovePrepared(a: KeyAddress, from: TierId, to: TierId, ttl: nat, token: CommitToken, ghost e0: Option<ControlEntry>)
      returns (r: Outcome)
      requires from != to && token.target == to.Index()
      requires IsIntended(EntryIn(plane, a), Move, to) && PreparedOver(e0, EntryIn(plane, a)) && token.generation == EntryIn(plane, a).value.generation
      modifies this
      ensures log == old(log) || (old(log) <= log && |log| == |old(log)| + 1 && log[|log| - 1].rung == to.Index())
      ensures from.IsCacheRung() && to.IsCacheRung() ==> Framed(old(plane), old(cells), plane, cells, a)
      ensures Unclaimed(EntryIn(plane, a)) && (r.Success? ==> CommittedAt(EntryIn(plane, a), awaits, to, ttl))
      ensures r.Failure? && LastAnswer(log, |old(log)|, None) ==>
                r.error.StaleGeneration? && awaits > 0 && TakenBack(awaits - 1, cells, Cell(to.Index(), a))
      ensures Undisturbed(a) ==>
                && (r.Success? <==> IsReady(EntryIn(plane, a))) && (r.Success? ==> awaits == old(awaits) + 3)
                && if IsBound(from) && IsBound(to) then
                     && r == MoveFate(old(awaits), At(old(cells), from.Index(), a)) && Carried(old(awaits), old(cells), cells, a, from.Index(), to.Index())
                     && (r.Success? || Explains(EntryIn(plane, a), r.Reason()))
                   else r == Failure(TierUnavailable) && cells == old(cells)
    {
      if !IsBound(from) || !IsBound(to) {
        Resolve(a, CacheError.Cancelled, false, world(awaits).now, e0);
        return Failure(TierUnavailable);
      }
      r := CarryMove(a, from, to, ttl, token, e0);
    }

    /** Read one rung. What comes back is what is there, but a value may be missed. */
    method ReadSource(a: KeyAddress, from: TierId) returns (r: Result<V>, dropped: bool)
      modifies this`plane, this`cells, this`awaits
      ensures awaits == old(awaits) + 1 && Framed(old(plane), old(cells), plane, cells, a)
      ensures dropped == world(old(awaits)).cancelled && (dropped ==> r.Err?)
      ensures Undisturbed(a) ==> EntryIn(plane, a) == EntryIn(old(plane), a) && SameBytes(old(cells), cells, a)
      ensures var w := world(old(awaits)); w.Answer().Some? ==> r == Err(w.Answer().value)
      ensures Undisturbed(a) && world(old(awaits)).IsAccepted() ==>
                var source := At(old(cells), from.Index(), a);
                r == if world(old(awaits)).landed && source.Some? then Ok(source.value) else Err(Miss)
    {
      var w := Wait();
      dropped := w.cancelled;
      var value := if w.landed then At(cells, from.Index(), a) else None;
      ghost var plane1, cells1 := plane, cells;
      Resume();
      FramedTwice(old(plane), old(cells), plane1, cells1, plane, cells, a);
      r := if w.Answer().Some? then Err(w.Answer().value) else if value.Some? then Ok(value.value) else Err(Miss);
    }

    /** Read the source, then the rest. */
    method CarryMove(a: KeyAddress, from: TierId, to: TierId, ttl: nat, token: CommitToken, ghost e0: Option<ControlEntry>)
      returns (r: Outcome)
      requires from != to && token.target == to.Index()
      requires PreparedOver(e0, EntryIn(plane, a)) && token.generation == EntryIn(plane, a).value.generation
      modifies this
      ensures log == old(log) || (old(log) <= log && |log| == |old(log)| + 1 && log[|log| - 1].rung == to.Index())
      ensures from.IsCacheRung() && to.IsCacheRung() ==> Framed(old(plane), old(cells), plane, cells, a)
      ensures Unclaimed(EntryIn(plane, a)) && (r.Success? ==> CommittedAt(EntryIn(plane, a), awaits, to, ttl))
      ensures r.Failure? && LastAnswer(log, |old(log)|, None) ==>
                r.error.StaleGeneration? && awaits > 0 && TakenBack(awaits - 1, cells, Cell(to.Index(), a))
      ensures Undisturbed(a) ==> (r.Success? <==> IsReady(EntryIn(plane, a))) && (r.Success? ==> awaits == old(awaits) + 3)
      ensures Undisturbed(a) ==> r == MoveFate(old(awaits), At(old(cells), from.Index(), a)) && (r.Success? || Explains(EntryIn(plane, a), r.Reason()))
      ensures Undisturbed(a) ==> Carried(old(awaits), old(cells), cells, a, from.Index(), to.Index())
    {
      var read, dropped := ReadSource(a, from);
      ghost var plane1, cells1 := plane, cells;
      if read.Err? {
        Resolve(a, read.error, false, world(awaits - 1).now, e0);
        r := if dropped then Abandoned else Failure(read.error);
      } else {
        r := FinishMove(a, read.value, from, to, ttl, token, e0);
      }
      MovesFramed(from, to, old(plane), old(cells), plane1, cells1, plane, cells, a);
    }

    /** The second half of a move, once the source has been read. */
    method FinishMove(a: KeyAddress, value: V, from: TierId, to: TierId, ttl: nat, token: CommitToken, ghost e0: Option<ControlEntry>)
      returns (r: Outcome)
      requires from != to && token.target == to.Index()
      requires Undisturbed(a) ==> PreparedOver(e0, EntryIn(plane, a)) && token.generation == EntryIn(plane, a).value.generation
      modifies this
      ensures old(log) <= log && |log| == |old(log)| + 1 && log[|log| - 1].rung == to.Index()
      ensures from.IsCacheRung() && to.IsCacheRung() ==> Framed(old(plane), old(cells), plane, cells, a)
      ensures Unclaimed(EntryIn(plane, a)) && (r.Success? ==> CommittedAt(EntryIn(plane, a), awaits, to, ttl))
      ensures r.Failure? && LastAnswer(log, |old(log)|, None) ==>
                r.error.StaleGeneration? && awaits > 0 && TakenBack(awaits - 1, cells, Cell(to.Index(), a))
      ensures Undisturbed(a) ==> (r.Success? <==> IsReady(EntryIn(plane, a))) && (r.Success? ==> awaits == old(awaits) + 2)
      ensures Undisturbed(a) ==> r == DeliveryFate(old(awaits)) && (r.Success? || Explains(EntryIn(plane, a), r.Reason()))
      ensures Undisturbed(a) ==> Delivered(old(awaits), old(cells), cells, a, from.Index(), to.Index(), value)
    {
      var target := Cell(to.Index(), a);
      var w := WriteCell(target, value);
      ghost var plane1, cells1 := plane, cells;
      if w.Answer().Some? {
        Resolve(a, w.Answer().value, false, w.now, e0);
        r := if w.cancelled then Abandoned else Failure(w.error.value);
      } else {
        r := SettleMove(a, from, to, ttl, token, e0);
      }
      MovesFramed(from, to, old(plane), old(cells), plane1, cells1, plane, cells, a);
    }

    /** The end of a move, with the value already on the destination: clear the source and commit. */
    method SettleMove(a: KeyAddress, from: TierId, to: TierId, ttl: nat, token: CommitToken, ghost e0: Option<ControlEntry>)
      returns (r: Outcome)
      requires from != to && token.target == to.Index()
      requires Undisturbed(a) ==> PreparedOver(e0, EntryIn(plane, a)) && token.generation == EntryIn(plane, a).value.generation
      modifies this`plane, this`cells, this`awaits
      ensures from.IsCacheRung() && to.IsCacheRung() ==> Framed(old(plane), old(cells), plane, cells, a)
      ensures Unclaimed(EntryIn(plane, a)) && (r.Success? ==> CommittedAt(EntryIn(plane, a), awaits, to, ttl))
      ensures r.Failure? ==> r.error.StaleGeneration? && awaits > 0 && TakenBack(awaits - 1, cells, Cell(to.Index(), a))
      ensures Undisturbed(a) ==> (r.Success? <==> IsReady(EntryIn(plane, a))) && awaits == old(awaits) + 1
      ensures Undisturbed(a) ==> if world(old(awaits)).cancelled then r.Abandoned? && Explains(EntryIn(plane, a), CacheError.Cancelled) else r.Success?
      ensures Undisturbed(a) ==>
                SameBytesBut(old(cells), cells, a, from.Index()) && At(cells, from.Index(), a) == world(old(awaits)).leftover
    {
      var cleared := ClearCell(Cell(from.Index(), a));
      ghost var plane1, cells1 := plane, cells;
      if cleared.cancelled {
        Resolve(a, CacheError.Cancelled, false, cleared.now, e0);
        r := Abandoned;
      } else {
        r := CommitMove(a, to, ttl, token, e0);
      }
      MovesFramed(from, to, old(plane), old(cells), plane1, cells1, plane, cells, a);
    }

    /** Commit the move, or undo the destination write when the token is stale. */
    method CommitMove(a: KeyAddress, to: TierId, ttl: nat, token: CommitToken, ghost e0: Option<ControlEntry>) returns (r: Outcome)
      requires token.target == to.Index() && awaits > 0
      requires Undisturbed(a) ==> PreparedOver(e0, EntryIn(plane, a)) && token.generation == EntryIn(plane, a).value.generation
      modifies this`plane, this`cells, this`awaits
      ensures to.IsCacheRung() ==> Framed(old(plane), old(cells), plane, cells, a)
      ensures Unclaimed(EntryIn(plane, a))
      ensures if r.Success? then CommittedAt(EntryIn(plane, a), awaits, to, ttl) && cells == old(cells) && awaits == old(awaits)
              else awaits == old(awaits) + 1 && r == (if world(old(awaits)).cancelled then Abandoned else Failure(StaleGeneration))
                   && TakenBack(old(awaits), cells, Cell(to.Index(), a))
      ensures Undisturbed(a) ==> r.Success?
    {
      var won := Commit(a, token, to, ttl);
      if won {
        return Success;
      }
      ghost var plane1 := plane;
      var undone := ClearCell(Cell(to.Index(), a));
      if to.IsCacheRung() {
        FramedTwice(old(plane), old(cells), plane1, old(cells), plane, cells, a);
      }
      ghost var plane2, cells2 := plane, cells;
      Resolve(a, StaleGeneration, false, undone.now, e0);
      if to.IsCacheRung() {
        FramedTwice(old(plane), old(cells), plane2, cells2, plane, cells, a);
      }
      r := if undone.cancelled then Abandoned else Failure(StaleGeneration);
    }

    /** One rung toward L0; an entry already there, or on the authority, stays. */
    method Promote(a: KeyAddress, ttl: nat) returns (r: Outcome)
      modifies this
      ensures !IsReady(EntryIn(old(plane), a)) ==> r == Failure(Miss) && EntryIn(plane, a) == EntryIn(old(plane), a) && cells == old(cells)
      ensures IsReady(EntryIn(old(plane), a)) && (EntryIn(old(plane), a).value.tier.L0? || EntryIn(old(plane), a).value.tier.L6?) ==>
                r.Success? && EntryIn(plane, a) == EntryIn(old(plane), a) && cells == old(cells)
      ensures Framed(old(plane), old(cells), plane, cells, a)
      ensures Undisturbed(a) && IsReady(EntryIn(old(plane), a)) && 1 <= EntryIn(old(plane), a).value.tier.Index() <= LAST_CACHE_RUNG_INDEX ==>
                var source := EntryIn(old(plane), a).value.tier;
                var target := FromIndex(source.Index() - 1).value;
                && (r.Success? <==> IsReady(EntryIn(plane, a)))
                && (r.Success? ==> CommittedAt(EntryIn(plane, a), awaits, target, ttl) && At(cells, target.Index(), a) == At(old(cells), source.Index(), a)
                                   && At(cells, source.Index(), a) == world(awaits - 1).leftover)
                && if IsBound(source) && IsBound(target) then
                     r == MoveFate(old(awaits), At(old(cells), source.Index(), a)) && Carried(old(awaits), old(cells), cells, a, source.Index(), target.Index())
                   else r == Failure(TierUnavailable) && cells == old(cells)
    {
      var seen := Call(a, Peek, world(awaits).now);
      CallIsFramed(old(plane), plane, cells, a);
      ghost var plane1 := plane;
      if !seen.snapshot.state.Ready? {
        return Failure(Miss);
      }
      var tier := seen.snapshot.tier;
      if !tier.IsCacheRung() || tier.Index() == 0 {
        return Success;
      }
      r := MoveEntry(a, tier, FromIndex(tier.Index() - 1).value, ttl);
      FramedTwice(old(plane), old(cells), plane1, old(cells), plane, cells, a);
    }

    /** One rung toward L5; an entry already there, or on the authority, stays. */
    method Demote(a: KeyAddress, ttl: nat) returns (r: Outcome)
      modifies this
      ensures !IsReady(EntryIn(old(plane), a)) ==> r == Failure(Miss) && EntryIn(plane, a) == EntryIn(old(plane), a) && cells == old(cells)
      ensures IsReady(EntryIn(old(plane), a)) && (EntryIn(old(plane), a).value.tier.L5? || EntryIn(old(plane), a).value.tier.L6?) ==>
                r.Success? && EntryIn(plane, a) == EntryIn(old(plane), a) && cells == old(cells)
      ensures Framed(old(plane), old(cells), plane, cells, a)
      ensures Undisturbed(a) && IsReady(EntryIn(old(plane), a)) && EntryIn(old(plane), a).value.tier.Index() < LAST_CACHE_RUNG_INDEX ==>
                var source := EntryIn(old(plane), a).value.tier;
                var target := FromIndex(source.Index() + 1).value;
                && (r.Success? <==> IsReady(EntryIn(plane, a)))
                && (r.Success? ==> CommittedAt(EntryIn(plane, a), awaits, target, ttl) && At(cells, target.Index(), a) == At(old(cells), source.Index(), a)
                                   && At(cells, source.Index(), a) == world(awaits - 1).leftover)
                && if IsBound(source) && IsBound(target) then
                     r == MoveFate(old(awaits), At(old(cells), source.Index(), a)) && Carried(old(awaits), old(cells), cells, a, source.Index(), target.Index())
                   else r == Failure(TierUnavailable) && cells == old(cells)
    {
      var seen := Call(a, Peek, world(awaits).now);
      CallIsFramed(old(plane), plane, cells, a);
      ghost var plane1 := plane;
      if !seen.snapshot.state.Ready? {
        return Failure(Miss);
      }
      var tier := seen.snapshot.tier;
      if !tier.IsCacheRung() || tier.Index() >= LAST_CACHE_RUNG_INDEX {
        return Success;
      }
      r := MoveEntry(a, tier, FromIndex(tier.Index() + 1).value, ttl);
      FramedTwice(old(plane), old(cells), plane1, old(cells), plane, cells, a);
    }
  }

  /** A descent of at most `MAX_COMMIT_ATTEMPTS` steps a rung has only so many steps. */
  lemma {:induction false} DescentIsBounded(log: seq<Written>, from: nat, top: nat)
    requires from <= |log| && Descends(log, from, top)
    ensures |log| <= from + top * MAX_COMMIT_ATTEMPTS
    ensures top > 0 ==> RungsWithin(log, from, 0, top - 1)
    decreases top
  {
    if from < |log| {
      assert IsBelow(log, from, from, top);
      var next, lower := from + MAX_COMMIT_ATTEMPTS, top - 1;
      if next < |log| {
        forall i: nat, j: nat | next <= i <= j < |log| ensures IsBelow(log, i, j, lower) {
          assert IsBelow(log, from, i, top) && IsBelow(log, i, j, top);
        }
        DescentIsBounded(log, next, lower);
      }
      forall i: nat | from <= i < |log| ensures IsWithin(log, i, 0, lower) {
        assert IsBelow(log, i, i, top);
      }
    }
  }

  // ---------------------------------------------------------------- the order of a reclaim

  lemma {:induction false} ScanStopsAtSuccess<V>(entries: Plane, nominee: nat -> Nominee<V>, n: nat, rung: nat, top: nat, left: nat)
    ensures var asks := ScanFrom(entries, nominee, n, rung, top, left);
            && |asks| <= left && (rung < top && left > 0 ==> asks != [])
            && forall i :: 0 <= i < |asks| - 1 ==> !asks[i].Frees()
    decreases left
  {
    if rung < top && left > 0 {
      var ask := AskFor(entries, nominee(n), rung);
      if !ask.Frees() {
        ScanStopsAtSuccess(AfterAsk(entries, ask), nominee, n + 1, if ask.IsRefused() then rung else rung + 1, top, left - 1);
      }
    }
  }

  /** Rungs are asked from the hottest down, and a rung that did not refuse is not asked again. */
  predicate InLadderOrder(asks: seq<Ask>) {
    forall i, j :: 0 <= i < j < |asks| ==> asks[i].rung <= asks[j].rung && (!asks[i].IsRefused() ==> asks[i].rung < asks[j].rung)
  }

  /** One of the first `k` nominations was the rung's last, and freed nothing. */
  ghost predicate EndedBefore(asks: seq<Ask>, k: nat, rung: nat)
    requires k <= |asks|
  {
    exists i :: 0 <= i < k && asks[i].rung == rung && asks[i].EndsRung()
  }

  /** A reclaim asks bound rungs only, from the hottest down. */
  lemma {:induction false} ScanIsOrdered<V>(entries: Plane, nominee: nat -> Nominee<V>, n: nat, rung: nat, top: nat, left: nat)
    ensures var asks := ScanFrom(entries, nominee, n, rung, top, left);
            InLadderOrder(asks) && forall i :: 0 <= i < |asks| ==> rung <= asks[i].rung < top
    decreases left
  {
    if rung < top && left > 0 {
      var ask := AskFor(entries, nominee(n), rung);
      if !ask.Frees() {
        ScanIsOrdered(AfterAsk(entries, ask), nominee, n + 1, if ask.IsRefused() then rung else rung + 1, top, left - 1);
      }
    }
  }

  /** A rung is asked again exactly when it named a victim that was not given up; otherwise the next one is asked, and none after a victim that was given up and removed. */
  lemma {:induction false} AskedAgainIff<V>(entries: Plane, nominee: nat -> Nominee<V>, n: nat, rung: nat, top: nat, left: nat, i: nat)
    requires var asks := ScanFrom(entries, nominee, n, rung, top, left); i + 1 < |asks|
    ensures var asks := ScanFrom(entries, nominee, n, rung, top, left);
            asks[i + 1].rung == if asks[i].victim.Some? && !asks[i].reserved then asks[i].rung else asks[i].rung + 1
    ensures var asks := ScanFrom(entries, nominee, n, rung, top, left);
            !(asks[i].reserved && asks[i].removed) && (FreedBy(asks) <==> asks[|asks| - 1].reserved && asks[|asks| - 1].removed)
    decreases left
  {
    var ask := AskFor(entries, nominee(n), rung);
    var next := if ask.IsRefused() then rung else rung + 1;
    var rest := ScanFrom(AfterAsk(entries, ask), nominee, n + 1, next, top, left - 1);
    assert ScanFrom(entries, nominee, n, rung, top, left) == [ask] + rest;
    if i > 0 {
      AskedAgainIff(AfterAsk(entries, ask), nominee, n + 1, next, top, left - 1, i - 1);
    }
  }

  /** And it asks a colder rung only after every hotter one has ended without freeing a slot. */
  lemma {:induction false} HotterRungsEnded<V>(entries: Plane, nominee: nat -> Nominee<V>, n: nat, rung: nat, top: nat, left: nat, j: nat, r: nat)
    requires var asks := ScanFrom(entries, nominee, n, rung, top, left); j < |asks| && rung <= r < asks[j].rung
    ensures EndedBefore(ScanFrom(entries, nominee, n, rung, top, left), j, r)
    decreases left
  {
    var asks := ScanFrom(entries, nominee, n, rung, top, left);
    var ask := asks[0];
    if ask.IsRefused() || r > rung {
      var next := if ask.IsRefused() then rung else rung + 1;
      var rest := ScanFrom(AfterAsk(entries, ask), nominee, n + 1, next, top, left - 1);
      assert asks == [ask] + rest;
      HotterRungsEnded(AfterAsk(entries, ask), nominee, n + 1, next, top, left - 1, j - 1, r);
      assert EndedBefore(rest, j - 1, r);
      var i :| 0 <= i < j - 1 && rest[i].rung == r && rest[i].EndsRung();
      assert asks[i + 1] == rest[i];
    } else {
      assert asks[0].rung == r && asks[0].EndsRung();
    }
  }

  /** It frees nothing if and only if every bound rung has ended without freeing a slot, or the budget ran out on a victim that freed none. */
  lemma {:induction false} ScanFailsIff<V>(entries: Plane, nominee: nat -> Nominee<V>, n: nat, rung: nat, top: nat, left: nat)
    ensures var asks := ScanFrom(entries, nominee, n, rung, top, left);
            !FreedBy(asks) <==>
              || (forall r: nat :: rung <= r < top ==> EndedBefore(asks, |asks|, r))
              || (|asks| == left && (left > 0 ==> !asks[left - 1].Frees()))
  {
    var asks := ScanFrom(entries, nominee, n, rung, top, left);
    ScanIsOrdered(entries, nominee, n, rung, top, left);
    ScanStopsAtSuccess(entries, nominee, n, rung, top, left);
    if FreedBy(asks) {
      var last := |asks| - 1;
      forall i | 0 <= i < |asks| && asks[i].EndsRung() ensures asks[i].rung != asks[last].rung {
        assert i < last ==> asks[i].rung < asks[last].rung;
      }
      assert !EndedBefore(asks, |asks|, asks[last].rung);
    }
    if !FreedBy(asks) && |asks| < left {
      ScanEndsAllRungs(entries, nominee, n, rung, top, left);
    }
  }

  lemma {:induction false} ScanEndsAllRungs<V>(entries: Plane, nominee: nat -> Nominee<V>, n: nat, rung: nat, top: nat, left: nat)
    requires var asks := ScanFrom(entries, nominee, n, rung, top, left); |asks| < left && !FreedBy(asks)
    ensures var asks := ScanFrom(entries, nominee, n, rung, top, left);
            forall r: nat :: rung <= r < top ==> EndedBefore(asks, |asks|, r)
    decreases left
  {
    if rung < top {
      var ask := AskFor(entries, nominee(n), rung);
      var next := if ask.IsRefused() then rung else rung + 1;
      var rest := ScanFrom(AfterAsk(entries, ask), nominee, n + 1, next, top, left - 1);
      var asks := [ask] + rest;
      assert asks == ScanFrom(entries, nominee, n, rung, top, left);
      assert rest != [] ==> asks[|asks| - 1] == rest[|rest| - 1];
      ScanEndsAllRungs(AfterAsk(entries, ask), nominee, n + 1, next, top, left - 1);
      forall r: nat | rung <= r < top ensures EndedBefore(asks, |asks|, r) {
        if next <= r {
          assert EndedBefore(rest, |rest|, r);
          var i :| 0 <= i < |rest| && rest[i].rung == r && rest[i].EndsRung();
          assert asks[i + 1] == rest[i];
        } else {
          assert asks[0].rung == r && asks[0].EndsRung();
        }
      }
    }
  }

  ghost predicate IsAsked(asks: seq<Ask>, rung: nat) {
    exists i :: 0 <= i < |asks| && asks[i].rung == rung
  }

  /** A reclaim that frees nothing is documented to have asked every bound rung. It has if and only if its last nomination was the coldest one's. */
  lemma AllAskedIff<V>(entries: Plane, nominee: nat -> Nominee<V>, n: nat, top: nat, left: nat)
    requires 0 < top && 0 < left
    ensures var asks := ScanFrom(entries, nominee, n, 0, top, left);
            asks != [] && ((forall r: nat :: r < top ==> IsAsked(asks, r)) <==> asks[|asks| - 1].rung == top - 1)
  {
    var asks := ScanFrom(entries, nominee, n, 0, top, left);
    ScanIsOrdered(entries, nominee, n, 0, top, left);
    ScanStopsAtSuccess(entries, nominee, n, 0, top, left);
    var last := |asks| - 1;
    if asks[last].rung == top - 1 {
      forall r: nat | r < top ensures IsAsked(asks, r) {
        if r < asks[last].rung {
          HotterRungsEnded(entries, nominee, n, 0, top, left, last, r);
        }
      }
    } else {
      forall i | 0 <= i < |asks| ensures asks[i].rung != top - 1 {
        assert i < last ==> asks[i].rung <= asks[last].rung;
      }
      assert !IsAsked(asks, top - 1);
    }
  }

  /** If the first rung's victims are all refused, the budget is spent there and no other rung is asked. */
  lemma RefusalsHideTheRest<V>(entries: Plane, nominee: nat -> Nominee<V>, n: nat, rung: nat, top: nat, left: nat)
    requires rung < top && forall m: nat :: n <= m < n + left ==> AskFor(entries, nominee(m), rung).IsRefused()
    ensures var asks := ScanFrom(entries, nominee, n, rung, top, left);
            |asks| == left && !FreedBy(asks) && forall i :: 0 <= i < left ==> asks[i].rung == rung
  {
    var asks := seq(left, i requires 0 <= i < left => AskFor(entries, nominee(n + i), rung));
    BudgetSpent(entries, nominee, n, rung, top, asks);
  }

  /** Rungs that name one key over and over, and remove it when asked. */
  function Naming(a: KeyAddress): nat -> Nominee<int> {
    k => Nominee(Some(a), true, None)
  }

  /** L0 names a key that cannot be given up, eight times over; L1's committed, unclaimed key is never asked for. */
  lemma EvictableKeyIsNeverAskedFor(busy: KeyAddress, cold: KeyAddress)
    requires busy != cold
    ensures var e := NewEntry(cold, 0).(state := Ready, tier := L1);
            var asks := ScanFrom(map[cold := e], Naming(busy), 0, 0, 2, MAX_EVICTION_ATTEMPTS);
            Evictable(Some(e)) && !FreedBy(asks) && |asks| == 8 && !IsAsked(asks, 1)
  {
    var e := NewEntry(cold, 0).(state := Ready, tier := L1);
    RefusalsHideTheRest(map[cold := e], Naming(busy), 0, 0, 2, MAX_EVICTION_ATTEMPTS);
  }

  /** Whenever a rung is asked, every colder bound one has been: the documented order. */
  ghost predicate ColdestFirst(asks: seq<Ask>, top: nat) {
    forall j, r: nat :: 0 <= j < |asks| && asks[j].rung < r < top ==> IsAsked(asks[..j], r)
  }

  /** A reclaim keeps the documented order if and only if one rung only is bound. */
  lemma ColdestFirstIff<V>(entries: Plane, nominee: nat -> Nominee<V>, n: nat, top: nat, left: nat)
    requires 0 < top && 0 < left
    ensures ColdestFirst(ScanFrom(entries, nominee, n, 0, top, left), top) <==> top == 1
  {
    var asks := ScanFrom(entries, nominee, n, 0, top, left);
    ScanIsOrdered(entries, nominee, n, 0, top, left);
    assert asks[0].rung == 0;
    if top > 1 {
      assert !IsAsked(asks[..0], 1);
    }
  }

  /** Of two keys that could be given up, one on each rung, it is the hotter one that goes. */
  lemma HottestIsGivenUp(hot: KeyAddress, cold: KeyAddress)
    requires hot != cold
    ensures var entries := map[hot := NewEntry(hot, 0).(state := Ready), cold := NewEntry(cold, 1).(state := Ready, tier := L1)];
            Evictable(Some(entries[cold])) && ScanFrom(entries, Naming(hot), 0, 0, 2, MAX_EVICTION_ATTEMPTS) == [Ask(0, Some(hot), true, true)]
  {
  }

  // ---------------------------------------------------------------- two writers

  /**
   Atomicity does need its key undisturbed. Two writers prepare at one generation for one rung and both
   write it, the second last; the first commits, and readers see the second's bytes, which never commit.
   */
  lemma CommitExposesTheOthersBytes<V>(a: KeyAddress, mine: V, theirs: V)
    ensures var prepare := Prepare(None, L1, Write);
            var first := PlaneStep(PlaneState(map[], 0), a, prepare, 1, true);
            var second := PlaneStep(first.0, a, prepare, 2, true);
            var cell := Cell(1, a);
            var cells := Put(Put(map[], cell, AfterWrite(None, mine, None, true)), cell, AfterWrite(Some(mine), theirs, None, true));
            && first.1.Issued? && second.1.Issued?
            && var won := PlaneStep(second.0, a, Op.Commit(first.1.token.generation, first.1.token.target, 0), 3, true);
            && var lost := PlaneStep(won.0, a, Op.Commit(second.1.token.generation, second.1.token.target, 0), 4, true);
            && won.1 == Done && lost.1 == Refused(StaleGeneration)
            && lost.0.entries[a].state.Ready? && lost.0.entries[a].tier == L1 && At(cells, 1, a) == Some(theirs)
  {
  }

  /** So far the rung's victims were all refused. */
  ghost predicate AllRefused<V>(asks: seq<Ask>, entries: Plane, nominee: nat -> Nominee<V>, n: nat, rung: nat) {
    forall i :: 0 <= i < |asks| ==> asks[i] == AskFor(entries, nominee(n + i), rung) && asks[i].IsRefused()
  }

  /** After refusals the scan goes on with the rung's next victim. */
  lemma {:induction false} ScanAfterRefusals<V>(entries: Plane, nominee: nat -> Nominee<V>, n: nat, rung: nat, top: nat, left: nat, asks: seq<Ask>)
    requires rung < top && |asks| <= left && AllRefused(asks, entries, nominee, n, rung)
    ensures ScanFrom(entries, nominee, n, rung, top, left) == asks + ScanFrom(entries, nominee, n + |asks|, rung, top, left - |asks|)
    decreases |asks|
  {
    if asks != [] {
      assert asks[0] == AskFor(entries, nominee(n + 0), rung);
      forall i | 0 <= i < |asks| - 1 ensures asks[1..][i] == AskFor(entries, nominee(n + 1 + i), rung) && asks[1..][i].IsRefused() {
        assert asks[1..][i] == asks[i + 1];
      }
      ScanAfterRefusals(entries, nominee, n + 1, rung, top, left - 1, asks[1..]);
      assert asks == [asks[0]] + asks[1..];
      ConcatAssociates([asks[0]], asks[1..], ScanFrom(entries, nominee, n + |asks|, rung, top, left - |asks|));
    }
  }

  /** A rung's part of the scan: refusals, then one nomination that is not refused. */
  lemma RungEnded<V>(entries: Plane, nominee: nat -> Nominee<V>, n: nat, rung: nat, top: nat, left: nat, asks: seq<Ask>, ask: Ask, rest: seq<Ask>)
    requires rung < top && |asks| < left && AllRefused(asks, entries, nominee, n, rung)
    requires ask == AskFor(entries, nominee(n + |asks|), rung) && !ask.IsRefused()
    requires ask.Frees() ==> rest == []
    requires !ask.Frees() ==> rest == ScanFrom(AfterAsk(entries, ask), nominee, n + |asks| + 1, rung + 1, top, left - |asks| - 1)
    ensures ScanFrom(entries, nominee, n, rung, top, left) == asks + [ask] + rest
    ensures FreedBy(asks + [ask]) <==> ask.Frees()
  {
    ScanAfterRefusals(entries, nominee, n, rung, top, left, asks);
    assert ScanFrom(entries, nominee, n + |asks|, rung, top, left - |asks|) == [ask] + rest;
    ConcatAssociates(asks, [ask], rest);
  }

  /** Refusals to the end of the budget end the scan. */
  lemma BudgetSpent<V>(entries: Plane, nominee: nat -> Nominee<V>, n: nat, rung: nat, top: nat, asks: seq<Ask>)
    requires rung < top && AllRefused(asks, entries, nominee, n, rung)
    ensures ScanFrom(entries, nominee, n, rung, top, |asks|) == asks && !FreedBy(asks)
  {
    ScanAfterRefusals(entries, nominee, n, rung, top, |asks|, asks);
  }

  lemma WithinBudget(pass: nat, perPass: nat)
    requires pass <= MAX_EVICTION_PASSES
    ensures pass * perPass + perPass == (pass + 1) * perPass <= (MAX_EVICTION_PASSES + 1) * perPass
  {
  }
}
