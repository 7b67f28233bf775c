/**
 What holds over every run of control-plane calls on one key, in any order and from any number of
 callers. A run starts at some entry and applies `calls` one atomic step at a time; `After(e, calls, i)`
 is the entry once the first `i` calls have happened.
 */
module ControlRuns {
  import opened Entry
  import opened Control

  datatype Call = Call(op: Op, now: nat)

  function After(e: ControlEntry, calls: seq<Call>, i: nat): ControlEntry
    requires i <= |calls|
  {
    if i == 0 then e else Effect(After(e, calls, i - 1), calls[i - 1].op, calls[i - 1].now)
  }

  /** The reply to call `i` of the run. */
  function ReplyAt(e: ControlEntry, calls: seq<Call>, i: nat): Reply
    requires i < |calls|
  {
    ReplyTo(After(e, calls, i), calls[i].op, calls[i].now)
  }

  predicate TakesAt(e: ControlEntry, calls: seq<Call>, i: nat)
    requires i < |calls|
  {
    Takes(After(e, calls, i), calls[i].op, calls[i].now)
  }

  /** One step further along a run. */
  lemma AfterNext(e: ControlEntry, calls: seq<Call>, i: nat)
    requires i < |calls|
    ensures After(e, calls, i + 1) == Effect(After(e, calls, i), calls[i].op, calls[i].now)
  {
  }

  // ---------------------------------------------------------------- the entry invariant

  /** A prepared entry is owned exactly when its intent is recorded, and that intent has the entry's generation. */
  predicate IntentSound(e: ControlEntry) {
    && (e.state.Prepared? ==> (e.owner <==> e.intent.Some?))
    && (e.state.Prepared? && e.intent.Some? ==> e.intent.value.generation == e.generation)
  }

  /** And only a busy entry is owned. */
  predicate Sound(e: ControlEntry) {
    IntentSound(e) && (e.owner ==> e.Busy())
  }

  /** What remains true of ownership whatever the raw stale marker does. */
  predicate OwnerPlausible(e: ControlEntry) {
    e.owner ==> e.Busy() || e.state.Stale?
  }

  /** Every call keeps the intent clauses. The ownership clause is kept exactly when the raw stale marker does not meet an owned entry. */
  lemma StepKeepsSound(e: ControlEntry, op: Op, now: nat)
    ensures IntentSound(e) ==> IntentSound(Effect(e, op, now))
    ensures OwnerPlausible(e) ==> OwnerPlausible(Effect(e, op, now))
    ensures Sound(e) ==> (Sound(Effect(e, op, now)) <==> !(op.MarkStale? && e.owner))
  {
  }

  /** Call `k` is the raw stale marker, and it meets an owned entry. */
  predicate MarksOwned(e: ControlEntry, calls: seq<Call>, k: nat)
    requires k < |calls|
  {
    calls[k].op.MarkStale? && After(e, calls, k).owner
  }

  /** A reader that saw `Ready`, and marks the entry stale after a writer has prepared it, leaves an owned `Stale` entry. */
  lemma MarkStaleOverPreparedBreaksSound(address: KeyAddress)
    ensures var calls := [Call(Prepare(None, L1, Write), 1), Call(MarkStale, 2)];
            var e := NewEntry(address, 0);
            !Sound(After(e, calls, 2)) && After(e, calls, 2).owner && After(e, calls, 2).state.Stale?
  {
    var e := NewEntry(address, 0);
    var calls := [Call(Prepare(None, L1, Write), 1), Call(MarkStale, 2)];
    AfterNext(e, calls, 0);
    AfterNext(e, calls, 1);
  }

  /** Over every run, whatever its calls. */
  lemma {:induction false} RunKeepsIntentSound(e: ControlEntry, calls: seq<Call>, i: nat)
    requires IntentSound(e) && OwnerPlausible(e) && i <= |calls|
    ensures IntentSound(After(e, calls, i)) && OwnerPlausible(After(e, calls, i))
  {
    if i > 0 {
      RunKeepsIntentSound(e, calls, i - 1);
      StepKeepsSound(After(e, calls, i - 1), calls[i - 1].op, calls[i - 1].now);
    }
  }

  lemma {:induction false} UnmarkedRunIsSound(e: ControlEntry, calls: seq<Call>, i: nat)
    requires Sound(e) && i <= |calls| && forall k :: 0 <= k < i ==> !MarksOwned(e, calls, k)
    ensures Sound(After(e, calls, i))
  {
    if i > 0 {
      UnmarkedRunIsSound(e, calls, i - 1);
      assert !MarksOwned(e, calls, i - 1);
      StepKeepsSound(After(e, calls, i - 1), calls[i - 1].op, calls[i - 1].now);
    }
  }

  /** The whole invariant holds all along a run if and only if the raw stale marker never meets an owned entry in it. */
  lemma RunIsSoundIff(e: ControlEntry, calls: seq<Call>)
    requires Sound(e)
    ensures (forall i :: 0 <= i <= |calls| ==> Sound(After(e, calls, i)))
       <==> (forall k :: 0 <= k < |calls| ==> !MarksOwned(e, calls, k))
  {
    if forall k :: 0 <= k < |calls| ==> !MarksOwned(e, calls, k) {
      forall i | 0 <= i <= |calls| ensures Sound(After(e, calls, i)) {
        UnmarkedRunIsSound(e, calls, i);
      }
    } else {
      var k :| 0 <= k < |calls| && MarksOwned(e, calls, k);
      AfterNext(e, calls, k);
      assert !Sound(After(e, calls, k + 1));
    }
  }

  // ---------------------------------------------------------------- intents that outlive their state

  /** What the snapshot's documentation says of an intent. */
  predicate IntentOnlyWhilePrepared(e: ControlEntry) {
    e.intent.Some? ==> e.state.Prepared?
  }

  /** The call settles an entry and leaves the intent it finds in place. */
  predicate LeavesIntent(e: ControlEntry, op: Op, now: nat) {
    && e.intent.Some? && Takes(e, op, now)
    && (op.Publish? || op.Fail? || op.Release? || op.Invalidate? || op.MarkStale? || op.ReleaseClaim?)
  }

  /** A call keeps the documented rule exactly when it is not one of the six that leave an intent behind. */
  lemma StepKeepsIntentRule(e: ControlEntry, op: Op, now: nat)
    requires IntentOnlyWhilePrepared(e)
    ensures IntentOnlyWhilePrepared(Effect(e, op, now)) <==> !LeavesIntent(e, op, now)
  {
  }

  predicate LeavesIntentAt(e: ControlEntry, calls: seq<Call>, k: nat)
    requires k < |calls|
  {
    LeavesIntent(After(e, calls, k), calls[k].op, calls[k].now)
  }

  lemma LeavingBreaksIntentRule(e: ControlEntry, calls: seq<Call>, k: nat)
    requires k < |calls| && LeavesIntentAt(e, calls, k)
    ensures !IntentOnlyWhilePrepared(After(e, calls, k)) || !IntentOnlyWhilePrepared(After(e, calls, k + 1))
  {
    AfterNext(e, calls, k);
    if IntentOnlyWhilePrepared(After(e, calls, k)) {
      StepKeepsIntentRule(After(e, calls, k), calls[k].op, calls[k].now);
    }
  }

  lemma {:induction false} IntentRuleHolds(e: ControlEntry, calls: seq<Call>, i: nat)
    requires IntentOnlyWhilePrepared(e) && i <= |calls|
    requires forall k :: 0 <= k < i ==> !LeavesIntentAt(e, calls, k)
    ensures IntentOnlyWhilePrepared(After(e, calls, i))
  {
    if i > 0 {
      IntentRuleHolds(e, calls, i - 1);
      assert !LeavesIntentAt(e, calls, i - 1);
      StepKeepsIntentRule(After(e, calls, i - 1), calls[i - 1].op, calls[i - 1].now);
    }
  }

  /** Over a run: the documented rule holds throughout if and only if no such call ever meets an intent. */
  lemma IntentRuleIff(e: ControlEntry, calls: seq<Call>)
    requires IntentOnlyWhilePrepared(e)
    ensures (forall i :: 0 <= i <= |calls| ==> IntentOnlyWhilePrepared(After(e, calls, i)))
       <==> (forall k :: 0 <= k < |calls| ==> !LeavesIntentAt(e, calls, k))
  {
    if forall k :: 0 <= k < |calls| ==> !LeavesIntentAt(e, calls, k) {
      forall i | 0 <= i <= |calls| ensures IntentOnlyWhilePrepared(After(e, calls, i)) {
        IntentRuleHolds(e, calls, i);
      }
    } else {
      var k :| 0 <= k < |calls| && LeavesIntentAt(e, calls, k);
      LeavingBreaksIntentRule(e, calls, k);
    }
  }

  /** An invalidation that overtakes a writer leaves the writer's intent on an absent entry. */
  lemma IntentOutlivesPrepared(address: KeyAddress)
    ensures var calls := [Call(Prepare(None, L1, Write), 1), Call(Invalidate, 2)];
            var e := After(NewEntry(address, 0), calls, 2);
            e.state.Absent? && e.intent == Some(CommitIntent(Write, 1, 0, 1))
  {
    var calls := [Call(Prepare(None, L1, Write), 1), Call(Invalidate, 2)];
    AfterNext(NewEntry(address, 0), calls, 0);
    AfterNext(NewEntry(address, 0), calls, 1);
  }

  /** While the entry stays prepared its generation does not move, so a token issued then stays live. */
  lemma {:induction false} PreparedFreezesGeneration(e: ControlEntry, calls: seq<Call>, i: nat, j: nat)
    requires i <= j <= |calls|
    requires forall k :: i <= k <= j ==> After(e, calls, k).state.Prepared?
    ensures After(e, calls, j).generation == After(e, calls, i).generation
  {
    if i < j {
      assert After(e, calls, j - 1).state.Prepared? && After(e, calls, j).state.Prepared?;
      PreparedFreezesGeneration(e, calls, i, j - 1);
    }
  }

  /** A preparer's token is accepted by `commit` for as long as the entry has stayed prepared, whoever else prepared or aborted cleanly meanwhile. */
  lemma TokenLivesWhilePrepared(e: ControlEntry, calls: seq<Call>, i: nat, j: nat, ttl: nat, now: nat)
    requires i < j <= |calls|
    requires ReplyAt(e, calls, i).Issued?
    requires forall k :: i < k <= j ==> After(e, calls, k).state.Prepared?
    ensures var token := ReplyAt(e, calls, i).token;
            var commit := Commit(token.generation, token.target, ttl);
            var x := Effect(After(e, calls, j), commit, now);
            && ReplyTo(After(e, calls, j), commit, now) == Done
            && x.state.Ready? && x.tier.Index() == token.target && x.ttl == ttl && x.populatedAt == now && x.generation == token.generation
            && !x.owner && x.intent.None? && x.interrupted.Ready? && x.lastError.None?
  {
    PreparedFreezesGeneration(e, calls, i + 1, j);
    AfterNext(e, calls, i);
    assert After(e, calls, j).state.Prepared?;
  }

  // ---------------------------------------------------------------- generations and grants

  lemma {:induction false} GenerationNeverDecreases(e: ControlEntry, calls: seq<Call>, i: nat, j: nat)
    requires i <= j <= |calls|
    ensures After(e, calls, i).generation <= After(e, calls, j).generation
  {
    if i < j {
      GenerationNeverDecreases(e, calls, i, j - 1);
      EffectKeepsIdentity(After(e, calls, j - 1), calls[j - 1].op, calls[j - 1].now);
    }
  }

  /** Call `i` handed population ownership to its caller. */
  predicate GrantAt(e: ControlEntry, calls: seq<Call>, i: nat)
    requires i < |calls|
  {
    calls[i].op.Acquire? && ReplyAt(e, calls, i).snapshot.owner
  }

  /** Single flight: a later grant has a larger generation, and from then on the earlier owner's publish is refused and changes nothing. */
  lemma LaterGrantSupersedes(e: ControlEntry, calls: seq<Call>, i: nat, j: nat, k: nat, tier: TierId, ttl: nat, now: nat)
    requires i < j < |calls| && j < k <= |calls|
    requires GrantAt(e, calls, i) && GrantAt(e, calls, j)
    ensures ReplyAt(e, calls, i).snapshot.generation < ReplyAt(e, calls, j).snapshot.generation
    ensures var late := Publish(ReplyAt(e, calls, i).snapshot.generation, tier, ttl);
            ReplyTo(After(e, calls, k), late, now) == Refused(StaleGeneration)
            && Effect(After(e, calls, k), late, now) == After(e, calls, k)
  {
    AfterNext(e, calls, i);
    AfterNext(e, calls, j);
    GenerationNeverDecreases(e, calls, i + 1, j);
    GenerationNeverDecreases(e, calls, j + 1, k);
  }

  /** A grant finds the entry settled, and takes it. It finds it owned if and only if it finds it stale and owned, which only a raw stale marker over an owned entry brings about. */
  lemma GrantNeedsAClaimableEntry(e: ControlEntry, calls: seq<Call>, i: nat)
    requires Sound(e) && i < |calls| && calls[i].op.Acquire?
    ensures GrantAt(e, calls, i) ==> !After(e, calls, i).Busy() && After(e, calls, i + 1).owner
    ensures After(e, calls, i).owner ==> (GrantAt(e, calls, i) <==> After(e, calls, i).state.Stale?)
    ensures GrantAt(e, calls, i) && After(e, calls, i).owner ==> exists k :: 0 <= k < i && MarksOwned(e, calls, k)
  {
    AfterNext(e, calls, i);
    RunKeepsIntentSound(e, calls, i);
    if GrantAt(e, calls, i) && forall k :: 0 <= k < i ==> !MarksOwned(e, calls, k) {
      UnmarkedRunIsSound(e, calls, i);
    }
  }

  /** Once a raw stale marker has met an owned entry, the next claim is granted beside the first owner's. */
  lemma MarkedOwnerIsJoined(e: ControlEntry, calls: seq<Call>, k: nat)
    requires k + 1 < |calls| && MarksOwned(e, calls, k) && calls[k + 1].op.Acquire?
    ensures After(e, calls, k + 1).owner && GrantAt(e, calls, k + 1)
  {
    AfterNext(e, calls, k);
  }

  /** Two overlapping refreshes: both have seen `Ready`; one marks the entry stale and claims it, then so does the other. */
  lemma TwoOwnersAtOnce(address: KeyAddress)
    ensures var calls := [Call(Acquire(L1), 1), Call(Publish(1, L1, 0), 2), Call(MarkStale, 3), Call(Acquire(L1), 4),
                          Call(MarkStale, 5), Call(Acquire(L1), 6)];
            var e := NewEntry(address, 0);
            After(e, calls, 2).state.Ready? && GrantAt(e, calls, 3) && After(e, calls, 5).owner && GrantAt(e, calls, 5)
  {
    var calls := [Call(Acquire(L1), 1), Call(Publish(1, L1, 0), 2), Call(MarkStale, 3), Call(Acquire(L1), 4),
                  Call(MarkStale, 5), Call(Acquire(L1), 6)];
    var e := NewEntry(address, 0);
    AfterNext(e, calls, 0);
    AfterNext(e, calls, 1);
    AfterNext(e, calls, 2);
    AfterNext(e, calls, 3);
    MarkedOwnerIsJoined(e, calls, 4);
  }

  /** A claim is granted on an absent, failed or stale entry and on no other, and then puts the claimed rung in flight under its caller. */
  lemma GrantIff(e: ControlEntry, calls: seq<Call>, i: nat)
    requires i < |calls| && calls[i].op.Acquire?
    ensures GrantAt(e, calls, i) <==> After(e, calls, i).state in [Absent, Failed, Stale]
    ensures var x := After(e, calls, i + 1);
            if GrantAt(e, calls, i) then x.state.InFlight? && x.owner && x.tier == calls[i].op.tier && x.lastError.None? && x.populatedAt == calls[i].now
                                        && x.ttl == After(e, calls, i).ttl && x.generation == After(e, calls, i).generation + 1
            else x == After(e, calls, i)
  {
    AfterNext(e, calls, i);
  }

  /** A grant can be used: until a call advances the generation, publishing with the granted generation succeeds, and the value is readable on its rung with its TTL armed. */
  lemma GrantCanPublish(e: ControlEntry, calls: seq<Call>, i: nat, j: nat, tier: TierId, ttl: nat, now: nat)
    requires i < j <= |calls| && GrantAt(e, calls, i)
    requires After(e, calls, j).generation == After(e, calls, i + 1).generation
    ensures var publish := Publish(ReplyAt(e, calls, i).snapshot.generation, tier, ttl);
            var x := Effect(After(e, calls, j), publish, now);
            && ReplyTo(After(e, calls, j), publish, now) == Done
            && x.state.Ready? && x.tier == tier && x.ttl == ttl && x.populatedAt == now && !x.owner && x.lastError.None?
  {
    AfterNext(e, calls, i);
    SnapshotIsCurrent(After(e, calls, i), calls[i].op, calls[i].now);
  }

  /** A preparer that expects a generation is refused exactly when the entry has another one; otherwise its token names what the entry then records. */
  lemma PrepareIssues(e: ControlEntry, expected: Option<nat>, target: TierId, kind: IntentKind, now: nat)
    ensures var op := Prepare(expected, target, kind);
            var x := Effect(e, op, now);
            if expected.Some? && expected.value != e.generation then ReplyTo(e, op, now) == Refused(StaleGeneration) && x == e
            else ReplyTo(e, op, now).Issued?
                 && var token := ReplyTo(e, op, now).token;
                 token.address == x.address && token.target == target.Index() && x.state.Prepared? && x.interrupted == e.state
                 && x.intent == Some(CommitIntent(kind, token.target, token.generation, now)) && token.kind == kind
                 && token.generation == x.generation == e.generation
  {
  }

  /** A failed population stays failed, and every reader is told its error, through any calls that cannot replace it. */
  lemma {:induction false} FailureIsReported(e: ControlEntry, calls: seq<Call>, i: nat, j: nat, now: nat)
    requires i < j <= |calls| && calls[i].op.Fail?
    requires forall k :: i < k < j ==> CannotDisturb(calls[k].op) && !calls[k].op.Acquire?
    ensures var x := After(e, calls, j);
            && x.state.Failed? && !x.owner && x.populatedAt == 0 && x.generation == After(e, calls, i).generation
            && ReplyTo(x, Peek, now).snapshot.lastError == Marker(calls[i].op.error)
  {
    if j == i + 1 {
      AfterNext(e, calls, i);
    } else {
      FailureIsReported(e, calls, i, j - 1, now);
      AfterNext(e, calls, j - 1);
    }
  }

  /** What a release or an invalidation leaves is absent, unowned, without lifetime or error, and the next claim is granted. */
  lemma ClearedIsClaimable(e: ControlEntry, calls: seq<Call>, i: nat, tier: TierId, now: nat)
    requires i < |calls| && (calls[i].op.Release? || calls[i].op.Invalidate?)
    ensures var x := After(e, calls, i + 1);
            && x.state.Absent? && !x.owner && x.ttl == 0 && x.populatedAt == 0 && x.lastError.None?
            && x.generation == After(e, calls, i).generation + 1
            && ReplyTo(x, Acquire(tier), now).snapshot.owner
  {
    AfterNext(e, calls, i);
  }

  /** However an intent is resolved, the entry is left unowned; an abort also clears the intent and leaves its error, a claim release leaves both as they were. */
  lemma ResolutionsDisown(e: ControlEntry, op: Op, now: nat)
    requires e.state.Prepared? && e.owner && e.intent.Some?
    requires op.Abort? || op.AbortIntent? || op.ReleaseClaim?
    ensures var x := Effect(e, op, now);
            && !x.owner
            && (if op.ReleaseClaim? then x.intent == e.intent && x.lastError == e.lastError else x.intent.None? && x.lastError == Marker(op.error))
            && (if op.Abort? && op.provenClean then x.state == e.interrupted && x.generation == e.generation
                else x.state.Failed? && x.generation == e.generation + 1)
  {
  }

  // ---------------------------------------------------------------- commit arbitration and stability

  lemma {:induction false} NotPreparedWithoutPrepare(e: ControlEntry, calls: seq<Call>, i: nat, j: nat)
    requires i <= j <= |calls|
    requires !After(e, calls, i).state.Prepared?
    requires forall k :: i <= k < j ==> !calls[k].op.Prepare?
    ensures !After(e, calls, j).state.Prepared?
  {
    if i < j {
      NotPreparedWithoutPrepare(e, calls, i, j - 1);
    }
  }

  predicate CommitsAt(e: ControlEntry, calls: seq<Call>, i: nat)
    requires i < |calls|
  {
    calls[i].op.Commit? && ReplyAt(e, calls, i) == Done
  }

  /** Of all writers prepared before a commit at most one wins: any later winner needs a prepare in between. */
  lemma CommitsAreSeparatedByPrepare(e: ControlEntry, calls: seq<Call>, i: nat, j: nat)
    requires i < j < |calls|
    requires CommitsAt(e, calls, i) && CommitsAt(e, calls, j)
    ensures exists k :: i < k < j && calls[k].op.Prepare?
  {
    if forall k :: i < k < j ==> !calls[k].op.Prepare? {
      AfterNext(e, calls, i);
      NotPreparedWithoutPrepare(e, calls, i + 1, j);
      assert false;
    }
  }

  /** Calls that cannot disturb a committed entry: late aborts and recoveries, claims, reads, and commits that find nothing prepared. */
  predicate CannotDisturb(op: Op) {
    op.Abort? || op.AbortIntent? || op.ReleaseClaim? || op.Acquire? || op.Peek? || op.Commit?
  }

  lemma {:induction false} CommittedEntryIsStable(e: ControlEntry, calls: seq<Call>, i: nat, j: nat)
    requires i <= j <= |calls|
    requires After(e, calls, i).state.Ready?
    requires forall k :: i <= k < j ==> CannotDisturb(calls[k].op)
    ensures After(e, calls, j) == After(e, calls, i)
  {
    if i < j {
      CommittedEntryIsStable(e, calls, i, j - 1);
    }
  }

  // ---------------------------------------------------------------- visibility provenance

  /** The call takes the entry out of sight: it advances the generation without issuing anything. */
  predicate Withdraws(e: ControlEntry, op: Op, now: nat) {
    && Takes(e, op, now)
    && (op.Invalidate? || op.Release? || (op.Abort? && !op.provenClean) || op.AbortIntent?
        || op.ReleaseClaim? || op.ReserveEviction?)
  }

  /** Neither visible nor one clean abort away from being visible. */
  predicate Hidden(e: ControlEntry) {
    !e.state.Ready? && (e.state.Prepared? ==> !e.interrupted.Ready?)
  }

  /** The call made a value visible, presenting `generation`. */
  predicate RevealsAt(e: ControlEntry, calls: seq<Call>, i: nat)
    requires i < |calls|
  {
    (calls[i].op.Commit? || calls[i].op.Publish?) && TakesAt(e, calls, i)
  }

  /** What was revealed stays readable on its rung, unowned and without error, and the expiry sweep takes it exactly when its own TTL has run out. */
  lemma RevealedExpiresOnTime(e: ControlEntry, calls: seq<Call>, i: nat, j: nat, now: nat)
    requires i < j <= |calls| && RevealsAt(e, calls, i)
    requires forall k :: i < k < j ==> CannotDisturb(calls[k].op)
    ensures var r := After(e, calls, j);
            var armed, ttl := calls[i].now, calls[i].op.ttl;
            && r.state.Ready? && !r.owner && r.lastError.None?
            && (calls[i].op.Publish? ==> r.tier == calls[i].op.tier)
            && (calls[i].op.Commit? && calls[i].op.index <= AUTHORITY_RUNG_INDEX ==> r.tier.Index() == calls[i].op.index)
            && (Takes(r, Expire, now) <==> !r.tier.IsAuthorityRung() && ttl != 0 && armed != 0 && now - armed >= ttl)
  {
    AfterNext(e, calls, i);
    CommittedEntryIsStable(e, calls, i + 1, j);
  }

  lemma {:induction false} HiddenUntilRevealed(e: ControlEntry, calls: seq<Call>, i: nat, j: nat)
    requires i <= j <= |calls|
    requires Hidden(After(e, calls, i))
    requires forall k :: i <= k < j ==> !RevealsAt(e, calls, k)
    ensures Hidden(After(e, calls, j))
  {
    if i < j {
      HiddenUntilRevealed(e, calls, i, j - 1);
      assert !RevealsAt(e, calls, j - 1);
    }
  }

  /** Call `j` handed out `generation`, as a commit token or as the snapshot of a claim attempt. */
  predicate HandsOutAt(e: ControlEntry, calls: seq<Call>, j: nat, generation: nat)
    requires j < |calls|
  {
    var reply := ReplyAt(e, calls, j);
    || (reply.Issued? && reply.token.generation == generation)
    || (calls[j].op.Acquire? && reply.Seen? && reply.snapshot.generation == generation)
  }

  /** Callers present only what an earlier call of the run handed out. */
  ghost predicate PresentsOnlyIssued(e: ControlEntry, calls: seq<Call>) {
    forall i :: 0 <= i < |calls| && (calls[i].op.Commit? || calls[i].op.Publish?) ==>
      exists j :: 0 <= j < i && HandsOutAt(e, calls, j, calls[i].op.generation)
  }

  lemma WithdrawalAdvances(e: ControlEntry, calls: seq<Call>, w: nat)
    requires w < |calls| && Withdraws(After(e, calls, w), calls[w].op, calls[w].now)
    ensures After(e, calls, w + 1).generation == After(e, calls, w).generation + 1
    ensures Hidden(After(e, calls, w + 1))
  {
    AfterNext(e, calls, w);
  }

  lemma WithdrawalHandsOutNothing(e: ControlEntry, calls: seq<Call>, w: nat, g: nat)
    requires w < |calls| && Withdraws(After(e, calls, w), calls[w].op, calls[w].now)
    ensures !HandsOutAt(e, calls, w, g)
  {
  }

  lemma HandedOutIsCurrent(e: ControlEntry, calls: seq<Call>, h: nat, g: nat)
    requires h < |calls| && HandsOutAt(e, calls, h, g)
    ensures g <= After(e, calls, h + 1).generation
  {
    AfterNext(e, calls, h);
  }

  lemma HandedOutIsNotAhead(e: ControlEntry, calls: seq<Call>, h: nat, w: nat, g: nat)
    requires h < w <= |calls| && HandsOutAt(e, calls, h, g)
    ensures g <= After(e, calls, w).generation
  {
    HandedOutIsCurrent(e, calls, h, g);
    GenerationNeverDecreases(e, calls, h + 1, w);
  }

  /** Once the generation has moved on at `w`, it stays past what it was there. */
  lemma GenerationStaysPast(e: ControlEntry, calls: seq<Call>, w: nat, i: nat)
    requires w < i <= |calls| && After(e, calls, w).generation < After(e, calls, w + 1).generation
    ensures After(e, calls, w).generation < After(e, calls, i).generation
  {
    GenerationNeverDecreases(e, calls, w + 1, i);
  }

  lemma WithdrawalStaysAhead(e: ControlEntry, calls: seq<Call>, w: nat, i: nat)
    requires w < i <= |calls| && Withdraws(After(e, calls, w), calls[w].op, calls[w].now)
    ensures After(e, calls, w).generation < After(e, calls, i).generation
  {
    WithdrawalAdvances(e, calls, w);
    GenerationStaysPast(e, calls, w, i);
  }

  /** What was handed out before a withdrawal is older than the entry in every later state. */
  lemma HandedOutBeforeWithdrawalIsOld(e: ControlEntry, calls: seq<Call>, h: nat, w: nat, i: nat, g: nat)
    requires h < w < i <= |calls|
    requires HandsOutAt(e, calls, h, g)
    requires Withdraws(After(e, calls, w), calls[w].op, calls[w].now)
    ensures g < After(e, calls, i).generation
  {
    HandedOutIsNotAhead(e, calls, h, w, g);
    WithdrawalStaysAhead(e, calls, w, i);
  }

  lemma RevealedAfterWithdrawal(e: ControlEntry, calls: seq<Call>, w: nat, i: nat) returns (c: nat)
    requires w < i <= |calls|
    requires Withdraws(After(e, calls, w), calls[w].op, calls[w].now)
    requires After(e, calls, i).state.Ready?
    ensures w < c < i && RevealsAt(e, calls, c)
    ensures calls[c].op.generation == After(e, calls, c).generation
  {
    WithdrawalAdvances(e, calls, w);
    if forall k :: w + 1 <= k < i ==> !RevealsAt(e, calls, k) {
      HiddenUntilRevealed(e, calls, w + 1, i);
      assert false;
    }
    c :| w + 1 <= c < i && RevealsAt(e, calls, c);
  }

  /**
   Once withdrawn at call `w`, an entry seen `Ready` at `i` was made visible by a commit or publish `c`
   presenting something handed out at `h`, both after the withdrawal. No clean abort restores what was withdrawn.
   */
  lemma VisibilityHasProvenance(e: ControlEntry, calls: seq<Call>, w: nat, i: nat)
    requires w < i <= |calls|
    requires Withdraws(After(e, calls, w), calls[w].op, calls[w].now)
    requires After(e, calls, i).state.Ready?
    requires PresentsOnlyIssued(e, calls)
    ensures exists h, c ::
              w < h < c < i && RevealsAt(e, calls, c) && HandsOutAt(e, calls, h, calls[c].op.generation)
  {
    var c := RevealedAfterWithdrawal(e, calls, w, i);
    var h :| 0 <= h < c && HandsOutAt(e, calls, h, calls[c].op.generation);
    if h == w {
      WithdrawalHandsOutNothing(e, calls, w, calls[c].op.generation);
    } else if h < w {
      HandedOutBeforeWithdrawalIsOld(e, calls, h, w, c, calls[c].op.generation);
    }
  }

  /** Dead stays dead: what was handed out before a withdrawal is refused in every later state, and changes nothing. */
  lemma WithdrawnCredentialsAreDead(e: ControlEntry, calls: seq<Call>, h: nat, w: nat, i: nat, late: Op, now: nat)
    requires h < w < i <= |calls|
    requires late.Commit? || late.Publish?
    requires HandsOutAt(e, calls, h, late.generation)
    requires Withdraws(After(e, calls, w), calls[w].op, calls[w].now)
    ensures ReplyTo(After(e, calls, i), late, now) == Refused(StaleGeneration)
    ensures Effect(After(e, calls, i), late, now) == After(e, calls, i)
  {
    HandedOutBeforeWithdrawalIsOld(e, calls, h, w, i, late.generation);
  }
}
