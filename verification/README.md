# A verified model of the tiered cache's protocols

The cache keeps one control record per key (`Cachelito`) and stores values on a ladder of rungs L0..L5
above an authority L6. A value is visible only when its control record says `Ready`. This project models
the parts on which that promise rests and proves what they promise.

- `Entry`, `Control` give the vocabulary and the effect of each control-plane call on an entry. Every
  public call holds its shard's lock throughout, so each call is one atomic step.
- `ControlRuns`, `PlaneRuns` prove theorems over every run of such steps, on one key and on the whole
  plane: dead credentials stay dead, visibility has provenance, commits are arbitrated, and ownership is
  single exactly as long as no raw stale marker meets an owned entry.
- `Probing`, `Table`, `TableRuns` model the sharded, open-addressed storage in place and prove that call by
  call, and over whole runs, it behaves as one plain map, for every placement of keys, all colliding included.
- `Counting` counts keys by counting slots. `Recovery` models the statistics, the expiry sweep and the recovery
  sweep over that table when nothing else runs; `Interference` lets arbitrary calls of other tasks fall
  between their steps, and states each pass by the planes it meets under its successive locks.
- `Wakeup` is a state machine of waiters interleaved with calls: no wakeup is lost.
- `Manager` models `set`, `move_entry`, eviction, `promote` and `demote` over unreliable rungs. An oracle
  decides at each await what other tasks do before the rung acts and after it has, how the rung answers,
  whether the bytes landed, and whether the task is dropped there, so one contract covers every
  interleaving, failure and cancellation point. That success means committed, and that no attempt leaves
  its intent behind, holds whatever other tasks do. What a task leaves on the rungs, and how the rungs'
  answers decide its outcome, is stated of a key on which no other task's call takes effect meanwhile;
  reads, and claims, commits and reservations that are refused, may come at any time.
- `Stub`, `Fairness` model a rung's index, its pool and its round-robin nomination, and show that the
  rung meets the write contract the manager relies on.
- `Words`, `Integrity`, `Codecs` cover 64-bit FNV-1a (section 2 of draft-eastlake-fnv) and the byte formats.
- `Governor` covers the maintenance planner and the budgeted execution of its moves.

Conventions: time is a parameter; generations are unbounded; a key is its address, the pair of fingerprint
and placement, and two keys with one address are one key to the model; placement is arbitrary; zero
encodes "no TTL" and "never populated", as in the source.

## Where the code and its documentation part ways

The model follows the code.

- An intent can outlive `Prepared`, although src/control/cachelito.rs:432-434 says it cannot: `publish`,
  `fail_with_error`, `release`, `invalidate`, `set_state(Stale)` and `release_population_claim` leave it in
  place. `ControlRuns.IntentOutlivesPrepared` is such a run, and `ControlRuns.IntentRuleIff` says exactly
  which runs keep the documented rule.
- `expired_ready` counts every entry past its TTL whatever its state (src/control/cachelito.rs:1249).
  `Recovery.StaleIsCountedAsExpiredReady` is one that is not ready, `Recovery.ExpiredCountIff` says when the
  count is that of the ready ones, and a sweep does not lower it (`Recovery.SweepLeavesExpiredCount`).
- The comment at src/manager.rs:595-602 says that releasing a move clears its intent; the code keeps it
  (`Recovery.ResolvingClears`), which is why a second sweep reports the same retained moves.
- `set_state(Stale)` checks nothing, and `refresh` calls it after an await (src/manager.rs:1406-1422). Over an
  owned entry it breaks the rule that only busy entries are owned, and the next `acquire` makes a second
  owner (`ControlRuns.TwoOwnersAtOnce`). `ControlRuns.RunIsSoundIff` and
  `ControlRuns.GrantNeedsAClaimableEntry` show that nothing else does.
- `abort_intent_by_address` checks neither age nor generation, so a sweep can abort an intent newer than the
  one it listed, a move's included (`Interference.SweepAbortsNewerMove`). `Interference.SweepResolvesListedIff`
  says exactly when it resolves the one it listed.
- A rung's write takes a hole or an expired slot before the key's own, so a key can own two slots
  (`Stub.DoubledKeyIsReachable`, `Stub.WriteCoversIff`). An older value then comes back when the newer one is
  removed (`Stub.RemovedKeyCanResurface`), or when the newer one has expired and another key's write takes its
  slot (`Stub.DisplacedKeyCanResurface`). `Stub.FixedTierStub.Remove`, `Stub.FixedTierStub.Set` and
  `Stub.FixedTierStub.RemoveIfAddress` say exactly what is readable afterwards.
- The persistent record's deadline is outside its digest, so damage to it goes unnoticed
  (`Codecs.DamageIsNoticedIff`).
- With `hot_heat` at zero the planner can name one entry for both directions (`Governor.MovesBothWaysIff`).
- `try_free_somewhere_in_the_ladder` is described as coldest rung first (src/manager.rs:1221); it scans from L0.
  `Manager.HottestIsGivenUp` is a case, and `Manager.ColdestFirstIff` says that the order is kept exactly when
  one rung only is bound.
- Its `false` is described as every bound rung having refused (src/manager.rs:1228-1232). The eight nominations are
  shared, so a rung may never be asked: `Manager.EvictableKeyIsNeverAskedFor`, `Manager.RefusalsHideTheRest`
  and, exactly, `Manager.AllAskedIff`.
- The manager frames keys in 256 bytes (src/manager.rs:19) where src/key.rs:14 names 512. Frames in between are
  refused: `Codecs.FrameOfMiddlingSizeIsRefused`, and for one `Codecs.KeyOf256BytesIsRefused`.
- `set` by two tasks on one key is not atomic: a commit can expose the other writer's uncommitted bytes
  (`Manager.CommitExposesTheOthersBytes`).

## Model

| member | source | states |
|---|---|---|
| `Entry.FromIndex` | src/tier/mod.rs:40-51 | exactly the numbers 0..6 name a rung, and the map inverts the index |
| `Entry.OnlyTwoErrorsLeaveNoDoubt` | src/manager.rs:192-197 | a failed write leaves no doubt about the rung exactly when it was refused for want of room or at encoding; after any other error the old content and the new are both possible |
| `Control.EffectKeepsIdentity` | src/control/cachelito.rs:233-243 | no call changes an entry's address or its wakeup channel, or moves its generation back or by more than one |
| `Control.WhatACallLeavesAlone` | src/control/cachelito.rs:590-1212 | for each part of an entry, the only calls that can change it |
| `Control.MarkerKeepsFourErrors` | src/control/cachelito.rs:356-366 | four errors are reported to waiters as themselves, every other one as a failed population |
| `Control.SnapshotIsCurrent` | src/control/cachelito.rs:568-588 | a snapshot shows the entry as it stands after the call: its generation, which a grant has advanced, and its expiry included; it shows ownership of a new claim to the claimant only |
| `Control.AnswersTellTheEffect` | src/control/cachelito.rs:695-1212 | a yes means that the entry changed, a no or a refusal that it did not; publish, prepare and commit are refused exactly on a wrong generation, a commit also when nothing is prepared |
| `Control.MissingLooksNew` | src/control/cachelito.rs:850-890 | a missing key answers as a new entry would, but publishing, failing and committing are misses |
| `Control.WhatMakesAnEntry` | src/control/cachelito.rs:490-506 | of a missing key, a claim, a prepare and the raw stale marker leave an entry behind, and no other call |
| `ControlRuns.StepKeepsSound` | src/control/cachelito.rs:590-1212 | every call keeps this: prepared means owned exactly when an intent is recorded, at the entry's generation; an owned entry is busy or stale. The rule that an owned entry is busy is kept if and only if the call is not the raw stale marker on an owned entry |
| `ControlRuns.MarkStaleOverPreparedBreaksSound` | src/control/cachelito.rs:822-834 | the two-call run that leaves an owned stale entry |
| `ControlRuns.RunKeepsIntentSound` | src/control/cachelito.rs:1046-1049 | over every run whatever its calls: the intent clauses, and that an owned entry is busy or stale |
| `ControlRuns.RunIsSoundIff` | src/control/cachelito.rs:604-632 | the whole entry invariant holds throughout a run if and only if the raw stale marker never meets an owned entry in it |
| `ControlRuns.StepKeepsIntentRule` | src/control/cachelito.rs:432-434 | a call keeps "an intent only while prepared" exactly when it is not one of the six calls that settle an entry and leave its intent |
| `ControlRuns.IntentRuleIff` | src/control/cachelito.rs:432-434 | over a run the documented rule holds throughout if and only if no such call meets an intent |
| `ControlRuns.IntentOutlivesPrepared` | src/control/cachelito.rs:771-790 | the run that leaves a writer's intent on an absent entry |
| `ControlRuns.PreparedFreezesGeneration` | src/control/cachelito.rs:1016-1064 | the generation does not move while the entry stays prepared, nested prepares included |
| `ControlRuns.TokenLivesWhilePrepared` | src/control/cachelito.rs:1066-1095 | a preparer's token commits, and names its target, for as long as the entry has stayed prepared; the entry is then ready on that target with its TTL armed, and nothing is left of the intent or of what it interrupted |
| `ControlRuns.GenerationNeverDecreases` | src/control/cachelito.rs:147-156 | over every run |
| `ControlRuns.LaterGrantSupersedes` | src/control/cachelito.rs:590-724 | successive ownership grants carry strictly larger generations, and the earlier owner's publish is refused, changing nothing, in every later state |
| `ControlRuns.GrantIff` | src/control/cachelito.rs:604-632 | in any run a claim is granted exactly on an absent, failed or stale entry, which is then in flight on the claimed rung under the claimant |
| `ControlRuns.GrantCanPublish` | src/control/cachelito.rs:590-724 | a grant can be used: as long as no later call advances the generation, publishing with the granted generation succeeds and leaves the entry ready on the published rung, unowned, with its TTL armed |
| `ControlRuns.PrepareIssues` | src/control/cachelito.rs:1016-1064 | a preparer that expects another generation is refused; otherwise its token names what the entry then records, and what it interrupted is remembered |
| `ControlRuns.FailureIsReported` | src/control/cachelito.rs:733-748 | a failed population stays failed, and readers are told its error, through any calls that cannot replace it |
| `ControlRuns.ClearedIsClaimable` | src/control/cachelito.rs:750-790 | what a release or invalidation leaves is absent, without lifetime or error, and the next claim on it is granted |
| `ControlRuns.ResolutionsDisown` | src/control/cachelito.rs:1152-1212 | however an intent is resolved the entry is unowned; an abort also clears the intent and leaves its error, and restores what was interrupted exactly when proven clean |
| `ControlRuns.GrantNeedsAClaimableEntry` | src/control/cachelito.rs:604-632 | ownership is granted only on an entry that is not busy; an owned entry is granted again if and only if it is stale, which takes an earlier raw stale marker over an owned entry |
| `ControlRuns.MarkedOwnerIsJoined` | src/control/cachelito.rs:822-834 | after such a marker the next claim is granted beside the first |
| `ControlRuns.TwoOwnersAtOnce` | src/manager.rs:1400-1426 | the run of two overlapping refreshes of a ready entry in which both own the population |
| `ControlRuns.NotPreparedWithoutPrepare` | src/control/cachelito.rs:1016-1064 | no sequence of other calls makes an entry prepared, clean aborts of nested prepares included |
| `ControlRuns.CommitsAreSeparatedByPrepare` | src/control/cachelito.rs:1066-1126 | between any two successful commits there is a prepare, so of all writers prepared before a commit at most one wins |
| `ControlRuns.CommittedEntryIsStable` | src/control/cachelito.rs:1152-1212 | a ready entry is left exactly as it is by any sequence of aborts, recoveries, claim releases, acquires, peeks and commits |
| `ControlRuns.RevealedExpiresOnTime` | src/control/cachelito.rs:335-342 | a committed or published value stays readable on its rung, unowned and without error, through any calls that cannot disturb it, and the expiry sweep takes it exactly when its own TTL has run out |
| `ControlRuns.HiddenUntilRevealed` | src/control/cachelito.rs:1187-1200 | an entry neither visible nor one clean abort away from it stays so until a commit or publish takes effect |
| `ControlRuns.WithdrawalAdvances` | src/control/cachelito.rs:750-790 | invalidate, release, unproven abort, recovery abort, claim release and eviction reservation each advance the generation and hide the entry |
| `ControlRuns.WithdrawalHandsOutNothing` | src/control/cachelito.rs:975-1002 | none of them issues a token or a grant |
| `ControlRuns.HandedOutIsCurrent` | src/control/cachelito.rs:1050-1063 | a credential is never ahead of the entry |
| `ControlRuns.HandedOutBeforeWithdrawalIsOld` | src/entry.rs:155-160 | credentials handed out before a withdrawal are older than the entry in every later state |
| `ControlRuns.RevealedAfterWithdrawal` | src/control/cachelito.rs:695-724 | a withdrawn entry that is ready again was revealed by a later commit or publish presenting the generation of that moment |
| `ControlRuns.VisibilityHasProvenance` | src/control/cachelito.rs:953-1212 | and what it presented was handed out after the withdrawal too; no clean abort restores what was withdrawn |
| `ControlRuns.WithdrawnCredentialsAreDead` | src/control/cachelito.rs:975-1002 | tokens and grants from before a withdrawal are refused, and change nothing, in every later state |
| `PlaneRuns.KeysAreIndependent` | src/control/cachelito.rs:564-566 | with calls on all keys interleaved, each entry is what its own calls alone make of a new one, so the theorems on one key hold of every key of the plane |
| `PlaneRuns.PlaneIntentsAreSound` | src/control/cachelito.rs:590-1212 | in every reachable plane, no run excluded, a prepared entry with an intent is owned and at the intent's generation |
| `PlaneRuns.PlaneIsSoundIff` | src/control/cachelito.rs:822-834 | the whole entry invariant holds of every key throughout a run of the plane if and only if the raw stale marker never meets an owned entry |
| `Table.AddressesAreUnique` | src/control/cachelito.rs:439-512 | an address occupies at most one slot |
| `Table.ClearPathMeansAbsent` | src/control/cachelito.rs:452-469 | an empty slot on the probe path, or a full round, proves absence |
| `Table.FindSlot` | src/control/cachelito.rs:452-469 | the probe that stops at the first empty slot finds the address exactly when some slot holds it |
| `Table.FindEmpty` | src/control/cachelito.rs:471-488 | a slot fit for a new entry, and none exactly when every slot belongs to another address |
| `Table.StoreKeepsPlacement` | src/control/cachelito.rs:490-506 | storing keeps every entry reachable past other addresses only |
| `Table.StoreKeepsRefinement` | src/control/cachelito.rs:490-512 | storing one entry updates the plain map at that address and nowhere else |
| `Table.Cachelito.constructor` | src/control/cachelito.rs:532-550 | the empty map, with a zero shard count clamped to one |
| `Table.Cachelito.Find` | src/control/cachelito.rs:508-512 | lookup agrees with the map |
| `Table.Cachelito.FindOrCreate` | src/control/cachelito.rs:490-506 | creation fails if and only if the shard is full of other addresses, and then changes nothing; otherwise it adds a new entry with a channel of its own |
| `Table.Cachelito.Store` | src/control/cachelito.rs:490-506 | the map with one entry replaced |
| `Table.Cachelito.Update` | src/control/cachelito.rs:600-660 | a call's effect on the slot is its effect on the map |
| `Table.Cachelito.Apply` | src/control/cachelito.rs:590-1212 | every public call on the sharded table does to its contents, and answers, exactly what the plain map does; `ControlRuns.GrantCanPublish` says that a grant it answers can be used |
| `Table.Cachelito.ApplyCreating` | src/control/cachelito.rs:590-603 | the same for calls that make a slot on demand |
| `Table.Cachelito.ApplyFinding` | src/control/cachelito.rs:850-890 | the same for calls that do not, missing keys included |
| `TableRuns.NoRoomIffFull` | src/control/cachelito.rs:471-488 | a new key finds no room if and only if its shard already has as many keys as slots |
| `TableRuns.ServeRequests` | src/control/cachelito.rs:527-1212 | any sequence of calls on any table leaves the contents, and gives the replies, of the plain map |
| `TableRuns.ServingIsARun` | src/control/cachelito.rs:527-1212 | from an empty plane that is a run in the sense of the run theorems |
| `TableRuns.RunRequests` | src/control/cachelito.rs:527-1212 | so a new table under any sequence of calls is in a state, and gives replies, of such a run |
| `Counting.AddressesAreCounted` | src/control/cachelito.rs:1228-1256 | counting a shard's slots counts addresses, for no address has two |
| `Counting.ShardHoldsItsKeys` | src/control/cachelito.rs:564-566 | a shard's slots hold exactly the plane's keys of that shard |
| `Counting.CountAllIsKeyCount` | src/control/cachelito.rs:1228-1256 | a pass over all slots counts every key of the plane once |
| `Recovery.TallyCountsOne` | src/control/cachelito.rs:1234-1250 | an entry adds one to exactly the counters of its state, its rung and its other features |
| `Recovery.CollectStats` | src/control/cachelito.rs:1228-1256 | with nothing else running, every counter is the number of keys it names, in the order of the states and of the rungs |
| `Interference.StatsAmidCalls` | src/control/cachelito.rs:1228-1256 | with arbitrary calls between the shards' locks, every counter is the sum of what each shard had at its own moment |
| `Recovery.ExpiredCountIff` | src/control/cachelito.rs:1248-1251 | `expired_ready` is the number of ready entries past their TTL if and only if no other entry is past its own |
| `Recovery.StaleIsCountedAsExpiredReady` | src/control/cachelito.rs:1248-1251 | a run to an entry that is counted though stale |
| `Recovery.SweepLeavesExpiredCount` | src/control/cachelito.rs:1248-1301 | a sweep does not lower that count |
| `Recovery.SweepShard` | src/control/cachelito.rs:1285-1298 | one shard's expired ready entries become stale, and are counted |
| `Recovery.SweepOneShard` | src/control/cachelito.rs:1281-1298 | the same on the table, under the shard's lock: exactly the keys of that shard are swept |
| `Recovery.SweepExpired` | src/control/cachelito.rs:1279-1301 | with nothing else running, the whole plane becomes the swept map and the count is that of its expirable keys |
| `Interference.QuietKeyIsSwept` | src/control/cachelito.rs:1279-1301 | a key nobody calls is as it was until its shard's turn, and swept from then on |
| `Interference.QuietKeysAreCounted` | src/control/cachelito.rs:1279-1301 | and is counted |
| `Interference.SweepAmidCalls` | src/control/cachelito.rs:1279-1301 | with arbitrary calls between the shards' locks, the plane and the count are exactly those of sweeping each shard at its own moment; every key nobody calls ends as a lone sweep would leave it, and is counted |
| `Recovery.ExpirySweepIsIdempotent` | src/control/cachelito.rs:1279-1301 | a second sweep at the same instant changes and counts nothing |
| `Recovery.SweepDemotesAtMostExpired` | src/control/cachelito.rs:1248-1301 | it demotes no more than `expired_ready`, and never an authority entry |
| `Recovery.ListShard` | src/control/cachelito.rs:1309-1317 | exactly one shard's intents recorded by the cutoff, in slot order |
| `Recovery.StaleIntents` | src/control/cachelito.rs:1304-1326 | with nothing else running, every intent recorded by the cutoff is listed, each address once, and nothing else |
| `Recovery.ResolveIntent` | src/control/cachelito.rs:953-973 | an old write is aborted and an old move only loses its claim; the answer says whether anything happened |
| `Recovery.ResolveAll` | src/manager.rs:560-612 | all listed keys are resolved and no other, with exact counts |
| `Recovery.RecoverOlderThan` | src/manager.rs:553-614 | with nothing else running, the plane becomes the recovered map, and the report counts exactly the aborted, retained and released keys |
| `Recovery.RecoveryLeavesNoOldPrepared` | src/manager.rs:553-614 | afterwards no entry is prepared with an intent as old as the cutoff |
| `Recovery.RecoveryAfterAnyRun` | src/manager.rs:553-614 | in particular after any run of the plane, stale markers over owned entries included |
| `Interference.ListingIsOfTheShard` | src/control/cachelito.rs:1309-1317 | what is listed under a shard's lock is exactly that shard's old intents |
| `Interference.RecoverAmidCalls` | src/manager.rs:553-614 | with arbitrary calls of other tasks between listing and resolving: the list is each shard's old intents at its own moment, the report counts exactly the resolutions that took effect, and, as long as new intents are later than the cutoff, no entry is left prepared behind an intent as old as the cutoff |
| `Interference.ResolvingSettles` | src/control/cachelito.rs:953-973 | either resolution settles an entry, whichever intent it carries by then |
| `Interference.SweepResolvesListedIff` | src/control/cachelito.rs:1330-1369 | a resolution that acts resolves the intent it listed if and only if no prepare has taken effect since |
| `Interference.SweepAbortsNewerMove` | src/control/cachelito.rs:1330-1369 | the run in which a sweep that listed an old write, since committed, aborts the newer move and loses the committed value |
| `Recovery.ResolvingClears` | src/control/cachelito.rs:953-973 | a resolution clears the intent exactly when it is a write's and says that it acted; a released move keeps its intent |
| `Recovery.RecoverTwice` | src/manager.rs:553-614 | recovering an entry twice is recovering it once, and leaves nothing to abort or release |
| `Recovery.RecoveryIsIdempotent` | src/manager.rs:553-614 | a second sweep changes no entry, resolves and releases nothing, and reports the same retained moves |
| `Recovery.RacingSweepsCountOnce` | src/control/cachelito.rs:1330-1369 | sweeps interleaved in any order together count each cleared intent exactly once |
| `Wakeup.LeavingBusyNotifies` | src/control/cachelito.rs:714-721 | every exit from in flight and prepared notifies in the same step |
| `Wakeup.PlaneStepKeepsChannels` | src/control/cachelito.rs:233-239 | an entry's channel is never replaced or shared |
| `Wakeup.StepKeepsInv` | src/manager.rs:1778-1804 | a waiter holds its entry's channel and sleeps unwoken only on a busy entry, through every step of any task |
| `Wakeup.NoLostWakeup` | src/manager.rs:1778-1804 | in every reachable state a waiter asleep on an entry neither in flight nor prepared has been notified and can leave |
| `Wakeup.ObserverJoinsIff` | src/manager.rs:1778-1783 | a caller starts to wait exactly on an entry in flight or prepared |
| `Wakeup.RegisteringIsNext` | src/manager.rs:1784-1790 | registering comes before the second read, and changes nothing else |
| `Wakeup.RecheckDecides` | src/manager.rs:1789-1797 | the second read puts a waiter to sleep exactly when its entry is still in flight or prepared, and lets it go otherwise |
| `Wakeup.NotifiedWasReached` | src/manager.rs:1798-1803 | in every run a notified waiter was reached by a call that took effect on its own key while it was registered or asleep |
| `Wakeup.ReachedIsNotified` | src/control/cachelito.rs:714-721 | in every run a call that takes effect on a key, other than a claim or a prepare, notifies the key's registered and sleeping waiters in the same step |
| `Wakeup.WaitersLeaveForAReason` | src/manager.rs:1778-1804 | in every run a waiter stops waiting only at a second read that met a settled entry, or asleep, after such a call, or asleep, when its time is up |
| `Wakeup.WakeupsStayWithTheirKey` | src/control/cachelito.rs:233-239 | a call on one key disturbs no waiter of another |
| `Wakeup.WithoutRecheckAWakeupIsLost` | src/manager.rs:1784-1797 | the run in which a waiter that did not look again would sleep on a settled entry |
| `Manager.PreviousRung` | src/manager.rs:205-210 | one rung down, and off the cache rungs from L0 |
| `Manager.UnharmedCompose` | src/manager.rs:1040-1218 | consecutive unfinished attempts are together no worse than the worst of them |
| `Manager.CacheManager.Call` | src/control/cachelito.rs:590-1212 | a control-plane call as one key sees it, a refusal to make a slot included |
| `Manager.CacheManager.RunOthers` | src/manager.rs:657-677 | the plane and the rungs are exactly what other tasks' calls, one at a time, and changes make of them; keys and rungs they spare are as they were |
| `Manager.ReplaySpares` | src/manager.rs:657-677 | over any sequence of other tasks' calls, an entry on which none takes effect is as it was |
| `Manager.CacheManager.Wait` | src/manager.rs:657-677 | at an await other tasks run before the rung acts |
| `Manager.CacheManager.Resume` | src/manager.rs:657-677 | and after it has acted, before the task goes on |
| `Manager.CacheManager.Begin` | src/manager.rs:1053-1062 | an intent of the given kind and target is prepared over the entry as it was; a write's is in place before every data write, a move's before the source is read |
| `Manager.CacheManager.Commit` | src/control/cachelito.rs:1066-1126 | a token wins if and only if the entry is still prepared at its generation; the entry then names its rung, unclaimed, with the TTL armed; a refused token changes nothing |
| `Manager.CacheManager.Resolve` | src/manager.rs:128-167 | a proven-clean abort restores the entry; any other abort, and the drop of the guard, fails it and leaves no intent, whatever other tasks did; readers of what was prepared are told the error |
| `Manager.CacheManager.WriteCell` | src/manager.rs:192-197 | after a write the rung holds what the outcome contract allows, and the answer is on record; an accepted write is in place unless another task changes that very cell at that await |
| `Manager.CacheManager.ClearCell` | src/manager.rs:1099-1101 | the cell holds what the removal leaves, unless another task changes it at that await, and no other cell changes |
| `Manager.CacheManager.Deliver` | src/manager.rs:1064-1200 | write, then commit or abort, exactly as the rung answers: committed with the new value in place, the TTL armed and every other rung as it was, or unharmed, an indeterminate write's bytes cleared; whatever other tasks do, an attempt that is dropped or in doubt leaves no intent |
| `Manager.CacheManager.Decline` | src/manager.rs:1099-1200 | an indeterminate write is cleared, at one more await, and no other error touches the rung; only a provably empty write restores the entry; readers are told the error |
| `Manager.CacheManager.YieldToWinner` | src/manager.rs:1127-1141 | after a lost race the attempt gives up its intent, first letting the winner run unless it was the last |
| `Manager.CacheManager.WriteOnce` | src/manager.rs:1052-1200 | one attempt on one rung, cancellation included |
| `Manager.CacheManager.WriteAtRung` | src/manager.rs:1050-1200 | at most 64 attempts, all on one rung; it gives up for contention only after 64 writes, each accepted and each refused its commit. Undisturbed, the first attempt decides: committed, refused or dropped exactly as the rung answers, with the rung holding exactly what the write and its clearing leave |
| `Manager.CacheManager.TryRung` | src/manager.rs:1044-1200 | the same after earlier rungs came to nothing |
| `Manager.CacheManager.TryOrStop` | src/manager.rs:1166-1200 | an error of the rung hands over to the next one; any other ends the write with it, and leaves no intent |
| `Manager.IsRungLevel` | src/manager.rs:1166-1185 | of the sixteen errors, ten end a walk, and they are named; the other six send it down |
| `Manager.CacheManager.AnswerSteps` | src/manager.rs:1086-1200 | what the rung answers takes the attempt exactly where the foretold descent goes |
| `Manager.CacheManager.FirstToAcceptTakesIt` | src/manager.rs:1166-1185 | whatever mix of the six errors, each named, the bound rungs above it refuse with, the first rung to accept is where the descent lands |
| `Manager.CacheManager.DescentEndsForAReason` | src/manager.rs:1166-1200 | a descent ends before the last rung only on a cancellation or on an error that is none of the six, and lands only on a bound rung |
| `Manager.CacheManager.StepDown` | src/manager.rs:1044-1049 | an unbound rung is skipped, a bound one tried |
| `Manager.CacheManager.Walk` | src/manager.rs:1041-1208 | whatever other tasks do, the rungs written lie at or below the start and go strictly down within any 64 writes; every bound one is tried unless the write ends before; the error is the last answer, the want of a slot or the race budget spent; success leaves the entry committed, and a walk that ends otherwise leaves no intent. Undisturbed, and unless a new key finds no control slot, it ends exactly as the answers foretell: on the first rung to accept, with the first error that is none of the six, dropped, or past the last rung |
| `Manager.DescentIsBounded` | src/manager.rs:1041-1208 | such a walk makes at most 64 writes a rung |
| `Manager.CacheManager.Reserve` | src/control/cachelito.rs:975-1002 | eviction is authorised exactly on a ready, unowned, intent-free entry, which goes stale one generation on; otherwise nothing changes |
| `Manager.SparedCompose` | src/manager.rs:1265-1302 | a key the write does not own is as it was or evicted, and never evicted twice |
| `Manager.CacheManager.Nominate` | src/manager.rs:1273-1299 | one nomination: the named victim is given up exactly if it can be, and its slot goes if the rung removes it |
| `Manager.CacheManager.TryEvictAtRung` | src/manager.rs:1265-1302 | the rung is asked until a victim is not refused or the shared budget is spent; a slot is freed exactly when the last victim was given up and removed; every key is as it was or evicted |
| `Manager.CacheManager.TryFree` | src/manager.rs:1233-1244 | the victims asked for are exactly those of the scan from L0, at most eight, and a slot is freed exactly when the last was given up and removed |
| `Manager.ScanIsOrdered` | src/manager.rs:1233-1244 | bound rungs only, from the hottest down, none again after it has ended |
| `Manager.AskedAgainIff` | src/manager.rs:1265-1302 | a rung is asked again exactly when its victim was not given up, and nobody after a victim given up and removed |
| `Manager.HotterRungsEnded` | src/manager.rs:1233-1244 | a colder rung is asked only after every hotter one has ended without freeing a slot |
| `Manager.ScanFailsIff` | src/manager.rs:1228-1244 | nothing is freed if and only if every bound rung has ended so, or the budget ran out |
| `Manager.AllAskedIff` | src/manager.rs:1228-1232 | a reclaim that asked, asked every bound rung if and only if its last nomination was the coldest one's |
| `Manager.RefusalsHideTheRest` | src/manager.rs:1265-1282 | if a rung's next victims, as many as the budget, are all refused, no other rung is asked |
| `Manager.EvictableKeyIsNeverAskedFor` | src/manager.rs:1228-1232 | eight refusals on L0, and L1's evictable key is never asked for |
| `Manager.ColdestFirstIff` | src/manager.rs:1221-1226 | colder rungs are asked before hotter ones if and only if one rung only is bound |
| `Manager.HottestIsGivenUp` | src/manager.rs:1221-1226 | of two evictable keys the hotter one goes |
| `Manager.CacheManager.Pass` | src/manager.rs:1040-1218 | a pass walks the ladder; exactly when the last rung to refuse was full it asks for a victim, and exactly when that frees a slot there is another pass |
| `Manager.CacheManager.NextPass` | src/manager.rs:1040-1218 | the same after earlier passes came to nothing |
| `Manager.CacheManager.WriteInPasses` | src/manager.rs:1040-1218 | at most 17 passes; a write that ends for want of room has asked for victims in vain or has used every pass |
| `Manager.CacheManager.Set` | src/manager.rs:1028-1218 | terminates within 17 x (chosen index + 1) x 64 writes, all on rungs up to the chosen one and so never on the authority, which it leaves alone on every path; every other key is as it was or evicted; the error is the last rung's answer or one of four named others, contention only with its 64 lost races. Whatever other tasks do, success leaves the entry committed with its TTL armed and the value on its rung, unless another task changes that very cell at the last await, and a write that is dropped, or fails on an error no lower rung could help with, leaves no intent. On a key where no other task's call takes effect meanwhile it is atomic under every outcome, interleaving and cancellation: success with the new value on the named rung, the TTL armed and, unless an attempt was in doubt, every other rung as it was; or no write accepted and the key exactly as before; or, where some outcome was in doubt, not readable. Unless a new key finds no control slot, the rungs' answers foretell the outcome: if each bound rung from the chosen one down refuses with one of six errors until one accepts, it succeeds there, and an error that is none of the six ends it; a walk that runs out of rungs returns its last error, or asks for room and goes round again |
| `Manager.CommitExposesTheOthersBytes` | src/manager.rs:1056-1112 | two writers at one generation on one rung: the commit of one makes the other's uncommitted bytes readable |
| `Manager.CacheManager.MoveEntry` | src/manager.rs:1539-1623 | where no other task's call takes effect on the key meanwhile, the outcome and both rungs are exactly what the three awaits decide: read, write, clear. Success leaves the value on the destination and on the source what the clearing leaves there, nothing where the rung obeys; a move cancelled at the clearing leaves the same rungs, not readable; one refused before keeps the source. Wherever it stops the value is on one of the two, and the entry is ready exactly on success. Whatever other tasks do, no intent is left behind, success means committed, and a refused commit takes the destination copy back |
| `Manager.CacheManager.MovePrepared` | src/manager.rs:1560-1566 | the same once the intent is recorded; with a rung unbound nothing is written |
| `Manager.CacheManager.CarriedIsHeld` | src/manager.rs:1600-1607 | what a move leaves always holds the value on the source or the destination, and after a success the source is as the clearing left it |
| `Manager.CacheManager.ReadSource` | src/manager.rs:1568-1579 | a read of the source returns what is there, a miss, or the rung's error, exactly as the rung answers |
| `Manager.CacheManager.CarryMove` | src/manager.rs:1566-1623 | the read of the source and the rest: nothing is written unless the source was read |
| `Manager.CacheManager.FinishMove` | src/manager.rs:1581-1623 | the same from the destination write on: the source is cleared if and only if the destination accepted |
| `Manager.CacheManager.SettleMove` | src/manager.rs:1600-1623 | the clearing of the source and the commit: the source holds what the removal leaves, also when the task is dropped there; success unless it is |
| `Manager.CacheManager.CommitMove` | src/manager.rs:1606-1622 | the commit, or, when the token is stale, the removal of the destination copy and the error |
| `Manager.CacheManager.Promote` | src/manager.rs:1482-1507 | one rung up, the source left as its clearing leaves it, or a failure and not readable, as the three awaits decide; at the top or on the authority no move; a missing entry is a miss |
| `Manager.CacheManager.Demote` | src/manager.rs:1509-1533 | one rung down, never onto the authority, on the same terms |
| `Stub.NewPool` | src/pool.rs:9-26 | zero capacity is a configuration error; otherwise every cell is empty and listed free |
| `Stub.MemoryPool.Allocate` | src/pool.rs:28-36 | fails exactly when no cell is empty, else fills the cell freed last |
| `Stub.MemoryPool.Deallocate` | src/pool.rs:38-45 | frees a cell and lists it last; the free list stays right exactly when the cell was in use |
| `Stub.FindSlot` | src/tier/fixed_tier_stub.rs:143-176 | the first slot of the key in probe order, unless expired |
| `Stub.FindEmpty` | src/tier/fixed_tier_stub.rs:187-207 | the first empty, own or expired slot in probe order |
| `Stub.MatchFromIsComplete` | src/tier/fixed_tier_stub.rs:143-176 | the search misses no slot of the key |
| `Stub.NoUsableMeansFull` | src/tier/fixed_tier_stub.rs:187-207 | no slot is found only when all are live and belong to others |
| `Stub.WrittenIsFirst` | src/tier/fixed_tier_stub.rs:187-207 | what a write stores is what the next search finds, holes and duplicates notwithstanding |
| `Stub.TakingUncoversNext` | src/tier/fixed_tier_stub.rs:143-176 | a slot taken from a key, emptied or given to another, uncovers the key's next slot exactly when it was the first |
| `Stub.EmptySlotMeansEmptyCell` | src/tier/fixed_tier_stub.rs:234-275 | pool allocation cannot fail inside a write that found a slot |
| `Stub.WriteKeepsLinks` | src/tier/fixed_tier_stub.rs:234-275 | occupied slots keep owning distinct cells, all the cells in use between them, and other slots keep their values |
| `Stub.ClearKeepsLinks` | src/tier/fixed_tier_stub.rs:277-287 | likewise when a slot is emptied |
| `Stub.WriteIsSeen` | src/tier/fixed_tier_stub.rs:209-275 | read your write, until it expires |
| `Stub.WriteIsSeenByOthersAs` | src/tier/fixed_tier_stub.rs:209-275 | after a write every other key reads what it would without the slot taken |
| `Stub.OthersChangeIffResurfacing` | src/tier/fixed_tier_stub.rs:154-199 | that differs from before if and only if the slot taken was the key's expired first one and a live older one lies behind it |
| `Stub.DisplacedKeyCanResurface` | src/tier/fixed_tier_stub.rs:154-199 | the two-slot table in which another key's write brings an older value back |
| `Stub.ClearIsSeenAs` | src/tier/fixed_tier_stub.rs:277-287 | after a slot is emptied every key reads what it would without it |
| `Stub.SingleSlotCoversNothing` | src/tier/fixed_tier_stub.rs:277-287 | a key with one slot is gone after its removal |
| `Stub.WriteCoversIff` | src/tier/fixed_tier_stub.rs:187-207 | a write leaves an older value underneath if and only if the key had a slot other than the one taken |
| `Stub.DoubledKeyIsReachable` | src/tier/fixed_tier_stub.rs:187-207 | three writes and a removal that give one key two slots |
| `Stub.RemovedKeyCanResurface` | src/tier/fixed_tier_stub.rs:193-199 | the two-slot table in which removal brings an older value back |
| `Stub.FixedTierStub.constructor` | src/tier/fixed_tier_stub.rs:88-110 | an empty, undamaged rung |
| `Stub.WithCapacity` | src/tier/fixed_tier_stub.rs:88-110 | zero capacity is a configuration error |
| `Stub.FixedTierStub.Get` | src/tier/fixed_tier_stub.rs:209-232 | returns only values written for this key; refuses as corrupted exactly a value that no longer matches its digest |
| `Stub.FixedTierStub.Set` | src/tier/fixed_tier_stub.rs:234-275 | refused exactly when full of other live keys, and then nothing changes; otherwise it meets the write contract, and what another key reads changes if and only if an older value of it resurfaces |
| `Stub.FixedTierStub.WriteSlot` | src/tier/fixed_tier_stub.rs:242-273 | one slot and one cell change; pool, index and log stay in agreement |
| `Stub.FixedTierStub.PlaceValue` | src/tier/fixed_tier_stub.rs:248-262 | an occupied slot keeps its cell, an empty one takes an empty cell, and allocation succeeds |
| `Stub.FixedTierStub.ClearSlot` | src/tier/fixed_tier_stub.rs:277-287 | one slot and its cell are freed, and every key reads what it would without the slot |
| `Stub.FixedTierStub.Remove` | src/tier/fixed_tier_stub.rs:277-287 | afterwards the key reads as what lay underneath, usually nothing; other keys are untouched |
| `Stub.FixedTierStub.RemoveIfAddress` | src/tier/fixed_tier_stub.rs:374-389 | frees the lowest slot of the address, if any, and leaves all others; every key, the address's own included, reads what it would without it |
| `Stub.FixedTierStub.EvictionCandidate` | src/tier/fixed_tier_stub.rs:342-365 | names the next live slot from the cursor and moves past it; with none live, the first occupied one |
| `Fairness.VictimIsNextInRank` | src/tier/fixed_tier_stub.rs:342-365 | the scan from a cursor finds the next live slot round |
| `Fairness.NextVictimRank` | src/tier/fixed_tier_stub.rs:342-365 | successive nominations go up one live slot at a time and wrap |
| `Fairness.NamedAtMostOnce` | src/tier/fixed_tier_stub.rs:342-365 | no slot is named twice in a round |
| `Fairness.NominationIsFair` | src/tier/fixed_tier_stub.rs:342-365 | any m nominations over m live slots name each exactly once |
| `Words.TimesPrimeIsInjective` | src/integrity.rs:40-48 | multiplying by the FNV prime modulo 2^64 loses nothing |
| `Words.XorUndoes` | src/integrity.rs:40-48 | exclusive or with one mask, twice, is the identity |
| `Words.XorBits` | src/integrity.rs:40-48 | each bit of an exclusive or is set exactly where the two words differ |
| `Integrity.Fnv1a` | src/integrity.rs:40-48 | the loop computes the hash state by state |
| `Integrity.LastByteIsFoldedThenMultiplied` | src/integrity.rs:40-48 | each byte is folded in before the multiplication, the order that makes it FNV-1a |
| `Integrity.StatesDiverge` | src/integrity.rs:40-48 | two strings one byte apart agree up to that byte and never meet again |
| `Integrity.OneByteChangeIsNoticed` | src/integrity.rs:40-48 | a one-byte change changes the hash, for every offset |
| `Integrity.LanesOfDigest` | src/integrity.rs:53-58 | each half of a digest is the hash from its own offset, the first lane in the high half |
| `Integrity.OneByteChangesTheDigest` | src/integrity.rs:53-58 | and the two-lane digest |
| `Integrity.LengthsTellCollidingKeysApart` | src/integrity.rs:164-172 | keys whose contents collide in both lanes still have different fingerprints if their lengths differ |
| `Integrity.NeighbouringKeysDiffer` | src/integrity.rs:164-172 | equal-length keys one byte apart never share a fingerprint |
| `Codecs.FrameTenantKey` | src/key.rs:31-49 | writes tenant, separator, key and nothing beyond, or refuses exactly a separator in the tenant or a short buffer and writes nothing |
| `Codecs.FrameOfMiddlingSizeIsRefused` | src/manager.rs:679-688 | of the frames up to 512 bytes the manager refuses exactly those over 256 |
| `Codecs.KeyOf256BytesIsRefused` | src/manager.rs:679-688 | such a frame |
| `Codecs.FrameSplits` | src/key.rs:31-49 | splitting at the first zero byte recovers tenant and key |
| `Codecs.FramingIsInjective` | src/key.rs:31-49 | no two tenant and key pairs share a frame |
| `Codecs.BuildRecord` | src/tier/backends/l4_sled.rs:194-206 | the record reads back as its payload at every time before the saturated deadline and as nothing from then on; its fields are the deadline, the digest and the payload |
| `Codecs.FieldsDetermineRecord` | src/tier/backends/l4_sled.rs:194-206 | no two records have the same fields |
| `Codecs.RecordParts` | src/tier/backends/l4_sled.rs:107-130 | the little-endian fields read back as written |
| `Codecs.RecordRoundTrips` | src/tier/backends/l4_sled.rs:97-130 | a stored record decodes to its deadline and payload until the deadline, and to nothing after |
| `Codecs.LengthThenDeadline` | src/tier/backends/l4_sled.rs:97-130 | a record shorter than 24 bytes is malformed; any other is absent exactly when it has a deadline and that has passed |
| `Codecs.DamagedRecordIsRefused` | src/tier/backends/l4_sled.rs:107-130 | any one damaged byte of the digest or payload decodes to `Corrupted` |
| `Codecs.DamageIsNoticedIff` | src/tier/backends/l4_sled.rs:107-130 | one damaged byte is noticed if and only if it is outside the deadline |
| `Codecs.DamagedDeadlineCanExpire` | src/tier/backends/l4_sled.rs:107-130 | the damaged deadline that hides a live record |
| `Codecs.HexEncode` | src/tier/backends/l5_oxigraph.rs:45-52 | two digits a byte |
| `Codecs.HexDecode` | src/tier/backends/l5_oxigraph.rs:54-70 | accepts exactly even-length hex text of either case, and returns the byte of each pair |
| `Codecs.DigitsOfEitherCase` | src/tier/backends/l5_oxigraph.rs:45-70 | digits are written in lower case and read in either, and no other character is one |
| `Codecs.HexSpellsBytes` | src/tier/backends/l5_oxigraph.rs:45-52 | the text's digit pairs spell the bytes |
| `Codecs.HexRoundTrips` | src/tier/backends/l5_oxigraph.rs:45-70 | decoding undoes encoding, for every byte string |
| `Governor.PlanPromotesTheHottest` | src/governor/mod.rs:580-602 | the budget's worth of hot entries, each once, in descending heat and index, and none left out comes before one chosen |
| `Governor.NoMovesWithoutEvidence` | src/governor/mod.rs:567-576 | without a census or without a read on record nothing is moved, and the plan says which was missing |
| `Governor.PromotionIsEarned` | src/governor/mod.rs:580-602 | an entry is promoted only if it is ready on L1 to L5 and was read at least as often as the setting asks, and whenever it is while budget is left |
| `Governor.PromotionsAreRanked` | src/governor/mod.rs:593-602 | promotions come in descending order of reads, later census entries first among equals |
| `Governor.NoneLeftOutOutranks` | src/governor/mod.rs:593-602 | no eligible entry left out outranks one chosen |
| `Governor.PlanDemotesEveryColdEntry` | src/governor/mod.rs:604-624 | an entry is planned for demotion if and only if budget remains and it is an unread ready entry on a pressed rung above L5; the list is not cut to the budget |
| `Governor.DemotionNeedsPressure` | src/governor/mod.rs:604-624 | with budget left, an unread ready entry above L5 is demoted if and only if its rung has a capacity c > 0 and u / c + 2^-52, u slots in use, both cut at 32 bits, reaches the threshold |
| `Governor.OnlyUnreadEntriesAreDemoted` | src/governor/mod.rs:612-624 | no entry that was read, is not ready, or is on L5 or the authority is demoted, and none once promotions used the budget |
| `Governor.FillingKeepsDemotions` | src/governor/mod.rs:604-624 | filling a rung takes no entry off the list |
| `Governor.PlanRebindsTheDeepest` | src/governor/mod.rs:546-565 | the deepest degraded cache rungs, deepest first and each once, within budget |
| `Governor.RebindNeedsDegradation` | src/governor/mod.rs:546-565 | a rung is rebound, while budget is left, if and only if it is a cache rung observed degraded or unavailable |
| `Governor.PlannedMovesAreCoherent` | src/governor/mod.rs:531-627 | every planned move stays in L0..L5, and none goes both ways when the threshold is at least one |
| `Governor.MovesBothWaysIff` | src/governor/mod.rs:531-627 | exactly when an entry is planned both ways |
| `Governor.ZeroThresholdMovesBothWays` | src/governor/mod.rs:531-627 | an observation for which one is |
| `Governor.ApplyDemotions` | src/governor/mod.rs:370-397 | demotions are requested in order until the budget is spent, by moves and by failures alike, or one is refused for want of room, and no further |
| `Governor.ApplyPromotions` | src/governor/mod.rs:399-414 | promotions are requested in order until moves have spent the rest, and no further |
| `Governor.ApplyMoves` | src/governor/mod.rs:361-417 | both in turn, with exact counts; no more than the budget of moves completes, however the manager answers |

## Left out

- Redis, sled and oxigraph client calls, environment bootstrap and spawned tasks: foreign I/O.
- Telemetry, capability flags, continuity names, display text: reporting, with only easy claims.
- Policy selection, authentication and key encoding ahead of `set`: the chosen rung is a parameter.
- `get`, `get_or_fetch`, `refresh`, their population guard and the fallback scan: single flight is stated of the grants that `acquire` makes, since `get_or_fetch` can populate without one.
- `ShardedTierStub`, the L0..L5 wrappers and `HotRungTier`: thin routing over the stub.
- The raw setters `set_generation` and `set_tier`, `bump_generation` and `resolve_intent`: outside the run theorems; of `set_state` only the stale marker is modelled.
- The slot capacity that `plane_stats` reports beside its counts: a product of two constants.
- Recovery.CollectStats: describes a pass that nothing else interleaves with; `Interference.StatsAmidCalls` covers the rest.
- Recovery.SweepExpired: likewise; `Interference.SweepAmidCalls` covers the rest.
- Recovery.StaleIntents: likewise; `Interference.RecoverAmidCalls` covers the rest.
- Recovery.ResolveAll: likewise.
- Recovery.RecoverOlderThan: likewise.
- Mutex poisoning, the compare-and-swap loss under the lock (src/control/cachelito.rs:633-652, unreachable), and wrap-around of 64-bit generations.
- The arm of `set` for a commit refused otherwise than as stale (src/manager.rs:1142-1148): no call removes an entry, so after a prepare none is.
- Carrying out rebinds in `apply_plan`, and floating-point rounding in occupancy, which is exact here.
- Manager.CacheManager.Set: atomicity is for a key on which no other task's call takes effect during the call, because aborts do not check the token's generation and two writers may share a rung and a generation; `Manager.CommitExposesTheOthersBytes` shows what happens otherwise. The rungs' answers foretell the outcome of the first walk; of a walk after an eviction the contract says what its writes and its last answer were, not where it lands.
- Manager.CacheManager.MoveEntry: the same, and a rung's own expiry is not modelled, though a read of the source may come back empty.
- Manager.CacheManager.Call: the manager holds the plain map that `Table.Cachelito` refines, not the table object itself; whether a slot can be made is then arbitrary.
- Manager.CacheManager.TryEvictAtRung: reservation and removal form one step, as no await separates them; with real threads a rung may have been refilled between them.
- Stub.FixedTierStub.Get: the rule that a value was written under this very key assumes that addresses identify keys, as does the source.
- Fairness.NominationIsFair: for a table whose live slots do not change between the nominations.
