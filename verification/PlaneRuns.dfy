/**
 Runs of the whole control plane. Calls on all keys interleave freely, yet each key's entry is exactly
 what its own calls make of it, so every theorem about runs on one key holds of every key of the plane.
 */
module PlaneRuns {
  import opened Entry
  import opened Control
  import opened ControlRuns

  datatype PlaneCall = PlaneCall(address: KeyAddress, op: Op, now: nat, room: bool)

  const EMPTY_PLANE := PlaneState(map[], 0)

  function PlaneAfter(calls: seq<PlaneCall>, i: nat): PlaneState
    requires i <= |calls|
  {
    if i == 0 then EMPTY_PLANE
    else
      var c := calls[i - 1];
      PlaneStep(PlaneAfter(calls, i - 1), c.address, c.op, c.now, c.room).0
  }

  /** The calls among the first `i` that found or made an entry for `a`. */
  function CallsOn(calls: seq<PlaneCall>, i: nat, a: KeyAddress): seq<Call>
    requires i <= |calls|
  {
    if i == 0 then []
    else
      var c := calls[i - 1];
      if c.address == a && a in PlaneAfter(calls, i).entries
      then CallsOn(calls, i - 1, a) + [Call(c.op, c.now)]
      else CallsOn(calls, i - 1, a)
  }

  lemma {:induction false} AfterIgnoresLaterCalls(e: ControlEntry, calls: seq<Call>, more: seq<Call>, i: nat)
    requires i <= |calls|
    ensures After(e, calls + more, i) == After(e, calls, i)
  {
    if i > 0 {
      AfterIgnoresLaterCalls(e, calls, more, i - 1);
    }
  }

  lemma {:induction false} NoCallsWhileAbsent(calls: seq<PlaneCall>, i: nat, a: KeyAddress)
    requires i <= |calls| && a !in PlaneAfter(calls, i).entries
    ensures CallsOn(calls, i, a) == []
  {
    if i > 0 {
      NoCallsWhileAbsent(calls, i - 1, a);
    }
  }

  /** Each key sees only its own calls, starting from a new entry. */
  lemma {:induction false} KeysAreIndependent(calls: seq<PlaneCall>, i: nat, a: KeyAddress)
    requires i <= |calls| && a in PlaneAfter(calls, i).entries
    ensures var e := PlaneAfter(calls, i).entries[a];
            var own := CallsOn(calls, i, a);
            e == After(NewEntry(a, e.channel), own, |own|)
  {
    var c := calls[i - 1];
    var before := PlaneAfter(calls, i - 1);
    var e := PlaneAfter(calls, i).entries[a];
    var own := CallsOn(calls, i - 1, a);
    if c.address == a {
      if a in before.entries {
        KeysAreIndependent(calls, i - 1, a);
        EffectKeepsIdentity(before.entries[a], c.op, c.now);
      } else {
        NoCallsWhileAbsent(calls, i - 1, a);
        EffectKeepsIdentity(NewEntry(a, before.nextChannel), c.op, c.now);
      }
      AfterIgnoresLaterCalls(NewEntry(a, e.channel), own, [Call(c.op, c.now)], |own|);
    } else {
      KeysAreIndependent(calls, i - 1, a);
    }
  }

  /** In every reachable plane a prepared entry is owned exactly when its intent is recorded, at its own generation, and an owned entry is busy or stale. No run is excluded. */
  lemma {:induction false} PlaneIntentsAreSound(calls: seq<PlaneCall>, i: nat, a: KeyAddress)
    requires i <= |calls| && a in PlaneAfter(calls, i).entries
    ensures IntentSound(PlaneAfter(calls, i).entries[a]) && OwnerPlausible(PlaneAfter(calls, i).entries[a])
  {
    var c := calls[i - 1];
    var before := PlaneAfter(calls, i - 1);
    if a in before.entries {
      PlaneIntentsAreSound(calls, i - 1, a);
      StepKeepsSound(before.entries[a], c.op, c.now);
    } else {
      StepKeepsSound(NewEntry(a, before.nextChannel), c.op, c.now);
    }
  }

  /** Call `k` is the raw stale marker, and it meets an owned entry. */
  predicate MarksOwnedKey(calls: seq<PlaneCall>, k: nat)
    requires k < |calls|
  {
    var entries := PlaneAfter(calls, k).entries;
    calls[k].op.MarkStale? && calls[k].address in entries && entries[calls[k].address].owner
  }

  predicate AllSound(p: PlaneState) {
    forall a :: a in p.entries ==> Sound(p.entries[a])
  }

  lemma {:induction false} UnmarkedPlaneIsSound(calls: seq<PlaneCall>, i: nat)
    requires i <= |calls| && forall k :: 0 <= k < i ==> !MarksOwnedKey(calls, k)
    ensures AllSound(PlaneAfter(calls, i))
  {
    if i > 0 {
      var c := calls[i - 1];
      var before := PlaneAfter(calls, i - 1);
      UnmarkedPlaneIsSound(calls, i - 1);
      assert !MarksOwnedKey(calls, i - 1);
      var e := if c.address in before.entries then before.entries[c.address] else NewEntry(c.address, before.nextChannel);
      StepKeepsSound(e, c.op, c.now);
    }
  }

  /** The whole entry invariant holds of every entry throughout a run of the plane if and only if the raw stale marker never meets an owned entry in it. */
  lemma PlaneIsSoundIff(calls: seq<PlaneCall>)
    ensures (forall i :: 0 <= i <= |calls| ==> AllSound(PlaneAfter(calls, i)))
       <==> (forall k :: 0 <= k < |calls| ==> !MarksOwnedKey(calls, k))
  {
    if forall k :: 0 <= k < |calls| ==> !MarksOwnedKey(calls, k) {
      forall i | 0 <= i <= |calls| ensures AllSound(PlaneAfter(calls, i)) {
        UnmarkedPlaneIsSound(calls, i);
      }
    } else {
      var k :| 0 <= k < |calls| && MarksOwnedKey(calls, k);
      var a := calls[k].address;
      StepKeepsSound(PlaneAfter(calls, k).entries[a], calls[k].op, calls[k].now);
      assert PlaneAfter(calls, k + 1).entries[a] == Effect(PlaneAfter(calls, k).entries[a], MarkStale, calls[k].now);
      assert !AllSound(PlaneAfter(calls, k + 1));
    }
  }
}
