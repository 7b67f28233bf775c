/**
 Waiting for another caller's population. A waiter takes a snapshot of a busy entry, registers on the
 entry's channel, reads the entry again, and only then sleeps; calls on every key interleave between
 these steps. No wakeup is lost.
 */
module Wakeup {
  import opened Entry
  import opened Control

  datatype Phase = Observed | Registered | Asleep | Finished

  datatype Waiter = Waiter(address: KeyAddress, channel: nat, phase: Phase, notified: bool)

  datatype System = System(plane: PlaneState, waiters: map<nat, Waiter>)

  datatype Step =
    | CallStep(address: KeyAddress, op: Op, now: nat, room: bool)
    | Observe(w: nat, address: KeyAddress, now: nat)
    | Register(w: nat)
    | Recheck(w: nat)
    | Wake(w: nat)
    | TimeOut(w: nat)

  /** A broadcast reaches the waiters registered on the channel at that moment, and stores nothing for later ones. */
  function Broadcast(waiters: map<nat, Waiter>, channel: nat): map<nat, Waiter> {
    map w | w in waiters ::
      var x := waiters[w];
      if x.channel == channel && (x.phase.Registered? || x.phase.Asleep?) then x.(notified := true) else x
  }

  function Next(s: System, step: Step): System {
    match step
    case CallStep(a, op, now, room) =>
      var plane := PlaneStep(s.plane, a, op, now, room).0;
      var e := if a in s.plane.entries then s.plane.entries[a] else NewEntry(a, s.plane.nextChannel);
      if a in plane.entries && Notifies(e, op, now)
      then System(plane, Broadcast(s.waiters, e.channel))
      else s.(plane := plane)
    case Observe(w, a, now) =>
      var (plane, reply) := PlaneStep(s.plane, a, Peek, now, true);
      if w !in s.waiters && reply.Seen? && (reply.snapshot.state.InFlight? || reply.snapshot.state.Prepared?)
      then System(plane, s.waiters[w := Waiter(a, reply.snapshot.channel, Observed, false)])
      else s.(plane := plane)
    case Register(w) =>
      if w in s.waiters && s.waiters[w].phase.Observed?
      then s.(waiters := s.waiters[w := s.waiters[w].(phase := Registered)])
      else s
    case Recheck(w) =>
      if w in s.waiters && s.waiters[w].phase.Registered? then
        var busy := s.waiters[w].address in s.plane.entries && s.plane.entries[s.waiters[w].address].Busy();
        s.(waiters := s.waiters[w := s.waiters[w].(phase := if busy then Asleep else Finished)])
      else s
    case Wake(w) =>
      if w in s.waiters && s.waiters[w].phase.Asleep? && s.waiters[w].notified
      then s.(waiters := s.waiters[w := s.waiters[w].(phase := Finished)])
      else s
    case TimeOut(w) =>
      if w in s.waiters && s.waiters[w].phase.Asleep?
      then s.(waiters := s.waiters[w := s.waiters[w].(phase := Finished)])
      else s
  }

  const START := System(PlaneState(map[], 0), map[])

  function Run(steps: seq<Step>, i: nat): System
    requires i <= |steps|
  {
    if i == 0 then START else Next(Run(steps, i - 1), steps[i - 1])
  }

  /** No channel belongs to two keys. */
  predicate ChannelsAreOwn(p: PlaneState) {
    && (forall a :: a in p.entries ==> p.entries[a].channel < p.nextChannel)
    && (forall a, b :: a in p.entries && b in p.entries && a != b ==> p.entries[a].channel != p.entries[b].channel)
  }

  /** A waiter holds the channel its key's entry has now, and sleeps unwoken only on a busy entry. */
  predicate WaiterOk(p: PlaneState, x: Waiter) {
    && x.address in p.entries
    && x.channel == p.entries[x.address].channel
    && (x.phase.Asleep? && !x.notified ==> p.entries[x.address].Busy())
  }

  ghost predicate Inv(s: System) {
    ChannelsAreOwn(s.plane) && forall w :: w in s.waiters ==> WaiterOk(s.plane, s.waiters[w])
  }

  /** Whatever leaves the busy states wakes the waiters in the same step. */
  lemma LeavingBusyNotifies(e: ControlEntry, op: Op, now: nat)
    requires e.Busy() && !Effect(e, op, now).Busy()
    ensures Notifies(e, op, now)
  {
  }

  lemma PlaneStepKeepsChannels(p: PlaneState, a: KeyAddress, op: Op, now: nat, room: bool)
    requires ChannelsAreOwn(p)
    ensures ChannelsAreOwn(PlaneStep(p, a, op, now, room).0)
    ensures forall b :: b in p.entries ==>
              b in PlaneStep(p, a, op, now, room).0.entries
              && PlaneStep(p, a, op, now, room).0.entries[b].channel == p.entries[b].channel
  {
    if a in p.entries {
      EffectKeepsIdentity(p.entries[a], op, now);
    } else {
      EffectKeepsIdentity(NewEntry(a, p.nextChannel), op, now);
    }
  }

  /** One waiter through one call: if it sleeps on this key and the entry settles, it is woken. */
  lemma CallKeepsWaiter(s: System, step: Step, w: nat)
    requires Inv(s) && step.CallStep? && w in s.waiters
    ensures WaiterOk(Next(s, step).plane, Next(s, step).waiters[w])
  {
    var CallStep(a, op, now, room) := step;
    PlaneStepKeepsChannels(s.plane, a, op, now, room);
    var x := s.waiters[w];
    assert WaiterOk(s.plane, x);
    if x.address == a {
      var e := s.plane.entries[a];
      if e.Busy() && !Effect(e, op, now).Busy() {
        LeavingBusyNotifies(e, op, now);
      }
    }
  }

  lemma CallKeepsInv(s: System, step: Step)
    requires Inv(s) && step.CallStep?
    ensures Inv(Next(s, step))
  {
    PlaneStepKeepsChannels(s.plane, step.address, step.op, step.now, step.room);
    forall w | w in Next(s, step).waiters ensures WaiterOk(Next(s, step).plane, Next(s, step).waiters[w]) {
      CallKeepsWaiter(s, step, w);
    }
  }

  lemma ObserveKeepsInv(s: System, w: nat, a: KeyAddress, now: nat)
    requires Inv(s)
    ensures Inv(Next(s, Observe(w, a, now)))
  {
    PlaneStepKeepsChannels(s.plane, a, Peek, now, true);
    var next := Next(s, Observe(w, a, now));
    forall x | x in next.waiters ensures WaiterOk(next.plane, next.waiters[x]) {
      assert x in s.waiters ==> WaiterOk(s.plane, s.waiters[x]);
    }
  }

  /** The steps a waiter takes alone change no entry. */
  lemma WaiterStepKeepsInv(s: System, step: Step)
    requires Inv(s) && !step.CallStep? && !step.Observe?
    ensures Inv(Next(s, step))
  {
    var next := Next(s, step);
    forall x | x in next.waiters ensures WaiterOk(next.plane, next.waiters[x]) {
      assert WaiterOk(s.plane, s.waiters[x]);
    }
  }

  lemma StepKeepsInv(s: System, step: Step)
    requires Inv(s)
    ensures Inv(Next(s, step))
  {
    match step
    case CallStep(_, _, _, _) => CallKeepsInv(s, step);
    case Observe(w, a, now) => ObserveKeepsInv(s, w, a, now);
    case _ => WaiterStepKeepsInv(s, step);
  }

  lemma {:induction false} RunKeepsInv(steps: seq<Step>, i: nat)
    requires i <= |steps|
    ensures Inv(Run(steps, i))
  {
    if i > 0 {
      RunKeepsInv(steps, i - 1);
      StepKeepsInv(Run(steps, i - 1), steps[i - 1]);
    }
  }

  /** In no reachable state does a waiter sleep, unwoken, on an entry that is neither in flight nor prepared. */
  lemma NoLostWakeup(steps: seq<Step>, i: nat, w: nat)
    requires i <= |steps| && w in Run(steps, i).waiters
    ensures var s := Run(steps, i);
            var x := s.waiters[w];
            x.address in s.plane.entries
            && (x.phase.Asleep? && s.plane.entries[x.address].state !in [InFlight, Prepared] ==>
                  x.notified && Next(s, Wake(w)).waiters[w].phase.Finished?)
  {
    RunKeepsInv(steps, i);
    assert WaiterOk(Run(steps, i).plane, Run(steps, i).waiters[w]);
  }

  /** A call on one key disturbs no waiter of another, in any reachable state. */
  lemma WakeupsStayWithTheirKey(steps: seq<Step>, i: nat, w: nat, step: Step)
    requires i <= |steps| && w in Run(steps, i).waiters && step.CallStep?
    requires Run(steps, i).waiters[w].address != step.address
    ensures Next(Run(steps, i), step).waiters[w] == Run(steps, i).waiters[w]
  {
    RunKeepsInv(steps, i);
    assert WaiterOk(Run(steps, i).plane, Run(steps, i).waiters[w]);
  }

  /** The second read is what makes it so: a waiter that slept without it could sleep on a settled entry for good. */
  lemma WithoutRecheckAWakeupIsLost(a: KeyAddress)
    ensures var steps := [CallStep(a, Acquire(L1), 1, true), Observe(0, a, 2), CallStep(a, Publish(1, L1, 0), 3, true), Register(0)];
            var s := Run(steps, 4);
            0 in s.waiters && s.waiters[0].phase.Registered? && !s.waiters[0].notified
            && a in s.plane.entries && !s.plane.entries[a].Busy()
  {
    var steps := [CallStep(a, Acquire(L1), 1, true), Observe(0, a, 2), CallStep(a, Publish(1, L1, 0), 3, true), Register(0)];
    assert Run(steps, 0) == START;
    assert Run(steps, 1) == Next(START, steps[0]);
    assert Run(steps, 2) == Next(Run(steps, 1), steps[1]);
    assert Run(steps, 3) == Next(Run(steps, 2), steps[2]);
    assert Run(steps, 4) == Next(Run(steps, 3), steps[3]);
  }

  // ---------------------------------------------------------------- what a waiter does

  /** A waiter not seen before joins exactly on an entry in flight or prepared, on that entry's channel. */
  lemma ObserverJoinsIff(s: System, w: nat, a: KeyAddress, now: nat)
    requires w !in s.waiters
    ensures var after := Next(s, Observe(w, a, now)).waiters;
            if a in s.plane.entries && s.plane.entries[a].state in [InFlight, Prepared]
            then after == s.waiters[w := Waiter(a, s.plane.entries[a].channel, Observed, false)]
            else after == s.waiters
  {
  }

  /** The second read puts a registered waiter to sleep exactly when its entry is still in flight or prepared, and lets it go otherwise. */
  lemma RecheckDecides(s: System, w: nat)
    requires w in s.waiters && s.waiters[w].phase.Registered?
    ensures var a := s.waiters[w].address;
            var busy := a in s.plane.entries && s.plane.entries[a].state in [InFlight, Prepared];
            var x := Next(s, Recheck(w)).waiters[w];
            x == s.waiters[w].(phase := if busy then Asleep else Finished)
  {
  }

  /** Only an observed waiter registers, and registering changes nothing else. */
  lemma RegisteringIsNext(s: System, w: nat)
    requires w in s.waiters
    ensures Next(s, Register(w)).waiters[w]
         == if s.waiters[w].phase.Observed? then s.waiters[w].(phase := Registered) else s.waiters[w]
  {
  }

  /** Call `k` of the run reached waiter `w`: it took effect on the waiter's own key, without claiming or preparing it, while the waiter was registered or asleep there. */
  ghost predicate Reaches(steps: seq<Step>, k: nat, w: nat)
    requires k < |steps|
  {
    var s := Run(steps, k);
    && steps[k].CallStep? && w in s.waiters && (s.waiters[w].phase.Registered? || s.waiters[w].phase.Asleep?)
    && steps[k].address == s.waiters[w].address && steps[k].address in s.plane.entries
    && Takes(s.plane.entries[steps[k].address], steps[k].op, steps[k].now)
    && !steps[k].op.Acquire? && !steps[k].op.Prepare?
  }

  /** Every call that reaches a waiter notifies it in the same step. */
  lemma ReachedIsNotified(steps: seq<Step>, k: nat, w: nat)
    requires k < |steps| && Reaches(steps, k, w)
    ensures w in Run(steps, k + 1).waiters && Run(steps, k + 1).waiters[w].notified
  {
    var s := Run(steps, k);
    RunKeepsInv(steps, k);
    assert WaiterOk(s.plane, s.waiters[w]);
    assert Run(steps, k + 1) == Next(s, steps[k]);
  }

  /** A notified waiter was reached by some call. */
  lemma {:induction false} NotifiedWasReached(steps: seq<Step>, i: nat, w: nat)
    requires i <= |steps| && w in Run(steps, i).waiters && Run(steps, i).waiters[w].notified
    ensures exists k: nat :: k < i && Reaches(steps, k, w)
  {
    if i > 0 {
      var s, step := Run(steps, i - 1), steps[i - 1];
      RunKeepsInv(steps, i - 1);
      if w in s.waiters && s.waiters[w].notified {
        NotifiedWasReached(steps, i - 1, w);
      } else {
        assert w in s.waiters ==> WaiterOk(s.plane, s.waiters[w]);
        assert Reaches(steps, i - 1, w);
      }
    }
  }

  /**
   A waiter stops waiting only for a reason: its second read met an entry neither in flight nor prepared,
   or it slept and a call on its key reached it, or it slept and its time was up.
   */
  lemma WaitersLeaveForAReason(steps: seq<Step>, i: nat, w: nat)
    requires i < |steps| && w in Run(steps, i).waiters && w in Run(steps, i + 1).waiters
    requires !Run(steps, i).waiters[w].phase.Finished? && Run(steps, i + 1).waiters[w].phase.Finished?
    ensures var s := Run(steps, i);
            var x := s.waiters[w];
            || (steps[i] == Recheck(w) && x.phase.Registered?
                && x.address in s.plane.entries && s.plane.entries[x.address].state !in [InFlight, Prepared])
            || (steps[i] == Wake(w) && x.phase.Asleep? && exists k: nat :: k < i && Reaches(steps, k, w))
            || (steps[i] == TimeOut(w) && x.phase.Asleep?)
  {
    var s := Run(steps, i);
    RunKeepsInv(steps, i);
    assert WaiterOk(s.plane, s.waiters[w]);
    assert Run(steps, i + 1) == Next(s, steps[i]);
    if s.waiters[w].notified {
      NotifiedWasReached(steps, i, w);
    }
  }
}
