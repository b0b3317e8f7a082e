/** Exactly when the handlers fail: calls that never return, stale completions, a claim that nobody releases. */
module PortFailures {
  import opened Basics
  import opened Ports
  import opened PortProtocol
  import opened PortExclusion

  /** A status change is handled forever exactly when it would bring up a port that is not connected. */
  lemma NotifyRunsForeverExactly(s: State, p: nat)
    requires Exclusive(s) && SlotsAgree(s.slots) && p < |s.phase|
    ensures StatusChange(s, p) == Failed(Unbounded) <==> BringsUp(s, p) && !s.regs[p].ccs
  {
    assert PortOk(s, p);
    if BringsUp(s, p) && s.regs[p].ccs {
      BringUp(s, p);
    } else if !BringsUp(s, p) {
      ReleaseKeepsAgreement(s.slots, p);
    }
  }

  /** What every step of a root-port run may rely on. */
  lemma StepOfRun(run: seq<State>, steps: seq<Step>, k: nat)
    requires IsRootRun(run, steps) && k < |steps|
    ensures Exclusive(run[k]) && SlotsAgree(run[k].slots)
    ensures Possible(run[k], steps[k]) && RootStep(run[k], steps[k]) && Take(run[k], steps[k]) == Done(run[k + 1])
  {
    SlotIndexAgreement(run, steps, k);
    RunIsExclusive(run, steps, k);
  }

  // Stale commands

  /** Some port is waiting for the completion of an Enable Slot command. */
  predicate Expecting(s: State)
    requires WellFormed(s)
  {
    s.claim.Some? && s.phase[s.claim.value].EnablingSlot?
  }

  function Rest(s: State, i: nat): seq<Command>
    requires i < |s.outstanding|
  {
    s.outstanding[..i] + s.outstanding[i + 1..]
  }

  /** In any state of a root-port run: an Enable Slot completion panics exactly when no port is enabling a slot. Any
      other one is taken by the port that is, whoever pushed the command: it gets the slot and starts addressing. */
  lemma EnableSlotPanicsExactly(s: State, i: nat, slot: nat)
    requires Exclusive(s) && SlotsAgree(s.slots) && Possible(s, Finish(i, slot, true)) && s.outstanding[i].EnableSlot?
    ensures Complete(s, i, slot, true).Failed? <==> forall p :: 0 <= p < |s.phase| ==> !s.phase[p].EnablingSlot?
    ensures Complete(s, i, slot, true).Failed? <==> !Expecting(s)
    ensures forall p :: 0 <= p < |s.phase| && s.phase[p].EnablingSlot? ==>
      var s' := Complete(s, i, slot, true).value;
      && s'.phase == s.phase[p := AddressingDevice] && s'.claim == s.claim == Some(p)
      && s'.slots.devices == s.slots.devices[slot := p] && s'.outstanding == Rest(s, i) + [AddressDevice(slot)]
  {
    forall p | 0 <= p < |s.phase| && s.phase[p].EnablingSlot? ensures s.claim == Some(p) {
      assert PortOk(s, p);
    }
    assert slot !in s.slots.devices;
  }

  /** An Address Device completion panics exactly when its slot is free again or its port is not addressing. */
  lemma AddressDevicePanicsExactly(s: State, i: nat, slot: nat)
    requires Exclusive(s) && Possible(s, Finish(i, slot, true)) && s.outstanding[i].AddressDevice?
    ensures Complete(s, i, slot, true).Failed? <==>
      var id := s.outstanding[i].slot; id !in s.slots.devices || !s.phase[s.slots.devices[id]].AddressingDevice?
  {
    var id := s.outstanding[i].slot;
    if id in s.slots.devices {
      assert PortOk(s, s.slots.devices[id]);
    }
  }

  /** Enable Slot commands outstanding beyond the one a port is waiting for. */
  function Stale(s: State): int
    requires WellFormed(s)
  {
    var requests: int := multiset(s.outstanding)[EnableSlot];
    if Expecting(s) then requests - 1 else requests
  }

  /** The step gives up a port that waits for its slot. */
  predicate GivesUp(s: State, step: Step)
    requires Possible(s, step)
  {
    step.Notify? && s.phase[step.port].EnablingSlot? && !s.regs[step.port].ccs
  }

  /** The step handles an Enable Slot command that failed. */
  predicate FailsRequest(s: State, step: Step)
    requires Possible(s, step)
  {
    step.Finish? && !step.success && s.outstanding[step.index].EnableSlot?
  }

  lemma RestCount(s: State, i: nat)
    requires i < |s.outstanding|
    ensures multiset(s.outstanding) == multiset(Rest(s, i)) + multiset{s.outstanding[i]}
  {
    assert s.outstanding == s.outstanding[..i] + [s.outstanding[i]] + s.outstanding[i + 1..];
  }

  lemma NotifyCountsStale(s: State, p: nat)
    requires Exclusive(s) && SlotsAgree(s.slots) && Possible(s, Notify(p)) && RootStep(s, Notify(p))
    requires StatusChange(s, p).Done?
    ensures WellFormed(StatusChange(s, p).value)
    ensures Stale(StatusChange(s, p).value) == Stale(s) + if GivesUp(s, Notify(p)) then 1 else 0
  {
    assert PortOk(s, p);
    NotifyKeepsSlots(s, p);
    if BringsUp(s, p) {
      BringUp(s, p);
    }
  }

  lemma GrantCountsStale(s: State, i: nat, slot: nat)
    requires Exclusive(s) && SlotsAgree(s.slots) && Possible(s, Finish(i, slot, true)) && s.outstanding[i].EnableSlot?
    requires Complete(s, i, slot, true).Done?
    ensures WellFormed(Complete(s, i, slot, true).value) && Stale(Complete(s, i, slot, true).value) == Stale(s)
  {
    EnableSlotPanicsExactly(s, i, slot);
    FinishKeepsSlots(s, i, slot, true);
    assert PortOk(s, s.claim.value);
    RestCount(s, i);
  }

  lemma AddressedCountsStale(s: State, i: nat, slot: nat)
    requires Exclusive(s) && Possible(s, Finish(i, slot, true)) && s.outstanding[i].AddressDevice?
    requires Complete(s, i, slot, true).Done?
    ensures WellFormed(Complete(s, i, slot, true).value) && Stale(Complete(s, i, slot, true).value) == Stale(s)
  {
    RestCount(s, i);
    AddressDeviceKeepsSlots(s.(outstanding := Rest(s, i)), s.outstanding[i].slot);
  }

  lemma FinishCountsStale(s: State, i: nat, slot: nat, success: bool)
    requires Exclusive(s) && SlotsAgree(s.slots) && Possible(s, Finish(i, slot, success))
    requires Complete(s, i, slot, success).Done?
    ensures WellFormed(Complete(s, i, slot, success).value)
    ensures Stale(Complete(s, i, slot, success).value) ==
      Stale(s) - if FailsRequest(s, Finish(i, slot, success)) then 1 else 0
  {
    if success && s.outstanding[i].EnableSlot? {
      GrantCountsStale(s, i, slot);
    } else if success {
      AddressedCountsStale(s, i, slot);
    } else {
      RestCount(s, i);
    }
  }

  lemma StepCountsStale(s: State, step: Step)
    requires Exclusive(s) && SlotsAgree(s.slots) && Possible(s, step) && RootStep(s, step) && Take(s, step).Done?
    ensures WellFormed(Take(s, step).value)
    ensures Stale(Take(s, step).value) ==
      Stale(s) + (if GivesUp(s, step) then 1 else 0) - (if FailsRequest(s, step) then 1 else 0)
  {
    match step
    case Notify(p) => NotifyCountsStale(s, p);
    case Finish(i, slot, success) => FinishCountsStale(s, i, slot, success);
    case HubRequest(_, _) =>
    case _ => assert PortOk(s, step.port);
  }

  ghost function GivenUp(run: seq<State>, steps: seq<Step>, k: nat): nat
    requires IsRun(run, steps) && k <= |steps|
    decreases k
  {
    if k == 0 then 0 else GivenUp(run, steps, k - 1) + if GivesUp(run[k - 1], steps[k - 1]) then 1 else 0
  }

  ghost function FailedRequests(run: seq<State>, steps: seq<Step>, k: nat): nat
    requires IsRun(run, steps) && k <= |steps|
    decreases k
  {
    if k == 0 then 0 else FailedRequests(run, steps, k - 1) + if FailsRequest(run[k - 1], steps[k - 1]) then 1 else 0
  }

  /** Conservation over every root-port run: a stale command for each port given up while it waited for its slot, less
      one for each Enable Slot command that failed. Successful completions never retire one. */
  lemma {:induction false} StaleCommandsAreCounted(run: seq<State>, steps: seq<Step>, k: nat)
    requires IsRootRun(run, steps) && k < |run|
    ensures WellFormed(run[k]) && Stale(run[k]) == GivenUp(run, steps, k) - FailedRequests(run, steps, k)
    decreases k
  {
    if k > 0 {
      StaleCommandsAreCounted(run, steps, k - 1);
      StepOfRun(run, steps, k - 1);
      StepCountsStale(run[k - 1], steps[k - 1]);
    }
  }

  lemma NothingStaleNothingPanics(s: State, i: nat, slot: nat)
    requires Exclusive(s) && SlotsAgree(s.slots) && Possible(s, Finish(i, slot, true)) && s.outstanding[i].EnableSlot?
    requires Stale(s) <= 0
    ensures Complete(s, i, slot, true).Done?
  {
    assert EnableSlot in multiset(s.outstanding);
    EnableSlotPanicsExactly(s, i, slot);
  }

  lemma StaleCommandIsThere(s: State)
    requires WellFormed(s) && Stale(s) >= 1
    ensures exists i :: 0 <= i < |s.outstanding| && s.outstanding[i].EnableSlot?
  {
    assert EnableSlot in multiset(s.outstanding);
    var i :| 0 <= i < |s.outstanding| && s.outstanding[i] == EnableSlot;
  }

  /** Two Enable Slot completions in a row never both succeed, whatever slots they carry. */
  lemma SecondEnableSlotPanics(s: State, i: nat, slot: nat, j: nat, slot': nat)
    requires Exclusive(s) && SlotsAgree(s.slots) && Possible(s, Finish(i, slot, true)) && s.outstanding[i].EnableSlot?
    requires Complete(s, i, slot, true).Done?
    requires var s' := Complete(s, i, slot, true).value;
      Possible(s', Finish(j, slot', true)) && s'.outstanding[j].EnableSlot?
    ensures Complete(Complete(s, i, slot, true).value, j, slot', true) == Failed(InvalidPhase)
  {
    EnableSlotPanicsExactly(s, i, slot);
  }

  /** An outstanding Enable Slot command whose completion panics whatever slot it brings. */
  ghost predicate Doomed(s: State, j: nat) {
    && WellFormed(s) && j < |s.outstanding| && s.outstanding[j].EnableSlot?
    && forall id :: Possible(s, Finish(j, id, true)) ==> Complete(s, j, id, true) == Failed(InvalidPhase)
  }

  /** At every point of every root-port run: if more ports have been given up while waiting for their slot than requests
      have failed, an outstanding Enable Slot completion panics now or right after another one; otherwise none does. */
  lemma StaleCompletionsPanic(run: seq<State>, steps: seq<Step>, k: nat, i: nat, slot: nat)
    requires IsRootRun(run, steps) && k < |run|
    requires Possible(run[k], Finish(i, slot, true)) && run[k].outstanding[i].EnableSlot?
    ensures GivenUp(run, steps, k) <= FailedRequests(run, steps, k) ==> Complete(run[k], i, slot, true).Done?
    ensures GivenUp(run, steps, k) > FailedRequests(run, steps, k) ==>
      match Complete(run[k], i, slot, true)
      case Failed(why) => why == InvalidPhase
      case Done(s') => exists j :: Doomed(s', j)
  {
    var s := run[k];
    StaleCommandsAreCounted(run, steps, k);
    SlotIndexAgreement(run, steps, k);
    RunIsExclusive(run, steps, k);
    EnableSlotPanicsExactly(s, i, slot);
    FinishKeepsSlots(s, i, slot, true);
    if Stale(s) <= 0 {
      NothingStaleNothingPanics(s, i, slot);
    } else if Expecting(s) {
      GrantCountsStale(s, i, slot);
      var s' := Complete(s, i, slot, true).value;
      StaleCommandIsThere(s');
      var j :| 0 <= j < |s'.outstanding| && s'.outstanding[j].EnableSlot?;
      forall id | Possible(s', Finish(j, id, true)) ensures Complete(s', j, id, true) == Failed(InvalidPhase) {
        SecondEnableSlotPanics(s, i, slot, j, id);
      }
      assert Doomed(s', j);
    }
  }

  /** With a command in flight, a root-port status change only parks a port or gives one up. */
  lemma NotifyWithCommandInFlight(s: State, p: nat)
    requires Orderly(s) && s.outstanding != [] && p < |s.phase|
    ensures StatusChange(s, p).Done?
    ensures StatusChange(s, p) in {Done(s), Done(SetPhase(s, p, WaitingAddressed)), ResetConnection(s, p)}
    ensures !(Addressing(s.phase[p]) && !s.regs[p].ccs) ==> PatientStep(s, Notify(p))
    ensures Addressing(s.phase[p]) && !s.regs[p].ccs ==>
      s.claim == Some(p) && StatusChange(s, p) == ResetConnection(s, p)
  {
    assert PortOk(s, p);
    CommandMeansAddressing(s);
    ReleaseKeepsAgreement(s.slots, p);
  }

  /** From an orderly state the completion that follows a status change panics exactly when that change gave up the port
      whose command it is. */
  lemma GivingUpAPortBreaksItsCompletion(s: State, p: nat, slot: nat)
    requires Orderly(s) && s.outstanding != [] && Possible(s, Notify(p))
    requires s.outstanding[0].EnableSlot? ==> slot <= s.slots.max && slot !in s.slots.enabled
    ensures StatusChange(s, p).Done? && WellFormed(StatusChange(s, p).value)
    ensures StatusChange(s, p).value.outstanding == s.outstanding
    ensures Complete(StatusChange(s, p).value, 0, slot, true).Failed? <==> Addressing(s.phase[p]) && !s.regs[p].ccs
  {
    NotifyWithCommandInFlight(s, p);
    NotifyKeepsSlots(s, p);
    ReleaseKeepsAgreement(s.slots, p);
    if !(Addressing(s.phase[p]) && !s.regs[p].ccs) {
      PatientStepSucceeds(s, Notify(p));
      PatientFinish(StatusChange(s, p).value, 0, slot, true);
    }
  }

  // The claim

  /** The claim leaves a port exactly when its device has been addressed or it is given up after an unplug. */
  lemma ClaimReleasedExactly(s: State, step: Step, p: nat)
    requires Exclusive(s) && SlotsAgree(s.slots) && Possible(s, step) && RootStep(s, step) && Take(s, step).Done?
    requires s.claim == Some(p)
    ensures Take(s, step).value.claim in {None, Some(p)}
    ensures Take(s, step).value.claim == None <==>
      || (step.Finish? && step.success && s.outstanding[step.index].AddressDevice?)
      || (step == Notify(p) && !s.regs[p].ccs && !s.phase[p].WaitingAddressed?)
  {
    assert PortOk(s, p);
    match step
    case Notify(q) =>
      assert PortOk(s, q);
      NotifyKeepsSlots(s, q);
      if BringsUp(s, q) {
        BringUp(s, q);
      }
    case Finish(i, slot, success) =>
      if success && s.outstanding[i].EnableSlot? {
        EnableSlotPanicsExactly(s, i, slot);
      }
    case _ =>
  }

  /** A port holds the claim in the middle of being addressed and no command is left to complete. */
  predicate Stuck(s: State, p: nat) {
    WellFormed(s) && s.claim == Some(p) && Addressing(s.phase[p]) && s.outstanding == []
  }

  /** A failed slot command is only logged, and leaves its port stuck. */
  lemma FailedCommandSticks(s: State, i: nat, slot: nat)
    requires Orderly(s) && Possible(s, Finish(i, slot, false))
    ensures var s' := Complete(s, i, slot, false);
      s'.Done? && s.claim.Some? && Stuck(s'.value, s.claim.value)
  {
    CommandMeansAddressing(s);
  }

  /** Nobody gets past a stuck port while it stays plugged in. */
  predicate NobodyAdvances(s: State, s': State) {
    && |s'.phase| == |s.phase|
    && (forall q :: 0 <= q < |s.phase| && s.phase[q].WaitingAddressed? ==> s'.phase[q].WaitingAddressed?)
    && (forall q :: 0 <= q < |s.phase| && s'.phase[q].Configured? ==> s.phase[q].Configured?)
  }

  lemma NobodyAdvancesTrans(s: State, s1: State, s2: State)
    requires NobodyAdvances(s, s1) && NobodyAdvances(s1, s2)
    ensures NobodyAdvances(s, s2)
  {}

  lemma StuckNotify(s: State, q: nat, p: nat)
    requires Exclusive(s) && SlotsAgree(s.slots) && Stuck(s, p) && s.regs[p].ccs && q < |s.phase|
    ensures StatusChange(s, q).Done?
    ensures var s' := StatusChange(s, q).value; Stuck(s', p) && s'.regs[p].ccs && NobodyAdvances(s, s')
  {
    assert PortOk(s, q);
    NotifyKeepsSlots(s, q);
    ReleaseKeepsAgreement(s.slots, q);
  }

  lemma StuckStep(s: State, step: Step, p: nat)
    requires Exclusive(s) && SlotsAgree(s.slots) && Stuck(s, p) && s.regs[p].ccs
    requires Possible(s, step) && RootStep(s, step) && step != Disconnect(p)
    ensures Take(s, step).Done?
    ensures var s' := Take(s, step).value; Stuck(s', p) && s'.regs[p].ccs && NobodyAdvances(s, s')
  {
    match step
    case Notify(q) => StuckNotify(s, q, p);
    case _ =>
  }

  lemma StuckStepOfRun(run: seq<State>, steps: seq<Step>, k: nat, p: nat)
    requires IsRootRun(run, steps) && k < |steps| && steps[k] != Disconnect(p)
    requires Stuck(run[k], p) && run[k].regs[p].ccs
    ensures Stuck(run[k + 1], p) && run[k + 1].regs[p].ccs && NobodyAdvances(run[k], run[k + 1])
  {
    StepOfRun(run, steps, k);
    StuckStep(run[k], steps[k], p);
  }

  /** In every root-port run: from a stuck port on, until it is unplugged, every waiting port goes on waiting and no
      port gets configured. */
  lemma {:induction false} StuckUntilUnplugged(run: seq<State>, steps: seq<Step>, j: nat, k: nat, p: nat)
    requires IsRootRun(run, steps) && j <= k < |run|
    requires Stuck(run[j], p) && run[j].regs[p].ccs
    requires Disconnect(p) !in steps[j..k]
    ensures Stuck(run[k], p) && run[k].regs[p].ccs && NobodyAdvances(run[j], run[k])
    decreases k - j
  {
    if j < k {
      assert steps[j] == steps[j..k][0] && steps[j + 1..k] == steps[j..k][1..];
      StuckStepOfRun(run, steps, j, p);
      StuckUntilUnplugged(run, steps, j + 1, k, p);
      NobodyAdvancesTrans(run[j], run[j + 1], run[k]);
    }
  }

  // Hub requests

  /** A port being addressed holds the claim. */
  predicate ClaimIsHeld(s: State) {
    forall q :: 0 <= q < |s.phase| && Addressing(s.phase[q]) ==> s.claim == Some(q)
  }

  /** A hub request keeps the exclusion exactly when no other port is being addressed. */
  lemma HubRequestKeepsExclusionExactly(s: State, p: nat, slot: nat)
    requires Exclusive(s) && Possible(s, HubRequest(p, slot)) && InitPortDevice(s, p, slot).Done?
    ensures ClaimIsHeld(InitPortDevice(s, p, slot).value) <==>
      forall q :: 0 <= q < |s.phase| && q != p ==> !Addressing(s.phase[q])
  {
    var s' := InitPortDevice(s, p, slot).value;
    assert s'.claim == None && |s'.phase| == |s.phase| && s'.phase[p].Configured?;
    forall q | 0 <= q < |s.phase| && q != p ensures s'.phase[q] == s.phase[q] {}
  }
}
