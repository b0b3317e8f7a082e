/** Mutual exclusion of addressing, and the phases the completion handlers find. */
module PortExclusion {
  import opened Basics
  import opened Ports
  import opened PortProtocol

  predicate Addressing(phase: Phase) {
    phase.EnablingSlot? || phase.AddressingDevice?
  }

  /** The handler of a status change on `p` is about to start bringing the port up. */
  predicate BringsUp(s: State, p: nat)
    requires p < |s.phase|
  {
    (s.phase[p].NotConnected? && ClaimFreeFor(s, p)) || (s.phase[p].WaitingAddressed? && s.claim == None)
  }

  /** Root-port runs: no hub requests, and a port is brought up only while it is connected. */
  predicate RootStep(s: State, step: Step)
    requires Possible(s, step)
  {
    match step
    case HubRequest(_, _) => false
    case Notify(p) => BringsUp(s, p) ==> s.regs[p].ccs
    case _ => true
  }

  /** No port is given up while its own slot command is outstanding. */
  predicate PatientStep(s: State, step: Step)
    requires Possible(s, step)
  {
    && RootStep(s, step)
    && (step.Notify? && Addressing(s.phase[step.port]) && !s.regs[step.port].ccs ==> s.outstanding == [])
  }

  ghost predicate IsRootRun(run: seq<State>, steps: seq<Step>) {
    IsRun(run, steps) && forall k :: 0 <= k < |steps| ==> RootStep(run[k], steps[k])
  }

  ghost predicate IsPatientRun(run: seq<State>, steps: seq<Step>) {
    IsRun(run, steps) && forall k :: 0 <= k < |steps| ==> PatientStep(run[k], steps[k])
  }

  /** What each port's phase says about its register and the claim. */
  predicate PortOk(s: State, p: nat)
    requires p < |s.phase| == |s.regs|
  {
    var acknowledged := s.regs[p].ccs && !s.regs[p].csc;
    && (s.regs[p].ped ==> s.regs[p].ccs)
    && match s.phase[p]
       case NotConnected => acknowledged ==> s.claim == Some(p) && s.regs[p].ped
       case WaitingAddressed => acknowledged ==> s.regs[p].ped
       case EnablingSlot => s.claim == Some(p)
       case AddressingDevice => s.claim == Some(p)
       case Configured => true
       case _ => false
  }

  predicate Exclusive(s: State) {
    WellFormed(s) && forall p :: 0 <= p < |s.phase| ==> PortOk(s, p)
  }

  /** Bringing a connected port up ends with that port claimed and its Enable Slot command pushed. */
  lemma BringUp(s: State, p: nat)
    requires Exclusive(s) && p < |s.phase| && BringsUp(s, p) && s.regs[p].ccs
    ensures StatusChange(s, p) ==
      Done(SlotRequested(s.(claim := Some(p), regs := s.regs[p := PortReg(true, false, true)]), p))
  {
    assert PortOk(s, p);
    var regs := s.regs[p := PortReg(true, false, true)];
    if !s.regs[p].csc {
      assert regs == s.regs;
    }
    if s.phase[p].WaitingAddressed? {
      var s1 := SetPhase(s, p, NotConnected).(claim := Some(p));
      assert SlotRequested(s1.(regs := regs), p) == SlotRequested(s.(claim := Some(p), regs := regs), p);
    }
  }

  lemma NotifyKeepsExclusion(s: State, p: nat)
    requires Exclusive(s) && SlotsAgree(s.slots)
    requires Possible(s, Notify(p)) && RootStep(s, Notify(p)) && StatusChange(s, p).Done?
    ensures Exclusive(StatusChange(s, p).value)
  {
    assert PortOk(s, p);
    NotifyKeepsSlots(s, p);
    var s' := StatusChange(s, p).value;
    if BringsUp(s, p) {
      BringUp(s, p);
    }
    forall q | 0 <= q < |s.phase| ensures PortOk(s', q) {
      assert PortOk(s, q);
    }
  }

  lemma AddressKeepsExclusion(s: State, slot: nat)
    requires Exclusive(s) && EnableSlotCompleted(s, slot).Done?
    ensures Exclusive(EnableSlotCompleted(s, slot).value)
  {
    var s' := EnableSlotCompleted(s, slot).value;
    forall q | 0 <= q < |s.phase| ensures PortOk(s', q) {
      assert PortOk(s, q);
    }
  }

  /** The unconditional clearing of the claim is harmless here: the only claim that could be lost is one
      just given to a waiting port, which stays waiting. */
  lemma AddressedKeepsExclusion(s: State, slot: nat)
    requires Exclusive(s) && AddressDeviceCompleted(s, slot).Done?
    ensures Exclusive(AddressDeviceCompleted(s, slot).value)
  {
    var s' := AddressDeviceCompleted(s, slot).value;
    forall q | 0 <= q < |s.phase| ensures PortOk(s', q) {
      assert PortOk(s, q);
    }
  }

  lemma FinishKeepsExclusion(s: State, i: nat, slot: nat, success: bool)
    requires Exclusive(s) && Possible(s, Finish(i, slot, success)) && Complete(s, i, slot, success).Done?
    ensures Exclusive(Complete(s, i, slot, success).value)
  {
    var s1 := s.(outstanding := s.outstanding[..i] + s.outstanding[i + 1..]);
    assert Exclusive(s1) && Exclusive(GrantSlot(s1, slot)) by {
      assert forall q :: 0 <= q < |s.phase| ==> PortOk(s, q);
      assert forall q :: 0 <= q < |s.phase| ==> PortOk(s1, q) == PortOk(s, q);
      assert forall q :: 0 <= q < |s.phase| ==> PortOk(GrantSlot(s1, slot), q) == PortOk(s, q);
    }
    if success && s.outstanding[i].EnableSlot? {
      AddressKeepsExclusion(GrantSlot(s1, slot), slot);
    } else if success {
      AddressedKeepsExclusion(s1, s.outstanding[i].slot);
    }
  }

  lemma PlugKeepsExclusion(s: State, step: Step)
    requires Exclusive(s) && Possible(s, step) && (step.Connect? || step.Disconnect? || step.Configure?)
    ensures Take(s, step).Done? && Exclusive(Take(s, step).value)
  {
    assert PortOk(s, step.port);
    var s' := Take(s, step).value;
    forall q | 0 <= q < |s.phase| ensures PortOk(s', q) {
      assert PortOk(s, q);
    }
  }

  lemma StepKeepsExclusion(s: State, step: Step)
    requires Exclusive(s) && SlotsAgree(s.slots)
    requires Possible(s, step) && RootStep(s, step) && Take(s, step).Done?
    ensures Exclusive(Take(s, step).value)
  {
    match step
    case Notify(p) => NotifyKeepsExclusion(s, p);
    case Finish(i, slot, success) => FinishKeepsExclusion(s, i, slot, success);
    case Connect(_, _) => PlugKeepsExclusion(s, step);
    case Disconnect(_) => PlugKeepsExclusion(s, step);
    case Configure(_) => PlugKeepsExclusion(s, step);
    case HubRequest(_, _) =>
  }

  lemma {:induction false} RunIsExclusive(run: seq<State>, steps: seq<Step>, k: nat)
    requires IsRootRun(run, steps) && k < |run|
    ensures Exclusive(run[k])
    decreases k
  {
    if k > 0 {
      RunIsExclusive(run, steps, k - 1);
      SlotIndexAgreement(run, steps, k - 1);
      assert Take(run[k - 1], steps[k - 1]) == Done(run[k - 1 + 1]);
      StepKeepsExclusion(run[k - 1], steps[k - 1]);
    }
  }

  /** At every point of every root-port run a port being addressed holds the claim, so there is at most one. */
  lemma AddressingIsMutuallyExclusive(run: seq<State>, steps: seq<Step>, k: nat)
    requires IsRootRun(run, steps) && k < |run|
    ensures forall p :: 0 <= p < |run[k].phase| && Addressing(run[k].phase[p]) ==> run[k].claim == Some(p)
    ensures forall p, q | 0 <= p < |run[k].phase| && 0 <= q < |run[k].phase| ::
      Addressing(run[k].phase[p]) && Addressing(run[k].phase[q]) ==> p == q
  {
    RunIsExclusive(run, steps, k);
    forall p | 0 <= p < |run[k].phase| && Addressing(run[k].phase[p]) ensures run[k].claim == Some(p) {
      assert PortOk(run[k], p);
    }
  }

  // Completions

  /** At most one slot command is in flight, and it belongs to the claiming port in the matching phase. */
  predicate CommandsOk(s: State) {
    && WellFormed(s)
    && |s.outstanding| <= 1
    && forall i :: 0 <= i < |s.outstanding| ==>
      match s.outstanding[i]
      case EnableSlot => s.claim.Some? && s.phase[s.claim.value].EnablingSlot?
      case AddressDevice(slot) =>
        && slot in s.slots.devices && s.claim == Some(s.slots.devices[slot])
        && s.phase[s.slots.devices[slot]].AddressingDevice?
  }

  predicate Orderly(s: State) {
    Exclusive(s) && SlotsAgree(s.slots) && CommandsOk(s)
  }

  lemma CommandMeansAddressing(s: State)
    requires CommandsOk(s)
    ensures s.outstanding != [] ==> s.claim.Some? && Addressing(s.phase[s.claim.value])
  {
    if s.outstanding != [] {
      assert s.outstanding[0].EnableSlot? || s.outstanding[0].AddressDevice?;
    }
  }

  lemma PatientReset(s: State, p: nat)
    requires Orderly(s) && p < |s.phase| && (Addressing(s.phase[p]) ==> s.outstanding == [])
    ensures ResetConnection(s, p).Done? && CommandsOk(ResetConnection(s, p).value)
  {
    ReleaseKeepsAgreement(s.slots, p);
    CommandMeansAddressing(s);
  }

  lemma PatientNotify(s: State, p: nat)
    requires Orderly(s) && Possible(s, Notify(p)) && PatientStep(s, Notify(p))
    ensures StatusChange(s, p).Done? && CommandsOk(StatusChange(s, p).value)
  {
    assert PortOk(s, p);
    if BringsUp(s, p) {
      BringUp(s, p);
      CommandMeansAddressing(s);
    } else if !s.regs[p].ccs && !s.phase[p].NotConnected? && !s.phase[p].WaitingAddressed? {
      PatientReset(s, p);
    } else {
      CommandMeansAddressing(s);
    }
  }

  lemma PatientFinish(s: State, i: nat, slot: nat, success: bool)
    requires Orderly(s) && Possible(s, Finish(i, slot, success))
    ensures Complete(s, i, slot, success).Done? && CommandsOk(Complete(s, i, slot, success).value)
  {}

  lemma PatientPlug(s: State, step: Step)
    requires Orderly(s) && Possible(s, step) && (step.Connect? || step.Disconnect? || step.Configure?)
    ensures Take(s, step).Done? && CommandsOk(Take(s, step).value)
  {}

  lemma PatientStepSucceeds(s: State, step: Step)
    requires Orderly(s) && Possible(s, step) && PatientStep(s, step)
    ensures Take(s, step).Done? && Orderly(Take(s, step).value)
  {
    match step {
      case Notify(p) => PatientNotify(s, p);
      case Finish(i, slot, success) => PatientFinish(s, i, slot, success);
      case Connect(_, _) => PatientPlug(s, step);
      case Disconnect(_) => PatientPlug(s, step);
      case Configure(_) => PatientPlug(s, step);
      case HubRequest(_, _) =>
    }
    StepKeepsExclusion(s, step);
    StepKeepsSlots(s, step);
  }

  lemma {:induction false} PatientRunIsOrderly(run: seq<State>, steps: seq<Step>, k: nat)
    requires IsPatientRun(run, steps) && k < |run|
    ensures Orderly(run[k])
    decreases k
  {
    if k > 0 {
      PatientRunIsOrderly(run, steps, k - 1);
      assert Take(run[k - 1], steps[k - 1]) == Done(run[k - 1 + 1]);
      PatientStepSucceeds(run[k - 1], steps[k - 1]);
    }
  }

  /** No handler panics or runs forever in a run where no port is given up while its command is outstanding;
      in particular every completion finds its own port claimed and in the matching phase. */
  lemma CompletionsFindTheirPhase(run: seq<State>, steps: seq<Step>, k: nat, step: Step)
    requires IsPatientRun(run, steps) && k < |run|
    requires Possible(run[k], step) && PatientStep(run[k], step)
    ensures Take(run[k], step).Done?
    ensures step.Finish? ==>
      match run[k].outstanding[step.index]
      case EnableSlot => run[k].claim.Some? && run[k].phase[run[k].claim.value].EnablingSlot?
      case AddressDevice(slot) =>
        slot in run[k].slots.devices && run[k].claim == Some(run[k].slots.devices[slot]) &&
        run[k].phase[run[k].slots.devices[slot]].AddressingDevice?
  {
    PatientRunIsOrderly(run, steps, k);
    PatientStepSucceeds(run[k], step);
  }

  /** Once a device is addressed the claim is free, the first waiting port that is connected has been reset, and a
      status change would bring any connected waiting port up; `PortEvents` says which of them still get one. */
  lemma WaitingPortComesUp(s: State, slot: nat, q: nat)
    requires Exclusive(s) && AddressDeviceCompleted(s, slot).Done?
    requires q < |s.phase| && s.phase[q].WaitingAddressed? && s.regs[q].ccs
    ensures var s' := AddressDeviceCompleted(s, slot).value;
      && s'.claim == None && s'.phase == s.phase[s.slots.devices[slot] := Configured]
      && (FirstWaiting(s.phase) == Some(q) ==> s'.regs[q] == PortReg(true, false, true))
      && StatusChange(s', q) ==
           Done(SlotRequested(s'.(claim := Some(q), regs := s'.regs[q := PortReg(true, false, true)]), q))
  {
    assert PortOk(s, q);
    AddressedKeepsExclusion(s, slot);
    BringUp(AddressDeviceCompleted(s, slot).value, q);
  }
}
