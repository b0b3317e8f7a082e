/** Pending Port Status Change events: which waiting ports are still going to be looked at. */
module PortEvents {
  import opened Basics
  import opened Ports
  import opened PortProtocol
  import opened PortExclusion
  import opened PortFailures

  /** The controller posts an event when the connect status change bit becomes set and when a reset of a connected port
      completes (section 4.19.2 of the xHCI specification). */
  predicate Posts(before: PortReg, after: PortReg) {
    if before.csc then !after.csc && after.ccs else after.csc
  }

  /** A status change uses up its event, except that of a waiting port that has to go on waiting. */
  predicate UsesUp(s: State, step: Step, q: nat)
    requires Possible(s, step)
  {
    step == Notify(q) && !(s.phase[q].WaitingAddressed? && s.claim != None)
  }

  /** `pending[q]` is the number of events for port `q` in the ring or stashed; a handler runs only on an event. */
  predicate EventStep(s: State, pending: seq<nat>, step: Step, s': State, pending': seq<nat>) {
    && Possible(s, step) && RootStep(s, step) && Take(s, step) == Done(s')
    && |pending| == |pending'| == |s.phase| == |s'.phase| == |s'.regs|
    && (step.Notify? ==> pending[step.port] >= 1)
    && forall q :: 0 <= q < |pending| ==>
      pending'[q] ==
        pending[q] + (if Posts(s.regs[q], s'.regs[q]) then 1 else 0) - (if UsesUp(s, step, q) then 1 else 0)
  }

  ghost predicate IsEventRun(run: seq<State>, events: seq<seq<nat>>, steps: seq<Step>) {
    && IsRootRun(run, steps) && |events| == |run| && |events[0]| == |run[0].phase|
    && forall k :: 0 <= k < |steps| ==> EventStep(run[k], events[k], steps[k], run[k + 1], events[k + 1])
  }

  /** A connected port that waits has an event, or its change is still unacknowledged. */
  predicate Heard(s: State, pending: seq<nat>, q: nat)
    requires q < |s.phase| == |s.regs| == |pending|
  {
    s.phase[q].WaitingAddressed? && s.regs[q].ccs ==> pending[q] >= 1 || s.regs[q].csc
  }

  predicate AllHeard(s: State, pending: seq<nat>) {
    |s.phase| == |s.regs| == |pending| && forall q :: 0 <= q < |pending| ==> Heard(s, pending, q)
  }

  /** A waiting port with no event, whose change bit is set, so that plugging it in or out posts none either. */
  predicate Stranded(s: State, pending: seq<nat>, q: nat) {
    && q < |s.phase| == |s.regs| == |pending|
    && s.phase[q].WaitingAddressed? && pending[q] == 0 && s.regs[q].csc
  }

  /** The step completes an addressing and finds `q` to be the first waiting port, connected. */
  predicate Wakes(s: State, step: Step, q: nat)
    requires Possible(s, step)
  {
    && q < |s.phase| && step.Finish? && step.success && s.outstanding[step.index].AddressDevice?
    && FirstWaiting(s.phase) == Some(q) && s.regs[q].ccs
  }

  // Ports as they wait

  /** What a root-port step does to a port that waits. */
  predicate WaitsOn(s: State, step: Step, s': State, q: nat)
    requires Possible(s, step) && q < |s.phase| == |s'.phase| == |s'.regs|
  {
    && (step != Notify(q) || s.claim != None ==> s'.phase[q].WaitingAddressed?)
    && (step != Connect(q, true) && step != Connect(q, false) && step != Disconnect(q) && step != Notify(q) ==>
         s'.regs[q] ==
           if Wakes(s, step, q) && s.regs[q].csc then PortReg(true, false, true) else s.regs[q])
  }

  lemma NotifyWaits(s: State, p: nat, q: nat)
    requires Exclusive(s) && SlotsAgree(s.slots) && Possible(s, Notify(p)) && RootStep(s, Notify(p))
    requires StatusChange(s, p).Done? && q < |s.phase| && s.phase[q].WaitingAddressed?
    ensures var s' := StatusChange(s, p).value;
      WellFormed(s') && |s'.phase| == |s.phase| && WaitsOn(s, Notify(p), s', q)
  {
    assert PortOk(s, p);
    NotifyKeepsSlots(s, p);
    if BringsUp(s, p) {
      BringUp(s, p);
    }
  }

  lemma FinishWaits(s: State, i: nat, slot: nat, success: bool, q: nat)
    requires Exclusive(s) && SlotsAgree(s.slots) && Possible(s, Finish(i, slot, success))
    requires Complete(s, i, slot, success).Done? && q < |s.phase| && s.phase[q].WaitingAddressed?
    ensures var s' := Complete(s, i, slot, success).value;
      WellFormed(s') && |s'.phase| == |s.phase| && WaitsOn(s, Finish(i, slot, success), s', q)
  {
    FinishKeepsSlots(s, i, slot, success);
    if success && s.outstanding[i].EnableSlot? {
      EnableSlotPanicsExactly(s, i, slot);
      assert PortOk(s, s.claim.value);
    }
  }

  lemma StepWaits(s: State, step: Step, q: nat)
    requires Exclusive(s) && SlotsAgree(s.slots) && Possible(s, step) && RootStep(s, step) && Take(s, step).Done?
    requires q < |s.phase| && s.phase[q].WaitingAddressed?
    ensures var s' := Take(s, step).value; WellFormed(s') && |s'.phase| == |s.phase| && WaitsOn(s, step, s', q)
  {
    match step
    case Notify(p) => NotifyWaits(s, p, q);
    case Finish(i, slot, success) => FinishWaits(s, i, slot, success, q);
    case _ =>
  }

  /** A stranded port stays stranded through every step, its own plugging and unplugging included, until an addressing
      completes and finds it first and connected; then it has an event. */
  lemma StrandedExactly(s: State, pending: seq<nat>, step: Step, s': State, pending': seq<nat>, q: nat)
    requires Exclusive(s) && SlotsAgree(s.slots) && EventStep(s, pending, step, s', pending') && Stranded(s, pending, q)
    ensures Stranded(s', pending', q) <==> !Wakes(s, step, q)
    ensures Wakes(s, step, q) ==> pending'[q] == 1 && s'.regs[q] == PortReg(true, false, true) && s'.claim == None
  {
    StepWaits(s, step, q);
  }

  // Every waiting port that is connected has an event or is stranded

  /** A connected port that waits still has its change unacknowledged. */
  predicate Unacknowledged(s: State, q: nat)
    requires q < |s.phase| == |s.regs|
  {
    s.phase[q].WaitingAddressed? && s.regs[q].ccs ==> s.regs[q].csc
  }

  lemma NotifyComesToWait(s: State, p: nat, q: nat)
    requires Exclusive(s) && SlotsAgree(s.slots) && Possible(s, Notify(p)) && RootStep(s, Notify(p))
    requires StatusChange(s, p).Done? && q < |s.phase| && !s.phase[q].WaitingAddressed?
    ensures var s' := StatusChange(s, p).value; WellFormed(s') && |s'.phase| == |s.phase| && Unacknowledged(s', q)
  {
    NotifyKeepsSlots(s, p);
    assert PortOk(s, p) && PortOk(s, q);
    if BringsUp(s, p) {
      BringUp(s, p);
    }
  }

  lemma FinishComesToWait(s: State, i: nat, slot: nat, success: bool, q: nat)
    requires Exclusive(s) && SlotsAgree(s.slots) && Possible(s, Finish(i, slot, success))
    requires Complete(s, i, slot, success).Done? && q < |s.phase| && !s.phase[q].WaitingAddressed?
    ensures var s' := Complete(s, i, slot, success).value;
      WellFormed(s') && |s'.phase| == |s.phase| && Unacknowledged(s', q)
  {
    FinishKeepsSlots(s, i, slot, success);
    if success && s.outstanding[i].EnableSlot? {
      EnableSlotPanicsExactly(s, i, slot);
    }
  }

  /** A port comes to wait only with its change unacknowledged. */
  lemma ComesToWait(s: State, step: Step, q: nat)
    requires Exclusive(s) && SlotsAgree(s.slots) && Possible(s, step) && RootStep(s, step) && Take(s, step).Done?
    requires q < |s.phase| && !s.phase[q].WaitingAddressed?
    ensures var s' := Take(s, step).value; WellFormed(s') && |s'.phase| == |s.phase| && Unacknowledged(s', q)
  {
    match step
    case Notify(p) => NotifyComesToWait(s, p, q);
    case Finish(i, slot, success) => FinishComesToWait(s, i, slot, success, q);
    case _ => assert PortOk(s, q);
  }

  lemma StepKeepsHeard(s: State, pending: seq<nat>, step: Step, s': State, pending': seq<nat>)
    requires Exclusive(s) && SlotsAgree(s.slots) && EventStep(s, pending, step, s', pending') && AllHeard(s, pending)
    ensures AllHeard(s', pending')
  {
    forall q | 0 <= q < |pending| ensures Heard(s', pending', q) {
      assert Heard(s, pending, q);
      if s.phase[q].WaitingAddressed? {
        StepWaits(s, step, q);
      } else {
        ComesToWait(s, step, q);
      }
    }
  }

  lemma {:induction false} RunIsHeard(run: seq<State>, events: seq<seq<nat>>, steps: seq<Step>, k: nat)
    requires IsEventRun(run, events, steps) && k < |run|
    ensures AllHeard(run[k], events[k])
    decreases k
  {
    if k > 0 {
      RunIsHeard(run, events, steps, k - 1);
      StepOfRun(run, steps, k - 1);
      assert EventStep(run[k - 1], events[k - 1], steps[k - 1], run[k - 1 + 1], events[k - 1 + 1]);
      StepKeepsHeard(run[k - 1], events[k - 1], steps[k - 1], run[k], events[k]);
    }
  }

  /** At every point of every run: a connected waiting port with the claim free comes up with its next event if it has
      one, and otherwise it is stranded. */
  lemma WaitingComesUpExactly(run: seq<State>, events: seq<seq<nat>>, steps: seq<Step>, k: nat, q: nat)
    requires IsEventRun(run, events, steps) && k < |run| && q < |run[k].phase|
    requires WellFormed(run[k]) && run[k].phase[q].WaitingAddressed? && run[k].regs[q].ccs
    ensures |events[k]| == |run[k].phase|
    ensures Stranded(run[k], events[k], q) <==> events[k][q] == 0
    ensures run[k].claim == None ==> StatusChange(run[k], q) == Done(SlotRequested(
      run[k].(claim := Some(q), regs := run[k].regs[q := PortReg(true, false, true)]), q))
  {
    RunIsHeard(run, events, steps, k);
    RunIsExclusive(run, steps, k);
    assert Heard(run[k], events[k], q);
    if run[k].claim == None {
      BringUp(run[k], q);
    }
  }

  lemma StrandedStepOfRun(run: seq<State>, events: seq<seq<nat>>, steps: seq<Step>, k: nat, q: nat)
    requires IsEventRun(run, events, steps) && k < |steps| && Stranded(run[k], events[k], q)
    ensures Possible(run[k], steps[k])
    ensures Stranded(run[k + 1], events[k + 1], q) <==> !Wakes(run[k], steps[k], q)
  {
    StepOfRun(run, steps, k);
    StrandedExactly(run[k], events[k], steps[k], run[k + 1], events[k + 1], q);
  }

  /** A stranded port is never looked at again before an addressing completes and finds it. */
  lemma {:induction false} StrandedUntilWoken(
    run: seq<State>, events: seq<seq<nat>>, steps: seq<Step>, j: nat, k: nat, q: nat)
    requires IsEventRun(run, events, steps) && j <= k < |run| && Stranded(run[j], events[j], q)
    requires forall i :: j <= i < k ==> !Wakes(run[i], steps[i], q)
    ensures Stranded(run[k], events[k], q)
    decreases k - j
  {
    if j < k {
      StrandedStepOfRun(run, events, steps, j, q);
      StrandedUntilWoken(run, events, steps, j + 1, k, q);
    }
  }
}
