/** Address Device commands of ports given up while their device was being addressed. */
module StaleAddresses {
  import opened Basics
  import opened Ports
  import opened PortProtocol
  import opened PortExclusion
  import opened PortFailures

  /** Some port is waiting for the completion of an Address Device command. */
  predicate Awaiting(s: State)
    requires WellFormed(s)
  {
    s.claim.Some? && s.phase[s.claim.value].AddressingDevice?
  }

  /** The Address Device commands in a sequence. */
  function Addresses(cmds: seq<Command>): nat {
    if cmds == [] then 0
    else Addresses(cmds[..|cmds| - 1]) + if cmds[|cmds| - 1].AddressDevice? then 1 else 0
  }

  lemma {:induction false} AddressesConcat(a: seq<Command>, b: seq<Command>)
    ensures Addresses(a + b) == Addresses(a) + Addresses(b)
    decreases |b|
  {
    if b == [] {
      assert a + b == a;
    } else {
      AddressesConcat(a, b[..|b| - 1]);
      assert (a + b)[..|a + b| - 1] == a + b[..|b| - 1];
    }
  }

  lemma AddressesAppend(cmds: seq<Command>, cmd: Command)
    ensures Addresses(cmds + [cmd]) == Addresses(cmds) + if cmd.AddressDevice? then 1 else 0
  {
    assert (cmds + [cmd])[..|cmds|] == cmds;
  }

  lemma AddressesRest(s: State, i: nat)
    requires i < |s.outstanding|
    ensures Addresses(s.outstanding) == Addresses(Rest(s, i)) + if s.outstanding[i].AddressDevice? then 1 else 0
  {
    var before, cmd, after := s.outstanding[..i], s.outstanding[i], s.outstanding[i + 1..];
    assert s.outstanding == before + [cmd] + after;
    AddressesConcat(before + [cmd], after);
    AddressesAppend(before, cmd);
    AddressesConcat(before, after);
  }

  lemma {:induction false} AddressIsThere(cmds: seq<Command>) returns (j: nat)
    requires Addresses(cmds) >= 1
    ensures j < |cmds| && cmds[j].AddressDevice?
    decreases |cmds|
  {
    if cmds[|cmds| - 1].AddressDevice? {
      j := |cmds| - 1;
    } else {
      j := AddressIsThere(cmds[..|cmds| - 1]);
    }
  }

  lemma {:induction false} NoAddresses(cmds: seq<Command>)
    requires Addresses(cmds) == 0
    ensures forall j :: 0 <= j < |cmds| ==> !cmds[j].AddressDevice?
    decreases |cmds|
  {
    if cmds != [] {
      NoAddresses(cmds[..|cmds| - 1]);
      assert forall j :: 0 <= j < |cmds| - 1 ==> cmds[j] == cmds[..|cmds| - 1][j];
    }
  }

  // The count

  /** Address Device commands outstanding beyond the one a port is waiting for. */
  function Stale(s: State): int
    requires WellFormed(s)
  {
    if Awaiting(s) then Addresses(s.outstanding) - 1 else Addresses(s.outstanding)
  }

  /** The step gives up a port whose device is being addressed. */
  predicate GivesUpAddressing(s: State, step: Step)
    requires Possible(s, step)
  {
    step.Notify? && s.phase[step.port].AddressingDevice? && !s.regs[step.port].ccs
  }

  /** The step handles an Address Device command that failed. */
  predicate FailsAddress(s: State, step: Step)
    requires Possible(s, step)
  {
    step.Finish? && !step.success && s.outstanding[step.index].AddressDevice?
  }

  lemma NotifyCounts(s: State, p: nat)
    requires Exclusive(s) && SlotsAgree(s.slots) && Possible(s, Notify(p)) && RootStep(s, Notify(p))
    requires StatusChange(s, p).Done?
    ensures WellFormed(StatusChange(s, p).value)
    ensures Stale(StatusChange(s, p).value) == Stale(s) + if GivesUpAddressing(s, Notify(p)) then 1 else 0
  {
    assert PortOk(s, p);
    NotifyKeepsSlots(s, p);
    AddressesAppend(s.outstanding, EnableSlot);
    if BringsUp(s, p) {
      BringUp(s, p);
    }
  }

  lemma GrantCounts(s: State, i: nat, slot: nat)
    requires Exclusive(s) && SlotsAgree(s.slots) && Possible(s, Finish(i, slot, true)) && s.outstanding[i].EnableSlot?
    requires Complete(s, i, slot, true).Done?
    ensures WellFormed(Complete(s, i, slot, true).value) && Stale(Complete(s, i, slot, true).value) == Stale(s)
  {
    EnableSlotPanicsExactly(s, i, slot);
    FinishKeepsSlots(s, i, slot, true);
    assert PortOk(s, s.claim.value);
    AddressesRest(s, i);
    AddressesAppend(Rest(s, i), AddressDevice(slot));
  }

  lemma AddressedCounts(s: State, i: nat, slot: nat)
    requires WellFormed(s) && i < |s.outstanding| && s.outstanding[i].AddressDevice?
    requires Complete(s, i, slot, true).Done?
    ensures var s' := Complete(s, i, slot, true).value;
      && WellFormed(s') && s'.claim == None && s'.outstanding == Rest(s, i) && Stale(s') == Stale(s)
  {
    AddressesRest(s, i);
    AddressDeviceKeepsSlots(s.(outstanding := Rest(s, i)), s.outstanding[i].slot);
  }

  lemma FinishCounts(s: State, i: nat, slot: nat, success: bool)
    requires Exclusive(s) && SlotsAgree(s.slots) && Possible(s, Finish(i, slot, success))
    requires Complete(s, i, slot, success).Done?
    ensures WellFormed(Complete(s, i, slot, success).value)
    ensures Stale(Complete(s, i, slot, success).value) ==
      Stale(s) - if FailsAddress(s, Finish(i, slot, success)) then 1 else 0
  {
    if success && s.outstanding[i].EnableSlot? {
      GrantCounts(s, i, slot);
    } else if success {
      AddressedCounts(s, i, slot);
    } else {
      AddressesRest(s, i);
    }
  }

  lemma StepCounts(s: State, step: Step)
    requires Exclusive(s) && SlotsAgree(s.slots) && Possible(s, step) && RootStep(s, step) && Take(s, step).Done?
    ensures WellFormed(Take(s, step).value)
    ensures Stale(Take(s, step).value) ==
      Stale(s) + (if GivesUpAddressing(s, step) then 1 else 0) - (if FailsAddress(s, step) then 1 else 0)
  {
    match step
    case Notify(p) => NotifyCounts(s, p);
    case Finish(i, slot, success) => FinishCounts(s, i, slot, success);
    case HubRequest(_, _) =>
    case _ => assert PortOk(s, step.port);
  }

  ghost function GivenUp(run: seq<State>, steps: seq<Step>, k: nat): nat
    requires IsRun(run, steps) && k <= |steps|
    decreases k
  {
    if k == 0 then 0 else GivenUp(run, steps, k - 1) + if GivesUpAddressing(run[k - 1], steps[k - 1]) then 1 else 0
  }

  ghost function Failures(run: seq<State>, steps: seq<Step>, k: nat): nat
    requires IsRun(run, steps) && k <= |steps|
    decreases k
  {
    if k == 0 then 0 else Failures(run, steps, k - 1) + if FailsAddress(run[k - 1], steps[k - 1]) then 1 else 0
  }

  /** Conservation over every root-port run: a stale command for each port given up while its device was being
      addressed, less one for each Address Device command that failed. */
  lemma {:induction false} StaleAddressesAreCounted(run: seq<State>, steps: seq<Step>, k: nat)
    requires IsRootRun(run, steps) && k < |run|
    ensures WellFormed(run[k]) && Stale(run[k]) == GivenUp(run, steps, k) - Failures(run, steps, k)
    decreases k
  {
    if k > 0 {
      StaleAddressesAreCounted(run, steps, k - 1);
      StepOfRun(run, steps, k - 1);
      StepCounts(run[k - 1], steps[k - 1]);
    }
  }

  // What a stale command does

  /** Two Address Device completions in a row never both succeed. */
  lemma SecondAddressPanics(s: State, i: nat, slot: nat, j: nat, slot': nat)
    requires WellFormed(s) && i < |s.outstanding| && s.outstanding[i].AddressDevice?
    requires Complete(s, i, slot, true).Done?
    requires var s' := Complete(s, i, slot, true).value; j < |s'.outstanding| && s'.outstanding[j].AddressDevice?
    ensures WellFormed(Complete(s, i, slot, true).value)
    ensures Complete(Complete(s, i, slot, true).value, j, slot', true).Failed?
  {
    AddressedCounts(s, i, slot);
  }

  /** An outstanding Address Device command whose completion panics. */
  predicate Doomed(s: State, j: nat) {
    && WellFormed(s) && j < |s.outstanding| && s.outstanding[j].AddressDevice?
    && Complete(s, j, s.outstanding[j].slot, true).Failed?
  }

  /** While more ports have been given up than commands have failed, the completion of any Address Device command panics
      or leaves behind one that does. */
  lemma StaleAddressPanics(run: seq<State>, steps: seq<Step>, k: nat, i: nat, slot: nat)
    requires IsRootRun(run, steps) && k < |run| && GivenUp(run, steps, k) > Failures(run, steps, k)
    requires Possible(run[k], Finish(i, slot, true)) && run[k].outstanding[i].AddressDevice?
    ensures match Complete(run[k], i, slot, true)
      case Failed(_) => true
      case Done(s') => exists j :: Doomed(s', j)
  {
    var s := run[k];
    StaleAddressesAreCounted(run, steps, k);
    if Complete(s, i, slot, true).Done? {
      AddressedCounts(s, i, slot);
      var s' := Complete(s, i, slot, true).value;
      var j := AddressIsThere(s'.outstanding);
      SecondAddressPanics(s, i, slot, j, s'.outstanding[j].slot);
      assert Doomed(s', j);
    }
  }

  // Runs that give up no port being addressed

  /** Every outstanding Address Device command belongs to a port that is waiting for it. */
  predicate AddressesOk(s: State) {
    && WellFormed(s)
    && forall i :: 0 <= i < |s.outstanding| && s.outstanding[i].AddressDevice? ==> Awaited(s, s.outstanding[i].slot)
  }

  predicate Awaited(s: State, slot: nat)
    requires WellFormed(s)
  {
    slot in s.slots.devices && s.phase[s.slots.devices[slot]].AddressingDevice?
  }

  lemma NothingOutstanding(s: State)
    requires WellFormed(s) && Addresses(s.outstanding) == 0
    ensures AddressesOk(s)
  {
    NoAddresses(s.outstanding);
  }

  lemma BringUpKeepsAddresses(s: State, p: nat)
    requires Exclusive(s) && AddressesOk(s) && p < |s.phase| && BringsUp(s, p) && s.regs[p].ccs
    ensures StatusChange(s, p).Done? && AddressesOk(StatusChange(s, p).value)
  {
    BringUp(s, p);
    var s' := StatusChange(s, p).value;
    forall i | 0 <= i < |s'.outstanding| && s'.outstanding[i].AddressDevice?
      ensures Awaited(s', s'.outstanding[i].slot)
    {
      assert Awaited(s, s.outstanding[i].slot);
    }
  }

  lemma ReleaseKeepsAddresses(s: State, p: nat)
    requires SlotsAgree(s.slots) && AddressesOk(s) && p < |s.phase| && !s.phase[p].AddressingDevice?
    ensures ResetConnection(s, p).Done? && AddressesOk(ResetConnection(s, p).value)
  {
    ReleaseKeepsAgreement(s.slots, p);
    var s' := ResetConnection(s, p).value;
    forall i | 0 <= i < |s.outstanding| && s.outstanding[i].AddressDevice? ensures Awaited(s', s.outstanding[i].slot) {
      assert Awaited(s, s.outstanding[i].slot);
    }
  }

  lemma NotifyKeepsAddresses(s: State, p: nat)
    requires Exclusive(s) && SlotsAgree(s.slots) && AddressesOk(s)
    requires Possible(s, Notify(p)) && RootStep(s, Notify(p)) && !GivesUpAddressing(s, Notify(p))
    ensures StatusChange(s, p).Done? ==> AddressesOk(StatusChange(s, p).value)
  {
    assert PortOk(s, p);
    if BringsUp(s, p) {
      BringUpKeepsAddresses(s, p);
    } else if s.phase[p].NotConnected? || s.phase[p].WaitingAddressed? {
      assert forall i :: 0 <= i < |s.outstanding| && s.outstanding[i].AddressDevice? ==>
        Awaited(s, s.outstanding[i].slot);
    } else if !s.regs[p].ccs {
      ReleaseKeepsAddresses(s, p);
    }
  }

  lemma FinishKeepsAddresses(s: State, i: nat, slot: nat, success: bool)
    requires Exclusive(s) && SlotsAgree(s.slots) && AddressesOk(s) && Stale(s) <= 0
    requires Possible(s, Finish(i, slot, success)) && Complete(s, i, slot, success).Done?
    ensures AddressesOk(Complete(s, i, slot, success).value)
  {
    FinishKeepsSlots(s, i, slot, success);
    AddressesRest(s, i);
    if success && s.outstanding[i].EnableSlot? {
      GrantKeepsAddresses(s, i, slot);
    } else if success {
      AddressedCounts(s, i, slot);
      NothingOutstanding(Complete(s, i, slot, success).value);
    } else {
      forall j | 0 <= j < |Rest(s, i)| && Rest(s, i)[j].AddressDevice? ensures Awaited(s, Rest(s, i)[j].slot) {
        assert Rest(s, i)[j] == s.outstanding[if j < i then j else j + 1];
      }
    }
  }

  lemma GrantKeepsAddresses(s: State, i: nat, slot: nat)
    requires Exclusive(s) && SlotsAgree(s.slots) && Stale(s) <= 0
    requires Possible(s, Finish(i, slot, true)) && s.outstanding[i].EnableSlot? && Complete(s, i, slot, true).Done?
    ensures AddressesOk(Complete(s, i, slot, true).value)
  {
    var s' := Complete(s, i, slot, true).value;
    EnableSlotPanicsExactly(s, i, slot);
    FinishKeepsSlots(s, i, slot, true);
    AddressesRest(s, i);
    NoAddresses(Rest(s, i));
    assert Awaited(s', slot);
  }

  lemma StepKeepsAddresses(s: State, step: Step)
    requires Exclusive(s) && SlotsAgree(s.slots) && AddressesOk(s) && Stale(s) <= 0
    requires Possible(s, step) && RootStep(s, step) && Take(s, step).Done? && !GivesUpAddressing(s, step)
    ensures AddressesOk(Take(s, step).value)
  {
    match step
    case Notify(p) => NotifyKeepsAddresses(s, p);
    case Finish(i, slot, success) => FinishKeepsAddresses(s, i, slot, success);
    case HubRequest(_, _) =>
    case _ => PlugKeepsExclusion(s, step);
  }

  lemma {:induction false} RunKeepsAddresses(run: seq<State>, steps: seq<Step>, k: nat)
    requires IsRootRun(run, steps) && k < |run| && GivenUp(run, steps, k) == 0
    ensures AddressesOk(run[k])
    decreases k
  {
    if k > 0 {
      RunKeepsAddresses(run, steps, k - 1);
      StaleAddressesAreCounted(run, steps, k - 1);
      StepOfRun(run, steps, k - 1);
      StepKeepsAddresses(run[k - 1], steps[k - 1]);
    }
  }

  /** In a run that has given up no port while its device was being addressed, no Address Device completion panics. */
  lemma NobodyGivenUpNothingPanics(run: seq<State>, steps: seq<Step>, k: nat, i: nat, slot: nat)
    requires IsRootRun(run, steps) && k < |run| && GivenUp(run, steps, k) == 0
    requires Possible(run[k], Finish(i, slot, true)) && run[k].outstanding[i].AddressDevice?
    ensures Complete(run[k], i, slot, true).Done?
  {
    RunKeepsAddresses(run, steps, k);
    RunIsExclusive(run, steps, k);
    AddressDevicePanicsExactly(run[k], i, slot);
    assert Awaited(run[k], run[k].outstanding[i].slot);
  }
}
