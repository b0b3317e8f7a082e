/** The handlers as the controller object runs them (kernel/src/xhci/controller.rs:314-1231); each is tied to its
    transition in `Ports` and keeps what the port protocol proves of it. A returned failure is a panic or, if
    `Unbounded`, a call that never returns. */
module Controllers {
  import opened Basics
  import opened Sequences
  import opened Ports
  import opened PortProtocol
  import opened PortExclusion
  import opened PortFailures
  import opened PortTable

  /** What a handler that takes `s` to `s'` or fails with `why` owes the protocol: slots stay in agreement, root-port
      handlers keep addressing exclusive, and in an orderly state patient ones do not fail. */
  ghost predicate Sound(s: State, step: Step, why: Option<Failure>, s': State)
    requires Possible(s, step)
  {
    && (SlotsAgree(s.slots) ==>
         if why.None? then SlotsAgree(s'.slots) else why.value !in {AlreadyAllocated, NotAllocated})
    && (Exclusive(s) && SlotsAgree(s.slots) && RootStep(s, step) && why.None? ==> Exclusive(s'))
    && (Orderly(s) && PatientStep(s, step) ==> why.None? && Orderly(s'))
  }

  lemma TakeIsSound(s: State, step: Step, why: Option<Failure>, s': State)
    requires Possible(s, step) && Take(s, step) == if why.None? then Done(s') else Failed(why.value)
    ensures Sound(s, step, why, s')
  {
    if SlotsAgree(s.slots) {
      StepKeepsSlots(s, step);
      if Exclusive(s) && RootStep(s, step) && why.None? {
        StepKeepsExclusion(s, step);
      }
      if Orderly(s) && PatientStep(s, step) {
        PatientStepSucceeds(s, step);
      }
    }
  }

  /** The hub request returns exactly on a ready port, and keeps addressing exclusive exactly when no other port is
      being addressed. */
  ghost predicate HubSound(s: State, p: nat, slot: nat, why: Option<Failure>, s': State)
    requires Possible(s, HubRequest(p, slot))
  {
    && (SlotsAgree(s.slots) ==>
         && (why.None? <==> s.regs[p].ped && !s.regs[p].csc)
         && (why.None? ==> SlotsAgree(s'.slots)))
    && (Exclusive(s) && why.None? ==>
         (ClaimIsHeld(s') <==> forall q :: 0 <= q < |s.phase| && q != p ==> !Addressing(s.phase[q])))
  }

  lemma HubRequestIsSound(s: State, p: nat, slot: nat, why: Option<Failure>, s': State)
    requires Possible(s, HubRequest(p, slot))
    requires InitPortDevice(s, p, slot) == if why.None? then Done(s') else Failed(why.value)
    ensures HubSound(s, p, slot, why, s')
  {
    if SlotsAgree(s.slots) {
      HubRequestReturnsExactly(s, p, slot);
    }
    if Exclusive(s) && why.None? {
      HubRequestKeepsExclusionExactly(s, p, slot);
    }
  }

  class Controller {
    const phase: array<Phase>        // port_config_phase
    const portsc: array<PortReg>
    var claim: Option<nat>           // addressing_port_index
    var outstanding: seq<Command>
    var byPort: map<nat, seq<nat>>   // port_slot_id_map
    var devices: map<nat, nat>       // device_context_infos, by slot
    const maxSlots: nat
    ghost var enabled: set<nat>      // the hardware's own slot table

    ghost function View(): State
      reads this, phase, portsc
    {
      State(phase[..], claim, portsc[..], outstanding, Slots(byPort, devices, maxSlots, enabled))
    }

    ghost predicate Valid()
      reads this, phase, portsc
    {
      WellFormed(View())
    }

    constructor (ports: nat, maxSlots: nat)
      ensures Valid() && fresh(phase) && fresh(portsc)
      ensures View() == State(seq(ports, _ => NotConnected), None, seq(ports, _ => PortReg(false, false, false)), [],
                              Slots(map[], map[], maxSlots, {}))
    {
      phase := new Phase[ports](_ => NotConnected);
      portsc := new PortReg[ports](_ => PortReg(false, false, false));
      claim, outstanding, byPort, devices := None, [], map[], map[];
      this.maxSlots := maxSlots;
      enabled := {};
      new;
      assert phase[..] == seq(ports, _ => NotConnected);
      assert portsc[..] == seq(ports, _ => PortReg(false, false, false));
    }

    method ResetPortAt(p: nat) returns (why: Option<Failure>)
      requires Valid() && p < phase.Length
      modifies this`claim, phase, portsc
      ensures ResetPort(old(View()), p) == if why.None? then Done(View()) else Failed(why.value)
      ensures why.None? ==> Valid()
    {
      if !portsc[p].ccs || !portsc[p].csc {
        return None;
      }
      if claim != Some(p) {
        if claim == None {
          claim := Some(p);
        } else {
          phase[p] := WaitingAddressed;
          return None;
        }
      }
      if !phase[p].NotConnected? && !phase[p].WaitingAddressed? {
        return Some(InvalidPhase);
      }
      portsc[p] := PortReg(true, false, true);
      return None;
    }

    /** The self-call of the source is never reached: the reset before it spins on the register lock held here. */
    method EnableSlotAt(p: nat) returns (why: Option<Failure>)
      requires Valid() && p < phase.Length
      modifies this`outstanding, phase
      ensures RequestSlot(old(View()), p) == if why.None? then Done(View()) else Failed(why.value)
      ensures why.None? ==> Valid()
      ensures why.None? <==> portsc[p].ped && !portsc[p].csc
    {
      if portsc[p].ped && !portsc[p].csc {
        phase[p] := EnablingSlot;
        outstanding := outstanding + [EnableSlot];
        return None;
      } else {
        phase[p] := NotConnected;
        return Some(Unbounded);
      }
    }

    /** Disables and deallocates the slots of a port in turn; the Disable Slot command of slot `id` fails `failures(id)`
        times, and the driver puts up with ten failures. */
    method DeallocateDevices(ids: seq<nat>, failures: nat -> nat) returns (why: Option<Failure>)
      modifies this`devices, this`enabled
      ensures (forall id :: id in ids ==> failures(id) <= 10) ==>
        Deallocate(old(View().slots), ids) == if why.None? then Done(View().slots) else Failed(why.value)
      ensures why == Some(CommandFailed) ==> exists id :: id in ids && failures(id) > 10
      ensures NoDuplicates(ids) && (forall id :: id in ids ==> id in old(devices)) ==>
        if why.None? then forall id :: id in ids ==> failures(id) <= 10 else why == Some(CommandFailed)
    {
      ghost var t := View().slots;
      for i := 0 to |ids|
        invariant Deallocate(t, ids[..i]) == Done(View().slots)
        invariant forall j :: 0 <= j < i ==> failures(ids[j]) <= 10
      {
        assert ids[..i + 1][..i] == ids[..i];
        var count := 0;
        while count < failures(ids[i])
          invariant count <= failures(ids[i]) && count <= 10
        {
          if count == 10 {
            assert ids[i] in ids && failures(ids[i]) > 10;
            return Some(CommandFailed);
          }
          count := count + 1;
        }
        if NoDuplicates(ids) && forall id :: id in ids ==> id in t.devices {
          StillAllocated(t, ids, i);
        }
        if ids[i] !in devices {
          DeallocateFailsEarly(t, ids, i + 1);
          return Some(NotAllocated);
        }
        devices := devices - {ids[i]};
        enabled := enabled - {ids[i]};
      }
      assert ids[..|ids|] == ids;
      return None;
    }

    method ResetConnectionAt(p: nat, failures: nat -> nat) returns (why: Option<Failure>)
      requires Valid() && p < phase.Length
      modifies this, phase, portsc
      ensures Obeyed(failures) ==>
        ResetConnection(old(View()), p) == if why.None? then Done(View()) else Failed(why.value)
      ensures SlotsAgree(old(View().slots)) ==>
        && (why == None || why == Some(CommandFailed))
        && (why.Some? <==> exists id :: id in SlotsOf(old(View().slots), p) && failures(id) > 10)
        && (why.None? && Obeyed(failures) ==>
             SlotsAgree(View().slots) && forall id :: id in devices ==> devices[id] != p)
    {
      if SlotsAgree(View().slots) {
        ReleaseKeepsAgreement(View().slots, p);
        DevicesOfPort(View().slots, p);
      }
      if claim == Some(p) {
        claim := None;
      }
      phase[p] := NotConnected;
      portsc[p] := portsc[p].(csc := false);
      why := DeallocateDevices(if p in byPort then byPort[p] else [], failures);
      if why.None? {
        byPort := byPort - {p};
      }
    }

    /** Records the slot, allocates its device and pushes the Address Device command. */
    method AddressDeviceAt(p: nat, slot: nat) returns (why: Option<Failure>)
      requires Valid() && p < phase.Length
      modifies this, phase
      ensures Address(old(View()), p, slot) == if why.None? then Done(View()) else Failed(why.value)
      ensures SlotsAgree(old(View().slots)) && slot <= maxSlots && slot in enabled && slot !in old(devices) ==>
        why.None? && SlotsAgree(View().slots)
    {
      ghost var t := View().slots;
      if SlotsAgree(t) && slot <= maxSlots && slot in enabled && slot !in devices {
        AllocateKeepsAgreement(t, p, slot);
      }
      byPort := byPort[p := (if p in byPort then byPort[p] else []) + [slot]];
      if slot > maxSlots {
        return Some(InvalidSlot);
      }
      if slot in devices {
        return Some(AlreadyAllocated);
      }
      devices := devices[slot := p];
      phase[p] := AddressingDevice;
      outstanding := outstanding + [AddressDevice(slot)];
      return None;
    }

    method ProcessPortStatusChange(p: nat, failures: nat -> nat) returns (why: Option<Failure>)
      requires Valid() && p < phase.Length
      modifies this, phase, portsc
      ensures Obeyed(failures) ==>
        && StatusChange(old(View()), p) == (if why.None? then Done(View()) else Failed(why.value))
        && Sound(old(View()), Notify(p), why, View())
    {
      match phase[p] {
        case NotConnected =>
          if claim == Some(p) || claim == None {
            why := ResetPortAt(p);
            if why.None? {
              why := EnableSlotAt(p);
            }
          } else {
            phase[p] := WaitingAddressed;
            why := None;
          }
        case ResettingPort =>
          if claim == Some(p) || claim == None {
            claim := Some(p);
            why := EnableSlotAt(p);
          } else {
            phase[p] := WaitingAddressed;
            why := None;
          }
        case WaitingAddressed =>
          if claim == None {
            claim := Some(p);
            phase[p] := NotConnected;
            assert View() == SetPhase(old(View()), p, NotConnected).(claim := Some(p));
            why := ResetPortAt(p);
            if why.None? {
              why := EnableSlotAt(p);
            }
          } else {
            why := None;  // the event is stashed again
          }
        case _ =>
          if portsc[p].ccs {
            why := None;
          } else {
            why := ResetConnectionAt(p, failures);
          }
      }
      if Obeyed(failures) {
        TakeIsSound(old(View()), Notify(p), why, View());
      }
    }

    method ConfigurePortAt(p: nat) returns (why: Option<Failure>)
      requires Valid() && p < phase.Length
      modifies this`claim, phase, portsc
      ensures ConfigurePort(old(View()), p) == if why.None? then Done(View()) else Failed(why.value)
      ensures Sound(old(View()), Configure(p), why, View())
    {
      if phase[p].NotConnected? {
        why := ResetPortAt(p);
      } else {
        why := None;
      }
      TakeIsSound(old(View()), Configure(p), why, View());
    }

    /** The start-up loop; none of its calls panics. */
    method ConfigurePorts()
      requires Valid()
      modifies this`claim, phase, portsc
      ensures ConfigureConnected(old(View()), phase.Length) == Done(View())
      ensures Initial(old(View())) ==> Started(old(View()), View(), phase.Length)
    {
      ghost var s := View();
      if Initial(s) {
        StartUp(s, phase.Length);
      }
      for p := 0 to phase.Length
        invariant Valid() && ConfigureConnected(s, p) == Done(View())
      {
        if portsc[p].ccs {
          ConfigureExactly(View(), p);
          var _ := ConfigurePortAt(p);
        }
      }
    }

    method ProcessEnableSlotCompletion(slot: nat) returns (why: Option<Failure>)
      requires Valid()
      modifies this, phase
      ensures EnableSlotCompleted(old(View()), slot) == if why.None? then Done(View()) else Failed(why.value)
    {
      if claim == None || !phase[claim.value].EnablingSlot? {
        return Some(InvalidPhase);
      }
      why := AddressDeviceAt(claim.value, slot);
    }

    method ProcessAddressDeviceCompletion(slot: nat) returns (why: Option<Failure>)
      requires Valid()
      modifies this, phase, portsc
      ensures AddressDeviceCompleted(old(View()), slot) == if why.None? then Done(View()) else Failed(why.value)
    {
      if slot !in devices {
        return Some(InvalidSlot);
      }
      var p := devices[slot];
      if claim != Some(p) || !phase[p].AddressingDevice? {
        return Some(InvalidPhase);
      }
      claim := None;
      var q := 0;
      while q < phase.Length && !phase[q].WaitingAddressed?
        invariant 0 <= q <= phase.Length
        invariant forall r :: 0 <= r < q ==> !phase[r].WaitingAddressed?
      {
        q := q + 1;
      }
      if q < phase.Length {
        assert FirstWaiting(phase[..]) == Some(q);
        why := ResetPortAt(q);
        if why.Some? {
          return;
        }
      } else {
        assert FirstWaiting(phase[..]) == None;
      }
      phase[p] := Configured;
      claim := None;
      return None;
    }

    /** A Command Completion event for `outstanding[i]`; `slot` is the one it carries. */
    method ProcessCommandCompletion(i: nat, slot: nat, success: bool) returns (why: Option<Failure>)
      requires Valid() && i < |outstanding|
      modifies this, phase, portsc
      ensures Complete(old(View()), i, slot, success) == if why.None? then Done(View()) else Failed(why.value)
      ensures Possible(old(View()), Finish(i, slot, success)) ==>
        Sound(old(View()), Finish(i, slot, success), why, View())
    {
      var cmd := outstanding[i];
      outstanding := outstanding[..i] + outstanding[i + 1..];
      why := None;
      if success {
        match cmd
        case EnableSlot =>
          enabled := enabled + {slot};
          why := ProcessEnableSlotCompletion(slot);
        case AddressDevice(slot') =>
          why := ProcessAddressDeviceCompletion(slot');
      }
      if Possible(old(View()), Finish(i, slot, success)) {
        TakeIsSound(old(View()), Finish(i, slot, success), why, View());
      }
    }

    /** The hub's request, with the two completions it awaits; `slot` is the one the hardware grants. A completion other
        than success fails an assertion. */
    method ProcessInitPortDevice(p: nat, slot: nat, granted: bool, addressed: bool) returns (why: Option<Failure>)
      requires Valid() && p < phase.Length
      modifies this, phase
      ensures granted && addressed ==>
        InitPortDevice(old(View()), p, slot) == if why.None? then Done(View()) else Failed(why.value)
      ensures granted && addressed && Possible(old(View()), HubRequest(p, slot)) ==>
        HubSound(old(View()), p, slot, why, View())
      ensures !granted ==> why == Some(if portsc[p].ped && !portsc[p].csc then CommandFailed else Unbounded)
      ensures !addressed ==> why.Some?
      ensures why == Some(CommandFailed) ==> !(granted && addressed)
    {
      var before := outstanding;
      why := EnableSlotAt(p);
      if why.None? {
        outstanding := before;
        if !granted {
          return Some(CommandFailed);
        }
        enabled := enabled + {slot};
        why := AddressDeviceAt(p, slot);
        if why.None? {
          outstanding := before;
          if !addressed {
            return Some(CommandFailed);
          }
          phase[p] := Configured;
          claim := None;
        }
      }
      if granted && addressed && Possible(old(View()), HubRequest(p, slot)) {
        HubRequestIsSound(old(View()), p, slot, why, View());
      }
    }
  }

  /** No Disable Slot command fails more often than the driver puts up with. */
  ghost predicate Obeyed(failures: nat -> nat) {
    forall id :: failures(id) <= 10
  }

  /** Slots that are allocated and listed once are still allocated when their turn comes. */
  lemma StillAllocated(t: Slots, ids: seq<nat>, i: nat)
    requires NoDuplicates(ids) && (forall id :: id in ids ==> id in t.devices) && i < |ids|
    ensures Deallocate(t, ids[..i]).Done? && ids[i] in Deallocate(t, ids[..i]).value.devices
  {
    forall j, k | 0 <= j < k < i ensures ids[..i][j] != ids[..i][k] {
      assert ids[j] != ids[k];
    }
    DeallocateRemoves(t, ids[..i]);
    assert ids[i] !in ids[..i];
  }

  lemma {:induction false} DeallocateFailsEarly(t: Slots, ids: seq<nat>, i: nat)
    requires i <= |ids| && Deallocate(t, ids[..i]) == Failed(NotAllocated)
    ensures Deallocate(t, ids) == Failed(NotAllocated)
    decreases |ids| - i
  {
    if i == |ids| {
      assert ids[..i] == ids;
    } else {
      assert ids[..i + 1][..i] == ids[..i];
      DeallocateFailsEarly(t, ids, i + 1);
    }
  }
}
