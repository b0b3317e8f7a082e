/** What each handler does, in the fields of the state (kernel/src/xhci/controller.rs:301-463 and 832-1231). */
module PortTable {
  import opened Basics
  import opened Ports
  import opened PortProtocol
  import opened PortExclusion
  import opened PortFailures

  /** The register of a port whose reset has completed. */
  const READY := PortReg(true, false, true)

  /** A connected port with a change pending is reset and claimed, or parked if another port holds the claim. */
  lemma ResetPortExactly(s: State, p: nat)
    requires WellFormed(s) && p < |s.phase|
    ensures ResetPort(s, p) ==
      if !(s.regs[p].ccs && s.regs[p].csc) then Done(s)
      else if s.claim != None && s.claim != Some(p) then
        Done(State(s.phase[p := WaitingAddressed], s.claim, s.regs, s.outstanding, s.slots))
      else if s.phase[p].NotConnected? || s.phase[p].WaitingAddressed? then
        Done(State(s.phase, Some(p), s.regs[p := READY], s.outstanding, s.slots))
      else Failed(InvalidPhase)
  {}

  /** Only a not-connected port is looked at. */
  lemma ConfigureExactly(s: State, p: nat)
    requires WellFormed(s) && p < |s.phase|
    ensures ConfigurePort(s, p) ==
      if !(s.phase[p].NotConnected? && s.regs[p].ccs && s.regs[p].csc) then Done(s)
      else if s.claim == None || s.claim == Some(p) then
        Done(State(s.phase, Some(p), s.regs[p := READY], s.outstanding, s.slots))
      else Done(State(s.phase[p := WaitingAddressed], s.claim, s.regs, s.outstanding, s.slots))
  {}

  /** What happens outside the driver: plugging sets the change bit, and a USB 3 port comes up enabled. */
  lemma PluggedExactly(s: State, p: nat, ped: bool)
    requires WellFormed(s) && p < |s.phase|
    ensures Possible(s, Connect(p, ped)) <==> !s.regs[p].ccs
    ensures Possible(s, Disconnect(p)) <==> s.regs[p].ccs
    ensures Possible(s, Connect(p, ped)) ==>
      Take(s, Connect(p, ped)) ==
        Done(State(s.phase, s.claim, s.regs[p := PortReg(true, true, ped)], s.outstanding, s.slots))
    ensures Possible(s, Disconnect(p)) ==>
      Take(s, Disconnect(p)) ==
        Done(State(s.phase, s.claim, s.regs[p := PortReg(false, true, false)], s.outstanding, s.slots))
  {}

  // The start-up loop

  function FirstConnected(regs: seq<PortReg>, n: nat): (f: Option<nat>)
    requires n <= |regs|
    ensures f.Some? ==> f.value < n && regs[f.value].ccs && forall q :: 0 <= q < f.value ==> !regs[q].ccs
    ensures f.None? ==> forall q :: 0 <= q < n ==> !regs[q].ccs
  {
    if n == 0 then None
    else
      match FirstConnected(regs, n - 1)
      case Some(f) => Some(f)
      case None => if regs[n - 1].ccs then Some(n - 1) else None
  }

  /** The first connected port is claimed and reset, every other connected one waits, and nothing else changes. */
  predicate Started(s: State, s': State, n: nat)
    requires n <= |s.phase| == |s.regs|
  {
    && |s'.phase| == |s.phase| && |s'.regs| == |s.regs| && s'.outstanding == s.outstanding && s'.slots == s.slots
    && match FirstConnected(s.regs, n)
       case None => s'.phase == s.phase && s'.regs == s.regs && s'.claim == s.claim
       case Some(f) =>
         && s'.claim == Some(f)
         && (forall q :: 0 <= q < |s.regs| ==> s'.regs[q] == if q == f then READY else s.regs[q])
         && (forall q :: 0 <= q < |s.phase| ==>
              s'.phase[q] == if q < n && q != f && s.regs[q].ccs then WaitingAddressed else NotConnected)
  }

  lemma {:induction false} StartUp(s: State, n: nat)
    requires Initial(s) && n <= |s.phase|
    ensures ConfigureConnected(s, n).Done? && Started(s, ConfigureConnected(s, n).value, n)
  {
    if n > 0 {
      StartUp(s, n - 1);
      ConfigureExactly(ConfigureConnected(s, n - 1).value, n - 1);
    }
  }

  // Status changes

  /** Bringing a port up that claims or may claim the bus: it is reset if its change is pending, and asks for a slot if
      it is then enabled; otherwise the handler never returns. */
  function BroughtUp(s: State, p: nat, claim: Option<nat>): Outcome<State>
    requires p < |s.phase| == |s.regs|
  {
    var reg := s.regs[p];
    var phase, outstanding := s.phase[p := EnablingSlot], s.outstanding + [EnableSlot];
    if reg.ccs && reg.csc then Done(State(phase, Some(p), s.regs[p := READY], outstanding, s.slots))
    else if reg.ped && !reg.csc then Done(State(phase, claim, s.regs, outstanding, s.slots))
    else Failed(Unbounded)
  }

  lemma WaitingBroughtUp(s: State, p: nat)
    requires WellFormed(s) && p < |s.phase|
    ensures ResetThenRequest(SetPhase(s, p, NotConnected).(claim := Some(p)), p) == BroughtUp(s, p, Some(p))
  {
    assert s.phase[p := NotConnected][p := EnablingSlot] == s.phase[p := EnablingSlot];
  }

  lemma StatusChangeExactly(s: State, p: nat)
    requires WellFormed(s) && p < |s.phase|
    ensures var free := s.claim == None || s.claim == Some(p);
      var parked := State(s.phase[p := WaitingAddressed], s.claim, s.regs, s.outstanding, s.slots);
      && (s.phase[p].NotConnected? ==>
           StatusChange(s, p) == if free then BroughtUp(s, p, s.claim) else Done(parked))
      && (s.phase[p].WaitingAddressed? ==>
           StatusChange(s, p) == if s.claim == None then BroughtUp(s, p, Some(p)) else Done(s))
      && (s.phase[p].ResettingPort? ==>
           StatusChange(s, p) ==
             if !free then Done(parked)
             else if s.regs[p].ped && !s.regs[p].csc then
               Done(State(s.phase[p := EnablingSlot], Some(p), s.regs, s.outstanding + [EnableSlot], s.slots))
             else Failed(Unbounded))
      && (!s.phase[p].NotConnected? && !s.phase[p].WaitingAddressed? && !s.phase[p].ResettingPort? && s.regs[p].ccs ==>
           StatusChange(s, p) == Done(s))
  {
    WaitingBroughtUp(s, p);
  }

  /** Giving a port up: its claim, its phase, its change bit and its slots, and nothing else. */
  lemma GivingUpExactly(s: State, p: nat)
    requires WellFormed(s) && SlotsAgree(s.slots) && p < |s.phase| && !s.regs[p].ccs
    requires !s.phase[p].NotConnected? && !s.phase[p].WaitingAddressed? && !s.phase[p].ResettingPort?
    ensures StatusChange(s, p).Done?
    ensures var s' := StatusChange(s, p).value;
      && s'.phase == s.phase[p := NotConnected]
      && s'.claim == (if s.claim == Some(p) then None else s.claim)
      && s'.regs == s.regs[p := PortReg(false, false, s.regs[p].ped)]
      && s'.outstanding == s.outstanding
      && s'.slots.devices == (map id | id in s.slots.devices && s.slots.devices[id] != p :: s.slots.devices[id])
      && s'.slots.enabled == (set id | id in s.slots.enabled && !(id in s.slots.devices && s.slots.devices[id] == p))
      && s'.slots.byPort == s.slots.byPort - {p} && s'.slots.max == s.slots.max
  {
    ReleaseKeepsAgreement(s.slots, p);
    DevicesOfPort(s.slots, p);
    DeallocateRemoves(s.slots, SlotsOf(s.slots, p));
  }

  // Completions

  /** An Enable Slot completion that finds a port enabling a slot. */
  lemma GrantedExactly(s: State, i: nat, slot: nat)
    requires Possible(s, Finish(i, slot, true)) && SlotsAgree(s.slots) && s.outstanding[i].EnableSlot?
    requires s.claim.Some? && s.phase[s.claim.value].EnablingSlot?
    ensures Complete(s, i, slot, true).Done?
    ensures var s', p := Complete(s, i, slot, true).value, s.claim.value;
      && s'.phase == s.phase[p := AddressingDevice] && s'.claim == s.claim && s'.regs == s.regs
      && s'.outstanding == s.outstanding[..i] + s.outstanding[i + 1..] + [AddressDevice(slot)]
      && s'.slots.devices == s.slots.devices[slot := p] && s'.slots.enabled == s.slots.enabled + {slot}
      && s'.slots.byPort == s.slots.byPort[p := (if p in s.slots.byPort then s.slots.byPort[p] else []) + [slot]]
      && s'.slots.max == s.slots.max
  {}

  /** An Address Device completion that finds its port addressing: the port is configured, the claim is free, and the
      first waiting port is reset if it is connected with its change pending. */
  lemma AddressedExactly(s: State, i: nat, slot: nat)
    requires Possible(s, Finish(i, slot, true)) && s.outstanding[i].AddressDevice?
    requires var id := s.outstanding[i].slot;
      && id in s.slots.devices && s.claim == Some(s.slots.devices[id])
      && s.phase[s.slots.devices[id]].AddressingDevice?
    ensures Complete(s, i, slot, true).Done?
    ensures var s', p := Complete(s, i, slot, true).value, s.claim.value;
      && s'.phase == s.phase[p := Configured] && s'.claim == None && s'.slots == s.slots
      && s'.outstanding == s.outstanding[..i] + s.outstanding[i + 1..]
      && |s'.regs| == |s.regs|
      && forall q :: 0 <= q < |s.regs| ==>
        s'.regs[q] ==
          if FirstWaiting(s.phase) == Some(q) && s.regs[q].ccs && s.regs[q].csc then READY else s.regs[q]
  {}

  /** A failed command changes nothing but the list of commands. */
  lemma FailedExactly(s: State, i: nat, slot: nat)
    requires WellFormed(s) && i < |s.outstanding|
    ensures Complete(s, i, slot, false) ==
      Done(State(s.phase, s.claim, s.regs, s.outstanding[..i] + s.outstanding[i + 1..], s.slots))
  {}

  /** A hub request that returns. */
  lemma HubRequestExactly(s: State, p: nat, slot: nat)
    requires Possible(s, HubRequest(p, slot)) && SlotsAgree(s.slots) && s.regs[p].ped && !s.regs[p].csc
    ensures InitPortDevice(s, p, slot).Done?
    ensures var s' := InitPortDevice(s, p, slot).value;
      && s'.phase == s.phase[p := Configured] && s'.claim == None && s'.regs == s.regs
      && s'.outstanding == s.outstanding
      && s'.slots.devices == s.slots.devices[slot := p] && s'.slots.enabled == s.slots.enabled + {slot}
      && s'.slots.byPort == s.slots.byPort[p := (if p in s.slots.byPort then s.slots.byPort[p] else []) + [slot]]
      && s'.slots.max == s.slots.max
  {
    HubRequestReturnsExactly(s, p, slot);
    assert s.phase[p := EnablingSlot][p := AddressingDevice][p := Configured] == s.phase[p := Configured];
  }

  /** Slots are refused exactly above the maximum or when they are taken. */
  lemma AllocateExactly(t: Slots, p: nat, id: nat)
    ensures AllocateSlot(t, p, id) == if id > t.max then Failed(InvalidSlot)
      else if id in t.devices then Failed(AlreadyAllocated)
      else Done(Slots(t.byPort[p := (if p in t.byPort then t.byPort[p] else []) + [id]], t.devices[id := p], t.max,
                      t.enabled))
  {}
}
