/** Runs of the port protocol: handlers are atomic, the environment plugs, unplugs and completes commands. */
module PortProtocol {
  import opened Basics
  import opened Sequences
  import opened Ports

  datatype Step =
    | Connect(port: nat, enabledByLink: bool)  // a USB 3 port comes up enabled
    | Disconnect(port: nat)
    | Configure(port: nat)                     // the start-up loop
    | Notify(port: nat)                        // a Port Status Change event is handled
    | Finish(index: nat, slot: nat, success: bool)
    | HubRequest(port: nat, slot: nat)

  /** The hardware hands out only free slot ids in range. */
  predicate Possible(s: State, step: Step) {
    && WellFormed(s)
    && match step
       case Connect(p, _) => p < |s.phase| && !s.regs[p].ccs
       case Disconnect(p) => p < |s.phase| && s.regs[p].ccs
       case Configure(p) => p < |s.phase|
       case Notify(p) => p < |s.phase|
       case Finish(i, slot, success) =>
         && i < |s.outstanding|
         && (success && s.outstanding[i].EnableSlot? ==> slot <= s.slots.max && slot !in s.slots.enabled)
       case HubRequest(p, slot) => p < |s.phase| && slot <= s.slots.max && slot !in s.slots.enabled
  }

  function Take(s: State, step: Step): Outcome<State>
    requires Possible(s, step)
  {
    match step
    case Connect(p, ped) => Done(s.(regs := s.regs[p := PortReg(true, true, ped)]))
    case Disconnect(p) => Done(s.(regs := s.regs[p := PortReg(false, true, false)]))
    case Configure(p) => ConfigurePort(s, p)
    case Notify(p) => StatusChange(s, p)
    case Finish(i, slot, success) => Complete(s, i, slot, success)
    case HubRequest(p, slot) => InitPortDevice(s, p, slot)
  }

  predicate Initial(s: State) {
    && WellFormed(s)
    && (forall p :: 0 <= p < |s.phase| ==> s.phase[p].NotConnected?)
    && (forall p :: 0 <= p < |s.phase| ==> if s.regs[p].ccs then s.regs[p].csc else !s.regs[p].ped)
    && s.claim == None && s.outstanding == [] && s.slots.byPort == map[] && s.slots.devices == map[]
  }

  ghost predicate IsRun(run: seq<State>, steps: seq<Step>) {
    && |run| == |steps| + 1
    && Initial(run[0])
    && forall k :: 0 <= k < |steps| ==> Possible(run[k], steps[k]) && Take(run[k], steps[k]) == Done(run[k + 1])
  }

  // Slots

  /** The allocated devices are exactly the slots in the map, each once and under its own port. */
  predicate SlotsAgree(t: Slots) {
    && (forall p :: p in t.byPort ==> NoDuplicates(t.byPort[p]))
    && (forall p, id :: p in t.byPort && id in t.byPort[p] ==> id in t.devices && t.devices[id] == p)
    && (forall id :: id in t.devices ==> t.devices[id] in t.byPort && id in t.byPort[t.devices[id]])
    && t.devices.Keys <= t.enabled
  }

  lemma AllocateKeepsAgreement(t: Slots, p: nat, id: nat)
    requires SlotsAgree(t) && id <= t.max && id !in t.devices && id in t.enabled
    ensures AllocateSlot(t, p, id).Done? && SlotsAgree(AllocateSlot(t, p, id).value)
  {}

  lemma {:induction false} DeallocateRemoves(t: Slots, ids: seq<nat>)
    requires NoDuplicates(ids) && forall x :: x in ids ==> x in t.devices
    ensures Deallocate(t, ids) ==
      var gone := set x | x in ids; Done(t.(devices := t.devices - gone, enabled := t.enabled - gone))
    decreases |ids|
  {
    if ids == [] {
      var gone := set x | x in ids;
      assert gone == {} && t.devices - gone == t.devices && t.enabled - gone == t.enabled;
    } else {
      var init, last := ids[..|ids| - 1], ids[|ids| - 1];
      DeallocateRemoves(t, init);
      var before := set x | x in init;
      var gone := set x | x in ids;
      assert gone == before + {last};
      assert t.devices - before - {last} == t.devices - gone;
      assert t.enabled - before - {last} == t.enabled - gone;
    }
  }

  lemma DevicesOfPort(t: Slots, p: nat)
    requires SlotsAgree(t)
    ensures forall x :: x in SlotsOf(t, p) <==> x in t.devices && t.devices[x] == p
    ensures var gone := set x | x in SlotsOf(t, p);
      t.devices - gone == map x | x in t.devices && t.devices[x] != p :: t.devices[x]
  {}

  lemma WithoutPortAgrees(t: Slots, p: nat, gone: set<nat>)
    requires SlotsAgree(t) && forall x :: x in gone <==> x in t.devices && t.devices[x] == p
    ensures SlotsAgree(Slots(t.byPort - {p}, t.devices - gone, t.max, t.enabled - gone))
  {}

  /** Releasing a port removes exactly its own devices. */
  lemma ReleaseKeepsAgreement(t: Slots, p: nat)
    requires SlotsAgree(t)
    ensures ReleasePort(t, p).Done?
    ensures var t' := ReleasePort(t, p).value;
      && SlotsAgree(t') && t'.max == t.max && t'.enabled <= t.enabled
      && t'.devices == map x | x in t.devices && t.devices[x] != p :: t.devices[x]
  {
    DevicesOfPort(t, p);
    DeallocateRemoves(t, SlotsOf(t, p));
    WithoutPortAgrees(t, p, set x | x in SlotsOf(t, p));
  }

  lemma ResetThenRequestKeepsSlots(s: State, p: nat)
    requires WellFormed(s) && p < |s.phase|
    ensures match ResetThenRequest(s, p)
      case Done(s') => s'.slots == s.slots && WellFormed(s')
      case Failed(why) => why in {InvalidPhase, Unbounded}
  {}

  lemma NotifyKeepsSlots(s: State, p: nat)
    requires WellFormed(s) && p < |s.phase| && SlotsAgree(s.slots)
    ensures match StatusChange(s, p)
      case Done(s') => SlotsAgree(s'.slots) && WellFormed(s')
      case Failed(why) => why in {InvalidPhase, Unbounded}
  {
    match s.phase[p]
    case NotConnected => ResetThenRequestKeepsSlots(s, p);
    case ResettingPort =>
    case WaitingAddressed => ResetThenRequestKeepsSlots(SetPhase(s, p, NotConnected).(claim := Some(p)), p);
    case _ => ReleaseKeepsAgreement(s.slots, p);
  }

  lemma EnableSlotKeepsSlots(s: State, slot: nat)
    requires WellFormed(s) && SlotsAgree(s.slots)
    requires slot <= s.slots.max && slot !in s.slots.devices && slot in s.slots.enabled
    ensures match EnableSlotCompleted(s, slot)
      case Done(s') => SlotsAgree(s'.slots) && WellFormed(s')
      case Failed(why) => why == InvalidPhase
  {
    if s.claim.Some? {
      AllocateKeepsAgreement(s.slots, s.claim.value, slot);
    }
  }

  lemma AddressDeviceKeepsSlots(s: State, slot: nat)
    requires WellFormed(s)
    ensures match AddressDeviceCompleted(s, slot)
      case Done(s') => s'.slots == s.slots && WellFormed(s')
      case Failed(why) => why in {InvalidPhase, InvalidSlot}
  {}

  lemma FinishKeepsSlots(s: State, i: nat, slot: nat, success: bool)
    requires Possible(s, Finish(i, slot, success)) && SlotsAgree(s.slots)
    ensures match Complete(s, i, slot, success)
      case Done(s') => SlotsAgree(s'.slots) && WellFormed(s')
      case Failed(why) => why in {InvalidPhase, InvalidSlot}
  {
    var s1 := s.(outstanding := s.outstanding[..i] + s.outstanding[i + 1..]);
    if success && s.outstanding[i].EnableSlot? {
      EnableSlotKeepsSlots(GrantSlot(s1, slot), slot);
    } else if success {
      AddressDeviceKeepsSlots(s1, s.outstanding[i].slot);
    }
  }

  /** A hub request is answered exactly on a root port that is enabled with no change pending; on any other it holds
      the register lock for ever. */
  lemma HubRequestReturnsExactly(s: State, p: nat, slot: nat)
    requires Possible(s, HubRequest(p, slot)) && SlotsAgree(s.slots)
    ensures match InitPortDevice(s, p, slot)
      case Done(s') => SlotsAgree(s'.slots) && WellFormed(s') && s'.slots.devices == s.slots.devices[slot := p]
      case Failed(why) => why == Unbounded
    ensures InitPortDevice(s, p, slot).Done? <==> s.regs[p].ped && !s.regs[p].csc
  {
    AllocateKeepsAgreement(GrantSlot(s, slot).slots, p, slot);
  }

  lemma StepKeepsSlots(s: State, step: Step)
    requires Possible(s, step) && SlotsAgree(s.slots)
    ensures match Take(s, step)
      case Done(s') => SlotsAgree(s'.slots) && WellFormed(s')
      case Failed(why) => why !in {AlreadyAllocated, NotAllocated}
  {
    match step
    case Connect(_, _) =>
    case Disconnect(_) =>
    case Configure(_) =>
    case Notify(p) => NotifyKeepsSlots(s, p);
    case Finish(i, slot, success) => FinishKeepsSlots(s, i, slot, success);
    case HubRequest(p, slot) => HubRequestReturnsExactly(s, p, slot);
  }

  /** In every run, hub requests included, the slot map and the device table agree, so neither the
      "already allocated" panic nor the deallocation assertion can be reached by a further step. */
  lemma {:induction false} SlotIndexAgreement(run: seq<State>, steps: seq<Step>, k: nat)
    requires IsRun(run, steps) && k < |run|
    ensures SlotsAgree(run[k].slots)
    ensures forall step :: Possible(run[k], step) ==>
      Take(run[k], step) != Failed(AlreadyAllocated) && Take(run[k], step) != Failed(NotAllocated)
    decreases k
  {
    if k > 0 {
      SlotIndexAgreement(run, steps, k - 1);
      assert Take(run[k - 1], steps[k - 1]) == Done(run[k - 1 + 1]);
      StepKeepsSlots(run[k - 1], steps[k - 1]);
    }
    forall step | Possible(run[k], step)
      ensures Take(run[k], step) != Failed(AlreadyAllocated) && Take(run[k], step) != Failed(NotAllocated)
    {
      StepKeepsSlots(run[k], step);
    }
  }
}
