/** Root-port bring-up: phases, the addressing claim, slots and the command handlers
    (kernel/src/xhci/port.rs, kernel/src/xhci/device_manager.rs, kernel/src/xhci/controller.rs). */
module Ports {
  import opened Basics

  datatype Phase =
    | NotConnected | WaitingAddressed | ResettingPort | EnablingSlot | AddressingDevice
    | InitializingDevice | ConfiguringEndpoints | Configured

  /** The PORTSC bits the protocol reads: connected, connect status change, enabled. */
  datatype PortReg = PortReg(ccs: bool, csc: bool, ped: bool)

  datatype Command = EnableSlot | AddressDevice(slot: nat)

  datatype Slots = Slots(
    byPort: map<nat, seq<nat>>,     // port_slot_id_map
    devices: map<nat, nat>,         // allocated device slots and their root port
    max: nat,
    enabled: set<nat>)              // the slots the controller hardware has in use

  datatype State = State(
    phase: seq<Phase>,
    claim: Option<nat>,             // addressing_port_index
    regs: seq<PortReg>,
    outstanding: seq<Command>,      // slot commands pushed whose completion has not been handled
    slots: Slots)

  /** `CommandFailed` is a command that the driver does not accept a failure of. */
  datatype Failure = InvalidPhase | InvalidSlot | AlreadyAllocated | NotAllocated | CommandFailed | Unbounded

  /** A handler returns, panics, or (`Unbounded`) never returns. */
  datatype Outcome<T> = Done(value: T) | Failed(why: Failure)

  predicate WellFormed(s: State) {
    && |s.phase| == |s.regs|
    && (s.claim.Some? ==> s.claim.value < |s.phase|)
    && (forall slot :: slot in s.slots.devices ==> s.slots.devices[slot] < |s.phase|)
  }

  predicate ClaimFreeFor(s: State, p: nat) {
    s.claim == None || s.claim == Some(p)
  }

  function SetPhase(s: State, p: nat, phase: Phase): State
    requires p < |s.phase|
  {
    s.(phase := s.phase[p := phase])
  }

  /** A completed port reset acknowledges the connect status change and enables the port. */
  function ResetPort(s: State, p: nat): Outcome<State>
    requires WellFormed(s) && p < |s.phase|
  {
    var reg := s.regs[p];
    if !reg.ccs || !reg.csc then Done(s)
    else if !ClaimFreeFor(s, p) then Done(SetPhase(s, p, WaitingAddressed))
    else if !s.phase[p].NotConnected? && !s.phase[p].WaitingAddressed? then Failed(InvalidPhase)
    else Done(s.(claim := Some(p), regs := s.regs[p := PortReg(true, false, true)]))
  }

  function SlotRequested(s: State, p: nat): State
    requires p < |s.phase|
  {
    SetPhase(s, p, EnablingSlot).(outstanding := s.outstanding + [EnableSlot])
  }

  /** A port that is not ready is reset and the call repeated, but under the register lock that the reset takes
      again: such a call never returns. */
  function RequestSlot(s: State, p: nat): Outcome<State>
    requires WellFormed(s) && p < |s.phase|
  {
    if s.regs[p].ped && !s.regs[p].csc then Done(SlotRequested(s, p)) else Failed(Unbounded)
  }

  function ResetThenRequest(s: State, p: nat): Outcome<State>
    requires WellFormed(s) && p < |s.phase|
  {
    match ResetPort(s, p)
    case Done(s') => RequestSlot(s', p)
    case Failed(why) => Failed(why)
  }

  /** Disable and deallocate the slots in turn. */
  function Deallocate(t: Slots, ids: seq<nat>): Outcome<Slots>
    decreases |ids|
  {
    if ids == [] then Done(t)
    else
      match Deallocate(t, ids[..|ids| - 1])
      case Failed(why) => Failed(why)
      case Done(t') =>
        var id := ids[|ids| - 1];
        if id !in t'.devices then Failed(NotAllocated)
        else Done(t'.(devices := t'.devices - {id}, enabled := t'.enabled - {id}))
  }

  function SlotsOf(t: Slots, p: nat): seq<nat> {
    if p in t.byPort then t.byPort[p] else []
  }

  function ReleasePort(t: Slots, p: nat): Outcome<Slots> {
    match Deallocate(t, SlotsOf(t, p))
    case Done(t') => Done(t'.(byPort := t'.byPort - {p}))
    case Failed(why) => Failed(why)
  }

  function ResetConnection(s: State, p: nat): Outcome<State>
    requires WellFormed(s) && p < |s.phase|
  {
    match ReleasePort(s.slots, p)
    case Done(t) =>
      Done(SetPhase(s, p, NotConnected).(
        claim := if s.claim == Some(p) then None else s.claim,
        regs := s.regs[p := s.regs[p].(csc := false)],
        slots := t))
    case Failed(why) => Failed(why)
  }

  function StatusChange(s: State, p: nat): Outcome<State>
    requires WellFormed(s) && p < |s.phase|
  {
    match s.phase[p]
    case NotConnected =>
      if ClaimFreeFor(s, p) then ResetThenRequest(s, p) else Done(SetPhase(s, p, WaitingAddressed))
    case ResettingPort =>
      if ClaimFreeFor(s, p) then RequestSlot(s.(claim := Some(p)), p) else Done(SetPhase(s, p, WaitingAddressed))
    case WaitingAddressed =>
      if s.claim == None then ResetThenRequest(SetPhase(s, p, NotConnected).(claim := Some(p)), p) else Done(s)
    case _ =>
      if s.regs[p].ccs then Done(s) else ResetConnection(s, p)
  }

  /** Record the slot under its port and allocate its device. */
  function AllocateSlot(t: Slots, p: nat, id: nat): Outcome<Slots> {
    if id > t.max then Failed(InvalidSlot)
    else if id in t.devices then Failed(AlreadyAllocated)
    else Done(t.(byPort := t.byPort[p := SlotsOf(t, p) + [id]], devices := t.devices[id := p]))
  }

  function Address(s: State, p: nat, id: nat): Outcome<State>
    requires WellFormed(s) && p < |s.phase|
  {
    match AllocateSlot(s.slots, p, id)
    case Done(t) =>
      Done(SetPhase(s, p, AddressingDevice).(slots := t, outstanding := s.outstanding + [AddressDevice(id)]))
    case Failed(why) => Failed(why)
  }

  function FirstWaiting(phase: seq<Phase>): (q: Option<nat>)
    ensures q.Some? ==> q.value < |phase| && phase[q.value].WaitingAddressed?
    ensures q.Some? ==> forall r :: 0 <= r < q.value ==> !phase[r].WaitingAddressed?
    ensures q.None? ==> forall r :: 0 <= r < |phase| ==> !phase[r].WaitingAddressed?
  {
    if phase == [] then None
    else
      match FirstWaiting(phase[..|phase| - 1])
      case Some(q) => Some(q)
      case None => if phase[|phase| - 1].WaitingAddressed? then Some(|phase| - 1) else None
  }

  /** Initialisation leaves the port configured and clears the claim, whoever holds it. */
  function Initialized(s: State, p: nat): State
    requires p < |s.phase|
  {
    SetPhase(s, p, Configured).(claim := None)
  }

  /** The hardware takes a slot into use when it completes an Enable Slot command. */
  function GrantSlot(s: State, slot: nat): State {
    s.(slots := s.slots.(enabled := s.slots.enabled + {slot}))
  }

  function EnableSlotCompleted(s: State, slot: nat): Outcome<State>
    requires WellFormed(s)
  {
    if s.claim.None? || !s.phase[s.claim.value].EnablingSlot? then Failed(InvalidPhase)
    else Address(s, s.claim.value, slot)
  }

  function AddressDeviceCompleted(s: State, slot: nat): Outcome<State>
    requires WellFormed(s)
  {
    if slot !in s.slots.devices then Failed(InvalidSlot)
    else
      var p := s.slots.devices[slot];
      if s.claim != Some(p) || !s.phase[p].AddressingDevice? then Failed(InvalidPhase)
      else
        var s1 := s.(claim := None);
        match FirstWaiting(s.phase)
        case None => Done(Initialized(s1, p))
        case Some(q) =>
          match ResetPort(s1, q)
          case Done(s2) => Done(Initialized(s2, p))
          case Failed(why) => Failed(why)
  }

  /** Handling the completion of `outstanding[i]`; a failed command is only logged. */
  function Complete(s: State, i: nat, slot: nat, success: bool): Outcome<State>
    requires WellFormed(s) && i < |s.outstanding|
  {
    var s1 := s.(outstanding := s.outstanding[..i] + s.outstanding[i + 1..]);
    if !success then Done(s1)
    else
      match s.outstanding[i]
      case EnableSlot => EnableSlotCompleted(GrantSlot(s1, slot), slot)
      case AddressDevice(slot') => AddressDeviceCompleted(s1, slot')
  }

  function ConfigurePort(s: State, p: nat): Outcome<State>
    requires WellFormed(s) && p < |s.phase|
  {
    if s.phase[p].NotConnected? then ResetPort(s, p) else Done(s)
  }

  /** The start-up loop over the first `n` ports. */
  function ConfigureConnected(s: State, n: nat): (r: Outcome<State>)
    requires WellFormed(s) && n <= |s.phase|
    ensures r.Done? ==> WellFormed(r.value) && |r.value.phase| == |s.phase|
  {
    if n == 0 then Done(s)
    else
      match ConfigureConnected(s, n - 1)
      case Failed(why) => Failed(why)
      case Done(s') => if s'.regs[n - 1].ccs then ConfigurePort(s', n - 1) else Done(s')
  }

  /** A hub asks for a device behind root port `p`: the whole sequence runs inside one handler. */
  function InitPortDevice(s: State, p: nat, slot: nat): Outcome<State>
    requires WellFormed(s) && p < |s.phase|
  {
    match RequestSlot(s, p)
    case Failed(why) => Failed(why)
    case Done(s1) =>
      match Address(GrantSlot(s1.(outstanding := s.outstanding), slot), p, slot)
      case Failed(why) => Failed(why)
      case Done(s2) => Done(Initialized(s2.(outstanding := s.outstanding), p))
  }
}
