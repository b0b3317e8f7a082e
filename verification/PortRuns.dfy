/** Concrete runs of a controller with two root ports, each reaching one of the failures of `PortFailures`. */
module PortRuns {
  import opened Basics
  import opened Ports
  import opened PortProtocol
  import opened PortExclusion
  import opened PortFailures
  import opened PortEvents
  import StaleAddresses

  const PLUGGED := PortReg(true, true, false)
  const READY := PortReg(true, false, true)
  const UNPLUGGED := PortReg(false, true, false)
  const EMPTY := PortReg(false, false, false)
  const NO_SLOTS := Slots(map[], map[], 10, {})
  const SLOT_1_ON_PORT_0 := Slots(map[0 := [1]], map[1 := 0], 10, {1})
  const SLOT_1_ON_PORT_1 := Slots(map[1 := [1]], map[1 := 1], 10, {1})

  function Two(a: Phase, aReg: PortReg, b: Phase, bReg: PortReg, claim: Option<nat>,
               outstanding: seq<Command>, slots: Slots): State {
    State([a, b], claim, [aReg, bReg], outstanding, slots)
  }

  lemma UpdateTwo<T>(a: T, b: T, c: T)
    ensures [a, b][0 := c] == [c, b] && [a, b][1 := c] == [a, c]
  {}

  /** Bringing up one of the two ports. */
  lemma NotifyFirst(b: Phase, bReg: PortReg, outstanding: seq<Command>, slots: Slots)
    requires forall id :: id in slots.devices ==> slots.devices[id] < 2
    ensures var s := Two(NotConnected, PLUGGED, b, bReg, None, outstanding, slots);
      Possible(s, Notify(0)) && RootStep(s, Notify(0)) && Take(s, Notify(0)) ==
        Done(Two(EnablingSlot, READY, b, bReg, Some(0), outstanding + [EnableSlot], slots))
  {
    UpdateTwo(PLUGGED, bReg, READY);
    UpdateTwo(NotConnected, b, EnablingSlot);
  }

  lemma NotifySecond(a: Phase, aReg: PortReg, outstanding: seq<Command>, slots: Slots)
    requires forall id :: id in slots.devices ==> slots.devices[id] < 2
    ensures var s := Two(a, aReg, NotConnected, PLUGGED, None, outstanding, slots);
      Possible(s, Notify(1)) && RootStep(s, Notify(1)) && Take(s, Notify(1)) ==
        Done(Two(a, aReg, EnablingSlot, READY, Some(1), outstanding + [EnableSlot], slots))
  {
    UpdateTwo(aReg, PLUGGED, READY);
    UpdateTwo(a, NotConnected, EnablingSlot);
  }

  /** A device that is plugged in and out again before its status change is handled hangs the kernel. */
  lemma PlugAndUnplugHangs()
    ensures var s0 := Two(NotConnected, EMPTY, NotConnected, EMPTY, None, [], NO_SLOTS);
      var s1 := Two(NotConnected, PLUGGED, NotConnected, EMPTY, None, [], NO_SLOTS);
      var s2 := Two(NotConnected, UNPLUGGED, NotConnected, EMPTY, None, [], NO_SLOTS);
      && IsRootRun([s0, s1, s2], [Connect(0, false), Disconnect(0)])
      && StatusChange(s2, 0) == Failed(Unbounded)
  {
    UpdateTwo(EMPTY, EMPTY, PLUGGED);
    UpdateTwo(PLUGGED, EMPTY, UNPLUGGED);
  }

  /** Port 0 is unplugged and given up with its Enable Slot command outstanding; port 1 asks for a slot and is given
      the one granted to that command. */
  function StaleRun(): seq<State> {
    [Two(NotConnected, PLUGGED, NotConnected, PLUGGED, None, [], NO_SLOTS),
     Two(EnablingSlot, READY, NotConnected, PLUGGED, Some(0), [EnableSlot], NO_SLOTS),
     Two(EnablingSlot, UNPLUGGED, NotConnected, PLUGGED, Some(0), [EnableSlot], NO_SLOTS),
     Two(NotConnected, EMPTY, NotConnected, PLUGGED, None, [EnableSlot], NO_SLOTS),
     Two(NotConnected, EMPTY, EnablingSlot, READY, Some(1), [EnableSlot, EnableSlot], NO_SLOTS),
     Two(NotConnected, EMPTY, AddressingDevice, READY, Some(1), [EnableSlot, AddressDevice(1)], SLOT_1_ON_PORT_1)]
  }

  function StaleSteps(): seq<Step> {
    [Notify(0), Disconnect(0), Notify(0), Notify(1), Finish(0, 1, true)]
  }

  lemma PortZeroGivenUp()
    ensures Possible(StaleRun()[2], Notify(0)) && Take(StaleRun()[2], Notify(0)) == Done(StaleRun()[3])
  {
    UpdateTwo(UNPLUGGED, PLUGGED, EMPTY);
    UpdateTwo(EnablingSlot, NotConnected, NotConnected);
    assert NO_SLOTS.byPort - {0} == map[];
    assert Take(StaleRun()[2], Notify(0)) == ResetConnection(StaleRun()[2], 0);
  }

  /** Port 1 is enabling a slot and the oldest request completes with slot 1. */
  lemma GrantSlotOne(a: Phase, aReg: PortReg, rest: seq<Command>)
    ensures var s := Two(a, aReg, EnablingSlot, READY, Some(1), [EnableSlot] + rest, NO_SLOTS);
      Possible(s, Finish(0, 1, true)) && Take(s, Finish(0, 1, true)) ==
        Done(Two(a, aReg, AddressingDevice, READY, Some(1), rest + [AddressDevice(1)], SLOT_1_ON_PORT_1))
  {
    var s := Two(a, aReg, EnablingSlot, READY, Some(1), [EnableSlot] + rest, NO_SLOTS);
    assert s.outstanding[..0] + s.outstanding[1..] == rest;
    UpdateTwo(a, EnablingSlot, AddressingDevice);
    assert AllocateSlot(NO_SLOTS.(enabled := {1}), 1, 1) == Done(SLOT_1_ON_PORT_1) by {
      assert [] + [1] == [1];
    }
    assert NO_SLOTS.enabled + {1} == {1};
  }

  lemma StaleSlotGranted()
    ensures var s, step := StaleRun()[4], StaleSteps()[4]; Possible(s, step) && Take(s, step) == Done(StaleRun()[5])
  {
    GrantSlotOne(NotConnected, EMPTY, [EnableSlot]);
    assert [EnableSlot] + [EnableSlot] == [EnableSlot, EnableSlot];
    assert [EnableSlot] + [AddressDevice(1)] == [EnableSlot, AddressDevice(1)];
  }

  lemma StaleStep(k: nat)
    requires k < 5
    ensures Possible(StaleRun()[k], StaleSteps()[k]) && RootStep(StaleRun()[k], StaleSteps()[k])
    ensures Take(StaleRun()[k], StaleSteps()[k]) == Done(StaleRun()[k + 1])
  {
    match k
    case 0 =>
      NotifyFirst(NotConnected, PLUGGED, [], NO_SLOTS);
      assert [] + [EnableSlot] == [EnableSlot];
    case 1 => UpdateTwo(READY, PLUGGED, UNPLUGGED);
    case 2 => PortZeroGivenUp();
    case 3 =>
      NotifySecond(NotConnected, EMPTY, [EnableSlot], NO_SLOTS);
      assert [EnableSlot] + [EnableSlot] == [EnableSlot, EnableSlot];
    case _ => StaleSlotGranted();
  }

  /** A stale completion panics if no port is enabling a slot, and is otherwise taken by the wrong port; the completion
      that port was waiting for then panics although the port was never given up. */
  lemma StaleSlotGoesToAnotherPort()
    ensures IsRootRun(StaleRun(), StaleSteps())
    ensures Complete(StaleRun()[3], 0, 1, true) == Failed(InvalidPhase)
    ensures StaleRun()[5].slots.devices == map[1 := 1] && Complete(StaleRun()[5], 0, 2, true) == Failed(InvalidPhase)
  {
    forall k | 0 <= k < 5
      ensures Possible(StaleRun()[k], StaleSteps()[k]) && RootStep(StaleRun()[k], StaleSteps()[k])
      ensures Take(StaleRun()[k], StaleSteps()[k]) == Done(StaleRun()[k + 1])
    {
      StaleStep(k);
    }
  }

  /** While port 0 is asking for a slot, the hub on port 1 asks for a device. */
  function HubRun(): seq<State> {
    [Two(NotConnected, PLUGGED, NotConnected, PLUGGED, None, [], NO_SLOTS),
     Two(NotConnected, PLUGGED, EnablingSlot, READY, Some(1), [EnableSlot], NO_SLOTS),
     Two(NotConnected, PLUGGED, AddressingDevice, READY, Some(1), [AddressDevice(1)], SLOT_1_ON_PORT_1),
     Two(NotConnected, PLUGGED, Configured, READY, None, [], SLOT_1_ON_PORT_1),
     Two(EnablingSlot, READY, Configured, READY, Some(0), [EnableSlot], SLOT_1_ON_PORT_1),
     Two(EnablingSlot, READY, Configured, READY, None, [EnableSlot],
         Slots(map[1 := [1, 2]], map[1 := 1, 2 := 1], 10, {1, 2}))]
  }

  function HubSteps(): seq<Step> {
    [Notify(1), Finish(0, 1, true), Finish(0, 1, true), Notify(0), HubRequest(1, 2)]
  }

  lemma PortOneConfigured()
    ensures Possible(HubRun()[2], HubSteps()[2]) && Take(HubRun()[2], HubSteps()[2]) == Done(HubRun()[3])
  {
    UpdateTwo(NotConnected, AddressingDevice, Configured);
    assert FirstWaiting([NotConnected, AddressingDevice]) == None;
  }

  lemma HubRequestServed()
    ensures Possible(HubRun()[4], HubSteps()[4]) && Take(HubRun()[4], HubSteps()[4]) == Done(HubRun()[5])
  {
    var s := HubRun()[4];
    UpdateTwo(EnablingSlot, Configured, EnablingSlot);
    UpdateTwo(EnablingSlot, EnablingSlot, AddressingDevice);
    UpdateTwo(EnablingSlot, AddressingDevice, Configured);
    assert AllocateSlot(SLOT_1_ON_PORT_1.(enabled := {1, 2}), 1, 2) == Done(HubRun()[5].slots) by {
      assert [1] + [2] == [1, 2];
      assert map[1 := [1]][1 := [1, 2]] == map[1 := [1, 2]];
      assert map[1 := 1][2 := 1] == map[1 := 1, 2 := 1];
    }
    assert {1} + {2} == {1, 2};
  }

  lemma HubStep(k: nat)
    requires k < 5
    ensures Possible(HubRun()[k], HubSteps()[k]) && Take(HubRun()[k], HubSteps()[k]) == Done(HubRun()[k + 1])
  {
    match k
    case 0 =>
      NotifySecond(NotConnected, PLUGGED, [], NO_SLOTS);
      assert [] + [EnableSlot] == [EnableSlot];
    case 1 =>
      GrantSlotOne(NotConnected, PLUGGED, []);
      assert [EnableSlot] + [] == [EnableSlot] && [] + [AddressDevice(1)] == [AddressDevice(1)];
    case 2 => PortOneConfigured();
    case 3 =>
      NotifyFirst(Configured, READY, [], SLOT_1_ON_PORT_1);
      assert [] + [EnableSlot] == [EnableSlot];
    case _ => HubRequestServed();
  }

  /** The claim of port 0 is gone, so its completion panics and a third port could start addressing beside it. */
  lemma HubRequestTakesTheClaim()
    ensures IsRun(HubRun(), HubSteps())
    ensures var s := HubRun()[5];
      Addressing(s.phase[0]) && s.claim == None && Complete(s, 0, 3, true) == Failed(InvalidPhase)
  {
    forall k | 0 <= k < 5
      ensures Possible(HubRun()[k], HubSteps()[k]) && Take(HubRun()[k], HubSteps()[k]) == Done(HubRun()[k + 1])
    {
      HubStep(k);
    }
  }

  /** The hub on port 1 is pulled out while its request is under way: the request never returns. */
  lemma HubRequestHangs()
    ensures var run := HubRun()[..4] + [HubRun()[3].(regs := [PLUGGED, UNPLUGGED])];
      && IsRun(run, HubSteps()[..3] + [Disconnect(1)])
      && InitPortDevice(run[4], 1, 2) == Failed(Unbounded)
  {
    var run := HubRun()[..4] + [HubRun()[3].(regs := [PLUGGED, UNPLUGGED])];
    var steps := HubSteps()[..3] + [Disconnect(1)];
    forall k | 0 <= k < 4 ensures Possible(run[k], steps[k]) && Take(run[k], steps[k]) == Done(run[k + 1]) {
      if k < 3 {
        HubStep(k);
      } else {
        UpdateTwo(PLUGGED, READY, UNPLUGGED);
      }
    }
  }

  /** Port 0 is given up with its Address Device command outstanding, and its slot is granted again to port 1. */
  function StaleAddressRun(): seq<State> {
    [Two(NotConnected, PLUGGED, NotConnected, PLUGGED, None, [], NO_SLOTS),
     Two(EnablingSlot, READY, NotConnected, PLUGGED, Some(0), [EnableSlot], NO_SLOTS),
     Two(AddressingDevice, READY, NotConnected, PLUGGED, Some(0), [AddressDevice(1)], SLOT_1_ON_PORT_0),
     Two(AddressingDevice, UNPLUGGED, NotConnected, PLUGGED, Some(0), [AddressDevice(1)], SLOT_1_ON_PORT_0),
     Two(NotConnected, EMPTY, NotConnected, PLUGGED, None, [AddressDevice(1)], NO_SLOTS),
     Two(NotConnected, EMPTY, EnablingSlot, READY, Some(1), [AddressDevice(1), EnableSlot], NO_SLOTS),
     Two(NotConnected, EMPTY, AddressingDevice, READY, Some(1), [AddressDevice(1), AddressDevice(1)], SLOT_1_ON_PORT_1),
     Two(NotConnected, EMPTY, Configured, READY, None, [AddressDevice(1)], SLOT_1_ON_PORT_1)]
  }

  function StaleAddressSteps(): seq<Step> {
    [Notify(0), Finish(0, 1, true), Disconnect(0), Notify(0), Notify(1), Finish(1, 1, true), Finish(0, 1, true)]
  }

  lemma GrantSlotToPortZero()
    ensures var run, steps := StaleAddressRun(), StaleAddressSteps();
      Possible(run[1], steps[1]) && Take(run[1], steps[1]) == Done(run[2])
  {
    assert [EnableSlot][..0] + [EnableSlot][1..] == [] && [] + [AddressDevice(1)] == [AddressDevice(1)];
    UpdateTwo(EnablingSlot, NotConnected, AddressingDevice);
    assert AllocateSlot(NO_SLOTS.(enabled := {1}), 0, 1) == Done(SLOT_1_ON_PORT_0) by {
      assert [] + [1] == [1];
    }
    assert NO_SLOTS.enabled + {1} == {1};
  }

  lemma SlotOfPortZeroFreed()
    ensures ReleasePort(SLOT_1_ON_PORT_0, 0) == Done(NO_SLOTS)
  {
    assert [1][..0] == [];
    assert Deallocate(SLOT_1_ON_PORT_0, []) == Done(SLOT_1_ON_PORT_0);
    assert SLOT_1_ON_PORT_0.devices - {1} == map[] && SLOT_1_ON_PORT_0.enabled - {1} == {};
    assert SLOT_1_ON_PORT_0.byPort - {0} == map[];
  }

  lemma PortZeroGivenUpAddressing()
    ensures var run, steps := StaleAddressRun(), StaleAddressSteps();
      Possible(run[3], steps[3]) && Take(run[3], steps[3]) == Done(run[4])
  {
    SlotOfPortZeroFreed();
    UpdateTwo(UNPLUGGED, PLUGGED, EMPTY);
    UpdateTwo(AddressingDevice, NotConnected, NotConnected);
    assert Take(StaleAddressRun()[3], Notify(0)) == ResetConnection(StaleAddressRun()[3], 0);
  }

  lemma GrantSlotAgain()
    ensures var run, steps := StaleAddressRun(), StaleAddressSteps();
      Possible(run[5], steps[5]) && Take(run[5], steps[5]) == Done(run[6])
  {
    var cmds := [AddressDevice(1), EnableSlot];
    assert cmds[..1] + cmds[2..] == [AddressDevice(1)];
    assert [AddressDevice(1)] + [AddressDevice(1)] == [AddressDevice(1), AddressDevice(1)];
    UpdateTwo(NotConnected, EnablingSlot, AddressingDevice);
    assert AllocateSlot(NO_SLOTS.(enabled := {1}), 1, 1) == Done(SLOT_1_ON_PORT_1) by {
      assert [] + [1] == [1];
    }
    assert NO_SLOTS.enabled + {1} == {1};
  }

  lemma PortOneConfiguredEarly()
    ensures var run, steps := StaleAddressRun(), StaleAddressSteps();
      Possible(run[6], steps[6]) && Take(run[6], steps[6]) == Done(run[7])
  {
    var cmds := [AddressDevice(1), AddressDevice(1)];
    assert cmds[..0] + cmds[1..] == [AddressDevice(1)];
    UpdateTwo(NotConnected, AddressingDevice, Configured);
    assert FirstWaiting([NotConnected, AddressingDevice]) == None;
  }

  lemma StaleAddressStep(k: nat)
    requires k < 7
    ensures var run, steps := StaleAddressRun(), StaleAddressSteps();
      Possible(run[k], steps[k]) && RootStep(run[k], steps[k]) && Take(run[k], steps[k]) == Done(run[k + 1])
  {
    match k
    case 0 =>
      NotifyFirst(NotConnected, PLUGGED, [], NO_SLOTS);
      assert [] + [EnableSlot] == [EnableSlot];
    case 1 => GrantSlotToPortZero();
    case 2 => UpdateTwo(READY, PLUGGED, UNPLUGGED);
    case 3 => PortZeroGivenUpAddressing();
    case 4 =>
      NotifySecond(NotConnected, EMPTY, [AddressDevice(1)], NO_SLOTS);
      assert [AddressDevice(1)] + [EnableSlot] == [AddressDevice(1), EnableSlot];
    case 5 => GrantSlotAgain();
    case _ => PortOneConfiguredEarly();
  }

  /** The completion of port 0's command configures port 1 before its device has an address, and the completion of port
      1's own command then panics. */
  lemma StaleAddressConfiguresAnotherPort()
    ensures IsRootRun(StaleAddressRun(), StaleAddressSteps())
    ensures var s := StaleAddressRun()[7];
      s.phase[1].Configured? && s.outstanding == [AddressDevice(1)] && StaleAddresses.Doomed(s, 0)
  {
    var run, steps := StaleAddressRun(), StaleAddressSteps();
    forall k | 0 <= k < 7
      ensures Possible(run[k], steps[k]) && RootStep(run[k], steps[k]) && Take(run[k], steps[k]) == Done(run[k + 1])
    {
      StaleAddressStep(k);
    }
  }

  /** A failed Enable Slot command leaves port 0 with the claim and port 1 waiting for it; port 0 is then given up. */
  function StrandedRun(): seq<State> {
    [Two(NotConnected, PLUGGED, NotConnected, PLUGGED, None, [], NO_SLOTS),
     Two(EnablingSlot, READY, NotConnected, PLUGGED, Some(0), [EnableSlot], NO_SLOTS),
     Two(EnablingSlot, READY, WaitingAddressed, PLUGGED, Some(0), [EnableSlot], NO_SLOTS),
     Two(EnablingSlot, READY, WaitingAddressed, PLUGGED, Some(0), [], NO_SLOTS),
     Two(EnablingSlot, UNPLUGGED, WaitingAddressed, PLUGGED, Some(0), [], NO_SLOTS),
     Two(NotConnected, EMPTY, WaitingAddressed, PLUGGED, None, [], NO_SLOTS)]
  }

  function StrandedSteps(): seq<Step> {
    [Notify(0), Notify(1), Finish(0, 0, false), Disconnect(0), Notify(0)]
  }

  function StrandedEvents(): seq<seq<nat>> {
    [[1, 1], [1, 1], [1, 0], [1, 0], [2, 0], [1, 0]]
  }

  lemma PortZeroReleased()
    ensures var s := StrandedRun()[4]; Possible(s, Notify(0)) && Take(s, Notify(0)) == Done(StrandedRun()[5])
  {
    UpdateTwo(UNPLUGGED, PLUGGED, EMPTY);
    UpdateTwo(EnablingSlot, WaitingAddressed, NotConnected);
    assert NO_SLOTS.byPort - {0} == map[];
    assert Take(StrandedRun()[4], Notify(0)) == ResetConnection(StrandedRun()[4], 0);
  }

  lemma StrandedStep(k: nat)
    requires k < 5
    ensures var run, steps := StrandedRun(), StrandedSteps();
      Possible(run[k], steps[k]) && RootStep(run[k], steps[k]) && Take(run[k], steps[k]) == Done(run[k + 1])
  {
    match k
    case 0 =>
      NotifyFirst(NotConnected, PLUGGED, [], NO_SLOTS);
      assert [] + [EnableSlot] == [EnableSlot];
    case 1 => UpdateTwo(EnablingSlot, NotConnected, WaitingAddressed);
    case 2 => assert [EnableSlot][..0] + [EnableSlot][1..] == [];
    case 3 => UpdateTwo(READY, PLUGGED, UNPLUGGED);
    case _ => PortZeroReleased();
  }

  lemma StrandedEventStep(k: nat)
    requires k < 5
    ensures EventStep(StrandedRun()[k], StrandedEvents()[k], StrandedSteps()[k], StrandedRun()[k + 1],
                      StrandedEvents()[k + 1])
  {
    StrandedStep(k);
  }

  /** Port 0 first holds up port 1 for good, and when it is pulled out port 1 has no event left: connected, with the
      claim free and no command outstanding, it is stranded. */
  lemma FailureStrandsTheWaiting()
    ensures IsEventRun(StrandedRun(), StrandedEvents(), StrandedSteps())
    ensures Stuck(StrandedRun()[3], 0) && StrandedRun()[3].phase[1].WaitingAddressed?
    ensures var s := StrandedRun()[5];
      Stranded(s, StrandedEvents()[5], 1) && s.regs[1].ccs && s.claim == None && s.outstanding == []
  {
    var run, steps := StrandedRun(), StrandedSteps();
    forall k | 0 <= k < 5
      ensures Possible(run[k], steps[k]) && RootStep(run[k], steps[k]) && Take(run[k], steps[k]) == Done(run[k + 1])
      ensures EventStep(run[k], StrandedEvents()[k], steps[k], run[k + 1], StrandedEvents()[k + 1])
    {
      StrandedStep(k);
      StrandedEventStep(k);
    }
  }
}
