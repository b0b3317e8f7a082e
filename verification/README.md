# A verified model of lemola_osv2

This project models, in Dafny 4.11, the parts of the lemola_osv2 kernel whose correctness is hardest to see from
the code, and proves properties of them for every input, every run and every reachable state:
`dafny verify dfyconfig.toml` checks all of it.

| component | files | what is proved |
|---|---|---|
| TRB rings shared with the xHC | Trb, Rings, RingProtocol, Rearm | what is fetched is what was asked for, in order and complete, under every interleaving of single-word stores and fetches; when a push is safe; re-arming refines pushing and goes on for ever |
| Event ring and waiters | EventRing, EventProtocol | the consumer refines a queue; no event is lost or doubled; waiters get only what they wait on |
| Port and slot protocol | Ports, PortProtocol, PortExclusion, PortFailures, PortTable, StaleAddresses, PortEvents, PortRuns, Controller | what every handler does, field by field; addressing is mutually exclusive; completions find their phase; slot map and device table agree; exactly when a handler hangs or panics and when a waiting port is stranded, stale commands counted over every run, and runs that reach each failure |
| Allocators | Placement, Heaps | exactly when the mask arithmetic places blocks correctly and optimally; live blocks never overlap in any run |
| Compositor | Compositor, Windows, Layers | the row-copy flush refines the pixel-by-pixel one; painter's composition |
| Text console | Console | the scrolling grid is the bottom of an unbounded page; exactly when it is the page a typewriter would produce |
| USB bring-up | Hubs, Chains, TickLoop, BringUp, HubBringUp, Descriptors | hub ports are handed over once; exactly on which answers a device comes to run and the bring-up loops end; descriptor parsing round trip and endpoint choice |
| PCI walk | Pci | complete and duplicate-free on every rising tree of bridges |

`Basics`, `Sequences` and `Arithmetic` hold shared types and small facts.

## How the model is built

Objects that the kernel updates in place are classes with the same fields; each method's `ensures` ties the new
state to a function of the old one (`View() == Pushed(old(View()), cmd)`). Properties over whole runs are lemmas
about those functions: a run is a sequence of states and a sequence of steps, every step enabled where it is
taken. Panics and calls that never return are outcomes of the model, not preconditions.

What a transition means is also said without it, in raw fields, bytes and pixels: the lemmas named `…Exactly`,
`…Reads` and `…Leaves`.

The other party is part of the model where the code depends on it. The xHC takes its own steps in `RingProtocol`
and `EventProtocol`; plugging, unplugging and command completion are steps of `PortProtocol`; a USB host is the
sequence of its answers. A TRB is four words; the last one, which holds the cycle bit, is kept as its bit fields.
Machine words are unbounded integers except in `Placement`, where 64-bit wrap-around is written out.

## What the proofs brought out

These are properties one would expect of the code that do not hold as stated. Each has a lemma that says exactly
when the code meets it, and those about runs also a concrete run that reaches the failure.

- A push never checks for room. Delivery survives a push exactly when there is a free slot for the TRB and, on
  the last data slot, for the Link (`RingProtocol.PushKeepsDeliveryExactlyWithRoom`). On a ring of any length, one push
  more than there are data slots destroys the oldest command (`RingProtocol.FullRingLosesOldest`).
- Re-arming a completed slot is not safe by itself: the re-arm of the last data slot rewrites the Link, and this
  stalls the controller exactly when it has taken that slot but not yet followed the Link
  (`Rearm.RearmStallsExactlyOnUnfollowedLink`, reached on a ring of any length in `Rearm.EarlyRearmStalls`).
- `enable_slot_at` means to reset a port that is not ready and to call itself again, but it holds the register lock
  that the reset takes, so such a call never returns. A hub request is answered exactly on a root port that is
  enabled with no change pending (`PortProtocol.HubRequestReturnsExactly`, a hang is reached in
  `PortRuns.HubRequestHangs`); a status change hangs exactly when it
  would bring up a port that has meanwhile been unplugged (`PortFailures.NotifyRunsForeverExactly`, reached in
  `PortRuns.PlugAndUnplugHangs`).
- An Enable Slot completion is matched to whichever port is enabling a slot. It panics exactly when there is none and
  otherwise gives its slot to that port, whoever asked for it (`PortFailures.EnableSlotPanicsExactly`). In every
  root-port run the stale commands number the ports given up while they waited for a slot, less the requests that
  failed (`PortFailures.StaleCommandsAreCounted`). While there is one, an outstanding completion panics now or right
  after another one; otherwise none does (`PortFailures.StaleCompletionsPanic`). In
  `PortRuns.StaleSlotGoesToAnotherPort` the port that panics was never given up.
- Address Device completions are matched by slot number. In every root-port run the stale ones number the ports given up
  while their device was being addressed, less the commands that failed (`StaleAddresses.StaleAddressesAreCounted`);
  while there is one, a completion panics or leaves one that does (`StaleAddresses.StaleAddressPanics`), and without a
  port given up none does (`StaleAddresses.NobodyGivenUpNothingPanics`). A stale one whose slot has been granted again
  configures another port too early (`PortRuns.StaleAddressConfiguresAnotherPort`).
- A slot command that fails is only logged: its port keeps the claim, and until it is unplugged every waiting port
  goes on waiting (`PortFailures.FailedCommandSticks`, `PortFailures.StuckUntilUnplugged`).
  `PortFailures.ClaimReleasedExactly` says when a claim ends.
- Parking a port uses up its status change event, and giving up the claiming port wakes nobody. A connected waiting port
  without a pending event is stranded: neither the free claim nor plugging it in and out helps, only an addressing that
  completes and finds it first (`PortEvents.WaitingComesUpExactly`, `PortEvents.StrandedExactly`,
  `PortEvents.StrandedUntilWoken`, reached in `PortRuns.FailureStrandsTheWaiting`).
- Hub requests bypass the claim; they keep addressing exclusive exactly when no other port is being addressed
  (`PortFailures.HubRequestKeepsExclusionExactly`, violated in `PortRuns.HubRequestTakesTheClaim`).
- An event that cannot be decoded makes the dispatcher panic, and a waiter on an empty list of TRB pointers, which no
  caller builds; nothing else panics on an event (`EventProtocol.PanicsExactly`, `EventProtocol.WaiterGetsOnlyItsKey`).
- Without overflow checks `ceil` wraps to 0 near the top of the address space (`Placement.CeilRoundsUp`). A request is
  placed correctly if and only if neither rounding wraps, or only that of a block which does not fit anyway
  (`Placement.PlacementIsLeastExactly`); any other is placed at address 0 (`Placement.WrappedPlacement`), and the bump
  heap then counts a block it reports as a failure (`Heaps.AllocKeepsSafeExactly`).
- `Window::flush` clips rows at the horizontal resolution; it stays in the frame buffer exactly when the covered
  rows lie above the vertical one (`Windows.FlushStaysInFrameExactly`). An opaque window right of the scan line panics
  (`Windows.Window.Flush`).
- `set_to_top` of an unknown layer puts it on the stack, and the next flush panics
  (`Layers.ApplyKeepsStackExactly`, `Layers.LayerManager.Flush`).
- A newline that arrives while a scroll is due is lost. The console shows what a typewriter would print exactly
  when the text has no empty line at the bottom of a screen already filled (`Consoles.PageIsTypewriterExactly`); text
  without empty lines always does (`Consoles.NoEmptyLinesNothingLost`).
- The loops that wait for devices to run need not end. An input device comes to run exactly when its answers hold, in
  order, one for each step it still needs (`BringUp.RunsExactly`), however many retries lie between
  (`BringUp.EveryOtherCallServes`); a hub exactly when its answers hold a chain whose length the hub descriptor sets
  (`HubBringUp.RunsExactly`). The loop has ended after n rounds exactly when every device has such a chain in them or an
  answer stops one (`BringUp.LoopEndsExactly`, `HubBringUp.LoopEndsExactly`, `HubBringUp.NewHubsEndExactly`).

## Assumptions

- Handlers of the controller run one at a time and to their end: the event loop awaits each of them.
- A poll of a waiter is one step: the front of the event ring does not change between the test and the pop.
- The xHC reads a TRB in one access, writes an event only into a slot whose event has been popped
  (section 4.9.4 of the xHCI specification), and hands out only free slot ids.
- A completed port reset leaves a connected port enabled with the change acknowledged; unplugging clears the
  enabled bit. At the start a connected port has its connect status change pending, and an empty one is not enabled.
- A Port Status Change event is posted when the connect status change bit becomes set and when the reset of a connected
  port completes (section 4.19.2 of the xHCI specification).
- In runs of the port protocol the Disable Slot commands and the two commands of a hub request succeed; the handlers of
  `Controller` cover their failure.
- The driver pushes no Link TRB of its own.
- Callers of the allocators ask for non-zero sizes and free only live blocks; a heap does not start at address 0.

## Model

| member | source | states |
|---|---|---|
| Rings.WriteInOrder | kernel/src/xhci/trb.rs:32-36 | four stores in word order leave exactly the slot replaced |
| Rings.CommandRing.constructor | kernel/src/xhci/command_ring.rs:18-32 | a new ring is all zero, at index 0 with cycle bit set, and with at least two slots satisfies the lap invariant |
| Rings.CommandRing.Push | kernel/src/xhci/command_ring.rs:42-74 | the ring becomes the pushed ring; the slot used is returned and holds the command in every field, with the ring's cycle bit |
| Rings.TransferRing.constructor | kernel/src/xhci/transfer_ring.rs:26-46 | as for the command ring, with the cycle counter at 0 |
| Rings.TransferRing.Push | kernel/src/xhci/transfer_ring.rs:170-198 | as for the command ring |
| Rings.TransferRing.FillWithNormal | kernel/src/xhci/transfer_ring.rs:56-71 | filling is one push per data slot, in order |
| Rings.TransferRing.FlipCycleBitAt | kernel/src/xhci/transfer_ring.rs:73-102 | the slot at the pointer keeps every field but its cycle bit, which is flipped; the write index moves behind it, and at the end the Link is written and the lap counted |
| Rings.Pushed | kernel/src/xhci/transfer_ring.rs:170-198 | a push keeps: slots before the write index carry the cycle bit, the others its negation |
| Rings.PushLeaves | kernel/src/xhci/command_ring.rs:42-74 | field by field: the slot under the write index holds the command with the producer's cycle bit, at the end of a lap the last slot the Link, and no other slot changes |
| Rings.FlipLeaves | kernel/src/xhci/transfer_ring.rs:73-102 | field by field: a flip changes one bit of its slot, writes the Link at the end of a lap, and changes no other slot |
| Rings.FlipRefinesPush | kernel/src/xhci/transfer_ring.rs:73-102 | flipping a slot equals pushing its own payload if and only if the slot is the one under the write index |
| Rings.FilledRing | kernel/src/xhci/transfer_ring.rs:56-71 | a filled ring holds the commands side by side, then the Link, and is one lap ahead |
| RingProtocol.EarlyWordKeeps | kernel/src/xhci/trb.rs:32-36 | storing one of the first three words changes nothing the controller may take |
| RingProtocol.LastDataWordKeeps | kernel/src/xhci/command_ring.rs:42-48 | the last word publishes the whole TRB the driver set out to write, at once and behind all earlier ones |
| RingProtocol.LastLinkWordKeeps | kernel/src/xhci/command_ring.rs:56-72 | the Link's last word ends the lap and publishes no data |
| RingProtocol.FollowLinkKeeps | kernel/src/xhci/command_ring.rs:59-71 | following the Link takes the controller to slot 0 of the next lap and loses nothing |
| RingProtocol.FetchKeeps | kernel/src/xhci/command_ring.rs:42-74 | a fetch takes exactly the oldest TRB not yet taken |
| RingProtocol.StepIsHonest | kernel/src/xhci/command_ring.rs:42-74 | every step keeps the history equal to the TRBs asked for with the cycle bit of their lap, less the one being written, and ties write index and cycle bit to their number |
| RingProtocol.FifoOnEveryRun | kernel/src/xhci/command_ring.rs:42-74 | at every point of every interleaved run from a new ring: what was fetched is a prefix of what was pushed; the n-th TRB pushed has the words, upper bits, type, flags and Toggle Cycle bit of the n-th one the driver asked for and the cycle bit of its lap, and only the one still being written is missing; and the controller can go on while anything is left |
| RingProtocol.PushKeepsDeliveryExactlyWithRoom | kernel/src/xhci/command_ring.rs:42-74 | after a push the controller can fetch if and only if there was room for the TRB and the Link |
| RingProtocol.FullRingLosesOldest | kernel/src/xhci/command_ring.rs:42-74 | on a ring of any length, as many pushes as data slots reach a state in which the controller can fetch and the next push destroys the oldest command |
| RingProtocol.WordStoresAddUpToPush | kernel/src/xhci/trb.rs:32-36 | the single stores of the protocol, run to the end with room, are the push of the ring object and keep every TRB deliverable in order |
| Rearm.CompletedLeavesRoom | kernel/src/xhci/controller.rs:1276-1289 | an outstanding completion means the slot under the write index is free |
| Rearm.RearmedSlotsComeAroundForever | kernel/src/xhci/transfer_ring.rs:56-102 | after filling, in every run of re-arms and fetches the j-th TRB taken is the buffer of slot j modulo the data slots, and what is re-armed is available |
| Rearm.StoresAddUpToFlip | kernel/src/xhci/transfer_ring.rs:73-102 | the stores of a re-arm, run to the end with room, are the flip of the ring object and publish the slot's payload again |
| Rearm.RearmStallsExactlyOnUnfollowedLink | kernel/src/xhci/transfer_ring.rs:84-101 | a re-arm in order stalls the controller if and only if it rewrites a Link the controller stands on |
| Rearm.EarlyRearmStalls | kernel/src/xhci/transfer_ring.rs:84-101 | on a ring of any length, a run that reaches such a state |
| EventRings.EventRing.constructor | kernel/src/xhci/event_ring.rs:80-148 | a new event ring has clear cycle bits in memory, a set one in the driver, and nothing popped or stashed |
| EventRings.EventRing.Pop | kernel/src/xhci/event_ring.rs:166-195 | returns the decoded front TRB, advances the dequeue pointer with wrap and toggle, counts the pop |
| EventRings.EventRing.Push | kernel/src/xhci/event_ring.rs:158-160 | the event is stashed last and nothing else changes |
| EventRings.EventRing.PopAlreadyPopped | kernel/src/xhci/event_ring.rs:162-164 | takes the last stashed event, or nothing if there is none |
| EventRings.EventRing.PollTransfer | kernel/src/xhci/event_ring.rs:268-366 | pends on an empty ring; else pops and delivers, stashes, drops or panics as the wait key and the decoding say |
| EventRings.EventRing.PollCommand | kernel/src/xhci/event_ring.rs:392-438 | the same for a command completion keyed by its TRB pointer |
| EventRings.DecodeReads | kernel/src/xhci/event_ring.rs:194 | the event a TRB decodes to, by its type (32 to 39), slot bits 31:24 and the address in its low words |
| EventProtocol.GuardIsExact | kernel/src/xhci/event_ring.rs:283-297 | the cycle-bit test succeeds if and only if an unread event exists, and the front is the oldest one |
| EventProtocol.ProduceKeeps | kernel/src/xhci/event_ring.rs:80-148 | an event written into a free slot becomes the newest unread one |
| EventProtocol.PopKeeps | kernel/src/xhci/event_ring.rs:166-195 | a guarded pop takes the oldest unread event and keeps index and cycle bit in step with the count |
| EventProtocol.ConsumerRefinesQueue | kernel/src/xhci/event_ring.rs:166-195 | in every run: index is nPop mod size, cycle bit the parity of nPop div size, the test exact, a pop the nPop-th event ever produced |
| EventProtocol.EventsConserved | kernel/src/xhci/event_ring.rs:298-364 | in every run the decodable events popped are, as a multiset, those delivered, dispatched or still stashed |
| EventProtocol.WaiterGetsOnlyItsKey | kernel/src/xhci/event_ring.rs:298-364 | the outcome of a poll in every reachable state: Ready exactly for a matching oldest event, Panicked exactly for an undecodable one and an empty pointer list |
| EventProtocol.WaiterReadsItsTrb | kernel/src/xhci/event_ring.rs:298-433 | in every reachable state, by the fields of the oldest unread TRB: a slot waiter is ready if and only if its type is 32 and bits 31:24 are the slot, a pointer waiter if and only if its type is 32 and its low words are a pointer waited on, a command waiter if and only if its type is 33 and its low words are the command's; the event carries those values, any other one is stashed |
| EventProtocol.DispatchExactly | kernel/src/xhci/controller.rs:229-267 | the dispatcher takes the last stashed event or the oldest unread one, and a handler may put back what it was given |
| EventProtocol.PanicsExactly | kernel/src/xhci/controller.rs:239-267 | in every reachable state a step panics if and only if it takes an undecodable event for the dispatcher or for a waiter on no TRB |
| Ports.FirstWaiting | kernel/src/xhci/controller.rs:1218-1226 | the first waiting port, or none exactly when no port waits |
| Controllers.Controller.constructor | kernel/src/xhci/port.rs:8-13 | all ports not connected, no claim, no slots |
| Controllers.Controller.ResetPortAt | kernel/src/xhci/controller.rs:314-463 | takes the reset transition: nothing, wait, panic, or claim and reset |
| Controllers.Controller.EnableSlotAt | kernel/src/xhci/controller.rs:465-520 | requests a slot and returns if and only if the port is enabled with no change pending |
| Controllers.Controller.AddressDeviceAt | kernel/src/xhci/controller.rs:522-652 | records the slot under its port, allocates its device, moves to addressing and pushes the command, or panics; a slot just granted is allocated without a panic and in agreement |
| Controllers.Controller.DeallocateDevices | kernel/src/xhci/controller.rs:870-912 | frees the slots in turn; panics exactly on a slot that is not allocated or whose Disable Slot command fails more than ten times |
| Controllers.Controller.ResetConnectionAt | kernel/src/xhci/controller.rs:832-918 | drops the claim if held, returns the port to not connected and acknowledges the change; with map and devices in agreement it panics if and only if a Disable Slot command of the port fails more than ten times, and otherwise keeps the agreement and leaves the port no device |
| Controllers.Controller.ConfigurePortAt | kernel/src/xhci/controller.rs:301-312 | takes the transition of `PortTable.ConfigureExactly`; keeps slots, exclusion and order of the protocol |
| Controllers.Controller.ConfigurePorts | kernel/src/xhci.rs:157-169 | the start-up loop never panics, and leaves the first connected port claimed and reset and every other connected one waiting |
| Controllers.Controller.ProcessPortStatusChange | kernel/src/xhci/controller.rs:1009-1120 | takes the transition of the port's phase; slots stay in agreement, addressing stays exclusive, and in an orderly state that gives up no waiting port it neither panics nor hangs and stays orderly |
| Controllers.Controller.ProcessEnableSlotCompletion | kernel/src/xhci/controller.rs:1162-1184 | addresses the claimed port, or panics if it is not enabling a slot |
| Controllers.Controller.ProcessCommandCompletion | kernel/src/xhci/controller.rs:1122-1231 | retires the command and takes the transition of its completion; slots stay in agreement, addressing stays exclusive, and in an orderly state it never panics and stays orderly |
| Controllers.Controller.ProcessInitPortDevice | kernel/src/xhci/controller.rs:947-1007 | slot, addressing and configuration in one go, claim cleared; a completion other than success panics; with both it returns exactly on a ready port, and keeps addressing exclusive exactly when no other port is being addressed |
| Controllers.Controller.ProcessAddressDeviceCompletion | kernel/src/xhci/controller.rs:1186-1231 | frees the claim, resets the first waiting port and configures the device's port, or panics |
| PortProtocol.AllocateKeepsAgreement | kernel/src/xhci/device_manager.rs:62-99 | allocating a slot the hardware has granted and no device holds succeeds and keeps map and devices in agreement |
| PortProtocol.ReleaseKeepsAgreement | kernel/src/xhci/controller.rs:870-917 | releasing a port never meets an unallocated slot and removes exactly that port's devices |
| PortProtocol.HubRequestReturnsExactly | kernel/src/xhci/controller.rs:465-520 | a hub request is answered if and only if its root port is enabled with no change pending, and hangs otherwise |
| PortProtocol.StepKeepsSlots | kernel/src/xhci/controller.rs:843-917 | every step, hub requests included, keeps the agreement and never fails for an allocated or unallocated slot |
| PortProtocol.SlotIndexAgreement | kernel/src/xhci/controller.rs:539-552 | in every run the allocated devices are exactly the slots in the map, each once under its own port; the two slot panics are unreachable |
| PortTable.ResetPortExactly | kernel/src/xhci/controller.rs:314-463 | a connected port with its change pending is parked if another port holds the claim, else claimed and reset, or the handler panics on its phase; any other port is left alone |
| PortTable.ConfigureExactly | kernel/src/xhci/controller.rs:301-312 | a not-connected port that is connected with its change pending ends claimed, enabled and acknowledged if the claim is free or its own, and waiting otherwise; any other port is left alone |
| PortTable.StartUp | kernel/src/xhci.rs:157-169 | the loop over all ports claims and resets the first connected one, parks the others and changes nothing else |
| PortTable.StatusChangeExactly | kernel/src/xhci/controller.rs:1009-1108 | by phase, claim and register: brought up, parked, kept waiting, left alone, or never finished |
| PortTable.GivingUpExactly | kernel/src/xhci/controller.rs:832-918 | an unplugged port loses its claim, phase, change bit and slots, and nothing else changes |
| PortTable.GrantedExactly | kernel/src/xhci/controller.rs:1162-1184 | the port enabling a slot gets it, starts addressing and pushes the command; nothing else changes |
| PortTable.AddressedExactly | kernel/src/xhci/controller.rs:1186-1231 | the port is configured, the claim is free, the first waiting port is reset if its change is pending; nothing else changes |
| PortTable.FailedExactly | kernel/src/xhci/controller.rs:1133-1141 | a failed command is only retired |
| PortTable.HubRequestExactly | kernel/src/xhci/controller.rs:947-1007 | a hub request that returns configures its port, gives it the slot and clears the claim; nothing else changes |
| PortTable.AllocateExactly | kernel/src/xhci/device_manager.rs:62-99 | a slot is refused if and only if it is above the maximum or taken, else recorded under its port |
| PortExclusion.BringUp | kernel/src/xhci/controller.rs:1027-1088 | bringing up a connected port ends with it claimed, reset and its Enable Slot command pushed |
| PortExclusion.NotifyKeepsExclusion | kernel/src/xhci/controller.rs:1009-1120 | status changes keep the claim discipline |
| PortExclusion.AddressedKeepsExclusion | kernel/src/xhci/controller.rs:654-680 | clearing the claim unconditionally is harmless when a root port finishes addressing |
| PortExclusion.AddressingIsMutuallyExclusive | kernel/src/xhci/controller.rs:1009-1231 | at every point of every root-port run, a port enabling a slot or addressing holds the claim, so there is at most one |
| PortExclusion.PatientFinish | kernel/src/xhci/controller.rs:1162-1230 | in an orderly state every completion is handled without a panic |
| PortExclusion.CompletionsFindTheirPhase | kernel/src/xhci/controller.rs:1162-1230 | in runs that give up no port with its command outstanding no handler panics or runs for ever, and each completion finds its port claimed and in the matching phase |
| PortExclusion.WaitingPortComesUp | kernel/src/xhci/controller.rs:1217-1226 | after an addressing completes, the claim is free, the first waiting port is reset, and a status change would bring any connected waiting port up |
| PortFailures.NotifyRunsForeverExactly | kernel/src/xhci/controller.rs:511-519 | a status change is never finished if and only if it would bring up a port that is not connected |
| PortFailures.EnableSlotPanicsExactly | kernel/src/xhci/controller.rs:1162-1184 | in every state of a root-port run an Enable Slot completion panics if and only if no port is enabling a slot, and otherwise gives its slot to that port |
| PortFailures.AddressDevicePanicsExactly | kernel/src/xhci/controller.rs:1186-1216 | an Address Device completion panics if and only if its slot is free or its port is not addressing |
| PortFailures.StaleCommandsAreCounted | kernel/src/xhci/controller.rs:1109-1184 | in every root-port run the Enable Slot commands nobody waits for number the ports given up while waiting, less the requests that failed |
| PortFailures.SecondEnableSlotPanics | kernel/src/xhci/controller.rs:1162-1184 | two Enable Slot completions handled in a row never both succeed |
| PortFailures.StaleCompletionsPanic | kernel/src/xhci/controller.rs:1109-1184 | at every point of every root-port run a completion can be made to panic within two steps if and only if more waiting ports were given up than requests failed |
| PortFailures.GivingUpAPortBreaksItsCompletion | kernel/src/xhci/controller.rs:1109-1118 | from an orderly state with a command outstanding, the completion handled right after a status change panics if and only if that change gave up the port being addressed |
| PortFailures.ClaimReleasedExactly | kernel/src/xhci/controller.rs:836-841 | a step takes the claim from its port if and only if it completes an addressing or gives that port up after an unplug |
| PortFailures.FailedCommandSticks | kernel/src/xhci/controller.rs:1133-1141 | a slot command that fails leaves its port holding the claim with nothing left to complete |
| PortFailures.StuckUntilUnplugged | kernel/src/xhci/controller.rs:1062-1075 | in every root-port run, from then until that port is unplugged, it keeps the claim, waiting ports keep waiting and no port gets configured |
| PortFailures.HubRequestKeepsExclusionExactly | kernel/src/xhci/controller.rs:947-1007 | a hub request keeps the exclusion if and only if no other port is being addressed |
| StaleAddresses.StaleAddressesAreCounted | kernel/src/xhci/controller.rs:1109-1231 | in every root-port run the Address Device commands nobody waits for number the ports given up while being addressed, less the commands that failed |
| StaleAddresses.SecondAddressPanics | kernel/src/xhci/controller.rs:1186-1216 | two Address Device completions handled in a row never both succeed |
| StaleAddresses.StaleAddressPanics | kernel/src/xhci/controller.rs:1186-1216 | while more ports were given up than commands failed, any Address Device completion panics or leaves one that does |
| StaleAddresses.NobodyGivenUpNothingPanics | kernel/src/xhci/controller.rs:1186-1216 | in a root-port run that gave up no port being addressed no Address Device completion panics |
| PortEvents.StrandedExactly | kernel/src/xhci/controller.rs:1217-1226 | a waiting port with no event and its change bit set stays so through every step if and only if the step is not an addressing completion that finds it first and connected; then it has an event |
| PortEvents.WaitingComesUpExactly | kernel/src/xhci/controller.rs:1064-1088 | at every point of every run a connected waiting port with the claim free is brought up by its next event, and it is stranded if and only if it has none |
| PortEvents.StrandedUntilWoken | kernel/src/xhci/controller.rs:1028-1044 | in every run a stranded port stays stranded until such a completion |
| PortRuns.PlugAndUnplugHangs | kernel/src/xhci/controller.rs:511-519 | a run after which a status change is never finished |
| PortRuns.HubRequestHangs | kernel/src/xhci/controller.rs:511-519 | a run after which a hub request is never finished |
| PortRuns.StaleAddressConfiguresAnotherPort | kernel/src/xhci/controller.rs:1186-1231 | a run in which the stale completion configures another port before its device has an address, and that port's own completion panics |
| PortRuns.StaleSlotGoesToAnotherPort | kernel/src/xhci/controller.rs:1162-1184 | a run in which a stale completion panics, and its continuation in which the slot goes to another port whose own completion then panics |
| PortRuns.HubRequestTakesTheClaim | kernel/src/xhci/controller.rs:674-679 | a run in which a hub request takes the claim from a port being addressed, so that its completion panics |
| PortRuns.FailureStrandsTheWaiting | kernel/src/xhci/controller.rs:1028-1044 | a run with a stuck port, which ends with that port given up and another, connected one stranded beside a free claim |
| Placement.AndHighOnes | kernel-lib/src/allocator.rs:32-34 | masking with the ones from bit k up is subtracting the remainder modulo 2^k |
| Placement.CeilRoundsUp | kernel-lib/src/allocator.rs:32-34 | the mask formula rounds up to the next multiple if the sum fits a word and is 0 otherwise |
| Placement.StartIsSuitable | kernel-lib/src/allocator.rs:43-50 | the start chosen is at or after `from_ptr`, aligned, and its block crosses no boundary, whichever of alignment and boundary is larger |
| Placement.StartIsLeast | kernel-lib/src/allocator.rs:43-50 | no smaller start will do |
| Placement.PlacementIsLeastExactly | kernel-lib/src/allocator.rs:35-54 | for every valid request: the range returned is the least suitable one, and none is returned exactly when even that would leave the address space, if and only if the request is placeable (no rounding wraps, or only that of a block that does not fit anyway) |
| Placement.RefusedPlacement | kernel-lib/src/allocator.rs:43-50 | a block that does not fit before the end of the address space is rightly refused although its boundary rounding wraps |
| Placement.WrappedPlacement | kernel-lib/src/allocator.rs:32-54 | every request that is not placeable, bounded or not, is placed at address 0, below `from_ptr` |
| Heaps.BumpAllocator.constructor | kernel-lib/src/allocator/bump_allocator.rs:13-20 | everything starts at 0 |
| Heaps.BumpAllocator.Init | kernel-lib/src/allocator/bump_allocator.rs:26-30 | the heap range is set and allocation starts at its beginning |
| Heaps.BumpAllocator.Alloc | kernel-lib/src/allocator/bump_allocator.rs:34-48 | the allocation transition: null and no change, or the placed block, `next` behind it and one more counted |
| Heaps.BumpAllocator.Dealloc | kernel-lib/src/allocator/bump_allocator.rs:50-57 | one less counted, and `next` reset when none is left |
| Heaps.AllocKeepsSafeExactly | kernel-lib/src/allocator/bump_allocator.rs:34-48 | an allocation is apart from everything handed out since the heap was last empty and counted right, if and only if it is placeable or larger than the heap's end |
| Heaps.DeallocKeepsSafe | kernel-lib/src/allocator/bump_allocator.rs:50-57 | freeing live blocks in any order keeps the heap safe, and memory is reused only when none is live |
| Heaps.BumpRunIsSafe | kernel-lib/src/allocator/bump_allocator.rs:12-57 | in every run live blocks are pairwise disjoint, aligned, boundary-respecting, inside the heap and as many as counted |
| Heaps.AllocExactly | kernel-lib/src/allocator/bump_allocator.rs:34-48 | an answerable request succeeds if and only if some suitable block from `next` on ends before the heap does; it gets the least one, `next` moves to its end and it is counted, else nothing changes |
| Heaps.AllocSucceedsExactly | kernel-lib/src/allocator/bump_allocator.rs:34-48 | in a safe heap the pointer is non-null if and only if such a block exists |
| Heaps.DeallocExactly | kernel-lib/src/allocator/bump_allocator.rs:50-57 | a free is counted and only the last one moves `next`, to the start |
| Heaps.UninitializedAllocFails | kernel-lib/src/allocator/bump_allocator.rs:13-20 | before `init` every request fails and changes nothing |
| Heaps.FixedLengthAllocator.constructor | kernel-lib/src/allocator/fixed_length_allocator.rs:44-49 | allocation starts at the base of a non-empty heap |
| Heaps.FixedLengthAllocator.Alloc | kernel-lib/src/allocator/fixed_length_allocator.rs:62-89 | the allocation transition; none is the out-of-memory panic |
| Heaps.FixedAllocIsSafeExactly | kernel-lib/src/allocator/fixed_length_allocator.rs:62-89 | a request is refused, or suitably placed behind all earlier blocks with `next` left below the size, if and only if it is placeable or its size lies outside the heap's addresses |
| Heaps.FixedAllocExactly | kernel-lib/src/allocator/fixed_length_allocator.rs:62-89 | an answerable request succeeds if and only if it is placeable and some suitable block from `base + next` on ends before `base + size`; it gets the least one and `next` moves to its end |
| Heaps.FixedRunIsSafe | kernel-lib/src/allocator/fixed_length_allocator.rs:62-89 | in every run of successes blocks are suitable, disjoint and in order, and `next` stays in range |
| Compositor.NewOpaqueIsRendered | kernel-lib/src/layer.rs:34-53 | a new opaque window's byte buffer agrees with its grid in every colour byte |
| Compositor.WriteKeepsRendered | kernel-lib/src/layer.rs:156-160 | writing a pixel keeps the agreement everywhere |
| Compositor.WritesKeepRendered | kernel-lib/src/layer.rs:156-160 | after any sequence of writes the buffer agrees with the grid |
| Compositor.NewViewReads | kernel-lib/src/layer.rs:34-53 | every pixel of a new window is its transparent colour or black, every buffer byte 0 |
| Compositor.WrittenReads | kernel-lib/src/layer.rs:156-160 | a write replaces one cell and the four buffer bytes of its pixel, in the format's order, and nothing else |
| Compositor.PaintAtReads | kernel-lib/src/layer.rs:79-98 | by coordinates: a window colours a pixel if and only if the pixel lies inside it, left of the scan line's end and above the horizontal resolution, and is not transparent there |
| Compositor.PaintedByteReads | kernel/src/graphics.rs:41-97 | the bytes of a coloured pixel are red, green, blue or blue, green, red by format, the fourth and every other pixel as before |
| Windows.FastFlushRefinesSlow | kernel-lib/src/layer.rs:99-153 | byte by byte, the row copies leave the colour bytes the pixel writer would leave on every covered pixel, and touch nothing else |
| Windows.CopiedByteReads | kernel-lib/src/layer.rs:99-153 | by coordinates: a copied pixel gets the four bytes of the window's pixel, any other keeps its own |
| Windows.FlushStaysInFrameExactly | kernel-lib/src/layer.rs:124-133 | a flush reaches only pixels of the frame if and only if the covered rows lie above the vertical resolution |
| Windows.FrameBuffer.Write | kernel/src/graphics.rs:41-97 | exactly the three colour bytes at the pixel's offset are stored, in the display's order, inside the frame or behind it |
| Windows.CopyRow | kernel-lib/src/layer.rs:141-151 | the slice copy replaces exactly the stretch |
| Windows.Window.constructor | kernel-lib/src/layer.rs:34-53 | grid filled with the transparent colour or black, buffer zero |
| Windows.Window.MoveTo | kernel-lib/src/layer.rs:55-57 | only the position changes |
| Windows.Window.Write | kernel-lib/src/layer.rs:156-160 | one grid cell and its four buffer bytes are replaced |
| Windows.Window.FlushPixels | kernel-lib/src/layer.rs:79-98 | every byte of the memory from the frame's base on is the painted byte: colour bytes of covered, non-transparent pixels, all others as before, also behind the frame |
| Windows.Window.FlushRows | kernel-lib/src/layer.rs:99-153 | every byte of that memory is the copied byte: the buffer's on covered pixels, all others as before; panics if and only if the window starts right of the scan line and has a row to draw |
| Windows.Window.Flush | kernel-lib/src/layer.rs:78-154 | either way the colour bytes are the painted ones, inside the frame and behind it, and pixels not painted keep all four bytes; panics exactly as the row copies do |
| Layers.WithoutRemoves | kernel-lib/src/layer.rs:258-263 | hiding removes the layer and nothing else and introduces no duplicate |
| Layers.ApplyKeepsStackExactly | kernel-lib/src/layer.rs:215-263 | an operation keeps the stack duplicate-free and known if and only if it raises no unknown layer; a raised layer is last, a hidden one gone |
| Layers.ApplyReads | kernel-lib/src/layer.rs:215-263 | a new layer gets the next id and the place below all others; hiding and raising change nothing but the order |
| Layers.ApplyKeepsOrder | kernel-lib/src/layer.rs:215-263 | layers not named by an operation stay in their order; a new layer goes below them, a raised one above |
| Layers.RunIsWellStacked | kernel-lib/src/layer.rs:215-263 | after any sequence of operations on known ids the stack has no duplicates and only known layers |
| Layers.TopColorIsLastPainted | kernel-lib/src/layer.rs:241-251 | the composed colour of a pixel is that of the last window covering it non-transparently, and there is none exactly when no window does |
| Layers.TopColorReads | kernel-lib/src/layer.rs:241-251 | by coordinates: the topmost window that colours a pixel gives it its colour |
| Layers.LayerManager.constructor | kernel-lib/src/layer.rs:207-214 | an empty stack |
| Layers.LayerManager.AddLayer | kernel-lib/src/layer.rs:215-223 | the new layer gets a fresh id and goes to the bottom |
| Layers.LayerManager.HideLayer | kernel-lib/src/layer.rs:258-263 | the layer leaves the stack |
| Layers.LayerManager.RaiseLayer | kernel-lib/src/layer.rs:253-256 | the layer is moved to the top |
| Layers.LayerManager.Flush | kernel-lib/src/layer.rs:241-251 | panics exactly at the first layer of the stack that is unknown, or opaque and right of the scan line; each pixel has the composed colour of the layers painted, or all its old bytes if none paints it |
| Consoles.Writer.constructor | kernel-lib/src/lib.rs:128-136 | a blank grid with the cursor at its start |
| Consoles.Writer.Store | kernel-lib/src/lib.rs:138-140 | the cell under the cursor is replaced |
| Consoles.Writer.Scroll | kernel-lib/src/lib.rs:177-186 | rows move up by `dy`, blank rows follow, the cursor goes up with them to column 0 |
| Consoles.Writer.NewLine | kernel-lib/src/lib.rs:168-175 | the cursor moves down, or a due scroll is performed |
| Consoles.Writer.PutChar | kernel-lib/src/lib.rs:146-160 | the character transition, with no store or scroll out of bounds |
| Consoles.Writer.PutString | kernel-lib/src/lib.rs:162-166 | the characters are put in turn |
| Consoles.Put | kernel-lib/src/lib.rs:146-160 | the cursor stays in the grid, and a due scroll has its cursor in column 0 |
| Consoles.PutRefines | kernel-lib/src/lib.rs:146-186 | a character keeps the grid equal to the last rows of the unbounded page |
| Consoles.ConsoleRefinesPage | kernel-lib/src/lib.rs:138-186 | for every stream and size the grid is the bottom of the unbounded page and the cursors agree |
| Consoles.PageLagsTypewriter | kernel-lib/src/lib.rs:168-175 | each lost newline leaves the page one row behind the typewriter; they agree in every cell if and only if none was lost |
| Consoles.SwallowedExactly | kernel-lib/src/lib.rs:168-175 | no newline is lost if and only if the text has no two newlines in a row of which the second falls on or below the last row of the screen |
| Consoles.PageIsTypewriterExactly | kernel-lib/src/lib.rs:138-186 | the screen is the bottom of a page, and that page equals the plain typewriter's in every cell and in the cursor if and only if the text has no such pair of newlines |
| Consoles.NoEmptyLinesNothingLost | kernel-lib/src/lib.rs:168-175 | a stream without two newlines in a row gives the typewriter's page |
| Consoles.EmptyLineIsLost | kernel-lib/src/lib.rs:168-175 | a concrete stream that loses a newline |
| Hubs.HubDevice.InitPortFsm | kernel/src/usb/class_driver/hub.rs:308-516 | the port transition under any answers: stop at the first error, skip an empty port, or reset and hand over |
| Hubs.HubDevice.RunFsm | kernel/src/usb/class_driver/hub.rs:152-525 | the hub transition of the current state under any answers, byte for byte: failed length assertions and unreadable descriptors panic, an oversized configuration gives up |
| Hubs.ReadConfigReads | kernel/src/usb/class_driver/hub.rs:193-240 | the length is bytes 2 and 3, low byte first; above 256 the driver gives up, and the second transfer must have exactly that length |
| Hubs.ConfigFsmReads | kernel/src/usb/class_driver/hub.rs:174-256 | a hub answered with well-formed encoded descriptors goes on to the selection and knows its configuration if and only if one has type 2 |
| Hubs.FsmReads | kernel/src/usb/class_driver/hub.rs:152-525 | the states follow in order, and the number of ports is byte 2 of the hub descriptor |
| Hubs.PortFsmReads | kernel/src/usb/class_driver/hub.rs:308-516 | bit 0 of the port status decides between passing the port over and handing it over after its reset |
| Hubs.FsmFails | kernel/src/usb/class_driver/hub.rs:257-306 | a request that fails is reported and changes nothing; selection without a configuration and a failed registration panic |
| Hubs.PortFsmKeeps | kernel/src/usb/class_driver/hub.rs:308-516 | one call keeps the hand-over order whatever fails |
| Hubs.PortsAreHandedOverOnce | kernel/src/usb/class_driver/hub.rs:152-525 | in every run: hand-overs strictly increase, stay below the port count, each directly follows a status that showed a connection; every port passed was handed over or seen empty, not both |
| BringUp.CallExactly | kernel/src/usb/class_driver.rs:300-490 | a call on a settled device gains exactly one step if the answer serves it, ends the loop if the answer stops it, else changes nothing; from SetConfig on the endpoint is present and of the driver's kind |
| BringUp.StepReads | kernel/src/usb/class_driver.rs:300-490 | by state and reply: what a call leaves and returns in every state but GetConfig, with the settle time and the 18 bytes of the device descriptor |
| BringUp.ConfigStepReads | kernel/src/usb/class_driver.rs:338-407 | answered with well-formed encoded descriptors, a device keeps the interface number, address and packet size of the first endpoint of its kind and selects configuration 1; without one the driver panics, above 256 bytes it gives up |
| BringUp.EncodedHostServes | kernel/src/usb/class_driver.rs:338-407 | such answers serve the configuration step if and only if they are at most 256 bytes and hold an endpoint of the driver's kind, and stop it otherwise |
| BringUp.OtherStepsServed | kernel/src/usb/class_driver.rs:300-490 | which replies serve and which stop each other step |
| BringUp.NeedIsChain | kernel/src/usb/class_driver.rs:300-490 | the answers so far leave nothing to do if and only if they hold, in order, one for each step |
| BringUp.RunsExactly | kernel/src/usb/class_driver.rs:300-490 | a device runs after n calls if and only if its first n answers hold such a chain |
| BringUp.EveryStepIsServed | kernel/src/usb/class_driver.rs:300-490 | no step can be left out: an answer withheld for ever keeps the device from running |
| BringUp.EveryOtherCallServes | kernel/src/usb/class_driver.rs:119-129 | a host that serves only every other call and has the others retried for ever brings the device to run |
| BringUp.LoopEndsExactly | kernel/src/usb/class_driver.rs:105-132 | for any devices and answers, the loop has ended within n rounds if and only if those answers serve every device or stop one, and has failed if and only if they stop one |
| BringUp.CalmHostEnds | kernel/src/usb/class_driver.rs:105-132 | if nothing is retried from some round on, the loop ends within six more |
| BringUp.InputOnlyDriver.Round | kernel/src/usb/class_driver.rs:119-129 | one pass over the devices under any answers: each device not running is called once, up to the first final error |
| BringUp.InputOnlyDriver.TickUntilRunning | kernel/src/usb/class_driver.rs:105-132 | on answers that end the loop within n rounds it returns, one period a round, with every device running and its endpoint present, or with the failure of the device they stop |
| HubBringUp.CallExactly | kernel/src/usb/class_driver/hub.rs:152-525 | a call on a hub gains exactly one stage if the answer serves it, ends the loop if the answer stops it, else gains nothing |
| HubBringUp.EncodedConfigReads | kernel/src/usb/class_driver/hub.rs:174-256 | encoded descriptors of at most 256 bytes are read, and name the configuration if and only if one of them has type 2 |
| HubBringUp.RunsExactly | kernel/src/usb/class_driver/hub.rs:152-525 | a new hub runs after n calls if and only if its answers hold a chain of first answers to configuration, selection, hub descriptor, each port that descriptor announces, and the last step |
| HubBringUp.LoopEndsExactly | kernel/src/usb/class_driver/hub.rs:38-64 | for any hubs and answers, the loop has ended within n rounds if and only if by then every hub's own answers have brought it to run or have stopped one; hubs do not affect each other |
| HubBringUp.NewHubsEndExactly | kernel/src/usb/class_driver/hub.rs:38-64 | the same for new hubs in terms of the answers alone |
| HubBringUp.CalmHostEnds | kernel/src/usb/class_driver/hub.rs:38-64 | if every request succeeds from some round on, the loop ends within 260 more |
| HubBringUp.GoodHostRuns | kernel/src/usb/class_driver/hub.rs:38-64 | if every request succeeds, every hub runs after 260 rounds |
| HubBringUp.HubDriver.Round | kernel/src/usb/class_driver/hub.rs:53-61 | one pass over the hubs under any answers |
| HubBringUp.HubDriver.TickUntilRunning | kernel/src/usb/class_driver/hub.rs:38-64 | on answers that end the loop within n rounds it returns with every hub running, or with the failure of the hub they stop |
| Descriptors.DescriptorIter.NextDescriptor | kernel/src/usb/descriptor.rs:78-90 | the descriptor at the read position and the position behind it, the end, or a fault |
| Descriptors.NextReads | kernel/src/usb/descriptor.rs:47-90 | by bytes: when the iterator stops, when it fails (a length out of range, or too small for the structure of its type), and which bytes the fields of an item are |
| Descriptors.ParseRoundTrip | kernel/src/usb/descriptor.rs:75-91 | iterating the concatenation of any well-formed descriptors yields exactly them and stops |
| Descriptors.ParseSucceedsExactly | kernel/src/usb/descriptor.rs:75-91 | the iterator reaches the end of a buffer if and only if the buffer is such a concatenation |
| Descriptors.InterpretEncoded | kernel/src/usb/descriptor.rs:47-72 | reading back the bytes of a descriptor gives its fields |
| Descriptors.EpForBootKeyboard | kernel/src/usb/class_driver/keyboard.rs:45-78 | the search on the bytes for a boot keyboard |
| Descriptors.EpForMouse | kernel/src/usb/class_driver/mouse.rs:43-71 | the search on the bytes for a boot mouse |
| Descriptors.SearchEndpoint | kernel/src/usb/class_driver/keyboard.rs:45-78 | the loop with its remembered interface is the search on the bytes, and stops at the first hit or fault |
| Descriptors.FoundIsWanted | kernel/src/usb/class_driver/keyboard.rs:59-66 | on any bytes, an endpoint found is an interrupt IN endpoint of the driver's kind |
| Descriptors.SearchFindsFirstQualifying | kernel/src/usb/class_driver/keyboard.rs:45-78 | on well-formed descriptors: the first interrupt IN endpoint whose nearest preceding interface has the class triple, with that interface's number, or nothing exactly when there is none |
| Descriptors.SearchReads | kernel/src/usb/class_driver/mouse.rs:43-71 | by bytes: the first endpoint with the direction bit and interrupt transfers (and 8-byte packets for a keyboard) whose nearest interface before it has class 3, subclass 1 and protocol 1 or 2; its interface number, address and packet size are reported |
| Pci.ScanBus | kernel/src/pci/register.rs:342-351 | appends the listing of the bus |
| Pci.ScanDevice | kernel/src/pci/register.rs:353-362 | appends the listing of the device's functions |
| Pci.ScanFunction | kernel/src/pci/register.rs:364-374 | appends the subtree behind a bridge, then the function itself |
| Pci.BusMembers | kernel/src/pci/register.rs:342-374 | a function is listed if and only if it is visible on a bus reachable from the root through bridges |
| Pci.SubtreesDisjoint | kernel/src/pci/register.rs:364-370 | different bridges of one bus reach no common bus |
| Pci.WalkIsCompleteAndDuplicateFree | kernel/src/pci/register.rs:342-374 | the walk ends and lists every visible function of the subtree exactly once and nothing else |

## Left out

- Register access, doorbells, interrupts, MSI and APIC setup, boot loader: hardware and firmware I/O.
- Layouts inside the `xhci`, `usb_host`, `bit_field` and `spin` crates: code outside the repository.
- Deadlock between the kernel's locks other than the register lock in `enable_slot_at`, and preemption inside a handler.
- Torn reads by the xHC: a TRB is fetched in one access.
- Device contexts and `load_device_context`: pointer bookkeeping beside the slot table.
- What `start_initialization` and the class drivers do with a configured device, and `process_transfer_event` beyond the re-arm.
- Event kinds and command completions whose handler is `todo!()`, and `start_configuration_at`, which nothing calls.
- `scan_all_bus`, `next_route`, BAR and capability reading: outside the bus walk.
- `move_relative`, `add_device`, `remove_device`, `tick`, `tick_until`, `async_fsm`: would only add easy members.
- Drawing of glyphs and when the console redraws; gen_font, mouse shape, key codes, logging, serial output, lifegame, executor.
- BringUp.InputOnlyDriver.TickUntilRunning: requires answers on which the loop ends, because on all others, as `LoopEndsExactly` shows, it runs for ever, and a Dafny method cannot.
- HubBringUp.HubDriver.TickUntilRunning: the same.
- Hubs.HubDevice.RunFsm: request encodings and the power-on delay are not modelled; a descriptor read past its slice counts as a panic.
- Windows.Window.Flush: memory is modelled from the base of the frame buffer down to the last row a flush touches; what lies there behind the frame is not.
- Layers.LayerManager.Flush: requires opaque windows to have been rendered for the display's pixel format, which nothing in the source changes after creation.
