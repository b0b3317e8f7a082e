/** The driver's side of the event ring: popping, waiting and stashing (kernel/src/xhci/event_ring.rs). */
module EventRings {
  import opened Basics
  import opened Trbs

  /** The event TRBs of section 6.4.2 of the xHCI specification; other kinds only carry their type. */
  datatype Event =
    | TransferEvent(slotId: nat, trbPointer: nat, raw: Trb)
    | CommandCompletion(commandTrbPointer: nat, raw: Trb)
    | PortStatusChange(raw: Trb)
    | OtherEvent(raw: Trb)

  /** TRB types 32 to 39 are events; anything else does not decode. */
  function Decode(t: Trb): Option<Event> {
    match t.control.trbType
    case 32 => Some(TransferEvent(t.control.upper / 256, Pointer(t), t))
    case 33 => Some(CommandCompletion(Pointer(t), t))
    case 34 => Some(PortStatusChange(t))
    case k => if 35 <= k <= 39 then Some(OtherEvent(t)) else None
  }

  /** The ring starts out with Link TRBs whose cycle bit is clear. */
  const EMPTY_SLOT := Trb(0, 0, 0, Control(0, LINK_TYPE, 0, false, false))

  /** The address in the two low words. */
  function AddressIn(t: Trb): nat {
    t.w0 as int + 0x1_0000_0000 * t.w1 as int
  }

  /** The fields an event is read from: the type in bits 15:10, the slot in bits 31:24, the address in the low words. */
  lemma DecodeReads(t: Trb)
    ensures Decode(t) ==
      if t.control.trbType == 32 then Some(TransferEvent(t.control.upper / 256, AddressIn(t), t))
      else if t.control.trbType == 33 then Some(CommandCompletion(AddressIn(t), t))
      else if t.control.trbType == 34 then Some(PortStatusChange(t))
      else if 35 <= t.control.trbType <= 39 then Some(OtherEvent(t))
      else None
  {}

  datatype Wait = OnSlot(slotId: nat) | OnTrb(ptr: nat) | OnTrbs(ptrs: seq<nat>) | OnCommand(ptr: nat)

  predicate Wanted(wait: Wait, e: Event) {
    match wait
    case OnSlot(slotId) => e.TransferEvent? && e.slotId == slotId
    case OnTrb(ptr) => e.TransferEvent? && e.trbPointer == ptr
    case OnTrbs(ptrs) => e.TransferEvent? && e.trbPointer in ptrs
    case OnCommand(ptr) => e.CommandCompletion? && e.commandTrbPointer == ptr
  }

  datatype Poll = Pending | Ready(event: Event) | Panicked

  /** What the driver sees: the segment in memory, the slot under the dequeue pointer register and its own fields. */
  datatype Consumer = Consumer(slots: seq<Trb>, dequeue: nat, cycle: bool, nPop: nat, stash: seq<Event>)

  predicate WellFormed(c: Consumer) {
    c.dequeue < |c.slots|
  }

  predicate HasFront(c: Consumer)
    requires WellFormed(c)
  {
    CycleBit(c.slots[c.dequeue]) == c.cycle
  }

  function Front(c: Consumer): Trb
    requires WellFormed(c)
  {
    c.slots[c.dequeue]
  }

  function AfterPop(c: Consumer): (c': Consumer)
    requires WellFormed(c)
    ensures WellFormed(c')
  {
    if c.dequeue + 1 == |c.slots| then c.(dequeue := 0, cycle := !c.cycle, nPop := c.nPop + 1)
    else c.(dequeue := c.dequeue + 1, nPop := c.nPop + 1)
  }

  /** One poll of a waiter: take the front event if there is one; keep it, stash it, or drop it. */
  function AfterPoll(c: Consumer, wait: Wait): (Consumer, Poll)
    requires WellFormed(c)
  {
    if !HasFront(c) then (c, Pending)
    else
      var c' := AfterPop(c);
      match Decode(Front(c))
      case Some(e) =>
        if Wanted(wait, e) then (c', Ready(e)) else (c'.(stash := c'.stash + [e]), Pending)
      case None =>
        (c', if wait == OnTrbs([]) then Panicked else Pending)
  }

  class EventRing {
    const base: Address
    const trbBuffer: array<Trb>
    var erdp: nat
    var cycleBit: bool
    var nPop: nat
    var popped: seq<Event>

    /** The dequeue pointer register is the address of a slot of the segment. */
    ghost predicate Valid()
      reads this, trbBuffer
    {
      base <= erdp < base + 16 * trbBuffer.Length && (erdp - base) % 16 == 0
    }

    ghost function View(): (c: Consumer)
      requires Valid()
      reads this, trbBuffer
      ensures WellFormed(c)
    {
      Consumer(trbBuffer[..], (erdp - base) / 16, cycleBit, nPop, popped)
    }

    constructor (bufSize: nat, base: Address)
      ensures fresh(trbBuffer) && (Valid() <==> bufSize >= 1)
      ensures Valid() ==>
        View() == Consumer(seq(bufSize, _ => Trb(0, 0, 0, Control(0, 6, 0, false, false))), 0, true, 0, [])
    {
      this.base := base;
      trbBuffer := new Trb[bufSize](_ => EMPTY_SLOT);
      erdp, cycleBit, nPop, popped := base, true, 0, [];
      new;
      assert trbBuffer[..] == seq(bufSize, _ => EMPTY_SLOT);
    }

    method Pop() returns (e: Option<Event>)
      requires Valid()
      modifies this`nPop, this`erdp, this`cycleBit
      ensures Valid() && View() == AfterPop(old(View()))
      ensures e == Decode(old(Front(View())))
    {
      nPop := nPop + 1;
      var trb := trbBuffer[(erdp - base) / 16];
      var next := erdp + 16;
      if next == base + 16 * trbBuffer.Length {
        next := base;
        cycleBit := !cycleBit;
      }
      erdp := next;
      e := Decode(trb);
    }

    method Push(e: Event)
      requires Valid()
      modifies this`popped
      ensures Valid() && View() == old(View()).(stash := old(popped) + [e])
    {
      popped := popped + [e];
    }

    method PopAlreadyPopped() returns (e: Option<Event>)
      requires Valid()
      modifies this`popped
      ensures Valid()
      ensures old(popped) == [] ==> e == None && View() == old(View())
      ensures old(popped) != [] ==> e.Some? && old(popped) == popped + [e.value]
      ensures View() == old(View()).(stash := popped)
    {
      if popped == [] {
        e := None;
      } else {
        e := Some(popped[|popped| - 1]);
        popped := popped[..|popped| - 1];
      }
    }

    /** The front is tested, popped, and then matched against what the waiter waits on. */
    method PollTransfer(wait: Wait) returns (r: Poll)
      requires Valid() && !wait.OnCommand?
      modifies this
      ensures Valid() && (View(), r) == AfterPoll(old(View()), wait)
    {
      if CycleBit(trbBuffer[(erdp - base) / 16]) != cycleBit {
        return Pending;
      }
      var e := Pop();
      match wait {
        case OnSlot(slotId) =>
          if e.Some? && e.value.TransferEvent? && e.value.slotId == slotId {
            return Ready(e.value);
          }
        case OnTrb(ptr) =>
          if e.Some? && e.value.TransferEvent? && e.value.trbPointer == ptr {
            return Ready(e.value);
          }
        case OnTrbs(ptrs) =>
          for i := 0 to |ptrs|
            invariant e.Some? && e.value.TransferEvent? ==> e.value.trbPointer !in ptrs[..i]
            invariant e.None? ==> i == 0
          {
            if e.Some? && e.value.TransferEvent? && e.value.trbPointer == ptrs[i] {
              return Ready(e.value);
            }
            if e.None? {
              return Pending;
            }
          }
          if e.None? {
            return Panicked;
          }
          assert ptrs[..|ptrs|] == ptrs;
      }
      if e.Some? {
        Push(e.value);
      }
      return Pending;
    }

    method PollCommand(waitOn: nat) returns (r: Poll)
      requires Valid()
      modifies this
      ensures Valid() && (View(), r) == AfterPoll(old(View()), OnCommand(waitOn))
    {
      if CycleBit(trbBuffer[(erdp - base) / 16]) != cycleBit {
        return Pending;
      }
      var e := Pop();
      match e {
        case Some(event) =>
          if event.CommandCompletion? && event.commandTrbPointer == waitOn {
            return Ready(event);
          }
          Push(event);
        case None =>
      }
      return Pending;
    }
  }
}
