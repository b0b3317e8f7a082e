/** The command ring and the transfer ring as the driver updates them
    (kernel/src/xhci/command_ring.rs, kernel/src/xhci/transfer_ring.rs). */
module Rings {
  import opened Trbs

  datatype Ring = Ring(base: Address, slots: seq<Trb>, writeIndex: nat, cycle: bool)

  predicate WellFormed(r: Ring) {
    |r.slots| >= 2 && r.writeIndex < |r.slots| - 1
  }

  /** Slots behind the write index carry the producer's cycle bit, slots from it on carry the negation. */
  predicate Lapped(r: Ring) {
    && WellFormed(r)
    && (forall i :: 0 <= i < r.writeIndex ==> CycleBit(r.slots[i]) == r.cycle)
    && (forall i :: r.writeIndex <= i < |r.slots| ==> CycleBit(r.slots[i]) == !r.cycle)
  }

  /** The ring once the slot at `writeIndex` holds `t`: step on, and at the end write the Link and wrap. */
  function Publish(r: Ring, t: Trb): (r': Ring)
    requires WellFormed(r)
    ensures WellFormed(r') && |r'.slots| == |r.slots|
  {
    var slots := r.slots[r.writeIndex := t];
    var last := |slots| - 1;
    if r.writeIndex + 1 == last then
      Ring(r.base, slots[last := LinkTo(r.base, r.cycle)], 0, !r.cycle)
    else
      Ring(r.base, slots, r.writeIndex + 1, r.cycle)
  }

  function Pushed(r: Ring, cmd: Trb): (r': Ring)
    requires WellFormed(r)
    ensures Lapped(r) ==> Lapped(r')
  {
    Publish(r, WithCycle(cmd, r.cycle))
  }

  /** Re-arming slot `i`: the write index is moved to it and its cycle bit is flipped. */
  function Flipped(r: Ring, i: nat): (r': Ring)
    requires WellFormed(r) && i < |r.slots| - 1
    ensures WellFormed(r')
  {
    Publish(r.(writeIndex := i), WithCycle(r.slots[i], !CycleBit(r.slots[i])))
  }

  /** Re-arming is pushing the slot's own payload, exactly when slots are re-armed in ring order. */
  lemma FlipRefinesPush(r: Ring, i: nat)
    requires Lapped(r) && i < |r.slots| - 1
    ensures Flipped(r, i) == Pushed(r, r.slots[i]) <==> i == r.writeIndex
    ensures i == r.writeIndex ==> Lapped(Flipped(r, i))
  {}

  /** What `Publish` leaves: the slot, the Link at the end of a lap, and nothing else changed. */
  predicate Leaves(r: Ring, i: nat, r': Ring)
    requires WellFormed(r) && i < |r.slots| - 1
  {
    var last := |r.slots| - 1;
    && r'.base == r.base && |r'.slots| == |r.slots|
    && (forall j :: 0 <= j < last && j != i ==> r'.slots[j] == r.slots[j])
    && if i + 1 == last
       then r'.writeIndex == 0 && r'.cycle == !r.cycle && r'.slots[last] == LinkTo(r.base, r.cycle)
       else r'.writeIndex == i + 1 && r'.cycle == r.cycle && r'.slots[last] == r.slots[last]
  }

  /** A push writes the command into the slot under the write index, with the producer's cycle bit. */
  lemma PushLeaves(r: Ring, cmd: Trb)
    requires WellFormed(r)
    ensures var r', i := Pushed(r, cmd), r.writeIndex;
      && |r'.slots| == |r.slots| && SameButCycle(r'.slots[i], cmd) && r'.slots[i].control.cycle == r.cycle
      && Leaves(r, i, r')
  {}

  /** A flip changes one bit of its slot. */
  lemma FlipLeaves(r: Ring, i: nat)
    requires WellFormed(r) && i < |r.slots| - 1
    ensures var r' := Flipped(r, i);
      && |r'.slots| == |r.slots| && SameButCycle(r'.slots[i], r.slots[i])
      && r'.slots[i].control.cycle == !r.slots[i].control.cycle
      && Leaves(r, i, r')
  {}

  function PushedAll(r: Ring, cmds: seq<Trb>): (r': Ring)
    requires WellFormed(r)
    ensures WellFormed(r') && |r'.slots| == |r.slots|
    decreases |cmds|
  {
    if cmds == [] then r
    else Pushed(PushedAll(r, cmds[..|cmds| - 1]), cmds[|cmds| - 1])
  }

  /** Pushes that stay inside one lap lay the commands side by side. */
  lemma {:induction false} PushedAllSlots(r: Ring, cmds: seq<Trb>)
    requires WellFormed(r) && r.writeIndex == 0 && |cmds| < |r.slots| - 1
    ensures var r' := PushedAll(r, cmds);
      r'.base == r.base && r'.writeIndex == |cmds| && r'.cycle == r.cycle &&
      forall i :: 0 <= i < |r.slots| ==>
        r'.slots[i] == if i < |cmds| then WithCycle(cmds[i], r.cycle) else r.slots[i]
    decreases |cmds|
  {
    if cmds != [] {
      PushedAllSlots(r, cmds[..|cmds| - 1]);
    }
  }

  /** A fresh ring filled with as many commands as it has data slots is one full lap ahead. */
  lemma FilledRing(r: Ring, cmds: seq<Trb>)
    requires WellFormed(r) && r.writeIndex == 0 && |cmds| == |r.slots| - 1
    ensures var r' := PushedAll(r, cmds);
      r'.writeIndex == 0 && r'.cycle == !r.cycle && r'.base == r.base &&
      r'.slots[|cmds|] == LinkTo(r.base, r.cycle) &&
      forall i :: 0 <= i < |cmds| ==> r'.slots[i] == WithCycle(cmds[i], r.cycle)
  {
    PushedAllSlots(r, cmds[..|cmds| - 1]);
  }

  /** Four volatile stores, the word with the cycle bit last. */
  method WriteInOrder(buffer: array<Trb>, i: nat, t: Trb)
    requires i < buffer.Length
    modifies buffer
    ensures buffer[..] == old(buffer[..])[i := t]
  {
    for k := 0 to 4
      invariant AgreeUpTo(buffer[i], t, k)
      invariant forall j :: 0 <= j < buffer.Length && j != i ==> buffer[j] == old(buffer[j])
    {
      buffer[i] := StoreWord(buffer[i], t, k);
    }
  }

  class CommandRing {
    const base: Address
    const trbBuffer: array<Trb>
    var writeIndex: nat
    var cycleBit: bool

    ghost function View(): Ring
      reads this, trbBuffer
    {
      Ring(base, trbBuffer[..], writeIndex, cycleBit)
    }

    constructor (bufSize: nat, base: Address)
      ensures fresh(trbBuffer) && (bufSize >= 2 ==> Lapped(View()))
      ensures View() == Ring(base, seq(bufSize, _ => Trb(0, 0, 0, Control(0, 0, 0, false, false))), 0, true)
    {
      this.base := base;
      trbBuffer := new Trb[bufSize](_ => ZERO_TRB);
      writeIndex, cycleBit := 0, true;
      new;
      assert trbBuffer[..] == seq(bufSize, _ => Trb(0, 0, 0, Control(0, 0, 0, false, false)));
    }

    /** Returns the slot used, which the source returns as a pointer. */
    method Push(cmd: Trb) returns (slot: nat)
      requires WellFormed(View())
      modifies this, trbBuffer
      ensures View() == Pushed(old(View()), cmd)
      ensures slot == old(writeIndex) && SameButCycle(trbBuffer[slot], cmd)
      ensures trbBuffer[slot].control.cycle == old(cycleBit)
    {
      WriteInOrder(trbBuffer, writeIndex, WithCycle(cmd, cycleBit));
      slot := writeIndex;
      writeIndex := writeIndex + 1;
      if writeIndex == trbBuffer.Length - 1 {
        WriteInOrder(trbBuffer, writeIndex, LinkTo(base, cycleBit));
        writeIndex := 0;
        cycleBit := !cycleBit;
      }
    }
  }

  class TransferRing {
    const base: Address
    const trbBuffer: array<Trb>
    var writeIndex: nat
    var cycleBit: bool
    var cycleCount: nat

    ghost function View(): Ring
      reads this, trbBuffer
    {
      Ring(base, trbBuffer[..], writeIndex, cycleBit)
    }

    constructor (bufSize: nat, base: Address)
      ensures fresh(trbBuffer) && (bufSize >= 2 ==> Lapped(View())) && cycleCount == 0
      ensures View() == Ring(base, seq(bufSize, _ => Trb(0, 0, 0, Control(0, 0, 0, false, false))), 0, true)
    {
      this.base := base;
      trbBuffer := new Trb[bufSize](_ => ZERO_TRB);
      writeIndex, cycleBit, cycleCount := 0, true, 0;
      new;
      assert trbBuffer[..] == seq(bufSize, _ => Trb(0, 0, 0, Control(0, 0, 0, false, false)));
    }

    method Push(cmd: Trb) returns (slot: nat)
      requires WellFormed(View())
      modifies this, trbBuffer
      ensures View() == Pushed(old(View()), cmd) && cycleCount == old(cycleCount)
      ensures slot == old(writeIndex) && SameButCycle(trbBuffer[slot], cmd)
      ensures trbBuffer[slot].control.cycle == old(cycleBit)
    {
      WriteInOrder(trbBuffer, writeIndex, WithCycle(cmd, cycleBit));
      slot := writeIndex;
      writeIndex := writeIndex + 1;
      if writeIndex == trbBuffer.Length - 1 {
        WriteInOrder(trbBuffer, writeIndex, LinkTo(base, cycleBit));
        writeIndex := 0;
        cycleBit := !cycleBit;
      }
    }

    /** Fills every data slot; `normals` are the Normal TRBs with their freshly allocated buffers. */
    method FillWithNormal(normals: seq<Trb>)
      requires WellFormed(View()) && |normals| == trbBuffer.Length - 1
      modifies this, trbBuffer
      ensures View() == PushedAll(old(View()), normals)
    {
      for idx := 0 to |normals|
        invariant WellFormed(View())
        invariant View() == PushedAll(old(View()), normals[..idx])
      {
        var _ := Push(normals[idx]);
        assert normals[..idx + 1][..idx] == normals[..idx];
      }
      assert normals[..|normals|] == normals;
    }

    /** The preconditions are the range search and the two debug assertions of the source. */
    method FlipCycleBitAt(trbPointer: nat, prevCycleBit: bool)
      requires WellFormed(View())
      requires base <= trbPointer < base + 16 * trbBuffer.Length
      requires (trbPointer - base) / 16 != trbBuffer.Length - 1
      requires CycleBit(trbBuffer[(trbPointer - base) / 16]) == prevCycleBit
      modifies this, trbBuffer
      ensures View() == Flipped(old(View()), (trbPointer - base) / 16)
      ensures var i := (trbPointer - base) / 16;
        SameButCycle(trbBuffer[i], old(trbBuffer[i])) && trbBuffer[i].control.cycle == !prevCycleBit
      ensures cycleCount == old(cycleCount) + if writeIndex == 0 then 1 else 0
    {
      writeIndex := (trbPointer - base) / 16;
      var slot := trbBuffer[writeIndex];
      trbBuffer[writeIndex] := WithCycle(slot, !CycleBit(slot));
      writeIndex := writeIndex + 1;
      if writeIndex == trbBuffer.Length - 1 {
        cycleCount := cycleCount + 1;
        WriteInOrder(trbBuffer, writeIndex, LinkTo(base, cycleBit));
        writeIndex := 0;
        cycleBit := !cycleBit;
      }
    }
  }
}
