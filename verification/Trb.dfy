/** Transfer Request Blocks as four words (kernel/src/xhci/trb.rs; section 6.4 of the xHCI specification). */
module Trbs {

  type Word = w: nat | w < 0x1_0000_0000

  type Address = a: nat | a < 0x1_0000_0000_0000_0000

  /** The last word by its bit fields: bits 31:16, TRB type (bits 15:10), bits 9:2, Toggle Cycle (bit 1)
      and the cycle bit (bit 0). */
  datatype Control = Control(upper: nat, trbType: nat, flags: nat, toggleCycle: bool, cycle: bool)

  datatype Trb = Trb(w0: Word, w1: Word, w2: Word, control: Control)

  const ZERO_TRB := Trb(0, 0, 0, Control(0, 0, 0, false, false))

  /** The TRB type of a Link TRB (section 6.4.6 of the xHCI specification). */
  const LINK_TYPE := 6

  /** The only ownership signal between driver and controller. */
  predicate CycleBit(t: Trb) {
    t.control.cycle
  }

  predicate IsLink(t: Trb) {
    t.control.trbType == LINK_TYPE
  }

  /** The same command: every word and every bit of the last one but the cycle bit. */
  predicate SameButCycle(t: Trb, u: Trb) {
    && t.w0 == u.w0 && t.w1 == u.w1 && t.w2 == u.w2
    && t.control.upper == u.control.upper && t.control.trbType == u.control.trbType
    && t.control.flags == u.control.flags && t.control.toggleCycle == u.control.toggleCycle
  }

  function WithCycle(t: Trb, cycle: bool): (u: Trb)
    ensures SameButCycle(u, t) && u.control.cycle == cycle
  {
    t.(control := t.control.(cycle := cycle))
  }

  /** The 64-bit address in the two low words. */
  function Pointer(t: Trb): nat {
    t.w0 as int + 0x1_0000_0000 * t.w1 as int
  }

  /** The Link TRB that closes a ring: back to `base`, Toggle Cycle set. */
  function LinkTo(base: Address, cycle: bool): (t: Trb)
    ensures Pointer(t) == base && IsLink(t) && t.control.toggleCycle && CycleBit(t) == cycle
    ensures t.w0 as int + 0x1_0000_0000 * t.w1 as int == base && t.w2 == 0
    ensures t.control == Control(0, 6, 0, true, cycle)
  {
    Trb(base % 0x1_0000_0000, base / 0x1_0000_0000, 0, Control(0, LINK_TYPE, 0, true, cycle))
  }

  /** One 32-bit store: word `k` of `dst` becomes word `k` of `src`. */
  function StoreWord(dst: Trb, src: Trb, k: nat): Trb
    requires k < 4
  {
    match k
    case 0 => dst.(w0 := src.w0)
    case 1 => dst.(w1 := src.w1)
    case 2 => dst.(w2 := src.w2)
    case _ => dst.(control := src.control)
  }

  /** The first `k` words agree. */
  predicate AgreeUpTo(t: Trb, u: Trb, k: nat) {
    && (k > 0 ==> t.w0 == u.w0)
    && (k > 1 ==> t.w1 == u.w1)
    && (k > 2 ==> t.w2 == u.w2)
    && (k > 3 ==> t.control == u.control)
  }
}
