/** Input endpoints: the transfer ring is filled once and every completed slot is re-armed in place
    (kernel/src/xhci/transfer_ring.rs:56-102, kernel/src/xhci/controller.rs:1276-1289). */
module Rearm {
  import opened Arithmetic
  import opened Trbs
  import opened Rings
  import opened RingProtocol

  /** The ring just after `FillWithNormal`, before the controller has looked at it. */
  predicate Filled(s: System, normals: seq<Trb>) {
    && |normals| >= 1 && |s.ring.slots| == |normals| + 1
    && (forall i :: 0 <= i < |normals| ==> !IsLink(normals[i]))
    && s.ring == PushedAll(Ring(s.ring.base, seq(|normals| + 1, _ => ZERO_TRB), 0, true), normals)
    && s.writer.Idle? && s.dequeue == 0 && s.consumerCycle
    && s.pushed == seq(|normals|, i requires 0 <= i < |normals| => WithCycle(normals[i], true))
    && s.fetched == []
  }

  /** Some fetched TRB has not been re-armed yet, so a completion event can be outstanding for it. */
  predicate Completed(s: System) {
    |s.pushed| < |s.fetched| + |s.ring.slots| - 1
  }

  /** The driver re-arms only what was completed; the controller steps at any time. */
  predicate RearmEnabled(s: System, step: Step) {
    match step
    case BeginPush(_) => false
    case BeginRearm => s.writer.Idle? && Completed(s) && s.ring.writeIndex < |s.ring.slots|
    case _ => Enabled(s, step)
  }

  lemma CompletedLeavesRoom(s: System)
    requires Inv(s) && s.writer.Idle? && Completed(s)
    ensures Room(s)
  {}

  ghost predicate IsRearmRun(run: seq<System>, steps: seq<Step>) {
    && |run| == |steps| + 1
    && forall k :: 0 <= k < |steps| ==> RearmEnabled(run[k], steps[k]) && run[k + 1] == Next(run[k], steps[k])
  }

  /** The history goes round and round the payloads. */
  predicate Repeats(history: seq<Trb>, normals: seq<Trb>)
    requires |normals| >= 1
  {
    forall j :: 0 <= j < |history| ==> SameButCycle(history[j], normals[j % |normals|])
  }

  lemma RepeatsAppend(history: seq<Trb>, normals: seq<Trb>, t: Trb)
    requires |normals| >= 1 && Repeats(history, normals)
    requires SameButCycle(t, normals[|history| % |normals|])
    ensures Repeats(history + [t], normals)
  {}

  /** Slots keep the payloads they were filled with, and the n-th TRB published is slot n modulo the data slots. */
  predicate Cyclic(s: System, normals: seq<Trb>) {
    var m := |normals|;
    && m >= 1 && Inv(s) && |s.ring.slots| == m + 1
    && (forall i :: 0 <= i < m ==> SameButCycle(s.ring.slots[i], normals[i]))
    && (s.writer.Data? ==> s.writer.k == 3 && SameButCycle(s.writer.trb, normals[s.ring.writeIndex]))
    && |s.pushed| % m == (if s.ring.writeIndex == m then 0 else s.ring.writeIndex)
    && Repeats(s.pushed, normals)
    && |s.fetched| <= |s.pushed| <= |s.fetched| + m
  }

  lemma FirstLap(history: seq<Trb>, normals: seq<Trb>)
    requires |history| == |normals| >= 1
    requires forall j :: 0 <= j < |normals| ==> SameButCycle(history[j], normals[j])
    ensures Repeats(history, normals) && |history| % |normals| == 0
  {
    var m := |normals|;
    DivModUnique(m, m, 1, 0);
    forall j | 0 <= j < m ensures j % m == j {
      DivModUnique(j, m, 0, j);
    }
  }

  lemma FilledInv(s: System, normals: seq<Trb>)
    requires Filled(s, normals)
    ensures Inv(s) && s.ring.writeIndex == 0
    ensures forall i :: 0 <= i < |normals| ==> s.ring.slots[i] == WithCycle(normals[i], true)
  {
    FilledRing(Ring(s.ring.base, seq(|normals| + 1, _ => ZERO_TRB), 0, true), normals);
    assert Unfetched(s) == s.pushed;
  }

  lemma StartIsCyclic(s: System, normals: seq<Trb>)
    requires Inv(s) && s.writer.Idle? && s.ring.writeIndex == 0 && s.fetched == []
    requires |s.ring.slots| - 1 == |normals| == |s.pushed|
    requires forall i :: 0 <= i < |normals| ==>
      s.ring.slots[i] == WithCycle(normals[i], true) && s.pushed[i] == WithCycle(normals[i], true)
    ensures Cyclic(s, normals)
  {
    FirstLap(s.pushed, normals);
  }

  lemma FilledIsCyclic(s: System, normals: seq<Trb>)
    requires Filled(s, normals)
    ensures Cyclic(s, normals)
  {
    FilledInv(s, normals);
    StartIsCyclic(s, normals);
  }

  lemma DataWordKeepsCyclic(s: System, normals: seq<Trb>)
    requires Cyclic(s, normals) && Enabled(s, WriteWord) && s.writer.Data?
    ensures Cyclic(Next(s, WriteWord), normals)
  {
    var s', m := Next(s, WriteWord), |normals|;
    LastDataWordKeeps(s);
    LastWordCompletes(s);
    DivModSucc(|s.pushed|, m);
    RepeatsAppend(s.pushed, normals, s.writer.trb);
    assert |Unfetched(s')| <= m;
  }

  lemma LinkWordKeepsCyclic(s: System, normals: seq<Trb>)
    requires Cyclic(s, normals) && Enabled(s, WriteWord) && s.writer.Link?
    ensures Cyclic(Next(s, WriteWord), normals)
  {
    StepKeeps(s, WriteWord);
    assert forall i :: 0 <= i < |normals| ==> Next(s, WriteWord).ring.slots[i] == s.ring.slots[i];
  }

  lemma StepKeepsCyclic(s: System, step: Step, normals: seq<Trb>)
    requires Cyclic(s, normals) && RearmEnabled(s, step)
    ensures Enabled(s, step) && Cyclic(Next(s, step), normals)
  {
    if step.BeginRearm? {
      CompletedLeavesRoom(s);
    }
    if step.WriteWord? && s.writer.Data? {
      DataWordKeepsCyclic(s, normals);
    } else if step.WriteWord? {
      LinkWordKeepsCyclic(s, normals);
    } else {
      StepKeeps(s, step);
    }
  }

  lemma {:induction false} RunIsCyclic(run: seq<System>, steps: seq<Step>, normals: seq<Trb>, k: nat)
    requires IsRearmRun(run, steps) && Filled(run[0], normals) && k < |run|
    ensures Cyclic(run[k], normals)
    decreases k
  {
    if k == 0 {
      FilledIsCyclic(run[0], normals);
    } else {
      RunIsCyclic(run, steps, normals, k - 1);
      assert run[k - 1 + 1] == Next(run[k - 1], steps[k - 1]);
      StepKeepsCyclic(run[k - 1], steps[k - 1], normals);
    }
  }

  /** For any number of laps the j-th TRB the controller takes is the buffer of slot j modulo the data
      slots, and whatever has been re-armed is available to it. */
  lemma RearmedSlotsComeAroundForever(run: seq<System>, steps: seq<Step>, normals: seq<Trb>, k: nat)
    requires IsRearmRun(run, steps) && Filled(run[0], normals) && k < |run|
    ensures Repeats(run[k].fetched, normals)
    ensures run[k].fetched <= run[k].pushed && |run[k].pushed| <= |run[k].fetched| + |normals|
    ensures |run[k].fetched| < |run[k].pushed| ==> CanFetch(run[k])
  {
    RunIsCyclic(run, steps, normals, k);
    var s := run[k];
    forall j | 0 <= j < |s.fetched|
      ensures SameButCycle(s.fetched[j], normals[j % |normals|])
    {
      assert s.pushed[j] == s.fetched[j];
    }
  }

  /** The stores of a re-arm add up to `Flipped`: the machine's steps and the driver's method agree. */
  lemma StoresAddUpToFlip(s: System)
    requires Inv(s) && s.writer.Idle? && Completed(s) && (s.ring.writeIndex + 2 == |s.ring.slots| ==> RoomForPush(s))
    ensures var slot := s.ring.slots[s.ring.writeIndex];
      Stores(Next(s, BeginRearm), if s.ring.writeIndex + 2 == |s.ring.slots| then 5 else 1) ==
      s.(ring := Flipped(s.ring, s.ring.writeIndex), pushed := s.pushed + [WithCycle(slot, !CycleBit(slot))])
  {
    CompletedLeavesRoom(s);
    var begun := Next(s, BeginRearm);
    StepKeeps(s, BeginRearm);
    LastWordCompletes(begun);
    var mid := Next(begun, WriteWord);
    assert Stores(begun, 1) == Stores(mid, 0) == mid;
    if s.ring.writeIndex + 2 == |s.ring.slots| {
      StepKeeps(begun, WriteWord);
      FourStores(mid, LinkTo(s.ring.base, s.ring.cycle));
      StoresSplit(begun, 1, 4);
    }
  }

  /** Completions alone do not make re-arming safe: the last slot's re-arm also rewrites the Link, and it
      stalls the controller exactly when the controller has taken that slot but not yet followed the Link. */
  lemma RearmStallsExactlyOnUnfollowedLink(s: System)
    requires Inv(s) && s.writer.Idle? && Completed(s)
    ensures CanFetch(s.(ring := Flipped(s.ring, s.ring.writeIndex))) <==>
      !(s.ring.writeIndex + 2 == |s.ring.slots| && s.dequeue == |s.ring.slots| - 1)
  {}

  // A run that reaches such a state

  ghost predicate LeadsTo(run: seq<System>, steps: seq<Step>, normals: seq<Trb>, s: System) {
    IsRearmRun(run, steps) && Filled(run[0], normals) && run[|steps|] == s
  }

  ghost predicate Reachable(normals: seq<Trb>, s: System) {
    exists run, steps :: LeadsTo(run, steps, normals, s)
  }

  lemma RunExtends(run: seq<System>, steps: seq<Step>, step: Step)
    requires IsRearmRun(run, steps) && RearmEnabled(run[|steps|], step) && Executable(run[|steps|], step)
    ensures IsRearmRun(run + [Next(run[|steps|], step)], steps + [step])
  {
    var run', steps' := run + [Next(run[|steps|], step)], steps + [step];
    forall k | 0 <= k < |steps'| ensures RearmEnabled(run'[k], steps'[k]) && run'[k + 1] == Next(run'[k], steps'[k]) {
      if k < |steps| {
        assert run'[k] == run[k] && run'[k + 1] == run[k + 1] && steps'[k] == steps[k];
      }
    }
  }

  lemma ReachableStep(normals: seq<Trb>, s: System, step: Step)
    requires Reachable(normals, s) && RearmEnabled(s, step) && Executable(s, step)
    ensures Reachable(normals, Next(s, step))
  {
    var run, steps :| LeadsTo(run, steps, normals, s);
    RunExtends(run, steps, step);
    assert LeadsTo(run + [Next(s, step)], steps + [step], normals, Next(s, step));
  }

  /** `taken` slots fetched and `rearmed` of them re-armed, with the Link not yet followed. */
  ghost predicate Midway(normals: seq<Trb>, s: System, taken: nat, rearmed: nat) {
    && Reachable(normals, s) && Inv(s) && s.writer.Idle? && |s.ring.slots| == |normals| + 1
    && s.consumerCycle && !s.ring.cycle && s.dequeue == taken && s.ring.writeIndex == rearmed
    && |s.fetched| == taken && |s.pushed| == |normals| + rearmed
  }

  lemma FetchOne(normals: seq<Trb>, s: System, taken: nat)
    requires Midway(normals, s, taken, 0) && taken < |normals|
    ensures CanFetch(s) && Midway(normals, Next(s, Fetch), taken + 1, 0)
  {
    ReachableStep(normals, s, Fetch);
    FetchTakesSlot(s);
    StepKeeps(s, Fetch);
  }

  lemma RearmOne(normals: seq<Trb>, s: System, rearmed: nat) returns (s': System)
    requires Midway(normals, s, |normals|, rearmed) && rearmed + 1 < |normals|
    ensures Midway(normals, s', |normals|, rearmed + 1)
  {
    CompletedLeavesRoom(s);
    ReachableStep(normals, s, BeginRearm);
    StepKeeps(s, BeginRearm);
    var begun := Next(s, BeginRearm);
    ReachableStep(normals, begun, WriteWord);
    StepKeeps(begun, WriteWord);
    s' := Next(begun, WriteWord);
  }

  lemma {:induction false} AllFetched(normals: seq<Trb>, s: System, taken: nat) returns (s': System)
    requires Filled(s, normals) && taken <= |normals|
    ensures Midway(normals, s', taken, 0)
    decreases taken
  {
    if taken == 0 {
      FilledInv(s, normals);
      FilledRing(Ring(s.ring.base, seq(|normals| + 1, _ => ZERO_TRB), 0, true), normals);
      assert LeadsTo([s], [], normals, s);
      s' := s;
    } else {
      s' := AllFetched(normals, s, taken - 1);
      FetchOne(normals, s', taken - 1);
      s' := Next(s', Fetch);
    }
  }

  lemma {:induction false} AllButOneRearmed(normals: seq<Trb>, s: System, rearmed: nat) returns (s': System)
    requires Filled(s, normals) && rearmed < |normals|
    ensures Midway(normals, s', |normals|, rearmed)
    decreases rearmed
  {
    if rearmed == 0 {
      s' := AllFetched(normals, s, |normals|);
    } else {
      s' := AllButOneRearmed(normals, s, rearmed - 1);
      s' := RearmOne(normals, s', rearmed - 1);
    }
  }

  /** On a ring of any length: the controller takes every slot without following the Link, the driver re-arms all of
      them but the last, and the re-arm of that one stalls the controller. */
  lemma EarlyRearmStalls(normals: seq<Trb>, filled: System) returns (s: System)
    requires Filled(filled, normals)
    ensures Reachable(normals, s) && RearmEnabled(s, BeginRearm)
    ensures CanFetch(s) && WellFormed(s.ring) && !CanFetch(s.(ring := Flipped(s.ring, s.ring.writeIndex)))
  {
    s := AllButOneRearmed(normals, filled, |normals| - 1);
    RearmStallsExactlyOnUnfollowedLink(s);
  }
}
