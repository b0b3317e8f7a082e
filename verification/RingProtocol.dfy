/** A TRB ring shared by the driver, which stores one word at a time, and the controller, which
    fetches whenever the cycle bits match (section 4.9 of the xHCI specification). */
module RingProtocol {
  import opened Arithmetic
  import opened Sequences
  import opened Trbs
  import opened Rings

  /** Where the driver is: between pushes, or about to store word `k` of a data TRB or of the Link. */
  datatype Writer = Idle | Data(trb: Trb, k: nat) | Link(k: nat)

  datatype System = System(
    ring: Ring,
    writer: Writer,
    dequeue: nat,         // the controller's slot
    consumerCycle: bool,  // its Consumer Cycle State
    pushed: seq<Trb>,     // history: data TRBs whose last word has been stored
    fetched: seq<Trb>)    // history: data TRBs the controller has taken

  datatype Step = BeginPush(cmd: Trb) | BeginRearm | WriteWord | Fetch

  predicate CanFetch(s: System) {
    s.dequeue < |s.ring.slots| && CycleBit(s.ring.slots[s.dequeue]) == s.consumerCycle
  }

  /** The slot under the write index does not hold a TRB the controller has yet to take. */
  predicate Room(s: System) {
    s.consumerCycle == s.ring.cycle || s.dequeue != s.ring.writeIndex
  }

  predicate Executable(s: System, step: Step) {
    match step
    case BeginPush(cmd) => s.writer.Idle? && !IsLink(cmd)
    case BeginRearm => s.writer.Idle? && s.ring.writeIndex < |s.ring.slots|
    case WriteWord => !s.writer.Idle? && s.ring.writeIndex < |s.ring.slots| && s.writer.k < 4
    case Fetch => CanFetch(s)
  }

  /** The only assumption on timing is `Room` when a slot is first written. */
  predicate Enabled(s: System, step: Step) {
    && Executable(s, step)
    && (step.BeginRearm? || (step.WriteWord? && s.writer.k == 0) ==> Room(s))
  }

  /** The TRB a busy writer is storing. */
  function Source(s: System): Trb
    requires !s.writer.Idle?
  {
    if s.writer.Data? then s.writer.trb else LinkTo(s.ring.base, s.ring.cycle)
  }

  /** `WriteInOrder` one store at a time; after the last store the write index moves on. */
  function AfterWriteWord(s: System): System
    requires Executable(s, WriteWord)
  {
    var i, k, r := s.ring.writeIndex, s.writer.k, s.ring;
    var slots := r.slots[i := StoreWord(r.slots[i], Source(s), k)];
    if k < 3 then
      s.(ring := r.(slots := slots), writer := if s.writer.Data? then s.writer.(k := k + 1) else Link(k + 1))
    else if s.writer.Data? then
      s.(ring := r.(slots := slots, writeIndex := i + 1),
         writer := if i + 1 == |slots| - 1 then Link(0) else Idle,
         pushed := s.pushed + [s.writer.trb])
    else
      s.(ring := r.(slots := slots, writeIndex := 0, cycle := !r.cycle), writer := Idle)
  }

  function AfterFetch(s: System): System
    requires CanFetch(s)
  {
    var t := s.ring.slots[s.dequeue];
    if IsLink(t) && Pointer(t) >= s.ring.base then
      s.(dequeue := (Pointer(t) - s.ring.base) / 16,
         consumerCycle := if t.control.toggleCycle then !s.consumerCycle else s.consumerCycle)
    else
      s.(dequeue := s.dequeue + 1, fetched := s.fetched + [t])
  }

  function Next(s: System, step: Step): System
    requires Executable(s, step)
  {
    match step
    case BeginPush(cmd) => s.(writer := Data(WithCycle(cmd, s.ring.cycle), 0))
    case BeginRearm =>
      var t := s.ring.slots[s.ring.writeIndex];
      s.(writer := Data(WithCycle(t, !CycleBit(t)), 3))
    case WriteWord => AfterWriteWord(s)
    case Fetch => AfterFetch(s)
  }

  ghost predicate IsRun(run: seq<System>, steps: seq<Step>) {
    && |run| == |steps| + 1
    && forall k :: 0 <= k < |steps| ==> Enabled(run[k], steps[k]) && run[k + 1] == Next(run[k], steps[k])
  }

  predicate Fresh(s: System) {
    && |s.ring.slots| >= 2
    && s.ring.slots == seq(|s.ring.slots|, _ => ZERO_TRB)
    && s.ring.writeIndex == 0 && s.ring.cycle && s.writer.Idle?
    && s.dequeue == 0 && s.consumerCycle
    && s.pushed == [] && s.fetched == []
  }

  /** From the reader at `d` to the writer at `w`, on the same lap or with the end of the ring between them. */
  function Held<T>(slots: seq<T>, d: nat, w: nat, sameLap: bool): seq<T>
    requires d < |slots| && w < |slots| && (sameLap ==> d <= w)
  {
    if sameLap then slots[d..w] else slots[d..|slots| - 1] + slots[..w]
  }

  /** Data TRBs stored and not yet taken. Equal cycle states mean both parties are on the same lap. */
  function Unfetched(s: System): seq<Trb>
    requires Positions(s)
  {
    Held(s.ring.slots, s.dequeue, s.ring.writeIndex, s.consumerCycle == s.ring.cycle)
  }

  predicate Positions(s: System) {
    var n := |s.ring.slots|;
    && n >= 2 && s.ring.writeIndex < n && s.dequeue < n
    && (if s.consumerCycle == s.ring.cycle then s.dequeue <= s.ring.writeIndex else s.ring.writeIndex <= s.dequeue)
    && (s.writer.Link? <==> s.ring.writeIndex == n - 1)
  }

  /** The slot being written holds the words stored so far; its last word is still the old one. */
  predicate PartlyWritten(s: System)
    requires Positions(s)
  {
    !s.writer.Idle? ==>
    && s.writer.k < 4
    && AgreeUpTo(s.ring.slots[s.ring.writeIndex], Source(s), s.writer.k)
    && (s.writer.k > 0 ==> Room(s))
    && (s.writer.Data? ==> CycleBit(s.writer.trb) == s.ring.cycle && !IsLink(s.writer.trb))
  }

  predicate Ownership(s: System)
    requires Positions(s)
  {
    var n, r := |s.ring.slots|, s.ring;
    && (forall i :: 0 <= i < r.writeIndex ==> CycleBit(r.slots[i]) == r.cycle)
    && (forall i :: r.writeIndex <= i < n ==> CycleBit(r.slots[i]) == !r.cycle)
    && (forall i :: 0 <= i < n - 1 ==> !IsLink(r.slots[i]))
    && (s.consumerCycle != r.cycle ==> r.slots[n - 1] == LinkTo(r.base, !r.cycle))
  }

  predicate Inv(s: System) {
    && Positions(s) && PartlyWritten(s) && Ownership(s)
    && s.pushed == s.fetched + Unfetched(s)
  }

  lemma EarlyWordKeeps(s: System)
    requires Inv(s) && Enabled(s, WriteWord) && s.writer.k < 3
    ensures Inv(Next(s, WriteWord))
  {
    var s' := Next(s, WriteWord);
    assert s'.ring.slots[s.ring.writeIndex].control == s.ring.slots[s.ring.writeIndex].control;
    assert Unfetched(s') == Unfetched(s);
  }

  lemma LastWordCompletes(s: System)
    requires Inv(s) && Enabled(s, WriteWord) && s.writer.k == 3
    ensures Next(s, WriteWord).ring.slots == s.ring.slots[s.ring.writeIndex := Source(s)]
  {}

  lemma HeldGrows<T>(slots: seq<T>, d: nat, w: nat, sameLap: bool, t: T)
    requires d < |slots| && w + 1 < |slots| && (if sameLap then d <= w else w < d)
    ensures Held(slots[w := t], d, w + 1, sameLap) == Held(slots, d, w, sameLap) + [t]
  {}

  lemma LastDataWordPublishes(s: System)
    requires Inv(s) && Enabled(s, WriteWord) && s.writer.k == 3 && s.writer.Data?
    ensures Positions(Next(s, WriteWord)) && Unfetched(Next(s, WriteWord)) == Unfetched(s) + [s.writer.trb]
  {
    LastWordCompletes(s);
    HeldGrows(s.ring.slots, s.dequeue, s.ring.writeIndex, s.consumerCycle == s.ring.cycle, s.writer.trb);
  }

  lemma LastDataWordKeeps(s: System)
    requires Inv(s) && Enabled(s, WriteWord) && s.writer.k == 3 && s.writer.Data?
    ensures Inv(Next(s, WriteWord))
  {
    LastWordCompletes(s);
    LastDataWordPublishes(s);
  }

  lemma LastLinkWordKeeps(s: System)
    requires Inv(s) && Enabled(s, WriteWord) && s.writer.k == 3 && s.writer.Link?
    ensures Inv(Next(s, WriteWord))
  {}

  /** While the consumer is a lap behind, the Link leads it to slot 0 of the producer's lap. */
  lemma FollowLinkKeeps(s: System)
    requires Inv(s) && CanFetch(s) && s.dequeue == |s.ring.slots| - 1
    ensures Inv(Next(s, Fetch))
  {
    var t := s.ring.slots[s.dequeue];
    assert t == LinkTo(s.ring.base, !s.ring.cycle);
    assert Next(s, Fetch) == s.(dequeue := 0, consumerCycle := s.ring.cycle);
    assert Unfetched(Next(s, Fetch)) == Unfetched(s);
  }

  lemma FetchTakesSlot(s: System)
    requires Inv(s) && CanFetch(s) && s.dequeue < |s.ring.slots| - 1
    ensures Next(s, Fetch) == s.(dequeue := s.dequeue + 1, fetched := s.fetched + [s.ring.slots[s.dequeue]])
  {}

  lemma FetchKeepsShape(s: System)
    requires Inv(s) && CanFetch(s) && s.dequeue < |s.ring.slots| - 1
    ensures var s' := s.(dequeue := s.dequeue + 1); Positions(s') && PartlyWritten(s') && Ownership(s')
  {}

  lemma HeldSplitsFirst<T>(slots: seq<T>, d: nat, w: nat, sameLap: bool)
    requires d + 1 < |slots| && w < |slots| && (sameLap ==> d + 1 <= w)
    ensures Held(slots, d, w, sameLap) == [slots[d]] + Held(slots, d + 1, w, sameLap)
  {
    if sameLap {
      SliceSplitsFirst(slots, d, w);
    } else {
      TailSplitsFirst(slots, d, |slots| - 1, slots[..w]);
    }
  }

  lemma FetchedIsOldest(s: System)
    requires Positions(s) && Positions(s.(dequeue := s.dequeue + 1))
    ensures Unfetched(s) == [s.ring.slots[s.dequeue]] + Unfetched(s.(dequeue := s.dequeue + 1))
  {
    HeldSplitsFirst(s.ring.slots, s.dequeue, s.ring.writeIndex, s.consumerCycle == s.ring.cycle);
  }

  lemma FetchKeeps(s: System)
    requires Inv(s) && CanFetch(s)
    ensures Inv(Next(s, Fetch))
  {
    if s.dequeue == |s.ring.slots| - 1 {
      FollowLinkKeeps(s);
    } else {
      FetchTakesSlot(s);
      FetchKeepsShape(s);
      FetchedIsOldest(s);
      var moved := s.(dequeue := s.dequeue + 1);
      AppendThenRest(s.fetched, s.ring.slots[s.dequeue], Unfetched(moved));
      FetchedIsHistory(moved, s.fetched + [s.ring.slots[s.dequeue]]);
    }
  }

  /** The fetch history plays no part in the shape of the ring. */
  lemma FetchedIsHistory(s: System, fetched: seq<Trb>)
    requires Positions(s) && PartlyWritten(s) && Ownership(s)
    ensures var s' := s.(fetched := fetched);
      Positions(s') && PartlyWritten(s') && Ownership(s') && Unfetched(s') == Unfetched(s)
  {}

  lemma StepKeeps(s: System, step: Step)
    requires Inv(s) && Enabled(s, step)
    ensures Inv(Next(s, step))
  {
    match step
    case WriteWord =>
      if s.writer.k < 3 {
        EarlyWordKeeps(s);
      } else if s.writer.Data? {
        LastDataWordKeeps(s);
      } else {
        LastLinkWordKeeps(s);
      }
    case Fetch => FetchKeeps(s);
    case BeginPush(cmd) =>
      assert Unfetched(Next(s, step)) == Unfetched(s);
    case BeginRearm =>
      assert Unfetched(Next(s, step)) == Unfetched(s);
  }

  lemma {:induction false} RunKeeps(run: seq<System>, steps: seq<Step>, k: nat)
    requires IsRun(run, steps) && Inv(run[0]) && k < |run|
    ensures Inv(run[k]) && |run[k].ring.slots| == |run[0].ring.slots|
    decreases k
  {
    if k > 0 {
      RunKeeps(run, steps, k - 1);
      assert run[k - 1 + 1] == Next(run[k - 1], steps[k - 1]);
      StepKeeps(run[k - 1], steps[k - 1]);
    }
  }

  // What was asked for

  /** The TRB a step sets out to publish: a pushed command, or a re-armed slot. */
  function AskedBy(s: System, step: Step): seq<Trb>
    requires Executable(s, step)
  {
    match step
    case BeginPush(cmd) => [cmd]
    case BeginRearm => [s.ring.slots[s.ring.writeIndex]]
    case _ => []
  }

  ghost function Asked(run: seq<System>, steps: seq<Step>, k: nat): seq<Trb>
    requires IsRun(run, steps) && k <= |steps|
    decreases k
  {
    if k == 0 then [] else Asked(run, steps, k - 1) + AskedBy(run[k - 1], steps[k - 1])
  }

  /** With `m` data slots the n-th TRB published is the n-th asked for, with the parity of its lap. */
  predicate PublishedAsAsked(pushed: seq<Trb>, asked: seq<Trb>, m: nat)
    requires m >= 1
  {
    && |pushed| <= |asked|
    && forall n :: 0 <= n < |pushed| ==> SameButCycle(pushed[n], asked[n]) && pushed[n].control.cycle == Even(n / m)
  }

  /** The write index and the cycle bit are functions of the number of TRBs published. */
  predicate Clocked(count: nat, m: nat, writer: Writer, writeIndex: nat, cycle: bool)
    requires m >= 1
  {
    if writer.Link? then count % m == 0 && cycle == !Even(count / m) && writeIndex == m
    else count % m == writeIndex && cycle == Even(count / m) && writeIndex < m
  }

  /** The history is what was asked for, less the one TRB still being written. */
  predicate Honest(s: System, asked: seq<Trb>) {
    var m := |s.ring.slots| - 1;
    && m >= 1
    && PublishedAsAsked(s.pushed, asked, m)
    && |asked| == |s.pushed| + (if s.writer.Data? then 1 else 0)
    && (s.writer.Data? ==>
         SameButCycle(s.writer.trb, asked[|s.pushed|]) && s.writer.trb.control.cycle == s.ring.cycle)
    && Clocked(|s.pushed|, m, s.writer, s.ring.writeIndex, s.ring.cycle)
  }

  lemma EarlyWordIsHonest(s: System, asked: seq<Trb>)
    requires Honest(s, asked) && Executable(s, WriteWord) && s.writer.k < 3
    ensures Honest(Next(s, WriteWord), asked)
  {}

  lemma ClockTicks(count: nat, m: nat, writer: Writer, writeIndex: nat, cycle: bool)
    requires m >= 1 && !writer.Link? && Clocked(count, m, writer, writeIndex, cycle)
    ensures Clocked(count + 1, m, if writeIndex + 1 == m then Link(0) else Idle, writeIndex + 1, cycle)
  {
    DivModSucc(count, m);
    assert Even(count / m) == !Even(count / m + 1);
  }

  lemma PublishedGrows(pushed: seq<Trb>, asked: seq<Trb>, m: nat, t: Trb)
    requires m >= 1 && PublishedAsAsked(pushed, asked, m) && |pushed| < |asked|
    requires SameButCycle(t, asked[|pushed|]) && t.control.cycle == Even(|pushed| / m)
    ensures PublishedAsAsked(pushed + [t], asked, m)
  {}

  lemma LastDataWordIsHonest(s: System, asked: seq<Trb>)
    requires Honest(s, asked) && Executable(s, WriteWord) && s.writer.k == 3 && s.writer.Data?
    ensures Honest(Next(s, WriteWord), asked)
  {
    var m := |s.ring.slots| - 1;
    ClockTicks(|s.pushed|, m, s.writer, s.ring.writeIndex, s.ring.cycle);
    PublishedGrows(s.pushed, asked, m, s.writer.trb);
  }

  lemma LastLinkWordIsHonest(s: System, asked: seq<Trb>)
    requires Honest(s, asked) && Executable(s, WriteWord) && s.writer.k == 3 && s.writer.Link?
    ensures Honest(Next(s, WriteWord), asked)
  {}

  lemma StepIsHonest(s: System, step: Step, asked: seq<Trb>)
    requires Honest(s, asked) && Executable(s, step)
    requires step.BeginRearm? ==> CycleBit(s.ring.slots[s.ring.writeIndex]) == !s.ring.cycle
    ensures Honest(Next(s, step), asked + AskedBy(s, step))
  {
    assert asked + [] == asked;
    match step
    case WriteWord =>
      if s.writer.k < 3 {
        EarlyWordIsHonest(s, asked);
      } else if s.writer.Data? {
        LastDataWordIsHonest(s, asked);
      } else {
        LastLinkWordIsHonest(s, asked);
      }
    case _ =>
  }

  lemma {:induction false} RunIsHonest(run: seq<System>, steps: seq<Step>, k: nat)
    requires IsRun(run, steps) && Inv(run[0]) && Honest(run[0], []) && k < |run|
    ensures Honest(run[k], Asked(run, steps, k))
    decreases k
  {
    if k > 0 {
      RunIsHonest(run, steps, k - 1);
      RunKeeps(run, steps, k - 1);
      assert run[k - 1 + 1] == Next(run[k - 1], steps[k - 1]);
      StepIsHonest(run[k - 1], steps[k - 1], Asked(run, steps, k - 1));
    }
  }

  lemma FreshIsHonest(s: System)
    requires Fresh(s)
    ensures Inv(s) && Honest(s, [])
  {
    assert Unfetched(s) == [];
    DivModUnique(0, |s.ring.slots| - 1, 0, 0);
  }

  /** What has been taken is a prefix of what was published, what was published is what was asked for less the TRB
      still being written, and the controller is not starved. */
  predicate FirstInFirstOut(s: System, asked: seq<Trb>) {
    && s.fetched <= s.pushed && |s.ring.slots| >= 2
    && PublishedAsAsked(s.pushed, asked, |s.ring.slots| - 1)
    && |asked| == |s.pushed| + (if s.writer.Data? then 1 else 0)
    && (|s.fetched| < |s.pushed| ==> CanFetch(s))
  }

  lemma HonestIsFifo(s: System, asked: seq<Trb>)
    requires Inv(s) && Honest(s, asked)
    ensures FirstInFirstOut(s, asked)
  {}

  /** FIFO under every interleaving: at every point of every run from a fresh ring the controller has taken exactly
      a prefix of what was pushed, and what was pushed is exactly what the driver asked for, in order and complete,
      with the cycle bit of its lap, less the TRB still being written. The controller is never starved. */
  lemma FifoOnEveryRun(run: seq<System>, steps: seq<Step>, k: nat)
    requires IsRun(run, steps) && Fresh(run[0]) && k < |run|
    ensures FirstInFirstOut(run[k], Asked(run, steps, k))
  {
    FreshIsHonest(run[0]);
    RunIsHonest(run, steps, k);
    RunKeeps(run, steps, k);
    HonestIsFifo(run[k], Asked(run, steps, k));
  }

  // Exactly when a push is safe

  /** There is a free slot for the data TRB and, at the end of a lap, for the Link. */
  predicate RoomForPush(s: System) {
    || s.consumerCycle == s.ring.cycle
    || (s.dequeue != s.ring.writeIndex && s.ring.writeIndex + 1 != |s.ring.slots| - 1)
  }

  /** The effect of a whole `push` while the controller stands still. */
  function PushInOneGo(s: System, cmd: Trb): System
    requires WellFormed(s.ring)
  {
    s.(ring := Pushed(s.ring, cmd), pushed := s.pushed + [WithCycle(cmd, s.ring.cycle)])
  }

  /** With room the push leaves the controller able to take the oldest TRB; without room the slot the
      controller waits on now carries the wrong cycle bit and the TRB it held is gone. */
  lemma PushKeepsDeliveryExactlyWithRoom(s: System, cmd: Trb)
    requires Inv(s) && s.writer.Idle? && !IsLink(cmd)
    ensures RoomForPush(s) <==> CanFetch(PushInOneGo(s, cmd))
  {}

  /** Up to `count` driver stores, with the controller standing still. */
  function Stores(s: System, count: nat): System
    decreases count
  {
    if count == 0 || !Enabled(s, WriteWord) then s else Stores(Next(s, WriteWord), count - 1)
  }

  lemma {:induction false} StoresSplit(s: System, a: nat, b: nat)
    ensures Stores(s, a + b) == Stores(Stores(s, a), b)
    decreases a
  {
    if a > 0 && Enabled(s, WriteWord) {
      StoresSplit(Next(s, WriteWord), a - 1, b);
    }
  }

  lemma FourStores(s: System, t: Trb)
    requires Inv(s) && !s.writer.Idle? && s.writer.k == 0 && t == Source(s) && Room(s)
    ensures Stores(s, 4) ==
      var slots := s.ring.slots[s.ring.writeIndex := t];
      if s.writer.Data? then
        s.(ring := s.ring.(slots := slots, writeIndex := s.ring.writeIndex + 1),
           writer := if s.ring.writeIndex + 1 == |slots| - 1 then Link(0) else Idle,
           pushed := s.pushed + [t])
      else
        s.(ring := s.ring.(slots := slots, writeIndex := 0, cycle := !s.ring.cycle), writer := Idle)
  {
    var i := s.ring.writeIndex;
    var s1 := Next(s, WriteWord);
    var s2 := Next(s1, WriteWord);
    var s3 := Next(s2, WriteWord);
    var s4 := Next(s3, WriteWord);
    assert s4.ring.slots[i] == t;
    assert s4.ring.slots == s.ring.slots[i := t];
    assert Stores(s3, 1) == Stores(s4, 0) == s4;
    assert Stores(s2, 2) == s4;
    assert Stores(s1, 3) == s4;
  }

  /** The data TRB stored, and at the end of a lap the Link still to come. */
  lemma DataStoresOfPush(s: System, cmd: Trb)
    requires Inv(s) && s.writer.Idle? && !IsLink(cmd) && Room(s)
    ensures var t, i := WithCycle(cmd, s.ring.cycle), s.ring.writeIndex;
      && Stores(Next(s, BeginPush(cmd)), 4) ==
         s.(ring := s.ring.(slots := s.ring.slots[i := t], writeIndex := i + 1),
            writer := if i + 1 == |s.ring.slots| - 1 then Link(0) else Idle, pushed := s.pushed + [t])
      && Inv(Stores(Next(s, BeginPush(cmd)), 4))
  {
    var begun := Next(s, BeginPush(cmd));
    StepKeeps(s, BeginPush(cmd));
    StoresKeep(begun, 4);
    FourStores(begun, WithCycle(cmd, s.ring.cycle));
  }

  lemma LinkStoresOfPush(mid: System)
    requires Inv(mid) && mid.writer == Link(0) && Room(mid)
    ensures Stores(mid, 4) == mid.(writer := Idle, ring := Ring(mid.ring.base,
      mid.ring.slots[mid.ring.writeIndex := LinkTo(mid.ring.base, mid.ring.cycle)], 0, !mid.ring.cycle))
    ensures Inv(Stores(mid, 4))
  {
    FourStores(mid, LinkTo(mid.ring.base, mid.ring.cycle));
    StoresKeep(mid, 4);
  }

  lemma LapEndPush(s: System, cmd: Trb)
    requires Inv(s) && s.writer.Idle? && !IsLink(cmd) && RoomForPush(s) && s.ring.writeIndex + 1 == |s.ring.slots| - 1
    ensures Stores(Next(s, BeginPush(cmd)), 8) == PushInOneGo(s, cmd) && Inv(PushInOneGo(s, cmd))
  {
    DataStoresOfPush(s, cmd);
    var begun := Next(s, BeginPush(cmd));
    LinkStoresOfPush(Stores(begun, 4));
    StoresSplit(begun, 4, 4);
  }

  /** Storing word by word adds up to `Pushed`: the machine's steps and the driver's method agree. */
  lemma WordStoresAddUpToPush(s: System, cmd: Trb)
    requires Inv(s) && s.writer.Idle? && !IsLink(cmd) && RoomForPush(s)
    ensures Stores(Next(s, BeginPush(cmd)), if s.ring.writeIndex + 1 == |s.ring.slots| - 1 then 8 else 4)
         == PushInOneGo(s, cmd)
    ensures Inv(PushInOneGo(s, cmd))
  {
    if s.ring.writeIndex + 1 == |s.ring.slots| - 1 {
      LapEndPush(s, cmd);
    } else {
      DataStoresOfPush(s, cmd);
    }
  }

  lemma {:induction false} StoresKeep(s: System, count: nat)
    requires Inv(s)
    ensures Inv(Stores(s, count))
    decreases count
  {
    if count > 0 && Enabled(s, WriteWord) {
      StepKeeps(s, WriteWord);
      StoresKeep(Next(s, WriteWord), count - 1);
    }
  }

  // A run in which a push destroys a command

  ghost predicate LeadsTo(run: seq<System>, steps: seq<Step>, s: System) {
    IsRun(run, steps) && Fresh(run[0]) && run[|steps|] == s
  }

  ghost predicate Reachable(s: System) {
    exists run, steps :: LeadsTo(run, steps, s)
  }

  lemma RunExtends(run: seq<System>, steps: seq<Step>, step: Step)
    requires IsRun(run, steps) && Enabled(run[|steps|], step)
    ensures IsRun(run + [Next(run[|steps|], step)], steps + [step])
  {
    var run', steps' := run + [Next(run[|steps|], step)], steps + [step];
    forall k | 0 <= k < |steps'| ensures Enabled(run'[k], steps'[k]) && run'[k + 1] == Next(run'[k], steps'[k]) {
      if k < |steps| {
        assert run'[k] == run[k] && run'[k + 1] == run[k + 1] && steps'[k] == steps[k];
      }
    }
  }

  lemma ReachableStep(s: System, step: Step)
    requires Reachable(s) && Enabled(s, step)
    ensures Reachable(Next(s, step))
  {
    var run, steps :| LeadsTo(run, steps, s);
    RunExtends(run, steps, step);
    assert LeadsTo(run + [Next(s, step)], steps + [step], Next(s, step));
  }

  lemma {:induction false} ReachableStores(s: System, count: nat)
    requires Reachable(s)
    ensures Reachable(Stores(s, count))
    decreases count
  {
    if count == 0 || !Enabled(s, WriteWord) {
      assert Stores(s, count) == s;
    } else {
      var s' := Next(s, WriteWord);
      assert Reachable(s') by { ReachableStep(s, WriteWord); }
      ReachableStores(s', count - 1);
    }
  }

  lemma ReachablePush(s: System, cmd: Trb)
    requires Reachable(s) && Inv(s) && s.writer.Idle? && !IsLink(cmd) && RoomForPush(s)
    ensures Reachable(PushInOneGo(s, cmd)) && Inv(PushInOneGo(s, cmd))
  {
    ReachableStep(s, BeginPush(cmd));
    ReachableStores(Next(s, BeginPush(cmd)), if s.ring.writeIndex + 1 == |s.ring.slots| - 1 then 8 else 4);
    WordStoresAddUpToPush(s, cmd);
  }

  /** Pushes one after the other while the controller stands still. */
  function PushAll(s: System, cmds: seq<Trb>): (s': System)
    requires WellFormed(s.ring)
    ensures WellFormed(s'.ring)
    decreases |cmds|
  {
    if cmds == [] then s else PushInOneGo(PushAll(s, cmds[..|cmds| - 1]), cmds[|cmds| - 1])
  }

  predicate NoLinks(cmds: seq<Trb>) {
    forall i :: 0 <= i < |cmds| ==> !IsLink(cmds[i])
  }

  /** A ring that started fresh and has taken `count` commands, with none fetched. */
  ghost predicate FilledBy(s: System, size: nat, count: nat) {
    && Reachable(s) && Inv(s) && |s.ring.slots| == size && s.writer.Idle?
    && s.dequeue == 0 && s.consumerCycle && s.fetched == [] && |s.pushed| == count
    && if count < size - 1 then s.ring.writeIndex == count && s.ring.cycle
       else s.ring.writeIndex == 0 && !s.ring.cycle
  }

  lemma FillOneMore(s: System, cmd: Trb, size: nat, count: nat)
    requires FilledBy(s, size, count) && count < size - 1 && !IsLink(cmd)
    ensures FilledBy(PushInOneGo(s, cmd), size, count + 1)
  {
    ReachablePush(s, cmd);
  }

  lemma {:induction false} FillingUp(s: System, cmds: seq<Trb>)
    requires Fresh(s) && |cmds| < |s.ring.slots| && NoLinks(cmds)
    ensures FilledBy(PushAll(s, cmds), |s.ring.slots|, |cmds|)
    decreases |cmds|
  {
    if cmds == [] {
      assert LeadsTo([s], [], s);
      FreshIsHonest(s);
    } else {
      FillingUp(s, cmds[..|cmds| - 1]);
      FillOneMore(PushAll(s, cmds[..|cmds| - 1]), cmds[|cmds| - 1], |s.ring.slots|, |cmds| - 1);
    }
  }

  /** On a ring of any length: as many pushes as there are data slots, without a fetch, lead to a state of a run in
      which the controller could take the oldest command, and one push more destroys it. */
  lemma FullRingLosesOldest(s: System, cmds: seq<Trb>, next: Trb)
    requires Fresh(s) && |cmds| == |s.ring.slots| - 1 && NoLinks(cmds) && !IsLink(next)
    ensures var s1 := PushAll(s, cmds);
      && Reachable(s1) && |s1.pushed| == |cmds| && CanFetch(s1) && !RoomForPush(s1)
      && var s2 := PushInOneGo(s1, next);
         !CanFetch(s2) && s2.fetched == [] && s2.ring.slots[0] == WithCycle(next, false)
  {
    FillingUp(s, cmds);
    var s1 := PushAll(s, cmds);
    PushKeepsDeliveryExactlyWithRoom(s1, next);
    FullFrontSlot(s1, next);
  }

  lemma FullFrontSlot(s: System, next: Trb)
    requires Inv(s) && s.writer.Idle? && !IsLink(next) && !s.ring.cycle && s.ring.writeIndex == 0
    requires s.consumerCycle && s.dequeue == 0
    ensures CanFetch(s) && PushInOneGo(s, next).ring.slots[0] == WithCycle(next, false)
  {}
}
