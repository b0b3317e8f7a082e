/** The event ring with both parties: the controller produces (section 4.9.4 of the xHCI specification),
    waiters and the dispatcher take. */
module EventProtocol {
  import opened Basics
  import opened Arithmetic
  import opened Sequences
  import opened Trbs
  import opened EventRings

  datatype System = System(
    driver: Consumer,
    enqueue: nat,
    producerCycle: bool,
    produced: seq<Trb>,           // history: every event TRB the controller ever wrote
    delivered: multiset<Event>,   // history: events handed to a waiter
    dispatched: multiset<Event>)  // history: events handed to the dispatcher

  datatype Step =
    | Produce(trb: Trb)           // the controller writes an event
    | PollWaiter(wait: Wait)      // a future is polled
    | ProcessOnceReceived         // the dispatcher takes from the stash
    | ProcessEvent                // the dispatcher takes from the ring
    | Requeue(event: Event)       // a handler puts the event it was given back

  /** The controller writes only slots whose event has been popped; handlers put back only what they got. */
  predicate Enabled(s: System, step: Step)
  {
    && WellFormed(s.driver)
    && match step
       case Produce(_) => s.enqueue < |s.driver.slots| && |s.produced| < s.driver.nPop + |s.driver.slots|
       case PollWaiter(_) => true
       case ProcessOnceReceived => s.driver.stash != []
       case ProcessEvent => HasFront(s.driver)
       case Requeue(e) => e in s.dispatched
  }

  function Next(s: System, step: Step): System
    requires Enabled(s, step)
  {
    var c := s.driver;
    match step
    case Produce(t) =>
      var t' := WithCycle(t, s.producerCycle);
      var s' := s.(driver := c.(slots := c.slots[s.enqueue := t']), produced := s.produced + [t']);
      if s.enqueue + 1 == |c.slots| then s'.(enqueue := 0, producerCycle := !s.producerCycle)
      else s'.(enqueue := s.enqueue + 1)
    case PollWaiter(wait) =>
      var (c', r) := AfterPoll(c, wait);
      s.(driver := c', delivered := if r.Ready? then s.delivered + multiset{r.event} else s.delivered)
    case ProcessOnceReceived =>
      var e := c.stash[|c.stash| - 1];
      s.(driver := c.(stash := c.stash[..|c.stash| - 1]), dispatched := s.dispatched + multiset{e})
    case ProcessEvent =>
      var s' := s.(driver := AfterPop(c));
      (match Decode(Front(c))
       case Some(e) => s'.(dispatched := s.dispatched + multiset{e})
       case None => s')
    case Requeue(e) =>
      s.(driver := c.(stash := c.stash + [e]), dispatched := s.dispatched - multiset{e})
  }

  /** The step panics: the dispatcher has no handler for an event it cannot decode, and a waiter on no TRB at all
      unwraps nothing. */
  predicate Panics(s: System, step: Step)
    requires Enabled(s, step)
  {
    match step
    case PollWaiter(wait) => AfterPoll(s.driver, wait).1.Panicked?
    case ProcessEvent => Decode(Front(s.driver)).None?
    case _ => false
  }

  /** Nothing happens after a panic. */
  ghost predicate IsRun(run: seq<System>, steps: seq<Step>) {
    && |run| == |steps| + 1
    && forall k :: 0 <= k < |steps| ==>
      Enabled(run[k], steps[k]) && !Panics(run[k], steps[k]) && run[k + 1] == Next(run[k], steps[k])
  }

  predicate Fresh(s: System) {
    && |s.driver.slots| >= 1
    && s.driver == Consumer(seq(|s.driver.slots|, _ => EMPTY_SLOT), 0, true, 0, [])
    && s.enqueue == 0 && s.producerCycle
    && s.produced == [] && s.delivered == multiset{} && s.dispatched == multiset{}
  }

  predicate Positions(s: System) {
    var n := |s.driver.slots|;
    && WellFormed(s.driver) && n >= 1 && s.enqueue < n
    && (if s.driver.cycle == s.producerCycle then s.driver.dequeue <= s.enqueue else s.enqueue <= s.driver.dequeue)
  }

  /** Events written and not yet popped. */
  function Unread(s: System): seq<Trb>
    requires Positions(s)
  {
    var d := s.driver.dequeue;
    if s.driver.cycle == s.producerCycle then s.driver.slots[d..s.enqueue]
    else s.driver.slots[d..] + s.driver.slots[..s.enqueue]
  }

  predicate Queue(s: System) {
    && Positions(s)
    && (forall i :: 0 <= i < s.enqueue ==> CycleBit(s.driver.slots[i]) == s.producerCycle)
    && (forall i :: s.enqueue <= i < |s.driver.slots| ==> CycleBit(s.driver.slots[i]) == !s.producerCycle)
    && s.driver.nPop <= |s.produced|
    && s.produced[s.driver.nPop..] == Unread(s)
  }

  /** The dequeue index and the cycle bit are functions of the number of pops. */
  predicate Clocked(s: System) {
    var n := |s.driver.slots|;
    && WellFormed(s.driver) && n >= 1
    && s.driver.dequeue == s.driver.nPop % n
    && s.driver.cycle == Even(s.driver.nPop / n)
  }

  function Decodable(ts: seq<Trb>): multiset<Event> {
    if ts == [] then multiset{}
    else
      Decodable(ts[..|ts| - 1]) + match Decode(ts[|ts| - 1])
                                  case Some(e) => multiset{e}
                                  case None => multiset{}
  }

  /** Nothing taken from the ring is lost or doubled. */
  predicate Conserved(s: System) {
    && s.driver.nPop <= |s.produced|
    && Decodable(s.produced[..s.driver.nPop]) == s.delivered + s.dispatched + multiset(s.driver.stash)
  }

  predicate Inv(s: System) {
    Queue(s) && Clocked(s) && Conserved(s)
  }

  lemma GuardIsExact(s: System)
    requires Queue(s)
    ensures HasFront(s.driver) <==> s.driver.nPop < |s.produced|
    ensures HasFront(s.driver) ==> Front(s.driver) == s.produced[s.driver.nPop]
  {}

  /** Writing behind the unread events: on the reader's lap, at the end of it, or a lap ahead. */
  lemma WrittenBehind<T>(slots: seq<T>, d: nat, e: nat, t: T)
    requires d < |slots| && e < |slots|
    ensures d <= e ==> slots[e := t][d..e + 1] == slots[d..e] + [t]
    ensures d <= e == |slots| - 1 ==> slots[e := t][d..] + slots[e := t][..0] == slots[d..e] + [t]
    ensures e < d ==> slots[e := t][d..] + slots[e := t][..e + 1] == slots[d..] + slots[..e] + [t]
  {}

  lemma ProduceAppends(s: System, t: Trb)
    requires Queue(s) && Enabled(s, Produce(t))
    ensures Positions(Next(s, Produce(t)))
    ensures Unread(Next(s, Produce(t))) == Unread(s) + [WithCycle(t, s.producerCycle)]
  {
    WrittenBehind(s.driver.slots, s.driver.dequeue, s.enqueue, WithCycle(t, s.producerCycle));
  }

  lemma ProduceKeeps(s: System, t: Trb)
    requires Inv(s) && Enabled(s, Produce(t))
    ensures Inv(Next(s, Produce(t)))
  {
    var t', n := WithCycle(t, s.producerCycle), s.driver.nPop;
    ProduceAppends(s, t);
    assert (s.produced + [t'])[..n] == s.produced[..n];
    assert (s.produced + [t'])[n..] == s.produced[n..] + [t'];
  }

  lemma PopKeepsPositions(s: System)
    requires Queue(s) && HasFront(s.driver)
    ensures Positions(s.(driver := AfterPop(s.driver)))
  {}

  lemma PopTakesOldest(s: System)
    requires Positions(s) && Positions(s.(driver := AfterPop(s.driver)))
    requires s.driver.cycle == s.producerCycle ==> s.driver.dequeue < s.enqueue
    ensures Unread(s) == [Front(s.driver)] + Unread(s.(driver := AfterPop(s.driver)))
  {}

  lemma PopKeepsClock(s: System)
    requires Clocked(s)
    ensures Clocked(s.(driver := AfterPop(s.driver)))
  {
    DivModSucc(s.driver.nPop, |s.driver.slots|);
  }

  /** A guarded pop: the ring part of every step that takes an event. */
  lemma PopKeeps(s: System)
    requires Queue(s) && Clocked(s) && HasFront(s.driver)
    ensures var s' := s.(driver := AfterPop(s.driver));
      Queue(s') && Clocked(s') && s'.produced[..s'.driver.nPop] == s.produced[..s.driver.nPop] + [Front(s.driver)]
  {
    var s' := s.(driver := AfterPop(s.driver));
    GuardIsExact(s);
    PopKeepsPositions(s);
    PopTakesOldest(s);
    PrefixGrows(s.produced, s.driver.nPop);
    ConsInjective(s.produced[s.driver.nPop], s.produced[s.driver.nPop + 1..], Front(s.driver), Unread(s'));
    PopKeepsClock(s);
  }

  lemma PopConserves(s: System, s': System)
    requires Inv(s) && HasFront(s.driver)
    requires s'.produced == s.produced && s'.driver.nPop == s.driver.nPop + 1 <= |s.produced|
    requires s.produced[..s'.driver.nPop] == s.produced[..s.driver.nPop] + [Front(s.driver)]
    requires s'.delivered + s'.dispatched + multiset(s'.driver.stash) ==
      s.delivered + s.dispatched + multiset(s.driver.stash) +
      match Decode(Front(s.driver)) case Some(e) => multiset{e} case None => multiset{}
    ensures Conserved(s')
  {}

  /** Stash and delivery histories play no part in the ring. */
  lemma HistoriesAreNotRing(s: System, s': System)
    requires Queue(s) && Clocked(s)
    requires s' ==
      s.(driver := s.driver.(stash := s'.driver.stash), delivered := s'.delivered, dispatched := s'.dispatched)
    ensures Queue(s') && Clocked(s')
  {}

  /** A step that takes an event pops it and accounts for it, whichever way it is taken. */
  lemma TakeAccounts(s: System, step: Step)
    requires Enabled(s, step) && HasFront(s.driver) && (step.PollWaiter? || step.ProcessEvent?)
    ensures var s', c := Next(s, step), AfterPop(s.driver);
      && s' == s.(driver := c.(stash := s'.driver.stash), delivered := s'.delivered, dispatched := s'.dispatched)
      && s'.delivered + s'.dispatched + multiset(s'.driver.stash) ==
         s.delivered + s.dispatched + multiset(s.driver.stash) +
         match Decode(Front(s.driver)) case Some(e) => multiset{e} case None => multiset{}
  {}

  lemma TakeKeeps(s: System, step: Step)
    requires Inv(s) && Enabled(s, step) && HasFront(s.driver) && (step.PollWaiter? || step.ProcessEvent?)
    ensures Inv(Next(s, step))
  {
    PopKeeps(s);
    GuardIsExact(s);
    TakeAccounts(s, step);
    HistoriesAreNotRing(s.(driver := AfterPop(s.driver)), Next(s, step));
    PopConserves(s, Next(s, step));
  }

  lemma StepKeeps(s: System, step: Step)
    requires Inv(s) && Enabled(s, step)
    ensures Inv(Next(s, step))
  {
    match step
    case Produce(t) => ProduceKeeps(s, t);
    case ProcessOnceReceived =>
      HistoriesAreNotRing(s, Next(s, step));
      var stash := s.driver.stash;
      assert stash == stash[..|stash| - 1] + [stash[|stash| - 1]];
    case Requeue(_) => HistoriesAreNotRing(s, Next(s, step));
    case _ =>
      if HasFront(s.driver) {
        TakeKeeps(s, step);
      }
  }

  lemma {:induction false} RunKeeps(run: seq<System>, steps: seq<Step>, k: nat)
    requires IsRun(run, steps) && Fresh(run[0]) && k < |run|
    ensures Inv(run[k])
    decreases k
  {
    if k == 0 {
      DivModUnique(0, |run[0].driver.slots|, 0, 0);
    } else {
      RunKeeps(run, steps, k - 1);
      assert run[k - 1 + 1] == Next(run[k - 1], steps[k - 1]);
      StepKeeps(run[k - 1], steps[k - 1]);
    }
  }

  /** In every reachable state the driver's guard is exact and a guarded pop reads the nPop-th event ever
      produced; index and cycle bit follow the number of pops. */
  lemma ConsumerRefinesQueue(run: seq<System>, steps: seq<Step>, k: nat)
    requires IsRun(run, steps) && Fresh(run[0]) && k < |run|
    ensures var c, n := run[k].driver, |run[k].driver.slots|;
      && WellFormed(c) && n >= 1
      && c.dequeue == c.nPop % n && c.cycle == Even(c.nPop / n)
      && (HasFront(c) <==> c.nPop < |run[k].produced|)
      && (HasFront(c) ==> Front(c) == run[k].produced[c.nPop])
  {
    RunKeeps(run, steps, k);
    GuardIsExact(run[k]);
  }

  /** Every decodable event popped so far was delivered to a waiter, dispatched, or is still stashed. */
  lemma EventsConserved(run: seq<System>, steps: seq<Step>, k: nat)
    requires IsRun(run, steps) && Fresh(run[0]) && k < |run|
    ensures Conserved(run[k])
  {
    RunKeeps(run, steps, k);
  }

  /** A waiter only ever gets an event matching its key, and only the oldest unread one. */
  lemma WaiterGetsOnlyItsKey(run: seq<System>, steps: seq<Step>, k: nat, wait: Wait)
    requires IsRun(run, steps) && Fresh(run[0]) && k < |run|
    ensures WellFormed(run[k].driver)
    ensures var s := run[k]; var (_, r) := AfterPoll(s.driver, wait);
      if s.driver.nPop >= |s.produced| then r.Pending?
      else match Decode(s.produced[s.driver.nPop])
           case Some(e) => r == if Wanted(wait, e) then Ready(e) else Pending
           case None => r == if wait == OnTrbs([]) then Panicked else Pending
  {
    RunKeeps(run, steps, k);
    GuardIsExact(run[k]);
  }

  /** The controller may write as long as fewer events are unread than there are slots. */
  lemma ProducesWhileRoom(s: System, t: Trb)
    requires Queue(s)
    ensures Enabled(s, Produce(t)) <==> |s.produced| - s.driver.nPop < |s.driver.slots|
  {}

  /** The dispatcher takes the last stashed event, or the oldest unread one, and may put back what it was given. */
  lemma DispatchExactly(s: System, step: Step)
    requires Enabled(s, step) && !step.Produce? && !step.PollWaiter?
    ensures var s', stash := Next(s, step), s.driver.stash;
      && s'.produced == s.produced && s'.delivered == s.delivered && s'.driver.slots == s.driver.slots
      && match step
         case ProcessOnceReceived =>
           && stash == s'.driver.stash + [stash[|stash| - 1]] && s'.driver.nPop == s.driver.nPop
           && s'.dispatched == s.dispatched + multiset{stash[|stash| - 1]}
         case ProcessEvent =>
           && s'.driver == AfterPop(s.driver)
           && s'.dispatched == s.dispatched + (match Decode(Front(s.driver))
                                               case Some(e) => multiset{e}
                                               case None => multiset{})
         case Requeue(e) =>
           && e in s.dispatched && s.dispatched == s'.dispatched + multiset{e}
           && s'.driver == s.driver.(stash := stash + [e])
  {}

  /** What the oldest unread TRB must hold for a waiter. */
  predicate Answers(t: Trb, wait: Wait) {
    match wait
    case OnSlot(slotId) => t.control.trbType == 32 && t.control.upper / 256 == slotId
    case OnTrb(ptr) => t.control.trbType == 32 && t.w0 as int + 0x1_0000_0000 * t.w1 as int == ptr
    case OnTrbs(ptrs) => t.control.trbType == 32 && t.w0 as int + 0x1_0000_0000 * t.w1 as int in ptrs
    case OnCommand(ptr) => t.control.trbType == 33 && t.w0 as int + 0x1_0000_0000 * t.w1 as int == ptr
  }

  /** The event handed to a waiter carries the values of the TRB. */
  predicate Carries(e: Event, t: Trb) {
    && e.raw == t
    && match e
       case TransferEvent(slotId, ptr, _) =>
         slotId == t.control.upper / 256 && ptr == t.w0 as int + 0x1_0000_0000 * t.w1 as int
       case CommandCompletion(ptr, _) => ptr == t.w0 as int + 0x1_0000_0000 * t.w1 as int
       case _ => false
  }

  /** In every reachable state, read off the fields of the oldest unread TRB: a waiter on a slot or on pointers is ready
      exactly for a transfer event (type 32) of that slot or pointer, one on a command exactly for a command completion
      (type 33) of that pointer. The event handed over carries the TRB's values; any other event (types 32 to 39) is
      stashed as it is, and anything else is dropped. */
  lemma WaiterReadsItsTrb(run: seq<System>, steps: seq<Step>, k: nat, wait: Wait)
    requires IsRun(run, steps) && Fresh(run[0]) && k < |run| && run[k].driver.nPop < |run[k].produced|
    ensures WellFormed(run[k].driver)
    ensures var s := run[k]; var t := s.produced[s.driver.nPop]; var (c, r) := AfterPoll(s.driver, wait);
      && (r.Ready? <==> Answers(t, wait))
      && (r.Ready? ==> c.stash == s.driver.stash && Carries(r.event, t))
      && (!r.Ready? && 32 <= t.control.trbType <= 39 ==>
           && |c.stash| == |s.driver.stash| + 1 && c.stash[..|s.driver.stash|] == s.driver.stash
           && c.stash[|s.driver.stash|].raw == t)
      && (!r.Ready? && !(32 <= t.control.trbType <= 39) ==> c.stash == s.driver.stash)
      && c.nPop == s.driver.nPop + 1
  {
    RunKeeps(run, steps, k);
    GuardIsExact(run[k]);
    DecodeReads(run[k].produced[run[k].driver.nPop]);
  }

  /** Every event written is the controller's own TRB with the producer's cycle bit. */
  lemma ProducesAsAsked(s: System, t: Trb)
    requires Queue(s) && Enabled(s, Produce(t))
    ensures var s' := Next(s, Produce(t));
      && |s'.produced| == |s.produced| + 1 && s'.produced[..|s.produced|] == s.produced
      && SameButCycle(s'.produced[|s.produced|], t)
      && s'.driver == s.driver.(slots := s.driver.slots[s.enqueue := s'.produced[|s.produced|]])
  {}

  /** In every reachable state a step panics if and only if the oldest unread event cannot be decoded and the step is
      the dispatcher's or that of a waiter on no TRB. */
  lemma PanicsExactly(run: seq<System>, steps: seq<Step>, k: nat, step: Step)
    requires IsRun(run, steps) && Fresh(run[0]) && k < |run| && Enabled(run[k], step)
    ensures Panics(run[k], step) <==>
      && run[k].driver.nPop < |run[k].produced|
      && !(32 <= run[k].produced[run[k].driver.nPop].control.trbType <= 39)
      && (step.ProcessEvent? || step == PollWaiter(OnTrbs([])))
  {
    RunKeeps(run, steps, k);
    GuardIsExact(run[k]);
    if step.PollWaiter? {
      WaiterGetsOnlyItsKey(run, steps, k, step.wait);
    }
  }
}
