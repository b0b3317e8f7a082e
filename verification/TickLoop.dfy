/** The loop in which a driver ticks its devices until all of them run (kernel/src/usb/class_driver.rs:105-132,
    kernel/src/usb/class_driver/hub.rs:38-64), for any kind of device. */
module TickLoops {
  import opened Basics
  import opened Arithmetic
  import opened Hubs

  /** State machines are run when the millisecond counter reaches a multiple of this. */
  const PERIOD := 1_000_000

  /** One call of a state machine: the device, the time, its index and the number of the round. */
  type Caller<!D> = (D, nat, nat, nat) -> (D, Result)

  datatype Pass<D> = Pass(devices: seq<Option<D>>, millis: nat, result: Result)

  /** `round` rounds have begun by this time. */
  predicate InPeriod(millis: nat, round: nat) {
    round * PERIOD <= millis < (round + 1) * PERIOD
  }

  /** The counter goes on; a round is due when it reaches a multiple of the period. */
  method CountOn(millis: nat, ghost round: nat) returns (millis': nat, due: bool)
    requires InPeriod(millis, round)
    ensures millis' == millis + 1 && (due <==> millis' % 1_000_000 == 0)
    ensures if due then millis' == (round + 1) * PERIOD else InPeriod(millis', round)
  {
    millis' := millis + 1;
    due := millis' % PERIOD == 0;
    NextMilli(millis, round, PERIOD);
  }

  lemma NextMilli(millis: nat, round: nat, period: nat)
    requires period >= 1 && round * period <= millis < (round + 1) * period
    ensures (millis + 1) % period == 0 <==> millis + 1 == (round + 1) * period
  {
    var rest := millis + 1 - round * period;
    if rest == period {
      DivModUnique(millis + 1, period, round + 1, 0);
    } else {
      DivModUnique(millis + 1, period, round, rest);
    }
  }

  /** Only these end the loop; a retry does not. */
  predicate Final(r: Result) {
    r.GiveUp? || r.Panicked?
  }

  predicate Idle<D>(d: Option<D>, runs: D -> bool) {
    d.Some? ==> runs(d.value)
  }

  predicate AllIdle<D>(ds: seq<Option<D>>, runs: D -> bool) {
    forall i :: 0 <= i < |ds| ==> Idle(ds[i], runs)
  }

  /** Round number `round` after its first `i` devices. */
  function PassUpTo<D>(ds: seq<Option<D>>, runs: D -> bool, call: Caller<D>, round: nat, i: nat): (p: Pass<D>)
    requires i <= |ds|
    ensures |p.devices| == |ds| && (p.result.Fine? || Final(p.result))
    ensures (round + 1) * PERIOD <= p.millis <= (round + 1) * PERIOD + i
  {
    if i == 0 then Pass(ds, (round + 1) * PERIOD, Fine)
    else
      var p := PassUpTo(ds, runs, call, round, i - 1);
      if !p.result.Fine? || Idle(ds[i - 1], runs) then p
      else
        var (d, r) := call(ds[i - 1].value, p.millis, i - 1, round);
        var devices := p.devices[i - 1 := Some(d)];
        if Final(r) then Pass(devices, p.millis, r) else Pass(devices, p.millis + 1, Fine)
  }

  predicate Ended<D>(p: Pass<D>, runs: D -> bool) {
    !p.result.Fine? || AllIdle(p.devices, runs)
  }

  /** The driver after at most `n` rounds: rounds stop once the loop has ended. */
  function After<D>(ds: seq<Option<D>>, runs: D -> bool, call: Caller<D>, n: nat): (p: Pass<D>)
    ensures |p.devices| == |ds| && (p.result.Fine? || Final(p.result))
  {
    if n == 0 then Pass(ds, 0, Fine)
    else
      var p := After(ds, runs, call, n - 1);
      if Ended(p, runs) then p else PassUpTo(p.devices, runs, call, n - 1, |ds|)
  }

  /** What a pass does to device `j`: nothing if it is idle, else one call at time `millis`. */
  ghost predicate Called<D>(
    d: Option<D>, d': Option<D>, runs: D -> bool, call: Caller<D>, millis: nat, j: nat, round: nat)
  {
    if Idle(d, runs) then d' == d
    else d.Some? && var (e, r) := call(d.value, millis, j, round); d' == Some(e) && !Final(r)
  }

  /** The time at which a pass comes to device `j`. */
  function TimeOf<D>(ds: seq<Option<D>>, runs: D -> bool, call: Caller<D>, round: nat, j: nat): (t: nat)
    requires j < |ds|
    ensures (round + 1) * PERIOD <= t <= (round + 1) * PERIOD + j
  {
    PassUpTo(ds, runs, call, round, j).millis
  }

  /** One device of a pass that goes well. */
  lemma FineDevice<D>(ds: seq<Option<D>>, runs: D -> bool, call: Caller<D>, round: nat, i: nat)
    requires i < |ds| && PassUpTo(ds, runs, call, round, i + 1).result.Fine?
    requires PassUpTo(ds, runs, call, round, i).devices[i] == ds[i]
    ensures var p, p' := PassUpTo(ds, runs, call, round, i), PassUpTo(ds, runs, call, round, i + 1);
      && p.result.Fine? && p'.devices == p.devices[i := p'.devices[i]]
      && Called(ds[i], p'.devices[i], runs, call, TimeOf(ds, runs, call, round, i), i, round)
  {}

  lemma {:induction false} Untouched<D>(
    ds: seq<Option<D>>, runs: D -> bool, call: Caller<D>, round: nat, i: nat, j: nat)
    requires i <= j < |ds|
    ensures PassUpTo(ds, runs, call, round, i).devices[j] == ds[j]
    decreases i
  {
    if i > 0 {
      Untouched(ds, runs, call, round, i - 1, j);
    }
  }

  /** The first `i` devices have been called as `Called` says. */
  ghost predicate AllCalled<D>(
    ds: seq<Option<D>>, ds': seq<Option<D>>, runs: D -> bool, call: Caller<D>, round: nat, i: nat)
    requires i <= |ds| == |ds'|
  {
    forall j :: 0 <= j < i ==> Called(ds[j], ds'[j], runs, call, TimeOf(ds, runs, call, round, j), j, round)
  }

  lemma OneMoreCalled<D>(ds: seq<Option<D>>, ds': seq<Option<D>>, d: Option<D>, runs: D -> bool, call: Caller<D>,
                         round: nat, i: nat)
    requires i < |ds| == |ds'| && AllCalled(ds, ds', runs, call, round, i)
    requires Called(ds[i], d, runs, call, TimeOf(ds, runs, call, round, i), i, round)
    ensures AllCalled(ds, ds'[i := d], runs, call, round, i + 1)
  {
    var e := ds'[i := d];
    forall j | 0 <= j < i + 1
      ensures Called(ds[j], e[j], runs, call, TimeOf(ds, runs, call, round, j), j, round)
    {
      assert j < i ==> e[j] == ds'[j];
    }
  }

  /** A pass that ends well has called every device that was not idle, once, and none of the calls was final. */
  lemma {:induction false} FinePass<D>(ds: seq<Option<D>>, runs: D -> bool, call: Caller<D>, round: nat, i: nat)
    requires i <= |ds| && PassUpTo(ds, runs, call, round, i).result.Fine?
    ensures AllCalled(ds, PassUpTo(ds, runs, call, round, i).devices, runs, call, round, i)
    decreases i
  {
    if i > 0 {
      Untouched(ds, runs, call, round, i - 1, i - 1);
      FineDevice(ds, runs, call, round, i - 1);
      FinePass(ds, runs, call, round, i - 1);
      OneMoreCalled(ds, PassUpTo(ds, runs, call, round, i - 1).devices,
                    PassUpTo(ds, runs, call, round, i).devices[i - 1], runs, call, round, i - 1);
    }
  }

  /** A device whose call was final. */
  predicate FinalCall<D>(ds: seq<Option<D>>, runs: D -> bool, call: Caller<D>, round: nat, j: nat) {
    && j < |ds| && !Idle(ds[j], runs)
    && Final(call(ds[j].value, TimeOf(ds, runs, call, round, j), j, round).1)
  }

  lemma {:induction false} FailedPass<D>(ds: seq<Option<D>>, runs: D -> bool, call: Caller<D>, round: nat, i: nat)
    returns (j: nat)
    requires i <= |ds| && !PassUpTo(ds, runs, call, round, i).result.Fine?
    ensures FinalCall(ds, runs, call, round, j)
    ensures var p := PassUpTo(ds, runs, call, round, i);
      && p.result == call(ds[j].value, TimeOf(ds, runs, call, round, j), j, round).1
      && p.devices[j] == Some(call(ds[j].value, TimeOf(ds, runs, call, round, j), j, round).0)
    decreases i
  {
    if PassUpTo(ds, runs, call, round, i - 1).result.Fine? {
      j := i - 1;
    } else {
      j := FailedPass(ds, runs, call, round, i - 1);
    }
  }

  /** The next device of a pass. */
  lemma NextDevice<D>(ds: seq<Option<D>>, runs: D -> bool, call: Caller<D>, round: nat, i: nat, p: Pass<D>)
    requires i < |ds| && p == PassUpTo(ds, runs, call, round, i) && p.result.Fine?
    ensures PassUpTo(ds, runs, call, round, i + 1) ==
      if Idle(ds[i], runs) then p
      else
        var (d, r) := call(ds[i].value, p.millis, i, round);
        Pass(p.devices[i := Some(d)], if Final(r) then p.millis else p.millis + 1, if Final(r) then r else Fine)
  {}

  /** After a final call the pass goes no further. */
  lemma {:induction false} FailedStays<D>(
    ds: seq<Option<D>>, runs: D -> bool, call: Caller<D>, round: nat, i: nat, n: nat)
    requires i <= n <= |ds| && !PassUpTo(ds, runs, call, round, i).result.Fine?
    ensures PassUpTo(ds, runs, call, round, n) == PassUpTo(ds, runs, call, round, i)
    decreases n
  {
    if i < n {
      FailedStays(ds, runs, call, round, i, n - 1);
    }
  }

  /** The loop stays as it ended. */
  lemma {:induction false} EndedStays<D>(ds: seq<Option<D>>, runs: D -> bool, call: Caller<D>, m: nat, n: nat)
    requires m <= n && Ended(After(ds, runs, call, m), runs)
    ensures After(ds, runs, call, n) == After(ds, runs, call, m)
    decreases n
  {
    if m < n {
      EndedStays(ds, runs, call, m, n - 1);
    }
  }

  /** A round of a loop that will have ended after `n` rounds and has not after `m`. */
  lemma RoundTaken<D>(ds: seq<Option<D>>, runs: D -> bool, call: Caller<D>, m: nat, n: nat, before: seq<Option<D>>,
                      p: Pass<D>)
    requires m <= n && Ended(After(ds, runs, call, n), runs) && |ds| < PERIOD
    requires After(ds, runs, call, m).result.Fine? && before == After(ds, runs, call, m).devices
    requires !AllIdle(before, runs) && p == PassUpTo(before, runs, call, m, |before|)
    ensures m < n && p == After(ds, runs, call, m + 1) && InPeriod(p.millis, m + 1)
    ensures !p.result.Fine? ==> After(ds, runs, call, n) == p
  {
    assert !Ended(After(ds, runs, call, m), runs);
    assert After(ds, runs, call, m + 1) == p;
    if !p.result.Fine? {
      EndedStays(ds, runs, call, m + 1, n);
    }
  }
}
