/** Input devices and the loop that ticks them until every one runs (kernel/src/usb/class_driver.rs:105-132 and
    300-490). */
module BringUp {
  import opened Basics
  import opened Hubs
  import Chains
  import opened TickLoops
  import opened Descriptors

  const DEVICE_DESCRIPTOR_LEN := 18

  datatype DeviceState =
    | Addressed | WaitForSettle(until: nat) | GetConfig | SetConfig(index: nat) | SetProtocol | SetIdle | Running

  datatype InEndpoint = InEndpoint(interfaceNumber: Byte, descriptor: Descriptor)

  /** An input device; `endpoint` is `endpoints[0]`. */
  datatype Input = Input(state: DeviceState, endpoint: Option<InEndpoint>)

  /** How the host would answer each request of one call: for the device descriptor, for the configuration descriptor
      and the whole configuration, and for a request without data or an interrupt transfer. */
  datatype Answers = Answers(device: Reply, header: Reply, config: Reply, plain: Reply)

  function InputFsm(kind: Kind, d: Input, millis: nat, settleDelay: nat, a: Answers): (Input, Result) {
    match d.state
    case Addressed => (d.(state := WaitForSettle(millis + settleDelay)), Fine)
    case WaitForSettle(until) =>
      if millis <= until then (d, Fine)
      else if !IsOk(a.device) then (d, ErrorOf(a.device))
      else if |a.device.data| != DEVICE_DESCRIPTOR_LEN then (d, Panicked)
      else (d.(state := DeviceState.GetConfig), Fine)
    case GetConfig =>
      (match ReadConfig(a.header, a.config)
       case Stop(why) => (d, why)
       case Bytes(buf) =>
         match ChooseFromBytes(kind, buf, None)
         case Found(number, ep) => (Input(DeviceState.SetConfig(1), Some(InEndpoint(number, ep))), Fine)
         case _ => (d, Panicked))
    case SetConfig(_) => if IsOk(a.plain) then (d.(state := SetProtocol), Fine) else (d, ErrorOf(a.plain))
    case SetProtocol =>
      if d.endpoint.None? then (d, GiveUp)
      else if IsOk(a.plain) then (d.(state := SetIdle), Fine)
      else (d, ErrorOf(a.plain))
    case SetIdle => if IsOk(a.plain) then (d.(state := DeviceState.Running), Fine) else (d, ErrorOf(a.plain))
    case Running => (d, if d.endpoint.None? || a.plain.Permanent? then GiveUp else Fine)
  }

  /** Calls still needed. */
  function Rank(d: Input): nat {
    match d.state
    case Addressed => 6
    case WaitForSettle(_) => 5
    case GetConfig => 4
    case SetConfig(_) => 3
    case SetProtocol => 2
    case SetIdle => 1
    case Running => 0
  }

  /** From `SetConfig` on the endpoint is there, and it is one the driver is for. */
  predicate EndpointKnown(kind: Kind, d: Input) {
    Rank(d) <= 3 ==> d.endpoint.Some? && WantedEndpoint(kind, d.endpoint.value.descriptor)
  }

  predicate SettlesBefore(d: Input, time: nat) {
    d.state.WaitForSettle? ==> d.state.until < time
  }

  /** The answer takes a device with `rank` calls to go one call further. */
  predicate Serves(kind: Kind, rank: nat, a: Answers) {
    match rank
    case 0 => false
    case 4 =>
      (match ReadConfig(a.header, a.config)
       case Bytes(buf) => ChooseFromBytes(kind, buf, None).Found?
       case Stop(_) => false)
    case 5 => a.device.Ok? && |a.device.data| == DEVICE_DESCRIPTOR_LEN
    case 6 => true
    case _ => rank < 4 && a.plain.Ok?
  }

  /** The answer ends the loop at a device with `rank` calls to go: a refusal, a transfer of the wrong length, or a
      configuration in which the search finds no endpoint. */
  predicate Stops(kind: Kind, rank: nat, a: Answers) {
    match rank
    case 0 => false
    case 4 =>
      (match ReadConfig(a.header, a.config)
       case Bytes(buf) => !ChooseFromBytes(kind, buf, None).Found?
       case Stop(why) => Final(why))
    case 5 => a.device.Permanent? || (a.device.Ok? && |a.device.data| != DEVICE_DESCRIPTOR_LEN)
    case 6 => false
    case _ => rank < 4 && a.plain.Permanent?
  }

  /** A call on a settled device gains exactly one rank if the answer serves it, ends the loop if the answer stops it,
      and otherwise changes nothing. */
  lemma CallExactly(kind: Kind, d: Input, millis: nat, settleDelay: nat, a: Answers)
    requires !d.state.Running? && EndpointKnown(kind, d) && SettlesBefore(d, millis)
    ensures var (d', r) := InputFsm(kind, d, millis, settleDelay, a);
      && (Serves(kind, Rank(d), a) <==> r.Fine?)
      && (Stops(kind, Rank(d), a) <==> Final(r))
      && if r.Fine?
         then Rank(d') == Rank(d) - 1 && EndpointKnown(kind, d') && SettlesBefore(d', millis + settleDelay + 1)
         else d' == d
  {
    if ReadConfig(a.header, a.config).Bytes? {
      FoundIsWanted(kind, ReadConfig(a.header, a.config).buf, None);
    }
  }

  // The steps, byte by byte

  /** What a call does in each state when it is answered as it should be. */
  lemma StepReads(kind: Kind, d: Input, millis: nat, settleDelay: nat, a: Answers)
    ensures var (d', r) := InputFsm(kind, d, millis, settleDelay, a);
      match d.state
      case Addressed => d' == Input(WaitForSettle(millis + settleDelay), d.endpoint) && r == Fine
      case WaitForSettle(until) =>
        && (millis <= until ==> d' == d && r == Fine)
        && (millis > until && a.device.Ok? && |a.device.data| == 18 ==>
             d' == Input(DeviceState.GetConfig, d.endpoint) && r == Fine)
        && (millis > until && a.device.Ok? && |a.device.data| != 18 ==> d' == d && r == Panicked)
        && (millis > until && a.device.Retry? ==> d' == d && r == TryLater)
        && (millis > until && a.device.Permanent? ==> d' == d && r == GiveUp)
      case GetConfig => true
      case SetConfig(_) => PlainStep(d, a, SetProtocol, d', r)
      case SetProtocol => if d.endpoint.Some? then PlainStep(d, a, SetIdle, d', r) else d' == d && r == GiveUp
      case SetIdle => PlainStep(d, a, DeviceState.Running, d', r)
      case Running => d' == d && (r == GiveUp <==> d.endpoint.None? || a.plain.Permanent?) && (r == GiveUp || r == Fine)
  {}

  predicate PlainStep(d: Input, a: Answers, next: DeviceState, d': Input, r: Result) {
    match a.plain
    case Ok(_) => d' == Input(next, d.endpoint) && r == Fine
    case Retry => d' == d && r == TryLater
    case Permanent => d' == d && r == GiveUp
  }

  /** The answers hold an encoded configuration descriptor and the encoded descriptors it announces. */
  ghost predicate WellAnswered(a: Answers, d: Descriptor, raws: seq<seq<Byte>>) {
    && AllWellFormed(raws) && d.Configuration? && d.totalLength == |Concat(raws)| < 0x1_0000
    && a.header == Ok(Encode(d)) && a.config == Ok(Concat(raws))
  }

  /** A device that is given a well-formed configuration of at most 256 bytes keeps the first endpoint of its kind and
      goes on to select configuration 1; without one the driver panics, and a longer one is given up. */
  lemma ConfigStepReads(kind: Kind, d: Input, millis: nat, settleDelay: nat, a: Answers, c: Descriptor,
                        raws: seq<seq<Byte>>)
    requires d.state.GetConfig? && WellAnswered(a, c, raws)
    ensures var (d', r) := InputFsm(kind, d, millis, settleDelay, a);
      if |Concat(raws)| > 256 then d' == d && r == GiveUp
      else if exists j: nat :: HasPair(kind, raws, j) then
        && r == Fine && d'.state == DeviceState.SetConfig(1) && d'.endpoint.Some?
        && FoundPair(kind, raws, d'.endpoint.value.interfaceNumber, d'.endpoint.value.descriptor)
      else d' == d && r == Panicked
  {
    ReadsEncoded(c, Concat(raws));
    SearchReads(kind, raws);
  }

  /** Such answers serve the configuration step exactly if the configuration is short enough and holds an endpoint of
      the driver's kind, and stop it otherwise. */
  lemma EncodedHostServes(kind: Kind, a: Answers, c: Descriptor, raws: seq<seq<Byte>>)
    requires WellAnswered(a, c, raws)
    ensures Serves(kind, 4, a) <==> |Concat(raws)| <= 256 && exists j: nat :: HasPair(kind, raws, j)
    ensures Stops(kind, 4, a) <==> !Serves(kind, 4, a)
  {
    ReadsEncoded(c, Concat(raws));
    SearchReads(kind, raws);
  }

  /** The other steps: nothing to answer, the 18 bytes of a device descriptor, a request without data. */
  lemma OtherStepsServed(kind: Kind, rank: nat, a: Answers)
    ensures Serves(kind, 6, a) && !Stops(kind, 6, a)
    ensures Serves(kind, 5, a) <==> a.device.Ok? && |a.device.data| == 18
    ensures Stops(kind, 5, a) <==> a.device.Permanent? || (a.device.Ok? && |a.device.data| != 18)
    ensures 1 <= rank <= 3 ==>
      (Serves(kind, rank, a) <==> a.plain.Ok?) && (Stops(kind, rank, a) <==> a.plain.Permanent?)
    ensures rank == 0 || rank > 6 ==> !Serves(kind, rank, a) && !Stops(kind, rank, a)
  {}

  // One device

  /** How the host answers: device by device and call by call. */
  type Host = (nat, nat) -> Answers

  function Server(kind: Kind, rank: nat, host: Host, i: nat): Chains.Server {
    (c: seq<nat>, k: nat) => |c| < rank && Serves(kind, rank - |c|, host(i, k))
  }

  lemma {:induction false} TrackIsServed(kind: Kind, rank: nat, host: Host, i: nat, n: nat)
    ensures var c := Chains.Track(Server(kind, rank, host, i), n);
      |c| <= rank && forall j :: 0 <= j < |c| ==> Serves(kind, rank - j, host(i, c[j]))
  {
    if n > 0 {
      TrackIsServed(kind, rank, host, i, n - 1);
    }
  }

  /** Calls still needed after `n` of them, read off the answers alone. */
  function Need(kind: Kind, rank: nat, host: Host, i: nat, n: nat): (r: nat)
    ensures r <= rank
  {
    TrackIsServed(kind, rank, host, i, n);
    rank - |Chains.Track(Server(kind, rank, host, i), n)|
  }

  /** One call each, in order, among the first `n`, that takes the device from `rank` down to 0. */
  predicate ServedChain(kind: Kind, rank: nat, host: Host, i: nat, c: seq<nat>, n: nat) {
    |c| == rank && Chains.Increasing(c, n) && forall j :: 0 <= j < rank ==> Serves(kind, rank - j, host(i, c[j]))
  }

  ghost predicate Served(kind: Kind, rank: nat, host: Host, i: nat, n: nat) {
    exists c :: ServedChain(kind, rank, host, i, c, n)
  }

  /** Nothing more is needed exactly when there is a chain of calls that serves the device. */
  lemma NeedIsChain(kind: Kind, rank: nat, host: Host, i: nat, n: nat)
    ensures Need(kind, rank, host, i, n) == 0 <==> Served(kind, rank, host, i, n)
  {
    var serves := Server(kind, rank, host, i);
    TrackIsServed(kind, rank, host, i, n);
    if Need(kind, rank, host, i, n) == 0 {
      assert ServedChain(kind, rank, host, i, Chains.Track(serves, n), n);
    }
    if Served(kind, rank, host, i, n) {
      var c :| ServedChain(kind, rank, host, i, c, n);
      forall j | 0 <= j < |c| ensures serves(c[..j], c[j]) {}
      Chains.AnyChainIsMatched(serves, c, n);
    }
  }

  /** A device after its first `n` calls, the k-th at time `times(k)`. */
  function AfterCalls(kind: Kind, d: Input, settleDelay: nat, times: nat -> nat, host: Host, i: nat, n: nat): Input {
    if n == 0 then d
    else
      var d' := AfterCalls(kind, d, settleDelay, times, host, i, n - 1);
      InputFsm(kind, d', times(n - 1), settleDelay, host(i, n - 1)).0
  }

  /** Calls are further apart than a device takes to settle. */
  ghost predicate Spaced(times: nat -> nat, settleDelay: nat) {
    forall j, k :: 0 <= j < k ==> times(j) + settleDelay < times(k)
  }

  lemma NextCall(kind: Kind, rank: nat, d: Input, settleDelay: nat, millis: nat, host: Host, i: nat, n: nat)
    requires Rank(d) == Need(kind, rank, host, i, n) && EndpointKnown(kind, d) && SettlesBefore(d, millis)
    ensures var d' := InputFsm(kind, d, millis, settleDelay, host(i, n)).0;
      && Rank(d') == Need(kind, rank, host, i, n + 1) && EndpointKnown(kind, d')
      && SettlesBefore(d', millis + settleDelay + 1)
  {
    if !d.state.Running? {
      CallExactly(kind, d, millis, settleDelay, host(i, n));
    }
  }

  lemma {:induction false} CallsTrack(
    kind: Kind, d: Input, settleDelay: nat, times: nat -> nat, host: Host, i: nat, n: nat)
    requires EndpointKnown(kind, d) && SettlesBefore(d, times(0)) && Spaced(times, settleDelay)
    ensures var d' := AfterCalls(kind, d, settleDelay, times, host, i, n);
      Rank(d') == Need(kind, Rank(d), host, i, n) && EndpointKnown(kind, d') && SettlesBefore(d', times(n))
  {
    if n > 0 {
      CallsTrack(kind, d, settleDelay, times, host, i, n - 1);
      assert times(n - 1) + settleDelay < times(n);
      var d' := AfterCalls(kind, d, settleDelay, times, host, i, n - 1);
      NextCall(kind, Rank(d), d', settleDelay, times(n - 1), host, i, n - 1);
    }
  }

  /** A device runs after `n` calls if and only if some of the answers, in order, serve what it still needs. */
  lemma RunsExactly(kind: Kind, d: Input, settleDelay: nat, times: nat -> nat, host: Host, i: nat, n: nat)
    requires EndpointKnown(kind, d) && SettlesBefore(d, times(0)) && Spaced(times, settleDelay)
    ensures AfterCalls(kind, d, settleDelay, times, host, i, n).state.Running? <==> Served(kind, Rank(d), host, i, n)
  {
    CallsTrack(kind, d, settleDelay, times, host, i, n);
    NeedIsChain(kind, Rank(d), host, i, n);
  }

  /** Every step needs its answer: one withheld for ever keeps the device from running. */
  lemma EveryStepIsServed(kind: Kind, rank: nat, host: Host, i: nat, step: nat, n: nat)
    requires 1 <= step <= rank && Served(kind, rank, host, i, n)
    ensures exists k :: 0 <= k < n && Serves(kind, step, host(i, k))
  {
    var c :| ServedChain(kind, rank, host, i, c, n);
    assert Serves(kind, rank - (rank - step), host(i, c[rank - step]));
  }

  /** Retries in between do no harm, even if they never stop: a host that serves only every other call will do. */
  lemma EveryOtherCallServes(kind: Kind, rank: nat, host: Host, i: nat)
    requires forall j :: 0 <= j < rank ==> Serves(kind, rank - j, host(i, 2 * j + 1))
    ensures Served(kind, rank, host, i, 2 * rank)
  {
    var c := seq(rank, j => 2 * j + 1);
    assert ServedChain(kind, rank, host, i, c, 2 * rank);
  }

  // The loop

  function IsRunning(): Input -> bool {
    (d: Input) => d.state.Running?
  }

  function Call(kind: Kind, settleDelay: nat, host: Host): Caller<Input> {
    (d: Input, millis: nat, i: nat, k: nat) => InputFsm(kind, d, millis, settleDelay, host(i, k))
  }

  /** Devices as they are when the loop starts. */
  predicate Ready(kind: Kind, ds: seq<Option<Input>>) {
    forall i :: 0 <= i < |ds| && ds[i].Some? ==> EndpointKnown(kind, ds[i].value) && SettlesBefore(ds[i].value, PERIOD)
  }

  /** What device `i` has become after `n` rounds without an end. */
  predicate Tracked(kind: Kind, d: Option<Input>, d': Option<Input>, host: Host, i: nat, n: nat) {
    && (d.Some? <==> d'.Some?)
    && (d.Some? ==>
         && Rank(d'.value) == Need(kind, Rank(d.value), host, i, n)
         && EndpointKnown(kind, d'.value) && SettlesBefore(d'.value, (n + 1) * PERIOD))
  }

  predicate AllTracked(kind: Kind, ds: seq<Option<Input>>, ds': seq<Option<Input>>, host: Host, n: nat) {
    |ds'| == |ds| && forall i :: 0 <= i < |ds| ==> Tracked(kind, ds[i], ds'[i], host, i, n)
  }

  /** The answer to call `k` of device `i` stops it. */
  predicate StopsAt(kind: Kind, rank: nat, host: Host, i: nat, k: nat) {
    Stops(kind, Need(kind, rank, host, i, k), host(i, k))
  }

  /** The answer in round `k` ends the loop at device `i`. */
  predicate StoppedAt(kind: Kind, ds: seq<Option<Input>>, host: Host, i: nat, k: nat) {
    i < |ds| && ds[i].Some? && StopsAt(kind, Rank(ds[i].value), host, i, k)
  }

  ghost predicate StoppedBy(kind: Kind, ds: seq<Option<Input>>, host: Host, n: nat) {
    exists i, k :: 0 <= k < n && StoppedAt(kind, ds, host, i, k)
  }

  lemma DeviceRound(kind: Kind, settleDelay: nat, d: Option<Input>, d': Option<Input>, host: Host, i: nat, n: nat,
                    millis: nat)
    requires d.Some? && Tracked(kind, d, d', host, i, n) && !Idle(d', IsRunning())
    requires (n + 1) * PERIOD <= millis && millis + settleDelay < (n + 2) * PERIOD
    ensures var (e, r) := InputFsm(kind, d'.value, millis, settleDelay, host(i, n));
      && (Final(r) <==> Stops(kind, Rank(d'.value), host(i, n)))
      && (!Final(r) ==> Tracked(kind, d, Some(e), host, i, n + 1))
  {
    CallExactly(kind, d'.value, millis, settleDelay, host(i, n));
  }

  /** An idle device stays tracked. */
  lemma IdleRound(kind: Kind, d: Option<Input>, d': Option<Input>, host: Host, i: nat, n: nat)
    requires Tracked(kind, d, d', host, i, n) && Idle(d', IsRunning())
    ensures Tracked(kind, d, d', host, i, n + 1)
    ensures d.Some? ==> !Stops(kind, Rank(d'.value), host(i, n))
  {}

  /** A pass that ends well keeps every device tracked and met no answer that stops one. */
  lemma FineRound(kind: Kind, settleDelay: nat, ds: seq<Option<Input>>, ds': seq<Option<Input>>, host: Host, n: nat)
    requires AllTracked(kind, ds, ds', host, n) && |ds| + settleDelay < PERIOD
    requires PassUpTo(ds', IsRunning(), Call(kind, settleDelay, host), n, |ds|).result.Fine?
    ensures var p := PassUpTo(ds', IsRunning(), Call(kind, settleDelay, host), n, |ds|);
      AllTracked(kind, ds, p.devices, host, n + 1)
    ensures forall i :: !StoppedAt(kind, ds, host, i, n)
  {
    var call := Call(kind, settleDelay, host);
    var p := PassUpTo(ds', IsRunning(), call, n, |ds|);
    FinePass(ds', IsRunning(), call, n, |ds|);
    forall i | 0 <= i < |ds|
      ensures Tracked(kind, ds[i], p.devices[i], host, i, n + 1) && !StoppedAt(kind, ds, host, i, n)
    {
      var t := TimeOf(ds', IsRunning(), call, n, i);
      assert Called(ds'[i], p.devices[i], IsRunning(), call, t, i, n);
      if Idle(ds'[i], IsRunning()) {
        IdleRound(kind, ds[i], ds'[i], host, i, n);
      } else {
        DeviceRound(kind, settleDelay, ds[i], ds'[i], host, i, n, t);
      }
    }
  }

  /** A pass that does not end well met such an answer. */
  lemma FailedRound(kind: Kind, settleDelay: nat, ds: seq<Option<Input>>, ds': seq<Option<Input>>, host: Host, n: nat)
    requires AllTracked(kind, ds, ds', host, n) && |ds| + settleDelay < PERIOD
    requires !PassUpTo(ds', IsRunning(), Call(kind, settleDelay, host), n, |ds|).result.Fine?
    ensures exists i :: StoppedAt(kind, ds, host, i, n)
  {
    var call := Call(kind, settleDelay, host);
    var i := FailedPass(ds', IsRunning(), call, n, |ds|);
    DeviceRound(kind, settleDelay, ds[i], ds'[i], host, i, n, TimeOf(ds', IsRunning(), call, n, i));
    assert StoppedAt(kind, ds, host, i, n);
  }

  /** Once every device runs nothing changes any more. */
  lemma QuietRound(kind: Kind, ds: seq<Option<Input>>, ds': seq<Option<Input>>, host: Host, n: nat)
    requires AllTracked(kind, ds, ds', host, n) && AllIdle(ds', IsRunning())
    ensures AllTracked(kind, ds, ds', host, n + 1) && forall i :: !StoppedAt(kind, ds, host, i, n)
  {
    forall i | 0 <= i < |ds|
      ensures Tracked(kind, ds[i], ds'[i], host, i, n + 1) && !StoppedAt(kind, ds, host, i, n)
    {
      IdleRound(kind, ds[i], ds'[i], host, i, n);
    }
  }

  lemma StoppedOneMore(kind: Kind, ds: seq<Option<Input>>, host: Host, n: nat)
    ensures StoppedBy(kind, ds, host, n + 1) <==>
      StoppedBy(kind, ds, host, n) || exists i :: StoppedAt(kind, ds, host, i, n)
  {
    if i: nat :| StoppedAt(kind, ds, host, i, n) {
      assert n < n + 1;
    }
  }

  /** What the loop has come to after `n` rounds. */
  ghost predicate LoopTracked(kind: Kind, ds: seq<Option<Input>>, p: Pass<Input>, host: Host, n: nat) {
    && (p.result.Fine? ==> AllTracked(kind, ds, p.devices, host, n))
    && (p.result.Fine? <==> !StoppedBy(kind, ds, host, n))
  }

  lemma LoopRound(kind: Kind, settleDelay: nat, ds: seq<Option<Input>>, p: Pass<Input>, host: Host, n: nat)
    requires LoopTracked(kind, ds, p, host, n) && |ds| == |p.devices| && |ds| + settleDelay < PERIOD
    ensures var p' := PassUpTo(p.devices, IsRunning(), Call(kind, settleDelay, host), n, |ds|);
      LoopTracked(kind, ds, if Ended(p, IsRunning()) then p else p', host, n + 1)
  {
    StoppedOneMore(kind, ds, host, n);
    if p.result.Fine? && AllIdle(p.devices, IsRunning()) {
      QuietRound(kind, ds, p.devices, host, n);
    } else if p.result.Fine? {
      if PassUpTo(p.devices, IsRunning(), Call(kind, settleDelay, host), n, |ds|).result.Fine? {
        FineRound(kind, settleDelay, ds, p.devices, host, n);
      } else {
        FailedRound(kind, settleDelay, ds, p.devices, host, n);
      }
    }
  }

  lemma LoopStarts(kind: Kind, ds: seq<Option<Input>>, host: Host)
    requires Ready(kind, ds)
    ensures LoopTracked(kind, ds, Pass(ds, 0, Fine), host, 0)
  {
    forall i | 0 <= i < |ds| ensures Tracked(kind, ds[i], ds[i], host, i, 0) {}
  }

  lemma {:induction false} LoopTracks(kind: Kind, settleDelay: nat, ds: seq<Option<Input>>, host: Host, n: nat)
    requires Ready(kind, ds) && |ds| + settleDelay < PERIOD
    ensures LoopTracked(kind, ds, After(ds, IsRunning(), Call(kind, settleDelay, host), n), host, n)
  {
    var call := Call(kind, settleDelay, host);
    if n == 0 {
      LoopStarts(kind, ds, host);
      assert After(ds, IsRunning(), call, n) == Pass(ds, 0, Fine);
    } else {
      LoopTracks(kind, settleDelay, ds, host, n - 1);
      LoopRound(kind, settleDelay, ds, After(ds, IsRunning(), call, n - 1), host, n - 1);
    }
  }

  /** Every device is served. */
  ghost predicate AllServed(kind: Kind, ds: seq<Option<Input>>, host: Host, n: nat) {
    forall i :: 0 <= i < |ds| && ds[i].Some? ==> Served(kind, Rank(ds[i].value), host, i, n)
  }

  lemma IdleExactly(kind: Kind, ds: seq<Option<Input>>, ds': seq<Option<Input>>, host: Host, n: nat)
    requires AllTracked(kind, ds, ds', host, n)
    ensures AllIdle(ds', IsRunning()) <==> AllServed(kind, ds, host, n)
  {
    forall i | 0 <= i < |ds|
      ensures Idle(ds'[i], IsRunning()) <==> (ds[i].Some? ==> Served(kind, Rank(ds[i].value), host, i, n))
    {
      if ds[i].Some? {
        NeedIsChain(kind, Rank(ds[i].value), host, i, n);
      }
    }
  }

  /** The loop has ended within `n` rounds if and only if the answers of those rounds serve every device or stop one; it
      has failed if and only if they stop one. */
  lemma LoopEndsExactly(kind: Kind, settleDelay: nat, ds: seq<Option<Input>>, host: Host, n: nat)
    requires Ready(kind, ds) && |ds| + settleDelay < PERIOD
    ensures var p := After(ds, IsRunning(), Call(kind, settleDelay, host), n);
      && (Ended(p, IsRunning()) <==> AllServed(kind, ds, host, n) || StoppedBy(kind, ds, host, n))
      && (p.result.Fine? <==> !StoppedBy(kind, ds, host, n))
  {
    var p := After(ds, IsRunning(), Call(kind, settleDelay, host), n);
    LoopTracks(kind, settleDelay, ds, host, n);
    if p.result.Fine? {
      IdleExactly(kind, ds, p.devices, host, n);
    }
  }

  /** How the loop ends: every device running with its endpoint known, unless the answers stop one. */
  ghost predicate Outcome(
    kind: Kind, ds: seq<Option<Input>>, ds': seq<Option<Input>>, host: Host, n: nat, r: Result)
  {
    && (r.Fine? <==> !StoppedBy(kind, ds, host, n))
    && (r.Fine? ==> AllIdle(ds', IsRunning()) && AllTracked(kind, ds, ds', host, n))
  }

  lemma LoopResult(kind: Kind, settleDelay: nat, ds: seq<Option<Input>>, host: Host, n: nat)
    requires Ready(kind, ds) && |ds| + settleDelay < PERIOD
    requires AllServed(kind, ds, host, n) || StoppedBy(kind, ds, host, n)
    ensures var p := After(ds, IsRunning(), Call(kind, settleDelay, host), n);
      Ended(p, IsRunning()) && Outcome(kind, ds, p.devices, host, n, p.result)
  {
    LoopEndsExactly(kind, settleDelay, ds, host, n);
    LoopTracks(kind, settleDelay, ds, host, n);
  }

  // Hosts that ask to retry only so long

  predicate AsksRetry(a: Answers) {
    a.device.Retry? || a.header.Retry? || a.config.Retry? || a.plain.Retry?
  }

  lemma CalmAnswer(kind: Kind, rank: nat, a: Answers)
    requires 1 <= rank <= 6 && !AsksRetry(a)
    ensures Serves(kind, rank, a) || Stops(kind, rank, a)
  {}

  /** The host neither stops device `i` nor asks it to retry in call `n`. */
  predicate GoodCall(kind: Kind, rank: nat, host: Host, i: nat, n: nat) {
    !AsksRetry(host(i, n)) && !StopsAt(kind, rank, host, i, n)
  }

  lemma CalmCall(kind: Kind, rank: nat, host: Host, i: nat, n: nat)
    requires rank <= 6 && GoodCall(kind, rank, host, i, n)
    ensures var need := Need(kind, rank, host, i, n);
      Need(kind, rank, host, i, n + 1) == if need == 0 then 0 else need - 1
  {
    if Need(kind, rank, host, i, n) > 0 {
      CalmAnswer(kind, Need(kind, rank, host, i, n), host(i, n));
    }
  }

  lemma {:induction false} CalmCalls(kind: Kind, rank: nat, host: Host, i: nat, calm: nat, n: nat)
    requires rank <= 6 && calm <= n && forall k :: calm <= k < n ==> GoodCall(kind, rank, host, i, k)
    ensures Need(kind, rank, host, i, n) == 0 || Need(kind, rank, host, i, n) <= rank - (n - calm)
    decreases n
  {
    if calm < n {
      CalmCalls(kind, rank, host, i, calm, n - 1);
      CalmCall(kind, rank, host, i, n - 1);
    }
  }

  /** If the host asks to retry in none of the rounds from `calm` on, the loop ends within six more. */
  lemma CalmHostEnds(kind: Kind, settleDelay: nat, ds: seq<Option<Input>>, host: Host, calm: nat, n: nat)
    requires Ready(kind, ds) && |ds| + settleDelay < PERIOD
    requires n >= calm + 6 && forall i, k :: k >= calm ==> !AsksRetry(host(i, k))
    ensures Ended(After(ds, IsRunning(), Call(kind, settleDelay, host), n), IsRunning())
  {
    LoopEndsExactly(kind, settleDelay, ds, host, n);
    if !StoppedBy(kind, ds, host, n) {
      forall i | 0 <= i < |ds| && ds[i].Some? ensures Served(kind, Rank(ds[i].value), host, i, n) {
        var rank := Rank(ds[i].value);
        forall k | calm <= k < n ensures GoodCall(kind, rank, host, i, k) {
          assert !StoppedAt(kind, ds, host, i, k);
        }
        CalmCalls(kind, rank, host, i, calm, n);
        NeedIsChain(kind, rank, host, i, n);
      }
    }
  }

  class InputOnlyDriver {
    const devices: array<Option<Input>>
    const settleDelay: nat
    const kind: Kind

    constructor (maxDevices: nat, settleDelay: nat, kind: Kind)
      ensures fresh(devices) && devices.Length == maxDevices && this.settleDelay == settleDelay && this.kind == kind
      ensures forall i :: 0 <= i < devices.Length ==> devices[i] == None
    {
      devices := new Option<Input>[maxDevices](_ => None);
      this.settleDelay, this.kind := settleDelay, kind;
    }

    /** Round number `round`, which starts at time `start`. */
    method Round(host: Host, start: nat, round: nat) returns (millis: nat, r: Result)
      requires start == (round + 1) * PERIOD
      modifies devices
      ensures Pass(devices[..], millis, r) ==
        PassUpTo(old(devices[..]), IsRunning(), Call(kind, settleDelay, host), round, devices.Length)
    {
      ghost var ds, call := devices[..], Call(kind, settleDelay, host);
      millis := start;
      for i := 0 to devices.Length
        invariant Pass(devices[..], millis, Fine) == PassUpTo(ds, IsRunning(), call, round, i)
        invariant forall j :: i <= j < devices.Length ==> devices[j] == ds[j]
      {
        NextDevice(ds, IsRunning(), call, round, i, Pass(devices[..], millis, Fine));
        if devices[i].Some? && !devices[i].value.state.Running? {
          var (d, outcome) := InputFsm(kind, devices[i].value, millis, settleDelay, host(i, round));
          devices[i] := Some(d);
          if outcome == GiveUp || outcome == Panicked {
            FailedStays(ds, IsRunning(), call, round, i + 1, devices.Length);
            return millis, outcome;
          }
          millis := millis + 1;
        }
      }
      r := Fine;
    }

    /** The driver is as the loop leaves it after `round` rounds without an end. */
    ghost predicate Reached(ds: seq<Option<Input>>, host: Host, round: nat)
      reads devices
    {
      var p := After(ds, IsRunning(), Call(kind, settleDelay, host), round);
      devices[..] == p.devices && p.result.Fine?
    }

    /** The loop has ended as after `n` rounds, with result `r`. */
    ghost predicate Finished(ds: seq<Option<Input>>, host: Host, n: nat, r: Result)
      reads devices
    {
      var p := After(ds, IsRunning(), Call(kind, settleDelay, host), n);
      devices[..] == p.devices && r == p.result
    }

    /** The body of the loop. */
    method Tick(host: Host, millis: nat, round: nat, ghost ds: seq<Option<Input>>, ghost n: nat)
      returns (millis': nat, round': nat, r: Result)
      requires InPeriod(millis, round) && round <= n && devices.Length < PERIOD
      requires Reached(ds, host, round) && !AllIdle(devices[..], IsRunning())
      requires Ended(After(ds, IsRunning(), Call(kind, settleDelay, host), n), IsRunning())
      modifies devices
      ensures InPeriod(millis', round') && round' <= n
      ensures (round' == round && millis' == millis + 1) || round' == round + 1
      ensures if r.Fine? then Reached(ds, host, round') else Finished(ds, host, n, r)
    {
      var due: bool;
      round', r := round, Fine;
      millis', due := CountOn(millis, round);
      if due {
        ghost var before := devices[..];
        millis', r := Round(host, millis', round);
        round' := round + 1;
        RoundTaken(ds, IsRunning(), Call(kind, settleDelay, host), round, n, before, Pass(devices[..], millis', r));
      }
    }

    /** The loop, on a host on which it ends within `n` rounds. */
    method RunLoop(host: Host, ghost n: nat) returns (r: Result, ghost rounds: nat, ghost elapsed: nat)
      requires devices.Length < PERIOD
      requires Ended(After(devices[..], IsRunning(), Call(kind, settleDelay, host), n), IsRunning())
      modifies devices
      ensures rounds <= n && InPeriod(elapsed, rounds) && Finished(old(devices[..]), host, n, r)
    {
      ghost var ds := devices[..];
      var millis: nat, round: nat := 0, 0;
      r := Fine;
      while r.Fine? && !AllIdle(devices[..], IsRunning())
        invariant InPeriod(millis, round) && round <= n
        invariant if r.Fine? then Reached(ds, host, round) else Finished(ds, host, n, r)
        decreases n - round, (round + 1) * PERIOD - millis
      {
        millis, round, r := Tick(host, millis, round, ds, n);
      }
      if r.Fine? {
        EndedStays(ds, IsRunning(), Call(kind, settleDelay, host), round, n);
      }
      rounds, elapsed := round, millis;
    }

    /** The loop ends after `n` rounds or sooner if and only if the answers of those rounds serve every device or stop
        one (`LoopEndsExactly`); on other hosts it never returns. */
    method TickUntilRunning(host: Host, ghost n: nat) returns (r: Result, ghost rounds: nat, ghost elapsed: nat)
      requires devices.Length + settleDelay < PERIOD && Ready(kind, devices[..])
      requires AllServed(kind, devices[..], host, n) || StoppedBy(kind, devices[..], host, n)
      modifies devices
      ensures rounds <= n && InPeriod(elapsed, rounds) && Finished(old(devices[..]), host, n, r)
      ensures Outcome(kind, old(devices[..]), devices[..], host, n, r)
    {
      LoopResult(kind, settleDelay, devices[..], host, n);
      r, rounds, elapsed := RunLoop(host, n);
    }
  }
}
