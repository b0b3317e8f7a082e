/** The loop that ticks hubs until every one runs (kernel/src/usb/class_driver/hub.rs:38-64 and 152-525). */
module HubBringUp {
  import opened Basics
  import opened Hubs
  import opened TickLoops
  import Chains
  import Descriptors

  /** How the host answers: hub by hub and call by call. */
  type Host = (nat, nat) -> Script

  /** A hub after its first `n` calls. */
  function AfterCalls(h: Hub, host: Host, i: nat, n: nat): Hub {
    if n == 0 then h else Fsm(AfterCalls(h, host, i, n - 1), host(i, n - 1)).0
  }

  // A new hub, by its answers

  predicate ConfigReadable(s: Script) {
    match ReadConfig(s.header, s.config)
    case Bytes(buf) => Descriptors.Parse(buf).Some?
    case Stop(_) => false
  }

  /** The configuration holds a configuration descriptor. */
  predicate ConfigNamed(s: Script) {
    match ReadConfig(s.header, s.config)
    case Bytes(buf) => Descriptors.Parse(buf).Some? && HasConfiguration(Descriptors.Parse(buf).value)
    case Stop(_) => false
  }

  /** Encoded descriptors of at most 256 bytes are readable, and name the configuration exactly if one of them is a
      configuration descriptor (type 2); longer ones are given up. */
  lemma EncodedConfigReads(s: Script, d: Descriptors.Descriptor, raws: seq<seq<Byte>>)
    requires Descriptors.AllWellFormed(raws)
    requires d.Configuration? && d.totalLength == |Descriptors.Concat(raws)| < 0x1_0000
    requires s.header == Ok(Descriptors.Encode(d)) && s.config == Ok(Descriptors.Concat(raws))
    ensures ConfigReadable(s) <==> |Descriptors.Concat(raws)| <= 256
    ensures ConfigNamed(s) <==>
      |Descriptors.Concat(raws)| <= 256 && exists i :: 0 <= i < |raws| && raws[i][1] == 2
  {
    ReadsEncoded(d, Descriptors.Concat(raws));
    Descriptors.ParseRoundTrip(raws);
    ConfigurationReads(raws);
  }

  /** The port is seen empty, or reset and handed over. */
  predicate PortServed(p: PortScript) {
    && p[0].Ok? && p[1].Ok? && p[2].Ok?
    && (ByteAt(p[2], 0) % 2 == 0 || (p[3].Ok? && p[4].Ok? && p[5].Ok? && p[6].Ok?))
  }

  /** The first error on the port is final: the hand-over may not fail at all. */
  predicate PortStops(p: PortScript) {
    || p[0].Permanent?
    || (p[0].Ok? && (p[1].Permanent? || (p[1].Ok? && (p[2].Permanent? ||
         (p[2].Ok? && ByteAt(p[2], 0) % 2 == 1 && (p[3].Permanent? || (p[3].Ok? && (p[4].Permanent? ||
           (p[4].Ok? && (p[5].Permanent? || (p[5].Ok? && !p[6].Ok?)))))))))))
  }

  /** The number of ports in the hub descriptor, which the fourth call of a chain reads. */
  function PortsRead(host: Host, i: nat, c: seq<nat>): nat {
    if |c| >= 4 && host(i, c[3]).hub.Ok? then ByteAt(host(i, c[3]).hub, 2) else 0
  }

  /** The second call of the chain found the configuration. */
  predicate Named(host: Host, i: nat, c: seq<nat>) {
    |c| >= 2 && ConfigNamed(host(i, c[1]))
  }

  /** The answer takes a hub that has made use of the calls `c` one stage further. */
  predicate StageServed(host: Host, i: nat, c: seq<nat>, s: Script) {
    match |c|
    case 0 => true
    case 1 => ConfigReadable(s)
    case 2 => Named(host, i, c) && s.select.Ok? && s.register.Ok?
    case 3 => s.hub.Ok?
    case _ => if |c| < 4 + PortsRead(host, i, c) then PortServed(s.port) else |c| == 4 + PortsRead(host, i, c)
  }

  /** The answer ends the loop at such a hub. */
  predicate StageStops(host: Host, i: nat, c: seq<nat>, s: Script) {
    match |c|
    case 0 => false
    case 1 =>
      (match ReadConfig(s.header, s.config)
       case Bytes(buf) => Descriptors.Parse(buf).None?
       case Stop(why) => Final(why))
    case 2 => !Named(host, i, c) || s.select.Permanent? || (s.select.Ok? && !s.register.Ok?)
    case 3 => s.hub.Permanent?
    case _ => |c| < 4 + PortsRead(host, i, c) && PortStops(s.port)
  }

  function Server(host: Host, i: nat): Chains.Server {
    (c: seq<nat>, k: nat) => StageServed(host, i, c, host(i, k))
  }

  function Track(host: Host, i: nat, n: nat): seq<nat> {
    Chains.Track(Server(host, i), n)
  }

  /** The stage of a hub is the number of calls it has made use of. */
  predicate AtStage(h: Hub, host: Host, i: nat, c: seq<nat>) {
    match h.state
    case Addressed => |c| == 0 && !h.configured
    case GetConfig => |c| == 1 && !h.configured
    case SetConfig => |c| == 2 && h.configured == Named(host, i, c)
    case GetHubDescriptor => |c| == 3
    case InitPort(p) => |c| == 4 + p && p <= h.numberOfPorts == PortsRead(host, i, c)
    case Running => |c| == 5 + h.numberOfPorts && h.numberOfPorts == PortsRead(host, i, c)
  }

  lemma PortCallExactly(h: Hub, p: PortScript)
    requires h.state.InitPort? && h.state.port < h.numberOfPorts
    ensures var (h', r) := PortFsm(h, p);
      && (PortServed(p) <==> r.Fine?) && (PortStops(p) <==> Final(r))
      && h'.(notes := []) == if r.Fine? then h.(state := InitPort(h.state.port + 1), notes := []) else h.(notes := [])
  {}

  /** A call gains exactly one stage if the answer serves it, ends the loop if the answer stops it, and otherwise gains
      nothing. */
  lemma CallExactly(h: Hub, host: Host, i: nat, c: seq<nat>, k: nat)
    requires !h.state.Running? && AtStage(h, host, i, c)
    ensures var (h', r) := Fsm(h, host(i, k));
      && (StageServed(host, i, c, host(i, k)) <==> r.Fine?)
      && (StageStops(host, i, c, host(i, k)) <==> Final(r))
      && AtStage(h', host, i, if r.Fine? then c + [k] else c)
  {
    if h.state.InitPort? && h.state.port < h.numberOfPorts {
      PortCallExactly(h, host(i, k).port);
    }
  }

  lemma NextCall(h: Hub, host: Host, i: nat, n: nat)
    requires AtStage(h, host, i, Track(host, i, n))
    ensures AtStage(Fsm(h, host(i, n)).0, host, i, Track(host, i, n + 1))
  {
    if !h.state.Running? {
      CallExactly(h, host, i, Track(host, i, n), n);
    }
  }

  lemma {:induction false} CallsTrack(host: Host, i: nat, n: nat)
    ensures AtStage(AfterCalls(NewHub(), host, i, n), host, i, Track(host, i, n))
  {
    if n == 0 {
      assert Track(host, i, n) == [];
    } else {
      CallsTrack(host, i, n - 1);
      NextCall(AfterCalls(NewHub(), host, i, n - 1), host, i, n - 1);
    }
  }

  /** Calls among the first `n`, each the first to serve its stage: the configuration, its selection, the hub
      descriptor, every port it announces, and the step to running. */
  ghost predicate HubChain(host: Host, i: nat, c: seq<nat>, n: nat) {
    Chains.Prompt(Server(host, i), c, n) && |c| == 5 + PortsRead(host, i, c)
  }

  ghost predicate Served(host: Host, i: nat, n: nat) {
    exists c :: HubChain(host, i, c, n)
  }

  /** A new hub runs after `n` calls if and only if its answers hold such a chain. */
  lemma RunsExactly(host: Host, i: nat, n: nat)
    ensures AfterCalls(NewHub(), host, i, n).state.Running? <==> Served(host, i, n)
  {
    CallsTrack(host, i, n);
    var t := Track(host, i, n);
    if AfterCalls(NewHub(), host, i, n).state.Running? {
      Chains.TrackIsPrompt(Server(host, i), n);
      assert HubChain(host, i, t, n);
    }
    if Served(host, i, n) {
      var c :| HubChain(host, i, c, n);
      Chains.PromptIsTracked(Server(host, i), c, n);
      assert PortsRead(host, i, c) == PortsRead(host, i, t);
    }
  }

  /** And a call stops it exactly when the answer stops the stage it has come to. */
  lemma StopsExactly(host: Host, i: nat, k: nat)
    ensures Final(Fsm(AfterCalls(NewHub(), host, i, k), host(i, k)).1) <==>
      StageStops(host, i, Track(host, i, k), host(i, k))
  {
    CallsTrack(host, i, k);
    var h := AfterCalls(NewHub(), host, i, k);
    if !h.state.Running? {
      CallExactly(h, host, i, Track(host, i, k), k);
    }
  }

  // The loop

  function IsRunning(): Hub -> bool {
    (h: Hub) => h.state.Running?
  }

  function Call(host: Host): Caller<Hub> {
    (h: Hub, millis: nat, i: nat, k: nat) => Fsm(h, host(i, k))
  }

  /** Every hub is as its own calls leave it: hubs do not affect each other. */
  predicate AllTracked(ds: seq<Option<Hub>>, ds': seq<Option<Hub>>, host: Host, n: nat) {
    && |ds'| == |ds|
    && forall i :: 0 <= i < |ds| ==> ds'[i] == if ds[i].Some? then Some(AfterCalls(ds[i].value, host, i, n)) else None
  }

  /** The answer in round `k` ends the loop at hub `i`. */
  predicate StoppedAt(ds: seq<Option<Hub>>, host: Host, i: nat, k: nat) {
    i < |ds| && ds[i].Some? && Final(Fsm(AfterCalls(ds[i].value, host, i, k), host(i, k)).1)
  }

  ghost predicate StoppedBy(ds: seq<Option<Hub>>, host: Host, n: nat) {
    exists i, k :: 0 <= k < n && StoppedAt(ds, host, i, k)
  }

  predicate AllServed(ds: seq<Option<Hub>>, host: Host, n: nat) {
    forall i :: 0 <= i < |ds| && ds[i].Some? ==> AfterCalls(ds[i].value, host, i, n).state.Running?
  }

  lemma FineRound(ds: seq<Option<Hub>>, ds': seq<Option<Hub>>, host: Host, n: nat)
    requires AllTracked(ds, ds', host, n) && PassUpTo(ds', IsRunning(), Call(host), n, |ds|).result.Fine?
    ensures AllTracked(ds, PassUpTo(ds', IsRunning(), Call(host), n, |ds|).devices, host, n + 1)
    ensures forall i :: !StoppedAt(ds, host, i, n)
  {
    var p := PassUpTo(ds', IsRunning(), Call(host), n, |ds|);
    FinePass(ds', IsRunning(), Call(host), n, |ds|);
    forall i | 0 <= i < |ds|
      ensures p.devices[i] == if ds[i].Some? then Some(AfterCalls(ds[i].value, host, i, n + 1)) else None
      ensures !StoppedAt(ds, host, i, n)
    {
      assert Called(ds'[i], p.devices[i], IsRunning(), Call(host), TimeOf(ds', IsRunning(), Call(host), n, i), i, n);
    }
  }

  lemma FailedRound(ds: seq<Option<Hub>>, ds': seq<Option<Hub>>, host: Host, n: nat)
    requires AllTracked(ds, ds', host, n) && !PassUpTo(ds', IsRunning(), Call(host), n, |ds|).result.Fine?
    ensures exists i :: StoppedAt(ds, host, i, n)
  {
    var i := FailedPass(ds', IsRunning(), Call(host), n, |ds|);
    assert StoppedAt(ds, host, i, n);
  }

  lemma QuietRound(ds: seq<Option<Hub>>, ds': seq<Option<Hub>>, host: Host, n: nat)
    requires AllTracked(ds, ds', host, n) && AllIdle(ds', IsRunning())
    ensures AllTracked(ds, ds', host, n + 1) && forall i :: !StoppedAt(ds, host, i, n)
  {
    assert forall i :: 0 <= i < |ds| ==> Idle(ds'[i], IsRunning());
  }

  lemma StoppedOneMore(ds: seq<Option<Hub>>, host: Host, n: nat)
    ensures StoppedBy(ds, host, n + 1) <==> StoppedBy(ds, host, n) || exists i :: StoppedAt(ds, host, i, n)
  {
    if i: nat :| StoppedAt(ds, host, i, n) {
      assert n < n + 1;
    }
  }

  /** What the loop has come to after `n` rounds. */
  ghost predicate LoopTracked(ds: seq<Option<Hub>>, p: Pass<Hub>, host: Host, n: nat) {
    && (p.result.Fine? ==> AllTracked(ds, p.devices, host, n))
    && (p.result.Fine? <==> !StoppedBy(ds, host, n))
  }

  lemma LoopRound(ds: seq<Option<Hub>>, p: Pass<Hub>, host: Host, n: nat)
    requires LoopTracked(ds, p, host, n) && |ds| == |p.devices|
    ensures LoopTracked(
      ds, if Ended(p, IsRunning()) then p else PassUpTo(p.devices, IsRunning(), Call(host), n, |ds|), host, n + 1)
  {
    StoppedOneMore(ds, host, n);
    if p.result.Fine? && AllIdle(p.devices, IsRunning()) {
      QuietRound(ds, p.devices, host, n);
    } else if p.result.Fine? {
      if PassUpTo(p.devices, IsRunning(), Call(host), n, |ds|).result.Fine? {
        FineRound(ds, p.devices, host, n);
      } else {
        FailedRound(ds, p.devices, host, n);
      }
    }
  }

  lemma {:induction false} LoopTracks(ds: seq<Option<Hub>>, host: Host, n: nat)
    ensures LoopTracked(ds, After(ds, IsRunning(), Call(host), n), host, n)
  {
    if n == 0 {
      assert After(ds, IsRunning(), Call(host), n) == Pass(ds, 0, Fine);
    } else {
      LoopTracks(ds, host, n - 1);
      LoopRound(ds, After(ds, IsRunning(), Call(host), n - 1), host, n - 1);
    }
  }

  /** The loop has ended within `n` rounds if and only if by then the answers have brought every hub to run or have
      stopped one; it has failed if and only if they have stopped one. */
  lemma LoopEndsExactly(ds: seq<Option<Hub>>, host: Host, n: nat)
    ensures var p := After(ds, IsRunning(), Call(host), n);
      && (Ended(p, IsRunning()) <==> AllServed(ds, host, n) || StoppedBy(ds, host, n))
      && (p.result.Fine? <==> !StoppedBy(ds, host, n))
      && (p.result.Fine? ==> AllTracked(ds, p.devices, host, n))
  {
    var p := After(ds, IsRunning(), Call(host), n);
    LoopTracks(ds, host, n);
    if p.result.Fine? {
      forall i | 0 <= i < |ds|
        ensures Idle(p.devices[i], IsRunning()) <==>
          (ds[i].Some? ==> AfterCalls(ds[i].value, host, i, n).state.Running?)
      {}
    }
  }

  /** How the loop ends: every hub running as its answers left it, unless they stop one. */
  ghost predicate Outcome(ds: seq<Option<Hub>>, ds': seq<Option<Hub>>, host: Host, n: nat, r: Result) {
    && (r.Fine? <==> !StoppedBy(ds, host, n))
    && (r.Fine? ==> AllIdle(ds', IsRunning()) && AllTracked(ds, ds', host, n))
  }

  lemma LoopResult(ds: seq<Option<Hub>>, host: Host, n: nat)
    requires AllServed(ds, host, n) || StoppedBy(ds, host, n)
    ensures var p := After(ds, IsRunning(), Call(host), n);
      Ended(p, IsRunning()) && Outcome(ds, p.devices, host, n, p.result)
  {
    LoopEndsExactly(ds, host, n);
  }

  predicate AllNew(ds: seq<Option<Hub>>) {
    forall i :: 0 <= i < |ds| && ds[i].Some? ==> ds[i].value == NewHub()
  }

  ghost predicate AnswersStop(ds: seq<Option<Hub>>, host: Host, n: nat) {
    exists i, k ::
      0 <= i < |ds| && ds[i].Some? && 0 <= k < n && StageStops(host, i, Track(host, i, k), host(i, k))
  }

  /** The same for new hubs in terms of the answers alone. */
  lemma NewHubsEndExactly(ds: seq<Option<Hub>>, host: Host, n: nat)
    requires AllNew(ds)
    ensures Ended(After(ds, IsRunning(), Call(host), n), IsRunning()) <==>
      || (forall i :: 0 <= i < |ds| && ds[i].Some? ==> Served(host, i, n))
      || AnswersStop(ds, host, n)
  {
    LoopEndsExactly(ds, host, n);
    forall i | 0 <= i < |ds| && ds[i].Some?
      ensures AfterCalls(ds[i].value, host, i, n).state.Running? <==> Served(host, i, n)
    {
      RunsExactly(host, i, n);
    }
    forall i, k | 0 <= i < |ds| && ds[i].Some? && 0 <= k < n
      ensures StoppedAt(ds, host, i, k) <==> StageStops(host, i, Track(host, i, k), host(i, k))
    {
      StopsExactly(host, i, k);
    }
  }

  // Hosts that fail only so long

  /** Calls a hub still needs at most; before the hub descriptor is read it may have up to 255 ports. */
  function Rank(h: Hub): nat {
    match h.state
    case Addressed => 260
    case GetConfig => 259
    case SetConfig => 258
    case GetHubDescriptor => 257
    case InitPort(p) => if p <= h.numberOfPorts then h.numberOfPorts - p + 1 else 1
    case Running => 0
  }

  /** A hub about to be configured knows its configuration descriptor. */
  predicate ConfigKnown(h: Hub) {
    h.state.SetConfig? ==> h.configured
  }

  /** Every request is answered, and the configuration is read and holds a configuration descriptor. */
  predicate Succeeds(s: Script) {
    s.select.Ok? && s.register.Ok? && s.hub.Ok? && ConfigNamed(s) && forall k :: 0 <= k < 7 ==> s.port[k].Ok?
  }

  /** A call that succeeds gains a rank, unless the configuration was never found. */
  lemma FsmAdvances(h: Hub, s: Script)
    requires !h.state.Running? && Succeeds(s)
    ensures var (h', r) := Fsm(h, s);
      if ConfigKnown(h) then r.Fine? && Rank(h') < Rank(h) && ConfigKnown(h') else r.Panicked?
  {}

  /** Every request of call `n` succeeds and the hub is not stopped. */
  predicate GoodCall(h: Hub, host: Host, i: nat, n: nat) {
    Succeeds(host(i, n)) && !Final(Fsm(AfterCalls(h, host, i, n), host(i, n)).1)
  }

  lemma GoodCallAdvances(h: Hub, s: Script)
    requires Succeeds(s) && !Final(Fsm(h, s).1)
    ensures Fsm(h, s).0.state.Running? || Rank(Fsm(h, s).0) < Rank(h)
  {
    if !h.state.Running? {
      FsmAdvances(h, s);
    }
  }

  /** A sequence of hubs that comes closer to running with every step from `calm` on. */
  lemma {:induction false} RanksFall(hs: seq<Hub>, calm: nat)
    requires calm < |hs|
    requires forall k :: calm <= k < |hs| - 1 ==> hs[k + 1].state.Running? || Rank(hs[k + 1]) < Rank(hs[k])
    ensures var last := hs[|hs| - 1]; last.state.Running? || Rank(last) <= 260 - (|hs| - 1 - calm)
    decreases |hs|
  {
    if calm < |hs| - 1 {
      var n := |hs| - 1;
      RanksFall(hs[..n], calm);
      assert hs[..n][n - 1] == hs[n - 1] && hs[n - 1 + 1] == hs[n];
    }
  }

  ghost function Visited(h: Hub, host: Host, i: nat, n: nat): (hs: seq<Hub>)
    ensures |hs| == n + 1 && forall k :: 0 <= k <= n ==> hs[k] == AfterCalls(h, host, i, k)
  {
    seq(n + 1, k requires 0 <= k <= n => AfterCalls(h, host, i, k))
  }

  lemma CalmCalls(h: Hub, host: Host, i: nat, calm: nat, n: nat)
    requires n >= calm + 260 && forall k :: calm <= k < n ==> GoodCall(h, host, i, k)
    ensures AfterCalls(h, host, i, n).state.Running?
  {
    var hs := Visited(h, host, i, n);
    forall k | calm <= k < n ensures hs[k + 1].state.Running? || Rank(hs[k + 1]) < Rank(hs[k]) {
      assert GoodCall(h, host, i, k);
      GoodCallAdvances(hs[k], host(i, k));
    }
    RanksFall(hs, calm);
  }

  /** If every request succeeds in the rounds from `calm` on, the loop ends within 260 more. */
  lemma CalmHostEnds(ds: seq<Option<Hub>>, host: Host, calm: nat, n: nat)
    requires n >= calm + 260 && forall i, k :: k >= calm ==> Succeeds(host(i, k))
    ensures Ended(After(ds, IsRunning(), Call(host), n), IsRunning())
  {
    LoopEndsExactly(ds, host, n);
    if !StoppedBy(ds, host, n) {
      forall i | 0 <= i < |ds| && ds[i].Some? ensures AfterCalls(ds[i].value, host, i, n).state.Running? {
        forall k | calm <= k < n ensures GoodCall(ds[i].value, host, i, k) {
          assert !StoppedAt(ds, host, i, k);
        }
        CalmCalls(ds[i].value, host, i, calm, n);
      }
    }
  }

  lemma NextGoodCall(h: Hub, s: Script)
    requires ConfigKnown(h) && Succeeds(s)
    ensures ConfigKnown(Fsm(h, s).0) && !Final(Fsm(h, s).1)
  {
    if !h.state.Running? {
      FsmAdvances(h, s);
    }
  }

  lemma {:induction false} GoodCalls(h: Hub, host: Host, i: nat, n: nat)
    requires ConfigKnown(h) && forall k :: 0 <= k <= n ==> Succeeds(host(i, k))
    ensures ConfigKnown(AfterCalls(h, host, i, n)) && GoodCall(h, host, i, n)
  {
    if n > 0 {
      GoodCalls(h, host, i, n - 1);
      NextGoodCall(AfterCalls(h, host, i, n - 1), host(i, n - 1));
    }
    NextGoodCall(AfterCalls(h, host, i, n), host(i, n));
  }

  /** A host on which every request succeeds leaves every hub running after 260 rounds. */
  lemma GoodHostRuns(ds: seq<Option<Hub>>, host: Host, n: nat)
    requires n >= 260 && forall i, k :: Succeeds(host(i, k))
    requires forall i :: 0 <= i < |ds| && ds[i].Some? ==> ConfigKnown(ds[i].value)
    ensures var p := After(ds, IsRunning(), Call(host), n); p.result.Fine? && AllIdle(p.devices, IsRunning())
  {
    CalmHostEnds(ds, host, 0, n);
    LoopEndsExactly(ds, host, n);
    forall i, k | 0 <= i < |ds| && ds[i].Some? && 0 <= k < n ensures !StoppedAt(ds, host, i, k) {
      GoodCalls(ds[i].value, host, i, k);
    }
  }

  class HubDriver {
    const devices: array<Option<Hub>>

    constructor (maxDevices: nat)
      ensures fresh(devices) && devices.Length == maxDevices
      ensures forall i :: 0 <= i < devices.Length ==> devices[i] == None
    {
      devices := new Option<Hub>[maxDevices](_ => None);
    }

    /** Round number `round`, which starts at time `start`. */
    method Round(host: Host, start: nat, round: nat) returns (millis: nat, r: Result)
      requires start == (round + 1) * PERIOD
      modifies devices
      ensures Pass(devices[..], millis, r) ==
        PassUpTo(old(devices[..]), IsRunning(), Call(host), round, devices.Length)
    {
      ghost var ds, call := devices[..], Call(host);
      millis := start;
      for i := 0 to devices.Length
        invariant Pass(devices[..], millis, Fine) == PassUpTo(ds, IsRunning(), call, round, i)
        invariant forall j :: i <= j < devices.Length ==> devices[j] == ds[j]
      {
        NextDevice(ds, IsRunning(), call, round, i, Pass(devices[..], millis, Fine));
        if devices[i].Some? && !devices[i].value.state.Running? {
          var (h, outcome) := Fsm(devices[i].value, host(i, round));
          devices[i] := Some(h);
          if outcome == GiveUp || outcome == Panicked {
            FailedStays(ds, IsRunning(), call, round, i + 1, devices.Length);
            return millis, outcome;
          }
          millis := millis + 1;
        }
      }
      r := Fine;
    }

    /** The driver is as the loop leaves it after `round` rounds without an end. */
    ghost predicate Reached(ds: seq<Option<Hub>>, host: Host, round: nat)
      reads devices
    {
      var p := After(ds, IsRunning(), Call(host), round);
      devices[..] == p.devices && p.result.Fine?
    }

    /** The loop has ended as after `n` rounds, with result `r`. */
    ghost predicate Finished(ds: seq<Option<Hub>>, host: Host, n: nat, r: Result)
      reads devices
    {
      var p := After(ds, IsRunning(), Call(host), n);
      devices[..] == p.devices && r == p.result
    }

    /** The body of the loop. */
    method Tick(host: Host, millis: nat, round: nat, ghost ds: seq<Option<Hub>>, ghost n: nat)
      returns (millis': nat, round': nat, r: Result)
      requires InPeriod(millis, round) && round <= n && devices.Length < PERIOD
      requires Reached(ds, host, round) && !AllIdle(devices[..], IsRunning())
      requires Ended(After(ds, IsRunning(), Call(host), n), IsRunning())
      modifies devices
      ensures InPeriod(millis', round') && round' <= n
      ensures (round' == round && millis' == millis + 1) || round' == round + 1
      ensures if r.Fine? then Reached(ds, host, round') else Finished(ds, host, n, r)
    {
      var due: bool;
      round', r := round, Fine;
      millis', due := CountOn(millis, round);
      if due {
        ghost var before := devices[..];
        millis', r := Round(host, millis', round);
        round' := round + 1;
        RoundTaken(ds, IsRunning(), Call(host), round, n, before, Pass(devices[..], millis', r));
      }
    }

    /** The loop, on a host on which it ends within `n` rounds. */
    method RunLoop(host: Host, ghost n: nat) returns (r: Result, ghost rounds: nat, ghost elapsed: nat)
      requires devices.Length < PERIOD
      requires Ended(After(devices[..], IsRunning(), Call(host), n), IsRunning())
      modifies devices
      ensures rounds <= n && InPeriod(elapsed, rounds) && Finished(old(devices[..]), host, n, r)
    {
      ghost var ds := devices[..];
      var millis: nat, round: nat := 0, 0;
      r := Fine;
      while r.Fine? && !AllIdle(devices[..], IsRunning())
        invariant InPeriod(millis, round) && round <= n
        invariant if r.Fine? then Reached(ds, host, round) else Finished(ds, host, n, r)
        decreases n - round, (round + 1) * PERIOD - millis
      {
        millis, round, r := Tick(host, millis, round, ds, n);
      }
      if r.Fine? {
        EndedStays(ds, IsRunning(), Call(host), round, n);
      }
      rounds, elapsed := round, millis;
    }

    /** The loop ends after `n` rounds or sooner if and only if by then the answers have brought every hub to run or
        have stopped one (`LoopEndsExactly`, `NewHubsEndExactly`); on other hosts it never returns. */
    method TickUntilRunning(host: Host, ghost n: nat) returns (r: Result, ghost rounds: nat, ghost elapsed: nat)
      requires devices.Length < PERIOD
      requires AllServed(devices[..], host, n) || StoppedBy(devices[..], host, n)
      modifies devices
      ensures rounds <= n && InPeriod(elapsed, rounds) && Finished(old(devices[..]), host, n, r)
      ensures Outcome(old(devices[..]), devices[..], host, n, r)
    {
      LoopResult(devices[..], host, n);
      r, rounds, elapsed := RunLoop(host, n);
    }
  }
}
