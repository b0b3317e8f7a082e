/** The hub driver's state machine (kernel/src/usb/class_driver/hub.rs:109-526; sections 11.23 and 11.24 of the
    USB 2.0 specification). */
module Hubs {
  import opened Basics
  import Descriptors

  datatype HubState = Addressed | GetConfig | SetConfig | GetHubDescriptor | InitPort(port: Byte) | Running

  /** How the host answers one request: the bytes transferred, or an error. */
  datatype Reply = Ok(data: seq<Byte>) | Retry | Permanent

  datatype Result = Fine | TryLater | GiveUp | Panicked

  /** What the driver has seen and done on the downstream ports. */
  datatype Note = SawConnected(port: Byte) | SawEmpty(port: Byte) | Assigned(port: Byte)

  datatype Hub = Hub(state: HubState, numberOfPorts: Byte, configured: bool, notes: seq<Note>)

  function NewHub(): Hub {
    Hub(Addressed, 0, false, [])
  }

  predicate IsOk(r: Reply) {
    r.Ok?
  }

  function ErrorOf(r: Reply): Result
    requires !r.Ok?
  {
    if r.Retry? then TryLater else GiveUp
  }

  // Reading the configuration, as hubs and input devices do

  const CONFIG_BUFFER_LEN := 256

  datatype ConfigRead = Bytes(buf: seq<Byte>) | Stop(why: Result)

  /** The configuration descriptor alone tells the length of the whole; both transfers must have the length asked
      for, or an assertion fails. */
  function ReadConfig(header: Reply, config: Reply): ConfigRead {
    if !header.Ok? then Stop(ErrorOf(header))
    else if |header.data| != 9 then Stop(Panicked)
    else
      var total := header.data[2] + 256 * header.data[3] as int;
      if total > CONFIG_BUFFER_LEN then Stop(GiveUp)
      else if !config.Ok? then Stop(ErrorOf(config))
      else if |config.data| != total then Stop(Panicked)
      else Bytes(config.data)
  }

  /** Reading a configuration whose own descriptor announces `total` bytes (bytes 2 and 3, low byte first). */
  lemma ReadConfigReads(header: seq<Byte>, total: nat, config: Reply)
    requires |header| == 9 && header[2] + 256 * header[3] as int == total
    ensures total > 256 ==> ReadConfig(Ok(header), config) == Stop(GiveUp)
    ensures total <= 256 ==>
      match config
      case Ok(buf) => ReadConfig(Ok(header), config) == if |buf| == total then Bytes(buf) else Stop(Panicked)
      case Retry => ReadConfig(Ok(header), config) == Stop(TryLater)
      case Permanent => ReadConfig(Ok(header), config) == Stop(GiveUp)
  {}

  /** Without the nine bytes of a configuration descriptor nothing is read. */
  lemma ReadConfigFails(header: Reply, config: Reply)
    ensures header.Ok? && |header.data| != 9 ==> ReadConfig(header, config) == Stop(Panicked)
    ensures header.Retry? ==> ReadConfig(header, config) == Stop(TryLater)
    ensures header.Permanent? ==> ReadConfig(header, config) == Stop(GiveUp)
  {}

  /** An encoded configuration descriptor, and the bytes it announces. */
  lemma ReadsEncoded(d: Descriptors.Descriptor, buf: seq<Byte>)
    requires d.Configuration? && d.totalLength == |buf| < 0x1_0000
    ensures ReadConfig(Ok(Descriptors.Encode(d)), Ok(buf)) == if |buf| <= 256 then Bytes(buf) else Stop(GiveUp)
  {
    ReadConfigReads(Descriptors.Encode(d), |buf|, Ok(buf));
  }

  predicate HasConfiguration(ds: seq<Descriptors.Descriptor>) {
    exists i :: 0 <= i < |ds| && ds[i].Configuration?
  }

  /** The byte at `i` of a zeroed buffer after the transfer. */
  function ByteAt(r: Reply, i: nat): Byte
    requires r.Ok?
  {
    if i < |r.data| then r.data[i] else 0
  }

  /** The seven requests of one port, answered in turn. */
  type PortScript = s: seq<Reply> | |s| == 7 witness [Retry, Retry, Retry, Retry, Retry, Retry, Retry]

  /** How the host would answer each request of one call. */
  datatype Script = Script(header: Reply, config: Reply, select: Reply, register: Reply, hub: Reply, port: PortScript)

  /** Power, clear change, read status; on a connected port reset, clear, read status again, hand over. */
  function PortFsm(h: Hub, s: PortScript): (Hub, Result)
    requires h.state.InitPort? && h.state.port < h.numberOfPorts
  {
    var p := h.state.port;
    if !IsOk(s[0]) then (h, ErrorOf(s[0]))
    else if !IsOk(s[1]) then (h, ErrorOf(s[1]))
    else if !IsOk(s[2]) then (h, ErrorOf(s[2]))
    else if ByteAt(s[2], 0) % 2 == 0 then (h.(state := InitPort(p + 1), notes := h.notes + [SawEmpty(p)]), Fine)
    else
      var h1 := h.(notes := h.notes + [SawConnected(p)]);
      if !IsOk(s[3]) then (h1, ErrorOf(s[3]))
      else if !IsOk(s[4]) then (h1, ErrorOf(s[4]))
      else if !IsOk(s[5]) then (h1, ErrorOf(s[5]))
      else
        var h2 := h1.(notes := h1.notes + [Assigned(p)]);
        if !IsOk(s[6]) then (h2, Panicked) else (h2.(state := InitPort(p + 1)), Fine)
  }

  function ConfigFsm(h: Hub, s: Script): (Hub, Result) {
    match ReadConfig(s.header, s.config)
    case Stop(why) => (h, why)
    case Bytes(buf) =>
      match Descriptors.Parse(buf)
      case None => (h, Panicked)
      case Some(ds) => (h.(state := SetConfig, configured := h.configured || HasConfiguration(ds)), Fine)
  }

  function Fsm(h: Hub, s: Script): (Hub, Result) {
    match h.state
    case Addressed => (h.(state := GetConfig), Fine)
    case GetConfig => ConfigFsm(h, s)
    case SetConfig =>
      if !h.configured then (h, Panicked)
      else if !IsOk(s.select) then (h, ErrorOf(s.select))
      else if !IsOk(s.register) then (h, Panicked)
      else (h.(state := GetHubDescriptor), Fine)
    case GetHubDescriptor =>
      if !IsOk(s.hub) then (h, ErrorOf(s.hub))
      else (h.(numberOfPorts := ByteAt(s.hub, 2), state := InitPort(0)), Fine)
    case InitPort(p) => if p < h.numberOfPorts then PortFsm(h, s.port) else (h.(state := Running), Fine)
    case Running => (h, Fine)
  }

  // The transitions, byte by byte

  /** Byte `i` of a transfer into zeroed memory. */
  lemma ByteAtReads(data: seq<Byte>, i: nat)
    ensures ByteAt(Ok(data), i) == if i < |data| then data[i] else 0
  {}

  /** A hub whose configuration is well formed goes on to its selection. */
  lemma ConfigFsmReads(h: Hub, s: Script, d: Descriptors.Descriptor, raws: seq<seq<Byte>>)
    requires h.state.GetConfig? && Descriptors.AllWellFormed(raws) && |Descriptors.Concat(raws)| <= 256
    requires d.Configuration? && d.totalLength == |Descriptors.Concat(raws)|
    requires s.header == Ok(Descriptors.Encode(d)) && s.config == Ok(Descriptors.Concat(raws))
    ensures Fsm(h, s) ==
      (Hub(SetConfig, h.numberOfPorts, h.configured || exists i :: 0 <= i < |raws| && raws[i][1] == 2, h.notes), Fine)
  {
    ReadsEncoded(d, Descriptors.Concat(raws));
    Descriptors.ParseRoundTrip(raws);
    ConfigurationReads(raws);
  }

  lemma ConfigurationReads(raws: seq<seq<Byte>>)
    requires Descriptors.AllWellFormed(raws)
    ensures HasConfiguration(Descriptors.Interpreted(raws)) <==> exists i :: 0 <= i < |raws| && raws[i][1] == 2
  {
    var ds := Descriptors.Interpreted(raws);
    assert forall i :: 0 <= i < |raws| ==> (ds[i].Configuration? <==> raws[i][1] == 2);
  }

  /** The states follow each other in this order, one answer each. */
  lemma FsmReads(h: Hub, s: Script)
    ensures h.state.Addressed? ==> Fsm(h, s) == (Hub(GetConfig, h.numberOfPorts, h.configured, h.notes), Fine)
    ensures h.state.SetConfig? && h.configured && s.select.Ok? && s.register.Ok? ==>
      Fsm(h, s) == (Hub(GetHubDescriptor, h.numberOfPorts, h.configured, h.notes), Fine)
    ensures h.state.GetHubDescriptor? && s.hub.Ok? ==>
      Fsm(h, s) == (Hub(InitPort(0), if |s.hub.data| > 2 then s.hub.data[2] else 0, h.configured, h.notes), Fine)
    ensures h.state.InitPort? && h.state.port >= h.numberOfPorts ==>
      Fsm(h, s) == (Hub(Running, h.numberOfPorts, h.configured, h.notes), Fine)
    ensures h.state.Running? ==> Fsm(h, s) == (h, Fine)
  {}

  /** A port whose status shows no connection is passed over; one that shows it is handed over after its reset. */
  lemma PortFsmReads(h: Hub, p: PortScript)
    requires h.state.InitPort? && h.state.port < h.numberOfPorts && p[0].Ok? && p[1].Ok? && p[2].Ok?
    ensures var i, connected := h.state.port, p[2].data != [] && p[2].data[0] % 2 == 1;
      && (!connected ==>
           PortFsm(h, p) == (Hub(InitPort(i + 1), h.numberOfPorts, h.configured, h.notes + [SawEmpty(i)]), Fine))
      && (connected && p[3].Ok? && p[4].Ok? && p[5].Ok? && p[6].Ok? ==>
           PortFsm(h, p) ==
             (Hub(InitPort(i + 1), h.numberOfPorts, h.configured, h.notes + [SawConnected(i), Assigned(i)]), Fine))
  {
    assert h.notes + [SawConnected(h.state.port)] + [Assigned(h.state.port)] ==
           h.notes + [SawConnected(h.state.port), Assigned(h.state.port)];
  }

  /** A request that fails changes no more than what was noted before it, and is reported as it is. */
  lemma FsmFails(h: Hub, s: Script)
    ensures var asked := match h.state
              case SetConfig => if h.configured then s.select else Ok([])
              case GetHubDescriptor => s.hub
              case _ => Ok([]);
      (asked.Retry? ==> Fsm(h, s) == (h, TryLater)) && (asked.Permanent? ==> Fsm(h, s) == (h, GiveUp))
    ensures h.state.SetConfig? && !h.configured ==> Fsm(h, s) == (h, Panicked)
    ensures h.state.SetConfig? && h.configured && s.select.Ok? && !s.register.Ok? ==> Fsm(h, s) == (h, Panicked)
  {}

  /** The ports below which everything is settled. */
  function Settled(h: Hub): nat {
    match h.state
    case InitPort(p) => p
    case Running => h.numberOfPorts
    case _ => 0
  }

  function Handed(notes: seq<Note>): seq<Byte> {
    if notes == [] then []
    else
      var init, last := Handed(notes[..|notes| - 1]), notes[|notes| - 1];
      if last.Assigned? then init + [last.port] else init
  }

  predicate Increasing(ports: seq<Byte>) {
    forall i, j :: 0 <= i < j < |ports| ==> ports[i] < ports[j]
  }

  /** A hand-over directly follows a status that showed a connection. */
  predicate AfterConnected(notes: seq<Note>) {
    forall i :: 0 <= i < |notes| && notes[i].Assigned? ==> i > 0 && notes[i - 1] == SawConnected(notes[i].port)
  }

  /** Every port below `settled`, and no other, was handed over or seen empty, and not both. */
  predicate Accounted(notes: seq<Note>, handed: seq<Byte>, settled: nat) {
    && (forall p: Byte :: p < settled ==> (SawEmpty(p) in notes <==> p !in handed))
    && (forall p: Byte :: SawEmpty(p) in notes ==> p < settled)
    && (forall i :: 0 <= i < |handed| ==> handed[i] < settled)
  }

  /** Hand-overs increase, stay below the settled ports and follow a status that showed a connection; every
      settled port was handed over or seen empty, and not both. */
  predicate Orderly(h: Hub) {
    && Settled(h) <= h.numberOfPorts
    && Increasing(Handed(h.notes)) && AfterConnected(h.notes) && Accounted(h.notes, Handed(h.notes), Settled(h))
  }

  lemma HandedAppend(notes: seq<Note>, n: Note)
    ensures Handed(notes + [n]) == if n.Assigned? then Handed(notes) + [n.port] else Handed(notes)
  {
    assert (notes + [n])[..|notes|] == notes;
  }

  lemma AccountedEmpty(notes: seq<Note>, handed: seq<Byte>, p: Byte)
    requires Accounted(notes, handed, p)
    ensures Accounted(notes + [SawEmpty(p)], handed, p + 1)
  {}

  lemma AccountedHandedOver(notes: seq<Note>, handed: seq<Byte>, p: Byte)
    requires Accounted(notes, handed, p)
    ensures Accounted(notes + [Assigned(p)], handed + [p], p + 1)
  {}

  lemma EmptyPortKeeps(h: Hub, p: Byte)
    requires Orderly(h) && h.state == InitPort(p) && p < h.numberOfPorts
    ensures Orderly(h.(state := InitPort(p + 1), notes := h.notes + [SawEmpty(p)]))
  {
    HandedAppend(h.notes, SawEmpty(p));
    AccountedEmpty(h.notes, Handed(h.notes), p);
  }

  lemma ConnectedPortKeeps(h: Hub, p: Byte)
    requires Orderly(h) && h.state == InitPort(p)
    ensures Orderly(h.(notes := h.notes + [SawConnected(p)]))
  {
    HandedAppend(h.notes, SawConnected(p));
  }

  lemma HandOverKeeps(h: Hub, p: Byte)
    requires Orderly(h) && h.state == InitPort(p) && p < h.numberOfPorts
    requires h.notes != [] && h.notes[|h.notes| - 1] == SawConnected(p)
    ensures Orderly(h.(state := InitPort(p + 1), notes := h.notes + [Assigned(p)]))
  {
    HandedAppend(h.notes, Assigned(p));
    AccountedHandedOver(h.notes, Handed(h.notes), p);
  }

  lemma PortFsmKeeps(h: Hub, s: PortScript)
    requires Orderly(h) && h.state.InitPort? && h.state.port < h.numberOfPorts && PortFsm(h, s).1 != Panicked
    ensures Orderly(PortFsm(h, s).0)
  {
    var p := h.state.port;
    if IsOk(s[0]) && IsOk(s[1]) && IsOk(s[2]) {
      if ByteAt(s[2], 0) % 2 == 0 {
        EmptyPortKeeps(h, p);
      } else {
        ConnectedPortKeeps(h, p);
        HandOverKeeps(h.(notes := h.notes + [SawConnected(p)]), p);
      }
    }
  }

  lemma FsmKeeps(h: Hub, s: Script)
    requires Orderly(h) && QuietBefore(h) && Fsm(h, s).1 != Panicked
    ensures Orderly(Fsm(h, s).0) && QuietBefore(Fsm(h, s).0)
  {
    if h.state.InitPort? && h.state.port < h.numberOfPorts {
      PortFsmKeeps(h, s.port);
    } else {
      assert Fsm(h, s).0.notes == h.notes;
    }
  }

  /** Nothing is noted before the port phase. */
  predicate QuietBefore(h: Hub) {
    !h.state.InitPort? && !h.state.Running? ==> h.notes == []
  }

  ghost predicate IsRun(run: seq<Hub>, scripts: seq<Script>) {
    && |run| == |scripts| + 1 && run[0] == NewHub()
    && forall k :: 0 <= k < |scripts| ==>
      Fsm(run[k], scripts[k]).1 != Panicked && run[k + 1] == Fsm(run[k], scripts[k]).0
  }

  /** Whatever fails and however often the machine is rerun: ports are handed over at most once, in increasing
      order, only after a status that showed a connection; a running hub has settled every port. */
  lemma {:induction false} PortsAreHandedOverOnce(run: seq<Hub>, scripts: seq<Script>, k: nat)
    requires IsRun(run, scripts) && k < |run|
    ensures Orderly(run[k]) && QuietBefore(run[k])
    decreases k
  {
    if k > 0 {
      PortsAreHandedOverOnce(run, scripts, k - 1);
      assert run[k - 1 + 1] == Fsm(run[k - 1], scripts[k - 1]).0;
      FsmKeeps(run[k - 1], scripts[k - 1]);
    }
  }

  class HubDevice {
    var state: HubState
    var numberOfPorts: Byte
    var configured: bool
    ghost var notes: seq<Note>

    ghost function View(): Hub
      reads this
    {
      Hub(state, numberOfPorts, configured, notes)
    }

    constructor ()
      ensures View() == Hub(Addressed, 0, false, [])
    {
      state, numberOfPorts, configured, notes := Addressed, 0, false, [];
    }

    method InitPortFsm(s: PortScript) returns (r: Result)
      requires state.InitPort? && state.port < numberOfPorts
      modifies this
      ensures (View(), r) == PortFsm(old(View()), s)
    {
      var port := state.port;
      for k := 0 to 3
        invariant forall j :: 0 <= j < k ==> IsOk(s[j])
        invariant View() == old(View())
      {
        if !IsOk(s[k]) {
          return ErrorOf(s[k]);
        }
      }
      if ByteAt(s[2], 0) % 2 == 0 {
        notes := notes + [SawEmpty(port)];
        state := InitPort(port + 1);
        return Fine;
      }
      notes := notes + [SawConnected(port)];
      for k := 3 to 6
        invariant forall j :: 3 <= j < k ==> IsOk(s[j])
        invariant View() == old(View()).(notes := old(notes) + [SawConnected(port)])
      {
        if !IsOk(s[k]) {
          return ErrorOf(s[k]);
        }
      }
      notes := notes + [Assigned(port)];
      if !IsOk(s[6]) {
        return Panicked;
      }
      state := InitPort(port + 1);
      return Fine;
    }

    method RunFsm(s: Script) returns (r: Result)
      modifies this
      ensures (View(), r) == Fsm(old(View()), s)
    {
      match state {
        case Addressed =>
          state := GetConfig;
        case GetConfig =>
          if !IsOk(s.header) {
            return ErrorOf(s.header);
          }
          if |s.header.data| != 9 {
            return Panicked;
          }
          var total := s.header.data[2] + 256 * s.header.data[3] as int;
          if total > CONFIG_BUFFER_LEN {
            return GiveUp;
          }
          if !IsOk(s.config) {
            return ErrorOf(s.config);
          }
          if |s.config.data| != total {
            return Panicked;
          }
          var ds := Descriptors.Parse(s.config.data);
          if ds.None? {
            return Panicked;
          }
          configured := configured || HasConfiguration(ds.value);
          state := SetConfig;
        case SetConfig =>
          if !configured {
            return Panicked;
          }
          if !IsOk(s.select) {
            return ErrorOf(s.select);
          }
          if !IsOk(s.register) {
            return Panicked;
          }
          state := GetHubDescriptor;
        case GetHubDescriptor =>
          if !IsOk(s.hub) {
            return ErrorOf(s.hub);
          }
          numberOfPorts := ByteAt(s.hub, 2);
          state := InitPort(0);
        case InitPort(p) =>
          if p < numberOfPorts {
            r := InitPortFsm(s.port);
            return;
          }
          state := Running;
        case Running =>
      }
      return Fine;
    }
  }
}
