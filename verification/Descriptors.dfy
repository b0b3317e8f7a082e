/** Parsing configuration descriptors and choosing an endpoint (kernel/src/usb/descriptor.rs:44-91,
    kernel/src/usb/class_driver/keyboard.rs:45-78, kernel/src/usb/class_driver/mouse.rs:43-71;
    section 9.6 of the USB 2.0 specification). */
module Descriptors {
  import opened Basics

  datatype Descriptor =
    | Configuration(totalLength: nat, interfaces: Byte, value: Byte, name: Byte, attributes: Byte, maxPower: Byte)
    | Interface(number: Byte, alternate: Byte, endpoints: Byte, class_: Byte, subClass: Byte, protocol: Byte,
                name: Byte)
    | Endpoint(address: Byte, attributes: Byte, maxPacketSize: nat, interval: Byte)
    | Unknown

  /** The size of the structure a descriptor of this type is read as. */
  function StructSize(descriptorType: Byte): nat {
    match descriptorType
    case 2 => 9
    case 4 => 9
    case 5 => 7
    case _ => 2
  }

  /** The bytes of one descriptor: the length byte is the length, and it covers the structure. */
  predicate WellFormed(d: seq<Byte>) {
    |d| >= 2 && d[0] == |d| && |d| >= StructSize(d[1])
  }

  /** Reading the structure in place; bytes beyond it are ignored. */
  function Interpret(d: seq<Byte>): Descriptor
    requires |d| >= 2 && |d| >= StructSize(d[1])
  {
    match d[1]
    case 2 => Configuration(d[2] + 256 * d[3] as int, d[4], d[5], d[6], d[7], d[8])
    case 4 => Interface(d[2], d[3], d[4], d[5], d[6], d[7], d[8])
    case 5 => Endpoint(d[2], d[3], d[4] + 256 * d[5] as int, d[6])
    case _ => Unknown
  }

  /** `Fault` is an out-of-range index or a structure read past its slice. */
  datatype Next = End | Item(descriptor: Descriptor) | Fault

  /** One step of the iterator over the bytes not yet read. */
  function Step(rest: seq<Byte>): Next {
    if rest == [] then End
    else if rest[0] < 2 || rest[0] > |rest| || rest[0] < StructSize(rest[1]) then Fault
    else Item(Interpret(rest[..rest[0]]))
  }

  predicate BadLength(rest: seq<Byte>)
    requires rest != []
  {
    || rest[0] < 2 || rest[0] > |rest|
    || ((rest[1] == 2 || rest[1] == 4) && rest[0] < 9) || (rest[1] == 5 && rest[0] < 7)
  }

  /** A step stops at the end of the bytes, fails on a length that is out of range or too small for the type (9 bytes
      for configurations and interfaces, 7 for endpoints), and else reads the fields of an item off its bytes. */
  lemma NextReads(rest: seq<Byte>)
    ensures Step(rest).End? <==> rest == []
    ensures Step(rest).Fault? <==> rest != [] && BadLength(rest)
    ensures Step(rest).Item? ==> match Step(rest).descriptor
      case Configuration(t, n, v, i, a, p) =>
        rest[1] == 2 && t == rest[2] + 256 * rest[3] as int && [n, v, i, a, p] == rest[4..9]
      case Interface(n, alt, e, c, sc, p, i) => rest[1] == 4 && [n, alt, e, c, sc, p, i] == rest[2..9]
      case Endpoint(ad, at, m, i) =>
        rest[1] == 5 && ad == rest[2] && at == rest[3] && m == rest[4] + 256 * rest[5] as int && i == rest[6]
      case Unknown => rest[1] != 2 && rest[1] != 4 && rest[1] != 5
  {}

  class DescriptorIter {
    const data: seq<Byte>
    var readBytes: nat

    constructor (data: seq<Byte>)
      ensures this.data == data && readBytes == 0
    {
      this.data := data;
      readBytes := 0;
    }

    ghost function Rest(): seq<Byte>
      reads this
    {
      if readBytes <= |data| then data[readBytes..] else []
    }

    method NextDescriptor() returns (r: Next)
      modifies this
      ensures r == Step(old(Rest()))
      ensures r.Item? ==> Rest() == old(Rest())[old(Rest())[0]..] && readBytes <= |data|
      ensures !r.Item? ==> readBytes == old(readBytes)
    {
      if readBytes >= |data| {
        return End;
      }
      var length := data[readBytes];
      if readBytes + length > |data| || length < 2 || length < StructSize(data[readBytes + 1]) {
        return Fault;
      }
      var slice := data[readBytes..readBytes + length];
      assert slice == Rest()[..length];
      r := Item(Interpret(slice));
      readBytes := readBytes + length;
    }
  }

  /** All descriptors of a buffer, if the iterator reaches its end. */
  function Parse(data: seq<Byte>): Option<seq<Descriptor>>
    decreases |data|
  {
    match Step(data)
    case End => Some([])
    case Fault => None
    case Item(d) =>
      match Parse(data[data[0]..])
      case None => None
      case Some(ds) => Some([d] + ds)
  }

  function Concat(raws: seq<seq<Byte>>): seq<Byte> {
    if raws == [] then [] else raws[0] + Concat(raws[1..])
  }

  predicate AllWellFormed(raws: seq<seq<Byte>>) {
    forall i :: 0 <= i < |raws| ==> WellFormed(raws[i])
  }

  function Interpreted(raws: seq<seq<Byte>>): (ds: seq<Descriptor>)
    requires AllWellFormed(raws)
  {
    seq(|raws|, i requires 0 <= i < |raws| => Interpret(raws[i]))
  }

  /** Iterating the concatenation of well-formed descriptors yields exactly them, and stops. */
  lemma {:induction false} ParseRoundTrip(raws: seq<seq<Byte>>)
    requires AllWellFormed(raws)
    ensures Parse(Concat(raws)) == Some(Interpreted(raws))
  {
    if raws != [] {
      var first, data := raws[0], Concat(raws);
      ParseRoundTrip(raws[1..]);
      assert data[..data[0]] == first && data[data[0]..] == Concat(raws[1..]);
      assert Interpreted(raws) == [Interpret(first)] + Interpreted(raws[1..]);
    }
  }

  /** The way a buffer falls into descriptors. */
  function Split(data: seq<Byte>): (raws: seq<seq<Byte>>)
    requires Parse(data).Some?
    ensures AllWellFormed(raws) && Concat(raws) == data
    decreases |data|
  {
    if data == [] then []
    else
      var raws := [data[..data[0]]] + Split(data[data[0]..]);
      assert raws[1..] == Split(data[data[0]..]);
      raws
  }

  /** The iterator reaches the end of a buffer exactly when the buffer is such a concatenation. */
  lemma ParseSucceedsExactly(data: seq<Byte>)
    ensures Parse(data).Some? <==> exists raws :: AllWellFormed(raws) && Concat(raws) == data
  {
    if Parse(data).Some? {
      var raws := Split(data);
      assert AllWellFormed(raws) && Concat(raws) == data;
    }
    forall raws | AllWellFormed(raws) && Concat(raws) == data ensures Parse(data).Some? {
      ParseRoundTrip(raws);
    }
  }

  /** The layout of section 9.6 of the USB 2.0 specification, byte by byte. */
  function Encode(d: Descriptor): (r: seq<Byte>)
    requires !d.Unknown?
    requires d.Configuration? ==> d.totalLength < 0x1_0000
    requires d.Endpoint? ==> d.maxPacketSize < 0x1_0000
    ensures WellFormed(r)
    ensures d.Configuration? ==> |r| == 9 && r[1] == 2 && r[2] + 256 * r[3] as int == d.totalLength && r[5] == d.value
    ensures d.Interface? ==>
      |r| == 9 && r[1] == 4 && r[2] == d.number && r[5] == d.class_ && r[6] == d.subClass && r[7] == d.protocol
    ensures d.Endpoint? ==>
      && |r| == 7 && r[1] == 5 && r[2] == d.address && r[3] == d.attributes
      && r[4] + 256 * r[5] as int == d.maxPacketSize
  {
    match d
    case Configuration(t, n, v, i, a, p) => [9, 2, t % 256, t / 256, n, v, i, a, p]
    case Interface(n, alt, e, c, sc, p, i) => [9, 4, n, alt, e, c, sc, p, i]
    case Endpoint(ad, at, m, i) => [7, 5, ad, at, m % 256, m / 256, i]
  }

  lemma InterpretEncoded(d: Descriptor)
    requires !d.Unknown?
    requires d.Configuration? ==> d.totalLength < 0x1_0000
    requires d.Endpoint? ==> d.maxPacketSize < 0x1_0000
    ensures Interpret(Encode(d)) == d
  {}

  // Choosing an endpoint

  /** A boot keyboard also fixes the packet size; a mouse does not. */
  datatype Kind = Keyboard | Mouse

  predicate WantedInterface(kind: Kind, d: Descriptor) {
    && d.Interface? && d.class_ == 0x03 && d.subClass == 0x01
    && d.protocol == (if kind.Keyboard? then 0x01 else 0x02)
  }

  /** An interrupt IN endpoint. */
  predicate WantedEndpoint(kind: Kind, d: Descriptor) {
    && d.Endpoint? && d.address / 128 == 1 && d.attributes % 4 == 3
    && (kind.Keyboard? ==> d.maxPacketSize == 8)
  }

  /** `k` is the nearest interface before `j`. */
  predicate NearestInterface(ds: seq<Descriptor>, k: nat, j: nat)
    requires j <= |ds|
  {
    k < j && ds[k].Interface? && forall m :: k < m < j ==> !ds[m].Interface?
  }

  ghost predicate Qualifies(kind: Kind, ds: seq<Descriptor>, j: nat)
    requires j < |ds|
  {
    WantedEndpoint(kind, ds[j]) && exists k: nat :: NearestInterface(ds, k, j) && WantedInterface(kind, ds[k])
  }

  datatype Search = NotFound | Found(interfaceNumber: Byte, endpoint: Descriptor) | Crashed

  /** An interface replaces what is remembered; nothing else does. */
  function AfterDescriptor(kind: Kind, d: Descriptor, remembered: Option<Byte>): Option<Byte> {
    if !d.Interface? then remembered else if WantedInterface(kind, d) then Some(d.number) else None
  }

  /** The search over parsed descriptors, given the interface number remembered so far. */
  function Choose(kind: Kind, ds: seq<Descriptor>, remembered: Option<Byte>): Search
    decreases |ds|
  {
    if ds == [] then NotFound
    else if WantedEndpoint(kind, ds[0]) && remembered.Some? then Found(remembered.value, ds[0])
    else Choose(kind, ds[1..], AfterDescriptor(kind, ds[0], remembered))
  }

  /** The search as the source runs it, on the bytes; a fault after a hit is never reached. */
  function ChooseFromBytes(kind: Kind, data: seq<Byte>, remembered: Option<Byte>): Search
    decreases |data|
  {
    match Step(data)
    case End => NotFound
    case Fault => Crashed
    case Item(d) =>
      if WantedEndpoint(kind, d) && remembered.Some? then Found(remembered.value, d)
      else ChooseFromBytes(kind, data[data[0]..], AfterDescriptor(kind, d, remembered))
  }

  lemma {:induction false} FoundIsWanted(kind: Kind, data: seq<Byte>, remembered: Option<Byte>)
    ensures var r := ChooseFromBytes(kind, data, remembered); r.Found? ==> WantedEndpoint(kind, r.endpoint)
    decreases |data|
  {
    if Step(data).Item? {
      FoundIsWanted(kind, data[data[0]..], AfterDescriptor(kind, Step(data).descriptor, remembered));
    }
  }

  method SearchEndpoint(kind: Kind, buf: seq<Byte>) returns (r: Search)
    ensures r == ChooseFromBytes(kind, buf, None)
  {
    var parser := new DescriptorIter(buf);
    var interfaceFound: Option<Byte> := None;
    while true
      invariant parser.readBytes <= |buf| && parser.data == buf
      invariant ChooseFromBytes(kind, buf, None) == ChooseFromBytes(kind, parser.Rest(), interfaceFound)
      decreases |parser.Rest()|
    {
      ghost var rest := parser.Rest();
      var next := parser.NextDescriptor();
      if next.End? {
        return NotFound;
      }
      if next.Fault? {
        return Crashed;
      }
      var desc := next.descriptor;
      if desc.Interface? {
        interfaceFound := if WantedInterface(kind, desc) then Some(desc.number) else None;
      } else if WantedEndpoint(kind, desc) && interfaceFound.Some? {
        return Found(interfaceFound.value, desc);
      }
      assert parser.Rest() == rest[rest[0]..];
    }
  }

  method EpForBootKeyboard(buf: seq<Byte>) returns (r: Search)
    ensures r == ChooseFromBytes(Keyboard, buf, None)
  {
    r := SearchEndpoint(Keyboard, buf);
  }

  method EpForMouse(buf: seq<Byte>) returns (r: Search)
    ensures r == ChooseFromBytes(Mouse, buf, None)
  {
    r := SearchEndpoint(Mouse, buf);
  }

  lemma {:induction false} BytesAgreeWithParsed(kind: Kind, data: seq<Byte>, remembered: Option<Byte>)
    requires Parse(data).Some?
    ensures ChooseFromBytes(kind, data, remembered) == Choose(kind, Parse(data).value, remembered)
    decreases |data|
  {
    if data != [] {
      var d, ds := Step(data).descriptor, Parse(data).value;
      assert ds[1..] == Parse(data[data[0]..]).value;
      BytesAgreeWithParsed(kind, data[data[0]..], AfterDescriptor(kind, d, remembered));
    }
  }

  /** What `remembered` stands for after the first `n` descriptors. */
  ghost predicate Remembers(kind: Kind, ds: seq<Descriptor>, n: nat, remembered: Option<Byte>)
    requires n <= |ds|
  {
    match remembered
    case Some(number) =>
      exists k: nat :: NearestInterface(ds, k, n) && WantedInterface(kind, ds[k]) && ds[k].number == number
    case None => forall k: nat :: NearestInterface(ds, k, n) ==> !WantedInterface(kind, ds[k])
  }

  lemma RemembersNext(kind: Kind, ds: seq<Descriptor>, n: nat, remembered: Option<Byte>)
    requires n < |ds| && Remembers(kind, ds, n, remembered)
    ensures Remembers(kind, ds, n + 1, AfterDescriptor(kind, ds[n], remembered))
  {}

  /** The endpoint is the first qualifying one from `n` on, the number that of its interface. */
  ghost predicate FirstHit(kind: Kind, ds: seq<Descriptor>, n: nat, number: Byte, endpoint: Descriptor) {
    exists j, k: nat :: n <= j < |ds| && NearestInterface(ds, k, j) && WantedInterface(kind, ds[k]) &&
      Qualifies(kind, ds, j) && (forall i :: n <= i < j ==> !Qualifies(kind, ds, i)) &&
      number == ds[k].number && endpoint == ds[j]
  }

  /** The result of the search from position `n` on. */
  lemma {:induction false} ChooseFindsFirst(kind: Kind, ds: seq<Descriptor>, n: nat, remembered: Option<Byte>)
    requires n <= |ds| && Remembers(kind, ds, n, remembered)
    ensures match Choose(kind, ds[n..], remembered)
      case NotFound => forall j :: n <= j < |ds| ==> !Qualifies(kind, ds, j)
      case Found(number, endpoint) => FirstHit(kind, ds, n, number, endpoint)
      case Crashed => false
    decreases |ds| - n
  {
    if n < |ds| {
      assert ds[n..][1..] == ds[n + 1..];
      RemembersNext(kind, ds, n, remembered);
      if WantedEndpoint(kind, ds[n]) && remembered.Some? {
        var k: nat :| NearestInterface(ds, k, n) && WantedInterface(kind, ds[k]) && ds[k].number == remembered.value;
        assert Qualifies(kind, ds, n);
      } else {
        assert !Qualifies(kind, ds, n);
        ChooseFindsFirst(kind, ds, n + 1, AfterDescriptor(kind, ds[n], remembered));
      }
    }
  }

  /** On every list of well-formed descriptors the search returns the first interrupt IN endpoint whose nearest
      preceding interface has the wanted class triple, or nothing exactly when there is none. */
  lemma SearchFindsFirstQualifying(kind: Kind, raws: seq<seq<Byte>>)
    requires AllWellFormed(raws)
    ensures var ds := Interpreted(raws);
      match ChooseFromBytes(kind, Concat(raws), None)
      case NotFound => forall j :: 0 <= j < |ds| ==> !Qualifies(kind, ds, j)
      case Found(number, endpoint) => FirstHit(kind, ds, 0, number, endpoint)
      case Crashed => false
  {
    ParseRoundTrip(raws);
    BytesAgreeWithParsed(kind, Concat(raws), None);
    var ds := Interpreted(raws);
    assert ds[0..] == ds;
    ChooseFindsFirst(kind, ds, 0, None);
  }

  // The search on bytes

  /** An interface descriptor of a boot keyboard (class 3, subclass 1, protocol 1) or boot mouse (protocol 2). */
  predicate BootInterface(kind: Kind, raw: seq<Byte>)
    requires WellFormed(raw)
  {
    raw[1] == 4 && raw[5] == 3 && raw[6] == 1 && raw[7] == (match kind case Keyboard => 1 case Mouse => 2)
  }

  /** An endpoint descriptor with the direction bit set and interrupt transfers; a keyboard's packets are 8 bytes. */
  predicate InterruptIn(kind: Kind, raw: seq<Byte>)
    requires WellFormed(raw)
  {
    && raw[1] == 5 && raw[2] >= 128 && raw[3] % 4 == 3
    && (kind == Keyboard ==> raw[4] == 8 && raw[5] == 0)
  }

  /** `j` is such an endpoint and `k`, the nearest interface descriptor before it, such an interface. */
  ghost predicate Pair(kind: Kind, raws: seq<seq<Byte>>, k: nat, j: nat)
    requires AllWellFormed(raws)
  {
    && k < j < |raws| && InterruptIn(kind, raws[j]) && BootInterface(kind, raws[k])
    && forall m :: k < m < j ==> raws[m][1] != 4
  }

  ghost predicate HasPair(kind: Kind, raws: seq<seq<Byte>>, j: nat)
    requires AllWellFormed(raws)
  {
    exists k: nat :: Pair(kind, raws, k, j)
  }

  lemma PairQualifies(kind: Kind, raws: seq<seq<Byte>>, k: nat, j: nat)
    requires AllWellFormed(raws) && k < |raws| && j < |raws|
    ensures var ds := Interpreted(raws);
      Pair(kind, raws, k, j) <==>
      WantedEndpoint(kind, ds[j]) && NearestInterface(ds, k, j) && WantedInterface(kind, ds[k])
  {
    var ds := Interpreted(raws);
    assert forall m :: 0 <= m < |raws| ==> (ds[m].Interface? <==> raws[m][1] == 4);
  }

  lemma QualifiesReads(kind: Kind, raws: seq<seq<Byte>>, j: nat)
    requires AllWellFormed(raws) && j < |raws|
    ensures Qualifies(kind, Interpreted(raws), j) <==> HasPair(kind, raws, j)
  {
    var ds := Interpreted(raws);
    forall k: nat | k < j
      ensures Pair(kind, raws, k, j) <==>
        WantedEndpoint(kind, ds[j]) && NearestInterface(ds, k, j) && WantedInterface(kind, ds[k])
    {
      PairQualifies(kind, raws, k, j);
    }
    if Qualifies(kind, ds, j) {
      var k: nat :| NearestInterface(ds, k, j) && WantedInterface(kind, ds[k]);
      assert Pair(kind, raws, k, j);
    }
    if HasPair(kind, raws, j) {
      var k: nat :| Pair(kind, raws, k, j);
      assert NearestInterface(ds, k, j) && WantedInterface(kind, ds[k]);
    }
  }

  /** The bytes the search reports: the number of the interface, and the address and packet size of the first endpoint
      that has a pair. */
  ghost predicate Reports(kind: Kind, raws: seq<seq<Byte>>, k: nat, j: nat, number: Byte, ep: Descriptor)
    requires AllWellFormed(raws)
  {
    && Pair(kind, raws, k, j) && (forall i :: 0 <= i < j ==> !HasPair(kind, raws, i))
    && number == raws[k][2] && ep.Endpoint? && ep.address == raws[j][2] && ep.attributes == raws[j][3]
    && ep.maxPacketSize == raws[j][4] + 256 * raws[j][5] as int && ep.interval == raws[j][6]
  }

  ghost predicate FoundPair(kind: Kind, raws: seq<seq<Byte>>, number: Byte, ep: Descriptor)
    requires AllWellFormed(raws)
  {
    exists k: nat, j: nat :: Reports(kind, raws, k, j, number, ep)
  }

  /** On the bytes of any well-formed descriptors the search reports the first pair, or nothing exactly when there is
      none. */
  lemma SearchReads(kind: Kind, raws: seq<seq<Byte>>)
    requires AllWellFormed(raws)
    ensures match ChooseFromBytes(kind, Concat(raws), None)
      case NotFound => forall j: nat :: !HasPair(kind, raws, j)
      case Found(number, ep) => FoundPair(kind, raws, number, ep)
      case Crashed => false
    ensures ChooseFromBytes(kind, Concat(raws), None).Found? <==> exists j: nat :: HasPair(kind, raws, j)
  {
    SearchFindsFirstQualifying(kind, raws);
    var ds := Interpreted(raws);
    forall j | 0 <= j < |raws| ensures Qualifies(kind, ds, j) <==> HasPair(kind, raws, j) {
      QualifiesReads(kind, raws, j);
    }
    match ChooseFromBytes(kind, Concat(raws), None)
    case NotFound =>
    case Crashed =>
    case Found(number, ep) =>
      var j, k: nat :| 0 <= j < |ds| && NearestInterface(ds, k, j) && WantedInterface(kind, ds[k]) &&
        Qualifies(kind, ds, j) && (forall i :: 0 <= i < j ==> !Qualifies(kind, ds, i)) &&
        number == ds[k].number && ep == ds[j];
      PairQualifies(kind, raws, k, j);
      assert Reports(kind, raws, k, j, number, ep) && HasPair(kind, raws, j);
  }
}
