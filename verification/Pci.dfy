/** The recursive PCI bus walk (kernel/src/pci/register.rs:342-374). */
module Pci {
  import opened Sequences

  type Bus = b: nat | b < 256
  type Device = d: nat | d < 32
  type Slot = f: nat | f < 8

  datatype Location = Location(bus: Bus, device: Device, function_: Slot)

  /** What the walk reads of a function: vendor id present, multi-function bit, PCI-to-PCI bridge class,
      secondary bus number. */
  datatype Header = Header(present: bool, multiFunction: bool, bridge: bool, secondary: Bus)

  type Config = Location -> Header

  /** The functions the walk looks at on a device. */
  predicate Probed(cfg: Config, x: Location) {
    var zero := cfg(Location(x.bus, x.device, 0));
    zero.present && (x.function_ == 0 || zero.multiFunction)
  }

  predicate Visible(cfg: Config, x: Location) {
    Probed(cfg, x) && cfg(x).present
  }

  predicate Bridge(cfg: Config, x: Location) {
    Probed(cfg, x) && cfg(x).bridge
  }

  /** Every bridge leads to a bus with a larger number. */
  ghost predicate Rising(cfg: Config) {
    forall x :: Bridge(cfg, x) ==> cfg(x).secondary > x.bus
  }

  /** No two bridges lead to the same bus. */
  ghost predicate OneParent(cfg: Config) {
    forall x, y :: Bridge(cfg, x) && Bridge(cfg, y) && cfg(x).secondary == cfg(y).secondary ==> x == y
  }

  // The walk

  /** The first `n` devices of a bus. */
  ghost function BusListing(cfg: Config, bus: Bus, n: nat): seq<Location>
    requires Rising(cfg) && n <= 32
    decreases 256 - bus, 1, n
  {
    if n == 0 then []
    else
      BusListing(cfg, bus, n - 1) +
      if cfg(Location(bus, n - 1, 0)).present then DeviceListing(cfg, bus, n - 1) else []
  }

  ghost function DeviceListing(cfg: Config, bus: Bus, device: Device): seq<Location>
    requires Rising(cfg) && cfg(Location(bus, device, 0)).present
    decreases 256 - bus, 0, 9
  {
    FunctionListings(cfg, bus, device, if cfg(Location(bus, device, 0)).multiFunction then 8 else 1)
  }

  ghost function FunctionListings(cfg: Config, bus: Bus, device: Device, n: nat): seq<Location>
    requires Rising(cfg) && cfg(Location(bus, device, 0)).present
    requires n <= if cfg(Location(bus, device, 0)).multiFunction then 8 else 1
    decreases 256 - bus, 0, n
  {
    if n == 0 then []
    else FunctionListings(cfg, bus, device, n - 1) + FunctionListing(cfg, Location(bus, device, n - 1))
  }

  ghost function FunctionListing(cfg: Config, x: Location): seq<Location>
    requires Rising(cfg) && Probed(cfg, x)
    decreases 256 - x.bus, 0, 0
  {
    (if cfg(x).bridge then BusListing(cfg, cfg(x).secondary, 32) else []) + if cfg(x).present then [x] else []
  }

  method ScanBus(cfg: Config, bus: Bus, devices: seq<Location>) returns (r: seq<Location>)
    requires Rising(cfg)
    ensures r == devices + BusListing(cfg, bus, 32)
    decreases 256 - bus, 2
  {
    r := devices;
    for device := 0 to 32
      invariant r == devices + BusListing(cfg, bus, device)
    {
      if cfg(Location(bus, device, 0)).present {
        r := ScanDevice(cfg, bus, device, r);
      }
    }
  }

  method ScanDevice(cfg: Config, bus: Bus, device: Device, devices: seq<Location>) returns (r: seq<Location>)
    requires Rising(cfg) && cfg(Location(bus, device, 0)).present
    ensures r == devices + DeviceListing(cfg, bus, device)
    decreases 256 - bus, 1
  {
    r := devices;
    if cfg(Location(bus, device, 0)).multiFunction {
      for f := 0 to 8
        invariant r == devices + FunctionListings(cfg, bus, device, f)
      {
        r := ScanFunction(cfg, Location(bus, device, f), r);
      }
    } else {
      r := ScanFunction(cfg, Location(bus, device, 0), r);
      assert FunctionListings(cfg, bus, device, 0) == [];
    }
  }

  method ScanFunction(cfg: Config, x: Location, devices: seq<Location>) returns (r: seq<Location>)
    requires Rising(cfg) && Probed(cfg, x)
    ensures r == devices + FunctionListing(cfg, x)
    decreases 256 - x.bus, 0
  {
    r := devices;
    if cfg(x).bridge {
      r := ScanBus(cfg, cfg(x).secondary, r);
    }
    if cfg(x).present {
      r := r + [x];
    }
  }

  // The subtree, by paths

  ghost predicate Leads(cfg: Config, a: Bus, b: Bus) {
    exists x: Location :: x.bus == a && Bridge(cfg, x) && cfg(x).secondary == b
  }

  ghost predicate IsPath(cfg: Config, path: seq<Bus>) {
    |path| >= 1 && forall i :: 0 <= i < |path| - 1 ==> Leads(cfg, path[i], path[i + 1])
  }

  ghost predicate Reaches(cfg: Config, a: Bus, b: Bus) {
    exists path: seq<Bus> :: IsPath(cfg, path) && path[0] == a && path[|path| - 1] == b
  }

  /** The functions that belong to the subtree of a bus. */
  ghost predicate InSubtree(cfg: Config, bus: Bus, x: Location) {
    Visible(cfg, x) && Reaches(cfg, bus, x.bus)
  }

  lemma ReachesSelf(cfg: Config, a: Bus)
    ensures Reaches(cfg, a, a)
  {
    var path: seq<Bus> := [a];
    assert IsPath(cfg, path) && path[0] == a && path[|path| - 1] == a;
  }

  lemma ReachesVia(cfg: Config, x: Location, b: Bus)
    requires Bridge(cfg, x) && Reaches(cfg, cfg(x).secondary, b)
    ensures Reaches(cfg, x.bus, b)
  {
    var tail: seq<Bus> :| IsPath(cfg, tail) && tail[0] == cfg(x).secondary && tail[|tail| - 1] == b;
    var path := [x.bus] + tail;
    assert Leads(cfg, path[0], path[1]);
    assert IsPath(cfg, path) && path[0] == x.bus && path[|path| - 1] == b;
  }

  /** A bus is either the root or reached through one of the root's bridges. */
  lemma ReachesSplits(cfg: Config, a: Bus, b: Bus) returns (x: Location)
    requires Reaches(cfg, a, b) && a != b
    ensures x.bus == a && Bridge(cfg, x) && Reaches(cfg, cfg(x).secondary, b)
  {
    var path: seq<Bus> :| IsPath(cfg, path) && path[0] == a && path[|path| - 1] == b;
    assert Leads(cfg, path[0], path[1]);
    x :| x.bus == path[0] && Bridge(cfg, x) && cfg(x).secondary == path[1];
    var tail := path[1..];
    forall i | 0 <= i < |tail| - 1 ensures Leads(cfg, tail[i], tail[i + 1]) {
      assert Leads(cfg, path[i + 1], path[i + 1 + 1]);
    }
    assert IsPath(cfg, tail) && tail[0] == cfg(x).secondary && tail[|tail| - 1] == b;
  }

  lemma {:induction false} PathsRise(cfg: Config, path: seq<Bus>)
    requires Rising(cfg) && IsPath(cfg, path)
    ensures path[0] <= path[|path| - 1]
    ensures |path| > 1 ==> path[0] < path[|path| - 1]
    decreases |path|
  {
    if |path| > 1 {
      var init := path[..|path| - 1];
      PathsRise(cfg, init);
      assert Leads(cfg, path[|path| - 2], path[|path| - 2 + 1]);
    }
  }

  // Membership

  /** Soundness and completeness for one function, given those for the buses below it. */
  lemma {:induction false} FunctionMembers(cfg: Config, x: Location, y: Location)
    requires Rising(cfg) && Probed(cfg, x)
    ensures y in FunctionListing(cfg, x) <==>
      (y == x && cfg(x).present) || (cfg(x).bridge && InSubtree(cfg, cfg(x).secondary, y))
    decreases 256 - x.bus, 0
  {
    if cfg(x).bridge {
      BusMembers(cfg, cfg(x).secondary, y);
    }
  }

  /** The part of the listing that the walk of function `f` contributes holds `y`. */
  ghost predicate FromFunction(cfg: Config, bus: Bus, device: Device, f: Slot, y: Location)
    requires Rising(cfg) && Probed(cfg, Location(bus, device, f))
  {
    y in FunctionListing(cfg, Location(bus, device, f))
  }

  lemma {:induction false} FunctionsMembers(cfg: Config, bus: Bus, device: Device, n: nat, y: Location)
    requires Rising(cfg) && cfg(Location(bus, device, 0)).present
    requires n <= if cfg(Location(bus, device, 0)).multiFunction then 8 else 1
    ensures y in FunctionListings(cfg, bus, device, n) <==>
      exists f: Slot :: f < n && FromFunction(cfg, bus, device, f, y)
    decreases n
  {
    if n > 0 {
      FunctionsMembers(cfg, bus, device, n - 1, y);
      assert y in FunctionListings(cfg, bus, device, n) <==>
        y in FunctionListings(cfg, bus, device, n - 1) || FromFunction(cfg, bus, device, n - 1, y);
    }
  }

  lemma {:induction false} BusDevices(cfg: Config, bus: Bus, n: nat, y: Location)
    requires Rising(cfg) && n <= 32
    ensures y in BusListing(cfg, bus, n) <==>
      exists x: Location :: x.bus == bus && x.device < n && Probed(cfg, x) && y in FunctionListing(cfg, x)
    decreases n
  {
    if n > 0 {
      BusDevices(cfg, bus, n - 1, y);
      if cfg(Location(bus, n - 1, 0)).present {
        var m := if cfg(Location(bus, n - 1, 0)).multiFunction then 8 else 1;
        FunctionsMembers(cfg, bus, n - 1, m, y);
        if y in DeviceListing(cfg, bus, n - 1) {
          var f: Slot :| f < m && FromFunction(cfg, bus, n - 1, f, y);
          assert Probed(cfg, Location(bus, n - 1, f));
        }
      }
      forall x: Location | x.bus == bus && x.device == n - 1 && Probed(cfg, x) && y in FunctionListing(cfg, x)
        ensures y in BusListing(cfg, bus, n)
      {
        assert FromFunction(cfg, bus, n - 1, x.function_, y);
      }
    }
  }

  /** The walk lists a function exactly when it is visible in the subtree of the bus. */
  lemma {:induction false} BusMembers(cfg: Config, bus: Bus, y: Location)
    requires Rising(cfg)
    ensures y in BusListing(cfg, bus, 32) <==> InSubtree(cfg, bus, y)
    decreases 256 - bus, 1
  {
    BusDevices(cfg, bus, 32, y);
    forall x: Location | x.bus == bus && Probed(cfg, x) && y in FunctionListing(cfg, x)
      ensures InSubtree(cfg, bus, y)
    {
      FunctionMembers(cfg, x, y);
      if y == x && cfg(x).present {
        ReachesSelf(cfg, bus);
      } else {
        ReachesVia(cfg, x, y.bus);
      }
    }
    if InSubtree(cfg, bus, y) {
      var x := y;
      if y.bus != bus {
        x := ReachesSplits(cfg, bus, y.bus);
      }
      FunctionMembers(cfg, x, y);
    }
  }

  // No duplicates

  /** Two paths that end on the same bus: one of their starts lies on the way of the other. */
  lemma {:induction false} PathsMeet(cfg: Config, p: seq<Bus>, q: seq<Bus>)
    requires OneParent(cfg) && IsPath(cfg, p) && IsPath(cfg, q) && p[|p| - 1] == q[|q| - 1]
    ensures Reaches(cfg, p[0], q[0]) || Reaches(cfg, q[0], p[0])
    decreases |p|
  {
    if |p| > 1 && |q| > 1 {
      assert Leads(cfg, p[|p| - 2], p[|p| - 2 + 1]) && Leads(cfg, q[|q| - 2], q[|q| - 2 + 1]);
      PathsMeet(cfg, p[..|p| - 1], q[..|q| - 1]);
    }
  }

  /** A bridge's bus is reached from a bus below it only through the bridge's own bus. */
  lemma SecondaryNotReached(cfg: Config, y: Location, s: Bus)
    requires Rising(cfg) && OneParent(cfg) && Bridge(cfg, y) && s > y.bus && s != cfg(y).secondary
    ensures !Reaches(cfg, s, cfg(y).secondary)
  {
    forall path: seq<Bus> | IsPath(cfg, path) && path[0] == s && path[|path| - 1] == cfg(y).secondary
      ensures false
    {
      assert Leads(cfg, path[|path| - 2], path[|path| - 2 + 1]);
      PathsRise(cfg, path[..|path| - 1]);
    }
  }

  lemma SubtreesDisjoint(cfg: Config, x: Location, y: Location, b: Bus)
    requires Rising(cfg) && OneParent(cfg) && Bridge(cfg, x) && Bridge(cfg, y) && x != y && x.bus == y.bus
    requires Reaches(cfg, cfg(x).secondary, b)
    ensures !Reaches(cfg, cfg(y).secondary, b)
  {
    var p: seq<Bus> :| IsPath(cfg, p) && p[0] == cfg(x).secondary && p[|p| - 1] == b;
    forall q: seq<Bus> | IsPath(cfg, q) && q[0] == cfg(y).secondary && q[|q| - 1] == b ensures false {
      PathsMeet(cfg, p, q);
      SecondaryNotReached(cfg, x, cfg(y).secondary);
      SecondaryNotReached(cfg, y, cfg(x).secondary);
    }
  }

  lemma ReachedIsNotBelow(cfg: Config, a: Bus, b: Bus)
    requires Rising(cfg) && Reaches(cfg, a, b)
    ensures a <= b
  {
    var path: seq<Bus> :| IsPath(cfg, path) && path[0] == a && path[|path| - 1] == b;
    PathsRise(cfg, path);
  }

  /** Different functions of a bus contribute different entries. */
  lemma PiecesDisjoint(cfg: Config, x: Location, x': Location, y: Location)
    requires Rising(cfg) && OneParent(cfg) && Probed(cfg, x) && Probed(cfg, x') && x != x' && x.bus == x'.bus
    requires y in FunctionListing(cfg, x)
    ensures y !in FunctionListing(cfg, x')
  {
    FunctionMembers(cfg, x, y);
    FunctionMembers(cfg, x', y);
    if cfg(x).bridge && InSubtree(cfg, cfg(x).secondary, y) {
      ReachedIsNotBelow(cfg, cfg(x).secondary, y.bus);
      if cfg(x').bridge {
        SubtreesDisjoint(cfg, x, x', y.bus);
      }
    } else if cfg(x').bridge && InSubtree(cfg, cfg(x').secondary, y) {
      ReachedIsNotBelow(cfg, cfg(x').secondary, y.bus);
    }
  }

  lemma {:induction false} FunctionNoDuplicates(cfg: Config, x: Location)
    requires Rising(cfg) && OneParent(cfg) && Probed(cfg, x)
    ensures NoDuplicates(FunctionListing(cfg, x))
    decreases 256 - x.bus, 0, 0
  {
    if cfg(x).bridge {
      var sub := BusListing(cfg, cfg(x).secondary, 32);
      BusNoDuplicates(cfg, cfg(x).secondary, 32);
      BusMembers(cfg, cfg(x).secondary, x);
      if x in sub {
        ReachedIsNotBelow(cfg, cfg(x).secondary, x.bus);
      }
      ConcatNoDuplicates(sub, if cfg(x).present then [x] else []);
    }
  }

  lemma {:induction false} FunctionsNoDuplicates(cfg: Config, bus: Bus, device: Device, n: nat)
    requires Rising(cfg) && OneParent(cfg) && cfg(Location(bus, device, 0)).present
    requires n <= if cfg(Location(bus, device, 0)).multiFunction then 8 else 1
    ensures NoDuplicates(FunctionListings(cfg, bus, device, n))
    decreases 256 - bus, 0, n
  {
    if n > 0 {
      var x := Location(bus, device, n - 1);
      FunctionsNoDuplicates(cfg, bus, device, n - 1);
      FunctionNoDuplicates(cfg, x);
      forall y | y in FunctionListings(cfg, bus, device, n - 1) ensures y !in FunctionListing(cfg, x) {
        FunctionsMembers(cfg, bus, device, n - 1, y);
        var f: Slot :| f < n - 1 && y in FunctionListing(cfg, Location(bus, device, f));
        PiecesDisjoint(cfg, Location(bus, device, f), x, y);
      }
      ConcatNoDuplicates(FunctionListings(cfg, bus, device, n - 1), FunctionListing(cfg, x));
    }
  }

  lemma {:induction false} BusNoDuplicates(cfg: Config, bus: Bus, n: nat)
    requires Rising(cfg) && OneParent(cfg) && n <= 32
    ensures NoDuplicates(BusListing(cfg, bus, n))
    decreases 256 - bus, 1, n
  {
    if n > 0 {
      BusNoDuplicates(cfg, bus, n - 1);
      if cfg(Location(bus, n - 1, 0)).present {
        var m := if cfg(Location(bus, n - 1, 0)).multiFunction then 8 else 1;
        FunctionsNoDuplicates(cfg, bus, n - 1, m);
        var before, here := BusListing(cfg, bus, n - 1), DeviceListing(cfg, bus, n - 1);
        forall y | y in before ensures y !in here {
          DevicesDisjoint(cfg, bus, n - 1, y);
        }
        ConcatNoDuplicates(before, here);
      }
    }
  }

  lemma DevicesDisjoint(cfg: Config, bus: Bus, device: Device, y: Location)
    requires Rising(cfg) && OneParent(cfg) && cfg(Location(bus, device, 0)).present
    requires y in BusListing(cfg, bus, device)
    ensures y !in DeviceListing(cfg, bus, device)
  {
    BusDevices(cfg, bus, device, y);
    var x: Location :| x.bus == bus && x.device < device && Probed(cfg, x) && y in FunctionListing(cfg, x);
    var m := if cfg(Location(bus, device, 0)).multiFunction then 8 else 1;
    FunctionsMembers(cfg, bus, device, m, y);
    forall f: Slot | f < m ensures y !in FunctionListing(cfg, Location(bus, device, f)) {
      PiecesDisjoint(cfg, x, Location(bus, device, f), y);
    }
  }

  /** On every configuration space whose bridges form a rising tree the walk lists every visible function of
      the subtree exactly once and nothing else. */
  lemma WalkIsCompleteAndDuplicateFree(cfg: Config, bus: Bus)
    requires Rising(cfg) && OneParent(cfg)
    ensures NoDuplicates(BusListing(cfg, bus, 32))
    ensures forall y :: y in BusListing(cfg, bus, 32) <==> InSubtree(cfg, bus, y)
  {
    BusNoDuplicates(cfg, bus, 32);
    forall y ensures y in BusListing(cfg, bus, 32) <==> InSubtree(cfg, bus, y) {
      BusMembers(cfg, bus, y);
    }
  }
}
