/** internal/android/port.go and internal/android/emulator_device.go: console and ADB port pairs, and the
    emulators that hold them. */
module Ports {
  import opened Options

  /** The console port of the first pair that is not in use, if any. */
  function LeastFree(port: int, maxPort: int, inUse: set<int>): Option<int>
    decreases maxPort - port
  {
    if port >= maxPort then None
    else if port !in inUse then Some(port)
    else LeastFree(port + 2, maxPort, inUse)
  }

  predicate IsPairPort(minPort: int, maxPort: int, port: int) {
    minPort <= port < maxPort && port % 2 == minPort % 2
  }

  /** A port found is free and the lowest free one; none is found exactly when all pairs are in use. */
  lemma {:induction false} LeastFreeIsFirst(minPort: int, maxPort: int, inUse: set<int>)
    ensures match LeastFree(minPort, maxPort, inUse)
            case Some(p) =>
              IsPairPort(minPort, maxPort, p) && p !in inUse
              && forall q :: IsPairPort(minPort, maxPort, q) && q < p ==> q in inUse
            case None => forall q :: IsPairPort(minPort, maxPort, q) ==> q in inUse
    decreases maxPort - minPort
  {
    if minPort < maxPort && minPort in inUse {
      LeastFreeIsFirst(minPort + 2, maxPort, inUse);
      assert forall q :: IsPairPort(minPort, maxPort, q) ==> q == minPort || IsPairPort(minPort + 2, maxPort, q);
      assert forall q :: IsPairPort(minPort + 2, maxPort, q) ==> IsPairPort(minPort, maxPort, q);
    }
  }

  function PairPorts(minPort: int, maxPort: int): set<int> {
    set p | minPort <= p < maxPort && IsPairPort(minPort, maxPort, p)
  }

  lemma {:induction false} PairPortsCount(minPort: int, maxPort: int)
    requires minPort <= maxPort
    ensures |PairPorts(minPort, maxPort)| == (maxPort - minPort + 1) / 2
    decreases maxPort - minPort
  {
    if maxPort - minPort >= 2 {
      PairPortsCount(minPort + 2, maxPort);
      assert (minPort + 2) % 2 == minPort % 2 && (minPort + 1) % 2 != minPort % 2;
      assert PairPorts(minPort, maxPort) == {minPort} + PairPorts(minPort + 2, maxPort);
    } else if maxPort - minPort == 1 {
      assert PairPorts(minPort, maxPort) == {minPort};
    } else {
      assert PairPorts(minPort, maxPort) == {};
    }
  }

  /** Go's division truncates toward zero. */
  function Quotient(a: int, b: int): int
    requires b > 0
  {
    if a >= 0 then a / b else -((-a) / b)
  }

  datatype PortPair = PortPair(console: int, adb: int)

  class PortAllocator {
    const minPort: int
    const maxPort: int
    var inUse: set<int>     // keyed by console port

    constructor (minPort: int, maxPort: int)
      ensures this.minPort % 2 == 0 && minPort <= this.minPort <= minPort + 1 && this.maxPort == maxPort
      ensures inUse == {}
    {
      this.minPort := if minPort % 2 != 0 then minPort + 1 else minPort;
      this.maxPort := maxPort;
      inUse := {};
    }

    method Allocate() returns (r: Option<PortPair>)
      modifies this
      ensures r == match LeastFree(minPort, maxPort, old(inUse)) case Some(p) => Some(PortPair(p, p + 1)) case None => None
      ensures inUse == if r.Some? then old(inUse) + {r.value.console} else old(inUse)
    {
      var port := minPort;
      while port < maxPort
        invariant inUse == old(inUse)
        invariant LeastFree(minPort, maxPort, inUse) == LeastFree(port, maxPort, inUse)
      {
        if port !in inUse {
          inUse := inUse + {port};
          return Some(PortPair(port, port + 1));
        }
        port := port + 2;
      }
      return None;
    }

    method Release(ports: PortPair)
      modifies this
      ensures inUse == old(inUse) - {ports.console}
    {
      inUse := inUse - {ports.console};
    }

    function Capacity(): int {
      Quotient(maxPort - minPort, 2)
    }
  }

  /** Allocate fails exactly at Capacity() leases when the upper bound is even. When it is odd one more pair
      is handed out, and its ADB port is the upper bound itself, which lies outside the range. */
  lemma AllocateFailsAtCapacity(a: PortAllocator)
    requires a.minPort % 2 == 0 && a.minPort <= a.maxPort
    requires forall p :: p in a.inUse ==> IsPairPort(a.minPort, a.maxPort, p)
    ensures LeastFree(a.minPort, a.maxPort, a.inUse).None? <==>
              |a.inUse| == a.Capacity() + (if a.maxPort % 2 == 0 then 0 else 1)
    ensures a.maxPort % 2 == 1 ==> IsPairPort(a.minPort, a.maxPort, a.maxPort - 1)
  {
    var all := PairPorts(a.minPort, a.maxPort);
    LeastFreeIsFirst(a.minPort, a.maxPort, a.inUse);
    PairPortsCount(a.minPort, a.maxPort);
    assert a.inUse <= all;
    if LeastFree(a.minPort, a.maxPort, a.inUse).None? {
      assert all <= a.inUse;
      assert a.inUse == all;
    } else {
      var p := LeastFree(a.minPort, a.maxPort, a.inUse).value;
      assert a.inUse <= all - {p};
      SubsetIsNoLarger(a.inUse, all - {p});
    }
  }

  /** Capacity() truncates toward zero, also for a range that is upside down. */
  lemma CapacityTruncates(a: PortAllocator)
    ensures var d := a.maxPort - a.minPort;
            && (d >= 0 ==> 2 * a.Capacity() <= d < 2 * a.Capacity() + 2)
            && (d <= 0 ==> 2 * a.Capacity() - 2 < d <= 2 * a.Capacity())
  {
  }

  lemma SubsetIsNoLarger<T>(a: set<T>, b: set<T>)
    requires a <= b
    ensures |a| <= |b|
  {
    assert b == a + (b - a);
  }

  class EmulatorDevice {
    var ports: PortPair
    var running: bool

    constructor ()
      ensures ports == PortPair(0, 0) && !running
    {
      ports, running := PortPair(0, 0), false;
    }

    /** booted is what starting the emulator gives. After a failed start the pair is back with the
        allocator, and the device still remembers it. */
    method Prepare(allocator: PortAllocator, booted: bool) returns (ok: bool)
      modifies this, allocator
      ensures match LeastFree(allocator.minPort, allocator.maxPort, old(allocator.inUse))
              case None => !ok && ports == old(ports) && running == old(running) && allocator.inUse == old(allocator.inUse)
              case Some(p) =>
                ok == booted && ports == PortPair(p, p + 1) && running == (booted || old(running))
                && allocator.inUse == if booted then old(allocator.inUse) + {p} else old(allocator.inUse)
    {
      LeastFreeIsFirst(allocator.minPort, allocator.maxPort, allocator.inUse);
      var got := allocator.Allocate();
      if got.None? {
        return false;
      }
      ports := got.value;
      if !booted {
        allocator.Release(ports);
        return false;
      }
      running := true;
      return true;
    }

    /** Gives the remembered pair back, whoever holds it now. */
    method Shutdown(allocator: PortAllocator)
      modifies this`running, allocator
      ensures !running
      ensures allocator.inUse == if ports.console != 0 then old(allocator.inUse) - {ports.console} else old(allocator.inUse)
    {
      running := false;
      if ports.console != 0 {
        allocator.Release(ports);
      }
    }
  }
}

/** Leases over whole runs of device operations, each taken as one step. */
module Leases {
  import opened Ports

  type DeviceId = nat

  /** console is what the device remembers, 0 for nothing; holds is true from a successful Prepare to the
      first Shutdown after it. */
  datatype Device = Device(console: int, holds: bool)

  datatype State = State(minPort: int, maxPort: int, inUse: set<int>, devices: map<DeviceId, Device>)

  /** The pool prepares each device once. */
  datatype Step = Prepare(device: DeviceId, booted: bool) | Shutdown(device: DeviceId)

  predicate Enabled(f: State, st: Step) {
    match st
    case Prepare(d, _) => d !in f.devices
    case Shutdown(d) => d in f.devices
  }

  function Apply(f: State, st: Step): State
    requires Enabled(f, st)
  {
    match st
    case Prepare(d, booted) =>
      (match LeastFree(f.minPort, f.maxPort, f.inUse)
       case None => f.(devices := f.devices[d := Device(0, false)])
       case Some(p) =>
         f.(inUse := if booted then f.inUse + {p} else f.inUse, devices := f.devices[d := Device(p, booted)]))
    case Shutdown(d) =>
      f.(inUse := if f.devices[d].console != 0 then f.inUse - {f.devices[d].console} else f.inUse,
         devices := f.devices[d := f.devices[d].(holds := false)])
  }

  /** The pairs held are marked in use and are different; so all their console and ADB ports are. */
  ghost predicate Sound(f: State) {
    && (forall d :: d in f.devices && f.devices[d].holds ==>
          f.devices[d].console in f.inUse && f.devices[d].console % 2 == 0 && f.devices[d].console > 0)
    && (forall d, e | d in f.devices && e in f.devices && f.devices[d].holds && f.devices[e].holds
                      && f.devices[d].console == f.devices[e].console :: d == e)
  }

  ghost predicate Range(f: State) {
    f.minPort % 2 == 0 && f.minPort > 0
  }

  /** What the two steps do, on the ports: Prepare takes the lowest pair that is free, keeps it if the boot
      succeeds, and remembers it in any case; Shutdown frees the pair remembered. */
  lemma LeaseStepsMean(f: State, d: DeviceId, booted: bool, p: int)
    ensures d !in f.devices && IsPairPort(f.minPort, f.maxPort, p) && p !in f.inUse
            && (forall q :: IsPairPort(f.minPort, f.maxPort, q) && q < p ==> q in f.inUse) ==>
              var g := Apply(f, Prepare(d, booted));
              g.devices == f.devices[d := Device(p, booted)] && g.inUse == if booted then f.inUse + {p} else f.inUse
    ensures d !in f.devices && (forall q :: IsPairPort(f.minPort, f.maxPort, q) ==> q in f.inUse) ==>
              var g := Apply(f, Prepare(d, booted));
              g.devices == f.devices[d := Device(0, false)] && g.inUse == f.inUse
    ensures d in f.devices ==>
              var g := Apply(f, Shutdown(d));
              && g.devices == f.devices[d := Device(f.devices[d].console, false)]
              && g.inUse == if f.devices[d].console == 0 then f.inUse else f.inUse - {f.devices[d].console}
  {
    LeastFreeIsFirst(f.minPort, f.maxPort, f.inUse);
  }

  lemma PrepareKeepsSound(f: State, d: DeviceId, booted: bool)
    requires Range(f) && Sound(f) && d !in f.devices
    ensures Sound(Apply(f, Prepare(d, booted)))
  {
    LeastFreeIsFirst(f.minPort, f.maxPort, f.inUse);
  }

  /** No other device holds the pair the device remembers. */
  ghost predicate OwnOrFree(f: State, d: DeviceId)
    requires d in f.devices
  {
    f.devices[d].console == 0
    || forall e :: e in f.devices && e != d && f.devices[e].holds ==> f.devices[e].console != f.devices[d].console
  }

  /** A Shutdown keeps the leases sound exactly when the pair it gives back is not held by another device. */
  lemma ShutdownIsSoundExactlyWhenOwnOrFree(f: State, d: DeviceId)
    requires Sound(f) && d in f.devices
    ensures Sound(Apply(f, Shutdown(d))) <==> OwnOrFree(f, d)
  {
    var g := Apply(f, Shutdown(d));
    if f.devices[d].console != 0 {
      forall e | e in f.devices && e != d && f.devices[e].holds && f.devices[e].console == f.devices[d].console
        ensures !Sound(g)
      {
        assert g.devices[e].holds && g.devices[e].console !in g.inUse;
      }
    }
  }

  ghost predicate Legal(f: State, run: seq<Step>)
    decreases |run|
  {
    run == [] || (Enabled(f, run[0]) && Legal(Apply(f, run[0]), run[1..]))
  }

  function Final(f: State, run: seq<Step>): State
    requires Legal(f, run)
    decreases |run|
  {
    if run == [] then f else Final(Apply(f, run[0]), run[1..])
  }

  ghost predicate SoundThroughout(f: State, run: seq<Step>)
    requires Legal(f, run)
    decreases |run|
  {
    Sound(f) && (run == [] || SoundThroughout(Apply(f, run[0]), run[1..]))
  }

  ghost predicate ReturnsOwn(f: State, run: seq<Step>)
    requires Legal(f, run)
    decreases |run|
  {
    run == [] || ((run[0].Shutdown? ==> OwnOrFree(f, run[0].device)) && ReturnsOwn(Apply(f, run[0]), run[1..]))
  }

  /** The leases are sound all along a run exactly when no Shutdown of the run gives back a pair that another
      emulator holds. */
  lemma {:induction false} RunIsSoundExactlyWhen(f: State, run: seq<Step>)
    requires Range(f) && Sound(f) && Legal(f, run)
    ensures SoundThroughout(f, run) <==> ReturnsOwn(f, run)
    decreases |run|
  {
    if run != [] {
      match run[0] {
        case Prepare(d, booted) => PrepareKeepsSound(f, d, booted);
        case Shutdown(d) => ShutdownIsSoundExactlyWhenOwnOrFree(f, d);
      }
      if Sound(Apply(f, run[0])) {
        RunIsSoundExactlyWhen(Apply(f, run[0]), run[1..]);
      }
    }
  }

  /** Every Shutdown of the run is of a device that holds its pair or remembers none: it found no pair, or its
      boot succeeded and it was not shut down yet. */
  ghost predicate ShutsDownOnce(f: State, run: seq<Step>)
    requires Legal(f, run)
    decreases |run|
  {
    run == [] ||
    ((run[0].Shutdown? ==> f.devices[run[0].device].holds || f.devices[run[0].device].console == 0)
     && ShutsDownOnce(Apply(f, run[0]), run[1..]))
  }

  lemma {:induction false} ShuttingDownOnceReturnsOwn(f: State, run: seq<Step>)
    requires Range(f) && Sound(f) && Legal(f, run) && ShutsDownOnce(f, run)
    ensures ReturnsOwn(f, run)
    decreases |run|
  {
    if run != [] {
      match run[0] {
        case Prepare(d, booted) => PrepareKeepsSound(f, d, booted);
        case Shutdown(d) => ShutdownIsSoundExactlyWhenOwnOrFree(f, d);
      }
      ShuttingDownOnceReturnsOwn(Apply(f, run[0]), run[1..]);
    }
  }

  lemma SoundPairsAreDisjoint(f: State)
    requires Sound(f)
    ensures forall d, e | d in f.devices && e in f.devices && d != e && f.devices[d].holds && f.devices[e].holds ::
              {f.devices[d].console, f.devices[d].console + 1} !! {f.devices[e].console, f.devices[e].console + 1}
  {
  }

  lemma {:induction false} SoundAtTheEnd(f: State, run: seq<Step>)
    requires Legal(f, run) && SoundThroughout(f, run)
    ensures Sound(Final(f, run))
    decreases |run|
  {
    if run != [] {
      SoundAtTheEnd(Apply(f, run[0]), run[1..]);
    }
  }

  /** Over every run in which no Shutdown returns another's pair, the ports held by different emulators are
      different, console and ADB ports alike, and stay marked in use. */
  lemma LeasesStayDisjoint(f: State, run: seq<Step>)
    requires Range(f) && Sound(f) && Legal(f, run) && ReturnsOwn(f, run)
    ensures forall d :: d in Final(f, run).devices && Final(f, run).devices[d].holds ==>
              Final(f, run).devices[d].console in Final(f, run).inUse
    ensures forall d, e | d in Final(f, run).devices && e in Final(f, run).devices && d != e
                          && Final(f, run).devices[d].holds && Final(f, run).devices[e].holds ::
              {Final(f, run).devices[d].console, Final(f, run).devices[d].console + 1}
              !! {Final(f, run).devices[e].console, Final(f, run).devices[e].console + 1}
  {
    RunIsSoundExactlyWhen(f, run);
    SoundAtTheEnd(f, run);
    SoundPairsAreDisjoint(Final(f, run));
  }

  /** A device whose boot failed and that is shut down later frees the pair for a third device while the
      second is still using it. */
  lemma StaleShutdownSharesPorts(minPort: int, maxPort: int)
    requires minPort % 2 == 0 && 0 < minPort < maxPort
    ensures var f := State(minPort, maxPort, {}, map[]);
            var run := [Prepare(0, false), Prepare(1, true), Shutdown(0), Prepare(2, true)];
            Legal(f, run)
            && Final(f, run).devices[1] == Device(minPort, true) && Final(f, run).devices[2] == Device(minPort, true)
  {
  }

  /** A device that is shut down twice frees the pair that a second device has got in between, and a third gets it
      too. */
  lemma SecondShutdownSharesPorts(minPort: int, maxPort: int)
    requires minPort % 2 == 0 && 0 < minPort < maxPort
    ensures var f := State(minPort, maxPort, {}, map[]);
            var run := [Prepare(0, true), Shutdown(0), Prepare(1, true), Shutdown(0), Prepare(2, true)];
            Legal(f, run)
            && Final(f, run).devices[1] == Device(minPort, true) && Final(f, run).devices[2] == Device(minPort, true)
  {
  }
}
