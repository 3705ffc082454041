/** internal/pool/state.go: the states of a device and the table of allowed transitions. */
module DeviceStates {

  datatype DeviceState =
    | Creating
    | Booting
    | Warm
    | Allocated
    | Resetting
    | Destroying
    | Error
  {
    /** The rows of validTransitions. */
    function Successors(): set<DeviceState> {
      match this
      case Creating => {Booting, Warm, Error, Destroying}
      case Booting => {Warm, Error, Destroying}
      case Warm => {Allocated, Destroying, Error}
      case Allocated => {Resetting, Destroying, Error}
      case Resetting => {Warm, Error, Destroying}
      case Error => {Destroying, Booting, Resetting, Warm}
      case Destroying => {}
    }

    predicate CanTransitionTo(target: DeviceState) {
      target in Successors()
    }
  }

  /** What TransitionTo leaves behind: the target when the table allows it, else the old state. */
  function After(s: DeviceState, target: DeviceState): DeviceState {
    if s.CanTransitionTo(target) then target else s
  }

  /** The state reached by a whole sequence of attempted transitions. */
  function AfterAll(s: DeviceState, targets: seq<DeviceState>): DeviceState
    decreases |targets|
  {
    if targets == [] then s else AfterAll(After(s, targets[0]), targets[1..])
  }

  /** Every state passed through, the first one included. */
  function Visited(s: DeviceState, targets: seq<DeviceState>): set<DeviceState>
    decreases |targets|
  {
    if targets == [] then {s} else {s} + Visited(After(s, targets[0]), targets[1..])
  }

  /** The table read by its columns: from where each state can be entered. */
  lemma EnteredExactlyFrom(s: DeviceState, target: DeviceState)
    ensures s.CanTransitionTo(target) <==>
              match target
              case Creating => false
              case Booting => s == Creating || s == Error
              case Warm => s == Creating || s == Booting || s == Resetting || s == Error
              case Allocated => s == Warm
              case Resetting => s == Allocated || s == Error
              case Destroying => s != Destroying
              case Error => s != Error && s != Destroying
  {
  }

  /** Whatever is attempted, a device that is being destroyed never does anything else. */
  lemma {:induction false} DestroyingIsFinal(targets: seq<DeviceState>)
    ensures AfterAll(Destroying, targets) == Destroying
  {
    if targets != [] {
      DestroyingIsFinal(targets[1..]);
    }
  }

  /** No sequence of transitions takes a used device back to Warm without resetting it or declaring it
      broken on the way: a dirty device is never offered to the next client. */
  lemma {:induction false} UsedDeviceIsCleanedFirst(targets: seq<DeviceState>)
    requires AfterAll(Allocated, targets) == Warm
    ensures Resetting in Visited(Allocated, targets) || Error in Visited(Allocated, targets)
  {
    var next := After(Allocated, targets[0]);
    if next == Destroying {
      DestroyingIsFinal(targets[1..]);
    } else if next == Allocated {
      UsedDeviceIsCleanedFirst(targets[1..]);
    } else {
      assert next in Visited(next, targets[1..]);
    }
  }

  /** Allocated is entered only from Warm. */
  lemma {:induction false} OnlyWarmIsGranted(s: DeviceState, targets: seq<DeviceState>)
    requires s != Allocated && AfterAll(s, targets) == Allocated
    ensures Warm in Visited(s, targets)
    decreases |targets|
  {
    if s != Warm {
      var next := After(s, targets[0]);
      OnlyWarmIsGranted(next, targets[1..]);
    }
  }
}
