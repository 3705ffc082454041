/** internal/appium/server.go: one port per session, reserved under the lock that Start drops while it waits
    for the server to come up. */
module AppiumPorts {
  import opened Options

  type SessionId = nat

  /** instances is the manager's map, by session; waiting holds the Starts that have dropped the lock. */
  datatype State = State(
    basePort: int,
    instances: map<SessionId, int>,
    used: set<int>,
    waiting: map<nat, (SessionId, int)>)

  /** A begin is given the ports bound by other programs and whether the server process starts; a wait ends
      with the server ready or not. */
  datatype Step =
    | Begin(goroutine: nat, session: SessionId, bound: set<int>, launched: bool)
    | EndWait(goroutine: nat, ready: bool)
    | Stop(session: SessionId)

  /** The scan of findFreePortLocked over a window of ports. */
  function Scan(port: int, end: int, taken: set<int>): Option<int>
    decreases end - port
  {
    if port >= end then None else if port !in taken then Some(port) else Scan(port + 1, end, taken)
  }

  lemma {:induction false} ScanFindsFirstFree(port: int, end: int, taken: set<int>)
    ensures match Scan(port, end, taken)
            case Some(p) => port <= p < end && p !in taken && forall q :: port <= q < p ==> q in taken
            case None => forall q :: port <= q < end ==> q in taken
    decreases end - port
  {
    if port < end {
      ScanFindsFirstFree(port + 1, end, taken);
    }
  }

  predicate Enabled(f: State, st: Step) {
    match st
    case Begin(g, _, _, _) => g !in f.waiting
    case EndWait(g, _) => g in f.waiting
    case Stop(_) => true
  }

  function Apply(f: State, st: Step): State
    requires Enabled(f, st)
  {
    match st
    case Begin(g, s, bound, launched) =>
      var port := Scan(f.basePort, f.basePort + 100, f.used + bound);
      if s in f.instances || port.None? || !launched then f
      else f.(instances := f.instances[s := port.value], used := f.used + {port.value},
              waiting := f.waiting[g := (s, port.value)])
    case EndWait(g, ready) =>
      var (s, port) := f.waiting[g];
      if ready then f.(waiting := f.waiting - {g})
      else f.(waiting := f.waiting - {g}, instances := f.instances - {s}, used := f.used - {port})
    case Stop(s) =>
      if s in f.instances then f.(instances := f.instances - {s}, used := f.used - {f.instances[s]}) else f
  }

  /** The used ports are exactly those of the recorded instances, and no two sessions share one. */
  ghost predicate Sound(f: State) {
    && f.used == (set s | s in f.instances :: f.instances[s])
    && (forall s, r | s in f.instances && r in f.instances && f.instances[s] == f.instances[r] :: s == r)
  }

  /** A waiting Start still owns the instance it recorded. */
  ghost predicate WaitersOwn(f: State) {
    && (forall g :: g in f.waiting ==> f.waiting[g].0 in f.instances && f.instances[f.waiting[g].0] == f.waiting[g].1)
    && (forall g, h | g in f.waiting && h in f.waiting && f.waiting[g].0 == f.waiting[h].0 :: g == h)
  }

  /** A session is stopped while its own Start is still waiting. */
  ghost predicate StoppedEarly(f: State, st: Step) {
    st.Stop? && exists g :: g in f.waiting && f.waiting[g].0 == st.session
  }

  lemma BeginKeepsSound(f: State, g: nat, s: SessionId, bound: set<int>, launched: bool)
    requires Sound(f) && g !in f.waiting
    ensures Sound(Apply(f, Begin(g, s, bound, launched)))
  {
    var h := Apply(f, Begin(g, s, bound, launched));
    ScanFindsFirstFree(f.basePort, f.basePort + 100, f.used + bound);
    if h != f {
      var port := h.instances[s];
      assert forall r :: r in f.instances ==> f.instances[r] in f.used;
      assert h.used == (set r | r in h.instances :: h.instances[r]) by {
        assert forall r :: r in h.instances && r != s ==> h.instances[r] == f.instances[r];
      }
    }
  }

  lemma DropKeepsSound(f: State, s: SessionId, port: int, h: State)
    requires Sound(f) && s in f.instances && f.instances[s] == port
    requires h.instances == f.instances - {s} && h.used == f.used - {port}
    ensures Sound(h)
  {
    forall p | p in h.used ensures p in (set r | r in h.instances :: h.instances[r]) {
      var r :| r in f.instances && f.instances[r] == p;
      assert r in h.instances;
    }
    assert h.used == (set r | r in h.instances :: h.instances[r]);
  }

  /** The instance recorded for the session of a waiting Start is its own, or the session has none left and
      the port belongs to nobody. */
  ghost predicate MayGiveUp(f: State, g: nat)
    requires g in f.waiting
  {
    var (s, port) := f.waiting[g];
    if s in f.instances then f.instances[s] == port
    else forall r :: r in f.instances ==> f.instances[r] != port
  }

  /** Only then a Start that gives up restores the account. */
  lemma GivingUpIsSoundExactlyWhenOwn(f: State, g: nat)
    requires Sound(f) && g in f.waiting
    ensures Sound(Apply(f, EndWait(g, false))) <==> MayGiveUp(f, g)
  {
    var (s, port) := f.waiting[g];
    var h := Apply(f, EndWait(g, false));
    if s in f.instances && f.instances[s] == port {
      DropKeepsSound(f, s, port, h);
    } else if s in f.instances {
      var kept := f.instances[s];
      assert kept in h.used && forall r :: r in h.instances ==> h.instances[r] != kept;
    } else if r :| r in f.instances && f.instances[r] == port {
      assert h.instances[r] == port && port !in h.used;
    } else {
      assert port !in f.used;
      assert h.instances == f.instances && h.used == f.used;
    }
  }

  lemma StepKeepsSound(f: State, st: Step)
    requires Sound(f) && WaitersOwn(f) && Enabled(f, st) && !StoppedEarly(f, st)
    ensures Sound(Apply(f, st)) && WaitersOwn(Apply(f, st))
  {
    match st
    case Begin(g, s, bound, launched) => BeginKeepsSound(f, g, s, bound, launched);
    case EndWait(g, ready) => GivingUpIsSoundExactlyWhenOwn(f, g);
    case Stop(s) =>
      if s in f.instances {
        DropKeepsSound(f, s, f.instances[s], Apply(f, st));
      }
  }

  ghost predicate Legal(f: State, run: seq<Step>)
    decreases |run|
  {
    run == [] || (Enabled(f, run[0]) && Legal(Apply(f, run[0]), run[1..]))
  }

  function Final(f: State, run: seq<Step>): State
    requires Legal(f, run)
    decreases |run|
  {
    if run == [] then f else Final(Apply(f, run[0]), run[1..])
  }

  ghost predicate SoundThroughout(f: State, run: seq<Step>)
    decreases |run|
  {
    Sound(f) && (run == [] || (Enabled(f, run[0]) && SoundThroughout(Apply(f, run[0]), run[1..])))
  }

  /** Every Start that gives up may do so. */
  ghost predicate GivesUpOwn(f: State, run: seq<Step>)
    decreases |run|
  {
    run == [] || (Enabled(f, run[0])
                  && (run[0].EndWait? && !run[0].ready ==> MayGiveUp(f, run[0].goroutine))
                  && GivesUpOwn(Apply(f, run[0]), run[1..]))
  }

  lemma StepIsSoundExactlyWhen(f: State, st: Step)
    requires Sound(f) && Enabled(f, st)
    ensures Sound(Apply(f, st)) <==> (st.EndWait? && !st.ready ==> MayGiveUp(f, st.goroutine))
  {
    match st
    case Begin(g, s, bound, launched) => BeginKeepsSound(f, g, s, bound, launched);
    case EndWait(g, ready) => GivingUpIsSoundExactlyWhenOwn(f, g);
    case Stop(s) =>
      if s in f.instances {
        DropKeepsSound(f, s, f.instances[s], Apply(f, st));
      }
  }

  /** The account is right all along a run exactly when no Start of the run gives up what is not its own. */
  lemma {:induction false} RunIsSoundExactlyWhen(f: State, run: seq<Step>)
    requires Sound(f)
    ensures SoundThroughout(f, run) <==> GivesUpOwn(f, run)
    decreases |run|
  {
    if run != [] && Enabled(f, run[0]) {
      StepIsSoundExactlyWhen(f, run[0]);
      if Sound(Apply(f, run[0])) {
        RunIsSoundExactlyWhen(Apply(f, run[0]), run[1..]);
      }
    }
  }

  ghost predicate Patient(f: State, run: seq<Step>)
    decreases |run|
  {
    run == [] || (Enabled(f, run[0]) && !StoppedEarly(f, run[0]) && Patient(Apply(f, run[0]), run[1..]))
  }

  lemma {:induction false} PatientRunsKeepSound(f: State, run: seq<Step>)
    requires Sound(f) && WaitersOwn(f) && Patient(f, run)
    ensures Legal(f, run) && Sound(Final(f, run)) && WaitersOwn(Final(f, run))
    decreases |run|
  {
    if run != [] {
      StepKeepsSound(f, run[0]);
      PatientRunsKeepSound(Apply(f, run[0]), run[1..]);
    }
  }

  function Empty(basePort: int): State {
    State(basePort, map[], {}, map[])
  }

  /** In every run in which no session is stopped while its own Start waits, however many Starts overlap:
      the used ports are exactly those of the recorded sessions, and different sessions have different
      ports. */
  lemma SessionsHaveTheirOwnPorts(basePort: int, run: seq<Step>)
    requires Patient(Empty(basePort), run)
    ensures Legal(Empty(basePort), run)
    ensures var f := Final(Empty(basePort), run);
            && f.used == (set s | s in f.instances :: f.instances[s])
            && forall s, r | s in f.instances && r in f.instances && f.instances[s] == f.instances[r] :: s == r
  {
    PatientRunsKeepSound(Empty(basePort), run);
  }

  /** The server of the session is up on the port: it is recorded and no Start of the session waits any more. */
  ghost predicate Serving(f: State, s: SessionId, port: int) {
    s in f.instances && f.instances[s] == port && forall g :: g in f.waiting ==> f.waiting[g].0 != s
  }

  lemma ReadyMeansServing(f: State, g: nat)
    requires WaitersOwn(f) && g in f.waiting
    ensures Serving(Apply(f, EndWait(g, true)), f.waiting[g].0, f.waiting[g].1)
  {
  }

  lemma {:induction false} ServersStayUp(f: State, run: seq<Step>, s: SessionId, port: int)
    requires Serving(f, s, port) && Legal(f, run)
    requires forall st :: st in run ==> st != Stop(s)
    ensures Serving(Final(f, run), s, port)
    decreases |run|
  {
    if run != [] {
      assert run[0] in run;
      assert Serving(Apply(f, run[0]), s, port);
      assert forall st :: st in run[1..] ==> st in run;
      ServersStayUp(Apply(f, run[0]), run[1..], s, port);
    }
  }

  /** After any run in which no session is stopped while its Start waits: a session whose wait ends with the server
      ready is recorded under its port, and stays so through whatever follows until it is stopped. */
  lemma ReadySessionsStayRecorded(basePort: int, before: seq<Step>, g: nat, after: seq<Step>)
    requires Patient(Empty(basePort), before) && Legal(Empty(basePort), before)
    requires g in Final(Empty(basePort), before).waiting
    requires Legal(Apply(Final(Empty(basePort), before), EndWait(g, true)), after)
    requires forall st :: st in after ==> st != Stop(Final(Empty(basePort), before).waiting[g].0)
    ensures var (s, port) := Final(Empty(basePort), before).waiting[g];
            var f := Final(Apply(Final(Empty(basePort), before), EndWait(g, true)), after);
            s in f.instances && f.instances[s] == port
  {
    PatientRunsKeepSound(Empty(basePort), before);
    var f := Final(Empty(basePort), before);
    ReadyMeansServing(f, g);
    ServersStayUp(Apply(f, EndWait(g, true)), after, f.waiting[g].0, f.waiting[g].1);
  }

  /** Without that condition two sessions end up on one port: session 0 is stopped while it waits, session 1
      gets its port, the wait of session 0 fails and frees the port, and session 2 gets it too. */
  lemma EarlyStopSharesPort(basePort: int)
    ensures var run := [Begin(0, 0, {}, true), Stop(0), Begin(1, 1, {}, true), EndWait(0, false), Begin(2, 2, {}, true)];
            Legal(Empty(basePort), run)
            && var f := Final(Empty(basePort), run);
               1 in f.instances && 2 in f.instances && f.instances[1] == basePort && f.instances[2] == basePort
  {
  }
}

/** The manager itself, region by region. */
module AppiumManagers {
  import opened Options
  import opened AppiumPorts

  datatype StartResult = Running(port: int) | Launched(port: int) | NoFreePort | StartFailed

  class Manager {
    const basePort: int
    var instances: map<SessionId, int>
    var usedPorts: set<int>
    ghost var waiting: map<nat, (SessionId, int)>

    ghost function View(): State
      reads this
    {
      State(basePort, instances, usedPorts, waiting)
    }

    constructor (basePort: int)
      ensures View() == Empty(basePort)
    {
      this.basePort, instances, usedPorts, waiting := basePort, map[], {}, map[];
    }

    /** The first of a hundred ports that no session holds and no other program has bound. */
    method FindFreePort(startFrom: int, bound: set<int>) returns (r: Option<int>)
      ensures match r
              case Some(p) =>
                startFrom <= p < startFrom + 100 && p !in usedPorts && p !in bound
                && forall q :: startFrom <= q < p ==> q in usedPorts || q in bound
              case None => forall q :: startFrom <= q < startFrom + 100 ==> q in usedPorts || q in bound
      ensures r == Scan(startFrom, startFrom + 100, usedPorts + bound)
    {
      for port := startFrom to startFrom + 100
        invariant forall q :: startFrom <= q < port ==> q in usedPorts || q in bound
        invariant Scan(startFrom, startFrom + 100, usedPorts + bound) == Scan(port, startFrom + 100, usedPorts + bound)
      {
        if port !in usedPorts && port !in bound {
          return Some(port);
        }
      }
      return None;
    }

    /** Start up to the point where it drops the lock. */
    method BeginStart(ghost goroutine: nat, session: SessionId, bound: set<int>, launched: bool) returns (r: StartResult)
      requires goroutine !in waiting
      modifies this
      ensures View() == Apply(old(View()), Begin(goroutine, session, bound, launched))
      ensures r.Running? <==> session in old(instances)
      ensures r.Running? || r.Launched? ==> session in instances && r.port == instances[session]
      ensures r.Launched? ==> r.port !in old(usedPorts) && r.port !in bound
      ensures r.Launched? ==>
                basePort <= r.port < basePort + 100
                && instances == old(instances)[session := r.port] && usedPorts == old(usedPorts) + {r.port}
      ensures !r.Launched? ==> instances == old(instances) && usedPorts == old(usedPorts)
      ensures r.NoFreePort? <==>
                session !in old(instances) && forall p :: basePort <= p < basePort + 100 ==> p in old(usedPorts) + bound
      ensures r.StartFailed? <==>
                session !in old(instances) && !launched && exists p :: basePort <= p < basePort + 100 && p !in old(usedPorts) + bound
    {
      if session in instances {
        return Running(instances[session]);
      }
      var port := FindFreePort(basePort, bound);
      if port.None? {
        return NoFreePort;
      }
      assert port.value !in old(usedPorts) + bound;
      usedPorts := usedPorts + {port.value};
      if !launched {
        usedPorts := usedPorts - {port.value};
        return StartFailed;
      }
      instances := instances[session := port.value];
      waiting := waiting[goroutine := (session, port.value)];
      return Launched(port.value);
    }

    /** Start after it has taken the lock again. */
    method EndStart(ghost goroutine: nat, session: SessionId, port: int, ready: bool) returns (ok: bool)
      requires goroutine in waiting && waiting[goroutine] == (session, port)
      modifies this
      ensures ok == ready
      ensures View() == Apply(old(View()), EndWait(goroutine, ready))
      ensures ready ==> instances == old(instances) && usedPorts == old(usedPorts)
      ensures !ready ==> instances == old(instances) - {session} && usedPorts == old(usedPorts) - {port}
    {
      waiting := waiting - {goroutine};
      if !ready {
        instances := instances - {session};
        usedPorts := usedPorts - {port};
      }
      return ready;
    }

    method Stop(session: SessionId) returns (stopped: Option<int>)
      modifies this
      ensures stopped == if session in old(instances) then Some(old(instances)[session]) else None
      ensures View() == Apply(old(View()), AppiumPorts.Stop(session))
      ensures instances == old(instances) - {session}
      ensures usedPorts == if stopped.Some? then old(usedPorts) - {stopped.value} else old(usedPorts)
    {
      if session !in instances {
        return None;
      }
      stopped := Some(instances[session]);
      usedPorts := usedPorts - {instances[session]};
      instances := instances - {session};
    }

    /** StopAll with nothing in between leaves no session and frees exactly their ports; no used port is left if
        the account was sound. */
    method StopAll()
      modifies this
      ensures instances == map[] && waiting == old(waiting)
      ensures usedPorts == old(usedPorts) - old(instances).Values
      ensures old(Sound(View())) ==> usedPorts == {}
    {
      var rest := instances.Keys;
      while rest != {}
        invariant rest <= old(instances).Keys && waiting == old(waiting)
        invariant instances == map s | s in rest :: old(instances)[s]
        invariant usedPorts == old(usedPorts) - (set s | s in old(instances).Keys - rest :: old(instances)[s])
      {
        var s :| s in rest;
        var stopped := Stop(s);
        assert old(instances).Keys - (rest - {s}) == (old(instances).Keys - rest) + {s};
        rest := rest - {s};
      }
      assert (set s | s in old(instances).Keys :: old(instances)[s]) == old(instances).Values;
    }
  }
}
