/** The pool and the session broker as one transition system. Every goroutine is a task whose value says
    which lock-protected region it runs next; a step lets one task run one region, or lets the
    environment act. The order of steps is arbitrary, so every interleaving is a run. */
module Farm {
  import opened Options
  import opened DeviceStates
  import opened PoolModel

  type TaskId = nat

  datatype SessionState = Queued | Active | Released | TimedOut | Errored | Interrupted

  datatype Session = Session(
    inst: InstanceId,
    state: SessionState,
    expiresAt: nat,
    releasedAt: Option<nat>,
    poolReleases: nat)          // how often pool.Release has been issued for this session
  {
    predicate IsActive() { state == Active || state == Queued }
    predicate Expired(clock: nat) { clock > expiresAt }
  }

  /** Where a removal goes on afterwards. */
  datatype Then = Stop | BootFailed(avd: string, origin: Origin, inst: InstanceId) | ReturnAnother

  /** Whose slot a give-back is settling: that of a device that took one, that of a device that took
      none, or nobody's. */
  datatype Owed = Slotted | Unslotted | Nobody

  datatype Task =
    // pool.AllocateWith and pool.Allocate
    | FindWarm(profile: string, manual: bool)
    | FindById(id: InstanceId, manual: bool)
    | FindByName(avd: string, manual: bool)
    | TakeSlot(named: Option<string>)
    | SelectAvd
    | PickAvd(used: set<string>)                       // holds avdMu
    | FlagAvd(avd: string, origin: Origin)             // holds avdMu when origin is AnyBoot
    // pool.BootAVD
    | CheckTracked(avd: string)
    | CheckCount(avd: string)
    // bootEmulator
    | CreateInst(avd: string, origin: Origin)
    | StartBoot(inst: InstanceId, avd: string, origin: Origin)
    | Prepare(inst: InstanceId, avd: string, origin: Origin)
    | FinishBoot(inst: InstanceId, avd: string, origin: Origin)
    // the end of an on-demand boot
    | Unflag(avd: string, origin: Origin, made: Option<InstanceId>, ok: bool)
    | Claim(inst: InstanceId)
    | ReturnSlot(due: bool)
    // createSessionFromInstance
    | BindSession(inst: InstanceId)
    | PublishSession(inst: InstanceId, session: SessionId)
    // pool.Release and its reset goroutine
    | PoolRelease(inst: InstanceId)
    | ProbeDevice(inst: InstanceId)
    | ClearAfterReset(inst: InstanceId)
    | ResetDevice(inst: InstanceId)
    // adoption, destruction, removal
    | AdoptWarm(inst: InstanceId)
    | MarkDestroying(inst: InstanceId)
    | Remove(inst: InstanceId, after: Then)
    | GiveBack(owed: Owed, after: Then)

  /** One enforceTimeouts pass: the sessions found expired and those not yet marked. */
  datatype Pass = Pass(expired: set<SessionId>, pending: set<SessionId>)

  datatype State = State(
    pool: PoolState,
    avdLock: Option<TaskId>,                      // holder of avdMu
    sessions: map<SessionId, Session>,
    nextSession: SessionId,
    tasks: map<TaskId, Task>,
    nextTask: TaskId,
    evictions: set<(InstanceId, SessionId)>,      // eviction callbacks started and not yet run
    pass: Option<Pass>,
    clock: nat,
    orphans: set<SessionId>,   // published when their device was gone and no callback was pending
    overReturned: nat)         // receives on the semaphore that took a slot nobody owed

  /** The answers of the outside world to one step: does the command succeed, which warm device does the
      map order yield, which AVD is listed first, which profile is guessed for it, when does the session
      expire. */
  datatype Oracle = Oracle(ok: bool, pick: Option<InstanceId>, avd: string, profile: string, expiry: nat)

  datatype Step =
    | AskAny(profile: string, manual: bool)
    | AskId(id: InstanceId, manual: bool)
    | AskName(avd: string, manual: bool)
    | AskBoot(avd: string)
    | Adopt(name: string, destroyable: bool)
    | Destroy(inst: InstanceId)           // maintenance, idle shutdown, ShutdownInstance, Stop
    | Lose(inst: InstanceId)              // watchDevice and pruneDisconnected
    | ReleaseSession(session: SessionId)
    | ScanTimeouts
    | MarkTimedOut(session: SessionId)
    | EndPass
    | RunEviction(inst: InstanceId, session: SessionId)
    | MarkError(inst: InstanceId)
    | SetReserved(inst: InstanceId, reserved: bool)
    | Tick
    | Advance(task: TaskId, oracle: Oracle)

  function Init(capacity: nat): State {
    State(EmptyPool(capacity), None, map[], 0, map[], 0, {}, None, 0, {}, 0)
  }

  function Spawn(f: State, task: Task): State {
    f.(tasks := f.tasks[f.nextTask := task], nextTask := f.nextTask + 1)
  }

  function Goto(f: State, t: TaskId, task: Task): State {
    f.(tasks := f.tasks[t := task])
  }

  function End(f: State, t: TaskId): State {
    f.(tasks := f.tasks - {t})
  }

  function Overdue(sessions: map<SessionId, Session>, clock: nat): set<SessionId> {
    set s | s in sessions && sessions[s].state == Active && sessions[s].Expired(clock)
  }

  function ExpiredSessions(f: State): set<SessionId> {
    Overdue(f.sessions, f.clock)
  }

  /** The instance a task has in hand, if any. */
  function InstOf(task: Task): Option<InstanceId> {
    match task
    case StartBoot(i, _, _) => Some(i)
    case Prepare(i, _, _) => Some(i)
    case FinishBoot(i, _, _) => Some(i)
    case Unflag(_, _, made, _) => made
    case Claim(i) => Some(i)
    case BindSession(i) => Some(i)
    case PublishSession(i, _) => Some(i)
    case ProbeDevice(i) => Some(i)
    case ClearAfterReset(i) => Some(i)
    case ResetDevice(i) => Some(i)
    case AdoptWarm(i) => Some(i)
    case MarkDestroying(i) => Some(i)
    case Remove(_, BootFailed(_, _, i)) => Some(i)
    case GiveBack(_, BootFailed(_, _, i)) => Some(i)
    case _ => None
  }

  ghost predicate Enabled(f: State, st: Step) {
    match st
    case AskAny(_, _) => true
    case AskId(_, _) => true
    case AskName(_, _) => true
    case AskBoot(_) => true
    case Adopt(_, _) => true
    case Destroy(i) => i in f.pool.tracked && i in f.pool.insts
    case Lose(i) => i in f.pool.tracked
    case ReleaseSession(s) => s in f.sessions && f.sessions[s].IsActive()
    case ScanTimeouts => f.pass.None?
    case MarkTimedOut(s) => f.pass.Some? && s in f.pass.value.pending && s in f.sessions
    case EndPass => f.pass.Some? && f.pass.value.pending == {}
    case RunEviction(i, s) => (i, s) in f.evictions
    case MarkError(i) => i in f.pool.insts
    case SetReserved(i, _) => i in f.pool.tracked && i in f.pool.insts
    case Tick => true
    case Advance(t, o) => t in f.tasks && TaskEnabled(f, f.tasks[t], o)
  }

  ghost predicate TaskEnabled(f: State, task: Task, o: Oracle) {
    && (InstOf(task).Some? ==> InstOf(task).value in f.pool.insts)
    && match task
       case FindWarm(profile, manual) => WarmChoice(f.pool, profile, manual, o.pick)
       case FindById(_, _) => true
       case FindByName(avd, _) =>
         (match o.pick
          case None => avd !in TrackedNames(f.pool)
          case Some(i) => i in f.pool.tracked && i in f.pool.insts && f.pool.insts[i].name == avd)
       case SelectAvd => f.avdLock.None?
       case PickAvd(used) => o.ok ==> o.avd !in used + TrackedNames(f.pool)
       case ReturnSlot(_) => f.pool.sem > 0       // a blocking receive
       case _ => true
  }

  function Apply(f: State, st: Step): State
    requires Enabled(f, st)
  {
    match st
    case AskAny(profile, manual) => Spawn(f, FindWarm(profile, manual))
    case AskId(id, manual) => Spawn(f, FindById(id, manual))
    case AskName(avd, manual) => Spawn(f, FindByName(avd, manual))
    case AskBoot(avd) => Spawn(f, CheckTracked(avd))
    case Adopt(name, destroyable) =>
      Spawn(f.(pool := Create(f.pool, name, "", destroyable, Adopted)), AdoptWarm(f.pool.nextInst))
    case Destroy(i) => Spawn(f, MarkDestroying(i))
    case Lose(i) => Spawn(f, Remove(i, Stop))
    case ReleaseSession(s) => Retire(f, s, Released)
    case ScanTimeouts => f.(pass := Some(Pass(ExpiredSessions(f), ExpiredSessions(f))))
    case MarkTimedOut(s) =>
      Retire(f, s, TimedOut).(pass := Some(Pass(f.pass.value.expired, f.pass.value.pending - {s})))
    case EndPass => f.(pass := None)
    case RunEviction(i, s) => Evicted(f, i, s)
    case MarkError(i) => f.(pool := Transition(f.pool, i, Error))
    case SetReserved(i, reserved) => f.(pool := WithReserved(f.pool, i, reserved))
    case Tick => f.(clock := f.clock + 1)
    case Advance(t, o) => RunTask(f, t, o)
  }

  /** The marking region shared by Broker.Release and enforceTimeouts: the session gets its final state
      and its release time, and is about to be followed by a pool.Release. */
  function Ended(sessions: map<SessionId, Session>, s: SessionId, why: SessionState, clock: nat): map<SessionId, Session>
    requires s in sessions
  {
    sessions[s := sessions[s].(state := why, releasedAt := Some(clock), poolReleases := sessions[s].poolReleases + 1)]
  }

  /** handleInstanceEvicted: a session that is still active is interrupted, any other left alone. */
  function Interrupt(sessions: map<SessionId, Session>, s: SessionId, clock: nat): map<SessionId, Session> {
    if s in sessions && sessions[s].IsActive()
    then sessions[s := sessions[s].(state := Interrupted, releasedAt := Some(clock))]
    else sessions
  }

  /** Broker.Release enters this only for an active session; enforceTimeouts does not look again. */
  function Retire(f: State, s: SessionId, why: SessionState): State
    requires s in f.sessions
  {
    Spawn(f.(sessions := Ended(f.sessions, s, why, f.clock)), PoolRelease(f.sessions[s].inst))
  }

  function Evicted(f: State, i: InstanceId, s: SessionId): State {
    f.(evictions := f.evictions - {(i, s)}, sessions := Interrupt(f.sessions, s, f.clock))
  }

  /** One region of the goroutine t. */
  function RunTask(f: State, t: TaskId, o: Oracle): State
    requires t in f.tasks && TaskEnabled(f, f.tasks[t], o)
  {
    var p := f.pool;
    match f.tasks[t]
    case FindWarm(profile, manual) =>
      (match o.pick
       case Some(i) => Goto(f.(pool := Transition(p, i, Allocated)), t, BindSession(i))
       case None => Goto(f, t, TakeSlot(None)))
    case FindById(i, manual) =>
      if EligibleTracked(p, i, manual)
      then Goto(f.(pool := Transition(p, i, Allocated)), t, BindSession(i))
      else End(f, t)
    case FindByName(avd, manual) =>
      (match o.pick
       case Some(i) =>
         if p.insts[i].Eligible(manual)
         then Goto(f.(pool := Transition(p, i, Allocated)), t, BindSession(i))
         else End(f, t)
       case None => Goto(f, t, TakeSlot(Some(avd))))
    case TakeSlot(named) =>
      if p.sem < p.capacity
      then Goto(f.(pool := p.(sem := p.sem + 1)), t,
                if named.Some? then FlagAvd(named.value, NamedBoot) else SelectAvd)
      else End(f, t)
    case SelectAvd =>
      Goto(f.(avdLock := Some(t)), t, PickAvd(TrackedNames(p) + p.booting))
    case PickAvd(used) =>
      if o.ok
      then Goto(f, t, FlagAvd(o.avd, AnyBoot))
      else Goto(f.(avdLock := None), t, ReturnSlot(true))
    case FlagAvd(avd, origin) =>
      Goto(f.(pool := p.(booting := p.booting + {avd}),
              avdLock := if origin == AnyBoot then None else f.avdLock),
           t, CreateInst(avd, origin))
    case CheckTracked(avd) =>
      if avd in TrackedNames(p) then End(f, t) else Goto(f, t, CheckCount(avd))
    case CheckCount(avd) =>
      if |p.tracked| >= p.capacity then End(f, t) else Goto(f, t, CreateInst(avd, ManualBoot))
    case CreateInst(avd, origin) =>
      if o.ok
      then Goto(f.(pool := Create(p, avd, o.profile, true, origin)), t, StartBoot(p.nextInst, avd, origin))
      else if origin.TakesSlot() then Goto(f, t, Unflag(avd, origin, None, false))
      else End(f, t)
    case StartBoot(i, avd, origin) =>
      Goto(f.(pool := Transition(p, i, Booting)), t,
           if CanTransition(p, i, Booting)
           then Prepare(i, avd, origin)
           else Remove(i, BootFailed(avd, origin, i)))
    case Prepare(i, avd, origin) =>
      Goto(f, t, if o.ok then FinishBoot(i, avd, origin) else Remove(i, BootFailed(avd, origin, i)))
    case FinishBoot(i, avd, origin) =>
      var g := f.(pool := Transition(p, i, Warm));
      if origin.TakesSlot()
      then Goto(g, t, Unflag(avd, origin, Some(i), CanTransition(p, i, Warm)))
      else End(g, t)
    case Unflag(avd, origin, made, ok) =>
      Goto(f.(pool := p.(booting := p.booting - {avd})), t,
           if made.Some? && ok then Claim(made.value) else ReturnSlot(made.None?))
    case Claim(i) =>
      Goto(f.(pool := Transition(p, i, Allocated)), t,
           if CanTransition(p, i, Allocated) then BindSession(i) else ReturnSlot(false))
    case ReturnSlot(due) =>
      End(f.(pool := p.(sem := p.sem - 1),
             overReturned := if due then f.overReturned else f.overReturned + 1), t)
    case BindSession(i) =>
      Goto(f.(pool := WithSession(p, i, Some(f.nextSession)), nextSession := f.nextSession + 1),
           t, PublishSession(i, f.nextSession))
    case PublishSession(i, s) =>
      End(f.(sessions := f.sessions[s := Session(i, Active, o.expiry, None, 0)],
             orphans := if i in p.tracked || (i, s) in f.evictions then f.orphans else f.orphans + {s}), t)
    case PoolRelease(i) =>
      if i in p.tracked && i in p.insts then Goto(f, t, ProbeDevice(i)) else End(f, t)
    case ProbeDevice(i) =>
      if !o.ok
      then Goto(f.(pool := WithSession(p, i, None)), t, Remove(i, Stop))
      else if CanTransition(p, i, Resetting)
      then Goto(f.(pool := Transition(p, i, Resetting)), t, ClearAfterReset(i))
      else End(f, t)
    case ClearAfterReset(i) =>
      Goto(f.(pool := WithSession(p, i, None)), t, ResetDevice(i))
    case ResetDevice(i) =>
      if o.ok then End(f.(pool := Transition(p, i, Warm)), t) else Goto(f, t, Remove(i, Stop))
    case AdoptWarm(i) =>
      var g := f.(pool := Transition(p, i, Warm));
      if CanTransition(p, i, Warm) then End(g, t) else Goto(g, t, Remove(i, Stop))
    case MarkDestroying(i) =>
      Goto(f.(pool := Transition(p, i, Destroying)), t, Remove(i, ReturnAnother))
    case Remove(i, after) =>
      var attached := AttachedSession(p, i);
      Goto(f.(pool := Untrack(p, i),
              evictions := if attached.Some? then f.evictions + {(i, attached.value)} else f.evictions),
           t, GiveBack(if i !in p.tracked || i !in p.insts then Nobody
                       else if p.insts[i].origin.TakesSlot() then Slotted else Unslotted, after))
    case GiveBack(owed, after) =>
      var g := f.(pool := GiveBackSlot(p),
                  overReturned := if owed != Slotted && p.sem > 0 then f.overReturned + 1 else f.overReturned);
      match after
      case Stop => End(g, t)
      case ReturnAnother => Goto(g, t, GiveBack(Nobody, Stop))
      case BootFailed(avd, origin, i) =>
        if origin.TakesSlot() then Goto(g, t, Unflag(avd, origin, Some(i), false)) else End(g, t)
  }

  // ---- Runs ----

  /** st is possible after the steps before it, all along the run. */
  ghost predicate Legal(f: State, run: seq<Step>)
    decreases |run|
  {
    run == [] || (Enabled(f, run[0]) && Legal(Apply(f, run[0]), run[1..]))
  }

  function Final(f: State, run: seq<Step>): State
    requires Legal(f, run)
    decreases |run|
  {
    if run == [] then f else Final(Apply(f, run[0]), run[1..])
  }

  /** enforceTimeouts marks without looking again: late when the session has left Active since the scan. */
  ghost predicate LateMark(f: State, st: Step) {
    st.MarkTimedOut? && st.session in f.sessions && !f.sessions[st.session].IsActive()
  }

  /** An on-demand boot flags an AVD that another on-demand boot has flagged already. */
  ghost predicate FlagClash(f: State, st: Step) {
    && st.Advance? && st.task in f.tasks && f.tasks[st.task].FlagAvd?
    && f.tasks[st.task].avd in f.pool.booting
  }

  /** A legal run in which every timeout mark finds its session still active. */
  ghost predicate Punctual(f: State, run: seq<Step>)
    decreases |run|
  {
    run == [] ||
    (Enabled(f, run[0]) && !LateMark(f, run[0]) && Punctual(Apply(f, run[0]), run[1..]))
  }

  /** A legal run in which no boot flags an AVD twice. */
  ghost predicate ClashFree(f: State, run: seq<Step>)
    decreases |run|
  {
    run == [] ||
    (Enabled(f, run[0]) && !FlagClash(f, run[0]) && ClashFree(Apply(f, run[0]), run[1..]))
  }

  lemma {:induction false} PunctualIsLegal(f: State, run: seq<Step>)
    requires Punctual(f, run)
    ensures Legal(f, run)
    decreases |run|
  {
    if run != [] {
      PunctualIsLegal(Apply(f, run[0]), run[1..]);
    }
  }

  lemma {:induction false} ClashFreeIsLegal(f: State, run: seq<Step>)
    requires ClashFree(f, run)
    ensures Legal(f, run)
    decreases |run|
  {
    if run != [] {
      ClashFreeIsLegal(Apply(f, run[0]), run[1..]);
    }
  }
}
