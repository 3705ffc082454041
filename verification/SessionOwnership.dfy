/** Which runs keep the devices of active sessions theirs: the exact condition, and two simpler ones that are
    enough. */
module SessionOwnership {
  import opened Options
  import opened DeviceStates
  import opened PoolModel
  import opened Farm
  import opened Ownership

  /** The states a device may be in while an active session names it: neither on offer nor being brought up or
      cleaned. */
  predicate Serves(f: State, i: InstanceId) {
    i in f.pool.insts && f.pool.insts[i].state in {Allocated, Error, Destroying}
  }

  /** No two active sessions name the same device, and every active session's device serves. */
  ghost predicate SessionsOwn(f: State) {
    && (forall s, r | s in f.sessions && r in f.sessions && f.sessions[s].IsActive() && f.sessions[r].IsActive()
                      && f.sessions[s].inst == f.sessions[r].inst :: s == r)
    && (forall s :: s in f.sessions && f.sessions[s].IsActive() ==> Serves(f, f.sessions[s].inst))
  }

  ghost predicate Named(f: State, i: InstanceId) {
    exists s :: s in f.sessions && f.sessions[s].IsActive() && f.sessions[s].inst == i
  }

  // ---- The steps that do harm ----

  /** The region resets the device, offers it or starts to bring it up, and the table lets it. */
  predicate TurnsAway(f: State, task: Task, o: Oracle, i: InstanceId) {
    i in f.pool.insts &&
    match task
    case ProbeDevice(j) => i == j && o.ok && CanTransition(f.pool, i, Resetting)
    case ResetDevice(j) => i == j && o.ok && CanTransition(f.pool, i, Warm)
    case FinishBoot(j, _, _) => i == j && CanTransition(f.pool, i, Warm)
    case AdoptWarm(j) => i == j && CanTransition(f.pool, i, Warm)
    case StartBoot(j, _, _) => i == j && CanTransition(f.pool, i, Booting)
    case _ => false
  }

  /** A session is published for a device that does not serve or that another active session names; or a
      device that an active session names is turned away from it. */
  ghost predicate Harms(f: State, st: Step) {
    && st.Advance? && st.task in f.tasks
    && match f.tasks[st.task]
       case PublishSession(i, _) => !Serves(f, i) || Named(f, i)
       case task => exists i :: Named(f, i) && TurnsAway(f, task, st.oracle, i)
  }

  /** The regions that can turn a device away. */
  predicate MayTurnAway(task: Task) {
    task.StartBoot? || task.FinishBoot? || task.AdoptWarm? || task.ProbeDevice? || task.ResetDevice?
  }

  lemma OtherRegionsLeaveServing(f: State, t: TaskId, o: Oracle, i: InstanceId)
    requires t in f.tasks && TaskEnabled(f, f.tasks[t], o) && Serves(f, i) && i != f.pool.nextInst
    requires !MayTurnAway(f.tasks[t])
    ensures Serves(RunTask(f, t, o), i)
  {
    match f.tasks[t]
    case MarkDestroying(_) =>
    case Claim(_) =>
    case _ =>
  }

  /** One region, one device that serves. */
  lemma ServesUnlessTurnedAway(f: State, t: TaskId, o: Oracle, i: InstanceId)
    requires t in f.tasks && TaskEnabled(f, f.tasks[t], o) && Serves(f, i) && i != f.pool.nextInst
    ensures Serves(RunTask(f, t, o), i) <==> !TurnsAway(f, f.tasks[t], o, i)
  {
    if MayTurnAway(f.tasks[t]) {
      match f.tasks[t]
      case StartBoot(_, _, _) =>
      case FinishBoot(_, _, _) =>
      case ProbeDevice(_) =>
      case ResetDevice(_) =>
      case AdoptWarm(_) =>
    } else {
      OtherRegionsLeaveServing(f, t, o, i);
    }
  }

  lemma EnvironmentNeverTurnsAway(f: State, st: Step, i: InstanceId)
    requires Enabled(f, st) && !st.Advance? && Serves(f, i) && i != f.pool.nextInst
    ensures Serves(Apply(f, st), i)
  {
  }

  lemma EnvironmentKeepsSessionsOwn(f: State, st: Step)
    requires WellFormed(f) && SessionsOwn(f) && Enabled(f, st) && !st.Advance?
    ensures SessionsOwn(Apply(f, st))
  {
    var g := Apply(f, st);
    EnvironmentFrame(f, st);
    forall s | s in g.sessions && g.sessions[s].IsActive()
      ensures s in f.sessions && f.sessions[s].IsActive() && Serves(g, g.sessions[s].inst)
    {
      NoSessionRevives(f, st, s);
      EnvironmentNeverTurnsAway(f, st, f.sessions[s].inst);
    }
  }

  lemma NoSessionRevives(f: State, st: Step, s: SessionId)
    requires Enabled(f, st) && !st.Advance? && s in Apply(f, st).sessions && Apply(f, st).sessions[s].IsActive()
    ensures s in f.sessions && f.sessions[s].IsActive()
  {
  }

  lemma PublishingKeepsSessionsOwnExactlyWhen(f: State, t: TaskId, o: Oracle)
    requires WellFormed(f) && SessionsOwn(f) && t in f.tasks && TaskEnabled(f, f.tasks[t], o)
    requires f.tasks[t].PublishSession?
    ensures SessionsOwn(RunTask(f, t, o)) <==> Serves(f, f.tasks[t].inst) && !Named(f, f.tasks[t].inst)
  {
    match f.tasks[t] case PublishSession(i, s) =>
    var g := RunTask(f, t, o);
    assert g.pool == f.pool && g.sessions[s] == Session(i, Active, o.expiry, None, 0);
    assert forall r :: r in f.sessions ==> r != s && r in g.sessions && g.sessions[r] == f.sessions[r];
  }

  lemma RegionKeepsSessionsOwnExactlyWhen(f: State, t: TaskId, o: Oracle)
    requires WellFormed(f) && SessionsOwn(f) && t in f.tasks && TaskEnabled(f, f.tasks[t], o)
    requires !f.tasks[t].PublishSession?
    ensures SessionsOwn(RunTask(f, t, o)) <==> !exists i :: Named(f, i) && TurnsAway(f, f.tasks[t], o, i)
  {
    var g := RunTask(f, t, o);
    TaskPublishes(f, t, o);
    forall s | s in f.sessions && f.sessions[s].IsActive()
      ensures Serves(g, f.sessions[s].inst) <==> !TurnsAway(f, f.tasks[t], o, f.sessions[s].inst)
      ensures Named(f, f.sessions[s].inst)
    {
      ServesUnlessTurnedAway(f, t, o, f.sessions[s].inst);
    }
  }

  /** A step leaves every active session alone on a device that serves, if and only if it does no harm. */
  lemma StepKeepsSessionsOwnExactlyWhen(f: State, st: Step)
    requires WellFormed(f) && SessionsOwn(f) && Enabled(f, st)
    ensures SessionsOwn(Apply(f, st)) <==> !Harms(f, st)
  {
    if !st.Advance? {
      EnvironmentKeepsSessionsOwn(f, st);
    } else if f.tasks[st.task].PublishSession? {
      PublishingKeepsSessionsOwnExactlyWhen(f, st.task, st.oracle);
    } else {
      RegionKeepsSessionsOwnExactlyWhen(f, st.task, st.oracle);
    }
  }

  // ---- Runs ----

  ghost predicate SessionsOwnThroughout(f: State, run: seq<Step>)
    decreases |run|
  {
    SessionsOwn(f) && (run == [] || (Enabled(f, run[0]) && SessionsOwnThroughout(Apply(f, run[0]), run[1..])))
  }

  ghost predicate NeverHarms(f: State, run: seq<Step>)
    decreases |run|
  {
    run == [] || (Enabled(f, run[0]) && !Harms(f, run[0]) && NeverHarms(Apply(f, run[0]), run[1..]))
  }

  lemma {:induction false} RunKeepsSessionsOwnExactlyWhen(f: State, run: seq<Step>)
    requires WellFormed(f) && SessionsOwn(f)
    ensures SessionsOwnThroughout(f, run) <==> NeverHarms(f, run)
    decreases |run|
  {
    if run != [] && Enabled(f, run[0]) {
      StepKeepsWellFormed(f, run[0]);
      StepKeepsSessionsOwnExactlyWhen(f, run[0]);
      if SessionsOwn(Apply(f, run[0])) {
        RunKeepsSessionsOwnExactlyWhen(Apply(f, run[0]), run[1..]);
      }
    }
  }

  /** From the empty farm on: all along a run no two active sessions name one device and none is on a device that
      is on offer, brought up or cleaned, if and only if no step of the run publishes a session for a device
      that does not serve or has a session, nor turns a device away from its session. */
  lemma DevicesAreExclusiveExactlyWhen(capacity: nat, run: seq<Step>)
    ensures SessionsOwnThroughout(Init(capacity), run) <==> NeverHarms(Init(capacity), run)
  {
    RunKeepsSessionsOwnExactlyWhen(Init(capacity), run);
  }

  // ---- Runs that are exclusive in every hand ----

  lemma ExclusiveSessionsOwn(f: State)
    requires Exclusive(f, InHand)
    ensures SessionsOwn(f)
  {
    assert forall s :: s in f.sessions && f.sessions[s].IsActive() ==>
        ClaimOf(f, BySession(s), InHand) == Some((f.sessions[s].inst, User));
  }

  /** As long as every device is in at most one hand, the only step that can do harm is a release that starts to
      reset the device of a session still active. After a release has taken a device out of another hand, for
      instance from a request that was granted it and has not published yet, others can. */
  lemma OnlyReleasesHarmFirst(f: State, st: Step)
    requires WellFormed(f) && Exclusive(f, InHand) && Enabled(f, st)
    ensures Harms(f, st) <==> exists s :: TakesBack(f, st, BySession(s))
  {
    var g := Apply(f, st);
    ExclusiveSessionsOwn(f);
    StepKeepsSessionsOwnExactlyWhen(f, st);
    if s :| TakesBack(f, st, BySession(s)) {
      assert s in g.sessions && g.sessions[s] == f.sessions[s] && g.pool.insts[g.sessions[s].inst].state == Resetting;
    } else if TakesBackHeld(f, st) {
      assert g.sessions == f.sessions;
      forall s | s in f.sessions && f.sessions[s].IsActive()
        ensures g.pool.insts[f.sessions[s].inst] == f.pool.insts[f.sessions[s].inst]
      {
        assert !TakesBack(f, st, BySession(s));
      }
    } else {
      StepKeepsExclusiveExactlyWhen(f, st);
      ExclusiveSessionsOwn(g);
    }
  }

  lemma {:induction false} ExclusiveRunsNeverHarm(f: State, run: seq<Step>)
    requires WellFormed(f) && Exclusive(f, InHand) && NeverTakesBack(f, run)
    ensures NeverHarms(f, run)
    decreases |run|
  {
    if run != [] {
      OnlyReleasesHarmFirst(f, run[0]);
      StepKeepsWellFormed(f, run[0]);
      StepKeepsExclusiveExactlyWhen(f, run[0]);
      assert forall s :: !TakesBack(f, run[0], BySession(s));
      ExclusiveRunsNeverHarm(Apply(f, run[0]), run[1..]);
    }
  }

  lemma {:induction false} SessionsOwnAtTheEnd(f: State, run: seq<Step>)
    requires SessionsOwnThroughout(f, run)
    ensures Legal(f, run) && SessionsOwn(Final(f, run))
    decreases |run|
  {
    if run != [] {
      SessionsOwnAtTheEnd(Apply(f, run[0]), run[1..]);
    }
  }

  /** In every state of every run in which no release resets a device in hand, no two active sessions name the
      same device, and no device named by an active session is on offer as Warm. */
  lemma DevicesAreExclusive(capacity: nat, run: seq<Step>)
    requires NeverTakesBack(Init(capacity), run)
    ensures SessionsOwnThroughout(Init(capacity), run)
    ensures Legal(Init(capacity), run) && SessionsOwn(Final(Init(capacity), run))
  {
    ExclusiveRunsNeverHarm(Init(capacity), run);
    DevicesAreExclusiveExactlyWhen(capacity, run);
    SessionsOwnAtTheEnd(Init(capacity), run);
  }

  /** Without a timeout mark that comes too late no release resets a device in hand. */
  lemma PunctualRunsAreExclusive(capacity: nat, run: seq<Step>)
    requires Punctual(Init(capacity), run)
    ensures ExclusiveThroughout(Init(capacity), run) && SessionsOwnThroughout(Init(capacity), run)
    ensures Legal(Init(capacity), run) && SessionsOwn(Final(Init(capacity), run))
  {
    PunctualRunsKeepExclusive(Init(capacity), run);
    RunIsExclusiveExactlyWhen(capacity, run);
    DevicesAreExclusive(capacity, run);
  }
}
