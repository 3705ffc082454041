/** Exclusive ownership of devices: which runs keep it, and that all punctual ones do. */
module Ownership {
  import opened Options
  import opened DeviceStates
  import opened PoolModel
  import opened Farm

  // ---- Bookkeeping: identifiers are fresh and nothing dangles ----

  ghost predicate IdsFresh(f: State) {
    && (forall i :: i in f.pool.tracked ==> i in f.pool.insts)
    && (forall i :: i in f.pool.insts ==> i < f.pool.nextInst)
    && (forall t :: t in f.tasks ==> t < f.nextTask)
    && (forall s :: s in f.sessions ==> s < f.nextSession)
  }

  ghost predicate NothingDangles(f: State) {
    && (forall s :: s in f.sessions ==> f.sessions[s].inst in f.pool.insts)
    && (forall t :: t in f.tasks && InstOf(f.tasks[t]).Some? ==> InstOf(f.tasks[t]).value in f.pool.insts)
  }

  /** A session id handed out and not yet published belongs to one task and names no session. */
  ghost predicate PublishedOnce(f: State) {
    && (forall t :: t in f.tasks && f.tasks[t].PublishSession? ==>
          f.tasks[t].session < f.nextSession && f.tasks[t].session !in f.sessions)
    && (forall t, u | t in f.tasks && u in f.tasks && f.tasks[t].PublishSession? && f.tasks[u].PublishSession?
                      && f.tasks[t].session == f.tasks[u].session :: t == u)
  }

  ghost predicate WellFormed(f: State) {
    IdsFresh(f) && NothingDangles(f) && PublishedOnce(f)
  }

  /** The pool keeps its instances, or gains the one whose id was next. */
  ghost predicate PoolGrows(p: PoolState, q: PoolState) {
    || (q.nextInst == p.nextInst && q.insts.Keys == p.insts.Keys && q.tracked <= p.tracked)
    || (q.nextInst == p.nextInst + 1 && q.insts.Keys == p.insts.Keys + {p.nextInst}
        && q.tracked == p.tracked + {p.nextInst})
  }

  predicate AtMostOneSpawned(f: State, g: State) {
    || (g.tasks == f.tasks && g.nextTask == f.nextTask)
    || (g.nextTask == f.nextTask + 1 && f.nextTask in g.tasks && g.tasks == f.tasks[f.nextTask := g.tasks[f.nextTask]])
  }

  lemma EnvironmentFrame(f: State, st: Step)
    requires Enabled(f, st) && !st.Advance?
    ensures PoolGrows(f.pool, Apply(f, st).pool)
    ensures AtMostOneSpawned(f, Apply(f, st))
    ensures Apply(f, st).sessions.Keys == f.sessions.Keys && Apply(f, st).nextSession == f.nextSession
    ensures forall s :: s in f.sessions ==> Apply(f, st).sessions[s].inst == f.sessions[s].inst
  {
  }

  lemma TaskGrowsPool(f: State, t: TaskId, o: Oracle)
    requires t in f.tasks && TaskEnabled(f, f.tasks[t], o)
    ensures PoolGrows(f.pool, RunTask(f, t, o).pool)
  {
    match f.tasks[t]
    case CreateInst(_, _) =>
    case _ =>
  }

  /** What never changes about an instance. */
  function Identity(inst: Inst): (string, Origin, bool) {
    (inst.name, inst.origin, inst.destroyable)
  }

  ghost predicate IdentityKept(p: PoolState, q: PoolState) {
    forall i :: i in p.insts ==> i in q.insts && Identity(q.insts[i]) == Identity(p.insts[i])
  }

  predicate SameIdentity(p: PoolState, q: PoolState, i: InstanceId) {
    i in p.insts && i in q.insts && Identity(q.insts[i]) == Identity(p.insts[i])
  }

  lemma TaskKeepsIdentity(f: State, t: TaskId, o: Oracle, i: InstanceId)
    requires t in f.tasks && TaskEnabled(f, f.tasks[t], o) && i in f.pool.insts && i != f.pool.nextInst
    ensures SameIdentity(f.pool, RunTask(f, t, o).pool, i)
  {
    match f.tasks[t]
    case CreateInst(_, _) =>
    case _ =>
  }

  lemma EnvironmentKeepsIdentity(f: State, st: Step, i: InstanceId)
    requires Enabled(f, st) && !st.Advance? && i in f.pool.insts && i != f.pool.nextInst
    ensures SameIdentity(f.pool, Apply(f, st).pool, i)
  {
  }

  lemma StepKeepsIdentity(f: State, st: Step)
    requires IdsFresh(f) && Enabled(f, st)
    ensures IdentityKept(f.pool, Apply(f, st).pool)
  {
    forall i | i in f.pool.insts ensures SameIdentity(f.pool, Apply(f, st).pool, i) {
      if st.Advance? {
        TaskKeepsIdentity(f, st.task, st.oracle, i);
      } else {
        EnvironmentKeepsIdentity(f, st, i);
      }
    }
  }

  /** A task moves only itself. */
  lemma TaskMovesItself(f: State, t: TaskId, o: Oracle)
    requires t in f.tasks && TaskEnabled(f, f.tasks[t], o)
    ensures RunTask(f, t, o).nextTask == f.nextTask
    ensures RunTask(f, t, o).tasks ==
              if t in RunTask(f, t, o).tasks then f.tasks[t := RunTask(f, t, o).tasks[t]] else f.tasks - {t}
  {
    match f.tasks[t]
    case CreateInst(_, _) =>
    case _ =>
  }

  /** Only publishing touches the session map, and only binding hands out a session id. */
  lemma TaskPublishes(f: State, t: TaskId, o: Oracle)
    requires t in f.tasks && TaskEnabled(f, f.tasks[t], o)
    ensures RunTask(f, t, o).sessions ==
              if f.tasks[t].PublishSession?
              then f.sessions[f.tasks[t].session := Session(f.tasks[t].inst, Active, o.expiry, None, 0)]
              else f.sessions
    ensures RunTask(f, t, o).nextSession ==
              if f.tasks[t].BindSession? then f.nextSession + 1 else f.nextSession
  {
  }

  lemma TaskStaysInFarm(f: State, t: TaskId, o: Oracle)
    requires t in f.tasks && TaskEnabled(f, f.tasks[t], o)
    requires InstOf(f.tasks[t]).Some? ==> InstOf(f.tasks[t]).value in f.pool.insts
    requires forall i :: i in f.pool.tracked ==> i in f.pool.insts
    ensures var g := RunTask(f, t, o);
            t in g.tasks && InstOf(g.tasks[t]).Some? ==> InstOf(g.tasks[t]).value in g.pool.insts
  {
    match f.tasks[t]
    case CreateInst(_, _) =>
    case _ =>
  }

  lemma BindingComesBeforePublishing(f: State, t: TaskId, o: Oracle)
    requires t in f.tasks && TaskEnabled(f, f.tasks[t], o)
    ensures var g := RunTask(f, t, o);
            t in g.tasks && g.tasks[t].PublishSession? ==> g.tasks[t].session == f.nextSession && f.tasks[t].BindSession?
  {
  }

  lemma TaskKeepsWellFormed(f: State, t: TaskId, o: Oracle)
    requires WellFormed(f) && t in f.tasks && TaskEnabled(f, f.tasks[t], o)
    ensures WellFormed(RunTask(f, t, o))
  {
    TaskGrowsPool(f, t, o);
    TaskMovesItself(f, t, o);
    TaskPublishes(f, t, o);
    TaskStaysInFarm(f, t, o);
    BindingComesBeforePublishing(f, t, o);
    WellFormedAfterTask(f, RunTask(f, t, o), t);
  }

  lemma WellFormedAfterTask(f: State, g: State, t: TaskId)
    requires WellFormed(f) && t in f.tasks && PoolGrows(f.pool, g.pool) && g.nextTask == f.nextTask
    requires g.tasks == if t in g.tasks then f.tasks[t := g.tasks[t]] else f.tasks - {t}
    requires t in g.tasks && InstOf(g.tasks[t]).Some? ==> InstOf(g.tasks[t]).value in g.pool.insts
    requires t in g.tasks && g.tasks[t].PublishSession? ==> g.tasks[t].session == f.nextSession && f.tasks[t].BindSession?
    requires f.nextSession <= g.nextSession && (f.tasks[t].BindSession? ==> g.nextSession == f.nextSession + 1)
    requires if f.tasks[t].PublishSession?
             then exists sess: Session {:trigger f.sessions[f.tasks[t].session := sess]} ::
                    sess.inst == f.tasks[t].inst && g.sessions == f.sessions[f.tasks[t].session := sess]
             else g.sessions == f.sessions
    ensures WellFormed(g)
  {
    assert forall u :: u in g.tasks && u != t ==> u in f.tasks && g.tasks[u] == f.tasks[u];
  }

  lemma EnvironmentKeepsWellFormed(f: State, st: Step)
    requires WellFormed(f) && Enabled(f, st) && !st.Advance?
    ensures WellFormed(Apply(f, st))
  {
    var g := Apply(f, st);
    EnvironmentFrame(f, st);
    assert f.nextTask in g.tasks ==> !g.tasks[f.nextTask].PublishSession?;
    assert f.nextTask in g.tasks && InstOf(g.tasks[f.nextTask]).Some? ==> InstOf(g.tasks[f.nextTask]).value in g.pool.insts;
    WellFormedAfterEnvironment(f, g);
  }

  lemma WellFormedAfterEnvironment(f: State, g: State)
    requires WellFormed(f) && PoolGrows(f.pool, g.pool)
    requires AtMostOneSpawned(f, g)
    requires f.nextTask in g.tasks ==> !g.tasks[f.nextTask].PublishSession?
    requires f.nextTask in g.tasks && InstOf(g.tasks[f.nextTask]).Some? ==> InstOf(g.tasks[f.nextTask]).value in g.pool.insts
    requires g.sessions.Keys == f.sessions.Keys && g.nextSession == f.nextSession
    requires forall s :: s in f.sessions ==> g.sessions[s].inst == f.sessions[s].inst
    ensures WellFormed(g)
  {
    assert forall u :: u in g.tasks && u != f.nextTask ==> u in f.tasks && g.tasks[u] == f.tasks[u];
  }

  lemma StepKeepsWellFormed(f: State, st: Step)
    requires WellFormed(f) && Enabled(f, st)
    ensures WellFormed(Apply(f, st))
  {
    if st.Advance? {
      TaskKeepsWellFormed(f, st.task, st.oracle);
    } else {
      EnvironmentKeepsWellFormed(f, st);
    }
  }

  // ---- Who may use a device ----

  datatype Claimant = ByTask(task: TaskId) | BySession(session: SessionId)

  datatype Role = Maker | User | Cleaner

  /** Whose claims count: of those who have a device in hand, or also of the releases that are on their way to
      it and have not begun to reset it. */
  datatype Scope = InHand | WithReleases

  /** The part a task plays for the device it has in hand: bringing it up, using it or about to stop
      using it, or cleaning it. The other tasks only hope for a device or take one away. */
  function RoleOf(task: Task, scope: Scope): Option<(InstanceId, Role)> {
    match task
    case StartBoot(i, _, _) => Some((i, Maker))
    case Prepare(i, _, _) => Some((i, Maker))
    case FinishBoot(i, _, _) => Some((i, Maker))
    case AdoptWarm(i) => Some((i, Maker))
    case BindSession(i) => Some((i, User))
    case PublishSession(i, _) => Some((i, User))
    case PoolRelease(i) => if scope.WithReleases? then Some((i, User)) else None
    case ProbeDevice(i) => if scope.WithReleases? then Some((i, User)) else None
    case ClearAfterReset(i) => Some((i, Cleaner))
    case ResetDevice(i) => Some((i, Cleaner))
    case _ => None
  }

  function ClaimOf(f: State, c: Claimant, scope: Scope): Option<(InstanceId, Role)> {
    match c
    case ByTask(t) => if t in f.tasks then RoleOf(f.tasks[t], scope) else None
    case BySession(s) =>
      if s in f.sessions && f.sessions[s].IsActive() then Some((f.sessions[s].inst, User)) else None
  }

  /** The states a device may be in while somebody plays that part for it; none of them is Warm. */
  predicate Fits(role: Role, s: DeviceState) {
    || s == Error
    || s == Destroying
    || match role
       case Maker => s == Creating || s == Booting
       case User => s == Allocated
       case Cleaner => s == Resetting
  }

  /** Every device has at most one claimant, and its state fits the claim. */
  ghost predicate Exclusive(f: State, scope: Scope) {
    && (forall c, d | ClaimOf(f, c, scope).Some? && ClaimOf(f, d, scope).Some?
                      && ClaimOf(f, c, scope).value.0 == ClaimOf(f, d, scope).value.0 :: c == d)
    && (forall c :: ClaimOf(f, c, scope).Some? ==>
          ClaimOf(f, c, scope).value.0 in f.pool.insts
          && Fits(ClaimOf(f, c, scope).value.1, f.pool.insts[ClaimOf(f, c, scope).value.0].state))
  }

  /** The general shape of a step: everybody but one claimant keeps the claim or drops it, the devices
      still claimed keep their state or are declared lost, and the one claimant ends with nothing or with
      a device nobody else claims. */
  lemma ClaimMoves(f: State, g: State, me: Claimant, scope: Scope)
    requires Exclusive(f, scope)
    requires forall c :: c != me && ClaimOf(g, c, scope).Some? ==> ClaimOf(g, c, scope) == ClaimOf(f, c, scope)
    requires forall c :: c != me && ClaimOf(g, c, scope).Some? ==> StateKept(f, g, ClaimOf(f, c, scope).value.0)
    requires ClaimOf(g, me, scope).Some? ==>
               && ClaimOf(g, me, scope).value.0 in g.pool.insts
               && Fits(ClaimOf(g, me, scope).value.1, g.pool.insts[ClaimOf(g, me, scope).value.0].state)
               && forall c :: c != me && ClaimOf(g, c, scope).Some? ==> ClaimOf(f, c, scope).value.0 != ClaimOf(g, me, scope).value.0
    ensures Exclusive(g, scope)
  {
  }

  /** The device is where it was, or has been given up. */
  predicate StateKept(f: State, g: State, i: InstanceId) {
    i in f.pool.insts ==>
      i in g.pool.insts
      && (g.pool.insts[i].state == f.pool.insts[i].state || g.pool.insts[i].state in {Error, Destroying})
  }

  lemma WarmIsUnclaimed(f: State, i: InstanceId, scope: Scope)
    requires Exclusive(f, scope) && i in f.pool.insts && f.pool.insts[i].state == Warm
    ensures forall c :: ClaimOf(f, c, scope).Some? ==> ClaimOf(f, c, scope).value.0 != i
  {
  }

  lemma RetireKeepsExclusive(f: State, s: SessionId, why: SessionState, scope: Scope)
    requires WellFormed(f) && Exclusive(f, scope) && s in f.sessions
    requires f.sessions[s].IsActive() || scope.InHand?
    requires why != Active && why != Queued
    ensures Exclusive(Retire(f, s, why), scope)
  {
    var g := Retire(f, s, why);
    var spawned := ByTask(f.nextTask);
    assert ClaimOf(g, BySession(s), scope).None?;
    assert ClaimOf(g, spawned, scope) == if scope.InHand? then None else ClaimOf(f, BySession(s), scope);
    assert forall c :: c != spawned && c != BySession(s) ==> ClaimOf(g, c, scope) == ClaimOf(f, c, scope);
    ClaimMoves(f, g, spawned, scope);
  }

  lemma SameClaims(f: State, g: State, scope: Scope)
    requires Exclusive(f, scope) && g.tasks == f.tasks && g.sessions == f.sessions && g.pool == f.pool
    ensures Exclusive(g, scope)
  {
    assert forall c :: ClaimOf(g, c, scope) == ClaimOf(f, c, scope);
  }

  lemma EnvironmentGivesUpOnly(f: State, st: Step, i: InstanceId)
    requires Enabled(f, st) && !st.Advance? && f.pool.nextInst !in f.pool.insts
    ensures StateKept(f, Apply(f, st), i)
  {
  }

  /** A goroutine just started has nothing in hand, save for an adopted device nobody knows yet. */
  lemma EnvironmentSpawns(f: State, st: Step, scope: Scope)
    requires Enabled(f, st) && f.nextTask !in f.tasks
    requires !st.Advance? && !st.ReleaseSession? && !st.MarkTimedOut? && !st.RunEviction?
    ensures var g := Apply(f, st);
            && g.sessions == f.sessions
            && (f.nextTask in g.tasks && RoleOf(g.tasks[f.nextTask], scope).Some? ==>
                  RoleOf(g.tasks[f.nextTask], scope) == Some((f.pool.nextInst, Maker))
                  && f.pool.nextInst in g.pool.insts && g.pool.insts[f.pool.nextInst].state == Creating)
  {
  }

  /** The steps that start a goroutine, or touch one device, one flag or the clock. */
  lemma SpawnKeepsExclusive(f: State, st: Step, scope: Scope)
    requires WellFormed(f) && Exclusive(f, scope) && Enabled(f, st)
    requires !st.Advance? && !st.ReleaseSession? && !st.MarkTimedOut? && !st.RunEviction?
    ensures Exclusive(Apply(f, st), scope)
  {
    var g := Apply(f, st);
    EnvironmentFrame(f, st);
    EnvironmentSpawns(f, st, scope);
    forall i ensures StateKept(f, g, i) {
      EnvironmentGivesUpOnly(f, st, i);
    }
    ExclusiveAfterSpawn(f, g, scope);
  }

  lemma ExclusiveAfterSpawn(f: State, g: State, scope: Scope)
    requires WellFormed(f) && Exclusive(f, scope) && AtMostOneSpawned(f, g) && g.sessions == f.sessions
    requires f.nextTask in g.tasks && RoleOf(g.tasks[f.nextTask], scope).Some? ==>
               RoleOf(g.tasks[f.nextTask], scope) == Some((f.pool.nextInst, Maker))
               && f.pool.nextInst in g.pool.insts && g.pool.insts[f.pool.nextInst].state == Creating
    requires forall i :: StateKept(f, g, i)
    ensures Exclusive(g, scope)
  {
    assert ClaimOf(f, ByTask(f.nextTask), scope).None?;
    assert forall c :: c != ByTask(f.nextTask) ==> ClaimOf(g, c, scope) == ClaimOf(f, c, scope);
    ClaimMoves(f, g, ByTask(f.nextTask), scope);
  }

  lemma EnvironmentKeepsExclusive(f: State, st: Step, scope: Scope)
    requires WellFormed(f) && Exclusive(f, scope) && Enabled(f, st) && !st.Advance?
    requires scope.InHand? || !LateMark(f, st)
    ensures Exclusive(Apply(f, st), scope)
  {
    var g := Apply(f, st);
    if st.ReleaseSession? {
      RetireKeepsExclusive(f, st.session, Released, scope);
    } else if st.MarkTimedOut? {
      RetireKeepsExclusive(f, st.session, TimedOut, scope);
      SameClaims(Retire(f, st.session, TimedOut), g, scope);
    } else if st.RunEviction? {
      assert forall c :: ClaimOf(g, c, scope).Some? ==> ClaimOf(g, c, scope) == ClaimOf(f, c, scope);
      ClaimMoves(f, g, BySession(st.session), scope);
    } else {
      SpawnKeepsExclusive(f, st, scope);
    }
  }

  /** A task that is not publishing a session changes nobody's claim but its own. */
  lemma OtherClaimsStand(f: State, t: TaskId, o: Oracle, c: Claimant, scope: Scope)
    requires WellFormed(f) && t in f.tasks && TaskEnabled(f, f.tasks[t], o)
    requires c != ByTask(t)
    requires f.tasks[t].PublishSession? ==> c != BySession(f.tasks[t].session)
    ensures ClaimOf(RunTask(f, t, o), c, scope) == ClaimOf(f, c, scope)
  {
    TaskMovesItself(f, t, o);
    TaskPublishes(f, t, o);
    var g := RunTask(f, t, o);
    match c
    case ByTask(u) => assert (u in g.tasks <==> u in f.tasks) && (u in f.tasks ==> g.tasks[u] == f.tasks[u]);
    case BySession(r) => assert (r in g.sessions <==> r in f.sessions) && (r in f.sessions ==> g.sessions[r] == f.sessions[r]);
  }

  /** A release finds its device reachable and starts to reset it, although somebody else has it in hand. */
  ghost predicate TakesBack(f: State, st: Step, c: Claimant) {
    && st.Advance? && st.task in f.tasks && f.tasks[st.task].ProbeDevice? && st.oracle.ok
    && f.tasks[st.task].inst in f.pool.insts && CanTransition(f.pool, f.tasks[st.task].inst, Resetting)
    && ClaimOf(f, c, InHand).Some? && ClaimOf(f, c, InHand).value.0 == f.tasks[st.task].inst
  }

  ghost predicate TakesBackHeld(f: State, st: Step) {
    exists c :: TakesBack(f, st, c)
  }

  /** Where releases count, none takes back what somebody has. */
  lemma NothingIsTakenBack(f: State, st: Step)
    requires Exclusive(f, WithReleases)
    ensures Exclusive(f, InHand) && !TakesBackHeld(f, st)
  {
    assert forall c :: ClaimOf(f, c, InHand).Some? ==> ClaimOf(f, c, WithReleases) == ClaimOf(f, c, InHand);
    if st.Advance? && st.task in f.tasks && f.tasks[st.task].ProbeDevice? {
      var me := ByTask(st.task);
      assert ClaimOf(f, me, WithReleases) == Some((f.tasks[st.task].inst, User)) && ClaimOf(f, me, InHand).None?;
    }
  }

  /** The regions that change the state of a device, and what lets them do it. */
  predicate MayChange(f: State, t: TaskId, o: Oracle, i: InstanceId)
    requires t in f.tasks
  {
    || (i in f.pool.insts && f.pool.insts[i].state == Warm)
    || (RoleOf(f.tasks[t], InHand).Some? && RoleOf(f.tasks[t], InHand).value.0 == i)
    || (f.tasks[t] == ProbeDevice(i) && o.ok && i in f.pool.insts && CanTransition(f.pool, i, Resetting))
  }

  lemma OthersGiveUpOnly(f: State, t: TaskId, o: Oracle, i: InstanceId)
    requires t in f.tasks && TaskEnabled(f, f.tasks[t], o) && i in f.pool.insts && i != f.pool.nextInst
    requires !MayChange(f, t, o, i)
    ensures StateKept(f, RunTask(f, t, o), i)
  {
    match f.tasks[t]
    case Claim(_) =>
    case ProbeDevice(_) =>
    case _ =>
  }

  /** No region changes the state of a device somebody else claims, except to give it up. */
  lemma ClaimedStatesStand(f: State, t: TaskId, o: Oracle, c: Claimant, scope: Scope)
    requires WellFormed(f) && Exclusive(f, scope) && t in f.tasks && TaskEnabled(f, f.tasks[t], o)
    requires scope.InHand? ==> !TakesBackHeld(f, Advance(t, o))
    requires c != ByTask(t) && ClaimOf(f, c, scope).Some?
    ensures StateKept(f, RunTask(f, t, o), ClaimOf(f, c, scope).value.0)
  {
    var i := ClaimOf(f, c, scope).value.0;
    assert RoleOf(f.tasks[t], scope).Some? ==> ClaimOf(f, ByTask(t), scope) == RoleOf(f.tasks[t], scope);
    assert RoleOf(f.tasks[t], scope).Some? ==> RoleOf(f.tasks[t], scope).value.0 != i;
    assert scope.InHand? ==> !TakesBack(f, Advance(t, o), c);
    OthersGiveUpOnly(f, t, o, i);
  }

  lemma MakerKeepsDevice(f: State, t: TaskId, o: Oracle, scope: Scope)
    requires t in f.tasks && TaskEnabled(f, f.tasks[t], o) && RoleOf(f.tasks[t], scope).Some?
    requires RoleOf(f.tasks[t], scope).value.0 in f.pool.insts
    requires Fits(RoleOf(f.tasks[t], scope).value.1, f.pool.insts[RoleOf(f.tasks[t], scope).value.0].state)
    requires ClaimOf(RunTask(f, t, o), ByTask(t), scope).Some?
    requires RoleOf(f.tasks[t], scope).value.1.Maker?
    ensures var (i, role) := ClaimOf(RunTask(f, t, o), ByTask(t), scope).value;
            && i == RoleOf(f.tasks[t], scope).value.0 && i in RunTask(f, t, o).pool.insts
            && Fits(role, RunTask(f, t, o).pool.insts[i].state)
  {
    match f.tasks[t]
    case StartBoot(_, _, _) =>
    case Prepare(_, _, _) =>
    case FinishBoot(_, _, _) =>
    case AdoptWarm(_) =>
  }

  /** A task that has a device in hand keeps it, in a state that fits its part, or drops it. */
  lemma OwnClaimKept(f: State, t: TaskId, o: Oracle, scope: Scope)
    requires t in f.tasks && TaskEnabled(f, f.tasks[t], o) && RoleOf(f.tasks[t], scope).Some?
    requires RoleOf(f.tasks[t], scope).value.0 in f.pool.insts
    requires Fits(RoleOf(f.tasks[t], scope).value.1, f.pool.insts[RoleOf(f.tasks[t], scope).value.0].state)
    requires ClaimOf(RunTask(f, t, o), ByTask(t), scope).Some?
    ensures var (i, role) := ClaimOf(RunTask(f, t, o), ByTask(t), scope).value;
            && i == RoleOf(f.tasks[t], scope).value.0 && i in RunTask(f, t, o).pool.insts
            && Fits(role, RunTask(f, t, o).pool.insts[i].state)
  {
    if RoleOf(f.tasks[t], scope).value.1.Maker? {
      MakerKeepsDevice(f, t, o, scope);
    } else {
      match f.tasks[t]
      case BindSession(_) =>
      case PublishSession(_, _) =>
      case PoolRelease(_) =>
      case ProbeDevice(_) =>
      case ClearAfterReset(_) =>
      case ResetDevice(_) =>
    }
  }

  /** A task that gains a part for a device takes it while it is Warm or has just made it. */
  lemma OwnClaimGained(f: State, t: TaskId, o: Oracle, scope: Scope)
    requires t in f.tasks && TaskEnabled(f, f.tasks[t], o) && RoleOf(f.tasks[t], scope).None?
    requires !f.tasks[t].ProbeDevice? && ClaimOf(RunTask(f, t, o), ByTask(t), scope).Some?
    ensures var (i, role) := ClaimOf(RunTask(f, t, o), ByTask(t), scope).value;
            && (i == f.pool.nextInst || (i in f.pool.insts && f.pool.insts[i].state == Warm))
            && i in RunTask(f, t, o).pool.insts && Fits(role, RunTask(f, t, o).pool.insts[i].state)
  {
    match f.tasks[t]
    case FindWarm(_, _) =>
    case FindById(_, _) =>
    case FindByName(_, _) =>
    case CreateInst(_, _) =>
    case Claim(_) =>
    case _ =>
  }

  /** Whatever a task has in hand after a region, nobody else had before. */
  lemma OwnClaimIsNew(f: State, t: TaskId, o: Oracle, scope: Scope)
    requires WellFormed(f) && Exclusive(f, scope) && t in f.tasks && TaskEnabled(f, f.tasks[t], o)
    requires scope.InHand? ==> !f.tasks[t].ProbeDevice?
    requires ClaimOf(RunTask(f, t, o), ByTask(t), scope).Some?
    ensures var (i, role) := ClaimOf(RunTask(f, t, o), ByTask(t), scope).value;
            && i in RunTask(f, t, o).pool.insts && Fits(role, RunTask(f, t, o).pool.insts[i].state)
            && forall c :: c != ByTask(t) && ClaimOf(f, c, scope).Some? ==> ClaimOf(f, c, scope).value.0 != i
  {
    assert RoleOf(f.tasks[t], scope) == ClaimOf(f, ByTask(t), scope);
    if RoleOf(f.tasks[t], scope).Some? {
      OwnClaimKept(f, t, o, scope);
    } else {
      OwnClaimGained(f, t, o, scope);
    }
  }

  /** A release that starts to reset a device takes it into its hand. */
  lemma ProbeClaimsWhatIsFree(f: State, t: TaskId, o: Oracle)
    requires Exclusive(f, InHand) && t in f.tasks && TaskEnabled(f, f.tasks[t], o) && f.tasks[t].ProbeDevice?
    requires !TakesBackHeld(f, Advance(t, o)) && ClaimOf(RunTask(f, t, o), ByTask(t), InHand).Some?
    ensures ClaimOf(RunTask(f, t, o), ByTask(t), InHand) == Some((f.tasks[t].inst, Cleaner))
    ensures f.tasks[t].inst in RunTask(f, t, o).pool.insts
    ensures RunTask(f, t, o).pool.insts[f.tasks[t].inst].state == Resetting
    ensures forall c :: ClaimOf(f, c, InHand).Some? ==> ClaimOf(f, c, InHand).value.0 != f.tasks[t].inst
  {
    match f.tasks[t] case ProbeDevice(i) =>
    assert o.ok && CanTransition(f.pool, i, Resetting);
    forall c | ClaimOf(f, c, InHand).Some? ensures ClaimOf(f, c, InHand).value.0 != i {
      assert !TakesBack(f, Advance(t, o), c);
    }
  }

  lemma TaskKeepsExclusive(f: State, t: TaskId, o: Oracle, scope: Scope)
    requires WellFormed(f) && Exclusive(f, scope) && t in f.tasks && TaskEnabled(f, f.tasks[t], o)
    requires scope.InHand? ==> !TakesBackHeld(f, Advance(t, o))
    ensures Exclusive(RunTask(f, t, o), scope)
  {
    var g := RunTask(f, t, o);
    forall c | c != ByTask(t) && !(f.tasks[t].PublishSession? && c == BySession(f.tasks[t].session))
      ensures ClaimOf(g, c, scope) == ClaimOf(f, c, scope)
      ensures ClaimOf(f, c, scope).Some? ==> StateKept(f, g, ClaimOf(f, c, scope).value.0)
    {
      OtherClaimsStand(f, t, o, c, scope);
      if ClaimOf(f, c, scope).Some? { ClaimedStatesStand(f, t, o, c, scope); }
    }
    if f.tasks[t].PublishSession? {
      assert ClaimOf(g, BySession(f.tasks[t].session), scope) == ClaimOf(f, ByTask(t), scope);
      assert ClaimOf(g, ByTask(t), scope).None?;
      ClaimMoves(f, g, BySession(f.tasks[t].session), scope);
    } else {
      if ClaimOf(g, ByTask(t), scope).Some? {
        if scope.InHand? && f.tasks[t].ProbeDevice? {
          ProbeClaimsWhatIsFree(f, t, o);
        } else {
          OwnClaimIsNew(f, t, o, scope);
        }
      }
      ClaimMoves(f, g, ByTask(t), scope);
    }
  }

  lemma TakingBackAddsClaim(f: State, st: Step)
    requires WellFormed(f) && Enabled(f, st) && TakesBackHeld(f, st)
    ensures !Exclusive(Apply(f, st), InHand)
  {
    var c :| TakesBack(f, st, c);
    var g, t := Apply(f, st), st.task;
    assert ClaimOf(f, ByTask(t), InHand).None?;
    OtherClaimsStand(f, t, st.oracle, c, InHand);
    assert ClaimOf(g, ByTask(t), InHand) == Some((f.tasks[t].inst, Cleaner));
    assert ClaimOf(g, c, InHand) == ClaimOf(f, c, InHand);
  }

  /** A step leaves every device in at most one hand if and only if it does not start to reset a device that
      somebody else has in hand. */
  lemma StepKeepsExclusiveExactlyWhen(f: State, st: Step)
    requires WellFormed(f) && Exclusive(f, InHand) && Enabled(f, st)
    ensures Exclusive(Apply(f, st), InHand) <==> !TakesBackHeld(f, st)
  {
    if TakesBackHeld(f, st) {
      TakingBackAddsClaim(f, st);
    } else if st.Advance? {
      TaskKeepsExclusive(f, st.task, st.oracle, InHand);
    } else {
      EnvironmentKeepsExclusive(f, st, InHand);
    }
  }

  ghost predicate ExclusiveThroughout(f: State, run: seq<Step>)
    decreases |run|
  {
    Exclusive(f, InHand) && (run == [] || (Enabled(f, run[0]) && ExclusiveThroughout(Apply(f, run[0]), run[1..])))
  }

  ghost predicate NeverTakesBack(f: State, run: seq<Step>)
    decreases |run|
  {
    run == [] || (Enabled(f, run[0]) && !TakesBackHeld(f, run[0]) && NeverTakesBack(Apply(f, run[0]), run[1..]))
  }

  lemma {:induction false} RunKeepsExclusiveExactlyWhen(f: State, run: seq<Step>)
    requires WellFormed(f) && Exclusive(f, InHand)
    ensures ExclusiveThroughout(f, run) <==> NeverTakesBack(f, run)
    decreases |run|
  {
    if run != [] && Enabled(f, run[0]) {
      StepKeepsWellFormed(f, run[0]);
      StepKeepsExclusiveExactlyWhen(f, run[0]);
      if Exclusive(Apply(f, run[0]), InHand) {
        RunKeepsExclusiveExactlyWhen(Apply(f, run[0]), run[1..]);
      }
    }
  }

  /** From the empty farm on, every device is in at most one hand all along a run, in a state that fits, if and
      only if no release of the run starts to reset a device that somebody else has in hand. */
  lemma RunIsExclusiveExactlyWhen(capacity: nat, run: seq<Step>)
    ensures ExclusiveThroughout(Init(capacity), run) <==> NeverTakesBack(Init(capacity), run)
  {
    RunKeepsExclusiveExactlyWhen(Init(capacity), run);
  }

  // ---- Punctual runs ----

  lemma {:induction false} PunctualRunsKeepExclusive(f: State, run: seq<Step>)
    requires WellFormed(f) && Exclusive(f, WithReleases) && Punctual(f, run)
    ensures Legal(f, run) && WellFormed(Final(f, run)) && Exclusive(Final(f, run), WithReleases)
    ensures NeverTakesBack(f, run)
    decreases |run|
  {
    if run != [] {
      NothingIsTakenBack(f, run[0]);
      StepKeepsWellFormed(f, run[0]);
      if run[0].Advance? {
        TaskKeepsExclusive(f, run[0].task, run[0].oracle, WithReleases);
      } else {
        EnvironmentKeepsExclusive(f, run[0], WithReleases);
      }
      PunctualRunsKeepExclusive(Apply(f, run[0]), run[1..]);
    }
  }
}
