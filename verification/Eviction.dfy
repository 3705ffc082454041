/** A session whose device disappears is told so: over every punctual run an active session either still
    has its device, or the callback that will interrupt it is on its way. The one exception is a session
    published after its device had already gone, with no callback for it pending. */
module Eviction {
  import opened Options
  import opened DeviceStates
  import opened PoolModel
  import opened Farm
  import opened Ownership

  /** The session still has its device, which carries the session's id. */
  predicate HasDevice(f: State, s: SessionId)
    requires s in f.sessions
  {
    var i := f.sessions[s].inst;
    i in f.pool.tracked && i in f.pool.insts && f.pool.insts[i].session == Some(s)
    && f.pool.insts[i].state in {Allocated, Error, Destroying}
  }

  /** The device is gone and the session is about to be told. */
  predicate WillBeTold(f: State, s: SessionId)
    requires s in f.sessions
  {
    f.sessions[s].inst !in f.pool.tracked && (f.sessions[s].inst, s) in f.evictions
  }

  /** A session is published although its device is gone and no callback for it is pending. */
  predicate LatePublish(f: State, st: Step, s: SessionId) {
    && st.Advance? && st.task in f.tasks && f.tasks[st.task].PublishSession? && f.tasks[st.task].session == s
    && f.tasks[st.task].inst !in f.pool.tracked
    && (f.tasks[st.task].inst, s) !in f.evictions
  }

  // ---- Tracked devices carry the id of the session using them ----

  /** The device and session id that a published session, or one about to be published, stands for. */
  function Badge(f: State, c: Claimant): Option<(InstanceId, SessionId)> {
    match c
    case ByTask(t) =>
      if t in f.tasks && f.tasks[t].PublishSession? then Some((f.tasks[t].inst, f.tasks[t].session)) else None
    case BySession(s) =>
      if s in f.sessions && f.sessions[s].IsActive() then Some((f.sessions[s].inst, s)) else None
  }

  predicate Carries(f: State, i: InstanceId, s: SessionId) {
    i in f.pool.tracked && i in f.pool.insts ==> f.pool.insts[i].session == Some(s)
  }

  ghost predicate BadgesCarried(f: State) {
    forall c :: Badge(f, c).Some? ==> Carries(f, Badge(f, c).value.0, Badge(f, c).value.1)
  }

  lemma BadgeIsClaim(f: State, c: Claimant)
    requires Badge(f, c).Some?
    ensures ClaimOf(f, c, WithReleases) == Some((Badge(f, c).value.0, User))
  {
  }

  /** A device that a task plays no part for keeps the session id it carries. */
  lemma SessionFieldStands(f: State, t: TaskId, o: Oracle, i: InstanceId)
    requires t in f.tasks && TaskEnabled(f, f.tasks[t], o) && i in f.pool.insts && i != f.pool.nextInst
    requires RoleOf(f.tasks[t], WithReleases).Some? ==> RoleOf(f.tasks[t], WithReleases).value.0 != i
    ensures SessionFieldKept(f.pool, RunTask(f, t, o).pool, i)
  {
    match f.tasks[t]
    case BindSession(_) =>
    case _ =>
  }

  predicate SessionFieldKept(p: PoolState, q: PoolState, i: InstanceId) {
    i in p.insts && i in q.insts && q.insts[i].session == p.insts[i].session && (i in q.tracked ==> i in p.tracked)
  }

  lemma TaskKeepsBadges(f: State, t: TaskId, o: Oracle)
    requires WellFormed(f) && Exclusive(f, WithReleases) && BadgesCarried(f) && t in f.tasks && TaskEnabled(f, f.tasks[t], o)
    ensures BadgesCarried(RunTask(f, t, o))
  {
    var g := RunTask(f, t, o);
    var me := ByTask(t);
    TaskMovesItself(f, t, o);
    TaskPublishes(f, t, o);
    forall c | Badge(g, c).Some? ensures Carries(g, Badge(g, c).value.0, Badge(g, c).value.1) {
      var (i, s) := Badge(g, c).value;
      if c == me {
        assert f.tasks[t] == BindSession(i);
      } else if f.tasks[t].PublishSession? && c == BySession(f.tasks[t].session) {
        assert Badge(f, me) == Some((i, s));
      } else {
        assert Badge(f, c) == Badge(g, c);
        BadgeIsClaim(f, c);
        assert RoleOf(f.tasks[t], WithReleases).Some? ==> ClaimOf(f, me, WithReleases) == RoleOf(f.tasks[t], WithReleases);
        SessionFieldStands(f, t, o, i);
      }
    }
  }

  lemma EnvironmentKeepsBadges(f: State, st: Step)
    requires WellFormed(f) && BadgesCarried(f) && Enabled(f, st) && !st.Advance?
    ensures BadgesCarried(Apply(f, st))
  {
    var g := Apply(f, st);
    EnvironmentFrame(f, st);
    forall c | Badge(g, c).Some? ensures Carries(g, Badge(g, c).value.0, Badge(g, c).value.1) {
      var (i, s) := Badge(g, c).value;
      assert Badge(f, c) == Badge(g, c);
      assert i in f.pool.insts;
      assert g.pool.insts[i].session == f.pool.insts[i].session;
    }
  }

  // ---- Vanished devices ----

  /** An active session whose device is gone is about to be told or was published too late, and one
      published too late never gets told. */
  ghost predicate LossesKnown(f: State) {
    && (forall s :: s in f.sessions && f.sessions[s].IsActive() && f.sessions[s].inst !in f.pool.tracked ==>
          (f.sessions[s].inst, s) in f.evictions || s in f.orphans)
    && (forall s :: s in f.orphans ==>
          s in f.sessions && f.sessions[s].inst !in f.pool.tracked && (f.sessions[s].inst, s) !in f.evictions)
  }

  lemma EnvironmentKeepsLossesKnown(f: State, st: Step)
    requires WellFormed(f) && LossesKnown(f) && Enabled(f, st) && !st.Advance?
    ensures LossesKnown(Apply(f, st))
  {
    var g := Apply(f, st);
    EnvironmentFrame(f, st);
    assert g.orphans == f.orphans && g.evictions <= f.evictions;
    forall s | s in g.sessions && g.sessions[s].IsActive() && g.sessions[s].inst !in g.pool.tracked
      ensures (g.sessions[s].inst, s) in g.evictions || s in g.orphans
    {
      assert f.sessions[s].IsActive();
    }
  }

  /** Devices vanish, and callbacks start, only where a device is removed. */
  lemma OtherRegionsLoseNothing(f: State, t: TaskId, o: Oracle)
    requires t in f.tasks && TaskEnabled(f, f.tasks[t], o) && !f.tasks[t].Remove?
    ensures RunTask(f, t, o).evictions == f.evictions && f.pool.tracked <= RunTask(f, t, o).pool.tracked
    ensures RunTask(f, t, o).orphans == f.orphans + LatelyPublished(f, f.tasks[t])
  {
  }

  /** What a region adds to the orphans. */
  function LatelyPublished(f: State, task: Task): set<SessionId> {
    match task
    case PublishSession(i, s) => if i in f.pool.tracked || (i, s) in f.evictions then {} else {s}
    case _ => {}
  }

  lemma LossesStayKnown(f: State, g: State, t: TaskId)
    requires WellFormed(f) && LossesKnown(f) && t in f.tasks && PoolGrows(f.pool, g.pool)
    requires g.evictions == f.evictions && f.pool.tracked <= g.pool.tracked
    requires g.orphans == f.orphans + LatelyPublished(f, f.tasks[t])
    requires if f.tasks[t].PublishSession?
             then exists sess: Session {:trigger f.sessions[f.tasks[t].session := sess]} ::
                    sess.inst == f.tasks[t].inst && g.sessions == f.sessions[f.tasks[t].session := sess]
             else g.sessions == f.sessions
    ensures LossesKnown(g)
  {
    assert forall i :: i in f.pool.insts ==> (i in f.pool.tracked <==> i in g.pool.tracked);
  }

  lemma TaskKeepsLossesKnown(f: State, t: TaskId, o: Oracle)
    requires WellFormed(f) && BadgesCarried(f) && LossesKnown(f) && t in f.tasks && TaskEnabled(f, f.tasks[t], o)
    ensures LossesKnown(RunTask(f, t, o))
  {
    var g := RunTask(f, t, o);
    TaskPublishes(f, t, o);
    TaskGrowsPool(f, t, o);
    if f.tasks[t].Remove? {
      forall s | s in f.sessions && f.sessions[s].IsActive() && f.sessions[s].inst !in g.pool.tracked
        ensures (f.sessions[s].inst, s) in g.evictions || s in g.orphans
      {
        assert Badge(f, BySession(s)) == Some((f.sessions[s].inst, s));
      }
    } else {
      OtherRegionsLoseNothing(f, t, o);
      LossesStayKnown(f, g, t);
    }
  }

  lemma {:induction false} PunctualRunsKeepAccounts(f: State, run: seq<Step>)
    requires WellFormed(f) && Exclusive(f, WithReleases) && BadgesCarried(f) && LossesKnown(f) && Punctual(f, run)
    ensures Legal(f, run) && BadgesCarried(Final(f, run)) && LossesKnown(Final(f, run))
    decreases |run|
  {
    if run != [] {
      StepKeepsWellFormed(f, run[0]);
      if run[0].Advance? {
        TaskKeepsExclusive(f, run[0].task, run[0].oracle, WithReleases);
        TaskKeepsBadges(f, run[0].task, run[0].oracle);
        TaskKeepsLossesKnown(f, run[0].task, run[0].oracle);
      } else {
        EnvironmentKeepsExclusive(f, run[0], WithReleases);
        EnvironmentKeepsBadges(f, run[0]);
        EnvironmentKeepsLossesKnown(f, run[0]);
      }
      PunctualRunsKeepAccounts(Apply(f, run[0]), run[1..]);
    }
  }

  /** Somewhere in the run the session is published late. */
  ghost predicate PublishedLate(f: State, run: seq<Step>, s: SessionId)
    requires Legal(f, run)
    decreases |run|
  {
    run != [] && (LatePublish(f, run[0], s) || PublishedLate(Apply(f, run[0]), run[1..], s))
  }

  lemma OneLatePublication(f: State, st: Step, s: SessionId)
    requires Enabled(f, st)
    ensures s in Apply(f, st).orphans <==> s in f.orphans || LatePublish(f, st, s)
  {
    match st
    case Advance(t, o) =>
      match f.tasks[t] {
        case PublishSession(_, _) =>
        case _ =>
      }
    case _ =>
  }

  lemma {:induction false} OrphansWerePublishedLate(f: State, run: seq<Step>, s: SessionId)
    requires Legal(f, run)
    ensures s in Final(f, run).orphans <==> s in f.orphans || PublishedLate(f, run, s)
    decreases |run|
  {
    if run != [] {
      OneLatePublication(f, run[0], s);
      OrphansWerePublishedLate(Apply(f, run[0]), run[1..], s);
    }
  }

  /** In every state of every punctual run an active session has its device, marked with its own id, or
      will be told that the device vanished, if and only if the run did not publish it after its device had
      gone, with no callback for it pending. */
  lemma ActiveSessionsAreWatched(capacity: nat, run: seq<Step>, s: SessionId)
    requires Punctual(Init(capacity), run)
    ensures Legal(Init(capacity), run)
    ensures var f := Final(Init(capacity), run);
            s in f.sessions && f.sessions[s].IsActive() ==>
              (HasDevice(f, s) || WillBeTold(f, s) <==> !PublishedLate(Init(capacity), run, s))
  {
    PunctualRunsKeepExclusive(Init(capacity), run);
    PunctualRunsKeepAccounts(Init(capacity), run);
    OrphansWerePublishedLate(Init(capacity), run, s);
    var f := Final(Init(capacity), run);
    if s in f.sessions && f.sessions[s].IsActive() {
      assert ClaimOf(f, BySession(s), WithReleases) == Some((f.sessions[s].inst, User));
      assert Badge(f, BySession(s)) == Some((f.sessions[s].inst, s));
    }
  }

  /** Once the pending callbacks have run, the devices named by active sessions are there, save for
      sessions published too late. */
  lemma NoSessionOutlivesItsDevice(capacity: nat, run: seq<Step>, s: SessionId)
    requires Punctual(Init(capacity), run)
    ensures Legal(Init(capacity), run)
    ensures var f := Final(Init(capacity), run);
            f.evictions == {} && s in f.sessions && f.sessions[s].IsActive() ==>
              (HasDevice(f, s) <==> !PublishedLate(Init(capacity), run, s))
  {
    ActiveSessionsAreWatched(capacity, run, s);
  }

  /** When the session is bound and published in one go, with nothing in between, on a device that is
      still tracked, the publication is not late. */
  lemma BindingAtOnceIsNeverLate(f: State, t: TaskId, o: Oracle, o2: Oracle)
    requires WellFormed(f) && t in f.tasks && f.tasks[t].BindSession?
    requires f.tasks[t].inst in f.pool.tracked && f.pool.insts[f.tasks[t].inst].state == Allocated
    ensures Legal(f, [Advance(t, o), Advance(t, o2)])
    ensures var h := Final(f, [Advance(t, o), Advance(t, o2)]);
            h.orphans == f.orphans && f.nextSession in h.sessions && h.sessions[f.nextSession].IsActive()
            && HasDevice(h, f.nextSession)
  {
    match f.tasks[t] case BindSession(i) =>
    var g := RunTask(f, t, o);
    assert g.tasks[t] == PublishSession(i, f.nextSession) && g.pool == WithSession(f.pool, i, Some(f.nextSession));
    TwoSteps(f, Advance(t, o), Advance(t, o2));
  }

  lemma TwoSteps(f: State, a: Step, b: Step)
    requires Enabled(f, a) && Enabled(Apply(f, a), b)
    ensures Legal(f, [a, b]) && Final(f, [a, b]) == Apply(Apply(f, a), b)
  {
    assert [a, b][1..] == [b] && [b][1..] == [];
    assert Legal(Apply(Apply(f, a), b), []) && Final(Apply(Apply(f, a), b), []) == Apply(Apply(f, a), b);
    assert Legal(Apply(f, a), [b]) && Final(Apply(f, a), [b]) == Apply(Apply(f, a), b);
  }
}
