/** The life of one session: it leaves Active at most once, for good, and pool.Release is issued at most
    once for it, over every punctual run. */
module SessionLife {
  import opened Options
  import opened PoolModel
  import opened Farm
  import opened Ownership

  predicate Settled(f: State, s: SessionId) {
    s in f.sessions && !f.sessions[s].IsActive()
  }

  /** An active session has no release time and its device has not been sent back; a finished one has a
      release time, and was sent back exactly when a client or the timeout ended it. */
  predicate Consistent(sess: Session) {
    && sess.state in {Active, Released, TimedOut, Interrupted}
    && (sess.releasedAt.Some? <==> sess.state != Active)
    && sess.poolReleases == if sess.state in {Released, TimedOut} then 1 else 0
  }

  ghost predicate AllConsistent(f: State) {
    forall s :: s in f.sessions ==> Consistent(f.sessions[s])
  }

  lemma StepKeepsConsistent(f: State, st: Step)
    requires WellFormed(f) && AllConsistent(f) && Enabled(f, st) && !LateMark(f, st)
    ensures AllConsistent(Apply(f, st))
  {
    if st.Advance? {
      TaskPublishes(f, st.task, st.oracle);
    }
  }

  ghost predicate FinishedStay(f: State, g: State) {
    forall s :: Settled(f, s) ==> s in g.sessions && g.sessions[s] == f.sessions[s]
  }

  /** One step leaves every finished session exactly as it is, if and only if the step is not a timeout
      mark that comes too late. */
  lemma OnlyLateMarksRewriteHistory(f: State, st: Step)
    requires WellFormed(f) && AllConsistent(f) && Enabled(f, st)
    ensures FinishedStay(f, Apply(f, st)) <==> !LateMark(f, st)
  {
    var g := Apply(f, st);
    if st.Advance? {
      TaskPublishes(f, st.task, st.oracle);
    } else if LateMark(f, st) {
      var s := st.session;
      assert g.sessions[s].poolReleases == f.sessions[s].poolReleases + 1;
      assert Settled(f, s) && g.sessions[s] != f.sessions[s];
    }
  }

  ghost predicate HistoryStands(f: State, run: seq<Step>)
    decreases |run|
  {
    run == [] || (Enabled(f, run[0]) && FinishedStay(f, Apply(f, run[0])) && HistoryStands(Apply(f, run[0]), run[1..]))
  }

  /** No finished session is ever touched again in a run exactly when every timeout mark of the run finds its
      session still active. */
  lemma {:induction false} HistoryStandsExactlyInPunctualRuns(f: State, run: seq<Step>)
    requires WellFormed(f) && AllConsistent(f)
    ensures HistoryStands(f, run) <==> Punctual(f, run)
    decreases |run|
  {
    if run != [] && Enabled(f, run[0]) {
      OnlyLateMarksRewriteHistory(f, run[0]);
      if !LateMark(f, run[0]) {
        StepKeepsWellFormed(f, run[0]);
        StepKeepsConsistent(f, run[0]);
        HistoryStandsExactlyInPunctualRuns(Apply(f, run[0]), run[1..]);
      }
    }
  }

  lemma {:induction false} PunctualRunsKeepConsistent(f: State, run: seq<Step>)
    requires WellFormed(f) && AllConsistent(f) && Punctual(f, run)
    ensures Legal(f, run) && WellFormed(Final(f, run)) && AllConsistent(Final(f, run))
    decreases |run|
  {
    if run != [] {
      StepKeepsWellFormed(f, run[0]);
      StepKeepsConsistent(f, run[0]);
      PunctualRunsKeepConsistent(Apply(f, run[0]), run[1..]);
    }
  }

  /** Whatever happens later, a finished session keeps its final state, its release time and its count
      of pool releases: no second end, no return to Active, no second pool.Release. */
  lemma {:induction false} FinishedForGood(f: State, run: seq<Step>, s: SessionId)
    requires WellFormed(f) && AllConsistent(f) && Punctual(f, run) && Settled(f, s)
    ensures Legal(f, run) && s in Final(f, run).sessions && Final(f, run).sessions[s] == f.sessions[s]
    decreases |run|
  {
    if run != [] {
      StepKeepsWellFormed(f, run[0]);
      StepKeepsConsistent(f, run[0]);
      OnlyLateMarksRewriteHistory(f, run[0]);
      FinishedForGood(Apply(f, run[0]), run[1..], s);
    }
  }

  /** From the empty farm on: every session is active without a release time, or ended in exactly one of
      the three ways with one, and pool.Release was issued for it at most once; and every later state
      repeats what an earlier state says of a finished session. */
  lemma SessionsEndOnce(capacity: nat, before: seq<Step>, later: seq<Step>, s: SessionId)
    requires Punctual(Init(capacity), before)
    requires Legal(Init(capacity), before) && Punctual(Final(Init(capacity), before), later)
    ensures s in Final(Init(capacity), before).sessions ==> Consistent(Final(Init(capacity), before).sessions[s])
    ensures Legal(Final(Init(capacity), before), later)
    ensures Settled(Final(Init(capacity), before), s) ==>
              s in Final(Final(Init(capacity), before), later).sessions
              && Final(Final(Init(capacity), before), later).sessions[s] == Final(Init(capacity), before).sessions[s]
  {
    PunctualRunsKeepConsistent(Init(capacity), before);
    var f := Final(Init(capacity), before);
    PunctualIsLegal(f, later);
    if Settled(f, s) {
      FinishedForGood(f, later, s);
    }
  }

  // ---- One enforceTimeouts pass ----

  /** What the pass has marked is finished. */
  ghost predicate PassOnTrack(f: State, expired: set<SessionId>) {
    && f.pass.Some? && f.pass.value.expired == expired && f.pass.value.pending <= expired
    && (forall s :: s in expired ==> s in f.sessions)
    && (forall s :: s in expired && s !in f.pass.value.pending ==> Settled(f, s))
  }

  lemma StepKeepsPass(f: State, st: Step, expired: set<SessionId>)
    requires WellFormed(f) && PassOnTrack(f, expired) && Enabled(f, st) && !st.EndPass?
    ensures PassOnTrack(Apply(f, st), expired)
  {
    if st.Advance? {
      TaskPublishes(f, st.task, st.oracle);
    }
  }

  lemma {:induction false} RunKeepsPass(f: State, run: seq<Step>, expired: set<SessionId>)
    requires WellFormed(f) && PassOnTrack(f, expired) && Legal(f, run)
    requires forall k :: 0 <= k < |run| ==> !run[k].EndPass?
    ensures PassOnTrack(Final(f, run), expired)
    decreases |run|
  {
    if run != [] {
      StepKeepsWellFormed(f, run[0]);
      StepKeepsPass(f, run[0], expired);
      RunKeepsPass(Apply(f, run[0]), run[1..], expired);
    }
  }

  /** When a pass is over, whatever else happened meanwhile, every session that was active and expired
      at its scan has left Active. This needs no punctuality. */
  lemma PassEndsExpiredSessions(f: State, run: seq<Step>, s: SessionId)
    requires WellFormed(f) && f.pass.None? && Legal(Apply(f, ScanTimeouts), run)
    requires forall k :: 0 <= k < |run| ==> !run[k].EndPass?
    requires Enabled(Final(Apply(f, ScanTimeouts), run), EndPass)
    requires s in f.sessions && f.sessions[s].state == Active && f.clock > f.sessions[s].expiresAt
    ensures Settled(Final(Apply(f, ScanTimeouts), run), s)
  {
    StepKeepsWellFormed(f, ScanTimeouts);
    RunKeepsPass(Apply(f, ScanTimeouts), run, ExpiredSessions(f));
  }

  // ---- Not before its time ----

  /** The sessions a scan finds. */
  lemma OverdueMeans(sessions: map<SessionId, Session>, clock: nat, s: SessionId)
    ensures s in Overdue(sessions, clock) <==> s in sessions && sessions[s].state == Active && clock > sessions[s].expiresAt
  {
  }

  /** What is pending in a pass has expired, and whatever timed out did so after its time, up to now. */
  ghost predicate NoneTooSoon(f: State) {
    && (f.pass.Some? ==> forall s :: s in f.pass.value.pending ==> s in f.sessions && f.clock > f.sessions[s].expiresAt)
    && (forall s :: s in f.sessions && f.sessions[s].state == TimedOut ==>
          f.sessions[s].releasedAt.Some? && f.sessions[s].expiresAt < f.sessions[s].releasedAt.value <= f.clock)
  }

  /** How one step changes what a session says about its end, and when it expires. */
  lemma StepEndsSessions(f: State, st: Step, s: SessionId)
    requires Enabled(f, st) && !st.Advance? && s in Apply(f, st).sessions
    ensures s in f.sessions && Apply(f, st).sessions[s].expiresAt == f.sessions[s].expiresAt
    ensures match st
            case ReleaseSession(r) =>
              Apply(f, st).sessions[s] ==
                if s == r then f.sessions[s].(state := Released, releasedAt := Some(f.clock), poolReleases := f.sessions[s].poolReleases + 1)
                else f.sessions[s]
            case MarkTimedOut(r) =>
              Apply(f, st).sessions[s] ==
                if s == r then f.sessions[s].(state := TimedOut, releasedAt := Some(f.clock), poolReleases := f.sessions[s].poolReleases + 1)
                else f.sessions[s]
            case RunEviction(_, r) =>
              Apply(f, st).sessions[s] ==
                if s == r && f.sessions[s].state in {Active, Queued}
                then f.sessions[s].(state := Interrupted, releasedAt := Some(f.clock))
                else f.sessions[s]
            case _ => Apply(f, st).sessions[s] == f.sessions[s]
  {
  }

  /** Whoever ends a session is followed by one pool.Release of its device; an eviction by none. */
  lemma EndingsSendBack(f: State, s: SessionId)
    requires s in f.sessions
    ensures Enabled(f, ReleaseSession(s)) <==> f.sessions[s].state in {Active, Queued}
    ensures Enabled(f, ReleaseSession(s)) ==>
              Apply(f, ReleaseSession(s)).tasks == f.tasks[f.nextTask := PoolRelease(f.sessions[s].inst)]
    ensures Enabled(f, MarkTimedOut(s)) ==>
              Apply(f, MarkTimedOut(s)).tasks == f.tasks[f.nextTask := PoolRelease(f.sessions[s].inst)]
    ensures forall i :: Enabled(f, RunEviction(i, s)) ==> Apply(f, RunEviction(i, s)).tasks == f.tasks
  {
  }

  lemma PassIsScannedAndMarked(f: State, st: Step)
    requires Enabled(f, st) && Apply(f, st).pass.Some?
    ensures if st.ScanTimeouts? then Apply(f, st).pass.value.pending == Overdue(f.sessions, f.clock)
            else f.pass.Some? && Apply(f, st).pass.value.pending <= f.pass.value.pending
  {
    match st
    case Advance(t, o) => TaskLeavesPass(f, t, o);
    case _ =>
  }

  lemma TaskLeavesPass(f: State, t: TaskId, o: Oracle)
    requires t in f.tasks && TaskEnabled(f, f.tasks[t], o)
    ensures RunTask(f, t, o).pass == f.pass && RunTask(f, t, o).clock == f.clock
  {
  }

  lemma StepKeepsNoneTooSoon(f: State, st: Step)
    requires WellFormed(f) && NoneTooSoon(f) && Enabled(f, st)
    ensures NoneTooSoon(Apply(f, st))
  {
    var g := Apply(f, st);
    if st.Advance? {
      TaskPublishes(f, st.task, st.oracle);
      TaskLeavesPass(f, st.task, st.oracle);
    } else {
      EnvironmentFrame(f, st);
      forall s | s in g.sessions && g.sessions[s].state == TimedOut
        ensures g.sessions[s].releasedAt.Some? && g.sessions[s].expiresAt < g.sessions[s].releasedAt.value <= g.clock
      {
        StepEndsSessions(f, st, s);
      }
      if g.pass.Some? {
        PassIsScannedAndMarked(f, st);
        forall s | s in g.pass.value.pending ensures s in g.sessions && g.clock > g.sessions[s].expiresAt {
          OverdueMeans(f.sessions, f.clock, s);
          StepEndsSessions(f, st, s);
        }
      }
    }
  }

  lemma {:induction false} RunsKeepNoneTooSoon(f: State, run: seq<Step>)
    requires WellFormed(f) && NoneTooSoon(f) && Legal(f, run)
    ensures NoneTooSoon(Final(f, run))
    decreases |run|
  {
    if run != [] {
      StepKeepsWellFormed(f, run[0]);
      StepKeepsNoneTooSoon(f, run[0]);
      RunsKeepNoneTooSoon(Apply(f, run[0]), run[1..]);
    }
  }

  /** In every run, punctual or not, a session that timed out did so after its time. */
  lemma NobodyTimesOutTooSoon(capacity: nat, run: seq<Step>, s: SessionId)
    requires Legal(Init(capacity), run) && s in Final(Init(capacity), run).sessions
    requires Final(Init(capacity), run).sessions[s].state == TimedOut
    ensures Final(Init(capacity), run).sessions[s].releasedAt.Some?
    ensures Final(Init(capacity), run).sessions[s].releasedAt.value > Final(Init(capacity), run).sessions[s].expiresAt
  {
    RunsKeepNoneTooSoon(Init(capacity), run);
  }
}
