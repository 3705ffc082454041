/** What the side conditions of the other modules keep out, and why each is needed: for every state of the
    stated kind a run that breaks the property, and a run from the empty farm that gets there. */
module Counterexamples {
  import opened Options
  import opened DeviceStates
  import opened PoolModel
  import opened Farm
  import opened Reaching
  import opened Ownership
  import opened AvdUniqueness
  import opened Slots

  // ---- Stretches of one goroutine's program with nothing in between ----

  /** pool.Release of a live device, up to the transition to Resetting. */
  lemma ReleaseStarts(f0: State, f: State, t: TaskId, i: InstanceId) returns (g: State)
    requires Reaches(f0, f) && t in f.tasks && f.tasks[t] == PoolRelease(i)
    requires i in f.pool.tracked && i in f.pool.insts && f.pool.insts[i].state == Allocated
    ensures Reaches(f0, g)
    ensures g == f.(pool := Transition(f.pool, i, Resetting), tasks := f.tasks[t := ClearAfterReset(i)])
  {
    var a := Goto(f, t, ProbeDevice(i));
    Next(f0, f, t, YES, a);
    g := f.(pool := Transition(f.pool, i, Resetting), tasks := f.tasks[t := ClearAfterReset(i)]);
    assert a.tasks[t := ClearAfterReset(i)] == g.tasks;
    Next(f0, a, t, YES, g);
  }

  /** The rest of a successful reset. */
  lemma ResetEnds(f0: State, f: State, t: TaskId, i: InstanceId) returns (g: State)
    requires Reaches(f0, f) && t in f.tasks && f.tasks[t] == ClearAfterReset(i)
    requires i in f.pool.insts && f.pool.insts[i].state == Resetting
    ensures Reaches(f0, g)
    ensures g == f.(tasks := f.tasks - {t},
                    pool := f.pool.(insts := f.pool.insts[i := f.pool.insts[i].(state := Warm, session := None)]))
  {
    var a := ResetCleared(f0, f, t, i);
    g := ResetSucceeds(f0, a, t, i);
    assert g.tasks == f.tasks - {t};
    assert g.pool.insts == f.pool.insts[i := f.pool.insts[i].(state := Warm, session := None)];
  }

  lemma ResetCleared(f0: State, f: State, t: TaskId, i: InstanceId) returns (g: State)
    requires Reaches(f0, f) && t in f.tasks && f.tasks[t] == ClearAfterReset(i) && i in f.pool.insts
    ensures Reaches(f0, g)
    ensures g == f.(pool := f.pool.(insts := f.pool.insts[i := f.pool.insts[i].(session := None)]),
                    tasks := f.tasks[t := ResetDevice(i)])
  {
    g := f.(pool := WithSession(f.pool, i, None), tasks := f.tasks[t := ResetDevice(i)]);
    Next(f0, f, t, YES, g);
  }

  lemma ResetSucceeds(f0: State, f: State, t: TaskId, i: InstanceId) returns (g: State)
    requires Reaches(f0, f) && t in f.tasks && f.tasks[t] == ResetDevice(i)
    requires i in f.pool.insts && f.pool.insts[i].state == Resetting
    ensures Reaches(f0, g)
    ensures g == f.(tasks := f.tasks - {t}, pool := f.pool.(insts := f.pool.insts[i := f.pool.insts[i].(state := Warm)]))
  {
    g := f.(tasks := f.tasks - {t}, pool := f.pool.(insts := f.pool.insts[i := f.pool.insts[i].(state := Warm)]));
    Next(f0, f, t, YES, g);
  }

  /** An automated request finds a warm device, and its session is bound and published. */
  lemma AskedAndGranted(f0: State, f: State, i: InstanceId) returns (g: State)
    requires Reaches(f0, f) && EligibleTracked(f.pool, i, false)
    ensures Reaches(f0, g)
    ensures g == f.(pool := Transition(f.pool, i, Allocated), nextTask := f.nextTask + 1,
                    tasks := f.tasks[f.nextTask := BindSession(i)])
  {
    var a := Spawn(f, FindWarm("", false));
    OneMore(f0, f, AskAny("", false), a);
    g := f.(pool := Transition(f.pool, i, Allocated), nextTask := f.nextTask + 1,
            tasks := f.tasks[f.nextTask := BindSession(i)]);
    assert a.tasks[f.nextTask := BindSession(i)] == g.tasks;
    Next(f0, a, f.nextTask, Oracle(true, Some(i), "", "", 0), g);
  }

  lemma BoundAndPublished(f0: State, f: State, t: TaskId, i: InstanceId) returns (g: State)
    requires Reaches(f0, f) && t in f.tasks && f.tasks[t] == BindSession(i) && i in f.pool.insts
    ensures Reaches(f0, g)
    ensures g == f.(pool := WithSession(f.pool, i, Some(f.nextSession)), nextSession := f.nextSession + 1,
                    sessions := f.sessions[f.nextSession := Session(i, Active, 0, None, 0)],
                    orphans := if i in f.pool.tracked || (i, f.nextSession) in f.evictions then f.orphans
                               else f.orphans + {f.nextSession},
                    tasks := f.tasks - {t})
  {
    var a := f.(pool := WithSession(f.pool, i, Some(f.nextSession)), nextSession := f.nextSession + 1,
                tasks := f.tasks[t := PublishSession(i, f.nextSession)]);
    Next(f0, f, t, YES, a);
    g := a.(sessions := f.sessions[f.nextSession := Session(i, Active, 0, None, 0)],
            orphans := if i in f.pool.tracked || (i, f.nextSession) in f.evictions then f.orphans
                       else f.orphans + {f.nextSession},
            tasks := f.tasks - {t});
    assert a.tasks - {t} == g.tasks;
    Next(f0, a, t, YES, g);
  }

  /** A running device is adopted. */
  lemma AdoptedWarm(f0: State, f: State, name: string) returns (g: State)
    requires Reaches(f0, f) && f.nextTask !in f.tasks
    ensures Reaches(f0, g)
    ensures g == f.(nextTask := f.nextTask + 1, pool := g.pool)
    ensures g.pool == f.pool.(
              insts := f.pool.insts[f.pool.nextInst := Inst(name, "", Warm, None, false, true, Adopted)],
              tracked := f.pool.tracked + {f.pool.nextInst},
              nextInst := f.pool.nextInst + 1)
  {
    var a := Spawn(f.(pool := Create(f.pool, name, "", true, Adopted)), AdoptWarm(f.pool.nextInst));
    OneMore(f0, f, Adopt(name, true), a);
    g := f.(nextTask := f.nextTask + 1,
            pool := f.pool.(
              insts := f.pool.insts[f.pool.nextInst := Inst(name, "", Warm, None, false, true, Adopted)],
              tracked := f.pool.tracked + {f.pool.nextInst},
              nextInst := f.pool.nextInst + 1));
    assert a.tasks - {f.nextTask} == f.tasks;
    assert Transition(a.pool, f.pool.nextInst, Warm).insts == g.pool.insts;
    Next(f0, a, f.nextTask, YES, g);
  }

  // ---- A timeout mark that comes too late ----

  /** Whenever a session has been released since the timeout scan and its device already serves another
      session, the late mark puts that device back on offer under the other session's feet. */
  lemma LateMarkOffersUsedDevice(f0: State, f: State, s: SessionId, r: SessionId) returns (g: State)
    requires Reaches(f0, f) && f.nextTask !in f.tasks
    requires f.pass.Some? && s in f.pass.value.pending && s in f.sessions && !f.sessions[s].IsActive()
    requires r != s && r in f.sessions && f.sessions[r].IsActive() && f.sessions[r].inst == f.sessions[s].inst
    requires f.sessions[s].inst in f.pool.tracked && f.sessions[s].inst in f.pool.insts
    requires f.pool.insts[f.sessions[s].inst].state == Allocated
    ensures LateMark(f, MarkTimedOut(s)) && Reaches(f0, g)
    ensures r in g.sessions && g.sessions[r].IsActive() && g.sessions[r].inst in g.pool.insts
    ensures g.pool.insts[g.sessions[r].inst].state == Warm
    ensures s in g.sessions && g.sessions[s].poolReleases == f.sessions[s].poolReleases + 1
  {
    var i := f.sessions[s].inst;
    var a := Apply(f, MarkTimedOut(s));
    OneMore(f0, f, MarkTimedOut(s), a);
    assert a.tasks[f.nextTask] == PoolRelease(i) && a.pool == f.pool && a.sessions[r] == f.sessions[r];
    var b := ReleaseStarts(f0, a, f.nextTask, i);
    g := ResetEnds(f0, b, f.nextTask, i);
  }

  lemma FirstClientServed() returns (g: State)
    ensures Reaches(Init(1), g) && g.pass.None? && g.clock == 0 && g.nextTask == 2 && g.nextSession == 1
    ensures g.tasks == map[] && g.sessions == map[0 := Session(0, Active, 0, None, 0)]
    ensures 0 in g.pool.tracked && 0 in g.pool.insts && g.pool.insts[0].state == Allocated && !g.pool.insts[0].reserved
  {
    var f0 := Init(1);
    ReachesItself(f0);
    var a := AdoptedWarm(f0, f0, "emulator");
    var b := AskedAndGranted(f0, a, 0);
    g := BoundAndPublished(f0, b, 1, 0);
  }

  /** The situation arises: a session expires and is scanned, its client releases it, and the device is
      reset and handed to the next client before the mark. */
  lemma LateMarkHappens() returns (g: State)
    ensures Reaches(Init(1), g)
    ensures 1 in g.sessions && g.sessions[1].IsActive() && g.sessions[1].inst in g.pool.insts
    ensures g.pool.insts[g.sessions[1].inst].state == Warm
    ensures 0 in g.sessions && g.sessions[0].poolReleases == 2
  {
    var h := ReleasedAndReset();
    g := SecondClientAndMark(Init(1), h);
  }

  /** The first client is served, its session expires and is scanned, the client releases it, the device is
      reset. */
  lemma ReleasedAndReset() returns (h: State)
    ensures Reaches(Init(1), h) && EligibleTracked(h.pool, 0, false)
    ensures h.nextTask == 3 && h.nextSession == 1 && h.tasks == map[]
    ensures h.pass.Some? && 0 in h.pass.value.pending
    ensures 0 in h.sessions && h.sessions[0] == Session(0, Released, 0, Some(1), 1)
  {
    var f0 := Init(1);
    var c := FirstClientServed();
    var d := ReleasedAfterScan(f0, c);
    var e := ReleaseStarts(f0, d, 2, 0);
    h := ResetEnds(f0, e, 2, 0);
  }

  lemma SecondClientAndMark(f0: State, h: State) returns (g: State)
    requires Reaches(f0, h) && EligibleTracked(h.pool, 0, false) && h.nextTask == 3 && h.nextSession == 1 && h.tasks == map[]
    requires h.pass.Some? && 0 in h.pass.value.pending && 0 in h.sessions && !h.sessions[0].IsActive()
    requires h.sessions[0].inst == 0
    ensures Reaches(f0, g)
    ensures 1 in g.sessions && g.sessions[1].IsActive() && g.sessions[1].inst in g.pool.insts
    ensures g.pool.insts[g.sessions[1].inst].state == Warm
    ensures 0 in g.sessions && g.sessions[0].poolReleases == h.sessions[0].poolReleases + 1
  {
    var k := AskedAndGranted(f0, h, 0);
    var l := BoundAndPublished(f0, k, 3, 0);
    g := LateMarkOffersUsedDevice(f0, l, 0, 1);
  }

  /** The harm can also come later: the late mark takes the device back from a request that was granted it, and
      the session is published on a device that is being reset. */
  lemma PublishedWhileReset() returns (g: State)
    ensures Reaches(Init(1), g)
    ensures 1 in g.sessions && g.sessions[1].IsActive() && g.sessions[1].inst in g.pool.insts
    ensures g.pool.insts[g.sessions[1].inst].state == Resetting
  {
    var h := ReleasedAndReset();
    var k := AskedAndGranted(Init(1), h, 0);
    g := TakenBackThenPublished(Init(1), k, 3, 0);
  }

  lemma TakenBackThenPublished(f0: State, k: State, t: TaskId, s: SessionId) returns (g: State)
    requires Reaches(f0, k) && t in k.tasks && k.nextTask !in k.tasks && k.nextTask != t
    requires k.pass.Some? && s in k.pass.value.pending && s in k.sessions
    requires k.tasks[t] == BindSession(k.sessions[s].inst)
    requires k.sessions[s].inst in k.pool.tracked && k.sessions[s].inst in k.pool.insts
    requires k.pool.insts[k.sessions[s].inst].state == Allocated
    ensures Reaches(f0, g)
    ensures k.nextSession in g.sessions && g.sessions[k.nextSession].IsActive()
    ensures g.sessions[k.nextSession].inst in g.pool.insts
    ensures g.pool.insts[g.sessions[k.nextSession].inst].state == Resetting
  {
    var i := k.sessions[s].inst;
    var l := Apply(k, MarkTimedOut(s));
    OneMore(f0, k, MarkTimedOut(s), l);
    assert l.tasks[k.nextTask] == PoolRelease(i) && l.tasks[t] == BindSession(i) && l.pool == k.pool;
    var m := ReleaseStarts(f0, l, k.nextTask, i);
    g := BoundAndPublished(f0, m, t, i);
  }

  /** Session 0 expires, the timeout loop scans, the client releases the session. */
  lemma ReleasedAfterScan(f0: State, f: State) returns (g: State)
    requires Reaches(f0, f) && f.pass.None? && f.clock == 0
    requires 0 in f.sessions && f.sessions[0] == Session(f.sessions[0].inst, Active, 0, None, 0)
    ensures Reaches(f0, g)
    ensures g.pass.Some? && 0 in g.pass.value.pending
    ensures g == f.(clock := 1, pass := g.pass, nextTask := f.nextTask + 1,
                    sessions := f.sessions[0 := Session(f.sessions[0].inst, Released, 0, Some(1), 1)],
                    tasks := f.tasks[f.nextTask := PoolRelease(f.sessions[0].inst)])
  {
    var a := f.(clock := 1);
    OneMore(f0, f, Tick, a);
    var b := a.(pass := Some(Pass(ExpiredSessions(a), ExpiredSessions(a))));
    OneMore(f0, a, ScanTimeouts, b);
    assert 0 in ExpiredSessions(a);
    g := Apply(b, ReleaseSession(0));
    OneMore(f0, b, ReleaseSession(0), g);
  }

  /** Whenever a release can start to reset the device of a session that is still active, that device can end
      up on offer with the session still active. */
  lemma TakenBackIsOffered(f0: State, f: State, t: TaskId, r: SessionId) returns (g: State)
    requires Reaches(f0, f) && Enabled(f, Advance(t, YES)) && TakesBack(f, Advance(t, YES), BySession(r))
    ensures Reaches(f0, g) && g.sessions == f.sessions && g.sessions[r].inst in g.pool.insts
    ensures g.pool.insts[g.sessions[r].inst].state == Warm
  {
    var i := f.sessions[r].inst;
    var a := f.(pool := Transition(f.pool, i, Resetting), tasks := f.tasks[t := ClearAfterReset(i)]);
    Next(f0, f, t, YES, a);
    g := ResetEnds(f0, a, t, i);
  }

  // ---- A session published after its device has gone ----

  /** Whenever a device is lost between the grant and the binding, the session comes up active, on a
      device that is gone, and with nobody left to tell it. */
  lemma LossBeforeBindingOrphans(f0: State, f: State, t: TaskId, i: InstanceId) returns (g: State)
    requires Reaches(f0, f) && t in f.tasks && f.tasks[t] == BindSession(i) && f.nextTask !in f.tasks
    requires i in f.pool.tracked && i in f.pool.insts && f.pool.insts[i].session == None
    requires (i, f.nextSession) !in f.evictions
    ensures Reaches(f0, g)
    ensures f.nextSession in g.sessions && g.sessions[f.nextSession].IsActive()
    ensures g.sessions[f.nextSession].inst == i && i !in g.pool.tracked
    ensures g.evictions == f.evictions && f.nextSession in g.orphans
  {
    var a := Spawn(f, Remove(i, Stop));
    OneMore(f0, f, Lose(i), a);
    var b := Goto(a.(pool := Untrack(f.pool, i)), f.nextTask,
                  GiveBack(if f.pool.insts[i].origin.TakesSlot() then Slotted else Unslotted, Stop));
    Next(f0, a, f.nextTask, YES, b);
    assert b.tasks[t] == BindSession(i);
    g := BoundAndPublished(f0, b, t, i);
  }

  lemma OrphanHappens() returns (g: State)
    ensures Reaches(Init(1), g)
    ensures 0 in g.sessions && g.sessions[0].IsActive() && g.sessions[0].inst !in g.pool.tracked
    ensures g.evictions == {}
  {
    var f0 := Init(1);
    ReachesItself(f0);
    var a := AdoptedWarm(f0, f0, "emulator");
    var b := AskedAndGranted(f0, a, 0);
    g := LossBeforeBindingOrphans(f0, b, 1, 0);
  }

  // ---- Boots on demand ----

  /** A request for a named AVD that is not tracked, up to the flagging. */
  lemma NamedUpToFlag(f0: State, f: State, avd: string) returns (g: State)
    requires Reaches(f0, f) && avd !in TrackedNames(f.pool) && f.pool.sem < f.pool.capacity
    ensures Reaches(f0, g)
    ensures g == f.(pool := f.pool.(sem := f.pool.sem + 1), nextTask := f.nextTask + 1,
                    tasks := f.tasks[f.nextTask := FlagAvd(avd, NamedBoot)])
  {
    var t := f.nextTask;
    var a := f.(nextTask := t + 1, tasks := f.tasks[t := FindByName(avd, false)]);
    OneMore(f0, f, AskName(avd, false), a);
    var b := f.(nextTask := t + 1, tasks := f.tasks[t := TakeSlot(Some(avd))]);
    assert a.tasks[t := TakeSlot(Some(avd))] == b.tasks;
    Next(f0, a, t, YES, b);
    g := b.(pool := f.pool.(sem := f.pool.sem + 1), tasks := f.tasks[t := FlagAvd(avd, NamedBoot)]);
    assert b.tasks[t := FlagAvd(avd, NamedBoot)] == g.tasks;
    Next(f0, b, t, YES, g);
  }

  /** The flagging and the creation of the instance. */
  lemma FlaggedAndCreated(f0: State, f: State, t: TaskId, avd: string) returns (g: State)
    requires Reaches(f0, f) && t in f.tasks && f.tasks[t] == FlagAvd(avd, NamedBoot)
    ensures Reaches(f0, g)
    ensures g == f.(pool := g.pool, tasks := f.tasks[t := StartBoot(f.pool.nextInst, avd, NamedBoot)])
    ensures g.pool == f.pool.(
              booting := f.pool.booting + {avd},
              insts := f.pool.insts[f.pool.nextInst := Inst(avd, "", Creating, None, false, true, NamedBoot)],
              tracked := f.pool.tracked + {f.pool.nextInst},
              nextInst := f.pool.nextInst + 1)
  {
    var a := f.(pool := f.pool.(booting := f.pool.booting + {avd}), tasks := f.tasks[t := CreateInst(avd, NamedBoot)]);
    Next(f0, f, t, YES, a);
    g := f.(pool := Create(a.pool, avd, "", true, NamedBoot),
            tasks := f.tasks[t := StartBoot(f.pool.nextInst, avd, NamedBoot)]);
    assert a.tasks[t := StartBoot(f.pool.nextInst, avd, NamedBoot)] == g.tasks;
    Next(f0, a, t, YES, g);
  }

  lemma BootPrepared(f0: State, f: State, t: TaskId, i: InstanceId, avd: string) returns (g: State)
    requires Reaches(f0, f) && t in f.tasks && f.tasks[t] == StartBoot(i, avd, NamedBoot)
    requires i in f.pool.insts && f.pool.insts[i].state == Creating
    ensures Reaches(f0, g)
    ensures g == f.(pool := f.pool.(insts := f.pool.insts[i := f.pool.insts[i].(state := Booting)]),
                    tasks := f.tasks[t := FinishBoot(i, avd, NamedBoot)])
  {
    var a := f.(pool := Transition(f.pool, i, Booting), tasks := f.tasks[t := Prepare(i, avd, NamedBoot)]);
    Next(f0, f, t, YES, a);
    g := a.(tasks := f.tasks[t := FinishBoot(i, avd, NamedBoot)]);
    assert a.tasks[t := FinishBoot(i, avd, NamedBoot)] == g.tasks;
    Next(f0, a, t, YES, g);
  }

  /** The device comes up. */
  lemma BootedUp(f0: State, f: State, t: TaskId, i: InstanceId, avd: string) returns (g: State)
    requires Reaches(f0, f) && t in f.tasks && f.tasks[t] == StartBoot(i, avd, NamedBoot)
    requires i in f.pool.insts && f.pool.insts[i].state == Creating
    ensures Reaches(f0, g)
    ensures g == f.(pool := f.pool.(insts := f.pool.insts[i := f.pool.insts[i].(state := Warm)]),
                    tasks := f.tasks[t := Unflag(avd, NamedBoot, Some(i), true)])
  {
    var b := BootPrepared(f0, f, t, i, avd);
    g := f.(pool := f.pool.(insts := f.pool.insts[i := f.pool.insts[i].(state := Warm)]),
            tasks := f.tasks[t := Unflag(avd, NamedBoot, Some(i), true)]);
    assert b.tasks[t := Unflag(avd, NamedBoot, Some(i), true)] == g.tasks;
    assert Transition(b.pool, i, Warm).insts == g.pool.insts;
    Next(f0, b, t, YES, g);
  }

  /** The flag is cleared and the device taken, reserved or not. */
  lemma UnflaggedAndClaimed(f0: State, f: State, t: TaskId, i: InstanceId, avd: string) returns (g: State)
    requires Reaches(f0, f) && t in f.tasks && f.tasks[t] == Unflag(avd, NamedBoot, Some(i), true)
    requires i in f.pool.insts && f.pool.insts[i].state == Warm
    ensures Reaches(f0, g)
    ensures g == f.(pool := Transition(f.pool, i, Allocated).(booting := f.pool.booting - {avd}),
                    tasks := f.tasks[t := BindSession(i)])
  {
    var a := f.(pool := f.pool.(booting := f.pool.booting - {avd}), tasks := f.tasks[t := Claim(i)]);
    Next(f0, f, t, YES, a);
    g := f.(pool := Transition(f.pool, i, Allocated).(booting := f.pool.booting - {avd}),
            tasks := f.tasks[t := BindSession(i)]);
    assert a.tasks[t := BindSession(i)] == g.tasks;
    Next(f0, a, t, YES, g);
  }

  /** From the request to the creation of the instance. */
  lemma CreatedOnDemand(f0: State, f: State, avd: string) returns (g: State)
    requires Reaches(f0, f) && avd !in TrackedNames(f.pool) && f.pool.sem < f.pool.capacity
    ensures Reaches(f0, g)
    ensures g == f.(pool := g.pool, nextTask := f.nextTask + 1,
                    tasks := f.tasks[f.nextTask := StartBoot(f.pool.nextInst, avd, NamedBoot)])
    ensures g.pool == f.pool.(
              sem := f.pool.sem + 1,
              booting := f.pool.booting + {avd},
              insts := f.pool.insts[f.pool.nextInst := Inst(avd, "", Creating, None, false, true, NamedBoot)],
              tracked := f.pool.tracked + {f.pool.nextInst},
              nextInst := f.pool.nextInst + 1)
  {
    var a := NamedUpToFlag(f0, f, avd);
    g := FlaggedAndCreated(f0, a, f.nextTask, avd);
    assert g.tasks == f.tasks[f.nextTask := StartBoot(f.pool.nextInst, avd, NamedBoot)];
  }

  /** From there to the grant. */
  lemma BootCompletes(f0: State, f: State, t: TaskId, i: InstanceId, avd: string) returns (g: State)
    requires Reaches(f0, f) && t in f.tasks && f.tasks[t] == StartBoot(i, avd, NamedBoot)
    requires i in f.pool.insts && f.pool.insts[i].state == Creating
    ensures Reaches(f0, g)
    ensures g == f.(pool := f.pool.(insts := f.pool.insts[i := f.pool.insts[i].(state := Allocated)],
                                    booting := f.pool.booting - {avd}),
                    tasks := f.tasks[t := BindSession(i)])
  {
    var a := BootedUp(f0, f, t, i, avd);
    g := UnflaggedAndClaimed(f0, a, t, i, avd);
    assert g.tasks == f.tasks[t := BindSession(i)];
    assert g.pool.insts == f.pool.insts[i := f.pool.insts[i].(state := Allocated)];
  }

  /** An automated request for an AVD by name boots it; the operator reserves it while it boots; the
      request gets it all the same. */
  lemma ReservedDeviceIsGranted(avd: string) returns (g: State)
    ensures Reaches(Init(1), g)
    ensures g.tasks == map[0 := BindSession(0)] && 0 in g.pool.insts && g.pool.insts[0].reserved
  {
    var b := ReservedWhileBooting(avd);
    g := BootCompletes(Init(1), b, 0, 0, avd);
  }

  lemma ReservedWhileBooting(avd: string) returns (b: State)
    ensures Reaches(Init(1), b) && b.tasks == map[0 := StartBoot(0, avd, NamedBoot)]
    ensures 0 in b.pool.insts && b.pool.insts[0].state == Creating && b.pool.insts[0].reserved
  {
    var f0 := Init(1);
    ReachesItself(f0);
    var a := CreatedOnDemand(f0, f0, avd);
    b := a.(pool := WithReserved(a.pool, 0, true));
    OneMore(f0, a, SetReserved(0, true), b);
  }

  // ---- Slots handed back twice ----

  /** A boot on demand by name, from the request to the grant. */
  lemma BootedOnDemand(f0: State, f: State, avd: string) returns (g: State)
    requires Reaches(f0, f) && avd !in TrackedNames(f.pool) && f.pool.sem < f.pool.capacity
    requires f.nextTask !in f.tasks && f.pool.nextInst !in f.pool.tracked
    ensures Reaches(f0, g)
    ensures g == f.(pool := g.pool, nextTask := f.nextTask + 1,
                    tasks := f.tasks[f.nextTask := BindSession(f.pool.nextInst)])
    ensures g.pool == f.pool.(
              sem := f.pool.sem + 1,
              booting := f.pool.booting - {avd},
              insts := f.pool.insts[f.pool.nextInst := Inst(avd, "", Allocated, None, false, true, NamedBoot)],
              tracked := f.pool.tracked + {f.pool.nextInst},
              nextInst := f.pool.nextInst + 1)
  {
    var t, i := f.nextTask, f.pool.nextInst;
    var a := CreatedOnDemand(f0, f, avd);
    g := BootCompletes(f0, a, t, i, avd);
    assert g.tasks == f.tasks[f.nextTask := BindSession(i)];
    assert g.pool.insts == f.pool.insts[i := Inst(avd, "", Allocated, None, false, true, NamedBoot)];
    assert g.pool.booting == f.pool.booting - {avd};
  }

  lemma DestroyStarts(f0: State, f: State, i: InstanceId) returns (g: State)
    requires Reaches(f0, f) && i in f.pool.tracked && i in f.pool.insts
    ensures Reaches(f0, g)
    ensures g == f.(pool := Transition(f.pool, i, Destroying), nextTask := f.nextTask + 1,
                    tasks := f.tasks[f.nextTask := Remove(i, ReturnAnother)])
  {
    var t := f.nextTask;
    var a := f.(nextTask := t + 1, tasks := f.tasks[t := MarkDestroying(i)]);
    OneMore(f0, f, Destroy(i), a);
    g := a.(pool := Transition(f.pool, i, Destroying), tasks := f.tasks[t := Remove(i, ReturnAnother)]);
    assert a.tasks[t := Remove(i, ReturnAnother)] == g.tasks;
    Next(f0, a, t, YES, g);
  }

  /** removeInstance with its give-back. The callback of a session found attached is started. */
  lemma RemovedOnce(f0: State, f: State, t: TaskId, i: InstanceId) returns (g: State)
    requires Reaches(f0, f) && t in f.tasks && f.tasks[t] == Remove(i, ReturnAnother) && f.pool.sem >= 1
    requires i in f.pool.tracked && i in f.pool.insts
    ensures Reaches(f0, g)
    ensures g == f.(pool := Untrack(f.pool, i).(sem := f.pool.sem - 1), evictions := WithCallback(f, i),
                    overReturned := f.overReturned + if f.pool.insts[i].origin.TakesSlot() then 0 else 1,
                    tasks := f.tasks[t := GiveBack(Nobody, Stop)])
  {
    var owed := if f.pool.insts[i].origin.TakesSlot() then Slotted else Unslotted;
    var a := f.(pool := Untrack(f.pool, i), evictions := WithCallback(f, i), tasks := f.tasks[t := GiveBack(owed, ReturnAnother)]);
    Next(f0, f, t, YES, a);
    g := RunTask(a, t, YES);
    assert a.tasks[t := GiveBack(Nobody, Stop)] == f.tasks[t := GiveBack(Nobody, Stop)];
    Next(f0, a, t, YES, g);
  }

  lemma GivenBackAgain(f0: State, f: State, t: TaskId) returns (g: State)
    requires Reaches(f0, f) && t in f.tasks && f.tasks[t] == GiveBack(Nobody, Stop) && f.pool.sem >= 1
    ensures Reaches(f0, g)
    ensures g == f.(pool := f.pool.(sem := f.pool.sem - 1), tasks := f.tasks - {t}, overReturned := f.overReturned + 1)
  {
    g := f.(pool := f.pool.(sem := f.pool.sem - 1), tasks := f.tasks - {t}, overReturned := f.overReturned + 1);
    Next(f0, f, t, YES, g);
  }

  /** Destroying a device frees two slots, whenever two are occupied: one more than a device booted on demand
      took, two more than any other. */
  lemma DestroyFreesTwoSlots(f0: State, f: State, i: InstanceId) returns (g: State)
    requires Reaches(f0, f) && i in f.pool.tracked && i in f.pool.insts
    requires f.pool.sem >= 2 && f.nextTask !in f.tasks
    ensures Reaches(f0, g)
    ensures g == f.(pool := Untrack(Transition(f.pool, i, Destroying), i).(sem := f.pool.sem - 2),
                    evictions := WithCallback(f, i), nextTask := f.nextTask + 1,
                    overReturned := f.overReturned + if f.pool.insts[i].origin.TakesSlot() then 1 else 2)
  {
    var t := f.nextTask;
    var a := DestroyStarts(f0, f, i);
    assert AttachedSession(a.pool, i) == AttachedSession(f.pool, i);
    var b := RemovedOnce(f0, a, t, i);
    g := GivenBackAgain(f0, b, t);
    assert g.tasks == f.tasks;
  }

  /** With room for two devices, three booted on demand are running at once. */
  lemma LimitIsExceeded() returns (g: State)
    ensures Reaches(Init(2), g)
    ensures |OnDemand(g.pool)| == 3 && g.pool.capacity == 2 && g.overReturned == 1
  {
    var f0 := Init(2);
    ReachesItself(f0);
    var a := BootedOnDemand(f0, f0, "a");
    assert TrackedNames(a.pool) == {"a"};
    var b := BootedOnDemand(f0, a, "b");
    var c := DestroyFreesTwoSlots(f0, b, 0);
    assert c.pool.tracked == {1} && c.pool.insts[1].name == "b" && c.pool.insts[1].origin == NamedBoot;
    g := TwoMoreBoots(f0, c);
  }

  lemma TwoMoreBoots(f0: State, c: State) returns (g: State)
    requires Reaches(f0, c) && c.pool.tracked == {1} && 1 in c.pool.insts && c.pool.insts[1].name == "b"
    requires c.pool.insts[1].origin == NamedBoot
    requires c.pool.sem == 0 && c.pool.capacity == 2 && c.pool.nextInst == 2 && c.nextTask !in c.tasks
    requires c.nextTask + 1 !in c.tasks
    ensures Reaches(f0, g)
    ensures |OnDemand(g.pool)| == 3 && g.pool.capacity == 2 && g.overReturned == c.overReturned
  {
    assert TrackedNames(c.pool) == {"b"};
    var d := BootedOnDemand(f0, c, "c");
    assert TrackedNames(d.pool) == {"b", "c"};
    g := BootedOnDemand(f0, d, "d");
    assert OnDemand(g.pool) == {1, 2, 3};
  }

  // ---- A boot that fails in a pool with no other slot taken ----

  lemma BootFailsAndUntracks(f0: State, f: State, t: TaskId, i: InstanceId, avd: string, origin: Origin)
    returns (g: State)
    requires Reaches(f0, f) && t in f.tasks && f.tasks[t] == Prepare(i, avd, origin) && i in f.pool.insts
    ensures Reaches(f0, g) && g.pool == Untrack(f.pool, i) && t in g.tasks
    ensures g.tasks[t].GiveBack? && g.tasks[t].after == BootFailed(avd, origin, i) && g.tasks - {t} == f.tasks - {t}
  {
    var a := Goto(f, t, Remove(i, BootFailed(avd, origin, i)));
    Next(f0, f, t, NO, a);
    g := RunTask(a, t, YES);
    Next(f0, a, t, YES, g);
  }

  /** The device does not come up, and removeInstance gives a slot back if any is taken. */
  lemma BootFails(f0: State, f: State, t: TaskId, i: InstanceId, avd: string, origin: Origin) returns (g: State)
    requires Reaches(f0, f) && t in f.tasks && f.tasks[t] == Prepare(i, avd, origin) && i in f.pool.insts
    requires origin.TakesSlot()
    ensures Reaches(f0, g) && g.pool == GiveBackSlot(Untrack(f.pool, i))
    ensures t in g.tasks && g.tasks[t] == Unflag(avd, origin, Some(i), false) && g.tasks - {t} == f.tasks - {t}
  {
    var a := BootFailsAndUntracks(f0, f, t, i, avd, origin);
    g := RunTask(a, t, YES);
    Next(f0, a, t, YES, g);
  }

  lemma UnflaggedAfterFailure(f0: State, f: State, t: TaskId, i: InstanceId, avd: string, origin: Origin)
    returns (g: State)
    requires Reaches(f0, f) && t in f.tasks && f.tasks[t] == Unflag(avd, origin, Some(i), false)
    requires i in f.pool.insts
    ensures Reaches(f0, g) && g.pool == f.pool.(booting := f.pool.booting - {avd})
    ensures t in g.tasks && g.tasks[t] == ReturnSlot(false) && g.tasks - {t} == f.tasks - {t}
  {
    g := RunTask(f, t, YES);
    Next(f0, f, t, YES, g);
  }

  /** An on-demand boot that fails gives back two slots and needs the second to be there: with nothing in
      between it ends at a receive that can proceed if and only if two slots were taken. Otherwise its request
      does not return until some other request takes a slot, which that one then loses. */
  lemma FailedBootReturnsExactlyWhenTwoSlotsTaken(f0: State, f: State, t: TaskId, i: InstanceId, avd: string, origin: Origin)
    returns (g: State)
    requires Reaches(f0, f) && t in f.tasks && f.tasks[t] == Prepare(i, avd, origin) && i in f.pool.insts
    requires origin.TakesSlot()
    ensures Reaches(f0, g) && g.tasks == f.tasks[t := ReturnSlot(false)] && g.pool.tracked == f.pool.tracked - {i}
    ensures forall o :: Enabled(g, Advance(t, o)) <==> f.pool.sem >= 2
  {
    var a := BootFails(f0, f, t, i, avd, origin);
    g := UnflaggedAfterFailure(f0, a, t, i, avd, origin);
    assert g.tasks == (g.tasks - {t})[t := ReturnSlot(false)];
    ReceiveWaitsForSlot(g, t);
  }

  lemma ReceiveWaitsForSlot(f: State, t: TaskId)
    requires t in f.tasks && f.tasks[t].ReturnSlot?
    ensures forall o :: Enabled(f, Advance(t, o)) <==> f.pool.sem > 0
  {
  }

  lemma BlockHappens(avd: string) returns (g: State)
    ensures Reaches(Init(1), g)
    ensures 0 in g.tasks && g.tasks[0] == ReturnSlot(false) && g.pool.tracked == {}
    ensures forall o :: !Enabled(g, Advance(0, o))
  {
    var f0 := Init(1);
    ReachesItself(f0);
    var a := CreatedOnDemand(f0, f0, avd);
    var b := a.(pool := Transition(a.pool, 0, Booting), tasks := a.tasks[0 := Prepare(0, avd, NamedBoot)]);
    Next(f0, a, 0, YES, b);
    g := FailedBootReturnsExactlyWhenTwoSlotsTaken(f0, b, 0, 0, avd, NamedBoot);
  }

  // ---- An AVD flagged twice ----

  /** A profile request that finds nothing warm, up to the choice of an AVD. */
  lemma AnyUpToChoice(f0: State, f: State) returns (g: State)
    requires Reaches(f0, f) && f.pool.tracked == {} && f.pool.sem < f.pool.capacity && f.avdLock.None?
    ensures Reaches(f0, g)
    ensures g == f.(pool := f.pool.(sem := f.pool.sem + 1), nextTask := f.nextTask + 1,
                    tasks := f.tasks[f.nextTask := SelectAvd])
  {
    var t := f.nextTask;
    var a := f.(nextTask := t + 1, tasks := f.tasks[t := FindWarm("", false)]);
    OneMore(f0, f, AskAny("", false), a);
    var b := a.(tasks := f.tasks[t := TakeSlot(None)]);
    assert a.tasks[t := TakeSlot(None)] == b.tasks;
    Next(f0, a, t, YES, b);
    g := b.(pool := f.pool.(sem := f.pool.sem + 1), tasks := f.tasks[t := SelectAvd]);
    assert b.tasks[t := SelectAvd] == g.tasks;
    Next(f0, b, t, YES, g);
  }

  /** The choice of an AVD that is neither tracked nor flagged, and its flagging. */
  lemma ChosenAndFlagged(f0: State, f: State, t: TaskId, avd: string) returns (g: State)
    requires Reaches(f0, f) && t in f.tasks && f.tasks[t] == SelectAvd && f.avdLock.None?
    requires f.pool.tracked == {} && avd !in f.pool.booting
    ensures Reaches(f0, g)
    ensures g == f.(pool := f.pool.(booting := f.pool.booting + {avd}), tasks := f.tasks[t := CreateInst(avd, AnyBoot)])
  {
    assert TrackedNames(f.pool) == {};
    var a := f.(avdLock := Some(t), tasks := f.tasks[t := PickAvd(f.pool.booting)]);
    assert {} + f.pool.booting == f.pool.booting;
    Next(f0, f, t, YES, a);
    var b := a.(tasks := f.tasks[t := FlagAvd(avd, AnyBoot)]);
    assert a.tasks[t := FlagAvd(avd, AnyBoot)] == b.tasks;
    Next(f0, a, t, Oracle(true, None, avd, "", 0), b);
    g := f.(pool := f.pool.(booting := f.pool.booting + {avd}), tasks := f.tasks[t := CreateInst(avd, AnyBoot)]);
    assert b.tasks[t := CreateInst(avd, AnyBoot)] == g.tasks;
    Next(f0, b, t, YES, g);
  }

  lemma NamedBootFlagsToo(f0: State, f: State, avd: string) returns (g: State)
    requires Reaches(f0, f) && f.pool.tracked == {} && f.pool.sem < f.pool.capacity && avd in f.pool.booting
    ensures Reaches(f0, g)
    ensures g == f.(pool := f.pool.(sem := f.pool.sem + 1), nextTask := f.nextTask + 1,
                    tasks := f.tasks[f.nextTask := CreateInst(avd, NamedBoot)])
  {
    var t := f.nextTask;
    var a := NamedUpToFlag(f0, f, avd);
    g := a.(tasks := f.tasks[t := CreateInst(avd, NamedBoot)]);
    assert a.tasks[t := CreateInst(avd, NamedBoot)] == g.tasks && a.pool.booting + {avd} == a.pool.booting;
    Next(f0, a, t, YES, g);
  }

  /** A boot by name flags an AVD that is flagged already, fails, and clears the flag. */
  lemma NamedBootClearsFlag(f0: State, f: State, avd: string) returns (g: State)
    requires Reaches(f0, f) && f.pool.tracked == {} && f.pool.sem < f.pool.capacity && avd in f.pool.booting
    ensures Reaches(f0, g)
    ensures g == f.(pool := f.pool.(sem := f.pool.sem + 1, booting := f.pool.booting - {avd}),
                    nextTask := f.nextTask + 1, tasks := f.tasks[f.nextTask := ReturnSlot(true)])
  {
    var t := f.nextTask;
    var b := NamedBootFlagsToo(f0, f, avd);
    var c := b.(tasks := f.tasks[t := Unflag(avd, NamedBoot, None, false)]);
    assert b.tasks[t := Unflag(avd, NamedBoot, None, false)] == c.tasks;
    Next(f0, b, t, NO, c);
    g := c.(pool := c.pool.(booting := f.pool.booting - {avd}), tasks := f.tasks[t := ReturnSlot(true)]);
    assert c.tasks[t := ReturnSlot(true)] == g.tasks;
    Next(f0, c, t, YES, g);
  }

  /** allocateAny has flagged an AVD and not yet created its device; a request for the same AVD by name
      comes and fails; the next allocateAny boots the same AVD again. */
  lemma AvdIsBootedTwice(avd: string) returns (g: State)
    ensures Reaches(Init(3), g)
    ensures AnyBootAvd(g, 0) == Some(avd) && AnyBootAvd(g, 2) == Some(avd)
  {
    var b := FirstBootFlagged(avd);
    g := SecondBootFlagged(b, avd);
    BootingNow(g, 0, avd);
    BootingNow(g, 2, avd);
  }

  lemma SecondBootFlagged(b: State, avd: string) returns (g: State)
    requires Reaches(Init(3), b) && b.pool == EmptyPool(3).(sem := 1, booting := {avd})
    requires b.tasks == map[0 := CreateInst(avd, AnyBoot)] && b.nextTask == 1 && b.avdLock.None?
    ensures Reaches(Init(3), g)
    ensures 0 in g.tasks && g.tasks[0] == CreateInst(avd, AnyBoot) && 2 in g.tasks && g.tasks[2] == CreateInst(avd, AnyBoot)
  {
    var c := NamedBootClearsFlag(Init(3), b, avd);
    var d := AnyUpToChoice(Init(3), c);
    g := ChosenAndFlagged(Init(3), d, 2, avd);
  }

  lemma BootingNow(f: State, t: TaskId, avd: string)
    requires t in f.tasks && f.tasks[t] == CreateInst(avd, AnyBoot)
    ensures AnyBootAvd(f, t) == Some(avd)
  {
  }

  lemma FirstBootFlagged(avd: string) returns (g: State)
    ensures Reaches(Init(3), g)
    ensures g.pool == EmptyPool(3).(sem := 1, booting := {avd}) && g.tasks == map[0 := CreateInst(avd, AnyBoot)]
    ensures g.nextTask == 1 && g.avdLock.None?
  {
    var f0 := Init(3);
    ReachesItself(f0);
    var a := AnyUpToChoice(f0, f0);
    g := ChosenAndFlagged(f0, a, 0, avd);
  }
}
