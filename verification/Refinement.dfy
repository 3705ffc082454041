/** The methods of the pool against the regions of the farm: when a goroutine runs its regions with nothing in
    between, the pool ends as the contract of the method says. */
module Refinement {
  import opened Options
  import opened DeviceStates
  import opened PoolModel
  import opened Farm
  import opened Reaching

  /** AllocateWarm: any choice the method may make is a step of the farm with the same effect. */
  lemma ScanIsAllocateWarm(f: State, t: TaskId, profile: string, manual: bool, pick: Option<InstanceId>) returns (g: State)
    requires t in f.tasks && f.tasks[t] == FindWarm(profile, manual) && WarmChoice(f.pool, profile, manual, pick)
    ensures Reaches(f, g) && g.pool == if pick.Some? then Transition(f.pool, pick.value, Allocated) else f.pool
    ensures t in g.tasks && g.tasks[t] == if pick.Some? then BindSession(pick.value) else TakeSlot(None)
  {
    ReachesItself(f);
    var o := YES.(pick := pick);
    g := RunTask(f, t, o);
    Next(f, f, t, o, g);
  }

  /** RemoveInstance. */
  lemma RemovalIsRemoveInstance(f0: State, f: State, t: TaskId, i: InstanceId) returns (g: State)
    requires Reaches(f0, f) && t in f.tasks && f.tasks[t] == Remove(i, Stop)
    ensures Reaches(f0, g) && t !in g.tasks && g.pool == GiveBackSlot(Untrack(f.pool, i))
    ensures g.evictions == WithCallback(f, i)
  {
    var a := RunTask(f, t, YES);
    Next(f0, f, t, YES, a);
    assert a.pool == Untrack(f.pool, i) && a.tasks[t].GiveBack? && a.tasks[t].after == Stop;
    g := RunTask(a, t, YES);
    Next(f0, a, t, YES, g);
  }

  /** DestroyInstance. */
  lemma DestructionIsDestroyInstance(f: State, t: TaskId, i: InstanceId) returns (g: State)
    requires t in f.tasks && f.tasks[t] == MarkDestroying(i) && i in f.pool.insts
    ensures Reaches(f, g) && t !in g.tasks
    ensures g.pool == GiveBackSlot(GiveBackSlot(Untrack(Transition(f.pool, i, Destroying), i)))
    ensures g.evictions == WithCallback(f, i)
  {
    ReachesItself(f);
    var a := RunTask(f, t, YES);
    Next(f, f, t, YES, a);
    assert a.pool == Transition(f.pool, i, Destroying) && a.tasks[t] == Remove(i, ReturnAnother);
    assert AttachedSession(a.pool, i) == AttachedSession(f.pool, i);
    g := RemovedTwice(f, a, t, i);
  }

  lemma RemovedTwice(f0: State, f: State, t: TaskId, i: InstanceId) returns (g: State)
    requires Reaches(f0, f) && t in f.tasks && f.tasks[t] == Remove(i, ReturnAnother)
    ensures Reaches(f0, g) && t !in g.tasks && g.pool == GiveBackSlot(GiveBackSlot(Untrack(f.pool, i)))
    ensures g.evictions == WithCallback(f, i)
  {
    var a := RunTask(f, t, YES);
    Next(f0, f, t, YES, a);
    assert a.pool == Untrack(f.pool, i) && a.tasks[t].GiveBack? && a.tasks[t].after == ReturnAnother;
    var b := RunTask(a, t, YES);
    Next(f0, a, t, YES, b);
    assert b.pool == GiveBackSlot(a.pool) && b.tasks[t] == GiveBack(Nobody, Stop) && b.evictions == a.evictions;
    g := GivenBack(f0, b, t);
  }

  lemma GivenBack(f0: State, f: State, t: TaskId) returns (g: State)
    requires Reaches(f0, f) && t in f.tasks && f.tasks[t] == GiveBack(Nobody, Stop)
    ensures Reaches(f0, g) && t !in g.tasks && g.pool == GiveBackSlot(f.pool) && g.evictions == f.evictions
  {
    g := RunTask(f, t, YES);
    Next(f0, f, t, YES, g);
  }

  lemma Probed(f: State, t: TaskId, i: InstanceId) returns (g: State)
    requires t in f.tasks && f.tasks[t] == PoolRelease(i)
    requires i in f.pool.tracked && i in f.pool.insts
    ensures Reaches(f, g) && g == Goto(f, t, ProbeDevice(i))
  {
    ReachesItself(f);
    g := Goto(f, t, ProbeDevice(i));
    Next(f, f, t, YES, g);
  }

  /** Release of an unknown device. */
  lemma ReleaseOfUnknown(f: State, t: TaskId, i: InstanceId) returns (g: State)
    requires t in f.tasks && f.tasks[t] == PoolRelease(i) && i in f.pool.insts && i !in f.pool.tracked
    ensures Reaches(f, g) && t !in g.tasks && g.pool == f.pool
  {
    ReachesItself(f);
    g := End(f, t);
    Next(f, f, t, YES, g);
  }

  /** Release of a device that adb does not see, and nobody is told. */
  lemma ReleaseOfDead(f: State, t: TaskId, i: InstanceId) returns (g: State)
    requires t in f.tasks && f.tasks[t] == PoolRelease(i)
    requires i in f.pool.tracked && i in f.pool.insts
    ensures Reaches(f, g) && t !in g.tasks && g.evictions == f.evictions
    ensures g.pool == GiveBackSlot(Untrack(WithSession(f.pool, i, None), i))
  {
    var a := Probed(f, t, i);
    var b := RunTask(a, t, NO);
    Next(f, a, t, NO, b);
    assert b.pool == WithSession(f.pool, i, None) && b.tasks[t] == Remove(i, Stop) && b.evictions == f.evictions;
    g := RemovalIsRemoveInstance(f, b, t, i);
  }

  /** Release of a live device: it starts to be reset and loses its session, if the table lets it; otherwise
      nothing happens. */
  lemma ReleaseOfLive(f: State, t: TaskId, i: InstanceId) returns (g: State)
    requires t in f.tasks && f.tasks[t] == PoolRelease(i)
    requires i in f.pool.tracked && i in f.pool.insts
    ensures Reaches(f, g)
    ensures if CanTransition(f.pool, i, Resetting)
            then t in g.tasks && g.tasks[t] == ResetDevice(i) && g.pool == WithSession(Transition(f.pool, i, Resetting), i, None)
            else t !in g.tasks && g.pool == f.pool
  {
    var a := Probed(f, t, i);
    var b := RunTask(a, t, YES);
    Next(f, a, t, YES, b);
    if CanTransition(f.pool, i, Resetting) {
      assert b.pool == Transition(f.pool, i, Resetting) && b.tasks[t] == ClearAfterReset(i);
      g := RunTask(b, t, YES);
      Next(f, b, t, YES, g);
    } else {
      g := b;
    }
  }

  /** ResetFinished. */
  lemma ResetIsResetFinished(f: State, t: TaskId, i: InstanceId, ok: bool) returns (g: State)
    requires t in f.tasks && f.tasks[t] == ResetDevice(i) && i in f.pool.insts
    ensures Reaches(f, g) && t !in g.tasks
    ensures g.pool == if ok then Transition(f.pool, i, Warm) else GiveBackSlot(Untrack(f.pool, i))
    ensures g.evictions == if ok then f.evictions else WithCallback(f, i)
  {
    ReachesItself(f);
    var o := YES.(ok := ok);
    var a := RunTask(f, t, o);
    Next(f, f, t, o, a);
    if ok {
      g := a;
    } else {
      assert a.pool == f.pool && a.tasks[t] == Remove(i, Stop) && a.evictions == f.evictions;
      g := RemovalIsRemoveInstance(f, a, t, i);
    }
  }

  // ---- Regions without a method of their own ----

  /** bootEmulator from the created device on: it comes up Warm, and an on-demand boot goes on to clear its flag
      and take the device; a boot by hand is over. */
  lemma BootBringsUp(f0: State, f: State, t: TaskId, i: InstanceId, avd: string, origin: Origin) returns (g: State)
    requires Reaches(f0, f) && t in f.tasks && f.tasks[t] == StartBoot(i, avd, origin)
    requires i in f.pool.insts && f.pool.insts[i].state == Creating
    ensures Reaches(f0, g) && g.pool == BroughtUp(f.pool, i)
    ensures if origin.TakesSlot() then t in g.tasks && g.tasks[t] == Unflag(avd, origin, Some(i), true) else t !in g.tasks
  {
    var a := RunTask(f, t, YES);
    Next(f0, f, t, YES, a);
    assert a.tasks[t] == Prepare(i, avd, origin) && a.pool == Transition(f.pool, i, Booting);
    g := PreparedAndFinished(f0, a, t, i, avd, origin);
    BootingIsPassed(f.pool, i);
  }

  lemma BootingIsPassed(p: PoolState, i: InstanceId)
    requires i in p.insts && p.insts[i].state == Creating
    ensures BroughtUp(Transition(p, i, Booting), i) == BroughtUp(p, i)
  {
    var q := Transition(p, i, Booting);
    assert q.insts[i := q.insts[i].(state := Warm)] == p.insts[i := p.insts[i].(state := Warm)];
  }

  function BroughtUp(p: PoolState, i: InstanceId): PoolState
    requires i in p.insts
  {
    p.(insts := p.insts[i := p.insts[i].(state := Warm)])
  }

  lemma PreparedAndFinished(f0: State, f: State, t: TaskId, i: InstanceId, avd: string, origin: Origin) returns (g: State)
    requires Reaches(f0, f) && t in f.tasks && f.tasks[t] == Prepare(i, avd, origin)
    requires i in f.pool.insts && f.pool.insts[i].state == Booting
    ensures Reaches(f0, g) && g.pool == BroughtUp(f.pool, i)
    ensures if origin.TakesSlot() then t in g.tasks && g.tasks[t] == Unflag(avd, origin, Some(i), true) else t !in g.tasks
  {
    var a := Goto(f, t, FinishBoot(i, avd, origin));
    Next(f0, f, t, YES, a);
    g := RunTask(a, t, YES);
    Next(f0, a, t, YES, g);
  }

  /** The end of an on-demand boot: the flag is cleared and the Warm device taken. */
  lemma BootIsGranted(f: State, t: TaskId, i: InstanceId, avd: string, origin: Origin) returns (g: State)
    requires t in f.tasks && f.tasks[t] == Unflag(avd, origin, Some(i), true)
    requires i in f.pool.insts && f.pool.insts[i].state == Warm
    ensures Reaches(f, g) && t in g.tasks && g.tasks[t] == BindSession(i)
    ensures g.pool.booting == f.pool.booting - {avd} && g.pool.insts == f.pool.insts[i := f.pool.insts[i].(state := Allocated)]
  {
    ReachesItself(f);
    var a := RunTask(f, t, YES);
    Next(f, f, t, YES, a);
    assert a.tasks[t] == Claim(i) && a.pool == f.pool.(booting := f.pool.booting - {avd});
    g := RunTask(a, t, YES);
    Next(f, a, t, YES, g);
  }

  /** Adoption: the device is tracked and Warm. */
  lemma AdoptionBringsUp(f: State, name: string, destroyable: bool) returns (g: State)
    requires f.nextTask !in f.tasks
    ensures Reaches(f, g) && g.tasks == f.tasks && g.pool.tracked == f.pool.tracked + {f.pool.nextInst}
    ensures g.pool.insts == f.pool.insts[f.pool.nextInst := Inst(name, "", Warm, None, false, destroyable, Adopted)]
    ensures g.pool.sem == f.pool.sem
  {
    ReachesItself(f);
    var a := Apply(f, Adopt(name, destroyable));
    OneMore(f, f, Adopt(name, destroyable), a);
    assert a.tasks[f.nextTask] == AdoptWarm(f.pool.nextInst);
    g := RunTask(a, f.nextTask, YES);
    Next(f, a, f.nextTask, YES, g);
    assert a.tasks - {f.nextTask} == f.tasks;
  }

  /** BootAVD: refused exactly when the AVD is tracked already, or as many devices are tracked as the pool may
      hold; otherwise the boot begins. It takes no slot. */
  lemma ManualBootStartsExactlyWhen(f0: State, f: State, t: TaskId, avd: string) returns (g: State)
    requires Reaches(f0, f) && t in f.tasks && f.tasks[t] == CheckTracked(avd)
    ensures Reaches(f0, g) && g.pool == f.pool
    ensures t in g.tasks <==>
              (forall i :: i in f.pool.tracked && i in f.pool.insts ==> f.pool.insts[i].name != avd)
              && |f.pool.tracked| < f.pool.capacity
    ensures t in g.tasks ==> g.tasks[t] == CreateInst(avd, ManualBoot)
  {
    TrackedNamesAre(f.pool, avd);
    var a := RunTask(f, t, YES);
    Next(f0, f, t, YES, a);
    if t in a.tasks {
      assert a.pool == f.pool && a.tasks[t] == CheckCount(avd);
      g := RunTask(a, t, YES);
      Next(f0, a, t, YES, g);
    } else {
      g := a;
    }
  }

  function WithBooted(p: PoolState, avd: string): PoolState {
    p.(insts := p.insts[p.nextInst := Inst(avd, "", Warm, None, false, true, ManualBoot)],
       tracked := p.tracked + {p.nextInst}, nextInst := p.nextInst + 1)
  }

  lemma CreatedAndBooted(f0: State, f: State, t: TaskId, avd: string) returns (g: State)
    requires Reaches(f0, f) && t in f.tasks && f.tasks[t] == CreateInst(avd, ManualBoot)
    ensures Reaches(f0, g) && t !in g.tasks && g.pool == WithBooted(f.pool, avd)
  {
    var a := RunTask(f, t, YES);
    Next(f0, f, t, YES, a);
    var i := f.pool.nextInst;
    assert a.pool == Create(f.pool, avd, "", true, ManualBoot) && a.tasks[t] == StartBoot(i, avd, ManualBoot);
    g := BootBringsUp(f0, a, t, i, avd, ManualBoot);
    assert BroughtUp(a.pool, i) == WithBooted(f.pool, avd);
  }

  /** A boot asked for by hand: unless the AVD is tracked already or the limit is reached, a new device of that
      name comes up Warm, and it takes no slot. */
  lemma BootByHand(f: State, avd: string) returns (g: State)
    requires f.nextTask !in f.tasks
    ensures Reaches(f, g) && f.nextTask !in g.tasks
    ensures if (exists i :: i in f.pool.tracked && i in f.pool.insts && f.pool.insts[i].name == avd)
               || |f.pool.tracked| >= f.pool.capacity
            then g.pool == f.pool
            else g.pool == f.pool.(tracked := f.pool.tracked + {f.pool.nextInst}, nextInst := f.pool.nextInst + 1,
                   insts := f.pool.insts[f.pool.nextInst := Inst(avd, "", Warm, None, false, true, ManualBoot)])
  {
    ReachesItself(f);
    var a := Apply(f, AskBoot(avd));
    OneMore(f, f, AskBoot(avd), a);
    assert a.pool == f.pool && a.tasks[f.nextTask] == CheckTracked(avd);
    g := ManualBootStartsExactlyWhen(f, a, f.nextTask, avd);
    if f.nextTask in g.tasks {
      g := CreatedAndBooted(f, g, f.nextTask, avd);
    }
  }

  /** Requests on demand take a slot exactly while one is free. */
  lemma SlotIsTakenExactlyWhenFree(f: State, t: TaskId, o: Oracle)
    requires t in f.tasks && f.tasks[t].TakeSlot? && TaskEnabled(f, f.tasks[t], o)
    ensures t in RunTask(f, t, o).tasks <==> f.pool.sem < f.pool.capacity
    ensures RunTask(f, t, o).pool == f.pool.(sem := if f.pool.sem < f.pool.capacity then f.pool.sem + 1 else f.pool.sem)
    ensures t in RunTask(f, t, o).tasks ==>
              RunTask(f, t, o).tasks[t] == match f.tasks[t].named
                                           case Some(avd) => FlagAvd(avd, NamedBoot)
                                           case None => SelectAvd
  {
    match f.tasks[t] case TakeSlot(_) =>
  }

  /** A health error marks every device that is not being destroyed; a reservation marks the device and nothing
      else. */
  lemma OperatorsAndHealthChecks(f: State, i: InstanceId, reserved: bool)
    requires i in f.pool.insts
    ensures var p := Apply(f, MarkError(i)).pool;
            p.insts.Keys == f.pool.insts.Keys
            && p.insts[i] == f.pool.insts[i].(state := if f.pool.insts[i].state == Destroying then Destroying else Error)
            && forall j :: j in f.pool.insts && j != i ==> p.insts[j] == f.pool.insts[j]
    ensures i in f.pool.tracked ==>
              var p := Apply(f, SetReserved(i, reserved)).pool;
              p.insts.Keys == f.pool.insts.Keys
              && p.insts[i] == f.pool.insts[i].(reserved := reserved)
              && forall j :: j in f.pool.insts && j != i ==> p.insts[j] == f.pool.insts[j]
  {
  }
}
