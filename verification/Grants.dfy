/** Which devices a request is granted, region by region and over whole runs. */
module Grants {
  import opened Options
  import opened DeviceStates
  import opened PoolModel
  import opened Farm
  import opened Ownership

  /** The step grants the device i to the goroutine that takes it. */
  predicate Granted(f: State, g: State, t: TaskId, i: InstanceId) {
    t in f.tasks && !f.tasks[t].BindSession? && t in g.tasks && g.tasks[t] == BindSession(i)
  }

  predicate Scans(task: Task) {
    task.FindWarm? || task.FindById? || task.FindByName?
  }

  /** The three scans grant only a tracked device that is Warm, and to an automated caller only one that
      is not reserved; the profile scan prefers its profile. */
  lemma ScansGrantEligibleDevices(f: State, t: TaskId, o: Oracle, i: InstanceId)
    requires t in f.tasks && TaskEnabled(f, f.tasks[t], o) && Granted(f, RunTask(f, t, o), t, i)
    requires Scans(f.tasks[t])
    ensures EligibleTracked(f.pool, i, f.tasks[t].manual)
    ensures i in RunTask(f, t, o).pool.tracked && RunTask(f, t, o).pool.insts[i].state == Allocated
    ensures f.tasks[t].FindById? ==> i == f.tasks[t].id
    ensures f.tasks[t].FindByName? ==> f.pool.insts[i].name == f.tasks[t].avd
    ensures f.tasks[t].FindWarm? && f.tasks[t].profile != "" && f.pool.insts[i].profile != f.tasks[t].profile ==>
              forall j :: EligibleTracked(f.pool, j, f.tasks[t].manual) ==>
                f.pool.insts[j].profile != f.tasks[t].profile
  {
  }

  /** Besides the scans only the end of an on-demand boot grants a device. It takes the device it booted
      exactly when that is Warm, and never looks at the reservation. */
  lemma BootsGrantWhateverTheReservation(f: State, t: TaskId, o: Oracle, i: InstanceId)
    requires t in f.tasks && TaskEnabled(f, f.tasks[t], o) && !Scans(f.tasks[t])
    ensures Granted(f, RunTask(f, t, o), t, i) <==> f.tasks[t] == Claim(i) && f.pool.insts[i].state == Warm
  {
    match f.tasks[t]
    case Claim(_) =>
    case _ =>
  }

  /** A scan for one device grants exactly that device, exactly when it is tracked, Warm, and not reserved unless
      the caller is manual. */
  lemma ScanByIdGrantsExactly(f: State, t: TaskId, o: Oracle, i: InstanceId)
    requires t in f.tasks && TaskEnabled(f, f.tasks[t], o) && f.tasks[t].FindById?
    ensures Granted(f, RunTask(f, t, o), t, i) <==>
              i == f.tasks[t].id && i in f.pool.tracked && i in f.pool.insts && f.pool.insts[i].state == Warm
              && (f.tasks[t].manual || !f.pool.insts[i].reserved)
    ensures RunTask(f, t, o).pool == if Granted(f, RunTask(f, t, o), t, f.tasks[t].id)
                                     then Transition(f.pool, f.tasks[t].id, Allocated) else f.pool
  {
    match f.tasks[t] case FindById(_, _) =>
  }

  /** A scan for an AVD name is decided by the device it finds first: that one is granted exactly when it is Warm,
      and not reserved unless the caller is manual; a boot is tried exactly when no tracked device has the name. */
  lemma ScanByNameGrantsExactly(f: State, t: TaskId, o: Oracle, i: InstanceId)
    requires t in f.tasks && TaskEnabled(f, f.tasks[t], o) && f.tasks[t].FindByName?
    ensures o.pick.Some? ==>
              && o.pick.value in f.pool.tracked && f.pool.insts[o.pick.value].name == f.tasks[t].avd
              && (Granted(f, RunTask(f, t, o), t, i) <==>
                  i == o.pick.value && f.pool.insts[i].state == Warm && (f.tasks[t].manual || !f.pool.insts[i].reserved))
    ensures (t in RunTask(f, t, o).tasks && RunTask(f, t, o).tasks[t].TakeSlot?) <==>
              forall j :: j in f.pool.tracked && j in f.pool.insts ==> f.pool.insts[j].name != f.tasks[t].avd
  {
    match f.tasks[t] case FindByName(avd, _) =>
    TrackedNamesAre(f.pool, avd);
  }

  /** The scan for any device grants one exactly when some tracked device is Warm and not reserved, or the caller is
      manual; otherwise it goes on to take a slot for a boot. */
  lemma WarmScanGrantsExactly(f: State, t: TaskId, o: Oracle)
    requires t in f.tasks && TaskEnabled(f, f.tasks[t], o) && f.tasks[t].FindWarm?
    ensures t in RunTask(f, t, o).tasks
    ensures RunTask(f, t, o).tasks[t].BindSession? <==>
              exists i :: i in f.pool.tracked && i in f.pool.insts && f.pool.insts[i].state == Warm
                          && (f.tasks[t].manual || !f.pool.insts[i].reserved)
    ensures RunTask(f, t, o).tasks[t].TakeSlot? <==> !RunTask(f, t, o).tasks[t].BindSession?
  {
    match f.tasks[t] case FindWarm(profile, manual) =>
    NothingToGrant(f.pool, profile, manual);
    if o.pick.Some? { WhatMayBeGranted(f.pool, profile, manual, o.pick.value); }
  }

  // ---- Whose requests the goroutines answer ----

  /** The requests so far, by the goroutine that answers each, and whether they are manual. */
  type Requests = map<TaskId, bool>

  function Noted(f: State, st: Step, asked: Requests): Requests {
    match st
    case AskAny(_, manual) => asked[f.nextTask := manual]
    case AskId(_, manual) => asked[f.nextTask := manual]
    case AskName(_, manual) => asked[f.nextTask := manual]
    case _ => asked
  }

  function Asked(f: State, run: seq<Step>, asked: Requests): Requests
    requires Legal(f, run)
    decreases |run|
  {
    if run == [] then asked else Asked(Apply(f, run[0]), run[1..], Noted(f, run[0], asked))
  }

  /** The task is a stage of a request for a device, up to the grant. */
  predicate OnRequest(task: Task) {
    match task
    case FindWarm(_, _) => true
    case FindById(_, _) => true
    case FindByName(_, _) => true
    case TakeSlot(_) => true
    case SelectAvd => true
    case PickAvd(_) => true
    case FlagAvd(_, _) => true
    case CreateInst(_, origin) => origin.TakesSlot()
    case StartBoot(_, _, origin) => origin.TakesSlot()
    case Prepare(_, _, origin) => origin.TakesSlot()
    case FinishBoot(_, _, origin) => origin.TakesSlot()
    case Remove(_, BootFailed(_, origin, _)) => origin.TakesSlot()
    case GiveBack(_, BootFailed(_, origin, _)) => origin.TakesSlot()
    case Unflag(_, _, _, _) => true
    case Claim(_) => true
    case _ => false
  }

  /** Every such goroutine answers a request that was made, and its scan knows whether it is manual. */
  ghost predicate Answering(f: State, asked: Requests) {
    && (forall t :: t in asked ==> t < f.nextTask)
    && (forall t :: t in f.tasks && OnRequest(f.tasks[t]) ==>
          t in asked && (Scans(f.tasks[t]) ==> asked[t] == f.tasks[t].manual))
  }

  lemma RequestsGoOn(f: State, t: TaskId, o: Oracle)
    requires t in f.tasks && TaskEnabled(f, f.tasks[t], o) && t in RunTask(f, t, o).tasks
    ensures OnRequest(RunTask(f, t, o).tasks[t]) ==> OnRequest(f.tasks[t])
  {
    match f.tasks[t]
    case CheckCount(_) =>
    case CreateInst(_, _) =>
    case FinishBoot(_, _, _) =>
    case Remove(_, _) =>
    case GiveBack(_, _) =>
    case _ =>
  }

  lemma ScansComeFirst(f: State, t: TaskId, o: Oracle)
    requires t in f.tasks && TaskEnabled(f, f.tasks[t], o) && t in RunTask(f, t, o).tasks
    ensures !Scans(RunTask(f, t, o).tasks[t])
  {
    match f.tasks[t]
    case FindWarm(_, _) =>
    case _ =>
  }

  lemma TaskKeepsAnswering(f: State, t: TaskId, o: Oracle, asked: Requests)
    requires Answering(f, asked) && t in f.tasks && TaskEnabled(f, f.tasks[t], o)
    ensures Answering(RunTask(f, t, o), asked)
  {
    TaskMovesItself(f, t, o);
    if t in RunTask(f, t, o).tasks {
      RequestsGoOn(f, t, o);
      ScansComeFirst(f, t, o);
    }
  }

  lemma NewRequestIsNoted(f: State, st: Step, asked: Requests)
    requires Enabled(f, st) && !st.Advance? && f.nextTask !in f.tasks && f.nextTask !in asked
    ensures var g, noted, t := Apply(f, st), Noted(f, st, asked), f.nextTask;
            && (t in g.tasks && OnRequest(g.tasks[t]) ==> t in noted && (Scans(g.tasks[t]) ==> noted[t] == g.tasks[t].manual))
            && (t in noted ==> g.nextTask == t + 1)
            && noted - {t} == asked
  {
    assert asked - {f.nextTask} == asked;
  }

  lemma AnsweringAfterEnvironment(f: State, g: State, asked: Requests, noted: Requests)
    requires Answering(f, asked) && AtMostOneSpawned(f, g) && noted - {f.nextTask} == asked
    requires f.nextTask in g.tasks && OnRequest(g.tasks[f.nextTask]) ==>
               f.nextTask in noted && (Scans(g.tasks[f.nextTask]) ==> noted[f.nextTask] == g.tasks[f.nextTask].manual)
    requires f.nextTask in noted ==> g.nextTask == f.nextTask + 1
    ensures Answering(g, noted)
  {
    assert forall t :: t in noted && t != f.nextTask ==> t in noted - {f.nextTask};
    assert forall t :: t in asked ==> t in noted - {f.nextTask} && noted[t] == asked[t];
  }

  lemma StepKeepsAnswering(f: State, st: Step, asked: Requests)
    requires WellFormed(f) && Answering(f, asked) && Enabled(f, st)
    ensures Answering(Apply(f, st), Noted(f, st, asked))
  {
    if st.Advance? {
      TaskKeepsAnswering(f, st.task, st.oracle, asked);
    } else {
      EnvironmentFrame(f, st);
      NewRequestIsNoted(f, st, asked);
      AnsweringAfterEnvironment(f, Apply(f, st), asked, Noted(f, st, asked));
    }
  }

  lemma {:induction false} RunsKeepAnswering(f: State, run: seq<Step>, asked: Requests)
    requires WellFormed(f) && Answering(f, asked) && Legal(f, run)
    ensures Answering(Final(f, run), Asked(f, run, asked))
    decreases |run|
  {
    if run != [] {
      StepKeepsWellFormed(f, run[0]);
      StepKeepsAnswering(f, run[0], asked);
      RunsKeepAnswering(Apply(f, run[0]), run[1..], Noted(f, run[0], asked));
    }
  }

  /** The step grants the device, which is reserved, and the request it answers is an automated one. */
  ghost predicate GrantsReserved(f: State, t: TaskId, o: Oracle, i: InstanceId, asked: Requests) {
    && t in f.tasks && TaskEnabled(f, f.tasks[t], o) && Granted(f, RunTask(f, t, o), t, i)
    && t in asked && !asked[t] && i in f.pool.insts && f.pool.insts[i].reserved
  }

  /** In every run: whatever is granted answers a request; and a reserved device goes to an automated request
      exactly where a goroutine that booted it on demand takes it while it is Warm. */
  lemma ReservedDevicesAreGrantedExactlyAfterBoots(capacity: nat, run: seq<Step>, t: TaskId, o: Oracle, i: InstanceId)
    requires Legal(Init(capacity), run)
    requires Enabled(Final(Init(capacity), run), Advance(t, o))
    ensures var f, asked := Final(Init(capacity), run), Asked(Init(capacity), run, map[]);
            && (Granted(f, RunTask(f, t, o), t, i) ==> t in asked)
            && (GrantsReserved(f, t, o, i, asked) <==>
                f.tasks[t] == Claim(i) && f.pool.insts[i].state == Warm && f.pool.insts[i].reserved && !asked[t])
  {
    RunsKeepAnswering(Init(capacity), run, map[]);
    var f := Final(Init(capacity), run);
    if Scans(f.tasks[t]) {
      if Granted(f, RunTask(f, t, o), t, i) { ScansGrantEligibleDevices(f, t, o, i); }
    } else {
      BootsGrantWhateverTheReservation(f, t, o, i);
    }
  }
}
