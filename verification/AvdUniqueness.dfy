/** No AVD is booted twice on demand. allocateAny picks an AVD under avdMu that is neither tracked nor
    flagged as booting, and flags it before it lets go. Over every run in which no boot flags an AVD that
    is flagged already, two live on-demand boots by allocateAny are never on the same AVD. */
module AvdUniqueness {
  import opened Options
  import opened PoolModel
  import opened Farm
  import opened Ownership

  /** The on-demand boot a task is carrying out, from the flagging of the AVD until the flag is cleared. */
  function BootOf(task: Task): Option<(string, Origin)> {
    match task
    case CreateInst(avd, origin) => if origin.TakesSlot() then Some((avd, origin)) else None
    case StartBoot(_, avd, origin) => if origin.TakesSlot() then Some((avd, origin)) else None
    case Prepare(_, avd, origin) => if origin.TakesSlot() then Some((avd, origin)) else None
    case FinishBoot(_, avd, origin) => if origin.TakesSlot() then Some((avd, origin)) else None
    case Unflag(avd, origin, _, _) => Some((avd, origin))
    case Remove(_, BootFailed(avd, origin, _)) => if origin.TakesSlot() then Some((avd, origin)) else None
    case GiveBack(_, BootFailed(avd, origin, _)) => if origin.TakesSlot() then Some((avd, origin)) else None
    case _ => None
  }

  function FlaggedBy(f: State, t: TaskId): Option<(string, Origin)> {
    if t in f.tasks then BootOf(f.tasks[t]) else None
  }

  /** The AVD of a boot started by allocateAny. */
  function AnyBootAvd(f: State, t: TaskId): Option<string> {
    var b := FlaggedBy(f, t);
    if b.Some? && b.value.1 == AnyBoot then Some(b.value.0) else None
  }

  /** The AVD of a tracked device that was booted by allocateAny. */
  function RunningAvd(f: State, i: InstanceId): Option<string> {
    if i in f.pool.tracked && i in f.pool.insts && f.pool.insts[i].origin == AnyBoot
    then Some(f.pool.insts[i].name)
    else None
  }

  ghost predicate FlagsExclusive(f: State) {
    && (forall t :: FlaggedBy(f, t).Some? ==> FlaggedBy(f, t).value.0 in f.pool.booting)
    && (forall t, u | FlaggedBy(f, t).Some? && FlaggedBy(f, u).Some?
                      && FlaggedBy(f, t).value.0 == FlaggedBy(f, u).value.0 :: t == u)
  }

  /** Only the holder of avdMu chooses an AVD. */
  ghost predicate ChoosesAlone(f: State) {
    forall t :: t in f.tasks && Chooses(f.tasks[t]) ==> f.avdLock == Some(t)
  }

  predicate Chooses(task: Task) {
    task.PickAvd? || (task.FlagAvd? && task.origin == AnyBoot)
  }

  /** What a task that is choosing has ruled out. */
  predicate RuledOut(task: Task, avd: string) {
    match task
    case PickAvd(used) => avd in used
    case FlagAvd(chosen, _) => avd != chosen
    case _ => false
  }

  /** The live boots are all ruled out by whoever is choosing. */
  ghost predicate ChoiceIsNew(f: State) {
    && (forall t, u :: t in f.tasks && Chooses(f.tasks[t]) && AnyBootAvd(f, u).Some? ==>
          RuledOut(f.tasks[t], AnyBootAvd(f, u).value))
    && (forall t, i :: t in f.tasks && Chooses(f.tasks[t]) && RunningAvd(f, i).Some? ==>
          RuledOut(f.tasks[t], RunningAvd(f, i).value))
  }

  /** Two live boots by allocateAny on one AVD are the same boot: the same device, or the goroutine and
      the device it has made; that two goroutines differ is part of FlagsExclusive. */
  ghost predicate OneBootPerAvd(f: State) {
    && (forall i, j | RunningAvd(f, i).Some? && RunningAvd(f, i) == RunningAvd(f, j) :: i == j)
    && (forall t, i: InstanceId | AnyBootAvd(f, t).Some? && AnyBootAvd(f, t) == RunningAvd(f, i) ::
          InstOf(f.tasks[t]) == Some(i))
  }

  ghost predicate Distinct(f: State) {
    FlagsExclusive(f) && ChoosesAlone(f) && ChoiceIsNew(f) && OneBootPerAvd(f)
  }

  // ---- What one region does to the boots ----

  /** Other goroutines go on with the boots they had. */
  lemma OthersGoOn(f: State, t: TaskId, o: Oracle)
    requires t in f.tasks && TaskEnabled(f, f.tasks[t], o)
    ensures forall u :: u != t ==> FlaggedBy(RunTask(f, t, o), u) == FlaggedBy(f, u)
    ensures forall u :: u != t ==> (u in RunTask(f, t, o).tasks <==> u in f.tasks)
    ensures forall u :: u != t && u in f.tasks ==> RunTask(f, t, o).tasks[u] == f.tasks[u]
  {
    TaskMovesItself(f, t, o);
  }

  /** Whether a device is tracked as the work of allocateAny changes only when it is created or removed. */
  lemma OnlyCreationTracks(f: State, t: TaskId, o: Oracle, i: InstanceId)
    requires t in f.tasks && TaskEnabled(f, f.tasks[t], o) && f.pool.nextInst !in f.pool.tracked
    requires i in RunTask(f, t, o).pool.tracked && i !in f.pool.tracked
    ensures i == f.pool.nextInst && f.tasks[t].CreateInst? && t in RunTask(f, t, o).tasks
    ensures InstOf(RunTask(f, t, o).tasks[t]) == Some(i) && i in RunTask(f, t, o).pool.insts
    ensures RunTask(f, t, o).pool.insts[i].name == f.tasks[t].avd
    ensures RunTask(f, t, o).pool.insts[i].origin == f.tasks[t].origin
  {
    match f.tasks[t]
    case CreateInst(_, _) =>
    case _ =>
  }

  /** A device runs an AVD for allocateAny only if it did before, or was just created by such a boot. */
  lemma OnlyCreationStartsRunning(f: State, t: TaskId, o: Oracle, i: InstanceId)
    requires WellFormed(f) && t in f.tasks && TaskEnabled(f, f.tasks[t], o)
    requires RunningAvd(RunTask(f, t, o), i).Some?
    ensures || RunningAvd(RunTask(f, t, o), i) == RunningAvd(f, i)
            || (f.tasks[t].CreateInst? && AnyBootAvd(f, t) == RunningAvd(RunTask(f, t, o), i)
                && t in RunTask(f, t, o).tasks && InstOf(RunTask(f, t, o).tasks[t]) == Some(i))
  {
    if i in f.pool.tracked {
      TaskKeepsIdentity(f, t, o, i);
    } else {
      OnlyCreationTracks(f, t, o, i);
    }
  }

  /** A goroutine keeps its boot and the device it made, drops it, or flags a new one. */
  lemma OwnBoot(f: State, t: TaskId, o: Oracle)
    requires t in f.tasks && TaskEnabled(f, f.tasks[t], o)
    ensures var g := RunTask(f, t, o);
            FlaggedBy(g, t).Some? ==>
              if f.tasks[t].FlagAvd?
              then FlaggedBy(g, t) == Some((f.tasks[t].avd, f.tasks[t].origin))
              else FlaggedBy(g, t) == FlaggedBy(f, t)
                   && (InstOf(f.tasks[t]).Some? ==> InstOf(g.tasks[t]) == InstOf(f.tasks[t]))
    ensures RunTask(f, t, o).pool.booting ==
              if f.tasks[t].FlagAvd? then f.pool.booting + {f.tasks[t].avd}
              else if f.tasks[t].Unflag? then f.pool.booting - {f.tasks[t].avd}
              else f.pool.booting
    ensures f.tasks[t].Unflag? ==> FlaggedBy(RunTask(f, t, o), t).None?
  {
    OwnFlag(f, t, o);
    match f.tasks[t]
    case FlagAvd(_, _) =>
    case CreateInst(_, _) =>
    case StartBoot(_, _, _) =>
    case Prepare(_, _, _) =>
    case FinishBoot(_, _, _) =>
    case Remove(_, _) =>
    case GiveBack(_, _) =>
    case _ =>
  }

  lemma OwnFlag(f: State, t: TaskId, o: Oracle)
    requires t in f.tasks && TaskEnabled(f, f.tasks[t], o)
    ensures RunTask(f, t, o).pool.booting ==
              if f.tasks[t].FlagAvd? then f.pool.booting + {f.tasks[t].avd}
              else if f.tasks[t].Unflag? then f.pool.booting - {f.tasks[t].avd}
              else f.pool.booting
    ensures f.tasks[t].Unflag? ==> FlaggedBy(RunTask(f, t, o), t).None?
  {
    match f.tasks[t]
    case Unflag(_, _, _, _) =>
    case _ =>
  }

  /** avdMu passes to the goroutine that starts to choose and is let go when the choice is made. */
  lemma OwnChoice(f: State, t: TaskId, o: Oracle)
    requires t in f.tasks && TaskEnabled(f, f.tasks[t], o)
    ensures var g := RunTask(f, t, o);
            match f.tasks[t]
            case SelectAvd => f.avdLock.None? && g.avdLock == Some(t)
            case PickAvd(_) => g.avdLock == f.avdLock || (g.avdLock.None? && !(t in g.tasks && Chooses(g.tasks[t])))
            case FlagAvd(_, AnyBoot) => g.avdLock.None? && !(t in g.tasks && Chooses(g.tasks[t]))
            case _ => g.avdLock == f.avdLock && !(t in g.tasks && Chooses(g.tasks[t]))
  {
    match f.tasks[t]
    case PickAvd(_) =>
    case _ =>
  }

  lemma TaskKeepsFlagsExclusive(f: State, t: TaskId, o: Oracle)
    requires FlagsExclusive(f) && t in f.tasks && TaskEnabled(f, f.tasks[t], o) && !FlagClash(f, Advance(t, o))
    ensures FlagsExclusive(RunTask(f, t, o))
  {
    OthersGoOn(f, t, o);
    OwnBoot(f, t, o);
    FlagsStayExclusive(f, RunTask(f, t, o), t);
  }

  lemma FlagsStayExclusive(f: State, g: State, t: TaskId)
    requires FlagsExclusive(f) && t in f.tasks
    requires f.tasks[t].FlagAvd? ==> f.tasks[t].avd !in f.pool.booting
    requires forall u :: u != t ==> FlaggedBy(g, u) == FlaggedBy(f, u)
    requires FlaggedBy(g, t).Some? ==>
               if f.tasks[t].FlagAvd? then FlaggedBy(g, t) == Some((f.tasks[t].avd, f.tasks[t].origin))
               else FlaggedBy(g, t) == FlaggedBy(f, t)
    requires g.pool.booting ==
               if f.tasks[t].FlagAvd? then f.pool.booting + {f.tasks[t].avd}
               else if f.tasks[t].Unflag? then f.pool.booting - {f.tasks[t].avd}
               else f.pool.booting
    requires f.tasks[t].Unflag? ==> FlaggedBy(g, t).None?
    ensures FlagsExclusive(g)
  {
    if f.tasks[t].Unflag? {
      assert FlaggedBy(f, t).Some?;
    }
  }

  lemma TaskKeepsChoosesAlone(f: State, t: TaskId, o: Oracle)
    requires ChoosesAlone(f) && t in f.tasks && TaskEnabled(f, f.tasks[t], o)
    ensures ChoosesAlone(RunTask(f, t, o))
  {
    OthersGoOn(f, t, o);
    OwnChoice(f, t, o);
  }

  lemma TaskKeepsOneBoot(f: State, t: TaskId, o: Oracle)
    requires WellFormed(f) && Distinct(f) && t in f.tasks && TaskEnabled(f, f.tasks[t], o)
    ensures OneBootPerAvd(RunTask(f, t, o))
  {
    var g := RunTask(f, t, o);
    OthersGoOn(f, t, o);
    OwnBoot(f, t, o);
    forall i: InstanceId | RunningAvd(g, i).Some?
      ensures RunningAvd(g, i) == RunningAvd(f, i) || StartsRunning(f, g, t, i)
    {
      OnlyCreationStartsRunning(f, t, o, i);
    }
    OneBootStays(f, g, t);
  }

  /** The goroutine t runs one region between f and g, as far as live boots go. */
  ghost predicate BootsMove(f: State, g: State, t: TaskId) {
    && t in f.tasks
    && (forall u :: u != t ==> FlaggedBy(g, u) == FlaggedBy(f, u))
    && (forall u :: u != t && u in f.tasks ==> u in g.tasks && g.tasks[u] == f.tasks[u])
    && (FlaggedBy(g, t).Some? ==>
          if f.tasks[t].FlagAvd? then FlaggedBy(g, t) == Some((f.tasks[t].avd, f.tasks[t].origin))
          else FlaggedBy(g, t) == FlaggedBy(f, t)
               && (InstOf(f.tasks[t]).Some? ==> InstOf(g.tasks[t]) == InstOf(f.tasks[t])))
    && (forall i: InstanceId | RunningAvd(g, i).Some? :: RunningAvd(g, i) == RunningAvd(f, i) || StartsRunning(f, g, t, i))
  }

  predicate StartsRunning(f: State, g: State, t: TaskId, i: InstanceId)
    requires t in f.tasks
  {
    f.tasks[t].CreateInst? && AnyBootAvd(f, t) == RunningAvd(g, i) && t in g.tasks && InstOf(g.tasks[t]) == Some(i)
  }

  lemma DevicesStayApart(f: State, g: State, t: TaskId, i: InstanceId, j: InstanceId)
    requires OneBootPerAvd(f) && BootsMove(f, g, t) && RunningAvd(g, i).Some? && RunningAvd(g, i) == RunningAvd(g, j)
    ensures i == j
  {
    assert StartsRunning(f, g, t, i) ==> AnyBootAvd(f, t) != RunningAvd(f, j);
    assert StartsRunning(f, g, t, j) ==> AnyBootAvd(f, t) != RunningAvd(f, i);
  }

  lemma BootStaysWithItsDevice(f: State, g: State, t: TaskId, u: TaskId, i: InstanceId)
    requires Distinct(f) && BootsMove(f, g, t) && AnyBootAvd(g, u).Some? && AnyBootAvd(g, u) == RunningAvd(g, i)
    ensures InstOf(g.tasks[u]) == Some(i)
  {
    assert f.tasks[t].FlagAvd? && f.tasks[t].origin == AnyBoot ==> Chooses(f.tasks[t]);
    assert u != t && FlaggedBy(f, t).Some? && FlaggedBy(f, u).Some? ==> FlaggedBy(f, u).value.0 != FlaggedBy(f, t).value.0;
    if RunningAvd(g, i) == RunningAvd(f, i) && (u != t || !f.tasks[t].FlagAvd?) {
      assert AnyBootAvd(f, u) == RunningAvd(f, i);
    }
  }

  lemma OneBootStays(f: State, g: State, t: TaskId)
    requires Distinct(f) && BootsMove(f, g, t)
    ensures OneBootPerAvd(g)
  {
    forall i: InstanceId, j: InstanceId | RunningAvd(g, i).Some? && RunningAvd(g, i) == RunningAvd(g, j) ensures i == j {
      DevicesStayApart(f, g, t, i, j);
    }
    forall u, i: InstanceId | AnyBootAvd(g, u).Some? && AnyBootAvd(g, u) == RunningAvd(g, i)
      ensures InstOf(g.tasks[u]) == Some(i)
    {
      BootStaysWithItsDevice(f, g, t, u, i);
    }
  }

  lemma TaskKeepsChoiceNew(f: State, t: TaskId, o: Oracle)
    requires WellFormed(f) && Distinct(f) && t in f.tasks && TaskEnabled(f, f.tasks[t], o)
    ensures ChoiceIsNew(RunTask(f, t, o))
  {
    var g := RunTask(f, t, o);
    OthersGoOn(f, t, o);
    OwnBoot(f, t, o);
    OwnChoice(f, t, o);
    forall c, u | c in g.tasks && Chooses(g.tasks[c]) && AnyBootAvd(g, u).Some?
      ensures RuledOut(g.tasks[c], AnyBootAvd(g, u).value)
    {
      assert c != t ==> f.tasks[c] == g.tasks[c] && f.avdLock == Some(c);
      assert AnyBootAvd(g, u) == AnyBootAvd(f, u);
      if c == t { OwnChoiceIsNew(f, t, o, AnyBootAvd(f, u).value); }
    }
    forall c, i | c in g.tasks && Chooses(g.tasks[c]) && RunningAvd(g, i).Some?
      ensures RuledOut(g.tasks[c], RunningAvd(g, i).value)
    {
      assert c != t ==> f.tasks[c] == g.tasks[c] && f.avdLock == Some(c);
      OnlyCreationStartsRunning(f, t, o, i);
      if c == t { OwnChoiceIsNew(f, t, o, RunningAvd(g, i).value); }
    }
  }

  /** What a goroutine has ruled out when it starts to choose, or has chosen. */
  lemma ChoiceRulesOut(f: State, t: TaskId, o: Oracle, avd: string)
    requires t in f.tasks && TaskEnabled(f, f.tasks[t], o) && (f.tasks[t].SelectAvd? || f.tasks[t].PickAvd?)
    requires f.tasks[t].SelectAvd? ==> avd in TrackedNames(f.pool) + f.pool.booting
    requires f.tasks[t].PickAvd? ==> avd in f.tasks[t].used
    requires t in RunTask(f, t, o).tasks && Chooses(RunTask(f, t, o).tasks[t])
    ensures RuledOut(RunTask(f, t, o).tasks[t], avd)
  {
  }

  /** Starting to choose reads every live AVD; choosing takes one that was not read. */
  lemma OwnChoiceIsNew(f: State, t: TaskId, o: Oracle, avd: string)
    requires Distinct(f) && t in f.tasks && TaskEnabled(f, f.tasks[t], o)
    requires f.tasks[t].SelectAvd? || f.tasks[t].PickAvd?
    requires t in RunTask(f, t, o).tasks && Chooses(RunTask(f, t, o).tasks[t])
    requires (exists u :: AnyBootAvd(f, u) == Some(avd)) || (exists i: InstanceId :: RunningAvd(f, i) == Some(avd))
    ensures RuledOut(RunTask(f, t, o).tasks[t], avd)
  {
    if f.tasks[t].SelectAvd? {
      if u :| AnyBootAvd(f, u) == Some(avd) {
        assert FlaggedBy(f, u).value.0 in f.pool.booting;
      } else {
        var i: InstanceId :| RunningAvd(f, i) == Some(avd);
        assert f.pool.insts[i].name in TrackedNames(f.pool);
      }
    } else {
      assert RuledOut(f.tasks[t], avd);
    }
    ChoiceRulesOut(f, t, o, avd);
  }

  // ---- Every flag is somebody's ----

  predicate Bears(f: State, t: TaskId, avd: string) {
    FlaggedBy(f, t).Some? && FlaggedBy(f, t).value.0 == avd
  }

  ghost predicate FlagsBacked(f: State) {
    && (forall t :: t in f.tasks && f.tasks[t].FlagAvd? ==> f.tasks[t].origin.TakesSlot())
    && (forall avd :: avd in f.pool.booting ==> exists t :: Bears(f, t, avd))
  }

  /** A boot keeps its AVD until it clears the flag. */
  lemma BootGoesOn(f: State, t: TaskId, o: Oracle)
    requires t in f.tasks && TaskEnabled(f, f.tasks[t], o) && !f.tasks[t].Unflag?
    requires FlaggedBy(f, t).Some?
    ensures FlaggedBy(RunTask(f, t, o), t) == FlaggedBy(f, t)
  {
    match f.tasks[t]
    case CreateInst(_, _) =>
    case StartBoot(_, _, _) =>
    case Prepare(_, _, _) =>
    case FinishBoot(_, _, _) =>
    case Remove(_, BootFailed(_, _, _)) =>
    case GiveBack(_, BootFailed(_, _, _)) =>
  }

  lemma FlagStartsBoot(f: State, t: TaskId, o: Oracle)
    requires t in f.tasks && TaskEnabled(f, f.tasks[t], o) && f.tasks[t].FlagAvd? && f.tasks[t].origin.TakesSlot()
    ensures Bears(RunTask(f, t, o), t, f.tasks[t].avd)
  {
    match f.tasks[t] case FlagAvd(_, _) =>
  }

  lemma OnDemandBootsFlag(f: State, t: TaskId, o: Oracle)
    requires t in f.tasks && TaskEnabled(f, f.tasks[t], o) && t in RunTask(f, t, o).tasks
    ensures RunTask(f, t, o).tasks[t].FlagAvd? ==> RunTask(f, t, o).tasks[t].origin.TakesSlot()
  {
    match f.tasks[t]
    case TakeSlot(_) =>
    case PickAvd(_) =>
    case _ =>
  }

  lemma TaskKeepsFlagsBacked(f: State, t: TaskId, o: Oracle)
    requires FlagsExclusive(f) && FlagsBacked(f) && t in f.tasks && TaskEnabled(f, f.tasks[t], o)
    ensures FlagsBacked(RunTask(f, t, o))
  {
    var g := RunTask(f, t, o);
    OthersGoOn(f, t, o);
    OwnBoot(f, t, o);
    if t in g.tasks { OnDemandBootsFlag(f, t, o); }
    if FlaggedBy(f, t).Some? && !f.tasks[t].Unflag? { BootGoesOn(f, t, o); }
    if f.tasks[t].FlagAvd? { FlagStartsBoot(f, t, o); }
    forall avd | avd in g.pool.booting ensures exists u :: Bears(g, u, avd) {
      if avd in f.pool.booting {
        var u :| Bears(f, u, avd);
        assert Bears(g, u, avd);
      } else {
        assert Bears(g, t, avd);
      }
    }
  }

  lemma EnvironmentKeepsFlags(f: State, st: Step)
    requires WellFormed(f) && FlagsExclusive(f) && FlagsBacked(f) && Enabled(f, st) && !st.Advance?
    ensures FlagsExclusive(Apply(f, st)) && FlagsBacked(Apply(f, st))
  {
    var g := Apply(f, st);
    EnvironmentFrame(f, st);
    EnvironmentBootsNothing(f, st);
    assert forall t :: FlaggedBy(g, t) == FlaggedBy(f, t);
    forall avd | avd in g.pool.booting ensures exists u :: Bears(g, u, avd) {
      var u :| Bears(f, u, avd);
      assert Bears(g, u, avd);
    }
  }

  lemma ClashSharesFlag(f: State, t: TaskId, o: Oracle)
    requires FlagsBacked(f) && t in f.tasks && TaskEnabled(f, f.tasks[t], o) && FlagClash(f, Advance(t, o))
    ensures !FlagsExclusive(RunTask(f, t, o))
  {
    var g, avd := RunTask(f, t, o), f.tasks[t].avd;
    var u :| Bears(f, u, avd);
    OthersGoOn(f, t, o);
    FlagStartsBoot(f, t, o);
    assert Bears(g, t, avd) && Bears(g, u, avd) && u != t;
  }

  /** A step keeps the boots under way on different AVDs, if and only if it does not flag an AVD that is flagged
      already. */
  lemma BootsStayApartExactlyWhen(f: State, st: Step)
    requires WellFormed(f) && Distinct(f) && FlagsBacked(f) && Enabled(f, st)
    ensures FlagsExclusive(Apply(f, st)) <==> !FlagClash(f, st)
  {
    if !st.Advance? {
      EnvironmentKeepsFlags(f, st);
    } else if FlagClash(f, st) {
      ClashSharesFlag(f, st.task, st.oracle);
    } else {
      TaskKeepsFlagsExclusive(f, st.task, st.oracle);
    }
  }

  /** A clash always involves a boot asked for by name. */
  lemma ClashIsWithNamedBoot(f: State, t: TaskId, o: Oracle)
    requires Distinct(f) && FlagsBacked(f) && FlagClash(f, Advance(t, o))
    ensures f.tasks[t].origin != AnyBoot || exists u :: Bears(f, u, f.tasks[t].avd) && AnyBootAvd(f, u).None?
  {
    var avd := f.tasks[t].avd;
    var u :| Bears(f, u, avd);
    if f.tasks[t].origin == AnyBoot {
      assert Chooses(f.tasks[t]) && !RuledOut(f.tasks[t], avd);
    }
  }

  // ---- Runs ----

  lemma EnvironmentBootsNothing(f: State, st: Step)
    requires Enabled(f, st) && !st.Advance? && f.nextTask !in f.tasks && f.pool.nextInst !in f.pool.insts
    ensures Apply(f, st).avdLock == f.avdLock && Apply(f, st).pool.booting == f.pool.booting
    ensures f.nextTask in Apply(f, st).tasks ==>
              BootOf(Apply(f, st).tasks[f.nextTask]).None? && !Chooses(Apply(f, st).tasks[f.nextTask])
    ensures f.pool.nextInst in Apply(f, st).pool.insts ==>
              Apply(f, st).pool.insts[f.pool.nextInst].origin == Adopted
  {
  }

  /** The environment starts no on-demand boot. */
  lemma EnvironmentKeepsDistinct(f: State, st: Step)
    requires WellFormed(f) && Distinct(f) && Enabled(f, st) && !st.Advance?
    ensures Distinct(Apply(f, st))
  {
    EnvironmentFrame(f, st);
    StepKeepsIdentity(f, st);
    EnvironmentBootsNothing(f, st);
    DistinctAfterEnvironment(f, Apply(f, st));
  }

  lemma DistinctAfterEnvironment(f: State, g: State)
    requires WellFormed(f) && Distinct(f) && AtMostOneSpawned(f, g) && IdentityKept(f.pool, g.pool)
    requires PoolGrows(f.pool, g.pool) && g.avdLock == f.avdLock && g.pool.booting == f.pool.booting
    requires f.nextTask in g.tasks ==> BootOf(g.tasks[f.nextTask]).None? && !Chooses(g.tasks[f.nextTask])
    requires f.pool.nextInst in g.pool.insts ==> g.pool.insts[f.pool.nextInst].origin == Adopted
    ensures Distinct(g)
  {
    SameBoots(f, g);
    assert forall t :: AnyBootAvd(g, t) == AnyBootAvd(f, t);
  }

  lemma SameBoots(f: State, g: State)
    requires WellFormed(f) && AtMostOneSpawned(f, g) && IdentityKept(f.pool, g.pool) && PoolGrows(f.pool, g.pool)
    requires f.nextTask in g.tasks ==> BootOf(g.tasks[f.nextTask]).None? && !Chooses(g.tasks[f.nextTask])
    requires f.pool.nextInst in g.pool.insts ==> g.pool.insts[f.pool.nextInst].origin == Adopted
    ensures forall t :: FlaggedBy(g, t) == FlaggedBy(f, t)
    ensures forall t :: FlaggedBy(f, t).Some? ==> t in g.tasks && g.tasks[t] == f.tasks[t]
    ensures forall t :: t in g.tasks && Chooses(g.tasks[t]) ==> t in f.tasks && f.tasks[t] == g.tasks[t]
    ensures forall i: InstanceId :: RunningAvd(g, i).Some? ==> RunningAvd(g, i) == RunningAvd(f, i)
  {
  }

  lemma ClashFreeStepKeepsDistinct(f: State, st: Step)
    requires WellFormed(f) && Distinct(f) && FlagsBacked(f) && Enabled(f, st) && !FlagClash(f, st)
    ensures WellFormed(Apply(f, st)) && Distinct(Apply(f, st)) && FlagsBacked(Apply(f, st))
  {
    StepKeepsWellFormed(f, st);
    if st.Advance? {
      TaskKeepsFlagsExclusive(f, st.task, st.oracle);
      TaskKeepsChoosesAlone(f, st.task, st.oracle);
      TaskKeepsChoiceNew(f, st.task, st.oracle);
      TaskKeepsOneBoot(f, st.task, st.oracle);
      TaskKeepsFlagsBacked(f, st.task, st.oracle);
    } else {
      EnvironmentKeepsDistinct(f, st);
      EnvironmentKeepsFlags(f, st);
    }
  }

  lemma {:induction false} RunsKeepDistinct(f: State, run: seq<Step>)
    requires WellFormed(f) && Distinct(f) && FlagsBacked(f) && ClashFree(f, run)
    ensures Legal(f, run) && WellFormed(Final(f, run)) && Distinct(Final(f, run)) && FlagsBacked(Final(f, run))
    decreases |run|
  {
    if run != [] {
      ClashFreeStepKeepsDistinct(f, run[0]);
      RunsKeepDistinct(Apply(f, run[0]), run[1..]);
    }
  }

  ghost predicate ApartThroughout(f: State, run: seq<Step>)
    decreases |run|
  {
    FlagsExclusive(f) && (run == [] || (Enabled(f, run[0]) && ApartThroughout(Apply(f, run[0]), run[1..])))
  }

  /** The on-demand boots under way are on different AVDs all along a run exactly when the run has no clash. */
  lemma {:induction false} BootsStayApartExactlyInClashFreeRuns(f: State, run: seq<Step>)
    requires WellFormed(f) && Distinct(f) && FlagsBacked(f)
    ensures ApartThroughout(f, run) <==> ClashFree(f, run)
    decreases |run|
  {
    if run != [] && Enabled(f, run[0]) {
      BootsStayApartExactlyWhen(f, run[0]);
      if !FlagClash(f, run[0]) {
        ClashFreeStepKeepsDistinct(f, run[0]);
        BootsStayApartExactlyInClashFreeRuns(Apply(f, run[0]), run[1..]);
      }
    }
  }

  /** In every state of every run in which no AVD is flagged twice: the boots by allocateAny that are
      under way are on different AVDs, so are the tracked devices they made, and a boot under way on the
      AVD of such a device is the boot that made it. */
  lemma NoAvdIsBootedTwice(capacity: nat, run: seq<Step>)
    requires ClashFree(Init(capacity), run)
    ensures Legal(Init(capacity), run)
    ensures forall t, u | AnyBootAvd(Final(Init(capacity), run), t).Some?
              && AnyBootAvd(Final(Init(capacity), run), t) == AnyBootAvd(Final(Init(capacity), run), u) :: t == u
    ensures OneBootPerAvd(Final(Init(capacity), run))
  {
    RunsKeepDistinct(Init(capacity), run);
    var f := Final(Init(capacity), run);
    forall t, u | AnyBootAvd(f, t).Some? && AnyBootAvd(f, t) == AnyBootAvd(f, u) ensures t == u {
      assert FlaggedBy(f, t).value.0 == FlaggedBy(f, u).value.0;
    }
  }

  // ---- Runs without requests by name ----

  /** The task is not part of a request for an AVD by name. */
  predicate Unnamed(task: Task) {
    AsksNoName(task) && (BootOf(task).Some? ==> BootOf(task).value.1 == AnyBoot)
  }

  predicate AsksNoName(task: Task) {
    !task.FindByName? && (task.TakeSlot? ==> task.named.None?) && (task.FlagAvd? ==> task.origin == AnyBoot)
  }

  ghost predicate AllUnnamed(f: State) {
    forall t :: t in f.tasks ==> Unnamed(f.tasks[t])
  }

  lemma TaskStillAsksNoName(f: State, t: TaskId, o: Oracle)
    requires t in f.tasks && TaskEnabled(f, f.tasks[t], o) && AsksNoName(f.tasks[t])
    ensures t in RunTask(f, t, o).tasks ==> AsksNoName(RunTask(f, t, o).tasks[t])
  {
    match f.tasks[t]
    case FindWarm(_, _) =>
    case TakeSlot(_) =>
    case PickAvd(_) =>
    case _ =>
  }

  lemma TaskStaysUnnamed(f: State, t: TaskId, o: Oracle)
    requires t in f.tasks && TaskEnabled(f, f.tasks[t], o) && Unnamed(f.tasks[t])
    ensures t in RunTask(f, t, o).tasks ==> Unnamed(RunTask(f, t, o).tasks[t])
  {
    TaskStillAsksNoName(f, t, o);
    OwnBoot(f, t, o);
    assert FlaggedBy(f, t) == BootOf(f.tasks[t]);
    assert t in RunTask(f, t, o).tasks ==> FlaggedBy(RunTask(f, t, o), t) == BootOf(RunTask(f, t, o).tasks[t]);
  }

  lemma StepKeepsAllUnnamed(f: State, st: Step)
    requires AllUnnamed(f) && Enabled(f, st) && !st.AskName?
    ensures AllUnnamed(Apply(f, st))
  {
    if st.Advance? {
      OthersGoOn(f, st.task, st.oracle);
      TaskStaysUnnamed(f, st.task, st.oracle);
    }
  }

  lemma UnnamedNeverClash(f: State, st: Step)
    requires Distinct(f) && FlagsBacked(f) && AllUnnamed(f) && Enabled(f, st)
    ensures !FlagClash(f, st)
  {
    if FlagClash(f, st) {
      ClashIsWithNamedBoot(f, st.task, st.oracle);
    }
  }

  lemma {:induction false} UnnamedRunsAreClashFree(f: State, run: seq<Step>)
    requires WellFormed(f) && Distinct(f) && FlagsBacked(f) && AllUnnamed(f) && Legal(f, run)
    requires forall st :: st in run ==> !st.AskName?
    ensures ClashFree(f, run)
    decreases |run|
  {
    if run != [] {
      var st := run[0];
      assert st in run;
      UnnamedNeverClash(f, st);
      ClashFreeStepKeepsDistinct(f, st);
      StepKeepsAllUnnamed(f, st);
      UnnamedRunsAreClashFree(Apply(f, st), run[1..]);
    }
  }

  /** Whatever else happens, as long as nobody asks for an AVD by name: no two live boots by allocateAny, under
      way or tracked, are ever on the same AVD. */
  lemma AllocateAnyNeverBootsTwice(capacity: nat, run: seq<Step>)
    requires Legal(Init(capacity), run) && forall st :: st in run ==> !st.AskName?
    ensures forall t, u | AnyBootAvd(Final(Init(capacity), run), t).Some?
              && AnyBootAvd(Final(Init(capacity), run), t) == AnyBootAvd(Final(Init(capacity), run), u) :: t == u
    ensures OneBootPerAvd(Final(Init(capacity), run))
  {
    UnnamedRunsAreClashFree(Init(capacity), run);
    NoAvdIsBootedTwice(capacity, run);
  }
}
