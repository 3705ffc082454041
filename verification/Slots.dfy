/** The slot semaphore: no slot leaks, and when the limit on devices booted on demand is kept. Holds of every
    legal run; no punctuality is needed. */
module Slots {
  import opened PoolModel
  import opened Farm
  import opened Ownership

  /** The task has taken a slot that has neither become a device nor been given back, or is settling the
      slot of a device it has just untracked. */
  predicate HoldsSlot(task: Task) {
    match task
    case SelectAvd => true
    case PickAvd(_) => true
    case FlagAvd(_, origin) => origin.TakesSlot()
    case CreateInst(_, origin) => origin.TakesSlot()
    case Unflag(_, _, made, _) => made.None?
    case ReturnSlot(due) => due
    case GiveBack(owed, _) => owed == Slotted
    case _ => false
  }

  function Holders(f: State): set<TaskId> {
    set t | t in f.tasks && HoldsSlot(f.tasks[t])
  }

  /** The tracked devices that were booted on demand and so took a slot. */
  function OnDemand(p: PoolState): set<InstanceId> {
    set i | i in p.tracked && IsOnDemand(p, i)
  }

  predicate IsOnDemand(p: PoolState, i: InstanceId) {
    i in p.tracked && i in p.insts && p.insts[i].origin.TakesSlot()
  }

  /** The slots that are truly taken, by boots on demand under way and by the devices they made. */
  function Taken(f: State): nat {
    |Holders(f)| + |OnDemand(f.pool)|
  }

  /** The two sides of the account. */
  ghost predicate Balanced(f: State) {
    f.pool.sem <= f.pool.capacity && f.pool.sem <= Taken(f) <= f.pool.sem + f.overReturned
  }

  /** Adding or dropping one element, seen through set equations. */
  lemma CardinalityOfOne<T>(a: set<T>, b: set<T>, x: T)
    requires b - {x} == a - {x}
    ensures |b| == |a| + (if x in b then 1 else 0) - (if x in a then 1 else 0)
  {
    assert a == (if x in a then (a - {x}) + {x} else a - {x});
    assert b == (if x in b then (a - {x}) + {x} else a - {x});
  }

  function One(b: bool): int { if b then 1 else 0 }

  /** A change of the pool that concerns only the device x, as far as tracking goes. */
  lemma TrackingOfOne(p: PoolState, q: PoolState, x: InstanceId)
    requires IdentityKept(p, q) && q.tracked - {x} == p.tracked - {x}
    requires forall i :: i in p.tracked ==> i in p.insts
    ensures |OnDemand(q)| == |OnDemand(p)| + One(IsOnDemand(q, x)) - One(IsOnDemand(p, x))
  {
    assert forall i :: i != x ==> (i in q.tracked - {x} <==> i in q.tracked) && (i in p.tracked - {x} <==> i in p.tracked);
    assert OnDemand(q) - {x} == OnDemand(p) - {x};
    CardinalityOfOne(OnDemand(p), OnDemand(q), x);
  }

  /** The environment neither takes nor returns slots; all it can add is an adopted device. */
  lemma EnvironmentLedger(f: State, st: Step)
    requires Enabled(f, st) && !st.Advance? && f.pool.nextInst !in f.pool.tracked
    ensures var g, x := Apply(f, st), f.pool.nextInst;
            && g.pool.sem == f.pool.sem && g.overReturned == f.overReturned && g.pool.capacity == f.pool.capacity
            && g.pool.tracked - {x} == f.pool.tracked - {x}
            && !IsOnDemand(g.pool, x)
            && (f.nextTask in g.tasks && f.nextTask !in f.tasks ==> !HoldsSlot(g.tasks[f.nextTask]))
  {
  }

  lemma EnvironmentKeepsBalance(f: State, st: Step)
    requires WellFormed(f) && Balanced(f) && Enabled(f, st) && !st.Advance?
    ensures Balanced(Apply(f, st)) && Taken(Apply(f, st)) == Taken(f)
  {
    EnvironmentFrame(f, st);
    EnvironmentLedger(f, st);
    StepKeepsIdentity(f, st);
    BalanceAfterEnvironment(f, Apply(f, st));
  }

  lemma BalanceAfterEnvironment(f: State, g: State)
    requires WellFormed(f) && Balanced(f) && AtMostOneSpawned(f, g) && IdentityKept(f.pool, g.pool)
    requires f.nextTask in g.tasks ==> !HoldsSlot(g.tasks[f.nextTask])
    requires g.pool.sem == f.pool.sem && g.overReturned == f.overReturned && g.pool.capacity == f.pool.capacity
    requires g.pool.tracked - {f.pool.nextInst} == f.pool.tracked - {f.pool.nextInst}
    requires !IsOnDemand(g.pool, f.pool.nextInst)
    ensures Balanced(g) && Taken(g) == Taken(f)
  {
    assert Holders(g) == Holders(f);
    TrackingOfOne(f.pool, g.pool, f.pool.nextInst);
  }

  /** One task counts for itself only. */
  lemma TaskCounts(f: State, g: State, t: TaskId)
    requires t in f.tasks
    requires g.tasks == if t in g.tasks then f.tasks[t := g.tasks[t]] else f.tasks - {t}
    ensures |Holders(g)| == |Holders(f)| + One(t in g.tasks && HoldsSlot(g.tasks[t])) - One(HoldsSlot(f.tasks[t]))
  {
    assert Holders(g) - {t} == Holders(f) - {t};
    CardinalityOfOne(Holders(f), Holders(g), t);
  }

  /** The device whose tracking a task may change. */
  function Concerns(f: State, task: Task): InstanceId {
    if task.Remove? then task.inst else f.pool.nextInst
  }

  lemma TaskTracks(f: State, t: TaskId, o: Oracle)
    requires WellFormed(f) && t in f.tasks && TaskEnabled(f, f.tasks[t], o)
    ensures RunTask(f, t, o).pool.tracked - {Concerns(f, f.tasks[t])} == f.pool.tracked - {Concerns(f, f.tasks[t])}
    ensures RunTask(f, t, o).pool.capacity == f.pool.capacity
  {
    match f.tasks[t]
    case Remove(_, _) =>
    case _ =>
  }

  /** The regions that track or untrack a device or give a slot back. */
  predicate MovesAccounts(task: Task) {
    task.Remove? || task.GiveBack? || task.ReturnSlot? || task.CreateInst?
  }

  /** One region takes a slot. */
  predicate TakesOne(f: State, t: TaskId)
    requires t in f.tasks
  {
    f.tasks[t].TakeSlot? && f.pool.sem < f.pool.capacity
  }

  /** One region, entry by entry: what it does to its own entry and to the device it tracks or untracks is what
      it does to the semaphore, save for slots handed back unowed; and it adds an entry only by taking a
      slot. */
  ghost predicate Booked(f: State, g: State, t: TaskId)
    requires t in f.tasks
  {
    var x := Concerns(f, f.tasks[t]);
    var taken := One(IsOnDemand(g.pool, x)) - One(IsOnDemand(f.pool, x))
                 + One(t in g.tasks && HoldsSlot(g.tasks[t])) - One(HoldsSlot(f.tasks[t]));
    && g.pool.sem <= f.pool.capacity
    && (g.pool.sem == 0 || g.pool.sem <= f.pool.sem + taken)
    && taken <= g.pool.sem + g.overReturned - f.pool.sem - f.overReturned
    && (if TakesOne(f, t) then taken == 1 else taken <= 0)
  }

  lemma MovesAreBooked(f: State, t: TaskId, o: Oracle)
    requires t in f.tasks && TaskEnabled(f, f.tasks[t], o) && MovesAccounts(f.tasks[t])
    requires f.pool.sem <= f.pool.capacity && f.pool.nextInst !in f.pool.tracked
    requires f.tasks[t].Remove? && f.tasks[t].inst in f.pool.tracked ==> f.tasks[t].inst in f.pool.insts
    ensures Booked(f, RunTask(f, t, o), t)
  {
    if f.tasks[t].Remove? {
      RemovalIsBooked(f, t, o);
    } else {
      match f.tasks[t]
      case GiveBack(_, _) =>
      case ReturnSlot(_) =>
      case CreateInst(_, _) =>
    }
  }

  lemma RemovalIsBooked(f: State, t: TaskId, o: Oracle)
    requires t in f.tasks && TaskEnabled(f, f.tasks[t], o) && f.tasks[t].Remove? && f.pool.sem <= f.pool.capacity
    requires f.tasks[t].inst in f.pool.tracked ==> f.tasks[t].inst in f.pool.insts
    ensures Booked(f, RunTask(f, t, o), t)
  {
    match f.tasks[t] case Remove(_, _) =>
  }

  /** Elsewhere a slot is only carried along, or taken by TakeSlot. */
  lemma OtherRegionsCarrySlots(f: State, t: TaskId, o: Oracle)
    requires t in f.tasks && TaskEnabled(f, f.tasks[t], o) && !MovesAccounts(f.tasks[t])
    ensures RunTask(f, t, o).pool.tracked == f.pool.tracked && RunTask(f, t, o).overReturned == f.overReturned
    ensures RunTask(f, t, o).pool.sem ==
              f.pool.sem + One(TakesOne(f, t))
  {
    match f.tasks[t]
    case TakeSlot(_) =>
    case _ =>
  }

  lemma OtherRegionsCountTheSame(f: State, t: TaskId, o: Oracle)
    requires t in f.tasks && TaskEnabled(f, f.tasks[t], o) && !MovesAccounts(f.tasks[t])
    ensures One(t in RunTask(f, t, o).tasks && HoldsSlot(RunTask(f, t, o).tasks[t])) ==
              One(HoldsSlot(f.tasks[t])) + One(TakesOne(f, t))
  {
    match f.tasks[t]
    case TakeSlot(_) =>
    case _ =>
  }

  lemma OtherRegionsAreBooked(f: State, t: TaskId, o: Oracle)
    requires t in f.tasks && TaskEnabled(f, f.tasks[t], o) && !MovesAccounts(f.tasks[t])
    requires f.pool.sem <= f.pool.capacity && f.pool.nextInst !in f.pool.tracked
    ensures Booked(f, RunTask(f, t, o), t)
  {
    OtherRegionsCarrySlots(f, t, o);
    OtherRegionsCountTheSame(f, t, o);
    BookedByCarrying(f, RunTask(f, t, o), t);
  }

  lemma BookedByCarrying(f: State, g: State, t: TaskId)
    requires t in f.tasks && !MovesAccounts(f.tasks[t])
    requires f.pool.sem <= f.pool.capacity && f.pool.nextInst !in f.pool.tracked
    requires g.pool.tracked == f.pool.tracked && g.overReturned == f.overReturned
    requires g.pool.sem == f.pool.sem + One(TakesOne(f, t))
    requires One(t in g.tasks && HoldsSlot(g.tasks[t])) ==
               One(HoldsSlot(f.tasks[t])) + One(TakesOne(f, t))
    ensures Booked(f, g, t)
  {
  }

  lemma TaskKeepsBalance(f: State, t: TaskId, o: Oracle)
    requires WellFormed(f) && Balanced(f) && t in f.tasks && TaskEnabled(f, f.tasks[t], o)
    ensures Balanced(RunTask(f, t, o))
    ensures if TakesOne(f, t) then Taken(RunTask(f, t, o)) == Taken(f) + 1 else Taken(RunTask(f, t, o)) <= Taken(f)
  {
    var g := RunTask(f, t, o);
    TaskMovesItself(f, t, o);
    TaskTracks(f, t, o);
    if MovesAccounts(f.tasks[t]) { MovesAreBooked(f, t, o); } else { OtherRegionsAreBooked(f, t, o); }
    StepKeepsIdentity(f, Advance(t, o));
    BalanceAfterTask(f, g, t);
  }

  lemma BalanceAfterTask(f: State, g: State, t: TaskId)
    requires WellFormed(f) && Balanced(f) && t in f.tasks && IdentityKept(f.pool, g.pool)
    requires g.tasks == if t in g.tasks then f.tasks[t := g.tasks[t]] else f.tasks - {t}
    requires g.pool.capacity == f.pool.capacity && Booked(f, g, t)
    requires g.pool.tracked - {Concerns(f, f.tasks[t])} == f.pool.tracked - {Concerns(f, f.tasks[t])}
    ensures Balanced(g) && if TakesOne(f, t) then Taken(g) == Taken(f) + 1 else Taken(g) <= Taken(f)
  {
    TaskCounts(f, g, t);
    TrackingOfOne(f.pool, g.pool, Concerns(f, f.tasks[t]));
  }

  lemma StepKeepsBalance(f: State, st: Step)
    requires WellFormed(f) && Balanced(f) && Enabled(f, st)
    ensures Balanced(Apply(f, st))
    ensures Apply(f, st).pool.capacity == f.pool.capacity
  {
    if st.Advance? {
      TaskKeepsBalance(f, st.task, st.oracle);
      TaskTracks(f, st.task, st.oracle);
    } else {
      EnvironmentKeepsBalance(f, st);
      EnvironmentLedger(f, st);
    }
  }

  lemma {:induction false} RunsKeepBalance(f: State, run: seq<Step>)
    requires WellFormed(f) && Balanced(f) && Legal(f, run)
    ensures Balanced(Final(f, run)) && Final(f, run).pool.capacity == f.pool.capacity
    decreases |run|
  {
    if run != [] {
      StepKeepsWellFormed(f, run[0]);
      StepKeepsBalance(f, run[0]);
      RunsKeepBalance(Apply(f, run[0]), run[1..]);
    }
  }

  /** No slot leaks: an occupied slot is always accounted for by a boot on demand under way, by one that has
      been given up and will give it back, or by a tracked device that took one. So when there is none of
      these, every slot is free, however many adopted devices there are. */
  lemma NoSlotLeaks(capacity: nat, run: seq<Step>)
    requires Legal(Init(capacity), run)
    ensures Final(Init(capacity), run).pool.sem
            <= |Holders(Final(Init(capacity), run))| + |OnDemand(Final(Init(capacity), run).pool)|
    ensures Holders(Final(Init(capacity), run)) == {} && OnDemand(Final(Init(capacity), run).pool) == {}
            ==> Final(Init(capacity), run).pool.sem == 0
  {
    RunsKeepBalance(Init(capacity), run);
  }

  // ---- The limit ----

  ghost predicate WithinLimit(f: State) {
    Taken(f) <= f.pool.capacity
  }

  /** A step that takes a slot of the semaphore while the limit is truly reached. */
  ghost predicate Overbooks(f: State, st: Step) {
    && st.Advance? && st.task in f.tasks && TakesOne(f, st.task)
    && Taken(f) >= f.pool.capacity
  }

  lemma StepKeepsLimitExactlyWhen(f: State, st: Step)
    requires WellFormed(f) && Balanced(f) && WithinLimit(f) && Enabled(f, st)
    ensures WithinLimit(Apply(f, st)) <==> !Overbooks(f, st)
  {
    StepKeepsBalance(f, st);
    if st.Advance? {
      TaskKeepsBalance(f, st.task, st.oracle);
    } else {
      EnvironmentKeepsBalance(f, st);
    }
  }

  ghost predicate WithinLimitThroughout(f: State, run: seq<Step>)
    decreases |run|
  {
    WithinLimit(f) && (run == [] || (Enabled(f, run[0]) && WithinLimitThroughout(Apply(f, run[0]), run[1..])))
  }

  ghost predicate NeverOverbooks(f: State, run: seq<Step>)
    decreases |run|
  {
    run == [] || (Enabled(f, run[0]) && !Overbooks(f, run[0]) && NeverOverbooks(Apply(f, run[0]), run[1..]))
  }

  lemma {:induction false} RunKeepsLimitExactlyWhen(f: State, run: seq<Step>)
    requires WellFormed(f) && Balanced(f) && WithinLimit(f)
    ensures WithinLimitThroughout(f, run) <==> NeverOverbooks(f, run)
    decreases |run|
  {
    if run != [] && Enabled(f, run[0]) {
      StepKeepsWellFormed(f, run[0]);
      StepKeepsBalance(f, run[0]);
      StepKeepsLimitExactlyWhen(f, run[0]);
      if WithinLimit(Apply(f, run[0])) {
        RunKeepsLimitExactlyWhen(Apply(f, run[0]), run[1..]);
      }
    }
  }

  /** From the empty farm on, the devices booted on demand, booting or tracked, stay within the limit all along
      a run if and only if no request of the run takes a slot of the semaphore while that many are taken. */
  lemma LimitIsKeptExactlyWhen(capacity: nat, run: seq<Step>)
    ensures WithinLimitThroughout(Init(capacity), run) <==> NeverOverbooks(Init(capacity), run)
  {
    RunKeepsLimitExactlyWhen(Init(capacity), run);
  }

  /** In any case the limit is exceeded by no more than the number of slots handed back that nobody owed. */
  lemma OnDemandDevicesAreLimited(capacity: nat, run: seq<Step>)
    requires Legal(Init(capacity), run)
    ensures Taken(Final(Init(capacity), run)) <= capacity + Final(Init(capacity), run).overReturned
  {
    RunsKeepBalance(Init(capacity), run);
  }
}
