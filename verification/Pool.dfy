/** internal/pool/instance.go: one tracked device. */
module Instances {
  import opened Options
  import opened DeviceStates
  import opened PoolModel

  class DeviceInstance {
    const id: InstanceId
    const name: string          // Device.DisplayName()
    const profile: string
    const destroyable: bool     // Device.CanDestroy()
    const origin: Origin
    var state: DeviceState
    var session: Option<SessionId>
    var allocatedAt: Option<nat>
    var lastActivity: nat
    var healthFails: nat
    var lastHealthy: Option<nat>
    var reserved: bool
    var reservedLabel: string

    function View(): Inst
      reads this
    {
      Inst(name, profile, state, session, reserved, destroyable, origin)
    }

    constructor (id: InstanceId, name: string, profile: string, destroyable: bool, origin: Origin, now: nat)
      ensures this.id == id
      ensures View() == Inst(name, profile, Creating, None, false, destroyable, origin)
      ensures allocatedAt == None && healthFails == 0 && lastHealthy == None
    {
      this.id, this.name, this.profile, this.destroyable, this.origin := id, name, profile, destroyable, origin;
      state, session, allocatedAt, lastActivity, healthFails := Creating, None, None, now, 0;
      reserved, reservedLabel, lastHealthy := false, "", None;
    }

    method TransitionTo(target: DeviceState) returns (ok: bool)
      modifies this`state
      ensures ok == old(state).CanTransitionTo(target)
      ensures state == if ok then target else old(state)
    {
      ok := state.CanTransitionTo(target);
      if ok {
        state := target;
      }
    }

    /** A bound instance shows its session, when it was allocated, and is not idle. */
    method SetSession(s: SessionId, now: nat)
      modifies this`session, this`allocatedAt, this`lastActivity
      ensures session == Some(s) && allocatedAt == Some(now) && lastActivity == now
    {
      session := Some(s);
      allocatedAt := Some(now);
      lastActivity := now;
    }

    method ClearSession()
      modifies this`session, this`allocatedAt
      ensures session == None && allocatedAt == None
    {
      session := None;
      allocatedAt := None;
    }

    method Reserve(text: string)
      modifies this`reserved, this`reservedLabel
      ensures reserved && reservedLabel == text
    {
      reserved, reservedLabel := true, text;
    }

    method Unreserve()
      modifies this`reserved, this`reservedLabel
      ensures !reserved && reservedLabel == ""
    {
      reserved, reservedLabel := false, "";
    }

    /** The count of consecutive failures: one success clears it and is remembered. */
    method RecordHealthCheck(healthy: bool, now: nat)
      modifies this`healthFails, this`lastHealthy
      ensures healthFails == if healthy then 0 else old(healthFails) + 1
      ensures lastHealthy == if healthy then Some(now) else old(lastHealthy)
    {
      if healthy {
        healthFails := 0;
        lastHealthy := Some(now);
      } else {
        healthFails := healthFails + 1;
      }
    }
  }
}

/** internal/pool/pool.go: the regions of the pool as methods on its fields, each proved against the functions
    of PoolModel.dfy. Refinement.dfy compares them with the regions of Farm.dfy. */
module Pools {
  import opened Options
  import opened DeviceStates
  import opened PoolModel
  import opened Instances

  /** Why a request for a specific device fails. */
  datatype AllocError = NotFound | NotAvailable(state: DeviceState) | ReservedForManual

  datatype Allocation = Granted(inst: InstanceId) | Refused(error: AllocError) | NotTracked

  datatype ReleaseResult = UnknownInstance | Dropped | ResetStarted | InvalidTransition

  /** Some devices are removed one by one, each with a non-blocking receive on the semaphore. */
  function WithoutAll(p: PoolState, ids: set<InstanceId>): PoolState {
    p.(tracked := p.tracked - ids, sem := if p.sem >= |ids| then p.sem - |ids| else 0)
  }

  /** The sessions attached to some devices. */
  function AttachedTo(p: PoolState, ids: set<InstanceId>): set<(InstanceId, SessionId)> {
    set i | i in ids && AttachedSession(p, i).Some? :: (i, AttachedSession(p, i).value)
  }

  /** The tracked devices that the pool cannot destroy itself and that are no longer connected. */
  function Unplugged(p: PoolState, connected: set<InstanceId>): set<InstanceId> {
    set i | i in p.tracked && i in p.insts && !p.insts[i].destroyable && i !in connected
  }

  lemma NoneGone(p: PoolState)
    ensures WithoutAll(p, {}) == p && AttachedTo(p, {}) == {}
  {
    assert p.tracked - {} == p.tracked;
  }

  lemma OneMoreGone(p: PoolState, ids: set<InstanceId>, i: InstanceId)
    requires i in p.tracked && i !in ids
    ensures GiveBackSlot(Untrack(WithoutAll(p, ids), i)) == WithoutAll(p, ids + {i})
    ensures AttachedSession(WithoutAll(p, ids), i) == AttachedSession(p, i)
    ensures AttachedTo(p, ids + {i}) ==
              AttachedTo(p, ids) + match AttachedSession(p, i) case Some(s) => {(i, s)} case None => {}
  {
    assert p.tracked - (ids + {i}) == (p.tracked - ids) - {i};
    assert |ids + {i}| == |ids| + 1;
  }

  class Pool {
    const maxConcurrent: nat
    var instances: map<InstanceId, DeviceInstance>
    var bootingAVDs: set<string>
    var sem: nat
    var nextId: InstanceId
    ghost var all: map<InstanceId, DeviceInstance>   // every instance ever created, for the goroutines holding one

    ghost predicate Valid()
      reads this
    {
      && (forall i :: i in instances ==> i in all && all[i] == instances[i])
      && (forall i :: i in all ==> all[i].id == i && i < nextId)
    }

    ghost function View(): PoolState
      reads this, all.Values
    {
      PoolState(maxConcurrent, sem, map i | i in all :: all[i].View(), instances.Keys, bootingAVDs, nextId)
    }

    constructor (maxConcurrent: nat)
      ensures Valid() && View() == EmptyPool(maxConcurrent)
    {
      this.maxConcurrent := maxConcurrent;
      instances, bootingAVDs, sem, nextId, all := map[], {}, 0, 0, map[];
    }

    /** TransitionTo, seen from the pool. */
    method Move(inst: DeviceInstance, target: DeviceState) returns (ok: bool)
      requires Valid() && inst.id in all && all[inst.id] == inst
      modifies inst`state
      ensures Valid() && ok == CanTransition(old(View()), inst.id, target)
      ensures View() == Transition(old(View()), inst.id, target)
      ensures inst.View() == View().insts[inst.id]
    {
      ghost var before := View();
      assert before.insts[inst.id] == inst.View();
      ok := inst.TransitionTo(target);
      assert View().insts == Transition(before, inst.id, target).insts;
    }

    /** ClearSession, seen from the pool. */
    method Unbind(inst: DeviceInstance)
      requires Valid() && inst.id in all && all[inst.id] == inst
      modifies inst`session, inst`allocatedAt
      ensures Valid() && View() == WithSession(old(View()), inst.id, None) && inst.session == None
    {
      ghost var before := View();
      inst.ClearSession();
      assert View().insts == WithSession(before, inst.id, None).insts;
    }

    /** The warm scan of allocateAny. The loop takes the instances in any order the map may yield. */
    method AllocateWarm(profile: string, includeReserved: bool) returns (pick: Option<InstanceId>)
      requires Valid()
      modifies instances.Values`state
      ensures Valid() && all == old(all)
      ensures WarmChoice(old(View()), profile, includeReserved, pick)
      ensures pick.None? <==>
                forall i :: i in old(View()).tracked && i in old(View()).insts && old(View()).insts[i].state == Warm ==>
                  old(View()).insts[i].reserved && !includeReserved
      ensures View() == if pick.Some? then Transition(old(View()), pick.value, Allocated) else old(View())
      ensures pick.Some? ==> pick.value in instances && instances[pick.value].state == Allocated
    {
      NothingToGrant(View(), profile, includeReserved);
      var anyWarm: Option<InstanceId> := None;
      var rest := instances.Keys;
      while rest != {}
        invariant rest <= instances.Keys
        invariant View() == old(View())
        invariant anyWarm.Some? ==> EligibleTracked(View(), anyWarm.value, includeReserved)
        invariant anyWarm.None? ==> forall i :: i in instances.Keys - rest ==> !EligibleTracked(View(), i, includeReserved)
        invariant profile != "" ==> forall i :: i in instances.Keys - rest && EligibleTracked(View(), i, includeReserved) ==>
                    View().insts[i].profile != profile
      {
        var i :| i in rest;
        rest := rest - {i};
        var inst := instances[i];
        assert View().insts[i] == inst.View();
        if inst.state != Warm || (!includeReserved && inst.reserved) {
          continue;
        }
        if profile != "" && inst.profile == profile {
          var ok := Move(inst, Allocated);
          return Some(i);
        }
        if anyWarm.None? {
          anyWarm := Some(i);
        }
      }
      if anyWarm.Some? {
        var ok := Move(instances[anyWarm.value], Allocated);
      }
      return anyWarm;
    }

    /** AllocateWith with an instance id: that device, or the reason why not. The ids are the map's keys, so
        the source's search for a matching id is a lookup. */
    method AllocateById(id: InstanceId, manual: bool) returns (r: Allocation)
      requires Valid()
      modifies instances.Values`state
      ensures Valid() && all == old(all)
      ensures r == (if id !in old(View()).tracked then Refused(NotFound)
                    else if old(View()).insts[id].state != Warm then Refused(NotAvailable(old(View()).insts[id].state))
                    else if old(View()).insts[id].reserved && !manual then Refused(ReservedForManual)
                    else Granted(id))
      ensures r.Granted? <==> id in old(View()).tracked && old(View()).insts[id].state == Warm
                              && (manual || !old(View()).insts[id].reserved)
      ensures View() == if r.Granted? then Transition(old(View()), id, Allocated) else old(View())
    {
      if id !in instances {
        return Refused(NotFound);
      }
      var inst := instances[id];
      assert View().insts[id] == inst.View();
      if inst.state != Warm {
        return Refused(NotAvailable(inst.state));
      }
      if inst.reserved && !manual {
        return Refused(ReservedForManual);
      }
      var ok := Move(inst, Allocated);
      return Granted(id);
    }

    /** The first region of AllocateWith with an AVD name: the first instance of that name decides, in
        whatever order the map yields them; with none the caller goes on to boot one. */
    method AllocateByName(avd: string, manual: bool) returns (r: Allocation, ghost first: InstanceId)
      requires Valid()
      modifies instances.Values`state
      ensures Valid() && all == old(all)
      ensures r.NotTracked? <==>
                forall i :: i in old(View()).tracked && i in old(View()).insts ==> old(View()).insts[i].name != avd
      ensures !r.NotTracked? ==> first in old(View()).tracked && old(View()).insts[first].name == avd
      ensures r == (if avd !in TrackedNames(old(View())) then NotTracked
                    else if old(View()).insts[first].state != Warm then Refused(NotAvailable(old(View()).insts[first].state))
                    else if old(View()).insts[first].reserved && !manual then Refused(ReservedForManual)
                    else Granted(first))
      ensures View() == if r.Granted? then Transition(old(View()), first, Allocated) else old(View())
    {
      TrackedNamesAre(View(), avd);
      var rest := instances.Keys;
      while rest != {}
        invariant rest <= instances.Keys
        invariant View() == old(View())
        invariant forall i :: i in instances.Keys - rest ==> View().insts[i].name != avd
      {
        var i :| i in rest;
        rest := rest - {i};
        var inst := instances[i];
        assert View().insts[i] == inst.View();
        if inst.name != avd {
          continue;
        }
        first := i;
        assert avd in TrackedNames(View());
        if inst.state != Warm {
          return Refused(NotAvailable(inst.state)), first;
        }
        if inst.reserved && !manual {
          return Refused(ReservedForManual), first;
        }
        var ok := Move(inst, Allocated);
        return Granted(i), first;
      }
      r := NotTracked;
      first := 0;
    }

    // ---- Slots and AVD flags ----

    /** The non-blocking send on the semaphore channel. */
    method TakeSlot() returns (ok: bool)
      modifies this`sem
      ensures ok == (old(sem) < maxConcurrent)
      ensures sem == if ok then old(sem) + 1 else old(sem)
    {
      ok := sem < maxConcurrent;
      if ok {
        sem := sem + 1;
      }
    }

    /** The non-blocking receive. */
    method GiveBack()
      modifies this`sem
      ensures View() == GiveBackSlot(old(View()))
      ensures sem == if old(sem) > 0 then old(sem) - 1 else 0
    {
      if sem > 0 {
        sem := sem - 1;
      }
    }

    /** The names allocateAny rules out: those of tracked devices and those being booted. */
    method UsedAVDs() returns (used: set<string>)
      requires Valid()
      ensures used == TrackedNames(View()) + bootingAVDs
    {
      used := {};
      var rest := instances.Keys;
      while rest != {}
        invariant rest <= instances.Keys
        invariant used == set i | i in instances.Keys - rest :: View().insts[i].name
      {
        var i :| i in rest;
        assert View().insts[i] == instances[i].View();
        used := used + {instances[i].name};
        assert instances.Keys - (rest - {i}) == (instances.Keys - rest) + {i};
        rest := rest - {i};
      }
      used := used + bootingAVDs;
    }

    /** The first listed AVD that is neither excluded nor the name of a tracked device. */
    method FindUnbootedAVDExcluding(listed: seq<string>, exclude: set<string>) returns (r: Option<string>)
      requires Valid()
      ensures match r
              case None => forall k :: 0 <= k < |listed| ==> listed[k] in TrackedNames(View()) + exclude
              case Some(avd) =>
                avd !in TrackedNames(View()) + exclude
                && exists k :: 0 <= k < |listed| && listed[k] == avd
                     && forall j :: 0 <= j < k ==> listed[j] in TrackedNames(View()) + exclude
    {
      var used := {};
      var rest := instances.Keys;
      while rest != {}
        invariant rest <= instances.Keys
        invariant used == set i | i in instances.Keys - rest :: View().insts[i].name
      {
        var i :| i in rest;
        assert View().insts[i] == instances[i].View();
        used := used + {instances[i].name};
        assert instances.Keys - (rest - {i}) == (instances.Keys - rest) + {i};
        rest := rest - {i};
      }
      assert used == TrackedNames(View());
      used := used + exclude;
      for k := 0 to |listed|
        invariant forall j :: 0 <= j < k ==> listed[j] in used
      {
        if listed[k] !in used {
          return Some(listed[k]);
        }
      }
      return None;
    }

    /** The choice of an AVD under avdMu, with its flag: fails exactly when every listed AVD is taken. */
    method ReserveUnbootedAVD(listed: seq<string>) returns (r: Option<string>)
      requires Valid()
      modifies this`bootingAVDs
      ensures Valid()
      ensures r.None? <==> forall k :: 0 <= k < |listed| ==> listed[k] in TrackedNames(old(View())) + old(bootingAVDs)
      ensures r.Some? ==>
                r.value !in TrackedNames(old(View())) + old(bootingAVDs)
                && exists k :: 0 <= k < |listed| && listed[k] == r.value
                     && forall j :: 0 <= j < k ==> listed[j] in TrackedNames(old(View())) + old(bootingAVDs)
      ensures View() == old(View()).(booting := if r.Some? then old(bootingAVDs) + {r.value} else old(bootingAVDs))
    {
      var used := UsedAVDs();
      assert TrackedNames(View()) + used == used == TrackedNames(old(View())) + old(bootingAVDs);
      r := FindUnbootedAVDExcluding(listed, used);
      if r.Some? {
        FlagAVD(r.value);
      }
    }

    method FlagAVD(avd: string)
      requires Valid()
      modifies this`bootingAVDs
      ensures Valid() && View() == old(View()).(booting := old(View()).booting + {avd})
    {
      bootingAVDs := bootingAVDs + {avd};
    }

    // ---- Life cycle ----

    method CreateInstance(name: string, profile: string, destroyable: bool, origin: Origin, now: nat)
      returns (inst: DeviceInstance)
      requires Valid()
      modifies this`instances, this`nextId, this`all
      ensures Valid() && fresh(inst) && all == old(all)[inst.id := inst]
      ensures inst.id == old(nextId) && View() == Create(old(View()), name, profile, destroyable, origin)
      ensures instances == old(instances)[inst.id := inst] && sem == old(sem)
      ensures inst.View() == Inst(name, profile, Creating, None, false, destroyable, origin)
    {
      inst := new DeviceInstance(nextId, name, profile, destroyable, origin, now);
      Register(inst);
    }

    method Register(inst: DeviceInstance)
      requires Valid() && inst.id == nextId
      modifies this`instances, this`nextId, this`all
      ensures Valid() && all == old(all)[inst.id := inst]
      ensures View() == old(View()).(insts := old(View()).insts[inst.id := inst.View()],
                                     tracked := old(View()).tracked + {inst.id}, nextInst := inst.id + 1)
      ensures instances == old(instances)[inst.id := inst]
    {
      ghost var before := View();
      instances := instances[inst.id := inst];
      all := all[inst.id := inst];
      nextId := nextId + 1;
      assert View().insts == before.insts[inst.id := inst.View()];
    }

    /** The map region of removeInstanceWithReason: which session must be told. */
    method Untrack(id: InstanceId) returns (attached: Option<SessionId>)
      requires Valid()
      modifies this`instances
      ensures Valid()
      ensures attached == AttachedSession(old(View()), id)
      ensures attached == if id in old(instances) then old(instances)[id].session else None
      ensures View() == PoolModel.Untrack(old(View()), id) && instances == old(instances) - {id}
    {
      attached := None;
      if id in instances {
        assert View().insts[id] == instances[id].View();
        attached := instances[id].session;
      }
      instances := instances - {id};
      assert View().tracked == old(View()).tracked - {id};
    }

    /** removeInstanceWithReason as a whole: the device is gone, one slot is given back, and a session that
        was attached is told. Doing it again changes only the slots. */
    method RemoveInstance(id: InstanceId) returns (attached: Option<SessionId>)
      requires Valid()
      modifies this`instances, this`sem
      ensures Valid() && attached == AttachedSession(old(View()), id)
      ensures attached == if id in old(instances) then old(instances)[id].session else None
      ensures View() == GiveBackSlot(PoolModel.Untrack(old(View()), id))
      ensures instances == old(instances) - {id} && sem == if old(sem) > 0 then old(sem) - 1 else 0
    {
      attached := Untrack(id);
      GiveBack();
    }

    /** destroyInstance: whatever state the instance was in it ends Destroying and untracked, and two slots
        are given back, its own and one more. */
    method DestroyInstance(inst: DeviceInstance) returns (attached: Option<SessionId>)
      requires Valid() && inst.id in all && all[inst.id] == inst
      modifies this`instances, this`sem, inst`state
      ensures Valid() && attached == AttachedSession(old(View()), inst.id)
      ensures View() ==
                GiveBackSlot(GiveBackSlot(PoolModel.Untrack(Transition(old(View()), inst.id, Destroying), inst.id)))
      ensures attached == if inst.id in old(instances) then old(instances)[inst.id].session else None
      ensures inst.state == Destroying && instances == old(instances) - {inst.id}
      ensures sem == if old(sem) > 1 then old(sem) - 2 else 0
    {
      var ok := Move(inst, Destroying);
      attached := RemoveInstance(inst.id);
      GiveBack();
    }

    /** pool.Release up to the start of the reset goroutine. A device that is gone from adb is dropped with
        its session id cleared first, so nobody is told; a live one starts resetting, when its state
        allows. */
    method Release(id: InstanceId, alive: bool) returns (r: ReleaseResult)
      requires Valid()
      modifies this`instances, this`sem, instances.Values`state, instances.Values`session, instances.Values`allocatedAt
      ensures Valid() && all == old(all)
      ensures r == (if id !in old(View()).tracked then UnknownInstance
                    else if !alive then Dropped
                    else if CanTransition(old(View()), id, Resetting) then ResetStarted
                    else InvalidTransition)
      ensures View() ==
                match r
                case UnknownInstance => old(View())
                case Dropped => GiveBackSlot(PoolModel.Untrack(WithSession(old(View()), id, None), id))
                case ResetStarted => WithSession(Transition(old(View()), id, Resetting), id, None)
                case InvalidTransition => old(View())
      ensures r.ResetStarted? <==>
                id in old(instances) && alive && old(instances[id].state) in {Allocated, Error}
      ensures r.ResetStarted? ==>
                instances == old(instances) && sem == old(sem)
                && instances[id].state == Resetting && instances[id].session == None
      ensures r.Dropped? ==>
                instances == old(instances) - {id} && sem == (if old(sem) > 0 then old(sem) - 1 else 0)
                && old(instances)[id].session == None && old(instances)[id].state == old(instances[id].state)
    {
      if id !in instances {
        return UnknownInstance;
      }
      if !alive {
        DropDead(id);
        return Dropped;
      }
      var inst := instances[id];
      ghost var before := View();
      var ok := Move(inst, Resetting);
      if !ok {
        assert Transition(before, id, Resetting).insts == before.insts;
        return InvalidTransition;
      }
      Unbind(inst);
      return ResetStarted;
    }

    /** The dead-device branch: the session id is cleared before the removal, so that no eviction fires. */
    method DropDead(id: InstanceId)
      requires Valid() && id in instances
      modifies this`instances, this`sem, instances.Values`session, instances.Values`allocatedAt
      ensures Valid() && all == old(all)
      ensures View() == GiveBackSlot(PoolModel.Untrack(WithSession(old(View()), id, None), id))
      ensures instances == old(instances) - {id} && sem == (if old(sem) > 0 then old(sem) - 1 else 0)
      ensures old(instances)[id].session == None
    {
      Unbind(instances[id]);
      var attached := RemoveInstance(id);
      assert attached == None;
    }

    /** The end of the reset goroutine. */
    method ResetFinished(inst: DeviceInstance, ok: bool, now: nat) returns (attached: Option<SessionId>)
      requires Valid() && inst.id in all && all[inst.id] == inst
      modifies this`instances, this`sem, inst`state, inst`lastActivity
      ensures Valid() && all == old(all)
      ensures attached == if ok then None else AttachedSession(old(View()), inst.id)
      ensures View() == if ok then Transition(old(View()), inst.id, Warm)
                        else GiveBackSlot(PoolModel.Untrack(old(View()), inst.id))
      ensures ok ==> instances == old(instances) && sem == old(sem)
                     && inst.state == if old(inst.state) in {Allocated, Warm, Destroying} then old(inst.state) else Warm
      ensures !ok ==> instances == old(instances) - {inst.id} && sem == (if old(sem) > 0 then old(sem) - 1 else 0)
                      && inst.state == old(inst.state)
    {
      attached := None;
      if !ok {
        attached := RemoveInstance(inst.id);
        return;
      }
      var warm := Move(inst, Warm);
      if warm {
        ghost var moved := View();
        inst.lastActivity := now;
        assert View().insts == moved.insts;
      }
    }

    // ---- Maintenance ----

    /** The instances a maintenance pass will destroy as broken. */
    method Errored() returns (ids: set<InstanceId>)
      requires Valid()
      ensures ids == set i | i in View().tracked && View().insts[i].state == Error
    {
      ids := {};
      var rest := instances.Keys;
      while rest != {}
        invariant rest <= instances.Keys
        invariant ids == set i | i in instances.Keys - rest && View().insts[i].state == Error
      {
        var i :| i in rest;
        assert View().insts[i] == instances[i].View();
        if instances[i].state == Error {
          ids := ids + {i};
        }
        assert instances.Keys - (rest - {i}) == (instances.Keys - rest) + {i};
        rest := rest - {i};
      }
    }

    /** The instances it will shut down as idle: warm, ours to destroy, and untouched for too long. */
    method Idle(now: nat, timeout: nat) returns (ids: set<InstanceId>)
      requires Valid()
      ensures ids == set i | i in instances && instances[i].state == Warm && instances[i].destroyable
                             && now - instances[i].lastActivity > timeout
    {
      ids := {};
      var rest := instances.Keys;
      while rest != {}
        invariant rest <= instances.Keys
        invariant ids == set i | i in instances.Keys - rest && instances[i].state == Warm && instances[i].destroyable
                                 && now - instances[i].lastActivity > timeout
      {
        var i :| i in rest;
        if instances[i].state == Warm && instances[i].destroyable && now - instances[i].lastActivity > timeout {
          ids := ids + {i};
        }
        assert instances.Keys - (rest - {i}) == (instances.Keys - rest) + {i};
        rest := rest - {i};
      }
    }

    /** The scan of pruneDisconnected. */
    method Disconnected(connected: set<InstanceId>) returns (gone: set<InstanceId>)
      requires Valid()
      ensures gone == Unplugged(View(), connected)
    {
      gone := {};
      var rest := instances.Keys;
      while rest != {}
        invariant rest <= instances.Keys
        invariant gone == set i | i in instances.Keys - rest && !View().insts[i].destroyable && i !in connected
      {
        var i :| i in rest;
        assert View().insts[i] == instances[i].View();
        if !instances[i].destroyable && i !in connected {
          gone := gone + {i};
        }
        assert instances.Keys - (rest - {i}) == (instances.Keys - rest) + {i};
        rest := rest - {i};
      }
    }

    /** One removal of pruneDisconnected. */
    method RemoveNext(i: InstanceId, told: set<(InstanceId, SessionId)>, ghost before: PoolState, ghost done: set<InstanceId>)
      returns (evicted: set<(InstanceId, SessionId)>)
      requires Valid() && i in before.tracked && i !in done
      requires View() == WithoutAll(before, done) && told == AttachedTo(before, done)
      modifies this`instances, this`sem
      ensures Valid()
      ensures View() == WithoutAll(before, done + {i}) && evicted == AttachedTo(before, done + {i})
    {
      OneMoreGone(before, done, i);
      var attached := RemoveInstance(i);
      evicted := told + match attached case Some(s) => {(i, s)} case None => {};
    }

    /** The removals of pruneDisconnected. */
    method RemoveAll(gone: set<InstanceId>) returns (evicted: set<(InstanceId, SessionId)>)
      requires Valid() && gone <= View().tracked
      modifies this`instances, this`sem
      ensures Valid()
      ensures View() == WithoutAll(old(View()), gone)
      ensures evicted == AttachedTo(old(View()), gone)
    {
      var left := gone;
      ghost var before, done := View(), {};
      NoneGone(before);
      evicted := {};
      while left != {}
        invariant Valid() && left <= before.tracked && done !! left && done + left == gone
        invariant View() == WithoutAll(before, done)
        invariant evicted == AttachedTo(before, done)
      {
        var i :| i in left;
        evicted := RemoveNext(i, evicted, before, done);
        left, done := left - {i}, done + {i};
      }
      assert done == gone;
    }

    /** pruneDisconnected: exactly the devices the pool cannot destroy itself and that are no longer
        connected are dropped; each gives back a slot while any is taken, and the sessions attached to them are
        told. */
    method PruneDisconnected(connected: set<InstanceId>) returns (evicted: set<(InstanceId, SessionId)>)
      requires Valid()
      modifies this`instances, this`sem
      ensures Valid()
      ensures View() == WithoutAll(old(View()), Unplugged(old(View()), connected))
      ensures evicted == AttachedTo(old(View()), Unplugged(old(View()), connected))
      ensures forall i :: i in instances <==> i in old(instances) && (old(instances)[i].destroyable || i in connected)
      ensures forall i, s :: (i, s) in evicted <==>
                i in old(instances) && i !in instances && old(instances)[i].session == Some(s)
    {
      assert forall i :: i in instances ==> View().insts[i] == instances[i].View();
      var gone := Disconnected(connected);
      evicted := RemoveAll(gone);
    }

    /** The loop of ApplyReservations. */
    method ReserveListed(byAVDName: map<string, string>)
      requires Valid()
      modifies instances.Values`reserved, instances.Values`reservedLabel
      ensures forall i :: i in instances && instances[i].name in byAVDName ==>
                instances[i].reserved && instances[i].reservedLabel == byAVDName[instances[i].name]
      ensures forall i :: i in instances && instances[i].name !in byAVDName ==>
                instances[i].reserved == old(instances[i].reserved)
                && instances[i].reservedLabel == old(instances[i].reservedLabel)
    {
      var rest := instances.Keys;
      while rest != {}
        invariant rest <= instances.Keys
        invariant forall i :: i in instances && i !in rest && instances[i].name in byAVDName ==>
                    instances[i].reserved && instances[i].reservedLabel == byAVDName[instances[i].name]
        invariant forall i :: i in instances && (i in rest || instances[i].name !in byAVDName) ==>
                    instances[i].reserved == old(instances[i].reserved)
                    && instances[i].reservedLabel == old(instances[i].reservedLabel)
      {
        var i :| i in rest;
        if instances[i].name in byAVDName {
          instances[i].Reserve(byAVDName[instances[i].name]);
        }
        rest := rest - {i};
      }
    }

    /** ApplyReservations: exactly the tracked devices named in the map end up reserved beyond those that
        were. */
    method ApplyReservations(byAVDName: map<string, string>)
      requires Valid()
      modifies instances.Values`reserved, instances.Values`reservedLabel
      ensures Valid() && all == old(all)
      ensures View() == old(View()).(insts := View().insts)
      ensures View().insts.Keys == old(View()).insts.Keys
      ensures forall i :: i in all ==>
                View().insts[i] == old(View()).insts[i].(reserved :=
                  old(View()).insts[i].reserved || (i in instances && old(View()).insts[i].name in byAVDName))
      ensures forall i :: i in all ==>
                all[i].reservedLabel ==
                  if i in instances && all[i].name in byAVDName then byAVDName[all[i].name] else old(all[i].reservedLabel)
    {
      ReserveListed(byAVDName);
      assert forall i :: i in instances ==> all[i] == instances[i];
      assert forall i :: i in all && i !in instances ==> all[i] !in instances.Values;
    }
  }
}
