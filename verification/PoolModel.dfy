/** internal/pool as values: what each lock-protected region of the pool does to its state.
    The classes of Pool.dfy are proved against these functions, and Farm.dfy interleaves them. */
module PoolModel {
  import opened Options
  import opened DeviceStates

  type InstanceId = nat
  type SessionId = nat

  /** Who brought the device into the pool. Only the two on-demand paths take a slot first. */
  datatype Origin = AnyBoot | NamedBoot | ManualBoot | Adopted {
    predicate TakesSlot() { AnyBoot? || NamedBoot? }
  }

  /** One DeviceInstance, as the goroutines that still hold a pointer to it see it. */
  datatype Inst = Inst(
    name: string,               // Device.DisplayName(), the AVD name of an emulator
    profile: string,
    state: DeviceState,
    session: Option<SessionId>, // SessionID, None for ""
    reserved: bool,
    destroyable: bool,          // Device.CanDestroy()
    origin: Origin)
  {
    /** The test both warm scans apply to each instance. */
    predicate Eligible(manual: bool) {
      state == Warm && (manual || !reserved)
    }
  }

  /** insts holds every instance ever created; tracked is the key set of p.instances. */
  datatype PoolState = PoolState(
    capacity: nat,
    sem: nat,                   // occupied slots of the semaphore channel
    insts: map<InstanceId, Inst>,
    tracked: set<InstanceId>,
    booting: set<string>,       // p.bootingAVDs
    nextInst: InstanceId)

  function EmptyPool(capacity: nat): PoolState {
    PoolState(capacity, 0, map[], {}, {}, 0)
  }

  /** TransitionTo: the table decides; a refused transition changes nothing. */
  function Transition(p: PoolState, i: InstanceId, target: DeviceState): PoolState
    requires i in p.insts
  {
    p.(insts := p.insts[i := p.insts[i].(state := After(p.insts[i].state, target))])
  }

  predicate CanTransition(p: PoolState, i: InstanceId, target: DeviceState)
    requires i in p.insts
  {
    p.insts[i].state.CanTransitionTo(target)
  }

  function WithSession(p: PoolState, i: InstanceId, session: Option<SessionId>): PoolState
    requires i in p.insts
  {
    p.(insts := p.insts[i := p.insts[i].(session := session)])
  }

  function WithReserved(p: PoolState, i: InstanceId, reserved: bool): PoolState
    requires i in p.insts
  {
    p.(insts := p.insts[i := p.insts[i].(reserved := reserved)])
  }

  /** createInstance: a fresh id, tracked at once, state Creating. */
  function Create(p: PoolState, name: string, profile: string, destroyable: bool, origin: Origin): PoolState {
    p.(insts := p.insts[p.nextInst := Inst(name, profile, Creating, None, false, destroyable, origin)],
       tracked := p.tracked + {p.nextInst},
       nextInst := p.nextInst + 1)
  }

  /** The session attached to the instance when removeInstanceWithReason looks, if it is tracked at all. */
  function AttachedSession(p: PoolState, i: InstanceId): Option<SessionId> {
    if i in p.tracked && i in p.insts then p.insts[i].session else None
  }

  function Untrack(p: PoolState, i: InstanceId): PoolState {
    p.(tracked := p.tracked - {i})
  }

  /** The non-blocking receive on the semaphore. */
  function GiveBackSlot(p: PoolState): PoolState {
    p.(sem := if p.sem > 0 then p.sem - 1 else 0)
  }

  /** The names findUnbootedAVDExcluding and allocateAny treat as taken by tracked devices. */
  function TrackedNames(p: PoolState): set<string> {
    set i | i in p.tracked && i in p.insts :: p.insts[i].name
  }

  predicate EligibleTracked(p: PoolState, i: InstanceId, manual: bool) {
    i in p.tracked && i in p.insts && p.insts[i].Eligible(manual)
  }

  /** What the warm scan of allocateAny may return: an eligible device of the profile when there is one,
      else any eligible device, else nothing. The map's iteration order decides among the candidates. */
  ghost predicate WarmChoice(p: PoolState, profile: string, manual: bool, pick: Option<InstanceId>) {
    match pick
    case None => forall i :: !EligibleTracked(p, i, manual)
    case Some(i) =>
      && EligibleTracked(p, i, manual)
      && (profile != "" && (exists j :: EligibleTracked(p, j, manual) && p.insts[j].profile == profile)
          ==> p.insts[i].profile == profile)
  }

  /** A scan gives up exactly when every tracked Warm device is reserved and the caller is not manual. */
  lemma NothingToGrant(p: PoolState, profile: string, manual: bool)
    ensures WarmChoice(p, profile, manual, None) <==>
              forall i :: i in p.tracked && i in p.insts && p.insts[i].state == Warm ==> p.insts[i].reserved && !manual
  {
    assert forall i :: EligibleTracked(p, i, manual) <==>
        i in p.tracked && i in p.insts && p.insts[i].state == Warm && !(p.insts[i].reserved && !manual);
  }

  /** A scan may grant a device exactly when it is tracked and Warm, not reserved unless the caller is manual, and
      of the profile asked for unless no other such device is. */
  lemma WhatMayBeGranted(p: PoolState, profile: string, manual: bool, i: InstanceId)
    ensures WarmChoice(p, profile, manual, Some(i)) <==>
              && i in p.tracked && i in p.insts && p.insts[i].state == Warm && (manual || !p.insts[i].reserved)
              && (profile == "" || p.insts[i].profile == profile
                  || forall j :: j in p.tracked && j in p.insts && p.insts[j].state == Warm && (manual || !p.insts[j].reserved)
                       ==> p.insts[j].profile != profile)
  {
    assert forall j :: EligibleTracked(p, j, manual) <==>
        j in p.tracked && j in p.insts && p.insts[j].state == Warm && (manual || !p.insts[j].reserved);
  }

  lemma TrackedNamesAre(p: PoolState, name: string)
    ensures name in TrackedNames(p) <==> exists i :: i in p.tracked && i in p.insts && p.insts[i].name == name
  {
  }
}
