/** internal/session/broker.go: the session map and the regions that change it. */
module Brokers {
  import opened Options
  import opened PoolModel
  import opened Farm

  class SessionRecord {
    const inst: InstanceId
    const expiresAt: nat
    var state: SessionState
    var releasedAt: Option<nat>
    ghost var poolReleases: nat

    ghost function View(): Session
      reads this
    {
      Session(inst, state, expiresAt, releasedAt, poolReleases)
    }

    constructor (inst: InstanceId, expiresAt: nat)
      ensures View() == Session(inst, Active, expiresAt, None, 0)
    {
      this.inst, this.expiresAt, state, releasedAt, poolReleases := inst, expiresAt, Active, None, 0;
    }

    predicate IsActive()
      reads this`state
    {
      state == Active || state == Queued
    }
  }

  datatype ReleaseOutcome = NotFound | NotActive(state: SessionState) | SendBack(inst: InstanceId)

  /** Exactly these sessions have got this final state and this release time; everything else about them, and
      every other session, is as it was. The count of pool releases is left to the caller. */
  ghost predicate OnlyEnded(before: map<SessionId, Session>, after: map<SessionId, Session>, which: set<SessionId>,
                            why: SessionState, now: nat)
  {
    forall s :: s in before && s in after ==>
      if s in which
      then after[s].state == why && after[s].releasedAt == Some(now)
           && after[s].inst == before[s].inst && after[s].expiresAt == before[s].expiresAt
      else after[s] == before[s]
  }

  class Broker {
    var sessions: map<SessionId, SessionRecord>

    /** Every session has its own record. */
    ghost predicate Valid()
      reads this
    {
      forall s, r | s in sessions && r in sessions && sessions[s] == sessions[r] :: s == r
    }

    ghost function View(): map<SessionId, Session>
      reads this, sessions.Values
    {
      map s | s in sessions :: sessions[s].View()
    }

    constructor ()
      ensures Valid() && View() == map[]
    {
      sessions := map[];
    }

    /** createSessionFromInstance's insertion. */
    method Publish(id: SessionId, inst: InstanceId, expiresAt: nat)
      requires Valid() && id !in sessions
      modifies this
      ensures Valid() && View() == old(View())[id := Session(inst, Active, expiresAt, None, 0)]
    {
      var record := new SessionRecord(inst, expiresAt);
      sessions := sessions[id := record];
      assert View() == old(View())[id := Session(inst, Active, expiresAt, None, 0)];
    }

    /** Broker.Release up to the call of pool.Release. */
    method Release(id: SessionId, now: nat) returns (r: ReleaseOutcome)
      requires Valid()
      modifies sessions.Values
      ensures Valid()
      ensures r == (if id !in old(View()) then NotFound
                    else if !old(View())[id].IsActive() then NotActive(old(View())[id].state)
                    else SendBack(old(View())[id].inst))
      ensures View() == if r.SendBack? then Ended(old(View()), id, Released, now) else old(View())
      ensures r.NotActive? <==> id in old(View()) && old(View())[id].state !in {Active, Queued}
      ensures r.SendBack? ==>
                View().Keys == old(View()).Keys && OnlyEnded(old(View()), View(), {id}, Released, now)
    {
      if id !in sessions {
        return NotFound;
      }
      var sess := sessions[id];
      assert View()[id] == sess.View();
      if !sess.IsActive() {
        return NotActive(sess.state);
      }
      sess.state := Released;
      sess.releasedAt := Some(now);
      sess.poolReleases := sess.poolReleases + 1;
      assert View() == Ended(old(View()), id, Released, now);
      return SendBack(sess.inst);
    }

    method HandleInstanceEvicted(id: SessionId, now: nat) returns (told: bool)
      requires Valid()
      modifies sessions.Values
      ensures Valid()
      ensures told <==> id in old(View()) && old(View())[id].state in {Active, Queued}
      ensures View() == Interrupt(old(View()), id, now)
      ensures View().Keys == old(View()).Keys
      ensures OnlyEnded(old(View()), View(), if told then {id} else {}, Interrupted, now)
    {
      if id !in sessions || !sessions[id].IsActive() {
        assert id in sessions ==> View()[id] == sessions[id].View();
        return false;
      }
      var sess := sessions[id];
      assert View()[id] == sess.View();
      sess.state := Interrupted;
      sess.releasedAt := Some(now);
      assert View() == Interrupt(old(View()), id, now);
      return true;
    }

    /** The scan of enforceTimeouts, in any order the map may yield. */
    method Expired(now: nat) returns (expired: set<SessionId>)
      requires Valid()
      ensures expired == Overdue(View(), now)
      ensures forall s :: s in expired <==> s in sessions && sessions[s].state == Active && now > sessions[s].expiresAt
    {
      assert forall s :: s in sessions ==> View()[s] == sessions[s].View();
      expired := {};
      var rest := sessions.Keys;
      while rest != {}
        invariant rest <= sessions.Keys
        invariant expired == set s | s in Overdue(View(), now) && s !in rest
      {
        var s :| s in rest;
        assert View()[s] == sessions[s].View();
        if sessions[s].state == Active && now > sessions[s].expiresAt {
          expired := expired + {s};
        }
        rest := rest - {s};
      }
    }

    /** One mark of enforceTimeouts: it does not ask whether the session is still active. */
    method MarkTimedOut(id: SessionId, now: nat) returns (inst: InstanceId)
      requires Valid() && id in sessions
      modifies sessions.Values
      ensures Valid() && sessions == old(sessions) && inst == old(View())[id].inst
      ensures View() == Ended(old(View()), id, TimedOut, now)
      ensures View().Keys == old(View()).Keys && OnlyEnded(old(View()), View(), {id}, TimedOut, now)
    {
      var sess := sessions[id];
      assert View()[id] == sess.View();
      sess.state := TimedOut;
      sess.releasedAt := Some(now);
      sess.poolReleases := sess.poolReleases + 1;
      assert View() == Ended(old(View()), id, TimedOut, now);
      return sess.inst;
    }

    /** The sessions with some of them timed out, each sent back once, and the others untouched. */
    static ghost function TimedOutAll(sessions: map<SessionId, Session>, which: set<SessionId>, now: nat): map<SessionId, Session> {
      map s | s in sessions ::
        if s in which
        then sessions[s].(state := TimedOut, releasedAt := Some(now), poolReleases := sessions[s].poolReleases + 1)
        else sessions[s]
    }

    static lemma TimedOutAllMeans(sessions: map<SessionId, Session>, which: set<SessionId>, now: nat)
      ensures TimedOutAll(sessions, which, now).Keys == sessions.Keys
      ensures OnlyEnded(sessions, TimedOutAll(sessions, which, now), which, TimedOut, now)
    {
    }

    static lemma TimedOutOneMore(sessions: map<SessionId, Session>, which: set<SessionId>, s: SessionId, now: nat)
      requires s in sessions && s !in which
      ensures TimedOutAll(sessions, which, now)[s] == sessions[s]
      ensures Ended(TimedOutAll(sessions, which, now), s, TimedOut, now) == TimedOutAll(sessions, which + {s}, now)
    {
    }

    /** A whole pass with nothing in between: exactly the overdue sessions time out, each with one
        pool.Release of its device, no other session is touched, and nothing overdue is left. */
    method EnforceTimeouts(now: nat) returns (sentBack: map<SessionId, InstanceId>)
      requires Valid()
      modifies sessions.Values
      ensures Valid()
      ensures sentBack.Keys == Overdue(old(View()), now)
      ensures forall s :: s in sentBack ==> sentBack[s] == old(View())[s].inst
      ensures View() == TimedOutAll(old(View()), Overdue(old(View()), now), now)
      ensures Overdue(View(), now) == {}
      ensures forall s :: s in sentBack <==>
                s in old(View()) && old(View())[s].state == Active && now > old(View())[s].expiresAt
      ensures View().Keys == old(View()).Keys && OnlyEnded(old(View()), View(), sentBack.Keys, TimedOut, now)
    {
      ghost var before := View();
      var expired := Expired(now);
      sentBack := map[];
      var rest := expired;
      while rest != {}
        invariant rest <= expired && Valid() && sessions == old(sessions)
        invariant sentBack.Keys == expired - rest
        invariant forall s :: s in sentBack ==> sentBack[s] == before[s].inst
        invariant View() == TimedOutAll(before, expired - rest, now)
      {
        var s :| s in rest;
        TimedOutOneMore(before, expired - rest, s, now);
        assert expired - (rest - {s}) == (expired - rest) + {s};
        var inst := MarkTimedOut(s, now);
        sentBack := sentBack[s := inst];
        rest := rest - {s};
      }
      assert expired - rest == expired;
      TimedOutAllMeans(before, expired, now);
    }

    method ActiveCount() returns (n: nat)
      requires Valid()
      ensures n == |set s | s in View() && View()[s].state in {Active, Queued}|
    {
      n := 0;
      ghost var counted: set<SessionId> := {};
      var rest := sessions.Keys;
      while rest != {}
        invariant rest <= sessions.Keys
        invariant counted == set s | s in View() && s !in rest && View()[s].IsActive()
        invariant n == |counted|
      {
        var s :| s in rest;
        assert View()[s] == sessions[s].View();
        if sessions[s].IsActive() {
          n := n + 1;
          counted := counted + {s};
        }
        rest := rest - {s};
      }
      assert counted == set s | s in View() && View()[s].state in {Active, Queued};
    }
  }
}
