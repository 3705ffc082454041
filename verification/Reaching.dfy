/** States that some run leads to, one step at a time. */
module Reaching {
  import opened Options
  import opened PoolModel
  import opened Farm

  ghost predicate Reaches(f: State, g: State) {
    exists run: seq<Step> :: Legal(f, run) && Final(f, run) == g
  }

  lemma ReachesItself(f: State)
    ensures Reaches(f, f)
  {
    assert Legal(f, []) && Final(f, []) == f;
  }

  lemma {:induction false} Extend(f: State, run: seq<Step>, st: Step)
    requires Legal(f, run) && Enabled(Final(f, run), st)
    ensures Legal(f, run + [st]) && Final(f, run + [st]) == Apply(Final(f, run), st)
    decreases |run|
  {
    var all := run + [st];
    if run == [] {
      assert all[1..] == [];
      assert Legal(Apply(f, st), []) && Final(Apply(f, st), []) == Apply(f, st);
    } else {
      assert all[1..] == run[1..] + [st] && all[0] == run[0];
      Extend(Apply(f, run[0]), run[1..], st);
    }
  }

  lemma OneMore(f: State, g: State, st: Step, h: State)
    requires Reaches(f, g) && Enabled(g, st) && h == Apply(g, st)
    ensures Reaches(f, h)
  {
    var run :| Legal(f, run) && Final(f, run) == g;
    Extend(f, run, st);
  }

  lemma Next(f: State, g: State, t: TaskId, o: Oracle, h: State)
    requires Reaches(f, g) && t in g.tasks && TaskEnabled(g, g.tasks[t], o) && h == RunTask(g, t, o)
    ensures Reaches(f, h)
  {
    OneMore(f, g, Advance(t, o), h);
  }

  const YES := Oracle(true, None, "", "", 0)
  const NO := Oracle(false, None, "", "", 0)

  /** The callback of the session attached to a device is started. */
  function WithCallback(f: State, i: InstanceId): set<(InstanceId, SessionId)> {
    match AttachedSession(f.pool, i) case Some(s) => f.evictions + {(i, s)} case None => f.evictions
  }
}
