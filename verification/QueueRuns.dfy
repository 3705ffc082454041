/** The waiting queue under any interleaving of clients and drainers, one step per locked region of
    internal/session/queue.go or channel operation. Requests are numbered in order of arrival. */
module QueueRuns {
  type Request = nat
  type Drainer = nat

  datatype State = State(
    maxSize: nat,
    drainers: nat,                  // how many goroutines may drain at the same time
    queue: seq<Request>,
    held: map<Drainer, Request>,    // dequeued, and neither answered nor put back
    results: map<Request, nat>,     // how many results were sent to each request
    waiting: set<Request>,          // clients blocked in Enqueue
    leaving: set<Request>,          // timed out or cancelled, remove not run yet
    removed: set<Request>,          // found in the queue and taken out by remove
    arrived: nat)

  datatype Step =
    | Enqueue
    | Dequeue(drainer: Drainer)
    | PutBack(drainer: Drainer)
    | Answer(drainer: Drainer)
    | Receive(request: Request)
    | GiveUp(request: Request)
    | RunRemove(request: Request)

  function Init(maxSize: nat, drainers: nat): State {
    State(maxSize, drainers, [], map[], map[], {}, {}, {}, 0)
  }

  predicate Enabled(f: State, st: Step) {
    match st
    case Enqueue => |f.queue| < f.maxSize
    case Dequeue(d) => d !in f.held && |f.held| < f.drainers && f.queue != []
    case PutBack(d) => d in f.held
    case Answer(d) => d in f.held && f.held[d] in f.results
    case Receive(r) => r in f.waiting && r in f.results && f.results[r] > 0
    case GiveUp(r) => r in f.waiting
    case RunRemove(r) => r in f.leaving
  }

  /** The queue without the first occurrence of a request. */
  function Without(q: seq<Request>, r: Request): seq<Request> {
    if q == [] then [] else if q[0] == r then q[1..] else [q[0]] + Without(q[1..], r)
  }

  function Apply(f: State, st: Step): State
    requires Enabled(f, st)
  {
    match st
    case Enqueue =>
      f.(queue := f.queue + [f.arrived], results := f.results[f.arrived := 0],
         waiting := f.waiting + {f.arrived}, arrived := f.arrived + 1)
    case Dequeue(d) => f.(queue := f.queue[1..], held := f.held[d := f.queue[0]])
    case PutBack(d) => f.(queue := [f.held[d]] + f.queue, held := f.held - {d})
    case Answer(d) => f.(results := f.results[f.held[d] := f.results[f.held[d]] + 1], held := f.held - {d})
    case Receive(r) => f.(waiting := f.waiting - {r})
    case GiveUp(r) => f.(waiting := f.waiting - {r}, leaving := f.leaving + {r})
    case RunRemove(r) =>
      f.(queue := Without(f.queue, r), leaving := f.leaving - {r},
         removed := if r in f.queue then f.removed + {r} else f.removed)
  }

  ghost predicate Legal(f: State, run: seq<Step>)
    decreases |run|
  {
    run == [] || (Enabled(f, run[0]) && Legal(Apply(f, run[0]), run[1..]))
  }

  function Final(f: State, run: seq<Step>): State
    requires Legal(f, run)
    decreases |run|
  {
    if run == [] then f else Final(Apply(f, run[0]), run[1..])
  }

  // ---- Conservation ----

  function HeldBy(f: State, r: Request): set<Drainer> {
    set d | d in f.held && f.held[d] == r
  }

  /** Where a request is, counted: its places in the queue, the drainers holding it, the results sent to it
      and its removal. */
  function Places(f: State, r: Request): nat
    requires r in f.results
  {
    multiset(f.queue)[r] + |HeldBy(f, r)| + f.results[r] + (if r in f.removed then 1 else 0)
  }

  /** Every request mentioned anywhere has arrived, and nobody waits who has given up. */
  ghost predicate Known(f: State) {
    && (forall r: Request :: r in f.results <==> r < f.arrived)
    && (forall r: Request :: r in f.queue || r in f.waiting || r in f.leaving || r in f.removed ==> r < f.arrived)
    && (forall d :: d in f.held ==> f.held[d] < f.arrived)
    && (forall r :: r in f.leaving || r in f.removed ==> r !in f.waiting)
  }

  ghost predicate Conserved(f: State) {
    && Known(f)
    && (forall r :: r in f.results ==> Places(f, r) == 1)
  }

  lemma {:induction false} WithoutCounts(q: seq<Request>, r: Request)
    ensures multiset(Without(q, r)) == multiset(q) - multiset{r}
  {
    if q != [] {
      assert q == [q[0]] + q[1..];
      WithoutCounts(q[1..], r);
    }
  }

  lemma HeldGains(f: State, g: State, d: Drainer, x: Request, r: Request)
    requires d !in f.held && g.held == f.held[d := x]
    ensures |HeldBy(g, r)| == |HeldBy(f, r)| + (if r == x then 1 else 0)
  {
    assert HeldBy(g, r) == HeldBy(f, r) + (if r == x then {d} else {});
  }

  lemma HeldLoses(f: State, g: State, d: Drainer, r: Request)
    requires d in f.held && g.held == f.held - {d}
    ensures |HeldBy(g, r)| == |HeldBy(f, r)| - (if r == f.held[d] then 1 else 0)
  {
    assert HeldBy(f, r) == HeldBy(g, r) + (if r == f.held[d] then {d} else {});
  }

  lemma RemovalKeepsPlaces(f: State, x: Request, r: Request)
    requires Conserved(f) && Enabled(f, RunRemove(x)) && r in f.results
    ensures Places(Apply(f, RunRemove(x)), r) == 1
  {
    WithoutCounts(f.queue, x);
    assert HeldBy(Apply(f, RunRemove(x)), r) == HeldBy(f, r);
    assert x in f.queue ==> multiset(f.queue)[x] > 0;
  }

  lemma StepKeepsPlaces(f: State, st: Step, r: Request)
    requires Conserved(f) && Enabled(f, st) && r in Apply(f, st).results
    ensures Places(Apply(f, st), r) == 1
  {
    var g := Apply(f, st);
    match st
    case Enqueue =>
      assert HeldBy(g, r) == HeldBy(f, r);
      if r == f.arrived {
        assert HeldBy(f, r) == {};
        assert r !in f.queue;
      }
    case Dequeue(d) =>
      assert f.queue == [f.queue[0]] + g.queue;
      HeldGains(f, g, d, f.queue[0], r);
    case PutBack(d) => HeldLoses(f, g, d, r);
    case Answer(d) => HeldLoses(f, g, d, r);
    case Receive(_) => assert HeldBy(g, r) == HeldBy(f, r);
    case GiveUp(_) => assert HeldBy(g, r) == HeldBy(f, r);
    case RunRemove(x) => RemovalKeepsPlaces(f, x, r);
  }

  lemma {:induction false} WithoutElements(q: seq<Request>, r: Request, x: Request)
    requires x in Without(q, r)
    ensures x in q
  {
    if q[0] != r && x != q[0] {
      WithoutElements(q[1..], r, x);
    }
  }

  lemma StepKeepsKnown(f: State, st: Step)
    requires Known(f) && Enabled(f, st)
    ensures Known(Apply(f, st))
  {
    var g := Apply(f, st);
    match st
    case RunRemove(r) => forall x | x in g.queue ensures x in f.queue { WithoutElements(f.queue, r, x); }
    case Dequeue(_) => assert f.queue[0] in f.queue && forall x :: x in g.queue ==> x in f.queue;
    case _ =>
  }

  lemma StepKeepsConserved(f: State, st: Step)
    requires Conserved(f) && Enabled(f, st)
    ensures Conserved(Apply(f, st))
  {
    StepKeepsKnown(f, st);
    forall r | r in Apply(f, st).results ensures Places(Apply(f, st), r) == 1 { StepKeepsPlaces(f, st, r); }
  }

  lemma {:induction false} RunsConserve(f: State, run: seq<Step>)
    requires Conserved(f) && Legal(f, run)
    ensures Conserved(Final(f, run))
    decreases |run|
  {
    if run != [] {
      StepKeepsConserved(f, run[0]);
      RunsConserve(Apply(f, run[0]), run[1..]);
    }
  }

  /** In every reachable state each request that has arrived is in exactly one place: once in the queue,
      with one drainer, answered once, or taken out by its own client. So a client that still waits and was
      not sent a result is in the queue once or with one drainer, and nobody is sent two results. */
  lemma RequestsAreConserved(maxSize: nat, drainers: nat, run: seq<Step>, r: Request)
    requires Legal(Init(maxSize, drainers), run)
    requires r < Final(Init(maxSize, drainers), run).arrived
    ensures r in Final(Init(maxSize, drainers), run).results
    ensures Places(Final(Init(maxSize, drainers), run), r) == 1
    ensures Final(Init(maxSize, drainers), run).results[r] <= 1
    ensures r in Final(Init(maxSize, drainers), run).waiting && Final(Init(maxSize, drainers), run).results[r] == 0 ==>
              multiset(Final(Init(maxSize, drainers), run).queue)[r] + |HeldBy(Final(Init(maxSize, drainers), run), r)| == 1
  {
    RunsConserve(Init(maxSize, drainers), run);
  }

  // ---- The size bound ----

  lemma {:induction false} WithoutIsShorter(q: seq<Request>, r: Request)
    ensures |Without(q, r)| <= |q|
  {
    if q != [] {
      WithoutIsShorter(q[1..], r);
    }
  }

  ghost predicate Bounded(f: State) {
    |f.held| <= f.drainers && |f.queue| + |f.held| <= f.maxSize + f.drainers
  }

  lemma OneMoreHeld(held: map<Drainer, Request>, d: Drainer, r: Request)
    requires d !in held
    ensures |held[d := r]| == |held| + 1
  {
    assert held[d := r].Keys == held.Keys + {d};
  }

  lemma OneLessHeld(held: map<Drainer, Request>, d: Drainer)
    requires d in held
    ensures |held - {d}| == |held| - 1
  {
    assert held.Keys == (held - {d}).Keys + {d};
  }

  lemma StepKeepsBounded(f: State, st: Step)
    requires Bounded(f) && Enabled(f, st)
    ensures Bounded(Apply(f, st))
  {
    match st
    case Dequeue(d) => OneMoreHeld(f.held, d, f.queue[0]);
    case PutBack(d) => OneLessHeld(f.held, d);
    case Answer(d) => OneLessHeld(f.held, d);
    case RunRemove(r) => WithoutIsShorter(f.queue, r);
    case _ =>
  }

  lemma {:induction false} RunsKeepBounded(f: State, run: seq<Step>)
    requires Bounded(f) && Legal(f, run)
    ensures Bounded(Final(f, run))
    ensures Final(f, run).maxSize == f.maxSize && Final(f, run).drainers == f.drainers
    decreases |run|
  {
    if run != [] {
      StepKeepsBounded(f, run[0]);
      RunsKeepBounded(Apply(f, run[0]), run[1..]);
    }
  }

  /** Queued and held requests together exceed the size limit by at most the number of drainers. */
  lemma QueueIsBounded(maxSize: nat, drainers: nat, run: seq<Step>)
    requires Legal(Init(maxSize, drainers), run)
    ensures |Final(Init(maxSize, drainers), run).queue| + |Final(Init(maxSize, drainers), run).held| <= maxSize + drainers
  {
    RunsKeepBounded(Init(maxSize, drainers), run);
  }

  // ---- Order ----

  /** Arrival order: the queue is sorted, and what is held arrived before everything in it. */
  ghost predicate InOrder(f: State) {
    && (forall i, j | 0 <= i < j < |f.queue| :: f.queue[i] < f.queue[j])
    && (forall d, i | d in f.held && 0 <= i < |f.queue| :: f.held[d] < f.queue[i])
  }

  lemma {:induction false} WithoutKeepsOrder(q: seq<Request>, r: Request)
    requires forall i, j | 0 <= i < j < |q| :: q[i] < q[j]
    ensures forall i, j | 0 <= i < j < |Without(q, r)| :: Without(q, r)[i] < Without(q, r)[j]
    ensures forall i :: 0 <= i < |Without(q, r)| ==> Without(q, r)[i] in q
  {
    if q != [] {
      WithoutKeepsOrder(q[1..], r);
      assert forall x :: x in q[1..] ==> q[0] < x;
    }
  }

  /** The request put back is later than none that is still held. */
  ghost predicate PutsBackLatest(f: State, st: Step) {
    st.PutBack? && st.drainer in f.held ==>
      forall e :: e in f.held && e != st.drainer ==> f.held[e] < f.held[st.drainer]
  }

  lemma TwoOrMore(drainers: set<Drainer>, d: Drainer, e: Drainer)
    requires d in drainers && e in drainers && d != e
    ensures |drainers| >= 2
  {
    assert drainers == {d, e} + (drainers - {d, e});
  }

  /** No request is held twice. */
  lemma HeldOnce(f: State, d: Drainer, e: Drainer)
    requires Conserved(f) && d in f.held && e in f.held && d != e
    ensures f.held[d] != f.held[e]
  {
    assert Places(f, f.held[d]) == 1;
    if f.held[e] == f.held[d] {
      TwoOrMore(HeldBy(f, f.held[d]), d, e);
    }
  }

  lemma PutBackKeepsOrderExactlyWhen(f: State, d: Drainer)
    requires Conserved(f) && InOrder(f) && d in f.held
    ensures InOrder(Apply(f, PutBack(d))) <==> PutsBackLatest(f, PutBack(d))
  {
    var g := Apply(f, PutBack(d));
    forall e | e in f.held && e != d ensures f.held[d] != f.held[e] {
      HeldOnce(f, d, e);
    }
    assert g.queue[0] == f.held[d];
    assert forall e :: e in f.held && e != d ==> e in g.held && g.held[e] == f.held[e];
  }

  /** A step keeps the order of arrival if and only if it does not put a request back while an even later one
      is held by another drainer. */
  lemma StepKeepsOrderExactlyWhen(f: State, st: Step)
    requires Conserved(f) && InOrder(f) && Enabled(f, st)
    ensures InOrder(Apply(f, st)) <==> PutsBackLatest(f, st)
  {
    match st
    case Enqueue => assert forall i :: 0 <= i < |f.queue| ==> f.queue[i] in f.queue;
    case Dequeue(d) =>
    case PutBack(d) => PutBackKeepsOrderExactlyWhen(f, d);
    case RunRemove(r) => WithoutKeepsOrder(f.queue, r);
    case _ =>
  }

  ghost predicate InOrderThroughout(f: State, run: seq<Step>)
    decreases |run|
  {
    InOrder(f) && (run == [] || (Enabled(f, run[0]) && InOrderThroughout(Apply(f, run[0]), run[1..])))
  }

  ghost predicate PutsBackInTurn(f: State, run: seq<Step>)
    decreases |run|
  {
    run == [] || (Enabled(f, run[0]) && PutsBackLatest(f, run[0]) && PutsBackInTurn(Apply(f, run[0]), run[1..]))
  }

  lemma {:induction false} RunKeepsOrderExactlyWhen(f: State, run: seq<Step>)
    requires Conserved(f) && InOrder(f)
    ensures InOrderThroughout(f, run) <==> PutsBackInTurn(f, run)
    decreases |run|
  {
    if run != [] && Enabled(f, run[0]) {
      StepKeepsOrderExactlyWhen(f, run[0]);
      StepKeepsConserved(f, run[0]);
      if InOrder(Apply(f, run[0])) {
        RunKeepsOrderExactlyWhen(Apply(f, run[0]), run[1..]);
      }
    }
  }

  /** However many drainers there are: queue and held requests are in the order of arrival all along a run if
      and only if no drainer of the run puts a request back while another holds a later one. */
  lemma QueueIsFifoExactlyWhen(maxSize: nat, drainers: nat, run: seq<Step>)
    ensures InOrderThroughout(Init(maxSize, drainers), run) <==> PutsBackInTurn(Init(maxSize, drainers), run)
  {
    RunKeepsOrderExactlyWhen(Init(maxSize, drainers), run);
  }

  lemma {:induction false} AloneEverythingIsInTurn(f: State, run: seq<Step>)
    requires f.drainers <= 1 && Bounded(f) && Legal(f, run)
    ensures PutsBackInTurn(f, run)
    decreases |run|
  {
    if run != [] {
      if run[0].PutBack? {
        assert |f.held.Keys - {run[0].drainer}| == |f.held.Keys| - 1;
        assert f.held.Keys - {run[0].drainer} == {};
      }
      StepKeepsBounded(f, run[0]);
      AloneEverythingIsInTurn(Apply(f, run[0]), run[1..]);
    }
  }

  lemma {:induction false} InOrderAtTheEnd(f: State, run: seq<Step>)
    requires InOrderThroughout(f, run)
    ensures Legal(f, run) && InOrder(Final(f, run))
    decreases |run|
  {
    if run != [] {
      InOrderAtTheEnd(Apply(f, run[0]), run[1..]);
    }
  }

  /** With a single drainer requests are always dequeued in the order of arrival, however many give up. */
  lemma SingleDrainerIsFifo(maxSize: nat, run: seq<Step>)
    requires Legal(Init(maxSize, 1), run)
    ensures InOrder(Final(Init(maxSize, 1), run))
  {
    AloneEverythingIsInTurn(Init(maxSize, 1), run);
    QueueIsFifoExactlyWhen(maxSize, 1, run);
    InOrderAtTheEnd(Init(maxSize, 1), run);
  }

  lemma {:induction false} Extend(f: State, run: seq<Step>, st: Step)
    requires Legal(f, run) && Enabled(Final(f, run), st)
    ensures Legal(f, run + [st]) && Final(f, run + [st]) == Apply(Final(f, run), st)
    decreases |run|
  {
    var all := run + [st];
    if run == [] {
      assert all[1..] == [];
      assert Legal(Apply(f, st), []) && Final(Apply(f, st), []) == Apply(f, st);
    } else {
      assert all[1..] == run[1..] + [st] && all[0] == run[0];
      Extend(Apply(f, run[0]), run[1..], st);
    }
  }

  lemma TwoWaitTwoHold(maxSize: nat) returns (run: seq<Step>)
    requires maxSize >= 2
    ensures Legal(Init(maxSize, 2), run)
    ensures Final(Init(maxSize, 2), run).queue == [] && Final(Init(maxSize, 2), run).held == map[0 := 0, 1 := 1]
  {
    var f := Init(maxSize, 2);
    run := [];
    assert Legal(f, run) && Final(f, run) == f;
    Extend(f, run, Enqueue);
    run := run + [Enqueue];
    Extend(f, run, Enqueue);
    run := run + [Enqueue];
    assert Final(f, run).queue == [0, 1];
    Extend(f, run, Dequeue(0));
    run := run + [Dequeue(0)];
    assert Final(f, run).queue == [1] && Final(f, run).held == map[0 := 0];
    Extend(f, run, Dequeue(1));
    run := run + [Dequeue(1)];
  }

  /** With two drainers it is not: both are refused by the pool and put their requests back in the order in
      which they took them. */
  lemma TwoDrainersReorder(maxSize: nat) returns (run: seq<Step>)
    requires maxSize >= 2
    ensures Legal(Init(maxSize, 2), run)
    ensures Final(Init(maxSize, 2), run).queue == [1, 0]
  {
    var f := Init(maxSize, 2);
    run := TwoWaitTwoHold(maxSize);
    Extend(f, run, PutBack(0));
    run := run + [PutBack(0)];
    assert Final(f, run).queue == [0] && Final(f, run).held == map[1 := 1];
    Extend(f, run, PutBack(1));
    run := run + [PutBack(1)];
  }
}
