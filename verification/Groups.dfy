/** internal/api/handlers_registry.go: the handlers that change a roster and tell the peers. */
module RosterHandlers {
  import opened Rosters
  import opened Registries

  datatype Status = Done | BadRequest | Forbidden | Missing

  /** propagateAdd and propagateRemove: everybody in the roster but the node concerned, in roster order. */
  method Peers(reg: Registry, name: string) returns (peers: seq<Node>)
    requires reg.Valid()
    ensures peers == Dropped(reg.Nodes(), name)
  {
    peers := [];
    for i := 0 to reg.len
      invariant peers == Dropped(reg.Nodes()[..i], name)
    {
      assert reg.Nodes()[..i + 1] == reg.Nodes()[..i] + [reg.Nodes()[i]];
      DroppedSnoc(reg.Nodes()[..i], reg.Nodes()[i], name);
      if reg.buf[i].name != name {
        peers := peers + [reg.buf[i]];
      }
    }
    assert reg.Nodes()[..reg.len] == reg.Nodes();
  }

  /** AddNode. A propagated request is not verified and never passed on; an original one is told to every
      other roster entry once. verified is the answer of the callback to the new node. */
  method HandleAdd(reg: Registry, key: string, n: Node, propagated: bool, verified: bool, now: nat)
    returns (status: Status, told: seq<Node>)
    requires reg.Valid()
    modifies reg`buf, reg`len, reg.buf
    ensures reg.Valid()
    ensures status == (if !old(reg.VerifyKey(key)) then Forbidden
                       else if n.name == "" || n.url == "" then BadRequest
                       else if !propagated && !verified then Forbidden
                       else Done)
    ensures reg.Nodes() == if status == Done then Upsert(old(reg.Nodes()), n, now) else old(reg.Nodes())
    ensures told == if status == Done && !propagated then Dropped(reg.Nodes(), n.name) else []
    ensures old(reg.groupKey) == "" || key != old(reg.groupKey) ==>
              status == Forbidden && reg.Nodes() == old(reg.Nodes()) && told == []
    ensures key == old(reg.groupKey) != "" && n.name != "" && n.url != "" && (propagated || verified) ==> status == Done
    ensures reg.groupKey == old(reg.groupKey)
  {
    told := [];
    if !reg.VerifyKey(key) {
      return Forbidden, told;
    }
    if n.name == "" || n.url == "" {
      return BadRequest, told;
    }
    if !propagated && !verified {
      return Forbidden, told;
    }
    var ok := reg.AddNode(n, now);
    if !propagated {
      told := Peers(reg, n.name);
    }
    return Done, told;
  }

  /** RemoveNode. A name that is not in the roster is reported as missing and told to nobody. */
  method HandleRemove(reg: Registry, key: string, name: string, propagated: bool)
    returns (status: Status, told: seq<Node>)
    requires reg.Valid()
    modifies reg`len, reg.buf
    ensures reg.Valid()
    ensures status == (if !old(reg.VerifyKey(key)) then Forbidden
                       else if !Has(old(reg.Nodes()), name) then Missing
                       else Done)
    ensures reg.Nodes() == if status == Done then Dropped(old(reg.Nodes()), name) else old(reg.Nodes())
    ensures told == if status == Done && !propagated then Dropped(reg.Nodes(), name) else []
    ensures old(reg.groupKey) == "" || key != old(reg.groupKey) ==>
              status == Forbidden && reg.Nodes() == old(reg.Nodes()) && told == []
    ensures key == old(reg.groupKey) != "" ==>
              status == if exists n :: n in old(reg.Nodes()) && n.name == name then Done else Missing
    ensures key == old(reg.groupKey) != "" ==>
              forall n :: n in reg.Nodes() <==> n in old(reg.Nodes()) && n.name != name
    ensures reg.groupKey == old(reg.groupKey)
  {
    told := [];
    if !reg.VerifyKey(key) {
      return Forbidden, told;
    }
    DroppedLeavesOthers(reg.Nodes(), name);
    var removed := reg.RemoveNode(name);
    if !removed {
      DroppingTheAbsent(old(reg.Nodes()), name);
      return Missing, told;
    }
    if !propagated {
      told := Peers(reg, name);
    }
    return Done, told;
  }

  /** LeaveGroup: the roster is read before it is wiped, and everybody else in it is told. */
  method HandleLeave(reg: Registry, selfName: string, local: bool) returns (status: Status, told: seq<Node>)
    requires reg.Valid()
    modifies reg
    ensures reg.Valid()
    ensures status == if local then Done else Forbidden
    ensures local ==> reg.Nodes() == [] && reg.groupName == "" && reg.groupKey == "" && told == Dropped(old(reg.Nodes()), selfName)
    ensures !local ==> reg.Nodes() == old(reg.Nodes()) && reg.groupKey == old(reg.groupKey) && told == []
  {
    told := [];
    if !local {
      return Forbidden, told;
    }
    told := Peers(reg, selfName);
    reg.LeaveGroup();
    return Done, told;
  }

  /** No operation sends more messages than there are roster entries. */
  lemma {:induction false} FewMessages(nodes: seq<Node>, name: string)
    ensures |Dropped(nodes, name)| <= |nodes|
    ensures Has(nodes, name) ==> |Dropped(nodes, name)| < |nodes|
  {
    if nodes != [] {
      FewMessages(nodes[1..], name);
      if Has(nodes, name) && nodes[0].name != name {
        var i :| 0 <= i < |nodes| && nodes[i].name == name;
        assert nodes[1..][i - 1].name == name;
      }
    }
  }
}

/** A group of nodes with one roster each: operations start at members, every message is delivered once,
    in any order, and none is passed on. */
module Groups {
  import opened Rosters

  /** One operation for one name. Leaving is started by the leaving node itself. */
  datatype Op = Add(at: string, node: Node) | Remove(at: string) | Leave

  datatype State = State(
    rosters: map<string, seq<Node>>,      // of the first members that are still in the group
    inbox: set<(string, string)>,         // messages under way: to whom, and the name concerned
    started: set<string>)

  datatype Step = Start(name: string, now: nat) | Deliver(to: string, name: string, now: nat)

  /** The operations are for different names, added names are new, all others are members; they are started
      at members of the first roster. */
  ghost predicate WellPosed(first: seq<Node>, ops: map<string, Op>) {
    && Unique(first)
    && forall x :: x in ops ==>
         match ops[x]
         case Add(at, node) => node.name == x && !Has(first, x) && Has(first, at)
         case Remove(at) => Has(first, x) && Has(first, at)
         case Leave => Has(first, x)
  }

  ghost function Init(first: seq<Node>): State {
    State(map x | x in AsMap(first) :: first, {}, {})
  }

  function Starter(x: string, op: Op): string {
    if op.Leave? then x else op.at
  }

  /** What the operation does to a roster, at its starter and at every receiver. */
  function Effect(nodes: seq<Node>, x: string, op: Op, now: nat): seq<Node> {
    if op.Add? then Upsert(nodes, op.node, now) else Dropped(nodes, x)
  }

  predicate Enabled(ops: map<string, Op>, f: State, st: Step) {
    match st
    case Start(x, _) => x in ops && x !in f.started && Starter(x, ops[x]) in f.rosters
    case Deliver(to, x, _) => (to, x) in f.inbox && x in ops
  }

  function Messages(nodes: seq<Node>, x: string): set<(string, string)> {
    set n | n in Dropped(nodes, x) :: (n.name, x)
  }

  ghost function Apply(ops: map<string, Op>, f: State, st: Step): State
    requires Enabled(ops, f, st)
  {
    match st
    case Start(x, now) =>
      var q := Starter(x, ops[x]);
      var after := Effect(f.rosters[q], x, ops[x], now);
      State(if ops[x].Leave? then f.rosters - {q} else f.rosters[q := after],
            if ops[x].Remove? && !Has(f.rosters[q], x) then f.inbox else f.inbox + Messages(after, x),
            f.started + {x})
    case Deliver(to, x, now) =>
      f.(inbox := f.inbox - {(to, x)},
         rosters := if to in f.rosters then f.rosters[to := Effect(f.rosters[to], x, ops[x], now)] else f.rosters)
  }

  ghost predicate Legal(ops: map<string, Op>, f: State, run: seq<Step>)
    decreases |run|
  {
    run == [] || (Enabled(ops, f, run[0]) && Legal(ops, Apply(ops, f, run[0]), run[1..]))
  }

  ghost function Final(ops: map<string, Op>, f: State, run: seq<Step>): State
    requires Legal(ops, f, run)
    decreases |run|
  {
    if run == [] then f else Final(ops, Apply(ops, f, run[0]), run[1..])
  }

  // ---- What a roster should say ----

  ghost function Urls(m: map<string, Node>): map<string, string> {
    map x | x in m :: m[x].url
  }

  function Gone(ops: map<string, Op>, done: set<string>): set<string> {
    set x | x in done && x in ops && !ops[x].Add?
  }

  function Added(ops: map<string, Op>, done: set<string>): map<string, string> {
    map x | x in done && x in ops && ops[x].Add? :: ops[x].node.url
  }

  /** The first roster after some of the operations, as names and URLs. */
  ghost function Expected(first: seq<Node>, ops: map<string, Op>, done: set<string>): map<string, string> {
    (Urls(AsMap(first)) - Gone(ops, done)) + Added(ops, done)
  }

  ghost predicate Survives(first: seq<Node>, ops: map<string, Op>, p: string) {
    Has(first, p) && p !in ops
  }

  /** The operations a member has carried out: those it started and those whose message has come. */
  function DoneAt(ops: map<string, Op>, f: State, p: string): set<string> {
    set x | x in f.started && ((p, x) !in f.inbox || (x in ops && Starter(x, ops[x]) == p))
  }

  ghost predicate Consistent(first: seq<Node>, ops: map<string, Op>, f: State) {
    && f.started <= ops.Keys
    && (forall m :: m in f.inbox ==> m.1 in f.started)
    && (forall q :: q in f.rosters ==> Unique(f.rosters[q]))
    && (forall q, p :: q in f.rosters && Has(first, p) && p !in f.started ==> Has(f.rosters[q], p))
    && (forall p :: Survives(first, ops, p) ==> AsExpected(first, ops, f, p))
  }

  ghost predicate AsExpected(first: seq<Node>, ops: map<string, Op>, f: State, p: string) {
    p in f.rosters && Urls(AsMap(f.rosters[p])) == Expected(first, ops, DoneAt(ops, f, p))
  }

  /** An operation for x is told to exactly the members on the roster, save x; delivering tells nobody. */
  lemma MessagesGoToOthers(ops: map<string, Op>, f: State, x: string, now: nat, to: string, y: string)
    requires Enabled(ops, f, Start(x, now))
    ensures var q, g := Starter(x, ops[x]), Apply(ops, f, Start(x, now));
            (to, y) in g.inbox <==>
              || (to, y) in f.inbox
              || (y == x && to != x && !(ops[x].Remove? && !Has(f.rosters[q], x))
                  && exists n :: n in Effect(f.rosters[q], x, ops[x], now) && n.name == to)
  {
    DroppedLeavesOthers(Effect(f.rosters[Starter(x, ops[x])], x, ops[x], now), x);
  }

  lemma DeliveringTellsNobody(ops: map<string, Op>, f: State, to: string, x: string, now: nat)
    requires Enabled(ops, f, Deliver(to, x, now))
    ensures Apply(ops, f, Deliver(to, x, now)).inbox == f.inbox - {(to, x)}
    ensures Apply(ops, f, Deliver(to, x, now)).started == f.started
    ensures forall q :: q in f.rosters ==>
              q in Apply(ops, f, Deliver(to, x, now)).rosters
              && Apply(ops, f, Deliver(to, x, now)).rosters[q] ==
                   if q != to then f.rosters[q]
                   else if ops[x].Add? then Upsert(f.rosters[q], ops[x].node, now) else Dropped(f.rosters[q], x)
  {
  }

  // ---- Preservation ----

  lemma EffectOnMap(nodes: seq<Node>, x: string, op: Op, now: nat)
    requires Unique(nodes) && (op.Add? ==> op.node.name == x)
    ensures Unique(Effect(nodes, x, op, now))
    ensures Urls(AsMap(Effect(nodes, x, op, now))) ==
              if op.Add? then Urls(AsMap(nodes))[x := op.node.url] else Urls(AsMap(nodes)) - {x}
  {
    if op.Add? {
      AddingOnUrls(nodes, op.node, now);
    } else {
      DroppedDeletes(nodes, x);
      UrlsWithout(AsMap(nodes), x);
    }
  }

  lemma AddingOnUrls(nodes: seq<Node>, n: Node, now: nat)
    requires Unique(nodes)
    ensures Unique(Upsert(nodes, n, now))
    ensures Urls(AsMap(Upsert(nodes, n, now))) == Urls(AsMap(nodes))[n.name := n.url]
  {
    UpsertUpdates(nodes, n, now);
    UrlsOfPut(AsMap(nodes), n, now);
  }

  lemma UrlsOfPut(m: map<string, Node>, n: Node, now: nat)
    ensures Urls(Put(m, n, now)) == Urls(m)[n.name := n.url]
  {
  }

  lemma UrlsWithout(m: map<string, Node>, x: string)
    ensures Urls(m - {x}) == Urls(m) - {x}
  {
  }

  /** One more operation done, or one done again. */
  lemma ExpectedAfter(first: seq<Node>, ops: map<string, Op>, done: set<string>, x: string)
    requires x in ops
    ensures Expected(first, ops, done + {x}) ==
              if ops[x].Add? then Expected(first, ops, done)[x := ops[x].node.url] else Expected(first, ops, done) - {x}
  {
    if ops[x].Add? {
      assert Gone(ops, done + {x}) == Gone(ops, done);
      assert Added(ops, done + {x}) == Added(ops, done)[x := ops[x].node.url];
    } else {
      assert Gone(ops, done + {x}) == Gone(ops, done) + {x};
      assert Added(ops, done + {x}) == Added(ops, done);
      assert x !in Added(ops, done);
    }
  }

  lemma EffectKeepsSurvivor(nodes: seq<Node>, x: string, op: Op, now: nat, p: string)
    requires Unique(nodes) && Has(nodes, p) && p != x && (op.Add? ==> op.node.name == x)
    ensures Has(Effect(nodes, x, op, now), p)
  {
    EffectOnMap(nodes, x, op, now);
    assert p in Urls(AsMap(nodes));
    assert p in Urls(AsMap(Effect(nodes, x, op, now)));
  }

  /** Every survivor other than a leaver hears of an operation started anywhere. */
  lemma SurvivorIsTold(nodes: seq<Node>, x: string, p: string)
    requires Has(nodes, p) && p != x
    ensures (p, x) in Messages(nodes, x)
  {
    var i :| 0 <= i < |nodes| && nodes[i].name == p;
    DroppedElements(nodes, x, nodes[i]);
  }

  /** An operation that changes a roster keeps it as expected, if it was, with the operation done. */
  lemma RosterAdvances(first: seq<Node>, ops: map<string, Op>, nodes: seq<Node>, done: set<string>, x: string, now: nat)
    requires x in ops && (ops[x].Add? ==> ops[x].node.name == x) && Unique(nodes)
    requires Urls(AsMap(nodes)) == Expected(first, ops, done)
    ensures Unique(Effect(nodes, x, ops[x], now))
    ensures Urls(AsMap(Effect(nodes, x, ops[x], now))) == Expected(first, ops, done + {x})
  {
    EffectOnMap(nodes, x, ops[x], now);
    ExpectedAfter(first, ops, done, x);
  }

  lemma DoneAfterStart(ops: map<string, Op>, f: State, g: State, x: string, p: string)
    requires x in ops && x !in f.started && g.started == f.started + {x}
    requires forall y :: y in f.started ==> ((p, y) in g.inbox <==> (p, y) in f.inbox)
    requires p != Starter(x, ops[x]) ==> (p, x) in g.inbox
    ensures DoneAt(ops, g, p) == if p == Starter(x, ops[x]) then DoneAt(ops, f, p) + {x} else DoneAt(ops, f, p)
  {
  }

  lemma DoneAfterDeliver(ops: map<string, Op>, f: State, to: string, x: string, p: string)
    requires x in f.started
    ensures DoneAt(ops, f.(inbox := f.inbox - {(to, x)}), p) ==
              if p == to then DoneAt(ops, f, p) + {x} else DoneAt(ops, f, p)
  {
  }

  lemma StartSends(first: seq<Node>, ops: map<string, Op>, f: State, x: string, now: nat, p: string)
    requires WellPosed(first, ops) && Consistent(first, ops, f) && Enabled(ops, f, Start(x, now))
    requires Survives(first, ops, p)
    ensures (p, x) in Apply(ops, f, Start(x, now)).inbox
    ensures forall y :: y != x ==> ((p, y) in Apply(ops, f, Start(x, now)).inbox <==> (p, y) in f.inbox)
  {
    var q := Starter(x, ops[x]);
    EffectKeepsSurvivor(f.rosters[q], x, ops[x], now, p);
    SurvivorIsTold(Effect(f.rosters[q], x, ops[x], now), x, p);
  }

  lemma StartKeepsSurvivor(first: seq<Node>, ops: map<string, Op>, f: State, x: string, now: nat, p: string)
    requires WellPosed(first, ops) && Consistent(first, ops, f) && Enabled(ops, f, Start(x, now))
    requires Survives(first, ops, p)
    ensures AsExpected(first, ops, Apply(ops, f, Start(x, now)), p)
  {
    var g := Apply(ops, f, Start(x, now));
    StartSends(first, ops, f, x, now, p);
    DoneAfterStart(ops, f, g, x, p);
    assert AsExpected(first, ops, f, p);
    if p == Starter(x, ops[x]) {
      RosterAdvances(first, ops, f.rosters[p], DoneAt(ops, f, p), x, now);
    }
  }

  lemma DeliverKeepsSurvivor(first: seq<Node>, ops: map<string, Op>, f: State, to: string, x: string, now: nat, p: string)
    requires WellPosed(first, ops) && Consistent(first, ops, f) && Enabled(ops, f, Deliver(to, x, now))
    requires Survives(first, ops, p)
    ensures AsExpected(first, ops, Apply(ops, f, Deliver(to, x, now)), p)
  {
    var g := Apply(ops, f, Deliver(to, x, now));
    assert (to, x) in f.inbox && x in f.started;
    DoneAfterDeliver(ops, f, to, x, p);
    assert AsExpected(first, ops, f, p);
    if p == to {
      RosterAdvances(first, ops, f.rosters[p], DoneAt(ops, f, p), x, now);
    }
    assert DoneAt(ops, g, p) == DoneAt(ops, f.(inbox := f.inbox - {(to, x)}), p);
  }

  lemma StepKeepsRostersSound(first: seq<Node>, ops: map<string, Op>, f: State, st: Step)
    requires WellPosed(first, ops) && Consistent(first, ops, f) && Enabled(ops, f, st)
    ensures forall q :: q in Apply(ops, f, st).rosters ==> Unique(Apply(ops, f, st).rosters[q])
    ensures forall q, p :: q in Apply(ops, f, st).rosters && Has(first, p) && p !in Apply(ops, f, st).started ==>
              Has(Apply(ops, f, st).rosters[q], p)
  {
    var g := Apply(ops, f, st);
    var x := st.name;
    assert x in g.started by { assert st.Deliver? ==> (st.to, x) in f.inbox; }
    forall q | q in g.rosters ensures Unique(g.rosters[q]) {
      assert g.rosters[q] == f.rosters[q] || g.rosters[q] == Effect(f.rosters[q], x, ops[x], st.now);
      EffectOnMap(f.rosters[q], x, ops[x], st.now);
    }
    forall q, p | q in g.rosters && Has(first, p) && p !in g.started ensures Has(g.rosters[q], p) {
      assert g.rosters[q] == f.rosters[q] || g.rosters[q] == Effect(f.rosters[q], x, ops[x], st.now);
      EffectKeepsSurvivor(f.rosters[q], x, ops[x], st.now, p);
    }
  }

  lemma StepKeepsConsistent(first: seq<Node>, ops: map<string, Op>, f: State, st: Step)
    requires WellPosed(first, ops) && Consistent(first, ops, f) && Enabled(ops, f, st)
    ensures Consistent(first, ops, Apply(ops, f, st))
  {
    StepKeepsRostersSound(first, ops, f, st);
    forall p | Survives(first, ops, p) ensures AsExpected(first, ops, Apply(ops, f, st), p) {
      match st {
        case Start(x, now) => StartKeepsSurvivor(first, ops, f, x, now, p);
        case Deliver(to, x, now) => DeliverKeepsSurvivor(first, ops, f, to, x, now, p);
      }
    }
  }

  lemma {:induction false} RunsKeepConsistent(first: seq<Node>, ops: map<string, Op>, f: State, run: seq<Step>)
    requires WellPosed(first, ops) && Consistent(first, ops, f) && Legal(ops, f, run)
    ensures Consistent(first, ops, Final(ops, f, run))
    decreases |run|
  {
    if run != [] {
      StepKeepsConsistent(first, ops, f, run[0]);
      RunsKeepConsistent(first, ops, Apply(ops, f, run[0]), run[1..]);
    }
  }

  lemma NothingExpectedYet(first: seq<Node>, ops: map<string, Op>)
    ensures Expected(first, ops, {}) == Urls(AsMap(first))
  {
    assert Gone(ops, {}) == {} && Added(ops, {}) == map[];
    assert Urls(AsMap(first)) - {} == Urls(AsMap(first));
  }

  lemma InitIsConsistent(first: seq<Node>, ops: map<string, Op>)
    requires Unique(first)
    ensures Consistent(first, ops, Init(first))
  {
    NothingExpectedYet(first, ops);
    forall p | Survives(first, ops, p) ensures AsExpected(first, ops, Init(first), p) {
      assert DoneAt(ops, Init(first), p) == {};
      assert p in AsMap(first) && Init(first).rosters[p] == first;
    }
  }

  lemma AllHeard(ops: map<string, Op>, f: State, p: string)
    requires f.inbox == {}
    ensures DoneAt(ops, f, p) == f.started
  {
  }

  /** From equal rosters, whatever operations for different names are started at whatever members, and in
      whatever order their messages arrive: once all have arrived, every first member that was not removed
      and did not leave has the first roster without the names removed and with the names added. So all of
      them have the same names and URLs. */
  lemma GroupConverges(first: seq<Node>, ops: map<string, Op>, run: seq<Step>, p: string)
    requires WellPosed(first, ops) && Legal(ops, Init(first), run)
    requires Final(ops, Init(first), run).inbox == {}
    requires Survives(first, ops, p)
    ensures p in Final(ops, Init(first), run).rosters
    ensures Urls(AsMap(Final(ops, Init(first), run).rosters[p])) ==
              Expected(first, ops, Final(ops, Init(first), run).started)
  {
    InitIsConsistent(first, ops);
    RunsKeepConsistent(first, ops, Init(first), run);
    AllHeard(ops, Final(ops, Init(first), run), p);
    assert AsExpected(first, ops, Final(ops, Init(first), run), p);
  }

  /** One operation per name is needed: two members that add the same name with different URLs, and then
      hear of each other, end up with different rosters, and only then. */
  lemma ConflictingAddsDiverge(nodes: seq<Node>, one: Node, other: Node, now: nat)
    requires Unique(nodes) && one.name == other.name
    ensures Urls(AsMap(Upsert(Upsert(nodes, one, now), other, now))) == Urls(AsMap(Upsert(Upsert(nodes, other, now), one, now)))
            <==> one.url == other.url
  {
    AddingOnUrls(nodes, one, now);
    AddingOnUrls(nodes, other, now);
    AddingOnUrls(Upsert(nodes, one, now), other, now);
    AddingOnUrls(Upsert(nodes, other, now), one, now);
    PuttingTwice(Urls(AsMap(nodes)), one.name, one.url, other.url);
  }

  lemma PuttingTwice(m: map<string, string>, x: string, a: string, b: string)
    ensures m[x := a][x := b] == m[x := b][x := a] <==> a == b
  {
    assert m[x := a][x := b][x] == b && m[x := b][x := a][x] == a;
  }
}
