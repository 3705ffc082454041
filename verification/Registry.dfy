/** internal/registry/registry.go: the roster of a group as an ordered list without duplicate names. */
module Rosters {
  /** addedAt is 0 for Go's zero time. */
  datatype Node = Node(name: string, url: string, addedAt: nat)

  ghost predicate Unique(nodes: seq<Node>) {
    forall i, j | 0 <= i < j < |nodes| :: nodes[i].name != nodes[j].name
  }

  ghost predicate Has(nodes: seq<Node>, name: string) {
    exists i :: 0 <= i < |nodes| && nodes[i].name == name
  }

  /** What the list means: the node stored under each name. */
  ghost function AsMap(nodes: seq<Node>): (m: map<string, Node>)
    ensures forall name :: name in m <==> Has(nodes, name)
  {
    if nodes == [] then map[] else
      var m := AsMap(nodes[..|nodes| - 1])[nodes[|nodes| - 1].name := nodes[|nodes| - 1]];
      assert forall name :: Has(nodes, name) <==> Has(nodes[..|nodes| - 1], name) || name == nodes[|nodes| - 1].name;
      m
  }

  /** The entry AddNode stores: a zero time is replaced by the time already known, or by now. */
  function Dated(known: Node, n: Node): Node {
    if n.addedAt == 0 then n.(addedAt := known.addedAt) else n
  }

  function Stamped(n: Node, now: nat): Node {
    if n.addedAt == 0 then n.(addedAt := now) else n
  }

  /** The list after AddNode: an entry of that name is replaced where it stands, else the new one goes to
      the end. */
  function Upsert(nodes: seq<Node>, n: Node, now: nat): seq<Node> {
    if nodes == [] then [Stamped(n, now)]
    else if nodes[0].name == n.name then [Dated(nodes[0], n)] + nodes[1..]
    else [nodes[0]] + Upsert(nodes[1..], n, now)
  }

  /** The list after RemoveNode: everything else, in order. */
  function Dropped(nodes: seq<Node>, name: string): seq<Node> {
    if nodes == [] then []
    else if nodes[0].name == name then Dropped(nodes[1..], name)
    else [nodes[0]] + Dropped(nodes[1..], name)
  }

  // ---- The list refines a map ----

  lemma {:induction false} AsMapAt(nodes: seq<Node>, i: nat)
    requires Unique(nodes) && i < |nodes|
    ensures nodes[i].name in AsMap(nodes) && AsMap(nodes)[nodes[i].name] == nodes[i]
  {
    if i < |nodes| - 1 {
      AsMapAt(nodes[..|nodes| - 1], i);
    }
    assert Has(nodes, nodes[i].name);
  }

  lemma SameMap(a: map<string, Node>, b: map<string, Node>)
    requires forall name :: name in b ==> name in a && a[name] == b[name]
    requires forall name :: name in a ==> name in b
    ensures a == b
  {
  }

  /** A list without duplicates is determined, as a map, by its entries. */
  lemma SameEntriesSameMap(nodes: seq<Node>, m: map<string, Node>)
    requires Unique(nodes)
    requires forall name :: name in m <==> Has(nodes, name)
    requires forall i :: 0 <= i < |nodes| ==> nodes[i].name in m && m[nodes[i].name] == nodes[i]
    ensures AsMap(nodes) == m
  {
    forall name | name in m ensures name in AsMap(nodes) && AsMap(nodes)[name] == m[name] {
      assert Has(nodes, name);
      var i :| 0 <= i < |nodes| && nodes[i].name == name;
      AsMapAt(nodes, i);
    }
    forall name | name in AsMap(nodes) ensures name in m {
      assert Has(nodes, name);
    }
    SameMap(AsMap(nodes), m);
  }

  /** Upsert, position by position. */
  lemma {:induction false} UpsertShape(nodes: seq<Node>, n: Node, now: nat)
    ensures Has(nodes, n.name) ==>
              |Upsert(nodes, n, now)| == |nodes|
              && exists k :: 0 <= k < |nodes| && nodes[k].name == n.name
                   && (forall i :: 0 <= i < k ==> nodes[i].name != n.name)
                   && Upsert(nodes, n, now) == nodes[k := Dated(nodes[k], n)]
    ensures !Has(nodes, n.name) ==> Upsert(nodes, n, now) == nodes + [Stamped(n, now)]
  {
    if Has(nodes, n.name) {
      var k := FirstOf(nodes, n.name);
      UpsertAt(nodes, n, now, k);
    } else {
      UpsertAtEnd(nodes, n, now);
    }
  }

  lemma {:induction false} FirstOf(nodes: seq<Node>, name: string) returns (k: nat)
    requires Has(nodes, name)
    ensures k < |nodes| && nodes[k].name == name && forall i :: 0 <= i < k ==> nodes[i].name != name
  {
    k := 0;
    while nodes[k].name != name
      invariant k < |nodes| && forall i :: 0 <= i < k ==> nodes[i].name != name
      decreases |nodes| - k
    {
      k := k + 1;
    }
  }

  lemma {:induction false} UpsertAt(nodes: seq<Node>, n: Node, now: nat, k: nat)
    requires k < |nodes| && nodes[k].name == n.name && forall i :: 0 <= i < k ==> nodes[i].name != n.name
    ensures Upsert(nodes, n, now) == nodes[k := Dated(nodes[k], n)]
  {
    if k == 0 {
      assert nodes[0 := Dated(nodes[0], n)] == [Dated(nodes[0], n)] + nodes[1..];
    } else {
      UpsertAt(nodes[1..], n, now, k - 1);
      assert nodes[k := Dated(nodes[k], n)] == [nodes[0]] + nodes[1..][k - 1 := Dated(nodes[k], n)];
    }
  }

  lemma {:induction false} UpsertAtEnd(nodes: seq<Node>, n: Node, now: nat)
    requires !Has(nodes, n.name)
    ensures Upsert(nodes, n, now) == nodes + [Stamped(n, now)]
  {
    if nodes != [] {
      assert forall i :: 0 <= i < |nodes[1..]| ==> nodes[1..][i] == nodes[i + 1];
      UpsertAtEnd(nodes[1..], n, now);
      assert nodes + [Stamped(n, now)] == [nodes[0]] + (nodes[1..] + [Stamped(n, now)]);
    }
  }

  /** The node stands at position k: where its name was, or behind all the others; with the time given, else the
      time known, else now. Everything else stands where it stood. */
  ghost predicate StoredAt(before: seq<Node>, after: seq<Node>, n: Node, now: nat, k: nat) {
    && k < |after| && after[k].name == n.name && after[k].url == n.url
    && after[k].addedAt == (if n.addedAt != 0 then n.addedAt else if k < |before| then before[k].addedAt else now)
    && |after| == (if k < |before| then |before| else |before| + 1)
    && (k < |before| ==> before[k].name == n.name)
    && (k >= |before| ==> k == |before| && forall i :: 0 <= i < |before| ==> before[i].name != n.name)
    && forall i :: 0 <= i < |before| && i != k ==> after[i] == before[i]
  }

  lemma UpsertStores(nodes: seq<Node>, n: Node, now: nat)
    ensures exists k :: StoredAt(nodes, Upsert(nodes, n, now), n, now, k)
  {
    if Has(nodes, n.name) {
      var k := FirstOf(nodes, n.name);
      UpsertAt(nodes, n, now, k);
      assert StoredAt(nodes, Upsert(nodes, n, now), n, now, k);
    } else {
      UpsertAtEnd(nodes, n, now);
      assert StoredAt(nodes, Upsert(nodes, n, now), n, now, |nodes|);
    }
  }

  /** The map after AddNode. */
  ghost function Put(m: map<string, Node>, n: Node, now: nat): map<string, Node> {
    m[n.name := if n.name in m then Dated(m[n.name], n) else Stamped(n, now)]
  }

  lemma SameNames(nodes: seq<Node>, after: seq<Node>, name: string)
    requires |after| == |nodes| && forall i :: 0 <= i < |nodes| ==> after[i].name == nodes[i].name
    ensures Has(after, name) <==> Has(nodes, name)
  {
    if Has(nodes, name) {
      var i :| 0 <= i < |nodes| && nodes[i].name == name;
      assert after[i].name == name;
    }
  }

  lemma ReplacingUpdates(nodes: seq<Node>, k: nat, x: Node)
    requires Unique(nodes) && k < |nodes| && x.name == nodes[k].name
    ensures Unique(nodes[k := x]) && AsMap(nodes[k := x]) == AsMap(nodes)[x.name := x]
  {
    var after := nodes[k := x];
    forall i | 0 <= i < |nodes| ensures nodes[i].name in AsMap(nodes) && AsMap(nodes)[nodes[i].name] == nodes[i] {
      AsMapAt(nodes, i);
    }
    forall name ensures Has(after, name) <==> Has(nodes, name) { SameNames(nodes, after, name); }
    SameEntriesSameMap(after, AsMap(nodes)[x.name := x]);
  }

  lemma AppendingUpdates(nodes: seq<Node>, x: Node)
    requires Unique(nodes) && !Has(nodes, x.name)
    ensures Unique(nodes + [x]) && AsMap(nodes + [x]) == AsMap(nodes)[x.name := x]
  {
    assert (nodes + [x])[..|nodes + [x]| - 1] == nodes;
  }

  /** AddNode is a map update, and names stay unique. */
  lemma UpsertUpdates(nodes: seq<Node>, n: Node, now: nat)
    requires Unique(nodes)
    ensures Unique(Upsert(nodes, n, now)) && AsMap(Upsert(nodes, n, now)) == Put(AsMap(nodes), n, now)
  {
    UpsertShape(nodes, n, now);
    if Has(nodes, n.name) {
      var k :| 0 <= k < |nodes| && nodes[k].name == n.name && Upsert(nodes, n, now) == nodes[k := Dated(nodes[k], n)];
      AsMapAt(nodes, k);
      ReplacingUpdates(nodes, k, Dated(nodes[k], n));
    } else {
      AppendingUpdates(nodes, Stamped(n, now));
    }
  }

  /** Adding the same node again changes nothing, whenever that happens. */
  lemma {:induction false} UpsertIsIdempotent(nodes: seq<Node>, n: Node, now: nat, later: nat)
    ensures Upsert(Upsert(nodes, n, now), n, later) == Upsert(nodes, n, now)
  {
    if nodes != [] && nodes[0].name != n.name {
      UpsertIsIdempotent(nodes[1..], n, now, later);
      assert Upsert(nodes, n, now)[1..] == Upsert(nodes[1..], n, now);
    }
  }

  lemma {:induction false} DroppedElements(nodes: seq<Node>, name: string, x: Node)
    ensures x in Dropped(nodes, name) <==> x in nodes && x.name != name
  {
    if nodes != [] {
      DroppedElements(nodes[1..], name, x);
      assert x in nodes <==> x == nodes[0] || x in nodes[1..];
    }
  }

  /** Exactly the nodes of other names are left. */
  lemma DroppedLeavesOthers(nodes: seq<Node>, name: string)
    ensures forall x :: x in Dropped(nodes, name) <==> x in nodes && x.name != name
  {
    forall x ensures x in Dropped(nodes, name) <==> x in nodes && x.name != name {
      DroppedElements(nodes, name, x);
    }
  }

  lemma {:induction false} DroppedStaysUnique(nodes: seq<Node>, name: string)
    requires Unique(nodes)
    ensures Unique(Dropped(nodes, name))
  {
    if nodes != [] {
      DroppedStaysUnique(nodes[1..], name);
      if nodes[0].name != name {
        var rest := Dropped(nodes[1..], name);
        forall j | 0 <= j < |rest| ensures rest[j].name != nodes[0].name {
          DroppedElements(nodes[1..], name, rest[j]);
          var k :| 0 <= k < |nodes[1..]| && nodes[1..][k] == rest[j];
          assert nodes[k + 1] == rest[j];
        }
      }
    }
  }

  /** RemoveNode is a map deletion, and names stay unique. */
  lemma DroppedDeletes(nodes: seq<Node>, name: string)
    requires Unique(nodes)
    ensures Unique(Dropped(nodes, name))
    ensures AsMap(Dropped(nodes, name)) == AsMap(nodes) - {name}
  {
    DroppedStaysUnique(nodes, name);
    var after, m := Dropped(nodes, name), AsMap(nodes) - {name};
    forall i | 0 <= i < |after| ensures after[i].name in m && m[after[i].name] == after[i] {
      DroppedElements(nodes, name, after[i]);
      var k :| 0 <= k < |nodes| && nodes[k] == after[i];
      AsMapAt(nodes, k);
    }
    forall x ensures x in m <==> Has(after, x) {
      if x in m {
        var k :| 0 <= k < |nodes| && nodes[k].name == x;
        DroppedElements(nodes, name, nodes[k]);
        var i :| 0 <= i < |after| && after[i] == nodes[k];
        assert after[i].name == x;
      }
    }
    SameEntriesSameMap(after, m);
  }

  // ---- Whole histories ----

  /** What may happen to the list: AddNode, RemoveNode, or a new list by CreateGroup, import or leaving. */
  datatype Change = Add(node: Node, now: nat) | Remove(name: string) | Replace(nodes: seq<Node>)

  function Changed(nodes: seq<Node>, c: Change): seq<Node> {
    match c
    case Add(n, now) => Upsert(nodes, n, now)
    case Remove(name) => Dropped(nodes, name)
    case Replace(other) => other
  }

  ghost function ChangedMap(m: map<string, Node>, c: Change): map<string, Node> {
    match c
    case Add(n, now) => Put(m, n, now)
    case Remove(name) => m - {name}
    case Replace(other) => AsMap(other)
  }

  function After(nodes: seq<Node>, changes: seq<Change>): seq<Node>
    decreases |changes|
  {
    if changes == [] then nodes else After(Changed(nodes, changes[0]), changes[1..])
  }

  ghost function AfterMap(m: map<string, Node>, changes: seq<Change>): map<string, Node>
    decreases |changes|
  {
    if changes == [] then m else AfterMap(ChangedMap(m, changes[0]), changes[1..])
  }

  /** Over every history in which only lists with unique names are taken over, names stay unique, and the
      list means what the same history makes of the map. */
  lemma {:induction false} HistoryRefinesMap(nodes: seq<Node>, changes: seq<Change>)
    requires Unique(nodes)
    requires forall c :: c in changes && c.Replace? ==> Unique(c.nodes)
    ensures Unique(After(nodes, changes)) && AsMap(After(nodes, changes)) == AfterMap(AsMap(nodes), changes)
    decreases |changes|
  {
    if changes != [] {
      match changes[0] {
        case Add(n, now) => UpsertUpdates(nodes, n, now);
        case Remove(name) => DroppedDeletes(nodes, name);
        case Replace(_) =>
      }
      HistoryRefinesMap(Changed(nodes, changes[0]), changes[1..]);
    }
  }

  lemma {:induction false} DroppingTheAbsent(nodes: seq<Node>, name: string)
    requires !Has(nodes, name)
    ensures Dropped(nodes, name) == nodes
  {
    if nodes != [] {
      assert nodes[0].name != name;
      assert forall i :: 0 <= i < |nodes[1..]| ==> nodes[1..][i] == nodes[i + 1];
      DroppingTheAbsent(nodes[1..], name);
    }
  }

  lemma {:induction false} DroppedSnoc(nodes: seq<Node>, last: Node, name: string)
    ensures Dropped(nodes + [last], name) == if last.name == name then Dropped(nodes, name) else Dropped(nodes, name) + [last]
  {
    if nodes != [] {
      assert (nodes + [last])[1..] == nodes[1..] + [last];
      DroppedSnoc(nodes[1..], last, name);
    } else {
      assert [last][1..] == [];
    }
  }
}

module Registries {
  import opened Rosters

  class Registry {
    var groupName: string
    var groupKey: string
    var buf: array<Node>     // the slice behind file.Nodes: its backing array and its length
    var len: nat

    ghost predicate Valid()
      reads this
    {
      len <= buf.Length
    }

    ghost function Nodes(): seq<Node>
      requires Valid()
      reads this, buf
    {
      buf[..len]
    }

    constructor ()
      ensures Valid() && Nodes() == [] && groupName == "" && groupKey == "" && fresh(buf)
    {
      groupName, groupKey, len := "", "", 0;
      buf := new Node[0];
    }

    predicate HasGroup()
      reads this
    {
      groupName != "" && groupKey != ""
    }

    predicate VerifyKey(key: string)
      reads this
      ensures VerifyKey(key) <==> groupKey != "" && key == groupKey
    {
      groupKey != "" && groupKey == key
    }

    /** Fails, and changes nothing, exactly when there is a group already. */
    method CreateGroup(name: string, key: string, selfName: string, selfURL: string, now: nat) returns (ok: bool)
      requires Valid()
      modifies this
      ensures Valid() && ok == (old(groupName) == "")
      ensures ok ==> fresh(buf) && groupName == name && groupKey == key && Nodes() == [Node(selfName, selfURL, now)]
      ensures !ok ==> groupName == old(groupName) && groupKey == old(groupKey) && buf == old(buf) && len == old(len)
    {
      if groupName != "" {
        return false;
      }
      groupName, groupKey := name, key;
      buf := new Node[1](_ => Node(selfName, selfURL, now));
      len := 1;
      return true;
    }

    /** Go's append: in place while the backing array has room, else into a longer copy. */
    method Append(n: Node)
      requires Valid()
      modifies this`buf, this`len, buf
      ensures Valid() && Nodes() == old(Nodes()) + [n]
      ensures buf == old(buf) || fresh(buf)
    {
      if len < buf.Length {
        buf[len] := n;
      } else {
        var longer := new Node[2 * len + 1](_ => n);
        for i := 0 to len
          invariant Valid() && buf == old(buf) && len == old(len) && buf[..] == old(buf[..])
          invariant longer.Length == 2 * len + 1 && longer[..i] == buf[..i]
          invariant forall j :: i <= j < longer.Length ==> longer[j] == n
        {
          longer[i] := buf[i];
        }
        buf := longer;
      }
      len := len + 1;
    }

    /** Idempotent by name; refused exactly when the name or the URL is missing. */
    method AddNode(n: Node, now: nat) returns (ok: bool)
      requires Valid()
      modifies this`buf, this`len, buf
      ensures Valid() && ok == (n.name != "" && n.url != "")
      ensures Nodes() == if ok then Upsert(old(Nodes()), n, now) else old(Nodes())
      ensures ok ==> exists k :: StoredAt(old(Nodes()), Nodes(), n, now, k)
      ensures buf == old(buf) || fresh(buf)
    {
      if n.name == "" || n.url == "" {
        return false;
      }
      UpsertShape(Nodes(), n, now);
      UpsertStores(Nodes(), n, now);
      for i := 0 to len
        invariant Valid() && buf == old(buf) && len == old(len) && Nodes() == old(Nodes())
        invariant forall j :: 0 <= j < i ==> buf[j].name != n.name
      {
        if buf[i].name == n.name {
          assert Has(Nodes(), n.name) by { assert Nodes()[i].name == n.name; }
          buf[i] := Dated(buf[i], n);
          assert Nodes() == old(Nodes())[i := Dated(old(Nodes())[i], n)];
          return true;
        }
      }
      assert !Has(Nodes(), n.name);
      Append(Stamped(n, now));
      return true;
    }

    /** Compacts the list over its own backing array. */
    method RemoveNode(name: string) returns (removed: bool)
      requires Valid()
      modifies this`len, buf
      ensures Valid() && removed == Has(old(Nodes()), name)
      ensures Nodes() == Dropped(old(Nodes()), name)
    {
      removed := false;
      ghost var before := Nodes();
      var kept := 0;
      for i := 0 to len
        invariant kept <= i && len == old(len) && len <= buf.Length && |before| == len
        invariant buf[..kept] == Dropped(before[..i], name)
        invariant forall j :: i <= j < len ==> buf[j] == before[j]
        invariant removed == Has(before[..i], name)
      {
        OneMoreSeen(before, i, name);
        if buf[i].name == name {
          removed := true;
        } else {
          buf[kept] := buf[i];
          kept := kept + 1;
        }
      }
      assert before[..len] == before;
      len := kept;
    }

    static lemma OneMoreSeen(nodes: seq<Node>, i: nat, name: string)
      requires i < |nodes|
      ensures Has(nodes[..i + 1], name) <==> Has(nodes[..i], name) || nodes[i].name == name
      ensures Dropped(nodes[..i + 1], name) ==
                if nodes[i].name == name then Dropped(nodes[..i], name) else Dropped(nodes[..i], name) + [nodes[i]]
    {
      assert nodes[..i + 1] == nodes[..i] + [nodes[i]];
      DroppedSnoc(nodes[..i], nodes[i], name);
      HasSnoc(nodes[..i], nodes[i], name);
    }

    static lemma HasSnoc(nodes: seq<Node>, last: Node, name: string)
      ensures Has(nodes + [last], name) <==> Has(nodes, name) || last.name == name
    {
      if Has(nodes, name) {
        var i :| 0 <= i < |nodes| && nodes[i].name == name;
        assert (nodes + [last])[i].name == name;
      }
      assert (nodes + [last])[|nodes|] == last;
    }

    method LeaveGroup()
      modifies this
      ensures Valid() && Nodes() == [] && groupName == "" && groupKey == "" && fresh(buf)
    {
      groupName, groupKey, len := "", "", 0;
      buf := new Node[0];
    }

    /** Takes over an exported group; refused exactly when its name or key is missing. */
    method Import(name: string, key: string, nodes: seq<Node>) returns (ok: bool)
      requires Valid()
      modifies this
      ensures Valid() && ok == (name != "" && key != "")
      ensures ok ==> fresh(buf) && groupName == name && groupKey == key && Nodes() == nodes
      ensures !ok ==> groupName == old(groupName) && groupKey == old(groupKey) && buf == old(buf) && len == old(len)
    {
      if name == "" || key == "" {
        return false;
      }
      groupName, groupKey := name, key;
      buf := new Node[|nodes|](i requires 0 <= i < |nodes| => nodes[i]);
      len := |nodes|;
      return true;
    }
  }
}
