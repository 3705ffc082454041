/** internal/session/queue.go: the queue of waiting requests, and the drain pass of the broker. */
module Queues {
  import opened Options

  /** What a waiting request may be told. */
  datatype Answer = Served(inst: nat) | Failed(error: nat)

  class QueueEntry {
    const profile: string
    var answer: Option<Answer>   // the content of ResultCh, a channel of capacity one

    constructor (profile: string)
      ensures this.profile == profile && answer == None
    {
      this.profile, answer := profile, None;
    }
  }

  class Queue {
    const maxSize: nat
    var entries: seq<QueueEntry>

    constructor (maxSize: nat)
      ensures this.maxSize == maxSize && entries == []
    {
      this.maxSize, entries := maxSize, [];
    }

    /** No entry waits twice. */
    ghost predicate Valid()
      reads this
    {
      forall i, j | 0 <= i < j < |entries| :: entries[i] != entries[j]
    }

    /** The locked part of Enqueue: refused exactly when the queue is at its size limit or beyond. */
    method Enqueue(profile: string) returns (entry: QueueEntry?)
      requires Valid()
      modifies this`entries
      ensures Valid()
      ensures entry == null <==> |old(entries)| >= maxSize
      ensures entry == null ==> entries == old(entries)
      ensures entry != null ==>
                fresh(entry) && entry.profile == profile && entry.answer == None && entries == old(entries) + [entry]
    {
      if |entries| >= maxSize {
        return null;
      }
      var e := new QueueEntry(profile);
      entries := entries + [e];
      return e;
    }

    method TryDequeue() returns (entry: QueueEntry?)
      requires Valid()
      modifies this`entries
      ensures Valid()
      ensures entry == null <==> old(entries) == []
      ensures entry == null ==> entries == []
      ensures entry != null ==> old(entries) == [entry] + entries
    {
      if |entries| == 0 {
        return null;
      }
      entry := entries[0];
      entries := entries[1..];
    }

    method PushFront(entry: QueueEntry)
      requires Valid() && entry !in entries
      modifies this`entries
      ensures Valid() && entries == [entry] + old(entries)
    {
      entries := [entry] + entries;
    }

    /** Takes the one entry out, wherever it is, and leaves the others in order; does nothing when it is not
        there. */
    method Remove(target: QueueEntry)
      requires Valid()
      modifies this`entries
      ensures Valid() && target !in entries
      ensures target !in old(entries) ==> entries == old(entries)
      ensures target in old(entries) ==>
                exists k :: 0 <= k < |old(entries)| && old(entries)[k] == target
                  && entries == old(entries)[..k] + old(entries)[k + 1..]
    {
      for i := 0 to |entries|
        invariant entries == old(entries)
        invariant target !in entries[..i]
      {
        if entries[i] == target {
          entries := entries[..i] + entries[i + 1..];
          return;
        }
      }
    }

    function Depth(): nat
      reads this
    {
      |entries|
    }
  }

  /** What pool.Allocate gives the n-th time it is asked. */
  datatype Outcome = Got(inst: nat) | Exhausted | Broken(error: nat)

  /** What the waiting request is told for an outcome that is passed on to it. */
  function Told(outcome: Outcome): Option<Answer> {
    match outcome
    case Got(inst) => Some(Served(inst))
    case Broken(error) => Some(Failed(error))
    case Exhausted => None
  }

  /** tryDrainQueue while nobody enqueues: it ends, it answers a prefix of the queue in arrival order, each
      request once with the next outcome of the pool, and leaves the rest as it was. All answers but the
      last are sessions; when it leaves requests waiting, either the pool was exhausted for the first of
      them, which is back in front, or the last answer was an error. */
  method TryDrainQueue(q: Queue, outcomes: seq<Outcome>) returns (answered: nat)
    requires q.Valid() && |outcomes| >= |q.entries|   // one outcome for each request it can ask for
    requires forall e :: e in q.entries ==> e.answer == None
    modifies q`entries, q.entries
    ensures q.Valid()
    ensures answered <= |old(q.entries)| && q.entries == old(q.entries)[answered..]
    ensures forall k :: 0 <= k < answered ==> old(q.entries)[k].answer == Told(outcomes[k]) != None
    ensures forall k :: 0 <= k < answered && outcomes[k].Got? ==>
              old(q.entries)[k].answer == Some(Served(outcomes[k].inst))
    ensures forall k :: 0 <= k < answered && outcomes[k].Broken? ==>
              old(q.entries)[k].answer == Some(Failed(outcomes[k].error))
    ensures forall k :: answered <= k < |old(q.entries)| ==> old(q.entries)[k].answer == None
    ensures forall k :: 0 <= k < answered - 1 ==> outcomes[k].Got?
    ensures q.entries != [] ==>
              || (outcomes[answered].Exhausted? && (answered > 0 ==> outcomes[answered - 1].Got?))
              || (answered > 0 && outcomes[answered - 1].Broken?)
    decreases |q.entries|
  {
    if q.Depth() == 0 {
      return 0;
    }
    ghost var before := q.entries;
    var entry := q.TryDequeue();
    assert entry == before[0] && q.entries == before[1..];
    match outcomes[0] {
      case Exhausted =>
        q.PushFront(entry);
        return 0;
      case Broken(error) =>
        entry.answer := Some(Failed(error));
        return 1;
      case Got(inst) =>
        entry.answer := Some(Served(inst));
        var more := TryDrainQueue(q, outcomes[1..]);
        assert forall k :: 1 <= k < |before| ==> before[k] == before[1..][k - 1];
        assert forall k :: 1 <= k < |outcomes| ==> outcomes[k] == outcomes[1..][k - 1];
        return more + 1;
    }
  }

  /** A client is told it was served exactly when the pool granted a device, and with that device; it is told of
      a failure exactly when the pool failed for another reason than exhaustion, and of that one. */
  lemma ClientsAreToldTheTruth(outcome: Outcome, inst: nat, error: nat)
    ensures Told(outcome) == Some(Served(inst)) <==> outcome == Got(inst)
    ensures Told(outcome) == Some(Failed(error)) <==> outcome == Broken(error)
    ensures Told(outcome) == None <==> outcome == Exhausted
  {
  }

  /** drainQueue: one request at most; any failure of the pool, not only exhaustion, puts it back. */
  method DrainQueue(q: Queue, outcome: Outcome) returns (answered: nat)
    requires q.Valid()
    requires forall e :: e in q.entries ==> e.answer == None
    modifies q`entries, q.entries
    ensures q.Valid()
    ensures answered == if old(q.entries) != [] && outcome.Got? then 1 else 0
    ensures q.entries == old(q.entries)[answered..]
    ensures answered == 1 ==> old(q.entries)[0].answer == Told(outcome) == Some(Served(outcome.inst))
    ensures forall k :: answered <= k < |old(q.entries)| ==> old(q.entries)[k].answer == None
  {
    ghost var before := q.entries;
    var entry := q.TryDequeue();
    if entry == null {
      return 0;
    }
    assert entry == before[0] && q.entries == before[1..];
    if !outcome.Got? {
      q.PushFront(entry);
      return 0;
    }
    entry.answer := Some(Served(outcome.inst));
    return 1;
  }
}
