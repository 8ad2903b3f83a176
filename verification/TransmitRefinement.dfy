/** The transmit queues against a naive reference: a bag of packets in arrival order, scanned for the
  * oldest packet of the highest priority.
  */
module TransmitRefinement {
  import opened PriorityQueue

  // ---------------------------------------------------------------- the reference

  /** Index of the oldest item among those of the highest priority. */
  function OldestHighest<T>(backlog: seq<Item<T>>): (k: nat)
    requires backlog != []
    ensures k < |backlog|
    ensures forall i :: 0 <= i < |backlog| ==> backlog[i].prio <= backlog[k].prio
    ensures forall i :: 0 <= i < k ==> backlog[i].prio < backlog[k].prio
  {
    var last := |backlog| - 1;
    if last == 0 then 0
    else
      var k := OldestHighest(backlog[..last]);
      if backlog[last].prio > backlog[k].prio then last else k
  }

  datatype Op<T> = Insert(x: Item<T>) | Remove | Release

  datatype Result<T> = Accepted | Refused | Sent(x: Item<T>) | Idle | Released

  /** waiting: packets not yet handed to the sending task; taken: buffers it holds; n: pool size. */
  datatype Bag<T> = Bag(n: nat, waiting: seq<Item<T>>, taken: nat)

  function BagStep<T>(s: Bag<T>, op: Op<T>): (Bag<T>, Result<T>) {
    match op
    case Insert(x) =>
      if |s.waiting| + s.taken < s.n then (s.(waiting := s.waiting + [x]), Accepted) else (s, Refused)
    case Remove =>
      if s.waiting == [] then (s, Idle)
      else
        var k := OldestHighest(s.waiting);
        (s.(waiting := Without(s.waiting, k), taken := s.taken + 1), Sent(s.waiting[k]))
    case Release =>
      if s.taken == 0 then (s, Idle) else (s.(taken := s.taken - 1), Released)
  }

  // ---------------------------------------------------------------- the queues

  /** The manager's queues as its operations' contracts describe them. */
  datatype Queues<T> = Queues(free: nat, active: seq<Item<T>>, taken: nat)

  function QueueStep<T>(s: Queues<T>, op: Op<T>): (Queues<T>, Result<T>) {
    match op
    case Insert(x) =>
      if s.free == 0 then (s, Refused)
      else (s.(free := s.free - 1, active := StableInsert(s.active, x)), Accepted)
    case Remove =>
      if s.active == [] then (s, Idle)
      else (s.(active := s.active[1..], taken := s.taken + 1), Sent(s.active[0]))
    case Release =>
      if s.taken == 0 then (s, Idle) else (s.(taken := s.taken - 1, free := s.free + 1), Released)
  }

  function BagRun<T>(s: Bag<T>, ops: seq<Op<T>>): seq<Result<T>>
    decreases |ops|
  {
    if ops == [] then [] else [BagStep(s, ops[0]).1] + BagRun(BagStep(s, ops[0]).0, ops[1..])
  }

  function QueueRun<T>(s: Queues<T>, ops: seq<Op<T>>): seq<Result<T>>
    decreases |ops|
  {
    if ops == [] then [] else [QueueStep(s, ops[0]).1] + QueueRun(QueueStep(s, ops[0]).0, ops[1..])
  }

  // ---------------------------------------------------------------- refinement

  function StableSort<T>(backlog: seq<Item<T>>): (q: seq<Item<T>>)
    ensures |q| == |backlog|
  {
    if backlog == [] then []
    else StableInsert(StableSort(backlog[..|backlog| - 1]), backlog[|backlog| - 1])
  }

  /** An item that does not outrank the head leaves the head in front. */
  lemma InsertBehindHead<T>(q: seq<Item<T>>, x: Item<T>)
    requires q != [] && x.prio <= q[0].prio
    ensures StableInsert(q, x) == [q[0]] + StableInsert(q[1..], x)
  {
    assert q == [q[0]] + q[1..];
    SplicedCons(q[0], q[1..], Place(q[1..], x.prio), x);
  }

  lemma InsertAhead<T>(q: seq<Item<T>>, x: Item<T>)
    requires q != [] ==> x.prio > q[0].prio
    ensures StableInsert(q, x) == [x] + q
  {
  }

  lemma WithoutFront<T>(front: seq<T>, x: T, j: nat)
    requires j < |front|
    ensures Without(front + [x], j) == Without(front, j) + [x]
    ensures Without(front + [x], |front|) == front
  {
  }

  /** q is the scan's choice k from the backlog, followed by the sorted remainder. */
  ghost predicate LeadsWith<T>(q: seq<Item<T>>, backlog: seq<Item<T>>, k: nat) {
    k < |backlog| && q == [backlog[k]] + StableSort(Without(backlog, k))
  }

  lemma LeadsWithAppend<T>(q: seq<Item<T>>, front: seq<Item<T>>, x: Item<T>, j: nat)
    requires LeadsWith(q, front, j) && q == StableSort(front)
    ensures x.prio > front[j].prio ==> LeadsWith(StableInsert(q, x), front + [x], |front|)
    ensures x.prio <= front[j].prio ==> LeadsWith(StableInsert(q, x), front + [x], j)
  {
    WithoutFront(front, x, j);
    if x.prio > front[j].prio {
      InsertAhead(q, x);
    } else {
      InsertBehindHead(q, x);
      assert q[1..] == StableSort(Without(front, j));
    }
  }

  /** The head of the sorted queue is what the scan finds, and the rest is the sorted remainder. */
  lemma {:induction false} HeadIsOldestHighest<T>(backlog: seq<Item<T>>)
    requires backlog != []
    ensures LeadsWith(StableSort(backlog), backlog, OldestHighest(backlog))
    decreases |backlog|
  {
    var front, x := backlog[..|backlog| - 1], backlog[|backlog| - 1];
    assert backlog == front + [x];
    if front == [] {
      assert Without(backlog, 0) == [] && StableSort(backlog) == [x];
    } else {
      HeadIsOldestHighest(front);
      LeadsWithAppend(StableSort(front), front, x, OldestHighest(front));
    }
  }

  ghost predicate Refines<T>(s: Queues<T>, b: Bag<T>) {
    s.active == StableSort(b.waiting) && s.taken == b.taken && s.free + |s.active| + s.taken == b.n
  }

  lemma StepRefines<T>(s: Queues<T>, b: Bag<T>, op: Op<T>)
    requires Refines(s, b)
    ensures Refines(QueueStep(s, op).0, BagStep(b, op).0)
    ensures QueueStep(s, op).1 == BagStep(b, op).1
  {
    match op
    case Insert(x) =>
      assert (b.waiting + [x])[..|b.waiting|] == b.waiting;
    case Remove =>
      if b.waiting != [] {
        HeadIsOldestHighest(b.waiting);
      }
    case Release =>
  }

  /** Over any interleaving of inserts, removals and releases the queues answer as the bag does. */
  lemma {:induction false} RunsAgree<T>(s: Queues<T>, b: Bag<T>, ops: seq<Op<T>>)
    requires Refines(s, b)
    ensures QueueRun(s, ops) == BagRun(b, ops)
    decreases |ops|
  {
    if ops != [] {
      StepRefines(s, b, ops[0]);
      RunsAgree(QueueStep(s, ops[0]).0, BagStep(b, ops[0]).0, ops[1..]);
    }
  }

  lemma QueueRefinesBag<T>(n: nat, ops: seq<Op<T>>)
    ensures QueueRun(Queues(n, [], 0), ops) == BagRun(Bag(n, [], 0), ops)
  {
    RunsAgree(Queues(n, [], 0), Bag(n, [], 0), ops);
  }
}
