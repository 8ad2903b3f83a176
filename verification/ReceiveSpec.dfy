/** One port's receive queues as values.  The free queue mixes empty buffers with buffers the task has
  * accepted and not yet released (held); the port queue holds the segments still to be accepted.
  */
module ReceiveSpec {
  import opened PriorityQueue

  /** fq and held run in parallel, and so do pq and queue.  Stranded buffers are counted as the port's
    * but are in neither queue.  tailRight: the free queue's tail pointer names its last buffer, or the
    * queue is empty and the pointer does not matter. */
  datatype PortQueues<T> = PortQueues(fq: seq<nat>, held: seq<bool>, pq: seq<nat>, queue: seq<Item<T>>,
                                      stranded: set<nat>, tailRight: bool)

  function Empty<T>(): PortQueues<T> {
    PortQueues([], [], [], [], {}, true)
  }

  ghost predicate Aligned<T>(p: PortQueues<T>) {
    |p.fq| == |p.held| && |p.pq| == |p.queue| && Sorted(p.queue) && (p.fq == [] ==> p.tailRight)
  }

  /** Index of the first buffer that is held (or not), or the end. */
  function FirstWith(held: seq<bool>, h: bool): (k: nat)
    ensures k <= |held|
    ensures k < |held| ==> held[k] == h
    ensures forall i :: 0 <= i < k ==> held[i] != h
  {
    if held == [] || held[0] == h then 0 else 1 + FirstWith(held[1..], h)
  }

  function CountOf(held: seq<bool>, h: bool): nat {
    if held == [] then 0 else (if held[0] == h then 1 else 0) + CountOf(held[1..], h)
  }

  lemma {:induction false} CountsAddUp(held: seq<bool>)
    ensures CountOf(held, true) + CountOf(held, false) == |held|
  {
    if held != [] {
      CountsAddUp(held[1..]);
    }
  }

  /** The removal that leaves the tail pointer behind: last in the free queue but not alone in it. */
  predicate MissesTail(held: seq<bool>, k: nat) {
    0 < k && k + 1 == |held|
  }

  /** The removal of the buffer at index k.  A tail pointer left behind matters no more once the queue
    * is empty. */
  function TakeFree<T>(p: PortQueues<T>, k: nat): PortQueues<T>
    requires k < |p.fq| && k < |p.held|
  {
    p.(fq := Without(p.fq, k), held := Without(p.held, k),
       tailRight := |p.fq| == 1 || (p.tailRight && !MissesTail(p.held, k)))
  }

  function Front<X>(s: seq<X>): seq<X>
    requires s != []
  {
    s[..|s| - 1]
  }

  /** The eviction that loses the evicting segment: it belongs exactly where the evicted one was. */
  predicate Strands<T>(queue: seq<Item<T>>, prio: int) {
    |queue| >= 2 && queue[|queue| - 1].prio < prio <= queue[|queue| - 2].prio
  }

  function Replaces<T>(queue: seq<Item<T>>, prio: int, overwrite: bool): bool
    requires queue != []
  {
    queue[|queue| - 1].prio < prio || (queue[|queue| - 1].prio == prio && overwrite)
  }

  /** The last segment makes room for x, or both are lost. */
  function Evict<T>(p: PortQueues<T>, x: Item<T>): PortQueues<T>
    requires |p.pq| == |p.queue| && p.queue != []
  {
    if Strands(p.queue, x.prio) then
      p.(pq := Front(p.pq), queue := Front(p.queue), stranded := p.stranded + {p.pq[|p.pq| - 1]})
    else
      p.(pq := Spliced(Front(p.pq), Place(Front(p.queue), x.prio), p.pq[|p.pq| - 1]),
         queue := StableInsert(Front(p.queue), x))
  }

  /** A segment arrives for the port. */
  function Arrive<T>(p: PortQueues<T>, x: Item<T>, overwrite: bool): PortQueues<T>
    requires |p.fq| == |p.held| && |p.pq| == |p.queue|
  {
    var f := FirstWith(p.held, false);
    if f < |p.held| then
      TakeFree(p, f).(pq := Spliced(p.pq, Place(p.queue, x.prio), p.fq[f]), queue := StableInsert(p.queue, x))
    else if p.queue == [] || !Replaces(p.queue, x.prio, overwrite) then
      p
    else
      Evict(p, x)
  }

  /** The task accepts the head segment: its buffer moves, held, to the tail of the free queue.  The code
    * does this only while the tail pointer is right. */
  function Accept<T>(p: PortQueues<T>): PortQueues<T>
    requires p.pq != [] && p.queue != []
  {
    p.(fq := p.fq + [p.pq[0]], held := p.held + [true], pq := p.pq[1..], queue := p.queue[1..])
  }

  /** The task releases the held buffer at index k of the free queue. */
  function ReleaseAt<T>(p: PortQueues<T>, k: nat): PortQueues<T>
    requires k < |p.held|
  {
    p.(held := p.held[k := false])
  }

  /** A fresh buffer is given to the port, while the tail pointer is right. */
  function Grant<T>(p: PortQueues<T>, b: nat): PortQueues<T> {
    p.(fq := p.fq + [b], held := p.held + [false])
  }

  // ---------------------------------------------------------------- buffers back in the pool

  predicate Unallocated(unalloc: seq<bool>, b: nat) {
    b < |unalloc| && unalloc[b]
  }

  /** Marks the buffers that go back to the pool. */
  function GiveBack(unalloc: seq<bool>, bufs: seq<nat>): (u: seq<bool>)
    ensures |u| == |unalloc|
  {
    if bufs == [] then unalloc
    else
      var rest := GiveBack(unalloc, bufs[1..]);
      if bufs[0] < |unalloc| then rest[bufs[0] := true] else rest
  }

  lemma {:induction false} GiveBackMarks(u: seq<bool>, bufs: seq<nat>, b: nat)
    ensures Unallocated(GiveBack(u, bufs), b) <==> Unallocated(u, b) || (b < |u| && b in bufs)
  {
    if bufs != [] {
      GiveBackMarks(u, bufs[1..], b);
      assert b in bufs <==> b == bufs[0] || b in bufs[1..];
    }
  }

  // ---------------------------------------------------------------- what arrivals promise

  /** With a free buffer the segment is queued stably and nothing is lost. */
  lemma ArriveWithRoom<T>(p: PortQueues<T>, x: Item<T>, overwrite: bool)
    requires Aligned(p) && false in p.held
    ensures Arrive(p, x, overwrite).queue == StableInsert(p.queue, x)
    ensures Arrive(p, x, overwrite).stranded == p.stranded
    ensures Aligned(Arrive(p, x, overwrite))
  {
    assert FirstWith(p.held, false) < |p.held|;
    InsertKeepsSorted(p.queue, x);
  }

  /** What a full port is meant to hold after an arrival: the new segment evicts the last one if it
    * outranks it, or ties with it under OVERWRITE. */
  function Intended<T>(queue: seq<Item<T>>, x: Item<T>, overwrite: bool): seq<Item<T>> {
    if queue == [] then []
    else
      var last := queue[|queue| - 1].prio;
      if last < x.prio || (last == x.prio && overwrite) then StableInsert(Front(queue), x) else queue
  }

  /** A full port holds what it is meant to, and loses no buffer, except exactly when the new segment's
    * priority falls between the last two queued; then it loses the last segment and the new one. */
  lemma ArriveWhenFull<T>(p: PortQueues<T>, x: Item<T>, overwrite: bool)
    requires Aligned(p) && false !in p.held
    requires p.pq != [] ==> p.pq[|p.pq| - 1] !in p.stranded
    ensures var q, last := Arrive(p, x, overwrite), |p.queue| - 1;
            var between := last > 0 && p.queue[last].prio < x.prio <= p.queue[last - 1].prio;
            && q.fq == p.fq && q.held == p.held && Aligned(q)
            && (q.queue == Intended(p.queue, x, overwrite) <==> !between)
            && (q.stranded == p.stranded <==> !between)
            && (between ==> q.queue == p.queue[..last] && q.stranded == p.stranded + {p.pq[last]})
  {
    assert FirstWith(p.held, false) == |p.held|;
    var q := Arrive(p, x, overwrite);
    if p.queue != [] && Replaces(p.queue, x.prio, overwrite) {
      SortedFront(p.queue);
      InsertKeepsSorted(Front(p.queue), x);
      if Strands(p.queue, x.prio) {
        assert |q.queue| < |p.queue| == |Intended(p.queue, x, overwrite)|;
        assert p.pq[|p.pq| - 1] in q.stranded;
      }
    }
  }

  /** On a tie the policy decides between the last segment and the new one. */
  lemma TieAtFullPort<T>(p: PortQueues<T>, x: Item<T>, overwrite: bool)
    requires Aligned(p) && false !in p.held && p.queue != [] && p.queue[|p.queue| - 1].prio == x.prio
    ensures Arrive(p, x, overwrite).queue == if overwrite then p.queue[..|p.queue| - 1] + [x] else p.queue
    ensures Arrive(p, x, overwrite).stranded == p.stranded
  {
    assert FirstWith(p.held, false) == |p.held|;
    SortedPairs(p.queue);
    var front := Front(p.queue);
    PlaceSplits(front, x.prio);
    assert Place(front, x.prio) == |front|;
    assert StableInsert(front, x) == front + [x];
  }

  lemma SortedFront<T>(q: seq<Item<T>>)
    requires Sorted(q) && q != []
    ensures Sorted(Front(q))
  {
    SortedPairs(q);
    SortedPairs(Front(q));
  }

  /** Three segments of priorities 5, 3 and 1 fill a port; one of priority 2 arrives, and two remain. */
  lemma EvictionLosesASegment()
    ensures var p := PortQueues([], [], [0, 1, 2], [Item(5, 'a'), Item(3, 'b'), Item(1, 'c')], {}, true);
            && Aligned(p)
            && Arrive(p, Item(2, 'd'), true).queue == [Item(5, 'a'), Item(3, 'b')]
            && Intended(p.queue, Item(2, 'd'), true) == [Item(5, 'a'), Item(3, 'b'), Item(2, 'd')]
  {
    var front := [Item(5, 'a'), Item(3, 'b')];
    var p := PortQueues([], [], [0, 1, 2], front + [Item(1, 'c')], {}, true);
    assert Front(p.queue) == front;
    assert Place(front, 2) == 2 by { assert front[1..] == [Item(3, 'b')]; }
    SortedPairs(p.queue);
  }
}
