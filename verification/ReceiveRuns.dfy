/** Whole runs of one port: which of them leave the free queue's tail pointer behind, which states put it at
  * risk, and what the counters promise a task about to receive.
  */
module ReceiveRuns {
  import opened PriorityQueue
  import opened ReceiveSpec

  datatype PortOp<T> = Arrives(x: Item<T>, overwrite: bool) | Accepts | Releases(k: nat)

  /** Panics: the task finds no segment although the counters said there was one. */
  datatype Outcome<T> = Done(p: PortQueues<T>) | Blocks | Panics | Rejected

  function CountTotal<T>(p: PortQueues<T>): nat {
    |p.fq| + |p.pq| + |p.stranded|
  }

  function CountFree<T>(p: PortQueues<T>): nat {
    CountOf(p.held, false)
  }

  function Step<T>(p: PortQueues<T>, op: PortOp<T>): Outcome<T>
    requires |p.fq| == |p.held| && |p.pq| == |p.queue|
  {
    match op
    case Arrives(x, overwrite) => Done(Arrive(p, x, overwrite))
    case Accepts =>
      if CountFree(p) == CountTotal(p) then Blocks
      else if p.queue == [] then Panics
      else Done(Accept(p))
    case Releases(k) =>
      if k < |p.held| && p.held[k] then Done(ReleaseAt(p, k)) else Rejected
  }

  /** Refused and blocked calls leave the queues as they were. */
  function After<T>(p: PortQueues<T>, op: PortOp<T>): (q: PortQueues<T>)
    requires |p.fq| == |p.held| && |p.pq| == |p.queue|
    ensures |q.fq| == |q.held| && |q.pq| == |q.queue|
  {
    var o := Step(p, op);
    if o.Done? then o.p else p
  }

  // ---------------------------------------------------------------- counters

  lemma {:induction false} CountsBound(held: seq<bool>)
    ensures CountOf(held, false) <= |held|
    ensures CountOf(held, false) == |held| <==> true !in held
  {
    if held != [] {
      CountsBound(held[1..]);
      assert true in held <==> held[0] || true in held[1..];
    }
  }

  /** Receiving succeeds at once exactly when a segment is queued, blocks exactly when the port has
    * nothing queued, held or stranded, and panics in all remaining states. */
  lemma ReceiveOutcome<T>(p: PortQueues<T>)
    requires Aligned(p)
    ensures Step(p, Accepts).Done? <==> p.queue != []
    ensures Step(p, Accepts).Blocks? <==> p.queue == [] && true !in p.held && p.stranded == {}
    ensures Step(p, Accepts).Panics? <==> p.queue == [] && (true in p.held || p.stranded != {})
  {
    CountsBound(p.held);
    if p.stranded != {} {
      var b :| b in p.stranded;
      assert |p.stranded| > 0;
    }
  }

  // ---------------------------------------------------------------- the tail pointer

  /** The arrival takes the last of several buffers from the free queue, whose tail pointer stays behind. */
  predicate LosesTail<T>(p: PortQueues<T>, op: PortOp<T>) {
    op.Arrives? && MissesTail(p.held, FirstWith(p.held, false))
  }

  /** The accept puts its buffer behind a tail pointer that has been left behind; the lists are wrong
    * afterwards. */
  predicate Breaks<T>(p: PortQueues<T>, op: PortOp<T>) {
    op.Accepts? && p.queue != [] && !p.tailRight
  }

  lemma StepKeepsAligned<T>(p: PortQueues<T>, op: PortOp<T>)
    requires Aligned(p)
    ensures Aligned(After(p, op))
  {
    if op.Arrives? {
      if FirstWith(p.held, false) < |p.held| {
        InsertKeepsSorted(p.queue, op.x);
      } else if p.queue != [] {
        SortedFront(p.queue);
        InsertKeepsSorted(Front(p.queue), op.x);
      }
    }
  }

  /** A right tail pointer stays right exactly if the step does not leave it behind. */
  lemma StepKeepsTail<T>(p: PortQueues<T>, op: PortOp<T>)
    requires Aligned(p) && p.tailRight
    ensures After(p, op).tailRight <==> !LosesTail(p, op)
  {
  }

  /** Either no buffer is held, or the one at the tail of the free queue is. */
  predicate TailSafe(held: seq<bool>) {
    true !in held || held[|held| - 1]
  }

  /** Releasing the most recently accepted buffer while an older one is still held. */
  predicate OutOfOrder<T>(p: PortQueues<T>, op: PortOp<T>) {
    op.Releases? && op.k + 1 == |p.held| && p.held[op.k] && true in p.held[..op.k]
  }

  lemma ReleaseKeepsTail(held: seq<bool>, k: nat)
    requires TailSafe(held) && k < |held| && held[k]
    ensures TailSafe(held[k := false]) <==> !(k + 1 == |held| && true in held[..k])
  {
    var h := held[k := false];
    if k + 1 == |held| {
      assert held == held[..k] + [true] && h == held[..k] + [false];
    } else {
      assert held[k] in held;
    }
  }

  /** No step from a safe state leaves the tail pointer behind, and it leaves the state safe exactly when it
    * is not an out-of-order release. */
  lemma StepKeepsSafe<T>(p: PortQueues<T>, op: PortOp<T>)
    requires Aligned(p) && TailSafe(p.held)
    ensures !LosesTail(p, op)
    ensures TailSafe(After(p, op).held) <==> !OutOfOrder(p, op)
  {
    match op
    case Arrives(_, _) =>
    case Accepts =>
    case Releases(k) =>
      if k < |p.held| && p.held[k] {
        ReleaseKeepsTail(p.held, k);
      }
  }

  /** Taking a free buffer that is not the last leaves an unsafe state unsafe. */
  lemma TakingKeepsUnsafe(held: seq<bool>, k: nat)
    requires !TailSafe(held) && k == FirstWith(held, false) && k + 1 < |held|
    ensures !TailSafe(Without(held, k))
  {
    var i :| 0 <= i < |held| && held[i];
    var after := Without(held, k);
    assert !after[|after| - 1];
    assert after[if i < k then i else i - 1];
  }

  /** In an unsafe state a free buffer found in the last place is not alone. */
  lemma LastFreeMissesTail(held: seq<bool>, k: nat)
    requires !TailSafe(held) && k == FirstWith(held, false) && k + 1 == |held|
    ensures MissesTail(held, k)
  {
    var i :| 0 <= i < |held| && held[i];
    assert i != k;
  }

  // ---------------------------------------------------------------- runs

  function Run<T>(p: PortQueues<T>, ops: seq<PortOp<T>>): (q: PortQueues<T>)
    requires |p.fq| == |p.held| && |p.pq| == |p.queue|
    ensures |q.fq| == |q.held| && |q.pq| == |q.queue|
    decreases |ops|
  {
    if ops == [] then p else Run(After(p, ops[0]), ops[1..])
  }

  predicate NeverLosesTail<T>(p: PortQueues<T>, ops: seq<PortOp<T>>)
    requires |p.fq| == |p.held| && |p.pq| == |p.queue|
    decreases |ops|
  {
    ops == [] || (!LosesTail(p, ops[0]) && NeverLosesTail(After(p, ops[0]), ops[1..]))
  }

  predicate TailStaysRight<T>(p: PortQueues<T>, ops: seq<PortOp<T>>)
    requires |p.fq| == |p.held| && |p.pq| == |p.queue|
    decreases |ops|
  {
    p.tailRight && (ops == [] || TailStaysRight(After(p, ops[0]), ops[1..]))
  }

  /** No accept of the run puts a buffer behind a tail pointer left behind. */
  predicate Unbroken<T>(p: PortQueues<T>, ops: seq<PortOp<T>>)
    requires |p.fq| == |p.held| && |p.pq| == |p.queue|
    decreases |ops|
  {
    ops == [] || (!Breaks(p, ops[0]) && Unbroken(After(p, ops[0]), ops[1..]))
  }

  /** The tail pointer is right at every moment of a run exactly if no arrival has taken the last of several
    * buffers; and then no accept goes wrong. */
  lemma {:induction false} TailStaysRightExactly<T>(p: PortQueues<T>, ops: seq<PortOp<T>>)
    requires Aligned(p) && p.tailRight
    ensures TailStaysRight(p, ops) <==> NeverLosesTail(p, ops)
    ensures TailStaysRight(p, ops) ==> Unbroken(p, ops)
    decreases |ops|
  {
    if ops != [] {
      StepKeepsAligned(p, ops[0]);
      StepKeepsTail(p, ops[0]);
      if After(p, ops[0]).tailRight {
        TailStaysRightExactly(After(p, ops[0]), ops[1..]);
      }
    }
  }

  ghost predicate InOrder<T>(p: PortQueues<T>, ops: seq<PortOp<T>>)
    requires |p.fq| == |p.held| && |p.pq| == |p.queue|
    decreases |ops|
  {
    ops == [] || (!OutOfOrder(p, ops[0]) && InOrder(After(p, ops[0]), ops[1..]))
  }

  /** What a task can see to: a run that never releases out of order never loses the tail pointer. */
  lemma {:induction false} InOrderRunsKeepTail<T>(p: PortQueues<T>, ops: seq<PortOp<T>>)
    requires Aligned(p) && TailSafe(p.held) && InOrder(p, ops)
    ensures NeverLosesTail(p, ops) && TailSafe(Run(p, ops).held)
    decreases |ops|
  {
    if ops != [] {
      StepKeepsAligned(p, ops[0]);
      StepKeepsSafe(p, ops[0]);
      InOrderRunsKeepTail(After(p, ops[0]), ops[1..]);
    }
  }

  function Arrivals<T>(x: Item<T>, overwrite: bool, n: nat): seq<PortOp<T>> {
    seq(n, _ => Arrives(x, overwrite))
  }

  lemma ArrivalsFirst<T>(p: PortQueues<T>, x: Item<T>, overwrite: bool, n: nat)
    requires |p.fq| == |p.held| && |p.pq| == |p.queue| && n > 0
    ensures var next := After(p, Arrives(x, overwrite));
            && (NeverLosesTail(p, Arrivals(x, overwrite, n)) <==>
                  !LosesTail(p, Arrives(x, overwrite)) && NeverLosesTail(next, Arrivals(x, overwrite, n - 1)))
            && (InOrder(next, Arrivals(x, overwrite, n - 1)) ==> InOrder(p, Arrivals(x, overwrite, n)))
  {
    assert Arrivals(x, overwrite, n)[1..] == Arrivals(x, overwrite, n - 1);
  }

  /** An arrival that finds a free buffer takes it. */
  lemma ArrivalTakes<T>(p: PortQueues<T>, x: Item<T>, overwrite: bool)
    requires Aligned(p) && FirstWith(p.held, false) < |p.held|
    ensures Aligned(After(p, Arrives(x, overwrite)))
    ensures After(p, Arrives(x, overwrite)).held == Without(p.held, FirstWith(p.held, false))
  {
    InsertKeepsSorted(p.queue, x);
  }

  lemma UnsafeHasFree(held: seq<bool>)
    requires !TailSafe(held)
    ensures FirstWith(held, false) < |held|
  {
    assert !held[|held| - 1];
  }

  lemma {:induction false} CountTaken(held: seq<bool>, k: nat)
    requires k == FirstWith(held, false) < |held|
    ensures CountOf(held, false) == CountOf(Without(held, k), false) + 1
  {
    if k == 0 {
      assert Without(held, 0) == held[1..];
    } else {
      CountTaken(held[1..], k - 1);
      assert Without(held, k)[1..] == Without(held[1..], k - 1);
    }
  }

  /** From an unsafe state, as many arrivals as there are free buffers leave the tail pointer behind. */
  lemma {:induction false} UnsafeLosesTail<T>(p: PortQueues<T>, x: Item<T>, overwrite: bool)
    requires Aligned(p) && !TailSafe(p.held)
    ensures !NeverLosesTail(p, Arrivals(x, overwrite, CountFree(p)))
    decreases |p.held|
  {
    var k := FirstWith(p.held, false);
    UnsafeHasFree(p.held);
    CountTaken(p.held, k);
    ArrivalsFirst(p, x, overwrite, CountFree(p));
    if k + 1 < |p.held| {
      TakingKeepsUnsafe(p.held, k);
      ArrivalTakes(p, x, overwrite);
      UnsafeLosesTail(After(p, Arrives(x, overwrite)), x, overwrite);
    } else {
      LastFreeMissesTail(p.held, k);
    }
  }

  lemma {:induction false} ArrivalsInOrder<T>(p: PortQueues<T>, x: Item<T>, overwrite: bool, n: nat)
    requires |p.fq| == |p.held| && |p.pq| == |p.queue|
    ensures InOrder(p, Arrivals(x, overwrite, n))
    decreases n
  {
    if n > 0 {
      ArrivalsFirst(p, x, overwrite, n);
      ArrivalsInOrder(After(p, Arrives(x, overwrite)), x, overwrite, n - 1);
    }
  }

  /** Arrivals alone can leave the tail pointer of a state behind exactly when it is unsafe. */
  lemma TailAtRiskExactly<T>(p: PortQueues<T>, x: Item<T>)
    requires Aligned(p)
    ensures TailSafe(p.held) <==> forall n: nat, overwrite: bool :: NeverLosesTail(p, Arrivals(x, overwrite, n))
  {
    if TailSafe(p.held) {
      forall n: nat, overwrite: bool ensures NeverLosesTail(p, Arrivals(x, overwrite, n)) {
        ArrivalsInOrder(p, x, overwrite, n);
        InOrderRunsKeepTail(p, Arrivals(x, overwrite, n));
      }
    } else {
      UnsafeLosesTail(p, x, true);
    }
  }

  // ---------------------------------------------------------------- steps of concrete runs

  /** A segment of the lowest priority yet takes the first free buffer to the end of the port queue. */
  lemma ArrivesLast<T>(p: PortQueues<T>, x: Item<T>)
    requires p.fq != [] && |p.fq| == |p.held| && |p.pq| == |p.queue| && !p.held[0] && p.tailRight
    requires Place(p.queue, x.prio) == |p.queue|
    ensures After(p, Arrives(x, true)) ==
            p.(fq := p.fq[1..], held := p.held[1..], pq := p.pq + [p.fq[0]], queue := p.queue + [x])
  {
    assert Without(p.fq, 0) == p.fq[1..] && Without(p.held, 0) == p.held[1..];
    assert Spliced(p.pq, |p.pq|, p.fq[0]) == p.pq + [p.fq[0]];
    assert StableInsert(p.queue, x) == p.queue + [x];
  }
}
