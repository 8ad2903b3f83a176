/** The transmit buffer manager: one pool threaded through a free queue and an active queue that is
  * kept in priority order, with head and tail pointers and a counter for each.
  *
  * Its view holds the buffer array, both queues and the buffers that callers have taken.
  */
module TransmitQueue {
  import opened PriorityQueue
  import opened LinkedBuffers
  import opened BufferPlaces
  import opened TransmitRefinement

  /** The manager's fields, with the chains and the buffers taken out of both queues. */
  datatype View<P> = View(mem: seq<Buffer<P>>, pool: set<nat>,
                          free: seq<nat>, head_fq: int, tail_fq: int, count_fq: int,
                          active: seq<nat>, head_aq: int, tail_aq: int, count_aq: int,
                          taken: set<nat>)

  ghost predicate Consistent<P>(v: View<P>) {
    && Uniform(v.mem, v.free, v.head_fq, v.tail_fq, v.count_fq, EMPTY)
    && Uniform(v.mem, v.active, v.head_aq, v.tail_aq, v.count_aq, FULL)
    && Partition(v.pool, v.free, v.active, v.taken)
    && (forall b :: b in v.pool ==> b < |v.mem|)
    && Sorted(Items(v.mem, v.active))
  }

  ghost function AllTaken<P>(n: nat, blank: P): View<P> {
    View(seq(n, _ => Buffer(blank, EMPTY, 0, NIL)), All(n), [], NIL, NIL, 0, [], NIL, NIL, 0, All(n))
  }

  /** The state of the queue machine that a view stands for. */
  ghost function StateOf<P>(v: View<P>): Queues<P>
    requires Within(v.mem, v.active)
  {
    Queues(|v.free|, Items(v.mem, v.active), |v.taken|)
  }

  // ---------------------------------------------------------------- the four steps on views

  ghost function AfterTakeFree<P>(v: View<P>): View<P>
    requires v.free != [] && v.free[0] < |v.mem|
  {
    v.(free := v.free[1..], head_fq := v.mem[v.free[0]].next, count_fq := v.count_fq - 1,
       tail_fq := if v.head_fq == v.tail_fq then NIL else v.tail_fq, taken := v.taken + {v.free[0]})
  }

  lemma TakeFreeKeeps<P>(v: View<P>)
    requires Consistent(v) && v.free != []
    ensures Consistent(AfterTakeFree(v)) && v.free[0] !in v.taken && v.free == [v.free[0]] + v.free[1..]
  {
    TakeOut(v.pool, v.free, v.active, v.taken, 0);
    UniformRest(v.mem, v.free, v.head_fq, v.tail_fq, v.count_fq, EMPTY);
    HeadAndRest(v.free);
  }

  ghost function AfterTakeActive<P>(v: View<P>): View<P>
    requires v.active != [] && v.active[0] < |v.mem|
  {
    v.(active := v.active[1..], head_aq := v.mem[v.active[0]].next, count_aq := v.count_aq - 1,
       tail_aq := if v.head_aq == v.tail_aq then NIL else v.tail_aq, taken := v.taken + {v.active[0]})
  }

  lemma TakeActiveKeeps<P>(v: View<P>)
    requires Consistent(v) && v.active != []
    ensures Consistent(AfterTakeActive(v)) && v.active[0] !in v.taken
    ensures Items(v.mem, v.active) ==
            [Item(v.mem[v.active[0]].prio, v.mem[v.active[0]].data)] + Items(v.mem, v.active[1..])
    ensures QueueStep(StateOf(v), Remove) ==
            (StateOf(AfterTakeActive(v)), Sent(Item(v.mem[v.active[0]].prio, v.mem[v.active[0]].data)))
  {
    TakeOut(v.pool, v.free, v.active, v.taken, 0);
    UniformRest(v.mem, v.active, v.head_aq, v.tail_aq, v.count_aq, FULL);
    HeadAndRest(v.active);
  }

  ghost function AfterRelease<P>(v: View<P>, b: nat): View<P>
    requires Within(v.mem, v.free) && b < |v.mem|
  {
    v.(mem := LinkIn(v.mem, v.free, |v.free|, b, v.mem[b].(status := EMPTY)),
       free := Spliced(v.free, |v.free|, b), count_fq := v.count_fq + 1, taken := v.taken - {b},
       head_fq := if |v.free| == 0 then b else v.head_fq, tail_fq := b)
  }

  lemma ReleaseKeeps<P>(v: View<P>, b: nat)
    requires Consistent(v) && b in v.taken
    ensures b < |v.mem| && b !in v.free && b !in v.active
    ensures v.free != [] ==> 0 <= v.tail_fq < |v.mem|
    ensures Consistent(AfterRelease(v, b)) && AfterRelease(v, b).free == v.free + [b]
    ensures Items(AfterRelease(v, b).mem, v.active) == Items(v.mem, v.active)
  {
    OnePlace(v.pool, v.free, v.active, v.taken, b);
    var k, content := |v.free|, v.mem[b].(status := EMPTY);
    if k > 0 {
      OnePlace(v.pool, v.free, v.active, v.taken, v.free[k - 1]);
      WithinAt(v.mem, v.free, k - 1);
    }
    UniformSplice(v.mem, v.free, v.head_fq, v.tail_fq, v.count_fq, EMPTY, k, b, content);
    PutBack(v.pool, v.free, v.active, v.taken, k, b);
    UniformElsewhere(v.mem, v.free, k, b, content, v.active, v.head_aq, v.tail_aq, v.count_aq, FULL);
  }

  /** A release is the queue machine's step. */
  lemma ReleaseCounts<P>(v: View<P>, b: nat)
    requires Consistent(v) && b in v.taken
    ensures b < |v.mem| && Consistent(AfterRelease(v, b))
    ensures QueueStep(StateOf(v), Release) == (StateOf(AfterRelease(v, b)), Released)
  {
    ReleaseKeeps(v, b);
  }

  ghost function AfterActivate<P>(v: View<P>, b: nat, k: nat, content: Buffer<P>): View<P>
    requires Within(v.mem, v.active) && b < |v.mem| && k <= |v.active|
  {
    v.(mem := LinkIn(v.mem, v.active, k, b, content),
       active := Spliced(v.active, k, b), count_aq := v.count_aq + 1, taken := v.taken - {b},
       head_aq := if k == 0 then b else v.head_aq, tail_aq := if k == |v.active| then b else v.tail_aq)
  }

  lemma ActivateKeeps<P>(v: View<P>, b: nat, k: nat, content: Buffer<P>)
    requires Consistent(v) && b in v.taken && content.status == FULL
    requires k == Place(Items(v.mem, v.active), content.prio)
    ensures b < |v.mem| && b !in v.active && Consistent(AfterActivate(v, b, k, content))
    ensures Items(AfterActivate(v, b, k, content).mem, AfterActivate(v, b, k, content).active)
         == StableInsert(Items(v.mem, v.active), Item(content.prio, content.data))
  {
    OnePlace(v.pool, v.free, v.active, v.taken, b);
    if k > 0 {
      OnePlace(v.pool, v.free, v.active, v.taken, v.active[k - 1]);
    }
    UniformSplice(v.mem, v.active, v.head_aq, v.tail_aq, v.count_aq, FULL, k, b, content);
    PutBack(v.pool, v.free, v.active, v.taken, k, b);
    UniformElsewhere(v.mem, v.active, k, b, content, v.free, v.head_fq, v.tail_fq, v.count_fq, EMPTY);
    InsertKeepsSorted(Items(v.mem, v.active), Item(content.prio, content.data));
  }

  // ---------------------------------------------------------------- the manager

  class TransmitBufferManager<P> {
    const tx_buf: array<Buffer<P>>
    var head_fq: int
    var tail_fq: int
    var head_aq: int
    var tail_aq: int
    var count_fq: int
    var count_aq: int

    ghost var view: View<P>

    ghost predicate Mirrored()
      reads this, tx_buf
    {
      && view.mem == tx_buf[..] && view.pool == All(tx_buf.Length)
      && view.head_fq == head_fq && view.tail_fq == tail_fq && view.count_fq == count_fq
      && view.head_aq == head_aq && view.tail_aq == tail_aq && view.count_aq == count_aq
    }

    ghost predicate Valid()
      reads this, tx_buf
    {
      Mirrored() && Consistent(view)
    }

    /** The queued packets, next to be sent first. */
    ghost function Queue(): seq<Item<P>>
      requires Within(view.mem, view.active)
      reads this
    {
      Items(view.mem, view.active)
    }

    ghost function State(): Queues<P>
      requires Within(view.mem, view.active)
      reads this
    {
      StateOf(view)
    }

    /** The pool starts with every buffer taken; each is then released into the free queue. */
    constructor (n: nat, blank: P)
      ensures Valid() && fresh(tx_buf) && tx_buf.Length == n
      ensures |view.free| == n && view.active == [] && view.taken == {} && Queue() == []
    {
      tx_buf := new Buffer<P>[n](_ => Buffer(blank, EMPTY, 0, NIL));
      head_fq, tail_fq, head_aq, tail_aq := NIL, NIL, NIL, NIL;
      count_fq, count_aq := 0, 0;
      view := AllTaken(n, blank);
      new;
      assert Consistent(view);
      hide Consistent;
      for i := 0 to n
        invariant Valid() && fresh(tx_buf) && tx_buf.Length == n
        invariant |view.free| == i && view.active == [] && view.taken == All(n) - All(i)
      {
        InsertTxFq(i);
      }
    }

    /** Releases a taken buffer to the tail of the free queue. */
    method InsertTxFq(buf: nat)
      requires Valid() && buf in view.taken
      modifies this, tx_buf
      ensures Valid()
      ensures view.free == old(view.free) + [buf] && view.active == old(view.active)
      ensures view.taken == old(view.taken) - {buf} && Queue() == old(Queue())
      ensures QueueStep(old(State()), Release) == (State(), Released)
    {
      ReleaseKeeps(view, buf);
      ReleaseCounts(view, buf);
      head_fq, tail_fq := Append(tx_buf, head_fq, tail_fq, buf, tx_buf[buf].(status := EMPTY), view.free);
      count_fq := count_fq + 1;
      view := AfterRelease(view, buf);
    }

    method RemoveTxFq() returns (buf: int)
      requires Valid()
      modifies this
      ensures Valid() && view.mem == old(view.mem) && view.active == old(view.active) && Queue() == old(Queue())
      ensures buf == NIL <==> old(view.free) == []
      ensures buf == NIL ==> view == old(view)
      ensures buf != NIL ==> 0 <= buf && old(view.free) == [buf] + view.free
      ensures buf != NIL ==> buf !in old(view.taken) && view.taken == old(view.taken) + {buf}
    {
      if head_fq == NIL {
        return NIL;
      }
      TakeFreeKeeps(view);
      if head_fq == tail_fq {
        tail_fq := NIL;
      }
      buf := head_fq;
      head_fq := tx_buf[head_fq].next;
      count_fq := count_fq - 1;
      view := AfterTakeFree(view);
    }

    /** Takes the head of the active queue. */
    method RemoveTxAq() returns (buf: int)
      requires Valid()
      modifies this
      ensures Valid() && view.mem == old(view.mem) && view.free == old(view.free)
      ensures buf == NIL <==> old(Queue()) == []
      ensures buf == NIL ==> view == old(view)
      ensures buf != NIL ==> 0 <= buf < tx_buf.Length && buf !in old(view.taken)
      ensures buf != NIL ==> view.taken == old(view.taken) + {buf}
      ensures buf != NIL ==> old(Queue()) == [Item(tx_buf[buf].prio, tx_buf[buf].data)] + Queue()
      ensures QueueStep(old(State()), Remove) ==
              (State(), if buf == NIL then Idle else Sent(Item(tx_buf[buf].prio, tx_buf[buf].data)))
    {
      if head_aq == NIL {
        return NIL;
      }
      TakeActiveKeeps(view);
      if head_aq == tail_aq {
        tail_aq := NIL;
      }
      buf := head_aq;
      head_aq := tx_buf[head_aq].next;
      count_aq := count_aq - 1;
      view := AfterTakeActive(view);
    }

    /** The pointer assignments of Enqueue. */
    method LinkByPriority(buf: nat, content: Buffer<P>)
      requires Valid() && buf < tx_buf.Length && buf !in view.active
      modifies this, tx_buf
      ensures Mirrored()
      ensures view ==
                  AfterActivate(old(view), buf, Place(Items(old(view.mem), old(view.active)), content.prio), content)
    {
      ghost var was, k := view, 0;
      head_aq, tail_aq, k := InsertByPriority(tx_buf, head_aq, tail_aq, buf, content, view.active);
      count_aq := count_aq + 1;
      view := AfterActivate(was, buf, k, content);
    }

    /** Fills a taken buffer and links it into the active queue. */
    method Enqueue(buf: nat, pkt: P, prio: int)
      requires Valid() && buf in view.taken
      modifies this, tx_buf
      ensures Valid() && view.taken == old(view.taken) - {buf} && view.free == old(view.free)
      ensures Queue() == StableInsert(old(Queue()), Item(prio, pkt))
    {
      var content := Buffer(pkt, FULL, prio, NIL);
      ActivateKeeps(view, buf, Place(Items(view.mem, view.active), prio), content);
      LinkByPriority(buf, content);
    }

    /** Fails exactly when no buffer is free; otherwise the packet is queued behind all packets of
      * its own or higher priority. */
    method InsertTxAq(pkt: P, prio: int) returns (ok: bool)
      requires Valid()
      modifies this, tx_buf
      ensures Valid() && view.taken == old(view.taken)
      ensures ok <==> old(view.free) != []
      ensures ok ==> view.free == old(view.free)[1..] && Queue() == StableInsert(old(Queue()), Item(prio, pkt))
      ensures !ok ==> view == old(view)
      ensures QueueStep(old(State()), Insert(Item(prio, pkt))) == (State(), if ok then Accepted else Refused)
    {
      var removed := RemoveTxFq();
      if removed == NIL {
        return false;
      }
      Enqueue(removed, pkt, prio);
      return true;
    }
  }
}
