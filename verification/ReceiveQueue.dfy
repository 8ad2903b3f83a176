/** The receive buffer manager of one port, over the buffer array it shares with the other ports.
  *
  * The methods walk and relink the two queues through the indices stored in the buffers, as the code does
  * through pointers.  Their contracts give the new view, by the functions and lemmas on views in
  * ReceiveLists, and say that no buffer the port does not own has changed.
  */
module ReceiveQueue {
  import opened PriorityQueue
  import opened LinkedBuffers
  import opened BufferPlaces
  import opened ReceiveSpec
  import opened ReceiveLists

  class ReceiveBufferManager<S> {
    const rx_buf: array<Buffer<S>>
    var head_fq: int
    var tail_fq: int
    var head_pq: int
    var tail_pq: int
    var countTotal: int
    var countFree: int

    ghost var view: RxView<S>

    ghost predicate Mirrored()
      reads this, rx_buf
    {
      view.mem == rx_buf[..] && PointersMirrored()
    }

    /** The same, but for the buffer array. */
    ghost predicate PointersMirrored()
      reads this
    {
      && view.head_fq == head_fq && view.tail_fq == tail_fq
      && view.head_pq == head_pq && view.tail_pq == tail_pq
      && view.countTotal == countTotal && view.countFree == countFree
    }

    /** Both queues are exactly their pointers and the counters are right; only the free queue's tail
      * pointer may have been left behind. */
    ghost predicate Valid()
      reads this, rx_buf
    {
      Mirrored() && Consistent(view)
    }

    ghost function State(): PortQueues<S>
      requires Valid()
      reads this, rx_buf
    {
      Queues(view)
    }

    constructor (buffers: array<Buffer<S>>)
      ensures Valid() && rx_buf == buffers && view.owned == {}
      ensures State() == Empty() && view == Closed(buffers[..], NIL)
    {
      rx_buf := buffers;
      head_fq, tail_fq, head_pq, tail_pq := NIL, NIL, NIL, NIL;
      countTotal, countFree := 0, 0;
      view := RxView(buffers[..], {}, [], NIL, NIL, [], NIL, NIL, {}, 0, 0);
    }

    /** The traversal of the free queue: stops at the first buffer that is held (or is not). */
    method FindHeld(held: bool) returns (prev: int, ptr: int, ghost k: nat)
      requires Valid()
      ensures k == FirstWith(Held(view.mem, view.fq), held)
      ensures prev == if k == 0 then NIL else view.fq[k - 1]
      ensures ptr == if k == |view.fq| then NIL else view.fq[k]
    {
      prev, ptr, k := NIL, head_fq, 0;
      ghost var h := Held(view.mem, view.fq);
      while ptr != NIL
        invariant k <= |view.fq| && FreeQueue(view.mem, view.fq[k..], ptr)
        invariant prev == if k == 0 then NIL else view.fq[k - 1]
        invariant Held(view.mem, view.fq[k..]) == h[k..] && FirstWith(h, held) == k + FirstWith(h[k..], held)
        decreases |view.fq| - k
      {
        FirstWithStep(h, k, held);
        FreeRest(view.mem, view.fq[k..], ptr);
        DropOne(view.fq, k);
        DropOne(h, k);
        if rx_buf[ptr].status == (if held then FULL else EMPTY) {
          return;
        }
        prev := ptr;
        ptr := rx_buf[ptr].next;
        k := k + 1;
      }
    }

    /** Unlinks the buffer at index k of the free queue. */
    method Unlink(prev: int, ptr: int, held: bool, ghost k: nat)
      requires Valid() && k < |view.fq| && ptr == view.fq[k] && prev == if k == 0 then NIL else view.fq[k - 1]
      requires Held(view.mem, view.fq)[k] == held
      modifies this`head_fq, this`tail_fq, this`countFree, this`view, rx_buf
      ensures Mirrored() && view == AfterTake(old(view), k)
    {
      WithinAt(view.mem, view.fq, k);
      ghost var after := AfterTake(view, k);
      if prev == NIL {
        if head_fq == tail_fq {
          tail_fq := NIL;
        }
        head_fq := rx_buf[head_fq].next;
      } else {
        WithinAt(view.mem, view.fq, k - 1);
        rx_buf[prev] := rx_buf[prev].(next := rx_buf[ptr].next);
      }
      if !held {
        countFree := countFree - 1;
      }
      view := after;
    }

    /** Takes the first free (or held) buffer out of the free queue; the tail pointer is left behind if that
      * buffer was the last of several. */
    method RemoveRxFq(held: bool) returns (buf: int, ghost k: nat)
      requires Valid()
      modifies this, rx_buf
      ensures Valid() && view.owned == old(view.owned)
      ensures Steady(old(rx_buf[..]), rx_buf[..], view.owned)
      ensures k == FirstWith(old(State()).held, held)
      ensures k == |old(view.fq)| ==> buf == NIL && view == old(view)
      ensures k < |old(view.fq)| ==>
                  buf == old(view.fq)[k] && 0 <= buf < rx_buf.Length && view == AfterTake(old(view), k)
      ensures k < |old(view.fq)| ==>
                  State() == TakeFree(old(State()), k).(stranded := old(view.out) + {old(view.fq)[k]})
    {
      var prev, ptr;
      prev, ptr, k := FindHeld(held);
      if ptr != NIL {
        TakeKeeps(view, k);
        WithinAt(view.mem, view.fq, k);
        TakeSteady(view, k);
        Unlink(prev, ptr, held, k);
      }
      return ptr, k;
    }

    /** The pointer assignments of InsertRxFq. */
    method LinkTail(buf: nat, status: Status)
      requires Valid() && buf < rx_buf.Length && buf !in view.fq && status != UNALLOCATED
      requires head_fq != NIL ==> 0 <= tail_fq < rx_buf.Length
      modifies this`head_fq, this`tail_fq, this`countFree, this`view, rx_buf
      ensures rx_buf[..] ==
                  Appended(old(rx_buf[..]), old(head_fq), old(tail_fq), buf, old(rx_buf[buf]).(status := status))
      ensures old(view.fq) != [] ==> head_fq == old(head_fq)
      ensures TailRight(old(view)) ==>
                  Mirrored() && view == AfterAppend(old(view), buf, old(rx_buf[buf]).(status := status))
    {
      var content := rx_buf[buf].(status := status);
      ghost var after := AfterAppend(view, buf, content);
      AppendIsSplice(view.fq, buf);
      head_fq, tail_fq := Append(rx_buf, head_fq, tail_fq, buf, content, view.fq);
      if status == EMPTY {
        countFree := countFree + 1;
      }
      view := after;
    }

    /** Puts a buffer that is in neither queue at the tail of the free queue, if the tail pointer is right.
      * If it is not, the buffer does not enter the free queue; and the port queue is cut off, if the tail
      * pointer names one of its buffers. */
    method InsertRxFq(buf: nat, status: Status)
      requires Valid() && buf in view.out && buf < rx_buf.Length
      requires status == EMPTY || (status == FULL && rx_buf[buf].status == FULL)
      modifies this`head_fq, this`tail_fq, this`countFree, this`view, rx_buf
      ensures old(State()).tailRight ==>
                && Valid() && view.owned == old(view.owned)
                && view == AfterAppend(old(view), buf, old(rx_buf[buf]).(status := status))
                && State() == old(State()).(fq := old(view.fq) + [buf], held := old(State()).held + [status == FULL],
                                            stranded := old(view.out) - {buf})
                && Steady(old(rx_buf[..]), rx_buf[..], view.owned)
      ensures !old(State()).tailRight ==>
                && LeftOut(rx_buf[..], old(view.fq), head_fq, buf)
                && (old(tail_fq) in old(view.pq) ==> !Chain(rx_buf[..], old(view.pq), old(head_pq)))
    {
      ghost var content := rx_buf[buf].(status := status);
      if view.fq != [] {
        TailInside(view);
      }
      if TailRight(view) {
        AppendKeeps(view, buf, content);
        AppendSteady(view, buf, content);
      } else {
        WrongTailLoses(view, buf, content);
      }
      LinkTail(buf, status);
    }

    /** Gives the port one more buffer of the pool, if the tail pointer is right; otherwise the port counts
      * a buffer that its free queue does not have. */
    method Grant(buf: nat)
      requires Valid() && buf < rx_buf.Length && buf !in view.owned
      modifies this, rx_buf
      ensures old(State()).tailRight ==>
                && Valid() && view.owned == old(view.owned) + {buf}
                && Steady(old(rx_buf[..]), rx_buf[..], view.owned) && rx_buf[buf].status != UNALLOCATED
                && State() == ReceiveSpec.Grant(old(State()), buf)
      ensures !old(State()).tailRight ==> LeftOut(rx_buf[..], old(view.fq), head_fq, buf)
      ensures countTotal == old(countTotal) + 1
    {
      ghost var right := TailRight(view);
      AdoptKeeps(view, buf);
      countTotal := countTotal + 1;
      view := Adopted(view, buf);
      InsertRxFq(buf, EMPTY);
      if right {
        LastInUse(view.mem, view.fq, head_fq);
      }
    }

    method RemoveRxPq() returns (buf: int)
      requires Valid()
      modifies this
      ensures Valid()
      ensures buf == NIL <==> old(view.pq) == []
      ensures buf == NIL ==> view == old(view)
      ensures buf != NIL ==> 0 <= buf < rx_buf.Length && buf == old(view.pq)[0] && view == AfterTakeHead(old(view))
    {
      if head_pq == NIL {
        return NIL;
      }
      TakeHeadKeeps(view);
      ghost var after := AfterTakeHead(view);
      if head_pq == tail_pq {
        tail_pq := NIL;
      }
      buf := head_pq;
      head_pq := rx_buf[head_pq].next;
      view := after;
    }

    /** The task accepts the oldest segment of the highest priority; its buffer stays held, at the tail of the
      * free queue if the tail pointer is right, and otherwise outside it. */
    method TakeSegment() returns (buf: int, data: Item<S>)
      requires Valid() && view.pq != []
      modifies this, rx_buf
      ensures data == old(State()).queue[0] && buf == old(view.pq)[0]
      ensures old(State()).tailRight ==>
                && Valid() && view.owned == old(view.owned) && Steady(old(rx_buf[..]), rx_buf[..], view.owned)
                && State() == Accept(old(State()))
      ensures !old(State()).tailRight ==> LeftOut(rx_buf[..], old(view.fq), head_fq, buf)
    {
      TakeHeadKeeps(view);
      TakeHeadQueues(view);
      buf := RemoveRxPq();
      data := Item(rx_buf[buf].prio, rx_buf[buf].data);
      StrandedRestored(old(view.out), buf);
      InsertRxFq(buf, FULL);
    }

    /** Looks in the free queue for a given buffer that is held. */
    method FindHeldBuffer(buf: nat) returns (ptr: int, ghost k: nat)
      requires Valid()
      ensures k <= |view.fq| && ptr == if k == |view.fq| then NIL else view.fq[k]
      ensures k < |view.fq| ==> view.fq[k] == buf && State().held[k]
      ensures forall i :: 0 <= i < k ==> !(view.fq[i] == buf && State().held[i])
    {
      ptr, k := head_fq, 0;
      ghost var h := Held(view.mem, view.fq);
      while ptr != NIL
        invariant k <= |view.fq| && FreeQueue(view.mem, view.fq[k..], ptr)
        invariant Held(view.mem, view.fq[k..]) == h[k..]
        invariant forall i :: 0 <= i < k ==> !(view.fq[i] == buf && h[i])
        decreases |view.fq| - k
      {
        assert h[k..][0] == h[k];
        if ptr == buf && rx_buf[ptr].status == FULL {
          return;
        }
        FreeRest(view.mem, view.fq[k..], ptr);
        assert h[k..][1..] == h[k + 1..] && view.fq[k..][1..] == view.fq[k + 1..];
        ptr := rx_buf[ptr].next;
        k := k + 1;
      }
    }

    /** The task gives back a buffer; fails exactly when it does not hold that buffer. */
    method ReleaseBuffer(buf: nat) returns (ok: bool, ghost k: nat)
      requires Valid()
      modifies this, rx_buf
      ensures Valid() && view.owned == old(view.owned)
      ensures Steady(old(rx_buf[..]), rx_buf[..], view.owned)
      ensures k <= |old(view.fq)| && ok == (k < |old(view.fq)|)
      ensures forall i :: 0 <= i < k ==> !(old(view.fq)[i] == buf && old(State()).held[i])
      ensures ok ==> old(view.fq)[k] == buf && old(State()).held[k]
      ensures ok ==> State() == ReleaseAt(old(State()), k)
      ensures !ok ==> view == old(view)
    {
      var ptr;
      ptr, k := FindHeldBuffer(buf);
      if ptr == NIL {
        return false, k;
      }
      MarkKeeps(view, k);
      MarkSteady(view, k);
      ghost var after := AfterMark(view, k);
      rx_buf[ptr] := rx_buf[ptr].(status := EMPTY);
      countFree := countFree + 1;
      view := after;
      return true, k;
    }

    /** How many buffers tasks hold. */
    method GetInProcessBufCount() returns (count: nat)
      requires Valid()
      ensures count == CountOf(State().held, true)
    {
      var ptr := head_fq;
      count := 0;
      ghost var k, h := 0, Held(view.mem, view.fq);
      while ptr != NIL
        invariant k <= |view.fq| && FreeQueue(view.mem, view.fq[k..], ptr)
        invariant Held(view.mem, view.fq[k..]) == h[k..] && CountOf(h, true) == count + CountOf(h[k..], true)
        decreases |view.fq| - k
      {
        if rx_buf[ptr].status == FULL {
          count := count + 1;
        }
        FreeRest(view.mem, view.fq[k..], ptr);
        assert h[k..][1..] == h[k + 1..] && view.fq[k..][1..] == view.fq[k + 1..];
        ptr := rx_buf[ptr].next;
        k := k + 1;
      }
    }

    /** receive()'s test for an empty receive queue. */
    method AllFree() returns (r: bool)
      requires Valid()
      ensures r <==> CountOf(State().held, false) == |State().fq| + |State().pq| + |State().stranded|
    {
      r := countFree == countTotal;
    }

    /** The count reported to the task: the queued segments, plus the buffers lost to evictions. */
    method CheckReceiveQueue() returns (count: int)
      requires Valid()
      ensures count == |State().queue| + |State().stranded|
    {
      var inProcess := GetInProcessBufCount();
      CountsAddUp(Held(view.mem, view.fq));
      count := countTotal - countFree - inProcess;
    }

    /** The pointer assignments of Enqueue. */
    method LinkByPriority(buf: nat, content: Buffer<S>)
      requires Valid() && buf < rx_buf.Length && buf !in view.pq
      modifies this`head_pq, this`tail_pq, this`view, rx_buf
      ensures Mirrored()
      ensures view == AfterQueue(old(view), buf, Place(Items(old(view).mem, old(view).pq), content.prio), content)
    {
      ghost var was, k := view, 0;
      head_pq, tail_pq, k := InsertByPriority(rx_buf, head_pq, tail_pq, buf, content, view.pq);
      view := AfterQueue(was, buf, k, content);
    }

    /** Fills a buffer that is in neither queue and links it into the port queue. */
    method Enqueue(buf: nat, data: S, prio: int)
      requires Valid() && buf in view.out && buf < rx_buf.Length
      modifies this`head_pq, this`tail_pq, this`view, rx_buf
      ensures Valid() && view.owned == old(view.owned)
      ensures Steady(old(rx_buf[..]), rx_buf[..], view.owned)
      ensures State() == old(State()).(pq := Spliced(old(view.pq), Place(old(State()).queue, prio), buf),
                                       queue := StableInsert(old(State()).queue, Item(prio, data)),
                                       stranded := old(view.out) - {buf})
    {
      var content := Buffer(data, FULL, prio, NIL);
      ghost var place := Place(Items(view.mem, view.pq), prio);
      QueueKeeps(view, buf, place, content);
      QueueSteady(view, buf, place, content);
      LinkByPriority(buf, content);
    }

    /** The assignments of ReplaceTail. */
    method StoreAtTail(content: Buffer<S>)
      requires Valid() && view.pq != [] && view.pq[|view.pq| - 1] < |view.mem|
      requires content.status == FULL && content.next == NIL
      modifies this`view, rx_buf
      ensures Mirrored() && view == AfterReplace(old(view), content)
    {
      LastEndsChain(view.mem, view.pq, head_pq);
      ghost var after := AfterReplace(view, content);
      rx_buf[tail_pq] := rx_buf[tail_pq].(data := content.data, prio := content.prio);
      view := after;
    }

    /** Overwrites the last segment of the port queue in its buffer. */
    method ReplaceTail(data: S, prio: int)
      requires Valid() && view.pq != []
      requires |view.pq| == 1 || State().queue[|view.pq| - 1].prio == prio
      modifies this`view, rx_buf
      ensures Valid() && view.owned == old(view.owned)
      ensures Steady(old(rx_buf[..]), rx_buf[..], view.owned)
      ensures State() == Evict(old(State()), Item(prio, data))
    {
      var content := Buffer(data, FULL, prio, NIL);
      ReplaceKeeps(view, content);
      ReplaceSteady(view, content);
      ReplaceIsEvict(State(), Item(prio, data));
      StoreAtTail(content);
    }

    /** The buffer before the tail. */
    method FindLastButOne() returns (qtr: int)
      requires Valid() && |view.pq| >= 2
      ensures qtr == view.pq[|view.pq| - 2]
    {
      qtr := head_pq;
      ghost var q := 0;
      NextIsTail(view.mem, view.pq, head_pq, q);
      while rx_buf[qtr].next != tail_pq
        invariant q + 1 < |view.pq| && qtr == view.pq[q] && qtr < |view.mem|
        invariant rx_buf[qtr].next == tail_pq <==> q + 2 == |view.pq|
        decreases |view.pq| - q
      {
        NextIsTail(view.mem, view.pq, head_pq, q);
        NextIsTail(view.mem, view.pq, head_pq, q + 1);
        qtr := rx_buf[qtr].next;
        q := q + 1;
      }
    }

    /** The pointer assignments of EvictTail: the last buffer is refilled and relinked where the new
      * segment belongs, after which the buffer that preceded it is made the tail. */
    method RelinkTail(prev: int, ptr: int, content: Buffer<S>, ghost place: nat)
      requires Valid() && |view.pq| >= 2 && place < |view.pq| && content.status == FULL
      requires prev == if place == 0 then NIL else view.pq[place - 1]
      requires ptr == view.pq[place]
      modifies this`head_pq, this`tail_pq, this`view, rx_buf
      ensures Mirrored() && view == AfterEvict(old(view), place, content)
    {
      var qtr := FindLastButOne();
      LastEndsChain(view.mem, view.pq, head_pq);
      ghost var after := AfterEvict(view, place, content);
      EvictInPlace(rx_buf, tail_pq, prev, ptr, qtr, content, view.pq, place);
      if prev == NIL {
        head_pq := tail_pq;
      }
      tail_pq := qtr;
      view := after;
    }

    /** Evicts the last segment in favour of the new one. */
    method EvictTail(prev: int, ptr: int, data: S, prio: int, ghost place: nat)
      requires Valid() && |view.pq| >= 2 && State().queue[|view.pq| - 1].prio < prio
      requires place == Place(State().queue, prio) < |view.pq|
      requires prev == if place == 0 then NIL else view.pq[place - 1]
      requires ptr == view.pq[place]
      modifies this`head_pq, this`tail_pq, this`view, rx_buf
      ensures Valid() && view.owned == old(view.owned)
      ensures Steady(old(rx_buf[..]), rx_buf[..], view.owned)
      ensures State() == Evict(old(State()), Item(prio, data))
    {
      var content := Buffer(data, FULL, prio, NIL);
      EvictKeeps(view, place, content);
      EvictSteady(view, place, content);
      RelinkTail(prev, ptr, content, place);
    }

    /** The new segment outranks the last one. */
    method MakeRoom(prev: int, ptr: int, data: S, prio: int, ghost place: nat)
      requires Valid() && view.pq != [] && State().queue[|view.pq| - 1].prio < prio
      requires place == Place(State().queue, prio)
      requires prev == if place == 0 then NIL else view.pq[place - 1]
      requires ptr == if place == |view.pq| then NIL else view.pq[place]
      modifies this, rx_buf
      ensures Valid() && view.owned == old(view.owned)
      ensures Steady(old(rx_buf[..]), rx_buf[..], view.owned)
      ensures State() == Evict(old(State()), Item(prio, data))
    {
      LastOfMany(view.pq);
      if head_pq == tail_pq {
        ReplaceTail(data, prio);
      } else {
        StrandsAtLast(State().queue, prio);
        EvictTail(prev, ptr, data, prio, place);
      }
    }

    /** A segment arrives and no buffer is free. */
    method InsertWhenFull(data: S, prio: int, overwrite: bool)
      requires Valid() && FirstWith(State().held, false) == |view.fq|
      modifies this, rx_buf
      ensures Valid() && view.owned == old(view.owned)
      ensures Steady(old(rx_buf[..]), rx_buf[..], view.owned)
      ensures State() == Arrive(old(State()), Item(prio, data), overwrite)
    {
      var prev, ptr, place := FindPlace(rx_buf, head_pq, prio, view.pq);
      ArriveFull(State(), Item(prio, data), overwrite);
      if head_pq == NIL {
        NoneFree(State().held);
        assert countFree == 0 && tail_pq == NIL;  // the code's sanity checks
        return;
      }
      LastItem(view.mem, view.pq);
      assert State().queue[|view.pq| - 1].prio == rx_buf[tail_pq].prio;
      if rx_buf[tail_pq].prio < prio {
        MakeRoom(prev, ptr, data, prio, place);
      } else if rx_buf[tail_pq].prio == prio && overwrite {
        ReplaceTail(data, prio);
      }
    }

    /** A segment arrives for the port, wherever the free queue's tail pointer points. */
    method InsertRxPq(data: S, prio: int, overwrite: bool)
      requires Valid()
      modifies this, rx_buf
      ensures Valid() && view.owned == old(view.owned)
      ensures Steady(old(rx_buf[..]), rx_buf[..], view.owned)
      ensures State() == Arrive(old(State()), Item(prio, data), overwrite)
    {
      var buf, k := RemoveRxFq(false);
      if buf != NIL {
        StrandedRestored(old(view.out), buf);
        Enqueue(buf, data, prio);
        return;
      }
      NoneFree(State().held);
      InsertWhenFull(data, prio, overwrite);
    }

    method GiveBack(buf: nat, ghost start: seq<Buffer<S>>, ghost stranded: set<nat>)
      requires Valid() && buf < rx_buf.Length && buf in view.out && buf !in stranded
      requires DrainingBut(view, {buf}, start, stranded)
      modifies this`view, rx_buf
      ensures Valid() && Draining(view, start, stranded)
      ensures view.fq == old(view.fq) && view.pq == old(view.pq) && view.owned == old(view.owned)
      ensures State().held == old(State()).held
    {
      OnePlace(view.owned, view.fq, view.pq, view.out, buf);
      OutStoreKeeps(view, buf, rx_buf[buf].(status := UNALLOCATED));
      rx_buf[buf] := rx_buf[buf].(status := UNALLOCATED);
      view := view.(mem := rx_buf[..]);
    }

    method DrainPortQueue(ghost start: seq<Buffer<S>>, ghost stranded: set<nat>)
      requires Valid() && Draining(view, start, stranded)
      modifies this, rx_buf
      ensures Valid() && Draining(view, start, stranded) && view.owned == old(view.owned)
      ensures view.pq == [] && view.fq == old(view.fq)
    {
      while true
        invariant Valid() && Draining(view, start, stranded)
        invariant view.owned == old(view.owned) && view.fq == old(view.fq)
        decreases |view.pq|
      {
        if view.pq != [] {
          TakeHeadKeeps(view);
          TakeHeadDrains(view, start, stranded);
        }
        var ptr := RemoveRxPq();
        if ptr == NIL {
          break;
        }
        GiveBack(ptr, start, stranded);
      }
    }

    /** Empties the free queue of its free (or held) buffers. */
    method DrainFreeQueue(held: bool, ghost start: seq<Buffer<S>>, ghost stranded: set<nat>)
      requires Valid() && Draining(view, start, stranded)
      modifies this, rx_buf
      ensures Valid() && Draining(view, start, stranded) && view.owned == old(view.owned)
      ensures view.pq == old(view.pq) && FirstWith(State().held, held) == |view.fq|
      ensures FirstWith(old(State()).held, !held) == |old(view.fq)| ==> FirstWith(State().held, !held) == |view.fq|
    {
      while true
        invariant Valid() && Draining(view, start, stranded)
        invariant view.owned == old(view.owned) && view.pq == old(view.pq)
        invariant FirstWith(old(State()).held, !held) == |old(view.fq)| ==> FirstWith(State().held, !held) == |view.fq|
        decreases |view.fq|
      {
        ghost var k := FirstWith(State().held, held);
        if k < |view.fq| {
          TakeKeeps(view, k);
          TakeDrains(view, k, start, stranded);
          if FirstWith(State().held, !held) == |view.fq| {
            TakingLeavesNone(State().held, k, !held);
          }
        }
        var ptr, _ := RemoveRxFq(held);
        if ptr == NIL {
          break;
        }
        GiveBack(ptr, start, stranded);
      }
    }

    method DrainAll(ghost start: seq<Buffer<S>>, ghost stranded: set<nat>)
      requires Valid() && Draining(view, start, stranded)
      modifies this, rx_buf
      ensures Valid() && Draining(view, start, stranded) && view.owned == old(view.owned)
      ensures view.fq == [] && view.pq == []
    {
      DrainPortQueue(start, stranded);
      DrainFreeQueue(false, start, stranded);
      DrainFreeQueue(true, start, stranded);
      NothingLeft(State().held);
    }

    /** Closing the port: its queued, free and held buffers go back to the pool; stranded ones do not. */
    method CloseQueues()
      requires Valid()
      modifies this, rx_buf
      ensures Valid() && view.owned == {} && State() == Empty() && countTotal == countFree == 0
      ensures GivenBack(old(rx_buf[..]), rx_buf[..], old(view.fq), old(view.pq))
    {
      ghost var was := view;
      DrainStart(view);
      DrainAll(was.mem, was.out);
      DrainEnd(view, was);
      countTotal, countFree := 0, 0;
      view := Closed(rx_buf[..], tail_fq);
      ClosedIsEmpty(rx_buf[..], tail_fq);
    }
  }
}
