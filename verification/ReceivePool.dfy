/** All ports' receive buffer managers over the one buffer array they share.  Each operation on one
  * manager leaves every other manager's pointers, counters and queues exactly right, so the vector of
  * the ports' queues steps in one place.
  *
  * The managers own disjoint sets of buffers; what none of them owns is the pool.
  */
module ReceivePool {
  import opened PriorityQueue
  import opened LinkedBuffers
  import opened BufferPlaces
  import opened ReceiveSpec
  import opened ReceiveLists
  import opened ReceiveRuns
  import opened ReceiveQueue

  // ---------------------------------------------------------------- all managers' views at once

  ghost predicate Fits<S>(v: RxView<S>, mem: seq<Buffer<S>>) {
    && v.mem == mem && Consistent(v)
    && (forall b :: b in v.owned ==> b < |mem| && mem[b].status != UNALLOCATED)
  }

  /** Every manager is consistent over the same array, owns no unallocated buffer, and no two own the
    * same buffer. */
  ghost predicate System<S>(views: seq<RxView<S>>, mem: seq<Buffer<S>>) {
    && (forall i :: 0 <= i < |views| ==> Fits(views[i], mem))
    && (forall i, j :: 0 <= i < j < |views| ==> views[i].owned !! views[j].owned)
  }

  ghost function QueuesOf<S>(v: RxView<S>): PortQueues<S> {
    if Within(v.mem, v.fq) && Within(v.mem, v.pq) then Queues(v) else Empty()
  }

  ghost function AllQueues<S>(views: seq<RxView<S>>): (p: seq<PortQueues<S>>)
    ensures |p| == |views|
    ensures forall i :: 0 <= i < |views| ==> p[i] == QueuesOf(views[i])
  {
    seq(|views|, i requires 0 <= i < |views| => QueuesOf(views[i]))
  }

  ghost function UnallocatedIn<S>(mem: seq<Buffer<S>>): (u: seq<bool>)
    ensures |u| == |mem|
    ensures forall b :: 0 <= b < |mem| ==> u[b] == (mem[b].status == UNALLOCATED)
  {
    seq(|mem|, b requires 0 <= b < |mem| => mem[b].status == UNALLOCATED)
  }

  /** Manager r has become v; all others see the array v has left. */
  ghost function Moved<S>(views: seq<RxView<S>>, r: nat, v: RxView<S>): (w: seq<RxView<S>>)
    requires r < |views|
    ensures |w| == |views| && w[r] == v
    ensures forall i :: 0 <= i < |views| && i != r ==> w[i] == views[i].(mem := v.mem)
  {
    seq(|views|, i requires 0 <= i < |views| => if i == r then v else views[i].(mem := v.mem))
  }

  ghost predicate SameOutside<S>(before: seq<Buffer<S>>, after: seq<Buffer<S>>, owned: set<nat>) {
    |after| == |before| && forall b :: 0 <= b < |before| && b !in owned ==> after[b] == before[b]
  }

  /** A manager whose buffers another one has left alone. */
  lemma OtherFits<S>(v: RxView<S>, mem: seq<Buffer<S>>, mem': seq<Buffer<S>>, owned: set<nat>)
    requires Fits(v, mem) && SameOutside(mem, mem', owned) && v.owned !! owned
    ensures Fits(v.(mem := mem'), mem') && QueuesOf(v.(mem := mem')) == QueuesOf(v)
  {
    forall b | b in v.owned ensures mem'[b] == v.mem[b] {
      assert b !in owned;
    }
    OtherPortUnaffected(v, mem');
  }

  lemma OthersKept<S>(views: seq<RxView<S>>, mem: seq<Buffer<S>>, r: nat, v: RxView<S>, owned: set<nat>)
    requires System(views, mem) && r < |views| && SameOutside(mem, v.mem, owned)
    requires forall i :: 0 <= i < |views| && i != r ==> views[i].owned !! owned
    ensures forall i :: 0 <= i < |views| && i != r ==>
              && Fits(views[i].(mem := v.mem), v.mem) && QueuesOf(views[i].(mem := v.mem)) == QueuesOf(views[i])
  {
    forall i | 0 <= i < |views| && i != r
      ensures && Fits(views[i].(mem := v.mem), v.mem) && QueuesOf(views[i].(mem := v.mem)) == QueuesOf(views[i])
    {
      assert Fits(views[i], mem);
      OtherFits(views[i], mem, v.mem, owned);
    }
  }

  /** When one manager has moved within owned, the system is kept and only its own queues change. */
  lemma MoveKeepsSystem<S>(views: seq<RxView<S>>, mem: seq<Buffer<S>>, r: nat, v: RxView<S>, owned: set<nat>)
    requires System(views, mem) && r < |views| && Fits(v, v.mem) && v.owned <= owned && SameOutside(mem, v.mem, owned)
    requires forall i :: 0 <= i < |views| && i != r ==> views[i].owned !! owned
    ensures System(Moved(views, r, v), v.mem)
    ensures AllQueues(Moved(views, r, v)) == AllQueues(views)[r := Queues(v)]
  {
    OthersKept(views, mem, r, v, owned);
  }

  lemma StillAllocated<S>(owned: set<nat>, mem: seq<Buffer<S>>, mem': seq<Buffer<S>>)
    requires Steady(mem, mem', owned) && forall b :: b in owned ==> b < |mem| && mem[b].status != UNALLOCATED
    ensures UnallocatedIn(mem') == UnallocatedIn(mem)
  {
    forall b | 0 <= b < |mem| ensures UnallocatedIn(mem')[b] == UnallocatedIn(mem)[b] {
      if b in owned {
        assert mem[b].status != UNALLOCATED;
      }
    }
  }

  /** One manager's step on buffers it owns. */
  lemma StepKeepsSystem<S>(views: seq<RxView<S>>, mem: seq<Buffer<S>>, r: nat, v: RxView<S>)
    requires System(views, mem) && r < |views| && Consistent(v) && v.owned == views[r].owned
    requires Steady(mem, v.mem, v.owned)
    ensures System(Moved(views, r, v), v.mem)
    ensures AllQueues(Moved(views, r, v)) == AllQueues(views)[r := Queues(v)]
    ensures UnallocatedIn(v.mem) == UnallocatedIn(mem)
  {
    assert Fits(views[r], mem);
    StillAllocated(v.owned, mem, v.mem);
    MoveKeepsSystem(views, mem, r, v, v.owned);
  }

  lemma NoLongerUnallocated<S>(owned: set<nat>, b: nat, mem: seq<Buffer<S>>, mem': seq<Buffer<S>>)
    requires Steady(mem, mem', owned + {b}) && b < |mem| && mem'[b].status != UNALLOCATED
    requires forall c :: c in owned ==> c < |mem| && mem[c].status != UNALLOCATED
    ensures UnallocatedIn(mem') == UnallocatedIn(mem)[b := false]
  {
    forall c | 0 <= c < |mem| ensures UnallocatedIn(mem')[c] == UnallocatedIn(mem)[b := false][c] {
      if c in owned {
        assert mem[c].status != UNALLOCATED;
      }
    }
  }

  /** One manager is given an unallocated buffer. */
  lemma GrantKeepsSystem<S>(views: seq<RxView<S>>, mem: seq<Buffer<S>>, r: nat, b: nat, v: RxView<S>)
    requires System(views, mem) && r < |views| && b < |mem| && mem[b].status == UNALLOCATED
    requires Consistent(v) && v.owned == views[r].owned + {b} && Steady(mem, v.mem, v.owned)
    requires v.mem[b].status != UNALLOCATED
    ensures System(Moved(views, r, v), v.mem)
    ensures AllQueues(Moved(views, r, v)) == AllQueues(views)[r := Queues(v)]
    ensures UnallocatedIn(v.mem) == UnallocatedIn(mem)[b := false]
  {
    assert Fits(views[r], mem);
    forall i | 0 <= i < |views| && i != r ensures views[i].owned !! v.owned {
      assert Fits(views[i], mem);
    }
    NoLongerUnallocated(views[r].owned, b, mem, v.mem);
    MoveKeepsSystem(views, mem, r, v, v.owned);
  }

  lemma BackInPool<S>(fq: seq<nat>, pq: seq<nat>, mem: seq<Buffer<S>>, mem': seq<Buffer<S>>)
    requires GivenBack(mem, mem', fq, pq)
    ensures UnallocatedIn(mem') == GiveBack(UnallocatedIn(mem), fq + pq)
  {
    forall b | 0 <= b < |mem| ensures UnallocatedIn(mem')[b] == GiveBack(UnallocatedIn(mem), fq + pq)[b] {
      GiveBackMarks(UnallocatedIn(mem), fq + pq, b);
      assert b in fq + pq <==> b in fq || b in pq;
    }
  }

  /** One manager gives its queues' buffers back to the pool and owns nothing any more. */
  lemma CloseKeepsSystem<S>(views: seq<RxView<S>>, mem: seq<Buffer<S>>, r: nat, v: RxView<S>)
    requires System(views, mem) && r < |views| && Consistent(v) && v.owned == {}
    requires GivenBack(mem, v.mem, views[r].fq, views[r].pq)
    ensures System(Moved(views, r, v), v.mem)
    ensures AllQueues(Moved(views, r, v)) == AllQueues(views)[r := Queues(v)]
    ensures UnallocatedIn(v.mem) == GiveBack(UnallocatedIn(mem), views[r].fq + views[r].pq)
  {
    var was := views[r];
    assert Fits(was, mem);
    forall b | 0 <= b < |mem| && b !in was.owned ensures v.mem[b] == mem[b] {
      OnePlaceOf(was, b);
    }
    BackInPool(was.fq, was.pq, mem, v.mem);
    MoveKeepsSystem(views, mem, r, v, was.owned);
  }

  lemma OnePlaceOf<S>(v: RxView<S>, b: nat)
    requires Consistent(v) && b !in v.owned
    ensures b !in v.fq && b !in v.pq
  {
    OnePlace(v.owned, v.fq, v.pq, v.out, b);
  }

  // ---------------------------------------------------------------- the arrays rx_buf_udp[] and rx_buf_mgr[]

  class ReceiveBuffers<S> {
    const rx_buf: array<Buffer<S>>
    const mgr: seq<ReceiveBufferManager<S>>
    ghost const Repr: set<object>

    ghost var views: seq<RxView<S>>
    ghost var queues: seq<PortQueues<S>>  // every port's queues
    ghost var pool: seq<bool>             // which buffers are in the pool

    /** The managers are distinct objects of this one. */
    ghost predicate Laid() {
      && this in Repr && rx_buf in Repr
      && (forall i :: 0 <= i < |mgr| ==> mgr[i] in Repr)
      && (forall i, j :: 0 <= i < j < |mgr| ==> mgr[i] != mgr[j])
    }

    ghost predicate Attached(i: nat)
      requires i < |mgr| == |views|
      reads this, mgr[i]
    {
      mgr[i].rx_buf == rx_buf && mgr[i].view == views[i] && mgr[i].PointersMirrored()
    }

    ghost predicate AllAttached()
      reads this, mgr
    {
      |mgr| == |views| && forall i: nat :: i < |mgr| ==> Attached(i)
    }

    /** All managers are right over the one array. */
    ghost predicate Valid()
      reads this, Repr
    {
      && Laid() && AllAttached() && System(views, rx_buf[..])
      && queues == AllQueues(views) && pool == UnallocatedIn(rx_buf[..])
    }

    constructor (ports: nat, buffers: nat, blank: S)
      ensures Valid() && fresh(Repr) && |mgr| == ports && rx_buf.Length == buffers
      ensures queues == seq(ports, _ => Empty())
      ensures pool == seq(buffers, _ => true)
    {
      var array' := new Buffer<S>[buffers](_ => Buffer(blank, UNALLOCATED, 0, NIL));
      var managers: seq<ReceiveBufferManager<S>> := [];
      ghost var empty := Closed(array'[..], NIL);
      while |managers| < ports
        invariant |managers| <= ports
        invariant forall i :: 0 <= i < |managers| ==> fresh(managers[i]) && managers[i].rx_buf == array'
        invariant forall i :: 0 <= i < |managers| ==> managers[i].view == empty && managers[i].PointersMirrored()
        invariant forall i, j :: 0 <= i < j < |managers| ==> managers[i] != managers[j]
        invariant array'[..] == empty.mem
      {
        var m := new ReceiveBufferManager(array');
        managers := managers + [m];
      }
      rx_buf, mgr, Repr := array', managers, {this, array'} + set m | m in managers;
      views := seq(ports, _ => empty);
      queues := seq(ports, _ => Empty());
      pool := seq(buffers, _ => true);
      new;
      hide Consistent;
      ClosedIsEmpty(rx_buf[..], NIL);
    }

    /** The other managers' views catch up with what manager r has done to the array. */
    ghost method Reattach(r: nat)
      requires r < |mgr| == |views| && Laid()
      requires forall i: nat :: i < |mgr| && i != r ==> Attached(i)
      requires mgr[r].rx_buf == rx_buf && mgr[r].PointersMirrored()
      modifies this, mgr
      ensures views == Moved(old(views), r, old(mgr[r].view)) && AllAttached()
      ensures queues == AllQueues(views) && pool == UnallocatedIn(rx_buf[..])
    {
      views := Moved(views, r, mgr[r].view);
      queues, pool := AllQueues(views), UnallocatedIn(rx_buf[..]);
      forall i | 0 <= i < |mgr| && i != r {
        mgr[i].view := views[i];
      }
      forall i: nat | i < |mgr| ensures Attached(i) {
        assert i != r ==> old(Attached(i));
      }
    }

    /** After a step of manager r on buffers it owns. */
    ghost method Settle(r: nat, mem: seq<Buffer<S>>)
      requires r < |mgr| == |views| && Laid() && System(views, mem)
      requires forall i: nat :: i < |mgr| && i != r ==> Attached(i)
      requires mgr[r].rx_buf == rx_buf && mgr[r].Valid() && mgr[r].view.owned == views[r].owned
      requires Steady(mem, rx_buf[..], mgr[r].view.owned)
      requires queues == AllQueues(views) && pool == UnallocatedIn(mem)
      modifies this, mgr
      ensures Valid() && queues == old(queues)[r := old(mgr[r].State())] && pool == old(pool)
    {
      StepKeepsSystem(views, mem, r, mgr[r].view);
      Reattach(r);
    }

    lemma PortsAligned()
      requires Valid()
      ensures forall r :: 0 <= r < |queues| ==> Aligned(queues[r])
    {
      forall r | 0 <= r < |queues| ensures Aligned(queues[r]) {
        assert Fits(views[r], rx_buf[..]);
      }
    }

    lemma ManagerValid(r: nat)
      requires Valid() && r < |mgr|
      ensures mgr[r].Valid() && mgr[r].rx_buf == rx_buf && mgr[r].view == views[r]
      ensures queues[r] == mgr[r].State()
    {
      assert Attached(r) && Fits(views[r], rx_buf[..]);
    }

    /** Gives port r the unallocated buffer b. */
    method Grant(r: nat, b: nat)
      requires Valid() && r < |mgr| && b < rx_buf.Length && pool[b] && queues[r].tailRight
      modifies Repr
      ensures Valid()
      ensures queues == old(queues)[r := ReceiveSpec.Grant(old(queues)[r], b)] && pool == old(pool)[b := false]
    {
      ManagerValid(r);
      ghost var mem, before := rx_buf[..], views;
      assert Fits(views[r], mem);
      mgr[r].Grant(b);
      GrantKeepsSystem(before, mem, r, b, mgr[r].view);
      Reattach(r);
    }

    /** Port r's task accepts its head segment, if there is one. */
    method TakeSegment(r: nat) returns (buf: int, data: seq<Item<S>>)
      requires Valid() && r < |mgr| && (queues[r].queue != [] ==> queues[r].tailRight)
      modifies Repr
      ensures Valid() && pool == old(pool)
      ensures buf == NIL <==> old(queues)[r].queue == []
      ensures buf == NIL ==> queues == old(queues) && data == []
      ensures buf != NIL ==>
                && queues == old(queues)[r := Accept(old(queues)[r])]
                && buf == old(queues)[r].pq[0] && data == [old(queues)[r].queue[0]]
    {
      ManagerValid(r);
      if mgr[r].head_pq == NIL {
        return NIL, [];
      }
      ghost var mem := rx_buf[..];
      var taken;
      buf, taken := mgr[r].TakeSegment();
      data := [taken];
      Settle(r, mem);
    }

    /** Port r's task gives back a buffer; fails exactly when the port does not hold it. */
    method ReleaseBuffer(r: nat, buf: nat) returns (ok: bool, ghost k: nat)
      requires Valid() && r < |mgr|
      modifies Repr
      ensures Valid() && pool == old(pool)
      ensures var p := old(queues)[r];
              && k <= |p.fq| == |p.held| && (k < |p.fq| ==> p.fq[k] == buf && p.held[k])
              && (forall i :: 0 <= i < k ==> !(p.fq[i] == buf && p.held[i]))
              && ok == (k < |p.fq|)
              && queues == old(queues)[r := if ok then ReleaseAt(p, k) else p]
    {
      ManagerValid(r);
      ghost var mem := rx_buf[..];
      ok, k := mgr[r].ReleaseBuffer(buf);
      Settle(r, mem);
    }

    /** A segment arrives for port r. */
    method Insert(r: nat, data: S, prio: int, overwrite: bool)
      requires Valid() && r < |mgr|
      modifies Repr
      ensures Valid() && pool == old(pool)
      ensures queues == old(queues)[r := Arrive(old(queues)[r], Item(prio, data), overwrite)]
    {
      ManagerValid(r);
      ghost var mem := rx_buf[..];
      mgr[r].InsertRxPq(data, prio, overwrite);
      Settle(r, mem);
    }

    /** Port r is closed, wherever its tail pointer points. */
    method Close(r: nat)
      requires Valid() && r < |mgr|
      modifies Repr
      ensures Valid()
      ensures queues == old(queues)[r := Empty()]
      ensures pool == GiveBack(old(pool), old(queues)[r].fq + old(queues)[r].pq)
    {
      ManagerValid(r);
      ghost var mem, before := rx_buf[..], views;
      mgr[r].CloseQueues();
      CloseKeepsSystem(before, mem, r, mgr[r].view);
      Reattach(r);
    }

    /** receive()'s test for an empty receive queue. */
    method AllFree(r: nat) returns (b: bool)
      requires Valid() && r < |mgr|
      ensures b <==> CountFree(queues[r]) == CountTotal(queues[r])
    {
      ManagerValid(r);
      b := mgr[r].AllFree();
    }

    /** The count reported to a task: its port's queued segments, and the buffers lost to evictions. */
    method CheckReceiveQueue(r: nat) returns (count: int)
      requires Valid() && r < |mgr|
      ensures count == |queues[r].queue| + |queues[r].stranded|
    {
      ManagerValid(r);
      count := mgr[r].CheckReceiveQueue();
    }
  }
}
