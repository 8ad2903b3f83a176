/** The transport layer's global arrays and the calls that update them in place, over the receive buffer
  * managers with their linked queues.  Every call is proved to do exactly what its function in SocketSpec
  * says.
  *
  * The searches, loops and assignments are those of the code; what they achieve is in the lemmas about the
  * functions.
  */
module TransportLayer {
  import opened Options
  import opened PriorityQueue
  import opened ReceiveSpec
  import opened LinkedBuffers
  import opened ReceivePool
  import opened SocketSpec

  /** What the searching functions of the code return: the index found, or NRK_ERROR. */
  function Found(k: nat, size: nat): int {
    if k < size then k else NRK_ERROR
  }

  lemma {:induction false} HeldIs(fq: seq<nat>, held: seq<bool>, buf: nat, k: nat)
    requires |fq| == |held| && k <= |fq|
    requires k < |fq| ==> fq[k] == buf && held[k]
    requires forall i :: 0 <= i < k ==> !(fq[i] == buf && held[i])
    ensures HeldAt(fq, held, buf) == k
  {
    if k > 0 {
      assert !(fq[0] == buf && held[0]);
      HeldIs(fq[1..], held[1..], buf, k - 1);
    }
  }

  ghost function AcceptOrNot<T>(q: PortQueues<T>): PortQueues<T>
    requires |q.pq| == |q.queue|
  {
    if q.queue == [] then q else Accept(q)
  }

  ghost function WithQueues<T>(l: Layer<T>, r: nat, q: PortQueues<T>): Layer<T>
    requires r < |l.rbm|
  {
    l.(rbm := l.rbm[r := l.rbm[r].(q := q)])
  }

  lemma SameQueues<T>(l: Layer<T>, r: nat)
    requires r < |l.rbm|
    ensures WithQueues(l, r, l.rbm[r].q) == l
  {
    assert l.rbm[r := l.rbm[r].(q := l.rbm[r].q)] == l.rbm;
  }

  lemma AllocateFirst<T>(l: Layer<T>, r: nat, n: nat)
    requires r < |l.rbm| && n > 0
    ensures AllocateMany(l, r, n) ==
            if FreeBuffer(l) == |l.unalloc| then None else AllocateMany(Allocate(l, r), r, n - 1)
  {
  }

  ghost function RbmsOf<T>(pindex: seq<int>, queues: seq<PortQueues<T>>): (r: seq<Rbm<T>>)
    requires |pindex| == |queues|
    ensures |r| == |pindex| && forall i :: 0 <= i < |r| ==> r[i] == Rbm(pindex[i], queues[i])
  {
    seq(|pindex|, i requires 0 <= i < |pindex| => Rbm(pindex[i], queues[i]))
  }

  lemma RbmUpdated<T>(pindex: seq<int>, queues: seq<PortQueues<T>>, r: nat, p: int, q: PortQueues<T>)
    requires |pindex| == |queues| && r < |pindex|
    ensures RbmsOf(pindex[r := p], queues[r := q]) == RbmsOf(pindex, queues)[r := Rbm(p, q)]
    ensures pindex[r := pindex[r]] == pindex && queues[r := queues[r]] == queues
  {
  }

  class TransportLayerUDP<T> {
    const sock: array<Socket>
    const ports: array<nat>
    const pindex: array<int>  // rx_buf_mgr[].pindex; the rest of rx_buf_mgr[] is in bufs
    const bufs: ReceiveBuffers<T>
    var numBufsFree: int

    ghost var layer: Layer<T>

    ghost predicate Mirrored()
      reads this, sock, ports, pindex, bufs
    {
      && layer.sock == sock[..] && layer.ports == ports[..] && layer.numBufsFree == numBufsFree
      && |bufs.mgr| == |bufs.queues| == pindex.Length && |bufs.pool| == bufs.rx_buf.Length
      && layer.rbm == RbmsOf(pindex[..], bufs.queues) && layer.unalloc == bufs.pool
    }

    ghost predicate Apart() {
      {this, sock, ports, pindex} !! bufs.Repr
    }

    /** layer is exactly the arrays and the managers' queues. */
    ghost predicate Valid()
      reads this, sock, ports, pindex, bufs, bufs.Repr
    {
      Apart() && Mirrored() && AllAligned(layer) && bufs.Valid()
    }

    constructor (sockets: nat, buffers: nat, blank: T)
      ensures Valid() && fresh(sock) && fresh(ports) && fresh(pindex) && fresh(bufs.Repr)
      ensures layer == Initial(sockets, buffers)
    {
      sock := new Socket[sockets](_ => Socket(INVALID_PID, DGRAM, UNMAPPED, UNMAPPED));
      ports := new nat[sockets](_ => INVALID_PORT);
      pindex := new int[sockets](_ => UNMAPPED);
      bufs := new ReceiveBuffers<T>(sockets, buffers, blank);
      numBufsFree := buffers;
      layer := Initial(sockets, buffers);
    }

    // -------------------------------------------------------------- searches

    method GetNextAvailableSocket() returns (i: int)
      requires Valid()
      ensures i == Found(FreeSocket(layer), sock.Length)
    {
      i := 0;
      while i < sock.Length
        invariant 0 <= i <= sock.Length
        invariant forall j :: 0 <= j < i ==> sock[j].pid != INVALID_PID
      {
        if sock[i].pid == INVALID_PID {
          break;
        }
        i := i + 1;
      }
      assert FreeSocket(layer) == i;
      if i == sock.Length {
        i := NRK_ERROR;
      }
    }

    method GetIndexUnassignedPortElement() returns (i: int)
      requires Valid()
      ensures i == Found(FreePort(layer), ports.Length)
    {
      i := 0;
      while i < ports.Length
        invariant 0 <= i <= ports.Length
        invariant forall j :: 0 <= j < i ==> ports[j] != INVALID_PORT
      {
        if ports[i] == INVALID_PORT {
          break;
        }
        i := i + 1;
      }
      assert FreePort(layer) == i;
      if i == ports.Length {
        i := NRK_ERROR;
      }
    }

    method GetIndexUnassignedRbmElement() returns (i: int)
      requires Valid()
      ensures i == Found(FreeRbm(layer), pindex.Length)
    {
      i := 0;
      while i < pindex.Length
        invariant 0 <= i <= pindex.Length
        invariant forall j :: 0 <= j < i ==> layer.rbm[j].pindex != UNMAPPED
      {
        if pindex[i] == UNMAPPED {
          break;
        }
        i := i + 1;
      }
      assert FreeRbm(layer) == i;
      if i == pindex.Length {
        i := NRK_ERROR;
      }
    }

    method GetIndexUnallocatedRxBuf() returns (i: int)
      requires Valid()
      ensures i == Found(FreeBuffer(layer), bufs.rx_buf.Length)
    {
      i := 0;
      while i < bufs.rx_buf.Length
        invariant 0 <= i <= bufs.rx_buf.Length
        invariant forall j :: 0 <= j < i ==> !layer.unalloc[j]
      {
        if bufs.rx_buf[i].status == UNALLOCATED {
          break;
        }
        i := i + 1;
      }
      assert FreeBuffer(layer) == i;
      if i == bufs.rx_buf.Length {
        i := NRK_ERROR;
      }
    }

    method CheckPort(port: nat) returns (r: int)
      ensures r == CheckPortAvailable(ports[..], port)
    {
      var j := 0;
      while j < ports.Length
        invariant 0 <= j <= ports.Length
        invariant port !in ports[..j]
      {
        if ports[j] == port {
          assert ports[..][j] == port;
          return NRK_ERROR;
        }
        j := j + 1;
      }
      assert ports[..] == ports[..j];
      r := NRK_OK;
    }

    /** The lowest ephemeral number that no port element has, or none when all are taken. */
    method GetNextAvailablePort() returns (p: nat)
      ensures p == EphemeralFrom(ports[..], EPHEMERAL_PORT_NUM_START)
      ensures p != INVALID_PORT ==> EPHEMERAL_PORT_NUM_START <= p <= MAX_PORT_NUM && p !in ports[..]
      ensures var end := if p == INVALID_PORT then MAX_PORT_NUM + 1 else p;
              forall q :: EPHEMERAL_PORT_NUM_START <= q < end ==> q in ports[..]
    {
      p := EPHEMERAL_PORT_NUM_START;
      while p <= MAX_PORT_NUM
        invariant p <= MAX_PORT_NUM + 1
        invariant EphemeralFrom(ports[..], EPHEMERAL_PORT_NUM_START) == EphemeralFrom(ports[..], p)
      {
        var taken := CheckPort(p);
        if taken == NRK_OK {
          return;
        }
        p := p + 1;
      }
      p := INVALID_PORT;
    }

    method PortToRbmIndex(port: nat) returns (i: int)
      requires Valid()
      ensures i == Found(RbmOfPort(layer, port), pindex.Length)
    {
      hide ReceiveBuffers.Valid;
      i := 0;
      while i < pindex.Length
        invariant 0 <= i <= pindex.Length
        invariant forall j :: 0 <= j < i ==> !Serves(layer, layer.rbm[j], port)
      {
        if pindex[i] != UNMAPPED {
          if 0 <= pindex[i] < ports.Length && ports[pindex[i]] == port {
            break;
          }
        }
        i := i + 1;
      }
      assert RbmOfPort(layer, port) == i;
      if i == pindex.Length {
        i := NRK_ERROR;
      }
    }

    // -------------------------------------------------------------- mapping and allocating

    method Associate(s: nat, p: nat, r: nat, port: nat)
      requires Valid() && s < sock.Length && p < ports.Length && r < pindex.Length
      modifies this`layer, sock, ports, pindex
      ensures Valid() && layer == Map(old(layer), s, p, r, port)
    {
      RbmUpdated(pindex[..], bufs.queues, r, p, bufs.queues[r]);
      ports[p] := port;
      sock[s] := sock[s].(pindex := p, rbmindex := r);
      pindex[r] := p;
      layer := Map(layer, s, p, r, port);
      assert pindex[..] == old(pindex[..])[r := p];
    }

    /** One buffer of the pool goes to an rbm element. */
    method AllocateOne(r: nat, b: nat)
      requires Valid() && r < pindex.Length && b == FreeBuffer(layer) < bufs.rx_buf.Length
      requires layer.rbm[r].q.tailRight
      modifies this, bufs.Repr
      ensures Valid() && layer == Allocate(old(layer), r)
    {
      RbmUpdated(pindex[..], bufs.queues, r, pindex[r], Grant(bufs.queues[r], b));
      bufs.Grant(r, b);
      numBufsFree := numBufsFree - 1;
      layer := Allocate(layer, r);
    }

    /** The allocation loop of bind(), send() and set_rx_queue_size(). */
    method AllocateBuffers(r: nat, size: nat) returns (ok: bool)
      requires Valid() && r < pindex.Length
      requires size > 0 ==> layer.rbm[r].q.tailRight
      modifies this, bufs.Repr
      ensures Valid() && (ok <==> AllocateMany(old(layer), r, size).Some?)
      ensures ok ==> layer == AllocateMany(old(layer), r, size).value
    {
      hide ReceiveBuffers.Valid;
      var i := 0;
      ghost var all := AllocateMany(layer, r, size);
      while i < size
        invariant 0 <= i <= size && Valid() && (i < size ==> layer.rbm[r].q.tailRight)
        invariant all == AllocateMany(layer, r, size - i)
      {
        AllocateFirst(layer, r, size - i);
        var b := GetIndexUnallocatedRxBuf();
        if b == NRK_ERROR {
          return false;
        }
        AllocateOne(r, b);
        i := i + 1;
      }
      ok := true;
    }

    method MapSocket(s: nat, port: nat, size: nat) returns (reply: Reply)
      requires Valid() && s < sock.Length
      requires NewTailRight(layer)
      modifies this, sock, ports, pindex, bufs.Repr
      ensures Valid() && reply == MapAndAllocate(old(layer), s, port, size).1
      ensures reply != Panic ==> layer == MapAndAllocate(old(layer), s, port, size).0
    {
      hide ReceiveBuffers.Valid;
      var p := GetIndexUnassignedPortElement();
      var r := GetIndexUnassignedRbmElement();
      if p == NRK_ERROR || r == NRK_ERROR {
        return Panic;
      }
      Associate(s, p, r, port);
      var ok := AllocateBuffers(r, size);
      reply := if ok then Ok(size) else Panic;
    }

    // -------------------------------------------------------------- the calls

    method Create(kind: SockType, pid: int) returns (reply: Reply)
      requires Valid()
      modifies this`layer, sock
      ensures Valid() && (layer, reply) == CreateSocket(old(layer), kind, pid)
    {
      match kind {
        case DGRAM | IPC | RAW =>
          var s := GetNextAvailableSocket();
          if s == NRK_ERROR {
            return Err(NoSocketDesc);
          }
          sock[s] := sock[s].(pid := pid, kind := kind);
          layer := CreateSocket(layer, kind, pid).0;
          reply := Ok(s);
        case SEQPACKET => reply := Err(UnsupportedType);
      }
    }

    method BindSocket(s: int, port: int, pid: int) returns (reply: Reply)
      requires Valid()
      requires NewTailRight(layer)
      modifies this, sock, ports, pindex, bufs.Repr
      ensures Valid() && reply == Bind(old(layer), s, port, pid).1
      ensures reply != Panic ==> layer == Bind(old(layer), s, port, pid).0
    {
      if s < 0 || s >= sock.Length || port <= 0 || port > MAX_PORT_NUM {
        return Err(InvalidArgument);
      }
      if sock[s].pid != pid || sock[s].kind == RAW {
        return Err(InvalidSocket);
      }
      if sock[s].rbmindex != UNMAPPED {
        return Err(InvalidCall);
      }
      var available := CheckPort(port);
      if available == FALSE {
        return Err(NoPorts);
      }
      if numBufsFree < DEFAULT_RX_QUEUE_SIZE {
        return Err(NoRxBuffers);
      }
      if sock[s].pindex != UNMAPPED {
        return Panic;
      }
      reply := MapSocket(s, port, DEFAULT_RX_QUEUE_SIZE);
    }

    /** The part of send() that runs on a socket not yet mapped. */
    method MapBeforeSend(s: int, pid: int) returns (reply: Reply)
      requires Valid()
      requires NewTailRight(layer)
      modifies this, sock, ports, pindex, bufs.Repr
      ensures Valid() && reply == MapForSend(old(layer), s, pid).1
      ensures reply != Panic ==> layer == MapForSend(old(layer), s, pid).0
    {
      if s < 0 || s >= sock.Length {
        return Err(InvalidArgument);
      }
      if sock[s].pid != pid {
        return Err(InvalidSocket);
      }
      if sock[s].kind == RAW || sock[s].pindex != UNMAPPED {
        return Ok(0);
      }
      if numBufsFree < DEFAULT_RX_QUEUE_SIZE {
        return Err(NoRxBuffers);
      }
      var port := GetNextAvailablePort();
      reply := MapSocket(s, port, DEFAULT_RX_QUEUE_SIZE);
    }

    /** The code's rbm_index is assigned on the first branch only; unset is what it starts with. */
    method SetReceiveQueueSize(s: int, size: int, pid: int, unset: nat) returns (reply: Reply)
      requires Valid() && unset < |layer.rbm|
      requires NewTailRight(layer) && !GrowthBreaks(layer, s, size, pid, unset)
      modifies this, sock, ports, pindex, bufs.Repr
      ensures Valid() && reply == SetRxQueueSize(old(layer), s, size, pid, unset).1
      ensures reply != Panic ==> layer == SetRxQueueSize(old(layer), s, size, pid, unset).0
    {
      hide ReceiveBuffers.Valid;
      if s < 0 || s >= sock.Length || size <= 0 {
        return Err(InvalidArgument);
      }
      if sock[s].pid != pid || sock[s].kind == RAW {
        return Err(InvalidSocket);
      }
      if sock[s].pindex == UNMAPPED {
        var port := GetNextAvailablePort();
        if port == INVALID_PORT {
          return Err(NoPorts);
        }
        if numBufsFree < DEFAULT_RX_QUEUE_SIZE {
          return Err(NoRxBuffers);
        }
        reply := MapSocket(s, port, if numBufsFree < size then numBufsFree else size);
        return;
      }
      if size == DEFAULT_RX_QUEUE_SIZE {
        return Ok(size);
      }
      var n := size - DEFAULT_RX_QUEUE_SIZE;
      if numBufsFree < n {
        n := numBufsFree;
      }
      if n < 0 {
        return Ok(n + DEFAULT_RX_QUEUE_SIZE);
      }
      var ok := AllocateBuffers(unset, n);
      reply := if ok then Ok(n + DEFAULT_RX_QUEUE_SIZE) else Panic;
    }

    /** The checks every call on a descriptor starts with. */
    method CheckDescriptor(s: int, pid: int) returns (e: Option<Error>)
      requires Valid()
      ensures e == Check(layer, s, pid)
    {
      if s < 0 || s >= sock.Length {
        return Some(InvalidArgument);
      }
      if sock[s].pid != pid {
        return Some(InvalidSocket);
      }
      e := None;
    }

    /** The head of the port queue, if any, moves to the tail of the free queue, held. */
    method TakeFrom(r: nat) returns (buf: int, data: seq<Item<T>>)
      requires Valid() && r < pindex.Length
      requires layer.rbm[r].q.queue != [] ==> layer.rbm[r].q.tailRight
      modifies this`layer, bufs.Repr
      ensures Valid() && layer == WithQueues(old(layer), r, AcceptOrNot(old(layer).rbm[r].q))
      ensures var q := old(layer).rbm[r].q;
              && (buf == NIL <==> q.queue == []) && (buf != NIL ==> buf == q.pq[0] && data == [q.queue[0]])
    {
      hide ReceiveBuffers.Valid;
      ghost var after := AcceptOrNot(bufs.queues[r]);
      RbmUpdated(pindex[..], bufs.queues, r, pindex[r], after);
      buf, data := bufs.TakeSegment(r);
      layer := WithQueues(layer, r, after);
    }

    /** A segment goes to the port of an rbm element. */
    method InsertAt(r: nat, data: T, prio: int, overwrite: bool)
      requires Valid() && r < pindex.Length
      modifies this`layer, bufs.Repr
      ensures Valid() && layer == WithQueues(old(layer), r, Arrive(old(layer).rbm[r].q, Item(prio, data), overwrite))
    {
      hide ReceiveBuffers.Valid;
      ghost var after := Arrive(bufs.queues[r], Item(prio, data), overwrite);
      RbmUpdated(pindex[..], bufs.queues, r, pindex[r], after);
      bufs.Insert(r, data, prio, overwrite);
      layer := WithQueues(layer, r, after);
      bufs.PortsAligned();
    }

    /** receive(): tests the counters, then takes the head of the port queue and puts its buffer, held,
      * at the tail of the free queue. */
    method ReceiveSegment(s: int, pid: int) returns (reply: Reply, data: seq<Item<T>>)
      requires Valid()
      requires !AcceptBreaks(layer, s, pid)
      modifies this`layer, bufs.Repr
      ensures Valid() && (layer, reply) == Receive(old(layer), s, pid)
      ensures reply.Ok? ==>
                && 0 <= s < sock.Length && 0 <= sock[s].rbmindex < pindex.Length
                && old(layer).rbm[sock[s].rbmindex].q.queue != []
                && data == [old(layer).rbm[sock[s].rbmindex].q.queue[0]]
    {
      hide ReceiveBuffers.Valid;
      data := [];
      var e := CheckDescriptor(s, pid);
      if e.Some? {
        return Err(e.value), [];
      }
      if sock[s].pindex == UNMAPPED {
        return Err(InvalidSocket), [];
      }
      var r := sock[s].rbmindex;
      if r < 0 || r >= pindex.Length {
        return Panic, [];
      }
      var empty := bufs.AllFree(r);
      if empty {
        return Err(WouldBlock), [];
      }
      SameQueues(layer, r);
      var buf;
      buf, data := TakeFrom(r);
      reply := if buf == NIL then Panic else Ok(buf);
    }

    method Release(s: int, buf: nat, pid: int) returns (reply: Reply)
      requires Valid()
      modifies this`layer, bufs.Repr
      ensures Valid() && (layer, reply) == ReleaseBuffer(old(layer), s, buf, pid)
    {
      hide ReceiveBuffers.Valid;
      var e := CheckDescriptor(s, pid);
      if e.Some? {
        return Err(e.value);
      }
      if sock[s].kind == RAW || sock[s].pindex == UNMAPPED {
        return Err(InvalidSocket);
      }
      var r := sock[s].rbmindex;
      if r < 0 || r >= pindex.Length {
        return Panic;
      }
      ghost var q := bufs.queues[r];
      ghost var at := HeldAt(q.fq, q.held, buf);
      ghost var after := if at < |q.fq| then ReleaseAt(q, at) else q;
      RbmUpdated(pindex[..], bufs.queues, r, pindex[r], after);
      var ok;
      ghost var k;
      ok, k := bufs.ReleaseBuffer(r, buf);
      HeldIs(q.fq, q.held, buf, k);
      layer := WithQueues(layer, r, after);
      reply := if ok then Ok(NRK_OK) else Err(InvalidArgument);
    }

    /** The part of process_app_pkt() that queues a segment for its port. */
    method DeliverSegment(port: nat, data: T, prio: int, overwrite: bool)
      requires Valid()
      modifies this`layer, bufs.Repr
      ensures Valid() && layer == Deliver(old(layer), port, Item(prio, data), overwrite)
    {
      var r := PortToRbmIndex(port);
      if r != NRK_ERROR {
        InsertAt(r, data, prio, overwrite);
      }
    }

    /** Gives back the buffers of an rbm element and releases it with its port element. */
    method CloseElements(p: nat, r: nat)
      requires Valid() && p < ports.Length && r < pindex.Length
      modifies this`layer, ports, pindex, bufs.Repr
      ensures Valid() && layer == Unassign(old(layer), p, r)
    {
      hide ReceiveBuffers.Valid;
      RbmUpdated(pindex[..], bufs.queues, r, UNMAPPED, Empty());
      bufs.Close(r);
      pindex[r] := UNMAPPED;
      ports[p] := INVALID_PORT;
      layer := Unassign(layer, p, r);
      assert pindex[..] == old(pindex[..])[r := UNMAPPED];
    }

    method CloseDescriptor(s: int, pid: int) returns (reply: Reply)
      requires Valid()
      modifies this`layer, sock, ports, pindex, bufs.Repr
      ensures Valid() && reply == CloseSocket(old(layer), s, pid).1
      ensures reply != Panic ==> layer == CloseSocket(old(layer), s, pid).0
    {
      hide ReceiveBuffers.Valid;
      ghost var after := CloseSocket(layer, s, pid).0;
      var e := CheckDescriptor(s, pid);
      if e.Some? {
        return Err(e.value);
      }
      if sock[s].kind == RAW {
        sock[s] := sock[s].(pid := INVALID_PID);
        layer := after;
        return Ok(NRK_OK);
      }
      if sock[s].pindex != UNMAPPED {
        var p, r := sock[s].pindex, sock[s].rbmindex;
        if p < 0 || p >= ports.Length || r < 0 || r >= pindex.Length {
          return Panic;
        }
        CloseElements(p, r);
      }
      sock[s] := sock[s].(pid := INVALID_PID, pindex := UNMAPPED, rbmindex := UNMAPPED);
      layer := after;
      reply := Ok(NRK_OK);
    }

    /** check_receive_queue(): the port's three counters give its queued segments, and the buffers lost to
      * evictions. */
    method CheckQueue(s: int, pid: int) returns (reply: Reply)
      requires Valid()
      ensures reply == CheckReceiveQueue(layer, s, pid)
    {
      var e := CheckDescriptor(s, pid);
      if e.Some? {
        return Err(e.value);
      }
      if sock[s].pindex == UNMAPPED {
        return Err(InvalidSocket);
      }
      var r := sock[s].rbmindex;
      if r < 0 || r >= pindex.Length {
        return Panic;
      }
      var count := bufs.CheckReceiveQueue(r);
      reply := Ok(count);
    }
  }
}
