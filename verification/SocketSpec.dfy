/** The transport layer's state as a value, and what each of its calls does to it: socket
  * descriptors, port elements, receive buffer managers (rbm elements) and the shared buffer pool.
  */
module SocketSpec {
  import opened Options
  import opened PriorityQueue
  import opened ReceiveSpec
  import opened ReceiveRuns

  const UNMAPPED: int := -1
  const INVALID_PID: int := 0
  const INVALID_PORT: nat := 0
  const EPHEMERAL_PORT_NUM_START: nat := 11
  const MAX_PORT_NUM: nat := 255
  const DEFAULT_RX_QUEUE_SIZE: nat := 1
  const NRK_OK: int := 1
  const NRK_ERROR: int := -1
  const FALSE: int := 0

  datatype SockType = DGRAM | SEQPACKET | RAW | IPC

  datatype Socket = Socket(pid: int, kind: SockType, pindex: int, rbmindex: int)

  /** One receive buffer manager: the port element it serves and the queues of that port. */
  datatype Rbm<T> = Rbm(pindex: int, q: PortQueues<T>)

  /** unalloc[b]: the status of buffer b is UNALLOCATED.  numBufsFree is the separately kept count. */
  datatype Layer<T> = Layer(sock: seq<Socket>, ports: seq<nat>, rbm: seq<Rbm<T>>, unalloc: seq<bool>, numBufsFree: int)

  datatype Error = InvalidArgument | InvalidSocket | InvalidCall | NoSocketDesc | UnsupportedType
                 | NoPorts | NoRxBuffers | WouldBlock

  /** Panic: the code disables interrupts and loops on a message that reports a bug in itself. */
  datatype Reply = Ok(value: int) | Err(error: Error) | Panic

  ghost predicate AllAligned<T>(l: Layer<T>) {
    forall r :: 0 <= r < |l.rbm| ==> Aligned(l.rbm[r].q)
  }

  /** The state initialise_transport_layer_udp() and initialise_buffer_manager() leave. */
  ghost function Initial<T>(sockets: nat, buffers: nat): Layer<T> {
    Layer(seq(sockets, _ => Socket(INVALID_PID, DGRAM, UNMAPPED, UNMAPPED)), seq(sockets, _ => INVALID_PORT),
          seq(sockets, _ => Rbm(UNMAPPED, Empty())), seq(buffers, _ => true), buffers)
  }

  // ---------------------------------------------------------------- linear searches

  function First<X>(s: seq<X>, p: X -> bool): (k: nat)
    ensures k <= |s|
    ensures k < |s| ==> p(s[k])
    ensures forall i :: 0 <= i < k ==> !p(s[i])
  {
    if s == [] || p(s[0]) then 0 else 1 + First(s[1..], p)
  }

  function FreeSocket<T>(l: Layer<T>): nat {
    First(l.sock, (s: Socket) => s.pid == INVALID_PID)
  }

  function FreePort<T>(l: Layer<T>): nat {
    First(l.ports, (p: nat) => p == INVALID_PORT)
  }

  function FreeRbm<T>(l: Layer<T>): nat {
    First(l.rbm, (r: Rbm<T>) => r.pindex == UNMAPPED)
  }

  function FreeBuffer<T>(l: Layer<T>): nat {
    First(l.unalloc, (u: bool) => u)
  }

  /** The lowest ephemeral port number at or above i that no port element has. */
  function EphemeralFrom(ports: seq<nat>, i: nat): (p: nat)
    ensures p == INVALID_PORT || (i <= p <= MAX_PORT_NUM && p !in ports)
    ensures forall q: nat :: i <= q < (if p == INVALID_PORT then MAX_PORT_NUM + 1 else p) && i > 0 ==> q in ports
    decreases MAX_PORT_NUM + 1 - i
  {
    if i > MAX_PORT_NUM then INVALID_PORT else if i !in ports then i else EphemeralFrom(ports, i + 1)
  }

  function CheckPortAvailable(ports: seq<nat>, port: nat): int {
    if port in ports then NRK_ERROR else NRK_OK
  }

  // ---------------------------------------------------------------- the building blocks

  /** Assigns a port element and an rbm element to a socket. */
  function Map<T>(l: Layer<T>, s: nat, p: nat, r: nat, port: nat): Layer<T>
    requires s < |l.sock| && p < |l.ports| && r < |l.rbm|
  {
    l.(ports := l.ports[p := port],
       sock := l.sock[s := l.sock[s].(pindex := p, rbmindex := r)],
       rbm := l.rbm[r := l.rbm[r].(pindex := p)])
  }

  /** Takes both back, and the element's queues with their buffers. */
  function Unassign<T>(l: Layer<T>, p: nat, r: nat): Layer<T>
    requires p < |l.ports| && r < |l.rbm|
  {
    l.(ports := l.ports[p := INVALID_PORT],
       unalloc := GiveBack(l.unalloc, l.rbm[r].q.fq + l.rbm[r].q.pq),
       rbm := l.rbm[r := Rbm(UNMAPPED, Empty())])
  }

  /** Gives the first unallocated buffer to an rbm element. */
  function Allocate<T>(l: Layer<T>, r: nat): Layer<T>
    requires r < |l.rbm| && FreeBuffer(l) < |l.unalloc|
  {
    var b := FreeBuffer(l);
    l.(unalloc := l.unalloc[b := false], numBufsFree := l.numBufsFree - 1,
       rbm := l.rbm[r := l.rbm[r].(q := Grant(l.rbm[r].q, b))])
  }

  /** Allocates n buffers one by one; None where the code would find no buffer although it counted one. */
  function AllocateMany<T>(l: Layer<T>, r: nat, n: nat): (o: Option<Layer<T>>)
    requires r < |l.rbm|
    ensures o.Some? ==> |o.value.rbm| == |l.rbm|
    decreases n
  {
    if n == 0 then Some(l)
    else if FreeBuffer(l) == |l.unalloc| then None
    else AllocateMany(Allocate(l, r), r, n - 1)
  }

  /** Maps an unmapped socket and gives it n buffers, or panics. */
  function MapAndAllocate<T>(l: Layer<T>, s: nat, port: nat, n: nat): (Layer<T>, Reply)
    requires s < |l.sock|
  {
    var p, r := FreePort(l), FreeRbm(l);
    if p == |l.ports| || r == |l.rbm| then (l, Panic)
    else
      match AllocateMany(Map(l, s, p, r, port), r, n)
      case None => (l, Panic)
      case Some(m) => (m, Ok(n))
  }

  /** The checks every call on a descriptor starts with. */
  function Check<T>(l: Layer<T>, s: int, pid: int): Option<Error> {
    if s < 0 || s >= |l.sock| then Some(InvalidArgument)
    else if l.sock[s].pid != pid then Some(InvalidSocket)
    else None
  }

  // ---------------------------------------------------------------- buffers behind a wrong tail pointer

  /** The rbm element the next mapping would use has the right tail pointer. */
  predicate NewTailRight<T>(l: Layer<T>) {
    FreeRbm(l) < |l.rbm| ==> l.rbm[FreeRbm(l)].q.tailRight
  }

  /** set_rx_queue_size() on a mapped socket, with buffers to give. */
  predicate Grows<T>(l: Layer<T>, s: int, size: int, pid: int) {
    && Check(l, s, pid) == None && l.sock[s].kind != RAW && l.sock[s].pindex != UNMAPPED
    && size > DEFAULT_RX_QUEUE_SIZE && l.numBufsFree > 0
  }

  /** It gives them to an element whose tail pointer has been left behind. */
  predicate GrowthBreaks<T>(l: Layer<T>, s: int, size: int, pid: int, unset: nat) {
    Grows(l, s, size, pid) && unset < |l.rbm| && !l.rbm[unset].q.tailRight
  }

  /** receive() accepts a segment on a port whose tail pointer has been left behind. */
  predicate AcceptBreaks<T>(l: Layer<T>, s: int, pid: int) {
    && Check(l, s, pid) == None && l.sock[s].pindex != UNMAPPED && 0 <= l.sock[s].rbmindex < |l.rbm|
    && var q := l.rbm[l.sock[s].rbmindex].q; q.queue != [] && !q.tailRight
  }

  // ---------------------------------------------------------------- the calls

  function CreateSocket<T>(l: Layer<T>, kind: SockType, pid: int): (Layer<T>, Reply) {
    if kind == SEQPACKET then (l, Err(UnsupportedType))
    else if FreeSocket(l) == |l.sock| then (l, Err(NoSocketDesc))
    else
      var s := FreeSocket(l);
      (l.(sock := l.sock[s := l.sock[s].(pid := pid, kind := kind)]), Ok(s))
  }

  /** bind() as written: the availability check compares NRK_OK or NRK_ERROR with FALSE. */
  function Bind<T>(l: Layer<T>, s: int, port: int, pid: int): (Layer<T>, Reply) {
    if s < 0 || s >= |l.sock| then (l, Err(InvalidArgument))
    else if port <= 0 || port > MAX_PORT_NUM then (l, Err(InvalidArgument))
    else if l.sock[s].pid != pid then (l, Err(InvalidSocket))
    else if l.sock[s].kind == RAW then (l, Err(InvalidSocket))
    else if l.sock[s].rbmindex != UNMAPPED then (l, Err(InvalidCall))
    else if CheckPortAvailable(l.ports, port) == FALSE then (l, Err(NoPorts))
    else if l.numBufsFree < DEFAULT_RX_QUEUE_SIZE then (l, Err(NoRxBuffers))
    else if l.sock[s].pindex != UNMAPPED then (l, Panic)
    else MapAndAllocate(l, s, port, DEFAULT_RX_QUEUE_SIZE)
  }

  /** The part of send() that maps a socket which has not been bound. */
  function MapForSend<T>(l: Layer<T>, s: int, pid: int): (Layer<T>, Reply) {
    if Check(l, s, pid).Some? then (l, Err(Check(l, s, pid).value))
    else if l.sock[s].kind == RAW || l.sock[s].pindex != UNMAPPED then (l, Ok(0))
    else if l.numBufsFree < DEFAULT_RX_QUEUE_SIZE then (l, Err(NoRxBuffers))
    else MapAndAllocate(l, s, EphemeralFrom(l.ports, EPHEMERAL_PORT_NUM_START), DEFAULT_RX_QUEUE_SIZE)
  }

  /** set_rx_queue_size() as written: on a socket that is already mapped the buffers go to whichever
    * rbm element the unset local variable names. */
  function SetRxQueueSize<T>(l: Layer<T>, s: int, size: int, pid: int, unset: nat): (Layer<T>, Reply)
    requires unset < |l.rbm|
  {
    if s < 0 || s >= |l.sock| || size <= 0 then (l, Err(InvalidArgument))
    else if l.sock[s].pid != pid then (l, Err(InvalidSocket))
    else if l.sock[s].kind == RAW then (l, Err(InvalidSocket))
    else if l.sock[s].pindex == UNMAPPED then
      var port := EphemeralFrom(l.ports, EPHEMERAL_PORT_NUM_START);
      if port == INVALID_PORT then (l, Err(NoPorts))
      else if l.numBufsFree < DEFAULT_RX_QUEUE_SIZE then (l, Err(NoRxBuffers))
      else MapAndAllocate(l, s, port, if l.numBufsFree < size then l.numBufsFree else size)
    else if size == DEFAULT_RX_QUEUE_SIZE then (l, Ok(size))
    else
      var more := size - DEFAULT_RX_QUEUE_SIZE;
      var n := if l.numBufsFree < more then l.numBufsFree else more;
      if n < 0 then (l, Ok(n + DEFAULT_RX_QUEUE_SIZE))
      else
        match AllocateMany(l, unset, n)
        case None => (l, Panic)
        case Some(m) => (m, Ok(n + DEFAULT_RX_QUEUE_SIZE))
  }

  /** receive(): accepts a segment, or would block, or panics. */
  function Receive<T>(l: Layer<T>, s: int, pid: int): (Layer<T>, Reply)
    requires AllAligned(l)
  {
    if Check(l, s, pid).Some? then (l, Err(Check(l, s, pid).value))
    else if l.sock[s].pindex == UNMAPPED then (l, Err(InvalidSocket))
    else
      var r := l.sock[s].rbmindex;
      if r < 0 || r >= |l.rbm| then (l, Panic)
      else
        assert Aligned(l.rbm[r].q);
        var o := Step(l.rbm[r].q, Accepts);
        if o.Blocks? then (l, Err(WouldBlock))
        else if !o.Done? then (l, Panic)
        else (l.(rbm := l.rbm[r := l.rbm[r].(q := o.p)]), Ok(l.rbm[r].q.pq[0]))
  }

  /** release_buffer(): the position of the buffer among those held is found by a search. */
  function ReleaseBuffer<T>(l: Layer<T>, s: int, buf: nat, pid: int): (Layer<T>, Reply)
    requires AllAligned(l)
  {
    if Check(l, s, pid).Some? then (l, Err(Check(l, s, pid).value))
    else if l.sock[s].kind == RAW || l.sock[s].pindex == UNMAPPED then (l, Err(InvalidSocket))
    else
      var r := l.sock[s].rbmindex;
      if r < 0 || r >= |l.rbm| then (l, Panic)
      else
        assert Aligned(l.rbm[r].q);
        var q := l.rbm[r].q;
        var k := HeldAt(q.fq, q.held, buf);
        if k == |q.fq| then (l, Err(InvalidArgument))
        else (l.(rbm := l.rbm[r := l.rbm[r].(q := ReleaseAt(q, k))]), Ok(NRK_OK))
  }

  function HeldAt(fq: seq<nat>, held: seq<bool>, buf: nat): (k: nat)
    requires |fq| == |held|
    ensures k <= |fq|
    ensures k < |fq| ==> fq[k] == buf && held[k]
  {
    if fq == [] || (fq[0] == buf && held[0]) then 0 else 1 + HeldAt(fq[1..], held[1..], buf)
  }

  /** A segment for a port arrives from the network layer; port_to_rbm_index takes the first match. */
  function Deliver<T>(l: Layer<T>, port: nat, x: Item<T>, overwrite: bool): Layer<T>
    requires AllAligned(l)
  {
    var r := RbmOfPort(l, port);
    if r == |l.rbm| then l
    else
      assert Aligned(l.rbm[r].q);
      l.(rbm := l.rbm[r := l.rbm[r].(q := Arrive(l.rbm[r].q, x, overwrite))])
  }

  predicate Serves<T>(l: Layer<T>, r: Rbm<T>, port: nat) {
    0 <= r.pindex < |l.ports| && l.ports[r.pindex] == port
  }

  function RbmOfPort<T>(l: Layer<T>, port: nat): nat {
    First(l.rbm, (r: Rbm<T>) => Serves(l, r, port))
  }

  /** close_socket() as written: num_bufs_free is left as it was. */
  function CloseSocket<T>(l: Layer<T>, s: int, pid: int): (Layer<T>, Reply) {
    if Check(l, s, pid).Some? then (l, Err(Check(l, s, pid).value))
    else if l.sock[s].kind == RAW then (l.(sock := l.sock[s := l.sock[s].(pid := INVALID_PID)]), Ok(NRK_OK))
    else
      var closed := l.sock[s := l.sock[s].(pid := INVALID_PID, pindex := UNMAPPED, rbmindex := UNMAPPED)];
      if l.sock[s].pindex == UNMAPPED then (l.(sock := closed), Ok(NRK_OK))
      else
        var p, r := l.sock[s].pindex, l.sock[s].rbmindex;
        if p < 0 || p >= |l.ports| || r < 0 || r >= |l.rbm| then (l, Panic)
        else
          (Unassign(l, p, r).(sock := closed), Ok(NRK_OK))
  }

  function CheckReceiveQueue<T>(l: Layer<T>, s: int, pid: int): Reply {
    if s < 0 || s >= |l.sock| then Err(InvalidArgument)
    else if l.sock[s].pid != pid || l.sock[s].pindex == UNMAPPED then Err(InvalidSocket)
    else if 0 <= l.sock[s].rbmindex < |l.rbm| then
      var q := l.rbm[l.sock[s].rbmindex].q;
      Ok(|q.queue| + |q.stranded|)
    else Panic
  }
}
