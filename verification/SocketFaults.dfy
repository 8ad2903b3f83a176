/** Exactly where the socket calls as written do not do what they are meant to: bind() and port
  * numbers already taken, set_rx_queue_size() on a mapped socket, and what check_receive_queue()
  * counts.
  */
module SocketFaults {
  import opened Options
  import opened ReceiveSpec
  import opened ReceiveRuns
  import opened SocketSpec
  import opened SocketInvariants
  import opened SocketPool
  import opened SocketRuns

  // ---------------------------------------------------------------- bind() and port numbers

  lemma DistinctAfterAssign(ports: seq<nat>, p: nat, port: nat)
    requires PortsDistinct(ports) && p < |ports| && ports[p] == INVALID_PORT && port != INVALID_PORT
    ensures PortsDistinct(ports[p := port]) <==> port !in ports
  {
    var after := ports[p := port];
    if i :| 0 <= i < |ports| && ports[i] == port {
      assert after[i] == after[p] && i != p;
      assert !PortsDistinct(after);
    }
  }

  lemma MappingKeepsPorts<T>(l: Layer<T>, lost: set<nat>, s: nat, port: nat, n: nat)
    requires Intact(l, lost) && s < |l.sock| && !Mapped(l, s)
    requires port != INVALID_PORT && n <= l.numBufsFree
    ensures FreePort(l) < |l.ports| && FreeRbm(l) < |l.rbm|
    ensures MapAndAllocate(l, s, port, n).0.ports == l.ports[FreePort(l) := port]
    ensures l.sock[s].pid != INVALID_PID && l.sock[s].kind != RAW ==>
              MapAndAllocate(l, s, port, n).0.sock ==
                    l.sock[s := l.sock[s].(pindex := FreePort(l), rbmindex := FreeRbm(l))]
  {
    ElementsLeft(l, s);
    var k := Map(l, s, FreePort(l), FreeRbm(l), port);
    SameClaimsKeepPool(l, lost, FreeRbm(l), k.rbm[FreeRbm(l)]);
    forall b: nat ensures Placed(k, lost, b) {
      assert Placed(l.(rbm := l.rbm[FreeRbm(l) := k.rbm[FreeRbm(l)]]), lost, b);
    }
    AllocateManySucceeds(k, lost, FreeRbm(l), n);
  }

  /** A successful bind() keeps port numbers distinct exactly when the number was not taken. */
  lemma BindKeepsPortsDistinctExactly<T>(l: Layer<T>, lost: set<nat>, s: int, port: int, pid: int)
    requires Intact(l, lost) && PortsDistinct(l.ports) && pid != INVALID_PID
    requires Bind(l, s, port, pid).1.Ok?
    ensures PortsDistinct(Bind(l, s, port, pid).0.ports) <==> port !in l.ports
  {
    assert WellMapped(l, s);
    MappingKeepsPorts(l, lost, s, port, DEFAULT_RX_QUEUE_SIZE);
    DistinctAfterAssign(l.ports, FreePort(l), port);
  }

  /** Binds a port number that is already taken, and is not refused. */
  ghost predicate Rebinds<T>(l: Layer<T>, c: Call<T>) {
    c.BindTo? && c.number in l.ports && Bind(l, c.s, c.number, c.pid).1.Ok?
  }

  lemma EphemeralKeepsDistinct<T>(l: Layer<T>, lost: set<nat>, s: nat, n: nat)
    requires Intact(l, lost) && s < |l.sock| && !Mapped(l, s) && n <= l.numBufsFree && PortsDistinct(l.ports)
    ensures var port := EphemeralFrom(l.ports, EPHEMERAL_PORT_NUM_START);
            PortsDistinct(MapAndAllocate(l, s, port, n).0.ports)
  {
    AlwaysAnEphemeralPort(l.ports);
    var port := EphemeralFrom(l.ports, EPHEMERAL_PORT_NUM_START);
    MappingKeepsPorts(l, lost, s, port, n);
    DistinctAfterAssign(l.ports, FreePort(l), port);
  }

  lemma SendKeepsPortsDistinct<T>(l: Layer<T>, lost: set<nat>, s: int, pid: int)
    requires Intact(l, lost) && PortsDistinct(l.ports)
    ensures PortsDistinct(MapForSend(l, s, pid).0.ports)
  {
    if Check(l, s, pid) == None && l.sock[s].kind != RAW && l.sock[s].pindex == UNMAPPED
       && l.numBufsFree >= DEFAULT_RX_QUEUE_SIZE {
      EphemeralKeepsDistinct(l, lost, s, DEFAULT_RX_QUEUE_SIZE);
    }
  }

  lemma SetSizeKeepsPortsDistinct<T>(l: Layer<T>, lost: set<nat>, s: int, size: int, pid: int, unset: nat)
    requires Intact(l, lost) && PortsDistinct(l.ports) && unset < |l.rbm|
    ensures PortsDistinct(SetRxQueueSize(l, s, size, pid, unset).0.ports)
  {
    if 0 <= s < |l.sock| && size > 0 && l.sock[s].pid == pid && l.sock[s].kind != RAW {
      if l.sock[s].pindex == UNMAPPED {
        if l.numBufsFree >= DEFAULT_RX_QUEUE_SIZE {
          EphemeralKeepsDistinct(l, lost, s, if l.numBufsFree < size then l.numBufsFree else size);
        }
      } else if size > DEFAULT_RX_QUEUE_SIZE {
        var more := size - DEFAULT_RX_QUEUE_SIZE;
        AllocateManySucceeds(l, lost, unset, if l.numBufsFree < more then l.numBufsFree else more);
      }
    }
  }

  /** A call makes two port elements share a number exactly if it is such a bind(). */
  lemma CallKeepsPortsDistinct<T>(l: Layer<T>, lost: set<nat>, c: Call<T>)
    requires Intact(l, lost) && Proper(l, c) && PortsDistinct(l.ports)
    ensures PortsDistinct(Do(l, c).0.ports) <==> !Rebinds(l, c)
  {
    match c
    case BindTo(s, port, pid) =>
      BindKeepsIntact(l, lost, s, port, pid);
      if Bind(l, s, port, pid).1.Ok? {
        BindKeepsPortsDistinctExactly(l, lost, s, port, pid);
      }
    case SendOn(s, pid) => SendKeepsPortsDistinct(l, lost, s, pid);
    case SetSize(s, size, pid, unset) => SetSizeKeepsPortsDistinct(l, lost, s, size, pid, unset);
    case _ =>
  }

  ghost predicate NeverRebinds<T>(l: Layer<T>, calls: seq<Call<T>>)
    requires AllProper(l, calls)
    decreases |calls|
  {
    calls == [] || (!Rebinds(l, calls[0]) && NeverRebinds(Do(l, calls[0]).0, calls[1..]))
  }

  ghost predicate PortsStayDistinct<T>(l: Layer<T>, calls: seq<Call<T>>)
    requires AllProper(l, calls)
    decreases |calls|
  {
    PortsDistinct(l.ports) && (calls == [] || PortsStayDistinct(Do(l, calls[0]).0, calls[1..]))
  }

  /** Bound port numbers are distinct at every moment of a run, exactly if it never successfully binds a
    * taken number. */
  lemma {:induction false} RunsKeepPortsDistinct<T>(l: Layer<T>, lost: set<nat>, calls: seq<Call<T>>)
    requires Intact(l, lost) && AllProper(l, calls) && PortsDistinct(l.ports)
    ensures PortsStayDistinct(l, calls) <==> NeverRebinds(l, calls)
    decreases |calls|
  {
    if calls != [] {
      CallKeepsPortsDistinct(l, lost, calls[0]);
      EveryCallKeepsIntact(l, lost, calls[0]);
      if !Rebinds(l, calls[0]) {
        RunsKeepPortsDistinct(Do(l, calls[0]).0, lost + Loses(l, calls[0]), calls[1..]);
      }
    }
  }

  // ---------------------------------------------------------------- set_rx_queue_size() on a mapped socket

  /** Owned buffers of the port a socket is mapped to. */
  ghost function QueueSize<T>(l: Layer<T>, s: nat): nat
    requires s < |l.sock| && 0 <= l.sock[s].rbmindex < |l.rbm|
  {
    CountTotal(l.rbm[l.sock[s].rbmindex].q)
  }

  /** Growing a mapped socket's queue: the reply promises the growth, and the queue grows by it exactly
    * when the unset variable happens to name the socket's own element, or there is nothing to give. */
  lemma GrowthReachesSocketExactly<T>(l: Layer<T>, lost: set<nat>, s: nat, size: int, pid: int, unset: nat)
    requires Intact(l, lost) && pid != INVALID_PID && unset < |l.rbm|
    requires s < |l.sock| && l.sock[s].pid == pid && Mapped(l, s) && size > DEFAULT_RX_QUEUE_SIZE
    ensures 0 <= l.sock[s].rbmindex < |l.rbm|
    ensures var (m, reply) := SetRxQueueSize(l, s, size, pid, unset);
            && m.sock == l.sock && |m.rbm| == |l.rbm| && reply.Ok?
            && (QueueSize(m, s) == QueueSize(l, s) + (reply.value - DEFAULT_RX_QUEUE_SIZE) <==>
                  unset == l.sock[s].rbmindex || l.numBufsFree == 0)
  {
    assert WellMapped(l, s);
    var more := size - DEFAULT_RX_QUEUE_SIZE;
    GrowingKeepsIntact(l, lost, unset, if l.numBufsFree < more then l.numBufsFree else more);
  }

  // ---------------------------------------------------------------- check_receive_queue()

  /** check_receive_queue() never panics, and replies for exactly the tasks that own a mapped socket; what
    * it replies is what the three counters give: all buffers of the port, less the empty ones and the
    * accepted ones. */
  lemma CheckCountsQueued<T>(l: Layer<T>, lost: set<nat>, s: int, pid: int)
    requires Intact(l, lost) && pid != INVALID_PID
    ensures CheckReceiveQueue(l, s, pid) != Panic
    ensures CheckReceiveQueue(l, s, pid).Ok? <==> Check(l, s, pid) == None && Mapped(l, s)
    ensures !CheckReceiveQueue(l, s, pid).Ok? ==>
              CheckReceiveQueue(l, s, pid) == Err(if 0 <= s < |l.sock| then InvalidSocket else InvalidArgument)
    ensures Check(l, s, pid) == None && Mapped(l, s) ==>
              && 0 <= l.sock[s].rbmindex < |l.rbm|
              && var q := l.rbm[l.sock[s].rbmindex].q;
                 CheckReceiveQueue(l, s, pid) == Ok(QueueSize(l, s) - CountFree(q) - CountOf(q.held, true))
  {
    if Check(l, s, pid) == None && Mapped(l, s) {
      assert WellMapped(l, s);
      assert Aligned(l.rbm[l.sock[s].rbmindex].q);
      CountsAddUp(l.rbm[l.sock[s].rbmindex].q.held);
    }
  }
}
