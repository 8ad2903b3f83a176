/** Whole runs of the transport layer: what every call keeps, which panics can never be reached, and which
  * calls leave a free queue's tail pointer behind or put one at risk.
  */
module SocketRuns {
  import opened Options
  import opened PriorityQueue
  import opened ReceiveSpec
  import opened ReceiveRuns
  import opened SocketSpec
  import opened SocketInvariants
  import opened SocketPool

  /** unset stands for the value of the local variable that set_rx_queue_size leaves unassigned. */
  datatype Call<T> = Create(kind: SockType, pid: int)
                   | BindTo(s: int, number: int, pid: int)
                   | SendOn(s: int, pid: int)
                   | SetSize(s: int, size: int, pid: int, unset: nat)
                   | ReceiveOn(s: int, pid: int)
                   | Release(s: int, buf: nat, pid: int)
                   | Segment(port: nat, x: Item<T>, overwrite: bool)
                   | Close(s: int, pid: int)

  const MAX_PORTS: nat := 127

  /** An element no socket uses has nothing accepted, queued or stranded; it may own empty buffers. */
  ghost predicate Idle<T>(e: Rbm<T>) {
    true !in e.q.held && e.q.queue == [] && e.q.stranded == {} && e.q.tailRight
  }

  ghost predicate UnusedAreIdle<T>(l: Layer<T>) {
    forall r :: 0 <= r < |l.rbm| && l.rbm[r].pindex == UNMAPPED ==> Idle(l.rbm[r])
  }

  /** What every call keeps: sockets, port elements and rbm elements correspond one to one, every buffer is
    * in one place, num_bufs_free promises no more than there are, and the queues are in order. */
  ghost predicate Intact<T>(l: Layer<T>, lost: set<nat>) {
    && Bijection(l) && |l.sock| <= MAX_PORTS
    && Pool(l, lost) && Counted(l)
    && AllAligned(l) && UnusedAreIdle(l)
  }

  ghost predicate AllTailsRight<T>(l: Layer<T>) {
    forall r :: 0 <= r < |l.rbm| ==> l.rbm[r].q.tailRight
  }

  ghost predicate AllTailSafe<T>(l: Layer<T>) {
    forall r :: 0 <= r < |l.rbm| ==> TailSafe(l.rbm[r].q.held)
  }

  /** Tasks have non-zero ids, and the unset variable names some element. */
  ghost predicate Proper<T>(l: Layer<T>, c: Call<T>) {
    match c
    case Create(_, pid) => pid != INVALID_PID
    case BindTo(_, _, pid) => pid != INVALID_PID
    case SendOn(_, pid) => pid != INVALID_PID
    case SetSize(_, _, pid, unset) => pid != INVALID_PID && unset < |l.rbm|
    case ReceiveOn(_, pid) => pid != INVALID_PID
    case Release(_, _, pid) => pid != INVALID_PID
    case Segment(_, _, _) => true
    case Close(_, pid) => pid != INVALID_PID
  }

  /** The arrival takes the last of several buffers from a free queue, whose tail pointer stays behind. */
  predicate LosesTail<T>(l: Layer<T>, c: Call<T>) {
    c.Segment? && RbmOfPort(l, c.port) < |l.rbm|
    && ReceiveRuns.LosesTail(l.rbm[RbmOfPort(l, c.port)].q, Arrives(c.x, c.overwrite))
  }

  /** The call puts a buffer behind a tail pointer that has been left behind; the lists are wrong
    * afterwards. */
  predicate Breaks<T>(l: Layer<T>, c: Call<T>) {
    match c
    case SetSize(s, size, pid, unset) => GrowthBreaks(l, s, size, pid, unset)
    case ReceiveOn(s, pid) => AcceptBreaks(l, s, pid)
    case _ => false
  }

  /** Releasing the buffer accepted last while an older one is still held, or giving buffers to a port
    * that holds accepted ones. */
  ghost predicate Risks<T>(l: Layer<T>, c: Call<T>)
    requires AllAligned(l) && Proper(l, c)
  {
    match c
    case SetSize(s, size, pid, unset) => Grows(l, s, size, pid) && true in l.rbm[unset].q.held
    case Release(s, buf, pid) =>
      && Check(l, s, pid) == None && l.sock[s].kind != RAW && l.sock[s].pindex != UNMAPPED
      && 0 <= l.sock[s].rbmindex < |l.rbm|
      && var q := l.rbm[l.sock[s].rbmindex].q;
         assert Aligned(q);
         OutOfOrder(q, Releases(HeldAt(q.fq, q.held, buf)))
    case _ => false
  }

  function Do<T>(l: Layer<T>, c: Call<T>): (Layer<T>, Reply)
    requires AllAligned(l)
    requires c.SetSize? ==> c.unset < |l.rbm|
  {
    match c
    case Create(kind, pid) => CreateSocket(l, kind, pid)
    case BindTo(s, port, pid) => Bind(l, s, port, pid)
    case SendOn(s, pid) => MapForSend(l, s, pid)
    case SetSize(s, size, pid, unset) => SetRxQueueSize(l, s, size, pid, unset)
    case ReceiveOn(s, pid) => Receive(l, s, pid)
    case Release(s, buf, pid) => ReleaseBuffer(l, s, buf, pid)
    case Segment(port, x, overwrite) => (Deliver(l, port, x, overwrite), Ok(NRK_OK))
    case Close(s, pid) => CloseSocket(l, s, pid)
  }

  /** The buffers a call takes out of circulation for good. */
  ghost function Loses<T>(l: Layer<T>, c: Call<T>): set<nat> {
    match c
    case Close(s, pid) =>
      if Check(l, s, pid) == None && 0 <= l.sock[s].rbmindex < |l.rbm| then l.rbm[l.sock[s].rbmindex].q.stranded
      else {}
    case _ => {}
  }

  // ---------------------------------------------------------------- port numbers

  /** There are always fewer port elements than ephemeral port numbers. */
  lemma AlwaysAnEphemeralPort(ports: seq<nat>)
    requires |ports| <= MAX_PORTS
    ensures EphemeralFrom(ports, EPHEMERAL_PORT_NUM_START) != INVALID_PORT
  {
    if EphemeralFrom(ports, EPHEMERAL_PORT_NUM_START) == INVALID_PORT {
      var shifted: seq<int> := seq(|ports|, i requires 0 <= i < |ports| => ports[i] - EPHEMERAL_PORT_NUM_START);
      forall x | 0 <= x < MAX_PORTS + 1 ensures Occurs(shifted, x) {
        var p: nat := x + EPHEMERAL_PORT_NUM_START;
        assert p in ports;
        var i :| 0 <= i < |ports| && ports[i] == x + EPHEMERAL_PORT_NUM_START;
        assert shifted[i] == x;
      }
      AllOccur(shifted, MAX_PORTS + 1);
    }
  }

  // ---------------------------------------------------------------- each call keeps the state intact

  /** New queues for one rbm element, in order themselves, keep the whole state intact. */
  lemma QueuesKeepIntact<T>(l: Layer<T>, m: Layer<T>, lost: set<nat>, r: nat)
    requires Intact(l, lost) && r < |l.rbm| && m.sock == l.sock && m.ports == l.ports
    requires |m.rbm| == |l.rbm| && m.rbm == l.rbm[r := m.rbm[r]] && m.rbm[r].pindex == l.rbm[r].pindex
    requires Pool(m, lost) && Counted(m)
    requires Aligned(m.rbm[r].q) && (l.rbm[r].pindex == UNMAPPED ==> Idle(m.rbm[r]))
    ensures Intact(m, lost)
  {
    QueuesKeepBijection(l, m, r, m.rbm[r].q);
    forall i | 0 <= i < |m.rbm| ensures Aligned(m.rbm[i].q) {
      assert Aligned(l.rbm[i].q);
    }
    forall i | 0 <= i < |m.rbm| && m.rbm[i].pindex == UNMAPPED ensures Idle(m.rbm[i]) {
      assert i != r ==> Idle(l.rbm[i]);
    }
  }

  /** Element r may have been given some buffers; all other queues are as they were. */
  ghost predicate GrownAt<T>(l: Layer<T>, m: Layer<T>, r: nat) {
    && |m.rbm| == |l.rbm|
    && (forall i :: 0 <= i < |l.rbm| && i != r ==> m.rbm[i].q == l.rbm[i].q)
    && (r < |l.rbm| ==>
          && |m.rbm[r].q.fq| >= |l.rbm[r].q.fq|
          && Granted(l.rbm[r].q, m.rbm[r].q, |m.rbm[r].q.fq| - |l.rbm[r].q.fq|))
  }

  /** While num_bufs_free promises the buffers an element grows by them. */
  lemma GrowingKeepsIntact<T>(l: Layer<T>, lost: set<nat>, r: nat, n: nat)
    requires Intact(l, lost) && r < |l.rbm| && n <= l.numBufsFree
    ensures AllocateMany(l, r, n).Some?
    ensures var m := AllocateMany(l, r, n).value;
            && Intact(m, lost) && Shortfall(m) == Shortfall(l) && m.numBufsFree == l.numBufsFree - n
            && m.sock == l.sock && |m.rbm| == |l.rbm| && m.rbm == l.rbm[r := m.rbm[r]]
            && Granted(l.rbm[r].q, m.rbm[r].q, n) && GrownAt(l, m, r)
  {
    AllocateManySucceeds(l, lost, r, n);
    var m := AllocateMany(l, r, n).value;
    assert Aligned(l.rbm[r].q);
    if l.rbm[r].pindex == UNMAPPED {
      assert Idle(l.rbm[r]);
      forall i | 0 <= i < |m.rbm[r].q.held| ensures !m.rbm[r].q.held[i] {
        assert i < |l.rbm[r].q.held| ==> m.rbm[r].q.held[i] == l.rbm[r].q.held[i];
      }
    }
    QueuesKeepIntact(l, m, lost, r);
  }

  lemma MapKeepsIntact<T>(l: Layer<T>, lost: set<nat>, s: nat, p: nat, r: nat, port: nat)
    requires Intact(l, lost) && s < |l.sock| && !Mapped(l, s) && l.sock[s].pid != INVALID_PID && l.sock[s].kind != RAW
    requires p < |l.ports| && l.ports[p] == INVALID_PORT && port != INVALID_PORT
    requires r < |l.rbm| && l.rbm[r].pindex == UNMAPPED
    ensures Intact(Map(l, s, p, r, port), lost)
  {
    var m := Map(l, s, p, r, port);
    MapKeepsBijection(l, s, p, r, port);
    SameClaimsKeepPool(l, lost, r, m.rbm[r]);
    forall b: nat ensures Placed(m, lost, b) {
      assert Placed(l.(rbm := l.rbm[r := m.rbm[r]]), lost, b);
    }
    forall i | 0 <= i < |m.rbm| ensures Aligned(m.rbm[i].q) {
      assert Aligned(l.rbm[i].q);
    }
    forall i | 0 <= i < |m.rbm| && m.rbm[i].pindex == UNMAPPED ensures Idle(m.rbm[i]) {
      assert Idle(l.rbm[i]);
    }
  }

  /** Mapping a socket always succeeds while num_bufs_free promises the buffers. */
  lemma MappingKeepsIntact<T>(l: Layer<T>, lost: set<nat>, s: nat, port: nat, n: nat)
    requires Intact(l, lost) && s < |l.sock| && !Mapped(l, s)
    requires l.sock[s].pid != INVALID_PID && l.sock[s].kind != RAW
    requires port != INVALID_PORT && n <= l.numBufsFree
    ensures var (m, reply) := MapAndAllocate(l, s, port, n);
            reply == Ok(n) && Intact(m, lost) && Shortfall(m) == Shortfall(l) && GrownAt(l, m, FreeRbm(l))
  {
    ElementsLeft(l, s);
    var k := Map(l, s, FreePort(l), FreeRbm(l), port);
    MapKeepsIntact(l, lost, s, FreePort(l), FreeRbm(l), port);
    GrowingKeepsIntact(k, lost, FreeRbm(l), n);
    assert k.rbm[FreeRbm(l)].q == l.rbm[FreeRbm(l)].q;
  }

  lemma CreateKeepsIntact<T>(l: Layer<T>, lost: set<nat>, kind: SockType, pid: int)
    requires Intact(l, lost) && pid != INVALID_PID
    ensures var (m, reply) := CreateSocket(l, kind, pid);
            reply != Panic && Intact(m, lost) && Shortfall(m) == Shortfall(l) && m.rbm == l.rbm
  {
    var s := FreeSocket(l);
    if kind != SEQPACKET && s < |l.sock| {
      assert WellMapped(l, s);
      ReidentifyKeepsBijection(l, s, pid, kind);
      var m := CreateSocket(l, kind, pid).0;
      SamePool(l, m, lost);
    }
  }

  lemma SamePool<T>(l: Layer<T>, m: Layer<T>, lost: set<nat>)
    requires Pool(l, lost) && m.rbm == l.rbm && m.unalloc == l.unalloc
    ensures Pool(m, lost)
  {
    forall b: nat ensures Placed(m, lost, b) {
      assert Placed(l, lost, b);
    }
  }

  lemma BindKeepsIntact<T>(l: Layer<T>, lost: set<nat>, s: int, port: int, pid: int)
    requires Intact(l, lost) && pid != INVALID_PID
    ensures var (m, reply) := Bind(l, s, port, pid);
            reply != Panic && Intact(m, lost) && Shortfall(m) == Shortfall(l) && GrownAt(l, m, FreeRbm(l))
  {
    if 0 <= s < |l.sock| && l.sock[s].pid == pid && l.sock[s].kind != RAW && l.sock[s].rbmindex == UNMAPPED
       && 0 < port <= MAX_PORT_NUM && l.numBufsFree >= DEFAULT_RX_QUEUE_SIZE {
      assert WellMapped(l, s);
      MappingKeepsIntact(l, lost, s, port, DEFAULT_RX_QUEUE_SIZE);
    }
  }

  lemma SendKeepsIntact<T>(l: Layer<T>, lost: set<nat>, s: int, pid: int)
    requires Intact(l, lost) && pid != INVALID_PID
    ensures var (m, reply) := MapForSend(l, s, pid);
            reply != Panic && Intact(m, lost) && Shortfall(m) == Shortfall(l) && GrownAt(l, m, FreeRbm(l))
  {
    if Check(l, s, pid) == None && l.sock[s].kind != RAW && l.sock[s].pindex == UNMAPPED
       && l.numBufsFree >= DEFAULT_RX_QUEUE_SIZE {
      AlwaysAnEphemeralPort(l.ports);
      MappingKeepsIntact(l, lost, s, EphemeralFrom(l.ports, EPHEMERAL_PORT_NUM_START), DEFAULT_RX_QUEUE_SIZE);
    }
  }

  /** The element set_rx_queue_size() gives buffers to. */
  function Receiver<T>(l: Layer<T>, s: int, unset: nat): nat {
    if 0 <= s < |l.sock| && l.sock[s].pindex != UNMAPPED then unset else FreeRbm(l)
  }

  lemma SetSizeKeepsIntact<T>(l: Layer<T>, lost: set<nat>, s: int, size: int, pid: int, unset: nat)
    requires Intact(l, lost) && pid != INVALID_PID && unset < |l.rbm|
    ensures var (m, reply) := SetRxQueueSize(l, s, size, pid, unset);
            && reply != Panic && Intact(m, lost) && Shortfall(m) == Shortfall(l)
            && GrownAt(l, m, Receiver(l, s, unset))
            && (0 <= s < |l.sock| && Mapped(l, s) ==>
                  (Grows(l, s, size, pid) <==> |m.rbm[unset].q.fq| > |l.rbm[unset].q.fq|))
  {
    if 0 <= s < |l.sock| && size > 0 && l.sock[s].pid == pid && l.sock[s].kind != RAW {
      if l.sock[s].pindex == UNMAPPED {
        AlwaysAnEphemeralPort(l.ports);
        if l.numBufsFree >= DEFAULT_RX_QUEUE_SIZE {
          MappingKeepsIntact(l, lost, s, EphemeralFrom(l.ports, EPHEMERAL_PORT_NUM_START),
            if l.numBufsFree < size then l.numBufsFree else size);
        }
      } else if size != DEFAULT_RX_QUEUE_SIZE {
        var more := size - DEFAULT_RX_QUEUE_SIZE;
        GrowingKeepsIntact(l, lost, unset, if l.numBufsFree < more then l.numBufsFree else more);
      }
    }
  }

  /** The new queues of an element that a socket uses keep the state intact, if they claim what the old ones
    * did. */
  lemma StepKeepsIntact<T>(l: Layer<T>, lost: set<nat>, r: nat, op: PortOp<T>)
    requires Intact(l, lost) && r < |l.rbm| && l.rbm[r].pindex != UNMAPPED
    ensures Aligned(l.rbm[r].q)
    ensures Intact(l.(rbm := l.rbm[r := l.rbm[r].(q := After(l.rbm[r].q, op))]), lost)
  {
    var q := l.rbm[r].q;
    assert Aligned(q);
    StepKeepsAligned(q, op);
    forall b: nat ensures Claims(q, b) <= 1 {
      ClaimedOnce(l, lost, r, b);
    }
    forall b: nat ensures Claims(After(q, op), b) == Claims(q, b) {
      match op
      case Arrives(x, overwrite) => ArriveKeepsClaims(q, x, overwrite, b);
      case Accepts =>
        if q.queue != [] {
          AcceptKeepsClaims(q, b);
        }
      case Releases(_) =>
    }
    SameClaimsKeepPool(l, lost, r, l.rbm[r].(q := After(q, op)));
    QueuesKeepIntact(l, l.(rbm := l.rbm[r := l.rbm[r].(q := After(q, op))]), lost, r);
  }

  /** receive() panics only when it is called on a port with nothing queued but something accepted
    * and not released, or stranded. */
  lemma ReceiveKeepsIntact<T>(l: Layer<T>, lost: set<nat>, s: int, pid: int)
    requires Intact(l, lost) && pid != INVALID_PID
    ensures var (m, reply) := Receive(l, s, pid);
            && Intact(m, lost) && Shortfall(m) == Shortfall(l)
            && (reply == Panic <==>
                  && Check(l, s, pid) == None && Mapped(l, s) && 0 <= l.sock[s].rbmindex < |l.rbm|
                  && var q := l.rbm[l.sock[s].rbmindex].q;
                     q.queue == [] && (true in q.held || q.stranded != {}))
  {
    if Check(l, s, pid) == None && Mapped(l, s) {
      assert WellMapped(l, s);
      var r := l.sock[s].rbmindex;
      StepKeepsIntact(l, lost, r, Accepts);
      ReceiveOutcome(l.rbm[r].q);
    }
  }

  lemma ReleaseKeepsIntact<T>(l: Layer<T>, lost: set<nat>, s: int, buf: nat, pid: int)
    requires Intact(l, lost) && pid != INVALID_PID
    ensures var (m, reply) := ReleaseBuffer(l, s, buf, pid);
            reply != Panic && Intact(m, lost) && Shortfall(m) == Shortfall(l)
  {
    if Check(l, s, pid) == None && l.sock[s].kind != RAW && Mapped(l, s) {
      assert WellMapped(l, s);
      var r := l.sock[s].rbmindex;
      assert Aligned(l.rbm[r].q);
      StepKeepsIntact(l, lost, r, Releases(HeldAt(l.rbm[r].q.fq, l.rbm[r].q.held, buf)));
    }
  }

  lemma DeliverKeepsIntact<T>(l: Layer<T>, lost: set<nat>, port: nat, x: Item<T>, overwrite: bool)
    requires Intact(l, lost)
    ensures Intact(Deliver(l, port, x, overwrite), lost)
    ensures Shortfall(Deliver(l, port, x, overwrite)) == Shortfall(l)
  {
    if RbmOfPort(l, port) < |l.rbm| {
      StepKeepsIntact(l, lost, RbmOfPort(l, port), Arrives(x, overwrite));
    }
  }

  lemma UnmapOrKeep<T>(l: Layer<T>, s: nat, pid: int)
    requires Bijection(l) && Check(l, s, pid) == None
    ensures Bijection(CloseSocket(l, s, pid).0)
  {
    assert WellMapped(l, s);
    var m := CloseSocket(l, s, pid).0;
    if l.sock[s].kind == RAW {
      ReidentifyKeepsBijection(l, s, INVALID_PID, RAW);
    } else {
      UnmapKeepsBijection(l, m, s);
    }
  }

  /** Closing a mapped socket widens the gap between num_bufs_free and the pool by all the buffers it
    * gives back. */
  ghost function Forgotten<T>(l: Layer<T>, c: Call<T>): nat {
    match c
    case Close(s, pid) =>
      if Check(l, s, pid) == None && 0 <= l.sock[s].rbmindex < |l.rbm| then
        |l.rbm[l.sock[s].rbmindex].q.fq| + |l.rbm[l.sock[s].rbmindex].q.pq|
      else 0
    case _ => 0
  }

  lemma CloseKeepsIntact<T>(l: Layer<T>, lost: set<nat>, s: int, pid: int)
    requires Intact(l, lost) && pid != INVALID_PID
    ensures var (m, reply) := CloseSocket(l, s, pid);
            && reply != Panic && Intact(m, lost + Loses(l, Close(s, pid)))
            && Shortfall(m) == Shortfall(l) + Forgotten(l, Close(s, pid))
  {
    if Check(l, s, pid) == None {
      assert WellMapped(l, s);
      var m := CloseSocket(l, s, pid).0;
      UnmapOrKeep(l, s, pid);
      if Mapped(l, s) {
        var r := l.sock[s].rbmindex;
        CloseKeepsPool(l, lost, r);
        var k := l.(unalloc := m.unalloc, rbm := m.rbm);
        SamePool(k, m, lost + l.rbm[r].q.stranded);
        forall i | 0 <= i < |m.rbm| ensures Aligned(m.rbm[i].q) {
          assert Aligned(l.rbm[i].q);
        }
        forall i | 0 <= i < |m.rbm| && m.rbm[i].pindex == UNMAPPED ensures Idle(m.rbm[i]) {
          assert i != r ==> Idle(l.rbm[i]);
        }
      } else {
        SamePool(l, m, lost);
        assert lost + {} == lost;
      }
    } else {
      assert lost + {} == lost;
    }
  }

  /** Every call keeps the correspondence, the pool, the counts and the queues.  The only call that can reach
    * a panic is receive(); the only one that disturbs num_bufs_free or loses buffers is close_socket(). */
  lemma EveryCallKeepsIntact<T>(l: Layer<T>, lost: set<nat>, c: Call<T>)
    requires Intact(l, lost) && Proper(l, c)
    ensures Intact(Do(l, c).0, lost + Loses(l, c))
    ensures Shortfall(Do(l, c).0) == Shortfall(l) + Forgotten(l, c)
    ensures Do(l, c).1 == Panic ==> c.ReceiveOn?
  {
    assert !c.Close? ==> lost + Loses(l, c) == lost;
    match c
    case Create(kind, pid) => CreateKeepsIntact(l, lost, kind, pid);
    case BindTo(s, port, pid) => BindKeepsIntact(l, lost, s, port, pid);
    case SendOn(s, pid) => SendKeepsIntact(l, lost, s, pid);
    case SetSize(s, size, pid, unset) => SetSizeKeepsIntact(l, lost, s, size, pid, unset);
    case ReceiveOn(s, pid) => ReceiveKeepsIntact(l, lost, s, pid);
    case Release(s, buf, pid) => ReleaseKeepsIntact(l, lost, s, buf, pid);
    case Segment(port, x, overwrite) => DeliverKeepsIntact(l, lost, port, x, overwrite);
    case Close(s, pid) => CloseKeepsIntact(l, lost, s, pid);
  }

  // ---------------------------------------------------------------- each call and the tail pointers

  lemma OneTailChanges<T>(l: Layer<T>, m: Layer<T>, r: nat)
    requires |m.rbm| == |l.rbm| && forall i :: 0 <= i < |l.rbm| && i != r ==> m.rbm[i].q == l.rbm[i].q
    ensures AllTailsRight(l) ==> (AllTailsRight(m) <==> r >= |m.rbm| || m.rbm[r].q.tailRight)
    ensures AllTailSafe(l) ==> (AllTailSafe(m) <==> r >= |m.rbm| || TailSafe(m.rbm[r].q.held))
  {
    forall i | 0 <= i < |l.rbm| && i != r ensures m.rbm[i].q == l.rbm[i].q {
    }
  }

  /** Growth leaves the tail pointer right, and the element safe exactly if it was given nothing or holds
    * nothing. */
  lemma GrowthTails<T>(l: Layer<T>, m: Layer<T>, r: nat)
    requires GrownAt(l, m, r) && r < |l.rbm| && |l.rbm[r].q.fq| == |l.rbm[r].q.held|
    ensures AllTailsRight(l) ==> AllTailsRight(m)
    ensures AllTailSafe(l) ==>
              (AllTailSafe(m) <==> |m.rbm[r].q.fq| == |l.rbm[r].q.fq| || true !in l.rbm[r].q.held)
  {
    OneTailChanges(l, m, r);
    var p, q := l.rbm[r].q, m.rbm[r].q;
    if |q.fq| > |p.fq| {
      GrantingIsSafeExactly(p, q, |q.fq| - |p.fq|);
    } else {
      assert q.held == p.held;
    }
  }

  /** Growth of an element no socket uses. */
  lemma MappingTails<T>(l: Layer<T>, lost: set<nat>, m: Layer<T>)
    requires Intact(l, lost) && GrownAt(l, m, FreeRbm(l))
    ensures AllTailsRight(l) ==> AllTailsRight(m)
    ensures AllTailSafe(l) ==> AllTailSafe(m)
  {
    if FreeRbm(l) < |l.rbm| {
      assert Idle(l.rbm[FreeRbm(l)]) && Aligned(l.rbm[FreeRbm(l)].q);
      GrowthTails(l, m, FreeRbm(l));
    } else {
      OneTailChanges(l, m, FreeRbm(l));
    }
  }

  lemma SetSizeTails<T>(l: Layer<T>, lost: set<nat>, s: int, size: int, pid: int, unset: nat)
    requires Intact(l, lost) && pid != INVALID_PID && unset < |l.rbm|
    ensures var m := SetRxQueueSize(l, s, size, pid, unset).0;
            && (AllTailsRight(l) ==> AllTailsRight(m))
            && (AllTailSafe(l) ==> (AllTailSafe(m) <==> !Risks(l, SetSize(s, size, pid, unset))))
  {
    SetSizeKeepsIntact(l, lost, s, size, pid, unset);
    var m := SetRxQueueSize(l, s, size, pid, unset).0;
    if 0 <= s < |l.sock| && l.sock[s].pindex != UNMAPPED {
      assert Aligned(l.rbm[unset].q) && (l.rbm[unset].pindex == UNMAPPED ==> Idle(l.rbm[unset]));
      GrowthTails(l, m, unset);
    } else {
      MappingTails(l, lost, m);
    }
  }

  lemma StepTails<T>(l: Layer<T>, m: Layer<T>, r: nat, op: PortOp<T>)
    requires AllAligned(l) && r < |l.rbm| && |m.rbm| == |l.rbm|
    requires Aligned(l.rbm[r].q) && m.rbm == l.rbm[r := l.rbm[r].(q := After(l.rbm[r].q, op))]
    ensures AllTailsRight(l) ==> (AllTailsRight(m) <==> !ReceiveRuns.LosesTail(l.rbm[r].q, op))
    ensures AllTailSafe(l) ==> (AllTailSafe(m) <==> !OutOfOrder(l.rbm[r].q, op))
  {
    OneTailChanges(l, m, r);
    if AllTailsRight(l) {
      StepKeepsTail(l.rbm[r].q, op);
    }
    if AllTailSafe(l) {
      StepKeepsSafe(l.rbm[r].q, op);
    }
  }

  lemma ReceiveTails<T>(l: Layer<T>, lost: set<nat>, s: int, pid: int)
    requires Intact(l, lost) && pid != INVALID_PID
    ensures var m := Receive(l, s, pid).0;
            (AllTailsRight(l) ==> AllTailsRight(m)) && (AllTailSafe(l) ==> AllTailSafe(m))
  {
    if Check(l, s, pid) == None && Mapped(l, s) {
      assert WellMapped(l, s);
      var r := l.sock[s].rbmindex;
      assert Aligned(l.rbm[r].q);
      StepTails(l, l.(rbm := l.rbm[r := l.rbm[r].(q := After(l.rbm[r].q, Accepts))]), r, Accepts);
    }
  }

  lemma ReleaseTails<T>(l: Layer<T>, lost: set<nat>, s: int, buf: nat, pid: int)
    requires Intact(l, lost) && pid != INVALID_PID
    ensures var m := ReleaseBuffer(l, s, buf, pid).0;
            && (AllTailsRight(l) ==> AllTailsRight(m))
            && (AllTailSafe(l) ==> (AllTailSafe(m) <==> !Risks(l, Release(s, buf, pid))))
  {
    if Check(l, s, pid) == None && l.sock[s].kind != RAW && Mapped(l, s) {
      assert WellMapped(l, s);
      var r := l.sock[s].rbmindex;
      assert Aligned(l.rbm[r].q);
      var op: PortOp<T> := Releases(HeldAt(l.rbm[r].q.fq, l.rbm[r].q.held, buf));
      StepTails(l, l.(rbm := l.rbm[r := l.rbm[r].(q := After(l.rbm[r].q, op))]), r, op);
    }
  }

  lemma DeliverTails<T>(l: Layer<T>, port: nat, x: Item<T>, overwrite: bool)
    requires AllAligned(l)
    ensures var m := Deliver(l, port, x, overwrite);
            && (AllTailsRight(l) ==> (AllTailsRight(m) <==> !LosesTail(l, Segment(port, x, overwrite))))
            && (AllTailSafe(l) ==> AllTailSafe(m))
  {
    var r := RbmOfPort(l, port);
    if r < |l.rbm| {
      assert Aligned(l.rbm[r].q);
      StepTails(l, Deliver(l, port, x, overwrite), r, Arrives(x, overwrite));
    }
  }

  lemma CloseTails<T>(l: Layer<T>, s: int, pid: int)
    ensures var m := CloseSocket(l, s, pid).0;
            (AllTailsRight(l) ==> AllTailsRight(m)) && (AllTailSafe(l) ==> AllTailSafe(m))
  {
  }

  /** While all tail pointers are right, a call leaves them right exactly if it does not take the last of
    * several buffers; and it never puts a buffer behind a wrong one. */
  lemma CallKeepsTails<T>(l: Layer<T>, lost: set<nat>, c: Call<T>)
    requires Intact(l, lost) && Proper(l, c) && AllTailsRight(l)
    ensures AllTailsRight(Do(l, c).0) <==> !LosesTail(l, c)
    ensures !Breaks(l, c)
  {
    match c
    case Create(kind, pid) => CreateKeepsIntact(l, lost, kind, pid);
    case BindTo(s, port, pid) =>
      BindKeepsIntact(l, lost, s, port, pid);
      MappingTails(l, lost, Bind(l, s, port, pid).0);
    case SendOn(s, pid) =>
      SendKeepsIntact(l, lost, s, pid);
      MappingTails(l, lost, MapForSend(l, s, pid).0);
    case SetSize(s, size, pid, unset) => SetSizeTails(l, lost, s, size, pid, unset);
    case ReceiveOn(s, pid) => ReceiveTails(l, lost, s, pid);
    case Release(s, buf, pid) => ReleaseTails(l, lost, s, buf, pid);
    case Segment(port, x, overwrite) => DeliverTails(l, port, x, overwrite);
    case Close(s, pid) => CloseTails(l, s, pid);
  }

  /** A call from a safe state leaves no tail pointer behind, and leaves the state safe exactly if it is
    * neither an out-of-order release nor growth of a port that holds accepted buffers. */
  lemma CallKeepsSafe<T>(l: Layer<T>, lost: set<nat>, c: Call<T>)
    requires Intact(l, lost) && Proper(l, c) && AllTailSafe(l)
    ensures !LosesTail(l, c)
    ensures AllTailSafe(Do(l, c).0) <==> !Risks(l, c)
  {
    match c
    case Create(kind, pid) => CreateKeepsIntact(l, lost, kind, pid);
    case BindTo(s, port, pid) =>
      BindKeepsIntact(l, lost, s, port, pid);
      MappingTails(l, lost, Bind(l, s, port, pid).0);
    case SendOn(s, pid) =>
      SendKeepsIntact(l, lost, s, pid);
      MappingTails(l, lost, MapForSend(l, s, pid).0);
    case SetSize(s, size, pid, unset) => SetSizeTails(l, lost, s, size, pid, unset);
    case ReceiveOn(s, pid) => ReceiveTails(l, lost, s, pid);
    case Release(s, buf, pid) => ReleaseTails(l, lost, s, buf, pid);
    case Segment(port, x, overwrite) =>
      DeliverTails(l, port, x, overwrite);
      if RbmOfPort(l, port) < |l.rbm| {
        assert Aligned(l.rbm[RbmOfPort(l, port)].q);
        StepKeepsSafe(l.rbm[RbmOfPort(l, port)].q, Arrives(x, overwrite));
      }
    case Close(s, pid) => CloseTails(l, s, pid);
  }

  // ---------------------------------------------------------------- runs

  ghost predicate AllProper<T>(l: Layer<T>, calls: seq<Call<T>>)
    decreases |calls|
  {
    calls == [] || (AllAligned(l) && Proper(l, calls[0]) && AllProper(Do(l, calls[0]).0, calls[1..]))
  }

  /** The state after a run, the buffers lost in it, and how many returned buffers went uncounted.  The
    * code follows it as long as the run is Unbroken. */
  ghost function Run<T>(l: Layer<T>, calls: seq<Call<T>>): (Layer<T>, set<nat>, nat)
    requires AllProper(l, calls)
    decreases |calls|
  {
    if calls == [] then (l, {}, 0)
    else
      var (m, lost, forgotten) := Run(Do(l, calls[0]).0, calls[1..]);
      (m, Loses(l, calls[0]) + lost, Forgotten(l, calls[0]) + forgotten)
  }

  /** After any run every buffer is still in exactly one place, the correspondence holds, and num_bufs_free
    * is short by exactly the buffers that closed sockets gave back. */
  lemma {:induction false} RunsKeepIntact<T>(l: Layer<T>, lost: set<nat>, calls: seq<Call<T>>)
    requires Intact(l, lost) && AllProper(l, calls)
    ensures Intact(Run(l, calls).0, lost + Run(l, calls).1)
    ensures Shortfall(Run(l, calls).0) == Shortfall(l) + Run(l, calls).2
    decreases |calls|
  {
    if calls == [] {
      assert lost + {} == lost;
    } else {
      EveryCallKeepsIntact(l, lost, calls[0]);
      var m := Do(l, calls[0]).0;
      RunsKeepIntact(m, lost + Loses(l, calls[0]), calls[1..]);
      assert lost + Loses(l, calls[0]) + Run(m, calls[1..]).1 == lost + (Loses(l, calls[0]) + Run(m, calls[1..]).1);
    }
  }

  /** No call of the run puts a buffer behind a tail pointer left behind. */
  ghost predicate Unbroken<T>(l: Layer<T>, calls: seq<Call<T>>)
    requires AllProper(l, calls)
    decreases |calls|
  {
    calls == [] || (!Breaks(l, calls[0]) && Unbroken(Do(l, calls[0]).0, calls[1..]))
  }

  ghost predicate NeverLosesTail<T>(l: Layer<T>, calls: seq<Call<T>>)
    requires AllProper(l, calls)
    decreases |calls|
  {
    calls == [] || (!LosesTail(l, calls[0]) && NeverLosesTail(Do(l, calls[0]).0, calls[1..]))
  }

  ghost predicate TailsStayRight<T>(l: Layer<T>, calls: seq<Call<T>>)
    requires AllProper(l, calls)
    decreases |calls|
  {
    AllTailsRight(l) && (calls == [] || TailsStayRight(Do(l, calls[0]).0, calls[1..]))
  }

  ghost predicate NeverRisks<T>(l: Layer<T>, calls: seq<Call<T>>)
    requires AllProper(l, calls)
    decreases |calls|
  {
    calls == [] || (!Risks(l, calls[0]) && NeverRisks(Do(l, calls[0]).0, calls[1..]))
  }

  /** All tail pointers are right at every moment of a run, exactly if no arrival has taken the last of
    * several buffers from a free queue; and then no call goes wrong. */
  lemma {:induction false} TailsStayRightExactly<T>(l: Layer<T>, lost: set<nat>, calls: seq<Call<T>>)
    requires Intact(l, lost) && AllTailsRight(l) && AllProper(l, calls)
    ensures TailsStayRight(l, calls) <==> NeverLosesTail(l, calls)
    ensures TailsStayRight(l, calls) ==> Unbroken(l, calls)
    decreases |calls|
  {
    if calls != [] {
      CallKeepsTails(l, lost, calls[0]);
      EveryCallKeepsIntact(l, lost, calls[0]);
      if !LosesTail(l, calls[0]) {
        TailsStayRightExactly(Do(l, calls[0]).0, lost + Loses(l, calls[0]), calls[1..]);
      }
    }
  }

  /** What tasks can see to: a run in which no buffer is released out of order and no port is grown while it
    * holds accepted buffers never leaves a tail pointer behind. */
  lemma {:induction false} CarefulRunsKeepTails<T>(l: Layer<T>, lost: set<nat>, calls: seq<Call<T>>)
    requires Intact(l, lost) && AllTailSafe(l) && AllProper(l, calls) && NeverRisks(l, calls)
    ensures NeverLosesTail(l, calls) && AllTailSafe(Run(l, calls).0)
    decreases |calls|
  {
    if calls != [] {
      CallKeepsSafe(l, lost, calls[0]);
      EveryCallKeepsIntact(l, lost, calls[0]);
      CarefulRunsKeepTails(Do(l, calls[0]).0, lost + Loses(l, calls[0]), calls[1..]);
    }
  }

  function Segments<T>(port: nat, x: Item<T>, overwrite: bool, n: nat): seq<Call<T>> {
    seq(n, _ => Segment(port, x, overwrite))
  }

  lemma SegmentsRest<T>(port: nat, x: Item<T>, overwrite: bool, n: nat)
    requires n > 0
    ensures Segments(port, x, overwrite, n)[1..] == Segments(port, x, overwrite, n - 1)
  {
  }

  lemma DeliveredAligned<T>(l: Layer<T>, port: nat, x: Item<T>, overwrite: bool)
    requires AllAligned(l) && RbmOfPort(l, port) < |l.rbm|
    ensures AllAligned(Deliver(l, port, x, overwrite))
  {
    assert Aligned(l.rbm[RbmOfPort(l, port)].q);
    StepKeepsAligned(l.rbm[RbmOfPort(l, port)].q, Arrives(x, overwrite));
  }

  lemma SamePort<T>(l: Layer<T>, m: Layer<T>, port: nat)
    requires m.ports == l.ports && |m.rbm| == |l.rbm|
    requires forall i :: 0 <= i < |l.rbm| ==> m.rbm[i].pindex == l.rbm[i].pindex
    ensures RbmOfPort(m, port) == RbmOfPort(l, port)
  {
    forall i | 0 <= i < |l.rbm| ensures Serves(m, m.rbm[i], port) <==> Serves(l, l.rbm[i], port) {
    }
  }

  lemma {:induction false} SegmentsProper<T>(l: Layer<T>, port: nat, x: Item<T>, overwrite: bool, n: nat)
    requires AllAligned(l) && RbmOfPort(l, port) < |l.rbm|
    ensures AllProper(l, Segments(port, x, overwrite, n))
    decreases n
  {
    if n > 0 {
      DeliveredAligned(l, port, x, overwrite);
      SamePort(l, Deliver(l, port, x, overwrite), port);
      SegmentsRest(port, x, overwrite, n);
      hide Deliver, RbmOfPort;
      SegmentsProper(Deliver(l, port, x, overwrite), port, x, overwrite, n - 1);
    }
  }

  /** n segments for a port leave a tail pointer behind. */
  ghost predicate SegmentsLose<T>(l: Layer<T>, port: nat, x: Item<T>, overwrite: bool, n: nat) {
    AllProper(l, Segments(port, x, overwrite, n)) && !NeverLosesTail(l, Segments(port, x, overwrite, n))
  }

  lemma SegmentsLoseFirst<T>(l: Layer<T>, port: nat, x: Item<T>, overwrite: bool, n: nat)
    requires AllAligned(l) && RbmOfPort(l, port) < |l.rbm| && Aligned(l.rbm[RbmOfPort(l, port)].q) && n > 0
    ensures SegmentsLose(l, port, x, overwrite, n) <==>
              || ReceiveRuns.LosesTail(l.rbm[RbmOfPort(l, port)].q, Arrives(x, overwrite))
              || SegmentsLose(Deliver(l, port, x, overwrite), port, x, overwrite, n - 1)
  {
    SegmentsProper(l, port, x, overwrite, n);
    SegmentsRest(port, x, overwrite, n);
    hide Aligned, Arrive, RbmOfPort, Deliver;
  }

  /** Segments for one port are arrivals at the element that serves it. */
  lemma {:induction false} SegmentsAreArrivals<T>(l: Layer<T>, port: nat, x: Item<T>, overwrite: bool, n: nat)
    requires AllAligned(l) && RbmOfPort(l, port) < |l.rbm| && Aligned(l.rbm[RbmOfPort(l, port)].q)
    ensures SegmentsLose(l, port, x, overwrite, n) <==>
            !ReceiveRuns.NeverLosesTail(l.rbm[RbmOfPort(l, port)].q, Arrivals(x, overwrite, n))
    decreases n
  {
    if n > 0 {
      var m := Deliver(l, port, x, overwrite);
      SegmentsLoseFirst(l, port, x, overwrite, n);
      ArrivalsFirst(l.rbm[RbmOfPort(l, port)].q, x, overwrite, n);
      DeliveredAligned(l, port, x, overwrite);
      SamePort(l, m, port);
      assert Aligned(m.rbm[RbmOfPort(m, port)].q);
      hide SegmentsLose, Aligned, Arrive, RbmOfPort, Arrivals;
      SegmentsAreArrivals(m, port, x, overwrite, n - 1);
    }
  }

  /** Segments alone can leave a port's tail pointer behind exactly when a buffer is held there and the one
    * at the tail of the free queue is not. */
  lemma PortAtRiskExactly<T>(l: Layer<T>, port: nat, x: Item<T>)
    requires AllAligned(l) && RbmOfPort(l, port) < |l.rbm|
    ensures TailSafe(l.rbm[RbmOfPort(l, port)].q.held) <==>
            forall n: nat, overwrite: bool :: !SegmentsLose(l, port, x, overwrite, n)
  {
    hide SegmentsLose;
    var q := l.rbm[RbmOfPort(l, port)].q;
    assert Aligned(q);
    forall n: nat, overwrite: bool
      ensures SegmentsLose(l, port, x, overwrite, n) <==> !ReceiveRuns.NeverLosesTail(q, Arrivals(x, overwrite, n))
    {
      SegmentsAreArrivals(l, port, x, overwrite, n);
    }
    TailAtRiskExactly(q, x);
    if !TailSafe(q.held) {
      var n: nat, overwrite: bool :| !ReceiveRuns.NeverLosesTail(q, Arrivals(x, overwrite, n));
      assert SegmentsLose(l, port, x, overwrite, n);
    } else {
      forall n: nat, overwrite: bool ensures !SegmentsLose(l, port, x, overwrite, n) {
        assert ReceiveRuns.NeverLosesTail(q, Arrivals(x, overwrite, n));
      }
    }
  }

  lemma {:induction false} NobodyOwns<T>(rbm: seq<Rbm<T>>, b: nat)
    requires forall r :: 0 <= r < |rbm| ==> rbm[r].q == Empty()
    ensures Owners(rbm, b) == 0
  {
    if rbm != [] {
      NobodyOwns(rbm[1..], b);
    }
  }

  lemma {:induction false} CountAll(u: seq<bool>)
    requires forall i :: 0 <= i < |u| ==> u[i]
    ensures CountOf(u, true) == |u|
  {
    if u != [] {
      CountAll(u[1..]);
    }
  }

  lemma InitialIsIntact<T>(sockets: nat, buffers: nat)
    requires sockets <= MAX_PORTS
    ensures Intact<T>(Initial(sockets, buffers), {})
    ensures AllTailsRight<T>(Initial(sockets, buffers)) && AllTailSafe<T>(Initial(sockets, buffers))
    ensures Shortfall<T>(Initial(sockets, buffers)) == 0
  {
    var l: Layer<T> := Initial(sockets, buffers);
    CountAll(l.unalloc);
    forall b: nat ensures Placed(l, {}, b) {
      NobodyOwns(l.rbm, b);
    }
  }
}
