/** What the calls promise the tasks: who owns a descriptor, what mapping, growth and close give and take, and
  * that what is sent to a bound port is received there.
  */
module SocketPromises {
  import opened Options
  import opened PriorityQueue
  import opened ReceiveSpec
  import opened ReceiveRuns
  import opened SocketSpec
  import opened SocketInvariants
  import opened SocketPool
  import opened SocketRuns

  // ---------------------------------------------------------------- mapping

  /** Socket s has been mapped to a port element of the given number and an rbm element, neither in use before;
    * the element has n more empty buffers of the pool, and nothing else has changed. */
  ghost predicate NewlyMapped<T>(l: Layer<T>, m: Layer<T>, s: nat, number: nat, n: nat) {
    && s < |l.sock| == |m.sock|
    && var k := m.sock[s];
       && 0 <= k.pindex < |l.ports| && l.ports[k.pindex] == INVALID_PORT
       && 0 <= k.rbmindex < |l.rbm| == |m.rbm| && l.rbm[k.rbmindex].pindex == UNMAPPED
       && m.sock == l.sock[s := l.sock[s].(pindex := k.pindex, rbmindex := k.rbmindex)]
       && m.ports == l.ports[k.pindex := number]
       && m.rbm == l.rbm[k.rbmindex := Rbm(k.pindex, m.rbm[k.rbmindex].q)]
       && Granted(l.rbm[k.rbmindex].q, m.rbm[k.rbmindex].q, n)
       && m.numBufsFree == l.numBufsFree - n
  }

  lemma MapsNew<T>(l: Layer<T>, lost: set<nat>, s: nat, number: nat, n: nat)
    requires Intact(l, lost) && s < |l.sock| && !Mapped(l, s) && n <= l.numBufsFree
    requires number != INVALID_PORT && l.sock[s].pid != INVALID_PID && l.sock[s].kind != RAW
    ensures MapAndAllocate(l, s, number, n).1 == Ok(n)
    ensures NewlyMapped(l, MapAndAllocate(l, s, number, n).0, s, number, n)
  {
    ElementsLeft(l, s);
    var p, r := FreePort(l), FreeRbm(l);
    var k := Map(l, s, p, r, number);
    MapKeepsIntact(l, lost, s, p, r, number);
    AllocateManySucceeds(k, lost, r, n);
    var m := AllocateMany(k, r, n).value;
    assert m.rbm == l.rbm[r := Rbm(p, m.rbm[r].q)];
  }

  /** bind() succeeds exactly for an owned, unmapped datagram socket, a number within range and a buffer left;
    * the socket then has a port of that number and one buffer. */
  lemma BindMaps<T>(l: Layer<T>, lost: set<nat>, s: int, number: int, pid: int)
    requires Intact(l, lost) && pid != INVALID_PID
    ensures var (m, reply) := Bind(l, s, number, pid);
            && (reply.Ok? <==>
                  && Owns(l, s, pid) && l.sock[s].kind != RAW && !Mapped(l, s)
                  && 1 <= number <= 255 && l.numBufsFree >= 1)
            && (reply.Ok? ==> reply == Ok(1) && NewlyMapped(l, m, s, number, 1))
            && (!reply.Ok? ==> m == l)
            && (reply == Err(InvalidArgument) <==> !(0 <= s < |l.sock| && 1 <= number <= 255))
            && (reply == Err(InvalidCall) ==> Owns(l, s, pid) && Mapped(l, s))
            && (reply == Err(NoRxBuffers) ==> Owns(l, s, pid) && !Mapped(l, s) && l.numBufsFree < 1)
  {
    if Owns(l, s, pid) {
      assert WellMapped(l, s);
      if l.sock[s].kind != RAW && !Mapped(l, s) && 1 <= number <= 255 && l.numBufsFree >= 1 {
        MapsNew(l, lost, s, number, 1);
      }
    }
  }

  /** The lowest ephemeral number that is not taken. */
  ghost predicate LowestFree(ports: seq<nat>, number: nat) {
    11 <= number <= 255 && number !in ports && forall q :: 11 <= q < number ==> q in ports
  }

  lemma EphemeralIsLowest(ports: seq<nat>)
    requires |ports| <= MAX_PORTS
    ensures LowestFree(ports, EphemeralFrom(ports, EPHEMERAL_PORT_NUM_START))
  {
    AlwaysAnEphemeralPort(ports);
  }

  /** A first send maps the socket to the lowest free ephemeral number, with one buffer. */
  lemma SendMaps<T>(l: Layer<T>, lost: set<nat>, s: int, pid: int)
    requires Intact(l, lost) && pid != INVALID_PID
    ensures var (m, reply) := MapForSend(l, s, pid);
            && (reply.Err? <==> !Owns(l, s, pid) || (l.sock[s].kind != RAW && !Mapped(l, s) && l.numBufsFree < 1))
            && (reply.Ok? && l.sock[s].kind != RAW && !Mapped(l, s) ==>
                  exists number: nat :: LowestFree(l.ports, number) && NewlyMapped(l, m, s, number, 1))
            && (!reply.Ok? || l.sock[s].kind == RAW || Mapped(l, s) ==> m == l)
  {
    if Owns(l, s, pid) && l.sock[s].kind != RAW && !Mapped(l, s) && l.numBufsFree >= 1 {
      EphemeralIsLowest(l.ports);
      MapsNew(l, lost, s, EphemeralFrom(l.ports, EPHEMERAL_PORT_NUM_START), 1);
    }
  }

  function Min(a: int, b: int): int {
    if a < b then a else b
  }

  /** set_rx_queue_size() on an unmapped socket maps it with as many buffers as asked for, or all there are. */
  lemma SizeMaps<T>(l: Layer<T>, lost: set<nat>, s: int, size: int, pid: int, unset: nat)
    requires Intact(l, lost) && pid != INVALID_PID && unset < |l.rbm|
    requires Owns(l, s, pid) && l.sock[s].kind != RAW && !Mapped(l, s) && size >= 1
    ensures var (m, reply) := SetRxQueueSize(l, s, size, pid, unset);
            if l.numBufsFree < 1 then m == l && reply == Err(NoRxBuffers)
            else
              && reply == Ok(Min(size, l.numBufsFree))
              && exists number: nat :: LowestFree(l.ports, number)
                                       && NewlyMapped(l, m, s, number, Min(size, l.numBufsFree))
  {
    EphemeralIsLowest(l.ports);
    if l.numBufsFree >= 1 {
      MapsNew(l, lost, s, EphemeralFrom(l.ports, EPHEMERAL_PORT_NUM_START), Min(size, l.numBufsFree));
    }
  }

  /** On a mapped socket it gives the buffers asked for beyond the first, or all there are, to the element that
    * the unset variable names, and replies as if the socket had had one buffer before. */
  lemma SizeGrows<T>(l: Layer<T>, lost: set<nat>, s: int, size: int, pid: int, unset: nat)
    requires Intact(l, lost) && pid != INVALID_PID && unset < |l.rbm|
    requires Owns(l, s, pid) && Mapped(l, s) && size >= 1
    ensures var (m, reply) := SetRxQueueSize(l, s, size, pid, unset);
            var g := Min(size - 1, l.numBufsFree);
            && reply == Ok(1 + g) && m.numBufsFree == l.numBufsFree - g
            && m.sock == l.sock && m.ports == l.ports && |m.rbm| == |l.rbm|
            && m.rbm == l.rbm[unset := Rbm(l.rbm[unset].pindex, m.rbm[unset].q)]
            && Granted(l.rbm[unset].q, m.rbm[unset].q, g)
  {
    assert WellMapped(l, s);
    if size > 1 {
      AllocateManySucceeds(l, lost, unset, Min(size - 1, l.numBufsFree));
    } else {
      assert l.rbm == l.rbm[unset := Rbm(l.rbm[unset].pindex, l.rbm[unset].q)];
    }
  }

  /** It refuses everything else. */
  lemma SizeRefuses<T>(l: Layer<T>, s: int, size: int, pid: int, unset: nat)
    requires unset < |l.rbm|
    requires !Owns(l, s, pid) || size < 1 || l.sock[s].kind == RAW
    ensures SetRxQueueSize(l, s, size, pid, unset) ==
            (l, Err(if !(0 <= s < |l.sock|) || size < 1 then InvalidArgument else InvalidSocket))
  {
  }

  // ---------------------------------------------------------------- closing

  /** close_socket() gives up the descriptor of any kind of socket; its port element is free again, its rbm
    * element empty and unused, and its queued, free and held buffers are unallocated.  Nothing else changes. */
  lemma CloseGivesUp<T>(l: Layer<T>, lost: set<nat>, s: int, pid: int)
    requires Intact(l, lost) && pid != INVALID_PID
    ensures var (m, reply) := CloseSocket(l, s, pid);
            && reply == (if Owns(l, s, pid) then Ok(1)
                         else Err(if 0 <= s < |l.sock| then InvalidSocket else InvalidArgument))
            && (!Owns(l, s, pid) ==> m == l)
            && (Owns(l, s, pid) ==>
                  && m.sock == l.sock[s := Socket(INVALID_PID, l.sock[s].kind, UNMAPPED, UNMAPPED)]
                  && m.numBufsFree == l.numBufsFree && Freed(l, m, s))
  {
    if Owns(l, s, pid) {
      assert WellMapped(l, s);
      if Mapped(l, s) {
        var q := l.rbm[l.sock[s].rbmindex].q;
        var m := CloseSocket(l, s, pid).0;
        forall b: nat
          ensures Unallocated(m.unalloc, b) <==>
                  Unallocated(l.unalloc, b) || (b < |l.unalloc| && (b in q.fq || b in q.pq))
        {
          GiveBackMarks(l.unalloc, q.fq + q.pq, b);
        }
      }
    }
  }

  /** What a close gives back. */
  ghost predicate Freed<T>(l: Layer<T>, m: Layer<T>, s: nat)
    requires s < |l.sock| && WellMapped(l, s)
  {
    if !Mapped(l, s) then
      m.ports == l.ports && m.rbm == l.rbm && m.unalloc == l.unalloc
    else
      var p, r := l.sock[s].pindex, l.sock[s].rbmindex;
      && m.ports == l.ports[p := INVALID_PORT] && m.rbm == l.rbm[r := Rbm(UNMAPPED, Empty())]
      && |m.unalloc| == |l.unalloc|
      && forall b: nat :: Unallocated(m.unalloc, b) <==>
                          Unallocated(l.unalloc, b)
                          || (b < |l.unalloc| && (b in l.rbm[r].q.fq || b in l.rbm[r].q.pq))
  }

  // ---------------------------------------------------------------- who owns a descriptor

  predicate Owns<T>(l: Layer<T>, s: int, pid: int) {
    0 <= s < |l.sock| && l.sock[s].pid == pid
  }

  /** create_socket() takes the lowest unassigned descriptor for the task and the kind it asks for. */
  lemma CreateTakesLowest<T>(l: Layer<T>, kind: SockType, pid: int)
    ensures var (m, reply) := CreateSocket(l, kind, pid);
            && (reply.Ok? <==> kind != SEQPACKET && exists s :: Owns(l, s, INVALID_PID))
            && (!reply.Ok? ==> m == l && reply == Err(if kind == SEQPACKET then UnsupportedType else NoSocketDesc))
            && (reply.Ok? ==>
                  && Owns(l, reply.value, INVALID_PID)
                  && (forall s :: 0 <= s < reply.value ==> !Owns(l, s, INVALID_PID))
                  && var was := l.sock[reply.value];
                     m == l.(sock := l.sock[reply.value := Socket(pid, kind, was.pindex, was.rbmindex)]))
  {
    if s :| Owns(l, s, INVALID_PID) {
      assert l.sock[s].pid == INVALID_PID;
    }
    if FreeSocket(l) < |l.sock| {
      assert Owns(l, FreeSocket(l), INVALID_PID);
    }
  }

  /** The descriptor a call names, and the task that makes it. */
  function Caller<T>(c: Call<T>): Option<(int, int)> {
    match c
    case BindTo(s, _, pid) => Some((s, pid))
    case SendOn(s, pid) => Some((s, pid))
    case SetSize(s, _, pid, _) => Some((s, pid))
    case ReceiveOn(s, pid) => Some((s, pid))
    case Release(s, _, pid) => Some((s, pid))
    case Close(s, pid) => Some((s, pid))
    case _ => None
  }

  /** Only its owner gets anywhere with a descriptor. */
  lemma OnlyOwners<T>(l: Layer<T>, c: Call<T>)
    requires AllAligned(l) && Proper(l, c) && Caller(c).Some?
    requires !Owns(l, Caller(c).value.0, Caller(c).value.1)
    ensures Do(l, c).0 == l
    ensures Do(l, c).1 == Err(InvalidArgument) || Do(l, c).1 == Err(InvalidSocket)
    ensures !(0 <= Caller(c).value.0 < |l.sock|) ==> Do(l, c).1 == Err(InvalidArgument)
  {
  }

  /** A call that is refused, has to wait or panics has changed nothing. */
  lemma RefusedChangesNothing<T>(l: Layer<T>, lost: set<nat>, c: Call<T>)
    requires Intact(l, lost) && Proper(l, c) && !Do(l, c).1.Ok?
    ensures Do(l, c).0 == l
  {
    match c
    case Create(kind, pid) => CreateTakesLowest(l, kind, pid);
    case BindTo(s, number, pid) => BindMaps(l, lost, s, number, pid);
    case SendOn(s, pid) => SendMaps(l, lost, s, pid);
    case SetSize(s, size, pid, unset) =>
      if Owns(l, s, pid) && size >= 1 && l.sock[s].kind != RAW && Mapped(l, s) {
        SizeGrows(l, lost, s, size, pid, unset);
      } else if Owns(l, s, pid) && size >= 1 && l.sock[s].kind != RAW {
        SizeMaps(l, lost, s, size, pid, unset);
      }
    case Close(s, pid) => CloseGivesUp(l, lost, s, pid);
    case _ =>
  }

  /** After a close the descriptor is nobody's: no task can use it, and the next create_socket() finds it,
    * unless there is a lower one. */
  lemma ClosedIsGone<T>(l: Layer<T>, lost: set<nat>, s: int, pid: int)
    requires Intact(l, lost) && pid != INVALID_PID && Owns(l, s, pid)
    ensures var m := CloseSocket(l, s, pid).0;
            && (forall c :: Proper(m, c) && Caller(c).Some? && Caller(c).value.0 == s ==>
                  AllAligned(m) && Do(m, c).0 == m && Do(m, c).1.Err?)
            && (forall kind, other :: kind != SEQPACKET ==>
                  CreateSocket(m, kind, other).1.Ok? && CreateSocket(m, kind, other).1.value <= s)
  {
    var m := CloseSocket(l, s, pid).0;
    CloseGivesUp(l, lost, s, pid);
    CloseKeepsIntact(l, lost, s, pid);
    forall c | Proper(m, c) && Caller(c).Some? && Caller(c).value.0 == s ensures Do(m, c).0 == m && Do(m, c).1.Err? {
      OnlyOwners(m, c);
    }
    forall kind, other | kind != SEQPACKET
      ensures CreateSocket(m, kind, other).1.Ok? && CreateSocket(m, kind, other).1.value <= s
    {
      assert Owns(m, s, INVALID_PID);
      CreateTakesLowest(m, kind, other);
    }
  }

  /** The task that has a descriptor, and the kind it was created as. */
  datatype Holder = Holder(pid: int, kind: SockType)

  /** Who holds descriptor t after a call, by the call and its reply alone. */
  function NextHolder<T>(c: Call<T>, reply: Reply, t: nat, h: Holder): Holder {
    match c
    case Create(kind, pid) => if reply == Ok(t) then Holder(pid, kind) else h
    case Close(s, pid) => if s == t && pid == h.pid then h.(pid := INVALID_PID) else h
    case _ => h
  }

  function HolderOf<T>(l: Layer<T>, t: nat): Holder
    requires t < |l.sock|
  {
    Holder(l.sock[t].pid, l.sock[t].kind)
  }

  lemma CallKeepsHolders<T>(l: Layer<T>, lost: set<nat>, c: Call<T>, t: nat)
    requires Intact(l, lost) && Proper(l, c) && t < |l.sock|
    ensures var (m, reply) := Do(l, c);
            |m.sock| == |l.sock| && HolderOf(m, t) == NextHolder(c, reply, t, HolderOf(l, t))
  {
    match c
    case Create(kind, pid) => CreateTakesLowest(l, kind, pid);
    case BindTo(s, number, pid) => BindMaps(l, lost, s, number, pid);
    case SendOn(s, pid) => SendMaps(l, lost, s, pid);
    case SetSize(s, size, pid, unset) =>
      if !Owns(l, s, pid) || size < 1 || l.sock[s].kind == RAW {
        SizeRefuses(l, s, size, pid, unset);
      } else if Mapped(l, s) {
        SizeGrows(l, lost, s, size, pid, unset);
      } else {
        SizeMaps(l, lost, s, size, pid, unset);
      }
    case Close(s, pid) => CloseGivesUp(l, lost, s, pid);
    case _ =>
  }

  /** Who holds it after a run. */
  ghost function LastHolder<T>(l: Layer<T>, calls: seq<Call<T>>, t: nat, h: Holder): Holder
    requires AllProper(l, calls)
    decreases |calls|
  {
    if calls == [] then h
    else LastHolder(Do(l, calls[0]).0, calls[1..], t, NextHolder(calls[0], Do(l, calls[0]).1, t, h))
  }

  /** In every run a descriptor belongs to the task that last created it and has not closed it since, as the
    * kind it was created as; no other call gives or takes one. */
  lemma {:induction false} RunsKeepHolders<T>(l: Layer<T>, lost: set<nat>, calls: seq<Call<T>>, t: nat)
    requires Intact(l, lost) && AllProper(l, calls) && t < |l.sock|
    ensures |SocketRuns.Run(l, calls).0.sock| == |l.sock|
    ensures HolderOf(SocketRuns.Run(l, calls).0, t) == LastHolder(l, calls, t, HolderOf(l, t))
    decreases |calls|
  {
    if calls != [] {
      EveryCallKeepsIntact(l, lost, calls[0]);
      CallKeepsHolders(l, lost, calls[0], t);
      RunsKeepHolders(Do(l, calls[0]).0, lost + Loses(l, calls[0]), calls[1..], t);
    }
  }

  // ---------------------------------------------------------------- receiving

  /** A task that owns a mapped socket accepts the head segment of its port, whose buffer it then holds; it
    * waits while the port has nothing, and nothing accepted or stranded. */
  lemma ReceiveTakesHead<T>(l: Layer<T>, lost: set<nat>, s: int, pid: int)
    requires Intact(l, lost) && pid != INVALID_PID && Owns(l, s, pid) && Mapped(l, s)
    ensures var (m, reply) := Receive(l, s, pid);
            && 0 <= l.sock[s].rbmindex < |l.rbm|
            && var r := l.sock[s].rbmindex;
               var q := l.rbm[r].q;
               if q.queue == [] then
                 m == l && reply == if true in q.held || q.stranded != {} then Panic else Err(WouldBlock)
               else
                 && reply == Ok(q.pq[0])
                 && m == l.(rbm := l.rbm[r := l.rbm[r].(q := q.(fq := q.fq + [q.pq[0]], held := q.held + [true],
                                                                pq := q.pq[1..], queue := q.queue[1..]))])
  {
    assert WellMapped(l, s);
    assert Aligned(l.rbm[l.sock[s].rbmindex].q);
    ReceiveOutcome(l.rbm[l.sock[s].rbmindex].q);
  }

  ghost predicate Holds<T>(q: PortQueues<T>, buf: nat) {
    exists k :: 0 <= k < |q.fq| == |q.held| && q.fq[k] == buf && q.held[k]
  }

  lemma {:induction false} HeldAtFinds(fq: seq<nat>, held: seq<bool>, buf: nat)
    requires |fq| == |held|
    ensures HeldAt(fq, held, buf) < |fq| <==> exists k :: 0 <= k < |fq| && fq[k] == buf && held[k]
  {
    if fq != [] && !(fq[0] == buf && held[0]) {
      HeldAtFinds(fq[1..], held[1..], buf);
      if k :| 0 <= k < |fq| && fq[k] == buf && held[k] {
        assert fq[1..][k - 1] == buf && held[1..][k - 1];
      }
    }
  }

  /** release_buffer() succeeds exactly for a buffer the socket's port holds, which is empty then; nothing else
    * changes. */
  lemma ReleaseFrees<T>(l: Layer<T>, lost: set<nat>, s: int, buf: nat, pid: int)
    requires Intact(l, lost) && pid != INVALID_PID && Owns(l, s, pid) && Mapped(l, s)
    ensures var (m, reply) := ReleaseBuffer(l, s, buf, pid);
            && 0 <= l.sock[s].rbmindex < |l.rbm|
            && var r := l.sock[s].rbmindex;
               var q := l.rbm[r].q;
               if Holds(q, buf) then
                 && reply == Ok(1) && |m.rbm| == |l.rbm| && m.rbm[r].q.fq == q.fq && !Holds(m.rbm[r].q, buf)
                 && (forall k :: 0 <= k < |q.fq| == |q.held| && q.fq[k] != buf ==> m.rbm[r].q.held[k] == q.held[k])
                 && m == l.(rbm := l.rbm[r := l.rbm[r].(q := q.(held := m.rbm[r].q.held))])
               else
                 m == l && reply == Err(InvalidArgument)
  {
    assert WellMapped(l, s);
    var r := l.sock[s].rbmindex;
    var q := l.rbm[r].q;
    assert Aligned(q);
    HeldAtFinds(q.fq, q.held, buf);
    ClaimedOnce(l, lost, r, buf);
    OncePlaced(q, buf);
  }

  /** A buffer claimed once is at one place of the free queue only. */
  lemma OncePlaced<T>(q: PortQueues<T>, buf: nat)
    requires Claims(q, buf) <= 1
    ensures forall i, j :: 0 <= i < j < |q.fq| ==> !(q.fq[i] == buf && q.fq[j] == buf)
  {
    forall i, j | 0 <= i < j < |q.fq| ensures !(q.fq[i] == buf && q.fq[j] == buf) {
      assert q.fq == q.fq[..j] + q.fq[j..];
      assert q.fq[i] in q.fq[..j] && q.fq[j] in q.fq[j..];
      assert q.fq[i] in multiset(q.fq[..j]) && q.fq[j] in multiset(q.fq[j..]);
    }
  }

  /** While port numbers are distinct, a segment goes to the socket that has its number, and to no other; and
    * nowhere, if none has it. */
  lemma SegmentsFindTheirSocket<T>(l: Layer<T>, number: nat)
    requires Bijection(l) && AllAligned(l) && PortsDistinct(l.ports) && number != INVALID_PORT
    ensures number !in l.ports ==> RbmOfPort(l, number) == |l.rbm|
    ensures forall s: nat :: s < |l.sock| && Mapped(l, s) && WellMapped(l, s) && l.ports[l.sock[s].pindex] == number ==>
              RbmOfPort(l, number) == l.sock[s].rbmindex
  {
    var r := RbmOfPort(l, number);
    forall s: nat | s < |l.sock| && Mapped(l, s) && WellMapped(l, s) && l.ports[l.sock[s].pindex] == number
      ensures r == l.sock[s].rbmindex
    {
      assert Serves(l, l.rbm[l.sock[s].rbmindex], number);
      assert r < |l.rbm| && Serves(l, l.rbm[r], number);
      assert l.rbm[r].pindex == l.sock[s].pindex;
      assert RbmOwned(l, r);
      var t: nat :| UsesRbm(l, t, r);
      assert WellMapped(l, t) && Apart(l, s, t);
    }
  }

  lemma Delivered<T>(l: Layer<T>, s: nat, number: nat, x: Item<T>, overwrite: bool)
    requires Bijection(l) && AllAligned(l) && PortsDistinct(l.ports) && number != INVALID_PORT
    requires s < |l.sock| && Mapped(l, s) && WellMapped(l, s) && l.ports[l.sock[s].pindex] == number
    ensures var r := l.sock[s].rbmindex;
            && Aligned(l.rbm[r].q)
            && var q := Arrive(l.rbm[r].q, x, overwrite);
               Deliver(l, number, x, overwrite) == l.(rbm := l.rbm[r := l.rbm[r].(q := q)])
  {
    SegmentsFindTheirSocket(l, number);
    assert Aligned(l.rbm[l.sock[s].rbmindex].q);
  }

  /** From bind() to receive(): a segment sent to the number a task has bound is the one it then receives. */
  lemma BoundSocketReceives<T>(l: Layer<T>, lost: set<nat>, s: int, number: int, pid: int, x: Item<T>, overwrite: bool)
    requires Intact(l, lost) && pid != INVALID_PID && PortsDistinct(l.ports) && number !in l.ports
    requires Bind(l, s, number, pid).1.Ok?
    ensures var m := Bind(l, s, number, pid).0;
            && Intact(m, lost) && number > 0
            && var d := Deliver(m, number, x, overwrite);
               && Intact(d, lost) && 0 <= s < |d.sock| && 0 <= d.sock[s].rbmindex < |d.rbm|
               && var q := d.rbm[d.sock[s].rbmindex].q;
                  q.queue == [x] && |q.pq| == 1 && Receive(d, s, pid).1 == Ok(q.pq[0])
  {
    BindMaps(l, lost, s, number, pid);
    BindKeepsIntact(l, lost, s, number, pid);
    var m := Bind(l, s, number, pid).0;
    assert WellMapped(m, s);
    DistinctAfterBind(l.ports, m.sock[s].pindex, number);
    Delivered(m, s, number, x, overwrite);
    DeliverKeepsIntact(m, lost, number, x, overwrite);
    var r := m.sock[s].rbmindex;
    assert Idle(l.rbm[r]);
    var q := m.rbm[r].q;
    assert !q.held[|q.held| - 1];
    ArriveWithRoom(q, x, overwrite);
    assert StableInsert([], x) == [x];
    ReceiveTakesHead(Deliver(m, number, x, overwrite), lost, s, pid);
  }

  lemma DistinctAfterBind(ports: seq<nat>, p: nat, number: nat)
    requires PortsDistinct(ports) && p < |ports| && number !in ports
    ensures PortsDistinct(ports[p := number])
  {
  }
}
