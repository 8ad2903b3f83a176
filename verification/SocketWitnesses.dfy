/** Runs from the initial state that show each departure of the socket calls from what they are meant to
  * do.
  *
  * Most start with one or two sockets that are created and given buffers; from there on the steps of a
  * single port, which are simpler, are followed one by one and put together to a run of calls at the end.
  * Each lemma says which calls are made, and the state they lead to.
  */
module SocketWitnesses {
  import opened Options
  import opened PriorityQueue
  import opened ReceiveSpec
  import opened ReceiveRuns
  import opened SocketSpec
  import opened SocketInvariants
  import opened SocketRuns

  /** A run from l to m that the code follows. */
  ghost predicate Leads<T>(l: Layer<T>, calls: seq<Call<T>>, m: Layer<T>) {
    AllProper(l, calls) && SocketRuns.Unbroken(l, calls) && SocketRuns.Run(l, calls).0 == m
  }

  lemma LeadsOn<T>(l: Layer<T>, c: Call<T>, k: Layer<T>, calls: seq<Call<T>>, m: Layer<T>)
    requires AllAligned(l) && Proper(l, c) && !SocketRuns.Breaks(l, c) && Do(l, c).0 == k && Leads(k, calls, m)
    ensures Leads(l, [c] + calls, m)
  {
    assert ([c] + calls)[1..] == calls;
  }

  lemma Arrived<T>(l: Layer<T>)
    ensures Leads(l, [], l)
  {
  }

  // ---------------------------------------------------------------- two sockets

  function OneBuffer(b: nat): PortQueues<int> {
    PortQueues([b], [false], [], [], {}, true)
  }

  /** Task 1 has created the only socket. */
  function CreatedFirst(): Layer<int> {
    Layer([Socket(1, DGRAM, UNMAPPED, UNMAPPED), Socket(INVALID_PID, DGRAM, UNMAPPED, UNMAPPED)],
          [INVALID_PORT, INVALID_PORT], [Rbm(UNMAPPED, Empty()), Rbm(UNMAPPED, Empty())], [true, true, true], 3)
  }

  /** Task 1 has bound it to port 5. */
  function BoundFirst(): Layer<int> {
    Layer([Socket(1, DGRAM, 0, 0), Socket(INVALID_PID, DGRAM, UNMAPPED, UNMAPPED)],
          [5, INVALID_PORT], [Rbm(0, OneBuffer(0)), Rbm(UNMAPPED, Empty())], [false, true, true], 2)
  }

  /** Task 2 has created a second one, and bound it to a port of the given number. */
  function CreatedSecond(): Layer<int> {
    BoundFirst().(sock := [Socket(1, DGRAM, 0, 0), Socket(2, DGRAM, UNMAPPED, UNMAPPED)])
  }

  function BoundSecond(number: nat): Layer<int> {
    Layer([Socket(1, DGRAM, 0, 0), Socket(2, DGRAM, 1, 1)],
          [5, number], [Rbm(0, OneBuffer(0)), Rbm(1, OneBuffer(1))], [false, false, true], 1)
  }

  lemma MapOne<T>(l: Layer<T>, s: nat, p: nat, r: nat, port: nat)
    requires s < |l.sock| && p == FreePort(l) < |l.ports| && r == FreeRbm(l) < |l.rbm| && FreeBuffer(l) < |l.unalloc|
    ensures MapAndAllocate(l, s, port, 1) == (Allocate(Map(l, s, p, r, port), r), Ok(1))
  {
    var m := Map(l, s, p, r, port);
    assert AllocateMany(m, r, 1) == AllocateMany(Allocate(m, r), r, 0);
  }

  lemma FirstCreates()
    ensures Do(Initial(2, 3), Create(DGRAM, 1)).0 == CreatedFirst()
  {
    var i: Layer<int> := Initial(2, 3);
    assert i.sock[0].pid == INVALID_PID;
    assert FreeSocket(i) == 0;
  }

  lemma FirstFinds()
    ensures FreePort(CreatedFirst()) == 0 && FreeRbm(CreatedFirst()) == 0 && FreeBuffer(CreatedFirst()) == 0
  {
    var l := CreatedFirst();
    assert l.ports[0] == INVALID_PORT && l.rbm[0].pindex == UNMAPPED && l.unalloc[0];
  }

  lemma FirstBinds()
    ensures Do(CreatedFirst(), BindTo(0, 5, 1)) == (BoundFirst(), Ok(1))
  {
    var l, m := CreatedFirst(), BoundFirst();
    FirstFinds();
    hide First;
    MapOne(l, 0, 0, 0, 5);
    assert Grant(Empty(), 0) == OneBuffer(0);
    assert l.sock[0 := Socket(1, DGRAM, 0, 0)] == m.sock && l.ports[0 := 5] == m.ports;
    assert l.rbm[0 := Rbm(0, Empty())][0 := Rbm(0, OneBuffer(0))] == m.rbm && l.unalloc[0 := false] == m.unalloc;
  }

  lemma SecondCreates()
    ensures Do(BoundFirst(), Create(DGRAM, 2)).0 == CreatedSecond()
  {
    var i := BoundFirst();
    assert i.sock[1].pid == INVALID_PID;
    assert FreeSocket(i) == 1;
  }

  lemma SecondFinds()
    ensures FreePort(CreatedSecond()) == 1 && FreeRbm(CreatedSecond()) == 1 && FreeBuffer(CreatedSecond()) == 1
  {
    var l := CreatedSecond();
    assert l.ports[1] == INVALID_PORT && l.rbm[1].pindex == UNMAPPED && l.unalloc[1];
  }

  lemma SecondBinds(number: nat)
    requires 0 < number <= MAX_PORT_NUM
    ensures Do(CreatedSecond(), BindTo(1, number, 2)) == (BoundSecond(number), Ok(1))
  {
    var l, m := CreatedSecond(), BoundSecond(number);
    SecondFinds();
    hide First;
    MapOne(l, 1, 1, 1, number);
    assert Grant(Empty(), 1) == OneBuffer(1);
    assert l.sock[1 := Socket(2, DGRAM, 1, 1)] == m.sock && l.ports[1 := number] == m.ports;
    assert l.rbm[1 := Rbm(1, Empty())][1 := Rbm(1, OneBuffer(1))] == m.rbm && l.unalloc[1 := false] == m.unalloc;
  }

  lemma BothBound(number: nat)
    requires 0 < number <= MAX_PORT_NUM
    ensures Leads(Initial(2, 3), [Create(DGRAM, 1), BindTo(0, 5, 1), Create(DGRAM, 2), BindTo(1, number, 2)],
                  BoundSecond(number))
  {
    FirstCreates();
    FirstBinds();
    SecondCreates();
    SecondBinds(number);
    LeadsOn(CreatedSecond(), BindTo(1, number, 2), BoundSecond(number), [], BoundSecond(number));
    LeadsOn(BoundFirst(), Create(DGRAM, 2), CreatedSecond(), [BindTo(1, number, 2)], BoundSecond(number));
    LeadsOn(CreatedFirst(), BindTo(0, 5, 1), BoundFirst(),
            [Create(DGRAM, 2), BindTo(1, number, 2)], BoundSecond(number));
    LeadsOn(Initial(2, 3), Create(DGRAM, 1), CreatedFirst(),
            [BindTo(0, 5, 1), Create(DGRAM, 2), BindTo(1, number, 2)], BoundSecond(number));
  }

  /** Task 2 binds the port number task 1 already has, and is not refused. */
  lemma TwoSocketsOnePort()
    ensures Leads(Initial(2, 3), [Create(DGRAM, 1), BindTo(0, 5, 1), Create(DGRAM, 2), BindTo(1, 5, 2)], BoundSecond(5))
    ensures Bind(CreatedSecond(), 1, 5, 2) == (BoundSecond(5), Ok(1)) && !PortsDistinct(BoundSecond(5).ports)
  {
    BothBound(5);
    SecondBinds(5);
    assert BoundSecond(5).ports[0] == BoundSecond(5).ports[1];
  }

  lemma GrowthGives()
    ensures AllocateMany(BoundSecond(6), 1, 1) == Some(Allocate(BoundSecond(6), 1))
    ensures Allocate(BoundSecond(6), 1).rbm[0] == BoundSecond(6).rbm[0]
    ensures Allocate(BoundSecond(6), 1).rbm[1].q.fq == [1, 2]
  {
    var l := BoundSecond(6);
    assert l.unalloc[2];
    assert FreeBuffer(l) == 2;
    hide First;
    assert AllocateMany(Allocate(l, 1), 1, 0) == Some(Allocate(l, 1));
  }

  /** Task 1 grows its queue to two buffers, and task 2's port gets the second one. */
  lemma GrowthGoesElsewhere()
    ensures Leads(Initial(2, 3), [Create(DGRAM, 1), BindTo(0, 5, 1), Create(DGRAM, 2), BindTo(1, 6, 2)], BoundSecond(6))
    ensures var (m, reply) := SetRxQueueSize(BoundSecond(6), 0, 2, 1, 1);
            && reply == Ok(2) && m.rbm[0] == BoundSecond(6).rbm[0]
            && m.rbm[1].q.fq == [1, 2]
  {
    BothBound(6);
    hide Leads, AllocateMany, Allocate;
    GrowthGives();
  }

  /** Task 1 closes its socket, and its buffer is unallocated again but no longer counted as free. */
  lemma CloseForgetsBuffer()
    ensures Leads(Initial(2, 3), [Create(DGRAM, 1), BindTo(0, 5, 1)], BoundFirst())
    ensures var (m, reply) := CloseSocket(BoundFirst(), 0, 1);
            && reply == Ok(NRK_OK) && m.unalloc == [true, true, true] && m.numBufsFree == 2
  {
    FirstCreates();
    FirstBinds();
    LeadsOn(CreatedFirst(), BindTo(0, 5, 1), BoundFirst(), [], BoundFirst());
    LeadsOn(Initial(2, 3), Create(DGRAM, 1), CreatedFirst(), [BindTo(0, 5, 1)], BoundFirst());
    assert [0] + [] == [0];
    assert GiveBack([false, true, true], [0]) == [true, true, true];
  }

  // ---------------------------------------------------------------- one socket

  /** n buffers, all empty. */
  function Buffers<T>(n: nat): (p: PortQueues<T>)
    ensures |p.fq| == |p.held| == n && forall i :: 0 <= i < n ==> p.fq[i] == i && !p.held[i]
  {
    PortQueues(seq(n, i => i), seq(n, _ => false), [], [], {}, true)
  }

  /** Task 1 has the one socket, mapped to port 11, and so far k of the n buffers. */
  function Taking<T>(n: nat, k: nat): (l: Layer<T>)
    ensures |l.unalloc| == n && forall b :: 0 <= b < n ==> l.unalloc[b] == (b >= k)
  {
    Layer([Socket(1, DGRAM, 0, 0)], [EPHEMERAL_PORT_NUM_START], [Rbm(0, Buffers(k))], seq(n, b => b >= k), n - k)
  }

  /** It has all n buffers, and its port these queues. */
  function Single<T>(n: nat, p: PortQueues<T>): Layer<T> {
    Taking(n, n).(rbm := [Rbm(0, p)])
  }

  lemma TakesNext<T>(n: nat, k: nat)
    requires k < n
    ensures FreeBuffer<T>(Taking(n, k)) == k && Allocate<T>(Taking(n, k), 0) == Taking(n, k + 1)
  {
    var l: Layer<T> := Taking(n, k);
    assert l.unalloc[k];
    assert FreeBuffer(l) == k;
    assert l.unalloc[k := false] == Taking<T>(n, k + 1).unalloc;
    assert Grant(l.rbm[0].q, k) == Buffers<T>(k + 1);
  }

  lemma {:induction false} TakesRest<T>(n: nat, k: nat)
    requires k <= n
    ensures AllocateMany<T>(Taking(n, k), 0, n - k) == Some(Taking(n, n))
    decreases n - k
  {
    if k < n {
      TakesNext<T>(n, k);
      TakesRest<T>(n, k + 1);
    }
  }

  function Opened<T>(n: nat): Layer<T> {
    Layer([Socket(1, DGRAM, UNMAPPED, UNMAPPED)], [INVALID_PORT], [Rbm(UNMAPPED, Empty())], seq(n, _ => true), n)
  }

  lemma OpensOne<T>(n: nat)
    ensures Do<T>(Initial(1, n), Create(DGRAM, 1)).0 == Opened(n)
  {
    var i: Layer<T> := Initial(1, n);
    assert i.sock[0].pid == INVALID_PID;
    assert FreeSocket(i) == 0;
  }

  lemma SizesOne<T>(n: nat)
    requires n > 0
    ensures Do<T>(Opened(n), SetSize(0, n, 1, 0)) == (Taking(n, n), Ok(n))
  {
    var l: Layer<T> := Opened(n);
    assert l.ports[0] == INVALID_PORT && l.rbm[0].pindex == UNMAPPED;
    assert FreePort(l) == 0 && FreeRbm(l) == 0;
    assert EphemeralFrom(l.ports, EPHEMERAL_PORT_NUM_START) == EPHEMERAL_PORT_NUM_START;
    var k := Map(l, 0, 0, 0, EPHEMERAL_PORT_NUM_START);
    assert k.unalloc == Taking<T>(n, 0).unalloc && Empty<T>() == Buffers<T>(0);
    assert k == Taking(n, 0);
    TakesRest<T>(n, 0);
  }

  /** Creates a socket and gives it all n buffers there are. */
  function Opening<T>(n: nat): seq<Call<T>> {
    [Create(DGRAM, 1), SetSize(0, n, 1, 0)]
  }

  lemma OpeningLeads<T>(n: nat, calls: seq<Call<T>>, m: Layer<T>)
    requires n > 0 && Leads(Taking(n, n), calls, m)
    ensures Leads(Initial(1, n), Opening(n) + calls, m)
  {
    OpensOne<T>(n);
    SizesOne<T>(n);
    LeadsOn(Opened(n), SetSize(0, n, 1, 0), Taking(n, n), calls, m);
    LeadsOn(Initial(1, n), Create(DGRAM, 1), Opened(n), [SetSize(0, n, 1, 0)] + calls, m);
    assert Opening(n) + calls == [Create(DGRAM, 1)] + ([SetSize(0, n, 1, 0)] + calls);
  }

  lemma AllTaken<T>(n: nat)
    ensures Taking<T>(n, n) == Single(n, Buffers(n))
  {
  }

  /** The call that is this step of the port. */
  function CallOf<T>(p: PortQueues<T>, op: PortOp<T>): Call<T>
    requires op.Releases? ==> op.k < |p.fq|
  {
    match op
    case Arrives(x, overwrite) => Segment(EPHEMERAL_PORT_NUM_START, x, overwrite)
    case Accepts => ReceiveOn(0, 1)
    case Releases(k) => SocketRuns.Release(0, p.fq[k], 1)
  }

  /** A release finds the buffer it names first. */
  ghost predicate Findable<T>(p: PortQueues<T>, op: PortOp<T>)
    requires |p.fq| == |p.held|
  {
    op.Releases? ==> op.k < |p.fq| && HeldAt(p.fq, p.held, p.fq[op.k]) == op.k
  }

  /** On a single socket the calls are the steps of its port. */
  lemma SingleSteps<T>(n: nat, p: PortQueues<T>, op: PortOp<T>)
    requires Aligned(p) && Findable(p, op)
    ensures Do(Single(n, p), CallOf(p, op)).0 == Single(n, After(p, op))
    ensures SocketRuns.Breaks(Single(n, p), CallOf(p, op)) <==> ReceiveRuns.Breaks(p, op)
    ensures SocketRuns.LosesTail(Single(n, p), CallOf(p, op)) <==> ReceiveRuns.LosesTail(p, op)
  {
    var l := Single(n, p);
    assert Serves(l, l.rbm[0], EPHEMERAL_PORT_NUM_START);
    assert RbmOfPort(l, EPHEMERAL_PORT_NUM_START) == 0;
    assert l.rbm[0 := Rbm(0, After(p, op))] == [Rbm(0, After(p, op))];
    assert l.rbm[0 := Rbm(0, p)] == [Rbm(0, p)];
  }

  lemma SingleLeads<T>(n: nat, p: PortQueues<T>, op: PortOp<T>, calls: seq<Call<T>>, m: Layer<T>)
    requires Aligned(p) && Findable(p, op) && !ReceiveRuns.Breaks(p, op) && Leads(Single(n, After(p, op)), calls, m)
    ensures Leads(Single(n, p), [CallOf(p, op)] + calls, m)
  {
    SingleSteps(n, p, op);
    LeadsOn(Single(n, p), CallOf(p, op), Single(n, After(p, op)), calls, m);
  }

  // ---------------------------------------------------------------- receive() twice without a release

  lemma OneAccepted<T>(x: Item<T>)
    ensures Aligned(Buffers<T>(1))
    ensures After(Buffers(1), Arrives(x, true)) == PortQueues([], [], [0], [x], {}, true)
    ensures After(PortQueues([], [], [0], [x], {}, true), Accepts) == PortQueues([0], [true], [], [], {}, true)
  {
    ArrivesLast(Buffers(1), x);
    assert Buffers<T>(1).fq == [0] && Buffers<T>(1).held == [false];
    ReceiveOutcome(PortQueues([], [], [0], [x], {}, true));
  }

  lemma HoldingAllPanics<T>()
    ensures Do<T>(Single(1, PortQueues([0], [true], [], [], {}, true)), ReceiveOn(0, 1)).1 == Panic
  {
    ReceiveOutcome<T>(PortQueues([0], [true], [], [], {}, true));
  }

  /** A task accepts the only segment and receives again without releasing it: the code panics. */
  lemma ReceivingTwicePanics<T>(x: Item<T>)
    ensures var held := Single(1, PortQueues([0], [true], [], [], {}, true));
            && Leads(Initial(1, 1), Opening(1) + [Segment(11, x, true), ReceiveOn(0, 1)], held)
            && Do(held, ReceiveOn(0, 1)).1 == Panic
  {
    var queued := PortQueues([], [], [0], [x], {}, true);
    var held := PortQueues([0], [true], [], [], {}, true);
    OneAccepted(x);
    AllTaken<T>(1);
    HoldingAllPanics<T>();
    hide After, Leads, Do;
    Arrived(Single(1, held));
    var last: seq<Call<T>> := [ReceiveOn(0, 1)];
    assert last + [] == last;
    SingleLeads(1, queued, Accepts, [], Single(1, held));
    SingleLeads(1, Buffers(1), Arrives(x, true), last, Single(1, held));
    OpeningLeads(1, [Segment(11, x, true)] + last, Single(1, held));
    assert [Segment(11, x, true)] + last == [Segment(11, x, true), ReceiveOn(0, 1)];
  }

  // ---------------------------------------------------------------- releases out of order

  /** Two buffers, both accepted. */
  function BothHeld<T>(): PortQueues<T> {
    PortQueues([0, 1], [true, true], [], [], {}, true)
  }

  lemma TwoArrive<T>(x: Item<T>)
    ensures Aligned(Buffers<T>(2))
    ensures After(Buffers(2), Arrives(x, true)) == PortQueues([1], [false], [0], [x], {}, true)
    ensures After(PortQueues([1], [false], [0], [x], {}, true), Arrives(x, true)) ==
            PortQueues([], [], [0, 1], [x, x], {}, true)
  {
    assert Buffers<T>(2).fq == [0, 1] && Buffers<T>(2).held == [false, false];
    ArrivesLast(Buffers(2), x);
    ArrivesLast(PortQueues([1], [false], [0], [x], {}, true), x);
  }

  lemma TwoAccepted<T>(x: Item<T>)
    ensures After(PortQueues([], [], [0, 1], [x, x], {}, true), Accepts) == PortQueues([0], [true], [1], [x], {}, true)
    ensures After(PortQueues([0], [true], [1], [x], {}, true), Accepts) == BothHeld()
  {
    ReceiveOutcome(PortQueues([], [], [0, 1], [x, x], {}, true));
    ReceiveOutcome(PortQueues([0], [true], [1], [x], {}, true));
  }

  /** Task 1 opens its socket with two buffers, two segments arrive, and it accepts both. */
  function AcceptingTwo<T>(x: Item<T>): seq<Call<T>> {
    Opening(2) + [Segment(11, x, true), Segment(11, x, true), ReceiveOn(0, 1), ReceiveOn(0, 1)]
  }

  lemma ArrivalsLead<T>(x: Item<T>, calls: seq<Call<T>>, m: Layer<T>)
    requires Leads(Single(2, PortQueues([], [], [0, 1], [x, x], {}, true)), calls, m)
    ensures Leads(Taking(2, 2), [Segment(11, x, true)] + ([Segment(11, x, true)] + calls), m)
  {
    TwoArrive(x);
    AllTaken<T>(2);
    hide After, Leads;
    SingleLeads(2, PortQueues([1], [false], [0], [x], {}, true), Arrives(x, true), calls, m);
    SingleLeads(2, Buffers(2), Arrives(x, true), [Segment(11, x, true)] + calls, m);
  }

  lemma AcceptsLead<T>(x: Item<T>, calls: seq<Call<T>>, m: Layer<T>)
    requires Leads(Single(2, BothHeld()), calls, m)
    ensures Leads(Single(2, PortQueues([], [], [0, 1], [x, x], {}, true)),
                  [ReceiveOn(0, 1)] + ([ReceiveOn(0, 1)] + calls), m)
  {
    TwoAccepted(x);
    hide After, Leads;
    SingleLeads(2, PortQueues([0], [true], [1], [x], {}, true), Accepts, calls, m);
    SingleLeads(2, PortQueues([], [], [0, 1], [x, x], {}, true), Accepts, [ReceiveOn(0, 1)] + calls, m);
  }

  lemma AcceptingTwoLeads<T>(x: Item<T>, calls: seq<Call<T>>, m: Layer<T>)
    requires Leads(Single(2, BothHeld()), calls, m)
    ensures Leads(Initial(1, 2), AcceptingTwo(x) + calls, m)
  {
    hide Leads, Taking, Single;
    var seg, rec := Segment(11, x, true), ReceiveOn(0, 1);
    AcceptsLead(x, calls, m);
    ArrivalsLead(x, [rec] + ([rec] + calls), m);
    OpeningLeads(2, [seg] + ([seg] + ([rec] + ([rec] + calls))), m);
    assert AcceptingTwo(x) + calls == Opening(2) + ([seg] + ([seg] + ([rec] + ([rec] + calls))));
  }

  /** The second buffer is released before the first. */
  function SecondFree<T>(): PortQueues<T> {
    PortQueues([0, 1], [true, false], [], [], {}, true)
  }

  lemma SecondReleased<T>(x: Item<T>)
    ensures Findable(BothHeld<T>(), Releases(1)) && After(BothHeld<T>(), Releases(1)) == SecondFree()
    ensures After(SecondFree(), Arrives(x, true)) == PortQueues([0], [true], [1], [x], {}, false)
  {
    assert HeldAt([0, 1], [true, true], 1) == 1;
    assert [true, true][1 := false] == [true, false];
    assert FirstWith([true, false], false) == 1;
    assert Without([0, 1], 1) == [0] && Without([true, false], 1) == [true];
  }

  /** It is released first, a segment arrives, and the tail pointer names a buffer that has left the free
    * queue; the next accept would put its buffer behind it. */
  lemma OutOfOrderLosesTail<T>(x: Item<T>)
    ensures var p := PortQueues([0], [true], [1], [x], {}, false);
            && Leads(Initial(1, 2), AcceptingTwo(x) + [Release(0, 1, 1), Segment(11, x, true)], Single(2, p))
            && SocketRuns.Breaks(Single(2, p), ReceiveOn(0, 1))
  {
    var p := PortQueues([0], [true], [1], [x], {}, false);
    SecondReleased(x);
    SingleLeads(2, SecondFree(), Arrives(x, true), [], Single(2, p));
    SingleLeads(2, BothHeld(), Releases(1), [Segment(11, x, true)], Single(2, p));
    AcceptingTwoLeads(x, [Release(0, 1, 1)] + [Segment(11, x, true)], Single(2, p));
    assert [Release(0, 1, 1)] + [Segment(11, x, true)] == [Release(0, 1, 1), Segment(11, x, true)];
  }

  lemma BothReleased<T>(x: Item<T>)
    ensures Findable(SecondFree<T>(), Releases(0)) && After(SecondFree<T>(), Releases(0)) == Buffers(2)
  {
    assert [true, false][0 := false] == [false, false];
    assert Buffers<T>(2).fq == [0, 1] && Buffers<T>(2).held == [false, false];
  }

  lemma RepairLeads<T>(x: Item<T>)
    ensures Leads(Single(2, BothHeld()),
                  [Release(0, 1, 1)] + ([Release(0, 0, 1)] + ([Segment(11, x, true)] + [Segment(11, x, true)])),
                  Single(2, PortQueues([], [], [0, 1], [x, x], {}, true)))
  {
    var one, two := PortQueues([1], [false], [0], [x], {}, true), PortQueues([], [], [0, 1], [x, x], {}, true);
    var seg := Segment(11, x, true);
    TwoArrive(x);
    SecondReleased(x);
    BothReleased(x);
    Arrived(Single(2, two));
    assert [seg] + [] == [seg];
    hide After, Leads, Single;
    SingleLeads(2, one, Arrives(x, true), [], Single(2, two));
    SingleLeads(2, Buffers(2), Arrives(x, true), [seg], Single(2, two));
    SingleLeads(2, SecondFree(), Releases(0), [seg] + [seg], Single(2, two));
    SingleLeads(2, BothHeld(), Releases(1), [Release(0, 0, 1)] + ([seg] + [seg]), Single(2, two));
  }

  /** A release out of order does no harm if the older buffer is released as well before the next segments
    * arrive. */
  lemma RepairedInTime<T>(x: Item<T>)
    ensures var calls := [Release(0, 1, 1), Release(0, 0, 1), Segment(11, x, true), Segment(11, x, true)];
            var m := Single(2, PortQueues([], [], [0, 1], [x, x], {}, true));
            && Leads(Initial(1, 2), AcceptingTwo(x) + calls, m)
            && AllProper(Single(2, BothHeld()), calls)
            && !NeverRisks(Single(2, BothHeld()), calls) && SocketRuns.NeverLosesTail(Single(2, BothHeld()), calls)
  {
    var seg := Segment(11, x, true);
    var calls := [Release(0, 1, 1)] + ([Release(0, 0, 1)] + ([seg] + [seg]));
    hide After, Leads, Single, AllProper, NeverRisks, SocketRuns.NeverLosesTail;
    RepairSteps(x);
    RepairLeads(x);
    assert calls == [Release(0, 1, 1), Release(0, 0, 1), seg, seg];
    AcceptingTwoLeads(x, calls, Single(2, PortQueues([], [], [0, 1], [x, x], {}, true)));
  }

  lemma KeepsTailOn<T>(l: Layer<T>, c: Call<T>, calls: seq<Call<T>>)
    requires AllAligned(l) && Proper(l, c) && AllProper(Do(l, c).0, calls)
    ensures AllProper(l, [c] + calls)
    ensures SocketRuns.NeverLosesTail(l, [c] + calls) <==>
            !SocketRuns.LosesTail(l, c) && SocketRuns.NeverLosesTail(Do(l, c).0, calls)
    ensures Risks(l, c) ==> !NeverRisks(l, [c] + calls)
  {
    assert ([c] + calls)[1..] == calls;
  }

  lemma SegmentsKeepTail<T>(x: Item<T>)
    ensures var calls := [Segment(11, x, true)] + [Segment(11, x, true)];
            AllProper(Single(2, Buffers(2)), calls) && SocketRuns.NeverLosesTail(Single(2, Buffers(2)), calls)
  {
    var one := PortQueues([1], [false], [0], [x], {}, true);
    TwoArrive(x);
    SingleSteps(2, Buffers(2), Arrives(x, true));
    SingleSteps(2, one, Arrives(x, true));
    hide After, Do, SocketRuns.LosesTail, SocketRuns.NeverLosesTail, AllProper;
    SingleKeepsTail(one, x);
    KeepsTailOn(Single(2, Buffers(2)), Segment(11, x, true), [Segment(11, x, true)]);
  }

  lemma SingleKeepsTail<T>(p: PortQueues<T>, x: Item<T>)
    requires Aligned(p) && !ReceiveRuns.LosesTail(p, Arrives(x, true))
    ensures AllProper(Single(2, p), [Segment(11, x, true)])
    ensures SocketRuns.NeverLosesTail(Single(2, p), [Segment(11, x, true)])
  {
    SingleSteps(2, p, Arrives(x, true));
  }

  lemma RepairSteps<T>(x: Item<T>)
    ensures var calls := [Release(0, 1, 1)] + ([Release(0, 0, 1)] + ([Segment(11, x, true)] + [Segment(11, x, true)]));
            && AllProper(Single(2, BothHeld()), calls)
            && !NeverRisks(Single(2, BothHeld()), calls) && SocketRuns.NeverLosesTail(Single(2, BothHeld()), calls)
  {
    var segs := [Segment(11, x, true)] + [Segment(11, x, true)];
    SecondReleased(x);
    BothReleased(x);
    SingleSteps(2, BothHeld<T>(), Releases(1));
    SingleSteps(2, SecondFree<T>(), Releases(0));
    assert Risks(Single<T>(2, BothHeld()), Release(0, 1, 1));
    hide After, Do, Risks, SocketRuns.NeverLosesTail, AllProper;
    SegmentsKeepTail(x);
    KeepsTailOn(Single(2, SecondFree()), Release(0, 0, 1), segs);
    KeepsTailOn(Single(2, BothHeld()), Release(0, 1, 1), [Release(0, 0, 1)] + segs);
  }

  // ---------------------------------------------------------------- an eviction that loses the new segment

  lemma FirstArrives<T>(a: Item<T>)
    ensures Aligned(Buffers<T>(3))
    ensures After(Buffers(3), Arrives(a, true)) == PortQueues([1, 2], [false, false], [0], [a], {}, true)
  {
    assert Buffers<T>(3).fq == [0, 1, 2] && Buffers<T>(3).held == [false, false, false];
    ArrivesLast(Buffers(3), a);
  }

  lemma SecondArrives<T>(a: Item<T>, b: Item<T>)
    requires a.prio >= b.prio
    ensures After(PortQueues([1, 2], [false, false], [0], [a], {}, true), Arrives(b, true)) ==
            PortQueues([2], [false], [0, 1], [a, b], {}, true)
  {
    ArrivesLast(PortQueues([1, 2], [false, false], [0], [a], {}, true), b);
  }

  lemma ThirdArrives<T>(a: Item<T>, b: Item<T>, c: Item<T>)
    requires a.prio >= b.prio >= c.prio
    ensures After(PortQueues([2], [false], [0, 1], [a, b], {}, true), Arrives(c, true)) ==
            PortQueues([], [], [0, 1, 2], [a, b, c], {}, true)
  {
    assert [a, b][1..] == [b];
    ArrivesLast(PortQueues([2], [false], [0, 1], [a, b], {}, true), c);
  }

  lemma FourthEvicts()
    ensures var (a, b, c, d) := (Item(5, 'a'), Item(3, 'b'), Item(1, 'c'), Item(2, 'd'));
            var full := PortQueues([], [], [0, 1, 2], [a, b, c], {}, true);
            Aligned(full) && After(full, Arrives(d, true)) == PortQueues([], [], [0, 1], [a, b], {2}, true)
  {
    EvictionLosesASegment();
    var (a, b, c, d) := (Item(5, 'a'), Item(3, 'b'), Item(1, 'c'), Item(2, 'd'));
    assert Front([0, 1, 2]) == [0, 1] && Front([a, b, c]) == [a, b];
  }

  lemma ThreeLead<T>(a: Item<T>, b: Item<T>, c: Item<T>, calls: seq<Call<T>>, m: Layer<T>)
    requires a.prio >= b.prio >= c.prio
             && Leads(Single(3, PortQueues([], [], [0, 1, 2], [a, b, c], {}, true)), calls, m)
    ensures Leads(Taking(3, 3), [Segment(11, a, true)] + ([Segment(11, b, true)] + ([Segment(11, c, true)] + calls)), m)
  {
    FirstArrives(a);
    SecondArrives(a, b);
    ThirdArrives(a, b, c);
    AllTaken<T>(3);
    hide After, Leads;
    var sb, sc := Segment(11, b, true), Segment(11, c, true);
    SingleLeads(3, PortQueues([2], [false], [0, 1], [a, b], {}, true), Arrives(c, true), calls, m);
    SingleLeads(3, PortQueues([1, 2], [false, false], [0], [a], {}, true), Arrives(b, true), [sc] + calls, m);
    SingleLeads(3, Buffers(3), Arrives(a, true), [sb] + ([sc] + calls), m);
  }

  /** Segments of priorities 5, 3, 1 and 2 arrive at a port of three buffers: two remain queued, the last
    * one is lost with the one it evicts, and so is a buffer. */
  lemma EvictionLosesInRun()
    ensures var (a, b, c, d) := (Item(5, 'a'), Item(3, 'b'), Item(1, 'c'), Item(2, 'd'));
            Leads(Initial(1, 3),
                  Opening(3) + [Segment(11, a, true), Segment(11, b, true), Segment(11, c, true), Segment(11, d, true)],
                  Single(3, PortQueues([], [], [0, 1], [a, b], {2}, true)))
  {
    var (a, b, c, d) := (Item(5, 'a'), Item(3, 'b'), Item(1, 'c'), Item(2, 'd'));
    var three := PortQueues([], [], [0, 1, 2], [a, b, c], {}, true);
    var m := Single(3, PortQueues([], [], [0, 1], [a, b], {2}, true));
    var sa, sb, sc, sd := Segment(11, a, true), Segment(11, b, true), Segment(11, c, true), Segment(11, d, true);
    FourthEvicts();
    SingleLeads(3, three, Arrives(d, true), [], m);
    assert [sd] + [] == [sd];
    hide After, Leads, Single, Taking;
    ThreeLead(a, b, c, [sd], m);
    OpeningLeads(3, [sa] + ([sb] + ([sc] + [sd])), m);
    assert [sa] + ([sb] + ([sc] + [sd])) == [sa, sb, sc, sd];
  }
}
