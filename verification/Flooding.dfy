/** Runs of a network whose nodes may hold any routing tables at all: every packet dies out, and causes a
  * bounded number of transmissions, however it is flooded and whatever is lost.
  */
module Flooding {
  import opened RoutingTables
  import opened Forwarding
  import opened PriorityQueue
  import opened Sums

  /** A node that hears a transmission: its address, the table it has at that moment, and whether it has
    * a free transmit buffer. */
  datatype Hearer = Hearer(me: nat, rt: seq<Entry>, room: bool)

  /** Transmit: the flight at place i modulo the number of flights is heard by the given nodes, which
    * leaves out those that miss it. */
  datatype Op = Originate(f: Flight) | Transmit(i: nat, hearers: seq<Hearer>)

  /** sent counts transmissions. */
  datatype State = State(queue: seq<Flight>, sent: nat)

  function RelayBy(h: Hearer, pkt: Packet): seq<Flight> {
    var r := React(h.me, h.rt, pkt);
    if r.Relay? && h.room then [Flight(h.me, r.pkt)] else []
  }

  function Relays(hearers: seq<Hearer>, pkt: Packet): seq<Flight> {
    if hearers == [] then [] else RelayBy(hearers[0], pkt) + Relays(hearers[1..], pkt)
  }

  function Step(st: State, op: Op): State {
    match op
    case Originate(f) => st.(queue := st.queue + [f])
    case Transmit(i, hearers) =>
      if st.queue == [] then st
      else
        var k := i % |st.queue|;
        State(Without(st.queue, k) + Relays(hearers, st.queue[k].pkt), st.sent + 1)
  }

  function Run(st: State, ops: seq<Op>): State
    decreases |ops|
  {
    if ops == [] then st else Run(Step(st, ops[0]), ops[1..])
  }

  /** At most degree nodes hear any transmission, and originated packets have a positive signed 8-bit
    * time to live. */
  ghost predicate Legal(degree: nat, op: Op) {
    match op
    case Originate(f) => Lives(f)
    case Transmit(_, hearers) => |hearers| <= degree
  }

  ghost predicate AllLegal(degree: nat, ops: seq<Op>) {
    forall i :: 0 <= i < |ops| ==> Legal(degree, ops[i])
  }

  predicate Lives(f: Flight) {
    1 <= f.pkt.ttl <= MAX_TTL
  }

  ghost function Living(): Flight -> bool {
    f => Lives(f)
  }

  // ---------------------------------------------------------------- what one packet can cause

  /** 1 + degree + degree^2 + ... with ttl terms: the transmissions of a full flood. */
  function Load(degree: nat, ttl: nat): nat {
    if ttl == 0 then 0 else 1 + degree * Load(degree, ttl - 1)
  }

  ghost function FlightLoad(degree: nat, f: Flight): nat {
    if f.pkt.ttl < 0 then 0 else Load(degree, f.pkt.ttl)
  }

  ghost function LoadOf(degree: nat): Flight -> nat {
    f => FlightLoad(degree, f)
  }

  ghost function TotalLoad(degree: nat, q: seq<Flight>): nat {
    Sum(q, LoadOf(degree))
  }

  /** Every relay strictly lowers the time to live, and none is made at zero. */
  lemma RelayLowersTtl(h: Hearer, pkt: Packet)
    requires 1 <= pkt.ttl <= MAX_TTL && RelayBy(h, pkt) != []
    ensures |RelayBy(h, pkt)| == 1 && RelayBy(h, pkt)[0].at == h.me
    ensures 1 <= RelayBy(h, pkt)[0].pkt.ttl == pkt.ttl - 1
  {
  }

  lemma RelayLoad(degree: nat, h: Hearer, pkt: Packet)
    requires 1 <= pkt.ttl <= MAX_TTL
    ensures All(RelayBy(h, pkt), Living())
    ensures TotalLoad(degree, RelayBy(h, pkt)) <= Load(degree, pkt.ttl - 1)
  {
    var one := RelayBy(h, pkt);
    if one != [] {
      RelayLowersTtl(h, pkt);
      assert one == [one[0]];
      AllOne(one[0], Living());
      SumOne(one[0], LoadOf(degree));
    }
  }

  /** Together the relays of one transmission can cause less than the transmission itself could. */
  lemma {:induction false} RelaysLoad(degree: nat, hearers: seq<Hearer>, pkt: Packet)
    requires 1 <= pkt.ttl <= MAX_TTL
    ensures All(Relays(hearers, pkt), Living())
    ensures TotalLoad(degree, Relays(hearers, pkt)) <= |hearers| * Load(degree, pkt.ttl - 1)
  {
    if hearers != [] {
      var one, rest := RelayBy(hearers[0], pkt), Relays(hearers[1..], pkt);
      RelaysLoad(degree, hearers[1..], pkt);
      RelayLoad(degree, hearers[0], pkt);
      AllConcat(one, rest, Living());
      SumConcat(one, rest, LoadOf(degree));
      OneMore(|hearers[1..]|, Load(degree, pkt.ttl - 1));
    }
  }

  lemma OneMore(k: nat, x: nat)
    ensures (k + 1) * x == k * x + x
  {
  }

  lemma Monotone(a: nat, b: nat, x: nat)
    requires a <= b
    ensures a * x <= b * x
  {
  }

  // ---------------------------------------------------------------- every step, every run

  ghost predicate Sound(st: State) {
    All(st.queue, Living())
  }

  function Budget(degree: nat, op: Op): nat {
    match op
    case Originate(f) => if f.pkt.ttl < 0 then 0 else Load(degree, f.pkt.ttl)
    case Transmit(_, _) => 0
  }

  /** Transmissions made and transmissions still possible never exceed what has been originated. */
  lemma StepKeepsBudget(degree: nat, st: State, op: Op)
    requires Sound(st) && Legal(degree, op)
    ensures Sound(Step(st, op))
    ensures Step(st, op).sent + TotalLoad(degree, Step(st, op).queue) <=
            st.sent + TotalLoad(degree, st.queue) + Budget(degree, op)
    ensures op.Transmit? && st.queue != [] ==> TotalLoad(degree, Step(st, op).queue) < TotalLoad(degree, st.queue)
  {
    match op
    case Originate(f) =>
      AllConcat(st.queue, [f], Living());
      AllOne(f, Living());
      SumConcat(st.queue, [f], LoadOf(degree));
      SumOne(f, LoadOf(degree));
    case Transmit(i, hearers) =>
      if st.queue != [] {
        var k := i % |st.queue|;
        var pkt := st.queue[k].pkt;
        AllTakeOut(st.queue, k, Living());
        SumTakeOut(st.queue, k, LoadOf(degree));
        RelaysLoad(degree, hearers, pkt);
        AllConcat(Without(st.queue, k), Relays(hearers, pkt), Living());
        SumConcat(Without(st.queue, k), Relays(hearers, pkt), LoadOf(degree));
        Monotone(|hearers|, degree, Load(degree, pkt.ttl - 1));
      }
  }

  function TotalBudget(degree: nat, ops: seq<Op>): nat {
    if ops == [] then 0 else Budget(degree, ops[0]) + TotalBudget(degree, ops[1..])
  }

  lemma {:induction false} RunsKeepBudget(degree: nat, st: State, ops: seq<Op>)
    requires Sound(st) && AllLegal(degree, ops)
    ensures Sound(Run(st, ops))
    ensures Run(st, ops).sent + TotalLoad(degree, Run(st, ops).queue) <=
            st.sent + TotalLoad(degree, st.queue) + TotalBudget(degree, ops)
    decreases |ops|
  {
    if ops != [] {
      assert Legal(degree, ops[0]);
      StepKeepsBudget(degree, st, ops[0]);
      RunsKeepBudget(degree, Step(st, ops[0]), ops[1..]);
    }
  }

  /** From silence, a run makes at most the originated packets' full floods of transmissions, whatever
    * the tables and the losses; and every packet still in flight has time left to live. */
  lemma FloodsAreBounded(degree: nat, ops: seq<Op>)
    requires AllLegal(degree, ops)
    ensures Run(State([], 0), ops).sent <= TotalBudget(degree, ops)
    ensures All(Run(State([], 0), ops).queue, Living())
  {
    RunsKeepBudget(degree, State([], 0), ops);
  }

  ghost predicate OnlyTransmits(ops: seq<Op>) {
    forall i :: 0 <= i < |ops| ==> ops[i].Transmit?
  }

  /** Once nothing new is originated, the network is silent after at most its load of transmissions. */
  lemma {:induction false} FloodsDieOut(degree: nat, st: State, ops: seq<Op>)
    requires Sound(st) && AllLegal(degree, ops) && OnlyTransmits(ops)
    requires |ops| >= TotalLoad(degree, st.queue)
    ensures Run(st, ops).queue == []
    decreases |ops|
  {
    if st.queue != [] {
      assert Legal(degree, ops[0]) && ops[0].Transmit?;
      StepKeepsBudget(degree, st, ops[0]);
      FloodsDieOut(degree, Step(st, ops[0]), ops[1..]);
    } else if ops != [] {
      assert Legal(degree, ops[0]) && ops[0].Transmit?;
      FloodsDieOut(degree, st, ops[1..]);
    }
  }

  // ---------------------------------------------------------------- the bound is met

  /** degree nodes without a table and with room. */
  function Neighbours(degree: nat): (h: seq<Hearer>)
    ensures |h| == degree
    ensures forall i :: 0 <= i < degree ==> h[i] == Hearer(i + 1, [], true)
  {
    seq(degree, i requires 0 <= i < degree => Hearer(i + 1, [], true))
  }

  /** An application packet to an address no node has, so that every node floods it. */
  predicate Floods(pkt: Packet) {
    pkt.payload.App? && pkt.dest == INVALID_ADDRESS && pkt.nextHop == BCAST_ADDR
  }

  ghost predicate AllFlood(q: seq<Flight>) {
    forall i :: 0 <= i < |q| ==> Lives(q[i]) && Floods(q[i].pkt)
  }

  /** One neighbour's relay floods on, unless the time to live has run out. */
  lemma NeighbourRelays(h: Hearer, pkt: Packet)
    requires Floods(pkt) && 1 <= pkt.ttl <= MAX_TTL && h.me != INVALID_ADDRESS && h.me != BCAST_ADDR
             && h.rt == [] && h.room
    ensures var relay := pkt.(ttl := pkt.ttl - 1, prevHop := h.me, nextHop := BCAST_ADDR);
            RelayBy(h, pkt) == if pkt.ttl == 1 then [] else [Flight(h.me, relay)]
  {
  }

  /** The relays of one transmission carry exactly the rest of its load. */
  lemma {:induction false} AllRelay(degree: nat, hearers: seq<Hearer>, pkt: Packet)
    requires Floods(pkt) && 1 <= pkt.ttl <= MAX_TTL
    requires forall i :: 0 <= i < |hearers| ==>
               hearers[i].me != INVALID_ADDRESS && hearers[i].me != BCAST_ADDR && hearers[i].rt == [] && hearers[i].room
    ensures AllFlood(Relays(hearers, pkt))
    ensures TotalLoad(degree, Relays(hearers, pkt)) == |hearers| * Load(degree, pkt.ttl - 1)
  {
    if hearers != [] {
      var one, rest := RelayBy(hearers[0], pkt), Relays(hearers[1..], pkt);
      AllRelay(degree, hearers[1..], pkt);
      NeighbourRelays(hearers[0], pkt);
      SumConcat(one, rest, LoadOf(degree));
      if one != [] {
        SumOne(one[0], LoadOf(degree));
      }
      OneMore(|hearers[1..]|, Load(degree, pkt.ttl - 1));
    }
  }

  lemma WithoutFloods(q: seq<Flight>, k: nat, relays: seq<Flight>)
    requires AllFlood(q) && AllFlood(relays) && k < |q|
    ensures AllFlood(Without(q, k) + relays)
  {
  }

  /** A transmission heard by all neighbours lowers the load by exactly itself. */
  lemma FloodStep(degree: nat, st: State)
    requires AllFlood(st.queue) && st.queue != [] && degree < BCAST_ADDR
    ensures var after := Step(st, Transmit(0, Neighbours(degree)));
            && AllFlood(after.queue) && after.sent == st.sent + 1
            && TotalLoad(degree, after.queue) + 1 == TotalLoad(degree, st.queue)
  {
    var pkt := st.queue[0].pkt;
    var relays := Relays(Neighbours(degree), pkt);
    AllRelay(degree, Neighbours(degree), pkt);
    WithoutFloods(st.queue, 0, relays);
    SumTakeOut(st.queue, 0, LoadOf(degree));
    SumConcat(Without(st.queue, 0), relays, LoadOf(degree));
  }

  /** n transmissions, each heard by all neighbours. */
  function FullFlood(degree: nat, n: nat): (ops: seq<Op>)
    ensures |ops| == n && forall i :: 0 <= i < n ==> ops[i] == Transmit(0, Neighbours(degree))
  {
    seq(n, i => Transmit(0, Neighbours(degree)))
  }

  lemma {:induction false} FloodRuns(degree: nat, st: State, n: nat)
    requires AllFlood(st.queue) && degree < BCAST_ADDR && n == TotalLoad(degree, st.queue)
    ensures Run(st, FullFlood(degree, n)) == State([], st.sent + n)
    decreases n
  {
    if n == 0 {
      if st.queue != [] {
        FloodStep(degree, st);
      }
    } else {
      FloodStep(degree, st);
      var ops := FullFlood(degree, n);
      assert ops[1..] == FullFlood(degree, n - 1);
      FloodRuns(degree, Step(st, ops[0]), n - 1);
    }
  }

  /** The bound is met: one packet, flooded by degree neighbours each time until its time to live runs
    * out, causes exactly the transmissions it can at most cause. */
  lemma FullFloodMeetsBound(degree: nat, f: Flight)
    requires Lives(f) && Floods(f.pkt) && degree < BCAST_ADDR
    ensures var ops := [Originate(f)] + FullFlood(degree, Load(degree, f.pkt.ttl));
            && AllLegal(degree, ops) && TotalBudget(degree, ops) == Load(degree, f.pkt.ttl)
            && Run(State([], 0), ops) == State([], Load(degree, f.pkt.ttl))
  {
    var flood := FullFlood(degree, Load(degree, f.pkt.ttl));
    var ops := [Originate(f)] + flood;
    assert ops[1..] == flood;
    NoBudget(degree, flood);
    assert [] + [f] == [f];
    SumOne(f, LoadOf(degree));
    FloodRuns(degree, State([f], 0), Load(degree, f.pkt.ttl));
  }

  lemma {:induction false} NoBudget(degree: nat, ops: seq<Op>)
    requires OnlyTransmits(ops)
    ensures TotalBudget(degree, ops) == 0
  {
    if ops != [] {
      NoBudget(degree, ops[1..]);
    }
  }
}
