/** Runs of a whole network whose nodes use the tables the gateway built for them, and may hear more nodes
  * than it has them hear: which packets are delivered, and how often.
  */
module Delivery {
  import opened FloydWarshall
  import opened ShortestPaths
  import opened RoutingTables
  import opened Forwarding
  import opened PriorityQueue
  import opened Sums

  /** What identifies a message wherever it is: the node it is for, and its source, destination and id. */
  datatype Message = Message(node: nat, src: nat, dest: nat, id: nat)

  /** What a transmission brings about among the nodes that hear it. */
  datatype Effect = Effect(relays: seq<Flight>, delivered: multiset<Message>, corrupted: bool)

  datatype State = State(queue: seq<Flight>, delivered: multiset<Message>, corrupted: bool)

  // ---------------------------------------------------------------- the network's steps

  ghost function MessageAt(v: nat, pkt: Packet): Message
    requires pkt.payload.App?
  {
    Message(v, pkt.src, pkt.dest, pkt.payload.id)
  }

  /** What node v does when it hears the packet. */
  ghost function EffectAt(net: Network, v: nat, pkt: Packet): Effect
    requires ValidNetwork(net) && IsNode(net, v)
  {
    if !pkt.payload.App? then Nothing()
    else match React(net.ids[v], TableOf(net, v), pkt)
    case Relay(p) => Effect([Flight(v, p)], multiset{}, false)
    case Deliver => Effect([], multiset{MessageAt(v, pkt)}, false)
    case Corrupted => Effect([], multiset{}, true)
    case _ => Effect([], multiset{}, false)
  }

  ghost function Join(a: Effect, b: Effect): Effect {
    Effect(a.relays + b.relays, a.delivered + b.delivered, a.corrupted || b.corrupted)
  }

  ghost function Nothing(): Effect {
    Effect([], multiset{}, false)
  }

  /** What node v does when node u transmits. */
  ghost function HeardAt(net: Network, u: nat, pkt: Packet, v: nat): Effect
    requires ValidNetwork(net) && IsNode(net, v)
  {
    if (u, v) in net.reach then EffectAt(net, v, pkt) else Nothing()
  }

  /** All nodes from v on that hear node u react in turn. */
  ghost function HeardFrom(net: Network, u: nat, pkt: Packet, v: nat): Effect
    requires ValidNetwork(net) && 1 <= v <= net.n + 1
    decreases net.n + 1 - v
  {
    if v > net.n then Nothing()
    else Join(HeardAt(net, u, pkt, v), HeardFrom(net, u, pkt, v + 1))
  }

  ghost function Sent(net: Network, s: nat, d: nat, ttl: int, prio: int, id: nat): Flight
    requires ValidNetwork(net) && IsNode(net, s) && IsNode(net, d)
  {
    Flight(s, Fresh(net.ids[s], TableOf(net, s), net.ids[d], ttl, prio, id))
  }

  /** Transmit: the flight at place i modulo the number of flights goes on the air, and all in reach hear it.
    * Miss: its destination does not.  Lose: its next hop does not, or its node has no free transmit buffer
    * for it; overheard says whether its destination, if in reach, hears it all the same. */
  datatype Op = Transmit(i: nat) | Miss(i: nat) | Lose(i: nat, overheard: bool)
              | Send(s: nat, d: nat, ttl: int, prio: int, id: nat)

  ghost predicate Legal(net: Network, op: Op) {
    op.Send? ==> IsNode(net, op.s) && IsNode(net, op.d) && 1 <= op.ttl <= MAX_TTL
  }

  /** node_to_graph() on a network's addresses. */
  ghost function NodeOf(ids: seq<nat>, addr: nat): nat {
    if i :| 1 <= i < |ids| && ids[i] == addr then i else 0
  }

  /** n copies of one message. */
  ghost function Times(m: Message, n: nat): (t: multiset<Message>)
    ensures t[m] == n && forall k :: k != m ==> t[k] == 0
  {
    multiset{}[m := n]
  }

  /** What the destination of a flight receives if it hears it directly. */
  ghost function Overhears(net: Network, f: Flight, overheard: bool): multiset<Message> {
    var d := NodeOf(net.ids, f.pkt.dest);
    if f.pkt.payload.App? && overheard && (f.at, d) in net.reach then Times(MessageAt(d, f.pkt), 1) else multiset{}
  }

  ghost function Step(net: Network, st: State, op: Op): State
    requires ValidNetwork(net) && Legal(net, op)
    decreases op.Miss?
  {
    match op
    case Send(s, d, ttl, prio, id) => st.(queue := st.queue + [Sent(net, s, d, ttl, prio, id)])
    case Transmit(i) =>
      if st.queue == [] then st
      else
        var k := i % |st.queue|;
        var e := HeardFrom(net, st.queue[k].at, st.queue[k].pkt, 1);
        State(Without(st.queue, k) + e.relays, st.delivered + e.delivered, st.corrupted || e.corrupted)
    case Miss(i) => Step(net, st, Transmit(i)).(delivered := st.delivered)
    case Lose(i, overheard) =>
      if st.queue == [] then st
      else
        var f := st.queue[i % |st.queue|];
        State(Without(st.queue, i % |st.queue|), st.delivered + Overhears(net, f, overheard), st.corrupted)
  }

  // ---------------------------------------------------------------- packets in transit

  /** An application packet on its way from s to d, at some other node than d. */
  ghost predicate OnTheWay(net: Network, f: Flight, s: nat, d: nat)
    requires ValidNetwork(net)
  {
    && IsNode(net, s) && IsNode(net, d) && IsNode(net, f.at) && s != d && f.at != d
    && f.pkt.payload.App? && f.pkt.src == net.ids[s] && f.pkt.dest == net.ids[d]
    && 1 <= f.pkt.ttl <= MAX_TTL
    && f.pkt.nextHop == Lookup(TableOf(net, f.at), net.ids[d])
    && (f.at == s || Cost(net, f.at, d) < Cost(net, s, d))
  }

  /** An application packet node s has addressed to itself; it names itself as the next hop. */
  ghost predicate ToSelf(net: Network, f: Flight, s: nat)
    requires ValidNetwork(net)
  {
    && IsNode(net, s) && f.at == s && f.pkt.payload.App? && 1 <= f.pkt.ttl <= MAX_TTL
    && f.pkt.src == f.pkt.dest == f.pkt.nextHop == net.ids[s]
  }

  ghost predicate InTransit(net: Network, f: Flight) {
    var s, d := NodeOf(net.ids, f.pkt.src), NodeOf(net.ids, f.pkt.dest);
    ValidNetwork(net) && (OnTheWay(net, f, s, d) || (s == d && ToSelf(net, f, s)))
  }

  ghost function Travels(net: Network): Flight -> bool {
    f => InTransit(net, f)
  }

  ghost predicate AllInTransit(net: Network, q: seq<Flight>) {
    All(q, Travels(net))
  }

  // ---------------------------------------------------------------- one transmission

  /** The flight after its next hop has relayed it. */
  ghost function Relayed(net: Network, f: Flight, d: nat): Flight
    requires ValidNetwork(net) && IsNode(net, f.at) && IsNode(net, d)
  {
    var h := HopTo(net, f.at, d);
    Flight(h, f.pkt.(ttl := f.pkt.ttl - 1, prevHop := net.ids[h], nextHop := Lookup(TableOf(net, h), net.ids[d])))
  }

  /** The next hop, which is not the destination, relays the flight. */
  ghost predicate GoesOn(net: Network, u: nat, d: nat, ttl: int)
    requires IsNode(net, u) && IsNode(net, d)
  {
    u != d && Cost(net, u, d) < INFINITY && HopTo(net, u, d) != d && ttl > 1
  }

  /** What a transmission is meant to bring about: delivery, if the destination hears it, and a relay by the
    * first hop, if that is another node and there is time left to live. */
  ghost function Meant(net: Network, f: Flight, d: nat): Effect
    requires ValidNetwork(net) && IsNode(net, f.at) && IsNode(net, d) && f.pkt.payload.App?
  {
    Effect(if GoesOn(net, f.at, d, f.pkt.ttl) then [Relayed(net, f, d)] else [],
           if (f.at, d) in net.reach then multiset{MessageAt(d, f.pkt)} else multiset{}, false)
  }

  lemma CostInRange(net: Network, u: nat, d: nat)
    requires IsNode(net, u) && IsNode(net, d) && u != d
    ensures 1 <= Cost(net, u, d) <= INFINITY
    ensures (u, d) in net.links ==> Cost(net, u, d) == 1
  {
    RoundsKeepInvariant(net.n, net.links, net.n);
  }

  lemma LastHop(net: Network, u: nat, d: nat)
    requires IsNode(net, u) && IsNode(net, d) && u != d && Cost(net, u, d) == 1
    ensures HopTo(net, u, d) == d
  {
    if HopTo(net, u, d) != d {
      CostInRange(net, HopTo(net, u, d), d);
    }
  }

  lemma IdsDiffer(net: Network, u: nat, v: nat)
    requires ValidNetwork(net) && IsNode(net, u) && IsNode(net, v) && u != v
    ensures net.ids[u] != net.ids[v]
  {
  }

  lemma NotForMe(net: Network, f: Flight, s: nat, d: nat, v: nat)
    requires ValidNetwork(net) && OnTheWay(net, f, s, d) && IsNode(net, v) && v != d
    requires Cost(net, f.at, d) < INFINITY ==> v != HopTo(net, f.at, d)
    ensures f.pkt.dest != net.ids[v] && f.pkt.dest != BCAST_ADDR
    ensures f.pkt.nextHop != net.ids[v] && f.pkt.nextHop != BCAST_ADDR
  {
    LookupIsFirstHop(net, f.at, d);
    CostInRange(net, f.at, d);
    IdsDiffer(net, v, d);
    if Cost(net, f.at, d) < INFINITY {
      IdsDiffer(net, v, HopTo(net, f.at, d));
    }
  }

  /** A node that hears the transmission does nothing, unless it is the first hop or the destination. */
  lemma OthersDrop(net: Network, f: Flight, s: nat, d: nat, v: nat)
    requires ValidNetwork(net) && OnTheWay(net, f, s, d) && IsNode(net, v) && v != d
    requires Cost(net, f.at, d) < INFINITY ==> v != HopTo(net, f.at, d)
    ensures EffectAt(net, v, f.pkt) == Nothing()
  {
    NotForMe(net, f, s, d, v);
  }

  /** A relay leaves the packet on its way, nearer than before. */
  lemma RelayedOnTheWay(net: Network, f: Flight, s: nat, d: nat)
    requires ValidNetwork(net) && OnTheWay(net, f, s, d) && Cost(net, f.at, d) < INFINITY
    requires HopTo(net, f.at, d) != d && f.pkt.ttl > 1
    ensures OnTheWay(net, Relayed(net, f, d), s, d)
  {
  }

  lemma FirstHopNamed(net: Network, f: Flight, s: nat, d: nat)
    requires ValidNetwork(net) && OnTheWay(net, f, s, d) && Cost(net, f.at, d) < INFINITY
    ensures var h := HopTo(net, f.at, d);
            && (f.at, h) in net.links && f.pkt.nextHop == net.ids[h]
            && (h != d ==> f.pkt.src != net.ids[h] && f.pkt.dest != net.ids[h] && f.pkt.dest != BCAST_ADDR)
  {
    LookupIsFirstHop(net, f.at, d);
    var h := HopTo(net, f.at, d);
    if h != d {
      IdsDiffer(net, h, s);
      IdsDiffer(net, h, d);
    }
  }

  /** A first hop other than the destination relays, if there is time left, and never finds its own packet
    * come back. */
  lemma FirstHopActs(net: Network, f: Flight, s: nat, d: nat)
    requires ValidNetwork(net) && OnTheWay(net, f, s, d) && Cost(net, f.at, d) < INFINITY && HopTo(net, f.at, d) != d
    ensures EffectAt(net, HopTo(net, f.at, d), f.pkt) ==
            Effect(if f.pkt.ttl > 1 then [Relayed(net, f, d)] else [], multiset{}, false)
  {
    FirstHopNamed(net, f, s, d);
    var h := HopTo(net, f.at, d);
    assert React(net.ids[h], TableOf(net, h), f.pkt) == Routed(net.ids[h], TableOf(net, h), f.pkt);
    assert Int8(f.pkt.ttl - 1) == f.pkt.ttl - 1;
  }

  lemma DestinationDelivers(net: Network, f: Flight, d: nat)
    requires ValidNetwork(net) && IsNode(net, d) && f.pkt.payload.App? && f.pkt.dest == net.ids[d]
    ensures EffectAt(net, d, f.pkt) == Effect([], multiset{MessageAt(d, f.pkt)}, false)
  {
  }

  /** Node h relays and node d delivers; the two may be the same node, or node h none at all. */
  ghost function Part(relays: seq<Flight>, delivered: multiset<Message>, h: nat, d: nat, w: nat): Effect {
    Effect(if w == h then relays else [], if w == d then delivered else multiset{}, false)
  }

  /** What the nodes from v on do together, when no node but h relays and no node but d delivers. */
  lemma {:induction false} HeardParts(net: Network, u: nat, pkt: Packet, h: nat, d: nat, relays: seq<Flight>,
                                      delivered: multiset<Message>, v: nat)
    requires ValidNetwork(net) && 1 <= v <= net.n + 1
    requires forall w :: v <= w <= net.n ==> HeardAt(net, u, pkt, w) == Part(relays, delivered, h, d, w)
    ensures HeardFrom(net, u, pkt, v) ==
            Effect(if v <= h <= net.n then relays else [], if v <= d <= net.n then delivered else multiset{}, false)
    decreases net.n + 1 - v
  {
    hide HeardAt;
    if v <= net.n {
      HeardParts(net, u, pkt, h, d, relays, delivered, v + 1);
    }
  }

  /** The nodes hear at least what the gateway has them hear. */
  ghost predicate Covered(net: Network) {
    ValidNetwork(net) && net.links <= net.reach
  }

  /** Each single node does what it is meant to. */
  lemma NodeDoes(net: Network, f: Flight, s: nat, d: nat, w: nat)
    requires Covered(net) && OnTheWay(net, f, s, d) && IsNode(net, w)
    ensures HeardAt(net, f.at, f.pkt, w) ==
            Part(Meant(net, f, d).relays, Meant(net, f, d).delivered, HopTo(net, f.at, d), d, w)
  {
    if w == d {
      DestinationDelivers(net, f, d);
    } else if Cost(net, f.at, d) < INFINITY && w == HopTo(net, f.at, d) {
      FirstHopNamed(net, f, s, d);
      FirstHopActs(net, f, s, d);
    } else {
      OthersDrop(net, f, s, d, w);
    }
  }

  /** However many nodes hear a transmission, it does exactly what it is meant to. */
  lemma TransmissionDoes(net: Network, f: Flight, s: nat, d: nat)
    requires Covered(net) && OnTheWay(net, f, s, d)
    ensures HeardFrom(net, f.at, f.pkt, 1) == Meant(net, f, d)
  {
    var meant := Meant(net, f, d);
    var h := HopTo(net, f.at, d);
    forall w | 1 <= w <= net.n
      ensures HeardAt(net, f.at, f.pkt, w) == Part(meant.relays, meant.delivered, h, d, w)
    {
      NodeDoes(net, f, s, d, w);
    }
    HeardParts(net, f.at, f.pkt, h, d, meant.relays, meant.delivered, 1);
    if GoesOn(net, f.at, d, f.pkt.ttl) {
      FirstHopNamed(net, f, s, d);
    }
  }

  /** Only its sender does anything with a packet addressed to itself. */
  lemma NodeDoesSelf(net: Network, f: Flight, s: nat, w: nat)
    requires ValidNetwork(net) && ToSelf(net, f, s) && IsNode(net, w)
    ensures HeardAt(net, s, f.pkt, w) == Part([], Meant(net, f, s).delivered, s, s, w)
  {
    if w == s {
      DestinationDelivers(net, f, s);
    } else {
      IdsDiffer(net, w, s);
    }
  }

  lemma SelfTransmissionDoes(net: Network, f: Flight, s: nat)
    requires ValidNetwork(net) && ToSelf(net, f, s)
    ensures HeardFrom(net, s, f.pkt, 1) == Meant(net, f, s)
  {
    forall w | 1 <= w <= net.n
      ensures HeardAt(net, s, f.pkt, w) == Part([], Meant(net, f, s).delivered, s, s, w)
    {
      NodeDoesSelf(net, f, s, w);
    }
    HeardParts(net, s, f.pkt, s, s, [], Meant(net, f, s).delivered, 1);
  }

  /** A packet a node sends to itself names the node as its next hop. */
  lemma SelfLookup(net: Network, s: nat)
    requires ValidNetwork(net) && IsNode(net, s)
    ensures Lookup(TableOf(net, s), net.ids[s]) == net.ids[s]
  {
    RoundsKeepInvariant(net.n, net.links, net.n);
    LookupIsFirstHop(net, s, s);
  }

  // ---------------------------------------------------------------- what becomes of a flight

  /** How many copies the destination will hear: one from each node on the route, as far as the time to live
    * carries, that it hears. */
  ghost function Copies(net: Network, u: nat, d: nat, ttl: int): nat
    requires IsNode(net, u) && IsNode(net, d)
    decreases ttl
  {
    (if (u, d) in net.reach then 1 else 0) +
    if GoesOn(net, u, d, ttl) then Copies(net, HopTo(net, u, d), d, ttl - 1) else 0
  }

  ghost predicate Placed(net: Network, f: Flight) {
    IsNode(net, f.at) && IsNode(net, NodeOf(net.ids, f.pkt.dest)) && f.pkt.payload.App? && f.pkt.ttl >= 0
  }

  /** What will be delivered on account of one flight. */
  ghost function Fate(net: Network, f: Flight): multiset<Message> {
    var d := NodeOf(net.ids, f.pkt.dest);
    if Placed(net, f) then Times(MessageAt(d, f.pkt), Copies(net, f.at, d, f.pkt.ttl)) else multiset{}
  }

  /** How many transmissions one flight still causes, itself included. */
  ghost function Work(net: Network, f: Flight): nat {
    if !Placed(net, f) then 0
    else
      var c := Cost(net, f.at, NodeOf(net.ids, f.pkt.dest));
      if f.at == NodeOf(net.ids, f.pkt.dest) || c == INFINITY then 1 else if c <= f.pkt.ttl then c else f.pkt.ttl
  }

  ghost function FateOf(net: Network): Flight -> multiset<Message> {
    f => Fate(net, f)
  }

  ghost function WorkOf(net: Network): Flight -> nat {
    f => Work(net, f)
  }

  ghost function Fates(net: Network, q: seq<Flight>): multiset<Message> {
    Union(q, FateOf(net))
  }

  ghost function TotalWork(net: Network, q: seq<Flight>): nat {
    Sum(q, WorkOf(net))
  }

  lemma TimesAdd(m: Message, a: nat, b: nat)
    ensures Times(m, a) + Times(m, b) == Times(m, a + b)
    ensures Times(m, 1) == multiset{m} && Times(m, 0) == multiset{}
  {
  }

  lemma SelfKeepsFate(net: Network, f: Flight, s: nat)
    requires ValidNetwork(net) && ToSelf(net, f, s) && s == NodeOf(net.ids, f.pkt.dest)
    ensures var e := HeardFrom(net, f.at, f.pkt, 1);
            e.relays == [] && !e.corrupted && e.delivered == Fate(net, f) && Work(net, f) == 1
  {
    SelfTransmissionDoes(net, f, s);
    TimesAdd(MessageAt(s, f.pkt), 0, 0);
  }

  /** A transmission turns a flight into what it was fated to become, one step of its work done. */
  lemma TransmissionKeepsFate(net: Network, f: Flight)
    requires Covered(net) && InTransit(net, f)
    ensures var e := HeardFrom(net, f.at, f.pkt, 1);
            && !e.corrupted && AllInTransit(net, e.relays)
            && e.delivered + Fates(net, e.relays) == Fate(net, f)
            && 1 + TotalWork(net, e.relays) == Work(net, f)
  {
    var s, d := NodeOf(net.ids, f.pkt.src), NodeOf(net.ids, f.pkt.dest);
    hide HeardFrom;
    if f.at == d {
      SelfKeepsFate(net, f, d);
      return;
    }
    TransmissionDoes(net, f, s, d);
    CostInRange(net, f.at, d);
    TimesAdd(MessageAt(d, f.pkt), 0, 0);
    if Cost(net, f.at, d) < INFINITY && HopTo(net, f.at, d) != d {
      CostInRange(net, HopTo(net, f.at, d), d);
    }
    if GoesOn(net, f.at, d, f.pkt.ttl) {
      OneRelay(net, f, s, d);
    }
  }

  /** What the destination hears of a transmission is one of the flight's copies; the relay carries the rest. */
  lemma RelayedFate(net: Network, f: Flight, d: nat)
    requires ValidNetwork(net) && Placed(net, f) && d == NodeOf(net.ids, f.pkt.dest)
    requires GoesOn(net, f.at, d, f.pkt.ttl)
    ensures Fate(net, f) == Times(MessageAt(d, f.pkt), if (f.at, d) in net.reach then 1 else 0) +
                            Fate(net, Relayed(net, f, d))
  {
    hide Lookup;
    var c := if (f.at, d) in net.reach then 1 else 0;
    TimesAdd(MessageAt(d, f.pkt), c, Copies(net, HopTo(net, f.at, d), d, f.pkt.ttl - 1));
  }

  lemma RelayedWork(net: Network, f: Flight, d: nat)
    requires ValidNetwork(net) && Placed(net, f) && d == NodeOf(net.ids, f.pkt.dest)
    requires GoesOn(net, f.at, d, f.pkt.ttl)
    ensures Work(net, f) == Work(net, Relayed(net, f, d)) + 1
  {
    hide Lookup;
    CostInRange(net, HopTo(net, f.at, d), d);
  }

  lemma OneRelay(net: Network, f: Flight, s: nat, d: nat)
    requires ValidNetwork(net) && InTransit(net, f)
    requires s == NodeOf(net.ids, f.pkt.src) && d == NodeOf(net.ids, f.pkt.dest)
    requires IsNode(net, f.at) && IsNode(net, d) && GoesOn(net, f.at, d, f.pkt.ttl)
    ensures var g := Relayed(net, f, d);
            && InTransit(net, g) && AllInTransit(net, [g])
            && Meant(net, f, d).delivered + Fates(net, [g]) == Fate(net, f)
            && TotalWork(net, [g]) + 1 == Work(net, f)
  {
    RelayedOnTheWay(net, f, s, d);
    hide OnTheWay, Relayed;
    OnlyOne(net, Relayed(net, f, d));
    TimesAdd(MessageAt(d, f.pkt), 0, 0);
    assert Placed(net, f);
    hide Fate, Work;
    RelayedFate(net, f, d);
    RelayedWork(net, f, d);
  }

  lemma Concat(net: Network, p: seq<Flight>, q: seq<Flight>)
    ensures AllInTransit(net, p + q) <==> AllInTransit(net, p) && AllInTransit(net, q)
    ensures Fates(net, p + q) == Fates(net, p) + Fates(net, q)
    ensures TotalWork(net, p + q) == TotalWork(net, p) + TotalWork(net, q)
  {
    AllConcat(p, q, Travels(net));
    UnionConcat(p, q, FateOf(net));
    SumConcat(p, q, WorkOf(net));
  }

  lemma TakeOut(net: Network, q: seq<Flight>, i: nat)
    requires i < |q|
    ensures AllInTransit(net, q) <==> InTransit(net, q[i]) && AllInTransit(net, Without(q, i))
    ensures Fates(net, q) == Fate(net, q[i]) + Fates(net, Without(q, i))
    ensures TotalWork(net, q) == Work(net, q[i]) + TotalWork(net, Without(q, i))
  {
    AllTakeOut(q, i, Travels(net));
    UnionTakeOut(q, i, FateOf(net));
    SumTakeOut(q, i, WorkOf(net));
  }

  lemma OnlyOne(net: Network, f: Flight)
    ensures AllInTransit(net, [f]) <==> InTransit(net, f)
    ensures Fates(net, [f]) == Fate(net, f)
    ensures TotalWork(net, [f]) == Work(net, f)
  {
    AllOne(f, Travels(net));
    UnionOne(f, FateOf(net));
    SumOne(f, WorkOf(net));
  }

  // ---------------------------------------------------------------- every step

  ghost predicate Sound(net: Network, st: State) {
    Covered(net) && AllInTransit(net, st.queue) && !st.corrupted
  }

  /** Delivered already, or still to be delivered on account of what is in flight. */
  ghost function Promised(net: Network, st: State): multiset<Message>
    requires Sound(net, st)
  {
    st.delivered + Fates(net, st.queue)
  }

  /** What a send adds to the deliveries to come. */
  ghost function Adds(net: Network, op: Op): multiset<Message>
    requires ValidNetwork(net) && Legal(net, op)
  {
    match op
    case Transmit(_) | Miss(_) | Lose(_, _) => multiset{}
    case Send(s, d, ttl, _, id) => Times(Message(d, net.ids[s], net.ids[d], id), Copies(net, s, d, ttl))
  }

  /** What a loss takes from the deliveries to come. */
  ghost function Loses(net: Network, st: State, op: Op): multiset<Message> {
    if op.Send? || st.queue == [] then multiset{}
    else
      var f := st.queue[op.i % |st.queue|];
      match op
      case Miss(_) => Overhears(net, f, true)
      case Lose(_, overheard) => Fate(net, f) - Overhears(net, f, overheard)
      case _ => multiset{}
  }

  lemma SentTravels(net: Network, op: Op)
    requires ValidNetwork(net) && Legal(net, op) && op.Send?
    ensures var f := Sent(net, op.s, op.d, op.ttl, op.prio, op.id);
            InTransit(net, f) && Fate(net, f) == Adds(net, op)
  {
    if op.s == op.d {
      SelfLookup(net, op.s);
    }
  }

  lemma SendKeeps(net: Network, st: State, op: Op)
    requires Sound(net, st) && Legal(net, op) && op.Send?
    ensures Sound(net, Step(net, st, op))
    ensures Promised(net, Step(net, st, op)) == Promised(net, st) + Adds(net, op)
  {
    hide InTransit, Fate;
    var f := Sent(net, op.s, op.d, op.ttl, op.prio, op.id);
    SentTravels(net, op);
    OnlyOne(net, f);
    Concat(net, st.queue, [f]);
  }

  lemma TransmitKeeps(net: Network, st: State, i: nat)
    requires Sound(net, st)
    ensures Sound(net, Step(net, st, Transmit(i)))
    ensures Promised(net, Step(net, st, Transmit(i))) == Promised(net, st)
    ensures st.queue != [] ==> TotalWork(net, Step(net, st, Transmit(i)).queue) + 1 == TotalWork(net, st.queue)
  {
    hide HeardFrom, Fate, Work, InTransit;
    if st.queue != [] {
      var k := i % |st.queue|;
      TakeOut(net, st.queue, k);
      TransmissionKeepsFate(net, st.queue[k]);
      Concat(net, Without(st.queue, k), HeardFrom(net, st.queue[k].at, st.queue[k].pkt, 1).relays);
    }
  }

  /** A flight heard by its destination is fated to be delivered at least that once. */
  lemma OverheardIsFated(net: Network, f: Flight, overheard: bool)
    requires ValidNetwork(net) && InTransit(net, f)
    ensures Overhears(net, f, overheard) <= Fate(net, f)
  {
  }

  /** All a destination can miss of one transmission is the copy it would have heard. */
  lemma MissedIsOverheard(net: Network, f: Flight)
    requires Covered(net) && InTransit(net, f)
    ensures HeardFrom(net, f.at, f.pkt, 1).delivered == Overhears(net, f, true)
  {
    var s, d := NodeOf(net.ids, f.pkt.src), NodeOf(net.ids, f.pkt.dest);
    TimesAdd(MessageAt(d, f.pkt), 0, 0);
    hide HeardFrom;
    if f.at == d {
      SelfTransmissionDoes(net, f, d);
    } else {
      TransmissionDoes(net, f, s, d);
    }
  }

  lemma MissKeeps(net: Network, st: State, i: nat)
    requires Sound(net, st)
    ensures Sound(net, Step(net, st, Miss(i)))
    ensures Promised(net, Step(net, st, Miss(i))) + Loses(net, st, Miss(i)) == Promised(net, st)
  {
    hide HeardFrom, Fate, InTransit, Overhears;
    TransmitKeeps(net, st, i);
    if st.queue != [] {
      TakeOut(net, st.queue, i % |st.queue|);
      MissedIsOverheard(net, st.queue[i % |st.queue|]);
    }
  }

  lemma LoseKeeps(net: Network, st: State, i: nat, overheard: bool)
    requires Sound(net, st)
    ensures Sound(net, Step(net, st, Lose(i, overheard)))
    ensures Promised(net, Step(net, st, Lose(i, overheard))) + Loses(net, st, Lose(i, overheard)) == Promised(net, st)
  {
    hide Fate, InTransit, Overhears;
    if st.queue != [] {
      TakeOut(net, st.queue, i % |st.queue|);
      OverheardIsFated(net, st.queue[i % |st.queue|], overheard);
    }
  }

  lemma StepKeeps(net: Network, st: State, op: Op)
    requires Sound(net, st) && Legal(net, op)
    ensures Sound(net, Step(net, st, op))
    ensures Promised(net, Step(net, st, op)) + Loses(net, st, op) == Promised(net, st) + Adds(net, op)
  {
    match op
    case Send(_, _, _, _, _) => SendKeeps(net, st, op);
    case Transmit(i) => TransmitKeeps(net, st, i);
    case Miss(i) => MissKeeps(net, st, i);
    case Lose(i, overheard) => LoseKeeps(net, st, i, overheard);
  }

  // ---------------------------------------------------------------- whole runs

  ghost predicate AllLegal(net: Network, ops: seq<Op>) {
    forall i :: 0 <= i < |ops| ==> Legal(net, ops[i])
  }

  ghost function Run(net: Network, st: State, ops: seq<Op>): (r: State)
    requires Sound(net, st) && AllLegal(net, ops)
    ensures Sound(net, r)
    decreases |ops|
  {
    if ops == [] then st
    else
      assert Legal(net, ops[0]);
      StepKeeps(net, st, ops[0]);
      Run(net, Step(net, st, ops[0]), ops[1..])
  }

  /** What the sends of a run promise. */
  ghost function Due(net: Network, ops: seq<Op>): multiset<Message>
    requires ValidNetwork(net) && AllLegal(net, ops)
    decreases |ops|
  {
    if ops == [] then multiset{}
    else
      assert Legal(net, ops[0]);
      Adds(net, ops[0]) + Due(net, ops[1..])
  }

  /** What a run loses: the copies that would have arrived had they not been lost on the way. */
  ghost function Lost(net: Network, st: State, ops: seq<Op>): multiset<Message>
    requires Sound(net, st) && AllLegal(net, ops)
    decreases |ops|
  {
    if ops == [] then multiset{}
    else
      assert Legal(net, ops[0]);
      StepKeeps(net, st, ops[0]);
      Loses(net, st, ops[0]) + Lost(net, Step(net, st, ops[0]), ops[1..])
  }

  lemma Balance(p: multiset<Message>, l: multiset<Message>, a: multiset<Message>, p': multiset<Message>,
                l': multiset<Message>, a': multiset<Message>, p'': multiset<Message>)
    requires p' + l == p + a && p'' + l' == p' + a'
    ensures p'' + (l + l') == p + (a + a')
  {
    assert p'' + (l + l') == (p'' + l') + l;
    assert (p' + a') + l == (p' + l) + a';
    assert (p + a) + a' == p + (a + a');
  }

  /** In every run, however sends, transmissions and losses interleave: deliveries made, deliveries still to
    * come and copies lost are exactly what the sends promise, one copy for each node on the route that the
    * destination hears.  No routing table is ever found corrupted. */
  lemma {:induction false} RunsDeliver(net: Network, st: State, ops: seq<Op>)
    requires Sound(net, st) && AllLegal(net, ops)
    ensures !Run(net, st, ops).corrupted
    ensures Promised(net, Run(net, st, ops)) + Lost(net, st, ops) == Promised(net, st) + Due(net, ops)
    decreases |ops|
  {
    if ops != [] {
      var op := ops[0];
      assert Legal(net, op);
      StepKeeps(net, st, op);
      var next := Step(net, st, op);
      RunsDeliver(net, next, ops[1..]);
      hide Promised;
      Balance(Promised(net, st), Loses(net, st, op), Adds(net, op), Promised(net, next),
              Lost(net, next, ops[1..]), Due(net, ops[1..]), Promised(net, Run(net, next, ops[1..])));
    }
  }

  ghost predicate OnlyTransmits(ops: seq<Op>) {
    forall i :: 0 <= i < |ops| ==> ops[i].Transmit?
  }

  /** Once sending stops, whichever flights are chosen, the network falls silent after exactly as many
    * transmissions as the remaining hops of all flights, each cut off at its time to live. */
  lemma {:induction false} NetworkFallsSilent(net: Network, st: State, ops: seq<Op>)
    requires Sound(net, st) && OnlyTransmits(ops) && AllLegal(net, ops)
    ensures |ops| < TotalWork(net, st.queue) ==> Run(net, st, ops).queue != []
    ensures |ops| >= TotalWork(net, st.queue) ==>
              && Run(net, st, ops).queue == []
              && Run(net, st, ops).delivered == Promised(net, st)
    decreases |ops|
  {
    if ops == [] {
      EmptyHasNoWork(net, st.queue);
    } else {
      assert ops[0].Transmit?;
      TransmitKeeps(net, st, ops[0].i);
      EmptyHasNoWork(net, st.queue);
      NetworkFallsSilent(net, Step(net, st, ops[0]), ops[1..]);
    }
  }

  lemma EmptyHasNoWork(net: Network, q: seq<Flight>)
    requires AllInTransit(net, q)
    ensures TotalWork(net, q) == 0 <==> q == []
  {
    if q != [] && q[0].at != NodeOf(net.ids, q[0].pkt.dest) {
      CostInRange(net, q[0].at, NodeOf(net.ids, q[0].pkt.dest));
    }
  }

  /** Some walk to d is no longer than ttl, and short of INFINITY. */
  ghost predicate Near(net: Network, s: nat, d: nat, ttl: int) {
    exists p :: IsWalk(net.n, net.links, p, s, d) && |p| - 1 <= ttl && |p| - 1 < INFINITY
  }

  /** A packet to another node needs a walk; one to its own sender needs the sender to hear itself. */
  ghost predicate Reaches(net: Network, s: nat, d: nat, ttl: int) {
    if s == d then (s, s) in net.reach else Near(net, s, d, ttl)
  }

  lemma ReachesExactly(net: Network, s: nat, d: nat, ttl: int)
    requires IsNode(net, s) && IsNode(net, d) && s != d
    ensures Near(net, s, d, ttl) <==> Cost(net, s, d) < INFINITY && Cost(net, s, d) <= ttl
  {
    CostIsShortest(net.n, net.links, s, d);
  }

  /** A route short enough carries at least one copy; and exactly one if no node hears more than the gateway
    * has it hear, none then without such a route. */
  lemma {:induction false} CopiesWithin(net: Network, u: nat, d: nat, ttl: int)
    requires Covered(net) && IsNode(net, u) && IsNode(net, d) && u != d && ttl >= 1
    ensures Cost(net, u, d) < INFINITY && Cost(net, u, d) <= ttl ==> Copies(net, u, d, ttl) >= 1
    ensures net.reach == net.links ==>
              Copies(net, u, d, ttl) == if Cost(net, u, d) < INFINITY && Cost(net, u, d) <= ttl then 1 else 0
    decreases ttl
  {
    CostInRange(net, u, d);
    if Cost(net, u, d) < INFINITY {
      var h := HopTo(net, u, d);
      if h != d {
        CostInRange(net, h, d);
        if ttl > 1 {
          CopiesWithin(net, h, d, ttl - 1);
        }
      }
    }
  }

  lemma CopiesReach(net: Network, s: nat, d: nat, ttl: int)
    requires Covered(net) && IsNode(net, s) && IsNode(net, d) && ttl >= 1
    ensures Reaches(net, s, d, ttl) ==> Copies(net, s, d, ttl) >= 1
    ensures net.reach == net.links ==> Copies(net, s, d, ttl) == if Reaches(net, s, d, ttl) then 1 else 0
  {
    if s != d {
      ReachesExactly(net, s, d, ttl);
      CopiesWithin(net, s, d, ttl);
    }
  }

  /** How many nodes of p the node d hears. */
  ghost function HearsOn(net: Network, p: seq<nat>, d: nat): nat {
    if p == [] then 0 else (if (p[0], d) in net.reach then 1 else 0) + HearsOn(net, p[1..], d)
  }

  lemma HearsOnFirst(net: Network, u: nat, rest: seq<nat>, k: nat, d: nat)
    requires 1 <= k <= |rest| + 1
    ensures HearsOn(net, ([u] + rest)[..k], d) ==
            (if (u, d) in net.reach then 1 else 0) + HearsOn(net, rest[..k - 1], d)
  {
    assert ([u] + rest)[..k][1..] == rest[..k - 1];
  }

  /** Copies arrive from just those nodes of the shortest route that the packet is transmitted by and its
    * destination hears. */
  lemma {:induction false} CopiesFromRoute(net: Network, u: nat, d: nat, ttl: int)
    requires IsNode(net, u) && IsNode(net, d) && u != d && Cost(net, u, d) < INFINITY && ttl >= 1
    ensures var p := Followed(net, u, d);
            var sent := if Cost(net, u, d) <= ttl then Cost(net, u, d) else ttl;
            |p| == 1 + Cost(net, u, d) && Copies(net, u, d, ttl) == HearsOn(net, p[..sent], d)
    decreases ttl
  {
    CostInRange(net, u, d);
    FollowedShape(net, u, d);
    var h := HopTo(net, u, d);
    var sent := if Cost(net, u, d) <= ttl then Cost(net, u, d) else ttl;
    HearsOnFirst(net, u, Followed(net, h, d), sent, d);
    if h != d {
      CostInRange(net, h, d);
      if ttl > 1 {
        hide Followed;
        CopiesFromRoute(net, h, d, ttl - 1);
      }
    }
  }

  ghost function Quiet(): State {
    State([], multiset{}, false)
  }

  lemma SentWork(net: Network, op: Op)
    requires ValidNetwork(net) && op.Send? && Legal(net, op)
    ensures Work(net, Sent(net, op.s, op.d, op.ttl, op.prio, op.id)) <= op.ttl
  {
    SentTravels(net, op);
  }

  lemma OneSend(net: Network, op: Op)
    requires Covered(net) && op.Send? && Legal(net, op)
    ensures Sound(net, Quiet()) && Sound(net, Step(net, Quiet(), op))
    ensures Promised(net, Step(net, Quiet(), op)) == Adds(net, op)
    ensures TotalWork(net, Step(net, Quiet(), op).queue) <= op.ttl
  {
    hide InTransit, Fate, Work;
    SendKeeps(net, Quiet(), op);
    var f := Sent(net, op.s, op.d, op.ttl, op.prio, op.id);
    SentWork(net, op);
    assert [] + [f] == [f];
    OnlyOne(net, f);
  }

  /** A packet sent through an idle network is delivered once for each node on its route, within its time to
    * live, that the destination hears: at least once if the destination can be reached; and if no node hears
    * more than the gateway has it hear, once if it can be reached and otherwise not at all.  The network is
    * silent again after at most ttl transmissions. */
  lemma DeliveredExactlyIfNear(net: Network, op: Op, ops: seq<Op>)
    requires Covered(net) && op.Send? && Legal(net, op)
    requires OnlyTransmits(ops) && AllLegal(net, ops) && |ops| >= op.ttl
    ensures Sound(net, Step(net, Quiet(), op))
    ensures var end := Run(net, Step(net, Quiet(), op), ops);
            var m := Message(op.d, net.ids[op.s], net.ids[op.d], op.id);
            && end.queue == [] && !end.corrupted
            && end.delivered == Times(m, Copies(net, op.s, op.d, op.ttl))
            && (Reaches(net, op.s, op.d, op.ttl) ==> m in end.delivered)
            && (net.reach == net.links ==>
                  end.delivered == if Reaches(net, op.s, op.d, op.ttl) then multiset{m} else multiset{})
  {
    OneSend(net, op);
    CopiesReach(net, op.s, op.d, op.ttl);
    NetworkFallsSilent(net, Step(net, Quiet(), op), ops);
    TimesAdd(Message(op.d, net.ids[op.s], net.ids[op.d], op.id), 0, 0);
  }

  /** Over two hops a packet arrives twice exactly if its destination hears the source too, as over a link
    * that pruning has removed. */
  lemma TwoHopsTwoCopies(net: Network, op: Op, ops: seq<Op>)
    requires Covered(net) && op.Send? && Legal(net, op) && op.s != op.d
    requires Cost(net, op.s, op.d) == 2 && op.ttl >= 2
    requires OnlyTransmits(ops) && AllLegal(net, ops) && |ops| >= op.ttl
    ensures Sound(net, Step(net, Quiet(), op))
    ensures Run(net, Step(net, Quiet(), op), ops).delivered ==
            Times(Message(op.d, net.ids[op.s], net.ids[op.d], op.id), if (op.s, op.d) in net.reach then 2 else 1)
  {
    DeliveredExactlyIfNear(net, op, ops);
    CostInRange(net, op.s, op.d);
    var h := HopTo(net, op.s, op.d);
    LastHop(net, h, op.d);
    assert (h, op.d) in net.links;
    assert Copies(net, h, op.d, op.ttl - 1) == 1;
  }

  /** Node 1 reaches node 3 by way of node 2; node 3 hears it, but that link has been pruned. */
  ghost function PrunedTriangle(): Network {
    Network(3, {(1, 2), (2, 3)}, [0, 1, 2, 3], 3, {(1, 2), (2, 3), (1, 3)})
  }

  lemma PrunedTriangleRoute()
    ensures Covered(PrunedTriangle()) && Cost(PrunedTriangle(), 1, 3) == 2
  {
    hide Solved;
    var net := PrunedTriangle();
    assert forall i :: 1 <= i <= 3 ==> net.ids[i] == i;
    CostIsShortest(3, net.links, 1, 3);
    assert IsWalk(3, net.links, [1, 2, 3], 1, 3);
  }

  /** One packet sent through the quiet network, and its destination has received it twice. */
  lemma DeliveredTwice()
    ensures var net, op := PrunedTriangle(), Send(1, 3, 2, 0, 7);
            && Sound(net, Quiet()) && Legal(net, op) && Sound(net, Step(net, Quiet(), op))
            && AllLegal(net, [Transmit(0), Transmit(0)])
            && Run(net, Step(net, Quiet(), op), [Transmit(0), Transmit(0)]).delivered == Times(Message(3, 1, 3, 7), 2)
  {
    PrunedTriangleRoute();
    hide Run, Step, Sound, Cost, ValidIds;
    OneSend(PrunedTriangle(), Send(1, 3, 2, 0, 7));
    TwoHopsTwoCopies(PrunedTriangle(), Send(1, 3, 2, 0, 7), [Transmit(0), Transmit(0)]);
  }
}
