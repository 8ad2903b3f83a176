/** Sending out the routing tables nearest nodes first: no alarm can be raised, and every node there is a route
  * to can be given its table.
  */
module NearestFirst {
  import opened FloydWarshall
  import opened RoutingTables
  import opened Forwarding
  import opened PriorityQueue
  import opened Dissemination

  ghost predicate NearerConfigured(net: Network, g: nat, st: State, u: nat)
    requires IsNode(net, g) && IsNode(net, u)
  {
    forall v :: 1 <= v <= net.n && HopsLeft(net, g, v) < HopsLeft(net, g, u) ==> v in st.configured
  }

  /** A node is sent its table only when the gateway and all nodes nearer to it have theirs. */
  ghost predicate InOrder(net: Network, g: nat, st: State, op: Op)
    requires IsNode(net, g) && Legal(net, st, op)
  {
    op.Configure? ==> NearerConfigured(net, g, st, op.u)
  }

  ghost predicate AllInOrder(net: Network, g: nat, st: State, ops: seq<Op>)
    requires ValidNetwork(net) && Shaped(net, st) && IsNode(net, g) && AllLegal(net, g, st, ops)
    decreases |ops|
  {
    ops == [] || (InOrder(net, g, st, ops[0]) && AllInOrder(net, g, Step(net, g, st, ops[0]), ops[1..]))
  }

  /** The flight is on a shortest route from g to u, where all nodes on the way have their tables. */
  ghost predicate Direct(net: Network, g: nat, st: State, f: Flight, u: nat)
    requires ValidNetwork(net) && IsNode(net, g)
  {
    && Underway(net, g, f, u) && f.pkt.nextHop == Lookup(TableOf(net, f.at), net.ids[u])
    && NearerConfigured(net, g, st, u)
    && (if Cost(net, g, u) < INFINITY then HopsLeft(net, g, f.at) + Cost(net, f.at, u) == Cost(net, g, u)
        else f.at == g)
  }

  ghost predicate GoesDirect(net: Network, g: nat, st: State, f: Flight)
    requires ValidNetwork(net) && IsNode(net, g)
  {
    exists u: nat :: Direct(net, g, st, f, u)
  }

  ghost predicate AllDirect(net: Network, g: nat, st: State)
    requires ValidNetwork(net) && IsNode(net, g)
  {
    forall i :: 0 <= i < |st.queue| ==> GoesDirect(net, g, st, st.queue[i])
  }

  /** Nobody has stopped, and all tables in flight are on their shortest route. */
  ghost predicate Orderly(net: Network, g: nat, st: State)
    requires ValidNetwork(net) && IsNode(net, g)
  {
    Faithful(net, Unconfigured(net).tables, st) && AllDirect(net, g, st) && st.stopped == {}
  }

  /** The next hop on a shortest route is one further from g and one nearer to u. */
  lemma NextOnRoute(net: Network, g: nat, a: nat, u: nat)
    requires IsNode(net, g) && IsNode(net, a) && IsNode(net, u) && u != g && u != a && Cost(net, g, u) < INFINITY
    requires HopsLeft(net, g, a) + Cost(net, a, u) == Cost(net, g, u)
    ensures var h := HopTo(net, a, u);
            && Cost(net, a, u) < INFINITY && h != g && (a, h) in net.links
            && HopsLeft(net, g, h) == HopsLeft(net, g, a) + 1
            && Cost(net, a, u) == 1 + HopsLeft(net, h, u)
  {
    RoundsKeepInvariant(net.n, net.links, net.n);
    var h := HopTo(net, a, u);
    var cost := Solved(net.n, net.links).cost;
    assert NoShorter(net.n, cost, g, a, h) && NoShorter(net.n, cost, g, h, u);
  }

  lemma ConfiguredStays(net: Network, g: nat, st: State, next: State, f: Flight, u: nat)
    requires ValidNetwork(net) && IsNode(net, g) && Direct(net, g, st, f, u) && st.configured <= next.configured
    ensures Direct(net, g, next, f, u)
  {
  }

  /** The packet names its next hop, which is not the gateway, or no node at all. */
  lemma NamesNextHop(net: Network, g: nat, st: State, f: Flight, u: nat)
    requires ValidNetwork(net) && IsNode(net, g) && Direct(net, g, st, f, u)
    ensures f.pkt.nextHop != BCAST_ADDR && f.pkt.nextHop != net.ids[g]
    ensures forall v :: 1 <= v <= net.n && f.pkt.nextHop == net.ids[v] ==>
              Cost(net, g, u) < INFINITY && v == HopTo(net, f.at, u)
  {
    LookupIsFirstHop(net, f.at, u);
    Delivery.CostInRange(net, g, u);
    if Cost(net, g, u) < INFINITY {
      NextOnRoute(net, g, f.at, u);
      Delivery.IdsDiffer(net, HopTo(net, f.at, u), g);
    }
  }

  lemma NextHopKeepsDirect(net: Network, g: nat, st: State, f: Flight, u: nat, pkt: Packet)
    requires ValidNetwork(net) && IsNode(net, g) && Direct(net, g, st, f, u) && Cost(net, g, u) < INFINITY
    requires HopTo(net, f.at, u) != u
    requires pkt.src == f.pkt.src && pkt.dest == f.pkt.dest && pkt.payload == f.pkt.payload
    requires pkt.nextHop == Lookup(TableOf(net, HopTo(net, f.at, u)), net.ids[u])
    ensures HopTo(net, f.at, u) in st.configured
    ensures Direct(net, g, st, Flight(HopTo(net, f.at, u), pkt), u)
  {
    NextOnRoute(net, g, f.at, u);
    Delivery.CostInRange(net, HopTo(net, f.at, u), u);
  }

  /** The next hop hands a table straight on; everybody else but its node drops it. */
  lemma DirectHeard(net: Network, g: nat, st: State, v: nat, f: Flight, u: nat)
    requires ValidNetwork(net) && IsNode(net, g) && Orderly(net, g, st) && IsNode(net, v) && Direct(net, g, st, f, u)
    ensures var r := React(net.ids[v], st.tables[v], f.pkt);
            !r.Corrupted? && (r.Relay? ==> Direct(net, g, st, Flight(v, r.pkt), u))
  {
    NamesNextHop(net, g, st, f, u);
    ReactsExactly(net.ids[v], st.tables[v], f.pkt);
    hide React, Lookup, TableOf, HopTo, HopsLeft, NearerConfigured, AllDirect;
    var r := React(net.ids[v], st.tables[v], f.pkt);
    if v != u {
      Delivery.IdsDiffer(net, v, u);
      if r.Relay? {
        assert f.pkt.nextHop == net.ids[v];
        NextHopKeepsDirect(net, g, st, f, u, r.pkt.(nextHop := Lookup(TableOf(net, v), net.ids[u])));
        assert TableFits(net, Unconfigured(net).tables, st, v);
      }
    }
  }

  /** As more nodes are configured, flights stay on their route. */
  lemma StaysDirect(net: Network, g: nat, st: State, next: State, f: Flight)
    requires ValidNetwork(net) && IsNode(net, g) && GoesDirect(net, g, st, f) && st.configured <= next.configured
    ensures GoesDirect(net, g, next, f)
  {
    var w: nat :| Direct(net, g, st, f, w);
    ConfiguredStays(net, g, st, next, f, w);
  }

  lemma QueueDirect(net: Network, g: nat, st: State, next: State)
    requires ValidNetwork(net) && IsNode(net, g) && AllDirect(net, g, st) && st.configured <= next.configured
    requires forall i :: 0 <= i < |next.queue| ==> next.queue[i] in st.queue || GoesDirect(net, g, next, next.queue[i])
    ensures AllDirect(net, g, next)
  {
    hide GoesDirect;
    forall i | 0 <= i < |next.queue| ensures GoesDirect(net, g, next, next.queue[i]) {
      if next.queue[i] in st.queue {
        StaysDirect(net, g, st, next, next.queue[i]);
      }
    }
  }

  lemma HearOneOrderly(net: Network, g: nat, st: State, v: nat, full: set<nat>, f: Flight, u: nat)
    requires ValidNetwork(net) && IsNode(net, g) && Orderly(net, g, st) && IsNode(net, v) && Direct(net, g, st, f, u)
    ensures Orderly(net, g, HearOne(net, st, v, full, f.pkt))
    ensures Direct(net, g, HearOne(net, st, v, full, f.pkt), f, u)
  {
    DirectHeard(net, g, st, v, f, u);
    assert Genuine(net, f.pkt);
    HearOneKeeps(net, Unconfigured(net).tables, st, v, full, f.pkt);
    HearOneAdds(net, st, v, full, f.pkt);
    hide HearOne, React, TableOf;
    var next, r := HearOne(net, st, v, full, f.pkt), React(net.ids[v], st.tables[v], f.pkt);
    ConfiguredStays(net, g, st, next, f, u);
    if r.Relay? {
      ConfiguredStays(net, g, st, next, Flight(v, r.pkt), u);
      assert GoesDirect(net, g, next, Flight(v, r.pkt));
    }
    hide Faithful, Direct, AllDirect, GoesDirect;
    QueueDirect(net, g, st, next);
  }

  lemma {:induction false} HearAllOrderly(net: Network, g: nat, st: State, hearers: seq<nat>, full: set<nat>,
                                          f: Flight, u: nat)
    requires ValidNetwork(net) && IsNode(net, g) && Orderly(net, g, st) && AllNodes(net, hearers)
    requires Direct(net, g, st, f, u)
    ensures Orderly(net, g, HearAll(net, st, hearers, full, f.pkt))
    decreases |hearers|
  {
    if hearers != [] {
      HearOneOrderly(net, g, st, hearers[0], full, f, u);
      HearAllOrderly(net, g, HearOne(net, st, hearers[0], full, f.pkt), hearers[1..], full, f, u);
    }
  }

  lemma DirectFromStart(net: Network, g: nat, st: State, f: Flight, u: nat)
    requires ValidNetwork(net) && IsNode(net, g) && Underway(net, g, f, u) && f.at == g
    requires f.pkt.nextHop == Lookup(TableOf(net, g), net.ids[u]) && NearerConfigured(net, g, st, u)
    ensures GoesDirect(net, g, st, f)
  {
    assert IsNode(net, u) && u != g;
    hide Underway, TableOf, Lookup, NearerConfigured, Cost;
    assert Direct(net, g, st, f, u);
  }

  lemma GatewayHasTable(net: Network, g: nat, st: State, u: nat)
    requires ValidNetwork(net) && IsNode(net, g) && IsNode(net, u) && u != g
    requires Faithful(net, Unconfigured(net).tables, st) && NearerConfigured(net, g, st, u)
    ensures st.tables[g] == TableOf(net, g)
  {
    NearerThan(net, g, u);
    hide TableOf, HopsLeft, AllGenuine;
    assert g in st.configured;
    assert TableFits(net, Unconfigured(net).tables, st, g);
  }

  /** The gateway, which has its own table by then, sends a table straight to its first hop. */
  lemma SentDirect(net: Network, g: nat, st: State, u: nat, ttl: int, prio: int)
    requires ValidNetwork(net) && IsNode(net, g) && IsNode(net, u) && u != g
    requires Faithful(net, Unconfigured(net).tables, st) && NearerConfigured(net, g, st, u)
    ensures GoesDirect(net, g, st, Flight(g, Config(net, g, st.tables[g], u, ttl, prio)))
  {
    GatewayHasTable(net, g, st, u);
    ConfigUnderway(net, g, u, ttl, prio);
    hide TableOf, Lookup, Underway, Config, Faithful, NearerConfigured, GoesDirect;
    DirectFromStart(net, g, st, Flight(g, Config(net, g, TableOf(net, g), u, ttl, prio)), u);
  }

  lemma NearerThan(net: Network, g: nat, u: nat)
    requires IsNode(net, g) && IsNode(net, u) && u != g
    ensures HopsLeft(net, g, g) == 0 < HopsLeft(net, g, u)
  {
    Delivery.CostInRange(net, g, u);
  }

  lemma ConfigUnderway(net: Network, g: nat, u: nat, ttl: int, prio: int)
    requires ValidNetwork(net) && IsNode(net, g) && IsNode(net, u) && u != g
    ensures var f := Flight(g, Config(net, g, TableOf(net, g), u, ttl, prio));
            f.at == g && Underway(net, g, f, u) && f.pkt.nextHop == Lookup(TableOf(net, g), net.ids[u])
  {
    hide Lookup;
  }

  lemma ConfigureOrderly(net: Network, g: nat, st: State, op: Op)
    requires ValidNetwork(net) && IsNode(net, g) && Orderly(net, g, st) && Legal(net, st, op) && op.Configure?
    requires InOrder(net, g, st, op)
    ensures Orderly(net, g, Step(net, g, st, op))
  {
    StepKeepsFaithful(net, g, Unconfigured(net).tables, st, op);
    var next := Step(net, g, st, op);
    if op.u != g {
      SentDirect(net, g, st, op.u, op.ttl, op.prio);
      StaysDirect(net, g, st, next, Flight(g, Config(net, g, st.tables[g], op.u, op.ttl, op.prio)));
    }
    hide GoesDirect, Faithful, Config, AllDirect, InOrder, NearerConfigured, TableOf;
    QueueDirect(net, g, st, next);
  }

  lemma WithoutOrderly(net: Network, g: nat, st: State, k: nat)
    requires ValidNetwork(net) && IsNode(net, g) && Orderly(net, g, st) && k < |st.queue|
    ensures Orderly(net, g, st.(queue := Without(st.queue, k)))
  {
    WithoutFaithful(net, Unconfigured(net).tables, st, k);
    hide GoesDirect, Faithful;
    QueueDirect(net, g, st, st.(queue := Without(st.queue, k)));
  }

  lemma TransmitOrderly(net: Network, g: nat, st: State, op: Op)
    requires ValidNetwork(net) && IsNode(net, g) && Orderly(net, g, st) && Legal(net, st, op) && op.Transmit?
    ensures Orderly(net, g, Step(net, g, st, op))
  {
    if st.queue != [] {
      var k := op.i % |st.queue|;
      var sent := st.(queue := Without(st.queue, k));
      assert GoesDirect(net, g, st, st.queue[k]);
      var u: nat :| Direct(net, g, st, st.queue[k], u);
      ConfiguredStays(net, g, st, sent, st.queue[k], u);
      WithoutOrderly(net, g, st, k);
      hide Orderly, Direct, TableOf, HearAll;
      HearAllOrderly(net, g, sent, op.hearers, op.full, st.queue[k], u);
    }
  }

  /** If each node is sent its table only when the gateway and all nodes nearer to it have theirs, then
    * wherever routes lead and whatever is lost, no table is ever found corrupted, and every table in flight
    * is on a shortest route. */
  lemma {:induction false} NearestFirstIsSafe(net: Network, g: nat, st: State, ops: seq<Op>)
    requires ValidNetwork(net) && IsNode(net, g) && Orderly(net, g, st)
    requires AllLegal(net, g, st, ops) && OnlyTables(ops) && AllInOrder(net, g, st, ops)
    ensures Orderly(net, g, Run(net, g, st, ops)) && Run(net, g, st, ops).stopped == {}
    decreases |ops|
  {
    if ops != [] {
      assert !ops[0].Originate?;
      match ops[0] {
        case Configure(_, _, _) => ConfigureOrderly(net, g, st, ops[0]);
        case Transmit(_, _, _) => TransmitOrderly(net, g, st, ops[0]);
      }
      NearestFirstIsSafe(net, g, Step(net, g, st, ops[0]), ops[1..]);
    }
  }

  // ---------------------------------------------------------------- everybody can be reached

  /** A run of this kind from st to end. */
  ghost predicate Follows(net: Network, g: nat, st: State, ops: seq<Op>, end: State)
    requires ValidNetwork(net) && Shaped(net, st) && IsNode(net, g)
  {
    && AllLegal(net, g, st, ops) && OnlyTables(ops) && AllInOrder(net, g, st, ops)
    && Run(net, g, st, ops) == end
  }

  ghost predicate Reaches(net: Network, g: nat, st: State, end: State)
    requires ValidNetwork(net) && Shaped(net, st) && IsNode(net, g)
  {
    exists ops :: Follows(net, g, st, ops, end)
  }

  lemma StaysThere(net: Network, g: nat, st: State)
    requires ValidNetwork(net) && Shaped(net, st) && IsNode(net, g)
    ensures Reaches(net, g, st, st)
  {
    assert Follows(net, g, st, [], st);
  }

  lemma OneMoreStep(net: Network, g: nat, st: State, op: Op, end: State)
    requires ValidNetwork(net) && Shaped(net, st) && IsNode(net, g)
    requires Legal(net, st, op) && !op.Originate? && InOrder(net, g, st, op)
    requires Reaches(net, g, Step(net, g, st, op), end)
    ensures Reaches(net, g, st, end)
  {
    var ops :| Follows(net, g, Step(net, g, st, op), ops, end);
    assert ([op] + ops)[1..] == ops;
    assert Follows(net, g, st, [op] + ops, end);
  }

  lemma {:induction false} Onwards(net: Network, g: nat, st: State, ops: seq<Op>, mid: State, end: State)
    requires ValidNetwork(net) && Shaped(net, st) && IsNode(net, g) && Shaped(net, mid)
    requires Follows(net, g, st, ops, mid) && Reaches(net, g, mid, end)
    ensures Reaches(net, g, st, end)
    decreases |ops|
  {
    if ops != [] {
      assert !ops[0].Originate?;
      Onwards(net, g, Step(net, g, st, ops[0]), ops[1..], mid, end);
      OneMoreStep(net, g, st, ops[0], end);
    }
  }

  lemma ReachesOn(net: Network, g: nat, st: State, mid: State, end: State)
    requires ValidNetwork(net) && Shaped(net, st) && IsNode(net, g) && Shaped(net, mid)
    requires Reaches(net, g, st, mid) && Reaches(net, g, mid, end)
    ensures Reaches(net, g, st, end)
  {
    var ops :| Follows(net, g, st, ops, mid);
    Onwards(net, g, st, ops, mid, end);
  }

  /** Node u has its table, and nothing is in flight. */
  ghost function Settled(net: Network, st: State, u: nat): (end: State)
    requires ValidNetwork(net) && Shaped(net, st) && IsNode(net, u)
    ensures Shaped(net, end)
  {
    State(st.tables[u := TableOf(net, u)], [], st.configured + {u}, st.stopped)
  }

  /** The flight as its next hop, which has its table, hands it on. */
  ghost function HandedOn(net: Network, f: Flight, u: nat): Flight
    requires ValidNetwork(net) && IsNode(net, f.at) && IsNode(net, u)
  {
    var h := HopTo(net, f.at, u);
    Flight(h, f.pkt.(ttl := f.pkt.ttl - 1, prevHop := net.ids[h], nextHop := Lookup(TableOf(net, h), net.ids[u])))
  }

  lemma Installs(net: Network, st: State, f: Flight, u: nat)
    requires ValidNetwork(net) && Shaped(net, st) && IsNode(net, u) && u !in st.stopped && st.queue == []
    requires f.pkt.dest == net.ids[u] && f.pkt.payload == RouteConfig(net.ids[u], TableOf(net, u))
    ensures HearOne(net, st, u, {}, f.pkt) == Settled(net, st, u)
  {
    ReactsExactly(net.ids[u], st.tables[u], f.pkt);
    hide React, TableOf;
  }

  /** The next hop has its table and relays by it. */
  lemma ReactsByTable(net: Network, g: nat, st: State, f: Flight, u: nat)
    requires ValidNetwork(net) && IsNode(net, g) && Orderly(net, g, st)
    requires Direct(net, g, st, f, u) && Cost(net, g, u) < INFINITY
    requires HopTo(net, f.at, u) != u && 1 < f.pkt.ttl <= MAX_TTL
    ensures var h := HopTo(net, f.at, u);
            h in st.configured && f.pkt.nextHop == net.ids[h] && f.pkt.dest != net.ids[h] && f.pkt.dest != BCAST_ADDR
            && f.pkt.src != net.ids[h]
    ensures Direct(net, g, st, HandedOn(net, f, u), u)
  {
    var h := HopTo(net, f.at, u);
    NextHopKeepsDirect(net, g, st, f, u, HandedOn(net, f, u).pkt);
    NextOnRoute(net, g, f.at, u);
    LookupIsFirstHop(net, f.at, u);
    Delivery.IdsDiffer(net, h, u);
    Delivery.IdsDiffer(net, h, g);
  }

  lemma HandsOn(net: Network, g: nat, st: State, f: Flight, u: nat)
    requires ValidNetwork(net) && IsNode(net, g) && Orderly(net, g, st) && st.queue == []
    requires Direct(net, g, st, f, u) && Cost(net, g, u) < INFINITY
    requires HopTo(net, f.at, u) != u && 1 < f.pkt.ttl <= MAX_TTL
    ensures HearOne(net, st, HopTo(net, f.at, u), {}, f.pkt) == st.(queue := [HandedOn(net, f, u)])
    ensures Direct(net, g, st, HandedOn(net, f, u), u)
  {
    var h := HopTo(net, f.at, u);
    ReactsByTable(net, g, st, f, u);
    ReactsExactly(net.ids[h], st.tables[h], f.pkt);
    hide React, TableOf, Lookup, HopTo, Cost, NearerConfigured, HopsLeft, AllDirect;
    assert TableFits(net, Unconfigured(net).tables, st, h);
    assert f.pkt.dest == net.ids[u] && f.pkt.payload.RouteConfig?;
    hide Direct, Orderly, Unconfigured;
    assert !Brings(net, h, f.pkt);
  }

  lemma LastHopStep(net: Network, g: nat, st: State, f: Flight, u: nat)
    requires Delivery.Covered(net) && IsNode(net, g) && Orderly(net, g, st) && st.queue == [f]
    requires Direct(net, g, st, f, u) && Cost(net, g, u) < INFINITY && HopTo(net, f.at, u) == u
    ensures Legal(net, st, Transmit(0, [u], {})) && Step(net, g, st, Transmit(0, [u], {})) == Settled(net, st, u)
  {
    NextOnRoute(net, g, f.at, u);
    hide TableOf, Lookup, HopTo, Cost;
    HeardByOne(net, g, st, u);
    Installs(net, st.(queue := []), f, u);
  }

  lemma NextHopStep(net: Network, g: nat, st: State, f: Flight, u: nat)
    requires Delivery.Covered(net) && IsNode(net, g) && Orderly(net, g, st) && st.queue == [f]
    requires Direct(net, g, st, f, u) && Cost(net, g, u) < INFINITY && HopTo(net, f.at, u) != u
    requires 1 < f.pkt.ttl <= MAX_TTL
    ensures var op, next := Transmit(0, [HopTo(net, f.at, u)], {}), st.(queue := [HandedOn(net, f, u)]);
            && Legal(net, st, op) && Step(net, g, st, op) == next
            && Orderly(net, g, next) && Direct(net, g, next, HandedOn(net, f, u), u)
  {
    var h, sent := HopTo(net, f.at, u), st.(queue := []);
    NextOnRoute(net, g, f.at, u);
    HeardByOne(net, g, st, h);
    WithoutOrderly(net, g, st, 0);
    assert Without(st.queue, 0) == [];
    ConfiguredStays(net, g, st, sent, f, u);
    HandsOn(net, g, sent, f, u);
    hide Direct, Orderly, HearOne, HopTo, TableOf;
    ConfiguredStays(net, g, sent, st.(queue := [HandedOn(net, f, u)]), HandedOn(net, f, u), u);
    TransmitOrderly(net, g, st, Transmit(0, [h], {}));
  }

  /** A flight on its route can be heard by one next hop after the other, until its node has its table. */
  lemma {:induction false} RouteDelivers(net: Network, g: nat, st: State, f: Flight, u: nat)
    requires Delivery.Covered(net) && IsNode(net, g) && Orderly(net, g, st) && st.queue == [f]
    requires Direct(net, g, st, f, u) && Cost(net, g, u) < INFINITY && Cost(net, f.at, u) <= f.pkt.ttl <= MAX_TTL
    ensures Reaches(net, g, st, Settled(net, st, u))
    decreases Cost(net, f.at, u)
  {
    var h := HopTo(net, f.at, u);
    NextOnRoute(net, g, f.at, u);
    if h == u {
      LastHopStep(net, g, st, f, u);
      StaysThere(net, g, Settled(net, st, u));
    } else {
      Delivery.CostInRange(net, h, u);
      NextHopStep(net, g, st, f, u);
      hide Direct, Orderly, Step, Legal, Reaches, TableOf, HopTo;
      RouteDelivers(net, g, st.(queue := [HandedOn(net, f, u)]), HandedOn(net, f, u), u);
    }
    hide Direct, Orderly, Step, HearOne, Reaches, Legal;
    OneMoreStep(net, g, st, Transmit(0, [h], {}), Settled(net, st, u));
  }

  lemma SettledOrderly(net: Network, g: nat, st: State, u: nat)
    requires ValidNetwork(net) && IsNode(net, g) && IsNode(net, u) && Orderly(net, g, st)
    ensures Orderly(net, g, Settled(net, st, u))
  {
    var end := Settled(net, st, u);
    hide TableOf;
    forall w | 1 <= w <= net.n ensures TableFits(net, Unconfigured(net).tables, end, w) {
      assert TableFits(net, Unconfigured(net).tables, st, w);
    }
  }

  /** When all nearer nodes have their tables, one more can be given its own. */
  lemma OneMoreConfigured(net: Network, g: nat, st: State, u: nat)
    requires Delivery.Covered(net) && IsNode(net, g) && Orderly(net, g, st) && st.queue == []
    requires HasRoute(net, g, u) && NearerConfigured(net, g, st, u)
    ensures Reaches(net, g, st, Settled(net, st, u))
  {
    var op := Configure(u, MAX_TTL, 0);
    if u == g {
      StaysThere(net, g, Settled(net, st, u));
    } else {
      var f := Flight(g, Config(net, g, st.tables[g], u, MAX_TTL, 0));
      var next := st.(queue := [f]);
      assert Step(net, g, st, op) == next;
      ConfigureOrderly(net, g, st, op);
      SentDirect(net, g, st, u, MAX_TTL, 0);
      StaysDirect(net, g, st, next, f);
      var w: nat :| Direct(net, g, next, f, w);
      Delivery.IdsDiffer(net, g, u);
      assert w == u;
      Delivery.CostInRange(net, g, u);
      hide Orderly, Direct, Step, Reaches;
      RouteDelivers(net, g, next, f, u);
    }
    hide Orderly, Direct, Reaches;
    OneMoreStep(net, g, st, op, Settled(net, st, u));
  }

  ghost function Missing(net: Network, g: nat, st: State): set<nat> {
    set u: nat | 1 <= u <= net.n && HasRoute(net, g, u) && u !in st.configured
  }

  lemma {:induction false} NearestOf(net: Network, g: nat, s: set<nat>) returns (u: nat)
    requires IsNode(net, g) && s != {} && forall v :: v in s ==> IsNode(net, v)
    ensures u in s && forall v :: v in s ==> HopsLeft(net, g, u) <= HopsLeft(net, g, v)
    decreases s
  {
    u :| u in s;
    if s != {u} {
      var v := NearestOf(net, g, s - {u});
      if HopsLeft(net, g, v) < HopsLeft(net, g, u) {
        u := v;
      }
    }
  }

  /** From any orderly state with nothing in flight a run can go on, nearest nodes first, until every node the
    * gateway has a route to has its table. */
  lemma {:induction false} AllCanBeConfigured(net: Network, g: nat, st: State) returns (end: State)
    requires Delivery.Covered(net) && IsNode(net, g) && Orderly(net, g, st) && st.queue == []
    ensures Shaped(net, end) && Reaches(net, g, st, end) && Orderly(net, g, end) && end.queue == []
    ensures forall u :: 1 <= u <= net.n && HasRoute(net, g, u) ==> u in end.configured
    decreases Missing(net, g, st)
  {
    if Missing(net, g, st) == {} {
      StaysThere(net, g, st);
      end := st;
      forall u | 1 <= u <= net.n && HasRoute(net, g, u) ensures u in end.configured {
        assert u !in Missing(net, g, st);
      }
    } else {
      var u := NearestOf(net, g, Missing(net, g, st));
      NearestNext(net, g, st, u);
      OneMoreConfigured(net, g, st, u);
      SettledOrderly(net, g, st, u);
      var next := Settled(net, st, u);
      hide Orderly, Reaches, TableOf;
      assert Missing(net, g, next) < Missing(net, g, st) by {
        assert u !in Missing(net, g, next);
      }
      end := AllCanBeConfigured(net, g, next);
      ReachesOn(net, g, st, next, end);
    }
  }

  /** All nodes nearer than the nearest one still missing have their tables. */
  lemma NearestNext(net: Network, g: nat, st: State, u: nat)
    requires IsNode(net, g) && IsNode(net, u) && HasRoute(net, g, u)
    requires forall v :: v in Missing(net, g, st) ==> HopsLeft(net, g, u) <= HopsLeft(net, g, v)
    ensures NearerConfigured(net, g, st, u)
  {
    forall v | 1 <= v <= net.n && HopsLeft(net, g, v) < HopsLeft(net, g, u) ensures v in st.configured {
      assert HasRoute(net, g, v);
      assert v !in Missing(net, g, st);
    }
  }

  /** Nobody has stopped, nothing is in flight, and every node the gateway has a route to has its table. */
  ghost predicate Finished(net: Network, g: nat, st: State)
    requires ValidNetwork(net) && Shaped(net, st) && IsNode(net, g)
  {
    && st.queue == [] && st.stopped == {}
    && forall u :: 1 <= u <= net.n && HasRoute(net, g, u) ==> st.tables[u] == TableOf(net, u)
  }

  /** A network without any tables can be given them all, nearest nodes first. */
  lemma NearestFirstFinishes(net: Network, g: nat)
    requires Delivery.Covered(net) && IsNode(net, g)
    ensures exists end :: Shaped(net, end) && Reaches(net, g, Unconfigured(net), end) && Finished(net, g, end)
  {
    StartsOrderly(net, g);
    var end := AllCanBeConfigured(net, g, Unconfigured(net));
    hide TableOf, Reaches;
    forall u | 1 <= u <= net.n && HasRoute(net, g, u) ensures end.tables[u] == TableOf(net, u) {
      assert TableFits(net, Unconfigured(net).tables, end, u);
    }
  }

  lemma StartsOrderly(net: Network, g: nat)
    requires ValidNetwork(net) && IsNode(net, g)
    ensures Orderly(net, g, Unconfigured(net))
  {
    var st := Unconfigured(net);
    forall v | 1 <= v <= net.n ensures TableFits(net, st.tables, st, v) {
    }
  }
}
