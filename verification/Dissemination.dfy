/** How the gateway's tables reach the nodes, over a network that still has no tables or only some. */
module Dissemination {
  import opened FloydWarshall
  import opened RoutingTables
  import opened Forwarding
  import opened PriorityQueue
  import Delivery

  /** tables[v] is node v's routing table.  configured: the nodes that have received the table meant for them.
    * stopped: the nodes that have found their table corrupted, and do nothing any more. */
  datatype State = State(tables: seq<seq<Entry>>, queue: seq<Flight>, configured: set<nat>, stopped: set<nat>)

  /** Configure: the gateway's node is handed the table for node u.  Originate: any other packet joins those
    * in flight.  Transmit: the flight at place i modulo their number is heard by the given nodes in turn;
    * those in full have no free transmit buffer. */
  datatype Op = Configure(u: nat, ttl: int, prio: int)
              | Originate(f: Flight)
              | Transmit(i: nat, hearers: seq<nat>, full: set<nat>)

  // ---------------------------------------------------------------- steps

  /** The packet in which node g sends node u its table. */
  ghost function Config(net: Network, g: nat, rt: seq<Entry>, u: nat, ttl: int, prio: int): Packet
    requires ValidNetwork(net) && IsNode(net, g) && IsNode(net, u)
  {
    var table := RouteConfig(net.ids[u], TableOf(net, u));
    Packet(net.ids[g], net.ids[u], net.ids[g], Lookup(rt, net.ids[u]), ttl, prio, table)
  }

  /** The packet brings node v its own table. */
  ghost predicate Brings(net: Network, v: nat, pkt: Packet)
    requires ValidNetwork(net) && IsNode(net, v)
  {
    && (pkt.dest == net.ids[v] || pkt.dest == BCAST_ADDR)
    && pkt.payload.RouteConfig? && pkt.payload.node == net.ids[v]
  }

  ghost predicate Shaped(net: Network, st: State) {
    |st.tables| == net.n + 1
  }

  ghost function HearOne(net: Network, st: State, v: nat, full: set<nat>, pkt: Packet): (next: State)
    requires ValidNetwork(net) && Shaped(net, st) && IsNode(net, v)
    ensures Shaped(net, next)
  {
    if v in st.stopped then st
    else
      var heard := if Brings(net, v, pkt) then st.(configured := st.configured + {v}) else st;
      match React(net.ids[v], st.tables[v], pkt)
      case Relay(p) => if v in full then heard else heard.(queue := st.queue + [Flight(v, p)])
      case Install(table) => heard.(tables := st.tables[v := table])
      case Corrupted => heard.(stopped := st.stopped + {v})
      case _ => heard
  }

  ghost predicate AllNodes(net: Network, hearers: seq<nat>) {
    forall v :: v in hearers ==> IsNode(net, v)
  }

  ghost function HearAll(net: Network, st: State, hearers: seq<nat>, full: set<nat>, pkt: Packet): (next: State)
    requires ValidNetwork(net) && Shaped(net, st) && AllNodes(net, hearers)
    ensures Shaped(net, next)
    decreases |hearers|
  {
    if hearers == [] then st
    else
      HearAll(net, HearOne(net, st, hearers[0], full, pkt), hearers[1..], full, pkt)
  }

  /** Times to live are positive signed 8-bit numbers, only the gateway sends tables, and only nodes in reach
    * hear a transmission. */
  ghost predicate Legal(net: Network, st: State, op: Op) {
    match op
    case Configure(u, ttl, _) => IsNode(net, u) && 1 <= ttl <= MAX_TTL
    case Originate(f) => IsNode(net, f.at) && !f.pkt.payload.RouteConfig?
    case Transmit(i, hearers, _) =>
      && AllNodes(net, hearers)
      && (st.queue != [] ==> forall v :: v in hearers ==> (st.queue[i % |st.queue|].at, v) in net.reach)
  }

  ghost function Step(net: Network, g: nat, st: State, op: Op): (next: State)
    requires ValidNetwork(net) && Shaped(net, st) && IsNode(net, g) && Legal(net, st, op)
    ensures Shaped(net, next)
  {
    match op
    case Configure(u, ttl, prio) =>
      if g in st.stopped then st
      else if u == g then st.(tables := st.tables[g := TableOf(net, g)], configured := st.configured + {g})
      else st.(queue := st.queue + [Flight(g, Config(net, g, st.tables[g], u, ttl, prio))])
    case Originate(f) => st.(queue := st.queue + [f])
    case Transmit(i, hearers, full) =>
      if st.queue == [] then st
      else
        var k := i % |st.queue|;
        var sent := st.(queue := Without(st.queue, k));
        if st.queue[k].at in st.stopped then sent else HearAll(net, sent, hearers, full, st.queue[k].pkt)
  }

  ghost predicate AllLegal(net: Network, g: nat, st: State, ops: seq<Op>)
    requires ValidNetwork(net) && Shaped(net, st) && IsNode(net, g)
    decreases |ops|
  {
    ops == [] || (Legal(net, st, ops[0]) && AllLegal(net, g, Step(net, g, st, ops[0]), ops[1..]))
  }

  ghost function Run(net: Network, g: nat, st: State, ops: seq<Op>): (end: State)
    requires ValidNetwork(net) && Shaped(net, st) && IsNode(net, g) && AllLegal(net, g, st, ops)
    ensures Shaped(net, end)
    decreases |ops|
  {
    if ops == [] then st else Run(net, g, Step(net, g, st, ops[0]), ops[1..])
  }

  // ---------------------------------------------------------------- the tables are right

  /** A table that is sent is the one computed for the node it names. */
  ghost predicate Genuine(net: Network, pkt: Packet)
    requires ValidNetwork(net)
  {
    pkt.payload.RouteConfig? ==>
      exists u: nat :: IsNode(net, u) && pkt.payload == RouteConfig(net.ids[u], TableOf(net, u))
  }

  ghost predicate AllGenuine(net: Network, q: seq<Flight>)
    requires ValidNetwork(net)
  {
    forall i :: 0 <= i < |q| ==> Genuine(net, q[i].pkt)
  }

  /** Who has received its table has the one computed for it, and nobody else's table has changed. */
  ghost predicate Faithful(net: Network, initial: seq<seq<Entry>>, st: State)
    requires ValidNetwork(net)
  {
    && Shaped(net, st) && |initial| == net.n + 1
    && (forall v :: 1 <= v <= net.n ==> TableFits(net, initial, st, v))
    && AllGenuine(net, st.queue)
  }

  ghost predicate TableFits(net: Network, initial: seq<seq<Entry>>, st: State, v: nat)
    requires ValidNetwork(net) && Shaped(net, st) && |initial| == net.n + 1 && IsNode(net, v)
  {
    st.tables[v] == if v in st.configured then TableOf(net, v) else initial[v]
  }

  /** Hearing a packet adds at most its relay to those in flight, and stops a node only at an alarm. */
  lemma HearOneAdds(net: Network, st: State, v: nat, full: set<nat>, pkt: Packet)
    requires ValidNetwork(net) && Shaped(net, st) && IsNode(net, v)
    ensures var next, r := HearOne(net, st, v, full, pkt), React(net.ids[v], st.tables[v], pkt);
            && st.configured <= next.configured && (!r.Corrupted? ==> next.stopped == st.stopped)
            && (next.queue == st.queue || (r.Relay? && next.queue == st.queue + [Flight(v, r.pkt)]))
  {
    hide React;
  }

  lemma HearOneFits(net: Network, initial: seq<seq<Entry>>, st: State, v: nat, full: set<nat>, pkt: Packet, w: nat)
    requires ValidNetwork(net) && Faithful(net, initial, st) && IsNode(net, v) && Genuine(net, pkt) && IsNode(net, w)
    ensures TableFits(net, initial, HearOne(net, st, v, full, pkt), w)
  {
    assert TableFits(net, initial, st, w);
    ReactsExactly(net.ids[v], st.tables[v], pkt);
    hide React, TableOf;
    if Brings(net, v, pkt) {
      var u: nat :| IsNode(net, u) && pkt.payload == RouteConfig(net.ids[u], TableOf(net, u));
      assert u == v;
    }
  }

  lemma HearOneKeeps(net: Network, initial: seq<seq<Entry>>, st: State, v: nat, full: set<nat>, pkt: Packet)
    requires ValidNetwork(net) && Faithful(net, initial, st) && IsNode(net, v) && Genuine(net, pkt)
    ensures Faithful(net, initial, HearOne(net, st, v, full, pkt))
  {
    forall w | 1 <= w <= net.n ensures TableFits(net, initial, HearOne(net, st, v, full, pkt), w) {
      HearOneFits(net, initial, st, v, full, pkt, w);
    }
    ReactsExactly(net.ids[v], st.tables[v], pkt);
    HearOneAdds(net, st, v, full, pkt);
    hide React, TableFits, HearOne;
    var next, r := HearOne(net, st, v, full, pkt), React(net.ids[v], st.tables[v], pkt);
    if r.Relay? {
      SamePayload(net, pkt, r.pkt);
    }
    hide Genuine;
    forall i | 0 <= i < |next.queue| ensures Genuine(net, next.queue[i].pkt) {
      assert i < |st.queue| ==> next.queue[i] == st.queue[i];
    }
  }

  lemma SamePayload(net: Network, pkt: Packet, relay: Packet)
    requires ValidNetwork(net) && Genuine(net, pkt) && relay.payload == pkt.payload
    ensures Genuine(net, relay)
  {
  }

  lemma {:induction false} HearAllKeeps(net: Network, initial: seq<seq<Entry>>, st: State, hearers: seq<nat>,
                                        full: set<nat>, pkt: Packet)
    requires ValidNetwork(net) && Faithful(net, initial, st) && AllNodes(net, hearers) && Genuine(net, pkt)
    ensures Faithful(net, initial, HearAll(net, st, hearers, full, pkt))
    decreases |hearers|
  {
    if hearers != [] {
      HearOneKeeps(net, initial, st, hearers[0], full, pkt);
      HearAllKeeps(net, initial, HearOne(net, st, hearers[0], full, pkt), hearers[1..], full, pkt);
    }
  }

  lemma ConfigIsGenuine(net: Network, g: nat, rt: seq<Entry>, u: nat, ttl: int, prio: int)
    requires ValidNetwork(net) && IsNode(net, g) && IsNode(net, u)
    ensures Genuine(net, Config(net, g, rt, u, ttl, prio))
  {
  }

  lemma ConfigureKeeps(net: Network, g: nat, initial: seq<seq<Entry>>, st: State, op: Op)
    requires ValidNetwork(net) && IsNode(net, g) && Faithful(net, initial, st) && Legal(net, st, op) && op.Configure?
    ensures Faithful(net, initial, Step(net, g, st, op))
  {
    ConfigIsGenuine(net, g, st.tables[g], op.u, op.ttl, op.prio);
    hide Genuine, Config, TableOf;
    var next := Step(net, g, st, op);
    forall w | 1 <= w <= net.n ensures TableFits(net, initial, next, w) {
      assert TableFits(net, initial, st, w);
    }
  }

  lemma WithoutFaithful(net: Network, initial: seq<seq<Entry>>, st: State, k: nat)
    requires ValidNetwork(net) && Faithful(net, initial, st) && k < |st.queue|
    ensures Faithful(net, initial, st.(queue := Without(st.queue, k))) && Genuine(net, st.queue[k].pkt)
  {
    hide Genuine, TableOf;
    forall w | 1 <= w <= net.n ensures TableFits(net, initial, st.(queue := Without(st.queue, k)), w) {
      assert TableFits(net, initial, st, w);
    }
  }

  lemma TransmitKeepsFaithful(net: Network, g: nat, initial: seq<seq<Entry>>, st: State, op: Op)
    requires ValidNetwork(net) && IsNode(net, g) && Faithful(net, initial, st) && Legal(net, st, op) && op.Transmit?
    ensures Faithful(net, initial, Step(net, g, st, op))
  {
    if st.queue != [] {
      var k := op.i % |st.queue|;
      var sent := st.(queue := Without(st.queue, k));
      WithoutFaithful(net, initial, st, k);
      hide Genuine, HearAll, Faithful;
      HearAllKeeps(net, initial, sent, op.hearers, op.full, st.queue[k].pkt);
    }
  }

  lemma StepKeepsFaithful(net: Network, g: nat, initial: seq<seq<Entry>>, st: State, op: Op)
    requires ValidNetwork(net) && IsNode(net, g) && Faithful(net, initial, st) && Legal(net, st, op)
    ensures Faithful(net, initial, Step(net, g, st, op))
  {
    match op
    case Configure(_, _, _) => ConfigureKeeps(net, g, initial, st, op);
    case Transmit(_, _, _) => TransmitKeepsFaithful(net, g, initial, st, op);
    case Originate(f) =>
      assert Genuine(net, f.pkt);
      hide Genuine, TableOf;
      forall w | 1 <= w <= net.n ensures TableFits(net, initial, Step(net, g, st, op), w) {
        assert TableFits(net, initial, st, w);
      }
  }

  /** In every run, whatever else is sent, lost or relayed by nodes without a table: the nodes that have
    * received their table have the one computed for them, and all others still have the one they had.  So
    * once all have received theirs, the network is the one packets are delivered in. */
  lemma {:induction false} TablesArrive(net: Network, g: nat, initial: seq<seq<Entry>>, st: State, ops: seq<Op>)
    requires ValidNetwork(net) && IsNode(net, g) && Faithful(net, initial, st) && AllLegal(net, g, st, ops)
    ensures Faithful(net, initial, Run(net, g, st, ops))
    ensures (forall v :: 1 <= v <= net.n ==> v in Run(net, g, st, ops).configured) ==>
              forall v :: 1 <= v <= net.n ==> Run(net, g, st, ops).tables[v] == TableOf(net, v)
    decreases |ops|
  {
    hide TableOf;
    if ops != [] {
      StepKeepsFaithful(net, g, initial, st, ops[0]);
      TablesArrive(net, g, initial, Step(net, g, st, ops[0]), ops[1..]);
    }
    forall v | 1 <= v <= net.n && v in Run(net, g, st, ops).configured
      ensures Run(net, g, st, ops).tables[v] == TableOf(net, v)
    {
      assert TableFits(net, initial, Run(net, g, st, ops), v);
    }
  }

  // ---------------------------------------------------------------- alarms

  ghost predicate OnlyTables(ops: seq<Op>) {
    forall i :: 0 <= i < |ops| ==> !ops[i].Originate?
  }

  /** No node has a table yet. */
  ghost function Unconfigured(net: Network): State {
    State(seq(net.n + 1, _ => seq(net.size, _ => Blank())), [], {}, {})
  }

  /** Some node's route to another node leads through node g. */
  ghost predicate Through(net: Network, g: nat) {
    exists w: nat, u: nat :: LeadsThrough(net, g, w, u)
  }

  ghost predicate LeadsThrough(net: Network, g: nat, w: nat, u: nat) {
    && IsNode(net, w) && IsNode(net, u) && IsNode(net, g) && w != u && w != g && u != g
    && Cost(net, w, u) < INFINITY && HopTo(net, w, u) == g
  }

  lemma BlankLooksUp(size: nat, addr: nat)
    ensures Lookup(seq(size, _ => Blank()), addr) == BCAST_ADDR
  {
    if addr != BCAST_ADDR {
      LookupFirst(seq(size, _ => Blank()), addr, size);
    }
  }

  /** A table on its way, sent by a node that has no table or the right one. */
  ghost predicate Underway(net: Network, g: nat, f: Flight, u: nat)
    requires ValidNetwork(net) && IsNode(net, g)
  {
    && IsNode(net, u) && IsNode(net, f.at) && u != g && u != f.at && f.pkt.src == net.ids[g]
    && f.pkt.dest == net.ids[u] && f.pkt.payload == RouteConfig(net.ids[u], TableOf(net, u))
    && (f.pkt.nextHop == BCAST_ADDR || f.pkt.nextHop == Lookup(TableOf(net, f.at), net.ids[u]))
  }

  ghost predicate AllUnderway(net: Network, g: nat, q: seq<Flight>)
    requires ValidNetwork(net) && IsNode(net, g)
  {
    forall i :: 0 <= i < |q| ==> TableUnderway(net, g, q[i])
  }

  ghost predicate TableUnderway(net: Network, g: nat, f: Flight)
    requires ValidNetwork(net) && IsNode(net, g)
  {
    exists u: nat :: Underway(net, g, f, u)
  }

  /** Nobody has stopped, and tables only are in flight. */
  ghost predicate Quiet(net: Network, g: nat, st: State)
    requires ValidNetwork(net) && IsNode(net, g)
  {
    Faithful(net, Unconfigured(net).tables, st) && AllUnderway(net, g, st.queue) && st.stopped == {}
  }

  /** A node looks a destination up in the right table, or in none. */
  lemma LooksUp(net: Network, st: State, v: nat, addr: nat)
    requires ValidNetwork(net) && Faithful(net, Unconfigured(net).tables, st) && IsNode(net, v)
    ensures Lookup(st.tables[v], addr) == BCAST_ADDR || Lookup(st.tables[v], addr) == Lookup(TableOf(net, v), addr)
  {
    BlankLooksUp(net.size, addr);
    assert TableFits(net, Unconfigured(net).tables, st, v);
  }

  /** Unless its route leads through node g, no other node hands a packet on to it. */
  lemma NotHandedBack(net: Network, g: nat, f: Flight, u: nat)
    requires ValidNetwork(net) && IsNode(net, g) && Underway(net, g, f, u) && !Through(net, g)
    ensures f.pkt.nextHop != net.ids[g]
  {
    LookupIsFirstHop(net, f.at, u);
    Delivery.CostInRange(net, f.at, u);
    if Cost(net, f.at, u) < INFINITY && HopTo(net, f.at, u) == g {
      assert f.at != g;
      assert LeadsThrough(net, g, f.at, u);
    }
  }

  /** What a node that hears a table on its way does: installs it, relays it, or nothing. */
  lemma TableHeard(net: Network, g: nat, st: State, v: nat, f: Flight, u: nat)
    requires ValidNetwork(net) && IsNode(net, g) && Faithful(net, Unconfigured(net).tables, st) && IsNode(net, v)
    requires Underway(net, g, f, u) && f.pkt.nextHop != net.ids[g]
    ensures var r := React(net.ids[v], st.tables[v], f.pkt);
            !r.Corrupted? && (r.Relay? ==> Underway(net, g, Flight(v, r.pkt), u))
  {
    LooksUp(net, st, v, f.pkt.dest);
  }

  lemma HearOneQuiet(net: Network, g: nat, st: State, v: nat, full: set<nat>, f: Flight, u: nat)
    requires ValidNetwork(net) && IsNode(net, g) && Quiet(net, g, st) && IsNode(net, v)
    requires Underway(net, g, f, u) && !Through(net, g)
    ensures Quiet(net, g, HearOne(net, st, v, full, f.pkt))
  {
    NotHandedBack(net, g, f, u);
    TableHeard(net, g, st, v, f, u);
    assert Genuine(net, f.pkt);
    HearOneKeeps(net, Unconfigured(net).tables, st, v, full, f.pkt);
    HearOneAdds(net, st, v, full, f.pkt);
    hide HearOne, React, Faithful, Underway;
    var next := HearOne(net, st, v, full, f.pkt);
    forall i | 0 <= i < |next.queue| ensures TableUnderway(net, g, next.queue[i]) {
      if i < |st.queue| {
        assert TableUnderway(net, g, st.queue[i]);
      } else {
        assert Underway(net, g, next.queue[i], u);
      }
    }
  }

  lemma {:induction false} HearAllQuiet(net: Network, g: nat, st: State, hearers: seq<nat>, full: set<nat>,
                                        f: Flight, u: nat)
    requires ValidNetwork(net) && IsNode(net, g) && Quiet(net, g, st) && AllNodes(net, hearers)
    requires Underway(net, g, f, u) && !Through(net, g)
    ensures Quiet(net, g, HearAll(net, st, hearers, full, f.pkt))
    decreases |hearers|
  {
    if hearers != [] {
      HearOneQuiet(net, g, st, hearers[0], full, f, u);
      HearAllQuiet(net, g, HearOne(net, st, hearers[0], full, f.pkt), hearers[1..], full, f, u);
    }
  }

  lemma ConfigureQuiet(net: Network, g: nat, st: State, op: Op)
    requires ValidNetwork(net) && IsNode(net, g) && Quiet(net, g, st) && Legal(net, st, op) && op.Configure?
    ensures Quiet(net, g, Step(net, g, st, op))
  {
    StepKeepsFaithful(net, g, Unconfigured(net).tables, st, op);
    LooksUp(net, st, g, net.ids[op.u]);
    var next := Step(net, g, st, op);
    if op.u != g {
      assert Underway(net, g, Flight(g, Config(net, g, st.tables[g], op.u, op.ttl, op.prio)), op.u);
    }
    hide Underway, Faithful, Config;
    forall i | 0 <= i < |next.queue| ensures TableUnderway(net, g, next.queue[i]) {
      assert i < |st.queue| ==> TableUnderway(net, g, st.queue[i]);
    }
  }

  lemma WithoutQuiet(net: Network, g: nat, st: State, k: nat)
    requires ValidNetwork(net) && IsNode(net, g) && Quiet(net, g, st) && k < |st.queue|
    ensures Quiet(net, g, st.(queue := Without(st.queue, k)))
  {
    WithoutFaithful(net, Unconfigured(net).tables, st, k);
    hide TableUnderway, Faithful;
  }

  lemma TransmitQuiet(net: Network, g: nat, st: State, op: Op)
    requires ValidNetwork(net) && IsNode(net, g) && Quiet(net, g, st) && Legal(net, st, op) && op.Transmit?
    requires !Through(net, g)
    ensures Quiet(net, g, Step(net, g, st, op))
  {
    if st.queue != [] {
      var k := op.i % |st.queue|;
      assert TableUnderway(net, g, st.queue[k]);
      var u: nat :| Underway(net, g, st.queue[k], u);
      WithoutQuiet(net, g, st, k);
      hide Quiet, Underway, HearAll, Through, TableUnderway;
      HearAllQuiet(net, g, st.(queue := Without(st.queue, k)), op.hearers, op.full, st.queue[k], u);
    }
  }

  /** If no route leads through the gateway's node, it never finds its table corrupted. */
  lemma {:induction false} NoAlarm(net: Network, g: nat, st: State, ops: seq<Op>)
    requires ValidNetwork(net) && IsNode(net, g) && Quiet(net, g, st) && !Through(net, g)
    requires AllLegal(net, g, st, ops) && OnlyTables(ops)
    ensures Quiet(net, g, Run(net, g, st, ops))
    decreases |ops|
  {
    if ops != [] {
      assert !ops[0].Originate?;
      match ops[0] {
        case Configure(_, _, _) => ConfigureQuiet(net, g, st, ops[0]);
        case Transmit(_, _, _) => TransmitQuiet(net, g, st, ops[0]);
      }
      NoAlarm(net, g, Step(net, g, st, ops[0]), ops[1..]);
    }
  }

  /** If two nodes hear each other at all, they do both ways. */
  ghost predicate Symmetric(net: Network) {
    forall u, v :: (u, v) in net.reach ==> (v, u) in net.reach
  }

  lemma LeadsOn(net: Network, g: nat, st: State, op: Op, next: State, ops: seq<Op>)
    requires ValidNetwork(net) && Shaped(net, st) && IsNode(net, g) && Legal(net, st, op)
    requires next == Step(net, g, st, op) && AllLegal(net, g, next, ops)
    ensures AllLegal(net, g, st, [op] + ops) && Run(net, g, st, [op] + ops) == Run(net, g, next, ops)
  {
    assert ([op] + ops)[1..] == ops;
  }

  lemma Ends(net: Network, g: nat, st: State)
    requires ValidNetwork(net) && Shaped(net, st) && IsNode(net, g)
    ensures AllLegal(net, g, st, []) && Run(net, g, st, []) == st
  {
  }

  /** The table for node v, broadcast by a gateway that has none itself. */
  ghost function Broadcast(net: Network, g: nat, v: nat): Flight
    requires ValidNetwork(net) && IsNode(net, g) && IsNode(net, v)
  {
    Flight(g, Packet(net.ids[g], net.ids[v], net.ids[g], BCAST_ADDR, 2, 0, RouteConfig(net.ids[v], TableOf(net, v))))
  }

  /** No node but those of w has a table yet. */
  ghost function Partly(net: Network, w: set<nat>, q: seq<Flight>): (st: State)
    requires ValidNetwork(net)
    ensures Shaped(net, st)
  {
    State(seq(net.n + 1, v requires 0 <= v < net.n + 1 =>
            if v in w && IsNode(net, v) then TableOf(net, v) else seq(net.size, _ => Blank())), q, w, {})
  }

  lemma Broadcasts(net: Network, g: nat, w: set<nat>, v: nat)
    requires ValidNetwork(net) && IsNode(net, g) && IsNode(net, v) && v != g && g !in w
    ensures Step(net, g, Partly(net, w, []), Configure(v, 2, 0)) == Partly(net, w, [Broadcast(net, g, v)])
  {
    BlankLooksUp(net.size, net.ids[v]);
  }

  lemma HeardByOne(net: Network, g: nat, st: State, v: nat)
    requires ValidNetwork(net) && Shaped(net, st) && IsNode(net, g) && IsNode(net, v)
    requires |st.queue| == 1 && (st.queue[0].at, v) in net.reach && st.stopped == {}
    ensures Legal(net, st, Transmit(0, [v], {}))
    ensures Step(net, g, st, Transmit(0, [v], {})) == HearOne(net, st.(queue := []), v, {}, st.queue[0].pkt)
  {
    assert Without(st.queue, 0) == [];
    var sent, alone, pkt := st.(queue := []), [v], st.queue[0].pkt;
    assert alone[1..] == [];
    assert HearAll(net, sent, alone, {}, pkt) == HearAll(net, HearOne(net, sent, v, {}, pkt), [], {}, pkt);
  }

  lemma OneConfigured(net: Network, v: nat)
    requires ValidNetwork(net) && IsNode(net, v)
    ensures Partly(net, {}, []).tables[v := TableOf(net, v)] == Partly(net, {v}, []).tables
  {
  }

  lemma Receives(net: Network, g: nat, v: nat)
    requires ValidNetwork(net) && IsNode(net, g) && IsNode(net, v) && v != g && (g, v) in net.reach
    ensures var st, op := Partly(net, {}, [Broadcast(net, g, v)]), Transmit(0, [v], {});
            Legal(net, st, op) && Step(net, g, st, op) == Partly(net, {v}, [])
  {
    var st := Partly(net, {}, [Broadcast(net, g, v)]);
    var pkt := Broadcast(net, g, v).pkt;
    assert st.(queue := []) == Partly(net, {}, []);
    HeardByOne(net, g, st, v);
    OneConfigured(net, v);
    ReactsExactly(net.ids[v], st.tables[v], pkt);
    hide React, TableOf, HearAll, Step, Legal, Lookup;
    assert Brings(net, v, pkt);
    assert {} + {v} == {v};
  }

  /** The packet as node w hands it back, by the right table, to the gateway it comes from. */
  ghost function HandedBack(net: Network, g: nat, w: nat, u: nat): Flight
    requires ValidNetwork(net) && IsNode(net, g) && IsNode(net, w) && IsNode(net, u)
  {
    Flight(w, Broadcast(net, g, u).pkt.(ttl := 1, prevHop := net.ids[w], nextHop := net.ids[g]))
  }

  lemma HandsBack(net: Network, g: nat, w: nat, u: nat)
    requires ValidNetwork(net) && LeadsThrough(net, g, w, u) && (g, w) in net.reach
    ensures var st, op := Partly(net, {w}, [Broadcast(net, g, u)]), Transmit(0, [w], {});
            Legal(net, st, op) && Step(net, g, st, op) == Partly(net, {w}, [HandedBack(net, g, w, u)])
  {
    var st := Partly(net, {w}, [Broadcast(net, g, u)]);
    HeardByOne(net, g, st, w);
    LookupIsFirstHop(net, w, u);
    Delivery.IdsDiffer(net, w, u);
    assert React(net.ids[w], st.tables[w], Broadcast(net, g, u).pkt) == Relay(HandedBack(net, g, w, u).pkt);
  }

  lemma Stops(net: Network, g: nat, w: nat, u: nat)
    requires ValidNetwork(net) && LeadsThrough(net, g, w, u) && (w, g) in net.reach
    ensures var st, op := Partly(net, {w}, [HandedBack(net, g, w, u)]), Transmit(0, [g], {});
            Legal(net, st, op) && Step(net, g, st, op) == Partly(net, {w}, []).(stopped := {g})
  {
    var st := Partly(net, {w}, [HandedBack(net, g, w, u)]);
    HeardByOne(net, g, st, g);
    Delivery.IdsDiffer(net, g, u);
    assert React(net.ids[g], st.tables[g], HandedBack(net, g, w, u).pkt) == Corrupted;
  }

  /** The table for node u goes out and comes back. */
  ghost function ThereAndBack(g: nat, w: nat, u: nat): seq<Op> {
    [Configure(u, 2, 0)] + ([Transmit(0, [w], {})] + [Transmit(0, [g], {})])
  }

  lemma ComesBack(net: Network, g: nat, w: nat, u: nat)
    requires ValidNetwork(net) && LeadsThrough(net, g, w, u) && (g, w) in net.reach && (w, g) in net.reach
    ensures AllLegal(net, g, Partly(net, {w}, []), ThereAndBack(g, w, u))
    ensures Run(net, g, Partly(net, {w}, []), ThereAndBack(g, w, u)) == Partly(net, {w}, []).(stopped := {g})
  {
    Broadcasts(net, g, {w}, u);
    HandsBack(net, g, w, u);
    Stops(net, g, w, u);
    hide Step, Legal, Partly, Broadcast, HandedBack, LeadsThrough, ValidNetwork, AllLegal, Run;
    var end := Partly(net, {w}, []).(stopped := {g});
    var last := [Transmit(0, [g], {})];
    assert last + [] == last;
    Ends(net, g, end);
    LeadsOn(net, g, Partly(net, {w}, [HandedBack(net, g, w, u)]), Transmit(0, [g], {}), end, []);
    LeadsOn(net, g, Partly(net, {w}, [Broadcast(net, g, u)]), Transmit(0, [w], {}),
            Partly(net, {w}, [HandedBack(net, g, w, u)]), last);
    LeadsOn(net, g, Partly(net, {w}, []), Configure(u, 2, 0), Partly(net, {w}, [Broadcast(net, g, u)]),
            [Transmit(0, [w], {})] + last);
  }

  lemma GoesOut(net: Network, g: nat, w: nat, ops: seq<Op>)
    requires ValidNetwork(net) && IsNode(net, g) && IsNode(net, w) && w != g && (g, w) in net.reach
    requires AllLegal(net, g, Partly(net, {w}, []), ops)
    ensures AllLegal(net, g, Partly(net, {}, []), [Configure(w, 2, 0)] + ([Transmit(0, [w], {})] + ops))
    ensures Run(net, g, Partly(net, {}, []), [Configure(w, 2, 0)] + ([Transmit(0, [w], {})] + ops)) ==
            Run(net, g, Partly(net, {w}, []), ops)
  {
    Broadcasts(net, g, {}, w);
    Receives(net, g, w);
    hide Step, Legal, Partly, Broadcast, AllLegal, Run, TableOf;
    LeadsOn(net, g, Partly(net, {}, [Broadcast(net, g, w)]), Transmit(0, [w], {}), Partly(net, {w}, []), ops);
    LeadsOn(net, g, Partly(net, {}, []), Configure(w, 2, 0), Partly(net, {}, [Broadcast(net, g, w)]),
            [Transmit(0, [w], {})] + ops);
  }

  lemma NextToGateway(net: Network, g: nat, w: nat, u: nat)
    requires Delivery.Covered(net) && Symmetric(net) && LeadsThrough(net, g, w, u)
    ensures (w, g) in net.reach && (g, w) in net.reach
  {
    RoundsKeepInvariant(net.n, net.links, net.n);
    assert (w, g) in net.links;
  }

  lemma StartsBlank(net: Network)
    requires ValidNetwork(net)
    ensures Unconfigured(net) == Partly(net, {}, [])
  {
  }

  /** The gateway sends node w its table, and then, still without one itself, broadcasts the table for node u.
    * Node w hands it back, and the gateway finds its own table corrupted. */
  lemma AlarmRun(net: Network, g: nat, w: nat, u: nat)
    requires Delivery.Covered(net) && Symmetric(net) && LeadsThrough(net, g, w, u)
    ensures var ops := [Configure(w, 2, 0)] + ([Transmit(0, [w], {})] + ThereAndBack(g, w, u));
            && AllLegal(net, g, Unconfigured(net), ops) && OnlyTables(ops)
            && g in Run(net, g, Unconfigured(net), ops).stopped
  {
    NextToGateway(net, g, w, u);
    StartsBlank(net);
    ComesBack(net, g, w, u);
    hide Partly, Unconfigured, LeadsThrough, Symmetric, AllLegal, Run, TableOf;
    GoesOut(net, g, w, ThereAndBack(g, w, u));
  }

  /** Some run of sending out tables makes a node find its table corrupted. */
  ghost predicate AlarmPossible(net: Network, g: nat)
    requires ValidNetwork(net) && IsNode(net, g)
  {
    exists ops :: AllLegal(net, g, Unconfigured(net), ops) && OnlyTables(ops)
                  && Run(net, g, Unconfigured(net), ops).stopped != {}
  }

  /** Every table sent is right, and yet a node can find its table corrupted while they are sent out: exactly
    * if some node's route to another leads through the gateway's own node. */
  lemma AlarmExactly(net: Network, g: nat)
    requires Delivery.Covered(net) && Symmetric(net) && IsNode(net, g)
    ensures AlarmPossible(net, g) <==> Through(net, g)
  {
    if Through(net, g) {
      var w: nat, u: nat :| LeadsThrough(net, g, w, u);
      AlarmRun(net, g, w, u);
    } else if AlarmPossible(net, g) {
      var ops :| AllLegal(net, g, Unconfigured(net), ops) && OnlyTables(ops)
                 && Run(net, g, Unconfigured(net), ops).stopped != {};
      NoAlarm(net, g, Unconfigured(net), ops);
    }
  }
}
