/** From neighbour reports at the gateway to packets at their destinations. */
module EndToEnd {
  import opened FloydWarshall
  import opened ShortestPaths
  import opened RoutingTables
  import opened TopologyInvariants
  import opened TopologyHistory
  import opened TopologyManager
  import Delivery

  ghost predicate AllGenuine(events: seq<Event>) {
    forall i :: 0 <= i < |events| ==> Genuine(events[i]) && Named(events[i])
  }

  /** Each node on the chain is one the next has reported hearing, in a report that still stands. */
  ghost predicate ReportChain(events: seq<Event>, p: seq<nat>, s: nat, d: nat)
    requires AllGenuine(events)
  {
    var nodes := AfterEvents(events);
    && |p| >= 1 && p[0] == s && p[|p| - 1] == d
    && (forall x :: 0 <= x < |p| ==> 1 <= p[x] <= |nodes|)
    && (forall x :: 0 <= x < |p| - 1 ==> StillStands(events, p[x], p[x + 1]))
  }

  /** A report that vertex b heard vertex a has neither expired nor been pruned. */
  ghost predicate StillStands(events: seq<Event>, a: nat, b: nat)
    requires AllGenuine(events)
  {
    var nodes := AfterEvents(events);
    && 1 <= a <= |nodes| && 1 <= b <= |nodes|
    && Known(events, nodes[a - 1].addr, nodes[b - 1].addr).Some?
  }

  /** A link is a standing report; if nothing has been dropped, each standing report is a link. */
  lemma StandingIsLink(events: seq<Event>, a: nat, b: nat)
    requires AllGenuine(events)
    ensures (a, b) in LinksOf(AfterEvents(events)) ==> StillStands(events, a, b)
    ensures TotalDropped(events) == 0 && StillStands(events, a, b) ==> (a, b) in LinksOf(AfterEvents(events))
  {
    var nodes := AfterEvents(events);
    if 1 <= a <= |nodes| && 1 <= b <= |nodes| {
      LinksAreReports(events, a, b);
    }
  }

  lemma ChainsAreWalks(events: seq<Event>, p: seq<nat>, s: nat, d: nat)
    requires AllGenuine(events)
    ensures IsWalk(|AfterEvents(events)|, LinksOf(AfterEvents(events)), p, s, d) ==> ReportChain(events, p, s, d)
    ensures TotalDropped(events) == 0 && ReportChain(events, p, s, d) ==>
              IsWalk(|AfterEvents(events)|, LinksOf(AfterEvents(events)), p, s, d)
  {
    forall x | 0 <= x < |p| - 1
      ensures (p[x], p[x + 1]) in LinksOf(AfterEvents(events)) ==> StillStands(events, p[x], p[x + 1])
      ensures TotalDropped(events) == 0 && StillStands(events, p[x], p[x + 1]) ==>
                (p[x], p[x + 1]) in LinksOf(AfterEvents(events))
    {
      StandingIsLink(events, p[x], p[x + 1]);
    }
  }

  /** Some chain of standing reports leads from s to d in at most ttl hops, and fewer than INFINITY. */
  ghost predicate Chained(events: seq<Event>, s: nat, d: nat, ttl: int)
    requires AllGenuine(events)
  {
    exists p :: ReportChain(events, p, s, d) && |p| - 1 <= ttl && |p| - 1 < INFINITY
  }

  /** A chain of standing reports is a walk, if nothing has been dropped, and walks are such chains. */
  lemma ChainedIsNear(events: seq<Event>, size: nat, reach: Links, s: nat, d: nat, ttl: int)
    requires AllGenuine(events)
    ensures var net := NetworkOf(AfterEvents(events), size, reach);
            && (Delivery.Near(net, s, d, ttl) ==> Chained(events, s, d, ttl))
            && (TotalDropped(events) == 0 && Chained(events, s, d, ttl) ==> Delivery.Near(net, s, d, ttl))
  {
    var net := NetworkOf(AfterEvents(events), size, reach);
    if p :| ReportChain(events, p, s, d) && |p| - 1 <= ttl && |p| - 1 < INFINITY {
      ChainsAreWalks(events, p, s, d);
      assert TotalDropped(events) == 0 ==> IsWalk(net.n, net.links, p, s, d);
    }
    if p :| IsWalk(net.n, net.links, p, s, d) && |p| - 1 <= ttl && |p| - 1 < INFINITY {
      ChainsAreWalks(events, p, s, d);
    }
  }

  /** Suppose every node has the table the gateway computed from the reports it received, and hears at least
    * the nodes the gateway has it hear.  Then an application packet sent through the idle network to another
    * node corrupts no table, and is delivered once for each node on its route that the destination hears: at
    * least once, if a chain of standing reports no longer than its time to live leads there and no report has
    * thrown out a standing one at the gateway.  If no node hears more than the gateway has it hear, it is
    * delivered at most once, and only if there is such a chain. */
  lemma ReportsDecideDelivery(events: seq<Event>, size: nat, reach: Links, op: Delivery.Op, ops: seq<Delivery.Op>)
    requires AllGenuine(events)
    requires |AfterEvents(events)| <= size && |AfterEvents(events)| <= MAX_COUNT
    requires LinksOf(AfterEvents(events)) <= reach
    requires var net := NetworkOf(AfterEvents(events), size, reach);
             && op.Send? && Delivery.Legal(net, op) && op.s != op.d
             && Delivery.OnlyTransmits(ops) && Delivery.AllLegal(net, ops) && |ops| >= op.ttl
    ensures var net := NetworkOf(AfterEvents(events), size, reach);
            && Delivery.Covered(net) && Delivery.Sound(net, Delivery.Step(net, Delivery.Quiet(), op))
            && var end := Delivery.Run(net, Delivery.Step(net, Delivery.Quiet(), op), ops);
               var m := Delivery.Message(op.d, net.ids[op.s], net.ids[op.d], op.id);
               && end.queue == [] && !end.corrupted
               && end.delivered == Delivery.Times(m, Delivery.Copies(net, op.s, op.d, op.ttl))
               && (TotalDropped(events) == 0 && Chained(events, op.s, op.d, op.ttl) ==> m in end.delivered)
               && (reach == LinksOf(AfterEvents(events)) && end.delivered != multiset{} ==>
                     end.delivered == multiset{m} && Chained(events, op.s, op.d, op.ttl))
  {
    var net := NetworkOf(AfterEvents(events), size, reach);
    GraphIsANetwork(events, size, reach);
    ChainedIsNear(events, size, reach, op.s, op.d, op.ttl);
    Delivery.DeliveredExactlyIfNear(net, op, ops);
  }

  /** A packet a node sends to itself is delivered, once, if and only if the node hears itself. */
  lemma HearingOneself(events: seq<Event>, size: nat, reach: Links, op: Delivery.Op, ops: seq<Delivery.Op>)
    requires AllGenuine(events)
    requires |AfterEvents(events)| <= size && |AfterEvents(events)| <= MAX_COUNT
    requires LinksOf(AfterEvents(events)) <= reach
    requires var net := NetworkOf(AfterEvents(events), size, reach);
             && op.Send? && Delivery.Legal(net, op) && op.s == op.d
             && Delivery.OnlyTransmits(ops) && Delivery.AllLegal(net, ops) && |ops| >= op.ttl
    ensures var net := NetworkOf(AfterEvents(events), size, reach);
            && Delivery.Covered(net) && Delivery.Sound(net, Delivery.Step(net, Delivery.Quiet(), op))
            && var end := Delivery.Run(net, Delivery.Step(net, Delivery.Quiet(), op), ops);
               var m := Delivery.Message(op.d, net.ids[op.s], net.ids[op.d], op.id);
               && end.queue == [] && !end.corrupted
               && end.delivered == if (op.s, op.s) in reach then multiset{m} else multiset{}
  {
    var net := NetworkOf(AfterEvents(events), size, reach);
    GraphIsANetwork(events, size, reach);
    Delivery.DeliveredExactlyIfNear(net, op, ops);
  }
}
