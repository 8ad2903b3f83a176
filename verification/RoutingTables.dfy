/** The routing table the gateway builds for one node, the look-up a node does in it, and how
  * independent look-ups at successive nodes compose into one shortest route.
  */
module RoutingTables {
  import opened FloydWarshall
  import opened ShortestPaths

  const BCAST_ADDR: nat := 65535
  const INVALID_ADDRESS: nat := 0
  const MAX_COUNT: nat := 126

  datatype Entry = Entry(dest: nat, nextHop: nat, cost: nat)

  function Blank(): Entry {
    Entry(BCAST_ADDR, BCAST_ADDR, INFINITY)
  }

  // ---------------------------------------------------------------- the gateway's side

  /** The address of the first hop from row to column; ids maps graph vertices to node addresses. */
  function NextHop(n: nat, ghost links: Links, t: Tables, ids: seq<nat>, row: nat, column: nat): nat
    requires Invariant(n, links, n, t) && |ids| == n + 1 && 1 <= row <= n && 1 <= column <= n
  {
    if t.cost[row][column] == INFINITY then INVALID_ADDRESS else ids[GetParent(n, links, t, row, column)]
  }

  function TableFor(n: nat, ghost links: Links, t: Tables, ids: seq<nat>, row: nat, size: nat): (rt: seq<Entry>)
    requires Invariant(n, links, n, t) && |ids| == n + 1 && 1 <= row <= n
    ensures |rt| == size
    ensures forall i :: 0 <= i < size && i < n ==>
              rt[i] == Entry(ids[i + 1], NextHop(n, links, t, ids, row, i + 1), t.cost[row][i + 1])
    ensures forall i :: n <= i < size ==> rt[i] == Blank()
  {
    seq(size, i requires 0 <= i < size =>
      if i < n then Entry(ids[i + 1], NextHop(n, links, t, ids, row, i + 1), t.cost[row][i + 1]) else Blank())
  }

  method InitialiseRoutingTable(rt: array<Entry>)
    modifies rt
    ensures forall i :: 0 <= i < rt.Length ==> rt[i] == Blank()
  {
    for i := 0 to rt.Length
      invariant forall j :: 0 <= j < i ==> rt[j] == Blank()
    {
      rt[i] := Blank();
    }
  }

  /** One row of disseminate_routing_tables(). */
  method BuildTable(n: nat, ghost links: Links, t: Tables, ids: seq<nat>, row: nat, rt: array<Entry>)
    requires Invariant(n, links, n, t) && |ids| == n + 1 && 1 <= row <= n <= rt.Length
    modifies rt
    ensures rt[..] == TableFor(n, links, t, ids, row, rt.Length)
  {
    InitialiseRoutingTable(rt);
    var column, i := 1, 0;
    while column <= n
      invariant column == i + 1 && 0 <= i <= n
      invariant forall k :: 0 <= k < rt.Length ==>
                  rt[k] == if k < i then TableFor(n, links, t, ids, row, rt.Length)[k] else Blank()
    {
      var hop := INVALID_ADDRESS;
      if t.cost[row][column] != INFINITY {
        hop := ids[GetParent(n, links, t, row, column)];
      }
      rt[i] := Entry(ids[column], hop, t.cost[row][column]);
      column, i := column + 1, i + 1;
    }
  }

  // ---------------------------------------------------------------- the node's side

  /** The first matching entry's next hop, or the broadcast address. */
  function Lookup(rt: seq<Entry>, addr: nat): nat {
    if addr == BCAST_ADDR || rt == [] then BCAST_ADDR
    else if rt[0].dest == addr then rt[0].nextHop
    else Lookup(rt[1..], addr)
  }

  lemma {:induction false} LookupFirst(rt: seq<Entry>, addr: nat, k: nat)
    requires k <= |rt| && addr != BCAST_ADDR
    requires k < |rt| ==> rt[k].dest == addr
    requires forall i :: 0 <= i < k ==> rt[i].dest != addr
    ensures Lookup(rt, addr) == if k < |rt| then rt[k].nextHop else BCAST_ADDR
  {
    if k > 0 {
      assert rt[0].dest != addr;
      LookupFirst(rt[1..], addr, k - 1);
    }
  }

  /** route_addr() over the node's table. */
  method RouteAddr(rt: array<Entry>, addr: nat) returns (hop: nat)
    ensures hop == Lookup(rt[..], addr)
  {
    if addr == BCAST_ADDR {
      return BCAST_ADDR;
    }
    var i := 0;
    while i < rt.Length
      invariant 0 <= i <= rt.Length
      invariant forall j :: 0 <= j < i ==> rt[j].dest != addr
    {
      if rt[i].dest != BCAST_ADDR {
        if rt[i].dest == addr {
          LookupFirst(rt[..], addr, i);
          return rt[i].nextHop;
        }
      }
      i := i + 1;
    }
    LookupFirst(rt[..], addr, i);
    hop := BCAST_ADDR;
  }

  // ---------------------------------------------------------------- a network of nodes

  /** n nodes with addresses ids[1..n].  (u, v) in links when the gateway has v as hearing u, and in reach
    * when v does hear u.  Every node's table has size entries. */
  datatype Network = Network(n: nat, links: Links, ids: seq<nat>, size: nat, reach: Links)

  ghost predicate ValidIds(n: nat, ids: seq<nat>) {
    && |ids| == n + 1
    && (forall i :: 1 <= i <= n ==> ids[i] != INVALID_ADDRESS && ids[i] != BCAST_ADDR)
    && (forall i, j :: 1 <= i <= n && 1 <= j <= n && ids[i] == ids[j] ==> i == j)
  }

  ghost predicate ValidNetwork(net: Network) {
    net.n <= net.size && net.n <= MAX_COUNT && ValidIds(net.n, net.ids)
  }

  ghost predicate IsNode(net: Network, u: nat) {
    1 <= u <= net.n
  }

  ghost function Cost(net: Network, u: nat, v: nat): (c: nat)
    requires IsNode(net, u) && IsNode(net, v)
  {
    Solved(net.n, net.links).cost[u][v]
  }

  /** The table the gateway sends to node u. */
  ghost function TableOf(net: Network, u: nat): seq<Entry>
    requires ValidNetwork(net) && IsNode(net, u)
  {
    RoundsKeepInvariant(net.n, net.links, net.n);
    TableFor(net.n, net.links, Solved(net.n, net.links), net.ids, u, net.size)
  }

  /** The first hop of a shortest route from u to dest. */
  ghost function HopTo(net: Network, u: nat, dest: nat): (h: nat)
    requires IsNode(net, u) && IsNode(net, dest)
    ensures IsNode(net, h)
  {
    RoundsKeepInvariant(net.n, net.links, net.n);
    GetParent(net.n, net.links, Solved(net.n, net.links), u, dest)
  }

  /** What node u finds for dest in its table: the first hop, or the invalid address if there is no route. */
  lemma LookupIsFirstHop(net: Network, u: nat, dest: nat)
    requires ValidNetwork(net) && IsNode(net, u) && IsNode(net, dest)
    ensures Lookup(TableOf(net, u), net.ids[dest]) ==
            if Cost(net, u, dest) == INFINITY then INVALID_ADDRESS else net.ids[HopTo(net, u, dest)]
  {
    var rt := TableOf(net, u);
    forall i | 0 <= i < dest - 1 ensures rt[i].dest != net.ids[dest] {
    }
    LookupFirst(rt, net.ids[dest], dest - 1);
  }

  /** Addresses outside the network are broadcast. */
  lemma LookupUnknown(net: Network, u: nat, addr: nat)
    requires ValidNetwork(net) && IsNode(net, u)
    requires forall i :: 1 <= i <= net.n ==> net.ids[i] != addr
    ensures Lookup(TableOf(net, u), addr) == BCAST_ADDR
  {
    RoundsKeepInvariant(net.n, net.links, net.n);
    if addr != BCAST_ADDR {
      LookupFirst(TableOf(net, u), addr, net.size);
    }
  }

  /** The nodes a packet visits when every node forwards by its own table. */
  ghost function Followed(net: Network, u: nat, dest: nat): (p: seq<nat>)
    requires IsNode(net, u) && IsNode(net, dest) && (u != dest ==> Cost(net, u, dest) < INFINITY)
    decreases if u == dest then 0 else Cost(net, u, dest)
  {
    if u == dest then [u]
    else
      [u] + Followed(net, HopTo(net, u, dest), dest)
  }

  ghost predicate TablesLead(net: Network, p: seq<nat>, dest: nat)
    requires ValidNetwork(net) && IsNode(net, dest)
  {
    forall x: nat :: x + 1 < |p| ==> TableLeads(net, p, dest, x)
  }

  /** The table of the node at place x on the route names the node at place x + 1. */
  ghost predicate TableLeads(net: Network, p: seq<nat>, dest: nat, x: nat)
    requires ValidNetwork(net) && IsNode(net, dest) && x + 1 < |p|
  {
    IsNode(net, p[x]) && IsNode(net, p[x + 1]) && Lookup(TableOf(net, p[x]), net.ids[dest]) == net.ids[p[x + 1]]
  }

  ghost function HopsLeft(net: Network, u: nat, dest: nat): nat
    requires IsNode(net, u) && IsNode(net, dest)
  {
    if u == dest then 0 else Cost(net, u, dest)
  }

  ghost predicate HasRoute(net: Network, u: nat, dest: nat) {
    IsNode(net, u) && IsNode(net, dest) && (u != dest ==> Cost(net, u, dest) < INFINITY)
  }

  lemma {:induction false} FollowedShape(net: Network, u: nat, dest: nat)
    requires HasRoute(net, u, dest)
    ensures var p := Followed(net, u, dest);
            |p| == 1 + HopsLeft(net, u, dest) && p[0] == u && p[|p| - 1] == dest
    decreases HopsLeft(net, u, dest)
  {
    if u != dest {
      FollowedShape(net, HopTo(net, u, dest), dest);
    }
  }

  lemma SuffixOfCons(u: nat, rest: seq<nat>, x: nat)
    requires 1 <= x <= |rest|
    ensures ([u] + rest)[x] == rest[x - 1] && ([u] + rest)[x..] == rest[x - 1..]
  {
  }

  /** The rest of a route is the route from there on. */
  lemma {:induction false} FollowedSuffix(net: Network, u: nat, dest: nat, x: nat)
    requires HasRoute(net, u, dest) && x <= HopsLeft(net, u, dest)
    ensures |Followed(net, u, dest)| == 1 + HopsLeft(net, u, dest)
    ensures var v := Followed(net, u, dest)[x];
            && HasRoute(net, v, dest) && HopsLeft(net, v, dest) == HopsLeft(net, u, dest) - x
            && Followed(net, u, dest)[x..] == Followed(net, v, dest)
    decreases HopsLeft(net, u, dest)
  {
    FollowedShape(net, u, dest);
    if x > 0 {
      var h := HopTo(net, u, dest);
      FollowedSuffix(net, h, dest, x - 1);
      SuffixOfCons(u, Followed(net, h, dest), x);
    }
  }

  lemma FollowedStep(net: Network, u: nat, dest: nat, x: nat)
    requires ValidNetwork(net) && HasRoute(net, u, dest) && x < HopsLeft(net, u, dest)
    ensures |Followed(net, u, dest)| == 1 + HopsLeft(net, u, dest)
    ensures var p := Followed(net, u, dest); (p[x], p[x + 1]) in net.links && TableLeads(net, p, dest, x)
  {
    FollowedSuffix(net, u, dest, x);
    var p := Followed(net, u, dest);
    FollowedShape(net, HopTo(net, p[x], dest), dest);
    assert p[x + 1] == p[x..][1] == HopTo(net, p[x], dest);
    LookupIsFirstHop(net, p[x], dest);
  }

  /** Hop-by-hop composition: if every node uses the table built for it, a packet follows a walk in the
    * link graph to its destination, in exactly as many hops as the cost, visiting no node twice; and no
    * walk is shorter. */
  lemma TablesCompose(net: Network, u: nat, dest: nat)
    requires ValidNetwork(net) && IsNode(net, u) && IsNode(net, dest) && u != dest && Cost(net, u, dest) < INFINITY
    ensures var p := Followed(net, u, dest);
            && IsWalk(net.n, net.links, p, u, dest) && |p| - 1 == Cost(net, u, dest)
            && Distinct(p) && TablesLead(net, p, dest)
    ensures forall q :: IsWalk(net.n, net.links, q, u, dest) ==> |Followed(net, u, dest)| <= |q|
  {
    var p := Followed(net, u, dest);
    FollowedShape(net, u, dest);
    forall x | 0 <= x < |p| ensures 1 <= p[x] <= net.n {
      FollowedSuffix(net, u, dest, x);
    }
    forall x: nat | x + 1 < |p| ensures (p[x], p[x + 1]) in net.links && TableLeads(net, p, dest, x) {
      FollowedStep(net, u, dest, x);
    }
    forall x, y | 0 <= x < y < |p| ensures p[x] != p[y] {
      FollowedSuffix(net, u, dest, x);
      FollowedSuffix(net, u, dest, y);
    }
    CostIsShortest(net.n, net.links, u, dest);
  }
}
