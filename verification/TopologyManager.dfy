/** The gateway's topology manager as it updates its list in place, and the path from that list to the
  * matrices, the shortest paths and the nodes' routing tables.
  */
module TopologyManager {
  import opened FloydWarshall
  import opened RoutingTables
  import opened NeighborTable
  import opened Topology
  import opened TopologyInvariants
  import opened TopologyHistory

  lemma {:induction false} FoundAt(nodes: seq<SensorNode>, addr: nat, k: nat)
    requires k <= |nodes| && (k < |nodes| ==> nodes[k].addr == addr)
    requires forall i :: 0 <= i < k ==> nodes[i].addr != addr
    ensures FindNode(nodes, addr) == k
  {
    if k > 0 {
      assert nodes[0].addr != addr;
      FoundAt(nodes[1..], addr, k - 1);
    }
  }

  lemma {:induction false} SenderAt(ngbs: seq<Slot>, who: nat, k: nat)
    requires k <= |ngbs| && (k < |ngbs| ==> ngbs[k].addr == who)
    requires forall i :: 0 <= i < k ==> ngbs[i].addr != who
    ensures FindSender(ngbs, who) == k
  {
    if k > 0 {
      assert ngbs[0].addr != who;
      SenderAt(ngbs[1..], who, k - 1);
    }
  }

  // ---------------------------------------------------------------- loops over one node's array

  /** The scan of a node's array for the sender, remembering free places, and the update after it. */
  method RecordAt(was: SensorNode, who: nat, rssi: int, free: nat) returns (node: SensorNode, freeIndex: nat)
    requires |was.ngbs| == MAX_NGBS && free < MAX_NGBS && who != BCAST_ADDR
    ensures freeIndex == Scanned(was.ngbs, who, free)
    ensures freeIndex < MAX_NGBS && node == Recorded(was, who, rssi, freeIndex)
  {
    node, freeIndex := was, free;
    var j := 0;
    while j < MAX_NGBS
      invariant 0 <= j <= MAX_NGBS && freeIndex < MAX_NGBS
      invariant freeIndex == FreeIndex(was.ngbs[..j], free)
      invariant forall i :: 0 <= i < j ==> was.ngbs[i].addr != who
    {
      if was.ngbs[j].addr == who {
        SenderAt(was.ngbs, who, j);
        node := node.(ngbs := node.ngbs[j := Slot(who, rssi, GATEWAY_TIMEOUT + 1, false)]);
        return;
      }
      assert was.ngbs[..j + 1][..j] == was.ngbs[..j];
      if was.ngbs[j].addr == BCAST_ADDR {
        freeIndex := j;
      }
      j := j + 1;
    }
    SenderAt(was.ngbs, who, j);
    node := node.(ngbs := node.ngbs[freeIndex := Slot(who, rssi, GATEWAY_TIMEOUT + 1, true)], count := node.count + 1);
  }

  /** One iteration of the ageing pass. */
  method AgeSlot(was: SensorNode, i: nat, flag: bool) returns (node: SensorNode, found: bool)
    requires i < |was.ngbs| && (flag ==> 0 <= was.n < |was.ngbs|)
    ensures var s := OlderSlot(was.ngbs[i]);
            && node.ngbs == was.ngbs[i := s] && node.addr == was.addr
            && node.count == was.count -
                  (if was.ngbs[i].addr != BCAST_ADDR && was.ngbs[i].lastReport - 1 == 0 then 1 else 0)
            && found == (flag || s.addr != BCAST_ADDR)
            && node.n == (if s.addr != BCAST_ADDR && (!flag || node.ngbs[was.n].rssi < s.rssi) then i else was.n)
  {
    node, found := was, flag;
    if node.ngbs[i].addr != BCAST_ADDR {
      node := node.(ngbs := node.ngbs[i := node.ngbs[i].(lastReport := node.ngbs[i].lastReport - 1)]);
      if node.ngbs[i].lastReport == 0 {
        node := node.(ngbs := node.ngbs[i := EmptySlot()], count := node.count - 1);
      } else if !found {
        node := node.(n := i);
        found := true;
      } else if node.ngbs[node.n].rssi < node.ngbs[i].rssi {
        node := node.(n := i);
      }
    }
  }

  /** The ageing pass over one node's array, which also finds its strongest neighbour. */
  method AgeNode(was: SensorNode) returns (node: SensorNode)
    requires |was.ngbs| == MAX_NGBS
    ensures node == OlderNode(was)
  {
    node := was;
    var flag := false;
    var i := 0;
    ghost var aged := OlderSlots(was.ngbs);
    while i < MAX_NGBS
      invariant 0 <= i <= MAX_NGBS && |node.ngbs| == MAX_NGBS && node.addr == was.addr
      invariant forall j :: 0 <= j < i ==> node.ngbs[j] == aged[j]
      invariant forall j :: i <= j < MAX_NGBS ==> node.ngbs[j] == was.ngbs[j]
      invariant node.count == was.count - Lapsed(was.ngbs[..i])
      invariant flag == AnyUsed(aged[..i])
      invariant node.n == Strongest(aged[..i], was.n)
    {
      assert was.ngbs[..i + 1][..i] == was.ngbs[..i];
      OneMoreSlot(aged, i, was.n);
      node, flag := AgeSlot(node, i, flag);
      i := i + 1;
    }
    assert was.ngbs[..MAX_NGBS] == was.ngbs && aged[..MAX_NGBS] == aged;
    assert node.ngbs == aged;
  }

  /** How the strongest place changes when one more slot is looked at. */
  lemma OneMoreSlot(ngbs: seq<Slot>, i: nat, n: int)
    requires i < |ngbs|
    ensures AnyUsed(ngbs[..i + 1]) <==> AnyUsed(ngbs[..i]) || ngbs[i].addr != BCAST_ADDR
    ensures AnyUsed(ngbs[..i]) ==> 0 <= Strongest(ngbs[..i], n) < i
    ensures Strongest(ngbs[..i + 1], n) ==
            if ngbs[i].addr == BCAST_ADDR then Strongest(ngbs[..i], n)
            else if !AnyUsed(ngbs[..i]) then i
            else if ngbs[Strongest(ngbs[..i], n)].rssi < ngbs[i].rssi then i
            else Strongest(ngbs[..i], n)
  {
    assert ngbs[..i + 1][..i] == ngbs[..i];
    UsedOfPrefix(ngbs[..i + 1]);
  }

  /** The pruning loop over one node's array. */
  method PruneNode(was: SensorNode) returns (node: SensorNode)
    requires |was.ngbs| == MAX_NGBS && PointsSomewhere(was)
    ensures node == PrunedNode(was)
  {
    node := was;
    var i := 0;
    while i < MAX_NGBS
      invariant 0 <= i <= MAX_NGBS && |node.ngbs| == MAX_NGBS && node.addr == was.addr && node.n == was.n
      invariant forall j :: 0 <= j < i ==> node.ngbs[j] == PrunedSlots(was, was.ngbs)[j]
      invariant forall j :: i <= j < MAX_NGBS ==> node.ngbs[j] == was.ngbs[j]
      invariant node.count == was.count - PrunedCount(was, was.ngbs[..i])
    {
      assert was.ngbs[..i + 1][..i] == was.ngbs[..i];
      assert IsWeak(was.ngbs[i]) ==> 0 <= was.n < |was.ngbs|;
      if node.ngbs[i].rssi < RX_POWER_THRESHOLD && node.ngbs[node.n].addr != node.ngbs[i].addr {
        node := node.(ngbs := node.ngbs[i := EmptySlot()], count := node.count - 1);
      }
      i := i + 1;
    }
    assert was.ngbs[..MAX_NGBS] == was.ngbs;
    assert node.ngbs == PrunedSlots(was, was.ngbs);
  }

  // ---------------------------------------------------------------- the link graph

  /** Slot i of node a stores node b. */
  ghost predicate SlotNames(nodes: seq<SensorNode>, a: nat, i: nat, b: nat)
    requires 1 <= a <= |nodes| && 1 <= b <= |nodes|
  {
    && i < |nodes[a - 1].ngbs| && nodes[a - 1].ngbs[i].addr != BCAST_ADDR
    && nodes[a - 1].ngbs[i].addr == nodes[b - 1].addr
  }

  /** Some stored neighbour among the first m of node a is node b; vertices count from 1. */
  ghost predicate EdgeWithin(nodes: seq<SensorNode>, a: nat, b: nat, m: nat)
    requires 1 <= a <= |nodes| && 1 <= b <= |nodes|
  {
    exists i: nat :: i < m && SlotNames(nodes, a, i, b)
  }

  ghost predicate Edge(nodes: seq<SensorNode>, a: nat, b: nat) {
    1 <= a <= |nodes| && 1 <= b <= |nodes| && EdgeWithin(nodes, a, b, MAX_NGBS)
  }

  ghost function LinksOf(nodes: seq<SensorNode>): Links {
    set a: nat, b: nat | a <= |nodes| && b <= |nodes| && Edge(nodes, a, b) :: (a, b)
  }

  /** The Map array: vertex to address. */
  function IdsOf(nodes: seq<SensorNode>): (ids: seq<nat>)
    ensures |ids| == |nodes| + 1
    ensures forall k :: 0 <= k < |nodes| ==> ids[k + 1] == nodes[k].addr
  {
    [INVALID_ADDRESS] + seq(|nodes|, k requires 0 <= k < |nodes| => nodes[k].addr)
  }

  /** node_to_graph(): the vertex of an address, or the invalid address. */
  method NodeToGraph(ghost nodes: seq<SensorNode>, ids: seq<nat>, addr: nat) returns (v: nat)
    requires ids == IdsOf(nodes)
    ensures v == if IsListed(nodes, addr) then FindNode(nodes, addr) + 1 else INVALID_ADDRESS
  {
    v := 1;
    while v < |ids|
      invariant 1 <= v <= |ids|
      invariant forall k :: 0 <= k < v - 1 ==> nodes[k].addr != addr
    {
      if ids[v] == addr {
        FoundAt(nodes, addr, v - 1);
        return;
      }
      v := v + 1;
    }
    FoundAt(nodes, addr, |nodes|);
    v := INVALID_ADDRESS;
  }

  /** The cost of the pair (a, b) when only the first m slots of node a have been looked at. */
  ghost function Initially(nodes: seq<SensorNode>, a: nat, b: nat, m: nat): nat {
    if 1 <= a <= |nodes| && 1 <= b <= |nodes| && EdgeWithin(nodes, a, b, m) then 1
    else if a == b then 0
    else INFINITY
  }

  lemma EdgeOneMore(nodes: seq<SensorNode>, a: nat, b: nat, i: nat)
    requires 1 <= a <= |nodes| && 1 <= b <= |nodes|
    ensures EdgeWithin(nodes, a, b, i + 1) <==> EdgeWithin(nodes, a, b, i) || SlotNames(nodes, a, i, b)
  {
    if j: nat :| j < i + 1 && SlotNames(nodes, a, j, b) {
      assert j == i || EdgeWithin(nodes, a, b, i);
    }
  }

  /** The column of a stored neighbour is the only vertex with its address. */
  lemma OnlyColumn(nodes: seq<SensorNode>, addr: nat, b: nat)
    requires DistinctNodes(nodes) && IsListed(nodes, addr) && 1 <= b <= |nodes|
    ensures nodes[b - 1].addr == addr <==> b == FindNode(nodes, addr) + 1
  {
  }

  /** One row of the cost matrix: an entry of 1 for every stored neighbour. */
  method FillRow(nodes: seq<SensorNode>, ids: seq<nat>, row: nat, cost: array2<nat>)
    requires ListSound(nodes, GATEWAY_TIMEOUT) && ids == IdsOf(nodes) && 1 <= row <= |nodes|
    requires cost.Length0 == cost.Length1 == |nodes| + 1
    requires forall b :: 0 <= b <= |nodes| ==> cost[row, b] == Initially(nodes, row, b, 0)
    modifies cost
    ensures forall b :: 0 <= b <= |nodes| ==> cost[row, b] == Initially(nodes, row, b, MAX_NGBS)
    ensures forall a, b :: 0 <= a <= |nodes| && 0 <= b <= |nodes| && a != row ==> cost[a, b] == old(cost[a, b])
  {
    var node := nodes[row - 1];
    assert NodeSound(node, GATEWAY_TIMEOUT) && NeighborsListed(nodes, node);
    var i := 0;
    while i < MAX_NGBS
      invariant 0 <= i <= MAX_NGBS
      invariant forall b :: 0 <= b <= |nodes| ==> cost[row, b] == Initially(nodes, row, b, i)
      invariant forall a, b :: 0 <= a <= |nodes| && 0 <= b <= |nodes| && a != row ==> cost[a, b] == old(cost[a, b])
    {
      var column := INVALID_ADDRESS;
      if node.ngbs[i].addr != BCAST_ADDR {
        column := NodeToGraph(nodes, ids, node.ngbs[i].addr);
        cost[row, column] := 1;
      }
      assert forall b :: 0 <= b <= |nodes| ==>
        cost[row, b] == if column != INVALID_ADDRESS && b == column then 1 else Initially(nodes, row, b, i);
      forall b | 0 <= b <= |nodes| ensures Initially(nodes, row, b, i + 1) ==
        if column != INVALID_ADDRESS && b == column then 1 else Initially(nodes, row, b, i)
      {
        InitiallyOneMore(nodes, row, b, i, column);
      }
      i := i + 1;
    }
  }

  lemma InitiallyOneMore(nodes: seq<SensorNode>, row: nat, b: nat, i: nat, column: nat)
    requires DistinctNodes(nodes) && 1 <= row <= |nodes| && b <= |nodes| && i < |nodes[row - 1].ngbs|
    requires var s := nodes[row - 1].ngbs[i];
             if s.addr == BCAST_ADDR then column == INVALID_ADDRESS
             else IsListed(nodes, s.addr) && column == FindNode(nodes, s.addr) + 1
    ensures Initially(nodes, row, b, i + 1) ==
            if column != INVALID_ADDRESS && b == column then 1 else Initially(nodes, row, b, i)
  {
    if b >= 1 {
      EdgeOneMore(nodes, row, b, i);
      if column != INVALID_ADDRESS {
        OnlyColumn(nodes, nodes[row - 1].ngbs[i].addr, b);
      }
    }
  }

  /** Preparation of the cost and parent matrices: exactly what the shortest-path algorithm expects for
    * the graph of stored neighbours. */
  method PrepareMatrices(nodes: seq<SensorNode>, ids: seq<nat>) returns (cost: array2<nat>, parent: array2<nat>)
    requires ListSound(nodes, GATEWAY_TIMEOUT) && ids == IdsOf(nodes)
    ensures fresh(cost) && fresh(parent) && cost != parent
    ensures cost.Length0 == cost.Length1 == parent.Length0 == parent.Length1 == |nodes| + 1
    ensures Tables(Rows(cost), Rows(parent)) == Prepared(|nodes|, LinksOf(nodes))
  {
    var n := |nodes|;
    cost := new nat[n + 1, n + 1]((i, j) => if i == j then 0 else INFINITY);
    parent := new nat[n + 1, n + 1]((_, _) => NO_PARENT);
    var row := 1;
    while row <= n
      invariant 1 <= row <= n + 1
      invariant forall a, b :: 0 <= a <= n && 0 <= b <= n ==> parent[a, b] == NO_PARENT
      invariant forall a, b :: 0 <= a <= n && 0 <= b <= n ==>
                  cost[a, b] == Initially(nodes, a, b, if a < row then MAX_NGBS else 0)
    {
      FillRow(nodes, ids, row, cost);
      row := row + 1;
    }
    MatricesPrepared(nodes, Rows(cost), Rows(parent));
  }

  lemma MatricesPrepared(nodes: seq<SensorNode>, cost: Matrix, parent: Matrix)
    requires Square(|nodes|, cost) && Square(|nodes|, parent)
    requires forall a, b :: 0 <= a <= |nodes| && 0 <= b <= |nodes| ==> cost[a][b] == Initially(nodes, a, b, MAX_NGBS)
    requires forall a, b :: 0 <= a <= |nodes| && 0 <= b <= |nodes| ==> parent[a][b] == NO_PARENT
    ensures Tables(cost, parent) == Prepared(|nodes|, LinksOf(nodes))
  {
    var t := Prepared(|nodes|, LinksOf(nodes));
    forall a | 0 <= a <= |nodes| ensures cost[a] == t.cost[a] && parent[a] == t.parent[a] {
      forall b | 0 <= b <= |nodes| ensures cost[a][b] == t.cost[a][b] {
        assert (a, b) in LinksOf(nodes) <==> Edge(nodes, a, b);
      }
    }
  }

  /** The matrices prepared and solved. */
  method SolveMatrices(nodes: seq<SensorNode>, ids: seq<nat>) returns (cost: array2<nat>, parent: array2<nat>)
    requires ListSound(nodes, GATEWAY_TIMEOUT) && ids == IdsOf(nodes) && |nodes| <= MAX_COUNT
    ensures fresh(cost) && fresh(parent)
    ensures Tables(Rows(cost), Rows(parent)) == Solved(|nodes|, LinksOf(nodes))
  {
    cost, parent := PrepareMatrices(nodes, ids);
    RunInPlace(|nodes|, parent, cost);
  }

  // ---------------------------------------------------------------- the manager

  class Manager {
    var nodes: seq<SensorNode>
    var count: int

    ghost predicate Valid()
      reads this
    {
      ListSound(nodes, GATEWAY_TIMEOUT) && AllPointAtStrongest(nodes) && Shaped(nodes) && count == |nodes|
    }

    constructor ()
      ensures Valid() && nodes == []
    {
      nodes, count := [], 0;
    }

    /** The search all of the list's users begin with. */
    method Find(addr: nat) returns (k: nat)
      ensures k == FindNode(nodes, addr)
    {
      k := 0;
      while k < |nodes|
        invariant 0 <= k <= |nodes|
        invariant forall i :: 0 <= i < k ==> nodes[i].addr != addr
      {
        if nodes[k].addr == addr {
          break;
        }
        k := k + 1;
      }
      FoundAt(nodes, addr, k);
    }

    method AddToSensorNodeList(addr: nat)
      modifies this
      ensures nodes == AddNode(old(nodes), addr) && count == old(count) + |nodes| - |old(nodes)|
    {
      var k := Find(addr);
      if k == |nodes| {
        nodes, count := nodes + [CreateNode(addr)], count + 1;
      }
    }

    /** process_topology_desc(); unset is what free_index holds before it is first assigned. */
    method ProcessTopologyDesc(r: Report, unset: nat)
      requires Valid() && r.myAddr != BCAST_ADDR && unset < MAX_NGBS
      modifies this
      ensures Valid() && nodes == Process(old(nodes), r, unset)
      ensures TotalExcess(nodes) == TotalExcess(old(nodes)) + old(OverflowsOf(nodes, r, unset))
    {
      ProcessKeepsSound(nodes, r, unset);
      AddToSensorNodeList(r.myAddr);
      RecordReport(r, unset);
      Age();
    }

    method RecordReport(r: Report, unset: nat)
      requires Shaped(nodes) && count == |nodes| && r.myAddr != BCAST_ADDR && unset < MAX_NGBS
      modifies this
      ensures Shaped(nodes) && count == |nodes| && nodes == ReportAll(old(nodes), r.myAddr, r.ngbs, unset)
    {
      var freeIndex: nat := unset;
      var i := 0;
      while i < |r.ngbs|
        invariant 0 <= i <= |r.ngbs| && freeIndex < MAX_NGBS && Shaped(nodes) && count == |nodes|
        invariant ReportAll(nodes, r.myAddr, r.ngbs[i..], freeIndex) == ReportAll(old(nodes), r.myAddr, r.ngbs, unset)
      {
        assert r.ngbs[i..][1..] == r.ngbs[i + 1..];
        freeIndex := RecordEntry(r.myAddr, r.ngbs[i], freeIndex);
        i := i + 1;
      }
    }

    method RecordEntry(who: nat, n: Hello, free: nat) returns (freeIndex: nat)
      requires Shaped(nodes) && count == |nodes| && who != BCAST_ADDR && free < MAX_NGBS
      modifies this
      ensures Shaped(nodes) && count == |nodes|
      ensures (nodes, freeIndex) == ReportOne(old(nodes), who, n, free)
    {
      freeIndex := free;
      if n.addr == BCAST_ADDR {
        return;
      }
      var k := Find(n.addr);
      if k == |nodes| {
        AddToSensorNodeList(n.addr);
        var node := nodes[k];
        node := node.(ngbs := node.ngbs[0 := Slot(who, n.rssi, GATEWAY_TIMEOUT + 1, true)], count := node.count + 1);
        nodes := nodes[k := node];
        assert nodes == old(nodes) + [NewlyHeard(n.addr, who, n.rssi)];
      } else {
        var node;
        node, freeIndex := RecordAt(nodes[k], who, n.rssi, free);
        nodes := nodes[k := node];
      }
    }

    method Age()
      requires Shaped(nodes) && count == |nodes|
      modifies this
      ensures nodes == OlderNodes(old(nodes)) && count == |nodes|
    {
      var k := 0;
      while k < |nodes|
        invariant 0 <= k <= |nodes| == |old(nodes)| && count == |nodes|
        invariant forall j :: 0 <= j < k ==> nodes[j] == OlderNode(old(nodes)[j])
        invariant forall j :: k <= j < |nodes| ==> nodes[j] == old(nodes)[j]
      {
        var node := AgeNode(nodes[k]);
        nodes := nodes[k := node];
        k := k + 1;
      }
    }

    /** Prunes weak links and makes the map from vertices to addresses. */
    method Prune() returns (ids: seq<nat>)
      requires Shaped(nodes) && forall k :: 0 <= k < |nodes| ==> PointsSomewhere(nodes[k])
      modifies this`nodes
      ensures nodes == Pruned(old(nodes)) && ids == IdsOf(nodes)
    {
      var k := 0;
      ids := [INVALID_ADDRESS];
      while k < |nodes|
        invariant 0 <= k <= |nodes| == |old(nodes)| && |ids| == k + 1
        invariant forall j :: 0 <= j < k ==> nodes[j] == PrunedNode(old(nodes)[j])
        invariant forall j :: k <= j < |nodes| ==> nodes[j] == old(nodes)[j]
        invariant ids[0] == INVALID_ADDRESS && forall j :: 0 <= j < k ==> ids[j + 1] == old(nodes)[j].addr
      {
        var node := PruneNode(nodes[k]);
        ids := ids + [nodes[k].addr];
        nodes := nodes[k := node];
        k := k + 1;
      }
      assert nodes == Pruned(old(nodes));
    }

    /** generate_routing_tables(): prunes, maps, prepares the matrices and solves them. */
    method GenerateRoutingTables() returns (ids: seq<nat>, cost: array2<nat>, parent: array2<nat>)
      requires Valid() && |nodes| <= MAX_COUNT
      modifies this
      ensures Valid() && nodes == Pruned(old(nodes)) && ids == IdsOf(nodes)
      ensures fresh(cost) && fresh(parent)
      ensures Tables(Rows(cost), Rows(parent)) == Solved(|nodes|, LinksOf(nodes))
    {
      PrunedKeepsSound(nodes);
      ids := Prune();
      cost, parent := SolveMatrices(nodes, ids);
    }
  }

  // ---------------------------------------------------------------- from reports to routes

  ghost predicate AddressesValid(nodes: seq<SensorNode>) {
    forall k :: 0 <= k < |nodes| ==> nodes[k].addr != BCAST_ADDR && nodes[k].addr != INVALID_ADDRESS
  }

  /** Reports come from and name real nodes. */
  ghost predicate Named(e: Event) {
    e.Hears? ==>
      && e.r.myAddr != INVALID_ADDRESS
      && forall i :: 0 <= i < |e.r.ngbs| ==> e.r.ngbs[i].addr != INVALID_ADDRESS
  }

  lemma {:induction false} ReportAllAddresses(nodes: seq<SensorNode>, who: nat, ngbs: seq<Hello>, free: nat)
    requires Shaped(nodes) && free < MAX_NGBS && AddressesValid(nodes)
    requires forall i :: 0 <= i < |ngbs| ==> ngbs[i].addr != INVALID_ADDRESS
    ensures AddressesValid(ReportAll(nodes, who, ngbs, free))
    decreases |ngbs|
  {
    if ngbs != [] {
      var (next, f) := ReportOne(nodes, who, ngbs[0], free);
      ReportAllAddresses(next, who, ngbs[1..], f);
    }
  }

  lemma {:induction false} RunsKeepAddresses(events: seq<Event>)
    requires forall i :: 0 <= i < |events| ==> Genuine(events[i]) && Named(events[i])
    ensures AddressesValid(AfterEvents(events))
  {
    if events != [] {
      var rest := events[..|events| - 1];
      var e := events[|events| - 1];
      assert Genuine(e) && Named(e);
      RunsKeepAddresses(rest);
      if e.Hears? {
        ReportAllAddresses(AddNode(AfterEvents(rest), e.r.myAddr), e.r.myAddr, e.r.ngbs, e.unset);
      }
    }
  }

  /** The network whose routes the gateway computes for a list of nodes, with any radio reach. */
  ghost function NetworkOf(nodes: seq<SensorNode>, size: nat, reach: Links): Network {
    Network(|nodes|, LinksOf(nodes), IdsOf(nodes), size, reach)
  }

  /** After any run of genuine reports and prunings the graph has a vertex for every address, all
    * different, so tables built from it compose as RoutingTables and Delivery say. */
  lemma GraphIsANetwork(events: seq<Event>, size: nat, reach: Links)
    requires forall i :: 0 <= i < |events| ==> Genuine(events[i]) && Named(events[i])
    requires |AfterEvents(events)| <= size && |AfterEvents(events)| <= MAX_COUNT
    ensures ValidNetwork(NetworkOf(AfterEvents(events), size, reach))
  {
    RunsKeepSound(events);
    RunsKeepAddresses(events);
    var nodes := AfterEvents(events);
    var ids := IdsOf(nodes);
    forall i, j | 1 <= i <= |nodes| && 1 <= j <= |nodes| && ids[i] == ids[j] ensures i == j {
      assert nodes[i - 1].addr == nodes[j - 1].addr;
    }
  }

  ghost predicate Remembered(nodes: seq<SensorNode>, x: nat, y: nat) {
    exists r, v :: Stored(nodes, x, y, r, v)
  }

  lemma EntryIsEdge(nodes: seq<SensorNode>, a: nat, b: nat, r: int, v: int)
    requires ListSound(nodes, GATEWAY_TIMEOUT) && AddressesValid(nodes) && 1 <= a <= |nodes| && 1 <= b <= |nodes|
    requires Stored(nodes, nodes[a - 1].addr, nodes[b - 1].addr, r, v)
    ensures (a, b) in LinksOf(nodes)
  {
    FindNodeIs(nodes, a - 1);
    assert NodeSound(nodes[a - 1], GATEWAY_TIMEOUT);
    var ngbs := nodes[a - 1].ngbs;
    var i: nat :| i < |ngbs| && ngbs[i].addr == nodes[b - 1].addr && ngbs[i].lastReport == r && ngbs[i].rssi == v;
    assert SlotNames(nodes, a, i, b);
  }

  lemma EdgeIsEntry(nodes: seq<SensorNode>, a: nat, b: nat)
    requires ListSound(nodes, GATEWAY_TIMEOUT) && AddressesValid(nodes) && 1 <= a <= |nodes| && 1 <= b <= |nodes|
    ensures (a, b) in LinksOf(nodes) <==>
            Remembered(nodes, nodes[a - 1].addr, nodes[b - 1].addr)
  {
    var x, y := nodes[a - 1].addr, nodes[b - 1].addr;
    var ngbs := nodes[a - 1].ngbs;
    if i: nat :| i < MAX_NGBS && SlotNames(nodes, a, i, b) {
      FindNodeIs(nodes, a - 1);
      assert NodeSound(nodes[a - 1], GATEWAY_TIMEOUT);
      assert Listed(ngbs, y, ngbs[i].lastReport, ngbs[i].rssi);
      assert Stored(nodes, x, y, ngbs[i].lastReport, ngbs[i].rssi);
    }
    if r, v :| Stored(nodes, x, y, r, v) {
      EntryIsEdge(nodes, a, b, r, v);
    }
  }

  /** After any run: a link from a to b means that a report that b heard a has neither expired nor been
    * pruned; and the converse holds too if the run has dropped nothing. */
  lemma LinksAreReports(events: seq<Event>, a: nat, b: nat)
    requires forall i :: 0 <= i < |events| ==> Genuine(events[i]) && Named(events[i])
    requires 1 <= a <= |AfterEvents(events)| && 1 <= b <= |AfterEvents(events)|
    ensures (a, b) in LinksOf(AfterEvents(events)) ==>
              Known(events, AfterEvents(events)[a - 1].addr, AfterEvents(events)[b - 1].addr).Some?
    ensures TotalDropped(events) == 0 &&
                Known(events, AfterEvents(events)[a - 1].addr, AfterEvents(events)[b - 1].addr).Some? ==>
              (a, b) in LinksOf(AfterEvents(events))
  {
    var nodes := AfterEvents(events);
    var x, y := nodes[a - 1].addr, nodes[b - 1].addr;
    RunsKeepSound(events);
    RunsKeepAddresses(events);
    EdgeIsEntry(nodes, a, b);
    if r, v :| Stored(nodes, x, y, r, v) {
      StoredIsKnown(events, x, y, r, v);
    }
    if TotalDropped(events) == 0 && Known(events, x, y).Some? {
      KnownIsStored(events, x, y, Known(events, x, y).value.0, Known(events, x, y).value.1);
    }
  }

  /** After a route computation vertex a is heard by those who are known to hear it well enough, and by
    * best. */
  ghost predicate HeardByStrength(events: seq<Event>, a: nat, best: nat)
    requires forall i :: 0 <= i < |events| ==> Genuine(events[i])
  {
    var after := AfterEvents(events + [Computes]);
    1 <= a <= |after| &&
    forall b: nat :: 1 <= b <= |after| ==>
      ((a, b) in LinksOf(after) <==>
         var known := Known(events, after[a - 1].addr, after[b - 1].addr);
         known.Some? && (known.value.1 >= RX_POWER_THRESHOLD || after[b - 1].addr == best))
  }

  lemma ComputesSame(events: seq<Event>)
    requires forall i :: 0 <= i < |events| ==> Genuine(events[i])
    ensures forall i :: 0 <= i < |events + [Computes]| ==> Genuine((events + [Computes])[i])
    ensures AfterEvents(events + [Computes]) == Pruned(AfterEvents(events))
    ensures TotalDropped(events + [Computes]) == TotalDropped(events)
  {
    assert (events + [Computes])[..|events|] == events;
  }

  lemma ComputedLink(events: seq<Event>, a: nat, b: nat)
    requires forall i :: 0 <= i < |events| ==> Genuine(events[i]) && Named(events[i])
    requires TotalDropped(events) == 0 && 1 <= a <= |AfterEvents(events)| && 1 <= b <= |AfterEvents(events)|
    ensures var nodes := AfterEvents(events);
            && nodes[b - 1].addr != BCAST_ADDR
            && ((a, b) in LinksOf(Pruned(nodes)) <==>
                  KnownAfterPruning(Known(events, nodes[a - 1].addr, nodes[b - 1].addr),
                                    NamesStrongest(nodes, nodes[a - 1].addr, nodes[b - 1].addr)).Some?)
  {
    hide Known, AfterEvents, TotalDropped, LinksOf;
    var nodes := AfterEvents(events);
    RunsKeepAddresses(events);
    ComputesSame(events);
    LinksAreReports(events + [Computes], a, b);
    KnownAfterComputes(events, nodes[a - 1].addr, nodes[b - 1].addr);
  }

  /** The links of a node after a route computation: of all who are known to hear it, those who hear it
    * well enough and one of those who hear it best. */
  lemma ComputedLinks(events: seq<Event>, a: nat, some: nat)
    requires forall i :: 0 <= i < |events| ==> Genuine(events[i]) && Named(events[i])
    requires TotalDropped(events) == 0 && 1 <= a <= |AfterEvents(events)| && some != BCAST_ADDR
    requires Known(events, AfterEvents(events)[a - 1].addr, some).Some?
    ensures exists best: nat :: Spares(events, AfterEvents(events)[a - 1].addr, best)
                && HeardByStrength(events, a, best)
  {
    hide Known, AfterEvents, TotalDropped, LinksOf, NamesStrongest;
    var nodes := AfterEvents(events);
    var x := nodes[a - 1].addr;
    ComputesSame(events);
    ComputedLink(events, a, a);
    PruningByStrength(events, x, some);
    var best: nat :| best != BCAST_ADDR && Spares(events, x, best);
    forall b: nat | 1 <= b <= |nodes|
      ensures (a, b) in LinksOf(Pruned(nodes)) <==>
              var known := Known(events, x, nodes[b - 1].addr);
              known.Some? && (known.value.1 >= RX_POWER_THRESHOLD || nodes[b - 1].addr == best)
    {
      ComputedLink(events, a, b);
      KnownAfterComputes(events, x, nodes[b - 1].addr);
    }
    assert HeardByStrength(events, a, best);
  }

  /** The links are exactly the standing reports. */
  ghost predicate LinksFaithful(events: seq<Event>)
    requires forall i :: 0 <= i < |events| ==> Genuine(events[i])
  {
    var nodes := AfterEvents(events);
    forall a: nat, b: nat :: 1 <= a <= |nodes| && 1 <= b <= |nodes| ==>
      ((a, b) in LinksOf(nodes) <==> Known(events, nodes[a - 1].addr, nodes[b - 1].addr).Some?)
  }

  ghost predicate AlwaysFaithful(events: seq<Event>)
    requires forall i :: 0 <= i < |events| ==> Genuine(events[i])
  {
    (events == [] || AlwaysFaithful(events[..|events| - 1])) && LinksFaithful(events)
  }

  lemma RememberedLinks(events: seq<Event>)
    requires forall i :: 0 <= i < |events| ==> Genuine(events[i]) && Named(events[i])
    requires forall x, y :: !Forgotten(events, x, y)
    ensures LinksFaithful(events)
  {
    hide Known, AfterEvents, ListSound, LinksOf;
    var nodes := AfterEvents(events);
    RunsKeepSound(events);
    RunsKeepAddresses(events);
    forall a: nat, b: nat | 1 <= a <= |nodes| && 1 <= b <= |nodes|
      ensures (a, b) in LinksOf(nodes) <==> Known(events, nodes[a - 1].addr, nodes[b - 1].addr).Some?
    {
      LinksAreReports(events, a, b);
      EdgeIsEntry(nodes, a, b);
      assert !Forgotten(events, nodes[a - 1].addr, nodes[b - 1].addr);
    }
  }

  lemma ForgottenLink(events: seq<Event>, x: nat, y: nat)
    requires forall i :: 0 <= i < |events| ==> Genuine(events[i]) && Named(events[i])
    requires Forgotten(events, x, y)
    ensures !LinksFaithful(events)
  {
    hide Known, AfterEvents, ListSound;
    var nodes := AfterEvents(events);
    RunsKeepSound(events);
    RunsKeepAddresses(events);
    KnownIsListed(events, x, y);
    EdgeIsEntry(nodes, FindNode(nodes, x) + 1, FindNode(nodes, y) + 1);
  }

  /** At every moment of a run the links are exactly the standing reports, if and only if no entry of a
    * report has thrown out a neighbour that would have outlived it. */
  lemma {:induction false} LinksFaithfulExactly(events: seq<Event>)
    requires forall i :: 0 <= i < |events| ==> Genuine(events[i]) && Named(events[i])
    ensures AlwaysFaithful(events) <==> TotalDropped(events) == 0
  {
    NeverForgetsExactly(events);
    if x: nat, y: nat :| Forgotten(events, x, y) {
      ForgottenLink(events, x, y);
    } else {
      RememberedLinks(events);
    }
    if events != [] {
      NeverForgetsExactly(events[..|events| - 1]);
      LinksFaithfulExactly(events[..|events| - 1]);
    }
  }
}
