/** What every neighbour report and every pruning keeps of the gateway's topology, and exactly which
  * reports make a node's count wrong.
  */
module TopologyInvariants {
  import opened RoutingTables
  import opened NeighborTable
  import opened Topology

  // ---------------------------------------------------------------- one node

  /** Unused slots are blank, used ones name different senders and have time left. */
  ghost predicate NodeSound(node: SensorNode, limit: int) {
    && |node.ngbs| == MAX_NGBS
    && DistinctSenders(node.ngbs)
    && (forall i :: 0 <= i < MAX_NGBS && node.ngbs[i].addr == BCAST_ADDR ==> node.ngbs[i].rssi == 0)
    && (forall i :: 0 <= i < MAX_NGBS && node.ngbs[i].addr != BCAST_ADDR ==> 1 <= node.ngbs[i].lastReport <= limit)
    && Used(node.ngbs) <= node.count
  }

  /** n names a used slot of maximal strength, if any slot is used. */
  ghost predicate PointsAtStrongest(node: SensorNode) {
    AnyUsed(node.ngbs) ==>
      && 0 <= node.n < |node.ngbs| && node.ngbs[node.n].addr != BCAST_ADDR
      && forall i :: 0 <= i < |node.ngbs| && node.ngbs[i].addr != BCAST_ADDR ==>
           node.ngbs[i].rssi <= node.ngbs[node.n].rssi
  }

  /** By how much count exceeds the number of used slots. */
  ghost function Excess(node: SensorNode): int {
    node.count - Used(node.ngbs)
  }

  /** There is a slot for a report from who. */
  predicate HasRoom(ngbs: seq<Slot>, who: nat) {
    Has(ngbs, who) || Has(ngbs, BCAST_ADDR)
  }

  lemma CreatedIsSound(addr: nat)
    ensures NodeSound(CreateNode(addr), GATEWAY_TIMEOUT) && Excess(CreateNode(addr)) == 0
    ensures PointsAtStrongest(CreateNode(addr)) && !AnyUsed(CreateNode(addr).ngbs)
  {
    UsedNone(CreateNode(addr).ngbs);
  }

  lemma NewlyHeardIsSound(addr: nat, who: nat, rssi: int)
    requires who != BCAST_ADDR
    ensures NodeSound(NewlyHeard(addr, who, rssi), GATEWAY_TIMEOUT + 1) && Excess(NewlyHeard(addr, who, rssi)) == 0
  {
    var node := CreateNode(addr);
    CreatedIsSound(addr);
    UsedAfterStore(node.ngbs, 0, Slot(who, rssi, GATEWAY_TIMEOUT + 1, true));
  }

  /** Recording a report keeps the node sound, wherever free_index points; the count comes out right
    * exactly if there was room. */
  lemma RecordedIsSound(node: SensorNode, who: nat, rssi: int, free: nat)
    requires NodeSound(node, GATEWAY_TIMEOUT + 1) && who != BCAST_ADDR && free < MAX_NGBS
    requires Has(node.ngbs, BCAST_ADDR) && !Has(node.ngbs, who) ==> node.ngbs[free].addr == BCAST_ADDR
    ensures NodeSound(Recorded(node, who, rssi, free), GATEWAY_TIMEOUT + 1)
    ensures Excess(Recorded(node, who, rssi, free)) == Excess(node) + (if HasRoom(node.ngbs, who) then 0 else 1)
  {
    var j := FindSender(node.ngbs, who);
    if j < |node.ngbs| {
      UsedAfterStore(node.ngbs, j, Slot(who, rssi, GATEWAY_TIMEOUT + 1, false));
    } else {
      UsedAfterStore(node.ngbs, free, Slot(who, rssi, GATEWAY_TIMEOUT + 1, true));
      if !Has(node.ngbs, BCAST_ADDR) {
        assert node.ngbs[free].addr != BCAST_ADDR;
      }
    }
  }

  lemma {:induction false} UsedAfterAgeing(ngbs: seq<Slot>)
    ensures Used(OlderSlots(ngbs)) == Used(ngbs) - Lapsed(ngbs)
  {
    if ngbs != [] {
      var last := |ngbs| - 1;
      UsedAfterAgeing(ngbs[..last]);
      assert OlderSlots(ngbs)[..last] == OlderSlots(ngbs[..last]);
    }
  }

  lemma OlderIsSound(node: SensorNode)
    requires NodeSound(node, GATEWAY_TIMEOUT + 1)
    ensures NodeSound(OlderNode(node), GATEWAY_TIMEOUT) && PointsAtStrongest(OlderNode(node))
    ensures Excess(OlderNode(node)) == Excess(node)
  {
    UsedAfterAgeing(node.ngbs);
  }

  // ---------------------------------------------------------------- pruning one node

  lemma {:induction false} UsedAfterPruning(node: SensorNode, ngbs: seq<Slot>)
    requires forall i :: 0 <= i < |ngbs| && ngbs[i].addr == BCAST_ADDR ==> ngbs[i].rssi == 0
    ensures Used(PrunedSlots(node, ngbs)) == Used(ngbs) - PrunedCount(node, ngbs)
  {
    if ngbs != [] {
      var last := |ngbs| - 1;
      UsedAfterPruning(node, ngbs[..last]);
      assert PrunedSlots(node, ngbs)[..last] == PrunedSlots(node, ngbs[..last]);
    }
  }

  /** The pruning never follows a null pointer, keeps the node sound and the strongest link, and removes
    * exactly the other links below the threshold; so a node that had a neighbour still has one. */
  lemma PruningKeepsStrongest(node: SensorNode)
    requires NodeSound(node, GATEWAY_TIMEOUT) && PointsAtStrongest(node)
    ensures PointsSomewhere(node)
    ensures NodeSound(PrunedNode(node), GATEWAY_TIMEOUT) && PointsAtStrongest(PrunedNode(node))
    ensures Excess(PrunedNode(node)) == Excess(node)
    ensures AnyUsed(node.ngbs) <==> AnyUsed(PrunedNode(node).ngbs)
    ensures forall i :: 0 <= i < MAX_NGBS && node.ngbs[i].addr != BCAST_ADDR ==>
              (PrunedNode(node).ngbs[i] == node.ngbs[i] <==> !IsWeak(node.ngbs[i]) || i == node.n)
  {
    UsedAfterPruning(node, node.ngbs);
    var after := PrunedNode(node).ngbs;
    if i :| 0 <= i < |node.ngbs| && IsWeak(node.ngbs[i]) {
      assert node.ngbs[i].addr != BCAST_ADDR;
    }
    if AnyUsed(node.ngbs) {
      assert after[node.n] == node.ngbs[node.n];
    }
  }

  // ---------------------------------------------------------------- the whole list

  ghost predicate DistinctNodes(nodes: seq<SensorNode>) {
    forall a, b :: 0 <= a < b < |nodes| ==> nodes[a].addr != nodes[b].addr
  }

  predicate IsListed(nodes: seq<SensorNode>, addr: nat) {
    FindNode(nodes, addr) < |nodes|
  }

  /** Every stored neighbour is itself in the list of nodes. */
  ghost predicate NeighborsListed(nodes: seq<SensorNode>, node: SensorNode) {
    forall i :: 0 <= i < |node.ngbs| && node.ngbs[i].addr != BCAST_ADDR ==> IsListed(nodes, node.ngbs[i].addr)
  }

  ghost predicate ListSound(nodes: seq<SensorNode>, limit: int) {
    && DistinctNodes(nodes)
    && (forall k :: 0 <= k < |nodes| ==> NodeSound(nodes[k], limit))
    && (forall k :: 0 <= k < |nodes| ==> NeighborsListed(nodes, nodes[k]))
  }

  ghost predicate AllPointAtStrongest(nodes: seq<SensorNode>) {
    forall k :: 0 <= k < |nodes| ==> PointsAtStrongest(nodes[k])
  }

  /** By how much the counts exceed the numbers of used slots, over all nodes. */
  ghost function TotalExcess(nodes: seq<SensorNode>): int {
    if nodes == [] then 0 else TotalExcess(nodes[..|nodes| - 1]) + Excess(nodes[|nodes| - 1])
  }

  lemma {:induction false} ExcessUpdate(nodes: seq<SensorNode>, k: nat, node: SensorNode)
    requires k < |nodes|
    ensures TotalExcess(nodes[k := node]) == TotalExcess(nodes) - Excess(nodes[k]) + Excess(node)
  {
    var last := |nodes| - 1;
    if k == last {
      assert nodes[k := node][..last] == nodes[..last];
    } else {
      ExcessUpdate(nodes[..last], k, node);
      assert nodes[k := node][..last] == nodes[..last][k := node];
    }
  }

  lemma {:induction false} ExcessPointwise(a: seq<SensorNode>, b: seq<SensorNode>)
    requires |a| == |b| && forall k :: 0 <= k < |a| ==> Excess(a[k]) == Excess(b[k])
    ensures TotalExcess(a) == TotalExcess(b)
  {
    if a != [] {
      ExcessPointwise(a[..|a| - 1], b[..|b| - 1]);
    }
  }

  lemma {:induction false} NoExcessExactly(nodes: seq<SensorNode>)
    requires forall k :: 0 <= k < |nodes| ==> Excess(nodes[k]) >= 0
    ensures TotalExcess(nodes) >= 0
    ensures TotalExcess(nodes) == 0 <==> forall k :: 0 <= k < |nodes| ==> nodes[k].count == Used(nodes[k].ngbs)
  {
    if nodes != [] {
      var last := |nodes| - 1;
      NoExcessExactly(nodes[..last]);
      if forall k :: 0 <= k < last ==> nodes[..last][k].count == Used(nodes[..last][k].ngbs) {
        forall k | 0 <= k < last ensures nodes[k].count == Used(nodes[k].ngbs) {
          assert nodes[..last][k] == nodes[k];
        }
      } else {
        var k :| 0 <= k < last && nodes[..last][k].count != Used(nodes[..last][k].ngbs);
        assert nodes[..last][k] == nodes[k];
      }
    }
  }

  lemma {:induction false} FindNodeIs(nodes: seq<SensorNode>, k: nat)
    requires DistinctNodes(nodes) && k < |nodes|
    ensures FindNode(nodes, nodes[k].addr) == k
  {
  }

  lemma FindSame(a: seq<SensorNode>, b: seq<SensorNode>, addr: nat)
    requires |a| <= |b| && forall k :: 0 <= k < |a| ==> a[k].addr == b[k].addr
    ensures IsListed(a, addr) ==> IsListed(b, addr) && FindNode(a, addr) == FindNode(b, addr)
  {
    var k := FindNode(a, addr);
    if k < |a| {
      assert b[k].addr == addr;
    }
  }

  lemma NeighborsStayListed(a: seq<SensorNode>, b: seq<SensorNode>, node: SensorNode)
    requires |a| <= |b| && forall k :: 0 <= k < |a| ==> a[k].addr == b[k].addr
    requires NeighborsListed(a, node)
    ensures NeighborsListed(b, node)
  {
    forall i | 0 <= i < |node.ngbs| && node.ngbs[i].addr != BCAST_ADDR ensures IsListed(b, node.ngbs[i].addr) {
      FindSame(a, b, node.ngbs[i].addr);
    }
  }

  lemma AppendKeepsSound(nodes: seq<SensorNode>, node: SensorNode, limit: int)
    requires ListSound(nodes, limit) && NodeSound(node, limit) && !IsListed(nodes, node.addr)
    requires NeighborsListed(nodes, node)
    ensures ListSound(nodes + [node], limit) && TotalExcess(nodes + [node]) == TotalExcess(nodes) + Excess(node)
    ensures IsListed(nodes + [node], node.addr)
  {
    var after := nodes + [node];
    assert after[..|after| - 1] == nodes;
    assert after[|nodes|].addr == node.addr;
    forall k | 0 <= k < |after| ensures NeighborsListed(after, after[k]) {
      NeighborsStayListed(nodes, after, after[k]);
    }
  }

  lemma ReplaceKeepsSound(nodes: seq<SensorNode>, k: nat, node: SensorNode, limit: int)
    requires ListSound(nodes, limit) && k < |nodes| && node.addr == nodes[k].addr
    requires NodeSound(node, limit) && NeighborsListed(nodes, node)
    ensures ListSound(nodes[k := node], limit)
    ensures TotalExcess(nodes[k := node]) == TotalExcess(nodes) - Excess(nodes[k]) + Excess(node)
  {
    var after := nodes[k := node];
    ExcessUpdate(nodes, k, node);
    forall j | 0 <= j < |after| ensures NeighborsListed(after, after[j]) {
      NeighborsStayListed(nodes, after, after[j]);
    }
  }

  // ---------------------------------------------------------------- one report

  /** The entry overflows: the node it is about has no room for its sender. */
  predicate Overflows(nodes: seq<SensorNode>, who: nat, n: Hello) {
    n.addr != BCAST_ADDR && IsListed(nodes, n.addr) && !HasRoom(nodes[FindNode(nodes, n.addr)].ngbs, who)
  }

  lemma NewNodeKeepsSound(nodes: seq<SensorNode>, who: nat, n: Hello)
    requires ListSound(nodes, GATEWAY_TIMEOUT + 1) && who != BCAST_ADDR
             && IsListed(nodes, who) && !IsListed(nodes, n.addr)
    ensures var after := nodes + [NewlyHeard(n.addr, who, n.rssi)];
            ListSound(after, GATEWAY_TIMEOUT + 1) && IsListed(after, who) && TotalExcess(after) == TotalExcess(nodes)
  {
    var node := NewlyHeard(n.addr, who, n.rssi);
    NewlyHeardIsSound(n.addr, who, n.rssi);
    AppendKeepsSound(nodes, node, GATEWAY_TIMEOUT + 1);
    FindSame(nodes, nodes + [node], who);
  }

  lemma OldNodeKeepsSound(nodes: seq<SensorNode>, who: nat, rssi: int, k: nat, free: nat)
    requires ListSound(nodes, GATEWAY_TIMEOUT + 1) && who != BCAST_ADDR && IsListed(nodes, who)
    requires k < |nodes| && free < MAX_NGBS && |nodes[k].ngbs| == MAX_NGBS
    ensures var f := Scanned(nodes[k].ngbs, who, free);
            var after := nodes[k := Recorded(nodes[k], who, rssi, f)];
            && ListSound(after, GATEWAY_TIMEOUT + 1) && IsListed(after, who)
            && TotalExcess(after) == TotalExcess(nodes) + (if HasRoom(nodes[k].ngbs, who) then 0 else 1)
  {
    var node := nodes[k];
    assert NodeSound(node, GATEWAY_TIMEOUT + 1) && NeighborsListed(nodes, node);
    var f := Scanned(node.ngbs, who, free);
    RecordedIsSound(node, who, rssi, f);
    ReplaceKeepsSound(nodes, k, Recorded(node, who, rssi, f), GATEWAY_TIMEOUT + 1);
    FindSame(nodes, nodes[k := Recorded(node, who, rssi, f)], who);
  }

  lemma ReportOneKeepsSound(nodes: seq<SensorNode>, who: nat, n: Hello, free: nat)
    requires ListSound(nodes, GATEWAY_TIMEOUT + 1) && who != BCAST_ADDR && IsListed(nodes, who) && free < MAX_NGBS
    ensures var after := ReportOne(nodes, who, n, free).0;
            && ListSound(after, GATEWAY_TIMEOUT + 1) && IsListed(after, who) && |nodes| <= |after|
            && TotalExcess(after) == TotalExcess(nodes) + (if Overflows(nodes, who, n) then 1 else 0)
  {
    if n.addr != BCAST_ADDR {
      if IsListed(nodes, n.addr) {
        OldNodeKeepsSound(nodes, who, n.rssi, FindNode(nodes, n.addr), free);
      } else {
        NewNodeKeepsSound(nodes, who, n);
      }
    }
  }

  /** How many entries of a report overflow. */
  function Overflowing(nodes: seq<SensorNode>, who: nat, ngbs: seq<Hello>, free: nat): nat
    requires Shaped(nodes) && free < MAX_NGBS
    decreases |ngbs|
  {
    if ngbs == [] then 0
    else
      var (next, f) := ReportOne(nodes, who, ngbs[0], free);
      (if Overflows(nodes, who, ngbs[0]) then 1 else 0) + Overflowing(next, who, ngbs[1..], f)
  }

  lemma {:induction false} ReportAllKeepsSound(nodes: seq<SensorNode>, who: nat, ngbs: seq<Hello>, free: nat)
    requires ListSound(nodes, GATEWAY_TIMEOUT + 1) && who != BCAST_ADDR && IsListed(nodes, who) && free < MAX_NGBS
    ensures var after := ReportAll(nodes, who, ngbs, free);
            && ListSound(after, GATEWAY_TIMEOUT + 1) && |nodes| <= |after|
            && TotalExcess(after) == TotalExcess(nodes) + Overflowing(nodes, who, ngbs, free)
    decreases |ngbs|
  {
    if ngbs != [] {
      ReportOneKeepsSound(nodes, who, ngbs[0], free);
      var (next, f) := ReportOne(nodes, who, ngbs[0], free);
      ReportAllKeepsSound(next, who, ngbs[1..], f);
    }
  }

  lemma OlderNodesSound(nodes: seq<SensorNode>)
    requires ListSound(nodes, GATEWAY_TIMEOUT + 1)
    ensures ListSound(OlderNodes(nodes), GATEWAY_TIMEOUT) && AllPointAtStrongest(OlderNodes(nodes))
    ensures TotalExcess(OlderNodes(nodes)) == TotalExcess(nodes)
  {
    var after := OlderNodes(nodes);
    forall k | 0 <= k < |after| ensures NodeSound(after[k], GATEWAY_TIMEOUT) && PointsAtStrongest(after[k])
                                     && NeighborsListed(after, after[k]) && Excess(after[k]) == Excess(nodes[k])
    {
      OlderIsSound(nodes[k]);
      assert NeighborsListed(nodes, nodes[k]);
      forall i | 0 <= i < |after[k].ngbs| && after[k].ngbs[i].addr != BCAST_ADDR
        ensures IsListed(after, after[k].ngbs[i].addr)
      {
        FindSame(nodes, after, nodes[k].ngbs[i].addr);
      }
    }
    ExcessPointwise(nodes, after);
  }

  lemma AddNodeKeepsSound(nodes: seq<SensorNode>, addr: nat)
    requires ListSound(nodes, GATEWAY_TIMEOUT)
    ensures ListSound(AddNode(nodes, addr), GATEWAY_TIMEOUT + 1) && IsListed(AddNode(nodes, addr), addr)
    ensures TotalExcess(AddNode(nodes, addr)) == TotalExcess(nodes)
  {
    if !IsListed(nodes, addr) {
      CreatedIsSound(addr);
      AppendKeepsSound(nodes, CreateNode(addr), GATEWAY_TIMEOUT + 1);
    }
  }

  /** How many entries of a whole report overflow. */
  function OverflowsOf(nodes: seq<SensorNode>, r: Report, unset: nat): nat
    requires Shaped(nodes) && unset < MAX_NGBS
  {
    Overflowing(AddNode(nodes, r.myAddr), r.myAddr, r.ngbs, unset)
  }

  /** Every report keeps the list sound: addresses distinct, every stored neighbour listed, time left in
    * every entry, n at a strongest neighbour.  Counts end up too high by exactly one for each entry that
    * overflows. */
  lemma ProcessKeepsSound(nodes: seq<SensorNode>, r: Report, unset: nat)
    requires ListSound(nodes, GATEWAY_TIMEOUT) && Shaped(nodes) && r.myAddr != BCAST_ADDR && unset < MAX_NGBS
    ensures var after := Process(nodes, r, unset);
            && ListSound(after, GATEWAY_TIMEOUT) && AllPointAtStrongest(after)
            && TotalExcess(after) == TotalExcess(nodes) + OverflowsOf(nodes, r, unset)
  {
    AddNodeKeepsSound(nodes, r.myAddr);
    ReportAllKeepsSound(AddNode(nodes, r.myAddr), r.myAddr, r.ngbs, unset);
    OlderNodesSound(ReportAll(AddNode(nodes, r.myAddr), r.myAddr, r.ngbs, unset));
  }

  lemma PrunedNodeKeeps(nodes: seq<SensorNode>, k: nat)
    requires ListSound(nodes, GATEWAY_TIMEOUT) && AllPointAtStrongest(nodes) && k < |nodes|
    ensures NodeSound(Pruned(nodes)[k], GATEWAY_TIMEOUT) && PointsAtStrongest(Pruned(nodes)[k])
    ensures Excess(Pruned(nodes)[k]) == Excess(nodes[k]) && PointsSomewhere(nodes[k])
    ensures AnyUsed(nodes[k].ngbs) <==> AnyUsed(Pruned(nodes)[k].ngbs)
  {
    assert NodeSound(nodes[k], GATEWAY_TIMEOUT) && PointsAtStrongest(nodes[k]);
    PruningKeepsStrongest(nodes[k]);
  }

  lemma PrunedNeighborsListed(nodes: seq<SensorNode>, k: nat)
    requires ListSound(nodes, GATEWAY_TIMEOUT) && k < |nodes|
    ensures NeighborsListed(Pruned(nodes), Pruned(nodes)[k])
  {
    var after := Pruned(nodes);
    assert NeighborsListed(nodes, nodes[k]);
    forall i | 0 <= i < |after[k].ngbs| && after[k].ngbs[i].addr != BCAST_ADDR
      ensures IsListed(after, after[k].ngbs[i].addr)
    {
      FindSame(nodes, after, nodes[k].ngbs[i].addr);
    }
  }

  lemma PrunedKeepsSound(nodes: seq<SensorNode>)
    requires ListSound(nodes, GATEWAY_TIMEOUT) && AllPointAtStrongest(nodes)
    ensures ListSound(Pruned(nodes), GATEWAY_TIMEOUT) && AllPointAtStrongest(Pruned(nodes))
    ensures TotalExcess(Pruned(nodes)) == TotalExcess(nodes)
    ensures forall k :: 0 <= k < |nodes| ==> PointsSomewhere(nodes[k])
  {
    var after := Pruned(nodes);
    forall k | 0 <= k < |after| ensures NodeSound(after[k], GATEWAY_TIMEOUT) && PointsAtStrongest(after[k])
                                     && Excess(after[k]) == Excess(nodes[k]) && PointsSomewhere(nodes[k])
    {
      PrunedNodeKeeps(nodes, k);
    }
    forall k | 0 <= k < |after| ensures NeighborsListed(after, after[k]) {
      PrunedNeighborsListed(nodes, k);
    }
    ExcessPointwise(nodes, after);
  }

  // ---------------------------------------------------------------- whole runs

  /** Reports as they come in, and route computations, each of which prunes first. */
  datatype Event = Hears(r: Report, unset: nat) | Computes

  ghost predicate Genuine(e: Event) {
    e.Hears? ==> e.r.myAddr != BCAST_ADDR && e.unset < MAX_NGBS
  }

  ghost function Handle(nodes: seq<SensorNode>, e: Event): (r: seq<SensorNode>)
    requires Shaped(nodes) && Genuine(e)
    ensures Shaped(r)
  {
    match e
    case Hears(r, unset) => Process(nodes, r, unset)
    case Computes => Pruned(nodes)
  }

  ghost function AfterEvents(events: seq<Event>): (r: seq<SensorNode>)
    requires forall i :: 0 <= i < |events| ==> Genuine(events[i])
    ensures Shaped(r)
  {
    if events == [] then [] else Handle(AfterEvents(events[..|events| - 1]), events[|events| - 1])
  }

  ghost function TotalOverflows(events: seq<Event>): nat
    requires forall i :: 0 <= i < |events| ==> Genuine(events[i])
  {
    if events == [] then 0
    else
      var e := events[|events| - 1];
      assert Genuine(e);
      TotalOverflows(events[..|events| - 1]) +
      if e.Hears? then OverflowsOf(AfterEvents(events[..|events| - 1]), e.r, e.unset) else 0
  }

  lemma HandleKeepsSound(nodes: seq<SensorNode>, e: Event)
    requires ListSound(nodes, GATEWAY_TIMEOUT) && AllPointAtStrongest(nodes) && Shaped(nodes) && Genuine(e)
    ensures ListSound(Handle(nodes, e), GATEWAY_TIMEOUT) && AllPointAtStrongest(Handle(nodes, e))
    ensures TotalExcess(Handle(nodes, e)) ==
            TotalExcess(nodes) + (if e.Hears? then OverflowsOf(nodes, e.r, e.unset) else 0)
  {
    match e
    case Hears(r, unset) => ProcessKeepsSound(nodes, r, unset);
    case Computes => PrunedKeepsSound(nodes);
  }

  /** In every run the invariants hold, and the counts are together too high by exactly the entries that
    * have overflowed. */
  lemma {:induction false} RunsKeepSound(events: seq<Event>)
    requires forall i :: 0 <= i < |events| ==> Genuine(events[i])
    ensures ListSound(AfterEvents(events), GATEWAY_TIMEOUT) && AllPointAtStrongest(AfterEvents(events))
    ensures TotalExcess(AfterEvents(events)) == TotalOverflows(events)
  {
    if events != [] {
      RunsKeepSound(events[..|events| - 1]);
      HandleKeepsSound(AfterEvents(events[..|events| - 1]), events[|events| - 1]);
    }
  }

  /** In every run every count is the number of used slots exactly if no entry has ever overflowed. */
  lemma CountsAreExactly(events: seq<Event>)
    requires forall i :: 0 <= i < |events| ==> Genuine(events[i])
    ensures (forall k :: 0 <= k < |AfterEvents(events)| ==>
                AfterEvents(events)[k].count == Used(AfterEvents(events)[k].ngbs))
            <==> TotalOverflows(events) == 0
  {
    RunsKeepSound(events);
    var nodes := AfterEvents(events);
    forall k | 0 <= k < |nodes| ensures Excess(nodes[k]) >= 0 {
      assert NodeSound(nodes[k], GATEWAY_TIMEOUT);
    }
    NoExcessExactly(nodes);
  }
}
