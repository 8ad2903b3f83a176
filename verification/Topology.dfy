/** The gateway's topology: a list of sensor nodes, each with a small array of the neighbours that
  * reported hearing it.  What one neighbour report does to it, and what the pruning before route
  * computation does.
  */
module Topology {
  import opened RoutingTables
  import opened NeighborTable

  const MAX_NGBS: nat := 5
  const GATEWAY_TIMEOUT: int := 10
  const RX_POWER_THRESHOLD: int := -24
  const NONE: int := -1

  /** n is the place of the strongest neighbour in ngbs, or NONE. */
  datatype SensorNode = SensorNode(addr: nat, ngbs: seq<Slot>, count: int, n: int)

  /** A report: myAddr heard the nodes in ngbs. */
  datatype Report = Report(myAddr: nat, ngbs: seq<Hello>)

  // ---------------------------------------------------------------- process_topology_desc()

  function CreateNode(addr: nat): SensorNode {
    SensorNode(addr, seq(MAX_NGBS, _ => EmptySlot()), 0, NONE)
  }

  /** Place of the node with this address, or the end. */
  function FindNode(nodes: seq<SensorNode>, addr: nat): (k: nat)
    ensures k <= |nodes|
    ensures k < |nodes| ==> nodes[k].addr == addr
    ensures forall i :: 0 <= i < k ==> nodes[i].addr != addr
  {
    if nodes == [] || nodes[0].addr == addr then 0 else 1 + FindNode(nodes[1..], addr)
  }

  function AddNode(nodes: seq<SensorNode>, addr: nat): seq<SensorNode> {
    if FindNode(nodes, addr) < |nodes| then nodes else nodes + [CreateNode(addr)]
  }

  /** Place of the sender in a node's array, or the end. */
  function FindSender(ngbs: seq<Slot>, who: nat): (k: nat)
    ensures k <= |ngbs|
    ensures k < |ngbs| ==> ngbs[k].addr == who
    ensures forall i :: 0 <= i < k ==> ngbs[i].addr != who
  {
    if ngbs == [] || ngbs[0].addr == who then 0 else 1 + FindSender(ngbs[1..], who)
  }

  lemma HasInPrefix(ngbs: seq<Slot>, addr: nat)
    requires ngbs != [] && ngbs[|ngbs| - 1].addr != addr
    ensures Has(ngbs, addr) <==> Has(ngbs[..|ngbs| - 1], addr)
  {
    if i :| 0 <= i < |ngbs| && ngbs[i].addr == addr {
      assert ngbs[..|ngbs| - 1][i].addr == addr;
    }
  }

  /** The last unused place, or the value the variable had before. */
  function FreeIndex(ngbs: seq<Slot>, free: nat): (f: nat)
    ensures f < |ngbs| || f == free
    ensures Has(ngbs, BCAST_ADDR) ==> f < |ngbs| && ngbs[f].addr == BCAST_ADDR
    ensures Has(ngbs, BCAST_ADDR) ==> forall i :: f < i < |ngbs| ==> ngbs[i].addr != BCAST_ADDR
    ensures !Has(ngbs, BCAST_ADDR) ==> f == free
  {
    if ngbs == [] then free
    else
      var last := |ngbs| - 1;
      if ngbs[last].addr == BCAST_ADDR then last
      else
        var f := FreeIndex(ngbs[..last], free);
        HasInPrefix(ngbs, BCAST_ADDR);
        f
  }

  /** One reported neighbour recorded at its node: who heard it, and how well.  free is the place the
    * scan leaves in free_index. */
  function Recorded(node: SensorNode, who: nat, rssi: int, free: nat): SensorNode
    requires FindSender(node.ngbs, who) == |node.ngbs| ==> free < |node.ngbs|
  {
    var j := FindSender(node.ngbs, who);
    if j < |node.ngbs| then
      node.(ngbs := node.ngbs[j := Slot(who, rssi, GATEWAY_TIMEOUT + 1, false)])
    else
      node.(ngbs := node.ngbs[free := Slot(who, rssi, GATEWAY_TIMEOUT + 1, true)], count := node.count + 1)
  }

  function NewlyHeard(addr: nat, who: nat, rssi: int): SensorNode {
    var node := CreateNode(addr);
    node.(ngbs := node.ngbs[0 := Slot(who, rssi, GATEWAY_TIMEOUT + 1, true)], count := 1)
  }

  ghost predicate Shaped(nodes: seq<SensorNode>) {
    forall k :: 0 <= k < |nodes| ==> |nodes[k].ngbs| == MAX_NGBS
  }

  /** What the scan of one node's array leaves in free_index: it ends where it finds the sender. */
  function Scanned(ngbs: seq<Slot>, who: nat, free: nat): (f: nat)
    ensures !Has(ngbs, who) ==> f == FreeIndex(ngbs, free)
    ensures forall k :: 0 <= k < |ngbs| && ngbs[k].addr == who && (forall i :: 0 <= i < k ==> ngbs[i].addr != who) ==>
              f == FreeIndex(ngbs[..k], free)
  {
    var p := FindSender(ngbs, who);
    assert ngbs[..|ngbs|] == ngbs;
    FreeIndex(ngbs[..p], free)
  }

  /** One entry of a report.  free is what is left in free_index by earlier entries, if anything. */
  function ReportOne(nodes: seq<SensorNode>, who: nat, n: Hello, free: nat): (r: (seq<SensorNode>, nat))
    requires Shaped(nodes) && free < MAX_NGBS
    ensures Shaped(r.0) && r.1 < MAX_NGBS
  {
    if n.addr == BCAST_ADDR then (nodes, free)
    else
      var k := FindNode(nodes, n.addr);
      if k == |nodes| then (nodes + [NewlyHeard(n.addr, who, n.rssi)], free)
      else
        var f := Scanned(nodes[k].ngbs, who, free);
        (nodes[k := Recorded(nodes[k], who, n.rssi, f)], f)
  }

  function ReportAll(nodes: seq<SensorNode>, who: nat, ngbs: seq<Hello>, free: nat): (r: seq<SensorNode>)
    requires Shaped(nodes) && free < MAX_NGBS
    ensures Shaped(r)
    decreases |ngbs|
  {
    if ngbs == [] then nodes
    else
      var (next, f) := ReportOne(nodes, who, ngbs[0], free);
      ReportAll(next, who, ngbs[1..], f)
  }

  function OlderSlot(s: Slot): Slot {
    if s.addr == BCAST_ADDR then s
    else if s.lastReport - 1 == 0 then EmptySlot()
    else s.(lastReport := s.lastReport - 1)
  }

  function OlderSlots(ngbs: seq<Slot>): (r: seq<Slot>)
    ensures |r| == |ngbs|
    ensures forall i :: 0 <= i < |r| ==> r[i] == OlderSlot(ngbs[i])
  {
    seq(|ngbs|, i requires 0 <= i < |ngbs| => OlderSlot(ngbs[i]))
  }

  /** How many entries the ageing removes. */
  function Lapsed(ngbs: seq<Slot>): nat {
    if ngbs == [] then 0
    else
      var s := ngbs[|ngbs| - 1];
      (if s.addr != BCAST_ADDR && s.lastReport - 1 == 0 then 1 else 0) + Lapsed(ngbs[..|ngbs| - 1])
  }

  /** First place of the strongest used slot; the old value if none is used. */
  function Strongest(ngbs: seq<Slot>, old_n: int): (n: int)
    ensures AnyUsed(ngbs) ==> 0 <= n < |ngbs| && ngbs[n].addr != BCAST_ADDR
    ensures AnyUsed(ngbs) ==> forall i :: 0 <= i < |ngbs| && ngbs[i].addr != BCAST_ADDR ==> ngbs[i].rssi <= ngbs[n].rssi
    ensures AnyUsed(ngbs) ==> forall i :: 0 <= i < n && ngbs[i].addr != BCAST_ADDR ==> ngbs[i].rssi < ngbs[n].rssi
    ensures !AnyUsed(ngbs) ==> n == old_n
  {
    if ngbs == [] then old_n
    else
      var last := |ngbs| - 1;
      var n := Strongest(ngbs[..last], old_n);
      UsedOfPrefix(ngbs);
      if ngbs[last].addr == BCAST_ADDR then n
      else if !AnyUsed(ngbs[..last]) then last
      else if ngbs[n].rssi < ngbs[last].rssi then last
      else n
  }

  /** Some slot is used. */
  predicate AnyUsed(ngbs: seq<Slot>) {
    exists i :: 0 <= i < |ngbs| && ngbs[i].addr != BCAST_ADDR
  }

  lemma UsedOfPrefix(ngbs: seq<Slot>)
    requires ngbs != []
    ensures AnyUsed(ngbs) <==> ngbs[|ngbs| - 1].addr != BCAST_ADDR || AnyUsed(ngbs[..|ngbs| - 1])
  {
    var last := |ngbs| - 1;
    if i :| 0 <= i < last && ngbs[i].addr != BCAST_ADDR {
      assert ngbs[..last][i].addr != BCAST_ADDR;
    }
  }

  function OlderNode(node: SensorNode): SensorNode {
    node.(ngbs := OlderSlots(node.ngbs), count := node.count - Lapsed(node.ngbs),
          n := Strongest(OlderSlots(node.ngbs), node.n))
  }

  function OlderNodes(nodes: seq<SensorNode>): (r: seq<SensorNode>)
    ensures |r| == |nodes|
    ensures forall k :: 0 <= k < |r| ==> r[k] == OlderNode(nodes[k])
  {
    seq(|nodes|, k requires 0 <= k < |nodes| => OlderNode(nodes[k]))
  }

  /** process_topology_desc(); unset is what the uninitialised free_index holds. */
  function Process(nodes: seq<SensorNode>, r: Report, unset: nat): (after: seq<SensorNode>)
    requires Shaped(nodes) && unset < MAX_NGBS
    ensures Shaped(after)
  {
    OlderNodes(ReportAll(AddNode(nodes, r.myAddr), r.myAddr, r.ngbs, unset))
  }

  // ---------------------------------------------------------------- pruning in generate_routing_tables()

  predicate IsWeak(s: Slot) {
    s.rssi < RX_POWER_THRESHOLD
  }

  /** The pruning looks at n only if some link is weak; then n must point somewhere. */
  predicate PointsSomewhere(node: SensorNode) {
    (exists i :: 0 <= i < |node.ngbs| && IsWeak(node.ngbs[i])) ==> 0 <= node.n < |node.ngbs|
  }

  predicate IsPruned(node: SensorNode, s: Slot) {
    IsWeak(s) && 0 <= node.n < |node.ngbs| && node.ngbs[node.n].addr != s.addr
  }

  function PrunedSlots(node: SensorNode, ngbs: seq<Slot>): (r: seq<Slot>)
    ensures |r| == |ngbs|
    ensures forall i :: 0 <= i < |r| ==> r[i] == if IsPruned(node, ngbs[i]) then EmptySlot() else ngbs[i]
  {
    seq(|ngbs|, i requires 0 <= i < |ngbs| => if IsPruned(node, ngbs[i]) then EmptySlot() else ngbs[i])
  }

  function PrunedCount(node: SensorNode, ngbs: seq<Slot>): nat {
    if ngbs == [] then 0
    else (if IsPruned(node, ngbs[|ngbs| - 1]) then 1 else 0) + PrunedCount(node, ngbs[..|ngbs| - 1])
  }

  function PrunedNode(node: SensorNode): SensorNode {
    node.(ngbs := PrunedSlots(node, node.ngbs), count := node.count - PrunedCount(node, node.ngbs))
  }

  function Pruned(nodes: seq<SensorNode>): (r: seq<SensorNode>)
    ensures |r| == |nodes|
    ensures forall k :: 0 <= k < |r| ==> r[k] == PrunedNode(nodes[k])
  {
    seq(|nodes|, k requires 0 <= k < |nodes| => PrunedNode(nodes[k]))
  }
}
