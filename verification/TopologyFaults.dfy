/** A run in which a report throws a standing one out of the gateway's topology: six nodes report the same
  * neighbour, which has room for five.
  *
  * The reports fill the neighbour's slots from the last to the second; the first one listed it in slot 0.
  * The sixth finds no unused slot, and free_index has not been set in that call.
  */
module TopologyFaults {
  import opened Options
  import opened RoutingTables
  import opened NeighborTable
  import opened Topology
  import opened TopologyInvariants
  import opened TopologyHistory

  const HUB: nat := 1
  const STRENGTH: int := -10

  /** Node 10 + i has heard the hub. */
  function HubReport(i: nat): Report {
    Report(10 + i, [Hello(HUB, STRENGTH)])
  }

  function Reports(n: nat): (events: seq<Event>)
    requires n <= 6
    ensures |events| == n
    ensures forall i :: 0 <= i < n ==> events[i] == Hears(HubReport(i), 0) && Genuine(events[i])
  {
    seq(n, i requires 0 <= i < n => Hears(HubReport(i), 0))
  }

  /** The place of reporter i among the hub's slots: first place 0, then from the last place down. */
  function PlaceOf(i: nat): nat
    requires i < MAX_NGBS
  {
    if i == 0 then 0 else MAX_NGBS - i
  }

  /** The hub's slots after n <= 5 of the reports. */
  function HubSlots(n: nat): (s: seq<Slot>)
    ensures |s| == MAX_NGBS
    ensures forall j :: 0 <= j < MAX_NGBS ==>
              s[j] == if PlaceOf(j) < n then Slot(10 + PlaceOf(j), STRENGTH, 11 + PlaceOf(j) - n, true) else EmptySlot()
  {
    seq(MAX_NGBS, j requires 0 <= j < MAX_NGBS =>
      if PlaceOf(j) < n then Slot(10 + PlaceOf(j), STRENGTH, 11 + PlaceOf(j) - n, true) else EmptySlot())
  }

  ghost predicate HubHas(nodes: seq<SensorNode>, slots: seq<Slot>) {
    IsListed(nodes, HUB) && nodes[FindNode(nodes, HUB)].ngbs == slots
  }

  lemma HubRecords(nodes: seq<SensorNode>, i: nat, slots: seq<Slot>, f: nat)
    requires Shaped(nodes) && HubHas(nodes, slots) && !Has(slots, 10 + i) && f == FreeIndex(slots, 0) < |slots|
    ensures HubHas(ReportAll(nodes, 10 + i, [Hello(HUB, STRENGTH)], 0),
                   slots[f := Slot(10 + i, STRENGTH, GATEWAY_TIMEOUT + 1, true)])
  {
    var k := FindNode(nodes, HUB);
    var node := nodes[k];
    assert slots[..|slots|] == slots && FindSender(slots, 10 + i) == |slots|;
    var after := nodes[k := Recorded(node, 10 + i, STRENGTH, f)];
    assert ReportOne(nodes, 10 + i, Hello(HUB, STRENGTH), 0) == (after, f);
    assert ReportAll(nodes, 10 + i, [Hello(HUB, STRENGTH)], 0) == after;
    FindSame(nodes, after, HUB);
  }

  /** A report by a new node puts it at the place the scan for a free slot leaves. */
  lemma HubAfterReport(nodes: seq<SensorNode>, i: nat, slots: seq<Slot>, f: nat)
    requires Shaped(nodes) && HubHas(nodes, slots) && !Has(slots, 10 + i) && 10 + i != BCAST_ADDR
    requires f == FreeIndex(slots, 0) < |slots|
    ensures HubHas(Process(nodes, HubReport(i), 0),
                   OlderSlots(slots[f := Slot(10 + i, STRENGTH, GATEWAY_TIMEOUT + 1, true)]))
  {
    var added := AddNode(nodes, 10 + i);
    FindAfterAppend(nodes, CreateNode(10 + i), HUB);
    HubRecords(added, i, slots, f);
    var after := ReportAll(added, 10 + i, [Hello(HUB, STRENGTH)], 0);
    FindSame(after, OlderNodes(after), HUB);
  }

  lemma FirstReport()
    ensures HubHas(Process([], HubReport(0), 0), HubSlots(1))
  {
    var added := [CreateNode(10)];
    assert AddNode([], 10) == added;
    var hub := NewlyHeard(HUB, 10, STRENGTH);
    FindAfterAppend(added, hub, HUB);
    assert ReportOne(added, 10, Hello(HUB, STRENGTH), 0) == (added + [hub], 0);
    assert ReportAll(added, 10, [Hello(HUB, STRENGTH)], 0) == added + [hub];
    FindSame(added + [hub], OlderNodes(added + [hub]), HUB);
    assert OlderSlots(hub.ngbs) == HubSlots(1);
  }

  lemma ReportsStep(n: nat)
    requires 1 <= n <= 6
    ensures Reports(n)[..n - 1] == Reports(n - 1)
    ensures AfterEvents(Reports(n)) == Process(AfterEvents(Reports(n - 1)), HubReport(n - 1), 0)
  {
    assert Reports(n)[..n - 1] == Reports(n - 1);
  }

  /** The next reporter takes the last unused slot, and all others age. */
  lemma SlotsStep(n: nat)
    requires 2 <= n <= MAX_NGBS
    ensures !Has(HubSlots(n - 1), 9 + n) && FreeIndex(HubSlots(n - 1), 0) == MAX_NGBS + 1 - n
    ensures OlderSlots(HubSlots(n - 1)[MAX_NGBS + 1 - n := Slot(9 + n, STRENGTH, GATEWAY_TIMEOUT + 1, true)]) ==
            HubSlots(n)
  {
    assert FreeIndex(HubSlots(n - 1), 0) == MAX_NGBS + 1 - n by {
      assert HubSlots(n - 1)[MAX_NGBS + 1 - n].addr == BCAST_ADDR;
    }
  }

  lemma {:induction false} ReportsFill(n: nat)
    requires 1 <= n <= MAX_NGBS
    ensures HubHas(AfterEvents(Reports(n)), HubSlots(n))
  {
    ReportsStep(n);
    if n == 1 {
      FirstReport();
    } else {
      ReportsFill(n - 1);
      SlotsStep(n);
      HubAfterReport(AfterEvents(Reports(n - 1)), n - 1, HubSlots(n - 1), MAX_NGBS + 1 - n);
    }
  }

  lemma NoSlotLeft()
    ensures !Has(HubSlots(5), 15) && FreeIndex(HubSlots(5), 0) == 0
  {
  }

  /** The sixth report takes the slot of the first, which has five calls left to live. */
  lemma SixthReport()
    ensures HubHas(AfterEvents(Reports(6)), OlderSlots(HubSlots(5)[0 := Slot(15, STRENGTH, GATEWAY_TIMEOUT + 1, true)]))
  {
    ReportsFill(5);
    ReportsStep(6);
    NoSlotLeft();
    HubAfterReport(AfterEvents(Reports(5)), 5, HubSlots(5), 0);
  }

  lemma FirstIsStored()
    ensures Stored(AfterEvents(Reports(5)), HUB, 10, 6, STRENGTH)
  {
    ReportsFill(5);
    assert HubSlots(5)[0] == Slot(10, STRENGTH, 6, true);
  }

  lemma FirstIsGone(r: int, v: int)
    ensures !Stored(AfterEvents(Reports(6)), HUB, 10, r, v)
  {
    SixthReport();
    hide AfterEvents, FindNode;
    var slots := HubSlots(5)[0 := Slot(15, STRENGTH, GATEWAY_TIMEOUT + 1, true)];
    assert forall j :: 0 <= j < MAX_NGBS ==> slots[j].addr != 10;
    assert forall j :: 0 <= j < MAX_NGBS ==> OlderSlots(slots)[j].addr != 10;
  }

  /** After five reports the gateway has node 10 as hearing the hub, for six more calls; the sixth report,
    * by another node, makes it forget that. */
  lemma SixReportersForgetOne()
    ensures forall i :: 0 <= i < 6 ==> Genuine(Reports(6)[i])
    ensures Stored(AfterEvents(Reports(5)), HUB, 10, 6, STRENGTH)
    ensures Known(Reports(6), HUB, 10) == Some((5, STRENGTH)) && Forgotten(Reports(6), HUB, 10)
  {
    hide Stored, AfterEvents;
    FirstIsStored();
    StoredIsKnown(Reports(5), HUB, 10, 6, STRENGTH);
    ReportsStep(6);
    forall r, v ensures !Stored(AfterEvents(Reports(6)), HUB, 10, r, v) {
      FirstIsGone(r, v);
    }
  }
}
