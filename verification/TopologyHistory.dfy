/** The gateway's topology against what it has been told.  Whatever is stored is known; and all that is
  * known is stored, exactly if no entry of a report has overwritten one with calls left to live.
  */
module TopologyHistory {
  import opened Options
  import opened RoutingTables
  import opened NeighborTable
  import opened Topology
  import opened TopologyInvariants

  /** The gateway has y stored as having heard x, lastReport calls from expiry, with this strength. */
  ghost predicate Stored(nodes: seq<SensorNode>, x: nat, y: nat, lastReport: int, rssi: int) {
    IsListed(nodes, x) && Listed(nodes[FindNode(nodes, x)].ngbs, y, lastReport, rssi)
  }

  /** The strength a report gives for x: its last entry for x counts. */
  function LastHeard(ngbs: seq<Hello>, x: nat): Option<int> {
    if ngbs == [] then None
    else
      var rest := LastHeard(ngbs[1..], x);
      if rest.Some? then rest else if ngbs[0].addr == x then Some(ngbs[0].rssi) else None
  }

  // ---------------------------------------------------------------- one entry of a report

  lemma ListedUpdate(ngbs: seq<Slot>, k: nat, s: Slot, y: nat, r: int, v: int)
    requires k < |ngbs| && y != BCAST_ADDR && (ngbs[k].addr == BCAST_ADDR || ngbs[k].addr == s.addr)
             && s.addr != BCAST_ADDR
    requires DistinctSenders(ngbs) && (ngbs[k].addr == BCAST_ADDR ==> !Has(ngbs, s.addr))
    ensures Listed(ngbs[k := s], y, r, v) <==>
            if y == s.addr then r == s.lastReport && v == s.rssi else Listed(ngbs, y, r, v)
  {
    var after := ngbs[k := s];
    if y == s.addr {
      assert after[k] == s;
    } else {
      if i :| 0 <= i < |ngbs| && ngbs[i].addr == y && ngbs[i].lastReport == r && ngbs[i].rssi == v {
        assert after[i] == ngbs[i];
      }
      if i :| 0 <= i < |after| && after[i].addr == y && after[i].lastReport == r && after[i].rssi == v {
        assert after[i] == ngbs[i];
      }
    }
  }

  /** A slot used by another sender is overwritten: only what it held is lost. */
  lemma ListedReplace(ngbs: seq<Slot>, k: nat, s: Slot, y: nat, r: int, v: int)
    requires k < |ngbs| && y != BCAST_ADDR && s.addr != BCAST_ADDR && DistinctSenders(ngbs) && !Has(ngbs, s.addr)
    ensures Listed(ngbs[k := s], y, r, v) <==>
            if y == s.addr then r == s.lastReport && v == s.rssi else y != ngbs[k].addr && Listed(ngbs, y, r, v)
  {
    var after := ngbs[k := s];
    if y == s.addr {
      assert after[k] == s;
    } else {
      if i :| 0 <= i < |ngbs| && ngbs[i].addr == y && ngbs[i].lastReport == r && ngbs[i].rssi == v {
        assert after[i] == if i == k then s else ngbs[i];
      }
      if i :| 0 <= i < |after| && after[i].addr == y && after[i].lastReport == r && after[i].rssi == v {
        assert after[i] == ngbs[i];
      }
    }
  }

  lemma RecordedLists(node: SensorNode, who: nat, rssi: int, free: nat, y: nat, r: int, v: int)
    requires NodeSound(node, GATEWAY_TIMEOUT + 1) && who != BCAST_ADDR && y != BCAST_ADDR && free < MAX_NGBS
    ensures Listed(Recorded(node, who, rssi, free).ngbs, y, r, v) <==>
            if y == who then r == GATEWAY_TIMEOUT + 1 && v == rssi
            else (Has(node.ngbs, who) || y != node.ngbs[free].addr) && Listed(node.ngbs, y, r, v)
  {
    var j := FindSender(node.ngbs, who);
    if j < |node.ngbs| {
      ListedUpdate(node.ngbs, j, Slot(who, rssi, GATEWAY_TIMEOUT + 1, false), y, r, v);
    } else {
      ListedReplace(node.ngbs, free, Slot(who, rssi, GATEWAY_TIMEOUT + 1, true), y, r, v);
    }
  }

  /** The entry is marked new by the report that lists its sender, until the sender reports again. */
  lemma NewUntilReportedAgain(node: SensorNode, who: nat, rssi: int, free: nat, i: nat)
    requires |node.ngbs| == MAX_NGBS && free < MAX_NGBS && i < MAX_NGBS
    requires DistinctSenders(node.ngbs) && who != BCAST_ADDR
    ensures var after := Recorded(node, who, rssi, free).ngbs;
            && |after| == MAX_NGBS
            && after[i].isNew == if after[i].addr == who then !Has(node.ngbs, who) else node.ngbs[i].isNew
  {
    var j := FindSender(node.ngbs, who);
    if j < |node.ngbs| {
      assert node.ngbs[j].addr == who;
    }
  }

  lemma NewlyHeardLists(addr: nat, who: nat, rssi: int, y: nat, r: int, v: int)
    requires who != BCAST_ADDR && y != BCAST_ADDR
    ensures Listed(NewlyHeard(addr, who, rssi).ngbs, y, r, v) <==>
            y == who && r == GATEWAY_TIMEOUT + 1 && v == rssi
  {
    assert NewlyHeard(addr, who, rssi).ngbs[0] == Slot(who, rssi, GATEWAY_TIMEOUT + 1, true);
  }

  lemma EntryAfterAppend(nodes: seq<SensorNode>, node: SensorNode, x: nat, y: nat, r: int, v: int)
    requires !IsListed(nodes, node.addr)
    ensures Stored(nodes + [node], x, y, r, v) <==>
            if x == node.addr then Listed(node.ngbs, y, r, v) else Stored(nodes, x, y, r, v)
  {
    FindAfterAppend(nodes, node, x);
  }

  lemma {:induction false} FindAfterAppend(nodes: seq<SensorNode>, node: SensorNode, x: nat)
    ensures FindNode(nodes + [node], x) ==
            if IsListed(nodes, x) then FindNode(nodes, x)
            else if node.addr == x then |nodes| else |nodes| + 1
  {
    if nodes != [] {
      assert (nodes + [node])[1..] == nodes[1..] + [node];
      FindAfterAppend(nodes[1..], node, x);
    }
  }

  lemma EntryAfterReplace(nodes: seq<SensorNode>, k: nat, node: SensorNode, x: nat, y: nat, r: int, v: int)
    requires DistinctNodes(nodes) && k < |nodes| && node.addr == nodes[k].addr
    ensures Stored(nodes[k := node], x, y, r, v) <==>
            if x == node.addr then Listed(node.ngbs, y, r, v) else Stored(nodes, x, y, r, v)
  {
    var after := nodes[k := node];
    FindNodeIs(nodes, k);
    FindSame(nodes, after, x);
    FindSame(after, nodes, x);
  }

  /** What one entry of a report is meant to leave stored: its own pair, fresh, and all else as before. */
  ghost predicate MeantByEntry(nodes: seq<SensorNode>, who: nat, n: Hello, x: nat, y: nat, r: int, v: int) {
    if x == n.addr && y == who then r == GATEWAY_TIMEOUT + 1 && v == n.rssi else Stored(nodes, x, y, r, v)
  }

  /** The neighbour an entry throws out, when it overflows. */
  function Displaced(nodes: seq<SensorNode>, who: nat, n: Hello, free: nat): Slot
    requires Shaped(nodes) && free < MAX_NGBS && Overflows(nodes, who, n)
  {
    var ngbs := nodes[FindNode(nodes, n.addr)].ngbs;
    ngbs[Scanned(ngbs, who, free)]
  }

  /** The entry throws out this neighbour of this node. */
  ghost predicate ThrowsOut(nodes: seq<SensorNode>, who: nat, n: Hello, free: nat, x: nat, y: nat)
    requires Shaped(nodes) && free < MAX_NGBS
  {
    Overflows(nodes, who, n) && x == n.addr && y == Displaced(nodes, who, n, free).addr
  }

  lemma OldNodeEntry(nodes: seq<SensorNode>, who: nat, n: Hello, free: nat, x: nat, y: nat, r: int, v: int)
    requires ListSound(nodes, GATEWAY_TIMEOUT + 1) && who != BCAST_ADDR && free < MAX_NGBS
             && x != BCAST_ADDR && y != BCAST_ADDR
    requires n.addr != BCAST_ADDR && IsListed(nodes, n.addr)
    ensures Stored(ReportOne(nodes, who, n, free).0, x, y, r, v) <==>
            MeantByEntry(nodes, who, n, x, y, r, v) && !ThrowsOut(nodes, who, n, free, x, y)
  {
    var k := FindNode(nodes, n.addr);
    var node := nodes[k];
    var f := Scanned(node.ngbs, who, free);
    assert NodeSound(node, GATEWAY_TIMEOUT + 1);
    hide ListSound, NodeSound, Recorded, FindNode, Scanned;
    RecordedLists(node, who, n.rssi, f, y, r, v);
    RecordedAddr(node, who, n.rssi, f);
    EntryAfterReplace(nodes, k, Recorded(node, who, n.rssi, f), x, y, r, v);
  }

  lemma RecordedAddr(node: SensorNode, who: nat, rssi: int, free: nat)
    requires |node.ngbs| == MAX_NGBS && free < MAX_NGBS
    ensures Recorded(node, who, rssi, free).addr == node.addr
  {
  }

  /** An entry does what it is meant to, except that it may throw out a neighbour. */
  lemma ReportOneEntry(nodes: seq<SensorNode>, who: nat, n: Hello, free: nat, x: nat, y: nat, r: int, v: int)
    requires ListSound(nodes, GATEWAY_TIMEOUT + 1) && who != BCAST_ADDR && free < MAX_NGBS
             && x != BCAST_ADDR && y != BCAST_ADDR
    ensures Stored(ReportOne(nodes, who, n, free).0, x, y, r, v) <==>
            MeantByEntry(nodes, who, n, x, y, r, v) && !ThrowsOut(nodes, who, n, free, x, y)
  {
    if n.addr != BCAST_ADDR {
      if IsListed(nodes, n.addr) {
        OldNodeEntry(nodes, who, n, free, x, y, r, v);
      } else {
        EntryAfterAppend(nodes, NewlyHeard(n.addr, who, n.rssi), x, y, r, v);
        NewlyHeardLists(n.addr, who, n.rssi, y, r, v);
      }
    }
  }

  lemma DisplacedIsStored(nodes: seq<SensorNode>, who: nat, n: Hello, free: nat)
    requires ListSound(nodes, GATEWAY_TIMEOUT + 1) && who != BCAST_ADDR && free < MAX_NGBS && Overflows(nodes, who, n)
    ensures var s := Displaced(nodes, who, n, free);
            && n.addr != BCAST_ADDR && s.addr != BCAST_ADDR && s.addr != who
            && Stored(nodes, n.addr, s.addr, s.lastReport, s.rssi)
            && 1 <= s.lastReport <= GATEWAY_TIMEOUT + 1
  {
    var k := FindNode(nodes, n.addr);
    assert NodeSound(nodes[k], GATEWAY_TIMEOUT + 1);
    var f := Scanned(nodes[k].ngbs, who, free);
    assert !Has(nodes[k].ngbs, who) && !Has(nodes[k].ngbs, BCAST_ADDR);
    assert nodes[k].ngbs[f].addr != who && nodes[k].ngbs[f].addr != BCAST_ADDR;
  }

  ghost predicate EntryAsMeant(nodes: seq<SensorNode>, who: nat, n: Hello, free: nat)
    requires Shaped(nodes) && free < MAX_NGBS
  {
    forall x: nat, y: nat, r: int, v: int :: x != BCAST_ADDR && y != BCAST_ADDR ==>
      (Stored(ReportOne(nodes, who, n, free).0, x, y, r, v) <==> MeantByEntry(nodes, who, n, x, y, r, v))
  }

  /** One entry of a report does what it is meant to exactly if it does not overflow. */
  lemma ReportOneExactly(nodes: seq<SensorNode>, who: nat, n: Hello, free: nat)
    requires ListSound(nodes, GATEWAY_TIMEOUT + 1) && who != BCAST_ADDR && free < MAX_NGBS
    ensures EntryAsMeant(nodes, who, n, free) <==> !Overflows(nodes, who, n)
  {
    if Overflows(nodes, who, n) {
      var s := Displaced(nodes, who, n, free);
      DisplacedIsStored(nodes, who, n, free);
      ReportOneEntry(nodes, who, n, free, n.addr, s.addr, s.lastReport, s.rssi);
      assert MeantByEntry(nodes, who, n, n.addr, s.addr, s.lastReport, s.rssi);
    } else {
      forall x: nat, y: nat, r: int, v: int | x != BCAST_ADDR && y != BCAST_ADDR
        ensures Stored(ReportOne(nodes, who, n, free).0, x, y, r, v) <==> MeantByEntry(nodes, who, n, x, y, r, v)
      {
        ReportOneEntry(nodes, who, n, free, x, y, r, v);
      }
    }
  }

  // ---------------------------------------------------------------- all entries of a report

  /** The entry throws out a neighbour that would have outlived this report. */
  predicate Drops(nodes: seq<SensorNode>, who: nat, n: Hello, free: nat)
    requires Shaped(nodes) && free < MAX_NGBS
  {
    Overflows(nodes, who, n) && Displaced(nodes, who, n, free).lastReport > 1
  }

  /** How many entries of a report do so. */
  function Dropping(nodes: seq<SensorNode>, who: nat, ngbs: seq<Hello>, free: nat): (d: nat)
    requires Shaped(nodes) && free < MAX_NGBS
    ensures d <= Overflowing(nodes, who, ngbs, free)
    decreases |ngbs|
  {
    if ngbs == [] then 0
    else
      var (next, f) := ReportOne(nodes, who, ngbs[0], free);
      (if Drops(nodes, who, ngbs[0], free) then 1 else 0) + Dropping(next, who, ngbs[1..], f)
  }

  /** What a whole report is meant to leave stored, before all entries age. */
  ghost predicate MeantByEntries(nodes: seq<SensorNode>, who: nat, ngbs: seq<Hello>, x: nat, y: nat, r: int, v: int) {
    if y == who && LastHeard(ngbs, x).Some? then r == GATEWAY_TIMEOUT + 1 && v == LastHeard(ngbs, x).value
    else Stored(nodes, x, y, r, v)
  }

  /** Nothing is stored but what is meant to be. */
  lemma {:induction false} ReportAllOnly(nodes: seq<SensorNode>, who: nat, ngbs: seq<Hello>, free: nat,
                                         x: nat, y: nat, r: int, v: int)
    requires ListSound(nodes, GATEWAY_TIMEOUT + 1) && IsListed(nodes, who)
    requires who != BCAST_ADDR && free < MAX_NGBS && x != BCAST_ADDR && y != BCAST_ADDR
    requires Stored(ReportAll(nodes, who, ngbs, free), x, y, r, v)
    ensures MeantByEntries(nodes, who, ngbs, x, y, r, v)
    decreases |ngbs|
  {
    if ngbs != [] {
      var (next, f) := ReportOne(nodes, who, ngbs[0], free);
      ReportOneKeepsSound(nodes, who, ngbs[0], free);
      ReportAllOnly(next, who, ngbs[1..], f, x, y, r, v);
      ReportOneEntry(nodes, who, ngbs[0], free, x, y, r, v);
    }
  }

  /** Without such entries, everything that would outlive the report is stored. */
  lemma {:induction false} ReportAllEntry(nodes: seq<SensorNode>, who: nat, ngbs: seq<Hello>, free: nat,
                                          x: nat, y: nat, r: int, v: int)
    requires ListSound(nodes, GATEWAY_TIMEOUT + 1) && IsListed(nodes, who)
    requires who != BCAST_ADDR && free < MAX_NGBS && x != BCAST_ADDR && y != BCAST_ADDR && r > 1
    requires Dropping(nodes, who, ngbs, free) == 0
    ensures Stored(ReportAll(nodes, who, ngbs, free), x, y, r, v) <==> MeantByEntries(nodes, who, ngbs, x, y, r, v)
    decreases |ngbs|
  {
    if ngbs != [] {
      var (next, f) := ReportOne(nodes, who, ngbs[0], free);
      ReportOneKeepsSound(nodes, who, ngbs[0], free);
      ReportOneEntry(nodes, who, ngbs[0], free, x, y, r, v);
      if Overflows(nodes, who, ngbs[0]) {
        DisplacedIsStored(nodes, who, ngbs[0], free);
        StoredOnce(nodes, x, y, r, v, Displaced(nodes, who, ngbs[0], free));
      }
      ReportAllEntry(next, who, ngbs[1..], f, x, y, r, v);
    }
  }

  /** One entry for each pair. */
  lemma StoredOnce(nodes: seq<SensorNode>, x: nat, y: nat, r: int, v: int, s: Slot)
    requires ListSound(nodes, GATEWAY_TIMEOUT + 1) && y != BCAST_ADDR
    ensures Stored(nodes, x, y, r, v) && Stored(nodes, x, y, s.lastReport, s.rssi) ==> r == s.lastReport && v == s.rssi
  {
    if IsListed(nodes, x) {
      assert NodeSound(nodes[FindNode(nodes, x)], GATEWAY_TIMEOUT + 1);
    }
  }

  ghost predicate Missing(nodes: seq<SensorNode>, after: seq<SensorNode>, who: nat, x: nat, y: nat, r: int, v: int) {
    x != BCAST_ADDR && y != BCAST_ADDR && y != who && r > 1 && Stored(nodes, x, y, r, v) && !Stored(after, x, y, r, v)
  }

  /** With one, something that would outlive the report is gone. */
  lemma {:induction false} DroppingLoses(nodes: seq<SensorNode>, who: nat, ngbs: seq<Hello>, free: nat)
    requires ListSound(nodes, GATEWAY_TIMEOUT + 1) && Shaped(nodes)
    requires IsListed(nodes, who) && who != BCAST_ADDR && free < MAX_NGBS
    requires Dropping(nodes, who, ngbs, free) > 0
    ensures exists x: nat, y: nat, r: int, v: int :: Missing(nodes, ReportAll(nodes, who, ngbs, free), who, x, y, r, v)
    decreases |ngbs|
  {
    hide Stored, ListSound, Overflows, Displaced, ReportOne;
    var n := ngbs[0];
    var (next, f) := ReportOne(nodes, who, n, free);
    var after := ReportAll(next, who, ngbs[1..], f);
    assert after == ReportAll(nodes, who, ngbs, free);
    ReportOneKeepsSound(nodes, who, n, free);
    if Drops(nodes, who, n, free) {
      var s := Displaced(nodes, who, n, free);
      DisplacedIsStored(nodes, who, n, free);
      ReportOneEntry(nodes, who, n, free, n.addr, s.addr, s.lastReport, s.rssi);
      if Stored(after, n.addr, s.addr, s.lastReport, s.rssi) {
        ReportAllOnly(next, who, ngbs[1..], f, n.addr, s.addr, s.lastReport, s.rssi);
      }
      assert Missing(nodes, after, who, n.addr, s.addr, s.lastReport, s.rssi);
    } else {
      DroppingLoses(next, who, ngbs[1..], f);
      var x: nat, y: nat, r: int, v: int :| Missing(next, after, who, x, y, r, v);
      ReportOneEntry(nodes, who, n, free, x, y, r, v);
      assert Missing(nodes, after, who, x, y, r, v);
    }
  }

  // ---------------------------------------------------------------- ageing and pruning

  lemma OlderEntry(nodes: seq<SensorNode>, x: nat, y: nat, r: int, v: int)
    requires ListSound(nodes, GATEWAY_TIMEOUT + 1) && y != BCAST_ADDR
    ensures Stored(OlderNodes(nodes), x, y, r, v) <==> r >= 1 && Stored(nodes, x, y, r + 1, v)
  {
    FindSame(nodes, OlderNodes(nodes), x);
    FindSame(OlderNodes(nodes), nodes, x);
    if IsListed(nodes, x) {
      var node := nodes[FindNode(nodes, x)];
      assert NodeSound(node, GATEWAY_TIMEOUT + 1);
    }
  }

  lemma AddedEntry(nodes: seq<SensorNode>, addr: nat, x: nat, y: nat, r: int, v: int)
    requires y != BCAST_ADDR
    ensures Stored(AddNode(nodes, addr), x, y, r, v) <==> Stored(nodes, x, y, r, v)
  {
    if !IsListed(nodes, addr) {
      EntryAfterAppend(nodes, CreateNode(addr), x, y, r, v);
    }
  }

  /** What a whole report is meant to leave stored: the pairs it names are fresh, all others one call
    * nearer to expiry. */
  ghost predicate MeantByReport(nodes: seq<SensorNode>, rep: Report, x: nat, y: nat, r: int, v: int) {
    if y == rep.myAddr && LastHeard(rep.ngbs, x).Some? then r == GATEWAY_TIMEOUT && v == LastHeard(rep.ngbs, x).value
    else r >= 1 && Stored(nodes, x, y, r + 1, v)
  }

  /** How many entries of a whole report throw out a neighbour that would have outlived it. */
  function DroppedBy(nodes: seq<SensorNode>, rep: Report, unset: nat): (d: nat)
    requires Shaped(nodes) && unset < MAX_NGBS
    ensures d <= OverflowsOf(nodes, rep, unset)
  {
    Dropping(AddNode(nodes, rep.myAddr), rep.myAddr, rep.ngbs, unset)
  }

  /** A report never makes the gateway store anything else; and if it drops nothing, all of it is stored. */
  lemma ProcessEntry(nodes: seq<SensorNode>, rep: Report, unset: nat, x: nat, y: nat, r: int, v: int)
    requires ListSound(nodes, GATEWAY_TIMEOUT) && Shaped(nodes) && unset < MAX_NGBS
    requires rep.myAddr != BCAST_ADDR && x != BCAST_ADDR && y != BCAST_ADDR
    ensures Stored(Process(nodes, rep, unset), x, y, r, v) ==> MeantByReport(nodes, rep, x, y, r, v)
    ensures DroppedBy(nodes, rep, unset) == 0 && MeantByReport(nodes, rep, x, y, r, v) ==>
              Stored(Process(nodes, rep, unset), x, y, r, v)
  {
    var added := AddNode(nodes, rep.myAddr);
    AddNodeKeepsSound(nodes, rep.myAddr);
    ReportAllKeepsSound(added, rep.myAddr, rep.ngbs, unset);
    OlderEntry(ReportAll(added, rep.myAddr, rep.ngbs, unset), x, y, r, v);
    AddedEntry(nodes, rep.myAddr, x, y, r + 1, v);
    if Stored(ReportAll(added, rep.myAddr, rep.ngbs, unset), x, y, r + 1, v) {
      ReportAllOnly(added, rep.myAddr, rep.ngbs, unset, x, y, r + 1, v);
    }
    if DroppedBy(nodes, rep, unset) == 0 && r >= 1 {
      ReportAllEntry(added, rep.myAddr, rep.ngbs, unset, x, y, r + 1, v);
    }
  }

  ghost predicate Lacks(nodes: seq<SensorNode>, rep: Report, after: seq<SensorNode>, x: nat, y: nat, r: int, v: int) {
    x != BCAST_ADDR && y != BCAST_ADDR && MeantByReport(nodes, rep, x, y, r, v) && !Stored(after, x, y, r, v)
  }

  lemma DroppedIsLacking(nodes: seq<SensorNode>, rep: Report, unset: nat)
    requires ListSound(nodes, GATEWAY_TIMEOUT) && Shaped(nodes) && unset < MAX_NGBS && rep.myAddr != BCAST_ADDR
    requires DroppedBy(nodes, rep, unset) > 0
    ensures exists x: nat, y: nat, r: int, v: int :: Lacks(nodes, rep, Process(nodes, rep, unset), x, y, r, v)
  {
    var added := AddNode(nodes, rep.myAddr);
    AddNodeKeepsSound(nodes, rep.myAddr);
    ReportAllKeepsSound(added, rep.myAddr, rep.ngbs, unset);
    DroppingLoses(added, rep.myAddr, rep.ngbs, unset);
    var all := ReportAll(added, rep.myAddr, rep.ngbs, unset);
    var x: nat, y: nat, r: int, v: int :| Missing(added, all, rep.myAddr, x, y, r, v);
    OlderEntry(all, x, y, r - 1, v);
    AddedEntry(nodes, rep.myAddr, x, y, r, v);
    assert Lacks(nodes, rep, Process(nodes, rep, unset), x, y, r - 1, v);
  }

  ghost predicate ReportAsMeant(nodes: seq<SensorNode>, rep: Report, unset: nat)
    requires Shaped(nodes) && unset < MAX_NGBS
  {
    forall x: nat, y: nat, r: int, v: int :: x != BCAST_ADDR && y != BCAST_ADDR ==>
      (Stored(Process(nodes, rep, unset), x, y, r, v) <==> MeantByReport(nodes, rep, x, y, r, v))
  }

  /** A report does what it is meant to exactly if none of its entries throws out a neighbour that would
    * have outlived it. */
  lemma ProcessExactly(nodes: seq<SensorNode>, rep: Report, unset: nat)
    requires ListSound(nodes, GATEWAY_TIMEOUT) && Shaped(nodes) && unset < MAX_NGBS && rep.myAddr != BCAST_ADDR
    ensures ReportAsMeant(nodes, rep, unset) <==> DroppedBy(nodes, rep, unset) == 0
  {
    if DroppedBy(nodes, rep, unset) == 0 {
      forall x: nat, y: nat, r: int, v: int | x != BCAST_ADDR && y != BCAST_ADDR
        ensures Stored(Process(nodes, rep, unset), x, y, r, v) <==> MeantByReport(nodes, rep, x, y, r, v)
      {
        ProcessEntry(nodes, rep, unset, x, y, r, v);
      }
    } else {
      DroppedIsLacking(nodes, rep, unset);
      var x: nat, y: nat, r: int, v: int :| Lacks(nodes, rep, Process(nodes, rep, unset), x, y, r, v);
      assert !(Stored(Process(nodes, rep, unset), x, y, r, v) <==> MeantByReport(nodes, rep, x, y, r, v));
    }
  }

  /** y is the neighbour x's n pointer names. */
  predicate NamesStrongest(nodes: seq<SensorNode>, x: nat, y: nat) {
    IsListed(nodes, x) &&
    var node := nodes[FindNode(nodes, x)];
    0 <= node.n < |node.ngbs| && node.ngbs[node.n].addr == y
  }

  lemma PrunedEntry(nodes: seq<SensorNode>, x: nat, y: nat, r: int, v: int)
    requires ListSound(nodes, GATEWAY_TIMEOUT) && AllPointAtStrongest(nodes) && y != BCAST_ADDR
    ensures Stored(Pruned(nodes), x, y, r, v) <==>
            Stored(nodes, x, y, r, v) && (v >= RX_POWER_THRESHOLD || NamesStrongest(nodes, x, y))
  {
    FindSame(nodes, Pruned(nodes), x);
    FindSame(Pruned(nodes), nodes, x);
    if IsListed(nodes, x) {
      var k := FindNode(nodes, x);
      assert NodeSound(nodes[k], GATEWAY_TIMEOUT) && PointsAtStrongest(nodes[k]);
    }
  }

  // ---------------------------------------------------------------- the whole history

  /** How many reports are left until the latest one about a pair expires, and its strength. */
  type Knowledge = Option<(int, int)>

  function KnownAfterReport(known: Knowledge, rep: Report, x: nat, y: nat): Knowledge {
    if rep.myAddr == y && LastHeard(rep.ngbs, x).Some? then Some((GATEWAY_TIMEOUT, LastHeard(rep.ngbs, x).value))
    else
      match known
      case None => None
      case Some(e) => if e.0 == 1 then None else Some((e.0 - 1, e.1))
  }

  function KnownAfterPruning(known: Knowledge, strongest: bool): Knowledge {
    match known
    case None => None
    case Some(e) => if e.1 < RX_POWER_THRESHOLD && !strongest then None else known
  }

  /** What the reports and prunings so far say about one pair.  A pruning spares one of a node's strongest
    * neighbours; which, among equally strong ones, depends on the order of the slots, so it is read off
    * the node's n pointer.  PruningByStrength says what that amounts to in terms of what is known. */
  ghost function Known(events: seq<Event>, x: nat, y: nat): Knowledge
    requires forall i :: 0 <= i < |events| ==> Genuine(events[i])
  {
    if events == [] then None
    else
      var rest := events[..|events| - 1];
      match events[|events| - 1]
      case Hears(rep, _) => KnownAfterReport(Known(rest, x, y), rep, x, y)
      case Computes => KnownAfterPruning(Known(rest, x, y), NamesStrongest(AfterEvents(rest), x, y))
  }

  predicate Live(known: Knowledge) {
    known.Some? ==> 1 <= known.value.0 <= GATEWAY_TIMEOUT
  }

  lemma {:induction false} KnownIsLive(events: seq<Event>, x: nat, y: nat)
    requires forall i :: 0 <= i < |events| ==> Genuine(events[i])
    ensures Live(Known(events, x, y))
  {
    if events != [] {
      KnownIsLive(events[..|events| - 1], x, y);
    }
  }

  /** Reading off what is known runs in parallel with storing it. */
  lemma KnownShifts(known: Knowledge, rep: Report, x: nat, y: nat, r: int, v: int)
    requires Live(known)
    ensures KnownAfterReport(known, rep, x, y) == Some((r, v)) <==>
            if y == rep.myAddr && LastHeard(rep.ngbs, x).Some? then
              r == GATEWAY_TIMEOUT && v == LastHeard(rep.ngbs, x).value
            else r >= 1 && known == Some((r + 1, v))
  {
  }

  /** What a report is meant to leave stored is then known, if what was stored before was. */
  lemma MeantIsKnown(nodes: seq<SensorNode>, known: Knowledge, rep: Report, x: nat, y: nat, r: int, v: int)
    requires Live(known) && MeantByReport(nodes, rep, x, y, r, v)
    requires Stored(nodes, x, y, r + 1, v) ==> known == Some((r + 1, v))
    ensures KnownAfterReport(known, rep, x, y) == Some((r, v))
  {
    KnownShifts(known, rep, x, y, r, v);
  }

  lemma StoredAfterReport(nodes: seq<SensorNode>, known: Knowledge, rep: Report, unset: nat,
                          x: nat, y: nat, r: int, v: int)
    requires ListSound(nodes, GATEWAY_TIMEOUT) && Shaped(nodes) && unset < MAX_NGBS && rep.myAddr != BCAST_ADDR
    requires x != BCAST_ADDR && y != BCAST_ADDR && Stored(Process(nodes, rep, unset), x, y, r, v)
    requires Live(known) && (Stored(nodes, x, y, r + 1, v) ==> known == Some((r + 1, v)))
    ensures KnownAfterReport(known, rep, x, y) == Some((r, v))
  {
    ProcessEntry(nodes, rep, unset, x, y, r, v);
    MeantIsKnown(nodes, known, rep, x, y, r, v);
  }

  /** In every run, whatever is stored is known. */
  lemma {:induction false} StoredIsKnown(events: seq<Event>, x: nat, y: nat, r: int, v: int)
    requires forall i :: 0 <= i < |events| ==> Genuine(events[i])
    requires x != BCAST_ADDR && y != BCAST_ADDR && Stored(AfterEvents(events), x, y, r, v)
    ensures Known(events, x, y) == Some((r, v))
  {
    if events != [] {
      hide Stored, ListSound, AllPointAtStrongest, Process, Pruned, NamesStrongest, KnownAfterReport, LastHeard;
      var rest := events[..|events| - 1];
      var nodes := AfterEvents(rest);
      assert Genuine(events[|events| - 1]);
      RunsKeepSound(rest);
      match events[|events| - 1]
      case Hears(rep, unset) =>
        if Stored(nodes, x, y, r + 1, v) {
          StoredIsKnown(rest, x, y, r + 1, v);
        }
        KnownIsLive(rest, x, y);
        StoredAfterReport(nodes, Known(rest, x, y), rep, unset, x, y, r, v);
      case Computes =>
        PrunedEntry(nodes, x, y, r, v);
        StoredIsKnown(rest, x, y, r, v);
    }
  }

  /** How many entries in a run have thrown out a neighbour that would have outlived the report. */
  ghost function TotalDropped(events: seq<Event>): (d: nat)
    requires forall i :: 0 <= i < |events| ==> Genuine(events[i])
    ensures d <= TotalOverflows(events)
  {
    if events == [] then 0
    else
      var e := events[|events| - 1];
      assert Genuine(e);
      TotalDropped(events[..|events| - 1]) +
      if e.Hears? then DroppedBy(AfterEvents(events[..|events| - 1]), e.r, e.unset) else 0
  }

  /** After a run that has dropped nothing, whatever is known is stored. */
  lemma {:induction false} KnownIsStored(events: seq<Event>, x: nat, y: nat, r: int, v: int)
    requires forall i :: 0 <= i < |events| ==> Genuine(events[i])
    requires TotalDropped(events) == 0 && x != BCAST_ADDR && y != BCAST_ADDR && Known(events, x, y) == Some((r, v))
    ensures Stored(AfterEvents(events), x, y, r, v)
  {
    hide Stored, ListSound, AllPointAtStrongest, Process, Pruned, NamesStrongest, KnownAfterReport;
    var rest := events[..|events| - 1];
    var nodes := AfterEvents(rest);
    assert Genuine(events[|events| - 1]);
    RunsKeepSound(rest);
    KnownIsLive(rest, x, y);
    match events[|events| - 1]
    case Hears(rep, unset) =>
      KnownShifts(Known(rest, x, y), rep, x, y, r, v);
      if Known(rest, x, y) == Some((r + 1, v)) {
        KnownIsStored(rest, x, y, r + 1, v);
      }
      ProcessEntry(nodes, rep, unset, x, y, r, v);
    case Computes =>
      KnownIsStored(rest, x, y, r, v);
      PrunedEntry(nodes, x, y, r, v);
  }

  /** Something is known and not stored. */
  ghost predicate Forgotten(events: seq<Event>, x: nat, y: nat)
    requires forall i :: 0 <= i < |events| ==> Genuine(events[i])
  {
    && x != BCAST_ADDR && y != BCAST_ADDR && Known(events, x, y).Some?
    && forall r, v :: !Stored(AfterEvents(events), x, y, r, v)
  }

  ghost predicate NeverForgets(events: seq<Event>)
    requires forall i :: 0 <= i < |events| ==> Genuine(events[i])
  {
    && (events == [] || NeverForgets(events[..|events| - 1]))
    && forall x, y :: !Forgotten(events, x, y)
  }

  lemma NothingForgotten(events: seq<Event>)
    requires forall i :: 0 <= i < |events| ==> Genuine(events[i])
    requires TotalDropped(events) == 0
    ensures forall x, y :: !Forgotten(events, x, y)
  {
    forall x, y ensures !Forgotten(events, x, y) {
      if x != BCAST_ADDR && y != BCAST_ADDR && Known(events, x, y).Some? {
        KnownIsStored(events, x, y, Known(events, x, y).value.0, Known(events, x, y).value.1);
      }
    }
  }

  lemma LackingIsForgotten(events: seq<Event>, x: nat, y: nat, r: int, v: int)
    requires forall i :: 0 <= i < |events| ==> Genuine(events[i])
    requires x != BCAST_ADDR && y != BCAST_ADDR
             && Known(events, x, y) == Some((r, v)) && !Stored(AfterEvents(events), x, y, r, v)
    ensures Forgotten(events, x, y)
  {
    hide Stored, Known;
    forall r', v' ensures !Stored(AfterEvents(events), x, y, r', v') {
      if Stored(AfterEvents(events), x, y, r', v') {
        StoredIsKnown(events, x, y, r', v');
      }
    }
  }

  /** The first report that drops something makes the gateway forget something. */
  lemma FirstDropForgets(events: seq<Event>)
    requires forall i :: 0 <= i < |events| ==> Genuine(events[i])
    requires events != [] && TotalDropped(events) > 0 && TotalDropped(events[..|events| - 1]) == 0
    ensures exists x: nat, y: nat :: Forgotten(events, x, y)
  {
    hide Stored, ListSound, AllPointAtStrongest, Process, DroppedBy, KnownAfterReport, MeantByReport, Forgotten;
    var rest := events[..|events| - 1];
    var e := events[|events| - 1];
    assert Genuine(e);
    RunsKeepSound(rest);
    DroppedIsLacking(AfterEvents(rest), e.r, e.unset);
    var x: nat, y: nat, r: int, v: int :|
      Lacks(AfterEvents(rest), e.r, Process(AfterEvents(rest), e.r, e.unset), x, y, r, v);
    if Stored(AfterEvents(rest), x, y, r + 1, v) {
      StoredIsKnown(rest, x, y, r + 1, v);
    }
    KnownIsLive(rest, x, y);
    MeantIsKnown(AfterEvents(rest), Known(rest, x, y), e.r, x, y, r, v);
    LackingIsForgotten(events, x, y, r, v);
  }

  /** At every moment of a run everything known is stored, exactly if the run has dropped nothing. */
  lemma {:induction false} NeverForgetsExactly(events: seq<Event>)
    requires forall i :: 0 <= i < |events| ==> Genuine(events[i])
    ensures NeverForgets(events) <==> TotalDropped(events) == 0
  {
    if events == [] {
      NothingForgotten(events);
    } else {
      var rest := events[..|events| - 1];
      NeverForgetsExactly(rest);
      if TotalDropped(rest) == 0 {
        if TotalDropped(events) == 0 {
          NothingForgotten(events);
        } else {
          FirstDropForgets(events);
        }
      }
    }
  }

  // ---------------------------------------------------------------- whoever is known is listed

  lemma ReportOneLists(nodes: seq<SensorNode>, who: nat, n: Hello, free: nat, a: nat)
    requires Shaped(nodes) && free < MAX_NGBS && a != BCAST_ADDR
    ensures IsListed(nodes, a) || n.addr == a ==> IsListed(ReportOne(nodes, who, n, free).0, a)
  {
    if n.addr != BCAST_ADDR {
      FindAfterAppend(nodes, NewlyHeard(n.addr, who, n.rssi), a);
      if IsListed(nodes, n.addr) {
        FindSame(nodes, ReportOne(nodes, who, n, free).0, a);
      }
    }
  }

  lemma {:induction false} ReportAllLists(nodes: seq<SensorNode>, who: nat, ngbs: seq<Hello>, free: nat, a: nat)
    requires Shaped(nodes) && free < MAX_NGBS && a != BCAST_ADDR
    ensures IsListed(nodes, a) || LastHeard(ngbs, a).Some? ==> IsListed(ReportAll(nodes, who, ngbs, free), a)
    decreases |ngbs|
  {
    if ngbs != [] {
      ReportOneLists(nodes, who, ngbs[0], free, a);
      var (next, f) := ReportOne(nodes, who, ngbs[0], free);
      ReportAllLists(next, who, ngbs[1..], f, a);
    }
  }

  lemma HandleLists(nodes: seq<SensorNode>, e: Event, a: nat)
    requires Shaped(nodes) && Genuine(e) && a != BCAST_ADDR
    ensures IsListed(nodes, a) ==> IsListed(Handle(nodes, e), a)
    ensures e.Hears? && (e.r.myAddr == a || LastHeard(e.r.ngbs, a).Some?) ==> IsListed(Handle(nodes, e), a)
  {
    match e
    case Hears(rep, unset) =>
      FindAfterAppend(nodes, CreateNode(rep.myAddr), a);
      var all := ReportAll(AddNode(nodes, rep.myAddr), rep.myAddr, rep.ngbs, unset);
      ReportAllLists(AddNode(nodes, rep.myAddr), rep.myAddr, rep.ngbs, unset, a);
      FindSame(all, OlderNodes(all), a);
    case Computes => FindSame(nodes, Pruned(nodes), a);
  }

  lemma {:induction false} KnownIsListed(events: seq<Event>, x: nat, y: nat)
    requires forall i :: 0 <= i < |events| ==> Genuine(events[i])
    requires x != BCAST_ADDR && y != BCAST_ADDR && Known(events, x, y).Some?
    ensures IsListed(AfterEvents(events), x) && IsListed(AfterEvents(events), y)
  {
    var rest := events[..|events| - 1];
    var e := events[|events| - 1];
    assert Genuine(e);
    HandleLists(AfterEvents(rest), e, x);
    HandleLists(AfterEvents(rest), e, y);
    if Known(rest, x, y).Some? {
      KnownIsListed(rest, x, y);
    }
  }

  // ---------------------------------------------------------------- what pruning spares

  /** The neighbour the n pointer names is known, and no known neighbour of the node is stronger. */
  lemma NamedIsStrongest(events: seq<Event>, x: nat, y: nat, z: nat)
    requires forall i :: 0 <= i < |events| ==> Genuine(events[i])
    requires TotalDropped(events) == 0 && x != BCAST_ADDR && z != BCAST_ADDR
    requires NamesStrongest(AfterEvents(events), x, y) && Known(events, x, z).Some?
    ensures y != BCAST_ADDR && Known(events, x, y).Some? && Known(events, x, y).value.1 >= Known(events, x, z).value.1
  {
    var nodes := AfterEvents(events);
    var e := Known(events, x, z).value;
    RunsKeepSound(events);
    KnownIsStored(events, x, z, e.0, e.1);
    var node := nodes[FindNode(nodes, x)];
    assert PointsAtStrongest(node) && AnyUsed(node.ngbs);
    var s := node.ngbs[node.n];
    assert Stored(nodes, x, y, s.lastReport, s.rssi);
    StoredIsKnown(events, x, y, s.lastReport, s.rssi);
  }

  /** best is one of x's strongest known neighbours, and a pruning leaves exactly it and all those that are
    * not weak. */
  ghost predicate Spares(events: seq<Event>, x: nat, best: nat)
    requires forall i :: 0 <= i < |events| ==> Genuine(events[i])
  {
    && Known(events, x, best).Some?
    && (forall z :: z != BCAST_ADDR && Known(events, x, z).Some? ==>
          Known(events, x, z).value.1 <= Known(events, x, best).value.1)
    && forall z :: z != BCAST_ADDR && Known(events, x, z).Some? ==>
         Known(events + [Computes], x, z) ==
         if Known(events, x, z).value.1 >= RX_POWER_THRESHOLD || z == best then Known(events, x, z) else None
  }

  lemma KnownAfterComputes(events: seq<Event>, x: nat, z: nat)
    requires forall i :: 0 <= i < |events| ==> Genuine(events[i])
    ensures Known(events + [Computes], x, z) ==
            KnownAfterPruning(Known(events, x, z), NamesStrongest(AfterEvents(events), x, z))
  {
    assert (events + [Computes])[..|events|] == events;
  }

  lemma NamedIsSpared(events: seq<Event>, x: nat, best: nat, some: nat)
    requires forall i :: 0 <= i < |events| ==> Genuine(events[i])
    requires TotalDropped(events) == 0 && x != BCAST_ADDR && some != BCAST_ADDR && Known(events, x, some).Some?
    requires NamesStrongest(AfterEvents(events), x, best)
    ensures best != BCAST_ADDR && Spares(events, x, best)
  {
    hide Known, AfterEvents;
    NamedIsStrongest(events, x, best, some);
    forall z | z != BCAST_ADDR && Known(events, x, z).Some?
      ensures Known(events, x, z).value.1 <= Known(events, x, best).value.1
    {
      NamedIsStrongest(events, x, best, z);
    }
    forall z | z != BCAST_ADDR && Known(events, x, z).Some?
      ensures Known(events + [Computes], x, z) ==
              if Known(events, x, z).value.1 >= RX_POWER_THRESHOLD || z == best then Known(events, x, z) else None
    {
      KnownAfterComputes(events, x, z);
    }
  }

  lemma SomeoneIsNamed(events: seq<Event>, x: nat, some: nat)
    requires forall i :: 0 <= i < |events| ==> Genuine(events[i])
    requires TotalDropped(events) == 0 && x != BCAST_ADDR && some != BCAST_ADDR && Known(events, x, some).Some?
    ensures exists best: nat :: NamesStrongest(AfterEvents(events), x, best)
  {
    hide Known, AfterEvents;
    var nodes := AfterEvents(events);
    RunsKeepSound(events);
    KnownIsStored(events, x, some, Known(events, x, some).value.0, Known(events, x, some).value.1);
    var node := nodes[FindNode(nodes, x)];
    assert PointsAtStrongest(node) && AnyUsed(node.ngbs);
    assert NamesStrongest(nodes, x, node.ngbs[node.n].addr);
  }

  /** A pruning in terms of what is known: of a node's neighbours it leaves those that are not weak, and
    * one of the strongest.  So a weak link survives only if no link of its node is stronger. */
  lemma PruningByStrength(events: seq<Event>, x: nat, some: nat)
    requires forall i :: 0 <= i < |events| ==> Genuine(events[i])
    requires TotalDropped(events) == 0 && x != BCAST_ADDR && some != BCAST_ADDR && Known(events, x, some).Some?
    ensures exists best: nat :: best != BCAST_ADDR && Spares(events, x, best)
  {
    hide Spares;
    SomeoneIsNamed(events, x, some);
    var best: nat :| NamesStrongest(AfterEvents(events), x, best);
    NamedIsSpared(events, x, best, some);
  }
}
