/** The ageing neighbour table of one node: add_neighbor() is called for every HELLO heard. */
module NeighborTable {
  import opened RoutingTables

  const TIMEOUT_COUNTER: int := 5
  const NRK_OK: int := 1
  const NRK_ERROR: int := -1

  datatype Slot = Slot(addr: nat, rssi: int, lastReport: int, isNew: bool)

  datatype Hello = Hello(addr: nat, rssi: int)

  /** Panicked: the code stops with the message that reports a bug in MAX_NGBS. */
  datatype Reply = Returns(value: int) | Panicked

  datatype Table = Table(slots: seq<Slot>, count: int)

  function EmptySlot(): Slot {
    Slot(BCAST_ADDR, 0, 0, false)
  }

  // ---------------------------------------------------------------- add_neighbor() on values

  predicate Expires(s: Slot, h: Hello) {
    s.addr != h.addr && s.addr != BCAST_ADDR && s.lastReport - 1 == 0
  }

  /** What the first pass does to one slot. */
  function Aged(s: Slot, h: Hello): Slot {
    if s.addr == h.addr then Slot(s.addr, h.rssi, TIMEOUT_COUNTER, false)
    else if s.addr == BCAST_ADDR then s
    else if Expires(s, h) then EmptySlot()
    else s.(lastReport := s.lastReport - 1)
  }

  function Pass(slots: seq<Slot>, h: Hello): (r: seq<Slot>)
    ensures |r| == |slots|
    ensures forall i :: 0 <= i < |slots| ==> r[i] == Aged(slots[i], h)
  {
    seq(|slots|, i requires 0 <= i < |slots| => Aged(slots[i], h))
  }

  function Expired(slots: seq<Slot>, h: Hello): nat {
    if slots == [] then 0 else (if Expires(slots[|slots| - 1], h) then 1 else 0) + Expired(slots[..|slots| - 1], h)
  }

  predicate Has(slots: seq<Slot>, addr: nat) {
    exists i :: 0 <= i < |slots| && slots[i].addr == addr
  }

  /** Index of the first unused slot, or the end. */
  function FirstUnused(slots: seq<Slot>): (k: nat)
    ensures k <= |slots|
    ensures k < |slots| ==> slots[k].addr == BCAST_ADDR
    ensures forall i :: 0 <= i < k ==> slots[i].addr != BCAST_ADDR
  {
    if slots == [] || slots[0].addr == BCAST_ADDR then 0 else 1 + FirstUnused(slots[1..])
  }

  function Add(t: Table, h: Hello): (Table, Reply) {
    var aged := Table(Pass(t.slots, h), t.count - Expired(t.slots, h));
    if Has(t.slots, h.addr) then (aged, Returns(NRK_OK))
    else if aged.count == |t.slots| then (aged, Returns(NRK_ERROR))
    else
      var k := FirstUnused(aged.slots);
      if k == |aged.slots| then (aged, Panicked)
      else (Table(aged.slots[k := Slot(h.addr, h.rssi, TIMEOUT_COUNTER, true)], aged.count + 1), Returns(NRK_OK))
  }

  // ---------------------------------------------------------------- add_neighbor() in place

  class NeighborList {
    const ngbs: array<Slot>
    var count: int

    ghost function State(): Table
      reads this, ngbs
    {
      Table(ngbs[..], count)
    }

    constructor (maxNgbs: nat)
      ensures fresh(ngbs) && State() == Empty(maxNgbs)
    {
      ngbs := new Slot[maxNgbs](_ => EmptySlot());
      count := 0;
    }

    method AddNeighbor(h: Hello) returns (reply: Reply)
      modifies this, ngbs
      ensures (State(), reply) == Add(old(State()), h)
    {
      var found := FirstPass(h);
      if found {
        return Returns(NRK_OK);
      }
      if count == ngbs.Length {
        return Returns(NRK_ERROR);
      }
      var i := 0;
      while i < ngbs.Length
        invariant 0 <= i <= ngbs.Length
        invariant forall j :: 0 <= j < i ==> ngbs[j].addr != BCAST_ADDR
      {
        if ngbs[i].addr == BCAST_ADDR {
          break;
        }
        i := i + 1;
      }
      if i == ngbs.Length {
        return Panicked;
      }
      ngbs[i] := Slot(h.addr, h.rssi, TIMEOUT_COUNTER, true);
      count := count + 1;
      reply := Returns(NRK_OK);
    }

    /** The first pass refreshes the sender's slot and ages all others. */
    method FirstPass(h: Hello) returns (found: bool)
      modifies this, ngbs
      ensures ngbs[..] == Pass(old(ngbs[..]), h)
      ensures count == old(count) - Expired(old(ngbs[..]), h)
      ensures found == Has(old(ngbs[..]), h.addr)
    {
      found := false;
      ghost var was := ngbs[..];
      for i := 0 to ngbs.Length
        invariant forall j :: 0 <= j < i ==> ngbs[j] == Aged(was[j], h)
        invariant forall j :: i <= j < ngbs.Length ==> ngbs[j] == was[j]
        invariant found <==> exists j :: 0 <= j < i && was[j].addr == h.addr
        invariant count == old(count) - Expired(was[..i], h)
      {
        assert was[..i + 1][..i] == was[..i];
        if ngbs[i].addr == h.addr {
          found := true;
          ngbs[i] := ngbs[i].(lastReport := TIMEOUT_COUNTER, isNew := false, rssi := h.rssi);
        } else if ngbs[i].addr != BCAST_ADDR {
          ngbs[i] := ngbs[i].(lastReport := ngbs[i].lastReport - 1);
          if ngbs[i].lastReport == 0 {
            ngbs[i] := ngbs[i].(addr := BCAST_ADDR, rssi := 0, isNew := false);
            count := count - 1;
          }
        }
      }
      assert was[..|was|] == was;
    }
  }

  // ---------------------------------------------------------------- what every call keeps

  function Empty(size: nat): Table {
    Table(seq(size, _ => EmptySlot()), 0)
  }

  function Used(slots: seq<Slot>): nat {
    if slots == [] then 0 else (if slots[|slots| - 1].addr != BCAST_ADDR then 1 else 0) + Used(slots[..|slots| - 1])
  }

  ghost predicate DistinctSenders(slots: seq<Slot>) {
    forall i, j :: 0 <= i < j < |slots| && slots[i].addr != BCAST_ADDR ==> slots[i].addr != slots[j].addr
  }

  ghost predicate Timed(slots: seq<Slot>) {
    forall i :: 0 <= i < |slots| && slots[i].addr != BCAST_ADDR ==> 1 <= slots[i].lastReport <= TIMEOUT_COUNTER
  }

  ghost predicate Sound(t: Table) {
    DistinctSenders(t.slots) && Timed(t.slots) && Used(t.slots) <= t.count <= |t.slots|
  }

  lemma {:induction false} UsedAfterPass(slots: seq<Slot>, h: Hello)
    ensures Used(Pass(slots, h)) == Used(slots) - Expired(slots, h)
  {
    if slots != [] {
      UsedAfterPass(slots[..|slots| - 1], h);
      assert Pass(slots, h)[..|slots| - 1] == Pass(slots[..|slots| - 1], h);
    }
  }

  lemma {:induction false} UsedAfterStore(slots: seq<Slot>, k: nat, s: Slot)
    requires k < |slots|
    ensures Used(slots[k := s]) == Used(slots) - (if slots[k].addr != BCAST_ADDR then 1 else 0) +
                                   (if s.addr != BCAST_ADDR then 1 else 0)
  {
    var last := |slots| - 1;
    if k == last {
      assert slots[k := s][..last] == slots[..last];
    } else {
      UsedAfterStore(slots[..last], k, s);
      assert slots[k := s][..last] == slots[..last][k := s];
    }
  }

  /** A table with every slot used counts them all. */
  lemma {:induction false} UsedWhenFull(slots: seq<Slot>)
    ensures Used(slots) <= |slots|
    ensures Used(slots) == |slots| <==> !Has(slots, BCAST_ADDR)
  {
    if slots != [] {
      var last := |slots| - 1;
      UsedWhenFull(slots[..last]);
      if slots[last].addr != BCAST_ADDR && Has(slots, BCAST_ADDR) {
        var i :| 0 <= i < |slots| && slots[i].addr == BCAST_ADDR;
        assert slots[..last][i].addr == BCAST_ADDR;
      }
    }
  }

  /** The HELLO that makes count one too many: it claims to come from the broadcast address, every slot
    * is used, and one of them expires in this very call. */
  predicate Miscounts(t: Table, h: Hello) {
    h.addr == BCAST_ADDR && !Has(t.slots, BCAST_ADDR) && Expired(t.slots, h) > 0
  }

  lemma {:induction false} ExpiredLeavesUnused(slots: seq<Slot>, h: Hello)
    requires Expired(slots, h) > 0
    ensures Has(Pass(slots, h), BCAST_ADDR)
  {
    var last := |slots| - 1;
    if Expires(slots[last], h) {
      assert Pass(slots, h)[last].addr == BCAST_ADDR;
    } else {
      ExpiredLeavesUnused(slots[..last], h);
      var i :| 0 <= i < last && Pass(slots[..last], h)[i].addr == BCAST_ADDR;
      assert Pass(slots, h)[i].addr == BCAST_ADDR;
    }
  }

  lemma AddCounts(t: Table, h: Hello)
    requires Used(t.slots) <= t.count <= |t.slots|
    ensures var (after, reply) := Add(t, h);
            && reply != Panicked && |after.slots| == |t.slots|
            && Used(after.slots) <= after.count <= |after.slots|
            && (Used(t.slots) == t.count ==> (Used(after.slots) == after.count <==> !Miscounts(t, h)))
  {
    var aged := Pass(t.slots, h);
    UsedAfterPass(t.slots, h);
    UsedWhenFull(aged);
    UsedWhenFull(t.slots);
    var k := FirstUnused(aged);
    if !Has(t.slots, h.addr) && t.count - Expired(t.slots, h) != |t.slots| {
      UsedAfterStore(aged, k, Slot(h.addr, h.rssi, TIMEOUT_COUNTER, true));
    }
    if Expired(t.slots, h) > 0 {
      ExpiredLeavesUnused(t.slots, h);
    }
  }

  lemma AddKeepsEntries(t: Table, h: Hello)
    requires DistinctSenders(t.slots) && Timed(t.slots)
    ensures DistinctSenders(Add(t, h).0.slots) && Timed(Add(t, h).0.slots)
  {
  }

  /** Every call keeps the table sound, for any HELLO at all, and never reaches the sanity panic; a table
    * whose count was right still counts right, exactly unless the HELLO miscounts. */
  lemma AddKeepsSound(t: Table, h: Hello)
    requires Sound(t)
    ensures Sound(Add(t, h).0) && Add(t, h).1 != Panicked && |Add(t, h).0.slots| == |t.slots|
    ensures Used(t.slots) == t.count ==>
              (Used(Add(t, h).0.slots) == Add(t, h).0.count <==> !Miscounts(t, h))
  {
    AddCounts(t, h);
    AddKeepsEntries(t, h);
  }

  // ---------------------------------------------------------------- what the table says about the HELLOs

  /** The table after a sequence of HELLOs, the latest last. */
  function After(size: nat, hs: seq<Hello>): Table {
    if hs == [] then Empty(size) else Add(After(size, hs[..|hs| - 1]), hs[|hs| - 1]).0
  }

  lemma {:induction false} UsedNone(slots: seq<Slot>)
    requires forall i :: 0 <= i < |slots| ==> slots[i].addr == BCAST_ADDR
    ensures Used(slots) == 0
  {
    if slots != [] {
      UsedNone(slots[..|slots| - 1]);
    }
  }

  lemma {:induction false} AlwaysSound(size: nat, hs: seq<Hello>)
    ensures Sound(After(size, hs)) && |After(size, hs).slots| == size
  {
    if hs == [] {
      UsedNone(Empty(size).slots);
    } else {
      AlwaysSound(size, hs[..|hs| - 1]);
      AddKeepsSound(After(size, hs[..|hs| - 1]), hs[|hs| - 1]);
    }
  }

  ghost predicate AlwaysCounts(size: nat, hs: seq<Hello>) {
    && (hs == [] || AlwaysCounts(size, hs[..|hs| - 1]))
    && Used(After(size, hs).slots) == After(size, hs).count
  }

  predicate NeverMiscounts(size: nat, hs: seq<Hello>) {
    hs == [] || (NeverMiscounts(size, hs[..|hs| - 1]) && !Miscounts(After(size, hs[..|hs| - 1]), hs[|hs| - 1]))
  }

  /** At every moment count is the number of used slots, exactly if no HELLO has miscounted; none does that
    * does not claim to come from the broadcast address. */
  lemma {:induction false} CountIsExact(size: nat, hs: seq<Hello>)
    ensures AlwaysCounts(size, hs) <==> NeverMiscounts(size, hs)
    ensures (forall i :: 0 <= i < |hs| ==> hs[i].addr != BCAST_ADDR) ==> NeverMiscounts(size, hs)
  {
    if hs == [] {
      UsedNone(Empty(size).slots);
    } else {
      CountIsExact(size, hs[..|hs| - 1]);
      AlwaysSound(size, hs[..|hs| - 1]);
      AddKeepsSound(After(size, hs[..|hs| - 1]), hs[|hs| - 1]);
    }
  }

  ghost predicate Listed(slots: seq<Slot>, addr: nat, lastReport: int, rssi: int) {
    exists i :: 0 <= i < |slots| && slots[i].addr == addr && slots[i].lastReport == lastReport && slots[i].rssi == rssi
  }

  /** addr last reported k calls ago. */
  ghost predicate LastReported(hs: seq<Hello>, addr: nat, k: nat) {
    k < |hs| && hs[|hs| - 1 - k].addr == addr && forall j :: |hs| - k <= j < |hs| ==> hs[j].addr != addr
  }

  /** The table as it was k calls ago admitted the sender of that call. */
  ghost predicate Accepted(size: nat, hs: seq<Hello>, k: nat) {
    k < |hs| && Admits(After(size, hs[..|hs| - 1 - k]), hs[|hs| - 1 - k])
  }

  /** A call accepts a sender that is listed already, and a new one if there is room once the entries that
    * have had their time are gone. */
  ghost predicate Admits(t: Table, h: Hello) {
    || Has(t.slots, h.addr)
    || t.count < |t.slots|
    || exists i :: 0 <= i < |t.slots| && TimeUp(t.slots[i], h.addr)
  }

  /** One report left to live, and this one is another node's. */
  ghost predicate TimeUp(s: Slot, sender: nat) {
    s.lastReport == 1 && s.addr != sender && s.addr != BCAST_ADDR
  }

  lemma {:induction false} ExpiredExactly(slots: seq<Slot>, h: Hello)
    ensures Expired(slots, h) > 0 <==> exists i :: 0 <= i < |slots| && TimeUp(slots[i], h.addr)
  {
    if slots != [] {
      var last := |slots| - 1;
      ExpiredExactly(slots[..last], h);
      if Expires(slots[last], h) {
        assert TimeUp(slots[last], h.addr);
      } else if i :| 0 <= i < |slots| && TimeUp(slots[i], h.addr) {
        assert slots[..last][i] == slots[i];
      }
      if i :| 0 <= i < last && TimeUp(slots[..last][i], h.addr) {
        assert TimeUp(slots[i], h.addr);
      }
    }
  }

  /** The reply says whether the table admits the sender; while count is right, room for a new one means an
    * unused slot or one that is freed in this very call. */
  lemma RepliesExactly(t: Table, h: Hello)
    requires Sound(t)
    ensures Add(t, h).1 == if Admits(t, h) then Returns(NRK_OK) else Returns(NRK_ERROR)
    ensures Used(t.slots) == t.count ==>
              (Admits(t, h) <==>
                || Has(t.slots, h.addr) || Has(t.slots, BCAST_ADDR)
                || exists i :: 0 <= i < |t.slots| && TimeUp(t.slots[i], h.addr))
  {
    AddKeepsSound(t, h);
    ExpiredExactly(t.slots, h);
    UsedWhenFull(t.slots);
    UsedAfterPass(t.slots, h);
    UsedWhenFull(Pass(t.slots, h));
  }

  /** The sender's own entry after a call. */
  lemma SenderAfterAdd(t: Table, h: Hello, r: int, s: int)
    requires Sound(t) && h.addr != BCAST_ADDR
    ensures Listed(Add(t, h).0.slots, h.addr, r, s) <==>
            Admits(t, h) && r == TIMEOUT_COUNTER && s == h.rssi
  {
    RepliesExactly(t, h);
    AddKeepsSound(t, h);
    var after := Add(t, h).0.slots;
    var aged := Pass(t.slots, h);
    if i :| 0 <= i < |t.slots| && t.slots[i].addr == h.addr {
      assert Has(t.slots, h.addr);
      assert after[i] == Slot(h.addr, h.rssi, TIMEOUT_COUNTER, false);
      forall j | 0 <= j < |after| && after[j].addr == h.addr ensures j == i {
        assert t.slots[j].addr == h.addr;
      }
    } else {
      forall j | 0 <= j < |aged| ensures aged[j].addr != h.addr {
        assert t.slots[j].addr != h.addr;
      }
      if Admits(t, h) {
        assert after[FirstUnused(aged)] == Slot(h.addr, h.rssi, TIMEOUT_COUNTER, true);
      }
    }
  }

  /** An entry is marked new by the call that lists its sender, until the sender is heard again. */
  lemma NewUntilHeardAgain(t: Table, h: Hello, i: nat)
    requires Sound(t) && h.addr != BCAST_ADDR && i < |t.slots|
    ensures |Add(t, h).0.slots| == |t.slots|
    ensures var s := Add(t, h).0.slots[i];
            s.addr != BCAST_ADDR ==>
              s.isNew == if s.addr == h.addr then !Has(t.slots, h.addr)
                         else t.slots[i].isNew && t.slots[i].addr == s.addr
  {
    var aged := Pass(t.slots, h);
    assert aged[i] == Aged(t.slots[i], h);
  }

  /** Anyone else's entry after a call: one step older, and gone when its time is up. */
  lemma OthersAfterAdd(t: Table, h: Hello, addr: nat, r: int, s: int)
    requires Sound(t) && addr != BCAST_ADDR && addr != h.addr
    ensures Listed(Add(t, h).0.slots, addr, r, s) <==> r >= 1 && Listed(t.slots, addr, r + 1, s)
  {
    AddKeepsSound(t, h);
    var after := Add(t, h).0.slots;
    var aged := Pass(t.slots, h);
    if Listed(after, addr, r, s) {
      var i :| 0 <= i < |after| && after[i].addr == addr && after[i].lastReport == r && after[i].rssi == s;
      assert aged[i] == after[i] && aged[i] == Aged(t.slots[i], h);
    }
    if r >= 1 && Listed(t.slots, addr, r + 1, s) {
      var i :| 0 <= i < |t.slots| && t.slots[i].addr == addr && t.slots[i].lastReport == r + 1 && t.slots[i].rssi == s;
      assert aged[i] == t.slots[i].(lastReport := r);
      assert after[i] == aged[i];
    }
  }

  lemma LastReportedStep(hs: seq<Hello>, addr: nat, k: nat)
    requires hs != []
    ensures LastReported(hs, addr, k) <==>
            if hs[|hs| - 1].addr == addr then k == 0 else k > 0 && LastReported(hs[..|hs| - 1], addr, k - 1)
  {
    var rest := hs[..|hs| - 1];
    if k > 0 {
      assert k < |hs| ==> hs[|hs| - 1 - k] == rest[|rest| - 1 - (k - 1)];
      if hs[|hs| - 1].addr != addr && LastReported(rest, addr, k - 1) {
        forall j | |hs| - k <= j < |hs| ensures hs[j].addr != addr {
          assert j < |rest| ==> hs[j] == rest[j];
        }
      }
    }
  }

  lemma AcceptedStep(size: nat, hs: seq<Hello>, k: nat)
    requires hs != [] && k > 0
    ensures Accepted(size, hs, k) <==> Accepted(size, hs[..|hs| - 1], k - 1)
  {
    var rest := hs[..|hs| - 1];
    if k < |hs| {
      assert hs[..|hs| - 1 - k] == rest[..|rest| - 1 - (k - 1)];
    }
  }

  /** What the table should say about an address whose last report was k calls ago. */
  ghost predicate Recent(size: nat, hs: seq<Hello>, addr: nat, k: nat, rssi: int) {
    && k < TIMEOUT_COUNTER && LastReported(hs, addr, k) && Accepted(size, hs, k)
    && hs[|hs| - 1 - k].rssi == rssi
  }

  lemma RecentStep(size: nat, hs: seq<Hello>, addr: nat, k: nat, rssi: int)
    requires hs != [] && hs[|hs| - 1].addr != addr
    ensures Recent(size, hs, addr, k, rssi) <==>
            0 < k < TIMEOUT_COUNTER && Recent(size, hs[..|hs| - 1], addr, k - 1, rssi)
  {
    var rest := hs[..|hs| - 1];
    LastReportedStep(hs, addr, k);
    if k > 0 {
      AcceptedStep(size, hs, k);
      assert k < |hs| ==> hs[|hs| - 1 - k] == rest[|rest| - 1 - (k - 1)];
    }
  }

  /** For every sequence of HELLOs: an address is listed with lastReport TIMEOUT_COUNTER - k exactly when
    * its last report was k calls ago, that is fewer than TIMEOUT_COUNTER, and was accepted; the rssi
    * listed is that report's. */
  lemma {:induction false} TableIsRecent(size: nat, hs: seq<Hello>, addr: nat, k: nat, rssi: int)
    requires addr != BCAST_ADDR
    ensures Listed(After(size, hs).slots, addr, TIMEOUT_COUNTER - k, rssi) <==> Recent(size, hs, addr, k, rssi)
    decreases |hs|
  {
    if hs != [] {
      var rest := hs[..|hs| - 1];
      var h := hs[|hs| - 1];
      AlwaysSound(size, rest);
      if h.addr == addr {
        SenderAfterAdd(After(size, rest), h, TIMEOUT_COUNTER - k, rssi);
      } else {
        OthersAfterAdd(After(size, rest), h, addr, TIMEOUT_COUNTER - k, rssi);
        RecentStep(size, hs, addr, k, rssi);
        if k > 0 {
          TableIsRecent(size, rest, addr, k - 1, rssi);
        } else {
          NoneOlder(After(size, rest), addr, rssi);
        }
      }
    }
  }

  lemma NoneOlder(t: Table, addr: nat, rssi: int)
    requires Sound(t) && addr != BCAST_ADDR
    ensures !Listed(t.slots, addr, TIMEOUT_COUNTER + 1, rssi)
  {
  }

  // ---------------------------------------------------------------- a run that miscounts

  function Heard(addr: nat, left: int): Slot {
    Slot(addr, 0, left, true)
  }

  lemma {:induction false} NoneExpires(slots: seq<Slot>, h: Hello)
    requires forall i :: 0 <= i < |slots| ==> !Expires(slots[i], h)
    ensures Expired(slots, h) == 0
  {
    if slots != [] {
      NoneExpires(slots[..|slots| - 1], h);
    }
  }

  /** A new sender takes the first unused slot. */
  lemma Joins(t: Table, h: Hello, k: nat, after: Table)
    requires k < |t.slots| == |after.slots| && t.count != |t.slots| && t.slots[k].addr == BCAST_ADDR
    requires forall i :: 0 <= i < |t.slots| ==> t.slots[i].addr != h.addr && !Expires(t.slots[i], h)
    requires forall i :: 0 <= i < k ==> t.slots[i].addr != BCAST_ADDR
    requires after.count == t.count + 1
    requires forall i :: 0 <= i < |t.slots| ==>
               after.slots[i] == if i == k then Slot(h.addr, h.rssi, TIMEOUT_COUNTER, true) else Aged(t.slots[i], h)
    ensures Add(t, h).0 == after
  {
    NoneExpires(t.slots, h);
    assert FirstUnused(Pass(t.slots, h)) == k;
  }

  lemma AfterOne(size: nat, hs: seq<Hello>, h: Hello)
    ensures After(size, hs + [h]) == Add(After(size, hs), h).0
  {
    assert (hs + [h])[..|hs|] == hs;
  }

  function FirstHellos(n: nat): (hs: seq<Hello>)
    ensures |hs| == n && forall i :: 0 <= i < n ==> hs[i] == Hello(i + 1, 0)
  {
    seq(n, i requires 0 <= i < n => Hello(i + 1, 0))
  }

  /** The table after n <= 5 of them. */
  function Filled(n: nat): (t: Table)
    ensures |t.slots| == 5 && t.count == n
    ensures forall i :: 0 <= i < 5 ==> t.slots[i] == if i < n then Heard(i + 1, i + 6 - n) else EmptySlot()
  {
    Table(seq(5, i requires 0 <= i < 5 => if i < n then Heard(i + 1, i + 6 - n) else EmptySlot()), n)
  }

  lemma {:induction false} HellosFill(n: nat)
    requires n <= 5
    ensures After(5, FirstHellos(n)) == Filled(n)
  {
    if n > 0 {
      HellosFill(n - 1);
      assert FirstHellos(n) == FirstHellos(n - 1) + [Hello(n, 0)];
      AfterOne(5, FirstHellos(n - 1), Hello(n, 0));
      Joins(Filled(n - 1), Hello(n, 0), n - 1, Filled(n));
    } else {
      assert Filled(0) == Empty(5);
    }
  }

  lemma {:induction false} OneExpires(slots: seq<Slot>, h: Hello)
    requires slots != [] && Expires(slots[0], h) && forall i :: 0 < i < |slots| ==> !Expires(slots[i], h)
    ensures Expired(slots, h) == 1
  {
    if |slots| > 1 {
      OneExpires(slots[..|slots| - 1], h);
    } else {
      assert slots[..0] == [];
    }
  }

  lemma BroadcastAdds()
    ensures var t, h := Filled(5), Hello(BCAST_ADDR, 0);
            && Miscounts(t, h) && Add(t, h).0.count == 5 && Used(Add(t, h).0.slots) == 4
  {
    var t, h := Filled(5), Hello(BCAST_ADDR, 0);
    OneExpires(t.slots, h);
    UsedAfterPass(t.slots, h);
    UsedWhenFull(t.slots);
    assert FirstUnused(Pass(t.slots, h)) == 0;
    hide Used, Pass, FirstUnused;
    UsedAfterStore(Pass(t.slots, h), 0, Slot(BCAST_ADDR, 0, TIMEOUT_COUNTER, true));
  }

  /** Five nodes fill a table of five; then a HELLO from the broadcast address arrives as the first of them
    * expires, and afterwards the table counts five and uses four. */
  lemma BroadcastHelloMiscounts()
    ensures var hs := FirstHellos(5);
            && NeverMiscounts(5, hs) && Miscounts(After(5, hs), Hello(BCAST_ADDR, 0))
            && After(5, hs + [Hello(BCAST_ADDR, 0)]).count == 5
            && Used(After(5, hs + [Hello(BCAST_ADDR, 0)]).slots) == 4
  {
    HellosFill(5);
    CountIsExact(5, FirstHellos(5));
    AfterOne(5, FirstHellos(5), Hello(BCAST_ADDR, 0));
    BroadcastAdds();
  }
}
