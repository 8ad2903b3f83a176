/** The shared receive-buffer pool across all ports: which buffers are unallocated, which a port owns,
  * which are lost, and how the separately kept count num_bufs_free relates to them.
  */
module SocketPool {
  import opened PriorityQueue
  import opened ReceiveSpec
  import opened ReceiveRuns
  import opened SocketSpec

  function One(c: bool): nat {
    if c then 1 else 0
  }

  /** How many times a port's queues hold buffer b. */
  ghost function Claims<T>(q: PortQueues<T>, b: nat): nat {
    multiset(q.fq)[b] + multiset(q.pq)[b] + One(b in q.stranded)
  }

  ghost function Owners<T>(rbm: seq<Rbm<T>>, b: nat): nat {
    if rbm == [] then 0 else Claims(rbm[0].q, b) + Owners(rbm[1..], b)
  }

  /** Buffer b is in exactly one place: unallocated, owned by one port, or lost. */
  ghost predicate Placed<T>(l: Layer<T>, lost: set<nat>, b: nat) {
    One(Unallocated(l.unalloc, b)) + Owners(l.rbm, b) + One(b in lost) == One(b < |l.unalloc|)
  }

  ghost predicate Pool<T>(l: Layer<T>, lost: set<nat>) {
    forall b: nat :: Placed(l, lost, b)
  }

  /** num_bufs_free never promises more buffers than there are. */
  ghost predicate Counted<T>(l: Layer<T>) {
    0 <= l.numBufsFree <= CountOf(l.unalloc, true)
  }

  /** How far num_bufs_free falls short of the number of unallocated buffers. */
  function Shortfall<T>(l: Layer<T>): int {
    CountOf(l.unalloc, true) - l.numBufsFree
  }

  // ---------------------------------------------------------------- sums and counts

  lemma {:induction false} OwnersUpdate<T>(rbm: seq<Rbm<T>>, r: nat, e: Rbm<T>, b: nat)
    requires r < |rbm|
    ensures Owners(rbm[r := e], b) + Claims(rbm[r].q, b) == Owners(rbm, b) + Claims(e.q, b)
  {
    if r == 0 {
      assert rbm[r := e][1..] == rbm[1..];
    } else {
      OwnersUpdate(rbm[1..], r - 1, e, b);
      assert rbm[r := e][1..] == rbm[1..][r - 1 := e];
    }
  }

  lemma {:induction false} ClaimsWithin<T>(rbm: seq<Rbm<T>>, r: nat, b: nat)
    requires r < |rbm|
    ensures Claims(rbm[r].q, b) <= Owners(rbm, b)
  {
    if r > 0 {
      ClaimsWithin(rbm[1..], r - 1, b);
    }
  }

  lemma {:induction false} CountFlips(u: seq<bool>, b: nat, v: bool)
    requires b < |u|
    ensures CountOf(u[b := v], true) == CountOf(u, true) - One(u[b]) + One(v)
  {
    if b == 0 {
      assert u[b := v][1..] == u[1..];
    } else {
      CountFlips(u[1..], b - 1, v);
      assert u[b := v][1..] == u[1..][b - 1 := v];
    }
  }

  /** While one is counted, the search for an unallocated buffer finds one. */
  lemma {:induction false} CountedIsFound(u: seq<bool>)
    requires CountOf(u, true) > 0
    ensures First(u, (x: bool) => x) < |u|
  {
    if !u[0] {
      CountedIsFound(u[1..]);
    }
  }

  // ---------------------------------------------------------------- what keeps each port's claims

  lemma TakeOutClaims(s: seq<nat>, k: nat, b: nat)
    requires k < |s|
    ensures multiset(s)[b] == multiset(Without(s, k))[b] + One(b == s[k])
  {
    assert s == s[..k] + [s[k]] + s[k + 1..];
  }

  lemma SpliceClaims(s: seq<nat>, k: nat, x: nat, b: nat)
    requires k <= |s|
    ensures multiset(Spliced(s, k, x))[b] == multiset(s)[b] + One(b == x)
  {
    assert s == s[..k] + s[k..];
  }

  lemma FrontClaims(s: seq<nat>, b: nat)
    requires s != []
    ensures multiset(s)[b] == multiset(Front(s))[b] + One(b == s[|s| - 1])
  {
    assert s == Front(s) + [s[|s| - 1]];
  }

  lemma EvictKeepsClaims<T>(p: PortQueues<T>, x: Item<T>, b: nat)
    requires Aligned(p) && p.queue != [] && Claims(p, p.pq[|p.pq| - 1]) <= 1
    ensures Claims(Evict(p, x), b) == Claims(p, b)
  {
    FrontClaims(p.pq, b);
    var last := p.pq[|p.pq| - 1];
    if Strands(p.queue, x.prio) {
      assert last in multiset(p.pq);
    } else {
      SpliceClaims(Front(p.pq), Place(Front(p.queue), x.prio), last, b);
    }
  }

  lemma ArriveKeepsClaims<T>(p: PortQueues<T>, x: Item<T>, overwrite: bool, b: nat)
    requires Aligned(p) && forall c: nat :: Claims(p, c) <= 1
    ensures Claims(Arrive(p, x, overwrite), b) == Claims(p, b)
  {
    var f := FirstWith(p.held, false);
    if f < |p.held| {
      TakeOutClaims(p.fq, f, b);
      SpliceClaims(p.pq, Place(p.queue, x.prio), p.fq[f], b);
    } else if p.queue != [] && Replaces(p.queue, x.prio, overwrite) {
      EvictKeepsClaims(p, x, b);
    }
  }

  lemma AcceptKeepsClaims<T>(p: PortQueues<T>, b: nat)
    requires Aligned(p) && p.queue != []
    ensures Claims(Accept(p), b) == Claims(p, b)
  {
    assert p.pq == [p.pq[0]] + p.pq[1..];
  }

  /** Replacing a port's queues by queues with the same claims keeps the pool. */
  lemma SameClaimsKeepPool<T>(l: Layer<T>, lost: set<nat>, r: nat, e: Rbm<T>)
    requires Pool(l, lost) && r < |l.rbm|
    requires forall b: nat :: Claims(e.q, b) == Claims(l.rbm[r].q, b)
    ensures Pool(l.(rbm := l.rbm[r := e]), lost)
  {
    var m := l.(rbm := l.rbm[r := e]);
    forall b: nat ensures Placed(m, lost, b) {
      assert Placed(l, lost, b);
      OwnersUpdate(l.rbm, r, e, b);
    }
  }

  lemma ClaimedOnce<T>(l: Layer<T>, lost: set<nat>, r: nat, b: nat)
    requires Pool(l, lost) && r < |l.rbm|
    ensures Claims(l.rbm[r].q, b) <= 1
    ensures Claims(l.rbm[r].q, b) == 1 ==> b < |l.unalloc| && !l.unalloc[b] && b !in lost
  {
    assert Placed(l, lost, b);
    ClaimsWithin(l.rbm, r, b);
  }

  // ---------------------------------------------------------------- allocation

  lemma AllocateKeepsPool<T>(l: Layer<T>, lost: set<nat>, r: nat)
    requires Pool(l, lost) && r < |l.rbm| && FreeBuffer(l) < |l.unalloc|
    ensures Pool(Allocate(l, r), lost)
  {
    var m := Allocate(l, r);
    forall c: nat ensures Placed(m, lost, c) {
      assert Placed(l, lost, c);
      OwnersUpdate(l.rbm, r, m.rbm[r], c);
    }
  }

  /** While num_bufs_free does not overstate the pool, allocating that many buffers never fails; only
    * the free queue of the one port grows, by exactly the buffers taken. */
  lemma {:induction false} AllocateManySucceeds<T>(l: Layer<T>, lost: set<nat>, r: nat, n: nat)
    requires Pool(l, lost) && Counted(l) && r < |l.rbm| && n <= l.numBufsFree
    ensures AllocateMany(l, r, n).Some?
    ensures var m := AllocateMany(l, r, n).value;
            && Pool(m, lost) && Counted(m) && Shortfall(m) == Shortfall(l)
            && m.numBufsFree == l.numBufsFree - n
            && m.sock == l.sock && m.ports == l.ports && |m.rbm| == |l.rbm| && |m.unalloc| == |l.unalloc|
            && m.rbm == l.rbm[r := m.rbm[r]] && m.rbm[r].pindex == l.rbm[r].pindex
            && Granted(l.rbm[r].q, m.rbm[r].q, n)
    decreases n
  {
    if n > 0 {
      CountedIsFound(l.unalloc);
      AllocateKeepsPool(l, lost, r);
      CountFlips(l.unalloc, FreeBuffer(l), false);
      AllocateManySucceeds(Allocate(l, r), lost, r, n - 1);
      var m := AllocateMany(l, r, n).value;
      assert m.rbm == l.rbm[r := m.rbm[r]];
    } else {
      assert l.rbm == l.rbm[r := l.rbm[r]];
    }
  }

  /** n further empty buffers stand at the end of the free queue; everything else is as it was. */
  ghost predicate Granted<T>(p: PortQueues<T>, q: PortQueues<T>, n: nat) {
    && |q.fq| == |p.fq| + n && |q.held| == |p.held| + n
    && p.fq <= q.fq && p.held <= q.held
    && (forall i :: |p.held| <= i < |q.held| ==> !q.held[i])
    && q.pq == p.pq && q.queue == p.queue && q.stranded == p.stranded && q.tailRight == p.tailRight
  }

  /** Growing a port's free queue keeps the tail pointer safe exactly when the port holds nothing. */
  lemma GrantingIsSafeExactly<T>(p: PortQueues<T>, q: PortQueues<T>, n: nat)
    requires Granted(p, q, n) && n > 0
    ensures TailSafe(q.held) <==> true !in p.held
  {
    if i :| 0 <= i < |p.held| && p.held[i] {
      assert q.held[i];
    }
  }

  // ---------------------------------------------------------------- closing

  /** Buffers given back that were allocated and distinct add their number to the count. */
  lemma {:induction false} GiveBackCounts(u: seq<bool>, bufs: seq<nat>)
    requires forall b: nat :: multiset(bufs)[b] <= One(b < |u| && !u[b])
    ensures CountOf(GiveBack(u, bufs), true) == CountOf(u, true) + |bufs|
  {
    if bufs != [] {
      var c := bufs[0];
      assert bufs == [c] + bufs[1..];
      assert multiset(bufs)[c] == multiset(bufs[1..])[c] + 1;
      forall b: nat ensures multiset(bufs[1..])[b] <= One(b < |u| && !u[b]) {
        assert multiset(bufs)[b] >= multiset(bufs[1..])[b];
      }
      GiveBackCounts(u, bufs[1..]);
      GiveBackMarks(u, bufs[1..], c);
      CountFlips(GiveBack(u, bufs[1..]), c, true);
    }
  }

  lemma CloseKeepsPool<T>(l: Layer<T>, lost: set<nat>, r: nat)
    requires Pool(l, lost) && r < |l.rbm|
    ensures var q := l.rbm[r].q;
            var m := l.(unalloc := GiveBack(l.unalloc, q.fq + q.pq), rbm := l.rbm[r := Rbm(UNMAPPED, Empty())]);
            && Pool(m, lost + q.stranded)
            && Shortfall(m) == Shortfall(l) + |q.fq| + |q.pq|
  {
    var q := l.rbm[r].q;
    var m := l.(unalloc := GiveBack(l.unalloc, q.fq + q.pq), rbm := l.rbm[r := Rbm(UNMAPPED, Empty())]);
    forall b: nat ensures Placed(m, lost + q.stranded, b) {
      assert Placed(l, lost, b);
      OwnersUpdate(l.rbm, r, m.rbm[r], b);
      GiveBackMarks(l.unalloc, q.fq + q.pq, b);
      ClaimedOnce(l, lost, r, b);
      assert b in q.fq + q.pq <==> b in multiset(q.fq) || b in multiset(q.pq);
    }
    forall b: nat ensures multiset(q.fq + q.pq)[b] <= One(b < |l.unalloc| && !l.unalloc[b]) {
      ClaimedOnce(l, lost, r, b);
    }
    GiveBackCounts(l.unalloc, q.fq + q.pq);
  }
}
