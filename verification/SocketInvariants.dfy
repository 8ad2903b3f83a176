/** What every transport-layer call keeps, and exactly where the calls as written do not keep what
  * they are meant to.
  */
module SocketInvariants {
  import opened PriorityQueue
  import opened ReceiveSpec
  import opened SocketSpec

  // ---------------------------------------------------------------- sockets, ports and rbm elements

  ghost predicate Mapped<T>(l: Layer<T>, s: nat)
    requires s < |l.sock|
  {
    l.sock[s].pindex != UNMAPPED
  }

  ghost predicate WellMapped<T>(l: Layer<T>, s: nat)
    requires s < |l.sock|
  {
    var k := l.sock[s];
    && (k.pindex == UNMAPPED <==> k.rbmindex == UNMAPPED)
    && (k.pid == INVALID_PID || k.kind == RAW ==> k.pindex == UNMAPPED)
    && (k.pindex != UNMAPPED ==>
          && 0 <= k.pindex < |l.ports| && 0 <= k.rbmindex < |l.rbm|
          && l.ports[k.pindex] != INVALID_PORT && l.rbm[k.rbmindex].pindex == k.pindex)
  }

  ghost predicate Apart<T>(l: Layer<T>, s: nat, t: nat)
    requires s < |l.sock| && t < |l.sock|
  {
    Mapped(l, s) && Mapped(l, t) && s != t ==>
      l.sock[s].pindex != l.sock[t].pindex && l.sock[s].rbmindex != l.sock[t].rbmindex
  }

  ghost predicate UsesPort<T>(l: Layer<T>, s: nat, p: nat) {
    s < |l.sock| && l.sock[s].pindex == p
  }

  ghost predicate UsesRbm<T>(l: Layer<T>, s: nat, r: nat) {
    s < |l.sock| && l.sock[s].rbmindex == r
  }

  ghost predicate PortOwned<T>(l: Layer<T>, p: nat)
    requires p < |l.ports|
  {
    l.ports[p] != INVALID_PORT ==> exists s: nat :: UsesPort(l, s, p)
  }

  ghost predicate RbmOwned<T>(l: Layer<T>, r: nat)
    requires r < |l.rbm|
  {
    l.rbm[r].pindex != UNMAPPED ==> exists s: nat :: UsesRbm(l, s, r)
  }

  /** Mapped sockets, assigned port elements and used rbm elements correspond one to one, and agree. */
  ghost predicate Bijection<T>(l: Layer<T>) {
    && |l.ports| == |l.sock| == |l.rbm|
    && (forall s: nat :: s < |l.sock| ==> WellMapped(l, s))
    && (forall s: nat, t: nat :: s < |l.sock| && t < |l.sock| ==> Apart(l, s, t))
    && (forall p: nat :: p < |l.ports| ==> PortOwned(l, p))
    && (forall r: nat :: r < |l.rbm| ==> RbmOwned(l, r))
  }

  /** No two port elements have the same port number. */
  ghost predicate PortsDistinct(ports: seq<nat>) {
    forall p, q :: 0 <= p < q < |ports| && ports[p] != INVALID_PORT ==> ports[p] != ports[q]
  }

  ghost predicate Occurs(values: seq<int>, x: int) {
    x in values
  }

  lemma WithoutKeeps(values: seq<int>, i: nat, x: int)
    requires i < |values| && Occurs(values, x) && values[i] != x
    ensures Occurs(Without(values, i), x)
  {
    var j :| 0 <= j < |values| && values[j] == x;
    assert Without(values, i)[if j < i then j else j - 1] == x;
  }

  /** Values among which 0..n-1 all occur are at least n in number. */
  lemma {:induction false} AllOccur(values: seq<int>, n: nat)
    requires forall x :: 0 <= x < n ==> Occurs(values, x)
    ensures |values| >= n
  {
    if n > 0 {
      assert Occurs(values, n - 1);
      var i: nat :| i < |values| && values[i] == n - 1;
      forall x | 0 <= x < n - 1 ensures Occurs(Without(values, i), x) {
        WithoutKeeps(values, i, x);
      }
      AllOccur(Without(values, i), n - 1);
    }
  }

  /** n indices do not all occur among n values one of which is no index. */
  lemma SomeIndexMissing(values: seq<int>, s: nat)
    requires s < |values| && values[s] < 0
    ensures exists p :: 0 <= p < |values| && !Occurs(values, p)
  {
    if forall p :: 0 <= p < |values| ==> Occurs(values, p) {
      forall x | 0 <= x < |values| ensures Occurs(Without(values, s), x) {
        WithoutKeeps(values, s, x);
      }
      AllOccur(Without(values, s), |values|);
    }
  }

  ghost function Pindexes(sock: seq<Socket>): (v: seq<int>)
    ensures |v| == |sock|
    ensures forall i :: 0 <= i < |v| ==> v[i] == sock[i].pindex
  {
    seq(|sock|, i requires 0 <= i < |sock| => sock[i].pindex)
  }

  ghost function Rbmindexes(sock: seq<Socket>): (v: seq<int>)
    ensures |v| == |sock|
    ensures forall i :: 0 <= i < |v| ==> v[i] == sock[i].rbmindex
  {
    seq(|sock|, i requires 0 <= i < |sock| => sock[i].rbmindex)
  }

  /** While some socket is unmapped, a port element and an rbm element are free. */
  lemma ElementsLeft<T>(l: Layer<T>, s: nat)
    requires Bijection(l) && s < |l.sock| && !Mapped(l, s)
    ensures FreePort(l) < |l.ports| && FreeRbm(l) < |l.rbm|
  {
    assert WellMapped(l, s);
    SomeIndexMissing(Pindexes(l.sock), s);
    var p: nat :| p < |l.sock| && !Occurs(Pindexes(l.sock), p);
    assert !exists t: nat :: UsesPort(l, t, p) by {
      forall t: nat | t < |l.sock| ensures !UsesPort(l, t, p) {
        assert Pindexes(l.sock)[t] != p;
      }
    }
    assert PortOwned(l, p);
    SomeIndexMissing(Rbmindexes(l.sock), s);
    var r: nat :| r < |l.sock| && !Occurs(Rbmindexes(l.sock), r);
    assert !exists t: nat :: UsesRbm(l, t, r) by {
      forall t: nat | t < |l.sock| ensures !UsesRbm(l, t, r) {
        assert Rbmindexes(l.sock)[t] != r;
      }
    }
    assert RbmOwned(l, r);
  }

  lemma MapKeepsBijection<T>(l: Layer<T>, s: nat, p: nat, r: nat, port: nat)
    requires Bijection(l) && s < |l.sock| && !Mapped(l, s) && l.sock[s].pid != INVALID_PID && l.sock[s].kind != RAW
    requires p < |l.ports| && l.ports[p] == INVALID_PORT && port != INVALID_PORT
    requires r < |l.rbm| && l.rbm[r].pindex == UNMAPPED
    ensures Bijection(Map(l, s, p, r, port))
  {
    var m := Map(l, s, p, r, port);
    forall t: nat | t < |m.sock| ensures WellMapped(m, t) && Apart(m, s, t) && Apart(m, t, s) {
      assert WellMapped(l, t);
    }
    forall t: nat, u: nat | t < |m.sock| && u < |m.sock| ensures Apart(m, t, u) {
      assert Apart(l, t, u) && Apart(m, s, t) && Apart(m, s, u);
    }
    forall q: nat | q < |m.ports| ensures PortOwned(m, q) {
      if q == p {
        assert UsesPort(m, s, q);
      } else if m.ports[q] != INVALID_PORT {
        assert PortOwned(l, q);
        var t: nat :| UsesPort(l, t, q);
        assert UsesPort(m, t, q);
      }
    }
    forall q: nat | q < |m.rbm| ensures RbmOwned(m, q) {
      if q == r {
        assert UsesRbm(m, s, q);
      } else if m.rbm[q].pindex != UNMAPPED {
        assert RbmOwned(l, q);
        assert WellMapped(l, s);
        var t: nat :| UsesRbm(l, t, q);
        assert UsesRbm(m, t, q);
      }
    }
  }

  /** Changes to the queues of an rbm element keep the correspondence. */
  lemma QueuesKeepBijection<T>(l: Layer<T>, m: Layer<T>, r: nat, q: PortQueues<T>)
    requires Bijection(l) && m.sock == l.sock && m.ports == l.ports && r < |l.rbm|
    requires m.rbm == l.rbm[r := l.rbm[r].(q := q)]
    ensures Bijection(m)
  {
    forall t: nat | t < |m.sock| ensures WellMapped(m, t) {
      assert WellMapped(l, t);
    }
    forall t: nat, u: nat | t < |m.sock| && u < |m.sock| ensures Apart(m, t, u) {
      assert Apart(l, t, u);
    }
    forall p: nat | p < |m.ports| ensures PortOwned(m, p) {
      assert PortOwned(l, p);
      if s: nat :| UsesPort(l, s, p) {
        assert UsesPort(m, s, p);
      }
    }
    forall e: nat | e < |m.rbm| ensures RbmOwned(m, e) {
      assert RbmOwned(l, e);
      if s: nat :| UsesRbm(l, s, e) {
        assert UsesRbm(m, s, e);
      }
    }
  }

  lemma UnmapKeepsBijection<T>(l: Layer<T>, m: Layer<T>, s: nat)
    requires Bijection(l) && s < |l.sock| && WellMapped(l, s)
    requires m.sock == l.sock[s := l.sock[s].(pid := INVALID_PID, pindex := UNMAPPED, rbmindex := UNMAPPED)]
    requires Mapped(l, s) ==> m.ports == l.ports[l.sock[s].pindex := INVALID_PORT]
    requires Mapped(l, s) ==> m.rbm == l.rbm[l.sock[s].rbmindex := Rbm(UNMAPPED, Empty())]
    requires !Mapped(l, s) ==> m.ports == l.ports && m.rbm == l.rbm
    ensures Bijection(m)
  {
    forall t: nat | t < |m.sock| ensures WellMapped(m, t) {
      assert WellMapped(l, t) && Apart(l, s, t);
    }
    forall t: nat, u: nat | t < |m.sock| && u < |m.sock| ensures Apart(m, t, u) {
      assert Apart(l, t, u);
    }
    forall p: nat | p < |m.ports| ensures PortOwned(m, p) {
      assert PortOwned(l, p);
      if t: nat :| UsesPort(l, t, p) && t != s {
        assert UsesPort(m, t, p);
      }
    }
    forall r: nat | r < |m.rbm| ensures RbmOwned(m, r) {
      assert RbmOwned(l, r);
      if t: nat :| UsesRbm(l, t, r) && t != s {
        assert UsesRbm(m, t, r);
      }
    }
  }

  lemma ReidentifyKeepsBijection<T>(l: Layer<T>, s: nat, pid: int, kind: SockType)
    requires Bijection(l) && s < |l.sock| && !Mapped(l, s)
    ensures Bijection(l.(sock := l.sock[s := l.sock[s].(pid := pid, kind := kind)]))
  {
    var m := l.(sock := l.sock[s := l.sock[s].(pid := pid, kind := kind)]);
    forall t: nat | t < |m.sock| ensures WellMapped(m, t) {
      assert WellMapped(l, t);
    }
    forall t: nat, u: nat | t < |m.sock| && u < |m.sock| ensures Apart(m, t, u) {
      assert Apart(l, t, u);
    }
    forall p: nat | p < |m.ports| ensures PortOwned(m, p) {
      assert PortOwned(l, p);
      if t: nat :| UsesPort(l, t, p) {
        assert UsesPort(m, t, p);
      }
    }
    forall r: nat | r < |m.rbm| ensures RbmOwned(m, r) {
      assert RbmOwned(l, r);
      if t: nat :| UsesRbm(l, t, r) {
        assert UsesRbm(m, t, r);
      }
    }
  }
}
