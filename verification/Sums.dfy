/** Sums, unions and conjunctions over the elements of a sequence.
  *
  * Each is taken apart at a concatenation, at a single element, and at an element that is taken out of
  * the middle; the steps of a network do just these three things to the packets in flight.  What is summed
  * up is a packet's share of the deliveries and transmissions still to come.
  */
module Sums {
  import opened PriorityQueue

  ghost function Sum<X>(q: seq<X>, f: X -> nat): nat {
    if q == [] then 0 else f(q[0]) + Sum(q[1..], f)
  }

  ghost function Union<X, M>(q: seq<X>, f: X -> multiset<M>): multiset<M> {
    if q == [] then multiset{} else f(q[0]) + Union(q[1..], f)
  }

  ghost predicate All<X>(q: seq<X>, p: X -> bool) {
    q == [] || (p(q[0]) && All(q[1..], p))
  }

  lemma {:induction false} SumConcat<X>(p: seq<X>, q: seq<X>, f: X -> nat)
    ensures Sum(p + q, f) == Sum(p, f) + Sum(q, f)
  {
    if p == [] {
      assert p + q == q;
    } else {
      SumConcat(p[1..], q, f);
      assert (p + q)[1..] == p[1..] + q;
    }
  }

  lemma {:induction false} UnionConcat<X, M>(p: seq<X>, q: seq<X>, f: X -> multiset<M>)
    ensures Union(p + q, f) == Union(p, f) + Union(q, f)
  {
    if p == [] {
      assert p + q == q;
    } else {
      UnionConcat(p[1..], q, f);
      assert (p + q)[1..] == p[1..] + q;
    }
  }

  lemma {:induction false} AllConcat<X>(p: seq<X>, q: seq<X>, ok: X -> bool)
    ensures All(p + q, ok) <==> All(p, ok) && All(q, ok)
  {
    if p == [] {
      assert p + q == q;
    } else {
      AllConcat(p[1..], q, ok);
      assert (p + q)[1..] == p[1..] + q;
    }
  }

  lemma SumOne<X>(x: X, f: X -> nat)
    ensures Sum([x], f) == f(x)
  {
    assert [x][1..] == [];
  }

  lemma UnionOne<X, M>(x: X, f: X -> multiset<M>)
    ensures Union([x], f) == f(x)
  {
    assert [x][1..] == [];
  }

  lemma AllOne<X>(x: X, ok: X -> bool)
    ensures All([x], ok) <==> ok(x)
  {
    assert [x][1..] == [];
  }

  lemma AroundPlace<X>(q: seq<X>, i: nat)
    requires i < |q|
    ensures q == q[..i] + ([q[i]] + q[i + 1..]) && Without(q, i) == q[..i] + q[i + 1..]
  {
  }

  lemma SumTakeOut<X>(q: seq<X>, i: nat, f: X -> nat)
    requires i < |q|
    ensures Sum(q, f) == f(q[i]) + Sum(Without(q, i), f)
  {
    AroundPlace(q, i);
    SumConcat(q[..i], [q[i]] + q[i + 1..], f);
    SumConcat([q[i]], q[i + 1..], f);
    SumOne(q[i], f);
    SumConcat(q[..i], q[i + 1..], f);
  }

  lemma UnionTakeOut<X, M>(q: seq<X>, i: nat, f: X -> multiset<M>)
    requires i < |q|
    ensures Union(q, f) == f(q[i]) + Union(Without(q, i), f)
  {
    AroundPlace(q, i);
    UnionConcat(q[..i], [q[i]] + q[i + 1..], f);
    UnionConcat([q[i]], q[i + 1..], f);
    UnionOne(q[i], f);
    UnionConcat(q[..i], q[i + 1..], f);
  }

  lemma AllTakeOut<X>(q: seq<X>, i: nat, ok: X -> bool)
    requires i < |q|
    ensures All(q, ok) <==> ok(q[i]) && All(Without(q, i), ok)
  {
    AroundPlace(q, i);
    AllConcat(q[..i], [q[i]] + q[i + 1..], ok);
    AllConcat([q[i]], q[i + 1..], ok);
    AllOne(q[i], ok);
    AllConcat(q[..i], q[i + 1..], ok);
  }
}
