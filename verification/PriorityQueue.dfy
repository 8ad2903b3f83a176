/** Stable priority queues as values: the head has the highest priority, and equal priorities keep
  * their order of arrival.
  *
  * Both buffer managers keep such a queue; their specifications insert into it with StableInsert, and
  * their methods find the place by following the links.
  */
module PriorityQueue {

  datatype Item<T> = Item(prio: int, data: T)

  /** Index of the first item of strictly lower priority, or the end. */
  function Place<T>(q: seq<Item<T>>, prio: int): (k: nat)
    ensures k <= |q|
  {
    if q == [] || q[0].prio < prio then 0 else 1 + Place(q[1..], prio)
  }

  lemma {:induction false} PlaceSplits<T>(q: seq<Item<T>>, prio: int)
    ensures forall i :: 0 <= i < Place(q, prio) ==> q[i].prio >= prio
    ensures Place(q, prio) < |q| ==> q[Place(q, prio)].prio < prio
  {
    if q != [] && q[0].prio >= prio {
      PlaceSplits(q[1..], prio);
      assert forall i :: 1 <= i < |q| ==> q[i] == q[1..][i - 1];
    }
  }

  function StableInsert<T>(q: seq<Item<T>>, x: Item<T>): (r: seq<Item<T>>)
    ensures |r| == |q| + 1
  {
    Spliced(q, Place(q, x.prio), x)
  }

  function Spliced<X>(s: seq<X>, k: nat, b: X): (r: seq<X>)
    requires k <= |s|
    ensures |r| == |s| + 1
  {
    s[..k] + [b] + s[k..]
  }

  function Without<X>(s: seq<X>, k: nat): (r: seq<X>)
    requires k < |s|
    ensures |r| == |s| - 1
  {
    s[..k] + s[k + 1..]
  }

  lemma HeadAndRest<X>(s: seq<X>)
    requires s != []
    ensures s == [s[0]] + s[1..]
    ensures Without(s, 0) == s[1..]
  {
  }

  lemma SplicedCons<X>(h: X, t: seq<X>, k: nat, b: X)
    requires k <= |t|
    ensures Spliced([h] + t, k + 1, b) == [h] + Spliced(t, k, b)
  {
  }

  ghost predicate Sorted<T>(q: seq<Item<T>>) {
    |q| < 2 || (q[0].prio >= q[1].prio && Sorted(q[1..]))
  }

  lemma {:induction false} SortedPairs<T>(q: seq<Item<T>>)
    ensures Sorted(q) <==> forall i, j :: 0 <= i < j < |q| ==> q[i].prio >= q[j].prio
  {
    if |q| >= 2 {
      SortedPairs(q[1..]);
      if Sorted(q) {
        forall i, j | 0 <= i < j < |q| ensures q[i].prio >= q[j].prio {
          assert q[1..][j - 1].prio <= q[1].prio;
        }
      } else if q[0].prio >= q[1].prio {
        var i, j :| 0 <= i < j < |q[1..]| && q[1..][i].prio < q[1..][j].prio;
        assert q[i + 1].prio < q[j + 1].prio;
      }
    }
  }

  lemma InsertKeepsSorted<T>(q: seq<Item<T>>, x: Item<T>)
    requires Sorted(q)
    ensures Sorted(StableInsert(q, x))
  {
    SortedPairs(q);
    SortedPairs(StableInsert(q, x));
    PlaceSplits(q, x.prio);
  }
}
