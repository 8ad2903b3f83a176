/** Where the buffers of a manager are: in one of its two queues, or out of both.
  *
  * Both managers divide the buffers they own in this way, and each of their operations moves one buffer
  * from one place to another.  A buffer out of both queues is being filled or copied from, or has been
  * stranded by an eviction.
  */
module BufferPlaces {
  import opened PriorityQueue
  import opened LinkedBuffers

  ghost function All(n: nat): (s: set<nat>)
    ensures forall b: nat :: b in s <==> b < n
  {
    if n == 0 then {} else All(n - 1) + {n - 1}
  }

  /** Every buffer of the manager is in exactly one place, and in it once. */
  ghost predicate Partition(all: set<nat>, free: seq<nat>, active: seq<nat>, out: set<nat>) {
    multiset(free) + multiset(active) + multiset(out) == multiset(all)
  }

  lemma OnePlace(all: set<nat>, free: seq<nat>, active: seq<nat>, out: set<nat>, b: nat)
    requires Partition(all, free, active, out)
    ensures b in free ==> b in all && b !in active && b !in out
    ensures b in active ==> b in all && b !in free && b !in out
    ensures b in out ==> b in all && b !in free && b !in active
    ensures b in all ==> b in free || b in active || b in out
  {
    assert multiset(all)[b] == multiset(free)[b] + multiset(active)[b] + multiset(out)[b];
    assert (b in free <==> b in multiset(free)) && (b in active <==> b in multiset(active));
  }

  lemma WithoutElements(s: seq<nat>, k: nat)
    requires k < |s|
    ensures multiset(s) == multiset(Without(s, k)) + multiset{s[k]}
  {
    assert s == s[..k] + [s[k]] + s[k + 1..];
  }

  lemma TakeOut(all: set<nat>, free: seq<nat>, active: seq<nat>, out: set<nat>, k: nat)
    requires Partition(all, free, active, out)
    ensures k < |free| ==> free[k] !in out && Partition(all, Without(free, k), active, out + {free[k]})
    ensures k < |active| ==> active[k] !in out && Partition(all, free, Without(active, k), out + {active[k]})
  {
    if k < |free| {
      OnePlace(all, free, active, out, free[k]);
      WithoutElements(free, k);
      assert multiset(out + {free[k]}) == multiset(out) + multiset{free[k]};
    }
    if k < |active| {
      OnePlace(all, free, active, out, active[k]);
      WithoutElements(active, k);
      assert multiset(out + {active[k]}) == multiset(out) + multiset{active[k]};
    }
  }

  lemma PutBack(all: set<nat>, free: seq<nat>, active: seq<nat>, out: set<nat>, k: nat, b: nat)
    requires Partition(all, free, active, out) && b in out
    ensures k <= |free| ==> Partition(all, Spliced(free, k, b), active, out - {b})
    ensures k <= |active| ==> Partition(all, free, Spliced(active, k, b), out - {b})
  {
    assert multiset(out) == multiset(out - {b}) + multiset{b};
    if k <= |free| {
      SplicedElements(free, k, b);
    }
    if k <= |active| {
      SplicedElements(active, k, b);
    }
  }
}
