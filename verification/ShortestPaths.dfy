/** What the solved matrices mean: costs are shortest walk lengths capped at INFINITY, and the
  * recursion over recorded intermediates yields the first hop of a shortest route.
  */
module ShortestPaths {
  import opened FloydWarshall

  /** A directed walk, as its vertices; it makes |p| - 1 hops. */
  ghost predicate IsWalk(n: nat, links: Links, p: seq<nat>, i: nat, j: nat) {
    && |p| >= 1 && p[0] == i && p[|p| - 1] == j
    && (forall x :: 0 <= x < |p| ==> 1 <= p[x] <= n)
    && (forall x :: 0 <= x < |p| - 1 ==> (p[x], p[x + 1]) in links)
  }

  ghost predicate Reachable(n: nat, links: Links, i: nat, j: nat) {
    exists p :: IsWalk(n, links, p, i, j)
  }

  /** No walk is shorter than the cost. */
  lemma {:induction false} CostBoundsWalks(n: nat, links: Links, t: Tables, p: seq<nat>, i: nat, j: nat)
    requires Invariant(n, links, n, t) && IsWalk(n, links, p, i, j) && |p| >= 2
    ensures t.cost[i][j] <= |p| - 1
    decreases |p|
  {
    if |p| > 2 {
      assert IsWalk(n, links, p[1..], p[1], j);
      CostBoundsWalks(n, links, t, p[1..], p[1], j);
      assert (p[0], p[1]) in links;
      assert NoShorter(n, t.cost, i, p[1], j);
    } else {
      assert (p[0], p[1]) in links;
    }
  }

  /** A finite cost is the length of some walk. */
  lemma {:induction false} CostIsAWalk(n: nat, links: Links, t: Tables, i: nat, j: nat) returns (p: seq<nat>)
    requires Invariant(n, links, n, t) && 1 <= i <= n && 1 <= j <= n && i != j && t.cost[i][j] < INFINITY
    ensures IsWalk(n, links, p, i, j) && |p| - 1 == t.cost[i][j]
    decreases t.cost[i][j]
  {
    assert Splits(n, links, n, t, i, j);
    var m := t.parent[i][j];
    if m == NO_PARENT {
      p := [i, j];
    } else {
      var a := CostIsAWalk(n, links, t, i, m);
      var b := CostIsAWalk(n, links, t, m, j);
      p := a + b[1..];
    }
  }

  /** The cost computed for a pair is min(INFINITY, length of the shortest walk). */
  lemma CostIsShortest(n: nat, links: Links, i: nat, j: nat)
    requires 1 <= i <= n && 1 <= j <= n && i != j
    ensures var c := Solved(n, links).cost[i][j];
            && 1 <= c <= INFINITY
            && (forall p :: IsWalk(n, links, p, i, j) ==> c <= |p| - 1)
            && (c < INFINITY ==> exists p :: IsWalk(n, links, p, i, j) && |p| - 1 == c)
  {
    RoundsKeepInvariant(n, links, n);
    var t := Solved(n, links);
    forall p | IsWalk(n, links, p, i, j) ensures t.cost[i][j] <= |p| - 1 {
      CostBoundsWalks(n, links, t, p, i, j);
    }
    if t.cost[i][j] < INFINITY {
      var p := CostIsAWalk(n, links, t, i, j);
    }
  }

  // ---------------------------------------------------------------- when INFINITY means unreachable

  ghost predicate Distinct(p: seq<nat>) {
    forall x, y :: 0 <= x < y < |p| ==> p[x] != p[y]
  }

  /** Cutting loops out of a walk leaves one without repeated vertices. */
  lemma {:induction false} CutLoops(n: nat, links: Links, p: seq<nat>, i: nat, j: nat) returns (q: seq<nat>)
    requires IsWalk(n, links, p, i, j)
    ensures IsWalk(n, links, q, i, j) && Distinct(q)
    decreases |p|
  {
    if Distinct(p) {
      q := p;
    } else {
      var x, y :| 0 <= x < y < |p| && p[x] == p[y];
      var r := p[..x + 1] + p[y + 1..];
      assert IsWalk(n, links, p[..x + 1], i, p[x]);
      assert IsWalk(n, links, p[y..], p[x], j);
      assert r == p[..x + 1] + p[y..][1..];
      q := CutLoops(n, links, r, i, j);
    }
  }

  ghost function UpTo(n: nat): (s: set<nat>)
    ensures |s| == n
    ensures forall x :: x in s <==> 1 <= x <= n
  {
    if n == 0 then {} else UpTo(n - 1) + {n}
  }

  lemma {:induction false} DistinctFits(n: nat, p: seq<nat>, s: set<nat>)
    requires Distinct(p) && forall x :: 0 <= x < |p| ==> p[x] in s
    ensures |p| <= |s|
    decreases |p|
  {
    if |p| > 0 {
      var last := p[|p| - 1];
      DistinctFits(n, p[..|p| - 1], s - {last});
    }
  }

  /** Up to INFINITY nodes, a cost of INFINITY says exactly that there is no route. */
  lemma InfinityMeansUnreachable(n: nat, links: Links, i: nat, j: nat)
    requires n <= INFINITY && 1 <= i <= n && 1 <= j <= n && i != j
    ensures Solved(n, links).cost[i][j] == INFINITY <==> !Reachable(n, links, i, j)
  {
    CostIsShortest(n, links, i, j);
    if p :| IsWalk(n, links, p, i, j) {
      var q := CutLoops(n, links, p, i, j);
      DistinctFits(n, q, UpTo(n));
    }
  }

  // ---------------------------------------------------------------- the first hop

  /** Follows recorded intermediates back to the first hop of the route. */
  function GetParent(n: nat, ghost links: Links, t: Tables, from: nat, to: nat): (h: nat)
    requires Invariant(n, links, n, t) && 1 <= from <= n && 1 <= to <= n
    ensures 1 <= h <= n
    ensures from == to || t.cost[from][to] == INFINITY ==> h == to
    ensures from != to && t.cost[from][to] < INFINITY ==>
              (from, h) in links && h != from && t.cost[from][to] == 1 + (if h == to then 0 else t.cost[h][to])
    decreases t.cost[from][to]
  {
    assert Splits(n, links, n, t, from, to);
    var m := t.parent[from][to];
    if m == NO_PARENT then
      to
    else
      assert Splits(n, links, n, t, from, m);
      var h := GetParent(n, links, t, from, m);
      assert NoShorter(n, t.cost, from, h, to) && NoShorter(n, t.cost, h, m, to);
      h
  }
}
