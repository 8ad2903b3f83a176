/** The gateway's in-place Floyd-Warshall over hop counts, which also records an *intermediate* vertex for each
  * pair, or 0.  Vertices are 1..n; row and column 0 are never touched.
  */
module FloydWarshall {

  const INFINITY: nat := 100
  const NO_PARENT: nat := 0

  type Matrix = seq<seq<nat>>
  type Links = set<(nat, nat)>

  datatype Tables = Tables(cost: Matrix, parent: Matrix)

  ghost predicate Square(n: nat, m: Matrix) {
    |m| == n + 1 && forall i :: 0 <= i <= n ==> |m[i]| == n + 1
  }

  ghost predicate WellShaped(n: nat, t: Tables) {
    Square(n, t.cost) && Square(n, t.parent)
  }

  // ---------------------------------------------------------------- the algorithm on values

  predicate Improves(cost: Matrix, k: nat, i: nat, j: nat)
    requires i < |cost| && k < |cost| && k < |cost[i]| && j < |cost[i]| && j < |cost[k]|
  {
    1 <= i && 1 <= j && cost[i][k] + cost[k][j] < cost[i][j]
  }

  /** All pairs relaxed through k at once, from the costs before the round. */
  ghost function Round(n: nat, k: nat, t: Tables): (r: Tables)
    requires WellShaped(n, t) && 1 <= k <= n
    ensures WellShaped(n, r)
  {
    Tables(
      seq(n + 1, i requires 0 <= i <= n => seq(n + 1, j requires 0 <= j <= n =>
        if Improves(t.cost, k, i, j) then t.cost[i][k] + t.cost[k][j] else t.cost[i][j])),
      seq(n + 1, i requires 0 <= i <= n => seq(n + 1, j requires 0 <= j <= n =>
        if Improves(t.cost, k, i, j) then k else t.parent[i][j])))
  }

  /** Rounds 1..k. */
  ghost function Rounds(n: nat, k: nat, t: Tables): (r: Tables)
    requires WellShaped(n, t) && k <= n
    ensures WellShaped(n, r)
  {
    if k == 0 then t else Round(n, k, Rounds(n, k - 1, t))
  }

  /** The edge and parent matrices as they are prepared before the algorithm runs. */
  ghost function Prepared(n: nat, links: Links): (t: Tables)
    ensures WellShaped(n, t)
  {
    Tables(
      seq(n + 1, i requires 0 <= i <= n => seq(n + 1, j requires 0 <= j <= n =>
        if (i, j) in links then 1 else if i == j then 0 else INFINITY)),
      seq(n + 1, i requires 0 <= i <= n => seq(n + 1, j requires 0 <= j <= n => NO_PARENT)))
  }

  ghost function Solved(n: nat, links: Links): (t: Tables)
    ensures WellShaped(n, t)
  {
    Rounds(n, n, Prepared(n, links))
  }

  // ---------------------------------------------------------------- the algorithm in place

  ghost function Rows(a: array2<nat>): (m: Matrix)
    reads a
    ensures |m| == a.Length0
    ensures forall i :: 0 <= i < a.Length0 ==> |m[i]| == a.Length1
    ensures forall i, j :: 0 <= i < a.Length0 && 0 <= j < a.Length1 ==> m[i][j] == a[i, j]
  {
    seq(a.Length0, i requires 0 <= i < a.Length0 reads a =>
      seq(a.Length1, j requires 0 <= j < a.Length1 reads a => a[i, j]))
  }

  /** The triple loop.  It overwrites entries that later iterations of the same round read; that it
    * still computes Rounds is because no entry of row k or column k can improve in round k.
    * The C loop counters are 8 bits wide and count to n inclusive, hence n <= 126.
    */
  method RunInPlace(n: nat, parent: array2<nat>, cost: array2<nat>)
    requires n <= 126
    requires cost != parent
    requires cost.Length0 == cost.Length1 == parent.Length0 == parent.Length1 == n + 1
    modifies parent, cost
    ensures Tables(Rows(cost), Rows(parent)) == Rounds(n, n, old(Tables(Rows(cost), Rows(parent))))
  {
    ghost var start := Tables(Rows(cost), Rows(parent));
    for k := 1 to n + 1
      invariant Tables(Rows(cost), Rows(parent)) == Rounds(n, k - 1, start)
    {
      ghost var before := Rounds(n, k - 1, start);
      ghost var after := Round(n, k, before);
      for i := 1 to n + 1
        invariant Mixed(n, cost, before.cost, after.cost, i, 1)
        invariant Mixed(n, parent, before.parent, after.parent, i, 1)
      {
        for j := 1 to n + 1
          invariant Mixed(n, cost, before.cost, after.cost, i, j)
          invariant Mixed(n, parent, before.parent, after.parent, i, j)
        {
          RelaxEntry(n, k, parent, cost, i, j, before);
        }
        MixedNextRow(n, cost, before.cost, after.cost, i);
        MixedNextRow(n, parent, before.parent, after.parent, i);
      }
      MixedDone(n, cost, before.cost, after.cost);
      MixedDone(n, parent, before.parent, after.parent);
    }
  }

  /** The body of the triple loop. */
  method RelaxEntry(n: nat, k: nat, parent: array2<nat>, cost: array2<nat>, i: nat, j: nat, ghost before: Tables)
    requires cost != parent && WellShaped(n, before) && 1 <= i <= n && 1 <= j <= n && 1 <= k <= n
    requires Mixed(n, cost, before.cost, Round(n, k, before).cost, i, j)
    requires Mixed(n, parent, before.parent, Round(n, k, before).parent, i, j)
    modifies parent, cost
    ensures Mixed(n, cost, before.cost, Round(n, k, before).cost, i, j + 1)
    ensures Mixed(n, parent, before.parent, Round(n, k, before).parent, i, j + 1)
  {
    if cost[i, k] + cost[k, j] < cost[i, j] {
      cost[i, j] := cost[i, k] + cost[k, j];
      parent[i, j] := k;
    }
  }

  /** The matrix while round k is at (i, j): new before that point, old from it on. */
  ghost predicate Mixed(n: nat, a: array2<nat>, before: Matrix, after: Matrix, i: nat, j: nat)
    reads a
  {
    a.Length0 == a.Length1 == n + 1 && Square(n, before) && Square(n, after) &&
    forall x, y :: 0 <= x <= n && 0 <= y <= n ==>
      a[x, y] == if x < i || (x == i && y < j) then after[x][y] else before[x][y]
  }

  lemma MixedNextRow(n: nat, a: array2<nat>, before: Matrix, after: Matrix, i: nat)
    requires 1 <= i <= n && Mixed(n, a, before, after, i, n + 1)
    requires i < n ==> before[i + 1][0] == after[i + 1][0]
    ensures Mixed(n, a, before, after, i + 1, 1)
  {
  }

  lemma MixedDone(n: nat, a: array2<nat>, before: Matrix, after: Matrix)
    requires Mixed(n, a, before, after, n + 1, 1)
    ensures Rows(a) == after
  {
    forall x | 0 <= x <= n ensures Rows(a)[x] == after[x] {}
  }

  // ---------------------------------------------------------------- what every round keeps

  /** After rounds 1..k.  A recorded intermediate keeps splitting its route exactly, however much the
    * two halves have improved since it was recorded. */
  ghost predicate Invariant(n: nat, links: Links, k: nat, t: Tables) {
    && WellShaped(n, t)
    && k <= n
    && (forall i :: 1 <= i <= n ==> t.cost[i][i] == (if (i, i) in links then 1 else 0) && t.parent[i][i] == NO_PARENT)
    && (forall i, j :: 1 <= i <= n && 1 <= j <= n && i != j ==> 1 <= t.cost[i][j] <= INFINITY)
    && (forall i, j :: 1 <= i <= n && 1 <= j <= n && (i, j) in links ==> t.cost[i][j] == 1)
    && Triangle(n, k, t.cost)
    && (forall i, j :: 1 <= i <= n && 1 <= j <= n ==> Splits(n, links, k, t, i, j))
  }

  ghost predicate Triangle(n: nat, k: nat, cost: Matrix)
    requires Square(n, cost) && k <= n
  {
    forall m, i, j :: 1 <= m <= k && 1 <= i <= n && 1 <= j <= n ==> NoShorter(n, cost, i, m, j)
  }

  /** Going from i to j by way of m is no shorter than the recorded cost. */
  ghost predicate NoShorter(n: nat, cost: Matrix, i: nat, m: nat, j: nat)
    requires Square(n, cost) && i <= n && m <= n && j <= n
  {
    cost[i][j] <= cost[i][m] + cost[m][j]
  }

  ghost predicate Splits(n: nat, links: Links, k: nat, t: Tables, i: nat, j: nat)
    requires WellShaped(n, t) && 1 <= i <= n && 1 <= j <= n && k <= n
  {
    var m := t.parent[i][j];
    if m == NO_PARENT then
      t.cost[i][j] < INFINITY ==> i == j || (i, j) in links
    else
      && 1 <= m <= k && i != m && m != j && i != j
      && t.cost[i][j] < INFINITY
      && t.cost[i][j] == t.cost[i][m] + t.cost[m][j]
  }

  lemma RoundKeepsTriangle(n: nat, k: nat, t: Tables)
    requires WellShaped(n, t) && 1 <= k <= n && Triangle(n, k - 1, t.cost)
    ensures Triangle(n, k, Round(n, k, t).cost)
  {
    var c, d := t.cost, Round(n, k, t).cost;
    forall m, i, j | 1 <= m <= k && 1 <= i <= n && 1 <= j <= n
      ensures NoShorter(n, d, i, m, j)
    {
      if m < k {
        assert NoShorter(n, c, i, m, j) && NoShorter(n, c, k, m, j) && NoShorter(n, c, i, m, k);
      }
    }
  }

  lemma RoundKeepsSplits(n: nat, links: Links, k: nat, t: Tables, i: nat, j: nat)
    requires 1 <= k <= n && Invariant(n, links, k - 1, t) && 1 <= i <= n && 1 <= j <= n
    ensures Splits(n, links, k, Round(n, k, t), i, j)
  {
    var u := Round(n, k, t);
    RoundKeepsTriangle(n, k, t);
    assert Splits(n, links, k - 1, t, i, j);
    if Improves(t.cost, k, i, j) {
    } else if t.parent[i][j] != NO_PARENT {
      var m := t.parent[i][j];
      // neither half can have improved, or the whole would have
      assert NoShorter(n, u.cost, i, m, j);
      assert u.cost[i][m] <= t.cost[i][m] && u.cost[m][j] <= t.cost[m][j];
    }
  }

  lemma RoundKeepsInvariant(n: nat, links: Links, k: nat, t: Tables)
    requires 1 <= k <= n && Invariant(n, links, k - 1, t)
    ensures Invariant(n, links, k, Round(n, k, t))
  {
    RoundKeepsTriangle(n, k, t);
    forall i, j | 1 <= i <= n && 1 <= j <= n ensures Splits(n, links, k, Round(n, k, t), i, j) {
      RoundKeepsSplits(n, links, k, t, i, j);
    }
  }

  lemma {:induction false} RoundsKeepInvariant(n: nat, links: Links, k: nat)
    requires k <= n
    ensures Invariant(n, links, k, Rounds(n, k, Prepared(n, links)))
  {
    if k > 0 {
      RoundsKeepInvariant(n, links, k - 1);
      RoundKeepsInvariant(n, links, k, Rounds(n, k - 1, Prepared(n, links)));
    }
  }
}
