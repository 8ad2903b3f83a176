/** One port's receive queues as pointers: the views of the free queue and the port queue, and what
  * each pointer manipulation of the buffer manager does to them.
  *
  * A view holds the whole buffer array, the buffers the port owns, its two queues with their head and
  * tail pointers, the owned buffers that are in neither queue, and the counters.  For each manipulation
  * there is a function that says what the view becomes, and a lemma that the queues stay exactly their
  * pointers and that their values change as ReceiveSpec says.
  */
module ReceiveLists {
  import opened PriorityQueue
  import opened LinkedBuffers
  import opened BufferPlaces
  import opened ReceiveSpec

  datatype RxView<S> = RxView(mem: seq<Buffer<S>>, owned: set<nat>,
                              fq: seq<nat>, head_fq: int, tail_fq: int,
                              pq: seq<nat>, head_pq: int, tail_pq: int,
                              out: set<nat>, countTotal: int, countFree: int)

  /** For each buffer of the free queue, whether a task holds it. */
  ghost function Held<S>(mem: seq<Buffer<S>>, s: seq<nat>): (h: seq<bool>)
    requires Within(mem, s)
    ensures |h| == |s|
  {
    if s == [] then [] else [mem[s[0]].status == FULL] + Held(mem, s[1..])
  }

  ghost predicate InUse<S>(mem: seq<Buffer<S>>, s: seq<nat>)
    requires Within(mem, s)
  {
    s == [] || (mem[s[0]].status != UNALLOCATED && InUse(mem, s[1..]))
  }

  ghost predicate FreeQueue<S>(mem: seq<Buffer<S>>, s: seq<nat>, head: int) {
    Chain(mem, s, head) && NoRepeats(s) && InUse(mem, s)
  }

  /** The tail pointer matters only while the free queue is not empty. */
  ghost predicate TailRight<S>(v: RxView<S>) {
    v.fq != [] ==> v.tail_fq == Last(v.fq)
  }

  /** A free queue's tail pointer that is not right names a buffer that has left the queue. */
  ghost predicate TailKnown<S>(v: RxView<S>) {
    TailRight(v) || (v.tail_fq >= 0 && v.tail_fq in v.owned && v.tail_fq !in v.fq)
  }

  /** Both queues are exactly their pointers, but that the free queue's tail pointer may be left behind. */
  ghost predicate Consistent<S>(v: RxView<S>) {
    && FreeQueue(v.mem, v.fq, v.head_fq)
    && Uniform(v.mem, v.pq, v.head_pq, v.tail_pq, |v.pq|, FULL)
    && Partition(v.owned, v.fq, v.pq, v.out)
    && (forall b :: b in v.owned ==> b < |v.mem|)
    && v.countTotal == |v.fq| + |v.pq| + |v.out|
    && v.countFree == CountOf(Held(v.mem, v.fq), false)
    && Sorted(Items(v.mem, v.pq))
    && TailKnown(v)
  }

  ghost function Queues<S>(v: RxView<S>): PortQueues<S>
    requires Within(v.mem, v.fq) && Within(v.mem, v.pq)
  {
    PortQueues(v.fq, Held(v.mem, v.fq), v.pq, Items(v.mem, v.pq), v.out, TailRight(v))
  }

  // ---------------------------------------------------------------- the free queue under stores

  lemma {:induction false} FreeElsewhere<S>(mem: seq<Buffer<S>>, mem': seq<Buffer<S>>, s: seq<nat>, head: int)
    requires FreeQueue(mem, s, head) && Agree(mem, mem', s)
    ensures FreeQueue(mem', s, head)
    ensures Held(mem', s) == Held(mem, s)
  {
    if s != [] {
      FreeElsewhere(mem, mem', s[1..], mem[s[0]].next);
    }
  }

  lemma FreeRest<S>(mem: seq<Buffer<S>>, s: seq<nat>, head: int)
    requires FreeQueue(mem, s, head) && s != []
    ensures s[0] < |mem| && FreeQueue(mem, s[1..], mem[s[0]].next)
    ensures Held(mem, s[1..]) == Held(mem, s)[1..]
  {
  }

  lemma {:induction false} LastInUse<S>(mem: seq<Buffer<S>>, s: seq<nat>, head: int)
    requires FreeQueue(mem, s, head) && s != []
    ensures s[|s| - 1] < |mem| && mem[s[|s| - 1]].status != UNALLOCATED
  {
    if |s| > 1 {
      FreeRest(mem, s, head);
      LastInUse(mem, s[1..], mem[s[0]].next);
    }
  }

  lemma {:induction false} FreeAppend<S>(mem: seq<Buffer<S>>, s: seq<nat>, head: int, b: nat, content: Buffer<S>)
    requires FreeQueue(mem, s, head) && b < |mem| && b !in s && content.status != UNALLOCATED
    ensures var m := LinkIn(mem, s, |s|, b, content);
            && FreeQueue(m, Spliced(s, |s|, b), if s == [] then b else head)
            && Held(m, Spliced(s, |s|, b)) == Held(mem, s) + [content.status == FULL]
  {
    var m, r := LinkIn(mem, s, |s|, b, content), Spliced(s, |s|, b);
    SpliceChain(mem, s, head, |s|, b, content, FULL);
    SplicedNoRepeats(s, |s|, b);
    assert r == s + [b];
    AppendHeld(mem, s, head, b, content);
  }

  lemma {:induction false} AppendHeld<S>(mem: seq<Buffer<S>>, s: seq<nat>, head: int, b: nat, content: Buffer<S>)
    requires FreeQueue(mem, s, head) && b < |mem| && b !in s && content.status != UNALLOCATED
    ensures Within(LinkIn(mem, s, |s|, b, content), s + [b])
    ensures InUse(LinkIn(mem, s, |s|, b, content), s + [b])
    ensures Held(LinkIn(mem, s, |s|, b, content), s + [b]) == Held(mem, s) + [content.status == FULL]
  {
    var r := s + [b];
    if s != [] {
      AppendHeld(mem, s[1..], mem[s[0]].next, b, content);
      assert r[1..] == s[1..] + [b];
      if |s| > 1 {
        assert s[|s| - 1] == s[1..][|s| - 2];
        assert s[0] != s[|s| - 1];
      } else {
        assert s[1..] == [];
      }
    }
  }

  /** Moving the predecessor's pointer past the buffer at index k. */
  ghost function Cut<S>(mem: seq<Buffer<S>>, s: seq<nat>, k: nat): (m: seq<Buffer<S>>)
    requires Within(mem, s) && 0 < k < |s|
    ensures |m| == |mem|
  {
    WithinAt(mem, s, k - 1);
    WithinAt(mem, s, k);
    mem[s[k - 1] := mem[s[k - 1]].(next := mem[s[k]].next)]
  }

  /** A buffer put in front of a free queue it points to. */
  lemma FreeOnto<S>(m: seq<Buffer<S>>, h: nat, r: seq<nat>)
    requires h < |m| && FreeQueue(m, r, m[h].next) && h !in r && m[h].status != UNALLOCATED
    ensures FreeQueue(m, [h] + r, h)
    ensures Held(m, [h] + r) == [m[h].status == FULL] + Held(m, r)
  {
    assert ([h] + r)[1..] == r;
  }

  lemma WithoutRest<X>(s: seq<X>, k: nat)
    requires 0 < k < |s|
    ensures Without(s, k) == [s[0]] + Without(s[1..], k - 1)
  {
  }

  /** Cutting further down touches the same buffer seen from the second one. */
  lemma CutRest<S>(mem: seq<Buffer<S>>, s: seq<nat>, k: nat)
    requires Within(mem, s) && NoRepeats(s) && 1 < k < |s|
    ensures Cut(mem, s, k) == Cut(mem, s[1..], k - 1) && Cut(mem, s, k)[s[0]] == mem[s[0]]
  {
    NoRepeatsAt(s, 0, k - 1);
  }

  lemma CutSecond<S>(mem: seq<Buffer<S>>, s: seq<nat>, head: int)
    requires FreeQueue(mem, s, head) && |s| > 1
    ensures var m := Cut(mem, s, 1);
            && s[0] < |mem| && FreeQueue(m, s[2..], m[s[0]].next) && s[0] !in s[2..]
            && m[s[0]].status == mem[s[0]].status && Held(m, s[2..]) == Held(mem, s)[2..]
  {
    var m := Cut(mem, s, 1);
    FreeRest(mem, s, head);
    FreeRest(mem, s[1..], mem[s[0]].next);
    assert s[1..][1..] == s[2..] && Held(mem, s)[1..][1..] == Held(mem, s)[2..];
    StoreElsewhere(mem, s[2..], s[0], m[s[0]]);
    FreeElsewhere(mem, m, s[2..], mem[s[1]].next);
  }

  lemma {:induction false} FreeCut<S>(mem: seq<Buffer<S>>, s: seq<nat>, head: int, k: nat)
    requires FreeQueue(mem, s, head) && 0 < k < |s|
    ensures FreeQueue(Cut(mem, s, k), Without(s, k), head)
    ensures Held(Cut(mem, s, k), Without(s, k)) == Without(Held(mem, s), k)
    decreases k
  {
    var m := Cut(mem, s, k);
    WithoutRest(s, k);
    WithoutRest(Held(mem, s), k);
    FreeRest(mem, s, head);
    if k == 1 {
      CutSecond(mem, s, head);
      HeadAndRest(s[1..]);
      HeadAndRest(Held(mem, s)[1..]);
      FreeOnto(m, s[0], s[2..]);
    } else {
      CutRest(mem, s, k);
      FreeCut(mem, s[1..], mem[s[0]].next, k - 1);
      FreeOnto(m, s[0], Without(s[1..], k - 1));
    }
  }

  lemma UpdateRest<X>(s: seq<X>, k: nat, x: X)
    requires 0 < k < |s|
    ensures s[k := x] == [s[0]] + s[1..][k - 1 := x]
  {
  }

  /** Emptying the held buffer at index k where it stands. */
  ghost function Emptied<S>(mem: seq<Buffer<S>>, b: nat): (m: seq<Buffer<S>>)
    requires b < |mem|
    ensures |m| == |mem|
  {
    mem[b := mem[b].(status := EMPTY)]
  }

  lemma {:induction false} FreeMark<S>(mem: seq<Buffer<S>>, s: seq<nat>, head: int, k: nat)
    requires FreeQueue(mem, s, head) && k < |s|
    ensures s[k] < |mem|
    ensures FreeQueue(Emptied(mem, s[k]), s, head)
  {
    WithinAt(mem, s, k);
    var m := Emptied(mem, s[k]);
    if k == 0 {
      StoreElsewhere(mem, s[1..], s[0], m[s[0]]);
      FreeElsewhere(mem, m, s[1..], mem[s[0]].next);
    } else {
      assert s[k] == s[1..][k - 1];
      FreeMark(mem, s[1..], mem[s[0]].next, k - 1);
    }
  }

  lemma {:induction false} HeldMark<S>(mem: seq<Buffer<S>>, s: seq<nat>, k: nat)
    requires Within(mem, s) && NoRepeats(s) && k < |s|
    ensures s[k] < |mem| && Within(Emptied(mem, s[k]), s)
    ensures Held(Emptied(mem, s[k]), s) == Held(mem, s)[k := false]
  {
    WithinAt(mem, s, k);
    var m := Emptied(mem, s[k]);
    if k == 0 {
      StoreElsewhere(mem, s[1..], s[0], m[s[0]]);
      HeldElsewhere(mem, m, s[1..]);
    } else {
      assert s[k] == s[1..][k - 1];
      HeldMark(mem, s[1..], k - 1);
      UpdateRest(Held(mem, s), k, false);
    }
  }

  lemma {:induction false} HeldElsewhere<S>(mem: seq<Buffer<S>>, mem': seq<Buffer<S>>, s: seq<nat>)
    requires Agree(mem, mem', s)
    ensures Within(mem, s) && Within(mem', s) && Held(mem', s) == Held(mem, s)
  {
    if s != [] {
      HeldElsewhere(mem, mem', s[1..]);
    }
  }

  lemma {:induction false} CountChange(held: seq<bool>, k: nat)
    requires k < |held|
    ensures CountOf(Without(held, k), false) == CountOf(held, false) - (if held[k] then 0 else 1)
    ensures CountOf(held[k := false], false) == CountOf(held, false) + (if held[k] then 1 else 0)
  {
    if k == 0 {
      assert Without(held, 0) == held[1..] && held[k := false][1..] == held[1..];
    } else {
      CountChange(held[1..], k - 1);
      assert Without(held, k)[1..] == Without(held[1..], k - 1);
      assert held[k := false][1..] == held[1..][k - 1 := false];
    }
  }

  lemma {:induction false} CountAppend(held: seq<bool>, h: bool)
    ensures CountOf(held + [h], false) == CountOf(held, false) + (if h then 0 else 1)
  {
    if held != [] {
      CountAppend(held[1..], h);
      assert (held + [h])[1..] == held[1..] + [h];
    }
  }

  // ---------------------------------------------------------------- the port queue when it is full

  ghost function LastEnded<S>(mem: seq<Buffer<S>>, s: seq<nat>): (m: seq<Buffer<S>>)
    requires Within(mem, s) && |s| >= 2
    ensures |m| == |mem|
  {
    WithinAt(mem, s, |s| - 2);
    mem[s[|s| - 2] := mem[s[|s| - 2]].(next := NIL)]
  }

  lemma {:induction false} EndBeforeLast<S>(mem: seq<Buffer<S>>, s: seq<nat>, head: int)
    requires Chain(mem, s, head) && NoRepeats(s) && AllHave(mem, s, FULL) && |s| >= 2
    ensures Chain(LastEnded(mem, s), Front(s), head)
            && NoRepeats(Front(s)) && AllHave(LastEnded(mem, s), Front(s), FULL)
    ensures Items(LastEnded(mem, s), Front(s)) == Front(Items(mem, s))
    ensures s[|s| - 1] !in Front(s)
  {
    var m, f := LastEnded(mem, s), Front(s);
    assert f[0] == s[0] && f[1..] == s[1..][..|s| - 2];
    if |s| > 2 {
      EndBeforeLast(mem, s[1..], mem[s[0]].next);
      assert s[|s| - 2] == s[1..][|s| - 3] && s[|s| - 2] in s[1..];
      assert LastEnded(mem, s[1..]) == m;
      assert f[1..] == Front(s[1..]);
      assert Front(Items(mem, s))[1..] == Front(Items(mem, s[1..]));
    } else {
      assert f == [s[0]];
      assert Front(Items(mem, s)) == [Items(mem, s)[0]];
    }
  }

  lemma {:induction false} ReplaceLast<S>(mem: seq<Buffer<S>>, s: seq<nat>, head: int, content: Buffer<S>)
    requires Chain(mem, s, head) && NoRepeats(s) && AllHave(mem, s, FULL) && s != []
    requires content.next == NIL && content.status == FULL
    ensures s[|s| - 1] < |mem|
    ensures var m := mem[s[|s| - 1] := content];
            && Chain(m, s, head) && AllHave(m, s, FULL)
            && Items(m, s) == Front(Items(mem, s)) + [Item(content.prio, content.data)]
  {
    if |s| == 1 {
      assert Front(Items(mem, s)) == [];
    } else {
      ReplaceLast(mem, s[1..], mem[s[0]].next, content);
      assert s[|s| - 1] == s[1..][|s| - 2] && s[|s| - 1] in s[1..];
      assert Front(Items(mem, s)) == [Items(mem, s)[0]] + Front(Items(mem, s[1..]));
    }
  }

  /** The eviction's assignments in the order of the code, the new segment belonging at index k. */
  ghost function EvictStores<S>(mem: seq<Buffer<S>>, s: seq<nat>, k: nat, content: Buffer<S>): (m: seq<Buffer<S>>)
    requires Within(mem, s) && |s| >= 2 && k < |s|
    ensures |m| == |mem|
  {
    WithinAt(mem, s, |s| - 1);
    WithinAt(mem, s, |s| - 2);
    var last, before := s[|s| - 1], s[|s| - 2];
    var m1 := mem[last := content.(next := s[k])];
    var m2 := if k == 0 then m1 else (WithinAt(mem, s, k - 1); m1[s[k - 1] := m1[s[k - 1]].(next := last)]);
    m2[before := m2[before].(next := NIL)]
  }

  lemma StoresCommute<X>(s: seq<X>, i: nat, x: X, j: nat, y: X)
    requires i < |s| && j < |s| && i != j
    ensures s[i := x][j := y] == s[j := y][i := x]
  {
  }

  lemma ThreeStoresCommute<X>(s: seq<X>, i: nat, x: X, j: nat, y: X, l: nat, z: X)
    requires i < |s| && j < |s| && l < |s| && l != i && l != j
    ensures s[i := x][j := y][l := z] == s[l := z][i := x][j := y]
  {
    StoresCommute(s[i := x], j, y, l, z);
    StoresCommute(s, i, x, l, z);
  }

  lemma FrontAt<X>(s: seq<X>, i: nat)
    requires i + 1 < |s|
    ensures Front(s)[i] == s[i]
  {
  }

  /** What an eviction that moves the last buffer to index k amounts to. */
  ghost function MovedLast<S>(mem: seq<Buffer<S>>, s: seq<nat>, k: nat, content: Buffer<S>,
                              last: nat, before: nat): seq<Buffer<S>>
    requires k < |s| && last < |mem| && before < |mem| && (k > 0 ==> s[k - 1] < |mem|)
  {
    var m := mem[before := mem[before].(next := NIL)][last := content.(next := s[k])];
    if k == 0 then m else m[s[k - 1] := mem[s[k - 1]].(next := last)]
  }

  lemma EvictStoresAt<S>(mem: seq<Buffer<S>>, s: seq<nat>, k: nat, content: Buffer<S>, last: nat, before: nat)
    requires Within(mem, s) && |s| >= 2 && k + 1 < |s| && last == s[|s| - 1] && before == s[|s| - 2]
    requires last < |mem| && before < |mem| && last != before
    requires k > 0 ==> s[k - 1] < |mem| && s[k - 1] != last && s[k - 1] != before
    ensures EvictStores(mem, s, k, content) == MovedLast(mem, s, k, content, last, before)
  {
    var a, c := content.(next := s[k]), mem[before].(next := NIL);
    if k == 0 {
      StoresCommute(mem, last, a, before, c);
    } else {
      ThreeStoresCommute(mem, last, a, s[k - 1], mem[s[k - 1]].(next := last), before, c);
    }
  }

  lemma LinkInFrontAt<S>(mem: seq<Buffer<S>>, s: seq<nat>, k: nat, content: Buffer<S>, last: nat, before: nat)
    requires Within(mem, s) && |s| >= 2 && k + 1 < |s| && last == s[|s| - 1] && before == s[|s| - 2]
    requires last < |mem| && before < |mem| && last != before && Within(LastEnded(mem, s), Front(s))
    requires k > 0 ==> s[k - 1] < |mem| && s[k - 1] != last && s[k - 1] != before
    ensures LinkIn(LastEnded(mem, s), Front(s), k, last, content) == MovedLast(mem, s, k, content, last, before)
  {
    FrontAt(s, k);
    if k > 0 {
      FrontAt(s, k - 1);
    }
  }

  lemma PlacesDistinct<S>(mem: seq<Buffer<S>>, s: seq<nat>, k: nat)
    requires Within(mem, s) && NoRepeats(s) && |s| >= 2 && k + 1 < |s|
    ensures s[|s| - 1] < |mem| && s[|s| - 2] < |mem| && s[|s| - 1] != s[|s| - 2]
    ensures k > 0 ==> s[k - 1] < |mem| && s[k - 1] != s[|s| - 1] && s[k - 1] != s[|s| - 2]
  {
    WithinAt(mem, s, |s| - 1);
    WithinAt(mem, s, |s| - 2);
    NoRepeatsAt(s, |s| - 2, |s| - 1);
    if k > 0 {
      WithinAt(mem, s, k - 1);
      NoRepeatsAt(s, k - 1, |s| - 2);
      NoRepeatsAt(s, k - 1, |s| - 1);
    }
  }

  lemma EvictMoves<S>(mem: seq<Buffer<S>>, s: seq<nat>, k: nat, content: Buffer<S>)
    requires Within(mem, s) && NoRepeats(s) && |s| >= 2 && k + 1 < |s| && Within(LastEnded(mem, s), Front(s))
    ensures s[|s| - 1] < |mem|
    ensures EvictStores(mem, s, k, content) == LinkIn(LastEnded(mem, s), Front(s), k, s[|s| - 1], content)
  {
    PlacesDistinct(mem, s, k);
    EvictStoresAt(mem, s, k, content, s[|s| - 1], s[|s| - 2]);
    LinkInFrontAt(mem, s, k, content, s[|s| - 1], s[|s| - 2]);
  }

  lemma EvictStrands<S>(mem: seq<Buffer<S>>, s: seq<nat>, content: Buffer<S>)
    requires Within(mem, s) && NoRepeats(s) && |s| >= 2
    ensures s[|s| - 1] < |mem|
    ensures EvictStores(mem, s, |s| - 1, content)
         == LastEnded(mem, s)[s[|s| - 1] := content.(next := s[|s| - 1])]
  {
    WithinAt(mem, s, |s| - 1);
    NoRepeatsAt(s, |s| - 2, |s| - 1);
  }

  /** The eviction's assignments: the tail buffer is refilled and linked in between prev and ptr, and
    * then the buffer before it is made to end the queue. */
  method EvictInPlace<S>(mem: array<Buffer<S>>, tail: nat, prev: int, ptr: int, qtr: nat, content: Buffer<S>,
                         ghost s: seq<nat>, ghost k: nat)
    requires Within(mem[..], s) && |s| >= 2 && k < |s| && tail == s[|s| - 1] && qtr == s[|s| - 2]
    requires prev == (if k == 0 then NIL else s[k - 1]) && ptr == s[k]
    requires tail < mem.Length && mem[tail].(data := content.data, prio := content.prio, next := ptr)
                 == content.(next := ptr)
    modifies mem
    ensures mem[..] == EvictStores(old(mem[..]), s, k, content)
  {
    WithinAt(mem[..], s, |s| - 2);
    if k > 0 {
      WithinAt(mem[..], s, k - 1);
    }
    mem[tail] := mem[tail].(data := content.data, prio := content.prio);
    mem[tail] := mem[tail].(next := ptr);
    if prev != NIL {
      mem[prev] := mem[prev].(next := tail);
    }
    mem[qtr] := mem[qtr].(next := NIL);
  }

  // ---------------------------------------------------------------- the operations on views

  ghost function AfterTake<S>(v: RxView<S>, k: nat): RxView<S>
    requires Within(v.mem, v.fq) && k < |v.fq|
  {
    v.(mem := if k == 0 then v.mem else Cut(v.mem, v.fq, k),
       head_fq := if k == 0 then v.mem[v.fq[0]].next else v.head_fq,
       tail_fq := if k == 0 && v.head_fq == v.tail_fq then NIL else v.tail_fq,
       fq := Without(v.fq, k), out := v.out + {v.fq[k]},
       countFree := v.countFree - if Held(v.mem, v.fq)[k] then 0 else 1)
  }

  lemma WithoutElsewhere(s: seq<nat>, k: nat, x: nat)
    requires k < |s| && x in Without(s, k)
    ensures x in s
  {
  }

  /** The tail pointer is left behind when the last of several buffers is taken, and found again when the
    * only one is. */
  lemma TakeTail<S>(v: RxView<S>, k: nat)
    requires Consistent(v) && k < |v.fq|
    ensures var w := AfterTake(v, k);
            TailKnown(w) && (TailRight(w) <==> |v.fq| == 1 || (TailRight(v) && !MissesTail(Held(v.mem, v.fq), k)))
  {
    hide Held, Cut, Uniform, Sorted, Items, CountOf;
    var w := AfterTake(v, k);
    LastOfMany(v.fq);
    TakeOut(v.owned, v.fq, v.pq, v.out, k);
    OnePlace(v.owned, v.fq, v.pq, v.out, v.fq[k]);
    OnePlace(v.owned, w.fq, v.pq, w.out, v.fq[k]);
    if |v.fq| > 1 {
      if k + 1 < |v.fq| {
        assert Last(w.fq) == Last(v.fq);
      }
      if v.tail_fq >= 0 && v.tail_fq in w.fq {
        WithoutElsewhere(v.fq, k, v.tail_fq);
      }
    }
  }

  /** Cutting a buffer out of the middle of the free queue leaves the port queue as it was. */
  lemma CutElsewhere<S>(v: RxView<S>, k: nat)
    requires Consistent(v) && 0 < k < |v.fq|
    ensures var m := AfterTake(v, k).mem;
            && |m| == |v.mem| && Uniform(m, v.pq, v.head_pq, v.tail_pq, |v.pq|, FULL)
            && Items(m, v.pq) == Items(v.mem, v.pq)
  {
    hide TailKnown, Held;
    var w := AfterTake(v, k);
    WithinAt(v.mem, v.fq, k - 1);
    OnePlace(v.owned, v.fq, v.pq, v.out, v.fq[k - 1]);
    StoreElsewhere(v.mem, v.pq, v.fq[k - 1], w.mem[v.fq[k - 1]]);
    Elsewhere(v.mem, w.mem, v.pq, v.head_pq, FULL);
    NoRepeatsAt(v.fq, k - 1, k);
  }

  /** Taking a buffer out of the free queue; the tail pointer is left behind in exactly one case. */
  lemma TakeKeeps<S>(v: RxView<S>, k: nat)
    requires Consistent(v) && k < |v.fq|
    ensures var w := AfterTake(v, k);
            && Consistent(w)
            && Queues(w) == TakeFree(Queues(v), k).(stranded := v.out + {v.fq[k]})
    ensures v.fq[k] !in v.out
  {
    var w := AfterTake(v, k);
    TakeTail(v, k);
    hide TailKnown, TailRight;
    TakeOut(v.owned, v.fq, v.pq, v.out, k);
    CountChange(Held(v.mem, v.fq), k);
    LastOfMany(v.fq);
    if k == 0 {
      FreeRest(v.mem, v.fq, v.head_fq);
      HeadAndRest(v.fq);
      HeadAndRest(Held(v.mem, v.fq));
    } else {
      FreeCut(v.mem, v.fq, v.head_fq, k);
      CutElsewhere(v, k);
    }
  }

  ghost function AfterQueue<S>(v: RxView<S>, b: nat, k: nat, content: Buffer<S>): RxView<S>
    requires Within(v.mem, v.pq) && b < |v.mem| && k <= |v.pq|
  {
    v.(mem := LinkIn(v.mem, v.pq, k, b, content), pq := Spliced(v.pq, k, b), out := v.out - {b},
       head_pq := if k == 0 then b else v.head_pq, tail_pq := if k == |v.pq| then b else v.tail_pq)
  }

  lemma QueueKeeps<S>(v: RxView<S>, b: nat, k: nat, content: Buffer<S>)
    requires Consistent(v) && b in v.out && content.status == FULL
    requires k == Place(Items(v.mem, v.pq), content.prio)
    ensures b < |v.mem| && b !in v.pq
    ensures var w := AfterQueue(v, b, k, content);
            && Consistent(w)
            && Queues(w) == Queues(v).(pq := w.pq, stranded := w.out,
                                       queue := StableInsert(Items(v.mem, v.pq), Item(content.prio, content.data)))
  {
    OnePlace(v.owned, v.fq, v.pq, v.out, b);
    if k > 0 {
      OnePlace(v.owned, v.fq, v.pq, v.out, v.pq[k - 1]);
    }
    var w := AfterQueue(v, b, k, content);
    UniformSplice(v.mem, v.pq, v.head_pq, v.tail_pq, |v.pq|, FULL, k, b, content);
    PutBack(v.owned, v.fq, v.pq, v.out, k, b);
    LinkInElsewhere(v.mem, v.pq, k, b, content, v.fq);
    FreeElsewhere(v.mem, w.mem, v.fq, v.head_fq);
    InsertKeepsSorted(Items(v.mem, v.pq), Item(content.prio, content.data));
  }

  ghost function AfterTakeHead<S>(v: RxView<S>): RxView<S>
    requires v.pq != [] && v.pq[0] < |v.mem|
  {
    v.(pq := v.pq[1..], head_pq := v.mem[v.pq[0]].next,
       tail_pq := if v.head_pq == v.tail_pq then NIL else v.tail_pq, out := v.out + {v.pq[0]})
  }

  lemma TakeHeadKeeps<S>(v: RxView<S>)
    requires Consistent(v) && v.pq != []
    ensures v.pq[0] < |v.mem| && v.pq[0] !in v.out && Consistent(AfterTakeHead(v))
    ensures v.mem[v.pq[0]].status == FULL
  {
    TakeOut(v.owned, v.fq, v.pq, v.out, 0);
    UniformRest(v.mem, v.pq, v.head_pq, v.tail_pq, |v.pq|, FULL);
    HeadAndRest(v.pq);
  }

  lemma TakeHeadQueues<S>(v: RxView<S>)
    requires Consistent(v) && v.pq != [] && v.pq[0] < |v.mem| && Consistent(AfterTakeHead(v))
    ensures Queues(AfterTakeHead(v)) ==
            Queues(v).(pq := v.pq[1..], queue := Items(v.mem, v.pq)[1..], stranded := v.out + {v.pq[0]})
    ensures Items(v.mem, v.pq)[0] == Item(v.mem[v.pq[0]].prio, v.mem[v.pq[0]].data)
  {
  }

  ghost function AfterAppend<S>(v: RxView<S>, b: nat, content: Buffer<S>): RxView<S>
    requires Within(v.mem, v.fq) && b < |v.mem|
  {
    v.(mem := LinkIn(v.mem, v.fq, |v.fq|, b, content), fq := v.fq + [b], out := v.out - {b},
       head_fq := if v.fq == [] then b else v.head_fq, tail_fq := b,
       countFree := v.countFree + if content.status == FULL then 0 else 1)
  }

  lemma AppendKeeps<S>(v: RxView<S>, b: nat, content: Buffer<S>)
    requires Consistent(v) && b in v.out && content.status != UNALLOCATED && TailRight(v)
    ensures b < |v.mem| && b !in v.fq
    ensures var w := AfterAppend(v, b, content);
            && Consistent(w)
            && Queues(w) == Queues(v).(fq := v.fq + [b],
                                       held := Held(v.mem, v.fq) + [content.status == FULL], stranded := w.out)
  {
    OnePlace(v.owned, v.fq, v.pq, v.out, b);
    var k := |v.fq|;
    if k > 0 {
      OnePlace(v.owned, v.fq, v.pq, v.out, v.fq[k - 1]);
    }
    FreeAppend(v.mem, v.fq, v.head_fq, b, content);
    AppendHeld(v.mem, v.fq, v.head_fq, b, content);
    CountAppend(Held(v.mem, v.fq), content.status == FULL);
    PutBack(v.owned, v.fq, v.pq, v.out, k, b);
    AppendIsSplice(v.fq, b);
    UniformElsewhere(v.mem, v.fq, k, b, content, v.pq, v.head_pq, v.tail_pq, |v.pq|, FULL);
  }

  lemma TailInside<S>(v: RxView<S>)
    requires Consistent(v) && v.fq != []
    ensures 0 <= v.tail_fq < |v.mem|
  {
    WithinAt(v.mem, v.fq, |v.fq| - 1);
  }

  lemma {:induction false} ChainEndsOnce<S>(mem: seq<Buffer<S>>, s: seq<nat>, head: int, b: nat)
    requires Chain(mem, s, head)
    ensures !Chain(mem, s + [b], head)
  {
    if s != [] {
      assert (s + [b])[1..] == s[1..] + [b];
      ChainEndsOnce(mem, s[1..], mem[s[0]].next, b);
    }
  }

  /** A chain none of whose buffers is b has no pointer to b. */
  lemma {:induction false} ChainAvoids<S>(mem: seq<Buffer<S>>, s: seq<nat>, head: int, t: nat, b: nat)
    requires Chain(mem, s, head) && t in s && b !in s
    ensures t < |mem| && mem[t].next != b
  {
    if t != s[0] {
      ChainAvoids(mem, s[1..], mem[s[0]].next, t, b);
    }
  }

  /** The free queue is still what it was, without the buffer that was to join it. */
  ghost predicate LeftOut<S>(mem: seq<Buffer<S>>, fq: seq<nat>, head: int, b: nat) {
    FreeQueue(mem, fq, head) && !FreeQueue(mem, fq + [b], head)
  }

  /** Appending behind a tail pointer that has been left behind: the buffer does not enter the free queue,
    * and if that pointer names a buffer of the port queue, that queue is cut off behind it. */
  lemma WrongTailLoses<S>(v: RxView<S>, b: nat, content: Buffer<S>)
    requires Consistent(v) && !TailRight(v) && b in v.out
    ensures b < |v.mem| && b !in v.fq && 0 <= v.tail_fq < |v.mem|
    ensures var m := Appended(v.mem, v.head_fq, v.tail_fq, b, content);
            && LeftOut(m, v.fq, v.head_fq, b)
            && (v.tail_fq in v.pq ==> !Chain(m, v.pq, v.head_pq))
  {
    OnePlace(v.owned, v.fq, v.pq, v.out, b);
    var t: nat := v.tail_fq;
    var m1 := v.mem[t := v.mem[t].(next := b)];
    var m := Appended(v.mem, v.head_fq, t, b, content);
    StoreElsewhere(v.mem, v.fq, t, m1[t]);
    AgreeWithin(v.mem, m1, v.fq);
    StoreElsewhere(m1, v.fq, b, m[b]);
    AgreeTrans(v.mem, m1, m, v.fq);
    FreeElsewhere(v.mem, m, v.fq, v.head_fq);
    ChainEndsOnce(m, v.fq, v.head_fq, b);
    if t in v.pq && Chain(m, v.pq, v.head_pq) {
      ChainAvoids(m, v.pq, v.head_pq, t, b);
    }
  }

  lemma AppendIsSplice(s: seq<nat>, b: nat)
    ensures Spliced(s, |s|, b) == s + [b]
  {
  }

  ghost function AfterMark<S>(v: RxView<S>, k: nat): RxView<S>
    requires k < |v.fq| && v.fq[k] < |v.mem|
  {
    v.(mem := Emptied(v.mem, v.fq[k]), countFree := v.countFree + 1)
  }

  lemma MarkKeeps<S>(v: RxView<S>, k: nat)
    requires Consistent(v) && k < |v.fq| && Held(v.mem, v.fq)[k]
    ensures v.fq[k] < |v.mem| && Consistent(AfterMark(v, k))
    ensures Queues(AfterMark(v, k)) == ReleaseAt(Queues(v), k)
  {
    FreeMark(v.mem, v.fq, v.head_fq, k);
    HeldMark(v.mem, v.fq, k);
    CountChange(Held(v.mem, v.fq), k);
    OnePlace(v.owned, v.fq, v.pq, v.out, v.fq[k]);
    StoreElsewhere(v.mem, v.pq, v.fq[k], AfterMark(v, k).mem[v.fq[k]]);
    Elsewhere(v.mem, AfterMark(v, k).mem, v.pq, v.head_pq, FULL);
  }

  ghost function AfterEvict<S>(v: RxView<S>, k: nat, content: Buffer<S>): RxView<S>
    requires Within(v.mem, v.pq) && |v.pq| >= 2 && k < |v.pq|
  {
    var last := v.pq[|v.pq| - 1];
    v.(mem := EvictStores(v.mem, v.pq, k, content),
       head_pq := if k == 0 then last else v.head_pq, tail_pq := v.pq[|v.pq| - 2],
       pq := if k + 1 < |v.pq| then Spliced(Front(v.pq), k, last) else Front(v.pq),
       out := if k + 1 < |v.pq| then v.out else v.out + {last})
  }

  lemma EvictElsewhere<S>(v: RxView<S>, k: nat, content: Buffer<S>)
    requires Consistent(v) && |v.pq| >= 2 && k < |v.pq|
    ensures Agree(v.mem, EvictStores(v.mem, v.pq, k, content), v.fq)
  {
    var last, before := v.pq[|v.pq| - 1], v.pq[|v.pq| - 2];
    WithinAt(v.mem, v.pq, |v.pq| - 1);
    WithinAt(v.mem, v.pq, |v.pq| - 2);
    WithinAt(v.mem, v.pq, if k == 0 then 0 else k - 1);
    OnePlace(v.owned, v.fq, v.pq, v.out, last);
    OnePlace(v.owned, v.fq, v.pq, v.out, before);
    var m1 := v.mem[last := content.(next := v.pq[k])];
    var m2 := if k == 0 then m1 else m1[v.pq[k - 1] := m1[v.pq[k - 1]].(next := last)];
    StoreElsewhere(v.mem, v.fq, last, content.(next := v.pq[k]));
    AgreeWithin(v.mem, m1, v.fq);
    if k > 0 {
      OnePlace(v.owned, v.fq, v.pq, v.out, v.pq[k - 1]);
      StoreElsewhere(m1, v.fq, v.pq[k - 1], m2[v.pq[k - 1]]);
      AgreeTrans(v.mem, m1, m2, v.fq);
      AgreeWithin(m1, m2, v.fq);
    }
    StoreElsewhere(m2, v.fq, before, m2[before].(next := NIL));
    AgreeTrans(v.mem, m2, EvictStores(v.mem, v.pq, k, content), v.fq);
  }

  /** The evicted port queue, as a chain of pointers. */
  lemma EvictLinks<S>(v: RxView<S>, k: nat, content: Buffer<S>)
    requires Consistent(v) && |v.pq| >= 2 && k < |v.pq| && content.status == FULL
    ensures var w := AfterEvict(v, k, content);
            && Uniform(w.mem, w.pq, w.head_pq, w.tail_pq, |w.pq|, FULL)
            && Items(w.mem, w.pq) == if k + 1 < |v.pq|
                                     then Spliced(Front(Items(v.mem, v.pq)), k, Item(content.prio, content.data))
                                     else Front(Items(v.mem, v.pq))
  {
    var last, m := v.pq[|v.pq| - 1], LastEnded(v.mem, v.pq);
    EndBeforeLast(v.mem, v.pq, v.head_pq);
    WithinAt(v.mem, v.pq, |v.pq| - 1);
    if k + 1 < |v.pq| {
      EvictMoves(v.mem, v.pq, k, content);
      UniformSplice(m, Front(v.pq), v.head_pq, v.pq[|v.pq| - 2], |v.pq| - 1, FULL, k, last, content);
    } else {
      EvictStrands(v.mem, v.pq, content);
      StoreElsewhere(m, Front(v.pq), last, content.(next := last));
      Elsewhere(m, AfterEvict(v, k, content).mem, Front(v.pq), v.head_pq, FULL);
    }
  }

  lemma FrontElements(s: seq<nat>)
    requires s != []
    ensures Front(s) == Without(s, |s| - 1)
  {
  }

  lemma {:induction false} PlaceInFront<T>(q: seq<Item<T>>, prio: int)
    requires q != [] && Place(q, prio) < |q|
    ensures Place(Front(q), prio) == Place(q, prio)
  {
    if q[0].prio >= prio {
      PlaceInFront(q[1..], prio);
      assert Front(q)[1..] == Front(q[1..]);
    }
  }

  lemma EvictPlaces(owned: set<nat>, fq: seq<nat>, pq: seq<nat>, out: set<nat>, k: nat)
    requires Partition(owned, fq, pq, out) && pq != []
    ensures pq[|pq| - 1] !in out && Partition(owned, fq, Front(pq), out + {pq[|pq| - 1]})
    ensures k + 1 < |pq| ==> Partition(owned, fq, Spliced(Front(pq), k, pq[|pq| - 1]), out)
  {
    var last := pq[|pq| - 1];
    FrontElements(pq);
    TakeOut(owned, fq, pq, out, |pq| - 1);
    if k + 1 < |pq| {
      PutBack(owned, fq, Front(pq), out + {last}, k, last);
      StrandedRestored(out, last);
    }
  }

  lemma EvictSorts<T>(q: seq<Item<T>>, x: Item<T>, k: nat)
    requires Sorted(q) && |q| >= 2 && k == Place(q, x.prio) < |q| && q[|q| - 1].prio < x.prio
    ensures k == Place(Front(q), x.prio) && (k + 1 == |q| <==> Strands(q, x.prio))
    ensures Sorted(Front(q)) && Sorted(StableInsert(Front(q), x))
  {
    SortedFront(q);
    PlaceInFront(q, x.prio);
    StrandsAtLast(q, x.prio);
    InsertKeepsSorted(Front(q), x);
  }

  lemma EvictKeeps<S>(v: RxView<S>, k: nat, content: Buffer<S>)
    requires Consistent(v) && |v.pq| >= 2 && content.status == FULL
    requires k == Place(Items(v.mem, v.pq), content.prio) < |v.pq|
    requires Items(v.mem, v.pq)[|v.pq| - 1].prio < content.prio
    ensures v.pq[|v.pq| - 1] !in v.out
    ensures var w := AfterEvict(v, k, content);
            Consistent(w) && Queues(w) == Evict(Queues(v), Item(content.prio, content.data))
  {
    var w := AfterEvict(v, k, content);
    EvictElsewhere(v, k, content);
    FreeElsewhere(v.mem, w.mem, v.fq, v.head_fq);
    EvictLinks(v, k, content);
    EvictPlaces(v.owned, v.fq, v.pq, v.out, k);
    EvictSorts(Items(v.mem, v.pq), Item(content.prio, content.data), k);
  }

  ghost function AfterReplace<S>(v: RxView<S>, content: Buffer<S>): RxView<S>
    requires v.pq != [] && v.pq[|v.pq| - 1] < |v.mem|
  {
    v.(mem := v.mem[v.pq[|v.pq| - 1] := content])
  }

  lemma ReplaceKeeps<S>(v: RxView<S>, content: Buffer<S>)
    requires Consistent(v) && v.pq != [] && content.status == FULL && content.next == NIL
    requires |v.pq| == 1 || Items(v.mem, v.pq)[|v.pq| - 1].prio == content.prio
    ensures v.pq[|v.pq| - 1] < |v.mem| && Consistent(AfterReplace(v, content))
    ensures Queues(AfterReplace(v, content)) ==
                Queues(v).(queue := StableInsert(Front(Items(v.mem, v.pq)), Item(content.prio, content.data)))
  {
    var q, last := Items(v.mem, v.pq), v.pq[|v.pq| - 1];
    ReplaceLast(v.mem, v.pq, v.head_pq, content);
    var w := AfterReplace(v, content);
    OnePlace(v.owned, v.fq, v.pq, v.out, last);
    StoreElsewhere(v.mem, v.fq, last, content);
    FreeElsewhere(v.mem, w.mem, v.fq, v.head_fq);
    SortedFront(q);
    InsertKeepsSorted(Front(q), Item(content.prio, content.data));
    EqualGoesLast(q, content.prio, Item(content.prio, content.data));
  }

  lemma EqualGoesLast<T>(q: seq<Item<T>>, prio: int, x: Item<T>)
    requires Sorted(q) && q != [] && x.prio == prio && (|q| == 1 || q[|q| - 1].prio == prio)
    ensures StableInsert(Front(q), x) == Front(q) + [x]
  {
    SortedPairs(q);
    PlaceSplits(Front(q), prio);
  }

  /** Another port's assignments, which only touch buffers this one does not own, leave it consistent. */
  lemma OtherPortUnaffected<S>(v: RxView<S>, mem': seq<Buffer<S>>)
    requires Consistent(v) && |mem'| == |v.mem|
    requires forall b :: b in v.owned ==> mem'[b] == v.mem[b]
    ensures Consistent(v.(mem := mem')) && Queues(v.(mem := mem')) == Queues(v)
  {
    AgreeOnOwned(v, mem', v.fq);
    AgreeOnOwned(v, mem', v.pq);
    FreeElsewhere(v.mem, mem', v.fq, v.head_fq);
    Elsewhere(v.mem, mem', v.pq, v.head_pq, FULL);
  }

  lemma {:induction false} AgreeOnOwned<S>(v: RxView<S>, mem': seq<Buffer<S>>, s: seq<nat>)
    requires Consistent(v) && |mem'| == |v.mem| && Within(v.mem, s)
    requires forall b :: b in v.owned ==> mem'[b] == v.mem[b]
    requires forall i :: 0 <= i < |s| ==> s[i] in v.fq || s[i] in v.pq
    ensures Agree(v.mem, mem', s)
  {
    if s != [] {
      OnePlace(v.owned, v.fq, v.pq, v.out, s[0]);
      AgreeOnOwned(v, mem', s[1..]);
    }
  }

  lemma StrandsAtLast<T>(q: seq<Item<T>>, prio: int)
    requires Sorted(q) && |q| >= 2 && q[|q| - 1].prio < prio
    ensures Place(q, prio) + 1 <= |q|
    ensures Place(q, prio) + 1 == |q| <==> Strands(q, prio)
  {
    SortedPairs(q);
    PlaceSplits(q, prio);
  }

  lemma ArriveFull<T>(p: PortQueues<T>, x: Item<T>, overwrite: bool)
    requires Aligned(p) && FirstWith(p.held, false) == |p.held|
    ensures Arrive(p, x, overwrite) ==
            if p.queue == [] || !Replaces(p.queue, x.prio, overwrite) then p else Evict(p, x)
  {
  }

  /** A buffer newly owned, in neither queue yet. */
  ghost function Adopted<S>(v: RxView<S>, b: nat): RxView<S> {
    v.(owned := v.owned + {b}, out := v.out + {b}, countTotal := v.countTotal + 1)
  }

  lemma AdoptKeeps<S>(v: RxView<S>, b: nat)
    requires Consistent(v) && b < |v.mem| && b !in v.owned
    ensures Consistent(Adopted(v, b)) && b !in v.out && v.out + {b} - {b} == v.out
  {
    OnePlace(v.owned, v.fq, v.pq, v.out, b);
    assert multiset(v.owned + {b}) == multiset(v.owned) + multiset{b};
    assert multiset(v.out + {b}) == multiset(v.out) + multiset{b};
  }

  lemma StrandedRestored(out: set<nat>, b: nat)
    requires b !in out
    ensures out + {b} - {b} == out
  {
  }

  lemma {:induction false} NoneFree(held: seq<bool>)
    requires FirstWith(held, false) == |held|
    ensures CountOf(held, false) == 0 && !MissesTail(held, |held|)
  {
    if held != [] {
      assert held[0];
      NoneFree(held[1..]);
    }
  }

  lemma {:induction false} LastItem<S>(mem: seq<Buffer<S>>, s: seq<nat>)
    requires Within(mem, s) && s != []
    ensures s[|s| - 1] < |mem|
    ensures Items(mem, s)[|s| - 1] == Item(mem[s[|s| - 1]].prio, mem[s[|s| - 1]].data)
  {
    if |s| > 1 {
      LastItem(mem, s[1..]);
    }
  }

  lemma {:induction false} LastEndsChain<S>(mem: seq<Buffer<S>>, s: seq<nat>, head: int)
    requires Chain(mem, s, head) && AllHave(mem, s, FULL) && s != []
    ensures s[|s| - 1] < |mem| && mem[s[|s| - 1]].next == NIL && mem[s[|s| - 1]].status == FULL
  {
    if |s| > 1 {
      LastEndsChain(mem, s[1..], mem[s[0]].next);
    }
  }

  /** Only the last but one buffer points to the tail. */
  lemma {:induction false} NextIsTail<S>(mem: seq<Buffer<S>>, s: seq<nat>, head: int, q: nat)
    requires Chain(mem, s, head) && NoRepeats(s) && q + 1 < |s|
    ensures s[q] < |mem| && mem[s[q]].next == s[q + 1]
    ensures s[q + 1] == s[|s| - 1] <==> q + 2 == |s|
  {
    if q == 0 {
      if |s| > 2 {
        NoRepeatsAt(s, 1, |s| - 1);
      }
    } else {
      NextIsTail(mem, s[1..], mem[s[0]].next, q - 1);
    }
  }

  lemma ReplaceIsEvict<T>(p: PortQueues<T>, x: Item<T>)
    requires Aligned(p) && p.queue != []
    requires |p.queue| == 1 || p.queue[|p.queue| - 1].prio == x.prio
    ensures Evict(p, x) == p.(queue := StableInsert(Front(p.queue), x))
  {
    EqualGoesLast(p.queue, x.prio, x);
    PlaceSplits(Front(p.queue), x.prio);
    SortedPairs(p.queue);
    assert Place(Front(p.queue), x.prio) == |p.queue| - 1;
  }

  lemma OutStoreKeeps<S>(v: RxView<S>, b: nat, content: Buffer<S>)
    requires Consistent(v) && b in v.out
    ensures b < |v.mem|
    ensures Consistent(v.(mem := v.mem[b := content])) && Queues(v.(mem := v.mem[b := content])) == Queues(v)
  {
    OnePlace(v.owned, v.fq, v.pq, v.out, b);
    StoreElsewhere(v.mem, v.fq, b, content);
    StoreElsewhere(v.mem, v.pq, b, content);
    FreeElsewhere(v.mem, v.mem[b := content], v.fq, v.head_fq);
    Elsewhere(v.mem, v.mem[b := content], v.pq, v.head_pq, FULL);
  }

  // ---------------------------------------------------------------- what other ports see

  /** Only owned buffers have changed, and no buffer has gone back to the pool. */
  ghost predicate Steady<S>(before: seq<Buffer<S>>, after: seq<Buffer<S>>, owned: set<nat>) {
    && |after| == |before|
    && (forall b :: 0 <= b < |before| && b !in owned ==> after[b] == before[b])
    && (forall b :: 0 <= b < |before| && before[b].status != UNALLOCATED ==> after[b].status != UNALLOCATED)
  }

  lemma StoreSteady<S>(mem: seq<Buffer<S>>, b: nat, content: Buffer<S>, owned: set<nat>)
    requires b < |mem| && b in owned && content.status != UNALLOCATED
    ensures Steady(mem, mem[b := content], owned)
  {
  }

  lemma SteadyTrans<S>(a: seq<Buffer<S>>, b: seq<Buffer<S>>, c: seq<Buffer<S>>, owned: set<nat>)
    requires Steady(a, b, owned) && Steady(b, c, owned)
    ensures Steady(a, c, owned)
  {
  }

  /** Moving the pointer of an owned buffer. */
  lemma RelinkSteady<S>(mem: seq<Buffer<S>>, b: nat, next: int, owned: set<nat>)
    requires b < |mem| && b in owned
    ensures Steady(mem, mem[b := mem[b].(next := next)], owned)
  {
  }

  lemma LinkInSteady<S>(mem: seq<Buffer<S>>, s: seq<nat>, k: nat, b: nat, content: Buffer<S>, owned: set<nat>)
    requires Within(mem, s) && k <= |s| && b < |mem| && b in owned && content.status != UNALLOCATED
    requires k > 0 ==> s[k - 1] in owned
    ensures Steady(mem, LinkIn(mem, s, k, b, content), owned)
  {
    var m := mem[b := content.(next := if k < |s| then s[k] else NIL)];
    StoreSteady(mem, b, m[b], owned);
    if k > 0 {
      WithinAt(mem, s, k - 1);
      RelinkSteady(m, s[k - 1], b, owned);
      SteadyTrans(mem, m, LinkIn(mem, s, k, b, content), owned);
    }
  }

  lemma TakeSteady<S>(v: RxView<S>, k: nat)
    requires Consistent(v) && k < |v.fq|
    ensures Steady(v.mem, AfterTake(v, k).mem, v.owned)
  {
    if k > 0 {
      OnePlace(v.owned, v.fq, v.pq, v.out, v.fq[k - 1]);
      WithinAt(v.mem, v.fq, k - 1);
      WithinAt(v.mem, v.fq, k);
      RelinkSteady(v.mem, v.fq[k - 1], v.mem[v.fq[k]].next, v.owned);
    }
  }

  lemma QueueSteady<S>(v: RxView<S>, b: nat, k: nat, content: Buffer<S>)
    requires Consistent(v) && b in v.out && b < |v.mem| && content.status != UNALLOCATED && k <= |v.pq|
    ensures Steady(v.mem, AfterQueue(v, b, k, content).mem, v.owned)
  {
    OnePlace(v.owned, v.fq, v.pq, v.out, b);
    if k > 0 {
      OnePlace(v.owned, v.fq, v.pq, v.out, v.pq[k - 1]);
    }
    LinkInSteady(v.mem, v.pq, k, b, content, v.owned);
  }

  lemma AppendSteady<S>(v: RxView<S>, b: nat, content: Buffer<S>)
    requires Consistent(v) && b in v.out && b < |v.mem| && content.status != UNALLOCATED
    ensures Steady(v.mem, AfterAppend(v, b, content).mem, v.owned)
  {
    OnePlace(v.owned, v.fq, v.pq, v.out, b);
    if v.fq != [] {
      OnePlace(v.owned, v.fq, v.pq, v.out, v.fq[|v.fq| - 1]);
    }
    LinkInSteady(v.mem, v.fq, |v.fq|, b, content, v.owned);
  }

  lemma MarkSteady<S>(v: RxView<S>, k: nat)
    requires Consistent(v) && k < |v.fq| && v.fq[k] < |v.mem|
    ensures Steady(v.mem, AfterMark(v, k).mem, v.owned)
  {
    OnePlace(v.owned, v.fq, v.pq, v.out, v.fq[k]);
  }

  lemma ReplaceSteady<S>(v: RxView<S>, content: Buffer<S>)
    requires Consistent(v) && v.pq != [] && v.pq[|v.pq| - 1] < |v.mem| && content.status != UNALLOCATED
    ensures Steady(v.mem, AfterReplace(v, content).mem, v.owned)
  {
    OnePlace(v.owned, v.fq, v.pq, v.out, v.pq[|v.pq| - 1]);
  }

  lemma EvictSteady<S>(v: RxView<S>, k: nat, content: Buffer<S>)
    requires Consistent(v) && |v.pq| >= 2 && k < |v.pq| && content.status != UNALLOCATED
    ensures Steady(v.mem, AfterEvict(v, k, content).mem, v.owned)
  {
    var last, before := v.pq[|v.pq| - 1], v.pq[|v.pq| - 2];
    WithinAt(v.mem, v.pq, |v.pq| - 1);
    WithinAt(v.mem, v.pq, |v.pq| - 2);
    OnePlace(v.owned, v.fq, v.pq, v.out, last);
    OnePlace(v.owned, v.fq, v.pq, v.out, before);
    var m1 := v.mem[last := content.(next := v.pq[k])];
    StoreSteady(v.mem, last, m1[last], v.owned);
    var m2 := m1;
    if k > 0 {
      WithinAt(v.mem, v.pq, k - 1);
      OnePlace(v.owned, v.fq, v.pq, v.out, v.pq[k - 1]);
      m2 := m1[v.pq[k - 1] := m1[v.pq[k - 1]].(next := last)];
      RelinkSteady(m1, v.pq[k - 1], last, v.owned);
      SteadyTrans(v.mem, m1, m2, v.owned);
    }
    RelinkSteady(m2, before, NIL, v.owned);
    SteadyTrans(v.mem, m2, AfterEvict(v, k, content).mem, v.owned);
  }

  // ---------------------------------------------------------------- closing

  /** So far into closing: every owned buffer that is in neither queue, and was not stranded before, has
    * gone back to the pool (those in busy apart), and stranded buffers are as they were. */
  ghost predicate DrainingBut<S>(v: RxView<S>, busy: set<nat>, start: seq<Buffer<S>>, stranded: set<nat>) {
    && |start| == |v.mem| && stranded <= v.out
    && (forall b :: b in v.owned && b < |v.mem| && b !in v.fq && b !in v.pq && b !in stranded && b !in busy ==>
          v.mem[b].status == UNALLOCATED)
    && (forall b :: b in stranded && b < |v.mem| ==> v.mem[b] == start[b])
    && (forall b :: 0 <= b < |v.mem| && b !in v.owned ==> v.mem[b] == start[b])
  }

  ghost predicate Draining<S>(v: RxView<S>, start: seq<Buffer<S>>, stranded: set<nat>) {
    DrainingBut(v, {}, start, stranded)
  }

  lemma WithoutMembers(s: seq<nat>, k: nat, b: nat)
    requires k < |s| && b in s && b != s[k]
    ensures b in Without(s, k)
  {
    var i :| 0 <= i < |s| && s[i] == b;
    assert Without(s, k)[if i < k then i else i - 1] == b;
  }

  lemma TakeHeadDrains<S>(v: RxView<S>, start: seq<Buffer<S>>, stranded: set<nat>)
    requires Consistent(v) && Draining(v, start, stranded) && v.pq != [] && v.pq[0] < |v.mem|
    ensures v.pq[0] !in stranded && DrainingBut(AfterTakeHead(v), {v.pq[0]}, start, stranded)
  {
    OnePlace(v.owned, v.fq, v.pq, v.out, v.pq[0]);
    HeadAndRest(v.pq);
  }

  lemma TakeDrains<S>(v: RxView<S>, k: nat, start: seq<Buffer<S>>, stranded: set<nat>)
    requires Consistent(v) && Draining(v, start, stranded) && k < |v.fq|
    ensures v.fq[k] !in stranded && DrainingBut(AfterTake(v, k), {v.fq[k]}, start, stranded)
  {
    var w := AfterTake(v, k);
    OnePlace(v.owned, v.fq, v.pq, v.out, v.fq[k]);
    if k > 0 {
      OnePlace(v.owned, v.fq, v.pq, v.out, v.fq[k - 1]);
    }
    forall b | b in w.owned && b < |w.mem| && b !in w.fq && b !in w.pq && b !in stranded && b != v.fq[k]
      ensures w.mem[b].status == UNALLOCATED
    {
      if b in v.fq {
        WithoutMembers(v.fq, k, b);
      }
    }
  }

  /** Taking buffers of one kind never brings back the other kind. */
  lemma {:induction false} TakingLeavesNone(held: seq<bool>, k: nat, h: bool)
    requires k < |held| && FirstWith(held, h) == |held|
    ensures FirstWith(Without(held, k), h) == |held| - 1
  {
    if k == 0 {
      assert Without(held, 0) == held[1..];
    } else {
      TakingLeavesNone(held[1..], k - 1, h);
      assert Without(held, k)[1..] == Without(held[1..], k - 1);
    }
  }

  lemma DrainStart<S>(v: RxView<S>)
    requires Consistent(v)
    ensures Draining(v, v.mem, v.out)
  {
    forall b | b in v.owned ensures b in v.fq || b in v.pq || b in v.out {
      OnePlace(v.owned, v.fq, v.pq, v.out, b);
    }
  }

  /** The buffers of fq and pq are back in the pool, and no other buffer has changed. */
  ghost predicate GivenBack<S>(before: seq<Buffer<S>>, after: seq<Buffer<S>>, fq: seq<nat>, pq: seq<nat>) {
    && |after| == |before|
    && (forall b :: b in fq || b in pq ==> b < |after| && after[b].status == UNALLOCATED)
    && (forall b :: 0 <= b < |after| && b !in fq && b !in pq ==> after[b] == before[b])
  }

  /** When both queues have been drained, what they held is back in the pool and nothing else changed. */
  lemma DrainEnd<S>(v: RxView<S>, was: RxView<S>)
    requires Consistent(was) && Draining(v, was.mem, was.out) && v.owned == was.owned
    requires v.pq == [] && v.fq == []
    ensures GivenBack(was.mem, v.mem, was.fq, was.pq)
  {
    forall b | b in was.fq || b in was.pq ensures b < |v.mem| && v.mem[b].status == UNALLOCATED {
      OnePlace(was.owned, was.fq, was.pq, was.out, b);
    }
    forall b | 0 <= b < |v.mem| && b !in was.fq && b !in was.pq ensures v.mem[b] == was.mem[b] {
      OnePlace(was.owned, was.fq, was.pq, was.out, b);
    }
  }

  /** A port that owns nothing; the free queue's tail pointer is whatever it was. */
  ghost function Closed<S>(mem: seq<Buffer<S>>, tail_fq: int): RxView<S> {
    RxView(mem, {}, [], NIL, tail_fq, [], NIL, NIL, {}, 0, 0)
  }

  lemma ClosedIsEmpty<S>(mem: seq<Buffer<S>>, tail_fq: int)
    ensures Consistent(Closed(mem, tail_fq)) && Queues(Closed(mem, tail_fq)) == Empty()
  {
  }

  lemma FirstWithStep(held: seq<bool>, k: nat, h: bool)
    requires k < |held|
    ensures FirstWith(held[k..], h) == if held[k] == h then 0 else 1 + FirstWith(held[k + 1..], h)
  {
    DropOne(held, k);
  }

  lemma DropOne<X>(s: seq<X>, k: nat)
    requires k < |s|
    ensures s[k..][0] == s[k] && s[k..][1..] == s[k + 1..]
  {
  }

  lemma NothingLeft(held: seq<bool>)
    requires FirstWith(held, true) == |held| && FirstWith(held, false) == |held|
    ensures held == []
  {
  }
}
