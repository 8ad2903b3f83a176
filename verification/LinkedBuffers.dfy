/** Buffers of a fixed array, threaded through singly linked queues by their next field.  A pointer is
  * an index into the array, or NIL.
  *
  * A queue is described by the sequence of indices it visits.  Its insertions and removals are stated on
  * the array as a value; the methods that do the assignments are proved to leave just that value.
  */
module LinkedBuffers {
  import opened PriorityQueue

  const NIL: int := -1

  datatype Status = UNALLOCATED | EMPTY | FULL

  datatype Buffer<T> = Buffer(data: T, status: Status, prio: int, next: int)

  ghost predicate NoRepeats(s: seq<nat>) {
    s == [] || (s[0] !in s[1..] && NoRepeats(s[1..]))
  }

  ghost predicate Within<T>(mem: seq<Buffer<T>>, s: seq<nat>) {
    s == [] || (s[0] < |mem| && Within(mem, s[1..]))
  }

  function First(s: seq<nat>): int {
    if s == [] then NIL else s[0]
  }

  function Last(s: seq<nat>): int {
    if s == [] then NIL else s[|s| - 1]
  }

  /** s is exactly the chain of buffers that starts at head, and it ends. */
  ghost predicate Chain<T>(mem: seq<Buffer<T>>, s: seq<nat>, head: int)
    ensures Chain(mem, s, head) ==> Within(mem, s) && head == First(s)
  {
    if s == [] then head == NIL
    else head == s[0] && s[0] < |mem| && Chain(mem, s[1..], mem[s[0]].next)
  }

  ghost function Items<T>(mem: seq<Buffer<T>>, s: seq<nat>): (q: seq<Item<T>>)
    requires Within(mem, s)
    ensures |q| == |s|
  {
    if s == [] then [] else [Item(mem[s[0]].prio, mem[s[0]].data)] + Items(mem, s[1..])
  }

  ghost predicate AllHave<T>(mem: seq<Buffer<T>>, s: seq<nat>, status: Status)
    requires Within(mem, s)
  {
    s == [] || (mem[s[0]].status == status && AllHave(mem, s[1..], status))
  }

  /** A queue that is exactly its head and tail pointers and its counter, all of whose buffers have
    * one status. */
  ghost predicate Uniform<T>(mem: seq<Buffer<T>>, s: seq<nat>, head: int, tail: int, count: int, status: Status) {
    Chain(mem, s, head) && NoRepeats(s) && tail == Last(s) && count == |s| && AllHave(mem, s, status)
  }

  lemma UniformRest<T>(mem: seq<Buffer<T>>, s: seq<nat>, head: int, tail: int, count: int, status: Status)
    requires Uniform(mem, s, head, tail, count, status) && s != []
    ensures s[0] < |mem|
    ensures Uniform(mem, s[1..], mem[s[0]].next, if head == tail then NIL else tail, count - 1, status)
    ensures Items(mem, s) == [Item(mem[s[0]].prio, mem[s[0]].data)] + Items(mem, s[1..])
    ensures Items(mem, s[1..]) == Items(mem, s)[1..]
  {
    LastOfMany(s);
  }

  // ---------------------------------------------------------------- chains under pointer updates

  /** The stores that link b, now holding content, in after the first k buffers. */
  ghost function LinkIn<T>(mem: seq<Buffer<T>>, s: seq<nat>, k: nat, b: nat, content: Buffer<T>): (r: seq<Buffer<T>>)
    requires Within(mem, s) && k <= |s| && b < |mem|
    ensures |r| == |mem|
  {
    var m := mem[b := content.(next := if k < |s| then s[k] else NIL)];
    if k == 0 then m else WithinAt(mem, s, k - 1); m[s[k - 1] := m[s[k - 1]].(next := b)]
  }

  lemma {:induction false} WithinAt<T>(mem: seq<Buffer<T>>, s: seq<nat>, i: nat)
    requires Within(mem, s) && i < |s|
    ensures s[i] < |mem|
  {
    if i > 0 {
      WithinAt(mem, s[1..], i - 1);
    }
  }

  ghost predicate Agree<T>(mem: seq<Buffer<T>>, mem': seq<Buffer<T>>, s: seq<nat>) {
    && |mem'| == |mem|
    && (s == [] || (s[0] < |mem| && mem'[s[0]] == mem[s[0]] && Agree(mem, mem', s[1..])))
  }

  lemma {:induction false} StoreElsewhere<T>(mem: seq<Buffer<T>>, s: seq<nat>, b: nat, content: Buffer<T>)
    requires Within(mem, s) && b < |mem| && b !in s
    ensures Agree(mem, mem[b := content], s)
  {
    if s != [] {
      StoreElsewhere(mem, s[1..], b, content);
    }
  }

  lemma {:induction false} Elsewhere<T>(mem: seq<Buffer<T>>, mem': seq<Buffer<T>>, s: seq<nat>, head: int,
                                        status: Status)
    requires Chain(mem, s, head) && Agree(mem, mem', s)
    ensures Chain(mem', s, head)
    ensures Items(mem', s) == Items(mem, s)
    ensures AllHave(mem', s, status) <==> AllHave(mem, s, status)
  {
    if s != [] {
      Elsewhere(mem, mem', s[1..], mem[s[0]].next, status);
    }
  }

  lemma SplicedElements(s: seq<nat>, k: nat, b: nat)
    requires k <= |s|
    ensures multiset(Spliced(s, k, b)) == multiset(s) + multiset{b}
  {
    assert s == s[..k] + s[k..];
  }

  lemma {:induction false} SplicedNoRepeats(s: seq<nat>, k: nat, b: nat)
    requires k <= |s| && NoRepeats(s) && b !in s
    ensures NoRepeats(Spliced(s, k, b))
  {
    if k == 0 {
      assert Spliced(s, k, b)[1..] == s;
    } else {
      SplicedNoRepeats(s[1..], k - 1, b);
      assert Spliced(s, k, b)[1..] == Spliced(s[1..], k - 1, b);
    }
  }

  /** Linking b in at the head. */
  lemma SpliceFirst<T>(mem: seq<Buffer<T>>, s: seq<nat>, head: int, b: nat, content: Buffer<T>, status: Status)
    requires Chain(mem, s, head) && b < |mem| && b !in s
    ensures Spliced(s, 0, b) == [b] + s
    ensures Linked(mem, s, LinkIn(mem, s, 0, b, content), [b] + s, b, 0, content, status)
  {
    var m, r := LinkIn(mem, s, 0, b, content), [b] + s;
    assert r[1..] == s;
    StoreElsewhere(mem, s, b, m[b]);
    Elsewhere(mem, m, s, head, status);
    var item := Item(content.prio, content.data);
    assert Spliced(Items(mem, s), 0, item) == [item] + Items(mem, s);
  }

  /** m and r are mem and s with content linked in at index k: as a chain from head, as items, as statuses. */
  ghost predicate Linked<T>(mem: seq<Buffer<T>>, s: seq<nat>, m: seq<Buffer<T>>, r: seq<nat>, head: int, k: nat,
                            content: Buffer<T>, status: Status)
    requires Within(mem, s) && k <= |s|
  {
    && Chain(m, r, head)
    && Items(m, r) == Spliced(Items(mem, s), k, Item(content.prio, content.data))
    && (content.status == status && AllHave(mem, s, status) ==> AllHave(m, r, status))
  }

  /** A buffer in front of a chain that has had content linked in, once it points to the chain's head. */
  lemma LinkedBehind<T>(mem: seq<Buffer<T>>, s: seq<nat>, m: seq<Buffer<T>>, r: seq<nat>, k: nat,
                        content: Buffer<T>, status: Status)
    requires Within(mem, s) && s != [] && 0 < k <= |s| && s[0] < |m|
    requires m[s[0]].data == mem[s[0]].data && m[s[0]].prio == mem[s[0]].prio && m[s[0]].status == mem[s[0]].status
    requires Linked(mem, s[1..], m, r, m[s[0]].next, k - 1, content, status)
    ensures Linked(mem, s, m, [s[0]] + r, s[0], k, content, status)
  {
    ConsOnto(m, s[0], r, status);
    SplicedCons(Item(mem[s[0]].prio, mem[s[0]].data), Items(mem, s[1..]), k - 1, Item(content.prio, content.data));
  }

  /** A buffer put in front of a chain it points to. */
  lemma ConsOnto<T>(m: seq<Buffer<T>>, h: nat, r: seq<nat>, status: Status)
    requires h < |m| && Chain(m, r, m[h].next)
    ensures Chain(m, [h] + r, h)
    ensures Items(m, [h] + r) == [Item(m[h].prio, m[h].data)] + Items(m, r)
    ensures AllHave(m, [h] + r, status) <==> m[h].status == status && AllHave(m, r, status)
  {
    assert ([h] + r)[1..] == r;
  }

  /** Linking b in right behind the head. */
  lemma SpliceSecond<T>(mem: seq<Buffer<T>>, s: seq<nat>, head: int, b: nat, content: Buffer<T>, status: Status)
    requires Chain(mem, s, head) && NoRepeats(s) && s != [] && b < |mem| && b !in s
    ensures Linked(mem, s[1..], LinkIn(mem, s, 1, b, content), [b] + s[1..], b, 0, content, status)
  {
    var m0, m := LinkIn(mem, s[1..], 0, b, content), LinkIn(mem, s, 1, b, content);
    SpliceFirst(mem, s[1..], mem[s[0]].next, b, content, status);
    StoreElsewhere(m0, [b] + s[1..], s[0], m[s[0]]);
    Elsewhere(m0, m, [b] + s[1..], b, status);
  }

  lemma SplicedRest(s: seq<nat>, k: nat, b: nat)
    requires 0 < k <= |s|
    ensures Spliced(s, k, b) == [s[0]] + Spliced(s[1..], k - 1, b)
  {
  }

  /** Linking in further down touches the same buffers seen from the second one. */
  lemma LinkInRest<T>(mem: seq<Buffer<T>>, s: seq<nat>, k: nat, b: nat, content: Buffer<T>)
    requires Within(mem, s) && NoRepeats(s) && 1 < k <= |s| && b < |mem| && b !in s
    ensures LinkIn(mem, s, k, b, content) == LinkIn(mem, s[1..], k - 1, b, content)
    ensures LinkIn(mem, s, k, b, content)[s[0]] == mem[s[0]]
  {
    WithinAt(mem, s, k - 1);
    NoRepeatsAt(s, 0, k - 1);
  }

  lemma {:induction false} SpliceChain<T>(mem: seq<Buffer<T>>, s: seq<nat>, head: int, k: nat, b: nat,
                                          content: Buffer<T>, status: Status)
    requires Chain(mem, s, head) && NoRepeats(s) && k <= |s| && b < |mem| && b !in s
    ensures Linked(mem, s, LinkIn(mem, s, k, b, content), Spliced(s, k, b),
                if k == 0 then b else head, k, content, status)
    decreases k
  {
    if k == 0 {
      SpliceFirst(mem, s, head, b, content, status);
    } else {
      var m := LinkIn(mem, s, k, b, content);
      SplicedRest(s, k, b);
      if k == 1 {
        SpliceFirst(mem, s[1..], mem[s[0]].next, b, content, status);
        SpliceSecond(mem, s, head, b, content, status);
      } else {
        LinkInRest(mem, s, k, b, content);
        SpliceChain(mem, s[1..], mem[s[0]].next, k - 1, b, content, status);
      }
      LinkedBehind(mem, s, m, Spliced(s[1..], k - 1, b), k, content, status);
    }
  }

  lemma UniformSplice<T>(mem: seq<Buffer<T>>, s: seq<nat>, head: int, tail: int, count: int, status: Status,
                         k: nat, b: nat, content: Buffer<T>)
    requires Uniform(mem, s, head, tail, count, status) && k <= |s| && b < |mem| && b !in s && content.status == status
    ensures Uniform(LinkIn(mem, s, k, b, content), Spliced(s, k, b),
                    if k == 0 then b else head, if k == |s| then b else tail, count + 1, status)
    ensures Items(LinkIn(mem, s, k, b, content), Spliced(s, k, b)) ==
            Spliced(Items(mem, s), k, Item(content.prio, content.data))
  {
    SpliceChain(mem, s, head, k, b, content, status);
    SplicedNoRepeats(s, k, b);
    LastOfSpliced(s, k, b);
  }

  lemma LastOfSpliced(s: seq<nat>, k: nat, b: nat)
    requires k <= |s|
    ensures Last(Spliced(s, k, b)) == if k == |s| then b else Last(s)
  {
  }

  /** Linking into one queue leaves another one alone. */
  lemma UniformElsewhere<T>(mem: seq<Buffer<T>>, s: seq<nat>, k: nat, b: nat, content: Buffer<T>,
                            other: seq<nat>, head: int, tail: int, count: int, status: Status)
    requires Within(mem, s) && k <= |s| && b < |mem| && b !in other && (k > 0 ==> s[k - 1] !in other)
    requires Uniform(mem, other, head, tail, count, status)
    ensures Uniform(LinkIn(mem, s, k, b, content), other, head, tail, count, status)
    ensures Items(LinkIn(mem, s, k, b, content), other) == Items(mem, other)
  {
    LinkInElsewhere(mem, s, k, b, content, other);
    Elsewhere(mem, LinkIn(mem, s, k, b, content), other, head, status);
  }

  lemma LinkInElsewhere<T>(mem: seq<Buffer<T>>, s: seq<nat>, k: nat, b: nat, content: Buffer<T>, other: seq<nat>)
    requires Within(mem, s) && Within(mem, other) && k <= |s| && b < |mem|
    requires b !in other && (k > 0 ==> s[k - 1] !in other)
    ensures Agree(mem, LinkIn(mem, s, k, b, content), other)
  {
    var m := mem[b := content.(next := if k < |s| then s[k] else NIL)];
    StoreElsewhere(mem, other, b, m[b]);
    if k > 0 {
      WithinAt(mem, s, k - 1);
      AgreeWithin(mem, m, other);
      StoreElsewhere(m, other, s[k - 1], m[s[k - 1]].(next := b));
      AgreeTrans(mem, m, LinkIn(mem, s, k, b, content), other);
    }
  }

  lemma AgreeWithin<T>(mem: seq<Buffer<T>>, mem': seq<Buffer<T>>, s: seq<nat>)
    requires Agree(mem, mem', s)
    ensures Within(mem, s) && Within(mem', s)
  {
  }

  lemma AgreeTrans<T>(a: seq<Buffer<T>>, b: seq<Buffer<T>>, c: seq<Buffer<T>>, s: seq<nat>)
    requires Agree(a, b, s) && Agree(b, c, s)
    ensures Agree(a, c, s)
  {
  }

  /** What the pointer assignments of an insertion store, and when it moves the tail. */
  lemma LinkInAt<T>(mem: seq<Buffer<T>>, s: seq<nat>, k: nat, b: nat, content: Buffer<T>)
    requires Within(mem, s) && NoRepeats(s) && k <= |s| && b < |mem| && b !in s
    ensures k == 0 ==> LinkIn(mem, s, k, b, content) == mem[b := content.(next := First(s))]
    ensures k > 0 ==> s[k - 1] < |mem| && s[k - 1] != b
    ensures k > 0 ==> LinkIn(mem, s, k, b, content) ==
                      mem[b := content.(next := if k < |s| then s[k] else NIL)][s[k - 1] := mem[s[k - 1]].(next := b)]
    ensures k > 0 ==> (s[k - 1] == Last(s) <==> k == |s|)
  {
    if k > 0 {
      WithinAt(mem, s, k - 1);
      if k < |s| {
        NoRepeatsAt(s, k - 1, |s| - 1);
      }
    }
  }

  lemma {:induction false} NoRepeatsAt(s: seq<nat>, i: nat, j: nat)
    requires NoRepeats(s) && i < j < |s|
    ensures s[i] != s[j]
  {
    if i > 0 {
      NoRepeatsAt(s[1..], i - 1, j - 1);
    }
  }

  /** Head and tail pointers coincide exactly in a queue of one. */
  lemma LastOfMany(s: seq<nat>)
    requires NoRepeats(s) && s != []
    ensures First(s) == Last(s) <==> |s| == 1
    ensures |s| > 1 ==> Last(s[1..]) == Last(s)
  {
    if |s| > 1 {
      NoRepeatsAt(s, 0, |s| - 1);
    }
  }

  /** What appending stores, wherever tail points. */
  ghost function Appended<T>(mem: seq<Buffer<T>>, head: int, tail: int, b: nat, content: Buffer<T>): (m: seq<Buffer<T>>)
    requires b < |mem| && (head != NIL ==> 0 <= tail < |mem|)
    ensures |m| == |mem|
  {
    (if head == NIL then mem else mem[tail := mem[tail].(next := b)])[b := content.(next := NIL)]
  }

  /** With the right tail this links the buffer in behind all others. */
  lemma AppendedIsLinkIn<T>(mem: seq<Buffer<T>>, s: seq<nat>, b: nat, content: Buffer<T>)
    requires Within(mem, s) && b < |mem| && b !in s
    ensures s != [] ==> 0 <= Last(s) < |mem|
    ensures Appended(mem, First(s), Last(s), b, content) == LinkIn(mem, s, |s|, b, content)
  {
    if s != [] {
      WithinAt(mem, s, |s| - 1);
    }
  }

  /** The traversal that precedes every priority insertion: stops at the first buffer of lower priority. */
  method FindPlace<T>(mem: array<Buffer<T>>, head: int, prio: int, ghost s: seq<nat>)
    returns (prev: int, ptr: int, ghost k: nat)
    requires Chain(mem[..], s, head)
    ensures k == Place(Items(mem[..], s), prio)
    ensures prev == if k == 0 then NIL else s[k - 1]
    ensures ptr == if k == |s| then NIL else s[k]
  {
    ptr, prev, k := head, NIL, 0;
    ghost var q := Items(mem[..], s);
    while ptr != NIL
      invariant k <= |s| && Chain(mem[..], s[k..], ptr)
      invariant prev == if k == 0 then NIL else s[k - 1]
      invariant Items(mem[..], s[k..]) == q[k..] && Place(q, prio) == k + Place(q[k..], prio)
      decreases |s| - k
    {
      if mem[ptr].prio < prio {
        return;
      }
      assert q[k..][1..] == q[k + 1..] && s[k..][1..] == s[k + 1..];
      prev := ptr;
      ptr := mem[ptr].next;
      k := k + 1;
    }
  }

  /** Fills buffer b and links it into a queue by its priority: behind all buffers of its own or
    * higher priority.  Returns the queue's new head and tail. */
  method InsertByPriority<T>(mem: array<Buffer<T>>, head: int, tail: int, b: nat, content: Buffer<T>, ghost s: seq<nat>)
    returns (head': int, tail': int, ghost k: nat)
    requires Chain(mem[..], s, head) && NoRepeats(s) && tail == Last(s) && b < mem.Length && b !in s
    modifies mem
    ensures k <= |s| && k == Place(Items(old(mem[..]), s), content.prio)
    ensures mem[..] == LinkIn(old(mem[..]), s, k, b, content)
    ensures head' == (if k == 0 then b else head) && tail' == (if k == |s| then b else tail)
  {
    ghost var was := mem[..];
    mem[b] := content;
    assert mem[..] == was[b := content];
    StoreElsewhere(was, s, b, content);
    Elsewhere(was, mem[..], s, head, FULL);
    var prev, ptr;
    prev, ptr, k := FindPlace(mem, head, content.prio, s);
    LinkInAt(was, s, k, b, content);
    head', tail' := head, tail;
    mem[b] := content.(next := ptr);
    if head == NIL {
      head', tail' := b, b;
    } else if prev == NIL {
      head' := b;
    } else {
      mem[prev] := mem[prev].(next := b);
      if prev == tail {
        tail' := b;
      }
    }
  }

  /** Fills buffer b and links it in behind the buffer tail names; at the end of the queue, if that is its
    * last. */
  method Append<T>(mem: array<Buffer<T>>, head: int, tail: int, b: nat, content: Buffer<T>, ghost s: seq<nat>)
    returns (head': int, tail': int)
    requires Within(mem[..], s) && head == First(s) && (s != [] ==> 0 <= tail < mem.Length) && b < mem.Length && b !in s
    modifies mem
    ensures mem[..] == Appended(old(mem[..]), head, tail, b, content)
    ensures s == [] || tail == Last(s) ==> mem[..] == LinkIn(old(mem[..]), s, |s|, b, content)
    ensures head' == (if s == [] then b else head) && tail' == b
  {
    AppendedIsLinkIn(mem[..], s, b, content);
    if head == NIL {
      head' := b;
    } else {
      head' := head;
      mem[tail] := mem[tail].(next := b);
    }
    tail' := b;
    mem[b] := content.(next := NIL);
  }
}
