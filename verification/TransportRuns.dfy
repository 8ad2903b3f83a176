/** Whole runs of the transport layer on its real arrays and linked queues: every port's free queue and
  * port queue stays exactly its pointers through any calls by any tasks, as long as none of them puts a
  * buffer behind a tail pointer that has been left behind.
  */
module TransportRuns {
  import opened PriorityQueue
  import opened SocketSpec
  import opened SocketRuns
  import opened TransportLayer
  import ExcessPolicy

  /** Mapping uses an element nobody uses, whose tail pointer is right. */
  lemma IntactNewTail<T>(l: Layer<T>, lost: set<nat>)
    requires Intact(l, lost)
    ensures NewTailRight(l)
  {
    if FreeRbm(l) < |l.rbm| {
      assert Idle(l.rbm[FreeRbm(l)]);
    }
  }

  /** One call, or one arriving segment, on the real state. */
  method Perform<T>(t: TransportLayerUDP<T>, c: Call<T>, ghost lost: set<nat>) returns (reply: Reply)
    requires t.Valid() && Intact(t.layer, lost) && Proper(t.layer, c) && !Breaks(t.layer, c)
    modifies t, t.sock, t.ports, t.pindex, t.bufs.Repr
    ensures t.Valid() && (t.layer, reply) == Do(old(t.layer), c)
    ensures Intact(t.layer, lost + Loses(old(t.layer), c))
  {
    hide TransportLayerUDP.Valid, Intact;
    EveryCallKeepsIntact(t.layer, lost, c);
    IntactNewTail(t.layer, lost);
    match c {
      case Create(kind, pid) => reply := t.Create(kind, pid);
      case BindTo(s, port, pid) => reply := t.BindSocket(s, port, pid);
      case SendOn(s, pid) => reply := t.MapBeforeSend(s, pid);
      case SetSize(s, size, pid, unset) => reply := t.SetReceiveQueueSize(s, size, pid, unset);
      case ReceiveOn(s, pid) =>
        var data;
        reply, data := t.ReceiveSegment(s, pid);
      case Release(s, buf, pid) => reply := t.Release(s, buf, pid);
      case Segment(port, x, overwrite) =>
        t.DeliverSegment(port, x.data, x.prio, overwrite);
        reply := Ok(NRK_OK);
      case Close(s, pid) => reply := t.CloseDescriptor(s, pid);
    }
  }

  /** Any number of them: as long as no buffer is put behind a tail pointer that has been left behind, every
    * port's lists are exactly right, and tailRight says which tail pointers are. */
  method PerformAll<T>(t: TransportLayerUDP<T>, calls: seq<Call<T>>, ghost lost: set<nat>)
    requires t.Valid() && Intact(t.layer, lost) && AllProper(t.layer, calls) && Unbroken(t.layer, calls)
    modifies t, t.sock, t.ports, t.pindex, t.bufs.Repr
    ensures t.Valid() && t.layer == Run(old(t.layer), calls).0
    ensures Intact(t.layer, lost + Run(old(t.layer), calls).1)
    decreases |calls|
  {
    hide TransportLayerUDP.Valid, Intact;
    RunsKeepIntact(t.layer, lost, calls);
    if calls != [] {
      ghost var lost' := lost + Loses(t.layer, calls[0]);
      var _ := Perform(t, calls[0], lost);
      PerformAll(t, calls[1..], lost');
    }
  }

  /** A segment arrives: at a full port the policy set for its priority decides a tie. */
  method ProcessSegment<T>(t: TransportLayerUDP<T>, settings: ExcessPolicy.Settings, port: nat, data: T, prio: int)
    requires t.Valid() && ExcessPolicy.ValidPriority(prio)
    modifies t, t.bufs.Repr
    ensures t.Valid()
    ensures var overwrite := old(settings.Policy(prio)) == ExcessPolicy.OVERWRITE;
            t.layer == Deliver(old(t.layer), port, Item(prio, data), overwrite)
  {
    var overwrite := settings.Policy(prio) == ExcessPolicy.OVERWRITE;
    t.DeliverSegment(port, data, prio, overwrite);
  }
}
