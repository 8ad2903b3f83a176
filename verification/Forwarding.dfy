/** What one node does with a packet: route_packet(), the dispatch of nl_rx_task(), the dequeue and
  * release of nl_tx_task(), on top of the node's routing table and transmit queues.
  */
module Forwarding {
  import opened PriorityQueue
  import opened RoutingTables
  import opened LinkedBuffers
  import opened TransmitQueue

  datatype Payload = App(id: nat) | Hello | NgbList | RouteConfig(node: nat, table: seq<Entry>) | Unknown

  datatype Packet = Packet(src: nat, dest: nat, prevHop: nat, nextHop: nat, ttl: int, prio: int, payload: Payload)

  const MAX_TTL: int := 127

  /** A packet waiting in the transmit queue of a node. */
  datatype Flight = Flight(at: nat, pkt: Packet)

  /** Deliver: handed to the transport layer.  Learn: handed to add_neighbor().  Corrupted: the node
    * stops with the message that its routing table is corrupted. */
  datatype Reaction = Drop | Deliver | Relay(pkt: Packet) | Learn | Install(table: seq<Entry>) | Corrupted

  /** Reduction to a signed 8-bit value. */
  function Int8(x: int): (r: int)
    ensures -128 <= r <= 127
    ensures -128 <= x <= 127 ==> r == x
  {
    (x + 128) % 256 - 128
  }

  /** route_packet(): one hop less to live, and the next hop looked up; nothing is sent at zero. */
  function Routed(me: nat, rt: seq<Entry>, pkt: Packet): Reaction {
    var ttl := Int8(pkt.ttl - 1);
    if ttl == 0 then Drop else Relay(pkt.(ttl := ttl, prevHop := me, nextHop := Lookup(rt, pkt.dest)))
  }

  /** process_nw_ctrl_pkt() for a packet addressed to this node or to all. */
  function ReactToControl(me: nat, rt: seq<Entry>, pkt: Packet): Reaction {
    match pkt.payload
    case Hello => Learn
    case NgbList => if pkt.src == me then Drop else Routed(me, rt, pkt)
    case RouteConfig(node, table) => if node == me then Install(table) else Routed(me, rt, pkt)
    case _ => Drop
  }

  /** The dispatch of nl_rx_task(). */
  function React(me: nat, rt: seq<Entry>, pkt: Packet): Reaction {
    if pkt.payload.Unknown? then Drop
    else if pkt.dest == me || pkt.dest == BCAST_ADDR then
      if pkt.payload.App? then Deliver else ReactToControl(me, rt, pkt)
    else if pkt.nextHop == me then
      if pkt.src == me then Corrupted else Routed(me, rt, pkt)
    else if pkt.nextHop == BCAST_ADDR then Routed(me, rt, pkt)
    else Drop
  }

  /** Addressed to the node, or to all. */
  predicate ForMe(me: nat, pkt: Packet) {
    pkt.dest == me || pkt.dest == BCAST_ADDR
  }

  /** Packets the node passes on, while they live: routing tables of others, neighbour lists of others, and
    * packets for others that name it or all nodes as the next hop and have not come back to their source. */
  predicate PassesOn(me: nat, pkt: Packet) {
    match pkt.payload
    case App(_) => !ForMe(me, pkt) && NamesMe(me, pkt)
    case Hello => !ForMe(me, pkt) && NamesMe(me, pkt)
    case NgbList => if ForMe(me, pkt) then pkt.src != me else NamesMe(me, pkt)
    case RouteConfig(node, _) => if ForMe(me, pkt) then node != me else NamesMe(me, pkt)
    case Unknown => false
  }

  predicate NamesMe(me: nat, pkt: Packet) {
    if pkt.nextHop == me then pkt.src != me else pkt.nextHop == BCAST_ADDR
  }

  /** Each reaction, and exactly the packets that bring it about. */
  lemma ReactsExactly(me: nat, rt: seq<Entry>, pkt: Packet)
    ensures React(me, rt, pkt) == Deliver <==> ForMe(me, pkt) && pkt.payload.App?
    ensures React(me, rt, pkt) == Learn <==> ForMe(me, pkt) && pkt.payload.Hello?
    ensures forall table :: React(me, rt, pkt) == Install(table) <==>
              ForMe(me, pkt) && pkt.payload == RouteConfig(me, table)
    ensures React(me, rt, pkt) == Corrupted <==>
              !pkt.payload.Unknown? && !ForMe(me, pkt) && pkt.nextHop == pkt.src == me
    ensures React(me, rt, pkt).Relay? <==> PassesOn(me, pkt) && (pkt.ttl - 1) % 256 != 0
    ensures React(me, rt, pkt).Relay? ==>
              var p := React(me, rt, pkt).pkt;
              && p == Packet(pkt.src, pkt.dest, me, Lookup(rt, pkt.dest), p.ttl, pkt.prio, pkt.payload)
              && (1 <= pkt.ttl <= MAX_TTL ==> 1 <= p.ttl == pkt.ttl - 1)
  {
    var ttl := Int8(pkt.ttl - 1);
    assert ttl % 256 == (pkt.ttl - 1) % 256;
    assert ttl == 0 <==> ttl % 256 == 0;
  }

  /** The packet send() builds on a node that wants to reach dest. */
  function Fresh(me: nat, rt: seq<Entry>, dest: nat, ttl: int, prio: int, id: nat): Packet {
    Packet(me, dest, me, Lookup(rt, dest), ttl, prio, App(id))
  }

  class NetworkLayer {
    const me: nat
    const rt: array<Entry>
    const tx: TransmitBufferManager<Packet>
    var delivered: seq<Packet>
    var learned: nat
    var corrupted: bool

    ghost predicate Valid()
      reads this, tx, tx.tx_buf
    {
      tx.Valid()
    }

    constructor (me: nat, maxNodes: nat, maxTxQueue: nat, blank: Packet)
      ensures Valid() && fresh(rt) && fresh(tx) && fresh(tx.tx_buf)
      ensures this.me == me && rt.Length == maxNodes
              && (forall i :: 0 <= i < maxNodes ==> rt[i] == RoutingTables.Blank())
      ensures |tx.view.free| == maxTxQueue && tx.Queue() == []
      ensures delivered == [] && !corrupted
    {
      this.me := me;
      rt := new Entry[maxNodes](_ => RoutingTables.Blank());
      tx := new TransmitBufferManager<Packet>(maxTxQueue, blank);
      delivered, learned, corrupted := [], 0, false;
    }

    /** set_RoutingTable(): all entries are invalidated, then copied from the message. */
    method SetRoutingTable(table: seq<Entry>)
      requires |table| == rt.Length
      modifies rt
      ensures rt[..] == table
    {
      InitialiseRoutingTable(rt);
      for i := 0 to rt.Length
        invariant forall j :: 0 <= j < i ==> rt[j] == table[j]
      {
        rt[i] := table[i];
      }
    }

    /** Queues the packet for its next hop; if no transmit buffer is free it is lost. */
    method RoutePacket(pkt: Packet)
      requires Valid()
      modifies tx, tx.tx_buf
      ensures Valid() && tx.view.taken == old(tx.view.taken)
      ensures var r := Routed(me, rt[..], pkt);
              if r.Relay? && old(tx.view.free) != [] then
                && tx.Queue() == StableInsert(old(tx.Queue()), Item(pkt.prio, r.pkt))
                && tx.view.free == old(tx.view.free)[1..]
              else
                tx.view == old(tx.view)
    {
      var ttl := Int8(pkt.ttl - 1);
      if ttl == 0 {
        return;
      }
      var hop := RouteAddr(rt, pkt.dest);
      var ok := tx.InsertTxAq(pkt.(ttl := ttl, prevHop := me, nextHop := hop), pkt.prio);
    }

    /** process_nw_ctrl_pkt() for a control packet addressed to this node or to all. */
    method ProcessControl(pkt: Packet)
      requires Valid() && !pkt.payload.App? && !pkt.payload.Unknown?
      requires pkt.payload.RouteConfig? ==> |pkt.payload.table| == rt.Length
      modifies this`learned, rt, tx, tx.tx_buf
      ensures Valid() && tx.view.taken == old(tx.view.taken)
      ensures var r := old(ReactToControl(me, rt[..], pkt));
              && learned == (if r.Learn? then old(learned) + 1 else old(learned))
              && rt[..] == (if r.Install? then r.table else old(rt[..]))
              && (if r.Relay? && old(tx.view.free) != [] then
                    && tx.Queue() == StableInsert(old(tx.Queue()), Item(pkt.prio, r.pkt))
                    && tx.view.free == old(tx.view.free)[1..]
                  else
                    tx.view == old(tx.view))
    {
      hide TransmitBufferManager.Valid, Lookup;
      match pkt.payload {
        case Hello => learned := learned + 1;
        case NgbList =>
          if pkt.src != me {
            RoutePacket(pkt);
          }
        case RouteConfig(node, table) =>
          if node == me {
            SetRoutingTable(table);
          } else {
            RoutePacket(pkt);
          }
      }
    }

    /** One iteration of nl_rx_task() for a received packet. */
    method ReceivePacket(pkt: Packet)
      requires Valid()
      requires pkt.payload.RouteConfig? ==> |pkt.payload.table| == rt.Length
      modifies this`delivered, this`learned, this`corrupted, rt, tx, tx.tx_buf
      ensures Valid() && tx.view.taken == old(tx.view.taken)
      ensures var r := old(React(me, rt[..], pkt));
              && delivered == (if r.Deliver? then old(delivered) + [pkt] else old(delivered))
              && learned == (if r.Learn? then old(learned) + 1 else old(learned))
              && corrupted == (old(corrupted) || r.Corrupted?)
              && rt[..] == (if r.Install? then r.table else old(rt[..]))
              && (if r.Relay? && old(tx.view.free) != [] then
                    && tx.Queue() == StableInsert(old(tx.Queue()), Item(pkt.prio, r.pkt))
                    && tx.view.free == old(tx.view.free)[1..]
                  else
                    tx.view == old(tx.view))
      ensures rt[..] != old(rt[..]) ==> ForMe(me, pkt) && pkt.payload == RouteConfig(me, rt[..])
      ensures ForMe(me, pkt) && pkt.payload.RouteConfig? && pkt.payload.node == me ==> rt[..] == pkt.payload.table
      ensures ForMe(me, pkt) && pkt.payload.App? ==> delivered == old(delivered) + [pkt] && tx.view == old(tx.view)
      ensures ForMe(me, pkt) && pkt.payload.Hello? ==> learned == old(learned) + 1 && tx.view == old(tx.view)
    {
      hide TransmitBufferManager.Valid, Lookup;
      if pkt.payload.Unknown? {
        return;
      }
      if pkt.dest == me || pkt.dest == BCAST_ADDR {
        if pkt.payload.App? {
          delivered := delivered + [pkt];
        } else {
          ProcessControl(pkt);
        }
      } else if pkt.nextHop == me {
        if pkt.src == me {
          corrupted := true;
        } else {
          RoutePacket(pkt);
        }
      } else if pkt.nextHop == BCAST_ADDR {
        RoutePacket(pkt);
      }
    }

    /** The dequeue and release of nl_tx_task(): the head packet is copied out for the radio and its
      * buffer returned, so the free queue is one longer. */
    method TransmitNext() returns (sent: seq<Packet>)
      requires Valid() && tx.view.taken == {}
      modifies tx, tx.tx_buf
      ensures Valid() && tx.view.taken == {}
      ensures sent == [] <==> old(tx.Queue()) == []
      ensures sent == [] ==> tx.view == old(tx.view)
      ensures sent != [] ==>
                && |sent| == 1 && sent[0] == old(tx.Queue())[0].data
                && tx.Queue() == old(tx.Queue())[1..]
                && |tx.view.free| == |old(tx.view.free)| + 1
    {
      var buf := tx.RemoveTxAq();
      if buf == NIL {
        return [];
      }
      sent := [tx.tx_buf[buf].data];
      tx.InsertTxFq(buf);
      assert tx.view.taken == {};
    }
  }
}
