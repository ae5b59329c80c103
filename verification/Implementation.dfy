/** Connections as the generated code keeps them implement the endpoints of the protocol: their wire
    histories are the protocol's channels, and each hook is one of its steps. */
module Implementation {
  import opened Basics
  import opened Timers
  import opened Sender
  import opened Resequencer
  import opened Connection
  import opened Protocol

  /** The data packets among all that was handed to the network. */
  function DatasOf(wire: seq<Packet>): set<Segment> {
    set p | p in wire && p.ack == 0 :: Segment(p.num, p.payload)
  }

  /** The numbers acknowledged by the others. */
  function AcksOf(wire: seq<Packet>): set<nat> {
    set p | p in wire && p.ack != 0 :: p.ack
  }

  lemma AppendData(wire: seq<Packet>, s: Segment)
    ensures DatasOf(wire + [Packet(0, s.num, s.payload)]) == DatasOf(wire) + {s}
    ensures AcksOf(wire + [Packet(0, s.num, s.payload)]) == AcksOf(wire)
  {
    var p := Packet(0, s.num, s.payload);
    assert forall q :: q in wire + [p] <==> q in wire || q == p;
    assert s == Segment(p.num, p.payload);
  }

  lemma AppendAck(wire: seq<Packet>, p: Packet)
    requires p.ack != 0
    ensures DatasOf(wire + [p]) == DatasOf(wire)
    ensures AcksOf(wire + [p]) == AcksOf(wire) + {p.ack}
  {
    assert forall q :: q in wire + [p] <==> q in wire || q == p;
  }

  lemma {:induction false} AppendDatas(wire: seq<Packet>, segs: seq<Segment>)
    ensures DatasOf(wire + DataPackets(segs)) == DatasOf(wire) + (set s | s in segs)
    ensures AcksOf(wire + DataPackets(segs)) == AcksOf(wire)
    decreases |segs|
  {
    if segs == [] {
      assert wire + DataPackets(segs) == wire;
    } else {
      var n := |segs| - 1;
      AppendDatas(wire, segs[..n]);
      AppendData(wire + DataPackets(segs[..n]), segs[n]);
      assert DataPackets(segs) == DataPackets(segs[..n]) + [DataPacket(segs[n])];
      assert wire + DataPackets(segs) == wire + DataPackets(segs[..n]) + [DataPacket(segs[n])];
      assert segs == segs[..n] + [segs[n]];
    }
  }

  /** c is endpoint a of n, and its history is the channel from a to b. */
  ghost predicate Stands(c: Conn, n: Net)
    reads c, c.timers, c.timers.pool, c.redeliveryBuffer, c.inorderBuffer
  {
    && c.SendingValid() && c.ReceivingValid() && n.Valid()
    && c.Sending() == n.a.tx && c.Receiving() == n.a.rx
    && DatasOf(c.wire) == n.ab.datas && AcksOf(c.wire) == n.ab.acks
  }

  /** The step changes nothing at the other end or on the channel from there. */
  lemma OtherEndStays(n: Net, e: Event)
    requires n.Valid()
    ensures StepA(n, e).b == n.b && StepA(n, e).ba == n.ba
  {
  }

  method Open() returns (c: Conn)
    ensures Stands(c, Init()) && fresh(c)
  {
    c := new Conn();
    assert DatasOf([]) == {} && AcksOf([]) == {};
  }

  method SendData(c: Conn, payload: Payload, now: nat, ghost n: Net)
    requires Stands(c, n) && c.timers.free != [] && c.lastSentSequence < U32_MAX
    modifies c`lastSentSequence, c`wire, c.redeliveryBuffer, c.timers, c.timers.pool
    ensures Stands(c, StepA(n, Event.Send(payload, now)))
  {
    hide Sender.Send, DatasOf, AcksOf;
    ghost var wire, seg := c.wire, NextSegment(n.a.tx, payload);
    c.HookSend(payload, now);
    AppendData(wire, seg);
  }

  method CheckClock(c: Conn, now: nat, ghost n: Net)
    requires Stands(c, n) && RearmsLater(n.a.tx.active)
    modifies c`wire, c.timers, c.timers.pool
    ensures Stands(c, StepA(n, Check(now)))
  {
    hide Tick, Resent, DatasOf, AcksOf;
    AppendDatas(c.wire, Resent(n.a.tx, now));
    c.CheckTimers(now);
  }

  /** A packet of the peer's history arrives. */
  method Receive(c: Conn, p: Packet, ghost n: Net) returns (proceed: bool)
    requires Stands(c, n) && SlotsBacked(n.a.tx) && p.num < U32_MAX
    requires if p.ack != 0 then p.ack in n.ba.acks else p.num != 0 && Segment(p.num, p.payload) in n.ba.datas
    modifies c`lastRecvSequence, c`maxOooSequence, c`inputQueue, c`wire
    modifies c.redeliveryBuffer, c.inorderBuffer, c.timers, c.timers.pool
    ensures Stands(c, StepA(n, if p.ack != 0 then Event.Ack(p.ack) else Data(Segment(p.num, p.payload))))
  {
    hide Ingress, Acknowledge, DatasOf, AcksOf, SlotsBacked;
    ghost var wire := c.wire;
    proceed := c.HookIngress(p);
    if p.ack == 0 {
      AppendAck(wire, c.wire[|c.wire| - 1]);
    }
  }

  /** Whatever is in the history of one connection may reach the other, and only that. */
  lemma HistoryIsChannel(wire: seq<Packet>, w: Wire, p: Packet)
    requires DatasOf(wire) == w.datas && AcksOf(wire) == w.acks && p in wire
    ensures if p.ack != 0 then p.ack in w.acks else Segment(p.num, p.payload) in w.datas
  {
  }

  /** The acknowledgement a connection emits for data number num clears exactly that number at the peer. */
  method AcknowledgeBack(c: Conn, d: Conn, s: Segment) returns (proceed: bool)
    requires c.SendingValid() && c.ReceivingValid() && SlotsBacked(c.Sending()) && 0 < s.num < U32_MAX
    requires d.SendingValid() && d.ReceivingValid() && SlotsBacked(d.Sending())
    requires c != d && c.timers != d.timers && c.timers.pool != d.timers.pool
    requires c.redeliveryBuffer != d.redeliveryBuffer && c.inorderBuffer != d.inorderBuffer
    modifies c`lastRecvSequence, c`maxOooSequence, c`inputQueue, c`wire
    modifies c.redeliveryBuffer, c.inorderBuffer, c.timers, c.timers.pool
    modifies d`lastRecvSequence, d`maxOooSequence, d`inputQueue, d`wire
    modifies d.redeliveryBuffer, d.inorderBuffer, d.timers, d.timers.pool
    ensures d.SendingValid() && d.ReceivingValid()
    ensures d.Sending() == Acknowledge(old(d.Sending()), s.num) && d.Receiving() == old(d.Receiving()) && d.wire == old(d.wire)
  {
    hide Ingress, Acknowledge, SlotsBacked;
    proceed := c.HookIngress(Packet(0, s.num, s.payload));
    var more := d.HookIngress(c.wire[|c.wire| - 1]);
  }
}
