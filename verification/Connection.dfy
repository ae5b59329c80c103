/** A connection as the generated code keeps it: two rings updated in place, the sequence
    counters and the linked timer pool. Each hook is proved against the protocol's functions. */
module Connection {
  import opened Basics
  import opened Timers
  import opened Sender
  import opened Resequencer
  import TimerService
  import DropReceiver

  /** The header fields the sequencing modules look at; ack == 0 marks a data packet. */
  datatype Packet = Packet(ack: nat, num: nat, payload: Payload)

  function DataPacket(s: Segment): Packet {
    Packet(0, s.num, s.payload)
  }

  /** An ACK carries a one-byte payload and an unset sequence number. */
  function AckPacket(num: nat): Packet {
    Packet(num, 0, [0])
  }

  function DataPackets(segs: seq<Segment>): seq<Packet> {
    seq(|segs|, i requires 0 <= i < |segs| => DataPacket(segs[i]))
  }

  class Conn {
    const timers: TimerService.Service
    const redeliveryBuffer: array<Slot>
    const inorderBuffer: array<Option<Segment>>
    var lastSentSequence: nat
    var lastRecvSequence: nat
    var maxOooSequence: nat
    var inputQueue: seq<Payload>   // every payload inserted so far
    var wire: seq<Packet>          // every packet handed to nb__send_packet so far

    ghost predicate SendingValid()
      reads timers, timers.pool
    {
      timers.Valid() && redeliveryBuffer.Length == REDELIVERY_BUFFER_SIZE
    }

    ghost predicate ReceivingValid()
      reads this`lastRecvSequence, this`maxOooSequence
    {
      && inorderBuffer.Length == INORDER_BUFFER_SIZE
      && maxOooSequence < U32_MAX && lastRecvSequence < U32_MAX
    }

    ghost function Sending(): (tx: Tx)
      requires SendingValid()
      reads this`lastSentSequence, timers, timers.pool, redeliveryBuffer
      ensures tx.Valid()
    {
      Tx(lastSentSequence, redeliveryBuffer[..], timers.View(), timers.free)
    }

    ghost function Receiving(): (rx: Rx)
      requires ReceivingValid()
      reads this`lastRecvSequence, this`maxOooSequence, this`inputQueue, inorderBuffer
      ensures rx.Valid()
    {
      Rx(lastRecvSequence, maxOooSequence, inorderBuffer[..], inputQueue)
    }

    /** hook_establish of the inorder and reliable modules, over a fresh timer service. */
    constructor ()
      ensures SendingValid() && ReceivingValid() && fresh(timers) && fresh(timers.pool) && fresh(redeliveryBuffer) && fresh(inorderBuffer)
      ensures Sending() == Opened() && Receiving() == Established() && wire == []
    {
      timers := new TimerService.Service();
      redeliveryBuffer := new Slot[REDELIVERY_BUFFER_SIZE](_ => Empty);
      inorderBuffer := new Option<Segment>[INORDER_BUFFER_SIZE](_ => None);
      lastSentSequence := FIRST - 1;
      lastRecvSequence, maxOooSequence := 0, 0;
      inputQueue, wire := [], [];
    }

    /** hook_send of the inorder and reliable modules, then the network module. */
    method HookSend(payload: Payload, now: nat)
      requires SendingValid() && timers.free != [] && lastSentSequence < U32_MAX
      modifies this`lastSentSequence, this`wire, redeliveryBuffer, timers, timers.pool
      ensures SendingValid() && Sending() == Send(old(Sending()), payload, now)
      ensures wire == old(wire) + [DataPacket(NextSegment(old(Sending()), payload))]
      ensures wire[|wire| - 1] == Packet(0, old(lastSentSequence) + 1, payload)
    {
      var seg := Segment(lastSentSequence + 1, payload);
      lastSentSequence := lastSentSequence + 1;
      var index := seg.num % REDELIVERY_BUFFER_SIZE;
      var t := timers.Alloc();
      timers.Insert(t, now + REDELIVERY_TIMEOUT_MS, Some(REDELIVERY_TIMEOUT_MS), seg);
      redeliveryBuffer[index] := Held(seg, t);
      wire := wire + [DataPacket(seg)];
    }

    /** A held slot names a listed timer. */
    lemma HeldIsListed(index: nat)
      requires SendingValid() && SlotsBacked(Sending()) && index < REDELIVERY_BUFFER_SIZE && redeliveryBuffer[index].Held?
      ensures redeliveryBuffer[index].timer in timers.active
    {
      var slot := Sending().ring[index];
      assert ArmedFor(Sending().active, slot.timer, slot.seg);
      var y :| y in timers.View() && y.id == slot.timer && y.arg == slot.seg;
      var i :| 0 <= i < |timers.View()| && timers.View()[i] == y;
      assert timers.active[i] == y.id;
    }

    /** hook_ingress of the reliable module on an ACK. */
    method IngressAck(ack: nat)
      requires SendingValid() && SlotsBacked(Sending())
      modifies redeliveryBuffer, timers, timers.pool
      ensures SendingValid() && Sending() == Acknowledge(old(Sending()), ack)
    {
      var index := ack % REDELIVERY_BUFFER_SIZE;
      match redeliveryBuffer[index] {
        case Empty =>
        case Held(seg, t) =>
          HeldIsListed(index);
          timers.Remove(t);
          timers.Return(t);
          redeliveryBuffer[index] := Empty;
      }
    }

    /** The delivery loop of the inorder hook, from number first on. */
    method DrainFrom(first: nat)
      requires ReceivingValid()
      modifies this`lastRecvSequence, this`inputQueue, inorderBuffer
      ensures ReceivingValid() && Receiving() == Drain(old(Receiving()), first)
    {
      var i := first;
      while i <= maxOooSequence
        invariant ReceivingValid()
        invariant Drain(Receiving(), i) == Drain(old(Receiving()), first)
      {
        var index := i % INORDER_BUFFER_SIZE;
        ghost var rx := Receiving();
        if inorderBuffer[index].None? {
          break;
        }
        var p := inorderBuffer[index].value;
        if p.payload != [] {
          inputQueue := inputQueue + [p.payload];
        }
        lastRecvSequence := i;
        inorderBuffer[index] := None;
        assert Receiving() == Rx(i, rx.maxOoo, rx.ring[index := None], Enqueue(rx.queue, p.payload));
        i := i + 1;
      }
    }

    /** hook_ingress of the inorder module, hold_forever strategy. */
    method IngressInOrder(s: Segment) returns (proceed: bool)
      requires ReceivingValid() && s.num < U32_MAX
      modifies this`lastRecvSequence, this`maxOooSequence, this`inputQueue, inorderBuffer
      ensures ReceivingValid() && Receiving() == Ingress(old(Receiving()), s)
      ensures proceed <==> Accepts(old(Receiving()), s)
    {
      if lastRecvSequence == 0 || s.num == lastRecvSequence + 1 {
        if s.payload != [] {
          inputQueue := inputQueue + [s.payload];
        }
        lastRecvSequence := s.num;
        DrainFrom(s.num + 1);
        return true;
      } else {
        var index := s.num % INORDER_BUFFER_SIZE;
        inorderBuffer[index] := Some(s);
        if maxOooSequence < s.num {
          maxOooSequence := s.num;
        }
        return false;
      }
    }

    /** The ingress path from the reliable module on; false means the packet went no further. */
    method HookIngress(p: Packet) returns (proceed: bool)
      requires SendingValid() && ReceivingValid() && SlotsBacked(Sending()) && p.num < U32_MAX
      modifies this`lastRecvSequence, this`maxOooSequence, this`inputQueue, this`wire
      modifies redeliveryBuffer, inorderBuffer, timers, timers.pool
      ensures SendingValid() && ReceivingValid()
      ensures p.ack != 0 ==>
        && Sending() == Acknowledge(old(Sending()), p.ack) && Receiving() == old(Receiving())
        && wire == old(wire) && !proceed
      ensures p.ack == 0 ==>
        && Sending() == old(Sending()) && Receiving() == Ingress(old(Receiving()), Segment(p.num, p.payload))
        && wire == old(wire) + [AckPacket(p.num)] && wire[|wire| - 1] == Packet(p.num, 0, [0])
        && (proceed <==> Accepts(old(Receiving()), Segment(p.num, p.payload)))
    {
      if p.ack != 0 {
        IngressAck(p.ack);
        return false;
      }
      wire := wire + [AckPacket(p.num)];
      proceed := IngressInOrder(Segment(p.num, p.payload));
    }

    /** nb__check_timers with redelivery_cb as every timer's callback. */
    method CheckTimers(now: nat)
      requires SendingValid() && RearmsLater(Sending().active)
      modifies this`wire, timers, timers.pool
      ensures SendingValid() && Sending() == Tick(old(Sending()), now)
      ensures wire == old(wire) + DataPackets(Resent(old(Sending()), now))
      ensures old(wire) <= wire && |wire| <= |old(wire)| + |old(timers.View())|
      ensures forall i :: 0 <= i < |old(timers.View())| ==>
        var y := old(timers.View())[i];
        && (|old(wire)| + i < |wire| <==> y.timeout <= now)
        && (y.timeout <= now ==> wire[|old(wire)| + i] == Packet(0, y.arg.num, y.arg.payload))
    {
      ghost var tx := Sending();
      var fired := timers.Check(now);
      var resent := seq(|fired|, i requires 0 <= i < |fired| => fired[i].arg);
      assert resent == Resent(tx, now);
      wire := wire + DataPackets(resent);
    }

    /** hook_ingress of the inorder module, drop_out_of_order strategy. */
    method IngressDrop(s: Segment) returns (proceed: bool)
      modifies this`lastRecvSequence, this`inputQueue
      ensures DropReceiver.DropRx(lastRecvSequence, inputQueue) ==
        DropReceiver.Step(DropReceiver.DropRx(old(lastRecvSequence), old(inputQueue)), s)
      ensures proceed <==> old(lastRecvSequence) < s.num
    {
      if lastRecvSequence < s.num {
        lastRecvSequence := s.num;
        if s.payload != [] {
          inputQueue := inputQueue + [s.payload];
        }
        return true;
      }
      return false;
    }
  }
}
