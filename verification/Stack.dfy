/** The stack from the wire to a connection's state: header fields read from the bytes decide where a
    packet goes, and the connection's hooks see exactly the packet that was sent. */
module Stack {
  import opened Basics
  import opened Bits
  import opened Layout
  import opened Checksum
  import opened Path
  import opened Sender
  import opened Resequencer
  import opened Connection
  import opened ConnectionTable
  import Accepting
  import Codec

  // ---- Bytes ----

  function BitsOf(p: Payload): (w: Word)
    ensures |w| == 8 * |p|
  {
    if p == [] then [] else ToBits(p[0], 8) + BitsOf(p[1..])
  }

  lemma ByteBound(w: Word)
    requires |w| == 8
    ensures Val(w) < 256
  {
    PowAdd(4, 4);
    ValBound(w);
  }

  function BytesOf(w: Word): (p: Payload)
    ensures |p| == |w| / 8
  {
    if |w| < 8 then [] else
      ByteBound(w[..8]);
      [Val(w[..8])] + BytesOf(w[8..])
  }

  /** Byte i of the payload lies at bits 8i to 8i + 7. */
  lemma {:induction false} BitsOfAt(p: Payload, i: nat)
    requires i < |p|
    ensures BitsOf(p)[8 * i..8 * i + 8] == ToBits(p[i], 8)
  {
    if i > 0 {
      BitsOfAt(p[1..], i - 1);
      assert BitsOf(p)[8 * i..8 * i + 8] == BitsOf(p[1..])[8 * (i - 1)..8 * (i - 1) + 8];
    }
  }

  lemma {:induction false} BytesBack(p: Payload)
    ensures BytesOf(BitsOf(p)) == p
  {
    if p != [] {
      PowAdd(4, 4);
      ValOfBits(p[0], 8);
      assert BitsOf(p)[..8] == ToBits(p[0], 8) && BitsOf(p)[8..] == BitsOf(p[1..]);
      BytesBack(p[1..]);
    }
  }

  lemma {:induction false} BitsBack(w: Word)
    requires |w| % 8 == 0
    ensures BitsOf(BytesOf(w)) == w
  {
    if w != [] {
      ByteBound(w[..8]);
      BitsOfVal(w[..8]);
      BitsBack(w[8..]);
      assert BytesOf(w)[1..] == BytesOf(w[8..]);
    }
  }

  // ---- Header fields ----

  /** What the identifier, inorder and reliable modules write and read. */
  datatype Fields = Fields(dstHost: nat, srcHost: nat, dstApp: nat, srcApp: nat, num: nat, ack: nat) {
    function List(): (vs: seq<nat>)
      ensures |vs| == 6
    {
      [dstHost, srcHost, dstApp, srcApp, num, ack]
    }
  }

  /** Types of all members, the flow identifier, and the members of Fields in the same order. */
  datatype Header = Header(types: seq<Codec.Integer>, flow: nat, members: seq<nat>)

  predicate IsHeader(h: Header, f: Format, i: nat) {
    && i < |f.ms| - 1 && i < |h.types| && i != f.total && i != f.computed && i != f.checksum
    && h.types[i].Valid() && h.types[i].bits == f.ms[i].size
  }

  predicate Describes(h: Header, f: Format) {
    && f.Valid() && |h.members| == 6
    && IsHeader(h, f, h.flow) && End(f.ms, h.flow) <= f.WireStart()
    && (forall k :: 0 <= k < 6 ==> IsHeader(h, f, h.members[k]) && f.WireStart() <= Offset(f.ms, h.members[k]))
    && (forall j, k :: 0 <= j < k < 6 ==> h.members[j] != h.members[k])
  }

  /** The buffer is long enough for the word-wide reads. */
  predicate Readable(h: Header, f: Format, buf: Word)
    requires Describes(h, f)
  {
    forall k :: 0 <= k < 6 ==> Codec.Fits(buf, h.types[h.members[k]], Offset(f.ms, h.members[k]))
  }

  function Get(h: Header, f: Format, buf: Word, k: nat): nat
    requires Describes(h, f) && Readable(h, f, buf) && k < 6
  {
    Codec.GetInteger(buf, h.types[h.members[k]], Offset(f.ms, h.members[k]))
  }

  function Read(h: Header, f: Format, buf: Word): Fields
    requires Describes(h, f) && Readable(h, f, buf)
  {
    Fields(Get(h, f, buf, 0), Get(h, f, buf, 1), Get(h, f, buf, 2), Get(h, f, buf, 3), Get(h, f, buf, 4), Get(h, f, buf, 5))
  }

  predicate Fitting(h: Header, f: Format, v: Fields)
    requires Describes(h, f)
  {
    forall k :: 0 <= k < 6 ==> Codec.Holds(h.types[h.members[k]], Offset(f.ms, h.members[k]), v.List()[k])
  }

  /** The send hooks' writes. */
  function Writes(h: Header, f: Format, v: Fields): (ws: seq<Write>)
    requires Describes(h, f) && Fitting(h, f, v)
    ensures |ws| == 6 && HeaderWrites(f, ws)
  {
    seq(6, k requires 0 <= k < 6 => Write(h.members[k], Codec.Encoded(h.types[h.members[k]], v.List()[k])))
  }

  // ---- What arrives ----

  /** The packet a buffer with this wire length stands for. */
  function Decoded(h: Header, f: Format, buf: Word, len: nat): Packet
    requires Describes(h, f) && Readable(h, f, buf) && f.HeaderBytes() <= len && f.WireStart() + 8 * len <= |buf|
  {
    Packet(Read(h, f, buf).ack, Read(h, f, buf).num, BytesOf(PayloadIn(f, buf, len)))
  }

  /** What is put on the wire for these fields and this payload; `ws` are the other modules' writes. */
  function Encoded(h: Header, f: Format, buf: Word, v: Fields, payload: Payload, ws: seq<Write>): (out: Word)
    requires Describes(h, f) && Fitting(h, f, v) && Sendable(f, buf, BitsOf(payload)) && HeaderWrites(f, ws)
    ensures |out| == |buf|
  {
    Outgoing(f, buf, BitsOf(payload), ws + Writes(h, f, v))
  }

  lemma FieldArrives(h: Header, f: Format, buf: Word, v: Fields, payload: Payload, ws: seq<Write>, arrived: Word, k: nat)
    requires Describes(h, f) && Fitting(h, f, v) && Sendable(f, buf, BitsOf(payload)) && HeaderWrites(f, ws) && k < 6
    requires Arrived(f, arrived, Encoded(h, f, buf, v, payload, ws), LengthOf(f, BitsOf(payload))) && Readable(h, f, arrived)
    ensures Get(h, f, arrived, k) == v.List()[k]
  {
    hide Arrived, Outgoing, Sendable, Codec.GetInteger, Codec.Fits, Codec.Encoded, Codec.Holds;
    var all, i := ws + Writes(h, f, v), |ws| + k;
    assert all[i] == Writes(h, f, v)[k];
    forall j | i < j < |all| ensures all[j].i != all[i].i {
      assert all[j] == Writes(h, f, v)[j - |ws|];
    }
    HeaderArrives(f, buf, BitsOf(payload), all, arrived, i);
    Codec.ReadsBack(arrived, h.types[h.members[k]], Offset(f.ms, h.members[k]), v.List()[k]);
  }

  /** The receiver's hooks read the fields that the sender's hooks wrote. */
  lemma FieldsArrive(h: Header, f: Format, buf: Word, v: Fields, payload: Payload, ws: seq<Write>, arrived: Word)
    requires Describes(h, f) && Fitting(h, f, v) && Sendable(f, buf, BitsOf(payload)) && HeaderWrites(f, ws)
    requires Arrived(f, arrived, Encoded(h, f, buf, v, payload, ws), LengthOf(f, BitsOf(payload))) && Readable(h, f, arrived)
    ensures Read(h, f, arrived) == v
  {
    hide Arrived, Encoded, Sendable, Get, Fitting;
    forall k | 0 <= k < 6 ensures Get(h, f, arrived, k) == v.List()[k] {
      FieldArrives(h, f, buf, v, payload, ws, arrived, k);
    }
  }

  lemma SamePayload(f: Format, payload: Payload)
    requires f.Valid()
    ensures BytesOf(Survivor(f, BitsOf(payload))) == payload <==> Untouched(f, BitsOf(payload))
  {
    hide Survivor, Untouched, BitsOf, BytesOf;
    BytesBack(payload);
    BitsBack(Survivor(f, BitsOf(payload)));
  }

  /** Encoding, carrying and decoding gives the packet back, whatever the buffers held, if and only if
      the checksum module leaves the payload alone. */
  lemma PacketArrives(h: Header, f: Format, buf: Word, v: Fields, payload: Payload, ws: seq<Write>, arrived: Word)
    requires Describes(h, f) && Fitting(h, f, v) && Sendable(f, buf, BitsOf(payload)) && HeaderWrites(f, ws)
    requires Arrived(f, arrived, Encoded(h, f, buf, v, payload, ws), LengthOf(f, BitsOf(payload))) && Readable(h, f, arrived)
    ensures Decoded(h, f, arrived, LengthOf(f, BitsOf(payload))) == Packet(v.ack, v.num, payload) <==>
      Untouched(f, BitsOf(payload))
  {
    hide Outgoing, Loaded, Survivor, Untouched, Read, PayloadIn, Fitting, BytesOf, BitsOf, Codec.Fits, Codec.Holds, Offset, ToBits;
    FieldsArrive(h, f, buf, v, payload, ws, arrived);
    OutgoingLoaded(f, buf, BitsOf(payload), ws + Writes(h, f, v));
    ArrivedPayload(f, arrived, Encoded(h, f, buf, v, payload, ws), Survivor(f, BitsOf(payload)));
    SamePayload(f, payload);
  }

  // ---- The ingress path of a process ----

  /** The buffer after the network and checksum modules. */
  function Checked(f: Format, buf: Word): (r: Word)
    requires Receivable(f, buf)
    ensures |r| == |buf|
  {
    Padded(f, NetworkHook(f, buf), f.Span(TotalLen(f, buf)))
  }

  /** The header is not touched by the network and checksum modules. */
  lemma HeaderStays(h: Header, f: Format, buf: Word, k: nat)
    requires Describes(h, f) && Receivable(f, buf) && Readable(h, f, buf) && k < 6
    ensures var checked := Checked(f, buf);
      Readable(h, f, checked) && Get(h, f, checked, k) == Get(h, f, buf, k)
  {
    hide Codec.GetInteger, Codec.Holds, Receivable, SetLength, Padded, Passes;
    ReceivableParts(f, buf);
    var i, len := h.members[k], TotalLen(f, buf);
    var got, s, e := NetworkHook(f, buf), Offset(f.ms, i), End(f.ms, i);
    OffsetsOrdered(f.ms, i, |f.ms| - 1);
    NetworkHookKeepsWire(f, buf, len);
    SameWire(f, got, buf, len, s, e);
    PadOutside(f, got, f.Span(len), s, e);
    SameField(buf, Checked(f, buf), h.types[i], s);
  }

  lemma HeadersStay(h: Header, f: Format, buf: Word)
    requires Describes(h, f) && Receivable(f, buf) && Readable(h, f, buf)
    ensures Readable(h, f, Checked(f, buf)) && Read(h, f, Checked(f, buf)) == Read(h, f, buf)
  {
    hide Get, Receivable, Readable, Checked;
    HeaderStays(h, f, buf, 0);
    HeaderStays(h, f, buf, 1);
    HeaderStays(h, f, buf, 2);
    HeaderStays(h, f, buf, 3);
    HeaderStays(h, f, buf, 4);
    HeaderStays(h, f, buf, 5);
  }

  function FrameOf(v: Fields, body: nat): Accepting.Frame {
    Accepting.Frame(v.dstHost, v.dstApp, v.srcApp, v.srcHost, body)
  }

  /** The packet passes the checksum module. */
  predicate Sound(f: Format, buf: Word)
    requires Receivable(f, buf)
  {
    ReceivableParts(f, buf);
    SameHolds(f, buf, NetworkHook(f, buf));
    Passes(f, NetworkHook(f, buf), f.Span(TotalLen(f, buf)))
  }

  /** The identifier module's note of the connection. */
  function FlowMark(h: Header, f: Format, me: nat): (ws: seq<Write>)
    requires Describes(h, f) && me < Codec.TWO_64
    ensures MarkWrites(f, ws)
  {
    [Write(h.flow, Codec.Encoded(h.types[h.flow], me))]
  }

  /** A buffer the ingress path can work on: the announced length and the header lie in it, and the
      sequence number is below the wrap-around. */
  predicate Deliverable(h: Header, f: Format, buf: Word) {
    Describes(h, f) && Receivable(f, buf) && Readable(h, f, buf) && Read(h, f, buf).num < U32_MAX
  }

  lemma DeliverableParts(h: Header, f: Format, buf: Word)
    requires Deliverable(h, f, buf)
    ensures Describes(h, f) && Receivable(f, buf) && Readable(h, f, buf) && Read(h, f, buf).num < U32_MAX
  {
  }

  /** The packet a received buffer stands for. */
  function PacketIn(h: Header, f: Format, buf: Word): Packet
    requires Deliverable(h, f, buf)
  {
    ReceivableParts(f, buf);
    Decoded(h, f, buf, TotalLen(f, buf))
  }

  /** The buffer once the identifier module has marked it and, if it was accepted, the inorder module has
      taken the length once more. */
  function Noted(h: Header, f: Format, buf: Word, me: nat, proceed: bool): Word
    requires Deliverable(h, f, buf) && me < Codec.TWO_64
  {
    ReceivableParts(f, buf);
    if proceed then Sequenced(f, buf, FlowMark(h, f, me)) else SetHeaders(f, buf, FlowMark(h, f, me))
  }

  /** Marking the flow and taking the length once more leave the payload where it is. */
  lemma MarkedPayload(h: Header, f: Format, buf: Word, me: nat)
    requires Deliverable(h, f, buf) && me < Codec.TWO_64
    ensures var marked := Noted(h, f, buf, me, false);
      && Receivable(f, marked) && TotalLen(f, marked) == TotalLen(f, buf)
      && PacketIn(h, f, buf) ==
        Packet(Read(h, f, buf).ack, Read(h, f, buf).num, BytesOf(PayloadIn(f, marked, TotalLen(f, marked))))
  {
    hide Codec.GetInteger, Codec.Holds, Codec.Fits, SetHeaders, Receivable, FlowMark;
    DeliverableParts(h, f, buf);
    ReceivableParts(f, buf);
    MarksKeepLength(f, buf, FlowMark(h, f, me));
    HeadersKeep(f, buf, FlowMark(h, f, me), f.PayloadStart(), f.WireStart() + 8 * TotalLen(f, buf));
  }

  /** A checked buffer is as deliverable as it was, with the same header. */
  lemma CheckedDeliverable(h: Header, f: Format, buf: Word)
    requires Deliverable(h, f, buf)
    ensures Deliverable(h, f, Checked(f, buf)) && Read(h, f, Checked(f, buf)) == Read(h, f, buf)
  {
    hide Codec.GetInteger, Codec.Holds, Codec.Fits, Receivable, Read, Readable;
    DeliverableParts(h, f, buf);
    HeadersStay(h, f, buf);
    ChecksumKeepsLength(f, buf);
  }

  // ---- The connection ----

  /** The two halves of a connection and what it has sent. */
  datatype Side = Side(tx: Tx, rx: Rx, wire: seq<Packet>) {
    predicate Valid() {
      tx.Valid() && rx.Valid()
    }
  }

  ghost function View(c: Conn): (v: Side)
    requires c.SendingValid() && c.ReceivingValid()
    reads c, c.timers, c.timers.pool, c.redeliveryBuffer, c.inorderBuffer
    ensures v.Valid()
  {
    Side(c.Sending(), c.Receiving(), c.wire)
  }

  /** What the reliable and inorder modules do with a packet. */
  ghost predicate Took(now: Side, before: Side, p: Packet, proceed: bool)
    requires before.Valid()
  {
    if p.ack != 0 then
      now == before.(tx := Acknowledge(before.tx, p.ack)) && !proceed
    else
      && now == Side(before.tx, Ingress(before.rx, Segment(p.num, p.payload)), before.wire + [AckPacket(p.num)])
      && (proceed <==> Accepts(before.rx, Segment(p.num, p.payload)))
  }

  ghost predicate Ready(c: Conn)
    reads c, c.timers, c.timers.pool, c.redeliveryBuffer, c.inorderBuffer
  {
    c.SendingValid() && c.ReceivingValid() && SlotsBacked(c.Sending())
  }

  /** The reliable and inorder modules on a packet. */
  method Take(p: Packet, conn: Conn) returns (proceed: bool)
    requires Ready(conn) && p.num < U32_MAX
    modifies conn`lastRecvSequence, conn`maxOooSequence, conn`inputQueue, conn`wire
    modifies conn.redeliveryBuffer, conn.inorderBuffer, conn.timers, conn.timers.pool
    ensures conn.SendingValid() && conn.ReceivingValid() && Took(View(conn), old(View(conn)), p, proceed)
  {
    hide SlotsBacked, Ingress, Acknowledge;
    proceed := conn.HookIngress(p);
  }

  /** A checked packet for connection `me`: mark it, hand it to the reliable and inorder modules, and take
      the length from the wire again when they accept it. */
  method Deliver(h: Header, f: Format, buf: array<bool>, me: nat, conn: Conn) returns (proceed: bool)
    requires Deliverable(h, f, buf[..]) && me < Codec.TWO_64 && Ready(conn)
    modifies buf, conn`lastRecvSequence, conn`maxOooSequence, conn`inputQueue, conn`wire
    modifies conn.redeliveryBuffer, conn.inorderBuffer, conn.timers, conn.timers.pool
    ensures conn.SendingValid() && conn.ReceivingValid()
    ensures Took(View(conn), old(View(conn)), PacketIn(h, f, old(buf[..])), proceed)
    ensures buf[..] == Noted(h, f, old(buf[..]), me, proceed)
  {
    hide Codec.GetInteger, Codec.Holds, Codec.Fits, SetHeaders, PayloadIn, BytesOf, FlowMark, Took, Ready;
    hide Receivable, Readable, Read, Deliverable, PacketIn;
    DeliverableParts(h, f, buf[..]);
    ReceivableParts(f, buf[..]);
    var v := Read(h, f, buf[..]);
    MarkedPayload(h, f, buf[..], me);
    WriteHeaders(f, buf, FlowMark(h, f, me));
    ReceivableParts(f, buf[..]);
    proceed := Take(Packet(v.ack, v.num, BytesOf(PayloadIn(f, buf[..], TotalLen(f, buf[..])))), conn);
    if proceed {
      HookIngressNetwork(f, buf);
    }
  }

  /** What demultiplexing makes of a packet; nothing if the checksum module drops it. */
  ghost function Verdict(h: Header, f: Format, buf: Word, es: seq<Entry>, myHost: nat, body: nat): Option<Accepting.Routed>
    requires Deliverable(h, f, buf)
  {
    if Sound(f, buf) then Some(Accepting.Route(es, myHost, FrameOf(Read(h, f, buf), body))) else None
  }

  /** What a packet adds to the listener's queue. */
  ghost function Queueing(route: Option<Accepting.Routed>, listener: nat, v: Fields, body: nat): seq<Accepting.Queued> {
    if route == Some(Accepting.Queue(listener)) then [Accepting.Queued(v.srcApp, v.srcHost, Some(FrameOf(v, body)))] else []
  }

  /** The network, checksum and identifier modules. */
  method Demultiplex(h: Header, f: Format, buf: array<bool>, body: nat, node: Accepting.Node)
    returns (route: Option<Accepting.Routed>)
    requires Deliverable(h, f, buf[..]) && node.Valid() && node.currentElems < Accepting.MAX_ACCEPT_QUEUE_ELEMS
    modifies buf, node`currentElems, node`delivered, node`notified, node.srcApps, node.srcHosts, node.packets
    ensures node.Valid() && node.Entries() == old(node.Entries())
    ensures route == Verdict(h, f, old(buf[..]), old(node.Entries()), node.myHost, body)
    ensures buf[..] == Checked(f, old(buf[..])) && Deliverable(h, f, buf[..])
    ensures node.AcceptQueue() == old(node.AcceptQueue()) + Queueing(route, node.listener, Read(h, f, old(buf[..])), body)
  {
    hide Codec.GetInteger, Codec.Holds, Codec.Fits, Padded, NetworkHook, Passes, Read, Readable, Receivable, Deliverable;
    DeliverableParts(h, f, buf[..]);
    ReceivableParts(f, buf[..]);
    CheckedDeliverable(h, f, buf[..]);
    DeliverableParts(h, f, Checked(f, buf[..]));
    var sound := CheckPacket(f, buf);
    if !sound {
      return None;
    }
    var r := node.Ingress(FrameOf(Read(h, f, buf[..]), body));
    route := Some(r);
  }

  /** The whole ingress path of a process in which connection `me` is the one followed: checksum,
      demultiplexing by the bytes of the header, reliable and inorder modules. */
  method Receive(h: Header, f: Format, buf: array<bool>, body: nat, node: Accepting.Node, me: nat, conn: Conn)
    returns (route: Option<Accepting.Routed>, proceed: bool)
    requires Deliverable(h, f, buf[..]) && me < Codec.TWO_64 && Ready(conn)
    requires node.Valid() && node.currentElems < Accepting.MAX_ACCEPT_QUEUE_ELEMS
    modifies buf, conn`lastRecvSequence, conn`maxOooSequence, conn`inputQueue, conn`wire
    modifies conn.redeliveryBuffer, conn.inorderBuffer, conn.timers, conn.timers.pool
    modifies node`currentElems, node`delivered, node`notified, node.srcApps, node.srcHosts, node.packets
    ensures node.Valid() && conn.SendingValid() && conn.ReceivingValid() && node.Entries() == old(node.Entries())
    ensures route == Verdict(h, f, old(buf[..]), old(node.Entries()), node.myHost, body)
    ensures route == Some(Accepting.To(me)) ==>
      && Deliverable(h, f, Checked(f, old(buf[..])))
      && Took(View(conn), old(View(conn)), PacketIn(h, f, Checked(f, old(buf[..]))), proceed)
    ensures route != Some(Accepting.To(me)) ==> View(conn) == old(View(conn)) && !proceed
    ensures node.AcceptQueue() == old(node.AcceptQueue()) + Queueing(route, node.listener, Read(h, f, old(buf[..])), body)
  {
    hide Read, Readable, Receivable, Took, Deliverable, PacketIn, Checked, Verdict, Queueing, SlotsBacked, Describes;
    DeliverableParts(h, f, buf[..]);
    route := Demultiplex(h, f, buf, body, node);
    if route == Some(Accepting.To(me)) {
      proceed := Deliver(h, f, buf, me, conn);
    } else {
      proceed := false;
    }
  }

  // ---- From connection to connection ----

  lemma CheckedArrived(f: Format, arrived: Word, out: Word, payload: Word)
    requires Loaded(f, out, payload) && Arrived(f, arrived, out, LengthOf(f, payload)) && Untouched(f, payload)
    requires Receivable(f, arrived)
    ensures Arrived(f, Checked(f, arrived), out, LengthOf(f, payload)) && TotalLen(f, Checked(f, arrived)) == LengthOf(f, payload)
  {
    hide Arrived, Loaded, Untouched, Padded, NetworkHook, Codec.GetInteger, Codec.Fits, Codec.Holds;
    ArrivedNetwork(f, arrived, out, payload);
    ArrivedPadded(f, NetworkHook(f, arrived), out, payload);
    ArrivedLength(f, Checked(f, arrived), out, payload);
  }

  lemma SentIsSound(f: Format, buf: Word, payload: Word, ws: seq<Write>, arrived: Word)
    requires Sendable(f, buf, payload) && HeaderWrites(f, ws) && Receivable(f, arrived)
    requires Arrived(f, arrived, Outgoing(f, buf, payload, ws), LengthOf(f, payload))
    ensures Sound(f, arrived)
  {
    hide Arrived, Outgoing, Passes, NetworkHook, Codec.GetInteger, Codec.Fits, Codec.Holds, PayloadIn, Ingested, Survivor;
    ArrivedYields(f, buf, payload, ws, arrived, []);
  }

  /** A packet sent by a peer passes, is demultiplexed by the fields the peer wrote, and is handed to the
      connection's hooks as the peer's hooks made it. */
  lemma SentIsTaken(h: Header, f: Format, buf: Word, v: Fields, payload: Payload, ws: seq<Write>, arrived: Word)
    requires Describes(h, f) && Fitting(h, f, v) && Sendable(f, buf, BitsOf(payload)) && HeaderWrites(f, ws)
    requires Arrived(f, arrived, Encoded(h, f, buf, v, payload, ws), LengthOf(f, BitsOf(payload)))
    requires Deliverable(h, f, arrived) && Untouched(f, BitsOf(payload))
    ensures Sound(f, arrived) && Read(h, f, arrived) == v
    ensures Deliverable(h, f, Checked(f, arrived)) && PacketIn(h, f, Checked(f, arrived)) == Packet(v.ack, v.num, payload)
  {
    hide Arrived, Outgoing, Loaded, Survivor, Untouched, Read, Readable, Receivable, Sound, Checked, Fitting, Codec.Fits, Codec.Holds;
    hide PayloadIn, BytesOf, Decoded, BitsOf;
    var bits := BitsOf(payload);
    OutgoingLoaded(f, buf, bits, ws + Writes(h, f, v));
    SentIsSound(f, buf, bits, ws + Writes(h, f, v), arrived);
    FieldsArrive(h, f, buf, v, payload, ws, arrived);
    CheckedDeliverable(h, f, arrived);
    CheckedArrived(f, arrived, Encoded(h, f, buf, v, payload, ws), bits);
    PacketArrives(h, f, buf, v, payload, ws, Checked(f, arrived));
  }

  /** Where a packet sent by a peer goes, by the addresses the peer wrote: to the connection of its flow, else
      to a wildcard listener's queue, else the process aborts; another host's packet is dropped. */
  lemma {:induction false} SentIsRouted(h: Header, f: Format, buf: Word, v: Fields, payload: Payload, ws: seq<Write>,
                                        arrived: Word, es: seq<Entry>, myHost: nat, body: nat, c: nat)
    requires Describes(h, f) && Fitting(h, f, v) && Sendable(f, buf, BitsOf(payload)) && HeaderWrites(f, ws)
    requires Arrived(f, arrived, Encoded(h, f, buf, v, payload, ws), LengthOf(f, BitsOf(payload)))
    requires Deliverable(h, f, arrived) && Untouched(f, BitsOf(payload)) && DistinctKeys(es)
    ensures var r := Verdict(h, f, arrived, es, myHost, body);
      var flow, listener := Key(v.dstApp, v.srcApp, v.srcHost), Key(v.dstApp, 0, 0);
      && (r == Some(Accepting.Dropped) <==> v.dstHost != myHost)
      && (r == Some(Accepting.To(c)) <==> v.dstHost == myHost && Entry(flow, c) in es)
      && (r == Some(Accepting.Queue(c)) <==> v.dstHost == myHost && !Accepting.Live(es, flow) && Entry(listener, c) in es)
      && (r == Some(Accepting.Abort) <==> v.dstHost == myHost && !Accepting.Live(es, flow) && !Accepting.Live(es, listener))
  {
    hide Arrived, Sound, Read, Receivable, Readable, Accepting.Route, Deliverable, Encoded, Untouched, Fitting;
    DeliverableParts(h, f, arrived);
    SentIsTaken(h, f, buf, v, payload, ws, arrived);
    Accepting.RouteExactly(es, myHost, FrameOf(v, body), c);
  }

  /** End of the way: a packet that a peer addressed to this host and to connection `me` changes that
      connection as the protocol says for the packet the peer sent. */
  method ReceiveSent(h: Header, f: Format, buf: array<bool>, body: nat, node: Accepting.Node, me: nat, conn: Conn,
                     ghost start: Word, ghost v: Fields, ghost payload: Payload, ghost ws: seq<Write>)
    returns (proceed: bool)
    requires Describes(h, f) && Fitting(h, f, v) && Sendable(f, start, BitsOf(payload)) && HeaderWrites(f, ws)
    requires Arrived(f, buf[..], Encoded(h, f, start, v, payload, ws), LengthOf(f, BitsOf(payload)))
    requires Deliverable(h, f, buf[..]) && Untouched(f, BitsOf(payload)) && me < Codec.TWO_64 && Ready(conn)
    requires node.Valid() && node.currentElems < Accepting.MAX_ACCEPT_QUEUE_ELEMS && DistinctKeys(node.Entries())
    requires v.dstHost == node.myHost && Entry(Key(v.dstApp, v.srcApp, v.srcHost), me) in node.Entries()
    modifies buf, conn`lastRecvSequence, conn`maxOooSequence, conn`inputQueue, conn`wire
    modifies conn.redeliveryBuffer, conn.inorderBuffer, conn.timers, conn.timers.pool
    modifies node`currentElems, node`delivered, node`notified, node.srcApps, node.srcHosts, node.packets
    ensures conn.SendingValid() && conn.ReceivingValid() && node.Valid()
    ensures Took(View(conn), old(View(conn)), Packet(v.ack, v.num, payload), proceed)
    ensures node.AcceptQueue() == old(node.AcceptQueue())
  {
    hide Arrived, Sound, Read, Receivable, Readable, Deliverable, Encoded, Untouched, Fitting, Took, PacketIn, Checked, Verdict, Sendable, Describes;
    ghost var arrived := buf[..];
    SentIsTaken(h, f, start, v, payload, ws, arrived);
    SentIsRouted(h, f, start, v, payload, ws, arrived, node.Entries(), node.myHost, body, me);
    var route;
    route, proceed := Receive(h, f, buf, body, node, me, conn);
  }

  // ---- The flow identifier ----

  /** After the path the flow identifier names the connection. */
  lemma FlowIsMarked(h: Header, f: Format, buf: Word, me: nat, proceed: bool)
    requires Deliverable(h, f, buf) && me < Codec.TWO_64
    requires Codec.Fits(buf, h.types[h.flow], Offset(f.ms, h.flow)) && Codec.Holds(h.types[h.flow], Offset(f.ms, h.flow), me)
    ensures var r := Noted(h, f, buf, me, proceed);
      && Codec.Fits(r, h.types[h.flow], Offset(f.ms, h.flow))
      && Codec.GetInteger(r, h.types[h.flow], Offset(f.ms, h.flow)) == me
  {
    hide Codec.GetInteger, Codec.Replace, SetLength;
    DeliverableParts(h, f, buf);
    ReceivableParts(f, buf);
    var marked := SetHeaders(f, buf, FlowMark(h, f, me));
    SameHolds(f, buf, marked);
    HeaderWritten(f, buf, FlowMark(h, f, me), 0);
    Codec.ReadsBack(marked, h.types[h.flow], Offset(f.ms, h.flow), me);
    if proceed {
      LengthSparesFlow(h, f, marked);
      SameField(marked, NetworkHook(f, marked), h.types[h.flow], Offset(f.ms, h.flow));
    }
  }

  lemma LengthSparesFlow(h: Header, f: Format, buf: Word)
    requires Describes(h, f) && f.Holds(buf)
    ensures End(f.ms, h.flow) <= |buf|
    ensures Field(NetworkHook(f, buf), f.ms, h.flow) == Field(buf, f.ms, h.flow)
  {
    hide Codec.GetInteger, Codec.Replace, Codec.Fits;
    MemberInside(f.ms, h.flow);
    ReplaceIsUpdate(buf, f.ms, f.computed, h.flow, ToBits(TotalLen(f, buf), f.computedType.bits));
  }

  /** The whole send path of a connection: number, shelve, arm, and write the packet into the buffer. `to`
      holds the addresses. */
  method Transmit(h: Header, f: Format, buf: array<bool>, conn: Conn, to: Fields, payload: Payload, ws: seq<Write>, now: nat)
    requires conn.SendingValid() && conn.timers.free != [] && conn.lastSentSequence < U32_MAX
    requires Describes(h, f) && Sendable(f, buf[..], BitsOf(payload)) && HeaderWrites(f, ws)
    requires Fitting(h, f, to.(num := conn.lastSentSequence + 1, ack := 0))
    modifies buf, conn`lastSentSequence, conn`wire, conn.redeliveryBuffer, conn.timers, conn.timers.pool
    ensures conn.SendingValid() && conn.Sending() == Send(old(conn.Sending()), payload, now)
    ensures var seg := NextSegment(old(conn.Sending()), payload);
      && conn.wire == old(conn.wire) + [DataPacket(seg)]
      && buf[..] == Encoded(h, f, old(buf[..]), to.(num := seg.num, ack := 0), payload, ws)
  {
    hide Outgoing, Fitting, Sendable, BitsOf, Send, Describes;
    var v := to.(num := conn.lastSentSequence + 1, ack := 0);
    conn.HookSend(payload, now);
    var sent := RunSendPath(f, buf, BitsOf(payload), ws + Writes(h, f, v));
  }
}
