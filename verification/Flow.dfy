/** One direction of a reliable connection: a sender, a receiver, and a channel that may
    lose, duplicate and reorder what it is given. */
module Flow {
  import opened Basics
  import opened Timers
  import opened Sender
  import opened Resequencer

  /** `datas` and `acks` hold everything ever put on the channel; any element may arrive any
      number of times, in any order, or never. `sent` is the history of sent payloads, `got`
      the numbers seen by the peer's reliable layer, `base` the number it accepted first. */
  datatype Flow = Flow(tx: Tx, sent: seq<Payload>, datas: set<Segment>, acks: set<nat>,
                       got: set<nat>, base: nat, rx: Rx)

  function Start(): Flow {
    Flow(Opened(), [], {}, {}, {}, 0, Established())
  }

  function SendData(f: Flow, payload: Payload, now: nat): Flow
    requires f.tx.Valid() && f.tx.free != []
  {
    f.(tx := Send(f.tx, payload, now), sent := f.sent + [payload], datas := f.datas + {NextSegment(f.tx, payload)})
  }

  function Resend(f: Flow, now: nat): Flow
    requires f.tx.Valid()
  {
    f.(tx := Tick(f.tx, now), datas := f.datas + (set d | d in Resent(f.tx, now)))
  }

  /** A data packet reaches the receiver: acknowledged first, then sequenced. */
  function DataArrives(f: Flow, s: Segment): Flow
    requires f.rx.Valid()
  {
    f.(got := f.got + {s.num}, acks := f.acks + {s.num},
       base := if f.rx.last == 0 then s.num else f.base, rx := Ingress(f.rx, s))
  }

  function AckArrives(f: Flow, num: nat): Flow
    requires f.tx.Valid()
  {
    f.(tx := Acknowledge(f.tx, num))
  }

  // ---- Invariant ----

  ghost predicate Genuine(sent: seq<Payload>, s: Segment) {
    FIRST <= s.num < FIRST + |sent| && s.payload == sent[s.num - FIRST]
  }

  ghost predicate InSlot(tx: Tx, num: nat)
    requires tx.Valid()
  {
    tx.ring[Index(num)].Held? && tx.ring[Index(num)].seg.num == num
  }

  /** Every sent number is still in its redelivery slot or has been received. */
  ghost predicate NothingForgotten(f: Flow)
    requires f.tx.Valid()
  {
    forall num: nat :: FIRST <= num <= f.tx.lastSent ==> num in f.got || InSlot(f.tx, num)
  }

  ghost predicate SenderInv(f: Flow, limit: nat) {
    && TimersMatchSlots(f.tx)
    && f.tx.lastSent == FIRST - 1 + |f.sent| <= limit
    && SlotsGenuine(f)
    && NothingForgotten(f)
  }

  ghost predicate ChannelInv(f: Flow) {
    && (forall d :: d in f.datas ==> Genuine(f.sent, d))
    && (forall q :: q in f.got ==> FIRST <= q < FIRST + |f.sent|)
    && f.acks <= f.got
  }

  /** The received packets from the baseline on, by number. */
  ghost function Recv(f: Flow): (log: map<nat, Payload>)
    requires ChannelInv(f)
    ensures forall q :: q in log <==> q in f.got && q >= f.base
    ensures forall q :: q in log ==> log[q] == f.sent[q - FIRST]
  {
    map q | q in f.got && q >= f.base :: f.sent[q - FIRST]
  }

  ghost predicate ReceiverInv(f: Flow, limit: nat)
    requires ChannelInv(f)
  {
    if f.rx.last == 0 then f.rx == Established() && f.got == {} && f.base == 0
    else f.base in f.got && Refines(f.rx, f.base, limit, Recv(f))
  }

  ghost predicate Inv(f: Flow, limit: nat) {
    SenderInv(f, limit) && ChannelInv(f) && f.rx.Valid() && ReceiverInv(f, limit)
  }

  // ---- The steps that keep it ----

  predicate SafeToSend(f: Flow, limit: nat) {
    && f.tx.Valid() && f.tx.free != []
    && f.tx.lastSent < limit && f.tx.ring[Index(f.tx.lastSent + 1)].Empty?
  }

  predicate SafeAck(f: Flow, num: nat) {
    f.tx.Valid() && (f.tx.ring[Index(num)].Held? ==> f.tx.ring[Index(num)].seg.num == num)
  }

  lemma StartInv(limit: nat)
    requires limit >= FIRST - 1
    ensures Inv(Start(), limit)
  {
    OpenedMatches();
  }

  lemma SameRecv(f: Flow, g: Flow)
    requires ChannelInv(f) && ChannelInv(g)
    requires forall q :: q in f.got && q >= f.base <==> q in g.got && q >= g.base
    requires forall q :: q in f.got && q >= f.base ==> f.sent[q - FIRST] == g.sent[q - FIRST]
    ensures Recv(f) == Recv(g)
  {
  }

  lemma SendForgetsNothing(f: Flow, payload: Payload, now: nat)
    requires f.tx.Valid() && f.tx.free != [] && f.tx.ring[Index(f.tx.lastSent + 1)].Empty?
    requires NothingForgotten(f)
    ensures NothingForgotten(SendData(f, payload, now))
  {
  }

  ghost predicate SlotsGenuine(f: Flow) {
    forall j :: 0 <= j < |f.tx.ring| && f.tx.ring[j].Held? ==> Genuine(f.sent, f.tx.ring[j].seg)
  }

  lemma SendKeepsSlotsGenuine(f: Flow, payload: Payload, now: nat)
    requires f.tx.Valid() && f.tx.free != [] && SlotsGenuine(f) && f.tx.lastSent == FIRST - 1 + |f.sent|
    ensures SlotsGenuine(SendData(f, payload, now))
    ensures Genuine(f.sent + [payload], NextSegment(f.tx, payload))
  {
  }

  lemma SendKeeps(f: Flow, payload: Payload, now: nat, limit: nat)
    requires Inv(f, limit) && SafeToSend(f, limit)
    ensures Inv(SendData(f, payload, now), limit)
  {
    hide Refines;
    SendMatches(f.tx, payload, now);
    SendForgetsNothing(f, payload, now);
    SendKeepsSlotsGenuine(f, payload, now);
    var g := SendData(f, payload, now);
    assert ChannelInv(g);
    SameRecv(f, g);
  }

  lemma ResentGenuine(f: Flow, now: nat)
    requires TimersMatchSlots(f.tx) && SlotsGenuine(f)
    ensures forall d :: d in Resent(f.tx, now) ==> Genuine(f.sent, d)
  {
    forall d | d in Resent(f.tx, now) ensures Genuine(f.sent, d) {
      var i :| 0 <= i < |Due(f.tx.active, now)| && Due(f.tx.active, now)[i].arg == d;
      assert f.tx.active[i] in f.tx.active;
    }
  }

  lemma ResendKeeps(f: Flow, now: nat, limit: nat)
    requires Inv(f, limit)
    ensures Inv(Resend(f, now), limit)
  {
    hide Refines, TimersMatchSlots, Genuine, Due, Checked;
    TickMatches(f.tx, now);
    ResentGenuine(f, now);
    var g := Resend(f, now);
    forall num: nat | FIRST <= num <= g.tx.lastSent ensures num in g.got || InSlot(g.tx, num) {
      assert num in f.got || InSlot(f.tx, num);
    }
    assert ChannelInv(g);
    SameRecv(f, g);
  }

  /** An ACK that matches its slot only clears a received packet. */
  lemma AckKeeps(f: Flow, num: nat, limit: nat)
    requires Inv(f, limit) && num in f.acks && SafeAck(f, num)
    ensures Inv(AckArrives(f, num), limit)
  {
    hide Refines;
    AcknowledgeMatches(f.tx, num);
    var g := AckArrives(f, num);
    forall n: nat | FIRST <= n <= g.tx.lastSent ensures n in g.got || InSlot(g.tx, n) {
      assert n in f.got || InSlot(f.tx, n);
    }
    assert ChannelInv(g);
    SameRecv(f, g);
  }

  lemma RecvFirst(f: Flow, s: Segment)
    requires ChannelInv(f) && Genuine(f.sent, s) && f.rx.Valid() && f.rx.last == 0 && f.got == {}
    ensures ChannelInv(DataArrives(f, s)) && Recv(DataArrives(f, s)) == map[s.num := s.payload]
  {
  }

  lemma RecvNext(f: Flow, s: Segment)
    requires ChannelInv(f) && Genuine(f.sent, s) && f.rx.Valid() && f.rx.last != 0 && f.base <= f.rx.last
    requires forall k :: f.base <= k <= f.rx.last ==> k in Recv(f)
    ensures ChannelInv(DataArrives(f, s)) && Recv(DataArrives(f, s)) == Logged(f.rx, Recv(f), s)
  {
  }

  lemma DataKeepsReceiver(f: Flow, s: Segment, limit: nat)
    requires Inv(f, limit) && s in f.datas && Safe(f.rx, s, limit)
    ensures ChannelInv(DataArrives(f, s)) && ReceiverInv(DataArrives(f, s), limit)
  {
    if f.rx.last == 0 {
      RecvFirst(f, s);
      FirstArrival(s, limit);
    } else {
      RecvNext(f, s);
      IngressRefines(f.rx, s, f.base, limit, Recv(f));
    }
  }

  lemma DataKeeps(f: Flow, s: Segment, limit: nat)
    requires Inv(f, limit) && s in f.datas && Safe(f.rx, s, limit)
    ensures Inv(DataArrives(f, s), limit)
  {
    DataKeepsReceiver(f, s, limit);
    var g := DataArrives(f, s);
    forall n: nat | FIRST <= n <= g.tx.lastSent ensures n in g.got || InSlot(g.tx, n) {
      assert n in f.got || InSlot(f.tx, n);
    }
  }

  // ---- What the invariant says about delivery ----

  lemma {:induction false} NonEmptySnoc(ps: seq<Payload>, p: Payload)
    ensures NonEmpty(ps + [p]) == Enqueue(NonEmpty(ps), p)
  {
  }

  lemma NothingNonEmpty()
    ensures NonEmpty([]) == []
  {
  }

  lemma DeliveryEnds(log: map<nat, Payload>, lo: nat, hi: nat)
    requires lo <= hi && forall k :: lo <= k <= hi ==> k in log
    ensures Delivery(log, lo, hi) == Enqueue(if lo == hi then [] else Delivery(log, lo, hi - 1), log[hi])
  {
  }

  /** The delivery of a log that agrees with the sent payloads from lo to hi. */
  lemma {:induction false} DeliveryOfSent(log: map<nat, Payload>, sent: seq<Payload>, lo: nat, hi: nat)
    requires FIRST <= lo <= hi < FIRST + |sent|
    requires forall k :: lo <= k <= hi ==> k in log && log[k] == sent[k - FIRST]
    ensures Delivery(log, lo, hi) == NonEmpty(sent[lo - FIRST..hi - FIRST + 1])
    decreases hi
  {
    hide NonEmpty, Delivery, Enqueue;
    var a, b := lo - FIRST, hi - FIRST;
    NonEmptySnoc(sent[a..b], sent[b]);
    assert sent[a..b] + [sent[b]] == sent[a..b + 1];
    DeliveryEnds(log, lo, hi);
    if lo < hi {
      DeliveryOfSent(log, sent, lo, hi - 1);
    } else {
      assert sent[a..b] == [];
      NothingNonEmpty();
    }
  }

  ghost predicate InOrder(f: Flow) {
    && FIRST <= f.base <= f.rx.last < FIRST + |f.sent|
    && f.rx.queue == NonEmpty(f.sent[f.base - FIRST..f.rx.last - FIRST + 1])
  }

  /** All non-empty payloads sent from the baseline on, in order, once each. */
  ghost predicate Complete(f: Flow) {
    && FIRST <= f.base < FIRST + |f.sent|
    && f.rx.queue == NonEmpty(f.sent[f.base - FIRST..])
  }

  /** At every moment the application has been given a gap-free stretch of what was sent,
      in order and once each, starting at the baseline. */
  lemma DeliversInOrder(f: Flow, limit: nat)
    requires Inv(f, limit) && f.rx.last != 0
    ensures InOrder(f)
  {
    hide NonEmpty, Delivery;
    assert f.base in Recv(f) && f.rx.last in Recv(f);
    DeliveryOfSent(Recv(f), f.sent, f.base, f.rx.last);
  }

  /** The number has been received, or its own packet waits in its slot with an armed timer
      that carries it. */
  ghost predicate Kept(f: Flow, num: nat)
    requires f.tx.Valid() && FIRST <= num < FIRST + |f.sent|
  {
    num in f.got ||
    (var slot := f.tx.ring[Index(num)];
     slot.Held? && slot.seg == Segment(num, f.sent[num - FIRST]) && ArmedFor(f.tx.active, slot.timer, slot.seg))
  }

  lemma EveryNumberKept(f: Flow, limit: nat, num: nat)
    requires SenderInv(f, limit) && FIRST <= num < FIRST + |f.sent|
    ensures Kept(f, num)
  {
  }

  predicate RingEmpty(tx: Tx) {
    forall j :: 0 <= j < |tx.ring| ==> tx.ring[j].Empty?
  }

  lemma EmptyRingReceived(f: Flow, limit: nat)
    requires Inv(f, limit) && RingEmpty(f.tx) && f.sent != []
    ensures forall num: nat :: FIRST <= num <= f.tx.lastSent ==> num in f.got
    ensures f.rx.last != 0 && f.rx.last + 1 !in f.got
  {
    hide NonEmpty, Delivery, Shelved, Accounted, TimersOwned, SlotsBacked, Partition, Sorted;
    assert NothingForgotten(f);
    assert FIRST in f.got;
  }

  /** Once the redelivery ring is empty, everything sent from the baseline on has been delivered. */
  lemma EmptyRingDeliversAll(f: Flow, limit: nat)
    requires Inv(f, limit) && RingEmpty(f.tx) && f.sent != []
    ensures Complete(f)
  {
    hide NonEmpty, Refines, TimersMatchSlots, RingEmpty;
    EmptyRingReceived(f, limit);
    DeliversInOrder(f, limit);
    assert f.rx.last == f.tx.lastSent;
    assert f.sent[f.base - FIRST..f.rx.last - FIRST + 1] == f.sent[f.base - FIRST..];
  }
}
