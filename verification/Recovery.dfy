/** Retransmission at work: from every reachable state, with everything in flight lost, one check of the
    timers and one exchange per resent packet bring all submitted data to the peer. */
module Recovery {
  import opened Basics
  import opened Timers
  import opened Sender
  import opened Resequencer
  import opened Protocol
  import Flow

  /** The channel loses all it holds, in both directions. */
  function LoseAll(f: Flow.Flow): Flow.Flow {
    f.(datas := {}, acks := {})
  }

  /** A packet on the channel arrives, and the acknowledgement this puts on the channel comes back. */
  function Exchange(f: Flow.Flow, s: Segment): (g: Flow.Flow)
    requires f.tx.Valid() && f.rx.Valid() && s in f.datas
    ensures g.tx.Valid() && g.rx.Valid() && g.datas == f.datas
  {
    var g := Flow.DataArrives(f, s);
    assert s.num in g.acks;
    Flow.AckArrives(g, s.num)
  }

  function ExchangeAll(f: Flow.Flow, segs: seq<Segment>): (g: Flow.Flow)
    requires f.tx.Valid() && f.rx.Valid() && forall i :: 0 <= i < |segs| ==> segs[i] in f.datas
    ensures g.tx.Valid() && g.rx.Valid()
    decreases |segs|
  {
    if segs == [] then f else ExchangeAll(Exchange(f, segs[0]), segs[1..])
  }

  /** Everything in flight is lost; the timers are checked; each packet this puts on the channel arrives. */
  function Recovered(f: Flow.Flow, now: nat): (g: Flow.Flow)
    requires f.tx.Valid() && f.rx.Valid()
  {
    var resent := Resent(f.tx, now);
    var g := Flow.Resend(LoseAll(f), now);
    assert forall i :: 0 <= i < |resent| ==> resent[i] in g.datas;
    ExchangeAll(g, resent)
  }

  predicate AllDue(active: seq<Armed>, now: nat) {
    forall i :: 0 <= i < |active| ==> active[i].timeout <= now
  }

  lemma LossKeeps(f: Flow.Flow)
    requires Flow.Inv(f, LAST)
    ensures Flow.Inv(LoseAll(f), LAST)
  {
    hide Refines;
    var g := LoseAll(f);
    assert Flow.NothingForgotten(f);
    forall num: nat | FIRST <= num <= g.tx.lastSent ensures num in g.got || Flow.InSlot(g.tx, num) {
      assert num in f.got || Flow.InSlot(f.tx, num);
    }
    assert Flow.ChannelInv(g);
    Flow.SameRecv(f, g);
  }

  lemma ExchangeKeeps(f: Flow.Flow, s: Segment)
    requires Flow.Inv(f, LAST) && s in f.datas
    ensures Flow.Inv(Exchange(f, s), LAST)
  {
    hide Flow.Inv, Safe, Flow.SafeAck;
    FlowValid(f);
    LifetimeData(f, s);
    Flow.DataKeeps(f, s, LAST);
    LifetimeAck(Flow.DataArrives(f, s), s.num);
    Flow.AckKeeps(Flow.DataArrives(f, s), s.num, LAST);
  }

  lemma FlowValid(f: Flow.Flow)
    requires Flow.Inv(f, LAST)
    ensures f.tx.Valid() && f.rx.Valid()
  {
  }

  /** Every packet still held is one of these. */
  ghost predicate HeldAmong(tx: Tx, segs: seq<Segment>)
    requires tx.Valid()
  {
    forall j :: 0 <= j < REDELIVERY_BUFFER_SIZE && tx.ring[j].Held? ==> Index(tx.ring[j].seg.num) == j && tx.ring[j].seg in segs
  }

  lemma ExchangeClears(f: Flow.Flow, segs: seq<Segment>)
    requires f.tx.Valid() && f.rx.Valid() && segs != [] && segs[0] in f.datas && HeldAmong(f.tx, segs)
    ensures HeldAmong(Exchange(f, segs[0]).tx, segs[1..])
    ensures Exchange(f, segs[0]).sent == f.sent
  {
    assert segs == [segs[0]] + segs[1..];
  }

  lemma {:induction false} ExchangeAllClears(f: Flow.Flow, segs: seq<Segment>)
    requires Flow.Inv(f, LAST) && HeldAmong(f.tx, segs) && forall i :: 0 <= i < |segs| ==> segs[i] in f.datas
    ensures Flow.Inv(ExchangeAll(f, segs), LAST) && Flow.RingEmpty(ExchangeAll(f, segs).tx)
    ensures ExchangeAll(f, segs).sent == f.sent
    decreases |segs|
  {
    hide Flow.Inv, Exchange;
    FlowValid(f);
    if segs != [] {
      ExchangeKeeps(f, segs[0]);
      ExchangeClears(f, segs);
      ExchangeAllClears(Exchange(f, segs[0]), segs[1..]);
    }
  }

  /** When all timers are due, a check puts every held packet on the channel. */
  lemma AllHeldResent(tx: Tx, now: nat)
    requires TimersMatchSlots(tx) && AllDue(tx.active, now)
    ensures HeldAmong(tx, Resent(tx, now))
  {
    forall j | 0 <= j < REDELIVERY_BUFFER_SIZE && tx.ring[j].Held?
      ensures Index(tx.ring[j].seg.num) == j && tx.ring[j].seg in Resent(tx, now)
    {
      var k := ListedAt(tx, j);
      ResentExactly(tx, now, tx.ring[j].seg);
      assert tx.active[k] in tx.active;
    }
  }

  lemma RecoveredFlow(f: Flow.Flow, now: nat)
    requires Flow.Inv(f, LAST) && AllDue(f.tx.active, now) && f.sent != []
    ensures f.tx.Valid() && f.rx.Valid()
    ensures var g := Recovered(f, now); Flow.RingEmpty(g.tx) && Flow.Complete(g) && g.sent == f.sent
  {
    hide Refines, Flow.Complete, Flow.RingEmpty, ExchangeAll, HeldAmong, Resent, TimersMatchSlots;
    LossKeeps(f);
    Flow.ResendKeeps(LoseAll(f), now, LAST);
    AllHeldResent(f.tx, now);
    var g := Flow.Resend(LoseAll(f), now);
    SameRingHeld(f.tx, g.tx, Resent(f.tx, now));
    ExchangeAllClears(g, Resent(f.tx, now));
    Flow.EmptyRingDeliversAll(Recovered(f, now), LAST);
  }

  lemma SameRingHeld(tx: Tx, tx': Tx, segs: seq<Segment>)
    requires tx.Valid() && tx'.Valid() && tx.ring == tx'.ring && HeldAmong(tx, segs)
    ensures HeldAmong(tx', segs)
  {
  }

  /** From every state of every run the stack recovers: whatever was lost, once all timers are due, a check
      and the packets it resends deliver all that was submitted from the baseline on. */
  lemma {:induction false} AlwaysRecovers(run: seq<Action>, from: Side, now: nat)
    requires WithinLifetime(After(run)) && Submitted(run, from) != []
    requires AllDue(Direction(After(run), from).tx.active, now)
    ensures var f := Direction(After(run), from);
      && f.tx.Valid() && f.rx.Valid()
      && Flow.RingEmpty(Recovered(f, now).tx) && Delivered(Recovered(f, now), Submitted(run, from))
  {
    hide After, Submitted, Flow.Inv, Recovered;
    SentIsSubmitted(run, from);
    LifetimeKeeps(run);
    RecoveredFlow(Direction(After(run), from), now);
  }
}
