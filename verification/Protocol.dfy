/** Two endpoints of a reliable, in-order connection over a channel that may lose,
    duplicate and reorder: what every run keeps. */
module Protocol {
  import opened Basics
  import opened Sender
  import opened Resequencer
  import Flow

  /** One connection: its sending side, its receiving side and their histories. */
  datatype Endpoint = Endpoint(tx: Tx, sent: seq<Payload>, rx: Rx, got: set<nat>, base: nat)

  /** Everything ever put on the channel in one direction. */
  datatype Wire = Wire(datas: set<Segment>, acks: set<nat>)

  datatype Net = Net(a: Endpoint, b: Endpoint, ab: Wire, ba: Wire) {
    predicate Valid() {
      a.tx.Valid() && b.tx.Valid() && a.rx.Valid() && b.rx.Valid()
    }

    function Swap(): Net {
      Net(b, a, ba, ab)
    }
  }

  function Init(): (n: Net)
    ensures n.Valid()
  {
    var e := Endpoint(Opened(), [], Established(), {}, 0);
    Net(e, e, Wire({}, {}), Wire({}, {}))
  }

  /** What can happen at an endpoint: the application sends, the clock is checked, or a
      packet arrives from the peer. */
  datatype Event = Send(payload: Payload, now: nat) | Check(now: nat) | Data(s: Segment) | Ack(num: nat)

  datatype Side = A | B

  datatype Action = Action(at: Side, event: Event)

  /** Only what was put on the channel can arrive, and a send needs a timer. */
  predicate Enabled(n: Net, e: Event) {
    match e
    case Send(_, _) => n.a.tx.free != []
    case Check(_) => true
    case Data(s) => s in n.ba.datas
    case Ack(num) => num in n.ba.acks
  }

  function AtA(n: Net, e: Event): (r: Net)
    requires n.Valid() && Enabled(n, e)
    ensures r.Valid()
  {
    match e
    case Send(payload, now) =>
      n.(a := n.a.(tx := Sender.Send(n.a.tx, payload, now), sent := n.a.sent + [payload]),
         ab := n.ab.(datas := n.ab.datas + {NextSegment(n.a.tx, payload)}))
    case Check(now) =>
      n.(a := n.a.(tx := Tick(n.a.tx, now)),
         ab := n.ab.(datas := n.ab.datas + (set d | d in Resent(n.a.tx, now))))
    case Data(s) =>
      n.(a := n.a.(rx := Ingress(n.a.rx, s), got := n.a.got + {s.num},
                   base := if n.a.rx.last == 0 then s.num else n.a.base),
         ab := n.ab.(acks := n.ab.acks + {s.num}))
    case Ack(num) =>
      n.(a := n.a.(tx := Acknowledge(n.a.tx, num)))
  }

  /** One step; an event that cannot happen changes nothing. */
  function StepA(n: Net, e: Event): (r: Net)
    requires n.Valid()
    ensures r.Valid()
  {
    if Enabled(n, e) then AtA(n, e) else n
  }

  function Step(n: Net, x: Action): (r: Net)
    requires n.Valid()
    ensures r.Valid()
  {
    if x.at.A? then StepA(n, x.event) else StepA(n.Swap(), x.event).Swap()
  }

  /** The state after a run. */
  function After(run: seq<Action>): (n: Net)
    ensures n.Valid()
  {
    if run == [] then Init() else Step(After(run[..|run| - 1]), run[|run| - 1])
  }

  /** The traffic from a to b, with its acknowledgements. */
  function FromA(n: Net): Flow.Flow {
    Flow.Flow(n.a.tx, n.a.sent, n.ab.datas, n.ba.acks, n.b.got, n.b.base, n.b.rx)
  }

  function FromB(n: Net): Flow.Flow {
    FromA(n.Swap())
  }

  ghost predicate Inv(n: Net, limit: nat) {
    Flow.Inv(FromA(n), limit) && Flow.Inv(FromB(n), limit)
  }

  // ---- Runs of any length whose arrivals stay in the window ----

  /** The event meets an empty slot, a matching slot, or the receive window. */
  predicate Guarded(n: Net, e: Event, limit: nat)
    requires n.Valid()
  {
    Enabled(n, e) ==>
      match e
      case Send(_, _) => Flow.SafeToSend(FromA(n), limit)
      case Check(_) => true
      case Data(s) => Safe(n.a.rx, s, limit)
      case Ack(num) => Flow.SafeAck(FromA(n), num)
  }

  predicate GuardedStep(n: Net, x: Action, limit: nat)
    requires n.Valid()
  {
    if x.at.A? then Guarded(n, x.event, limit) else Guarded(n.Swap(), x.event, limit)
  }

  predicate GuardedRun(run: seq<Action>, limit: nat) {
    run == [] || (GuardedRun(run[..|run| - 1], limit) && GuardedStep(After(run[..|run| - 1]), run[|run| - 1], limit))
  }

  /** An event at a is a step of one direction and leaves the other alone. */
  lemma StepAKeeps(n: Net, e: Event, limit: nat)
    requires n.Valid() && Inv(n, limit) && Guarded(n, e, limit)
    ensures Inv(StepA(n, e), limit)
  {
    if Enabled(n, e) {
      var r := StepA(n, e);
      match e {
        case Send(payload, now) =>
          Flow.SendKeeps(FromA(n), payload, now, limit);
          assert FromA(r) == Flow.SendData(FromA(n), payload, now) && FromB(r) == FromB(n);
        case Check(now) =>
          Flow.ResendKeeps(FromA(n), now, limit);
          assert FromA(r) == Flow.Resend(FromA(n), now) && FromB(r) == FromB(n);
        case Data(s) =>
          Flow.DataKeeps(FromB(n), s, limit);
          assert FromB(r) == Flow.DataArrives(FromB(n), s) && FromA(r) == FromA(n);
        case Ack(num) =>
          Flow.AckKeeps(FromA(n), num, limit);
          assert FromA(r) == Flow.AckArrives(FromA(n), num) && FromB(r) == FromB(n);
      }
    }
  }

  lemma StepKeeps(n: Net, x: Action, limit: nat)
    requires n.Valid() && Inv(n, limit) && GuardedStep(n, x, limit)
    ensures Inv(Step(n, x), limit)
  {
    if x.at.A? {
      StepAKeeps(n, x.event, limit);
    } else {
      StepAKeeps(n.Swap(), x.event, limit);
    }
  }

  lemma {:induction false} GuardedRunKeeps(run: seq<Action>, limit: nat)
    requires limit >= FIRST - 1 && GuardedRun(run, limit)
    ensures Inv(After(run), limit)
  {
    if run == [] {
      Flow.StartInv(limit);
    } else {
      GuardedRunKeeps(run[..|run| - 1], limit);
      StepKeeps(After(run[..|run| - 1]), run[|run| - 1], limit);
    }
  }

  // ---- Connections that use at most 32 sequence numbers ----

  predicate WithinLifetime(n: Net) {
    n.a.tx.lastSent <= LAST && n.b.tx.lastSent <= LAST
  }

  /** Thirty-two consecutive numbers never share a slot. */
  lemma SameSlotSameNumber(x: nat, y: nat)
    requires FIRST <= x <= LAST && FIRST <= y <= LAST && Index(x) == Index(y)
    ensures x == y
  {
  }

  lemma LifetimeSend(f: Flow.Flow)
    requires Flow.SenderInv(f, LAST) && f.tx.lastSent < LAST && f.tx.free != []
    ensures Flow.SafeToSend(f, LAST)
  {
  }

  lemma LifetimeAck(f: Flow.Flow, num: nat)
    requires Flow.Inv(f, LAST) && num in f.acks
    ensures Flow.SafeAck(f, num)
  {
    var slot := f.tx.ring[Index(num)];
    if slot.Held? {
      SameSlotSameNumber(slot.seg.num, num);
    }
  }

  lemma LifetimeData(f: Flow.Flow, s: Segment)
    requires Flow.Inv(f, LAST) && s in f.datas
    ensures Safe(f.rx, s, LAST)
  {
  }

  lemma LifetimeGuarded(n: Net, e: Event)
    requires n.Valid() && Inv(n, LAST) && WithinLifetime(StepA(n, e))
    ensures Guarded(n, e, LAST)
  {
    if Enabled(n, e) {
      match e {
        case Send(_, _) => LifetimeSend(FromA(n));
        case Check(_) =>
        case Data(s) => LifetimeData(FromB(n), s);
        case Ack(num) => LifetimeAck(FromA(n), num);
      }
    }
  }

  lemma StepNumbersGrow(n: Net, x: Action)
    requires n.Valid()
    ensures WithinLifetime(Step(n, x)) ==> WithinLifetime(n)
  {
  }

  /** Within the lifetime bound no guard is needed: any channel, any schedule. */
  lemma {:induction false} LifetimeKeeps(run: seq<Action>)
    requires WithinLifetime(After(run))
    ensures Inv(After(run), LAST)
  {
    if run == [] {
      Flow.StartInv(LAST);
    } else {
      var n, x := After(run[..|run| - 1]), run[|run| - 1];
      StepNumbersGrow(n, x);
      LifetimeKeeps(run[..|run| - 1]);
      if x.at.A? {
        LifetimeGuarded(n, x.event);
      } else {
        LifetimeGuarded(n.Swap(), x.event);
      }
      StepKeeps(n, x, LAST);
    }
  }

  // ---- The theorems ----

  /** The traffic one endpoint sends to the other. */
  function Direction(n: Net, from: Side): Flow.Flow {
    if from.A? then FromA(n) else FromB(n)
  }

  /** Within the lifetime bound a send always finds a timer. */
  lemma {:induction false} SendAlwaysPossible(run: seq<Action>, from: Side)
    requires WithinLifetime(After(run))
    ensures Direction(After(run), from).tx.free != []
  {
    LifetimeKeeps(run);
    TimersNeverRunOut(Direction(After(run), from).tx);
  }

  /** What the application at one side submits in a run, in order. */
  function Submitted(run: seq<Action>, from: Side): seq<Payload> {
    if run == [] then []
    else
      var before, x := Submitted(run[..|run| - 1], from), run[|run| - 1];
      if x.at == from && x.event.Send? then before + [x.event.payload] else before
  }

  /** A send that finds a timer is recorded; nothing else is. */
  lemma SentStep(n: Net, x: Action, from: Side)
    requires n.Valid() && Direction(n, x.at).tx.free != []
    ensures Direction(Step(n, x), from).sent ==
      Direction(n, from).sent + if x.at == from && x.event.Send? then [x.event.payload] else []
  {
  }

  /** Every submitted payload is sent, and nothing else. */
  lemma {:induction false} SentIsSubmitted(run: seq<Action>, from: Side)
    requires WithinLifetime(After(run))
    ensures Direction(After(run), from).sent == Submitted(run, from)
  {
    if run != [] {
      var before, x := run[..|run| - 1], run[|run| - 1];
      StepNumbersGrow(After(before), x);
      SentIsSubmitted(before, from);
      SendAlwaysPossible(before, x.at);
      SentStep(After(before), x, from);
    }
  }

  lemma {:induction false} WindowedSentIsSubmitted(run: seq<Action>, from: Side, limit: nat)
    requires limit >= FIRST - 1 && GuardedRun(run, limit)
    ensures Direction(After(run), from).sent == Submitted(run, from)
  {
    if run != [] {
      var before, x := run[..|run| - 1], run[|run| - 1];
      WindowedSentIsSubmitted(before, from, limit);
      GuardedRunKeeps(before, limit);
      TimersNeverRunOut(Direction(After(before), x.at).tx);
      SentStep(After(before), x, from);
    }
  }

  /** Nothing is forgotten: every payload submitted, by its number, is in its slot, with an armed timer that
      carries that packet, or has reached the peer's reliable layer. */
  lemma {:induction false} NothingIsForgotten(run: seq<Action>, from: Side, num: nat)
    requires WithinLifetime(After(run)) && FIRST <= num < FIRST + |Submitted(run, from)|
    ensures var f := Direction(After(run), from);
      && |f.sent| == |Submitted(run, from)| && f.sent[num - FIRST] == Submitted(run, from)[num - FIRST]
      && Flow.Kept(f, num)
  {
    SentIsSubmitted(run, from);
    LifetimeKeeps(run);
    Flow.EveryNumberKept(Direction(After(run), from), LAST, num);
  }

  /** The peer's application has been given exactly the non-empty payloads from its baseline on. */
  ghost predicate Delivered(f: Flow.Flow, submitted: seq<Payload>) {
    FIRST <= f.base < FIRST + |submitted| && f.rx.queue == NonEmpty(submitted[f.base - FIRST..])
  }

  /** End to end: when a redelivery ring is empty, the peer's application has been given exactly the
      non-empty payloads submitted from its baseline on, in order, once each. */
  lemma {:induction false} EndToEnd(run: seq<Action>, from: Side)
    requires WithinLifetime(After(run))
    requires Flow.RingEmpty(Direction(After(run), from).tx) && Submitted(run, from) != []
    ensures Delivered(Direction(After(run), from), Submitted(run, from))
    ensures Flow.Complete(Direction(After(run), from))
  {
    SentIsSubmitted(run, from);
    LifetimeKeeps(run);
    Flow.EmptyRingDeliversAll(Direction(After(run), from), LAST);
  }

  lemma {:induction false} NonEmptyConcat(p: seq<Payload>, q: seq<Payload>)
    ensures NonEmpty(p + q) == NonEmpty(p) + NonEmpty(q)
    decreases |q|
  {
    if q == [] {
      assert p + q == p;
    } else {
      assert (p + q)[..|p + q| - 1] == p + q[..|q| - 1];
      NonEmptyConcat(p, q[..|q| - 1]);
    }
  }

  /** Everything sent arrives if and only if nothing but empty payloads precedes the baseline. */
  lemma CompleteExactly(f: Flow.Flow)
    requires Flow.Complete(f)
    ensures f.rx.queue == NonEmpty(f.sent) <==> NonEmpty(f.sent[..f.base - FIRST]) == []
  {
    var k := f.base - FIRST;
    assert f.sent == f.sent[..k] + f.sent[k..];
    NonEmptyConcat(f.sent[..k], f.sent[k..]);
    assert |NonEmpty(f.sent)| == |NonEmpty(f.sent[..k])| + |NonEmpty(f.sent[k..])|;
  }

  /** In every state, not only quiet ones, the peer has been given a gap-free stretch of what was submitted. */
  lemma {:induction false} AlwaysInOrder(run: seq<Action>, from: Side)
    requires WithinLifetime(After(run)) && Direction(After(run), from).rx.last != 0
    ensures var f := Direction(After(run), from);
      && FIRST <= f.base <= f.rx.last < FIRST + |Submitted(run, from)|
      && f.rx.queue == NonEmpty(Submitted(run, from)[f.base - FIRST..f.rx.last - FIRST + 1])
  {
    hide NonEmpty, After, Submitted, Flow.Inv;
    SentIsSubmitted(run, from);
    LifetimeKeeps(run);
    Flow.DeliversInOrder(Direction(After(run), from), LAST);
  }

  /** The same, for runs of any length whose arrivals stay in the window. */
  lemma {:induction false} WindowedEndToEnd(run: seq<Action>, from: Side, limit: nat)
    requires limit >= FIRST - 1 && GuardedRun(run, limit)
    requires Flow.RingEmpty(Direction(After(run), from).tx) && Submitted(run, from) != []
    ensures Delivered(Direction(After(run), from), Submitted(run, from))
  {
    WindowedSentIsSubmitted(run, from, limit);
    GuardedRunKeeps(run, limit);
    Flow.EmptyRingDeliversAll(Direction(After(run), from), limit);
  }
}
