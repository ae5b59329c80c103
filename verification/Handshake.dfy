/** The signaling handshake between an active opener (endpoint a) and a connection accepted
    from a wildcard listener (endpoint b): which packet becomes b's baseline. */
module Handshake {
  import opened Basics
  import opened Timers
  import opened Sender
  import opened Resequencer
  import opened Protocol
  import Flow

  /** signaling_state of the opener. */
  datatype Signal = WaitingForSignal | Signaled | SignalHandled

  /** A packet of the flow as the listener queues it. */
  datatype Packet = DataPacket(s: Segment) | AckPacket(num: nat)

  /** The accepting process: before nb__accept packets pile up in the accept queue; inside
      nb__accept they are replayed one by one while nothing is polled; then it is live. */
  datatype Phase = Listening(queue: seq<Packet>) | Replaying(pending: seq<Packet>) | Live

  datatype State = State(net: Net, signal: Signal, established: bool, phase: Phase) {
    predicate Valid() {
      net.Valid()
    }
  }

  /** The zero-length packet nb__establish sends first. */
  const SIGNALING: Segment := Segment(FIRST, [])

  datatype Move =
    | OpenerSends(payload: Payload, now: nat)
    | OpenerChecks(now: nat)
    | OpenerReceives(p: Packet)
    | OpenerCycles
    | ListenerReceives(p: Packet)
    | Accepts(now: nat, order: seq<Packet>)
    | Replays
    | AcceptorSends(payload: Payload, now: nat)
    | AcceptorChecks(now: nat)

  function Arrival(p: Packet): Event {
    match p
    case DataPacket(s) => Data(s)
    case AckPacket(num) => Ack(num)
  }

  /** nb__establish on the opener: its signaling packet goes out. */
  function Opening(now: nat): (h: State)
    ensures h.Valid()
  {
    State(Step(Init(), Action(A, Event.Send([], now))), WaitingForSignal, false, Listening([]))
  }

  predicate OnWire(w: Wire, p: Packet) {
    match p
    case DataPacket(s) => s in w.datas
    case AckPacket(num) => num in w.acks
  }

  /** The signaling hook runs only on packets the inorder module lets through. */
  predicate Signals(h: State, p: Packet) {
    p.DataPacket? && OnWire(h.net.ba, p) && Resequencer.Accepts(h.net.a.rx, p.s)
  }

  predicate CanMove(h: State, m: Move) {
    match m
    case OpenerSends(_, _) => h.established
    case OpenerChecks(_) => true
    case OpenerReceives(_) => true
    case OpenerCycles => h.signal.Signaled?
    case ListenerReceives(p) => OnWire(h.net.ab, p) && !h.phase.Replaying?
    case Accepts(_, order) => h.phase.Listening? && h.phase.queue != [] && multiset(order) == multiset(h.phase.queue)
    case Replays => h.phase.Replaying? && h.phase.pending != []
    case AcceptorSends(_, _) => h.phase.Live?
    case AcceptorChecks(_) => h.phase.Live?
  }

  /** The step of the two endpoints behind a move, if there is one. */
  function Underlying(h: State, m: Move): Option<Action>
    requires CanMove(h, m)
  {
    match m
    case OpenerSends(payload, now) => Some(Action(A, Event.Send(payload, now)))
    case OpenerChecks(now) => Some(Action(A, Check(now)))
    case OpenerReceives(p) => Some(Action(A, Arrival(p)))
    case OpenerCycles => None
    case ListenerReceives(p) => if h.phase.Live? then Some(Action(B, Arrival(p))) else None
    case Accepts(now, _) => Some(Action(B, Event.Send([], now)))
    case Replays => Some(Action(B, Arrival(h.phase.pending[0])))
    case AcceptorSends(payload, now) => Some(Action(B, Event.Send(payload, now)))
    case AcceptorChecks(now) => Some(Action(B, Check(now)))
  }

  function NextPhase(h: State, m: Move): Phase
    requires CanMove(h, m)
  {
    match m
    case ListenerReceives(p) => if h.phase.Listening? then Listening(h.phase.queue + [p]) else h.phase
    case Accepts(_, order) => Replaying(order)
    case Replays => if |h.phase.pending| == 1 then Live else Replaying(h.phase.pending[1..])
    case _ => h.phase
  }

  function NextSignal(h: State, m: Move): Signal {
    match m
    case OpenerReceives(p) => if h.signal.WaitingForSignal? && Signals(h, p) then Signaled else h.signal
    case OpenerCycles => SignalHandled
    case _ => h.signal
  }

  function NextNet(n: Net, x: Option<Action>): (r: Net)
    requires n.Valid()
    ensures r.Valid()
  {
    if x.Some? then Step(n, x.value) else n
  }

  function MoveStep(h: State, m: Move): (r: State)
    requires h.Valid()
    ensures r.Valid()
  {
    if !CanMove(h, m) then h
    else State(NextNet(h.net, Underlying(h, m)), NextSignal(h, m), h.established || m.OpenerCycles?, NextPhase(h, m))
  }

  /** State after the opener's nb__establish and a run of moves. */
  function After(start: nat, moves: seq<Move>): (h: State)
    ensures h.Valid()
  {
    if moves == [] then Opening(start)
    else MoveStep(After(start, moves[..|moves| - 1]), moves[|moves| - 1])
  }

  // ---- Invariant ----

  /** Until the ESTABLISHED event the signaling packet is all the opener has ever sent. */
  ghost predicate OnlySignaling(n: Net) {
    && n.a.tx.lastSent == FIRST
    && n.ab.datas <= {SIGNALING}
    && CarrySignaling(n.a.tx.active)
  }

  ghost predicate AllSignaling(ps: seq<Packet>) {
    forall i :: 0 <= i < |ps| ==> ps[i] == DataPacket(SIGNALING)
  }

  ghost predicate NoReply(h: State) {
    && h.net.b == Protocol.Init().b && h.net.ba == Wire({}, {}) && h.net.ab.acks == {}
    && h.signal.WaitingForSignal? && !h.established
  }

  ghost predicate BaselineFirst(e: Endpoint) {
    if e.rx.last == 0 then e.base == 0 && e.rx == Established() else e.base == FIRST
  }

  ghost predicate Inv(h: State) {
    && h.Valid()
    && SIGNALING in h.net.ab.datas && h.net.a.sent != []
    && (!h.established ==> OnlySignaling(h.net))
    && BaselineFirst(h.net.b)
    && match h.phase
       case Listening(queue) => NoReply(h) && AllSignaling(queue)
       case Replaying(pending) => pending != [] && AllSignaling(pending)
       case Live => h.net.b.rx.last != 0
  }

  lemma {:induction false} RemoveSubset(active: seq<Armed>, id: nat, y: Armed)
    requires y in Remove(active, id)
    ensures y in active
  {
    if active != [] && active[0].id != id && y != active[0] {
      RemoveSubset(active[1..], id, y);
    }
  }

  lemma OpeningInv(now: nat)
    ensures Inv(Opening(now))
  {
  }

  ghost predicate CarrySignaling(active: seq<Armed>) {
    forall y :: y in active ==> y.arg == SIGNALING && y.rearm == Some(REDELIVERY_TIMEOUT_MS)
  }

  lemma CarriedSignaling(a: seq<Armed>, b: seq<Armed>)
    requires Carried(a, b) && CarrySignaling(b)
    ensures CarrySignaling(a)
  {
  }

  lemma SignalingRearms(active: seq<Armed>)
    requires CarrySignaling(active)
    ensures RearmsLater(active) && AllRearm(active)
  {
  }

  lemma CheckCarriesSignaling(active: seq<Armed>, now: nat)
    requires CarrySignaling(active)
    ensures CarrySignaling(Checked(active, now))
  {
    SignalingRearms(active);
    CheckedKeeps(active, now);
    CarriedSignaling(Checked(active, now), active);
  }

  lemma ResendsSignaling(tx: Tx, now: nat)
    requires CarrySignaling(tx.active)
    ensures forall d :: d in Resent(tx, now) ==> d == SIGNALING
  {
  }

  lemma CheckKeepsSignaling(n: Net, now: nat)
    requires n.Valid() && OnlySignaling(n)
    ensures OnlySignaling(StepA(n, Check(now)))
  {
    CheckCarriesSignaling(n.a.tx.active, now);
    ResendsSignaling(n.a.tx, now);
  }

  lemma AckKeepsSignaling(n: Net, num: nat)
    requires n.Valid() && OnlySignaling(n)
    ensures OnlySignaling(StepA(n, Ack(num)))
  {
    var r := StepA(n, Ack(num));
    forall y | y in r.a.tx.active ensures y in n.a.tx.active {
      var slot := n.a.tx.ring[Index(num)];
      if slot.Held? && num in n.ba.acks {
        RemoveSubset(n.a.tx.active, slot.timer, y);
      }
    }
  }

  /** Nothing but an application send makes the opener emit a numbered packet. */
  lemma ArrivalsKeepSignaling(n: Net, x: Action)
    requires n.Valid() && OnlySignaling(n) && !(x.at.A? && x.event.Send?)
    ensures OnlySignaling(Step(n, x))
  {
    if x.at.A? {
      match x.event {
        case Check(now) => CheckKeepsSignaling(n, now);
        case Data(_) =>
        case Ack(num) => AckKeepsSignaling(n, num);
      }
    }
  }

  lemma {:induction false} DrainNeverZero(rx: Rx, i: nat)
    requires rx.Valid() && rx.last != 0 && i > 0
    ensures Drain(rx, i).last != 0
    decreases rx.maxOoo + 1 - i
  {
    if i <= rx.maxOoo && rx.ring[SlotOf(i)].Some? {
      var index := SlotOf(i);
      DrainNeverZero(Rx(i, rx.maxOoo, rx.ring[index := None], Enqueue(rx.queue, rx.ring[index].value.payload)), i + 1);
    }
  }

  /** A baseline once taken stays. */
  lemma BaselineStays(n: Net, x: Action)
    requires n.Valid() && n.b.rx.last != 0
    ensures Step(n, x).b.rx.last != 0 && Step(n, x).b.base == n.b.base
  {
    if x.at.B? && x.event.Data? {
      var s := x.event.s;
      if Resequencer.Accepts(n.b.rx, s) {
        DrainNeverZero(Rx(s.num, n.b.rx.maxOoo, n.b.rx.ring, Enqueue(n.b.rx.queue, s.payload)), s.num + 1);
      }
    }
  }

  /** Without a data arrival b's receiving side does not change. */
  lemma ReceiverIdle(n: Net, x: Action)
    requires n.Valid() && !(x.at.B? && x.event.Data?)
    ensures Step(n, x).b.rx == n.b.rx && Step(n, x).b.base == n.b.base
  {
  }

  /** Replaying the signaling packet into a fresh connection sets the baseline. */
  lemma SignalingSetsBaseline(n: Net)
    requires n.Valid() && BaselineFirst(n.b) && SIGNALING in n.ab.datas
    ensures var r := Step(n, Action(B, Data(SIGNALING)));
      r.b.base == FIRST && r.b.rx.last != 0
  {
    if n.b.rx.last == 0 {
      DrainNeverZero(Rx(FIRST, 0, Established().ring, []), FIRST + 1);
    } else {
      BaselineStays(n, Action(B, Data(SIGNALING)));
    }
  }

  lemma WiresGrow(n: Net, x: Action)
    requires n.Valid()
    ensures n.ab.datas <= Step(n, x).ab.datas
    ensures n.a.sent != [] ==> Step(n, x).a.sent != []
  {
  }

  lemma OpenerMoveKeeps(h: State, m: Move)
    requires Inv(h) && CanMove(h, m) && (m.OpenerSends? || m.OpenerChecks? || m.OpenerReceives?)
    ensures Inv(MoveStep(h, m))
  {
    var x := Underlying(h, m).value;
    var r := MoveStep(h, m);
    WiresGrow(h.net, x);
    ReceiverIdle(h.net, x);
    if !h.established {
      ArrivalsKeepSignaling(h.net, x);
    }
    if h.phase.Listening? {
      assert r.net.b == h.net.b && r.net.ba == h.net.ba;
      assert NoReply(r);
    }
  }

  lemma AcceptorMoveKeeps(h: State, m: Move)
    requires Inv(h) && CanMove(h, m) && h.phase.Live? && (m.ListenerReceives? || m.AcceptorSends? || m.AcceptorChecks?)
    ensures Inv(MoveStep(h, m))
  {
    var x := Underlying(h, m).value;
    WiresGrow(h.net, x);
    BaselineStays(h.net, x);
    if !h.established {
      ArrivalsKeepSignaling(h.net, x);
    }
  }

  lemma PermutedSignaling(queue: seq<Packet>, order: seq<Packet>)
    requires AllSignaling(queue) && multiset(order) == multiset(queue) && queue != []
    ensures AllSignaling(order) && order != []
  {
    forall i | 0 <= i < |order| ensures order[i] == DataPacket(SIGNALING) {
      assert order[i] in multiset(order);
      assert order[i] in queue;
    }
    assert queue[0] in multiset(queue);
    assert |order| == |multiset(order)|;
  }

  lemma AcceptKeeps(h: State, m: Move)
    requires Inv(h) && CanMove(h, m) && m.Accepts?
    ensures Inv(MoveStep(h, m))
  {
    var x := Underlying(h, m).value;
    WiresGrow(h.net, x);
    ReceiverIdle(h.net, x);
    PermutedSignaling(h.phase.queue, m.order);
    ArrivalsKeepSignaling(h.net, x);
  }

  lemma ReplayKeeps(h: State, m: Move)
    requires Inv(h) && CanMove(h, m) && m.Replays?
    ensures Inv(MoveStep(h, m))
  {
    var x := Underlying(h, m).value;
    assert x == Action(B, Data(SIGNALING));
    WiresGrow(h.net, x);
    SignalingSetsBaseline(h.net);
    if !h.established {
      ArrivalsKeepSignaling(h.net, x);
    }
  }

  lemma QueueKeeps(h: State, m: Move)
    requires Inv(h) && CanMove(h, m) && m.ListenerReceives? && h.phase.Listening?
    ensures Inv(MoveStep(h, m))
  {
  }

  lemma MoveKeeps(h: State, m: Move)
    requires Inv(h)
    ensures Inv(MoveStep(h, m))
  {
    if CanMove(h, m) {
      match m {
        case OpenerSends(_, _) => OpenerMoveKeeps(h, m);
        case OpenerChecks(_) => OpenerMoveKeeps(h, m);
        case OpenerReceives(_) => OpenerMoveKeeps(h, m);
        case OpenerCycles =>
        case ListenerReceives(_) =>
          if h.phase.Live? { AcceptorMoveKeeps(h, m); } else { QueueKeeps(h, m); }
        case Accepts(_, _) => AcceptKeeps(h, m);
        case Replays => ReplayKeeps(h, m);
        case AcceptorSends(_, _) => AcceptorMoveKeeps(h, m);
        case AcceptorChecks(_) => AcceptorMoveKeeps(h, m);
      }
    }
  }

  lemma {:induction false} AlwaysInv(start: nat, moves: seq<Move>)
    ensures Inv(After(start, moves))
  {
    if moves == [] {
      OpeningInv(start);
    } else {
      AlwaysInv(start, moves[..|moves| - 1]);
      MoveKeeps(After(start, moves[..|moves| - 1]), moves[|moves| - 1]);
    }
  }

  // ---- The theorems ----

  /** No data packet ever becomes the baseline. When the opener's ESTABLISHED event has happened,
      the accepted connection has its baseline, or is inside nb__accept with nothing but signaling
      packets left to replay, so the baseline is taken before it polls again. */
  lemma {:induction false} HandshakeSafety(start: nat, moves: seq<Move>)
    ensures var h := After(start, moves);
      && (h.net.b.rx.last != 0 ==> h.net.b.base == FIRST)
      && (h.phase.Live? ==> h.net.b.rx.last != 0)
      && (h.established ==> h.phase.Live? || (h.phase.Replaying? && h.phase.pending != [] && AllSignaling(h.phase.pending)))
  {
    AlwaysInv(start, moves);
  }

  /** The signaling packet arrives and is accepted; the acceptor's own arrives at the opener before
      the replay. */
  function EarlyEvent(): seq<Move> {
    [ListenerReceives(DataPacket(SIGNALING)), Accepts(0, [DataPacket(SIGNALING)]),
     OpenerReceives(DataPacket(SIGNALING)), OpenerCycles]
  }

  lemma AfterSnoc(start: nat, before: seq<Move>, m: Move)
    ensures After(start, before + [m]) == MoveStep(After(start, before), m)
  {
  }

  /** The acceptor has sent its own signaling packet and still has the opener's to replay. */
  ghost predicate InsideAccept(h: State) {
    && h.Valid() && h.phase == Replaying([DataPacket(SIGNALING)])
    && h.net.b.rx.last == 0 && h.net.a.rx.last == 0
    && SIGNALING in h.net.ba.datas && h.signal.WaitingForSignal?
  }

  lemma ListenerQueues()
    ensures var h := MoveStep(Opening(0), EarlyEvent()[0]);
      h.Valid() && h.net == Opening(0).net && h.phase == Listening([DataPacket(SIGNALING)]) && h.signal.WaitingForSignal?
  {
  }

  lemma AcceptEntered(h: State)
    requires h.Valid() && h.net == Opening(0).net && h.phase == Listening([DataPacket(SIGNALING)]) && h.signal.WaitingForSignal?
    ensures InsideAccept(MoveStep(h, EarlyEvent()[1]))
  {
  }

  lemma EventBeforeReplay(h: State)
    requires InsideAccept(h)
    ensures var r := MoveStep(MoveStep(h, EarlyEvent()[2]), EarlyEvent()[3]);
      r.established && r.phase.Replaying? && r.net.b.rx.last == 0
  {
  }

  /** The ESTABLISHED event can come before the accepted connection has its baseline. */
  lemma EstablishedBeforeBaseline()
    ensures var h := After(0, EarlyEvent()); h.established && h.phase.Replaying? && h.net.b.rx.last == 0
  {
    hide MoveStep, InsideAccept;
    var m := EarlyEvent();
    AfterSnoc(0, [], m[0]);
    AfterSnoc(0, [m[0]], m[1]);
    AfterSnoc(0, [m[0], m[1]], m[2]);
    AfterSnoc(0, [m[0], m[1], m[2]], m[3]);
    assert [] + [m[0]] == [m[0]] && [m[0]] + [m[1]] == [m[0], m[1]];
    assert [m[0], m[1]] + [m[2]] == [m[0], m[1], m[2]] && [m[0], m[1], m[2]] + [m[3]] == m;
    ListenerQueues();
    AcceptEntered(MoveStep(Opening(0), m[0]));
    EventBeforeReplay(MoveStep(MoveStep(Opening(0), m[0]), m[1]));
  }

  /** The endpoint actions behind a run of moves. */
  ghost function ActionsOf(start: nat, moves: seq<Move>): seq<Action> {
    if moves == [] then [Action(A, Event.Send([], start))]
    else
      var before := moves[..|moves| - 1];
      var h, m := After(start, before), moves[|moves| - 1];
      if CanMove(h, m) && Underlying(h, m).Some? then ActionsOf(start, before) + [Underlying(h, m).value]
      else ActionsOf(start, before)
  }

  /** A handshake run is a run of the two endpoints, so their theorems apply to it. */
  lemma {:induction false} Refinement(start: nat, moves: seq<Move>)
    ensures After(start, moves).net == Protocol.After(ActionsOf(start, moves))
  {
    if moves == [] {
      var x := Action(A, Event.Send([], start));
      assert [x][..0] == [];
      assert Protocol.After([x]) == Step(Protocol.After([]), x);
    } else {
      var before := moves[..|moves| - 1];
      Refinement(start, before);
      var h, m := After(start, before), moves[|moves| - 1];
      if CanMove(h, m) && Underlying(h, m).Some? {
        var run, x := ActionsOf(start, before), Underlying(h, m).value;
        assert (run + [x])[..|run|] == run;
      }
    }
  }

  // ---- The event ----

  /** How often the ESTABLISHED event has been fired at the opener. */
  function Events(start: nat, moves: seq<Move>): nat {
    if moves == [] then 0
    else
      var before := moves[..|moves| - 1];
      Events(start, before) + if moves[|moves| - 1].OpenerCycles? && After(start, before).signal.Signaled? then 1 else 0
  }

  /** Some packet of the acceptor has been taken in by the opener's signaling hook. */
  ghost predicate SignalInv(h: State, events: nat) {
    && h.Valid() && events == (if h.signal.SignalHandled? then 1 else 0)
    && (h.established <==> events == 1)
    && (h.signal.WaitingForSignal? <==> h.net.a.rx.last == 0)
  }

  /** An accepted packet leaves `last` other than 0. */
  lemma OpenerLast(n: Net, x: Action)
    requires n.Valid() && (x.at.A? && x.event.Data? && x.event.s in n.ba.datas ==> x.event.s.num != 0)
    ensures n.a.rx.last != 0 ==> Step(n, x).a.rx.last != 0
    ensures n.a.rx.last == 0 ==>
      (Step(n, x).a.rx.last != 0 <==> x.at.A? && x.event.Data? && x.event.s in n.ba.datas)
  {
    if x.at.A? && x.event.Data? && x.event.s in n.ba.datas && Resequencer.Accepts(n.a.rx, x.event.s) {
      var s := x.event.s;
      DrainNeverZero(Rx(s.num, n.a.rx.maxOoo, n.a.rx.ring, Enqueue(n.a.rx.queue, s.payload)), s.num + 1);
    }
  }

  lemma SignalStep(h: State, m: Move, events: nat)
    requires SignalInv(h, events) && forall s :: s in h.net.ba.datas ==> s.num != 0
    ensures SignalInv(MoveStep(h, m), events + if m.OpenerCycles? && h.signal.Signaled? then 1 else 0)
  {
    if CanMove(h, m) && Underlying(h, m).Some? {
      OpenerLast(h.net, Underlying(h, m).value);
    }
  }

  /** The opener's ESTABLISHED event is fired at most once, exactly when the opener is established, and only after a
      packet of the acceptor has been accepted; from the first accepted packet on it is no longer waiting. */
  lemma {:induction false} EstablishedOnce(start: nat, moves: seq<Move>)
    requires WithinLifetime(After(start, moves).net)
    ensures var h := After(start, moves);
      && Events(start, moves) <= 1 && (h.established <==> Events(start, moves) == 1)
      && (h.established ==> h.net.a.rx.last != 0) && (h.signal.WaitingForSignal? <==> h.net.a.rx.last == 0)
  {
    SignalAlways(start, moves);
  }

  lemma {:induction false} SignalAlways(start: nat, moves: seq<Move>)
    requires WithinLifetime(After(start, moves).net)
    ensures SignalInv(After(start, moves), Events(start, moves))
  {
    if moves != [] {
      var before, m := moves[..|moves| - 1], moves[|moves| - 1];
      MoveNumbersGrow(After(start, before), m);
      SignalAlways(start, before);
      Refinement(start, before);
      LifetimeKeeps(ActionsOf(start, before));
      GenuineNumbers(After(start, before).net);
      SignalStep(After(start, before), m, Events(start, before));
    }
  }

  lemma GenuineNumbers(n: Net)
    requires Protocol.Inv(n, LAST)
    ensures forall s :: s in n.ba.datas ==> s.num != 0
  {
  }

  // ---- What the moves do ----

  /** A packet from the wire has been taken by endpoint e: an acknowledgement has emptied its slot, data has been
      seen and acknowledged on the wire back. */
  ghost predicate Taken(p: Packet, e: Endpoint, back: Wire)
    requires e.tx.Valid()
  {
    match p
    case DataPacket(s) => s.num in e.got && s.num in back.acks
    case AckPacket(num) => e.tx.ring[Index(num)].Empty?
  }

  /** After a check nothing is due and every packet that was overdue is on the wire. */
  ghost predicate CheckedAt(before: Tx, e: Endpoint, out: Wire, now: nat)
    requires before.Valid()
  {
    AllLater(e.tx.active, now) && forall seg :: Overdue(before, seg, now) ==> seg in out.datas
  }

  lemma ChecksAct(n: Net, now: nat)
    requires n.Valid() && TimersMatchSlots(n.a.tx)
    ensures CheckedAt(n.a.tx, StepA(n, Check(now)).a, StepA(n, Check(now)).ab, now)
  {
    TickMatches(n.a.tx, now);
    forall seg | Overdue(n.a.tx, seg, now) ensures seg in Resent(n.a.tx, now) {
      ResentExactly(n.a.tx, now, seg);
    }
  }

  lemma ArrivalsAct(n: Net, p: Packet)
    requires n.Valid() && OnWire(n.ba, p)
    ensures Taken(p, StepA(n, Arrival(p)).a, StepA(n, Arrival(p)).ab)
  {
  }

  /** What happens at each end when it receives, replays or checks its timers. */
  lemma MovesAct(h: State, m: Move)
    requires h.Valid() && TimersMatchSlots(h.net.a.tx) && TimersMatchSlots(h.net.b.tx) && CanMove(h, m)
    ensures var r := MoveStep(h, m).net;
      match m
      case OpenerChecks(now) => CheckedAt(h.net.a.tx, r.a, r.ab, now)
      case AcceptorChecks(now) => CheckedAt(h.net.b.tx, r.b, r.ba, now)
      case OpenerReceives(p) => OnWire(h.net.ba, p) ==> Taken(p, r.a, r.ab)
      case ListenerReceives(p) => h.phase.Live? ==> Taken(p, r.b, r.ba)
      case Replays => OnWire(h.net.ab, h.phase.pending[0]) ==> Taken(h.phase.pending[0], r.b, r.ba)
      case _ => true
  {
    hide CheckedAt, Taken, TimersMatchSlots;
    match m {
      case OpenerChecks(now) => ChecksAct(h.net, now);
      case AcceptorChecks(now) => ChecksAct(h.net.Swap(), now);
      case OpenerReceives(p) => if OnWire(h.net.ba, p) { ArrivalsAct(h.net, p); }
      case ListenerReceives(p) => if h.phase.Live? { ArrivalsAct(h.net.Swap(), p); }
      case Replays => if OnWire(h.net.ab, h.phase.pending[0]) { ArrivalsAct(h.net.Swap(), h.phase.pending[0]); }
      case _ =>
    }
  }

  /** What the opener's application submits after its ESTABLISHED event, in order. */
  function Submitted(start: nat, moves: seq<Move>): seq<Payload> {
    if moves == [] then []
    else
      var before, m := moves[..|moves| - 1], moves[|moves| - 1];
      if m.OpenerSends? && After(start, before).established then Submitted(start, before) + [m.payload]
      else Submitted(start, before)
  }

  lemma MoveNumbersGrow(h: State, m: Move)
    requires h.Valid() && WithinLifetime(MoveStep(h, m).net)
    ensures WithinLifetime(h.net)
  {
    if CanMove(h, m) && Underlying(h, m).Some? {
      StepNumbersGrow(h.net, Underlying(h, m).value);
    }
  }

  /** Within the lifetime bound both ends always find a timer. */
  lemma {:induction false} TimersLeft(start: nat, moves: seq<Move>)
    requires WithinLifetime(After(start, moves).net)
    ensures After(start, moves).net.a.tx.free != [] && After(start, moves).net.b.tx.free != []
  {
    Refinement(start, moves);
    SendAlwaysPossible(ActionsOf(start, moves), A);
    SendAlwaysPossible(ActionsOf(start, moves), B);
  }

  lemma OpenerSentStep(h: State, m: Move)
    requires h.Valid() && h.net.a.tx.free != []
    ensures MoveStep(h, m).net.a.sent == h.net.a.sent + if m.OpenerSends? && h.established then [m.payload] else []
  {
  }

  /** The opener sends its signaling packet, then exactly what its application submits. */
  lemma {:induction false} SentIsSubmitted(start: nat, moves: seq<Move>)
    requires WithinLifetime(After(start, moves).net)
    ensures After(start, moves).net.a.sent == [[]] + Submitted(start, moves)
  {
    if moves != [] {
      var before, m := moves[..|moves| - 1], moves[|moves| - 1];
      MoveNumbersGrow(After(start, before), m);
      SentIsSubmitted(start, before);
      TimersLeft(start, before);
      OpenerSentStep(After(start, before), m);
    }
  }

  lemma SignalingIsEmpty(ps: seq<Payload>)
    ensures NonEmpty([[]] + ps) == NonEmpty(ps)
  {
    var signaling: seq<Payload> := [[]];
    NonEmptyConcat(signaling, ps);
    assert signaling[..0] == [];
  }

  /** The opener's data, submitted after its ESTABLISHED event in a connection of at most 32 numbers:
      once nothing is outstanding all of it has been delivered, over any channel. */
  lemma {:induction false} OpenerEndToEnd(start: nat, moves: seq<Move>)
    requires WithinLifetime(After(start, moves).net)
    requires Flow.RingEmpty(After(start, moves).net.a.tx)
    ensures After(start, moves).net.b.rx.queue == NonEmpty(Submitted(start, moves))
  {
    var n, run := After(start, moves).net, ActionsOf(start, moves);
    Refinement(start, moves);
    AlwaysInv(start, moves);
    Protocol.SentIsSubmitted(run, A);
    EndToEnd(run, A);
    CompleteExactly(FromA(n));
    SentIsSubmitted(start, moves);
    SignalingIsEmpty(Submitted(start, moves));
  }
}
