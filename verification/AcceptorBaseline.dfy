/** The handshake fixes the baseline in one direction only: data the accepting side sends
    right after nb__accept can overtake its own signaling packet and be lost. It is safe exactly
    when at most one packet is sent before the first acknowledgement comes. */
module AcceptorBaseline {
  import opened Basics
  import opened Sender
  import opened Resequencer
  import opened Protocol
  import opened Handshake
  import Flow

  const SECOND: Segment := Segment(FIRST + 1, [5])
  const THIRD: Segment := Segment(FIRST + 2, [6])

  /** The opener opens, the peer accepts at once. */
  function AcceptedAtOnce(): seq<Move> {
    [ListenerReceives(DataPacket(SIGNALING)), Move.Accepts(0, [DataPacket(SIGNALING)]), Replays]
  }

  /** The acceptor sends two payloads and the second arrives first, then all the rest. */
  function Overtaken(): seq<Move> {
    [AcceptorSends([5], 0), AcceptorSends([6], 0),
     OpenerReceives(DataPacket(THIRD)), OpenerReceives(DataPacket(SIGNALING)), OpenerReceives(DataPacket(SECOND))]
  }

  function Settled(): seq<Move> {
    [ListenerReceives(AckPacket(FIRST)), ListenerReceives(AckPacket(FIRST + 1)), ListenerReceives(AckPacket(FIRST + 2))]
  }

  function Moves(h: State, ms: seq<Move>): (r: State)
    requires h.Valid()
    ensures r.Valid()
    decreases |ms|
  {
    if ms == [] then h else Moves(MoveStep(h, ms[0]), ms[1..])
  }

  lemma {:induction false} AfterMoves(start: nat, before: seq<Move>, ms: seq<Move>)
    ensures Handshake.After(start, before + ms) == Moves(Handshake.After(start, before), ms)
    decreases |ms|
  {
    if ms == [] {
      assert before + ms == before;
    } else {
      assert (before + [ms[0]])[..|before|] == before;
      assert before + ms == before + [ms[0]] + ms[1..];
      AfterMoves(start, before + [ms[0]], ms[1..]);
    }
  }

  ghost predicate SlotsHeld(tx: Tx, from: nat, to: nat) {
    && tx.Valid()
    && forall j :: 0 <= j < REDELIVERY_BUFFER_SIZE && !(from <= j < to) ==> tx.ring[j].Empty?
  }

  /** b is live, has sent k packets, of which none was received yet. */
  ghost predicate Ready(h: State, sent: seq<Payload>) {
    && h.Valid() && h.phase.Live?
    && h.net.b.sent == sent && h.net.b.tx.lastSent == FIRST - 1 + |sent| && |h.net.b.tx.free| > 2
    && SlotsHeld(h.net.b.tx, 19, 19 + |sent|)
    && h.net.a.rx == Established() && h.net.a.tx.lastSent == FIRST
  }

  /** nb__accept has sent its signaling packet and has the opener's to replay. */
  ghost predicate Entered(h: State) {
    && h.Valid() && h.phase == Replaying([DataPacket(SIGNALING)])
    && Ready(h.(phase := Live), [[]]) && SIGNALING in h.net.ba.datas
  }

  lemma EntersAccept(h: State)
    requires h.Valid() && h.net == Opening(0).net && h.phase == Listening([DataPacket(SIGNALING)])
    ensures Entered(MoveStep(h, AcceptedAtOnce()[1]))
  {
  }

  lemma ReplayGoesLive(h: State)
    requires Entered(h)
    ensures Ready(MoveStep(h, Replays), [[]]) && SIGNALING in MoveStep(h, Replays).net.ba.datas
  {
  }

  lemma AcceptedReady()
    ensures var h := Moves(Opening(0), AcceptedAtOnce());
      Ready(h, [[]]) && SIGNALING in h.net.ba.datas
  {
    hide MoveStep, Moves, Ready, Entered;
    ListenerQueues();
    var h1 := MoveStep(Opening(0), AcceptedAtOnce()[0]);
    EntersAccept(h1);
    ReplayGoesLive(MoveStep(h1, AcceptedAtOnce()[1]));
    MovesThree(Opening(0), AcceptedAtOnce());
  }

  lemma SendReady(h: State, sent: seq<Payload>, payload: Payload)
    requires Ready(h, sent) && |sent| <= 2
    ensures var r := MoveStep(h, AcceptorSends(payload, 0));
      && r.Valid() && r.phase.Live?
      && r.net.b.sent == sent + [payload] && r.net.b.tx.lastSent == FIRST + |sent|
      && |r.net.b.tx.free| == |h.net.b.tx.free| - 1
      && SlotsHeld(r.net.b.tx, 19, 20 + |sent|)
      && r.net.a == h.net.a && r.net.ab == h.net.ab
      && r.net.ba.datas == h.net.ba.datas + {Segment(FIRST + |sent|, payload)}
  {
  }

  /** a has taken 1013 as its baseline; what it still receives below that is acknowledged and shelved. */
  ghost predicate LateBaseline(h: State, acks: set<nat>) {
    && h.Valid() && h.phase.Live?
    && h.net.b.sent == [[], [5], [6]] && h.net.b.tx.lastSent == FIRST + 2
    && SlotsHeld(h.net.b.tx, 19, 22)
    && {SIGNALING, SECOND, THIRD} <= h.net.ba.datas
    && h.net.a.rx.last == h.net.a.base == FIRST + 2 && h.net.a.tx.lastSent == FIRST
    && acks <= h.net.ab.acks
  }

  lemma ReceiveLate(h: State, acks: set<nat>, s: Segment)
    requires LateBaseline(h, acks) && s in {SIGNALING, SECOND}
    ensures LateBaseline(MoveStep(h, OpenerReceives(DataPacket(s))), acks + {s.num})
  {
  }

  lemma ReceiveThird(h: State)
    requires h.Valid() && h.phase.Live?
    requires h.net.b.sent == [[], [5], [6]] && h.net.b.tx.lastSent == FIRST + 2
    requires SlotsHeld(h.net.b.tx, 19, 22)
    requires {SIGNALING, SECOND, THIRD} <= h.net.ba.datas
    requires h.net.a.rx == Established() && h.net.a.tx.lastSent == FIRST
    ensures LateBaseline(MoveStep(h, OpenerReceives(DataPacket(THIRD))), {FIRST + 2})
  {
  }

  lemma {:induction false} OvertakenLate(h: State)
    requires Ready(h, [[]]) && |h.net.b.tx.free| > 2 && SIGNALING in h.net.ba.datas
    ensures LateBaseline(Moves(h, Overtaken()), {FIRST, FIRST + 1, FIRST + 2})
  {
    hide MoveStep, Moves, LateBaseline;
    var ms := Overtaken();
    SendReady(h, [[]], [5]);
    var h1 := MoveStep(h, ms[0]);
    SendOnce(h1);
    var h2 := MoveStep(h1, ms[1]);
    ReceiveThird(h2);
    var h3 := MoveStep(h2, ms[2]);
    ReceiveLate(h3, {FIRST + 2}, SIGNALING);
    var h4 := MoveStep(h3, ms[3]);
    ReceiveLate(h4, {FIRST + 2} + {FIRST}, SECOND);
    var h5 := MoveStep(h4, ms[4]);
    assert {FIRST + 2} + {FIRST} + {FIRST + 1} == {FIRST, FIRST + 1, FIRST + 2};
    MovesFive(h, ms);
  }

  lemma SendOnce(h: State)
    requires h.Valid() && h.phase.Live?
    requires h.net.b.sent == [[], [5]] && h.net.b.tx.lastSent == FIRST + 1 && |h.net.b.tx.free| > 1
    requires SlotsHeld(h.net.b.tx, 19, 21) && SIGNALING in h.net.ba.datas && SECOND in h.net.ba.datas
    requires h.net.a.rx == Established() && h.net.a.tx.lastSent == FIRST
    ensures var r := MoveStep(h, AcceptorSends([6], 0));
      && r.Valid() && r.phase.Live?
      && r.net.b.sent == [[], [5], [6]] && r.net.b.tx.lastSent == FIRST + 2
      && SlotsHeld(r.net.b.tx, 19, 22)
      && {SIGNALING, SECOND, THIRD} <= r.net.ba.datas
      && r.net.a.rx == Established() && r.net.a.tx.lastSent == FIRST
  {
  }

  lemma {:induction false} MovesFive(h: State, ms: seq<Move>)
    requires h.Valid() && |ms| == 5
    ensures Moves(h, ms) == MoveStep(MoveStep(MoveStep(MoveStep(MoveStep(h, ms[0]), ms[1]), ms[2]), ms[3]), ms[4])
  {
    var h2 := MoveStep(MoveStep(h, ms[0]), ms[1]);
    assert ms[1..][1..] == ms[2..];
    assert Moves(h, ms) == Moves(h2, ms[2..]);
    MovesThree(h2, ms[2..]);
  }

  lemma {:induction false} MovesThree(h: State, ms: seq<Move>)
    requires h.Valid() && |ms| == 3
    ensures Moves(h, ms) == MoveStep(MoveStep(MoveStep(h, ms[0]), ms[1]), ms[2])
  {
    var h1 := MoveStep(h, ms[0]);
    var h2 := MoveStep(h1, ms[1]);
    assert ms[1..][1..] == [ms[2]] && [ms[2]][1..] == [];
    assert Moves(h, ms) == Moves(h1, ms[1..]) == Moves(h2, ms[1..][1..]);
    assert Moves(h2, [ms[2]]) == Moves(MoveStep(h2, ms[2]), []);
  }

  lemma AckLate(h: State, acks: set<nat>, i: nat)
    requires LateBaseline(h, acks) && FIRST + i in acks && i < 3
    requires SlotsHeld(h.net.b.tx, 19 + i, 22)
    ensures var r := MoveStep(h, ListenerReceives(AckPacket(FIRST + i)));
      LateBaseline(r, acks) && SlotsHeld(r.net.b.tx, 20 + i, 22)
  {
  }

  lemma {:induction false} SettledEmpty(h: State)
    requires LateBaseline(h, {FIRST, FIRST + 1, FIRST + 2})
    ensures var r := Moves(h, Settled());
      LateBaseline(r, {FIRST, FIRST + 1, FIRST + 2}) && Flow.RingEmpty(r.net.b.tx)
  {
    hide MoveStep, Moves;
    var acks := {FIRST, FIRST + 1, FIRST + 2};
    var h1 := MoveStep(h, Settled()[0]);
    AckLate(h, acks, 0);
    var h2 := MoveStep(h1, Settled()[1]);
    AckLate(h1, acks, 1);
    AckLate(h2, acks, 2);
    MovesThree(h, Settled());
  }

  function AllMoves(): seq<Move> {
    AcceptedAtOnce() + Overtaken() + Settled()
  }

  lemma LateAndEmpty()
    ensures var h := Handshake.After(0, AllMoves());
      LateBaseline(h, {FIRST, FIRST + 1, FIRST + 2}) && Flow.RingEmpty(h.net.b.tx)
  {
    AfterMoves(0, [], AcceptedAtOnce());
    assert [] + AcceptedAtOnce() == AcceptedAtOnce();
    AfterMoves(0, AcceptedAtOnce(), Overtaken());
    AfterMoves(0, AcceptedAtOnce() + Overtaken(), Settled());
    AcceptedReady();
    var ready := Moves(Opening(0), AcceptedAtOnce());
    OvertakenLate(ready);
    SettledEmpty(Moves(ready, Overtaken()));
  }

  /** Nothing is outstanding at the acceptor, but its first payload was not delivered. */
  ghost predicate LosesFirst(n: Net) {
    && WithinLifetime(n) && n.Valid() && Flow.RingEmpty(n.b.tx)
    && n.b.sent == [[], [5], [6]] && n.a.rx.queue == [[6]]
  }

  lemma LateLoses(n: Net)
    requires WithinLifetime(n) && n.Valid() && Flow.RingEmpty(n.b.tx) && Flow.Complete(FromB(n))
    requires n.b.sent == [[], [5], [6]] && n.a.base == FIRST + 2
    ensures LosesFirst(n)
  {
    assert n.b.sent[2..] == [[6]];
    assert [[6]][..0] == [];
  }

  lemma LosingRun()
    ensures var n := Handshake.After(0, AllMoves()).net;
      LosesFirst(n) && n.b.tx.lastSent == FIRST + 2
  {
    LateAndEmpty();
    var n := Handshake.After(0, AllMoves()).net;
    Refinement(0, AllMoves());
    assert n.b.sent != [];
    Protocol.SentIsSubmitted(ActionsOf(0, AllMoves()), B);
    EndToEnd(ActionsOf(0, AllMoves()), B);
    LateLoses(n);
  }

  lemma AcceptorDataCanBeLost()
    ensures exists moves :: LosesFirst(Handshake.After(0, moves).net)
  {
    LosingRun();
  }

  // ---- When the accepting side may send ----

  /** Some packet has left the redelivery ring: an acknowledgement has come. */
  predicate Heard(tx: Tx)
    requires tx.Valid()
  {
    exists num: nat :: FIRST <= num <= tx.lastSent && tx.ring[Index(num)].Empty?
  }

  /** The accepting application sends a packet. */
  predicate Numbers(h: State, m: Move) {
    m.AcceptorSends? && CanMove(h, m) && h.net.b.tx.free != []
  }

  /** Up to its first acknowledgement the accepting application sends at most k packets. */
  predicate Polite(k: nat, start: nat, moves: seq<Move>) {
    moves == [] ||
    (var h := Handshake.After(start, moves[..|moves| - 1]);
     && Polite(k, start, moves[..|moves| - 1])
     && (Numbers(h, moves[|moves| - 1]) ==> h.net.b.tx.lastSent < FIRST + k || Heard(h.net.b.tx)))
  }

  lemma {:induction false} PoliteGrows(k: nat, more: nat, start: nat, moves: seq<Move>)
    requires k <= more && Polite(k, start, moves)
    ensures Polite(more, start, moves)
  {
    if moves != [] {
      PoliteGrows(k, more, start, moves[..|moves| - 1]);
    }
  }

  lemma NumbersGrow(h: State, m: Move)
    requires h.Valid()
    ensures h.net.b.tx.lastSent + (if Numbers(h, m) then 1 else 0) <= MoveStep(h, m).net.b.tx.lastSent
  {
  }

  /** A connection whose accepting side sends at most k packets in all is polite. */
  lemma {:induction false} FewIsPolite(k: nat, start: nat, moves: seq<Move>)
    requires Handshake.After(start, moves).net.b.tx.lastSent <= FIRST + k
    ensures Polite(k, start, moves)
  {
    hide MoveStep, Numbers, Heard;
    if moves != [] {
      NumbersGrow(Handshake.After(start, moves[..|moves| - 1]), moves[|moves| - 1]);
      FewIsPolite(k, start, moves[..|moves| - 1]);
    }
  }

  /** Until the opener has a baseline the accepting side has sent at most one packet after its
      signaling packet; after that the baseline is one of these two. */
  ghost predicate EarlyBaseline(n: Net) {
    && (n.b.sent != [] ==> n.b.sent[0] == [])
    && (if n.a.rx.last == 0 then n.b.tx.lastSent <= FIRST + 1 else n.a.base <= FIRST + 1)
  }

  ghost predicate Started(h: State) {
    if h.phase.Listening? then h.net.b == Protocol.Init().b else h.net.b.sent != []
  }

  /** A data packet reaches the opener. */
  lemma OpenerTakes(n: Net, s: Segment)
    requires n.Valid() && EarlyBaseline(n) && Protocol.Inv(n, LAST)
    ensures EarlyBaseline(Step(n, Action(A, Data(s))))
  {
    if n.a.rx.last != 0 {
      BaselineStays(n.Swap(), Action(B, Data(s)));
    }
  }

  /** An acknowledgement means that the opener has a baseline. */
  lemma HeardMeansBaseline(n: Net)
    requires n.Valid() && Protocol.Inv(n, LAST) && Heard(n.b.tx)
    ensures n.a.rx.last != 0
  {
    hide Resequencer.Refines;
    var num: nat :| FIRST <= num <= n.b.tx.lastSent && n.b.tx.ring[Index(num)].Empty?;
    assert num in FromB(n).got;
  }

  lemma AcceptorSendKeeps(n: Net, payload: Payload, now: nat)
    requires n.Valid() && EarlyBaseline(n) && Protocol.Inv(n, LAST)
    requires n.b.sent != [] && n.b.tx.free != [] ==> n.b.tx.lastSent < FIRST + 1 || Heard(n.b.tx)
    requires n.b.sent == [] ==> payload == [] && n.b.tx.lastSent < FIRST
    ensures EarlyBaseline(Step(n, Action(B, Event.Send(payload, now))))
  {
    hide Protocol.Inv;
    if n.b.sent != [] && n.b.tx.free != [] && Heard(n.b.tx) {
      HeardMeansBaseline(n);
    }
  }

  /** Other events leave the opener's receiving side and the acceptor's numbers alone. */
  lemma OthersKeep(n: Net, x: Action)
    requires n.Valid() && EarlyBaseline(n)
    requires !(x.at.A? && x.event.Data?) && !(x.at.B? && x.event.Send?)
    ensures EarlyBaseline(Step(n, x))
  {
  }

  lemma EarlyStep(h: State, m: Move)
    requires h.Valid() && EarlyBaseline(h.net) && Started(h) && Protocol.Inv(h.net, LAST)
    requires Numbers(h, m) ==> h.net.b.tx.lastSent < FIRST + 1 || Heard(h.net.b.tx)
    ensures EarlyBaseline(MoveStep(h, m).net)
  {
    hide EarlyBaseline, Heard, Protocol.Inv;
    if CanMove(h, m) && Underlying(h, m).Some? {
      var x := Underlying(h, m).value;
      if x.at.A? && x.event.Data? {
        OpenerTakes(h.net, x.event.s);
      } else if x.at.B? && x.event.Send? {
        AcceptorSendKeeps(h.net, x.event.payload, x.event.now);
      } else {
        OthersKeep(h.net, x);
      }
    }
  }

  lemma StartedStep(h: State, m: Move)
    requires h.Valid() && Started(h)
    ensures Started(MoveStep(h, m))
  {
  }

  lemma {:induction false} AlwaysEarly(start: nat, moves: seq<Move>)
    requires Polite(1, start, moves) && WithinLifetime(Handshake.After(start, moves).net)
    ensures EarlyBaseline(Handshake.After(start, moves).net) && Started(Handshake.After(start, moves))
  {
    hide Heard;
    if moves != [] {
      var before, m := moves[..|moves| - 1], moves[|moves| - 1];
      var h := Handshake.After(start, before);
      if CanMove(h, m) && Underlying(h, m).Some? {
        StepNumbersGrow(h.net, Underlying(h, m).value);
      }
      AlwaysEarly(start, before);
      Refinement(start, before);
      LifetimeKeeps(ActionsOf(start, before));
      EarlyStep(h, m);
      StartedStep(h, m);
    }
  }

  /** Within the lifetime bound, the accepting side has sent something and nothing is outstanding. */
  predicate Quiet(n: Net) {
    WithinLifetime(n) && Flow.RingEmpty(n.b.tx) && n.b.sent != []
  }

  lemma BaselineTaken(n: Net)
    requires n.Valid() && Protocol.Inv(n, LAST) && Flow.Complete(FromB(n))
    ensures n.a.rx.last != 0
  {
    hide Resequencer.Refines, NonEmpty;
  }

  lemma EarlyComplete(n: Net)
    requires EarlyBaseline(n) && n.a.rx.last != 0 && n.b.sent != [] && Flow.Complete(FromB(n))
    ensures n.a.rx.queue == NonEmpty(n.b.sent)
  {
    CompleteExactly(FromB(n));
    var signaling: seq<Payload> := [[]];
    assert n.b.sent[..n.a.base - FIRST] == if n.a.base == FIRST then [] else signaling;
    assert signaling[..0] == [];
  }

  /** What the accepting application submits, in order. */
  function SubmittedBack(start: nat, moves: seq<Move>): seq<Payload> {
    if moves == [] then []
    else
      var before, m := moves[..|moves| - 1], moves[|moves| - 1];
      if m.AcceptorSends? && Handshake.After(start, before).phase.Live? then SubmittedBack(start, before) + [m.payload]
      else SubmittedBack(start, before)
  }

  /** Before nb__accept the accepting side has sent nothing, then its signaling packet. */
  ghost predicate SentBack(h: State, submitted: seq<Payload>) {
    if h.phase.Listening? then h.net.b == Protocol.Init().b && submitted == [] else h.net.b.sent == [[]] + submitted
  }

  lemma AcceptorSentStep(h: State, m: Move, submitted: seq<Payload>)
    requires h.Valid() && h.net.b.tx.free != [] && SentBack(h, submitted)
    ensures SentBack(MoveStep(h, m), submitted + if m.AcceptorSends? && h.phase.Live? then [m.payload] else [])
  {
  }

  /** The accepting side sends its signaling packet, then exactly what its application submits. */
  lemma {:induction false} SentBackIsSubmitted(start: nat, moves: seq<Move>)
    requires WithinLifetime(Handshake.After(start, moves).net)
    ensures SentBack(Handshake.After(start, moves), SubmittedBack(start, moves))
  {
    hide SentBack;
    if moves == [] {
      OpeningSentBack(start);
    } else {
      var before, m := moves[..|moves| - 1], moves[|moves| - 1];
      MoveNumbersGrow(Handshake.After(start, before), m);
      SentBackIsSubmitted(start, before);
      TimersLeft(start, before);
      AcceptorSentStep(Handshake.After(start, before), m, SubmittedBack(start, before));
      assert SubmittedBack(start, before) + [] == SubmittedBack(start, before);
    }
  }

  lemma OpeningSentBack(start: nat)
    ensures SentBack(Opening(start), [])
  {
  }

  /** The accepting side's data, if it sends at most one packet before its first acknowledgement: once
      nothing is outstanding all of it has been delivered, over any channel. */
  lemma {:induction false} AcceptorEndToEnd(start: nat, moves: seq<Move>)
    requires Polite(1, start, moves) && Quiet(Handshake.After(start, moves).net)
    ensures Handshake.After(start, moves).net.a.rx.queue == NonEmpty(SubmittedBack(start, moves))
  {
    hide Protocol.Inv, Flow.Complete, EarlyBaseline, NonEmpty, Protocol.After, Handshake.After;
    var n, run := Handshake.After(start, moves).net, ActionsOf(start, moves);
    Refinement(start, moves);
    AlwaysEarly(start, moves);
    LifetimeKeeps(run);
    Protocol.SentIsSubmitted(run, B);
    EndToEnd(run, B);
    BaselineTaken(n);
    EarlyComplete(n);
    SentBackIsSubmitted(start, moves);
    SignalingIsEmpty(SubmittedBack(start, moves));
  }

  /** On every polite run that has become quiet, the opener's application has all that was submitted. */
  ghost predicate AlwaysDelivers(k: nat) {
    forall start, moves :: Polite(k, start, moves) && Quiet(Handshake.After(start, moves).net) ==>
      Handshake.After(start, moves).net.a.rx.queue == NonEmpty(SubmittedBack(start, moves))
  }

  lemma LosingIsLoss(h: State, submitted: seq<Payload>)
    requires LosesFirst(h.net) && SentBack(h, submitted)
    ensures h.net.a.rx.queue != NonEmpty(submitted)
  {
    var one: seq<Payload> := [[5]];
    var two: seq<Payload> := [[5], [6]];
    assert submitted == h.net.b.sent[1..] == two;
    assert two[..1] == one && one[..0] == [];
    assert NonEmpty(two) == [[5], [6]];
  }

  /** One packet is the exact number. */
  lemma {:induction false} PoliteExactly(k: nat)
    ensures AlwaysDelivers(k) <==> k <= 1
  {
    hide Quiet, Handshake.After, Polite, SubmittedBack, NonEmpty;
    if k <= 1 {
      forall start, moves | Polite(k, start, moves) && Quiet(Handshake.After(start, moves).net)
        ensures Handshake.After(start, moves).net.a.rx.queue == NonEmpty(SubmittedBack(start, moves))
      {
        PoliteGrows(k, 1, start, moves);
        AcceptorEndToEnd(start, moves);
      }
    } else {
      var h := Handshake.After(0, AllMoves());
      LosingRun();
      SentBackIsSubmitted(0, AllMoves());
      LosingIsLoss(h, SubmittedBack(0, AllMoves()));
      FewIsPolite(k, 0, AllMoves());
      QuietLoss(h.net);
    }
  }

  lemma QuietLoss(n: Net)
    requires LosesFirst(n)
    ensures Quiet(n)
  {
  }
}
