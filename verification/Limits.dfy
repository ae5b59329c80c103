/** The lifetime bound is exact: with a 33rd sequence number some channel makes the protocol
    forget a packet and report nothing outstanding. */
module Limits {
  import opened Basics
  import opened Timers
  import opened Sender
  import opened Resequencer
  import opened Protocol
  import Flow

  ghost predicate Dependable(f: Flow.Flow)
    requires f.tx.Valid()
  {
    && Flow.NothingForgotten(f)
    && (Flow.RingEmpty(f.tx) && f.sent != [] ==> Flow.Complete(f))
  }

  predicate NumbersUpTo(n: Net, limit: nat) {
    n.a.tx.lastSent <= limit && n.b.tx.lastSent <= limit
  }

  // ---- A run that overwrites a slot ----

  const MESSAGE: Payload := [7]

  function Number(i: nat): nat {
    FIRST + i
  }

  /** Send 33 packets; number 1043 takes the slot of number 1011. */
  function Sends(k: nat): seq<Action> {
    if k == 0 then [] else Sends(k - 1) + [Action(A, Event.Send(MESSAGE, 0))]
  }

  /** Then deliver and acknowledge the first j numbers, one after the other. */
  function Rounds(j: nat): seq<Action> {
    if j == 0 then Sends(33)
    else Rounds(j - 1) + [Action(B, Data(Segment(Number(j - 1), MESSAGE))), Action(A, Ack(Number(j - 1)))]
  }

  function Messages(k: nat): seq<Payload> {
    seq(k, _ => MESSAGE)
  }

  lemma {:induction false} AfterSnoc(run: seq<Action>, x: Action)
    ensures After(run + [x]) == Step(After(run), x)
  {
  }

  ghost predicate Sending(n: Net, k: nat) {
    && n.Valid()
    && n.a.tx.lastSent == FIRST - 1 + k && |n.a.tx.free| + k == MAX_TIMER_ALLOCS
    && n.a.sent == Messages(k)
    && (forall i :: 0 <= i < k ==> Segment(Number(i), MESSAGE) in n.ab.datas)
    && n.b == Init().b
  }

  lemma SendProgress(n: Net, k: nat)
    requires Sending(n, k) && k < 33
    ensures Sending(Step(n, Action(A, Event.Send(MESSAGE, 0))), k + 1)
  {
  }

  lemma {:induction false} AfterSends(k: nat)
    requires k <= 33
    ensures Sending(After(Sends(k)), k)
  {
    if k == 0 {
      assert Messages(0) == [];
    } else {
      AfterSends(k - 1);
      AfterSnoc(Sends(k - 1), Action(A, Event.Send(MESSAGE, 0)));
      SendProgress(After(Sends(k - 1)), k - 1);
    }
  }

  /** State after j rounds: a has 33 numbers out, b has the first j, their slots are clear. */
  ghost predicate Progress(n: Net, j: nat) {
    && n.Valid()
    && n.a.tx.lastSent == Number(32) && n.b.tx.lastSent == FIRST - 1
    && n.a.sent == Messages(33)
    && (forall i :: 0 <= i < 33 ==> Segment(Number(i), MESSAGE) in n.ab.datas)
    && (forall i :: 0 <= i < j ==> n.a.tx.ring[Index(Number(i))].Empty?)
    && (forall q :: q in n.b.got ==> q < Number(j))
    && n.b.rx == Rx(if j == 0 then 0 else Number(j - 1), 0, Established().ring, Messages(j))
    && n.b.base == if j == 0 then 0 else FIRST
  }

  lemma InOrderArrival(j: nat)
    ensures Ingress(Rx(if j == 0 then 0 else Number(j - 1), 0, Established().ring, Messages(j)), Segment(Number(j), MESSAGE))
         == Rx(Number(j), 0, Established().ring, Messages(j + 1))
  {
  }

  lemma RoundProgress(n: Net, j: nat)
    requires Progress(n, j) && j < 32
    ensures var delivered := Step(n, Action(B, Data(Segment(Number(j), MESSAGE))));
      Progress(Step(delivered, Action(A, Ack(Number(j)))), j + 1)
  {
    InOrderArrival(j);
    var delivered := Step(n, Action(B, Data(Segment(Number(j), MESSAGE))));
    assert Number(j) in delivered.ba.acks;
    assert delivered.a == n.a && delivered.ab == n.ab;
  }

  lemma AllSent(n: Net)
    requires Sending(n, 33)
    ensures Progress(n, 0)
  {
  }

  lemma AfterRound(j: nat)
    ensures var data, ack := Action(B, Data(Segment(Number(j), MESSAGE))), Action(A, Ack(Number(j)));
      After(Rounds(j + 1)) == Step(Step(After(Rounds(j)), data), ack)
  {
    var data, ack := Action(B, Data(Segment(Number(j), MESSAGE))), Action(A, Ack(Number(j)));
    AfterSnoc(Rounds(j), data);
    AfterSnoc(Rounds(j) + [data], ack);
    assert Rounds(j + 1) == Rounds(j) + [data] + [ack];
  }

  lemma {:induction false} AfterRounds(j: nat)
    requires j <= 32
    ensures Progress(After(Rounds(j)), j)
  {
    hide Progress;
    if j == 0 {
      AfterSends(33);
      AllSent(After(Sends(33)));
    } else {
      AfterRounds(j - 1);
      AfterRound(j - 1);
      RoundProgress(After(Rounds(j - 1)), j - 1);
    }
  }

  lemma {:induction false} NonEmptyMessages(k: nat)
    ensures NonEmpty(Messages(k)) == Messages(k)
  {
    if k > 0 {
      assert Messages(k)[..k - 1] == Messages(k - 1);
      NonEmptyMessages(k - 1);
    }
  }

  /** The slots of the first 32 numbers are all the slots. */
  lemma AllSlotsClear(n: Net)
    requires Progress(n, 32)
    ensures Flow.RingEmpty(n.a.tx)
  {
    forall i | 0 <= i < 32 ensures n.a.tx.ring[i].Empty? {
      var m := if i < 19 then i + 13 else i - 19;
      assert Index(Number(m)) == i;
    }
  }

  lemma LastNeverCame(n: Net)
    requires Progress(n, 32)
    ensures NumbersUpTo(n, LAST + 1) && n.b.base == FIRST && n.a.sent == Messages(33) && n.b.rx.queue == Messages(32)
    ensures Number(32) !in n.b.got
  {
  }

  /** After all rounds nothing is outstanding, yet number 1043 was never received. */
  lemma ThirtyThirdLost()
    ensures var n := After(Rounds(32));
      && NumbersUpTo(n, LAST + 1)
      && Flow.RingEmpty(n.a.tx) && n.a.sent != []
      && !Flow.Complete(FromA(n))
  {
    hide Progress, Rounds, NumbersUpTo, Flow.RingEmpty, Messages, NonEmpty;
    AfterRounds(32);
    var n := After(Rounds(32));
    AllSlotsClear(n);
    LastNeverCame(n);
    NonEmptyMessages(33);
    MessageCount(32);
    MessageCount(33);
    assert n.a.sent[0..] == n.a.sent;
  }

  lemma MessageCount(k: nat)
    ensures |Messages(k)| == k
  {
  }

  lemma Undependable(n: Net)
    requires n.Valid() && Flow.RingEmpty(n.a.tx) && n.a.sent != [] && !Flow.Complete(FromA(n))
    ensures !Dependable(Direction(n, A))
  {
  }

  /** Within the bound both promises follow from the theorems. */
  lemma {:induction false} WithinBound(run: seq<Action>, from: Side)
    requires WithinLifetime(After(run))
    ensures Dependable(Direction(After(run), from))
  {
    hide After, Flow.NothingForgotten, Flow.RingEmpty, Flow.Complete;
    LifetimeKeeps(run);
    if Flow.RingEmpty(Direction(After(run), from).tx) && Direction(After(run), from).sent != [] {
      SentIsSubmitted(run, from);
      EndToEnd(run, from);
    }
  }

  /** Both promises hold on every run whose numbers stay up to `limit` if and only if that leaves
      at most 32 sequence numbers. */
  lemma LifetimeIsExact(limit: nat)
    ensures (forall run, from ::
               NumbersUpTo(After(run), limit) ==> Dependable(Direction(After(run), from))) <==> limit <= LAST
  {
    hide After, Rounds, Dependable;
    if limit <= LAST {
      forall run, from | NumbersUpTo(After(run), limit)
        ensures Dependable(Direction(After(run), from))
      {
        WithinBound(run, from);
      }
    } else {
      ThirtyThirdLost();
      Undependable(After(Rounds(32)));
      assert NumbersUpTo(After(Rounds(32)), limit);
    }
  }
}
