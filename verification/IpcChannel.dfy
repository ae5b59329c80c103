/** The IPC transport as a concrete channel: it may drop a packet, or hold one back until the
    next packet has gone out. */
module IpcChannel {
  import opened Basics
  import opened Resequencer
  import Window

  /** The packet held back, if any, and everything written to the socket. */
  datatype Link = Link(held: Option<Segment>, written: seq<Segment>)

  function Held(l: Link): seq<Segment> {
    if l.held.Some? then [l.held.value] else []
  }

  /** nb__send_packet; the two choices stand for the calls of rand(). */
  function Transmit(l: Link, p: Segment, drop: bool, hold: bool): Link {
    if drop then l
    else if l.held.None? && hold then Link(Some(p), l.written)
    else Link(None, l.written + [p] + Held(l))
  }

  /** nb__ipc_deinit */
  function Flush(l: Link): Link {
    Link(None, l.written + Held(l))
  }

  class Ipc {
    var outOfOrderStore: Segment
    var outOfOrderLen: nat
    var socket: seq<Segment>

    ghost function View(): Link
      reads this
    {
      Link(if outOfOrderLen != 0 then Some(outOfOrderStore) else None, socket)
    }

    constructor ()
      ensures View() == Link(None, [])
    {
      outOfOrderStore, outOfOrderLen, socket := Segment(0, []), 0, [];
    }

    /** nb__send_packet for a packet of len > 0 bytes; each roll is rand() % 5. */
    method SendPacket(p: Segment, len: nat, simulateDrop: bool, dropRoll: nat, simulateOoo: bool, oooRoll: nat)
      requires len > 0
      modifies this
      ensures View() == Transmit(old(View()), p, simulateDrop && dropRoll == 0, simulateOoo && oooRoll == 0)
    {
      if simulateDrop && dropRoll == 0 {
        return;
      }
      if outOfOrderLen == 0 && simulateOoo {
        if oooRoll == 0 {
          outOfOrderLen := len;
          outOfOrderStore := p;
          return;
        }
      }
      socket := socket + [p];
      if outOfOrderLen != 0 {
        socket := socket + [outOfOrderStore];
        outOfOrderLen := 0;
      }
    }

    method Deinit()
      modifies this
      ensures View() == Flush(old(View()))
    {
      if outOfOrderLen != 0 {
        socket := socket + [outOfOrderStore];
        outOfOrderLen := 0;
      }
    }
  }

  // ---- Conservation ----

  datatype Call = Call(p: Segment, drop: bool, hold: bool)

  function Calls(cs: seq<Call>): Link {
    if cs == [] then Link(None, [])
    else
      var c := cs[|cs| - 1];
      Transmit(Calls(cs[..|cs| - 1]), c.p, c.drop, c.hold)
  }

  function Passed(cs: seq<Call>): seq<Segment> {
    if cs == [] then []
    else
      var c := cs[|cs| - 1];
      Passed(cs[..|cs| - 1]) + if c.drop then [] else [c.p]
  }

  /** After the final flush, what was written is exactly what was not dropped, once each. */
  lemma {:induction false} NothingAdded(cs: seq<Call>)
    ensures multiset(Calls(cs).written) + multiset(Held(Calls(cs))) == multiset(Passed(cs))
    ensures multiset(Flush(Calls(cs)).written) == multiset(Passed(cs))
  {
    if cs != [] {
      NothingAdded(cs[..|cs| - 1]);
    }
  }

  // ---- Reordering alone: what the hold_forever receiver makes of it ----

  function Numbered(ps: seq<Payload>, first: nat, i: nat): Segment
    requires i < |ps|
  {
    Segment(first + i, ps[i])
  }

  /** Send the first n payloads, numbered from `first`, without drops. */
  function Sent(ps: seq<Payload>, first: nat, holds: seq<bool>, n: nat): Link
    requires n <= |ps| == |holds|
  {
    if n == 0 then Link(None, [])
    else Transmit(Sent(ps, first, holds, n - 1), Numbered(ps, first, n - 1), false, holds[n - 1])
  }

  /** Everything up to `last` has been dealt with: no later packet is waiting in the ring. Slots may
      still hold old packets. */
  predicate AtRest(rx: Rx, last: nat, queue: seq<Payload>) {
    rx.Valid() && rx.last == last != 0 && rx.maxOoo <= last && rx.queue == queue
  }

  lemma InTurn(rx: Rx, last: nat, queue: seq<Payload>, p: Payload)
    requires AtRest(rx, last, queue)
    ensures AtRest(Ingress(rx, Segment(last + 1, p)), last + 1, Enqueue(queue, p))
  {
  }

  lemma FirstEver(num: nat, p: Payload)
    requires num > 0
    ensures AtRest(Ingress(Established(), Segment(num, p)), num, Enqueue([], p))
  {
  }

  /** A late packet below the last delivered number is shelved and never seen again. */
  lemma TooLate(rx: Rx, last: nat, queue: seq<Payload>, s: Segment)
    requires AtRest(rx, last, queue) && s.num <= last
    ensures AtRest(Ingress(rx, s), last, queue)
  {
  }

  lemma Swapped(rx: Rx, last: nat, queue: seq<Payload>, p: Payload, q: Payload)
    requires AtRest(rx, last, queue)
    ensures AtRest(Ingress(Ingress(rx, Segment(last + 2, q)), Segment(last + 1, p)), last + 2,
                   Enqueue(Enqueue(queue, p), q))
  {
    var waiting := Ingress(rx, Segment(last + 2, q));
    assert waiting.maxOoo == last + 2 && waiting.ring[SlotOf(last + 2)] == Some(Segment(last + 2, q));
    var taken := Rx(last + 1, last + 2, waiting.ring, Enqueue(queue, p));
    var next := Rx(last + 2, last + 2, taken.ring[SlotOf(last + 2) := None], Enqueue(taken.queue, q));
    assert Drain(taken, last + 2) == Drain(next, last + 3) == next;
  }

  /** Index of the first payload the application gets: the first packet is lost if it was held back
      and another one went out before it. */
  function Baseline(holds: seq<bool>): nat {
    if |holds| > 1 && holds[0] then 1 else 0
  }

  lemma NonEmptyNext(ps: seq<Payload>, b: nat, n: nat)
    requires b <= n < |ps|
    ensures NonEmpty(ps[b..n + 1]) == Enqueue(NonEmpty(ps[b..n]), ps[n]) && NonEmpty([]) == []
  {
    assert ps[b..n + 1][..n - b] == ps[b..n];
  }

  /** The receiver is done with the first k packets and has delivered them from index b on. */
  ghost predicate Delivered(ps: seq<Payload>, first: nat, b: nat, written: seq<Segment>, k: nat) {
    b < k <= |ps| && AtRest(Window.Receive(written), first + k - 1, NonEmpty(ps[b..k]))
  }

  lemma StartsInTurn(ps: seq<Payload>, first: nat)
    requires ps != [] && first > 0
    ensures Delivered(ps, first, 0, [] + [Numbered(ps, first, 0)], 1)
  {
    hide Ingress, AtRest;
    Window.Snoc([], Numbered(ps, first, 0), 0, 0);
    FirstEver(first, ps[0]);
    NonEmptyNext(ps, 0, 0);
    assert ps[0..0] == [];
  }

  lemma StartsSwapped(ps: seq<Payload>, first: nat)
    requires |ps| > 1 && first > 0
    ensures Delivered(ps, first, 1, [] + [Numbered(ps, first, 1)] + [Numbered(ps, first, 0)], 2)
  {
    hide Ingress, AtRest;
    var p, h := Numbered(ps, first, 1), Numbered(ps, first, 0);
    Window.Snoc([], p, 0, 0);
    Window.Snoc([] + [p], h, 0, 0);
    FirstEver(first + 1, ps[1]);
    TooLate(Ingress(Established(), p), first + 1, Enqueue([], ps[1]), h);
    NonEmptyNext(ps, 1, 1);
    assert ps[1..1] == [];
  }

  lemma GoesInTurn(ps: seq<Payload>, first: nat, b: nat, written: seq<Segment>, k: nat)
    requires Delivered(ps, first, b, written, k) && k < |ps|
    ensures Delivered(ps, first, b, written + [Numbered(ps, first, k)], k + 1)
  {
    hide Ingress, AtRest, NonEmpty;
    Window.Snoc(written, Numbered(ps, first, k), 0, 0);
    InTurn(Window.Receive(written), first + k - 1, NonEmpty(ps[b..k]), ps[k]);
    NonEmptyNext(ps, b, k);
  }

  lemma GoesSwapped(ps: seq<Payload>, first: nat, b: nat, written: seq<Segment>, k: nat)
    requires Delivered(ps, first, b, written, k) && k + 1 < |ps|
    ensures Delivered(ps, first, b, written + [Numbered(ps, first, k + 1)] + [Numbered(ps, first, k)], k + 2)
  {
    hide Ingress, AtRest, NonEmpty;
    Window.Snoc(written, Numbered(ps, first, k + 1), 0, 0);
    Window.Snoc(written + [Numbered(ps, first, k + 1)], Numbered(ps, first, k), 0, 0);
    Swapped(Window.Receive(written), first + k - 1, NonEmpty(ps[b..k]), ps[k], ps[k + 1]);
    NonEmptyNext(ps, b, k);
    NonEmptyNext(ps, b, k + 1);
  }

  /** The link after n packets: all written, or the last one still held back. */
  ghost predicate Progress(ps: seq<Payload>, first: nat, b: nat, l: Link, n: nat)
    requires 0 < n <= |ps|
  {
    match l.held
    case None => Delivered(ps, first, b, l.written, n)
    case Some(h) => h == Numbered(ps, first, n - 1) && if n == 1 then l.written == [] else Delivered(ps, first, b, l.written, n - 1)
  }

  lemma ProgressStep(ps: seq<Payload>, first: nat, b: nat, l: Link, n: nat, hold: bool)
    requires 0 < n < |ps| && first > 0 && Progress(ps, first, b, l, n) && (n == 1 && l.held.Some? ==> b == 1)
    ensures Progress(ps, first, b, Transmit(l, Numbered(ps, first, n), false, hold), n + 1)
  {
    hide Delivered;
    if l.held.Some? {
      if n == 1 {
        StartsSwapped(ps, first);
      } else {
        GoesSwapped(ps, first, b, l.written, n - 1);
      }
    } else if !hold {
      GoesInTurn(ps, first, b, l.written, n);
      assert l.written + [Numbered(ps, first, n)] + [] == l.written + [Numbered(ps, first, n)];
    }
  }

  lemma {:induction false} SentProgress(ps: seq<Payload>, first: nat, holds: seq<bool>, n: nat)
    requires 0 < n <= |ps| == |holds| && |ps| > 1 && first > 0
    ensures Progress(ps, first, Baseline(holds), Sent(ps, first, holds, n), n)
    ensures n == 1 ==> (Sent(ps, first, holds, n).held.Some? <==> holds[0])
  {
    hide Delivered;
    if n == 1 {
      assert Sent(ps, first, holds, 0) == Link(None, []);
      StartsInTurn(ps, first);
      assert [] + [Numbered(ps, first, 0)] + [] == [] + [Numbered(ps, first, 0)];
    } else {
      SentProgress(ps, first, holds, n - 1);
      ProgressStep(ps, first, Baseline(holds), Sent(ps, first, holds, n - 1), n - 1, holds[n - 1]);
    }
  }

  lemma FlushDelivers(ps: seq<Payload>, first: nat, b: nat, l: Link)
    requires |ps| > 1 && Progress(ps, first, b, l, |ps|)
    ensures Delivered(ps, first, b, Flush(l).written, |ps|)
  {
    hide Delivered;
    if l.held.Some? {
      GoesInTurn(ps, first, b, l.written, |ps| - 1);
    } else {
      assert l.written + [] == l.written;
    }
  }

  /** A single packet goes out in time, at the latest with the flush. */
  lemma {:induction false} SingleDelivers(ps: seq<Payload>, first: nat, holds: seq<bool>)
    requires |ps| == |holds| == 1 && first > 0
    ensures Delivered(ps, first, 0, Flush(Sent(ps, first, holds, 1)).written, 1)
  {
    hide Delivered;
    StartsInTurn(ps, first);
    assert Sent(ps, first, holds, 0) == Link(None, []);
    assert [] + [Numbered(ps, first, 0)] + [] == [] + [Numbered(ps, first, 0)];
  }

  /** Reordering without loss, for runs of any length and any choices of what to hold back: after the
      flush the application has everything, except a first packet held back behind a second one. */
  lemma {:induction false} ReorderingDelivers(ps: seq<Payload>, first: nat, holds: seq<bool>)
    requires |ps| == |holds| && first > 0
    ensures Window.Receive(Flush(Sent(ps, first, holds, |ps|)).written).queue == NonEmpty(ps[Baseline(holds)..])
  {
    assert ps[Baseline(holds)..|ps|] == ps[Baseline(holds)..];
    if ps == [] {
      assert Flush(Sent(ps, first, holds, 0)).written == [];
    } else {
      hide NonEmpty, Sent, Progress, Flush;
      if |ps| == 1 {
        SingleDelivers(ps, first, holds);
      } else {
        SentProgress(ps, first, holds, |ps|);
        FlushDelivers(ps, first, Baseline(holds), Sent(ps, first, holds, |ps|));
      }
    }
  }
}
