/** The hold_forever receiver of the inorder module: a ring of 32 shelved packets
    that stands for an unbounded set of sequence numbers. */
module Resequencer {
  import opened Basics

  const INORDER_BUFFER_SIZE: nat := 32

  /** What a connection keeps for its receiving side. `queue` is every payload
      ever inserted in the input queue, in order. */
  datatype Rx = Rx(last: nat, maxOoo: nat, ring: seq<Option<Segment>>, queue: seq<Payload>) {
    predicate Valid() {
      |ring| == INORDER_BUFFER_SIZE
    }
  }

  /** State left by hook_establish; last == 0 accepts any first packet. */
  function Established(): (rx: Rx) {
    Rx(0, 0, seq(INORDER_BUFFER_SIZE, _ => None), [])
  }

  function Enqueue(queue: seq<Payload>, p: Payload): seq<Payload> {
    if p == [] then queue else queue + [p]
  }

  function SlotOf(q: nat): (j: nat)
    ensures j < INORDER_BUFFER_SIZE
  {
    q % INORDER_BUFFER_SIZE
  }

  /** Deliver shelved packets from number i on, stopping at the first empty slot. */
  function Drain(rx: Rx, i: nat): (r: Rx)
    requires rx.Valid()
    ensures r.Valid()
    decreases rx.maxOoo + 1 - i
  {
    if i <= rx.maxOoo && rx.ring[SlotOf(i)].Some? then
      var index := SlotOf(i);
      Drain(Rx(i, rx.maxOoo, rx.ring[index := None], Enqueue(rx.queue, rx.ring[index].value.payload)), i + 1)
    else rx
  }

  predicate Accepts(rx: Rx, s: Segment) {
    rx.last == 0 || s.num == rx.last + 1
  }

  /** One run of inorder_module::hook_ingress; the hook continues exactly when Accepts holds. */
  function Ingress(rx: Rx, s: Segment): (r: Rx)
    requires rx.Valid()
    ensures r.Valid()
  {
    if Accepts(rx, s) then
      Drain(Rx(s.num, rx.maxOoo, rx.ring, Enqueue(rx.queue, s.payload)), s.num + 1)
    else
      Rx(rx.last, Max(rx.maxOoo, s.num), rx.ring[SlotOf(s.num) := Some(s)], rx.queue)
  }

  // ---- The set-based resequencer the ring stands for ----

  /** Non-empty payloads numbered lo..hi, in order. */
  ghost function Delivery(log: map<nat, Payload>, lo: nat, hi: nat): seq<Payload>
    requires forall k :: lo <= k <= hi ==> k in log
    decreases hi
  {
    if hi < lo then []
    else if hi == lo then Enqueue([], log[hi])
    else Enqueue(Delivery(log, lo, hi - 1), log[hi])
  }

  /** hi closes the maximal gap-free run of received numbers that starts at lo. */
  ghost predicate IsRunEnd(log: map<nat, Payload>, lo: nat, hi: nat) {
    && lo <= hi
    && (forall k :: lo <= k <= hi ==> k in log)
    && hi + 1 !in log
  }

  /** Every received number above `last` sits in its own slot, with its payload. */
  ghost predicate Shelved(rx: Rx, log: map<nat, Payload>)
    requires rx.Valid()
  {
    forall q :: q in log && q > rx.last ==>
      q <= rx.maxOoo && rx.ring[SlotOf(q)] == Some(Segment(q, log[q]))
  }

  /** A slot holds either a received number above `last` or a dead one, whose slot no
      number up to `limit` will ever look up again. */
  ghost predicate Accounted(rx: Rx, limit: nat, log: map<nat, Payload>)
    requires rx.Valid()
  {
    forall j :: 0 <= j < INORDER_BUFFER_SIZE && rx.ring[j].Some? ==>
      var q := rx.ring[j].value.num;
      SlotOf(q) == j && if q > rx.last then q in log else q + INORDER_BUFFER_SIZE > limit
  }

  /** The refinement relation, except that the run may still be open. */
  ghost predicate Pending(rx: Rx, base: nat, limit: nat, log: map<nat, Payload>) {
    && rx.Valid()
    && 0 < base <= rx.last <= limit
    && rx.maxOoo <= limit
    && (forall k :: base <= k <= rx.last ==> k in log)
    && Shelved(rx, log)
    && Accounted(rx, limit, log)
    && rx.queue == Delivery(log, base, rx.last)
  }

  ghost predicate Within(log: map<nat, Payload>, top: nat) {
    forall q :: q in log ==> q <= top
  }

  /** The ring refines the log: delivery has reached the end of the maximal run. */
  ghost predicate Refines(rx: Rx, base: nat, limit: nat, log: map<nat, Payload>) {
    && Pending(rx, base, limit, log)
    && IsRunEnd(log, base, rx.last)
    && Within(log, rx.last + 33)
  }

  /** Arrivals the ring copes with: the first one, one at most 33 ahead of the last
      delivered number, or an old one whose slot no later number up to limit shares. */
  predicate Safe(rx: Rx, s: Segment, limit: nat) {
    && 0 < s.num <= limit
    && (rx.last == 0 || rx.last < s.num <= rx.last + 33 || (s.num <= rx.last && s.num + INORDER_BUFFER_SIZE > limit))
  }

  lemma {:induction false} DeliveryAgrees(log: map<nat, Payload>, log': map<nat, Payload>, lo: nat, hi: nat)
    requires forall k :: lo <= k <= hi ==> k in log && k in log' && log[k] == log'[k]
    ensures Delivery(log, lo, hi) == Delivery(log', lo, hi)
    decreases hi
  {
    if lo < hi {
      DeliveryAgrees(log, log', lo, hi - 1);
    }
  }

  lemma SlotsDiffer(a: nat, b: nat)
    requires a < b < a + INORDER_BUFFER_SIZE
    ensures SlotOf(a) != SlotOf(b)
  {
  }

  /** An occupied slot looked up by the drain holds exactly the number looked up. */
  lemma LookupIsExact(rx: Rx, base: nat, limit: nat, log: map<nat, Payload>)
    requires Pending(rx, base, limit, log) && Within(log, rx.last + 32)
    requires rx.last + 1 <= rx.maxOoo && rx.ring[SlotOf(rx.last + 1)].Some?
    ensures rx.last + 1 in log
    ensures rx.ring[SlotOf(rx.last + 1)] == Some(Segment(rx.last + 1, log[rx.last + 1]))
  {
    hide SlotOf;
    var q := rx.ring[SlotOf(rx.last + 1)].value.num;
    if q < rx.last + 1 {
      SlotsDiffer(q, rx.last + 1);
    } else if q > rx.last + 1 {
      SlotsDiffer(rx.last + 1, q);
    }
  }

  /** State after the drain has delivered the number following `last`. */
  function Advance(rx: Rx): (r: Rx)
    requires rx.Valid() && rx.ring[SlotOf(rx.last + 1)].Some?
    ensures r.Valid()
  {
    var index := SlotOf(rx.last + 1);
    Rx(rx.last + 1, rx.maxOoo, rx.ring[index := None], Enqueue(rx.queue, rx.ring[index].value.payload))
  }

  lemma AdvancePending(rx: Rx, base: nat, limit: nat, log: map<nat, Payload>)
    requires Pending(rx, base, limit, log) && Within(log, rx.last + 32)
    requires rx.last + 1 <= rx.maxOoo && rx.ring[SlotOf(rx.last + 1)].Some?
    ensures Pending(Advance(rx), base, limit, log)
  {
    LookupIsExact(rx, base, limit, log);
    forall q | q in log && q > rx.last + 1
      ensures SlotOf(q) != SlotOf(rx.last + 1)
    {
      SlotsDiffer(rx.last + 1, q);
    }
  }

  /** Draining from the number after `last` closes the run again. */
  lemma {:induction false} DrainRefines(rx: Rx, base: nat, limit: nat, log: map<nat, Payload>)
    requires Pending(rx, base, limit, log) && Within(log, rx.last + 32)
    ensures Refines(Drain(rx, rx.last + 1), base, limit, log)
    decreases rx.maxOoo + 1 - rx.last
  {
    hide Delivery;
    if rx.last + 1 <= rx.maxOoo && rx.ring[SlotOf(rx.last + 1)].Some? {
      AdvancePending(rx, base, limit, log);
      DrainRefines(Advance(rx), base, limit, log);
    }
  }

  /** The log after one arrival: an old number adds nothing. */
  ghost function Logged(rx: Rx, log: map<nat, Payload>, s: Segment): map<nat, Payload> {
    if s.num > rx.last then log[s.num := s.payload] else log
  }

  lemma FirstArrival(s: Segment, limit: nat)
    requires 0 < s.num <= limit
    ensures Refines(Ingress(Established(), s), s.num, limit, map[s.num := s.payload])
  {
  }

  /** Accepting the next number opens the run; the drain closes it. */
  lemma AcceptPending(rx: Rx, s: Segment, base: nat, limit: nat, log: map<nat, Payload>)
    requires Refines(rx, base, limit, log) && s.num == rx.last + 1 <= limit
    ensures Pending(Rx(s.num, rx.maxOoo, rx.ring, Enqueue(rx.queue, s.payload)), base, limit, log[s.num := s.payload])
  {
    DeliveryAgrees(log, log[s.num := s.payload], base, rx.last);
  }

  /** Shelving touches no other pending number, fresh or old. */
  lemma ShelvePending(rx: Rx, s: Segment, base: nat, limit: nat, log: map<nat, Payload>)
    requires Refines(rx, base, limit, log) && Safe(rx, s, limit) && s.num != rx.last + 1
    ensures Pending(Ingress(rx, s), base, limit, Logged(rx, log, s))
  {
    hide SlotOf, Delivery;
    var log' := Logged(rx, log, s);
    DeliveryAgrees(log, log', base, rx.last);
    forall q | q in log && q > rx.last && q != s.num
      ensures SlotOf(q) != SlotOf(s.num)
    {
      if s.num <= rx.last {
        assert q <= limit < s.num + INORDER_BUFFER_SIZE;
        SlotsDiffer(s.num, q);
      } else if s.num < q {
        SlotsDiffer(s.num, q);
      } else {
        SlotsDiffer(q, s.num);
      }
    }
  }

  /** One safe arrival keeps the refinement, whether it is delivered or shelved. */
  lemma IngressRefines(rx: Rx, s: Segment, base: nat, limit: nat, log: map<nat, Payload>)
    requires Refines(rx, base, limit, log) && Safe(rx, s, limit)
    ensures Refines(Ingress(rx, s), base, limit, Logged(rx, log, s))
  {
    hide Delivery, Shelved, Accounted;
    if Accepts(rx, s) {
      AcceptPending(rx, s, base, limit, log);
      DrainRefines(Rx(s.num, rx.maxOoo, rx.ring, Enqueue(rx.queue, s.payload)), base, limit, log[s.num := s.payload]);
    } else {
      ShelvePending(rx, s, base, limit, log);
    }
  }
}
