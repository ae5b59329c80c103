/** The sending side of a reliable connection: numbering by the inorder module, the
    32-slot redelivery ring and the retransmission timers of the reliable module. */
module Sender {
  import opened Basics
  import opened Timers

  const REDELIVERY_BUFFER_SIZE: nat := 32
  const REDELIVERY_TIMEOUT_MS: nat := 50

  /** Number of the first packet of every connection. */
  const FIRST: nat := 1011

  /** Highest number of a connection that sends at most 32 packets. */
  const LAST: nat := FIRST + 31

  /** A slot keeps the packet and the timer noted in its redelivery_timer field. */
  datatype Slot = Empty | Held(seg: Segment, timer: nat)

  datatype Tx = Tx(lastSent: nat, ring: seq<Slot>, active: seq<Armed>, free: seq<nat>) {
    predicate Valid() {
      |ring| == REDELIVERY_BUFFER_SIZE
    }
  }

  function Index(num: nat): (j: nat)
    ensures j < REDELIVERY_BUFFER_SIZE
  {
    num % REDELIVERY_BUFFER_SIZE
  }

  function Opened(): (tx: Tx)
    ensures tx.Valid()
  {
    Tx(FIRST - 1, seq(REDELIVERY_BUFFER_SIZE, _ => Empty), [], seq(MAX_TIMER_ALLOCS, i => i))
  }

  function NextSegment(tx: Tx, payload: Payload): Segment {
    Segment(tx.lastSent + 1, payload)
  }

  function Retransmission(id: nat, timeout: nat, seg: Segment): Armed {
    Armed(id, timeout, Some(REDELIVERY_TIMEOUT_MS), seg)
  }

  /** hook_send of the inorder and reliable modules: number, shelve, arm. */
  function Send(tx: Tx, payload: Payload, now: nat): (r: Tx)
    requires tx.Valid() && tx.free != []
    ensures r.Valid()
  {
    var seg := NextSegment(tx, payload);
    var id := tx.free[0];
    Tx(seg.num,
       tx.ring[Index(seg.num) := Held(seg, id)],
       Insert(tx.active, Retransmission(id, now + REDELIVERY_TIMEOUT_MS, seg)),
       tx.free[1..])
  }

  /** hook_ingress of the reliable module on an ACK: whatever is in the slot goes. */
  function Acknowledge(tx: Tx, num: nat): (r: Tx)
    requires tx.Valid()
    ensures r.Valid()
  {
    match tx.ring[Index(num)]
    case Empty => tx
    case Held(_, id) =>
      tx.(ring := tx.ring[Index(num) := Empty], active := Remove(tx.active, id), free := [id] + tx.free)
  }

  /** One check of the timers; redelivery_cb puts each fired timer back. */
  function Tick(tx: Tx, now: nat): (r: Tx)
    requires tx.Valid()
    ensures r.Valid()
  {
    tx.(active := Checked(tx.active, now))
  }

  function Resent(tx: Tx, now: nat): seq<Segment> {
    var due := Due(tx.active, now);
    seq(|due|, i requires 0 <= i < |due| => due[i].arg)
  }

  // ---- Invariants ----

  ghost function PoolOf(tx: Tx): multiset<nat> {
    Ids(tx.active) + multiset(tx.free)
  }

  /** Active and free timers partition the pool: each of the 1024 exactly once, nothing else. */
  ghost predicate Partition(tx: Tx) {
    forall i: nat :: PoolOf(tx)[i] == if i < MAX_TIMER_ALLOCS then 1 else 0
  }

  /** Every armed timer carries the packet of the slot that names it. */
  ghost predicate TimersOwned(tx: Tx)
    requires tx.Valid()
  {
    forall y :: y in tx.active ==>
      y.rearm == Some(REDELIVERY_TIMEOUT_MS) && tx.ring[Index(y.arg.num)] == Held(y.arg, y.id)
  }

  ghost predicate ArmedFor(active: seq<Armed>, id: nat, seg: Segment) {
    exists y :: y in active && y.id == id && y.arg == seg
  }

  /** Every held packet sits in its own slot and has an armed timer carrying it. */
  ghost predicate SlotsBacked(tx: Tx)
    requires tx.Valid()
  {
    forall j :: 0 <= j < REDELIVERY_BUFFER_SIZE && tx.ring[j].Held? ==>
      Index(tx.ring[j].seg.num) == j && ArmedFor(tx.active, tx.ring[j].timer, tx.ring[j].seg)
  }

  ghost predicate TimersMatchSlots(tx: Tx) {
    tx.Valid() && Sorted(tx.active) && Partition(tx) && TimersOwned(tx) && SlotsBacked(tx)
  }

  lemma PartitionDistinct(tx: Tx)
    requires Partition(tx)
    ensures Distinct(tx.active)
    ensures tx.free != [] ==> forall y :: y in tx.active ==> y.id != tx.free[0]
    ensures forall y :: y in tx.active ==> y.id < MAX_TIMER_ALLOCS && y.id !in tx.free
  {
    forall i, j | 0 <= i < j < |tx.active| ensures tx.active[i].id != tx.active[j].id {
      assert PoolOf(tx)[tx.active[i].id] <= 1;
      if tx.active[i].id == tx.active[j].id {
        IdsTwice(tx.active, i, j);
        assert false;
      }
    }
    forall y | y in tx.active ensures y.id < MAX_TIMER_ALLOCS && y.id !in tx.free {
      var i :| 0 <= i < |tx.active| && tx.active[i] == y;
      IdsAt(tx.active, i);
      assert 1 <= PoolOf(tx)[y.id] <= 1;
      assert multiset(tx.free)[y.id] == 0;
    }
  }

  lemma {:induction false} CountRange(n: nat, x: nat)
    ensures multiset(seq(n, i => i))[x] == if x < n then 1 else 0
  {
    if n > 0 {
      CountRange(n - 1, x);
      assert seq(n, i => i) == seq(n - 1, i => i) + [n - 1];
    }
  }

  lemma OpenedMatches()
    ensures TimersMatchSlots(Opened())
  {
    assert Ids(Opened().active) == multiset{};
    forall i: nat ensures PoolOf(Opened())[i] == if i < MAX_TIMER_ALLOCS then 1 else 0 {
      CountRange(MAX_TIMER_ALLOCS, i);
    }
  }

  function Arming(tx: Tx, payload: Payload, now: nat): Armed
    requires tx.free != []
  {
    Retransmission(tx.free[0], now + REDELIVERY_TIMEOUT_MS, NextSegment(tx, payload))
  }

  lemma SendPartition(tx: Tx, payload: Payload, now: nat)
    requires tx.Valid() && tx.free != [] && Partition(tx)
    ensures Partition(Send(tx, payload, now))
  {
    InsertIds(tx.active, Arming(tx, payload, now));
    assert tx.free == [tx.free[0]] + tx.free[1..];
    assert PoolOf(Send(tx, payload, now)) == PoolOf(tx);
  }

  lemma SendTimersOwned(tx: Tx, payload: Payload, now: nat)
    requires tx.Valid() && tx.free != [] && TimersOwned(tx) && tx.ring[Index(tx.lastSent + 1)].Empty?
    ensures TimersOwned(Send(tx, payload, now))
  {
    forall y ensures y in Send(tx, payload, now).active <==> y == Arming(tx, payload, now) || y in tx.active {
      InsertMembers(tx.active, Arming(tx, payload, now), y);
    }
  }

  lemma SendSlotsBacked(tx: Tx, payload: Payload, now: nat)
    requires tx.Valid() && tx.free != [] && SlotsBacked(tx)
    ensures SlotsBacked(Send(tx, payload, now))
  {
    var r, a := Send(tx, payload, now), Arming(tx, payload, now);
    forall j | 0 <= j < REDELIVERY_BUFFER_SIZE && r.ring[j].Held?
      ensures Index(r.ring[j].seg.num) == j && ArmedFor(r.active, r.ring[j].timer, r.ring[j].seg)
    {
      if j == Index(tx.lastSent + 1) {
        InsertMembers(tx.active, a, a);
      } else {
        var y :| y in tx.active && y.id == tx.ring[j].timer && y.arg == tx.ring[j].seg;
        InsertMembers(tx.active, a, y);
      }
    }
  }

  /** Sending into an empty slot keeps slots and timers in bijection. */
  lemma SendMatches(tx: Tx, payload: Payload, now: nat)
    requires TimersMatchSlots(tx) && tx.free != [] && tx.ring[Index(tx.lastSent + 1)].Empty?
    ensures TimersMatchSlots(Send(tx, payload, now))
  {
    SendPartition(tx, payload, now);
    SendTimersOwned(tx, payload, now);
    SendSlotsBacked(tx, payload, now);
    InsertSorted(tx.active, Arming(tx, payload, now), 0);
  }

  /** The timer of an occupied slot is listed. */
  lemma ListedAt(tx: Tx, j: nat) returns (k: nat)
    requires TimersMatchSlots(tx) && j < REDELIVERY_BUFFER_SIZE && tx.ring[j].Held?
    ensures k < |tx.active| && tx.active[k].id == tx.ring[j].timer && tx.active[k].arg == tx.ring[j].seg
  {
    assert ArmedFor(tx.active, tx.ring[j].timer, tx.ring[j].seg);
    var x :| x in tx.active && x.id == tx.ring[j].timer && x.arg == tx.ring[j].seg;
    k :| 0 <= k < |tx.active| && tx.active[k] == x;
  }

  /** Removing the timer of an occupied slot leaves the timers of the others. */
  lemma AcknowledgeMembers(tx: Tx, num: nat, y: Armed)
    requires TimersMatchSlots(tx) && tx.ring[Index(num)].Held?
    ensures y in Acknowledge(tx, num).active <==> y in tx.active && y.id != tx.ring[Index(num)].timer
  {
    PartitionDistinct(tx);
    var k := ListedAt(tx, Index(num));
    RemoveMembers(tx.active, k, y);
  }

  lemma AcknowledgePartition(tx: Tx, num: nat)
    requires TimersMatchSlots(tx) && tx.ring[Index(num)].Held?
    ensures Sorted(Acknowledge(tx, num).active) && Partition(Acknowledge(tx, num))
  {
    var k := ListedAt(tx, Index(num));
    RemoveSorted(tx.active, tx.active[k].id, 0);
    RemoveIds(tx.active, k);
    assert PoolOf(Acknowledge(tx, num)) == PoolOf(tx);
  }

  lemma AcknowledgeSlotsBacked(tx: Tx, num: nat, j: nat)
    requires TimersMatchSlots(tx) && tx.ring[Index(num)].Held?
    requires j < REDELIVERY_BUFFER_SIZE && j != Index(num) && tx.ring[j].Held?
    ensures ArmedFor(Acknowledge(tx, num).active, tx.ring[j].timer, tx.ring[j].seg)
  {
    var Held(seg, id) := tx.ring[Index(num)];
    var i := ListedAt(tx, Index(num));
    var k := ListedAt(tx, j);
    PartitionDistinct(tx);
    assert tx.active[i].arg.num != tx.active[k].arg.num;
    assert i != k && tx.active[k].id != id;
    AcknowledgeMembers(tx, num, tx.active[k]);
  }

  lemma AcknowledgeMatches(tx: Tx, num: nat)
    requires TimersMatchSlots(tx)
    ensures TimersMatchSlots(Acknowledge(tx, num))
  {
    if tx.ring[Index(num)].Held? {
      var r := Acknowledge(tx, num);
      forall y ensures y in r.active <==> y in tx.active && y.id != tx.ring[Index(num)].timer {
        AcknowledgeMembers(tx, num, y);
      }
      AcknowledgePartition(tx, num);
      forall j | 0 <= j < REDELIVERY_BUFFER_SIZE && r.ring[j].Held?
        ensures ArmedFor(r.active, r.ring[j].timer, r.ring[j].seg)
      {
        AcknowledgeSlotsBacked(tx, num, j);
      }
    }
  }

  lemma TickTimersOwned(tx: Tx, now: nat)
    requires tx.Valid() && TimersOwned(tx) && Carried(Tick(tx, now).active, tx.active)
    ensures TimersOwned(Tick(tx, now))
  {
  }

  lemma TickSlotsBacked(tx: Tx, now: nat)
    requires tx.Valid() && SlotsBacked(tx) && Carried(tx.active, Tick(tx, now).active)
    ensures SlotsBacked(Tick(tx, now))
  {
  }

  /** A check resends the due packets and keeps slots and timers in bijection. */
  lemma TickMatches(tx: Tx, now: nat)
    requires TimersMatchSlots(tx)
    ensures TimersMatchSlots(Tick(tx, now)) && AllLater(Tick(tx, now).active, now)
  {
    assert RearmsLater(tx.active) && AllRearm(tx.active);
    CheckedAllLater(tx.active, now);
    CheckedKeeps(tx.active, now);
    assert PoolOf(Tick(tx, now)) == PoolOf(tx);
    TickTimersOwned(tx, now);
    TickSlotsBacked(tx, now);
  }

  // ---- What is sent ----

  /** A send takes the next number, keeps the packet in that number's slot and no other, and arms the first
      free timer for 50 ms later, to be put back every 50 ms. */
  lemma SendExactly(tx: Tx, payload: Payload, now: nat, y: Armed, j: nat)
    requires tx.Valid() && tx.free != [] && j < REDELIVERY_BUFFER_SIZE
    ensures var r, seg := Send(tx, payload, now), Segment(tx.lastSent + 1, payload);
      && r.lastSent == tx.lastSent + 1 && tx.free == [tx.free[0]] + r.free
      && r.ring[j] == (if j == (tx.lastSent + 1) % 32 then Held(seg, tx.free[0]) else tx.ring[j])
      && (y in r.active <==> y in tx.active || y == Armed(tx.free[0], now + 50, Some(50), seg))
  {
    InsertMembers(tx.active, Arming(tx, payload, now), y);
  }

  /** An acknowledgement empties the slot of its number and no other, and gives that slot's timer back. */
  lemma AcknowledgeExactly(tx: Tx, num: nat, y: Armed, j: nat)
    requires TimersMatchSlots(tx) && j < REDELIVERY_BUFFER_SIZE
    ensures var r := Acknowledge(tx, num);
      && r.lastSent == tx.lastSent
      && r.ring[j] == (if j == num % 32 then Empty else tx.ring[j])
      && match tx.ring[num % 32]
         case Empty => r.active == tx.active && r.free == tx.free
         case Held(_, id) => r.free == [id] + tx.free && (y in r.active <==> y in tx.active && y.id != id)
  {
    if tx.ring[Index(num)].Held? {
      AcknowledgeMembers(tx, num, y);
    }
  }

  // ---- What is sent again ----

  /** A held packet whose timer has run out. */
  ghost predicate Overdue(tx: Tx, seg: Segment, now: nat)
    requires tx.Valid()
  {
    exists j, y :: 0 <= j < REDELIVERY_BUFFER_SIZE && y in tx.active &&
      tx.ring[j] == Held(seg, y.id) && y.arg == seg && y.timeout <= now
  }

  /** A check sends the packets of the due timers, in list order, and no others. */
  lemma ResentInOrder(tx: Tx, now: nat)
    requires Sorted(tx.active)
    ensures |Resent(tx, now)| <= |tx.active|
    ensures forall i :: 0 <= i < |tx.active| ==> (i < |Resent(tx, now)| <==> tx.active[i].timeout <= now)
    ensures forall i :: 0 <= i < |Resent(tx, now)| ==> Resent(tx, now)[i] == tx.active[i].arg
  {
    DueIsAllDue(tx.active, now);
  }

  lemma ResentIsOverdue(tx: Tx, now: nat, seg: Segment)
    requires TimersMatchSlots(tx) && seg in Resent(tx, now)
    ensures Overdue(tx, seg, now)
  {
    hide Partition, SlotsBacked, Resent;
    ResentInOrder(tx, now);
    var i :| 0 <= i < |Resent(tx, now)| && Resent(tx, now)[i] == seg;
    var y := tx.active[i];
    assert y in tx.active && y.timeout <= now;
    assert tx.ring[Index(seg.num)] == Held(seg, y.id);
  }

  lemma OverdueIsResent(tx: Tx, now: nat, seg: Segment)
    requires tx.Valid() && Sorted(tx.active) && Overdue(tx, seg, now)
    ensures seg in Resent(tx, now)
  {
    hide Resent;
    ResentInOrder(tx, now);
    var j, y :| 0 <= j < REDELIVERY_BUFFER_SIZE && y in tx.active &&
      tx.ring[j] == Held(seg, y.id) && y.arg == seg && y.timeout <= now;
    var i :| 0 <= i < |tx.active| && tx.active[i] == y;
    assert Resent(tx, now)[i] == seg;
  }

  /** It sends exactly the held packets whose timers have run out. */
  lemma ResentExactly(tx: Tx, now: nat, seg: Segment)
    requires TimersMatchSlots(tx)
    ensures seg in Resent(tx, now) <==> Overdue(tx, seg, now)
  {
    hide Resent, Overdue, Partition, SlotsBacked, TimersOwned;
    if seg in Resent(tx, now) {
      ResentIsOverdue(tx, now, seg);
    }
    if Overdue(tx, seg, now) {
      OverdueIsResent(tx, now, seg);
    }
  }

  // ---- The pool is large enough ----

  ghost function SlotsOf(active: seq<Armed>): set<nat> {
    set i | 0 <= i < |active| :: Index(active[i].arg.num)
  }

  lemma {:induction false} DistinctSlots(active: seq<Armed>)
    requires forall i, j :: 0 <= i < j < |active| ==> Index(active[i].arg.num) != Index(active[j].arg.num)
    ensures |SlotsOf(active)| == |active|
  {
    if active != [] {
      var n := |active| - 1;
      DistinctSlots(active[..n]);
      assert SlotsOf(active) == SlotsOf(active[..n]) + {Index(active[n].arg.num)};
    }
  }

  lemma {:induction false} BelowBound(s: set<nat>, n: nat)
    requires forall x :: x in s ==> x < n
    ensures |s| <= n
  {
    if n > 0 {
      BelowBound(s - {n - 1}, n - 1);
    }
  }

  lemma PoolSize(tx: Tx)
    requires Partition(tx)
    ensures |tx.active| + |tx.free| == MAX_TIMER_ALLOCS
  {
    var all := multiset(seq(MAX_TIMER_ALLOCS, i => i));
    forall i: nat ensures PoolOf(tx)[i] == all[i] {
      CountRange(MAX_TIMER_ALLOCS, i);
    }
    assert PoolOf(tx) == all;
    assert |PoolOf(tx)| == |Ids(tx.active)| + |multiset(tx.free)|;
  }

  /** With slots and timers in bijection at most 32 timers are armed, so the pool of 1024 never runs dry. */
  lemma TimersNeverRunOut(tx: Tx)
    requires TimersMatchSlots(tx)
    ensures |tx.active| <= REDELIVERY_BUFFER_SIZE && |tx.active| + |tx.free| == MAX_TIMER_ALLOCS && tx.free != []
  {
    PartitionDistinct(tx);
    forall i, j | 0 <= i < j < |tx.active|
      ensures Index(tx.active[i].arg.num) != Index(tx.active[j].arg.num)
    {
      assert tx.active[i] in tx.active && tx.active[j] in tx.active;
    }
    DistinctSlots(tx.active);
    BelowBound(SlotsOf(tx.active), REDELIVERY_BUFFER_SIZE);
    PoolSize(tx);
  }
}
