/** All connections of a process arm their retransmissions from one pool of 1024 timers: what that
    pool keeps, and for how many connections it is large enough. */
module SharedPool {
  import opened Basics
  import opened Timers
  import opened Sender

  /** What is private to a connection's sending side. */
  datatype Own = Own(lastSent: nat, ring: seq<Slot>)

  datatype Process = Process(conns: seq<Own>, active: seq<Armed>, free: seq<nat>) {
    predicate Valid() {
      forall c :: 0 <= c < |conns| ==> |conns[c].ring| == REDELIVERY_BUFFER_SIZE
    }

    /** The sending side of connection c, with the timers of the whole process. */
    function View(c: nat): (tx: Tx)
      requires Valid() && c < |conns|
      ensures tx.Valid()
    {
      Tx(conns[c].lastSent, conns[c].ring, active, free)
    }

    /** The process after connection c has made a step. */
    function With(c: nat, tx: Tx): (p: Process)
      requires Valid() && c < |conns| && tx.Valid()
      ensures p.Valid() && |p.conns| == |conns| && p.View(c) == tx
      ensures forall d :: 0 <= d < |conns| && d != c ==> p.conns[d] == conns[d]
    {
      Process(conns[c := Own(tx.lastSent, tx.ring)], tx.active, tx.free)
    }
  }

  function Init(count: nat): (p: Process)
    ensures p.Valid() && |p.conns| == count
  {
    Process(seq(count, _ => Own(Opened().lastSent, Opened().ring)), Opened().active, Opened().free)
  }

  datatype Event = SendOn(c: nat, payload: Payload, now: nat) | AckOn(c: nat, num: nat) | CheckAll(now: nat)

  /** One step; a send without a free timer is not made. */
  function Step(p: Process, e: Event): (r: Process)
    requires p.Valid()
    ensures r.Valid() && |r.conns| == |p.conns|
  {
    match e
    case SendOn(c, payload, now) =>
      if c < |p.conns| && p.free != [] then p.With(c, Send(p.View(c), payload, now)) else p
    case AckOn(c, num) => if c < |p.conns| then p.With(c, Acknowledge(p.View(c), num)) else p
    case CheckAll(now) => p.(active := Checked(p.active, now))
  }

  function After(count: nat, run: seq<Event>): (p: Process)
    ensures p.Valid() && |p.conns| == count
  {
    if run == [] then Init(count) else Step(After(count, run[..|run| - 1]), run[|run| - 1])
  }

  // ---- Counting ----

  function Weight(s: Slot): nat {
    if s.Held? then 1 else 0
  }

  function HeldIn(ring: seq<Slot>): (n: nat)
    ensures n <= |ring|
  {
    if ring == [] then 0 else HeldIn(ring[..|ring| - 1]) + Weight(ring[|ring| - 1])
  }

  function HeldInAll(conns: seq<Own>): nat {
    if conns == [] then 0 else HeldInAll(conns[..|conns| - 1]) + HeldIn(conns[|conns| - 1].ring)
  }

  lemma {:induction false} HeldUpdate(ring: seq<Slot>, j: nat, s: Slot)
    requires j < |ring|
    ensures HeldIn(ring[j := s]) + Weight(ring[j]) == HeldIn(ring) + Weight(s)
  {
    var n := |ring| - 1;
    if j < n {
      HeldUpdate(ring[..n], j, s);
      assert ring[j := s][..n] == ring[..n][j := s];
    } else {
      assert ring[j := s][..n] == ring[..n];
    }
  }

  lemma {:induction false} HeldAllUpdate(conns: seq<Own>, c: nat, o: Own)
    requires c < |conns|
    ensures HeldInAll(conns[c := o]) + HeldIn(conns[c].ring) == HeldInAll(conns) + HeldIn(o.ring)
  {
    var n := |conns| - 1;
    if c < n {
      HeldAllUpdate(conns[..n], c, o);
      assert conns[c := o][..n] == conns[..n][c := o];
    } else {
      assert conns[c := o][..n] == conns[..n];
    }
  }

  lemma {:induction false} HeldAllBound(conns: seq<Own>, c: nat)
    requires c < |conns| && forall d :: 0 <= d < |conns| ==> |conns[d].ring| == REDELIVERY_BUFFER_SIZE
    ensures HeldInAll(conns) <= REDELIVERY_BUFFER_SIZE * (|conns| - 1) + HeldIn(conns[c].ring)
  {
    var n := |conns| - 1;
    var own := conns[c].ring;
    if n > 0 {
      HeldAllBound(conns[..n], if c < n then c else n - 1);
    }
  }

  /** A ring with an empty slot holds fewer packets than it has slots. */
  lemma {:induction false} HeldBelow(ring: seq<Slot>, j: nat)
    requires j < |ring| && ring[j].Empty?
    ensures HeldIn(ring) < |ring|
  {
    HeldUpdate(ring, j, Held(Segment(0, []), 0));
  }

  // ---- Invariant ----

  /** The occupied slot j of connection c. */
  predicate HeldAt(p: Process, c: nat, j: nat)
    requires p.Valid()
  {
    c < |p.conns| && j < REDELIVERY_BUFFER_SIZE && p.conns[c].ring[j].Held?
  }

  /** Every occupied slot of every connection has an armed timer that carries its packet. */
  ghost predicate AllBacked(p: Process)
    requires p.Valid()
  {
    forall c :: 0 <= c < |p.conns| ==> SlotsBacked(p.View(c))
  }

  /** No timer serves two slots. */
  ghost predicate Exclusive(p: Process)
    requires p.Valid()
  {
    forall c: nat, j: nat, d: nat, k: nat :: HeldAt(p, c, j) && HeldAt(p, d, k) && p.conns[c].ring[j].timer == p.conns[d].ring[k].timer ==>
      c == d && j == k
  }

  /** Packets in the rings are numbered from 1011 to the last number sent. */
  ghost predicate Numbered(p: Process)
    requires p.Valid()
  {
    forall c: nat, j: nat :: HeldAt(p, c, j) ==> FIRST <= p.conns[c].ring[j].seg.num <= p.conns[c].lastSent
  }

  ghost predicate AllRearmed(active: seq<Armed>) {
    forall y :: y in active ==> y.rearm == Some(REDELIVERY_TIMEOUT_MS)
  }

  /** Listed and free timers partition the pool, and the listed ones are in bijection with the
      occupied slots of all connections. */
  ghost predicate Inv(p: Process) {
    && p.Valid() && Sorted(p.active) && AllRearmed(p.active)
    && Partition(Tx(0, [], p.active, p.free))
    && AllBacked(p) && Exclusive(p) && Numbered(p)
    && |p.active| == HeldInAll(p.conns)
  }

  predicate WithinLifetime(p: Process) {
    forall c :: 0 <= c < |p.conns| ==> p.conns[c].lastSent <= LAST
  }

  lemma {:induction false} NoneHeld(count: nat)
    ensures HeldInAll(Init(count).conns) == 0
  {
    EmptyRing(REDELIVERY_BUFFER_SIZE);
    if count > 0 {
      NoneHeld(count - 1);
      assert Init(count).conns[..count - 1] == Init(count - 1).conns;
    }
  }

  lemma {:induction false} EmptyRing(n: nat)
    ensures HeldIn(seq(n, _ => Empty)) == 0
  {
    if n > 0 {
      EmptyRing(n - 1);
      assert seq(n, _ => Empty)[..n - 1] == seq(n - 1, _ => Empty);
    }
  }

  lemma InitInv(count: nat)
    ensures Inv(Init(count))
  {
    NoneHeld(count);
    OpenedMatches();
    assert forall c :: 0 <= c < count ==> SlotsBacked(Init(count).View(c));
    assert PoolOf(Tx(0, [], Opened().active, Opened().free)) == PoolOf(Opened());
  }

  /** The slot of the next number is empty while the connection has used fewer than 32. */
  lemma NextSlotEmpty(p: Process, c: nat)
    requires Inv(p) && c < |p.conns| && FIRST - 1 <= p.conns[c].lastSent < LAST
    ensures p.conns[c].ring[Index(p.conns[c].lastSent + 1)].Empty?
  {
    var j := Index(p.conns[c].lastSent + 1);
    assert SlotsBacked(p.View(c));
    assert p.conns[c].ring[j].Held? ==> HeldAt(p, c, j);
  }

  /** Whoever is backed by the list stays so while the list only grows. */
  lemma StaysBacked(before: Tx, after: Tx)
    requires before.Valid() && SlotsBacked(before) && after.ring == before.ring
    requires forall y :: y in before.active ==> y in after.active
    ensures SlotsBacked(after)
  {
    forall j | 0 <= j < REDELIVERY_BUFFER_SIZE && after.ring[j].Held?
      ensures ArmedFor(after.active, after.ring[j].timer, after.ring[j].seg)
    {
      var y :| y in before.active && y.id == before.ring[j].timer && y.arg == before.ring[j].seg;
    }
  }

  /** The timer named by an occupied slot is listed. */
  lemma NamedIsListed(p: Process, c: nat, j: nat) returns (k: nat)
    requires p.Valid() && AllBacked(p) && HeldAt(p, c, j)
    ensures k < |p.active| && p.active[k].id == p.conns[c].ring[j].timer && p.active[k].arg == p.conns[c].ring[j].seg
  {
    assert SlotsBacked(p.View(c));
    var slot := p.View(c).ring[j];
    assert ArmedFor(p.active, slot.timer, slot.seg);
    var y :| y in p.active && y.id == slot.timer && y.arg == slot.seg;
    k :| 0 <= k < |p.active| && p.active[k] == y;
  }

  // ---- Sending ----

  lemma SendBacked(p: Process, c: nat, payload: Payload, now: nat)
    requires Inv(p) && c < |p.conns| && p.free != []
    ensures AllBacked(p.With(c, Send(p.View(c), payload, now)))
  {
    var tx := p.View(c);
    var r := p.With(c, Send(tx, payload, now));
    forall d | 0 <= d < |p.conns| ensures SlotsBacked(r.View(d)) {
      assert SlotsBacked(p.View(d));
      if d == c {
        SendSlotsBacked(tx, payload, now);
      } else {
        forall y | y in p.active ensures y in r.active {
          InsertMembers(p.active, Arming(tx, payload, now), y);
        }
        StaysBacked(p.View(d), r.View(d));
      }
    }
  }

  lemma SendExclusive(p: Process, c: nat, payload: Payload, now: nat)
    requires Inv(p) && c < |p.conns| && p.free != []
    ensures Exclusive(p.With(c, Send(p.View(c), payload, now)))
  {
    var r := p.With(c, Send(p.View(c), payload, now));
    var at := Index(p.conns[c].lastSent + 1);
    PartitionDistinct(Tx(0, [], p.active, p.free));
    forall d: nat, k: nat | HeldAt(r, d, k) && !(d == c && k == at)
      ensures HeldAt(p, d, k) && r.conns[d].ring[k] == p.conns[d].ring[k] && p.conns[d].ring[k].timer != p.free[0]
    {
      assert r.conns[d].ring[k] == p.conns[d].ring[k];
      var i := NamedIsListed(p, d, k);
    }
  }

  lemma SendNumbered(p: Process, c: nat, payload: Payload, now: nat)
    requires p.Valid() && Numbered(p) && c < |p.conns| && p.free != [] && p.conns[c].lastSent >= FIRST - 1
    ensures Numbered(p.With(c, Send(p.View(c), payload, now)))
  {
    var r := p.With(c, Send(p.View(c), payload, now));
    forall d: nat, k: nat | HeldAt(r, d, k) ensures FIRST <= r.conns[d].ring[k].seg.num <= r.conns[d].lastSent {
      if !(d == c && k == Index(p.conns[c].lastSent + 1)) {
        assert HeldAt(p, d, k);
      }
    }
  }

  lemma SendLists(p: Process, c: nat, payload: Payload, now: nat)
    requires p.Valid() && c < |p.conns| && p.free != []
    requires Sorted(p.active) && AllRearmed(p.active) && Partition(Tx(0, [], p.active, p.free))
    ensures var r := p.With(c, Send(p.View(c), payload, now));
      && Sorted(r.active) && AllRearmed(r.active) && Partition(Tx(0, [], r.active, r.free))
      && |r.active| == |p.active| + 1
  {
    var tx := p.View(c);
    var a, r := Arming(tx, payload, now), p.With(c, Send(tx, payload, now));
    hide Partition, Insert;
    InsertSorted(p.active, a, 0);
    forall y | y in r.active ensures y.rearm == Some(REDELIVERY_TIMEOUT_MS) {
      InsertMembers(p.active, a, y);
    }
    InsertIds(p.active, a);
    assert p.free == [p.free[0]] + p.free[1..];
    SamePool(p, r);
    assert |Ids(r.active)| == |Ids(p.active)| + 1;
  }

  lemma SamePool(p: Process, r: Process)
    requires Ids(p.active) + multiset(p.free) == Ids(r.active) + multiset(r.free) && Partition(Tx(0, [], p.active, p.free))
    ensures Partition(Tx(0, [], r.active, r.free))
  {
    assert PoolOf(Tx(0, [], r.active, r.free)) == PoolOf(Tx(0, [], p.active, p.free));
  }

  lemma SendCounts(p: Process, c: nat, payload: Payload, now: nat)
    requires p.Valid() && c < |p.conns| && p.free != [] && p.conns[c].ring[Index(p.conns[c].lastSent + 1)].Empty?
    ensures HeldInAll(p.With(c, Send(p.View(c), payload, now)).conns) == HeldInAll(p.conns) + 1
  {
    var tx := p.View(c);
    HeldUpdate(tx.ring, Index(tx.lastSent + 1), Held(NextSegment(tx, payload), p.free[0]));
    HeldAllUpdate(p.conns, c, p.With(c, Send(tx, payload, now)).conns[c]);
  }

  // ---- Acknowledgements ----

  lemma AckBacked(p: Process, c: nat, num: nat)
    requires Inv(p) && HeldAt(p, c, Index(num))
    ensures AllBacked(p.With(c, Acknowledge(p.View(c), num)))
  {
    var r, id := p.With(c, Acknowledge(p.View(c), num)), p.conns[c].ring[Index(num)].timer;
    PartitionDistinct(Tx(0, [], p.active, p.free));
    var gone := NamedIsListed(p, c, Index(num));
    forall d | 0 <= d < |p.conns| ensures SlotsBacked(r.View(d)) {
      forall j | 0 <= j < REDELIVERY_BUFFER_SIZE && r.conns[d].ring[j].Held?
        ensures Index(r.conns[d].ring[j].seg.num) == j
        ensures ArmedFor(r.active, r.conns[d].ring[j].timer, r.conns[d].ring[j].seg)
      {
        assert HeldAt(p, d, j) && r.conns[d].ring[j] == p.conns[d].ring[j];
        assert SlotsBacked(p.View(d)) && p.View(d).ring[j].Held?;
        var k := NamedIsListed(p, d, j);
        assert p.active[k].id != id;
        RemoveMembers(p.active, gone, p.active[k]);
      }
    }
  }

  lemma AckLists(p: Process, c: nat, num: nat)
    requires Inv(p) && HeldAt(p, c, Index(num))
    ensures var r := p.With(c, Acknowledge(p.View(c), num));
      && Sorted(r.active) && AllRearmed(r.active) && Partition(Tx(0, [], r.active, r.free))
      && |r.active| == HeldInAll(r.conns)
  {
    var r, id := p.With(c, Acknowledge(p.View(c), num)), p.conns[c].ring[Index(num)].timer;
    PartitionDistinct(Tx(0, [], p.active, p.free));
    var gone := NamedIsListed(p, c, Index(num));
    RemoveSorted(p.active, id, 0);
    forall y | y in r.active ensures y.rearm == Some(REDELIVERY_TIMEOUT_MS) {
      RemoveMembers(p.active, gone, y);
    }
    RemoveIds(p.active, gone);
    SamePool(p, r);
    HeldUpdate(p.conns[c].ring, Index(num), Empty);
    HeldAllUpdate(p.conns, c, r.conns[c]);
    assert |Ids(r.active)| + 1 == |Ids(p.active)|;
  }

  lemma AckRest(p: Process, c: nat, num: nat)
    requires Inv(p) && HeldAt(p, c, Index(num))
    ensures var r := p.With(c, Acknowledge(p.View(c), num)); Exclusive(r) && Numbered(r)
  {
    var r := p.With(c, Acknowledge(p.View(c), num));
    forall d: nat, k: nat | HeldAt(r, d, k) ensures HeldAt(p, d, k) && r.conns[d].ring[k] == p.conns[d].ring[k] {
    }
  }

  // ---- Every run ----

  lemma CheckLists(p: Process, now: nat)
    requires p.Valid() && Sorted(p.active) && AllRearmed(p.active) && Partition(Tx(0, [], p.active, p.free))
    ensures var active := Checked(p.active, now);
      && Sorted(active) && Partition(Tx(0, [], active, p.free)) && |active| == |p.active|
      && Carried(p.active, active) && Carried(active, p.active) && AllLater(active, now)
  {
    assert RearmsLater(p.active) && AllRearm(p.active);
    hide Checked, Carried, Sorted, Partition, RearmsLater, AllRearm, AllRearmed;
    CheckedAllLater(p.active, now);
    CheckedKeeps(p.active, now);
    SamePool(p, Process(p.conns, Checked(p.active, now), p.free));
    assert |Ids(Checked(p.active, now))| == |Ids(p.active)|;
  }

  lemma CheckRearmed(before: seq<Armed>, after: seq<Armed>)
    requires AllRearmed(before) && Carried(after, before)
    ensures AllRearmed(after)
  {
  }

  lemma CheckRest(p: Process, now: nat)
    requires Inv(p)
    ensures var r := Step(p, CheckAll(now)); Exclusive(r) && Numbered(r)
  {
    var r := Step(p, CheckAll(now));
    forall d: nat, k: nat | HeldAt(r, d, k) ensures HeldAt(p, d, k) {
    }
  }

  lemma CheckKeeps(p: Process, now: nat)
    requires Inv(p)
    ensures Inv(Step(p, CheckAll(now))) && AllLater(Step(p, CheckAll(now)).active, now)
  {
    hide Checked;
    var r := Step(p, CheckAll(now));
    CheckLists(p, now);
    CheckRearmed(p.active, r.active);
    CheckRest(p, now);
    forall c | 0 <= c < |p.conns| ensures SlotsBacked(r.View(c)) {
      assert SlotsBacked(p.View(c));
      TickSlotsBacked(p.View(c), now);
    }
  }

  ghost predicate Counting(p: Process) {
    forall c :: 0 <= c < |p.conns| ==> p.conns[c].lastSent >= FIRST - 1
  }

  lemma StepKeeps(p: Process, e: Event)
    requires Inv(p) && Counting(p) && WithinLifetime(Step(p, e))
    ensures Inv(Step(p, e)) && Counting(Step(p, e))
  {
    hide AllBacked, Exclusive, Numbered, Partition, Sorted, AllRearmed, HeldInAll;
    match e {
      case SendOn(c, payload, now) =>
        if c < |p.conns| && p.free != [] {
          assert Step(p, e).conns[c].lastSent == p.conns[c].lastSent + 1;
          NextSlotEmpty(p, c);
          SendBacked(p, c, payload, now);
          SendExclusive(p, c, payload, now);
          SendNumbered(p, c, payload, now);
          SendLists(p, c, payload, now);
          SendCounts(p, c, payload, now);
        }
      case AckOn(c, num) =>
        if c < |p.conns| && HeldAt(p, c, Index(num)) {
          AckBacked(p, c, num);
          AckLists(p, c, num);
          AckRest(p, c, num);
        } else if c < |p.conns| {
          assert p.With(c, p.View(c)).conns == p.conns;
        }
      case CheckAll(now) => CheckKeeps(p, now);
    }
  }

  /** An acknowledgement on one connection frees that packet's slot and timer for all. */
  lemma AckFrees(p: Process, c: nat, num: nat)
    requires Inv(p) && HeldAt(p, c, Index(num))
    ensures var r := Step(p, AckOn(c, num));
      && r.conns[c].ring[Index(num)].Empty? && |r.free| == |p.free| + 1
      && r.free[0] == p.conns[c].ring[Index(num)].timer && (forall d :: 0 <= d < |p.conns| && d != c ==> r.conns[d] == p.conns[d])
  {
  }

  lemma NumbersGrow(p: Process, e: Event)
    requires p.Valid() && WithinLifetime(Step(p, e))
    ensures WithinLifetime(p)
  {
    forall c | 0 <= c < |p.conns| ensures p.conns[c].lastSent <= Step(p, e).conns[c].lastSent {
    }
  }

  lemma {:induction false} AlwaysInv(count: nat, run: seq<Event>)
    requires WithinLifetime(After(count, run))
    ensures Inv(After(count, run)) && Counting(After(count, run))
  {
    if run == [] {
      InitInv(count);
    } else {
      var p, e := After(count, run[..|run| - 1]), run[|run| - 1];
      NumbersGrow(p, e);
      AlwaysInv(count, run[..|run| - 1]);
      StepKeeps(p, e);
    }
  }

  /** Some connection could still send a packet within its lifetime, but no timer is left for it. */
  predicate Starved(p: Process) {
    p.free == [] && exists c :: 0 <= c < |p.conns| && p.conns[c].lastSent < LAST
  }

  lemma {:induction false} NeverStarved(count: nat, run: seq<Event>)
    requires count <= 32 && WithinLifetime(After(count, run))
    ensures !Starved(After(count, run))
  {
    var p := After(count, run);
    AlwaysInv(count, run);
    PoolSize(Tx(0, [], p.active, p.free));
    forall c | 0 <= c < |p.conns| && p.conns[c].lastSent < LAST ensures p.free != [] {
      NextSlotEmpty(p, c);
      HeldBelow(p.conns[c].ring, Index(p.conns[c].lastSent + 1));
      HeldAllBound(p.conns, c);
    }
  }

  // ---- One connection more ----

  /** Connection after connection sends its 32 packets. */
  function Filling(k: nat): seq<Event> {
    if k == 0 then [] else Filling(k - 1) + [SendOn((k - 1) / 32, [], 0)]
  }

  /** Packets connection c has sent after k sends. */
  function Share(k: nat, c: nat): nat {
    if k <= 32 * c then 0 else if k <= 32 * c + 32 then k - 32 * c else 32
  }

  ghost predicate Filled(p: Process, k: nat) {
    |p.free| + k == MAX_TIMER_ALLOCS && forall c :: 0 <= c < |p.conns| ==> p.conns[c].lastSent == FIRST - 1 + Share(k, c)
  }

  lemma InitFilled(count: nat)
    ensures Filled(Init(count), 0)
  {
  }

  lemma FillStep(p: Process, k: nat)
    requires p.Valid() && 32 < |p.conns| && k < MAX_TIMER_ALLOCS && Filled(p, k)
    ensures Filled(Step(p, SendOn(k / 32, [], 0)), k + 1)
  {
  }

  lemma {:induction false} FillingFills(count: nat, k: nat)
    requires count > 32 && k <= MAX_TIMER_ALLOCS
    ensures Filled(After(count, Filling(k)), k)
  {
    hide Step, Filled;
    if k == 0 {
      InitFilled(count);
    } else {
      FillingFills(count, k - 1);
      assert Filling(k)[..|Filling(k)| - 1] == Filling(k - 1);
      FillStep(After(count, Filling(k - 1)), k - 1);
    }
  }

  lemma {:induction false} Exhausted(count: nat)
    requires count > 32
    ensures var p := After(count, Filling(MAX_TIMER_ALLOCS)); WithinLifetime(p) && Starved(p)
  {
    hide After, Filling;
    FillingFills(count, MAX_TIMER_ALLOCS);
    var p := After(count, Filling(MAX_TIMER_ALLOCS));
    assert p.conns[32].lastSent == FIRST - 1;
  }

  /** A process of connections that use at most 32 numbers each always finds a timer for the next
      packet if and only if it has at most 32 connections. */
  lemma PoolIsExact(count: nat)
    ensures (forall run :: WithinLifetime(After(count, run)) ==> !Starved(After(count, run))) <==> count <= 32
  {
    hide After, Starved, WithinLifetime;
    if count <= 32 {
      forall run | WithinLifetime(After(count, run)) ensures !Starved(After(count, run)) {
        NeverStarved(count, run);
      }
    } else {
      Exhausted(count);
    }
  }
}
