/** How far ahead of the last delivery, and how far behind it, an arrival may be before the 32-slot
    ring stops standing for the set of received numbers. */
module Window {
  import opened Basics
  import opened Resequencer

  function Receive(arrivals: seq<Segment>): (rx: Rx)
    ensures rx.Valid()
  {
    if arrivals == [] then Established()
    else Ingress(Receive(arrivals[..|arrivals| - 1]), arrivals[|arrivals| - 1])
  }

  /** After the first acceptance every arrival is at most `width` ahead of the last delivery, and
      less than `below` behind it; with below == 0 it is ahead. */
  predicate InWindow(arrivals: seq<Segment>, below: nat, width: nat) {
    arrivals == [] ||
    (var before := arrivals[..|arrivals| - 1];
     var s := arrivals[|arrivals| - 1];
     && InWindow(before, below, width)
     && 0 < s.num
     && (before == [] || (Receive(before).last < s.num + below && s.num <= Receive(before).last + width)))
  }

  /** All that has arrived, by number. */
  ghost function LogOf(arrivals: seq<Segment>): map<nat, Payload> {
    if arrivals == [] then map[]
    else LogOf(arrivals[..|arrivals| - 1])[arrivals[|arrivals| - 1].num := arrivals[|arrivals| - 1].payload]
  }

  /** The application has been given the maximal gap-free run that starts at the first arrival. */
  ghost predicate DeliversMaximalRun(arrivals: seq<Segment>) {
    arrivals != [] ==>
      && IsRunEnd(LogOf(arrivals), arrivals[0].num, Receive(arrivals).last)
      && Receive(arrivals).queue == Delivery(LogOf(arrivals), arrivals[0].num, Receive(arrivals).last)
  }

  /** Runs of any length: in a window of 33 the ring refines the set of all arrivals. */
  lemma {:induction false} WindowRefines(arrivals: seq<Segment>, limit: nat)
    requires arrivals != [] && InWindow(arrivals, 0, 33)
    requires forall i :: 0 <= i < |arrivals| ==> arrivals[i].num <= limit
    ensures Refines(Receive(arrivals), arrivals[0].num, limit, LogOf(arrivals))
  {
    var before := arrivals[..|arrivals| - 1];
    var s := arrivals[|arrivals| - 1];
    if before == [] {
      FirstArrival(s, limit);
      assert LogOf(arrivals) == map[s.num := s.payload];
    } else {
      WindowRefines(before, limit);
      IngressRefines(Receive(before), s, arrivals[0].num, limit, LogOf(before));
    }
  }

  function Highest(arrivals: seq<Segment>): (top: nat)
    ensures forall i :: 0 <= i < |arrivals| ==> arrivals[i].num <= top
  {
    if arrivals == [] then 0
    else Max(Highest(arrivals[..|arrivals| - 1]), arrivals[|arrivals| - 1].num)
  }

  /** A number 34 ahead takes the slot of the number 2 ahead and is delivered in its place. */
  function Overrun(): seq<Segment> {
    [Segment(1, [1]), Segment(35, [9]), Segment(2, [2])]
  }

  lemma {:induction false} Snoc(before: seq<Segment>, s: Segment, below: nat, width: nat)
    ensures Receive(before + [s]) == Ingress(Receive(before), s)
    ensures LogOf(before + [s]) == LogOf(before)[s.num := s.payload]
    ensures InWindow(before + [s], below, width) <==>
      InWindow(before, below, width) && 0 < s.num &&
      (before == [] || (Receive(before).last < s.num + below && s.num <= Receive(before).last + width))
  {
  }

  lemma {:induction false} Nothing(below: nat, width: nat)
    ensures Receive([]) == Established() && LogOf([]) == map[] && InWindow([], below, width)
  {
  }

  /** The ring after one delivered packet and, in slot 3, the packet numbered 35. */
  function Clashing(): (rx: Rx)
    ensures rx.Valid()
  {
    Rx(1, 35, Established().ring[3 := Some(Segment(35, [9]))], [[1]])
  }

  lemma OverrunSteps()
    ensures Ingress(Established(), Segment(1, [1])) == Rx(1, 0, Established().ring, [[1]])
    ensures Ingress(Rx(1, 0, Established().ring, [[1]]), Segment(35, [9])) == Clashing()
  {
  }

  lemma ClashDrains()
    ensures Ingress(Clashing(), Segment(2, [2])) == Rx(3, 35, Established().ring, [[1], [2], [9]])
  {
  }

  lemma {:induction false} OverrunRun(below: nat, width: nat)
    requires width >= 34
    ensures InWindow(Overrun(), below, width) && 3 !in LogOf(Overrun())
    ensures Receive(Overrun()) == Rx(3, 35, Established().ring, [[1], [2], [9]])
  {
    hide Ingress, Receive, InWindow, LogOf;
    var one, two, three := Segment(1, [1]), Segment(35, [9]), Segment(2, [2]);
    Nothing(below, width);
    Snoc([], one, below, width);
    Snoc([one], two, below, width);
    Snoc([one, two], three, below, width);
    assert [] + [one] == [one] && [one] + [two] == [one, two] && [one, two] + [three] == Overrun();
    OverrunSteps();
    ClashDrains();
  }

  lemma {:induction false} OverrunDeliversWrongly(below: nat, width: nat)
    requires width >= 34
    ensures InWindow(Overrun(), below, width)
    ensures Receive(Overrun()).queue == [[1], [2], [9]]
    ensures !DeliversMaximalRun(Overrun())
  {
    hide Receive, InWindow, LogOf;
    OverrunRun(below, width);
  }

  /** Ahead of the last delivery, 33 is the exact limit. */
  lemma UpperEdgeIsExact(width: nat)
    ensures (forall arrivals: seq<Segment> :: InWindow(arrivals, 0, width) ==> DeliversMaximalRun(arrivals)) <==> width <= 33
  {
    if width <= 33 {
      forall arrivals: seq<Segment> | InWindow(arrivals, 0, width)
        ensures DeliversMaximalRun(arrivals)
      {
        Widen(arrivals, width, 33);
        if arrivals != [] {
          WindowRefines(arrivals, Highest(arrivals));
        }
      }
    } else {
      OverrunDeliversWrongly(0, width);
    }
  }

  lemma {:induction false} Widen(arrivals: seq<Segment>, narrow: nat, wide: nat)
    requires narrow <= wide && InWindow(arrivals, 0, narrow)
    ensures InWindow(arrivals, 0, wide)
  {
    if arrivals != [] {
      Widen(arrivals[..|arrivals| - 1], narrow, wide);
    }
  }

  // ---- Old arrivals ----

  /** A number stands for one payload, however often it arrives. */
  predicate Consistent(arrivals: seq<Segment>) {
    forall i, j :: 0 <= i < j < |arrivals| && arrivals[i].num == arrivals[j].num ==> arrivals[i] == arrivals[j]
  }

  lemma {:induction false} LogExact(arrivals: seq<Segment>, q: nat)
    ensures q in LogOf(arrivals) <==> exists i :: 0 <= i < |arrivals| && arrivals[i].num == q
    ensures Consistent(arrivals) ==>
      forall i :: 0 <= i < |arrivals| && arrivals[i].num == q ==> LogOf(arrivals)[q] == arrivals[i].payload
  {
    if arrivals != [] {
      var n := |arrivals| - 1;
      var before := arrivals[..n];
      LogExact(before, q);
      if q in LogOf(before) {
        var i :| 0 <= i < |before| && before[i].num == q;
        assert arrivals[i].num == q;
      }
      forall i | 0 <= i < n ensures arrivals[i] == before[i] {
      }
    }
  }

  /** At most one number waits in the ring, two ahead of the last delivery, in its own slot. */
  ghost predicate Narrow(rx: Rx, base: nat, log: map<nat, Payload>, width: nat) {
    && rx.Valid() && 0 < base <= rx.last
    && (forall k :: base <= k <= rx.last ==> k in log)
    && rx.queue == Delivery(log, base, rx.last)
    && (forall q :: q in log ==> q <= rx.last || (q == rx.last + 2 && width == 2))
    && if rx.last + 2 in log then
         rx.maxOoo == rx.last + 2 && rx.ring[SlotOf(rx.last + 2)] == Some(Segment(rx.last + 2, log[rx.last + 2]))
       else rx.maxOoo <= rx.last
  }

  /** The next number comes while the one after it waits: both are delivered. */
  lemma NarrowDrains(rx: Rx, base: nat, log: map<nat, Payload>, s: Segment, width: nat)
    requires Narrow(rx, base, log, width) && s.num == rx.last + 1 && rx.last + 2 in log
    ensures Narrow(Ingress(rx, s), base, log[s.num := s.payload], width)
  {
    hide SlotOf;
    var log' := log[s.num := s.payload];
    DeliveryAgrees(log, log', base, rx.last);
    var taken := Rx(s.num, rx.maxOoo, rx.ring, Enqueue(rx.queue, s.payload));
    var next := Advance(taken);
    assert Drain(taken, s.num + 1) == Drain(next, s.num + 2) == next;
    assert Delivery(log', base, s.num) == taken.queue;
    assert next.queue == Enqueue(taken.queue, log'[s.num + 1]) == Delivery(log', base, s.num + 1);
    assert next.last == s.num + 1 && next.maxOoo == s.num + 1 && s.num + 3 !in log';
  }

  lemma NarrowAccepts(rx: Rx, base: nat, log: map<nat, Payload>, s: Segment, width: nat)
    requires Narrow(rx, base, log, width) && s.num == rx.last + 1 && rx.last + 2 !in log
    ensures Narrow(Ingress(rx, s), base, log[s.num := s.payload], width)
  {
    DeliveryAgrees(log, log[s.num := s.payload], base, rx.last);
    var taken := Rx(s.num, rx.maxOoo, rx.ring, Enqueue(rx.queue, s.payload));
    assert Drain(taken, s.num + 1) == taken;
  }

  lemma NarrowShelves(rx: Rx, base: nat, log: map<nat, Payload>, s: Segment, width: nat)
    requires Narrow(rx, base, log, width) && s.num != rx.last + 1 && (s.num in log ==> log[s.num] == s.payload)
    requires s.num <= rx.last || (s.num == rx.last + 2 && width == 2)
    requires width <= 1 || rx.last < s.num + 30
    ensures Narrow(Ingress(rx, s), base, log[s.num := s.payload], width)
  {
    hide SlotOf;
    if width == 2 && s.num <= rx.last {
      SlotsDiffer(s.num, rx.last + 2);
    }
    DeliveryAgrees(log, log[s.num := s.payload], base, rx.last);
  }

  lemma {:induction false} NarrowRefines(arrivals: seq<Segment>, below: nat, width: nat)
    requires arrivals != [] && Consistent(arrivals) && InWindow(arrivals, below, width)
    requires width <= 1 || (width == 2 && below <= 30)
    ensures Narrow(Receive(arrivals), arrivals[0].num, LogOf(arrivals), width)
  {
    var n := |arrivals| - 1;
    var before, s := arrivals[..n], arrivals[n];
    if before == [] {
      assert LogOf(arrivals) == map[s.num := s.payload];
    } else {
      hide Narrow, Ingress;
      assert forall i :: 0 <= i < n ==> before[i] == arrivals[i];
      NarrowRefines(before, below, width);
      LogExact(before, s.num);
      NarrowStep(Receive(before), arrivals[0].num, LogOf(before), s, below, width);
    }
  }

  lemma NarrowStep(rx: Rx, base: nat, log: map<nat, Payload>, s: Segment, below: nat, width: nat)
    requires Narrow(rx, base, log, width) && (s.num in log ==> log[s.num] == s.payload)
    requires rx.last < s.num + below && s.num <= rx.last + width && (width <= 1 || (width == 2 && below <= 30))
    ensures Narrow(Ingress(rx, s), base, log[s.num := s.payload], width)
  {
    if s.num == rx.last + 1 {
      if rx.last + 2 in log {
        NarrowDrains(rx, base, log, s, width);
      } else {
        NarrowAccepts(rx, base, log, s, width);
      }
    } else {
      NarrowShelves(rx, base, log, s, width);
    }
  }

  /** Number 10 arrives 30 behind, in the slot of the waiting 42, and is delivered in its place. */
  function Overwritten(): seq<Segment> {
    [Segment(40, [1]), Segment(42, [2]), Segment(10, [9]), Segment(41, [3])]
  }

  lemma OverwrittenSteps()
    ensures var ring := Established().ring;
      && Ingress(Established(), Segment(40, [1])) == Rx(40, 0, ring, [[1]])
      && Ingress(Rx(40, 0, ring, [[1]]), Segment(42, [2])) == Rx(40, 42, ring[10 := Some(Segment(42, [2]))], [[1]])
      && Ingress(Rx(40, 42, ring[10 := Some(Segment(42, [2]))], [[1]]), Segment(10, [9])) ==
        Rx(40, 42, ring[10 := Some(Segment(10, [9]))], [[1]])
  {
  }

  lemma OverwrittenDrains()
    ensures Ingress(Rx(40, 42, Established().ring[10 := Some(Segment(10, [9]))], [[1]]), Segment(41, [3])) ==
      Rx(42, 42, Established().ring, [[1], [3], [9]])
  {
    var taken := Rx(41, 42, Established().ring[10 := Some(Segment(10, [9]))], [[1], [3]]);
    var next := Advance(taken);
    assert Drain(taken, 42) == Drain(next, 43) == next;
    assert next == Rx(42, 42, Established().ring, [[1], [3], [9]]);
    assert Enqueue([[1]], [3]) == [[1], [3]];
    assert Ingress(Rx(40, 42, taken.ring, [[1]]), Segment(41, [3])) == Drain(taken, 42);
  }

  lemma {:induction false} OverwrittenStart(below: nat, width: nat)
    requires below >= 31 && width >= 2
    ensures var before := Overwritten()[..3];
      && InWindow(before, below, width)
      && Receive(before) == Rx(40, 42, Established().ring[10 := Some(Segment(10, [9]))], [[1]])
      && 42 in LogOf(before) && LogOf(before)[42] == [2]
  {
    hide Ingress, Receive, InWindow, LogOf;
    var a, b, c := Segment(40, [1]), Segment(42, [2]), Segment(10, [9]);
    Nothing(below, width);
    Snoc([], a, below, width);
    Snoc([a], b, below, width);
    Snoc([a, b], c, below, width);
    assert [] + [a] == [a] && [a] + [b] == [a, b] && [a, b] + [c] == Overwritten()[..3];
    OverwrittenSteps();
  }

  lemma {:induction false} OverwrittenRun(below: nat, width: nat)
    requires below >= 31 && width >= 2
    ensures InWindow(Overwritten(), below, width)
    ensures Receive(Overwritten()) == Rx(42, 42, Established().ring, [[1], [3], [9]])
    ensures 42 in LogOf(Overwritten()) && LogOf(Overwritten())[42] == [2]
  {
    hide Ingress, Receive, InWindow, LogOf;
    OverwrittenStart(below, width);
    Snoc(Overwritten()[..3], Segment(41, [3]), below, width);
    assert Overwritten()[..3] + [Segment(41, [3])] == Overwritten();
    OverwrittenDrains();
  }

  lemma {:induction false} EndsWith(log: map<nat, Payload>, lo: nat, hi: nat)
    requires lo < hi && (forall k :: lo <= k <= hi ==> k in log) && log[hi] != []
    ensures var d := Delivery(log, lo, hi); d != [] && d[|d| - 1] == log[hi]
  {
  }

  lemma {:induction false} OverwrittenDeliversWrongly(below: nat, width: nat)
    requires below >= 31 && width >= 2
    ensures Consistent(Overwritten()) && InWindow(Overwritten(), below, width)
    ensures Receive(Overwritten()).queue == [[1], [3], [9]] && !DeliversMaximalRun(Overwritten())
  {
    hide Receive, InWindow, LogOf;
    OverwrittenRun(below, width);
    if forall k :: 40 <= k <= 42 ==> k in LogOf(Overwritten()) {
      EndsWith(LogOf(Overwritten()), 40, 42);
    }
  }

  const PAYLOAD: Payload := [7]

  /** Number 1 twice, then 2 to n in turn: the second 1 stays in its slot. */
  function Repeated(n: nat): seq<Segment>
    requires n > 0
  {
    if n == 1 then [Segment(1, PAYLOAD), Segment(1, PAYLOAD)] else Repeated(n - 1) + [Segment(n, PAYLOAD)]
  }

  function Leftover(): (ring: seq<Option<Segment>>)
    ensures |ring| == INORDER_BUFFER_SIZE
  {
    Established().ring[1 := Some(Segment(1, PAYLOAD))]
  }

  function Copies(n: nat): seq<Payload> {
    seq(n, _ => PAYLOAD)
  }

  ghost predicate Steady(n: nat, below: nat, width: nat)
    requires n > 0
  {
    && Repeated(n) != [] && Receive(Repeated(n)) == Rx(n, 1, Leftover(), Copies(n))
    && InWindow(Repeated(n), below, width)
    && (forall i :: 0 <= i < |Repeated(n)| ==> Repeated(n)[i].num <= n && Repeated(n)[i].payload == PAYLOAD)
  }

  lemma RepeatedTwice(below: nat, width: nat)
    requires below >= 1 && width >= 1
    ensures Steady(1, below, width)
  {
    var s := Segment(1, PAYLOAD);
    Snoc([], s, below, width);
    Snoc([s], s, below, width);
    assert [] + [s] == [s] && [s] + [s] == Repeated(1);
    assert Copies(1) == [PAYLOAD];
  }

  lemma RepeatedNext(n: nat)
    requires 0 < n < 31
    ensures Ingress(Rx(n, 1, Leftover(), Copies(n)), Segment(n + 1, PAYLOAD)) == Rx(n + 1, 1, Leftover(), Copies(n + 1))
  {
    assert Copies(n + 1) == Copies(n) + [PAYLOAD];
  }

  lemma {:induction false} RepeatedSteady(n: nat, below: nat, width: nat)
    requires 0 < n < 32 && below >= 1 && width >= 1
    ensures Steady(n, below, width)
  {
    hide Ingress, Receive, InWindow, LogOf;
    if n == 1 {
      RepeatedTwice(below, width);
    } else {
      RepeatedSteady(n - 1, below, width);
      Snoc(Repeated(n - 1), Segment(n, PAYLOAD), below, width);
      RepeatedNext(n - 1);
    }
  }

  /** 34 waits, 32 comes, and the old 1 is delivered as number 33. */
  function Stale(): seq<Segment> {
    Repeated(31) + [Segment(34, PAYLOAD)] + [Segment(32, PAYLOAD)]
  }

  lemma StaleDrains()
    ensures Ingress(Ingress(Rx(31, 1, Leftover(), Copies(31)), Segment(34, PAYLOAD)), Segment(32, PAYLOAD)).last == 34
  {
    var waiting := Rx(31, 34, Leftover()[2 := Some(Segment(34, PAYLOAD))], Copies(31));
    assert Ingress(Rx(31, 1, Leftover(), Copies(31)), Segment(34, PAYLOAD)) == waiting;
    var taken := Rx(32, 34, waiting.ring, Enqueue(Copies(31), PAYLOAD));
    var next := Advance(taken);
    assert Drain(taken, 33) == Drain(next, 34);
    assert Drain(next, 34) == Drain(Advance(next), 35) == Advance(next);
  }

  lemma {:induction false} StaleRun(below: nat, width: nat)
    requires below >= 1 && width >= 3
    ensures InWindow(Stale(), below, width) && Receive(Stale()).last == 34
  {
    hide Ingress, LogOf, Repeated;
    RepeatedSteady(31, below, width);
    var s, t := Segment(34, PAYLOAD), Segment(32, PAYLOAD);
    Snoc(Repeated(31), s, below, width);
    Snoc(Repeated(31) + [s], t, below, width);
    StaleDrains();
    Shelves();
  }

  lemma {:induction false} StaleDeliversWrongly(below: nat, width: nat)
    requires below >= 1 && width >= 3
    ensures Consistent(Stale()) && InWindow(Stale(), below, width) && !DeliversMaximalRun(Stale())
  {
    hide Ingress, LogOf, Repeated, Receive, InWindow;
    RepeatedSteady(31, below, width);
    StaleRun(below, width);
    LogExact(Stale(), 33);
  }

  lemma Shelves()
    ensures Ingress(Rx(31, 1, Leftover(), Copies(31)), Segment(34, PAYLOAD)).last == 31
  {
  }

  /** The windows in which the ring stands for the set of received numbers. */
  predicate Copes(below: nat, width: nat) {
    width <= 1 || (width == 2 && below <= 30) || (width <= 33 && below == 0)
  }

  /** Delivery is the maximal run in exactly these windows: old arrivals are harmless only when
      nothing, or only the next but one number, can be waiting. */
  lemma {:induction false} WindowIsExact(below: nat, width: nat)
    ensures (forall arrivals: seq<Segment> :: Consistent(arrivals) && InWindow(arrivals, below, width) ==> DeliversMaximalRun(arrivals))
      <==> Copes(below, width)
  {
    hide InWindow, Consistent, DeliversMaximalRun;
    if Copes(below, width) {
      forall arrivals: seq<Segment> | Consistent(arrivals) && InWindow(arrivals, below, width)
        ensures DeliversMaximalRun(arrivals)
      {
        WindowDelivers(arrivals, below, width);
      }
    } else if width >= 34 {
      OverrunDeliversWrongly(below, width);
      OverrunConsistent();
    } else if width >= 3 {
      StaleDeliversWrongly(below, width);
    } else {
      OverwrittenDeliversWrongly(below, width);
    }
  }

  lemma OverrunConsistent()
    ensures Consistent(Overrun())
  {
  }

  lemma {:induction false} WindowDelivers(arrivals: seq<Segment>, below: nat, width: nat)
    requires Copes(below, width) && Consistent(arrivals) && InWindow(arrivals, below, width)
    ensures DeliversMaximalRun(arrivals)
  {
    if arrivals != [] {
      if below == 0 && width <= 33 {
        Widen(arrivals, width, 33);
        WindowRefines(arrivals, Highest(arrivals));
      } else {
        NarrowRefines(arrivals, below, width);
      }
    }
  }
}
