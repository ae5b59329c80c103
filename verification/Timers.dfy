/** What the timer service computes, on values: a list of armed timers kept sorted by
    timeout, first in first out among equal timeouts, and the loop that fires the due ones. */
module Timers {
  import opened Basics

  const MAX_TIMER_ALLOCS: nat := 1024

  /** A listed timer. `rearm` is what its callback does: put the timer back that long
      after the time of the check, or leave it out of the list. */
  datatype Armed = Armed(id: nat, timeout: nat, rearm: Option<nat>, arg: Segment)

  ghost predicate Sorted(active: seq<Armed>) {
    forall i, j :: 0 <= i < j < |active| ==> active[i].timeout <= active[j].timeout
  }

  /** Insertion before the first later timer. */
  function Insert(active: seq<Armed>, a: Armed): seq<Armed> {
    if active == [] || active[0].timeout > a.timeout then [a] + active
    else [active[0]] + Insert(active[1..], a)
  }

  function Remove(active: seq<Armed>, id: nat): seq<Armed> {
    if active == [] then []
    else if active[0].id == id then active[1..]
    else [active[0]] + Remove(active[1..], id)
  }

  /** The leading timers whose timeout has come. */
  function Due(active: seq<Armed>, now: nat): (due: seq<Armed>)
    ensures due <= active
  {
    if active == [] || active[0].timeout > now then [] else [active[0]] + Due(active[1..], now)
  }

  function Rest(active: seq<Armed>, now: nat): seq<Armed> {
    if active == [] || active[0].timeout > now then active else Rest(active[1..], now)
  }

  function AfterCallback(active: seq<Armed>, a: Armed, now: nat): seq<Armed> {
    match a.rearm
    case None => active
    case Some(delay) => Insert(active, a.(timeout := now + delay))
  }

  function AfterCallbacks(active: seq<Armed>, fired: seq<Armed>, now: nat): seq<Armed>
    decreases |fired|
  {
    if fired == [] then active
    else AfterCallbacks(AfterCallback(active, fired[0], now), fired[1..], now)
  }

  /** The list left by one check: the timers not due, plus the fired ones put back in firing order. */
  function Checked(active: seq<Armed>, now: nat): seq<Armed> {
    AfterCallbacks(Rest(active, now), Due(active, now), now)
  }

  /** Every callback puts its timer strictly later than the check, as redelivery_cb does. */
  predicate RearmsLater(active: seq<Armed>) {
    forall i :: 0 <= i < |active| && active[i].rearm.Some? ==> active[i].rearm.value > 0
  }

  // ---- Insertion ----

  /** k is the place of a timeout: behind all that are not later, in front of the first later one. */
  ghost predicate Place(active: seq<Armed>, to: nat, k: nat) {
    && k <= |active|
    && (forall i :: 0 <= i < k ==> active[i].timeout <= to)
    && (k < |active| ==> active[k].timeout > to)
  }

  lemma InsertShift(active: seq<Armed>, a: Armed, k: nat)
    requires 0 < k <= |active|
    ensures [active[0]] + (active[1..][..k - 1] + [a] + active[1..][k - 1..]) == active[..k] + [a] + active[k..]
  {
  }

  lemma {:induction false} InsertAt(active: seq<Armed>, a: Armed, k: nat)
    requires Place(active, a.timeout, k)
    ensures Insert(active, a) == active[..k] + [a] + active[k..]
    decreases k
  {
    if k > 0 {
      assert active[0].timeout <= a.timeout;
      assert Place(active[1..], a.timeout, k - 1);
      InsertAt(active[1..], a, k - 1);
      InsertShift(active, a, k);
    }
  }

  /** In a sorted list insertion is the stable one: the new timer comes after every timer that
      is not later and before every later one, and the others keep their order. */
  lemma {:induction false} InsertStable(active: seq<Armed>, a: Armed) returns (k: nat)
    requires Sorted(active)
    ensures k <= |active| && Insert(active, a) == active[..k] + [a] + active[k..]
    ensures forall i :: 0 <= i < |active| ==> (i < k <==> active[i].timeout <= a.timeout)
  {
    k := 0;
    while k < |active| && active[k].timeout <= a.timeout
      invariant k <= |active| && forall i :: 0 <= i < k ==> active[i].timeout <= a.timeout
    {
      k := k + 1;
    }
    InsertAt(active, a, k);
    forall i | k <= i < |active| ensures active[i].timeout > a.timeout {
      assert active[k].timeout <= active[i].timeout;
    }
  }

  lemma {:induction false} InsertMembers(active: seq<Armed>, a: Armed, y: Armed)
    ensures y in Insert(active, a) <==> y == a || y in active
  {
    if active != [] && active[0].timeout <= a.timeout {
      InsertMembers(active[1..], a, y);
      assert y in active <==> y == active[0] || y in active[1..];
    }
  }

  /** Every timeout of the list is at least `t`. */
  predicate AtLeast(active: seq<Armed>, t: nat) {
    forall i :: 0 <= i < |active| ==> t <= active[i].timeout
  }

  lemma SortedCons(a: Armed, tail: seq<Armed>)
    ensures Sorted([a] + tail) <==> Sorted(tail) && AtLeast(tail, a.timeout)
  {
    var all := [a] + tail;
    if Sorted(all) {
      forall i, j | 0 <= i < j < |tail| ensures tail[i].timeout <= tail[j].timeout {
        assert all[i + 1].timeout <= all[j + 1].timeout;
      }
      forall i | 0 <= i < |tail| ensures a.timeout <= tail[i].timeout {
        assert all[0].timeout <= all[i + 1].timeout;
      }
    }
  }

  lemma {:induction false} InsertSorted(active: seq<Armed>, a: Armed, t: nat)
    requires Sorted(active) && AtLeast(active, t) && t <= a.timeout
    ensures Sorted(Insert(active, a)) && AtLeast(Insert(active, a), t)
  {
    if active == [] {
    } else if active[0].timeout > a.timeout {
      SortedHead(active);
      SortedCons(a, active);
    } else {
      SortedHead(active);
      InsertSorted(active[1..], a, active[0].timeout);
      SortedCons(active[0], Insert(active[1..], a));
    }
  }

  lemma SortedHead(active: seq<Armed>)
    requires active != [] && Sorted(active)
    ensures AtLeast(active, active[0].timeout) && Sorted(active[1..]) && AtLeast(active[1..], active[0].timeout)
  {
  }

  // ---- Removal ----

  predicate Distinct(active: seq<Armed>) {
    forall i, j :: 0 <= i < j < |active| ==> active[i].id != active[j].id
  }

  lemma CutTail(active: seq<Armed>, k: nat)
    requires 0 < k < |active|
    ensures [active[0]] + (active[1..][..k - 1] + active[1..][k..]) == active[..k] + active[k + 1..]
  {
  }

  lemma {:induction false} RemoveAt(active: seq<Armed>, k: nat)
    requires k < |active| && Distinct(active)
    ensures Remove(active, active[k].id) == active[..k] + active[k + 1..]
    decreases k
  {
    if k > 0 {
      assert active[0].id != active[k].id;
      RemoveAt(active[1..], k - 1);
      CutTail(active, k);
    }
  }

  lemma {:induction false} RemoveMembers(active: seq<Armed>, k: nat, y: Armed)
    requires k < |active| && Distinct(active)
    ensures y in Remove(active, active[k].id) <==> y in active && y.id != active[k].id
    decreases k
  {
    var tail := active[1..];
    assert y in active <==> y == active[0] || y in tail;
    if k == 0 {
      if y in tail {
        var i :| 0 <= i < |tail| && tail[i] == y;
        assert active[0].id != active[i + 1].id;
      }
    } else {
      assert active[0].id != active[k].id == tail[k - 1].id;
      RemoveMembers(tail, k - 1, y);
    }
  }

  lemma {:induction false} RemoveSorted(active: seq<Armed>, id: nat, t: nat)
    requires Sorted(active) && AtLeast(active, t)
    ensures Sorted(Remove(active, id)) && AtLeast(Remove(active, id), t)
  {
    if active != [] {
      SortedHead(active);
      if active[0].id != id {
        RemoveSorted(active[1..], id, active[0].timeout);
        SortedCons(active[0], Remove(active[1..], id));
      }
    }
  }

  // ---- The check ----

  /** A timer put back later than `now` lands behind the due ones. */
  lemma {:induction false} InsertLater(active: seq<Armed>, a: Armed, now: nat)
    requires a.timeout > now
    ensures Due(Insert(active, a), now) == Due(active, now)
    ensures Rest(Insert(active, a), now) == Insert(Rest(active, now), a)
  {
    if active != [] && active[0].timeout <= now {
      InsertLater(active[1..], a, now);
      assert ([active[0]] + Insert(active[1..], a))[1..] == Insert(active[1..], a);
    }
  }

  lemma {:induction false} InsertRearms(active: seq<Armed>, a: Armed)
    requires RearmsLater(active) && (a.rearm.Some? ==> a.rearm.value > 0)
    ensures RearmsLater(Insert(active, a))
  {
    if active != [] && active[0].timeout <= a.timeout {
      InsertRearms(active[1..], a);
    }
  }

  /** Firing the head and running its callback leaves the rest of the check as it was,
      with one due timer fewer. */
  lemma {:induction false} FireHead(active: seq<Armed>, now: nat)
    requires active != [] && active[0].timeout <= now && RearmsLater(active)
    ensures var next := AfterCallback(active[1..], active[0], now);
      && Due(active, now) == [active[0]] + Due(next, now)
      && Checked(active, now) == Checked(next, now)
      && RearmsLater(next)
  {
    var tail := active[1..];
    assert ([active[0]] + Due(tail, now))[1..] == Due(tail, now);
    match active[0].rearm {
      case None =>
      case Some(delay) =>
        InsertLater(tail, active[0].(timeout := now + delay), now);
        InsertRearms(tail, active[0].(timeout := now + delay));
    }
  }

  /** How far a check has come: what has fired, and what is left to do from list v on. */
  ghost predicate Firing(start: seq<Armed>, v: seq<Armed>, fired: seq<Armed>, now: nat) {
    RearmsLater(v) && fired + Due(v, now) == Due(start, now) && Checked(v, now) == Checked(start, now)
  }

  lemma {:induction false} FiringStep(start: seq<Armed>, v: seq<Armed>, fired: seq<Armed>, now: nat)
    requires Firing(start, v, fired, now) && v != [] && v[0].timeout <= now
    ensures Firing(start, AfterCallback(v[1..], v[0], now), fired + [v[0]], now)
    ensures |Due(AfterCallback(v[1..], v[0], now), now)| < |Due(v, now)|
  {
    FireHead(v, now);
    var due := Due(AfterCallback(v[1..], v[0], now), now);
    assert fired + ([v[0]] + due) == fired + [v[0]] + due;
  }

  lemma {:induction false} FiringDone(start: seq<Armed>, v: seq<Armed>, fired: seq<Armed>, now: nat)
    requires Firing(start, v, fired, now) && (v == [] || v[0].timeout > now)
    ensures fired == Due(start, now) && v == Checked(start, now)
  {
  }

  predicate AllLater(active: seq<Armed>, now: nat) {
    AtLeast(active, now + 1)
  }

  lemma AfterCallbackSorted(active: seq<Armed>, now: nat)
    requires active != [] && Sorted(active)
    ensures Sorted(AfterCallback(active[1..], active[0], now))
  {
    SortedHead(active);
    match active[0].rearm {
      case None =>
      case Some(delay) => InsertSorted(active[1..], active[0].(timeout := now + delay), 0);
    }
  }

  /** After a check no due timer is left, and the list is sorted. */
  lemma {:induction false} CheckedAllLater(active: seq<Armed>, now: nat)
    requires Sorted(active) && RearmsLater(active)
    ensures Sorted(Checked(active, now)) && AllLater(Checked(active, now), now)
    decreases |Due(active, now)|
  {
    if active == [] {
    } else if active[0].timeout > now {
      SortedHead(active);
    } else {
      FireHead(active, now);
      AfterCallbackSorted(active, now);
      CheckedAllLater(AfterCallback(active[1..], active[0], now), now);
    }
  }

  /** In a sorted list the fired prefix is exactly the set of due timers. */
  lemma {:induction false} DueIsAllDue(active: seq<Armed>, now: nat)
    requires Sorted(active)
    ensures forall i :: 0 <= i < |active| ==> (i < |Due(active, now)| <==> active[i].timeout <= now)
  {
    if active != [] {
      SortedHead(active);
      if active[0].timeout <= now {
        DueIsAllDue(active[1..], now);
        forall i | 0 <= i < |active| ensures i < |Due(active, now)| <==> active[i].timeout <= now {
          assert i > 0 ==> active[i] == active[1..][i - 1];
        }
      }
    }
  }

  // ---- What a check leaves, timer by timer ----

  /** y is due timer z, put back by its callback as long after the check as the callback says. */
  predicate PutBack(z: Armed, y: Armed, now: nat) {
    z.rearm.Some? && y.timeout == now + z.rearm.value && y.id == z.id && y.rearm == z.rearm && y.arg == z.arg
  }

  /** y is listed after a check of this list: it was not due, or it was and has been put back. */
  ghost predicate ArmedAfter(active: seq<Armed>, y: Armed, now: nat) {
    || (y in active && y.timeout > now)
    || exists z :: z in active && z.timeout <= now && PutBack(z, y, now)
  }

  lemma {:induction false} CallbackMembers(active: seq<Armed>, fired: seq<Armed>, now: nat, y: Armed)
    ensures y in AfterCallbacks(active, fired, now) <==> y in active || exists z :: z in fired && PutBack(z, y, now)
    decreases |fired|
  {
    if fired != [] {
      var z := fired[0];
      if z.rearm.Some? {
        InsertMembers(active, z.(timeout := now + z.rearm.value), y);
        assert PutBack(z, y, now) <==> y == z.(timeout := now + z.rearm.value);
      }
      CallbackMembers(AfterCallback(active, z, now), fired[1..], now, y);
      assert fired == [z] + fired[1..];
    }
  }

  lemma {:induction false} RestIsSuffix(active: seq<Armed>, now: nat)
    ensures active == Due(active, now) + Rest(active, now)
  {
    if active != [] && active[0].timeout <= now {
      RestIsSuffix(active[1..], now);
    }
  }

  lemma {:induction false} DueMembers(active: seq<Armed>, now: nat, y: Armed)
    requires Sorted(active)
    ensures y in Due(active, now) <==> y in active && y.timeout <= now
    ensures y in Rest(active, now) <==> y in active && y.timeout > now
  {
    DueIsAllDue(active, now);
    RestIsSuffix(active, now);
    var due, rest := Due(active, now), Rest(active, now);
    assert forall i :: 0 <= i < |due| ==> due[i] == active[i] && due[i].timeout <= now;
    assert forall i :: 0 <= i < |rest| ==> rest[i] == active[|due| + i] && rest[i].timeout > now;
  }

  /** Exactly the timers that were not due, unchanged, and the due ones that were put back are listed. */
  lemma {:induction false} CheckedExactly(active: seq<Armed>, now: nat, y: Armed)
    requires Sorted(active)
    ensures y in Checked(active, now) <==> ArmedAfter(active, y, now)
  {
    CallbackMembers(Rest(active, now), Due(active, now), now, y);
    forall z ensures (z in Due(active, now) <==> z in active && z.timeout <= now) {
      DueMembers(active, now, z);
    }
    DueMembers(active, now, y);
  }

  lemma CheckedReport(active: seq<Armed>, now: nat)
    requires Sorted(active)
    ensures forall i :: 0 <= i < |active| ==> (i < |Due(active, now)| <==> active[i].timeout <= now)
    ensures forall y :: y in Checked(active, now) <==> ArmedAfter(active, y, now)
  {
    DueIsAllDue(active, now);
    forall y ensures y in Checked(active, now) <==> ArmedAfter(active, y, now) {
      CheckedExactly(active, now, y);
    }
  }

  // ---- Identities: nothing is lost from the pool ----

  /** How often each identity is listed. */
  function Ids(active: seq<Armed>): (ids: multiset<nat>)
    ensures |ids| == |active|
  {
    if active == [] then multiset{} else multiset{active[0].id} + Ids(active[1..])
  }

  lemma {:induction false} IdsAt(active: seq<Armed>, i: nat)
    requires i < |active|
    ensures active[i].id in Ids(active)
  {
    if i > 0 {
      IdsAt(active[1..], i - 1);
    }
  }

  lemma {:induction false} IdsTwice(active: seq<Armed>, i: nat, j: nat)
    requires i < j < |active| && active[i].id == active[j].id
    ensures Ids(active)[active[i].id] >= 2
  {
    if i > 0 {
      IdsTwice(active[1..], i - 1, j - 1);
    } else {
      IdsAt(active[1..], j - 1);
    }
  }

  lemma {:induction false} InsertIds(active: seq<Armed>, a: Armed)
    ensures Ids(Insert(active, a)) == Ids(active) + multiset{a.id}
  {
    if active == [] || active[0].timeout > a.timeout {
      assert ([a] + active)[1..] == active;
    } else {
      InsertIds(active[1..], a);
      assert ([active[0]] + Insert(active[1..], a))[1..] == Insert(active[1..], a);
    }
  }

  lemma {:induction false} RemoveIds(active: seq<Armed>, k: nat)
    requires k < |active|
    ensures Ids(Remove(active, active[k].id)) + multiset{active[k].id} == Ids(active)
  {
    var id := active[k].id;
    if active[0].id != id {
      RemoveIds(active[1..], k - 1);
      assert ([active[0]] + Remove(active[1..], id))[1..] == Remove(active[1..], id);
    }
  }

  predicate AllRearm(active: seq<Armed>) {
    forall i :: 0 <= i < |active| ==> active[i].rearm.Some?
  }

  lemma {:induction false} InsertAllRearm(active: seq<Armed>, a: Armed)
    requires AllRearm(active) && a.rearm.Some?
    ensures AllRearm(Insert(active, a))
  {
    if active != [] && active[0].timeout <= a.timeout {
      InsertAllRearm(active[1..], a);
    }
  }

  /** The same timer, possibly with another timeout. */
  predicate SameTimer(y: Armed, z: Armed) {
    y.id == z.id && y.arg == z.arg && y.rearm == z.rearm
  }

  /** Timers of `a` reappear in `b` with the same identity, argument and callback. */
  ghost predicate Carried(a: seq<Armed>, b: seq<Armed>) {
    forall y :: y in a ==> exists z :: z in b && SameTimer(y, z)
  }

  lemma CarriedTrans(a: seq<Armed>, b: seq<Armed>, c: seq<Armed>)
    requires Carried(a, b) && Carried(b, c)
    ensures Carried(a, c)
  {
  }

  lemma CarriedSelf(a: seq<Armed>)
    ensures Carried(a, a)
  {
  }

  /** Replacing the head by a later copy of itself, wherever it lands, keeps every timer. */
  lemma ReplacedHeadCarries(active: seq<Armed>, a: Armed, next: seq<Armed>)
    requires active != [] && SameTimer(active[0], a)
    requires forall y :: y in next <==> y == a || y in active[1..]
    ensures Carried(active, next) && Carried(next, active)
  {
    forall y | y in active ensures exists z :: z in next && SameTimer(y, z) {
      var i :| 0 <= i < |active| && active[i] == y;
      if i == 0 {
        assert a in next && SameTimer(y, a);
      } else {
        assert active[1..][i - 1] == y && SameTimer(y, y);
      }
    }
    forall y | y in next ensures exists z :: z in active && SameTimer(y, z) {
      if y == a {
        assert active[0] in active && SameTimer(y, active[0]);
      } else {
        assert y in active && SameTimer(y, y);
      }
    }
  }

  lemma {:induction false} InsertMembersAll(active: seq<Armed>, a: Armed)
    ensures forall y :: y in Insert(active, a) <==> y == a || y in active
  {
    forall y ensures y in Insert(active, a) <==> y == a || y in active {
      InsertMembers(active, a, y);
    }
  }

  /** One firing keeps every timer of the list, in both directions. */
  lemma FireHeadCarries(active: seq<Armed>, now: nat)
    requires active != [] && active[0].rearm.Some?
    ensures Carried(active, AfterCallback(active[1..], active[0], now))
    ensures Carried(AfterCallback(active[1..], active[0], now), active)
  {
    var a := active[0].(timeout := now + active[0].rearm.value);
    InsertMembersAll(active[1..], a);
    ReplacedHeadCarries(active, a, AfterCallback(active[1..], active[0], now));
  }

  lemma {:induction false} AfterCallbackIds(active: seq<Armed>, a: Armed, now: nat)
    requires a.rearm.Some?
    ensures Ids(AfterCallback(active, a, now)) == Ids(active) + multiset{a.id}
  {
    InsertIds(active, a.(timeout := now + a.rearm.value));
  }

  lemma {:induction false} FireHeadIds(active: seq<Armed>, now: nat)
    requires active != [] && active[0].rearm.Some?
    ensures Ids(AfterCallback(active[1..], active[0], now)) == Ids(active)
  {
    AfterCallbackIds(active[1..], active[0], now);
  }

  lemma FireHeadRearms(active: seq<Armed>, now: nat)
    requires active != [] && AllRearm(active)
    ensures AllRearm(AfterCallback(active[1..], active[0], now))
  {
    InsertAllRearm(active[1..], active[0].(timeout := now + active[0].rearm.value));
  }

  /** A whole check keeps every timer's identity, argument and callback. */
  lemma {:induction false} CheckedKeeps(active: seq<Armed>, now: nat)
    requires RearmsLater(active) && AllRearm(active)
    ensures Ids(Checked(active, now)) == Ids(active)
    ensures Carried(active, Checked(active, now)) && Carried(Checked(active, now), active)
    decreases |Due(active, now)|
  {
    if active == [] || active[0].timeout > now {
      CarriedSelf(active);
    } else {
      FireHead(active, now);
      FireHeadCarries(active, now);
      FireHeadIds(active, now);
      FireHeadRearms(active, now);
      var next := AfterCallback(active[1..], active[0], now);
      CheckedKeeps(next, now);
      CarriedTrans(active, next, Checked(next, now));
      CarriedTrans(Checked(next, now), next, active);
    }
  }
}
