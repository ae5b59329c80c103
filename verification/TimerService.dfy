/** The timer service of runtime/nb_timer.c: a free list and a sorted doubly linked list
    threaded through the same `next` fields of a fixed pool. */
module TimerService {
  import opened Basics
  import opened Timers
  import opened TimerLinks

  class Service {
    const pool: array<TimerObj>   // nb__allocated_timers
    var freeList: int             // nb__timer_free_list
    var head: int                 // nb__timers_head
    ghost var active: seq<nat>
    ghost var free: seq<nat>

    ghost predicate Valid()
      reads this, pool
    {
      && pool.Length == MAX_TIMER_ALLOCS
      && Linked(pool[..], head, active)
      && BackLinked(pool[..], active)
      && Linked(pool[..], freeList, free)
      && Apart(active, free)
      && Sorted(ViewOf(pool[..], active))
    }

    /** The listed timers, in list order. */
    ghost function View(): seq<Armed>
      requires Valid()
      reads this, pool
    {
      ViewOf(pool[..], active)
    }

    /** nb__init_timers */
    constructor ()
      ensures Valid() && fresh(pool)
      ensures View() == [] && free == seq(MAX_TIMER_ALLOCS, i => i)
    {
      var objs := new TimerObj[MAX_TIMER_ALLOCS](_ => TimerObj(NULL, NULL, 0, None, Segment(0, [])));
      pool := objs;
      freeList, head := 0, NULL;
      active := [];
      free := seq(MAX_TIMER_ALLOCS, i => i);
      new;
      for i := 0 to MAX_TIMER_ALLOCS - 1
        modifies pool
        invariant forall j :: 0 <= j < i ==> pool[j].next == j + 1
      {
        pool[i] := pool[i].(next := i + 1);
      }
      pool[MAX_TIMER_ALLOCS - 1] := pool[MAX_TIMER_ALLOCS - 1].(next := NULL);
    }

    /** nb__alloc_timer: null when the pool is exhausted. */
    method Alloc() returns (t: int)
      requires Valid()
      modifies this`freeList, this`free
      ensures Valid() && active == old(active) && View() == old(View())
      ensures old(free) == [] ==> t == NULL && free == []
      ensures old(free) != [] ==> t == old(free)[0] && free == old(free)[1..]
      ensures t != NULL ==> 0 <= t < MAX_TIMER_ALLOCS && t !in active && t !in free
    {
      if freeList == NULL {
        return NULL;
      }
      t := freeList;
      freeList := pool[t].next;
      free := free[1..];
    }

    /** nb__return_timer */
    method Return(t: nat)
      requires Valid() && t < MAX_TIMER_ALLOCS && t !in active && t !in free
      modifies this`freeList, this`free, pool
      ensures Valid() && active == old(active) && View() == old(View())
      ensures free == [t] + old(free)
    {
      ghost var before := pool[..];
      pool[t] := pool[t].(next := freeList);
      Unlisted(before, pool[..], head, active, t);
      PushFree(before, pool[..], freeList, free, t);
      freeList := t;
      free := [t] + free;
    }

    /** The search of nb__insert_timer: the first listed timer later than `to`, and the one before it. */
    method FindPlace(to: nat) returns (curr: int, prev: int, ghost k: nat)
      requires Linked(pool[..], head, active)
      ensures Place(ViewOf(pool[..], active), to, k)
      ensures curr == At(active, k) && prev == At(active, k - 1)
    {
      curr, prev, k := head, NULL, 0;
      while curr != NULL
        invariant k <= |active| && curr == At(active, k) && prev == At(active, k - 1)
        invariant forall i :: 0 <= i < k ==> ViewOf(pool[..], active)[i].timeout <= to
        decreases |active| - k
      {
        assert pool[..][active[k]] == pool[curr];
        if pool[curr].timeout > to {
          break;
        }
        prev := curr;
        curr := pool[curr].next;
        k := k + 1;
      }
    }

    /** The relinking of nb__insert_timer, between prev and curr. */
    method LinkBetween(t: nat, prev: int, curr: int, ghost k: nat)
      requires t < pool.Length && Fits(pool[..], active) && t !in active && k <= |active|
      requires pool[t].next == NULL && pool[t].prev == NULL
      requires prev == At(active, k - 1) && curr == At(active, k)
      modifies this`head, pool
      ensures Spliced(old(pool[..]), pool[..], active, k, t, old(pool[t]))
      ensures head == if k == 0 then t else old(head)
    {
      if prev == NULL {
        head := t;
        pool[t] := pool[t].(next := curr);
        if curr != NULL {
          pool[curr] := pool[curr].(prev := t);
        }
      } else {
        pool[prev] := pool[prev].(next := t);
        pool[t] := pool[t].(next := curr);
        pool[t] := pool[t].(prev := prev);
        if curr != NULL {
          pool[curr] := pool[curr].(prev := t);
        }
      }
    }

    /** nb__insert_timer, for a timer that is in neither list. */
    method Insert(t: nat, to: nat, rearm: Option<nat>, arg: Segment)
      requires Valid() && t < MAX_TIMER_ALLOCS && t !in active && t !in free
      modifies this`head, this`active, pool
      ensures Valid() && free == old(free)
      ensures View() == Timers.Insert(old(View()), Armed(t, to, rearm, arg))
    {
      hide BackLinked, Apart, Timers.Insert;
      ghost var obj := TimerObj(NULL, NULL, to, rearm, arg);
      pool[t] := TimerObj(NULL, NULL, to, rearm, arg);
      ghost var before, ids := pool[..], active;
      Unlisted(old(pool[..]), before, head, ids, t);
      Unlisted(old(pool[..]), before, freeList, free, t);
      var curr, prev, k := FindPlace(to);
      InsertAt(View(), Armed(t, to, rearm, arg), k);
      InsertSorted(View(), Armed(t, to, rearm, arg), 0);
      LinkBetween(t, prev, curr, k);
      active := SpliceIds(ids, k, t);
      SplicedLinks(before, pool[..], old(head), ids, k, t, obj);
      SplicedView(before, pool[..], ids, k, t, obj);
      SplicedKeepsFree(before, pool[..], ids, k, t, obj, freeList, free);
    }

    /** The relinking of nb__remove_timer. */
    method Unlink(t: nat, ghost k: nat)
      requires Linked(pool[..], head, active) && BackLinked(pool[..], active)
      requires k < |active| && active[k] == t
      modifies this`head, pool
      ensures Unlinked(old(pool[..]), pool[..], active, k)
      ensures head == if k == 0 then At(active, 1) else old(head)
    {
      assert pool[..][active[k]] == pool[t];
      var next, prev := pool[t].next, pool[t].prev;
      AtUnique(active, k, k - 1);
      AtUnique(active, k, k + 1);
      if next != NULL {
        pool[next] := pool[next].(prev := prev);
      }
      if prev != NULL {
        pool[prev] := pool[prev].(next := next);
      } else {
        head := next;
      }
      pool[t] := pool[t].(next := NULL, prev := NULL);
      pool[t] := pool[t].(timeout := U64_MAX);
    }

    /** nb__remove_timer, for a listed timer. */
    method Remove(t: nat)
      requires Valid() && t in active
      modifies this`head, this`active, pool
      ensures Valid() && free == old(free)
      ensures View() == Timers.Remove(old(View()), t)
      ensures t !in active && t !in free && t < MAX_TIMER_ALLOCS
      ensures pool[t] == old(pool[t]).(next := NULL, prev := NULL, timeout := U64_MAX)
    {
      hide BackLinked, Apart, Timers.Remove;
      ghost var before, ids := pool[..], active;
      ghost var k :| 0 <= k < |ids| && ids[k] == t;
      RemoveSorted(View(), t, 0);
      Unlink(t, k);
      active := CutIds(ids, k);
      UnlinkedLinks(before, pool[..], old(head), ids, k);
      UnlinkedView(before, pool[..], ids, k);
      UnlinkedKeepsFree(before, pool[..], ids, k, freeList, free);
    }

    lemma HeadOfView()
      requires Valid()
      ensures head == NULL <==> View() == []
      ensures head != NULL ==> 0 <= head < pool.Length && head in active && View()[0] == ArmedAt(pool[..], head)
    {
    }

    /** The callback of a timer that has just been taken off the list. */
    method RunCallback(t: nat, now: nat, ghost a: Armed)
      requires Valid() && t < MAX_TIMER_ALLOCS && t !in active && t !in free
      requires a.id == t && a.rearm == pool[t].rearm && a.arg == pool[t].arg
      modifies this`head, this`active, pool
      ensures Valid() && free == old(free)
      ensures View() == AfterCallback(old(View()), a, now)
    {
      hide Sorted, Timers.Insert;
      match pool[t].rearm {
        case None =>
        case Some(delay) =>
          assert Armed(t, now + delay, pool[t].rearm, pool[t].arg) == a.(timeout := now + delay);
          Insert(t, now + delay, pool[t].rearm, pool[t].arg);
      }
    }

    /** One turn of the firing loop: unlist the head and run its callback. */
    method FireFirst(now: nat) returns (a: Armed)
      requires Valid() && View() != []
      modifies this`head, this`active, pool
      ensures Valid() && free == old(free)
      ensures a == old(View())[0]
      ensures View() == AfterCallback(old(View())[1..], a, now)
    {
      HeadOfView();
      var t := head;
      a := Armed(t, pool[t].timeout, pool[t].rearm, pool[t].arg);
      Remove(t);
      assert View() == old(View())[1..];
      RunCallback(t, now, a);
    }

    /** nb__check_timers. The fired timers come out in firing order. */
    method Check(now: nat) returns (fired: seq<Armed>)
      requires Valid() && RearmsLater(View())
      modifies this`head, this`active, pool
      ensures Valid() && free == old(free)
      ensures fired == Due(old(View()), now)
      ensures View() == Checked(old(View()), now) && AllLater(View(), now)
      ensures forall i :: 0 <= i < |old(View())| ==> (i < |fired| <==> old(View())[i].timeout <= now)
      ensures forall i :: 0 <= i < |fired| ==> fired[i] == old(View())[i]
      ensures forall y :: y in View() <==> ArmedAfter(old(View()), y, now)
    {
      hide Checked, ArmedAfter, Sorted;
      fired := [];
      ghost var start := View();
      CheckedAllLater(start, now);
      HeadOfView();
      while head != NULL && pool[head].timeout <= now
        invariant Valid() && free == old(free) && Firing(start, View(), fired, now)
        invariant head == NULL <==> View() == []
        invariant head != NULL ==> 0 <= head < pool.Length && View()[0].timeout == pool[head].timeout
        decreases |Due(View(), now)|
      {
        FiringStep(start, View(), fired, now);
        var a := FireFirst(now);
        fired := fired + [a];
        HeadOfView();
      }
      FiringDone(start, View(), fired, now);
      CheckedReport(start, now);
    }
  }
}
