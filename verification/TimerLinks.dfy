/** The links inside the timer pool, on values: which sequence of pool indices a chain of
    `next` and `prev` fields spells out, and what relinking does to it. */
module TimerLinks {
  import opened Basics
  import opened Timers

  /** The null pointer; any other pointer is an index into nb__allocated_timers. */
  const NULL: int := -1

  datatype TimerObj = TimerObj(next: int, prev: int, timeout: nat, rearm: Option<nat>, arg: Segment)

  ghost function At(ids: seq<nat>, i: int): int {
    if 0 <= i < |ids| then ids[i] else NULL
  }

  ghost predicate DistinctIds(ids: seq<nat>) {
    forall i, j :: 0 <= i < j < |ids| ==> ids[i] != ids[j]
  }

  ghost predicate Fits(pool: seq<TimerObj>, ids: seq<nat>) {
    DistinctIds(ids) && forall i :: 0 <= i < |ids| ==> ids[i] < |pool|
  }

  /** From `head`, the next fields visit exactly `ids` and end in null. */
  ghost predicate Linked(pool: seq<TimerObj>, head: int, ids: seq<nat>) {
    && Fits(pool, ids)
    && head == At(ids, 0)
    && forall i {:trigger pool[ids[i]]} :: 0 <= i < |ids| ==> pool[ids[i]].next == At(ids, i + 1)
  }

  /** The prev fields are the inverse of the next fields. */
  ghost predicate BackLinked(pool: seq<TimerObj>, ids: seq<nat>) {
    && Fits(pool, ids)
    && forall i {:trigger pool[ids[i]]} :: 0 <= i < |ids| ==> pool[ids[i]].prev == At(ids, i - 1)
  }

  ghost predicate Apart(a: seq<nat>, b: seq<nat>) {
    forall i, j :: 0 <= i < |a| && 0 <= j < |b| ==> a[i] != b[j]
  }

  function ArmedAt(pool: seq<TimerObj>, t: nat): Armed
    requires t < |pool|
  {
    Armed(t, pool[t].timeout, pool[t].rearm, pool[t].arg)
  }

  ghost function ViewOf(pool: seq<TimerObj>, ids: seq<nat>): (v: seq<Armed>)
    requires Fits(pool, ids)
    ensures |v| == |ids| && Distinct(v)
    ensures forall i :: 0 <= i < |ids| ==> v[i].id == ids[i]
  {
    seq(|ids|, i requires 0 <= i < |ids| => ArmedAt(pool, ids[i]))
  }

  /** Writing to a timer outside a list leaves the list alone. */
  lemma Unlisted(pool: seq<TimerObj>, r: seq<TimerObj>, head: int, ids: seq<nat>, t: nat)
    requires Linked(pool, head, ids) && t < |pool| && t !in ids && |r| == |pool| && r == pool[t := r[t]]
    ensures Linked(r, head, ids) && ViewOf(r, ids) == ViewOf(pool, ids)
    ensures BackLinked(pool, ids) ==> BackLinked(r, ids)
  {
  }

  /** A timer put in front of a list, its next field set to the old head. */
  lemma PushFree(pool: seq<TimerObj>, r: seq<TimerObj>, head: int, ids: seq<nat>, t: nat)
    requires Linked(pool, head, ids) && t < |pool| == |r| && t !in ids && r == pool[t := r[t]] && r[t].next == head
    ensures Linked(r, t, [t] + ids)
  {
  }

  // ---- Splicing a timer in ----

  function SpliceIds(ids: seq<nat>, k: nat, t: nat): seq<nat>
    requires k <= |ids|
  {
    ids[..k] + [t] + ids[k..]
  }

  /** r is the pool with timer t, holding obj, linked in before position k. */
  ghost predicate Spliced(pool: seq<TimerObj>, r: seq<TimerObj>, ids: seq<nat>, k: nat, t: nat, obj: TimerObj) {
    && |r| == |pool| && t < |pool|
    && r[t] == obj.(next := At(ids, k), prev := At(ids, k - 1))
    && forall x :: 0 <= x < |pool| && x != t ==>
      r[x] == pool[x].(next := if x == At(ids, k - 1) then t else pool[x].next,
                       prev := if x == At(ids, k) then t else pool[x].prev)
  }

  /** r is the pool with the timer at position k unlinked. */
  ghost predicate Unlinked(pool: seq<TimerObj>, r: seq<TimerObj>, ids: seq<nat>, k: nat)
    requires k < |ids|
  {
    && |r| == |pool| && ids[k] < |pool|
    && r[ids[k]] == pool[ids[k]].(next := NULL, prev := NULL, timeout := U64_MAX)
    && forall x :: 0 <= x < |pool| && x != ids[k] ==>
      r[x] == pool[x].(next := if x == At(ids, k - 1) then At(ids, k + 1) else pool[x].next,
                       prev := if x == At(ids, k + 1) then At(ids, k - 1) else pool[x].prev)
  }

  lemma AtUnique(ids: seq<nat>, o: nat, m: int)
    requires DistinctIds(ids) && o < |ids|
    ensures ids[o] == At(ids, m) <==> o == m
  {
  }

  lemma AtSplice(ids: seq<nat>, k: nat, t: nat, i: int)
    requires k <= |ids|
    ensures At(SpliceIds(ids, k, t), i) == if i < k then At(ids, i) else if i == k then t else At(ids, i - 1)
  {
  }

  lemma SpliceFits(pool: seq<TimerObj>, ids: seq<nat>, k: nat, t: nat)
    requires Fits(pool, ids) && k <= |ids| && t < |pool| && t !in ids
    ensures Fits(pool, SpliceIds(ids, k, t))
  {
  }

  lemma SplicedLinkAt(pool: seq<TimerObj>, r: seq<TimerObj>, ids: seq<nat>, k: nat, t: nat, obj: TimerObj, i: nat)
    requires Fits(pool, ids) && k <= |ids| && t !in ids && Spliced(pool, r, ids, k, t, obj)
    requires forall o {:trigger pool[ids[o]]} :: 0 <= o < |ids| ==> pool[ids[o]].next == At(ids, o + 1) && pool[ids[o]].prev == At(ids, o - 1)
    requires i <= |ids|
    ensures var ids' := SpliceIds(ids, k, t);
      ids'[i] < |r| && r[ids'[i]].next == At(ids', i + 1) && r[ids'[i]].prev == At(ids', i - 1)
  {
  }

  lemma SplicedLinks(pool: seq<TimerObj>, r: seq<TimerObj>, head: int, ids: seq<nat>, k: nat, t: nat, obj: TimerObj)
    requires Linked(pool, head, ids) && BackLinked(pool, ids) && k <= |ids| && t !in ids
    requires Spliced(pool, r, ids, k, t, obj)
    ensures Linked(r, if k == 0 then t else head, SpliceIds(ids, k, t)) && BackLinked(r, SpliceIds(ids, k, t))
  {
    var ids' := SpliceIds(ids, k, t);
    SpliceFits(pool, ids, k, t);
    forall i | 0 <= i < |ids'|
      ensures r[ids'[i]].next == At(ids', i + 1) && r[ids'[i]].prev == At(ids', i - 1)
    {
      SplicedLinkAt(pool, r, ids, k, t, obj, i);
    }
    AtSplice(ids, k, t, 0);
  }

  lemma SplicedView(pool: seq<TimerObj>, r: seq<TimerObj>, ids: seq<nat>, k: nat, t: nat, obj: TimerObj)
    requires Fits(pool, ids) && k <= |ids| && t !in ids && Spliced(pool, r, ids, k, t, obj)
    ensures Fits(r, SpliceIds(ids, k, t))
    ensures ViewOf(r, SpliceIds(ids, k, t)) ==
      ViewOf(pool, ids)[..k] + [Armed(t, obj.timeout, obj.rearm, obj.arg)] + ViewOf(pool, ids)[k..]
  {
    SpliceFits(pool, ids, k, t);
  }

  lemma SplicedKeepsFree(pool: seq<TimerObj>, r: seq<TimerObj>, ids: seq<nat>, k: nat, t: nat, obj: TimerObj,
                         first: int, free: seq<nat>)
    requires Fits(pool, ids) && k <= |ids| && t !in free && Spliced(pool, r, ids, k, t, obj)
    requires Linked(pool, first, free) && Apart(ids, free)
    ensures Linked(r, first, free)
    ensures Apart(SpliceIds(ids, k, t), free)
  {
  }

  // ---- Unlinking a timer ----

  function CutIds(ids: seq<nat>, k: nat): seq<nat>
    requires k < |ids|
  {
    ids[..k] + ids[k + 1..]
  }

  lemma AtCut(ids: seq<nat>, k: nat, i: int)
    requires k < |ids|
    ensures At(CutIds(ids, k), i) == if i < k then At(ids, i) else At(ids, i + 1)
  {
  }

  lemma {:induction false} UnlinkedLinkAt(pool: seq<TimerObj>, r: seq<TimerObj>, ids: seq<nat>, k: nat, i: nat)
    requires Fits(pool, ids) && k < |ids| && Unlinked(pool, r, ids, k)
    requires forall o {:trigger pool[ids[o]]} :: 0 <= o < |ids| ==> pool[ids[o]].next == At(ids, o + 1) && pool[ids[o]].prev == At(ids, o - 1)
    requires i < |ids| - 1
    ensures var ids' := CutIds(ids, k);
      ids'[i] < |r| && r[ids'[i]].next == At(ids', i + 1) && r[ids'[i]].prev == At(ids', i - 1)
  {
  }

  lemma {:induction false} UnlinkedLinks(pool: seq<TimerObj>, r: seq<TimerObj>, head: int, ids: seq<nat>, k: nat)
    requires Linked(pool, head, ids) && BackLinked(pool, ids) && k < |ids| && Unlinked(pool, r, ids, k)
    ensures Linked(r, if k == 0 then At(ids, 1) else head, CutIds(ids, k)) && BackLinked(r, CutIds(ids, k))
  {
    var ids' := CutIds(ids, k);
    forall i | 0 <= i < |ids'|
      ensures r[ids'[i]].next == At(ids', i + 1) && r[ids'[i]].prev == At(ids', i - 1)
    {
      UnlinkedLinkAt(pool, r, ids, k, i);
    }
    AtCut(ids, k, 0);
  }

  lemma {:induction false} UnlinkedView(pool: seq<TimerObj>, r: seq<TimerObj>, ids: seq<nat>, k: nat)
    requires Fits(pool, ids) && k < |ids| && Unlinked(pool, r, ids, k)
    ensures Fits(r, CutIds(ids, k))
    ensures ViewOf(r, CutIds(ids, k)) == Remove(ViewOf(pool, ids), ids[k])
  {
    hide Timers.Remove;
    var v := ViewOf(pool, ids);
    RemoveAt(v, k);
    var cut := CutIds(ids, k);
    forall i | 0 <= i < |cut| ensures ViewOf(r, cut)[i] == (v[..k] + v[k + 1..])[i] {
      var o := if i < k then i else i + 1;
      assert cut[i] == ids[o] && ids[o] != ids[k];
    }
  }

  lemma {:induction false} UnlinkedKeepsFree(pool: seq<TimerObj>, r: seq<TimerObj>, ids: seq<nat>, k: nat, first: int, free: seq<nat>)
    requires Fits(pool, ids) && k < |ids| && Unlinked(pool, r, ids, k) && Linked(pool, first, free) && Apart(ids, free)
    ensures Linked(r, first, free)
    ensures Apart(CutIds(ids, k), free)
    ensures ids[k] !in CutIds(ids, k) && ids[k] !in free
  {
  }
}
