/** The receive accounting of the mlx5 transport: packet counts read off an 8-entry completion
    ring whose positions wrap at 2^25. */
module CompletionCounter {

  const TOTAL_CYCLES: nat := 0x200_0000   // 65536 * 512
  const RING: nat := 8
  const MAX_ADVANCE: nat := 4096

  /** A completion entry: the low 16 bits of the buffer number and the packet's place in it. */
  datatype Cqe = Cqe(wqeId: nat, wqeCounter: nat)

  function RecvCycle(e: Cqe): nat {
    e.wqeId * 512 + e.wqeCounter
  }

  /** Ring position of the last of `n` packets; before the first packet it is the last position. */
  function Position(n: nat): (p: nat)
    ensures p < TOTAL_CYCLES
  {
    (n + TOTAL_CYCLES - 1) % TOTAL_CYCLES
  }

  function EntryAt(n: nat): Cqe {
    Cqe(Position(n) / 512, Position(n) % 512)
  }

  /** The difference get_packet_count takes. */
  function Advance(cycle: nat, last: nat): nat
    requires last < TOTAL_CYCLES
  {
    (cycle + TOTAL_CYCLES - last) % TOTAL_CYCLES
  }

  /** Running packet totals, one per completion, starting at 0. */
  ghost predicate Totals(ts: seq<nat>) {
    && ts != [] && ts[0] == 0
    && forall k :: 0 < k < |ts| ==> ts[k - 1] < ts[k] <= ts[k - 1] + MAX_ADVANCE
  }

  /** The completion last written to entry j after w completions; 0 if there is none yet. */
  function Latest(w: nat, j: nat): (k: nat)
    ensures k <= w
  {
    if w <= j then 0 else w - (w - j - 1) % RING
  }

  lemma {:induction false} TotalsGap(ts: seq<nat>, i: nat, j: nat)
    requires Totals(ts) && i <= j < |ts|
    ensures ts[i] + (j - i) <= ts[j] <= ts[i] + MAX_ADVANCE * (j - i)
    decreases j
  {
    if i < j {
      TotalsGap(ts, i, j - 1);
    }
  }

  lemma AdvanceForward(a: nat, b: nat)
    requires a <= b <= a + MAX_ADVANCE
    ensures Advance(Position(b), Position(a)) == b - a
  {
  }

  lemma AdvanceStale(a: nat, b: nat)
    requires a < b < a + TOTAL_CYCLES - MAX_ADVANCE
    ensures Advance(Position(a), Position(b)) == TOTAL_CYCLES - (b - a) > MAX_ADVANCE
  {
  }

  lemma EntryRoundTrip(n: nat)
    ensures RecvCycle(EntryAt(n)) == Position(n) < TOTAL_CYCLES
    ensures EntryAt(n).wqeId < 65536 && EntryAt(n).wqeCounter < 512
  {
  }

  /** The entry to be polled is the next completion if there is one, and otherwise an entry at
      least a whole ring old. */
  lemma PolledEntry(read: nat, w: nat)
    requires read <= w <= read + RING
    ensures read < w ==> Latest(w, read % RING) == read + 1
    ensures read == w ==> Latest(w, read % RING) == if read < RING then 0 else read - 7
  {
    var q, j := read / RING, read % RING;
    assert read == 8 * q + j;
    if read < w {
      assert w - j - 1 == 8 * q + (w - read - 1);
      assert (w - j - 1) % RING == w - read - 1;
    } else if q > 0 {
      assert w - j - 1 == 8 * (q - 1) + 7;
      assert (w - j - 1) % RING == 7;
    }
  }

  /** A poll counts the next completion exactly, and never an old or initial entry. */
  lemma PollCounts(ts: seq<nat>, read: nat, w: nat)
    requires Totals(ts) && w < |ts| && read <= w <= read + RING
    ensures var diff := Advance(Position(ts[Latest(w, read % RING)]), Position(ts[read]));
      if read < w then diff == ts[read + 1] - ts[read] && 0 < diff <= MAX_ADVANCE
      else diff == 0 || diff > MAX_ADVANCE
  {
    PolledEntry(read, w);
    if read < w {
      AdvanceForward(ts[read], ts[read + 1]);
    } else {
      var old_ := Latest(w, read % RING);
      TotalsGap(ts, old_, read);
      if old_ < read {
        AdvanceStale(ts[old_], ts[read]);
      } else {
        AdvanceForward(ts[read], ts[read]);
      }
    }
  }

  /** What get_packet_count makes of an entry: 0 unless it lies 1 to 4096 ahead. */
  function Counted(e: Cqe, last: nat): nat
    requires last < TOTAL_CYCLES
  {
    var diff := Advance(RecvCycle(e), last);
    if diff == 0 || diff > MAX_ADVANCE then 0 else diff
  }

  lemma PollExact(ts: seq<nat>, read: nat, w: nat, e: Cqe)
    requires Totals(ts) && w < |ts| && read <= w <= read + RING && e == EntryAt(ts[Latest(w, read % RING)])
    ensures Counted(e, Position(ts[read])) == if read < w then ts[read + 1] - ts[read] else 0
    ensures read < w ==> RecvCycle(e) == Position(ts[read + 1]) && ts[read] < ts[read + 1]
  {
    EntryRoundTrip(ts[Latest(w, read % RING)]);
    PollCounts(ts, read, w);
    PolledEntry(read, w);
  }

  lemma NextSlot(read: nat)
    ensures (read % RING + 1) % RING == (read + 1) % RING
  {
  }

  lemma SameResidue(w: nat, j: nat)
    requires j < RING && j < w
    ensures j == w % RING <==> (w - j - 1) % RING == 7
  {
    var q, r := (w - j - 1) / RING, (w - j - 1) % RING;
    assert w == RING * q + (r + j + 1);
  }

  lemma NextResidue(d: nat)
    ensures (d + 1) % RING == if d % RING == 7 then 0 else d % RING + 1
  {
    assert d + 1 == RING * (d / RING) + (d % RING + 1);
  }

  lemma LatestStep(w: nat, j: nat)
    requires j < RING
    ensures Latest(w + 1, j) == if j == w % RING then w + 1 else Latest(w, j)
  {
    if w > j {
      SameResidue(w, j);
      NextResidue(w - j - 1);
    }
  }

  lemma TotalsStep(ts: seq<nat>, advance: nat)
    requires Totals(ts) && 1 <= advance <= MAX_ADVANCE
    ensures Totals(ts + [ts[|ts| - 1] + advance])
  {
  }

  /** Each entry of the ring holds the completion last written to it. */
  ghost predicate FilledInOrder(cqes: seq<Cqe>, ts: seq<nat>) {
    && |cqes| == RING && Totals(ts)
    && forall j :: 0 <= j < RING ==> cqes[j] == EntryAt(ts[Latest(|ts| - 1, j)])
  }

  class Transport {
    const cqes: array<Cqe>
    var cqeIdx: nat
    var recvIndexCycle: nat
    var recvsToPost: nat
    var recvIndexToPost: nat
    var reposts: nat                // buffers handed back to the device
    ghost var totals: seq<nat>      // packets received, after each completion
    ghost var read: nat             // completions polled so far

    ghost predicate Valid()
      reads this, cqes
    {
      && FilledInOrder(cqes[..], totals) && read < |totals| <= read + RING + 1
      && cqeIdx == read % RING
      && recvIndexCycle == Position(totals[read])
      && recvsToPost < 512 && 512 * reposts + recvsToPost == totals[read]
      && recvIndexToPost == reposts % RING
    }

    /** The shape given to the ring before any packet is received. */
    constructor ()
      ensures Valid() && totals == [0] && read == 0 && reposts == 0 && recvsToPost == 0 && fresh(cqes)
    {
      cqes := new Cqe[RING](_ => Cqe(65535, 511));
      cqeIdx, recvIndexCycle := 0, RecvCycle(Cqe(65535, 511));
      recvsToPost, recvIndexToPost, reposts := 0, 0, 0;
      totals, read := [0], 0;
    }

    /** The device completes: it fills the entries in order and does not overrun the poller. */
    method Complete(entry: Cqe, slot: nat, ghost advance: nat)
      requires Valid() && 1 <= advance <= MAX_ADVANCE && |totals| <= read + RING
      requires slot == (|totals| - 1) % RING && entry == EntryAt(totals[|totals| - 1] + advance)
      modifies this`totals, cqes
      ensures Valid() && totals == old(totals) + [old(totals)[|old(totals)| - 1] + advance]
    {
      ghost var ts, w := totals, |totals| - 1;
      TotalsStep(ts, advance);
      cqes[slot] := entry;
      totals := totals + [totals[|totals| - 1] + advance];
      forall j | 0 <= j < RING ensures cqes[..][j] == EntryAt(totals[Latest(w + 1, j)]) {
        LatestStep(w, j);
        assert j != slot ==> totals[Latest(w, j)] == ts[Latest(w, j)];
      }
    }

    /** get_packet_count */
    method GetPacketCount() returns (n: nat)
      requires Valid()
      modifies this`cqeIdx, this`recvIndexCycle, this`read
      ensures old(read) + 1 == |totals| ==> n == 0 && read == old(read) && recvIndexCycle == old(recvIndexCycle)
      ensures old(read) + 1 < |totals| ==>
        && read == old(read) + 1 && n == totals[read] - totals[old(read)] && recvIndexCycle == Position(totals[read])
      ensures cqeIdx == read % RING && read < |totals|
    {
      hide Position, EntryAt, Latest, RecvCycle;
      PollExact(totals, read, |totals| - 1, cqes[cqeIdx]);
      NextSlot(read);
      var newCycle := RecvCycle(cqes[cqeIdx]);
      var diff := Advance(newCycle, recvIndexCycle);
      if diff == 0 || diff > MAX_ADVANCE {
        return 0;
      }
      cqeIdx := (cqeIdx + 1) % RING;
      recvIndexCycle := newCycle;
      read := read + 1;
      return diff;
    }

    /** The reposting loop: whole buffers of 512 packets go back to the device. */
    method Repost()
      requires recvIndexToPost == reposts % RING
      modifies this`recvsToPost, this`recvIndexToPost, this`reposts
      ensures 512 * reposts + recvsToPost == old(512 * reposts + recvsToPost) && recvsToPost < 512
      ensures recvIndexToPost == reposts % RING
    {
      while recvsToPost >= 512
        invariant 512 * reposts + recvsToPost == old(512 * reposts + recvsToPost)
        invariant recvIndexToPost == reposts % RING
      {
        recvIndexToPost := (recvIndexToPost + 1) % RING;
        reposts := reposts + 1;
        recvsToPost := recvsToPost - 512;
      }
    }

    /** mlx5_try_recv */
    method TryRecv() returns (n: nat)
      requires Valid()
      modifies this`cqeIdx, this`recvIndexCycle, this`read, this`recvsToPost, this`recvIndexToPost, this`reposts
      ensures Valid()
      ensures old(read) + 1 == |totals| ==> n == 0 && read == old(read)
      ensures old(read) + 1 < |totals| ==> read == old(read) + 1 && n == totals[read] - totals[old(read)]
    {
      hide Position, FilledInOrder;
      n := GetPacketCount();
      recvsToPost := recvsToPost + n;
      Repost();
    }
  }
}
