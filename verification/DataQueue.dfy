/** The input queue of a connection, from which the application reads one payload at a time. */
module DataQueue {
  import opened Basics

  const MAX_DATA_QUEUE_ELEMS: nat := 512

  /** What a read into a buffer of maxLen bytes returns of a payload. */
  function Cut(p: Payload, maxLen: nat): Payload {
    if maxLen < |p| then p[..maxLen] else p
  }

  class Queue {
    const elems: array<Payload>
    var currentElems: nat

    ghost predicate Valid()
      reads this`currentElems
    {
      elems.Length == MAX_DATA_QUEUE_ELEMS && currentElems <= MAX_DATA_QUEUE_ELEMS
    }

    ghost function Contents(): seq<Payload>
      requires Valid()
      reads this`currentElems, elems
    {
      elems[..currentElems]
    }

    constructor ()
      ensures Valid() && Contents() == [] && fresh(elems)
    {
      elems := new Payload[MAX_DATA_QUEUE_ELEMS](_ => []);
      currentElems := 0;
    }

    /** nb__insert_data_queue */
    method Insert(p: Payload)
      requires Valid() && currentElems < MAX_DATA_QUEUE_ELEMS
      modifies this`currentElems, elems
      ensures Valid() && Contents() == old(Contents()) + [p]
    {
      var index := currentElems;
      currentElems := currentElems + 1;
      elems[index] := p;
    }

    /** nb__read: the first payload, cut to the buffer; the others move up. */
    method Read(maxLen: nat) returns (data: Payload)
      requires Valid()
      modifies this`currentElems, elems
      ensures Valid()
      ensures old(Contents()) == [] ==> data == [] && Contents() == []
      ensures old(Contents()) != [] ==> data == Cut(old(Contents())[0], maxLen) && Contents() == old(Contents())[1..]
    {
      if currentElems == 0 {
        return [];
      }
      var payload := elems[0];
      for i := 1 to currentElems
        invariant currentElems == old(currentElems)
        invariant forall k :: 0 <= k < i - 1 ==> elems[k] == old(elems[k + 1])
        invariant forall k :: i - 1 <= k < elems.Length ==> elems[k] == old(elems[k])
      {
        elems[i - 1] := elems[i];
      }
      currentElems := currentElems - 1;
      return if maxLen < |payload| then payload[..maxLen] else payload;
    }
  }

  // ---- Runs of inserts and reads ----

  datatype Op = Put(p: Payload) | Get(maxLen: nat)

  /** What is queued and what the reads that found one have returned. */
  datatype State = State(left: seq<Payload>, given: seq<Payload>)

  function After(ops: seq<Op>): State {
    if ops == [] then State([], [])
    else
      var s := After(ops[..|ops| - 1]);
      match ops[|ops| - 1]
      case Put(p) => s.(left := s.left + [p])
      case Get(maxLen) => if s.left == [] then s else State(s.left[1..], s.given + [Cut(s.left[0], maxLen)])
  }

  function Inserted(ops: seq<Op>): seq<Payload> {
    if ops == [] then []
    else
      var before := Inserted(ops[..|ops| - 1]);
      if ops[|ops| - 1].Put? then before + [ops[|ops| - 1].p] else before
  }

  /** Every successful read found a payload that fits its buffer. */
  predicate Roomy(ops: seq<Op>) {
    ops == [] ||
    (var s := After(ops[..|ops| - 1]);
     && Roomy(ops[..|ops| - 1])
     && (ops[|ops| - 1].Get? && s.left != [] ==> |s.left[0]| <= ops[|ops| - 1].maxLen))
  }

  /** The i-th read has returned the beginning of the i-th payload inserted, and what is left are the later ones. */
  ghost predicate InTurn(s: State, all: seq<Payload>) {
    && |s.given| <= |all| && s.left == all[|s.given|..]
    && forall i :: 0 <= i < |s.given| ==> s.given[i] <= all[i]
  }

  lemma PutInTurn(s: State, all: seq<Payload>, p: Payload)
    requires InTurn(s, all)
    ensures InTurn(s.(left := s.left + [p]), all + [p])
    ensures (all + [p])[..|s.given|] == all[..|s.given|]
  {
    assert (all + [p])[|s.given|..] == all[|s.given|..] + [p];
  }

  lemma GetInTurn(s: State, all: seq<Payload>, maxLen: nat)
    requires InTurn(s, all) && s.left != []
    ensures InTurn(State(s.left[1..], s.given + [Cut(s.left[0], maxLen)]), all)
    ensures s.given + [Cut(s.left[0], maxLen)] == all[..|s.given| + 1] <==>
      s.given == all[..|s.given|] && |s.left[0]| <= maxLen
  {
    var k, cut := |s.given|, Cut(s.left[0], maxLen);
    assert s.left[0] == all[k] && s.left[1..] == all[k + 1..];
    assert all[..k + 1] == all[..k] + [all[k]];
    assert (s.given + [cut])[..k] == s.given && (s.given + [cut])[k] == cut;
    assert (all[..k] + [all[k]])[..k] == all[..k] && (all[..k] + [all[k]])[k] == all[k];
  }

  /** First in, first out, and nothing is cut off if and only if every buffer was large enough. */
  lemma {:induction false} FirstInFirstOut(ops: seq<Op>)
    ensures InTurn(After(ops), Inserted(ops))
    ensures After(ops).given == Inserted(ops)[..|After(ops).given|] <==> Roomy(ops)
  {
    hide InTurn, Cut;
    if ops == [] {
      NothingYet();
    } else {
      var before := ops[..|ops| - 1];
      FirstInFirstOut(before);
      TurnBounds(After(before), Inserted(before));
      match ops[|ops| - 1] {
        case Put(p) => PutInTurn(After(before), Inserted(before), p);
        case Get(maxLen) =>
          if After(before).left != [] {
            GetInTurn(After(before), Inserted(before), maxLen);
          }
      }
      TurnBounds(After(ops), Inserted(ops));
    }
  }

  lemma NothingYet()
    ensures InTurn(State([], []), [])
  {
  }

  lemma TurnBounds(s: State, all: seq<Payload>)
    requires InTurn(s, all)
    ensures |s.given| <= |all|
  {
  }
}
