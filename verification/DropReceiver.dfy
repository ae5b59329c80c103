/** The drop_out_of_order receiver of the inorder module, over a channel that may lose,
    duplicate and reorder, for runs of any length. */
module DropReceiver {
  import opened Basics
  import opened Resequencer

  datatype DropRx = DropRx(last: nat, queue: seq<Payload>)

  /** One run of the hook: deliver a number above every number delivered before, drop the rest. */
  function Step(rx: DropRx, s: Segment): DropRx {
    if rx.last < s.num then DropRx(s.num, Enqueue(rx.queue, s.payload)) else rx
  }

  function Receive(arrivals: seq<Segment>): DropRx {
    if arrivals == [] then DropRx(0, [])
    else Step(Receive(arrivals[..|arrivals| - 1]), arrivals[|arrivals| - 1])
  }

  /** The newest arrival has a number above those of all earlier ones. */
  predicate IsRecord(arrivals: seq<Segment>)
    requires arrivals != []
  {
    var s := arrivals[|arrivals| - 1];
    0 < s.num && forall k :: 0 <= k < |arrivals| - 1 ==> arrivals[k].num < s.num
  }

  /** Non-empty payloads of the arrivals that were records when they came. */
  function RecordPayloads(arrivals: seq<Segment>): seq<Payload> {
    if arrivals == [] then []
    else
      var before := RecordPayloads(arrivals[..|arrivals| - 1]);
      if IsRecord(arrivals) then Enqueue(before, arrivals[|arrivals| - 1].payload) else before
  }

  /** `last` is the highest number seen, and delivery takes exactly the records. */
  lemma {:induction false} DeliversRecords(arrivals: seq<Segment>)
    ensures forall i :: 0 <= i < |arrivals| ==> arrivals[i].num <= Receive(arrivals).last
    ensures Receive(arrivals).last == 0 || exists i :: 0 <= i < |arrivals| && arrivals[i].num == Receive(arrivals).last
    ensures Receive(arrivals).queue == RecordPayloads(arrivals)
  {
    if arrivals != [] {
      var n := |arrivals| - 1;
      var before := arrivals[..n];
      DeliversRecords(before);
      if Receive(before).last != 0 {
        var i :| 0 <= i < |before| && before[i].num == Receive(before).last;
        assert arrivals[i] == before[i];
      }
      forall k | 0 <= k < n ensures arrivals[k].num <= Receive(before).last {
        assert arrivals[k] == before[k];
      }
      assert IsRecord(arrivals) <==> Receive(before).last < arrivals[n].num;
    }
  }

  /** Every arrival carries one of the sent payloads under its own number. */
  predicate FromSender(arrivals: seq<Segment>, sent: seq<Payload>, first: nat) {
    forall i :: 0 <= i < |arrivals| ==>
      first <= arrivals[i].num < first + |sent| && arrivals[i].payload == sent[arrivals[i].num - first]
  }

  /** `got` is picked from `all` at the strictly increasing positions `at`. */
  ghost predicate PickedAt(got: seq<Payload>, all: seq<Payload>, at: seq<nat>) {
    && |at| == |got|
    && (forall j, k :: 0 <= j < k < |at| ==> at[j] < at[k])
    && (forall j :: 0 <= j < |at| ==> at[j] < |all| && all[at[j]] == got[j])
  }

  lemma {:induction false} Picks(arrivals: seq<Segment>, sent: seq<Payload>, first: nat) returns (at: seq<nat>)
    requires 0 < first && FromSender(arrivals, sent, first)
    ensures PickedAt(Receive(arrivals).queue, sent, at)
    ensures forall j :: 0 <= j < |at| ==> at[j] + first <= Receive(arrivals).last
  {
    if arrivals == [] {
      at := [];
    } else {
      var s := arrivals[|arrivals| - 1];
      at := Picks(arrivals[..|arrivals| - 1], sent, first);
      if Receive(arrivals[..|arrivals| - 1]).last < s.num && s.payload != [] {
        at := at + [s.num - first];
      }
    }
  }

  /** Whatever the channel does, the application sees a subsequence of what was sent:
      sending order, no repeats. */
  lemma {:induction false} DeliversSubsequence(arrivals: seq<Segment>, sent: seq<Payload>, first: nat)
    requires 0 < first && FromSender(arrivals, sent, first)
    ensures exists at :: PickedAt(Receive(arrivals).queue, sent, at)
  {
    var at := Picks(arrivals, sent, first);
  }
}
