/** Demultiplexing of arriving packets and nb__accept, whose loop edits the accept queue while
    it replays packets through the ingress path. */
module Accepting {
  import opened Basics
  import opened ConnectionTable
  import NetState

  const MAX_ACCEPT_QUEUE_ELEMS: nat := 512
  const TWO_32: nat := 0x1_0000_0000

  datatype Frame = Frame(dstHost: nat, dstApp: nat, srcApp: nat, srcHost: nat, body: nat)

  /** An accept queue element; the packet may be null. */
  datatype Queued = Queued(srcApp: nat, srcHost: nat, packet: Option<Frame>)

  datatype Routed = Dropped | To(conn: nat) | Queue(listener: nat) | Abort

  /** identifier_module::hook_ingress in src_dst mode. */
  function Route(es: seq<Entry>, myHost: nat, p: Frame): Routed {
    if p.dstHost != myHost then Dropped
    else
      match Lookup(es, Key(p.dstApp, p.srcApp, p.srcHost))
      case Some(c) => To(c)
      case None =>
        match Lookup(es, Key(p.dstApp, 0, 0))
        case Some(l) => Queue(l)
        case None => Abort
  }

  /** Where a packet goes, by the live keys of the table: another host's is dropped; the connection of its
      flow gets it; without one a wildcard listener queues it; without either the process aborts. */
  lemma {:induction false} RouteExactly(es: seq<Entry>, myHost: nat, p: Frame, c: nat)
    requires DistinctKeys(es)
    ensures Route(es, myHost, p) == Dropped <==> p.dstHost != myHost
    ensures Route(es, myHost, p) == To(c) <==> p.dstHost == myHost && Entry(Key(p.dstApp, p.srcApp, p.srcHost), c) in es
    ensures Route(es, myHost, p) == Queue(c) <==> p.dstHost == myHost && !Live(es, Key(p.dstApp, p.srcApp, p.srcHost)) && Entry(Key(p.dstApp, 0, 0), c) in es
    ensures Route(es, myHost, p) == Abort <==> p.dstHost == myHost && !Live(es, Key(p.dstApp, p.srcApp, p.srcHost)) && !Live(es, Key(p.dstApp, 0, 0))
  {
    LookupExact(es, Key(p.dstApp, p.srcApp, p.srcHost), c);
    LookupExact(es, Key(p.dstApp, 0, 0), c);
  }

  ghost predicate Live(es: seq<Entry>, key: Key) {
    exists i :: 0 <= i < |es| && es[i].key == key
  }

  /** The entry nb__establish adds for a queued flow; its host parameter has 32 bits. */
  function EntryFor(q: Queued, localApp: nat, s: nat): Entry {
    Entry(Key(localApp, q.srcApp, q.srcHost % TWO_32), s)
  }

  predicate SameFlow(q: Queued, r: Queued) {
    q.srcApp == r.srcApp && q.srcHost == r.srcHost
  }

  /** The packet was queued for this listener under its own source. */
  predicate Consistent(q: Queued, myHost: nat, localApp: nat) {
    q.packet.Some? ==>
      var p := q.packet.value;
      p.dstHost == myHost && p.dstApp == localApp && p.srcApp == q.srcApp && p.srcHost == q.srcHost
  }

  function KeyOf(q: Queued, localApp: nat): Key {
    Key(localApp, q.srcApp, q.srcHost)
  }

  /** Some connection, an older one or the new one, answers for the flow after nb__establish. */
  predicate Reachable(es: seq<Entry>, q: Queued, localApp: nat) {
    q.srcHost < TWO_32 || Lookup(es, KeyOf(q, localApp)).Some?
  }

  /** The connection replayed packets go to: an older one wins over the new one s. */
  function Target(es: seq<Entry>, q: Queued, localApp: nat, s: nat): nat {
    match Lookup(es, KeyOf(q, localApp))
    case Some(c) => c
    case None => s
  }

  lemma {:induction false} TargetFound(es: seq<Entry>, q: Queued, localApp: nat, s: nat)
    requires Reachable(es, q, localApp)
    ensures Lookup(es + [EntryFor(q, localApp, s)], KeyOf(q, localApp)) == Some(Target(es, q, localApp, s))
  {
    LookupAppend(es, EntryFor(q, localApp, s), KeyOf(q, localApp));
  }

  lemma {:induction false} LookupListed(es: seq<Entry>, key: Key)
    requires Lookup(es, key).Some?
    ensures exists i :: 0 <= i < |es| && es[i].conn == Lookup(es, key).value
  {
    if es[0].key != key {
      LookupListed(es[1..], key);
      var i :| 0 <= i < |es[1..]| && es[1..][i].conn == Lookup(es[1..], key).value;
      assert es[i + 1] == es[1..][i];
    }
  }

  /** A replayed packet reaches the new connection if and only if its host id fits 32 bits and no older
      connection has its key; an older one takes it, and without either it goes back to the queue. */
  lemma {:induction false} ReplayReaches(es: seq<Entry>, q: Queued, myHost: nat, localApp: nat, s: nat, listener: nat)
    requires q.packet.Some? && Consistent(q, myHost, localApp)
    requires Lookup(es, Key(localApp, 0, 0)) == Some(listener) && forall i :: 0 <= i < |es| ==> es[i].conn != s
    ensures var r := Route(es + [EntryFor(q, localApp, s)], myHost, q.packet.value);
      && (r == To(s) <==> q.srcHost < TWO_32 && Lookup(es, KeyOf(q, localApp)) == None)
      && r == if Reachable(es, q, localApp) then To(Target(es, q, localApp, s)) else Queue(listener)
  {
    LookupAppend(es, EntryFor(q, localApp, s), KeyOf(q, localApp));
    LookupAppend(es, EntryFor(q, localApp, s), Key(localApp, 0, 0));
    if Lookup(es, KeyOf(q, localApp)).Some? {
      LookupListed(es, KeyOf(q, localApp));
    }
  }

  /** What replaying these elements hands to connection s. */
  function Deliveries(s: nat, qs: seq<Queued>): seq<(nat, Frame)> {
    if qs == [] then []
    else Deliveries(s, qs[..|qs| - 1]) + (if qs[|qs| - 1].packet.Some? then [(s, qs[|qs| - 1].packet.value)] else [])
  }

  /** One delivery to s per packet, in order. */
  lemma {:induction false} DeliveriesExactly(s: nat, qs: seq<Queued>)
    requires forall i :: 0 <= i < |qs| ==> qs[i].packet.Some?
    ensures |Deliveries(s, qs)| == |qs| && forall i :: 0 <= i < |qs| ==> Deliveries(s, qs)[i] == (s, qs[i].packet.value)
  {
    if qs != [] {
      DeliveriesExactly(s, qs[..|qs| - 1]);
    }
  }

  lemma {:induction false} DeliveriesSnoc(s: nat, qs: seq<Queued>, q: Queued)
    ensures Deliveries(s, qs + [q]) == Deliveries(s, qs) + if q.packet.Some? then [(s, q.packet.value)] else []
  {
  }

  ghost function QueueOf(n: nat, apps: seq<nat>, hosts: seq<nat>, packets: seq<Option<Frame>>): (q: seq<Queued>)
    requires n <= |apps| && n <= |hosts| && n <= |packets|
    ensures |q| == n
  {
    seq(n, i requires 0 <= i < n => Queued(apps[i], hosts[i], packets[i]))
  }

  /** The last element takes the place of element i. */
  function SwapOut(q: seq<Queued>, i: nat): seq<Queued>
    requires i < |q|
  {
    q[i := q[|q| - 1]][..|q| - 1]
  }

  /** Overwriting position i with the last element and dropping the last removes one element. */
  lemma SwapWithLast(q: seq<Queued>, i: nat)
    requires i < |q|
    ensures multiset(SwapOut(q, i)) + multiset{q[i]} == multiset(q)
  {
    var n := |q| - 1;
    if i < n {
      var front, back := q[..i], q[i + 1..n];
      assert q == front + [q[i]] + back + [q[n]];
      assert SwapOut(q, i) == front + [q[n]] + back;
    } else {
      assert q == SwapOut(q, i) + [q[i]];
    }
  }

  /** Progress of nb__accept: the elements taken out so far are all of the flow, each delivered
      once, and together with what is left they make up the queue it started from. */
  ghost predicate Accepted(flow: Queued, s: nat, all: seq<Queued>, before: seq<(nat, Frame)>, removed: seq<Queued>,
                           queue: seq<Queued>, delivered: seq<(nat, Frame)>) {
    && multiset(removed) + multiset(queue) == multiset(all)
    && (forall k :: 0 <= k < |removed| ==> SameFlow(removed[k], flow))
    && delivered == before + Deliveries(s, removed)
  }

  lemma MovedOut(removed: seq<Queued>, queue: seq<Queued>, i: nat)
    requires i < |queue|
    ensures multiset(removed + [queue[i]]) + multiset(SwapOut(queue, i)) ==
      multiset(removed) + multiset(queue)
  {
    SwapWithLast(queue, i);
    assert multiset(removed + [queue[i]]) == multiset(removed) + multiset{queue[i]};
  }

  lemma AcceptedStep(flow: Queued, s: nat, all: seq<Queued>, before: seq<(nat, Frame)>, removed: seq<Queued>,
                     queue: seq<Queued>, delivered: seq<(nat, Frame)>, i: nat)
    requires Accepted(flow, s, all, before, removed, queue, delivered) && i < |queue| && SameFlow(queue[i], flow)
    ensures Accepted(flow, s, all, before, removed + [queue[i]], SwapOut(queue, i),
                     delivered + if queue[i].packet.Some? then [(s, queue[i].packet.value)] else [])
  {
    hide Deliveries;
    MovedOut(removed, queue, i);
    DeliveriesSnoc(s, removed, queue[i]);
    var more := if queue[i].packet.Some? then [(s, queue[i].packet.value)] else [];
    assert before + Deliveries(s, removed) + more == before + (Deliveries(s, removed) + more);
  }

  // ---- When the loop of nb__accept ends ----

  /** The queue and the index of the loop. */
  datatype Loop = Loop(queue: seq<Queued>, i: nat)

  /** What a replay through the ingress path puts back into the listener's queue. */
  function Requeued(es: seq<Entry>, myHost: nat, listener: nat, packet: Option<Frame>): seq<Queued> {
    if packet.Some? && Route(es, myHost, packet.value) == Queue(listener)
    then [Queued(packet.value.srcApp, packet.value.srcHost, packet)]
    else []
  }

  /** One turn, whatever the host id: replay a matching element and swap the last one into its
      place, or step over another one. */
  function Turn(es: seq<Entry>, myHost: nat, listener: nat, flow: Queued, l: Loop): (r: Loop)
    requires l.i < |l.queue|
  {
    if SameFlow(l.queue[l.i], flow)
    then Loop(SwapOut(l.queue + Requeued(es, myHost, listener, l.queue[l.i].packet), l.i), l.i)
    else Loop(l.queue, l.i + 1)
  }

  function Turns(es: seq<Entry>, myHost: nat, listener: nat, flow: Queued, l: Loop, n: nat): Loop
    decreases n
  {
    if n == 0 || l.i >= |l.queue| then l
    else Turns(es, myHost, listener, flow, Turn(es, myHost, listener, flow, l), n - 1)
  }

  ghost predicate Ends(es: seq<Entry>, myHost: nat, listener: nat, flow: Queued, l: Loop) {
    exists n :: var r := Turns(es, myHost, listener, flow, l, n); r.i >= |r.queue|
  }

  /** The loop as nb__accept enters it, with the last element popped and replayed. */
  function Entered(es: seq<Entry>, myHost: nat, listener: nat, queue: seq<Queued>): Loop
    requires queue != []
  {
    var n := |queue| - 1;
    Loop(queue[..n] + Requeued(es, myHost, listener, queue[n].packet), 0)
  }

  ghost predicate AllFrom(queue: seq<Queued>, myHost: nat, localApp: nat) {
    forall k :: 0 <= k < |queue| ==> Consistent(queue[k], myHost, localApp)
  }

  /** Replaying elements of the flow puts nothing back. */
  ghost predicate NothingBack(es: seq<Entry>, myHost: nat, listener: nat, flow: Queued, queue: seq<Queued>) {
    forall k :: 0 <= k < |queue| && SameFlow(queue[k], flow) ==> Requeued(es, myHost, listener, queue[k].packet) == []
  }

  lemma {:induction false} QuietEnds(es: seq<Entry>, myHost: nat, listener: nat, flow: Queued, l: Loop)
    requires l.i <= |l.queue| && NothingBack(es, myHost, listener, flow, l.queue)
    ensures var r := Turns(es, myHost, listener, flow, l, |l.queue| - l.i); r.i >= |r.queue|
    decreases |l.queue| - l.i
  {
    if l.i < |l.queue| {
      var next := Turn(es, myHost, listener, flow, l);
      assert l.queue + [] == l.queue;
      QuietEnds(es, myHost, listener, flow, next);
    }
  }

  /** An element of the flow with a packet is still ahead. */
  ghost predicate Busy(flow: Queued, l: Loop) {
    exists k :: l.i <= k < |l.queue| && SameFlow(l.queue[k], flow) && l.queue[k].packet.Some?
  }

  /** Every packet of the flow goes back to the listener's queue. */
  ghost predicate AllBack(es: seq<Entry>, myHost: nat, listener: nat, flow: Queued, queue: seq<Queued>) {
    forall k :: 0 <= k < |queue| && SameFlow(queue[k], flow) && queue[k].packet.Some? ==>
      Requeued(es, myHost, listener, queue[k].packet) == [queue[k]]
  }

  /** A turn whose packet comes back changes nothing at all: same elements, same order, same index. */
  lemma TurnIsIdle(es: seq<Entry>, myHost: nat, listener: nat, flow: Queued, l: Loop)
    requires l.i < |l.queue| && SameFlow(l.queue[l.i], flow) && l.queue[l.i].packet.Some?
    requires AllBack(es, myHost, listener, flow, l.queue)
    ensures Turn(es, myHost, listener, flow, l) == l
  {
    var q := l.queue + [l.queue[l.i]];
    assert q[l.i := q[|q| - 1]][..|q| - 1] == l.queue;
  }

  lemma BusyStays(es: seq<Entry>, myHost: nat, listener: nat, flow: Queued, l: Loop)
    requires Busy(flow, l) && AllBack(es, myHost, listener, flow, l.queue)
    ensures var r := Turn(es, myHost, listener, flow, l); Busy(flow, r) && AllBack(es, myHost, listener, flow, r.queue)
  {
    var k :| l.i <= k < |l.queue| && SameFlow(l.queue[k], flow) && l.queue[k].packet.Some?;
    if SameFlow(l.queue[l.i], flow) {
      if l.queue[l.i].packet.Some? {
        TurnIsIdle(es, myHost, listener, flow, l);
      } else {
        assert l.queue + [] == l.queue;
        var r := Turn(es, myHost, listener, flow, l);
        var at := if k == |l.queue| - 1 then l.i else k;
        assert r.queue[at] == l.queue[k];
      }
    }
  }

  lemma {:induction false} BusyNeverEnds(es: seq<Entry>, myHost: nat, listener: nat, flow: Queued, l: Loop, n: nat)
    requires Busy(flow, l) && AllBack(es, myHost, listener, flow, l.queue)
    ensures var r := Turns(es, myHost, listener, flow, l, n); r.i < |r.queue|
    decreases n
  {
    if n > 0 {
      BusyStays(es, myHost, listener, flow, l);
      BusyNeverEnds(es, myHost, listener, flow, Turn(es, myHost, listener, flow, l), n - 1);
    }
  }

  /** Queued packets of the flow, as nb__accept finds them. */
  ghost predicate HasPacket(queue: seq<Queued>, flow: Queued) {
    exists k :: 0 <= k < |queue| && SameFlow(queue[k], flow) && queue[k].packet.Some?
  }

  lemma FewerPackets(queue: seq<Queued>, fewer: seq<Queued>, flow: Queued)
    requires forall k :: 0 <= k < |fewer| ==> fewer[k] in queue
    ensures HasPacket(fewer, flow) ==> HasPacket(queue, flow)
  {
  }

  /** When one element was queued and all of its flow are gone, it is the one that was taken. */
  lemma OnlyOne(queue: seq<Queued>, left: seq<Queued>, removed: seq<Queued>)
    requires |queue| == 1 && multiset(removed) + multiset(left) == multiset(queue)
    requires forall k :: 0 <= k < |left| ==> !SameFlow(left[k], queue[0])
    ensures left == [] && removed == queue
  {
    assert queue == [queue[0]] && multiset(queue) == multiset{queue[0]};
    assert |multiset(removed)| == |removed|;
    assert removed[0] in multiset(removed);
  }

  lemma {:induction false} ReplaysAlike(es: seq<Entry>, queue: seq<Queued>, flow: Queued, myHost: nat, localApp: nat, s: nat, listener: nat)
    requires AllFrom(queue, myHost, localApp)
    requires Lookup(es, Key(localApp, 0, 0)) == Some(listener) && forall i :: 0 <= i < |es| ==> es[i].conn != s
    ensures var es' := es + [EntryFor(flow, localApp, s)];
      if Reachable(es, flow, localApp) then NothingBack(es', myHost, listener, flow, queue)
      else AllBack(es', myHost, listener, flow, queue)
  {
    forall k | 0 <= k < |queue| && SameFlow(queue[k], flow) && queue[k].packet.Some?
      ensures Requeued(es + [EntryFor(flow, localApp, s)], myHost, listener, queue[k].packet) ==
        if Reachable(es, flow, localApp) then [] else [queue[k]]
    {
      ReplayReaches(es, queue[k], myHost, localApp, s, listener);
    }
  }

  lemma EnteredParts(es: seq<Entry>, myHost: nat, listener: nat, queue: seq<Queued>, flow: Queued)
    requires queue != [] && flow == queue[|queue| - 1]
    ensures var l := Entered(es, myHost, listener, queue);
      && (NothingBack(es, myHost, listener, flow, queue) ==> NothingBack(es, myHost, listener, flow, l.queue))
      && (AllBack(es, myHost, listener, flow, queue) ==> AllBack(es, myHost, listener, flow, l.queue))
      && (AllBack(es, myHost, listener, flow, queue) && HasPacket(queue, flow) ==> Busy(flow, l))
      && (!HasPacket(queue, flow) ==> NothingBack(es, myHost, listener, flow, l.queue))
  {
    var n, l := |queue| - 1, Entered(es, myHost, listener, queue);
    assert forall k :: 0 <= k < n ==> l.queue[k] == queue[k];
    if AllBack(es, myHost, listener, flow, queue) && HasPacket(queue, flow) {
      var k :| 0 <= k < |queue| && SameFlow(queue[k], flow) && queue[k].packet.Some?;
      assert SameFlow(queue[n], flow);
      assert l.queue[k] == queue[k];
    }
  }

  /** nb__accept returns if and only if the host id of the flow fits 32 bits, an older connection has its
      key, or none of its queued elements has a packet; otherwise it replays the same packet for ever. */
  lemma {:induction false} AcceptEndsExactly(es: seq<Entry>, queue: seq<Queued>, myHost: nat, localApp: nat, s: nat, listener: nat)
    requires queue != [] && AllFrom(queue, myHost, localApp)
    requires Lookup(es, Key(localApp, 0, 0)) == Some(listener) && forall i :: 0 <= i < |es| ==> es[i].conn != s
    ensures var flow := queue[|queue| - 1];
      var es' := es + [EntryFor(flow, localApp, s)];
      Ends(es', myHost, listener, flow, Entered(es', myHost, listener, queue)) <==>
      Reachable(es, flow, localApp) || !HasPacket(queue, flow)
  {
    hide Turns, NothingBack, AllBack, Busy, HasPacket, Reachable;
    var flow := queue[|queue| - 1];
    var es' := es + [EntryFor(flow, localApp, s)];
    var l := Entered(es', myHost, listener, queue);
    ReplaysAlike(es, queue, flow, myHost, localApp, s, listener);
    EnteredParts(es', myHost, listener, queue, flow);
    if Reachable(es, flow, localApp) || !HasPacket(queue, flow) {
      QuietEnds(es', myHost, listener, flow, l);
    } else {
      forall n ensures var r := Turns(es', myHost, listener, flow, l, n); r.i < |r.queue| {
        BusyNeverEnds(es', myHost, listener, flow, l, n);
      }
    }
  }

  /** Popping the last element and delivering its packet is progress. */
  lemma PopLast(flow: Queued, t: nat, all: seq<Queued>, rest: seq<Queued>, before: seq<(nat, Frame)>)
    requires all == rest + [flow]
    ensures Accepted(flow, t, all, before, [flow], rest, before + if flow.packet.Some? then [(t, flow.packet.value)] else [])
    ensures HasPacket(rest, flow) || flow.packet.Some? ==> HasPacket(all, flow)
  {
    DeliveriesSnoc(t, [], flow);
    assert [] + [flow] == [flow];
    assert forall k :: 0 <= k < |rest| ==> rest[k] == all[k];
    assert all[|rest|] == flow;
  }

  class Node {
    const net: NetState.State
    const myHost: nat
    const listener: nat           // the connection the queue belongs to
    const localApp: nat           // its local_app_id
    var currentElems: nat
    const srcApps: array<nat>
    const srcHosts: array<nat>
    const packets: array<Option<Frame>>
    var delivered: seq<(nat, Frame)>   // packets passed on to a connection's reliable module
    var notified: seq<nat>             // listeners whose callback got QUEUE_EVENT_ACCEPT_READY

    ghost predicate Valid()
      reads this`currentElems, net`numConn
    {
      && net.Valid() && net.srcDst
      && srcApps.Length == srcHosts.Length == packets.Length == MAX_ACCEPT_QUEUE_ELEMS
      && currentElems <= MAX_ACCEPT_QUEUE_ELEMS
      && srcApps != srcHosts
      && {srcApps, srcHosts} !! {net.localApps, net.remoteApps, net.remoteHosts, net.connections}
    }

    ghost function AcceptQueue(): (q: seq<Queued>)
      requires Valid()
      reads this`currentElems, net`numConn, srcApps, srcHosts, packets
      ensures |q| == currentElems
    {
      QueueOf(currentElems, srcApps[..], srcHosts[..], packets[..])
    }

    ghost function Entries(): seq<Entry>
      requires Valid()
      reads this`currentElems, net`numConn, net.localApps, net.remoteApps, net.remoteHosts, net.connections
    {
      net.Entries()
    }

    /** A node whose only connection is a wildcard listener. */
    constructor (myHost: nat, listener: nat, localApp: nat)
      ensures Valid() && AcceptQueue() == [] && delivered == [] && notified == []
      ensures Entries() == [Entry(Key(localApp, 0, 0), listener)]
      ensures this.myHost == myHost && this.listener == listener && this.localApp == localApp
      ensures fresh(net) && fresh(net.localApps) && fresh(net.remoteApps) && fresh(net.remoteHosts) && fresh(net.connections)
      ensures fresh(srcApps) && fresh(srcHosts) && fresh(packets)
    {
      net := new NetState.State(true);
      this.myHost, this.listener, this.localApp := myHost, listener, localApp;
      currentElems, delivered, notified := 0, [], [];
      srcApps := new nat[MAX_ACCEPT_QUEUE_ELEMS];
      srcHosts := new nat[MAX_ACCEPT_QUEUE_ELEMS];
      packets := new Option<Frame>[MAX_ACCEPT_QUEUE_ELEMS];
      new;
      net.AddConnection(listener, localApp, 0, 0);
    }

    /** nb__insert_accept_queue */
    method InsertAcceptQueue(app: nat, host: nat, packet: Option<Frame>)
      requires Valid() && currentElems < MAX_ACCEPT_QUEUE_ELEMS
      modifies this`currentElems, srcApps, srcHosts, packets
      ensures Valid() && AcceptQueue() == old(AcceptQueue()) + [Queued(app, host, packet)]
      ensures Entries() == old(Entries())
    {
      var index := currentElems;
      currentElems := currentElems + 1;
      srcApps[index] := app;
      srcHosts[index] := host;
      packets[index] := packet;
    }

    /** identifier_module::hook_ingress. The queues of other listeners are not followed. */
    method Ingress(p: Frame) returns (r: Routed)
      requires Valid() && (Route(Entries(), myHost, p) == Queue(listener) ==> currentElems < MAX_ACCEPT_QUEUE_ELEMS)
      modifies this`currentElems, this`delivered, this`notified, srcApps, srcHosts, packets
      ensures Valid() && Entries() == old(Entries()) && r == Route(old(Entries()), myHost, p)
      ensures delivered == old(delivered) + if r.To? then [(r.conn, p)] else []
      ensures notified == old(notified) + if r.Queue? then [r.listener] else []
      ensures AcceptQueue() == old(AcceptQueue()) +
        if r == Queue(listener) then [Queued(p.srcApp, p.srcHost, Some(p))] else []
    {
      if p.dstHost != myHost {
        return Dropped;
      }
      var c := net.RetrieveConnection(p.dstApp, p.srcApp, p.srcHost);
      if c.Some? {
        delivered := delivered + [(c.value, p)];
        return To(c.value);
      }
      var l := net.RetrieveWildcard(p.dstApp);
      if l.None? {
        return Abort;
      }
      if l.value == listener {
        InsertAcceptQueue(p.srcApp, p.srcHost, Some(p));
      }
      notified := notified + [l.value];
      return Queue(l.value);
    }

    /** The element being replayed goes to connection t and nowhere else. */
    method Replay(ghost q: Queued, packet: Option<Frame>, ghost t: nat)
      requires Valid() && q.packet == packet && Consistent(q, myHost, localApp)
      requires packet.Some? ==> Lookup(Entries(), KeyOf(q, localApp)) == Some(t)
      modifies this`currentElems, this`delivered, this`notified, srcApps, srcHosts, packets
      ensures Valid() && Entries() == old(Entries()) && AcceptQueue() == old(AcceptQueue()) && notified == old(notified)
      ensures delivered == old(delivered) + if packet.Some? then [(t, packet.value)] else []
    {
      if packet.Some? {
        var r := Ingress(packet.value);
      }
    }

    method RemoveAt(i: nat)
      requires Valid() && i < currentElems
      modifies this`currentElems, srcApps, srcHosts, packets
      ensures Valid() && Entries() == old(Entries())
      ensures currentElems == old(currentElems) - 1
      ensures AcceptQueue() == SwapOut(old(AcceptQueue()), i)
    {
      var last := currentElems - 1;
      srcApps[i] := srcApps[last];
      srcHosts[i] := srcHosts[last];
      packets[i] := packets[last];
      currentElems := currentElems - 1;
    }

    /** One matching element: replay it, then swap the last one into its place. */
    method TakeAt(i: nat, ghost flow: Queued, ghost t: nat, ghost all: seq<Queued>, ghost before: seq<(nat, Frame)>,
                  ghost removed: seq<Queued>) returns (ghost removed': seq<Queued>)
      requires Valid() && i < currentElems && Accepted(flow, t, all, before, removed, AcceptQueue(), delivered)
      requires SameFlow(AcceptQueue()[i], flow) && Consistent(AcceptQueue()[i], myHost, localApp)
      requires AcceptQueue()[i].packet.Some? ==> Lookup(Entries(), KeyOf(flow, localApp)) == Some(t)
      modifies this`currentElems, this`delivered, this`notified, srcApps, srcHosts, packets
      ensures Valid() && Entries() == old(Entries()) && Accepted(flow, t, all, before, removed', AcceptQueue(), delivered)
      ensures currentElems == old(currentElems) - 1 && notified == old(notified)
      ensures AcceptQueue() == SwapOut(old(AcceptQueue()), i)
      ensures removed' == removed + [old(AcceptQueue())[i]]
    {
      hide Accepted, QueueOf, Lookup, Consistent;
      ghost var q := AcceptQueue();
      AcceptedStep(flow, t, all, before, removed, q, delivered, i);
      var packet := packets[i];
      PacketAt(i);
      assert KeyOf(q[i], localApp) == KeyOf(flow, localApp);
      Replay(q[i], packet, t);
      RemoveAt(i);
      removed' := removed + [q[i]];
    }

    lemma PacketAt(i: nat)
      requires Valid() && i < currentElems
      ensures AcceptQueue()[i] == Queued(srcApps[i], srcHosts[i], packets[i])
    {
    }

    /** One turn of the loop as it runs, for any host id. */
    method TakeTurn(i: nat, srcApp: nat, srcHost: nat, ghost flow: Queued) returns (next: nat)
      requires Valid() && i < currentElems < MAX_ACCEPT_QUEUE_ELEMS && flow.srcApp == srcApp && flow.srcHost == srcHost
      modifies this`currentElems, this`delivered, this`notified, srcApps, srcHosts, packets
      ensures Valid() && Entries() == old(Entries())
      ensures Loop(AcceptQueue(), next) == Turn(Entries(), myHost, listener, flow, Loop(old(AcceptQueue()), i))
    {
      if srcApps[i] != srcApp || srcHosts[i] != srcHost {
        return i + 1;
      }
      ghost var q := AcceptQueue();
      var packet := packets[i];
      if packet.Some? {
        var r := Ingress(packet.value);
      }
      assert AcceptQueue() == q + Requeued(Entries(), myHost, listener, packet);
      RemoveAt(i);
      return i;
    }

    ghost predicate AllConsistent()
      requires Valid()
      reads this`currentElems, net`numConn, srcApps, srcHosts, packets
    {
      forall k :: 0 <= k < currentElems ==> Consistent(AcceptQueue()[k], myHost, localApp)
    }

    /** Whatever packet of the flow is still queued, connection t answers for it. */
    ghost predicate Answered(flow: Queued, t: nat)
      requires Valid()
      reads this`currentElems, net`numConn, srcApps, srcHosts, packets
      reads net.localApps, net.remoteApps, net.remoteHosts, net.connections
    {
      HasPacket(AcceptQueue(), flow) ==> Lookup(Entries(), KeyOf(flow, localApp)) == Some(t)
    }

    /** The loop of nb__accept over what is left of the queue. */
    method TakeFlow(srcApp: nat, srcHost: nat, ghost flow: Queued, ghost t: nat, ghost all: seq<Queued>,
                    ghost before: seq<(nat, Frame)>, ghost taken: seq<Queued>) returns (ghost removed: seq<Queued>)
      requires Valid() && flow.srcApp == srcApp && flow.srcHost == srcHost
      requires Accepted(flow, t, all, before, taken, AcceptQueue(), delivered) && AllConsistent() && Answered(flow, t)
      modifies this`currentElems, this`delivered, this`notified, srcApps, srcHosts, packets
      ensures Valid() && Entries() == old(Entries()) && Accepted(flow, t, all, before, removed, AcceptQueue(), delivered)
      ensures forall k :: 0 <= k < currentElems ==> !SameFlow(AcceptQueue()[k], flow)
      ensures notified == old(notified)
    {
      hide Accepted, Lookup, Consistent;
      removed := taken;
      var i := 0;
      while i < currentElems
        invariant Valid() && Entries() == old(Entries()) && i <= currentElems && notified == old(notified)
        invariant Accepted(flow, t, all, before, removed, AcceptQueue(), delivered) && AllConsistent() && Answered(flow, t)
        invariant forall k :: 0 <= k < i ==> !SameFlow(AcceptQueue()[k], flow)
        decreases currentElems - i
      {
        ghost var q := AcceptQueue();
        if srcApps[i] == srcApp && srcHosts[i] == srcHost {
          removed := TakeAt(i, flow, t, all, before, removed);
          FewerPackets(q, AcceptQueue(), flow);
        } else {
          i := i + 1;
        }
      }
    }

    /** The head of nb__accept: pop the last element, establish its connection, replay its packet. */
    method TakeLast(s: nat) returns (srcApp: nat, srcHost: nat, ghost taken: seq<Queued>)
      requires Valid() && currentElems > 0 && net.numConn < MAX_ACTIVE_CONNECTIONS && AllConsistent()
      requires var flow := AcceptQueue()[currentElems - 1];
        Reachable(Entries(), flow, localApp) || !HasPacket(AcceptQueue(), flow)
      modifies this`currentElems, this`delivered, this`notified, srcApps, srcHosts, packets
      modifies net`numConn, net.localApps, net.remoteApps, net.remoteHosts, net.connections
      ensures var flow := old(AcceptQueue())[old(currentElems) - 1];
        var t := Target(old(Entries()), flow, localApp, s);
        && Valid() && srcApp == flow.srcApp && srcHost == flow.srcHost && notified == old(notified)
        && Entries() == old(Entries()) + [EntryFor(flow, localApp, s)]
        && AllConsistent() && Answered(flow, t)
        && Accepted(flow, t, old(AcceptQueue()), old(delivered), taken, AcceptQueue(), delivered)
    {
      hide Lookup, Consistent, Accepted, Deliveries, HasPacket, Reachable, Target;
      ghost var all, entries := AcceptQueue(), Entries();
      var index := currentElems - 1;
      ghost var flow := all[index];
      ghost var t := Target(entries, flow, localApp, s);
      PacketAt(index);
      currentElems := currentElems - 1;
      srcApp, srcHost := srcApps[index], srcHosts[index];
      var packet := packets[index];
      ghost var rest := AcceptQueue();
      assert all == rest + [flow];
      net.AddConnection(s, localApp, srcApp, srcHost % TWO_32);
      if Reachable(entries, flow, localApp) {
        TargetFound(entries, flow, localApp, s);
      }
      PopLast(flow, t, all, rest, delivered);
      Replay(flow, packet, t);
      taken := [flow];
      forall k | 0 <= k < currentElems ensures Consistent(rest[k], myHost, localApp) {
        assert rest[k] == all[k];
      }
    }

    /** nb__accept; s is the address of the connection nb__establish allocates. */
    method Accept(s: nat) returns (accepted: Option<nat>, ghost removed: seq<Queued>)
      requires Valid() && net.numConn < MAX_ACTIVE_CONNECTIONS && AllConsistent()
      requires currentElems > 0 ==>
        var flow := AcceptQueue()[currentElems - 1];
        Reachable(Entries(), flow, localApp) || !HasPacket(AcceptQueue(), flow)
      modifies this`currentElems, this`delivered, this`notified, srcApps, srcHosts, packets
      modifies net`numConn, net.localApps, net.remoteApps, net.remoteHosts, net.connections
      ensures Valid() && notified == old(notified)
      ensures old(currentElems) == 0 ==>
        accepted == None && removed == [] && Entries() == old(Entries()) && delivered == old(delivered)
      ensures old(currentElems) > 0 ==>
        var flow := old(AcceptQueue())[old(currentElems) - 1];
        && accepted == Some(s)
        && Entries() == old(Entries()) + [EntryFor(flow, localApp, s)]
        && (forall k :: 0 <= k < |removed| ==> SameFlow(removed[k], flow))
        && (forall k :: 0 <= k < currentElems ==> !SameFlow(AcceptQueue()[k], flow))
        && delivered == old(delivered) + Deliveries(Target(old(Entries()), flow, localApp, s), removed)
      ensures multiset(removed) + multiset(AcceptQueue()) == multiset(old(AcceptQueue()))
    {
      if currentElems == 0 {
        return None, [];
      }
      hide Deliveries;
      ghost var all, before := AcceptQueue(), delivered;
      ghost var flow := all[currentElems - 1];
      ghost var t := Target(Entries(), flow, localApp, s);
      var srcApp, srcHost, taken := TakeLast(s);
      removed := TakeFlow(srcApp, srcHost, flow, t, all, before, taken);
      accepted := Some(s);
    }
  }

  lemma {:induction false} OneEntry(key: Key, conn: nat, other: Key)
    requires key != other
    ensures Lookup([Entry(key, conn)], key) == Some(conn) && Lookup([Entry(key, conn)], other) == None
  {
    assert [Entry(key, conn)][1..] == [];
  }

  /** A new node gets one packet and accepts its flow. */
  method ListenOnce(myHost: nat, listener: nat, localApp: nat, p: Frame, s: nat) returns (node: Node, accepted: Option<nat>)
    requires p.dstHost == myHost && p.dstApp == localApp && (p.srcApp != 0 || p.srcHost != 0) && p.srcHost < TWO_32
    ensures accepted == Some(s) && node.Valid() && node.AcceptQueue() == []
    ensures node.delivered == [(s, p)] && node.notified == [listener]
  {
    node := new Node(myHost, listener, localApp);
    OneEntry(Key(localApp, 0, 0), listener, Key(localApp, p.srcApp, p.srcHost));
    var r := node.Ingress(p);
    ghost var q := node.AcceptQueue();
    assert q == [Queued(p.srcApp, p.srcHost, Some(p))];
    ghost var removed;
    accepted, removed := node.Accept(s);
    OnlyOne(q, node.AcceptQueue(), removed);
    DeliveriesSnoc(s, [], q[0]);
    assert [] + [q[0]] == removed;
  }
}
