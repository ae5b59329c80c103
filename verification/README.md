# Net-Blocks verification

A Dafny model of the Net-Blocks transport stack: the code the generated library runs when two
processes exchange messages over an unreliable link, from a bit in a packet header up to the order
in which the application gets its payloads. `dafny verify dfyconfig.toml` checks everything.

What is proved, by part of the system:

* **Delivery protocol** (`Resequencer`, `Window`, `DropReceiver`, `Sender`, `SharedPool`, `Flow`,
  `Protocol`, `Recovery`, `Limits`, `Connection`, `Implementation`, `DataQueue`). Two endpoints, each with the 32-slot redelivery ring, its timers and the
  32-slot resequencing ring, over a channel that may lose, duplicate and reorder anything. The rings
  are indexed modulo 32 but stand for unbounded sequence numbers; the theorems say when they do.
  For a connection of at most 32 sequence numbers every run of every channel delivers in order, once
  each, and forgets nothing, and from every state it can recover from the loss of everything in flight; the
  bound is exact, as are the receive window, ahead and behind, and the
  number of connections one timer pool can serve.
* **Handshake** (`Handshake`, `AcceptorBaseline`). Which packet a fresh connection accepts first. No
  data of the opener can become the baseline; data of the accepting side can. An accepting
  application may safely send one packet at once; it must wait for an acknowledgement before it sends
  a second one, and with that rule, and no weaker one, all its data arrives too.
* **Timer service** (`Timers`, `TimerLinks`, `TimerService`). A free list and a sorted doubly linked
  list share `next` fields in one pool of 1024; the heap code refines stable insertion, deletion and
  the firing loop on sequences.
* **Packets** (`Bits`, `Codec`, `Layout`, `DefaultLayout`, `Checksum`, `Path`, `Stack`). Members at any bit
  offset, accessed by word-wide read-modify-write, behave like the fields of a record; the send path
  followed by the ingress path returns the payload. (A checksum over a header of odd length alone
  zeroes the first payload byte; the default header has 38 bytes.) From bytes to connection state: a
  connection's hooks are given exactly the packets its peer's hooks made.
* **Demultiplexing** (`ConnectionTable`, `NetState`, `Accepting`). The parallel arrays refine a map;
  the accept loop conserves its queue, and ends exactly when some connection answers for the flow.
* **Counters and channels** (`CompletionCounter`, `IpChecksum`, `IpcChannel`). The wrap-around
  completion counter, the IP header checksum, and the IPC transport's simulated loss and reordering.

Values are modelled as datatypes and functions; objects that the source updates in place are classes
whose methods are proved to compute those functions. Buffers are bit sequences in memory order
(bit `8*k + j` is bit `j` of byte `k`). Inductive proofs are written out; none is left to automatic
induction. Clock readings, random choices, arrivals and the callbacks'
behaviour are parameters.

Four places where the code does not do what its surroundings suggest are kept as they are written,
each with the exact condition under which it is still right: `include/core/packet.h:129` (the number
of bits to clear is taken from the start offset; the member takes it as a parameter `clear`, see
`Codec.ClearExact` and `Codec.AsWrittenExact`), `src/modules/identifier_module.cpp:169` (copies in the
opposite direction, see `ConnectionTable.DeleteExactly`), `src/modules/checksum_module.cpp:36-37` (the
pad byte of a header_only checksum is the first payload byte when the header length is odd, see
`Path.RoundTripExactly`), and `runtime/nb_runtime.c:78` (a 64-bit host
id passed as a 32-bit argument, see `Accepting.ReplayReaches` and `Accepting.AcceptEndsExactly`).

## Model

| member | source | states |
|---|---|---|
| Resequencer.LookupIsExact | src/modules/inorder_module.cpp:97-100 | an occupied slot met by the delivery loop holds exactly the sequence number looked for, never one that merely shares the slot |
| Resequencer.DrainRefines | src/modules/inorder_module.cpp:96-110 | the delivery loop stops exactly at the end of the maximal gap-free run of received numbers |
| Resequencer.FirstArrival | src/modules/inorder_module.cpp:85-95 | the first arrival, whatever its number, becomes the baseline |
| Resequencer.ShelvePending | src/modules/inorder_module.cpp:112-119 | shelving a fresh or an old packet destroys no other shelved packet |
| Resequencer.IngressRefines | src/modules/inorder_module.cpp:83-120 | one arrival, delivered or shelved, keeps the 32-slot ring a refinement of the set of all received numbers |
| Window.WindowRefines | src/modules/inorder_module.cpp:83-120 | for runs of any length with every arrival at most 33 ahead of the last delivery, the ring refines the set-based resequencer |
| Window.OverrunDeliversWrongly | src/modules/inorder_module.cpp:97-115 | three arrivals, one of them 34 ahead, make the receiver deliver a packet in place of another |
| Window.UpperEdgeIsExact | src/modules/inorder_module.cpp:83-120 | when all arrivals are ahead of the last delivery, it is the maximal run from the baseline for all sequences if and only if the window is at most 33 wide |
| Window.OverwrittenDeliversWrongly | src/modules/inorder_module.cpp:112-119 | an arrival 30 behind takes the slot of a waiting packet and is delivered in its place |
| Window.StaleDeliversWrongly | src/modules/inorder_module.cpp:97-119 | a mere duplicate of the last delivery stays shelved and is later delivered under a number that never came |
| Window.NarrowRefines | src/modules/inorder_module.cpp:83-120 | when arrivals are at most 2 ahead, old ones at most 29 behind do no harm; when at most 1 ahead, none do (a number standing for one payload) |
| Window.WindowIsExact | src/modules/inorder_module.cpp:83-120 | both edges: delivery is the maximal run for all sequences in a window if and only if arrivals are at most 1 ahead, or at most 2 ahead and at most 29 behind, or at most 33 ahead and never behind |
| DropReceiver.DeliversRecords | src/modules/inorder_module.cpp:70-82 | the dropping receiver delivers exactly the arrivals numbered above all earlier ones |
| DropReceiver.DeliversSubsequence | src/modules/inorder_module.cpp:50-82 | over any loss, duplication and reordering, for runs of any length, delivery is a subsequence of what was sent, in sending order without repeats |
| Sender.OpenedMatches | src/modules/reliable_module.cpp:28-36 | a new connection has an empty ring and all 1024 timers free |
| Sender.SendExactly | src/modules/reliable_module.cpp:60-72 | a send takes the next number, fills that number's slot and no other, and arms the first free timer for 50 ms later |
| Sender.AcknowledgeExactly | src/modules/reliable_module.cpp:76-93 | an ACK empties the slot of its number modulo 32 and no other, and gives back that slot's timer, or does nothing |
| Sender.ResentInOrder | src/modules/reliable_module.cpp:42-47 | a check resends the packets of exactly the due timers, in list order |
| Sender.ResentExactly | src/modules/reliable_module.cpp:42-49 | a packet is resent if and only if it is still held and its timer has run out |
| Sender.SendMatches | src/modules/reliable_module.cpp:60-72 | sending into an empty slot keeps occupied slots and armed timers in bijection, each timer carrying its slot's packet |
| Sender.AcknowledgeMatches | src/modules/reliable_module.cpp:76-93 | any ACK, stale or duplicate, keeps that bijection |
| Sender.TickMatches | src/modules/reliable_module.cpp:42-49 | a check of the timers keeps it too and leaves every timer later than now |
| Sender.SendPartition | runtime/nb_timer.c:11-17 | across a send, listed and free timers still partition the pool of 1024 |
| Sender.AcknowledgePartition | src/modules/reliable_module.cpp:86-91 | across an acknowledgement, listed and free timers still partition the pool and the list stays sorted |
| Sender.PartitionDistinct | runtime/nb_timer.c:4-17 | under the partition no timer is listed twice, both listed and free, or about to be handed out while listed |
| Sender.TimersNeverRunOut | src/modules/reliable_module.cpp:60-91 | the only connection of a process arms at most 32 timers, so allocation never returns null |
| Flow.SendKeeps | src/modules/reliable_module.cpp:60-72 | a send keeps the invariant of one direction: nothing forgotten, only genuine packets in flight, receiver refined |
| Flow.ResendKeeps | src/modules/reliable_module.cpp:42-49 | so do retransmissions |
| Flow.AckKeeps | src/modules/reliable_module.cpp:76-93 | so does an ACK that meets its own packet or an empty slot, however late or repeated |
| Flow.DataKeeps | src/modules/reliable_module.cpp:95-113 | so does a data packet, acknowledged and then sequenced |
| Flow.DeliversInOrder | src/modules/inorder_module.cpp:83-120 | under the invariant the input queue is the non-empty part of a gap-free stretch of the sent payloads |
| Flow.EmptyRingDeliversAll | src/modules/reliable_module.cpp:60-113 | with an empty redelivery ring that stretch reaches the last payload sent |
| Protocol.StepKeeps | src/modules/reliable_module.cpp:42-113 | every step at either endpoint keeps the invariants of both directions |
| Protocol.GuardedRunKeeps | src/modules/inorder_module.cpp:50-120 | runs of any length whose arrivals stay in the window keep the invariants |
| Protocol.LifetimeGuarded | src/modules/reliable_module.cpp:60-93 | with at most 32 sequence numbers every possible event meets the guards by itself |
| Protocol.LifetimeKeeps | src/modules/reliable_module.cpp:42-113 | every run over any channel with at most 32 sequence numbers keeps the invariants |
| Protocol.SentIsSubmitted | src/core/framework.cpp:61-77 | what an endpoint has sent is exactly what its application submitted, in order |
| Protocol.WindowedSentIsSubmitted | src/core/framework.cpp:61-77 | the same for runs of any length that stay in the window |
| Protocol.NothingIsForgotten | src/modules/reliable_module.cpp:42-113 | every payload submitted is, under its number, in its own slot with an armed timer carrying that packet, or has reached the peer's reliable layer |
| Protocol.SendAlwaysPossible | runtime/nb_timer.c:11-17 | in every such state, with one connection in each process, a send finds a timer |
| SharedPool.SendExclusive | runtime/nb_timer.c:4-17 | a send on one of several connections never takes a timer that serves another packet |
| SharedPool.AckBacked | src/modules/reliable_module.cpp:86-91 | an ACK on one connection takes no timer away from any packet of the others |
| SharedPool.AckFrees | src/modules/reliable_module.cpp:86-91 | an ACK on one connection frees that packet's slot and timer and leaves the other connections as they were |
| SharedPool.CheckKeeps | runtime/nb_timer.c:77-92 | a check fires timers of all connections and keeps each with its own packet |
| SharedPool.AlwaysInv | runtime/nb_timer.c:4-21 | over every run of any number of connections of at most 32 numbers each, listed and free timers partition the one pool and the listed ones are in bijection with all occupied slots |
| SharedPool.NeverStarved | src/modules/reliable_module.cpp:60-72 | with at most 32 connections a packet within its connection's lifetime always finds a timer |
| SharedPool.PoolIsExact | runtime/nb_timer.c:4-17 | that holds for all runs if and only if the process has at most 32 connections |
| Protocol.AlwaysInOrder | src/modules/inorder_module.cpp:50-120 | in every reachable state the peer has got a gap-free stretch of what was submitted, in order, once each |
| Protocol.EndToEnd | src/modules/reliable_module.cpp:60-113 | when the redelivery ring is empty the peer's queue has had exactly the non-empty payloads submitted from the baseline on |
| Protocol.CompleteExactly | src/modules/inorder_module.cpp:85-95 | that is everything sent if and only if only empty payloads precede the baseline |
| Protocol.WindowedEndToEnd | src/modules/inorder_module.cpp:50-120 | the same end-to-end statement for runs of any length that stay in the window |
| Recovery.AllHeldResent | src/modules/reliable_module.cpp:42-49 | when all timers are due, a check puts every held packet on the channel |
| Recovery.AlwaysRecovers | src/modules/reliable_module.cpp:42-113 | from every state of every run, with everything in flight lost, one check of the due timers and one exchange per resent packet empty the ring and deliver all that was submitted from the baseline on |
| Limits.ThirtyThirdLost | src/modules/reliable_module.cpp:63-65 | a run with 33 numbers ends with an empty ring and an undelivered packet |
| Limits.WithinBound | src/modules/reliable_module.cpp:60-113 | with 32 numbers nothing is forgotten and an empty ring means complete delivery |
| Limits.LifetimeIsExact | src/modules/reliable_module.cpp:60-113 | both promises hold for all runs up to a highest sequence number if and only if it is at most 1042 |
| Connection.Conn.constructor | src/modules/inorder_module.cpp:31-48 | establishing gives the initial state of the protocol's sender and receiver |
| Connection.Conn.HookSend | src/modules/reliable_module.cpp:60-72 | numbering, shelving and arming in place compute the protocol's send step, and a data packet with the next number and the payload goes out |
| Connection.Conn.IngressAck | src/modules/reliable_module.cpp:79-93 | clearing the slot and returning its timer compute the protocol's acknowledgement step |
| Connection.Conn.DrainFrom | src/modules/inorder_module.cpp:97-110 | the delivery loop on the array computes the drain function |
| Connection.Conn.IngressInOrder | src/modules/inorder_module.cpp:83-120 | the hook computes the resequencer step and continues exactly when the packet is accepted |
| Connection.Conn.HookIngress | src/modules/reliable_module.cpp:76-113 | an ACK changes only the sender and stops; a data packet changes only the receiver, and one packet acknowledging its number goes out |
| Connection.Conn.CheckTimers | src/modules/reliable_module.cpp:42-49 | the i-th packet added to the wire is that of the i-th listed timer, for exactly the timers that are due, and the list is left as the protocol's tick says |
| Connection.Conn.IngressDrop | src/modules/inorder_module.cpp:70-82 | the dropping hook computes the step of the dropping receiver |
| Implementation.Open | src/modules/inorder_module.cpp:31-48 | a new connection stands for an endpoint of the initial state |
| Implementation.SendData | src/modules/reliable_module.cpp:60-72 | its send hook is the protocol's send step, with its packet history as the channel |
| Implementation.CheckClock | src/modules/reliable_module.cpp:42-49 | its timer check is the protocol's check step |
| Implementation.Receive | src/modules/reliable_module.cpp:76-113 | taking in a packet of the peer's history is the protocol's data or acknowledgement step |
| Implementation.AcknowledgeBack | src/modules/reliable_module.cpp:95-112 | the packet emitted for data number n, taken in by the peer, acknowledges n there and changes nothing else |
| Handshake.BaselineStays | src/modules/inorder_module.cpp:85-111 | a baseline once taken is never replaced |
| Handshake.SignalingSetsBaseline | src/modules/inorder_module.cpp:85-95 | replaying the signaling packet into a fresh connection makes 1011 its baseline |
| Handshake.MoveKeeps | src/modules/signaling_module.cpp:22-65 | every step of opener, channel, listener and accept loop keeps the handshake invariant |
| Handshake.AlwaysInv | runtime/nb_runtime.c:64-127 | it holds in every reachable state |
| Handshake.HandshakeSafety | src/modules/signaling_module.cpp:22-65 | no packet but 1011 ever becomes the accepted connection's baseline, and at the opener's ESTABLISHED event it has been taken or is about to be, before anything else is polled |
| Handshake.EstablishedBeforeBaseline | runtime/nb_runtime.c:78-84 | a run in which the ESTABLISHED event comes while the acceptor is still inside nb__accept, without a baseline |
| Handshake.Refinement | runtime/nb_runtime.c:64-107 | every handshake run is a run of the two-endpoint protocol |
| Handshake.EstablishedOnce | runtime/nb_runtime.c:124-127 | the ESTABLISHED event is fired at most once, and only after a packet of the acceptor has been accepted |
| Handshake.MovesAct | src/modules/signaling_module.cpp:22-65 | in every move data taken in is acknowledged, an ACK empties its slot, and a check leaves nothing due and puts every overdue packet on the wire |
| Handshake.SentIsSubmitted | src/modules/signaling_module.cpp:36-55 | the opener sends its signaling packet, then exactly what its application submits after the event |
| Handshake.OpenerEndToEnd | src/modules/signaling_module.cpp:22-65 | all the opener's application submitted has been delivered once its ring is empty, over any channel |
| AcceptorBaseline.AcceptorDataCanBeLost | runtime/nb_runtime.c:78-84 | the other direction is not protected: a run in which a payload of the accepting side is acknowledged and never delivered |
| AcceptorBaseline.HeardMeansBaseline | src/modules/reliable_module.cpp:86-91 | a redelivery slot that has become empty tells the accepting side that the opener has its baseline |
| AcceptorBaseline.FewIsPolite | runtime/nb_runtime.c:78-84 | an accepting side that sends at most k packets in all never sends more than k before its first acknowledgement |
| AcceptorBaseline.SentBackIsSubmitted | runtime/nb_runtime.c:78-84 | the accepting side sends nothing before nb__accept, then its signaling packet, then exactly what its application submits |
| AcceptorBaseline.AcceptorEndToEnd | runtime/nb_runtime.c:64-84 | if the accepting application sends at most one packet before its first acknowledgement, all it submitted has been delivered once its ring is empty, over any channel |
| AcceptorBaseline.PoliteExactly | runtime/nb_runtime.c:64-84 | with up to k packets before the first acknowledgement everything is delivered on all such runs if and only if k is at most 1 |
| Timers.InsertAt | runtime/nb_timer.c:29-49 | insertion puts the timer before the first later one |
| Timers.InsertStable | runtime/nb_timer.c:29-49 | in a sorted list the timer lands after all that are not later and before all later ones, the others keeping their order |
| Timers.InsertSorted | runtime/nb_timer.c:22-52 | insertion keeps the list sorted |
| Timers.RemoveAt | runtime/nb_timer.c:53-63 | removal takes out exactly that timer |
| Timers.RemoveSorted | runtime/nb_timer.c:53-63 | removal keeps the list sorted |
| Timers.InsertIds | runtime/nb_timer.c:22-52 | insertion lists one more identity and no other |
| Timers.RemoveIds | runtime/nb_timer.c:53-63 | removal unlists one identity and no other |
| Timers.FireHead | runtime/nb_timer.c:81-89 | firing the head leaves one due timer fewer and the rest of the check unchanged |
| Timers.DueIsAllDue | runtime/nb_timer.c:79-89 | the fired prefix is exactly the set of due timers |
| Timers.CheckedAllLater | runtime/nb_timer.c:77-92 | after a check every listed timer is later than now and the list is sorted |
| Timers.CheckedExactly | runtime/nb_timer.c:77-92 | after a check exactly the timers that were not due, unchanged, and the due ones put back the callback's delay after the check are listed |
| Timers.CheckedKeeps | runtime/nb_timer.c:77-92 | when all callbacks re-arm, a check loses no timer, adds none and changes no argument |
| TimerLinks.SplicedLinks | runtime/nb_timer.c:39-49 | relinking for an insertion gives an acyclic list with mutually inverse next and prev |
| TimerLinks.UnlinkedLinks | runtime/nb_timer.c:53-62 | so does relinking for a removal |
| TimerLinks.UnlinkedView | runtime/nb_timer.c:53-62 | what the list then spells out is the abstract removal |
| TimerLinks.SplicedKeepsFree | runtime/nb_timer.c:39-49 | relinking the active list leaves the free list intact although both use next |
| TimerLinks.UnlinkedKeepsFree | runtime/nb_timer.c:53-62 | so does unlinking, and the removed timer is then in neither list |
| TimerService.Service.constructor | runtime/nb_timer.c:67-74 | all 1024 timers are on the free list, in pool order, and none is listed |
| TimerService.Service.Alloc | runtime/nb_timer.c:11-17 | null exactly when the free list is empty, otherwise its head, in neither list afterwards |
| TimerService.Service.Return | runtime/nb_timer.c:18-21 | the timer goes to the front of the free list and the active list is untouched |
| TimerService.Service.FindPlace | runtime/nb_timer.c:31-38 | the search stops at the first timer later than the new one, with its predecessor |
| TimerService.Service.Insert | runtime/nb_timer.c:22-52 | the heap list afterwards is sorted and is the stable insertion into the heap list before |
| TimerService.Service.Remove | runtime/nb_timer.c:53-63 | the heap list afterwards is sorted and is the list before without that timer |
| TimerService.Service.FireFirst | runtime/nb_timer.c:82-86 | the head is unlisted before its callback runs on the remaining list |
| TimerService.Service.Check | runtime/nb_timer.c:77-92 | the loop terminates, fires each due timer once in list order, and leaves a sorted list of exactly the timers that were not due and the due ones put back at their new times, although callbacks insert into it |
| Codec.GetBitsIsField | include/core/packet.h:91-167 | reading at any offset returns exactly the member's own bits, sign-extended only for a full-width aligned member of a signed type |
| Codec.ReadsUnsigned | include/core/packet.h:149-173 | an unsigned member without a range reads as the number its bits stand for |
| Bits.ValConcat | include/core/packet.h:87-89 | bits are weighed in little-endian order |
| Codec.SetBitsLower | include/core/packet.h:125-135 | the in-place write of the first byte, with the number of cleared bits as a parameter |
| Codec.SetBitsUpper | include/core/packet.h:136-147 | the in-place write of the word at an aligned start |
| Codec.SetInteger | include/core/packet.h:174-196 | rebasing and both partial writes compute the specified buffer |
| Codec.StoredReplaces | include/core/packet.h:125-196 | although words overlapping the neighbours are rewritten, only the member's bits change |
| Codec.WrongClearShows | include/core/packet.h:129-134 | storing zero among ones shows every wrong number of cleared bits |
| Codec.ClearExact | include/core/packet.h:125-135 | writes touch the member's bits only if and only if the cleared bits are the member's bits in its first byte |
| Codec.AsWrittenExact | include/core/packet.h:129-133 | line 129 as it stands is right for a member starting at bit 1 to 3 of byte 0 if and only if it is as wide as its offset, and for any other one starting inside a byte if and only if it reaches the end of that byte |
| Codec.ReadsBack | include/core/packet.h:149-173 | the number is recovered from its offset from the range base |
| Codec.SetThenGet | include/core/packet.h:149-196 | every value the member can hold, negative ones of a signed type included, survives set then get, at any offset, also for width 0 and across bytes |
| Codec.BitLengthIsLeast | include/core/packet.h:61-66 | the number of shifts down to zero is the least sufficient width |
| Codec.SetCustomRange | include/core/packet.h:58-68 | the loop finds the least width that tells the values of the range apart |
| Codec.CustomRangeHolds | include/core/packet.h:58-68 | every value of a custom range, of either sign, can be held if and only if the member is not a whole aligned word of a signed type of less than 64 bits |
| Codec.SignedRangeIsNarrow | src/modules/payload_module.cpp:13-17 | a range whose size its signed type can represent, such as that of total_len, never fills the word, so all its values can be held |
| Codec.CustomRangeSurvives | include/core/packet.h:149-196 | hence every value of a custom range survives set then get at any offset |
| Layout.OffsetsOrdered | include/core/packet.h:73-80 | members follow one another without overlap, with less than a byte of padding, aligned ones on a byte |
| Layout.OffsetsExact | include/core/packet.h:73-80 | a member starts exactly where the one before it ends or, if aligned, at the first byte from there on |
| Layout.TotalSizeCovers | src/core/packet.cpp:50-53 | every member ends inside the total size, which is tight to a byte |
| Layout.ReplaceIsUpdate | include/core/packet.h:73-80 | replacing one member's bits changes that field and no other |
| Layout.LayoutIsRecord | include/core/packet.h:149-196 | set_integer on one member makes its get_integer return the value and leaves every other member's bits alone |
| Layout.DynamicLayout.AddMember | src/core/packet.cpp:9-20 | the name is appended to its group, missing groups appear empty, all other groups stay |
| Layout.DynamicLayout.ChainGroup | src/core/packet.cpp:25-29 | one group's members extend the chain of those before |
| Layout.DynamicLayout.FixLayout | src/core/packet.cpp:22-31 | every member is linked to the one before it in group order |
| Layout.GetOffset | include/core/packet.h:73-80 | following the links gives the offset in the packed sequence |
| DefaultLayout.Build | src/impls/simple.cpp:11-31 | registering the members in the order of the modules' init calls and fixing the layout chains them in the order of the list below |
| DefaultLayout.DefaultChain | src/core/packet.cpp:9-31 | the chained members have the sizes and flags of that list |
| DefaultLayout.DefaultPositions | src/impls/simple.cpp:11-31 | the positions used by the path and stack theorems are those of the members so named |
| DefaultLayout.OffsetsAre | src/impls/simple.cpp:11-31 | the bit offsets of the 15 members of the default implementation |
| DefaultLayout.DefaultFields | src/modules/identifier_module.cpp:28-62 | which bits of a packet the host ids, application ids, sequence number and acknowledgement number are |
| DefaultLayout.DefaultIsValid | src/impls/simple.cpp:11-31 | the default layout meets the conditions of the path and checksum theorems; its header has 38 bytes |
| DefaultLayout.DefaultHolds | include/core/packet.h:8-8 | any 1024-byte buffer is large enough for its accesses |
| DefaultLayout.DefaultSendable | src/modules/payload_module.cpp:28-40 | in the default layout and a 1024-byte buffer the round trip covers exactly the payloads of at most 962 bytes |
| DefaultLayout.DefaultDescribes | src/modules/identifier_module.cpp:28-62 | the theorems on the whole stack apply to the default layout's header fields in 1024-byte buffers |
| Checksum.AddWords | src/modules/checksum_module.cpp:41-47 | the loop computes the 16-bit wrap-around sum of the words |
| Checksum.SumIsTotal | src/modules/checksum_module.cpp:41-47 | the wrap-around sum is the plain total of the words modulo 2^16 |
| Checksum.ComputeChecksum | src/modules/checksum_module.cpp:23-48 | the sum is taken over the whole packet or the header, with a zero checksum field and a zero byte behind an odd length |
| Checksum.HookSend | src/modules/checksum_module.cpp:50-56 | the packet leaves with that sum in its checksum field |
| Checksum.HookIngress | src/modules/checksum_module.cpp:58-69 | the verdict compares sum and stored checksum, and the buffer is restored up to the pad byte |
| Checksum.ReplaySame | src/modules/checksum_module.cpp:58-69 | ingress leaves all covered bytes as received, so running it again gives the same verdict |
| Checksum.CorruptionDetected | src/modules/checksum_module.cpp:23-69 | of two buffers summed over the same length and differing in one 16-bit word, at most one passes |
| Path.CorruptionRejected | src/modules/checksum_module.cpp:58-69 | with the length read from the changed packet itself: a change confined to one covered word outside total_len turns a packet that passes into one that is dropped |
| Path.AnyWordRejected | src/modules/checksum_module.cpp:30-31 | with a checksum over the whole packet the same holds for every word of the packet outside total_len |
| Path.HookSendPayload | src/modules/payload_module.cpp:28-40 | both lengths and the payload are in place and the payload length is returned |
| Path.HookIngressNetwork | src/modules/network_module.cpp:26-30 | the computed length becomes the length on the wire |
| Path.OutgoingLoaded | src/core/framework.cpp:61-77 | after all send hooks lengths and payload are still in place, except for a first payload byte behind a header of odd length that alone is covered by the checksum |
| Path.SignedPasses | src/modules/checksum_module.cpp:50-69 | a packet signed on the send path passes |
| Path.SameWirePasses | src/modules/checksum_module.cpp:58-69 | the verdict depends on the wire bytes alone, not on what follows them in the buffer |
| Path.ArrivedLength | src/modules/network_module.cpp:26-30 | the length read on arrival is the length sent |
| Path.NetworkHookKeepsWire | src/modules/network_module.cpp:26-30 | noting the length does not touch the wire bytes |
| Path.IngressRecovers | src/core/framework.cpp:79-87 | ingress recovers length and payload from any buffer that carries the wire bytes |
| Path.RoundTrip | src/core/framework.cpp:61-87 | for every layout with payload last, either checksum type and every payload that fits: send, carry, ingress passes the checksum and yields length and payload, whatever stale bytes the buffers hold |
| Path.RoundTripExactly | src/modules/checksum_module.cpp:29-39 | the payload comes back unchanged if and only if the checksum covers the whole packet, the header length is even, or the payload is empty or starts with a zero byte |
| Path.HeaderArrives | src/core/framework.cpp:61-87 | what a send hook wrote last in a member on the wire is what the receiver's hooks find there |
| Path.ReplayYields | runtime/nb_runtime.c:83-92 | a second run of the whole ingress path, on the buffer a dropped first run has edited, still yields the payload |
| Path.RunSendPath | src/core/framework.cpp:61-77 | the hooks run in place compute the specified outgoing buffer |
| Path.CheckPacket | src/modules/checksum_module.cpp:58-69 | network and checksum modules run in place leave the specified buffer and verdict |
| Path.Sequence | src/modules/inorder_module.cpp:91-94 | whatever the later modules note and decide, their notes stay off the wire, and the length taken from the wire once more delimits the payload |
| Path.RunIngressPath | src/core/framework.cpp:79-87 | for any notes and decisions of the later modules, the hooks run in place in reverse yield the payload, or nothing when a module drops the packet |
| Path.CopyWire | runtime/nb_ipc_transport.c:80-94 | polling puts the wire bytes behind the headroom |
| Path.Transfer | src/core/framework.cpp:61-87 | send path, copy and ingress path between two buffers with any contents return the payload that was sent |
| Stack.FieldsArrive | src/modules/identifier_module.cpp:201-222 | host and application ids, sequence and acknowledgement number read from the arrived bytes are those that were written |
| Stack.PacketArrives | src/core/framework.cpp:61-87 | decoding the arrived bytes gives the packet that was encoded if and only if the checksum module leaves its payload alone |
| Stack.SentIsTaken | src/core/framework.cpp:79-87 | a packet a peer sent passes the checksum, is demultiplexed by the fields the peer wrote, and is handed to the connection's hooks as the peer's hooks made it |
| Stack.SentIsRouted | src/modules/identifier_module.cpp:214-252 | by the addresses the peer wrote: another host's packet is dropped; the connection of the flow gets it; without one a listener queues it; without either the process aborts; each if and only if |
| Stack.ReceiveSent | src/core/framework.cpp:79-87 | a packet a peer addressed to this host and connection changes the connection as the protocol says for the packet the peer sent |
| Stack.FlowIsMarked | src/modules/identifier_module.cpp:225-227 | the flow identifier reads back as the connection the packet was given to |
| Stack.BitsOfAt | src/modules/payload_module.cpp:36-36 | byte i of the payload lies at byte i behind the header |
| Stack.Transmit | src/core/framework.cpp:61-77 | the send path of a connection changes it by the protocol's send step and leaves the encoding of its packet in the buffer |
| Stack.Demultiplex | src/modules/identifier_module.cpp:214-252 | network, checksum and identifier modules on the bytes: the route is that of the header fields, and a wildcard match queues the packet |
| Stack.Deliver | src/modules/reliable_module.cpp:76-113 | the packet is marked with its connection, and the reliable and inorder modules do with the decoded packet what the protocol says |
| Stack.Receive | src/core/framework.cpp:79-87 | the whole ingress path from bytes to connection state: a packet for this connection is taken as decoded, any other one leaves it unchanged |
| ConnectionTable.LookupExact | src/modules/identifier_module.cpp:125-136 | with distinct keys lookup finds exactly the live entries |
| ConnectionTable.LookupAppend | src/modules/identifier_module.cpp:101-112 | an added entry is found unless an older one has its key |
| ConnectionTable.DeleteRight | src/modules/identifier_module.cpp:156-174 | under the shared-host condition deletion removes one key and keeps all others |
| ConnectionTable.DeleteLosesLast | src/modules/identifier_module.cpp:163-170 | without it the last connection can no longer be found |
| ConnectionTable.DeleteExactly | src/modules/identifier_module.cpp:156-174 | in src_dst mode deletion as written is right if and only if the removed entry is the last or shares its remote host id |
| ConnectionTable.AddStands | src/modules/identifier_module.cpp:101-112 | adding a dead key updates the map the table stands for |
| ConnectionTable.DeleteStands | src/modules/identifier_module.cpp:156-174 | deleting, also of a key that is not there, removes it from that map |
| ConnectionTable.TableIsMap | src/modules/identifier_module.cpp:101-174 | over every run of adds and deletes retrieval returns exactly the live connection of each key |
| NetState.State.constructor | src/modules/identifier_module.cpp:92-99 | the table starts empty |
| NetState.State.AddConnection | src/modules/identifier_module.cpp:101-112 | the parallel arrays gain one entry at the end |
| NetState.State.RetrieveConnection | src/modules/identifier_module.cpp:114-136 | the search loop returns the first entry with the key, or null |
| NetState.State.RetrieveWildcard | src/modules/identifier_module.cpp:138-152 | the first entry of that application whose remote end is all zero |
| NetState.State.DeleteConnection | src/modules/identifier_module.cpp:156-174 | the loop deletes the first matching entry and changes nothing when there is none |
| Accepting.Node.Ingress | src/modules/identifier_module.cpp:214-252 | wrong host: dropped; exact match: passed to that connection; wildcard: queued and the listener's ACCEPT_READY event fired; neither: assertion |
| Accepting.RouteExactly | src/modules/identifier_module.cpp:214-252 | each of the four outcomes if and only if, by the live keys of the table |
| Accepting.ReplayReaches | runtime/nb_runtime.c:75-84 | a replayed packet reaches the new connection if and only if its host id is below 2^32 and no older connection has its key; an older one takes it; with neither it re-enters the queue |
| Accepting.TurnIsIdle | runtime/nb_runtime.c:87-103 | a turn whose packet re-enters the queue leaves the queue, its order and the index as they were |
| Accepting.AcceptEndsExactly | runtime/nb_runtime.c:64-107 | nb__accept returns if and only if the host id of the flow is below 2^32, an older connection has its key, or none of its queued elements has a packet; otherwise it never does |
| Accepting.Node.TakeTurn | runtime/nb_runtime.c:87-103 | one turn of the loop in place, for any host id, computes the specified queue and index |
| Accepting.SwapWithLast | runtime/nb_runtime.c:93-102 | swapping the last element into a gap removes exactly one element |
| Accepting.DeliveriesExactly | runtime/nb_runtime.c:83-92 | one delivery to the connection per packet, in order |
| Accepting.Node.InsertAcceptQueue | runtime/nb_runtime.c:37-45 | one element is appended to the parallel arrays |
| Accepting.Node.TakeAt | runtime/nb_runtime.c:88-103 | one matching element is replayed into the new connection and removed |
| Accepting.Node.TakeFlow | runtime/nb_runtime.c:86-104 | the loop terminates and leaves no element of the flow |
| Accepting.Node.TakeLast | runtime/nb_runtime.c:72-84 | the last element is popped, its connection entered in the table, and its packet replayed into the connection that answers for the flow |
| Accepting.Node.Accept | runtime/nb_runtime.c:64-107 | whenever it returns: each queued packet of the flow is replayed exactly once, into the new connection or an older one with the same key, none of that flow stays queued, all other elements stay as a multiset, no replay re-enters the queue or fires an event; an empty queue gives null |
| Accepting.ListenOnce | runtime/nb_runtime.c:64-107 | a new listener that gets one packet and accepts hands exactly that packet to the new connection |
| CompletionCounter.TotalsGap | runtime/mlx5_impl/transport.cc:412-424 | k completions advance the packet total by k to 4096k |
| CompletionCounter.PolledEntry | runtime/mlx5_impl/transport.cc:418-426 | the polled entry is the next completion, or one at least a whole ring old |
| CompletionCounter.PollCounts | runtime/mlx5_impl/transport.cc:414-431 | the difference modulo 2^25 counts the next completion exactly and never a stale or initial entry |
| CompletionCounter.PollExact | runtime/mlx5_impl/transport.cc:414-431 | the same on the entry's two 16-bit fields |
| CompletionCounter.Transport.constructor | runtime/mlx5_impl/transport.cc:307-314 | the initial ring stands for zero packets |
| CompletionCounter.Transport.GetPacketCount | runtime/mlx5_impl/transport.cc:414-431 | the returned counts add up to the unbounded packet total |
| CompletionCounter.Transport.Repost | runtime/mlx5_impl/transport.cc:450-468 | whole buffers of 512 are handed back and fewer than 512 packets remain to be posted |
| CompletionCounter.Transport.TryRecv | runtime/mlx5_impl/transport.cc:435-470 | after every call 512 * reposts + recvs_to_post is the true packet total, with recvs_to_post below 512 |
| DataQueue.Queue.Insert | runtime/nb_runtime.c:22-27 | the payload is appended |
| DataQueue.Queue.Read | runtime/nb_runtime.c:47-62 | the first payload is returned, cut to the buffer, and the others move up; an empty queue gives nothing |
| DataQueue.FirstInFirstOut | runtime/nb_runtime.c:22-62 | over every run the i-th read returns the beginning of the i-th payload inserted, and nothing is cut off if and only if every buffer was large enough |
| IpChecksum.NoOverflow | runtime/nb_runtime.c:217-238 | 65537 words cannot overflow the 32-bit sum |
| IpChecksum.AddUp | runtime/nb_runtime.c:217-238 | the loop computes the plain sum of the big-endian words |
| IpChecksum.TwoFolds | runtime/nb_runtime.c:217-238 | two folds reduce any 32-bit sum to its 16-bit ones' complement value |
| IpChecksum.OnesSumIsResidue | runtime/nb_runtime.c:217-238 | that value is the sum with end-around carry of section 1 of RFC 1071 |
| IpChecksum.ChecksumIsComplement | runtime/nb_runtime.c:217-238 | the result is the complement of the ones' complement sum, in network byte order |
| IpChecksum.DoIpChecksum | runtime/nb_runtime.c:217-238 | the function as it runs computes that checksum |
| IpChecksum.CompletedHeader | src/modules/routing_module.cpp:59-68 | with the result in the zeroed checksum word the function returns 0, as section 3.1 of RFC 791 wants |
| IpChecksum.CompletedBytes | src/modules/routing_module.cpp:59-68 | the same on the bytes of the header |
| IpcChannel.Ipc.SendPacket | runtime/nb_ipc_transport.c:95-121 | a packet is dropped, held back, or written and followed by the held one |
| IpcChannel.Ipc.Deinit | runtime/nb_ipc_transport.c:64-71 | a held packet is written at the end |
| IpcChannel.NothingAdded | runtime/nb_ipc_transport.c:64-121 | after the flush the packets written are exactly those not dropped, once each |
| IpcChannel.Swapped | runtime/nb_ipc_transport.c:113-119 | two packets exchanged by the channel are delivered in their right order |
| IpcChannel.SentProgress | runtime/nb_ipc_transport.c:95-121 | with reordering only, the receiver is at every moment at most the held packet behind |
| IpcChannel.ReorderingDelivers | runtime/nb_ipc_transport.c:64-121 | with reordering only, for runs of any length, the hold_forever receiver delivers everything in order except a first packet held back behind a second one |

## Left out

- Sockets, raw sockets, verbs set-up, shared memory, the IPC hub and debug printing: input and output.
- BuildIt staging, C code generation and the Wireshark plugin: what is modelled is the behaviour of the generated hooks.
- The posix descriptor table: a thin layer over system calls.
- framework::finalize_paths: nothing calls it; the paths run in registration order.
- Routing lookup with a table: the table is always null, so the lookup is the identity.
- Ethernet, IP and UDP compatibility layouts, except for the IP header checksum.
- Connection teardown: the reliable module has no destablish hook, so what happens to pending timers is not defined.
- Liveness under a fair channel: the statements are about every reachable state.
- The READ_READY events of nb__cycle_connections. Connection.Conn follows everything ever inserted in the input queue, without its limit of 512; DataQueue is the queue itself.
- Wrap-around of sequence numbers and of the clock: sequence numbers are assumed to stay below 2^32 - 1 and times are unbounded.
- Protocol.LifetimeKeeps: needs at most 32 sequence numbers; the code does not enforce it, and Limits.LifetimeIsExact shows that it is needed. Protocol.GuardedRunKeeps replaces it for longer runs by conditions on each send and arrival.
- Protocol.SendAlwaysPossible: each process has this one connection; SharedPool extends the statements on timers to all connections of a process, the delivery theorems are about one.
- Connection.Conn.HookSend: requires a free timer, since the code inserts the null pointer when allocation fails; Protocol.SendAlwaysPossible shows that this cannot happen within 32 sequence numbers.
- Connection.Conn.IngressAck: requires that occupied slots name listed timers; Sender.SendMatches, Sender.AcknowledgeMatches and Sender.TickMatches keep that.
- TimerService.Service.Insert: a timer that is already listed or free is excluded; the code would corrupt the lists.
- TimerService.Service.Check: a callback either puts its own timer back after a positive delay or leaves it out; other callbacks do not occur in the repository.
- Handshake.HandshakeSafety: the opener sends data only after its ESTABLISHED event and the flow has no older traffic; while nb__accept replays packets the process polls nothing.
- Codec.AsWrittenExact: covers start offsets below 64, since line 129 shifts a 64-bit one by the start offset, which C leaves undefined from 64 on; the path theorems clear the width that line 97 uses.
- Codec.SetCustomRange: the size of the range must be representable in T, as the subtraction in the code assumes.
- Path.RunIngressPath: what the identifier, reliable and inorder modules note and decide is a parameter here; Stack.Receive computes it from the bytes and the connection's state.
- Stack.Receive: follows one connection of the process; the announced length must hold the header and lie in the buffer, which the code does not check. The bytes of the ACK it emits are not built, but Stack.PacketArrives covers them.
- Path.RoundTrip: header fields set by other modules are arbitrary writes to members other than lengths, checksum and payload.
- Path.CorruptionRejected: a changed total_len word changes how much is summed and is not covered.
- NetState.State.AddConnection: requires a free place among 512; the code does not check it.
- Accepting.Node.Accept: excludes exactly the flows for which Accepting.AcceptEndsExactly shows that it never returns.
- Accepting.Node.Ingress: the queues of other listeners are not followed, and an application that calls nb__accept from its ACCEPT_READY callback is not modelled.
- CompletionCounter.Transport.TryRecv: assumes that the device fills entries in order, advances by 1 to 4096 and does not overrun the poller; receive buffer addresses and the send side are not modelled.
- IpcChannel.ReorderingDelivers: without drops; with drops the receiver waits for ever at the first gap unless packets are resent.
