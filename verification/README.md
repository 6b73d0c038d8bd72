# Verified model of machbus

machbus is an ISO 11783 / J1939 stack: nodes claim addresses on a CAN bus, exchange messages of up to 1785 bytes
through the transport protocol, and pump everything from a caller-supplied clock without an operating system.
This project models the parts of it where state, ordering and arithmetic meet, and proves what they promise over
every input, every run and every interleaving. `dafny verify dfyconfig.toml` checks all of it.

* **Transport protocol.** `TpEngine` states what each operation of the session table does; `TpEngineClass` is the
  mutable engine, proved to do exactly that; `TpSafety` shows every operation keeps the table well formed. On top,
  `TpNetwork` runs a sender and a receiver over a hostile network and shows what can be handed up and what a reported
  success is worth; `TpSplice` and `TpDeliverable` show that this is exactly what can happen. `TpPaths` separates the
  traffic of one link from everything else in the table; with it `TpProgress` shows that transfers finish on a faithful
  link, and `TpBroadcast` exactly when a broadcast is received over any network. `TpLimits` gives the exact condition
  under which receive paths stay unambiguous. `TpAnswers` states the answer to every frame byte by byte, and `TpTimers`
  the time limits, for any number of sessions and time cut up in any way.
* **Address claiming.** `ClaimMachine` and `ClaimerClass` are one node; `ClaimNetwork` is a bus of any number of them
  with arbitrary delays, `ClaimSettles` shows that contention dies out in every order of deliveries, and `ClaimLimits`
  that the time bound is exact. `ClaimLiveness` bounds the traffic of every run and shows that nodes claim an address or
  give up as time passes, unless a waiting node is challenged again and again; `ClaimStarves` shows that then it never
  does, and exactly how long a node waits. `ClaimHeard` shows that a node knows exactly what it has been told, and
  `ClaimAnswers` states in numbers what it does on each occasion and when.
* **Containers.** Ring queue, slot table, byte buffer and buffer pool (`FixedQueue`, `FixedSlots`, `FixedBytes`,
  `BufferPool`), as classes over arrays that refine sequences, multisets and sets.
* **Time, session, driver.** `Clock`, `Session`, `Driver`: no time lost or counted twice, every event and frame
  accounted for in order.
* **Codecs and tools.** `VtStorage`, `TextField`, `Fnv`, `Json`, `HexFixture`, `Candump`: bijections, round trips
  against independent readers, and what the evidence hash can and cannot tell apart.
* **Queues and geodesy.** `NmeaQueue` (one queue that behaves as five) and `Geo` (the embedded ENU/NED frames over
  the reals).

Constants, branch order and error conditions are those of the code. Main results are marked `MAIN RESULT` in the
files.

## Where the code departs from what it promises

Each is proved, by a concrete case, by the exact condition under which it happens, or by both.

* A BAM for a second PGN is accepted while a broadcast of another PGN from the same source is open. Data frames carry
  no PGN, so the second payload is handed up under the first PGN (`TpLimits`).
* After an abandoned connection-mode transfer, a CTS that arrives late belongs to the next transfer with the same PGN.
  Two lost frames suffice for a receiver to hand up the head of one payload joined to the tail of another, and for the
  sender to report success (`TpSplice`). On a network that also repeats frames, every splice of what was sent can be
  handed up (`TpDeliverable`).
* A BAM that is dropped as malformed has by then ended an open broadcast of its PGN from the same source (`TpLimits`).
* A node that has yielded its address and waits to claim another keeps the old address in its record, and answers
  claims for it as if it still owned it (`ClaimNetwork`, `ClaimLimits`).
* The same record lets every claim of the new owner set back the delay of a node that waits to move. If the owner is
  asked for its claim more often than that delay, the node never claims another address (`ClaimStarves`).
* Two nodes can both be in the Claimed state with one address whenever claim and answer together may take as long as
  the contest window (`ClaimLimits`).
* Derived equality of the ring queue depends on the start index, and of the byte buffer on bytes cut off by a shrink
  (`FixedQueue`, `FixedBytes`).
* A frame whose send fails has already left the outbound queue and is dropped (`Driver`).
* The hashed text of a trace does not separate records: every trace of two or more commands has a shorter one with the
  same hash (`Fnv`).
* A fixture of underscores alone is an empty byte string, an empty fixture is an error (`HexFixture`).
* The cosine polynomial is negative at the poles, so the east axis points west there; its first dropped term is three
  times what the comment above it says (`Geo`).

## Model

| member | source | states |
|---|---|---|
| `TpNetwork.DeliveriesAreSplices` | src/net/tp/tp_protocol_engine.rs:127-403 | in every run of a sender and a receiver over a network that loses, repeats, delays and reorders frames, while both nodes send whatever they like on the link and serve any other traffic: each message handed up has the PGN and size of one that was sent, and each of its packets was sent at its place |
| `TpDeliverable.DeliverableIff` | src/net/tp/tp_protocol_engine.rs:127-403 | and no more can be said: on any link, to one peer or to all, a message can be handed up if and only if it is such a splice of what is sent |
| `TpDeliverable.FaithfulIff` | src/net/tp/tp_protocol_engine.rs:127-403 | a link hands up only what was sent on it if and only if no message is a splice of messages sent there, if and only if exchanging one packet of a message for that of another never gives a message that was not sent |
| `TpDeliverable.InseparableIffClosed` | src/net/tp/tp_protocol_engine.rs:1177-1338 | the finite test, on pairs of messages and one packet at a time, says the same as the condition on all splices |
| `TpNetwork.DeliveryIsFaithful` | src/net/tp/tp_protocol_engine.rs:127-403 | in particular, as long as one message only has been sent on the link, nothing else is ever handed up |
| `TpNetwork.AcknowledgedMeansDelivered` | src/net/tp/tp_protocol_engine.rs:1019-1054 | in the same runs, with any messages sent: a connection-mode sender that reports completion has been acknowledged by a receiver that handed up a message of that PGN and size |
| `TpDeliverable.AcknowledgedMeansReceived` | src/net/tp/tp_protocol_engine.rs:1019-1054 | if the messages sent pass that test and no other has its PGN and size, a message reported delivered has been handed up as it was sent |
| `TpSplice.LateWindowSplices` | src/net/tp/tp_protocol_engine.rs:902-1017 | for every two messages of one PGN and size and every packet at which to cut them: with two lost frames, no reordering, no repetition and both clocks in step, a late CTS window of an abandoned transfer makes the receiver hand up the head of the first joined to the tail of the second, and the sender report the second as delivered |
| `TpProgress.TransferCompletes` | src/net/tp/tp_protocol_engine.rs:127-403 | on a link that delivers in order, from any two session tables with a free slot and nothing between the two nodes, in any schedule of deliveries and drains, with time passing at each node below the time limits and any other traffic at both: every payload of 9 to 1785 bytes takes at most three moves a packet and two more, and until it is handed up once, acknowledged once and cleared away at both ends, one of these moves is possible |
| `TpBroadcast.BroadcastCompletes` | src/net/tp/tp_protocol_engine.rs:319-377 | a broadcast to a listener over a network that loses, repeats, delays and reorders packets, with each clock running as it likes and any other traffic at both nodes, has been received whole, reported by both and cleared away if and only if every packet has been sent, one whenever 50 ms or more have gathered, the listener got them one after the other with none repeated before the last, and it never waited 750 ms for the next; once one of these fails it never gets the message |
| `TpBroadcast.ServicedBroadcastCompletes` | src/net/tp/tp_protocol_engine.rs:319-377 | fifty services a packet, however short, or, with services at most L apart, L + 50 ms a packet, send every broadcast; once it has arrived at a listener that was not kept waiting it is received |
| `TpBroadcast.InStepBroadcastCompletes` | src/net/tp/tp_protocol_engine.rs:319-377 | with both clocks in step, services at most 700 ms apart and packets that arrive at once, fifty services a packet complete every broadcast |
| `TpBroadcast.InStepIsHeard` | src/net/tp/tp_protocol_engine.rs:319-377 | under the same conditions the listener is never kept waiting and gets every packet in turn |
| `TpBroadcast.ListenerDrops` | src/net/tp/tp_protocol_engine.rs:1177-1338 | a packet out of turn, repeated or after a gap, ends the listener's session |
| `TpLimits.PathsStayDistinctIff` | src/net/tp/tp_protocol_engine.rs:1056-1142 | an arriving frame keeps receive sessions distinguishable by their data frames if and only if it is not a BAM accepted while a broadcast of another PGN from the same source is open |
| `TpLimits.MalformedBamIgnoredIff` | src/net/tp/tp_protocol_engine.rs:1056-1100 | a BAM dropped as malformed opens nothing, and changes nothing if and only if no broadcast of its PGN from its source is open: that one it ends, and no other session |
| `TpLimits.BroadcastArrivesUnderWrongPgn` | src/net/tp/tp_protocol_engine.rs:1056-1142 | the failing case, concretely: after announcing one PGN and then another, the second payload is handed up under the first PGN |
| `TpNetwork.ApplyKeepsValid` | src/net/tp/tp_protocol_engine.rs:285-403 | every operation, with any arguments, keeps the table well formed: sessions consistent, no two of them on one path, receiving broadcasts of different PGNs excepted |
| `TpNetwork.SenderStep` | src/net/tp/tp_protocol_engine.rs:127-237 | whatever a node is asked to send, do or receive, the frames it emits on a link are right headers and data frames of messages it accepted for the link |
| `TpNetwork.ReceiverStep` | src/net/tp/tp_protocol_engine.rs:1177-1338 | fed such frames on one link and anything elsewhere, a receiver holds only packets that were sent at their place and completes only with a splice |
| `TpNetwork.StoredIsSpliced` | src/net/tp/tp_protocol_engine.rs:1276-1287 | the expected data frame adds one right packet and leaves the others alone |
| `TpNetwork.EomaMeansDelivered` | src/net/tp/tp_protocol_engine.rs:1177-1338 | an end-of-message acknowledgement goes out only in the step that hands up a message of the PGN and size it names |
| `TpNetwork.CompletionNeedsEoma` | src/net/tp/tp_protocol_engine.rs:1019-1054 | a connection-mode sender completes only on an acknowledgement frame from its peer that names its PGN and size, and only what it was asked to send |
| `TpNetwork.RepliesAreControl` | src/net/tp/tp_protocol_engine.rs:734-1175 | answers to received frames are only CTS, acknowledgement or abort, never data and never an opening |
| `TpNetwork.NextKeepsInv` | src/net/tp/tp_protocol_engine.rs:285-314 | one step of the sender or the receiver keeps the transfer invariant |
| `TpNetwork.RunKeepsInv` | src/net/tp/tp_protocol_engine.rs:285-314 | the invariant holds after every step of every run |
| `TpSplice.WholeRun` | src/net/tp/tp_protocol_engine.rs:127-403 | a transfer without incident puts the header and every data frame of the message on the wire and leaves both tables empty |
| `TpSplice.SwitchRun` | src/net/tp/tp_protocol_engine.rs:319-377 | a sender that waits 1250 ms for a window gives up, and a new message takes over the window that is still under way |
| `TpPaths.FrameAside` | src/net/tp/tp_protocol_engine.rs:285-314 | a frame that does not belong to a link leaves the sessions of that link alone |
| `TpPaths.TickAlone` | src/net/tp/tp_protocol_engine.rs:319-377 | in the timer loop, with removals and moves going on around it, a session is visited exactly once |
| `TpPaths.DrainAlone` | src/net/tp/tp_protocol_engine.rs:384-403 | draining emits for one session exactly what draining it alone would emit |
| `TpProgress.AnyMove` | src/net/tp/tp_protocol_engine.rs:285-403 | every allowed move keeps the transfer in one of its phases, and a move that belongs to it brings it nearer its end |
| `TpProgress.RunProgresses` | src/net/tp/tp_protocol_engine.rs:285-403 | the moves of a run that belong to the transfer are bounded by the phase it started in |
| `TpProgress.GoesOnUntilDone` | src/net/tp/tp_protocol_engine.rs:285-403 | no phase but the last is stuck |
| `TpBroadcast.AnyTurn` | src/net/tp/tp_protocol_engine.rs:319-377 | every turn, whatever it is, takes the engines where the course of the broadcast says, told without them |
| `TpBroadcast.SentPerService` | src/net/tp/tp_protocol_engine.rs:319-377 | a packet is sent at the latest every 50 services that take any time |
| `TpBroadcast.SentPerSpan` | src/net/tp/tp_protocol_engine.rs:319-377 | and, with services at most L apart, at the latest every L + 49 ms |
| `TpSafety.SendKeepsValid` | src/net/tp/tp_protocol_engine.rs:127-237 | an accepted send keeps the table well formed, one session per transmit path |
| `TpSafety.RtsKeepsValid` | src/net/tp/tp_protocol_engine.rs:760-900 | an RTS, refused or accepted, keeps the table well formed; a repeated one replaces its session |
| `TpSafety.BamKeepsValid` | src/net/tp/tp_protocol_engine.rs:1056-1142 | a BAM, dropped or accepted, keeps the table well formed |
| `TpSafety.CtsKeepsValid` | src/net/tp/tp_protocol_engine.rs:902-1017 | a CTS keeps the table well formed: the granted window lies inside the message |
| `TpSafety.DtKeepsValid` | src/net/tp/tp_protocol_engine.rs:1177-1338 | a data frame, in or out of sequence, keeps the table well formed, and the byte arithmetic stays in range |
| `TpSafety.FrameKeepsValid` | src/net/tp/tp_protocol_engine.rs:285-314 | any frame at all keeps the table well formed |
| `TpSafety.GenerateFacts` | src/net/tp/tp_protocol_engine.rs:1522-1548 | the generated frames are consecutively numbered pieces of the payload, and the session's counters agree with them |
| `TpSafety.DrainKeepsValid` | src/net/tp/tp_protocol_engine.rs:384-403 | draining pending data keeps the table well formed |
| `TpSafety.TickKeepsSession` | src/net/tp/tp_protocol_engine.rs:319-377 | the passage of time leaves a surviving session's identity, payload and progress intact |
| `TpSafety.UpdateFromKeepsValid` | src/net/tp/tp_protocol_engine.rs:319-377 | the timer loop, which overwrites an ended session by the last one and visits it next, keeps the table well formed |
| `TpSafety.WithoutFacts` | src/net/tp/tp_protocol_engine.rs:469-478 | discontinuing an address removes its sessions on the port, keeps all others and the table well formed |
| `TpAnswers.AbortEndsFirst` | src/net/tp/tp_protocol_engine.rs:1144-1159 | an abort frame, admissible and naming a PGN: nothing is sent and nothing completes; of the sessions of that PGN between the two nodes on that port, in either direction, the first in the table goes and all others stay; if there is none, nothing changes |
| `TpAnswers.EomaAnswered` | src/net/tp/tp_protocol_engine.rs:1019-1054 | an acknowledgement ends the transfer it names, and reports it, if and only if everything has been sent and both size and packet count are right; nothing else changes |
| `TpAnswers.CtsAnswered` | src/net/tp/tp_protocol_engine.rs:902-1017 | the whole decision table of a CTS in numbers: hold, grant of at most 16 packets, repetition, reasons 4, 5 and 7 for stopping, with the session, the abort frame and the rest of the table in each case |
| `TpAnswers.CtsJudged` | src/net/tp/tp_protocol_engine.rs:902-1017 | which of these it is, from the counters of the session and the two bytes of the frame |
| `TpAnswers.RtsAnswered` | src/net/tp/tp_protocol_engine.rs:760-900 | an RTS is refused for its shape (9), for another PGN on the path (1) or for want of room (2), or else opens a session in place of an older one of its PGN and is answered with a first window of at most 16 packets |
| `TpAnswers.BamAnswered` | src/net/tp/tp_protocol_engine.rs:1056-1142 | a BAM ends an open broadcast of its PGN from its source, opens a new one if and only if it is well shaped, sent to all and there is room, and is never answered |
| `TpAnswers.DtAnswered` | src/net/tp/tp_protocol_engine.rs:1177-1338 | a data frame in turn stores seven bytes at their place and leaves all others, hands the message up and acknowledges it with the last packet, opens the next window at the end of one; out of turn it ends the session, with reason 7 or 8 if the sender can be told |
| `TpAnswers.Unheeded` | src/net/tp/tp_protocol_engine.rs:285-314 | every other frame, and every frame that is short, badly addressed, of no TP PGN or, unless a BAM, a control frame sent to all, changes nothing |
| `TpAnswers.WindowSent` | src/net/tp/tp_protocol_engine.rs:384-403 | a cleared sender sends exactly the packets it was cleared for, byte by byte, and then waits for the next window or the acknowledgement |
| `TpAnswers.DrainOne` | src/net/tp/tp_protocol_engine.rs:384-403 | draining a table of one session is draining that session |
| `TpAnswers.DrainsInTurn` | src/net/tp/tp_protocol_engine.rs:384-403 | draining two tables end to end is draining one and then the other |
| `TpAnswers.SendAnswered` | src/net/tp/tp_protocol_engine.rs:127-237 | which of the six errors a send gets, in which order, or else the session it opens and the bytes of its first frame |
| `TpAnswers.FreshLimits` | src/net/tp/tp_protocol_engine.rs:33-104 | limits are cut off at 1785 bytes and brought into 1 to 16 packets |
| `TpTimers.WaitsItsTime` | src/net/tp/tp_protocol_engine.rs:319-377 | a session that waits and gets no frame, in a table with any others: after services of any lengths it is still there, aged by their sum, exactly while its time is below 750 ms for a listener to a broadcast and 1250 ms for the three other waiting states; when a connection goes, exactly one frame more is sent than without it, the abort with reason 3 from this node's end to the other; the others fare as they would alone |
| `TpTimers.StillThereIff` | src/net/tp/tp_protocol_engine.rs:319-377 | and after that no session with its ends, direction and PGN is left |
| `TpTimers.EachByItself` | src/net/tp/tp_protocol_engine.rs:319-377 | over any run of services the table keeps, sends and reports exactly what its sessions would keep, send and report one by one |
| `TpTimers.AnySplit` | src/net/tp/tp_protocol_engine.rs:319-377 | for one waiting session only the sum of the service times matters |
| `TpWire.HeaderRoundTrip` | src/net/tp/tp_protocol_engine.rs:1405-1456 | size, packet count and PGN written into RTS and BAM headers are read back exactly |
| `TpWire.PgnBytes` | src/net/tp/tp_protocol_engine.rs:1611-1613 | the three PGN bytes of a control frame determine the 18-bit PGN |
| `TpWire.IngestExtends` | src/net/tp/tp_protocol_engine.rs:1276-1287 | storing the next data frame after a right prefix yields a right longer prefix |
| `TpEngineClass.TransportProtocol.constructor` | src/net/tp/tp_protocol_engine.rs:6-19 | an empty table with the configured limits, clamped as the setters clamp them |
| `TpEngineClass.TransportProtocol.FindSession` | src/net/tp/tp_protocol_engine.rs:521-531 | the first session that matches |
| `TpEngineClass.TransportProtocol.RemoveSession` | src/net/tp/tp_protocol_engine.rs:510-519 | the session goes, the last one takes its place |
| `TpEngineClass.TransportProtocol.Send` | src/net/tp/tp_protocol_engine.rs:127-237 | the object's send refines the specification about which the theorems above are proved, error cases included |
| `TpEngineClass.TransportProtocol.ProcessFrame` | src/net/tp/tp_protocol_engine.rs:285-314 | the object's frame handler refines its specification |
| `TpEngineClass.TransportProtocol.HandleCm` | src/net/tp/tp_protocol_engine.rs:734-1175 | control dispatch computes the function whose five answers TpAnswers states byte by byte, the abort among them |
| `TpEngineClass.TransportProtocol.HandleRts` | src/net/tp/tp_protocol_engine.rs:760-900 | RTS handling refines its specification |
| `TpEngineClass.TransportProtocol.HandleBam` | src/net/tp/tp_protocol_engine.rs:1056-1142 | BAM handling refines its specification |
| `TpEngineClass.TransportProtocol.HandleCts` | src/net/tp/tp_protocol_engine.rs:902-1017 | CTS handling refines its specification |
| `TpEngineClass.TransportProtocol.HandleDt` | src/net/tp/tp_protocol_engine.rs:1177-1338 | data handling refines its specification |
| `TpEngineClass.TransportProtocol.CopyChunk` | src/net/tp/tp_protocol_engine.rs:1276-1287 | the copying loop stores exactly the seven bytes that lie inside the message |
| `TpEngineClass.TransportProtocol.GenerateFrames` | src/net/tp/tp_protocol_engine.rs:1522-1548 | the two nested loops produce the specified frames, padded with 0xFF |
| `TpEngineClass.TransportProtocol.DrainAt` | src/net/tp/tp_protocol_engine.rs:384-403 | one session is drained as specified |
| `TpEngineClass.TransportProtocol.GetPendingDataFrames` | src/net/tp/tp_protocol_engine.rs:384-403 | the loop over all sessions refines its specification |
| `TpEngineClass.TransportProtocol.TickAt` | src/net/tp/tp_protocol_engine.rs:319-377 | one visit of the timer loop does to that session, and to that one only, what TpTimers.WaitsItsTime says of the waiting states |
| `TpEngineClass.TransportProtocol.Update` | src/net/tp/tp_protocol_engine.rs:319-377 | the timer loop, with removal while iterating, computes the function whose effect on every session TpTimers.EachByItself states |
| `TpEngineClass.TransportProtocol.AbortSessionsForAddress` | src/net/tp/tp_protocol_engine.rs:469-478 | the retain loop refines its specification and sends nothing |
| `ClaimNetwork.QuietMeansUnique` | src/net/address_claimer.rs:237-436 | any number of nodes with distinct NAMEs, any delays, any order of delivery, any timing: if two nodes own one address, a claim for it is still under way |
| `ClaimNetwork.NeverClaimedTwice` | src/net/address_claimer.rs:237-436 | if every claim arrives within d and 2d is below every contest window, no two nodes are ever in the Claimed state with one address |
| `ClaimLimits.ClaimedOnceIff` | src/net/address_claimer.rs:237-436 | and the bound is exact: delivery within d keeps every run of every set of nodes with windows of at least w free of two Claimed nodes on one address if and only if 2d is less than w |
| `ClaimLimits.WindowTooShort` | src/net/address_claimer.rs:237-436 | for every d with 2d at least w, any two NAMEs of which the worse may not move, and any address: a run with exact clocks, in which the newcomer asks, is answered, claims all the same and settles before the owner's answer arrives |
| `ClaimNetwork.OwnedAddressIsPermitted` | src/net/address_claimer.rs:183-320 | a node owns only its preferred address or, when self-configurable, one from 128 to 247 |
| `ClaimNetwork.AnswersForOwnedAddressIff` | src/net/address_claimer.rs:329-436 | a node answers a claim only for an address it then owns, if and only if it is not waiting to leave a yielded address for which a worse NAME claims |
| `ClaimLimits.YieldedAddressDefended` | src/net/address_claimer.rs:329-436 | the exception is reached by a run without any delay: three nodes claim 0x80, the second loses it to the first and then defends it against the third |
| `ClaimNetwork.DeliverKeepsPair` | src/net/address_claimer.rs:329-436 | delivering a claim never loses the contest it belongs to |
| `ClaimNetwork.DeliverKeepsInv` | src/net/address_claimer.rs:329-436 | hearing a claim keeps the bus invariant |
| `ClaimNetwork.TickKeepsInv` | src/net/address_claimer.rs:237-320 | time passing at each node's own pace keeps the bus invariant |
| `ClaimNetwork.NextKeepsInv` | src/net/address_claimer.rs:237-503 | every action on the bus keeps the invariant |
| `ClaimNetwork.RunKeepsInv` | src/net/address_claimer.rs:137-503 | the invariant holds in every reachable state |
| `ClaimNetwork.UpdateFacts` | src/net/address_claimer.rs:237-320 | after a timer pass a node owns what it owned before or has just announced it |
| `ClaimNetwork.ClaimFacts` | src/net/address_claimer.rs:329-436 | the lower NAME repeats its claim, the higher gives the address up at once |
| `ClaimNetwork.StartFacts` | src/net/address_claimer.rs:137-171 | starting owns nothing: it sends a request and listens, or, without a claimable preferred address, fails and says so |
| `ClaimNetwork.FinishListenFacts` | src/net/address_claimer.rs:183-232 | after listening, a self-configurable node claims an address it has not heard claimed, and fails exactly when its preferred one is taken and none is free; any other node claims its preferred address, heard or not |
| `ClaimNetwork.ReclaimFacts` | src/net/address_claimer.rs:237-320 | once the delay has run out, a reclaim takes a free address, and fails exactly when none is free |
| `ClaimNetwork.RequestFacts` | src/net/address_claimer.rs:478-503 | an owner answers a request with its address, a failed node that is not waiting to move with cannot-claim, at once or after its delay, and nobody else claims anything |
| `ClaimHeard.OccupiedIsHeard` | src/net/address_claimer.rs:329-341 | in every reachable state of the bus a node's occupied addresses are exactly those up to 0xFD in the envelopes delivered to it since it last started |
| `ClaimHeard.MovesToUnheard` | src/net/address_claimer.rs:183-320 | a self-configurable node never comes to own an address it has heard claimed since it last started; in particular the one it claims after listening is in no envelope delivered to it meanwhile |
| `ClaimAnswers.ClaimAnswered` | src/net/address_claimer.rs:329-436 | who notes, repeats, moves or gives up on hearing a claim: the address is noted whatever else happens; the better NAME repeats its own; the worse goes off line and on to the nearest free address of 128 to 247, at once or after its delay, or gives up |
| `ClaimAnswers.StartAnswered` | src/net/address_claimer.rs:137-171 | starting forgets what was heard and asks, or gives up without a preferred address |
| `ClaimAnswers.ListenAnswered` | src/net/address_claimer.rs:183-232 | after listening the preferred address is claimed unless it was heard and the NAME may move; then the nearest free one after it, or none |
| `ClaimAnswers.MoveAnswered` | src/net/address_claimer.rs:237-320 | a moving node claims the address it chose, or if that has been taken since the nearest free one after it, or gives up |
| `ClaimAnswers.RequestAnswered` | src/net/address_claimer.rs:478-503 | who answers a request, with what, and when |
| `ClaimAnswers.ListensUntil` | src/net/address_claimer.rs:237-248 | a node listens exactly until its window is over, however the time is cut up, and says nothing meanwhile |
| `ClaimAnswers.ClaimedOnce` | src/net/address_claimer.rs:297-320 | an uncontested address is Claimed, and the node on line, exactly once the contest window is over |
| `ClaimAnswers.MovesOnce` | src/net/address_claimer.rs:258-296 | a node that gave way moves exactly when its delay is over |
| `ClaimAnswers.SaysSoOnce` | src/net/address_claimer.rs:249-257 | a node without an address answers a request exactly once, when its delay is over |
| `ClaimSettles.DeliveryMakesProgress` | src/net/address_claimer.rs:329-436 | delivering any waiting claim strictly decreases a well-founded measure of the contention left, answers and fresh claims included |
| `ClaimSettles.AnyOrderEnds` | src/net/address_claimer.rs:329-436 | from any state that keeps the invariant, every order of deliveries, answers and fresh claims included, ends, and one bound holds for all orders |
| `ClaimSettles.ContentionSettles` | src/net/address_claimer.rs:329-436 | every order that cannot be continued ends with no claim under way and each address owned at most once |
| `ClaimLiveness.TrafficIsBounded` | src/net/address_claimer.rs:137-503 | in every run, with starts, requests, deliveries and time in any order and any clocks, the deliveries and the timer passes that make claims are bounded by where the run began and by the number of starts and requests in it |
| `ClaimLiveness.NodesComeToRest` | src/net/address_claimer.rs:237-503 | in every run without restarts, with requests, deliveries and time in any order and in steps of any size: of the stretches in which every node's contest window passes and each waiting node is for its random delay not challenged, all but 269 a node end with every started node in the Claimed state or failed |
| `ClaimLiveness.EveryNodeSettles` | src/net/address_claimer.rs:237-436 | in every run of deliveries and time, freely interleaved, with any clocks and steps, that goes on long enough without holding all claims up, every started node has failed or is in the Claimed state with an address of its own, nothing is under way, and so it stays |
| `ClaimStarves.StarvesForever` | src/net/address_claimer.rs:329-436 | the property fails with requests: asked for its claim after every t ms, for any t below the random delay of the node that yielded to it, the owner of an address keeps that node waiting for as long as one likes |
| `ClaimStarves.StarvingIsReached` | src/net/address_claimer.rs:137-436 | two new nodes that start together, with everything delivered at once, get there |
| `ClaimStarves.WaitsExactly` | src/net/address_claimer.rs:237-436 | the exact condition: whatever it hears, is asked and waits, a node that has yielded its address claims another or gives up once it has been left alone by better NAMEs for its random delay, or is challenged when no address is left, and not before |
| `ClaimLiveness.HearingStakes` | src/net/address_claimer.rs:329-436 | hearing a claim never adds to what a node has to do, takes from it whenever the node loses its address, and otherwise sets back at most the delay of a waiting node |
| `ClaimLiveness.TimeStakes` | src/net/address_claimer.rs:237-320 | time in any amount never adds to what a node has to do, takes from it with every claim, and otherwise only moves the timers on |
| `ClaimLiveness.StepSpends` | src/net/address_claimer.rs:137-503 | every delivery and every claiming timer pass lowers the potential, and a start or request raises it by at most a fixed cost |
| `ClaimLiveness.StretchRests` | src/net/address_claimer.rs:237-503 | a fair stretch brings every node to rest, or some node has lost an address or made a claim in it |
| `ClaimLiveness.StretchSettles` | src/net/address_claimer.rs:237-436 | a stretch of deliveries and time settles the bus or lowers the potential |
| `ClaimLiveness.SettledStays` | src/net/address_claimer.rs:237-436 | no delivery and no time unsettles a settled bus |
| `ClaimLiveness.StretchIsPossible` | src/net/address_claimer.rs:329-436 | from every such state such a stretch exists |
| `ClaimStarves.WaitsWhileYielded` | src/net/address_claimer.rs:237-320 | a timer pass ends the wait exactly when the delay has run out, with a free address or in failure |
| `ClaimSettles.ClaimCosts` | src/net/address_claimer.rs:329-436 | a fresh claim made while yielding uses up part of the addresses the node can still try |
| `ClaimMachine.FindNextIsNearest` | src/net/address_claimer.rs:512-530 | the search gives the nearest free address after the present one in the cyclic range, and fails only when none is free |
| `ClaimerClass.InternalCf.constructor` | src/net/internal_cf.rs:58-69 | a new control function is unstarted and offline |
| `ClaimerClass.AddressClaimer.constructor` | src/net/address_claimer.rs:100-120 | contest window, listen window and delay derived from the base time-out and the random delay |
| `ClaimerClass.AddressClaimer.FindNextAddress` | src/net/address_claimer.rs:512-530 | the loop with wrap-around refines the specified search |
| `ClaimerClass.AddressClaimer.Start` | src/net/address_claimer.rs:137-171 | refines its specification |
| `ClaimerClass.AddressClaimer.FinishListen` | src/net/address_claimer.rs:183-232 | refines its specification |
| `ClaimerClass.AddressClaimer.Update` | src/net/address_claimer.rs:237-320 | refines its specification: cannot-claim, reclaim and guard timers in order |
| `ClaimerClass.AddressClaimer.Reclaim` | src/net/address_claimer.rs:237-320 | the delayed reclaim part refines its specification |
| `ClaimerClass.AddressClaimer.HandleClaim` | src/net/address_claimer.rs:329-436 | computes the function that ClaimAnswers.ClaimAnswered states case by case: the address is noted, then defended, given up or left alone |
| `ClaimerClass.AddressClaimer.YieldAddress` | src/net/address_claimer.rs:329-436 | the losing branch refines its specification |
| `ClaimerClass.AddressClaimer.HandleRequestForClaim` | src/net/address_claimer.rs:478-503 | refines its specification |
| `FixedQueues.Drive` | src/fixed.rs:73-118 | any sequence of push, pop, retain and clear on the ring, at any capacity and from any state, gives the answers and contents of a bounded FIFO sequence |
| `FixedQueues.FixedQueue.constructor` | src/fixed.rs:34-40 | an empty queue |
| `FixedQueues.FixedQueue.PushBack` | src/fixed.rs:73-81 | appends, or returns the item and changes nothing when full |
| `FixedQueues.FixedQueue.PopFront` | src/fixed.rs:84-95 | takes the front; the start index returns to 0 exactly when the queue empties |
| `FixedQueues.FixedQueue.Front` | src/fixed.rs:99-103 | the first item, if any |
| `FixedQueues.FixedQueue.Retain` | src/fixed.rs:106-113 | asks about each item once, in order, and keeps exactly the accepted ones in order; putting back never fails |
| `FixedQueues.FixedQueue.Clear` | src/fixed.rs:116-118 | empties the queue and every cell |
| `FixedQueues.RemainderIsCell` | src/fixed.rs:121-128 | the physical index is the wrapped logical one |
| `FixedQueues.RawEqualIff` | src/fixed.rs:18-23 | derived equality holds if and only if contents and start index agree |
| `FixedQueues.SameContentsUnequal` | src/fixed.rs:18-23 | two queues with equal contents that the derived equality tells apart |
| `FixedSlotTables.FixedSlots.constructor` | src/fixed.rs:154-159 | an empty table |
| `FixedSlotTables.FixedSlots.Push` | src/fixed.rs:206-213 | appends, or returns the item when full |
| `FixedSlotTables.FixedSlots.SwapRemove` | src/fixed.rs:216-227 | the item goes, the last takes its place, the vacated cell is cleared; out of range changes nothing |
| `FixedSlotTables.FixedSlots.Retain` | src/fixed.rs:233-243 | every stored item is asked about exactly once and exactly the accepted ones remain |
| `FixedSlotTables.FixedSlots.Clear` | src/fixed.rs:246-250 | empties the table and every cell |
| `FixedSlotTables.RawEqualIff` | src/fixed.rs:139-143 | in every well-formed state derived equality is equality of contents |
| `FixedByteBuffers.FixedBytes.constructor` | src/fixed.rs:323-328 | an empty, zeroed buffer |
| `FixedByteBuffers.FixedBytes.Push` | src/fixed.rs:387-394 | appends one byte, or reports capacity and changes nothing |
| `FixedByteBuffers.FixedBytes.ExtendFromSlice` | src/fixed.rs:397-408 | appends all bytes, or reports capacity and changes nothing |
| `FixedByteBuffers.FixedBytes.Resize` | src/fixed.rs:414-427 | grows with the fill byte or cuts off the end; too large changes nothing |
| `FixedByteBuffers.FixedBytes.Clear` | src/fixed.rs:430-432 | hides all bytes |
| `FixedByteBuffers.FromSlice` | src/fixed.rs:331-335 | succeeds exactly when the bytes fit |
| `FixedByteBuffers.EqualsRebuiltIff` | src/fixed.rs:308-312 | a buffer equals one rebuilt from its bytes if and only if nothing but zeros lies behind its end |
| `FixedByteBuffers.UnshrunkEqualIff` | src/fixed.rs:308-312 | never-shrunk buffers are equal exactly when their slices are |
| `FixedByteBuffers.ShrinkBreaksEquality` | src/fixed.rs:414-427 | shrinking leaves bytes behind that the derived equality sees |
| `BufferPools.FixedBufferPool.constructor` | src/fixed.rs:574-579 | all slots free and zeroed |
| `BufferPools.FixedBufferPool.Acquire` | src/fixed.rs:581-589 | leases the lowest free slot, zeroed; fails exactly when all are leased |
| `BufferPools.FixedBufferPool.Write` | src/fixed.rs:581-589 | what a lease holder may do to the buffer keeps the pool's invariant |
| `BufferPools.FixedBufferPool.Release` | src/fixed.rs:591-599 | succeeds exactly for a leased slot, zeroes it and touches no other |
| `Clock.TotalIsWholeSpan` | src/time.rs:59-105 | for any readings, backward steps included, with no forward gap over u32::MAX ms: the total reported is the whole span in milliseconds, rounded down once |
| `Clock.TotalIgnoresSampling` | src/time.rs:95-105 | two ways of sampling one stretch report the same total |
| `Clock.NothingLostOrDoubled` | src/time.rs:95-105 | with any gaps at all, the remembered instant is the first reading plus what was reported, and never passes the largest reading |
| `Clock.LeapIsCaughtUp` | src/time.rs:59-105 | after a leap too large for one report, calling again at one instant reports the whole leap in finitely many calls and then nothing |
| `Clock.AdvanceIsExact` | src/time.rs:59-105 | one call moves the remembered instant by exactly what it reports and leaves less than a millisecond over |
| `Clock.Ticker.AdvanceMillis` | src/time.rs:95-105 | the in-place update refines the specification |
| `Sessions.EventsAreTheHistory` | src/embedded_session.rs:127-149 | for every interleaving of feeds, ticks and polls, events polled followed by events queued are the history: each step's messages, then one AddressClaimed for each rise to Claimed |
| `Sessions.ProtocolTimeIsWholeSpan` | src/embedded_session.rs:192-198 | the network sees one update of 0 ms, then only positive updates, which add up to the whole span |
| `Sessions.ExtraFeedAddsNoTime` | src/embedded_session.rs:127-139 | a frame more, fed anywhere in a run at an instant no later than one already seen, leaves the updates of the network the same one by one |
| `Sessions.Session.PumpTime` | src/embedded_session.rs:192-198 | updates the network on the first call and on positive elapsed time only |
| `Sessions.Session.Route` | src/embedded_session.rs:200-204 | moves every captured message to the event queue, in order |
| `Sessions.Session.NoticeClaim` | src/embedded_session.rs:206-216 | one event on the rising edge of Claimed |
| `Sessions.Session.Feed` | src/embedded_session.rs:127-132 | time, frame, messages, claim, in that order |
| `Sessions.Session.Tick` | src/embedded_session.rs:135-139 | time, messages, claim, in that order |
| `Sessions.Session.PollTransmit` | src/embedded_session.rs:142-144 | the oldest outbound frame |
| `Sessions.Session.PollEvent` | src/embedded_session.rs:147-149 | the oldest event |
| `Drivers.PollsConserveFrames` | src/embedded_session.rs:310-333 | over any number of polls, whatever arrives and whichever sends fail: frames sent and lost, in order, followed by what is still outbound are what was outbound at first followed by all produced since; a poll loses one frame if it reports a failed send and none otherwise; the network is fed exactly what arrived, in order |
| `Drivers.PolledEventsAreTheHistory` | src/embedded_session.rs:310-333 | over any number of polls, events returned followed by events queued are the session's history: a failed send delays an event and loses none |
| `Drivers.Drive` | src/embedded_session.rs:310-319 | a driver polled again and again, as an object, sends and returns what the theorems say |
| `Drivers.PumpAccounts` | src/embedded_session.rs:310-319 | one poll accounts for every frame |
| `Drivers.FixedViewLosesOnlyOverflow` | src/embedded_session.rs:220-231 | two events look alike through the bounded view exactly when they are equal or both too long with the same header |
| `Drivers.FixedViewFields` | src/embedded_session.rs:220-231 | field by field what is handed up: all of a message that fits; of any other its header, its length and the room there was |
| `Drivers.Driver.FeedReceived` | src/embedded_session.rs:310-319 | the receive loop feeds everything waiting |
| `Drivers.Driver.SendOutbound` | src/embedded_session.rs:310-319 | the send loop stops at the first failure and drops only that frame |
| `Drivers.Driver.Exchange` | src/embedded_session.rs:310-319 | feed, tick, send, in that order |
| `Drivers.Driver.PollAt` | src/embedded_session.rs:310-319 | after a failed send no event is taken, otherwise the oldest one |
| `Drivers.Driver.PollFixedAt` | src/embedded_session.rs:324-333 | the same pump, with the event seen through the bounded view |
| `VtStorage.CodecIsBijective` | src/vt_storage.rs:97-169 | a record encodes to given bytes if and only if those bytes decode to it |
| `VtStorage.ReadIffBlobOf` | src/vt_storage.rs:121-169 | a blob is read as a record if and only if its bytes are 0x56 0x54 0x50 0x31, then time, size and version as sums of byte i times 256^i, the object count, the label and its NULs, and the pool |
| `VtStorage.ReadableIff` | src/vt_storage.rs:121-169 | which blobs are read at all, from the bytes alone: magic, a label of 1 to 7 allowed characters followed by NULs only, and a length of 27 plus the size, which is at most 16777216 |
| `VtStorage.StoredIff` | src/vt_storage.rs:97-117 | which records are stored, and that the bytes are exactly those |
| `VtStorage.EncodeThenDecode` | src/vt_storage.rs:97-143 | every record that encodes decodes back to itself |
| `VtStorage.DecodeThenEncode` | src/vt_storage.rs:121-169 | every blob that decodes encodes to the identical bytes: magic, little-endian fields, padded label, exact length |
| `VtStorage.ToStorageBytes` | src/vt_storage.rs:97-117 | the appending code and its label loop produce the bytes that VtStorage.StoredIff spells out, or nothing |
| `VtStorage.LeRoundTrip` | src/vt_storage.rs:97-117 | little-endian fields are read back exactly |
| `VtStorage.LeCanonical` | src/vt_storage.rs:121-143 | and every such byte string is the encoding of what it reads as |
| `VtStorage.LabelRoundTrip` | src/vt_storage.rs:147-169 | a valid label survives NUL padding |
| `VtStorage.LabelCanonical` | src/vt_storage.rs:162-169 | a readable label field is the padding of its label, with nothing after the first NUL |
| `VtStorage.RefreshedIsStorableIff` | src/vt_storage.rs:48-55 | after a metadata refresh a record is storable exactly when its label is valid and its pool is within the limit |
| `VtStorage.RefreshedFields` | src/vt_storage.rs:48-55 | what a refresh sets and what it leaves |
| `TextFields.EncodeIffDecode` | src/j1939/text.rs:6-45 | a text encodes to given bytes if and only if the bytes decode to it and it has no reserved character |
| `TextFields.EncodedIff` | src/j1939/text.rs:22-45 | a field encodes if and only if every character is printable Latin-1, not `*` and not among those the caller forbids, and then to their codes |
| `TextFields.FirstOffenderDecides` | src/j1939/text.rs:22-45 | otherwise the first offending character decides between the two errors |
| `TextFields.DecodedIff` | src/j1939/text.rs:6-20 | bytes decode if and only if all are printable, to the characters of those codes |
| `TextFields.EncodedFacts` | src/j1939/text.rs:22-45 | one byte per character, and never `*` |
| `TextFields.JoinSplits` | src/j1939/text.rs:22-45 | encoded fields, each ended by `*`, split back into exactly those fields |
| `TextFields.DecodeField` | src/j1939/text.rs:14-20 | the decoding loop refines its specification |
| `TextFields.EncodeField` | src/j1939/text.rs:22-45 | the encoding loop refines its specification, including which error comes first |
| `Fnv.OneByteMatters` | examples/rust/iop_inspect.rs:804-810 | changing any one byte of a buffer of any length changes its 64-bit hash |
| `Fnv.OnePayloadByteMatters` | examples/rust/vt_trace_inspect.rs:1051-1068 | changing any one payload byte of any command changes the trace hash |
| `Fnv.AppendedByte` | examples/rust/iop_inspect.rs:804-810 | appending a byte gives the product modulo 2^64 of 0x100000001B3 and the hash with its low byte replaced by the exclusive or, bit by bit, of that byte and the new one |
| `Fnv.OwnLowByte` | examples/rust/iop_inspect.rs:804-810 | so the hash ends in a zero byte if and only if the last byte repeats the low byte of the hash before it |
| `Fnv.HashOfNothing` | examples/rust/iop_inspect.rs:804-810 | the start value is 0xCBF29CE484222325 |
| `Fnv.HashOfA` | examples/rust/iop_inspect.rs:804-810 | the published value for the text `a` |
| `Fnv.TraceIsDeterminedIff` | examples/rust/vt_trace_inspect.rs:1059-1068 | whatever counts as a name, a trace is the only one with its hashed text if and only if it is empty, or one command whose name can end at one NUL only and whose payload does not spell a record end and another name: two commands always share the hash of a single one |
| `Fnv.TimesPrimeInjective` | examples/rust/iop_inspect.rs:804-810 | multiplying by the FNV prime modulo 2^64 is injective |
| `Fnv.MixInjectiveInHash` | examples/rust/iop_inspect.rs:804-810 | one step is injective in the running hash |
| `Fnv.MixInjectiveInByte` | examples/rust/iop_inspect.rs:804-810 | one step is injective in the byte |
| `Fnv.PayloadByteAt` | examples/rust/vt_trace_inspect.rs:1059-1068 | changing one payload byte changes one byte of the hashed text |
| `Fnv.CommandAdds` | examples/rust/vt_trace_inspect.rs:1059-1068 | each command adds its name, 0x00, its payload and 0xFF to the hashed text |
| `Fnv.Fnv1a64Trace` | examples/rust/vt_trace_inspect.rs:1059-1068 | the appending loop gives the hash, pinned by Fnv.AppendedByte, of the text that Fnv.CommandAdds spells out |
| `Json.StringIsReadBack` | examples/rust/iop_inspect.rs:1015-1031 | every string is read back exactly by a reader for section 7 of RFC 8259, which stops at the closing quote whatever follows |
| `Json.ArrayIsReadBack` | examples/rust/iop_inspect.rs:1004-1013 | every list of strings is read back exactly |
| `Json.EscapeIsRead` | examples/rust/iop_inspect.rs:1015-1031 | each character's escape is read as that character |
| `Json.EscapeLength` | examples/rust/iop_inspect.rs:1015-1031 | seven characters have a two-character escape, the other controls six characters, and everything else stands for itself |
| `Json.PushEscaped` | examples/rust/iop_inspect.rs:1015-1031 | appends the escape of one character |
| `Json.PushJsonString` | examples/rust/iop_inspect.rs:1015-1031 | the loop appends the quoted, escaped string |
| `Json.PushJsonStringArray` | examples/rust/iop_inspect.rs:1004-1013 | the loop appends the bracketed list |
| `HexFixtures.RawDigitsCount` | examples/rust/iop_inspect.rs:748-802 | with ASCII white space, a file of plain rows parses to what its raw text says once comments and spacing are left out, unless no row holds anything |
| `HexFixtures.OnlyDigitsCount` | examples/rust/iop_inspect.rs:748-802 | with any white space, it parses to what the kept characters of its rows say |
| `HexFixtures.SignificantIsRaw` | examples/rust/iop_inspect.rs:748-777 | rows, comments and trimming change nothing about the kept characters |
| `HexFixtures.DigitsReadIff` | examples/rust/iop_inspect.rs:779-802 | digits give bytes if and only if there are two for each, high one first |
| `HexFixtures.FirstBadIsToBlame` | examples/rust/iop_inspect.rs:779-802 | otherwise the first character that is no digit is reported, or an odd number of digits |
| `HexFixtures.SpacingIs` | examples/rust/iop_inspect.rs:779-802 | the six characters that are skipped |
| `Hex.HexValueIff` | examples/rust/iop_inspect.rs:779-802 | sixteen digits, in either case alike, and no others |
| `HexFixtures.SameDigitsSameResult` | examples/rust/iop_inspect.rs:748-802 | two such files with the same kept characters give the same result if and only if both or neither are blank |
| `HexFixtures.UnderscoreIsNotEmpty` | examples/rust/iop_inspect.rs:748-777 | the exception, concretely: `_` gives an empty byte string, an empty file an error |
| `HexFixtures.FirstRowDecides` | examples/rust/iop_inspect.rs:748-777 | with a name given, the first row of that name alone decides |
| `HexFixtures.TrimKeepsDigits` | examples/rust/iop_inspect.rs:748-777 | trimming ASCII white space drops no kept character |
| `HexFixtures.Squeeze` | examples/rust/iop_inspect.rs:779-802 | the filtering loop stops at the first character that is no digit, and otherwise returns the kept characters |
| `HexFixtures.PairUp` | examples/rust/iop_inspect.rs:779-802 | the pairing loop makes one byte of two digits |
| `HexFixtures.ParseHexBytes` | examples/rust/iop_inspect.rs:779-802 | the result depends on the kept characters only |
| `HexFixtures.ParseHexFixture` | examples/rust/iop_inspect.rs:748-777 | the row loop refines its specification |
| `Candump.CompactIsReadBack` | examples/rust/candump_replay.rs:76-97 | a frame printed in the compact form is parsed back exactly, after any tokens without `#` and before any others |
| `Candump.BracketedIsReadBack` | examples/rust/candump_replay.rs:99-143 | a frame printed in the bracketed form is parsed back exactly, with or without a timestamp |
| `Candump.FormsAgree` | examples/rust/candump_replay.rs:72-164 | whole lines in the two forms parse to the same frame |
| `Candump.AcceptedFramesAreValid` | examples/rust/candump_replay.rs:72-143 | whatever the line, an accepted frame has at most eight bytes and an id within its format |
| `Candump.ParseHexPayload` | examples/rust/candump_replay.rs:145-155 | the pairing loop refines its specification, odd lengths and bad digits refused |
| `Candump.ParseDataTokens` | examples/rust/candump_replay.rs:99-143 | the byte-token loop refines its specification |
| `Candump.WriteHexBytes` | examples/rust/candump_replay.rs:157-164 | the printing loop writes two digits a byte |
| `Candump.PayloadReads` | examples/rust/candump_replay.rs:145-164 | printed payload bytes are read back |
| `NmeaQueues.Drive` | src/ffi/c_abi_transfer_nmea.rs:1541-1693 | for every run of feeds and polls and every kind, what its pollers received followed by what is still queued of it is all that was pushed of it, in order |
| `NmeaQueues.Nmea.Feed` | src/ffi/c_abi_transfer_nmea.rs:1541-1560 | decoded items are appended in callback order |
| `NmeaQueues.Nmea.Pop` | src/ffi/c_abi_transfer_nmea.rs:1607-1619 | takes the oldest item of the kind and leaves all others in place |
| `NmeaQueues.StepKeepsLane` | src/ffi/c_abi_transfer_nmea.rs:1607-1693 | one feed or poll keeps the account of every kind |
| `NmeaQueues.LaneOfOthers` | src/ffi/c_abi_transfer_nmea.rs:1607-1619 | taking one kind away does not affect the order of another |
| `Geo.BatchesComeBack` | src/geo.rs:375-439 | a batch taken into ENU or NED and back is unchanged, for every origin up to 89.99999999 degrees of latitude and at the poles |
| `Geo.EnuRoundTripIff` | src/geo.rs:347-418 | from any origin on the globe a point comes back if and only if the cosine polynomial is not zero there |
| `Geo.EastIsPositiveIff` | src/geo.rs:325-355 | a point to the east has a positive east coordinate if and only if the cosine polynomial is positive: not at the poles |
| `Geo.NorthAndUp` | src/geo.rs:325-380 | north has the sign of the difference in latitude and is 110.5 to 111.7 km for each degree; up and down are the difference in altitude and its opposite |
| `Geo.ScalesOnTheGlobe` | src/geo.rs:325-337 | the latitude scale stays between 110.5 and 111.7 km, the longitude scale has the sign of the cosine |
| `Geo.ScalesAreSeries` | src/geo.rs:325-337 | the expanded harmonics are cos(nt) as given by the addition formulas, for n up to 6 |
| `Geo.HarmonicInRange` | src/geo.rs:325-337 | every harmonic lies between -1 and 1 |
| `Geo.Written` | src/geo.rs:295-306 | the coefficient list is the polynomial as the code writes it out |
| `Geo.PartialSumFalls` | src/geo.rs:295-306 | every partial sum of the cosine series strictly falls while x*x grows to 2.5, which covers the latitudes |
| `Geo.CosineFallsTowardsThePoles` | src/geo.rs:295-306 | the polynomial strictly falls from the equator to each pole |
| `Geo.CosineChangesSignBeforeThePole` | src/geo.rs:295-306 | it is positive up to 89.99999999 degrees and negative at 90 |
| `Geo.TruncationError` | src/geo.rs:288-306 | it is below every longer partial sum of the cosine series, by at most x^16/16! |
| `Geo.DroppedTermAtThePole` | src/geo.rs:288-306 | that bound exceeds 6e-11 at the pole, where the comment gives 2e-11 |

## Left out

- TpEngine: statistics counters, abort events and log lines are not modelled; allocation failure of a receive buffer is not modelled, the size limit is.
- TpNetwork.DeliveryIsFaithful: one message per link, because TpSplice.LateWindowSplices shows the code mixes two; TpNetwork.DeliveriesAreSplices, TpDeliverable.DeliverableIff and TpDeliverable.FaithfulIff say what holds for several.
- TpNetwork.AcknowledgedMeansDelivered: PGN and size only, because TpSplice.LateWindowSplices shows that the content acknowledged may be a splice.
- TpProgress.TransferCompletes: other traffic does not include further frames or sends between the same two nodes, nor giving up one of their addresses, because the code lets these end the transfer; until the receiver has opened its session, its other traffic leaves a slot for it.
- TpBroadcast.BroadcastCompletes: the announcement has been heard when the run begins, and other traffic does not include further broadcasts or BAM frames of the same source (TpLimits.BroadcastArrivesUnderWrongPgn).
- TpEngineClass.TransportProtocol.AbortSessionsForAddress: models the order-preserving retain of the heap build; the fixed-table build keeps the same sessions in another order; the timer-session table that the source filters along with it is not modelled.
- The timer-session table of the transport engine, the fixed-capacity frame variants, the extended transport protocol and Fast Packet: variations of the same reassembly.
- Identifier and NAME bit packing, routing between ports, and the network layer around the engines: frames are modelled by their fields.
- ClaimNetwork.QuietMeansUnique: NAMEs are distinct, as the standard requires; duplicate-NAME handling, commanded addresses and claim events are not modelled.
- ClaimLiveness.EveryNodeSettles: without requests, because ClaimStarves.StarvesForever shows that they can prevent it; ClaimLiveness.NodesComeToRest says what holds with them. Timers reach their limits, which are 32-bit numbers as they are.
- ClaimLiveness.NodesComeToRest: restarts are not covered here; ClaimLiveness.TrafficIsBounded covers them.
- ClaimLimits.ClaimedOnceIff: contest windows fit in 32 bits, as they do in the source.
- ClaimLimits.WindowTooShort: the worse NAME is one that may not move to another address; a self-configurable node that was answered in time moves instead.
- Sessions.EventsAreTheHistory: the network core is an arbitrary script of captured messages, claim states and outbound frames, not the modelled engines.
- FixedQueues.FixedQueue.Retain: the closure is a pure predicate; closures with side effects are not modelled.
- FixedSlotTables.FixedSlots.Retain: the closure is a pure predicate; closures with side effects are not modelled.
- HexFixtures.RawDigitsCount: for text whose white space is ASCII; the code trims any Unicode white space from a row but skips only ASCII white space inside it, which HexFixtures.OnlyDigitsCount covers.
- HexFixtures.ParseHexFixture: error messages are reduced to their kind and the offending character.
- Candump.CompactIsReadBack: lengths are counted in characters, where the code counts UTF-8 bytes; tokens with other than ASCII characters are refused either way.
- Candump.AcceptedFramesAreValid: states soundness, not an exact description of accepted text, which includes a leading plus sign in numbers.
- Geo.EnuRoundTripIff: reals instead of doubles, so rounding, infinities and NaN are out; a division by zero is reported as no result.
- The hosted geodesy path, which calls a library that is not part of this model, and the Earth-centred frame.
- The guidance helpers, safety latches, auxiliary channels and the conformance ledger: they would only add easy members.
- The expiry and wall-clock helpers of the pool store, argument parsing, file access, rendering and the C interface around the modelled parts.
