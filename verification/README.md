# Verified model of the WebRTC application

This Dafny project models the parts of a WebRTC application for a FreeRTOS camera board whose
correctness is hard to see from the code, and proves what they keep over every run. Each component has
a model on values (functions of the state), laws about that model, and, where the program updates state
in place, a class whose methods are proved to carry out exactly the model.

| file | component |
|---|---|
| `Circular`, `JitterModel`, `JitterPolicy`, `JitterRing`, `JitterFrames`, `JitterCursors`, `JitterOwnership`, `JitterDelivery`, `JitterClosing`, `JitterPass`, `JitterAsks`, `JitterReach`, `JitterReceive`, `JitterBuffer` | RTP jitter buffer: a 1000-slot ring under wrapping 16-bit sequence numbers and 32-bit timestamps |
| `ShiftRegister`, `Crc32Reference`, `Crc32Table`, `Crc32` | table-driven CRC-32 of the STUN FINGERPRINT attribute, section 15.5 of RFC 5389 |
| `DataChannels` | the pool of data channels and the linked list of each session |
| `StreamIds` | stream ids of data channels, section 6 of RFC 8832 |
| `SessionModel`, `PeerSession`, `MediaSource`, `Lifecycle` | session states, DTLS handshake and the media source several sessions share |
| `SessionTasks` | the tasks that are inside the calls of one session at the same time |
| `SessionTable` | which session a remote client is routed to |
| `Nomination` | ICE nomination and the gate for media packets, under concurrent restarts |
| `Decimal`, `Candidate` | printer and parser of the ICE candidate attribute, section 15.1 of RFC 5245 |
| `FrameQueue`, `FrameTurns` | the drop-oldest queue of media frames, and its producer next to the sending task |

`dafny verify dfyconfig.toml` checks everything.

## Conventions

- Calls into foreign code (mbedTLS, usrsctp, the ICE, STUN, DCEP and codec libraries, the clock) are
  parameters: the model takes what they answer, and the theorems hold for every answer.
- A callback is a function of everything reported in the pass so far, so it may answer differently each
  time. It does not change the jitter buffer. Allocation succeeds.
- Heap blocks have ids; `freed` counts how often each was freed.
- `ghost` loop counters and logs (reports, deliveries, rounds) are history, not program state.

## What the code does not do

The model follows the code. Where the code falls short of what it seems meant to do, a lemma gives the
exact condition, or the input:

- `ReportsAreSoundIff`, `UnstampedOldestIsLost`, `StrandedIsReached`: when the oldest packet already belongs
  to another frame and is expired, a pass drops that packet as if it belonged to the old frame, reads the
  cursors from the slot it has just cleared, and restarts them at zero. Three packets after Create get there.
- `AsksAboutEmptyIff`, `AsksToldBefore`: such a pass then asks the codec about the slot it has cleared; any
  other pass does so about an empty slot it meets while the current timestamp is zero. The branch for
  invalid packets reads the payload to log it.
- `AddedIsVisitedIff`, `WrapIsNotVisited`: the interval 0..65535 looks empty to the scanning loop, and
  in-order delivery across the wrap reaches it.
- `UpdateJitterBufferAddPacket` stores into the newest number where it compares with the oldest one; the
  model does the same, so the newest number is not a maximum: once the oldest number is ten or more it
  moves to every packet that is not below the oldest one, back too (`AddedMovesCursorsIff`). `LastPopIsMinimum`: the second branch of
  the timestamp update never fires. `NewestTimestampIff`: the newest timestamp is no maximum either.
- `GetPacketAgreesWithMap`, `LookupAfterRun`: an empty slot 0 answers for sequence number 0.
- `CreateKeepsOwnershipIff`: creating a jitter buffer over packets loses their blocks.
- `CreateDataChannel`, `Run` in `DataChannels`: a create that a session at its limit refuses loses a
  channel of the pool for good, and nothing else does; the third create of a session is such a one
  (`ThirdCreateIsLost`). Closing a channel that is not in use counts down again, and only that spoils the
  counter of the pool (`ClosedTwiceIsHarmful` gives a run).
- `SecondCommitIff`, `CompletedTwice`, `ClosedTwice`: the handshake is tested, and committed later; a session
  that is closed is read, and set later. Another task in between lets the handshake complete twice after
  one DTLS_Init, and a session that became ready once tell the media source twice that it closed.
- `FoundKeepsIff`, `OverwrittenReadyIsNeverClosed`, `OverwrittenReadyIsReached`: the found callback overwrites the ready state when the
  handshake completes inside it, and the media source is never told that the peer closed.
- `StartsIff`: a start that fails after it added a transceiver makes every later start of the session fail.
- `NominatingPacketShutsGate`, `NonStunGate`: the result of a STUN packet stays in a variable of the
  receive loop and suppresses the media packets behind it.
- `AnnouncedTwiceIff`, `AnnouncedTwice`: a restart between the decision and the callback lets two found
  events into one epoch.
- `AgreesIsPrefix`, `PrefixesAreAccepted`: a prefix of a protocol or type name, even the empty one, is read
  as that name.
- `DropsBehindTheTest`, `WaitingIsReached`: when the sending task takes frames after the queue was found
  full, the producer still drops one; when it takes all ten, the producer waits for ever, for it is the only
  one to put frames into the queue.

## Model

| member | source | states |
|---|---|---|
| JitterFrames.ReadyFramesAreComplete | examples/peer_connection/peer_connection_jitter_buffer.c:118-220 | For every ring state, every codec that rejects empty slots and every callback: a range handed out as a frame starts at a start packet, each of its slots is pushed, holds a payload and has the current timestamp, and the packet after it is pushed with another timestamp. |
| JitterFrames.StampedReportsOrdered | examples/peer_connection/peer_connection_jitter_buffer.c:118-220 | When the oldest packet is missing or stamped as the current frame, the ready and drop ranges of a pass are disjoint and strictly increasing in circular order. |
| JitterFrames.UnstampedOldestIsLost | examples/peer_connection/peer_connection_jitter_buffer.c:140-183 | Otherwise the first step of the pass either stops or drops the oldest packet alone and restarts both cursors at zero. |
| JitterCursors.ReportsAreSoundIff | examples/peer_connection/peer_connection_jitter_buffer.c:118-220 | A pass reports only ranges that hold packets of one frame, in order, if and only if it scans nothing or its oldest packet is missing, stamped, or not expired. |
| JitterReach.StrandedIsReached | examples/peer_connection/peer_connection_jitter_buffer.c:632-696 | A new buffer that receives 10, 9 and 11 reaches the failing case, for every positive tolerance up to the range of the timestamps: the pass after the third packet drops packet 9 as part of another frame, and asks the codec about an empty slot if and only if the callback accepts that drop. |
| JitterCursors.CursorsFollowLastReport | examples/peer_connection/peer_connection_jitter_buffer.c:62-66 | After a pass whose oldest packet was not stranded, or that scanned nothing, the cursors stand at the packet behind the last reported range, as the callback saw it, or where they were. |
| JitterCursors.ReportedRangesAreReleased | examples/peer_connection/peer_connection_jitter_buffer.c:146-172 | After a pass every slot of every reported range is empty, and every other slot is unchanged or cleared. |
| JitterCursors.FrontFrameIsReported | examples/peer_connection/peer_connection_jitter_buffer.c:140-152 | A completely received frame at the front, followed by a packet of another frame, is the first thing a pass reports, with its exact bounds. |
| JitterPass.PassIsFrameByFrame | examples/peer_connection/peer_connection_jitter_buffer.c:118-220 | For every codec and callback, and every interval in which no two numbers share a slot: a pass leaves the ring and the cursors, reports, and succeeds as said frame by frame. A frame ends before the next packet with another timestamp; it is ready from its opening packet on if nothing was missing in the pass so far; otherwise it is dropped if the packet behind it is expired, and else the pass waits. At a missing or invalid packet a pass waits unless it is closing or zero is expired. A stranded oldest packet is dropped alone, or the pass waits. |
| JitterPass.ClearIff | examples/peer_connection/peer_connection_jitter_buffer.c:33-35 | No two numbers of an interval share a slot if and only if it has at most 536 numbers, or at most 1000 and does not wrap. |
| JitterPass.DropsAreExpired | examples/peer_connection/peer_connection_jitter_buffer.c:160-183 | Any pass over any buffer drops a range only when the packet behind it belongs to another frame and is expired; a stranded oldest packet is dropped alone, and only when it is expired itself. |
| JitterPass.PassWaitsAtFresh | examples/peer_connection/peer_connection_jitter_buffer.c:179-183 | In every pass the scan stops at the first packet of another frame that is not expired when no complete frame was gathered, and changes nothing more. |
| JitterAsks.AsksAboutEmptyIff | examples/peer_connection/peer_connection_jitter_buffer.c:118-220 | For every buffer, codec and callback: a pass shows the codec a slot without a payload if and only if it begins with a stranded packet and the callback accepts its drop; or, beginning otherwise, meets an empty slot while the current timestamp is zero and zero is expired or the pass is closing. |
| JitterAsks.AsksToldBefore | examples/peer_connection/peer_connection_jitter_buffer.c:118-220 | When no stored packet carries the timestamp zero, or zero is not expired, the state before the pass decides: stranded with an accepted drop, or an empty oldest slot with the timestamp cursor at zero. |
| JitterDelivery.ReportedAtMostOnce | examples/peer_connection/peer_connection_jitter_buffer.c:89-267 | Over every run of receive steps, frees and creations, no two reports carry the same payload, and a reported payload is gone from the ring. |
| JitterClosing.ClosingReportsTheRest | examples/peer_connection/peer_connection_jitter_buffer.c:222-263 | In a closing pass every packet the scan left between the cursor and the newest number is reported to the drop callback before its slot is cleared, even when the callback fails. |
| JitterClosing.SweepIsByRanges | examples/peer_connection/peer_connection_jitter_buffer.c:222-263 | The closing sweep is a sweep by ranges, each from a gap to before the next; after a refused range the end of the next one is the old one unless a packet comes in between. |
| JitterClosing.FreeReportsTheRest | examples/peer_connection/peer_connection_jitter_buffer.c:505-540 | Freeing a buffer reports what the scan of its closing pass left before the slots are cleared, and the buffer is not initialised any more. |
| JitterOwnership.RunKeepsOwnership | examples/peer_connection/peer_connection_srtp.c:636-659 | Over every run (accepted, rejected, duplicate and evicting packets, parse passes, Free, Create after Free) each allocated block is held by exactly one slot or was freed exactly once; a pushed packet sits at its number modulo 1000. |
| JitterOwnership.ReceiveGood | examples/peer_connection/peer_connection_srtp.c:636-659 | One receive step (allocate, fill, push) keeps ownership in every branch. |
| JitterOwnership.FreeReleasesAll | examples/peer_connection/peer_connection_jitter_buffer.c:505-540 | After Free every slot is cleared and every block ever allocated was freed exactly once. |
| JitterOwnership.CreateKeepsOwnershipIff | examples/peer_connection/peer_connection_jitter_buffer.c:423-453 | Create keeps ownership if and only if it refuses for lack of a codec, or the ring it clears holds no packet. |
| JitterRing.DiscardRunEffect | examples/peer_connection/peer_connection_jitter_buffer.c:42-68 | Discarding a range clears exactly the slots its sequence numbers map to and no other. |
| JitterRing.SharesSlotIff | examples/peer_connection/peer_connection_jitter_buffer.c:33-35 | Two numbers at a forward distance below 1000 share a slot if and only if the span crosses 65535 and the distance is 536. |
| JitterRing.RingAgreesWithMap | examples/peer_connection/peer_connection_jitter_buffer.c:542-587 | Over every such run, however often it goes around the 16-bit numbers, the ring holds exactly the packets of the map and every other slot is empty. |
| JitterRing.GetPacketAgreesWithMap | examples/peer_connection/peer_connection_jitter_buffer.c:542-630 | Over every run of stores and removals in which each operation fits into some window of 536 numbers together with the packets alive just before it (a different window at each step), a lookup of a number that fits answers as a map from sequence number to packet does, number 0 excepted. |
| JitterRing.WiderWindowEvicts | examples/peer_connection/peer_connection_jitter_buffer.c:542-587 | The window cannot be wider: a packet 536 later across the wrap evicts the earlier one. |
| JitterReceive.LookupAfterRun | examples/peer_connection/peer_connection_jitter_buffer.c:589-630 | After every run of receive steps, frees and creations a lookup finds exactly the pushed packet that carries the number, wherever it is; an empty slot 0 answers for number 0. |
| JitterReceive.ReceivedIsFound | examples/peer_connection/peer_connection_jitter_buffer.c:589-630 | Right after a packet was accepted a lookup finds it as it came, unless its own pass released it. |
| JitterReceive.ReceiveEffect | examples/peer_connection/peer_connection_jitter_buffer.c:632-696 | An accepted packet is stored as it came or was released by its own pass; every other slot is unchanged or cleared. |
| JitterReceive.ReceiveDiscards | examples/peer_connection/peer_connection_jitter_buffer.c:632-696 | A refused packet leaves its slot empty, also of the packet that was there before, and changes nothing else. |
| JitterReceive.ReceiveAnswers | examples/peer_connection/peer_connection_jitter_buffer.c:632-696 | Exactly when a receive step answers that it lacks a codec or a payload, that the packet is outdated, that a callback failed, or success. |
| JitterReceive.CreateAnswers | examples/peer_connection/peer_connection_jitter_buffer.c:423-503 | What Create answers for which codec bits, and the buffer it leaves. |
| JitterReceive.ParseAnswers | examples/peer_connection/peer_connection_jitter_buffer.c:146-260 | A pass, closing or not, succeeds if and only if its last callback did or there was none. |
| JitterPolicy.AcceptsIff | examples/peer_connection/peer_connection_jitter_buffer.c:282-313 | The two branches of the acceptance test are the circular window of 500 on both sides of the newest number, for all 16-bit values. |
| JitterPolicy.ExpiredIff | examples/peer_connection/peer_connection_jitter_buffer.c:70-87 | Exactly which timestamps are expired, in terms of circular age: never one within the tolerance, and all older ones when the tolerance reaches back past zero. |
| JitterPolicy.AddedLiesInInterval | examples/peer_connection/peer_connection_jitter_buffer.c:320-362 | For all cursor values, a packet just added lies between the oldest and the newest number. |
| JitterPolicy.AddedMovesCursorsIff | examples/peer_connection/peer_connection_jitter_buffer.c:320-362 | The oldest number is the smallest; exactly when the newest number moves to the packet, back or forth. |
| JitterPolicy.AddedIsVisitedIff | examples/peer_connection/peer_connection_jitter_buffer.c:123-123 | The pass after the push visits the packet except in the listed cases, in which it scans nothing. |
| JitterReach.WrapIsNotVisited | examples/peer_connection/peer_connection_jitter_buffer.c:632-696 | A new buffer that receives 65535 and then 0 reaches that case, for all timestamps, payloads, codecs and callbacks: 0 is stored, its pass scans nothing and reports nothing. |
| JitterPolicy.NewestTimestampIff | examples/peer_connection/peer_connection_jitter_buffer.c:364-377 | When the newest timestamp changes: to a larger one always, and near the wrap also back to an earlier one. |
| JitterPolicy.LastPopIsMinimum | examples/peer_connection/peer_connection_jitter_buffer.c:379-393 | The timestamp cursor is a running minimum. |
| JitterBuffers.JitterBuffer.DiscardUpTo | examples/peer_connection/peer_connection_jitter_buffer.c:52-60 | The discarding loop terminates and visits exactly the numbers from start up to the bound, across the wrap. |
| JitterBuffers.JitterBuffer.DiscardPackets | examples/peer_connection/peer_connection_jitter_buffer.c:42-68 | Discards (end + 1 - start) modulo 65536 numbers, then reads the cursors from the next packet. |
| JitterBuffers.JitterBuffer.VisitPacket | examples/peer_connection/peer_connection_jitter_buffer.c:123-220 | One iteration in place is one step of the model. |
| JitterBuffers.JitterBuffer.ScanFrames | examples/peer_connection/peer_connection_jitter_buffer.c:121-220 | The scanning loop terminates and leaves the ring, the cursors and the reports the model says. |
| JitterBuffers.JitterBuffer.SweepUpTo | examples/peer_connection/peer_connection_jitter_buffer.c:223-262 | The same for the sweep of a closing pass. |
| JitterBuffers.JitterBuffer.ParseFrames | examples/peer_connection/peer_connection_jitter_buffer.c:89-267 | A whole pass in place is the model's pass: state, result and reports. |
| JitterBuffers.JitterBuffer.ShouldAccept | examples/peer_connection/peer_connection_jitter_buffer.c:282-313 | The branches of the acceptance test decide what AcceptsIff characterises. |
| JitterBuffers.JitterBuffer.AddPacket | examples/peer_connection/peer_connection_jitter_buffer.c:331-393 | The cursor updates, with the assignment to the newest number in the branch about the oldest. |
| JitterBuffers.JitterBuffer.AllocateBuffer | examples/peer_connection/peer_connection_jitter_buffer.c:542-587 | The slot gets a fresh block; an old one is freed; errors leave the state as it was. |
| JitterBuffers.JitterBuffer.Push | examples/peer_connection/peer_connection_jitter_buffer.c:632-696 | A push in place is the model's push in all four outcomes. |
| JitterBuffers.JitterBuffer.Receive | examples/peer_connection/peer_connection_srtp.c:636-659 | The receive step in place is the model's, so the laws over runs hold of the class. |
| JitterBuffers.JitterBuffer.GetPacket | examples/peer_connection/peer_connection_jitter_buffer.c:614-627 | A lookup reads the slot of the number and changes nothing. |
| JitterBuffers.JitterBuffer.Free | examples/peer_connection/peer_connection_jitter_buffer.c:525-539 | Free in place is the model's Free. |
| JitterBuffers.JitterBuffer.Create | examples/peer_connection/peer_connection_jitter_buffer.c:421-502 | Without a codec Create changes nothing; otherwise it sets the cursors and clears the ring without looking at it. |
| Crc32.CalculateCrc32 | examples/ice_controller/ice_controller.c:190-210 | The table loop computes the bit-by-bit reflected CRC-32 (polynomial 0xEDB88320) of every message from every initial value; a null buffer is an empty message. |
| Crc32Table.EntryIsZeroSteps | examples/ice_controller/ice_controller.c:48-71 | Each of the 256 table entries is its index after eight steps of the bit-wise register. |
| Crc32Reference.NextByte | examples/ice_controller/ice_controller.c:202-207 | For any such table, one lookup does what eight bit steps do. |
| Crc32Reference.Resumable | examples/ice_controller/ice_controller.c:190-210 | The CRC of a concatenation is the CRC of the second part started from that of the first. |
| Crc32Reference.BurstErrorDetected | examples/ice_controller/ice_controller.c:202-207 | Two messages of any length whose bits differ only inside a window of 32 bits, at any bit position and across byte boundaries, have different CRCs. |
| Crc32Reference.FourByteErrorDetected | examples/ice_controller/ice_controller.c:202-207 | Two messages of equal length that differ only inside four consecutive bytes have different CRCs. |
| Crc32Reference.ResidueOfMessageAndCrc | examples/ice_controller/ice_controller.c:190-211 | For every message and initial value: the CRC of the message followed by its own CRC, least significant byte first, is 0x2144DF1C. |
| Crc32Reference.LeadingZeroIsSeen | examples/ice_controller/ice_controller.c:190-211 | A zero byte in front of any message changes its CRC; the CRC of one zero byte is 0xD202EF8D. |
| DataChannels.Session.Append | examples/peer_connection/peer_connection_sctp.c:144-170 | A channel that is not on the list goes to its end, and the list stays linked, null-ended and free of repetition; one that is on it stays where it is and is counted again. |
| DataChannels.Session.Remove | examples/peer_connection/peer_connection_sctp.c:522-549 | Exactly that channel leaves the list; the rest keeps its order; the counter follows. |
| DataChannels.Session.GetDataChannelWithId | examples/peer_connection/peer_connection_sctp.c:330-346 | Finds the first channel on the list with the id, or null when there is none. |
| DataChannels.Pool.Allocate | examples/peer_connection/peer_connection_sctp.c:48-72 | Succeeds exactly when fewer than four channels are in use, and takes one that was not. |
| DataChannels.Pool.CreateDataChannel | examples/peer_connection/peer_connection_sctp.c:100-183 | The heap invariant holds afterwards in every branch; the first free channel is taken and joins the end of the list, or is lost when the session is at its limit; every channel in use stays on a list if and only if the session was below its limit or the pool was full; all other channels keep id and owner. |
| DataChannels.Pool.OnDataChannelOpen | examples/peer_connection/peer_connection_sctp.c:434-505 | A remote open puts the first free channel with its id at the end of the list, or changes nothing; all other channels keep id and owner. |
| DataChannels.Pool.CloseDataChannel | examples/peer_connection/peer_connection_sctp.c:508-554 | The new list, set of channels and counter; the invariant holds afterwards if and only if the channel was in use, the association refused, or the counter was zero. |
| DataChannels.Pool.Teardown | examples/peer_connection/peer_connection.c:2150-2172 | Closing a session gives back exactly its channels, empties its list and keeps the invariant and all other lists. |
| DataChannels.Pool.DeallocateList | examples/peer_connection/peer_connection_sctp.c:558-569 | The walk over a list whose channels are being given back terminates and counts each once. |
| DataChannels.Pool.CountersAgree | examples/peer_connection/peer_connection_sctp.c:26-27 | The pool counter is the sum of the session counters and the lost channels, and at most four. |
| DataChannels.Pool.Run | examples/peer_connection/peer_connection_sctp.c:48-579 | Over any sequence of creates, remote opens, closes and teardowns: the heap invariant holds throughout if and only if every close is for a channel in use, is refused, or comes when no channel is in use, and the first other close is what breaks it. While it holds, the channels in use and their owners are those of the map model, the lost channels are exactly the creates refused with a free channel and are never recovered, and every channel in use is on exactly one list if and only if no create came to a session at its limit. |
| DataChannels.InLimitIff | examples/peer_connection/peer_connection_sctp.c:117-179 | A run loses no channel if and only if every create of it is within the limit of its session or finds the pool full. |
| DataChannels.ThirdCreateIsLost | examples/peer_connection/peer_connection_sctp.c:117-179 | Three creates of one session on a new pool lose one channel. |
| DataChannels.ClosedTwiceIsHarmful | examples/peer_connection/peer_connection_sctp.c:508-554 | Two creates and two closes of the first channel on a new pool: the second close is the first call that breaks the invariant. |
| StreamIds.IdsHaveParity | examples/libusrsctp/sctp_utils.c:531-540 | Every id of an association has the parity of its role, past the 16-bit wrap and past failed sends. |
| StreamIds.OpenUsesIdIff | examples/libusrsctp/sctp_utils.c:676-707 | An open uses up an id if and only if its message is built, whether it is sent or not. |
| StreamIds.IdIsReusedIff | examples/libusrsctp/sctp_utils.c:676-707 | Two opens get the same id if and only if the number of ids used up between them is a multiple of 32768. |
| StreamIds.IdsAreDistinct | examples/libusrsctp/sctp_utils.c:676-707 | The ids of the first 32768 opens of an association are distinct. |
| StreamIds.RolesNeverCollide | examples/libusrsctp/sctp_utils.c:531-540 | Endpoints of opposite DTLS roles never choose the same id. |
| StreamIds.Association.OpenDataChannel | examples/libusrsctp/sctp_utils.c:640-707 | An id is used up once the message is built, even when sending it fails. |
| StreamIds.Association.OpenAll | examples/peer_connection/peer_connection_sctp.c:267-309 | Opening the waiting channels tries every one and reports whether all succeeded. |
| SessionModel.RoundsAreAccounted | examples/peer_connection/peer_connection.c:934-1033 | Over every sequence of calls that do not overlap: closed rounds never exceed ready rounds, those never exceed handshake completions, and those never exceed calls of DTLS_Init. |
| SessionModel.CompletesOncePerInit | examples/network_transport/transport_dtls_mbedtls.c:1275-1420 | For calls that do not overlap: between two calls of DTLS_Init the completion is reported at most once by DTLS_ProcessPacket and DTLS_ExecuteHandshake together, and not at all once it was. |
| SessionModel.OverwrittenReadyIsNeverClosed | examples/peer_connection/peer_connection.c:739-748 | When the handshake completes inside the found callback, the ready round is out and the next close sends no closed round. |
| SessionModel.OverwrittenReadyIsReached | examples/peer_connection/peer_connection.c:739-748 | A new session that is started, described, found and closed gets there. |
| SessionModel.StartsIff | examples/app_common/app_common.c:330-387 | A start goes through if and only if nothing outside fails and the session has no transceiver left over; then it has one of each kind. |
| SessionModel.ClosedIsReusable | examples/peer_connection/peer_connection.c:297-313 | After any run that ends with the session closed, a start goes through if and only if nothing outside fails, and gives one transceiver of each kind. |
| SessionModel.RoundsOfEvent | examples/peer_connection/peer_connection.c:934-1074 | Exactly which events report a completion, send a ready round and send a closed round, for every session, and the callbacks sent. |
| SessionModel.StateOfEvent | examples/peer_connection/peer_connection.c:315-382 | The state every event leaves. |
| SessionModel.ContextOfEvent | examples/peer_connection/peer_connection.c:776-838 | The state of the DTLS context every event leaves, and the calls of DTLS_Init. |
| SessionModel.TransceiversOfEvent | examples/app_common/app_common.c:330-387 | The transceivers every event leaves. |
| SessionTasks.InterleavingBalances | examples/peer_connection/peer_connection.c:934-1033 | Over every interleaving of any number of tasks inside the calls of one session: completions, inits, ready and closed rounds balance with what was committed twice or given up, so a ready round always has a completion of its own, and the other two laws of RoundsAreAccounted hold if and only if double commits do not outnumber what was given up. |
| SessionTasks.FreshBalances | examples/peer_connection/peer_connection.c:1631-1631 | A new session balances, whatever tasks there are, so the balance holds over all its interleavings. |
| SessionTasks.SecondCommitIff | examples/network_transport/transport_dtls_mbedtls.c:1350-1415 | Over every interleaving without DTLS_Init, a second completion is reported if and only if a completion falls between the test and the commit of another task; over every one in which the session does not become ready, a second closed round is sent if and only if one falls between the read and the write of another close. |
| SessionTasks.OvertakenIff | examples/peer_connection/peer_connection.c:2121-2129 | What a task tested is gone when it commits if and only if some action since took it away and none brought it back. |
| SessionTasks.LedgerCounts | examples/peer_connection/peer_connection.c:2121-2129 | The commits the balance counts as doubled or late are exactly those whose test is gone. |
| SessionTasks.WholeCallIsStep | examples/peer_connection/peer_connection.c:840-886 | A call that no other task interrupts is one step of the model of the session, for every call, and commits nothing twice. |
| SessionTasks.SeparateCallsAreARun | examples/peer_connection/peer_connection.c:315-382 | Calls of any tasks that do not overlap are a run of the model of the session. |
| SessionTasks.CompletedTwice | examples/network_transport/transport_dtls_mbedtls.c:1382-1414 | A run of a new session with its two tasks: one DTLS_Init, two completions, two ready rounds. |
| SessionTasks.ClosedTwice | examples/peer_connection/peer_connection.c:2121-2129 | A run of a new session with its two tasks: one ready round, two closed rounds. |
| Lifecycle.StepKeepsIff | examples/peer_connection/peer_connection.c:315-382 | A step of a session keeps its part of the system invariant if and only if it is harmless, a condition on the state before the step. |
| Lifecycle.FoundKeepsIff | examples/peer_connection/peer_connection.c:739-748 | For the found callback: if and only if the session has both transceivers and is not ready when the handshake call returns. |
| Lifecycle.ActionKeepsIff | examples/app_media_source/app_media_source.c:211-294 | The system invariant (ready counters, total, port) is kept by an action of any session, or a callback reaching the media source, if and only if it is harmless. |
| Lifecycle.DeliverKeeps | examples/app_media_source/app_media_source.c:224-280 | A callback that reaches the media source keeps the invariant: neither guard of the counters stops it. |
| MediaSources.CallbacksKeepConsistent | examples/app_media_source/app_media_source.c:211-294 | Under any callbacks in any order the total is the sum of the tracks, the port runs if and only if it is not zero, and no track exceeds the number of viewers. |
| Lifecycle.RunKeepsInvariantIff | examples/peer_connection/peer_connection.c:315-382 | Over all interleavings of any number of sessions the system invariant holds at every point of a run if and only if every step is harmless. |
| Lifecycle.DisciplinedRunIsHarmless | examples/peer_connection/peer_connection.c:2120-2143 | When the sessions are driven in the intended order (remote description after start, found only while looking, completion only afterwards and outside the found callback) every step is harmless. |
| Lifecycle.MediaAgreesWithSessions | examples/app_media_source/app_media_source.c:211-294 | When no callback is on its way, each track counts exactly the ready sessions, the total is their sum, and the port runs if and only if some session is ready. |
| PeerSessions.PeerSession.CloseSession | examples/peer_connection/peer_connection.c:2120-2143 | In place: a ready session tells every transceiver, any other none. |
| PeerSessions.PeerSession.ExecuteHandshake | examples/peer_connection/peer_connection.c:840-886 | In place: the handshake call, the round of callbacks it may cause, and the timeout. |
| PeerSessions.PeerSession.ProcessPacket | examples/peer_connection/peer_connection.c:1035-1074 | In place: a DTLS packet completes the handshake, passes, or closes the session. |
| PeerSessions.PeerSession.OnConnectionFound | examples/peer_connection/peer_connection.c:739-748 | In place: the state is set after the handshake call. |
| PeerSessions.PeerSession.SetRemoteDescription | examples/peer_connection/peer_connection.c:1826-1925 | In place: how far each outcome gets, for the session and its DTLS context. |
| PeerSessions.PeerSession.StartSession | examples/app_common/app_common.c:330-387 | In place: the transceivers are added one by one; what a failed start added stays. |
| PeerSessions.PeerSession.HandleAll | examples/peer_connection/peer_connection.c:315-382 | The life of a session in place: any sequence of events ends in the state of the model, with the rounds of callbacks accounted for. |
| MediaSources.MediaSource.OnRemotePeerReady | examples/app_media_source/app_media_source.c:221-243 | In place: the guarded increment and the start of the port; the counters stay consistent whatever callback comes. |
| MediaSources.MediaSource.OnRemotePeerClosed | examples/app_media_source/app_media_source.c:265-284 | In place: the guarded decrement and the stop of the port; the counters stay consistent whatever callback comes. |
| SessionTables.RoutingIsSticky | examples/app_common/app_common.c:1718-1771 | Over every run in which its session does not come back to the inited state, every lookup of a client is routed to that same session. |
| SessionTables.BindingHolds | examples/app_common/app_common.c:1718-1771 | Over such a run the session is never given to another client. |
| SessionTables.ClientsStayDistinct | examples/app_common/app_common.c:377-389 | Over all runs of lookups, failed starts and state changes, no two sessions are bound to the same non-empty client id. |
| SessionTables.DistinctIds | examples/app_common/app_common.c:1728-1732 | After every run a bound client id without zero characters differs from the ids of all other sessions. |
| SessionTables.DisplacedIff | examples/app_common/app_common.c:1745-1768 | A lookup changes the client of a session if and only if the session is inited, the lookup comes to it with another id, and the start goes through. |
| SessionTables.AnswerIff | examples/app_common/app_common.c:1718-1771 | Exactly which session a lookup answers with: the first one bound to the client, or else the first inited one; and when there is none. |
| SessionTables.AnswerIsInUse | examples/app_common/app_common.c:1745-1768 | The session a lookup answers with is bound to the client and in use afterwards; no other session changes; without an answer nothing changes. |
| SessionTables.NewClientGetsFreeSession | examples/app_common/app_common.c:1726-1743 | A client bound to no session is never given one another client uses. |
| SessionTables.StickyFromLookup | examples/app_common/app_common.c:1718-1771 | From a lookup that answers on, and until that session is back in the inited state, every lookup of the client goes to it. |
| SessionTables.MatchesIsEquality | examples/app_common/app_common.c:1728-1732 | For ids without zero characters the comparison of the loop is equality. |
| SessionTables.FirstMatchIff | examples/app_common/app_common.c:1726-1736 | The routed session is the first one bound to the client. |
| SessionTables.SessionTable.GetPeerConnectionSession | examples/app_common/app_common.c:1718-1771 | The loop and the start in place give the table and the answer of the model. |
| Nomination.NominationIsSafe | examples/ice_controller/ice_controller_socket_listener.c:181-292 | Under any packets and any restarts: since the last start the connection was decided to be found once if a context is nominated and not otherwise; the announcements add up to that decision and the one on its way at the start; the nominated context has a pair; a packet is handed up while its context is nominated if and only if no restart fell in between. |
| Nomination.AnnouncedTwiceIff | examples/ice_controller/ice_controller_socket_listener.c:239-282 | Two found events come in one epoch if and only if one was on its way at the start, a context has been nominated since, and none is still to come; never three. |
| Nomination.AnnouncedTwice | examples/ice_controller/ice_controller_socket_listener.c:239-282 | A run of eight steps with one restart that announces twice. |
| Nomination.EpochIsSafe | examples/ice_controller/ice_controller_socket_listener.c:403-465 | After a start that found the listener idle, whatever happened before, and up to the next start: the found event fires at most once and only packets of the nominated context are handed up. |
| Nomination.NonStunGate | examples/ice_controller/ice_controller_socket_listener.c:403-433 | A media packet is handed up if and only if its context is nominated and no code was left behind, or its context can be nominated now. |
| Nomination.StunGate | examples/ice_controller/ice_controller_socket_listener.c:434-465 | What a STUN packet does to the nomination and to the variables of the loop. |
| Nomination.HostNominatesIff | examples/ice_controller/ice_controller_socket_listener.c:199-231 | A packet of a host or server-reflexive context that asks for it nominates the context if and only if no pair is left over and the lookup finds one, and with that pair; else nothing changes but the code. |
| Nomination.RelayNominatesIff | examples/ice_controller/ice_controller_socket_listener.c:199-240 | A packet of a relay or peer-reflexive context that asks for it nominates the context if and only if the TURN header or the loop variable gives a pair, and with that pair; else nothing changes but the code. |
| Nomination.CallComposes | examples/ice_controller/ice_controller_socket_listener.c:315-466 | The packets of one call are handled one by one as long as none closes the connection. |
| Nomination.CloseEndsCall | examples/ice_controller/ice_controller_socket_listener.c:456-460 | What follows a packet that closes the connection is not read. |
| Nomination.NominatingPacketShutsGate | examples/ice_controller/ice_controller_socket_listener.c:437-451 | The code of the STUN packet that nominated a context suppresses the media packet behind it in the same call, and no longer in the next. |
| Nomination.IceController.UpdateNominated | examples/ice_controller/ice_controller_socket_listener.c:199-290 | In place: which pair is nominated or which error returned, and when the event fires. |
| Nomination.IceController.HandleRxPackets | examples/ice_controller/ice_controller_socket_listener.c:315-466 | The receive loop over any packets is the run of the model without restarts. |
| Nomination.IceController.Start | examples/ice_controller/ice_controller.c:1519-1533 | A start forgets the nominated context. |
| Candidates.RoundTrip | examples/ice_controller/ice_controller.c:1254-1433 | For every index, 32-bit priority, IPv4 address, port and known type, parsing the printed line succeeds and gives UDP and the same values, whatever the structure held before. |
| Candidates.LineFits | examples/app_common/app_common.c:1279-1376 | Neither the line nor its JSON wrapper reaches the 512 bytes of the buffer. |
| Candidates.AcceptedIff | examples/ice_controller/ice_controller.c:1297-1430 | The parser accepts exactly the lines of eight tokens or more whose six fields are good, and reports any defect before the type as a lack of elements. |
| Candidates.StoredUpToDefect | examples/ice_controller/ice_controller.c:1297-1430 | A defect leaves in the structure what the tokens before it stored there; what comes behind is not looked at. |
| Candidates.AgreesIsPrefix | examples/ice_controller/ice_controller.c:1318-1330 | The comparison of a token with a name holds for every prefix of the name. |
| Candidates.PrefixesAreAccepted | examples/ice_controller/ice_controller.c:1318-1412 | A line whose protocol is any prefix of udp and whose type is any prefix of relay is accepted, for all addresses, ports and priorities; an empty protocol is read as TCP and an empty type as host. |
| Candidates.ProtocolIff | examples/ice_controller/ice_controller.c:1318-1345 | Exactly which names are read as TCP and which as UDP: the prefixes of tcp and TCP, then those of udp and UDP. |
| Candidates.TypeIff | examples/ice_controller/ice_controller.c:1388-1420 | Exactly which names are read as which type. |
| Candidates.AddressIff | examples/ice_controller/ice_controller_net.c:1012-1046 | An address text is too long exactly from 40 characters on; it is read up to its first zero character, as IPv4 first. |
| Candidates.AddressRoundTrip | examples/ice_controller/ice_controller_net.c:1012-1046 | The printed dotted quad is read back as the same four bytes. |
| Candidates.LineTokens | examples/app_common/app_common.c:63-63 | The template yields the eight tokens the parser expects, in order. |
| Candidates.DeserializeIceCandidate | examples/ice_controller/ice_controller.c:1296-1430 | The parsing loop in place is the parser of the model: error and stored fields. |
| Decimal.ReadIsValue | examples/string_utils/string_utils.c:19-56 | A string of digits of any length is read as its value modulo 2^32. |
| Decimal.ReadIff | examples/string_utils/string_utils.c:19-56 | What follows the digits is ignored; a string that begins with something else is no number, unless it is empty or begins with a zero character. |
| Decimal.ReadPrint | examples/string_utils/string_utils.c:19-56 | Reading a printed 32-bit number gives it back. |
| Decimal.ConvertStringToUl | examples/string_utils/string_utils.c:19-56 | The conversion loop in place. |
| FrameQueues.FramesAreAccounted | examples/app_media_source/app_media_source.c:455-501 | At every point of every run of whole offers and sends the offered frames are, in order, the delivered and dropped ones followed by the at most ten queued ones; delivered and dropped frames are ordered subsequences; the freed blocks are those of the frames that left. |
| FrameQueues.FreedExactlyOnce | examples/app_media_source/app_media_source.c:71-98 | Each owned frame is freed exactly once when it has left the queue, and not before. |
| FrameQueues.DropsOnlyWhenFull | examples/app_media_source/app_media_source.c:471-486 | In such a run a frame is dropped exactly when one is offered to a full queue, and it is the oldest. |
| FrameTurns.TurnsAreAccounted | examples/app_media_source/app_media_source.c:455-501 | Over every interleaving of the three steps of the producer and the sending task: the frames that entered are the delivered and dropped ones, in order, followed by the at most ten queued ones; only the frame in hand has not entered; no frame is refused; each block is freed when its frame has left. |
| FrameTurns.DropsBehindTheTest | examples/app_media_source/app_media_source.c:471-486 | When n frames are taken between the full test and the receive, the producer drops the n-th frame out of a queue of 10 - n; it waits if and only if all ten were taken. |
| FrameTurns.WaitsForever | examples/message_queue/message_queue.c:118-126 | A producer that waits waits for ever: no later offer or send changes anything. |
| FrameTurns.WaitingIsReached | examples/app_media_source/app_media_source.c:455-501 | Eleven offers and ten sends of an empty queue get there. |
| FrameTurns.CallIsOffer | examples/app_media_source/app_media_source.c:455-501 | A call of the producer that nothing interrupts is one offer of the queue. |
| FrameQueues.FrameQueue.OnFrameReadyToSend | examples/app_media_source/app_media_source.c:455-501 | The producer in place: every frame offered so far stays accounted for as delivered, dropped or queued. |
| FrameQueues.FrameQueue.SendNext | examples/app_media_source/app_media_source.c:71-98 | One turn of the sending loop in place, with the same invariant. |

## Left out

- Checks for NULL arguments, logging, metrics and receive ticks.
- Failing memory allocation, failing mutexes and failing message queues.
- The log line that prints the first bytes of a refused packet.
- The codec helpers and FillFrame: any function from slots to properties stands for a codec.
- The fractional part of a tenth of the clock rate in the timestamp threshold: the model divides integers.
- The address of a packet structure: Push names its slot by index.
- JitterPass.PassIsFrameByFrame: a pass over an interval in which two numbers share a slot is not told frame by frame; what it may report is stated without that by ReadyFramesAreComplete, DropsAreExpired and ReportsAreSoundIff.
- Data channel names, message callbacks and channel settings.
- DataChannels.Pool.Run: a run ends at the call that breaks the invariant, and a channel that names no session is not closed, where the program would follow a null pointer.
- StreamIds.Association.OpenDataChannel: the fields copied into the channel besides its id are not modelled.
- PeerSessions.PeerSession.HandleAll: the class runs one call after the other; SessionTasks has the calls that overlap. Inside mbedTLS, while a round of callbacks is sent, and while transceivers are added, no other task is modelled.
- The retry loops around mbedTLS calls: one answer stands for the last call of a loop.
- Certificates, keys, SRTP and SCTP set-up after the handshake: one flag tells whether they succeed.
- Lifecycle.RunKeepsInvariantIff: the calls of one session do not overlap, those of different sessions do in any order; the callbacks of one session reach the media source in the order they were called; two rounds of one session do not overtake each other, and the media port starts when asked.
- Message queues and timers of a session: any request may be handled at any time.
- Nomination.NominationIsSafe: there is one listener thread per controller, as in the program; TURN and STUN contents are answers of the ICE library.
- The buffer a TURN payload is read into, and IPv6 candidates: inet_pton for IPv6 is an arbitrary function.
- JSON extraction of a candidate: the parser starts at the candidate line, as it does for candidates in an SDP.
- FrameQueues.FrameQueue.OnFrameReadyToSend: the class runs the producer without interruption; FrameTurns splits it.
- FrameTurns.TurnsAreAccounted: the sending task takes, delivers and frees a frame in one step.
- The rolling buffer, the message queue, bandwidth estimation, the DTLS timer port, Wi-Fi, DNS and signaling.
