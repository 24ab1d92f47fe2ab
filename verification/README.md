# Session-proxy: the stream protocol and the connection pool

The proxy tunnels TCP connections through SSH connections that themselves run inside
AWS SSM data channels. Two parts of it carry the guarantees everything else relies on, and
both are modelled here:

* **A reliable byte stream over a lossy message channel** (`internal/protocol`). `Write`
  numbers chunks, keeps each one in a bounded window until it is acknowledged and
  retransmits only the oldest; the receiving end acknowledges everything, buffers what is
  early and appends payloads in order. A dropped WebSocket is replaced by a resume that
  keeps numbers, window and buffer.
* **A pool of SSH connections shared by concurrent dials** (`internal/upstream`). Slots are
  reserved with atomic counters, an SSH dial that cannot be cancelled is handed over
  between two goroutines, dialers wait on a channel for capacity, and two independent
  growers add connections.

Code that changes fields in place is a class with those fields (`Adapter.Adapter`,
`Selection.Selector`, `Keepalive.Loop`, `PoolGrowth.Group`) and loops are loops. Window and
receiver operations are proved equal to functions on values, `Write` and `SendChunk` to the
outcome, frames, numbers and window they leave, the counters of `Group` to steps of the
growth model. The theorems are about those functions and models, and say in their own terms
what those compute: bytes by their place in the frame, connections by their load, grants by
what is missing.
Concurrent behaviour is a total function `Next(state, step)` whose steps are the atomic
operations, lock sections and channel hand-overs of the source; a theorem about every
run is a lemma about `Run(Init, steps)` for every sequence of steps, where a step that is
not possible changes nothing.

| module | what it holds |
|---|---|
| `Bytes`, `Message` | big-endian fields, the binary frame, its two methods, round trips |
| `Reorder` | the receiving rule and what makes it independent of arrival order |
| `Segmentation` | cutting into chunks; chunks through the codec and back in any order |
| `Window` | the unacknowledged window as a value, its accounting over every run |
| `Turns` | a writer's wake-ups and turns: when the window lets a frame in, how a `Write` ends |
| `Adapter` | the class: `Write`, acknowledgements, resend turn, resume marking, receive side |
| `Channel`, `EndToEnd` | writer, resend loop, network and receiver as one system; safety, completeness |
| `Sending`, `Failures`, `Stalls` | runs of a whole `Write`; when the chunk of a failed one gets through; runs that end with the reader short of bytes |
| `Budget`, `Recovery`, `ResendEnd` | how often frames are repeated; draining after a resume; the end of the resend loop |
| `Publication` | what a pause holds back |
| `ReconnectGate`, `ResumeBudget`, `Retry` | the reconnect flag and its gate; backoff against a deadline |
| `DialHandoff`, `CapacityWait`, `Selection` | slots and hand-over; waiting for capacity; picking a connection |
| `PoolGrowth`, `Keepalive` | scale-up against replenishing; when a connection is rescued or closed |
| `Common`, `Sets`, `Division` | optional values and durations, finite sets of integers, quotients |

## What the code does not promise

Where a natural claim is false of the code, the model keeps the code and says exactly
what holds instead.

* A data message buffered before the handshake completes can stay undelivered for ever: the
  handshake moves the expected number without draining the buffer. That happens exactly when
  the successor of the handshake message is already buffered (`Reorder.StuckAfterHandshake`,
  `Reorder.StuckHappens`); otherwise everything later is delivered as it should be
  (`Reorder.HandshakeDelivers`).
* A message is acknowledged before it is processed, so the window can be empty while the
  reader is short of exactly that message and what follows it
  (`Stalls.AcknowledgedTooEarly`, `EndToEnd.HeldBackExactly`).
* A `Write` that fails has used up its number. Its chunk can still get through exactly when a
  copy has reached the receiver, is on the wire, or is with a resend loop that can still send
  it (`Failures.FailedArrivesExactly`); otherwise the stream stops before that chunk for good
  (`EndToEnd.LostBlocks`), even when every frame sent has been acknowledged
  (`Stalls.FailedWriteStalls`).
* Pausing does not stop a chunk that has passed the gate, nor a resend turn that has passed
  its check: one frame each may still go out (`Publication.PausedSendsBounded`), two in all
  (`Publication.TwoFramesDuringPause`), under exactly the condition of
  `Publication.SendsExactly`.
* A resume makes the oldest frame due at once only while the timeout is under 201 ms
  (`Window.ResumeIsImmediate`).
* Comments in `resendLoop` and `handleDataMessage` call an error of `writeRaw` permanent.
  It can also be a write deadline that passed during a reconnect; the resend loop then ends
  while the adapter stays open (`ResendEnd.LoopEnds`), and a tracked frame is ever sent again
  exactly when the loop is alive and the adapter open, or the loop has just that frame with
  the transport (`ResendEnd.SentAgainExactly`).
* A report on the live transport is swallowed, and the adapter stays open on a dead
  transport with no loop, exactly when a loop past its swap still holds the flag
  (`ReconnectGate.AttendedExactly`, `ReconnectGate.ReportSwallowed`). A loop can start, and a
  transport be swapped in, after `Close` (`ReconnectGate.StartsAfterClose`,
  `ReconnectGate.SwapsAfterClose`, `ReconnectGate.LateStartAndSwapHappen`). The branch of the
  deferred clear for a gate that is already closed is dead (`ReconnectGate.GateDiscipline`).
* `dial` gives the inflight slot back before it counts the channel as active, so a
  connection limited to four can carry any number of live channels
  (`DialHandoff.AnyNumberLive`); the excess is at most the number of transfers half done at
  the newest admission (`DialHandoff.SlotBound`), and
  the check admits one too many exactly as `DialHandoff.OverAdmitsExactly` says.
* The pool has a hard cap of 12 connections and can reach 16 without any wake-up reset
  (`PoolGrowth.SixteenHappens`) and two more for each reset: the bound of
  `PoolGrowth.GrowthBounded` is attained for every number of resets
  (`PoolGrowth.BoundAttained`). It can reach 14 even when counting and reserving are one step
  (`PoolGrowth.FourteenHappens`); `PoolGrowth.CapPassedExactly` says which steps pass the cap.
* Connections of equal load do not always take turns within one round: the counter wraps at
  2^64, and one of them can be passed over there (`Selection.WrapMisses`). Two rounds always do
  (`Selection.EveryBestHasItsTurn`).
* `UnmarshalMessage` compares lengths modulo 2^32: round trips hold exactly below that
  size (`Message.RoundTrip`), and its slice expression is out of range exactly where
  `Message.OutOfRangeExactly` says, which a frame of 120 bytes reaches
  (`Message.OutOfRangeHappens`).

## Model

| member | source | states |
|---|---|---|
| Message.MarshalBinary | internal/protocol/message.go:191-264 | the bytes appended field by field are Encode of the message, whose bytes Message.Layout fixes one by one |
| Message.FillType | internal/protocol/message.go:199-207 | filling with spaces and copying gives the type truncated to 32 bytes and space-padded |
| Message.UnmarshalMessage | internal/protocol/message.go:266-347 | reading field by field gives Decode of the frame, whose outcome Message.DecodesExactly and whose fields Message.ReadLayout fix |
| Message.Layout | internal/protocol/message.go:191-264 | every byte of a frame: each field at its own offset, numbers most significant byte first, the sequence number in two's complement, the type space-padded, the second half of the id before the first, digest, 32-bit payload length and payload |
| Message.InputLayout | internal/protocol/message.go:84-101 | the constant bytes of a stream chunk's frame: 0 0 0 116, input_stream_data and spaces, schema version 1, flags 0, payload type 1 |
| Message.ReadLayout | internal/protocol/message.go:266-333 | each header field read is the sum of its own bytes by the weight of their places; id halves, digest and trimmed type likewise by offset |
| Message.DecodesExactly | internal/protocol/message.go:266-347 | which frames are too short, incomplete or decoded, and the payload slice, in 32-bit arithmetic on the header's two lengths |
| Message.TrimRight | internal/protocol/message.go:283 | the longest prefix that does not end in NUL or space, and nothing but those is cut off |
| Message.RoundTrip | internal/protocol/message.go:191-347 | a frame with the standard HeaderLength decodes to its message, digest and length recomputed, if and only if the frame is shorter than 2^32 bytes |
| Message.RoundTripIdentity | internal/protocol/message.go:199-283 | the round trip is the identity exactly for types of at most 32 bytes not ending in NUL or space |
| Message.Reencode | internal/protocol/message.go:266-347 | encoding a decoded frame gives the same bytes exactly when padding, digest and length are canonical |
| Message.NulPaddingNormalises | internal/protocol/message.go:278-283 | however the type field is padded, the frame decodes as its space-padded form does |
| Message.OutOfRangeExactly | internal/protocol/message.go:335-341 | the slice bounds of the payload cross exactly when the 32-bit end wraps below its offset and still lies inside the frame |
| Message.OutOfRangeHappens | internal/protocol/message.go:335-341 | a frame of 120 bytes for which they do |
| Message.HeaderRoundTrip | internal/protocol/message.go:191-333 | every header field comes back from its own bytes, the two halves of the id changed over twice |
| Bytes.GetPut | internal/protocol/message.go:195-255 | a number that fits a fixed width, written and read again, comes back |
| Bytes.PutGet | internal/protocol/message.go:270-333 | bytes read as a number and written again are the same bytes |
| Bytes.PutBytes | internal/protocol/message.go:195-255 | byte i of a number written in w bytes is the number divided by 256 to the w - 1 - i, modulo 256 |
| Bytes.GetWeighted | internal/protocol/message.go:270-333 | the number read is the sum of the bytes by weight, the first weighing most |
| Reorder.Characterised | internal/protocol/adapter.go:1270-1336 | after any arrivals the expected number is the least not yet arrived, the buffer is what arrived above it and the stream is the payloads below it |
| Reorder.Confluence | internal/protocol/adapter.go:1270-1336 | two arrival sequences with the same messages lead to the same receiver, whatever their order and repeats |
| Reorder.DescriptionUnique | internal/protocol/adapter.go:1270-1317 | the description by what has arrived leaves one receiver only |
| Reorder.HandleDescribes | internal/protocol/adapter.go:1284-1303 | one arrival, early, late, repeated or expected, keeps the description |
| Reorder.DrainDescribes | internal/protocol/adapter.go:1305-1317 | draining restores the description when the expected number was in the buffer |
| Reorder.HandleGrows | internal/protocol/adapter.go:1270-1336 | bytes once delivered stay delivered |
| Reorder.StuckAfterHandshake | internal/protocol/adapter.go:713-718 | after a handshake step onto a buffered number the receiver moves again exactly when that number arrives a second time |
| Reorder.StuckHappens | internal/protocol/adapter.go:713-718 | from the start one early message and the handshake step before it are enough: its bytes are never delivered unless it arrives again |
| Reorder.HandshakeDelivers | internal/protocol/adapter.go:713-718 | with the successor not yet buffered, whatever arrives later the stream goes on with exactly the unbroken run from it, over buffered and arrived messages, and stale numbers stay in the buffer |
| Reorder.HandleSettles | internal/protocol/adapter.go:1284-1303 | a data message never leaves the receiver on a number it holds |
| Reorder.DescribedOn | internal/protocol/adapter.go:1270-1336 | from any described receiver, whatever arrives, the receiver is described by what it has got |
| Reorder.OtherKindsIgnored | internal/protocol/adapter.go:1324-1337 | in every run the payloads of messages of any other kind than Output, buffered or arriving, make no difference to stream or expected number |
| Segmentation.SegmentsCover | internal/protocol/adapter.go:906-943 | the chunks joined are the bytes, each is non-empty, and all but the last have exactly the chunk size |
| Segmentation.SegmentCount | internal/protocol/adapter.go:911-914 | there are ceil(length / chunk size) chunks |
| Segmentation.InputRoundTrip | internal/protocol/message.go:84-101 | the frame of a chunk decodes to an Output message with that chunk and number, whatever its id and date |
| Segmentation.FramesDecode | internal/protocol/adapter.go:921-930 | every frame of a Write decodes to its own chunk under its own number |
| Segmentation.Delivered | internal/protocol/adapter.go:1284-1317 | whatever subset of chunks has arrived the stream is whole leading chunks, and all of them exactly when none is missing |
| Segmentation.Reassembly | internal/protocol/adapter.go:894-946 | the frames of Write(b), decoded and received in any order with repeats, give a prefix of b, and b exactly when each has come |
| Window.AddKeeps | internal/protocol/adapter.go:476-492 | tracking a fresh number keeps the byte count exact and within the limit; a reused number breaks it exactly when it replaces a non-empty frame |
| Window.RemoveKeeps | internal/protocol/adapter.go:410-436 | removing a tracked frame keeps byte count and oldest number exact |
| Window.AckKeeps | internal/protocol/adapter.go:382-442 | acknowledging and dropping remove the same frame, only under its own id, and keep the accounts |
| Window.AckTimeout | internal/protocol/adapter.go:397-408 | an acknowledgement under the right id brings the timeout as near to twice the round trip as 200 ms and 1 s allow; any other, or one with no time passed, leaves it |
| Window.TickKeeps | internal/protocol/adapter.go:556-605 | a resend turn keeps the accounts, and its branch for a missing oldest entry is dead |
| Window.TickExactly | internal/protocol/adapter.go:556-610 | a turn resends the oldest frame exactly when it is due, by the timeout at first and by one second once resent, gives up after sixty resends, counts and stamps that entry and changes nothing else |
| Window.MarkedKeeps | internal/protocol/adapter_resume.go:325-337 | the marking of a resume keeps the accounts |
| Window.ResumeIsImmediate | internal/protocol/adapter_resume.go:329-333 | right after a resume the oldest frame is resent at once exactly when the timeout is under 201 ms |
| Window.Conservation | internal/protocol/adapter.go:382-525 | over every run of adds, acks, drops, resends and resumes: bytes added = acknowledged + dropped + outstanding, count exact, oldest number least, limit kept, timeout between 200 ms and 1 s |
| Adapter.ScanOldest | internal/protocol/adapter.go:414-436 | the scan of 1024 numbers with its fallback finds the least tracked number, whatever the gap |
| Adapter.LeastKey | internal/protocol/adapter.go:510-520 | the full search finds the least tracked number |
| Adapter.Adapter.AckOutgoing | internal/protocol/adapter.go:382-442 | the new window is Ack of the old one: entry, byte count, oldest number and timeout |
| Adapter.Adapter.DropOutgoing | internal/protocol/adapter.go:495-525 | the new window is Drop of the old one, whose oldest number is the one Ack's scan finds |
| Adapter.Adapter.AddOutgoing | internal/protocol/adapter.go:444-493 | sleeps exactly while the window is full and Close has not run; tracks the frame exactly when some wake-up leaves room before Close, and otherwise reports close or time-out with only acknowledgements applied |
| Adapter.Adapter.SendChunk | internal/protocol/adapter.go:920-939 | takes one number; fails to track exactly when the window never lets the frame in, fails to send exactly when it is tracked and no write gets through, and else succeeds; when sent the wire has grown by its frame, after the copies its broken writes leaked, and it is tracked, or acknowledged under its own id while in writeRaw; when not, only leaked copies are out and it is not tracked; other frames leave only by acknowledgement |
| Adapter.Adapter.Write | internal/protocol/adapter.go:894-946 | the outcome exactly: the leading chunks that pass the gate, get into the window as the earlier ones left it and are written, and the reason why the next one does not; n counts their bytes, the wire has grown by exactly their frames and the copies leaked by broken writes, numbers are consecutive, a failed chunk has used one more, and every frame sent is tracked or was acknowledged since it was tracked |
| Turns.SucceedsWithRoom | internal/protocol/adapter.go:894-946 | on an open adapter with room for all its frames a Write whose chunks pass the gate and are written sends them all, whatever is acknowledged meanwhile |
| Turns.FailsWhenClosed | internal/protocol/adapter.go:454-479 | on a closed adapter a Write sends nothing |
| Adapter.Adapter.WriteRaw | internal/protocol/adapter.go:804-840 | each broken write may leak one copy; the write that succeeds adds one, a write that fails none |
| Turns.TransmittedFrames | internal/protocol/adapter.go:804-840 | broken writes put no other frame on the wire: the frames are those of the chunks, and with no broken write exactly those, in order, each once |
| Adapter.Adapter.ResendOldest | internal/protocol/adapter.go:556-613 | one turn of the resend loop is Tick of the window, only the frame it names goes out, leaked copies included; giving up closes the adapter, a failed write ends the loop and leaves it open |
| Adapter.Adapter.MarkOutgoingForRetransmit | internal/protocol/adapter_resume.go:325-337 | every entry is backdated with its resend count cleared, nothing else changes |
| Adapter.Adapter.HandleDataMessage | internal/protocol/adapter.go:1270-1303 | the receiver becomes Handle of the message, unless the acknowledgement failed |
| Adapter.Adapter.ProcessBufferedMessages | internal/protocol/adapter.go:1305-1317 | the loop drains all consecutive messages |
| Adapter.Adapter.ProcessMessage | internal/protocol/adapter.go:1324-1337 | payload type 1 appends exactly the payload, any other leaves the stream as it is |
| Adapter.Adapter.UpdateExpectedSeqNum | internal/protocol/adapter.go:713-718 | the expected number moves and the buffer stays |
| Turns.WakesTake | internal/protocol/adapter.go:454-474 | a frame that left the window while a writer slept was acknowledged under its own id |
| Turns.AfterWakesKeeps | internal/protocol/adapter.go:454-474 | sleeping on the window keeps the accounts and every frame still there |
| Channel.NextKeeps | internal/protocol/adapter.go:382-615 | every step of writer, network, receiver, resend loop, pause, transport and close keeps the protocol invariant: frames on the wire and in the loop are genuine, untracked sent frames have reached the receiver, the receiver is described by what it has processed |
| Channel.Reachable | internal/protocol/adapter.go:382-615 | the invariant holds after every run |
| Channel.WindowStep | internal/protocol/adapter_resume.go:289-292 | steps that touch only window, loop and switches keep it, as long as frames that leave have reached the receiver |
| EndToEnd.PrefixAlways | internal/protocol/adapter.go:894-946 | in every run, whatever fails, the bytes delivered are whole leading chunks of the bytes written, each once and in order |
| EndToEnd.CompleteWhenAcknowledged | internal/protocol/adapter.go:1270-1336 | with the writer idle and the window empty everything has been delivered exactly when each failed chunk got through and no message is held back between its acknowledgement and its processing |
| EndToEnd.HeldBackExactly | internal/protocol/adapter.go:1276-1302 | otherwise, with no failed Write, the stream ends exactly before the message in hand, and processing it completes the stream |
| EndToEnd.LostBlocks | internal/protocol/adapter.go:920-939 | once a Write has failed with no copy of its chunk at the receiver, on the wire or with a loop that can send, no continuation delivers that chunk or anything after it |
| Failures.FailedArrivesExactly | internal/protocol/adapter.go:920-939 | in every state with the protocol invariant some continuation brings the chunk of a failed Write through exactly when a copy of it has reached the receiver, is on the wire, or is with a resend loop in writeRaw or about to call it on an open adapter |
| EndToEnd.RefusedBlocks | internal/protocol/adapter.go:920-934 | once a Write failed before tracking its chunk no continuation delivers that chunk or anything after it |
| Stalls.FailedWriteStalls | internal/protocol/adapter.go:920-939 | such a run exists: adapter open, writer idle, all frames sent acknowledged and processed, nothing delivered, nothing to come |
| Stalls.AcknowledgedTooEarly | internal/protocol/adapter.go:1276-1302 | a run with an empty window and no failure in which the reader has nothing yet |
| Sending.WriteRuns | internal/protocol/adapter.go:894-946 | open and connected, with room for all of it at once, a Write of any chunks runs through with nothing acknowledged and leaves exactly the frames that Adapter.Adapter.Write promises |
| Sending.WriteWaits | internal/protocol/adapter.go:894-946 | with room for one frame at a time a Write of any length runs through, each chunk waiting for the acknowledgement before it, and leaves the window as it found it |
| Sending.WriteDelivers | internal/protocol/adapter.go:894-946 | in every run whose numbers carry chunks of b the reader has a prefix of b, and b once all are claimed, acknowledged and processed with no failure |
| Budget.RetransmissionBudget | internal/protocol/adapter.go:556-613 | in every run a number has at most 61 copies and 62 more per resume, retries of broken writes included, all the same bytes; only the oldest frame has been resent; the resend limit comes more than 60 s after its first resend |
| Budget.StretchBudget | internal/protocol/adapter.go:556-613 | from any state with the protocol invariant at most 61 more copies go out before the next resume, one more if the loop already has the frame in writeRaw |
| Budget.PacingNext | internal/protocol/adapter.go:581-602 | every step keeps the spacing of resends |
| Budget.BudgetNext | internal/protocol/adapter.go:804-840 | every step but a resume pays for the copies it makes, broken writes included |
| Recovery.RoundWorks | internal/protocol/adapter.go:382-442 | resend the oldest, deliver that copy, deliver its acknowledgement: exactly that frame leaves the window |
| Recovery.Drains | internal/protocol/adapter.go:556-615 | from any ready state one round per frame empties the window, in ascending order |
| Recovery.ResumeRecovers | internal/protocol/adapter_resume.go:289-337 | from every reachable state with the adapter open and the loop alive a resume and one round per tracked frame empty the window, each frame sent once in order, and complete the stream if no Write failed |
| ResendEnd.LoopEnds | internal/protocol/adapter.go:608-614 | a run after which the adapter is open and connected, a frame is unacknowledged, and no continuation sends it again |
| ResendEnd.StaysSilent | internal/protocol/adapter.go:608-614 | once the loop has ended, or the adapter is closed with no attempt under way, no continuation with any number of resumes sends a finished Write's number again |
| ResendEnd.AliveSendsAll | internal/protocol/adapter_resume.go:289-337 | with the adapter open and the loop alive some continuation with a resume sends every tracked frame again |
| ResendEnd.SentAgainExactly | internal/protocol/adapter.go:608-614 | a tracked frame is ever sent again exactly when the adapter is open and the loop alive, or the loop has that frame with the transport |
| ResendEnd.ClosesExactly | internal/protocol/adapter.go:543-601 | a step closes an open adapter exactly when it is Close, a turn that finds a pause of more than 45 s, or a turn that finds its oldest frame resent sixty times and more than a second ago |
| Publication.PausedSendsBounded | internal/protocol/adapter.go:543-610 | during a pause at most one frame goes out per chunk past the gate and one per resend turn past its check |
| Publication.SendsExactly | internal/protocol/adapter.go:543-610 | with the protocol invariant, a frame can still go out during the pause exactly when such a chunk can still be tracked and sent, or such a turn has or will find a frame to send |
| Publication.TwoFramesDuringPause | internal/protocol/adapter.go:907-936 | a run in which two frames follow a pause |
| Publication.PauseStartsExactly | internal/protocol/adapter.go:948-961 | only a pause message starts a pause, and its time is kept |
| Publication.PauseEndsExactly | internal/protocol/adapter.go:378-380 | a pause ends exactly with a publication message, an acknowledgement or a resume, and until then counts from its start |
| ReconnectGate.NextKeeps | internal/protocol/adapter_resume.go:190-228 | every interleaved step keeps: a gate is open exactly while it is in the field or in one loop's hands |
| ReconnectGate.GateDiscipline | internal/protocol/adapter_resume.go:190-228 | in every run reconnecting means a gate exists, no gate is closed twice, and at most one loop runs until Close has been through |
| ReconnectGate.EveryGateCloses | internal/protocol/adapter_resume.go:214-228 | a gate made before Close's locked section is closed exactly once when its own loop has ended, any gate when all loops have |
| ReconnectGate.CloseReleases | internal/protocol/adapter.go:1047-1054 | after Close every gate is closed or about to be closed by its own loop |
| ReconnectGate.AttendedExactly | internal/protocol/adapter_resume.go:190-228 | in every run a report on the live transport of an open adapter leads to a swap without a further report exactly unless the flag is held by a loop already past its swap |
| ReconnectGate.ReportSwallowed | internal/protocol/adapter_resume.go:200-228 | a run that ends open, on a transport that has failed and been reported, with no loop and no swap to come |
| ReconnectGate.StartsBounded | internal/protocol/adapter_resume.go:190-208 | once done is closed the reports past it only dwindle, and bound the loops still to start |
| ReconnectGate.StartsAfterClose | internal/protocol/adapter_resume.go:190-208 | after Close some continuation starts a loop exactly when a report is still past done |
| ReconnectGate.SwapsAfterClose | internal/protocol/adapter_resume.go:230-292 | after Close some continuation swaps a transport in exactly when such a report is left or a loop has yet to swap |
| ReconnectGate.LateStartAndSwapHappen | internal/protocol/adapter_resume.go:190-292 | a run in which a loop starts and a transport is swapped in after Close |
| Retry.JitterBounds | internal/retry/retry.go:93-109 | a delay lies between the capped power-of-two base and a quarter more |
| Retry.JitterExactly | internal/retry/retry.go:93-109 | the delay is the base delay b plus b u / 4 for a draw u, cut to whole nanoseconds |
| Retry.DelaySumLinear | internal/retry/retry.go:93-98 | once the cap is reached the delays add up linearly |
| Retry.RunContext | internal/retry/retry.go:45-77 | success exactly when some allowed call succeeds with the context alive up to it; at most MaxAttempts calls; the time slept lies between the base delays and a quarter more; with the default settings a last error means ten calls and at least 151 s |
| ResumeBudget.ReconnectLoop | internal/protocol/adapter_resume.go:230-323 | the loop ends; the delays between its attempts sum to less than the budget and no sleep passes the deadline; at most 21 attempts in 90 s; no attempt is made once Close has been seen, and it stops exactly when it sees Close with time left and the last attempt failed and slept out; it resumes exactly when its last attempt connected, and gives up only at the deadline or when Close interrupts a sleep; the time spent is calls, late timers and delays with up to a quarter on top |
| ResumeBudget.ResumeDelays | internal/protocol/adapter_resume.go:235-238 | the first n delays sum to 7.5 s + (n - 4) 5 s |
| ResumeBudget.AttemptsBounded | internal/protocol/adapter_resume.go:230-323 | so attempts are linear in the budget: at most 21 in 90 s, and 21 fit |
| DialHandoff.NextKeeps | internal/upstream/pool.go:997-1171 | every step of any caller or dial goroutine keeps the accounts of slots, channels and counters |
| DialHandoff.HandOff | internal/upstream/pool.go:1072-1171 | in every run a slot is given back at most once and a channel is returned or discarded, never both; once settled, exactly once and never neither |
| DialHandoff.CountersExact | internal/upstream/pool.go:1009-1163 | in every run inflightDials, activeChannels and pendingAbandonedDials are the sizes of the sets they stand for, so never negative |
| DialHandoff.CanFinish | internal/upstream/pool.go:1072-1171 | from every reachable state a dial's own two goroutines can finish it, whatever the SSH dial returns |
| DialHandoff.SlotBound | internal/upstream/pool.go:1005-1015 | in every run live slots on a connection exceed 4 by at most the transfers half done at the newest live dial's check |
| DialHandoff.CheckMakesLive | internal/upstream/pool.go:1009-1015 | the check lets a reservation through exactly when active channels and the dials in flight at its add make no more than four |
| DialHandoff.OverAdmitsExactly | internal/upstream/pool.go:1009-1015 | on a connection within the limit the check admits one too many exactly when its test passes although both counters plus half-done transfers minus undecided reservations already make four |
| DialHandoff.FusedSlotBound | internal/upstream/pool.go:1147-1163 | with the transfer as one step no connection ever has more than 4 live slots |
| DialHandoff.AnyNumberLive | internal/upstream/pool.go:1147-1163 | without it, for every n a run has n live slots on one connection with both its counters at zero |
| CapacityWait.NextKeeps | internal/upstream/pool.go:577-615 | every load, add, signal and pool change keeps what a waiting dialer's scan established |
| CapacityWait.NoLostWakeup | internal/upstream/pool.go:1005-1047 | in every run a dialer blocked while some pooled connection has room has its channel closed, taken by a signaller, or a signal pending on it |
| CapacityWait.WokenInTwo | internal/upstream/pool.go:588-597 | at most two steps of threads already on their way then wake it |
| CapacityWait.UndisturbedScan | internal/upstream/pool.go:1005-1047 | the dialer's own steps can finish a scan that nobody disturbs: blocked, or asking again, when no pooled connection has room, choosing or starting over when one has, ending when the pool is empty |
| CapacityWait.AloneScan | internal/upstream/pool.go:1005-1047 | and whatever its own steps, it is blocked only if no pooled connection has room and chooses or starts over only if some has |
| CapacityWait.ClosedAtMostOnce | internal/upstream/pool.go:588-597 | no wait channel is closed twice |
| CapacityWait.GetsIn | internal/upstream/pool.go:1003-1017 | a dialer that nobody disturbs gets a slot without waiting whenever a pooled connection has one free, on a connection with room, and changes nothing else |
| CapacityWait.TurnedBackExactly | internal/upstream/pool.go:1009-1015 | the check turns a dialer back exactly when channels and dials in flight make more than four; its slot is returned, a signal is owed and it starts over |
| Selection.Selector.SelectConnWithCapacity | internal/upstream/pool.go:796-836 | nothing exactly when every connection is draining or carries four; otherwise one that has room and no more channels than any other with room, nor as many with more dials in flight, the next one in turn among all such |
| Selection.ScanNext | internal/upstream/pool.go:808-829 | one more connection keeps the candidates exactly the best so far |
| Selection.EveryBestHasItsTurn | internal/upstream/pool.go:834-836 | from every counter value each minimum is chosen within two rounds of the pool, and within one if the counter does not wrap at 2^64 on the way |
| Selection.WrapMisses | internal/upstream/pool.go:834-836 | three equal connections and a counter at 2^64 - 2, from which the third is not chosen within one round |
| PoolGrowth.GrowthBounded | internal/upstream/pool.go:919-991 | in every run pooled connections plus attempts under way are at most 16, and 2 more per wake-up reset |
| PoolGrowth.GrowthWithAtomicMaintain | internal/upstream/pool.go:1644-1673 | at most 14 when counting and reserving are one step and there is no reset |
| PoolGrowth.GrowthByScalingAlone | internal/upstream/pool.go:919-991 | at most 12 without replenishing |
| PoolGrowth.BoundAttained | internal/upstream/pool.go:1553-1673 | for every n a run from two connections with n wake-up resets reaches 16 + 2n |
| PoolGrowth.SixteenHappens | internal/upstream/pool.go:1553-1673 | in particular a run without resets reaches 16 |
| PoolGrowth.FourteenHappens | internal/upstream/pool.go:919-991 | a run with counting and reserving as one step reaches 14 |
| PoolGrowth.CapPassedExactly | internal/upstream/pool.go:919-991 | in every reachable state within the cap a step passes it exactly when it is a reserve whose own test passes although pool, scale-ups and replenishes leave no room; without a reset only by a stale count or overlooked replenishes |
| PoolGrowth.Conservation | internal/upstream/pool.go:919-991 | in every run the pool is what it was plus what landed less what was removed, and every attempt started is under way, landed or failed |
| PoolGrowth.Group.StartScale | internal/upstream/pool.go:919-950 | one attempt more exactly when pool and attempts make fewer than 12 and fewer than two are running, none otherwise; it is the model's read and reserve |
| PoolGrowth.Group.ReserveReplenish | internal/upstream/pool.go:1417-1447 | waits exactly during the backoff; otherwise a grant exceeds neither what is missing from four nor the two attempts allowed at once, and reaches one of them when both leave something; it is the model's reserve |
| PoolGrowth.Group.FinishReplenish | internal/upstream/pool.go:1449-1455 | on every state of the growth model it is the end of one attempt, and the counter never goes below zero even after a wake-up reset |
| PoolGrowth.Group.ResetReplenishBackoff | internal/upstream/pool.go:1483-1490 | on every state of the growth model it is the wake-up reset: running attempts stay, and the next reserve is held back neither by the backoff nor by them |
| Keepalive.Loop.OnTick | internal/upstream/pool.go:250-306 | one tick of the loop is Next of its state, and does what Act says |
| Keepalive.RescuesApart | internal/upstream/pool.go:283-294 | in every trace forced resumes are at least ten minutes apart |
| Keepalive.CloseOnlyAfterRescue | internal/upstream/pool.go:274-300 | a resume-capable connection is closed only within ten minutes of a forced resume and after two counted failures since then with no reset among them |
| Keepalive.ActsExactly | internal/upstream/pool.go:250-306 | while the loop runs it acts exactly when two probes in a row failed with the adapter up and no data lately, with neither a sign of life nor a rescue between them, and then closes exactly when the connection cannot resume or was rescued less than ten minutes before |
| Keepalive.RescueIsKnown | internal/upstream/pool.go:283-292 | the stored time is that of the last forced resume |
| Keepalive.NothingAfterClose | internal/upstream/pool.go:296-300 | after closing its connection the loop never acts again |

## Left out

- The WebSocket, TLS, AWS and SSH libraries: each call is a parameter or a step that succeeds or fails either way. SHA-256, message ids and creation dates are parameters.
- The JSON bodies of acknowledgements and handshake messages, and the handshake itself beyond the step that sets the expected number.
- Clocks are integer parameters. Write deadlines are the end of the list of wake-ups in `AddOutgoing`, the outcome of a `Turn`, or a step.
- Sequence numbers after 2^63 frames: `Write` and the system ask for numbers that still fit a signed 64-bit integer. The guard of `ackOutgoing` against a zero time of sending.
- Several concurrent writers on one adapter: `Channel` has one writer, which may stop between any two of its operations. Errors of the pipe to the reader, and a nil stream writer.
- EndToEnd.HeldBackExactly: processing a message and the buffered successors it releases is one step; how far the pipe's reader has got with those bytes is not modelled.
- Recovery.ResumeRecovers: swapping the transport, marking the window, ending the pause and clearing the flag are one step; `ReconnectGate` has the swap and the clear apart.
- Retry.RunContext: exact arithmetic in place of the rounding of float64, and the multiplier is 2, as everywhere in the repository.
- Keepalive.CloseOnlyAfterRescue: the times of the trace are positive and do not run backwards; the stored 0 stands for no rescue yet.
- PoolGrowth.GrowthBounded: starts from at most the default pool of 4 connections, as connecting leaves it; replacing the whole pool on reconnect is not a step.
- CapacityWait.NoLostWakeup: `cleanup`, which empties the pool without its lock when the group has ended, is not a step.
- The reconnect gate, pool growth, hand-over, capacity and channel machines are on values rather than objects: their methods interleave at every atomic operation, which a sequential method cannot show.
- Ping and read loops and `sendOpenDataChannel`; what they do to the reconnect is a report of a failed transport.
- `selectConn`, draining of connections, dial-timeout counting and eviction, instance rotation, `markMessageSeen`, statistics, logging, diagnostics, `cmd`, configuration, routing and SOCKS5: they would add simpler members only.
