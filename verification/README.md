# Remote controller core: a verified model

The repository forwards a gamepad over a trusted LAN. A client samples a physical pad every
4 ms and sends full states by UDP; a server checks them and drives a virtual pad; a TCP
control channel carries the handshake, heartbeats, rumble and the stop message. Besides it
there is a loopback session inside one process and a local bridge from a physical to a
virtual pad. This project models the native core of that system and proves what it is for:
no frame is shown twice or out of order, no button edge is lost, silence releases all
controls in time, a stopped session is silent, and the motors end up with the last command.

## How the model is built

- Every section of code under a mutex, and every access to an atomic outside one, is one
  step. Each thread has a program counter. A module such as `LanServer`, `LanClient`,
  `LoopbackSession`, `SessionWatchdog`, `LocalBridge`, `RumbleChain`, `TransportLifecycle`,
  `Handshake`, `ControlStream` or `Heartbeat` has a `System`, an `Event` type, a predicate
  `Enabled` and a function `Apply`. A run is a sequence of states that `Apply` connects, and
  the theorems are about every state of every run.
- The objects are classes (`LanControllerServer`, `LanControllerClient`, `Session`,
  `LoopbackTransportBackend`, `LocalControllerBridge`, `UdpLanTransportBackend`,
  `RumbleMailbox`, `PairingKeyStore`, the two sockets). Their methods assign fields as the
  code does, and each is proved equal to the function that the step system uses.
- Loops over buffers and lists are methods with loops: `SendAll`, `ReceiveAll`, the accept
  loop, the datagram loop, the client's control loop, the poll loop and the key scanner.
- Besides what every run keeps, each system has lemmas that give what a sequence of its steps
  makes of what it is handed (a sample, a frame, a command), for every value of it, and which
  step led to which end state. The systems with a Stop are free of deadlock: from every state
  of every run Stop can return. Those with a clock never stop it.
- `EndToEnd` puts client, network and server together. The network keeps every packet ever
  sent and may deliver any of them any number of times in any order.
- Time is a natural number. `LanServer` and `SessionWatchdog` let the scheduler be late by a
  given latency (the loop they share is in `DeadlineWait`), and `Heartbeat` has one bound for
  each of the four delays. In `LoopbackSession`, which is about the queue, the watchdog may
  fire whenever it is armed.
- C++ integers of 8, 16, 32 and 64 bits are subset types; wrap-around is written out where
  the code computes (`Triggers`, `PairingKey`).

## Assumptions

- The owner serialises Start and Stop on one object.
- `SdlInputBackend::Close` joins the poll thread, so no callback runs after it.
- Session ids of different sessions differ, and nobody forges packets with this session's
  id; other traffic is arbitrary.
- 64-bit sequence numbers and generations do not wrap around. `Sample` and `NumberNeutral`
  in `LanClient` are possible only below the last sequence number.
- The client's first heartbeat is due at most one period after the server's loop starts.
- In `ClientControl` Stop's frame carries the session id: a server's control loop sends only
  after `session_id_` was stored.
- In `RumbleChain` the control stream carries whole frames; `ControlStream` says when it does,
  and `ClientControl` what the client applies when it does not.

## What does not hold

Some promises one would expect of the code fail in a race. Each has a concrete run, and a
lemma that says exactly when it happens.

- A fresh frame may be released early when it races the deadline of the frame before it
  (`LanServer.FreshFrameMayBeReleasedEarly`, `LanServer.EarlyReleaseIff`).
- Stop's neutral datagram may carry session id 0, which no server accepts
  (`LanClient.NeutralMayCarrySessionZero`, `LanClient.SessionOnTheWire`).
- Stop's frame may follow a control frame that went out in part; the peer then reads one
  frame made of both (`ControlStream.StopBehindATornFrame`,
  `ControlStream.PeerReadsWhatWasSent`).
- Depending on where a rumble frame is torn the client rejects that frame, applies the motors
  asked for, or applies motors nobody asked for (`ClientControl.TornRumbleInventsACommand`,
  `ClientControl.UnissuedCommandIff`, `TornFrame.TornFrameIsValidIff`).
- A client may be connected to a server that was stopped behind its acknowledgement
  (`Handshake.ClientOfAStoppedServer`, `Handshake.Agreement`).
- A rumble command that arrives before the pad is open is lost
  (`RumbleChain.CommandBeforeThePadOpensIsLost`, `RumbleChain.AgreesWhenQuiet`).
- `connected_` may become true behind the transport's own Stop; only the session's join
  makes it false for ever (`TransportLifecycle.TransportStopAloneIsNotEnough`,
  `TransportLifecycle.ReconnectsIffAssigning`).
- A frame may become output between a refused send and the session's reaction to it
  (`LoopbackSession.OutputAfterRefusal`, `LoopbackSession.OutputAfterRefusalIff`).
- A sample may reach the pad of the local bridge after Stop has set the state
  (`LocalBridge.ReportAfterStopWasMarked`, `LocalBridge.SampleAfterStopIff`).
- `Persist` writes any 16-bit key; `ReadPersisted` refuses those above 9999
  (`PairingKey.PersistRoundTrip`).

Where the documentation and the code disagree the model follows the code.
`docs/PROJECT_KNOWLEDGE.md:245` rejects a wrong key with an error code in HELLO_ACK, the code
sends an error frame (`udp_lan_transport_backend.cpp:454-457`).
`docs/PROJECT_KNOWLEDGE.md:253` destroys the virtual pad after three seconds without a
heartbeat, the code only releases it. `docs/PROJECT_KNOWLEDGE.md:255` closes the device last,
the code closes it before the neutral datagram is sent (`lan_controller_session.cpp:95-107`).

## Model

| member | source | states |
|---|---|---|
| Wire.InputRoundTrip | packages/remote_controller_core/native/src/udp_lan_transport_backend.cpp:514-526 | For every session id, state, sequence and timestamp the packet `SendState` builds is accepted for exactly its own session and is read back unchanged. |
| Wire.InputAcceptedIffEncoded | packages/remote_controller_core/native/src/udp_lan_transport_backend.cpp:715-728 | A byte string passes the length, header and tag checks of session s if and only if it is the encoding under s of some (state, sequence, timestamp). |
| Wire.AcceptedIsEncoded | packages/remote_controller_core/native/src/udp_lan_transport_backend.cpp:715-744 | An accepted packet is the encoding of what the loop reads from it: no two packets are read alike. |
| Wire.InputEncodingInjective | packages/remote_controller_core/native/src/udp_lan_transport_backend.cpp:514-526 | No packet encodes two different triples or belongs to two sessions. |
| InputBytes.InputLayout | packages/remote_controller_core/native/include/controller_protocol.h:72-99 | The packet that is sent, byte by byte: its twelve fixed bytes as numbers, session id, sequence number and timestamp at 12, 16 and 24, buttons, triggers and the four axes in two's complement at 32 to 46, and sixteen zeros. |
| InputBytes.AcceptedBytes | packages/remote_controller_core/native/src/udp_lan_transport_backend.cpp:715-728 | A datagram is accepted if and only if it has 64 bytes, begins with those twelve numbers, spells the session id at byte 12 and ends in sixteen zeros. |
| InputBytes.InputFields | packages/remote_controller_core/native/src/udp_lan_transport_backend.cpp:735-744 | What is read from any 64 bytes, each field by its bytes as numbers. |
| Wire.DecodeEncodeControl | packages/remote_controller_core/native/include/controller_protocol.h:103-117 | Control frames survive encoding. |
| Wire.EncodeDecodeControl | packages/remote_controller_core/native/include/controller_protocol.h:103-117 | Any 32 bytes are the encoding of the frame read from them. |
| Protocol.ValidControlFrameMeaning | packages/remote_controller_core/native/src/udp_lan_transport_backend.cpp:98-106 | The check holds exactly for the frames `MakeControlFrame` builds for that type and session, up to key, sequence, motors and capabilities. |
| PairingKey.ReadPersisted | packages/remote_controller_core/native/src/pairing_key_store.cpp:62-98 | Returns a key exactly when the text after the first colon behind the key name is blanks, then a maximal nonempty digit run of value at most 9999, and then returns that value; the early exit and 32-bit wrap-around never show. |
| PairingKey.ScanKey | packages/remote_controller_core/native/src/pairing_key_store.cpp:77-97 | The same for the scanning loop, on any content and any position. |
| PairingKey.TooLarge | packages/remote_controller_core/native/src/pairing_key_store.cpp:81-86 | Leaving early is sound: whatever digits follow, the number denoted stays above 9999. |
| PairingKey.DenotesUnique | packages/remote_controller_core/native/src/pairing_key_store.cpp:77-92 | Content denotes at most one number. |
| PairingKey.AfterColonIff | packages/remote_controller_core/native/src/pairing_key_store.cpp:69-76 | What is scanned is what stands behind the first colon at or after the first occurrence of the quoted key name. |
| PairingKey.DigitCharacters | packages/remote_controller_core/native/src/pairing_key_store.cpp:81-81 | The digits are the ten characters 0 to 9. |
| PairingKey.BlankCharacters | packages/remote_controller_core/native/src/pairing_key_store.cpp:89-89 | Skipped are space, tabulator, carriage return and line feed, nothing else. |
| PairingKey.PrintDecimal | packages/remote_controller_core/native/src/pairing_key_store.cpp:106-108 | `%u` prints a nonempty digit string whose decimal value is the number, of at most as many digits as the size of the number needs. |
| PairingKey.Persisted | packages/remote_controller_core/native/src/pairing_key_store.cpp:106-109 | The text always fits the 64-byte buffer with its terminator. |
| PairingKey.PersistedText | packages/remote_controller_core/native/src/pairing_key_store.cpp:106-108 | The text written, character by character around the key's digits. |
| PairingKey.PersistedDenotes | packages/remote_controller_core/native/src/pairing_key_store.cpp:100-110 | The written text denotes the key written and no other number, for all 16-bit keys. |
| PairingKey.PersistRoundTrip | packages/remote_controller_core/native/src/pairing_key_store.cpp:100-110 | Reading back what was written succeeds if and only if the key is at most 9999, and then gives the key. |
| PairingKey.PairingKeyStore.Persist | packages/remote_controller_core/native/src/pairing_key_store.cpp:100-110 | The file is replaced, or left alone if it cannot be written. |
| PairingKey.PairingKeyStore.Get | packages/remote_controller_core/native/src/pairing_key_store.cpp:112-121 | Returns the key on file and leaves the file alone, or makes and writes a four-digit key; either way the file then holds what was returned, if it could be written. |
| PairingKey.PairingKeyStore.Regenerate | packages/remote_controller_core/native/src/pairing_key_store.cpp:123-128 | A fresh four-digit key that a later read returns. |
| Triggers.NoOverflow | packages/remote_controller_core/native/src/sdl_input_backend.cpp:188-189 | Neither stage overflows 32 bits nor its result type. |
| Triggers.NormalizeIsNearest | packages/remote_controller_core/native/src/sdl_input_backend.cpp:184-190 | Widening gives the integer nearest to max(v, 0)*65535/32767, never a tie. |
| Triggers.QuantizeIsNearest | packages/remote_controller_core/native/src/vigem_virtual_controller_backend.cpp:58-61 | Narrowing gives the integer nearest to v*255/65535, never a tie. |
| Triggers.NearestIsUnique | packages/remote_controller_core/native/src/vigem_virtual_controller_backend.cpp:58-61 | There is only one nearest integer. |
| Triggers.DoubleRoundingIsHarmless | packages/remote_controller_core/native/src/vigem_virtual_controller_backend.cpp:58-61 | For every int16 the two roundings in a row equal one rounding of max(v, 0)*255/32767. |
| Triggers.TriggerMonotone | packages/remote_controller_core/native/src/sdl_input_backend.cpp:184-190 | Widening is monotone on every int16, narrowing on every uint16, and so is their composition. |
| Triggers.TriggerEndpoints | packages/remote_controller_core/native/src/sdl_input_backend.cpp:184-190 | Released stays 0, fully pressed stays full scale. |
| Triggers.InvertTwice | packages/remote_controller_core/native/src/sdl_input_backend.cpp:192-196 | Inverting the y axis twice is the identity but for the one value without a negative. |
| Pacing.PollLoop | packages/remote_controller_core/native/src/sdl_input_backend.cpp:360-385 | The loop samples at the instants `SampleTime` gives, for arbitrary work times and oversleeps. |
| Pacing.NeverEarly | packages/remote_controller_core/native/src/sdl_input_backend.cpp:379-384 | Sample n never comes before start + n * 4 ms. |
| Pacing.NoDrift | packages/remote_controller_core/native/src/sdl_input_backend.cpp:379-384 | As long as every pass is done within 4 ms of its deadline, deadline n is exactly start + n * 4 ms and sample n is late by its own oversleep and work only. |
| Pacing.NoCatchUpBurst | packages/remote_controller_core/native/src/sdl_input_backend.cpp:379-384 | Any m >= 2 consecutive samples span at least (m - 2) * 4 ms. |
| Pacing.BurstBoundIsSharp | packages/remote_controller_core/native/src/sdl_input_backend.cpp:379-384 | For every m there are timings for which the span is exactly that. |
| DeadlineWait.TurnIsTimely | packages/remote_controller_core/native/src/lan_controller_session.cpp:262-279 | One turn of either watchdog loop, from one wait to the next, keeps the obligation to act in time after the last arrival. |
| DeadlineWait.ArrivalIsTimely | packages/remote_controller_core/native/src/session.cpp:139-145 | An accepted frame with its notification renews that obligation wherever the thread is. |
| LanServer.TimedSafeRelease | packages/remote_controller_core/native/src/lan_controller_session.cpp:262-279 | In every run, whenever the pad does not show neutral: running, watchdog armed, the report is the last accepted frame, accepted at most the timeout ago, up to the scheduling latency. |
| LanServer.PunctualRelease | packages/remote_controller_core/native/src/lan_controller_session.cpp:262-279 | With a worker that wakes at its deadline the bound is the timeout itself. |
| LanServer.TimePasses | packages/remote_controller_core/native/src/lan_controller_session.cpp:262-279 | From every state of every run the clock can go on: what the worker is due to do it can do. |
| LanServer.StopStops | packages/remote_controller_core/native/src/lan_controller_session.cpp:281-300 | Stop stops every session, releases a running one, is idempotent, and a waiting worker's turn is due within the latency. |
| LanServer.DisconnectReleases | packages/remote_controller_core/native/src/lan_controller_session.cpp:360-370 | A disconnect releases a running session and wakes its worker. |
| LanServer.LateDisconnectChangesNothing | packages/remote_controller_core/native/src/lan_controller_session.cpp:360-364 | A disconnect of a session that does not run changes nothing at all. |
| LanServer.StaleFrameChangesNothing | packages/remote_controller_core/native/src/lan_controller_session.cpp:326-330 | A frame not newer than every accepted one, or for a session that does not run, changes nothing at all. |
| LanServer.RefusedFrameFaults | packages/remote_controller_core/native/src/lan_controller_session.cpp:331-336 | A frame the virtual pad refuses is not accepted and faults the session, released. |
| LanServer.StopCanReturn | packages/remote_controller_core/native/src/lan_controller_session.cpp:281-300 | No deadlock: from every state of every run the session can be stopped and its worker joined. |
| LanServer.FailedStartFaults | packages/remote_controller_core/native/src/lan_controller_session.cpp:230-260 | Runs in which pad or transport do not start: faulted, with no report or one neutral report. |
| LanServer.EndingsTellTheCause | packages/remote_controller_core/native/src/lan_controller_session.cpp:253-344 | For every step of a running session: stopped by Stop only, disconnected by the transport's report only, faulted if and only if the transport did not start or the virtual pad refused a fresh frame. |
| LanServer.NeutralizationAccounting | packages/remote_controller_core/native/src/lan_controller_session.cpp:281-300 | Watchdog releases plus the armed flag never exceed accepted frames; exactly one terminal neutralisation once a started session is over; count at most accepted + 1; one report each; unarmed means neutral; not running means unarmed. |
| LanServer.OverIsForEver | packages/remote_controller_core/native/src/lan_controller_session.cpp:360-370 | A stopped, faulted or disconnected session takes nothing more and shows neutral for ever. |
| LanServer.EarlyReleaseIffDeadlinePassed | packages/remote_controller_core/native/src/lan_controller_session.cpp:271-277 | While the newest frame's deadline lies ahead, the worker's next turn may release it if and only if the worker waits on a deadline that has passed. |
| LanServer.EarlyReleaseIff | packages/remote_controller_core/native/src/lan_controller_session.cpp:262-279 | While the deadline of the frame shown lies ahead, some continuation releases that frame before it if and only if the worker waits on an older deadline that is not behind the instant its turn is due. |
| LanServer.EarlyReleaseNeedsARace | packages/remote_controller_core/native/src/lan_controller_session.cpp:271-277 | Such a release needs a frame that came while the worker waited on an older one. |
| LanServer.FreshFrameMayBeReleasedEarly | packages/remote_controller_core/native/src/lan_controller_session.cpp:271-277 | For any two frames, any positive timeout and any latency, a run in which the second frame is released the instant it was accepted. |
| LanServer.StepKeepsInvariant | packages/remote_controller_core/native/src/lan_controller_session.cpp:324-377 | Every section of every thread keeps the accounts and the worker's obligation to wake in time. |
| LanControllerServer.LanControllerServer.BeginRunningSection | packages/remote_controller_core/native/src/lan_controller_session.cpp:238-242 | Refines the step to kRunning. |
| LanControllerServer.LanControllerServer.NeutralizeLocked | packages/remote_controller_core/native/src/lan_controller_session.cpp:372-377 | Gives the pad one neutral report, counts it, disarms the watchdog. |
| LanControllerServer.LanControllerServer.OnStateLocked | packages/remote_controller_core/native/src/lan_controller_session.cpp:324-344 | Drops stale frames and frames of a session that is not running; faults and releases if the pad refuses; otherwise stores all of the frame and arms the watchdog. |
| LanControllerServer.LanControllerServer.OnTransportDisconnectedLocked | packages/remote_controller_core/native/src/lan_controller_session.cpp:360-368 | Only a running session becomes disconnected, and is released. |
| LanControllerServer.LanControllerServer.TransportFailedLocked | packages/remote_controller_core/native/src/lan_controller_session.cpp:252-257 | A transport that did not start faults and releases a session that nobody stopped. |
| LanControllerServer.LanControllerServer.StopLocked | packages/remote_controller_core/native/src/lan_controller_session.cpp:281-292 | Releases a running session, stops any other; a second call changes nothing. |
| LanControllerServer.LanControllerServer.TurnLocked | packages/remote_controller_core/native/src/lan_controller_session.cpp:262-279 | One turn of the watchdog loop, with the deadline captured before the wait. |
| ControllerOutput.AcceptAccounted | packages/remote_controller_core/native/src/lan_controller_session.cpp:337-342 | Accepting a frame that is not stale keeps order and accounts. |
| ControllerOutput.NeutralizeAccounted | packages/remote_controller_core/native/src/lan_controller_session.cpp:372-377 | Releasing by the watchdog while armed, or at an end, keeps the accounts. |
| Loopback.PushCoalesced | packages/remote_controller_core/native/src/loopback_transport_backend.cpp:44-65 | After any accepted send, what was delivered plus what is pending is a subsequence of what was sent, ends in the newest frame, and has the same button masks once adjacent repeats are removed. |
| Loopback.TakeCoalesced | packages/remote_controller_core/native/src/loopback_transport_backend.cpp:119-139 | Taking a frame out of the queue changes none of this. |
| Loopback.PushDistinct | packages/remote_controller_core/native/src/loopback_transport_backend.cpp:53-61 | Neighbours in the queue keep different masks, and the queue its bound of 64. |
| Loopback.PopDistinct | packages/remote_controller_core/native/src/loopback_transport_backend.cpp:131-132 | Taking the oldest frame keeps neighbours different. |
| Loopback.RefusalMeaning | packages/remote_controller_core/native/src/loopback_transport_backend.cpp:56-60 | A queue refuses exactly a change of mask on top of 64 pending frames. |
| Loopback.LoopbackTransportBackend.StartLocked | packages/remote_controller_core/native/src/loopback_transport_backend.cpp:26-42 | Starts with an empty queue, unless it accepts already, its worker is not joined, or there is no callback. |
| Loopback.LoopbackTransportBackend.SendState | packages/remote_controller_core/native/src/loopback_transport_backend.cpp:44-65 | Overwrites the newest pending frame of equal mask, else appends, else refuses; everything else is unchanged. |
| Loopback.LoopbackTransportBackend.TakeLocked | packages/remote_controller_core/native/src/loopback_transport_backend.cpp:119-133 | Takes the oldest pending frame, unless told to stop. |
| Loopback.LoopbackTransportBackend.ShutdownLocked | packages/remote_controller_core/native/src/loopback_transport_backend.cpp:86-99 | Stops accepting and clears the queue, unless the transport neither accepts nor has a worker; then nothing changes. |
| Loopback.LoopbackTransportBackend.FinishShutdownLocked | packages/remote_controller_core/native/src/loopback_transport_backend.cpp:106-112 | The stop request is withdrawn once the worker is joined. |
| Loopback.PushKeeps | packages/remote_controller_core/native/src/loopback_transport_backend.cpp:44-65 | An accepted send keeps bound, distinct neighbours and the promise together. |
| LoopbackSession.NoEdgeLost | packages/remote_controller_core/native/src/loopback_transport_backend.cpp:44-65 | For every interleaving, while the session runs: accepted frames, the one in the worker's hands and the pending ones coalesce exactly what was sent, accepted sequences ascend strictly, and what was sent is every frame that passed SubmitState's checks but for the one in submission. |
| LoopbackSession.SubmittedIsShown | packages/remote_controller_core/native/src/session.cpp:46-67 | For every frame that is admitted: on a running session with an idle worker and an empty queue, submitting, sending, taking and delivering put exactly that frame on the virtual pad. |
| LoopbackSession.SubmittedIsPending | packages/remote_controller_core/native/src/session.cpp:46-67 | Otherwise the frame submitted is the newest one pending, unless the queue refuses it. |
| LoopbackSession.AdmissionTells | packages/remote_controller_core/native/src/session.cpp:51-59 | SubmitState answers kInvalidState if and only if the session does not run, kStaleSequence if and only if it runs and let a frame of the same or a greater number pass before. |
| LoopbackSession.EndingsTellTheCause | packages/remote_controller_core/native/src/session.cpp:93-156 | For every step of a running session: stopped by Stop only, disconnected if and only if the transport reported it or a send failed, faulted if and only if the virtual pad refused a frame. |
| LoopbackSession.DeliveredIsAccepted | packages/remote_controller_core/native/src/session.cpp:124-145 | Until the session ends no delivered frame is ever stale: each becomes the output. |
| LoopbackSession.RefusedOnlyWhenFull | packages/remote_controller_core/native/src/loopback_transport_backend.cpp:52-61 | An accepting transport refuses if and only if 64 frames of adjacent-distinct masks are pending and the mask is new. |
| LoopbackSession.NothingAfterFailure | packages/remote_controller_core/native/src/session.cpp:62-65 | Once SubmitState has returned a backend failure no frame ever becomes output. |
| LoopbackSession.OutputAfterRefusalIff | packages/remote_controller_core/native/src/session.cpp:62-65 | From a refused send on, some continuation accepts a frame if and only if the session runs and the worker holds a frame, or waits unstopped before a nonempty queue. |
| LoopbackSession.OutputAfterRefusal | packages/remote_controller_core/native/src/session.cpp:62-65 | A concrete run: between the refusal and the session hearing of it one more frame does become output. |
| LoopbackSession.OverIsForEver | packages/remote_controller_core/native/src/session.cpp:93-122 | A session that is over takes nothing more. |
| LoopbackSession.NeutralizationAccounting | packages/remote_controller_core/native/src/session.cpp:93-191 | The accounts of the LAN server, for the loopback session. |
| LoopbackOutcomes.StopCanReturn | packages/remote_controller_core/native/src/session.cpp:93-122 | No deadlock: from every state of every run the session can be stopped, its worker joined and its transport down. |
| LoopbackOutcomes.RefusalEndsTheSession | packages/remote_controller_core/native/src/session.cpp:62-65 | A session told of a refused frame ends as disconnected, released. |
| LoopbackOutcomes.WatchdogReleases | packages/remote_controller_core/native/src/session.cpp:169-176 | The watchdog releases an armed session, which goes on. |
| LoopbackOutcomes.SimulatedDisconnectEnds | packages/remote_controller_core/native/src/session.cpp:82-91 | A simulated disconnect ends a running session as disconnected, with the transport down. |
| LoopbackOutcomes.FailedStartFaults | packages/remote_controller_core/native/src/session.cpp:24-27 | A virtual pad that cannot be created faults the session, and nothing runs. |
| SessionWatchdog.TimedSafeRelease | packages/remote_controller_core/native/src/session.cpp:19-178 | The timed release of the LAN server for the loopback session, with Start creating the thread only after the transport: a report other than neutral is the last accepted frame, accepted at most the timeout ago (or the time to create the thread and run it, if longer), up to the scheduling latency. |
| SessionWatchdog.FreshFrameIsShown | packages/remote_controller_core/native/src/session.cpp:124-145 | A running session shows every frame newer than all accepted ones at once. |
| SessionWatchdog.TimePasses | packages/remote_controller_core/native/src/session.cpp:160-178 | From every state of every run the clock can go on. |
| SessionWatchdog.WatchdogLeaves | packages/remote_controller_core/native/src/session.cpp:162-168 | A session that is over, however it ended, sends its watchdog home at its next turn. |
| SessionWatchdog.StopTellsTheWatchdog | packages/remote_controller_core/native/src/session.cpp:93-115 | Stop sets the exit flag, and a waiting watchdog's turn is due within the latency. |
| SessionWatchdog.StopCanReturn | packages/remote_controller_core/native/src/session.cpp:93-122 | No deadlock: from every state of every run the session can be stopped and its watchdog joined. |
| SessionWatchdog.OtherEnds | packages/remote_controller_core/native/src/session.cpp:24-156 | A disconnect releases a running session, a failed creation faults a new one. |
| SessionObject.Session.StartLocked | packages/remote_controller_core/native/src/session.cpp:20-30 | Only a created session starts; if the virtual pad cannot be created it becomes faulted instead. |
| SessionObject.Session.SubmitLocked | packages/remote_controller_core/native/src/session.cpp:50-60 | Invalid state, stale sequence, or admitted and remembered as the highest submitted. |
| SessionObject.Session.NeutralizeLocked | packages/remote_controller_core/native/src/session.cpp:180-185 | One neutral report, counted, watchdog disarmed. |
| SessionObject.Session.OnStateFrameLocked | packages/remote_controller_core/native/src/session.cpp:124-145 | As the LAN server, with the watchdog told to leave on a fault. |
| SessionObject.Session.OnDisconnectedLocked | packages/remote_controller_core/native/src/session.cpp:147-158 | Only a running session becomes disconnected, and is released. |
| SessionObject.Session.StopLocked | packages/remote_controller_core/native/src/session.cpp:93-113 | Releases a running session, keeps the state of a disconnected or faulted one, and says whether the transport is to be stopped. |
| SessionObject.Session.WatchdogTurnLocked | packages/remote_controller_core/native/src/session.cpp:160-178 | One turn of the watchdog loop, with the deadline captured before the wait. |
| LanClient.DatagramsLeaveInOrder | packages/remote_controller_core/native/src/lan_controller_session.cpp:136-156 | In every interleaving the datagrams leave in strictly ascending sequence order. |
| ClientOutcomes.SampleGoesOut | packages/remote_controller_core/native/src/lan_controller_session.cpp:136-156 | For every state of the pad and every time: on a connected client the four steps of a sample put exactly that state on the wire, under the agreed session, with the next number and that time, and the snapshot shows it; a full buffer costs the datagram only, a failed send ends the session. |
| ClientOutcomes.EndingsTellTheCause | packages/remote_controller_core/native/src/lan_controller_session.cpp:33-71 | For every step of a running client: stopped by Stop only, faulted if and only if transport or pad did not start, disconnected if and only if the pad, the connection or a send was lost. |
| ClientOutcomes.Starts | packages/remote_controller_core/native/src/lan_controller_session.cpp:33-80 | A run in which nothing disturbs the start: the client samples, connected under the agreed session. |
| ClientOutcomes.StopSendsNeutral | packages/remote_controller_core/native/src/lan_controller_session.cpp:82-112 | From every connected client a run in which Stop sends a neutral datagram under its session with the next number, and returns. |
| ClientOutcomes.StopCanReturn | packages/remote_controller_core/native/src/lan_controller_session.cpp:82-112 | No deadlock: from every state of every run of start worker, pad, transport and Stop there is a continuation in which Stop returns, for every outcome of the sends. |
| ClientOutcomes.PadIsClosedOnlyAtTheEnd | packages/remote_controller_core/native/src/lan_controller_session.cpp:73-79 | The worker closes the pad only of a client that does not run any more. |
| ClientOutcomes.PadThreadIsJoined | packages/remote_controller_core/native/src/sdl_input_backend.cpp:333-386 | The pad's thread leaves between callbacks, when told to stop or when its pad is lost, and is joined only then. |
| ClientOutcomes.StoppedClientIsDown | packages/remote_controller_core/native/src/lan_controller_session.cpp:107-111 | Once Stop has returned the transport is down and the worker is done. |
| ClientOutcomes.FaultedClientIsDown | packages/remote_controller_core/native/src/lan_controller_session.cpp:37-71 | A client that could not start is disconnected, its pad closed, once its worker is done. |
| ClientOutcomes.OnlyTheLiveSample | packages/remote_controller_core/native/src/lan_controller_session.cpp:140-146 | A client that is not live numbers nothing. |
| ClientOutcomes.NoNeutralUnlessConnected | packages/remote_controller_core/native/src/lan_controller_session.cpp:97-106 | If the client did not run when Stop was called, or is not connected when Stop looks, no neutral datagram ever leaves. |
| ClientOutcomes.LossClosesThePad | packages/remote_controller_core/native/src/lan_controller_session.cpp:158-195 | From every sampling client a run in which a lost connection ends it as disconnected and the worker closes the pad. |
| ClientOutcomes.PadLossDisconnects | packages/remote_controller_core/native/src/lan_controller_session.cpp:158-166 | The same for a lost pad. |
| LanClient.NeverReopened | packages/remote_controller_core/native/src/lan_controller_session.cpp:46-80 | After Stop's CloseInput the pad is never opened again and no callback runs; only the neutral datagram may still leave. |
| LanClient.FinalNeutralIsLast | packages/remote_controller_core/native/src/lan_controller_session.cpp:82-112 | The neutral datagram of Stop, if it leaves, is the last one and has the strictly greatest sequence. |
| LanClient.StoppedClientIsQuiet | packages/remote_controller_core/native/src/lan_controller_session.cpp:107-112 | Once Stop has returned the client is stopped, neutral, and its pad closed. |
| LanClient.LogOnlyGrows | packages/remote_controller_core/native/src/lan_controller_session.cpp:136-156 | No datagram is ever taken back, and the session agreed on never changes. |
| LanClient.SessionOnTheWire | packages/remote_controller_core/native/src/udp_lan_transport_backend.cpp:511-538 | The session id of a datagram is decided when `SendState` loads it: every datagram that leaves was loaded at an earlier step, and carries the agreed id if and only if the worker was not, at that step, between its stores to `connected_` and `session_id_`; only Stop's neutral datagram can be loaded there. |
| LanClient.NeutralMayCarrySessionZero | packages/remote_controller_core/native/src/udp_lan_transport_backend.cpp:362-370 | A concrete run in which Stop's neutral datagram leaves under session id 0 although the transport has completely started by then. |
| LanControllerClient.LanControllerClient.StartLocked | packages/remote_controller_core/native/src/lan_controller_session.cpp:22-31 | Only a created client starts. |
| LanControllerClient.LanControllerClient.StartFailedLocked | packages/remote_controller_core/native/src/lan_controller_session.cpp:37-44 | A start that failed faults a client that nobody stopped. |
| LanControllerClient.LanControllerClient.NumberSampleLocked | packages/remote_controller_core/native/src/lan_controller_session.cpp:140-146 | A sample of a live client gets the next sequence number; any other is dropped. |
| LanControllerClient.LanControllerClient.SampleSentLocked | packages/remote_controller_core/native/src/lan_controller_session.cpp:151-155 | State and timestamp of a sent sample are stored while the client runs. |
| LanControllerClient.LanControllerClient.OnDisconnectedLocked | packages/remote_controller_core/native/src/lan_controller_session.cpp:158-195 | Only a running client becomes disconnected, with a neutral snapshot. |
| LanControllerClient.LanControllerClient.StopLocked | packages/remote_controller_core/native/src/lan_controller_session.cpp:82-93 | Stops with a neutral snapshot and says whether the client was running; a second call changes nothing. |
| LanControllerClient.LanControllerClient.NumberNeutralLocked | packages/remote_controller_core/native/src/lan_controller_session.cpp:98-103 | The neutral frame gets the next sequence number. |
| InputReceiver.ServerInputLoop | packages/remote_controller_core/native/src/udp_lan_transport_backend.cpp:688-748 | Over anything `recvfrom` returns: the loop ends with a disconnect at the first error or oversized datagram; before it, a frame is delivered if and only if the client's address sent its encoding under this session with a number above zero and above all that came from there before; delivered numbers ascend, and every other datagram is counted as dropped. |
| InputReceiver.Heard | packages/remote_controller_core/native/src/udp_lan_transport_backend.cpp:703-713 | The turns before the first that ends the loop. |
| InputReceiver.HeardIff | packages/remote_controller_core/native/src/udp_lan_transport_backend.cpp:703-713 | The loop hears n turns if and only if none of them is an error or a datagram of more than 64 bytes. |
| InputReceiver.ReadingsAt | packages/remote_controller_core/native/src/udp_lan_transport_backend.cpp:715-728 | A frame is read in a turn if and only if the datagram is its encoding under this session and came from the client's address. |
| InputReceiver.DeliveredIff | packages/remote_controller_core/native/src/udp_lan_transport_backend.cpp:729-745 | A frame is delivered if and only if some turn brings it from the client's address with a number above zero and above all before. |
| InputReceiver.TurnOver | packages/remote_controller_core/native/src/udp_lan_transport_backend.cpp:729-734 | One turn keeps the delivered frames and the highest number what they should be. |
| InputReceiver.Receive | packages/remote_controller_core/native/src/udp_lan_transport_backend.cpp:715-745 | One turn delivers a frame if and only if the datagram came from the client's address, is the frame's encoding under this session, and has a number above the highest so far. |
| InputReceiver.BeatsIffHigher | packages/remote_controller_core/native/src/udp_lan_transport_backend.cpp:729-734 | Comparing with the stored highest number recognises exactly those packets. |
| InputReceiver.RecordsAscend | packages/remote_controller_core/native/src/udp_lan_transport_backend.cpp:729-734 | What is delivered ascends strictly, however often and in whatever order packets arrive. |
| InputReceiver.NewestIsDelivered | packages/remote_controller_core/native/src/udp_lan_transport_backend.cpp:729-734 | The greatest sequence that arrived is the last one delivered. |
| EndToEnd.FilterIsSound | packages/remote_controller_core/native/src/udp_lan_transport_backend.cpp:715-734 | Whatever is on the network, a packet that passes was sent by this client in this session and is read as it was sent. |
| EndToEnd.ServerShowsASubsequence | packages/remote_controller_core/native/src/lan_controller_session.cpp:324-344 | For every loss, duplication, reordering and foreign traffic: the accepted frames are a subsequence of the frames the client sent, in strictly ascending order, and the pad shows neutral or the last of them. |
| EndToEnd.SupersededNeverReturns | packages/remote_controller_core/native/src/lan_controller_session.cpp:326-338 | After a newer frame was accepted no report of an older frame is ever shown again. |
| EndToEnd.FreshPacketIsShown | packages/remote_controller_core/native/src/lan_controller_session.cpp:337-343 | While the session runs a packet that passes the filter is accepted and shown at once. |
| EndToEnd.SampleIsShown | packages/remote_controller_core/native/src/lan_controller_session.cpp:136-156 | Whatever state a connected client samples, the running server's pad shows it bit for bit, with its time, when the datagram is received; that it is newer than all received so far is proved. |
| EndToEnd.SentFrameIsShown | packages/remote_controller_core/native/src/lan_controller_session.cpp:324-344 | Every frame that left the client is shown when it is received before anything newer. |
| EndToEnd.FirstSampleArrives | packages/remote_controller_core/native/src/lan_controller_session.cpp:324-344 | A whole session, for every state sampled and any foreign packet: both sides start, the foreign packet changes nothing, and the server's pad shows the sample. |
| EndToEnd.SilenceIsReleased | packages/remote_controller_core/native/src/lan_controller_session.cpp:262-279 | The timed release holds whatever the network does. |
| EndToEnd.AscendingMembers | packages/remote_controller_core/native/src/udp_lan_transport_backend.cpp:729-734 | Ascending members of an ascending sequence form a subsequence of it. |
| EndToEnd.AcceptedIsPrefix | packages/remote_controller_core/native/src/lan_controller_session.cpp:337-342 | Acceptance is never taken back. |
| TransportLifecycle.CallbackAtMostOnce | packages/remote_controller_core/native/src/udp_lan_transport_backend.cpp:795-811 | The disconnect callback runs at most once. |
| TransportLifecycle.ConnectedAtMostOnce | packages/remote_controller_core/native/src/udp_lan_transport_backend.cpp:486-505 | `connected_` rises at most once in the life of a transport. |
| TransportLifecycle.StoppedIsDisconnected | packages/remote_controller_core/native/src/lan_controller_session.cpp:107-111 | Once a session's Stop has returned, `connected_` is false for ever, wherever Stop landed in the handshake. |
| TransportLifecycle.TransportStopAloneIsNotEnough | packages/remote_controller_core/native/src/udp_lan_transport_backend.cpp:750-771 | A concrete run: the transport's own Stop leaves `connected_` to be set behind it. |
| TransportLifecycle.ReconnectsIffAssigning | packages/remote_controller_core/native/src/udp_lan_transport_backend.cpp:355-369 | After the transport's own Stop the flag can rise again if and only if the starter is between its stop check and the assignment. |
| TransportLifecycle.Starts | packages/remote_controller_core/native/src/udp_lan_transport_backend.cpp:355-372 | A run in which nothing disturbs the start: running, connected, under the agreed id. |
| TransportLifecycle.StoppedStartFails | packages/remote_controller_core/native/src/udp_lan_transport_backend.cpp:486-492 | A starter that finds the stop request at either of its checks does not go on to run. |
| TransportLifecycle.StopCanReturn | packages/remote_controller_core/native/src/udp_lan_transport_backend.cpp:750-771 | No deadlock: wherever the starter is, Stop can return. |
| TransportLifecycle.StarterCleansUp | packages/remote_controller_core/native/src/udp_lan_transport_backend.cpp:225-231 | A starter that connected behind Stop's cleaning takes the flag back itself. |
| TransportLifecycle.GivesUp | packages/remote_controller_core/native/src/lan_controller_session.cpp:61-71 | A worker whose pad did not open leaves the transport stopped and disconnected. |
| TransportLifecycle.HandshakeMayFail | packages/remote_controller_core/native/src/udp_lan_transport_backend.cpp:317-360 | A run in which the handshake fails and nothing was ever connected. |
| TransportLifecycle.LossIsReported | packages/remote_controller_core/native/src/udp_lan_transport_backend.cpp:795-811 | From every connected transport that nobody stopped a run that disconnects it and calls the callback once. |
| TransportLifecycle.StoppedIsNotReported | packages/remote_controller_core/native/src/udp_lan_transport_backend.cpp:808-811 | Behind a stop request the callback is not called any more. |
| TransportLifecycle.ConnectedIsNumbered | packages/remote_controller_core/native/src/udp_lan_transport_backend.cpp:362-370 | A connected transport has the agreed session id if and only if it is not between the two stores. |
| TransportLifecycle.UdpLanTransportBackend.BeginStart | packages/remote_controller_core/native/src/udp_lan_transport_backend.cpp:216-219 | A transport that was stopped does not start. |
| TransportLifecycle.UdpLanTransportBackend.CheckStopRequested | packages/remote_controller_core/native/src/udp_lan_transport_backend.cpp:486-492 | The handshake goes on if and only if no stop was requested; a step of the system that keeps its invariant. |
| TransportLifecycle.UdpLanTransportBackend.MarkConnected | packages/remote_controller_core/native/src/udp_lan_transport_backend.cpp:494-502 | The step that connects: the first rise of `connected_` and the only one, keeping the invariant of every run. |
| TransportLifecycle.UdpLanTransportBackend.StoreSessionId | packages/remote_controller_core/native/src/udp_lan_transport_backend.cpp:503-503 | The step behind it: the id, unset until then, is the agreed one from here on. |
| TransportLifecycle.UdpLanTransportBackend.ClearConnected | packages/remote_controller_core/native/src/udp_lan_transport_backend.cpp:765-771 | For each thread that clears the flag, its step of the system; the invariant and the callback count are kept. |
| TransportLifecycle.UdpLanTransportBackend.ExchangeStop | packages/remote_controller_core/native/src/udp_lan_transport_backend.cpp:750-752 | Only the first stop of a connected transport sends a stop frame. |
| TransportLifecycle.UdpLanTransportBackend.ExchangeSignaled | packages/remote_controller_core/native/src/udp_lan_transport_backend.cpp:795-799 | The caller goes on if and only if nobody signalled before; the matching step of the system. |
| TransportLifecycle.UdpLanTransportBackend.MayCallBack | packages/remote_controller_core/native/src/udp_lan_transport_backend.cpp:808-810 | The callback is called unless a stop was requested, and if so for the first time ever. |
| Handshake.AcceptLoop | packages/remote_controller_core/native/src/udp_lan_transport_backend.cpp:426-464 | Over any attempts: picks the first well-formed HELLO with nonzero session and the expected key, answers each earlier well-formed wrong-key HELLO with an error frame of its session, drops the rest, fails on a failed accept. |
| Handshake.StartServerSockets | packages/remote_controller_core/native/src/udp_lan_transport_backend.cpp:426-505 | The session the server ends up with, and every answer it sent. |
| Handshake.Handled | packages/remote_controller_core/native/src/udp_lan_transport_backend.cpp:441-464 | The loop ends at the first attempt that decides it and looks at all before. |
| Handshake.ServerChoosesFirst | packages/remote_controller_core/native/src/udp_lan_transport_backend.cpp:426-505 | The server is connected to a session if and only if the first acceptable client asked for it, could be answered, and no Stop intervened. |
| Handshake.Agreement | packages/remote_controller_core/native/src/udp_lan_transport_backend.cpp:317-372 | Over every run with any number of honest clients, other connections and Stops: a connected client has the server's key and was acknowledged, no Stop having been requested when the server passed its check before that; the server keeps that client's session or has returned unconnected, the latter if and only if Stop was requested when the server came to the check behind the acknowledgement. |
| Handshake.StoppedServerAnswersNobody | packages/remote_controller_core/native/src/udp_lan_transport_backend.cpp:465-467 | A server that finds the stop request at the head of its loop or before the acknowledgement is unconnected for ever, acknowledges nobody, and no client is ever connected to it. |
| Handshake.ServerRunsTheCode | packages/remote_controller_core/native/src/udp_lan_transport_backend.cpp:426-505 | The step system's server ends with exactly what `StartServerSockets` returns for the attempts it looked at and what its two checks saw. |
| Handshake.ClientChecksStop | packages/remote_controller_core/native/src/udp_lan_transport_backend.cpp:355-360 | A client that has read its acknowledgement is connected, for ever, if and only if no stop was requested when it passed its last check. |
| Handshake.BothConnect | packages/remote_controller_core/native/src/udp_lan_transport_backend.cpp:426-505 | A run in which client and server connect to the same session. |
| Handshake.NobodyIsDeceivedWithoutStop | packages/remote_controller_core/native/src/udp_lan_transport_backend.cpp:473-492 | Without a Stop on the server its session is the connected client's. |
| Handshake.ServerHoldsAgreed | packages/remote_controller_core/native/src/udp_lan_transport_backend.cpp:494-505 | A server connected to an honest client has that client's session id and key, and never told it of a mismatch. |
| Handshake.AnswerTellsTheKey | packages/remote_controller_core/native/src/udp_lan_transport_backend.cpp:333-360 | A client that read an answer learns of a mismatch if and only if its key is wrong; with the right key it connects unless it was stopped. |
| HandshakeOutcomes.HandshakeMessages | packages/remote_controller_core/native/include/controller_protocol.h:38-45 | The hello is message 1 and carries the key, the acknowledgement message 2, the rejection message 6 with reason 1. |
| HandshakeOutcomes.AcceptableBytes | packages/remote_controller_core/native/src/udp_lan_transport_backend.cpp:441-449 | A connection is accepted if and only if its 32 bytes are a hello, with a session id that is not zero and the server's key. |
| HandshakeOutcomes.AnswerBytes | packages/remote_controller_core/native/src/udp_lan_transport_backend.cpp:441-478 | What each connection is answered, as a condition on the 32 bytes it sent and on the stop check. |
| HandshakeOutcomes.JudgedBytes | packages/remote_controller_core/native/src/udp_lan_transport_backend.cpp:333-354 | What a client makes of the 32 bytes it reads: accepted if and only if they are an acknowledgement of its session, a mismatch if they are the rejection. |
| HandshakeOutcomes.ServedClient | packages/remote_controller_core/native/src/udp_lan_transport_backend.cpp:441-464 | Whatever an honest client's hello turns out to be, what it is sent and where the server goes. |
| HandshakeOutcomes.OtherConnection | packages/remote_controller_core/native/src/udp_lan_transport_backend.cpp:426-464 | The same for every other connection, failed accept and timeout. |
| HandshakeOutcomes.ServesAnyone | packages/remote_controller_core/native/src/udp_lan_transport_backend.cpp:426-505 | Every acceptable connection is served to the end: the server holds its session, or is gone if it cannot answer. |
| HandshakeOutcomes.WrongKeyIsTold | packages/remote_controller_core/native/src/udp_lan_transport_backend.cpp:450-461 | A run in which a client with another key reads the reason and the server goes on listening. |
| HandshakeOutcomes.ClientFails | packages/remote_controller_core/native/src/udp_lan_transport_backend.cpp:317-332 | A client that waits may fail to read, and either side may be stopped at any time. |
| HandshakeOutcomes.StoppedClientFails | packages/remote_controller_core/native/src/udp_lan_transport_backend.cpp:355-360 | A run in which a client stopped behind its acknowledgement is not connected. |
| Handshake.OneClientConnects | packages/remote_controller_core/native/src/udp_lan_transport_backend.cpp:426-505 | Two honest clients of one server are never both connected. |
| Handshake.ClientOfAStoppedServer | packages/remote_controller_core/native/src/udp_lan_transport_backend.cpp:473-492 | A concrete run: the server returns unconnected and its client goes on to be connected. |
| Handshake.StepKeepsInvariant | packages/remote_controller_core/native/src/udp_lan_transport_backend.cpp:426-505 | Every step of server, client and Stop keeps what each client has been told in line with whom the server chose. |
| Framing.SendingSocket.SendAll | packages/remote_controller_core/native/src/udp_lan_transport_backend.cpp:53-64 | For every schedule of partial sends the wire grows by a prefix of the data, whole if and only if the result is true. |
| Framing.ReceivingSocket.ReceiveAll | packages/remote_controller_core/native/src/udp_lan_transport_backend.cpp:66-77 | For every schedule of partial reads the next bytes are consumed in order, all of them if and only if the result is true. |
| Framing.ReceivingSocket.ReceiveFrames | packages/remote_controller_core/native/src/udp_lan_transport_backend.cpp:666-671 | Repeated ReceiveAll reads a prefix of the stream's 32-byte packets, all of them or as many as there were reads unless a read fails. |
| Framing.WholeRecovered | packages/remote_controller_core/native/src/udp_lan_transport_backend.cpp:53-77 | If no bytes follow a partial send, 32-byte reads recover exactly the packets sent whole, in order. |
| Framing.AlignedIffNotTorn | packages/remote_controller_core/native/src/udp_lan_transport_backend.cpp:643-671 | Every packet starts on a packet boundary if and only if no bytes follow a partial send. |
| Framing.TornPairMisread | packages/remote_controller_core/native/src/udp_lan_transport_backend.cpp:666-671 | With one torn pair, packets are read as sent if and only if the pair does not amount to 32 bytes. |
| ControlStream.PeerReadsWhatWasSent | packages/remote_controller_core/native/src/udp_lan_transport_backend.cpp:750-763 | In every run of the two senders of a side, the packets the peer reads are exactly those sent whole, if and only if Stop's frame and a torn neighbour do not amount to 32 bytes; every frame is aligned if and only if Stop's frame meets no tear. |
| ControlStream.StopSendsIffConnected | packages/remote_controller_core/native/src/udp_lan_transport_backend.cpp:750-763 | Stop sends its frame if `connected_` was still set when it looked, and never if it was not. |
| ControlStream.LoopSends | packages/remote_controller_core/native/src/udp_lan_transport_backend.cpp:580-593 | Both kinds of loop put their frames on the wire under their session; behind a failed send the loop disconnects and ends. |
| ControlStream.EndedLoopIsSilent | packages/remote_controller_core/native/src/udp_lan_transport_backend.cpp:586-590 | A control loop that ended sends nothing more. |
| ControlStream.TornOnlyByStop | packages/remote_controller_core/native/src/udp_lan_transport_backend.cpp:586-590 | The control loop stops sending after a failed send, so only Stop's frame can tear the stream. |
| ControlStream.CompositeIsNotTheSecond | packages/remote_controller_core/native/src/udp_lan_transport_backend.cpp:98-106 | A frame never hides behind a torn frame of the other sender, wherever the tear is. |
| ControlStream.StopBehindATornFrame | packages/remote_controller_core/native/src/udp_lan_transport_backend.cpp:750-763 | A run for every frame and every tear: Stop read `connected_` before the failed send was signalled, and the peer reads one composite frame. |
| ControlBytes.ValidBytes | packages/remote_controller_core/native/src/udp_lan_transport_backend.cpp:98-106 | The frame check is a condition on the bytes 0 to 9 and 12 to 15 of the packet. |
| ControlBytes.ValidEncoded | packages/remote_controller_core/native/src/udp_lan_transport_backend.cpp:79-96 | The bytes of a frame that passes the check: head, session id and motors at their offsets. |
| ControlBytes.FrameLayout | packages/remote_controller_core/native/src/udp_lan_transport_backend.cpp:79-96 | What `MakeControlFrame` builds, byte by byte as numbers, for every type, session, sequence number, command and key. |
| ControlBytes.SessionMessages | packages/remote_controller_core/native/include/controller_protocol.h:38-45 | A heartbeat is message 3, a rumble command 4, the stop 5; session, count and motors are at their bytes. |
| TornFrame.TornFrameIsValidIff | packages/remote_controller_core/native/src/udp_lan_transport_backend.cpp:98-106 | What is read where a frame torn behind byte k meets another one passes the check if and only if it is checked as the first frame's type and k is at least 16, or between 10 and 15 with a session id that ends in the bytes that begin the second frame. It is never taken for the second frame. |
| TornFrame.TornMotorsAreRead | packages/remote_controller_core/native/src/udp_lan_transport_backend.cpp:605-614 | The motors read from a rumble frame torn by Stop's frame, for every k: those asked for from byte 28 on, otherwise the given bytes of Stop's frame in place of one to four motor bytes. |
| ClientControl.ClientControlLoop | packages/remote_controller_core/native/src/udp_lan_transport_backend.cpp:595-627 | The loop hands on the command of each packet until the first that is no rumble frame of the session, and goes on if and only if there is none. |
| ClientControl.ClientApplies | packages/remote_controller_core/native/src/udp_lan_transport_backend.cpp:595-627 | In every run of the server's two senders the client applies the commands of the frames that went out whole before Stop's frame began, and exactly one more if Stop's frame fills up a torn rumble frame whose head survives. |
| ClientControl.UnissuedCommandIff | packages/remote_controller_core/native/src/udp_lan_transport_backend.cpp:605-614 | The client applies motors that no frame of the server asked for if and only if the last rumble frame was torn at a byte k below 28 where its head survives, Stop's frame supplies at least 32 - k bytes, and the motors this gives differ from all those asked for. |
| ClientControl.TornRumbleInventsACommand | packages/remote_controller_core/native/src/udp_lan_transport_backend.cpp:750-763 | A run for every rumble frame and every tear that keeps the head: the one command the client applies is made of Stop's bytes. |
| RumbleMailbox.QuietMeansCurrent | packages/remote_controller_core/native/src/udp_lan_transport_backend.cpp:556-565 | A mailbox whose writers are done and whose reader has caught up has passed on the last value stored. |
| RumbleMailbox.StoreKeepsInvariant | packages/remote_controller_core/native/src/udp_lan_transport_backend.cpp:560-562 | A store by any writer at any time keeps the mailbox's invariant. |
| RumbleMailbox.BumpKeepsInvariant | packages/remote_controller_core/native/src/udp_lan_transport_backend.cpp:563-563 | So does counting it. |
| RumbleMailbox.LoadKeepsInvariant | packages/remote_controller_core/native/src/udp_lan_transport_backend.cpp:636-638 | So do the reader's two loads. |
| RumbleMailbox.EmitKeepsInvariant | packages/remote_controller_core/native/src/udp_lan_transport_backend.cpp:639-654 | So does passing the value on, which was stored before. |
| RumbleMailbox.UnpackPack32 | packages/remote_controller_core/native/src/udp_lan_transport_backend.cpp:639-642 | The two motors survive the packed slot. |
| RumbleMailbox.WidenIsExact | packages/remote_controller_core/native/src/vigem_virtual_controller_backend.cpp:281-297 | Multiplying by 257 maps 0..255 to 0..65535 in exact proportion and loses nothing. |
| RumbleMailbox.RumbleMailbox.Send | packages/remote_controller_core/native/src/sdl_input_backend.cpp:317-331 | Store and count, as the mailbox steps say. |
| RumbleMailbox.RumbleMailbox.Poll | packages/remote_controller_core/native/src/sdl_input_backend.cpp:372-377 | One pass of the reader: nothing if the generation is unchanged, else the slot's value, once. |
| RumbleChain.OpenPadAgrees | packages/remote_controller_core/native/src/sdl_input_backend.cpp:372-377 | Over both mailboxes and the stream: if the pad was open before the client took the last frame, and the session still runs when all is quiet with the poll loop on, the motors run the last accepted command. |
| RumbleChain.CommandArrives | packages/remote_controller_core/native/src/udp_lan_transport_backend.cpp:604-614 | From every quiet state with session and pad open, for every command: a run that ends quiet with the motors running that command, motor for motor. |
| RumbleChain.EndedSessionDropsCommand | packages/remote_controller_core/native/src/lan_controller_session.cpp:170-183 | From every quiet state a run in which an ended session drops the next command and the motors stay as they are. |
| RumbleChain.ClosedPadDropsCommand | packages/remote_controller_core/native/src/sdl_input_backend.cpp:317-331 | From every quiet state a run in which a closed pad drops it, its motors off. |
| RumbleChain.AgreesWhenQuiet | packages/remote_controller_core/native/src/sdl_input_backend.cpp:317-331 | When all is quiet the delivery passed to the motors last is that of the last accepted command if and only if, at the steps that checked some frame carrying it, the session ran and then the pad was open; the motors then run it. Motor values may coincide otherwise, when a command repeats an older one or is zero. |
| RumbleChain.MotorsWhenQuiet | packages/remote_controller_core/native/src/sdl_input_backend.cpp:372-377 | When all is quiet the motor values are those of the last frame whose checks found the session running and the pad open, and zero if there is no such frame. |
| RumbleChain.DroppedMetAClosedGate | packages/remote_controller_core/native/src/lan_controller_session.cpp:170-183 | Every frame that the client took and dropped met a session that did not run or a pad that was not open. |
| RumbleChain.EveryPairWasIssued | packages/remote_controller_core/native/src/udp_lan_transport_backend.cpp:604-614 | Every pair on the stream and every pair given to the motors is one issued command, never a mix of two. |
| RumbleChain.NeverGoesBack | packages/remote_controller_core/native/src/udp_lan_transport_backend.cpp:634-655 | Commands are passed on in the order they were issued; the motors never return to an older one. |
| RumbleChain.MotorsStayOff | packages/remote_controller_core/native/src/sdl_input_backend.cpp:386-386 | Once the poll loop has ended the motors are off for ever. |
| RumbleChain.CommandBeforeThePadOpensIsLost | packages/remote_controller_core/native/src/sdl_input_backend.cpp:320-325 | A concrete run: all is quiet, the pad is open, and the motors are off although a command was accepted. |
| Heartbeat.LiveClientIsNeverTimedOut | packages/remote_controller_core/native/src/udp_lan_transport_backend.cpp:573-593 | If period + client pass + delivery + server pass fit the timeout, no run times the client out. |
| Heartbeat.LiveIffBoundsFit | packages/remote_controller_core/native/src/udp_lan_transport_backend.cpp:633-675 | No run times out a live client if and only if the four delays exceed the timeout by at most one tick. |
| Heartbeat.LiveInMilliseconds | packages/remote_controller_core/native/src/udp_lan_transport_backend.cpp:21-22 | With the code's 1 s and 3 s, on a clock finer than a millisecond, no run times out a live client if and only if the other three delays take at most 2000 ms together. |
| Heartbeat.SilenceIsNoticed | packages/remote_controller_core/native/src/udp_lan_transport_backend.cpp:657-662 | Until the disconnect the last heartbeat was read at most a timeout and a server pass ago. |
| Heartbeat.TimePasses | packages/remote_controller_core/native/src/udp_lan_transport_backend.cpp:573-675 | From every state of every run the clock can go on. |
| Heartbeat.DeadClientIsTimedOut | packages/remote_controller_core/native/src/udp_lan_transport_backend.cpp:657-662 | From every state in which the client lives a run in which it dies and the server times it out. |
| Heartbeat.SilentClientIsDisconnected | packages/remote_controller_core/native/src/udp_lan_transport_backend.cpp:657-674 | A client that dies with n heartbeats unread is disconnected at most delivery + (n + 2) server passes + timeout later. |
| Heartbeat.BoundIsSharp | packages/remote_controller_core/native/src/udp_lan_transport_backend.cpp:657-662 | For all larger delays a run that times out a live client is constructed. |
| Heartbeat.StepKeepsInvariant | packages/remote_controller_core/native/src/udp_lan_transport_backend.cpp:573-675 | The oldest unread heartbeat always follows the last one read within period + pass. |
| LocalBridge.StopReleases | packages/remote_controller_core/native/src/local_controller_bridge.cpp:58-71 | In every interleaving the last report after Stop has returned is neutral, and none follows it. |
| LocalBridge.EndReleases | packages/remote_controller_core/native/src/local_controller_bridge.cpp:87-121 | After a failed submission or a disconnect of the running session the pad shows neutral whenever the poll thread is between callbacks or gone, from then on for ever and whatever Stop marks in between. |
| LocalBridge.OverIsReleased | packages/remote_controller_core/native/src/local_controller_bridge.cpp:42-56 | A disconnected or faulted session shows neutral while no callback runs, and so does one whose poll thread never ran once Start has returned. |
| LocalBridge.SnapshotAgrees | packages/remote_controller_core/native/src/local_controller_bridge.cpp:103-108 | Between callbacks a running session's snapshot is what the pad shows; one that is not running is neutral. |
| LocalBridge.SnapshotCounts | packages/remote_controller_core/native/src/local_controller_bridge.cpp:103-108 | Between callbacks a running session's snapshot has counted every sample the pad was given. |
| LocalBridge.SampleIsShown | packages/remote_controller_core/native/src/local_controller_bridge.cpp:75-109 | For every state of the physical pad: the three steps give the virtual pad exactly that state, and the snapshot shows, times and counts it. |
| LocalBridge.RefusedSampleFaults | packages/remote_controller_core/native/src/local_controller_bridge.cpp:84-99 | A state the virtual pad refuses ends the bridge as faulted with a neutral report. |
| LocalBridge.LostPadDisconnects | packages/remote_controller_core/native/src/local_controller_bridge.cpp:111-121 | A lost physical pad ends the bridge as disconnected with a neutral report. |
| LocalBridge.EndingsTellTheCause | packages/remote_controller_core/native/src/local_controller_bridge.cpp:43-119 | For every step of a running bridge: which of the three end states it leads to, if any. |
| LocalBridge.Stops | packages/remote_controller_core/native/src/local_controller_bridge.cpp:58-72 | From every sampling bridge a run in which Stop returns behind a neutral report. |
| LocalBridge.StopCanReturn | packages/remote_controller_core/native/src/local_controller_bridge.cpp:58-72 | No deadlock: from every state of every run of start, poll thread and Stop there is a continuation in which Stop returns. |
| LocalBridge.SecondStopChangesNothing | packages/remote_controller_core/native/src/local_controller_bridge.cpp:60-65 | A second Stop changes nothing. |
| LocalBridge.FailedStartFaults | packages/remote_controller_core/native/src/local_controller_bridge.cpp:21-56 | A pad that cannot be created or opened faults the bridge; a created one is released. |
| LocalBridge.SampleAfterStopIff | packages/remote_controller_core/native/src/local_controller_bridge.cpp:80-87 | From Stop's first section on another sample may reach the pad if and only if one has passed its check. |
| LocalBridge.ReportAfterStopWasMarked | packages/remote_controller_core/native/src/local_controller_bridge.cpp:80-87 | A concrete run: a report reaches the pad after Stop has set the state. |
| LocalControllerBridge.LocalControllerBridge.BeginRunningSection | packages/remote_controller_core/native/src/local_controller_bridge.cpp:38-41 | The step to kRunning. |
| LocalControllerBridge.LocalControllerBridge.OpenFailedLocked | packages/remote_controller_core/native/src/local_controller_bridge.cpp:46-50 | Faulted, with a neutral snapshot. |
| LocalControllerBridge.LocalControllerBridge.RecordLocked | packages/remote_controller_core/native/src/local_controller_bridge.cpp:103-108 | Stores and counts a sample only while running. |
| LocalControllerBridge.LocalControllerBridge.FaultLocked | packages/remote_controller_core/native/src/local_controller_bridge.cpp:88-94 | Only a running bridge becomes faulted. |
| LocalControllerBridge.LocalControllerBridge.OnDisconnectedLocked | packages/remote_controller_core/native/src/local_controller_bridge.cpp:111-119 | Only a running bridge becomes disconnected and has to be released. |
| LocalControllerBridge.LocalControllerBridge.StopLocked | packages/remote_controller_core/native/src/local_controller_bridge.cpp:58-66 | Stops with a neutral snapshot; a second call changes nothing. |

## Left out

- Socket creation, name resolution, connect timeout, Winsock errors and error texts: operating-system I/O, present only as steps that succeed or fail.
- Handles: which thread closes which socket is not modelled, only `connected_`.
- SDL and ViGEm: the pad is a source of samples, the virtual pad a recorder of reports whose answers are arbitrary.
- `ToXusbReport`: the button constants of the report are declared in a ViGEm header that is not part of this model.
- The 1000 ms duration of an SDL rumble, after which SDL itself stops the motors.
- The snapshot copies of the rumble motors and their counters in the session classes, and the packet counters other than the dropped packets of the datagram loop.
- `SdlInputBackend::Open`, device enumeration and the reading of buttons: calls into SDL.
- `InputCapture` folds minima and maxima of samples for a display, the memory virtual pad stores one report, and the C interface, the Dart packages, the installer and the user interface copy fields between layers; none of them takes part in the protocols above.
- Encryption and authentication: the code claims none.
- What the network and the user do is guarded loosely: a connection may be lost, or Stop be called, in more states than the code can reach, and the theorems hold of those runs, too.
- Handshake.Agreement: a frame arrives whole or not at all; `ControlStream` treats the bytes below it.
- SessionWatchdog.TimedSafeRelease: the transport of `Session::Start` cannot fail in this model, as the loopback transport of a new session does not.
- InputReceiver.ServerInputLoop: what `recvfrom` answers to an oversized datagram is Winsock's error; a stack that cut the datagram to the buffer instead is not modelled.
- RumbleChain.AgreesWhenQuiet: says what holds when all is quiet, not that a run becomes quiet, since the scheduler is arbitrary.
- Heartbeat.LiveClientIsNeverTimedOut: covers the time in which both control loops run; how long the worker of a client takes from the handshake to its loop enters only through the assumption on the first heartbeat.
