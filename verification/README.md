# wlrdp: streaming session, worker registry, clipboard

wlrdp serves a Wayland desktop over RDP. A daemon keeps at most one worker process per user and hands
accepted connections to it over a socket pair; the worker captures the desktop, encodes it and sends the
frames over the RDP graphics pipeline (MS-RDPEGFX). This project models the parts of wlrdp that keep state
or compute something of their own, and proves what they promise over every run.

## How the model is built

The C code changes structs in place, so each struct is a class whose methods follow the C functions branch
by branch: `Encoders.Encoder` (`struct wlrdp_encoder`), `Peers.PeerContext` (`struct wlrdp_peer_context`),
`Servers.Server` (`struct wlrdp_server`), `SessionRegistry.SessionManager` (`struct wlrdp_session_mgr`),
`IpcCodec.IpcMsg` and `IpcCodec.Channel`, `ClipboardEcho.Clipboard`. Every method is proved equal to a
function on snapshots (`EncoderSpec`, `PeerSpec`, `SessionSpec`, `SessionRegistry`, `ClipboardEcho`), and
the theorems are about those functions and the runs made of them. A run is any sequence of events that the
outside world can produce (`SessionSpec.Enabled`), starting from the worker's initial state.

FreeRDP, Wayland, the codecs, the clock, the heap and the kernel appear only through what they answer: each
call is a parameter (`SurfaceOutcome`, `SendOutcome`, `CodecInit`, `EncodeOutcome`, `VcmPoll`, ...) over
which every statement quantifies. Ghost records say what happened: `wire` is
everything handed to FreeRDP for one client, `live` counts the codec objects, region arrays and channel contexts
allocated and not freed, `sockets` counts the peer sockets received and closed.

| file | what it covers |
|---|---|
| `Options.dfy` | the Option type |
| `Words.dfy` | 32-bit conversions, rounding up to 16, words in memory order |
| `PacingFilter.dfy` | the frame interval as a low-pass filter |
| `CapsNegotiation.dfy` | choosing the codec from the client's capability sets |
| `Avc444Framing.dfy` | the length field that separates the two streams of an AVC444 frame |
| `SessionTypes.dfy`, `EncoderSpec.dfy`, `PeerSpec.dfy`, `SessionSpec.dfy` | values and step functions of the worker |
| `Encoders.dfy`, `Peers.dfy`, `Servers.dfy` | the same operations in place, proved against the step functions |
| `WireTrace.dfy`, `PeerInvariant.dfy` | well-formed graphics traffic; the life cycle of the channels and their contexts |
| `PeerContents.dfy`, `EncoderContents.dfy` | what each peer and encoder operation sends and reports, field by field |
| `WireHistory.dfy`, `PacingRuns.dfy` | over whole runs: where each PDU comes from; the interval as the filter of the frames sent |
| `SurfaceFit.dfy` | whether frames go to a surface of the present size |
| `FailingRuns.dfy` | complete runs that reach the failing side of a theorem |
| `SessionInvariants.dfy`, `SessionTheorems.dfy` | what every step keeps; what holds in every reachable state |
| `CodecAgreement.dfy` | when a frame's codec tag is true, over whole runs, and when it is not |
| `IpcCodec.dfy`, `Handover.dfy` | the datagram format; sockets moving from daemon to worker |
| `SessionRegistry.dfy`, `RegistryRefinement.dfy` | the 50-slot table and the map it implements |
| `RegistryStability.dfy` | how long a slot lasts and is found again |
| `RegistryOwners.dfy` | whose worker a login is handed, for names of any length |
| `ClipboardTransfer.dfy`, `ClipboardEcho.dfy` | the pipe loops; the echo-suppression flag |

## Where the code does not do what one would expect

Each of these is a theorem with an exact condition. Where the condition is one on histories, a lemma names one
that fails it:

- A codec that does not come up is replaced by the raw encoder, but the peer goes on tagging frames with the
  negotiated codec. `CodecAgreement.StartMislabelsExactly` says exactly when a stream can mislabel from its
  start; `CodecAgreement.FallbackMislabels` is a complete run from process start that puts such a frame on the
  wire. The same happens to the NSCodec fallback, but not in AVC420 mode, where a raw frame has no regions and
  is dropped.
- Capabilities advertised again during a stream change the send mode without a new encoder
  (`CodecAgreement.ReadvertiseKeepsExactly`); in `FailingRuns.ReadvertisementMislabels` an H.264 frame goes out
  tagged Progressive.
- A first advertisement whose confirmation is refused leaves the channel open but not ready. The client then
  waits for its stream for as long as it stays, until one is confirmed
  (`PeerInvariant.FirstAdvertisementExactly`, `SessionTheorems.StartsExactly`,
  `SessionTheorems.StrandedUntilConfirmed`, and the run of `FailingRuns.RefusedConfirmationStrands`).
- If the graphics channel does not open, the next poll opens all channels again, and loses the contexts of
  those that had opened (`SessionTheorems.ChannelLeaksExactly`, `PeerInvariant.PollOpensOnceExactly`, and the run
  of `FailingRuns.RepeatedPollLeaks`).
- A resize whose new surface cannot be set up goes unnoticed: frames still go to surface 1
  (`SurfaceFit.SurfaceFitsExactly`, and the run of `FailingRuns.FailedResizeGoesUnnoticed`).
- Rounding a requested dimension above 0xFFFF_FFF0 wraps to 0 (`Words.AlignUp16IsLeastMultiple`,
  `SessionTheorems.PointerInsideExactly`).
- A stream whose last outstanding capture fails is never resumed, however long it lasts
  (`SessionTheorems.StallsExactly`, `SessionTheorems.StallsForGood`, and the run of
  `FailingRuns.FailedCaptureStalls`).
- A user name of 64 characters or more is stored truncated and never found again, and it can get in the way of
  the user whose name is the stored part (`RegistryStability.RepeatedGetExactly`,
  `RegistryStability.NamesakeGetsInTheWay`); the worker is handed to that user
  (`RegistryOwners.HandedOwnWorkerExactly`, `RegistryOwners.StoredPrefixIsHandedOver`).
- A datagram shorter than its declared payload is accepted, and one longer loses its tail
  (`IpcCodec.EncodeInvertsDecodeExactly`, `IpcCodec.ShortDatagramIsAccepted`).
- The AVC444 length is computed and handed over as 32 bits, and the protocol's layout has room for 30
  (`Avc444Framing.LengthFieldExactly`, `Avc444Framing.FramingRoundTrip`).
- A selection that overtakes the worker's own is not announced, and the own one is, in its place:
  RDP hears of exactly the foreign texts if and only if the flag is up at exactly the reads of own texts
  (`ClipboardEcho.AnnouncesForeignExactly`, and the history of `ClipboardEcho.OvertakenSelectionEchoes`).
- The daemon is told of a disconnection before every new client, even if there was none before
  (`SessionTheorems.ReportsExactly`).
- The second and third start conditions of the main loop never fire within an iteration: the first covers
  them (`Servers.Server.StartIfReady` proves both branches dead).

## Hypotheses

- FreeRDP callbacks are atomic steps between the steps of the main loop; races between its channel threads
  and the loop are not modelled.
- PostConnect comes once per peer, before its first activation, and finds no channel manager. The NSCodec
  setting may change whenever the client activates.
- A peer object owns its socket from `freerdp_peer_new` on, and freeing it closes the socket.
- Capability advertisements arrive only while the graphics channel's context exists.
- The clock is monotone and its readings fit 64 bits. The compositor answers a capture request at most once.
- The daemon attaches sockets to nothing but new-client messages, and a failed receive yields no socket.
- For the registry's refinement of a map: process ids and descriptors handed out by the kernel are not those of
  active slots, and names are shorter than 64 characters.
- Words are copied in little-endian order.

## Model

| member | source | states |
|---|---|---|
| SessionInvariants.StepKeepsInv | src/session/main.c:143-403 | every single event, with any answer of the libraries, keeps life cycle, wire, streaming, sizes, captures, pacing and socket accounting together |
| SessionInvariants.RunKeepsInv | src/session/main.c:674-773 | hence every run of events keeps them |
| SessionSpec.IterationIsRun | src/session/main.c:721-772 | one loop iteration, with whatever callbacks its two polls deliver, the descriptor it comes to watch and its early exits, is a feasible run of events, so what holds over runs holds over loops |
| SessionTheorems.WireIsWellFormed | src/session/rdp_peer.c:847-1010 | in every reachable state every surface command follows its own accepted frame start, addresses a surface for which a creation and a mapping were accepted before, and is followed by that frame's end once accepted; no surface is ever deleted although three places call the clean-up |
| SurfaceFit.SurfaceFitsExactly | src/session/rdp_peer.c:1091-1102 | after every run, a ready client's surface was created and mapped at the client's size after the last reset, exactly when the last set-up of the run succeeded |
| SurfaceFit.StepFits | src/session/rdp_peer.c:209-256 | the same, step by step: only a confirmed first advertisement and a resize of a ready client set up a surface |
| FailingRuns.FailedResizeGoesUnnoticed | src/session/rdp_peer.c:1091-1102 | a complete run after which a ready client's surface is not the one of its size |
| WireTrace.ConsecutiveFrameIds | src/session/rdp_peer.c:863-865 | in any well-formed trace consecutive frame ids differ by exactly one modulo 2^32 |
| WireTrace.AppendFrame | src/session/rdp_peer.c:863-895 | appending one frame, cut off wherever a send fails, keeps a trace well formed and counts as one frame |
| PeerInvariant.CapsAdvertiseKeeps | src/session/rdp_peer.c:120-142 | every advertisement keeps flags, handles, contexts and wire consistent, and never loses readiness |
| PeerInvariant.FirstAdvertisementExactly | src/session/rdp_peer.c:120-142 | a first advertisement ends in one of three ways, each with its exact condition: ready, shut down completely, or half open when the confirmation is refused |
| PeerInvariant.CheckVcmKeeps | src/session/rdp_peer.c:790-845 | polling keeps the life cycle and the account of contexts; clean-up there never has a surface to delete; a ready channel is untouched; a fatal answer only occurs on an open channel |
| PeerInvariant.PollOpensOnceExactly | src/session/rdp_peer.c:822-841 | after a poll that opened the channels no later poll can open one twice, exactly when the graphics channel opened or none of the others is open |
| PeerInvariant.UpdateSizeKeeps | src/session/rdp_peer.c:1091-1102 | a new surface on resize keeps the invariant even when its creation fails halfway |
| PeerInvariant.SendFrameKeeps | src/session/rdp_peer.c:1047-1081 | every send path, failing at any PDU, keeps the peer invariant |
| SessionTheorems.ReadinessLasts | src/session/rdp_peer.c:258-307 | over every run in which the client is neither lost nor replaced, a ready channel stays ready, with its context and its channel manager |
| SessionTheorems.StartsExactly | src/session/main.c:735-771 | for an activated client without a stream, pumping and starting begins one exactly without a channel manager, with a ready channel and a good poll, or after a failed handshake |
| SessionTheorems.IterationLosesExactly | src/session/main.c:725-740 | one loop iteration, with any callbacks in both polls, loses the client exactly if the poll of its socket is fatal or that of channels that were open |
| SessionTheorems.IterationStartsExactly | src/session/main.c:735-771 | it starts a stream, for an activated client without one, exactly without a channel manager, with a ready channel and a good poll, or after a failed handshake |
| SessionTheorems.PumpLosesExactly | src/session/rdp_peer.c:798-800 | the poll of open channels is fatal exactly if it fails, even if a callback in it shuts them down |
| SessionTheorems.StrandedStepExactly | src/session/rdp_peer.c:120-122 | a client whose channel is half open stays so through every event but a confirmed advertisement, which always ends it |
| SessionTheorems.StrandedUntilConfirmed | src/session/main.c:742-771 | over every run without one it never gets a stream |
| FailingRuns.RefusedConfirmationStrands | src/session/rdp_peer.c:120-122 | a complete run that strands an activated client |
| SessionTheorems.ChannelLeaksExactly | src/session/rdp_peer.c:822-841 | while a client stays, a step loses a channel context exactly when it is a poll that opens a display, clipboard or sound channel which is still open |
| FailingRuns.RepeatedPollLeaks | src/session/rdp_peer.c:822-841 | a complete run that loses a display channel context |
| SessionTheorems.CodecResourcesAccounted | src/session/main.c:74-128 | in every reachable state exactly the context of the encoder's mode is live, at most one conversion buffer, exactly the region arrays of the last frame, nothing without a stream, and nothing was freed twice |
| EncoderSpec.InitSoundIffNothingLive | src/session/encoder.c:286-306 | initialising, which zeroes the struct without freeing, is sound exactly when no earlier encoder is live |
| EncoderSpec.DestroyFreesAll | src/session/encoder.c:334-351 | destroying a sound encoder returns every resource exactly once |
| EncoderSpec.EncodeKeepsSound | src/session/encoder.c:309-322 | encoding, successful or not, keeps mode, version, size and the account of resources; only H.264 leaves region metadata |
| EncoderContents.RawFrameIsRows | src/session/encoder.c:31-59 | a raw frame has as many bytes as its rows, each rounded up to whole bytes, no second stream, and a buffer that holds it, as long as 32 bits hold the numbers |
| EncoderContents.RawFrameBytes | src/session/encoder.c:31-59 | with k bytes to a pixel that is width times height times k |
| EncoderContents.ConversionExactly | src/session/encoder.c:31-137 | when the conversion of a raw or NSCodec picture succeeds, and how the buffer grows |
| EncoderContents.CodecFrame | src/session/encoder.c:102-283 | the other codecs report their own lengths and regions, and a second stream only AVC444 has |
| EncoderContents.CodecAnswersExactly | src/session/encoder.c:184-283 | when the other codecs succeed, and what a failure leaves |
| EncoderContents.InitExactly | src/session/encoder.c:286-306 | the wanted mode exactly if all that it needs came up, and raw otherwise |
| SessionInvariants.InitEncoderEffect | src/session/main.c:74-141 | reinitialising leaves one encoder of the server's size and no resource of the previous one |
| SessionTheorems.AllSizesEqual | src/session/main.c:193-232 | after any history server, pointer extents, client and running encoder hold the same size |
| SessionTheorems.EncoderHasClientsDepth | src/session/main.c:84-121 | in every reachable state with a stream the encoder has the colour depth that its client negotiated |
| SessionTheorems.RepeatedResizeIsNoOp | src/session/main.c:203-207 | asking again for the same size, or for the size that was adopted for it, changes nothing, whatever the libraries answer |
| Words.AlignUp16IsLeastMultiple | src/session/main.c:203-204 | rounding yields the least multiple of 16 not below the request, exactly when the addition does not wrap |
| SessionTheorems.PointerInsideExactly | src/session/input.c:187-199 | all pointer positions inside the requested size lie inside the extents, exactly when neither dimension wraps |
| SessionTheorems.StreamNeverStalls | src/session/main.c:143-191 | if every capture request can be made and is answered with a frame, an active stream always has one outstanding, and never more than streams were started |
| SessionTheorems.CapturesAfterStep | src/session/capture.c:117-140 | during a stream a step lowers the number of outstanding captures exactly if the capture failed or could not be requested again |
| SessionTheorems.StallsExactly | src/session/capture.c:133-140 | exactly which steps leave a stream without outstanding capture |
| SessionTheorems.CapturesAfterRun | src/session/capture.c:117-140 | over every run in which the stream lasts, the outstanding captures go down by exactly those that failed or could not be requested again |
| SessionTheorems.StallsForGood | src/session/capture.c:133-140 | over every such run the stream has stalled in the end exactly when as many were lost as were outstanding; a stalled stream stays so however long it lasts |
| FailingRuns.FailedCaptureStalls | src/session/capture.c:133-140 | a run whose stream is active with nothing outstanding |
| SessionTheorems.SendRateBounded | src/session/main.c:152-188 | over every run and reconnect each frame starts at least the stored interval after the previous send ended, and any window of W ms holds at most W/16 + 1 frame starts |
| SessionTheorems.WindowBound | src/session/main.c:153-156 | the counting argument for any spaced sequence of sends |
| SessionTheorems.PeerSocketsConserved | src/session/main.c:251-403 | every peer socket received is closed or owned by the current client, as often as it was received |
| CodecAgreement.AgreementExactly | src/session/rdp_peer.c:1047-1081 | no frame can be mislabelled, under any answer of codec and channel, exactly when the encoder is aligned with the effective send mode or can produce nothing |
| CodecAgreement.InitAlignsExactly | src/session/main.c:92-121 | an initialisation aligns the encoder exactly when the wanted codec came up or the mode is AVC420 |
| CodecAgreement.ReadvertiseKeepsExactly | src/session/rdp_peer.c:92-118 | a second advertisement keeps the running encoder aligned exactly when it names the same mode, or AVC420 while no H.264 encoder runs |
| FailingRuns.ReadvertisementMislabels | src/session/rdp_peer.c:92-118 | a complete run after which an H.264 frame tagged Progressive is on the wire |
| CodecAgreement.StepAgreesExactly | src/session/main.c:74-191 | from a state in which encoder and send mode agree, a step leads to such a state exactly when it is steady: each (re)initialisation gets its codec, a mode advertised anew fits the running encoder, NSCodec does not change under frames that use it |
| CodecAgreement.EveryFrameAgrees | src/session/rdp_peer.c:766-773 | over every run from process start, across connects, resizes, reactivations and advertisements, encoder and send mode agree at every moment exactly when all steps are steady, and then every frame's tag matches the mode and AVC444 version that produced its bytes |
| CodecAgreement.UnsteadyStepMisaligns | src/session/main.c:120-121 | the first step that is not steady leaves a running stream, nothing mislabelled yet, whose encoder does not fit its send mode |
| CodecAgreement.MisalignedStreamMislabelsExactly | src/session/main.c:143-178 | in such a stream with a capture outstanding, some answer to the capture puts a mislabelled frame on the wire, exactly unless the raw picture is empty |
| CodecAgreement.CaptureIsPicture | src/session/main.c:152-178 | a captured picture that is due goes through encoder and peer, and one that comes early leaves the wire alone |
| CodecAgreement.StartMislabelsExactly | src/session/encoder.c:286-306 | a fresh stream can mislabel exactly when the wanted codec did not come up, the mode is not AVC420 and the raw picture is not empty |
| CodecAgreement.FallbackMislabels | src/session/encoder.c:300-305 | a complete run from process start after which a raw frame tagged AVC444 is on the wire |
| PacingFilter.Target | src/session/main.c:181-184 | the target lies in [16,100] for every encode time, wrap-around of the doubling included |
| PacingFilter.TargetExactly | src/session/main.c:181-184 | twice the encode time from 8 to 50 ms, 16 below and 100 above, up to 2^31 ms |
| PacingFilter.TargetWraps | src/session/main.c:182 | beyond that the doubled time wraps at 32 bits |
| PacingFilter.StaysInBand | src/session/main.c:182-187 | the interval stays in [16,100] for any sequence of targets |
| PacingFilter.OrderAndGap | src/session/main.c:187 | two runs with the same targets keep their order, and their distance is bounded by a recurrence on the first distance alone |
| PacingFilter.ForgetsItsStart | src/session/main.c:187 | after 13 frames the start matters by at most 3 ms |
| PacingFilter.RestPoints | src/session/main.c:187 | under target t the interval rests exactly at t-3 to t |
| PacingFilter.SettlesFromBelow | src/session/main.c:187 | from below it never overshoots and is within 3 of the target after 13 frames |
| PacingFilter.SettlesFromAbove | src/session/main.c:187 | from above it reaches the target itself within 13 frames |
| PacingRuns.IntervalIsFilter | src/session/main.c:152-188 | after every run the interval is the default filtered with the targets of the frames sent since the last stream started |
| PacingRuns.IntervalStep | src/session/main.c:179-187 | each event: three quarters of the old interval and a quarter of the target for a frame sent, the default for a stream started, and otherwise no change |
| PacingRuns.StreamsForgetTheirStart | src/session/main.c:187 | two streams whose frames have the same targets: after 13 frames their intervals differ by at most 3 ms |
| PacingRuns.StreamSettles | src/session/main.c:187 | a stream whose frames have one target t: after 13 frames the interval is in t-3 to t, and t itself from above |
| CapsNegotiation.Negotiate | src/session/rdp_peer.c:52-85 | the scan returns the first set of maximal rank |
| CapsNegotiation.ConfirmedSetSupportsMode | src/session/rdp_peer.c:87-118 | the confirmed set supports the chosen mode |
| CapsNegotiation.OrderOfSetsIsIrrelevant | src/session/rdp_peer.c:55-80 | the mode does not depend on the order in which the sets are advertised |
| CapsNegotiation.MoreSetsNeverLower | src/session/rdp_peer.c:55-80 | advertising more sets never lowers the rank |
| CapsNegotiation.Avc444Exactly | src/session/rdp_peer.c:59-68 | AVC444 is chosen exactly if the client is not Apple's and some set of version 10 or later leaves AVC enabled |
| CapsNegotiation.ModeExactly | src/session/rdp_peer.c:55-118 | the mode by what is offered, for each of the five modes |
| Avc444Framing.LengthFieldExactly | src/session/rdp_peer.c:912-925 | the 32-bit length that the code hands over is the size of the first serialised stream exactly when that is below 2^32 |
| Avc444Framing.FramingRoundTrip | src/session/rdp_peer.c:912-931 | with the 30 bits that the protocol's layout gives the length, parsing undoes serialising for every pair of streams exactly when the first one is below 2^30 bytes |
| Avc444Framing.HeaderIsSize | src/session/rdp_peer.c:912-925 | 4 + 10n + length is the size of the first serialised stream as long as it fits the layout's field, and a longer stream's field is too small |
| Encoders.Encoder.Init | src/session/encoder.c:286-306 | sets every field, brings up the wanted codec or falls back to raw, and accounts for every allocation |
| Encoders.Encoder.Encode | src/session/encoder.c:309-322 | dispatches on the mode; outputs, metadata and conversion buffer after success and after each failure |
| Encoders.Encoder.Destroy | src/session/encoder.c:334-351 | frees exactly what is live and leaves a zeroed encoder |
| Peers.PeerContext.CapsAdvertise | src/session/rdp_peer.c:32-143 | new mode, confirmation, surface set-up and, if that fails, complete clean-up |
| Peers.PeerContext.GfxCreateSurface | src/session/rdp_peer.c:209-256 | the PDUs of a surface set-up that can fail at two places; the surface id only on success |
| Peers.PeerContext.GfxCleanup | src/session/rdp_peer.c:258-307 | which surface is deleted, which channel contexts are freed, and which handles and flags are cleared, depending on what was open |
| Peers.PeerContext.CheckVcm | src/session/rdp_peer.c:790-845 | new state and verdict in every phase of the handshake, all channels included |
| PeerInvariant.FramesFollowReportedMode | src/session/rdp_peer.c:1047-1081 | whatever a frame puts on the wire goes by the mode that `rdp_peer_get_send_mode` reports: graphics commands or bitmaps, and under that mode's tag |
| PeerContents.FrameContents | src/session/rdp_peer.c:847-1081 | for every send path: which PDUs go out in which order, each command with the frame's width as right edge, its height as bottom edge, the peer's surface, the mode's tag, the producer of the bytes and their length (of both streams modulo 2^32 in the AVC444 modes); nothing exactly if there is no picture; success is reported exactly if all of it was accepted |
| PeerContents.AdvertisementIsConfirmed | src/session/rdp_peer.c:87-120 | an advertisement is answered first by confirming, of the sets advertised, the first of maximal rank; it offers the mode in which a ready peer then sends |
| PeerContents.AdvertisementContents | src/session/rdp_peer.c:120-142 | after the confirmation there is at most a surface set-up, of the peer's size |
| PeerContents.SurfaceContents | src/session/rdp_peer.c:209-256 | reset, creation and, only after it was accepted, mapping, of the size asked for; the surface id only after both |
| PeerContents.SizeContents | src/session/rdp_peer.c:1091-1102 | a new size reaches the wire exactly on a ready channel, as a surface set-up of that size |
| PeerContents.PollOpensExactly | src/session/rdp_peer.c:790-845 | which channels a poll opens, when it closes everything, when it changes nothing, and when it is fatal |
| PeerContents.ConnectedExactly | src/session/rdp_peer.c:594-638 | when there is a channel manager after connecting, and the pixel depth |
| WireHistory.PictureExactly | src/session/main.c:143-191 | a captured picture adds the PDUs that describe what the encoder made of it if it is due, was encoded and has bytes, and otherwise leaves the wire alone |
| WireHistory.WireIsExplained | src/session/rdp_peer.c:32-1081 | over every run from process start, each PDU on the client's wire was put there by an event of the run and says what that event has to say: a frame that of its capture (size, surface, tag, producer, lengths, id), a confirmation the first set of maximal rank of its advertisement, a surface set-up the client's size |
| Peers.PeerContext.SendGfxAvc444 | src/session/rdp_peer.c:898-967 | one frame of start, command and end with the next id, cut off at the first failure; nothing for an empty picture; and whether all of it was accepted |
| Peers.PeerContext.SendFrame | src/session/rdp_peer.c:1047-1081 | exactly which PDUs go out, with which tag, in each mode, and what is reported back |
| Peers.PeerContext.PostConnect | src/session/rdp_peer.c:594-638 | pixel depth and channel manager as negotiated |
| Peers.PeerContext.UpdateSize | src/session/rdp_peer.c:1091-1102 | new size, and a new surface on a ready channel only |
| Servers.Server.InitEncoderForClient | src/session/main.c:74-141 | the encoder that the client's effective mode calls for, after the old one is gone |
| Servers.Server.OnFrameReady | src/session/main.c:143-191 | skips, drops or sends the frame, updates the pacing only after a send, and asks for the next capture on every active path |
| Servers.Server.FrameReady | src/session/capture.c:117-131 | an answered capture keeps the whole invariant and is the run step of the same name |
| Servers.Server.OnPeerResize | src/session/main.c:193-232 | the new state after a size request: rounding, server, client, extents, and an existing encoder made anew |
| Servers.Server.OnDesktopResize | src/session/rdp_peer.c:549-568 | a size request from the client is the run step of that name and keeps the invariant |
| Servers.Server.DisconnectClient | src/session/main.c:251-280 | descriptor no longer watched, socket closed, stream ended, encoder destroyed, daemon told |
| Servers.Server.WatchChannels | src/session/main.c:417-428 | the descriptor that the channel manager names is watched, if there is one |
| SessionTheorems.WatchedOnlyWithClient | src/session/main.c:705-711 | in every reachable state in which the loop watches a channel manager's descriptor there is a client to poll |
| SessionTheorems.WatchesExactly | src/session/main.c:417-428 | which descriptor each event leaves watched |
| SessionTheorems.StoppedExactly | src/session/main.c:287-297 | over every run, the worker has been told to end exactly when a receive from the daemon failed or carried a shutdown |
| SessionTheorems.ReportsExactly | src/session/main.c:271-279 | a worker reports a disconnection exactly when its client is lost or another takes over, and each once |
| Servers.Server.AcceptIpcClient | src/session/main.c:282-353 | what one message, or a dead channel, does to the worker, through the codec below; it reports success exactly for a new client that could be set up |
| Servers.Server.OnPeerAccepted | src/session/main.c:355-403 | a second client is refused; set-up failures close the socket; success is reported exactly if there is a client afterwards |
| Servers.Server.StartIfReady | src/session/main.c:742-771 | a stream starts exactly for an activated client whose channel is absent or ready; the later two conditions are dead |
| Servers.Server.LoopTail | src/session/main.c:721-772 | one iteration, callbacks of both polls included, keeps the invariant and is a run of events |
| Servers.Server.Deliver | src/session/main.c:725-740 | the callbacks of one poll, in order, are a run of events and keep client and invariant |
| Servers.Server.OnActivate | src/session/rdp_peer.c:640-680 | activation resizes only if the client's size differs |
| Servers.Server.OnDispMonitorLayout | src/session/rdp_peer.c:311-334 | only the first monitor counts; none means no resize |
| Servers.Server.OnRemoteMonitors | src/session/rdp_peer.c:570-592 | the size of the first monitor's inclusive rectangle, in 32-bit arithmetic |
| IpcCodec.DecodeInvertsEncode | src/common/ipc.c:54-107 | receiving after sending returns type, length, payload and descriptor |
| IpcCodec.DatagramLayout | src/common/ipc.c:9-16 | type, length and payload in this order, words with the least significant byte first |
| IpcCodec.DecodesExactly | src/common/ipc.c:78-104 | what a receiver makes of every datagram, from its bytes |
| IpcCodec.EncodeInvertsDecodeExactly | src/common/ipc.c:82-104 | an accepted datagram re-encodes to itself exactly when it is complete and nothing follows its payload |
| IpcCodec.ShortDatagramIsAccepted | src/common/ipc.c:82-97 | a header alone that announces a payload is accepted without one |
| IpcCodec.ChannelDeliversInOrder | src/common/ipc.c:7-107 | however sends, failed sends and receives into one reused message interleave, what was received is what was sent, in order, up to what is still in the channel; the message's array holds the last payload over the remains of the earlier ones |
| IpcCodec.LastToReach | src/common/ipc.c:95-97 | byte by byte, that array holds the byte of the last message long enough to reach the place |
| IpcCodec.SendMsg | src/common/ipc.c:7-52 | the buffer filled word by word is the encoded message |
| IpcCodec.RecvMsg | src/common/ipc.c:54-107 | result, descriptor and the whole contents of the message after a datagram that is complete, short, too long in its declared payload or without a header |
| Handover.SocketsConservedAcrossProcesses | src/daemon/session_mgr.c:166-182 | at any time, under any interleaving, the sockets sent are those in flight, those closed and the current client's, each as often as it was sent |
| Handover.NextKeeps | src/session/main.c:282-353 | each send, read or worker step keeps the accounting of both processes |
| Handover.LastSocketServed | src/session/main.c:282-353 | over every interleaving of sends, shutdowns, reads and worker steps: once no socket is left in the channel, a client that the worker has is the one whose socket was sent last |
| Handover.LastSocketWins | src/session/main.c:305-352 | drained of new clients in one go, the worker serves the last one exactly if it could be set up, and otherwise nobody |
| Handover.ShutdownStopsExactly | src/session/main.c:293-297 | over every interleaving with the daemon, the worker has been told to end exactly when it has read a shutdown datagram |
| Handover.ChannelHoldsWritten | src/daemon/session_mgr.c:166-182 | over every interleaving the channel holds what was written into it and not read yet, first in, first out |
| SessionRegistry.SessionManager.FindSession | src/daemon/session_mgr.c:25-35 | the first active slot of that name, or none |
| SessionRegistry.SessionManager.AllocSlot | src/daemon/session_mgr.c:37-45 | the first free slot, or none |
| SessionRegistry.StoredExactly | src/daemon/session_mgr.c:156 | the stored name is the longest prefix that fits 63 characters |
| SessionRegistry.SessionManager.GetSession | src/daemon/session_mgr.c:132-164 | existing slot, new slot or failure with the slot cleared again |
| SessionRegistry.SessionManager.Reap | src/daemon/session_mgr.c:184-201 | each dead worker's slot is cleared and its descriptor closed |
| SessionRegistry.SessionManager.Destroy | src/daemon/session_mgr.c:203-225 | messages, signals, closed descriptors and awaited exits in their order, and the zeroed table |
| SessionRegistry.WorkerStoppedAt | src/daemon/session_mgr.c:203-222 | every active worker is told to stop, signalled and cut off, once and in this order, before any exit is awaited, and its exit is awaited once |
| RegistryRefinement.RegistryRefinesMap | src/daemon/session_mgr.c:25-201 | after any sequence of logins, reaps and shutdowns the table holds exactly the map from users to workers, at most 50, with users, pids and descriptors pairwise distinct and `count` equal to the active slots |
| RegistryRefinement.GetRefines | src/daemon/session_mgr.c:132-164 | a login returns the map's worker and changes the table as it changes the map |
| RegistryRefinement.ReapRefines | src/daemon/session_mgr.c:184-201 | reaping removes from the map exactly the users of the dead pids |
| RegistryRefinement.TearDownRefines | src/daemon/session_mgr.c:203-225 | shutdown leaves the empty map and no open descriptor |
| RegistryStability.SlotStable | src/daemon/session_mgr.c:132-201 | from any table, over every run without a teardown and without the exit of its worker, a slot in use keeps its entry |
| RegistryStability.RepeatedGetExactly | src/daemon/session_mgr.c:142-156 | after any run in between that spares the worker, asking again finds the same slot and forks nothing, exactly when the name fits its field and no earlier slot has come to be filed under it |
| RegistryStability.RepeatedGetWithoutNamesakes | src/daemon/session_mgr.c:142-156 | unless a longer name that is cut to this one logs in between: exactly when the name fits |
| RegistryStability.NamesakeGetsInTheWay | src/daemon/session_mgr.c:156 | a history in which such a longer name takes an earlier slot, and the user is handed that one |
| RegistryStability.HistoryNamesFit | src/daemon/session_mgr.c:156 | after every history stored names fit their field |
| RegistryOwners.HandedOwnWorkerExactly | src/daemon/session_mgr.c:139-163 | after any history with names of any length, the worker that a login is handed was forked for that very user exactly when it was forked just now or for a name that fits the field |
| RegistryOwners.StoredPrefixIsHandedOver | src/daemon/session_mgr.c:156 | a login under the stored part of a longer name is handed the longer name's worker |
| ClipboardTransfer.ReadOfferText | src/session/clipboard.c:84-119 | for every stream and every chunking the loop returns a prefix, and exactly the first min(length, 16 MiB) bytes without errors; every read asks for enough that zero means end of file |
| ClipboardTransfer.SourceSend | src/session/clipboard.c:21-37 | what is written is a prefix of the pending text under any short writes, and all of it without errors |
| ClipboardTransfer.Paste | src/session/clipboard.c:21-119 | writer and reader composed: text up to 16 MiB arrives unchanged for all chunkings on both sides |
| ClipboardEcho.NotifiedExactly | src/session/clipboard.c:121-133 | over every history the flag is armed, and RDP is notified, exactly as read off the history itself |
| ClipboardEcho.PendingExactly | src/session/clipboard.c:275-298 | after every history the pending text is the one last set and not taken away since |
| ClipboardEcho.HeldTextExactly | src/session/clipboard.c:121-124 | the text held is the last non-empty one read |
| ClipboardEcho.Clipboard.SourceSend | src/session/clipboard.c:21-37 | what the compositor is given comes from that pending text: a prefix always, all of it without errors |
| ClipboardEcho.HeldBackBounded | src/session/clipboard.c:275-298 | notifications held back never exceed the texts set from RDP |
| ClipboardEcho.AnnouncesForeignExactly | src/session/clipboard.c:121-133 | over every history, the texts announced are exactly the foreign ones if and only if the flag is up at exactly the reads of own texts |
| ClipboardEcho.OrderlyAnnouncesForeign | src/session/clipboard.c:152-174 | so it is when each set is answered by its own selection first, each text once and in order |
| ClipboardEcho.OvertakenSelectionEchoes | src/session/clipboard.c:121-133 | a history in which a foreign selection is swallowed and the own text echoed |
| ClipboardEcho.Clipboard.SetText | src/session/clipboard.c:275-298 | the flag and the pending text after a set, allocation failure included |
| ClipboardEcho.Clipboard.DeviceSelection | src/session/clipboard.c:152-174 | what a selection event reads (all of it up to the cap, without errors), announces and leaves armed |

## Left out

- FreeRDP, WinPR, Wayland, PipeWire, xkbcommon, PAM, epoll and process calls: only their answers are modelled.
- Codec internals, pixel conversion, picture contents, keyframe flags, UTF-8/UTF-16 conversion: their code is not in this repository.
- `src/daemon/auth.c`, `src/daemon/main.c`, `src/session/audio.c`, `src/session/compositor.c`: plumbing without a state machine of their own.
- The child side of `fork_session` and the generation of certificates.
- Keyboard and mouse translation tables (`src/session/rdp_peer.c:453-538`).
- The sound channel's choice of format and its readiness; a clipboard channel context that an earlier client left in the clipboard.
- Channel-context leaks at disconnect: `disconnect_client` does not call `gfx_cleanup`, so no such freedom is claimed.
- The final clean-up of `main`.
- The datagrams of the reports to the daemon: a report is recorded by its status word, and a failed send of one is ignored, as in the code.
- Blocking of pipes between clipboard writer and reader, and timeouts.
- Capture size against encoder size: `on_frame_ready` does not compare them, and pixel buffers are not modelled.
- The callers of `session_mgr_send_client`: the daemon's main file does not call it at this commit; sends are moves of the environment.
- RegistryRefinesMap: stated for names shorter than 64 characters and fresh pids and descriptors; RepeatedGetExactly gives the exact bound on the name.
- StreamNeverStalls: stated for a compositor that answers every request with a frame; StallsExactly says what any other answer does.
- ReadOfferText: the full transfer is stated for successful reallocation and reads; otherwise a prefix is returned.
- AnnouncesForeignExactly: an announced text is one that the clipboard hands to its callback; the worker's callback drops it while no stream is active (`src/session/main.c:243-249`).
- OrderlyAnnouncesForeign: the same; histories that are not orderly are covered by AnnouncesForeignExactly.
