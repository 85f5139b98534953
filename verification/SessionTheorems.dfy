/** What the session worker promises in every state it can reach from its start. */
module SessionTheorems {
  import opened CapsNegotiation
  import opened EncoderSpec
  import opened Options
  import opened PacingFilter
  import opened PeerInvariant
  import opened PeerSpec
  import opened SessionInvariants
  import opened SessionSpec
  import opened SessionTypes
  import opened WireTrace
  import opened Words

  ghost predicate Reachable(s: Session) {
    exists ipcMode, w, h, events :: Feasible(Start(ipcMode, w, h), events) && s == Run(Start(ipcMode, w, h), events)
  }

  lemma ReachableInv(s: Session)
    requires Reachable(s)
    ensures SessionInv(s)
  {
    var ipcMode, w, h, events :| Feasible(Start(ipcMode, w, h), events) && s == Run(Start(ipcMode, w, h), events);
    StartInv(ipcMode, w, h);
    RunKeepsInv(Start(ipcMode, w, h), events);
  }

  /** The graphics traffic of the current connection is well formed, and no surface was ever deleted
      although three places call the clean-up. */
  lemma WireIsWellFormed(s: Session)
    requires Reachable(s) && s.client.Some?
    ensures WellFormed(s.client.value.wire)
    ensures forall i :: 0 <= i < |s.client.value.wire| ==> !s.client.value.wire[i].DeleteSurface?
  {
    ReachableInv(s);
    var wire := s.client.value.wire;
    forall i | 0 <= i < |wire|
      ensures !wire[i].DeleteSurface?
    {
      assert InPlace(wire, i);
    }
  }

  /** Another client takes over: the daemon hands over a socket. */
  predicate Replaces(e: Event) {
    e.IpcReadable? && e.ok && e.msgType == MSG_NEW_CLIENT && e.fd >= 0
  }

  /** A run in which the client stays: it is neither lost nor replaced. */
  ghost predicate ClientStays(s: Session, events: seq<Event>)
    requires Feasible(s, events)
    decreases |events|
  {
    s.client.Some? && (events != [] ==> !Replaces(events[0]) && ClientStays(Step(s, events[0]), events[1..]))
  }

  predicate SameChannels(p: PeerState, q: PeerState) {
    && q.vcm == p.vcm && q.side == p.side
    && q.gfx.context == p.gfx.context && q.gfx.open == p.gfx.open && q.gfx.ready == p.gfx.ready
  }

  lemma ResizeToSameChannels(s: Session, w: U32, h: U32, o: CodecInit, surface: SurfaceOutcome)
    requires s.client.Some?
    ensures var r := ResizeTo(s, w, h, o, surface); r.client.Some? && SameChannels(s.client.value, r.client.value)
  {
    assert SameChannels(s.client.value, UpdateSize(s.client.value, w, h, surface));
  }

  lemma FrameSameChannels(s: Session, e: Event)
    requires e.CaptureReady? && Enabled(s, e) && s.client.Some?
    ensures Step(s, e).client.Some? && SameChannels(s.client.value, Step(s, e).client.value)
  {
    SendFrameFrame(s.client.value, FrameOf(Encode(s.enc, e.encode).0), e.w, e.h, e.send);
  }

  lemma ActivateSameChannels(s: Session, e: Event)
    requires e.Activated? && Enabled(s, e) && s.client.Some?
    ensures Step(s, e).client.Some? && SameChannels(s.client.value, Step(s, e).client.value)
  {
    var r := s.(client := Some(s.client.value.(activated := true, nscodec := e.nscodec)));
    ResizeToSameChannels(r, AlignUp16(e.width), AlignUp16(e.height), e.codec, e.surface);
  }

  lemma QuietKeepsClient(s: Session, e: Event)
    requires e.PeerAccepted? || e.IpcReadable? || e.ClientPolled? || e.Watched? || e.StartTried? || e.CaptureFailed?
    requires Enabled(s, e) && s.client.Some? && !Replaces(e) && Step(s, e).client.Some?
    ensures Step(s, e).client == s.client
  {
  }

  /** While a client stays, only three kinds of event touch its channels. */
  lemma ClientAfter(s: Session, e: Event)
    requires Enabled(s, e) && s.client.Some? && !Replaces(e) && Step(s, e).client.Some?
    ensures var p, q := s.client.value, Step(s, e).client.value;
            match e
            case PostConnected(gfx, nscodec, depth, o) => q == PostConnect(p, gfx, nscodec, depth, o)
            case CapsAdvertised(caps, os, ok, o) => q == CapsAdvertise(p, caps, os, ok, o)
            case VcmPolled(poll) => q == CheckVcm(p, poll).0
            case _ => SameChannels(p, q)
  {
    match e
    case PostConnected(_, _, _, _) =>
    case CapsAdvertised(_, _, _, _) =>
    case VcmPolled(_) =>
    case CaptureReady(_, _, _, _, _, _, _, _) => FrameSameChannels(s, e);
    case ResizeRequested(w, h, o, surface) => ResizeToSameChannels(s, AlignUp16(w), AlignUp16(h), o, surface);
    case Activated(_, _, _, _, _) => ActivateSameChannels(s, e);
    case _ => QuietKeepsClient(s, e);
  }

  lemma ReadinessStep(s: Session, e: Event)
    requires Enabled(s, e) && s.client.Some? && PeerInv(s.client.value) && s.client.value.gfx.ready
    requires !Replaces(e) && Step(s, e).client.Some?
    ensures Step(s, e).client.value.gfx.ready
  {
    ClientAfter(s, e);
    match e
    case VcmPolled(poll) => CheckVcmKeeps(s.client.value, poll);
    case CapsAdvertised(caps, os, ok, surface) => CapsAdvertiseKeeps(s.client.value, caps, os, ok, surface);
    case _ =>
  }

  /** A channel that is ready stays ready for as long as the client stays, whatever happens and however
      often the three places that clean up are passed; and it has its context and its manager. */
  lemma {:induction false} ReadinessLasts(s: Session, events: seq<Event>)
    requires SessionInv(s) && Feasible(s, events) && ClientStays(s, events) && s.client.value.gfx.ready
    ensures var r := Run(s, events);
            r.client.Some? && r.client.value.gfx.ready && r.client.value.gfx.context && r.client.value.vcm
    decreases |events|
  {
    if events != [] {
      ReadinessStep(s, events[0]);
      StepKeepsInv(s, events[0]);
      ReadinessLasts(Step(s, events[0]), events[1..]);
    }
  }

  /** For an activated client without a stream, pumping the channels and trying to start begins one
      exactly when there is no channel manager, when the channel is ready and the poll goes well, or when
      the handshake ends in failure. */
  lemma StartsExactly(s: Session, poll: VcmPoll, o: CodecInit, requestOk: bool)
    requires SessionInv(s) && s.client.Some? && s.client.value.activated && !s.clientActive
    ensures var r, p := PumpVcm(s, poll), s.client.value;
            r.client.Some? && StartFrames(r, o, requestOk).clientActive <==>
              || !p.vcm
              || (p.gfx.open && p.gfx.ready && poll.checkOk)
              || (!p.gfx.open && (!poll.checkOk || poll.drdynvc == Failed))
  {
  }

  /** Callbacks do not open the channels. */
  lemma {:induction false} CallbacksKeepClosed(s: Session, events: seq<Event>)
    requires SessionInv(s) && Callbacks(s, events) && s.client.Some? && !s.client.value.gfx.open
    ensures var r := Run(s, events); r.client.Some? && !r.client.value.gfx.open
    decreases |events|
  {
    if events != [] {
      var e := events[0];
      assert IsCallback(e);
      CallbackKeepsClient(s, e);
      ClientAfter(s, e);
      StepKeepsInv(s, e);
      CallbacksKeepClosed(Step(s, e), events[1..]);
    }
  }

  /** The poll of the channel manager loses the client exactly if the channels were open before it and it
      fails, whatever callbacks it delivers: even if one of them shuts the channels down. */
  lemma PumpLosesExactly(s: Session, onPump: seq<Event>, poll: VcmPoll)
    requires SessionInv(s) && s.client.Some? && Callbacks(s, onPump)
    ensures Pump(s, onPump, poll).client.None? <==> s.client.value.vcm && s.client.value.gfx.open && !poll.checkOk
  {
    CallbacksKeepClient(s, onPump);
    RunKeepsInv(s, onPump);
    if !s.client.value.gfx.open {
      CallbacksKeepClosed(s, onPump);
    }
  }

  lemma StartKeepsClient(s: Session, o: CodecInit, requestOk: bool)
    ensures StartFrames(s, o, requestOk).client == s.client && StartFrames(s, o, requestOk).loop == s.loop
  {
  }

  /** What one loop iteration comes to: with any callbacks in both polls, the client is lost exactly if either
      poll is fatal. */
  lemma IterationLosesExactly(s: Session, t: Turn)
    requires SessionInv(s) && s.client.Some? && Plausible(s, t)
    ensures var p := Run(s, t.onPoll).client.value;
            Iteration(s, t).client.None? <==> !t.pollOk || (p.vcm && p.gfx.open && !t.poll.checkOk)
  {
    RunKeepsInv(s, t.onPoll);
    if t.pollOk {
      var a := Watch(Run(s, t.onPoll), t.vcmFd);
      WatchKeeps(Run(s, t.onPoll), t.vcmFd);
      PumpLosesExactly(a, t.onPump, t.poll);
      StartKeepsClient(Pump(a, t.onPump, t.poll), t.codec, t.requestOk);
    }
  }

  lemma PumpedStartsExactly(a: Session, t: Turn)
    requires SessionInv(a) && a.client.Some? && a.client.value.activated && !a.clientActive && t.onPump == []
    ensures var p, b := a.client.value, Pump(a, t.onPump, t.poll);
            (if b.client.None? then b else StartFrames(b, t.codec, t.requestOk)).clientActive <==>
              || !p.vcm
              || (p.gfx.open && p.gfx.ready && t.poll.checkOk)
              || (!p.gfx.open && (!t.poll.checkOk || t.poll.drdynvc == Failed))
  {
    StartsExactly(a, t.poll, t.codec, t.requestOk);
  }

  /** An iteration whose channel poll delivers no callbacks starts a stream, for an activated client without
      one, exactly when its polls leave that client with no channel manager or with a ready channel. */
  lemma IterationStartsExactly(s: Session, t: Turn)
    requires SessionInv(s) && s.client.Some? && Plausible(s, t) && t.onPump == []
    requires var a := Run(s, t.onPoll); a.client.value.activated && !a.clientActive
    ensures var p := Run(s, t.onPoll).client.value;
            Iteration(s, t).clientActive <==>
              t.pollOk && (|| !p.vcm
                           || (p.gfx.open && p.gfx.ready && t.poll.checkOk)
                           || (!p.gfx.open && (!t.poll.checkOk || t.poll.drdynvc == Failed)))
  {
    RunKeepsInv(s, t.onPoll);
    if t.pollOk {
      WatchKeeps(Run(s, t.onPoll), t.vcmFd);
      PumpedStartsExactly(Watch(Run(s, t.onPoll), t.vcmFd), t);
    }
  }

  /** A client whose channel is half open has no stream, and none can start for it. */
  ghost predicate Stranded(s: Session) {
    s.client.Some? && HalfOpen(s.client.value) && !s.clientActive
  }

  /** Only a capability advertisement that is confirmed ends this. */
  predicate Rescues(e: Event) {
    e.CapsAdvertised? && e.confirmOk
  }

  lemma StrandedStepExactly(s: Session, e: Event)
    requires Enabled(s, e) && SessionInv(s) && Stranded(s) && !Replaces(e) && Step(s, e).client.Some?
    ensures Stranded(Step(s, e)) <==> !Rescues(e)
  {
    ClientAfter(s, e);
    if e.CapsAdvertised? {
      FirstAdvertisementExactly(s.client.value, e.caps, e.os, e.confirmOk, e.surface);
    }
  }

  /** A client whose advertisement was not confirmed waits for its stream for as long as it stays and
      none is confirmed: polling does not repeat the opening, and nothing times out. */
  lemma {:induction false} StrandedUntilConfirmed(s: Session, events: seq<Event>)
    requires SessionInv(s) && Feasible(s, events) && ClientStays(s, events) && Stranded(s)
    requires forall e :: e in events ==> !Rescues(e)
    ensures Stranded(Run(s, events)) && !Run(s, events).clientActive
    decreases |events|
  {
    if events != [] {
      StrandedStepExactly(s, events[0]);
      StepKeepsInv(s, events[0]);
      StrandedUntilConfirmed(Step(s, events[0]), events[1..]);
    }
  }

  lemma AdvertisementKeepsSide(p: PeerState, caps: seq<CapSet>, os: nat, confirmOk: bool, o: SurfaceOutcome)
    ensures Leaked(CapsAdvertise(p, caps, os, confirmOk, o)) == Leaked(p)
  {
  }

  /** While a client stays, a step loses a channel context exactly when it is a poll that opens a channel
      which is still open from an earlier poll. */
  lemma ChannelLeaksExactly(s: Session, e: Event)
    requires Enabled(s, e) && SessionInv(s) && s.client.Some? && !Replaces(e) && Step(s, e).client.Some?
    ensures var p, q := s.client.value, Step(s, e).client.value;
            Leaked(q) >= Leaked(p) && (Leaked(q) > Leaked(p) <==> e.VcmPolled? && Reopens(p, e.poll))
  {
    ClientAfter(s, e);
    if e.VcmPolled? {
      PollLeaksExactly(s.client.value, e.poll);
    } else if e.CapsAdvertised? {
      AdvertisementKeepsSide(s.client.value, e.caps, e.os, e.confirmOk, e.surface);
    }
  }

  // --- When the worker stops ---

  /** The daemon's channel is gone, or it carries a shutdown. */
  predicate Stops(e: Event) {
    e.IpcReadable? && (!e.ok || e.msgType == MSG_SHUTDOWN)
  }

  lemma SizeKeepsRunning(s: Session, e: Event)
    requires (e.Activated? || e.ResizeRequested? || e.CaptureReady?) && Enabled(s, e)
    ensures Step(s, e).running == s.running
  {
  }

  lemma RunningStepExactly(s: Session, e: Event)
    requires Enabled(s, e)
    ensures Step(s, e).running <==> s.running && !Stops(e)
  {
    if e.Activated? || e.ResizeRequested? || e.CaptureReady? {
      SizeKeepsRunning(s, e);
    }
  }

  lemma {:induction false} RunningAfterRun(s: Session, events: seq<Event>)
    requires Feasible(s, events)
    ensures Run(s, events).running <==> s.running && forall e :: e in events ==> !Stops(e)
    decreases |events|
  {
    if events != [] {
      RunningStepExactly(s, events[0]);
      RunningAfterRun(Step(s, events[0]), events[1..]);
      assert forall e :: e in events <==> e == events[0] || e in events[1..];
    }
  }

  /** The worker is told to end exactly when a receive from the daemon has failed or a shutdown has come. */
  lemma StoppedExactly(ipcMode: bool, w: I32, h: I32, events: seq<Event>)
    requires Feasible(Start(ipcMode, w, h), events)
    ensures !Run(Start(ipcMode, w, h), events).running <==> exists e :: e in events && Stops(e)
  {
    RunningAfterRun(Start(ipcMode, w, h), events);
  }

  // --- The watched descriptor and the reports to the daemon ---

  lemma FrameLoop(s: Session, e: Event)
    requires e.CaptureReady? && Enabled(s, e)
    ensures Step(s, e).loop == s.loop && (s.client.Some? ==> Step(s, e).client.Some?)
  {
  }

  lemma SizeLoop(s: Session, e: Event)
    requires (e.Activated? || e.ResizeRequested?) && Enabled(s, e)
    ensures Step(s, e).loop == s.loop && (s.client.Some? ==> Step(s, e).client.Some?)
  {
  }

  /** Events that neither watch, nor poll, nor read a message leave the loop's record alone. */
  lemma QuietLoop(s: Session, e: Event)
    requires Enabled(s, e) && !e.Watched? && !e.ClientPolled? && !e.VcmPolled? && !e.IpcReadable?
    ensures Step(s, e).loop == s.loop && (s.client.Some? ==> Step(s, e).client.Some?)
  {
    if e.CaptureReady? {
      FrameLoop(s, e);
    } else if e.Activated? || e.ResizeRequested? {
      SizeLoop(s, e);
    }
  }

  lemma WatchedStep(s: Session, e: Event)
    requires Enabled(s, e) && (s.loop.watched >= 0 ==> s.client.Some?)
    ensures Step(s, e).loop.watched >= 0 ==> Step(s, e).client.Some?
  {
    if !e.Watched? && !e.ClientPolled? && !e.VcmPolled? && !e.IpcReadable? {
      QuietLoop(s, e);
    }
  }

  lemma {:induction false} WatchedOverRuns(s: Session, events: seq<Event>)
    requires Feasible(s, events) && (s.loop.watched >= 0 ==> s.client.Some?)
    ensures Run(s, events).loop.watched >= 0 ==> Run(s, events).client.Some?
    decreases |events|
  {
    if events != [] {
      WatchedStep(s, events[0]);
      WatchedOverRuns(Step(s, events[0]), events[1..]);
    }
  }

  /** The loop watches a channel manager's descriptor only while there is a client: when that descriptor
      becomes readable, there is a client to poll. */
  lemma WatchedOnlyWithClient(s: Session)
    requires Reachable(s) && s.loop.watched >= 0
    ensures forall poll :: Enabled(s, VcmPolled(poll))
  {
    var ipcMode, w, h, events :| Feasible(Start(ipcMode, w, h), events) && s == Run(Start(ipcMode, w, h), events);
    WatchedOverRuns(Start(ipcMode, w, h), events);
  }

  /** The descriptor that a step leaves watched: the one that the client's channel manager names, if there is
      a manager and it names one; none once a client is lost or another takes over; else the one before. */
  predicate LeavesWatched(s: Session, e: Event, fd: int)
    requires Enabled(s, e)
  {
    if e.Watched? && s.client.value.vcm && e.fd >= 0 then fd == e.fd
    else if Replaces(e) || (s.client.Some? && Step(s, e).client.None?) then fd == -1
    else fd == s.loop.watched
  }

  lemma IpcWatchesExactly(s: Session, e: Event)
    requires e.IpcReadable? && Enabled(s, e)
    ensures LeavesWatched(s, e, Step(s, e).loop.watched)
  {
  }

  lemma PollWatchesExactly(s: Session, e: Event)
    requires (e.ClientPolled? || e.VcmPolled?) && Enabled(s, e)
    ensures LeavesWatched(s, e, Step(s, e).loop.watched)
  {
  }

  lemma WatchesExactly(s: Session, e: Event)
    requires Enabled(s, e)
    ensures LeavesWatched(s, e, Step(s, e).loop.watched)
  {
    if e.IpcReadable? {
      IpcWatchesExactly(s, e);
    } else if e.ClientPolled? || e.VcmPolled? {
      PollWatchesExactly(s, e);
    } else if !e.Watched? {
      QuietLoop(s, e);
    }
  }

  predicate Reports(s: Session, e: Event)
    requires Enabled(s, e)
  {
    s.ipcMode && (Replaces(e) || (s.client.Some? && Step(s, e).client.None?))
  }

  lemma IpcReportsExactly(s: Session, e: Event)
    requires e.IpcReadable? && Enabled(s, e)
    ensures Step(s, e).loop.reports == s.loop.reports + if Reports(s, e) then [STATUS_DISCONNECTED] else []
  {
  }

  lemma PollReportsExactly(s: Session, e: Event)
    requires (e.ClientPolled? || e.VcmPolled? || e.Watched?) && Enabled(s, e)
    ensures Step(s, e).loop.reports == s.loop.reports + if Reports(s, e) then [STATUS_DISCONNECTED] else []
  {
  }

  /** A worker reports a disconnection exactly when its client is lost, or when another takes over, even
      if there was nobody to take over from; and it reports each only once. */
  lemma ReportsExactly(s: Session, e: Event)
    requires Enabled(s, e)
    ensures Step(s, e).loop.reports == s.loop.reports + if Reports(s, e) then [STATUS_DISCONNECTED] else []
  {
    if e.IpcReadable? {
      IpcReportsExactly(s, e);
    } else if e.ClientPolled? || e.VcmPolled? || e.Watched? {
      PollReportsExactly(s, e);
    } else {
      QuietLoop(s, e);
    }
  }

  /** No codec resource outlives its stream, none is freed twice, and a stream has exactly the context
      of its encoder's mode. */
  lemma CodecResourcesAccounted(s: Session)
    requires Reachable(s)
    ensures !s.clientActive ==> IsEmpty(s.enc.live)
    ensures s.enc.live.contexts.h264 == Count(s.enc.mode == H264)
            && s.enc.live.contexts.progressive == Count(s.enc.mode == ProgressiveRfx)
    ensures s.enc.live.contexts.nsc == s.enc.live.stream == Count(s.enc.mode == Nsac) && 0 <= s.enc.live.conv <= 1
    ensures s.enc.live.regions == Arrays(s.enc.output.meta) && (s.enc.mode != H264 ==> s.enc.live.regions == 0)
    ensures s.clientActive ==> s.encoderInitialized && s.client.Some? && s.client.value.activated
  {
    ReachableInv(s);
    OneCodecContext(s.enc);
  }

  /** After every history of resizes and reconnects all parties hold the same size. */
  lemma AllSizesEqual(s: Session)
    requires Reachable(s)
    ensures ToU32(s.display.width) == s.display.inputWidth && ToU32(s.display.height) == s.display.inputHeight
    ensures s.client.Some? ==>
              s.client.value.width == s.display.inputWidth && s.client.value.height == s.display.inputHeight
    ensures s.clientActive ==>
              s.enc.picture.width == s.display.inputWidth && s.enc.picture.height == s.display.inputHeight
  {
    ReachableInv(s);
  }

  /** Asking twice for the same size is asking once, and so is asking for the size that was adopted,
      whatever FreeRDP and the codecs answer. */
  lemma RepeatedResizeIsNoOp(s: Session, w: U32, h: U32, o: CodecInit, o': CodecInit,
                             x: SurfaceOutcome, x': SurfaceOutcome)
    ensures var r := Resize(s, w, h, o, x); Resize(r, w, h, o', x') == r
    ensures var r := Resize(s, w, h, o, x); Resize(r, AlignUp16(w), AlignUp16(h), o', x') == r
  {
    AlignUp16Idempotent(w);
    AlignUp16Idempotent(h);
    var r := Redisplay(s, AlignUp16(w), AlignUp16(h), x);
    assert InitEncoder(r, o).display == r.display;
  }

  /** A pointer position lies inside the extents that `input_pointer_motion` passes on. */
  predicate PointerInside(d: Display, px: nat, py: nat) {
    px < d.inputWidth && py < d.inputHeight
  }

  lemma ResizeSetsExtents(s: Session, w: U32, h: U32, o: CodecInit, x: SurfaceOutcome)
    requires SizesAgree(s)
    ensures var d := ResizeTo(s, w, h, o, x).display; d.inputWidth == w && d.inputHeight == h
  {
    SignRoundTrip(w, s.display.width);
    SignRoundTrip(h, s.display.height);
    var r := Redisplay(s, w, h, x);
    assert InitEncoder(r, o).display == r.display;
  }

  /** Every pointer position inside the requested size lies inside the extents, exactly when neither
      requested dimension is so large that aligning it wraps. */
  lemma PointerInsideExactly(s: Session, w: U32, h: U32, o: CodecInit, x: SurfaceOutcome)
    requires Reachable(s) && w > 0 && h > 0
    ensures (forall px: nat, py: nat :: px < w && py < h ==> PointerInside(Resize(s, w, h, o, x).display, px, py))
            <==> w <= 0xFFFF_FFF0 && h <= 0xFFFF_FFF0
  {
    ReachableInv(s);
    var d := Resize(s, w, h, o, x).display;
    ResizeSetsExtents(s, AlignUp16(w), AlignUp16(h), o, x);
    AlignUp16IsLeastMultiple(w);
    AlignUp16IsLeastMultiple(h);
    if w > 0xFFFF_FFF0 || h > 0xFFFF_FFF0 {
      assert !PointerInside(d, w - 1, h - 1);
    }
  }

  // --- The picture's depth ---

  /** A running encoder has the depth that its client negotiated. */
  predicate DepthFits(s: Session) {
    s.clientActive && s.client.Some? ==> s.enc.picture.bpp == s.client.value.bpp
  }

  lemma FrameKeepsDepth(s: Session, e: Event)
    requires e.CaptureReady? && Enabled(s, e) && SessionInv(s) && DepthFits(s)
    ensures DepthFits(Step(s, e))
  {
    EncodeKeepsSound(s.enc, e.encode);
    if s.client.Some? {
      SendFrameFrame(s.client.value, FrameOf(Encode(s.enc, e.encode).0), e.w, e.h, e.send);
    }
  }

  lemma ResizeToKeepsDepth(s: Session, w: U32, h: U32, o: CodecInit, surface: SurfaceOutcome)
    requires s.client.Some? && (s.clientActive <==> s.encoderInitialized) && DepthFits(s)
    ensures DepthFits(ResizeTo(s, w, h, o, surface))
  {
  }

  lemma SizeKeepsDepth(s: Session, e: Event)
    requires (e.Activated? || e.ResizeRequested?) && Enabled(s, e) && Streaming(s) && DepthFits(s)
    ensures DepthFits(Step(s, e))
  {
    match e
    case ResizeRequested(w, h, o, surface) => ResizeToKeepsDepth(s, AlignUp16(w), AlignUp16(h), o, surface);
    case Activated(w, h, nscodec, o, surface) =>
      var r := s.(client := Some(s.client.value.(activated := true, nscodec := nscodec)));
      ResizeToKeepsDepth(r, AlignUp16(w), AlignUp16(h), o, surface);
  }

  lemma QuietKeepsDepth(s: Session, e: Event)
    requires !e.CaptureReady? && !e.Activated? && !e.ResizeRequested?
    requires Enabled(s, e) && Streaming(s) && DepthFits(s)
    ensures DepthFits(Step(s, e))
  {
  }

  lemma {:induction false} DepthOverRuns(s: Session, events: seq<Event>)
    requires SessionInv(s) && Feasible(s, events) && DepthFits(s)
    ensures DepthFits(Run(s, events))
    decreases |events|
  {
    if events != [] {
      var e := events[0];
      StepKeepsInv(s, e);
      if e.CaptureReady? {
        FrameKeepsDepth(s, e);
      } else if e.Activated? || e.ResizeRequested? {
        SizeKeepsDepth(s, e);
      } else {
        QuietKeepsDepth(s, e);
      }
      DepthOverRuns(Step(s, e), events[1..]);
    }
  }

  /** In every reachable state. */
  lemma EncoderHasClientsDepth(s: Session)
    requires Reachable(s) && s.clientActive
    ensures s.client.Some? && s.enc.picture.bpp == s.client.value.bpp
  {
    ReachableInv(s);
    var ipcMode, w, h, events :| Feasible(Start(ipcMode, w, h), events) && s == Run(Start(ipcMode, w, h), events);
    StartInv(ipcMode, w, h);
    DepthOverRuns(Start(ipcMode, w, h), events);
  }

  // --- Captures ---

  /** The compositor answers every request with a frame, and every request can be made. */
  predicate Answering(e: Event) {
    match e
    case CaptureFailed => false
    case CaptureReady(_, _, _, _, _, _, _, requestOk) => requestOk
    case StartTried(_, requestOk) => requestOk
    case _ => true
  }

  ghost predicate Flowing(s: Session) {
    s.clientActive ==> s.captures.pending > 0
  }

  lemma FrameCaptures(s: Session, e: Event)
    requires e.CaptureReady? && Enabled(s, e) && SessionInv(s) && s.clientActive
    ensures Step(s, e).captures.pending == s.captures.pending - Count(!e.requestOk)
  {
  }

  lemma CapturesAfterStep(s: Session, e: Event)
    requires Enabled(s, e) && SessionInv(s) && s.clientActive && Step(s, e).clientActive
    ensures Step(s, e).captures.pending == s.captures.pending -
              Count(e.CaptureFailed? || (e.CaptureReady? && !e.requestOk))
  {
    if e.CaptureReady? {
      FrameCaptures(s, e);
    }
  }

  lemma StartOfStream(s: Session, e: Event)
    requires Enabled(s, e) && SessionInv(s) && !s.clientActive && Step(s, e).clientActive
    ensures e.StartTried? && Step(s, e).captures.pending == s.captures.pending + Count(e.requestOk)
  {
  }

  lemma {:induction false} FlowContinues(s: Session, events: seq<Event>)
    requires SessionInv(s) && Flowing(s) && Feasible(s, events)
    requires forall e :: e in events ==> Answering(e)
    ensures Flowing(Run(s, events))
    decreases |events|
  {
    if events != [] {
      var e := events[0];
      assert Answering(e);
      StepKeepsInv(s, e);
      if s.clientActive && Step(s, e).clientActive {
        CapturesAfterStep(s, e);
      } else if Step(s, e).clientActive {
        StartOfStream(s, e);
      }
      FlowContinues(Step(s, e), events[1..]);
    }
  }

  /** With an answering compositor a stream never stalls, from the start of the process on. */
  lemma StreamNeverStalls(ipcMode: bool, w: I32, h: I32, events: seq<Event>)
    requires Feasible(Start(ipcMode, w, h), events) && forall e :: e in events ==> Answering(e)
    ensures var s := Run(Start(ipcMode, w, h), events);
            (s.clientActive ==> s.captures.pending > 0) && s.captures.pending <= s.captures.starts
  {
    StartInv(ipcMode, w, h);
    FlowContinues(Start(ipcMode, w, h), events);
    RunKeepsInv(Start(ipcMode, w, h), events);
  }

  /** A flowing stream stalls on exactly one kind of step: the last outstanding capture fails, or is
      answered but cannot be requested again. A stalled stream stays stalled as long as it lasts. */
  lemma StallsExactly(s: Session, e: Event)
    requires Reachable(s) && Enabled(s, e) && s.clientActive && Step(s, e).clientActive
    ensures Step(s, e).captures.pending == 0 <==>
            s.captures.pending == 0
            || (s.captures.pending == 1 && (e.CaptureFailed? || (e.CaptureReady? && !e.requestOk)))
  {
    ReachableInv(s);
    CapturesAfterStep(s, e);
  }

  /** A run in which the stream lasts. */
  ghost predicate StreamLasts(s: Session, events: seq<Event>)
    requires Feasible(s, events)
    decreases |events|
  {
    s.clientActive && (events != [] ==> StreamLasts(Step(s, events[0]), events[1..]))
  }

  /** How many captures of a run were lost: they failed, or could not be requested again. */
  function LostCaptures(events: seq<Event>): (r: nat) {
    if events == [] then 0
    else
      LostCaptures(events[1..]) +
      Count(events[0].CaptureFailed? || (events[0].CaptureReady? && !events[0].requestOk))
  }

  /** Over every run in which the stream lasts, the outstanding captures go down by those lost. */
  lemma {:induction false} CapturesAfterRun(s: Session, events: seq<Event>)
    requires SessionInv(s) && Feasible(s, events) && StreamLasts(s, events)
    ensures Run(s, events).captures.pending == s.captures.pending - LostCaptures(events)
    decreases |events|
  {
    if events != [] {
      CapturesAfterStep(s, events[0]);
      StepKeepsInv(s, events[0]);
      CapturesAfterRun(Step(s, events[0]), events[1..]);
    }
  }

  /** Over every run in which the stream lasts, it has stalled in the end exactly when as many captures were
      lost as were outstanding; a stream without any stays so however long it lasts. */
  lemma StallsForGood(s: Session, events: seq<Event>)
    requires Reachable(s) && Feasible(s, events) && StreamLasts(s, events)
    ensures Run(s, events).captures.pending == 0 <==> LostCaptures(events) == s.captures.pending
    ensures s.captures.pending == 0 ==> Run(s, events).captures.pending == 0 && LostCaptures(events) == 0
  {
    ReachableInv(s);
    CapturesAfterRun(s, events);
  }

  // --- Send rate ---

  /** How many frames began in the window [from, to]. */
  function StartsWithin(sends: seq<SendRecord>, from: int, to: int): (r: nat) {
    if sends == [] then 0
    else
      var last := sends[|sends| - 1];
      StartsWithin(sends[..|sends| - 1], from, to) + if from <= last.start <= to then 1 else 0
  }

  lemma {:induction false} EarlierWindow(sends: seq<SendRecord>, from: int, to: int, cut: int)
    requires cut <= to && forall i :: 0 <= i < |sends| ==> sends[i].start <= cut
    ensures StartsWithin(sends, from, to) == StartsWithin(sends, from, cut)
  {
    if sends != [] {
      EarlierWindow(sends[..|sends| - 1], from, to, cut);
    }
  }

  lemma {:induction false} StartsSeparated(sends: seq<SendRecord>, i: nat, j: nat)
    requires Spaced(sends) && i < j < |sends|
    ensures sends[i].start + MIN_MS * (j - i) <= sends[j].start
  {
    if i + 1 < j {
      StartsSeparated(sends, i, j - 1);
    }
  }

  lemma {:induction false} NothingInEmptyWindow(sends: seq<SendRecord>, from: int, to: int)
    requires to < from
    ensures StartsWithin(sends, from, to) == 0
  {
    if sends != [] {
      NothingInEmptyWindow(sends[..|sends| - 1], from, to);
    }
  }

  lemma {:induction false} WindowBound(sends: seq<SendRecord>, from: int, to: int)
    requires Spaced(sends) && from <= to
    ensures StartsWithin(sends, from, to) <= (to - from) / MIN_MS + 1
  {
    if sends != [] {
      var n := |sends| - 1;
      var last := sends[n].start;
      var rest := sends[..n];
      assert Spaced(rest);
      if from <= last <= to {
        forall i | 0 <= i < n
          ensures rest[i].start <= last - MIN_MS
        {
          StartsSeparated(sends, i, n);
        }
        EarlierWindow(rest, from, to, last - MIN_MS);
        if from <= last - MIN_MS {
          WindowBound(rest, from, last - MIN_MS);
        } else {
          NothingInEmptyWindow(rest, from, last - MIN_MS);
        }
      } else {
        WindowBound(rest, from, to);
      }
    }
  }

  /** Over any run, across skipped and failed frames and reconnects: each frame waited out the interval
      stored by the send before it (or the default of a new stream), and a window of W milliseconds
      holds at most W/16 + 1 frame starts. */
  lemma SendRateBounded(s: Session, from: int, window: nat)
    requires Reachable(s)
    ensures StartsWithin(s.pacing.sends, from, from + window) <= window / MIN_MS + 1
    ensures forall i :: 0 < i < |s.pacing.sends| ==>
              var a, b := s.pacing.sends[i - 1], s.pacing.sends[i];
              b.start - a.end >= b.gate && (b.gate == a.next || b.gate == DEFAULT_MS)
  {
    ReachableInv(s);
    WindowBound(s.pacing.sends, from, from + window);
  }

  /** Every received peer socket is closed or owned by the current client, and by nobody else. */
  lemma PeerSocketsConserved(s: Session)
    requires Reachable(s)
    ensures s.sockets.received == s.sockets.closed + ClientSocket(s)
  {
    ReachableInv(s);
  }
}
