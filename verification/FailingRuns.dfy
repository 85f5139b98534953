/** Runs of the worker, each from the start of the process, that reach the failing side of a theorem. */
module FailingRuns {
  import opened CapsNegotiation
  import opened CodecAgreement
  import opened EncoderSpec
  import opened Options
  import opened PacingFilter
  import opened PeerInvariant
  import opened PeerSpec
  import opened SessionSpec
  import opened SessionTheorems
  import opened SessionTypes
  import opened Words
  import SurfaceFit

  const ALL_CODEC := CodecInit(true, true, true)

  // --- Capabilities advertised again ---

  /** The stream that starts when the codec comes up. */
  ghost predicate Streams444(s: Session) {
    && s.client.Some? && s.clientActive && s.encoderInitialized && s.captures.pending > 0
    && s.client.value.gfx.context && s.client.value.gfx.ready && s.client.value.gfx.surfaceId == 1
    && Truthful(s.client.value.wire)
    && Sound(s.enc) && s.enc.mode == H264 && s.enc.picture.version == 1
  }

  lemma StartWithCodec(s: Session, o: CodecInit)
    requires ReadyToStream(s) && s.client.value.gfx.context && s.client.value.gfx.surfaceId == 1
    requires o.newOk && o.setupOk
    ensures var t := StartFrames(s, o, true); Streams444(t) && t.pacing == s.pacing.(intervalMs := DEFAULT_MS)
  {
    StartSettles(s, o, true);
    StartTiming(s, o);
  }

  /** Capabilities that name another mode leave the running encoder where it is. */
  lemma ReadvertiseMisaligns(s: Session, caps: seq<CapSet>, os: nat, o: SurfaceOutcome)
    requires Streams444(s) && Negotiated(caps, os) == Progressive
    ensures var e := CapsAdvertised(caps, os, true, o);
            Enabled(s, e) && Misaligned(Step(s, e)) && !Mute(Step(s, e).enc) && Step(s, e).encoderInitialized
            && Step(s, e).captures == s.captures && Step(s, e).pacing == s.pacing
  {
    var e := CapsAdvertised(caps, os, true, o);
    var confirm := CapsConfirm(Best(caps, IsApple(os)).1, true);
    assert Step(s, e).client.value.wire == s.client.value.wire + [confirm];
  }

  /** A client without AVC, of version 8.1. */
  const PLAIN: seq<CapSet> := [CapSet(VERSION_81, 0)]

  lemma PlainIsProgressive(caps: seq<CapSet>, os: nat)
    requires caps == PLAIN
    ensures Negotiated(caps, os) == Progressive
  {
    assert caps[..0] == [];
    assert Best(caps, IsApple(os)) == (1, 0);
  }

  lemma ReadvertiseAfter(start: Session, events: seq<Event>, o: CodecInit, caps: seq<CapSet>, now: U64)
    requires Feasible(start, events) && o.newOk && o.setupOk && caps == PLAIN
    requires var s := Run(start, events);
             && ReadyToStream(s) && s.client.value.gfx.context && s.client.value.gfx.surfaceId == 1
             && s.pacing.clock <= now && s.pacing.lastMs + DEFAULT_MS <= now
    ensures var again := events + [StartTried(o, true)] + [CapsAdvertised(caps, 1, true, ALL_SURFACE)];
            && Feasible(start, again + [Captured(now)])
            && Feasible(start, again) && Misaligned(Run(start, again))
            && !WireIsTrue(Run(start, again + [Captured(now)]))
  {
    var s := Run(start, events);
    StartWithCodec(s, o);
    RunSnoc(start, events, StartTried(o, true));
    PlainIsProgressive(caps, 1);
    ReadvertiseMisaligns(StartFrames(s, o, true), caps, 1, ALL_SURFACE);
    RunSnoc(start, events + [StartTried(o, true)], CapsAdvertised(caps, 1, true, ALL_SURFACE));
    var again := events + [StartTried(o, true)] + [CapsAdvertised(caps, 1, true, ALL_SURFACE)];
    CapturedMislabels(Run(start, again), now);
    RunSnoc(start, again, Captured(now));
  }

  /** An AVC444 stream starts, the client advertises a set without AVC, and the next H.264 frame goes out
      tagged Progressive. */
  lemma ReadvertisementMislabels()
    ensures var start := Start(false, 800, 608);
            var again := SET_UP + [StartTried(ALL_CODEC, true)] + [CapsAdvertised(PLAIN, 1, true, ALL_SURFACE)];
            && Feasible(start, again) && Feasible(start, again + [Captured(33)])
            && Misaligned(Run(start, again)) && !WireIsTrue(Run(start, again + [Captured(33)]))
  {
    SetUpIsReady();
    SetUpNegotiates();
    ReadvertiseAfter(Start(false, 800, 608), SET_UP, ALL_CODEC, PLAIN, 33);
  }

  // --- A confirmation refused ---

  const OPENING: seq<Event> := [SET_UP[0]] + [SET_UP[1]] + [SET_UP[2]]

  lemma OpeningOpens()
    ensures var start := Start(false, 800, 608); Feasible(start, OPENING) && Opened(Run(start, OPENING))
  {
    var start := Start(false, 800, 608);
    SetUpOpens();
    RunOne(start, SET_UP[0]);
    RunSnoc(start, [SET_UP[0]], SET_UP[1]);
    RunSnoc(start, [SET_UP[0]] + [SET_UP[1]], SET_UP[2]);
  }

  lemma RefusalStrands(s: Session, caps: seq<CapSet>)
    requires Opened(s)
    ensures Enabled(s, SET_UP[4]) && Enabled(Step(s, SET_UP[4]), CapsAdvertised(caps, 1, false, ALL_SURFACE))
    ensures var t := Step(Step(s, SET_UP[4]), CapsAdvertised(caps, 1, false, ALL_SURFACE));
            Stranded(t) && t.client.value.activated
  {
  }

  /** The client activates, and the confirmation of its capabilities is refused: it waits, half open. */
  lemma RefusedConfirmationStrands(caps: seq<CapSet>)
    ensures var start, events := Start(false, 800, 608),
            OPENING + [SET_UP[4]] + [CapsAdvertised(caps, 1, false, ALL_SURFACE)];
            Feasible(start, events) && Stranded(Run(start, events)) && Run(start, events).client.value.activated
  {
    var start := Start(false, 800, 608);
    OpeningOpens();
    RefusalStrands(Run(start, OPENING), caps);
    RunSnoc(start, OPENING, SET_UP[4]);
    RunSnoc(start, OPENING + [SET_UP[4]], CapsAdvertised(caps, 1, false, ALL_SURFACE));
  }

  // --- Channels opened twice ---

  /** The handshake is done and the display channel opens, but the graphics channel does not. */
  const HALF_POLL := VcmPoll(true, Ready, Opening(false, false),
                             SideOpening(Opening(true, true), false, Opening(false, false), Opening(false, false)))

  lemma HalfPollLeaks()
    ensures var s0 := Start(false, 800, 608);
            && Enabled(s0, SET_UP[0]) && Enabled(Step(s0, SET_UP[0]), SET_UP[1])
            && var s2 := Step(Step(s0, SET_UP[0]), SET_UP[1]);
               && Enabled(s2, VcmPolled(HALF_POLL))
               && var s3 := Step(s2, VcmPolled(HALF_POLL));
                  && s3.client.Some? && Reopens(s3.client.value, HALF_POLL) && Enabled(s3, VcmPolled(HALF_POLL))
                  && var s4 := Step(s3, VcmPolled(HALF_POLL));
                     s4.client.Some? && Leaked(s4.client.value) == 1
  {
  }

  /** Two polls in which the graphics channel fails and the display channel does not: one context is lost. */
  lemma RepeatedPollLeaks()
    ensures var start := Start(false, 800, 608);
            var events := [SET_UP[0]] + [SET_UP[1]] + [VcmPolled(HALF_POLL)] + [VcmPolled(HALF_POLL)];
            Feasible(start, events) && var s := Run(start, events); s.client.Some? && Leaked(s.client.value) == 1
  {
    var start := Start(false, 800, 608);
    HalfPollLeaks();
    RunOne(start, SET_UP[0]);
    RunSnoc(start, [SET_UP[0]], SET_UP[1]);
    RunSnoc(start, [SET_UP[0]] + [SET_UP[1]], VcmPolled(HALF_POLL));
    RunSnoc(start, [SET_UP[0]] + [SET_UP[1]] + [VcmPolled(HALF_POLL)], VcmPolled(HALF_POLL));
  }

  // --- A resize without a surface ---

  const NO_SURFACE := SurfaceOutcome(true, false, false)

  lemma ResizeLosesFit(s: Session, w: U32, h: U32, o: CodecInit, surface: SurfaceOutcome)
    requires s.client.Some? && s.client.value.gfx.ready && s.client.value.gfx.context
    requires SizeChanges(s, w, h) && !surface.createOk
    ensures var p := Resize(s, w, h, o, surface).client;
            p.Some? && p.value.gfx.ready && !SurfaceFit.Fits(p.value.wire, p.value.width, p.value.height)
  {
    SurfaceFit.SetUpFitsExactly(s.client.value.wire, AlignUp16(w), AlignUp16(h), surface);
  }

  /** The surface of the new size is refused, the client stays ready, and its surface does not fit. */
  lemma FailedResizeGoesUnnoticed()
    ensures var start := Start(false, 800, 608);
            var events := SET_UP + [ResizeRequested(1024, 768, ALL_CODEC, NO_SURFACE)];
            && Feasible(start, events)
            && var p := Run(start, events).client;
               p.Some? && p.value.gfx.ready && !SurfaceFit.Fits(p.value.wire, p.value.width, p.value.height)
  {
    var start := Start(false, 800, 608);
    SetUpNegotiates();
    RunSnoc(start, SET_UP, ResizeRequested(1024, 768, ALL_CODEC, NO_SURFACE));
    ResizeLosesFit(Run(start, SET_UP), 1024, 768, ALL_CODEC, NO_SURFACE);
  }

  // --- A capture failed ---

  lemma FailureStalls(s: Session, o: CodecInit)
    requires MayStart(s) && s.captures.pending == 0
    ensures var t := StartFrames(s, o, true);
            Enabled(t, CaptureFailed) && Step(t, CaptureFailed).clientActive
            && Step(t, CaptureFailed).captures.pending == 0
  {
  }

  /** The first capture of a stream fails: the stream is active, and nothing is outstanding. */
  lemma FailedCaptureStalls()
    ensures var start, events := Start(false, 800, 608), SET_UP + [StartTried(ALL_CODEC, true)] + [CaptureFailed];
            Feasible(start, events) && Run(start, events).clientActive && Run(start, events).captures.pending == 0
  {
    var start := Start(false, 800, 608);
    SetUpIsReady();
    SetUpNegotiates();
    FailureStalls(Run(start, SET_UP), ALL_CODEC);
    RunSnoc(start, SET_UP, StartTried(ALL_CODEC, true));
    RunSnoc(start, SET_UP + [StartTried(ALL_CODEC, true)], CaptureFailed);
  }
}
