/** Whether the codec tag on the wire tells the truth about the bytes behind it: exactly when, for one
    frame, and under which steps it stays so over whole runs. */
module CodecAgreement {
  import opened CapsNegotiation
  import opened EncoderSpec
  import opened Options
  import opened PacingFilter
  import opened PeerInvariant
  import opened PeerSpec
  import opened SessionInvariants
  import opened SessionSpec
  import opened SessionTypes
  import opened Words

  /** A frame's tag matches the encoder that produced the frame. */
  predicate TellsTruth(pdu: Pdu) {
    match pdu
    case SurfaceCommand(_, codec, _, _, _, producer, _) => TagMatches(codec, producer)
    case SurfaceBitsCommand(codec, _, _, _, producer, _) => TagMatches(codec, producer)
    case _ => true
  }

  ghost predicate Truthful(wire: seq<Pdu>) {
    forall i :: 0 <= i < |wire| ==> TellsTruth(wire[i])
  }

  /** The encoder fits a send mode. In AVC420 mode an encoder that is not H.264 has no region to report,
      and such frames are dropped before they are tagged. */
  predicate AlignedTo(mode: SendMode, nscodec: bool, e: EncoderState) {
    match mode
    case SurfaceBits => e.mode == if nscodec then Nsac else Raw
    case Avc420 => e.mode == H264 ==> e.picture.version == 0
    case Avc444 => e.mode == H264 && e.picture.version == 1
    case Avc444v2 => e.mode == H264 && e.picture.version == 2
    case Progressive => e.mode == ProgressiveRfx
  }

  predicate Aligned(p: PeerState, e: EncoderState) {
    AlignedTo(EffectiveMode(p), p.nscodec, e)
  }

  /** A raw encoder of an empty picture never has bytes to send. */
  predicate Mute(e: EncoderState) {
    e.mode == Raw && RawSize(e) == 0
  }

  /** The wire after one captured picture went through encoder and peer. */
  function AfterPicture(p: PeerState, e: EncoderState, eo: EncodeOutcome, w: U32, h: U32, so: SendOutcome)
    : (r: seq<Pdu>)
  {
    var (r, ok) := Encode(e, eo);
    if !ok || (r.output.outLen == 0 && r.output.auxLen == 0) then p.wire else SendFrame(p, FrameOf(r), w, h, so).wire
  }

  ghost predicate AlwaysTruthful(p: PeerState, e: EncoderState) {
    forall eo, w, h, so :: Truthful(AfterPicture(p, e, eo, w, h, so))
  }

  /** The frame may be sent in the peer's mode: its tag would be true, or it would be dropped. */
  predicate Fits(p: PeerState, f: Frame) {
    match EffectiveMode(p)
    case SurfaceBits => TagMatches(SurfaceBitsId(p), f.producer)
    case Avc420 => f.metaRects == 0 || TagMatches(IdAvc420, f.producer)
    case Avc444 => TagMatches(IdAvc444, f.producer)
    case Avc444v2 => TagMatches(IdAvc444v2, f.producer)
    case Progressive => TagMatches(IdCaProgressive, f.producer)
  }

  /** A graphics frame keeps the wire truthful exactly when its tag is true or no command goes out. */
  lemma SendGfxTruth(p: PeerState, codec: CodecId, len: U32, f: Frame, w: U32, h: U32, so: SendOutcome)
    requires Truthful(p.wire)
    ensures Truthful(SendGfx(p, codec, len, f, w, h, so).wire) <==> TagMatches(codec, f.producer) || !so.startOk
  {
    var q := SendGfx(p, codec, len, f, w, h, so);
    assert q.wire[..|p.wire|] == p.wire;
    if so.startOk {
      assert q.wire[|p.wire| + 1] == SurfaceCommand(p.gfx.surfaceId, codec, w, h, len, f.producer, so.commandOk);
    }
  }

  lemma FittingFrameIsTruthful(p: PeerState, f: Frame, w: U32, h: U32, so: SendOutcome)
    requires Truthful(p.wire) && Fits(p, f)
    ensures Truthful(SendFrame(p, f, w, h, so).wire)
  {
    match EffectiveMode(p)
    case SurfaceBits =>
    case Avc420 => SendGfxTruth(p, IdAvc420, f.outLen, f, w, h, so);
    case Avc444 => SendGfxTruth(p, IdAvc444, ToU32(f.outLen + f.auxLen), f, w, h, so);
    case Avc444v2 => SendGfxTruth(p, IdAvc444v2, ToU32(f.outLen + f.auxLen), f, w, h, so);
    case Progressive => SendGfxTruth(p, IdCaProgressive, f.outLen, f, w, h, so);
  }

  lemma AlignedFrameFits(p: PeerState, e: EncoderState, eo: EncodeOutcome)
    requires Sound(e) && Aligned(p, e)
    ensures Fits(p, FrameOf(Encode(e, eo).0))
  {
    EncodeKeepsSound(e, eo);
  }

  lemma MuteSendsNothing(p: PeerState, e: EncoderState, eo: EncodeOutcome, w: U32, h: U32, so: SendOutcome)
    requires Mute(e)
    ensures AfterPicture(p, e, eo, w, h, so) == p.wire
  {
  }

  lemma AlignedSendsTruth(p: PeerState, e: EncoderState, eo: EncodeOutcome, w: U32, h: U32, so: SendOutcome)
    requires Sound(e) && Truthful(p.wire) && (Aligned(p, e) || Mute(e))
    ensures Truthful(AfterPicture(p, e, eo, w, h, so))
  {
    if Aligned(p, e) {
      AlignedFrameFits(p, e, eo);
      FittingFrameIsTruthful(p, FrameOf(Encode(e, eo).0), w, h, so);
    } else {
      MuteSendsNothing(p, e, eo, w, h, so);
    }
  }

  const WITNESS_ENCODE := EncodeOutcome(true, true, true, 1, 1, 1, true, true)
  const WITNESS_SEND := SendOutcome(true, true, true)

  lemma WitnessDoesNotFit(p: PeerState, e: EncoderState)
    requires Sound(e) && !Aligned(p, e) && !Mute(e)
    ensures var (r, ok) := Encode(e, WITNESS_ENCODE); ok && r.output.outLen > 0 && !Fits(p, FrameOf(r))
  {
  }

  lemma UnfitFrameLies(p: PeerState, f: Frame)
    requires Truthful(p.wire) && !Fits(p, f) && f.outLen > 0
    ensures !Truthful(SendFrame(p, f, 16, 16, WITNESS_SEND).wire)
  {
    match EffectiveMode(p)
    case SurfaceBits =>
      var q := SendFrame(p, f, 16, 16, WITNESS_SEND);
      assert q.wire[|p.wire|] == SurfaceBitsCommand(SurfaceBitsId(p), 16, 16, f.outLen, f.producer, true);
    case Avc420 => SendGfxTruth(p, IdAvc420, f.outLen, f, 16, 16, WITNESS_SEND);
    case Avc444 => SendGfxTruth(p, IdAvc444, ToU32(f.outLen + f.auxLen), f, 16, 16, WITNESS_SEND);
    case Avc444v2 => SendGfxTruth(p, IdAvc444v2, ToU32(f.outLen + f.auxLen), f, 16, 16, WITNESS_SEND);
    case Progressive => SendGfxTruth(p, IdCaProgressive, f.outLen, f, 16, 16, WITNESS_SEND);
  }

  lemma MisalignedLies(p: PeerState, e: EncoderState)
    requires Sound(e) && Truthful(p.wire) && !Aligned(p, e) && !Mute(e)
    ensures !Truthful(AfterPicture(p, e, WITNESS_ENCODE, 16, 16, WITNESS_SEND))
  {
    WitnessDoesNotFit(p, e);
    UnfitFrameLies(p, FrameOf(Encode(e, WITNESS_ENCODE).0));
  }

  /** No frame, under any answers of the codec and the channel, is mislabelled: exactly when encoder and
      send mode are aligned, or the encoder can produce nothing. */
  lemma AgreementExactly(p: PeerState, e: EncoderState)
    requires Sound(e) && Truthful(p.wire)
    ensures AlwaysTruthful(p, e) <==> Aligned(p, e) || Mute(e)
  {
    if Aligned(p, e) || Mute(e) {
      forall eo, w, h, so
        ensures Truthful(AfterPicture(p, e, eo, w, h, so))
      {
        AlignedSendsTruth(p, e, eo, w, h, so);
      }
    } else {
      MisalignedLies(p, e);
    }
  }

  /** The wanted codec came up; for AVC420 it need not, because a fallback sends nothing. */
  predicate KeepsCodec(p: PeerState, o: CodecInit) {
    CodecUp(Wanted(p).mode, o) || EffectiveMode(p) == Avc420
  }

  /** Initialising for a client aligns the encoder with it exactly when the wanted codec came up or the
      mode is AVC420. */
  lemma InitAlignsExactly(s: Session, o: CodecInit)
    requires s.client.Some?
    ensures Aligned(s.client.value, InitEncoder(s, o).enc) <==> KeepsCodec(s.client.value, o)
  {
  }

  /** Capabilities advertised again while the wanted encoder runs keep it aligned exactly when they name
      the same mode, or AVC420 while no H.264 encoder runs. */
  lemma ReadvertiseKeepsExactly(p: PeerState, e: EncoderState, caps: seq<CapSet>, os: nat,
                                confirmOk: bool, o: SurfaceOutcome)
    requires Lifecycle(p) && p.gfx.ready && Producer(e.mode, e.picture.version) == Wanted(p)
    ensures Aligned(CapsAdvertise(p, caps, os, confirmOk, o), e) <==>
            Negotiated(caps, os) == p.mode || (Negotiated(caps, os) == Avc420 && e.mode != H264)
  {
  }

  // --- Whole runs ---

  /** Steps that leave a running stream's codec alone: a (re)initialisation gets its codec, a mode
      negotiated anew fits the running encoder, and NSCodec does not change under frames that use it. */
  predicate Steady(s: Session, e: Event) {
    match e
    case StartTried(o, _) => MayStart(s) ==> KeepsCodec(s.client.value, o)
    case ResizeRequested(w, h, o, _) =>
      s.clientActive && s.client.Some? && SizeChanges(s, w, h) ==> KeepsCodec(s.client.value, o)
    case Activated(w, h, nscodec, o, _) =>
      s.clientActive && s.client.Some? ==>
        var p := s.client.value;
        if (w != p.width || h != p.height) && SizeChanges(s, w, h) then KeepsCodec(p.(nscodec := nscodec), o)
        else nscodec == p.nscodec || EffectiveMode(p) != SurfaceBits
    case CapsAdvertised(caps, os, _, _) =>
      s.clientActive && s.client.Some? ==> AlignedTo(Negotiated(caps, os), s.client.value.nscodec, s.enc)
    case _ => true
  }

  ghost predicate SteadyRun(s: Session, events: seq<Event>)
    requires Feasible(s, events)
    decreases |events|
  {
    events != [] ==> Steady(s, events[0]) && SteadyRun(Step(s, events[0]), events[1..])
  }

  ghost predicate WireIsTrue(s: Session) {
    s.client.Some? ==> Truthful(s.client.value.wire)
  }

  ghost predicate Agrees(s: Session) {
    WireIsTrue(s) && (s.client.Some? && s.clientActive ==> Aligned(s.client.value, s.enc))
  }

  /** Every state along a run agrees. */
  ghost predicate AgreesThroughout(s: Session, events: seq<Event>)
    requires Feasible(s, events)
    decreases |events|
  {
    Agrees(s) && (events != [] ==> AgreesThroughout(Step(s, events[0]), events[1..]))
  }

  lemma SurfaceIsTruthful(p: PeerState, w: U32, h: U32, o: SurfaceOutcome)
    requires Truthful(p.wire)
    ensures Truthful(UpdateSize(p, w, h, o).wire) && Truthful(CreateSurfaceOn(p, w, h, o).wire)
  {
  }

  lemma CapsAdvertiseIsTruthful(p: PeerState, caps: seq<CapSet>, os: nat, confirmOk: bool, o: SurfaceOutcome)
    requires PeerInv(p) && p.gfx.context && Truthful(p.wire)
    ensures Truthful(CapsAdvertise(p, caps, os, confirmOk, o).wire)
  {
    var q := Emit(p.(mode := Negotiated(caps, os)), [CapsConfirm(Best(caps, IsApple(os)).1, confirmOk)]);
    assert Truthful(q.wire);
    SurfaceIsTruthful(q, q.width, q.height, o);
  }

  lemma UpdateSizeModes(p: PeerState, w: U32, h: U32, o: SurfaceOutcome)
    ensures var q := UpdateSize(p, w, h, o); q.nscodec == p.nscodec && EffectiveMode(q) == EffectiveMode(p)
  {
  }

  lemma RedisplayIsTruthful(s: Session, w: U32, h: U32, surface: SurfaceOutcome)
    requires SessionInv(s) && WireIsTrue(s) && s.client.Some?
    ensures var r := Redisplay(s, w, h, surface);
            && WireIsTrue(r) && r.client.Some? && r.clientActive == s.clientActive
            && forall o :: KeepsCodec(r.client.value, o) <==> KeepsCodec(s.client.value, o)
  {
    SurfaceIsTruthful(s.client.value, w, h, surface);
    UpdateSizeModes(s.client.value, w, h, surface);
  }

  lemma InitEncoderAgreesExactly(s: Session, o: CodecInit)
    requires WireIsTrue(s) && AwaitsEncoder(s)
    ensures WireIsTrue(InitEncoder(s, o)) && (Agrees(InitEncoder(s, o)) <==> KeepsCodec(s.client.value, o))
  {
    InitAlignsExactly(s, o);
    InitEncoderEffect(s, o);
  }

  lemma ResizeToAgreesExactly(s: Session, w: U32, h: U32, o: CodecInit, surface: SurfaceOutcome)
    requires SessionInv(s) && WireIsTrue(s) && s.client.Some?
    requires s.display.width != ToI32(w) || s.display.height != ToI32(h)
    ensures var r := ResizeTo(s, w, h, o, surface);
            WireIsTrue(r) && (Agrees(r) <==> (s.clientActive ==> KeepsCodec(s.client.value, o)))
  {
    RedisplayIsTruthful(s, w, h, surface);
    RedisplayKeeps(s, w, h, surface);
    if s.clientActive {
      InitEncoderAgreesExactly(Redisplay(s, w, h, surface), o);
    }
  }

  lemma StartFramesAgreesExactly(s: Session, o: CodecInit, requestOk: bool)
    requires SessionInv(s) && Agrees(s)
    ensures var r := StartFrames(s, o, requestOk);
            WireIsTrue(r) && (Agrees(r) <==> (MayStart(s) ==> KeepsCodec(s.client.value, o)))
  {
    if MayStart(s) {
      InitAlignsExactly(Started(s), o);
    }
  }

  /** One picture, skipped, dropped or sent, leaves wire and alignment as they should be. */
  lemma PictureAgrees(p: PeerState, e: EncoderState, eo: EncodeOutcome, w: U32, h: U32, so: SendOutcome)
    requires Sound(e) && Truthful(p.wire) && Aligned(p, e)
    ensures var (r, ok) := Encode(e, eo);
            var q := SendFrame(p, FrameOf(r), w, h, so);
            Aligned(p, r) && Aligned(q, r)
            && (ok && (r.output.outLen != 0 || r.output.auxLen != 0) ==> Truthful(q.wire))
  {
    EncodeKeepsSound(e, eo);
    AlignedSendsTruth(p, e, eo, w, h, so);
    SendFrameFrame(p, FrameOf(Encode(e, eo).0), w, h, so);
  }

  lemma RequestAgrees(s: Session, ok: bool)
    requires Agrees(s)
    ensures Agrees(RequestFrame(s, ok))
  {
  }

  lemma SendEncodedAgrees(s: Session, w: U32, h: U32, now: U64, encoded: U64, sent: U64, so: SendOutcome)
    requires s.client.Some?
    requires var q := SendFrame(s.client.value, FrameOf(s.enc), w, h, so); Truthful(q.wire) && Aligned(q, s.enc)
    ensures Agrees(SendEncoded(s, w, h, now, encoded, sent, so))
  {
  }

  lemma OnFrameReadyAgrees(s: Session, w: U32, h: U32, now: U64, encoded: U64, sent: U64,
                           eo: EncodeOutcome, so: SendOutcome, requestOk: bool)
    requires SessionInv(s) && Agrees(s)
    ensures Agrees(OnFrameReady(s, w, h, now, encoded, sent, eo, so, requestOk))
  {
    if s.clientActive && Elapsed(now, s.pacing.lastMs) < s.pacing.intervalMs {
      RequestAgrees(s, requestOk);
    } else if s.clientActive {
      PictureAgrees(s.client.value, s.enc, eo, w, h, so);
      var (e, ok) := Encode(s.enc, eo);
      var r := s.(enc := e);
      if !ok || (e.output.outLen == 0 && e.output.auxLen == 0) {
        RequestAgrees(r, requestOk);
      } else {
        SendEncodedAgrees(r, w, h, now, encoded, sent, so);
        RequestAgrees(SendEncoded(r, w, h, now, encoded, sent, so), requestOk);
      }
    }
  }

  lemma ResizeAgreesExactly(s: Session, e: Event)
    requires e.ResizeRequested? && Enabled(s, e) && SessionInv(s) && Agrees(s)
    ensures WireIsTrue(Step(s, e)) && (Agrees(Step(s, e)) <==> Steady(s, e))
  {
    if SizeChanges(s, e.width, e.height) {
      ResizeToAgreesExactly(s, AlignUp16(e.width), AlignUp16(e.height), e.codec, e.surface);
    }
  }

  lemma ActivateAgreesExactly(s: Session, e: Event)
    requires e.Activated? && Enabled(s, e) && SessionInv(s) && Agrees(s)
    ensures WireIsTrue(Step(s, e)) && (Agrees(Step(s, e)) <==> Steady(s, e))
  {
    var p := s.client.value;
    var r := s.(client := Some(p.(activated := true, nscodec := e.nscodec)));
    assert SessionInv(r) && WireIsTrue(r);
    if (e.width != p.width || e.height != p.height) && SizeChanges(s, e.width, e.height) {
      ResizeToAgreesExactly(r, AlignUp16(e.width), AlignUp16(e.height), e.codec, e.surface);
    } else {
      assert Step(s, e) == r;
    }
  }

  lemma CapsAdvertisedAgreesExactly(s: Session, e: Event)
    requires e.CapsAdvertised? && Enabled(s, e) && SessionInv(s) && Agrees(s)
    ensures WireIsTrue(Step(s, e)) && (Agrees(Step(s, e)) <==> Steady(s, e))
  {
    CapsAdvertiseIsTruthful(s.client.value, e.caps, e.os, e.confirmOk, e.surface);
    if s.clientActive {
      assert EffectiveMode(CapsAdvertise(s.client.value, e.caps, e.os, e.confirmOk, e.surface))
          == Negotiated(e.caps, e.os);
    }
  }

  lemma PumpVcmAgrees(s: Session, poll: VcmPoll)
    requires SessionInv(s) && Agrees(s) && s.client.Some?
    ensures Agrees(PumpVcm(s, poll))
  {
    CheckVcmKeeps(s.client.value, poll);
  }

  lemma CaptureReadyAgrees(s: Session, e: Event)
    requires e.CaptureReady? && Enabled(s, e) && SessionInv(s) && Agrees(s)
    ensures Agrees(Step(s, e))
  {
    var r := Answered(s).(pacing := s.pacing.(clock := e.sent));
    assert SessionInv(r);
    OnFrameReadyAgrees(r, e.w, e.h, e.now, e.encoded, e.sent, e.encode, e.send, e.requestOk);
  }

  /** Whoever is accepted starts with an empty wire and no encoder. */
  lemma AdoptAgrees(s: Session, fd: int, o: PeerSetup)
    requires s.client.None? && !s.clientActive
    ensures Agrees(Adopt(s, fd, o)) && Agrees(CloseSocket(s, fd))
  {
  }

  lemma AcceptedAgrees(s: Session, e: Event)
    requires e.PeerAccepted? && Enabled(s, e) && Streaming(s) && Agrees(s)
    ensures Agrees(Step(s, e))
  {
    if s.client.None? {
      AdoptAgrees(TakeSocket(s, e.fd), e.fd, e.setup);
    }
  }

  lemma ReplacedAgrees(s: Session, e: Event)
    requires e.IpcReadable? && Enabled(s, e) && Streaming(s) && Agrees(s)
    ensures Agrees(Step(s, e))
  {
    if e.ok && e.fd >= 0 {
      AdoptAgrees(Disconnect(TakeSocket(s, e.fd)), e.fd, e.setup);
    }
  }

  /** PostConnect comes before any frame is sent, so NSCodec may still change. */
  lemma SettingUpAgrees(s: Session, e: Event)
    requires (e.PostConnected? || e.ClientPolled? || e.Watched? || e.CaptureFailed?)
             && Enabled(s, e) && SessionInv(s) && Agrees(s)
    ensures Agrees(Step(s, e))
  {
  }

  /** From a state that agrees, a step leads to one that agrees exactly when it is steady; whatever the
      step, the wire is still true. */
  lemma StepAgreesExactly(s: Session, e: Event)
    requires Enabled(s, e) && SessionInv(s) && Agrees(s)
    ensures WireIsTrue(Step(s, e)) && (Agrees(Step(s, e)) <==> Steady(s, e))
  {
    match e
    case PeerAccepted(_, _) => AcceptedAgrees(s, e);
    case IpcReadable(_, _, _, _) => ReplacedAgrees(s, e);
    case PostConnected(_, _, _, _) => SettingUpAgrees(s, e);
    case Activated(_, _, _, _, _) => ActivateAgreesExactly(s, e);
    case ResizeRequested(_, _, _, _) => ResizeAgreesExactly(s, e);
    case CapsAdvertised(_, _, _, _) => CapsAdvertisedAgreesExactly(s, e);
    case ClientPolled(_) => SettingUpAgrees(s, e);
    case Watched(_) => SettingUpAgrees(s, e);
    case VcmPolled(poll) => PumpVcmAgrees(s, poll);
    case StartTried(o, ok) => StartFramesAgreesExactly(s, o, ok);
    case CaptureReady(_, _, _, _, _, _, _, _) => CaptureReadyAgrees(s, e);
    case CaptureFailed => SettingUpAgrees(s, e);
  }

  /** A running stream, not a frame of it mislabelled yet, whose encoder does not fit its send mode. */
  ghost predicate Misaligned(s: Session) {
    && s.client.Some? && s.clientActive && Truthful(s.client.value.wire)
    && Sound(s.enc) && !Aligned(s.client.value, s.enc)
  }

  lemma SoundAfter(s: Session, e: Event)
    requires Enabled(s, e) && SessionInv(s)
    ensures Sound(Step(s, e).enc)
  {
    StepKeepsInv(s, e);
  }

  /** The first step of a run that is not steady leaves a misaligned stream. */
  lemma UnsteadyStepMisaligns(s: Session, e: Event)
    requires Enabled(s, e) && SessionInv(s) && Agrees(s) && !Steady(s, e)
    ensures Misaligned(Step(s, e))
  {
    StepAgreesExactly(s, e);
    SoundAfter(s, e);
  }

  /** A captured picture that is due goes through encoder and peer; one that comes early goes nowhere. */
  lemma CaptureIsPicture(s: Session, e: Event)
    requires e.CaptureReady? && Enabled(s, e) && s.client.Some? && s.clientActive && s.encoderInitialized
    ensures Step(s, e).client.Some?
    ensures Step(s, e).client.value.wire ==
            if Elapsed(e.now, s.pacing.lastMs) < s.pacing.intervalMs then s.client.value.wire
            else AfterPicture(s.client.value, s.enc, e.encode, e.w, e.h, e.send)
  {
  }

  /** A picture captured and encoded without failure. */
  function Captured(now: U64): (r: Event) {
    CaptureReady(16, 16, now, now, now, WITNESS_ENCODE, WITNESS_SEND, true)
  }

  lemma CapturedMislabels(s: Session, now: U64)
    requires Misaligned(s) && s.encoderInitialized && !Mute(s.enc) && s.captures.pending > 0
    requires s.pacing.clock <= now && s.pacing.lastMs + s.pacing.intervalMs <= now
    ensures Enabled(s, Captured(now)) && !WireIsTrue(Step(s, Captured(now)))
  {
    CaptureIsPicture(s, Captured(now));
    MisalignedLies(s.client.value, s.enc);
  }

  lemma MuteStaysTrue(s: Session, e: Event)
    requires Misaligned(s) && s.encoderInitialized && Mute(s.enc) && e.CaptureReady? && Enabled(s, e)
    ensures WireIsTrue(Step(s, e))
  {
    CaptureIsPicture(s, e);
    MuteSendsNothing(s.client.value, s.enc, e.encode, e.w, e.h, e.send);
  }

  /** In a misaligned stream with a capture outstanding, some answer to it puts a mislabelled frame on the
      wire, unless the raw picture is empty: exactly then none does. */
  lemma MisalignedStreamMislabelsExactly(s: Session)
    requires SessionInv(s) && Misaligned(s) && s.captures.pending > 0
    requires s.pacing.lastMs + s.pacing.intervalMs < 0x1_0000_0000_0000_0000
    ensures (exists e: Event :: e.CaptureReady? && Enabled(s, e) && !WireIsTrue(Step(s, e))) <==> !Mute(s.enc)
  {
    if Mute(s.enc) {
      forall e: Event | e.CaptureReady? && Enabled(s, e)
        ensures WireIsTrue(Step(s, e))
      {
        MuteStaysTrue(s, e);
      }
    } else {
      var due := s.pacing.lastMs + s.pacing.intervalMs;
      var now: U64 := if due <= s.pacing.clock then s.pacing.clock else due;
      CapturedMislabels(s, now);
    }
  }

  lemma OneStepMore(s: Session, events: seq<Event>, next: Session)
    requires Feasible(s, events) && events != [] && next == Step(s, events[0])
    requires Agrees(s) && (Agrees(next) <==> Steady(s, events[0]))
    requires Agrees(next) ==> (SteadyRun(next, events[1..]) <==> AgreesThroughout(next, events[1..]))
    requires Agrees(next) && SteadyRun(next, events[1..]) ==> Agrees(Run(next, events[1..]))
    ensures SteadyRun(s, events) <==> AgreesThroughout(s, events)
    ensures SteadyRun(s, events) ==> Agrees(Run(s, events))
  {
  }

  /** A run agrees in every state along it exactly when each of its steps is steady. */
  lemma {:induction false} SteadyRunsExactly(s: Session, events: seq<Event>)
    requires SessionInv(s) && Agrees(s) && Feasible(s, events)
    ensures SteadyRun(s, events) <==> AgreesThroughout(s, events)
    ensures SteadyRun(s, events) ==> Agrees(Run(s, events))
    decreases |events|
  {
    if events != [] {
      var next := Step(s, events[0]);
      StepKeepsInv(s, events[0]);
      StepAgreesExactly(s, events[0]);
      if Agrees(next) {
        SteadyRunsExactly(next, events[1..]);
      }
      OneStepMore(s, events, next);
    }
  }

  /** From the start of the process: encoder and send mode agree at every moment exactly when all steps
      are steady, and then no frame has been mislabelled. */
  lemma EveryFrameAgrees(ipcMode: bool, w: I32, h: I32, events: seq<Event>)
    requires Feasible(Start(ipcMode, w, h), events)
    ensures SteadyRun(Start(ipcMode, w, h), events) <==> AgreesThroughout(Start(ipcMode, w, h), events)
    ensures SteadyRun(Start(ipcMode, w, h), events) ==>
              var s := Run(Start(ipcMode, w, h), events); s.client.Some? ==> Truthful(s.client.value.wire)
  {
    StartInv(ipcMode, w, h);
    SteadyRunsExactly(Start(ipcMode, w, h), events);
  }

  // --- A run that mislabels ---

  const ALL_SURFACE := SurfaceOutcome(true, true, true)

  /** The state right before streaming: a Windows client that negotiated AVC444, activated at 800x608. */
  const NEGOTIATED := PeerState(7, 800, 608, true, true, Gfx(true, true, true, 1, 0),
                                Side(false, false, false, ChannelContexts(1, 0, 0, 0)), Avc444, true, 32,
                                [CapsConfirm(0, true), ResetGraphics(800, 608, true),
                                 CreateSurface(1, 800, 608, true), MapSurface(1, true)])

  const NOTHING_ELSE := SideOpening(Opening(false, false), false, Opening(false, false), Opening(false, false))
  const SET_UP: seq<Event> := [
    PeerAccepted(7, PeerSetup(true, true, true, true)),
    PostConnected(true, true, 32, VcmOutcome(true, true)),
    VcmPolled(VcmPoll(true, Ready, Opening(true, true), NOTHING_ELSE)),
    CapsAdvertised([CapSet(VERSION_10, 0)], 1, true, ALL_SURFACE),
    Activated(800, 608, true, CodecInit(true, true, true), ALL_SURFACE)]

  /** The first capability set makes the peer ready in AVC444 mode. */
  lemma CapsNegotiate(p: PeerState, caps: seq<CapSet>, os: nat, o: SurfaceOutcome)
    requires p == NEGOTIATED.(activated := false, gfx := Gfx(true, true, false, 0, 0), mode := SurfaceBits, wire := [])
    requires caps == [CapSet(VERSION_10, 0)] && os == 1 && o == ALL_SURFACE
    ensures PeerSpec.CapsAdvertise(p, caps, os, true, o) == NEGOTIATED.(activated := false)
  {
    assert caps[..0] == [];
    assert Best(caps, IsApple(os)) == (3, 0);
    assert PeerSpec.CapsAdvertise(p, caps, os, true, o).wire == NEGOTIATED.wire;
  }

  lemma FiveEvents(s0: Session, e: seq<Event>)
    requires |e| == 5 && Enabled(s0, e[0])
    requires var s1 := Step(s0, e[0]);
             Enabled(s1, e[1]) &&
             var s2 := Step(s1, e[1]);
             Enabled(s2, e[2]) &&
             var s3 := Step(s2, e[2]);
             Enabled(s3, e[3]) && Enabled(Step(s3, e[3]), e[4])
    ensures Feasible(s0, e)
    ensures Run(s0, e) == Step(Step(Step(Step(Step(s0, e[0]), e[1]), e[2]), e[3]), e[4])
  {
    var s1 := Step(s0, e[0]);
    var s2 := Step(s1, e[1]);
    var s3 := Step(s2, e[2]);
    var s4 := Step(s3, e[3]);
    RunCons(s4, e[4], []);
    assert e[4..] == [e[4]] + [];
    RunCons(s3, e[3], e[4..]);
    assert e[3..] == [e[3]] + e[4..];
    RunCons(s2, e[2], e[3..]);
    assert e[2..] == [e[2]] + e[3..];
    RunCons(s1, e[1], e[2..]);
    assert e[1..] == [e[1]] + e[2..];
    RunCons(s0, e[0], e[1..]);
    assert e == [e[0]] + e[1..];
  }

  /** The state while the channel is open and nothing negotiated yet. */
  ghost predicate Opened(s: Session) {
    && s == Start(false, 800, 608).(client := s.client, sockets := Sockets(multiset{7}, multiset{}))
    && s.client == Some(NEGOTIATED.(activated := false,
                                    gfx := Gfx(true, true, false, 0, 0), mode := SurfaceBits, wire := []))
  }

  lemma SetUpOpens()
    ensures var s0 := Start(false, 800, 608);
            && Enabled(s0, SET_UP[0]) && Enabled(Step(s0, SET_UP[0]), SET_UP[1])
            && var s2 := Step(Step(s0, SET_UP[0]), SET_UP[1]); Enabled(s2, SET_UP[2]) && Opened(Step(s2, SET_UP[2]))
  {
  }

  lemma OpenedNegotiates(s: Session)
    requires Opened(s)
    ensures Enabled(s, SET_UP[3]) && Enabled(Step(s, SET_UP[3]), SET_UP[4])
    ensures Step(Step(s, SET_UP[3]), SET_UP[4]) == s.(client := Some(NEGOTIATED))
  {
    CapsNegotiate(s.client.value, SET_UP[3].caps, SET_UP[3].os, SET_UP[3].surface);
  }

  lemma SetUpNegotiates()
    ensures var s := Start(false, 800, 608);
            var r := s.(client := Some(NEGOTIATED), sockets := Sockets(multiset{7}, multiset{}));
            Feasible(s, SET_UP) && Run(s, SET_UP) == r
  {
    var s0 := Start(false, 800, 608);
    SetUpOpens();
    OpenedNegotiates(Step(Step(Step(s0, SET_UP[0]), SET_UP[1]), SET_UP[2]));
    FiveEvents(s0, SET_UP);
  }

  const NO_CODEC := CodecInit(false, false, false)

  lemma StartFramesFields(s: Session, o: CodecInit, requestOk: bool)
    requires MayStart(s)
    ensures var i, r := InitEncoder(Started(s), o), StartFrames(s, o, requestOk);
            r.enc == i.enc && r.client == s.client && r.clientActive
  {
  }

  /** What an initialisation leaves behind: the aligned encoder, or a raw one in its place. */
  ghost predicate Settles(p: PeerState, e: EncoderState, o: CodecInit) {
    Sound(e) && if KeepsCodec(p, o) then Aligned(p, e) else e.mode == Raw && !Aligned(p, e)
  }

  lemma FallbackExactly(p: PeerState, e: EncoderState, o: CodecInit)
    requires Settles(p, e, o) && Truthful(p.wire)
    ensures AlwaysTruthful(p, e) <==> KeepsCodec(p, o) || RawSize(e) == 0
  {
    AgreementExactly(p, e);
  }

  lemma WithoutCodecRaw(s: Session, o: CodecInit)
    requires s.client.Some? && !CodecUp(Wanted(s.client.value).mode, o)
    ensures InitEncoder(s, o).enc.mode == Raw
  {
  }

  lemma InitLandsOn(s: Session, o: CodecInit)
    requires s.client.Some?
    ensures var p, e := s.client.value, InitEncoder(s, o).enc;
            if KeepsCodec(p, o) then Aligned(p, e) else e.mode == Raw && !Aligned(p, e)
  {
    InitAlignsExactly(s, o);
    if !KeepsCodec(s.client.value, o) {
      WithoutCodecRaw(s, o);
    }
  }

  lemma StartSettles(s: Session, o: CodecInit, requestOk: bool)
    requires MayStart(s) && !s.encoderInitialized && IsEmpty(s.enc.live)
    ensures var r, p := StartFrames(s, o, requestOk), s.client.value;
            r.clientActive && r.client == s.client && Settles(p, r.enc, o)
  {
    StartFramesFields(s, o, requestOk);
    var want := Wanted(s.client.value);
    InitSoundIffNothingLive(s.enc, want.mode, ToU32(s.display.width), ToU32(s.display.height), want.version,
                            s.client.value.bpp, o);
    InitLandsOn(Started(s), o);
  }

  /** A stream can mislabel a frame from its start on exactly when the wanted codec did not come up, the
      mode is not AVC420, and the output is not empty. */
  lemma StartMislabelsExactly(s: Session, o: CodecInit, requestOk: bool)
    requires MayStart(s) && !s.encoderInitialized && IsEmpty(s.enc.live) && Truthful(s.client.value.wire)
    ensures var r, p := StartFrames(s, o, requestOk), s.client.value;
            && r.clientActive && r.client == s.client
            && (AlwaysTruthful(p, r.enc) <==> KeepsCodec(p, o) || RawSize(r.enc) == 0)
  {
    StartSettles(s, o, requestOk);
    FallbackExactly(s.client.value, StartFrames(s, o, requestOk).enc, o);
  }

  lemma StartedSize(s: Session, o: CodecInit, requestOk: bool)
    requires MayStart(s)
    ensures RawSize(StartFrames(s, o, requestOk).enc)
         == RawBytes(ToU32(s.display.width), ToU32(s.display.height), s.client.value.bpp)
  {
  }

  /** A client in AVC444 mode waits for a stream of a picture that is not empty. */
  ghost predicate ReadyToStream(s: Session) {
    && MayStart(s) && !s.encoderInitialized && IsEmpty(s.enc.live)
    && Truthful(s.client.value.wire) && EffectiveMode(s.client.value) == Avc444
    && RawBytes(ToU32(s.display.width), ToU32(s.display.height), s.client.value.bpp) > 0
  }

  lemma NoContextNoCodec(p: PeerState, o: CodecInit)
    requires EffectiveMode(p) == Avc444 && !o.newOk
    ensures !KeepsCodec(p, o)
  {
  }

  lemma StartTiming(s: Session, o: CodecInit)
    requires MayStart(s)
    ensures var t := StartFrames(s, o, true);
            t.encoderInitialized && t.captures.pending > 0 && t.pacing == s.pacing.(intervalMs := DEFAULT_MS)
  {
  }

  /** The fallback leaves a misaligned stream that waits for its first picture. */
  lemma FallbackMisaligns(s: Session, o: CodecInit)
    requires ReadyToStream(s) && !o.newOk
    ensures var t := StartFrames(s, o, true); Misaligned(t) && !Mute(t.enc)
  {
    StartSettles(s, o, true);
    StartedSize(s, o, true);
    NoContextNoCodec(s.client.value, o);
  }

  lemma FallbackLies(s: Session, o: CodecInit, now: U64)
    requires ReadyToStream(s) && !o.newOk
    requires s.pacing.clock <= now && s.pacing.lastMs + DEFAULT_MS <= now
    ensures var t := StartFrames(s, o, true); Enabled(t, Captured(now)) && !WireIsTrue(Step(t, Captured(now)))
  {
    FallbackMisaligns(s, o);
    StartTiming(s, o);
    CapturedMislabels(StartFrames(s, o, true), now);
  }

  lemma NegotiatedIsReady(s: Session)
    requires s.client == Some(NEGOTIATED) && !s.clientActive && !s.encoderInitialized && IsEmpty(s.enc.live)
    requires s.display.width == 800 && s.display.height == 608
    ensures ReadyToStream(s)
  {
  }

  lemma SetUpIsReady()
    ensures var start := Start(false, 800, 608);
            && Feasible(start, SET_UP)
            && var s := Run(start, SET_UP); ReadyToStream(s) && s.pacing.clock == 0 && s.pacing.lastMs == 0
  {
    SetUpNegotiates();
    NegotiatedIsReady(Run(Start(false, 800, 608), SET_UP));
  }

  lemma FallbackAfter(start: Session, events: seq<Event>, o: CodecInit, now: U64)
    requires Feasible(start, events) && ReadyToStream(Run(start, events)) && !o.newOk
    requires var p := Run(start, events).pacing; p.clock <= now && p.lastMs + DEFAULT_MS <= now
    ensures var all := events + [StartTried(o, true)] + [Captured(now)];
            Feasible(start, all) && !WireIsTrue(Run(start, all))
  {
    RunSnoc(start, events, StartTried(o, true));
    FallbackLies(Run(start, events), o, now);
    RunSnoc(start, events + [StartTried(o, true)], Captured(now));
  }

  /** A complete run: when the H.264 context cannot be created, the first raw picture of the fallback goes
      out tagged AVC444. */
  lemma FallbackMislabels()
    ensures var start, events := Start(false, 800, 608), SET_UP + [StartTried(NO_CODEC, true)] + [Captured(33)];
            Feasible(start, events) && !WireIsTrue(Run(start, events))
  {
    SetUpIsReady();
    FallbackAfter(Start(false, 800, 608), SET_UP, NO_CODEC, 33);
  }
}
