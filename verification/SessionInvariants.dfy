/** What every step of the session worker keeps, and hence what holds in every reachable state. */
module SessionInvariants {
  import opened CapsNegotiation
  import opened EncoderSpec
  import opened Options
  import opened PacingFilter
  import opened PeerInvariant
  import opened PeerSpec
  import opened SessionSpec
  import opened SessionTypes
  import opened Words

  // --- The invariant, part by part ---

  ghost predicate ClientInv(s: Session) {
    s.client.Some? ==> PeerInv(s.client.value)
  }

  /** Frames flow only to an activated client whose graphics channel is settled, an encoder exists
      exactly while they flow, and it owns exactly the codec resources that are live. */
  ghost predicate Streaming(s: Session) {
    && (s.clientActive ==>
          s.client.Some? && s.client.value.activated && (!s.client.value.vcm || s.client.value.gfx.ready))
    && (s.clientActive <==> s.encoderInitialized)
    && Sound(s.enc)
    && (!s.encoderInitialized ==> Blank(s.enc))
  }

  /** Server, peer, pointer extents and encoder agree on the output size. */
  ghost predicate SizesAgree(s: Session) {
    var w, h := ToU32(s.display.width), ToU32(s.display.height);
    && s.display.inputWidth == w && s.display.inputHeight == h
    && (s.client.Some? ==> s.client.value.width == w && s.client.value.height == h)
    && (s.encoderInitialized ==> s.enc.picture.width == w && s.enc.picture.height == h)
  }

  /** No more captures are outstanding than streams were started. */
  ghost predicate CapturesBounded(s: Session) {
    s.captures.pending <= s.captures.starts
  }

  /** Each frame starts at least the interval in force after the previous send ended, and that interval
      is the one stored by the previous send or, on a new stream, the default. */
  ghost predicate Spaced(sends: seq<SendRecord>) {
    && (forall i :: 0 <= i < |sends| ==> MIN_MS <= sends[i].gate && sends[i].start <= sends[i].end)
    && (forall i :: 0 < i < |sends| ==> sends[i].start - sends[i - 1].end >= sends[i].gate)
    && (forall i :: 0 < i < |sends| ==> sends[i].gate == sends[i - 1].next || sends[i].gate == DEFAULT_MS)
  }

  ghost predicate Paced(p: Pacing) {
    && MIN_MS <= p.intervalMs <= MAX_MS
    && p.lastMs <= p.clock
    && Spaced(p.sends)
    && (p.sends != [] ==>
          var last := p.sends[|p.sends| - 1];
          p.lastMs == last.end && (p.intervalMs == last.next || p.intervalMs == DEFAULT_MS))
  }

  function ClientSocket(s: Session): (r: multiset<int>) {
    if s.client.Some? then multiset{s.client.value.fd} else multiset{}
  }

  /** Every peer socket ever received is closed, or is the current client's. */
  ghost predicate SocketsConserved(s: Session) {
    s.sockets.received == s.sockets.closed + ClientSocket(s)
  }

  ghost predicate SessionInv(s: Session) {
    ClientInv(s) && Streaming(s) && SizesAgree(s) && CapturesBounded(s) && Paced(s.pacing) && SocketsConserved(s)
  }

  // --- Every step keeps it ---

  lemma StartInv(ipcMode: bool, w: I32, h: I32)
    ensures SessionInv(Start(ipcMode, w, h))
  {
  }

  /** Initialising replaces the encoder by one of the server's size, with nothing left over. */
  lemma InitEncoderEffect(s: Session, o: CodecInit)
    requires Sound(s.enc) && (!s.encoderInitialized ==> Blank(s.enc))
    ensures var r := InitEncoder(s, o);
            && r == s.(enc := r.enc, encoderInitialized := true) && Sound(r.enc)
            && r.enc.picture.width == ToU32(s.display.width) && r.enc.picture.height == ToU32(s.display.height)
  {
    if s.encoderInitialized {
      DestroyFreesAll(s.enc);
    }
    var e := if s.encoderInitialized then Destroy(s.enc) else s.enc;
    assert IsEmpty(e.live);
    var want := if s.client.Some? then Wanted(s.client.value) else Producer(Raw, 0);
    var bpp := if s.client.Some? then s.client.value.bpp else 32;
    InitSoundIffNothingLive(e, want.mode, ToU32(s.display.width), ToU32(s.display.height), want.version, bpp, o);
  }

  /** Everything but the encoder is settled: it may still be absent or have the old size. */
  ghost predicate AwaitsEncoder(s: Session) {
    && ClientInv(s) && CapturesBounded(s) && Paced(s.pacing) && SocketsConserved(s)
    && SizesAgree(s.(encoderInitialized := false))
    && Sound(s.enc) && (!s.encoderInitialized ==> Blank(s.enc))
    && s.clientActive && s.client.Some? && s.client.value.activated
    && (!s.client.value.vcm || s.client.value.gfx.ready)
  }

  lemma EncoderReplacedKeeps(s: Session, e: EncoderState)
    requires AwaitsEncoder(s) && Sound(e)
    requires e.picture.width == ToU32(s.display.width) && e.picture.height == ToU32(s.display.height)
    ensures SessionInv(s.(enc := e, encoderInitialized := true))
  {
  }

  lemma InitEncoderKeeps(s: Session, o: CodecInit)
    requires AwaitsEncoder(s)
    ensures var r := InitEncoder(s, o); SessionInv(r) && r.captures == s.captures
  {
    InitEncoderEffect(s, o);
    EncoderReplacedKeeps(s, InitEncoder(s, o).enc);
  }

  lemma UpdateSizeFrame(p: PeerState, w: U32, h: U32, o: SurfaceOutcome)
    ensures var q := UpdateSize(p, w, h, o);
            && q.fd == p.fd && q.activated == p.activated && q.width == w && q.height == h
            && q.vcm == p.vcm && q.gfx.ready == p.gfx.ready
  {
  }

  lemma RedisplayKeeps(s: Session, w: U32, h: U32, surface: SurfaceOutcome)
    requires SessionInv(s)
    ensures var r := Redisplay(s, w, h, surface); if s.encoderInitialized then AwaitsEncoder(r) else SessionInv(r)
  {
    if s.client.Some? {
      UpdateSizeKeeps(s.client.value, w, h, surface);
      UpdateSizeFrame(s.client.value, w, h, surface);
    }
    SignRoundTrip(w, 0);
    SignRoundTrip(h, 0);
  }

  lemma ResizeToKeeps(s: Session, w: U32, h: U32, o: CodecInit, surface: SurfaceOutcome)
    requires SessionInv(s)
    ensures SessionInv(ResizeTo(s, w, h, o, surface))
  {
    RedisplayKeeps(s, w, h, surface);
    if s.encoderInitialized {
      InitEncoderKeeps(Redisplay(s, w, h, surface), o);
    }
  }

  lemma ActivateKeeps(s: Session, w: U32, h: U32, nscodec: bool, o: CodecInit, surface: SurfaceOutcome)
    requires SessionInv(s) && s.client.Some?
    ensures SessionInv(Activate(s, w, h, nscodec, o, surface))
  {
    var r := s.(client := Some(s.client.value.(activated := true, nscodec := nscodec)));
    assert SessionInv(r);
    ResizeToKeeps(r, AlignUp16(w), AlignUp16(h), o, surface);
  }

  lemma DisconnectFields(s: Session)
    ensures var d := Disconnect(s);
            && d.client.None? && !d.encoderInitialized && (s.client.Some? || !s.clientActive ==> !d.clientActive)
            && d.enc == (if s.encoderInitialized then Destroy(s.enc) else s.enc)
            && d.display == s.display && d.pacing == s.pacing && d.captures == s.captures
            && d.sockets.received == s.sockets.received && d.sockets.closed == s.sockets.closed + ClientSocket(s)
  {
  }

  lemma DisconnectKeeps(s: Session)
    requires SessionInv(s)
    ensures SessionInv(Disconnect(s)) && Disconnect(s).client.None?
  {
    if s.encoderInitialized {
      DestroyFreesAll(s.enc);
    }
    DisconnectFields(s);
  }

  /** A socket just received, by a server without a client: it is the one socket not yet accounted for. */
  ghost predicate Incoming(s: Session, fd: int) {
    && s.client.None? && ClientInv(s) && Streaming(s) && SizesAgree(s) && CapturesBounded(s) && Paced(s.pacing)
    && s.sockets.received == s.sockets.closed + multiset{fd}
  }

  lemma AdoptKeeps(s: Session, fd: int, o: PeerSetup)
    requires Incoming(s, fd)
    ensures SessionInv(Adopt(s, fd, o)) && SessionInv(CloseSocket(s, fd))
  {
    NewPeerInv(fd, ToU32(s.display.width), ToU32(s.display.height));
  }

  lemma AcceptPeerKeeps(s: Session, fd: int, o: PeerSetup)
    requires SessionInv(s)
    ensures SessionInv(AcceptPeer(s, fd, o))
  {
    if s.client.None? {
      AdoptKeeps(TakeSocket(s, fd), fd, o);
    }
  }

  lemma DisconnectLeavesIncoming(s: Session, fd: int)
    requires SessionInv(s)
    ensures Incoming(Disconnect(TakeSocket(s, fd)), fd)
  {
    if s.encoderInitialized {
      DestroyFreesAll(s.enc);
    }
    DisconnectFields(TakeSocket(s, fd));
  }

  lemma ReplaceClientKeeps(s: Session, fd: int, o: PeerSetup)
    requires SessionInv(s)
    ensures SessionInv(ReplaceClient(TakeSocket(s, fd), fd, o))
  {
    DisconnectLeavesIncoming(s, fd);
    AdoptKeeps(Disconnect(TakeSocket(s, fd)), fd, o);
  }

  lemma AcceptIpcKeeps(s: Session, ok: bool, msgType: nat, fd: int, o: PeerSetup)
    requires SessionInv(s) && (!ok || msgType == MSG_SHUTDOWN ==> fd < 0)
    ensures SessionInv(AcceptIpc(s, ok, msgType, fd, o))
  {
    if ok && msgType == MSG_NEW_CLIENT && fd >= 0 {
      ReplaceClientKeeps(s, fd, o);
    } else {
      assert AcceptIpc(s, ok, msgType, fd, o)
          == s.(running := AcceptIpc(s, ok, msgType, fd, o).running,
                sockets := AcceptIpc(s, ok, msgType, fd, o).sockets);
    }
  }

  lemma CheckVcmFrame(p: PeerState, poll: VcmPoll)
    ensures var q := CheckVcm(p, poll).0;
            q.fd == p.fd && q.activated == p.activated && q.width == p.width && q.height == p.height
  {
  }

  lemma PumpVcmKeeps(s: Session, poll: VcmPoll)
    requires SessionInv(s) && s.client.Some?
    ensures SessionInv(PumpVcm(s, poll))
  {
    CheckVcmKeeps(s.client.value, poll);
    var r := s.(client := Some(CheckVcm(s.client.value, poll).0));
    CheckVcmFrame(s.client.value, poll);
    assert SessionInv(r);
    DisconnectKeeps(r);
  }

  lemma CapsAdvertiseFrame(p: PeerState, caps: seq<CapSet>, os: nat, confirmOk: bool, o: SurfaceOutcome)
    ensures var q := CapsAdvertise(p, caps, os, confirmOk, o);
            q.fd == p.fd && q.activated == p.activated && q.width == p.width && q.height == p.height
  {
  }

  lemma CapsAdvertisedKeeps(s: Session, caps: seq<CapSet>, os: nat, confirmOk: bool, o: SurfaceOutcome)
    requires SessionInv(s) && s.client.Some? && s.client.value.gfx.context
    ensures SessionInv(s.(client := Some(CapsAdvertise(s.client.value, caps, os, confirmOk, o))))
  {
    CapsAdvertiseKeeps(s.client.value, caps, os, confirmOk, o);
    CapsAdvertiseFrame(s.client.value, caps, os, confirmOk, o);
  }

  lemma PostConnectedKeeps(s: Session, gfx: bool, nscodec: bool, depth: nat, o: VcmOutcome)
    requires SessionInv(s) && s.client.Some? && !s.client.value.activated && !s.client.value.vcm
    ensures SessionInv(s.(client := Some(PostConnect(s.client.value, gfx, nscodec, depth, o))))
  {
    PostConnectKeeps(s.client.value, gfx, nscodec, depth, o);
  }

  lemma StartedAwaitsEncoder(s: Session)
    requires SessionInv(s) && MayStart(s)
    ensures AwaitsEncoder(Started(s)) && s.captures.pending < Started(s).captures.starts
  {
  }

  lemma RequestFrameKeeps(s: Session, ok: bool)
    requires SessionInv(s) && s.captures.pending < s.captures.starts
    ensures SessionInv(RequestFrame(s, ok))
  {
  }

  lemma StartFramesKeeps(s: Session, o: CodecInit, requestOk: bool)
    requires SessionInv(s)
    ensures SessionInv(StartFrames(s, o, requestOk))
  {
    if MayStart(s) {
      StartedAwaitsEncoder(s);
      InitEncoderKeeps(Started(s), o);
      RequestFrameKeeps(InitEncoder(Started(s), o), requestOk);
    }
  }

  lemma SpacedSnoc(sends: seq<SendRecord>, r: SendRecord)
    requires Spaced(sends) && MIN_MS <= r.gate && r.start <= r.end
    requires sends != [] ==>
               var last := sends[|sends| - 1];
               r.start - last.end >= r.gate && (r.gate == last.next || r.gate == DEFAULT_MS)
    ensures Spaced(sends + [r])
  {
    var all := sends + [r];
    assert all[..|sends|] == sends;
  }

  lemma AfterSendKeeps(p: Pacing, now: U64, encoded: U64, sent: U64)
    requires Paced(p) && p.clock == sent && p.lastMs <= now <= encoded <= sent && now - p.lastMs >= p.intervalMs
    ensures Paced(AfterSend(p, now, encoded, sent))
  {
    var next := AfterSend(p, now, encoded, sent).intervalMs;
    SpacedSnoc(p.sends, SendRecord(now, sent, p.intervalMs, next));
  }

  lemma EncodedKeeps(s: Session, eo: EncodeOutcome)
    requires SessionInv(s) && s.encoderInitialized
    ensures SessionInv(s.(enc := Encode(s.enc, eo).0))
  {
    EncodeKeepsSound(s.enc, eo);
  }

  lemma SendEncodedKeeps(s: Session, w: U32, h: U32, now: U64, encoded: U64, sent: U64, so: SendOutcome)
    requires SessionInv(s) && s.client.Some? && s.pacing.clock == sent
    requires s.pacing.lastMs <= now <= encoded <= sent && now - s.pacing.lastMs >= s.pacing.intervalMs
    ensures SessionInv(SendEncoded(s, w, h, now, encoded, sent, so))
  {
    SendFrameKeeps(s.client.value, FrameOf(s.enc), w, h, so);
    SendFrameFrame(s.client.value, FrameOf(s.enc), w, h, so);
    AfterSendKeeps(s.pacing, now, encoded, sent);
    var q := SendFrame(s.client.value, FrameOf(s.enc), w, h, so);
    assert SendEncoded(s, w, h, now, encoded, sent, so)
        == s.(client := Some(q), pacing := AfterSend(s.pacing, now, encoded, sent));
  }

  lemma OnFrameReadyKeeps(s: Session, w: U32, h: U32, now: U64, encoded: U64, sent: U64,
                          eo: EncodeOutcome, so: SendOutcome, requestOk: bool)
    requires SessionInv(s) && s.captures.pending < s.captures.starts
    requires s.pacing.clock == sent && s.pacing.lastMs <= now <= encoded <= sent
    ensures SessionInv(OnFrameReady(s, w, h, now, encoded, sent, eo, so, requestOk))
  {
    if s.clientActive {
      if now - s.pacing.lastMs < s.pacing.intervalMs {
        RequestFrameKeeps(s, requestOk);
      } else {
        var (e, ok) := Encode(s.enc, eo);
        var r := s.(enc := e);
        EncodedKeeps(s, eo);
        if !ok || (e.output.outLen == 0 && e.output.auxLen == 0) {
          RequestFrameKeeps(r, requestOk);
        } else {
          SendEncodedKeeps(r, w, h, now, encoded, sent, so);
          RequestFrameKeeps(SendEncoded(r, w, h, now, encoded, sent, so), requestOk);
        }
      }
    }
  }

  lemma WatchKeeps(s: Session, fd: int)
    requires SessionInv(s) && s.client.Some?
    ensures SessionInv(Watch(s, fd))
  {
  }

  lemma StepKeepsInv(s: Session, e: Event)
    requires Enabled(s, e) && SessionInv(s)
    ensures SessionInv(Step(s, e))
  {
    match e
    case PeerAccepted(fd, o) => AcceptPeerKeeps(s, fd, o);
    case IpcReadable(ok, msgType, fd, o) => AcceptIpcKeeps(s, ok, msgType, fd, o);
    case PostConnected(gfx, nscodec, depth, o) => PostConnectedKeeps(s, gfx, nscodec, depth, o);
    case Activated(w, h, nscodec, o, surface) => ActivateKeeps(s, w, h, nscodec, o, surface);
    case ResizeRequested(w, h, o, surface) => ResizeToKeeps(s, AlignUp16(w), AlignUp16(h), o, surface);
    case CapsAdvertised(caps, os, ok, surface) => CapsAdvertisedKeeps(s, caps, os, ok, surface);
    case ClientPolled(ok) => DisconnectKeeps(s);
    case Watched(fd) => WatchKeeps(s, fd);
    case VcmPolled(poll) => PumpVcmKeeps(s, poll);
    case StartTried(o, ok) => StartFramesKeeps(s, o, ok);
    case CaptureReady(w, h, now, encoded, sent, eo, so, ok) =>
      var r := Answered(s).(pacing := s.pacing.(clock := sent));
      assert SessionInv(r);
      OnFrameReadyKeeps(r, w, h, now, encoded, sent, eo, so, ok);
    case CaptureFailed =>
  }

  lemma {:induction false} RunKeepsInv(s: Session, events: seq<Event>)
    requires SessionInv(s) && Feasible(s, events)
    ensures SessionInv(Run(s, events))
    decreases |events|
  {
    if events != [] {
      StepKeepsInv(s, events[0]);
      RunKeepsInv(Step(s, events[0]), events[1..]);
    }
  }
}
