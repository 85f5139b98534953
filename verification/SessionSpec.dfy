/** The session worker as a state machine (src/session/main.c): one step per callback or per piece of
    the main loop, on snapshots of the server, its client and its encoder. Class `Server` is proved
    against these functions. */
module SessionSpec {
  import opened CapsNegotiation
  import opened EncoderSpec
  import opened Options
  import opened PacingFilter
  import opened PeerSpec
  import opened SessionTypes
  import opened Words

  const MSG_NEW_CLIENT := 1
  const MSG_SHUTDOWN := 5
  const STATUS_READY := 0
  const STATUS_DISCONNECTED := 2

  /** One sent frame: when its encoding began, when its send ended, the interval it had waited out,
      and the interval stored after it. */
  datatype SendRecord = SendRecord(start: nat, end: nat, gate: nat, next: nat)

  /** Output size kept by the server and the pointer extents kept by the input device. */
  datatype Display = Display(width: I32, height: I32, inputWidth: U32, inputHeight: U32)

  /** The frame interval and the end of the last send; then the last clock reading and every sent frame. */
  datatype Pacing = Pacing(intervalMs: nat, lastMs: U64, clock: U64, sends: seq<SendRecord>)

  /** Capture requests that the compositor has not answered, and how often streaming was started. */
  datatype Captures = Captures(pending: nat, starts: nat)

  /** Peer sockets this process has received and closed. */
  datatype Sockets = Sockets(received: multiset<int>, closed: multiset<int>)

  type Fd = n: int | -1 <= n witness -1

  /** The channel manager's descriptor that the loop watches, or -1, and the status words reported to the
      daemon. */
  datatype Loop = Loop(watched: Fd, reports: seq<nat>)

  datatype Session = Session(
    ipcMode: bool, running: bool, client: Option<PeerState>, clientActive: bool,
    encoderInitialized: bool, enc: EncoderState,
    display: Display, pacing: Pacing, captures: Captures, sockets: Sockets, loop: Loop)

  function Start(ipcMode: bool, width: I32, height: I32): (r: Session) {
    Session(ipcMode, true, None, false, false, Zeroed(EMPTY_HEAP),
            Display(width, height, ToU32(width), ToU32(height)),
            Pacing(DEFAULT_MS, 0, 0, []), Captures(0, 0), Sockets(multiset{}, multiset{}),
            Loop(-1, if ipcMode then [STATUS_READY] else []))
  }

  /** The encoder mode and AVC444 version that a client's negotiated state calls for. */
  function Wanted(p: PeerState): (r: Producer) {
    match EffectiveMode(p)
    case Avc444v2 => Producer(H264, 2)
    case Avc444 => Producer(H264, 1)
    case Avc420 => Producer(H264, 0)
    case Progressive => Producer(ProgressiveRfx, 0)
    case SurfaceBits => Producer(if p.nscodec then Nsac else Raw, 0)
  }

  function InitEncoder(s: Session, o: CodecInit): (r: Session) {
    var e := if s.encoderInitialized then Destroy(s.enc) else s.enc;
    var want := if s.client.Some? then Wanted(s.client.value) else Producer(Raw, 0);
    var bpp := if s.client.Some? then s.client.value.bpp else 32;
    s.(enc := Init(e, want.mode, ToU32(s.display.width), ToU32(s.display.height), want.version, bpp, o),
       encoderInitialized := true)
  }

  function RequestFrame(s: Session, ok: bool): (r: Session) {
    if ok then s.(captures := s.captures.(pending := s.captures.pending + 1)) else s
  }

  /** Server, client and pointer extents take a new size; the encoder does not follow yet. */
  function Redisplay(s: Session, w: U32, h: U32, surface: SurfaceOutcome): (r: Session) {
    var client := if s.client.Some? then Some(UpdateSize(s.client.value, w, h, surface)) else None;
    s.(client := client, display := Display(ToI32(w), ToI32(h), w, h))
  }

  /** A size request that is not already met. */
  predicate SizeChanges(s: Session, w: U32, h: U32) {
    s.display.width != ToI32(AlignUp16(w)) || s.display.height != ToI32(AlignUp16(h))
  }

  function ResizeTo(s: Session, w: U32, h: U32, o: CodecInit, surface: SurfaceOutcome): (r: Session) {
    if s.display.width == ToI32(w) && s.display.height == ToI32(h) then s
    else
      var r := Redisplay(s, w, h, surface);
      if r.encoderInitialized then InitEncoder(r, o) else r
  }

  /** `on_peer_resize`. */
  function Resize(s: Session, width: U32, height: U32, o: CodecInit, surface: SurfaceOutcome): (r: Session) {
    ResizeTo(s, AlignUp16(width), AlignUp16(height), o, surface)
  }

  /** `on_activate`; the capability exchange before it may have settled NSCodec anew. */
  function Activate(s: Session, width: U32, height: U32, nscodec: bool, o: CodecInit, surface: SurfaceOutcome)
    : (r: Session)
    requires s.client.Some?
  {
    var p := s.client.value;
    var r := s.(client := Some(p.(activated := true, nscodec := nscodec)));
    if width != p.width || height != p.height then Resize(r, width, height, o, surface) else r
  }

  function TakeSocket(s: Session, fd: int): (r: Session) {
    s.(sockets := s.sockets.(received := s.sockets.received + multiset{fd}))
  }

  function CloseSocket(s: Session, fd: int): (r: Session) {
    s.(sockets := s.sockets.(closed := s.sockets.closed + multiset{fd}))
  }

  function EncoderGone(s: Session): (r: Session) {
    if s.encoderInitialized then s.(enc := Destroy(s.enc), encoderInitialized := false) else s
  }

  function Unwatched(s: Session): (r: Session) {
    s.(loop := s.loop.(watched := -1))
  }

  /** The daemon is told, whether or not there was a client. */
  function Told(s: Session): (r: Session) {
    if s.ipcMode then s.(loop := s.loop.(reports := s.loop.reports + [STATUS_DISCONNECTED])) else s
  }

  /** Freeing the peer closes its socket. */
  function ClientGone(s: Session): (r: Session) {
    if s.client.None? then s
    else CloseSocket(s, s.client.value.fd).(client := None, clientActive := false)
  }

  /** `disconnect_client`. */
  function Disconnect(s: Session): (r: Session) {
    Told(EncoderGone(ClientGone(Unwatched(s))))
  }

  /** The set-up shared by both accept paths: the peer becomes the client or its socket is closed. */
  function Adopt(s: Session, fd: int, o: PeerSetup): (r: Session) {
    if o.contextOk && o.initOk && o.initializeOk
    then s.(client := Some(NewPeer(fd, ToU32(s.display.width), ToU32(s.display.height))))
    else CloseSocket(s, fd)
  }

  function AcceptPeer(s: Session, fd: int, o: PeerSetup): (r: Session) {
    var r := TakeSocket(s, fd);
    if r.client.Some? then CloseSocket(r, fd) else Adopt(r, fd, o)
  }

  /** A socket handed over by the daemon: the old client goes first, whatever becomes of the new one. */
  function ReplaceClient(s: Session, fd: int, o: PeerSetup): (r: Session) {
    var d := Disconnect(s);
    if !o.newOk then CloseSocket(d, fd) else Adopt(d, fd, o)
  }

  /** `accept_ipc_client` on a message of a given type, carrying `fd` unless that is negative. */
  function AcceptIpc(s: Session, ok: bool, msgType: nat, fd: int, o: PeerSetup): (r: Session) {
    var r := if ok && fd >= 0 then TakeSocket(s, fd) else s;
    if !ok || msgType == MSG_SHUTDOWN then r.(running := false)
    else if msgType != MSG_NEW_CLIENT || fd < 0 then
      if fd >= 0 then CloseSocket(r, fd) else r
    else ReplaceClient(r, fd, o)
  }

  /** Pumping the channel manager; a fatal answer drops the client. */
  function PumpVcm(s: Session, o: VcmPoll): (r: Session)
    requires s.client.Some?
  {
    var (p, ok) := CheckVcm(s.client.value, o);
    var r := s.(client := Some(p));
    if ok then r else Disconnect(r)
  }

  /** `epoll_add_vcm`, with the descriptor that the channel manager, if there is one, names. */
  function Watch(s: Session, fd: int): (r: Session)
    requires s.client.Some?
  {
    if s.client.value.vcm && fd >= 0 then s.(loop := s.loop.(watched := fd)) else s
  }

  predicate MayStart(s: Session) {
    s.client.Some? && s.client.value.activated && !s.clientActive && (!s.client.value.vcm || s.client.value.gfx.ready)
  }

  /** A stream begins: the interval returns to its default. */
  function Started(s: Session): (r: Session) {
    s.(clientActive := true, pacing := s.pacing.(intervalMs := DEFAULT_MS),
       captures := s.captures.(starts := s.captures.starts + 1))
  }

  /** The three start conditions at the end of a loop iteration; the first one covers the other two. */
  function StartFrames(s: Session, o: CodecInit, requestOk: bool): (r: Session) {
    if !MayStart(s) then s
    else
      RequestFrame(InitEncoder(Started(s), o), requestOk)
  }

  /** The pacing update after a frame was sent. */
  function AfterSend(p: Pacing, now: U64, encoded: U64, sent: U64): (r: Pacing) {
    var next := Smooth(p.intervalMs, Target(Elapsed(encoded, now)));
    p.(intervalMs := next, lastMs := sent, sends := p.sends + [SendRecord(now, sent, p.intervalMs, next)])
  }

  /** The frame that the encoder holds goes out. */
  function SendEncoded(s: Session, w: U32, h: U32, now: U64, encoded: U64, sent: U64, so: SendOutcome): (r: Session)
    requires s.client.Some?
  {
    var p := SendFrame(s.client.value, FrameOf(s.enc), w, h, so);
    s.(client := Some(p), pacing := AfterSend(s.pacing, now, encoded, sent))
  }

  /** `on_frame_ready`, with the three clock readings it may take. */
  function OnFrameReady(s: Session, w: U32, h: U32, now: U64, encoded: U64, sent: U64,
                        eo: EncodeOutcome, so: SendOutcome, requestOk: bool): (r: Session)
  {
    if !s.clientActive || s.client.None? || !s.encoderInitialized then s
    else if Elapsed(now, s.pacing.lastMs) < s.pacing.intervalMs then RequestFrame(s, requestOk)
    else
      var (e, ok) := Encode(s.enc, eo);
      var r := s.(enc := e);
      if !ok || (e.output.outLen == 0 && e.output.auxLen == 0) then RequestFrame(r, requestOk)
      else RequestFrame(SendEncoded(r, w, h, now, encoded, sent, so), requestOk)
  }

  datatype Event =
    | PeerAccepted(fd: int, setup: PeerSetup)
    | IpcReadable(ok: bool, msgType: nat, fd: int, setup: PeerSetup)
    | PostConnected(gfx: bool, nscodec: bool, depth: nat, vcm: VcmOutcome)
    | Activated(width: U32, height: U32, nscodec: bool, codec: CodecInit, surface: SurfaceOutcome)
    | ResizeRequested(width: U32, height: U32, codec: CodecInit, surface: SurfaceOutcome)
    | CapsAdvertised(caps: seq<CapSet>, os: nat, confirmOk: bool, surface: SurfaceOutcome)
    | ClientPolled(ok: bool)
    | Watched(fd: int)
    | VcmPolled(poll: VcmPoll)
    | StartTried(codec: CodecInit, requestOk: bool)
    | CaptureReady(w: U32, h: U32, now: U64, encoded: U64, sent: U64,
                   encode: EncodeOutcome, send: SendOutcome, requestOk: bool)
    | CaptureFailed

  /** What FreeRDP, Wayland and the clock promise about when an event can happen. */
  predicate Enabled(s: Session, e: Event) {
    match e
    case PeerAccepted(_, _) => !s.ipcMode
    // The daemon attaches a socket to nothing but a new-client message, and a failed receive yields none.
    case IpcReadable(ok, msgType, fd, _) => s.ipcMode && (!ok || msgType == MSG_SHUTDOWN ==> fd < 0)
    // PostConnect comes once per peer, before its first activation.
    case PostConnected(_, _, _, _) => s.client.Some? && !s.client.value.activated && !s.client.value.vcm
    // Capabilities arrive on an open graphics channel only.
    case CapsAdvertised(_, _, _, _) => s.client.Some? && s.client.value.gfx.context
    case CaptureReady(_, _, now, encoded, sent, _, _, _) =>
      s.captures.pending > 0 && s.pacing.clock <= now <= encoded <= sent
    case CaptureFailed => s.captures.pending > 0
    case StartTried(_, _) => true
    case _ => s.client.Some?
  }

  /** One capture request has been answered. */
  function Answered(s: Session): (r: Session)
    requires s.captures.pending > 0
  {
    s.(captures := s.captures.(pending := s.captures.pending - 1))
  }

  function Step(s: Session, e: Event): (r: Session)
    requires Enabled(s, e)
  {
    match e
    case PeerAccepted(fd, o) => AcceptPeer(s, fd, o)
    case IpcReadable(ok, msgType, fd, o) => AcceptIpc(s, ok, msgType, fd, o)
    case PostConnected(gfx, nscodec, depth, o) =>
      s.(client := Some(PostConnect(s.client.value, gfx, nscodec, depth, o)))
    case Activated(w, h, nscodec, o, surface) => Activate(s, w, h, nscodec, o, surface)
    case ResizeRequested(w, h, o, surface) => Resize(s, w, h, o, surface)
    case CapsAdvertised(caps, os, ok, surface) =>
      s.(client := Some(CapsAdvertise(s.client.value, caps, os, ok, surface)))
    case ClientPolled(ok) => if ok then s else Disconnect(s)
    case Watched(fd) => Watch(s, fd)
    case VcmPolled(poll) => PumpVcm(s, poll)
    case StartTried(o, ok) => StartFrames(s, o, ok)
    case CaptureReady(w, h, now, encoded, sent, eo, so, ok) =>
      OnFrameReady(Answered(s).(pacing := s.pacing.(clock := sent)), w, h, now, encoded, sent, eo, so, ok)
    case CaptureFailed => Answered(s)
  }

  /** A sequence of events that the outside world can produce from a state. */
  ghost predicate Feasible(s: Session, events: seq<Event>)
    decreases |events|
  {
    events != [] ==> Enabled(s, events[0]) && Feasible(Step(s, events[0]), events[1..])
  }

  ghost function Run(s: Session, events: seq<Event>): (r: Session)
    requires Feasible(s, events)
    decreases |events|
  {
    if events == [] then s else Run(Step(s, events[0]), events[1..])
  }

  lemma RunCons(s: Session, e: Event, rest: seq<Event>)
    requires Enabled(s, e) && Feasible(Step(s, e), rest)
    ensures Feasible(s, [e] + rest) && Run(s, [e] + rest) == Run(Step(s, e), rest)
  {
    assert ([e] + rest)[1..] == rest;
  }

  lemma RunOne(s: Session, e: Event)
    requires Enabled(s, e)
    ensures Feasible(s, [e]) && Run(s, [e]) == Step(s, e)
  {
    RunCons(s, e, []);
    assert [e] + [] == [e];
  }

  lemma {:induction false} RunAppend(s: Session, events: seq<Event>, more: seq<Event>)
    requires Feasible(s, events) && Feasible(Run(s, events), more)
    ensures Feasible(s, events + more) && Run(s, events + more) == Run(Run(s, events), more)
    decreases |events|
  {
    if events == [] {
      assert events + more == more;
    } else {
      RunAppend(Step(s, events[0]), events[1..], more);
      assert events + more == [events[0]] + (events[1..] + more);
      RunCons(s, events[0], events[1..] + more);
    }
  }

  lemma RunSnoc(s: Session, events: seq<Event>, e: Event)
    requires Feasible(s, events) && Enabled(Run(s, events), e)
    ensures Feasible(s, events + [e]) && Run(s, events + [e]) == Step(Run(s, events), e)
  {
    RunOne(Run(s, events), e);
    RunAppend(s, events, [e]);
  }

  // --- One iteration of the main loop ---

  /** What FreeRDP may call back while its descriptors are checked. */
  predicate IsCallback(e: Event) {
    e.PostConnected? || e.Activated? || e.ResizeRequested? || e.CapsAdvertised?
  }

  ghost predicate Callbacks(s: Session, events: seq<Event>) {
    Feasible(s, events) && forall e :: e in events ==> IsCallback(e)
  }

  /** What happens to the client in one iteration: the callbacks and the answer of the poll of its socket,
      the descriptor to watch, the callbacks and the answer of the poll of its channel manager, and the
      answers while a stream starts. */
  datatype Turn = Turn(
    onPoll: seq<Event>, pollOk: bool, vcmFd: int, onPump: seq<Event>, poll: VcmPoll,
    codec: CodecInit, requestOk: bool)

  /** The channels are open, so that polling them is all there is to do. */
  predicate OnlyPumps(p: PeerState) {
    p.vcm && (p.gfx.open || p.gfx.ready)
  }

  /** The callbacks can happen where they do; without a channel manager there is nothing to poll. */
  ghost predicate Plausible(s: Session, t: Turn) {
    s.client.Some? ==>
      && Callbacks(s, t.onPoll)
      && var a := Run(s, t.onPoll);
         a.client.Some? && Callbacks(Watch(a, t.vcmFd), t.onPump) && (!a.client.value.vcm ==> t.onPump == [])
  }

  /** `rdp_peer_check_vcm` with the callbacks that the poll delivers, and the loop's answer to it. */
  ghost function Pump(s: Session, onPump: seq<Event>, poll: VcmPoll): (r: Session)
    requires s.client.Some? && Feasible(s, onPump)
  {
    var r := Run(s, onPump);
    if r.client.None? then r
    else if !OnlyPumps(s.client.value) then PumpVcm(r, poll)
    else if poll.checkOk then r
    else Disconnect(r)
  }

  /** The client's part of one main-loop iteration: poll, pump, start; a lost client ends it early. */
  ghost function Iteration(s: Session, t: Turn): (r: Session)
    requires Plausible(s, t)
  {
    if s.client.None? then s
    else
      var a := Run(s, t.onPoll);
      if !t.pollOk then Disconnect(a)
      else
        var b := Pump(Watch(a, t.vcmFd), t.onPump, t.poll);
        if b.client.None? then b else StartFrames(b, t.codec, t.requestOk)
  }

  /** The verdict of the poll of the channel manager, as an event. */
  function Verdict(p: PeerState, poll: VcmPoll): (r: seq<Event>) {
    if !OnlyPumps(p) then [VcmPolled(poll)] else if poll.checkOk then [] else [ClientPolled(false)]
  }

  ghost function IterationEvents(s: Session, t: Turn): (r: seq<Event>)
    requires Plausible(s, t)
  {
    if s.client.None? then []
    else
      var a := Run(s, t.onPoll);
      if !t.pollOk then t.onPoll + [ClientPolled(false)]
      else
        var b := Pump(Watch(a, t.vcmFd), t.onPump, t.poll);
        t.onPoll + [Watched(t.vcmFd)] + (t.onPump + Verdict(a.client.value, t.poll)) +
        if b.client.None? then [] else [StartTried(t.codec, t.requestOk)]
  }

  lemma CallbackKeepsClient(s: Session, e: Event)
    requires IsCallback(e) && Enabled(s, e)
    ensures s.client.Some? && Step(s, e).client.Some?
  {
  }

  lemma {:induction false} CallbacksKeepClient(s: Session, events: seq<Event>)
    requires Callbacks(s, events) && s.client.Some?
    ensures Run(s, events).client.Some?
    decreases |events|
  {
    if events != [] {
      CallbackKeepsClient(s, events[0]);
      CallbacksKeepClient(Step(s, events[0]), events[1..]);
    }
  }

  lemma PumpIsRun(s: Session, onPump: seq<Event>, poll: VcmPoll)
    requires s.client.Some? && Callbacks(s, onPump)
    ensures var events := onPump + Verdict(s.client.value, poll);
            Feasible(s, events) && Run(s, events) == Pump(s, onPump, poll)
  {
    CallbacksKeepClient(s, onPump);
    var r := Run(s, onPump);
    if !OnlyPumps(s.client.value) {
      RunSnoc(s, onPump, VcmPolled(poll));
    } else if !poll.checkOk {
      RunSnoc(s, onPump, ClientPolled(false));
    } else {
      assert onPump + [] == onPump;
    }
  }

  lemma StartIsRun(s: Session, events: seq<Event>, o: CodecInit, requestOk: bool)
    requires Feasible(s, events)
    ensures var b := Run(s, events); var start := if b.client.None? then [] else [StartTried(o, requestOk)];
            && Feasible(s, events + start)
            && Run(s, events + start) == if b.client.None? then b else StartFrames(b, o, requestOk)
  {
    if Run(s, events).client.None? {
      assert events + [] == events;
    } else {
      RunSnoc(s, events, StartTried(o, requestOk));
    }
  }

  /** A loop iteration, with whatever callbacks arrive in it, is a run of the events above: what holds over
      runs holds over loops. */
  lemma IterationIsRun(s: Session, t: Turn)
    requires Plausible(s, t)
    ensures var events := IterationEvents(s, t); Feasible(s, events) && Run(s, events) == Iteration(s, t)
  {
    if s.client.Some? {
      CallbacksKeepClient(s, t.onPoll);
      var a := Run(s, t.onPoll);
      if !t.pollOk {
        RunSnoc(s, t.onPoll, ClientPolled(false));
      } else {
        var pumped := t.onPump + Verdict(a.client.value, t.poll);
        RunSnoc(s, t.onPoll, Watched(t.vcmFd));
        PumpIsRun(Watch(a, t.vcmFd), t.onPump, t.poll);
        RunAppend(s, t.onPoll + [Watched(t.vcmFd)], pumped);
        StartIsRun(s, t.onPoll + [Watched(t.vcmFd)] + pumped, t.codec, t.requestOk);
      }
    }
  }
}
