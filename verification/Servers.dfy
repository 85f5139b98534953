/** `struct wlrdp_server` and the session worker's callbacks and loop body (src/session/main.c). */
module Servers {
  import opened CapsNegotiation
  import opened Encoders
  import opened EncoderSpec
  import opened Handover
  import opened IpcCodec
  import opened Options
  import opened PacingFilter
  import opened Peers
  import opened SessionInvariants
  import opened SessionSpec
  import opened SessionTypes
  import opened Words

  /** The extents kept by `struct wlrdp_input`. */
  class Input {
    var width: U32
    var height: U32

    constructor (width: U32, height: U32)
      ensures this.width == width && this.height == height
    {
      this.width, this.height := width, height;
    }

    /** `input_update_size`. */
    method UpdateSize(width: U32, height: U32)
      modifies this
      ensures this.width == width && this.height == height
    {
      this.width := width;
      this.height := height;
    }
  }

  datatype MonitorEdges = MonitorEdges(left: I32, top: I32, right: I32, bottom: I32)

  lemma PumpKeeps(s: Session, onPump: seq<Event>, poll: VcmPoll)
    requires SessionInv(s) && s.client.Some? && Callbacks(s, onPump)
    ensures SessionInv(Pump(s, onPump, poll)) && Run(s, onPump).client.Some?
  {
    CallbacksKeepClient(s, onPump);
    PumpIsRun(s, onPump, poll);
    RunKeepsInv(s, onPump + Verdict(s.client.value, poll));
  }

  class Server {
    const ipcMode: bool
    var running: bool
    var width: I32
    var height: I32
    const input: Input
    const encoder: Encoder
    var client: PeerContext?
    var clientActive: bool
    var encoderInitialized: bool
    var intervalMs: nat
    var lastMs: U64
    ghost var captures: Captures
    ghost var clock: U64
    ghost var sends: seq<SendRecord>
    ghost var sockets: Sockets
    var vcmFd: Fd
    ghost var reports: seq<nat>

    ghost function State(): (r: Session)
      reads this, input, encoder, client
    {
      Session(ipcMode, running, if client == null then None else Some(client.State()), clientActive,
              encoderInitialized, encoder.State(), Display(width, height, input.width, input.height),
              Pacing(intervalMs, lastMs, clock, sends), captures, sockets, Loop(vcmFd, reports))
    }

    /** Between two callbacks the server is in a state that satisfies the session invariant. */
    ghost predicate Valid()
      reads this, input, encoder, client
    {
      SessionInv(State())
    }

    constructor (ipcMode: bool, width: I32, height: I32)
      ensures Valid() && State() == Start(ipcMode, width, height) && client == null && fresh(input) && fresh(encoder)
    {
      this.ipcMode, running, this.width, this.height := ipcMode, true, width, height;
      input := new Input(ToU32(width), ToU32(height));
      encoder := new Encoder();
      client, clientActive, encoderInitialized := null, false, false;
      intervalMs, lastMs, clock, sends := DEFAULT_MS, 0, 0, [];
      captures, sockets := Captures(0, 0), Sockets(multiset{}, multiset{});
      vcmFd, reports := -1, if ipcMode then [STATUS_READY] else [];
      new;
      StartInv(ipcMode, width, height);
    }

    /** The encoder that the client's effective mode calls for, and its picture depth. */
    method ChooseEncoder() returns (mode: EncoderMode, version: nat, bpp: nat)
      ensures client == null ==> (mode, version, bpp) == (Raw, 0, 32)
      ensures client != null ==> Producer(mode, version) == Wanted(client.State()) && bpp == client.bpp
    {
      mode, version, bpp := Raw, 0, 32;
      if client != null {
        bpp := client.bpp;
        var sendMode := client.GetSendMode();
        match sendMode {
          case Avc444v2 => mode, version := H264, 2;
          case Avc444 => mode, version := H264, 1;
          case Avc420 => mode, version := H264, 0;
          case Progressive => mode, version := ProgressiveRfx, 0;
          case SurfaceBits =>
            if client.nscodec {
              mode := Nsac;
            }
        }
      }
    }

    /** `init_encoder_for_client`. */
    method InitEncoderForClient(o: CodecInit)
      requires encoderInitialized ==> Sound(encoder.State())
      modifies this`encoderInitialized, encoder
      ensures State() == InitEncoder(old(State()), o)
    {
      if encoderInitialized {
        encoder.Destroy();
        encoderInitialized := false;
      }
      var mode, version, bpp := ChooseEncoder();
      var _ := encoder.Init(mode, ToU32(width), ToU32(height), version, bpp, o);
      encoderInitialized := true;
    }

    /** `capture_request_frame`. */
    method RequestFrame(ok: bool)
      modifies this`captures
      ensures State() == SessionSpec.RequestFrame(old(State()), ok)
    {
      if ok {
        captures := captures.(pending := captures.pending + 1);
      }
    }

    /** The part of `on_frame_ready` that follows a successful encode: send, then adapt the pace. */
    method SendAndPace(w: U32, h: U32, now: U64, encoded: U64, sent: U64, so: SendOutcome)
      requires client != null
      modifies this`intervalMs, this`lastMs, this`sends, client
      ensures State() == SendEncoded(old(State()), w, h, now, encoded, sent, so)
    {
      var frame := Frame(encoder.outLen, encoder.auxLen, encoder.meta.rects, Producer(encoder.mode, encoder.version));
      var _ := client.SendFrame(frame, w, h, so);
      var target := ToU32(Elapsed(encoded, now) * 2);
      if target < MIN_MS {
        target := MIN_MS;
      }
      if target > MAX_MS {
        target := MAX_MS;
      }
      sends := sends + [SendRecord(now, sent, intervalMs, Smooth(intervalMs, target))];
      intervalMs := (intervalMs * 3 + target) / 4;
      lastMs := sent;
    }

    /** `on_frame_ready`; `now`, `encoded` and `sent` are its clock readings. */
    method OnFrameReady(w: U32, h: U32, now: U64, encoded: U64, sent: U64,
                        eo: EncodeOutcome, so: SendOutcome, requestOk: bool)
      modifies this, encoder, client
      ensures State() == SessionSpec.OnFrameReady(old(State()), w, h, now, encoded, sent, eo, so, requestOk)
      ensures client == old(client)
    {
      if !clientActive || client == null || !encoderInitialized {
        return;
      }
      if Elapsed(now, lastMs) < intervalMs {
        RequestFrame(requestOk);
        return;
      }
      var ok := encoder.Encode(eo);
      if !ok {
        RequestFrame(requestOk);
        return;
      }
      if encoder.outLen == 0 && encoder.auxLen == 0 {
        RequestFrame(requestOk);
        return;
      }
      SendAndPace(w, h, now, encoded, sent, so);
      RequestFrame(requestOk);
    }

    ghost method Answer(sent: U64)
      requires captures.pending > 0
      modifies this`captures, this`clock
      ensures State() == var r := Answered(old(State())); r.(pacing := r.pacing.(clock := sent))
    {
      captures := captures.(pending := captures.pending - 1);
      clock := sent;
    }

    /** `frame_ready`: the request is answered and the picture handed on. */
    method FrameReady(w: U32, h: U32, now: U64, encoded: U64, sent: U64,
                      eo: EncodeOutcome, so: SendOutcome, requestOk: bool)
      requires Valid() && Enabled(State(), CaptureReady(w, h, now, encoded, sent, eo, so, requestOk))
      modifies this, encoder, client
      ensures Valid() && State() == Step(old(State()), CaptureReady(w, h, now, encoded, sent, eo, so, requestOk))
    {
      StepKeepsInv(State(), CaptureReady(w, h, now, encoded, sent, eo, so, requestOk));
      Answer(sent);
      OnFrameReady(w, h, now, encoded, sent, eo, so, requestOk);
    }

    /** The part of `on_peer_resize` that moves server, client and pointer extents to a new size. */
    method AdoptSize(w: U32, h: U32, surface: SurfaceOutcome)
      modifies this`width, this`height, input, client
      ensures State() == Redisplay(old(State()), w, h, surface)
      ensures encoder.State() == old(encoder.State())
    {
      width := ToI32(w);
      height := ToI32(h);
      if client != null {
        client.UpdateSize(w, h, surface);
      }
      input.UpdateSize(w, h);
    }

    /** An encoder that exists is made anew for the present size and client. */
    method RefreshEncoder(o: CodecInit)
      requires encoderInitialized ==> Sound(encoder.State())
      modifies this`encoderInitialized, encoder
      ensures State() == if old(State()).encoderInitialized then InitEncoder(old(State()), o) else old(State())
    {
      if encoderInitialized {
        InitEncoderForClient(o);
      }
    }

    /** `on_peer_resize` behind its rounding. */
    method ResizeTo(w: U32, h: U32, o: CodecInit, surface: SurfaceOutcome)
      requires encoderInitialized ==> Sound(encoder.State())
      modifies this, encoder, input, client
      ensures State() == SessionSpec.ResizeTo(old(State()), w, h, o, surface)
      ensures client == old(client)
    {
      if width == ToI32(w) && height == ToI32(h) {
        return;
      }
      AdoptSize(w, h, surface);
      RefreshEncoder(o);
    }

    /** `on_peer_resize`. */
    method OnPeerResize(width: U32, height: U32, o: CodecInit, surface: SurfaceOutcome)
      requires encoderInitialized ==> Sound(encoder.State())
      modifies this, encoder, input, client
      ensures State() == Resize(old(State()), width, height, o, surface)
      ensures client == old(client)
    {
      var w := AlignUp16(width);
      var h := AlignUp16(height);
      ResizeTo(w, h, o, surface);
    }

    /** The body of `on_activate`. */
    method ActivateClient(width: U32, height: U32, nscodec: bool, o: CodecInit, surface: SurfaceOutcome)
      requires client != null && (encoderInitialized ==> Sound(encoder.State()))
      modifies this, encoder, input, client
      ensures State() == Activate(old(State()), width, height, nscodec, o, surface) && client == old(client)
    {
      client.activated := true;
      client.nscodec := nscodec;
      if width != client.width || height != client.height {
        OnPeerResize(width, height, o, surface);
      }
    }

    /** `on_post_connect`. */
    method OnPostConnect(gfx: bool, nscodec: bool, depth: nat, o: VcmOutcome)
      requires Valid() && Enabled(State(), PostConnected(gfx, nscodec, depth, o))
      modifies client
      ensures Valid() && State() == Step(old(State()), PostConnected(gfx, nscodec, depth, o))
    {
      StepKeepsInv(State(), PostConnected(gfx, nscodec, depth, o));
      client.PostConnect(gfx, nscodec, depth, o);
    }

    /** `gfx_caps_advertise`, called back by the graphics channel. */
    method OnCapsAdvertise(caps: seq<CapSet>, os: nat, confirmOk: bool, surface: SurfaceOutcome)
      requires Valid() && Enabled(State(), CapsAdvertised(caps, os, confirmOk, surface))
      modifies client
      ensures Valid() && State() == Step(old(State()), CapsAdvertised(caps, os, confirmOk, surface))
    {
      StepKeepsInv(State(), CapsAdvertised(caps, os, confirmOk, surface));
      client.CapsAdvertise(caps, os, confirmOk, surface);
    }

    /** `on_activate`. */
    method OnActivate(width: U32, height: U32, nscodec: bool, o: CodecInit, surface: SurfaceOutcome)
      requires Valid() && client != null
      modifies this, encoder, input, client
      ensures Valid() && State() == Step(old(State()), Activated(width, height, nscodec, o, surface))
              && client == old(client)
    {
      StepKeepsInv(State(), Activated(width, height, nscodec, o, surface));
      ActivateClient(width, height, nscodec, o, surface);
    }

    /** `on_desktop_resize`, and the end of the other two size callbacks. */
    method OnDesktopResize(width: U32, height: U32, o: CodecInit, surface: SurfaceOutcome)
      requires Valid() && client != null
      modifies this, encoder, input, client
      ensures Valid() && State() == Step(old(State()), ResizeRequested(width, height, o, surface))
              && client == old(client)
    {
      StepKeepsInv(State(), ResizeRequested(width, height, o, surface));
      OnPeerResize(width, height, o, surface);
    }

    /** `on_disp_monitor_layout`: the first monitor's size, if there is one. */
    method OnDispMonitorLayout(monitors: seq<(U32, U32)>, o: CodecInit, surface: SurfaceOutcome)
      requires Valid() && client != null
      modifies this, encoder, input, client
      ensures Valid()
      ensures State() == if monitors == [] then old(State())
                         else Step(old(State()), ResizeRequested(monitors[0].0, monitors[0].1, o, surface))
    {
      if |monitors| < 1 {
        return;
      }
      OnDesktopResize(monitors[0].0, monitors[0].1, o, surface);
    }

    /** `on_remote_monitors`: the size between the inclusive edges of the first monitor, if there is one. */
    method OnRemoteMonitors(monitors: seq<MonitorEdges>, o: CodecInit, surface: SurfaceOutcome)
      requires Valid() && client != null
      modifies this, encoder, input, client
      ensures Valid()
      ensures State() == if monitors == [] then old(State())
                         else Step(old(State()), ResizeRequested(ToU32(monitors[0].right - monitors[0].left + 1),
                                                                 ToU32(monitors[0].bottom - monitors[0].top + 1),
                                                                 o, surface))
    {
      if |monitors| < 1 {
        return;
      }
      var width := ToU32(monitors[0].right - monitors[0].left + 1);
      var height := ToU32(monitors[0].bottom - monitors[0].top + 1);
      OnDesktopResize(width, height, o, surface);
    }

    method Unwatch()
      modifies this`vcmFd
      ensures State() == Unwatched(old(State()))
    {
      if vcmFd >= 0 {
        vcmFd := -1;
      }
    }

    /** Freeing the peer closes its socket. */
    method DropClient()
      modifies this`sockets, this`client, this`clientActive
      ensures State() == ClientGone(old(State())) && client == null
    {
      if client != null {
        sockets := sockets.(closed := sockets.closed + multiset{client.fd});
        client := null;
        clientActive := false;
      }
    }

    ghost method ReportDisconnected()
      modifies this`reports
      ensures State() == Told(old(State()))
    {
      if ipcMode {
        reports := reports + [STATUS_DISCONNECTED];
      }
    }

    method DestroyEncoder()
      requires OwnsAll(encoder.State())
      modifies encoder
      ensures encoder.State() == EncoderSpec.Destroy(old(encoder.State()))
    {
      encoder.Destroy();
    }

    /** The encoder goes with its client. */
    method DropEncoder()
      requires encoderInitialized ==> OwnsAll(encoder.State())
      modifies this`encoderInitialized, encoder
      ensures State() == EncoderGone(old(State()))
    {
      if encoderInitialized {
        DestroyEncoder();
        encoderInitialized := false;
      }
    }

    /** `disconnect_client`. */
    method DisconnectClient()
      requires encoderInitialized ==> Sound(encoder.State())
      modifies this, encoder
      ensures State() == Disconnect(old(State())) && client == null
    {
      Unwatch();
      DropClient();
      DropEncoder();
      ReportDisconnected();
    }

    /** The set-up that both accept paths share. */
    method SetUpPeer(fd: int, o: PeerSetup) returns (ok: bool)
      requires client == null
      modifies this
      ensures State() == Adopt(old(State()), fd, o)
      ensures client == null || fresh(client)
      ensures ok == (o.contextOk && o.initOk && o.initializeOk) && ok == (client != null)
    {
      if !o.contextOk || !o.initOk {
        sockets := sockets.(closed := sockets.closed + multiset{fd});
        return false;
      }
      var peer := new PeerContext(fd, ToU32(width), ToU32(height));
      if !o.initializeOk {
        sockets := sockets.(closed := sockets.closed + multiset{fd});
        return false;
      }
      client := peer;
      return true;
    }

    /** `on_peer_accepted`. */
    method OnPeerAccepted(fd: int, o: PeerSetup) returns (ok: bool)
      requires Valid() && !ipcMode
      modifies this
      ensures Valid() && State() == Step(old(State()), PeerAccepted(fd, o))
      ensures ok == (client != null)
    {
      StepKeepsInv(State(), PeerAccepted(fd, o));
      ok := AcceptSocket(fd, o);
    }

    /** A client that is already there is kept and the new one refused, which is not an error. */
    method AcceptSocket(fd: int, o: PeerSetup) returns (ok: bool)
      modifies this
      ensures State() == AcceptPeer(old(State()), fd, o)
      ensures ok == (client != null)
    {
      sockets := sockets.(received := sockets.received + multiset{fd});
      if client != null {
        sockets := sockets.(closed := sockets.closed + multiset{fd});
        return true;
      }
      ok := SetUpPeer(fd, o);
    }

    /** The old client leaves before the new one is set up. */
    method ReplaceClientBy(fd: int, o: PeerSetup) returns (ok: bool)
      requires encoderInitialized ==> Sound(encoder.State())
      modifies this, encoder
      ensures State() == ReplaceClient(old(State()), fd, o)
      ensures ok == o.AllOk()
    {
      DisconnectClient();
      if !o.newOk {
        sockets := sockets.(closed := sockets.closed + multiset{fd});
        return false;
      }
      ok := SetUpPeer(fd, o);
    }

    ghost method NoteSocket(fd: int)
      modifies this`sockets
      ensures State() == if fd >= 0 then TakeSocket(old(State()), fd) else old(State())
    {
      if fd >= 0 {
        sockets := sockets.(received := sockets.received + multiset{fd});
      }
    }

    /** A socket that came with an unexpected message is closed. */
    ghost method RefuseSocket(fd: int)
      modifies this`sockets
      ensures State() == if fd >= 0 then CloseSocket(old(State()), fd) else old(State())
    {
      if fd >= 0 {
        sockets := sockets.(closed := sockets.closed + multiset{fd});
      }
    }

    /** `accept_ipc_client` once the message has been received, or could not be. */
    method HandleMessage(received: bool, msgType: U32, peerFd: int, o: PeerSetup) returns (ok: bool)
      requires encoderInitialized ==> Sound(encoder.State())
      modifies this, encoder
      ensures State() == AcceptIpc(old(State()), received, msgType, peerFd, o)
      ensures ok == (received && msgType == MSG_NEW_CLIENT && peerFd >= 0 && o.AllOk())
    {
      if !received {
        running := false;
        return false;
      }
      NoteSocket(peerFd);
      if msgType == MSG_SHUTDOWN {
        running := false;
        return false;
      }
      if msgType != MSG_NEW_CLIENT || peerFd < 0 {
        RefuseSocket(peerFd);
        return false;
      }
      ok := ReplaceClientBy(peerFd, o);
    }

    /** `accept_ipc_client`: one message from the daemon's channel, or its end. */
    method AcceptIpcClient(channel: Channel, o: PeerSetup) returns (ok: bool)
      requires encoderInitialized ==> Sound(encoder.State())
      modifies this, encoder, channel
      ensures old(channel.queue) == [] ==> State() == AcceptIpc(old(State()), false, 0, -1, o) && !ok
      ensures old(channel.queue) != [] ==>
                channel.queue == old(channel.queue)[1..] && State() == Read(old(State()), old(channel.queue)[0], o)
      ensures old(channel.queue) != [] ==>
                var r := Decode(old(channel.queue)[0]);
                ok == (r.Accepted? && r.msgType == MSG_NEW_CLIENT && r.fd >= 0 && o.AllOk())
    {
      var msg := new IpcMsg(0, 0);
      var received, peerFd := RecvMsg(channel, msg);
      ok := HandleMessage(received, msg.msgType, peerFd, o);
    }

    /** The daemon's channel is readable. */
    method OnIpcReadable(channel: Channel, o: PeerSetup) returns (ok: bool)
      requires Valid() && ipcMode && channel.queue != [] && FromDaemon(channel.queue[0])
      modifies this, encoder, channel
      ensures Valid() && channel.queue == old(channel.queue)[1..]
      ensures State() == Read(old(State()), old(channel.queue)[0], o)
      ensures ok <==> old(channel.queue[0].fd) >= 0 && o.AllOk()
    {
      ReadKeepsWorker(State(), channel.queue[0], o);
      DaemonMessage(channel.queue[0]);
      ok := AcceptIpcClient(channel, o);
    }

    method NoteStart()
      modifies this`clientActive, this`intervalMs, this`captures
      ensures State() == Started(old(State()))
    {
      clientActive := true;
      intervalMs := DEFAULT_MS;
      captures := captures.(starts := captures.starts + 1);
    }

    /** One of the main loop's conditions has decided to begin a stream. */
    method BeginStream(o: CodecInit, requestOk: bool)
      requires !encoderInitialized
      modifies this, encoder
      ensures State() == SessionSpec.RequestFrame(InitEncoder(Started(old(State())), o), requestOk)
      ensures client == old(client)
    {
      NoteStart();
      InitEncoderForClient(o);
      RequestFrame(requestOk);
    }

    /** The three start conditions at the end of an iteration. Within one iteration only the first can
        fire: it covers the cases of the other two. */
    method StartIfReady(o: CodecInit, requestOk: bool)
      requires client != null && (clientActive <==> encoderInitialized)
      modifies this, encoder
      ensures State() == StartFrames(old(State()), o, requestOk)
    {
      if client.activated && !clientActive {
        if !client.vcm || client.gfxReady {
          BeginStream(o, requestOk);
        }
      }
      if client.activated && !clientActive && client.gfxReady {
        assert false;
      }
      if client.activated && !clientActive && !client.gfxReady && !client.vcm {
        assert false;
      }
    }

    /** One callback of FreeRDP. */
    method Callback(e: Event)
      requires Valid() && Enabled(State(), e) && IsCallback(e)
      modifies this, encoder, input, client
      ensures Valid() && State() == Step(old(State()), e) && client == old(client) && client != null
    {
      match e {
        case PostConnected(gfx, nscodec, depth, o) => OnPostConnect(gfx, nscodec, depth, o);
        case Activated(w, h, nscodec, o, surface) => OnActivate(w, h, nscodec, o, surface);
        case ResizeRequested(w, h, o, surface) => OnDesktopResize(w, h, o, surface);
        case CapsAdvertised(caps, os, confirmOk, surface) => OnCapsAdvertise(caps, os, confirmOk, surface);
        case _ => assert false;
      }
    }

    /** The callbacks of one poll, in order. */
    method Deliver(events: seq<Event>)
      requires Valid() && client != null && Callbacks(State(), events)
      modifies this, encoder, input, client
      ensures Valid() && State() == Run(old(State()), events) && client == old(client)
    {
      var k := 0;
      while k < |events|
        invariant 0 <= k <= |events| && Valid() && client == old(client) && client != null
        invariant Feasible(State(), events[k..]) && Run(State(), events[k..]) == Run(old(State()), events)
      {
        assert events[k..][0] == events[k] && events[k..][1..] == events[k + 1..];
        Callback(events[k]);
        k := k + 1;
      }
    }

    /** `epoll_add_vcm`; `fd` is what the channel manager names. */
    method WatchChannels(fd: int)
      requires client != null
      modifies this`vcmFd
      ensures State() == Watch(old(State()), fd)
    {
      var named := if client.vcm then fd else -1;
      if named >= 0 && named != vcmFd {
        vcmFd := named;
      }
    }

    /** What follows the poll of the channel manager. */
    method AnswerPoll(onlyPumps: bool, poll: VcmPoll) returns (ok: bool)
      requires client != null && (encoderInitialized ==> Sound(encoder.State()))
      modifies this, encoder, client
      ensures State() == (if !onlyPumps then PumpVcm(old(State()), poll)
                          else if poll.checkOk then old(State()) else Disconnect(old(State())))
      ensures if ok then client == old(client) else client == null
    {
      if onlyPumps {
        ok := poll.checkOk;
      } else {
        ok := client.CheckVcm(poll);
      }
      if !ok {
        DisconnectClient();
      }
    }

    /** `rdp_peer_check_vcm` with the callbacks that its poll delivers, from the loop or because the
        descriptor of the channel manager is readable, and the disconnection after a fatal answer. */
    method PumpChannels(onPump: seq<Event>, poll: VcmPoll) returns (ok: bool)
      requires Valid() && client != null && Callbacks(State(), onPump)
      modifies this, encoder, input, client
      ensures Valid() && State() == Pump(old(State()), onPump, poll)
      ensures if ok then client == old(client) else client == null
    {
      PumpKeeps(State(), onPump, poll);
      var onlyPumps := client.vcm && (client.gfxOpened || client.gfxReady);
      Deliver(onPump);
      ok := AnswerPoll(onlyPumps, poll);
    }

    /** The part of an iteration after a good poll of the client's socket. */
    method PumpAndStart(t: Turn)
      requires Valid() && client != null && Callbacks(Watch(State(), t.vcmFd), t.onPump)
      modifies this, encoder, input, client
      ensures State() ==
              var b := Pump(Watch(old(State()), t.vcmFd), t.onPump, t.poll);
              if b.client.None? then b else StartFrames(b, t.codec, t.requestOk)
    {
      WatchChannels(t.vcmFd);
      var ok := PumpChannels(t.onPump, t.poll);
      if ok {
        StartIfReady(t.codec, t.requestOk);
      }
    }

    /** The body of one main-loop iteration, as far as it concerns the client. */
    method Iterate(t: Turn)
      requires Valid() && Plausible(State(), t)
      modifies this, encoder, input, client
      ensures State() == Iteration(old(State()), t)
    {
      if client != null {
        Deliver(t.onPoll);
        if !t.pollOk {
          DisconnectClient();
          return;
        }
        PumpAndStart(t);
      }
    }

    /** The client's part of one main-loop iteration. */
    method LoopTail(t: Turn)
      requires Valid() && Plausible(State(), t)
      modifies this, encoder, input, client
      ensures Valid()
      ensures var events := IterationEvents(old(State()), t);
              Feasible(old(State()), events) && State() == Run(old(State()), events)
    {
      IterationIsRun(State(), t);
      RunKeepsInv(State(), IterationEvents(State(), t));
      Iterate(t);
    }
  }
}
