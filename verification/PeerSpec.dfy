/** What each peer operation does to `struct wlrdp_peer_context` and to the wire
    (src/session/rdp_peer.c), as functions on snapshots. Class `PeerContext` is proved against them. */
module PeerSpec {
  import opened CapsNegotiation
  import opened SessionTypes
  import opened Words

  /** The graphics channel's fields; handles are modelled by whether they are set. */
  datatype Gfx = Gfx(context: bool, open: bool, ready: bool, surfaceId: nat, frameId: U32)

  /** Channel contexts allocated and not yet freed. */
  datatype ChannelContexts = ChannelContexts(gfx: int, disp: int, cliprdr: int, sound: int)

  /** The other channels, each by whether its context is set (the code sets and clears its opened flag at
      the same time), and every channel context that is allocated. */
  datatype Side = Side(disp: bool, cliprdr: bool, sound: bool, live: ChannelContexts)

  /** The peer's fields; `nscodec` and `bpp` are the negotiated settings, `wire` is everything handed
      to FreeRDP so far, `fd` the socket the peer owns. */
  datatype PeerState = PeerState(
    fd: int, width: U32, height: U32, activated: bool, vcm: bool, gfx: Gfx, side: Side,
    mode: SendMode, nscodec: bool, bpp: nat, wire: seq<Pdu>)

  /** A peer as `rdp_peer_init` and the accept path leave it; NSCodec is requested there. */
  function NewPeer(fd: int, width: U32, height: U32): (r: PeerState) {
    PeerState(fd, width, height, false, false, Gfx(false, false, false, 0, 0),
              Side(false, false, false, ChannelContexts(0, 0, 0, 0)), SurfaceBits, true, 0, [])
  }

  function Emit(p: PeerState, pdus: seq<Pdu>): (r: PeerState) {
    p.(wire := p.wire + pdus)
  }

  /** Bits per pixel for the negotiated colour depth. */
  function PixelBits(depth: nat): (r: nat) {
    if depth == 24 then 24 else if depth == 16 then 16 else 32
  }

  function PostConnect(p: PeerState, gfx: bool, nscodec: bool, depth: nat, o: VcmOutcome): (r: PeerState) {
    var q := p.(nscodec := nscodec, bpp := PixelBits(depth));
    if !gfx || !o.serverOk then q else q.(vcm := o.managerOk)
  }

  function GfxOpen(p: PeerState, o: Opening): (r: PeerState) {
    if !o.newOk then p
    else
      var live := if o.openOk then p.side.live.(gfx := p.side.live.gfx + 1) else p.side.live;
      p.(gfx := Gfx(o.openOk, o.openOk, p.gfx.ready, 0, 0), side := p.side.(live := live))
  }

  function DispOpen(s: Side, o: Opening): (r: Side) {
    if o.Up() then s.(disp := true, live := s.live.(disp := s.live.disp + 1)) else s
  }

  function CliprdrOpen(s: Side, o: Opening): (r: Side) {
    if o.Up() then s.(cliprdr := true, live := s.live.(cliprdr := s.live.cliprdr + 1)) else s
  }

  function SoundOpen(s: Side, o: Opening): (r: Side) {
    if o.Up() then s.(sound := true, live := s.live.(sound := s.live.sound + 1)) else s
  }

  function SideOpen(s: Side, o: SideOpening): (r: Side) {
    var d := DispOpen(s, o.disp);
    SoundOpen(if o.clipboard then CliprdrOpen(d, o.cliprdr) else d, o.sound)
  }

  function SurfacePdus(w: U32, h: U32, o: SurfaceOutcome): (r: seq<Pdu>) {
    [ResetGraphics(w, h, o.resetOk), CreateSurface(1, w, h, o.createOk)] +
    if o.createOk then [MapSurface(1, o.mapOk)] else []
  }

  function CreateSurfaceOn(p: PeerState, w: U32, h: U32, o: SurfaceOutcome): (r: PeerState) {
    var q := Emit(p, SurfacePdus(w, h, o));
    if o.createOk && o.mapOk then q.(gfx := q.gfx.(surfaceId := 1)) else q
  }

  /** The other channels after clean-up: each context that is set is freed. */
  function SideClosed(s: Side, gfx: bool): (r: Side) {
    Side(false, false, false,
         ChannelContexts(s.live.gfx - if gfx then 1 else 0, s.live.disp - if s.disp then 1 else 0,
                  s.live.cliprdr - if s.cliprdr then 1 else 0, s.live.sound - if s.sound then 1 else 0))
  }

  function Cleanup(p: PeerState): (r: PeerState) {
    var q := if p.gfx.context && p.gfx.surfaceId != 0 then Emit(p, [DeleteSurface(p.gfx.surfaceId)]) else p;
    q.(vcm := false, gfx := Gfx(false, false, false, 0, p.gfx.frameId), side := SideClosed(p.side, p.gfx.context))
  }

  function CapsAdvertise(p: PeerState, caps: seq<CapSet>, os: nat, confirmOk: bool, o: SurfaceOutcome): (r: PeerState) {
    var q := Emit(p.(mode := Negotiated(caps, os)), [CapsConfirm(Best(caps, IsApple(os)).1, confirmOk)]);
    if !confirmOk || q.gfx.surfaceId != 0 then q
    else
      var c := CreateSurfaceOn(q, q.width, q.height, o);
      if o.createOk && o.mapOk then c.(gfx := c.gfx.(ready := true)) else Cleanup(c.(mode := SurfaceBits))
  }

  /** `rdp_peer_check_vcm`: the new state, and whether the loop may go on with this client. */
  function CheckVcm(p: PeerState, o: VcmPoll): (r: (PeerState, bool)) {
    if !p.vcm then (p, true)
    else if p.gfx.open || p.gfx.ready then (p, o.checkOk)
    else if !o.checkOk || o.drdynvc == Failed then (Cleanup(p), true)
    else if o.drdynvc == Handshaking then (p, true)
    else
      var q := GfxOpen(p, o.gfx);
      (q.(side := SideOpen(q.side, o.side)), true)
  }

  function UpdateSize(p: PeerState, w: U32, h: U32, o: SurfaceOutcome): (r: PeerState) {
    var q := p.(width := w, height := h);
    if q.gfx.ready && q.gfx.context then CreateSurfaceOn(q, w, h, o) else q
  }

  /** `rdp_peer_get_send_mode`. */
  function EffectiveMode(p: PeerState): (r: SendMode) {
    if p.gfx.ready then p.mode else SurfaceBits
  }

  function SurfaceBitsId(p: PeerState): (r: CodecId) {
    if p.nscodec then IdNsCodec else IdNone
  }

  /** The PDUs of one graphics frame: each is sent only if the one before was accepted. */
  function FramePdus(id: U32, command: Pdu, o: SendOutcome): (r: seq<Pdu>) {
    [StartFrame(id, o.startOk)] +
    if !o.startOk then [] else [command] + if !o.commandOk then [] else [EndFrame(id, o.endOk)]
  }

  function SendGfx(p: PeerState, codec: CodecId, len: U32, f: Frame, w: U32, h: U32, o: SendOutcome): (r: PeerState) {
    var id := ToU32(p.gfx.frameId + 1);
    var command := SurfaceCommand(p.gfx.surfaceId, codec, w, h, len, f.producer, o.commandOk);
    Emit(p.(gfx := p.gfx.(frameId := id)), FramePdus(id, command, o))
  }

  /** What `rdp_peer_send_frame` reports: nothing to send counts as sent. */
  function SendAnswer(p: PeerState, f: Frame, o: SendOutcome): (r: bool) {
    var all := o.startOk && o.commandOk && o.endOk;
    match EffectiveMode(p)
    case Avc444v2 => (f.outLen == 0 && f.auxLen == 0) || all
    case Avc444 => (f.outLen == 0 && f.auxLen == 0) || all
    case Avc420 => f.metaRects == 0 || f.outLen == 0 || all
    case Progressive => f.outLen == 0 || all
    case SurfaceBits => o.commandOk
  }

  /** `rdp_peer_send_frame`; a path whose stream is empty sends nothing. */
  function SendFrame(p: PeerState, f: Frame, w: U32, h: U32, o: SendOutcome): (r: PeerState) {
    match EffectiveMode(p)
    case Avc444v2 =>
      if f.outLen == 0 && f.auxLen == 0 then p
      else SendGfx(p, IdAvc444v2, ToU32(f.outLen + f.auxLen), f, w, h, o)
    case Avc444 =>
      if f.outLen == 0 && f.auxLen == 0 then p
      else SendGfx(p, IdAvc444, ToU32(f.outLen + f.auxLen), f, w, h, o)
    case Avc420 => if f.metaRects == 0 || f.outLen == 0 then p else SendGfx(p, IdAvc420, f.outLen, f, w, h, o)
    case Progressive => if f.outLen == 0 then p else SendGfx(p, IdCaProgressive, f.outLen, f, w, h, o)
    case SurfaceBits => Emit(p, [SurfaceBitsCommand(SurfaceBitsId(p), w, h, f.outLen, f.producer, o.commandOk)])
  }
}
