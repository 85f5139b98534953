/** What every peer operation keeps: the life cycle of the graphics channel and a well-formed wire. */
module PeerInvariant {
  import opened CapsNegotiation
  import opened PeerSpec
  import opened SessionTypes
  import opened WireTrace
  import opened Words

  /** The handles and flags of the graphics channel agree with each other. */
  ghost predicate Lifecycle(p: PeerState) {
    && (p.gfx.surfaceId == 0 || p.gfx.surfaceId == 1)
    && (p.gfx.surfaceId == 1 <==> p.gfx.ready)
    && (p.gfx.ready ==> p.gfx.context)
    && (p.gfx.context <==> p.gfx.open)
    && (p.gfx.context ==> p.vcm)
  }

  ghost predicate OnWire(p: PeerState) {
    && WellFormed(p.wire)
    && p.gfx.frameId == ToU32(Starts(p.wire))
    && (p.gfx.ready ==> MappedBefore(p.wire, |p.wire|, 1))
    && (!p.gfx.ready ==> Starts(p.wire) == 0)
  }

  /** The graphics context is freed exactly when its handle is cleared; of each other kind at least the one
      whose handle is set is allocated, and none is set without a channel manager. */
  ghost predicate ContextsHeld(p: PeerState) {
    && p.side.live.gfx == (if p.gfx.context then 1 else 0)
    && p.side.live.disp >= (if p.side.disp then 1 else 0)
    && p.side.live.cliprdr >= (if p.side.cliprdr then 1 else 0)
    && p.side.live.sound >= (if p.side.sound then 1 else 0)
    && (!p.vcm ==> !p.side.disp && !p.side.cliprdr && !p.side.sound)
  }

  ghost predicate PeerInv(p: PeerState) {
    Lifecycle(p) && ContextsHeld(p) && OnWire(p)
  }

  lemma NewPeerInv(fd: int, w: U32, h: U32)
    ensures PeerInv(NewPeer(fd, w, h))
  {
  }

  lemma PostConnectKeeps(p: PeerState, gfx: bool, nscodec: bool, depth: nat, o: VcmOutcome)
    requires PeerInv(p) && !p.vcm
    ensures PeerInv(PostConnect(p, gfx, nscodec, depth, o))
  {
  }

  lemma SurfacePdusMap(wire: seq<Pdu>, w: U32, h: U32, o: SurfaceOutcome)
    requires o.createOk && o.mapOk
    ensures var all := wire + SurfacePdus(w, h, o); MappedBefore(all, |all|, 1)
  {
    var all := wire + SurfacePdus(w, h, o);
    assert Creates(all[|wire| + 1], 1) && all[|wire| + 2] == MapSurface(1, true);
  }

  lemma SurfacePdusAreSetup(w: U32, h: U32, o: SurfaceOutcome)
    ensures forall pdu :: pdu in SurfacePdus(w, h, o) ==> IsSetup(pdu)
  {
  }

  lemma CreateSurfaceKeepsWire(p: PeerState, w: U32, h: U32, o: SurfaceOutcome)
    requires WellFormed(p.wire)
    ensures var q := CreateSurfaceOn(p, w, h, o);
            && WellFormed(q.wire) && Starts(q.wire) == Starts(p.wire)
            && (o.createOk && o.mapOk ==> MappedBefore(q.wire, |q.wire|, 1))
            && (MappedBefore(p.wire, |p.wire|, 1) ==> MappedBefore(q.wire, |q.wire|, 1))
  {
    SurfacePdusAreSetup(w, h, o);
    AppendSetup(p.wire, SurfacePdus(w, h, o));
    if o.createOk && o.mapOk {
      SurfacePdusMap(p.wire, w, h, o);
    } else if MappedBefore(p.wire, |p.wire|, 1) {
      MappedAfterMore(p.wire, SurfacePdus(w, h, o), |p.wire|, 1);
    }
  }

  /** An advertisement keeps the invariant, and a channel that was ready before it still is. */
  lemma CapsAdvertiseKeeps(p: PeerState, caps: seq<CapSet>, os: nat, confirmOk: bool, o: SurfaceOutcome)
    requires PeerInv(p) && p.gfx.context
    ensures var q := CapsAdvertise(p, caps, os, confirmOk, o);
            PeerInv(q) && (p.gfx.ready ==> q.gfx.ready && q.vcm == p.vcm)
  {
    var q := Emit(p.(mode := Negotiated(caps, os)), [CapsConfirm(Best(caps, IsApple(os)).1, confirmOk)]);
    AppendSetup(p.wire, [CapsConfirm(Best(caps, IsApple(os)).1, confirmOk)]);
    if p.gfx.ready {
      MappedAfterMore(p.wire, [CapsConfirm(Best(caps, IsApple(os)).1, confirmOk)], |p.wire|, 1);
    }
    CreateSurfaceKeepsWire(q, q.width, q.height, o);
  }

  /** No channel, no context and no manager is left. */
  ghost predicate ShutDown(p: PeerState) {
    && !p.vcm && !p.gfx.context && !p.gfx.open && !p.gfx.ready && p.gfx.surfaceId == 0
    && !p.side.disp && !p.side.cliprdr && !p.side.sound && p.side.live.gfx == 0
  }

  /** The channel is open, but no surface has been set up: neither ready nor shut down. */
  ghost predicate HalfOpen(p: PeerState) {
    p.vcm && p.gfx.context && p.gfx.open && !p.gfx.ready
  }

  /** A first advertisement has three ends: it makes the channel ready, exactly when the confirmation and
      the surface succeed; it shuts everything down, exactly when the confirmation succeeds and the surface
      does not; and when the confirmation is refused it leaves the channel half open. */
  lemma FirstAdvertisementExactly(p: PeerState, caps: seq<CapSet>, os: nat, confirmOk: bool, o: SurfaceOutcome)
    requires PeerInv(p) && HalfOpen(p)
    ensures var q := CapsAdvertise(p, caps, os, confirmOk, o);
            && (q.gfx.ready <==> confirmOk && o.createOk && o.mapOk)
            && (ShutDown(q) <==> confirmOk && !(o.createOk && o.mapOk))
            && (HalfOpen(q) <==> !confirmOk)
            && q.mode == (if ShutDown(q) then SurfaceBits else Negotiated(caps, os))
  {
  }

  lemma CleanupKeeps(p: PeerState)
    requires PeerInv(p) && !p.gfx.ready
    ensures PeerInv(Cleanup(p)) && Cleanup(p).wire == p.wire
  {
  }

  lemma SideOpenKeeps(p: PeerState, o: SideOpening)
    requires PeerInv(p) && p.vcm
    ensures PeerInv(p.(side := SideOpen(p.side, o)))
  {
    var s := SideOpen(p.side, o);
    assert s.live.gfx == p.side.live.gfx;
  }

  lemma GfxOpenKeeps(p: PeerState, o: Opening)
    requires PeerInv(p) && p.vcm && !p.gfx.open
    ensures PeerInv(GfxOpen(p, o)) && GfxOpen(p, o).wire == p.wire && GfxOpen(p, o).vcm
  {
  }

  /** The clean-up of a channel whose set-up failed never has a surface to delete. */
  lemma CheckVcmKeeps(p: PeerState, poll: VcmPoll)
    requires PeerInv(p)
    ensures var (q, ok) := CheckVcm(p, poll);
            && PeerInv(q) && q.wire == p.wire
            && (p.gfx.ready ==> q == p) && (!p.vcm ==> q == p) && (!ok ==> q == p && p.gfx.context)
  {
    if p.vcm && !p.gfx.open && !p.gfx.ready {
      CleanupKeeps(p);
      GfxOpenKeeps(p, poll.gfx);
      SideOpenKeeps(GfxOpen(p, poll.gfx), poll.side);
    }
  }

  // --- Channel contexts ---

  /** Contexts that nothing points to any more. */
  function Lost(s: Side): (r: int) {
    s.live.disp + s.live.cliprdr + s.live.sound
    - (if s.disp then 1 else 0) - (if s.cliprdr then 1 else 0) - (if s.sound then 1 else 0)
  }

  function Leaked(p: PeerState): (r: int) {
    Lost(p.side)
  }

  lemma OpeningLeaksExactly(s: Side, o: SideOpening)
    ensures Lost(SideOpen(s, o)) == Lost(s) + (if s.disp && o.disp.Up() then 1 else 0)
                                   + (if s.cliprdr && o.clipboard && o.cliprdr.Up() then 1 else 0)
                                   + (if s.sound && o.sound.Up() then 1 else 0)
  {
  }

  /** The poll opens the channels, and one of them that is still open from before. */
  predicate Reopens(p: PeerState, poll: VcmPoll) {
    && p.vcm && !p.gfx.open && !p.gfx.ready && poll.checkOk && poll.drdynvc == Ready
    && (|| (p.side.disp && poll.side.disp.Up())
        || (p.side.cliprdr && poll.side.clipboard && poll.side.cliprdr.Up())
        || (p.side.sound && poll.side.sound.Up()))
  }

  lemma GfxOpenSide(p: PeerState, o: Opening)
    ensures var s := GfxOpen(p, o).side; s == p.side.(live := p.side.live.(gfx := s.live.gfx))
  {
  }

  /** A poll loses a channel context exactly when it opens a channel that is already open; otherwise it
      loses none. Clean-up loses none at all. */
  lemma PollLeaksExactly(p: PeerState, poll: VcmPoll)
    requires PeerInv(p)
    ensures Leaked(CheckVcm(p, poll).0) >= Leaked(p)
    ensures Leaked(CheckVcm(p, poll).0) > Leaked(p) <==> Reopens(p, poll)
  {
    if p.vcm && !p.gfx.open && !p.gfx.ready {
      GfxOpenSide(p, poll.gfx);
      OpeningLeaksExactly(GfxOpen(p, poll.gfx).side, poll.side);
    }
  }

  /** The channels are all opened by one successful poll: afterwards a poll reopens none. A poll whose
      graphics channel did not open is repeated. */
  lemma PollOpensOnceExactly(p: PeerState, poll: VcmPoll)
    requires PeerInv(p) && p.vcm && !p.gfx.open && poll.checkOk && poll.drdynvc == Ready
    ensures var q := CheckVcm(p, poll).0;
            (forall next :: !Reopens(q, next)) <==> poll.gfx.Up() || (!q.side.disp && !q.side.cliprdr && !q.side.sound)
  {
    var q := CheckVcm(p, poll).0;
    if !poll.gfx.Up() && (q.side.disp || q.side.cliprdr || q.side.sound) {
      var up := Opening(true, true);
      assert Reopens(q, VcmPoll(true, Ready, up, SideOpening(up, true, up, up)));
    }
  }

  lemma UpdateSizeKeeps(p: PeerState, w: U32, h: U32, o: SurfaceOutcome)
    requires PeerInv(p)
    ensures PeerInv(UpdateSize(p, w, h, o))
  {
    var q := p.(width := w, height := h);
    CreateSurfaceKeepsWire(q, w, h, o);
  }

  /** The codec tag that belongs to a send mode. */
  function TagOf(mode: SendMode, nscodec: bool): (r: CodecId) {
    match mode
    case SurfaceBits => if nscodec then IdNsCodec else IdNone
    case Avc420 => IdAvc420
    case Avc444 => IdAvc444
    case Avc444v2 => IdAvc444v2
    case Progressive => IdCaProgressive
  }

  /** A PDU of a frame in the given mode. */
  predicate FollowsMode(pdu: Pdu, mode: SendMode, nscodec: bool) {
    match pdu
    case SurfaceBitsCommand(codec, _, _, _, _, _) => mode == SurfaceBits && codec == TagOf(mode, nscodec)
    case SurfaceCommand(_, codec, _, _, _, _, _) => mode != SurfaceBits && codec == TagOf(mode, nscodec)
    case StartFrame(_, _) => mode != SurfaceBits
    case EndFrame(_, _) => mode != SurfaceBits
    case _ => false
  }

  lemma GfxFramesFollowMode(p: PeerState, mode: SendMode, len: U32, f: Frame, w: U32, h: U32, o: SendOutcome)
    requires mode != SurfaceBits
    ensures var q := SendGfx(p, TagOf(mode, p.nscodec), len, f, w, h, o);
            |p.wire| <= |q.wire| && forall i :: |p.wire| <= i < |q.wire| ==> FollowsMode(q.wire[i], mode, p.nscodec)
  {
  }

  /** Whatever a frame puts on the wire goes by the mode that `rdp_peer_get_send_mode` reports: graphics
      commands in a graphics mode, bitmaps otherwise, and each under that mode's tag. */
  lemma FramesFollowReportedMode(p: PeerState, f: Frame, w: U32, h: U32, o: SendOutcome, i: nat)
    requires |p.wire| <= i < |SendFrame(p, f, w, h, o).wire|
    ensures FollowsMode(SendFrame(p, f, w, h, o).wire[i], EffectiveMode(p), p.nscodec)
  {
    match EffectiveMode(p)
    case SurfaceBits =>
    case Avc444v2 => GfxFramesFollowMode(p, Avc444v2, ToU32(f.outLen + f.auxLen), f, w, h, o);
    case Avc444 => GfxFramesFollowMode(p, Avc444, ToU32(f.outLen + f.auxLen), f, w, h, o);
    case Avc420 => GfxFramesFollowMode(p, Avc420, f.outLen, f, w, h, o);
    case Progressive => GfxFramesFollowMode(p, Progressive, f.outLen, f, w, h, o);
  }

  lemma SurfaceBitsKeeps(p: PeerState, pdu: Pdu)
    requires PeerInv(p) && IsSetup(pdu)
    ensures PeerInv(Emit(p, [pdu]))
  {
    AppendSetup(p.wire, [pdu]);
    if p.gfx.ready {
      MappedAfterMore(p.wire, [pdu], |p.wire|, 1);
    }
  }

  lemma FramePdusAreFrame(id: U32, command: Pdu, o: SendOutcome)
    requires command.SurfaceCommand? && command.surfaceId == 1 && command.ok == o.commandOk
    ensures IsFrame(FramePdus(id, command, o), id, 1)
  {
  }

  lemma SendGfxKeeps(p: PeerState, codec: CodecId, len: U32, f: Frame, w: U32, h: U32, o: SendOutcome)
    requires PeerInv(p) && p.gfx.ready
    ensures PeerInv(SendGfx(p, codec, len, f, w, h, o))
  {
    ToU32Absorbs(Starts(p.wire), 1);
    var command := SurfaceCommand(1, codec, w, h, len, f.producer, o.commandOk);
    FramePdusAreFrame(ToU32(p.gfx.frameId + 1), command, o);
    AppendFrame(p.wire, FramePdus(ToU32(p.gfx.frameId + 1), command, o), 1);
  }

  lemma SendFrameKeeps(p: PeerState, f: Frame, w: U32, h: U32, o: SendOutcome)
    requires PeerInv(p)
    ensures PeerInv(SendFrame(p, f, w, h, o))
  {
    match EffectiveMode(p)
    case SurfaceBits =>
      SurfaceBitsKeeps(p, SurfaceBitsCommand(SurfaceBitsId(p), w, h, f.outLen, f.producer, o.commandOk));
    case Avc444v2 => SendGfxKeeps(p, IdAvc444v2, ToU32(f.outLen + f.auxLen), f, w, h, o);
    case Avc444 => SendGfxKeeps(p, IdAvc444, ToU32(f.outLen + f.auxLen), f, w, h, o);
    case Avc420 => SendGfxKeeps(p, IdAvc420, f.outLen, f, w, h, o);
    case Progressive => SendGfxKeeps(p, IdCaProgressive, f.outLen, f, w, h, o);
  }

  lemma SendGfxFrame(p: PeerState, codec: CodecId, len: U32, f: Frame, w: U32, h: U32, o: SendOutcome)
    ensures var q := SendGfx(p, codec, len, f, w, h, o);
            q == p.(wire := q.wire, gfx := p.gfx.(frameId := q.gfx.frameId))
  {
  }

  lemma BitsFrame(p: PeerState, f: Frame, w: U32, h: U32, o: SendOutcome)
    requires EffectiveMode(p) == SurfaceBits
    ensures var q := SendFrame(p, f, w, h, o); q == p.(wire := q.wire)
  {
  }

  lemma Avc444Frame(p: PeerState, f: Frame, w: U32, h: U32, o: SendOutcome)
    requires EffectiveMode(p) == Avc444 || EffectiveMode(p) == Avc444v2
    ensures var q := SendFrame(p, f, w, h, o); q == p.(wire := q.wire, gfx := p.gfx.(frameId := q.gfx.frameId))
  {
    var codec := if EffectiveMode(p) == Avc444 then IdAvc444 else IdAvc444v2;
    SendGfxFrame(p, codec, ToU32(f.outLen + f.auxLen), f, w, h, o);
  }

  lemma SingleStreamFrame(p: PeerState, f: Frame, w: U32, h: U32, o: SendOutcome)
    requires EffectiveMode(p) == Avc420 || EffectiveMode(p) == Progressive
    ensures var q := SendFrame(p, f, w, h, o); q == p.(wire := q.wire, gfx := p.gfx.(frameId := q.gfx.frameId))
  {
    var codec := if EffectiveMode(p) == Avc420 then IdAvc420 else IdCaProgressive;
    SendGfxFrame(p, codec, f.outLen, f, w, h, o);
  }

  /** Sending touches nothing but the wire and the frame counter. */
  lemma SendFrameFrame(p: PeerState, f: Frame, w: U32, h: U32, o: SendOutcome)
    ensures var q := SendFrame(p, f, w, h, o); q == p.(wire := q.wire, gfx := p.gfx.(frameId := q.gfx.frameId))
  {
    match EffectiveMode(p)
    case SurfaceBits => BitsFrame(p, f, w, h, o);
    case Avc444v2 => Avc444Frame(p, f, w, h, o);
    case Avc444 => Avc444Frame(p, f, w, h, o);
    case Avc420 => SingleStreamFrame(p, f, w, h, o);
    case Progressive => SingleStreamFrame(p, f, w, h, o);
  }
}
