/** `struct wlrdp_peer_context` and its functions (src/session/rdp_peer.c), updating fields in place. */
module Peers {
  import opened CapsNegotiation
  import opened PeerSpec
  import opened SessionTypes
  import opened Words

  class PeerContext {
    const fd: int
    var width: U32
    var height: U32
    var activated: bool
    var vcm: bool
    var gfxContext: bool
    var gfxOpened: bool
    var gfxReady: bool
    var surfaceId: nat
    var frameId: U32
    var mode: SendMode
    var nscodec: bool
    var bpp: nat
    var disp: bool
    var cliprdr: bool
    var sound: bool
    ghost var contexts: ChannelContexts
    ghost var wire: seq<Pdu>

    ghost function State(): (r: PeerState)
      reads this
    {
      PeerState(fd, width, height, activated, vcm, GfxState(), SideState(), mode, nscodec, bpp, wire)
    }

    constructor (fd: int, width: U32, height: U32)
      ensures State() == NewPeer(fd, width, height)
    {
      this.fd, this.width, this.height, activated := fd, width, height, false;
      vcm, gfxContext, gfxOpened, gfxReady, surfaceId, frameId := false, false, false, false, 0, 0;
      disp, cliprdr, sound, contexts := false, false, false, ChannelContexts(0, 0, 0, 0);
      mode, nscodec, bpp, wire := SurfaceBits, true, 0, [];
    }

    ghost method Put(pdu: Pdu)
      modifies this`wire
      ensures wire == old(wire) + [pdu]
    {
      wire := wire + [pdu];
    }

    /** `vcm_init`. */
    method VcmInit(o: VcmOutcome) returns (ok: bool)
      modifies this`vcm
      ensures ok == (o.serverOk && o.managerOk) && vcm == (if o.serverOk then o.managerOk else old(vcm))
    {
      if !o.serverOk {
        return false;
      }
      vcm := true;
      if !o.managerOk {
        vcm := false;
        return false;
      }
      return true;
    }

    method SetPixelBits(depth: nat)
      modifies this`bpp
      ensures bpp == PixelBits(depth)
    {
      match depth {
        case 32 => bpp := 32;
        case 24 => bpp := 24;
        case 16 => bpp := 16;
        case _ => bpp := 32;
      }
    }

    /** `on_post_connect`. */
    method PostConnect(gfx: bool, nscodec: bool, depth: nat, o: VcmOutcome)
      modifies this`vcm, this`nscodec, this`bpp
      ensures State() == PeerSpec.PostConnect(old(State()), gfx, nscodec, depth, o)
    {
      this.nscodec := nscodec;
      SetPixelBits(depth);
      if gfx {
        var _ := VcmInit(o);
      }
    }

    ghost function GfxState(): (r: Gfx)
      reads this
    {
      Gfx(gfxContext, gfxOpened, gfxReady, surfaceId, frameId)
    }

    /** A new graphics context, not open yet. */
    method TakeGfxContext()
      modifies this`gfxContext, this`surfaceId, this`frameId, this`gfxOpened, this`contexts
      ensures GfxState() == Gfx(true, false, gfxReady, 0, 0)
      ensures contexts == old(contexts).(gfx := old(contexts).gfx + 1)
    {
      contexts := contexts.(gfx := contexts.gfx + 1);
      gfxContext := true;
      surfaceId := 0;
      frameId := 0;
      gfxOpened := false;
    }

    /** `gfx_open`. */
    method GfxOpen(o: Opening) returns (ok: bool)
      modifies this`gfxContext, this`surfaceId, this`frameId, this`gfxOpened, this`contexts
      ensures State() == PeerSpec.GfxOpen(old(State()), o) && ok == o.Up()
    {
      if !o.newOk {
        return false;
      }
      TakeGfxContext();
      if !o.openOk {
        contexts := contexts.(gfx := contexts.gfx - 1);
        gfxContext := false;
        return false;
      }
      gfxOpened := true;
      return true;
    }

    ghost function SideState(): (r: Side)
      reads this
    {
      Side(disp, cliprdr, sound, contexts)
    }

    /** `disp_open`: an earlier context whose handle is still set is overwritten. */
    method DispOpen(o: Opening) returns (ok: bool)
      modifies this`disp, this`contexts
      ensures SideState() == PeerSpec.DispOpen(old(SideState()), o) && ok == o.Up()
    {
      if !o.newOk {
        return false;
      }
      contexts := contexts.(disp := contexts.disp + 1);
      if !o.openOk {
        contexts := contexts.(disp := contexts.disp - 1);
        return false;
      }
      disp := true;
      return true;
    }

    /** `clipboard_open_cliprdr`, and its caller that notes the context. */
    method CliprdrOpen(o: Opening) returns (ok: bool)
      modifies this`cliprdr, this`contexts
      ensures SideState() == PeerSpec.CliprdrOpen(old(SideState()), o) && ok == o.Up()
    {
      if !o.newOk {
        return false;
      }
      contexts := contexts.(cliprdr := contexts.cliprdr + 1);
      if !o.openOk {
        contexts := contexts.(cliprdr := contexts.cliprdr - 1);
        return false;
      }
      cliprdr := true;
      return true;
    }

    /** `rdpsnd_open`; its second answer covers initialising and starting. */
    method SoundOpen(o: Opening) returns (ok: bool)
      modifies this`sound, this`contexts
      ensures SideState() == PeerSpec.SoundOpen(old(SideState()), o) && ok == o.Up()
    {
      if !o.newOk {
        return false;
      }
      contexts := contexts.(sound := contexts.sound + 1);
      if !o.openOk {
        contexts := contexts.(sound := contexts.sound - 1);
        return false;
      }
      sound := true;
      return true;
    }

    /** The channels that are opened after the graphics channel, whether or not that succeeded. */
    method SideOpen(o: SideOpening)
      modifies this`disp, this`cliprdr, this`sound, this`contexts
      ensures State() == old(State()).(side := PeerSpec.SideOpen(old(SideState()), o))
    {
      var _ := DispOpen(o.disp);
      if o.clipboard {
        var _ := CliprdrOpen(o.cliprdr);
      }
      var _ := SoundOpen(o.sound);
    }

    /** `gfx_create_surface`. */
    method GfxCreateSurface(w: U32, h: U32, o: SurfaceOutcome) returns (ok: bool)
      modifies this`surfaceId, this`wire
      ensures State() == CreateSurfaceOn(old(State()), w, h, o) && ok == (o.createOk && o.mapOk)
    {
      ghost var before := wire;
      Put(ResetGraphics(w, h, o.resetOk));
      Put(CreateSurface(1, w, h, o.createOk));
      if !o.createOk {
        assert wire == before + SurfacePdus(w, h, o);
        return false;
      }
      Put(MapSurface(1, o.mapOk));
      assert wire == before + SurfacePdus(w, h, o);
      if !o.mapOk {
        return false;
      }
      surfaceId := 1;
      return true;
    }

    /** The part of `gfx_cleanup` that frees the channels other than graphics. */
    method SideClose()
      modifies this`disp, this`cliprdr, this`sound, this`contexts
      ensures State() == old(State()).(side := SideClosed(old(SideState()), false))
    {
      if sound {
        contexts := contexts.(sound := contexts.sound - 1);
        sound := false;
      }
      if cliprdr {
        contexts := contexts.(cliprdr := contexts.cliprdr - 1);
        cliprdr := false;
      }
      if disp {
        contexts := contexts.(disp := contexts.disp - 1);
        disp := false;
      }
    }

    /** The part of `gfx_cleanup` that closes the graphics channel. */
    method GfxClose()
      modifies this`gfxContext, this`contexts, this`wire
      ensures State() ==
              var p := old(State());
              var live := p.side.live.(gfx := p.side.live.gfx - if p.gfx.context then 1 else 0);
              p.(gfx := p.gfx.(context := false), side := p.side.(live := live),
                 wire := p.wire +
                   if p.gfx.context && p.gfx.surfaceId != 0 then [DeleteSurface(p.gfx.surfaceId)] else [])
    {
      if gfxContext {
        if surfaceId != 0 {
          Put(DeleteSurface(surfaceId));
        }
        contexts := contexts.(gfx := contexts.gfx - 1);
        gfxContext := false;
      }
    }

    /** `gfx_cleanup`. */
    method GfxCleanup()
      modifies this
      ensures State() == Cleanup(old(State()))
    {
      GfxClose();
      SideClose();
      ClearFlags();
    }

    method ClearFlags()
      modifies this`gfxOpened, this`gfxReady, this`surfaceId, this`vcm
      ensures State() == old(State()).(vcm := false, gfx := Gfx(gfxContext, false, false, 0, frameId))
    {
      if vcm {
        vcm := false;
      }
      gfxOpened := false;
      gfxReady := false;
      surfaceId := 0;
    }

    /** The mode that a rank stands for. */
    method AdoptRank(bestRank: int)
      modifies this`mode
      ensures mode == ModeOf(bestRank)
    {
      match bestRank {
        case 4 => mode := Avc444v2;
        case 3 => mode := Avc444;
        case 2 => mode := Avc420;
        case 1 => mode := Progressive;
        case _ => mode := SurfaceBits;
      }
    }

    /** After the confirmation: the first time, a surface makes the channel ready or its failure ends it. */
    method FinishNegotiation(o: SurfaceOutcome)
      modifies this
      ensures State() ==
              var q := old(State());
              if q.gfx.surfaceId != 0 then q
              else
                var c := CreateSurfaceOn(q, q.width, q.height, o);
                if o.createOk && o.mapOk then c.(gfx := c.gfx.(ready := true)) else Cleanup(c.(mode := SurfaceBits))
    {
      if surfaceId == 0 {
        var ok := GfxCreateSurface(width, height, o);
        if ok {
          gfxReady := true;
        } else {
          mode := SurfaceBits;
          GfxCleanup();
        }
      }
    }

    /** `gfx_caps_advertise`. */
    method CapsAdvertise(caps: seq<CapSet>, os: nat, confirmOk: bool, o: SurfaceOutcome)
      modifies this
      ensures State() == PeerSpec.CapsAdvertise(old(State()), caps, os, confirmOk, o)
    {
      var bestRank, chosen := Negotiate(caps, os);
      AdoptRank(bestRank);
      Put(CapsConfirm(chosen, confirmOk));
      assert State() == Emit(old(State()).(mode := Negotiated(caps, os)),
                             [CapsConfirm(Best(caps, IsApple(os)).1, confirmOk)]);
      if !confirmOk {
        return;
      }
      FinishNegotiation(o);
    }

    /** `rdp_peer_check_vcm`. */
    method CheckVcm(o: VcmPoll) returns (ok: bool)
      modifies this
      ensures (State(), ok) == PeerSpec.CheckVcm(old(State()), o)
    {
      if !vcm {
        return true;
      }
      if gfxOpened || gfxReady {
        return o.checkOk;
      }
      if !o.checkOk {
        GfxCleanup();
        return true;
      }
      if o.drdynvc == Failed {
        GfxCleanup();
        return true;
      }
      if o.drdynvc != Ready {
        return true;
      }
      var _ := GfxOpen(o.gfx);
      SideOpen(o.side);
      return true;
    }

    /** `rdp_peer_get_send_mode`. */
    method GetSendMode() returns (m: SendMode)
      ensures m == EffectiveMode(State())
    {
      if !gfxReady {
        return SurfaceBits;
      }
      return mode;
    }

    /** `send_gfx_avc420`. */
    method SendGfxAvc420(f: Frame, w: U32, h: U32, o: SendOutcome) returns (ok: bool)
      modifies this`frameId, this`wire
      ensures f.metaRects == 0 || f.outLen == 0 ==> ok && unchanged(this)
      ensures ok == (f.metaRects == 0 || f.outLen == 0 || (o.startOk && o.commandOk && o.endOk))
      ensures f.metaRects != 0 && f.outLen != 0 ==> State() == SendGfx(old(State()), IdAvc420, f.outLen, f, w, h, o)
    {
      if f.metaRects == 0 || f.outLen == 0 {
        return true;
      }
      frameId := ToU32(frameId + 1);
      Put(StartFrame(frameId, o.startOk));
      if !o.startOk {
        return false;
      }
      Put(SurfaceCommand(surfaceId, IdAvc420, w, h, f.outLen, f.producer, o.commandOk));
      if !o.commandOk {
        return false;
      }
      Put(EndFrame(frameId, o.endOk));
      return o.endOk;
    }

    /** `send_gfx_avc444`. */
    method SendGfxAvc444(f: Frame, w: U32, h: U32, v2: bool, o: SendOutcome) returns (ok: bool)
      modifies this`frameId, this`wire
      ensures f.outLen == 0 && f.auxLen == 0 ==> ok && unchanged(this)
      ensures ok == ((f.outLen == 0 && f.auxLen == 0) || (o.startOk && o.commandOk && o.endOk))
      ensures f.outLen != 0 || f.auxLen != 0 ==>
                State() == SendGfx(old(State()), if v2 then IdAvc444v2 else IdAvc444,
                                   ToU32(f.outLen + f.auxLen), f, w, h, o)
    {
      if f.outLen == 0 && f.auxLen == 0 {
        return true;
      }
      frameId := ToU32(frameId + 1);
      Put(StartFrame(frameId, o.startOk));
      if !o.startOk {
        return false;
      }
      Put(SurfaceCommand(surfaceId, if v2 then IdAvc444v2 else IdAvc444, w, h,
                         ToU32(f.outLen + f.auxLen), f.producer, o.commandOk));
      if !o.commandOk {
        return false;
      }
      Put(EndFrame(frameId, o.endOk));
      return o.endOk;
    }

    /** `send_gfx_progressive`. */
    method SendGfxProgressive(f: Frame, w: U32, h: U32, o: SendOutcome) returns (ok: bool)
      modifies this`frameId, this`wire
      ensures f.outLen == 0 ==> ok && unchanged(this)
      ensures ok == (f.outLen == 0 || (o.startOk && o.commandOk && o.endOk))
      ensures f.outLen != 0 ==> State() == SendGfx(old(State()), IdCaProgressive, f.outLen, f, w, h, o)
    {
      if f.outLen == 0 {
        return true;
      }
      frameId := ToU32(frameId + 1);
      Put(StartFrame(frameId, o.startOk));
      if !o.startOk {
        return false;
      }
      Put(SurfaceCommand(surfaceId, IdCaProgressive, w, h, f.outLen, f.producer, o.commandOk));
      if !o.commandOk {
        return false;
      }
      Put(EndFrame(frameId, o.endOk));
      return o.endOk;
    }

    /** `send_surface_bits`. */
    method SendSurfaceBits(f: Frame, w: U32, h: U32, o: SendOutcome) returns (ok: bool)
      modifies this`wire
      ensures ok == o.commandOk
      ensures State() == Emit(old(State()),
                              [SurfaceBitsCommand(SurfaceBitsId(old(State())), w, h, f.outLen, f.producer, ok)])
    {
      var codec := IdNone;
      if nscodec {
        codec := IdNsCodec;
      }
      Put(SurfaceBitsCommand(codec, w, h, f.outLen, f.producer, o.commandOk));
      return o.commandOk;
    }

    /** `rdp_peer_send_frame`. */
    method SendFrame(f: Frame, w: U32, h: U32, o: SendOutcome) returns (ok: bool)
      modifies this
      ensures State() == PeerSpec.SendFrame(old(State()), f, w, h, o)
      ensures ok == SendAnswer(old(State()), f, o)
    {
      if gfxReady {
        match mode {
          case Avc444v2 =>
            ok := SendGfxAvc444(f, w, h, true, o);
            return;
          case Avc444 =>
            ok := SendGfxAvc444(f, w, h, false, o);
            return;
          case Avc420 =>
            ok := SendGfxAvc420(f, w, h, o);
            return;
          case Progressive =>
            ok := SendGfxProgressive(f, w, h, o);
            return;
          case SurfaceBits =>
        }
      }
      ok := SendSurfaceBits(f, w, h, o);
    }

    /** `rdp_peer_update_size`. */
    method UpdateSize(w: U32, h: U32, o: SurfaceOutcome)
      modifies this
      ensures State() == PeerSpec.UpdateSize(old(State()), w, h, o)
    {
      width := w;
      height := h;
      if gfxReady && gfxContext {
        var _ := GfxCreateSurface(w, h, o);
      }
    }
  }
}
