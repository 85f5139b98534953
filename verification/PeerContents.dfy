/** What each peer operation puts on the wire, field by field, and what it reports, stated from its
    arguments alone (src/session/rdp_peer.c:32-143, 209-256, 594-638, 790-1081). */
module PeerContents {
  import opened CapsNegotiation
  import opened PeerInvariant
  import opened PeerSpec
  import opened SessionTypes
  import opened Words

  /** The status FreeRDP answered a PDU with. */
  predicate Taken(pdu: Pdu) {
    match pdu
    case CapsConfirm(_, ok) => ok
    case ResetGraphics(_, _, ok) => ok
    case CreateSurface(_, _, _, ok) => ok
    case MapSurface(_, ok) => ok
    case DeleteSurface(_) => true
    case StartFrame(_, ok) => ok
    case SurfaceCommand(_, _, _, _, _, _, ok) => ok
    case EndFrame(_, ok) => ok
    case SurfaceBitsCommand(_, _, _, _, _, ok) => ok
  }

  // --- Frames ---

  /** The bytes announced for a frame: both streams, in 32-bit arithmetic, in the two AVC444 modes. */
  predicate AnnouncesBytes(length: U32, mode: SendMode, f: Frame) {
    if mode == Avc444 || mode == Avc444v2
    then length == (f.outLen + f.auxLen) % 0x1_0000_0000
    else length == f.outLen
  }

  /** A PDU describes the whole frame at this size, on the peer's surface and under the next id. */
  predicate Describes(pdu: Pdu, p: PeerState, f: Frame, w: U32, h: U32) {
    match pdu
    case StartFrame(id, _) => id == (p.gfx.frameId + 1) % 0x1_0000_0000
    case EndFrame(id, _) => id == (p.gfx.frameId + 1) % 0x1_0000_0000
    case SurfaceCommand(surface, codec, right, bottom, length, producer, _) =>
      && surface == p.gfx.surfaceId && right == w && bottom == h && producer == f.producer
      && codec == TagOf(EffectiveMode(p), p.nscodec) && AnnouncesBytes(length, EffectiveMode(p), f)
    case SurfaceBitsCommand(codec, right, bottom, length, producer, _) =>
      && right == w && bottom == h && producer == f.producer
      && codec == TagOf(SurfaceBits, p.nscodec) && length == f.outLen
    case _ => false
  }

  /** There is something to send in this mode: an AVC420 frame needs regions and bytes, an AVC444 frame
      bytes in either stream, a Progressive one bytes; a bitmap always goes out. */
  predicate HasPicture(mode: SendMode, f: Frame) {
    match mode
    case SurfaceBits => true
    case Avc420 => f.metaRects > 0 && f.outLen > 0
    case Avc444 => f.outLen > 0 || f.auxLen > 0
    case Avc444v2 => f.outLen > 0 || f.auxLen > 0
    case Progressive => f.outLen > 0
  }

  /** Everything after the old wire was accepted. */
  ghost predicate AllTaken(before: seq<Pdu>, wire: seq<Pdu>) {
    forall i :: |before| <= i < |wire| ==> Taken(wire[i])
  }

  /** Start, command and end, each only if the one before was accepted. */
  ghost predicate GfxShape(before: seq<Pdu>, wire: seq<Pdu>, o: SendOutcome) {
    var n := |before|;
    && before <= wire && |wire| == n + (if !o.startOk then 1 else if !o.commandOk then 2 else 3)
    && wire[n].StartFrame? && (Taken(wire[n]) <==> o.startOk)
    && (o.startOk ==> wire[n + 1].SurfaceCommand? && (Taken(wire[n + 1]) <==> o.commandOk))
    && (o.startOk && o.commandOk ==> wire[n + 2].EndFrame? && (Taken(wire[n + 2]) <==> o.endOk))
  }

  ghost predicate BitsShape(before: seq<Pdu>, wire: seq<Pdu>, o: SendOutcome) {
    && before <= wire && |wire| == |before| + 1
    && wire[|before|].SurfaceBitsCommand? && (Taken(wire[|before|]) <==> o.commandOk)
  }

  ghost predicate AllDescribe(p: PeerState, wire: seq<Pdu>, f: Frame, w: U32, h: U32) {
    forall i :: |p.wire| <= i < |wire| ==> Describes(wire[i], p, f, w, h)
  }

  /** What a frame adds to the wire, and what is reported for it. */
  ghost predicate SendsRightly(p: PeerState, wire: seq<Pdu>, answer: bool, f: Frame, w: U32, h: U32, o: SendOutcome) {
    && AllDescribe(p, wire, f, w, h)
    && (answer <==> AllTaken(p.wire, wire))
    && if !HasPicture(EffectiveMode(p), f) then wire == p.wire
       else if EffectiveMode(p) == SurfaceBits then BitsShape(p.wire, wire, o)
       else GfxShape(p.wire, wire, o)
  }

  lemma GfxSendShape(p: PeerState, codec: CodecId, len: U32, f: Frame, w: U32, h: U32, o: SendOutcome)
    ensures var wire := SendGfx(p, codec, len, f, w, h, o).wire;
            GfxShape(p.wire, wire, o) && (AllTaken(p.wire, wire) <==> o.startOk && o.commandOk && o.endOk)
  {
    var n, wire := |p.wire|, SendGfx(p, codec, len, f, w, h, o).wire;
    assert Taken(wire[n]) == o.startOk;
    if o.startOk {
      assert Taken(wire[n + 1]) == o.commandOk;
      if o.commandOk {
        assert Taken(wire[n + 2]) == o.endOk;
      }
    }
  }

  lemma GfxSendDescribes(p: PeerState, len: U32, f: Frame, w: U32, h: U32, o: SendOutcome)
    requires EffectiveMode(p) != SurfaceBits && AnnouncesBytes(len, EffectiveMode(p), f)
    ensures AllDescribe(p, SendGfx(p, TagOf(EffectiveMode(p), p.nscodec), len, f, w, h, o).wire, f, w, h)
  {
  }

  lemma BitsSendRightly(p: PeerState, f: Frame, w: U32, h: U32, o: SendOutcome)
    requires EffectiveMode(p) == SurfaceBits
    ensures SendsRightly(p, SendFrame(p, f, w, h, o).wire, SendAnswer(p, f, o), f, w, h, o)
  {
    var wire := SendFrame(p, f, w, h, o).wire;
    assert wire[|p.wire|].SurfaceBitsCommand? && Taken(wire[|p.wire|]) == o.commandOk;
  }

  lemma Avc444SendsRightly(p: PeerState, f: Frame, w: U32, h: U32, o: SendOutcome)
    requires EffectiveMode(p) == Avc444 || EffectiveMode(p) == Avc444v2
    ensures SendsRightly(p, SendFrame(p, f, w, h, o).wire, SendAnswer(p, f, o), f, w, h, o)
  {
    var len := ToU32(f.outLen + f.auxLen);
    GfxSendShape(p, TagOf(EffectiveMode(p), p.nscodec), len, f, w, h, o);
    GfxSendDescribes(p, len, f, w, h, o);
  }

  lemma SingleStreamSendsRightly(p: PeerState, f: Frame, w: U32, h: U32, o: SendOutcome)
    requires EffectiveMode(p) == Avc420 || EffectiveMode(p) == Progressive
    ensures SendsRightly(p, SendFrame(p, f, w, h, o).wire, SendAnswer(p, f, o), f, w, h, o)
  {
    GfxSendShape(p, TagOf(EffectiveMode(p), p.nscodec), f.outLen, f, w, h, o);
    GfxSendDescribes(p, f.outLen, f, w, h, o);
  }

  /** Every send path: which PDUs go out, in which order, with which contents, and what is reported. */
  lemma FrameContents(p: PeerState, f: Frame, w: U32, h: U32, o: SendOutcome)
    ensures SendsRightly(p, SendFrame(p, f, w, h, o).wire, SendAnswer(p, f, o), f, w, h, o)
  {
    match EffectiveMode(p)
    case SurfaceBits => BitsSendRightly(p, f, w, h, o);
    case Avc420 => SingleStreamSendsRightly(p, f, w, h, o);
    case Avc444 => Avc444SendsRightly(p, f, w, h, o);
    case Avc444v2 => Avc444SendsRightly(p, f, w, h, o);
    case Progressive => SingleStreamSendsRightly(p, f, w, h, o);
  }

  // --- Surfaces ---

  /** A surface set-up, as far as it was accepted: a reset that may fail, a creation, and a mapping only of a
      surface that was created; the peer takes the surface id only after both. */
  lemma SurfaceContents(p: PeerState, w: U32, h: U32, o: SurfaceOutcome)
    ensures var q, n := CreateSurfaceOn(p, w, h, o), |p.wire|;
            && p.wire <= q.wire && |q.wire| == n + (if o.createOk then 3 else 2)
            && q.wire[n] == ResetGraphics(w, h, o.resetOk) && q.wire[n + 1] == CreateSurface(1, w, h, o.createOk)
            && (o.createOk ==> q.wire[n + 2] == MapSurface(1, o.mapOk))
            && q.gfx.surfaceId == (if o.createOk && o.mapOk then 1 else p.gfx.surfaceId)
  {
  }

  /** A PDU of a surface set-up at this size. */
  predicate SetsUpSurface(pdu: Pdu, w: U32, h: U32) {
    match pdu
    case ResetGraphics(width, height, _) => width == w && height == h
    case CreateSurface(id, width, height, _) => id == 1 && width == w && height == h
    case MapSurface(id, _) => id == 1
    case _ => false
  }

  /** A new size reaches the wire only of a ready channel, and there as a surface set-up. */
  lemma SizeContents(p: PeerState, w: U32, h: U32, o: SurfaceOutcome)
    requires PeerInv(p)
    ensures var q := UpdateSize(p, w, h, o);
            && q.width == w && q.height == h && p.wire <= q.wire
            && (forall i :: |p.wire| <= i < |q.wire| ==> SetsUpSurface(q.wire[i], w, h))
            && (|q.wire| > |p.wire| <==> p.gfx.ready)
  {
    SurfaceContents(p.(width := w, height := h), w, h, o);
  }

  // --- Capabilities ---

  /** The i-th set is the first of maximal rank. */
  ghost predicate FirstOfMaximalRank(caps: seq<CapSet>, apple: bool, i: nat) {
    && i < |caps|
    && (forall j :: 0 <= j < |caps| ==> Rank(caps[j], apple) <= Rank(caps[i], apple))
    && (forall j :: 0 <= j < i ==> Rank(caps[j], apple) < Rank(caps[i], apple))
  }

  /** A confirmation of these capabilities: of the first set of maximal rank, which offers the mode. */
  ghost predicate Confirms(pdu: Pdu, caps: seq<CapSet>, os: nat, mode: SendMode, ok: bool) {
    && pdu.CapsConfirm? && pdu.ok == ok
    && FirstOfMaximalRank(caps, IsApple(os), pdu.index) && Supports(caps[pdu.index], mode)
  }

  /** An advertisement is answered by one confirmation, after which there is at most a surface set-up at the
      peer's size. */
  lemma AdvertisementContents(p: PeerState, caps: seq<CapSet>, os: nat, confirmOk: bool, o: SurfaceOutcome)
    requires PeerInv(p)
    ensures var q, n := CapsAdvertise(p, caps, os, confirmOk, o), |p.wire|;
            && q.width == p.width && q.height == p.height && p.wire <= q.wire && n < |q.wire|
            && q.wire[n] == CapsConfirm(Best(caps, IsApple(os)).1, confirmOk)
            && forall i :: n < i < |q.wire| ==> SetsUpSurface(q.wire[i], p.width, p.height)
  {
    var r := Emit(p.(mode := Negotiated(caps, os)), [CapsConfirm(Best(caps, IsApple(os)).1, confirmOk)]);
    SurfaceContents(r, r.width, r.height, o);
  }

  /** An advertisement is answered first of all by confirming, from the sets advertised, the first one of
      maximal rank; it offers the mode in which the peer then sends, if the channel is ready. */
  lemma AdvertisementIsConfirmed(p: PeerState, caps: seq<CapSet>, os: nat, confirmOk: bool, o: SurfaceOutcome)
    requires PeerInv(p) && p.gfx.context && caps != []
    ensures var q := CapsAdvertise(p, caps, os, confirmOk, o);
            && |p.wire| < |q.wire| && p.wire <= q.wire
            && Confirms(q.wire[|p.wire|], caps, os, Negotiated(caps, os), confirmOk)
            && (q.gfx.ready ==> Confirms(q.wire[|p.wire|], caps, os, EffectiveMode(q), confirmOk))
  {
    BestIsFirstMaximum(caps, IsApple(os));
    ConfirmedSetSupportsMode(caps, os);
    AdvertisementContents(p, caps, os, confirmOk, o);
  }

  // --- Connection and channels ---

  /** After connecting there is a channel manager exactly if the client wants graphics and both calls
      succeed, NSCodec is as settled, and the depth is 16 or 24 where that was negotiated and 32 otherwise. */
  lemma ConnectedExactly(p: PeerState, gfx: bool, nscodec: bool, depth: nat, o: VcmOutcome)
    requires !p.vcm
    ensures var q := PostConnect(p, gfx, nscodec, depth, o);
            && (q.vcm <==> gfx && o.serverOk && o.managerOk) && q.nscodec == nscodec
            && q.bpp in {16, 24, 32} && (q.bpp == 16 <==> depth == 16) && (q.bpp == 24 <==> depth == 24)
            && q == p.(vcm := q.vcm, nscodec := nscodec, bpp := q.bpp)
  {
  }

  lemma OpeningExactly(p: PeerState, poll: VcmPoll)
    requires PeerInv(p) && p.vcm && !p.gfx.open && poll.checkOk && poll.drdynvc == Ready
    ensures var q := CheckVcm(p, poll).0;
            && q.vcm && (q.gfx.open <==> poll.gfx.Up()) && (q.gfx.context <==> poll.gfx.Up()) && !q.gfx.ready
            && (q.side.disp <==> p.side.disp || poll.side.disp.Up())
            && (q.side.cliprdr <==> p.side.cliprdr || (poll.side.clipboard && poll.side.cliprdr.Up()))
            && (q.side.sound <==> p.side.sound || poll.side.sound.Up())
  {
  }

  /** A poll opens channels only when the handshake is done and they are not open yet, and then each one
      whose calls succeed; a failed poll or handshake before that closes everything; otherwise nothing changes. */
  lemma PollOpensExactly(p: PeerState, poll: VcmPoll)
    requires PeerInv(p)
    ensures var q := CheckVcm(p, poll).0;
            if !p.vcm || p.gfx.open || (poll.checkOk && poll.drdynvc == Handshaking) then q == p
            else if !poll.checkOk || poll.drdynvc == Failed then ShutDown(q)
            else
              && q.vcm && (q.gfx.open <==> poll.gfx.Up()) && (q.gfx.context <==> poll.gfx.Up()) && !q.gfx.ready
              && (q.side.disp <==> p.side.disp || poll.side.disp.Up())
              && (q.side.cliprdr <==> p.side.cliprdr || (poll.side.clipboard && poll.side.cliprdr.Up()))
              && (q.side.sound <==> p.side.sound || poll.side.sound.Up())
    ensures CheckVcm(p, poll).1 <==> !(p.vcm && p.gfx.open && !poll.checkOk)
  {
    if p.vcm && !p.gfx.open {
      if poll.checkOk && poll.drdynvc == Ready {
        OpeningExactly(p, poll);
      } else {
        CleanupKeeps(p);
      }
    }
  }
}
