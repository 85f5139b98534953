/** Whether the surface that frames are sent to is the one of the present size: a set-up that fails on a
    ready channel is not noticed (src/session/rdp_peer.c:1091-1102), and frames go on to surface 1. */
module SurfaceFit {
  import opened CapsNegotiation
  import opened EncoderSpec
  import opened Options
  import opened PeerInvariant
  import opened PeerSpec
  import opened SessionInvariants
  import opened SessionSpec
  import opened SessionTypes
  import opened Words

  /** A complete set-up at this size, with no reset after it. */
  ghost predicate SetUpAt(wire: seq<Pdu>, i: nat, w: U32, h: U32) {
    && i + 2 < |wire|
    && wire[i].ResetGraphics? && wire[i].width == w && wire[i].height == h
    && wire[i + 1] == CreateSurface(1, w, h, true) && wire[i + 2] == MapSurface(1, true)
    && forall j :: i < j < |wire| ==> !wire[j].ResetGraphics?
  }

  /** The last reset was for this size, and the surface was created and mapped after it. */
  ghost predicate Fits(wire: seq<Pdu>, w: U32, h: U32) {
    exists i :: SetUpAt(wire, i, w, h)
  }

  lemma SetUpFitsExactly(wire: seq<Pdu>, w: U32, h: U32, o: SurfaceOutcome)
    ensures Fits(wire + SurfacePdus(w, h, o), w, h) <==> o.createOk && o.mapOk
  {
    var all := wire + SurfacePdus(w, h, o);
    assert all[|wire|].ResetGraphics? && all[|wire| + 1] == CreateSurface(1, w, h, o.createOk);
    if o.createOk && o.mapOk {
      assert SetUpAt(all, |wire|, w, h);
    }
    if i: nat :| SetUpAt(all, i, w, h) {
      assert i == |wire|;
    }
  }

  /** PDUs that have no part in setting up a surface. */
  predicate IsTraffic(pdu: Pdu) {
    !pdu.ResetGraphics? && !pdu.CreateSurface? && !pdu.MapSurface?
  }

  lemma TrafficKeepsFit(wire: seq<Pdu>, more: seq<Pdu>, w: U32, h: U32)
    requires forall pdu :: pdu in more ==> IsTraffic(pdu)
    ensures Fits(wire + more, w, h) <==> Fits(wire, w, h)
  {
    var all := wire + more;
    forall j | |wire| <= j < |all|
      ensures IsTraffic(all[j])
    {
      assert all[j] in more;
    }
    if i: nat :| SetUpAt(wire, i, w, h) {
      assert SetUpAt(all, i, w, h);
    }
    if i: nat :| SetUpAt(all, i, w, h) {
      assert !IsTraffic(all[i + 2]);
      assert forall j :: 0 <= j < |wire| ==> wire[j] == all[j];
      assert SetUpAt(wire, i, w, h);
    }
  }

  lemma SendFrameAppends(p: PeerState, f: Frame, w: U32, h: U32, o: SendOutcome)
    ensures p.wire <= SendFrame(p, f, w, h, o).wire
  {
  }

  lemma SendFrameIsTraffic(p: PeerState, f: Frame, w: U32, h: U32, o: SendOutcome)
    ensures p.wire <= SendFrame(p, f, w, h, o).wire
    ensures forall pdu :: pdu in SendFrame(p, f, w, h, o).wire[|p.wire|..] ==> IsTraffic(pdu)
  {
    SendFrameAppends(p, f, w, h, o);
    var more := SendFrame(p, f, w, h, o).wire[|p.wire|..];
    forall pdu | pdu in more
      ensures IsTraffic(pdu)
    {
      var k :| 0 <= k < |more| && more[k] == pdu;
      FramesFollowReportedMode(p, f, w, h, o, |p.wire| + k);
    }
  }

  lemma SendFrameKeepsFit(p: PeerState, f: Frame, w: U32, h: U32, o: SendOutcome)
    ensures var q := SendFrame(p, f, w, h, o); Fits(q.wire, q.width, q.height) <==> Fits(p.wire, p.width, p.height)
  {
    var q := SendFrame(p, f, w, h, o);
    SendFrameFrame(p, f, w, h, o);
    SendFrameIsTraffic(p, f, w, h, o);
    TrafficKeepsFit(p.wire, q.wire[|p.wire|..], p.width, p.height);
  }

  /** After an advertisement a ready channel's surface fits as before, or, if this one made the channel
      ready, it fits. */
  lemma CapsAdvertiseFits(p: PeerState, caps: seq<CapSet>, os: nat, confirmOk: bool, o: SurfaceOutcome)
    requires PeerInv(p) && p.gfx.context
    ensures var q := CapsAdvertise(p, caps, os, confirmOk, o);
            q.gfx.ready ==> (Fits(q.wire, q.width, q.height) <==> !p.gfx.ready || Fits(p.wire, p.width, p.height))
  {
    var confirm := [CapsConfirm(Best(caps, IsApple(os)).1, confirmOk)];
    TrafficKeepsFit(p.wire, confirm, p.width, p.height);
    SetUpFitsExactly(p.wire + confirm, p.width, p.height, o);
  }

  // --- Runs ---

  /** The event sets up a surface for the client. */
  predicate SetsUp(s: Session, e: Event) {
    s.client.Some? &&
    var p := s.client.value;
    match e
    case ResizeRequested(w, h, _, _) => p.gfx.ready && SizeChanges(s, w, h)
    case Activated(w, h, _, _, _) => p.gfx.ready && (w != p.width || h != p.height) && SizeChanges(s, w, h)
    case CapsAdvertised(_, _, confirmOk, _) => confirmOk && !p.gfx.ready
    case _ => false
  }

  predicate Succeeds(o: SurfaceOutcome) {
    o.createOk && o.mapOk
  }

  /** Whether the last surface set-up of a run succeeded; `before` is the verdict on what came earlier. */
  ghost function LastSetUpOk(s: Session, events: seq<Event>, before: bool): (r: bool)
    requires Feasible(s, events)
    decreases |events|
  {
    if events == [] then before
    else
      var now := if SetsUp(s, events[0]) then Succeeds(events[0].surface) else before;
      LastSetUpOk(Step(s, events[0]), events[1..], now)
  }

  ghost predicate FitsAsTold(s: Session, ok: bool) {
    s.client.Some? && s.client.value.gfx.ready ==>
      (Fits(s.client.value.wire, s.client.value.width, s.client.value.height) <==> ok)
  }

  lemma ResizeToFits(s: Session, w: U32, h: U32, o: CodecInit, surface: SurfaceOutcome, before: bool)
    requires SessionInv(s) && s.client.Some? && FitsAsTold(s, before)
    ensures var changes := s.display.width != ToI32(w) || s.display.height != ToI32(h);
            FitsAsTold(ResizeTo(s, w, h, o, surface), if changes then Succeeds(surface) else before)
  {
    SetUpFitsExactly(s.client.value.wire, w, h, surface);
  }

  lemma ResizeFits(s: Session, e: Event, before: bool)
    requires e.ResizeRequested? && Enabled(s, e) && SessionInv(s) && FitsAsTold(s, before)
    ensures FitsAsTold(Step(s, e), if SetsUp(s, e) then Succeeds(e.surface) else before)
  {
    ResizeToFits(s, AlignUp16(e.width), AlignUp16(e.height), e.codec, e.surface, before);
  }

  lemma ActivateFits(s: Session, e: Event, before: bool)
    requires e.Activated? && Enabled(s, e) && SessionInv(s) && FitsAsTold(s, before)
    ensures FitsAsTold(Step(s, e), if SetsUp(s, e) then Succeeds(e.surface) else before)
  {
    var r := s.(client := Some(s.client.value.(activated := true, nscodec := e.nscodec)));
    assert SessionInv(r);
    ResizeToFits(r, AlignUp16(e.width), AlignUp16(e.height), e.codec, e.surface, before);
  }

  lemma FrameFits(s: Session, e: Event, before: bool)
    requires e.CaptureReady? && Enabled(s, e) && FitsAsTold(s, before)
    ensures FitsAsTold(Step(s, e), before)
  {
    if s.client.Some? {
      SendFrameKeepsFit(s.client.value, FrameOf(Encode(s.enc, e.encode).0), e.w, e.h, e.send);
      SendFrameFrame(s.client.value, FrameOf(Encode(s.enc, e.encode).0), e.w, e.h, e.send);
    }
  }

  lemma FirstIsReadyExactly(p: PeerState, caps: seq<CapSet>, os: nat, confirmOk: bool, o: SurfaceOutcome)
    requires PeerInv(p) && p.gfx.context
    ensures CapsAdvertise(p, caps, os, confirmOk, o).gfx.ready <==> p.gfx.ready || (confirmOk && Succeeds(o))
  {
  }

  lemma ChannelFits(s: Session, e: Event, before: bool)
    requires (e.CapsAdvertised? || e.VcmPolled?) && Enabled(s, e) && SessionInv(s) && FitsAsTold(s, before)
    ensures FitsAsTold(Step(s, e), if SetsUp(s, e) then Succeeds(e.surface) else before)
  {
    match e
    case CapsAdvertised(caps, os, ok, surface) =>
      CapsAdvertiseFits(s.client.value, caps, os, ok, surface);
      FirstIsReadyExactly(s.client.value, caps, os, ok, surface);
    case VcmPolled(poll) => CheckVcmKeeps(s.client.value, poll);
  }

  predicate SameSurface(p: PeerState, q: PeerState) {
    q.wire == p.wire && q.width == p.width && q.height == p.height && q.gfx.ready == p.gfx.ready
  }

  lemma IpcFits(s: Session, e: Event, before: bool)
    requires e.IpcReadable? && Enabled(s, e) && FitsAsTold(s, before)
    ensures FitsAsTold(Step(s, e), before)
  {
    var p := Step(s, e).client;
    assert p.Some? ==> !p.value.gfx.ready || p == s.client;
  }

  /** Whoever comes, goes, connects or starts a stream, no surface is set up. */
  lemma QuietFits(s: Session, e: Event, before: bool)
    requires e.PeerAccepted? || e.PostConnected? || e.ClientPolled? || e.Watched? || e.StartTried? || e.CaptureFailed?
    requires Enabled(s, e) && FitsAsTold(s, before)
    ensures FitsAsTold(Step(s, e), before)
  {
    var p := Step(s, e).client;
    assert p.Some? ==> !p.value.gfx.ready || (s.client.Some? && SameSurface(s.client.value, p.value));
  }

  lemma StepFits(s: Session, e: Event, before: bool)
    requires Enabled(s, e) && SessionInv(s) && FitsAsTold(s, before)
    ensures FitsAsTold(Step(s, e), if SetsUp(s, e) then Succeeds(e.surface) else before)
  {
    match e
    case ResizeRequested(_, _, _, _) => ResizeFits(s, e, before);
    case Activated(_, _, _, _, _) => ActivateFits(s, e, before);
    case CapsAdvertised(_, _, _, _) => ChannelFits(s, e, before);
    case VcmPolled(_) => ChannelFits(s, e, before);
    case CaptureReady(_, _, _, _, _, _, _, _) => FrameFits(s, e, before);
    case IpcReadable(_, _, _, _) => IpcFits(s, e, before);
    case _ => QuietFits(s, e, before);
  }

  lemma {:induction false} RunFits(s: Session, events: seq<Event>, before: bool)
    requires SessionInv(s) && Feasible(s, events) && FitsAsTold(s, before)
    ensures FitsAsTold(Run(s, events), LastSetUpOk(s, events, before))
    decreases |events|
  {
    if events != [] {
      StepKeepsInv(s, events[0]);
      StepFits(s, events[0], before);
      RunFits(Step(s, events[0]), events[1..], if SetsUp(s, events[0]) then Succeeds(events[0].surface) else before);
    }
  }

  /** After every run: a ready client's frames go to a surface that was created and mapped at the client's
      size by the last reset, exactly when the last set-up of the run succeeded. */
  lemma SurfaceFitsExactly(ipcMode: bool, w: I32, h: I32, events: seq<Event>)
    requires Feasible(Start(ipcMode, w, h), events)
    ensures var s := Run(Start(ipcMode, w, h), events);
            s.client.Some? && s.client.value.gfx.ready ==>
              (Fits(s.client.value.wire, s.client.value.width, s.client.value.height)
               <==> LastSetUpOk(Start(ipcMode, w, h), events, false))
  {
    StartInv(ipcMode, w, h);
    RunFits(Start(ipcMode, w, h), events, false);
  }
}
