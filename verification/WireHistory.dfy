/** Where each PDU on a client's wire comes from, over every run: which event put it there, and what it had
    to say. */
module WireHistory {
  import opened CapsNegotiation
  import opened EncoderSpec
  import opened Options
  import opened PacingFilter
  import opened PeerContents
  import opened PeerInvariant
  import opened PeerSpec
  import opened SessionInvariants
  import opened SessionSpec
  import opened SessionTheorems
  import opened SessionTypes
  import opened Words

  // --- One captured picture ---

  /** The capture belongs to a running stream and comes no earlier than the interval allows. */
  predicate Due(s: Session, e: Event)
    requires e.CaptureReady? && Enabled(s, e)
  {
    && s.client.Some? && s.clientActive && s.encoderInitialized
    && (e.now - s.pacing.lastMs) % 0x1_0000_0000_0000_0000 >= s.pacing.intervalMs
  }

  /** The picture is due, its encoding succeeds, and one of the two streams has bytes. */
  predicate Sends(s: Session, e: Event) {
    e.CaptureReady? && Enabled(s, e) && Due(s, e) &&
    var (r, ok) := Encode(s.enc, e.encode);
    ok && (r.output.outLen > 0 || r.output.auxLen > 0)
  }

  /** What an encoder holds for the peer. */
  function Held(e: EncoderState): (r: Frame) {
    Frame(e.output.outLen, e.output.auxLen, e.output.meta.rects, Producer(e.mode, e.picture.version))
  }

  lemma SentPicture(s: Session, e: Event)
    requires e.CaptureReady? && Enabled(s, e) && s.client.Some? && Sends(s, e)
    ensures var p, f, r := s.client.value, Held(Encode(s.enc, e.encode).0), Step(s, e);
            && r.client == Some(SendFrame(p, f, e.w, e.h, e.send))
            && r.pacing.lastMs == e.sent
            && r.pacing.intervalMs == Smooth(s.pacing.intervalMs, Target(e.encoded - e.now))
            && r.pacing.sends == s.pacing.sends
                 + [SendRecord(e.now, e.sent, s.pacing.intervalMs, r.pacing.intervalMs)]
  {
  }

  lemma EarlyPicture(s: Session, e: Event)
    requires e.CaptureReady? && Enabled(s, e) && !Due(s, e)
    ensures var r := Step(s, e); r.client == s.client && r.pacing == s.pacing.(clock := e.sent)
  {
    if s.clientActive && s.client.Some? && s.encoderInitialized {
      assert Elapsed(e.now, s.pacing.lastMs) < s.pacing.intervalMs;
    }
  }

  lemma UnsentPicture(s: Session, e: Event)
    requires e.CaptureReady? && Enabled(s, e) && !Sends(s, e)
    ensures var r := Step(s, e); r.client == s.client && r.pacing == s.pacing.(clock := e.sent)
  {
    if !Due(s, e) {
      EarlyPicture(s, e);
    }
  }

  /** A captured picture that is sent adds to the wire the PDUs that describe what the encoder made of it;
      any other leaves wire and pacing alone. */
  lemma PictureExactly(s: Session, e: Event)
    requires e.CaptureReady? && Enabled(s, e) && s.client.Some?
    ensures Step(s, e).client.Some?
    ensures var p, wire, f := s.client.value, Step(s, e).client.value.wire, Held(Encode(s.enc, e.encode).0);
            if Sends(s, e) then SendsRightly(p, wire, SendAnswer(p, f, e.send), f, e.w, e.h, e.send)
            else wire == p.wire
  {
    if Sends(s, e) {
      SentPicture(s, e);
      FrameContents(s.client.value, Held(Encode(s.enc, e.encode).0), e.w, e.h, e.send);
    } else {
      UnsentPicture(s, e);
    }
  }

  // --- What one step adds ---

  predicate IsFramePdu(pdu: Pdu) {
    pdu.StartFrame? || pdu.SurfaceCommand? || pdu.EndFrame? || pdu.SurfaceBitsCommand?
  }

  /** A PDU that an event may put on the wire. */
  ghost predicate Explains(s: Session, e: Event, pdu: Pdu)
    requires s.client.Some? && Enabled(s, e)
  {
    match pdu
    case CapsConfirm(_, ok) =>
      && e.CapsAdvertised? && ok == e.confirmOk
      && (e.caps != [] ==> Confirms(pdu, e.caps, e.os, Negotiated(e.caps, e.os), e.confirmOk))
    case DeleteSurface(_) => false
    case _ =>
      if IsFramePdu(pdu)
      then Sends(s, e) && Describes(pdu, s.client.value, Held(Encode(s.enc, e.encode).0), e.w, e.h)
      else
        && (e.CapsAdvertised? || e.ResizeRequested? || e.Activated?) && Step(s, e).client.Some?
        && SetsUpSurface(pdu, Step(s, e).client.value.width, Step(s, e).client.value.height)
  }

  /** A step either leaves a client that it found, with more on the wire and all of that explained, or it
      brings a new one, whose wire is empty. */
  ghost predicate Grows(s: Session, e: Event)
    requires Enabled(s, e)
  {
    Step(s, e).client.Some? ==>
      || Step(s, e).client.value.wire == []
      || (&& s.client.Some?
          && var before, wire := s.client.value.wire, Step(s, e).client.value.wire;
             before <= wire && forall i :: |before| <= i < |wire| ==> Explains(s, e, wire[i]))
  }

  lemma ConfirmationExplained(s: Session, e: Event)
    requires e.CapsAdvertised? && Enabled(s, e) && SessionInv(s)
    ensures var wire, n := Step(s, e).client.value.wire, |s.client.value.wire|;
            n < |wire| && Explains(s, e, wire[n])
  {
    AdvertisementContents(s.client.value, e.caps, e.os, e.confirmOk, e.surface);
    if e.caps != [] {
      AdvertisementIsConfirmed(s.client.value, e.caps, e.os, e.confirmOk, e.surface);
    }
  }

  lemma SetUpExplained(s: Session, e: Event, pdu: Pdu)
    requires e.CapsAdvertised? && Enabled(s, e)
    requires SetsUpSurface(pdu, Step(s, e).client.value.width, Step(s, e).client.value.height)
    ensures Explains(s, e, pdu)
  {
  }

  lemma AdvertisementGrows(s: Session, e: Event)
    requires e.CapsAdvertised? && Enabled(s, e) && SessionInv(s)
    ensures Grows(s, e)
  {
    var wire, n := Step(s, e).client.value.wire, |s.client.value.wire|;
    AdvertisementContents(s.client.value, e.caps, e.os, e.confirmOk, e.surface);
    ConfirmationExplained(s, e);
    forall i | n < i < |wire|
      ensures Explains(s, e, wire[i])
    {
      SetUpExplained(s, e, wire[i]);
    }
  }

  /** The wire has grown by nothing but a surface set-up at the client's size. */
  ghost predicate SetUpAdded(before: PeerState, after: PeerState) {
    && before.wire <= after.wire
    && forall i :: |before.wire| <= i < |after.wire| ==> SetsUpSurface(after.wire[i], after.width, after.height)
  }

  lemma ResizeToAdds(s: Session, w: U32, h: U32, o: CodecInit, surface: SurfaceOutcome)
    requires s.client.Some? && PeerInv(s.client.value)
    ensures var r := ResizeTo(s, w, h, o, surface); r.client.Some? && SetUpAdded(s.client.value, r.client.value)
  {
    SizeContents(s.client.value, w, h, surface);
  }

  lemma SizeAdds(s: Session, e: Event)
    requires (e.ResizeRequested? || e.Activated?) && Enabled(s, e) && SessionInv(s)
    ensures Step(s, e).client.Some? && SetUpAdded(s.client.value, Step(s, e).client.value)
  {
    match e
    case ResizeRequested(w, h, o, surface) => ResizeToAdds(s, AlignUp16(w), AlignUp16(h), o, surface);
    case Activated(w, h, nscodec, o, surface) =>
      var r := s.(client := Some(s.client.value.(activated := true, nscodec := nscodec)));
      ResizeToAdds(r, AlignUp16(w), AlignUp16(h), o, surface);
  }

  lemma SizeGrows(s: Session, e: Event)
    requires (e.ResizeRequested? || e.Activated?) && Enabled(s, e) && SessionInv(s)
    ensures Grows(s, e)
  {
    SizeAdds(s, e);
  }

  lemma PictureStaysPut(before: seq<Pdu>, wire: seq<Pdu>, o: SendOutcome)
    ensures GfxShape(before, wire, o) || BitsShape(before, wire, o) || wire == before ==> before <= wire
  {
  }

  lemma PictureGrows(s: Session, e: Event)
    requires e.CaptureReady? && Enabled(s, e)
    ensures Grows(s, e)
  {
    if s.client.Some? {
      PictureExactly(s, e);
      PictureStaysPut(s.client.value.wire, Step(s, e).client.value.wire, e.send);
    } else {
      UnsentPicture(s, e);
    }
  }

  lemma PollGrows(s: Session, e: Event)
    requires e.VcmPolled? && Enabled(s, e) && SessionInv(s)
    ensures Grows(s, e)
  {
    CheckVcmKeeps(s.client.value, e.poll);
  }

  lemma IpcGrows(s: Session, e: Event)
    requires e.IpcReadable? && Enabled(s, e)
    ensures Grows(s, e)
  {
  }

  lemma QuietGrows(s: Session, e: Event)
    requires e.PeerAccepted? || e.PostConnected? || e.ClientPolled? || e.Watched? || e.StartTried? || e.CaptureFailed?
    requires Enabled(s, e)
    ensures Grows(s, e)
  {
  }

  lemma StepGrows(s: Session, e: Event)
    requires Enabled(s, e) && SessionInv(s)
    ensures Grows(s, e)
  {
    match e
    case CaptureReady(_, _, _, _, _, _, _, _) => PictureGrows(s, e);
    case CapsAdvertised(_, _, _, _) => AdvertisementGrows(s, e);
    case ResizeRequested(_, _, _, _) => SizeGrows(s, e);
    case Activated(_, _, _, _, _) => SizeGrows(s, e);
    case VcmPolled(_) => PollGrows(s, e);
    case IpcReadable(_, _, _, _) => IpcGrows(s, e);
    case _ => QuietGrows(s, e);
  }

  // --- Whole runs ---

  /** The last event of a run, apart. */
  lemma {:induction false} RunSplit(s: Session, events: seq<Event>)
    requires Feasible(s, events) && events != []
    ensures var n := |events| - 1;
            && Feasible(s, events[..n]) && Enabled(Run(s, events[..n]), events[n])
            && Run(s, events) == Step(Run(s, events[..n]), events[n])
    decreases |events|
  {
    var n := |events| - 1;
    if n > 0 {
      RunSplit(Step(s, events[0]), events[1..]);
      assert events[1..][..n - 1] == events[..n][1..];
    }
  }

  /** The k-th event of the run explains the PDU. */
  ghost predicate ExplainedBy(start: Session, events: seq<Event>, k: nat, pdu: Pdu) {
    && k < |events| && Feasible(start, events[..k])
    && var s := Run(start, events[..k]);
       s.client.Some? && Enabled(s, events[k]) && Explains(s, events[k], pdu)
  }

  lemma ExplainedLonger(start: Session, events: seq<Event>, n: nat, k: nat, pdu: Pdu)
    requires n <= |events| && ExplainedBy(start, events[..n], k, pdu)
    ensures ExplainedBy(start, events, k, pdu)
  {
    assert events[..n][..k] == events[..k];
  }

  lemma LastExplains(start: Session, events: seq<Event>, n: nat, i: nat)
    requires n < |events| && Feasible(start, events[..n])
    requires var s := Run(start, events[..n]);
             && Enabled(s, events[n]) && Grows(s, events[n])
             && Step(s, events[n]).client.Some? && i < |Step(s, events[n]).client.value.wire|
             && (s.client.Some? ==> |s.client.value.wire| <= i)
    ensures ExplainedBy(start, events, n, Step(Run(start, events[..n]), events[n]).client.value.wire[i])
  {
  }

  lemma KeptBefore(s: Session, e: Event, i: nat)
    requires Enabled(s, e) && Grows(s, e) && Step(s, e).client.Some? && i < |Step(s, e).client.value.wire|
    requires s.client.Some? && i < |s.client.value.wire|
    ensures Step(s, e).client.value.wire[i] == s.client.value.wire[i]
  {
  }

  /** Every PDU on the present client's wire was put there by an event of the run, and that event explains it:
      a frame by the picture captured, with its size, its producer and its lengths; a confirmation by the
      advertisement, of which it names the first set of maximal rank. */
  lemma {:induction false} EveryPduExplained(start: Session, events: seq<Event>, i: nat)
    requires SessionInv(start) && start.client.None? && Feasible(start, events)
    requires var s := Run(start, events); s.client.Some? && i < |s.client.value.wire|
    ensures exists k :: ExplainedBy(start, events, k, Run(start, events).client.value.wire[i])
    decreases |events|
  {
    assert events != [];
    var n := |events| - 1;
    RunSplit(start, events);
    var s := Run(start, events[..n]);
    RunKeepsInv(start, events[..n]);
    StepGrows(s, events[n]);
    if s.client.Some? && i < |s.client.value.wire| {
      KeptBefore(s, events[n], i);
      EveryPduExplained(start, events[..n], i);
      var k :| ExplainedBy(start, events[..n], k, s.client.value.wire[i]);
      ExplainedLonger(start, events, n, k, s.client.value.wire[i]);
    } else {
      LastExplains(start, events, n, i);
    }
  }

  /** From the start of the process. */
  lemma WireIsExplained(ipcMode: bool, w: I32, h: I32, events: seq<Event>, i: nat)
    requires Feasible(Start(ipcMode, w, h), events)
    requires var s := Run(Start(ipcMode, w, h), events); s.client.Some? && i < |s.client.value.wire|
    ensures exists k :: ExplainedBy(Start(ipcMode, w, h), events, k,
                                    Run(Start(ipcMode, w, h), events).client.value.wire[i])
  {
    StartInv(ipcMode, w, h);
    EveryPduExplained(Start(ipcMode, w, h), events, i);
  }
}
