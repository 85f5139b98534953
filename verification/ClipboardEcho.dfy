/** The flag that keeps text set by the RDP client from being announced back to it
    (src/session/clipboard.c:39-53, 84-174, 275-298). */
module ClipboardEcho {
  import opened ClipboardTransfer
  import opened Options
  import opened Words

  /** The clipboard's fields and the texts that the RDP side was notified of. */
  datatype EchoState = EchoState(
    device: bool, source: bool, pending: Option<seq<Byte>>, text: seq<Byte>, settingFromRdp: bool,
    notified: seq<seq<Byte>>)

  const INITIAL := EchoState(true, false, None, [], false, [])

  /** What happens to the clipboard. `own` says whether a selection is the one this process set itself;
      the code cannot tell. */
  datatype Event =
    | Set(text: seq<Byte>, mallocOk: bool)
    | Selected(own: bool, hasText: bool, pipeOk: bool, content: seq<Byte>)
    | Cleared
    | Cancelled(current: bool)
    | DeviceFinished

  function SetText(c: EchoState, text: seq<Byte>, mallocOk: bool): (r: EchoState) {
    if !c.device then c
    else if !mallocOk then c.(source := false, pending := None)
    else c.(source := true, pending := Some(text), settingFromRdp := true)
  }

  /** The end of `read_offer_text`, once its loop has produced `content`. */
  function TextRead(c: EchoState, content: seq<Byte>): (r: EchoState) {
    var notified := if content != [] && !c.settingFromRdp then c.notified + [content] else c.notified;
    c.(text := if content != [] then content else c.text, notified := notified, settingFromRdp := false)
  }

  function Step(c: EchoState, e: Event): (r: EchoState) {
    match e
    case Set(text, mallocOk) => SetText(c, text, mallocOk)
    case Selected(_, hasText, pipeOk, content) => if hasText && pipeOk then TextRead(c, content) else c
    case Cleared => c
    case Cancelled(current) =>
      c.(source := if current then false else c.source, pending := None, settingFromRdp := false)
    case DeviceFinished => c.(device := false)
  }

  function Run(events: seq<Event>): (r: EchoState) {
    if events == [] then INITIAL else Step(Run(events[..|events| - 1]), events[|events| - 1])
  }

  // --- The same, told from the history alone ---

  predicate Reads(e: Event) {
    e.Selected? && e.hasText && e.pipeOk
  }

  predicate Disarms(e: Event) {
    Reads(e) || e.Cancelled?
  }

  ghost predicate Alive(events: seq<Event>) {
    DeviceFinished !in events
  }

  /** The i-th event really set the selection. */
  ghost predicate SetsAt(events: seq<Event>, i: nat)
    requires i < |events|
  {
    events[i].Set? && events[i].mallocOk && Alive(events[..i])
  }

  /** Some text was set, and no selection has been read nor the source cancelled since. */
  ghost predicate Armed(events: seq<Event>) {
    exists i :: 0 <= i < |events| && SetsAt(events, i) && forall j :: i < j < |events| ==> !Disarms(events[j])
  }

  /** The non-empty texts read while nothing set by this process was outstanding. */
  ghost function Announced(events: seq<Event>): (r: seq<seq<Byte>>) {
    if events == [] then []
    else
      var before, e := events[..|events| - 1], events[|events| - 1];
      Announced(before) + if Reads(e) && e.content != [] && !Armed(before) then [e.content] else []
  }

  lemma ArmedSnoc(before: seq<Event>, e: Event)
    ensures Armed(before + [e]) <==>
            (e.Set? && e.mallocOk && Alive(before)) || (Armed(before) && !Disarms(e))
  {
    var n, events := |before|, before + [e];
    assert events[..n] == before;
    assert SetsAt(events, n) <==> e.Set? && e.mallocOk && Alive(before);
    forall i | 0 <= i < n
      ensures events[..i] == before[..i] && (SetsAt(events, i) <==> SetsAt(before, i))
    {
    }
    if Armed(before) && !Disarms(e) {
      var i :| 0 <= i < n && SetsAt(before, i) && forall j :: i < j < n ==> !Disarms(before[j]);
      assert SetsAt(events, i) && forall j :: i < j < |events| ==> !Disarms(events[j]);
    }
    if Armed(events) {
      var i :| 0 <= i < |events| && SetsAt(events, i) && forall j :: i < j < |events| ==> !Disarms(events[j]);
      if i < n {
        assert SetsAt(before, i) && !Disarms(events[n]);
        assert forall j :: i < j < n ==> !Disarms(before[j]) by {
          assert forall j :: 0 <= j < n ==> events[j] == before[j];
        }
      }
    }
  }

  /** Over every run: the flag is up exactly when a set text is outstanding, and the RDP side is told of
      exactly the non-empty texts read while none is. */
  lemma {:induction false} NotifiedExactly(events: seq<Event>)
    ensures Run(events).device <==> Alive(events)
    ensures Run(events).settingFromRdp <==> Armed(events)
    ensures Run(events).notified == Announced(events)
  {
    if events != [] {
      var before, e := events[..|events| - 1], events[|events| - 1];
      NotifiedExactly(before);
      assert events == before + [e];
      ArmedSnoc(before, e);
    }
  }

  // --- The pending text ---

  /** The event takes away whatever text was pending: a cancellation, or an attempt to set another one. */
  ghost predicate DropsAt(events: seq<Event>, i: nat)
    requires i < |events|
  {
    events[i].Cancelled? || (events[i].Set? && Alive(events[..i]))
  }

  /** The i-th event set the text and nothing after it took it away. */
  ghost predicate PendsSince(events: seq<Event>, text: seq<Byte>, i: int) {
    0 <= i < |events| && SetsAt(events, i) && events[i].text == text
    && forall j :: i < j < |events| ==> !DropsAt(events, j)
  }

  /** This text was the last one really set, and it has not been taken away since. */
  ghost predicate Pends(events: seq<Event>, text: seq<Byte>) {
    exists i :: PendsSince(events, text, i)
  }

  lemma SameBefore(before: seq<Event>, e: Event, i: nat)
    requires i < |before|
    ensures SetsAt(before + [e], i) <==> SetsAt(before, i)
    ensures DropsAt(before + [e], i) <==> DropsAt(before, i)
  {
    assert (before + [e])[..i] == before[..i];
  }

  lemma PendsSinceSnoc(before: seq<Event>, e: Event, text: seq<Byte>, i: int)
    requires i < |before|
    ensures PendsSince(before + [e], text, i) <==>
            PendsSince(before, text, i) && !(e.Cancelled? || (e.Set? && Alive(before)))
  {
    var events := before + [e];
    assert events[..|before|] == before;
    forall j | 0 <= j < |before|
      ensures (SetsAt(events, j) <==> SetsAt(before, j)) && (DropsAt(events, j) <==> DropsAt(before, j))
    {
      SameBefore(before, e, j);
    }
    assert DropsAt(events, |before|) <==> e.Cancelled? || (e.Set? && Alive(before));
  }

  lemma PendsSnoc(before: seq<Event>, e: Event, text: seq<Byte>)
    ensures Pends(before + [e], text) <==>
            || (e.Set? && e.mallocOk && e.text == text && Alive(before))
            || (Pends(before, text) && !(e.Cancelled? || (e.Set? && Alive(before))))
  {
    var n, events := |before|, before + [e];
    assert events[..n] == before;
    assert PendsSince(events, text, n) <==> e.Set? && e.mallocOk && e.text == text && Alive(before);
    forall i | i < n
      ensures PendsSince(events, text, i) <==>
              PendsSince(before, text, i) && !(e.Cancelled? || (e.Set? && Alive(before)))
    {
      PendsSinceSnoc(before, e, text, i);
    }
  }

  /** What the clipboard has pending for the compositor, read off the history. */
  lemma {:induction false} PendingExactly(events: seq<Event>, text: seq<Byte>)
    ensures Run(events).pending == Some(text) <==> Pends(events, text)
  {
    if events != [] {
      var before, e := events[..|events| - 1], events[|events| - 1];
      assert events == before + [e];
      PendingExactly(before, text);
      NotifiedExactly(before);
      PendsSnoc(before, e, text);
    }
  }

  /** A non-empty text is read at this point of the history. */
  predicate ReadsText(events: seq<Event>, n: int) {
    0 <= n < |events| && Reads(events[n]) && events[n].content != []
  }

  /** The n-th event reads a non-empty text, and none is read after it. */
  ghost predicate LastRead(events: seq<Event>, n: int) {
    ReadsText(events, n) && forall j :: n < j < |events| ==> !ReadsText(events, j)
  }

  lemma LastReadSnoc(before: seq<Event>, e: Event, n: int)
    requires LastRead(before + [e], n)
    ensures if Reads(e) && e.content != [] then n == |before| else LastRead(before, n)
  {
    var events := before + [e];
    assert forall j :: 0 <= j < |before| ==> (ReadsText(events, j) <==> ReadsText(before, j));
    assert ReadsText(events, |before|) <==> Reads(e) && e.content != [];
  }

  /** The text that the clipboard holds is the last non-empty one that was read. */
  lemma {:induction false} HeldTextExactly(events: seq<Event>)
    ensures forall n :: LastRead(events, n) ==> Run(events).text == events[n].content
    ensures (forall n :: !ReadsText(events, n)) ==> Run(events).text == []
  {
    if events != [] {
      var before, e := events[..|events| - 1], events[|events| - 1];
      assert events == before + [e];
      HeldTextExactly(before);
      forall n | LastRead(events, n)
        ensures Run(events).text == events[n].content
      {
        LastReadSnoc(before, e, n);
      }
      if forall n :: !ReadsText(events, n) {
        assert forall n :: 0 <= n < |before| ==> (ReadsText(before, n) <==> ReadsText(events, n));
        assert !ReadsText(events, |before|);
      }
    }
  }

  // --- How often a text is held back ---

  ghost function SetCount(events: seq<Event>): (r: nat) {
    if events == [] then 0
    else SetCount(events[..|events| - 1]) + if SetsAt(events, |events| - 1) then 1 else 0
  }

  /** Non-empty texts that were read but not announced. */
  ghost function HeldBack(events: seq<Event>): (r: nat) {
    if events == [] then 0
    else
      var before, e := events[..|events| - 1], events[|events| - 1];
      HeldBack(before) + if Reads(e) && e.content != [] && Armed(before) then 1 else 0
  }

  /** Every text held back is paid for by a set of its own. */
  lemma {:induction false} HeldBackBounded(events: seq<Event>)
    ensures HeldBack(events) + (if Armed(events) then 1 else 0) <= SetCount(events)
  {
    if events != [] {
      var before, e := events[..|events| - 1], events[|events| - 1];
      assert events == before + [e];
      HeldBackBounded(before);
      ArmedSnoc(before, e);
    }
  }

  // --- Announced and foreign texts ---

  /** Where the RDP side is told of a text. */
  ghost function AnnouncedAt(events: seq<Event>): (r: set<int>) {
    set n | 0 <= n < |events| && ReadsText(events, n) && !Armed(events[..n])
  }

  /** Where somebody else's text is read. */
  function ForeignAt(events: seq<Event>): (r: set<int>) {
    set n | 0 <= n < |events| && ReadsText(events, n) && !events[n].own
  }

  /** The texts read at some of the points, in the order of the history. */
  ghost function TextsAt(events: seq<Event>, at: set<int>): (r: seq<seq<Byte>>) {
    if events == [] then []
    else
      var n := |events| - 1;
      TextsAt(events[..n], at) + if n in at && events[n].Selected? then [events[n].content] else []
  }

  lemma {:induction false} TextsAtAgree(events: seq<Event>, at: set<int>, at': set<int>)
    requires forall n :: 0 <= n < |events| ==> (n in at <==> n in at')
    ensures TextsAt(events, at) == TextsAt(events, at')
  {
    if events != [] {
      TextsAtAgree(events[..|events| - 1], at, at');
    }
  }

  /** The notifications are the texts at the points of `AnnouncedAt`. */
  lemma {:induction false} NotifiedAt(events: seq<Event>)
    ensures Run(events).notified == TextsAt(events, AnnouncedAt(events))
  {
    NotifiedExactly(events);
    if events != [] {
      var n := |events| - 1;
      var before := events[..n];
      NotifiedAt(before);
      NotifiedExactly(before);
      forall k | 0 <= k < n
        ensures k in AnnouncedAt(before) <==> k in AnnouncedAt(events)
      {
        assert before[..k] == events[..k];
      }
      TextsAtAgree(before, AnnouncedAt(before), AnnouncedAt(events));
    }
  }

  /** RDP is told exactly where a foreign text is read, if and only if the flag is up at exactly the reads
      of own texts: nothing overtakes a set, and no own selection is reported without one. */
  lemma AnnouncesForeignExactly(events: seq<Event>)
    ensures AnnouncedAt(events) == ForeignAt(events) <==>
            forall n :: ReadsText(events, n) ==> (events[n].own <==> Armed(events[..n]))
  {
    if AnnouncedAt(events) == ForeignAt(events) {
      forall n | ReadsText(events, n)
        ensures events[n].own <==> Armed(events[..n])
      {
        assert n in AnnouncedAt(events) <==> n in ForeignAt(events);
      }
    }
  }

  /** The compositor reports each selection that this process sets before anything else happens. */
  ghost predicate Orderly(events: seq<Event>) {
    && (forall i :: 0 <= i < |events| - 1 && SetsAt(events, i) ==>
          events[i + 1].Selected? && events[i + 1].own && Reads(events[i + 1]))
    && (forall i :: 0 <= i < |events| && events[i].Selected? && events[i].own ==> i > 0 && SetsAt(events, i - 1))
  }

  lemma OrderlyPrefix(events: seq<Event>, n: nat)
    requires Orderly(events) && n <= |events|
    ensures Orderly(events[..n])
  {
    var before := events[..n];
    forall i | 0 <= i < n
      ensures before[..i] == events[..i] && (SetsAt(before, i) <==> SetsAt(events, i))
    {
    }
  }

  /** In an orderly history a text is outstanding exactly right after it was set. */
  lemma {:induction false} OrderlyArmed(events: seq<Event>)
    requires Orderly(events)
    ensures Armed(events) <==> events != [] && SetsAt(events, |events| - 1)
  {
    if events != [] {
      var before, e := events[..|events| - 1], events[|events| - 1];
      assert events == before + [e];
      OrderlyPrefix(events, |events| - 1);
      OrderlyArmed(before);
      ArmedSnoc(before, e);
      if Armed(before) {
        var n := |before|;
        assert events[..n - 1] == before[..n - 1];
        assert SetsAt(events, n - 1);
        assert Disarms(events[n - 1 + 1]);
      }
    }
  }

  /** In an orderly history RDP hears of exactly the foreign texts, each once and in order. */
  lemma OrderlyAnnouncesForeign(events: seq<Event>)
    requires Orderly(events)
    ensures AnnouncedAt(events) == ForeignAt(events)
    ensures Run(events).notified == TextsAt(events, ForeignAt(events))
  {
    forall n | ReadsText(events, n)
      ensures events[n].own <==> Armed(events[..n])
    {
      OrderlyPrefix(events, n);
      OrderlyArmed(events[..n]);
      if n > 0 {
        assert events[..n][..n - 1] == events[..n - 1];
        assert SetsAt(events[..n], n - 1) <==> SetsAt(events, n - 1);
        if SetsAt(events, n - 1) {
          assert events[n - 1 + 1].own;
        }
      }
    }
    AnnouncesForeignExactly(events);
    NotifiedAt(events);
  }

  /** When a foreign selection overtakes the own one, the foreign text is held back and the own text is
      announced to the client that set it. */
  lemma OvertakenSelectionEchoes(own: seq<Byte>, foreign: seq<Byte>)
    requires own != [] && foreign != []
    ensures Run([Set(own, true), Selected(false, true, true, foreign), Selected(true, true, true, own)]).notified
            == [own]
  {
    var events := [Set(own, true), Selected(false, true, true, foreign), Selected(true, true, true, own)];
    assert events[..2][..1][..0] == [];
    assert events[..2][..1] == [events[0]];
    assert Run(events[..2][..1]) == Step(INITIAL, events[0]);
  }

  // --- The C functions ---

  datatype Offer = Offer(hasText: bool, pipeOk: bool, stream: seq<Byte>, readScript: seq<Answer>, reallocs: seq<bool>)

  class Clipboard {
    var device: bool
    var source: bool
    var pending: Option<seq<Byte>>
    var text: seq<Byte>
    var settingFromRdp: bool
    ghost var notified: seq<seq<Byte>>

    ghost function State(): (r: EchoState)
      reads this
    {
      EchoState(device, source, pending, text, settingFromRdp, notified)
    }

    constructor ()
      ensures State() == INITIAL
    {
      device, source, pending, text, settingFromRdp, notified := true, false, None, [], false, [];
    }

    /** `clipboard_set_text`. */
    method SetText(text: seq<Byte>, mallocOk: bool)
      modifies this
      ensures State() == Step(old(State()), Set(text, mallocOk))
    {
      if !device {
        return;
      }
      if source {
        source := false;
      }
      pending := None;
      if !mallocOk {
        return;
      }
      pending := Some(text);
      source := true;
      settingFromRdp := true;
    }

    /** `source_send`: the compositor asks for the pending text, which after any history is the one last set
        and not taken away. */
    method SourceSend(mimeMatches: bool, script: seq<Answer>) returns (emitted: seq<Byte>)
      ensures pending.None? || !mimeMatches ==> emitted == []
      ensures pending.Some? && mimeMatches ==> emitted <= pending.value
      ensures pending.Some? && mimeMatches && NoErrors(script) ==> emitted == pending.value
      ensures forall events, text :: State() == Run(events) && Pends(events, text) && mimeMatches ==>
                emitted <= text && (NoErrors(script) ==> emitted == text)
    {
      forall events, text | State() == Run(events) && Pends(events, text)
        ensures pending == Some(text)
      {
        PendingExactly(events, text);
      }
      emitted := ClipboardTransfer.SourceSend(pending, mimeMatches, script);
    }

    /** `source_cancelled`. */
    method SourceCancelled(current: bool)
      modifies this
      ensures State() == Step(old(State()), Cancelled(current))
    {
      if current {
        source := false;
      }
      pending := None;
      settingFromRdp := false;
    }

    /** `read_offer_text`; returns what its loop read. */
    method ReadOffer(offer: Offer) returns (content: seq<Byte>)
      modifies this
      ensures content <= offer.stream && |content| <= MAX_SIZE
      ensures State() == if offer.pipeOk then TextRead(old(State()), content) else old(State())
      ensures offer.pipeOk && NoErrors(offer.readScript) && AllTrue(offer.reallocs) ==>
                content == offer.stream[..Min(|offer.stream|, MAX_SIZE)]
    {
      content := [];
      if !offer.pipeOk {
        return;
      }
      var calls;
      content, calls := ReadOfferText(offer.stream, offer.readScript, offer.reallocs);
      if |content| > 0 {
        text := content;
        if !settingFromRdp {
          notified := notified + [content];
        }
      }
      settingFromRdp := false;
    }

    /** `device_selection`; None is the empty selection. Whether the selection is the own one matters
        to the history only. */
    method DeviceSelection(offer: Option<Offer>, ghost own: bool) returns (content: seq<Byte>)
      modifies this
      ensures offer.None? ==> State() == Step(old(State()), Cleared)
      ensures offer.Some? ==>
                && content <= offer.value.stream && |content| <= MAX_SIZE
                && State() == Step(old(State()), Selected(own, offer.value.hasText, offer.value.pipeOk, content))
                && (offer.value.hasText && offer.value.pipeOk && NoErrors(offer.value.readScript)
                    && AllTrue(offer.value.reallocs) ==>
                      content == offer.value.stream[..Min(|offer.value.stream|, MAX_SIZE)])
    {
      content := [];
      if offer.None? {
        return;
      }
      if offer.value.hasText {
        content := ReadOffer(offer.value);
      }
    }
  }
}
