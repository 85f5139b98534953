/** The frame interval of a session is the low-pass filter of the encode times of the frames it sent, over
    every run (src/session/main.c:152-188, 742-771). */
module PacingRuns {
  import opened Options
  import opened PacingFilter
  import opened SessionInvariants
  import opened SessionSpec
  import opened SessionTheorems
  import opened WireHistory
  import opened Words

  /** A stream starts: for an activated client without one, whose channels are absent or ready. */
  predicate Begins(s: Session, e: Event) {
    && e.StartTried? && s.client.Some? && s.client.value.activated && !s.clientActive
    && (!s.client.value.vcm || s.client.value.gfx.ready)
  }

  /** What an event means for the interval: a stream begins, a frame was sent with this target, or nothing. */
  datatype Effect = Begin | Sent(target: nat) | Nothing

  ghost function EffectOf(s: Session, e: Event): (r: Effect)
    requires Enabled(s, e)
  {
    if Begins(s, e) then Begin else if Sends(s, e) then Sent(Target(e.encoded - e.now)) else Nothing
  }

  /** The targets since the last stream began, after one more event. */
  function Noted(targets: seq<nat>, x: Effect): (r: seq<nat>) {
    match x
    case Begin => []
    case Sent(t) => targets + [t]
    case Nothing => targets
  }

  /** A frame counts for a quarter of the new interval, the old interval for three quarters. */
  function NextInterval(interval: nat, x: Effect): (r: nat) {
    match x
    case Begin => DEFAULT_MS
    case Sent(t) => (3 * interval + t) / 4
    case Nothing => interval
  }

  ghost function TargetsOf(s: Session, events: seq<Event>, targets: seq<nat>): (r: seq<nat>)
    requires Feasible(s, events)
    decreases |events|
  {
    if events == [] then targets
    else TargetsOf(Step(s, events[0]), events[1..], Noted(targets, EffectOf(s, events[0])))
  }

  lemma FilterOneMore(interval: nat, targets: seq<nat>, t: nat)
    ensures Filter(interval, targets + [t]) == (3 * Filter(interval, targets) + t) / 4
  {
    assert (targets + [t])[..|targets|] == targets;
  }

  lemma StartPaces(s: Session, e: Event)
    requires e.StartTried? && Enabled(s, e)
    ensures Begins(s, e) <==> !s.clientActive && Step(s, e).clientActive
    ensures Step(s, e).pacing == if Begins(s, e) then s.pacing.(intervalMs := DEFAULT_MS) else s.pacing
  {
  }

  lemma SizeKeepsPacing(s: Session, e: Event)
    requires (e.Activated? || e.ResizeRequested?) && Enabled(s, e)
    ensures Step(s, e).pacing == s.pacing
  {
  }

  lemma IntervalKept(s: Session, e: Event)
    requires Enabled(s, e) && !e.CaptureReady? && !e.StartTried?
    ensures Step(s, e).pacing == s.pacing
  {
    if e.Activated? || e.ResizeRequested? {
      SizeKeepsPacing(s, e);
    }
  }

  /** One event filters in the encode time of the frame it sends, resets the interval when a stream starts,
      and otherwise leaves it alone. */
  lemma IntervalStep(s: Session, e: Event)
    requires Enabled(s, e)
    ensures Step(s, e).pacing.intervalMs == NextInterval(s.pacing.intervalMs, EffectOf(s, e))
  {
    if e.CaptureReady? {
      if Sends(s, e) {
        SentPicture(s, e);
      } else {
        UnsentPicture(s, e);
      }
    } else if e.StartTried? {
      StartPaces(s, e);
    } else {
      IntervalKept(s, e);
    }
  }

  /** The filter takes one step as the interval does. */
  lemma FilterFollows(base: nat, targets: seq<nat>, x: Effect)
    requires x.Begin? ==> base == DEFAULT_MS
    ensures NextInterval(Filter(base, targets), x) == Filter(base, Noted(targets, x))
  {
    if x.Sent? {
      FilterOneMore(base, targets, x.target);
    }
  }

  lemma {:induction false} IntervalFilters(s: Session, events: seq<Event>, base: nat, targets: seq<nat>)
    requires Feasible(s, events) && s.pacing.intervalMs == Filter(base, targets) && base == DEFAULT_MS
    ensures Run(s, events).pacing.intervalMs == Filter(base, TargetsOf(s, events, targets))
    decreases |events|
  {
    if events != [] {
      IntervalStep(s, events[0]);
      FilterFollows(base, targets, EffectOf(s, events[0]));
      IntervalFilters(Step(s, events[0]), events[1..], base, Noted(targets, EffectOf(s, events[0])));
    }
  }

  /** At any time the interval is the default, filtered with the targets of the frames that were sent since
      the last stream started. */
  lemma IntervalIsFilter(ipcMode: bool, w: I32, h: I32, events: seq<Event>)
    requires Feasible(Start(ipcMode, w, h), events)
    ensures Run(Start(ipcMode, w, h), events).pacing.intervalMs
         == Filter(DEFAULT_MS, TargetsOf(Start(ipcMode, w, h), events, []))
  {
    IntervalFilters(Start(ipcMode, w, h), events, DEFAULT_MS, []);
  }

  // --- While a stream lasts ---

  lemma {:induction false} StreamFilters(s: Session, events: seq<Event>, base: nat, targets: seq<nat>)
    requires Feasible(s, events) && StreamLasts(s, events) && s.pacing.intervalMs == Filter(base, targets)
    ensures Run(s, events).pacing.intervalMs == Filter(base, TargetsOf(s, events, targets))
    decreases |events|
  {
    if events != [] {
      IntervalStep(s, events[0]);
      FilterFollows(base, targets, EffectOf(s, events[0]));
      StreamFilters(Step(s, events[0]), events[1..], base, Noted(targets, EffectOf(s, events[0])));
    }
  }

  /** Two streams whose frames took equally long to encode: after thirteen frames it matters by at most three
      milliseconds with which intervals they began. */
  lemma StreamsForgetTheirStart(s: Session, events: seq<Event>, s': Session, events': seq<Event>)
    requires SessionInv(s) && Feasible(s, events) && StreamLasts(s, events)
    requires SessionInv(s') && Feasible(s', events') && StreamLasts(s', events')
    requires TargetsOf(s, events, []) == TargetsOf(s', events', []) && |TargetsOf(s, events, [])| >= 13
    requires s.pacing.intervalMs <= s'.pacing.intervalMs
    ensures var x, y := Run(s, events).pacing.intervalMs, Run(s', events').pacing.intervalMs; x <= y <= x + 3
  {
    StreamFilters(s, events, s.pacing.intervalMs, []);
    StreamFilters(s', events', s'.pacing.intervalMs, []);
    ForgetsItsStart(s.pacing.intervalMs, s'.pacing.intervalMs, TargetsOf(s, events, []));
  }

  /** A stream whose frames all have the same target t: after thirteen of them the interval lies in [t-3, t],
      and it is t itself if it began above. */
  lemma StreamSettles(s: Session, events: seq<Event>, t: nat, n: nat)
    requires SessionInv(s) && Feasible(s, events) && StreamLasts(s, events)
    requires TargetsOf(s, events, []) == Repeat(t, n) && n >= 13 && MIN_MS <= t <= MAX_MS
    ensures var x := Run(s, events).pacing.intervalMs;
            t - 3 <= x <= t && (s.pacing.intervalMs >= t ==> x == t)
  {
    StreamFilters(s, events, s.pacing.intervalMs, []);
    if s.pacing.intervalMs >= t {
      SettlesFromAbove(s.pacing.intervalMs, t, n);
    } else {
      SettlesFromBelow(s.pacing.intervalMs, t, n);
    }
  }
}
