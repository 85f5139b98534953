/** The frame interval filter of `on_frame_ready` (src/session/main.c:179-187): twice the measured
    encode time, clamped, folded into the stored interval with weight one quarter. */
module PacingFilter {
  import opened Words

  const MIN_MS := 16
  const MAX_MS := 100
  const DEFAULT_MS := 33

  /** The clamped target; the product is cut to 32 bits before it is clamped. */
  function Target(encodeMs: nat): (t: nat)
    ensures MIN_MS <= t <= MAX_MS
  {
    var t := ToU32(encodeMs * 2);
    if t < MIN_MS then MIN_MS else if t > MAX_MS then MAX_MS else t
  }

  /** Twice the measured time, from 8 to 50 milliseconds; below and above that the ends of the band. Times so
      long that doubling them wraps can name any target. */
  lemma TargetExactly(encodeMs: nat)
    requires encodeMs < 0x8000_0000
    ensures Target(encodeMs) == if encodeMs < 8 then 16 else if encodeMs <= 50 then 2 * encodeMs else 100
  {
  }

  lemma TargetWraps(encodeMs: nat)
    ensures Target(encodeMs + 0x8000_0000) == Target(encodeMs)
  {
  }

  function Smooth(interval: nat, target: nat): (r: nat) {
    (interval * 3 + target) / 4
  }

  function Filter(interval: nat, targets: seq<nat>): (r: nat) {
    if targets == [] then interval else Smooth(Filter(interval, targets[..|targets| - 1]), targets[|targets| - 1])
  }

  ghost predicate InBand(targets: seq<nat>) {
    forall t :: t in targets ==> MIN_MS <= t <= MAX_MS
  }

  /** The interval never leaves [16, 100], whatever the encoder does. */
  lemma {:induction false} StaysInBand(interval: nat, targets: seq<nat>)
    requires MIN_MS <= interval <= MAX_MS && InBand(targets)
    ensures MIN_MS <= Filter(interval, targets) <= MAX_MS
  {
    if targets != [] {
      var rest := targets[..|targets| - 1];
      assert forall t :: t in rest ==> t in targets;
      StaysInBand(interval, rest);
      assert targets[|targets| - 1] in targets;
    }
  }

  /** How far two filters fed the same targets can still be apart after n steps, in the worst case. */
  function Gap(d: nat, n: nat): (r: nat) {
    if n == 0 then d else (3 * Gap(d, n - 1) + 3) / 4
  }

  /** Upper bounds on the gap after 0, 1, ..., 13 steps from the widest spread inside the band. */
  const GAP_BOUNDS: seq<nat> := [84, 63, 48, 36, 27, 21, 16, 12, 9, 7, 6, 5, 4, 3]

  lemma {:induction false} GapCloses(d: nat, n: nat)
    requires d <= MAX_MS - MIN_MS
    ensures Gap(d, n) <= GAP_BOUNDS[if n < 13 then n else 13]
  {
    if n > 0 {
      GapCloses(d, n - 1);
    }
  }

  lemma {:induction false} OrderAndGap(x: nat, y: nat, targets: seq<nat>)
    requires x <= y
    ensures Filter(x, targets) <= Filter(y, targets) <= Filter(x, targets) + Gap(y - x, |targets|)
  {
    if targets != [] {
      OrderAndGap(x, y, targets[..|targets| - 1]);
    }
  }

  /** The filter forgets its start: two runs over the same targets keep their order, and after
      thirteen frames they differ by at most 3 ms. */
  lemma ForgetsItsStart(x: nat, y: nat, targets: seq<nat>)
    requires MIN_MS <= x <= y <= MAX_MS
    ensures Filter(x, targets) <= Filter(y, targets)
    ensures |targets| >= 13 ==> Filter(y, targets) - Filter(x, targets) <= 3
  {
    OrderAndGap(x, y, targets);
    if |targets| >= 13 {
      GapCloses(y - x, |targets|);
    }
  }

  function Repeat(t: nat, n: nat): (s: seq<nat>)
    ensures |s| == n
  {
    seq(n, i => t)
  }

  /** An interval is a rest point of a constant target exactly when it lies at most 3 below the target. */
  lemma RestPoints(x: nat, t: nat)
    ensures Smooth(x, t) == x <==> t - 3 <= x <= t
  {
  }

  lemma FilterSnoc(x: nat, t: nat, n: nat)
    requires n > 0
    ensures Filter(x, Repeat(t, n)) == Smooth(Filter(x, Repeat(t, n - 1)), t)
  {
    assert Repeat(t, n)[..n - 1] == Repeat(t, n - 1);
  }

  /** Under a constant target an interval above it falls to it exactly and an interval below it
      stops inside [t - 3, t]; neither ever crosses the target, and both are at rest after the
      number of frames it takes the worst gap to close. */
  lemma {:induction false} SettlesFromBelow(x: nat, t: nat, n: nat)
    requires x <= t
    ensures x <= Filter(x, Repeat(t, n)) <= t
    ensures t - Filter(x, Repeat(t, n)) <= Gap(t - x, n)
    ensures t - x <= MAX_MS - MIN_MS && n >= 13 ==> t - 3 <= Filter(x, Repeat(t, n))
  {
    if n > 0 {
      SettlesFromBelow(x, t, n - 1);
      FilterSnoc(x, t, n);
    }
    if t - x <= MAX_MS - MIN_MS && n >= 13 {
      GapCloses(t - x, n);
    }
  }

  function Excess(d: nat, n: nat): (r: nat) {
    if n == 0 then d else 3 * Excess(d, n - 1) / 4
  }

  const EXCESS_BOUNDS: seq<nat> := [84, 63, 47, 35, 26, 19, 14, 10, 7, 5, 3, 2, 1, 0]

  lemma {:induction false} ExcessVanishes(d: nat, n: nat)
    requires d <= MAX_MS - MIN_MS
    ensures Excess(d, n) <= EXCESS_BOUNDS[if n < 13 then n else 13]
  {
    if n > 0 {
      ExcessVanishes(d, n - 1);
    }
  }

  lemma {:induction false} SettlesFromAbove(x: nat, t: nat, n: nat)
    requires x >= t
    ensures Filter(x, Repeat(t, n)) == t + Excess(x - t, n)
    ensures x - t <= MAX_MS - MIN_MS && n >= 13 ==> Filter(x, Repeat(t, n)) == t
  {
    if n > 0 {
      SettlesFromAbove(x, t, n - 1);
      FilterSnoc(x, t, n);
    }
    if x - t <= MAX_MS - MIN_MS && n >= 13 {
      ExcessVanishes(x - t, n);
    }
  }
}
