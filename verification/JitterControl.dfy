/** The jitter-depth controller `PeerPlayback::adapt_from_atomics` and the readiness test
    (crates/audio_core/src/buffers.rs, lines 357-449; constants crates/audio_core/src/lib.rs, lines 31 and 92-95). */
module JitterControl {
  import opened Common

  const MAX_PEER_BUFFER_SAMPLES: nat := FRAME_SIZE * 10
  const JITTER_MIN_FRAMES: nat := 1
  const JITTER_MAX_FRAMES: nat := 5
  const JITTER_INITIAL: nat := 2
  const JITTER_STABLE_THRESHOLD: nat := 150

  /** `x += 1` on a u16 in a release build. */
  function Increment(n: U16): U16 {
    if n == 0xFFFF then 0 else n + 1
  }

  /** `x * 2` on a u16 in a release build. */
  function Doubled(n: U16): U16 {
    if n < 0x8000 then 2 * n else 2 * n - 0x1_0000
  }

  /** What the decode side reads from the callback's two counters. */
  datatype Reading = Reading(underruns: U32, callbacks: U32)

  datatype Control = Control(
    target: U32,
    primed: bool,
    lastUnderruns: U32,
    lastCallbacks: U32,
    underrunRun: U16,
    stableRun: U16,
    threshold: U16)

  const INITIAL := Control(JITTER_INITIAL, false, 0, 0, 0, 0, 3)

  datatype Check = Inactive | Underrun | Stable

  function Classify(c: Control, r: Reading): Check {
    if WrappingSub(r.callbacks, c.lastCallbacks) == 0 then Inactive
    else if WrappingSub(r.underruns, c.lastUnderruns) > 0 then Underrun
    else Stable
  }

  function Adapt(c: Control, r: Reading): Control {
    var seen := c.(lastUnderruns := r.underruns, lastCallbacks := r.callbacks);
    var target: U16 := c.target % 0x1_0000;
    match Classify(c, r)
    case Inactive => seen
    case Underrun =>
      var run := Increment(c.underrunRun);
      if run >= c.threshold && target < JITTER_MAX_FRAMES then
        seen.(target := target + 1, primed := false, underrunRun := 0, stableRun := 0,
              threshold := Min(Doubled(c.threshold), 24))
      else seen.(underrunRun := run, stableRun := 0)
    case Stable =>
      var run := Increment(c.stableRun);
      if run > JITTER_STABLE_THRESHOLD && target > JITTER_MIN_FRAMES then
        seen.(target := target - 1, underrunRun := 0, stableRun := 0)
      else seen.(underrunRun := 0, stableRun := run)
  }

  class PeerPlayback {
    var target: U32
    var primed: bool
    var lastUnderruns: U32
    var lastCallbacks: U32
    var underrunRun: U16
    var stableRun: U16
    var threshold: U16

    ghost function State(): Control
      reads this
    {
      Control(target, primed, lastUnderruns, lastCallbacks, underrunRun, stableRun, threshold)
    }

    constructor ()
      ensures State() == INITIAL
    {
      target, primed := JITTER_INITIAL, false;
      lastUnderruns, lastCallbacks := 0, 0;
      underrunRun, stableRun, threshold := 0, 0, 3;
    }

    method AdaptFromAtomics(underruns: U32, callbacks: U32)
      modifies this
      ensures State() == Adapt(old(State()), Reading(underruns, callbacks))
    {
      var newUnderruns := WrappingSub(underruns, lastUnderruns);
      var newCallbacks := WrappingSub(callbacks, lastCallbacks);
      lastUnderruns, lastCallbacks := underruns, callbacks;
      if newCallbacks == 0 {
        return;
      }
      var depth: U16 := target % 0x1_0000;
      if newUnderruns > 0 {
        underrunRun := Increment(underrunRun);
        stableRun := 0;
        if underrunRun >= threshold && depth < JITTER_MAX_FRAMES {
          target := depth + 1;
          primed := false;
          underrunRun := 0;
          threshold := Min(Doubled(threshold), 24);
        }
      } else {
        underrunRun := 0;
        stableRun := Increment(stableRun);
        if stableRun > JITTER_STABLE_THRESHOLD && depth > JITTER_MIN_FRAMES {
          target := depth - 1;
          stableRun := 0;
        }
      }
    }
  }

  /** What a check is, on the counters as read: nothing when the callback has not run since the reading before,
      otherwise an underrun check when its underrun counter has moved at all. */
  function Kind(last: Reading, r: Reading): Check {
    if r.callbacks == last.callbacks then Inactive
    else if r.underruns == last.underruns then Stable
    else Underrun
  }

  /** The controller together with the latest reading and unbounded counts of what has happened to it: `quiet`
      counts the stable checks since the last underrun check or reduction, `streak` the underrun checks
      since the last stable check or expansion. */
  datatype Tally = Tally(
    control: Control,
    last: Reading,
    expansions: nat,
    reductions: nat,
    underrunChecks: nat,
    stableChecks: nat,
    quiet: nat,
    streak: nat)

  /** What happens to the controller, in any order: the decode side checks the counters, and the playback
      callback stores its flag (crates/audio_core/src/lib.rs, lines 955 and 981). */
  datatype Event = Check(reading: Reading) | StorePrimed(primed: bool)

  function React(t: Tally, e: Event): Tally {
    match e
    case Check(r) => Observe(t, r)
    case StorePrimed(primed) => t.(control := t.control.(primed := primed))
  }

  function Observe(t: Tally, r: Reading): Tally {
    var next := Adapt(t.control, r);
    var check := Kind(t.last, r);
    var reduced := next.target < t.control.target;
    var expanded := next.target > t.control.target;
    Tally(next, r,
          t.expansions + (if expanded then 1 else 0),
          t.reductions + (if reduced then 1 else 0),
          t.underrunChecks + (if check.Underrun? then 1 else 0),
          t.stableChecks + (if check.Stable? then 1 else 0),
          if check.Underrun? || reduced then 0 else if check.Stable? then t.quiet + 1 else t.quiet,
          if check.Stable? || expanded then 0 else if check.Underrun? then t.streak + 1 else t.streak)
  }

  function Run(events: seq<Event>): Tally {
    if events == [] then Tally(INITIAL, Reading(0, 0), 0, 0, 0, 0, 0, 0)
    else React(Run(events[..|events| - 1]), events[|events| - 1])
  }

  lemma RunAppend(events: seq<Event>, e: Event)
    ensures Run(events + [e]) == React(Run(events), e)
  {
    assert (events + [e])[..|events|] == events;
  }

  /** The number of underrun checks in a row that triggers the next expansion: min(3 * 2^k, 24). */
  function Threshold(k: nat): (n: U16)
    ensures 3 <= n <= 24
  {
    if k == 0 then 3 else Min(2 * Threshold(k - 1), 24)
  }

  function ThresholdSum(e: nat): nat {
    if e == 0 then 0 else ThresholdSum(e - 1) + Threshold(e - 1)
  }

  /** A u16 after n increments from 0. */
  function Wrapped(n: nat): (r: U16)
    ensures n < 0x1_0000 ==> r == n
  {
    if n == 0 then 0 else Increment(Wrapped(n - 1))
  }

  lemma {:induction false} WrappedIsRemainder(n: nat)
    ensures Wrapped(n) == n % 0x1_0000
  {
    if n > 0 {
      WrappedIsRemainder(n - 1);
    }
  }

  ghost predicate Inv(t: Tally) {
    var c := t.control;
    && c.lastUnderruns == t.last.underruns && c.lastCallbacks == t.last.callbacks
    && JITTER_MIN_FRAMES <= c.target <= JITTER_MAX_FRAMES
    && c.target == JITTER_INITIAL + t.expansions - t.reductions
    && c.threshold == Threshold(t.expansions)
    && t.underrunChecks >= ThresholdSum(t.expansions) + t.streak
    && t.stableChecks >= 151 * t.reductions + t.quiet
    && c.stableRun == Wrapped(t.quiet)
    && c.underrunRun == Wrapped(t.streak)
    && (c.target < JITTER_MAX_FRAMES ==> t.streak < c.threshold)
    && (c.target > JITTER_MIN_FRAMES ==> t.quiet <= JITTER_STABLE_THRESHOLD)
  }

  /** The wrapping differences of the counters tell the same as the counters themselves. */
  lemma ClassifyIsKind(c: Control, last: Reading, r: Reading)
    requires c.lastUnderruns == last.underruns && c.lastCallbacks == last.callbacks
    ensures Classify(c, r) == Kind(last, r)
  {
  }

  lemma UnderrunKeepsInv(t: Tally, r: Reading)
    requires Inv(t) && Kind(t.last, r).Underrun?
    ensures Inv(Observe(t, r))
  {
    var c := t.control;
    if c.target < JITTER_MAX_FRAMES && t.streak + 1 == c.threshold {
      ExpandingKeepsInv(t, r);
    } else {
      HoldingKeepsInv(t, r);
    }
  }

  lemma ExpandingKeepsInv(t: Tally, r: Reading)
    requires Inv(t) && Kind(t.last, r).Underrun?
    requires t.control.target < JITTER_MAX_FRAMES && t.streak + 1 == t.control.threshold
    ensures Inv(Observe(t, r))
  {
    ClassifyIsKind(t.control, t.last, r);
    assert Adapt(t.control, r).target == t.control.target + 1;
  }

  lemma HoldingKeepsInv(t: Tally, r: Reading)
    requires Inv(t) && Kind(t.last, r).Underrun?
    requires t.control.target == JITTER_MAX_FRAMES || t.streak + 1 < t.control.threshold
    ensures Inv(Observe(t, r))
  {
    ClassifyIsKind(t.control, t.last, r);
    assert Adapt(t.control, r).target == t.control.target;
  }

  lemma StableKeepsInv(t: Tally, r: Reading)
    requires Inv(t) && Kind(t.last, r).Stable?
    ensures Inv(Observe(t, r))
  {
    ClassifyIsKind(t.control, t.last, r);
    var c, next := t.control, Adapt(t.control, r);
    assert next.target == c.target || next.target == c.target - 1;
  }

  lemma CheckKeepsInv(t: Tally, r: Reading)
    requires Inv(t)
    ensures Inv(Observe(t, r))
  {
    ClassifyIsKind(t.control, t.last, r);
    match Kind(t.last, r)
    case Inactive =>
    case Underrun => UnderrunKeepsInv(t, r);
    case Stable => StableKeepsInv(t, r);
  }

  lemma {:induction false} RunInv(events: seq<Event>)
    ensures Inv(Run(events))
  {
    if events != [] {
      var t := Run(events[..|events| - 1]);
      RunInv(events[..|events| - 1]);
      match events[|events| - 1]
      case Check(r) => CheckKeepsInv(t, r);
      case StorePrimed(_) =>
    }
  }

  /** Over any run of checks and callbacks the depth is 2 + expansions - reductions and stays in 1..5;
      E expansions cost at least sum over k < E of min(3 * 2^k, 24) underrun checks, and R
      reductions at least 151 stable checks each. */
  lemma DepthOverAnyRun(events: seq<Event>)
    ensures var t := Run(events);
            && t.control.target == JITTER_INITIAL + t.expansions - t.reductions
            && JITTER_MIN_FRAMES <= t.control.target <= JITTER_MAX_FRAMES
            && t.underrunChecks >= ThresholdSum(t.expansions)
            && t.stableChecks >= 151 * t.reductions
  {
    RunInv(events);
  }

  lemma {:induction false} ThresholdIsCappedDoubling(k: nat)
    ensures Threshold(k) == if k == 0 then 3 else if k == 1 then 6 else if k == 2 then 12 else 24
    ensures ThresholdSum(k) == if k <= 3 then 3 * (Pow2(k) - 1) else 21 + 24 * (k - 3)
  {
    if k > 0 {
      ThresholdIsCappedDoubling(k - 1);
    }
  }

  function Pow2(k: nat): nat {
    if k == 0 then 1 else 2 * Pow2(k - 1)
  }

  lemma StepReduces(c: Control, r: Reading)
    requires JITTER_MIN_FRAMES <= c.target <= JITTER_MAX_FRAMES
    requires c.target > JITTER_MIN_FRAMES ==> c.stableRun <= JITTER_STABLE_THRESHOLD
    ensures Adapt(c, r).target < c.target
       <==> Classify(c, r).Stable? && c.stableRun == 150 && c.target > JITTER_MIN_FRAMES
  {
  }

  lemma StepExpands(c: Control, r: Reading)
    requires JITTER_MIN_FRAMES <= c.target <= JITTER_MAX_FRAMES
    requires c.target < JITTER_MAX_FRAMES ==> c.underrunRun < c.threshold
    ensures Adapt(c, r).target > c.target
       <==> Classify(c, r).Underrun? && c.underrunRun + 1 == c.threshold && c.target < JITTER_MAX_FRAMES
  {
  }

  /** How one reading after another is counted: not at all if the callback has not run in between, as an underrun
      check if the underrun counter has moved, however little, and as a stable one otherwise. */
  lemma ReadingsAreCounted(events: seq<Event>, p: Reading, r: Reading)
    ensures var t, u := Run(events + [Check(p)]), Run(events + [Check(p)] + [Check(r)]);
            && (p.callbacks == r.callbacks ==>
                  u.underrunChecks == t.underrunChecks && u.stableChecks == t.stableChecks)
            && (p.callbacks != r.callbacks && p.underruns != r.underruns ==>
                  u.underrunChecks == t.underrunChecks + 1 && u.stableChecks == t.stableChecks)
            && (p.callbacks != r.callbacks && p.underruns == r.underruns ==>
                  u.underrunChecks == t.underrunChecks && u.stableChecks == t.stableChecks + 1)
  {
    RunAppend(events, Check(p));
    RunAppend(events + [Check(p)], Check(r));
  }

  /** A check reduces the depth exactly when it finds callbacks but no underrun since the reading before, is the
      151st such one since the last underrun check or reduction, and the depth is above the minimum. */
  lemma ReductionIffQuiet(events: seq<Event>, r: Reading)
    ensures var t := Run(events);
            Adapt(t.control, r).target < t.control.target
            <==> (&& r.callbacks != t.last.callbacks && r.underruns == t.last.underruns && t.quiet == 150
                  && t.control.target > JITTER_MIN_FRAMES)
  {
    RunInv(events);
    ClassifyIsKind(Run(events).control, Run(events).last, r);
    StepReduces(Run(events).control, r);
  }

  /** A check expands the depth exactly when it finds callbacks and an underrun since the reading before, completes
      an unbroken run of min(3 * 2^E, 24) such checks, E being the expansions so far, and the depth is below
      the maximum. */
  lemma ExpansionIffStreak(events: seq<Event>, r: Reading)
    ensures var t := Run(events);
            Adapt(t.control, r).target > t.control.target
            <==> (&& r.callbacks != t.last.callbacks && r.underruns != t.last.underruns
                  && t.streak + 1 == Threshold(t.expansions) && t.control.target < JITTER_MAX_FRAMES)
  {
    RunInv(events);
    ClassifyIsKind(Run(events).control, Run(events).last, r);
    StepExpands(Run(events).control, r);
  }

  lemma StepUnprimes(c: Control, r: Reading)
    requires JITTER_MIN_FRAMES <= c.target <= JITTER_MAX_FRAMES
    ensures Adapt(c, r).primed <==> c.primed && Adapt(c, r).target <= c.target
  {
  }

  /** Whenever the callback may have primed the peer: a check leaves it primed exactly when it was and the
      check does not expand the depth; and from every reachable state a primed one at the same depth can be
      reached, so the expansion is what un-primes. */
  lemma UnprimedIffExpanded(events: seq<Event>, r: Reading)
    ensures var c := Run(events).control;
            Adapt(c, r).primed <==> c.primed && Adapt(c, r).target <= c.target
    ensures exists more ::
              var c := Run(events + more).control;
              && c.primed && c.target == Run(events).control.target
              && (Adapt(c, r).primed <==> Adapt(c, r).target <= c.target)
  {
    RunInv(events);
    StepUnprimes(Run(events).control, r);
    RunAppend(events, StorePrimed(true));
    RunInv(events + [StorePrimed(true)]);
    StepUnprimes(Run(events + [StorePrimed(true)]).control, r);
  }

  /** The u16 run counters are the unbounded ones modulo 2^16, so each is about to overflow exactly when its run
      is one short of a multiple of 2^16; and that happens only while the depth sits at its limit. */
  lemma CountersWrapIff(events: seq<Event>)
    ensures var t := Run(events);
            && (t.control.underrunRun == 0xFFFF <==> t.streak % 0x1_0000 == 0xFFFF)
            && (t.control.stableRun == 0xFFFF <==> t.quiet % 0x1_0000 == 0xFFFF)
            && (t.control.underrunRun == 0xFFFF ==> t.control.target == JITTER_MAX_FRAMES)
            && (t.control.stableRun == 0xFFFF ==> t.control.target == JITTER_MIN_FRAMES)
  {
    RunInv(events);
    WrappedIsRemainder(Run(events).streak);
    WrappedIsRemainder(Run(events).quiet);
  }

  /** A counter reading that differs from the one before. */
  function Beat(n: nat): U32 {
    if n == 0 then 0 else 1 - Beat(n - 1)
  }

  /** n checks with callbacks but no underrun in between. */
  function StableChecks(n: nat): seq<Event> {
    if n == 0 then [] else StableChecks(n - 1) + [Check(Reading(0, Beat(n)))]
  }

  /** n checks with an underrun before each. */
  function UnderrunChecks(n: nat): seq<Event> {
    if n == 0 then [] else UnderrunChecks(n - 1) + [Check(Reading(Beat(n), Beat(n)))]
  }

  ghost predicate StableFor(c: Control, n: nat) {
    && c.lastUnderruns == 0 && c.lastCallbacks == Beat(n)
    && (n <= 150 ==> c.target == JITTER_INITIAL && c.stableRun == n)
    && (n > 150 ==> c.target == JITTER_MIN_FRAMES && c.stableRun == Wrapped(n - 151))
  }

  ghost predicate UnderrunFor(c: Control, n: nat) {
    && c.lastUnderruns == c.lastCallbacks == Beat(n)
    && (n < 3 ==> c.target == 2 && c.underrunRun == n && c.threshold == 3)
    && (3 <= n < 9 ==> c.target == 3 && c.underrunRun == n - 3 && c.threshold == 6)
    && (9 <= n < 21 ==> c.target == 4 && c.underrunRun == n - 9 && c.threshold == 12)
    && (21 <= n ==> c.target == JITTER_MAX_FRAMES && c.underrunRun == Wrapped(n - 21))
  }

  lemma {:induction false} AfterStableChecks(n: nat)
    ensures StableFor(Run(StableChecks(n)).control, n)
  {
    if n > 0 {
      AfterStableChecks(n - 1);
      RunAppend(StableChecks(n - 1), Check(Reading(0, Beat(n))));
      OneMoreStable(Run(StableChecks(n - 1)).control, n);
    }
  }

  lemma OneMoreStable(c: Control, n: nat)
    requires n > 0 && StableFor(c, n - 1)
    ensures StableFor(Adapt(c, Reading(0, Beat(n))), n)
  {
    assert Classify(c, Reading(0, Beat(n))).Stable?;
  }

  lemma {:induction false} AfterUnderrunChecks(n: nat)
    ensures UnderrunFor(Run(UnderrunChecks(n)).control, n)
  {
    if n > 0 {
      AfterUnderrunChecks(n - 1);
      RunAppend(UnderrunChecks(n - 1), Check(Reading(Beat(n), Beat(n))));
      OneMoreUnderrun(Run(UnderrunChecks(n - 1)).control, n);
    }
  }

  lemma OneMoreUnderrun(c: Control, n: nat)
    requires n > 0 && UnderrunFor(c, n - 1)
    ensures UnderrunFor(Adapt(c, Reading(Beat(n), Beat(n))), n)
  {
    if n <= 21 {
      ExpandingUnderrun(c, n);
    } else {
      LimitUnderrun(c, n);
    }
  }

  lemma ExpandingUnderrun(c: Control, n: nat)
    requires 0 < n <= 21 && UnderrunFor(c, n - 1)
    ensures UnderrunFor(Adapt(c, Reading(Beat(n), Beat(n))), n)
  {
    assert Classify(c, Reading(Beat(n), Beat(n))).Underrun?;
  }

  lemma LimitUnderrun(c: Control, n: nat)
    requires 21 < n && UnderrunFor(c, n - 1)
    ensures UnderrunFor(Adapt(c, Reading(Beat(n), Beat(n))), n)
  {
    assert Classify(c, Reading(Beat(n), Beat(n))).Underrun?;
  }

  /** Both counters do wrap: m checks beyond the limit leave m modulo 2^16. */
  lemma BothCountersWrap(m: nat)
    ensures Run(StableChecks(151 + m)).control.stableRun == m % 0x1_0000
    ensures Run(UnderrunChecks(21 + m)).control.underrunRun == m % 0x1_0000
  {
    AfterStableChecks(151 + m);
    AfterUnderrunChecks(21 + m);
    WrappedIsRemainder(m);
  }

  function IsReady(c: Control, ringLen: nat): bool {
    c.primed || ringLen >= c.target * FRAME_SIZE
  }

  /** In every run an unprimed peer is ready exactly when its ring holds 960 samples for each frame of depth. */
  lemma ReadyIffBuffered(events: seq<Event>, ringLen: nat)
    ensures var t := Run(events);
            IsReady(t.control, ringLen)
            <==> t.control.primed || ringLen >= 960 * (2 + t.expansions - t.reductions)
  {
    RunInv(events);
  }

  /** The ring (one slot short of its capacity) always has room for the readiness threshold, so an
      unprimed peer can become ready. */
  lemma ReadinessIsReachable(events: seq<Event>)
    ensures Run(events).control.target * FRAME_SIZE <= MAX_PEER_BUFFER_SAMPLES - 1
    ensures IsReady(Run(events).control, MAX_PEER_BUFFER_SAMPLES - 1)
  {
    RunInv(events);
  }
}
