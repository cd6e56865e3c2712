/** Screen-share quality stepping, `AdaptiveQuality` of crates/app_desktop/src/screen_share.rs
    (lines 15, 23-134 and 837-884). */
module AdaptiveQuality {
  import opened Common

  const PRESSURE_THRESHOLD: nat := 3
  const LOWEST: nat := 2

  /** Frames per second of the three presets of each share profile. */
  const SHARE_PROFILES: seq<seq<nat>> := [[8, 6, 5], [15, 12, 8], [30, 20, 12], [60, 30, 15]]

  /** `profile` indexes the table; `pressureScore` is a u8 and `stableFrames` a u16. */
  datatype Quality = Quality(profile: nat, presetIndex: nat, pressureScore: Byte, stableFrames: U16) {
    ghost predicate Valid() {
      profile < 4 && presetIndex <= LOWEST
    }
  }

  /** Calm frames needed before a preset is left upwards: `(fps.max(8) * 6) as u16`. */
  function RecoveryFrames(profile: nat, preset: nat): (n: U16)
    requires profile < 4 && preset <= LOWEST
    ensures 48 <= n <= 360
  {
    (Max(SHARE_PROFILES[profile][preset], 8) * 6) % 0x1_0000
  }

  function Start(profile: nat): Quality {
    Quality(profile, 0, 0, 0)
  }

  function Record(q: Quality, pressure: bool): (q': Quality)
    requires q.Valid()
    ensures q'.Valid() && q'.profile == q.profile
  {
    if pressure then
      var score := Min(q.pressureScore + 1, 0xFF);
      if score >= PRESSURE_THRESHOLD && q.presetIndex + 1 < |SHARE_PROFILES[q.profile]| then
        q.(presetIndex := q.presetIndex + 1, pressureScore := 0, stableFrames := 0)
      else q.(pressureScore := score, stableFrames := 0)
    else
      var score, stable := Max(q.pressureScore - 1, 0), Min(q.stableFrames + 1, 0xFFFF);
      if stable >= RecoveryFrames(q.profile, q.presetIndex) && q.presetIndex > 0 then
        q.(presetIndex := q.presetIndex - 1, pressureScore := 0, stableFrames := 0)
      else q.(pressureScore := score, stableFrames := stable)
  }

  class Adaptive {
    const profile: nat
    var presetIndex: nat
    var pressureScore: Byte
    var stableFrames: U16

    ghost function State(): Quality
      reads this
    {
      Quality(profile, presetIndex, pressureScore, stableFrames)
    }

    constructor (profile: nat)
      requires profile < 4
      ensures State() == Start(profile)
    {
      this.profile := profile;
      presetIndex, pressureScore, stableFrames := 0, 0, 0;
    }

    /** Returns whether the preset changed. */
    method RecordFrame(pressure: bool) returns (changed: bool)
      requires State().Valid()
      modifies this
      ensures State() == Record(old(State()), pressure)
      ensures changed <==> presetIndex != old(presetIndex)
    {
      if pressure {
        stableFrames := 0;
        pressureScore := Min(pressureScore + 1, 0xFF);
        if pressureScore >= PRESSURE_THRESHOLD && presetIndex + 1 < |SHARE_PROFILES[profile]| {
          presetIndex := presetIndex + 1;
          pressureScore := 0;
          return true;
        }
        return false;
      }
      pressureScore := Max(pressureScore - 1, 0);
      stableFrames := Min(stableFrames + 1, 0xFFFF);
      var recoveryFrames := RecoveryFrames(profile, presetIndex);
      if stableFrames >= recoveryFrames && presetIndex > 0 {
        presetIndex := presetIndex - 1;
        stableFrames := 0;
        pressureScore := 0;
        return true;
      }
      return false;
    }
  }

  // ---- whole runs -------------------------------------------------------------------------------

  /** `inputs` are the frames since the last change of preset. */
  datatype Tally = Tally(quality: Quality, downs: nat, ups: nat, pressured: nat, calm: nat, inputs: seq<bool>)

  /** A leaky bucket: a pressured frame adds one, up to 255, and a calm one takes one out. */
  function Bucket(frames: seq<bool>): (n: nat)
    ensures n <= 255
  {
    if frames == [] then 0
    else
      var n := Bucket(frames[..|frames| - 1]);
      if frames[|frames| - 1] then (if n == 255 then 255 else n + 1) else if n == 0 then 0 else n - 1
  }

  /** The calm frames at the end, up to 65535. */
  function CalmTail(frames: seq<bool>): (n: nat)
    ensures n <= 65535
  {
    if frames == [] || frames[|frames| - 1] then 0
    else
      var n := CalmTail(frames[..|frames| - 1]);
      if n == 65535 then n else n + 1
  }

  function Observe(t: Tally, pressure: bool): Tally
    requires t.quality.Valid()
  {
    var next := Record(t.quality, pressure);
    Tally(next,
          t.downs + (if next.presetIndex > t.quality.presetIndex then 1 else 0),
          t.ups + (if next.presetIndex < t.quality.presetIndex then 1 else 0),
          t.pressured + (if pressure then 1 else 0),
          t.calm + (if pressure then 0 else 1),
          if next.presetIndex != t.quality.presetIndex then [] else t.inputs + [pressure])
  }

  function Run(profile: nat, frames: seq<bool>): (t: Tally)
    requires profile < 4
    ensures t.quality.Valid() && t.quality.profile == profile
  {
    if frames == [] then Tally(Start(profile), 0, 0, 0, 0, [])
    else Observe(Run(profile, frames[..|frames| - 1]), frames[|frames| - 1])
  }

  ghost predicate Inv(t: Tally) {
    var q := t.quality;
    && q.Valid()
    && q.presetIndex == t.downs - t.ups
    && t.pressured >= 3 * t.downs + q.pressureScore
    && t.calm >= 48 * t.ups + q.stableFrames
    && (q.presetIndex < LOWEST ==> q.pressureScore < PRESSURE_THRESHOLD)
    && (q.presetIndex > 0 ==> q.stableFrames < RecoveryFrames(q.profile, q.presetIndex))
  }

  /** The controller's score and calm count are those of the inputs since its last change. */
  ghost predicate Leaks(t: Tally) {
    t.quality.pressureScore == Bucket(t.inputs) && t.quality.stableFrames == CalmTail(t.inputs)
  }

  lemma ObserveLeaks(t: Tally, pressure: bool)
    requires t.quality.Valid() && Leaks(t)
    ensures Leaks(Observe(t, pressure))
  {
    assert (t.inputs + [pressure])[..|t.inputs|] == t.inputs;
  }

  lemma {:induction false} RunLeaks(profile: nat, frames: seq<bool>)
    requires profile < 4
    ensures Leaks(Run(profile, frames))
  {
    if frames != [] {
      RunLeaks(profile, frames[..|frames| - 1]);
      ObserveLeaks(Run(profile, frames[..|frames| - 1]), frames[|frames| - 1]);
    }
  }

  lemma RecordChanges(q: Quality, pressure: bool)
    requires q.Valid()
    ensures var before, after := q.presetIndex, Record(q, pressure).presetIndex;
            && (after == before + 1 <==> pressure && before < 2 && q.pressureScore >= 2)
            && (after == before - 1 <==>
                  !pressure && before > 0 && q.stableFrames + 1 >= 6 * Max(SHARE_PROFILES[q.profile][before], 8))
            && before - 1 <= after <= before + 1
  {
    assert RecoveryFrames(q.profile, q.presetIndex) == 6 * Max(SHARE_PROFILES[q.profile][q.presetIndex], 8);
  }

  lemma LastInput(inputs: seq<bool>, last: bool)
    ensures last ==> (Bucket(inputs + [last]) >= 3 <==> Bucket(inputs) >= 2)
    ensures !last ==> CalmTail(inputs + [last]) == Min(CalmTail(inputs) + 1, 65535)
  {
    assert (inputs + [last])[..|inputs|] == inputs;
  }

  /** The preset is lowered exactly when a pressured frame brings the leaky bucket of the frames since the last
      change to 3 and there is a lower one; and raised exactly when a calm frame completes six seconds of calm
      at the preset's own rate, taken as at least 8 a second, and there is a higher one. */
  lemma ChangesIffBucketFullOrCalm(profile: nat, frames: seq<bool>, pressure: bool)
    requires profile < 4
    ensures var t := Run(profile, frames);
            var before, after := t.quality.presetIndex, Record(t.quality, pressure).presetIndex;
            var inputs := t.inputs + [pressure];
            && (after == before + 1 <==> pressure && before < 2 && Bucket(inputs) >= 3)
            && (after == before - 1 <==>
                  !pressure && before > 0 && CalmTail(inputs) >= 6 * Max(SHARE_PROFILES[profile][before], 8))
            && before - 1 <= after <= before + 1
  {
    RunLeaks(profile, frames);
    var t := Run(profile, frames);
    RecordChanges(t.quality, pressure);
    LastInput(t.inputs, pressure);
    assert RecoveryFrames(profile, t.quality.presetIndex) <= 360;
  }

  lemma ObserveInv(t: Tally, pressure: bool)
    requires Inv(t)
    ensures Inv(Observe(t, pressure))
  {
  }

  lemma {:induction false} RunInv(profile: nat, frames: seq<bool>)
    requires profile < 4
    ensures Inv(Run(profile, frames))
  {
    if frames != [] {
      RunInv(profile, frames[..|frames| - 1]);
      ObserveInv(Run(profile, frames[..|frames| - 1]), frames[|frames| - 1]);
    }
  }

  /** Over any run the preset index is the steps down minus the steps up and stays in 0..2; a step
      down costs at least three pressured frames and a step up at least 48 calm ones, so the quality
      cannot flap. */
  lemma FlappingIsBounded(profile: nat, frames: seq<bool>)
    requires profile < 4
    ensures var t := Run(profile, frames);
            && t.quality.presetIndex == t.downs - t.ups && t.downs - t.ups <= LOWEST
            && t.pressured >= 3 * t.downs + t.quality.pressureScore
            && t.calm >= 48 * t.ups + t.quality.stableFrames
            && |frames| >= 51 * t.ups
  {
    RunInv(profile, frames);
    FramesCounted(profile, frames);
  }

  lemma {:induction false} FramesCounted(profile: nat, frames: seq<bool>)
    requires profile < 4
    ensures Run(profile, frames).pressured + Run(profile, frames).calm == |frames|
  {
    if frames != [] {
      FramesCounted(profile, frames[..|frames| - 1]);
    }
  }

  function Repeat(q: Quality, pressure: bool, n: nat): (q': Quality)
    requires q.Valid()
    ensures q'.Valid() && q'.profile == q.profile
    decreases n
  {
    if n == 0 then q else Repeat(Record(q, pressure), pressure, n - 1)
  }

  /** Reachable scores leave room for a step (Inv's last two clauses). */
  ghost predicate Settled(q: Quality) {
    && q.Valid()
    && (q.presetIndex < LOWEST ==> q.pressureScore < PRESSURE_THRESHOLD)
    && (q.presetIndex > 0 ==> q.stableFrames < RecoveryFrames(q.profile, q.presetIndex))
  }

  lemma {:induction false} PressureStaysLowest(q: Quality, n: nat)
    requires Settled(q) && q.presetIndex == LOWEST
    ensures Repeat(q, true, n).presetIndex == LOWEST
    decreases n
  {
    if n > 0 {
      PressureStaysLowest(Record(q, true), n - 1);
    }
  }

  /** Sustained pressure reaches the lowest preset once the missing pressured frames have passed. */
  lemma {:induction false} PressureReachesLowest(q: Quality, n: nat)
    requires Settled(q) && q.pressureScore + n >= 3 * (LOWEST - q.presetIndex)
    ensures Repeat(q, true, n).presetIndex == LOWEST
    decreases n
  {
    if q.presetIndex == LOWEST {
      PressureStaysLowest(q, n);
    } else {
      PressureReachesLowest(Record(q, true), n - 1);
    }
  }

  /** From any reachable state six pressured frames in a row reach the lowest preset, and more keep it. */
  lemma SixPressuredFramesReachLowest(profile: nat, frames: seq<bool>, n: nat)
    requires profile < 4 && n >= 6
    ensures Repeat(Run(profile, frames).quality, true, n).presetIndex == LOWEST
  {
    RunInv(profile, frames);
    PressureReachesLowest(Run(profile, frames).quality, n);
  }

  /** The recovery lengths of the presets from the given one up to the first. */
  function RecoverySum(profile: nat, preset: nat): nat
    requires profile < 4 && preset <= LOWEST
  {
    if preset == 0 then 0 else RecoveryFrames(profile, preset) + RecoverySum(profile, preset - 1)
  }

  lemma {:induction false} CalmStaysHighest(q: Quality, n: nat)
    requires Settled(q) && q.presetIndex == 0
    ensures Repeat(q, false, n).presetIndex == 0
    decreases n
  {
    if n > 0 {
      CalmStaysHighest(Record(q, false), n - 1);
    }
  }

  lemma {:induction false} CalmReachesHighest(q: Quality, n: nat)
    requires Settled(q) && q.stableFrames + n >= RecoverySum(q.profile, q.presetIndex)
    ensures Repeat(q, false, n).presetIndex == 0
    decreases n
  {
    if q.presetIndex == 0 {
      CalmStaysHighest(q, n);
    } else {
      assert RecoverySum(q.profile, q.presetIndex) > q.stableFrames;
      CalmReachesHighest(Record(q, false), n - 1);
    }
  }

  /** From any reachable state a calm run as long as the summed recovery lengths returns to the first
      preset, and more calm frames keep it. */
  lemma CalmRunRecovers(profile: nat, frames: seq<bool>, n: nat)
    requires profile < 4 && n >= RecoverySum(profile, Run(profile, frames).quality.presetIndex)
    ensures Repeat(Run(profile, frames).quality, false, n).presetIndex == 0
  {
    RunInv(profile, frames);
    CalmReachesHighest(Run(profile, frames).quality, n);
  }
}
