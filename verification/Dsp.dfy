/** Level control on the audio path (crates/audio_core/src/codec.rs), over the reals: gate, mute ramp,
    gain control, comfort noise and clipping. */
module Dsp {
  function Abs(x: real): real {
    if x < 0.0 then -x else x
  }

  function MinR(a: real, b: real): real {
    if a <= b then a else b
  }

  function MaxR(a: real, b: real): real {
    if a >= b then a else b
  }

  // ---- automatic gain control, lines 303-430 ----------------------------------------------------

  /** What distinguishes the capture and the playback controller. */
  datatype Tuning = Tuning(targetRms: real, minGain: real, maxGain: real, attack: real, release: real, smooth: real) {
    ghost predicate Valid() {
      && 0.0 < minGain <= 1.0 <= maxGain
      && 0.0 <= attack <= 1.0 && 0.0 <= release <= 1.0 && 0.0 <= smooth <= 1.0
    }
  }

  const CAPTURE := Tuning(0.12, 0.1, 10.0, 0.003, 0.001, 0.005)
  const PLAYBACK := Tuning(0.15, 0.15, 6.0, 0.001, 0.0005, 0.002)

  function NextRms(t: Tuning, rms: real, frameRms: real, speed: real): real {
    var alpha := if frameRms > rms then t.attack * speed else t.release * speed;
    rms * (1.0 - alpha) + frameRms * alpha
  }

  function TargetGain(t: Tuning, rms: real): (g: real)
    requires t.Valid()
    ensures t.minGain <= g <= t.maxGain
  {
    if rms > 0.001 then MinR(MaxR(t.targetRms / rms, t.minGain), t.maxGain) else 1.0
  }

  function NextGain(gain: real, target: real, smooth: real): real {
    gain + (target - gain) * smooth
  }

  /** The gain after n samples of ramping towards the target. */
  function GainAfter(gain: real, target: real, smooth: real, n: nat): real {
    if n == 0 then gain
    else
      NextGain(GainAfter(gain, target, smooth, n - 1), target, smooth)
  }

  /** The limiter: beyond 0.95 the magnitude is scaled back to 0.95. */
  function Limited(s: real): real {
    if Abs(s) > 0.95 then s * (0.95 / Abs(s)) else s
  }

  /** The n-th sample of a frame, after the ramped gain and the limiter. */
  function Level(s: real, gain: real, target: real, smooth: real, n: nat): real {
    Amplified(s, GainAfter(gain, target, smooth, n))
  }

  function Amplified(s: real, gain: real): real {
    Limited(s * gain)
  }

  lemma LimitedBound(s: real)
    ensures Abs(Limited(s)) <= 0.95
    ensures Abs(s) > 0.95 ==> Limited(s) == (if s > 0.0 then 0.95 else -0.95)
    ensures Abs(s) <= 0.95 ==> Limited(s) == s
  {
    if s > 0.95 {
      assert s * (0.95 / s) == 0.95;
    } else if s < -0.95 {
      assert -s * (0.95 / -s) == 0.95;
    }
  }

  function Power(x: real, n: nat): real {
    if n == 0 then 1.0 else x * Power(x, n - 1)
  }

  lemma StepCloses(g: real, target: real, k: real, p: real, d: real)
    requires g - target == p * d
    ensures NextGain(g, target, k) - target == ((1.0 - k) * p) * d
  {
    assert NextGain(g, target, k) - target == (1.0 - k) * (g - target);
  }

  /** The distance to the target shrinks geometrically: the gain never overshoots. */
  lemma {:induction false} GainClosesIn(gain: real, target: real, smooth: real, n: nat)
    ensures GainAfter(gain, target, smooth, n) - target == Power(1.0 - smooth, n) * (gain - target)
  {
    if n == 0 {
      assert Power(1.0 - smooth, n) == 1.0;
    } else {
      var g, p, k := GainAfter(gain, target, smooth, n - 1), Power(1.0 - smooth, n - 1), 1.0 - smooth;
      GainClosesIn(gain, target, smooth, n - 1);
      StepCloses(g, target, smooth, p, gain - target);
      assert GainAfter(gain, target, smooth, n) == NextGain(g, target, smooth);
      assert Power(k, n) == k * p;
    }
  }

  lemma StepsUp(g: real, target: real, k: real)
    requires g <= target && 0.0 <= k <= 1.0
    ensures g <= NextGain(g, target, k) <= target
  {
    var d := target - g;
    assert d * k >= 0.0;
    assert d * (1.0 - k) >= 0.0;
  }

  /** One step towards the target stays between the gain and the target. */
  lemma BetweenBound(g: real, target: real, k: real, lo: real, hi: real)
    requires lo <= g <= hi && lo <= target <= hi && 0.0 <= k <= 1.0
    ensures lo <= NextGain(g, target, k) <= hi
  {
    if g <= target {
      StepsUp(g, target, k);
    } else {
      StepsUp(-g, -target, k);
      Mirrored(g, target, k);
    }
  }

  lemma Mirrored(g: real, target: real, k: real)
    ensures NextGain(-g, -target, k) == -NextGain(g, target, k)
  {
    assert (-target - -g) * k == -((target - g) * k);
  }

  lemma {:induction false} GainStaysInRange(gain: real, target: real, smooth: real, n: nat, lo: real, hi: real)
    requires lo <= gain <= hi && lo <= target <= hi && 0.0 <= smooth <= 1.0
    ensures lo <= GainAfter(gain, target, smooth, n) <= hi
  {
    if n > 0 {
      GainStaysInRange(gain, target, smooth, n - 1, lo, hi);
      BetweenBound(GainAfter(gain, target, smooth, n - 1), target, smooth, lo, hi);
    }
  }

  function SquareSum(s: seq<real>): (r: real)
    ensures 0.0 <= r
  {
    if s == [] then 0.0 else SquareSum(s[..|s| - 1]) + Square(s[|s| - 1])
  }

  function Square(x: real): (r: real)
    ensures 0.0 <= r
  {
    x * x
  }

  function MeanSquare(s: seq<real>): (r: real)
    ensures 0.0 <= r
  {
    SquareSum(s) / (if s == [] then 1.0 else |s| as real)
  }

  /** The square root on the reals: what is used of it is that it is never negative. */
  ghost predicate IsRoot(root: real -> real) {
    forall x :: 0.0 <= x ==> 0.0 <= root(x)
  }

  /** Agc and PlaybackAgc. The square root is handed in as a function. */
  class GainControl {
    const tuning: Tuning
    var rmsEstimate: real
    var gain: real

    ghost predicate Valid()
      reads this
    {
      tuning.Valid() && tuning.minGain <= gain <= tuning.maxGain && 0.0 <= rmsEstimate
    }

    constructor (tuning: Tuning)
      requires tuning.Valid()
      ensures Valid() && this.tuning == tuning && gain == 1.0 && rmsEstimate == 0.05
    {
      this.tuning := tuning;
      rmsEstimate, gain := 0.05, 1.0;
    }

    /** One frame, `speed` being 1 with the gate open (and always for playback) and 1/10 with it closed:
        the gain stays in its range and every output is limited to 0.95, whatever comes in. */
    method Process(samples: array<real>, root: real -> real, speed: real)
      requires Valid() && IsRoot(root) && (speed == 1.0 || speed == 0.1)
      modifies this, samples
      ensures Valid()
      ensures rmsEstimate == NextRms(tuning, old(rmsEstimate), root(MeanSquare(old(samples[..]))), speed)
      ensures var target, k := TargetGain(tuning, rmsEstimate), tuning.smooth * speed;
              && gain == GainAfter(old(gain), target, k, samples.Length)
              && (forall i :: 0 <= i < samples.Length ==>
                    && samples[i] == Level(old(samples[i]), old(gain), target, k, i + 1)
                    && Abs(samples[i]) <= 0.95)
    {
      var frameRms := MeasureRms(samples, root);
      rmsEstimate := NextRms(tuning, rmsEstimate, frameRms, speed);
      RmsFollows(tuning, old(rmsEstimate), frameRms, speed);
      var target := TargetGain(tuning, rmsEstimate);
      var k := tuning.smooth * speed;
      GainStaysInRange(gain, target, k, samples.Length, tuning.minGain, tuning.maxGain);
      ghost var was := samples[..];
      RampGain(samples, target, k);
      forall i | 0 <= i < samples.Length
        ensures samples[i] == Level(was[i], old(gain), target, k, i + 1) && Abs(samples[i]) <= 0.95
      {
        assert samples[i] == samples[..][i];
        LevelledAt(was, old(gain), target, k, i);
        LevelIsBounded(was[i], old(gain), target, k, i + 1);
      }
    }

    method MeasureRms(samples: array<real>, root: real -> real) returns (rms: real)
      requires IsRoot(root)
      ensures rms == root(MeanSquare(samples[..])) && 0.0 <= rms
    {
      var sumSq := 0.0;
      var i := 0;
      while i < samples.Length
        invariant 0 <= i <= samples.Length && sumSq == SquareSum(samples[..i])
      {
        assert samples[..i + 1][..i] == samples[..i];
        sumSq := sumSq + Square(samples[i]);
        i := i + 1;
      }
      assert samples[..i] == samples[..];
      rms := root(sumSq / (if samples.Length == 0 then 1.0 else samples.Length as real));
    }

    method RampGain(samples: array<real>, target: real, k: real)
      modifies this`gain, samples
      ensures gain == GainAfter(old(gain), target, k, samples.Length)
      ensures samples[..] == Levelled(old(samples[..]), old(gain), target, k)
    {
      ghost var gain0, was := gain, samples[..];
      var i := 0;
      while i < samples.Length
        modifies this`gain, samples
        invariant 0 <= i <= samples.Length
        invariant gain == GainAfter(gain0, target, k, i)
        invariant samples[i..] == was[i..]
        invariant samples[..i] == Levelled(was[..i], gain0, target, k)
      {
        assert was[..i + 1][..i] == was[..i];
        assert samples[i] == samples[i..][0] == was[i];
        gain := NextGain(gain, target, k);
        assert gain == GainAfter(gain0, target, k, i + 1);
        ghost var before := samples[..i];
        samples[i] := Amplified(samples[i], gain);
        assert samples[..i + 1] == before + [Level(was[i], gain0, target, k, i + 1)];
        i := i + 1;
      }
      assert samples[..i] == samples[..] && was[..i] == was;
    }
  }

  /** A whole frame: sample i gets the gain i + 1 steps along its ramp. */
  function Levelled(s: seq<real>, gain: real, target: real, smooth: real): (r: seq<real>)
    ensures |r| == |s|
  {
    if s == [] then []
    else
      Levelled(s[..|s| - 1], gain, target, smooth) + [Level(s[|s| - 1], gain, target, smooth, |s|)]
  }

  lemma {:induction false} LevelledAt(s: seq<real>, gain: real, target: real, smooth: real, i: nat)
    requires i < |s|
    ensures Levelled(s, gain, target, smooth)[i] == Level(s[i], gain, target, smooth, i + 1)
    decreases |s|
  {
    if i < |s| - 1 {
      LevelledAt(s[..|s| - 1], gain, target, smooth, i);
    }
  }

  lemma LevelIsBounded(s: real, gain: real, target: real, smooth: real, n: nat)
    ensures Abs(Level(s, gain, target, smooth, n)) <= 0.95
  {
    LimitedBound(s * GainAfter(gain, target, smooth, n));
  }

  /** The level estimate moves towards the frame's level without passing it. */
  lemma RmsFollows(t: Tuning, rms: real, frameRms: real, speed: real)
    requires t.Valid() && (speed == 1.0 || speed == 0.1)
    ensures MinR(rms, frameRms) <= NextRms(t, rms, frameRms, speed) <= MaxR(rms, frameRms)
  {
    var alpha := if frameRms > rms then t.attack * speed else t.release * speed;
    BetweenBound(rms, frameRms, alpha, MinR(rms, frameRms), MaxR(rms, frameRms));
    assert rms * (1.0 - alpha) + frameRms * alpha == NextGain(rms, frameRms, alpha);
  }

  /** How far the estimate goes towards the frame's level: with the gate open, 3/1000 of the way to a louder frame
      and 1/1000 to a quieter one when capturing, 1/1000 and 1/2000 when playing; a tenth of that with it
      closed. A frame at the estimate leaves it alone. */
  lemma EstimateResponds(rms: real, frameRms: real, speed: real)
    ensures frameRms > rms ==> NextRms(CAPTURE, rms, frameRms, speed) - rms == 0.003 * speed * (frameRms - rms)
    ensures frameRms <= rms ==> NextRms(CAPTURE, rms, frameRms, speed) - rms == 0.001 * speed * (frameRms - rms)
    ensures frameRms > rms ==> NextRms(PLAYBACK, rms, frameRms, speed) - rms == 0.001 * speed * (frameRms - rms)
    ensures frameRms <= rms ==> NextRms(PLAYBACK, rms, frameRms, speed) - rms == 0.0005 * speed * (frameRms - rms)
    ensures NextRms(CAPTURE, rms, rms, speed) == rms == NextRms(PLAYBACK, rms, rms, speed)
  {
    MixedByShare(rms, frameRms, 0.003 * speed);
    MixedByShare(rms, frameRms, 0.001 * speed);
    MixedByShare(rms, frameRms, 0.0005 * speed);
    MixedByShare(rms, rms, 0.001 * speed);
    MixedByShare(rms, rms, 0.0005 * speed);
  }

  lemma MixedByShare(x: real, y: real, share: real)
    ensures x * (1.0 - share) + y * share - x == share * (y - x)
  {
  }

  /** The levels aimed at, 0.12 and 0.15; and no change of gain is aimed at in near-silence. */
  lemma TargetsAimedAt(rms: real)
    ensures rms <= 0.001 ==> TargetGain(CAPTURE, rms) == 1.0 == TargetGain(PLAYBACK, rms)
    ensures 0.012 <= rms <= 1.2 ==> TargetGain(CAPTURE, rms) * rms == 0.12
    ensures 0.025 <= rms <= 1.0 ==> TargetGain(PLAYBACK, rms) * rms == 0.15
  {
    if 0.012 <= rms <= 1.2 {
      QuotientWithin(0.12, rms, 0.1, 10.0);
      TargetGainNormalises(CAPTURE, rms);
    }
    if 0.025 <= rms <= 1.0 {
      QuotientWithin(0.15, rms, 0.15, 6.0);
      TargetGainNormalises(PLAYBACK, rms);
    }
  }

  lemma QuotientWithin(x: real, d: real, lo: real, hi: real)
    requires d > 0.0 && lo * d <= x <= hi * d
    ensures lo <= x / d <= hi
  {
    assert (x / d) * d == x;
    CancelFactor(lo, x / d, d);
    CancelFactor(x / d, hi, d);
  }

  /** The squares of two frames joined add up, and the mean square of one sample is its square. */
  lemma {:induction false} SquareSumOfTwoParts(a: seq<real>, b: seq<real>)
    ensures SquareSum(a + b) == SquareSum(a) + SquareSum(b)
    decreases |b|
  {
    if b == [] {
      assert a + b == a;
    } else {
      assert (a + b)[..|a + b| - 1] == a + b[..|b| - 1];
      SquareSumOfTwoParts(a, b[..|b| - 1]);
    }
  }

  lemma MeanSquareTimesLength(s: seq<real>)
    requires s != []
    ensures MeanSquare(s) * (|s| as real) == SquareSum(s)
  {
    TimesQuotient(SquareSum(s), |s| as real);
  }

  lemma TimesQuotient(x: real, d: real)
    requires d > 0.0
    ensures (x / d) * d == x
  {
  }

  lemma MeanSquareOfOne(x: real)
    ensures SquareSum([x]) == x * x == MeanSquare([x]) && MeanSquare([]) == 0.0
  {
    assert [x][..0] == [];
    TimesQuotient(SquareSum([x]), 1.0);
  }

  /** Unless it is clamped, the target gain takes the estimated level to the target level. */
  lemma TargetGainNormalises(t: Tuning, rms: real)
    requires t.Valid() && rms > 0.001 && t.minGain <= t.targetRms / rms <= t.maxGain
    ensures TargetGain(t, rms) * rms == t.targetRms
  {
  }

  /** One frame as the controller meets it: its level, the speed, and its length. */
  datatype Block = Block(frameRms: real, speed: real, length: nat)

  predicate Sound(b: Block) {
    0.0 <= b.frameRms && (b.speed == 1.0 || b.speed == 0.1)
  }

  /** The level estimate and the gain after one more frame. */
  function AfterFrame(t: Tuning, c: (real, real), b: Block): (real, real)
    requires t.Valid()
  {
    var rms := NextRms(t, c.0, b.frameRms, b.speed);
    (rms, GainAfter(c.1, TargetGain(t, rms), t.smooth * b.speed, b.length))
  }

  function AfterFrames(t: Tuning, frames: seq<Block>): (real, real)
    requires t.Valid()
  {
    if frames == [] then (0.05, 1.0)
    else AfterFrame(t, AfterFrames(t, frames[..|frames| - 1]), frames[|frames| - 1])
  }

  lemma {:induction false} GainRange(t: Tuning, frames: seq<Block>)
    requires t.Valid() && forall b :: b in frames ==> Sound(b)
    ensures 0.0 <= AfterFrames(t, frames).0 && t.minGain <= AfterFrames(t, frames).1 <= t.maxGain
  {
    if frames != [] {
      var init, b := frames[..|frames| - 1], frames[|frames| - 1];
      assert Sound(b);
      GainRange(t, init);
      AfterFrameInRange(t, AfterFrames(t, init), b);
    }
  }

  lemma AfterFrameInRange(t: Tuning, c: (real, real), b: Block)
    requires t.Valid() && Sound(b) && 0.0 <= c.0 && t.minGain <= c.1 <= t.maxGain
    ensures 0.0 <= AfterFrame(t, c, b).0 && t.minGain <= AfterFrame(t, c, b).1 <= t.maxGain
  {
    var rms := NextRms(t, c.0, b.frameRms, b.speed);
    assert 0.0 <= rms by {
      RmsFollows(t, c.0, b.frameRms, b.speed);
    }
    var smooth := t.smooth * b.speed;
    assert 0.0 <= smooth <= 1.0;
    GainStaysInRange(c.1, TargetGain(t, rms), smooth, b.length, t.minGain, t.maxGain);
  }

  /** Over any run of frames of any length and level: 0.1 to 10 for capture, 0.15 to 6 for playback. */
  lemma GainRangeOverAnyRun(frames: seq<Block>)
    requires forall b :: b in frames ==> Sound(b)
    ensures 0.1 <= AfterFrames(CAPTURE, frames).1 <= 10.0
    ensures 0.15 <= AfterFrames(PLAYBACK, frames).1 <= 6.0
  {
    GainRange(CAPTURE, frames);
    GainRange(PLAYBACK, frames);
  }

  // ---- gain ramps of the mute switch and the noise gate, lines 68-90 and 127-171 ----------------

  const MUTE_RAMP: real := 1.0 / 240.0
  const GATE_ATTACK: real := 1.0 / 96.0
  const GATE_RELEASE: real := 1.0 / 240.0

  function RampTarget(up: bool): real {
    if up then 1.0 else 0.0
  }

  function RampStep(gain: real, up: bool, step: real): real {
    if Abs(gain - RampTarget(up)) > 0.001 then
      if up then MinR(gain + step, 1.0) else MaxR(gain - step, 0.0)
    else RampTarget(up)
  }

  /** The gain after n samples. */
  function RampAfter(gain: real, up: bool, step: real, n: nat): real {
    if n == 0 then gain else RampStep(RampAfter(gain, up, step, n - 1), up, step)
  }

  function Travelled(step: real, n: nat): real {
    if n == 0 then 0.0 else Travelled(step, n - 1) + step
  }

  lemma {:induction false} TravelledIs(step: real, n: nat)
    ensures Travelled(step, n) == n as real * step
  {
    if n > 0 {
      TravelledIs(step, n - 1);
      var m := (n - 1) as real;
      assert (m + 1.0) * step == m * step + step;
    }
  }

  /** After n samples at most 1 - n * step of the way is left, and the gain stays in 0..1. */
  lemma {:induction false} RampDistance(gain: real, up: bool, step: real, n: nat)
    requires 0.0 <= gain <= 1.0 && 0.0 < step
    ensures 0.0 <= RampAfter(gain, up, step, n) <= 1.0
    ensures Abs(RampAfter(gain, up, step, n) - RampTarget(up)) <= MaxR(1.0 - Travelled(step, n), 0.0)
  {
    if n > 0 {
      RampDistance(gain, up, step, n - 1);
    }
  }

  /** Splitting a stretch of samples into frames makes no difference. */
  lemma {:induction false} RampAcrossFrames(gain: real, up: bool, step: real, m: nat, n: nat)
    ensures RampAfter(gain, up, step, m + n) == RampAfter(RampAfter(gain, up, step, m), up, step, n)
  {
    if n > 0 {
      RampAcrossFrames(gain, up, step, m, n - 1);
    }
  }

  function Total(frames: seq<nat>): nat {
    if frames == [] then 0 else Total(frames[..|frames| - 1]) + frames[|frames| - 1]
  }

  function RampOverFrames(gain: real, up: bool, step: real, frames: seq<nat>): real {
    if frames == [] then gain
    else RampAfter(RampOverFrames(gain, up, step, frames[..|frames| - 1]), up, step, frames[|frames| - 1])
  }

  lemma {:induction false} RampFramesAddUp(gain: real, up: bool, step: real, frames: seq<nat>)
    ensures RampOverFrames(gain, up, step, frames) == RampAfter(gain, up, step, Total(frames))
  {
    if frames != [] {
      var init := frames[..|frames| - 1];
      RampFramesAddUp(gain, up, step, init);
      RampAcrossFrames(gain, up, step, Total(init), frames[|frames| - 1]);
    }
  }

  /** Whatever the frame lengths, a fade is exactly complete, and stays so, after 240 samples for the mute
      switch and a closing gate, 96 for an opening gate. */
  lemma FadesComplete(gain: real, up: bool, frames: seq<nat>)
    requires 0.0 <= gain <= 1.0
    ensures Total(frames) >= 240 ==> RampOverFrames(gain, up, MUTE_RAMP, frames) == RampTarget(up)
    ensures Total(frames) >= 240 ==> RampOverFrames(gain, up, GATE_RELEASE, frames) == RampTarget(up)
    ensures Total(frames) >= 96 ==> RampOverFrames(gain, up, GATE_ATTACK, frames) == RampTarget(up)
  {
    var n := Total(frames);
    TravelledIs(MUTE_RAMP, n);
    TravelledIs(GATE_ATTACK, n);
    RampFramesAddUp(gain, up, MUTE_RAMP, frames);
    RampDistance(gain, up, MUTE_RAMP, n);
    RampFramesAddUp(gain, up, GATE_ATTACK, frames);
    RampDistance(gain, up, GATE_ATTACK, n);
  }

  /** 240 and 96 are exact: a full fade is not complete one sample earlier. */
  lemma FadesTakeAllTheirSamples()
    ensures RampAfter(0.0, true, MUTE_RAMP, 239) != 1.0 && RampAfter(1.0, false, MUTE_RAMP, 239) != 0.0
    ensures RampAfter(1.0, false, GATE_RELEASE, 239) != 0.0
    ensures RampAfter(0.0, true, GATE_ATTACK, 95) != 1.0
  {
    TravelledIs(MUTE_RAMP, 239);
    TravelledIs(GATE_ATTACK, 95);
    FullRamp(MUTE_RAMP, 239);
    FullRamp(GATE_ATTACK, 95);
  }

  lemma {:induction false} TravelledRises(step: real, n: nat)
    requires step > 0.0
    ensures Travelled(step, n) >= 0.0
  {
    if n > 0 {
      TravelledRises(step, n - 1);
    }
  }

  /** A full fade is linear as long as it has not arrived. */
  lemma {:induction false} FullRamp(step: real, n: nat)
    requires step > 0.001 && Travelled(step, n) < 1.0
    ensures RampAfter(0.0, true, step, n) == Travelled(step, n)
    ensures RampAfter(1.0, false, step, n) == 1.0 - Travelled(step, n)
  {
    TravelledRises(step, n);
    if n > 0 {
      FullRamp(step, n - 1);
      TravelledRises(step, n - 1);
    }
  }

  function Scaled(s: real, gain: real): real {
    s * gain
  }

  function Faded(s: real, gain: real, up: bool, step: real, n: nat): real {
    Scaled(s, RampAfter(gain, up, step, n))
  }

  class MuteRamp {
    var gain: real

    constructor ()
      ensures gain == 1.0
    {
      gain := 1.0;
    }

    /** Scales the frame in place; the result says whether the gain was above 1/1000 at any sample. */
    method Apply(samples: array<real>, capturing: bool) returns (audible: bool)
      requires 0.0 <= gain <= 1.0
      modifies this, samples
      ensures gain == RampAfter(old(gain), capturing, MUTE_RAMP, samples.Length) && 0.0 <= gain <= 1.0
      ensures forall i :: 0 <= i < samples.Length ==>
                samples[i] == Faded(old(samples[i]), old(gain), capturing, MUTE_RAMP, i + 1)
      ensures audible <==>
              exists n: nat :: 0 < n <= samples.Length && RampAfter(old(gain), capturing, MUTE_RAMP, n) > 0.001
    {
      audible := false;
      ghost var gain0, was := gain, samples[..];
      var i := 0;
      while i < samples.Length
        modifies this, samples
        invariant 0 <= i <= samples.Length
        invariant gain == RampAfter(gain0, capturing, MUTE_RAMP, i)
        invariant samples[i..] == was[i..]
        invariant forall j :: 0 <= j < i ==> samples[j] == Faded(was[j], gain0, capturing, MUTE_RAMP, j + 1)
        invariant audible <==> exists n: nat :: 0 < n <= i && RampAfter(gain0, capturing, MUTE_RAMP, n) > 0.001
      {
        gain := RampStep(gain, capturing, MUTE_RAMP);
        assert gain == RampAfter(gain0, capturing, MUTE_RAMP, i + 1);
        assert samples[i] == samples[i..][0] == was[i];
        samples[i] := Scaled(samples[i], gain);
        if gain > 0.001 {
          audible := true;
        }
        i := i + 1;
      }
      RampDistance(gain0, capturing, MUTE_RAMP, samples.Length);
    }
  }

  // ---- noise gate, lines 9-90 ---------------------------------------------------------------------

  const HOLD_FRAMES: nat := 5
  const CALIBRATION_FRAMES: nat := 100

  datatype Gate = Gate(noiseFloor: real, isOpen: bool, hold: nat, calibrated: nat, calibrationSum: real)

  const NEW_GATE := Gate(0.01, false, 0, 0, 0.0)

  /** What `process` reads for one frame; the sensitivity is in thousandths. */
  datatype Frame = Frame(energy: real, sensitivity: nat, vad: bool)

  function Calibrate(g: Gate, energy: real): Gate {
    if g.calibrated < CALIBRATION_FRAMES then
      var sum, count := g.calibrationSum + energy, g.calibrated + 1;
      g.(calibrated := count, calibrationSum := sum,
         noiseFloor := if count == CALIBRATION_FRAMES then MaxR(sum / 100.0, 0.001) else g.noiseFloor)
    else g
  }

  /** The threshold on a noise floor for a sensitivity in thousandths. */
  function Threshold(floor: real, sensitivity: nat): real {
    MaxR(floor * (6.0 - sensitivity as real / 1000.0 * 4.5), 0.001)
  }

  /** It is six times the floor at sensitivity 0 and one and a half times at 1000, never below 1/1000, and a higher
      sensitivity never raises it. */
  lemma ThresholdRange(floor: real, s: nat, t: nat)
    requires floor >= 0.0 && s <= t
    ensures Threshold(floor, 0) == MaxR(6.0 * floor, 0.001) && Threshold(floor, 1000) == MaxR(1.5 * floor, 0.001)
    ensures Threshold(floor, t) <= Threshold(floor, s)
  {
    var ks, kt := 6.0 - s as real / 1000.0 * 4.5, 6.0 - t as real / 1000.0 * 4.5;
    NonNegativeProduct(floor, ks - kt);
    assert floor * ks - floor * kt == floor * (ks - kt);
  }

  predicate IsLoud(g: Gate, f: Frame) {
    f.energy > Threshold(Calibrate(g, f.energy).noiseFloor, f.sensitivity)
  }

  /** A frame is loud exactly when it is above the threshold on the floor after calibration; a quiet one moves the
      floor a twentieth of the way to its energy, a loud one does not move it. */
  lemma FloorFollowsQuietFrames(g: Gate, f: Frame)
    requires f.vad && g.calibrated >= 100
    ensures IsLoud(g, f) <==> f.energy > Threshold(g.noiseFloor, f.sensitivity)
    ensures Decide(g, f).noiseFloor ==
              if IsLoud(g, f) then g.noiseFloor else g.noiseFloor + (f.energy - g.noiseFloor) / 20.0
  {
  }

  function EnergySum(frames: seq<Frame>): real {
    if frames == [] then 0.0 else EnergySum(frames[..|frames| - 1]) + frames[|frames| - 1].energy
  }

  lemma {:induction false} CalibrationSums(frames: seq<Frame>)
    requires |frames| <= 100 && forall f :: f in frames ==> f.vad
    ensures GateAfter(frames).calibrated == |frames| && GateAfter(frames).calibrationSum == EnergySum(frames)
  {
    if frames != [] {
      CalibrationSums(frames[..|frames| - 1]);
      CalibratedOnce(GateAfter(frames[..|frames| - 1]), frames[|frames| - 1]);
    }
  }

  lemma CalibratedOnce(g: Gate, f: Frame)
    requires f.vad && g.calibrated < 100
    ensures Decide(g, f).calibrated == g.calibrated + 1
    ensures Decide(g, f).calibrationSum == g.calibrationSum + f.energy
  {
  }

  /** The hundredth frame seen with voice detection on sets the floor to the mean energy of the hundred, at least
      1/1000; the calibration does not touch the floor before or after. */
  lemma CalibrationIsTheMean(frames: seq<Frame>, f: Frame)
    requires |frames| == 99 && f.vad && forall g :: g in frames ==> g.vad
    ensures Calibrate(GateAfter(frames), f.energy).noiseFloor == MaxR((EnergySum(frames) + f.energy) / 100.0, 0.001)
  {
    CalibrationSums(frames);
  }

  lemma OnlyTheHundredthCalibrates(g: Gate, energy: real)
    requires g.calibrated != 99
    ensures Calibrate(g, energy).noiseFloor == g.noiseFloor && (g.calibrated >= 100 ==> Calibrate(g, energy) == g)
  {
  }

  function Decide(g: Gate, f: Frame): Gate {
    if !f.vad then g.(isOpen := true)
    else
      var c := Calibrate(g, f.energy);
      if IsLoud(g, f) then c.(isOpen := true, hold := HOLD_FRAMES)
      else
        var floor := c.noiseFloor * 0.95 + f.energy * 0.05;
        if c.hold > 0 then c.(noiseFloor := floor, hold := c.hold - 1)
        else c.(noiseFloor := floor, isOpen := false)
  }

  function GateAfter(frames: seq<Frame>): Gate {
    if frames == [] then NEW_GATE else Decide(GateAfter(frames[..|frames| - 1]), frames[|frames| - 1])
  }

  /** The verdicts on the frames seen with voice detection on. */
  function Verdicts(frames: seq<Frame>): seq<bool> {
    if frames == [] then []
    else
      var init, f := frames[..|frames| - 1], frames[|frames| - 1];
      Verdicts(init) + if f.vad then [IsLoud(GateAfter(init), f)] else []
  }

  function Hold(louds: seq<bool>): nat {
    if louds == [] then 0
    else if louds[|louds| - 1] then HOLD_FRAMES
    else
      var h := Hold(louds[..|louds| - 1]);
      if h > 0 then h - 1 else 0
  }

  /** The hold counter is 5 less the number of frames since the last loud one. */
  lemma {:induction false} HoldCountsDown(louds: seq<bool>)
    ensures var h, n := Hold(louds), |louds|;
            && h <= HOLD_FRAMES
            && (h > 0 ==> h + n >= 6 && louds[n + h - 6])
            && (forall k :: 0 <= k < n && n + h - 6 < k ==> !louds[k])
  {
    if louds != [] {
      var init := louds[..|louds| - 1];
      HoldCountsDown(init);
      assert forall k :: 0 <= k < |init| ==> init[k] == louds[k];
    }
  }

  lemma {:induction false} GateHolds(frames: seq<Frame>)
    ensures GateAfter(frames).hold == Hold(Verdicts(frames))
    ensures GateAfter(frames).hold > 0 ==> GateAfter(frames).isOpen
  {
    if frames != [] {
      var init, f := frames[..|frames| - 1], frames[|frames| - 1];
      GateHolds(init);
      if f.vad {
        assert Verdicts(frames)[..|Verdicts(frames)| - 1] == Verdicts(init);
      } else {
        assert Verdicts(frames) == Verdicts(init);
      }
    }
  }

  /** After any run the gate is open exactly when voice detection is off or one of the last six frames seen
      with it on was loud. */
  lemma OpenIffRecentlyLoud(frames: seq<Frame>)
    requires frames != []
    ensures var v := Verdicts(frames);
            GateAfter(frames).isOpen <==>
              !frames[|frames| - 1].vad || exists k :: 0 <= k < |v| && |v| - 6 <= k && v[k]
  {
    var init, f := frames[..|frames| - 1], frames[|frames| - 1];
    if f.vad {
      var v, e := Verdicts(frames), Verdicts(init);
      GateHolds(init);
      HoldCountsDown(e);
      assert |v| == |e| + 1 && v[|e|] == IsLoud(GateAfter(init), f);
      if !v[|e|] && Hold(e) > 0 {
        assert v[|e| + Hold(e) - 6];
      }
    }
  }

  class NoiseGate {
    var state: Gate
    var gain: real

    constructor ()
      ensures state == NEW_GATE && gain == 0.0
    {
      state, gain := NEW_GATE, 0.0;
    }

    method Process(energy: real, sensitivity: nat, vad: bool) returns (pass: bool)
      modifies this
      ensures state == Decide(old(state), Frame(energy, sensitivity, vad)) && gain == old(gain)
      ensures old(state.hold > 0 ==> state.isOpen) ==> pass == state.isOpen
    {
      if !vad {
        state := state.(isOpen := true);
        return true;
      }
      var loud := IsLoud(state, Frame(energy, sensitivity, vad));
      state := Calibrate(state, energy);
      if loud {
        state := state.(isOpen := true, hold := HOLD_FRAMES);
        return true;
      }
      state := state.(noiseFloor := state.noiseFloor * 0.95 + energy * 0.05);
      if state.hold > 0 {
        state := state.(hold := state.hold - 1);
        return true;
      }
      state := state.(isOpen := false);
      return false;
    }

    method ApplyGain(samples: array<real>, gateOpen: bool)
      requires 0.0 <= gain <= 1.0
      modifies this`gain, samples
      ensures var step := if gateOpen then GATE_ATTACK else GATE_RELEASE;
              && gain == RampAfter(old(gain), gateOpen, step, samples.Length) && 0.0 <= gain <= 1.0
              && forall i :: 0 <= i < samples.Length ==>
                   samples[i] == Faded(old(samples[i]), old(gain), gateOpen, step, i + 1)
    {
      var step := if gateOpen then GATE_ATTACK else GATE_RELEASE;
      ghost var gain0, was := gain, samples[..];
      var i := 0;
      while i < samples.Length
        modifies this`gain, samples
        invariant 0 <= i <= samples.Length
        invariant gain == RampAfter(gain0, gateOpen, step, i)
        invariant samples[i..] == was[i..]
        invariant forall j :: 0 <= j < i ==> samples[j] == Faded(was[j], gain0, gateOpen, step, j + 1)
      {
        gain := RampStep(gain, gateOpen, step);
        assert gain == RampAfter(gain0, gateOpen, step, i + 1);
        assert samples[i] == samples[i..][0] == was[i];
        samples[i] := Scaled(samples[i], gain);
        i := i + 1;
      }
      RampDistance(gain0, gateOpen, step, samples.Length);
    }
  }

  // ---- comfort noise, lines 436-462 ---------------------------------------------------------------

  /** The Galois shift register, held in a 32-bit word. */
  function Shift(l: bv32): bv32 {
    if l & 1 == 1 then (l >> 1) ^ 0xB400 else l >> 1
  }

  lemma XorMovesDown(a: bv32, b: bv32)
    ensures (a ^ b) >> 1 == (a >> 1) ^ (b >> 1)
  {
  }

  lemma XorParity(a: bv32, b: bv32)
    ensures (a ^ b) & 1 == 1 <==> (a & 1 == 1) != (b & 1 == 1)
  {
  }

  lemma XorCancels(a: bv32, b: bv32, m: bv32)
    ensures (a ^ m) ^ (b ^ m) == a ^ b && (a ^ m) ^ b == (a ^ b) ^ m && a ^ (b ^ m) == (a ^ b) ^ m
  {
  }

  lemma ShiftIsLinear(a: bv32, b: bv32)
    ensures Shift(a ^ b) == Shift(a) ^ Shift(b)
  {
    XorMovesDown(a, b);
    XorParity(a, b);
    XorCancels(a >> 1, b >> 1, 0xB400);
  }

  lemma ShiftKernel(l: bv32)
    ensures Shift(l) == 0 <==> l == 0 || l == 0x1_6801
  {
  }

  lemma SameIffXorIsZero(a: bv32, b: bv32)
    ensures a == b <==> a ^ b == 0
  {
  }

  /** The step merges exactly the pairs of words that differ by 0x16801, a difference wider than 16 bits. */
  lemma ShiftMergesExactly(a: bv32, b: bv32)
    ensures Shift(a) == Shift(b) <==> a == b || a ^ b == 0x1_6801
  {
    ShiftIsLinear(a, b);
    ShiftKernel(a ^ b);
    SameIffXorIsZero(a, b);
    SameIffXorIsZero(Shift(a), Shift(b));
  }

  lemma ShiftKeepsSixteenBits(l: bv32)
    requires 0 < l < 0x1_0000
    ensures 0 < Shift(l) < 0x1_0000
  {
  }

  lemma NarrowXor(a: bv32, b: bv32)
    requires a < 0x1_0000 && b < 0x1_0000
    ensures a ^ b < 0x1_0000
  {
  }

  /** So the nonzero 16-bit words are closed under the step, which never merges two of them. */
  lemma ShiftPermutesSixteenBits(a: bv32, b: bv32)
    requires 0 < a < 0x1_0000 && 0 < b < 0x1_0000
    ensures 0 < Shift(a) < 0x1_0000
    ensures Shift(a) == Shift(b) ==> a == b
  {
    ShiftKeepsSixteenBits(a);
    ShiftMergesExactly(a, b);
    NarrowXor(a, b);
  }

  const COMFORT_NOISE_LEVEL: real := 0.0015

  function NoiseOf(word: nat): real {
    (word as real / 32768.0 - 1.0) * COMFORT_NOISE_LEVEL
  }

  /** The noise is affine in the word: the middle word is silent, and each step is a 32768th of the level. */
  lemma NoiseIsAffine(word: nat)
    ensures NoiseOf(0x8000) == 0.0 && NoiseOf(0) == -0.0015
    ensures NoiseOf(word + 1) - NoiseOf(word) == 0.0015 / 32768.0
  {
  }

  lemma NoiseBound(word: nat)
    requires word < 0x1_0000
    ensures -COMFORT_NOISE_LEVEL <= NoiseOf(word) < COMFORT_NOISE_LEVEL
  {
  }

  /** The register after n samples. */
  function ShiftMany(l: bv32, n: nat): (r: bv32)
    ensures 0 < l < 0x1_0000 ==> 0 < r < 0x1_0000
  {
    if n == 0 then l
    else
      var before := ShiftMany(l, n - 1);
      if 0 < l < 0x1_0000 then ShiftPermutesSixteenBits(before, before); Shift(before) else Shift(before)
  }

  function WithNoise(s: real, l: bv32): real {
    s + NoiseOf(l as nat)
  }

  /** The n-th word's noise on a sample. */
  function Noisy(s: real, l: bv32, n: nat): real {
    WithNoise(s, ShiftMany(l, n))
  }

  /** What is added to any sample is the word's own noise, at most 0.0015 either way. */
  lemma NoisyBound(s: real, l: bv32, n: nat)
    requires 0 < l < 0x1_0000
    ensures Noisy(s, l, n) - s == NoiseOf(ShiftMany(l, n) as nat)
    ensures Abs(Noisy(s, l, n) - s) <= COMFORT_NOISE_LEVEL
  {
    NoiseBound(ShiftMany(l, n) as nat);
  }

  class ComfortNoise {
    var lfsr: bv32

    constructor ()
      ensures lfsr == 0xACE1
    {
      lfsr := 0xACE1;
    }

    /** Adds one word's noise to each sample. */
    method Fill(samples: array<real>)
      requires 0 < lfsr < 0x1_0000
      modifies this, samples
      ensures lfsr == ShiftMany(old(lfsr), samples.Length) && 0 < lfsr < 0x1_0000
      ensures forall i :: 0 <= i < samples.Length ==>
                samples[i] == Noisy(old(samples[i]), old(lfsr), i + 1)
    {
      ghost var lfsr0, was := lfsr, samples[..];
      var i := 0;
      while i < samples.Length
        modifies this, samples
        invariant 0 <= i <= samples.Length
        invariant lfsr == ShiftMany(lfsr0, i)
        invariant samples[i..] == was[i..]
        invariant forall j :: 0 <= j < i ==> samples[j] == Noisy(was[j], lfsr0, j + 1)
      {
        lfsr := Shift(lfsr);
        assert samples[i] == samples[i..][0] == was[i];
        samples[i] := WithNoise(samples[i], lfsr);
        i := i + 1;
      }
    }
  }

  // ---- soft clip, lines 693-703 -------------------------------------------------------------------

  function SoftClip(x: real): real {
    if x > 1.0 then 1.0 + Knee(x - 1.0)
    else if x < -1.0 then -(1.0 + Knee(-x - 1.0))
    else x
  }

  function Knee(d: real): real {
    d / SquarePlusOne(d)
  }

  function SquarePlusOne(d: real): (r: real)
    ensures r >= 1.0
  {
    assert d * d >= 0.0;
    1.0 + d * d
  }

  lemma CancelFactor(x: real, y: real, q: real)
    requires q > 0.0 && x * q <= y * q
    ensures x <= y
  {
    assert (x - y) * q == x * q - y * q;
  }

  lemma HalfOfSquarePlusOne(d: real)
    ensures d <= 0.5 * SquarePlusOne(d)
  {
    assert (d - 1.0) * (d - 1.0) >= 0.0;
  }

  /** k is d / (1 + d * d), written without the division. */
  lemma KneeShrinks(d: real, q: real, k: real)
    requires d >= 0.0 && q == SquarePlusOne(d) && k * q == d
    ensures 0.0 <= k <= d
  {
    assert (d * d) * d >= 0.0;
    assert d * q == d + (d * d) * d;
    CancelFactor(k, d, q);
    CancelFactor(0.0, k, q);
  }

  lemma KneeIsQuotient(d: real)
    ensures Knee(d) * SquarePlusOne(d) == d
  {
  }

  /** The clip is the identity up to 1, never exceeds 3/2, never amplifies, and is odd. */
  lemma SoftClipBounds(x: real)
    ensures Abs(SoftClip(x)) <= 1.5
    ensures Abs(SoftClip(x)) <= MaxR(Abs(x), 1.0)
    ensures Abs(x) <= 1.0 ==> SoftClip(x) == x
    ensures Abs(x) > 1.0 ==> Abs(SoftClip(x)) >= 1.0
    ensures SoftClip(-x) == -SoftClip(x)
  {
    var d := if x > 1.0 then x - 1.0 else if x < -1.0 then -x - 1.0 else 0.0;
    KneeIsQuotient(d);
    HalfOfSquarePlusOne(d);
    CancelFactor(Knee(d), 0.5, SquarePlusOne(d));
    KneeShrinks(d, SquarePlusOne(d), Knee(d));
  }

  lemma NonNegativeProduct(a: real, b: real)
    requires a >= 0.0 && b >= 0.0
    ensures a * b >= 0.0
  {
  }

  lemma CrossMultiplied(d: real, e: real, p: real, q: real, k: real, m: real)
    requires 0.0 < p && 0.0 < q && k * p == d && m * q == e
    ensures k <= m <==> d * q <= e * p
  {
    assert d * q == k * (p * q) && e * p == m * (p * q);
    if d * q <= e * p {
      CancelFactor(k, m, p * q);
    }
    if k <= m {
      NonNegativeProduct(m - k, p * q);
    }
  }

  /** The knee rises as long as the product of the two excesses stays within 1, and falls after that. */
  lemma KneeOrder(d: real, e: real)
    requires 0.0 <= d < e
    ensures Knee(d) <= Knee(e) <==> d * e <= 1.0
  {
    var p, q := SquarePlusOne(d), SquarePlusOne(e);
    KneeIsQuotient(d);
    KneeIsQuotient(e);
    CrossMultiplied(d, e, p, q, Knee(d), Knee(e));
    assert e * p - d * q == (e - d) * (1.0 - d * e);
    SignOfProduct(e - d, 1.0 - d * e);
  }

  lemma SignOfProduct(a: real, b: real)
    requires a > 0.0
    ensures a * b >= 0.0 <==> b >= 0.0
  {
  }

  lemma AcrossTheMiddle(x: real, y: real)
    requires x < y && x <= 1.0 && -1.0 <= y
    ensures SoftClip(x) <= SoftClip(y)
  {
    SoftClipBounds(x);
    SoftClipBounds(y);
  }

  /** When the clip keeps the order of two inputs: always, except for two on the same side beyond 1 whose
      excesses over 1 multiply to more than 1. */
  lemma SoftClipOrder(x: real, y: real)
    requires x < y
    ensures 1.0 < x ==> (SoftClip(x) <= SoftClip(y) <==> (x - 1.0) * (y - 1.0) <= 1.0)
    ensures y < -1.0 ==> (SoftClip(x) <= SoftClip(y) <==> (x + 1.0) * (y + 1.0) <= 1.0)
    ensures x <= 1.0 && -1.0 <= y ==> SoftClip(x) <= SoftClip(y)
  {
    if 1.0 < x {
      KneeOrder(x - 1.0, y - 1.0);
    } else if y < -1.0 {
      KneeOrder(-y - 1.0, -x - 1.0);
      assert (-y - 1.0) * (-x - 1.0) == (x + 1.0) * (y + 1.0);
    } else {
      AcrossTheMiddle(x, y);
    }
  }

  ghost predicate MonotoneWithin(b: real) {
    forall x, y :: -b <= x < y <= b ==> SoftClip(x) <= SoftClip(y)
  }

  lemma ExcessesWithinOne(d: real, e: real)
    requires 0.0 <= d <= 1.0 && 0.0 <= e <= 1.0
    ensures d * e <= 1.0
  {
    NonNegativeProduct(d, 1.0 - e);
    assert d * (1.0 - e) == d - d * e;
  }

  lemma ExcessesBeyondOne(d: real, e: real)
    requires d > 1.0 && e > 1.0
    ensures d * e > 1.0
  {
    NonNegativeProduct(d - 1.0, e - 1.0);
    assert (d - 1.0) * (e - 1.0) == d * e - d - e + 1.0;
  }

  lemma FallsBeyondTwo(x: real, y: real)
    requires 2.0 < x < y
    ensures SoftClip(x) > SoftClip(y)
  {
    SoftClipOrder(x, y);
    ExcessesBeyondOne(x - 1.0, y - 1.0);
  }

  lemma RisesWithinTwo(x: real, y: real)
    requires -2.0 <= x < y <= 2.0
    ensures SoftClip(x) <= SoftClip(y)
  {
    SoftClipOrder(x, y);
    if 1.0 < x {
      ExcessesWithinOne(x - 1.0, y - 1.0);
    } else if y < -1.0 {
      ExcessesWithinOne(-y - 1.0, -x - 1.0);
      assert (-y - 1.0) * (-x - 1.0) == (x + 1.0) * (y + 1.0);
    }
  }

  /** The clip is monotone on -b..b exactly for b up to 2. */
  lemma MonotoneExactlyWithinTwo(b: real)
    ensures MonotoneWithin(b) <==> b <= 2.0
  {
    if b > 2.0 {
      var x := (b + 2.0) / 2.0;
      FallsBeyondTwo(x, b);
      assert -b <= x < b <= b;
    } else {
      forall x, y | -b <= x < y <= b
        ensures SoftClip(x) <= SoftClip(y)
      {
        RisesWithinTwo(x, y);
      }
    }
  }
}
