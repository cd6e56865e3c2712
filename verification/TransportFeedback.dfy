/** Sliding-window loss summaries and the pacer fed by them
    (crates/app_desktop/src/screen_share.rs, lines 19-21, 201-241 and 243-329). */
module TransportFeedback {
  import opened Common

  type Time = int

  const FEEDBACK_WINDOW: int := 4000
  const RECOVERY_WINDOWS: nat := 2
  const U32_MAX: nat := 0xFFFF_FFFF

  datatype Sample = Sample(completed: U32, dropped: U32, timedOut: U32)

  datatype Report = Report(sample: Sample, at: Time)

  datatype Summary = Summary(version: nat, completed: U32, dropped: U32, timedOut: U32)

  /** `wrapping_add(1)` on a u64. */
  function NextVersion(n: U64): (r: U64)
    ensures r == (n + 1) % 0x1_0000_0000_0000_0000
  {
    if n == 0xFFFF_FFFF_FFFF_FFFF then 0 else n + 1
  }

  function SaturatingAdd(a: U32, b: U32): U32 {
    Min(a + b, U32_MAX)
  }

  predicate Expired(r: Report, now: Time) {
    now - r.at > FEEDBACK_WINDOW
  }

  // ---- the specification: all reports since the last clear --------------------------------------

  /** The per-field sums over the reports that are at most four seconds old. */
  function Recent(log: seq<Report>, now: Time): (nat, nat, nat) {
    if log == [] then (0, 0, 0)
    else
      var (c, d, t) := Recent(log[..|log| - 1], now);
      var r := log[|log| - 1];
      if Expired(r, now) then (c, d, t)
      else (c + r.sample.completed, d + r.sample.dropped, t + r.sample.timedOut)
  }

  /** What one more report adds to the sums: its three counts while it is at most 4000 ms old, nothing after. */
  lemma OneMoreReport(log: seq<Report>, r: Report, now: Time)
    ensures var (c, d, t) := Recent(log, now);
            Recent(log + [r], now) ==
              if now - r.at <= 4000 then (c + r.sample.completed, d + r.sample.dropped, t + r.sample.timedOut)
              else (c, d, t)
  {
    assert (log + [r])[..|log|] == log;
  }

  function Capped(version: nat, sums: (nat, nat, nat)): Summary {
    Summary(version, Min(sums.0, U32_MAX), Min(sums.1, U32_MAX), Min(sums.2, U32_MAX))
  }

  ghost predicate InOrder(log: seq<Report>, now: Time) {
    && (forall i, j :: 0 <= i < j < |log| ==> log[i].at <= log[j].at)
    && (log != [] ==> log[|log| - 1].at <= now)
  }

  /** The queue is what is left of the log after dropping `gone` expired reports from its front. */
  ghost predicate Pruned(reports: seq<Report>, log: seq<Report>, gone: nat, now: Time) {
    gone <= |log| && reports == log[gone..] && forall i :: 0 <= i < gone ==> Expired(log[i], now)
  }

  lemma {:induction false} ExpiredPrefix(log: seq<Report>, k: nat, now: Time)
    requires k <= |log| && forall i :: 0 <= i < k ==> Expired(log[i], now)
    ensures Recent(log, now) == Recent(log[k..], now)
    decreases |log|
  {
    if k == |log| {
      NoneRecent(log, now);
    } else {
      var n := |log| - 1;
      ExpiredPrefix(log[..n], k, now);
      assert log[k..][..n - k] == log[..n][k..];
    }
  }

  lemma LogAppend(reports: seq<Report>, log: seq<Report>, gone: nat, now: Time, sample: Sample)
    requires InOrder(log, now) && Pruned(reports, log, gone, now)
    ensures InOrder(log + [Report(sample, now)], now)
    ensures Pruned(reports + [Report(sample, now)], log + [Report(sample, now)], gone, now)
  {
  }

  lemma {:induction false} NoneRecent(log: seq<Report>, now: Time)
    requires forall i :: 0 <= i < |log| ==> Expired(log[i], now)
    ensures Recent(log, now) == (0, 0, 0)
  {
    if log != [] {
      NoneRecent(log[..|log| - 1], now);
    }
  }

  /** `log`, `gone` and `clock` are history: every report since the last clear, how many of them the
      queue has shed, and the latest clock reading. */
  class FeedbackState {
    var version: U64
    var reports: seq<Report>
    ghost var log: seq<Report>
    ghost var gone: nat
    ghost var clock: Time

    ghost predicate Valid()
      reads this
    {
      InOrder(log, clock) && Pruned(reports, log, gone, clock)
    }

    constructor ()
      ensures Valid() && log == [] && version == 0
    {
      version, reports, log, gone, clock := 0, [], [], 0, 0;
    }

    /** Drops expired reports from the front; none is left anywhere in the queue. */
    method Prune(now: Time)
      requires Valid() && clock <= now
      modifies this`reports, this`gone, this`clock
      ensures Valid() && clock == now
      ensures forall i :: 0 <= i < |reports| ==> !Expired(reports[i], now)
    {
      clock := now;
      while reports != [] && Expired(reports[0], now)
        modifies this`reports, this`gone
        invariant Pruned(reports, log, gone, now)
        decreases |reports|
      {
        reports := reports[1..];
        gone := gone + 1;
      }
      if reports != [] {
        assert log[gone] == reports[0];
        forall i | 0 <= i < |reports|
          ensures !Expired(reports[i], now)
        {
          assert reports[i] == log[gone + i];
        }
      }
    }

    method Record(sample: Sample, now: Time)
      requires Valid() && clock <= now
      modifies this
      ensures Valid() && clock == now
      ensures log == old(log) + [Report(sample, now)]
      ensures version == NextVersion(old(version))
    {
      Prune(now);
      version := NextVersion(version);
      LogAppend(reports, log, gone, now, sample);
      reports, log := reports + [Report(sample, now)], log + [Report(sample, now)];
      assert Pruned(reports, log, gone, clock) && InOrder(log, clock);
    }

    /** The summary of the pruned queue is, field by field, the sum of everything recorded since the
        last clear and at most four seconds old, capped at the largest u32. */
    method Summarize(now: Time) returns (s: Summary)
      requires Valid() && clock <= now
      modifies this`reports, this`gone, this`clock
      ensures Valid() && clock == now
      ensures s == Capped(version, Recent(log, now))
    {
      Prune(now);
      ExpiredPrefix(log, gone, now);
      s := SumReports(now);
    }

    method SumReports(ghost now: Time) returns (s: Summary)
      requires forall i :: 0 <= i < |reports| ==> !Expired(reports[i], now)
      ensures s == Capped(version, Recent(reports, now))
    {
      s := Summary(version, 0, 0, 0);
      var i := 0;
      while i < |reports|
        invariant 0 <= i <= |reports|
        invariant s == Capped(version, Recent(reports[..i], now))
      {
        assert reports[..i + 1][..i] == reports[..i];
        var r := reports[i].sample;
        s := Summary(version, SaturatingAdd(s.completed, r.completed), SaturatingAdd(s.dropped, r.dropped),
                     SaturatingAdd(s.timedOut, r.timedOut));
        i := i + 1;
      }
      assert reports[..i] == reports;
    }

    method Clear()
      requires Valid()
      modifies this
      ensures Valid() && log == [] && version == NextVersion(old(version)) && clock == old(clock)
    {
      reports, log, gone := [], [], 0;
      version := NextVersion(version);
    }
  }

  // ---- the pacer ----------------------------------------------------------------------------------

  /** A timed-out frame, or at least 12 percent of the frames in trouble; the source compares the ratio
      in floating point, here it is the rational 3/25. */
  predicate IsUnderPressure(s: Summary) {
    var total := SaturatingAdd(SaturatingAdd(s.completed, s.dropped), s.timedOut);
    var troubled := SaturatingAdd(s.dropped, s.timedOut);
    total != 0 && (s.timedOut > 0 || 25 * troubled >= 3 * total)
  }

  /** On a window's true counts, pressure is reported exactly when a frame timed out or at least 3/25 of the
      frames were dropped, frames beyond the largest u32 not counting. */
  lemma PressureMeansLoss(version: nat, completed: nat, dropped: nat, timedOut: nat)
    ensures IsUnderPressure(Capped(version, (completed, dropped, timedOut)))
       <==> timedOut > 0 || (dropped > 0 && 25 * dropped >= 3 * Min(completed + dropped, U32_MAX))
  {
  }

  /** So capping never hides a loss, and reports one that is none exactly when the frames overflow a u32 and the
      dropped ones are less than 3/25 of them but at least 3/25 of the cap; for instance a thousand million of
      some nine thousand million. */
  lemma CappingOverReports(version: nat, completed: nat, dropped: nat)
    ensures var reported := IsUnderPressure(Capped(version, (completed, dropped, 0)));
            var loss := dropped > 0 && 25 * dropped >= 3 * (completed + dropped);
            && (loss ==> reported)
            && (reported && !loss <==> 3 * U32_MAX <= 25 * dropped < 3 * (completed + dropped))
    ensures IsUnderPressure(Capped(version, (0x2_0000_0000, 1_000_000_000, 0)))
  {
  }

  datatype Pacing = Pacing(level: Byte, stableWindows: Byte)

  function Pace(p: Pacing, s: Summary): Pacing {
    if s.version == 0 then p
    else if IsUnderPressure(s) then Pacing(Min(Min(p.level + 1, 0xFF), 2), 0)
    else
      var stable := Min(p.stableWindows + 1, 0xFF);
      if stable >= RECOVERY_WINDOWS && p.level > 0 then Pacing(p.level - 1, 0)
      else Pacing(p.level, stable)
  }

  class TransportPacer {
    var level: Byte
    var stableWindows: Byte

    constructor ()
      ensures level == 0 && stableWindows == 0
    {
      level, stableWindows := 0, 0;
    }

    /** Returns whether the level changed. */
    method RecordFeedback(s: Summary) returns (changed: bool)
      modifies this
      ensures Pacing(level, stableWindows) == Pace(old(Pacing(level, stableWindows)), s)
      ensures changed <==> level != old(level)
    {
      if s.version == 0 {
        return false;
      }
      if IsUnderPressure(s) {
        stableWindows := 0;
        var next := Min(Min(level + 1, 0xFF), 2);
        changed := next != level;
        level := next;
        return;
      }
      stableWindows := Min(stableWindows + 1, 0xFF);
      if stableWindows >= RECOVERY_WINDOWS && level > 0 {
        level := level - 1;
        stableWindows := 0;
        return true;
      }
      return false;
    }
  }

  /** `calmRun` counts the calm summaries since the last pressured one or fall. */
  datatype PacerTally = PacerTally(pacing: Pacing, rises: nat, falls: nat, pressured: nat, calm: nat, calmRun: nat)

  function Observe(t: PacerTally, s: Summary): PacerTally {
    var next := Pace(t.pacing, s);
    var fell := next.level < t.pacing.level;
    if s.version == 0 then t
    else
      PacerTally(next,
                 t.rises + (if next.level > t.pacing.level then 1 else 0),
                 t.falls + (if fell then 1 else 0),
                 t.pressured + (if IsUnderPressure(s) then 1 else 0),
                 t.calm + (if IsUnderPressure(s) then 0 else 1),
                 if IsUnderPressure(s) || fell then 0 else t.calmRun + 1)
  }

  function Run(summaries: seq<Summary>): PacerTally {
    if summaries == [] then PacerTally(Pacing(0, 0), 0, 0, 0, 0, 0)
    else Observe(Run(summaries[..|summaries| - 1]), summaries[|summaries| - 1])
  }

  ghost predicate PacerInv(t: PacerTally) {
    && t.pacing.level == t.rises - t.falls <= 2
    && t.pacing.stableWindows == Min(t.calmRun, 0xFF)
    && (t.pacing.level > 0 ==> t.calmRun < RECOVERY_WINDOWS)
    && t.pressured >= t.rises
    && t.calm >= 2 * t.falls + t.calmRun
  }

  lemma {:induction false} PacerRunInv(summaries: seq<Summary>)
    ensures PacerInv(Run(summaries))
  {
    if summaries != [] {
      PacerRunInv(summaries[..|summaries| - 1]);
    }
  }

  /** Over any summaries the level is rises minus falls and stays in 0..2, every rise takes a pressured
      summary and every fall two calm ones. */
  lemma LevelOverAnyRun(summaries: seq<Summary>)
    ensures var t := Run(summaries);
            && t.pacing.level == t.rises - t.falls && t.rises - t.falls <= 2
            && t.pressured >= t.rises && t.calm >= 2 * t.falls
  {
    PacerRunInv(summaries);
  }

  /** The level rises, by one, exactly at a pressured summary with the level below 2; one of version 0 counts for
      nothing. */
  lemma RisesIffPressured(p: Pacing, s: Summary)
    requires p.level <= 2
    ensures var p' := Pace(p, s);
            && (p'.level > p.level <==> s.version != 0 && IsUnderPressure(s) && p.level < 2)
            && p'.level <= p.level + 1
            && (s.version == 0 ==> p' == p)
  {
  }

  /** The level falls exactly at the second consecutive calm summary since the last pressured one or
      fall, and only from a raised level. */
  lemma FallsAfterTwoCalmWindows(summaries: seq<Summary>, s: Summary)
    ensures var t := Run(summaries);
            Pace(t.pacing, s).level < t.pacing.level
            <==> s.version != 0 && !IsUnderPressure(s) && t.calmRun == 1 && t.pacing.level > 0
  {
    PacerRunInv(summaries);
    FallsFrom(Run(summaries), s);
  }

  lemma FallsFrom(t: PacerTally, s: Summary)
    requires PacerInv(t)
    ensures Pace(t.pacing, s).level < t.pacing.level
            <==> s.version != 0 && !IsUnderPressure(s) && t.calmRun == 1 && t.pacing.level > 0
  {
  }
}
