/** The server's lock-free rate limiter `atomic_rate_check`
    (crates/signaling_server/src/validation.rs, lines 13-38). */
module RateLimiter {
  import opened Common

  const WINDOW_MS: nat := 1000

  function WrappingSub64(a: U64, b: U64): U64 {
    if b <= a then a - b else a + 0x1_0000_0000_0000_0000 - b
  }

  /** `fetch_add(1)` on a u32. */
  function Increment(n: U32): U32 {
    if n == 0xFFFF_FFFF then 0 else n + 1
  }

  // ---- one caller at a time ---------------------------------------------------------------------

  /** One call: whether it is admitted, and the window start and counter it leaves. */
  function Check(window: U64, count: U32, limit: U32, now: U64): (bool, U64, U32) {
    if WrappingSub64(now, window) >= WINDOW_MS then (true, now, 1)
    else (count < limit, window, Increment(count))
  }

  class Limiter {
    var windowMs: U64
    var counter: U32

    method AtomicRateCheck(now: U64, limit: U32) returns (admitted: bool)
      modifies this
      ensures (admitted, windowMs, counter) == Check(old(windowMs), old(counter), limit, now)
    {
      var prev := windowMs;
      if WrappingSub64(now, prev) >= WINDOW_MS {
        if windowMs == prev {
          windowMs := now;
          counter := 1;
          return true;
        }
      }
      var count := counter;
      counter := Increment(counter);
      admitted := count < limit;
    }
  }

  /** The verdicts of calls made one after another at the given times. */
  function Verdicts(window: U64, count: U32, limit: U32, times: seq<U64>): (r: seq<bool>)
    ensures |r| == |times|
    decreases |times|
  {
    if times == [] then []
    else
      var (admitted, window', count') := Check(window, count, limit, times[0]);
      [admitted] + Verdicts(window', count', limit, times[1..])
  }

  /** The specification: calls are grouped into windows, a window being opened by the first call at
      least 1000 ms after the previous opening; rank counts the calls of a window before this one. */
  function Ranked(start: int, rank: nat, limit: nat, times: seq<U64>): (r: seq<bool>)
    ensures |r| == |times|
    decreases |times|
  {
    if times == [] then []
    else if times[0] - start >= WINDOW_MS then [true] + Ranked(times[0], 1, limit, times[1..])
    else [rank < limit] + Ranked(start, rank + 1, limit, times[1..])
  }

  ghost predicate Nondecreasing(from: int, times: seq<U64>)
    decreases |times|
  {
    times != [] ==> from <= times[0] && Nondecreasing(times[0], times[1..])
  }

  /** No window meets 2^32 calls or more before the next one opens, so the counter never overflows. */
  ghost predicate FewPerWindow(start: int, rank: nat, times: seq<U64>)
    decreases |times|
  {
    times != [] ==>
      if times[0] - start >= WINDOW_MS then FewPerWindow(times[0], 1, times[1..])
      else rank < TWO32 && FewPerWindow(start, rank + 1, times[1..])
  }

  /** On a non-decreasing clock, over any number of windows of fewer than 2^32 calls each, exactly the first
      `limit` calls of each window are admitted, the opener of a later window always. */
  lemma AdmitsFirstOfEachWindow(window: U64, count: U32, limit: U32, times: seq<U64>)
    requires Nondecreasing(window, times) && FewPerWindow(window, count, times)
    ensures Verdicts(window, count, limit, times) == Ranked(window, count, limit, times)
  {
    CounterIsRank(window, count, limit, times);
  }

  lemma {:induction false} CounterIsRank(window: U64, rank: nat, limit: U32, times: seq<U64>)
    requires Nondecreasing(window, times) && FewPerWindow(window, rank, times)
    ensures Verdicts(window, rank % TWO32, limit, times) == Ranked(window, rank, limit, times)
    decreases |times|
  {
    if times != [] {
      if times[0] - window >= WINDOW_MS {
        CounterIsRank(times[0], 1, limit, times[1..]);
      } else {
        LaterClock(window, times[0], times[1..]);
        CounterIsRank(window, rank + 1, limit, times[1..]);
      }
    }
  }

  lemma LaterClock(from: int, later: int, times: seq<U64>)
    requires from <= later && Nondecreasing(later, times)
    ensures Nondecreasing(from, times)
  {
  }

  function Admissions(verdicts: seq<bool>): nat {
    if verdicts == [] then 0 else (if verdicts[0] then 1 else 0) + Admissions(verdicts[1..])
  }

  /** Within one window at most the remaining allowance is admitted. */
  lemma {:induction false} SameWindowBound(start: int, rank: nat, limit: nat, times: seq<U64>)
    requires forall i :: 0 <= i < |times| ==> times[i] - start < WINDOW_MS
    ensures Admissions(Ranked(start, rank, limit, times)) <= Max(0, limit - rank)
    decreases |times|
  {
    if times != [] {
      SameWindowBound(start, rank + 1, limit, times[1..]);
    }
  }

  /** Calls less than 1000 ms apart meet at most two windows, so at most twice max(1, limit) of them
      are admitted. */
  lemma {:induction false} AnySecondBound(start: int, rank: nat, limit: nat, times: seq<U64>, from: int)
    requires forall i :: 0 <= i < |times| ==> from <= times[i] < from + WINDOW_MS
    requires Nondecreasing(from, times)
    ensures Admissions(Ranked(start, rank, limit, times)) <= Max(0, limit - rank) + Max(1, limit)
    decreases |times|
  {
    if times != [] {
      if times[0] - start >= WINDOW_MS {
        forall i | 0 <= i < |times[1..]|
          ensures times[1..][i] - times[0] < WINDOW_MS
        {
        }
        SameWindowBound(times[0], 1, limit, times[1..]);
      } else {
        LaterClock(from, times[0], times[1..]);
        AnySecondBound(start, rank + 1, limit, times[1..], from);
      }
    }
  }

  /** The opening of the current window and the rank of the next call, after calls at these times. */
  function RankAfter(start: int, rank: nat, times: seq<U64>): (int, nat)
    decreases |times|
  {
    if times == [] then (start, rank)
    else if times[0] - start >= WINDOW_MS then RankAfter(times[0], 1, times[1..])
    else RankAfter(start, rank + 1, times[1..])
  }

  lemma {:induction false} RankedSuffix(start: int, rank: nat, limit: nat, times: seq<U64>, i: nat)
    requires i <= |times|
    ensures var (s, r) := RankAfter(start, rank, times[..i]);
            Ranked(start, rank, limit, times)[i..] == Ranked(s, r, limit, times[i..])
    decreases i
  {
    if i > 0 {
      assert times[..i][1..] == times[1..][..i - 1];
      assert times[1..][i - 1..] == times[i..];
      if times[0] - start >= WINDOW_MS {
        RankedSuffix(times[0], 1, limit, times[1..], i - 1);
      } else {
        RankedSuffix(start, rank + 1, limit, times[1..], i - 1);
      }
    } else {
      assert times[..0] == [] && times[0..] == times;
    }
  }

  lemma {:induction false} SuffixOrdered(from: int, times: seq<U64>, i: nat)
    requires i < |times| && Nondecreasing(from, times)
    ensures Nondecreasing(times[i], times[i..])
    decreases i
  {
    if i > 0 {
      SuffixOrdered(times[0], times[1..], i - 1);
      assert times[1..][i - 1..] == times[i..];
    } else {
      assert times[0..] == times;
    }
  }

  lemma {:induction false} PrefixOrdered(from: int, times: seq<U64>, n: nat)
    requires n <= |times| && Nondecreasing(from, times)
    ensures Nondecreasing(from, times[..n])
    decreases n
  {
    if n > 0 {
      PrefixOrdered(times[0], times[1..], n - 1);
      assert times[..n][1..] == times[1..][..n - 1];
    }
  }

  /** In any such run of calls, however long, any stretch of them that spans less than 1000 ms admits at
      most 2 * max(1, limit). */
  lemma AtMostTwiceTheLimitPerSecond(window: U64, count: U32, limit: U32, times: seq<U64>, i: nat, j: nat)
    requires Nondecreasing(window, times) && FewPerWindow(window, count, times)
    requires i <= j <= |times| && (forall k :: i <= k < j ==> times[i] <= times[k] < times[i] + WINDOW_MS)
    ensures Admissions(Verdicts(window, count, limit, times)[i..j]) <= 2 * Max(1, limit)
  {
    AdmitsFirstOfEachWindow(window, count, limit, times);
    if i < j {
      var (s, r) := RankAfter(window, count, times[..i]);
      RankedSuffix(window, count, limit, times, i);
      RankedPrefix(s, r, limit, times[i..], j - i);
      assert times[i..][..j - i] == times[i..j];
      SuffixOrdered(window, times, i);
      PrefixOrdered(times[i], times[i..], j - i);
      AnySecondBound(s, r, limit, times[i..j], times[i]);
      var all := Ranked(window, count, limit, times);
      assert all[i..j] == all[i..][..j - i];
    }
  }

  lemma {:induction false} RankedPrefix(start: int, rank: nat, limit: nat, times: seq<U64>, n: nat)
    requires n <= |times|
    ensures Ranked(start, rank, limit, times)[..n] == Ranked(start, rank, limit, times[..n])
    decreases n
  {
    if n > 0 {
      assert times[..n][1..] == times[1..][..n - 1];
      if times[0] - start >= WINDOW_MS {
        RankedPrefix(times[0], 1, limit, times[1..], n - 1);
      } else {
        RankedPrefix(start, rank + 1, limit, times[1..], n - 1);
      }
    }
  }

  // ---- any number of callers --------------------------------------------------------------------

  /** A call between its atomic operations: read the clock, load the window, then either the
      compare-exchange followed by the counter store, or the fetch-add. */
  datatype Call =
    | Begin
    | HasClock(now: U64)
    | Expired(now: U64, prev: U64)
    | Winner
    | Counting
    | Returned(admitted: bool)

  /** The fields after `calls` are history: `resets` counts successful compare-exchanges, `stores` the counter
      stores, `adds` the fetch-adds, `sinceStore` those since the last store, and `wraps` the times the
      counter overflowed. */
  datatype State = State(
    window: U64,
    counter: U32,
    calls: seq<Call>,
    admitted: nat,
    resets: nat,
    stores: nat,
    adds: nat,
    sinceStore: nat,
    wraps: nat)

  datatype Action = Action(call: nat, clock: U64)

  function Begun(s: State, i: nat, c: Call): State
    requires i < |s.calls|
  {
    s.(calls := s.calls[i := c])
  }

  function Step(s: State, limit: U32, a: Action): State {
    if a.call >= |s.calls| then s
    else
      var i := a.call;
      match s.calls[i]
      case Begin => Begun(s, i, HasClock(a.clock))
      case HasClock(now) =>
        if WrappingSub64(now, s.window) >= WINDOW_MS then Begun(s, i, Expired(now, s.window))
        else Begun(s, i, Counting)
      case Expired(now, prev) =>
        if s.window == prev then Begun(s, i, Winner).(window := now, resets := s.resets + 1)
        else Begun(s, i, Counting)
      case Winner =>
        Begun(s, i, Returned(true)).(counter := 1, stores := s.stores + 1, sinceStore := 0, admitted := s.admitted + 1)
      case Counting =>
        var ok := s.counter < limit;
        Begun(s, i, Returned(ok)).(
          counter := Increment(s.counter),
          adds := s.adds + 1,
          sinceStore := s.sinceStore + 1,
          wraps := s.wraps + (if s.counter == 0xFFFF_FFFF then 1 else 0),
          admitted := s.admitted + (if ok then 1 else 0))
      case Returned(_) => s
  }

  function Init(window: U64, calls: nat): State {
    State(window, 0, seq(calls, _ => Begin), 0, 0, 0, 0, 0, 0)
  }

  function Run(s: State, limit: U32, schedule: seq<Action>): State {
    if schedule == [] then s
    else Step(Run(s, limit, schedule[..|schedule| - 1]), limit, schedule[|schedule| - 1])
  }

  function CountCalls(calls: seq<Call>, what: Call -> bool): nat {
    if calls == [] then 0
    else CountCalls(calls[..|calls| - 1], what) + (if what(calls[|calls| - 1]) then 1 else 0)
  }

  lemma {:induction false} CountUpdate(calls: seq<Call>, i: nat, c: Call, what: Call -> bool)
    requires i < |calls|
    ensures CountCalls(calls[i := c], what)
            == CountCalls(calls, what) - (if what(calls[i]) then 1 else 0) + (if what(c) then 1 else 0)
    decreases |calls|
  {
    var m := |calls| - 1;
    if i < m {
      CountUpdate(calls[..m], i, c, what);
      assert calls[i := c][..m] == calls[..m][i := c];
    } else {
      assert calls[i := c][..m] == calls[..m];
    }
  }

  predicate IsWinner(c: Call) {
    c.Winner?
  }

  predicate IsAdmitted(c: Call) {
    c == Returned(true)
  }

  ghost predicate Inv(s: State, limit: U32) {
    var allowance := Max(1, limit);
    && s.admitted <= allowance * (s.stores + s.wraps) + Min(s.counter, allowance)
    && s.resets == s.stores + CountCalls(s.calls, IsWinner)
    && s.admitted == CountCalls(s.calls, IsAdmitted)
    && s.wraps * TWO32 + s.counter <= s.adds + s.stores
  }

  lemma StepBound(s: State, limit: U32, a: Action)
    requires Inv(s, limit)
    ensures var s', allowance := Step(s, limit, a), Max(1, limit);
            s'.admitted <= allowance * (s'.stores + s'.wraps) + Min(s'.counter, allowance)
    ensures var s' := Step(s, limit, a);
            s'.wraps * TWO32 + s'.counter <= s'.adds + s'.stores
  {
    var s', allowance := Step(s, limit, a), Max(1, limit);
    var epochs, epochs' := s.stores + s.wraps, s'.stores + s'.wraps;
    if epochs' == epochs + 1 {
      assert allowance * epochs' == allowance * epochs + allowance;
    } else {
      assert epochs' == epochs;
    }
  }

  lemma StepCounts(s: State, limit: U32, a: Action)
    requires Inv(s, limit)
    ensures var s' := Step(s, limit, a);
            && s'.resets == s'.stores + CountCalls(s'.calls, IsWinner)
            && s'.admitted == CountCalls(s'.calls, IsAdmitted)
  {
    if a.call < |s.calls| {
      var s' := Step(s, limit, a);
      var c := s'.calls[a.call];
      assert s'.calls == s.calls[a.call := c];
      CountUpdate(s.calls, a.call, c, IsWinner);
      CountUpdate(s.calls, a.call, c, IsAdmitted);
    }
  }

  lemma {:induction false} CountBegins(n: nat, what: Call -> bool)
    requires !what(Begin)
    ensures CountCalls(seq(n, _ => Begin), what) == 0
  {
    if n > 0 {
      var calls := seq(n, _ => Begin);
      CountBegins(n - 1, what);
      assert calls[..n - 1] == seq(n - 1, _ => Begin);
    }
  }

  lemma {:induction false} RunInv(window: U64, calls: nat, limit: U32, schedule: seq<Action>)
    ensures Inv(Run(Init(window, calls), limit, schedule), limit)
  {
    if schedule == [] {
      CountBegins(calls, IsWinner);
      CountBegins(calls, IsAdmitted);
    } else {
      var before := Run(Init(window, calls), limit, schedule[..|schedule| - 1]);
      RunInv(window, calls, limit, schedule[..|schedule| - 1]);
      StepBound(before, limit, schedule[|schedule| - 1]);
      StepCounts(before, limit, schedule[|schedule| - 1]);
    }
  }

  /** Under any interleaving and any clock readings, the calls that return true number at most
      max(1, limit) for each successful window reset, plus one more such share, plus one for every
      time the counter wraps around 2^32. */
  lemma AdmissionsBoundedByResets(window: U64, calls: nat, limit: U32, schedule: seq<Action>)
    ensures var s := Run(Init(window, calls), limit, schedule);
            && CountCalls(s.calls, IsAdmitted) <= Max(1, limit) * (s.resets + s.wraps + 1)
            && s.wraps * TWO32 <= s.adds + s.stores
  {
    RunInv(window, calls, limit, schedule);
    var s, allowance := Run(Init(window, calls), limit, schedule), Max(1, limit);
    assert allowance * (s.stores + s.wraps) + allowance == allowance * (s.stores + s.wraps + 1);
    MulMonotone(allowance, s.stores + s.wraps + 1, s.resets + s.wraps + 1);
  }

  /** Fewer than 2^32 calls touch the counter between two resets of it: the store and fewer than 2^32 - 1
      fetch-adds. */
  ghost predicate FewBetweenResets(window: U64, calls: nat, limit: U32, schedule: seq<Action>) {
    forall k :: 0 <= k <= |schedule| ==> Run(Init(window, calls), limit, schedule[..k]).sinceStore < TWO32 - 1
  }

  lemma {:induction false} NeverWraps(window: U64, calls: nat, limit: U32, schedule: seq<Action>)
    requires FewBetweenResets(window, calls, limit, schedule)
    ensures var s := Run(Init(window, calls), limit, schedule);
            s.wraps == 0 && s.counter == s.sinceStore + (if s.stores == 0 then 0 else 1)
  {
    if schedule != [] {
      var init := schedule[..|schedule| - 1];
      assert schedule[..|schedule|] == schedule;
      forall k | 0 <= k <= |init|
        ensures Run(Init(window, calls), limit, init[..k]).sinceStore < TWO32 - 1
      {
        assert init[..k] == schedule[..k];
      }
      NeverWraps(window, calls, limit, init);
      assert schedule[..|init|] == init;
    }
  }

  /** With fewer than 2^32 calls between resets, however many there are in all, at most max(1, limit) calls
      are admitted for each successful window reset, plus one more such share. */
  lemma FewCallsBoundedByResets(window: U64, calls: nat, limit: U32, schedule: seq<Action>)
    requires FewBetweenResets(window, calls, limit, schedule)
    ensures var s := Run(Init(window, calls), limit, schedule);
            CountCalls(s.calls, IsAdmitted) <= Max(1, limit) * (s.resets + 1)
  {
    var s := Run(Init(window, calls), limit, schedule);
    AdmissionsBoundedByResets(window, calls, limit, schedule);
    NeverWraps(window, calls, limit, schedule);
    assert s.resets + s.wraps + 1 == s.resets + 1;
  }

  lemma MulMonotone(a: nat, x: nat, y: nat)
    requires x <= y
    ensures a * x <= a * y
  {
    assert a * y == a * x + a * (y - x);
  }

  /** Under any interleaving with fewer than 2^32 calls between resets, a call that counts is refused exactly when
      the reset and the calls counted since make up the limit. */
  lemma RefusedIffLimitReached(window: U64, calls: nat, limit: U32, schedule: seq<Action>, a: Action)
    requires FewBetweenResets(window, calls, limit, schedule)
    requires var s := Run(Init(window, calls), limit, schedule); a.call < |s.calls| && s.calls[a.call].Counting?
    ensures var s := Run(Init(window, calls), limit, schedule);
            Step(s, limit, a).calls[a.call] ==
              Returned(s.sinceStore + (if s.stores == 0 then 0 else 1) < limit)
  {
    NeverWraps(window, calls, limit, schedule);
  }

  /** A call that takes all its steps with nothing in between: the steps left over do nothing. */
  function CallAlone(i: nat, clock: U64): seq<Action> {
    [Action(i, clock), Action(i, 0), Action(i, 0), Action(i, 0)]
  }

  lemma FourSteps(s: State, limit: U32, a: Action, b: Action)
    ensures Run(s, limit, [a, b, b, b]) == Step(Step(Step(Step(s, limit, a), limit, b), limit, b), limit, b)
  {
    assert [a, b, b, b][..3] == [a, b, b] && [a, b, b][..2] == [a, b] && [a, b][..1] == [a] && [a][..0] == [];
    assert Run(s, limit, []) == s && Run(s, limit, [a]) == Step(s, limit, a);
    assert Run(s, limit, [a, b]) == Step(Step(s, limit, a), limit, b);
    assert Run(s, limit, [a, b, b]) == Step(Step(Step(s, limit, a), limit, b), limit, b);
  }

  /** Such a call has the verdict and the effect of the sequential specification, in any state. */
  lemma CallAloneIsCheck(s: State, limit: U32, i: nat, clock: U64)
    requires i < |s.calls| && s.calls[i] == Begin
    ensures var s' := Run(s, limit, CallAlone(i, clock));
            var (admitted, window, counter) := Check(s.window, s.counter, limit, clock);
            s'.calls == s.calls[i := Returned(admitted)] && s'.window == window && s'.counter == counter
  {
    var a, b := Action(i, clock), Action(i, 0);
    FourSteps(s, limit, a, b);
    var s1 := Step(s, limit, a);
    assert s1.calls == s.calls[i := HasClock(clock)];
    var s2 := Step(s1, limit, b);
    if WrappingSub64(clock, s.window) >= WINDOW_MS {
      assert s2.calls == s.calls[i := Expired(clock, s.window)];
      assert Step(s2, limit, b).calls == s.calls[i := Winner];
    } else {
      assert s2.calls == s.calls[i := Counting];
      assert Step(s2, limit, b).calls == s.calls[i := Returned(s.counter < limit)];
    }
  }

  // ---- why time bounds need one caller at a time -------------------------------------------------

  /** A call with clock reading `now` tries to open a window exactly when the window it loads is at least
      1000 ms old, or is newer than its reading: the difference then wraps around 2^64. */
  lemma ExpiresIff(s: State, limit: U32, a: Action)
    requires a.call < |s.calls| && s.calls[a.call].HasClock?
    ensures var now := s.calls[a.call].now;
            Step(s, limit, a).calls[a.call] == Expired(now, s.window)
            <==> (now >= s.window + WINDOW_MS
                  || 0 < s.window - now <= 0x1_0000_0000_0000_0000 - WINDOW_MS)
  {
  }

  /** A step moves the window back exactly when it is the compare-exchange of a call that has loaded the
      current window but read the clock before it. */
  lemma WindowMovesBackIff(s: State, limit: U32, a: Action)
    ensures Step(s, limit, a).window < s.window
       <==> (&& a.call < |s.calls| && s.calls[a.call].Expired?
             && s.calls[a.call].prev == s.window && s.calls[a.call].now < s.window)
  {
  }

  /** Calls 0 to n - 1 read the clock in turn, at base, base + 1, ... */
  function ReadClocks(n: nat, base: U64): (schedule: seq<Action>)
    requires base + n < 0x1_0000_0000_0000_0000
  {
    if n == 0 then [] else ReadClocks(n - 1, base) + [Action(n - 1, base + n - 1)]
  }

  /** Call i finishes undisturbed. */
  function FinishCall(i: nat): seq<Action> {
    [Action(i, 0), Action(i, 0), Action(i, 0)]
  }

  /** Calls n - 1 down to 0 finish one after another, the latest clock reading first. */
  function FinishBackwards(n: nat): seq<Action> {
    if n == 0 then [] else FinishCall(n - 1) + FinishBackwards(n - 1)
  }

  lemma {:induction false} RunConcat(s: State, limit: U32, a: seq<Action>, b: seq<Action>)
    ensures Run(s, limit, a + b) == Run(Run(s, limit, a), limit, b)
    decreases |b|
  {
    if b == [] {
      assert a + b == a;
    } else {
      assert (a + b)[..|a + b| - 1] == a + b[..|b| - 1];
      RunConcat(s, limit, a, b[..|b| - 1]);
    }
  }

  lemma {:induction false} ClocksRead(calls: nat, n: nat, base: U64, limit: U32)
    requires n <= calls && base + n < 0x1_0000_0000_0000_0000
    ensures var s := Run(Init(0, calls), limit, ReadClocks(n, base));
            && s.window == 0 && |s.calls| == calls
            && (forall i :: 0 <= i < n ==> s.calls[i] == HasClock(base + i))
            && (forall i :: n <= i < calls ==> s.calls[i] == Begin)
  {
    if n > 0 {
      ClocksRead(calls, n - 1, base, limit);
      var schedule := ReadClocks(n, base);
      assert schedule[..|schedule| - 1] == ReadClocks(n - 1, base);
    }
  }

  /** A call whose reading is older than the window, or at least 1000 ms newer, is admitted. */
  lemma DelayedCallIsAdmitted(s: State, limit: U32, i: nat)
    requires i < |s.calls| && s.calls[i].HasClock?
    requires WrappingSub64(s.calls[i].now, s.window) >= WINDOW_MS
    ensures var s' := Run(s, limit, FinishCall(i));
            s'.window == s.calls[i].now && s'.calls == s.calls[i := Returned(true)]
  {
    var now, a := s.calls[i].now, Action(i, 0);
    var s1 := Step(s, limit, a);
    assert s1.calls == s.calls[i := Expired(now, s.window)];
    var s2 := Step(s1, limit, a);
    assert s2.calls == s.calls[i := Winner] && s2.window == now;
    var s3 := Step(s2, limit, a);
    assert s3.calls == s.calls[i := Returned(true)] && s3.window == now;
    assert [a, a, a][..2] == [a, a] && [a, a][..1] == [a] && [a][..0] == [];
    assert Run(s, limit, []) == s && Run(s, limit, [a]) == s1 && Run(s, limit, [a, a]) == s2;
  }

  lemma {:induction false} AllDelayedAreAdmitted(s: State, limit: U32, n: nat, base: U64)
    requires n <= |s.calls| && base + n < 0x1_0000_0000_0000_0000 - WINDOW_MS
    requires forall i :: 0 <= i < n ==> s.calls[i] == HasClock(base + i)
    requires n > 0 ==> WrappingSub64(base + n - 1, s.window) >= WINDOW_MS
    ensures var s' := Run(s, limit, FinishBackwards(n));
            && |s'.calls| == |s.calls|
            && (forall i :: 0 <= i < n ==> s'.calls[i] == Returned(true))
            && (forall i :: n <= i < |s.calls| ==> s'.calls[i] == s.calls[i])
    decreases n
  {
    if n > 0 {
      DelayedCallIsAdmitted(s, limit, n - 1);
      RunConcat(s, limit, FinishCall(n - 1), FinishBackwards(n - 1));
      AllDelayedAreAdmitted(Run(s, limit, FinishCall(n - 1)), limit, n - 1, base);
    }
  }

  lemma {:induction false} AllCounted(calls: seq<Call>, what: Call -> bool)
    requires forall i :: 0 <= i < |calls| ==> what(calls[i])
    ensures CountCalls(calls, what) == |calls|
  {
    if calls != [] {
      AllCounted(calls[..|calls| - 1], what);
    }
  }

  /** No bound in time holds for concurrent callers: for every n there is a run in which n calls, with clock
      readings 1 ms apart, are all admitted whatever the limit. They read the clock in turn and finish
      in the opposite order. */
  lemma DelayedCallersDefeatAnyTimeBound(n: nat, base: U64, limit: U32)
    requires WINDOW_MS <= base && base + n < 0x1_0000_0000_0000_0000 - WINDOW_MS
    ensures var schedule := ReadClocks(n, base) + FinishBackwards(n);
            CountCalls(Run(Init(0, n), limit, schedule).calls, IsAdmitted) == n
  {
    ClocksRead(n, n, base, limit);
    RunConcat(Init(0, n), limit, ReadClocks(n, base), FinishBackwards(n));
    AllDelayedAreAdmitted(Run(Init(0, n), limit, ReadClocks(n, base)), limit, n, base);
    AllCounted(Run(Init(0, n), limit, ReadClocks(n, base) + FinishBackwards(n)).calls, IsAdmitted);
  }

  // ---- what holds in time for interleaved callers ------------------------------------------------

  /** A call that loads the window at this step meets one no newer than its clock reading. */
  predicate FreshLoad(s: State, a: Action) {
    a.call < |s.calls| && s.calls[a.call].HasClock? ==> s.window <= s.calls[a.call].now
  }

  /** No load of the run is stale, and no clock reading is later than t. */
  ghost predicate FreshUntil(start: State, limit: U32, schedule: seq<Action>, t: U64) {
    schedule != [] ==>
      var init, a := schedule[..|schedule| - 1], schedule[|schedule| - 1];
      FreshUntil(start, limit, init, t) && FreshLoad(Run(start, limit, init), a) && a.clock <= t
  }

  /** Every reset has moved the window on by 1000 ms, and so will every reset under way. */
  ghost predicate WindowPaid(start: U64, s: State, t: U64) {
    && start + 1000 * s.resets <= s.window <= t
    && forall i :: 0 <= i < |s.calls| ==> CallPaid(s.calls[i], t)
  }

  ghost predicate CallPaid(c: Call, t: U64) {
    match c
    case HasClock(now) => now <= t
    case Expired(now, prev) => prev + WINDOW_MS <= now <= t
    case _ => true
  }

  lemma StepPaysForWindow(start: U64, s: State, limit: U32, a: Action, t: U64)
    requires WindowPaid(start, s, t) && FreshLoad(s, a) && a.clock <= t
    ensures WindowPaid(start, Step(s, limit, a), t) && s.window <= Step(s, limit, a).window
  {
    if a.call < |s.calls| {
      assert CallPaid(s.calls[a.call], t);
    }
  }

  lemma {:induction false} RunPaysForWindow(start: U64, calls: nat, limit: U32, schedule: seq<Action>, t: U64)
    requires start <= t && FreshUntil(Init(start, calls), limit, schedule, t)
    ensures WindowPaid(start, Run(Init(start, calls), limit, schedule), t)
  {
    if schedule != [] {
      var init := schedule[..|schedule| - 1];
      RunPaysForWindow(start, calls, limit, init, t);
      StepPaysForWindow(start, Run(Init(start, calls), limit, init), limit, schedule[|schedule| - 1], t);
    }
  }

  /** Under any interleaving in which no load is stale, the resets are at most one for each 1000 ms since the
      initial window, and the admissions at most max(1, limit) for each of those, one share more, and one
      for every overflow of the counter. */
  lemma FreshCallersAdmitByTheSecond(start: U64, calls: nat, limit: U32, schedule: seq<Action>, t: U64)
    requires start <= t && FreshUntil(Init(start, calls), limit, schedule, t)
    ensures var s := Run(Init(start, calls), limit, schedule);
            && s.resets <= (t - start) / 1000
            && CountCalls(s.calls, IsAdmitted) <= Max(1, limit) * ((t - start) / 1000 + s.wraps + 1)
  {
    var s := Run(Init(start, calls), limit, schedule);
    RunPaysForWindow(start, calls, limit, schedule, t);
    AdmissionsBoundedByResets(start, calls, limit, schedule);
    MulMonotone(Max(1, limit), s.resets + s.wraps + 1, (t - start) / 1000 + s.wraps + 1);
  }

  // ---- fresh loads do not bound a single second --------------------------------------------------

  /** Calls 0 to n - 1 read the clock at `base`, load the window, and pause before counting. */
  function PauseAll(n: nat, base: U64): seq<Action> {
    if n == 0 then [] else PauseAll(n - 1, base) + [Action(n - 1, base), Action(n - 1, base)]
  }

  /** Call `opener` opens a window at `clock`, and then the paused call i counts. */
  function OpenThenCount(opener: nat, clock: U64, i: nat): seq<Action> {
    [Action(opener, clock), Action(opener, 0), Action(opener, 0), Action(opener, 0), Action(i, 0)]
  }

  /** One window after another is opened, and one paused call after another counts in it. */
  function CountOneByOne(n: nat, k: nat, base: U64): seq<Action>
    requires base + 1000 * k < 0x1_0000_0000_0000_0000
  {
    if k == 0 then []
    else CountOneByOne(n, k - 1, base) + OpenThenCount(n + k - 1, base + 1000 * k, k - 1)
  }

  lemma {:induction false} FreshInTwoParts(s: State, limit: U32, a: seq<Action>, b: seq<Action>, t: U64)
    requires FreshUntil(s, limit, a, t) && FreshUntil(Run(s, limit, a), limit, b, t)
    ensures FreshUntil(s, limit, a + b, t)
    decreases |b|
  {
    if b == [] {
      assert a + b == a;
    } else {
      assert (a + b)[..|a + b| - 1] == a + b[..|b| - 1];
      FreshInTwoParts(s, limit, a, b[..|b| - 1], t);
      RunConcat(s, limit, a, b[..|b| - 1]);
    }
  }

  lemma RunFreshInTwoParts(s: State, limit: U32, a: seq<Action>, b: seq<Action>, all: seq<Action>, t: U64)
    requires FreshUntil(s, limit, a, t) && FreshUntil(Run(s, limit, a), limit, b, t) && all == a + b
    ensures FreshUntil(s, limit, all, t) && Run(s, limit, all) == Run(Run(s, limit, a), limit, b)
  {
    FreshInTwoParts(s, limit, a, b, t);
    RunConcat(s, limit, a, b);
  }

  lemma OneMoreStep(s: State, limit: U32, schedule: seq<Action>, a: Action)
    ensures Run(s, limit, schedule + [a]) == Step(Run(s, limit, schedule), limit, a)
    ensures forall t :: FreshUntil(s, limit, schedule, t) && FreshLoad(Run(s, limit, schedule), a) && a.clock <= t ==>
              FreshUntil(s, limit, schedule + [a], t)
  {
    assert (schedule + [a])[..|schedule|] == schedule;
  }

  /** Of these calls the first n have loaded the window and not counted yet. */
  ghost predicate Paused(s: State, calls: nat, n: nat, base: U64)
    requires n <= calls
  {
    && s.window == base && |s.calls| == calls
    && (forall i :: 0 <= i < n ==> s.calls[i] == Counting)
    && (forall i :: n <= i < calls ==> s.calls[i] == Begin)
  }

  lemma OneMorePaused(s: State, limit: U32, calls: nat, n: nat, base: U64, t: U64)
    requires n < calls && Paused(s, calls, n, base) && base <= t
    ensures var more := [Action(n, base), Action(n, base)];
            FreshUntil(s, limit, more, t) && Paused(Run(s, limit, more), calls, n + 1, base)
  {
    var a := Action(n, base);
    assert Run(s, limit, []) == s;
    OneMoreStep(s, limit, [], a);
    OneMoreStep(s, limit, [a], a);
    assert [] + [a] == [a] && [a] + [a] == [a, a];
    assert Run(s, limit, [a]).calls == s.calls[n := HasClock(base)];
    assert Run(s, limit, [a, a]).calls == s.calls[n := Counting];
  }

  lemma {:induction false} AllPaused(calls: nat, n: nat, base: U64, limit: U32, t: U64)
    requires n <= calls && base <= t
    ensures FreshUntil(Init(base, calls), limit, PauseAll(n, base), t)
    ensures Paused(Run(Init(base, calls), limit, PauseAll(n, base)), calls, n, base)
  {
    if n > 0 {
      var start, before := Init(base, calls), PauseAll(n - 1, base);
      var more := [Action(n - 1, base), Action(n - 1, base)];
      AllPaused(calls, n - 1, base, limit, t);
      OneMorePaused(Run(start, limit, before), limit, calls, n - 1, base, t);
      RunFreshInTwoParts(start, limit, before, more, PauseAll(n, base), t);
    }
  }

  /** A call 1000 ms or more after the window opens the next one. */
  lemma OpensWindow(s: State, limit: U32, opener: nat, clock: U64, t: U64)
    requires opener < |s.calls| && s.calls[opener] == Begin && s.window + WINDOW_MS <= clock <= t
    ensures var a, b := Action(opener, clock), Action(opener, 0);
            && FreshUntil(s, limit, [a, b, b, b], t)
            && var s' := Run(s, limit, [a, b, b, b]);
               s'.window == clock && s'.counter == 1 && s'.calls == s.calls[opener := Returned(true)]
  {
    var a, b := Action(opener, clock), Action(opener, 0);
    assert Run(s, limit, []) == s;
    OneMoreStep(s, limit, [], a);
    OneMoreStep(s, limit, [a], b);
    OneMoreStep(s, limit, [a, b], b);
    OneMoreStep(s, limit, [a, b, b], b);
    assert [] + [a] == [a] && [a] + [b] == [a, b] && [a, b] + [b] == [a, b, b] && [a, b, b] + [b] == [a, b, b, b];
    assert Run(s, limit, [a]).calls == s.calls[opener := HasClock(clock)];
    assert Run(s, limit, [a, b]).calls == s.calls[opener := Expired(clock, s.window)];
    var won := Run(s, limit, [a, b, b]);
    assert won.calls == s.calls[opener := Winner] && won.window == clock;
  }

  /** An opener and the paused call behind it are both admitted. */
  lemma OpenedThenCounted(s: State, limit: U32, opener: nat, clock: U64, i: nat, t: U64)
    requires limit >= 2 && opener < |s.calls| && i < |s.calls| && i != opener
    requires s.calls[opener] == Begin && s.calls[i] == Counting
    requires s.window + WINDOW_MS <= clock <= t
    ensures FreshUntil(s, limit, OpenThenCount(opener, clock, i), t)
    ensures var s' := Run(s, limit, OpenThenCount(opener, clock, i));
            s'.window == clock && s'.calls == s.calls[opener := Returned(true)][i := Returned(true)]
  {
    var a, b, c := Action(opener, clock), Action(opener, 0), Action(i, 0);
    OpensWindow(s, limit, opener, clock, t);
    OneMoreStep(s, limit, [a, b, b, b], c);
    assert [a, b, b, b] + [c] == OpenThenCount(opener, clock, i);
  }

  /** Of n paused calls and n openers the first k each have been admitted, and the others have not moved. */
  ghost predicate Counted(s: State, n: nat, k: nat, base: U64)
    requires k <= n
  {
    && s.window == base + 1000 * k && |s.calls| == 2 * n
    && (forall i :: 0 <= i < k || n <= i < n + k ==> s.calls[i] == Returned(true))
    && (forall i :: k <= i < n ==> s.calls[i] == Counting)
    && (forall i :: n + k <= i < 2 * n ==> s.calls[i] == Begin)
  }

  lemma OneMoreCounted(s: State, limit: U32, n: nat, k: nat, base: U64, t: U64)
    requires limit >= 2 && k < n && Counted(s, n, k, base) && base + 1000 * (k + 1) <= t
    ensures var more := OpenThenCount(n + k, base + 1000 * (k + 1), k);
            FreshUntil(s, limit, more, t) && Counted(Run(s, limit, more), n, k + 1, base)
  {
    OpenedThenCounted(s, limit, n + k, base + 1000 * (k + 1), k, t);
  }

  lemma CountedGoesOn(s: State, limit: U32, n: nat, k: nat, base: U64, t: U64)
    requires limit >= 2 && k < n && base + 1000 * (k + 1) <= t
    requires FreshUntil(s, limit, CountOneByOne(n, k, base), t)
    requires Counted(Run(s, limit, CountOneByOne(n, k, base)), n, k, base)
    ensures FreshUntil(s, limit, CountOneByOne(n, k + 1, base), t)
    ensures Counted(Run(s, limit, CountOneByOne(n, k + 1, base)), n, k + 1, base)
  {
    var before := CountOneByOne(n, k, base);
    var more := OpenThenCount(n + k, base + 1000 * (k + 1), k);
    OneMoreCounted(Run(s, limit, before), limit, n, k, base, t);
    RunFreshInTwoParts(s, limit, before, more, CountOneByOne(n, k + 1, base), t);
  }

  lemma {:induction false} PausedAreAdmitted(s: State, limit: U32, n: nat, k: nat, base: U64, t: U64)
    requires limit >= 2 && k <= n && Counted(s, n, 0, base) && base + 1000 * k <= t
    ensures FreshUntil(s, limit, CountOneByOne(n, k, base), t)
    ensures Counted(Run(s, limit, CountOneByOne(n, k, base)), n, k, base)
    decreases k
  {
    if k > 0 {
      PausedAreAdmitted(s, limit, n, k - 1, base, t);
      CountedGoesOn(s, limit, n, k - 1, base, t);
    }
  }

  /** With no load stale and the window only moving forward, any number n of calls that read the clock at the
      same instant are all admitted, for any limit of at least 2: each pauses before counting until a later
      call has opened a window. So the bound by the second does not become a bound for each second. */
  lemma PausedCallersShareOneReading(n: nat, base: U64, limit: U32)
    requires limit >= 2 && base + 1000 * n < 0x1_0000_0000_0000_0000
    ensures var schedule := PauseAll(n, base) + CountOneByOne(n, n, base);
            && FreshUntil(Init(base, 2 * n), limit, schedule, base + 1000 * n)
            && (forall i :: 0 <= i < n ==> Action(i, base) in schedule)
            && Counted(Run(Init(base, 2 * n), limit, schedule), n, n, base)
  {
    var t := base + 1000 * n;
    AllPaused(2 * n, n, base, limit, t);
    var paused := Run(Init(base, 2 * n), limit, PauseAll(n, base));
    PausedAreAdmitted(paused, limit, n, n, base, t);
    var pausing, counting := PauseAll(n, base), CountOneByOne(n, n, base);
    RunFreshInTwoParts(Init(base, 2 * n), limit, pausing, counting, pausing + counting, t);
    PausersRead(n, base);
  }

  lemma {:induction false} PausersRead(n: nat, base: U64)
    ensures forall i :: 0 <= i < n ==> Action(i, base) in PauseAll(n, base)
  {
    if n > 0 {
      PausersRead(n - 1, base);
    }
  }
}
