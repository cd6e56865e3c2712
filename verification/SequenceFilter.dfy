/** The server's lock-free screen-sequence filter `chunked_screen_sequence_state`
    (crates/signaling_server/src/validation.rs, lines 40-69), called by any number of threads.

    A call is one load and then one compare-exchange per turn of the loop; the tests between them
    read only the local copy. A schedule names the thread that steps next. */
module SequenceFilter {
  import opened Common

  datatype Verdict = New | Existing | Stale

  /** `current` is the local copy. `begun` and `seen` are history: how often the register had been
      advanced when the call loaded it and when `current` was read. */
  datatype Thread =
    | Waiting(sequence: U32)
    | Looping(sequence: U32, current: U32, retries: nat, begun: nat, seen: nat)
    | Done(sequence: U32, verdict: Verdict, retries: nat, begun: nat)

  /** History: `advances` counts the successful compare-exchanges, and `order` lists the calls as their
      verdicts are settled. */
  datatype State = State(register: U32, threads: seq<Thread>, advances: nat, order: seq<nat>)

  /** The tests of the loop body on the local copy; None means the compare-exchange is tried. */
  function Decide(current: U32, sequence: U32): Option<Verdict> {
    if current == sequence then Some(Existing)
    else if current != 0 && WrappingSub(sequence, current) >= TWO31 then Some(Stale)
    else None
  }

  function StepThread(s: State, t: Thread): (Thread, State) {
    match t
    case Waiting(q) => (Looping(q, s.register, 0, s.advances, s.advances), s)
    case Done(_, _, _, _) => (t, s)
    case Looping(q, current, retries, begun, seen) =>
      (match Decide(current, q)
       case Some(v) => (Done(q, v, retries, begun), s)
       case None =>
         if s.register == current then
           (Done(q, New, retries, begun), s.(register := q, advances := s.advances + 1))
         else
           (Looping(q, s.register, retries + 1, begun, s.advances), s))
  }

  function Step(s: State, i: nat): State {
    if i >= |s.threads| then s
    else
      var (t, s') := StepThread(s, s.threads[i]);
      s'.(threads := s.threads[i := t],
          order := if Settled(t) && !Settled(s.threads[i]) then s.order + [i] else s.order)
  }

  /** A call's verdict is settled once it has read a register value that decides it, or has won. */
  predicate Settled(t: Thread) {
    t.Done? || (t.Looping? && Decide(t.current, t.sequence).Some?)
  }

  function Init(sequences: seq<U32>, register: U32): State {
    State(register, seq(|sequences|, i requires 0 <= i < |sequences| => Waiting(sequences[i])), 0, [])
  }

  function Run(s: State, schedule: seq<nat>): State {
    if schedule == [] then s else Step(Run(s, schedule[..|schedule| - 1]), schedule[|schedule| - 1])
  }

  /** One call seen from inside, the register as a field. `writes` is what the other threads leave in the
      register just before each of its compare-and-swaps. */
  class LastSequence {
    var register: U32

    method SequenceState(sequence: U32, writes: seq<U32>) returns (v: Verdict, seen: U32)
      modifies this
      ensures seen == old(register) || seen in writes
      ensures match Decide(seen, sequence)
              case Some(d) => v == d && register == seen
              case None => v == New && register == sequence
    {
      var current := register;
      var k := 0;
      while true
        invariant 0 <= k <= |writes| && current == register
        invariant current == old(register) || current in writes
        decreases |writes| - k
      {
        if current == sequence {
          return Existing, current;
        }
        if current != 0 && WrappingSub(sequence, current) >= TWO31 {
          return Stale, current;
        }
        if k < |writes| {
          register := writes[k];
          k := k + 1;
        }
        if register == current {
          register := sequence;
          return New, current;
        }
        current := register;
      }
    }
  }

  // ---- the test in unbounded order -------------------------------------------------------------

  /** On counters less than 2^31 apart the filter advances exactly for a larger one, except that a
      register value of 0 modulo 2^32 (which the code reads as "unset") lets anything else through. */
  lemma AdvancesIffLarger(x: nat, y: nat)
    requires -TWO31 < x - y < TWO31
    ensures Decide(y % TWO32, x % TWO32).None? <==> x > y || (y % TWO32 == 0 && x != y)
    ensures Decide(y % TWO32, x % TWO32) == Some(Existing) <==> x == y
  {
    var a, b := x % TWO32, y % TWO32;
    assert (x - y) % TWO32 == (a - b) % TWO32;
  }

  // ---- every interleaving, for all sequences ----------------------------------------------------

  /** One call taken by itself: its verdict and the register it leaves. */
  function CallAlone(register: U32, q: U32): (Verdict, U32) {
    match Decide(register, q)
    case Some(v) => (v, register)
    case None => (New, q)
  }

  /** The register after these calls one after another. */
  function RegisterAfter(initial: U32, calls: seq<U32>): U32 {
    if calls == [] then initial else CallAlone(RegisterAfter(initial, calls[..|calls| - 1]), calls[|calls| - 1]).1
  }

  function VerdictAt(initial: U32, calls: seq<U32>, k: nat): Verdict
    requires k < |calls|
  {
    CallAlone(RegisterAfter(initial, calls[..k]), calls[k]).0
  }

  /** The sequences offered, in the order in which the calls were settled. */
  function InOrder(order: seq<nat>, sequences: seq<U32>): (calls: seq<U32>)
    requires forall k :: 0 <= k < |order| ==> order[k] < |sequences|
    ensures |calls| == |order| && forall k :: 0 <= k < |order| ==> calls[k] == sequences[order[k]]
  {
    seq(|order|, k requires 0 <= k < |order| => sequences[order[k]])
  }

  function Fate(t: Thread): Verdict
    requires Settled(t)
  {
    if t.Done? then t.verdict else Decide(t.current, t.sequence).value
  }

  /** A step settles no call, or settles its own with the verdict and the effect of a call by itself. */
  lemma StepSettles(s: State, i: nat)
    requires i < |s.threads|
    ensures var t, s' := s.threads[i], Step(s, i);
            var t' := s'.threads[i];
            && t'.sequence == t.sequence
            && (if s'.order == s.order then
                  s'.register == s.register && (Settled(t) <==> Settled(t')) && (Settled(t) ==> Fate(t') == Fate(t))
                else
                  && s'.order == s.order + [i] && !Settled(t) && Settled(t')
                  && (Fate(t'), s'.register) == CallAlone(s.register, t.sequence))
  {
  }

  ghost predicate OrderInv(sequences: seq<U32>, s: State) {
    && |s.threads| == |sequences|
    && (forall i :: 0 <= i < |sequences| ==> s.threads[i].sequence == sequences[i])
    && (forall k :: 0 <= k < |s.order| ==> s.order[k] < |sequences|)
    && (forall k, l :: 0 <= k < l < |s.order| ==> s.order[k] != s.order[l])
    && (forall i :: 0 <= i < |sequences| ==> (Settled(s.threads[i]) <==> i in s.order))
  }

  ghost predicate Linear(initial: U32, sequences: seq<U32>, s: State)
    requires OrderInv(sequences, s)
  {
    var calls := InOrder(s.order, sequences);
    s.register == RegisterAfter(initial, calls) && FatesAre(s.threads, s.order, VerdictsOf(initial, calls))
  }

  lemma OrderStep(sequences: seq<U32>, s: State, i: nat)
    requires OrderInv(sequences, s) && i < |s.threads|
    ensures OrderInv(sequences, Step(s, i))
  {
    StepSettles(s, i);
    var s' := Step(s, i);
    forall j | 0 <= j < |sequences|
      ensures Settled(s'.threads[j]) <==> j in s'.order
    {
      if j != i {
        assert s'.threads[j] == s.threads[j];
      }
    }
  }

  lemma FatesKept(sequences: seq<U32>, s: State, i: nat, verdicts: seq<Verdict>)
    requires OrderInv(sequences, s) && i < |s.threads| && FatesAre(s.threads, s.order, verdicts)
    ensures FatesAre(Step(s, i).threads, s.order, verdicts)
  {
    StepSettles(s, i);
    forall k | 0 <= k < |s.order|
      ensures Settled(Step(s, i).threads[s.order[k]]) && Fate(Step(s, i).threads[s.order[k]]) == verdicts[k]
    {
      if s.order[k] != i {
        assert Step(s, i).threads[s.order[k]] == s.threads[s.order[k]];
      }
    }
  }

  lemma OneMoreCall(initial: U32, calls: seq<U32>, q: U32)
    ensures RegisterAfter(initial, calls + [q]) == CallAlone(RegisterAfter(initial, calls), q).1
    ensures VerdictAt(initial, calls + [q], |calls|) == CallAlone(RegisterAfter(initial, calls), q).0
    ensures forall k :: 0 <= k < |calls| ==> VerdictAt(initial, calls + [q], k) == VerdictAt(initial, calls, k)
  {
    assert (calls + [q])[..|calls|] == calls;
    forall k | 0 <= k < |calls|
      ensures VerdictAt(initial, calls + [q], k) == VerdictAt(initial, calls, k)
    {
      assert (calls + [q])[..k] == calls[..k];
    }
  }

  /** The calls listed after one more has been settled, or none. */
  lemma LongerOrder(sequences: seq<U32>, order: seq<nat>, i: nat)
    requires i < |sequences| && forall k :: 0 <= k < |order| ==> order[k] < |sequences|
    ensures InOrder(order + [i], sequences) == InOrder(order, sequences) + [sequences[i]]
  {
  }

  ghost predicate FatesAre(threads: seq<Thread>, order: seq<nat>, verdicts: seq<Verdict>) {
    |verdicts| == |order| && forall k :: 0 <= k < |order| ==>
      order[k] < |threads| && Settled(threads[order[k]]) && Fate(threads[order[k]]) == verdicts[k]
  }

  function VerdictsOf(initial: U32, calls: seq<U32>): (vs: seq<Verdict>)
    ensures |vs| == |calls|
    ensures forall k :: 0 <= k < |calls| ==> vs[k] == VerdictAt(initial, calls, k)
  {
    seq(|calls|, k requires 0 <= k < |calls| => VerdictAt(initial, calls, k))
  }

  lemma MoreVerdicts(initial: U32, calls: seq<U32>, q: U32)
    ensures VerdictsOf(initial, calls + [q])
         == VerdictsOf(initial, calls) + [CallAlone(RegisterAfter(initial, calls), q).0]
  {
    OneMoreCall(initial, calls, q);
  }

  lemma OneMoreFate(threads: seq<Thread>, order: seq<nat>, verdicts: seq<Verdict>, i: nat, v: Verdict)
    requires FatesAre(threads, order, verdicts) && i < |threads| && Settled(threads[i]) && Fate(threads[i]) == v
    ensures FatesAre(threads, order + [i], verdicts + [v])
  {
  }

  lemma LinearStep(initial: U32, sequences: seq<U32>, s: State, i: nat)
    requires OrderInv(sequences, s) && Linear(initial, sequences, s) && i < |s.threads|
    ensures OrderInv(sequences, Step(s, i)) && Linear(initial, sequences, Step(s, i))
  {
    var s', calls := Step(s, i), InOrder(s.order, sequences);
    StepSettles(s, i);
    OrderStep(sequences, s, i);
    FatesKept(sequences, s, i, VerdictsOf(initial, calls));
    if s'.order != s.order {
      LongerOrder(sequences, s.order, i);
      OneMoreCall(initial, calls, sequences[i]);
      MoreVerdicts(initial, calls, sequences[i]);
      OneMoreFate(s'.threads, s.order, VerdictsOf(initial, calls), i, Fate(s'.threads[i]));
    }
  }

  lemma {:induction false} LinearRun(initial: U32, sequences: seq<U32>, schedule: seq<nat>)
    ensures var s := Run(Init(sequences, initial), schedule);
            OrderInv(sequences, s) && Linear(initial, sequences, s)
  {
    if schedule != [] {
      LinearRun(initial, sequences, schedule[..|schedule| - 1]);
      var before, i := Run(Init(sequences, initial), schedule[..|schedule| - 1]), schedule[|schedule| - 1];
      if i < |before.threads| {
        LinearStep(initial, sequences, before, i);
      }
    }
  }

  /** Linearizability: whatever the sequences and the interleaving, once all calls have returned, the verdicts
      and the register are those of the same calls taken one after another, each once, in `order`. */
  lemma Linearizable(initial: U32, sequences: seq<U32>, schedule: seq<nat>)
    requires forall t :: t in Run(Init(sequences, initial), schedule).threads ==> t.Done?
    ensures var s := Run(Init(sequences, initial), schedule);
            && OrderInv(sequences, s)
            && (forall i :: 0 <= i < |sequences| ==> i in s.order)
            && s.register == RegisterAfter(initial, InOrder(s.order, sequences))
            && (forall k :: 0 <= k < |s.order| ==>
                  s.threads[s.order[k]].Done?
                  && s.threads[s.order[k]].verdict == VerdictAt(initial, InOrder(s.order, sequences), k))
  {
    LinearRun(initial, sequences, schedule);
  }

  lemma {:induction false} OrderGrows(s: State, schedule: seq<nat>, k: nat)
    requires k <= |schedule|
    ensures Run(s, schedule[..k]).order <= Run(s, schedule).order
    decreases |schedule|
  {
    if k < |schedule| {
      var init := schedule[..|schedule| - 1];
      OrderGrows(s, init, k);
      assert init[..k] == schedule[..k];
    } else {
      assert schedule[..k] == schedule;
    }
  }

  /** The order respects real time: a call that has returned comes before one that has not begun. */
  lemma OrderRespectsTime(initial: U32, sequences: seq<U32>, schedule: seq<nat>, k: nat, i: nat, j: nat)
    requires k <= |schedule| && i < |sequences| && j < |sequences|
    requires var s := Run(Init(sequences, initial), schedule[..k]);
             |s.threads| == |sequences| && s.threads[i].Done? && s.threads[j].Waiting?
    ensures var early, late := Run(Init(sequences, initial), schedule[..k]).order,
                               Run(Init(sequences, initial), schedule).order;
            early <= late && i in early && j !in early
  {
    LinearRun(initial, sequences, schedule[..k]);
    OrderGrows(Init(sequences, initial), schedule, k);
  }

  /** The first n calls, each begun after the one before has returned. */
  function OneByOne(n: nat): seq<nat> {
    if n == 0 then [] else OneByOne(n - 1) + [n - 1, n - 1]
  }

  /** Conversely every order occurs: calls made one after another get these verdicts. */
  lemma {:induction false} OneByOneRuns(initial: U32, sequences: seq<U32>, n: nat)
    requires n <= |sequences|
    ensures var s := Run(Init(sequences, initial), OneByOne(n));
            && |s.threads| == |sequences| && s.register == RegisterAfter(initial, sequences[..n])
            && (forall i :: 0 <= i < n ==>
                  s.threads[i].Done? && s.threads[i].verdict == VerdictAt(initial, sequences, i))
            && (forall i :: n <= i < |sequences| ==> s.threads[i] == Waiting(sequences[i]))
  {
    if n > 0 {
      OneByOneRuns(initial, sequences, n - 1);
      var before := Run(Init(sequences, initial), OneByOne(n - 1));
      var middle := OneByOne(n - 1) + [n - 1];
      assert middle[..|middle| - 1] == OneByOne(n - 1);
      assert OneByOne(n)[..|OneByOne(n)| - 1] == middle;
      CallRunsAlone(before, n - 1);
      assert sequences[..n][..n - 1] == sequences[..n - 1];
    }
  }

  lemma CallRunsAlone(s: State, i: nat)
    requires i < |s.threads| && s.threads[i].Waiting?
    ensures var s', q := Step(Step(s, i), i), s.threads[i].sequence;
            && s'.threads[i].Done? && (s'.threads[i].verdict, s'.register) == CallAlone(s.register, q)
            && |s'.threads| == |s.threads|
            && forall j :: 0 <= j < |s.threads| && j != i ==> s'.threads[j] == s.threads[j]
  {
  }

  // ---- retries ----------------------------------------------------------------------------------

  /** A call has retried at most as often as the register has been advanced since it began. */
  ghost predicate RetriesPaid(s: State, t: Thread) {
    match t
    case Waiting(_) => true
    case Looping(_, current, retries, begun, seen) =>
      begun + retries <= seen <= s.advances && (seen == s.advances ==> current == s.register)
    case Done(_, v, retries, begun) =>
      begun + retries + (if v == New then 1 else 0) <= s.advances
  }

  ghost predicate AllRetriesPaid(s: State) {
    forall j :: 0 <= j < |s.threads| ==> RetriesPaid(s, s.threads[j])
  }

  lemma StepKeepsRetriesPaid(s: State, i: nat, j: nat)
    requires i < |s.threads| && j < |s.threads| && RetriesPaid(s, s.threads[i]) && RetriesPaid(s, s.threads[j])
    ensures RetriesPaid(Step(s, i), Step(s, i).threads[j])
  {
  }

  lemma {:induction false} RetriesPaidInRun(initial: U32, sequences: seq<U32>, schedule: seq<nat>)
    ensures var s := Run(Init(sequences, initial), schedule);
            AllRetriesPaid(s)
  {
    if schedule != [] {
      RetriesPaidInRun(initial, sequences, schedule[..|schedule| - 1]);
      var before, i := Run(Init(sequences, initial), schedule[..|schedule| - 1]), schedule[|schedule| - 1];
      if i < |before.threads| {
        assert AllRetriesPaid(before);
        forall j | 0 <= j < |before.threads|
          ensures RetriesPaid(Step(before, i), Step(before, i).threads[j])
        {
          StepKeepsRetriesPaid(before, i, j);
        }
      }
    }
  }

  /** Whatever the sequences, every retry is paid for by a strict advance of another call made since this one
      began. */
  lemma RetriesPaidByAdvances(initial: U32, sequences: seq<U32>, schedule: seq<nat>, i: nat)
    requires i < |Run(Init(sequences, initial), schedule).threads|
    ensures var s := Run(Init(sequences, initial), schedule);
            match s.threads[i]
            case Waiting(_) => true
            case Looping(_, _, retries, begun, _) => retries <= s.advances - begun
            case Done(_, v, retries, begun) => retries <= s.advances - begun - (if v == New then 1 else 0)
  {
    RetriesPaidInRun(initial, sequences, schedule);
    assert RetriesPaid(Run(Init(sequences, initial), schedule), Run(Init(sequences, initial), schedule).threads[i]);
  }

  // ---- when a sequence can be New again ----------------------------------------------------------

  /** The forward distance the register travels over these calls. */
  function Distance(initial: U32, calls: seq<U32>): nat {
    if calls == [] then 0
    else
      var init := calls[..|calls| - 1];
      Distance(initial, init) + WrappingSub(RegisterAfter(initial, calls), RegisterAfter(initial, init))
  }

  function NewCount(initial: U32, calls: seq<U32>): nat {
    if calls == [] then 0
    else
      NewCount(initial, calls[..|calls| - 1]) + (if VerdictAt(initial, calls, |calls| - 1) == New then 1 else 0)
  }

  /** The register is unset before none of these calls. */
  ghost predicate NeverUnset(initial: U32, calls: seq<U32>) {
    forall k :: 0 <= k < |calls| ==> RegisterAfter(initial, calls[..k]) != 0
  }

  lemma {:induction false} DistanceLeadsToRegister(initial: U32, calls: seq<U32>)
    ensures exists turns: nat :: initial + Distance(initial, calls) == RegisterAfter(initial, calls) + turns * TWO32
  {
    if calls == [] {
      assert initial + Distance(initial, calls) == RegisterAfter(initial, calls) + 0 * TWO32;
    } else {
      var init := calls[..|calls| - 1];
      DistanceLeadsToRegister(initial, init);
      var turns: nat :| initial + Distance(initial, init) == RegisterAfter(initial, init) + turns * TWO32;
      var more := if RegisterAfter(initial, init) <= RegisterAfter(initial, calls) then turns else turns + 1;
      assert initial + Distance(initial, calls) == RegisterAfter(initial, calls) + more * TWO32;
    }
  }

  lemma {:induction false} DistanceBound(initial: U32, calls: seq<U32>)
    requires NeverUnset(initial, calls)
    ensures Distance(initial, calls) <= NewCount(initial, calls) * (TWO31 - 1)
  {
    if calls != [] {
      var init, q := calls[..|calls| - 1], calls[|calls| - 1];
      forall k | 0 <= k < |init|
        ensures RegisterAfter(initial, init[..k]) != 0
      {
        assert init[..k] == calls[..k];
      }
      DistanceBound(initial, init);
      assert RegisterAfter(initial, calls[..|init|]) != 0;
    }
  }

  lemma {:induction false} CallsInTwoParts(initial: U32, a: seq<U32>, b: seq<U32>)
    ensures RegisterAfter(initial, a + b) == RegisterAfter(RegisterAfter(initial, a), b)
    decreases |b|
  {
    if b == [] {
      assert a + b == a;
    } else {
      assert (a + b)[..|a + b| - 1] == a + b[..|b| - 1];
      CallsInTwoParts(initial, a, b[..|b| - 1]);
    }
  }

  /** For all sequences: when two calls for the same sequence are both New, the register has in between gone
      round a positive whole number of times; without being unset on the way that takes three New
      verdicts at least, the second one included. */
  lemma NewAgainTakesAFullTurn(initial: U32, calls: seq<U32>, i: nat, j: nat)
    requires i < j < |calls| && calls[i] == calls[j]
    requires VerdictAt(initial, calls, i) == New && VerdictAt(initial, calls, j) == New
    ensures var q, between := calls[i], calls[i + 1..j + 1];
            && (exists turns :: turns > 0 && Distance(q, between) == turns * TWO32)
            && (NeverUnset(q, between) ==> NewCount(q, between) >= 3)
  {
    var q, between := calls[i], calls[i + 1..j + 1];
    RegisterBetweenNews(initial, calls, i, j);
    DistanceLeadsToRegister(q, between);
    var turns: nat :| q + Distance(q, between) == RegisterAfter(q, between) + turns * TWO32;
    assert Distance(q, between) > 0;
    assert turns > 0 && Distance(q, between) == turns * TWO32;
    if NeverUnset(q, between) {
      DistanceBound(q, between);
    }
  }

  lemma RegisterBetweenNews(initial: U32, calls: seq<U32>, i: nat, j: nat)
    requires i < j < |calls| && calls[i] == calls[j]
    requires VerdictAt(initial, calls, i) == New && VerdictAt(initial, calls, j) == New
    ensures var q, between := calls[i], calls[i + 1..j + 1];
            RegisterAfter(q, between) == q != RegisterAfter(q, between[..|between| - 1])
  {
    var between := calls[i + 1..j + 1];
    NewSetsTheRegister(initial, calls, i);
    NewSetsTheRegister(initial, calls, j);
    assert calls[..i + 1] + between == calls[..j + 1];
    CallsInTwoParts(initial, calls[..i + 1], between);
    var early := between[..|between| - 1];
    assert calls[..i + 1] + early == calls[..j];
    CallsInTwoParts(initial, calls[..i + 1], early);
  }

  lemma NewSetsTheRegister(initial: U32, calls: seq<U32>, k: nat)
    requires k < |calls| && VerdictAt(initial, calls, k) == New
    ensures RegisterAfter(initial, calls[..k + 1]) == calls[k] != RegisterAfter(initial, calls[..k])
  {
    assert calls[..k + 1][..k] == calls[..k];
  }

  /** The sequences lie on an arc of 2^31 + 1 values. */
  ghost predicate FitsArc(s: set<U32>, base: U32) {
    forall q :: q in s ==> WrappingSub(q, base) <= TWO31
  }

  /** What a caller can check about the sequences it offers: they fit an arc, and if 0 is one of them, the one
      from 0 to 2^31. */
  ghost predicate Ordered(s: set<U32>) {
    if 0 in s then forall q :: q in s ==> q <= TWO31 else exists base: U32 :: FitsArc(s, base)
  }

  ghost predicate Offers(calls: seq<U32>, s: set<U32>) {
    forall q :: q in calls ==> q in s
  }

  ghost predicate NeverNewTwice(calls: seq<U32>) {
    forall i, j :: 0 <= i < j < |calls| && calls[i] == calls[j] && VerdictAt(0, calls, i) == New ==>
      VerdictAt(0, calls, j) != New
  }

  /** Where the heights of an ordered set are counted from. */
  ghost predicate CountsFrom(s: set<U32>, base: U32) {
    if 0 in s then base == 1 && (forall q :: q in s ==> q <= TWO31) else FitsArc(s, base)
  }

  lemma NewRaisesTheHeight(s: set<U32>, base: U32, r: U32, q: U32)
    requires CountsFrom(s, base) && q in s && (r == 0 || r in s)
    ensures CallAlone(r, q).0 == New ==> Height(base, q) > Height(base, r)
  {
  }

  lemma {:induction false} HeightOnlyRises(s: set<U32>, base: U32, calls: seq<U32>, k: nat)
    requires CountsFrom(s, base) && Offers(calls, s) && k <= |calls|
    ensures var r := RegisterAfter(0, calls);
            (r == 0 || r in s) && Height(base, RegisterAfter(0, calls[..k])) <= Height(base, r)
  {
    if calls != [] {
      var init := calls[..|calls| - 1];
      assert calls[|calls| - 1] in calls;
      if k == |calls| {
        assert calls[..k] == calls;
        HeightOnlyRises(s, base, init, 0);
      } else {
        HeightOnlyRises(s, base, init, k);
        assert init[..k] == calls[..k];
      }
      NewRaisesTheHeight(s, base, RegisterAfter(0, init), calls[|calls| - 1]);
    } else {
      assert calls[..k] == calls;
    }
  }

  lemma OrderedNeverRepeats(s: set<U32>, calls: seq<U32>)
    requires Ordered(s) && Offers(calls, s)
    ensures NeverNewTwice(calls)
  {
    var base: U32 := 1;
    if 0 !in s {
      base :| FitsArc(s, base);
    }
    forall i, j | 0 <= i < j < |calls| && calls[i] == calls[j] && VerdictAt(0, calls, i) == New
      ensures VerdictAt(0, calls, j) != New
    {
      NewSetsTheRegister(0, calls, i);
      assert calls[..j][..i + 1] == calls[..i + 1];
      HeightOnlyRises(s, base, calls[..j], i + 1);
      NewRaisesTheHeight(s, base, RegisterAfter(0, calls[..j]), calls[j]);
    }
  }

  predicate Follows(p: U32, q: U32) {
    0 < WrappingSub(p, q) < TWO31
  }

  /** Off every arc, each sequence is followed by another of them less than 2^31 ahead. */
  lemma SomeFollows(s: set<U32>, q: U32) returns (p: U32)
    requires 0 !in s && !Ordered(s) && q in s
    ensures p in s && Follows(p, q)
  {
    var base: U32 := (q + TWO31) % TWO32;
    assert !FitsArc(s, base);
    p :| p in s && WrappingSub(p, base) > TWO31;
  }

  ghost predicate AllNew(calls: seq<U32>) {
    forall k :: 0 <= k < |calls| ==> VerdictAt(0, calls, k) == New
  }

  lemma NewOnceMore(calls: seq<U32>, p: U32)
    requires calls != [] && AllNew(calls) && Follows(p, calls[|calls| - 1])
    ensures AllNew(calls + [p])
  {
    NewSetsTheRegister(0, calls, |calls| - 1);
    assert calls[..|calls|] == calls;
    OneMoreCall(0, calls, p);
  }

  /** Going on to followers, all of them New, runs out of unused sequences. */
  lemma {:induction false} Walk(s: set<U32>, calls: seq<U32>, unused: set<U32>) returns (all: seq<U32>)
    requires 0 !in s && !Ordered(s)
    requires calls != [] && Offers(calls, s) && AllNew(calls)
    requires unused == set q | q in s && q !in calls
    ensures Offers(all, s) && !NeverNewTwice(all)
    decreases |unused|
  {
    var p := SomeFollows(s, calls[|calls| - 1]);
    NewOnceMore(calls, p);
    all := calls + [p];
    if p in calls {
      var i :| 0 <= i < |calls| && calls[i] == p;
      assert all[i] == all[|calls|] && VerdictAt(0, all, i) == New && VerdictAt(0, all, |calls|) == New;
    } else {
      assert (set q | q in s && q !in all) == unused - {p};
      all := Walk(s, all, unused - {p});
    }
  }

  lemma AnyIsNewAtFirst(q: U32)
    requires q != 0
    ensures AllNew([q])
  {
    assert [q][..0] == [];
  }

  lemma UnorderedRepeats(s: set<U32>) returns (calls: seq<U32>)
    requires !Ordered(s)
    ensures Offers(calls, s) && !NeverNewTwice(calls)
  {
    if 0 in s {
      var q :| q in s && q > TWO31;
      calls := [q, 0, q];
      AnyIsNewAtFirst(q);
      OneMoreCall(0, [q], 0);
      NewSetsTheRegister(0, [q], 0);
      assert [q][..1] == [q] && [q] + [0] == [q, 0] && [q, 0] + [q] == calls;
      OneMoreCall(0, [q, 0], q);
      assert VerdictAt(0, calls, 0) == New && VerdictAt(0, calls, 2) == New;
    } else {
      assert s != {} by {
        if s == {} {
          assert FitsArc(s, 0);
        }
      }
      var q :| q in s;
      AnyIsNewAtFirst(q);
      calls := Walk(s, [q], set p | p in s && p !in [q]);
    }
  }

  ghost predicate NewAtMostOnceInRun(sequences: seq<U32>, schedule: seq<nat>) {
    var ts := Run(Init(sequences, 0), schedule).threads;
    forall i, j :: 0 <= i < j < |ts| && Won(ts[i]) && Won(ts[j]) ==> ts[i].sequence != ts[j].sequence
  }

  lemma PositionOfWinner(initial: U32, sequences: seq<U32>, s: State, i: nat) returns (k: nat)
    requires OrderInv(sequences, s) && Linear(initial, sequences, s) && i < |s.threads| && Won(s.threads[i])
    ensures k < |s.order| && s.order[k] == i
    ensures VerdictAt(initial, InOrder(s.order, sequences), k) == New
  {
    k :| 0 <= k < |s.order| && s.order[k] == i;
    assert VerdictsOf(initial, InOrder(s.order, sequences))[k] == New;
  }

  lemma OrderedRunsNeverRepeat(s: set<U32>, sequences: seq<U32>, schedule: seq<nat>)
    requires Ordered(s) && Offers(sequences, s)
    ensures NewAtMostOnceInRun(sequences, schedule)
  {
    var w := Run(Init(sequences, 0), schedule);
    LinearRun(0, sequences, schedule);
    var calls := InOrder(w.order, sequences);
    OrderedNeverRepeats(s, calls);
    forall i, j | 0 <= i < j < |w.threads| && Won(w.threads[i]) && Won(w.threads[j])
      ensures w.threads[i].sequence != w.threads[j].sequence
    {
      var k := PositionOfWinner(0, sequences, w, i);
      var l := PositionOfWinner(0, sequences, w, j);
      if k < l {
        assert calls[k] != calls[l];
      } else {
        assert calls[l] != calls[k];
      }
    }
  }

  /** On a fresh register, with any number of calls in any interleaving: each sequence is reported New at most
      once if and only if the sequences offered are ordered. */
  lemma NewAtMostOnceIffOrdered(s: set<U32>)
    ensures (forall sequences, schedule :: Offers(sequences, s) ==> NewAtMostOnceInRun(sequences, schedule))
       <==> Ordered(s)
  {
    if Ordered(s) {
      forall sequences, schedule | Offers(sequences, s)
        ensures NewAtMostOnceInRun(sequences, schedule)
      {
        OrderedRunsNeverRepeat(s, sequences, schedule);
      }
    } else {
      var calls := UnorderedRepeats(s);
      OneByOneRuns(0, calls, |calls|);
      var i, j :| 0 <= i < j < |calls| && calls[i] == calls[j]
                  && VerdictAt(0, calls, i) == New && VerdictAt(0, calls, j) == New;
      ThreadsKeepTheirSequence(Init(calls, 0), OneByOne(|calls|));
      var ts := Run(Init(calls, 0), OneByOne(|calls|)).threads;
      assert Won(ts[i]) && Won(ts[j]) && ts[i].sequence == ts[j].sequence;
      assert !NewAtMostOnceInRun(calls, OneByOne(|calls|));
    }
  }

  /** Both causes occur. A call that offers 0 unsets the register, and a sequence already New is New again. */
  lemma ZeroReopensTheFilter()
    ensures var calls := [0xFFFF_FFFF, 0, 0xFFFF_FFFF];
            forall k :: 0 <= k < 3 ==> VerdictAt(0xFFFF_FFFE, calls, k) == New
  {
    var calls: seq<U32> := [0xFFFF_FFFF, 0, 0xFFFF_FFFF];
    assert calls[..0] == [] && calls[..1] == [0xFFFF_FFFF] && calls[..2] == [0xFFFF_FFFF, 0];
    OneMoreCall(0xFFFF_FFFE, [], 0xFFFF_FFFF);
    OneMoreCall(0xFFFF_FFFE, [0xFFFF_FFFF], 0);
    assert [] + [0xFFFF_FFFF] == [0xFFFF_FFFF] && [0xFFFF_FFFF] + [0] == [0xFFFF_FFFF, 0];
  }

  /** And with no 0 offered, three advances of less than 2^31 each take the register round. */
  lemma FullTurnReopensTheFilter()
    ensures var calls := [1, 0x6000_0000, 0xB000_0000, 1];
            forall k :: 0 <= k < 4 ==> VerdictAt(0, calls, k) == New
  {
    var calls: seq<U32> := [1, 0x6000_0000, 0xB000_0000, 1];
    assert calls[..0] == [] && calls[..1] == [1] && calls[..2] == [1, 0x6000_0000];
    assert calls[..3] == [1, 0x6000_0000, 0xB000_0000];
    OneMoreCall(0, [], 1);
    OneMoreCall(0, [1], 0x6000_0000);
    OneMoreCall(0, [1, 0x6000_0000], 0xB000_0000);
    assert [] + [1] == [1] && [1] + [0x6000_0000] == [1, 0x6000_0000];
    assert [1, 0x6000_0000] + [0xB000_0000] == [1, 0x6000_0000, 0xB000_0000];
  }

  // ---- every interleaving over a window of sequences --------------------------------------------

  /** q is one of the 2^31 sequences from `base` on, and not 0. */
  predicate InWindow(base: U32, q: U32) {
    q != 0 && WrappingSub(q, base) < TWO31
  }

  /** The position of a register value: 0 ("unset") lies below the whole window. */
  function Height(base: U32, q: U32): nat {
    if q == 0 then 0 else 1 + WrappingSub(q, base)
  }

  lemma DecideComparesHeights(base: U32, current: U32, q: U32)
    requires InWindow(base, q) && (current == 0 || InWindow(base, current))
    ensures Decide(current, q) == (if Height(base, q) > Height(base, current) then None
                                   else if q == current then Some(Existing) else Some(Stale))
    ensures Height(base, q) == Height(base, current) <==> q == current
  {
  }

  ghost predicate Offered(base: U32, initial: U32, sequences: seq<U32>) {
    && (initial == 0 || InWindow(base, initial))
    && forall k :: 0 <= k < |sequences| ==> InWindow(base, sequences[k])
  }

  ghost predicate ThreadInv(base: U32, s: State, t: Thread) {
    && InWindow(base, t.sequence)
    && (t.Looping? ==>
          && (t.current == 0 || InWindow(base, t.current))
          && Height(base, t.current) <= Height(base, s.register))
    && (t.Done? ==> Height(base, t.sequence) <= Height(base, s.register))
  }

  predicate Won(t: Thread) {
    t.Done? && t.verdict == New
  }

  ghost predicate Inv(base: U32, initial: U32, s: State) {
    && (s.register == 0 || InWindow(base, s.register))
    && Height(base, initial) <= Height(base, s.register)
    && (forall i :: 0 <= i < |s.threads| ==> ThreadInv(base, s, s.threads[i]))
    && (s.register == initial
        || exists i :: 0 <= i < |s.threads| && Won(s.threads[i]) && s.threads[i].sequence == s.register)
    && (forall i :: 0 <= i < |s.threads| && Won(s.threads[i]) ==>
          Height(base, s.threads[i].sequence) > Height(base, initial))
    && (forall i, j :: (0 <= i < j < |s.threads| && Won(s.threads[i]) && Won(s.threads[j])) ==>
          s.threads[i].sequence != s.threads[j].sequence)
  }

  /** One thread's step: the register only rises, and exactly a New verdict raises it. */
  lemma ThreadStep(base: U32, s: State, i: nat)
    requires i < |s.threads| && ThreadInv(base, s, s.threads[i]) && (s.register == 0 || InWindow(base, s.register))
    ensures var s' := Step(s, i);
            && ThreadInv(base, s', s'.threads[i])
            && (s'.register == 0 || InWindow(base, s'.register))
            && (if s'.register == s.register then s'.advances == s.advances
                else && s'.advances == s.advances + 1 && Won(s'.threads[i]) && s'.threads[i].sequence == s'.register
                     && Height(base, s'.register) > Height(base, s.register))
            && (Won(s'.threads[i]) ==> Won(s.threads[i]) || s'.register != s.register)
            && (Won(s.threads[i]) ==> s' == s)
  {
    var t := s.threads[i];
    if t.Looping? {
      DecideComparesHeights(base, t.current, t.sequence);
    }
    if t.Done? {
      assert s.threads[i := t] == s.threads;
    }
  }

  lemma OthersKeep(base: U32, s: State, s': State, t: Thread)
    requires ThreadInv(base, s, t) && Height(base, s.register) <= Height(base, s'.register)
    requires if s'.register == s.register then s'.advances == s.advances
             else s'.advances == s.advances + 1 && Height(base, s'.register) > Height(base, s.register)
    ensures ThreadInv(base, s', t)
  {
  }

  lemma StepInv(base: U32, initial: U32, s: State, i: nat)
    requires Inv(base, initial, s)
    ensures Inv(base, initial, Step(s, i))
    ensures Height(base, Step(s, i).register) >= Height(base, s.register)
  {
    if i < |s.threads| {
      var s' := Step(s, i);
      ThreadStep(base, s, i);
      forall k | 0 <= k < |s'.threads|
        ensures ThreadInv(base, s', s'.threads[k])
      {
        if k != i { OthersKeep(base, s, s', s.threads[k]); }
      }
      if s'.register == s.register && s.register != initial {
        var k :| 0 <= k < |s.threads| && Won(s.threads[k]) && s.threads[k].sequence == s.register;
        assert Won(s'.threads[k]) && s'.threads[k].sequence == s'.register;
      }
    }
  }

  lemma {:induction false} RunInv(base: U32, initial: U32, sequences: seq<U32>, schedule: seq<nat>)
    requires Offered(base, initial, sequences)
    ensures Inv(base, initial, Run(Init(sequences, initial), schedule))
  {
    if schedule != [] {
      RunInv(base, initial, sequences, schedule[..|schedule| - 1]);
      StepInv(base, initial, Run(Init(sequences, initial), schedule[..|schedule| - 1]), schedule[|schedule| - 1]);
    }
  }

  /** The register never moves back, whatever the interleaving. */
  lemma RegisterNeverDecreases(base: U32, initial: U32, sequences: seq<U32>, schedule: seq<nat>, i: nat)
    requires Offered(base, initial, sequences)
    ensures Height(base, Run(Init(sequences, initial), schedule).register)
            <= Height(base, Run(Init(sequences, initial), schedule + [i]).register)
  {
    RunInv(base, initial, sequences, schedule);
    assert (schedule + [i])[..|schedule|] == schedule;
    StepInv(base, initial, Run(Init(sequences, initial), schedule), i);
  }

  /** Each sequence is reported New at most once, and only above the initial register. */
  lemma NewAtMostOnce(base: U32, initial: U32, sequences: seq<U32>, schedule: seq<nat>, i: nat, j: nat)
    requires Offered(base, initial, sequences)
    requires var ts := Run(Init(sequences, initial), schedule).threads;
             i < j < |ts| && Won(ts[i]) && Won(ts[j])
    ensures var ts := Run(Init(sequences, initial), schedule).threads;
            ts[i].sequence != ts[j].sequence && Height(base, ts[i].sequence) > Height(base, initial)
  {
    RunInv(base, initial, sequences, schedule);
  }

  lemma {:induction false} ThreadsKeepTheirSequence(s: State, schedule: seq<nat>)
    ensures var s' := Run(s, schedule);
            |s'.threads| == |s.threads|
            && forall i :: 0 <= i < |s.threads| ==> s'.threads[i].sequence == s.threads[i].sequence
  {
    if schedule != [] {
      ThreadsKeepTheirSequence(s, schedule[..|schedule| - 1]);
    }
  }

  /** Once every call has returned, the register is the highest of its initial value and everything
      offered. */
  lemma QuiescentRegisterIsMaximum(base: U32, initial: U32, sequences: seq<U32>, schedule: seq<nat>)
    requires Offered(base, initial, sequences)
    requires var s := Run(Init(sequences, initial), schedule);
             forall i :: 0 <= i < |s.threads| ==> s.threads[i].Done?
    ensures var s := Run(Init(sequences, initial), schedule);
            && (forall i :: 0 <= i < |sequences| ==> Height(base, sequences[i]) <= Height(base, s.register))
            && Height(base, initial) <= Height(base, s.register)
            && (s.register == initial || s.register in sequences)
  {
    var s := Run(Init(sequences, initial), schedule);
    RunInv(base, initial, sequences, schedule);
    ThreadsKeepTheirSequence(Init(sequences, initial), schedule);
    forall i | 0 <= i < |sequences|
      ensures Height(base, sequences[i]) <= Height(base, s.register)
    {
      assert ThreadInv(base, s, s.threads[i]);
    }
    if s.register != initial {
      var k :| 0 <= k < |s.threads| && Won(s.threads[k]) && s.threads[k].sequence == s.register;
      assert sequences[k] == s.register;
    }
  }

  // ---- termination, for all sequences -----------------------------------------------------------

  /** What a thread may still cost; a stale local copy costs one more than a current one. */
  function Cost(t: Thread, register: U32, n: nat): nat {
    match t
    case Waiting(_) => n + 3
    case Looping(_, current, _, _, _) => if current == register then n + 1 else n + 2
    case Done(_, _, _, _) => 0
  }

  function Work(ts: seq<Thread>, register: U32, n: nat): nat {
    if ts == [] then 0 else Work(ts[..|ts| - 1], register, n) + Cost(ts[|ts| - 1], register, n)
  }

  lemma {:induction false} WorkUpdate(ts: seq<Thread>, i: nat, t: Thread, register: U32, n: nat)
    requires i < |ts|
    ensures Work(ts[i := t], register, n) == Work(ts, register, n) - Cost(ts[i], register, n) + Cost(t, register, n)
    decreases |ts|
  {
    var m := |ts| - 1;
    if i < m {
      WorkUpdate(ts[..m], i, t, register, n);
      assert ts[i := t][..m] == ts[..m][i := t];
    } else {
      assert ts[i := t][..m] == ts[..m];
    }
  }

  lemma {:induction false} WorkAfterAdvance(ts: seq<Thread>, register: U32, register': U32, n: nat)
    ensures Work(ts, register', n) <= Work(ts, register, n) + |ts|
  {
    if ts != [] {
      WorkAfterAdvance(ts[..|ts| - 1], register, register', n);
    }
  }

  /** Each step of an unfinished call lowers the remaining work, so every schedule ends. */
  lemma StepLowersWork(s: State, i: nat)
    requires i < |s.threads| && !s.threads[i].Done?
    ensures var n := |s.threads|;
            Work(Step(s, i).threads, Step(s, i).register, n) < Work(s.threads, s.register, n)
  {
    var n, s' := |s.threads|, Step(s, i);
    var t := s'.threads[i];
    assert s'.threads == s.threads[i := t];
    WorkUpdate(s.threads, i, t, s.register, n);
    if s'.register != s.register {
      WorkAfterAdvance(s'.threads, s.register, s'.register, n);
    }
  }

  /** The steps of a schedule that some unfinished call takes. */
  function ActiveSteps(s: State, schedule: seq<nat>): nat {
    if schedule == [] then 0
    else
      var before, i := Run(s, schedule[..|schedule| - 1]), schedule[|schedule| - 1];
      ActiveSteps(s, schedule[..|schedule| - 1])
      + (if i < |before.threads| && !before.threads[i].Done? then 1 else 0)
  }

  lemma {:induction false} InitialWork(sequences: seq<U32>, register: U32, n: nat)
    ensures Work(Init(sequences, register).threads, register, n) == |sequences| * (n + 3)
  {
    if sequences != [] {
      var m := |sequences| - 1;
      InitialWork(sequences[..m], register, n);
      assert Init(sequences, register).threads[..m] == Init(sequences[..m], register).threads;
    }
  }

  lemma {:induction false} ActiveStepsBounded(s: State, schedule: seq<nat>)
    ensures var s', n := Run(s, schedule), |s.threads|;
            ActiveSteps(s, schedule) + Work(s'.threads, s'.register, n) <= Work(s.threads, s.register, n)
  {
    if schedule != [] {
      var init, i := schedule[..|schedule| - 1], schedule[|schedule| - 1];
      ActiveStepsBounded(s, init);
      ThreadsKeepTheirSequence(s, init);
      var before := Run(s, init);
      if i < |before.threads| && !before.threads[i].Done? {
        StepLowersWork(before, i);
      } else if i < |before.threads| {
        assert before.threads[i := before.threads[i]] == before.threads;
      }
    }
  }

  /** n concurrent calls, on any sequences at all, take at most n * (n + 3) steps in total. */
  lemma AllCallsFinish(sequences: seq<U32>, register: U32, schedule: seq<nat>)
    ensures ActiveSteps(Init(sequences, register), schedule) <= |sequences| * (|sequences| + 3)
  {
    ActiveStepsBounded(Init(sequences, register), schedule);
    InitialWork(sequences, register, |sequences|);
  }
}
