/** The lock-free playback ring of crates/audio_core/src/buffers.rs, lines 66-232.

    One producer thread pushes and one consumer thread drains, peeks or clears. Every atomic
    load, atomic store and slot access is one step of the machine below, and a schedule picks
    the steps in any order; a step that is not possible in a state leaves the state alone. */
module SpscSteps {
  import opened Common
  import Ring = RingIndex

  type Sample = real

  /** push: load `write`, load `read` (and give up when full), write the slot, store `write`. */
  datatype Producer =
    | Idle
    | LoadedWrite(sample: Sample, w: nat)
    | SlotFree(sample: Sample, w: nat, next: nat)
    | SlotWritten(sample: Sample, w: nat, next: nat)

  /** drain_into, mix_into and peek_energy share the reading loop; only the first two store
      `read` afterwards. `seen` is the number of samples buffered when `write` was loaded. */
  datatype Consumer =
    | Resting
    | HasWrite(room: nat, commit: bool, w: nat, seen: nat)
    | Reading(room: nat, commit: bool, seen: nat, r: nat, count: nat, got: seq<Sample>)
    | Clearing(w: nat)

  /** What each of the consumer's calls took out of the ring or, peeking, looked at. */
  datatype Removal =
    | Drained(room: nat, seen: nat, samples: seq<Sample>)
    | Peeked(samples: seq<Sample>)
    | Discarded(samples: seq<Sample>)

  /** The ring and the two threads; `offered`, `accepted`, `dropped` and `removed` are history. */
  datatype State = State(
    data: seq<Sample>,
    write: nat,
    read: nat,
    producer: Producer,
    consumer: Consumer,
    offered: seq<Sample>,
    accepted: seq<Sample>,
    dropped: nat,
    removed: seq<Removal>)

  datatype Action =
    | StartPush(sample: Sample)
    | Produce
    | StartDrain(room: nat)
    | StartPeek
    | StartClear
    | Consume

  const PEEK_SAMPLES := 480

  function Init(cap: nat): State {
    State(seq(cap, _ => 0.0), 0, 0, Idle, Resting, [], [], 0, [])
  }

  ghost predicate Shape(s: State) {
    Ring.Cursors(|s.data|, s.read, s.write)
  }

  function Held(s: State): nat
    requires Shape(s)
  {
    Ring.Len(|s.data|, s.read, s.write)
  }

  function Buffered(s: State): seq<Sample>
    requires Shape(s)
  {
    Ring.Contents(s.data, s.read, s.write)
  }

  function SamplesOf(r: Removal): seq<Sample> {
    if r.Peeked? then [] else r.samples
  }

  function Removed(rs: seq<Removal>): seq<Sample> {
    if rs == [] then [] else Removed(rs[..|rs| - 1]) + SamplesOf(rs[|rs| - 1])
  }

  lemma RemovedAppend(rs: seq<Removal>, r: Removal)
    ensures Removed(rs + [r]) == Removed(rs) + SamplesOf(r)
  {
    assert (rs + [r])[..|rs|] == rs;
  }

  function ProducerStep(s: State): State
    requires Shape(s) && ProducerInv(s)
  {
    var cap := |s.data|;
    match s.producer
    case Idle => s
    case LoadedWrite(x, w) =>
      var next := Ring.At(w + 1, cap);
      if next == s.read then s.(producer := Idle, dropped := s.dropped + 1)
      else s.(producer := SlotFree(x, w, next))
    case SlotFree(x, w, next) =>
      s.(data := s.data[w := x], producer := SlotWritten(x, w, next))
    case SlotWritten(x, _, next) =>
      s.(write := next, producer := Idle, accepted := s.accepted + [x])
  }

  function ConsumerStep(s: State): State
    requires Shape(s) && ConsumerInv(s)
  {
    var cap := |s.data|;
    match s.consumer
    case Resting => s
    case HasWrite(room, commit, w, seen) =>
      var available := Ring.At(w + cap - s.read, cap);
      var count := Min(room, available);
      if count == 0 then
        s.(consumer := Resting,
           removed := s.removed + [if commit then Drained(room, seen, []) else Peeked([])])
      else s.(consumer := Reading(room, commit, seen, s.read, count, []))
    case Reading(room, commit, seen, r, count, got) =>
      if |got| < count then
        var sample := s.data[Ring.SplitIndex(r, count, |got|, cap)];
        s.(consumer := Reading(room, commit, seen, r, count, got + [sample]))
      else if commit then
        s.(read := Ring.At(r + count, cap), consumer := Resting,
           removed := s.removed + [Drained(room, seen, got)])
      else s.(consumer := Resting, removed := s.removed + [Peeked(got)])
    case Clearing(w) =>
      s.(read := w, consumer := Resting,
         removed := s.removed + [Discarded(Ring.Contents(s.data, s.read, w))])
  }

  function Step(s: State, a: Action): State
    requires Safe(s)
  {
    match a
    case StartPush(x) =>
      if s.producer.Idle? then s.(producer := LoadedWrite(x, s.write), offered := s.offered + [x]) else s
    case Produce => ProducerStep(s)
    case StartDrain(room) =>
      if s.consumer.Resting? then s.(consumer := HasWrite(room, true, s.write, Held(s))) else s
    case StartPeek =>
      if s.consumer.Resting? then s.(consumer := HasWrite(PEEK_SAMPLES, false, s.write, Held(s))) else s
    case StartClear =>
      if s.consumer.Resting? then s.(consumer := Clearing(s.write)) else s
    case Consume => ConsumerStep(s)
  }

  ghost predicate ProducerInv(s: State)
    requires Shape(s)
  {
    match s.producer
    case Idle => true
    case LoadedWrite(_, w) => w == s.write
    case SlotFree(_, w, next) =>
      w == s.write && next == Ring.At(w + 1, |s.data|) && Held(s) < |s.data| - 1
    case SlotWritten(x, w, next) =>
      && w == s.write && next == Ring.At(w + 1, |s.data|) && Held(s) < |s.data| - 1
      && s.data[w] == x
  }

  ghost predicate ConsumerInv(s: State)
    requires Shape(s)
  {
    match s.consumer
    case Resting => true
    case HasWrite(_, _, w, seen) =>
      w < |s.data| && seen == Ring.Len(|s.data|, s.read, w) && seen <= Held(s)
    case Reading(room, _, seen, r, count, got) =>
      && r == s.read && 0 < count == Min(room, seen) && count <= Held(s)
      && |got| <= count && got == Buffered(s)[..|got|]
    case Clearing(w) =>
      w < |s.data| && Ring.Len(|s.data|, s.read, w) <= Held(s)
  }

  ghost function Pending(p: Producer): nat {
    if p.Idle? then 0 else 1
  }

  /** Everything accepted is what was removed followed by what is buffered. */
  ghost predicate Fifo(s: State)
    requires Shape(s)
  {
    Removed(s.removed) + Buffered(s) == s.accepted
  }

  /** Each drain hands over all it has room for of what was buffered when it loaded `write`. */
  ghost predicate FullRuns(rs: seq<Removal>) {
    forall i :: 0 <= i < |rs| && rs[i].Drained? ==> |rs[i].samples| == Min(rs[i].room, rs[i].seen)
  }

  /** Pushes are accepted in the order offered; the others are counted as dropped. */
  ghost predicate Offers(s: State) {
    && |s.offered| == |s.accepted| + s.dropped + Pending(s.producer)
    && (match s.producer
        case Idle => IsSubsequence(s.accepted, s.offered)
        case _ =>
          && s.offered != [] && s.offered[|s.offered| - 1] == s.producer.sample
          && IsSubsequence(s.accepted, s.offered[..|s.offered| - 1]))
  }

  /** What keeps every slot access in range and both threads' local copies usable. */
  ghost predicate Safe(s: State) {
    Shape(s) && ProducerInv(s) && ConsumerInv(s)
  }

  ghost predicate Inv(s: State) {
    Safe(s) && Fifo(s) && FullRuns(s.removed) && Offers(s)
  }

  /** The producer only ever appends to the buffered samples, and only when it stores `write`. */
  lemma ProducerEffect(s: State)
    requires Shape(s) && ProducerInv(s)
    ensures var s' := ProducerStep(s);
            && Shape(s') && s'.read == s.read && |s'.data| == |s.data|
            && s'.consumer == s.consumer && s'.removed == s.removed
            && Buffered(s') == (if s.producer.SlotWritten? then Buffered(s) + [s.producer.sample] else Buffered(s))
  {
    match s.producer
    case Idle =>
    case LoadedWrite(_, _) =>
    case SlotFree(x, _, _) =>
      Ring.AppendSlot(s.data, s.read, s.write, x);
    case SlotWritten(x, w, _) =>
      assert s.data[w := x] == s.data;
      Ring.AppendSlot(s.data, s.read, s.write, x);
  }

  lemma ProducerKeepsOffers(s: State)
    requires Inv(s)
    ensures Offers(ProducerStep(s))
  {
    if !s.producer.Idle? {
      var earlier, x := s.offered[..|s.offered| - 1], s.producer.sample;
      assert s.offered == earlier + [x];
      SubsequenceGrows(s.accepted, earlier, x);
    }
  }

  lemma ProducerStepSafe(s: State)
    requires Safe(s)
    ensures Safe(ProducerStep(s))
  {
    var s' := ProducerStep(s);
    ProducerEffect(s);
    assert ProducerInv(s');
    assert Buffered(s) <= Buffered(s');
    if s.consumer.Reading? {
      var n := |s.consumer.got|;
      assert Buffered(s')[..n] == Buffered(s)[..n];
    }
  }

  lemma ProducerStepInv(s: State)
    requires Inv(s)
    ensures Inv(ProducerStep(s))
  {
    ProducerStepSafe(s);
    ProducerEffect(s);
    ProducerKeepsOffers(s);
    if s.producer.SlotWritten? {
      var x := s.producer.sample;
      assert Removed(s.removed) + (Buffered(s) + [x]) == s.accepted + [x];
    }
  }

  /** The samples a step of the consumer takes out of the ring. */
  ghost function Taken(s: State): seq<Sample>
    requires Shape(s) && ConsumerInv(s)
  {
    match s.consumer
    case Reading(_, commit, _, _, count, got) => if commit && |got| == count then got else []
    case Clearing(w) => Ring.Contents(s.data, s.read, w)
    case _ => []
  }

  lemma ConsumerEffect(s: State)
    requires Shape(s) && ConsumerInv(s)
    ensures var s' := ConsumerStep(s);
            && Shape(s') && s'.data == s.data && s'.write == s.write && s'.producer == s.producer
            && Buffered(s) == Taken(s) + Buffered(s')
  {
    var s' := ConsumerStep(s);
    match s.consumer
    case Resting =>
    case HasWrite(_, _, _, _) =>
    case Reading(_, _, _, _, _, _) =>
      ReadingEffect(s);
    case Clearing(w) =>
      ClearedRun(s, w);
  }

  lemma ReadingEffect(s: State)
    requires Shape(s) && ConsumerInv(s) && s.consumer.Reading?
    ensures Shape(ConsumerStep(s)) && Buffered(s) == Taken(s) + Buffered(ConsumerStep(s))
  {
    var c := s.consumer;
    if |c.got| == c.count {
      DrainedRun(s, c.count);
    }
  }

  lemma DrainedRun(s: State, count: nat)
    requires Shape(s) && count <= Held(s)
    ensures var read' := Ring.At(s.read + count, |s.data|);
            Buffered(s) == Buffered(s)[..count] + Ring.Contents(s.data, read', s.write)
  {
    Ring.DropFront(s.data, s.read, s.write, count);
  }

  lemma ClearedRun(s: State, w: nat)
    requires Shape(s) && w < |s.data| && Ring.Len(|s.data|, s.read, w) <= Held(s)
    ensures Buffered(s) == Ring.Contents(s.data, s.read, w) + Ring.Contents(s.data, w, s.write)
  {
    var k := Ring.Len(|s.data|, s.read, w);
    assert w == Ring.At(s.read + k, |s.data|);
    Ring.DropFront(s.data, s.read, s.write, k);
    assert Ring.Contents(s.data, s.read, w) == Buffered(s)[..k];
  }

  lemma FullRunsGrow(rs: seq<Removal>, r: Removal)
    requires FullRuns(rs) && (r.Drained? ==> |r.samples| == Min(r.room, r.seen))
    ensures FullRuns(rs + [r])
  {
  }

  lemma ConsumerKeepsFullRuns(s: State)
    requires Shape(s) && ConsumerInv(s) && FullRuns(s.removed)
    ensures FullRuns(ConsumerStep(s).removed)
  {
    match s.consumer
    case HasWrite(room, commit, _, seen) =>
      FullRunsGrow(s.removed, Peeked([]));
      if commit && Min(room, seen) == 0 {
        FullRunsGrow(s.removed, Drained(room, seen, []));
      }
    case Reading(room, _, seen, _, count, got) =>
      FullRunsGrow(s.removed, Peeked(got));
      if |got| == count {
        FullRunsGrow(s.removed, Drained(room, seen, got));
      }
    case Clearing(w) =>
      FullRunsGrow(s.removed, Discarded(Ring.Contents(s.data, s.read, w)));
    case _ =>
  }

  lemma ConsumerRecords(s: State)
    requires Shape(s) && ConsumerInv(s)
    ensures var s' := ConsumerStep(s);
            && Removed(s'.removed) == Removed(s.removed) + Taken(s)
            && s'.accepted == s.accepted && s'.offered == s.offered && s'.dropped == s.dropped
  {
    match s.consumer
    case Resting =>
    case HasWrite(room, commit, _, seen) =>
      RemovedAppend(s.removed, Drained(room, seen, []));
      RemovedAppend(s.removed, Peeked([]));
    case Reading(room, _, seen, _, _, got) =>
      RemovedAppend(s.removed, Drained(room, seen, got));
      RemovedAppend(s.removed, Peeked(got));
    case Clearing(w) =>
      RemovedAppend(s.removed, Discarded(Ring.Contents(s.data, s.read, w)));
  }

  lemma ConsumerKeepsShape(s: State)
    requires Shape(s) && ConsumerInv(s)
    ensures Shape(ConsumerStep(s)) && ConsumerInv(ConsumerStep(s))
  {
    match s.consumer
    case Reading(_, _, _, _, count, got) =>
      if |got| < count {
        assert Buffered(s)[..|got| + 1] == Buffered(s)[..|got|] + [Buffered(s)[|got|]];
      }
    case _ =>
  }

  lemma ConsumerStepSafe(s: State)
    requires Safe(s)
    ensures Safe(ConsumerStep(s))
  {
    ConsumerKeepsShape(s);
    ConsumerEffect(s);
    assert |Buffered(ConsumerStep(s))| <= |Buffered(s)|;
  }

  lemma ConsumerStepInv(s: State)
    requires Inv(s)
    ensures Inv(ConsumerStep(s))
  {
    ConsumerStepSafe(s);
    ConsumerEffect(s);
    ConsumerRecords(s);
    ConsumerKeepsFullRuns(s);
    ConsumerKeepsFifo(s);
  }

  lemma Regroup(before: seq<Sample>, taken: seq<Sample>, after: seq<Sample>)
    ensures (before + taken) + after == before + (taken + after)
  {
  }

  lemma ConsumerKeepsFifo(s: State)
    requires Shape(s) && ConsumerInv(s) && Fifo(s) && Shape(ConsumerStep(s))
    ensures Fifo(ConsumerStep(s))
  {
    ConsumerEffect(s);
    ConsumerRecords(s);
    Regroup(Removed(s.removed), Taken(s), Buffered(ConsumerStep(s)));
  }

  lemma StepInv(s: State, a: Action)
    requires Inv(s)
    ensures Inv(Step(s, a))
  {
    match a
    case StartPush(x) => assert (s.offered + [x])[..|s.offered|] == s.offered;
    case Produce => ProducerStepInv(s);
    case Consume => ConsumerStepInv(s);
    case _ =>
  }

  lemma StepSafe(s: State, a: Action)
    requires Safe(s)
    ensures Safe(Step(s, a)) && |Step(s, a).data| == |s.data|
  {
    match a
    case Produce => ProducerStepSafe(s);
    case Consume => ConsumerStepSafe(s);
    case _ =>
  }

  /** The state after a schedule, for a ring built with `cap` slots. */
  function Run(cap: nat, schedule: seq<Action>): (s: State)
    requires 0 < cap
    ensures Safe(s) && |s.data| == cap
  {
    if schedule == [] then Init(cap)
    else
      var before := Run(cap, schedule[..|schedule| - 1]);
      StepSafe(before, schedule[|schedule| - 1]);
      Step(before, schedule[|schedule| - 1])
  }

  lemma {:induction false} RunInv(cap: nat, schedule: seq<Action>)
    requires 0 < cap
    ensures Inv(Run(cap, schedule))
  {
    if schedule != [] {
      RunInv(cap, schedule[..|schedule| - 1]);
      StepInv(Run(cap, schedule[..|schedule| - 1]), schedule[|schedule| - 1]);
    }
  }

  /** FIFO refinement: whatever the interleaving, the runs drained and the runs discarded by
      `clear`, in order, followed by the buffered samples are exactly the accepted pushes. */
  lemma FifoRefinement(cap: nat, schedule: seq<Action>)
    requires 0 < cap
    ensures var s := Run(cap, schedule);
            && Removed(s.removed) + Buffered(s) == s.accepted
            && IsSubsequence(s.accepted, s.offered)
            && |s.offered| == |s.accepted| + s.dropped + Pending(s.producer)
            && |Buffered(s)| < cap
  {
    var s := Run(cap, schedule);
    RunInv(cap, schedule);
    if !s.producer.Idle? {
      assert s.offered == s.offered[..|s.offered| - 1] + [s.producer.sample];
      SubsequenceGrows(s.accepted, s.offered[..|s.offered| - 1], s.producer.sample);
    }
  }

  lemma StepDiscardsNothing(s: State, a: Action)
    requires Safe(s) && a != StartClear
    requires !s.consumer.Clearing? && forall i :: 0 <= i < |s.removed| ==> !s.removed[i].Discarded?
    ensures var s' := Step(s, a);
            !s'.consumer.Clearing? && forall i :: 0 <= i < |s'.removed| ==> !s'.removed[i].Discarded?
  {
  }

  lemma {:induction false} NothingDiscarded(cap: nat, schedule: seq<Action>)
    requires 0 < cap && StartClear !in schedule
    ensures var s := Run(cap, schedule);
            !s.consumer.Clearing? && forall i :: 0 <= i < |s.removed| ==> !s.removed[i].Discarded?
  {
    if schedule != [] {
      NothingDiscarded(cap, schedule[..|schedule| - 1]);
      assert schedule[|schedule| - 1] in schedule;
      StepDiscardsNothing(Run(cap, schedule[..|schedule| - 1]), schedule[|schedule| - 1]);
    }
  }

  /** Without `clear`, what the callbacks received followed by what is buffered is what was pushed. */
  lemma FifoWithoutClear(cap: nat, schedule: seq<Action>)
    requires 0 < cap && StartClear !in schedule
    ensures var s := Run(cap, schedule);
            && Removed(s.removed) + Buffered(s) == s.accepted
            && (forall i :: 0 <= i < |s.removed| ==>
                  && !s.removed[i].Discarded?
                  && (s.removed[i].Drained? ==>
                        |s.removed[i].samples| == Min(s.removed[i].room, s.removed[i].seen)))
  {
    NothingDiscarded(cap, schedule);
    RunInv(cap, schedule);
  }

  // ---- what one call of the consumer hands over ------------------------------------------------

  predicate StartsConsumer(a: Action) {
    a.StartDrain? || a.StartPeek? || a.StartClear?
  }

  /** The call's outcome on the samples buffered when it began. */
  ghost predicate IsOutcome(call: Action, buffered: seq<Sample>, r: Removal)
    requires StartsConsumer(call)
  {
    match call
    case StartDrain(room) => r.Drained? && r.samples == buffered[..Min(room, |buffered|)]
    case StartPeek => r == Peeked(buffered[..Min(480, |buffered|)])
    case _ => r == Discarded(buffered)
  }

  /** The call is under way with these samples still at the front of the ring, or has had its outcome. */
  ghost predicate Underway(call: Action, buffered: seq<Sample>, earlier: seq<Removal>, s: State)
    requires StartsConsumer(call) && Safe(s)
  {
    match s.consumer
    case Resting => exists r :: s.removed == earlier + [r] && IsOutcome(call, buffered, r)
    case HasWrite(room, commit, w, seen) =>
      && s.removed == earlier && buffered <= Buffered(s) && seen == |buffered|
      && (if commit then call == StartDrain(room) else call.StartPeek? && room == 480)
    case Reading(room, commit, seen, _, count, got) =>
      && s.removed == earlier && buffered <= Buffered(s) && seen == |buffered| && count == Min(room, |buffered|)
      && (if commit then call == StartDrain(room) else call.StartPeek? && room == 480)
    case Clearing(w) =>
      && s.removed == earlier && buffered <= Buffered(s) && call.StartClear?
      && Ring.Len(|s.data|, s.read, w) == |buffered|
  }

  lemma CallStarts(s: State, call: Action)
    requires Safe(s) && s.consumer.Resting? && StartsConsumer(call)
    ensures Safe(Step(s, call)) && Underway(call, Buffered(s), s.removed, Step(s, call))
  {
    StepSafe(s, call);
  }

  lemma PrefixOfPrefix(a: seq<Sample>, b: seq<Sample>, n: nat)
    requires a <= b && n <= |a|
    ensures a[..n] == b[..n]
  {
  }

  lemma ConsumerContinues(call: Action, buffered: seq<Sample>, earlier: seq<Removal>, s: State)
    requires StartsConsumer(call) && Safe(s) && Underway(call, buffered, earlier, s) && Safe(ConsumerStep(s))
    ensures Underway(call, buffered, earlier, ConsumerStep(s))
  {
    var s' := ConsumerStep(s);
    match s.consumer
    case Resting =>
    case HasWrite(room, commit, _, seen) =>
      if s'.consumer.Resting? {
        var r := if commit then Drained(room, seen, []) else Peeked([]);
        assert s'.removed == earlier + [r] && IsOutcome(call, buffered, r);
      }
    case Reading(room, commit, seen, _, count, got) =>
      if s'.consumer.Resting? {
        PrefixOfPrefix(buffered, Buffered(s), count);
        var r := if commit then Drained(room, seen, got) else Peeked(got);
        assert s'.removed == earlier + [r] && IsOutcome(call, buffered, r);
      }
    case Clearing(w) =>
      ClearedRun(s, w);
      var front, back := Ring.Contents(s.data, s.read, w), Ring.Contents(s.data, w, s.write);
      assert front == (front + back)[..|front|] == buffered;
      assert s'.removed == earlier + [Discarded(buffered)];
  }

  lemma CallContinues(call: Action, buffered: seq<Sample>, earlier: seq<Removal>, s: State, a: Action)
    requires StartsConsumer(call) && Safe(s) && Underway(call, buffered, earlier, s) && !StartsConsumer(a)
    ensures Safe(Step(s, a)) && Underway(call, buffered, earlier, Step(s, a))
  {
    StepSafe(s, a);
    match a
    case Produce => ProducerEffect(s);
    case Consume => ConsumerContinues(call, buffered, earlier, s);
    case _ =>
  }

  lemma CallStartsInRun(cap: nat, a: seq<Action>, call: Action)
    requires 0 < cap && Run(cap, a).consumer.Resting? && StartsConsumer(call)
    ensures Underway(call, Buffered(Run(cap, a)), Run(cap, a).removed, Run(cap, a + [call]))
  {
    assert (a + [call])[..|a|] == a;
    CallStarts(Run(cap, a), call);
  }

  lemma CallContinuesInRun(
    cap: nat, call: Action, buffered: seq<Sample>, earlier: seq<Removal>, a: seq<Action>, x: Action)
    requires 0 < cap && StartsConsumer(call) && Underway(call, buffered, earlier, Run(cap, a)) && !StartsConsumer(x)
    ensures Underway(call, buffered, earlier, Run(cap, a + [x]))
  {
    assert (a + [x])[..|a|] == a;
    CallContinues(call, buffered, earlier, Run(cap, a), x);
  }

  lemma {:induction false} CallRuns(cap: nat, a: seq<Action>, call: Action, b: seq<Action>)
    requires 0 < cap && Run(cap, a).consumer.Resting? && StartsConsumer(call)
    requires forall k :: 0 <= k < |b| ==> !StartsConsumer(b[k])
    ensures Underway(call, Buffered(Run(cap, a)), Run(cap, a).removed, Run(cap, a + [call] + b))
    decreases |b|
  {
    if b == [] {
      CallStartsInRun(cap, a, call);
      assert a + [call] + b == a + [call];
    } else {
      var init, last := b[..|b| - 1], b[|b| - 1];
      CallRuns(cap, a, call, init);
      assert a + [call] + b == a + [call] + init + [last];
      CallContinuesInRun(cap, call, Buffered(Run(cap, a)), Run(cap, a).removed, a + [call] + init, last);
    }
  }

  /** Whatever the producer does meanwhile: a drain hands over exactly the oldest samples buffered when it began,
      as many as it has room for; a peek looks at the oldest 480 of them; a clear discards all of them. */
  lemma CallsHandOverWhatTheySaw(cap: nat, a: seq<Action>, call: Action, b: seq<Action>)
    requires 0 < cap && Run(cap, a).consumer.Resting? && StartsConsumer(call)
    requires forall k :: 0 <= k < |b| ==> !StartsConsumer(b[k])
    requires Run(cap, a + [call] + b).consumer.Resting?
    ensures exists r ::
              && Run(cap, a + [call] + b).removed == Run(cap, a).removed + [r]
              && IsOutcome(call, Buffered(Run(cap, a)), r)
  {
    CallRuns(cap, a, call, b);
  }

  /** The slot being written is never one the consumer may still read in its open window. */
  lemma WriteAvoidsOpenWindow(cap: nat, schedule: seq<Action>, i: nat)
    requires 0 < cap
    requires var s := Run(cap, schedule);
             s.producer.SlotFree? && s.consumer.Reading? && i < s.consumer.count
    ensures var s := Run(cap, schedule);
            Ring.SplitIndex(s.consumer.r, s.consumer.count, i, cap) != s.producer.w
  {
  }

  /** A push gives up exactly when the ring holds cap - 1 samples as it loads `read`. */
  lemma DroppedIffFull(cap: nat, schedule: seq<Action>)
    requires 0 < cap && Run(cap, schedule).producer.LoadedWrite?
    ensures var s := Run(cap, schedule);
            var s' := Run(cap, schedule + [Produce]);
            (s'.dropped == s.dropped + 1) <==> |Buffered(s)| == cap - 1
  {
    assert (schedule + [Produce])[..|schedule|] == schedule;
  }

  /** Steps the consumer still has to take before it rests again. */
  function ConsumerWork(c: Consumer): nat {
    match c
    case Resting => 0
    case HasWrite(room, _, _, _) => room + 2
    case Reading(_, _, _, _, count, got) => if |got| <= count then count - |got| + 1 else 0
    case Clearing(_) => 1
  }

  function ProducerWork(p: Producer): nat {
    match p
    case Idle => 0
    case LoadedWrite(_, _) => 3
    case SlotFree(_, _, _) => 2
    case SlotWritten(_, _, _) => 1
  }

  /** Neither side waits for the other: each own step brings it closer to its end, and steps of
      the other thread never add work. */
  lemma WaitFree(s: State, a: Action)
    requires Safe(s)
    ensures ConsumerWork(s.consumer) > 0 ==>
              (if a.Consume? then ConsumerWork(Step(s, a).consumer) < ConsumerWork(s.consumer)
               else Step(s, a).consumer == s.consumer)
    ensures ProducerWork(s.producer) > 0 ==>
              (if a.Produce? then ProducerWork(Step(s, a).producer) < ProducerWork(s.producer)
               else Step(s, a).producer == s.producer)
  {
  }
}
