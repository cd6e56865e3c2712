/** The zero-allocation audio path of `MediaSession::start`
    (crates/media_transport/src/lib.rs, lines 9-13 and 36-118): twelve buffers circulate between the
    return pool, the bounded channel, the capture callback and the sender task, which interleave. */
module MediaPool {
  import opened Common

  const POOL_BUF_CAPACITY: nat := 1024
  const POOL_SIZE: nat := 12
  const CHANNEL_CAPACITY: nat := 8
  /** The encoder's output array (crates/audio_core/src/lib.rs, line 88). */
  const OPUS_MAX_PACKET: nat := 512

  type Packet = seq<Byte>

  /** A heap buffer: which one it is, and what it holds. */
  datatype Buffer = Buffer(id: nat, content: Packet)

  datatype Callback =
    | Idle
    | Filling(buf: Buffer, frame: Packet)
    | Sending(buf: Buffer)
    | Recycling(buf: Buffer)

  datatype Sender =
    | Waiting
    | Locking(buf: Buffer)
    | Returning(buf: Buffer)

  /** The fields after `droppedFrames` are history: `overflows` counts frames refused by the channel, `skips`
      those given up waiting for the network lock, `failed` those the network refused. */
  datatype State = State(
    pool: seq<Buffer>,
    channel: seq<Buffer>,
    callback: Callback,
    sender: Sender,
    droppedFrames: nat,
    captured: seq<Packet>,
    sent: seq<Packet>,
    overflows: nat,
    skips: nat,
    failed: nat,
    fallbacks: nat)

  datatype Action =
    | Capture(frame: Packet)
    | CallbackStep
    | SenderReceive
    | LockTimeout
    | SendOk
    | SendError
    | SenderReturn

  function Init(): State {
    State(seq(POOL_SIZE, (i: nat) => Buffer(i, [])), [], Idle, Waiting, 0, [], [], 0, 0, 0, 0)
  }

  /** The callback takes the oldest pooled buffer and clears it, or allocates a new one. */
  function CaptureStep(s: State, frame: Packet): State {
    var s := s.(captured := s.captured + [frame]);
    if s.pool != [] then
      s.(pool := s.pool[1..], callback := Filling(Buffer(s.pool[0].id, []), frame))
    else
      s.(callback := Filling(Buffer(POOL_SIZE + s.fallbacks, []), frame), fallbacks := s.fallbacks + 1)
  }

  function CallbackTaskStep(s: State): State {
    match s.callback
    case Idle => s
    case Filling(buf, frame) => s.(callback := Sending(buf.(content := buf.content + frame)))
    case Sending(buf) =>
      if |s.channel| < CHANNEL_CAPACITY then s.(channel := s.channel + [buf], callback := Idle)
      else s.(droppedFrames := s.droppedFrames + 1, overflows := s.overflows + 1, callback := Recycling(buf))
    case Recycling(buf) => s.(pool := s.pool + [buf], callback := Idle)
  }

  function Step(s: State, a: Action): State {
    match a
    case Capture(frame) => if s.callback.Idle? then CaptureStep(s, frame) else s
    case CallbackStep => CallbackTaskStep(s)
    case SenderReceive =>
      if s.sender.Waiting? && s.channel != [] then
        s.(channel := s.channel[1..], sender := Locking(s.channel[0]))
      else s
    case LockTimeout =>
      if s.sender.Locking? then
        s.(droppedFrames := s.droppedFrames + 1, skips := s.skips + 1, sender := Returning(s.sender.buf))
      else s
    case SendOk =>
      if s.sender.Locking? then s.(sent := s.sent + [s.sender.buf.content], sender := Returning(s.sender.buf)) else s
    case SendError =>
      if s.sender.Locking? then s.(failed := s.failed + 1, sender := Returning(s.sender.buf)) else s
    case SenderReturn =>
      if s.sender.Returning? then s.(pool := s.pool + [s.sender.buf], sender := Waiting) else s
  }

  function Run(schedule: seq<Action>): State {
    if schedule == [] then Init() else Step(Run(schedule[..|schedule| - 1]), schedule[|schedule| - 1])
  }

  // ---- where the buffers are --------------------------------------------------------------------

  function Ids(bufs: seq<Buffer>): (ids: seq<nat>)
    ensures |ids| == |bufs| && forall i :: 0 <= i < |ids| ==> ids[i] == bufs[i].id
  {
    seq(|bufs|, i requires 0 <= i < |bufs| => bufs[i].id)
  }

  lemma PutAtBack(bufs: seq<Buffer>, b: Buffer)
    ensures multiset(Ids(bufs + [b])) == multiset(Ids(bufs)) + multiset{b.id}
  {
    assert Ids(bufs + [b]) == Ids(bufs) + [b.id];
  }

  lemma TakeFromFront(bufs: seq<Buffer>)
    requires bufs != []
    ensures multiset(Ids(bufs)) == multiset{bufs[0].id} + multiset(Ids(bufs[1..]))
  {
    assert Ids(bufs) == [bufs[0].id] + Ids(bufs[1..]);
  }

  function CallbackHand(c: Callback): multiset<nat> {
    if c.Idle? then multiset{} else multiset{c.buf.id}
  }

  function SenderHand(t: Sender): multiset<nat> {
    if t.Waiting? then multiset{} else multiset{t.buf.id}
  }

  /** The identities of all buffers in circulation. */
  function Circulating(s: State): multiset<nat> {
    multiset(Ids(s.pool)) + multiset(Ids(s.channel)) + CallbackHand(s.callback) + SenderHand(s.sender)
  }

  function Seeded(): multiset<nat> {
    multiset(Ids(Init().pool))
  }

  ghost predicate Conserved(s: State) {
    Circulating(s) == Seeded() && s.fallbacks == 0 && |s.channel| <= CHANNEL_CAPACITY
  }

  /** While the callback is idle at least three of the twelve buffers are pooled. */
  lemma PoolNeverEmptyForCallback(s: State)
    requires Conserved(s) && s.callback.Idle?
    ensures |s.pool| >= POOL_SIZE - CHANNEL_CAPACITY - 1
  {
    assert |Circulating(s)| == |Ids(s.pool)| + |Ids(s.channel)| + |SenderHand(s.sender)|;
    assert |Seeded()| == POOL_SIZE;
  }

  lemma CaptureConserves(s: State, frame: Packet)
    requires Conserved(s) && s.callback.Idle?
    ensures Conserved(CaptureStep(s, frame))
  {
    PoolNeverEmptyForCallback(s);
    TakeFromFront(s.pool);
  }

  lemma CallbackConserves(s: State)
    requires Conserved(s)
    ensures Conserved(CallbackTaskStep(s))
  {
    if !s.callback.Idle? {
      PutAtBack(s.pool, s.callback.buf);
      PutAtBack(s.channel, s.callback.buf);
    }
  }

  lemma ReceiveConserves(s: State)
    requires Conserved(s)
    ensures Conserved(Step(s, SenderReceive))
  {
    if s.channel != [] {
      TakeFromFront(s.channel);
    }
  }

  lemma ReturnConserves(s: State)
    requires Conserved(s)
    ensures Conserved(Step(s, SenderReturn))
  {
    if s.sender.Returning? {
      PutAtBack(s.pool, s.sender.buf);
    }
  }

  predicate IsDecision(a: Action) {
    a.LockTimeout? || a.SendOk? || a.SendError?
  }

  /** Deciding about the frame in the sender's hand moves no buffer. */
  lemma DecisionConserves(s: State, a: Action)
    requires Conserved(s) && IsDecision(a)
    ensures Conserved(Step(s, a))
  {
    var s' := Step(s, a);
    assert SenderHand(s'.sender) == SenderHand(s.sender);
    assert s'.pool == s.pool && s'.channel == s.channel && s'.callback == s.callback;
  }

  lemma StepConserves(s: State, a: Action)
    requires Conserved(s)
    ensures Conserved(Step(s, a))
  {
    if IsDecision(a) {
      DecisionConserves(s, a);
    } else if a.Capture? {
      if s.callback.Idle? { CaptureConserves(s, a.frame); }
    } else if a.CallbackStep? {
      CallbackConserves(s);
    } else if a.SenderReceive? {
      ReceiveConserves(s);
    } else {
      ReturnConserves(s);
    }
  }

  // ---- what happens to the frames ---------------------------------------------------------------

  function Contents(bufs: seq<Buffer>): (cs: seq<Packet>)
    ensures |cs| == |bufs| && forall i :: 0 <= i < |cs| ==> cs[i] == bufs[i].content
  {
    seq(|bufs|, i requires 0 <= i < |bufs| => bufs[i].content)
  }

  function InCallback(c: Callback): seq<Packet> {
    match c
    case Filling(_, frame) => [frame]
    case Sending(buf) => [buf.content]
    case _ => []
  }

  function InSender(t: Sender): seq<Packet> {
    if t.Locking? then [t.buf.content] else []
  }

  /** Frames captured but not yet decided, in order of capture. */
  function InFlight(s: State): seq<Packet> {
    InSender(s.sender) + (Contents(s.channel) + InCallback(s.callback))
  }

  ghost predicate FramesTracked(s: State) {
    && IsSubsequence(s.sent + InFlight(s), s.captured)
    && |s.captured| == |s.sent| + s.failed + s.overflows + s.skips + |InFlight(s)|
    && s.droppedFrames == s.overflows + s.skips
    && (s.callback.Filling? ==> s.callback.buf.content == [])
  }

  lemma CaptureTracks(s: State, frame: Packet)
    requires FramesTracked(s) && s.callback.Idle?
    ensures FramesTracked(CaptureStep(s, frame))
  {
    var s' := CaptureStep(s, frame);
    SubsequenceGrows(s.sent + InFlight(s), s.captured, frame);
    assert InFlight(s') == InFlight(s) + [frame];
    assert s.sent + (InFlight(s) + [frame]) == (s.sent + InFlight(s)) + [frame];
  }

  lemma CallbackTracks(s: State)
    requires FramesTracked(s)
    ensures FramesTracked(CallbackTaskStep(s))
  {
    var s' := CallbackTaskStep(s);
    match s.callback
    case Filling(buf, frame) =>
      assert buf.content + frame == frame;
    case Sending(buf) =>
      if |s.channel| < CHANNEL_CAPACITY {
        assert InFlight(s') == InFlight(s);
      } else {
        assert s.sent + InFlight(s) == (s.sent + InFlight(s')) + [buf.content];
        SubsequencePrefix(s.sent + InFlight(s'), [buf.content], s.captured);
      }
    case _ =>
  }

  lemma ReceiveTracks(s: State)
    requires FramesTracked(s)
    ensures FramesTracked(Step(s, SenderReceive))
  {
    assert InFlight(Step(s, SenderReceive)) == InFlight(s);
  }

  lemma SendOrDrop(sent: seq<Packet>, frame: Packet, rest: seq<Packet>, captured: seq<Packet>)
    requires IsSubsequence(sent + ([frame] + rest), captured)
    ensures IsSubsequence((sent + [frame]) + rest, captured) && IsSubsequence(sent + rest, captured)
  {
    assert sent + ([frame] + rest) == sent + [frame] + rest;
    SubsequenceDropOne(sent, frame, rest, captured);
  }

  /** The frame in the sender's hand is sent, or dropped out of the sequence in flight. */
  lemma DecisionTracks(s: State, a: Action)
    requires FramesTracked(s) && s.sender.Locking? && IsDecision(a)
    ensures FramesTracked(Step(s, a))
  {
    var frame, rest := s.sender.buf.content, Contents(s.channel) + InCallback(s.callback);
    assert InFlight(s) == [frame] + rest;
    assert InFlight(Step(s, a)) == rest;
    SendOrDrop(s.sent, frame, rest, s.captured);
  }

  lemma StepTracks(s: State, a: Action)
    requires FramesTracked(s)
    ensures FramesTracked(Step(s, a))
  {
    match a
    case Capture(frame) => if s.callback.Idle? { CaptureTracks(s, frame); }
    case CallbackStep => CallbackTracks(s);
    case SenderReceive => ReceiveTracks(s);
    case SenderReturn =>
    case _ => if s.sender.Locking? { DecisionTracks(s, a); }
  }

  lemma {:induction false} RunInv(schedule: seq<Action>)
    ensures Conserved(Run(schedule)) && FramesTracked(Run(schedule))
  {
    if schedule != [] {
      RunInv(schedule[..|schedule| - 1]);
      StepConserves(Run(schedule[..|schedule| - 1]), schedule[|schedule| - 1]);
      StepTracks(Run(schedule[..|schedule| - 1]), schedule[|schedule| - 1]);
    }
  }

  /** In every reachable state the buffers in circulation are exactly the twelve seeded ones, nothing
      has been allocated, and an idle callback finds at least three buffers in the pool. */
  lemma TwelveBuffersCirculate(schedule: seq<Action>)
    ensures var s := Run(schedule);
            && Circulating(s) == Seeded()
            && s.fallbacks == 0
            && (s.callback.Idle? ==> |s.pool| >= 3)
  {
    RunInv(schedule);
    if Run(schedule).callback.Idle? {
      PoolNeverEmptyForCallback(Run(schedule));
    }
  }

  /** Sent frames are an in-order, unaltered subsequence of the captured ones; every captured frame is
      sent, failed, refused by the full channel, skipped for the lock, or still on its way; and
      `dropped_frames` is exactly the refused and the skipped ones. */
  lemma SentIsSubsequenceOfCaptured(schedule: seq<Action>)
    ensures var s := Run(schedule);
            && IsSubsequence(s.sent, s.captured)
            && s.droppedFrames == s.overflows + s.skips
            && |s.captured| == |s.sent| + s.failed + s.droppedFrames + |InFlight(s)|
            && |InFlight(s)| <= CHANNEL_CAPACITY + 2
  {
    RunInv(schedule);
    var s := Run(schedule);
    SubsequencePrefix(s.sent, InFlight(s), s.captured);
  }

  /** A frame is refused exactly when eight frames are queued, and then nothing else happens to any frame. */
  lemma RefusedIffEightQueued(schedule: seq<Action>)
    requires Run(schedule).callback.Sending?
    ensures var s, s' := Run(schedule), Run(schedule + [CallbackStep]);
            && (s'.overflows == s.overflows + 1 <==> |s.channel| == 8)
            && (s'.overflows == s.overflows <==> s'.channel == s.channel + [s.callback.buf])
            && s'.sent == s.sent && s'.skips == s.skips && s'.failed == s.failed
  {
    RunInv(schedule);
    assert (schedule + [CallbackStep])[..|schedule|] == schedule;
  }

  /** One frame from the callback to the network with nothing in between. */
  function SendUndisturbed(s: State, frame: Packet): State {
    var queued := Step(Step(Step(s, Capture(frame)), CallbackStep), CallbackStep);
    Step(Step(Step(queued, SenderReceive), SendOk), SenderReturn)
  }

  /** With nothing queued and the network willing, a captured frame is sent, byte for byte, and its buffer is back in
      the pool. */
  lemma CapturedFrameIsSent(s: State, frame: Packet)
    requires Conserved(s) && s.callback.Idle? && s.sender.Waiting? && s.channel == []
    ensures var s' := SendUndisturbed(s, frame);
            && s.pool != []
            && s'.sent == s.sent + [frame] && s'.droppedFrames == s.droppedFrames && s'.failed == s.failed
            && s'.callback.Idle? && s'.sender.Waiting? && s'.channel == []
            && s'.pool == s.pool[1..] + [Buffer(s.pool[0].id, frame)]
  {
    PoolNeverEmptyForCallback(s);
    var buf := Buffer(s.pool[0].id, frame);
    var sending := Step(Step(s, Capture(frame)), CallbackStep);
    assert sending.callback == Sending(buf) by {
      assert [] + frame == frame;
    }
    assert Step(sending, CallbackStep).channel == [buf];
  }

  // ---- the buffers never grow -------------------------------------------------------------------

  ghost predicate Fits(bufs: seq<Buffer>) {
    forall i :: 0 <= i < |bufs| ==> |bufs[i].content| <= POOL_BUF_CAPACITY
  }

  ghost predicate AllFit(s: State) {
    && Fits(s.pool) && Fits(s.channel)
    && (!s.sender.Waiting? ==> |s.sender.buf.content| <= POOL_BUF_CAPACITY)
    && (!s.callback.Idle? ==> |s.callback.buf.content| <= POOL_BUF_CAPACITY)
    && (s.callback.Filling? ==> s.callback.buf.content == [] && |s.callback.frame| <= OPUS_MAX_PACKET)
  }

  /** With frames no longer than the encoder's packets, no buffer outgrows the capacity it was
      allocated with, so filling one never reallocates it. */
  lemma {:induction false} BuffersNeverGrow(schedule: seq<Action>)
    requires forall i :: 0 <= i < |schedule| && schedule[i].Capture? ==> |schedule[i].frame| <= OPUS_MAX_PACKET
    ensures AllFit(Run(schedule))
  {
    if schedule != [] {
      BuffersNeverGrow(schedule[..|schedule| - 1]);
    }
  }
}
