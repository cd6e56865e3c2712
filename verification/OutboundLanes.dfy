/** One peer's outbound path: the reliable and the lossy lane, the drain task, and the connection
    loop that tears the peer down (crates/signaling_server/src/outbound.rs, lines 33-137;
    crates/signaling_server/src/connection.rs, lines 143-152, 236-239 and 371-399).

    Handlers, the relay, the ping task, the drain task and the connection loop interleave; each
    `try_send`, each poll of a lane, each sink write and each loop turn is one step. */
module OutboundLanes {
  import opened Common

  const MEDIA_LANE_CAPACITY: nat := 32
  const SIGNALING_LANE_CAPACITY: nat := 256

  datatype Frame = Signaling(json: string) | Media(bytes: seq<Byte>) | Ping

  /** The drain task: at the top of its loop; past an empty signaling lane, about to poll media;
      writing a frame; failed with a frame in hand; or ended. `mark` is history: how many
      signaling-lane frames had been accepted when that lane was found empty. */
  datatype Drain =
    | Polling
    | SignalingEmpty(mark: nat)
    | Writing(frame: Frame, mark: nat)
    | Failed(frame: Frame)
    | Finishing
    | Ended(clean: bool)

  /** `permit` is the one-permit notification; `open` whether any sender is left. The sequences after
      `open` are history. */
  datatype State = State(
    signaling: seq<Frame>,
    media: seq<Frame>,
    drain: Drain,
    permit: bool,
    alive: bool,
    open: bool,
    submitted: seq<string>,
    acceptedSignaling: seq<Frame>,
    offeredMedia: seq<Frame>,
    acceptedMedia: seq<Frame>,
    writtenSignaling: seq<Frame>,
    writtenMedia: seq<Frame>,
    lossyDrops: nat)

  datatype Action =
    | SendTo(json: string)
    | TrySendPing
    | TrySendMedia(bytes: seq<Byte>)
    | DrainStep
    | SinkError
    | LoopTurn
    | LoopError
    | DropSenders

  const INITIAL :=
    State([], [], Polling, false, true, true, [], [], [], [], [], [], 0)

  /** The receivers live as long as the drain task. */
  predicate LanesClosed(s: State) {
    s.drain.Ended?
  }

  /** `send_to`: a full signaling lane asks for a disconnect. */
  function SendToStep(s: State, json: string): State {
    var s := s.(submitted := s.submitted + [json]);
    if LanesClosed(s) then s
    else if |s.signaling| >= SIGNALING_LANE_CAPACITY then s.(permit := true)
    else s.(signaling := s.signaling + [Signaling(json)], acceptedSignaling := s.acceptedSignaling + [Signaling(json)])
  }

  function PingStep(s: State): State {
    if LanesClosed(s) || |s.signaling| >= SIGNALING_LANE_CAPACITY then s
    else s.(signaling := s.signaling + [Ping], acceptedSignaling := s.acceptedSignaling + [Ping])
  }

  function MediaStep(s: State, bytes: seq<Byte>): State {
    var s := s.(offeredMedia := s.offeredMedia + [Media(bytes)]);
    if LanesClosed(s) then s
    else if |s.media| >= MEDIA_LANE_CAPACITY then s.(lossyDrops := s.lossyDrops + 1)
    else s.(media := s.media + [Media(bytes)], acceptedMedia := s.acceptedMedia + [Media(bytes)])
  }

  /** The drain task's next step; polling an empty lane with senders left waits at the top. */
  function DrainTaskStep(s: State): State {
    match s.drain
    case Polling =>
      if s.signaling != [] then
        s.(signaling := s.signaling[1..], drain := Writing(s.signaling[0], 0))
      else s.(drain := SignalingEmpty(|s.acceptedSignaling|))
    case SignalingEmpty(mark) =>
      if s.media != [] then s.(media := s.media[1..], drain := Writing(s.media[0], mark))
      else if !s.open && s.signaling == [] then s.(drain := Finishing)
      else s.(drain := Polling)
    case Writing(f, _) =>
      if f.Media? then s.(drain := Polling, writtenMedia := s.writtenMedia + [f])
      else s.(drain := Polling, writtenSignaling := s.writtenSignaling + [f])
    case Failed(_) => s.(drain := Ended(false), permit := true)
    case Finishing => s.(drain := Ended(true), permit := true)
    case Ended(_) => s
  }

  function Step(s: State, a: Action): State {
    match a
    case SendTo(json) => if s.open then SendToStep(s, json) else s
    case TrySendPing => if s.open && s.alive then PingStep(s) else s
    case TrySendMedia(bytes) => if s.open then MediaStep(s, bytes) else s
    case DrainStep => DrainTaskStep(s)
    case SinkError => if s.drain.Writing? then s.(drain := Failed(s.drain.frame)) else s
    case LoopTurn => if s.alive && s.permit then s.(alive := false, permit := false) else s
    case LoopError => s.(alive := false)
    case DropSenders => if s.alive then s else s.(open := false)
  }

  function Run(schedule: seq<Action>): State {
    if schedule == [] then INITIAL else Step(Run(schedule[..|schedule| - 1]), schedule[|schedule| - 1])
  }

  function InHand(d: Drain): seq<Frame> {
    match d
    case Writing(f, _) => [f]
    case Failed(f) => [f]
    case _ => []
  }

  /** The JSON messages among signaling-lane frames, pings left out. */
  function Messages(frames: seq<Frame>): seq<string> {
    if frames == [] then []
    else
      Messages(frames[..|frames| - 1])
      + (match frames[|frames| - 1] case Signaling(json) => [json] case _ => [])
  }

  lemma MessagesAppend(frames: seq<Frame>, f: Frame)
    ensures Messages(frames + [f]) == Messages(frames) + (match f case Signaling(json) => [json] case _ => [])
  {
    assert (frames + [f])[..|frames|] == frames;
  }

  function SignalingInHand(d: Drain): seq<Frame> {
    if InHand(d) != [] && !InHand(d)[0].Media? then InHand(d) else []
  }

  function MediaInHand(d: Drain): seq<Frame> {
    if InHand(d) != [] && InHand(d)[0].Media? then InHand(d) else []
  }

  /** Written, in hand and queued frames of the signaling lane are those accepted, in order, until
      the drain task has ended with a failed write. */
  ghost predicate SignalingConserved(s: State) {
    && |s.signaling| <= SIGNALING_LANE_CAPACITY
    && (forall i :: 0 <= i < |s.signaling| ==> !s.signaling[i].Media?)
    && (s.drain != Ended(false) ==>
          s.writtenSignaling + SignalingInHand(s.drain) + s.signaling == s.acceptedSignaling)
  }

  ghost predicate MediaConserved(s: State) {
    && |s.media| <= MEDIA_LANE_CAPACITY
    && (forall i :: 0 <= i < |s.media| ==> s.media[i].Media?)
    && (s.drain != Ended(false) ==> s.writtenMedia + MediaInHand(s.drain) + s.media == s.acceptedMedia)
    && s.writtenMedia <= s.acceptedMedia
  }

  ghost predicate MediaOffers(s: State) {
    && IsSubsequence(s.acceptedMedia, s.offeredMedia)
    && |s.offeredMedia| >= |s.acceptedMedia| + s.lossyDrops
    && (!s.drain.Ended? ==> |s.offeredMedia| == |s.acceptedMedia| + s.lossyDrops)
  }

  /** While the loop lives and no permit is pending, every submitted message was accepted and the
      drain task has not ended. */
  ghost predicate NothingRefused(s: State) {
    && (s.alive ==> s.open)
    && (s.permit ==> s.drain.Ended? || |Messages(s.acceptedSignaling)| < |s.submitted|)
    && |Messages(s.acceptedSignaling)| <= |s.submitted|
    && (s.alive && !s.permit ==> Messages(s.acceptedSignaling) == s.submitted && !s.drain.Ended?)
  }

  /** Media is only in hand when every signaling frame accepted before the poll has been written. */
  ghost predicate SignalingFirst(s: State) {
    match s.drain
    case SignalingEmpty(mark) => |s.writtenSignaling| == mark <= |s.acceptedSignaling|
    case Writing(f, mark) => f.Media? ==> |s.writtenSignaling| == mark <= |s.acceptedSignaling|
    case Finishing => s.signaling == [] && s.media == [] && !s.open
    case Ended(clean) => clean ==> s.signaling == [] && s.media == [] && !s.open
    case _ => true
  }

  ghost predicate Inv(s: State) {
    SignalingConserved(s) && MediaConserved(s) && MediaOffers(s) && NothingRefused(s) && SignalingFirst(s)
  }

  /** Putting a frame on the signaling lane. */
  lemma EnqueueKeepsSignaling(s: State, f: Frame)
    requires SignalingConserved(s) && |s.signaling| < SIGNALING_LANE_CAPACITY && !f.Media?
    ensures SignalingConserved(s.(signaling := s.signaling + [f], acceptedSignaling := s.acceptedSignaling + [f]))
    ensures Messages(s.acceptedSignaling + [f])
            == Messages(s.acceptedSignaling) + (match f case Signaling(json) => [json] case _ => [])
  {
    MessagesAppend(s.acceptedSignaling, f);
    var sent := s.writtenSignaling + SignalingInHand(s.drain);
    assert sent + (s.signaling + [f]) == (sent + s.signaling) + [f];
  }

  lemma SenderKeepsSignaling(s: State, a: Action)
    requires SignalingConserved(s) && NothingRefused(s) && (a.SendTo? || a.TrySendPing?)
    ensures SignalingConserved(Step(s, a)) && NothingRefused(Step(s, a))
  {
    if |s.signaling| < SIGNALING_LANE_CAPACITY {
      EnqueueKeepsSignaling(s, if a.SendTo? then Signaling(a.json) else Ping);
    }
  }

  lemma SenderStepInv(s: State, a: Action)
    requires Inv(s) && (a.SendTo? || a.TrySendPing?)
    ensures Inv(Step(s, a))
  {
    SenderKeepsSignaling(s, a);
    SenderKeepsRest(s, a);
  }

  lemma SenderKeepsRest(s: State, a: Action)
    requires MediaConserved(s) && MediaOffers(s) && SignalingFirst(s) && (a.SendTo? || a.TrySendPing?)
    ensures MediaConserved(Step(s, a)) && MediaOffers(Step(s, a)) && SignalingFirst(Step(s, a))
  {
  }

  lemma MediaStepKeepsMedia(s: State, bytes: seq<Byte>)
    requires MediaConserved(s)
    ensures MediaConserved(MediaStep(s, bytes))
  {
    var f, sent := Media(bytes), s.writtenMedia + MediaInHand(s.drain);
    assert sent + (s.media + [f]) == (sent + s.media) + [f];
  }

  lemma MediaStepInv(s: State, bytes: seq<Byte>)
    requires Inv(s)
    ensures Inv(Step(s, TrySendMedia(bytes)))
  {
    MediaStepKeepsMedia(s, bytes);
    SubsequenceGrows(s.acceptedMedia, s.offeredMedia, Media(bytes));
  }

  lemma DrainKeepsSignaling(s: State)
    requires SignalingConserved(s) && MediaConserved(s)
    ensures SignalingConserved(DrainTaskStep(s))
  {
    if s.drain.Polling? && s.signaling != [] {
      assert s.signaling == [s.signaling[0]] + s.signaling[1..];
    }
  }

  lemma DrainKeepsMedia(s: State)
    requires SignalingConserved(s) && MediaConserved(s)
    ensures MediaConserved(DrainTaskStep(s))
  {
    if s.drain.SignalingEmpty? && s.media != [] {
      assert s.media == [s.media[0]] + s.media[1..];
    }
  }

  lemma DrainKeepsOrder(s: State)
    requires SignalingConserved(s) && SignalingFirst(s) && NothingRefused(s)
    ensures SignalingFirst(DrainTaskStep(s)) && NothingRefused(DrainTaskStep(s))
  {
  }

  lemma DrainKeepsOffers(s: State)
    requires MediaOffers(s)
    ensures MediaOffers(DrainTaskStep(s))
  {
  }

  lemma DrainStepInv(s: State)
    requires Inv(s)
    ensures Inv(Step(s, DrainStep))
  {
    assert Step(s, DrainStep) == DrainTaskStep(s);
    DrainKeepsOffers(s);
    DrainKeepsSignaling(s);
    DrainKeepsMedia(s);
    DrainKeepsOrder(s);
  }

  lemma StepInv(s: State, a: Action)
    requires Inv(s)
    ensures Inv(Step(s, a))
  {
    match a
    case SendTo(_) => SenderStepInv(s, a);
    case TrySendPing => SenderStepInv(s, a);
    case TrySendMedia(bytes) => MediaStepInv(s, bytes);
    case DrainStep => DrainStepInv(s);
    case _ =>
  }

  lemma {:induction false} RunInv(schedule: seq<Action>)
    ensures Inv(Run(schedule))
  {
    if schedule != [] {
      RunInv(schedule[..|schedule| - 1]);
      StepInv(Run(schedule[..|schedule| - 1]), schedule[|schedule| - 1]);
    }
  }

  lemma {:induction false} MessagesConcat(a: seq<Frame>, b: seq<Frame>)
    ensures Messages(a + b) == Messages(a) + Messages(b)
    decreases |b|
  {
    if b == [] {
      assert a + b == a;
    } else {
      var init, last := b[..|b| - 1], b[|b| - 1];
      assert a + b == (a + init) + [last] && b == init + [last];
      MessagesAppend(a + init, last);
      MessagesConcat(a, init);
    }
  }

  /** While the connection loop is alive and no disconnect is pending, the reliable lane has lost
      nothing: written, in hand and queued messages are all those submitted, in order. */
  lemma ReliableLaneLosesNothing(schedule: seq<Action>)
    requires Run(schedule).alive && !Run(schedule).permit
    ensures var s := Run(schedule);
            Messages(s.writtenSignaling) + Messages(InHand(s.drain)) + Messages(s.signaling) == s.submitted
  {
    RunInv(schedule);
    var s := Run(schedule);
    MessagesConcat(s.writtenSignaling + SignalingInHand(s.drain), s.signaling);
    MessagesConcat(s.writtenSignaling, SignalingInHand(s.drain));
    MessagesAppend([], Ping);
    if InHand(s.drain) != [] {
      MessagesAppend([], InHand(s.drain)[0]);
      assert [] + [InHand(s.drain)[0]] == InHand(s.drain);
    }
  }

  /** A message refused while the loop is alive leaves a disconnect permit pending, and with one
      pending the next turn of the loop ends it. */
  lemma LossLeadsToDisconnect(schedule: seq<Action>)
    requires Run(schedule).alive && Messages(Run(schedule).acceptedSignaling) != Run(schedule).submitted
    ensures Run(schedule).permit && !Run(schedule + [LoopTurn]).alive
  {
    RunInv(schedule);
    assert (schedule + [LoopTurn])[..|schedule|] == schedule;
  }

  /** `send_to` refuses a message exactly when the lane is full or the drain task is gone. */
  lemma RefusedIffFullOrEnded(s: State, json: string)
    requires Inv(s) && s.open
    ensures Step(s, SendTo(json)).acceptedSignaling == s.acceptedSignaling
       <==> |s.signaling| == SIGNALING_LANE_CAPACITY || s.drain.Ended?
  {
  }

  /** And a permit, hence a turn that ends the loop, has no other cause than a refusal or the end of the drain. */
  lemma NoDisconnectWithoutCause(schedule: seq<Action>)
    requires Run(schedule).permit || (Run(schedule).alive && !Run(schedule + [LoopTurn]).alive)
    ensures Run(schedule).drain.Ended? || Messages(Run(schedule).acceptedSignaling) != Run(schedule).submitted
  {
    RunInv(schedule);
    assert (schedule + [LoopTurn])[..|schedule|] == schedule;
  }

  /** The lossy lane takes a frame unless it is full or the drain is gone, and counts it as dropped exactly when it
      is full; a ping is taken on the same terms as a message, and its loss changes nothing. */
  lemma MediaRefusedIffFullOrEnded(s: State, bytes: seq<Byte>)
    requires Inv(s) && s.open
    ensures var s' := Step(s, TrySendMedia(bytes));
            && (s'.acceptedMedia == s.acceptedMedia <==> |s.media| == 32 || s.drain.Ended?)
            && (s'.acceptedMedia != s.acceptedMedia ==> s'.media == s.media + [Media(bytes)])
            && (s'.lossyDrops == s.lossyDrops + 1 <==> |s.media| == 32 && !s.drain.Ended?)
  {
  }

  lemma PingRefusedIffFullOrEnded(s: State)
    requires Inv(s)
    ensures var s' := Step(s, TrySendPing);
            if !s.alive || |s.signaling| == 256 || s.drain.Ended? then s' == s
            else s'.signaling == s.signaling + [Ping]
  {
  }

  function DrainSteps(s: State, n: nat): State
    decreases n
  {
    if n == 0 then s else DrainSteps(DrainTaskStep(s), n - 1)
  }

  /** Left to itself the drain writes the oldest signaling frame if there is one, otherwise the oldest media frame,
      and waits when both lanes are empty and senders are left. */
  lemma UndisturbedDrainWritesTheOldest(s: State)
    requires Inv(s) && s.drain.Polling?
    ensures s.signaling != [] ==>
              var s' := DrainSteps(s, 2);
              && s'.drain.Polling? && s'.writtenSignaling == s.writtenSignaling + [s.signaling[0]]
              && s'.signaling == s.signaling[1..] && s'.media == s.media
    ensures s.signaling == [] && s.media != [] ==>
              var s' := DrainSteps(s, 3);
              && s'.drain.Polling? && s'.writtenMedia == s.writtenMedia + [s.media[0]]
              && s'.media == s.media[1..] && s'.signaling == []
    ensures s.signaling == [] && s.media == [] ==>
              var s' := DrainSteps(s, 2);
              if s.open then s' == s else s'.drain.Finishing?
  {
    var s1 := DrainTaskStep(s);
    var s2 := DrainTaskStep(s1);
    assert DrainSteps(s1, 1) == s2 && DrainSteps(s2, 1) == DrainTaskStep(s2);
    assert DrainSteps(s1, 2) == DrainTaskStep(s2);
  }

  /** Media is selected only in a round whose signaling poll found the lane empty, and while it is
      written every signaling frame accepted before that poll is on the wire already. */
  lemma MediaYieldsToSignaling(schedule: seq<Action>)
    requires Run(schedule).drain.Writing? && Run(schedule).drain.frame.Media?
    ensures var s := Run(schedule);
            && s.drain.mark <= |s.acceptedSignaling|
            && s.writtenSignaling == s.acceptedSignaling[..s.drain.mark]
  {
    RunInv(schedule);
    var s := Run(schedule);
    assert s.writtenSignaling + SignalingInHand(s.drain) == s.writtenSignaling;
  }

  lemma SelectionNeedsEmptyPoll(s: State)
    requires Inv(s)
    ensures var s' := DrainTaskStep(s);
            && (s'.drain.Writing? && s'.drain.frame.Media? ==> s.drain.SignalingEmpty?)
            && (s'.drain.SignalingEmpty? ==> s.signaling == [] && s'.drain.mark == |s.acceptedSignaling|)
  {
  }

  /** Written media is an in-order subsequence of offered media, a prefix of what was accepted. */
  lemma WrittenMediaInOrder(schedule: seq<Action>)
    ensures var s := Run(schedule);
            && IsSubsequence(s.writtenMedia, s.offeredMedia) && s.writtenMedia <= s.acceptedMedia
            && (!s.drain.Ended? ==> |s.offeredMedia| == |s.acceptedMedia| + s.lossyDrops)
            && |s.media| <= MEDIA_LANE_CAPACITY && |s.signaling| <= SIGNALING_LANE_CAPACITY
  {
    RunInv(schedule);
    var s := Run(schedule);
    var rest := s.acceptedMedia[|s.writtenMedia|..];
    assert s.writtenMedia + rest == s.acceptedMedia;
    SubsequencePrefix(s.writtenMedia, rest, s.offeredMedia);
  }

  /** A drain that ends because every sender is gone has written everything either lane accepted. */
  lemma CleanEndWroteEverything(schedule: seq<Action>)
    requires Run(schedule).drain == Ended(true)
    ensures var s := Run(schedule);
            s.writtenSignaling == s.acceptedSignaling && s.writtenMedia == s.acceptedMedia && !s.open
  {
    RunInv(schedule);
  }

  /** Steps the drain task still needs once no sender is left. */
  function FlushWork(s: State): nat {
    3 * (|s.signaling| + |s.media|)
    + match s.drain
      case Polling => 4
      case SignalingEmpty(_) => if s.signaling == [] then 3 else 5
      case Writing(_, _) => 5
      case Failed(_) => 1
      case Finishing => 1
      case Ended(_) => 0
  }

  /** Once the senders are dropped every step of the drain task brings it nearer to its end. */
  lemma FlushTerminates(s: State)
    requires Inv(s) && !s.open && !s.drain.Ended?
    ensures FlushWork(DrainTaskStep(s)) < FlushWork(s) && !DrainTaskStep(s).open
  {
  }

  ghost predicate Flushing(s: State) {
    Inv(s) && !s.open && !s.drain.Failed? && s.drain != Ended(false)
  }

  lemma FlushGoesOn(s: State)
    requires Flushing(s)
    ensures var t := DrainTaskStep(s);
            && Flushing(t) && t.acceptedSignaling == s.acceptedSignaling && t.acceptedMedia == s.acceptedMedia
            && (s.drain != Ended(true) ==> FlushWork(t) < FlushWork(s))
  {
    DrainStepInv(s);
    if s.drain != Ended(true) {
      FlushTerminates(s);
    }
  }

  /** Once the senders are dropped and no write fails, the flush ends clean with everything accepted written. */
  lemma {:induction false} FlushWritesEverything(s: State, n: nat)
    requires Flushing(s) && FlushWork(s) <= n
    ensures var t := DrainSteps(s, n);
            t.drain == Ended(true) && t.writtenSignaling == s.acceptedSignaling && t.writtenMedia == s.acceptedMedia
    decreases n
  {
    if n > 0 {
      FlushGoesOn(s);
      FlushWritesEverything(DrainTaskStep(s), n - 1);
    }
  }

  /** The end of the drain asks for a disconnect; a pending one is used up by the turn that ends the loop. Only then,
      or after an error of the loop's own, can the senders be dropped. */
  lemma TeardownOrder(s: State)
    requires Inv(s)
    ensures s.alive && s.permit ==> !Step(s, LoopTurn).alive && !Step(s, LoopTurn).permit
    ensures !(s.alive && s.permit) ==> Step(s, LoopTurn) == s
    ensures s.drain.Failed? || s.drain.Finishing? ==> DrainTaskStep(s).drain.Ended? && DrainTaskStep(s).permit
    ensures !Step(s, LoopError).alive && Step(s, DropSenders).open == (s.open && s.alive)
  {
  }

  /** A failed write loses the frame in hand and ends the drain, and the loop with it. */
  lemma FailedWriteDisconnects(s: State)
    requires Inv(s) && s.drain.Writing?
    ensures var t := DrainTaskStep(Step(s, SinkError));
            && t.drain == Ended(false) && t.writtenSignaling == s.writtenSignaling && t.writtenMedia == s.writtenMedia
            && t.permit && !Step(t, LoopTurn).alive
  {
  }
}
