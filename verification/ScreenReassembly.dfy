/** Split then reassemble is the identity (crates/net_control/src/lib.rs, lines 425-447 and 799-858):
    once every chunk of a frame has arrived, in any order and with any duplicates, the receiver emits
    that frame, and not before. */
module ScreenReassembly {
  import opened Common
  import opened ScreenWire
  import opened ScreenAssembly
  import opened ScreenRuns

  /** The frame being transferred: sender, sequence and bytes. */
  datatype Transfer = Transfer(id: Bytes, sequence: U32, frame: Bytes)

  ghost predicate Sound(t: Transfer) {
    IsChunked(t.frame) && |t.frame| <= MAX_SCREEN_FRAME_SIZE
  }

  predicate IsOwn(p: Option<ChunkFrame>, id: Bytes) {
    p.Some? && p.value.sender == id
  }

  /** Under this transfer's sender and sequence. */
  predicate IsMine(p: Option<ChunkFrame>, t: Transfer) {
    IsOwn(p, t.id) && p.value.meta.sequence == t.sequence
  }

  /** A chunk of another frame of this sender that is not newer. */
  predicate IsLate(p: Option<ChunkFrame>, t: Transfer) {
    IsOwn(p, t.id) && p.value.meta.sequence != t.sequence && !IsNewer(p.value.meta.sequence, t.sequence)
  }

  /** A chunk of this transfer; or anything that is not under this sender's id; or, once a chunk of the transfer
      is held, a late chunk of the sender. */
  ghost predicate OnTopic(p: Option<ChunkFrame>, t: Transfer, held: bool)
    requires Sound(t)
  {
    && (IsMine(p, t) ==> IsPieceOf(p.value, t.frame))
    && (IsOwn(p, t.id) && !IsMine(p, t) ==> held && IsLate(p, t))
  }

  function ParsedOf(e: Event): Option<ChunkFrame> {
    if e.Packet? then ParseChunkFrame(e.raw) else None
  }

  /** The chunk indices of the transfer that have arrived. */
  function Arrived(events: seq<Event>, t: Transfer): set<nat> {
    if events == [] then {}
    else
      var p := ParsedOf(events[|events| - 1]);
      Arrived(events[..|events| - 1], t) + (if IsMine(p, t) then {p.value.meta.chunkIndex as nat} else {})
  }

  /** When the transfer's latest chunk was stamped. */
  function LastStamp(events: seq<Event>, t: Transfer): Option<Time> {
    if events == [] then None
    else if IsMine(ParsedOf(events[|events| - 1]), t) then Some(events[|events| - 1].at)
    else LastStamp(events[..|events| - 1], t)
  }

  function ClockOf(e: Event): Time
    requires !e.Reconnect?
  {
    e.now
  }

  /** No reconnect, nothing newer from this sender, nothing older before the first chunk, and after that never
      1500 ms without a chunk of the transfer. */
  ghost predicate Undisturbed(events: seq<Event>, t: Transfer)
    requires Sound(t)
  {
    events != [] ==>
      var init, e := events[..|events| - 1], events[|events| - 1];
      && Undisturbed(init, t)
      && !e.Reconnect? && OnTopic(ParsedOf(e), t, LastStamp(init, t).Some?)
      && (LastStamp(init, t).Some? ==> ClockOf(e) - LastStamp(init, t).value < REASSEMBLY_TIMEOUT)
  }

  function Below(n: nat): (s: set<nat>)
    ensures forall i: nat :: i in s <==> i < n
  {
    if n == 0 then {} else Below(n - 1) + {n - 1}
  }

  function AllIndices(frame: Bytes): set<nat> {
    Below(ChunkCount(frame))
  }

  /** The receiver has no assembler for the sender, or one for an older frame. */
  ghost predicate Fresh(table: Table, t: Transfer) {
    t.id in table ==> IsNewer(t.sequence, table[t.id].sequence)
  }

  /** The receiver holds exactly the chunks in `got`. */
  ghost predicate Collecting(table: Table, t: Transfer, got: set<nat>, last: Time)
    requires Sound(t)
  {
    && t.id in table
    && var a := table[t.id];
       && a.sequence == t.sequence && a.chunkCount == ChunkCount(t.frame) && a.lastChunkAt == last
       && HoldsPieces(a.chunks, t.frame)
       && (forall i: nat :: i < |a.chunks| ==> (a.chunks[i].Some? <==> i in got))
  }

  ghost predicate Progress(table: Table, t: Transfer, got: set<nat>, last: Option<Time>)
    requires Sound(t)
  {
    match last
    case None => got == {} && Fresh(table, t)
    case Some(at) => Collecting(table, t, got, at)
  }

  lemma {:induction false} PiecesFit(slots: Slots, frame: Bytes, k: nat)
    requires HoldsPieces(slots, frame) && k <= |slots|
    ensures StoredBytes(slots[..k]) <= |Flatten(Chunks(frame)[..k])|
  {
    if k > 0 {
      PiecesFit(slots, frame, k - 1);
      assert slots[..k][..k - 1] == slots[..k - 1];
      var cs := Chunks(frame);
      assert cs[..k] == cs[..k - 1] + [cs[k - 1]];
      FlattenAppend(cs[..k - 1], cs[k - 1]);
    }
  }

  /** The stored pieces of a frame never outgrow it. */
  lemma StoredFits(slots: Slots, frame: Bytes)
    requires HoldsPieces(slots, frame)
    ensures StoredBytes(slots) <= |frame|
  {
    PiecesFit(slots, frame, |slots|);
    ChunksJoin(frame);
    assert slots[..|slots|] == slots && Chunks(frame)[..|slots|] == Chunks(frame);
  }

  ghost predicate HoldsExactly(slots: Slots, got: set<nat>) {
    forall i: nat :: i < |slots| ==> (slots[i].Some? <==> i in got)
  }

  lemma CompleteIffAll(slots: Slots, frame: Bytes, got: set<nat>)
    requires |slots| == ChunkCount(frame) && got <= AllIndices(frame) && HoldsExactly(slots, got)
    ensures Filled(slots) == |slots| <==> got == AllIndices(frame)
  {
    FilledBounds(slots);
    if Filled(slots) == |slots| {
      forall i: nat | i in AllIndices(frame)
        ensures i in got
      {
        assert slots[i].Some?;
      }
    }
  }

  /** Storing one more piece in a live assembler of the transfer. */
  lemma StorePiece(r: Receiver, f: ChunkFrame, at: Time, t: Transfer, got: set<nat>, before: Time)
    requires Valid(r) && IsChunkFrame(f) && Sound(t) && f.sender == t.id
    requires f.meta.sequence == t.sequence && IsPieceOf(f, t.frame)
    requires Collecting(r.table, t, got, before) && got <= AllIndices(t.frame)
    ensures var got' := got + {f.meta.chunkIndex as nat};
            var (r', out) := Store(r, f, at);
            if got' == AllIndices(t.frame) then
              |t.id| < 0x100 && out == Some(ScreenPacket(t.id, t.frame)) && t.id !in r'.table
            else out == None && Collecting(r'.table, t, got', at)
  {
    var a := r.table[f.sender];
    var got' := got + {f.meta.chunkIndex as nat};
    var (b, kept) := StoreChunk(a, f.meta, f.data, at);
    StoreChunkCases(a, f.meta, f.data, at);
    var slots := if a.chunks[f.meta.chunkIndex].Some? then a.chunks else a.chunks[f.meta.chunkIndex := Some(f.data)];
    StoredFits(slots, t.frame);
    if a.chunks[f.meta.chunkIndex].None? {
      FillSlot(a.chunks, f.meta.chunkIndex, f.data);
    }
    assert kept && b.chunks == slots;
    assert HoldsExactly(slots, got');
    CompleteIffAll(slots, t.frame, got');
    StoreFaithful(r, f, at, t.frame);
    StoreValid(r, f, at);
  }

  lemma OpenCollects(r: Receiver, f: ChunkFrame, at: Time, t: Transfer)
    requires Valid(r) && IsChunkFrame(f) && Sound(t) && f.sender == t.id
    requires f.meta.sequence == t.sequence && IsPieceOf(f, t.frame)
    ensures Collecting(Open(r, f, at).table, t, {}, at)
  {
  }

  lemma DeliverPiece(r: Receiver, f: ChunkFrame, at: Time, t: Transfer, got: set<nat>, last: Option<Time>)
    requires Valid(r) && IsChunkFrame(f) && Sound(t) && f.sender == t.id
    requires f.meta.sequence == t.sequence && IsPieceOf(f, t.frame)
    requires Progress(r.table, t, got, last) && got <= AllIndices(t.frame)
    ensures var got' := got + {f.meta.chunkIndex as nat};
            var (r', out) := Deliver(r, f, at);
            if got' == AllIndices(t.frame) then
              |t.id| < 0x100 && out == Some(ScreenPacket(t.id, t.frame)) && t.id !in r'.table
            else out == None && Progress(r'.table, t, got', Some(at))
  {
    match last
    case None =>
      assert RouteOf(r.table, f) == Replace;
      OpenValid(r, f, at);
      OpenCollects(r, f, at, t);
      StorePiece(Open(r, f, at), f, at, t, {}, at);
    case Some(before) =>
      assert RouteOf(r.table, f) == Extend;
      StorePiece(r, f, at, t, got, before);
  }

  /** A timeout check within 1500 ms of the last chunk does not disturb the collection. */
  lemma ExpireKeepsProgress(r: Receiver, now: Time, t: Transfer, got: set<nat>, last: Option<Time>)
    requires Sound(t) && Progress(r.table, t, got, last)
    requires last.Some? ==> now - last.value < REASSEMBLY_TIMEOUT
    ensures Progress(Expire(r, now).table, t, got, last)
  {
  }

  ghost predicate SilentAbout(before: seq<Emission>, after: seq<Emission>, id: Bytes) {
    || after == before
    || (exists em :: after == before + [em] && em.sender != id)
  }

  /** A packet that is not a chunk under this sender's id. */
  lemma ReceiveOther(w: World, p: Option<ChunkFrame>, now: Time, at: Time, t: Transfer, got: set<nat>,
                     last: Option<Time>)
    requires Valid(w.receiver) && (p.Some? ==> IsChunkFrame(p.value)) && Sound(t) && !IsOwn(p, t.id)
    requires Progress(w.receiver.table, t, got, last)
    requires last.Some? ==> now - last.value < REASSEMBLY_TIMEOUT
    ensures var w' := Receive(w, p, now, at);
            SilentAbout(w.emitted, w'.emitted, t.id) && Progress(w'.receiver.table, t, got, last)
  {
    if p.Some? {
      var r := Expire(CountPacket(w.receiver), now);
      ExpireValid(CountPacket(w.receiver), now);
      ExpireKeepsProgress(CountPacket(w.receiver), now, t, got, last);
      DeliverOther(r, p.value, at, t, got, last);
      match Deliver(r, p.value, at).1
      case None =>
      case Some(frame) =>
        assert Receive(w, p, now, at).emitted == w.emitted + [Emission(p.value.sender, p.value.meta.sequence, frame)];
    }
  }

  lemma DeliverOther(r: Receiver, f: ChunkFrame, at: Time, t: Transfer, got: set<nat>, last: Option<Time>)
    requires Valid(r) && IsChunkFrame(f) && Sound(t) && f.sender != t.id && Progress(r.table, t, got, last)
    ensures Progress(Deliver(r, f, at).0.table, t, got, last)
  {
    OtherSendersUntouched(r, f, at, t.id);
  }

  /** A late chunk of the same sender: the live assembler of the transfer ignores it. */
  lemma ReceiveLate(w: World, p: Option<ChunkFrame>, now: Time, at: Time, t: Transfer, got: set<nat>, last: Time)
    requires Valid(w.receiver) && IsLate(p, t) && IsChunkFrame(p.value) && Sound(t)
    requires Progress(w.receiver.table, t, got, Some(last)) && now - last < REASSEMBLY_TIMEOUT
    ensures var w' := Receive(w, p, now, at);
            w'.emitted == w.emitted && Progress(w'.receiver.table, t, got, Some(last))
  {
    var r := Expire(CountPacket(w.receiver), now);
    ExpireValid(CountPacket(w.receiver), now);
    ExpireKeepsProgress(CountPacket(w.receiver), now, t, got, Some(last));
    assert RouteOf(r.table, p.value) == Ignore;
  }

  /** A chunk of the transfer. */
  lemma ReceivePiece(w: World, p: Option<ChunkFrame>, now: Time, at: Time, t: Transfer, got: set<nat>,
                     last: Option<Time>)
    requires Valid(w.receiver) && IsMine(p, t) && IsChunkFrame(p.value) && Sound(t) && IsPieceOf(p.value, t.frame)
    requires Progress(w.receiver.table, t, got, last) && got <= AllIndices(t.frame)
    requires last.Some? ==> now - last.value < REASSEMBLY_TIMEOUT
    ensures var w' := Receive(w, p, now, at);
            var got' := got + {p.value.meta.chunkIndex as nat};
            if got' == AllIndices(t.frame) then
              |t.id| < 0x100
              && w'.emitted == w.emitted + [Emission(t.id, t.sequence, ScreenPacket(t.id, t.frame))]
              && t.id !in w'.receiver.table
            else w'.emitted == w.emitted && Progress(w'.receiver.table, t, got', Some(at))
  {
    var r := Expire(CountPacket(w.receiver), now);
    ExpireValid(CountPacket(w.receiver), now);
    ExpireKeepsProgress(CountPacket(w.receiver), now, t, got, last);
    DeliverPiece(r, p.value, at, t, got, last);
  }

  lemma NoneEmitted(before: seq<Emission>, after: seq<Emission>, id: Bytes)
    requires SilentAbout(before, after, id)
    requires forall k :: 0 <= k < |before| ==> before[k].sender != id
    ensures forall k :: 0 <= k < |after| ==> after[k].sender != id
  {
  }

  /** While some chunk is missing, nothing is emitted for the sender and the receiver holds exactly
      the chunks that have arrived. */
  lemma {:induction false} NothingEarly(start: Receiver, events: seq<Event>, t: Transfer)
    requires Valid(start) && Sound(t) && Fresh(start.table, t) && Undisturbed(events, t)
    requires Arrived(events, t) != AllIndices(t.frame)
    ensures Arrived(events, t) < AllIndices(t.frame)
    ensures var w := Run(start, events);
            && Progress(w.receiver.table, t, Arrived(events, t), LastStamp(events, t))
            && (forall k :: 0 <= k < |w.emitted| ==> w.emitted[k].sender != t.id)
  {
    if events == [] {
      assert 0 in AllIndices(t.frame);
    } else {
      var init, e := events[..|events| - 1], events[|events| - 1];
      ArrivedInRange(events, t);
      ArrivedInRange(init, t);
      NothingEarly(start, init, t);
      RunValid(start, init);
      var w, got, last := Run(start, init), Arrived(init, t), LastStamp(init, t);
      match e
      case Tick(now) =>
        ExpireKeepsProgress(w.receiver, now, t, got, last);
      case Packet(raw, now, at) =>
        ParsedIsChunkFrame(raw);
        if IsMine(ParseChunkFrame(raw), t) {
          ReceivePiece(w, ParseChunkFrame(raw), now, at, t, got, last);
        } else if IsOwn(ParseChunkFrame(raw), t.id) {
          ReceiveLate(w, ParseChunkFrame(raw), now, at, t, got, last.value);
        } else {
          ReceiveOther(w, ParseChunkFrame(raw), now, at, t, got, last);
          NoneEmitted(w.emitted, React(w, e).emitted, t.id);
        }
    }
  }

  lemma {:induction false} ArrivedInRange(events: seq<Event>, t: Transfer)
    requires Sound(t) && Undisturbed(events, t)
    ensures Arrived(events, t) <= AllIndices(t.frame)
  {
    if events != [] {
      ArrivedInRange(events[..|events| - 1], t);
      var p := ParsedOf(events[|events| - 1]);
      assert OnTopic(p, t, LastStamp(events[..|events| - 1], t).Some?);
    }
  }

  /** Split then reassemble: the arrival that makes the set of received chunks complete emits the
      frame, and no earlier arrival emits anything for that sender. */
  lemma ReassemblesOnLastDistinctChunk(start: Receiver, events: seq<Event>, last: Event, t: Transfer)
    requires Valid(start) && Sound(t) && Fresh(start.table, t) && Undisturbed(events + [last], t)
    requires Arrived(events, t) != AllIndices(t.frame)
    requires Arrived(events + [last], t) == AllIndices(t.frame)
    ensures |t.id| < 0x100
    ensures forall k :: 0 <= k < |Run(start, events).emitted| ==> Run(start, events).emitted[k].sender != t.id
    ensures Run(start, events + [last]).emitted
            == Run(start, events).emitted + [Emission(t.id, t.sequence, ScreenPacket(t.id, t.frame))]
    ensures t.id !in Run(start, events + [last]).receiver.table
  {
    assert (events + [last])[..|events|] == events;
    NothingEarly(start, events, t);
    RunValid(start, events);
    assert last.Packet? && IsMine(ParseChunkFrame(last.raw), t);
    ParsedIsChunkFrame(last.raw);
    ReceivePiece(Run(start, events), ParseChunkFrame(last.raw), last.now, last.at, t,
                 Arrived(events, t), LastStamp(events, t));
  }

  function Whole(t: Transfer): Emission
    requires |t.id| < 0x100
  {
    Emission(t.id, t.sequence, ScreenPacket(t.id, t.frame))
  }

  /** The k-th event completes the chunks and emits the frame, the sender's first emission in this run. */
  ghost predicate CompletesAt(start: Receiver, events: seq<Event>, t: Transfer, k: nat)
    requires AllLive(start.table)
  {
    && k < |events| && |t.id| < 0x100
    && Arrived(events[..k], t) != AllIndices(t.frame) == Arrived(events[..k + 1], t)
    && FirstEmission(Run(start, events[..k]), Run(start, events[..k + 1]), t)
  }

  ghost predicate FirstEmission(before: World, after: World, t: Transfer)
    requires |t.id| < 0x100
  {
    && (forall m :: 0 <= m < |before.emitted| ==> before.emitted[m].sender != t.id)
    && after.emitted == before.emitted + [Whole(t)]
    && t.id !in after.receiver.table
  }

  /** The k-th event brings the last missing chunk. */
  ghost predicate LastArrival(events: seq<Event>, t: Transfer, k: nat)
    requires Sound(t)
  {
    && k < |events| && Undisturbed(events[..k + 1], t)
    && Arrived(events[..k], t) != AllIndices(t.frame) == Arrived(events[..k + 1], t)
  }

  lemma {:induction false} SomeLastArrival(events: seq<Event>, t: Transfer)
    requires Sound(t) && Undisturbed(events, t) && Arrived(events, t) == AllIndices(t.frame)
    ensures exists k :: LastArrival(events, t, k)
  {
    assert 0 in AllIndices(t.frame);
    var n := |events| - 1;
    var init := events[..n];
    assert events[..n + 1] == events;
    if Arrived(init, t) == AllIndices(t.frame) {
      SomeLastArrival(init, t);
      var k: nat :| LastArrival(init, t, k);
      assert init[..k] == events[..k] && init[..k + 1] == events[..k + 1];
      assert LastArrival(events, t, k);
    } else {
      assert LastArrival(events, t, n);
    }
  }

  lemma LastEventCompletes(start: Receiver, init: seq<Event>, last: Event, all: seq<Event>, t: Transfer)
    requires Valid(start) && Sound(t) && Fresh(start.table, t) && Undisturbed(all, t)
    requires all == init + [last] && Arrived(init, t) != AllIndices(t.frame) == Arrived(all, t)
    ensures |t.id| < 0x100 && FirstEmission(Run(start, init), Run(start, all), t)
  {
    ReassemblesOnLastDistinctChunk(start, init, last, t);
  }

  lemma SplitAt(events: seq<Event>, k: nat)
    requires k < |events|
    ensures events[..k + 1] == events[..k] + [events[k]]
  {
  }

  lemma LastArrivalCompletes(start: Receiver, events: seq<Event>, t: Transfer, k: nat)
    requires Valid(start) && Sound(t) && Fresh(start.table, t) && LastArrival(events, t, k)
    ensures CompletesAt(start, events, t, k)
  {
    LastEventCompletes(start, events[..k], events[k], events[..k + 1], t) by {
      SplitAt(events, k);
    }
  }

  /** If all chunks have arrived then one of the arrivals completed the frame. */
  lemma SomeArrivalCompletes(start: Receiver, events: seq<Event>, t: Transfer)
    requires Valid(start) && Sound(t) && Fresh(start.table, t) && Undisturbed(events, t)
    requires Arrived(events, t) == AllIndices(t.frame)
    ensures exists k :: CompletesAt(start, events, t, k)
  {
    SomeLastArrival(events, t);
    var k :| LastArrival(events, t, k);
    LastArrivalCompletes(start, events, t, k);
  }

  lemma {:induction false} EmittedGrows(start: Receiver, events: seq<Event>, k: nat)
    requires AllLive(start.table) && k <= |events|
    ensures Run(start, events[..k]).emitted <= Run(start, events).emitted
  {
    assert events == events[..k] + events[k..];
    RunInTwoParts(start, events[..k], events[k..]);
  }

  /** The sender's frame comes out of an undisturbed run if and only if all of its chunks have arrived, whatever
      was emitted before the run. */
  lemma EmittedIffAllArrive(start: Receiver, events: seq<Event>, t: Transfer)
    requires Valid(start) && Sound(t) && Fresh(start.table, t) && Undisturbed(events, t) && |t.id| < 0x100
    ensures Whole(t) in Run(start, events).emitted <==> Arrived(events, t) == AllIndices(t.frame)
  {
    if Arrived(events, t) == AllIndices(t.frame) {
      SomeArrivalCompletes(start, events, t);
      var k :| CompletesAt(start, events, t, k);
      CompletionIsEmitted(start, events, t, k);
    } else {
      NothingEarly(start, events, t);
    }
  }

  lemma CompletionIsEmitted(start: Receiver, events: seq<Event>, t: Transfer, k: nat)
    requires AllLive(start.table) && CompletesAt(start, events, t, k)
    ensures Whole(t) in Run(start, events).emitted
  {
    LastOf(Run(start, events[..k]).emitted, Whole(t), Run(start, events).emitted) by {
      EmittedGrows(start, events, k + 1);
    }
  }

  lemma LastOf(before: seq<Emission>, em: Emission, all: seq<Emission>)
    requires before + [em] <= all
    ensures em in all
  {
    assert (before + [em])[|before|] == em;
  }

  // ---- timeouts ---------------------------------------------------------------------------------

  lemma {:induction false} NoEmissionsYet(emitted: seq<Emission>, id: Bytes, q: U32)
    requires forall k :: 0 <= k < |emitted| ==> emitted[k].sender != id
    ensures Emissions(emitted, id, q) == 0
  {
    if emitted != [] {
      NoEmissionsYet(emitted[..|emitted| - 1], id, q);
    }
  }

  /** A timeout check keeps an incomplete transfer exactly when its latest chunk is less than 1500 ms old, and
      counts every assembler it removes. */
  lemma TickKeepsTransferIff(start: Receiver, events: seq<Event>, now: Time, t: Transfer)
    requires Valid(start) && Sound(t) && Fresh(start.table, t) && Undisturbed(events, t)
    requires Arrived(events, t) != AllIndices(t.frame) && LastStamp(events, t).Some?
    ensures var before, after := Run(start, events).receiver, Run(start, events + [Tick(now)]).receiver;
            && (t.id in after.table <==> now - LastStamp(events, t).value < 1500)
            && after.ledger.timedOut - before.ledger.timedOut == |before.table| - |after.table|
  {
    NothingEarly(start, events, t);
    TickRuns(start, events, now);
    ExpiresExactly(Run(start, events).receiver, now, t.id);
    ExpiryIsCounted(Run(start, events).receiver, now);
  }

  lemma TickRuns(start: Receiver, events: seq<Event>, now: Time)
    requires AllLive(start.table)
    ensures var before, after := Run(start, events), Run(start, events + [Tick(now)]);
            after.receiver == Expire(before.receiver, now) && after.emitted == before.emitted
  {
    assert (events + [Tick(now)])[..|events|] == events;
  }

  /** Once a check has come 1500 ms or more after its latest chunk, an incomplete transfer is forgotten: whatever
      happens later, it is emitted at most as often as each of its chunks arrives after the check. */
  lemma TimedOutTransferStartsAfresh(start: Receiver, events: seq<Event>, now: Time, later: seq<Event>, t: Transfer,
                                     i: nat)
    requires Valid(start) && Sound(t) && Fresh(start.table, t) && Undisturbed(events, t)
    requires Arrived(events, t) != AllIndices(t.frame) && LastStamp(events, t).Some?
    requires now - LastStamp(events, t).value >= 1500
    requires forall k :: 0 <= k < |later| ==> CountsChunk(later[k], t.id, t.sequence, i)
    ensures Emissions(Run(start, events + [Tick(now)] + later).emitted, t.id, t.sequence)
            <= Deliveries(later, t.id, t.sequence, i)
  {
    var ticked := events + [Tick(now)];
    NothingEarly(start, events, t);
    TickRuns(start, events, now);
    TickKeepsTransferIff(start, events, now, t);
    RunValid(start, ticked);
    var mid := Run(start, ticked);
    NoEmissionsYet(mid.emitted, t.id, t.sequence);
    EmissionsBounded(mid.receiver, later, t.id, t.sequence, i);
    RunInTwoParts(start, ticked, later);
    EmissionsOfTwoParts(mid.emitted, Run(mid.receiver, later).emitted, t.id, t.sequence);
  }

  // ---- end to end -------------------------------------------------------------------------------

  /** The event is chunk i of the frame as the sender emits it and the relay forwards it. */
  ghost predicate ForwardsChunk(e: Event, t: Transfer, i: nat) {
    && IsChunked(t.frame) && |t.id| < 0x100 && i < ChunkCount(t.frame)
    && e.Packet? && e.raw == Relayed(t.id, SentChunk(t.sequence, t.frame, i))
  }

  /** Some forwarded chunk of the transfer, or nothing under this sender's id. */
  ghost predicate Expected(e: Event, t: Transfer) {
    !IsOwn(ParsedOf(e), t.id) || exists i :: ForwardsChunk(e, t, i)
  }

  /** No reconnect, and never 1500 ms without a chunk of the transfer once one has come. */
  ghost predicate Timely(events: seq<Event>, t: Transfer) {
    events != [] ==>
      var init, e := events[..|events| - 1], events[|events| - 1];
      && Timely(init, t) && !e.Reconnect?
      && (LastStamp(init, t).Some? ==> ClockOf(e) - LastStamp(init, t).value < REASSEMBLY_TIMEOUT)
  }

  lemma ForwardedParses(e: Event, t: Transfer, i: nat)
    requires Sound(t) && IsSenderId(t.id) && ForwardsChunk(e, t, i)
    ensures IsMine(ParsedOf(e), t) && IsPieceOf(ParsedOf(e).value, t.frame) && ParsedOf(e).value.meta.chunkIndex == i
  {
    RelayedChunkParses(t.id, t.sequence, t.frame, i);
  }

  /** Each event is expected, or a late chunk of the sender after the first chunk of the transfer. */
  ghost predicate AllExpected(events: seq<Event>, t: Transfer) {
    forall k :: 0 <= k < |events| ==>
      Expected(events[k], t) || (IsLate(ParsedOf(events[k]), t) && LastStamp(events[..k], t).Some?)
  }

  lemma ExpectedIsOnTopic(e: Event, t: Transfer, held: bool)
    requires Sound(t) && IsSenderId(t.id) && Expected(e, t)
    ensures OnTopic(ParsedOf(e), t, held)
  {
    if IsOwn(ParsedOf(e), t.id) {
      var i :| ForwardsChunk(e, t, i);
      ForwardedParses(e, t, i);
    }
  }

  lemma {:induction false} ExpectedIsUndisturbed(events: seq<Event>, t: Transfer)
    requires Sound(t) && IsSenderId(t.id) && Timely(events, t) && AllExpected(events, t)
    ensures Undisturbed(events, t)
  {
    if events != [] {
      var init, e := events[..|events| - 1], events[|events| - 1];
      forall k | 0 <= k < |init|
        ensures Expected(init[k], t) || (IsLate(ParsedOf(init[k]), t) && LastStamp(init[..k], t).Some?)
      {
        assert init[..k] == events[..k];
      }
      ExpectedIsUndisturbed(init, t);
      if Expected(e, t) {
        ExpectedIsOnTopic(e, t, LastStamp(init, t).Some?);
      }
    }
  }

  lemma {:induction false} ForwardedArrives(events: seq<Event>, t: Transfer, k: nat, i: nat)
    requires Sound(t) && IsSenderId(t.id) && k < |events| && ForwardsChunk(events[k], t, i)
    ensures i in Arrived(events, t)
  {
    if k == |events| - 1 {
      ForwardedParses(events[k], t, i);
    } else {
      ForwardedArrives(events[..|events| - 1], t, k, i);
    }
  }

  /** Every chunk is forwarded at least once. */
  ghost predicate Delivers(events: seq<Event>, t: Transfer) {
    forall i: nat :: i < ChunkCount(t.frame) ==> IsForwarded(events, t, i)
  }

  ghost predicate IsForwarded(events: seq<Event>, t: Transfer, i: nat) {
    exists k :: 0 <= k < |events| && ForwardsChunk(events[k], t, i)
  }

  /** End to end: if every chunk the sender emitted arrives, in any order, with any duplicates, among any other
      traffic and late chunks of the sender's older frames, and no gap reaches 1500 ms, then the arrival of
      the last distinct chunk emits the frame, and the sender's id had not been emitted for before. */
  lemma DeliversWhatWasSent(start: Receiver, events: seq<Event>, t: Transfer)
    requires Valid(start) && Sound(t) && IsSenderId(t.id) && Fresh(start.table, t)
    requires Timely(events, t) && Delivers(events, t) && AllExpected(events, t)
    ensures exists k :: CompletesAt(start, events, t, k)
  {
    ExpectedIsUndisturbed(events, t);
    ArrivedInRange(events, t);
    forall i: nat | i in AllIndices(t.frame)
      ensures i in Arrived(events, t)
    {
      assert IsForwarded(events, t, i);
      var k :| 0 <= k < |events| && ForwardsChunk(events[k], t, i);
      ForwardedArrives(events, t, k, i);
    }
    SomeArrivalCompletes(start, events, t);
  }

  // ---- frames may come out of order -------------------------------------------------------------

  /** All chunks of a frame, forwarded in order at one time. */
  function AllChunks(t: Transfer, now: Time): (events: seq<Event>)
    requires IsChunked(t.frame) && |t.id| < 0x100
    ensures |events| == ChunkCount(t.frame)
    ensures forall i :: 0 <= i < |events| ==>
              ForwardsChunk(events[i], t, i) && events[i].Packet? && events[i].now == events[i].at == now
  {
    seq(ChunkCount(t.frame), i requires 0 <= i < ChunkCount(t.frame) =>
      Packet(Relayed(t.id, SentChunk(t.sequence, t.frame, i)), now, now))
  }

  lemma {:induction false} AtOneTimeIsTimely(events: seq<Event>, t: Transfer, now: Time)
    requires forall k :: 0 <= k < |events| ==> events[k].Packet? && events[k].now == events[k].at == now
    ensures Timely(events, t) && LastStamp(events, t) in {None, Some(now)}
  {
    if events != [] {
      AtOneTimeIsTimely(events[..|events| - 1], t, now);
    }
  }

  lemma AllChunksDeliver(t: Transfer, now: Time)
    requires IsChunked(t.frame) && |t.id| < 0x100
    ensures Delivers(AllChunks(t, now), t) && Timely(AllChunks(t, now), t)
    ensures AllExpected(AllChunks(t, now), t)
  {
    var events := AllChunks(t, now);
    AtOneTimeIsTimely(events, t, now);
    forall i: nat | i < ChunkCount(t.frame)
      ensures IsForwarded(events, t, i) && Expected(events[i], t)
    {
      assert ForwardsChunk(events[i], t, i);
    }
  }

  lemma {:induction false} InOrderArrives(events: seq<Event>, t: Transfer)
    requires Sound(t) && IsSenderId(t.id) && |events| <= ChunkCount(t.frame)
    requires forall i :: 0 <= i < |events| ==> ForwardsChunk(events[i], t, i)
    ensures Arrived(events, t) == Below(|events|)
  {
    if events != [] {
      var n := |events| - 1;
      InOrderArrives(events[..n], t);
      ForwardedParses(events[n], t, n);
    }
  }

  lemma AllChunksArriveAtTheEnd(t: Transfer, now: Time)
    requires Sound(t) && IsSenderId(t.id)
    ensures LastArrival(AllChunks(t, now), t, ChunkCount(t.frame) - 1)
    ensures Undisturbed(AllChunks(t, now), t) && Arrived(AllChunks(t, now), t) == AllIndices(t.frame)
  {
    var events, n := AllChunks(t, now), ChunkCount(t.frame) - 1;
    AllChunksDeliver(t, now);
    ExpectedIsUndisturbed(events, t);
    InOrderArrives(events, t);
    InOrderArrives(events[..n], t);
    assert n in Below(n + 1) && n !in Below(n);
    assert events[..n + 1] == events;
  }

  /** After an emission of the sender, a further frame of it, newer or older, comes out of an undisturbed run if
      and only if all of its chunks arrive in that run. */
  lemma AfterAnEmissionEmittedIffAllArrive(start: Receiver, events: seq<Event>, later: seq<Event>, t: Transfer)
    requires Valid(start) && JustEmitted(start, events, t.id)
    requires Sound(t) && |t.id| < 0x100 && Undisturbed(later, t)
    ensures var before, all := Run(start, events).emitted, Run(start, events + later).emitted;
            before <= all && (Whole(t) in all[|before|..] <==> Arrived(later, t) == AllIndices(t.frame))
  {
    var mid := Run(start, events);
    RunValid(start, events);
    JustEmittedHasNoAssembler(start, events, t.id);
    EmittedIffAllArrive(mid.receiver, later, t);
    RunInTwoParts(start, events, later);
    var tail := Run(mid.receiver, later).emitted;
    assert (mid.emitted + tail)[|mid.emitted|..] == tail;
  }

  lemma AllChunksJustEmit(start: Receiver, t: Transfer, now: Time)
    requires Valid(start) && Sound(t) && IsSenderId(t.id) && Fresh(start.table, t)
    ensures JustEmitted(start, AllChunks(t, now), t.id)
    ensures Whole(t) in Run(start, AllChunks(t, now)).emitted
  {
    AllChunksArriveAtTheEnd(t, now);
    LastArrivalCompletes(start, AllChunks(t, now), t, ChunkCount(t.frame) - 1);
    CompletionIsEmitted(start, AllChunks(t, now), t, ChunkCount(t.frame) - 1);
    CompletedAtTheEndJustEmits(start, AllChunks(t, now), t);
  }

  lemma CompletedAtTheEndJustEmits(start: Receiver, events: seq<Event>, t: Transfer)
    requires AllLive(start.table) && events != [] && CompletesAt(start, events, t, |events| - 1)
    ensures JustEmitted(start, events, t.id)
  {
    assert events[..|events|] == events;
    CompletionJustEmits(Run(start, events[..|events| - 1]).emitted, Run(start, events).emitted, t);
  }

  lemma CompletionJustEmits(before: seq<Emission>, after: seq<Emission>, t: Transfer)
    requires |t.id| < 0x100 && after == before + [Whole(t)]
    ensures after != before && after != [] && after[|after| - 1].sender == t.id
  {
    assert |after| == |before| + 1;
  }

  /** So emitted sequences need not increase: frames 2 and 1 of any sender, sent in full one after the other
      with the newer first, are both emitted, the newer first. */
  lemma OlderFrameFollowsNewer(id: Bytes, newer: Bytes, older: Bytes, now: Time)
    requires IsSenderId(id) && Sound(Transfer(id, 2, newer)) && Sound(Transfer(id, 1, older))
    ensures var second, first := Transfer(id, 2, newer), Transfer(id, 1, older);
            var before := Run(EMPTY, AllChunks(second, now)).emitted;
            var all := Run(EMPTY, AllChunks(second, now) + AllChunks(first, now)).emitted;
            Whole(second) in before && before <= all && Whole(first) in all[|before|..]
  {
    var second, first := Transfer(id, 2, newer), Transfer(id, 1, older);
    AllChunksJustEmit(EMPTY, second, now);
    AllChunksArriveAtTheEnd(first, now);
    AfterAnEmissionEmittedIffAllArrive(EMPTY, AllChunks(second, now), AllChunks(first, now), first);
  }
}
