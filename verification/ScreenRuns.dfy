/** Whole runs of the screen receiver (crates/net_control/src/lib.rs, lines 779-858): any packets,
    in any order, with any losses and duplicates, mixed with timeouts and reconnects. */
module ScreenRuns {
  import opened Common
  import opened ScreenWire
  import opened ScreenAssembly

  datatype Event =
    | Packet(raw: Bytes, now: Time, at: Time)
    | Tick(now: Time)
    | Reconnect

  datatype Emission = Emission(sender: Bytes, sequence: U32, frame: Bytes)

  datatype World = World(receiver: Receiver, emitted: seq<Emission>)

  function Reset(r: Receiver): Receiver {
    Receiver(map[], r.ledger.(cleared := r.ledger.cleared + |r.table|))
  }

  /** The effect of a packet once its bytes have been parsed. */
  function Receive(w: World, p: Option<ChunkFrame>, now: Time, at: Time): World
    requires AllLive(w.receiver.table) && (p.Some? ==> p.value.meta.chunkIndex < p.value.meta.chunkCount)
  {
    match p
    case None => w
    case Some(f) =>
      var (r, out) := AbsorbFrame(w.receiver, f, now, at);
      World(r, w.emitted + (match out
                            case None => []
                            case Some(frame) => [Emission(f.sender, f.meta.sequence, frame)]))
  }

  function React(w: World, e: Event): World
    requires AllLive(w.receiver.table)
  {
    match e
    case Packet(raw, now, at) => Receive(w, ParseChunkFrame(raw), now, at)
    case Tick(now) => w.(receiver := Expire(w.receiver, now))
    case Reconnect => w.(receiver := Reset(w.receiver))
  }

  /** Receiving is `absorb_screen_chunk`, with what it returns appended to the emissions. */
  lemma ReceiveIsAbsorb(w: World, raw: Bytes, now: Time, at: Time)
    requires AllLive(w.receiver.table)
    ensures var (r, out) := Absorb(w.receiver, raw, now, at);
            var w' := Receive(w, ParseChunkFrame(raw), now, at);
            && w'.receiver == r
            && w'.emitted == w.emitted + (match (out, ParseChunkFrame(raw))
                                          case (Some(frame), Some(f)) => [Emission(f.sender, f.meta.sequence, frame)]
                                          case _ => [])
  {
  }

  lemma ReactValid(w: World, e: Event)
    requires Valid(w.receiver)
    ensures Valid(React(w, e).receiver)
  {
    match e
    case Packet(raw, now, at) => AbsorbValid(w.receiver, raw, now, at); ReceiveIsAbsorb(w, raw, now, at);
    case Tick(now) => ExpireValid(w.receiver, now);
    case Reconnect =>
  }

  lemma ReactLive(w: World, e: Event)
    requires AllLive(w.receiver.table)
    ensures AllLive(React(w, e).receiver.table)
  {
    if e.Packet? {
      AbsorbLive(w.receiver, e.raw, e.now, e.at);
      ReceiveIsAbsorb(w, e.raw, e.now, e.at);
    }
  }

  function Run(start: Receiver, events: seq<Event>): (w: World)
    requires AllLive(start.table)
    ensures AllLive(w.receiver.table)
  {
    if events == [] then World(start, [])
    else
      var before := Run(start, events[..|events| - 1]);
      ReactLive(before, events[|events| - 1]);
      React(before, events[|events| - 1])
  }

  lemma {:induction false} RunValid(start: Receiver, events: seq<Event>)
    requires Valid(start)
    ensures Valid(Run(start, events).receiver)
  {
    if events != [] {
      RunValid(start, events[..|events| - 1]);
      ReactValid(Run(start, events[..|events| - 1]), events[|events| - 1]);
    }
  }

  /** Assembler accounting over any run: every assembler ever opened was completed, superseded,
      timed out, dropped for size, cleared, or is still live; and a live one is incomplete, counts
      exactly its filled slots and stored bytes, and holds at most 512 KiB. */
  lemma Accounting(events: seq<Event>)
    ensures Valid(EMPTY)
    ensures var r := Run(EMPTY, events).receiver;
            && r.ledger.started == r.ledger.completed + r.ledger.superseded + r.ledger.timedOut
                                   + r.ledger.oversize + r.ledger.cleared + |r.table|
            && (forall id :: id in r.table ==>
                  && r.table[id].received == Filled(r.table[id].chunks) < r.table[id].chunkCount
                  && r.table[id].totalLen == StoredBytes(r.table[id].chunks) <= MAX_SCREEN_FRAME_SIZE)
  {
    var r := Run(EMPTY, events).receiver;
    RunValid(EMPTY, events);
    forall id | id in r.table
      ensures r.table[id].Live()
    {
    }
  }

  lemma ReceiveCompletes(w: World, p: Option<ChunkFrame>, now: Time, at: Time)
    requires Valid(w.receiver) && (p.Some? ==> IsChunkFrame(p.value))
    ensures var w' := Receive(w, p, now, at);
            w'.receiver.ledger.completed - |w'.emitted| == w.receiver.ledger.completed - |w.emitted|
  {
    if p.Some? {
      ExpireValid(CountPacket(w.receiver), now);
      DeliverValid(Expire(CountPacket(w.receiver), now), p.value, at);
      DeliverCompletes(Expire(CountPacket(w.receiver), now), p.value, at);
    }
  }

  lemma {:induction false} CompletedAreEmitted(start: Receiver, events: seq<Event>)
    requires Valid(start)
    ensures var w := Run(start, events);
            w.receiver.ledger.completed == start.ledger.completed + |w.emitted|
  {
    if events != [] {
      var before, e := Run(start, events[..|events| - 1]), events[|events| - 1];
      CompletedAreEmitted(start, events[..|events| - 1]);
      RunValid(start, events[..|events| - 1]);
      if e.Packet? {
        ParsedIsChunkFrame(e.raw);
        ReceiveCompletes(before, ParseChunkFrame(e.raw), e.now, e.at);
      }
    }
  }

  lemma ParsedIsChunkFrame(raw: Bytes)
    ensures ParseChunkFrame(raw).Some? ==> IsChunkFrame(ParseChunkFrame(raw).value)
  {
    if ParseChunkFrame(raw).Some? {
      PacketInvertsParse(raw);
    }
  }

  lemma DeliverCompletes(r: Receiver, f: ChunkFrame, at: Time)
    requires Valid(r) && IsChunkFrame(f)
    ensures var (r', out) := Deliver(r, f, at);
            r'.ledger.completed == r.ledger.completed + (if out.Some? then 1 else 0)
  {
    DeliverValid(r, f, at);
  }

  // ---- one honest sender among arbitrary traffic -----------------------------------------------

  /** The frames a sender has given sequences, in order: the n-th (from 1) took sequence n. Fewer than 2^32 of
      them; one of more than 65535 chunks takes a sequence, or two, and is never sent. */
  ghost predicate Sendable(frames: seq<Bytes>) {
    |frames| < TWO32
  }

  /** Long enough to be split, short enough to be sent. */
  predicate IsChunked(frame: Bytes) {
    CHUNK_SIZE < |frame| && ChunkCount(frame) < 0x1_0000
  }

  ghost predicate IsPacketOf(f: ChunkFrame, frames: seq<Bytes>) {
    && 1 <= f.meta.sequence <= |frames|
    && IsChunked(frames[f.meta.sequence - 1])
    && IsPieceOf(f, frames[f.meta.sequence - 1])
  }

  /** The chunk's count, index and bytes are those of one piece of the frame. */
  predicate IsPieceOf(f: ChunkFrame, frame: Bytes)
    requires IsChunked(frame)
  {
    && f.meta.chunkCount == ChunkCount(frame)
    && f.meta.chunkIndex < f.meta.chunkCount
    && f.data == ChunkAt(frame, f.meta.chunkIndex)
  }

  /** Whatever reaches the receiver under this sender's id is one of its packets. Nothing is said
      about bytes that do not parse or that carry another id. */
  ghost predicate Authentic(e: Event, id: Bytes, frames: seq<Bytes>) {
    e.Packet? ==> AuthenticFrame(ParseChunkFrame(e.raw), id, frames)
  }

  ghost predicate AuthenticFrame(p: Option<ChunkFrame>, id: Bytes, frames: seq<Bytes>) {
    p.Some? && p.value.sender == id ==> IsPacketOf(p.value, frames)
  }

  ghost predicate HoldsPieces(slots: Slots, frame: Bytes) {
    && |slots| == ChunkCount(frame)
    && forall i :: 0 <= i < |slots| && slots[i].Some? ==> slots[i].value == ChunkAt(frame, i)
  }

  ghost predicate Faithful(a: Assembler, frames: seq<Bytes>) {
    && 1 <= a.sequence <= |frames|
    && IsChunked(frames[a.sequence - 1])
    && a.chunkCount == ChunkCount(frames[a.sequence - 1])
    && HoldsPieces(a.chunks, frames[a.sequence - 1])
  }

  ghost predicate TableFaithful(table: Table, id: Bytes, frames: seq<Bytes>) {
    id in table ==> Faithful(table[id], frames)
  }

  /** A chunk for another sender leaves this sender's assembler alone. */
  lemma OtherSendersUntouched(r: Receiver, f: ChunkFrame, at: Time, id: Bytes)
    requires Valid(r) && IsChunkFrame(f) && f.sender != id
    ensures var r' := Deliver(r, f, at).0;
            (id in r'.table <==> id in r.table) && (id in r.table ==> r'.table[id] == r.table[id])
  {
  }

  /** Absorbing a packet, expiry included: every other sender's assembler stays as it is, or goes because it
      has timed out. */
  lemma AbsorbTouchesOneSender(r: Receiver, raw: Bytes, now: Time, at: Time, id: Bytes)
    requires Valid(r) && ParseChunkFrame(raw).Some? && ParseChunkFrame(raw).value.sender != id
    ensures var r' := Absorb(r, raw, now, at).0;
            && (id in r'.table <==> id in r.table && !r.table[id].IsTimedOut(now))
            && (id in r'.table ==> r'.table[id] == r.table[id])
  {
    ParsedIsChunkFrame(raw);
    ExpireValid(CountPacket(r), now);
    OtherSendersUntouched(Expire(CountPacket(r), now), ParseChunkFrame(raw).value, at, id);
  }

  lemma StoreFaithful(r: Receiver, f: ChunkFrame, at: Time, frame: Bytes)
    requires Valid(r) && IsChunkFrame(f) && f.sender in r.table && IsChunked(frame) && IsPieceOf(f, frame)
    requires var a := r.table[f.sender];
             a.sequence == f.meta.sequence && a.chunkCount == f.meta.chunkCount && HoldsPieces(a.chunks, frame)
    ensures var (r', out) := Store(r, f, at);
            && (f.sender in r'.table ==>
                  && r'.table[f.sender].sequence == f.meta.sequence
                  && r'.table[f.sender].chunkCount == f.meta.chunkCount
                  && HoldsPieces(r'.table[f.sender].chunks, frame))
            && (out.Some? ==> out.value == ScreenPacket(f.sender, frame) && |frame| <= MAX_SCREEN_FRAME_SIZE)
  {
    var a := r.table[f.sender];
    var (b, kept) := StoreChunk(a, f.meta, f.data, at);
    StoreChunkCases(a, f.meta, f.data, at);
    if kept {
      assert HoldsPieces(b.chunks, frame);
      if b.IsComplete() {
        FilledBounds(b.chunks);
        JoinAll(b.chunks);
        JoinOfChunks(b.chunks, Chunks(frame));
        ChunksJoin(frame);
      }
    }
  }

  lemma DeliverFaithful(r: Receiver, f: ChunkFrame, at: Time, id: Bytes, frames: seq<Bytes>)
    requires Valid(r) && IsChunkFrame(f) && Sendable(frames)
    requires TableFaithful(r.table, id, frames)
    requires f.sender == id ==> IsPacketOf(f, frames)
    ensures var (r', out) := Deliver(r, f, at);
            && TableFaithful(r'.table, id, frames)
            && (f.sender == id && out.Some? ==>
                  && out.value == ScreenPacket(id, frames[f.meta.sequence - 1])
                  && |frames[f.meta.sequence - 1]| <= MAX_SCREEN_FRAME_SIZE)
  {
    if f.sender != id {
      OtherSendersUntouched(r, f, at, id);
    } else {
      var frame := frames[f.meta.sequence - 1];
      match RouteOf(r.table, f)
      case Ignore =>
      case Replace =>
        OpenValid(r, f, at);
        StoreFaithful(Open(r, f, at), f, at, frame);
      case Extend =>
        StoreFaithful(r, f, at, frame);
    }
  }

  /** At most one emission is added, and it is faithful. */
  ghost predicate Extends(w: World, w': World, id: Bytes, frames: seq<Bytes>) {
    || w'.emitted == w.emitted
    || (exists em :: w'.emitted == w.emitted + [em] && EmissionFaithful(em, id, frames))
  }

  lemma ReceiveFaithful(w: World, p: Option<ChunkFrame>, now: Time, at: Time, id: Bytes, frames: seq<Bytes>)
    requires Valid(w.receiver) && Sendable(frames) && (p.Some? ==> IsChunkFrame(p.value))
    requires TableFaithful(w.receiver.table, id, frames) && AuthenticFrame(p, id, frames)
    ensures var w' := Receive(w, p, now, at);
            TableFaithful(w'.receiver.table, id, frames) && Extends(w, w', id, frames)
  {
    if p.Some? {
      var f, r := p.value, Expire(CountPacket(w.receiver), now);
      ExpireValid(CountPacket(w.receiver), now);
      DeliverFaithful(r, f, at, id, frames);
      match Deliver(r, f, at).1
      case None =>
      case Some(frame) =>
        assert EmissionFaithful(Emission(f.sender, f.meta.sequence, frame), id, frames);
    }
  }

  lemma ReactFaithful(w: World, e: Event, id: Bytes, frames: seq<Bytes>)
    requires Valid(w.receiver) && Sendable(frames)
    requires TableFaithful(w.receiver.table, id, frames) && Authentic(e, id, frames)
    ensures var w' := React(w, e);
            TableFaithful(w'.receiver.table, id, frames) && Extends(w, w', id, frames)
  {
    if e.Packet? {
      ParsedIsChunkFrame(e.raw);
      ReceiveFaithful(w, ParseChunkFrame(e.raw), e.now, e.at, id, frames);
    }
  }

  ghost predicate EmissionFaithful(em: Emission, id: Bytes, frames: seq<Bytes>) {
    em.sender == id ==>
      && 1 <= em.sequence <= |frames| && |id| < 0x100 && IsChunked(frames[em.sequence - 1])
      && em.frame == ScreenPacket(id, frames[em.sequence - 1])
      && |frames[em.sequence - 1]| <= MAX_SCREEN_FRAME_SIZE
  }

  /** Integrity: under any loss, duplication, reordering, timeouts, reconnects and any traffic of
      other senders, each frame emitted for an honest sender's sequence is exactly the frame that
      sender split under it, and is at most 512 KiB. */
  lemma {:induction false} Integrity(start: Receiver, events: seq<Event>, id: Bytes, frames: seq<Bytes>)
    requires Valid(start) && Sendable(frames) && TableFaithful(start.table, id, frames)
    requires forall i :: 0 <= i < |events| ==> Authentic(events[i], id, frames)
    ensures var w := Run(start, events);
            && TableFaithful(w.receiver.table, id, frames)
            && (forall k :: 0 <= k < |w.emitted| ==> EmissionFaithful(w.emitted[k], id, frames))
  {
    if events != [] {
      var before := Run(start, events[..|events| - 1]);
      Integrity(start, events[..|events| - 1], id, frames);
      RunValid(start, events[..|events| - 1]);
      ReactFaithful(before, events[|events| - 1], id, frames);
      var after := React(before, events[|events| - 1]);
      forall k | 0 <= k < |after.emitted|
        ensures EmissionFaithful(after.emitted[k], id, frames)
      {
        if k < |before.emitted| {
          assert after.emitted[k] == before.emitted[k];
        }
      }
    }
  }

  /** The relay puts the sender's id behind the packet tag and passes the rest on. */
  function Relayed(id: Bytes, sent: Bytes): Bytes
    requires |id| < 0x100 && sent != []
  {
    Tagged(sent[0], id, sent[1..])
  }

  /** What the sender puts on the wire arrives, once relayed, as a piece of its frame. */
  lemma RelayedChunkParses(id: Bytes, q: U32, frame: Bytes, i: nat)
    requires IsSenderId(id) && IsChunked(frame) && i < ChunkCount(frame)
    ensures var f := ChunkFrame(id, Metadata(q, i, ChunkCount(frame)), ChunkAt(frame, i));
            ParseChunkFrame(Relayed(id, SentChunk(q, frame, i))) == Some(f) && IsPieceOf(f, frame)
  {
    var f := ChunkFrame(id, Metadata(q, i, ChunkCount(frame)), ChunkAt(frame, i));
    var sent := SentChunk(q, frame, i);
    assert sent[1..] == EncodeMetadata(f.meta) + f.data;
    ParseInvertsPacket(f);
  }

  /** What is emitted parses back to the sender and its frame. */
  lemma EmissionParses(em: Emission, id: Bytes, frames: seq<Bytes>)
    requires IsSenderId(id) && em.sender == id && EmissionFaithful(em, id, frames)
    ensures ParseScreenFrame(em.frame) == Some((id, frames[em.sequence - 1]))
  {
    ParseScreenInvertsPacket(id, frames[em.sequence - 1]);
  }

  // ---- how often a frame can be emitted --------------------------------------------------------

  /** Arrivals of chunk i of the sender's frame q. */
  function Deliveries(events: seq<Event>, id: Bytes, q: U32, i: nat): nat {
    if events == [] then 0
    else
      var e := events[|events| - 1];
      Deliveries(events[..|events| - 1], id, q, i)
      + (if e.Packet? && IsChunk(ParseChunkFrame(e.raw), id, q, i) then 1 else 0)
  }

  predicate IsChunk(p: Option<ChunkFrame>, id: Bytes, q: U32, i: nat) {
    p.Some? && p.value.sender == id && p.value.meta.sequence == q && p.value.meta.chunkIndex == i
  }

  function Emissions(emitted: seq<Emission>, id: Bytes, q: U32): nat {
    if emitted == [] then 0
    else
      var em := emitted[|emitted| - 1];
      Emissions(emitted[..|emitted| - 1], id, q) + (if em.sender == id && em.sequence == q then 1 else 0)
  }

  lemma EmissionsAppend(emitted: seq<Emission>, em: Emission, id: Bytes, q: U32)
    ensures Emissions(emitted + [em], id, q)
            == Emissions(emitted, id, q) + (if em.sender == id && em.sequence == q then 1 else 0)
  {
    assert (emitted + [em])[..|emitted|] == emitted;
  }

  /** 1 when the sender's live assembler is for frame q and holds chunk i. */
  ghost function Holding(table: Table, id: Bytes, q: U32, i: nat): nat {
    if id in table && table[id].sequence == q && i < |table[id].chunks| && table[id].chunks[i].Some? then 1 else 0
  }

  lemma StoreSpendsDelivery(r: Receiver, f: ChunkFrame, at: Time, q: U32, i: nat)
    requires Valid(r) && IsChunkFrame(f) && f.sender in r.table
    requires r.table[f.sender].sequence == f.meta.sequence && r.table[f.sender].chunkCount == f.meta.chunkCount
    requires f.meta.sequence == q ==> i < f.meta.chunkCount
    ensures var (r', out) := Store(r, f, at);
            (if out.Some? && f.meta.sequence == q then 1 else 0) + Holding(r'.table, f.sender, q, i)
            <= Holding(r.table, f.sender, q, i) + (if f.meta.sequence == q && f.meta.chunkIndex == i then 1 else 0)
  {
    var a := r.table[f.sender];
    StoreChunkCases(a, f.meta, f.data, at);
    var (b, kept) := StoreChunk(a, f.meta, f.data, at);
    if kept && b.IsComplete() {
      FilledBounds(b.chunks);
      assert f.meta.sequence == q ==> b.chunks[i].Some?;
    }
  }

  lemma DeliverSpendsDelivery(r: Receiver, f: ChunkFrame, at: Time, id: Bytes, q: U32, i: nat)
    requires Valid(r) && IsChunkFrame(f)
    requires f.sender == id && f.meta.sequence == q ==> i < f.meta.chunkCount
    ensures var (r', out) := Deliver(r, f, at);
            (if out.Some? && f.sender == id && f.meta.sequence == q then 1 else 0) + Holding(r'.table, id, q, i)
            <= Holding(r.table, id, q, i) + (if IsChunk(Some(f), id, q, i) then 1 else 0)
  {
    if f.sender != id {
      OtherSendersUntouched(r, f, at, id);
    } else {
      match RouteOf(r.table, f)
      case Ignore =>
      case Replace =>
        OpenValid(r, f, at);
        StoreSpendsDelivery(Open(r, f, at), f, at, q, i);
      case Extend =>
        StoreSpendsDelivery(r, f, at, q, i);
    }
  }

  lemma ReceiveSpendsDelivery(w: World, p: Option<ChunkFrame>, now: Time, at: Time, id: Bytes, q: U32, i: nat)
    requires Valid(w.receiver) && (p.Some? ==> IsChunkFrame(p.value))
    requires p.Some? && p.value.sender == id && p.value.meta.sequence == q ==> i < p.value.meta.chunkCount
    ensures var w' := Receive(w, p, now, at);
            Emissions(w'.emitted, id, q) + Holding(w'.receiver.table, id, q, i)
            <= Emissions(w.emitted, id, q) + Holding(w.receiver.table, id, q, i)
               + (if IsChunk(p, id, q, i) then 1 else 0)
  {
    if p.Some? {
      var f, r := p.value, Expire(CountPacket(w.receiver), now);
      ExpireValid(CountPacket(w.receiver), now);
      DeliverSpendsDelivery(r, f, at, id, q, i);
      match Deliver(r, f, at).1
      case None => assert Receive(w, p, now, at).emitted == w.emitted;
      case Some(frame) => EmissionsAppend(w.emitted, Emission(f.sender, f.meta.sequence, frame), id, q);
    }
  }

  /** Every chunk that claims to belong to the sender's frame q counts chunk i among its pieces. */
  ghost predicate CountsChunk(e: Event, id: Bytes, q: U32, i: nat) {
    e.Packet? ==> ClaimsChunk(ParseChunkFrame(e.raw), id, q, i)
  }

  ghost predicate ClaimsChunk(p: Option<ChunkFrame>, id: Bytes, q: U32, i: nat) {
    p.Some? && p.value.sender == id && p.value.meta.sequence == q ==> i < p.value.meta.chunkCount
  }

  lemma {:induction false} EmissionsBounded(start: Receiver, events: seq<Event>, id: Bytes, q: U32, i: nat)
    requires Valid(start) && id !in start.table
    requires forall k :: 0 <= k < |events| ==> CountsChunk(events[k], id, q, i)
    ensures var w := Run(start, events);
            Emissions(w.emitted, id, q) + Holding(w.receiver.table, id, q, i) <= Deliveries(events, id, q, i)
  {
    if events != [] {
      var before, e := Run(start, events[..|events| - 1]), events[|events| - 1];
      EmissionsBounded(start, events[..|events| - 1], id, q, i);
      RunValid(start, events[..|events| - 1]);
      assert CountsChunk(e, id, q, i);
      if e.Packet? {
        ParsedIsChunkFrame(e.raw);
        ReceiveSpendsDelivery(before, ParseChunkFrame(e.raw), e.now, e.at, id, q, i);
      }
    }
  }

  /** A sender's frame is emitted at most as often as its rarest chunk arrives; in particular at most
      once when no packet is delivered twice, and never when a chunk is lost. */
  lemma EmittedAtMostPerChunk(start: Receiver, events: seq<Event>, id: Bytes, frames: seq<Bytes>, q: U32, i: nat)
    requires Valid(start) && id !in start.table && Sendable(frames)
    requires forall k :: 0 <= k < |events| ==> Authentic(events[k], id, frames)
    requires 1 <= q <= |frames| && i < ChunkCount(frames[q - 1])
    ensures Emissions(Run(start, events).emitted, id, q) <= Deliveries(events, id, q, i)
  {
    forall k | 0 <= k < |events|
      ensures CountsChunk(events[k], id, q, i)
    {
      assert Authentic(events[k], id, frames);
    }
    EmissionsBounded(start, events, id, q, i);
  }

  // ---- after an emission ------------------------------------------------------------------------

  lemma {:induction false} RunInTwoParts(start: Receiver, a: seq<Event>, b: seq<Event>)
    requires AllLive(start.table)
    ensures var first := Run(start, a);
            var second := Run(first.receiver, b);
            Run(start, a + b) == World(second.receiver, first.emitted + second.emitted)
    decreases |b|
  {
    if b == [] {
      assert a + b == a;
      assert Run(start, a).emitted + [] == Run(start, a).emitted;
    } else {
      var init, e := b[..|b| - 1], b[|b| - 1];
      assert (a + b)[..|a + b| - 1] == a + init;
      RunInTwoParts(start, a, init);
      var first := Run(start, a);
      var second := Run(first.receiver, init);
      ReactAppends(second, World(second.receiver, first.emitted + second.emitted), e, first.emitted);
    }
  }

  /** What an event emits depends on the receiver only. */
  lemma ReactAppends(w: World, longer: World, e: Event, earlier: seq<Emission>)
    requires AllLive(w.receiver.table) && longer == World(w.receiver, earlier + w.emitted)
    ensures React(longer, e) == World(React(w, e).receiver, earlier + React(w, e).emitted)
  {
    if e.Packet? {
      match ParseChunkFrame(e.raw)
      case None =>
      case Some(f) =>
        var out := AbsorbFrame(w.receiver, f, e.now, e.at).1;
        var more := match out
                    case None => []
                    case Some(frame) => [Emission(f.sender, f.meta.sequence, frame)];
        assert earlier + (w.emitted + more) == (earlier + w.emitted) + more;
    }
  }

  lemma {:induction false} EmissionsOfTwoParts(a: seq<Emission>, b: seq<Emission>, id: Bytes, q: U32)
    ensures Emissions(a + b, id, q) == Emissions(a, id, q) + Emissions(b, id, q)
    decreases |b|
  {
    if b == [] {
      assert a + b == a;
    } else {
      assert (a + b)[..|a + b| - 1] == a + b[..|b| - 1];
      EmissionsOfTwoParts(a, b[..|b| - 1], id, q);
    }
  }

  lemma DeliverCloses(r: Receiver, f: ChunkFrame, at: Time)
    requires Valid(r) && IsChunkFrame(f)
    ensures Deliver(r, f, at).1.Some? ==> f.sender !in Deliver(r, f, at).0.table
  {
  }

  /** An event emits at most one frame, and leaves no assembler for the sender of what it emits. */
  lemma EmissionClosesAssembler(w: World, e: Event)
    requires Valid(w.receiver)
    ensures var w' := React(w, e);
            || w'.emitted == w.emitted
            || (exists em :: w'.emitted == w.emitted + [em] && em.sender !in w'.receiver.table)
  {
    if e.Packet? && ParseChunkFrame(e.raw).Some? {
      var f := ParseChunkFrame(e.raw).value;
      ParsedIsChunkFrame(e.raw);
      ExpireValid(CountPacket(w.receiver), e.now);
      DeliverCloses(Expire(CountPacket(w.receiver), e.now), f, e.at);
      match AbsorbFrame(w.receiver, f, e.now, e.at).1
      case None => assert React(w, e).emitted == w.emitted;
      case Some(frame) =>
        assert React(w, e).emitted == w.emitted + [Emission(f.sender, f.meta.sequence, frame)];
    }
  }

  /** The last event emitted a frame of this sender. */
  ghost predicate JustEmitted(start: Receiver, events: seq<Event>, id: Bytes)
    requires AllLive(start.table)
  {
    && events != []
    && var before, after := Run(start, events[..|events| - 1]).emitted, Run(start, events).emitted;
       after != before && after != [] && after[|after| - 1].sender == id
  }

  lemma JustEmittedHasNoAssembler(start: Receiver, events: seq<Event>, id: Bytes)
    requires Valid(start) && JustEmitted(start, events, id)
    ensures id !in Run(start, events).receiver.table
  {
    RunValid(start, events[..|events| - 1]);
    EmissionClosesAssembler(Run(start, events[..|events| - 1]), events[|events| - 1]);
  }

  /** The receiver does not remember what it has emitted. After an emission, any frame q of the sender, older
      ones included, is emitted again or late at most as often as each of its chunks arrives afterwards: so
      only if all of them do. */
  lemma AfterAnEmissionAllChunksAreNeeded(start: Receiver, events: seq<Event>, later: seq<Event>, id: Bytes,
                                         frames: seq<Bytes>, q: U32, i: nat)
    requires Valid(start) && JustEmitted(start, events, id) && Sendable(frames)
    requires forall k :: 0 <= k < |later| ==> Authentic(later[k], id, frames)
    requires 1 <= q <= |frames| && i < ChunkCount(frames[q - 1])
    ensures Emissions(Run(start, events + later).emitted, id, q)
            <= Emissions(Run(start, events).emitted, id, q) + Deliveries(later, id, q, i)
  {
    var mid := Run(start, events);
    RunValid(start, events);
    JustEmittedHasNoAssembler(start, events, id);
    EmittedAtMostPerChunk(mid.receiver, later, id, frames, q, i);
    RunInTwoParts(start, events, later);
    EmissionsOfTwoParts(mid.emitted, Run(mid.receiver, later).emitted, id, q);
  }

  /** A reconnect forgets every frame in progress: each later emission needs all its chunks after the reconnect. */
  lemma ReconnectStartsAfresh(start: Receiver, events: seq<Event>, later: seq<Event>, id: Bytes, q: U32, i: nat)
    requires Valid(start)
    requires forall k :: 0 <= k < |later| ==> CountsChunk(later[k], id, q, i)
    ensures Emissions(Run(start, events + [Reconnect] + later).emitted, id, q)
            <= Emissions(Run(start, events).emitted, id, q) + Deliveries(later, id, q, i)
  {
    var cut := events + [Reconnect];
    assert cut[..|events|] == events;
    var mid := Run(start, cut);
    RunValid(start, cut);
    EmissionsBounded(mid.receiver, later, id, q, i);
    RunInTwoParts(start, cut, later);
    EmissionsOfTwoParts(mid.emitted, Run(mid.receiver, later).emitted, id, q);
  }

  /** The packets that parse. */
  function ChunkPackets(events: seq<Event>): nat {
    if events == [] then 0
    else
      var e := events[|events| - 1];
      ChunkPackets(events[..|events| - 1]) + (if e.Packet? && ParseChunkFrame(e.raw).Some? then 1 else 0)
  }

  lemma ReceiveCountsPacket(w: World, f: ChunkFrame, now: Time, at: Time)
    requires Valid(w.receiver) && IsChunkFrame(f)
    ensures Receive(w, Some(f), now, at).receiver.ledger.chunkPackets == w.receiver.ledger.chunkPackets + 1
  {
    var r := Expire(CountPacket(w.receiver), now);
    ExpireValid(CountPacket(w.receiver), now);
    ExpiryIsCounted(CountPacket(w.receiver), now);
    DeliveryIsCounted(r, f, at);
  }

  /** Over any run the packet counter rises by the packets that parse, whatever becomes of them. */
  lemma {:induction false} PacketsAreCounted(start: Receiver, events: seq<Event>)
    requires Valid(start)
    ensures Run(start, events).receiver.ledger.chunkPackets == start.ledger.chunkPackets + ChunkPackets(events)
  {
    if events != [] {
      var init, e := events[..|events| - 1], events[|events| - 1];
      PacketsAreCounted(start, init);
      RunValid(start, init);
      if e.Packet? && ParseChunkFrame(e.raw).Some? {
        ParsedIsChunkFrame(e.raw);
        ReceiveCountsPacket(Run(start, init), ParseChunkFrame(e.raw).value, e.now, e.at);
      }
    }
  }

  // ---- timeouts ---------------------------------------------------------------------------------

  /** A packet that parses checks for timeouts first, as a tick at its time would; one that does not parse changes
      nothing. */
  lemma PacketTicksFirst(w: World, raw: Bytes, now: Time, at: Time)
    requires Valid(w.receiver)
    ensures if ParseChunkFrame(raw).None? then React(w, Packet(raw, now, at)) == w
            else React(w, Packet(raw, now, at)) == React(TickFirst(w, now), Packet(raw, now, at))
  {
    if ParseChunkFrame(raw).Some? {
      ParsedIsChunkFrame(raw);
      var r := w.receiver;
      assert Expire(CountPacket(Expire(r, now)), now) == Expire(CountPacket(r), now) by {
        ExpireTwice(r, now);
      }
    }
  }

  function TickFirst(w: World, now: Time): (w': World)
    requires Valid(w.receiver)
    ensures Valid(w'.receiver)
  {
    ExpireValid(w.receiver, now);
    React(w, Tick(now))
  }

  lemma ExpireTwice(r: Receiver, now: Time)
    ensures Expire(CountPacket(Expire(r, now)), now) == Expire(CountPacket(r), now)
  {
    var once := Expire(r, now);
    assert Stale(once.table, now) == {};
    assert once.table - {} == once.table;
  }

  // ---- the live assembler moves forward ---------------------------------------------------------

  /** While a sender keeps a live assembler, its sequence only moves forward: a step that changes it
      replaces it by a newer one, hence by a larger one when the two are less than 2^31 apart. */
  lemma LiveSequenceAdvances(w: World, e: Event, id: Bytes)
    requires Valid(w.receiver) && id in w.receiver.table && id in React(w, e).receiver.table
    ensures var before, after := w.receiver.table[id].sequence, React(w, e).receiver.table[id].sequence;
            && (before != after ==>
                  || IsNewer(after, before)
                  || (e.Packet? && w.receiver.table[id].IsTimedOut(e.now)))
            && (IsNewer(after, before) && -TWO31 < after - before < TWO31 ==> after > before)
  {
    var before, after := w.receiver.table[id].sequence, React(w, e).receiver.table[id].sequence;
    if e.Packet? {
      ParsedIsChunkFrame(e.raw);
      ReceiveAdvances(w, ParseChunkFrame(e.raw), e.now, e.at, id);
    }
    if -TWO31 < after - before < TWO31 {
      NewerIffGreater(after, before);
    }
  }

  lemma ReceiveAdvances(w: World, p: Option<ChunkFrame>, now: Time, at: Time, id: Bytes)
    requires Valid(w.receiver) && (p.Some? ==> IsChunkFrame(p.value))
    requires id in w.receiver.table && id in Receive(w, p, now, at).receiver.table
    ensures var before, after := w.receiver.table[id].sequence, Receive(w, p, now, at).receiver.table[id].sequence;
            before == after || IsNewer(after, before) || w.receiver.table[id].IsTimedOut(now)
  {
    if p.Some? && !w.receiver.table[id].IsTimedOut(now) {
      ExpireValid(CountPacket(w.receiver), now);
      DeliverAdvances(Expire(CountPacket(w.receiver), now), p.value, at, id);
    }
  }

  lemma DeliverAdvances(r: Receiver, f: ChunkFrame, at: Time, id: Bytes)
    requires Valid(r) && IsChunkFrame(f) && id in r.table && id in Deliver(r, f, at).0.table
    ensures var before, after := r.table[id].sequence, Deliver(r, f, at).0.table[id].sequence;
            before == after || IsNewer(after, before)
  {
    if f.sender != id {
      OtherSendersUntouched(r, f, at, id);
    } else {
      match RouteOf(r.table, f)
      case Ignore =>
      case Replace => StoreKeepsSequence(Open(r, f, at), f, at);
      case Extend => StoreKeepsSequence(r, f, at);
    }
  }

  lemma StoreKeepsSequence(r: Receiver, f: ChunkFrame, at: Time)
    requires f.sender in r.table && |r.table[f.sender].chunks| == r.table[f.sender].chunkCount
    requires f.meta.chunkIndex < f.meta.chunkCount
    ensures var r' := Store(r, f, at).0;
            f.sender in r'.table ==> r'.table[f.sender].sequence == r.table[f.sender].sequence
  {
  }
}
