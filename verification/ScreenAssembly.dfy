/** Reassembly of chunked screen frames: `ScreenChunkAssembler`, `absorb_screen_chunk` and
    `expire_stale_screen_chunks` of crates/net_control/src/lib.rs, lines 19-125 and 779-858. */
module ScreenAssembly {
  import opened Common
  import opened ScreenWire

  /** Milliseconds; one clock reading decides about timeouts, a later one stamps the chunk. */
  type Time = int
  const REASSEMBLY_TIMEOUT: int := 1500

  type Slots = seq<Option<Bytes>>

  function Filled(slots: Slots): nat {
    if slots == [] then 0 else Filled(slots[..|slots| - 1]) + (if slots[|slots| - 1].Some? then 1 else 0)
  }

  function StoredBytes(slots: Slots): nat {
    if slots == [] then 0
    else StoredBytes(slots[..|slots| - 1]) + (match slots[|slots| - 1] case None => 0 case Some(c) => |c|)
  }

  datatype Assembler = Assembler(
    sequence: U32,
    chunkCount: U16,
    received: U16,
    totalLen: nat,
    lastChunkAt: Time,
    chunks: Slots)
  {
    predicate IsComplete() {
      received == chunkCount
    }

    predicate IsTimedOut(now: Time) {
      Max(0, now - lastChunkAt) >= REASSEMBLY_TIMEOUT
    }

    /** What holds of every assembler between packets. */
    ghost predicate Live() {
      && |chunks| == chunkCount && 0 < chunkCount
      && received == Filled(chunks) && received < chunkCount
      && totalLen == StoredBytes(chunks) && totalLen <= MAX_SCREEN_FRAME_SIZE
    }
  }

  function NewAssembler(m: Metadata, at: Time): Assembler {
    Assembler(m.sequence, m.chunkCount, 0, 0, at, seq(m.chunkCount, _ => None))
  }

  /** `store_chunk`; its result is whether the assembler may be kept. */
  function StoreChunk(a: Assembler, m: Metadata, chunk: Bytes, at: Time): (Assembler, bool)
    requires |a.chunks| == a.chunkCount && m.chunkIndex < m.chunkCount
  {
    if a.sequence != m.sequence || a.chunkCount != m.chunkCount then (a, false)
    else
      var stamped := a.(lastChunkAt := at);
      if a.chunks[m.chunkIndex].Some? then (stamped, true)
      else
        var counted := stamped.(received := Min(a.received + 1, 0xFFFF), totalLen := a.totalLen + |chunk|);
        if counted.totalLen > MAX_SCREEN_FRAME_SIZE then (counted, false)
        else (counted.(chunks := a.chunks[m.chunkIndex := Some(chunk)]), true)
  }

  /** The stored chunks joined, unless one is missing. */
  function Join(slots: Slots): Option<Bytes> {
    if slots == [] then Some([])
    else
      match (Join(slots[..|slots| - 1]), slots[|slots| - 1])
      case (Some(front), Some(last)) => Some(front + last)
      case _ => None
  }

  function IntoFrame(a: Assembler, sender: Bytes): Option<Bytes> {
    if !a.IsComplete() || |sender| > 0xFF then None
    else
      match Join(a.chunks)
      case None => None
      case Some(body) => Some(ScreenPacket(sender, body))
  }

  type Table = map<Bytes, Assembler>

  /** The counters the client keeps, followed by three it does not: how many assemblers were
      opened, dropped for size, and cleared with the connection. */
  datatype Ledger = Ledger(
    chunkPackets: nat,
    completed: nat,
    superseded: nat,
    timedOut: nat,
    started: nat,
    oversize: nat,
    cleared: nat)

  datatype Receiver = Receiver(table: Table, ledger: Ledger)

  const EMPTY := Receiver(map[], Ledger(0, 0, 0, 0, 0, 0, 0))

  ghost predicate AllLive(table: Table) {
    forall id :: id in table ==> table[id].Live()
  }

  ghost predicate Valid(r: Receiver) {
    && AllLive(r.table)
    && r.ledger.started
       == r.ledger.completed + r.ledger.superseded + r.ledger.timedOut + r.ledger.oversize + r.ledger.cleared
          + |r.table|
  }

  /** The timed-out senders, whose assemblers `retain` removes. */
  function Stale(table: Table, now: Time): (ids: set<Bytes>)
    ensures forall id :: id in ids <==> id in table && table[id].IsTimedOut(now)
  {
    set id | id in table && table[id].IsTimedOut(now)
  }

  function Expire(r: Receiver, now: Time): Receiver {
    var gone := Stale(r.table, now);
    Receiver(r.table - gone, r.ledger.(timedOut := r.ledger.timedOut + |gone|))
  }

  /** The decision about an arriving chunk, made before anything is stored. */
  datatype Route = Replace | Ignore | Extend

  function RouteOf(table: Table, f: ChunkFrame): Route {
    if f.sender !in table then Replace
    else
      var existing := table[f.sender];
      if existing.sequence == f.meta.sequence then
        if existing.chunkCount != f.meta.chunkCount then Replace else Extend
      else if IsNewer(f.meta.sequence, existing.sequence) then Replace
      else Ignore
  }

  /** The table with a fresh assembler for the sender. */
  function Open(r: Receiver, f: ChunkFrame, at: Time): Receiver {
    var superseded := f.sender in r.table && !r.table[f.sender].IsComplete();
    Receiver(r.table[f.sender := NewAssembler(f.meta, at)],
             r.ledger.(started := r.ledger.started + 1,
                       superseded := r.ledger.superseded + (if superseded then 1 else 0)))
  }

  /** Stores the chunk in the sender's assembler and takes a finished frame out. */
  function Store(r: Receiver, f: ChunkFrame, at: Time): (Receiver, Option<Bytes>)
    requires f.sender in r.table && |r.table[f.sender].chunks| == r.table[f.sender].chunkCount
    requires f.meta.chunkIndex < f.meta.chunkCount
  {
    var (entry, kept) := StoreChunk(r.table[f.sender], f.meta, f.data, at);
    Settle(r.(table := r.table[f.sender := entry]), f.sender, kept)
  }

  /** What becomes of the sender's assembler after a chunk has been stored in it. */
  function Settle(r: Receiver, id: Bytes, kept: bool): (Receiver, Option<Bytes>)
    requires id in r.table
  {
    var entry, closed := r.table[id], r.table - {id};
    if !kept then (Receiver(closed, r.ledger.(oversize := r.ledger.oversize + 1)), None)
    else if !entry.IsComplete() then (r, None)
    else
      match IntoFrame(entry, id)
      case None => (r.(table := closed), None)
      case Some(frame) => (Receiver(closed, r.ledger.(completed := r.ledger.completed + 1)), Some(frame))
  }

  /** `absorb_screen_chunk`. */
  function Absorb(r: Receiver, raw: Bytes, now: Time, at: Time): (Receiver, Option<Bytes>)
    requires AllLive(r.table)
  {
    match ParseChunkFrame(raw)
    case None => (r, None)
    case Some(f) => AbsorbFrame(r, f, now, at)
  }

  function CountPacket(r: Receiver): Receiver {
    r.(ledger := r.ledger.(chunkPackets := r.ledger.chunkPackets + 1))
  }

  function AbsorbFrame(r: Receiver, f: ChunkFrame, now: Time, at: Time): (Receiver, Option<Bytes>)
    requires AllLive(r.table) && f.meta.chunkIndex < f.meta.chunkCount
  {
    Deliver(Expire(CountPacket(r), now), f, at)
  }

  /** The routing and storing of a parsed chunk, after timeouts. */
  function Deliver(r: Receiver, f: ChunkFrame, at: Time): (Receiver, Option<Bytes>)
    requires AllLive(r.table) && f.meta.chunkIndex < f.meta.chunkCount
  {
    match RouteOf(r.table, f)
    case Ignore => (r, None)
    case Replace => Store(Open(r, f, at), f, at)
    case Extend => assert r.table[f.sender].Live(); Store(r, f, at)
  }

  // ---- slots ----------------------------------------------------------------------------------

  lemma {:induction false} FillSlot(slots: Slots, i: nat, chunk: Bytes)
    requires i < |slots| && slots[i].None?
    ensures Filled(slots[i := Some(chunk)]) == Filled(slots) + 1
    ensures StoredBytes(slots[i := Some(chunk)]) == StoredBytes(slots) + |chunk|
    decreases |slots|
  {
    var n := |slots| - 1;
    var after := slots[i := Some(chunk)];
    if i < n {
      FillSlot(slots[..n], i, chunk);
      assert after[..n] == slots[..n][i := Some(chunk)];
    } else {
      assert after[..n] == slots[..n];
    }
  }

  lemma {:induction false} FilledBounds(slots: Slots)
    ensures Filled(slots) <= |slots|
    ensures Filled(slots) == |slots| <==> forall i :: 0 <= i < |slots| ==> slots[i].Some?
  {
    if slots != [] {
      FilledBounds(slots[..|slots| - 1]);
      assert forall i :: 0 <= i < |slots| - 1 ==> slots[..|slots| - 1][i] == slots[i];
    }
  }

  lemma {:induction false} EmptySlots(n: nat)
    ensures var s: Slots := seq(n, _ => None); Filled(s) == 0 && StoredBytes(s) == 0
  {
    var s: Slots := seq(n, _ => None);
    if n > 0 {
      EmptySlots(n - 1);
      assert s[..n - 1] == seq(n - 1, _ => None);
    }
  }

  lemma {:induction false} JoinOfChunks(slots: Slots, chunks: seq<Bytes>)
    requires |slots| == |chunks| && forall i :: 0 <= i < |slots| ==> slots[i] == Some(chunks[i])
    ensures Join(slots) == Some(Flatten(chunks))
    decreases |slots|
  {
    if slots != [] {
      var n := |slots| - 1;
      JoinOfChunks(slots[..n], chunks[..n]);
    }
  }

  /** One missing chunk anywhere means no frame. */
  lemma {:induction false} JoinFails(slots: Slots, i: nat)
    requires i < |slots| && slots[i].None?
    ensures Join(slots).None?
    decreases |slots|
  {
    if i < |slots| - 1 {
      JoinFails(slots[..|slots| - 1], i);
    }
  }

  lemma {:induction false} JoinAll(slots: Slots)
    requires Filled(slots) == |slots|
    ensures Join(slots).Some? && |Join(slots).value| == StoredBytes(slots)
    decreases |slots|
  {
    if slots != [] {
      FilledBounds(slots);
      FilledBounds(slots[..|slots| - 1]);
      JoinAll(slots[..|slots| - 1]);
    }
  }

  // ---- every step keeps the table and the books -----------------------------------------------

  lemma ExpireValid(r: Receiver, now: Time)
    requires Valid(r)
    ensures Valid(Expire(r, now))
  {
    var gone := Stale(r.table, now);
    var kept := r.table - gone;
    assert kept.Keys == r.table.Keys - gone;
    assert gone <= r.table.Keys;
    assert |kept.Keys| == |r.table.Keys| - |gone|;
  }

  /** Live, but with the fresh assembler of `Open` allowed to be empty. */
  lemma OpenValid(r: Receiver, f: ChunkFrame, at: Time)
    requires Valid(r) && f.meta.chunkIndex < f.meta.chunkCount
    ensures Valid(Open(r, f, at))
  {
    EmptySlots(f.meta.chunkCount);
    var after := Open(r, f, at);
    assert after.table.Keys == r.table.Keys + {f.sender};
    if f.sender in r.table {
      assert r.table.Keys + {f.sender} == r.table.Keys;
    }
  }

  /** Storing into a live assembler: a chunk of another frame is refused; with one of the same frame it stays live,
      overflows, or is complete and then has every slot filled. */
  lemma StoreChunkCases(a: Assembler, m: Metadata, chunk: Bytes, at: Time)
    requires a.Live() && m.chunkIndex < m.chunkCount
    ensures var (b, kept) := StoreChunk(a, m, chunk, at);
            && (kept <==>
                  && a.sequence == m.sequence && a.chunkCount == m.chunkCount
                  && (a.chunks[m.chunkIndex].Some? || a.totalLen + |chunk| <= MAX_SCREEN_FRAME_SIZE))
            && (kept && !b.IsComplete() ==> b.Live())
            && (kept && b.IsComplete() ==> |b.chunks| == b.chunkCount && Filled(b.chunks) == |b.chunks|)
            && (kept ==> b.totalLen == StoredBytes(b.chunks) <= MAX_SCREEN_FRAME_SIZE)
  {
    if a.chunkCount == m.chunkCount && a.chunks[m.chunkIndex].None? {
      FillSlot(a.chunks, m.chunkIndex, chunk);
      FilledBounds(a.chunks[m.chunkIndex := Some(chunk)]);
    }
  }

  lemma StoreValid(r: Receiver, f: ChunkFrame, at: Time)
    requires Valid(r) && f.sender in r.table && IsChunkFrame(f)
    requires r.table[f.sender].sequence == f.meta.sequence && r.table[f.sender].chunkCount == f.meta.chunkCount
    ensures var (r', out) := Store(r, f, at);
            && Valid(r')
            && (out.Some? <==> r'.ledger.completed == r.ledger.completed + 1)
            && (out.Some? <==>
                  var (b, kept) := StoreChunk(r.table[f.sender], f.meta, f.data, at);
                  kept && b.IsComplete())
  {
    var a := r.table[f.sender];
    StoreChunkCases(a, f.meta, f.data, at);
    var (b, kept) := StoreChunk(a, f.meta, f.data, at);
    if kept && b.IsComplete() {
      JoinAll(b.chunks);
    }
    var stored := r.table[f.sender := b];
    assert stored.Keys == r.table.Keys;
    RemoveOne(stored, f.sender);
  }

  lemma RemoveOne(table: Table, id: Bytes)
    requires id in table
    ensures |table - {id}| == |table| - 1
  {
    assert (table - {id}).Keys == table.Keys - {id};
  }

  /** `store_chunk` only ever meets an assembler of the same sequence and count, so it rejects a
      chunk for size alone, and a complete assembler always yields its frame. */
  lemma DeliverValid(r: Receiver, f: ChunkFrame, at: Time)
    requires Valid(r) && IsChunkFrame(f)
    ensures Valid(Deliver(r, f, at).0)
    ensures Deliver(r, f, at).1.Some? <==>
            Deliver(r, f, at).0.ledger.completed == r.ledger.completed + 1
  {
    match RouteOf(r.table, f)
    case Ignore =>
    case Replace =>
      OpenValid(r, f, at);
      StoreValid(Open(r, f, at), f, at);
    case Extend =>
      StoreValid(r, f, at);
  }

  lemma AbsorbValid(r: Receiver, raw: Bytes, now: Time, at: Time)
    requires Valid(r)
    ensures Valid(Absorb(r, raw, now, at).0)
  {
    match ParseChunkFrame(raw)
    case None =>
    case Some(f) =>
      PacketInvertsParse(raw);
      ExpireValid(CountPacket(r), now);
      DeliverValid(Expire(CountPacket(r), now), f, at);
  }

  /** Whatever the counters say, the assemblers stay live. */
  lemma AbsorbLive(r: Receiver, raw: Bytes, now: Time, at: Time)
    requires AllLive(r.table)
    ensures AllLive(Absorb(r, raw, now, at).0.table)
  {
    var balanced := Receiver(r.table, Ledger(0, 0, 0, 0, |r.table|, 0, 0));
    AbsorbValid(balanced, raw, now, at);
    CountersDoNotMatter(r, balanced, raw, now, at);
  }

  lemma CountersDoNotMatter(r: Receiver, other: Receiver, raw: Bytes, now: Time, at: Time)
    requires AllLive(r.table) && other.table == r.table
    ensures Absorb(r, raw, now, at).0.table == Absorb(other, raw, now, at).0.table
  {
  }

  // ---- what the branches mean -------------------------------------------------------------------

  /** An assembler survives a timeout check exactly when its latest chunk is less than 1500 ms old, and is then
      untouched. */
  lemma ExpiresExactly(r: Receiver, now: Time, id: Bytes)
    requires id in r.table
    ensures id in Expire(r, now).table <==> now - r.table[id].lastChunkAt < 1500
    ensures id in Expire(r, now).table ==> Expire(r, now).table[id] == r.table[id]
  {
  }

  /** The timeout counter rises by the number of assemblers removed, and no other counter moves. */
  lemma ExpiryIsCounted(r: Receiver, now: Time)
    ensures var r' := Expire(r, now);
            r'.ledger == r.ledger.(timedOut := r.ledger.timedOut + |r.table| - |r'.table|)
  {
    var gone := Stale(r.table, now);
    assert (r.table - gone).Keys == r.table.Keys - gone && gone <= r.table.Keys;
    assert |r.table.Keys - gone| == |r.table.Keys| - |gone|;
  }

  /** The sender's live assembler is for another frame that the chunk is not newer than. */
  predicate IsOld(table: Table, f: ChunkFrame) {
    && f.sender in table && table[f.sender].sequence != f.meta.sequence
    && !IsNewer(f.meta.sequence, table[f.sender].sequence)
  }

  /** The chunk has replaced a live assembler of an older frame, or of the same sequence with another count. */
  predicate Supersedes(table: Table, f: ChunkFrame) {
    && f.sender in table
    && (if table[f.sender].sequence == f.meta.sequence then table[f.sender].chunkCount != f.meta.chunkCount
        else IsNewer(f.meta.sequence, table[f.sender].sequence))
  }

  /** The chunk is in the sender's assembler, which is for its frame and stamped with its time. */
  predicate Holds(table: Table, f: ChunkFrame, at: Time) {
    && f.sender in table
    && var a := table[f.sender];
       && a.sequence == f.meta.sequence && a.chunkCount == f.meta.chunkCount && a.lastChunkAt == at
       && f.meta.chunkIndex < |a.chunks| && a.chunks[f.meta.chunkIndex].Some?
  }

  /** Every chunk that is not old ends up in an assembler for its frame, unless it completes the frame or takes it
      past 512 KiB, which removes the assembler; an old one changes nothing. */
  lemma ChunkIsHeldUnlessOld(r: Receiver, f: ChunkFrame, at: Time)
    requires Valid(r) && IsChunkFrame(f)
    ensures var (r', out) := Deliver(r, f, at);
            if IsOld(r.table, f) then r' == r && out == None
            else
              || Holds(r'.table, f, at)
              || (f.sender !in r'.table && (out.Some? || r'.ledger.oversize == r.ledger.oversize + 1))
  {
    if !IsOld(r.table, f) {
      if RouteOf(r.table, f) == Replace {
        OpenValid(r, f, at);
        StoreHolds(Open(r, f, at), f, at);
      } else {
        StoreHolds(r, f, at);
      }
    }
  }

  lemma StoreHolds(r: Receiver, f: ChunkFrame, at: Time)
    requires Valid(r) && IsChunkFrame(f) && f.sender in r.table
    requires r.table[f.sender].sequence == f.meta.sequence && r.table[f.sender].chunkCount == f.meta.chunkCount
    ensures var (r', out) := Store(r, f, at);
            || Holds(r'.table, f, at)
            || (f.sender !in r'.table && (out.Some? || r'.ledger.oversize == r.ledger.oversize + 1))
  {
    StoreValid(r, f, at);
    StoreChunkCases(r.table[f.sender], f.meta, f.data, at);
  }

  /** The superseded counter moves exactly when a live assembler has been replaced, and the others that the client
      keeps only as told by what comes out. */
  lemma DeliveryIsCounted(r: Receiver, f: ChunkFrame, at: Time)
    requires Valid(r) && IsChunkFrame(f)
    ensures var (r', out) := Deliver(r, f, at);
            && r'.ledger.superseded == r.ledger.superseded + (if Supersedes(r.table, f) then 1 else 0)
            && r'.ledger.completed == r.ledger.completed + (if out.Some? then 1 else 0)
            && r'.ledger.timedOut == r.ledger.timedOut && r'.ledger.chunkPackets == r.ledger.chunkPackets
  {
    DeliverValid(r, f, at);
    assert f.sender in r.table ==> r.table[f.sender].Live();
  }
}
