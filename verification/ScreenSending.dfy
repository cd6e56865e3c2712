/** A sender's whole run: `send_screen_frame` (crates/net_control/src/lib.rs, lines 407-492) called for one frame
    after another, and what the receiver may rely on about the packets it produces. */
module ScreenSending {
  import opened Common
  import opened ScreenAssembly
  import opened ScreenRuns
  import opened ScreenWire

  /** One call: the frame, and which transports are up. */
  datatype Call = Call(data: Bytes, udp: bool, ws: bool) {
    predicate Splits() {
      CHUNK_SIZE < |data| && (udp || ws)
    }
  }

  /** The sequences a call takes. */
  function Taken(c: Call): nat {
    if !c.Splits() then 0
    else if ChunkCount(c.data) < 0x1_0000 || !(c.udp && c.ws) then 1
    else 2
  }

  /** The frames by sequence: the n-th (from 1) took sequence n. */
  function Numbered(calls: seq<Call>): seq<Bytes> {
    if calls == [] then []
    else
      var c := calls[|calls| - 1];
      Numbered(calls[..|calls| - 1]) + seq(Taken(c), _ => c.data)
  }

  /** What a call puts on the wire if its first sequence is q. */
  function PacketsOf(c: Call, q: U32): seq<Bytes> {
    if |c.data| <= CHUNK_SIZE then if c.udp || c.ws then [[MEDIA_PACKET_SCREEN] + c.data] else []
    else if !c.Splits() || ChunkCount(c.data) >= 0x1_0000 then []
    else seq(ChunkCount(c.data), i requires 0 <= i < ChunkCount(c.data) => SentChunk(q, c.data, i))
  }

  function Next(q: U32): U32 {
    if q == 0xFFFF_FFFF then 0 else q + 1
  }

  function CounterAfter(c: Call, q: U32): U32 {
    match Taken(c)
    case 0 => q
    case 1 => Next(q)
    case _ => Next(Next(q))
  }

  /** The sequence counter after these calls. */
  function Counter(calls: seq<Call>): U32 {
    if calls == [] then 0 else CounterAfter(calls[|calls| - 1], Counter(calls[..|calls| - 1]))
  }

  function AllPackets(calls: seq<Call>): seq<Bytes> {
    if calls == [] then []
    else AllPackets(calls[..|calls| - 1]) + PacketsOf(calls[|calls| - 1], Next(Counter(calls[..|calls| - 1])))
  }

  /** One frame after another. */
  method SendAll(sender: ScreenSender, calls: seq<Call>) returns (packets: seq<Bytes>)
    requires sender.nextScreenSequence == 0
    modifies sender
    ensures packets == AllPackets(calls) && sender.nextScreenSequence == Counter(calls)
  {
    packets := [];
    var k := 0;
    while k < |calls|
      invariant 0 <= k <= |calls|
      invariant packets == AllPackets(calls[..k]) && sender.nextScreenSequence == Counter(calls[..k])
    {
      assert calls[..k + 1][..k] == calls[..k];
      var more := SendOne(sender, calls[k]);
      packets := packets + more;
      k := k + 1;
    }
    assert calls[..k] == calls;
  }

  lemma NextIsSuccessor(q: U32)
    ensures (q + 1) % TWO32 == Next(q) && (q + 2) % TWO32 == Next(Next(q))
  {
  }

  method SendOne(sender: ScreenSender, c: Call) returns (packets: seq<Bytes>)
    modifies sender
    ensures packets == PacketsOf(c, Next(old(sender.nextScreenSequence)))
    ensures sender.nextScreenSequence == CounterAfter(c, old(sender.nextScreenSequence))
  {
    NextIsSuccessor(sender.nextScreenSequence);
    packets := sender.SendScreenFrame(c.data, c.udp, c.ws);
  }

  /** Below 2^32 the counter is the number of frames numbered so far. */
  lemma {:induction false} CounterCounts(calls: seq<Call>)
    requires |Numbered(calls)| < TWO32
    ensures Counter(calls) == |Numbered(calls)|
  {
    if calls != [] {
      CounterCounts(calls[..|calls| - 1]);
    }
  }

  /** The packet is a chunk of the frame numbered by its sequence. */
  ghost predicate IsNumberedChunk(p: Bytes, frames: seq<Bytes>) {
    exists q: U32, i: nat :: IsChunkNumber(p, frames, q, i)
  }

  ghost predicate IsChunkNumber(p: Bytes, frames: seq<Bytes>, q: U32, i: nat) {
    && 1 <= q <= |frames| && IsChunked(frames[q - 1]) && i < ChunkCount(frames[q - 1])
    && p == SentChunk(q, frames[q - 1], i)
  }

  lemma LongerNumbering(p: Bytes, frames: seq<Bytes>, more: seq<Bytes>)
    requires IsNumberedChunk(p, frames)
    ensures IsNumberedChunk(p, frames + more)
  {
    var q: U32, i: nat :| IsChunkNumber(p, frames, q, i);
    assert IsChunkNumber(p, frames + more, q, i);
  }

  lemma PacketsOfCall(c: Call, frames: seq<Bytes>, p: Bytes)
    requires |frames| + Taken(c) < TWO32 && p in PacketsOf(c, Next(|frames|))
    ensures p != [] && (p[0] == MEDIA_PACKET_SCREEN || IsNumberedChunk(p, frames + seq(Taken(c), _ => c.data)))
  {
    if c.Splits() {
      var k :| 0 <= k < |PacketsOf(c, Next(|frames|))| && PacketsOf(c, Next(|frames|))[k] == p;
      assert IsChunkNumber(p, frames + seq(Taken(c), _ => c.data), |frames| + 1, k);
    }
  }

  /** Every packet the sender emits is a whole frame or a numbered chunk. */
  lemma {:induction false} PacketsAreNumbered(calls: seq<Call>, p: Bytes)
    requires |Numbered(calls)| < TWO32 && p in AllPackets(calls)
    ensures p != [] && (p[0] == MEDIA_PACKET_SCREEN || IsNumberedChunk(p, Numbered(calls)))
  {
    var init, c := calls[..|calls| - 1], calls[|calls| - 1];
    CounterCounts(init);
    if p in AllPackets(init) {
      PacketsAreNumbered(init, p);
      if p[0] != MEDIA_PACKET_SCREEN {
        LongerNumbering(p, Numbered(init), seq(Taken(c), _ => c.data));
      }
    } else {
      PacketsOfCall(c, Numbered(init), p);
    }
  }

  /** Whatever the sender emits reaches the receiver as one of its packets. */
  lemma SentPacketsAreAuthentic(calls: seq<Call>, id: Bytes, p: Bytes, now: Time, at: Time)
    requires IsSenderId(id) && |Numbered(calls)| < TWO32 && p in AllPackets(calls)
    ensures p != [] && Authentic(Packet(Relayed(id, p), now, at), id, Numbered(calls))
  {
    PacketsAreNumbered(calls, p);
    if p[0] != MEDIA_PACKET_SCREEN {
      var frames := Numbered(calls);
      var q: U32, i: nat :| IsChunkNumber(p, frames, q, i);
      RelayedChunkParses(id, q, frames[q - 1], i);
    }
  }

  /** The event is a packet of the sender passed on by the relay, or nothing under its id. */
  ghost predicate FromSender(e: Event, id: Bytes, calls: seq<Call>) {
    || (exists p :: IsRelayOf(e, id, calls, p))
    || !(e.Packet? && ParseChunkFrame(e.raw).Some? && ParseChunkFrame(e.raw).value.sender == id)
  }

  ghost predicate IsRelayOf(e: Event, id: Bytes, calls: seq<Call>, p: Bytes) {
    e.Packet? && p in AllPackets(calls) && |id| < 0x100 && p != [] && e.raw == Relayed(id, p)
  }

  lemma SenderEventsAreAuthentic(events: seq<Event>, id: Bytes, calls: seq<Call>)
    requires IsSenderId(id) && |Numbered(calls)| < TWO32
    requires forall m :: 0 <= m < |events| ==> FromSender(events[m], id, calls)
    ensures forall m :: 0 <= m < |events| ==> Authentic(events[m], id, Numbered(calls))
  {
    forall m | 0 <= m < |events|
      ensures Authentic(events[m], id, Numbered(calls))
    {
      var e := events[m];
      if p :| IsRelayOf(e, id, calls, p) {
        SentPacketsAreAuthentic(calls, id, p, e.now, e.at);
      }
    }
  }

  lemma FaithfulEmission(em: Emission, id: Bytes, frames: seq<Bytes>)
    requires |id| < 0x100 && EmissionFaithful(em, id, frames) && em.sender == id
    ensures 1 <= em.sequence <= |frames| && em.frame == ScreenPacket(id, frames[em.sequence - 1])
  {
  }

  lemma AuthenticEventsEmitFrames(start: Receiver, events: seq<Event>, id: Bytes, frames: seq<Bytes>, k: nat)
    requires Valid(start) && TableFaithful(start.table, id, frames) && |id| < 0x100 && Sendable(frames)
    requires forall m :: 0 <= m < |events| ==> Authentic(events[m], id, frames)
    requires k < |Run(start, events).emitted| && Run(start, events).emitted[k].sender == id
    ensures var em := Run(start, events).emitted[k];
            1 <= em.sequence <= |frames| && em.frame == ScreenPacket(id, frames[em.sequence - 1])
  {
    Integrity(start, events, id, frames);
    FaithfulEmission(Run(start, events).emitted[k], id, frames);
  }

  /** From one end to the other, for a sender that has used fewer than 2^32 sequences and a receiver with nothing of
      the sender's in progress: whatever the network and the relay do with its packets, and whatever else arrives,
      each frame emitted for it is a frame it has sent, under the sequence it took. */
  lemma OnlySentFramesAreEmitted(calls: seq<Call>, id: Bytes, start: Receiver, events: seq<Event>, k: nat)
    requires IsSenderId(id) && |Numbered(calls)| < TWO32 && Valid(start) && id !in start.table
    requires forall m :: 0 <= m < |events| ==> FromSender(events[m], id, calls)
    requires k < |Run(start, events).emitted| && Run(start, events).emitted[k].sender == id
    ensures var em, frames := Run(start, events).emitted[k], Numbered(calls);
            1 <= em.sequence <= |frames| && em.frame == ScreenPacket(id, frames[em.sequence - 1])
  {
    SenderEventsAreAuthentic(events, id, calls);
    AuthenticEventsEmitFrames(start, events, id, Numbered(calls), k);
  }
}
