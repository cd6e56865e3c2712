/** The receiver as the client runs it (crates/net_control/src/lib.rs, lines 64-125 and 779-858):
    assemblers updated in place inside a map, proved equal step by step to ScreenAssembly. */
module ScreenReceiver {
  import opened Common
  import opened ScreenWire
  import Spec = ScreenAssembly

  class ScreenChunkAssembler {
    var sequence: U32
    var chunkCount: U16
    var receivedChunks: U16
    var totalLen: nat
    var lastChunkAt: Spec.Time
    var chunks: Spec.Slots

    ghost function State(): Spec.Assembler
      reads this
    {
      Spec.Assembler(sequence, chunkCount, receivedChunks, totalLen, lastChunkAt, chunks)
    }

    constructor (m: Metadata, at: Spec.Time)
      ensures State() == Spec.NewAssembler(m, at)
    {
      sequence, chunkCount := m.sequence, m.chunkCount;
      receivedChunks, totalLen, lastChunkAt := 0, 0, at;
      chunks := seq(m.chunkCount, _ => None);
    }

    method StoreChunk(m: Metadata, chunk: Bytes, at: Spec.Time) returns (kept: bool)
      requires |chunks| == chunkCount && m.chunkIndex < m.chunkCount
      modifies this
      ensures (State(), kept) == Spec.StoreChunk(old(State()), m, chunk, at)
    {
      if sequence != m.sequence || chunkCount != m.chunkCount {
        return false;
      }
      lastChunkAt := at;
      if chunks[m.chunkIndex].None? {
        receivedChunks := Min(receivedChunks + 1, 0xFFFF);
        totalLen := totalLen + |chunk|;
        if totalLen > MAX_SCREEN_FRAME_SIZE {
          return false;
        }
        chunks := chunks[m.chunkIndex as int := Some(chunk)];
      }
      return true;
    }

    /** Concatenates the chunks behind the sender header. */
    method IntoFrame(sender: Bytes) returns (result: Option<Bytes>)
      ensures result == Spec.IntoFrame(State(), sender)
    {
      if receivedChunks != chunkCount || |sender| > 0xFF {
        return None;
      }
      var body := [];
      var i := 0;
      while i < |chunks|
        invariant 0 <= i <= |chunks|
        invariant Spec.Join(chunks[..i]) == Some(body)
      {
        assert chunks[..i + 1][..i] == chunks[..i];
        match chunks[i]
        case None =>
          Spec.JoinFails(chunks, i);
          return None;
        case Some(c) => body := body + c;
        i := i + 1;
      }
      assert chunks[..i] == chunks;
      return Some(ScreenPacket(sender, body));
    }
  }

  class Receiver {
    var all: map<Bytes, ScreenChunkAssembler>
    var chunkPackets: nat
    var framesCompleted: nat
    var framesSuperseded: nat
    var framesTimedOut: nat
    ghost var started: nat
    ghost var oversize: nat
    ghost var cleared: nat

    ghost predicate Distinct()
      reads this`all
    {
      forall a, b :: a in all && b in all && a != b ==> all[a] != all[b]
    }

    ghost function Table(): Spec.Table
      reads this`all, all.Values
    {
      map id | id in all :: all[id].State()
    }

    ghost function State(): Spec.Receiver
      reads this, all.Values
    {
      Spec.Receiver(Table(), Spec.Ledger(chunkPackets, framesCompleted, framesSuperseded, framesTimedOut,
                                         started, oversize, cleared))
    }

    ghost predicate Valid()
      reads this, all.Values
    {
      Distinct() && Spec.Valid(State())
    }

    constructor ()
      ensures Valid() && State() == Spec.EMPTY
    {
      all := map[];
      chunkPackets, framesCompleted, framesSuperseded, framesTimedOut := 0, 0, 0, 0;
      started, oversize, cleared := 0, 0, 0;
    }

    /** `expire_stale_screen_chunks`: removes the timed-out assemblers and counts them. */
    method ExpireStaleScreenChunks(now: Spec.Time) returns (expired: nat)
      requires Distinct()
      modifies this
      ensures Distinct() && State() == Spec.Expire(old(State()), now)
      ensures expired == |Spec.Stale(old(Table()), now)|
      ensures all.Values <= old(all.Values)
    {
      ghost var before := Table();
      var gone := set id | id in all && Max(0, now - all[id].lastChunkAt) >= Spec.REASSEMBLY_TIMEOUT;
      assert gone == Spec.Stale(before, now);
      expired := |gone|;
      all := all - gone;
      framesTimedOut := framesTimedOut + expired;
      assert Table() == before - gone;
    }

    /** Whether the arriving chunk starts a new assembler, joins the live one, or is out of date. */
    method Route(f: ChunkFrame) returns (route: Spec.Route)
      ensures route == Spec.RouteOf(Table(), f)
    {
      if f.sender in all {
        var existing := all[f.sender];
        if existing.sequence == f.meta.sequence {
          return if existing.chunkCount != f.meta.chunkCount then Spec.Replace else Spec.Extend;
        }
        return if IsNewer(f.meta.sequence, existing.sequence) then Spec.Replace else Spec.Ignore;
      }
      return Spec.Replace;
    }

    method Open(f: ChunkFrame, at: Spec.Time)
      requires Distinct()
      modifies this
      ensures Distinct() && State() == Spec.Open(old(State()), f, at)
      ensures all.Keys == old(all.Keys) + {f.sender} && fresh(all.Values - old(all.Values))
    {
      if f.sender in all {
        var existing := all[f.sender];
        assert Table()[f.sender] == existing.State();
        if existing.receivedChunks != existing.chunkCount {
          framesSuperseded := framesSuperseded + 1;
        }
      }
      started := started + 1;
      Insert(f.sender, f.meta, at);
    }

    method Insert(id: Bytes, m: Metadata, at: Spec.Time)
      requires Distinct()
      modifies this`all
      ensures Distinct() && Table() == old(Table())[id := Spec.NewAssembler(m, at)]
      ensures all.Keys == old(all.Keys) + {id} && fresh(all.Values - old(all.Values))
    {
      ghost var before := Table();
      var entry := new ScreenChunkAssembler(m, at);
      all := all[id := entry];
      assert Table() == before[id := Spec.NewAssembler(m, at)];
    }

    method Remove(id: Bytes)
      requires Distinct()
      modifies this`all
      ensures Distinct() && Table() == old(Table()) - {id}
      ensures all == old(all) - {id}
    {
      all := all - {id};
    }

    method Store(f: ChunkFrame, at: Spec.Time) returns (frame: Option<Bytes>)
      requires Distinct() && f.sender in all && f.meta.chunkIndex < f.meta.chunkCount
      requires |all[f.sender].chunks| == all[f.sender].chunkCount
      modifies this, all[f.sender]
      ensures Distinct() && (State(), frame) == Spec.Store(old(State()), f, at)
    {
      ghost var before := Table();
      var entry := all[f.sender];
      var kept := entry.StoreChunk(f.meta, f.data, at);
      assert Table() == before[f.sender := entry.State()];
      frame := Settle(f.sender, kept);
    }

    method Settle(id: Bytes, kept: bool) returns (frame: Option<Bytes>)
      requires Distinct() && id in all
      modifies this
      ensures Distinct() && (State(), frame) == Spec.Settle(old(State()), id, kept)
    {
      var entry := all[id];
      ghost var before := State();
      assert before.table[id] == entry.State();
      if !kept {
        Remove(id);
        oversize := oversize + 1;
        assert Table() == before.table - {id};
        return None;
      }
      if entry.receivedChunks != entry.chunkCount {
        return None;
      }
      Remove(id);
      assert Table() == before.table - {id};
      frame := entry.IntoFrame(id);
      if frame.Some? {
        framesCompleted := framesCompleted + 1;
      }
      assert Table() == before.table - {id};
    }

    /** Routing and storing, after timeouts. */
    method Deliver(f: ChunkFrame, at: Spec.Time) returns (frame: Option<Bytes>)
      requires Distinct() && Spec.AllLive(Table()) && f.meta.chunkIndex < f.meta.chunkCount
      modifies this, all.Values
      ensures Distinct() && (State(), frame) == Spec.Deliver(old(State()), f, at)
    {
      ghost var before := Table();
      var route := Route(f);
      assert f.sender in all ==> before[f.sender].Live();
      match route
      case Ignore => return None;
      case Replace =>
        Open(f, at);
        assert Table()[f.sender] == Spec.NewAssembler(f.meta, at);
        frame := Store(f, at);
      case Extend =>
        frame := Store(f, at);
    }

    /** `absorb_screen_chunk`. */
    method AbsorbScreenChunk(raw: Bytes, now: Spec.Time, at: Spec.Time) returns (frame: Option<Bytes>)
      requires Valid()
      modifies this, all.Values
      ensures Valid() && (State(), frame) == Spec.Absorb(old(State()), raw, now, at)
    {
      var packet := ParseChunkFrame(raw);
      if packet.None? {
        return None;
      }
      PacketInvertsParse(raw);
      frame := AbsorbParsed(packet.value, now, at);
    }

    method AbsorbParsed(f: ChunkFrame, now: Spec.Time, at: Spec.Time) returns (frame: Option<Bytes>)
      requires Valid() && IsChunkFrame(f)
      modifies this, all.Values
      ensures Valid() && (State(), frame) == Spec.AbsorbFrame(old(State()), f, now, at)
    {
      chunkPackets := chunkPackets + 1;
      ghost var counted := State();
      assert counted == Spec.CountPacket(old(State()));
      var _ := ExpireStaleScreenChunks(now);
      ghost var kept := State();
      Spec.ExpireValid(counted, now);
      frame := Deliver(f, at);
      Spec.DeliverValid(kept, f, at);
    }
  }
}
