/** Screen-share packets: chunk metadata (crates/shared_types/src/screen.rs), the sender's split and
    the parsers (crates/net_control/src/lib.rs, lines 407-492 and 728-756), and serial-number
    comparison (lines 775-777). */
module ScreenWire {
  import opened Common
  import opened Utf8

  const MAX_SCREEN_FRAME_SIZE: nat := 512 * 1024
  const SCREEN_CHUNK_METADATA_LEN: nat := 8
  const CHUNK_SIZE: nat := 4 * 1024
  const MEDIA_PACKET_SCREEN: Byte := 2
  const MEDIA_PACKET_SCREEN_CHUNK: Byte := 3

  type Bytes = seq<Byte>

  // ---- serial numbers -------------------------------------------------------------------------

  predicate IsNewer(sequence: U32, current: U32) {
    sequence != current && WrappingSub(sequence, current) < TWO31
  }

  /** For all unbounded counters, the comparison on their low 32 bits depends only on the distance
      modulo 2^32; it is the comparison of section 3.2 of RFC 1982. */
  lemma NewerIsForwardDistance(x: nat, y: nat)
    ensures IsNewer(x % TWO32, y % TWO32) <==> 0 < (x - y) % TWO32 < TWO31
  {
    var a, b := x % TWO32, y % TWO32;
    assert (x - y) % TWO32 == (a - b) % TWO32;
  }

  /** Counters less than 2^31 apart are ordered correctly. */
  lemma NewerIffGreater(x: nat, y: nat)
    requires -TWO31 < x - y < TWO31
    ensures IsNewer(x % TWO32, y % TWO32) <==> x > y
  {
    NewerIsForwardDistance(x, y);
  }

  lemma NewerIsAsymmetric(a: U32, b: U32)
    ensures !(IsNewer(a, b) && IsNewer(b, a))
    ensures (!IsNewer(a, b) && !IsNewer(b, a)) <==> (a == b || WrappingSub(a, b) == TWO31)
  {
  }

  // ---- chunk metadata -------------------------------------------------------------------------

  datatype Metadata = Metadata(sequence: U32, chunkIndex: U16, chunkCount: U16)

  function Be16(n: U16): (b: Bytes)
    ensures |b| == 2
  {
    [n / 0x100, n % 0x100]
  }

  function Be32(n: U32): (b: Bytes)
    ensures |b| == 4
  {
    Be16(n / 0x1_0000) + Be16(n % 0x1_0000)
  }

  function FromBe16(b: Bytes): U16
    requires |b| == 2
  {
    b[0] as int * 0x100 + b[1]
  }

  function FromBe32(b: Bytes): U32
    requires |b| == 4
  {
    FromBe16(b[..2]) as int * 0x1_0000 + FromBe16(b[2..])
  }

  lemma BigEndianRoundTrip16(n: U16, b: Bytes)
    requires |b| == 2
    ensures FromBe16(Be16(n)) == n && Be16(FromBe16(b)) == b
  {
  }

  lemma BigEndianRoundTrip(n: U32, b: Bytes)
    requires |b| == 4
    ensures FromBe32(Be32(n)) == n && Be32(FromBe32(b)) == b
  {
    var high, low := n / 0x1_0000, n % 0x1_0000;
    BigEndianRoundTrip16(high, b[..2]);
    BigEndianRoundTrip16(low, b[2..]);
    assert Be32(n)[..2] == Be16(high) && Be32(n)[2..] == Be16(low);
    var h, l: int := FromBe16(b[..2]), FromBe16(b[2..]);
    assert FromBe32(b) / 0x1_0000 == h && FromBe32(b) % 0x1_0000 == l;
    assert b == b[..2] + b[2..];
  }

  function EncodeMetadata(m: Metadata): (b: Bytes)
    ensures |b| == SCREEN_CHUNK_METADATA_LEN
  {
    Be32(m.sequence) + Be16(m.chunkIndex) + Be16(m.chunkCount)
  }

  function DecodeMetadata(raw: Bytes): Option<(Metadata, Bytes)> {
    if |raw| < SCREEN_CHUNK_METADATA_LEN then None
    else
      var m := Metadata(FromBe32(raw[..4]), FromBe16(raw[4..6]), FromBe16(raw[6..8]));
      if m.chunkCount == 0 || m.chunkIndex >= m.chunkCount then None
      else Some((m, raw[SCREEN_CHUNK_METADATA_LEN..]))
  }

  /** The decoder accepts exactly the encodings of metadata whose index is in range. */
  lemma DecodeInvertsEncode(m: Metadata, rest: Bytes)
    ensures DecodeMetadata(EncodeMetadata(m) + rest) ==
            if m.chunkIndex < m.chunkCount then Some((m, rest)) else None
  {
    var raw := EncodeMetadata(m) + rest;
    assert raw[..4] == Be32(m.sequence) && raw[4..6] == Be16(m.chunkIndex) && raw[6..8] == Be16(m.chunkCount);
    assert raw[8..] == rest;
    BigEndianRoundTrip(m.sequence, Be32(m.sequence));
    BigEndianRoundTrip16(m.chunkIndex, Be16(m.chunkIndex));
    BigEndianRoundTrip16(m.chunkCount, Be16(m.chunkCount));
  }

  lemma EncodeInvertsDecode(raw: Bytes)
    requires DecodeMetadata(raw).Some?
    ensures var (m, rest) := DecodeMetadata(raw).value;
            m.chunkIndex < m.chunkCount && raw == EncodeMetadata(m) + rest
  {
    BigEndianRoundTrip(0, raw[..4]);
    BigEndianRoundTrip16(0, raw[4..6]);
    BigEndianRoundTrip16(0, raw[6..8]);
    assert raw == raw[..4] + raw[4..6] + raw[6..8] + raw[8..];
  }

  // ---- packets with the relay's sender header -------------------------------------------------

  /** A sender id the one-byte length field and the parser can carry. */
  predicate IsSenderId(id: Bytes) {
    |id| < 0x100 && IsUtf8(id)
  }

  function Tagged(tag: Byte, id: Bytes, body: Bytes): Bytes
    requires |id| < 0x100
  {
    [tag, |id|] + id + body
  }

  datatype ChunkFrame = ChunkFrame(sender: Bytes, meta: Metadata, data: Bytes)

  predicate IsChunkFrame(f: ChunkFrame) {
    IsSenderId(f.sender) && f.meta.chunkIndex < f.meta.chunkCount && f.data != []
  }

  function ChunkPacket(f: ChunkFrame): Bytes
    requires |f.sender| < 0x100
  {
    Tagged(MEDIA_PACKET_SCREEN_CHUNK, f.sender, EncodeMetadata(f.meta) + f.data)
  }

  function ParseChunkFrame(raw: Bytes): Option<ChunkFrame> {
    if |raw| < 3 || raw[0] != MEDIA_PACKET_SCREEN_CHUNK then None
    else
      var idLen: int := raw[1];
      if |raw| <= 2 + idLen + SCREEN_CHUNK_METADATA_LEN || !IsUtf8(raw[2..2 + idLen]) then None
      else
        match DecodeMetadata(raw[2 + idLen..])
        case None => None
        case Some((m, rest)) => Some(ChunkFrame(raw[2..2 + idLen], m, rest))
  }

  function ParseScreenFrame(raw: Bytes): Option<(Bytes, Bytes)> {
    if |raw| < 3 || raw[0] != MEDIA_PACKET_SCREEN then None
    else
      var idLen: int := raw[1];
      if |raw| <= 2 + idLen || !IsUtf8(raw[2..2 + idLen]) then None
      else Some((raw[2..2 + idLen], raw[2 + idLen..]))
  }

  lemma ParseInvertsPacket(f: ChunkFrame)
    requires IsChunkFrame(f)
    ensures ParseChunkFrame(ChunkPacket(f)) == Some(f)
  {
    var raw := ChunkPacket(f);
    assert raw[2..2 + |f.sender|] == f.sender;
    assert raw[2 + |f.sender|..] == EncodeMetadata(f.meta) + f.data;
    DecodeInvertsEncode(f.meta, f.data);
  }

  /** The parser accepts exactly the packets of well-formed chunk frames, each as itself. */
  lemma PacketInvertsParse(raw: Bytes)
    requires ParseChunkFrame(raw).Some?
    ensures var f := ParseChunkFrame(raw).value;
            IsChunkFrame(f) && raw == ChunkPacket(f)
  {
    var f := ParseChunkFrame(raw).value;
    EncodeInvertsDecode(raw[2 + raw[1]..]);
    assert raw == [raw[0], raw[1]] + raw[2..2 + raw[1]] + raw[2 + raw[1]..];
  }

  /** A screen frame under its sender header, as `into_frame` builds it. */
  function ScreenPacket(id: Bytes, frame: Bytes): Bytes
    requires |id| < 0x100
  {
    Tagged(MEDIA_PACKET_SCREEN, id, frame)
  }

  lemma ParseScreenInvertsPacket(id: Bytes, frame: Bytes)
    requires IsSenderId(id) && frame != []
    ensures ParseScreenFrame(ScreenPacket(id, frame)) == Some((id, frame))
  {
    var raw := ScreenPacket(id, frame);
    assert raw[2..2 + |id|] == id && raw[2 + |id|..] == frame;
  }

  /** And nothing else parses: only a sender's frame of at least one byte, as itself. */
  lemma ScreenPacketInvertsParse(raw: Bytes)
    requires ParseScreenFrame(raw).Some?
    ensures var (id, frame) := ParseScreenFrame(raw).value;
            IsSenderId(id) && frame != [] && raw == ScreenPacket(id, frame)
  {
    assert raw == [raw[0], raw[1]] + raw[2..2 + raw[1]] + raw[2 + raw[1]..];
  }

  // ---- splitting ------------------------------------------------------------------------------

  /** `data.len().div_ceil(4096)`. */
  function ChunkCount(frame: Bytes): nat {
    (|frame| + CHUNK_SIZE - 1) / CHUNK_SIZE
  }

  function ChunkAt(frame: Bytes, i: nat): (c: Bytes)
    requires i < ChunkCount(frame)
    ensures 0 < |c| <= CHUNK_SIZE
  {
    frame[i * CHUNK_SIZE..Min((i + 1) * CHUNK_SIZE, |frame|)]
  }

  /** Every chunk but the last is 4096 bytes long. */
  lemma ChunkLengths(frame: Bytes, i: nat)
    requires i < ChunkCount(frame)
    ensures |ChunkAt(frame, i)| == if i < ChunkCount(frame) - 1 then 4096 else |frame| - 4096 * (ChunkCount(frame) - 1)
  {
  }

  function Chunks(frame: Bytes): (cs: seq<Bytes>)
    ensures |cs| == ChunkCount(frame)
    ensures forall i :: 0 <= i < |cs| ==> cs[i] == ChunkAt(frame, i)
  {
    seq(ChunkCount(frame), i requires 0 <= i < ChunkCount(frame) => ChunkAt(frame, i))
  }

  /** Splitting loses nothing: the chunks in order are the frame. */
  lemma ChunksJoin(frame: Bytes)
    ensures Flatten(Chunks(frame)) == frame
  {
    JoinPrefix(frame, ChunkCount(frame));
    assert Chunks(frame)[..ChunkCount(frame)] == Chunks(frame);
  }

  lemma OneMoreChunk(frame: Bytes, k: nat)
    requires k < ChunkCount(frame)
    ensures frame[..Min(k * CHUNK_SIZE, |frame|)] + ChunkAt(frame, k) == frame[..Min((k + 1) * CHUNK_SIZE, |frame|)]
  {
  }

  lemma {:induction false} JoinPrefix(frame: Bytes, k: nat)
    requires k <= ChunkCount(frame)
    ensures Flatten(Chunks(frame)[..k]) == frame[..Min(k * CHUNK_SIZE, |frame|)]
  {
    if k > 0 {
      JoinPrefix(frame, k - 1);
      var cs := Chunks(frame);
      assert cs[..k] == cs[..k - 1] + [cs[k - 1]];
      FlattenAppend(cs[..k - 1], cs[k - 1]);
      OneMoreChunk(frame, k - 1);
    }
  }

  // ---- sending --------------------------------------------------------------------------------

  /** What the sender puts on the wire for chunk i, after the transport's own token. */
  function SentChunk(sequence: U32, frame: Bytes, i: nat): Bytes
    requires i < ChunkCount(frame) < 0x1_0000
  {
    [MEDIA_PACKET_SCREEN_CHUNK] + EncodeMetadata(Metadata(sequence, i, ChunkCount(frame))) + ChunkAt(frame, i)
  }

  class ScreenSender {
    var nextScreenSequence: U32

    constructor ()
      ensures nextScreenSequence == 0
    {
      nextScreenSequence := 0;
    }

    method NextScreenSequence() returns (sequence: U32)
      modifies this
      ensures sequence == nextScreenSequence == (old(nextScreenSequence) + 1) % TWO32
    {
      var before := nextScreenSequence;
      nextScreenSequence := (nextScreenSequence + 1) % TWO32;
      sequence := (before + 1) % TWO32;
    }

    /** The chunking loop. */
    method SplitFrame(sequence: U32, data: Bytes) returns (packets: seq<Bytes>)
      requires CHUNK_SIZE < |data| && ChunkCount(data) < 0x1_0000
      ensures |packets| == ChunkCount(data)
      ensures forall i :: 0 <= i < |packets| ==> packets[i] == SentChunk(sequence, data, i)
    {
      var chunkCount := ChunkCount(data);
      packets := [];
      var chunkIndex := 0;
      while chunkIndex < chunkCount
        invariant chunkIndex == |packets| <= chunkCount
        invariant forall i :: 0 <= i < |packets| ==> packets[i] == SentChunk(sequence, data, i)
      {
        var header := EncodeMetadata(Metadata(sequence, chunkIndex, chunkCount));
        packets := packets + [[MEDIA_PACKET_SCREEN_CHUNK] + header + ChunkAt(data, chunkIndex)];
        chunkIndex := chunkIndex + 1;
      }
    }

    /** UDP first when it is up, the WebSocket otherwise; a frame of more than 65535 chunks uses up
        a sequence on each transport it is tried on and is not sent. */
    method SendScreenFrame(data: Bytes, udp: bool, ws: bool) returns (packets: seq<Bytes>)
      modifies this
      ensures |data| <= CHUNK_SIZE ==>
                && packets == (if udp || ws then [[MEDIA_PACKET_SCREEN] + data] else [])
                && nextScreenSequence == old(nextScreenSequence)
      ensures |data| > CHUNK_SIZE && (udp || ws) && ChunkCount(data) < 0x1_0000 ==>
                && nextScreenSequence == (old(nextScreenSequence) + 1) % TWO32
                && |packets| == ChunkCount(data)
                && (forall i :: 0 <= i < |packets| ==> packets[i] == SentChunk(nextScreenSequence, data, i))
      ensures |data| > CHUNK_SIZE && !(udp || ws) ==>
                packets == [] && nextScreenSequence == old(nextScreenSequence)
      ensures |data| > CHUNK_SIZE && (udp || ws) && ChunkCount(data) >= 0x1_0000 ==>
                && packets == []
                && nextScreenSequence == (old(nextScreenSequence) + (if udp && ws then 2 else 1)) % TWO32
    {
      packets := [];
      if udp {
        if |data| <= CHUNK_SIZE {
          return [[MEDIA_PACKET_SCREEN] + data];
        }
        var sequence := NextScreenSequence();
        if ChunkCount(data) <= 0xFFFF {
          packets := SplitFrame(sequence, data);
          return;
        }
      }
      if ws {
        if |data| <= CHUNK_SIZE {
          return [[MEDIA_PACKET_SCREEN] + data];
        }
        var sequence := NextScreenSequence();
        if ChunkCount(data) <= 0xFFFF {
          packets := SplitFrame(sequence, data);
        }
      }
    }
  }
}
