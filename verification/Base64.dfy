/** Base64 of crates/shared_types/src/b64.rs: the standard alphabet with padding, section 4 of RFC 4648. */
module Base64 {
  import opened Common
  import opened GroupCoding

  type Six = v: Octet | v < 64

  const UPPER: string := "ABCDEFGHIJKLMNOPQRSTUVWXYZ"
  const LOWER: string := "abcdefghijklmnopqrstuvwxyz"
  const DIGITS: string := "0123456789+/"
  const ALPHABET: string := UPPER + LOWER + DIGITS
  const PAD: Octet := 61
  const INVALID: Octet := 255

  /** The alphabet's character for a six-bit value. */
  function Symbol(v: Six): (c: Octet)
    ensures c != PAD
  {
    if v < 26 then 65 + v
    else if v < 52 then 71 + v
    else if v < 62 then v - 4
    else if v == 62 then 43
    else 47
  }

  /** The six-bit value of a character, or 255: the decoder's reverse table. */
  function Value(c: Octet): (v: Octet)
    ensures v < 64 || v == INVALID
  {
    if 65 <= c <= 90 then c - 65
    else if 97 <= c <= 122 then c - 71
    else if 48 <= c <= 57 then c + 4
    else if c == 43 then 62
    else if c == 47 then 63
    else INVALID
  }

  predicate IsSymbol(c: Octet) {
    Value(c) != INVALID
  }

  lemma SymbolsAndValues(v: Six, c: Octet)
    ensures Value(Symbol(v)) == v
    ensures IsSymbol(c) ==> Value(c) < 64 && Symbol(Value(c)) == c
    ensures !IsSymbol(PAD)
  {
  }

  /** The alphabet in integers: `Symbol` is proved equal to it, and it to the written string. */
  function Code(n: nat): nat
    requires n < 64
  {
    if n < 26 then 65 + n else if n < 52 then 71 + n else if n < 62 then n - 4 else if n == 62 then 43 else 47
  }

  lemma SymbolCodes(n: nat)
    requires n < 64
    ensures Symbol(n as Octet) as int == Code(n)
  {
  }

  lemma AlphabetCodes(n: nat)
    requires n < 64
    ensures |ALPHABET| == 64 && ALPHABET[n] as int == Code(n)
  {
    assert |UPPER| == 26 && |LOWER| == 26 && |DIGITS| == 12;
    if n < 26 {
      assert ALPHABET[n] == UPPER[n];
    } else if n < 52 {
      assert ALPHABET[n] == LOWER[n - 26];
    } else {
      assert ALPHABET[n] == DIGITS[n - 52];
    }
  }

  lemma AlphabetIsStandard(n: nat)
    requires n < 64
    ensures |ALPHABET| == 64 && ALPHABET[n] as int == Symbol(n as Octet) as int
  {
    SymbolCodes(n);
    AlphabetCodes(n);
  }

  // ---- bits -------------------------------------------------------------------------------------

  /** The first, second and third byte of a group from its six-bit values. */
  function First(v0: Six, v1: Six): Octet {
    (v0 << 2) | (v1 >> 4)
  }

  function Second(v1: Six, v2: Six): Octet {
    (v1 << 4) | (v2 >> 2)
  }

  function Third(v2: Six, v3: Six): Octet {
    (v2 << 6) | v3
  }

  /** The four six-bit values of a group from its bytes. */
  function Six0(b0: Octet): Six {
    b0 >> 2
  }

  function Six1(b0: Octet, b1: Octet): Six {
    ((b0 & 0x03) << 4) | (b1 >> 4)
  }

  function Six2(b1: Octet, b2: Octet): Six {
    ((b1 & 0x0F) << 2) | (b2 >> 6)
  }

  function Six3(b2: Octet): Six {
    b2 & 0x3F
  }

  lemma PackInvertsUnpack(b0: Octet, b1: Octet, b2: Octet)
    ensures First(Six0(b0), Six1(b0, b1)) == b0
    ensures Second(Six1(b0, b1), Six2(b1, b2)) == b1
    ensures Third(Six2(b1, b2), Six3(b2)) == b2
  {
  }

  lemma UnpackInvertsPack(v0: Six, v1: Six, v2: Six, v3: Six)
    ensures Six0(First(v0, v1)) == v0
    ensures Six1(First(v0, v1), Second(v1, v2)) == v1
    ensures Six2(Second(v1, v2), Third(v2, v3)) == v2
    ensures Six3(Third(v2, v3)) == v3
    ensures Six1(First(v0, v1), 0) == v1 <==> v1 & 0x0F == 0
    ensures Six2(Second(v1, v2), 0) == v2 <==> v2 & 0x03 == 0
  {
  }

  /** Three bytes as one 24-bit number, most significant first; and four six-bit values. */
  function Bytes24(b0: Octet, b1: Octet, b2: Octet): bv24 {
    (b0 as bv24 << 16) | (b1 as bv24 << 8) | b2 as bv24
  }

  function Sixes24(v0: Six, v1: Six, v2: Six, v3: Six): bv24 {
    (v0 as bv24 << 18) | (v1 as bv24 << 12) | (v2 as bv24 << 6) | v3 as bv24
  }

  /** A group is the same 24 bits cut in three and cut in four (section 4 of RFC 4648), in both directions. */
  lemma GroupsAreTheSameBits(b0: Octet, b1: Octet, b2: Octet, v0: Six, v1: Six, v2: Six, v3: Six)
    ensures Sixes24(Six0(b0), Six1(b0, b1), Six2(b1, b2), Six3(b2)) == Bytes24(b0, b1, b2)
    ensures Bytes24(First(v0, v1), Second(v1, v2), Third(v2, v3)) == Sixes24(v0, v1, v2, v3)
  {
  }

  /** The two, three or four six-bit values of one, two or three bytes, the last one filled up with
      zero bits. */
  function Unpack(chunk: Chunk): (vs: seq<Six>)
    ensures |vs| == |chunk| + 1
  {
    if |chunk| == 1 then [Six0(chunk[0]), Six1(chunk[0], 0)]
    else if |chunk| == 2 then [Six0(chunk[0]), Six1(chunk[0], chunk[1]), Six2(chunk[1], 0)]
    else [Six0(chunk[0]), Six1(chunk[0], chunk[1]), Six2(chunk[1], chunk[2]), Six3(chunk[2])]
  }

  function Pack(vs: seq<Six>): (bytes: Chunk)
    requires 2 <= |vs| <= 4
    ensures |bytes| == |vs| - 1
  {
    if |vs| == 2 then [First(vs[0], vs[1])]
    else if |vs| == 3 then [First(vs[0], vs[1]), Second(vs[1], vs[2])]
    else [First(vs[0], vs[1]), Second(vs[1], vs[2]), Third(vs[2], vs[3])]
  }

  lemma PackUnpack(chunk: Chunk)
    ensures Pack(Unpack(chunk)) == chunk
  {
    var b1 := if |chunk| > 1 then chunk[1] else 0;
    PackInvertsUnpack(chunk[0], b1, if |chunk| > 2 then chunk[2] else 0);
  }

  /** The bits that no byte uses. */
  predicate SpareBitsZero(vs: seq<Six>)
    requires 2 <= |vs| <= 4
  {
    (|vs| == 2 ==> vs[1] & 0x0F == 0) && (|vs| == 3 ==> vs[2] & 0x03 == 0)
  }

  lemma UnpackPack(vs: seq<Six>)
    requires 2 <= |vs| <= 4
    ensures Unpack(Pack(vs)) == vs <==> SpareBitsZero(vs)
  {
    UnpackInvertsPack(vs[0], vs[1], if |vs| > 2 then vs[2] else 0, if |vs| > 3 then vs[3] else 0);
    assert Unpack(Pack(vs))[|vs| - 1] == vs[|vs| - 1] <==> SpareBitsZero(vs);
  }

  // ---- characters -------------------------------------------------------------------------------

  function Write(vs: seq<Six>): (g: Bytes)
    requires 2 <= |vs| <= 4
    ensures |g| == 4
  {
    [Symbol(vs[0]),
     Symbol(vs[1]),
     if |vs| > 2 then Symbol(vs[2]) else PAD,
     if |vs| > 3 then Symbol(vs[3]) else PAD]
  }

  /** The tests on one group of four characters; padding is allowed only in the last group's last two
      places. */
  function Read(g: Bytes, isLast: bool): (r: Option<seq<Six>>)
    requires |g| == 4
    ensures r.Some? ==> 2 <= |r.value| <= 4
  {
    var v0, v1, v2, v3 := Value(g[0]), Value(g[1]), Value(g[2]), Value(g[3]);
    if g[0] == PAD || g[1] == PAD || v0 == INVALID || v1 == INVALID then None
    else if g[2] == PAD then
      if !isLast || g[3] != PAD then None else Some([v0, v1])
    else if v2 == INVALID then None
    else if g[3] != PAD then
      if v3 == INVALID then None else Some([v0, v1, v2, v3])
    else if !isLast then None
    else Some([v0, v1, v2])
  }

  lemma ReadWrite(vs: seq<Six>, isLast: bool)
    requires 2 <= |vs| <= 4 && (|vs| < 4 ==> isLast)
    ensures Read(Write(vs), isLast) == Some(vs)
  {
    SymbolsAndValues(vs[0], 0);
    SymbolsAndValues(vs[1], 0);
    if |vs| == 2 {
      assert vs == [vs[0], vs[1]];
    } else {
      SymbolsAndValues(vs[2], 0);
      if |vs| == 3 {
        assert vs == [vs[0], vs[1], vs[2]];
      } else {
        SymbolsAndValues(vs[3], 0);
        assert vs == [vs[0], vs[1], vs[2], vs[3]];
      }
    }
  }

  lemma WriteRead(g: Bytes, isLast: bool)
    requires |g| == 4 && Read(g, isLast).Some?
    ensures Write(Read(g, isLast).value) == g
    ensures |Read(g, isLast).value| == (if g[2] == PAD then 2 else if g[3] == PAD then 3 else 4)
  {
    SymbolsAndValues(0, g[0]);
    SymbolsAndValues(0, g[1]);
    SymbolsAndValues(0, g[2]);
    SymbolsAndValues(0, g[3]);
  }

  // ---- encoding ---------------------------------------------------------------------------------

  function EncodeGroup(chunk: Chunk): Group {
    Write(Unpack(chunk))
  }

  function Encode(input: Bytes): Bytes {
    EncodeWith(input, EncodeGroup)
  }

  /** One turn of the encoding loop. */
  method EncodeChunk(chunk: Chunk) returns (group: Group)
    ensures group == EncodeGroup(chunk)
  {
    var b0 := chunk[0];
    var b1 := if |chunk| > 1 then chunk[1] else 0;
    var b2 := if |chunk| > 2 then chunk[2] else 0;
    group := [Symbol(Six0(b0)), Symbol(Six1(b0, b1)),
              if |chunk| > 1 then Symbol(Six2(b1, b2)) else PAD,
              if |chunk| > 2 then Symbol(Six3(b2)) else PAD];
  }

  method EncodeBytes(input: Bytes) returns (out: Bytes)
    ensures out == Encode(input)
  {
    out := [];
    var i := 0;
    assert input[0..] == input;
    while i < |input|
      invariant 0 <= i <= |input|
      invariant out + EncodeWith(input[i..], EncodeGroup) == Encode(input)
      decreases |input| - i
    {
      var end := Min(i + 3, |input|);
      var group := EncodeChunk(input[i..end]);
      EncodeNext(input, i, EncodeGroup);
      assert (out + group) + EncodeWith(input[end..], EncodeGroup)
          == out + (group + EncodeWith(input[end..], EncodeGroup));
      out := out + group;
      i := end;
    }
    assert input[i..] == [] && out + [] == out;
  }

  // ---- decoding ---------------------------------------------------------------------------------

  function DecodeGroup(g: Group, isLast: bool): Option<Chunk> {
    match Read(g, isLast)
    case None => None
    case Some(vs) => Some(Pack(vs))
  }

  function Decode(s: Bytes): Option<Bytes> {
    if |s| % 4 != 0 then None else DecodeWith(s, DecodeGroup)
  }

  lemma SameIndexSameOctet(c: Octet, d: Octet)
    ensures c as int == d as int ==> c == d
  {
  }

  /** The table holds the value of every byte. */
  ghost predicate IsReverse(rev: array<Octet>)
    reads rev
  {
    rev.Length == 256 && forall c: Octet :: rev[c as int] == Value(c)
  }

  /** Fills the reverse table in place. */
  method BuildReverse() returns (rev: array<Octet>)
    ensures fresh(rev) && IsReverse(rev)
  {
    rev := new Octet[256](_ => INVALID);
    var i: Octet := 0;
    while i < 64
      invariant i <= 64
      invariant forall c: Octet :: rev[c as int] == if Value(c) < i then Value(c) else INVALID
    {
      SymbolsAndValues(i, 0);
      forall c: Octet
        ensures c != Symbol(i) ==> c as int != Symbol(i) as int && Value(c) != i
      {
        SameIndexSameOctet(c, Symbol(i));
        SymbolsAndValues(0, c);
      }
      rev[Symbol(i) as int] := i;
      i := i + 1;
    }
    forall c: Octet
      ensures rev[c as int] == Value(c)
    {
      SymbolsAndValues(0, c);
    }
  }

  /** The tests on one group: its bytes, or None to reject. */
  method DecodeChunk(rev: array<Octet>, chunk: Bytes, isLast: bool) returns (r: Option<Bytes>)
    requires IsReverse(rev) && |chunk| == 4
    ensures r == DecodeGroup(chunk, isLast)
  {
    var c0, c1, c2, c3 := chunk[0], chunk[1], chunk[2], chunk[3];
    if c0 == PAD || c1 == PAD {
      return None;
    }
    var v0, v1 := rev[c0 as int], rev[c1 as int];
    assert v0 == Value(c0) && v1 == Value(c1);
    if v0 == INVALID || v1 == INVALID {
      return None;
    }
    if c2 == PAD {
      if !isLast || c3 != PAD {
        return None;
      }
      return Some([First(v0, v1)]);
    }
    var v2 := rev[c2 as int];
    assert v2 == Value(c2);
    if v2 == INVALID {
      return None;
    }
    var out := [First(v0, v1), Second(v1, v2)];
    if c3 != PAD {
      var v3 := rev[c3 as int];
      assert v3 == Value(c3);
      if v3 == INVALID {
        return None;
      }
      out := out + [Third(v2, v3)];
      assert out == Pack([v0, v1, v2, v3]);
    } else if !isLast {
      return None;
    }
    return Some(out);
  }

  method DecodeBytes(input: Bytes) returns (result: Option<Bytes>)
    ensures result == Decode(input)
  {
    if |input| % 4 != 0 {
      return None;
    }
    if input == [] {
      return Some([]);
    }
    var rev := BuildReverse();
    result := DecodeAll(rev, input);
  }

  /** What the decoder returns if the groups before i gave `out`. */
  ghost function Outcome(input: Bytes, i: nat, out: Bytes): Option<Bytes>
    requires i <= |input| && |input| % 4 == 0 && i % 4 == 0
  {
    Join(Some(out), DecodeWith(input[i..], DecodeGroup))
  }

  lemma OutcomeAtTheEnds(input: Bytes, out: Bytes)
    requires |input| % 4 == 0
    ensures Outcome(input, 0, []) == Decode(input)
    ensures Outcome(input, |input|, out) == Some(out)
  {
    assert input[0..] == input && input[|input|..] == [] && out + [] == out;
    JoinAssociates(None, None, Decode(input));
  }

  /** One turn of the decoding loop, after `out`. */
  method DecodeTurn(rev: array<Octet>, input: Bytes, i: nat, ghost out: Bytes) returns (group: Option<Chunk>)
    requires IsReverse(rev)
    requires i + 4 <= |input| && |input| % 4 == 0 && i % 4 == 0
    ensures Outcome(input, i, out) == if group.None? then None else Outcome(input, i + 4, out + group.value)
  {
    group := DecodeChunk(rev, input[i..i + 4], i + 4 == |input|);
    DecodeNext(input, i, out, group, DecodeGroup);
  }

  lemma WholeGroupsAhead(i: nat, n: nat)
    requires i % 4 == 0 && n % 4 == 0 && i < n
    ensures i + 4 <= n && (i + 4) % 4 == 0
  {
  }

  /** The decoding loop. */
  method DecodeAll(rev: array<Octet>, input: Bytes) returns (result: Option<Bytes>)
    requires IsReverse(rev) && |input| % 4 == 0
    ensures result == Decode(input)
  {
    var out := [];
    var i := 0;
    OutcomeAtTheEnds(input, []);
    while i < |input|
      invariant 0 <= i <= |input| && i % 4 == 0
      invariant Outcome(input, i, out) == Decode(input)
      decreases |input| - i
    {
      WholeGroupsAhead(i, |input|);
      var group := DecodeTurn(rev, input, i, out);
      if group.None? {
        return None;
      }
      out := out + group.value;
      i := i + 4;
    }
    OutcomeAtTheEnds(input, out);
    result := Some(out);
  }

  // ---- round trips ------------------------------------------------------------------------------

  lemma GroupRoundTrip(chunk: Chunk, isLast: bool)
    requires |chunk| < 3 ==> isLast
    ensures DecodeGroup(EncodeGroup(chunk), isLast) == Some(chunk)
  {
    ReadWrite(Unpack(chunk), isLast);
    PackUnpack(chunk);
  }

  /** Decoding what was encoded gives it back, for every byte string, from four characters for each
      three bytes or part of three. */
  lemma DecodeInvertsEncode(x: Bytes)
    ensures Decode(Encode(x)) == Some(x)
    ensures |Encode(x)| == 4 * ((|x| + 2) / 3)
  {
    forall c: Chunk, isLast | |c| < 3 ==> isLast
      ensures DecodeGroup(EncodeGroup(c), isLast) == Some(c)
    {
      GroupRoundTrip(c, isLast);
    }
    RoundTrip(x, EncodeGroup, DecodeGroup);
    EncodedLength(x, EncodeGroup);
  }

  // ---- what decode accepts ----------------------------------------------------------------------

  /** Whole groups of four, symbols throughout except for at most two padding characters at the end. */
  ghost predicate WellPadded(s: Bytes) {
    |s| % 4 == 0 && exists p :: PaddedBy(s, p, IsSymbol, PAD)
  }

  lemma ReadAccepts(g: Group, isLast: bool)
    ensures Read(g, isLast).Some? <==> PaddedBy(g, 0, IsSymbol, PAD) || (isLast && Padded(g, IsSymbol, PAD))
  {
    SymbolsAndValues(0, PAD);
    var c0, c1, c2, c3 := g[0], g[1], g[2], g[3];
    assert PaddedBy(g, 0, IsSymbol, PAD) <==> IsSymbol(c0) && IsSymbol(c1) && IsSymbol(c2) && IsSymbol(c3);
    assert PaddedBy(g, 1, IsSymbol, PAD) <==> IsSymbol(c0) && IsSymbol(c1) && IsSymbol(c2) && c3 == PAD;
    assert PaddedBy(g, 2, IsSymbol, PAD) <==> IsSymbol(c0) && IsSymbol(c1) && c2 == PAD && c3 == PAD;
  }

  /** `decode` accepts exactly the well-padded strings over the alphabet. */
  lemma AcceptsExactlyWellPadded(s: Bytes)
    ensures Decode(s).Some? <==> WellPadded(s)
  {
    if |s| % 4 == 0 {
      forall g: Group, isLast
        ensures DecodeGroup(g, isLast).Some?
           <==> PaddedBy(g, 0, IsSymbol, PAD) || (isLast && Padded(g, IsSymbol, PAD))
      {
        ReadAccepts(g, isLast);
      }
      AcceptedStrings(s, DecodeGroup, IsSymbol, PAD);
    }
  }

  // ---- canonical strings ------------------------------------------------------------------------

  /** The bits of a group's last symbol that no byte uses are zero (section 3.5 of RFC 4648). */
  predicate TrailingBitsZero(g: Group) {
    if g[2] == PAD then Value(g[1]) & 0x0F == 0
    else if g[3] == PAD then Value(g[2]) & 0x03 == 0
    else true
  }

  lemma SpareBitsOfGroup(g: Group, isLast: bool)
    requires Read(g, isLast).Some?
    ensures SpareBitsZero(Read(g, isLast).value) <==> TrailingBitsZero(g)
  {
  }

  lemma WriteInjective(vs: seq<Six>, ws: seq<Six>)
    requires 2 <= |vs| <= 4 && 2 <= |ws| <= 4 && Write(vs) == Write(ws)
    ensures vs == ws
  {
    ReadWrite(vs, true);
    ReadWrite(ws, true);
  }

  /** Re-encoding a decoded group gives it back exactly when its spare bits are zero. */
  lemma GroupIsCanonical(g: Group, isLast: bool)
    requires DecodeGroup(g, isLast).Some?
    ensures EncodeGroup(DecodeGroup(g, isLast).value) == g <==> TrailingBitsZero(g)
    ensures !isLast ==> |DecodeGroup(g, isLast).value| == 3 && TrailingBitsZero(g)
  {
    var vs := Read(g, isLast).value;
    WriteRead(g, isLast);
    UnpackPack(vs);
    SpareBitsOfGroup(g, isLast);
    if Write(Unpack(Pack(vs))) == g {
      WriteInjective(Unpack(Pack(vs)), vs);
    }
  }

  /** Encoding what was decoded gives the string back exactly when its unused trailing bits are zero. */
  lemma EncodeInvertsDecodeIffCanonical(s: Bytes)
    requires Decode(s).Some?
    ensures Encode(Decode(s).value) == s <==> s == [] || TrailingBitsZero(s[|s| - 4..])
  {
    forall g: Group, isLast | DecodeGroup(g, isLast).Some?
      ensures !isLast ==> |DecodeGroup(g, isLast).value| == 3 && TrailingBitsZero(g)
      ensures EncodeGroup(DecodeGroup(g, isLast).value) == g <==> TrailingBitsZero(g)
    {
      GroupIsCanonical(g, isLast);
    }
    ReencodesIffCanonical(s, EncodeGroup, DecodeGroup, TrailingBitsZero);
  }

  /** Two padded groups that differ in their last symbol decode alike exactly when the symbols differ only in
      bits that no byte uses: 16 spellings of one byte, 4 of two. */
  lemma SameBytesIffSameUsedBits(u: Six, v: Six, x: Six, y: Six)
    ensures DecodeGroup([Symbol(u), Symbol(x), PAD, PAD], true) == DecodeGroup([Symbol(u), Symbol(y), PAD, PAD], true)
       <==> x >> 4 == y >> 4
    ensures DecodeGroup([Symbol(u), Symbol(v), Symbol(x), PAD], true)
            == DecodeGroup([Symbol(u), Symbol(v), Symbol(y), PAD], true)
       <==> x >> 2 == y >> 2
  {
    DecodesPadded(u, x);
    DecodesPadded(u, y);
    DecodesHalfPadded(u, v, x);
    DecodesHalfPadded(u, v, y);
    FirstIsInjective(u, x, y);
    SecondIsInjective(v, x, y);
  }

  lemma FirstIsInjective(u: Six, x: Six, y: Six)
    ensures First(u, x) == First(u, y) <==> x >> 4 == y >> 4
  {
  }

  lemma SecondIsInjective(v: Six, x: Six, y: Six)
    ensures Second(v, x) == Second(v, y) <==> x >> 2 == y >> 2
  {
  }

  lemma DecodesPadded(u: Six, x: Six)
    ensures DecodeGroup([Symbol(u), Symbol(x), PAD, PAD], true) == Some([First(u, x)])
  {
    ReadWrite([u, x], true);
    assert Write([u, x]) == [Symbol(u), Symbol(x), PAD, PAD];
  }

  lemma DecodesHalfPadded(u: Six, v: Six, x: Six)
    ensures DecodeGroup([Symbol(u), Symbol(v), Symbol(x), PAD], true) == Some([First(u, v), Second(v, x)])
  {
    ReadWrite([u, v, x], true);
    assert Write([u, v, x]) == [Symbol(u), Symbol(v), Symbol(x), PAD];
  }

  /** For instance "QR==" is accepted although its last group has a spare bit set; it decodes like "QQ==". */
  lemma SpareBitsAreAccepted()
    ensures var s: Bytes := [81, 82, 61, 61];
            Decode(s) == Decode([81, 81, 61, 61]) == Some([65]) && !TrailingBitsZero(s)
  {
    DecodesPadded(16, 17);
    DecodesPadded(16, 16);
    DecodeOneGroup([81, 82, 61, 61]);
    DecodeOneGroup([81, 81, 61, 61]);
  }

  lemma DecodeOneGroup(g: Group)
    ensures Decode(g) == match DecodeGroup(g, true) case None => None case Some(c) => Some(c)
  {
    DecodeInFront(g, [], DecodeGroup);
    assert g + [] == g;
    JoinAssociates(None, None, Decode(g));
    match DecodeGroup(g, true)
    case None =>
    case Some(c) => assert c + [] == c;
  }
}
