/** Coding a byte string three bytes, and its text four characters, at a time
    (crates/shared_types/src/b64.rs:12-32, 36-90), for any way of coding one group. */
module GroupCoding {
  import opened Common

  type Octet = bv8
  type Bytes = seq<Octet>
  type Chunk = c: Bytes | 1 <= |c| <= 3 witness [0]
  type Group = g: Bytes | |g| == 4 witness [0, 0, 0, 0]

  /** The decoder is told whether the group is the last one. */
  type Encoder = Chunk -> Group
  type Decoder = (Group, bool) -> Option<Chunk>

  function EncodeWith(input: Bytes, e: Encoder): Bytes {
    if input == [] then []
    else
      var n := Min(3, |input|);
      e(input[..n]) + EncodeWith(input[n..], e)
  }

  /** A decoded group in front of what follows; either one missing means none. */
  function Join(front: Option<Bytes>, rest: Option<Bytes>): Option<Bytes> {
    match (front, rest)
    case (Some(a), Some(b)) => Some(a + b)
    case _ => None
  }

  function DecodeWith(s: Bytes, d: Decoder): Option<Bytes>
    requires |s| % 4 == 0
  {
    if s == [] then Some([]) else Join(d(s[..4], |s| == 4), DecodeWith(s[4..], d))
  }

  lemma JoinAssociates(a: Option<Bytes>, b: Option<Bytes>, c: Option<Bytes>)
    ensures Join(Join(a, b), c) == Join(a, Join(b, c))
    ensures Join(Some([]), c) == c && Join(c, Some([])) == c
  {
    if c.Some? {
      assert [] + c.value == c.value && c.value + [] == c.value;
      if a.Some? && b.Some? {
        assert (a.value + b.value) + c.value == a.value + (b.value + c.value);
      }
    }
  }

  /** Decoding a group put in front of whole groups. */
  lemma DecodeInFront(g: Group, rest: Bytes, d: Decoder)
    requires |rest| % 4 == 0
    ensures DecodeWith(g + rest, d) == Join(d(g, rest == []), DecodeWith(rest, d))
  {
    assert (g + rest)[..4] == g && (g + rest)[4..] == rest;
  }

  lemma EncodeInFront(front: Chunk, tail: Bytes, e: Encoder)
    requires tail != [] ==> |front| == 3
    ensures EncodeWith(front + tail, e) == e(front) + EncodeWith(tail, e)
  {
    var x := front + tail;
    assert x[..Min(3, |x|)] == front && x[Min(3, |x|)..] == tail;
  }

  /** Four characters for each three bytes or part of three. */
  lemma {:induction false} EncodedLength(x: Bytes, e: Encoder)
    ensures |EncodeWith(x, e)| == 4 * ((|x| + 2) / 3)
    decreases |x|
  {
    if x != [] {
      var n := Min(3, |x|);
      EncodedLength(x[n..], e);
      assert |EncodeWith(x, e)| == 4 + |EncodeWith(x[n..], e)|;
    }
  }

  ghost predicate InvertsGroups(d: Decoder, e: Encoder) {
    forall c: Chunk, isLast :: (|c| < 3 ==> isLast) ==> d(e(c), isLast) == Some(c)
  }

  lemma {:induction false} RoundTrip(x: Bytes, e: Encoder, d: Decoder)
    requires InvertsGroups(d, e)
    ensures |EncodeWith(x, e)| % 4 == 0 && DecodeWith(EncodeWith(x, e), d) == Some(x)
    decreases |x|
  {
    EncodedLength(x, e);
    if x != [] {
      var n := Min(3, |x|);
      var chunk, tail := x[..n], x[n..];
      RoundTrip(tail, e, d);
      EncodedLength(tail, e);
      DecodeInFront(e(chunk), EncodeWith(tail, e), d);
      assert d(e(chunk), EncodeWith(tail, e) == []) == Some(chunk);
      assert x == chunk + tail;
    }
  }

  /** Symbols (`isSymbol`) throughout except for p padding characters at the end. */
  ghost predicate PaddedBy(s: Bytes, p: nat, isSymbol: Octet -> bool, pad: Octet) {
    && p <= 2 && p <= |s|
    && (forall i :: 0 <= i < |s| - p ==> isSymbol(s[i]))
    && (forall i :: |s| - p <= i < |s| ==> s[i] == pad)
  }

  ghost predicate Padded(s: Bytes, isSymbol: Octet -> bool, pad: Octet) {
    exists p :: PaddedBy(s, p, isSymbol, pad)
  }

  lemma PaddingAfterGroup(g: Group, rest: Bytes, isSymbol: Octet -> bool, pad: Octet)
    requires |rest| >= 4
    ensures Padded(g + rest, isSymbol, pad) <==> PaddedBy(g, 0, isSymbol, pad) && Padded(rest, isSymbol, pad)
  {
    var s := g + rest;
    forall p | PaddedBy(s, p, isSymbol, pad)
      ensures PaddedBy(g, 0, isSymbol, pad) && PaddedBy(rest, p, isSymbol, pad)
    {
      assert forall i :: 0 <= i < |g| ==> g[i] == s[i];
      assert forall i :: 0 <= i < |rest| ==> rest[i] == s[i + 4];
    }
    forall p | PaddedBy(g, 0, isSymbol, pad) && PaddedBy(rest, p, isSymbol, pad)
      ensures PaddedBy(s, p, isSymbol, pad)
    {
    }
  }

  /** The decoder accepts a group of symbols anywhere, and a padded one in the last place. */
  ghost predicate AcceptsPadded(d: Decoder, isSymbol: Octet -> bool, pad: Octet) {
    forall g: Group, isLast ::
      d(g, isLast).Some? <==> PaddedBy(g, 0, isSymbol, pad) || (isLast && Padded(g, isSymbol, pad))
  }

  lemma {:induction false} AcceptedStrings(s: Bytes, d: Decoder, isSymbol: Octet -> bool, pad: Octet)
    requires |s| % 4 == 0 && AcceptsPadded(d, isSymbol, pad)
    ensures DecodeWith(s, d).Some? <==> Padded(s, isSymbol, pad)
    decreases |s|
  {
    if s == [] {
      assert PaddedBy(s, 0, isSymbol, pad);
    } else {
      var g, rest := s[..4], s[4..];
      DecodeInFront(g, rest, d);
      assert s == g + rest;
      AcceptedStrings(rest, d, isSymbol, pad);
      if rest != [] {
        PaddingAfterGroup(g, rest, isSymbol, pad);
      } else {
        assert g == s;
      }
    }
  }

  /** Re-encoding a group gives it back before the end, and in the last place exactly when it is canonical. */
  ghost predicate Reencodes(e: Encoder, d: Decoder, canonical: Group -> bool) {
    forall g: Group, isLast :: d(g, isLast).Some? ==>
      && (!isLast ==> |d(g, isLast).value| == 3 && canonical(g))
      && (e(d(g, isLast).value) == g <==> canonical(g))
  }

  lemma {:induction false} ReencodesIffCanonical(s: Bytes, e: Encoder, d: Decoder, canonical: Group -> bool)
    requires |s| % 4 == 0 && Reencodes(e, d, canonical) && DecodeWith(s, d).Some?
    ensures EncodeWith(DecodeWith(s, d).value, e) == s <==> s == [] || canonical(s[|s| - 4..])
    decreases |s|
  {
    if s != [] {
      var g, rest := s[..4], s[4..];
      DecodeInFront(g, rest, d);
      assert s == g + rest;
      ReencodesIffCanonical(rest, e, d, canonical);
      var front, tail := d(g, rest == []).value, DecodeWith(rest, d).value;
      EncodeInFront(front, tail, e);
      SameParts(e(front), EncodeWith(tail, e), g, rest);
      assert s[|s| - 4..] == if rest == [] then g else rest[|rest| - 4..];
    }
  }

  lemma SameParts(a: Bytes, b: Bytes, g: Bytes, rest: Bytes)
    requires |a| == |g|
    ensures a + b == g + rest <==> a == g && b == rest
  {
    if a + b == g + rest {
      assert a == (a + b)[..|a|] && b == (a + b)[|a|..];
      assert g == (g + rest)[..|a|] && rest == (g + rest)[|a|..];
    }
  }

  /** Encoding the next chunk of the input. */
  lemma EncodeNext(input: Bytes, i: nat, e: Encoder)
    requires i < |input|
    ensures var end := Min(i + 3, |input|);
            EncodeWith(input[i..], e) == e(input[i..end]) + EncodeWith(input[end..], e)
  {
    var end := Min(i + 3, |input|);
    assert input[i..][..end - i] == input[i..end] && input[i..][end - i..] == input[end..];
  }

  /** Decoding the next group of the input, after those that gave `out`. */
  lemma DecodeNext(input: Bytes, i: nat, out: Bytes, group: Option<Chunk>, d: Decoder)
    requires i + 4 <= |input| && |input| % 4 == 0 && i % 4 == 0
    requires group == d(input[i..i + 4], i + 4 == |input|)
    ensures Join(Some(out), DecodeWith(input[i..], d))
         == if group.None? then None else Join(Some(out + group.value), DecodeWith(input[i + 4..], d))
  {
    assert input[i..][..4] == input[i..i + 4] && input[i..][4..] == input[i + 4..];
    JoinAssociates(Some(out), group, DecodeWith(input[i + 4..], d));
  }
}
