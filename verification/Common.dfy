/** Small vocabulary shared by the models. */
module Common {

  datatype Option<+T> = None | Some(value: T)

  type Byte = n: nat | n < 0x100
  type U16 = n: nat | n < 0x1_0000
  type U32 = n: nat | n < 0x1_0000_0000
  type U64 = n: nat | n < 0x1_0000_0000_0000_0000

  const TWO31: int := 0x8000_0000
  const TWO32: int := 0x1_0000_0000

  /** Samples in an audio frame: 20 ms. */
  const FRAME_SIZE: nat := 960

  /** `wrapping_sub` on u32. */
  function WrappingSub(a: U32, b: U32): U32 {
    if b <= a then a - b else a + TWO32 - b
  }

  function Min(a: int, b: int): int {
    if a <= b then a else b
  }

  function Max(a: int, b: int): int {
    if a >= b then a else b
  }

  /** a is obtained from b by deleting elements; the order of the rest is kept. */
  ghost predicate IsSubsequence<T>(a: seq<T>, b: seq<T>)
    decreases |b|
  {
    || a == []
    || (b != [] && IsSubsequence(a, b[..|b| - 1]))
    || (b != [] && a[|a| - 1] == b[|b| - 1] && IsSubsequence(a[..|a| - 1], b[..|b| - 1]))
  }

  lemma SubsequenceGrows<T>(a: seq<T>, b: seq<T>, x: T)
    requires IsSubsequence(a, b)
    ensures IsSubsequence(a, b + [x])
    ensures IsSubsequence(a + [x], b + [x])
  {
    assert (b + [x])[..|b|] == b;
    assert (a + [x])[..|a|] == a;
  }

  lemma {:induction false} SubsequencePrefix<T>(a: seq<T>, c: seq<T>, b: seq<T>)
    requires IsSubsequence(a + c, b)
    ensures IsSubsequence(a, b)
    decreases |b|
  {
    if a != [] {
      var b' := b[..|b| - 1];
      if IsSubsequence(a + c, b') {
        SubsequencePrefix(a, c, b');
      } else if c == [] {
        assert a + c == a;
      } else {
        assert (a + c)[..|a + c| - 1] == a + c[..|c| - 1];
        SubsequencePrefix(a, c[..|c| - 1], b');
      }
    }
  }

  lemma {:induction false} SubsequenceDropOne<T>(a: seq<T>, x: T, c: seq<T>, b: seq<T>)
    requires IsSubsequence(a + [x] + c, b)
    ensures IsSubsequence(a + c, b)
    decreases |b|
  {
    var all := a + [x] + c;
    assert all != [] && b != [];
    var b' := b[..|b| - 1];
    if IsSubsequence(all, b') {
      SubsequenceDropOne(a, x, c, b');
    } else if c == [] {
      assert all[..|all| - 1] == a && a + c == a;
    } else {
      var c' := c[..|c| - 1];
      assert all[..|all| - 1] == a + [x] + c';
      SubsequenceDropOne(a, x, c', b');
      assert (a + c)[..|a + c| - 1] == a + c';
    }
  }

  function Flatten<T>(parts: seq<seq<T>>): seq<T> {
    if parts == [] then [] else Flatten(parts[..|parts| - 1]) + parts[|parts| - 1]
  }

  lemma FlattenAppend<T>(parts: seq<seq<T>>, last: seq<T>)
    ensures Flatten(parts + [last]) == Flatten(parts) + last
  {
    assert (parts + [last])[..|parts|] == parts;
  }
}
