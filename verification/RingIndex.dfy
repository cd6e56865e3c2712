/** Cursor arithmetic of the two sample rings in crates/audio_core/src/buffers.rs:
    both keep a read and a write cursor below the capacity and leave one slot free. */
module RingIndex {

  /** `i % cap` for the sums of two cursors that the rings form. */
  function At(i: nat, cap: nat): (slot: nat)
    requires 0 < cap && i < 2 * cap
    ensures slot == if i < cap then i else i - cap
  {
    i % cap
  }

  ghost predicate Cursors(cap: int, read: int, write: int) {
    0 <= read < cap && 0 <= write < cap
  }

  function Len(cap: int, read: int, write: int): (n: nat)
    requires Cursors(cap, read, write)
    ensures n == (if read <= write then write - read else write + cap - read)
  {
    At(write + cap - read, cap)
  }

  /** The samples between the cursors, oldest first. */
  function Contents<T>(data: seq<T>, read: int, write: int): (c: seq<T>)
    requires Cursors(|data|, read, write)
    ensures |c| == Len(|data|, read, write)
    ensures forall i :: 0 <= i < |c| ==> c[i] == data[At(read + i, |data|)]
  {
    seq(Len(|data|, read, write), i requires 0 <= i < Len(|data|, read, write) => data[At(read + i, |data|)])
  }

  lemma AppendSlot<T>(data: seq<T>, read: int, write: int, x: T)
    requires Cursors(|data|, read, write) && Len(|data|, read, write) < |data| - 1
    ensures Contents(data[write := x], read, write) == Contents(data, read, write)
    ensures Contents(data[write := x], read, At(write + 1, |data|)) == Contents(data, read, write) + [x]
  {
    var after, before := data[write := x], Contents(data, read, write);
    assert Contents(after, read, write) == before;
    assert Contents(after, read, At(write + 1, |data|)) == before + [x];
  }

  lemma DropFront<T>(data: seq<T>, read: int, write: int, k: int)
    requires Cursors(|data|, read, write) && 0 <= k <= Len(|data|, read, write)
    ensures Contents(data, At(read + k, |data|), write) == Contents(data, read, write)[k..]
  {
    var read' := At(read + k, |data|);
    assert Contents(data, read', write) == Contents(data, read, write)[k..];
  }

  /** The index used by the two-part copy loops, which split at the end of the array. */
  function SplitIndex(read: nat, count: nat, i: nat, cap: nat): (slot: nat)
    requires read < cap && i < count <= cap
    ensures slot == At(read + i, cap)
  {
    var first := cap - read;
    if count <= first then (read + i) % cap
    else if i < first then read + i
    else i - first
  }
}
