/** The playback ring as one thread sees it while the other is at rest
    (crates/audio_core/src/buffers.rs, lines 66-232), over an array written in place.
    SpscSteps shows that interleaving the two threads does not change the picture. */
module SpscRingBuffer {
  import opened Common
  import Ring = RingIndex

  /** What is left of a batch once the ring is full. */
  function PushedAll(contents: seq<real>, samples: seq<real>, cap: nat): (r: seq<real>)
    requires |contents| < cap
    ensures r == contents + samples[..Min(|samples|, cap - 1 - |contents|)]
  {
    if |samples| <= cap - 1 - |contents| then contents + samples
    else contents + samples[..cap - 1 - |contents|]
  }

  class SpscRingBuf {
    const data: array<real>
    var write: nat
    var read: nat

    ghost predicate Valid()
      reads this
    {
      Ring.Cursors(data.Length, read, write)
    }

    ghost function Contents(): (c: seq<real>)
      requires Valid()
      reads this, data
      ensures |c| < data.Length
    {
      Ring.Contents(data[..], read, write)
    }

    constructor (capacity: nat)
      requires 0 < capacity
      ensures Valid() && fresh(data) && data.Length == capacity && Contents() == []
    {
      data := new real[capacity](_ => 0.0);
      write, read := 0, 0;
    }

    method Len() returns (n: nat)
      requires Valid()
      ensures n == |Contents()|
    {
      n := (write + data.Length - read) % data.Length;
    }

    method Push(sample: real)
      requires Valid()
      modifies this`write, data
      ensures Valid()
      ensures Contents() == if |old(Contents())| == data.Length - 1 then old(Contents()) else old(Contents()) + [sample]
    {
      var next := Ring.At(write + 1, data.Length);
      if next == read {
        return;
      }
      Ring.AppendSlot(data[..], read, write, sample);
      ghost var slots := data[..][write := sample];
      data[write] := sample;
      assert data[..] == slots;
      write := next;
    }

    method PushSlice(samples: seq<real>)
      requires Valid()
      modifies this`write, data
      ensures Valid()
      ensures Contents() == PushedAll(old(Contents()), samples, data.Length)
    {
      var i := 0;
      while i < |samples|
        invariant 0 <= i <= |samples| && Valid()
        invariant Contents() == PushedAll(old(Contents()), samples[..i], data.Length)
      {
        assert samples[..i + 1] == samples[..i] + [samples[i]];
        Push(samples[i]);
        i := i + 1;
      }
      assert samples[..i] == samples;
    }

    /** One copying loop of `drain_into`: dest[k] takes slot k + shift for at <= k < end. */
    method CopyRun(dest: array<real>, at: nat, end: nat, shift: int)
      requires dest != data && at <= end <= dest.Length && 0 <= at + shift && end + shift <= data.Length
      modifies dest
      ensures forall k :: at <= k < end ==> dest[k] == data[k + shift]
      ensures forall k :: 0 <= k < dest.Length && !(at <= k < end) ==> dest[k] == old(dest[k])
    {
      for i := at to end
        invariant forall k :: at <= k < i ==> dest[k] == data[k + shift]
        invariant forall k :: 0 <= k < dest.Length && !(at <= k < i) ==> dest[k] == old(dest[k])
      {
        dest[i] := data[i + shift];
      }
    }

    /** One adding loop of `mix_into`. */
    method MixRun(dest: array<real>, at: nat, end: nat, shift: int, volume: real)
      requires dest != data && at <= end <= dest.Length && 0 <= at + shift && end + shift <= data.Length
      modifies dest
      ensures forall k :: at <= k < end ==> dest[k] == old(dest[k]) + data[k + shift] * volume
      ensures forall k :: 0 <= k < dest.Length && !(at <= k < end) ==> dest[k] == old(dest[k])
    {
      for i := at to end
        invariant forall k :: at <= k < i ==> dest[k] == old(dest[k]) + data[k + shift] * volume
        invariant forall k :: 0 <= k < dest.Length && !(at <= k < i) ==> dest[k] == old(dest[k])
      {
        dest[i] := dest[i] + data[i + shift] * volume;
      }
    }

    /** The two-part copy: the part up to the end of the array, then the part at its start. */
    method CopyWindow(dest: array<real>, r: nat, count: nat)
      requires dest != data && r < data.Length && 0 < count < data.Length && count <= dest.Length
      modifies dest
      ensures forall k :: 0 <= k < count ==> dest[k] == data[Ring.At(r + k, data.Length)]
      ensures forall k :: count <= k < dest.Length ==> dest[k] == old(dest[k])
    {
      var first := data.Length - r;
      if count <= first {
        CopyRun(dest, 0, count, r);
      } else {
        CopyRun(dest, 0, first, r);
        CopyRun(dest, first, count, -first);
      }
    }

    method MixWindow(dest: array<real>, r: nat, count: nat, volume: real)
      requires dest != data && r < data.Length && 0 < count < data.Length && count <= dest.Length
      modifies dest
      ensures forall k :: 0 <= k < count ==> dest[k] == old(dest[k]) + data[Ring.At(r + k, data.Length)] * volume
      ensures forall k :: count <= k < dest.Length ==> dest[k] == old(dest[k])
    {
      var first := data.Length - r;
      if count <= first {
        MixRun(dest, 0, count, r, volume);
      } else {
        MixRun(dest, 0, first, r, volume);
        MixRun(dest, first, count, -first, volume);
      }
    }

    /** Overwrites the front of `dest`; the rest of `dest` stays as it was. */
    method DrainInto(dest: array<real>) returns (count: nat)
      requires Valid() && dest != data
      modifies this`read, dest
      ensures Valid()
      ensures count == Min(dest.Length, |old(Contents())|)
      ensures dest[..count] == old(Contents())[..count]
      ensures dest[count..] == old(dest[..])[count..]
      ensures Contents() == old(Contents())[count..]
    {
      var r, cap := read, data.Length;
      var available := Ring.At(write + cap - r, cap);
      count := Min(dest.Length, available);
      if count == 0 {
        return;
      }
      CopyWindow(dest, r, count);
      Ring.DropFront(data[..], r, write, count);
      read := Ring.At(r + count, cap);
    }

    /** Adds the front of the ring, scaled, onto `dest`. */
    method MixInto(dest: array<real>, volume: real) returns (count: nat)
      requires Valid() && dest != data
      modifies this`read, dest
      ensures Valid()
      ensures count == Min(dest.Length, |old(Contents())|)
      ensures forall k :: 0 <= k < count ==> dest[k] == old(dest[k]) + old(Contents())[k] * volume
      ensures dest[count..] == old(dest[..])[count..]
      ensures Contents() == old(Contents())[count..]
    {
      var r, cap := read, data.Length;
      var available := Ring.At(write + cap - r, cap);
      count := Min(dest.Length, available);
      if count == 0 {
        return;
      }
      MixWindow(dest, r, count, volume);
      Ring.DropFront(data[..], r, write, count);
      read := Ring.At(r + count, cap);
    }

    method Clear()
      requires Valid()
      modifies this`read
      ensures Valid() && Contents() == []
    {
      read := write;
    }
  }
}
