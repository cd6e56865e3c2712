/** Capture framing: the input ring of crates/audio_core/src/buffers.rs, lines 8-59, and the
    push-then-read-frames loop of the capture callback (crates/audio_core/src/lib.rs, lines 623-649). */
module CaptureFraming {
  import opened Common
  import Ring = RingIndex

  /** The ring's fields as a value. */
  datatype RingState = RingState(data: seq<real>, read: nat, write: nat) {
    ghost predicate Valid() {
      Ring.Cursors(|data|, read, write)
    }

    function Contents(): seq<real>
      requires Valid()
    {
      Ring.Contents(data, read, write)
    }
  }

  /** One turn of the `push_slice` loop: the sample is stored, full or not. */
  function Put(s: RingState, x: real): (s': RingState)
    requires s.Valid()
    ensures s'.Valid() && |s'.data| == |s.data| && s'.read == s.read
  {
    s.(data := s.data[s.write := x], write := Ring.At(s.write + 1, |s.data|))
  }

  function Pushed(s: RingState, samples: seq<real>): (s': RingState)
    requires s.Valid()
    ensures s'.Valid() && |s'.data| == |s.data| && s'.read == s.read
    decreases |samples|
  {
    if samples == [] then s else Put(Pushed(s, samples[..|samples| - 1]), samples[|samples| - 1])
  }

  lemma {:induction false} PushedFits(s: RingState, samples: seq<real>)
    requires s.Valid() && |s.Contents()| + |samples| < |s.data|
    ensures Pushed(s, samples).Contents() == s.Contents() + samples
  {
    if samples != [] {
      var init, x := samples[..|samples| - 1], samples[|samples| - 1];
      PushedFits(s, init);
      var before := Pushed(s, init);
      Ring.AppendSlot(before.data, before.read, before.write, x);
      assert samples == init + [x];
      assert s.Contents() + samples == (s.Contents() + init) + [x];
    }
  }

  /** `push_slice` keeps what the ring held and appends the batch exactly when one slot stays free. */
  lemma PushKeepsFifoIffItFits(s: RingState, samples: seq<real>)
    requires s.Valid()
    ensures Pushed(s, samples).Contents() == s.Contents() + samples
       <==> |s.Contents()| + |samples| < |s.data|
  {
    if |s.Contents()| + |samples| < |s.data| {
      PushedFits(s, samples);
    } else {
      assert |Pushed(s, samples).Contents()| < |s.data|;
    }
  }

  /** On overflow far more than the oldest samples goes: what is left is the newest part of everything, of
      the total length modulo the capacity. A push that makes the total a multiple of the capacity
      leaves the ring empty. */
  lemma {:induction false} PushedKeepsRemainder(s: RingState, samples: seq<real>)
    requires s.Valid()
    ensures var all := s.Contents() + samples;
            Pushed(s, samples).Contents() == all[|all| - Residue(|all|, |s.data|)..]
    decreases |samples|
  {
    var cap, all := |s.data|, s.Contents() + samples;
    if samples == [] {
      assert all == s.Contents();
    } else {
      var init, x := samples[..|samples| - 1], samples[|samples| - 1];
      PushedKeepsRemainder(s, init);
      var before, earlier := Pushed(s, init), s.Contents() + init;
      assert all == earlier + [x];
      NextResidue(|earlier|, cap);
      if |before.Contents()| < cap - 1 {
        Ring.AppendSlot(before.data, before.read, before.write, x);
        var r := Residue(|earlier|, cap);
        assert all[|all| - (r + 1)..] == earlier[|earlier| - r..] + [x];
      } else {
        assert Put(before, x).Contents() == [];
      }
    }
  }

  /** n modulo the capacity. */
  function Residue(n: nat, cap: nat): (r: nat)
    requires 0 < cap
    ensures r < cap && r <= n
  {
    if n < cap then n else Residue(n - cap, cap)
  }

  lemma {:induction false} NextResidue(n: nat, cap: nat)
    requires 0 < cap
    ensures Residue(n + 1, cap) == if Residue(n, cap) == cap - 1 then 0 else Residue(n, cap) + 1
    decreases n
  {
    if n >= cap {
      NextResidue(n - cap, cap);
    }
  }

  /** What one attempt to take a frame leaves. */
  ghost predicate TakenFrom(taken: seq<seq<real>>, left: seq<real>, before: seq<real>) {
    (taken == [] && left == before) || (|taken| == 1 && taken[0] + left == before)
  }

  ghost predicate AllFrames(frames: seq<seq<real>>) {
    forall i :: 0 <= i < |frames| ==> |frames[i]| == FRAME_SIZE
  }

  lemma Regroup(a: seq<real>, b: seq<real>, c: seq<real>)
    ensures (a + b) + c == a + (b + c)
  {
  }

  /** Frames read so far with what is left are everything; then so are those with one more attempt. */
  lemma MoreTaken(read: seq<seq<real>>, taken: seq<seq<real>>, left: seq<real>, before: seq<real>, all: seq<real>)
    requires TakenFrom(taken, left, before) && AllFrames(read) && AllFrames(taken)
    requires Flatten(read) + before == all
    ensures AllFrames(read + taken) && Flatten(read + taken) + left == all
  {
    if taken == [] {
      assert read + taken == read;
    } else {
      assert taken == [taken[0]];
      FlattenAppend(read, taken[0]);
      Regroup(Flatten(read), taken[0], left);
    }
  }

  lemma OneMoreDelivery(frames: seq<seq<real>>, residual: seq<real>, earlier: seq<seq<real>>,
                        more: seq<seq<real>>, residual': seq<real>, delivery: seq<real>)
    requires Flatten(frames) + residual == Flatten(earlier)
    requires Flatten(more) + residual' == residual + delivery
    ensures Flatten(frames + more) + residual' == Flatten(earlier + [delivery])
  {
    FlattenConcat(frames, more);
    FlattenAppend(earlier, delivery);
    Regroup(Flatten(frames), Flatten(more), residual');
    Regroup(Flatten(frames), residual, delivery);
  }

  class CaptureRing {
    const data: array<real>
    var write: nat
    var read: nat

    ghost predicate Valid()
      reads this
    {
      Ring.Cursors(data.Length, read, write)
    }

    ghost function State(): (s: RingState)
      reads this, data
    {
      RingState(data[..], read, write)
    }

    ghost function Contents(): (c: seq<real>)
      requires Valid()
      reads this, data
      ensures |c| < data.Length
    {
      State().Contents()
    }

    constructor (capacity: nat)
      requires 0 < capacity
      ensures Valid() && fresh(data) && data.Length == capacity && Contents() == []
    {
      data := new real[capacity](_ => 0.0);
      write, read := 0, 0;
    }

    method Len() returns (n: nat)
      requires Valid()
      ensures n == |Contents()|
    {
      n := (write + data.Length - read) % data.Length;
    }

    method PutSample(x: real)
      requires Valid()
      modifies this`write, data
      ensures Valid() && State() == Put(old(State()), x)
    {
      ghost var slots := data[..][write := x];
      data[write % data.Length] := x;
      assert data[..] == slots;
      write := Ring.At(write + 1, data.Length);
    }

    method PushSlice(samples: seq<real>)
      requires Valid()
      modifies this`write, data
      ensures Valid()
      ensures State() == Pushed(old(State()), samples)
    {
      var i := 0;
      while i < |samples|
        invariant 0 <= i <= |samples| && Valid()
        invariant State() == Pushed(old(State()), samples[..i])
      {
        assert samples[..i + 1][..i] == samples[..i];
        PutSample(samples[i]);
        i := i + 1;
      }
      assert samples[..i] == samples;
    }

    /** Copies a frame from slot `start` on, in two parts when it wraps. */
    method CopyFrame(dest: array<real>, start: nat)
      requires dest != data && dest.Length == FRAME_SIZE < data.Length && start < data.Length
      modifies dest
      ensures forall k :: 0 <= k < FRAME_SIZE ==> dest[k] == data[Ring.At(start + k, data.Length)]
    {
      var cap := data.Length;
      if start + FRAME_SIZE <= cap {
        forall k | 0 <= k < FRAME_SIZE {
          dest[k] := data[start + k];
        }
      } else {
        var first := cap - start;
        forall k | 0 <= k < first {
          dest[k] := data[start + k];
        }
        forall k | first <= k < FRAME_SIZE {
          dest[k] := data[k - first];
        }
      }
    }

    method ReadFrame(dest: array<real>) returns (ok: bool)
      requires Valid() && dest != data && dest.Length == FRAME_SIZE
      modifies this`read, dest
      ensures Valid()
      ensures ok == (|old(Contents())| >= FRAME_SIZE)
      ensures ok ==> dest[..] + Contents() == old(Contents())
      ensures !ok ==> dest[..] == old(dest[..]) && Contents() == old(Contents())
    {
      var available := Len();
      if available < FRAME_SIZE {
        return false;
      }
      var start := read;
      ghost var was := Contents();
      CopyFrame(dest, start);
      assert dest[..] == was[..FRAME_SIZE];
      Ring.DropFront(data[..], start, write, FRAME_SIZE);
      read := Ring.At(start + FRAME_SIZE, data.Length);
      assert was[..FRAME_SIZE] + was[FRAME_SIZE..] == was;
      return true;
    }

    /** A frame as a value, or none. */
    method TakeFrame(frame: array<real>) returns (taken: seq<seq<real>>)
      requires Valid() && frame != data && frame.Length == FRAME_SIZE
      modifies this`read, frame
      ensures Valid()
      ensures TakenFrom(taken, Contents(), old(Contents()))
      ensures AllFrames(taken) && (taken == [] ==> |Contents()| < FRAME_SIZE)
    {
      var ok := ReadFrame(frame);
      taken := if ok then [frame[..]] else [];
    }

    /** The loop that reads frames while a whole one is available. */
    method ReadFrames() returns (frames: seq<seq<real>>)
      requires Valid()
      modifies this`read
      ensures Valid() && |Contents()| < FRAME_SIZE
      ensures AllFrames(frames)
      ensures Flatten(frames) + Contents() == old(Contents())
    {
      frames := [];
      var frame := new real[FRAME_SIZE];
      ghost var all := Contents();
      assert Flatten([]) + all == all;
      var next := TakeFrame(frame);
      MoreTaken([], next, Contents(), all, all);
      ghost var read := [] + next;
      while next != []
        modifies this`read, frame
        invariant Valid() && (next == [] ==> |Contents()| < FRAME_SIZE) && |next| <= 1
        invariant read == frames + next && AllFrames(read) && Flatten(read) + Contents() == all
        decreases |Contents()| + |next|
      {
        frames := frames + next;
        ghost var before := Contents();
        next := TakeFrame(frame);
        MoreTaken(read, next, Contents(), before, all);
        read := read + next;
      }
      assert read == frames;
    }

    /** One capture callback: push the device's samples, then read frames. A delivery that does not fit loses
        whole ringfuls. */
    method Callback(samples: seq<real>) returns (frames: seq<seq<real>>)
      requires Valid()
      modifies this, data
      ensures Valid() && |Contents()| < FRAME_SIZE
      ensures AllFrames(frames)
      ensures var all := old(Contents()) + samples;
              && Flatten(frames) + Contents() == all[|all| - Residue(|all|, data.Length)..]
              && (|all| < data.Length ==> Flatten(frames) + Contents() == all)
    {
      PushedKeepsRemainder(State(), samples);
      PushSlice(samples);
      frames := ReadFrames();
    }

    /** Any number of callbacks, each at most three frames long, on the ring the engine builds
        (four frames long): the frames read, followed by a residual shorter than a frame, are
        all the samples ever delivered, in order. */
    method CaptureAll(deliveries: seq<seq<real>>) returns (frames: seq<seq<real>>)
      requires Valid() && Contents() == [] && data.Length == 4 * FRAME_SIZE
      requires forall i :: 0 <= i < |deliveries| ==> |deliveries[i]| <= 3 * FRAME_SIZE
      modifies this, data
      ensures Valid() && |Contents()| < FRAME_SIZE
      ensures AllFrames(frames)
      ensures Flatten(frames) + Contents() == Flatten(deliveries)
    {
      frames := [];
      var i := 0;
      while i < |deliveries|
        invariant 0 <= i <= |deliveries| && Valid() && |Contents()| < FRAME_SIZE
        invariant AllFrames(frames)
        invariant Flatten(frames) + Contents() == Flatten(deliveries[..i])
      {
        ghost var residual := Contents();
        var more := Callback(deliveries[i]);
        assert deliveries[..i + 1] == deliveries[..i] + [deliveries[i]];
        OneMoreDelivery(frames, residual, deliveries[..i], more, Contents(), deliveries[i]);
        frames := frames + more;
        i := i + 1;
      }
      assert deliveries[..i] == deliveries;
    }
  }

  lemma {:induction false} FlattenConcat<T>(a: seq<seq<T>>, b: seq<seq<T>>)
    ensures Flatten(a + b) == Flatten(a) + Flatten(b)
    decreases |b|
  {
    if b == [] {
      assert a + b == a;
    } else {
      var init, last := b[..|b| - 1], b[|b| - 1];
      assert a + b == (a + init) + [last];
      FlattenAppend(a + init, last);
      FlattenConcat(a, init);
    }
  }

  /** Three frames is the longest delivery that always fits: with one sample more and a residual
      of one sample short of a frame, the ring no longer holds everything. */
  lemma ThreeFramesIsTight(s: RingState, samples: seq<real>)
    requires s.Valid() && |s.data| == 4 * FRAME_SIZE && |s.Contents()| == FRAME_SIZE - 1
    ensures (Pushed(s, samples).Contents() == s.Contents() + samples) <==> |samples| <= 3 * FRAME_SIZE
  {
    PushKeepsFifoIffItFits(s, samples);
  }
}
