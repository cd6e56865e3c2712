/** Clip playback into callback buffers (crates/audio_core/src/feedback.rs, lines 261-296, 397-403 and
    427-465). */
module ClipPlayback {
  import opened Common

  type Clip = seq<real>

  /** What one buffer of n samples receives from a clip at cursor `pos` (1-based, 0 idle), and the
      cursor afterwards. */
  function Take(clip: Clip, pos: nat, n: nat): (Clip, nat) {
    if pos == 0 then ([], 0)
    else
      var start := pos - 1;
      if start >= |clip| then ([], 0)
      else
        var count := Min(n, |clip| - start);
        (clip[start..start + count], if start + count + 1 > |clip| then 0 else (start + count + 1) % TWO32)
  }

  /** The adding loop and the cursor update shared by both players. */
  method MixClip(clip: Clip, pos: nat, dest: array<real>) returns (pos': nat)
    modifies dest
    ensures var (added, next) := Take(clip, pos, dest.Length);
            && pos' == next
            && |added| <= dest.Length
            && (forall i :: 0 <= i < dest.Length ==>
                  dest[i] == old(dest[i]) + (if i < |added| then added[i] else 0.0))
  {
    if pos == 0 {
      return 0;
    }
    var start := pos - 1;
    if start >= |clip| {
      return 0;
    }
    var remaining := |clip| - start;
    var count := Min(dest.Length, remaining);
    var i := 0;
    while i < count
      invariant 0 <= i <= count
      invariant forall k :: 0 <= k < dest.Length ==>
                  dest[k] == old(dest[k]) + (if k < i then clip[start + k] else 0.0)
    {
      dest[i] := dest[i] + clip[start + i];
      i := i + 1;
    }
    var newPos := start + count + 1;
    pos' := if newPos > |clip| then 0 else newPos % TWO32;
  }

  class SoundboardPlayback {
    const clips: seq<Clip>
    var activeClip: U32
    var cursor: U32

    constructor (clips: seq<Clip>)
      ensures this.clips == clips && cursor == 0
    {
      this.clips := clips;
      activeClip, cursor := 0xFFFF_FFFF, 0;
    }

    /** `Soundboard::play` on the shared cells: starts a clip of the soundboard's own list, which may be longer or
        shorter by now than the callback's; an index beyond that list changes nothing. */
    method Play(index: nat, clipCount: nat)
      modifies this
      ensures if index < clipCount then activeClip == index % TWO32 && cursor == 1
              else activeClip == old(activeClip) && cursor == old(cursor)
    {
      if index < clipCount {
        activeClip := index % TWO32;
        cursor := 1;
      }
    }

    method MixInto(dest: array<real>)
      modifies this`cursor, dest
      ensures var clip := if activeClip < |clips| then clips[activeClip] else [];
              var (added, next) := Take(clip, old(cursor), dest.Length);
              && cursor == next && |added| <= dest.Length
              && (forall i :: 0 <= i < dest.Length ==>
                    dest[i] == old(dest[i]) + (if i < |added| then added[i] else 0.0))
    {
      var pos := cursor;
      if pos == 0 {
        return;
      }
      if activeClip >= |clips| {
        cursor := 0;
        return;
      }
      cursor := MixClip(clips[activeClip], pos, dest);
    }
  }

  datatype Style = Default | Subtle | Chime

  class FeedbackPlayback {
    const tones: seq<Clip>
    const subtleTones: seq<Clip>
    const chimeTones: seq<Clip>
    var cursor: U32
    var activeTone: U32
    var style: Style

    ghost predicate Valid() {
      |tones| == |subtleTones| == |chimeTones| == 7
    }

    function Tone(): Clip
      requires Valid() && activeTone < 7
      reads this
    {
      match style
      case Subtle => subtleTones[activeTone]
      case Chime => chimeTones[activeTone]
      case Default => tones[activeTone]
    }

    constructor (tones: seq<Clip>, subtleTones: seq<Clip>, chimeTones: seq<Clip>, style: Style)
      requires |tones| == |subtleTones| == |chimeTones| == 7
      ensures Valid() && cursor == 0
    {
      this.tones, this.subtleTones, this.chimeTones := tones, subtleTones, chimeTones;
      cursor, activeTone, this.style := 0, 0, style;
    }

    /** A tone index out of range leaves even the cursor alone. */
    method MixInto(dest: array<real>)
      requires Valid()
      modifies this`cursor, dest
      ensures if old(cursor) == 0 || activeTone >= 7 then
                cursor == old(cursor) && dest[..] == old(dest[..])
              else
                var clips := match style case Subtle => subtleTones case Chime => chimeTones case Default => tones;
                var (added, next) := Take(clips[activeTone], old(cursor), dest.Length);
                && cursor == next && |added| <= dest.Length
                && (forall i :: 0 <= i < dest.Length ==>
                      dest[i] == old(dest[i]) + (if i < |added| then added[i] else 0.0))
    {
      var pos := cursor;
      if pos == 0 || activeTone >= 7 {
        return;
      }
      cursor := MixClip(Tone(), pos, dest);
    }
  }

  // ---- any buffer sizes ---------------------------------------------------------------------------

  /** Everything added by callbacks with these buffer lengths after the cursor was set to 1, and the
      cursor they leave. */
  function TakeAll(clip: Clip, lengths: seq<nat>): (Clip, nat) {
    if lengths == [] then ([], 1)
    else
      var (added, pos) := TakeAll(clip, lengths[..|lengths| - 1]);
      var (more, next) := Take(clip, pos, lengths[|lengths| - 1]);
      (added + more, next)
  }

  function Sum(lengths: seq<nat>): nat {
    if lengths == [] then 0 else Sum(lengths[..|lengths| - 1]) + lengths[|lengths| - 1]
  }

  /** Playback does not depend on how the callbacks cut up time: after any buffers the samples added are
      the clip's prefix of their total length, each sample once, and the cursor is idle exactly when the
      clip has ended. */
  lemma {:induction false} PlaybackIsTheClipsPrefix(clip: Clip, lengths: seq<nat>)
    requires |clip| < TWO32
    ensures var (added, pos) := TakeAll(clip, lengths);
            && added == clip[..Min(Sum(lengths), |clip|)]
            && (lengths != [] ==> (pos == 0 <==> Sum(lengths) >= |clip|))
            && (pos != 0 ==> pos == Sum(lengths) + 1)
  {
    if lengths != [] {
      var init, n := lengths[..|lengths| - 1], lengths[|lengths| - 1];
      PlaybackIsTheClipsPrefix(clip, init);
      var (added, pos) := TakeAll(clip, init);
      TakeExtends(clip, Sum(init), n, added, pos);
    }
  }

  lemma TakeExtends(clip: Clip, total: nat, n: nat, added: Clip, pos: nat)
    requires |clip| < TWO32 && added == clip[..Min(total, |clip|)]
    requires pos == 0 ==> total >= |clip|
    requires pos != 0 ==> pos == total + 1
    ensures var (more, next) := Take(clip, pos, n);
            && added + more == clip[..Min(total + n, |clip|)]
            && (next == 0 <==> total + n >= |clip|)
            && (next != 0 ==> next == total + n + 1)
  {
    var (more, next) := Take(clip, pos, n);
    if pos != 0 && pos - 1 < |clip| {
      assert added + more == clip[..Min(total + n, |clip|)];
    } else {
      assert added + more == added;
    }
  }

  // ---- `play` while the callback runs --------------------------------------------------------------

  /** Between its two stores: the clip's index is stored, the cursor is not. */
  datatype Player = NotPlaying | ClipStored

  /** The callback's loads of the cursor and of the clip's index, with its buffer's length, before it stores the
      cursor. */
  datatype Callback = Away | HasCursor(pos: nat, n: nat) | HasClip(pos: nat, clip: U32, n: nat)

  /** `heard` is history: what each callback has added, with its clip. */
  datatype Heard = Heard(clip: U32, samples: Clip)

  datatype Shared = Shared(activeClip: U32, cursor: U32, player: Player, callback: Callback, heard: seq<Heard>)

  datatype Action = StartPlay(index: U32) | FinishPlay | StartCallback(n: nat) | CallbackStep

  function ClipOf(clips: seq<Clip>, index: U32): Clip {
    if index < |clips| then clips[index] else []
  }

  function Step(clips: seq<Clip>, s: Shared, a: Action): Shared {
    match a
    case StartPlay(index) =>
      if s.player.NotPlaying? then s.(activeClip := index, player := ClipStored) else s
    case FinishPlay =>
      if s.player.ClipStored? then s.(cursor := 1, player := NotPlaying) else s
    case StartCallback(n) =>
      if s.callback.Away? && s.cursor != 0 then s.(callback := HasCursor(s.cursor, n)) else s
    case CallbackStep =>
      match s.callback
      case Away => s
      case HasCursor(pos, n) => s.(callback := HasClip(pos, s.activeClip, n))
      case HasClip(pos, clip, n) =>
        var (added, next) := Take(ClipOf(clips, clip), pos, n);
        s.(cursor := next % TWO32, callback := Away, heard := s.heard + [Heard(clip, added)])
  }

  /** The callback runs to its end with nothing in between. */
  function Settled(clips: seq<Clip>, s: Shared): Shared {
    Step(clips, Step(clips, s, CallbackStep), CallbackStep)
  }

  /** Whole callbacks, one after another, with buffers of these lengths. */
  function Callbacks(clips: seq<Clip>, s: Shared, lengths: seq<nat>): Shared {
    if lengths == [] then s
    else
      Settled(clips, Step(clips, Callbacks(clips, s, lengths[..|lengths| - 1]), StartCallback(lengths[|lengths| - 1])))
  }

  function Samples(heard: seq<Heard>): Clip {
    if heard == [] then [] else Samples(heard[..|heard| - 1]) + heard[|heard| - 1].samples
  }

  /** Whether a callback that has loaded the cursor leaves it at the first sample: it found it there, has no room
      for a single sample, and the clip it loads or will load is not empty. */
  predicate LeavesFirst(clips: seq<Clip>, s: Shared)
    requires !s.callback.Away?
  {
    var clip := if s.callback.HasCursor? then s.activeClip else s.callback.clip;
    s.callback.pos == 1 && s.callback.n == 0 && ClipOf(clips, clip) != []
  }

  lemma SettledCursor(clips: seq<Clip>, s: Shared)
    requires !s.callback.Away? && s.callback.pos > 0
    requires forall k :: 0 <= k < |clips| ==> |clips[k]| < TWO32
    ensures Settled(clips, s).callback.Away?
    ensures Settled(clips, s).cursor == 1 <==> LeavesFirst(clips, s)
  {
    var clip := if s.callback.HasCursor? then s.activeClip else s.callback.clip;
    var (_, next) := Take(ClipOf(clips, clip), s.callback.pos, s.callback.n);
    assert next < TWO32;
  }

  function Steps(clips: seq<Clip>, s: Shared, actions: seq<Action>): Shared {
    if actions == [] then s
    else Step(clips, Steps(clips, s, actions[..|actions| - 1]), actions[|actions| - 1])
  }

  /** Whatever the callback does between the two stores of `play`, both take effect, and a callback under way has
      loaded a cursor that was not idle. */
  lemma {:induction false} PlayStoresBoth(clips: seq<Clip>, s: Shared, index: U32, between: seq<Action>)
    requires s.player.NotPlaying? && (!s.callback.Away? ==> s.callback.pos > 0)
    requires forall a :: a in between ==> a.StartCallback? || a.CallbackStep?
    ensures var t := Steps(clips, Step(clips, s, StartPlay(index)), between);
            && t.player.ClipStored? && t.activeClip == index && (!t.callback.Away? ==> t.callback.pos > 0)
            && Step(clips, t, FinishPlay) == t.(cursor := 1, player := NotPlaying)
  {
    if between != [] {
      PlayStoresBoth(clips, s, index, between[..|between| - 1]);
      assert between[|between| - 1] in between;
    }
  }

  /** When `play` stores the cursor, the clip starts at its first sample if and only if no callback is between its
      load and its store of the cursor, or one is that leaves the cursor where it found it, at the first
      sample. Otherwise the callback's store wins and the start is lost. */
  lemma PlayIsHeardIffNoCallbackBetween(clips: seq<Clip>, s: Shared)
    requires s.player.ClipStored? && (!s.callback.Away? ==> s.callback.pos > 0)
    requires forall k :: 0 <= k < |clips| ==> |clips[k]| < TWO32
    ensures var after := Settled(clips, Step(clips, s, FinishPlay));
            && after.callback.Away?
            && (after.cursor == 1 <==> s.callback.Away? || LeavesFirst(clips, s))
            && after.activeClip == s.activeClip
  {
    if !s.callback.Away? {
      SettledCursor(clips, Step(clips, s, FinishPlay));
    }
  }

  /** From then on the callbacks, whatever their lengths, add the clip's prefix of their total length. */
  lemma {:induction false} StartedClipIsHeard(clips: seq<Clip>, s: Shared, lengths: seq<nat>)
    requires s.callback.Away? && s.cursor == 1 && s.heard == []
    requires |ClipOf(clips, s.activeClip)| < TWO32
    ensures var clip, after := ClipOf(clips, s.activeClip), Callbacks(clips, s, lengths);
            && after.callback.Away? && after.activeClip == s.activeClip
            && after.cursor == TakeAll(clip, lengths).1
            && Samples(after.heard) == clip[..Min(Sum(lengths), |clip|)]
  {
    var clip := ClipOf(clips, s.activeClip);
    PlaybackIsTheClipsPrefix(clip, lengths);
    if lengths != [] {
      var init, n := lengths[..|lengths| - 1], lengths[|lengths| - 1];
      StartedClipIsHeard(clips, s, init);
      PlaybackIsTheClipsPrefix(clip, init);
      OneMoreCallback(clips, Callbacks(clips, s, init), n);
    }
  }

  lemma OneMoreCallback(clips: seq<Clip>, s: Shared, n: nat)
    requires s.callback.Away? && |ClipOf(clips, s.activeClip)| < TWO32
    ensures var (added, next) := Take(ClipOf(clips, s.activeClip), s.cursor, n);
            var after := Settled(clips, Step(clips, s, StartCallback(n)));
            && after.callback.Away? && after.activeClip == s.activeClip && after.cursor == next
            && Samples(after.heard) == Samples(s.heard) + added
  {
    var (added, _) := Take(ClipOf(clips, s.activeClip), s.cursor, n);
    var more := s.heard + [Heard(s.activeClip, added)];
    assert more[..|s.heard|] == s.heard;
    assert Samples(s.heard) + [] == Samples(s.heard);
  }
}
