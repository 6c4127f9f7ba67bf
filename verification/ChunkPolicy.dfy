/** AdaptiveChunkPolicy, the class of speaktap/segmentation/adaptive.py: the steps of
    module Segmentation carried out on mutable fields. */
module ChunkPolicy {
  import opened Domain
  import opened Segmentation

  /** backwards lists the frames from the last one down to number i. */
  predicate Backwards(frames: seq<Item>, i: nat, backwards: seq<Item>) {
    && |backwards| + i == |frames|
    && forall k :: 0 <= k < |backwards| ==> backwards[k] == frames[|frames| - 1 - k]
  }

  lemma BackwardsReversed(frames: seq<Item>, i: nat, backwards: seq<Item>)
    requires Backwards(frames, i, backwards)
    ensures Reversed(backwards) == frames[i..]
  {
  }

  lemma TotalNothing()
    ensures Total([]) == 0
  {
  }

  lemma RetainNothing(overlapMs: int)
    ensures RetainCount([], overlapMs) == 0
  {
  }

  lemma RetainOneMore(b: seq<Item>, overlapMs: int)
    requires b != []
    ensures var d := b[|b| - 1].frame.durationMs;
            RetainCount(b, overlapMs) == if d >= overlapMs then 1 else 1 + RetainCount(b[..|b| - 1], overlapMs - d)
  {
  }

  class AdaptiveChunkPolicy {
    const config: Config
    var sessionId: string
    var sequence: nat
    var buffer: seq<Item>
    var preRoll: seq<Item>
    var hasSpeech: bool
    var speechAfterOverlap: bool
    var trailingSilenceMs: int
    var prefixOverlapMs: int

    function Fields(): State
      reads this
    {
      State(buffer, preRoll, hasSpeech, speechAfterOverlap, trailingSilenceMs, prefixOverlapMs, sequence)
    }

    constructor (c: Config)
      ensures config == c && sessionId == "" && Fields() == FRESH
    {
      config := c;
      sessionId, sequence, buffer, preRoll := "", 0, [], [];
      hasSpeech, speechAfterOverlap, trailingSilenceMs, prefixOverlapMs := false, false, 0, 0;
    }

    method Reset(session: string)
      modifies this
      ensures sessionId == session && Fields() == FRESH
    {
      sessionId, sequence := session, 0;
      ClearActive();
    }

    method Push(frame: AudioFrame, isSpeech: bool) returns (chunks: seq<AudioChunk>)
      requires Summarised(Fields())
      modifies this
      ensures sessionId == old(sessionId)
      ensures Fields() == Segmentation.Push(config, old(Fields()), Item(frame, isSpeech)).0
      ensures chunks == ChunksOf(sessionId, Segmentation.Push(config, old(Fields()), Item(frame, isSpeech)).1)
    {
      var analyzed := Item(frame, isSpeech);
      if buffer == [] && !isSpeech {
        AppendPreRoll(analyzed);
        return [];
      }
      AcceptSummarised(Fields(), analyzed);
      Accept(analyzed);
      chunks := Decide(frame.durationMs);
    }

    /** The first half of push: the frame enters the active buffer. */
    method Accept(analyzed: Item)
      requires buffer == [] ==> analyzed.isSpeech
      modifies this
      ensures sessionId == old(sessionId)
      ensures Fields() == Segmentation.Accept(old(Fields()), analyzed)
    {
      if buffer == [] {
        buffer := preRoll + [analyzed];
        preRoll := [];
        hasSpeech := true;
        speechAfterOverlap := true;
        RecalculateTrailingSilence();
      } else {
        buffer := buffer + [analyzed];
        hasSpeech := hasSpeech || analyzed.isSpeech;
        speechAfterOverlap := speechAfterOverlap || analyzed.isSpeech;
        trailingSilenceMs := if analyzed.isSpeech then 0 else trailingSilenceMs + analyzed.frame.durationMs;
      }
    }

    /** The second half of push: emit a chunk at the hard limit or at a pause. */
    method Decide(frameMs: int) returns (chunks: seq<AudioChunk>)
      requires Summarised(Fields()) && buffer != []
      modifies this
      ensures sessionId == old(sessionId)
      ensures Fields() == Segmentation.Decide(config, old(Fields()), frameMs).0
      ensures chunks == ChunksOf(sessionId, Segmentation.Decide(config, old(Fields()), frameMs).1)
    {
      var durationMs := Extent(buffer);
      if durationMs >= config.maxMs {
        var chunk := Finalize(ForcedMax, false);
        RetainForcedOverlap();
        return [chunk];
      }
      if durationMs >= config.minMs && hasSpeech
         && SilenceReached(config, durationMs, trailingSilenceMs, frameMs)
      {
        var chunk := Finalize(Silence, true);
        ClearActive();
        return [chunk];
      }
      return [];
    }

    method Finish() returns (chunks: seq<AudioChunk>)
      requires Summarised(Fields())
      modifies this
      ensures sessionId == old(sessionId)
      ensures Fields() == Segmentation.Finish(config, old(Fields())).0
      ensures chunks == ChunksOf(sessionId, Segmentation.Finish(config, old(Fields())).1)
    {
      if buffer == [] || !hasSpeech || (prefixOverlapMs != 0 && !speechAfterOverlap) {
        ClearActive();
        return [];
      }
      var chunk := Finalize(Stop, true);
      ClearActive();
      return [chunk];
    }

    method AppendPreRoll(analyzed: Item)
      modifies this`preRoll
      ensures preRoll == Shorten(old(preRoll) + [analyzed], config.paddingMs)
    {
      preRoll := preRoll + [analyzed];
      while |preRoll| > 1 && Extent(preRoll) > config.paddingMs
        invariant Shorten(preRoll, config.paddingMs) == Shorten(old(preRoll) + [analyzed], config.paddingMs)
        decreases |preRoll|
      {
        preRoll := preRoll[1..];
      }
    }

    method Finalize(reason: CutReason, trimTrailing: bool) returns (chunk: AudioChunk)
      requires buffer != []
      requires trimTrailing ==> AnySpeech(buffer)
      modifies this`sequence
      ensures sequence == old(sequence) + 1
      ensures var selected := if trimTrailing then Trimmed(buffer, config.paddingMs) else buffer;
              selected != [] && chunk == ChunkOf(sessionId, CutOf(old(Fields()), selected, reason))
    {
      var selected := buffer;
      if trimTrailing {
        selected := TrimTrailing(buffer);
      }
      var first := selected[0].frame;
      var last := selected[|selected| - 1].frame;
      var startMs, endMs := first.startMs, last.EndMs();
      var speechMs := Min(endMs - startMs, SpeechTotal(selected));
      var overlapMs := Min(prefixOverlapMs, endMs - startMs - 1);
      chunk := AudioChunk(sessionId, sequence, Pcm(selected), first.sampleRate, first.channels,
                          startMs, endMs, speechMs, reason, Max(0, overlapMs));
      sequence := sequence + 1;
    }

    method TrimTrailing(frames: seq<Item>) returns (kept: seq<Item>)
      requires AnySpeech(frames)
      ensures kept == Trimmed(frames, config.paddingMs) && kept != []
    {
      var end := LastSpeech(frames) + 1;
      var padding := 0;
      while end < |frames| && padding < config.paddingMs
        invariant 0 < end <= |frames|
        invariant PadEnd(frames, end, config.paddingMs - padding)
               == PadEnd(frames, LastSpeech(frames) + 1, config.paddingMs)
      {
        padding := padding + frames[end].frame.durationMs;
        end := end + 1;
      }
      kept := frames[..end];
    }

    method RetainForcedOverlap()
      requires buffer != []
      modifies this
      ensures Fields() == AfterForcedCut(config, old(Fields())).(sequence := old(sequence))
      ensures sessionId == old(sessionId)
    {
      var retained, duration := CollectRetained(buffer);
      buffer := retained;
      prefixOverlapMs := duration;
      hasSpeech := AnySpeech(retained);
      speechAfterOverlap := false;
      RecalculateTrailingSilence();
    }

    /** The reverse scan of _retain_forced_overlap. */
    method CollectRetained(frames: seq<Item>) returns (retained: seq<Item>, duration: int)
      ensures retained == Retained(frames, config.overlapMs)
      ensures duration == Total(retained)
    {
      var overlapMs := config.overlapMs;
      var backwards: seq<Item> := [];
      duration := 0;
      var i := |frames|;
      var done := false;
      assert frames[..i] == frames && frames[i..] == [];
      hide RetainCount, Total;
      TotalNothing();
      while i > 0 && !done
        invariant 0 <= i <= |frames| && Backwards(frames, i, backwards)
        invariant duration == Total(frames[i..])
        invariant |frames| - i + (if done then 0 else RetainCount(frames[..i], overlapMs - duration))
               == RetainCount(frames, overlapMs)
      {
        i := i - 1;
        assert frames[..i + 1][..i] == frames[..i];
        RetainOneMore(frames[..i + 1], overlapMs - duration);
        TotalSuffix(frames, i);
        backwards := backwards + [frames[i]];
        duration := duration + frames[i].frame.durationMs;
        done := duration >= overlapMs;
      }
      RetainNothing(overlapMs - duration);
      BackwardsReversed(frames, i, backwards);
      retained := Reversed(backwards);
    }

    method ClearActive()
      modifies this
      ensures sessionId == old(sessionId) && Fields() == Cleared(old(sequence))
    {
      buffer, preRoll := [], [];
      hasSpeech, speechAfterOverlap := false, false;
      trailingSilenceMs, prefixOverlapMs := 0, 0;
    }

    method RecalculateTrailingSilence()
      modifies this`trailingSilenceMs
      ensures trailingSilenceMs == TrailingSilence(buffer)
    {
      trailingSilenceMs := 0;
      var i := |buffer|;
      assert buffer[..i] == buffer;
      while i > 0 && !buffer[i - 1].isSpeech
        invariant 0 <= i <= |buffer|
        invariant trailingSilenceMs + TrailingSilence(buffer[..i]) == TrailingSilence(buffer)
      {
        assert buffer[..i][..i - 1] == buffer[..i - 1];
        trailingSilenceMs := trailingSilenceMs + buffer[i - 1].frame.durationMs;
        i := i - 1;
      }
    }
  }

  function Reversed<T>(s: seq<T>): (r: seq<T>)
    ensures |r| == |s|
    ensures forall k :: 0 <= k < |s| ==> r[k] == s[|s| - 1 - k]
  {
    if s == [] then [] else Reversed(s[1..]) + [s[0]]
  }
}
