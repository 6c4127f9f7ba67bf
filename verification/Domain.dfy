/** Runtime-independent values shared by every stage of the pipeline
    (speaktap/domain.py). A value is what the Python constructor was given;
    Valid() is what its __post_init__ checks. */
module Domain {

  datatype Option<+T> = None | Some(value: T)

  newtype byte = b: int | 0 <= b < 256

  datatype CutReason = Silence | ForcedMax | Stop

  /** One timestamped PCM frame. durationMs is the computed property of the same
      name; Measured() ties it to the PCM, so only frames that last a whole number
      of milliseconds are represented (at 16 kHz every configured frame does). */
  datatype AudioFrame = AudioFrame(pcm: seq<byte>, sampleRate: int, channels: int,
                                   startMs: int, durationMs: int)
  {
    predicate Valid() {
      && sampleRate > 0
      && channels > 0
      && startMs >= 0
      && |pcm| > 0
      && |pcm| % (2 * channels) == 0
    }

    predicate Measured()
      requires Valid()
    {
      SampleCount() * 1000 == durationMs * sampleRate
    }

    function SampleCount(): nat
      requires Valid()
    {
      |pcm| / (2 * channels)
    }

    function EndMs(): int {
      startMs + durationMs
    }
  }

  /** A finalized, ordered unit of audio for the transcriber. */
  datatype AudioChunk = AudioChunk(sessionId: string, sequence: int, pcm: seq<byte>,
                                   sampleRate: int, channels: int, startMs: int, endMs: int,
                                   speechMs: int, reason: CutReason, overlapMs: int)
  {
    function DurationMs(): int {
      endMs - startMs
    }

    predicate Valid() {
      && sessionId != ""
      && sequence >= 0
      && pcm != []
      && sampleRate > 0 && channels > 0
      && startMs >= 0 && endMs > startMs
      && 0 <= speechMs <= DurationMs()
      && 0 <= overlapMs < DurationMs()
    }
  }

  /** What the transcriber made of one chunk. rawText is given as the words it splits
      into; a failed chunk has no words and an error. */
  datatype TranscriptChunk = TranscriptChunk(sessionId: string, sequence: int,
                                             audioStartMs: int, audioEndMs: int, reason: CutReason,
                                             words: seq<string>, asrDurationMs: int, speechMs: int,
                                             overlapMs: int, queueWaitMs: int, error: Option<string>)
  {
    predicate Valid() {
      && sessionId != ""
      && sequence >= 0
      && audioStartMs >= 0 && audioEndMs > audioStartMs
      && 0 <= speechMs <= audioEndMs - audioStartMs
      && 0 <= overlapMs < audioEndMs - audioStartMs
      && asrDurationMs >= 0 && queueWaitMs >= 0
    }
  }

  /** The comparison forms of words. */
  function Keys(norm: string -> string, words: seq<string>): (keys: seq<string>)
    ensures |keys| == |words|
    ensures forall i :: 0 <= i < |words| ==> keys[i] == norm(words[i])
  {
    seq(|words|, i requires 0 <= i < |words| => norm(words[i]))
  }

  function Min(a: int, b: int): int { if a <= b then a else b }

  function Max(a: int, b: int): int { if a <= b then b else a }

  // ---------------------------------------------------------------- positions in a list

  /** at lists, in order, exactly the positions where mask holds. */
  predicate Positions(mask: seq<bool>, at: seq<int>) {
    && (forall i, j :: 0 <= i < j < |at| ==> at[i] < at[j])
    && (forall i :: 0 <= i < |at| ==> 0 <= at[i] < |mask| && mask[at[i]])
    && (forall p :: 0 <= p < |mask| && mask[p] ==> p in at)
  }

  lemma PositionsOneMore(mask: seq<bool>, last: bool, at: seq<int>)
    requires Positions(mask, at)
    ensures Positions(mask + [last], if last then at + [|mask|] else at)
  {
    var more := if last then at + [|mask|] else at;
    assert forall i :: 0 <= i < |at| ==> more[i] == at[i];
    forall p | 0 <= p < |mask| + 1 && (mask + [last])[p] ensures p in more {
      if p < |mask| {
        assert p in at;
      } else {
        assert more[|at|] == p;
      }
    }
  }

  lemma LastPosition(mask: seq<bool>, at: seq<int>)
    requires mask != [] && mask[|mask| - 1] && Positions(mask, at)
    ensures at != [] && at[|at| - 1] == |mask| - 1
  {
    var k :| 0 <= k < |at| && at[k] == |mask| - 1;
    assert at[k] <= at[|at| - 1];
  }

  lemma PositionsOneLess(mask: seq<bool>, at: seq<int>)
    requires mask != [] && Positions(mask, at)
    ensures var n := |mask| - 1;
            if mask[n] then at != [] && at[|at| - 1] == n && Positions(mask[..n], at[..|at| - 1])
            else Positions(mask[..n], at)
  {
    var n := |mask| - 1;
    if mask[n] {
      LastPosition(mask, at);
      var less := at[..|at| - 1];
      assert at == less + [n];
      assert forall p :: p in at <==> p in less || p == n;
    }
  }

  /** A mask has only one such list. */
  lemma {:induction false} PositionsUnique(mask: seq<bool>, a: seq<int>, b: seq<int>)
    requires Positions(mask, a) && Positions(mask, b)
    ensures a == b
    decreases |mask|
  {
    if mask != [] {
      var n := |mask| - 1;
      PositionsOneLess(mask, a);
      PositionsOneLess(mask, b);
      if mask[n] {
        PositionsUnique(mask[..n], a[..|a| - 1], b[..|b| - 1]);
        assert a == a[..|a| - 1] + [n] && b == b[..|b| - 1] + [n];
      } else {
        PositionsUnique(mask[..n], a, b);
      }
    }
  }
}
