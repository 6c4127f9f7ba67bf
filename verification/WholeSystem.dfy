/** From the bytes of a recording to its text: capture, segmentation, the threaded
    session and assembly joined. */
module WholeSystem {
  import opened Domain
  import opened Segmentation
  import opened SegmentationRuns
  import opened Capture
  import opened Pipeline
  import PipelineLaws
  import PipelineRuns
  import SegmentationLaws
  import SpeechLaws
  import ChunkContents
  import opened Overlaps
  import EndToEnd

  const SAMPLE_RATE: nat := 16000

  /** The frames with the detector's verdict on each. */
  function Detected(frames: seq<AudioFrame>, isSpeech: AudioFrame -> bool): (s: seq<Item>)
    ensures |s| == |frames|
    ensures forall i :: 0 <= i < |s| ==> s[i] == Item(frames[i], isSpeech(frames[i]))
  {
    seq(|frames|, i requires 0 <= i < |frames| => Item(frames[i], isSpeech(frames[i])))
  }

  lemma FrameSize(frameMs: nat)
    ensures FrameBytes(SAMPLE_RATE, frameMs) == 32 * frameMs
  {
  }

  lemma FrameIsMeasured(pcm: seq<byte>, frameMs: nat, sequence: nat)
    requires frameMs > 0 && |pcm| == 32 * frameMs
    ensures var f := Frame(pcm, SAMPLE_RATE, frameMs, sequence);
            f.Valid() && f.Measured()
  {
    assert sequence * frameMs >= 0;
    assert |pcm| == 2 * (16 * frameMs);
  }

  /** At 16 kHz every captured frame is valid, lasts exactly the configured milliseconds
      and starts where the one before it ends. */
  lemma {:induction false} CapturedFrames(bytes: seq<byte>, frameMs: nat, sequence: nat, i: nat)
    requires frameMs > 0
    requires i < |FramesOf(bytes, SAMPLE_RATE, frameMs, sequence)|
    ensures var f := FramesOf(bytes, SAMPLE_RATE, frameMs, sequence)[i];
            && f.Valid() && f.Measured() && f.durationMs == frameMs && f.startMs == (sequence + i) * frameMs
            && f.sampleRate == SAMPLE_RATE && f.channels == 1
    decreases i
  {
    FrameSize(frameMs);
    var n := FrameBytes(SAMPLE_RATE, frameMs);
    if i == 0 {
      FrameIsMeasured(bytes[..n], frameMs, sequence);
    } else {
      CapturedFrames(bytes[n..], frameMs, sequence + 1, i - 1);
    }
  }

  lemma CapturedIsSteady(bytes: seq<byte>, frameMs: nat, isSpeech: AudioFrame -> bool)
    requires frameMs > 0
    ensures SegmentationLaws.Steady(Detected(FramesOf(bytes, SAMPLE_RATE, frameMs, 0), isSpeech), frameMs)
  {
    var frames := FramesOf(bytes, SAMPLE_RATE, frameMs, 0);
    forall i | 0 <= i < |frames|
      ensures frames[i].Valid() && frames[i].durationMs == frameMs && frames[i].startMs == i * frameMs
    {
      CapturedFrames(bytes, frameMs, 0, i);
    }
    forall i | 0 < i < |frames| ensures frames[i].startMs == frames[i - 1].EndMs() {
      assert i * frameMs == (i - 1) * frameMs + frameMs;
    }
  }

  // ---------------------------------------------------------------- the audio that is transcribed

  lemma Successor(i: nat, n: nat)
    requires i > 0
    ensures (i - 1) * n + n == i * n && i * n + n == (i + 1) * n && (i - 1) * n >= 0
  {
  }

  lemma SliceOfRest(bytes: seq<byte>, n: nat, lo: nat, hi: nat)
    requires n <= |bytes| && lo <= hi <= |bytes| - n
    ensures bytes[n..][lo..hi] == bytes[lo + n..hi + n]
  {
  }

  /** Frame i of a recording holds its bytes number i * n to (i + 1) * n. */
  lemma {:induction false} FrameHolds(bytes: seq<byte>, frameMs: nat, sequence: nat, i: nat)
    requires frameMs > 0 && i < |FramesOf(bytes, SAMPLE_RATE, frameMs, sequence)|
    ensures 0 <= i * (32 * frameMs) <= (i + 1) * (32 * frameMs) <= |bytes|
    ensures FramesOf(bytes, SAMPLE_RATE, frameMs, sequence)[i].pcm
         == bytes[i * (32 * frameMs)..(i + 1) * (32 * frameMs)]
    decreases i
  {
    FrameSize(frameMs);
    var n := 32 * frameMs;
    if i > 0 {
      FrameHolds(bytes[n..], frameMs, sequence + 1, i - 1);
      Successor(i, n);
      SliceOfRest(bytes, n, (i - 1) * n, i * n);
    }
  }

  /** s is the start of a recording. */
  ghost predicate IsRecorded(s: seq<Item>, bytes: seq<byte>, frameMs: nat)
    requires frameMs > 0
  {
    && SpeechLaws.Uniform(s, frameMs)
    && forall i :: 0 <= i < |s| ==> RecordedAt(s[i].frame, bytes, frameMs, i)
  }

  predicate RecordedAt(f: AudioFrame, bytes: seq<byte>, frameMs: nat, i: nat) {
    var n := 32 * frameMs;
    && 0 <= i * n <= (i + 1) * n <= |bytes| && f.pcm == bytes[i * n..(i + 1) * n]
    && f.startMs == i * frameMs && f.durationMs == frameMs
    && f.sampleRate == SAMPLE_RATE && f.channels == 1
  }

  lemma CapturedIsRecorded(bytes: seq<byte>, frameMs: nat, isSpeech: AudioFrame -> bool)
    requires frameMs > 0
    ensures IsRecorded(Detected(FramesOf(bytes, SAMPLE_RATE, frameMs, 0), isSpeech), bytes, frameMs)
  {
    CapturedIsSteady(bytes, frameMs, isSpeech);
    var s := Detected(FramesOf(bytes, SAMPLE_RATE, frameMs, 0), isSpeech);
    hide FramesOf, SegmentationLaws.Steady;
    forall i | 0 <= i < |s|
      ensures s[i].frame.durationMs == frameMs && s[i].frame.Valid() && s[i].frame.Measured()
      ensures RecordedAt(s[i].frame, bytes, frameMs, i)
    {
      FrameHolds(bytes, frameMs, 0, i);
      CapturedFrames(bytes, frameMs, 0, i);
    }
  }

  lemma RecordedPrefix(s: seq<Item>, bytes: seq<byte>, frameMs: nat, n: nat)
    requires frameMs > 0 && n <= |s| && IsRecorded(s, bytes, frameMs)
    ensures IsRecorded(s[..n], bytes, frameMs)
  {
    SpeechLaws.UniformSlice(s, frameMs, 0, n);
    assert s[..n] == s[0..n];
    hide SpeechLaws.Uniform, RecordedAt;
  }

  lemma JoinSlices(bytes: seq<byte>, lo: nat, mid: nat, hi: nat)
    requires lo <= mid <= hi <= |bytes|
    ensures bytes[lo..mid] + bytes[mid..hi] == bytes[lo..hi]
  {
  }

  /** The joined audio of frames lo..hi is the stretch of the recording they came from. */
  lemma {:induction false} RecordedPcm(s: seq<Item>, bytes: seq<byte>, frameMs: nat, lo: nat, hi: nat)
    requires frameMs > 0 && IsRecorded(s, bytes, frameMs) && lo < hi <= |s|
    ensures var n := 32 * frameMs;
            0 <= lo * n <= hi * n <= |bytes| && Pcm(s[lo..hi]) == bytes[lo * n..hi * n]
    decreases hi
  {
    var n := 32 * frameMs;
    assert RecordedAt(s[hi - 1].frame, bytes, frameMs, hi - 1);
    ChunkContents.PcmLast(s[lo..hi]);
    assert s[lo..hi][..hi - 1 - lo] == s[lo..hi - 1];
    if lo == hi - 1 {
      NoPcm();
      assert s[lo..lo] == [] && [] + s[lo].frame.pcm == s[lo].frame.pcm;
    } else {
      RecordedPcm(s, bytes, frameMs, lo, hi - 1);
      hide Pcm, IsRecorded;
      JoinSlices(bytes, lo * n, (hi - 1) * n, hi * n);
    }
  }

  lemma NoPcm()
    ensures Pcm([]) == []
  {
  }

  /** chunk holds exactly the bytes of frames lo..hi of the recording, and their times. */
  predicate HoldsStretch(chunk: AudioChunk, bytes: seq<byte>, frameMs: nat, lo: int, hi: int) {
    var n := 32 * frameMs;
    && 0 <= lo * n <= hi * n <= |bytes| && chunk.pcm == bytes[lo * n..hi * n]
    && chunk.startMs == lo * frameMs && chunk.endMs == hi * frameMs
    && chunk.sampleRate == SAMPLE_RATE && chunk.channels == 1
  }

  /** The chunks of a recording hold the bytes between their ends, and all the rest that
      their frames determine. */
  lemma ChunkHoldsBytes(c: Config, s: seq<Item>, bytes: seq<byte>, frameMs: nat, id: string, k: nat)
    requires frameMs > 0 && IsRecorded(s, bytes, frameMs) && k < |Session(c, s)|
    ensures var span, chunk := SegmentationLaws.SpanOf(c, s, k), ChunkOf(id, Session(c, s)[k]);
            && HoldsStretch(chunk, bytes, frameMs, span.lo, span.hi)
            && ChunkContents.IsChunkOf(s, frameMs, id, k, Session(c, s)[k].reason,
                                       ChunkContents.RepeatedFrames(c, frameMs, Session(c, s), k), span, chunk)
  {
    hide Session, SegmentationLaws.SpanOf, Pcm, ChunkContents.RepeatedFrames, ChunkContents.SpeechIn;
    var span := SegmentationLaws.SpanOf(c, s, k);
    ChunkContents.ChunkCarries(c, s, frameMs, id, k);
    RecordedPcm(s, bytes, frameMs, span.lo, span.hi);
    assert RecordedAt(s[span.lo].frame, bytes, frameMs, span.lo);
    assert RecordedAt(s[span.hi - 1].frame, bytes, frameMs, span.hi - 1);
    Successor(span.hi, frameMs);
    hide RecordedAt, IsRecorded;
  }

  /** What the transcriber was given, in any interleaving: the chunks it took are those
      stretches of the recording, in order. */
  lemma TranscribedAudio(env: Env, bytes: seq<byte>, frameMs: nat, isSpeech: AudioFrame -> bool,
                         acts: seq<Action>, t: SessionState, k: nat)
    requires frameMs > 0
    requires Runs(env, Start(Detected(FramesOf(bytes, SAMPLE_RATE, frameMs, 0), isSpeech)), acts, t)
    requires !t.cancelling && (t.caller.Building? || t.caller.Returned?) && k < |t.taken|
    ensures |t.taken| == |Session(env.config, t.pushed)| && t.taken[k].sequence == k
    ensures var span := SegmentationLaws.SpanOf(env.config, t.pushed, k);
            HoldsStretch(t.taken[k], bytes, frameMs, span.lo, span.hi)
  {
    hide Runs, Session, FramesOf, SegmentationLaws.SpanOf, IsRecorded, HoldsStretch, ChunkOf;
    var frames := Detected(FramesOf(bytes, SAMPLE_RATE, frameMs, 0), isSpeech);
    PipelineRuns.StopDelivers(env, frames, acts, t);
    CapturedIsRecorded(bytes, frameMs, isSpeech);
    RecordedPrefix(frames, bytes, frameMs, |t.pushed|);
    assert frames[..|t.pushed|] == t.pushed;
    ChunkHoldsBytes(env.config, t.pushed, bytes, frameMs, env.sessionId, k);
  }

  /** Record any bytes, let the threads interleave in any way, and stop: every transcript
      is valid, and when capture failed stop raises. With an ideal transcriber stop returns
      exactly the words spoken in the frames captured if and only if capture did not fail
      and, when no chunk repeats more words than the assembler compares, nothing spoken
      looks like a longer repeat; when all words are distinct, if and only if capture did
      not fail and no chunk repeats more words than that. Sparse speech never does. */
  lemma BytesToText(env: Env, bytes: seq<byte>, frameMs: nat, isSpeech: AudioFrame -> bool,
                    say: Item -> seq<string>, acts: seq<Action>, t: SessionState)
    requires frameMs > 0 && env.sessionId != ""
    requires Runs(env, Start(Detected(FramesOf(bytes, SAMPLE_RATE, frameMs, 0), isSpeech)), acts, t)
    requires t.caller.Returned? && !t.cancelling
    requires PipelineRuns.Ideal(env, t.pushed, say)
    ensures t.pushed <= Detected(FramesOf(bytes, SAMPLE_RATE, frameMs, 0), isSpeech)
    ensures forall k :: k in t.transcripts ==> t.transcripts[k].Valid()
    ensures EndCapture(true) in acts ==> t.result == Some(CaptureFailed)
    ensures var cuts, spoken := Session(env.config, t.pushed), EndToEnd.Spoken(say, t.pushed);
            var right := t.result == Some(Words(spoken));
            && (EndToEnd.ShortOverlaps(env.config, cuts, say) ==>
                  (right <==> (&& EndCapture(true) !in acts
                               && EndToEnd.NoChanceRepeat(env.config, say, env.norm, t.pushed))))
            && (Distinct(env.norm, spoken) ==>
                  (right <==> EndCapture(true) !in acts && EndToEnd.ShortOverlaps(env.config, cuts, say)))
            && (EndToEnd.Sparse(env.config, frameMs, t.pushed, say) ==>
                  EndToEnd.ShortOverlaps(env.config, cuts, say))
  {
    hide Runs, PipelineRuns.Ideal, Session, FramesOf, Distinct;
    hide EndToEnd.Sparse, EndToEnd.Spoken, EndToEnd.ShortOverlaps, EndToEnd.NoChanceRepeat;
    var frames := Detected(FramesOf(bytes, SAMPLE_RATE, frameMs, 0), isSpeech);
    CapturedIsSteady(bytes, frameMs, isSpeech);
    PipelineRuns.StopDelivers(env, frames, acts, t);
    assert t.pushed == frames[0..|t.pushed|];
    SegmentationLaws.SteadySlice(frames, frameMs, 0, |t.pushed|);
    PipelineRuns.CaptureToText(env, frames, acts, t, say);
    if EndToEnd.Sparse(env.config, frameMs, t.pushed, say) {
      EndToEnd.SparseIsEnough(env.config, t.pushed, frameMs, say);
    }
    ValidTranscripts(env, t, frameMs);
  }

  lemma ValidTranscripts(env: Env, t: SessionState, d: int)
    requires SegmentationLaws.Steady(t.pushed, d) && env.sessionId != ""
    requires PipelineRuns.Complete(env, t, ChunksOf(env.sessionId, Session(env.config, t.pushed)))
    ensures forall k :: k in t.transcripts ==> t.transcripts[k].Valid()
  {
    hide Session, TranscriptOf, ChunkOf;
    forall k | k in t.transcripts ensures t.transcripts[k].Valid() {
      PipelineRuns.TranscriptsAreValid(env, t.pushed, d, k);
    }
  }
}
