/** What the transcriber is given: the audio, times, speech and overlap of every chunk of a
    session, in terms of the frames pushed. */
module ChunkContents {
  import opened Domain
  import opened Segmentation
  import opened SegmentationRuns
  import opened SegmentationLaws
  import opened SpeechLaws

  // ---------------------------------------------------------------- audio

  /** The bytes of the first n frames, counted. */
  function BytesBefore(b: seq<Item>, n: nat): nat
    requires n <= |b|
  {
    if n == 0 then 0 else BytesBefore(b, n - 1) + |b[n - 1].frame.pcm|
  }

  lemma {:induction false} BytesOfPrefix(b: seq<Item>, m: nat, n: nat)
    requires n <= m <= |b|
    ensures BytesBefore(b[..m], n) == BytesBefore(b, n)
  {
    if n > 0 { BytesOfPrefix(b, m, n - 1); }
  }

  lemma {:induction false} PcmLength(b: seq<Item>)
    ensures |Pcm(b)| == BytesBefore(b, |b|)
    decreases |b|
  {
    if b != [] {
      PcmLength(b[..|b| - 1]);
      BytesOfPrefix(b, |b| - 1, |b| - 1);
    }
  }

  /** pcm holds the bytes of frame i right after those of the frames before it. */
  predicate HoldsFrame(pcm: seq<byte>, b: seq<Item>, i: nat)
    requires i < |b|
  {
    var at := BytesBefore(b, i);
    at + |b[i].frame.pcm| <= |pcm| && pcm[at..at + |b[i].frame.pcm|] == b[i].frame.pcm
  }

  lemma {:induction false} PcmHolds(b: seq<Item>, i: nat)
    requires i < |b|
    ensures HoldsFrame(Pcm(b), b, i)
    decreases |b|
  {
    var p := b[..|b| - 1];
    PcmLength(p);
    BytesOfPrefix(b, |p|, i);
    PcmLast(b);
    if i < |p| {
      PcmHolds(p, i);
      hide Pcm, BytesBefore;
      SliceOfSum(Pcm(p), b[|p|].frame.pcm, BytesBefore(b, i), BytesBefore(b, i) + |b[i].frame.pcm|);
    } else {
      hide Pcm, BytesBefore;
      RestOfSum(Pcm(p), b[i].frame.pcm);
    }
  }

  lemma PcmLast(b: seq<Item>)
    requires b != []
    ensures Pcm(b) == Pcm(b[..|b| - 1]) + b[|b| - 1].frame.pcm
  {
  }

  lemma SliceOfSum(a: seq<byte>, b: seq<byte>, lo: nat, hi: nat)
    requires lo <= hi <= |a|
    ensures (a + b)[lo..hi] == a[lo..hi]
  {
  }

  lemma RestOfSum(a: seq<byte>, b: seq<byte>)
    ensures (a + b)[|a|..|a| + |b|] == b
  {
  }

  /** For frames of any size: the audio of chunk k is as long as its frames together, and
      holds each of them right after those before it. */
  lemma ChunkHoldsFrames(c: Config, s: seq<Item>, id: string, k: nat, i: nat)
    requires k < |Session(c, s)| && SpanOf(c, s, k).lo <= i < SpanOf(c, s, k).hi
    ensures var Span(lo, hi) := SpanOf(c, s, k);
            var pcm := ChunkOf(id, Session(c, s)[k]).pcm;
            |pcm| == BytesBefore(s[lo..hi], hi - lo) && HoldsFrame(pcm, s[lo..hi], i - lo)
  {
    hide Session, SpanOf, Pcm, BytesBefore, HoldsFrame;
    var cut, span := Session(c, s)[k], SpanOf(c, s, k);
    PcmLength(cut.selected);
    PcmHolds(cut.selected, i - span.lo);
  }

  // ---------------------------------------------------------------- speech

  /** The speech frames among lo..hi. */
  function SpeechIn(s: seq<Item>, lo: nat, hi: nat): set<int>
    requires lo <= hi <= |s|
  {
    set i | lo <= i < hi && s[i].isSpeech
  }

  lemma SpeechTotalLast(s: seq<Item>, lo: nat, hi: nat)
    requires lo < hi <= |s|
    ensures SpeechTotal(s[lo..hi])
         == SpeechTotal(s[lo..hi - 1]) + (if s[hi - 1].isSpeech then s[hi - 1].frame.durationMs else 0)
  {
    assert s[lo..hi][..hi - 1 - lo] == s[lo..hi - 1];
  }

  lemma SpeechInLast(s: seq<Item>, lo: nat, hi: nat)
    requires lo < hi <= |s|
    ensures |SpeechIn(s, lo, hi)| == |SpeechIn(s, lo, hi - 1)| + (if s[hi - 1].isSpeech then 1 else 0)
  {
    if s[hi - 1].isSpeech {
      assert SpeechIn(s, lo, hi) == SpeechIn(s, lo, hi - 1) + {hi - 1};
    } else {
      assert SpeechIn(s, lo, hi) == SpeechIn(s, lo, hi - 1);
    }
  }

  lemma {:induction false} SpeechIsCounted(s: seq<Item>, d: nat, lo: nat, hi: nat)
    requires Uniform(s, d) && lo <= hi <= |s|
    ensures SpeechTotal(s[lo..hi]) == |SpeechIn(s, lo, hi)| * d
    decreases hi
  {
    if lo == hi {
      assert SpeechIn(s, lo, hi) == {} && s[lo..hi] == [];
    } else {
      SpeechIsCounted(s, d, lo, hi - 1);
      SpeechTotalLast(s, lo, hi);
      SpeechInLast(s, lo, hi);
      OneMoreTimes(|SpeechIn(s, lo, hi - 1)|, d);
      hide SpeechTotal, SpeechIn;
    }
  }

  // ---------------------------------------------------------------- overlap

  lemma {:induction false} FirstRepeatsNothing(c: Config, s: seq<Item>)
    ensures Emitted(c, s) != [] ==> Emitted(c, s)[0].prefixOverlapMs == 0
    decreases |s|
  {
    hide LastPush, Emitted, After, Accept;
    EmittedSplit(c, s);
    if Emitted(c, s) != [] {
      var p := s[..|s| - 1];
      FirstRepeatsNothing(c, p);
      if Emitted(c, p) == [] {
        NoneCarried(c, p);
        PushEmitsOne(c, s);
        AcceptKeepsOverlap(After(c, p), s[|s| - 1]);
      }
    }
  }

  lemma AcceptKeepsOverlap(st: State, x: Item)
    ensures Accept(st, x).prefixOverlapMs == st.prefixOverlapMs
  {
  }

  lemma NoneCarried(c: Config, s: seq<Item>)
    requires Emitted(c, s) == []
    ensures After(c, s).prefixOverlapMs == 0
  {
    RunLaid(c, s);
    hide Emitted, After, Carried, Spans;
  }

  lemma FinishKeepsOverlap(c: Config, s: seq<Item>)
    requires Last(c, s) != []
    ensures Last(c, s)[0].prefixOverlapMs == After(c, s).prefixOverlapMs
  {
    FinishEmits(c, After(c, s));
    hide Finish, After;
  }

  /** A chunk's overlap is the duration of the frames it repeats. */
  lemma OverlapIsRepeated(c: Config, s: seq<Item>, k: nat)
    requires k < |Session(c, s)|
    ensures Session(c, s)[k].prefixOverlapMs == Total(Repeated(c, Session(c, s), k))
  {
    hide LastPush, Last, Emitted, After, Retained, Spans;
    SessionLayout(c, s);
    assert Total([]) == 0;
    hide Total;
    if k > 0 {
      assert Follows(c, Session(c, s)[k - 1], SessionSpans(c, s)[k - 1], Session(c, s)[k], SessionSpans(c, s)[k]);
    } else {
      FirstRepeatsNothing(c, s);
      if Emitted(c, s) == [] {
        NoneCarried(c, s);
        FinishKeepsOverlap(c, s);
      }
    }
  }

  /** How many frames chunk k repeats. */
  function RepeatedFrames(c: Config, d: nat, cuts: seq<Cut>, k: nat): nat
    requires d > 0 && k < |cuts|
  {
    if k > 0 && cuts[k - 1].reason == ForcedMax then Min(|cuts[k - 1].selected|, Kept(c, d)) else 0
  }

  lemma RepeatedLasts(c: Config, s: seq<Item>, d: nat, k: nat)
    requires d > 0 && Uniform(s, d) && k < |Session(c, s)|
    ensures Session(c, s)[k].prefixOverlapMs == RepeatedFrames(c, d, Session(c, s), k) * d
  {
    hide Session, SessionSpans, RetainCount, Follows, FramesFor;
    OverlapIsRepeated(c, s, k);
    SessionLayout(c, s);
    if k > 0 && Session(c, s)[k - 1].reason == ForcedMax {
      var b := Session(c, s)[k - 1].selected;
      var span := SessionSpans(c, s)[k - 1];
      assert Slice(s, Session(c, s)[k - 1], span, k - 1);
      UniformSlice(s, d, span.lo, span.hi);
      RetainsKept(b, d, c.overlapMs);
      UniformSlice(b, d, |b| - RetainCount(b, c.overlapMs), |b|);
      UniformSums(Retained(b, c.overlapMs), d);
    }
  }

  // ---------------------------------------------------------------- the whole chunk

  /** The chunk made of frames lo..hi of a stream whose frames last d milliseconds. */
  ghost predicate IsChunkOf(s: seq<Item>, d: nat, id: string, k: nat, reason: CutReason, repeated: nat, span: Span,
                            chunk: AudioChunk)
  {
    && 0 <= span.lo < span.hi <= |s|
    && chunk.sessionId == id && chunk.sequence == k && chunk.reason == reason
    && chunk.startMs == s[span.lo].frame.startMs && chunk.endMs == s[span.hi - 1].frame.EndMs()
    && chunk.DurationMs() == (span.hi - span.lo) * d
    && chunk.speechMs == |SpeechIn(s, span.lo, span.hi)| * d
    && chunk.overlapMs == Min(repeated * d, chunk.DurationMs() - 1)
    && chunk.sampleRate == s[span.lo].frame.sampleRate && chunk.channels == s[span.lo].frame.channels
  }

  /** Every chunk of a session carries its number, the reason it was cut, the times of its
      first and last frame, the time of its speech frames, and as overlap the time of the
      frames it repeats, less than its whole length. */
  lemma ChunkCarries(c: Config, s: seq<Item>, d: nat, id: string, k: nat)
    requires d > 0 && Uniform(s, d) && k < |Session(c, s)|
    ensures IsChunkOf(s, d, id, k, Session(c, s)[k].reason, RepeatedFrames(c, d, Session(c, s), k),
                      SpanOf(c, s, k), ChunkOf(id, Session(c, s)[k]))
  {
    hide Session, SpanOf, SpeechTotal, SpeechIn, Pcm, RepeatedFrames;
    var cut, span := Session(c, s)[k], SpanOf(c, s, k);
    ChunkNumber(c, s, k);
    RepeatedLasts(c, s, d, k);
    SpeechIsCounted(s, d, span.lo, span.hi);
    UniformSlice(s, d, span.lo, span.hi);
    UniformBuffer(cut.selected, d);
    SpeechTotalFits(cut.selected, d);
    TotalIsExtent(cut.selected, d);
    hide Total, Uniform, Steady;
    Times(0, RepeatedFrames(c, d, Session(c, s), k), d);
  }

  lemma ChunkNumber(c: Config, s: seq<Item>, k: nat)
    requires k < |Session(c, s)|
    ensures Session(c, s)[k].sequence == k
  {
    hide Session, SessionSpans, Follows;
    SessionLayout(c, s);
    assert Slice(s, Session(c, s)[k], SessionSpans(c, s)[k], k);
  }
}
