/** Which chunks contain speech that was not emitted before. The chunk of finish always
    does; a chunk cut at a pause may hold only speech that a forced cut carried over,
    depending on how the settings relate. */
module NewSpeech {
  import opened Domain
  import opened Segmentation
  import opened SegmentationRuns
  import opened SegmentationLaws
  import opened SpeechLaws

  /** Some frame of chunk k beyond those it repeats is speech. */
  predicate HasNewSpeech(c: Config, cuts: seq<Cut>, k: nat)
    requires k < |cuts|
  {
    AnySpeechFrom(cuts[k].selected, |Repeated(c, cuts, k)|)
  }

  predicate AnySpeechFrom(b: seq<Item>, n: nat) {
    exists i :: n <= i < |b| && b[i].isSpeech
  }

  lemma SilentBeyond(b: seq<Item>, n: nat, j: nat)
    requires n <= j < |b| && !AnySpeech(b[n..])
    ensures !b[j].isSpeech
  {
    assert b[n..][j - n] == b[j];
  }

  lemma SpeechFromEmitted(b: seq<Item>, carried: nat, selected: seq<Item>)
    requires selected <= b && carried <= |b| && !AnySpeech(b[|selected|..])
    ensures AnySpeechFrom(selected, carried) <==> AnySpeech(b[carried..])
  {
    if AnySpeech(b[carried..]) {
      var i :| 0 <= i < |b[carried..]| && b[carried..][i].isSpeech;
      if carried + i >= |selected| {
        SilentBeyond(b, |selected|, carried + i);
        assert false;
      }
      assert selected[carried + i].isSpeech;
    }
    if AnySpeechFrom(selected, carried) {
      var i :| carried <= i < |selected| && selected[i].isSpeech;
      assert b[carried..][i - carried].isSpeech;
    }
  }

  /** The flag the policy keeps says of a pushed chunk whether it has new speech. */
  lemma PushedHasNew(c: Config, s: seq<Item>)
    requires s != [] && LastPush(c, s).1 != []
    ensures var k := |Emitted(c, s[..|s| - 1])|;
            && |Emitted(c, s)| == k + 1 && Emitted(c, s)[k] == LastPush(c, s).1[0]
            && (HasNewSpeech(c, Emitted(c, s), k) <==>
                  Accept(After(c, s[..|s| - 1]), s[|s| - 1]).speechAfterOverlap)
  {
    var p, x := s[..|s| - 1], s[|s| - 1];
    PushEmitsOne(c, s);
    EmittedSplit(c, s);
    PushedRepeats(c, s);
    hide LastPush, After, AnySpeech, AnySpeechFrom, Summarised, Placed, Total, Repeated, Emitted, Accept;
    SpeechFromEmitted(Accept(After(c, p), x).buffer, Carried(c, p), LastPush(c, s).1[0].selected);
  }

  /** What is carried in the buffer is what the emitted chunk repeats. */
  lemma PushedRepeats(c: Config, s: seq<Item>)
    requires s != [] && LastPush(c, s).1 != []
    ensures var p, cut := s[..|s| - 1], LastPush(c, s).1[0];
            && Carried(c, p) <= |Accept(After(c, p), s[|s| - 1]).buffer|
            && |Repeated(c, Emitted(c, p) + [cut], |Emitted(c, p)|)| == Carried(c, p)
  {
    var p, x := s[..|s| - 1], s[|s| - 1];
    PushEmitsOne(c, s);
    AcceptedLaid(c, s);
    hide LastPush, After, AnySpeech, Summarised, Laid, Total, Retained, Emitted, Spans, Accept, Emission, Carried;
    CarriedIsRepeated(c, s, Accept(After(c, p), x), Carried(c, p), Emitted(c, p), Spans(c, p), LastPush(c, s).1[0]);
  }

  lemma AcceptedLaid(c: Config, s: seq<Item>)
    requires s != []
    ensures var p := s[..|s| - 1];
            Laid(c, s, Accept(After(c, p), s[|s| - 1]), Carried(c, p), Emitted(c, p), Spans(c, p))
  {
    var p, x := s[..|s| - 1], s[|s| - 1];
    assert p + [x] == s;
    RunLaid(c, p);
    hide After, Laid, Emitted, Spans, Accept, Carried;
    LaidAccept(c, p, After(c, p), Carried(c, p), Emitted(c, p), Spans(c, p), x);
  }

  lemma FinishHasNew(c: Config, s: seq<Item>)
    requires Last(c, s) != []
    ensures var k := |Emitted(c, s)|;
            && |Session(c, s)| == k + 1
            && (HasNewSpeech(c, Session(c, s), k) <==> After(c, s).speechAfterOverlap)
  {
    var cut := Last(c, s)[0];
    RunConsistent(c, s);
    RunLaid(c, s);
    FinishEmits(c, After(c, s));
    hide Last, After, AnySpeech, AnySpeechFrom, Summarised, Laid, Total, Retained, Emitted, Spans;
    CarriedIsRepeated(c, s, After(c, s), Carried(c, s), Emitted(c, s), Spans(c, s), cut);
    assert Session(c, s) == Emitted(c, s) + [cut];
    SpeechFromEmitted(After(c, s).buffer, Carried(c, s), cut.selected);
  }

  // ---------------------------------------------------------------- the chunk of finish

  lemma FlaggedAtFinish(c: Config, s: seq<Item>, d: int)
    requires Steady(s, d) && Last(c, s) != []
    ensures After(c, s).speechAfterOverlap
  {
    var st, carried := After(c, s), Carried(c, s);
    RunConsistent(c, s);
    hide After, Trimmed, TrailingSilence, Total, AnySpeech;
    if st.prefixOverlapMs == 0 {
      SteadySlice(s, d, |s| - |st.buffer|, |s|);
      SteadySlice(st.buffer, d, 0, carried);
      TotalIsExtent(st.buffer[..carried], d);
      assert carried == 0;
      assert st.buffer[0..] == st.buffer;
    }
  }

  lemma PushIsNotStop(c: Config, s: seq<Item>)
    requires s != []
    ensures forall cut <- LastPush(c, s).1 :: cut.reason != Stop
  {
    hide After, Accept, Extent, SilenceReached, Trimmed, Retained, AnySpeech, TrailingSilence, Shorten;
  }

  /** The chunk of finish always holds speech beyond what it repeats. */
  lemma StopChunkHasNewSpeech(c: Config, s: seq<Item>, d: int, k: nat)
    requires Steady(s, d) && k < |Session(c, s)| && Session(c, s)[k].reason == Stop
    ensures HasNewSpeech(c, Session(c, s), k)
  {
    hide Last, LastPush, Emitted, HasNewSpeech, Steady, After;
    if k < |Emitted(c, s)| {
      var n := EmittedOrigin(c, s, k);
      PushIsNotStop(c, s[..n]);
      assert false;
    } else {
      AtMostOne(c, s);
      FlaggedAtFinish(c, s, d);
      FinishHasNew(c, s);
    }
  }

  // ---------------------------------------------------------------- a chunk within its session

  lemma HasNewSame(c: Config, a: seq<Cut>, b: seq<Cut>, k: nat)
    requires a <= b && k < |a|
    ensures HasNewSpeech(c, a, k) == HasNewSpeech(c, b, k)
  {
    hide Retained, AnySpeechFrom;
    assert Repeated(c, a, k) == Repeated(c, b, k);
  }

  lemma {:induction false} EmittedGrows(c: Config, s: seq<Item>, n: nat)
    requires n <= |s|
    ensures Emitted(c, s[..n]) <= Emitted(c, s)
    decreases |s| - n
  {
    hide LastPush, Emitted;
    if n == |s| {
      assert s[..n] == s;
    } else {
      EmittedGrows(c, s, n + 1);
      EmittedSplit(c, s[..n + 1]);
      assert s[..n + 1][..n] == s[..n];
    }
  }

  /** The push that emitted chunk k. */
  lemma {:induction false} EmittedAt(c: Config, s: seq<Item>, k: nat) returns (n: nat)
    requires k < |Emitted(c, s)|
    ensures 0 < n <= |s| && |LastPush(c, s[..n]).1| == 1 && |Emitted(c, s[..n])| == k + 1
    decreases |s|
  {
    hide LastPush, Emitted;
    EmittedSplit(c, s);
    var p := s[..|s| - 1];
    if k < |Emitted(c, p)| {
      n := EmittedAt(c, p, k);
      assert p[..n] == s[..n];
    } else {
      n := |s|;
      assert s[..n] == s;
      AtMostOne(c, s);
    }
  }

  // ---------------------------------------------------------------- chunks cut at a pause

  /** A pause can come before new speech: there is room for a frame between what a forced
      cut retains and the last frame before the next one, and by then silence is enough. */
  predicate PauseComesFirst(c: Config, d: nat)
    requires d > 0
  {
    Kept(c, d) <= Full(c, d) - 2 && PauseAt(c, d, Full(c, d) - 1, Full(c, d) - 2)
  }

  lemma KeptFits(c: Config, d: nat)
    requires d > 0 && Checked(c)
    ensures 0 < Kept(c, d) <= Full(c, d)
  {
    FramesForLast(c.maxMs, d);
    LastsIff(Full(c, d), c.overlapMs, d);
  }

  lemma AfterPushed(c: Config, d: nat, p: seq<Item>, x: Item)
    requires d > 0 && Checked(c) && Uniform(p + [x], d) && LastPush(c, p + [x]).1 != []
    ensures |After(c, p + [x]).buffer| == Kept(c, d) || After(c, p + [x]).buffer == []
  {
    var s := p + [x];
    PushEmitsOne(c, s);
    assert s[..|s| - 1] == p;
    RunConsistent(c, p);
    KeptFits(c, d);
    AcceptedIsUniform(d, p, After(c, p), Carried(c, p), x);
    hide Uniform, Accept, Decide, Full, Kept, PauseAt, AnySpeech, TrailingSilence, Trail, Consistent, Emission;
    DecideInFrames(c, Accept(After(c, p), x), d);
  }

  /** What is carried is nothing or the frames of one forced cut. */
  lemma {:induction false} RunCarries(c: Config, d: nat, s: seq<Item>)
    requires d > 0 && Checked(c) && Uniform(s, d)
    ensures Carried(c, s) == 0 || Carried(c, s) == Kept(c, d)
    decreases |s|
  {
    hide LastPush, After, Kept, Uniform;
    if s != [] {
      var p, x := s[..|s| - 1], s[|s| - 1];
      assert p + [x] == s;
      UniformSlice(s, d, 0, |p|);
      RunCarries(c, d, p);
      if LastPush(c, s).1 != [] { AfterPushed(c, d, p, x); }
    }
  }

  lemma PauseFromBuffer(c: Config, d: nat, n: nat, silent: nat)
    requires d > 0 && Checked(c) && 0 < Kept(c, d) < n < Full(c, d) && silent < n && PauseAt(c, d, n, silent)
    ensures PauseComesFirst(c, d)
  {
    hide Full, Kept, PauseAt;
    MoreSilence(c, d, n, silent, n - 1);
    PauseLasts(c, d, n, n - 1, Full(c, d) - 1 - n);
  }

  /** A pause that came before new speech came late enough. */
  lemma EarlyPauseMeans(c: Config, d: nat, s: seq<Item>)
    requires d > 0 && Checked(c) && Uniform(s, d) && s != [] && |LastPush(c, s).1| == 1
    requires LastPush(c, s).1[0].reason == Silence
    requires !Accept(After(c, s[..|s| - 1]), s[|s| - 1]).speechAfterOverlap
    ensures PauseComesFirst(c, d)
  {
    hide LastPush, After, Accept, Full, Kept, PauseAt, Uniform, Checked, PauseComesFirst, Carried;
    var p := s[..|s| - 1];
    UniformSlice(s, d, 0, |p|);
    RunCarries(c, d, p);
    KeptFits(c, d);
    EarlyPauseBuffer(c, d, s);
    var b := Accept(After(c, p), s[|s| - 1]).buffer;
    PauseFromBuffer(c, d, |b|, Trail(b));
  }

  lemma EarlyPauseBuffer(c: Config, d: nat, s: seq<Item>)
    requires d > 0 && Uniform(s, d) && s != [] && |LastPush(c, s).1| == 1
    requires LastPush(c, s).1[0].reason == Silence
    requires !Accept(After(c, s[..|s| - 1]), s[|s| - 1]).speechAfterOverlap
    ensures var b := Accept(After(c, s[..|s| - 1]), s[|s| - 1]).buffer;
            && Carried(c, s[..|s| - 1]) != 0 && Carried(c, s[..|s| - 1]) < |b| < Full(c, d)
            && Trail(b) < |b| && PauseAt(c, d, |b|, Trail(b))
  {
    var p, x := s[..|s| - 1], s[|s| - 1];
    var st := After(c, p);
    assert p + [x] == s;
    RunConsistent(c, p);
    PushEmitsOne(c, s);
    AcceptedIsUniform(d, p, st, Carried(c, p), x);
    PushIsDecide(c, p, x);
    hide LastPush, After, Uniform, Full, PauseAt, TrailingSilence, Decide, Emission, Trail;
    DecideInFrames(c, Accept(st, x), d);
    UniformBuffer(Accept(st, x).buffer, d);
    assert Accept(st, x).buffer[0..] == Accept(st, x).buffer;
  }

  lemma PushIsDecide(c: Config, p: seq<Item>, x: Item)
    requires After(c, p).buffer != [] || x.isSpeech
    requires Summarised(Accept(After(c, p), x)) && Accept(After(c, p), x).buffer != []
    ensures LastPush(c, p + [x]) == Decide(c, Accept(After(c, p), x), x.frame.durationMs)
  {
    assert (p + [x])[..|p|] == p;
    hide Decide, Accept;
  }

  // ---------------------------------------------------------------- a session with an early pause

  lemma NoPauseAtOnce(c: Config, d: nat, n: int)
    requires c.silenceMs > 0
    ensures !PauseAt(c, d, n, 0)
  {
  }

  /** The least silence that is a pause one frame short of full. */
  lemma LeastPause(c: Config, d: nat, silent: nat) returns (j: nat)
    requires d > 0 && c.silenceMs > 0 && PauseAt(c, d, Full(c, d) - 1, silent)
    ensures 0 < j <= silent && PauseAt(c, d, Full(c, d) - 1, j) && !PauseAt(c, d, Full(c, d) - 1, j - 1)
    decreases silent
  {
    hide Full, PauseAt;
    NoPauseAtOnce(c, d, Full(c, d) - 1);
    if PauseAt(c, d, Full(c, d) - 1, silent - 1) {
      j := LeastPause(c, d, silent - 1);
    } else {
      j := silent;
    }
  }

  lemma QuietStart(c: Config, d: nat, j: nat)
    requires d > 0 && c.silenceMs > 0 && j <= Full(c, d)
    requires j <= 1 || !PauseAt(c, d, Full(c, d) - 1, j - 1)
    ensures NoEarlyPause(c, d, Full(c, d) - j)
  {
    hide Full, PauseAt;
    var speech := Full(c, d) - j;
    forall m: nat | m < Full(c, d) ensures !FadedPause(c, d, speech, m) {
      NoPauseAtOnce(c, d, m);
      if m > speech && PauseAt(c, d, m, m - speech) { PauseLasts(c, d, m, m - speech, Full(c, d) - 1 - m); }
    }
  }

  /** How many silent frames the first forced cut may retain so that a pause follows. */
  lemma ChooseSilence(c: Config, d: nat) returns (j: nat)
    requires d > 0 && Checked(c) && PauseComesFirst(c, d)
    ensures j < Kept(c, d) <= Full(c, d) - 2 && NoEarlyPause(c, d, Full(c, d) - j)
    ensures PauseAt(c, d, Full(c, d) - 1, j + Full(c, d) - Kept(c, d) - 1)
  {
    KeptFits(c, d);
    hide Full, Kept, PauseAt, NoEarlyPause;
    j := Kept(c, d) - 1;
    if j > 1 && PauseAt(c, d, Full(c, d) - 1, j - 1) {
      j := LeastPause(c, d, j - 1);
      MoreSilence(c, d, Full(c, d) - 1, j, j + Full(c, d) - Kept(c, d) - 1);
    }
    QuietStart(c, d, j);
  }

  lemma TrailIsSilent(b: seq<Item>, n: nat)
    requires n <= |b| && Trail(b) >= |b| - n
    ensures !AnySpeech(b[n..])
  {
    TrailOfSuffix(b, |b| - n);
    SpeechBeforeTrail(b[n..]);
  }

  lemma FadingUnflagged(c: Config, d: nat, speech: nat, count: nat, n: nat)
    requires d > 0 && n < count && speech > 0 && Held(c, Fading(d, speech, count), n) != []
    requires var s := Fading(d, speech, count);
             Carried(c, s[..n]) <= |Held(c, s, n)| && n + 1 - speech >= |Held(c, s, n)| + 1 - Carried(c, s[..n])
    ensures var s := Fading(d, speech, count);
            !Accept(After(c, s[..n]), s[n]).speechAfterOverlap
  {
    var s := Fading(d, speech, count);
    FadingAccept(c, d, speech, count, n);
    hide Fading, Tone, Accept, After, Carried, Trail, AnySpeech, Summarised, Placed, Total;
    RunConsistent(c, s[..n]);
    AcceptConsistent(s[..n], After(c, s[..n]), Carried(c, s[..n]), s[n]);
    TrailIsSilent(Accept(After(c, s[..n]), s[n]).buffer, Carried(c, s[..n]));
  }

  lemma StillCarried(c: Config, s: seq<Item>, n: nat)
    requires n < |s| && LastPush(c, s[..n + 1]).1 == [] && Held(c, s, n) != []
    ensures Carried(c, s[..n + 1]) == Carried(c, s[..n])
  {
    hide LastPush, After;
    assert s[..n + 1][..n] == s[..n];
  }

  ghost predicate Waiting(c: Config, d: nat, speech: nat, count: nat, i: nat)
    requires d > 0
  {
    var s := Fading(d, speech, count);
    && Full(c, d) + i <= count && |Held(c, s, Full(c, d) + i)| == Kept(c, d) + i
    && Carried(c, s[..Full(c, d) + i]) == Kept(c, d)
  }

  /** With only silence coming in after the forced cut, a pause is reached before the
      buffer is full again. */
  lemma AwaitsPause(c: Config, d: nat, j: nat, count: nat, i: nat) returns (n: nat)
    requires d > 0 && j < Kept(c, d) && i < Full(c, d) - Kept(c, d) - 1
    requires count == 2 * Full(c, d) - Kept(c, d) - 1
    requires PauseAt(c, d, Full(c, d) - 1, j + Full(c, d) - Kept(c, d) - 1)
    requires Waiting(c, d, Full(c, d) - j, count, i)
    ensures var s := Fading(d, Full(c, d) - j, count);
            && 0 < n <= count && |LastPush(c, s[..n]).1| == 1 && LastPush(c, s[..n]).1[0].reason == Silence
            && !Accept(After(c, s[..n - 1]), s[n - 1]).speechAfterOverlap
    decreases Full(c, d) - i
  {
    hide Full, Kept, Held, Carried, PauseAt, LastPush, After, Accept, Fading, Tone, AnySpeech;
    var speech := Full(c, d) - j;
    n := Full(c, d) + i;
    FadingStep(c, d, speech, count, n);
    if PauseAt(c, d, Kept(c, d) + i + 1, i + 1 + j) {
      FadingUnflagged(c, d, speech, count, n);
      n := n + 1;
    } else {
      StillCarried(c, Fading(d, speech, count), n);
      n := AwaitsPause(c, d, j, count, i + 1);
    }
  }

  lemma SomeWait(c: Config, d: nat) returns (speech: nat, count: nat, n: nat)
    requires d > 0 && Checked(c) && PauseComesFirst(c, d)
    ensures var s := Fading(d, speech, count);
            && 0 < n <= count && |LastPush(c, s[..n]).1| == 1 && LastPush(c, s[..n]).1[0].reason == Silence
            && !Accept(After(c, s[..n - 1]), s[n - 1]).speechAfterOverlap
  {
    var j := ChooseSilence(c, d);
    hide Full, Kept, PauseAt, LastPush, Fading, Accept, After, NoEarlyPause, Waiting;
    speech, count := Full(c, d) - j, 2 * Full(c, d) - Kept(c, d) - 1;
    FirstWaits(c, d, speech, count);
    n := AwaitsPause(c, d, j, count, 0);
  }

  lemma PrefixEnds(s: seq<Item>, n: nat)
    requires 0 < n <= |s|
    ensures s[..n][..n - 1] == s[..n - 1] && s[..n][n - 1] == s[n - 1]
  {
  }

  /** With such settings a session has a chunk cut at a pause that holds only speech
      emitted before. */
  lemma RepeatedPauseChunk(c: Config, d: nat) returns (s: seq<Item>, k: nat)
    requires d > 0 && Checked(c) && PauseComesFirst(c, d)
    ensures Uniform(s, d) && k < |Session(c, s)| && Session(c, s)[k].reason == Silence
    ensures !HasNewSpeech(c, Session(c, s), k)
  {
    hide Checked, PauseComesFirst, LastPush, Fading, Uniform, Session, HasNewSpeech, Accept, After;
    var speech, count, n := SomeWait(c, d);
    FadingIsUniform(d, speech, count);
    UniformSlice(Fading(d, speech, count), d, 0, n);
    PrefixEnds(Fading(d, speech, count), n);
    s := Fading(d, speech, count)[..n];
    k := InSession(c, s);
  }

  lemma FirstWaits(c: Config, d: nat, speech: nat, count: nat)
    requires d > 0 && speech > 0 && NoEarlyPause(c, d, speech) && 0 < Kept(c, d) <= Full(c, d) <= count
    ensures Waiting(c, d, speech, count, 0)
  {
    hide Full, Kept, NoEarlyPause, LastPush, After, Fading;
    FirstForced(c, d, speech, count);
  }

  lemma InSession(c: Config, s: seq<Item>) returns (k: nat)
    requires s != [] && |LastPush(c, s).1| == 1
    ensures k < |Session(c, s)| && Session(c, s)[k] == LastPush(c, s).1[0]
    ensures HasNewSpeech(c, Session(c, s), k) <==> Accept(After(c, s[..|s| - 1]), s[|s| - 1]).speechAfterOverlap
  {
    hide LastPush, Emitted, Last, After, Accept, HasNewSpeech;
    PushedHasNew(c, s);
    k := |Emitted(c, s)| - 1;
    HasNewSame(c, Emitted(c, s), Session(c, s), k);
  }

  // ---------------------------------------------------------------- the exact condition

  /** Every chunk cut at a pause holds speech beyond what it repeats. */
  ghost predicate PausesHaveNewSpeech(c: Config, d: nat) {
    forall s, k :: Uniform(s, d) && 0 <= k < |Session(c, s)| && Session(c, s)[k].reason == Silence ==>
      HasNewSpeech(c, Session(c, s), k)
  }

  lemma FinishNotSilence(c: Config, s: seq<Item>)
    ensures forall cut <- Last(c, s) :: cut.reason != Silence
  {
    FinishIsNotForced(c, s);
  }

  lemma OldPauseMeans(c: Config, d: nat, s: seq<Item>, k: nat)
    requires d > 0 && Checked(c) && Uniform(s, d) && k < |Session(c, s)| && Session(c, s)[k].reason == Silence
    requires !HasNewSpeech(c, Session(c, s), k)
    ensures PauseComesFirst(c, d)
  {
    hide LastPush, Emitted, Last, After, Accept, HasNewSpeech, Uniform, Checked, PauseComesFirst;
    FinishNotSilence(c, s);
    assert k < |Emitted(c, s)|;
    var n := EmittedAt(c, s, k);
    EmittedGrows(c, s, n);
    HasNewSame(c, Emitted(c, s[..n]), Session(c, s), k);
    PushedHasNew(c, s[..n]);
    UniformSlice(s, d, 0, n);
    EarlyPauseMeans(c, d, s[..n]);
  }

  /** For all settings that pass the checks: every chunk cut at a pause holds new speech if
      and only if no pause can come before new speech. */
  lemma PausesHaveNewSpeechIff(c: Config, d: nat)
    requires d > 0 && Checked(c)
    ensures PausesHaveNewSpeech(c, d) <==> !PauseComesFirst(c, d)
  {
    hide Session, Uniform, PauseComesFirst, Checked, HasNewSpeech;
    if PauseComesFirst(c, d) {
      var s, k := RepeatedPauseChunk(c, d);
    } else {
      forall s, k | Uniform(s, d) && 0 <= k < |Session(c, s)| && Session(c, s)[k].reason == Silence
        ensures HasNewSpeech(c, Session(c, s), k)
      {
        if !HasNewSpeech(c, Session(c, s), k) { OldPauseMeans(c, d, s, k); }
      }
    }
  }

  /** With the default settings it can. */
  lemma DefaultsRepeatSpeech()
    ensures !PausesHaveNewSpeech(DEFAULTS, 20)
  {
    DefaultCounts(400);
    PausesHaveNewSpeechIff(DEFAULTS, 20);
    hide PausesHaveNewSpeech, Full, Kept;
  }
}
