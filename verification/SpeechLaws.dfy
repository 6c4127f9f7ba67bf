/** When chunks contain speech. A chunk cut at a pause or at the end always does; a forced
    chunk does or does not depending on how the settings relate. */
module SpeechLaws {
  import opened Domain
  import opened Segmentation
  import opened SegmentationRuns
  import opened SegmentationLaws

  // ---------------------------------------------------------------- frames of any length

  /** A chunk cut at a pause or at the end always contains speech. */
  lemma PauseChunkHasSpeech(c: Config, s: seq<Item>, k: nat)
    requires k < |Session(c, s)| && Session(c, s)[k].reason != ForcedMax
    ensures AnySpeech(Session(c, s)[k].selected)
  {
    hide Session, After;
    var n, pushed := SessionOrigin(c, s, k);
    if pushed {
      var t := s[..n];
      var a := Accept(After(c, t[..n - 1]), t[n - 1]);
      AcceptSummarised(After(c, t[..n - 1]), t[n - 1]);
      TrimmedHasSpeech(a.buffer, c.paddingMs);
    } else {
      TrimmedHasSpeech(After(c, s).buffer, c.paddingMs);
    }
  }

  lemma TrimmedHasSpeech(b: seq<Item>, paddingMs: int)
    requires AnySpeech(b)
    ensures AnySpeech(Trimmed(b, paddingMs))
  {
    assert Trimmed(b, paddingMs)[LastSpeech(b)].isSpeech;
  }

  /** Relations between settings under which forced chunks contain speech too, whatever
      the frames' lengths up to d milliseconds. */
  predicate SpeechSafe(c: Config, d: int) {
    && 0 < d && c.minMs <= c.targetMs
    && c.targetMs + d <= c.maxMs && c.overlapMs + 2 * d <= c.maxMs
    && 2 * c.overlapMs >= 2 * d + Max(2 * d, c.silenceMs)
  }

  /** A non-empty buffer holds speech, and once it is within a frame of the maximum
      its trailing silence is short. */
  predicate Voiced(c: Config, d: int, b: seq<Item>) {
    b != [] ==> AnySpeech(b) && (Extent(b) >= c.maxMs - d ==> 2 * TrailingSilence(b) < Max(2 * d, c.silenceMs))
  }

  lemma {:induction false} SilentTail(b: seq<Item>, d: int, k: nat)
    requires Steady(b, d) && k <= |b| && !AnySpeech(b[k..])
    ensures TrailingSilence(b) >= Total(b[k..])
  {
    if k < |b| {
      var p := b[..|b| - 1];
      assert b[k..][|b| - 1 - k] == b[|b| - 1];
      TotalTail(b, k);
      assert forall i :: 0 <= i < |p[k..]| ==> p[k..][i] == b[k..][i];
      SilentTail(p, d, k);
    } else {
      TrailingNonNegative(b, d);
    }
  }

  lemma {:induction false} TrailingNonNegative(b: seq<Item>, d: int)
    requires Steady(b, d)
    ensures TrailingSilence(b) >= 0
  {
    if b != [] && !b[|b| - 1].isSpeech { TrailingNonNegative(b[..|b| - 1], d); }
  }

  /** What a forced cut retains holds speech when the buffer's trailing silence is
      shorter than the overlap. */
  lemma RetainedHasSpeech(b: seq<Item>, d: int, overlapMs: int)
    requires Steady(b, d) && AnySpeech(b) && TrailingSilence(b) < overlapMs
    ensures AnySpeech(Retained(b, overlapMs))
  {
    var k := |b| - RetainCount(b, overlapMs);
    assert b[0..] == b;
    if !AnySpeech(b[k..]) {
      SilentTail(b, d, k);
      RetainedIsShortest(b, overlapMs);
    }
  }

  lemma RetainedVoiced(c: Config, b: seq<Item>, d: int)
    requires b != [] && Steady(b, d) && SpeechSafe(c, d) && AnySpeech(b) && TrailingSilence(b) < c.overlapMs
    ensures Voiced(c, d, Retained(b, c.overlapMs))
  {
    RetainedHasSpeech(b, d, c.overlapMs);
    hide RetainCount, AnySpeech;
    RetainedDuration(b, d, c.overlapMs);
    var k := |b| - RetainCount(b, c.overlapMs);
    SteadySlice(b, d, k, |b|);
    TotalIsExtent(b[k..], d);
  }

  lemma DecideVoiced(c: Config, a: State, frameMs: int, d: int)
    requires Summarised(a) && a.buffer != [] && Steady(a.buffer, d) && SpeechSafe(c, d) && frameMs <= d
    requires AnySpeech(a.buffer)
    requires Extent(a.buffer) >= c.maxMs ==> TrailingSilence(a.buffer) < c.overlapMs
    ensures Voiced(c, d, Decide(c, a, frameMs).0.buffer)
  {
    hide Retained, Trimmed, Steady;
    if Extent(a.buffer) >= c.maxMs { RetainedVoiced(c, a.buffer, d); }
  }

  /** The buffer a push decides on holds speech, and if it is at the maximum its
      trailing silence is shorter than the overlap. */
  lemma AcceptVoiced(c: Config, s: seq<Item>, st: State, x: Item, d: int)
    requires Steady(s + [x], d) && SpeechSafe(c, d) && Voiced(c, d, st.buffer)
    requires Placed(s, st) && (st.buffer == [] ==> x.isSpeech)
    ensures var b := Accept(st, x).buffer;
            && Steady(b, d) && AnySpeech(b)
            && (Extent(b) >= c.maxMs ==> TrailingSilence(b) < c.overlapMs)
  {
    AnySpeechAppend(Before(st), x);
    hide Accept, AnySpeech;
    AcceptExtent(s, st, x, d);
    var b := Accept(st, x).buffer;
    assert b[..|b| - 1] == Before(st) && b[|b| - 1] == x;
    assert x == (s + [x])[|s|];
  }

  lemma {:induction false} RunVoiced(c: Config, s: seq<Item>, d: int)
    requires Steady(s, d) && SpeechSafe(c, d)
    ensures Voiced(c, d, After(c, s).buffer)
  {
    hide Push;
    if s != [] {
      var p, x := s[..|s| - 1], s[|s| - 1];
      RunVoiced(c, p, d);
      RunConsistent(c, p);
      assert p + [x] == s;
      PushVoiced(c, p, After(c, p), Carried(c, p), x, d);
    }
  }

  lemma PushVoiced(c: Config, s: seq<Item>, st: State, carried: nat, x: Item, d: int)
    requires Steady(s + [x], d) && SpeechSafe(c, d) && Voiced(c, d, st.buffer)
    requires Consistent(s, st, carried)
    ensures Voiced(c, d, Push(c, st, x).0.buffer)
  {
    hide Decide;
    if st.buffer != [] || x.isSpeech {
      AcceptVoiced(c, s, st, x, d);
      AcceptSummarised(st, x);
      assert x == (s + [x])[|s|];
      DecideVoiced(c, Accept(st, x), x.frame.durationMs, d);
    }
  }

  lemma PushedHasSpeech(c: Config, s: seq<Item>, d: int)
    requires Steady(s, d) && SpeechSafe(c, d) && s != [] && LastPush(c, s).1 != []
    requires LastPush(c, s).1[0].reason == ForcedMax
    ensures AnySpeech(LastPush(c, s).1[0].selected)
  {
    hide Push, Accept, Summarised, Prefixed, Retained, Total, AnySpeech;
    var p, x := s[..|s| - 1], s[|s| - 1];
    assert p + [x] == s;
    SteadySlice(s, d, 0, |s| - 1);
    PushEmitsOne(c, s);
    RunConsistent(c, p);
    RunVoiced(c, p, d);
    AcceptVoiced(c, p, After(c, p), x, d);
  }

  /** With settings related as in SpeechSafe, every chunk contains speech. */
  lemma EveryChunkHasSpeech(c: Config, s: seq<Item>, d: int, k: nat)
    requires Steady(s, d) && SpeechSafe(c, d) && k < |Session(c, s)|
    ensures AnySpeech(Session(c, s)[k].selected)
  {
    hide Session, Push, Finish;
    if Session(c, s)[k].reason != ForcedMax {
      PauseChunkHasSpeech(c, s, k);
    } else {
      var n, pushed := SessionOrigin(c, s, k);
      if pushed {
        SteadySlice(s, d, 0, n);
        PushedHasSpeech(c, s[..n], d);
      } else {
        FinishIsNotForced(c, s);
      }
    }
  }

  // ---------------------------------------------------------------- frames of one length

  /** What the configuration checks before a session. */
  predicate Checked(c: Config) {
    && 0 < c.minMs <= c.targetMs <= c.maxMs && c.silenceMs > 0 && c.paddingMs >= 0
    && 0 <= c.overlapMs < c.maxMs
  }

  /** Frames as capture yields them: contiguous, each of d milliseconds by its PCM. */
  ghost predicate Uniform(s: seq<Item>, d: nat) {
    Steady(s, d) && forall i :: 0 <= i < |s| ==> s[i].frame.durationMs == d && s[i].frame.Measured()
  }

  /** The fewest frames of d milliseconds that last ms. */
  function FramesFor(ms: int, d: nat): nat
    requires d > 0
    decreases ms
  {
    if ms <= 0 then 0 else FramesFor(ms - d, d) + 1
  }

  lemma {:induction false} FramesForLast(ms: int, d: nat)
    requires d > 0
    ensures var n := FramesFor(ms, d);
            n * d >= ms && (n > 0 ==> (n - 1) * d < ms)
    decreases ms
  {
    if ms > 0 {
      FramesForLast(ms - d, d);
      var n := FramesFor(ms - d, d);
      assert (n + 1) * d == n * d + d;
      if n > 0 { assert n * d == (n - 1) * d + d; }
    }
  }

  lemma Times(a: int, b: int, d: nat)
    requires a <= b
    ensures a * d <= b * d
  {
  }

  lemma LastsIff(n: nat, ms: int, d: nat)
    requires d > 0
    ensures n * d >= ms <==> n >= FramesFor(ms, d)
  {
    FramesForLast(ms, d);
    var k := FramesFor(ms, d);
    if n >= k { Times(k, n, d); } else { Times(n, k - 1, d); }
  }

  /** A buffer of so many frames is cut by force. */
  function Full(c: Config, d: nat): nat
    requires d > 0
  {
    FramesFor(c.maxMs, d)
  }

  /** A forced cut retains so many frames. */
  function Kept(c: Config, d: nat): nat
    requires d > 0
  {
    Max(1, FramesFor(c.overlapMs, d))
  }

  /** A buffer of n frames is cut at a pause when its last silent frames are silent. */
  predicate PauseAt(c: Config, d: nat, n: int, silent: int) {
    n * d >= c.minMs && SilenceReached(c, n * d, silent * d, d)
  }

  /** One frame short of full, with all but one of the frames that a forced cut retains
      silent, a buffer is cut at a pause; and both numbers leave room for that. */
  predicate Guarded(c: Config, d: nat)
    requires d > 0
  {
    2 <= Kept(c, d) <= Full(c, d) - 2 && PauseAt(c, d, Full(c, d) - 1, Kept(c, d) - 1)
  }

  /** Once there is a pause, more silence does not end it. */
  lemma MoreSilence(c: Config, d: nat, n: int, less: int, more: int)
    requires d > 0 && less <= more && PauseAt(c, d, n, less)
    ensures PauseAt(c, d, n, more)
  {
    Times(less, more, d);
  }

  lemma PauseLasts(c: Config, d: nat, n: int, silent: int, k: nat)
    requires d > 0 && c.silenceMs > 0 && silent > 0 && PauseAt(c, d, n, silent)
    ensures PauseAt(c, d, n + k, silent + k)
  {
    Times(n, n + k, d);
    Times(silent, silent + k, d);
    Times(1, silent, d);
  }

  /** The silent frames at the end. */
  function Trail(b: seq<Item>): (n: nat)
    ensures n <= |b|
  {
    if b == [] || b[|b| - 1].isSpeech then 0 else Trail(b[..|b| - 1]) + 1
  }

  lemma UniformSlice(s: seq<Item>, d: nat, lo: nat, hi: nat)
    requires Uniform(s, d) && lo <= hi <= |s|
    ensures Uniform(s[lo..hi], d)
  {
  }

  lemma {:induction false} UniformSums(b: seq<Item>, d: nat)
    requires Uniform(b, d)
    ensures Total(b) == |b| * d && TrailingSilence(b) == Trail(b) * d
    decreases |b|
  {
    if b != [] {
      var p := b[..|b| - 1];
      UniformSlice(b, d, 0, |b| - 1);
      UniformSums(p, d);
      OneMoreTimes(|p|, d);
      OneMoreTimes(Trail(p), d);
      hide Uniform;
    }
  }

  lemma OneMoreTimes(n: int, d: nat)
    ensures (n + 1) * d == n * d + d
  {
  }

  lemma {:induction false} SpeechBeforeTrail(b: seq<Item>)
    ensures AnySpeech(b) <==> Trail(b) < |b|
  {
    if b != [] && !b[|b| - 1].isSpeech {
      var p := b[..|b| - 1];
      SpeechBeforeTrail(p);
      assert b == p + [b[|b| - 1]];
      AnySpeechAppend(p, b[|b| - 1]);
    }
  }

  /** What the policy reads off a buffer of frames of one length. */
  lemma UniformBuffer(b: seq<Item>, d: nat)
    requires Uniform(b, d)
    ensures Extent(b) == |b| * d && TrailingSilence(b) == Trail(b) * d
    ensures AnySpeech(b) <==> Trail(b) < |b|
  {
    UniformSums(b, d);
    TotalIsExtent(b, d);
    SpeechBeforeTrail(b);
  }

  lemma {:induction false} RetainsKept(b: seq<Item>, d: nat, overlapMs: int)
    requires d > 0 && Uniform(b, d)
    ensures RetainCount(b, overlapMs) == Min(|b|, Max(1, FramesFor(overlapMs, d)))
  {
    if b != [] && d < overlapMs {
      UniformSlice(b, d, 0, |b| - 1);
      RetainsKept(b[..|b| - 1], d, overlapMs - d);
    }
  }

  lemma {:induction false} TrailOfSuffix(b: seq<Item>, n: nat)
    requires n <= |b|
    ensures Trail(b[|b| - n..]) == Min(Trail(b), n)
  {
    if n > 0 && !b[|b| - 1].isSpeech {
      var p := b[..|b| - 1];
      assert b[|b| - n..][..n - 1] == p[|p| - (n - 1)..];
      TrailOfSuffix(p, n - 1);
    }
  }

  // ---------------------------------------------------------------- one decision, in frames

  /** What becomes of the buffer, counted in frames. */
  lemma DecideInFrames(c: Config, a: State, d: nat)
    requires d > 0 && Summarised(a) && a.buffer != [] && Uniform(a.buffer, d)
    ensures var r, n, silent := Decide(c, a, d), |a.buffer|, Trail(a.buffer);
            if n >= Full(c, d) then
              && r.0.buffer == Retained(a.buffer, c.overlapMs)
              && |r.0.buffer| == Min(n, Kept(c, d)) && Trail(r.0.buffer) == Min(silent, Min(n, Kept(c, d)))
              && |r.1| == 1 && r.1[0].selected == a.buffer && r.1[0].reason == ForcedMax
            else if PauseAt(c, d, n, silent) && silent < n then
              r.0.buffer == [] && |r.1| == 1 && r.1[0].reason == Silence
            else
              r == (a, [])
  {
    UniformBuffer(a.buffer, d);
    LastsIff(|a.buffer|, c.maxMs, d);
    RetainsKept(a.buffer, d, c.overlapMs);
    TrailOfSuffix(a.buffer, RetainCount(a.buffer, c.overlapMs));
    hide FramesFor, Trail, Extent, TrailingSilence, AnySpeech, RetainCount, Trimmed, Uniform, Total, SilenceReached;
  }

  // ---------------------------------------------------------------- guarded settings are enough

  /** n frames, on the way to a full buffer with Kept silent frames, are cut at a pause. */
  predicate DueAt(c: Config, d: nat, n: nat)
    requires d > 0
  {
    && Max(Kept(c, d), Full(c, d) - Kept(c, d)) < n < Full(c, d)
    && PauseAt(c, d, n, n - Full(c, d) + Kept(c, d))
  }

  /** Short of full, a buffer holds speech, and past the pause due at n it has too little
      silence at its end to fill what a forced cut would retain. */
  predicate Audible(c: Config, d: nat, n: nat, b: seq<Item>)
    requires d > 0
  {
    b != [] ==>
      && |b| < Full(c, d) && Trail(b) < |b|
      && (|b| >= n ==> Trail(b) < |b| - Full(c, d) + Kept(c, d))
  }

  /** The buffer a push decides on. */
  lemma AcceptAudible(c: Config, d: nat, n: nat, st: State, x: Item)
    requires d > 0 && DueAt(c, d, n) && Audible(c, d, n, st.buffer) && (st.buffer == [] ==> x.isSpeech)
    ensures var b := Accept(st, x).buffer;
            && Trail(b) < |b| && (|b| <= Full(c, d) || Trail(b) == 0)
            && (|b| > n ==> Trail(b) < |b| - Full(c, d) + Kept(c, d))
  {
    hide FramesFor, PauseAt, TrailingSilence;
    var b := Accept(st, x).buffer;
    assert b[..|b| - 1] == Before(st) && b[|b| - 1] == x;
  }

  lemma DecideAudible(c: Config, d: nat, n: nat, a: State)
    requires d > 0 && DueAt(c, d, n) && Summarised(a) && a.buffer != [] && Uniform(a.buffer, d)
    requires var b := a.buffer;
             && Trail(b) < |b| && (|b| <= Full(c, d) || Trail(b) == 0)
             && (|b| > n ==> Trail(b) < |b| - Full(c, d) + Kept(c, d))
    ensures Audible(c, d, n, Decide(c, a, d).0.buffer)
  {
    DecideInFrames(c, a, d);
    if |a.buffer| == n && Trail(a.buffer) >= n - Full(c, d) + Kept(c, d) {
      MoreSilence(c, d, n, n - Full(c, d) + Kept(c, d), Trail(a.buffer));
    }
    hide FramesFor, PauseAt, Trail, Decide, Uniform, Retained, Summarised;
  }

  lemma PushAudible(c: Config, d: nat, n: nat, s: seq<Item>, st: State, carried: nat, x: Item)
    requires d > 0 && DueAt(c, d, n) && Uniform(s + [x], d)
    requires Consistent(s, st, carried) && Audible(c, d, n, st.buffer)
    ensures Audible(c, d, n, Push(c, st, x).0.buffer)
  {
    if st.buffer != [] || x.isSpeech {
      AcceptedIsUniform(d, s, st, carried, x);
      hide Decide, DueAt, Audible, Accept, Uniform, AnySpeech, TrailingSilence;
      AcceptAudible(c, d, n, st, x);
      DecideAudible(c, d, n, Accept(st, x));
    }
  }

  lemma AcceptedIsUniform(d: nat, s: seq<Item>, st: State, carried: nat, x: Item)
    requires Uniform(s + [x], d) && Consistent(s, st, carried) && (st.buffer == [] ==> x.isSpeech)
    ensures Uniform(Accept(st, x).buffer, d) && Accept(st, x).buffer != [] && Summarised(Accept(st, x))
    ensures x.frame.durationMs == d
  {
    AcceptSummarised(st, x);
    AcceptIsSuffix(s, st, x);
    hide Summarised, Placed, Prefixed, Accept;
    var t, b := s + [x], Accept(st, x).buffer;
    UniformSlice(t, d, |t| - |b|, |t|);
    assert t[|s|] == x;
  }

  lemma AcceptIsSuffix(s: seq<Item>, st: State, x: Item)
    requires Placed(s, st)
    ensures Accept(st, x).buffer == Before(st) + [x] && SuffixOf(Accept(st, x).buffer, s + [x])
  {
    hide AnySpeech, TrailingSilence;
    SuffixExtends(Before(st), s, x);
  }

  lemma {:induction false} RunAudible(c: Config, d: nat, n: nat, s: seq<Item>)
    requires d > 0 && DueAt(c, d, n) && Uniform(s, d)
    ensures Audible(c, d, n, After(c, s).buffer)
  {
    hide Push, DueAt;
    if s != [] {
      hide Audible;
      var p, x := s[..|s| - 1], s[|s| - 1];
      UniformSlice(s, d, 0, |p|);
      RunAudible(c, d, n, p);
      RunConsistent(c, p);
      assert p + [x] == s;
      PushAudible(c, d, n, p, After(c, p), Carried(c, p), x);
    }
  }

  lemma PushedIsAudible(c: Config, d: nat, s: seq<Item>)
    requires d > 0 && Guarded(c, d) && Uniform(s, d) && s != [] && LastPush(c, s).1 != []
    requires LastPush(c, s).1[0].reason == ForcedMax
    ensures AnySpeech(LastPush(c, s).1[0].selected)
  {
    PushEmitsOne(c, s);
    hide After, LastPush, Accept, Summarised, Placed, Prefixed, Uniform, Guarded, Total, AnySpeech, Retained;
    AcceptedIsAudible(c, d, s);
  }

  lemma AcceptedIsAudible(c: Config, d: nat, s: seq<Item>)
    requires d > 0 && Guarded(c, d) && Uniform(s, d) && s != []
    requires After(c, s[..|s| - 1]).buffer == [] ==> s[|s| - 1].isSpeech
    ensures AnySpeech(Accept(After(c, s[..|s| - 1]), s[|s| - 1]).buffer)
  {
    hide After, Accept, Uniform, Audible, AnySpeech, Full, Kept;
    var p, x := s[..|s| - 1], s[|s| - 1];
    var n := Full(c, d) - 1;
    assert DueAt(c, d, n);
    UniformSlice(s, d, 0, |p|);
    RunAudible(c, d, n, p);
    AcceptAudible(c, d, n, After(c, p), x);
    SpeechBeforeTrail(Accept(After(c, p), x).buffer);
  }

  /** With guarded settings every chunk of every session contains speech. */
  lemma GuardedHasSpeech(c: Config, d: nat, s: seq<Item>, k: nat)
    requires d > 0 && Guarded(c, d) && Uniform(s, d) && k < |Session(c, s)|
    ensures AnySpeech(Session(c, s)[k].selected)
  {
    hide Session, Push, Finish, Uniform, Guarded;
    if Session(c, s)[k].reason != ForcedMax {
      PauseChunkHasSpeech(c, s, k);
    } else {
      var n, pushed := SessionOrigin(c, s, k);
      if pushed {
        UniformSlice(s, d, 0, n);
        PushedIsAudible(c, d, s[..n]);
      } else {
        FinishIsNotForced(c, s);
      }
    }
  }

  // ---------------------------------------------------------------- and necessary

  /** A stream of 16 kHz frames of d milliseconds: speech for the first ones, then silence. */
  function Fading(d: nat, speech: nat, count: nat): (s: seq<Item>)
    ensures |s| == count
    ensures forall i :: 0 <= i < count ==> s[i] == Tone(d, i, i < speech)
  {
    seq(count, i requires 0 <= i < count => Tone(d, i, i < speech))
  }

  lemma FadingIsUniform(d: nat, speech: nat, count: nat)
    requires d > 0
    ensures Uniform(Fading(d, speech, count), d)
  {
    var s := Fading(d, speech, count);
    forall i | 0 <= i < count ensures s[i].frame.Valid() && s[i].frame.Measured() && s[i].frame.durationMs == d {
      ToneIsMeasured(d, i, i < speech);
    }
    forall i | 0 < i < count ensures s[i].frame.startMs == s[i - 1].frame.EndMs() {
      assert i * d == (i - 1) * d + d;
    }
  }

  lemma ToneIsMeasured(d: nat, i: nat, isSpeech: bool)
    requires d > 0
    ensures var f := Tone(d, i, isSpeech).frame;
            f.Valid() && f.Measured() && f.durationMs == d
  {
    assert i * d >= 0;
    assert 32 * d == 2 * (16 * d);
  }

  /** The buffer after n frames of the stream. */
  ghost function Held(c: Config, s: seq<Item>, n: nat): seq<Item>
    requires n <= |s|
  {
    After(c, s[..n]).buffer
  }

  lemma {:induction false} FadingTrail(d: nat, speech: nat, count: nat, n: nat, b: seq<Item>)
    requires n <= count && SuffixOf(b, Fading(d, speech, count)[..n])
    ensures Trail(b) == Min(|b|, Max(0, n - speech))
  {
    if b != [] && n > speech {
      var s, p := Fading(d, speech, count), b[..|b| - 1];
      assert p == s[..n - 1][n - 1 - |p|..];
      FadingTrail(d, speech, count, n - 1, p);
    }
  }

  /** One more frame of the stream while the buffer is in use, or the first. */
  lemma FadingStep(c: Config, d: nat, speech: nat, count: nat, n: nat)
    requires d > 0 && n < count && speech > 0
    requires var s := Fading(d, speech, count);
             n == 0 || Held(c, s, n) != []
    ensures var s := Fading(d, speech, count);
            var m := |Held(c, s, n)| + 1;
            var silent := Min(m, Max(0, n + 1 - speech));
            if m >= Full(c, d) then
              && |Held(c, s, n + 1)| == Min(m, Kept(c, d))
              && |LastPush(c, s[..n + 1]).1| == 1
              && (AnySpeech(LastPush(c, s[..n + 1]).1[0].selected) <==> silent < m)
            else if PauseAt(c, d, m, silent) && silent < m then
              |LastPush(c, s[..n + 1]).1| == 1 && LastPush(c, s[..n + 1]).1[0].reason == Silence
            else
              |Held(c, s, n + 1)| == m && LastPush(c, s[..n + 1]).1 == []
  {
    var s := Fading(d, speech, count);
    FadingIsUniform(d, speech, count);
    UniformSlice(s, d, 0, n + 1);
    FadingAccept(c, d, speech, count, n);
    assert s[..n + 1] == s[..n] + [s[n]];
    hide Fading, Uniform, Accept, LastPush, After, Full, Kept, PauseAt, AnySpeech, Trail;
    PushInFrames(c, d, s[..n], s[n]);
  }

  lemma PushInFrames(c: Config, d: nat, p: seq<Item>, x: Item)
    requires d > 0 && Uniform(p + [x], d) && (After(c, p).buffer == [] ==> x.isSpeech)
    ensures var b, next, cuts := Accept(After(c, p), x).buffer, After(c, p + [x]).buffer, LastPush(c, p + [x]).1;
            if |b| >= Full(c, d) then
              |next| == Min(|b|, Kept(c, d)) && |cuts| == 1 && (AnySpeech(cuts[0].selected) <==> Trail(b) < |b|)
            else if PauseAt(c, d, |b|, Trail(b)) && Trail(b) < |b| then
              |cuts| == 1 && cuts[0].reason == Silence
            else
              next == b && cuts == []
  {
    var st := After(c, p);
    assert (p + [x])[..|p|] == p;
    RunConsistent(c, p);
    AcceptedIsUniform(d, p, st, Carried(c, p), x);
    hide Uniform, Accept, Decide, Full, Kept, PauseAt, AnySpeech, TrailingSilence, Trail, Consistent;
    DecideInFrames(c, Accept(st, x), d);
    UniformBuffer(Accept(st, x).buffer, d);
  }

  lemma FadingAccept(c: Config, d: nat, speech: nat, count: nat, n: nat)
    requires d > 0 && n < count && speech > 0
    requires n == 0 || Held(c, Fading(d, speech, count), n) != []
    ensures var s := Fading(d, speech, count);
            var b := Accept(After(c, s[..n]), s[n]).buffer;
            && |b| == |Held(c, s, n)| + 1 && Trail(b) == Min(|b|, Max(0, n + 1 - speech))
            && (After(c, s[..n]).buffer == [] ==> s[n].isSpeech)
  {
    hide After, Held, Trail, Accept, Fading, Tone, AnySpeech, SuffixOf;
    FadingBegins(c, d, speech, count, n);
    AcceptsLatest(c, Fading(d, speech, count), n);
    AcceptsOneMore(c, Fading(d, speech, count), n);
    var s := Fading(d, speech, count);
    FadingTrail(d, speech, count, n + 1, Accept(After(c, s[..n]), s[n]).buffer);
  }

  lemma FadingBegins(c: Config, d: nat, speech: nat, count: nat, n: nat)
    requires n < count && speech > 0
    requires n == 0 || Held(c, Fading(d, speech, count), n) != []
    ensures After(c, Fading(d, speech, count)[..n]).buffer == [] ==> n == 0 && Fading(d, speech, count)[n].isSpeech
  {
    hide After, Fading;
  }

  lemma AcceptsLatest(c: Config, s: seq<Item>, n: nat)
    requires n < |s|
    ensures SuffixOf(Accept(After(c, s[..n]), s[n]).buffer, s[..n + 1])
  {
    hide After, Accept, Summarised, Prefixed, SuffixOf, AnySpeech;
    RunConsistent(c, s[..n]);
    AcceptIsSuffix(s[..n], After(c, s[..n]), s[n]);
    assert s[..n] + [s[n]] == s[..n + 1];
  }

  lemma AcceptsOneMore(c: Config, s: seq<Item>, n: nat)
    requires n < |s| && (n == 0 || Held(c, s, n) != [])
    ensures |Accept(After(c, s[..n]), s[n]).buffer| == |Held(c, s, n)| + 1
  {
    FadingStart(c, s);
    hide After, TrailingSilence;
  }

  lemma FadingStart(c: Config, s: seq<Item>)
    ensures After(c, s[..0]) == FRESH
  {
  }

  /** Settings that pass the checks and are not guarded, as seen by one silence that fades
      out of a full buffer: turn is how many frames come between two forced cuts. */
  ghost predicate Open(c: Config, d: nat, turn: nat) {
    && d > 0 && Checked(c) && !Guarded(c, d)
    && Kept(c, d) <= Full(c, d) && turn == Max(1, Full(c, d) - Kept(c, d))
  }

  lemma OpenSettings(c: Config, d: nat)
    requires d > 0 && Checked(c) && !Guarded(c, d)
    ensures Open(c, d, Max(1, Full(c, d) - Kept(c, d))) && Full(c, d) > 0
  {
    FramesForLast(c.maxMs, d);
    LastsIff(Full(c, d), c.overlapMs, d);
  }

  lemma NoPause(c: Config, d: nat, turn: nat, m: nat, silent: int)
    requires Open(c, d, turn) && m < Full(c, d)
    requires silent <= 0 || (m > Max(Kept(c, d), Full(c, d) - Kept(c, d)) && silent <= m - Full(c, d) + Kept(c, d))
    ensures !PauseAt(c, d, m, silent)
  {
    if PauseAt(c, d, m, silent) {
      if silent <= 0 {
        Times(silent, 0, d);
      } else {
        var k := Full(c, d) - 1 - m;
        PauseLasts(c, d, m, silent, k);
        MoreSilence(c, d, m + k, silent + k, Kept(c, d) - 1);
      }
    }
  }

  /** The first m frames of the stream end in a pause. */
  predicate FadedPause(c: Config, d: nat, speech: nat, m: nat) {
    PauseAt(c, d, m, Max(0, m - speech))
  }

  /** On the way to the first full buffer the stream makes no pause. */
  ghost predicate NoEarlyPause(c: Config, d: nat, speech: nat)
    requires d > 0
  {
    forall m: nat :: m < Full(c, d) ==> !FadedPause(c, d, speech, m)
  }

  lemma NotYet(c: Config, d: nat, speech: nat, m: nat)
    requires d > 0 && NoEarlyPause(c, d, speech) && m < Full(c, d)
    ensures !PauseAt(c, d, m, Max(0, m - speech))
  {
    assert !FadedPause(c, d, speech, m);
  }

  /** The first buffer then fills without a cut. */
  lemma {:induction false} FillsUp(c: Config, d: nat, speech: nat, count: nat, n: nat)
    requires d > 0 && speech > 0 && NoEarlyPause(c, d, speech) && n < Full(c, d) && n <= count
    ensures |Held(c, Fading(d, speech, count), n)| == n
  {
    hide Full, Kept, Held, PauseAt, NoEarlyPause, LastPush, Fading, Tone;
    if n == 0 {
      NothingHeld(c, Fading(d, speech, count));
    } else {
      FillsUp(c, d, speech, count, n - 1);
      NotYet(c, d, speech, n);
      FadingGrows(c, d, speech, count, n - 1);
    }
  }

  lemma NothingHeld(c: Config, s: seq<Item>)
    ensures Held(c, s, 0) == []
  {
  }

  /** After a forced cut the buffer fills again without a cut, when all it retains is
      silent or when it will not be silent enough by the next one. */
  lemma {:induction false} FillsAgain(c: Config, d: nat, turn: nat, speech: nat, count: nat, n: nat, i: nat)
    requires d > 0 && Open(c, d, turn) && 0 < speech <= n && i < turn && n + i <= count
    requires |Held(c, Fading(d, speech, count), n)| == Kept(c, d)
    requires n - speech >= Kept(c, d) || n - speech + turn <= Kept(c, d)
    ensures |Held(c, Fading(d, speech, count), n + i)| == Kept(c, d) + i
  {
    hide Full, Kept, Held, PauseAt, Open, Fading, Tone, LastPush, After;
    if i > 0 {
      FillsAgain(c, d, turn, speech, count, n, i - 1);
      TurnFits(c, d, turn, speech, n, i);
      NotEmptyAgain(c, d, Held(c, Fading(d, speech, count), n + i - 1), i - 1);
      FadingGrows(c, d, speech, count, n + i - 1);
    }
  }

  lemma NotEmptyAgain(c: Config, d: nat, b: seq<Item>, i: nat)
    requires d > 0 && |b| == Kept(c, d) + i
    ensures b != []
  {
  }

  lemma TurnFits(c: Config, d: nat, turn: nat, speech: nat, n: nat, i: nat)
    requires Open(c, d, turn) && 0 < speech <= n && 0 < i < turn
    ensures Kept(c, d) + i < Full(c, d)
    ensures n - speech + turn <= Kept(c, d) ==> !PauseAt(c, d, Kept(c, d) + i, n + i - speech)
  {
    hide Full, Kept, PauseAt, Checked, Guarded;
    if n - speech + turn <= Kept(c, d) { NoPause(c, d, turn, Kept(c, d) + i, n + i - speech); }
  }

  lemma KeptSome(c: Config, d: nat)
    requires d > 0
    ensures Kept(c, d) > 0
  {
  }

  lemma FadingGrows(c: Config, d: nat, speech: nat, count: nat, n: nat)
    requires d > 0 && n < count && speech > 0
    requires n == 0 || Held(c, Fading(d, speech, count), n) != []
    requires var m := |Held(c, Fading(d, speech, count), n)| + 1;
             m < Full(c, d) && (n + 1 - speech >= m || !PauseAt(c, d, m, Max(0, n + 1 - speech)))
    ensures |Held(c, Fading(d, speech, count), n + 1)| == |Held(c, Fading(d, speech, count), n)| + 1
    ensures LastPush(c, Fading(d, speech, count)[..n + 1]).1 == []
  {
    hide Full, Kept, Held, PauseAt, LastPush, AnySpeech, Fading, Tone;
    FadingStep(c, d, speech, count, n);
  }

  lemma FadingForced(c: Config, d: nat, speech: nat, count: nat, n: nat)
    requires d > 0 && n < count && speech > 0
    requires n == 0 || Held(c, Fading(d, speech, count), n) != []
    requires |Held(c, Fading(d, speech, count), n)| + 1 >= Full(c, d)
    ensures var s := Fading(d, speech, count);
            && |Held(c, s, n + 1)| == Min(|Held(c, s, n)| + 1, Kept(c, d))
            && |LastPush(c, s[..n + 1]).1| == 1
            && (n + 1 - speech > |Held(c, s, n)| ==> !AnySpeech(LastPush(c, s[..n + 1]).1[0].selected))
  {
    hide Full, Kept, Held, PauseAt, LastPush, AnySpeech, Fading, Tone;
    FadingStep(c, d, speech, count, n);
  }

  /** From one forced cut to the next. */
  lemma NextForced(c: Config, d: nat, turn: nat, speech: nat, count: nat, n: nat)
    requires Open(c, d, turn) && 0 < speech <= n && n + turn <= count
    requires |Held(c, Fading(d, speech, count), n)| == Kept(c, d)
    requires n - speech >= Kept(c, d) || n - speech + turn <= Kept(c, d)
    ensures var s := Fading(d, speech, count);
            && |Held(c, s, n + turn)| == Kept(c, d)
            && |LastPush(c, s[..n + turn]).1| == 1
            && (n - speech >= Kept(c, d) ==> !AnySpeech(LastPush(c, s[..n + turn]).1[0].selected))
  {
    hide Full, Kept, Held, PauseAt, Checked, Guarded, LastPush, AnySpeech, Fading, Tone;
    FillsAgain(c, d, turn, speech, count, n, turn - 1);
    KeptSome(c, d);
    FadingForced(c, d, speech, count, n + turn - 1);
  }

  /** Cut after cut the silence moves towards the front of the retained frames, until
      they are silent. */
  lemma {:induction false} FadesOut(c: Config, d: nat, turn: nat, speech: nat, count: nat, n: nat, turns: nat)
    requires Open(c, d, turn) && 0 < speech <= n <= speech + Kept(c, d) <= count
    requires |Held(c, Fading(d, speech, count), n)| == Kept(c, d)
    requires n + turns * turn == speech + Kept(c, d)
    ensures |Held(c, Fading(d, speech, count), speech + Kept(c, d))| == Kept(c, d)
    decreases turns
  {
    hide Full, Kept, Held, Open, LastPush, Fading;
    if turns > 0 {
      assert turns * turn == (turns - 1) * turn + turn;
      assert (turns - 1) * turn >= 0;
      NextForced(c, d, turn, speech, count, n);
      FadesOut(c, d, turn, speech, count, n + turn, turns - 1);
    }
  }

  lemma Divide(n: nat, unit: nat) returns (times: nat, rest: nat)
    requires unit > 0
    ensures n == times * unit + rest && rest < unit
    decreases n
  {
    if n < unit {
      times, rest := 0, n;
    } else {
      times, rest := Divide(n - unit, unit);
      assert (times + 1) * unit == times * unit + unit;
      times := times + 1;
    }
  }

  /** The stream fades out: its last frame forces a cut in the middle of the silence. */
  lemma FadesToSilence(c: Config, d: nat, turn: nat, turns: nat, silence: nat, speech: nat, count: nat)
    requires Open(c, d, turn) && silence < turn && silence <= Kept(c, d) && silence < Full(c, d)
    requires Kept(c, d) == turns * turn + silence
    requires speech == Full(c, d) - silence && count == speech + Kept(c, d) + turn
    ensures var s := Fading(d, speech, count);
            |LastPush(c, s[..count]).1| == 1 && !AnySpeech(LastPush(c, s[..count]).1[0].selected)
  {
    hide Full, Kept, PauseAt, Checked, Guarded, Fading, LastPush, AnySpeech, Held, Tone;
    OpenNoEarlyPause(c, d, turn, silence);
    FirstForced(c, d, speech, count);
    FadesOut(c, d, turn, speech, count, Full(c, d), turns);
    NextForced(c, d, turn, speech, count, speech + Kept(c, d));
  }

  /** With settings that are not guarded, a forced chunk of some session is silent. */
  lemma SilentForcedChunk(c: Config, d: nat) returns (s: seq<Item>, k: nat)
    requires d > 0 && Checked(c) && !Guarded(c, d)
    ensures Uniform(s, d) && k < |Session(c, s)|
    ensures Session(c, s)[k].reason == ForcedMax && !AnySpeech(Session(c, s)[k].selected)
  {
    OpenSettings(c, d);
    hide Full, Kept, PauseAt, Checked, Guarded, Fading, Uniform, Session, LastPush, AnySpeech, Tone;
    var turn := Max(1, Full(c, d) - Kept(c, d));
    KeptSome(c, d);
    var turns, silence := Divide(Kept(c, d), turn);
    assert turns * turn >= 0;
    hide Open;
    var speech := Full(c, d) - silence;
    var count := speech + Kept(c, d) + turn;
    FadesToSilence(c, d, turn, turns, silence, speech, count);
    s := Fading(d, speech, count);
    FadingIsUniform(d, speech, count);
    assert s[..count] == s;
    k := LastIsInSession(c, s);
    if Session(c, s)[k].reason != ForcedMax { PauseChunkHasSpeech(c, s, k); }
  }

  lemma OpenNoEarlyPause(c: Config, d: nat, turn: nat, silence: nat)
    requires Open(c, d, turn) && silence < turn && silence <= Kept(c, d) && silence < Full(c, d)
    ensures NoEarlyPause(c, d, Full(c, d) - silence)
  {
    hide Full, Kept, PauseAt, Checked, Guarded;
    var speech := Full(c, d) - silence;
    forall m: nat | m < Full(c, d) ensures !FadedPause(c, d, speech, m) {
      NoPause(c, d, turn, m, Max(0, m - speech));
    }
  }

  /** And the full buffer is cut by force. */
  lemma FirstForced(c: Config, d: nat, speech: nat, count: nat)
    requires d > 0 && speech > 0 && NoEarlyPause(c, d, speech) && 0 < Full(c, d) <= count
    ensures var s := Fading(d, speech, count);
            |Held(c, s, Full(c, d))| == Min(Full(c, d), Kept(c, d)) && |LastPush(c, s[..Full(c, d)]).1| == 1
  {
    hide Full, Kept, Held, PauseAt, LastPush, AnySpeech, Fading, Tone, NoEarlyPause;
    FillsUp(c, d, speech, count, Full(c, d) - 1);
    FadingForced(c, d, speech, count, Full(c, d) - 1);
  }

  lemma LastIsInSession(c: Config, s: seq<Item>) returns (k: nat)
    requires s != [] && |LastPush(c, s).1| == 1
    ensures k < |Session(c, s)| && Session(c, s)[k] == LastPush(c, s).1[0]
  {
    hide LastPush, Last;
    k := |Emitted(c, s)| - 1;
  }

  /** Every chunk of every session contains speech. */
  ghost predicate AllHaveSpeech(c: Config, d: nat) {
    forall s, k :: Uniform(s, d) && 0 <= k < |Session(c, s)| ==> AnySpeech(Session(c, s)[k].selected)
  }

  /** For all settings that pass the checks: every chunk contains speech if and only if
      the settings are guarded. */
  lemma EveryChunkHasSpeechIff(c: Config, d: nat)
    requires d > 0 && Checked(c)
    ensures AllHaveSpeech(c, d) <==> Guarded(c, d)
  {
    hide Session, Uniform, Guarded, Checked, AnySpeech;
    if Guarded(c, d) {
      forall s, k | Uniform(s, d) && 0 <= k < |Session(c, s)| ensures AnySpeech(Session(c, s)[k].selected) {
        GuardedHasSpeech(c, d, s, k);
      }
    } else {
      var s, k := SilentForcedChunk(c, d);
    }
  }

  // ---------------------------------------------------------------- the default settings

  const DEFAULTS := Config(4000, 15000, 25000, 600, 500, 400)

  lemma SafeIsGuarded(c: Config, d: nat)
    requires Checked(c) && SpeechSafe(c, d)
    ensures Guarded(c, d)
  {
    hide Session, Guarded, Checked, AnySpeech;
    if !Guarded(c, d) {
      var s, k := SilentForcedChunk(c, d);
      EveryChunkHasSpeech(c, s, d, k);
    }
  }

  /** The default settings are safe. */
  lemma DefaultsAreSafe()
    ensures Checked(DEFAULTS) && SpeechSafe(DEFAULTS, 20) && AllHaveSpeech(DEFAULTS, 20)
  {
    SafeIsGuarded(DEFAULTS, 20);
    EveryChunkHasSpeechIff(DEFAULTS, 20);
  }

  lemma DefaultCounts(overlapMs: int)
    requires 0 <= overlapMs < 25000
    ensures var c := DEFAULTS.(overlapMs := overlapMs);
            && Full(c, 20) == 1250
            && (Kept(c, 20) > 15 <==> 300 < overlapMs) && (Kept(c, 20) <= 1248 <==> overlapMs <= 24960)
  {
    LastsIff(1249, 25000, 20);
    LastsIff(1250, 25000, 20);
    LastsIff(15, overlapMs, 20);
    LastsIff(1248, overlapMs, 20);
    hide FramesFor;
  }

  lemma DefaultGuarded(overlapMs: int)
    requires 300 < overlapMs <= 24960
    ensures Guarded(DEFAULTS.(overlapMs := overlapMs), 20)
  {
    DefaultCounts(overlapMs);
    hide Full, Kept;
  }

  lemma GuardedDefault(overlapMs: int)
    requires 0 <= overlapMs < 25000 && Guarded(DEFAULTS.(overlapMs := overlapMs), 20)
    ensures 300 < overlapMs <= 24960
  {
    DefaultCounts(overlapMs);
    hide Full, Kept;
  }

  /** With another overlap, every chunk contains speech if and only if it lasts more than
      300 ms and leaves two frames to the maximum. */
  lemma DefaultOverlapIff(overlapMs: int)
    requires 0 <= overlapMs < 25000
    ensures AllHaveSpeech(DEFAULTS.(overlapMs := overlapMs), 20) <==> 300 < overlapMs <= 24960
  {
    hide AllHaveSpeech, Guarded;
    EveryChunkHasSpeechIff(DEFAULTS.(overlapMs := overlapMs), 20);
    if Guarded(DEFAULTS.(overlapMs := overlapMs), 20) { GuardedDefault(overlapMs); }
    if 300 < overlapMs <= 24960 { DefaultGuarded(overlapMs); }
  }
}
