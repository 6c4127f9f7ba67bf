/** The promises of the chunk policy over whole sessions: chunks are slices that
    cover all speech, their durations and overlaps are bounded, they contain speech,
    and they satisfy the domain's validity checks. */
module SegmentationLaws {
  import opened Domain
  import opened Segmentation
  import opened SegmentationRuns

  // ---------------------------------------------------------------- coverage

  /** Any session: chunk k is a contiguous slice numbered k, consecutive chunks are
      laid out by the reason of the first, and every speech frame is in a chunk. */
  lemma SessionLayout(c: Config, s: seq<Item>)
    ensures |SessionSpans(c, s)| == |Session(c, s)|
    ensures forall k :: 0 <= k < |Session(c, s)| ==> Slice(s, Session(c, s)[k], SessionSpans(c, s)[k], k)
    ensures forall k :: 0 < k < |Session(c, s)| ==>
              Follows(c, Session(c, s)[k - 1], SessionSpans(c, s)[k - 1], Session(c, s)[k], SessionSpans(c, s)[k])
    ensures forall i :: 0 <= i < |s| && s[i].isSpeech ==> Covered(SessionSpans(c, s), i)
  {
    hide Finish;
    var st, carried := After(c, s), Carried(c, s);
    RunConsistent(c, s);
    RunLaid(c, s);
    FinishLaid(c, s, st, carried, Emitted(c, s), Spans(c, s));
  }

  lemma FinishLaid(c: Config, s: seq<Item>, st: State, carried: nat, cuts: seq<Cut>, spans: seq<Span>)
    requires Consistent(s, st, carried)
    requires Laid(c, s, st, carried, cuts, spans) && st.sequence == |cuts|
    ensures var r := Finish(c, st).1;
            var spans' := spans + SpansOf(|s|, |st.buffer|, r);
            && |spans'| == |cuts + r|
            && (forall k :: 0 <= k < |cuts + r| ==> Slice(s, (cuts + r)[k], spans'[k], k))
            && (forall k :: 0 < k < |cuts + r| ==>
                  Follows(c, (cuts + r)[k - 1], spans'[k - 1], (cuts + r)[k], spans'[k]))
            && (forall i :: 0 <= i < |s| && s[i].isSpeech ==> Covered(spans', i))
  {
    hide Emission, Trimmed;
    FinishEmits(c, st);
    var r := Finish(c, st);
    if r.1 != [] {
      assert r.1 == [r.1[0]];
      LaidEmission(c, s, st, carried, cuts, spans, r.1[0], r.0);
    } else {
      NothingEmitted(cuts, spans, |s|, |st.buffer|);
      SuppressedIsSilent(c, s, st, carried);
    }
  }

  /** When finish emits nothing, no speech is left that was not emitted before. */
  lemma SuppressedIsSilent(c: Config, s: seq<Item>, st: State, carried: nat)
    requires Consistent(s, st, carried) && Finish(c, st).1 == []
    ensures forall i :: |s| - |st.buffer| + carried <= i < |s| ==> !s[i].isSpeech
  {
    if st.buffer != [] {
      assert !AnySpeech(st.buffer[carried..]) by {
        if !st.hasSpeech {
          forall i | 0 <= i < |st.buffer[carried..]| ensures !st.buffer[carried..][i].isSpeech {
            assert st.buffer[carried + i] == st.buffer[carried..][i];
          }
        }
      }
      forall i | |s| - |st.buffer| + carried <= i < |s| ensures !s[i].isSpeech {
        TailSilent(s, st.buffer, carried, i);
      }
    }
  }

  /** The positions of chunk k in the frames pushed. */
  ghost function SpanOf(c: Config, s: seq<Item>, k: nat): (span: Span)
    requires k < |Session(c, s)|
    ensures 0 <= span.lo < span.hi <= |s| && Session(c, s)[k].selected == s[span.lo..span.hi]
  {
    SessionLayout(c, s);
    assert Slice(s, Session(c, s)[k], SessionSpans(c, s)[k], k);
    SessionSpans(c, s)[k]
  }

  // ---------------------------------------------------------------- time

  /** Frames that follow each other without gaps, each lasting 1..d milliseconds. */
  ghost predicate Steady(s: seq<Item>, d: int) {
    && (forall i :: 0 <= i < |s| ==> 0 < s[i].frame.durationMs <= d && s[i].frame.Valid())
    && (forall i :: 0 < i < |s| ==> s[i].frame.startMs == s[i - 1].frame.EndMs())
  }

  lemma SteadySlice(s: seq<Item>, d: int, lo: nat, hi: nat)
    requires Steady(s, d) && lo <= hi <= |s|
    ensures Steady(s[lo..hi], d)
  {
  }

  lemma {:induction false} TotalIsExtent(b: seq<Item>, d: int)
    requires Steady(b, d)
    ensures Total(b) == Extent(b) >= 0
    ensures b != [] ==> Extent(b) > 0
  {
    if b != [] {
      SteadySlice(b, d, 0, |b| - 1);
      TotalIsExtent(b[..|b| - 1], d);
    }
  }

  lemma {:induction false} TotalAppend(a: seq<Item>, b: seq<Item>)
    ensures Total(a + b) == Total(a) + Total(b)
  {
    if b == [] {
      assert a + b == a;
    } else {
      assert (a + b)[..|a + b| - 1] == a + b[..|b| - 1];
      TotalAppend(a, b[..|b| - 1]);
    }
  }

  lemma TotalSplit(b: seq<Item>, n: nat)
    requires n <= |b|
    ensures Total(b) == Total(b[..n]) + Total(b[n..])
  {
    TotalAppend(b[..n], b[n..]);
    assert b[..n] + b[n..] == b;
  }

  lemma TotalTail(b: seq<Item>, k: nat)
    requires k < |b|
    ensures Total(b[k..]) == Total(b[..|b| - 1][k..]) + b[|b| - 1].frame.durationMs
  {
    assert b[k..][..|b[k..]| - 1] == b[..|b| - 1][k..];
  }

  /** The retained frames are the shortest non-empty suffix that lasts the overlap. */
  lemma {:induction false} RetainedIsShortest(b: seq<Item>, overlapMs: int)
    requires b != []
    ensures var n := RetainCount(b, overlapMs);
            && (n == |b| || Total(b[|b| - n..]) >= overlapMs)
            && (n == 1 || Total(b[|b| - n + 1..]) < overlapMs)
  {
    var d := b[|b| - 1].frame.durationMs;
    var p := b[..|b| - 1];
    assert Total(p[|p|..]) == 0;
    if d >= overlapMs {
      TotalTail(b, |b| - 1);
    } else if p != [] {
      var m := RetainCount(p, overlapMs - d);
      RetainedIsShortest(p, overlapMs - d);
      assert RetainCount(b, overlapMs) == 1 + m;
      hide RetainCount, Total;
      TotalTail(b, |p| - m);
      TotalTail(b, |p| - m + 1);
    }
  }

  /** How long the retained audio is: the configured overlap, rounded up to whole
      frames, but never less than one frame. */
  lemma RetainedDuration(b: seq<Item>, d: int, overlapMs: int)
    requires b != [] && Steady(b, d)
    ensures var t := Total(Retained(b, overlapMs));
            && 0 < t < Max(overlapMs, 1) + d
            && (overlapMs <= 0 ==> t == b[|b| - 1].frame.durationMs)
            && (Extent(b) >= overlapMs ==> t >= overlapMs)
  {
    hide RetainCount, Total, Extent, Steady;
    RetainedIsShortest(b, overlapMs);
    var n := RetainCount(b, overlapMs);
    FirstRetained(b, d, |b| - n);
    if n == |b| { assert b[0..] == b; }
    if n == 1 { NoTotal(); }
    if overlapMs <= 0 {
      DurationAt(b, d, |b| - 1);
      OneRetained(b, overlapMs);
    }
  }

  lemma DurationAt(b: seq<Item>, d: int, k: nat)
    requires Steady(b, d) && k < |b|
    ensures 0 < b[k].frame.durationMs <= d
  {
  }

  /** The frames from number k on: their durations add up, and the first one's is positive. */
  lemma FirstRetained(b: seq<Item>, d: int, k: nat)
    requires Steady(b, d) && k < |b|
    ensures Total(b[k..]) == b[k].frame.durationMs + Total(b[k + 1..])
    ensures 0 < b[k].frame.durationMs <= d && Total(b[k + 1..]) >= 0 && Total(b) == Extent(b)
    ensures k == |b| - 1 ==> b[k + 1..] == []
  {
    DurationAt(b, d, k);
    SteadySlice(b, d, k + 1, |b|);
    hide Total, Extent, Steady;
    TotalSuffix(b, k);
    assert b[k + 1..|b|] == b[k + 1..];
    TotalIsExtent(b[k + 1..], d);
    TotalIsExtent(b, d);
  }

  lemma OneRetained(b: seq<Item>, overlapMs: int)
    requires b != [] && b[|b| - 1].frame.durationMs >= overlapMs
    ensures RetainCount(b, overlapMs) == 1
  {
  }

  lemma NoTotal()
    ensures Total([]) == 0
  {
  }

  // ---------------------------------------------------------------- bounded chunks

  /** The relations between settings under which durations stay bounded. */
  predicate Bounded(c: Config, d: int) {
    0 < d < c.maxMs && c.paddingMs < c.maxMs && c.overlapMs + d <= c.maxMs
  }

  predicate BelowMax(c: Config, st: State) {
    && Extent(st.buffer) < c.maxMs
    && (|st.preRoll| <= 1 || Extent(st.preRoll) <= c.paddingMs)
  }

  /** Between calls the buffer is shorter than the hard maximum. */
  lemma {:induction false} RunBelowMax(c: Config, s: seq<Item>, d: int)
    requires Steady(s, d) && Bounded(c, d)
    ensures BelowMax(c, After(c, s))
  {
    hide Push;
    if s != [] {
      var p, x := s[..|s| - 1], s[|s| - 1];
      RunBelowMax(c, p, d);
      RunConsistent(c, p);
      assert p + [x] == s;
      PushBelowMax(c, p, After(c, p), Carried(c, p), x, d);
    }
  }

  /** The frames a push puts in front of the new one. */
  function Before(st: State): seq<Item> {
    if st.buffer == [] then st.preRoll else st.buffer
  }

  lemma ExtentAppend(b: seq<Item>, x: Item, d: int)
    requires Steady(b + [x], d)
    ensures Steady(b, d) && Extent(b + [x]) == Extent(b) + x.frame.durationMs
  {
    var t := b + [x];
    assert t[|t| - 1] == x && forall i :: 0 <= i < |b| ==> t[i] == b[i];
    if b != [] { assert t[|b|].frame.startMs == t[|b| - 1].frame.EndMs(); }
  }

  lemma AcceptExtent(s: seq<Item>, st: State, x: Item, d: int)
    requires Placed(s, st) && Steady(s + [x], d)
    ensures var b := Accept(st, x).buffer;
            && b == Before(st) + [x]
            && Steady(b, d) && Steady(Before(st), d)
            && Extent(b) == Extent(Before(st)) + x.frame.durationMs
  {
    hide AnySpeech, TrailingSilence;
    var t, b := s + [x], Before(st) + [x];
    assert b == t[|t| - |b|..];
    SteadySlice(t, d, |t| - |b|, |t|);
    hide Steady, Extent;
    ExtentAppend(Before(st), x, d);
  }

  /** With the new frame the buffer is shorter than the maximum plus that frame. */
  lemma AcceptBelowMax(c: Config, s: seq<Item>, st: State, x: Item, d: int)
    requires Steady(s + [x], d) && Bounded(c, d) && BelowMax(c, st)
    requires Placed(s, st)
    ensures Steady(Accept(st, x).buffer, d)
    ensures Extent(Accept(st, x).buffer) < c.maxMs + d
  {
    hide AnySpeech, TrailingSilence, Accept;
    AcceptExtent(s, st, x, d);
    assert x == (s + [x])[|s|];
    if |Before(st)| == 1 { assert Extent(Before(st)) == Before(st)[0].frame.durationMs; }
  }

  lemma DecideBelowMax(c: Config, a: State, frameMs: int, d: int)
    requires Summarised(a) && a.buffer != [] && a.preRoll == []
    requires Steady(a.buffer, d) && Bounded(c, d)
    ensures BelowMax(c, Decide(c, a, frameMs).0)
  {
    hide SilenceReached, Trimmed, TrailingSilence, AnySpeech, RetainCount;
    RetainedDuration(a.buffer, d, c.overlapMs);
    var k := |a.buffer| - RetainCount(a.buffer, c.overlapMs);
    SteadySlice(a.buffer, d, k, |a.buffer|);
    TotalIsExtent(a.buffer[k..], d);
  }

  lemma PushBelowMax(c: Config, s: seq<Item>, st: State, carried: nat, x: Item, d: int)
    requires Steady(s + [x], d) && Bounded(c, d) && BelowMax(c, st)
    requires Consistent(s, st, carried)
    ensures BelowMax(c, Push(c, st, x).0)
  {
    hide Decide, TrailingSilence;
    if st.buffer == [] && !x.isSpeech {
      PreRollIsLongest(st.preRoll + [x], c.paddingMs);
    } else {
      AcceptConsistent(s, st, carried, x);
      AcceptBelowMax(c, s, st, x, d);
      DecideBelowMax(c, Accept(st, x), x.frame.durationMs, d);
    }
  }

  // ---------------------------------------------------------------- from states to chunks

  /** The buffer chunk number k of a session was cut from, and the prefix of the
      stream that had been pushed by then. */
  ghost predicate Origin(c: Config, s: seq<Item>, cut: Cut, n: nat, pushed: bool)
    requires n <= |s|
  {
    if pushed then n > 0 && LastPush(c, s[..n]).1 == [cut]
    else n == |s| && Last(c, s) == [cut]
  }

  lemma PushEmitsOne(c: Config, s: seq<Item>)
    requires s != [] && LastPush(c, s).1 != []
    ensures |LastPush(c, s).1| == 1
    ensures var p := s[..|s| - 1];
            var a := Accept(After(c, p), s[|s| - 1]);
            && Consistent(s, a, Carried(c, p))
            && Emission(c, a, LastPush(c, s).1[0], After(c, s))
            && (After(c, p).buffer == [] ==> s[|s| - 1].isSpeech)
  {
    hide Decide, Emission, SuffixOf;
    var p, x := s[..|s| - 1], s[|s| - 1];
    assert p + [x] == s;
    RunConsistent(c, p);
    AcceptConsistent(p, After(c, p), Carried(c, p), x);
    DecideEmits(c, Accept(After(c, p), x), x.frame.durationMs);
  }

  lemma AtMostOne(c: Config, s: seq<Item>)
    ensures s != [] ==> |LastPush(c, s).1| <= 1
    ensures |Last(c, s)| <= 1
  {
    hide Push, Finish;
    if s != [] && LastPush(c, s).1 != [] { PushEmitsOne(c, s); }
    FinishEmits(c, After(c, s));
  }

  lemma EmittedSplit(c: Config, s: seq<Item>)
    ensures if s == [] then Emitted(c, s) == [] else Emitted(c, s) == Emitted(c, s[..|s| - 1]) + LastPush(c, s).1
  {
    hide LastPush;
  }

  lemma {:induction false} EmittedOrigin(c: Config, s: seq<Item>, k: nat) returns (n: nat)
    requires k < |Emitted(c, s)|
    ensures 0 < n <= |s| && LastPush(c, s[..n]).1 == [Emitted(c, s)[k]]
    decreases |s|
  {
    hide LastPush, Emitted;
    EmittedSplit(c, s);
    var p := s[..|s| - 1];
    if k < |Emitted(c, p)| {
      n := EmittedOrigin(c, p, k);
      assert p[..n] == s[..n];
    } else {
      n := |s|;
      assert s[..n] == s;
      AtMostOne(c, s);
    }
  }

  lemma SessionOrigin(c: Config, s: seq<Item>, k: nat) returns (n: nat, pushed: bool)
    requires k < |Session(c, s)|
    ensures n <= |s| && Origin(c, s, Session(c, s)[k], n, pushed)
  {
    hide Push, Finish;
    pushed := k < |Emitted(c, s)|;
    if pushed {
      n := EmittedOrigin(c, s, k);
    } else {
      n := |s|;
      FinishEmits(c, After(c, s));
    }
  }

  lemma ExtentOfPrefix(b: seq<Item>, d: int, n: nat)
    requires Steady(b, d) && 0 < n <= |b|
    ensures 0 < Extent(b[..n]) <= Extent(b)
  {
    SteadySlice(b, d, 0, n);
    SteadySlice(b, d, n, |b|);
    TotalSplit(b, n);
    TotalIsExtent(b, d);
    TotalIsExtent(b[..n], d);
    TotalIsExtent(b[n..], d);
  }

  lemma PushedBelowMax(c: Config, s: seq<Item>, d: int)
    requires Steady(s, d) && Bounded(c, d) && s != [] && LastPush(c, s).1 != []
    ensures 0 < Extent(LastPush(c, s).1[0].selected) < c.maxMs + d
  {
    PushEmitsOne(c, s);
    hide Push, After, LastPush, Accept, Summarised, Prefixed, Retained, Total, AnySpeech, Steady, Bounded, Extent;
    AcceptedBelowMax(c, s, d);
    EmittedBelow(s, d, Accept(After(c, s[..|s| - 1]), s[|s| - 1]).buffer, LastPush(c, s).1[0].selected);
  }

  lemma AcceptedBelowMax(c: Config, s: seq<Item>, d: int)
    requires Steady(s, d) && Bounded(c, d) && s != []
    ensures Extent(Accept(After(c, s[..|s| - 1]), s[|s| - 1]).buffer) < c.maxMs + d
  {
    var p, x := s[..|s| - 1], s[|s| - 1];
    assert p + [x] == s;
    SteadySlice(s, d, 0, |s| - 1);
    RunConsistent(c, p);
    RunBelowMax(c, p, d);
    hide After, Accept, Summarised, Prefixed, Placed, BelowMax, Steady, Bounded, Extent;
    AcceptBelowMax(c, p, After(c, p), x, d);
  }

  lemma FinishedBelowMax(c: Config, s: seq<Item>, d: int)
    requires Steady(s, d) && Bounded(c, d) && Last(c, s) != []
    ensures 0 < Extent(Last(c, s)[0].selected) < c.maxMs + d
  {
    RunConsistent(c, s);
    RunBelowMax(c, s, d);
    FinishEmits(c, After(c, s));
    hide Finish, After, Summarised, Prefixed, Retained, Total, AnySpeech, Bounded, Steady, Extent;
    EmittedBelow(s, d, After(c, s).buffer, Last(c, s)[0].selected);
  }

  /** A chunk is no longer than the buffer it was cut from. */
  lemma EmittedBelow(s: seq<Item>, d: int, b: seq<Item>, selected: seq<Item>)
    requires Steady(s, d) && SuffixOf(b, s) && selected != [] && selected <= b
    ensures 0 < Extent(selected) <= Extent(b)
  {
    SteadySlice(s, d, |s| - |b|, |s|);
    hide Steady, Extent;
    ExtentOfPrefix(b, d, |selected|);
    assert selected == b[..|selected|];
  }

  /** Every chunk is shorter than the hard maximum plus one frame. */
  lemma ChunkBounded(c: Config, s: seq<Item>, d: int, k: nat)
    requires Steady(s, d) && Bounded(c, d) && k < |Session(c, s)|
    ensures 0 < Extent(Session(c, s)[k].selected) < c.maxMs + d
  {
    hide Push, Finish, Session;
    var n, pushed := SessionOrigin(c, s, k);
    if pushed {
      SteadySlice(s, d, 0, n);
      PushedBelowMax(c, s[..n], d);
    } else {
      FinishedBelowMax(c, s, d);
    }
  }

  /** A chunk is forced only when its frames reach the hard maximum. */
  lemma ForcedIsLong(c: Config, s: seq<Item>, k: nat)
    requires k < |Session(c, s)| && Session(c, s)[k].reason == ForcedMax
    ensures Extent(Session(c, s)[k].selected) >= c.maxMs
  {
    hide Session, Push, Finish, After, Extent;
    var n, pushed := SessionOrigin(c, s, k);
    if pushed {
      PushedIsLong(c, s[..n]);
    } else {
      FinishIsNotForced(c, s);
    }
  }

  lemma PushedIsLong(c: Config, s: seq<Item>)
    requires s != []
    ensures forall cut <- LastPush(c, s).1 :: cut.reason == ForcedMax ==> Extent(cut.selected) >= c.maxMs
  {
    hide After, Accept, Extent, SilenceReached, Trimmed, Retained, AnySpeech, TrailingSilence, Shorten;
  }

  lemma FinishIsNotForced(c: Config, s: seq<Item>)
    ensures forall cut <- Last(c, s) :: cut.reason == Stop
  {
    hide After, Trimmed, AnySpeech;
  }

  function StartMs(cut: Cut): int
    requires cut.selected != []
  {
    cut.selected[0].frame.startMs
  }

  function EndMs(cut: Cut): int
    requires cut.selected != []
  {
    cut.selected[|cut.selected| - 1].frame.EndMs()
  }

  lemma ForcedSpacing(c: Config, s: seq<Item>, d: int, prev: Cut, prevSpan: Span, next: Cut, span: Span, j: nat, k: nat)
    requires Steady(s, d) && Slice(s, prev, prevSpan, j) && Slice(s, next, span, k)
    requires Follows(c, prev, prevSpan, next, span) && prev.reason == ForcedMax
    ensures StartMs(next) == EndMs(prev) - next.prefixOverlapMs
  {
    hide RetainCount, Total;
    var kept := Retained(prev.selected, c.overlapMs);
    assert kept == s[span.lo..prevSpan.hi];
    SteadySlice(s, d, span.lo, prevSpan.hi);
    TotalIsExtent(kept, d);
  }

  ghost predicate Spaced(c: Config, d: int, prev: Cut, next: Cut)
    requires prev.selected != [] && next.selected != []
  {
    if prev.reason == ForcedMax then
      && StartMs(next) == EndMs(prev) - next.prefixOverlapMs
      && Max(c.overlapMs, 1) <= next.prefixOverlapMs < Max(c.overlapMs, 1) + d
      && (c.overlapMs <= 0 ==>
            next.prefixOverlapMs == prev.selected[|prev.selected| - 1].frame.durationMs)
    else
      StartMs(next) >= EndMs(prev) && next.prefixOverlapMs == 0
  }

  lemma SlicesAreSpaced(c: Config, s: seq<Item>, d: int, prev: Cut, prevSpan: Span, next: Cut, span: Span,
                        j: nat, k: nat)
    requires Steady(s, d) && Slice(s, prev, prevSpan, j) && Slice(s, next, span, k)
    requires Follows(c, prev, prevSpan, next, span)
    requires prev.reason == ForcedMax ==> Extent(prev.selected) >= c.overlapMs
    ensures Spaced(c, d, prev, next)
  {
    hide RetainCount, Total;
    if prev.reason == ForcedMax {
      SteadySlice(s, d, prevSpan.lo, prevSpan.hi);
      RetainedDuration(prev.selected, d, c.overlapMs);
      ForcedSpacing(c, s, d, prev, prevSpan, next, span, j, k);
    } else {
      Later(s, d, prevSpan.hi - 1, span.lo);
    }
  }

  /** Where consecutive chunks lie in time. After a forced cut the next chunk starts
      exactly its retained duration before the previous end, and that duration is the
      configured overlap rounded up to whole frames (one frame when it is 0). After
      any other cut it starts at or after the previous end and repeats nothing. */
  lemma ChunkSpacing(c: Config, s: seq<Item>, d: int, k: nat)
    requires Steady(s, d) && c.overlapMs <= c.maxMs && 0 < k < |Session(c, s)|
    ensures Spaced(c, d, Session(c, s)[k - 1], Session(c, s)[k])
  {
    hide Push, Finish, Session, SessionSpans, Slice, Follows;
    SessionLayout(c, s);
    if Session(c, s)[k - 1].reason == ForcedMax { ForcedIsLong(c, s, k - 1); }
    SlicesAreSpaced(c, s, d, Session(c, s)[k - 1], SessionSpans(c, s)[k - 1],
                    Session(c, s)[k], SessionSpans(c, s)[k], k - 1, k);
  }

  lemma Later(s: seq<Item>, d: int, i: nat, j: nat)
    requires Steady(s, d) && i < j < |s|
    ensures s[j].frame.startMs >= s[i].frame.EndMs()
  {
    SteadySlice(s, d, i + 1, j);
    TotalIsExtent(s[i + 1..j], d);
  }

  // ---------------------------------------------------------------- valid chunks

  lemma {:induction false} SpeechTotalFits(b: seq<Item>, d: int)
    requires Steady(b, d)
    ensures 0 <= SpeechTotal(b) <= Total(b)
    ensures b != [] ==> Pcm(b) != []
  {
    if b != [] {
      SteadySlice(b, d, 0, |b| - 1);
      SpeechTotalFits(b[..|b| - 1], d);
    }
  }

  /** Every chunk passes the domain's checks: the only way to be refused is the empty
      session id. A chunk reports the speech it holds, and as overlap what it repeats,
      clamped below its length. */
  lemma ChunksAreValid(c: Config, s: seq<Item>, d: int, id: string, k: nat)
    requires Steady(s, d) && k < |Session(c, s)|
    ensures var chunk := ChunkOf(id, Session(c, s)[k]);
            && (chunk.Valid() <==> id != "")
            && chunk.sequence == k
            && chunk.speechMs == SpeechTotal(Session(c, s)[k].selected)
            && 0 <= chunk.overlapMs <= Session(c, s)[k].prefixOverlapMs
            && (Session(c, s)[k].prefixOverlapMs < chunk.DurationMs() ==>
                  chunk.overlapMs == Session(c, s)[k].prefixOverlapMs)
  {
    hide Push, Finish, Session, SessionSpans, SpeechTotal, Pcm;
    SessionLayout(c, s);
    var cut, span := Session(c, s)[k], SessionSpans(c, s)[k];
    assert Slice(s, cut, span, k);
    SteadySlice(s, d, span.lo, span.hi);
    SpeechTotalFits(cut.selected, d);
    TotalIsExtent(cut.selected, d);
    PrefixNonNegative(c, s, d, k);
  }

  lemma PrefixNonNegative(c: Config, s: seq<Item>, d: int, k: nat)
    requires Steady(s, d) && k < |Session(c, s)|
    ensures Session(c, s)[k].prefixOverlapMs >= 0
  {
    hide Session, Push, Finish, Accept;
    var n, pushed := SessionOrigin(c, s, k);
    if pushed {
      SteadySlice(s, d, 0, n);
      PushEmitsOne(c, s[..n]);
      PrefixedNonNegative(s[..n], d, Accept(After(c, s[..n][..n - 1]), s[..n][n - 1]), Carried(c, s[..n][..n - 1]));
    } else {
      RunConsistent(c, s);
      FinishEmits(c, After(c, s));
      PrefixedNonNegative(s, d, After(c, s), Carried(c, s));
    }
  }

  lemma PrefixedNonNegative(s: seq<Item>, d: int, st: State, carried: nat)
    requires Steady(s, d) && Placed(s, st) && Prefixed(st, carried)
    ensures st.prefixOverlapMs >= 0
  {
    var start := |s| - |st.buffer|;
    SteadySlice(s, d, start, start + carried);
    assert st.buffer[..carried] == s[start..start + carried];
    TotalIsExtent(st.buffer[..carried], d);
  }

  // ---------------------------------------------------------------- edges of a chunk

  /** The pre-roll is the longest run of recent frames that fits the padding, and at
      least one frame. */
  lemma {:induction false} PreRollIsLongest(p: seq<Item>, paddingMs: int)
    requires p != []
    ensures var q := Shorten(p, paddingMs);
            && q != [] && SuffixOf(q, p)
            && (|q| == 1 || Extent(q) <= paddingMs)
            && forall k :: 0 <= k < |p| - |q| ==> Extent(p[k..]) > paddingMs
  {
    if |p| > 1 && Extent(p) > paddingMs {
      PreRollIsLongest(p[1..], paddingMs);
      forall k | 0 <= k < |p| - |Shorten(p, paddingMs)| ensures Extent(p[k..]) > paddingMs {
        if k == 0 { assert p[0..] == p; } else { assert p[k..] == p[1..][k - 1..]; }
      }
    }
  }

  /** Where the silence began that has been pushed since no chunk is being collected. */
  ghost function IdleFrom(c: Config, s: seq<Item>): (n: nat)
    ensures n <= |s|
  {
    if s == [] then 0
    else if After(c, s[..|s| - 1]).buffer != [] || s[|s| - 1].isSpeech then |s|
    else IdleFrom(c, s[..|s| - 1])
  }

  /** q is the longest run of the latest frames, from number n on, within the padding, and
      at least one frame if there is any. */
  ghost predicate LongestRun(q: seq<Item>, s: seq<Item>, n: nat, paddingMs: int)
    requires n <= |s|
  {
    && SuffixOf(q, s) && |q| <= |s| - n
    && (n < |s| ==> q != [])
    && (|q| <= 1 || Extent(q) <= paddingMs)
    && forall k :: n <= k < |s| - |q| ==> TooLong(s, k, paddingMs)
  }

  /** The frames from number k on exceed the padding. */
  predicate TooLong(s: seq<Item>, k: int, paddingMs: int) {
    0 <= k <= |s| && Extent(s[k..]) > paddingMs
  }

  lemma LongerStays(p: seq<Item>, x: Item, k: nat, d: int, paddingMs: int)
    requires Steady(p + [x], d) && TooLong(p, k, paddingMs)
    ensures TooLong(p + [x], k, paddingMs)
  {
    var s := p + [x];
    SteadySlice(s, d, k, |s|);
    SteadySlice(s, d, |p|, |s|);
    assert s[k..|s|] == p[k..] + [x] && s[|p|..|s|] == [x] && s[k..] == p[k..] + [x];
    hide Extent;
    ExtentAppend(p[k..], x, d);
    assert s[|p|].frame.durationMs > 0;
  }

  lemma SameTail(q: seq<Item>, p: seq<Item>, x: Item, k: nat, paddingMs: int)
    requires SuffixOf(q, p) && |p| - |q| <= k <= |p| && TooLong(q + [x], k - (|p| - |q|), paddingMs)
    ensures TooLong(p + [x], k, paddingMs)
  {
    assert (p + [x])[k..] == (q + [x])[k - (|p| - |q|)..];
  }

  lemma ShortenLeaves(p: seq<Item>, paddingMs: int)
    requires p != []
    ensures var q := Shorten(p, paddingMs);
            && q != [] && SuffixOf(q, p)
            && (|q| <= 1 || Extent(q) <= paddingMs)
            && forall k :: 0 <= k < |p| - |q| ==> TooLong(p, k, paddingMs)
  {
    PreRollIsLongest(p, paddingMs);
    hide Shorten, Extent;
  }

  lemma LongestRunGrows(q: seq<Item>, p: seq<Item>, n: nat, x: Item, d: int, paddingMs: int)
    requires n <= |p| && Steady(p + [x], d) && LongestRun(q, p, n, paddingMs)
    ensures LongestRun(Shorten(q + [x], paddingMs), p + [x], n, paddingMs)
  {
    hide Shorten, Extent, Steady, TooLong, SuffixOf;
    var s, qx := p + [x], q + [x];
    var r := Shorten(qx, paddingMs);
    ShortenLeaves(qx, paddingMs);
    SuffixExtends(q, p, x);
    SuffixTrans(r, qx, s);
    SuffixFits(q, p);
    SuffixFits(r, qx);
    forall k | n <= k < |s| - |r| ensures TooLong(s, k, paddingMs) {
      if k >= |p| - |q| {
        SameTail(q, p, x, k, paddingMs);
      } else {
        LongerStays(p, x, k, d, paddingMs);
      }
    }
  }

  lemma SuffixFits(q: seq<Item>, p: seq<Item>)
    requires SuffixOf(q, p)
    ensures |q| <= |p|
  {
  }

  lemma IdlePush(c: Config, s: seq<Item>)
    requires s != [] && After(c, s).buffer == []
    ensures var before := After(c, s[..|s| - 1]);
            After(c, s).preRoll
              == if before.buffer == [] && !s[|s| - 1].isSpeech
                 then Shorten(before.preRoll + [s[|s| - 1]], c.paddingMs) else []
  {
    IdleAfter(c, After(c, s[..|s| - 1]), s[|s| - 1]);
  }

  lemma IdleAfter(c: Config, st: State, x: Item)
    requires Summarised(st) && Push(c, st, x).0.buffer == []
    ensures Push(c, st, x).0.preRoll
         == if st.buffer == [] && !x.isSpeech then Shorten(st.preRoll + [x], c.paddingMs) else []
  {
    hide Shorten, Trimmed, TrailingSilence, AnySpeech, Extent, SilenceReached;
  }

  lemma NoRun(s: seq<Item>, paddingMs: int)
    ensures LongestRun([], s, |s|, paddingMs)
  {
  }

  lemma IdleAtFirst(c: Config)
    ensures After(c, []).preRoll == [] && IdleFrom(c, []) == 0
  {
  }

  lemma IdleStep(c: Config, s: seq<Item>)
    requires s != []
    ensures var p := s[..|s| - 1];
            IdleFrom(c, s) == if After(c, p).buffer == [] && !s[|s| - 1].isSpeech then IdleFrom(c, p) else |s|
  {
    hide After;
  }

  /** In every session, while no chunk is being collected, the pre-roll is the longest run
      of the silence since the last one that fits the padding. */
  lemma {:induction false} PreRollIsKept(c: Config, s: seq<Item>, d: int)
    requires Steady(s, d) && After(c, s).buffer == []
    ensures LongestRun(After(c, s).preRoll, s, IdleFrom(c, s), c.paddingMs)
    decreases |s|
  {
    hide After, LongestRun, Shorten, IdleFrom;
    if s == [] {
      IdleAtFirst(c);
      NoRun(s, c.paddingMs);
    } else {
      var p, x := s[..|s| - 1], s[|s| - 1];
      IdlePush(c, s);
      IdleStep(c, s);
      if After(c, p).buffer == [] && !x.isSpeech {
        SteadySlice(s, d, 0, |p|);
        assert s[0..|p|] == p && p + [x] == s;
        hide Steady;
        PreRollIsKept(c, p, d);
        LongestRunGrows(After(c, p).preRoll, p, IdleFrom(c, p), x, d, c.paddingMs);
      } else {
        NoRun(s, c.paddingMs);
      }
    }
  }

  /** Trimming keeps everything up to the last speech frame and then the fewest silent
      frames that make up the padding. */
  lemma TrimmedKeepsPadding(b: seq<Item>, paddingMs: int)
    requires AnySpeech(b)
    ensures var l, n := LastSpeech(b), |Trimmed(b, paddingMs)|;
            && l < n <= |b| && Trimmed(b, paddingMs) == b[..n]
            && (n == |b| || Total(b[l + 1..n]) >= paddingMs)
            && (n == l + 1 || Total(b[l + 1..n - 1]) < paddingMs)
  {
    PadEndIsLeast(b, LastSpeech(b) + 1, paddingMs);
    assert b[LastSpeech(b) + 1..LastSpeech(b) + 1] == [];
  }

  lemma TotalFirst(b: seq<Item>, lo: nat, hi: nat)
    requires lo < hi <= |b|
    ensures Total(b[lo..hi]) == b[lo].frame.durationMs + Total(b[lo + 1..hi])
  {
    hide Total;
    TotalSuffix(b[lo..hi], 0);
    assert b[lo..hi][0..] == b[lo..hi] && b[lo..hi][1..] == b[lo + 1..hi];
  }

  lemma {:induction false} PadEndIsLeast(b: seq<Item>, start: nat, paddingMs: int)
    requires start <= |b|
    ensures var e := PadEnd(b, start, paddingMs);
            && (e == |b| || Total(b[start..e]) >= paddingMs)
            && (e == start || Total(b[start..e - 1]) < paddingMs)
    decreases |b| - start
  {
    hide Total;
    assert b[start..start] == [];
    NoTotal();
    if start < |b| && 0 < paddingMs {
      var d := b[start].frame.durationMs;
      var e := PadEnd(b, start + 1, paddingMs - d);
      PadEndIsLeast(b, start + 1, paddingMs - d);
      TotalFirst(b, start, e);
      if e > start + 1 { TotalFirst(b, start, e - 1); }
    }
  }

  /** The silence that makes a pause: the configured silence, or, once the target duration
      is reached, half of it or one frame, whichever is more. */
  function PauseMs(c: Config, durationMs: int, frameMs: int): real {
    var whole, frame := c.silenceMs as real, frameMs as real;
    if durationMs < c.targetMs then whole else if frame >= whole / 2.0 then frame else whole / 2.0
  }

  /** b is long enough, holds speech and ends in enough silence. */
  predicate AtPause(c: Config, b: seq<Item>, frameMs: int) {
    && c.minMs <= Extent(b) < c.maxMs && AnySpeech(b)
    && TrailingSilence(b) as real >= PauseMs(c, Extent(b), frameMs)
  }

  /** Which chunk, if any, is cut from buffer b. */
  predicate CutFrom(c: Config, b: seq<Item>, frameMs: int, cuts: seq<Cut>) {
    && (cuts != [] <==> Extent(b) >= c.maxMs || AtPause(c, b, frameMs))
    && (cuts != [] && Extent(b) >= c.maxMs ==> cuts[0].reason == ForcedMax && cuts[0].selected == b)
    && (cuts != [] && AtPause(c, b, frameMs) ==>
          cuts[0].reason == Silence && AnySpeech(b) && cuts[0].selected == Trimmed(b, c.paddingMs))
  }

  lemma DecideCuts(c: Config, a: State, frameMs: int)
    requires Summarised(a) && a.buffer != []
    ensures CutFrom(c, a.buffer, frameMs, Decide(c, a, frameMs).1)
  {
    hide Trimmed, TrailingSilence, Retained;
  }

  lemma PushCuts(c: Config, st: State, x: Item)
    requires Summarised(st) && (st.buffer != [] || x.isSpeech)
    ensures CutFrom(c, Before(st) + [x], x.frame.durationMs, Push(c, st, x).1)
  {
    hide CutFrom, Decide, TrailingSilence, AnySpeech;
    AcceptSummarised(st, x);
    DecideCuts(c, Accept(st, x), x.frame.durationMs);
  }

  /** When a frame is pushed into buffer b, measured on b itself rather than on the cached
      summaries: a chunk is forced exactly at the hard maximum, and otherwise cut exactly
      at a pause. */
  lemma CutDecision(c: Config, s: seq<Item>)
    requires s != []
    requires After(c, s[..|s| - 1]).buffer != [] || s[|s| - 1].isSpeech
    ensures var x := s[|s| - 1];
            var b := Before(After(c, s[..|s| - 1])) + [x];
            SuffixOf(b, s) && CutFrom(c, b, x.frame.durationMs, LastPush(c, s).1)
  {
    hide CutFrom, Push, AnySpeech, Prefixed, Summarised;
    var p, x := s[..|s| - 1], s[|s| - 1];
    PushCuts(c, After(c, p), x);
    RunConsistent(c, p);
    assert p + [x] == s;
    SuffixExtends(Before(After(c, p)), p, x);
  }

  /** What finish emits, measured on the frames that are left: a chunk exactly when they
      hold speech that was not emitted before, and then all of them less the silence
      beyond the padding. */
  lemma FinishDecision(c: Config, s: seq<Item>)
    ensures var b, carried := After(c, s).buffer, Carried(c, s);
            && SuffixOf(b, s) && carried <= |b|
            && (Last(c, s) != [] <==> AnySpeech(b) && (Total(b[..carried]) == 0 || AnySpeech(b[carried..])))
            && (Last(c, s) != [] ==>
                  && |Last(c, s)| == 1 && Last(c, s)[0].reason == Stop
                  && Last(c, s)[0].selected == Trimmed(b, c.paddingMs))
  {
    RunConsistent(c, s);
    hide After, Carried, SuffixOf, Trimmed, Total, TrailingSilence;
  }

  lemma SilentFrom(b: seq<Item>, i: nat)
    requires i <= |b| && !AnySpeech(b[i..])
    ensures forall k :: i <= k < |b| ==> !b[k].isSpeech
  {
    forall k | i <= k < |b| ensures !b[k].isSpeech {
      assert b[i..][k - i] == b[k];
    }
  }

  lemma LastSpeechIs(b: seq<Item>, l: nat)
    requires l < |b| && b[l].isSpeech && forall k :: l < k < |b| ==> !b[k].isSpeech
    ensures AnySpeech(b) && LastSpeech(b) == l
  {
    hide LastSpeech;
    SilentFrom(b, LastSpeech(b) + 1);
  }

  lemma TrimmedEnds(b: seq<Item>, paddingMs: int)
    requires AnySpeech(b)
    ensures var t := Trimmed(b, paddingMs);
            && AnySpeech(t)
            && (LastSpeech(t) == |t| - 1 || Total(t[LastSpeech(t) + 1..|t| - 1]) < paddingMs)
  {
    TrimmedKeepsPadding(b, paddingMs);
    SilentFrom(b, LastSpeech(b) + 1);
    hide LastSpeech, Trimmed, Total, AnySpeech;
    var t, l := Trimmed(b, paddingMs), LastSpeech(b);
    LastSpeechIs(t, l);
    assert |t| > l + 1 ==> t[l + 1..|t| - 1] == b[l + 1..|t| - 1];
  }

  /** A chunk cut at a pause or at the end holds speech, and after it no more frames than
      make up the padding. */
  lemma SilenceAtEnd(c: Config, s: seq<Item>, k: nat)
    requires k < |Session(c, s)| && Session(c, s)[k].reason != ForcedMax
    ensures var b := Session(c, s)[k].selected;
            && AnySpeech(b)
            && (LastSpeech(b) == |b| - 1 || Total(b[LastSpeech(b) + 1..|b| - 1]) < c.paddingMs)
  {
    hide Session, Last, LastPush, After, Carried, Trimmed, Total, AnySpeech, Extent, TrailingSilence;
    var n, pushed := SessionOrigin(c, s, k);
    if pushed {
      PushedIsCut(c, s[..n]);
    } else {
      FinishDecision(c, s);
      assert s[..n] == s;
      TrimmedEnds(After(c, s).buffer, c.paddingMs);
    }
  }

  lemma PushedIsCut(c: Config, s: seq<Item>)
    requires s != [] && LastPush(c, s).1 != [] && LastPush(c, s).1[0].reason != ForcedMax
    ensures var b := LastPush(c, s).1[0].selected;
            && AnySpeech(b)
            && (LastSpeech(b) == |b| - 1 || Total(b[LastSpeech(b) + 1..|b| - 1]) < c.paddingMs)
  {
    hide LastPush, After, Trimmed, Total, AnySpeech, Extent, TrailingSilence, Emission;
    PushEmitsOne(c, s);
    CutDecision(c, s);
    var b := Before(After(c, s[..|s| - 1])) + [s[|s| - 1]];
    TrimmedEnds(b, c.paddingMs);
  }
}
