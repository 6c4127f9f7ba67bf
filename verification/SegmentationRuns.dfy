/** Whole sessions of the chunk policy: any number of pushes, then finish. What
    every reachable state keeps, where each chunk lies in the pushed frames, and
    how long it can be. */
module SegmentationRuns {
  import opened Domain
  import opened Segmentation

  // ---------------------------------------------------------------- runs

  /** The policy's fields after pushing s. */
  ghost function After(c: Config, s: seq<Item>): (st: State)
    ensures Summarised(st)
  {
    if s == [] then FRESH else Push(c, After(c, s[..|s| - 1]), s[|s| - 1]).0
  }

  ghost function LastPush(c: Config, s: seq<Item>): (r: (State, seq<Cut>))
    requires s != []
    ensures AllNonEmpty(r.1)
  {
    Push(c, After(c, s[..|s| - 1]), s[|s| - 1])
  }

  /** The chunks returned by those pushes, in order. */
  ghost function Emitted(c: Config, s: seq<Item>): (cuts: seq<Cut>)
    ensures AllNonEmpty(cuts)
  {
    if s == [] then [] else Emitted(c, s[..|s| - 1]) + LastPush(c, s).1
  }

  ghost function Last(c: Config, s: seq<Item>): (cuts: seq<Cut>)
    ensures AllNonEmpty(cuts)
  {
    Finish(c, After(c, s)).1
  }

  /** Everything a session emits, finish included. */
  ghost function Session(c: Config, s: seq<Item>): (cuts: seq<Cut>)
    ensures AllNonEmpty(cuts)
  {
    Emitted(c, s) + Last(c, s)
  }

  /** How many frames at the front of the buffer a forced cut has already emitted. */
  ghost function Carried(c: Config, s: seq<Item>): nat {
    if s == [] then 0
    else if LastPush(c, s).1 != [] then |After(c, s).buffer|
    else if After(c, s[..|s| - 1]).buffer == [] then 0
    else Carried(c, s[..|s| - 1])
  }

  lemma OneMore(c: Config, p: seq<Item>, x: Item)
    ensures After(c, []) == FRESH && Emitted(c, []) == []
    ensures After(c, p + [x]) == Push(c, After(c, p), x).0
    ensures Emitted(c, p + [x]) == Emitted(c, p) + Push(c, After(c, p), x).1
  {
    hide Push;
    assert (p + [x])[..|p|] == p;
  }

  /** Frame number i of a 16 kHz stream, d milliseconds long. */
  function Tone(d: nat, i: nat, isSpeech: bool): Item {
    Item(AudioFrame(seq(32 * d, _ => 0), 16000, 1, i * d, d), isSpeech)
  }

  // ---------------------------------------------------------------- what every state keeps

  predicate SuffixOf(b: seq<Item>, s: seq<Item>) {
    |b| <= |s| && b == s[|s| - |b|..]
  }

  /** Buffer and pre-roll are the most recent frames; only one of them is in use. */
  predicate Placed(s: seq<Item>, st: State) {
    && SuffixOf(st.buffer, s)
    && SuffixOf(st.preRoll, s) && !AnySpeech(st.preRoll)
    && (st.buffer != [] ==> st.preRoll == [])
  }

  /** The overlap fields agree with the carried prefix of the buffer. */
  predicate Prefixed(st: State, carried: nat) {
    && carried <= |st.buffer|
    && st.prefixOverlapMs == Total(st.buffer[..carried])
    && st.speechAfterOverlap == AnySpeech(st.buffer[carried..])
  }

  ghost predicate Consistent(s: seq<Item>, st: State, carried: nat) {
    Summarised(st) && Placed(s, st) && Prefixed(st, carried)
  }

  lemma ShortenIsSuffix(p: seq<Item>, paddingMs: int)
    ensures SuffixOf(Shorten(p, paddingMs), p)
    ensures p != [] ==> Shorten(p, paddingMs) != []
    ensures !AnySpeech(p) ==> !AnySpeech(Shorten(p, paddingMs))
  {
    if |p| > 1 && Extent(p) > paddingMs {
      ShortenIsSuffix(p[1..], paddingMs);
    }
  }

  lemma SuffixExtends(b: seq<Item>, s: seq<Item>, x: Item)
    requires SuffixOf(b, s)
    ensures SuffixOf(b + [x], s + [x])
  {
  }

  lemma SuffixTrans(a: seq<Item>, b: seq<Item>, s: seq<Item>)
    requires SuffixOf(a, b) && SuffixOf(b, s)
    ensures SuffixOf(a, s)
  {
  }

  lemma AnySpeechAppend(b: seq<Item>, x: Item)
    ensures AnySpeech(b + [x]) == (AnySpeech(b) || x.isSpeech)
  {
    var bx := b + [x];
    if AnySpeech(b) {
      var i :| 0 <= i < |b| && b[i].isSpeech;
      assert bx[i].isSpeech;
    }
    if x.isSpeech { assert bx[|b|].isSpeech; }
  }

  /** Accepting a frame keeps the summaries and the carried prefix. */
  lemma AcceptConsistent(s: seq<Item>, st: State, carried: nat, x: Item)
    requires Consistent(s, st, carried) && (st.buffer == [] ==> x.isSpeech)
    ensures Consistent(s + [x], Accept(st, x), carried)
    ensures st.buffer == [] ==> carried == 0
  {
    AcceptSummarised(st, x);
    hide Summarised, TrailingSilence, AnySpeech;
    if st.buffer == [] {
      AcceptFirst(s, st, carried, x);
    } else {
      AcceptNext(s, st, carried, x);
    }
  }

  lemma AcceptFirst(s: seq<Item>, st: State, carried: nat, x: Item)
    requires Placed(s, st) && Prefixed(st, carried) && st.buffer == [] && x.isSpeech
    ensures Placed(s + [x], Accept(st, x)) && Prefixed(Accept(st, x), carried)
  {
    var a := Accept(st, x);
    SuffixExtends(st.preRoll, s, x);
    AnySpeechAppend(st.preRoll, x);
    assert a.buffer[0..] == a.buffer;
    assert a.buffer[..0] == st.buffer[..0];
    hide TrailingSilence;
  }

  lemma AcceptNext(s: seq<Item>, st: State, carried: nat, x: Item)
    requires Placed(s, st) && Prefixed(st, carried) && st.buffer != []
    ensures Placed(s + [x], Accept(st, x)) && Prefixed(Accept(st, x), carried)
  {
    hide Total;
    var a := Accept(st, x);
    SuffixExtends(st.buffer, s, x);
    AnySpeechAppend(st.buffer[carried..], x);
    assert a.buffer[carried..] == st.buffer[carried..] + [x];
    assert a.buffer[..carried] == st.buffer[..carried];
    assert a.preRoll == [];
  }

  /** What a forced cut leaves behind is all carried. */
  lemma ForcedConsistent(c: Config, s: seq<Item>, a: State)
    requires Placed(s, a) && a.buffer != []
    ensures var next := AfterForcedCut(c, a);
            Consistent(s, next, |next.buffer|)
  {
    hide Total, TrailingSilence;
    var kept := Retained(a.buffer, c.overlapMs);
    SuffixTrans(kept, a.buffer, s);
    assert kept[..|kept|] == kept;
    assert kept[|kept|..] == [];
  }

  /** The cut decision keeps the invariant: a chunk leaves behind only frames it
      contains. */
  lemma DecideConsistent(c: Config, s: seq<Item>, a: State, carried: nat, frameMs: int)
    requires Consistent(s, a, carried) && a.buffer != []
    ensures var r := Decide(c, a, frameMs);
            Consistent(s, r.0, if r.1 != [] then |r.0.buffer| else carried)
    ensures Decide(c, a, frameMs).0.sequence == a.sequence + |Decide(c, a, frameMs).1|
  {
    ForcedConsistent(c, s, a);
    hide Trimmed, Retained, TrailingSilence;
  }

  /** One push keeps the invariant. */
  lemma PushConsistent(c: Config, s: seq<Item>, st: State, carried: nat, x: Item)
    requires Consistent(s, st, carried)
    ensures var r := Push(c, st, x);
            Consistent(s + [x], r.0, if r.1 != [] then |r.0.buffer| else carried)
    ensures st.buffer == [] ==> carried == 0
    ensures Push(c, st, x).0.sequence == st.sequence + |Push(c, st, x).1|
  {
    if st.buffer == [] && !x.isSpeech {
      PreRollConsistent(c, s, st, carried, x);
    } else {
      AcceptConsistent(s, st, carried, x);
      hide Decide, Consistent;
      DecideConsistent(c, s + [x], Accept(st, x), carried, x.frame.durationMs);
    }
  }

  lemma PreRollConsistent(c: Config, s: seq<Item>, st: State, carried: nat, x: Item)
    requires Consistent(s, st, carried) && st.buffer == [] && !x.isSpeech
    ensures Consistent(s + [x], Push(c, st, x).0, carried)
  {
    var p := st.preRoll + [x];
    SuffixExtends(st.preRoll, s, x);
    AnySpeechAppend(st.preRoll, x);
    ShortenIsSuffix(p, c.paddingMs);
    SuffixTrans(Shorten(p, c.paddingMs), p, s + [x]);
  }

  lemma {:induction false} RunConsistent(c: Config, s: seq<Item>)
    ensures Consistent(s, After(c, s), Carried(c, s))
    ensures After(c, s).sequence == |Emitted(c, s)|
  {
    hide Push;
    if s != [] {
      var p, x := s[..|s| - 1], s[|s| - 1];
      RunConsistent(c, p);
      PushConsistent(c, p, After(c, p), Carried(c, p), x);
      assert p + [x] == s;
    }
  }

  // ---------------------------------------------------------------- where the chunks lie

  /** Positions lo..hi of the pushed frames. */
  datatype Span = Span(lo: int, hi: int)

  /** A chunk starts where the active buffer starts. */
  function SpansOf(pushed: int, active: int, cuts: seq<Cut>): (spans: seq<Span>)
    ensures |spans| == |cuts|
  {
    seq(|cuts|, k requires 0 <= k < |cuts| => Span(pushed - active, pushed - active + |cuts[k].selected|))
  }

  ghost function Spans(c: Config, s: seq<Item>): seq<Span> {
    if s == [] then []
    else
      var active := Accept(After(c, s[..|s| - 1]), s[|s| - 1]).buffer;
      Spans(c, s[..|s| - 1]) + SpansOf(|s|, |active|, LastPush(c, s).1)
  }

  ghost function SessionSpans(c: Config, s: seq<Item>): seq<Span> {
    Spans(c, s) + SpansOf(|s|, |After(c, s).buffer|, Last(c, s))
  }

  /** Chunk number k is the slice of the stream its span names. */
  predicate Slice(s: seq<Item>, cut: Cut, span: Span, k: nat) {
    0 <= span.lo < span.hi <= |s| && cut.selected == s[span.lo..span.hi] && cut.sequence == k
  }

  predicate Covered(spans: seq<Span>, i: int) {
    exists k :: 0 <= k < |spans| && spans[k].lo <= i < spans[k].hi
  }

  /** After a forced cut the next chunk starts with exactly the retained frames;
      after any other cut it starts at or after the previous end. */
  predicate Follows(c: Config, prev: Cut, prevSpan: Span, next: Cut, nextSpan: Span) {
    if prev.reason == ForcedMax then
      && nextSpan.lo == prevSpan.hi - RetainCount(prev.selected, c.overlapMs)
      && next.prefixOverlapMs == Total(Retained(prev.selected, c.overlapMs))
    else
      nextSpan.lo >= prevSpan.hi && next.prefixOverlapMs == 0
  }

  /** Where a chunk cut from the current buffer would start. */
  predicate Frontier(c: Config, s: seq<Item>, st: State, carried: nat, cuts: seq<Cut>, spans: seq<Span>)
    requires |cuts| == |spans|
  {
    if cuts != [] && cuts[|cuts| - 1].reason == ForcedMax then
      && st.buffer != []
      && carried == RetainCount(cuts[|cuts| - 1].selected, c.overlapMs)
      && |s| - |st.buffer| == spans[|cuts| - 1].hi - carried
      && st.prefixOverlapMs == Total(Retained(cuts[|cuts| - 1].selected, c.overlapMs))
    else
      && carried == 0 && st.prefixOverlapMs == 0
      && (cuts != [] ==> spans[|cuts| - 1].hi <= |s| - |st.buffer| && spans[|cuts| - 1].hi <= |s| - |st.preRoll|)
  }

  predicate Laid(c: Config, s: seq<Item>, st: State, carried: nat, cuts: seq<Cut>, spans: seq<Span>) {
    && |cuts| == |spans|
    && (forall k :: 0 <= k < |cuts| ==> Slice(s, cuts[k], spans[k], k))
    && (forall k :: 0 < k < |cuts| ==> Follows(c, cuts[k - 1], spans[k - 1], cuts[k], spans[k]))
    && (forall i :: 0 <= i < |s| - |st.buffer| + carried && i < |s| && s[i].isSpeech ==> Covered(spans, i))
    && Frontier(c, s, st, carried, cuts, spans)
  }

  /** What cutting a chunk from buffer a.buffer does, whatever the reason. */
  predicate Emission(c: Config, a: State, cut: Cut, next: State) {
    && cut.selected != [] && cut.selected <= a.buffer
    && !AnySpeech(a.buffer[|cut.selected|..])
    && cut.sequence == a.sequence && cut.prefixOverlapMs == a.prefixOverlapMs
    && next.preRoll == []
    && if cut.reason == ForcedMax then
         && cut.selected == a.buffer
         && next.buffer == Retained(a.buffer, c.overlapMs)
         && next.prefixOverlapMs == Total(next.buffer)
       else
         next.buffer == [] && next.prefixOverlapMs == 0
  }

  lemma TrimmedEmission(b: seq<Item>, paddingMs: int)
    requires AnySpeech(b)
    ensures Trimmed(b, paddingMs) != [] && Trimmed(b, paddingMs) <= b
    ensures !AnySpeech(b[|Trimmed(b, paddingMs)|..])
  {
    var e := PadEnd(b, LastSpeech(b) + 1, paddingMs);
    var rest := b[LastSpeech(b) + 1..];
    forall i | 0 <= i < |b[e..]| ensures !b[e..][i].isSpeech {
      assert b[e..][i] == rest[e + i - LastSpeech(b) - 1];
    }
  }

  /** The cut decision either leaves the state alone or emits one chunk. */
  lemma DecideEmits(c: Config, a: State, frameMs: int)
    requires Summarised(a) && a.buffer != [] && a.preRoll == []
    ensures var r := Decide(c, a, frameMs);
            r == (a, []) || (|r.1| == 1 && Emission(c, a, r.1[0], r.0))
  {
    hide Trimmed, TrailingSilence;
    if AnySpeech(a.buffer) { TrimmedEmission(a.buffer, c.paddingMs); }
    assert a.buffer[|a.buffer|..] == [];
  }

  lemma FinishEmits(c: Config, a: State)
    requires Summarised(a)
    ensures var r := Finish(c, a);
            r.1 == [] || (|r.1| == 1 && Emission(c, a, r.1[0], r.0))
  {
    hide Trimmed, TrailingSilence;
    if AnySpeech(a.buffer) { TrimmedEmission(a.buffer, c.paddingMs); }
  }

  lemma TailSilent(s: seq<Item>, b: seq<Item>, n: nat, i: int)
    requires SuffixOf(b, s) && n <= |b| && !AnySpeech(b[n..])
    requires |s| - |b| + n <= i < |s|
    ensures !s[i].isSpeech
  {
    assert b[n..][i - (|s| - |b| + n)] == s[i];
  }

  /** A chunk cut from the active buffer covers all speech not yet emitted. */
  lemma EmissionCovers(s: seq<Item>, b: seq<Item>, n: nat, spans: seq<Span>, before: int, i: int)
    requires SuffixOf(b, s) && n <= |b| && !AnySpeech(b[n..])
    requires 0 <= i < |s| && s[i].isSpeech
    requires i < before ==> Covered(spans, i)
    requires before >= |s| - |b|
    ensures Covered(spans + [Span(|s| - |b|, |s| - |b| + n)], i)
  {
    var spans' := spans + [Span(|s| - |b|, |s| - |b| + n)];
    if i < before {
      var k :| 0 <= k < |spans| && spans[k].lo <= i < spans[k].hi;
      assert spans'[k].lo <= i < spans'[k].hi;
    } else {
      if i >= |s| - |b| + n { TailSilent(s, b, n, i); }
      assert spans'[|spans|].lo <= i < spans'[|spans|].hi;
    }
  }

  /** Emitting a chunk keeps the layout. */
  lemma LaidEmission(c: Config, s: seq<Item>, a: State, carried: nat, cuts: seq<Cut>, spans: seq<Span>,
                     cut: Cut, next: State)
    requires SuffixOf(a.buffer, s) && carried <= |a.buffer|
    requires Laid(c, s, a, carried, cuts, spans) && a.sequence == |cuts|
    requires Emission(c, a, cut, next)
    ensures Laid(c, s, next, |next.buffer|, cuts + [cut], spans + SpansOf(|s|, |a.buffer|, [cut]))
  {
    hide RetainCount, Total, AnySpeech;
    var start := |s| - |a.buffer|;
    var span := Span(start, start + |cut.selected|);
    assert spans + SpansOf(|s|, |a.buffer|, [cut]) == spans + [span];
    assert cut.selected == s[span.lo..span.hi];
    forall i | 0 <= i < |s| && s[i].isSpeech ensures Covered(spans + [span], i) {
      EmissionCovers(s, a.buffer, |cut.selected|, spans, start + carried, i);
    }
    LaidFollows(c, s, a, carried, cuts, spans, cut, span);
    EmissionFrontier(c, s, a, cuts, spans, cut, span, next);
    hide SuffixOf, Emission, Frontier, Follows, Covered;
  }

  /** The new chunk follows the last one. */
  lemma LaidFollows(c: Config, s: seq<Item>, a: State, carried: nat, cuts: seq<Cut>, spans: seq<Span>,
                    cut: Cut, span: Span)
    requires |cuts| == |spans| && Frontier(c, s, a, carried, cuts, spans)
    requires span.lo == |s| - |a.buffer| && cut.prefixOverlapMs == a.prefixOverlapMs
    ensures cuts != [] ==> Follows(c, cuts[|cuts| - 1], spans[|cuts| - 1], cut, span)
  {
    hide RetainCount, Total;
  }

  lemma EmissionFrontier(c: Config, s: seq<Item>, a: State, cuts: seq<Cut>, spans: seq<Span>,
                         cut: Cut, span: Span, next: State)
    requires |cuts| == |spans| && SuffixOf(a.buffer, s) && Emission(c, a, cut, next)
    requires span == Span(|s| - |a.buffer|, |s| - |a.buffer| + |cut.selected|)
    ensures Frontier(c, s, next, |next.buffer|, cuts + [cut], spans + [span])
  {
    hide Total, AnySpeech;
  }

  lemma SliceExtends(s: seq<Item>, cut: Cut, span: Span, k: nat, x: Item)
    requires Slice(s, cut, span, k)
    ensures Slice(s + [x], cut, span, k)
  {
  }

  /** A silent frame that only enters the pre-roll keeps the layout. */
  lemma LaidPreRoll(c: Config, s: seq<Item>, st: State, carried: nat, cuts: seq<Cut>, spans: seq<Span>, x: Item)
    requires st.buffer == [] && !x.isSpeech && Laid(c, s, st, carried, cuts, spans)
    ensures Laid(c, s + [x], st.(preRoll := Shorten(st.preRoll + [x], c.paddingMs)), carried, cuts, spans)
  {
    hide Shorten;
    ShortenIsSuffix(st.preRoll + [x], c.paddingMs);
    forall k | 0 <= k < |cuts| ensures Slice(s + [x], cuts[k], spans[k], k) {
      SliceExtends(s, cuts[k], spans[k], k, x);
    }
  }

  /** A frame taken into the buffer keeps the layout. */
  lemma LaidAccept(c: Config, s: seq<Item>, st: State, carried: nat, cuts: seq<Cut>, spans: seq<Span>, x: Item)
    requires Laid(c, s, st, carried, cuts, spans)
    ensures Laid(c, s + [x], Accept(st, x), carried, cuts, spans)
  {
    forall k | 0 <= k < |cuts| ensures Slice(s + [x], cuts[k], spans[k], k) {
      SliceExtends(s, cuts[k], spans[k], k, x);
    }
  }

  lemma {:induction false} RunLaid(c: Config, s: seq<Item>)
    ensures Laid(c, s, After(c, s), Carried(c, s), Emitted(c, s), Spans(c, s))
  {
    hide Push, Accept, Decide;
    if s != [] {
      var p, x := s[..|s| - 1], s[|s| - 1];
      assert p + [x] == s;
      RunLaid(c, p);
      RunConsistent(c, p);
      PushLaid(c, p, After(c, p), Carried(c, p), Emitted(c, p), Spans(c, p), x);
    }
  }

  lemma NothingEmitted(cuts: seq<Cut>, spans: seq<Span>, pushed: int, active: int)
    ensures cuts + [] == cuts && spans + SpansOf(pushed, active, []) == spans
  {
  }

  lemma DecideLaid(c: Config, s: seq<Item>, a: State, carried: nat, cuts: seq<Cut>, spans: seq<Span>, frameMs: int)
    requires Consistent(s, a, carried) && a.buffer != []
    requires Laid(c, s, a, carried, cuts, spans) && a.sequence == |cuts|
    ensures var r := Decide(c, a, frameMs);
            Laid(c, s, r.0, if r.1 != [] then |r.0.buffer| else carried,
                 cuts + r.1, spans + SpansOf(|s|, |a.buffer|, r.1))
  {
    DecideEmits(c, a, frameMs);
    hide Decide, Laid, Emission, Prefixed, Summarised;
    var r := Decide(c, a, frameMs);
    if r.1 != [] {
      assert r.1 == [r.1[0]];
      LaidEmission(c, s, a, carried, cuts, spans, r.1[0], r.0);
    } else {
      NothingEmitted(cuts, spans, |s|, |a.buffer|);
    }
  }

  lemma PushLaid(c: Config, s: seq<Item>, st: State, carried: nat, cuts: seq<Cut>, spans: seq<Span>, x: Item)
    requires Consistent(s, st, carried)
    requires Laid(c, s, st, carried, cuts, spans) && st.sequence == |cuts|
    ensures var r := Push(c, st, x);
            Laid(c, s + [x], r.0,
                 if r.1 != [] then |r.0.buffer| else carried,
                 cuts + r.1, spans + SpansOf(|s| + 1, |Accept(st, x).buffer|, r.1))
    ensures st.buffer == [] ==> carried == 0
  {
    hide Decide, Shorten;
    if st.buffer == [] && !x.isSpeech {
      LaidPreRoll(c, s, st, carried, cuts, spans, x);
      NothingEmitted(cuts, spans, |s| + 1, |Accept(st, x).buffer|);
    } else {
      AcceptConsistent(s, st, carried, x);
      LaidAccept(c, s, st, carried, cuts, spans, x);
      DecideLaid(c, s + [x], Accept(st, x), carried, cuts, spans, x.frame.durationMs);
    }
  }

  // ---------------------------------------------------------------- what a chunk repeats

  /** The frames chunk k repeats from chunk k - 1. */
  function Repeated(c: Config, cuts: seq<Cut>, k: nat): seq<Item>
    requires k < |cuts|
  {
    if k > 0 && cuts[k - 1].reason == ForcedMax then Retained(cuts[k - 1].selected, c.overlapMs) else []
  }

  /** The carried frames are what the next chunk repeats. */
  lemma CarriedIsRepeated(c: Config, s: seq<Item>, a: State, carried: nat, cuts: seq<Cut>, spans: seq<Span>, cut: Cut)
    requires Laid(c, s, a, carried, cuts, spans) && SuffixOf(a.buffer, s) && carried <= |a.buffer|
    ensures a.buffer[..carried] == Repeated(c, cuts + [cut], |cuts|)
  {
    hide Total, RetainCount, Covered, Follows;
    if cuts != [] && cuts[|cuts| - 1].reason == ForcedMax {
      var last, span := cuts[|cuts| - 1], spans[|cuts| - 1];
      assert Slice(s, last, span, |cuts| - 1);
      assert Retained(last.selected, c.overlapMs) == s[span.hi - carried..span.hi];
    }
  }
}
