/** Cutting and assembling together. Frames carry words and an ideal transcriber returns
    the words of a chunk's speech frames. Every word spoken is in the chunks' texts once,
    apart from what a forced cut carries over; so the assembled text is right exactly when
    nothing spoken looks like a longer repeat than what was carried over. */
module EndToEnd {
  import opened Domain
  import opened Segmentation
  import opened SegmentationRuns
  import SegmentationLaws
  import opened Assembly
  import opened Overlaps

  /** The words spoken in a stretch of frames; say gives the words of one frame. */
  function Spoken(say: Item -> seq<string>, b: seq<Item>): seq<string> {
    if b == [] then []
    else Spoken(say, b[..|b| - 1]) + (if b[|b| - 1].isSpeech then say(b[|b| - 1]) else [])
  }

  /** What an ideal transcriber makes of the chunks. */
  function Heard(say: Item -> seq<string>, cuts: seq<Cut>): (texts: seq<seq<string>>)
    ensures |texts| == |cuts|
    ensures forall k :: 0 <= k < |cuts| ==> texts[k] == Spoken(say, cuts[k].selected)
  {
    seq(|cuts|, k requires 0 <= k < |cuts| => Spoken(say, cuts[k].selected))
  }

  /** How many words each chunk truly repeats. */
  function Reps(c: Config, say: Item -> seq<string>, cuts: seq<Cut>): (reps: seq<nat>)
    ensures |reps| == |cuts|
    ensures forall k :: 0 <= k < |cuts| ==> reps[k] == |Spoken(say, Repeated(c, cuts, k))|
  {
    seq(|cuts|, k requires 0 <= k < |cuts| => |Spoken(say, Repeated(c, cuts, k))|)
  }

  /** No chunk repeats more words than the assembler looks back over. */
  predicate ShortOverlaps(c: Config, cuts: seq<Cut>, say: Item -> seq<string>) {
    Short(Reps(c, say, cuts))
  }

  // ---------------------------------------------------------------- spoken words

  lemma {:induction false} SpokenAppend(say: Item -> seq<string>, a: seq<Item>, b: seq<Item>)
    ensures Spoken(say, a + b) == Spoken(say, a) + Spoken(say, b)
  {
    if b == [] {
      assert a + b == a;
    } else {
      assert (a + b)[..|a + b| - 1] == a + b[..|b| - 1];
      SpokenAppend(say, a, b[..|b| - 1]);
    }
  }

  lemma SpokenSplit(say: Item -> seq<string>, b: seq<Item>, n: nat)
    requires n <= |b|
    ensures Spoken(say, b) == Spoken(say, b[..n]) + Spoken(say, b[n..])
  {
    hide Spoken;
    SpokenAppend(say, b[..n], b[n..]);
    assert b[..n] + b[n..] == b;
  }

  lemma {:induction false} SpokenSilent(say: Item -> seq<string>, b: seq<Item>)
    requires !AnySpeech(b)
    ensures Spoken(say, b) == []
  {
    if b != [] {
      assert forall i :: 0 <= i < |b[..|b| - 1]| ==> b[..|b| - 1][i] == b[i];
      SpokenSilent(say, b[..|b| - 1]);
    }
  }

  // ---------------------------------------------------------------- one emission

  /** Emitting the active buffer b of stream s, whose first carried frames were emitted
      before: the text begins with the carried words, and the rest completes the words. */
  lemma EmissionSaid(say: Item -> seq<string>, s: seq<Item>, b: seq<Item>, carried: nat, n: nat)
    requires SuffixOf(b, s) && carried <= |b| && n <= |b| && !AnySpeech(b[n..])
    ensures var text, m := Spoken(say, b[..n]), Spoken(say, b[..carried]);
            && |m| <= |text| && text[..|m|] == m
            && Spoken(say, s[..|s| - |b| + carried]) + text[|m|..] == Spoken(say, s)
  {
    hide AnySpeech, Spoken;
    SpokenSplit(say, b, n);
    SpokenSilent(say, b[n..]);
    SpokenSplit(say, b, carried);
    assert Spoken(say, b[..n]) == Spoken(say, b[..carried]) + Spoken(say, b[carried..]);
    var start := |s| - |b|;
    SpokenSplit(say, s, start + carried);
    assert s[start + carried..] == b[carried..];
  }

  lemma SuffixSpoken(say: Item -> seq<string>, b: seq<Item>, n: nat)
    requires n <= |b|
    ensures var all, m := Spoken(say, b), Spoken(say, b[n..]);
            |m| <= |all| && all[|all| - |m|..] == m
  {
    hide Spoken;
    SpokenSplit(say, b, n);
  }

  /** A text that begins with the words of the frames repeated is linked to the last one. */
  lemma TextIsLinked(c: Config, say: Item -> seq<string>, cuts: seq<Cut>, cut: Cut)
    requires var m := Spoken(say, Repeated(c, cuts + [cut], |cuts|));
             |m| <= |Spoken(say, cut.selected)| && Spoken(say, cut.selected)[..|m|] == m
    ensures LinkedAt(Heard(say, cuts) + [Spoken(say, cut.selected)],
                     |Spoken(say, Repeated(c, cuts + [cut], |cuts|))|, |cuts|)
  {
    hide Spoken, RetainCount;
    var more, k := cuts + [cut], |cuts|;
    SpokenNothing(say);
    if Repeated(c, more, k) != [] {
      var last := cuts[k - 1].selected;
      assert Repeated(c, more, k) == last[|last| - RetainCount(last, c.overlapMs)..];
      SuffixSpoken(say, last, |last| - RetainCount(last, c.overlapMs));
    }
  }

  lemma SpokenNothing(say: Item -> seq<string>)
    ensures Spoken(say, []) == []
  {
  }

  // ---------------------------------------------------------------- whole runs

  /** The texts so far are linked, and without repeats they say all of the stream up to
      the frames carried over. */
  ghost predicate Told(c: Config, say: Item -> seq<string>, s: seq<Item>, st: State, carried: nat, cuts: seq<Cut>)
    requires carried <= |st.buffer| <= |s|
  {
    && Linked(Heard(say, cuts), Reps(c, say, cuts))
    && Fits(Heard(say, cuts), Reps(c, say, cuts))
    && Plain(Heard(say, cuts), Reps(c, say, cuts)) == Spoken(say, s[..|s| - |st.buffer| + carried])
  }

  lemma RepsOneMore(c: Config, say: Item -> seq<string>, cuts: seq<Cut>, cut: Cut)
    ensures Heard(say, cuts + [cut]) == Heard(say, cuts) + [Spoken(say, cut.selected)]
    ensures Reps(c, say, cuts + [cut]) == Reps(c, say, cuts) + [|Spoken(say, Repeated(c, cuts + [cut], |cuts|))|]
  {
    hide Spoken, Retained;
    var more := cuts + [cut];
    forall k | 0 <= k < |cuts| ensures Reps(c, say, more)[k] == Reps(c, say, cuts)[k] {
      assert Repeated(c, more, k) == Repeated(c, cuts, k);
    }
  }

  lemma ToldEmission(c: Config, say: Item -> seq<string>, s: seq<Item>, a: State, carried: nat, cuts: seq<Cut>,
                     cut: Cut, next: State)
    requires SuffixOf(a.buffer, s) && carried <= |a.buffer| && |next.buffer| <= |s|
    requires a.buffer[..carried] == Repeated(c, cuts + [cut], |cuts|)
    requires cut.selected <= a.buffer && !AnySpeech(a.buffer[|cut.selected|..])
    requires Told(c, say, s, a, carried, cuts)
    ensures Told(c, say, s, next, |next.buffer|, cuts + [cut])
  {
    hide AnySpeech, Heard, Repeated, Reps, Spoken, Linked, LinkedAt, Plain;
    assert s[..|s| - |next.buffer| + |next.buffer|] == s;
    assert cut.selected == a.buffer[..|cut.selected|];
    EmissionSaid(say, s, a.buffer, carried, |cut.selected|);
    hide SuffixOf;
    TextIsLinked(c, say, cuts, cut);
    RepsOneMore(c, say, cuts, cut);
    var rep := |Spoken(say, Repeated(c, cuts + [cut], |cuts|))|;
    LinkedOneMore(Heard(say, cuts), Reps(c, say, cuts), Spoken(say, cut.selected), rep);
    LinkedFits(Heard(say, cuts + [cut]), Reps(c, say, cuts + [cut]));
  }

  /** A frame taken in without emitting changes what is told by nothing. */
  lemma ToldAccept(c: Config, say: Item -> seq<string>, s: seq<Item>, st: State, carried: nat, cuts: seq<Cut>,
                   x: Item, after: State)
    requires Consistent(s, st, carried) && (st.buffer == [] ==> carried == 0)
    requires Told(c, say, s, st, carried, cuts)
    requires after.buffer == if st.buffer == [] && !x.isSpeech then [] else SegmentationLaws.Before(st) + [x]
    ensures carried <= |after.buffer| <= |s + [x]| && Told(c, say, s + [x], after, carried, cuts)
  {
    hide Heard, Reps, Linked, Plain, Fits, Summarised, TrailingSilence, Total, AnySpeech, Spoken;
    var t := s + [x];
    if st.buffer != [] {
      assert t[..|t| - |after.buffer| + carried] == s[..|s| - |st.buffer| + carried];
    } else if x.isSpeech {
      assert t[..|t| - |after.buffer|] == s[..|s| - |st.preRoll|];
      SilentSuffix(say, s, st.preRoll);
      assert s[..|s|] == s;
    } else {
      assert s[..|s|] == s && t[..|t|] == t;
      SpokenSilentFrame(say, s, x);
    }
  }

  lemma SilentSuffix(say: Item -> seq<string>, s: seq<Item>, b: seq<Item>)
    requires SuffixOf(b, s) && !AnySpeech(b)
    ensures Spoken(say, s[..|s| - |b|]) == Spoken(say, s)
  {
    hide Spoken, AnySpeech;
    SpokenSplit(say, s, |s| - |b|);
    SpokenSilent(say, b);
  }

  lemma SpokenSilentFrame(say: Item -> seq<string>, s: seq<Item>, x: Item)
    requires !x.isSpeech
    ensures Spoken(say, s + [x]) == Spoken(say, s)
  {
    assert (s + [x])[..|s|] == s;
  }

  lemma PushTold(c: Config, say: Item -> seq<string>, s: seq<Item>, st: State, carried: nat, cuts: seq<Cut>,
                 spans: seq<Span>, x: Item)
    requires Consistent(s, st, carried) && Laid(c, s, st, carried, cuts, spans)
    requires Told(c, say, s, st, carried, cuts)
    ensures var r := Push(c, st, x);
            var carried' := if r.1 != [] then |r.0.buffer| else carried;
            && carried' <= |r.0.buffer| <= |s + [x]|
            && Told(c, say, s + [x], r.0, carried', cuts + r.1)
  {
    hide Decide, Told, Laid, Emission, Shorten, TrailingSilence, AnySpeech, Total;
    assert cuts + [] == cuts;
    PushConsistent(c, s, st, carried, x);
    if st.buffer == [] && !x.isSpeech {
      ToldAccept(c, say, s, st, carried, cuts, x, Push(c, st, x).0);
    } else {
      var a := Accept(st, x);
      ToldAccept(c, say, s, st, carried, cuts, x, a);
      AcceptConsistent(s, st, carried, x);
      LaidAccept(c, s, st, carried, cuts, spans, x);
      DecideTold(c, say, s + [x], a, carried, cuts, spans, x.frame.durationMs);
    }
  }

  lemma DecideTold(c: Config, say: Item -> seq<string>, s: seq<Item>, a: State, carried: nat, cuts: seq<Cut>,
                   spans: seq<Span>, frameMs: int)
    requires Consistent(s, a, carried) && Laid(c, s, a, carried, cuts, spans) && a.buffer != []
    requires Told(c, say, s, a, carried, cuts)
    requires |Decide(c, a, frameMs).0.buffer| <= |s|
    ensures var r := Decide(c, a, frameMs);
            Told(c, say, s, r.0, if r.1 != [] then |r.0.buffer| else carried, cuts + r.1)
  {
    DecideEmits(c, a, frameMs);
    hide Decide, Spoken, TrailingSilence, AnySpeech, Total, Retained;
    var r := Decide(c, a, frameMs);
    if r.1 == [] {
      assert cuts + r.1 == cuts;
    } else {
      assert r.1 == [r.1[0]];
      CarriedIsRepeated(c, s, a, carried, cuts, spans, r.1[0]);
      ToldEmission(c, say, s, a, carried, cuts, r.1[0], r.0);
    }
  }

  lemma {:induction false} RunTold(c: Config, say: Item -> seq<string>, s: seq<Item>)
    ensures Carried(c, s) <= |After(c, s).buffer| <= |s|
    ensures Told(c, say, s, After(c, s), Carried(c, s), Emitted(c, s))
  {
    hide Push, Spoken;
    if s == [] {
      assert Heard(say, []) == [];
      SpokenNothing(say);
    } else {
      var p, x := s[..|s| - 1], s[|s| - 1];
      assert p + [x] == s;
      RunTold(c, say, p);
      RunConsistent(c, p);
      RunLaid(c, p);
      PushTold(c, say, p, After(c, p), Carried(c, p), Emitted(c, p), Spans(c, p), x);
    }
  }

  /** Over any session, whatever the words: each chunk's text begins with the words of the
      frames carried over from the chunk before and those end the text before; leaving
      them out, the texts say exactly what was spoken. */
  lemma TextsSayAll(c: Config, say: Item -> seq<string>, s: seq<Item>)
    ensures var texts, reps := Heard(say, Session(c, s)), Reps(c, say, Session(c, s));
            Linked(texts, reps) && Fits(texts, reps) && Plain(texts, reps) == Spoken(say, s)
  {
    hide Finish, Spoken, After;
    RunTold(c, say, s);
    RunConsistent(c, s);
    RunLaid(c, s);
    FinishTold(c, say, s, After(c, s), Carried(c, s), Emitted(c, s), Spans(c, s));
  }

  lemma FinishTold(c: Config, say: Item -> seq<string>, s: seq<Item>, st: State, carried: nat, cuts: seq<Cut>,
                   spans: seq<Span>)
    requires Consistent(s, st, carried) && Laid(c, s, st, carried, cuts, spans)
    requires Told(c, say, s, st, carried, cuts)
    ensures var all := cuts + Finish(c, st).1;
            var texts, reps := Heard(say, all), Reps(c, say, all);
            Linked(texts, reps) && Fits(texts, reps) && Plain(texts, reps) == Spoken(say, s)
  {
    FinishEmits(c, st);
    hide Finish, Emission, Told, Laid, Consistent, Spoken, Heard, Reps, Linked, Plain, Fits;
    var r := Finish(c, st);
    if r.1 == [] {
      assert cuts + r.1 == cuts;
      ToldSuppressed(c, say, s, st, carried, cuts);
    } else {
      assert r.1 == [r.1[0]];
      ToldFinal(c, say, s, st, carried, cuts, spans, r.1[0], r.0);
    }
  }

  lemma ToldSuppressed(c: Config, say: Item -> seq<string>, s: seq<Item>, st: State, carried: nat, cuts: seq<Cut>)
    requires Consistent(s, st, carried) && Finish(c, st).1 == []
    requires Told(c, say, s, st, carried, cuts)
    ensures var texts, reps := Heard(say, cuts), Reps(c, say, cuts);
            Linked(texts, reps) && Fits(texts, reps) && Plain(texts, reps) == Spoken(say, s)
  {
    SegmentationLaws.SuppressedIsSilent(c, s, st, carried);
    hide Finish, Spoken, Heard, Reps, Linked, Plain, Fits;
    SilentRest(say, s, |s| - |st.buffer| + carried);
  }

  lemma ToldFinal(c: Config, say: Item -> seq<string>, s: seq<Item>, st: State, carried: nat, cuts: seq<Cut>,
                  spans: seq<Span>, cut: Cut, next: State)
    requires Consistent(s, st, carried) && Laid(c, s, st, carried, cuts, spans)
    requires Emission(c, st, cut, next)
    requires Told(c, say, s, st, carried, cuts)
    ensures var texts, reps := Heard(say, cuts + [cut]), Reps(c, say, cuts + [cut]);
            Linked(texts, reps) && Fits(texts, reps) && Plain(texts, reps) == Spoken(say, s)
  {
    CarriedIsRepeated(c, s, st, carried, cuts, spans, cut);
    hide Told, Laid, Spoken, AnySpeech, Repeated, Heard, Reps, Linked, Plain, Fits, Total, Retained, Summarised;
    var done := Cleared(0);
    ToldEmission(c, say, s, st, carried, cuts, cut, done);
    ToldDone(c, say, s, done, cuts + [cut]);
  }

  lemma ToldDone(c: Config, say: Item -> seq<string>, s: seq<Item>, done: State, cuts: seq<Cut>)
    requires done.buffer == [] && Told(c, say, s, done, 0, cuts)
    ensures Plain(Heard(say, cuts), Reps(c, say, cuts)) == Spoken(say, s)
    ensures Linked(Heard(say, cuts), Reps(c, say, cuts)) && Fits(Heard(say, cuts), Reps(c, say, cuts))
  {
    hide Heard, Reps, Linked, Plain, Fits, Spoken;
    assert s[..|s|] == s;
  }

  lemma SilentRest(say: Item -> seq<string>, s: seq<Item>, n: nat)
    requires n <= |s| && forall i :: n <= i < |s| ==> !s[i].isSpeech
    ensures Spoken(say, s[..n]) == Spoken(say, s)
  {
    SpokenSplit(say, s, n);
    SpokenSilent(say, s[n..]);
  }

  // ---------------------------------------------------------------- what was spoken before a chunk

  /** The words of the first chunks do not depend on the later ones. */
  lemma EarlierSame(c: Config, say: Item -> seq<string>, a: seq<Cut>, b: seq<Cut>, k: nat)
    requires a <= b && k <= |a|
    requires Fits(Heard(say, a), Reps(c, say, a)) && Fits(Heard(say, b), Reps(c, say, b))
    ensures PlainTo(Heard(say, b), Reps(c, say, b), k) == PlainTo(Heard(say, a), Reps(c, say, a), k)
  {
    hide Spoken, Retained, Plain, Fits;
    forall j | 0 <= j < k
      ensures Heard(say, b)[j] == Heard(say, a)[j] && Reps(c, say, b)[j] == Reps(c, say, a)[j]
    {
      assert Repeated(c, b, j) == Repeated(c, a, j);
    }
    assert Heard(say, b)[..k] == Heard(say, a)[..k] && Reps(c, say, b)[..k] == Reps(c, say, a)[..k];
  }

  lemma EndIsSilent(s: seq<Item>, b: seq<Item>, n: nat)
    requires SuffixOf(b, s) && n <= |b| && !AnySpeech(b[n..])
    ensures forall i :: |s| - |b| + n <= i < |s| ==> !s[i].isSpeech
  {
    hide AnySpeech;
    forall i | |s| - |b| + n <= i < |s| ensures !s[i].isSpeech { TailSilent(s, b, n, i); }
  }

  lemma LastSpan(c: Config, s: seq<Item>)
    requires s != [] && |LastPush(c, s).1| == 1
    ensures var b := Accept(After(c, s[..|s| - 1]), s[|s| - 1]).buffer;
            Spans(c, s) == Spans(c, s[..|s| - 1])
                         + [Span(|s| - |b|, |s| - |b| + |LastPush(c, s).1[0].selected|)]
  {
    hide LastPush, Accept, After;
  }

  lemma SpansMatch(c: Config, s: seq<Item>)
    ensures |Spans(c, s)| == |Emitted(c, s)|
  {
    RunLaid(c, s);
    hide Spans, Emitted, After, Carried;
  }

  lemma EmittedSilence(c: Config, s: seq<Item>)
    requires s != [] && LastPush(c, s).1 != []
    ensures |Emitted(c, s)| == |Emitted(c, s[..|s| - 1])| + 1
    ensures |Spans(c, s)| == |Emitted(c, s)|
    ensures var hi := Spans(c, s)[|Emitted(c, s)| - 1].hi;
            0 <= hi <= |s| && forall i :: hi <= i < |s| ==> !s[i].isSpeech
  {
    SegmentationLaws.PushEmitsOne(c, s);
    SegmentationLaws.EmittedSplit(c, s);
    SpansMatch(c, s[..|s| - 1]);
    var b := Accept(After(c, s[..|s| - 1]), s[|s| - 1]).buffer;
    LastSpan(c, s);
    hide LastPush, Accept, After, AnySpeech, Summarised, Prefixed, Retained, Total, Emitted, Spans;
    EndIsSilent(s, b, |LastPush(c, s).1[0].selected|);
  }

  ghost predicate Says(c: Config, say: Item -> seq<string>, s: seq<Item>, cuts: seq<Cut>, spans: seq<Span>, k: nat)
    requires k < |cuts| == |spans|
  {
    && 0 <= spans[k].hi <= |s| && Fits(Heard(say, cuts), Reps(c, say, cuts))
    && PlainTo(Heard(say, cuts), Reps(c, say, cuts), k + 1) == Spoken(say, s[..spans[k].hi])
  }

  /** Right after a chunk was emitted the texts say all that was spoken up to its end. */
  lemma EmissionSays(c: Config, say: Item -> seq<string>, s: seq<Item>)
    requires s != [] && LastPush(c, s).1 != []
    ensures |Spans(c, s)| == |Emitted(c, s)| > 0
    ensures Says(c, say, s, Emitted(c, s), Spans(c, s), |Emitted(c, s)| - 1)
  {
    EmittedSilence(c, s);
    RunTold(c, say, s);
    assert Carried(c, s) == |After(c, s).buffer|;
    hide After, Carried, LastPush, Emitted, Spans, Spoken, Heard, Reps, Linked, Plain, Fits;
    assert s[..|s|] == s;
    SilentRest(say, s, Spans(c, s)[|Emitted(c, s)| - 1].hi);
    Whole(x => x, Heard(say, Emitted(c, s)), Reps(c, say, Emitted(c, s)));
  }

  lemma SaysLater(c: Config, say: Item -> seq<string>, p: seq<Item>, s: seq<Item>, a: seq<Cut>, b: seq<Cut>,
                  aSpans: seq<Span>, bSpans: seq<Span>, k: nat)
    requires p <= s && a <= b && aSpans <= bSpans && |a| == |aSpans| && |b| == |bSpans| && k < |a|
    requires Says(c, say, p, a, aSpans, k) && Fits(Heard(say, b), Reps(c, say, b))
    ensures Says(c, say, s, b, bSpans, k)
  {
    hide Heard, Reps, PlainTo, Fits, Spoken;
    EarlierSame(c, say, a, b, k + 1);
    assert s[..aSpans[k].hi] == p[..aSpans[k].hi];
  }

  lemma {:induction false} EmittedSays(c: Config, say: Item -> seq<string>, s: seq<Item>, k: nat)
    requires k < |Emitted(c, s)| == |Spans(c, s)|
    ensures Says(c, say, s, Emitted(c, s), Spans(c, s), k)
    decreases |s|
  {
    hide LastPush, Emitted, Spans, Says;
    SegmentationLaws.EmittedSplit(c, s);
    SpansSplit(c, s);
    var p := s[..|s| - 1];
    SpansMatch(c, p);
    if k < |Emitted(c, p)| {
      EmittedSays(c, say, p, k);
      EmittedFit(c, say, s);
      SaysLater(c, say, p, s, Emitted(c, p), Emitted(c, s), Spans(c, p), Spans(c, s), k);
    } else {
      EmittedSilence(c, s);
      EmissionSays(c, say, s);
    }
  }

  lemma EmittedFit(c: Config, say: Item -> seq<string>, s: seq<Item>)
    ensures Fits(Heard(say, Emitted(c, s)), Reps(c, say, Emitted(c, s)))
  {
    RunTold(c, say, s);
    hide After, Carried, Emitted, Fits, Linked, Plain, Heard, Reps;
  }

  lemma SpansSplit(c: Config, s: seq<Item>)
    requires s != []
    ensures Spans(c, s[..|s| - 1]) <= Spans(c, s)
  {
    hide Accept, LastPush;
  }

  /** After the chunk of finish too: what lies beyond it is silent. */
  lemma FinishSilence(c: Config, s: seq<Item>)
    requires Last(c, s) != []
    ensures |Last(c, s)| == 1 && |SessionSpans(c, s)| == |Session(c, s)| == |Emitted(c, s)| + 1
    ensures var hi := SessionSpans(c, s)[|Emitted(c, s)|].hi;
            0 <= hi <= |s| && forall i :: hi <= i < |s| ==> !s[i].isSpeech
  {
    SpansMatch(c, s);
    FinishEmits(c, After(c, s));
    RunConsistent(c, s);
    hide Finish, After, Emitted, Spans, AnySpeech, Summarised, Prefixed, Retained, Total;
    var b, n := After(c, s).buffer, |Last(c, s)[0].selected|;
    EndIsSilent(s, b, n);
  }

  lemma FinishSays(c: Config, say: Item -> seq<string>, s: seq<Item>)
    requires Last(c, s) != []
    ensures |SessionSpans(c, s)| == |Session(c, s)| == |Emitted(c, s)| + 1
    ensures Says(c, say, s, Session(c, s), SessionSpans(c, s), |Emitted(c, s)|)
  {
    FinishSilence(c, s);
    TextsSayAll(c, say, s);
    hide Last, Emitted, Session, SessionSpans, Spoken, Heard, Reps, Linked, Plain, Fits;
    SilentRest(say, s, SessionSpans(c, s)[|Emitted(c, s)|].hi);
    Whole(x => x, Heard(say, Session(c, s)), Reps(c, say, Session(c, s)));
  }

  lemma SessionSays(c: Config, say: Item -> seq<string>, s: seq<Item>, k: nat)
    requires k < |Session(c, s)|
    ensures |SessionSpans(c, s)| == |Session(c, s)| && Says(c, say, s, Session(c, s), SessionSpans(c, s), k)
  {
    SpansMatch(c, s);
    hide Last, Emitted, Spans, After, Says;
    if k < |Emitted(c, s)| {
      EmittedSays(c, say, s, k);
      TextsSayAll(c, say, s);
      SaysLater(c, say, s, s, Emitted(c, s), Session(c, s), Spans(c, s), SessionSpans(c, s), k);
    } else {
      SegmentationLaws.AtMostOne(c, s);
      FinishSays(c, say, s);
    }
  }

  /** The words spoken up to the end of the chunk before chunk k. */
  ghost function SpokenBefore(c: Config, say: Item -> seq<string>, s: seq<Item>, k: nat): seq<string>
    requires k <= |Session(c, s)|
  {
    if k == 0 then []
    else
      SessionSays(c, say, s, k - 1);
      Spoken(say, s[..SessionSpans(c, s)[k - 1].hi])
  }

  /** Without what they repeat, the texts before chunk k say what was spoken before it. */
  lemma TextsSaySpoken(c: Config, say: Item -> seq<string>, s: seq<Item>, k: nat)
    requires k <= |Session(c, s)|
    ensures var texts, reps := Heard(say, Session(c, s)), Reps(c, say, Session(c, s));
            Fits(texts, reps) && PlainTo(texts, reps, k) == SpokenBefore(c, say, s, k)
  {
    hide Session, SessionSpans, Spoken, Heard, Reps, Linked, Fits, PlainTo, Plain;
    TextsSayAll(c, say, s);
    if k == 0 {
      NothingYet(x => x, Heard(say, Session(c, s)), Reps(c, say, Session(c, s)));
    } else {
      SessionSays(c, say, s, k - 1);
    }
  }

  // ---------------------------------------------------------------- the assembled text

  /** The last z words spoken before chunk k have the keys of the first z spoken in it. */
  ghost predicate LooksRepeated(c: Config, say: Item -> seq<string>, norm: string -> string, s: seq<Item>,
                                k: nat, z: nat)
    requires k < |Session(c, s)|
  {
    Repeats(norm, SpokenBefore(c, say, s, k), Spoken(say, Session(c, s)[k].selected), z)
  }

  /** At no chunk do more words than it repeats, within the assembler's limit, both end
      what was spoken before it and begin what is spoken in it. */
  ghost predicate NoChanceRepeat(c: Config, say: Item -> seq<string>, norm: string -> string, s: seq<Item>) {
    forall k, z :: 0 <= k < |Session(c, s)| && |Spoken(say, Repeated(c, Session(c, s), k))| < z <= LIMIT ==>
      !LooksRepeated(c, say, norm, s, k, z)
  }

  lemma ChanceIsLonger(c: Config, say: Item -> seq<string>, norm: string -> string, s: seq<Item>)
    ensures var texts, reps := Heard(say, Session(c, s)), Reps(c, say, Session(c, s));
            && Linked(texts, reps) && Fits(texts, reps) && Plain(texts, reps) == Spoken(say, s)
            && (NoLongerRepeat(norm, texts, reps) <==> NoChanceRepeat(c, say, norm, s))
  {
    TextsSayAll(c, say, s);
    hide Session, Spoken, Heard, Reps, Repeated, Repeats, Linked, Plain, PlainTo, SpokenBefore;
    var texts, reps := Heard(say, Session(c, s)), Reps(c, say, Session(c, s));
    forall k, z: nat | 0 <= k < |Session(c, s)|
      ensures LooksRepeated(c, say, norm, s, k, z) <==> Repeats(norm, PlainTo(texts, reps, k), texts[k], z)
    {
      TextsSaySpoken(c, say, s, k);
    }
    hide Fits, LooksRepeated;
    if NoChanceRepeat(c, say, norm, s) {
      forall k, z | 0 <= k < |texts| && reps[k] < z <= LIMIT
        ensures !Repeats(norm, PlainTo(texts, reps, k), texts[k], z)
      {
        assert !LooksRepeated(c, say, norm, s, k, z);
      }
    }
  }

  /** For any session and any words: when no chunk repeats more than LIMIT words, the
      assembled text is exactly what was spoken if and only if nothing spoken looks like a
      longer repeat. */
  lemma AssembledIff(c: Config, say: Item -> seq<string>, norm: string -> string, s: seq<Item>)
    requires ShortOverlaps(c, Session(c, s), say)
    ensures JoinAll(norm, Heard(say, Session(c, s))) == Spoken(say, s) <==> NoChanceRepeat(c, say, norm, s)
  {
    hide Session, Spoken, Heard, Reps, Linked, Plain, Fits, Short, NoLongerRepeat, NoChanceRepeat, JoinAll;
    ChanceIsLonger(c, say, norm, s);
    RightIff(norm, Heard(say, Session(c, s)), Reps(c, say, Session(c, s)));
  }

  /** After every chunk the assembled text is what was spoken up to its end. */
  ghost predicate RightThroughout(c: Config, say: Item -> seq<string>, norm: string -> string, s: seq<Item>) {
    forall k :: 0 <= k <= |Session(c, s)| ==>
      Prefix(norm, Heard(say, Session(c, s)), k) == SpokenBefore(c, say, s, k)
  }

  /** For any session and any words: the text is right after every chunk if and only if no
      chunk repeats more than LIMIT words and nothing spoken looks like a longer repeat. */
  lemma AssembledThroughoutIff(c: Config, say: Item -> seq<string>, norm: string -> string, s: seq<Item>)
    ensures RightThroughout(c, say, norm, s) <==>
              ShortOverlaps(c, Session(c, s), say) && NoChanceRepeat(c, say, norm, s)
  {
    hide Session, Spoken, Heard, Reps, Linked, Plain, PlainTo, Fits, Short, NoLongerRepeat, NoChanceRepeat;
    hide Prefix, SpokenBefore;
    ChanceIsLonger(c, say, norm, s);
    RightThroughoutIff(norm, Heard(say, Session(c, s)), Reps(c, say, Session(c, s)));
    forall k | 0 <= k <= |Session(c, s)|
      ensures PlainTo(Heard(say, Session(c, s)), Reps(c, say, Session(c, s)), k) == SpokenBefore(c, say, s, k)
    {
      TextsSaySpoken(c, say, s, k);
    }
  }

  /** For any session whose words are all distinct: assembling the chunks gives exactly the
      spoken words, each once and in order, if and only if no chunk repeats more than
      LIMIT words. */
  lemma NothingLostOrRepeated(c: Config, say: Item -> seq<string>, norm: string -> string, s: seq<Item>)
    requires Distinct(norm, Spoken(say, s))
    ensures JoinAll(norm, Heard(say, Session(c, s))) == Spoken(say, s) <==> ShortOverlaps(c, Session(c, s), say)
  {
    hide Session, Heard, Reps, Linked, Plain, Fits, Short, TrueOverlaps, Distinct;
    TextsSayAll(c, say, s);
    DistinctIff(norm, Heard(say, Session(c, s)), Reps(c, say, Session(c, s)));
  }

  /** In a session without forced cuts no chunk repeats anything, so the text is right if
      and only if at no chunk up to LIMIT words both end what was spoken before it and
      begin what is spoken in it; whatever does is lost. */
  lemma UnforcedIff(c: Config, say: Item -> seq<string>, norm: string -> string, s: seq<Item>)
    requires forall cut <- Session(c, s) :: cut.reason != ForcedMax
    ensures JoinAll(norm, Heard(say, Session(c, s))) == Spoken(say, s) <==>
              forall k, z :: 0 <= k < |Session(c, s)| && 1 <= z <= LIMIT ==> !LooksRepeated(c, say, norm, s, k, z)
  {
    hide Session, Heard, JoinAll, LooksRepeated;
    SpokenNothing(say);
    hide Spoken;
    forall k | 0 <= k < |Session(c, s)| ensures |Spoken(say, Repeated(c, Session(c, s), k))| == 0 {
      assert Repeated(c, Session(c, s), k) == [];
    }
    AssembledIff(c, say, norm, s);
    hide Repeated, Reps;
  }

  // ---------------------------------------------------------------- a word lost

  const BRIEF := Config(20, 40, 60, 20, 0, 0)

  function Phrase(x: Item): seq<string> {
    if x.frame.startMs == 0 then ["send", "the"] else ["the", "file"]
  }

  lemma BriefStart(x: Item, sequence: nat)
    requires x.isSpeech && x.frame.durationMs == 20
    ensures Push(BRIEF, Cleared(sequence), x) == (State([x], [], true, true, 0, 0, sequence), [])
  {
    assert [] + [x] == [x];
  }

  lemma BriefPause(x: Item, y: Item)
    requires x == Tone(20, 0, true) && y == Tone(20, 1, false)
    ensures var st := State([x], [], true, true, 0, 0, 0);
            Summarised(st) && Push(BRIEF, st, y) == (Cleared(1), [Cut([x], 0, Silence, 0)])
  {
    assert [x][0].isSpeech;
    var b := [x] + [y];
    assert b == [x, y] && b[0].isSpeech;
    assert LastSpeech(b) == 0;
    assert b[..1] == [x];
  }

  lemma BriefEnd(z: Item)
    requires z.isSpeech
    ensures var st := State([z], [], true, true, 0, 0, 1);
            Summarised(st) && Finish(BRIEF, st).1 == [Cut([z], 1, Stop, 0)]
  {
    assert [z][0].isSpeech;
    assert LastSpeech([z]) == 0;
    assert [z][..1] == [z];
  }

  lemma BriefSession(x: Item, y: Item, z: Item)
    requires x == Tone(20, 0, true) && y == Tone(20, 1, false) && z == Tone(20, 2, true)
    ensures Session(BRIEF, [x, y, z]) == [Cut([x], 0, Silence, 0), Cut([z], 1, Stop, 0)]
  {
    hide Push, Finish, After, Emitted, Summarised;
    BriefStart(x, 0);
    BriefPause(x, y);
    BriefStart(z, 1);
    BriefEnd(z);
    OneMore(BRIEF, [], x);
    assert [] + [x] == [x];
    OneMore(BRIEF, [x], y);
    assert [x] + [y] == [x, y];
    OneMore(BRIEF, [x, y], z);
    assert [x, y] + [z] == [x, y, z];
  }

  lemma PhrasesOverlap(norm: string -> string)
    requires norm("the") != norm("file")
    ensures Overlap(norm, ["send", "the"], ["the", "file"]) == 1
  {
    var first, second := ["send", "the"], ["the", "file"];
    var k, l := Keys(norm, first), Keys(norm, second);
    assert k == [norm("send"), norm("the")] && l == [norm("the"), norm("file")];
    hide Keys;
    assert k[1..] == l[..1];
    assert Repeats(norm, first, second, 1);
    assert k[0..][1] != l[..2][1];
    assert !Repeats(norm, first, second, 2);
    hide Repeats;
  }

  lemma JoinTwo(norm: string -> string, a: seq<string>, b: seq<string>)
    ensures JoinAll(norm, [a, b]) == a + b[Overlap(norm, a, b)..]
  {
    JoinAllOneMore(norm, [a, b], 0);
    JoinAllOneMore(norm, [a, b], 1);
    JoinAllEnds(norm, [a, b]);
    hide JoinAll, Prefix, Repeats;
    assert Overlap(norm, [], a) == 0;
    assert [] + a[0..] == a;
  }

  lemma PhrasesJoin(norm: string -> string)
    requires norm("the") != norm("file")
    ensures JoinAll(norm, [["send", "the"], ["the", "file"]]) == ["send", "the", "file"]
  {
    PhrasesOverlap(norm);
    JoinTwo(norm, ["send", "the"], ["the", "file"]);
    hide JoinAll, Overlap, Repeats;
    assert ["the", "file"][1..] == ["file"];
  }

  lemma SpokenOne(say: Item -> seq<string>, x: Item)
    ensures Spoken(say, [x]) == if x.isSpeech then say(x) else []
  {
    assert [x][..0] == [];
  }

  lemma PhrasesSpoken(x: Item, y: Item, z: Item)
    requires x == Tone(20, 0, true) && y == Tone(20, 1, false) && z == Tone(20, 2, true)
    ensures Spoken(Phrase, [x]) == ["send", "the"] && Spoken(Phrase, [z]) == ["the", "file"]
    ensures Spoken(Phrase, [x, y, z]) == ["send", "the", "the", "file"]
  {
    SpokenOne(Phrase, x);
    SpokenOne(Phrase, y);
    SpokenOne(Phrase, z);
    SpokenAppend(Phrase, [x], [y]);
    SpokenAppend(Phrase, [x, y], [z]);
    hide Spoken;
    assert [x] + [y] == [x, y] && [x, y] + [z] == [x, y, z];
  }

  /** A word said again after a pause is lost: "send the", a pause, "the file". Nothing was
      forced and no audio was carried over, yet one "the" is taken for a repeat. */
  lemma WordLost(norm: string -> string)
    requires norm("the") != norm("file")
    ensures var s := [Tone(20, 0, true), Tone(20, 1, false), Tone(20, 2, true)];
            && (forall cut <- Session(BRIEF, s) :: cut.reason != ForcedMax)
            && Spoken(Phrase, s) == ["send", "the", "the", "file"]
            && JoinAll(norm, Heard(Phrase, Session(BRIEF, s))) == ["send", "the", "file"]
  {
    hide Session, JoinAll, Spoken, Phrase;
    var x, y, z := Tone(20, 0, true), Tone(20, 1, false), Tone(20, 2, true);
    BriefSession(x, y, z);
    PhrasesJoin(norm);
    PhrasesSpoken(x, y, z);
    hide Tone;
    assert Heard(Phrase, Session(BRIEF, [x, y, z])) == [["send", "the"], ["the", "file"]];
  }

  // ---------------------------------------------------------------- sparse speech

  /** Speech is sparse enough for the overlap: no stretch shorter than the overlap plus
      one frame holds more words than the assembler looks back over. */
  ghost predicate Sparse(c: Config, d: int, s: seq<Item>, say: Item -> seq<string>) {
    forall lo, hi | 0 <= lo <= hi <= |s| && Total(s[lo..hi]) < Max(c.overlapMs, 1) + d ::
      |Spoken(say, s[lo..hi])| <= LIMIT
  }

  lemma SparseIsEnough(c: Config, s: seq<Item>, d: int, say: Item -> seq<string>)
    requires SegmentationLaws.Steady(s, d) && Sparse(c, d, s, say)
    ensures ShortOverlaps(c, Session(c, s), say)
  {
    hide Spoken, Session, Sparse, SessionSpans, RetainCount;
    SegmentationLaws.SessionLayout(c, s);
    var cuts := Session(c, s);
    forall k | 0 <= k < |cuts| ensures Reps(c, say, cuts)[k] <= LIMIT {
      if k > 0 && cuts[k - 1].reason == ForcedMax {
        assert Slice(s, cuts[k - 1], SessionSpans(c, s)[k - 1], k - 1);
        RetainedIsSparse(c, s, d, say, cuts[k - 1], SessionSpans(c, s)[k - 1], k - 1);
      } else {
        SpokenSilent(say, []);
      }
    }
  }

  lemma RetainedIsSparse(c: Config, s: seq<Item>, d: int, say: Item -> seq<string>, cut: Cut, span: Span, k: nat)
    requires SegmentationLaws.Steady(s, d) && Sparse(c, d, s, say) && Slice(s, cut, span, k)
    ensures |Spoken(say, Retained(cut.selected, c.overlapMs))| <= LIMIT
  {
    hide Spoken, Total, RetainCount;
    SegmentationLaws.SteadySlice(s, d, span.lo, span.hi);
    SegmentationLaws.RetainedDuration(cut.selected, d, c.overlapMs);
    assert Retained(cut.selected, c.overlapMs) == s[span.hi - RetainCount(cut.selected, c.overlapMs)..span.hi];
  }
}
