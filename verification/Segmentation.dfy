/** Speech-aware bounded chunking with forced-cut overlap
    (speaktap/segmentation/adaptive.py): what one call does, as functions on the
    policy's fields. ChunkPolicy has the class that does it in place. */
module Segmentation {
  import opened Domain

  /** A frame with the detector's verdict. */
  datatype Item = Item(frame: AudioFrame, isSpeech: bool)

  datatype Config = Config(minMs: int, targetMs: int, maxMs: int,
                           silenceMs: int, paddingMs: int, overlapMs: int)

  /** The mutable fields of the policy. */
  datatype State = State(buffer: seq<Item>, preRoll: seq<Item>,
                         hasSpeech: bool, speechAfterOverlap: bool,
                         trailingSilenceMs: int, prefixOverlapMs: int, sequence: nat)

  /** A finalized chunk before it is flattened: the frames it was cut from. */
  datatype Cut = Cut(selected: seq<Item>, sequence: nat, reason: CutReason, prefixOverlapMs: int)

  const FRESH := State([], [], false, false, 0, 0, 0)

  // ---------------------------------------------------------------- frames

  predicate AnySpeech(b: seq<Item>) {
    exists i :: 0 <= i < |b| && b[i].isSpeech
  }

  /** Wall-clock extent: the end of the last frame minus the start of the first. */
  function Extent(b: seq<Item>): int {
    if b == [] then 0 else b[|b| - 1].frame.EndMs() - b[0].frame.startMs
  }

  /** Sum of the frame durations. */
  function Total(b: seq<Item>): int {
    if b == [] then 0 else Total(b[..|b| - 1]) + b[|b| - 1].frame.durationMs
  }

  function TrailingSilence(b: seq<Item>): int {
    if b == [] || b[|b| - 1].isSpeech then 0
    else TrailingSilence(b[..|b| - 1]) + b[|b| - 1].frame.durationMs
  }

  function SpeechTotal(b: seq<Item>): int {
    if b == [] then 0
    else SpeechTotal(b[..|b| - 1]) + (if b[|b| - 1].isSpeech then b[|b| - 1].frame.durationMs else 0)
  }

  function Pcm(b: seq<Item>): seq<byte> {
    if b == [] then [] else Pcm(b[..|b| - 1]) + b[|b| - 1].frame.pcm
  }

  /** Pre-roll kept in front of speech: drop from the left while it is too long. */
  function Shorten(p: seq<Item>, paddingMs: int): seq<Item> {
    if |p| > 1 && Extent(p) > paddingMs then Shorten(p[1..], paddingMs) else p
  }

  function LastSpeech(b: seq<Item>): (i: nat)
    requires AnySpeech(b)
    ensures i < |b| && b[i].isSpeech && !AnySpeech(b[i + 1..])
  {
    if b[|b| - 1].isSpeech then
      assert b[|b|..] == [];
      |b| - 1
    else
      SpeechEarlier(b);
      var i := LastSpeech(b[..|b| - 1]);
      SilenceAfter(b, i);
      i
  }

  lemma SpeechEarlier(b: seq<Item>)
    requires AnySpeech(b) && !b[|b| - 1].isSpeech
    ensures AnySpeech(b[..|b| - 1])
  {
    var i :| 0 <= i < |b| && b[i].isSpeech;
    assert b[..|b| - 1][i].isSpeech;
  }

  lemma SilenceAfter(b: seq<Item>, i: nat)
    requires i < |b| - 1 && !b[|b| - 1].isSpeech && !AnySpeech(b[..|b| - 1][i + 1..])
    ensures !AnySpeech(b[i + 1..])
  {
    var rest, p := b[i + 1..], b[..|b| - 1][i + 1..];
    forall k | 0 <= k < |rest| ensures !rest[k].isSpeech {
      if k < |p| { assert rest[k] == p[k]; }
    }
  }

  /** Extend end over trailing frames until the padding is used up. */
  function PadEnd(b: seq<Item>, end: nat, paddingMs: int): (e: nat)
    requires end <= |b|
    ensures end <= e <= |b|
    decreases |b| - end
  {
    if end < |b| && 0 < paddingMs then PadEnd(b, end + 1, paddingMs - b[end].frame.durationMs)
    else end
  }

  function Trimmed(b: seq<Item>, paddingMs: int): seq<Item>
    requires AnySpeech(b)
  {
    b[..PadEnd(b, LastSpeech(b) + 1, paddingMs)]
  }

  /** How many frames, counted from the end, are retained after a forced cut: at
      least one, then as many as the overlap needs. */
  function RetainCount(b: seq<Item>, overlapMs: int): (n: nat)
    ensures n <= |b|
    ensures b != [] ==> n > 0
  {
    if b == [] then 0
    else
      var d := b[|b| - 1].frame.durationMs;
      if d >= overlapMs then 1 else 1 + RetainCount(b[..|b| - 1], overlapMs - d)
  }

  function Retained(b: seq<Item>, overlapMs: int): seq<Item> {
    b[|b| - RetainCount(b, overlapMs)..]
  }

  // ---------------------------------------------------------------- chunks

  function CutOf(st: State, selected: seq<Item>, reason: CutReason): Cut {
    Cut(selected, st.sequence, reason, st.prefixOverlapMs)
  }

  /** The chunk handed to the transcriber. The overlap is clamped so that it stays
      strictly shorter than the chunk. */
  function ChunkOf(sessionId: string, cut: Cut): AudioChunk
    requires cut.selected != []
  {
    var first := cut.selected[0].frame;
    var endMs := cut.selected[|cut.selected| - 1].frame.EndMs();
    var startMs := first.startMs;
    AudioChunk(sessionId, cut.sequence, Pcm(cut.selected), first.sampleRate, first.channels,
               startMs, endMs,
               Min(endMs - startMs, SpeechTotal(cut.selected)),
               cut.reason,
               Max(0, Min(cut.prefixOverlapMs, endMs - startMs - 1)))
  }

  // ---------------------------------------------------------------- one call

  function Cleared(sequence: nat): State {
    State([], [], false, false, 0, 0, sequence)
  }

  /** The buffer the frame ends up in, with the summaries kept along with it. */
  function Accept(st: State, x: Item): State {
    if st.buffer == [] then
      var b := st.preRoll + [x];
      State(b, [], true, true, TrailingSilence(b), st.prefixOverlapMs, st.sequence)
    else
      State(st.buffer + [x], st.preRoll,
            st.hasSpeech || x.isSpeech,
            st.speechAfterOverlap || x.isSpeech,
            if x.isSpeech then 0 else st.trailingSilenceMs + x.frame.durationMs,
            st.prefixOverlapMs, st.sequence)
  }

  /** Enough silence to cut, compared in half-milliseconds because the source
      halves the configured silence once the target duration is reached. */
  predicate SilenceReached(c: Config, durationMs: int, trailingMs: int, frameMs: int) {
    2 * trailingMs >= if durationMs >= c.targetMs then Max(2 * frameMs, c.silenceMs) else 2 * c.silenceMs
  }

  function AfterForcedCut(c: Config, a: State): State {
    var kept := Retained(a.buffer, c.overlapMs);
    State(kept, a.preRoll, AnySpeech(kept), false, TrailingSilence(kept), Total(kept), a.sequence + 1)
  }

  predicate AllNonEmpty(cuts: seq<Cut>) {
    forall k :: 0 <= k < |cuts| ==> cuts[k].selected != []
  }

  /** The cached summaries agree with the buffer they summarise. */
  ghost predicate Summarised(st: State) {
    && st.hasSpeech == AnySpeech(st.buffer)
    && st.trailingSilenceMs == TrailingSilence(st.buffer)
    && (st.speechAfterOverlap ==> st.hasSpeech)
  }

  lemma AcceptSummarised(st: State, x: Item)
    requires Summarised(st) && (st.buffer == [] ==> x.isSpeech)
    ensures Summarised(Accept(st, x))
  {
    var b := Accept(st, x).buffer;
    assert b[..|b| - 1] == if st.buffer == [] then st.preRoll else st.buffer;
    if AnySpeech(st.buffer) {
      var i :| 0 <= i < |st.buffer| && st.buffer[i].isSpeech;
      assert b[i].isSpeech;
    }
    if x.isSpeech { assert b[|b| - 1].isSpeech; }
  }

  /** The cut decision of push, once the frame is in the buffer. */
  ghost function Decide(c: Config, a: State, frameMs: int): (r: (State, seq<Cut>))
    requires Summarised(a) && a.buffer != []
    ensures Summarised(r.0)
    ensures AllNonEmpty(r.1)
  {
    var durationMs := Extent(a.buffer);
    if durationMs >= c.maxMs then
      (AfterForcedCut(c, a), [CutOf(a, a.buffer, ForcedMax)])
    else if durationMs >= c.minMs && a.hasSpeech
            && SilenceReached(c, durationMs, a.trailingSilenceMs, frameMs) then
      (Cleared(a.sequence + 1), [CutOf(a, Trimmed(a.buffer, c.paddingMs), Silence)])
    else
      (a, [])
  }

  ghost function Push(c: Config, st: State, x: Item): (r: (State, seq<Cut>))
    requires Summarised(st)
    ensures Summarised(r.0)
    ensures AllNonEmpty(r.1)
  {
    if st.buffer == [] && !x.isSpeech then
      (st.(preRoll := Shorten(st.preRoll + [x], c.paddingMs)), [])
    else
      AcceptSummarised(st, x);
      Decide(c, Accept(st, x), x.frame.durationMs)
  }

  ghost function Finish(c: Config, st: State): (r: (State, seq<Cut>))
    requires Summarised(st)
    ensures Summarised(r.0)
    ensures AllNonEmpty(r.1)
  {
    if st.buffer == [] || !st.hasSpeech || (st.prefixOverlapMs != 0 && !st.speechAfterOverlap) then
      (Cleared(st.sequence), [])
    else
      (Cleared(st.sequence + 1), [CutOf(st, Trimmed(st.buffer, c.paddingMs), Stop)])
  }

  function ChunksOf(sessionId: string, cuts: seq<Cut>): seq<AudioChunk>
    requires AllNonEmpty(cuts)
  {
    seq(|cuts|, k requires 0 <= k < |cuts| => ChunkOf(sessionId, cuts[k]))
  }

  lemma TotalSuffix(b: seq<Item>, k: nat)
    requires k < |b|
    ensures Total(b[k..]) == b[k].frame.durationMs + Total(b[k + 1..])
  {
    if k == |b| - 1 {
      assert b[k..] == [b[k]];
      assert Total([b[k]]) == Total([b[k]][..0]) + b[k].frame.durationMs;
    } else {
      var p := b[..|b| - 1];
      assert b[k..][..|b[k..]| - 1] == p[k..];
      assert b[k + 1..][..|b[k + 1..]| - 1] == p[k + 1..];
      TotalSuffix(p, k);
    }
  }
}
