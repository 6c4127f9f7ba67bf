/** The session's promises for every interleaving: what stop delivers, how far capture
    can run ahead, that stopping ends, and where it would not. */
module PipelineRuns {
  import opened Domain
  import opened Segmentation
  import opened SegmentationRuns
  import opened Assembly
  import opened Pipeline
  import opened PipelineLaws
  import SegmentationLaws
  import opened Overlaps
  import EndToEnd

  // ---------------------------------------------------------------- safety

  lemma ReachableKeeps(env: Env, frames: seq<Item>, acts: seq<Action>, t: SessionState)
    requires Runs(env, Start(frames), acts, t)
    ensures Invariant(env, t)
  {
    hide Invariant;
    StartKeeps(env, frames);
    RunKeeps(env, Start(frames), acts, t);
  }

  /** No frame is lost or invented on the way to the policy. */
  lemma {:induction false} FramesInOrder(env: Env, s: SessionState, acts: seq<Action>, t: SessionState)
    requires Runs(env, s, acts, t)
    ensures t.pushed + t.frames == s.pushed + s.frames && s.pushed <= t.pushed
    decreases |acts|
  {
    if acts != [] {
      var n := Apply(env, s, acts[0]);
      FramesStep(env, s, acts[0]);
      hide Apply;
      FramesInOrder(env, n, acts[1..], t);
    }
  }

  lemma FramesStep(env: Env, s: SessionState, a: Action)
    requires Enabled(env, s, a)
    ensures var t := Apply(env, s, a);
            t.pushed + t.frames == s.pushed + s.frames && s.pushed <= t.pushed
  {
    hide Apply, Enabled;
    if OfCapture(a) {
      FramesOfCapture(env, s, a);
    } else if OfWorker(a) {
      WorkerTouches(env, s, a);
    } else {
      CallerTouches(env, s, a);
    }
  }

  lemma FramesOfCapture(env: Env, s: SessionState, a: Action)
    requires Enabled(env, s, a) && OfCapture(a)
    ensures var t := Apply(env, s, a);
            t.pushed + t.frames == s.pushed + s.frames && s.pushed <= t.pushed
  {
    hide LastPush, ChunksOf, ApplyWorker, ApplyCaller;
    if a.Fetch? { assert s.pushed + [s.frames[0]] + s.frames[1..] == s.pushed + s.frames; }
  }

  lemma PushedIsPrefix(env: Env, frames: seq<Item>, acts: seq<Action>, t: SessionState)
    requires Runs(env, Start(frames), acts, t)
    ensures t.pushed <= frames
  {
    hide Runs;
    FramesInOrder(env, Start(frames), acts, t);
    var empty: seq<Item> := [];
    assert t.pushed + t.frames == empty + frames;
    assert empty + frames == frames;
    PrefixOfSum(t.pushed, t.frames);
  }

  lemma PrefixOfSum(a: seq<Item>, b: seq<Item>)
    ensures a <= a + b
  {
  }

  /** A capture failure is remembered until the end of the session. */
  lemma {:induction false} FailureIsRecorded(env: Env, s: SessionState, acts: seq<Action>, t: SessionState)
    requires Runs(env, s, acts, t)
    ensures t.captureError <==> s.captureError || EndCapture(true) in acts
    decreases |acts|
  {
    if acts != [] {
      FailureStep(env, s, acts[0]);
      hide Apply;
      FailureIsRecorded(env, Apply(env, s, acts[0]), acts[1..], t);
      assert acts == [acts[0]] + acts[1..];
    }
  }

  lemma FailureStep(env: Env, s: SessionState, a: Action)
    requires Enabled(env, s, a)
    ensures Apply(env, s, a).captureError <==> s.captureError || a == EndCapture(true)
  {
    hide Apply, Enabled;
    if OfCapture(a) {
      FailureOfCapture(env, s, a);
    } else if OfWorker(a) {
      WorkerTouches(env, s, a);
    } else {
      CallerTouches(env, s, a);
    }
  }

  lemma FailureOfCapture(env: Env, s: SessionState, a: Action)
    requires Enabled(env, s, a) && OfCapture(a)
    ensures Apply(env, s, a).captureError <==> s.captureError || a == EndCapture(true)
  {
    hide LastPush, ChunksOf, ApplyWorker, ApplyCaller;
  }

  /** The session has transcribed exactly these chunks: they are numbered from 0 without
      gaps, the worker took them in that order, transcript k is that of chunk k and there
      is no other, nothing followed the sentinel and the only writer has ended. Once stop
      is over, the session is reset; it has returned the assembly of those transcripts,
      or raised if capture failed. */
  predicate Complete(env: Env, t: SessionState, chunks: seq<AudioChunk>) {
    && Numbered(chunks)
    && t.taken == chunks
    && t.transcripts == (map k | 0 <= k < |chunks| :: TranscriptOf(env, chunks[k]))
    && t.queue == [] && t.unfinished == 0 && t.worker.Exited?
    && (t.active <==> t.caller.Building?)
    && (t.caller.Returned? ==> t.result == Some(ResultOf(env, chunks, t.captureError)))
  }

  /** When the waits of stop are over, in any interleaving, exactly the chunks the policy
      emits for the frames pushed have been transcribed. Stop then returns their assembly
      if and only if capture never failed, and otherwise raises. */
  lemma StopDelivers(env: Env, frames: seq<Item>, acts: seq<Action>, t: SessionState)
    requires Runs(env, Start(frames), acts, t)
    requires !t.cancelling && (t.caller.Building? || t.caller.Returned?)
    ensures t.pushed <= frames
    ensures Complete(env, t, ChunksOf(env.sessionId, Session(env.config, t.pushed)))
    ensures t.captureError <==> EndCapture(true) in acts
  {
    hide Runs, Keeps, Numbered, ResultOf;
    PushedIsPrefix(env, frames, acts, t);
    ReachableKeeps(env, frames, acts, t);
    FailureIsRecorded(env, Start(frames), acts, t);
    AllNumbered(env, t);
    Settled(env, t, Chunks(env, t));
  }

  lemma CompleteResult(env: Env, t: SessionState, chunks: seq<AudioChunk>)
    requires Complete(env, t, chunks) && t.caller.Returned?
    ensures t.result.Some? && (t.result.value.Words? <==> !t.captureError)
  {
    hide Numbered, TranscriptOf, TranscriptsOf, Assemble;
  }

  lemma ReturnedIsReset(env: Env, t: SessionState)
    requires Invariant(env, t)
    ensures t.active <==> !t.caller.Returned?
  {
    hide Chunks, Flow, Stored, Counted, Delivered, Pending;
  }

  lemma Settled(env: Env, t: SessionState, all: seq<AudioChunk>)
    requires Keeps(env, t, all) && Numbered(all) && !t.cancelling && (t.caller.Building? || t.caller.Returned?)
    ensures Complete(env, t, all)
  {
    hide TranscriptOf, Assemble, TranscriptsOf, Numbered;
    assert all[..|all|] == all;
  }

  /** Emitted chunks whose task is not done yet: in the queue, in the worker's hands, or
      about to be put. */
  ghost function Backlog(env: Env, s: SessionState): int {
    |Chunks(env, s)| - |s.taken| + (if s.worker.Transcribing? || s.worker.Storing? || s.worker.Acking? then 1 else 0)
  }

  /** Capture never runs further ahead than the queue bound plus two chunks. */
  lemma BacklogIsBounded(env: Env, frames: seq<Item>, acts: seq<Action>, t: SessionState)
    requires Runs(env, Start(frames), acts, t) && env.bound > 0
    ensures 0 <= Backlog(env, t) <= env.bound + 2
  {
    ReachableKeeps(env, frames, acts, t);
    hide Chunks, Runs, TranscriptOf, Assemble;
  }

  /** Capture waits to put a chunk only when the queue holds as many jobs as its bound. */
  lemma CaptureWaitsWhenFull(env: Env, frames: seq<Item>, acts: seq<Action>, t: SessionState)
    requires Runs(env, Start(frames), acts, t) && t.capture.Putting? && t.capture.pending != []
    ensures !Enabled(env, t, CapturePut) <==> env.bound > 0 && |t.queue| == env.bound
  {
    ReachableKeeps(env, frames, acts, t);
    hide Chunks, Runs, Flow, Stored, Phases, Delivered;
  }

  /** A transcript of a valid chunk is valid. */
  lemma TranscriptsAreValid(env: Env, s: seq<Item>, d: int, k: nat)
    requires SegmentationLaws.Steady(s, d) && env.sessionId != "" && k < |Session(env.config, s)|
    ensures TranscriptOf(env, ChunkOf(env.sessionId, Session(env.config, s)[k])).Valid()
  {
    hide Session, ChunkOf;
    SegmentationLaws.ChunksAreValid(env.config, s, d, env.sessionId, k);
  }

  // ---------------------------------------------------------------- how much is captured

  /** The frames up to and including the first one that reaches the recording limit. */
  function UpToLimit(frames: seq<Item>, limitMs: int): seq<Item> {
    if frames == [] then []
    else if frames[0].frame.EndMs() >= limitMs then [frames[0]]
    else [frames[0]] + UpToLimit(frames[1..], limitMs)
  }

  predicate Reaches(pushed: seq<Item>, limitMs: int) {
    pushed != [] && pushed[|pushed| - 1].frame.EndMs() >= limitMs
  }

  predicate EarlierBefore(pushed: seq<Item>, limitMs: int) {
    forall i :: 0 <= i < |pushed| - 1 ==> pushed[i].frame.EndMs() < limitMs
  }

  /** Capture takes frames as long as the last one has not reached the limit, and before
      stop or cancel is called nothing else ends it but the source or a failure. Once one of
      them is called the source is stopped. */
  predicate Reading(limitMs: int, s: SessionState) {
    && EarlierBefore(s.pushed, limitMs)
    && (s.capture.Fetching? ==> !Reaches(s.pushed, limitMs))
    && (s.capture.Putting? ==> s.pushed != [] && s.capture.frame == s.pushed[|s.pushed| - 1].frame)
    && (s.caller.Recording? && s.sourceStopped ==> s.capture.Ended?)
    && (!s.caller.Recording? ==> s.sourceStopped)
    && (s.caller.Recording? && s.capture.Ended? && !s.captureError ==> s.frames == [] || Reaches(s.pushed, limitMs))
  }

  lemma ReadingByCapture(env: Env, s: SessionState, a: Action)
    requires Enabled(env, s, a) && OfCapture(a) && !a.Fetch? && Reading(env.maxRecordingMs, s)
    ensures Reading(env.maxRecordingMs, Apply(env, s, a))
  {
    hide ApplyWorker, ApplyCaller, EarlierBefore;
  }

  lemma ReadingFetch(env: Env, s: SessionState)
    requires Enabled(env, s, Fetch) && Reading(env.maxRecordingMs, s)
    ensures Reading(env.maxRecordingMs, Apply(env, s, Fetch))
  {
    hide ApplyWorker, ApplyCaller, LastPush, ChunksOf;
    assert Apply(env, s, Fetch).pushed == s.pushed + [s.frames[0]];
  }

  lemma CallerIsBusy(env: Env, s: SessionState, a: Action)
    requires Enabled(env, s, a) && !OfCapture(a) && !OfWorker(a)
    ensures !Apply(env, s, a).caller.Recording?
    ensures s.caller.Recording? || s.sourceStopped ==> Apply(env, s, a).sourceStopped
  {
    hide ApplyCapture, ApplyWorker, Last, ChunksOf, SortedValues, Assemble;
  }

  lemma ReadingStep(env: Env, s: SessionState, a: Action)
    requires Enabled(env, s, a) && Reading(env.maxRecordingMs, s)
    ensures Reading(env.maxRecordingMs, Apply(env, s, a))
  {
    hide Apply, Enabled, EarlierBefore, Reaches;
    if a.Fetch? {
      ReadingFetch(env, s);
    } else if OfCapture(a) {
      ReadingByCapture(env, s, a);
    } else if OfWorker(a) {
      WorkerTouches(env, s, a);
    } else {
      CallerTouches(env, s, a);
      CallerIsBusy(env, s, a);
    }
  }

  lemma {:induction false} ReadingRun(env: Env, s: SessionState, acts: seq<Action>, t: SessionState)
    requires Runs(env, s, acts, t) && Reading(env.maxRecordingMs, s)
    ensures Reading(env.maxRecordingMs, t)
    decreases |acts|
  {
    hide Apply, Reading;
    if acts != [] {
      ReadingStep(env, s, acts[0]);
      ReadingRun(env, Apply(env, s, acts[0]), acts[1..], t);
    }
  }

  lemma UpToLimitFirst(x: Item, rest: seq<Item>, limitMs: int)
    ensures UpToLimit([x] + rest, limitMs)
         == if x.frame.EndMs() >= limitMs then [x] else [x] + UpToLimit(rest, limitMs)
  {
    assert ([x] + rest)[1..] == rest;
  }

  lemma WithoutFirst(pushed: seq<Item>, limitMs: int)
    requires EarlierBefore(pushed, limitMs) && |pushed| > 1
    ensures pushed[0].frame.EndMs() < limitMs && EarlierBefore(pushed[1..], limitMs)
    ensures Reaches(pushed[1..], limitMs) == Reaches(pushed, limitMs)
  {
  }

  lemma {:induction false} PushedUpToLimit(pushed: seq<Item>, rest: seq<Item>, limitMs: int)
    requires EarlierBefore(pushed, limitMs)
    ensures pushed <= UpToLimit(pushed + rest, limitMs)
    ensures rest == [] || Reaches(pushed, limitMs) ==> pushed == UpToLimit(pushed + rest, limitMs)
    decreases |pushed|
  {
    if pushed == [] {
      assert pushed + rest == rest;
    } else {
      var x, tail := pushed[0], pushed[1..];
      assert pushed + rest == [x] + (tail + rest) && pushed == [x] + tail;
      UpToLimitFirst(x, tail + rest, limitMs);
      hide UpToLimit;
      if tail == [] {
        assert [] + rest == rest;
        UpToLimitNothing(limitMs);
      } else {
        WithoutFirst(pushed, limitMs);
        hide EarlierBefore, Reaches;
        PushedUpToLimit(tail, rest, limitMs);
      }
    }
  }

  lemma UpToLimitNothing(limitMs: int)
    ensures UpToLimit([], limitMs) == []
  {
  }

  /** No frame after the first one that reaches the recording limit is captured; and when
      capture has ended by itself without failing, all frames up to that one are. */
  lemma CaptureKeepsToLimit(env: Env, frames: seq<Item>, acts: seq<Action>, t: SessionState)
    requires Runs(env, Start(frames), acts, t)
    ensures t.pushed <= UpToLimit(frames, env.maxRecordingMs)
    ensures t.capture.Ended? && t.caller.Recording? && EndCapture(true) !in acts ==>
              t.pushed == UpToLimit(frames, env.maxRecordingMs)
  {
    ReadingRun(env, Start(frames), acts, t);
    hide Runs, EarlierBefore, Reaches, UpToLimit;
    FramesInOrder(env, Start(frames), acts, t);
    FailureIsRecorded(env, Start(frames), acts, t);
    assert [] + frames == frames;
    PushedUpToLimit(t.pushed, t.frames, env.maxRecordingMs);
  }

  /** Between two frames capture can end without failing as soon as stop or cancel was
      called; before that, only when the source has no more frames. */
  lemma StopEndsCapture(env: Env, frames: seq<Item>, acts: seq<Action>, t: SessionState)
    requires Runs(env, Start(frames), acts, t) && t.capture.Fetching?
    ensures Enabled(env, t, EndCapture(false)) <==> !t.caller.Recording? || t.frames == []
  {
    ReadingRun(env, Start(frames), acts, t);
    hide Runs, EarlierBefore, Reaches;
  }

  lemma {:induction false} RunsAppend(env: Env, s: SessionState, a: seq<Action>, m: SessionState, b: seq<Action>,
                                      t: SessionState)
    requires Runs(env, s, a, m) && Runs(env, m, b, t)
    ensures Runs(env, s, a + b, t)
    decreases |a|
  {
    hide Apply, Enabled;
    if a == [] {
      assert a + b == b;
    } else {
      RunsAppend(env, Apply(env, s, a[0]), a[1..], m, b, t);
      assert (a + b)[1..] == a[1..] + b;
    }
  }

  lemma {:induction false} NothingAfterEnd(env: Env, s: SessionState, acts: seq<Action>, t: SessionState)
    requires Runs(env, s, acts, t) && s.capture.Ended?
    ensures t.pushed == s.pushed && EndCapture(true) !in acts
    decreases |acts|
  {
    if acts != [] {
      EndedStep(env, s, acts[0]);
      hide Apply, Enabled;
      NothingAfterEnd(env, Apply(env, s, acts[0]), acts[1..], t);
    }
  }

  lemma EndedStep(env: Env, s: SessionState, a: Action)
    requires Enabled(env, s, a) && s.capture.Ended?
    ensures Apply(env, s, a).capture.Ended? && Apply(env, s, a).pushed == s.pushed && a != EndCapture(true)
  {
    hide Apply;
    assert !OfCapture(a);
    if OfWorker(a) { WorkerTouches(env, s, a); } else { CallerTouches(env, s, a); }
  }

  /** wait(): stop is called once capture has ended by itself. Unless capture failed it
      returns the assembled transcripts of all frames up to the recording limit. */
  lemma WaitDelivers(env: Env, frames: seq<Item>, acts: seq<Action>, m: SessionState, more: seq<Action>,
                     t: SessionState)
    requires Runs(env, Start(frames), acts, m) && m.capture.Ended? && m.caller.Recording?
    requires Runs(env, m, more, t) && t.caller.Returned? && !t.cancelling
    ensures EndCapture(true) !in acts ==>
              var cuts := Session(env.config, UpToLimit(frames, env.maxRecordingMs));
              t.result == Some(Words(Assemble(env.norm, TranscriptsOf(env, ChunksOf(env.sessionId, cuts)))))
    ensures EndCapture(true) in acts ==> t.result == Some(CaptureFailed)
  {
    hide Runs, UpToLimit, Session, Numbered, Assemble, TranscriptsOf, ChunksOf;
    CaptureKeepsToLimit(env, frames, acts, m);
    NothingAfterEnd(env, m, more, t);
    RunsAppend(env, Start(frames), acts, m, more, t);
    StopDelivers(env, frames, acts + more, t);
  }

  // ---------------------------------------------------------------- progress

  function CaptureLeft(capture: Capture): nat {
    match capture
    case Fetching => 1
    case Putting(pending, _) => 2 + 6 * |pending|
    case Ended => 0
  }

  function WorkerLeft(worker: Worker): nat {
    match worker
    case Waiting => 0
    case Transcribing(_) => 4
    case Storing(_) => 3
    case Acking => 2
    case AckingStop => 4
    case Leaving => 2
    case Exited => 0
  }

  function CallerLeft(caller: Caller): nat {
    match caller
    case Recording => 30
    case JoiningCapture => 29
    case FinalPutting(last) => 20 + 6 * |last|
    case PuttingStop => 12
    case JoiningQueue => 4
    case JoiningWorker => 3
    case Building => 2
    case Returned => 0
  }

  /** Work left to do in a session. */
  function Measure(s: SessionState): nat {
    10 * |s.frames| + 5 * |s.queue| + CaptureLeft(s.capture) + WorkerLeft(s.worker) + CallerLeft(s.caller)
  }

  lemma MeasureFalls(env: Env, s: SessionState, a: Action)
    requires Enabled(env, s, a)
    ensures Measure(Apply(env, s, a)) < Measure(s)
  {
    hide Apply, Measure;
    if a.Fetch? {
      FetchMeasure(env, s);
    } else if a.JoinCapture? {
      JoinMeasure(env, s);
    } else if Puts(a) {
      PutMeasure(env, s, a);
    } else {
      QuietMeasure(env, s, a);
    }
  }

  lemma FetchMeasure(env: Env, s: SessionState)
    requires Enabled(env, s, Fetch)
    ensures Measure(Apply(env, s, Fetch)) < Measure(s)
  {
    SegmentationLaws.AtMostOne(env.config, s.pushed + [s.frames[0]]);
    hide LastPush, Last, TranscriptOf, SortedValues, Assemble;
    var t := Apply(env, s, Fetch);
    assert t.worker == s.worker && t.caller == s.caller && t.queue == s.queue;
    assert |t.frames| == |s.frames| - 1 && CaptureLeft(t.capture) <= 8;
    hide Apply;
  }

  lemma JoinMeasure(env: Env, s: SessionState)
    requires Enabled(env, s, JoinCapture)
    ensures Measure(Apply(env, s, JoinCapture)) < Measure(s)
  {
    SegmentationLaws.AtMostOne(env.config, s.pushed);
    hide LastPush, Last, TranscriptOf, SortedValues, Assemble;
    var t := Apply(env, s, JoinCapture);
    assert t.worker == s.worker && t.capture == s.capture && t.queue == s.queue && t.frames == s.frames;
    assert CallerLeft(t.caller) <= 26;
    hide Apply;
  }

  lemma PutMeasure(env: Env, s: SessionState, a: Action)
    requires Enabled(env, s, a) && Puts(a)
    ensures Measure(Apply(env, s, a)) < Measure(s)
  {
    hide LastPush, Last, TranscriptOf, SortedValues, Assemble;
  }

  lemma QuietMeasure(env: Env, s: SessionState, a: Action)
    requires Enabled(env, s, a) && !Emits(a) && !Puts(a)
    ensures Measure(Apply(env, s, a)) < Measure(s)
  {
    hide LastPush, Last, TranscriptOf, SortedValues, Assemble;
  }

  /** Every run is finite, whatever the interleaving. */
  lemma {:induction false} RunsAreShort(env: Env, s: SessionState, acts: seq<Action>, t: SessionState)
    requires Runs(env, s, acts, t)
    ensures |acts| + Measure(t) <= Measure(s)
    decreases |acts|
  {
    hide Apply, Measure;
    if acts != [] {
      MeasureFalls(env, s, acts[0]);
      RunsAreShort(env, Apply(env, s, acts[0]), acts[1..], t);
    }
  }

  /** A step that is possible in every state of a session being stopped. It never relies
      on the source or the detector raising. */
  function NextAction(env: Env, s: SessionState): Action {
    match s.worker
    case Transcribing(_) => WorkerTranscribe
    case Storing(_) => WorkerStore
    case Acking => WorkerAck
    case AckingStop => WorkerAck
    case Leaving => WorkerLeave
    case _ =>
      if s.capture.Fetching? then
        if s.frames == [] || s.sourceStopped then EndCapture(false) else Fetch
      else if s.capture.Putting? then
        if s.capture.pending == [] then CaptureCheck else if HasRoom(env, s) then CapturePut else WorkerGet
      else
        match s.caller
        case Recording => CallStop
        case JoiningCapture => JoinCapture
        case FinalPutting(last) => if last == [] || HasRoom(env, s) then FinalPut else WorkerGet
        case PuttingStop => if HasRoom(env, s) then PutStop else WorkerGet
        case JoiningQueue => if s.worker.Waiting? then WorkerGet else JoinQueue
        case JoiningWorker => JoinWorker
        case Building => Build
        case Returned => Build
  }

  lemma InvariantHasStep(env: Env, s: SessionState)
    requires Invariant(env, s) && !s.caller.Returned?
    ensures Enabled(env, s, NextAction(env, s)) && NextAction(env, s) != EndCapture(true)
  {
    hide Chunks, Jobs, TranscriptOf, Assemble, Delivered, Stored;
  }

  /** No reachable state but the final one is stuck. */
  lemma NoDeadlock(env: Env, frames: seq<Item>, s: SessionState)
    requires Reachable(env, frames, s) && !s.caller.Returned?
    ensures Enabled(env, s, NextAction(env, s)) && NextAction(env, s) != EndCapture(true)
  {
    hide Invariant, Enabled, NextAction, Runs;
    ReachableIsInvariant(env, frames, s);
    InvariantHasStep(env, s);
  }

  lemma ReachableIsInvariant(env: Env, frames: seq<Item>, s: SessionState)
    requires Reachable(env, frames, s)
    ensures Invariant(env, s)
  {
    hide Invariant, Runs;
    var acts :| Runs(env, Start(frames), acts, s);
    ReachableKeeps(env, frames, acts, s);
  }

  /** From any reachable state the session can be driven to the end of stop or cancel. */
  lemma StopReturns(env: Env, frames: seq<Item>, s: SessionState) returns (acts: seq<Action>, t: SessionState)
    requires Reachable(env, frames, s)
    ensures Runs(env, s, acts, t) && t.caller.Returned?
  {
    hide Invariant, Runs;
    ReachableIsInvariant(env, frames, s);
    acts, t := Drive(env, s);
  }

  lemma {:induction false} Drive(env: Env, s: SessionState) returns (acts: seq<Action>, t: SessionState)
    requires Invariant(env, s)
    ensures Runs(env, s, acts, t) && t.caller.Returned?
    decreases Measure(s)
  {
    if s.caller.Returned? {
      acts, t := [], s;
    } else {
      var a := NextAction(env, s);
      InvariantHasStep(env, s);
      MeasureFalls(env, s, a);
      StepKeeps(env, s, a);
      hide Invariant, Apply, Enabled, Measure, NextAction;
      var rest;
      rest, t := Drive(env, Apply(env, s, a));
      acts := [a] + rest;
      assert acts[1..] == rest;
    }
  }

  // ---------------------------------------------------------------- cancel after stop raised

  /** When stop() raises, the service calls cancel(). It returns at once when the session
      has been reset; otherwise it starts to wait. */
  function LaterCancel(s: SessionState): SessionState {
    if s.active then s.(caller := JoiningCapture, cancelling := true) else s
  }

  predicate Stranded(s: SessionState) {
    && s.cancelling && s.capture.Ended? && s.worker.Exited?
    && (s.caller.JoiningCapture? || s.caller.PuttingStop? || (s.caller.JoiningQueue? && s.unfinished > 0))
    && s.unfinished >= 0
  }

  /** That cancel() never returns: in no continuation is the final phase reached. */
  lemma {:induction false} FailedBuildStrandsCancel(env: Env, s: SessionState, acts: seq<Action>, t: SessionState)
    requires Stranded(s) && Runs(env, s, acts, t)
    ensures Stranded(t) && !t.caller.Returned?
    decreases |acts|
  {
    if acts != [] {
      StrandedStep(env, s, acts[0]);
      hide Apply, Stranded;
      FailedBuildStrandsCancel(env, Apply(env, s, acts[0]), acts[1..], t);
    }
  }

  lemma StrandedStep(env: Env, s: SessionState, a: Action)
    requires Stranded(s) && Enabled(env, s, a)
    ensures Stranded(Apply(env, s, a))
  {
    hide LastPush, Last, ChunksOf, TranscriptOf, SortedValues, Assemble;
  }

  /** Stop may raise because building the result raises or, after that, because capture
      failed, which it does exactly when it had. A build that returns has reset the
      session, so a cancel that follows returns at once, capture failed or not; after a
      build that raises, the session is as it was, and that cancel never returns. */
  lemma BuildDecidesTermination(env: Env, frames: seq<Item>, acts: seq<Action>, s: SessionState)
    requires Runs(env, Start(frames), acts, s) && s.caller.Building?
    ensures Enabled(env, s, Build)
    ensures var t := Apply(env, s, Build);
            && t.caller.Returned? && LaterCancel(t) == t
            && (t.result == Some(CaptureFailed) <==> EndCapture(true) in acts)
    ensures NeverReturns(env, LaterCancel(s))
  {
    hide Invariant, NeverReturns, Runs, SortedValues, Assemble;
    ReachableKeeps(env, frames, acts, s);
    FailureIsRecorded(env, Start(frames), acts, s);
    FailedBuildIsStranded(env, s);
    BuildReturns(env, s);
  }

  lemma BuildReturns(env: Env, s: SessionState)
    requires s.caller.Building?
    ensures Enabled(env, s, Build)
    ensures var t := Apply(env, s, Build);
            && t.caller.Returned? && LaterCancel(t) == t
            && (t.result == Some(CaptureFailed) <==> s.captureError)
  {
    hide SortedValues, Assemble;
  }

  lemma FailedBuildIsStranded(env: Env, s: SessionState)
    requires Invariant(env, s) && s.caller.Building?
    ensures NeverReturns(env, LaterCancel(s))
  {
    BuildingIsSettled(env, s);
    hide Invariant, NeverReturns;
    StrandedNeverReturns(env, LaterCancel(s));
  }

  ghost predicate NeverReturns(env: Env, s: SessionState) {
    forall acts, t :: Runs(env, s, acts, t) ==> !t.caller.Returned?
  }

  lemma StrandedNeverReturns(env: Env, s: SessionState)
    requires Stranded(s)
    ensures NeverReturns(env, s)
  {
    hide Stranded, Runs;
    forall acts, t | Runs(env, s, acts, t) ensures !t.caller.Returned? {
      FailedBuildStrandsCancel(env, s, acts, t);
    }
  }

  lemma BuildingIsSettled(env: Env, s: SessionState)
    requires Invariant(env, s) && s.caller.Building?
    ensures s.capture.Ended? && s.worker.Exited? && s.unfinished >= 0 && s.active
  {
    hide Chunks, Flow, Stored, Delivered;
  }

  // ---------------------------------------------------------------- from frames to text

  /** The transcriber hears the words of each chunk's speech frames. */
  ghost predicate Ideal(env: Env, s: seq<Item>, say: Item -> seq<string>) {
    forall k :: 0 <= k < |Session(env.config, s)| ==>
      env.asr(ChunkOf(env.sessionId, Session(env.config, s)[k]))
        == Text(EndToEnd.Spoken(say, Session(env.config, s)[k].selected))
  }

  lemma TranscriptSays(env: Env, s: seq<Item>, say: Item -> seq<string>, k: nat)
    requires Ideal(env, s, say) && k < |Session(env.config, s)|
    ensures TranscriptOf(env, ChunkOf(env.sessionId, Session(env.config, s)[k])).words
         == EndToEnd.Spoken(say, Session(env.config, s)[k].selected)
  {
    hide Session, ChunkOf, EndToEnd.Spoken;
  }

  lemma NumberedAscends(env: Env, chunks: seq<AudioChunk>)
    requires Numbered(chunks)
    ensures Ascending(TranscriptsOf(env, chunks))
  {
    forall k | 0 <= k < |chunks| ensures TranscriptsOf(env, chunks)[k].sequence == k {
      SequenceKept(env, chunks[k]);
    }
    hide TranscriptOf, TranscriptsOf, Numbered;
  }

  lemma AssembledAsHeard(env: Env, s: seq<Item>, say: Item -> seq<string>)
    requires Ideal(env, s, say)
    requires Numbered(ChunksOf(env.sessionId, Session(env.config, s)))
    ensures var ts := TranscriptsOf(env, ChunksOf(env.sessionId, Session(env.config, s)));
            Assemble(env.norm, ts) == JoinAll(env.norm, EndToEnd.Heard(say, Session(env.config, s)))
  {
    hide Session, Ideal, ChunkOf, TranscriptOf, EndToEnd.Spoken, JoinAll, BySequence, Numbered, Ascending;
    var cuts := Session(env.config, s);
    var ts := TranscriptsOf(env, ChunksOf(env.sessionId, cuts));
    NumberedAscends(env, ChunksOf(env.sessionId, cuts));
    SortedIsFixed(ts);
    forall k | 0 <= k < |cuts| ensures ts[k].words == EndToEnd.Spoken(say, cuts[k].selected) {
      TranscriptSays(env, s, say, k);
    }
    assert Texts(ts) == EndToEnd.Heard(say, cuts);
  }

  /** The whole session, in any interleaving, with an ideal transcriber. When no chunk
      repeats more words than the assembler compares, stop returns exactly the words
      spoken in the frames captured if and only if capture did not fail and nothing spoken
      looks like a longer repeat. When all words are distinct, it does if and only if
      capture did not fail and no chunk repeats more words than that. */
  lemma CaptureToText(env: Env, frames: seq<Item>, acts: seq<Action>, t: SessionState, say: Item -> seq<string>)
    requires Runs(env, Start(frames), acts, t) && t.caller.Returned? && !t.cancelling
    requires Ideal(env, t.pushed, say)
    ensures EndCapture(true) in acts ==> t.result == Some(CaptureFailed)
    ensures var cuts, spoken := Session(env.config, t.pushed), EndToEnd.Spoken(say, t.pushed);
            var right := t.result == Some(Words(spoken));
            && (EndToEnd.ShortOverlaps(env.config, cuts, say) ==>
                  (right <==> (&& EndCapture(true) !in acts
                               && EndToEnd.NoChanceRepeat(env.config, say, env.norm, t.pushed))))
            && (Distinct(env.norm, spoken) ==>
                  (right <==> EndCapture(true) !in acts && EndToEnd.ShortOverlaps(env.config, cuts, say)))
  {
    hide Session, Ideal, Runs, Assemble, ChunksOf, TranscriptsOf, Distinct;
    hide EndToEnd.ShortOverlaps, EndToEnd.NoChanceRepeat, EndToEnd.Spoken;
    StopDelivers(env, frames, acts, t);
    AssembledAsHeard(env, t.pushed, say);
    if EndToEnd.ShortOverlaps(env.config, Session(env.config, t.pushed), say) {
      EndToEnd.AssembledIff(env.config, say, env.norm, t.pushed);
    }
    if Distinct(env.norm, EndToEnd.Spoken(say, t.pushed)) {
      EndToEnd.NothingLostOrRepeated(env.config, say, env.norm, t.pushed);
    }
  }
}
