/** What every interleaving of a session keeps, and that stopping always ends. */
module PipelineLaws {
  import opened Domain
  import opened Segmentation
  import opened SegmentationRuns
  import opened Assembly
  import opened Pipeline
  import SegmentationLaws

  // ---------------------------------------------------------------- phases

  /** stop has flushed the policy. */
  predicate Flushed(s: SessionState) {
    !s.cancelling && !s.caller.Recording? && !s.caller.JoiningCapture?
  }

  predicate SentStop(s: SessionState) {
    s.caller.JoiningQueue? || s.caller.JoiningWorker? || s.caller.Building? || s.caller.Returned?
  }

  predicate TookStop(s: SessionState) {
    s.worker.AckingStop? || s.worker.Leaving? || s.worker.Exited?
  }

  /** The chunk the worker holds and has not stored yet, counted. */
  function InHand(s: SessionState): nat {
    if s.worker.Transcribing? || s.worker.Storing? then 1 else 0
  }

  function Busy(s: SessionState): nat {
    if s.worker.Transcribing? || s.worker.Storing? || s.worker.Acking? || s.worker.AckingStop? then 1 else 0
  }

  function Pending(s: SessionState): seq<AudioChunk> {
    if s.capture.Putting? then s.capture.pending
    else if s.caller.FinalPutting? then s.caller.last
    else []
  }

  // ---------------------------------------------------------------- invariant

  /** Every chunk the policy has emitted so far. */
  ghost function Chunks(env: Env, s: SessionState): seq<AudioChunk> {
    ChunksOf(env.sessionId,
             if Flushed(s) then Session(env.config, s.pushed) else Emitted(env.config, s.pushed))
  }

  function Jobs(chunks: seq<AudioChunk>): (jobs: seq<Job>)
    ensures |jobs| == |chunks|
    ensures forall k :: 0 <= k < |chunks| ==> jobs[k] == Work(chunks[k])
  {
    seq(|chunks|, k requires 0 <= k < |chunks| => Work(chunks[k]))
  }

  function Marks(s: SessionState): seq<Job> {
    if SentStop(s) && !TookStop(s) then [StopMark] else []
  }

  /** The emitted chunks are, in order, those the worker took, those in the queue and
      the one still to be put; the sentinel follows all of them. */
  predicate Flow(s: SessionState, all: seq<AudioChunk>) {
    && |s.taken| + |Pending(s)| <= |all|
    && s.taken == all[..|s.taken|]
    && Pending(s) == all[|all| - |Pending(s)|..]
    && s.queue == Jobs(all[|s.taken|..|all| - |Pending(s)|]) + Marks(s)
  }

  /** Transcript k is what the transcriber made of chunk k, for every chunk finished. */
  predicate Stored(env: Env, s: SessionState, all: seq<AudioChunk>) {
    && InHand(s) <= |s.taken| <= |all|
    && s.transcripts == (map k | 0 <= k < |s.taken| - InHand(s) :: TranscriptOf(env, all[k]))
    && (s.worker.Transcribing? ==> s.worker.chunk == all[|s.taken| - 1])
    && (s.worker.Storing? ==> s.worker.transcript == TranscriptOf(env, all[|s.taken| - 1]))
  }

  predicate Phases(s: SessionState, all: seq<AudioChunk>) {
    && (!s.caller.Recording? && !s.caller.JoiningCapture? ==> s.capture.Ended?)
    && (TookStop(s) ==> SentStop(s) && |s.taken| == |all|)
    && (s.caller.JoiningWorker? ==> s.worker.Leaving? || s.worker.Exited?)
    && (s.caller.Building? || s.caller.Returned? ==> s.worker.Exited?)
    && (s.cancelling ==> !s.caller.Recording? && !s.caller.FinalPutting? && !s.caller.Building?)
    && |Pending(s)| <= 1
    && (s.active <==> !s.caller.Returned?)
  }

  predicate Counted(env: Env, s: SessionState) {
    s.unfinished == |s.queue| + Busy(s) && (env.bound > 0 ==> |s.queue| <= env.bound)
  }

  function TranscriptsOf(env: Env, all: seq<AudioChunk>): (ts: seq<TranscriptChunk>)
    ensures |ts| == |all|
    ensures forall k :: 0 <= k < |all| ==> ts[k] == TranscriptOf(env, all[k])
  {
    seq(|all|, k requires 0 <= k < |all| => TranscriptOf(env, all[k]))
  }

  /** What stop comes to once chunks all are transcribed. */
  function ResultOf(env: Env, all: seq<AudioChunk>, captureError: bool): Outcome {
    if captureError then CaptureFailed else Words(Assemble(env.norm, TranscriptsOf(env, all)))
  }

  predicate Delivered(env: Env, s: SessionState, all: seq<AudioChunk>) {
    s.caller.Returned? && !s.cancelling ==> s.result == Some(ResultOf(env, all, s.captureError))
  }

  predicate Keeps(env: Env, s: SessionState, all: seq<AudioChunk>) {
    Flow(s, all) && Stored(env, s, all) && Phases(s, all) && Counted(env, s) && Delivered(env, s, all)
  }

  ghost predicate Invariant(env: Env, s: SessionState) {
    Keeps(env, s, Chunks(env, s))
  }

  // ---------------------------------------------------------------- numbering

  lemma ChunksAreNumbered(env: Env, s: SessionState, k: nat)
    requires k < |Chunks(env, s)|
    ensures Chunks(env, s)[k].sequence == k
  {
    hide Session, Emitted, SessionSpans;
    if Flushed(s) {
      SegmentationLaws.SessionLayout(env.config, s.pushed);
      assert Slice(s.pushed, Session(env.config, s.pushed)[k], SessionSpans(env.config, s.pushed)[k], k);
    } else {
      RunLaid(env.config, s.pushed);
      assert Slice(s.pushed, Emitted(env.config, s.pushed)[k], Spans(env.config, s.pushed)[k], k);
    }
  }

  predicate Numbered(all: seq<AudioChunk>) {
    forall k :: 0 <= k < |all| ==> all[k].sequence == k
  }

  lemma AllNumbered(env: Env, s: SessionState)
    ensures Numbered(Chunks(env, s))
  {
    hide Chunks;
    forall k | 0 <= k < |Chunks(env, s)| ensures Chunks(env, s)[k].sequence == k {
      ChunksAreNumbered(env, s, k);
    }
  }

  // ---------------------------------------------------------------- steps

  /** What a step of the capture thread leaves alone. */
  predicate CaptureLeaves(s: SessionState, t: SessionState) {
    && t.worker == s.worker && t.taken == s.taken && t.transcripts == s.transcripts
    && t.caller == s.caller && t.cancelling == s.cancelling && t.result == s.result && t.active == s.active
  }

  predicate WorkerLeaves(s: SessionState, t: SessionState) {
    && t.frames == s.frames && t.pushed == s.pushed && t.capture == s.capture && t.captureError == s.captureError
    && t.sourceStopped == s.sourceStopped && t.caller == s.caller
    && t.cancelling == s.cancelling && t.result == s.result && t.active == s.active
  }

  predicate CallerLeaves(s: SessionState, t: SessionState) {
    && t.frames == s.frames && t.pushed == s.pushed && t.capture == s.capture && t.captureError == s.captureError
    && t.worker == s.worker && t.taken == s.taken && t.transcripts == s.transcripts
  }

  lemma CaptureTouches(env: Env, s: SessionState, a: Action)
    requires Enabled(env, s, a) && OfCapture(a)
    ensures CaptureLeaves(s, Apply(env, s, a))
  {
    hide LastPush, ChunksOf, ApplyWorker, ApplyCaller;
  }

  lemma WorkerTouches(env: Env, s: SessionState, a: Action)
    requires Enabled(env, s, a) && OfWorker(a)
    ensures WorkerLeaves(s, Apply(env, s, a))
  {
    hide TranscriptOf, ApplyCapture, ApplyCaller;
  }

  lemma CallerTouches(env: Env, s: SessionState, a: Action)
    requires Enabled(env, s, a) && !OfCapture(a) && !OfWorker(a)
    ensures CallerLeaves(s, Apply(env, s, a))
  {
    hide Last, ChunksOf, SortedValues, Assemble, ApplyCapture, ApplyWorker;
  }

  /** What a step does to the queue and the task count. */
  predicate QueueStep(env: Env, s: SessionState, t: SessionState) {
    || (t.queue == s.queue && t.unfinished == s.unfinished)
    || (HasRoom(env, s) && |t.queue| == |s.queue| + 1 && t.unfinished == s.unfinished + 1)
  }

  lemma CaptureQueue(env: Env, s: SessionState, a: Action)
    requires Enabled(env, s, a) && OfCapture(a)
    ensures QueueStep(env, s, Apply(env, s, a))
  {
    hide LastPush, ChunksOf, ApplyWorker, ApplyCaller;
  }

  lemma CallerQueue(env: Env, s: SessionState, a: Action)
    requires Enabled(env, s, a) && !OfCapture(a) && !OfWorker(a)
    ensures QueueStep(env, s, Apply(env, s, a))
  {
    hide Last, ChunksOf, SortedValues, Assemble, ApplyCapture, ApplyWorker;
  }

  lemma WorkerCounted(env: Env, s: SessionState, a: Action)
    requires Enabled(env, s, a) && OfWorker(a) && Counted(env, s)
    ensures Counted(env, Apply(env, s, a))
  {
    hide TranscriptOf, ApplyCapture, ApplyCaller;
  }

  lemma CountedStep(env: Env, s: SessionState, a: Action)
    requires Enabled(env, s, a) && Counted(env, s)
    ensures Counted(env, Apply(env, s, a))
  {
    hide Apply, Enabled;
    if OfCapture(a) {
      CaptureTouches(env, s, a);
      CaptureQueue(env, s, a);
    } else if OfWorker(a) {
      WorkerCounted(env, s, a);
    } else {
      CallerTouches(env, s, a);
      CallerQueue(env, s, a);
    }
  }

  predicate Emits(a: Action) {
    a.Fetch? || a.JoinCapture?
  }

  /** Storing a transcript extends the map by the next key. */
  lemma StoreStep(env: Env, s: SessionState, all: seq<AudioChunk>)
    requires Enabled(env, s, WorkerStore) && Stored(env, s, all) && Numbered(all)
    ensures Stored(env, Apply(env, s, WorkerStore), all)
  {
    hide TranscriptOf, ApplyCapture, ApplyCaller;
    var n, t := |s.taken|, Apply(env, s, WorkerStore);
    assert t.worker == Acking && t.taken == s.taken;
    assert s.worker.transcript == TranscriptOf(env, all[n - 1]);
    SequenceKept(env, all[n - 1]);
    assert t.transcripts == s.transcripts[n - 1 := TranscriptOf(env, all[n - 1])];
    hide Apply, Enabled, Numbered;
    assert t.transcripts == (map k | 0 <= k < n :: TranscriptOf(env, all[k]));
  }

  lemma SequenceKept(env: Env, chunk: AudioChunk)
    ensures TranscriptOf(env, chunk).sequence == chunk.sequence
  {
  }

  /** The other steps of the worker move only its hands. */
  lemma WorkerStored(env: Env, s: SessionState, all: seq<AudioChunk>, a: Action)
    requires Enabled(env, s, a) && OfWorker(a) && Stored(env, s, all) && !a.WorkerGet? && !a.WorkerStore?
    ensures Stored(env, Apply(env, s, a), all)
  {
    hide TranscriptOf, ApplyCapture, ApplyCaller;
  }

  lemma StoredStep(env: Env, s: SessionState, all: seq<AudioChunk>, a: Action)
    requires Enabled(env, s, a) && Stored(env, s, all) && Numbered(all) && !a.WorkerGet?
    ensures Stored(env, Apply(env, s, a), all)
  {
    hide Apply, Enabled, TranscriptOf, Numbered;
    if OfCapture(a) {
      CaptureTouches(env, s, a);
    } else if !OfWorker(a) {
      CallerTouches(env, s, a);
    } else if a.WorkerStore? {
      StoreStep(env, s, all);
    } else {
      WorkerStored(env, s, all, a);
    }
  }

  lemma PhasesStep(env: Env, s: SessionState, all: seq<AudioChunk>, a: Action)
    requires Enabled(env, s, a) && Phases(s, all) && !a.WorkerGet? && !Emits(a)
    requires a.JoinQueue? ==> s.worker.Leaving? || s.worker.Exited?
    ensures Phases(Apply(env, s, a), all)
  {
    hide ChunksOf, Session, Last, LastPush, TranscriptOf, SortedValues, Assemble;
  }

  predicate Puts(a: Action) {
    a.CapturePut? || a.FinalPut? || a.PutStop?
  }

  /** A step that moves no chunk and no sentinel. */
  lemma FlowUnmoved(s: SessionState, t: SessionState, all: seq<AudioChunk>)
    requires Flow(s, all)
    requires Unmoved(s, t)
    ensures Flow(t, all)
  {
    hide Pending, Marks, Jobs;
  }

  lemma FlowStep(env: Env, s: SessionState, all: seq<AudioChunk>, a: Action)
    requires Enabled(env, s, a) && Flow(s, all) && Phases(s, all) && !a.WorkerGet? && !Emits(a) && !Puts(a)
    ensures Flow(Apply(env, s, a), all)
  {
    StepUnmoved(env, s, all, a);
    hide Flow, Phases, Apply;
    FlowUnmoved(s, Apply(env, s, a), all);
  }

  /** Nothing enters or leaves the queue or the hands that fill it. */
  predicate Unmoved(s: SessionState, t: SessionState) {
    t.taken == s.taken && t.queue == s.queue && Pending(t) == Pending(s) && Marks(t) == Marks(s)
  }

  lemma CaptureUnmoved(env: Env, s: SessionState, all: seq<AudioChunk>, a: Action)
    requires Enabled(env, s, a) && OfCapture(a) && Phases(s, all) && !Emits(a) && !Puts(a)
    ensures Unmoved(s, Apply(env, s, a))
  {
    hide ApplyWorker, ApplyCaller;
  }

  lemma WorkerUnmoved(env: Env, s: SessionState, a: Action)
    requires Enabled(env, s, a) && OfWorker(a) && !a.WorkerGet?
    ensures Unmoved(s, Apply(env, s, a))
  {
    hide TranscriptOf, ApplyCapture, ApplyCaller;
  }

  lemma CallerUnmoved(env: Env, s: SessionState, all: seq<AudioChunk>, a: Action)
    requires Enabled(env, s, a) && !OfCapture(a) && !OfWorker(a) && Phases(s, all) && !Emits(a) && !Puts(a)
    ensures Unmoved(s, Apply(env, s, a))
  {
    hide SortedValues, Assemble, ApplyCapture, ApplyWorker;
  }

  lemma StepUnmoved(env: Env, s: SessionState, all: seq<AudioChunk>, a: Action)
    requires Enabled(env, s, a) && Phases(s, all) && !a.WorkerGet? && !Emits(a) && !Puts(a)
    ensures Unmoved(s, Apply(env, s, a))
  {
    hide Apply, Enabled, Phases, Unmoved;
    if OfCapture(a) {
      CaptureUnmoved(env, s, all, a);
    } else if OfWorker(a) {
      WorkerUnmoved(env, s, a);
    } else {
      CallerUnmoved(env, s, all, a);
    }
  }

  lemma JobsAppend(chunks: seq<AudioChunk>, x: AudioChunk)
    ensures Jobs(chunks + [x]) == Jobs(chunks) + [Work(x)]
  {
  }

  /** The first pending chunk moves to the end of the queue. */
  lemma FlowMoved(s: SessionState, t: SessionState, all: seq<AudioChunk>)
    requires Flow(s, all) && Pending(s) != [] && Marks(s) == [] && Marks(t) == [] && t.taken == s.taken
    requires t.queue == s.queue + [Work(Pending(s)[0])] && Pending(t) == Pending(s)[1..]
    ensures Flow(t, all)
  {
    hide Pending, Marks, Jobs;
    var n, m := |s.taken|, |all| - |Pending(s)|;
    JobsAppend(all[n..m], all[m]);
    assert all[n..m] + [all[m]] == all[n..m + 1];
  }

  lemma PutChunkFlow(env: Env, s: SessionState, all: seq<AudioChunk>, a: Action)
    requires Enabled(env, s, a) && Flow(s, all) && Phases(s, all) && Pending(s) != []
    requires a.CapturePut? || a.FinalPut?
    ensures Flow(Apply(env, s, a), all)
  {
    hide Flow, LastPush, Last, ChunksOf, SortedValues, Assemble, ApplyWorker;
    var t := Apply(env, s, a);
    if a.CapturePut? {
      hide ApplyCaller;
      FlowMoved(s, t, all);
    } else {
      hide ApplyCapture;
      FlowMoved(s, t, all);
    }
  }

  lemma PutStopFlow(env: Env, s: SessionState, all: seq<AudioChunk>, a: Action)
    requires Enabled(env, s, a) && Flow(s, all) && Phases(s, all) && Pending(s) == []
    requires a.PutStop? || a.FinalPut?
    ensures Flow(Apply(env, s, a), all)
  {
    hide ChunksOf, Session, Last, LastPush, TranscriptOf, SortedValues, Assemble, Jobs;
  }

  lemma JobsFirst(chunks: seq<AudioChunk>)
    requires chunks != []
    ensures Jobs(chunks) == [Work(chunks[0])] + Jobs(chunks[1..])
  {
  }

  /** The worker takes the oldest chunk, or the sentinel once no chunk is left. */
  lemma GetStep(env: Env, s: SessionState, all: seq<AudioChunk>)
    requires Enabled(env, s, WorkerGet) && Flow(s, all)
    ensures var n := |s.taken|;
            if s.queue[0].StopMark? then s.queue == [StopMark] && n == |all| - |Pending(s)| && SentStop(s)
            else
              && n < |all| - |Pending(s)| && s.queue[0] == Work(all[n])
              && s.queue[1..] == Jobs(all[n + 1..|all| - |Pending(s)|]) + Marks(s)
  {
    hide Jobs, Pending;
    var n, m := |s.taken|, |all| - |Pending(s)|;
    if n < m {
      JobsFirst(all[n..m]);
      assert all[n..m][1..] == all[n + 1..m];
      hide Marks;
    } else {
      assert s.queue == Marks(s);
    }
  }

  /** The queue gives up its first job to the worker. */
  lemma FlowTaken(s: SessionState, t: SessionState, all: seq<AudioChunk>)
    requires Flow(s, all) && Pending(t) == Pending(s) && Marks(t) == Marks(s)
    requires |s.taken| < |all| - |Pending(s)| && t.taken == s.taken + [all[|s.taken|]]
    requires t.queue == Jobs(all[|s.taken| + 1..|all| - |Pending(s)|]) + Marks(s)
    ensures Flow(t, all)
  {
    hide Jobs, Pending, Marks;
    assert all[..|s.taken| + 1] == all[..|s.taken|] + [all[|s.taken|]];
  }

  lemma FlowDrained(s: SessionState, t: SessionState, all: seq<AudioChunk>)
    requires Flow(s, all) && Pending(t) == Pending(s) && Marks(t) == [] && t.taken == s.taken && t.queue == []
    requires |s.taken| == |all| - |Pending(s)|
    ensures Flow(t, all)
  {
    hide Pending, Marks;
  }

  lemma GetFlow(env: Env, s: SessionState, all: seq<AudioChunk>)
    requires Enabled(env, s, WorkerGet) && Flow(s, all)
    ensures Flow(Apply(env, s, WorkerGet), all)
  {
    GetStep(env, s, all);
    WorkerTouches(env, s, WorkerGet);
    hide Flow, Jobs, ApplyCapture, ApplyCaller;
    if s.queue[0].StopMark? {
      FlowDrained(s, Apply(env, s, WorkerGet), all);
    } else {
      FlowTaken(s, Apply(env, s, WorkerGet), all);
    }
  }

  lemma GetPhases(env: Env, s: SessionState, all: seq<AudioChunk>)
    requires Enabled(env, s, WorkerGet) && Flow(s, all) && Phases(s, all)
    ensures Phases(Apply(env, s, WorkerGet), all)
  {
    GetStep(env, s, all);
    hide Jobs, Flow;
  }

  lemma StoredUnchanged(env: Env, s: SessionState, t: SessionState, all: seq<AudioChunk>)
    requires Stored(env, s, all) && InHand(s) == 0 && t.transcripts == s.transcripts
    requires (t.worker.AckingStop? && t.taken == s.taken)
          || (|s.taken| < |all| && t.worker == Transcribing(all[|s.taken|]) && t.taken == s.taken + [all[|s.taken|]])
    ensures Stored(env, t, all)
  {
    hide TranscriptOf;
  }

  lemma GetStored(env: Env, s: SessionState, all: seq<AudioChunk>)
    requires Enabled(env, s, WorkerGet) && Flow(s, all) && Stored(env, s, all)
    ensures Stored(env, Apply(env, s, WorkerGet), all)
  {
    GetStep(env, s, all);
    assert InHand(s) == 0;
    hide Flow, Stored, Pending;
    StoredUnchanged(env, s, Apply(env, s, WorkerGet), all);
  }

  // ---------------------------------------------------------------- new chunks

  lemma ChunksOfAppend(id: string, a: seq<Cut>, b: seq<Cut>)
    requires AllNonEmpty(a) && AllNonEmpty(b)
    ensures AllNonEmpty(a + b) && ChunksOf(id, a + b) == ChunksOf(id, a) + ChunksOf(id, b)
  {
    hide ChunkOf;
  }

  lemma FetchChunks(env: Env, s: SessionState)
    requires Enabled(env, s, Fetch) && !Flushed(s)
    ensures var t := Apply(env, s, Fetch);
            !Flushed(t) && Chunks(env, t) == Chunks(env, s) + Pending(t)
  {
    hide LastPush, ChunksOf, ApplyWorker, ApplyCaller;
    var pushed, t := s.pushed + [s.frames[0]], Apply(env, s, Fetch);
    assert pushed[..|pushed| - 1] == s.pushed;
    assert t.pushed == pushed && Pending(t) == ChunksOf(env.sessionId, LastPush(env.config, pushed).1);
    hide Apply, Enabled;
    ChunksOfAppend(env.sessionId, Emitted(env.config, s.pushed), LastPush(env.config, pushed).1);
  }

  lemma JoinChunks(env: Env, s: SessionState)
    requires Enabled(env, s, JoinCapture)
    ensures var t := Apply(env, s, JoinCapture);
            Chunks(env, t) == Chunks(env, s) + Pending(t)
  {
    hide Last, ChunksOf, ApplyCapture, ApplyWorker;
    ChunksOfAppend(env.sessionId, Emitted(env.config, s.pushed), Last(env.config, s.pushed));
  }

  /** A step that emits nothing leaves the frames pushed, and the policy flushed or not. */
  lemma QuietFlushed(env: Env, s: SessionState, a: Action)
    requires Enabled(env, s, a) && !Emits(a) && (s.cancelling ==> !s.caller.Recording?)
    ensures var t := Apply(env, s, a);
            t.pushed == s.pushed && Flushed(t) == Flushed(s)
  {
    if OfCapture(a) {
      CaptureTouches(env, s, a);
      QuietCapture(env, s, a);
      hide Apply;
    } else if OfWorker(a) {
      WorkerTouches(env, s, a);
      hide Apply;
    } else {
      QuietCaller(env, s, a);
      CallerTouches(env, s, a);
      hide Apply;
    }
  }

  lemma QuietCapture(env: Env, s: SessionState, a: Action)
    requires Enabled(env, s, a) && OfCapture(a) && !Emits(a)
    ensures Apply(env, s, a).pushed == s.pushed
  {
    hide ApplyWorker, ApplyCaller;
  }

  lemma QuietCaller(env: Env, s: SessionState, a: Action)
    requires Enabled(env, s, a) && !OfCapture(a) && !OfWorker(a) && !Emits(a) && (s.cancelling ==> !s.caller.Recording?)
    ensures Flushed(Apply(env, s, a)) == Flushed(s)
  {
    hide SortedValues, Assemble, ApplyCapture, ApplyWorker;
  }

  /** The chunks a step adds to those emitted before. */
  lemma ChunksStep(env: Env, s: SessionState, a: Action)
    requires Enabled(env, s, a) && (!s.caller.Recording? && !s.caller.JoiningCapture? ==> s.capture.Ended?)
    requires s.cancelling ==> !s.caller.Recording?
    ensures Chunks(env, Apply(env, s, a)) == Chunks(env, s) + (if Emits(a) then Pending(Apply(env, s, a)) else [])
  {
    if a.Fetch? {
      FetchChunks(env, s);
    } else if a.JoinCapture? {
      JoinChunks(env, s);
    } else {
      QuietFlushed(env, s, a);
      hide Apply, Enabled, Flushed, Pending, Session, Emitted, ChunksOf;
      assert Chunks(env, s) + [] == Chunks(env, s);
    }
  }

  lemma FlowGrows(s: SessionState, t: SessionState, all: seq<AudioChunk>)
    requires Flow(s, all) && Pending(s) == [] && Marks(s) == [] && Marks(t) == []
    requires t.queue == s.queue && t.taken == s.taken
    ensures Flow(t, all + Pending(t))
  {
    hide Pending, Marks, Jobs;
    var p := Pending(t);
    assert (all + p)[|all + p| - |p|..] == p;
    assert all[|s.taken|..|all| - |Pending(s)|] == (all + p)[|s.taken|..|all + p| - |p|];
    assert (all + p)[..|s.taken|] == all[..|s.taken|];
  }

  lemma EmitFlow(env: Env, s: SessionState, all: seq<AudioChunk>, a: Action)
    requires Enabled(env, s, a) && Emits(a) && Flow(s, all) && Phases(s, all)
    ensures Flow(Apply(env, s, a), all + Pending(Apply(env, s, a)))
  {
    hide LastPush, ChunksOf, SortedValues, Assemble;
    var t := Apply(env, s, a);
    assert Pending(s) == [] && Marks(s) == [] && Marks(t) == [] && t.queue == s.queue && t.taken == s.taken;
    hide Apply, Flow;
    FlowGrows(s, t, all);
  }

  lemma EmitStored(env: Env, s: SessionState, all: seq<AudioChunk>, a: Action)
    requires Enabled(env, s, a) && Emits(a) && Stored(env, s, all)
    ensures Stored(env, Apply(env, s, a), all + Pending(Apply(env, s, a)))
  {
    hide LastPush, ChunksOf, TranscriptOf, SortedValues, Assemble;
    var t := Apply(env, s, a);
    assert t.worker == s.worker && t.transcripts == s.transcripts && t.taken == s.taken;
    hide Apply, Pending;
    assert forall k :: 0 <= k < |all| ==> (all + Pending(t))[k] == all[k];
  }

  lemma FetchPhases(env: Env, s: SessionState, all: seq<AudioChunk>)
    requires Enabled(env, s, Fetch) && Phases(s, all)
    ensures var t := Apply(env, s, Fetch);
            Phases(t, all + Pending(t))
  {
    SegmentationLaws.AtMostOne(env.config, s.pushed + [s.frames[0]]);
    hide LastPush, Last, TranscriptOf, SortedValues, Assemble;
    var t := Apply(env, s, Fetch);
    assert t.worker == s.worker && t.caller == s.caller && t.cancelling == s.cancelling && t.taken == s.taken;
    assert |Pending(t)| <= 1;
    hide Apply, Pending;
  }

  lemma JoinPhases(env: Env, s: SessionState, all: seq<AudioChunk>)
    requires Enabled(env, s, JoinCapture) && Phases(s, all)
    ensures var t := Apply(env, s, JoinCapture);
            Phases(t, all + Pending(t))
  {
    SegmentationLaws.AtMostOne(env.config, s.pushed);
    hide LastPush, Last, TranscriptOf, SortedValues, Assemble;
    var t := Apply(env, s, JoinCapture);
    assert t.worker == s.worker && t.capture == s.capture && t.cancelling == s.cancelling && t.taken == s.taken;
    assert |Pending(t)| <= 1;
    hide Pending;
  }

  // ---------------------------------------------------------------- the result

  lemma {:induction false} SortedRange(ts: seq<TranscriptChunk>, lo: nat)
    requires lo <= |ts|
    ensures SortedValues(map k | lo <= k < |ts| :: ts[k]) == ts[lo..]
    decreases |ts| - lo
  {
    var m := map k | lo <= k < |ts| :: ts[k];
    if lo < |ts| {
      assert lo in m;
      assert MinKey(m) == lo;
      assert m - {lo} == map k | lo + 1 <= k < |ts| :: ts[k];
      SortedRange(ts, lo + 1);
      assert ts[lo..] == [ts[lo]] + ts[lo + 1..];
    }
  }

  lemma BuildDelivers(env: Env, s: SessionState, all: seq<AudioChunk>)
    requires Enabled(env, s, Build) && Stored(env, s, all) && Phases(s, all)
    ensures Delivered(env, Apply(env, s, Build), all)
  {
    hide Assemble, TranscriptOf;
    var ts := TranscriptsOf(env, all);
    assert s.transcripts == map k | 0 <= k < |ts| :: ts[k];
    SortedRange(ts, 0);
  }

  lemma DeliveredStep(env: Env, s: SessionState, all: seq<AudioChunk>, a: Action)
    requires Enabled(env, s, a) && Delivered(env, s, all) && Stored(env, s, all) && Phases(s, all) && !Emits(a)
    ensures Delivered(env, Apply(env, s, a), all)
  {
    hide TranscriptOf, SortedValues, Assemble, Stored, TranscriptsOf;
    if a.Build? { BuildDelivers(env, s, all); }
  }

  // ---------------------------------------------------------------- every step, every run

  /** The queue is drained only when the worker has taken the sentinel. */
  lemma DrainedMeansTaken(env: Env, s: SessionState, all: seq<AudioChunk>)
    requires Enabled(env, s, JoinQueue) && Flow(s, all) && Counted(env, s)
    ensures s.worker.Leaving? || s.worker.Exited?
  {
    hide Jobs, Pending;
    assert s.queue == [];
  }

  lemma QuietKeeps(env: Env, s: SessionState, all: seq<AudioChunk>, a: Action)
    requires Enabled(env, s, a) && Keeps(env, s, all) && Numbered(all) && !Emits(a)
    ensures Keeps(env, Apply(env, s, a), all)
  {
    if a.JoinQueue? { DrainedMeansTaken(env, s, all); }
    CountedStep(env, s, a);
    DeliveredStep(env, s, all, a);
    if a.WorkerGet? {
      GetFlow(env, s, all);
      GetStored(env, s, all);
      GetPhases(env, s, all);
    } else {
      StoredStep(env, s, all, a);
      PhasesStep(env, s, all, a);
      QuietFlow(env, s, all, a);
    }
  }

  lemma QuietFlow(env: Env, s: SessionState, all: seq<AudioChunk>, a: Action)
    requires Enabled(env, s, a) && Flow(s, all) && Phases(s, all) && !Emits(a) && !a.WorkerGet?
    ensures Flow(Apply(env, s, a), all)
  {
    hide Flow, Apply;
    if !Puts(a) {
      FlowStep(env, s, all, a);
    } else if Pending(s) == [] {
      PutStopFlow(env, s, all, a);
    } else {
      PutChunkFlow(env, s, all, a);
    }
  }

  lemma EmitKeeps(env: Env, s: SessionState, all: seq<AudioChunk>, a: Action)
    requires Enabled(env, s, a) && Keeps(env, s, all) && Emits(a)
    ensures Keeps(env, Apply(env, s, a), all + Pending(Apply(env, s, a)))
  {
    CountedStep(env, s, a);
    EmitFlow(env, s, all, a);
    EmitStored(env, s, all, a);
    if a.Fetch? { FetchPhases(env, s, all); } else { JoinPhases(env, s, all); }
    hide Flow, Stored, Counted, LastPush, ChunksOf, TranscriptOf, SortedValues, Assemble;
  }

  lemma StepKeeps(env: Env, s: SessionState, a: Action)
    requires Invariant(env, s) && Enabled(env, s, a)
    ensures Invariant(env, Apply(env, s, a))
  {
    var all := Chunks(env, s);
    AllNumbered(env, s);
    ChunksStep(env, s, a);
    hide Chunks, Apply;
    if Emits(a) {
      EmitKeeps(env, s, all, a);
    } else {
      QuietKeeps(env, s, all, a);
      assert all + [] == all;
    }
  }

  lemma {:induction false} RunKeeps(env: Env, s: SessionState, acts: seq<Action>, t: SessionState)
    requires Invariant(env, s) && Runs(env, s, acts, t)
    ensures Invariant(env, t)
    decreases |acts|
  {
    hide Invariant, Apply;
    if acts != [] {
      StepKeeps(env, s, acts[0]);
      RunKeeps(env, Apply(env, s, acts[0]), acts[1..], t);
    }
  }

  lemma StartKeeps(env: Env, frames: seq<Item>)
    ensures Invariant(env, Start(frames))
  {
    assert Chunks(env, Start(frames)) == [];
    hide Chunks;
  }
}
