/** One capture session as three actors over a bounded queue (speaktap/pipeline.py):
    the capture thread, the single transcription worker, and the caller of stop or
    cancel. Every action below is one atomic step of one actor; a run is any
    interleaving. */
module Pipeline {
  import opened Domain
  import opened Segmentation
  import opened SegmentationRuns
  import opened Assembly

  /** A transcriber returns words or raises an ordinary exception. Each chunk of a
      session has its own number and is transcribed once, so a function of the chunk
      stands for any behaviour. */
  datatype AsrOutcome = Text(words: seq<string>) | Failed(message: string)

  /** What a monotonic clock says about a chunk: its time in the queue and in the model. */
  datatype Timing = Timing(waitMs: nat, asrMs: nat)

  /** What is fixed for a session. */
  datatype Env = Env(config: Config, sessionId: string, bound: nat, maxRecordingMs: int,
                     asr: AudioChunk -> AsrOutcome, timing: AudioChunk -> Timing, norm: string -> string)

  datatype Job = Work(chunk: AudioChunk) | StopMark

  /** _capture_loop: waiting for a frame, putting the chunks a push returned, or done. */
  datatype Capture = Fetching | Putting(pending: seq<AudioChunk>, frame: AudioFrame) | Ended

  /** _asr_loop. Acking is the finally clause that calls task_done. */
  datatype Worker =
    | Waiting
    | Transcribing(chunk: AudioChunk)
    | Storing(transcript: TranscriptChunk)
    | Acking
    | AckingStop
    | Leaving
    | Exited

  /** The caller of stop() or cancel(): not called yet, then one phase per wait. */
  datatype Caller =
    | Recording
    | JoiningCapture
    | FinalPutting(last: seq<AudioChunk>)
    | PuttingStop
    | JoiningQueue
    | JoiningWorker
    | Building
    | Returned

  /** What stop() comes to: the text, or an error when capture failed. */
  datatype Outcome = Words(words: seq<string>) | CaptureFailed

  /** frames are still to come from the source; pushed have been through the policy, so
      the policy's fields are After(config, pushed); taken is the history of chunks the
      worker took from the queue, in the order it took them. active says that a source is
      set, so that the session is not reset yet. */
  datatype SessionState = SessionState(frames: seq<Item>, pushed: seq<Item>, sourceStopped: bool, captureError: bool,
                                       capture: Capture, worker: Worker, caller: Caller, cancelling: bool,
                                       queue: seq<Job>, unfinished: int,
                                       transcripts: map<int, TranscriptChunk>, taken: seq<AudioChunk>,
                                       result: Option<Outcome>, active: bool)

  datatype Action =
    | Fetch                      // the source yields a frame and the policy takes it
    | EndCapture(failed: bool)   // the source ends, or fetching or detecting raises
    | CapturePut                 // put one chunk, blocking while the queue is full
    | CaptureCheck               // after the frame: stop at the recording limit
    | WorkerGet                  // take the next job, blocking while the queue is empty
    | WorkerTranscribe
    | WorkerStore
    | WorkerAck                  // task_done
    | WorkerLeave                // the worker thread ends
    | CallStop
    | CallCancel
    | JoinCapture                // the capture thread has ended; stop also flushes the policy
    | FinalPut
    | PutStop
    | JoinQueue                  // all tasks are done
    | JoinWorker
    | Build                      // assemble, reset, then raise if capture failed

  function Start(frames: seq<Item>): SessionState {
    SessionState(frames, [], false, false, Fetching, Waiting, Recording, false, [], 0, map[], [], None, true)
  }

  function TranscriptOf(env: Env, chunk: AudioChunk): TranscriptChunk {
    var outcome := env.asr(chunk);
    TranscriptChunk(chunk.sessionId, chunk.sequence, chunk.startMs, chunk.endMs, chunk.reason,
                    if outcome.Text? then outcome.words else [],
                    env.timing(chunk).asrMs, chunk.speechMs, chunk.overlapMs, env.timing(chunk).waitMs,
                    if outcome.Text? then None else Some(outcome.message))
  }

  lemma MinExists(keys: set<int>)
    requires keys != {}
    ensures exists k :: k in keys && forall j :: j in keys ==> k <= j
  {
    assert (forall x: int :: x !in keys) ==> keys == {};
    var x :| x in keys;
    var rest := keys - {x};
    assert forall j :: j in keys ==> j == x || j in rest;
    if rest == {} {
      assert forall j :: j in keys ==> x <= j;
    } else {
      MinExists(rest);
      var k :| k in rest && forall j :: j in rest ==> k <= j;
      var least := if x <= k then x else k;
      assert least in keys && forall j :: j in keys ==> least <= j;
    }
  }

  ghost function MinKey(m: map<int, TranscriptChunk>): (k: int)
    requires m != map[]
    ensures k in m && forall j :: j in m ==> k <= j
  {
    assert m.Keys != {};
    MinExists(m.Keys);
    var k :| k in m.Keys && forall j :: j in m.Keys ==> k <= j;
    k
  }

  /** The values of sorted(transcripts.items()). */
  ghost function SortedValues(m: map<int, TranscriptChunk>): seq<TranscriptChunk>
    decreases |m|
  {
    if m == map[] then []
    else
      var k := MinKey(m);
      assert k in m.Keys && |(m - {k}).Keys| < |m.Keys| by { assert (m - {k}).Keys == m.Keys - {k}; }
      [m[k]] + SortedValues(m - {k})
  }

  /** A queue whose bound is 0 never fills. */
  predicate HasRoom(env: Env, s: SessionState) {
    env.bound == 0 || |s.queue| < env.bound
  }

  predicate Enabled(env: Env, s: SessionState, a: Action) {
    match a
    case Fetch => s.capture.Fetching? && s.frames != []
    case EndCapture(failed) => s.capture.Fetching? && (failed || s.frames == [] || s.sourceStopped)
    case CapturePut => s.capture.Putting? && s.capture.pending != [] && HasRoom(env, s)
    case CaptureCheck => s.capture.Putting? && s.capture.pending == []
    case WorkerGet => s.worker.Waiting? && s.queue != []
    case WorkerTranscribe => s.worker.Transcribing?
    case WorkerStore => s.worker.Storing?
    case WorkerAck => s.worker.Acking? || s.worker.AckingStop?
    case WorkerLeave => s.worker.Leaving?
    case CallStop => s.caller.Recording?
    case CallCancel => s.caller.Recording?
    case JoinCapture => s.caller.JoiningCapture? && s.capture.Ended?
    case FinalPut => s.caller.FinalPutting? && (s.caller.last != [] ==> HasRoom(env, s))
    case PutStop => s.caller.PuttingStop? && HasRoom(env, s)
    case JoinQueue => s.caller.JoiningQueue? && s.unfinished == 0
    case JoinWorker => s.caller.JoiningWorker? && s.worker.Exited?
    case Build => s.caller.Building?
  }

  function Put(s: SessionState, job: Job): SessionState {
    s.(queue := s.queue + [job], unfinished := s.unfinished + 1)
  }

  predicate OfCapture(a: Action) {
    a.Fetch? || a.EndCapture? || a.CapturePut? || a.CaptureCheck?
  }

  predicate OfWorker(a: Action) {
    a.WorkerGet? || a.WorkerTranscribe? || a.WorkerStore? || a.WorkerAck? || a.WorkerLeave?
  }

  ghost function ApplyCapture(env: Env, s: SessionState, a: Action): SessionState
    requires OfCapture(a) && Enabled(env, s, a)
  {
    match a
    case Fetch =>
      var pushed := s.pushed + [s.frames[0]];
      s.(frames := s.frames[1..], pushed := pushed,
         capture := Putting(ChunksOf(env.sessionId, LastPush(env.config, pushed).1), s.frames[0].frame))
    case EndCapture(failed) => s.(capture := Ended, captureError := s.captureError || failed)
    case CapturePut =>
      Put(s, Work(s.capture.pending[0])).(capture := Putting(s.capture.pending[1..], s.capture.frame))
    case CaptureCheck =>
      if s.capture.frame.EndMs() >= env.maxRecordingMs then s.(capture := Ended, sourceStopped := true)
      else s.(capture := Fetching)
  }

  function ApplyWorker(env: Env, s: SessionState, a: Action): SessionState
    requires OfWorker(a) && Enabled(env, s, a)
  {
    match a
    case WorkerGet =>
      var job := s.queue[0];
      s.(queue := s.queue[1..],
         worker := if job.StopMark? then AckingStop else Transcribing(job.chunk),
         taken := if job.StopMark? then s.taken else s.taken + [job.chunk])
    case WorkerTranscribe => s.(worker := Storing(TranscriptOf(env, s.worker.chunk)))
    case WorkerStore =>
      s.(worker := Acking, transcripts := s.transcripts[s.worker.transcript.sequence := s.worker.transcript])
    case WorkerAck =>
      s.(worker := if s.worker.AckingStop? then Leaving else Waiting, unfinished := s.unfinished - 1)
    case WorkerLeave => s.(worker := Exited)
  }

  ghost function ApplyCaller(env: Env, s: SessionState, a: Action): SessionState
    requires !OfCapture(a) && !OfWorker(a) && Enabled(env, s, a)
  {
    match a
    case CallStop => s.(caller := JoiningCapture, sourceStopped := true)
    case CallCancel => s.(caller := JoiningCapture, sourceStopped := true, cancelling := true)
    case JoinCapture =>
      if s.cancelling then s.(caller := PuttingStop)
      else s.(caller := FinalPutting(ChunksOf(env.sessionId, Last(env.config, s.pushed))))
    case FinalPut =>
      if s.caller.last == [] then s.(caller := PuttingStop)
      else Put(s, Work(s.caller.last[0])).(caller := FinalPutting(s.caller.last[1..]))
    case PutStop => Put(s, StopMark).(caller := JoiningQueue)
    case JoinQueue => s.(caller := JoiningWorker)
    case JoinWorker =>
      if s.cancelling then s.(caller := Returned, active := false) else s.(caller := Building)
    case Build =>
      var words := Assemble(env.norm, SortedValues(s.transcripts));
      s.(caller := Returned, active := false, result := Some(if s.captureError then CaptureFailed else Words(words)))
  }

  ghost function Apply(env: Env, s: SessionState, a: Action): SessionState
    requires Enabled(env, s, a)
  {
    if OfCapture(a) then ApplyCapture(env, s, a)
    else if OfWorker(a) then ApplyWorker(env, s, a)
    else ApplyCaller(env, s, a)
  }

  /** Doing acts one after the other leads from s to t. */
  ghost predicate Runs(env: Env, s: SessionState, acts: seq<Action>, t: SessionState)
    decreases |acts|
  {
    if acts == [] then s == t
    else Enabled(env, s, acts[0]) && Runs(env, Apply(env, s, acts[0]), acts[1..], t)
  }

  ghost predicate Reachable(env: Env, frames: seq<Item>, t: SessionState) {
    exists acts :: Runs(env, Start(frames), acts, t)
  }
}
