/** PipelineSession, the class of speaktap/pipeline.py: the three threads' atomic steps
    on shared mutable fields, each proved to be the action of the same name, and a
    scheduler that may pick any enabled step. */
module PipelineThreads {
  import opened Domain
  import opened Segmentation
  import opened SegmentationRuns
  import opened ChunkPolicy
  import opened Assembly
  import opened Pipeline
  import PipelineLaws
  import PipelineRuns

  lemma AfterOneMore(c: Config, p: seq<Item>, x: Item)
    ensures After(c, p + [x]) == Segmentation.Push(c, After(c, p), x).0
    ensures LastPush(c, p + [x]) == Segmentation.Push(c, After(c, p), x)
  {
    hide Segmentation.Push;
    assert (p + [x])[..|p + [x]| - 1] == p;
  }

  lemma NothingPushed(c: Config)
    ensures After(c, []) == FRESH
  {
  }

  lemma FetchIs(env: Env, s: SessionState)
    requires Enabled(env, s, Fetch)
    ensures s.capture.Fetching? && s.frames != []
    ensures var pushed := s.pushed + [s.frames[0]];
            Apply(env, s, Fetch) ==
              s.(frames := s.frames[1..], pushed := pushed,
                 capture := Putting(ChunksOf(env.sessionId, LastPush(env.config, pushed).1), s.frames[0].frame))
  {
    hide LastPush, ChunksOf, ApplyWorker, ApplyCaller;
  }

  class PipelineSession {
    const env: Env
    const policy: AdaptiveChunkPolicy

    var frames: seq<Item>
    var sourceStopped: bool
    var captureError: bool
    var capture: Capture
    var worker: Worker
    var caller: Caller
    var cancelling: bool
    var queue: seq<Job>
    var unfinished: int
    var transcripts: map<int, TranscriptChunk>
    var result: Option<Outcome>
    var active: bool
    var pushed: seq<Item>         // history: frames the policy has taken in
    var taken: seq<AudioChunk>    // history: chunks the worker has taken

    function View(): SessionState
      reads this
    {
      SessionState(frames, pushed, sourceStopped, captureError, capture, worker, caller, cancelling,
                   queue, unfinished, transcripts, taken, result, active)
    }

    /** While a session is active, until stop flushes it, the policy has taken in exactly
        the frames pushed. */
    ghost predicate Valid()
      reads this, policy
    {
      && env.config == policy.config && (active <==> !caller.Returned?)
      && (active ==> env.sessionId == policy.sessionId)
      && (caller.Recording? || caller.JoiningCapture? ==> policy.Fields() == After(policy.config, pushed))
      && (capture.Fetching? ==> caller.Recording? || caller.JoiningCapture?)
    }

    constructor (p: AdaptiveChunkPolicy, sessionId: string, queueBound: nat, limitMs: int,
                 backend: AudioChunk -> AsrOutcome, clock: AudioChunk -> Timing, normalize: string -> string)
      ensures Valid() && !active && policy == p
      ensures env == Env(p.config, sessionId, queueBound, limitMs, backend, clock, normalize)
    {
      policy := p;
      env := Env(p.config, sessionId, queueBound, limitMs, backend, clock, normalize);
      frames, pushed, sourceStopped, captureError := [], [], false, false;
      capture, worker, caller, cancelling := Ended, Exited, Returned, false;
      queue, unfinished, transcripts, taken, result, active := [], 0, map[], [], None, false;
    }

    /** start(): an empty queue, a reset policy, and both threads running. Refused while a
        session is active; when the source raises, no session is. */
    method StartSession(source: seq<Item>, sourceRaises: bool) returns (ok: bool)
      requires Valid()
      modifies this, policy
      ensures Valid() && (ok <==> !old(active) && !sourceRaises)
      ensures ok ==> View() == Start(source)
      ensures old(active) ==> View() == old(View()) && unchanged(policy)
      ensures !old(active) && sourceRaises ==> !active && transcripts == map[] && !captureError && queue == []
    {
      if active {
        return false;
      }
      ClearSession();
      if sourceRaises {
        return false;
      }
      BeginSession(source);
      return true;
    }

    method ClearSession()
      requires Valid() && !active
      modifies this`captureError, this`transcripts, this`queue, this`unfinished, policy
      ensures Valid() && !active
      ensures !captureError && transcripts == map[] && queue == [] && unfinished == 0
      ensures policy.sessionId == env.sessionId && policy.Fields() == FRESH
    {
      hide After;
      captureError, transcripts, queue, unfinished := false, map[], [], 0;
      policy.Reset(env.sessionId);
    }

    method BeginSession(source: seq<Item>)
      requires Valid() && !captureError && transcripts == map[] && queue == [] && unfinished == 0
      requires policy.sessionId == env.sessionId && policy.Fields() == FRESH
      modifies this
      ensures Valid() && View() == Start(source)
    {
      NothingPushed(policy.config);
      hide After;
      frames, pushed, sourceStopped := source, [], false;
      capture, worker, caller, cancelling := Fetching, Waiting, Recording, false;
      taken, result, active := [], None, true;
    }

    // ---- capture thread

    /** The policy takes in one more frame. */
    method PushItem(item: Item) returns (chunks: seq<AudioChunk>)
      requires policy.Fields() == After(policy.config, pushed)
      modifies policy
      ensures policy.Fields() == After(policy.config, pushed + [item]) && policy.sessionId == old(policy.sessionId)
      ensures chunks == ChunksOf(policy.sessionId, LastPush(policy.config, pushed + [item]).1)
    {
      AfterOneMore(policy.config, pushed, item);
      hide After, LastPush, Segmentation.Push, ChunksOf;
      chunks := policy.Push(item.frame, item.isSpeech);
    }

    method TakeFrame(chunks: seq<AudioChunk>)
      requires frames != []
      modifies this`frames, this`pushed, this`capture
      ensures View() == old(View()).(frames := old(frames)[1..], pushed := old(pushed) + [old(frames)[0]],
                                     capture := Putting(chunks, old(frames)[0].frame))
    {
      pushed := pushed + [frames[0]];
      capture := Putting(chunks, frames[0].frame);
      frames := frames[1..];
    }

    method FetchFrame()
      requires Valid() && Enabled(env, View(), Fetch)
      modifies this, policy
      ensures Valid() && View() == Apply(env, old(View()), Fetch)
    {
      FetchIs(env, View());
      hide After, LastPush, ChunksOf, Apply;
      var chunks := PushItem(frames[0]);
      TakeFrame(chunks);
    }

    method EndOfCapture(failed: bool)
      requires Valid() && Enabled(env, View(), EndCapture(failed))
      modifies this
      ensures Valid() && View() == Apply(env, old(View()), EndCapture(failed))
    {
      hide ApplyWorker, ApplyCaller, After;
      capture := Ended;
      captureError := captureError || failed;
    }

    method PutChunk()
      requires Valid() && Enabled(env, View(), CapturePut)
      modifies this
      ensures Valid() && View() == Apply(env, old(View()), CapturePut)
    {
      hide ApplyWorker, ApplyCaller, After;
      Enqueue(Work(capture.pending[0]));
      capture := Putting(capture.pending[1..], capture.frame);
    }

    method CheckLimit()
      requires Valid() && Enabled(env, View(), CaptureCheck)
      requires caller.Recording? || caller.JoiningCapture?
      modifies this
      ensures Valid() && View() == Apply(env, old(View()), CaptureCheck)
    {
      hide ApplyWorker, ApplyCaller, After;
      if capture.frame.EndMs() >= env.maxRecordingMs {
        sourceStopped := true;
        capture := Ended;
      } else {
        capture := Fetching;
      }
    }

    method Enqueue(job: Job)
      modifies this`queue, this`unfinished
      ensures queue == old(queue) + [job] && unfinished == old(unfinished) + 1
    {
      queue := queue + [job];
      unfinished := unfinished + 1;
    }

    // ---- transcription worker

    method GetJob()
      requires Valid() && Enabled(env, View(), WorkerGet)
      modifies this
      ensures Valid() && View() == Apply(env, old(View()), WorkerGet)
    {
      hide ApplyCapture, ApplyCaller, After;
      var job := queue[0];
      queue := queue[1..];
      if job.StopMark? {
        worker := AckingStop;
      } else {
        worker := Transcribing(job.chunk);
        taken := taken + [job.chunk];
      }
    }

    method Transcribe()
      requires Valid() && Enabled(env, View(), WorkerTranscribe)
      modifies this
      ensures Valid() && View() == Apply(env, old(View()), WorkerTranscribe)
    {
      hide ApplyCapture, ApplyCaller, After;
      var chunk := worker.chunk;
      var outcome := env.asr(chunk);
      var measured := env.timing(chunk);
      var words, error := [], None;
      if outcome.Text? {
        words := outcome.words;
      } else {
        error := Some(outcome.message);
      }
      worker := Storing(TranscriptChunk(chunk.sessionId, chunk.sequence, chunk.startMs, chunk.endMs, chunk.reason,
                                        words, measured.asrMs, chunk.speechMs, chunk.overlapMs,
                                        measured.waitMs, error));
    }

    method StoreTranscript()
      requires Valid() && Enabled(env, View(), WorkerStore)
      modifies this
      ensures Valid() && View() == Apply(env, old(View()), WorkerStore)
    {
      hide ApplyCapture, ApplyCaller, After;
      transcripts := transcripts[worker.transcript.sequence := worker.transcript];
      worker := Acking;
    }

    method TaskDone()
      requires Valid() && Enabled(env, View(), WorkerAck)
      modifies this
      ensures Valid() && View() == Apply(env, old(View()), WorkerAck)
    {
      hide ApplyCapture, ApplyCaller, After;
      unfinished := unfinished - 1;
      worker := if worker.AckingStop? then Leaving else Waiting;
    }

    // ---- caller of stop or cancel

    method StopSource()
      requires Valid() && Enabled(env, View(), CallStop)
      modifies this
      ensures Valid() && View() == Apply(env, old(View()), CallStop)
    {
      hide ApplyCapture, ApplyWorker, After;
      sourceStopped := true;
      caller := JoiningCapture;
    }

    method CancelSource()
      requires Valid() && Enabled(env, View(), CallCancel)
      modifies this
      ensures Valid() && View() == Apply(env, old(View()), CallCancel)
    {
      hide ApplyCapture, ApplyWorker, After;
      sourceStopped := true;
      caller := JoiningCapture;
      cancelling := true;
    }

    method JoinCaptureThread()
      requires Valid() && Enabled(env, View(), JoinCapture)
      modifies this, policy
      ensures Valid() && View() == Apply(env, old(View()), JoinCapture)
    {
      if cancelling {
        caller := PuttingStop;
      } else {
        var chunks := policy.Finish();
        caller := FinalPutting(chunks);
      }
    }

    method PutLast()
      requires Valid() && Enabled(env, View(), FinalPut)
      modifies this
      ensures Valid() && View() == Apply(env, old(View()), FinalPut)
    {
      hide ApplyCapture, ApplyWorker, After;
      if caller.last == [] {
        caller := PuttingStop;
      } else {
        Enqueue(Work(caller.last[0]));
        caller := FinalPutting(caller.last[1..]);
      }
    }

    method PutSentinel()
      requires Valid() && Enabled(env, View(), PutStop)
      modifies this
      ensures Valid() && View() == Apply(env, old(View()), PutStop)
    {
      hide ApplyCapture, ApplyWorker, After;
      Enqueue(StopMark);
      caller := JoiningQueue;
    }

    method BuildResult()
      requires Valid() && Enabled(env, View(), Build)
      modifies this
      ensures Valid() && View() == Apply(env, old(View()), Build)
    {
      hide ApplyCapture, ApplyWorker, After, Assemble, SortedValues;
      var ordered := SortedTranscripts();
      var words := AssembleTranscript(ordered, env.norm);
      active := false;
      result := Some(if captureError then CaptureFailed else Words(words));
      caller := Returned;
    }

    /** sorted(self._transcripts.items()), values only. */
    method SortedTranscripts() returns (ordered: seq<TranscriptChunk>)
      ensures ordered == SortedValues(transcripts)
    {
      ordered := [];
      var rest := transcripts;
      while rest != map[]
        invariant ordered + SortedValues(rest) == SortedValues(transcripts)
        decreases |rest|
      {
        ghost var least := MinKey(rest);
        var k :| k in rest && forall j :: j in rest ==> k <= j;
        assert k == least;
        assert (rest - {k}).Keys == rest.Keys - {k};
        ordered := ordered + [rest[k]];
        rest := rest - {k};
      }
    }

    // ---- any interleaving

    /** One step of the capture thread, whichever is possible. */
    method CaptureStep(failed: bool) returns (ghost a: Action)
      requires Valid() && PipelineLaws.Phases(View(), PipelineLaws.Chunks(env, View()))
      requires CaptureCanStep()
      modifies this, policy
      ensures Valid() && Enabled(env, old(View()), a) && View() == Apply(env, old(View()), a)
    {
      hide PipelineLaws.Chunks, Apply;
      if {
        case Enabled(env, View(), Fetch) => a := Fetch; FetchFrame();
        case Enabled(env, View(), EndCapture(failed)) => a := EndCapture(failed); EndOfCapture(failed);
        case Enabled(env, View(), CapturePut) => a := CapturePut; PutChunk();
        case Enabled(env, View(), CaptureCheck) => a := CaptureCheck; CheckLimit();
      }
    }

    predicate CaptureCanStep()
      reads this
    {
      capture.Fetching? || (capture.Putting? && (capture.pending == [] || HasRoom(env, View())))
    }

    method WorkerStep() returns (ghost a: Action)
      requires Valid() && WorkerCanStep()
      modifies this
      ensures Valid() && Enabled(env, old(View()), a) && View() == Apply(env, old(View()), a)
    {
      hide Apply;
      if {
        case Enabled(env, View(), WorkerGet) => a := WorkerGet; GetJob();
        case Enabled(env, View(), WorkerTranscribe) => a := WorkerTranscribe; Transcribe();
        case Enabled(env, View(), WorkerStore) => a := WorkerStore; StoreTranscript();
        case Enabled(env, View(), WorkerAck) => a := WorkerAck; TaskDone();
        case Enabled(env, View(), WorkerLeave) => a := WorkerLeave; LeaveThread();
      }
    }

    predicate WorkerCanStep()
      reads this
    {
      !worker.Exited? && (worker.Waiting? ==> queue != [])
    }

    /** Someone calls stop or cancel. */
    method BeginTeardown() returns (ghost a: Action)
      requires Valid() && caller.Recording?
      modifies this
      ensures Valid() && Enabled(env, old(View()), a) && View() == Apply(env, old(View()), a)
    {
      hide Apply;
      if {
        case true => a := CallStop; StopSource();
        case true => a := CallCancel; CancelSource();
      }
    }

    method CallerStep() returns (ghost a: Action)
      requires Valid() && CallerCanStep()
      modifies this, policy
      ensures Valid() && Enabled(env, old(View()), a) && View() == Apply(env, old(View()), a)
    {
      hide Apply;
      if caller.Recording? {
        a := BeginTeardown();
      } else if caller.JoiningCapture? || caller.FinalPutting? || caller.PuttingStop? {
        a := FlushStep();
      } else {
        a := FinishStep();
      }
    }

    /** What the caller does until the sentinel is in the queue. */
    method FlushStep() returns (ghost a: Action)
      requires Valid() && CallerCanStep() && (caller.JoiningCapture? || caller.FinalPutting? || caller.PuttingStop?)
      modifies this, policy
      ensures Valid() && Enabled(env, old(View()), a) && View() == Apply(env, old(View()), a)
    {
      hide Apply;
      if {
        case Enabled(env, View(), JoinCapture) => a := JoinCapture; JoinCaptureThread();
        case Enabled(env, View(), FinalPut) => a := FinalPut; PutLast();
        case Enabled(env, View(), PutStop) => a := PutStop; PutSentinel();
      }
    }

    /** And after that. */
    method FinishStep() returns (ghost a: Action)
      requires Valid() && CallerCanStep() && (caller.JoiningQueue? || caller.JoiningWorker? || caller.Building?)
      modifies this
      ensures Valid() && Enabled(env, old(View()), a) && View() == Apply(env, old(View()), a)
    {
      hide Apply;
      if {
        case Enabled(env, View(), JoinQueue) => a := JoinQueue; EndJoinQueue();
        case Enabled(env, View(), JoinWorker) => a := JoinWorker; EndJoinWorker();
        case Enabled(env, View(), Build) => a := Build; BuildResult();
      }
    }

    predicate CallerCanStep()
      reads this
    {
      match caller
      case Recording => true
      case JoiningCapture => capture.Ended?
      case FinalPutting(last) => last == [] || HasRoom(env, View())
      case PuttingStop => HasRoom(env, View())
      case JoiningQueue => unfinished == 0
      case JoiningWorker => worker.Exited?
      case Building => true
      case Returned => false
    }

    method LeaveThread()
      requires Valid() && Enabled(env, View(), WorkerLeave)
      modifies this
      ensures Valid() && View() == Apply(env, old(View()), WorkerLeave)
    {
      hide ApplyCapture, ApplyCaller, After;
      worker := Exited;
    }

    method EndJoinQueue()
      requires Valid() && Enabled(env, View(), JoinQueue)
      modifies this
      ensures Valid() && View() == Apply(env, old(View()), JoinQueue)
    {
      hide ApplyCapture, ApplyWorker, After;
      caller := JoiningWorker;
    }

    method EndJoinWorker()
      requires Valid() && Enabled(env, View(), JoinWorker)
      modifies this
      ensures Valid() && View() == Apply(env, old(View()), JoinWorker)
    {
      hide ApplyCapture, ApplyWorker, After;
      if cancelling {
        active := false;
        caller := Returned;
      } else {
        caller := Building;
      }
    }

    /** Some thread can always move until the session is over. */
    lemma SomeThreadMoves()
      requires PipelineLaws.Invariant(env, View()) && !caller.Returned?
      ensures CaptureCanStep() || WorkerCanStep() || CallerCanStep()
    {
      PipelineRuns.InvariantHasStep(env, View());
      hide PipelineLaws.Invariant;
    }

    /** Let the threads run in any order until stop or cancel is over. It always ends, and
        unless cancelled the session is complete, and stop returned the text if and only
        if no step was a failure of capture. */
    method Run(failures: seq<bool>) returns (ghost acts: seq<Action>)
      requires Valid() && View() == Start(frames)
      modifies this, policy
      ensures Valid() && caller.Returned? && !active
      ensures Runs(env, Start(old(frames)), acts, View())
      ensures pushed <= old(frames)
      ensures !cancelling ==> result.Some? && (result.value.Words? <==> EndCapture(true) !in acts)
      ensures !cancelling ==>
                PipelineRuns.Complete(env, View(), ChunksOf(env.sessionId, Session(env.config, pushed)))
    {
      acts := [];
      ghost var first := View();
      PipelineLaws.StartKeeps(env, frames);
      var turn := 0;
      while !caller.Returned?
        invariant Valid() && PipelineLaws.Invariant(env, View())
        invariant Runs(env, first, acts, View())
        decreases PipelineRuns.Measure(View())
      {
        SomeThreadMoves();
        hide PipelineLaws.Invariant, PipelineRuns.Measure, Apply, Runs;
        ghost var before := View();
        ghost var a;
        var failed := turn < |failures| && failures[turn];
        if {
          case CaptureCanStep() => InvariantPhases(); a := CaptureStep(failed);
          case WorkerCanStep() => a := WorkerStep();
          case CallerCanStep() => a := CallerStep();
        }
        PipelineLaws.StepKeeps(env, before, a);
        PipelineRuns.MeasureFalls(env, before, a);
        RunsOneMore(env, first, acts, before, a);
        acts := acts + [a];
        turn := turn + 1;
      }
      Finished(acts, first.frames);
    }

    lemma InvariantPhases()
      requires PipelineLaws.Invariant(env, View())
      ensures PipelineLaws.Phases(View(), PipelineLaws.Chunks(env, View()))
    {
    }

    lemma Finished(acts: seq<Action>, source: seq<Item>)
      requires Runs(env, Start(source), acts, View()) && caller.Returned?
      requires PipelineLaws.Invariant(env, View())
      ensures pushed <= source && !active
      ensures !cancelling ==> result.Some? && (result.value.Words? <==> EndCapture(true) !in acts)
      ensures !cancelling ==>
                PipelineRuns.Complete(env, View(), ChunksOf(env.sessionId, Session(env.config, pushed)))
    {
      hide Runs, PipelineRuns.Complete, PipelineLaws.Invariant;
      PipelineRuns.PushedIsPrefix(env, source, acts, View());
      PipelineRuns.ReturnedIsReset(env, View());
      if !cancelling {
        PipelineRuns.StopDelivers(env, source, acts, View());
        PipelineRuns.CompleteResult(env, View(), ChunksOf(env.sessionId, Session(env.config, pushed)));
      }
    }
  }

  lemma RunsOneMore(env: Env, s: SessionState, acts: seq<Action>, t: SessionState, a: Action)
    requires Runs(env, s, acts, t) && Enabled(env, t, a)
    ensures Runs(env, s, acts + [a], Apply(env, t, a))
  {
    hide Apply, Enabled;
    assert Runs(env, Apply(env, t, a), [], Apply(env, t, a));
    assert [a][1..] == [];
    PipelineRuns.RunsAppend(env, s, acts, t, [a], Apply(env, t, a));
  }
}
