# SpeakTap: a verified model of the dictation pipeline

SpeakTap turns a microphone stream into text: capture cuts bytes into frames, a segmenter
cuts frames into chunks of speech, a bounded queue feeds one transcription worker, and the
transcripts are ordered, merged and cleaned. This project models those stages in Dafny and
proves what each promises, alone and joined together. `dafny verify dfyconfig.toml` checks
all of it.

| file | models |
|---|---|
| `Domain.dfy` | frames, chunks, transcripts and their validity checks |
| `Capture.dfy` | framing of a fragmenting pipe and of a file |
| `Segmentation.dfy`, `ChunkPolicy.dfy` | one call of the chunk policy, as functions on its fields and as the class |
| `SegmentationRuns.dfy`, `SegmentationLaws.dfy` | whole sessions: layout, time, validity |
| `SpeechLaws.dfy` | when every chunk contains speech, as an exact condition on the settings |
| `ChunkContents.dfy` | the audio, times, speech and overlap each chunk carries |
| `NewSpeech.dfy` | when chunks contain speech that was not emitted before, likewise |
| `Assembly.dfy`, `Overlaps.dfy` | merging transcripts; true repeats against what looks like one |
| `EndToEnd.dfy` | cutting and merging together |
| `Pipeline.dfy`, `PipelineLaws.dfy`, `PipelineRuns.dfy` | the three threads as interleaved atomic steps; invariant, delivery, termination |
| `Transcripts.dfy` | what becomes of chunks that fail to transcribe |
| `PipelineThreads.dfy` | the session class whose methods are those steps, and a scheduler that picks any enabled one |
| `WholeSystem.dfy` | from the bytes of a recording to its text |
| `EditDistance.dfy`, `TaggerLabels.dfy`, `TaggerThresholds.dfy` | scoring and tagger preparation |
| `TokenSelection.dfy`, `TokenSelectionLaws.dfy` | the validator of learned edits |
| `SafeCleanup.dfy` | deterministic cleanup |
| `Service.dfy` | the state machine and command handler |

## Modelling choices

- Times are whole milliseconds. At the required 16 kHz every configured frame lasts a whole
  number of them (`WholeSystem.CapturedFrames`); the halved silence is compared by doubling.
- The speech flag of a frame, word normalisation, word splitting, the regular expressions
  and the character tests are parameters, so each result holds for any of them. Texts are
  sequences of words or tokens. Claims about words are claims about their keys.
- The transcriber is a function of the chunk, and so are the times measured for it. Every
  chunk of a session has its own number and is transcribed once, so this covers a
  transcriber that answers differently each time.
- A run of the session is any interleaving of atomic steps: a put or get on the queue, a
  task_done, a store, a thread's end. The source may end, or capture may fail, before any
  frame.
- `stop` and `cancel` are one caller with one phase per wait; `wait()` is the case where stop is
  called after capture has ended. `stop` comes to the text or, when capture failed, to an error
  raised after the session was reset.
- `docs/architecture.md` says capture continues when transcription falls behind; the code
  blocks capture at the queue bound, and the model follows the code.

## What the proofs found

- Assembly recognises repeated words by their keys alone, after every cut.
  `docs/architecture.md` says that only chunks after a forced cut are matched. The effect is that
  a word said again after a pause can be lost: "send the", a pause, "the file"
  (`EndToEnd.WordLost`). When no chunk repeats more than 16 words, the text is right if and only
  if at no chunk more words than it repeats, up to 16, both end what was spoken before it and
  begin what is spoken in it (`EndToEnd.AssembledIff`; without forced cuts `EndToEnd.UnforcedIff`).
  With longer repeats the text may still come out right by chance (`Overlaps.RightByChance`), but it
  is right after every chunk only without them (`EndToEnd.AssembledThroughoutIff`).
- When all words are distinct, the text is right if and only if no chunk repeats more than 16
  words (`EndToEnd.NothingLostOrRepeated`); a longer overlap is emitted twice.
- A forced chunk may be silent with settings the configuration accepts.
  `SpeechLaws.EveryChunkHasSpeechIff` says exactly with which. The defaults are safe, and remain so
  with another overlap if and only if it is above 300 ms and at most 24960 ms
  (`SpeechLaws.DefaultOverlapIff`).
- After a forced cut a pause may come before anything new is said; the chunk then cut holds only
  speech emitted before, because only finish() checks for that. `NewSpeech.PausesHaveNewSpeechIff` says
  with which settings; the defaults are among them (`NewSpeech.DefaultsRepeatSpeech`).
- A configured overlap of 0 still repeats one frame (`SegmentationLaws.RetainedDuration`).
- stop returns the text if and only if capture never failed. When it raises for that reason the
  session is reset and the cancel() that the service then calls returns at once. If building the
  result raises, the session stays active and that cancel() waits for ever: it puts a second
  sentinel with no worker left (`PipelineRuns.BuildDecidesTermination`).
- With an unsupported adapter a start leaves the service recording without a pipeline, and a
  shutdown then reports idle (`Service.StartConsistentIff`, `Service.UnsupportedAdapterEffects`).
- Cleanup is not idempotent (`SafeCleanup.NotIdempotent`); `SafeCleanup.SecondPassIff` says for which
  texts a second pass changes nothing.

## Model

| member | source | states |
|---|---|---|
| Segmentation.AcceptSummarised | speaktap/segmentation/adaptive.py:55-70 | the cached speech flag and trailing silence still equal what the buffer says after a frame is taken in |
| ChunkPolicy.AdaptiveChunkPolicy.Reset | speaktap/segmentation/adaptive.py:39-47 | a reset policy has the fields of a fresh one |
| ChunkPolicy.AdaptiveChunkPolicy.Push | speaktap/segmentation/adaptive.py:49-91 | the in-place push leaves the fields and returns the chunks the specification gives for the old fields, and never looks for speech in a buffer without any |
| ChunkPolicy.AdaptiveChunkPolicy.Finish | speaktap/segmentation/adaptive.py:93-103 | the same for the end of the stream |
| ChunkPolicy.AdaptiveChunkPolicy.AppendPreRoll | speaktap/segmentation/adaptive.py:105-110 | the popping loop keeps the specified pre-roll |
| ChunkPolicy.AdaptiveChunkPolicy.Finalize | speaktap/segmentation/adaptive.py:112-144 | the chunk built is that of the selected frames, whose audio and fields are stated by ChunkHoldsFrames and ChunkCarries, and only the sequence number moves |
| ChunkPolicy.AdaptiveChunkPolicy.TrimTrailing | speaktap/segmentation/adaptive.py:146-159 | the padding loop yields the specified prefix, never empty |
| ChunkPolicy.AdaptiveChunkPolicy.CollectRetained | speaktap/segmentation/adaptive.py:161-169 | the reverse scan collects the specified suffix, in stream order, with its duration |
| ChunkPolicy.AdaptiveChunkPolicy.RetainForcedOverlap | speaktap/segmentation/adaptive.py:161-174 | after a forced cut all summaries describe the retained frames |
| ChunkPolicy.AdaptiveChunkPolicy.RecalculateTrailingSilence | speaktap/segmentation/adaptive.py:184-189 | the reverse loop computes the silence after the last speech frame |
| SegmentationRuns.RunConsistent | speaktap/segmentation/adaptive.py:49-103 | in every reachable state the buffer is the latest frames, all cached summaries equal their recomputation, and the overlap fields describe exactly the frames already emitted |
| SegmentationRuns.DecideEmits | speaktap/segmentation/adaptive.py:72-91 | a decision changes nothing or emits one chunk that drops only silence and leaves behind only frames it contains |
| SegmentationLaws.CutDecision | speaktap/segmentation/adaptive.py:72-91 | measured on the buffer itself, a chunk is forced exactly at the hard maximum and otherwise cut exactly at a pause: the configured silence, or from the target duration on half of it but at least a frame |
| SegmentationLaws.FinishDecision | speaktap/segmentation/adaptive.py:93-103 | finish emits a chunk exactly when the frames left hold speech not emitted before, and then all of them less the silence beyond the padding |
| SegmentationLaws.SilenceAtEnd | speaktap/segmentation/adaptive.py:83-101 | over any session a chunk that is not forced holds speech and after it no more frames than make up the padding |
| SegmentationLaws.PreRollIsKept | speaktap/segmentation/adaptive.py:55-60 | over any session, while no chunk is collected, the pre-roll is the longest run of the silence since the last one that fits the padding |
| SegmentationLaws.PreRollIsLongest | speaktap/segmentation/adaptive.py:105-110 | the pre-roll is the longest run of recent frames within the padding, and at least one frame |
| SegmentationLaws.TrimmedKeepsPadding | speaktap/segmentation/adaptive.py:146-159 | trimming keeps all speech and then the fewest silent frames that make up the padding |
| SegmentationLaws.RetainedIsShortest | speaktap/segmentation/adaptive.py:161-169 | the retained frames are the shortest non-empty suffix lasting the overlap |
| SegmentationLaws.RetainedDuration | speaktap/segmentation/adaptive.py:161-171 | retained audio lasts the overlap rounded up to frames; exactly the last frame when the overlap is 0 |
| SegmentationLaws.SessionLayout | speaktap/segmentation/adaptive.py:49-174 | over any session chunk k is a contiguous slice numbered k, every speech frame is in some chunk, and consecutive chunks share exactly the retained frames or none |
| SegmentationLaws.RunBelowMax | speaktap/segmentation/adaptive.py:72-76 | between calls the buffer is shorter than the hard maximum |
| SegmentationLaws.ChunkBounded | speaktap/segmentation/adaptive.py:72-76 | every chunk is shorter than the maximum plus one frame |
| SegmentationLaws.ForcedIsLong | speaktap/segmentation/adaptive.py:72-76 | a forced chunk lasts at least the maximum |
| SegmentationLaws.ChunkSpacing | speaktap/segmentation/adaptive.py:105-182 | after a forced cut the next chunk starts the retained duration before the previous end; otherwise at or after it, repeating nothing |
| SegmentationLaws.ChunksAreValid | speaktap/domain.py:89-104 | every chunk passes the constructor's checks exactly when the session id is not empty, and reports its speech and overlap |
| ChunkContents.ChunkHoldsFrames | speaktap/segmentation/adaptive.py:131-142 | for frames of any size, the audio of a chunk is as long as its frames together and holds each of them right after those before it |
| ChunkContents.ChunkCarries | speaktap/segmentation/adaptive.py:112-144 | a chunk carries its number, the times of its first and last frame, the time of its speech frames and, clamped below its length, the time of the frames it repeats |
| SpeechLaws.PauseChunkHasSpeech | speaktap/segmentation/adaptive.py:83-103 | chunks cut at a pause or at the end contain speech |
| SpeechLaws.EveryChunkHasSpeech | speaktap/segmentation/adaptive.py:65-91 | with frames of any lengths up to d, relations between the settings under which forced chunks contain speech too |
| SpeechLaws.GuardedHasSpeech | speaktap/segmentation/adaptive.py:65-91 | with frames of one length, when one frame short of full a buffer with all but one of the frames it would retain silent is cut at a pause, no chunk is silent |
| SpeechLaws.SilentForcedChunk | speaktap/segmentation/adaptive.py:161-174 | for all other settings that pass the checks some session has a silent forced chunk |
| SpeechLaws.EveryChunkHasSpeechIff | speaktap/segmentation/adaptive.py:65-91 | every chunk of every session contains speech if and only if the settings are guarded, for all settings that pass the checks |
| SpeechLaws.DefaultsAreSafe | speaktap/config.py:41-48 | the default settings pass the checks and every chunk contains speech |
| SpeechLaws.DefaultOverlapIff | speaktap/config.py:41-48 | with another overlap, every chunk contains speech exactly when it is above 300 and at most 24960 ms |
| NewSpeech.StopChunkHasNewSpeech | speaktap/segmentation/adaptive.py:93-103 | the chunk of finish always holds speech beyond what it repeats |
| NewSpeech.RepeatedPauseChunk | speaktap/segmentation/adaptive.py:83-91 | when a forced cut leaves room for a frame before the next and one frame short of full all but one frame of silence is a pause, a session has a chunk cut at a pause with only speech emitted before |
| NewSpeech.PausesHaveNewSpeechIff | speaktap/segmentation/adaptive.py:83-97 | for all settings that pass the checks, every chunk cut at a pause holds new speech exactly when that is not so |
| NewSpeech.DefaultsRepeatSpeech | speaktap/config.py:41-48 | with the defaults some chunk cut at a pause holds only speech emitted before |
| Assembly.WordOverlap | speaktap/assembly/overlap.py:18-28 | the downward search returns the largest repeated suffix/prefix of at most 16 words |
| Assembly.AssembleTranscript | speaktap/assembly/overlap.py:7-15 | the loop computes the fold of the sorted texts |
| Assembly.BlocksCover | speaktap/assembly/overlap.py:12-14 | every chunk's keys are a contiguous block of the result, and the blocks cover it without gaps and with ends that never move back |
| Assembly.OrderDoesNotMatter | speaktap/assembly/overlap.py:9 | with distinct sequence numbers any order of the input gives the same result |
| Overlaps.OverlapIsTrue | speaktap/assembly/overlap.py:18-28 | with distinct words the overlap found is the true one, or none when that is longer than 16 words |
| Overlaps.JoinKeepsAllIff | speaktap/assembly/overlap.py:18-28 | joining keeps all words exactly when no stretch of up to 16 words looks like a repeat |
| Overlaps.RightIff | speaktap/assembly/overlap.py:12-28 | for texts with true repeats of at most 16 words, the assembled words are right exactly when nothing longer than the true repeat, up to 16 words, looks like a repeat of the words said before |
| Overlaps.RightThroughoutIff | speaktap/assembly/overlap.py:12-28 | with no bound on the repeats, the words are right after every text exactly when moreover no true repeat is longer than 16 words |
| Overlaps.RightByChance | speaktap/assembly/overlap.py:19-22 | texts with a longer true repeat that assemble right in the end although not in between |
| EndToEnd.TextsSayAll | speaktap/segmentation/adaptive.py:49-174 | over any session each chunk's text begins with the words carried over, which end the text before, and without them the texts say exactly what was spoken |
| EndToEnd.TextsSaySpoken | speaktap/segmentation/adaptive.py:49-174 | and the texts before chunk k say exactly what was spoken up to the end of the chunk before it |
| EndToEnd.AssembledIff | speaktap/assembly/overlap.py:7-28 | for any session, any words and an ideal transcriber, when no chunk repeats more than 16 words the assembled text is what was spoken exactly when at no chunk more words than it repeats, up to 16, both end what was spoken before it and begin what is spoken in it |
| EndToEnd.AssembledThroughoutIff | speaktap/assembly/overlap.py:7-28 | after every chunk the text is what was spoken up to its end exactly when no chunk repeats more than 16 words and that condition holds |
| EndToEnd.UnforcedIff | speaktap/assembly/overlap.py:18-28 | without forced cuts the text is right exactly when at no chunk up to 16 words both end what was spoken before it and begin what is spoken in it |
| EndToEnd.WordLost | speaktap/assembly/overlap.py:18-28 | a session without forced cuts in which a word said again after a pause is lost |
| EndToEnd.NothingLostOrRepeated | speaktap/assembly/overlap.py:7-28 | for any session whose words are distinct, cutting then assembling yields every spoken word once and in order if and only if no chunk repeats more than 16 words |
| EndToEnd.SparseIsEnough | speaktap/assembly/overlap.py:19-22 | it suffices that no stretch shorter than the overlap plus a frame holds more than 16 words |
| PipelineLaws.StepKeeps | speaktap/pipeline.py:146-200 | every atomic step of every thread keeps the chunk flow, the transcripts, the phases and the task count |
| PipelineLaws.ChunksStep | speaktap/pipeline.py:149-152 | only taking a frame and flushing the policy emit chunks, and they are then all pending |
| PipelineRuns.FramesInOrder | speaktap/pipeline.py:149-155 | frames reach the policy in source order, none lost or invented |
| PipelineRuns.CaptureKeepsToLimit | speaktap/pipeline.py:149-157 | no frame after the first one that reaches the recording limit is captured, and all frames up to it are when capture ends by itself without failing |
| PipelineRuns.WaitDelivers | speaktap/pipeline.py:130-134 | when stop is called after capture ended by itself, it returns the assembled transcripts of all frames up to the limit, or raises when capture failed |
| PipelineRuns.StopDelivers | speaktap/pipeline.py:109-128 | in every interleaving, when the waits of stop are over the transcripts are exactly those of chunks 0..n-1 of the session, taken in order, nothing follows the sentinel and no writer remains; stop then resets the session and returns their assembly, or raises exactly when capture failed |
| PipelineRuns.StopEndsCapture | speaktap/pipeline.py:115-118 | between two frames capture can end without failing as soon as stop or cancel was called, and before that only at the end of the source |
| PipelineRuns.CaptureWaitsWhenFull | speaktap/pipeline.py:83-90 | capture waits to put a chunk exactly when a bounded queue holds as many jobs as its bound |
| Transcripts.TranscriptsTell | speaktap/pipeline.py:171-198 | in every interleaving, after the waits of stop there is one transcript for each chunk taken; it describes that chunk and holds either the words returned and no error, or no words and the error raised |
| Transcripts.ReturnedText | speaktap/pipeline.py:179-207 | without a capture failure the text is that of exactly the chunks that were transcribed, in order; nothing of a failed chunk is in it |
| PipelineRuns.BacklogIsBounded | speaktap/pipeline.py:83-90 | with a bounded queue, emitted but unfinished chunks never exceed the bound plus two |
| PipelineRuns.TranscriptsAreValid | speaktap/domain.py:177-192 | the transcript of a session's chunk passes the constructor's checks |
| PipelineRuns.NoDeadlock | speaktap/pipeline.py:253-262 | for every bound, every reachable unfinished state has an enabled step that relies on nothing raising |
| PipelineRuns.RunsAreShort | speaktap/pipeline.py:146-200 | a natural number falls on every step, so every run is finite |
| PipelineRuns.StopReturns | speaktap/pipeline.py:109-128 | from every reachable state the session can be driven to its end |
| PipelineRuns.BuildDecidesTermination | speaktap/pipeline.py:123-144 | a build that returns ends and resets the session, stop raises exactly when capture failed, and a cancel that follows returns at once; after a build that raises, cancel never returns |
| PipelineRuns.CaptureToText | speaktap/pipeline.py:123-128 | in every interleaving, with an ideal transcriber: when no chunk repeats more than 16 words, stop returns exactly the words spoken in the frames captured if and only if capture did not fail and nothing spoken looks like a longer repeat; when all words are distinct, if and only if capture did not fail and no chunk repeats more than 16 words |
| PipelineThreads.PipelineSession.constructor | speaktap/pipeline.py:50-67 | no session is active |
| PipelineThreads.PipelineSession.StartSession | speaktap/pipeline.py:69-107 | a started session is the initial state; a second start is refused and changes nothing, and when the source raises no session is active |
| PipelineThreads.PipelineSession.FetchFrame | speaktap/pipeline.py:149-151 | pushing a frame through the policy object is the modelled step |
| PipelineThreads.PipelineSession.GetJob | speaktap/pipeline.py:162-168 | the worker takes the oldest job |
| PipelineThreads.PipelineSession.Transcribe | speaktap/pipeline.py:171-196 | the step of the worker; TranscriptsTell states that a transcriber that raises yields an empty transcript carrying the error |
| PipelineThreads.PipelineSession.TaskDone | speaktap/pipeline.py:199-200 | the task count falls by one |
| PipelineThreads.PipelineSession.JoinCaptureThread | speaktap/pipeline.py:117-122 | stop flushes the policy once capture has ended, cancel does not |
| PipelineThreads.PipelineSession.BuildResult | speaktap/pipeline.py:123-128 | the result assembles the stored transcripts in key order, the session is reset, and a capture failure is raised |
| PipelineThreads.PipelineSession.SortedTranscripts | speaktap/pipeline.py:205 | picking the least key repeatedly lists the values in key order |
| PipelineThreads.PipelineSession.Run | speaktap/pipeline.py:109-144 | with the threads scheduled in any order the session ends and is reset; unless cancelled it is complete, and stop returns the text exactly when no step was a capture failure |
| EditDistance.Score | speaktap/benchmark/benchmark.py:121-137 | the two rows compute the least cost of any script of insertions, deletions and substitutions |
| EditDistance.DistanceIsLeastCost | benchmark/cleanup/run_candidate.py:234-247 | the recurrence is attained by a script and no script is cheaper |
| EditDistance.ZeroIffEqual | speaktap/benchmark/benchmark.py:121-137 | the distance is zero exactly for equal sequences |
| EditDistance.Symmetric | speaktap/benchmark/benchmark.py:121-137 | the distance does not depend on the direction |
| EditDistance.Triangle | speaktap/benchmark/benchmark.py:121-137 | the distance satisfies the triangle inequality |
| EditDistance.Bounds | speaktap/benchmark/benchmark.py:121-137 | the distance lies between the length difference and the larger length |
| TaggerLabels.DeriveExample | benchmark/cleanup/train_multilingual_tagger.py:77-96 | the target is the one list of the fluent keys that are not empty, at increasing positions; there are labels exactly when it is a subsequence of the source keys, and the positions labelled KEEP are then its rightmost embedding |
| TaggerLabels.TargetIsNonEmpty | benchmark/cleanup/train_multilingual_tagger.py:85 | filtering the keys yields the only list whose entries are the keys that are not empty, each once and in order |
| TaggerThresholds.MetricsForThreshold | benchmark/cleanup/train_multilingual_tagger.py:194-227 | the four counters are the numbers of words predicted and labelled that way and add up to all words, and the rates are the shares the counters make; lists of different lengths are refused |
| TaggerThresholds.SummaryMeansCounts | benchmark/cleanup/train_multilingual_tagger.py:211-215 | precision, recall, false-delete rate and accuracy are shares of the counters, 0 of nothing; F1 is 0 without a true deletion and otherwise, up to 10^12 predicted deletions, 2tp of 2tp + fp + fn |
| TaggerThresholds.RateFalls | benchmark/cleanup/train_multilingual_tagger.py:211-214 | a stricter threshold never has a higher false-delete rate |
| TaggerThresholds.StrictestDecides | benchmark/cleanup/train_multilingual_tagger.py:236-251 | eligible candidates form a suffix of the ascending list |
| TaggerThresholds.ChooseThreshold | benchmark/cleanup/train_multilingual_tagger.py:230-256 | among the candidates that meet the ceiling, or all if none does, the choice has the highest F1, then precision, then threshold; it meets the ceiling exactly when the strictest candidate does |
| TokenSelection.IsDuplicateDeletion | benchmark/cleanup/run_candidate.py:300-311 | the two loops decide whether the token repeats a neighbour and its run keeps a token |
| TokenSelection.CorrectionStarts | benchmark/cleanup/run_candidate.py:314-321 | every marker occurrence is found once |
| TokenSelection.CheckSplice | benchmark/cleanup/run_candidate.py:375-389 | the list comparisons accept exactly the edits with a cut on either side of the marker, kept content on both sides and an allowed seam, and otherwise name the first of these that fails |
| TokenSelection.CheckDeletions | benchmark/cleanup/run_candidate.py:352-389 | accepts exactly the safe deletions, with no, one kept or one removed marker |
| TokenSelection.ApplyTokenSelection | benchmark/cleanup/run_candidate.py:324-392 | an edit is accepted exactly when it is safe; the output then splits at spaces into the kept tokens and has one space between each two; a rejected edit returns the text unchanged and the reason is the first check that fails |
| TokenSelection.SpacedSplits | benchmark/cleanup/run_candidate.py:391 | joined tokens without spaces split into the same tokens again, and the length is that of the tokens and one space between each two |
| TokenSelectionLaws.WhatEditsKeep | benchmark/cleanup/run_candidate.py:335-343 | every accepted edit keeps the last token that is neither punctuation nor a filler, and every protected token but a day name next to a correction |
| TokenSelectionLaws.CanonicalFormKept | benchmark/cleanup/run_candidate.py:345-373 | an accepted edit that deletes no marker leaves the keys unchanged up to fillers and adjacent repetitions |
| TokenSelectionLaws.CorrectionSpliced | benchmark/cleanup/run_candidate.py:333-392 | an accepted edit that deletes the marker keeps all content outside two cut points around it and deletes all inside, with content kept on both sides, the two words that meet not both function words and only day names losing protection |
| SafeCleanup.RepeatedWidth | speaktap/cleanup/safe.py:81-94 | the width found is the widest repeat of at most four words, never a lone grammatical double |
| SafeCleanup.SafeCleanupText | speaktap/cleanup/safe.py:71-101 | the loop tiles the tokens into fillers, single tokens and repeated blocks of which it keeps one half |
| SafeCleanup.CleanupIsDetermined | speaktap/cleanup/safe.py:71-101 | no other tiling obeys the rules, so they determine the output |
| SafeCleanup.TokensAccounted | speaktap/cleanup/safe.py:77-101 | fillers, singles and twice the kept block tokens add up to the input |
| SafeCleanup.DeletionsAreJustified | speaktap/cleanup/safe.py:78-98 | a deleted token is a filler or repeats a kept token of the same key; a grammatical double only inside a wider block |
| SafeCleanup.OrderIsKept | speaktap/cleanup/safe.py:71-101 | words other than fillers first occur in the same order before and after |
| SafeCleanup.UnchangedIff | speaktap/cleanup/safe.py:77-101 | cleanup changes nothing exactly when there is no filler and no removable repeat |
| SafeCleanup.SecondPassIff | speaktap/cleanup/safe.py:77-101 | a second pass changes nothing exactly when, among the tokens the first pass keeps, none is a filler after its kept predecessor and none starts a repeat to remove |
| SafeCleanup.NotIdempotent | speaktap/cleanup/safe.py:77-101 | four equal words become two, and two become one |
| Service.ServiceStateMachine.Start | speaktap/service.py:45-55 | a start is refused outside idle or with an empty id, changing nothing, and otherwise opens the session |
| Service.ServiceStateMachine.BeginFinalization | speaktap/service.py:57-61 | only a recording session is finalized, and it keeps its id and options |
| Service.ServiceStateMachine.BeginOutput | speaktap/service.py:63-67 | only a finalizing session is output |
| Service.ServiceStateMachine.Complete | speaktap/service.py:69-73 | only an outputting session is completed, and everything is cleared |
| Service.ServiceStateMachine.Cancel | speaktap/service.py:75-80 | any active session can be cancelled, an idle one not |
| Service.ServiceStateMachine.Fail | speaktap/service.py:82-86 | a failure returns to idle and keeps the error |
| Service.AsrService.Handle | speaktap/service_app.py:100-127 | each command on the objects has the specified effect and reply |
| Service.AsrService.StopSession | speaktap/service_app.py:176-237 | stop walks the state machine through all phases, and every raising path ends idle |
| Service.CommandKeeps | speaktap/service_app.py:100-266 | one command keeps recording, pipeline, session id and options in step and reports the state reached |
| Service.ServiceStaysConsistent | speaktap/service_app.py:100-266 | so after any sequence of commands, for every reply |
| Service.StartConsistentIff | speaktap/service_app.py:135-156 | a start keeps the service consistent if and only if the configured adapters exist |
| Service.UnsupportedAdapterEffects | speaktap/service_app.py:256-266 | otherwise shutdown reports idle while recording, and stop or cancel recovers |
| Service.SessionCompletes | speaktap/service_app.py:176-237 | stop after start returns the text under the id given at the start and leaves no trace |
| Service.StartComesTo | speaktap/service_app.py:129-174 | the id, the profile and the choice of cleanup, or the configured one, reach the session; an error of the pipeline is the reply and is kept; a start while recording changes nothing |
| Service.FailedStop | speaktap/service_app.py:212-224 | a stop that raises replies with the error and no text, leaves the service idle, and status reports the error until a session starts |
| Service.OtherCommandsComeTo | speaktap/service_app.py:239-266 | status changes nothing, stop and cancel while idle are refused and change nothing, cancel clears the session and shutdown also asks the service to end |
| Capture.AudioFileSource.Start | speaktap/capture/file.py:26-33 | a second start is refused and keeps the payload |
| Capture.AudioFileSource.Frames | speaktap/capture/file.py:35-48 | the offsets loop yields the complete frames of the payload |
| Capture.ArecordSource.Start | speaktap/capture/linux_arecord.py:35-75 | priming moves no byte out of the stream order |
| Capture.ArecordSource.ReadExact | speaktap/capture/linux_arecord.py:127-140 | exactly the next bytes are returned, fewer only at the end of the stream |
| Capture.ArecordSource.Frames | speaktap/capture/linux_arecord.py:77-105 | for any fragmentation the frames are those of the bytes, or their prefix when stopped, and a failed recorder is reported |
| Capture.LiveAgreesWithFile | speaktap/capture/linux_arecord.py:61-97 | live capture and the file source yield the same frames for the same bytes |
| Capture.NoByteLost | speaktap/capture/file.py:40-48 | the frames hold the recording byte for byte up to a tail shorter than a frame |
| WholeSystem.CapturedFrames | speaktap/capture/file.py:38-48 | at 16 kHz every frame is valid, mono, lasts the configured milliseconds and starts at its nominal time |
| WholeSystem.CapturedIsSteady | speaktap/capture/linux_arecord.py:88-97 | captured frames meet the assumptions of the segmentation results |
| WholeSystem.ChunkHoldsBytes | speaktap/segmentation/adaptive.py:131-142 | over any session of a recording, chunk k holds exactly the bytes between the ends of its span, and its times are theirs |
| WholeSystem.TranscribedAudio | speaktap/pipeline.py:149-175 | in every interleaving, what the transcriber is given for chunk k is that stretch of the recording |
| WholeSystem.BytesToText | speaktap/pipeline.py:109-128 | from any bytes, through any interleaving, every transcript is valid, and with an ideal transcriber stop returns exactly the words spoken in the captured frames under the conditions of CaptureToText, for sparse speech always with short repeats |

## Left out

- Frame durations that are not whole milliseconds and the rounding of configured seconds.
- The energy detector, the speech models, tokenizers and sample normalisation: floating point and foreign libraries.
- Subprocesses, ALSA, sockets, locks on files, notifications, sounds and typing: input and output.
- Capture.ArecordSource.Frames: stop() racing with a read in progress, which discards the primed bytes, is not modelled; stopping is observed between reads.
- A transcriber that raises something other than an ordinary exception, and a capture failure in the middle of handing over a frame's chunks.
- TokenSelection.ApplyTokenSelection: when several deletions are unsafe it is not said which one is named; the source takes the first in the order of a set.
- Session timings, diagnostics, reports and the word error percentage; the two durations of a transcript are kept.
- PipelineThreads.PipelineSession.Run: a liveness claim for a source that keeps delivering frames is not made; the source is finite.
- Service.CommandKeeps: assumes that pipeline.cancel() returns; `PipelineRuns.BuildDecidesTermination` says when it does not.
- TaggerThresholds.ChooseThreshold: probabilities and rates are reals, so ties produced by floating-point rounding are not modelled.
- JSON encoding of commands, configuration loading, the profile table and building of long benchmark sessions.
