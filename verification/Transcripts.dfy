/** What becomes of every chunk in the text: a chunk that failed to transcribe leaves its
    error and no words, and the text is that of the other chunks. */
module Transcripts {
  import opened Domain
  import opened Segmentation
  import opened SegmentationRuns
  import opened Assembly
  import opened Pipeline
  import opened PipelineLaws
  import PipelineRuns

  /** The transcript describes its chunk, and holds the words the transcriber returned or
      the error it raised, never both. */
  predicate Tells(env: Env, chunk: AudioChunk, transcript: TranscriptChunk) {
    && transcript.sessionId == chunk.sessionId && transcript.sequence == chunk.sequence
    && transcript.audioStartMs == chunk.startMs && transcript.audioEndMs == chunk.endMs
    && transcript.reason == chunk.reason
    && transcript.speechMs == chunk.speechMs && transcript.overlapMs == chunk.overlapMs
    && transcript.asrDurationMs == env.timing(chunk).asrMs && transcript.queueWaitMs == env.timing(chunk).waitMs
    && match env.asr(chunk)
       case Text(words) => transcript.words == words && transcript.error == None
       case Failed(message) => transcript.words == [] && transcript.error == Some(message)
  }

  lemma WorkerTells(env: Env, chunk: AudioChunk)
    ensures Tells(env, chunk, TranscriptOf(env, chunk))
  {
  }

  /** When the waits of stop are over, in any interleaving, there is exactly one transcript
      for each chunk taken, and it tells what became of that chunk. */
  lemma TranscriptsTell(env: Env, frames: seq<Item>, acts: seq<Action>, t: SessionState, k: nat)
    requires Runs(env, Start(frames), acts, t)
    requires !t.cancelling && (t.caller.Building? || t.caller.Returned?)
    ensures forall j :: j in t.transcripts <==> 0 <= j < |t.taken|
    ensures k < |t.taken| ==> Tells(env, t.taken[k], t.transcripts[k])
  {
    PipelineRuns.StopDelivers(env, frames, acts, t);
    hide Runs, Session, ChunksOf, TranscriptOf, Tells;
    if k < |t.taken| { WorkerTells(env, t.taken[k]); }
  }

  // ---------------------------------------------------------------- the text returned

  /** Which chunks were transcribed. */
  function Heard(env: Env, chunks: seq<AudioChunk>): (mask: seq<bool>)
    ensures |mask| == |chunks| && forall k :: 0 <= k < |chunks| ==> mask[k] == env.asr(chunks[k]).Text?
  {
    seq(|chunks|, k requires 0 <= k < |chunks| => env.asr(chunks[k]).Text?)
  }

  /** texts are the words the transcriber returned for the chunks at those positions. */
  predicate TextsAt(env: Env, chunks: seq<AudioChunk>, at: seq<int>, texts: seq<seq<string>>) {
    |texts| == |at| && forall i :: 0 <= i < |at| ==> 0 <= at[i] < |chunks| && env.asr(chunks[at[i]]) == Text(texts[i])
  }

  lemma JoinLast(norm: string -> string, texts: seq<seq<string>>, text: seq<string>)
    ensures JoinAll(norm, texts + [text]) == Join(norm, JoinAll(norm, texts), text)
  {
    assert (texts + [text])[..|texts|] == texts;
  }

  lemma JoinNothing(norm: string -> string, words: seq<string>)
    ensures Join(norm, words, []) == words
  {
  }

  lemma TextsOneMore(env: Env, chunks: seq<AudioChunk>, at: seq<int>, texts: seq<seq<string>>)
    requires chunks != [] && TextsAt(env, chunks[..|chunks| - 1], at, texts)
    ensures TextsAt(env, chunks, at, texts)
    ensures var outcome := env.asr(chunks[|chunks| - 1]);
            outcome.Text? ==> TextsAt(env, chunks, at + [|chunks| - 1], texts + [outcome.words])
  {
  }

  lemma TranscriptsLast(env: Env, chunks: seq<AudioChunk>)
    requires chunks != []
    ensures var n := |chunks| - 1;
            Texts(TranscriptsOf(env, chunks))
              == Texts(TranscriptsOf(env, chunks[..n])) + [TranscriptOf(env, chunks[n]).words]
  {
    hide TranscriptOf;
  }

  lemma WordsOf(env: Env, chunk: AudioChunk)
    ensures var outcome := env.asr(chunk);
            TranscriptOf(env, chunk).words == if outcome.Text? then outcome.words else []
  {
  }

  /** Chunks that failed do not change the text. */
  lemma {:induction false} FailedAreSilent(env: Env, chunks: seq<AudioChunk>)
    returns (at: seq<int>, texts: seq<seq<string>>)
    ensures Positions(Heard(env, chunks), at) && TextsAt(env, chunks, at, texts)
    ensures JoinAll(env.norm, Texts(TranscriptsOf(env, chunks))) == JoinAll(env.norm, texts)
    decreases |chunks|
  {
    if chunks == [] {
      at, texts := [], [];
      assert Texts(TranscriptsOf(env, chunks)) == [];
    } else {
      hide Positions, TextsAt, JoinAll, Join, TranscriptOf, TranscriptsOf, Texts, Heard;
      var n := |chunks| - 1;
      var outcome := env.asr(chunks[n]);
      at, texts := FailedAreSilent(env, chunks[..n]);
      assert Heard(env, chunks) == Heard(env, chunks[..n]) + [outcome.Text?];
      PositionsOneMore(Heard(env, chunks[..n]), outcome.Text?, at);
      TextsOneMore(env, chunks, at, texts);
      TranscriptsLast(env, chunks);
      WordsOf(env, chunks[n]);
      var before := Texts(TranscriptsOf(env, chunks[..n]));
      JoinLast(env.norm, before, TranscriptOf(env, chunks[n]).words);
      if outcome.Text? {
        JoinLast(env.norm, texts, outcome.words);
        at, texts := at + [n], texts + [outcome.words];
      } else {
        JoinNothing(env.norm, JoinAll(env.norm, before));
      }
    }
  }

  lemma AssembledInOrder(env: Env, chunks: seq<AudioChunk>)
    requires Numbered(chunks)
    ensures Assemble(env.norm, TranscriptsOf(env, chunks)) == JoinAll(env.norm, Texts(TranscriptsOf(env, chunks)))
  {
    PipelineRuns.NumberedAscends(env, chunks);
    hide TranscriptsOf, JoinAll, BySequence, Ascending, Numbered;
    SortedIsFixed(TranscriptsOf(env, chunks));
  }

  /** Without a capture failure stop returns the words of exactly the chunks that were
      transcribed, joined in order: nothing of a chunk that failed is in the text. */
  lemma ReturnedText(env: Env, frames: seq<Item>, acts: seq<Action>, t: SessionState)
    returns (at: seq<int>, texts: seq<seq<string>>)
    requires Runs(env, Start(frames), acts, t) && t.caller.Returned? && !t.cancelling && EndCapture(true) !in acts
    ensures Positions(Heard(env, t.taken), at) && TextsAt(env, t.taken, at, texts)
    ensures t.result == Some(Words(JoinAll(env.norm, texts)))
  {
    PipelineRuns.StopDelivers(env, frames, acts, t);
    hide Runs, Session, ChunksOf, JoinAll, Assemble, TranscriptsOf, TranscriptOf, Positions, TextsAt, Numbered;
    AssembledInOrder(env, t.taken);
    at, texts := FailedAreSilent(env, t.taken);
  }
}
