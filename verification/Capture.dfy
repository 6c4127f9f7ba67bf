/** Framing a byte stream: the live source over a fragmenting pipe
    (speaktap/capture/linux_arecord.py) and the file source it must agree with
    (speaktap/capture/file.py). Mono S16_LE audio. */
module Capture {
  import opened Domain

  /** Bytes of one frame. */
  function FrameBytes(sampleRate: nat, frameMs: nat): nat {
    sampleRate * frameMs / 1000 * 2
  }

  function Frame(pcm: seq<byte>, sampleRate: nat, frameMs: nat, sequence: nat): AudioFrame {
    AudioFrame(pcm, sampleRate, 1, sequence * frameMs, frameMs)
  }

  /** The complete frames of a recording, numbered from sequence; an incomplete tail is
      dropped. */
  function FramesOf(bytes: seq<byte>, sampleRate: nat, frameMs: nat, sequence: nat): seq<AudioFrame>
    requires FrameBytes(sampleRate, frameMs) > 0
    decreases |bytes|
  {
    var n := FrameBytes(sampleRate, frameMs);
    if |bytes| < n then []
    else [Frame(bytes[..n], sampleRate, frameMs, sequence)] + FramesOf(bytes[n..], sampleRate, frameMs, sequence + 1)
  }

  lemma FirstFrame(first: seq<byte>, rest: seq<byte>, sampleRate: nat, frameMs: nat, sequence: nat)
    requires 0 < FrameBytes(sampleRate, frameMs) == |first|
    ensures FramesOf(first + rest, sampleRate, frameMs, sequence)
         == [Frame(first, sampleRate, frameMs, sequence)] + FramesOf(rest, sampleRate, frameMs, sequence + 1)
  {
    assert (first + rest)[..|first|] == first && (first + rest)[|first|..] == rest;
  }

  lemma MoveFirst<T>(done: seq<T>, x: T, rest: seq<T>)
    ensures done + ([x] + rest) == done + [x] + rest
  {
  }

  lemma NoFrame(bytes: seq<byte>, sampleRate: nat, frameMs: nat, sequence: nat)
    requires |bytes| < FrameBytes(sampleRate, frameMs)
    ensures FramesOf(bytes, sampleRate, frameMs, sequence) == []
  {
  }

  // ---------------------------------------------------------------- file source

  class AudioFileSource {
    const sampleRate: nat
    const frameMs: nat
    var payload: seq<byte>
    var started: bool

    constructor (rate: nat, ms: nat)
      ensures sampleRate == rate && frameMs == ms && !started && payload == []
    {
      sampleRate, frameMs, payload, started := rate, ms, [], false;
    }

    /** Starting twice raises. */
    method Start(contents: seq<byte>) returns (ok: bool)
      modifies this
      ensures ok <==> !old(started)
      ensures started
      ensures payload == if ok then contents else old(payload)
    {
      ok := !started;
      if ok {
        payload, started := contents, true;
      }
    }

    /** None when the source has not been started. */
    method Frames() returns (r: Option<seq<AudioFrame>>)
      requires FrameBytes(sampleRate, frameMs) > 0
      ensures r.Some? <==> started
      ensures r.Some? ==> r.value == FramesOf(payload, sampleRate, frameMs, 0)
    {
      if !started {
        return None;
      }
      var n := FrameBytes(sampleRate, frameMs);
      var frames: seq<AudioFrame> := [];
      var offset := 0;
      while offset + n <= |payload|
        invariant offset <= |payload|
        invariant frames + FramesOf(payload[offset..], sampleRate, frameMs, |frames|)
               == FramesOf(payload, sampleRate, frameMs, 0)
      {
        assert payload[offset..][..n] == payload[offset..offset + n] && payload[offset..][n..] == payload[offset + n..];
        frames := frames + [Frame(payload[offset..offset + n], sampleRate, frameMs, |frames|)];
        offset := offset + n;
      }
      r := Some(frames);
    }

    method Stop()
      modifies this
      ensures !started && payload == []
    {
      started, payload := false, [];
    }
  }

  // ---------------------------------------------------------------- live source

  /** A pipe that ends: a read returns between one and n of the bytes still to come, as
      many as happen to be there, and nothing only at the end. */
  class Stream {
    var data: seq<byte>

    constructor (bytes: seq<byte>)
      ensures data == bytes
    {
      data := bytes;
    }

    method Read(n: nat) returns (chunk: seq<byte>)
      modifies this
      ensures |chunk| <= n && old(data) == chunk + data
      ensures n > 0 && old(data) != [] ==> chunk != []
    {
      var k: nat :| k <= n && k <= |data| && (n > 0 && data != [] ==> k > 0);
      chunk := data[..k];
      data := data[k..];
    }
  }

  datatype Ending = Finished | NotStarted | ArecordFailed

  class ArecordSource {
    const sampleRate: nat
    const frameMs: nat
    const stream: Stream
    var pending: seq<byte>
    var running: bool

    constructor (rate: nat, ms: nat, pipe: Stream)
      ensures sampleRate == rate && frameMs == ms && stream == pipe && !running && pending == []
    {
      sampleRate, frameMs, stream, pending, running := rate, ms, pipe, [], false;
    }

    /** The bytes that frames() has still to deliver. */
    function Unread(): seq<byte>
      reads this, stream
    {
      pending + stream.data
    }

    /** Starting twice raises. Priming reads ahead once audio is there; readable says
        whether it came within the timeout. */
    method Start(readable: bool) returns (ok: bool)
      modifies this, stream
      ensures ok <==> !old(running)
      ensures running
      ensures ok ==> Unread() == old(stream.data)
      ensures !ok ==> Unread() == old(Unread())
    {
      ok := !running;
      if ok {
        pending := [];
        running := true;
        if readable {
          Prime();
        }
      }
    }

    method Prime()
      requires pending == []
      modifies this, stream
      ensures Unread() == old(Unread()) && running == old(running)
      ensures |pending| <= FrameBytes(sampleRate, frameMs)
    {
      pending := stream.Read(FrameBytes(sampleRate, frameMs));
    }

    /** The next length bytes, or all that are left. */
    method ReadExact(length: nat) returns (payload: seq<byte>)
      modifies this`pending, stream
      ensures payload + Unread() == old(Unread())
      ensures |payload| <= length
      ensures |payload| < length ==> Unread() == []
    {
      var remaining := length;
      payload := [];
      if pending != [] {
        var k := Min(remaining, |pending|);
        payload := pending[..k];
        pending := pending[k..];
        remaining := remaining - k;
      }
      while remaining > 0
        invariant 0 <= remaining == length - |payload|
        invariant payload + Unread() == old(Unread())
        invariant remaining > 0 ==> pending == []
      {
        label before:
        var chunk := stream.Read(remaining);
        if chunk == [] {
          return;
        }
        assert payload + chunk + Unread() == payload + old@before(Unread());
        payload := payload + chunk;
        remaining := remaining - |chunk|;
      }
    }

    /** The frames yielded until the stream ends or, at the check number polls, stopping
        is seen to be set. exitCode is what arecord reports at the end. */
    method Frames(polls: Option<nat>, exitCode: Option<int>) returns (frames: seq<AudioFrame>, ending: Ending)
      requires FrameBytes(sampleRate, frameMs) > 0
      modifies this`pending, stream
      ensures ending.NotStarted? <==> !running
      ensures !running ==> frames == [] && Unread() == old(Unread())
      ensures running ==> frames <= FramesOf(old(Unread()), sampleRate, frameMs, 0)
      ensures running && polls.None? ==> frames == FramesOf(old(Unread()), sampleRate, frameMs, 0)
      ensures running && polls.Some? ==>
                |frames| == Min(polls.value, |FramesOf(old(Unread()), sampleRate, frameMs, 0)|)
      ensures ending.ArecordFailed? ==> exitCode.Some? && exitCode.value != 0
      ensures running && polls.None? ==> (ending.ArecordFailed? <==> exitCode.Some? && exitCode.value != 0)
    {
      frames := [];
      if !running {
        return [], NotStarted;
      }
      hide FrameBytes, FramesOf;
      var n := FrameBytes(sampleRate, frameMs);
      var stopping := polls == Some(0);
      ghost var all := FramesOf(Unread(), sampleRate, frameMs, 0);
      ghost var rest := all;
      ghost var left := |Unread()|;
      while !stopping
        invariant rest == FramesOf(Unread(), sampleRate, frameMs, |frames|)
        invariant frames + rest == all
        invariant stopping <==> polls == Some(|frames|)
        invariant polls.Some? ==> |frames| <= polls.value
        invariant left == |Unread()|
        decreases !stopping, left
      {
        ghost var bytes := Unread();
        var payload := ReadExact(n);
        if |payload| != n {
          NoFrame(bytes, sampleRate, frameMs, |frames|);
          assert frames == all;
          break;
        }
        assert bytes == payload + Unread();
        FirstFrame(payload, Unread(), sampleRate, frameMs, |frames|);
        rest := FramesOf(Unread(), sampleRate, frameMs, |frames| + 1);
        MoveFirst(frames, Frame(payload, sampleRate, frameMs, |frames|), rest);
        frames := frames + [Frame(payload, sampleRate, frameMs, |frames|)];
        stopping := polls == Some(|frames|);
        left := |Unread()|;
      }
      ending := if !stopping && exitCode.Some? && exitCode.value != 0 then ArecordFailed else Finished;
    }
  }

  // ---------------------------------------------------------------- laws

  function PcmOf(frames: seq<AudioFrame>): seq<byte> {
    if frames == [] then [] else frames[0].pcm + PcmOf(frames[1..])
  }

  /** The frames hold the recording from its start, every byte once and in order, up to a
      tail shorter than a frame. */
  lemma {:induction false} NoByteLost(bytes: seq<byte>, sampleRate: nat, frameMs: nat, sequence: nat)
    requires FrameBytes(sampleRate, frameMs) > 0
    ensures var pcm := PcmOf(FramesOf(bytes, sampleRate, frameMs, sequence));
            pcm <= bytes && |bytes| - |pcm| < FrameBytes(sampleRate, frameMs)
    decreases |bytes|
  {
    var n := FrameBytes(sampleRate, frameMs);
    if |bytes| >= n {
      NoByteLost(bytes[n..], sampleRate, frameMs, sequence + 1);
      var rest := FramesOf(bytes[n..], sampleRate, frameMs, sequence + 1);
      assert FramesOf(bytes, sampleRate, frameMs, sequence)[1..] == rest;
      assert bytes == bytes[..n] + bytes[n..];
    }
  }

  /** For any priming and any fragmentation, live capture of a stream that ends yields
      what the file source yields for the same bytes. */
  method LiveAgreesWithFile(bytes: seq<byte>, sampleRate: nat, frameMs: nat, readable: bool)
    returns (live: seq<AudioFrame>, fromFile: Option<seq<AudioFrame>>)
    requires FrameBytes(sampleRate, frameMs) > 0
    ensures fromFile == Some(live)
  {
    var stream := new Stream(bytes);
    var source := new ArecordSource(sampleRate, frameMs, stream);
    var ok := source.Start(readable);
    var ending;
    live, ending := source.Frames(None, Some(0));
    var file := new AudioFileSource(sampleRate, frameMs);
    ok := file.Start(bytes);
    fromFile := file.Frames();
  }
}
