/**
  The frame chunker of `AudioStreamer.play_file`: the decoder's output is read `2 * n`
  bytes at a time (`n` samples per frame, 480 in the program), each read becomes one
  `AudioFrame`, a short read is padded with silence to a full frame, and an empty read
  ends playback.
*/
module Chunker {
  import opened Options
  import opened Pcm
  import opened Decoder

  /** Samples per frame: 20 ms at 24 kHz. */
  const FrameSize: nat := 480
  /** Bytes read from the decoder per frame, two per sample. */
  const BytesPerFrame: nat := FrameSize * 2
  const SampleRate: nat := 24000
  const NumChannels: nat := 1

  /** `rtc.AudioFrame`: the sample bytes and the format they are tagged with. */
  datatype AudioFrame = AudioFrame(data: seq<Byte>, sampleRate: nat, numChannels: nat, samplesPerChannel: nat)

  /** `np.frombuffer` refuses a buffer that ends in the middle of a sample. */
  datatype ChunkError = PartialSample(length: nat)

  datatype FrameResult = Frame(frame: AudioFrame) | Refused(error: ChunkError)

  /** What one playback hands to the audio source, in order, and the error that stopped it, if any. */
  datatype Playback = Playback(frames: seq<AudioFrame>, error: Option<ChunkError>)

  /** `np.pad(samples, (0, n - len(samples)))`, applied only when the read was short. */
  function PadSamples(samples: seq<Int16>, n: nat): (r: seq<Int16>)
    ensures |r| == if |samples| < n then n else |samples|
    ensures r[..|samples|] == samples
    ensures forall i :: |samples| <= i < |r| ==> r[i] == 0
  {
    if |samples| < n then samples + Silence(n - |samples|) else samples
  }

  /** The samples a frame carries. */
  function Samples(f: AudioFrame): seq<Int16>
    requires |f.data| % 2 == 0
  {
    FromBuffer(f.data)
  }

  /** One read turned into the frame given to `capture_frame`. */
  function MakeFrame(chunk: seq<Byte>, n: nat): (r: FrameResult)
    ensures r.Refused? <==> |chunk| % 2 == 1
    ensures r.Refused? ==> r.error == PartialSample(|chunk|)
  {
    if |chunk| % 2 == 1 then Refused(PartialSample(|chunk|))
    else Frame(AudioFrame(ToBytes(PadSamples(FromBuffer(chunk), n)), SampleRate, NumChannels, n))
  }

  /**
    What a read contributes to playback, in closed form: the error of a read that ends
    in the middle of a sample, otherwise a frame of the read's bytes followed by zero
    bytes up to `2 * n`.
  */
  function Classify(chunk: seq<Byte>, n: nat): FrameResult
  {
    if |chunk| % 2 == 1 then Refused(PartialSample(|chunk|))
    else Frame(AudioFrame(chunk + Zeros(if |chunk| < 2 * n then 2 * n - |chunk| else 0), SampleRate, NumChannels, n))
  }

  /** A read of at most one frame's bytes, zero-filled to a full frame. */
  function Padded(chunk: seq<Byte>, n: nat): AudioFrame
    requires |chunk| <= 2 * n
  {
    AudioFrame(chunk + Zeros(2 * n - |chunk|), SampleRate, NumChannels, n)
  }

  /**
    Converting a read to samples, padding them with silence and converting back gives
    the read's bytes followed by zero bytes: the frame is the closed form.
  */
  lemma FrameBytes(chunk: seq<Byte>, n: nat)
    ensures MakeFrame(chunk, n) == Classify(chunk, n)
  {
    if |chunk| % 2 == 0 {
      var samples := FromBuffer(chunk);
      ToBytesFromBuffer(chunk);
      if |samples| < n {
        ToBytesSilence(n - |samples|);
        ToBytesConcat(samples, Silence(n - |samples|));
      } else {
        assert chunk + Zeros(0) == chunk;
      }
    }
  }

  /** A frame made from a short read carries the read's samples first and silence after them. */
  lemma FrameSamples(chunk: seq<Byte>, n: nat)
    requires |chunk| % 2 == 0 && |chunk| <= 2 * n
    ensures MakeFrame(chunk, n).Frame?
    ensures Samples(MakeFrame(chunk, n).frame) == FromBuffer(chunk) + Silence(n - |chunk| / 2)
  {
    FromBufferToBytes(PadSamples(FromBuffer(chunk), n));
  }

  /** The frames of a sequence of chunks, in order, up to the first read that is not whole samples. */
  function Emit(chunks: seq<seq<Byte>>, n: nat): Playback
  {
    if chunks == [] then Playback([], None)
    else
      match Classify(chunks[0], n)
      case Refused(e) => Playback([], Some(e))
      case Frame(f) =>
        var rest := Emit(chunks[1..], n);
        Playback([f] + rest.frames, rest.error)
  }

  /** Emitting a read in front of further reads: its frame comes first, or emission stops at it. */
  lemma EmitCons(chunk: seq<Byte>, later: seq<seq<Byte>>, n: nat)
    ensures Emit([chunk] + later, n) ==
      match Classify(chunk, n)
      case Refused(e) => Playback([], Some(e))
      case Frame(f) => Playback([f] + Emit(later, n).frames, Emit(later, n).error)
  {
    assert ([chunk] + later)[0] == chunk && ([chunk] + later)[1..] == later;
  }

  /** The whole playback of a decoder's output, read `2 * n` bytes at a time. */
  function Play(pcm: seq<Byte>, n: nat): Playback
  {
    Emit(Reads(pcm, 2 * n), n)
  }

  /** What playing the unread part of the decoder's output gives, after `consumed` bytes have been read. */
  function Resume(pcm: seq<Byte>, consumed: nat, n: nat): Playback
    requires consumed <= |pcm|
  {
    Emit(Reads(pcm[consumed..], 2 * n), n)
  }

  /** An empty read means the output is exhausted and nothing is left to play. */
  lemma ResumeEnd(pcm: seq<Byte>, consumed: nat, n: nat)
    requires n > 0 && consumed <= |pcm| && ReadResult(pcm, consumed, 2 * n) == []
    ensures consumed == |pcm| && Resume(pcm, consumed, n) == Playback([], None)
  {
    ReadStep(pcm, consumed, 2 * n);
  }

  /** A read that is not whole samples stops playback with its error. */
  lemma ResumeRefused(pcm: seq<Byte>, consumed: nat, n: nat)
    requires n > 0 && consumed <= |pcm|
    requires ReadResult(pcm, consumed, 2 * n) != [] && Classify(ReadResult(pcm, consumed, 2 * n), n).Refused?
    ensures Resume(pcm, consumed, n) == Playback([], Some(Classify(ReadResult(pcm, consumed, 2 * n), n).error))
  {
    var data := ReadResult(pcm, consumed, 2 * n);
    ReadStep(pcm, consumed, 2 * n);
    EmitCons(data, Reads(pcm[consumed + |data|..], 2 * n), n);
  }

  /** A read of whole samples gives the next frame, and playback goes on from the bytes after it. */
  lemma ResumeFrame(pcm: seq<Byte>, consumed: nat, n: nat)
    requires n > 0 && consumed <= |pcm|
    requires ReadResult(pcm, consumed, 2 * n) != [] && Classify(ReadResult(pcm, consumed, 2 * n), n).Frame?
    ensures consumed + |ReadResult(pcm, consumed, 2 * n)| <= |pcm|
    ensures var data := ReadResult(pcm, consumed, 2 * n);
      var next := Resume(pcm, consumed + |data|, n);
      Resume(pcm, consumed, n) == Playback([Classify(data, n).frame] + next.frames, next.error)
  {
    var data := ReadResult(pcm, consumed, 2 * n);
    ReadStep(pcm, consumed, 2 * n);
    EmitCons(data, Reads(pcm[consumed + |data|..], 2 * n), n);
  }

  /** All frame bytes, in the order the frames were emitted. */
  function Concat(frames: seq<AudioFrame>): seq<Byte>
  {
    if frames == [] then [] else frames[0].data + Concat(frames[1..])
  }

  predicate WellFormed(f: AudioFrame, n: nat)
  {
    |f.data| == 2 * n && f.samplesPerChannel == n &&
    f.sampleRate == SampleRate && f.numChannels == NumChannels
  }

  predicate WholeReads(chunks: seq<seq<Byte>>, n: nat)
  {
    forall i :: 0 <= i < |chunks| ==> |chunks[i]| % 2 == 0 && |chunks[i]| <= 2 * n
  }

  /** Reads of whole samples, each at most a frame, give one padded frame per read and no error. */
  lemma {:induction false} EmitWhole(chunks: seq<seq<Byte>>, n: nat)
    requires WholeReads(chunks, n)
    ensures Emit(chunks, n).error == None
    ensures |Emit(chunks, n).frames| == |chunks|
    ensures forall i :: 0 <= i < |chunks| ==> Emit(chunks, n).frames[i] == Padded(chunks[i], n)
  {
    if chunks != [] {
      EmitWhole(chunks[1..], n);
      var frames := Emit(chunks, n).frames;
      assert frames == [Padded(chunks[0], n)] + Emit(chunks[1..], n).frames;
      forall i | 0 < i < |chunks| ensures frames[i] == Padded(chunks[i], n) {
        assert chunks[i] == chunks[1..][i - 1];
      }
    }
  }

  /** Emission stops at the first read of an odd length; the frames before it are those of the earlier chunks. */
  lemma {:induction false} EmitStops(chunks: seq<seq<Byte>>, n: nat, j: nat)
    requires j < |chunks| && |chunks[j]| % 2 == 1
    requires forall i :: 0 <= i < j ==> |chunks[i]| % 2 == 0
    ensures Emit(chunks, n) == Playback(Emit(chunks[..j], n).frames, Some(PartialSample(|chunks[j]|)))
  {
    if j > 0 {
      EmitStops(chunks[1..], n, j - 1);
      assert chunks[1..][..j - 1] == chunks[..j][1..];
    }
  }

  /** Prepending one frame's bytes to a padded remainder keeps the shape "stream, then zeros". */
  lemma PrependPadded(chunk: seq<Byte>, rest: seq<Byte>, tail: seq<Byte>, b: nat, k: nat)
    requires |chunk| <= b && (k == 0 || |chunk| == b)
    requires k * b >= |rest| && tail == rest + Zeros(k * b - |rest|)
    requires k == 0 ==> rest == []
    ensures (k + 1) * b >= |chunk + rest|
    ensures chunk + Zeros(b - |chunk|) + tail == chunk + rest + Zeros((k + 1) * b - |chunk + rest|)
  {
    Distribute(k, b);
    if k == 0 {
      assert tail == [];
    } else {
      assert Zeros(b - |chunk|) == [];
    }
  }

  /** The frames of full reads and one final, possibly short read, concatenated, are the reads followed by the padding. */
  lemma {:induction false} EmitConcat(chunks: seq<seq<Byte>>, n: nat)
    requires WholeReads(chunks, n)
    requires forall i :: 0 <= i < |chunks| - 1 ==> |chunks[i]| == 2 * n
    ensures |chunks| * (2 * n) >= |Flatten(chunks)|
    ensures Concat(Emit(chunks, n).frames) == Flatten(chunks) + Zeros(|chunks| * (2 * n) - |Flatten(chunks)|)
  {
    if chunks != [] {
      var tail := chunks[1..];
      EmitConcat(tail, n);
      EmitWhole(chunks, n);
      EmitWhole(tail, n);
      var frames := Emit(chunks, n).frames;
      assert frames == [Padded(chunks[0], n)] + Emit(tail, n).frames;
      assert Concat(frames) == chunks[0] + Zeros(2 * n - |chunks[0]|) + Concat(Emit(tail, n).frames);
      assert Flatten(chunks) == chunks[0] + Flatten(tail);
      assert tail == [] ==> Flatten(tail) == [];
      PrependPadded(chunks[0], Flatten(tail), Concat(Emit(tail, n).frames), 2 * n, |tail|);
    }
  }

  /**
    The reads of a stream of whole samples are all whole samples; the reads of a stream
    that ends in half a sample are whole samples except the last one.
  */
  lemma ReadsShape(pcm: seq<Byte>, n: nat)
    requires n > 0
    ensures var r := Reads(pcm, 2 * n);
      |pcm| % 2 == 0 ==> WholeReads(r, n)
    ensures var r := Reads(pcm, 2 * n);
      |pcm| % 2 == 1 ==>
        |r| > 0 && |r[|r| - 1]| % 2 == 1 && WholeReads(r[..|r| - 1], n)
  {
    var r := Reads(pcm, 2 * n);
    ReadSizes(pcm, 2 * n);
    ReadParity(pcm, 2 * n);
    if |pcm| % 2 == 1 {
      assert !(forall i :: 0 <= i < |r| ==> |r[i]| % 2 == 0);
      var j := |r| - 1;
      assert forall i :: 0 <= i < j ==> r[..j][i] == r[i];
    }
  }

  /** Every emitted frame, the last one included, holds exactly `n` samples in the stream's format. */
  lemma FramesWellFormed(pcm: seq<Byte>, n: nat)
    requires n > 0
    ensures forall f <- Play(pcm, n).frames :: WellFormed(f, n) && |Samples(f)| == n
  {
    var chunks := Reads(pcm, 2 * n);
    ReadsShape(pcm, n);
    if |pcm| % 2 == 0 {
      EmitWhole(chunks, n);
    } else {
      var j := |chunks| - 1;
      EmitStops(chunks, n, j);
      EmitWhole(chunks[..j], n);
    }
  }

  /**
    Playback fails exactly when the stream ends in half a sample. Then every full frame
    before the odd tail has been emitted and the error names the tail's length.
  */
  lemma PlayError(pcm: seq<Byte>, n: nat)
    requires n > 0
    ensures Play(pcm, n).error.None? <==> |pcm| % 2 == 0
    ensures var k := |Play(pcm, n).frames|;
      Play(pcm, n).error.Some? ==>
        k * (2 * n) < |pcm| < k * (2 * n) + 2 * n &&
        Play(pcm, n).error.value == PartialSample(|pcm| - k * (2 * n))
  {
    var chunks := Reads(pcm, 2 * n);
    ReadsShape(pcm, n);
    ReadSizes(pcm, 2 * n);
    ReadCount(pcm, 2 * n);
    if |pcm| % 2 == 0 {
      EmitWhole(chunks, n);
    } else {
      var j := |chunks| - 1;
      EmitStops(chunks, n, j);
      EmitWhole(chunks[..j], n);
      ReadsFlatten(pcm, 2 * n);
      FlattenLast(chunks, 2 * n);
      Distribute(j, 2 * n);
    }
  }

  /** The last of several chunks is what is left after the full ones. */
  lemma {:induction false} FlattenLast(chunks: seq<seq<Byte>>, b: nat)
    requires chunks != []
    requires forall i :: 0 <= i < |chunks| - 1 ==> |chunks[i]| == b
    ensures |Flatten(chunks)| == (|chunks| - 1) * b + |chunks[|chunks| - 1]|
  {
    if |chunks| > 1 {
      FlattenLast(chunks[1..], b);
      Distribute(|chunks| - 1, b);
    }
  }

  /**
    For a stream of whole samples there is one frame per non-empty read:
    `(k - 1) * 2n < L <= k * 2n`, so an empty stream gives none.
  */
  lemma FrameCount(pcm: seq<Byte>, n: nat)
    requires n > 0 && |pcm| % 2 == 0
    ensures |Play(pcm, n).frames| == |Reads(pcm, 2 * n)|
    ensures var k := |Play(pcm, n).frames|;
      (k - 1) * (2 * n) < |pcm| <= k * (2 * n)
  {
    ReadsShape(pcm, n);
    ReadCount(pcm, 2 * n);
    EmitWhole(Reads(pcm, 2 * n), n);
  }

  /** Frame `i` holds the bytes of read `i`, followed by zeros up to a full frame: frames come in read order. */
  lemma FrameAt(pcm: seq<Byte>, n: nat, i: nat)
    requires n > 0 && i < |Play(pcm, n).frames|
    ensures i * (2 * n) < |pcm|
    ensures Play(pcm, n).frames[i] == Padded(Window(pcm, 2 * n, i), n)
  {
    var chunks := Reads(pcm, 2 * n);
    ReadsShape(pcm, n);
    if |pcm| % 2 == 0 {
      EmitWhole(chunks, n);
    } else {
      var j := |chunks| - 1;
      EmitStops(chunks, n, j);
      EmitWhole(chunks[..j], n);
      assert chunks[..j][i] == chunks[i];
    }
    ReadAt(pcm, 2 * n, i);
  }

  /** The emitted frames, concatenated, are the stream followed by the final frame's padding. */
  lemma FramesRoundTrip(pcm: seq<Byte>, n: nat)
    requires n > 0 && |pcm| % 2 == 0
    ensures var k := |Play(pcm, n).frames|;
      k * (2 * n) >= |pcm| && Concat(Play(pcm, n).frames) == pcm + Zeros(k * (2 * n) - |pcm|)
  {
    var chunks := Reads(pcm, 2 * n);
    ReadSizes(pcm, 2 * n);
    ReadsShape(pcm, n);
    ReadsFlatten(pcm, 2 * n);
    EmitConcat(chunks, n);
    EmitWhole(chunks, n);
  }

  /** Truncating the concatenated frames to the stream's length gives the stream back. */
  lemma StreamRecovered(pcm: seq<Byte>, n: nat)
    requires n > 0 && |pcm| % 2 == 0
    ensures |Concat(Play(pcm, n).frames)| >= |pcm|
    ensures Concat(Play(pcm, n).frames)[..|pcm|] == pcm
  {
    FramesRoundTrip(pcm, n);
  }

  lemma CeilingCount(len: nat, k: nat)
    requires (k - 1) * 960 < len <= k * 960
    ensures k == (len + 959) / 960
    ensures len % 960 == 0 ==> k * 960 == len
  {
  }

  /**
    With 480-sample frames, `L` bytes of whole samples give `ceil(L / 960)` frames, none for
    `L = 0`, and when `L` is a multiple of 960 the frames carry no padding at all.
  */
  lemma FrameCount480(pcm: seq<Byte>)
    requires |pcm| % 2 == 0
    ensures |Play(pcm, FrameSize).frames| == (|pcm| + BytesPerFrame - 1) / BytesPerFrame
    ensures |pcm| == 0 ==> Play(pcm, FrameSize).frames == []
    ensures |pcm| % BytesPerFrame == 0 ==> Concat(Play(pcm, FrameSize).frames) == pcm
  {
    FrameCount(pcm, FrameSize);
    FramesRoundTrip(pcm, FrameSize);
    var k := |Play(pcm, FrameSize).frames|;
    CeilingCount(|pcm|, k);
    if |pcm| % BytesPerFrame == 0 {
      assert pcm + Zeros(0) == pcm;
    }
  }

  /** A stream of exactly 480 samples gives exactly one frame, the stream itself, unpadded. */
  lemma OneFullFrame(pcm: seq<Byte>)
    requires |pcm| == BytesPerFrame
    ensures Play(pcm, FrameSize) == Playback([AudioFrame(pcm, SampleRate, NumChannels, FrameSize)], None)
  {
    FrameCount480(pcm);
    PlayError(pcm, FrameSize);
    FrameAt(pcm, FrameSize, 0);
    assert Window(pcm, BytesPerFrame, 0) == pcm;
    assert pcm + Zeros(0) == pcm;
  }

  /** 700 samples give two frames; the second holds the last 220 samples followed by 260 zeros. */
  lemma SevenHundredSamples(pcm: seq<Byte>)
    requires |pcm| == 1400
    ensures Play(pcm, FrameSize).error.None?
    ensures |Play(pcm, FrameSize).frames| == 2
    ensures Play(pcm, FrameSize).frames[0].data == pcm[..960]
    ensures |Play(pcm, FrameSize).frames[1].data| == 960
    ensures Samples(Play(pcm, FrameSize).frames[1]) == FromBuffer(pcm[960..]) + Silence(260)
    ensures |FromBuffer(pcm[960..])| == 220
  {
    var p := Play(pcm, FrameSize);
    FrameCount480(pcm);
    PlayError(pcm, FrameSize);
    FrameAt(pcm, FrameSize, 0);
    FrameAt(pcm, FrameSize, 1);
    assert Window(pcm, BytesPerFrame, 0) == pcm[..960];
    assert Window(pcm, BytesPerFrame, 1) == pcm[960..];
    assert pcm[..960] + Zeros(0) == pcm[..960];
    FrameBytes(pcm[960..], FrameSize);
    FrameSamples(pcm[960..], FrameSize);
    assert MakeFrame(pcm[960..], FrameSize).frame == p.frames[1];
  }
}
