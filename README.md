# Audio streamer over a persistent LiveKit room connection

This project models `livekit/src/tests/test-rtc-input.py` and proves properties of the model. The script joins a LiveKit room once and publishes one audio track. Then, each time a line is entered, it decodes an audio file with ffmpeg and streams it into the room.

The model has five parts:

- **Pcm** (`pcm.dfy`): signed 16-bit little-endian mono samples.
  - `FromBuffer` is `np.frombuffer(data, dtype=np.int16)` on an even-length buffer.
  - `ToBytes` is `tobytes()`.
  - `Silence` is the zero samples `np.pad` appends.
  - The two conversions are proved to be inverse to each other.
- **Decoder** (`decoder.dfy`): the ffmpeg process of `play_file`.
  - It is a `DecoderProcess` object holding the bytes the decoder writes to its standard output and a read position.
  - `read(size)` on the blocking buffered pipe returns `size` bytes, or what is left, and an empty result at end of stream.
  - `Reads` is the sequence of non-empty results that a read loop sees.
  - The lemmas prove the properties of `Reads`: the pieces concatenate to the stream, every piece except the last is full, the number of pieces is the ceiling, and the pieces come in stream order.
- **Chunker** (`chunker.dfy`): one pass of the `play_file` loop turns a read into an `AudioFrame`.
  - The read is converted to samples, padded with silence to 480 samples when short, and converted back to bytes, in the 24 kHz mono format.
  - `Play` is the whole sequence of frames one playback hands to `capture_frame`, plus the error that stops it early.
  - `np.frombuffer` raises on a read that ends in the middle of a sample, and that error is part of the model.
  - The lemmas prove the following:
    - every frame holds exactly 480 samples;
    - a short last read keeps its samples at the front, followed by zeros;
    - `L` bytes of whole samples (even `L`) give `ceil(L / 960)` frames;
    - frames arrive in read order;
    - for a stream of whole samples (even `L`), concatenating the frames and truncating to the input length gives the input back;
    - a stream that ends in half a sample stops after its full frames, with an error naming the odd tail.
- **Streamer** (`streamer.dfy`): the `AudioStreamer` class.
  - Its fields are the connection flags, the current track, the frames captured so far and a log of the steps taken on the room transport.
  - `Connect`, `PlayFile` (with its read loop `Pump`) and `Disconnect` are methods that update those fields under the same guards the class uses.
- **Control** (`control.dfy`): `main`.
  - Standard input is the sequence of lines `input()` returns. The first line is the room name.
  - Each later line is tested with `strip().lower() == "q"`: a line that passes quits, and any other line plays the file once.
  - `disconnect` runs on every way out.
  - `RunMain` states three things: the transport log of a whole run (join, publish and leave, each at most once), the frames captured (one full playback per command before the quit, or a single playback when it fails), and why the program stopped.

Network outcomes are parameters: whether `room.connect` and `publish_track` succeed. So are the environment (the three settings, possibly unset), whether the input file exists, and the bytes the decoder writes for the input file.

Two facts about the code shape the model:

- An exception raised while playing is not caught inside the command loop (lines 197-207). It leaves `main` through the `finally` at lines 209-210, which disconnects, so a failing play ends the program.
- The decoder's exit status is never inspected (lines 154-156): the process is terminated and waited for, and its return code is not read.

## Model

| member | source | states |
|---|---|---|
| Pcm.FromBuffer | livekit/src/tests/test-rtc-input.py:138 | an even-length buffer of `2k` bytes gives `k` samples |
| Pcm.FromBufferAt | livekit/src/tests/test-rtc-input.py:138 | sample `i` is the little-endian pair at bytes `2i` and `2i+1` |
| Pcm.ToBytes | livekit/src/tests/test-rtc-input.py:146 | `tobytes` writes two bytes per sample |
| Pcm.BytesSampleRoundTrip | livekit/src/tests/test-rtc-input.py:138-146 | re-encoding a decoded byte pair gives the pair back |
| Pcm.SampleBytesRoundTrip | livekit/src/tests/test-rtc-input.py:138-146 | decoding an encoded sample gives the sample back |
| Pcm.ToBytesFromBuffer | livekit/src/tests/test-rtc-input.py:138-146 | `frombuffer` followed by `tobytes` is the identity on even-length buffers |
| Pcm.FromBufferToBytes | livekit/src/tests/test-rtc-input.py:138-146 | `tobytes` followed by `frombuffer` is the identity on samples |
| Pcm.ToBytesConcat | livekit/src/tests/test-rtc-input.py:142-146 | the bytes of padded samples are the bytes of the samples, then those of the padding |
| Pcm.Silence | livekit/src/tests/test-rtc-input.py:142 | the padding `np.pad` appends is `k` zero samples |
| Pcm.Zeros | livekit/src/tests/test-rtc-input.py:142-146 | the padding's bytes are all zero |
| Pcm.ToBytesSilence | livekit/src/tests/test-rtc-input.py:142-146 | `k` silent samples are stored as `2k` zero bytes |
| Decoder.ReadResult | livekit/src/tests/test-rtc-input.py:133 | one `read(size)` returns the next bytes of the stream, at most `size`, fewer only at end of stream, and none exactly when the stream is exhausted |
| Decoder.ReadStep | livekit/src/tests/test-rtc-input.py:133-135 | an empty read happens only at end of stream; any other read is the first of the remaining reads |
| Decoder.ReadsFlatten | livekit/src/tests/test-rtc-input.py:132-135 | reading to end of stream and concatenating the reads gives the stream back |
| Decoder.ReadSizes | livekit/src/tests/test-rtc-input.py:129-135 | every read is non-empty and at most 960 bytes, and only the last may be short |
| Decoder.ReadCount | livekit/src/tests/test-rtc-input.py:132-135 | a stream of `L` bytes takes `k` reads with `(k-1)*size < L <= k*size` |
| Decoder.ReadAt | livekit/src/tests/test-rtc-input.py:132-135 | read `i` is bytes `i*size` up to `(i+1)*size` of the stream |
| Decoder.ReadParity | livekit/src/tests/test-rtc-input.py:129-138 | with an even read size, only the last read can be odd, and all are even exactly when the stream is |
| Decoder.DecoderProcess.Spawn | livekit/src/tests/test-rtc-input.py:122-126 | `Popen` gives a running decoder with nothing read |
| Decoder.DecoderProcess.Read | livekit/src/tests/test-rtc-input.py:133 | `stdout.read` returns the next bytes and advances the read position by their number |
| Decoder.DecoderProcess.Terminate | livekit/src/tests/test-rtc-input.py:155 | the decoder is signalled to stop |
| Decoder.DecoderProcess.Wait | livekit/src/tests/test-rtc-input.py:156 | the decoder is reaped |
| Chunker.PadSamples | livekit/src/tests/test-rtc-input.py:141-142 | a short sample array is extended to `n` samples, keeping its samples in order at the front and zeros after; a full one is unchanged |
| Chunker.MakeFrame | livekit/src/tests/test-rtc-input.py:138-150 | a read is refused, with its length, exactly when it ends in the middle of a sample |
| Chunker.FrameBytes | livekit/src/tests/test-rtc-input.py:138-150 | the frame of a whole-sample read is the read's bytes followed by zero bytes up to `2n` |
| Chunker.FrameSamples | livekit/src/tests/test-rtc-input.py:138-142 | the frame of a short read carries the read's samples, then `n - k` zero samples |
| Chunker.EmitCons | livekit/src/tests/test-rtc-input.py:132-152 | one read either contributes the next frame or stops emission with its error |
| Chunker.ResumeEnd | livekit/src/tests/test-rtc-input.py:133-135 | an empty read means the stream is exhausted and no frame is left to emit |
| Chunker.ResumeRefused | livekit/src/tests/test-rtc-input.py:133-138 | a read that is not whole samples stops playback with its error and emits nothing more |
| Chunker.ResumeFrame | livekit/src/tests/test-rtc-input.py:133-152 | a whole-sample read gives the next frame, and playback continues from the bytes after it |
| Chunker.EmitWhole | livekit/src/tests/test-rtc-input.py:132-152 | whole-sample reads of at most a frame give one padded frame per read, in order, with no error |
| Chunker.EmitStops | livekit/src/tests/test-rtc-input.py:138 | emission stops at the first odd read, after the frames of the reads before it |
| Chunker.EmitConcat | livekit/src/tests/test-rtc-input.py:133-152 | the frames of full reads and one last read, concatenated, are the reads followed by the padding |
| Chunker.ReadsShape | livekit/src/tests/test-rtc-input.py:129-138 | the reads of an even stream are all whole samples; an odd stream's reads are whole samples except the last |
| Chunker.FramesWellFormed | livekit/src/tests/test-rtc-input.py:128-150 | every frame handed to `capture_frame`, the last one included, holds exactly `n` samples (`2n` bytes) at 24 kHz mono |
| Chunker.PlayError | livekit/src/tests/test-rtc-input.py:138 | playback fails exactly when the stream ends in half a sample, after every full frame before the odd tail, and the error names the tail's length |
| Chunker.FrameCount | livekit/src/tests/test-rtc-input.py:132-135 | an even stream gives one frame per non-empty read, `k` with `(k-1)*2n < L <= k*2n` |
| Chunker.FrameAt | livekit/src/tests/test-rtc-input.py:133-152 | frame `i` is read `i` zero-filled to a full frame: frames reach the sink in read order |
| Chunker.FramesRoundTrip | livekit/src/tests/test-rtc-input.py:133-152 | for a stream of whole samples (even length), the frames concatenated are the stream followed by the final frame's padding |
| Chunker.StreamRecovered | livekit/src/tests/test-rtc-input.py:133-152 | for a stream of whole samples (even length), truncating the concatenated frames to the stream's length gives the stream back |
| Chunker.FrameCount480 | livekit/src/tests/test-rtc-input.py:128-135 | with 480-sample frames, `L` bytes of whole samples (even `L`) give `ceil(L/960)` frames, none for `L = 0`, and no padding when 960 divides `L` |
| Chunker.OneFullFrame | livekit/src/tests/test-rtc-input.py:128-150 | 480 samples give exactly one frame, the input itself |
| Chunker.SevenHundredSamples | livekit/src/tests/test-rtc-input.py:138-142 | 700 samples give two frames: the first 480 samples, then the last 220 followed by 260 zeros |
| Streamer.AudioStreamer.constructor | livekit/src/tests/test-rtc-input.py:23-29 | a new streamer is not connected, not publishing and has no track |
| Streamer.AudioStreamer.Connect | livekit/src/tests/test-rtc-input.py:31-71 | no change when already connected; missing or empty credentials fail before any change; a failed join changes nothing; after a join the streamer is connected with its track set, even if publishing then fails; only a successful publish sets publishing |
| Streamer.AudioStreamer.PlayFile | livekit/src/tests/test-rtc-input.py:73-156 | refused with no effect when not connected; otherwise every frame of the playback is captured in order, the failure is reported when the stream has a partial sample, and the decoder is terminated and reaped either way |
| Streamer.AudioStreamer.Pump | livekit/src/tests/test-rtc-input.py:131-152 | the read loop captures exactly the frames the unread part of the stream gives, and stops at end of stream or at the first partial sample |
| Streamer.AudioStreamer.Disconnect | livekit/src/tests/test-rtc-input.py:159-164 | afterwards the streamer is not connected; the room is left only if it was connected, so a second call does nothing; the track and publishing flag are unchanged |
| Control.TrimStartSpec | livekit/src/tests/test-rtc-input.py:185 | stripping the front removes exactly the leading white space |
| Control.TrimEndSpec | livekit/src/tests/test-rtc-input.py:185 | stripping the end removes exactly the trailing white space |
| Control.LowerChar | livekit/src/tests/test-rtc-input.py:203 | a character lowers to `q` exactly when it is `q` or `Q` |
| Control.Lower | livekit/src/tests/test-rtc-input.py:203 | lowering keeps the length and maps each character |
| Control.QuitIff | livekit/src/tests/test-rtc-input.py:203 | a line quits exactly when it holds a single `q` or `Q` and nothing else but white space |
| Control.FirstQuit | livekit/src/tests/test-rtc-input.py:197-204 | the loop stops at a line no earlier than the first one it reads and no later than the end of input |
| Control.FirstQuitIsFirst | livekit/src/tests/test-rtc-input.py:197-204 | the line the loop stops at quits (unless input ran out), and no earlier line does |
| Control.RepeatLength | livekit/src/tests/test-rtc-input.py:197-207 | `m` plays capture `m` times the frames of one play |
| Control.Command | livekit/src/tests/test-rtc-input.py:199-207 | a line that quits captures nothing; any other line plays the file exactly once and reports its outcome |
| Control.CommandLoop | livekit/src/tests/test-rtc-input.py:197-207 | the loop plays once per line before the first quit line, stops early on a failing play, and ends with that failure, the quit, or the end of input |
| Control.RunMain | livekit/src/tests/test-rtc-input.py:167-210 | a missing input file, a missing or empty room name and end of input stop before a streamer exists; otherwise the room is joined at most once, published at most once and left exactly once when joined, and the frames captured are one full playback per command before the quit, or a single playback when that play fails |

## Left out

- The ffprobe duration probe is not modelled. It only feeds a log line, and its failure does not stop playback.
- Access-token construction, the JWT and the random participant identity are not modelled. Only the rule that all three settings must be set and non-empty is.
- Reading the environment is not modelled: the three settings are a parameter. The `.env.local` file and `load_dotenv` are not part of this model.
- The ffmpeg arguments, ffmpeg failing to start, and its standard error are not modelled. The decoder is represented by the bytes it writes to standard output.
- `room.connect`, `publish_track` and `room.disconnect` become steps in a log. The success or failure of the first two is a parameter, and `room.disconnect` is taken to succeed.
- `capture_frame` pacing, the asyncio event loop and the executor that runs `input()` are not modelled. Frames are appended to the captured sequence in order.
- `capture_frame` raising is not modelled, for example when the audio source rejects a frame. Every frame the chunker produces is taken to be accepted.
- Cancellation is not modelled: a `KeyboardInterrupt` or `CancelledError` during a play or while waiting at `input()`. The `finally` blocks would then terminate the decoder and disconnect, but no exit value stands for it.
- Control.RunMain: every play of the input file is taken to decode to the same bytes `pcm`. The captured frames are therefore repetitions of one playback. A file that changes between plays, or a decoder whose output varies, is not modelled.
- Streamer.AudioStreamer.PlayFile: "terminated and reaped on every way out" covers the two exits the model has, end of stream and a read that ends in half a sample. Exits through exceptions that are not modelled (a failing `capture_frame`, cancellation) are not covered.
- Logging is not modelled.
- argparse and its default input path are not modelled. `os.path.isfile` becomes a boolean parameter.
- Exceptions become exit values. `main` raising `ValueError` becomes `InputNotFound`, `EmptyRoomName` or `Failed(MissingCredentials)`. The end-of-file error of `input()` becomes `EndOfInput`.
- Control.Lower: maps only the ASCII capitals, not all of Unicode's case mappings. For the one comparison the program makes it is exact: `Control.LowerChar` and `Control.QuitIff` show that only `q` and `Q` lower to `q`.
- Streamer.AudioStreamer.Connect: an exception from token construction is not modelled. Only a failed join and a failed publish are.
