/**
  `AudioStreamer`: one persistent room connection with one published audio track,
  over which a decoded file can be played any number of times. The room transport,
  token issuance and the decoder program are outside the model: the outcome of each
  network step is a parameter, and the decoder is represented by the bytes it writes.
*/
module Streamer {
  import opened Options
  import opened Pcm
  import opened Decoder
  import opened Chunker

  /** The three connection settings read from the environment; `None` when a variable is unset. */
  datatype Environment = Environment(url: Option<string>, apiKey: Option<string>, apiSecret: Option<string>)

  /** Python truthiness of an environment value: set and not the empty string. */
  predicate Truthy(v: Option<string>)
  {
    v.Some? && v.value != ""
  }

  /** `all([livekit_url, livekit_api_key, livekit_api_secret])`. */
  predicate HasCredentials(env: Environment)
  {
    Truthy(env.url) && Truthy(env.apiKey) && Truthy(env.apiSecret)
  }

  datatype Track = LocalAudioTrack(name: string)

  /** The one track the streamer creates and publishes. */
  const StreamedAudio: Track := LocalAudioTrack("streamed-audio")

  /** The steps taken on the room transport, which is otherwise opaque. */
  datatype TransportStep = Join(url: string, room: string) | Publish(track: Track) | Leave

  datatype StreamError =
    | MissingCredentials      // ValueError before any connection attempt
    | JoinFailed              // room.connect raised
    | PublishFailed           // publish_track raised
    | NotConnected            // play_file before a successful connect
    | BadChunk(chunk: ChunkError)

  datatype Status = Ok | Fail(error: StreamError)

  class AudioStreamer {
    const roomName: string
    var isConnected: bool
    var isPublishing: bool
    var currentTrack: Option<Track>
    /** The frames the audio source has accepted through `capture_frame`, in order. */
    var captured: seq<AudioFrame>
    /** The steps taken on the room, in order. */
    var transport: seq<TransportStep>

    constructor (roomName: string)
      ensures this.roomName == roomName
      ensures !isConnected && !isPublishing && currentTrack == None
      ensures captured == [] && transport == []
    {
      this.roomName := roomName;
      isConnected := false;
      isPublishing := false;
      currentTrack := None;
      captured := [];
      transport := [];
    }

    /**
      Join the room once and publish the track. `joinOk` and `publishOk` are the outcomes
      of `room.connect` and `publish_track`. The connection is recorded before the publish
      step, so a failed publish leaves the streamer connected but not publishing.
    */
    method Connect(env: Environment, joinOk: bool, publishOk: bool) returns (status: Status)
      modifies this`isConnected, this`isPublishing, this`currentTrack, this`transport
      ensures old(isConnected) ==> status == Ok && unchanged(this)
      ensures !old(isConnected) && !HasCredentials(env) ==>
        status == Fail(MissingCredentials) && unchanged(this)
      ensures !old(isConnected) && HasCredentials(env) && !joinOk ==>
        status == Fail(JoinFailed) && unchanged(this)
      ensures !old(isConnected) && HasCredentials(env) && joinOk ==>
        isConnected && currentTrack == Some(StreamedAudio) &&
        isPublishing == (publishOk || old(isPublishing)) &&
        status == (if publishOk then Ok else Fail(PublishFailed)) &&
        transport == old(transport) + [Join(env.url.value, roomName)] +
                     (if publishOk then [Publish(StreamedAudio)] else [])
    {
      if isConnected {
        return Ok;
      }
      if !HasCredentials(env) {
        return Fail(MissingCredentials);
      }
      if !joinOk {
        return Fail(JoinFailed);
      }
      transport := transport + [Join(env.url.value, roomName)];
      isConnected := true;
      var track := StreamedAudio;
      currentTrack := Some(track);
      if !publishOk {
        return Fail(PublishFailed);
      }
      transport := transport + [Publish(track)];
      isPublishing := true;
      status := Ok;
    }

    /**
      Play one file whose decoded output is `pcm`: refused when not connected; otherwise
      spawn the decoder, hand every frame of `Play(pcm, FrameSize)` to the audio source in
      order, and terminate and reap the decoder on every way out of the loop.
    */
    method PlayFile(pcm: seq<Byte>) returns (status: Status, proc: DecoderProcess?)
      modifies this`captured
      ensures !old(isConnected) ==>
        status == Fail(NotConnected) && proc == null && captured == old(captured)
      ensures old(isConnected) ==>
        proc != null && fresh(proc) && proc.stdout == pcm && proc.terminated && proc.reaped &&
        captured == old(captured) + Play(pcm, FrameSize).frames &&
        status == if Play(pcm, FrameSize).error.None? then Ok
                  else Fail(BadChunk(Play(pcm, FrameSize).error.value))
    {
      if !isConnected {
        return Fail(NotConnected), null;
      }
      proc := new DecoderProcess.Spawn(pcm);
      assert pcm[0..] == pcm;
      status := Pump(proc);
      proc.Terminate();
      proc.Wait();
    }

    /**
      The read loop of `PlayFile`: read frame-sized chunks from the decoder until it
      reports end of output, turning each into a frame for the audio source; a chunk
      that is not a whole number of samples ends the loop with its error.
    */
    method Pump(proc: DecoderProcess) returns (status: Status)
      requires proc.Valid()
      modifies this`captured, proc`consumed
      ensures proc.Valid()
      ensures captured == old(captured) + Resume(proc.stdout, old(proc.consumed), FrameSize).frames
      ensures status == if Resume(proc.stdout, old(proc.consumed), FrameSize).error.None? then Ok
                        else Fail(BadChunk(Resume(proc.stdout, old(proc.consumed), FrameSize).error.value))
    {
      status := Ok;
      ghost var whole := Resume(proc.stdout, proc.consumed, FrameSize);
      while true
        invariant proc.Valid()
        invariant old(captured) + whole.frames == captured + Resume(proc.stdout, proc.consumed, FrameSize).frames
        invariant whole.error == Resume(proc.stdout, proc.consumed, FrameSize).error
        decreases |proc.stdout| - proc.consumed
      {
        ghost var pos := proc.consumed;
        var data := proc.Read(BytesPerFrame);
        if data == [] {
          ResumeEnd(proc.stdout, pos, FrameSize);
          assert captured + [] == captured;
          break;
        }
        var frame := MakeFrame(data, FrameSize);
        FrameBytes(data, FrameSize);
        if frame.Refused? {
          ResumeRefused(proc.stdout, pos, FrameSize);
          assert captured + [] == captured;
          status := Fail(BadChunk(frame.error));
          break;
        }
        ResumeFrame(proc.stdout, pos, FrameSize);
        ghost var rest := Resume(proc.stdout, proc.consumed, FrameSize).frames;
        assert captured + ([frame.frame] + rest) == (captured + [frame.frame]) + rest;
        captured := captured + [frame.frame];
      }
    }

    /** Leave the room if connected; otherwise do nothing. The track and the publishing flag are left as they are. */
    method Disconnect()
      modifies this`isConnected, this`transport
      ensures !isConnected
      ensures transport == old(transport) + (if old(isConnected) then [Leave] else [])
    {
      if isConnected {
        transport := transport + [Leave];
        isConnected := false;
      }
    }
  }
}
