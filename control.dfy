/**
  The program's `main`: read a room name from standard input, connect once, then play
  the input file each time a line other than `q` is entered, and leave the room on
  every way out. Standard input is the sequence of lines `input()` returns, without
  their line ends; running out of lines is the end-of-file error `input()` raises.
*/
module Control {
  import opened Options
  import opened Pcm
  import opened Chunker
  import opened Streamer

  /** Python's `str.isspace`: the characters `str.strip()` removes. */
  predicate IsSpace(c: char)
  {
    c == ' ' || '\t' <= c <= '\r' || '\U{1C}' <= c <= '\U{1F}' || c == '\U{85}' || c == '\U{A0}' ||
    c == '\U{1680}' || '\U{2000}' <= c <= '\U{200A}' || c == '\U{2028}' || c == '\U{2029}' ||
    c == '\U{202F}' || c == '\U{205F}' || c == '\U{3000}'
  }

  /** `s` without its leading white space. */
  function TrimStart(s: string): (r: string)
    ensures |r| <= |s|
  {
    if s != [] && IsSpace(s[0]) then TrimStart(s[1..]) else s
  }

  /** `s` without its trailing white space. */
  function TrimEnd(s: string): (r: string)
    ensures |r| <= |s|
  {
    if s != [] && IsSpace(s[|s| - 1]) then TrimEnd(s[..|s| - 1]) else s
  }

  /** Trimming the start keeps a suffix, removes only white space, and stops at a character that is not. */
  lemma {:induction false} TrimStartSpec(s: string)
    ensures TrimStart(s) == s[|s| - |TrimStart(s)|..]
    ensures forall i :: 0 <= i < |s| - |TrimStart(s)| ==> IsSpace(s[i])
    ensures TrimStart(s) != [] ==> !IsSpace(TrimStart(s)[0])
  {
    if s != [] && IsSpace(s[0]) {
      TrimStartSpec(s[1..]);
      forall i | 1 <= i < |s| - |TrimStart(s)| ensures IsSpace(s[i]) {
        assert s[i] == s[1..][i - 1];
      }
    }
  }

  /** Trimming the end keeps a prefix, removes only white space, and stops at a character that is not. */
  lemma {:induction false} TrimEndSpec(s: string)
    ensures TrimEnd(s) == s[..|TrimEnd(s)|]
    ensures forall i :: |TrimEnd(s)| <= i < |s| ==> IsSpace(s[i])
    ensures TrimEnd(s) != [] ==> !IsSpace(TrimEnd(s)[|TrimEnd(s)| - 1])
  {
    if s != [] && IsSpace(s[|s| - 1]) {
      TrimEndSpec(s[..|s| - 1]);
      forall i | |TrimEnd(s)| <= i < |s| - 1 ensures IsSpace(s[i]) {
        assert s[i] == s[..|s| - 1][i];
      }
    }
  }

  /** `str.strip()`. */
  function Strip(s: string): string
  {
    TrimEnd(TrimStart(s))
  }

  /** `str.lower()` on one character, for the ASCII letters. */
  function LowerChar(c: char): (l: char)
    ensures l == 'q' <==> c == 'q' || c == 'Q'
  {
    if 'A' <= c <= 'Z' then (c as int + 32) as char else c
  }

  /** `str.lower()`, character by character. */
  function Lower(s: string): (r: string)
    ensures |r| == |s|
    ensures forall i :: 0 <= i < |s| ==> r[i] == LowerChar(s[i])
  {
    if s == [] then [] else [LowerChar(s[0])] + Lower(s[1..])
  }

  /** The test that ends the command loop: `input_value.strip().lower() == "q"`. */
  predicate IsQuit(line: string)
  {
    Lower(Strip(line)) == "q"
  }

  /** `line` holds a `q` or `Q` at `i` and nothing but white space elsewhere. */
  predicate LoneQ(line: string, i: int)
  {
    0 <= i < |line| && (line[i] == 'q' || line[i] == 'Q') &&
    forall j :: 0 <= j < |line| && j != i ==> IsSpace(line[j])
  }

  /** A line quits exactly when it holds one `q` or `Q` and nothing else but white space. */
  lemma QuitIff(line: string)
    ensures IsQuit(line) ==> exists i :: LoneQ(line, i)
    ensures (exists i :: LoneQ(line, i)) ==> IsQuit(line)
  {
    var t := TrimStart(line);
    var r := TrimEnd(t);
    var lead := |line| - |t|;
    TrimStartSpec(line);
    TrimEndSpec(t);
    if IsQuit(line) {
      assert |r| == 1 && LowerChar(r[0]) == 'q';
      assert line[lead] == r[0];
      forall j | 0 <= j < |line| && j != lead ensures IsSpace(line[j]) {
        if j > lead {
          assert line[j] == t[j - lead];
        }
      }
      assert LoneQ(line, lead);
    }
    if i :| LoneQ(line, i) {
      assert !IsSpace(line[i]);
      assert lead <= i;
      assert lead == i by {
        if |t| > 0 { assert t[0] == line[lead]; }
      }
      assert t[0] == line[i];
      assert |r| == 1;
      assert r == [line[i]];
    }
  }

  /**
    The index of the first line from `from` on that quits, or `|lines|` when none does:
    the line at which the command loop stops.
  */
  function FirstQuit(lines: seq<string>, from: nat): (k: nat)
    requires from <= |lines|
    ensures from <= k <= |lines|
    decreases |lines| - from
  {
    if from == |lines| || IsQuit(lines[from]) then from else FirstQuit(lines, from + 1)
  }

  /** The loop stops at a line that quits, or at the end, and at no earlier line. */
  lemma {:induction false} FirstQuitIsFirst(lines: seq<string>, from: nat)
    requires from <= |lines|
    ensures FirstQuit(lines, from) < |lines| ==> IsQuit(lines[FirstQuit(lines, from)])
    ensures forall i :: from <= i < FirstQuit(lines, from) ==> !IsQuit(lines[i])
    decreases |lines| - from
  {
    if from < |lines| && !IsQuit(lines[from]) {
      FirstQuitIsFirst(lines, from + 1);
    }
  }

  /** `frames` handed to the audio source `m` times over. */
  function Repeat(frames: seq<AudioFrame>, m: nat): seq<AudioFrame>
  {
    if m == 0 then [] else Repeat(frames, m - 1) + frames
  }

  /** Playing the file `m` times captures `m` times as many frames as one playback. */
  lemma {:induction false} RepeatLength(frames: seq<AudioFrame>, m: nat)
    ensures |Repeat(frames, m)| == m * |frames|
  {
    if m > 0 {
      RepeatLength(frames, m - 1);
      assert m * |frames| == (m - 1) * |frames| + |frames|;
    }
  }

  /** Why the program stopped. */
  datatype Exit =
    | InputNotFound          // the input file does not exist
    | EndOfInput             // `input()` found standard input exhausted
    | EmptyRoomName          // the room name was empty after stripping
    | Quit                   // a `q` line
    | Failed(error: StreamError)

  /** How connecting a fresh streamer ends. */
  function ConnectOutcome(env: Environment, joinOk: bool, publishOk: bool): Status
  {
    if !HasCredentials(env) then Fail(MissingCredentials)
    else if !joinOk then Fail(JoinFailed)
    else if !publishOk then Fail(PublishFailed)
    else Ok
  }

  /** The room steps of a whole run once the streamer exists: join, publish, leave, as far as each got. */
  function Session(env: Environment, joinOk: bool, publishOk: bool, room: string): seq<TransportStep>
  {
    if !HasCredentials(env) || !joinOk then []
    else if publishOk then [Join(env.url.value, room), Publish(StreamedAudio), Leave]
    else [Join(env.url.value, room), Leave]
  }

  /**
    How many times the file is played when `stdin` holds the room name and then the
    commands: once per command before the quit, or only once if that play fails.
  */
  function PlayCount(stdin: seq<string>, played: Playback): nat
    requires stdin != []
  {
    var k := FirstQuit(stdin, 1) - 1;
    if played.error.None? || k == 0 then k else 1
  }

  /** Why the command loop stops: the failing play, else the quit line, else the end of input. */
  function CommandExit(stdin: seq<string>, played: Playback): Exit
    requires stdin != []
  {
    var k := FirstQuit(stdin, 1) - 1;
    if k > 0 && played.error.Some? then Failed(BadChunk(played.error.value))
    else if k + 1 < |stdin| then Quit
    else EndOfInput
  }

  /** Why a run that got as far as creating the streamer stops. */
  function RunExit(stdin: seq<string>, env: Environment, joinOk: bool, publishOk: bool, pcm: seq<Byte>): Exit
    requires stdin != []
  {
    if ConnectOutcome(env, joinOk, publishOk).Fail? then Failed(ConnectOutcome(env, joinOk, publishOk).error)
    else CommandExit(stdin, Play(pcm, FrameSize))
  }

  /**
    One pass of the command loop on the line just read: a line that quits is reported;
    any other line plays the file once on the connected streamer.
  */
  method Command(streamer: AudioStreamer, line: string, pcm: seq<Byte>, ghost whole: Playback)
    returns (quit: bool, status: Status)
    requires streamer.isConnected && whole == Play(pcm, FrameSize)
    modifies streamer`captured
    ensures streamer.isConnected
    ensures quit == IsQuit(line)
    ensures quit ==> status == Ok && streamer.captured == old(streamer.captured)
    ensures !quit ==> streamer.captured == old(streamer.captured) + whole.frames
    ensures !quit ==> status == if whole.error.None? then Ok else Fail(BadChunk(whole.error.value))
  {
    if IsQuit(line) {
      return true, Ok;
    }
    var proc;
    status, proc := streamer.PlayFile(pcm);
    quit := false;
  }

  /**
    The command loop of `main` over a connected streamer: read a line, stop at end of
    input or at a `q` line, otherwise play the file; a failing play ends the loop.
  */
  method CommandLoop(streamer: AudioStreamer, stdin: seq<string>, pcm: seq<Byte>, ghost whole: Playback)
    returns (exit: Exit)
    requires stdin != [] && streamer.isConnected && streamer.captured == []
    requires whole == Play(pcm, FrameSize)
    modifies streamer`captured
    ensures streamer.captured == Repeat(whole.frames, PlayCount(stdin, whole))
    ensures exit == CommandExit(stdin, whole)
  {
    ghost var last := FirstQuit(stdin, 1);
    exit := EndOfInput;
    var next := 1;
    while true
      invariant 1 <= next <= |stdin|
      invariant streamer.isConnected
      invariant FirstQuit(stdin, next) == last
      invariant streamer.captured == Repeat(whole.frames, next - 1)
      invariant next == 1 || whole.error.None?
      decreases |stdin| - next
    {
      if next == |stdin| {
        assert FirstQuit(stdin, next) == next;
        exit := EndOfInput;
        break;
      }
      var quit, played := Command(streamer, stdin[next], pcm, whole);
      if quit {
        assert FirstQuit(stdin, next) == next;
        exit := Quit;
        break;
      }
      assert FirstQuit(stdin, next) == FirstQuit(stdin, next + 1);
      next := next + 1;
      if played.Fail? {
        exit := Failed(played.error);
        break;
      }
    }
    assert next - 1 == PlayCount(stdin, whole);
  }

  /**
    `main`. `inputExists` is whether the input file is present, `stdin` the lines
    entered, `joinOk`/`publishOk` the outcomes of the two room steps and `pcm` what the
    decoder writes for the input file each time it is played.
  */
  method RunMain(inputExists: bool, stdin: seq<string>, env: Environment, joinOk: bool, publishOk: bool,
                 pcm: seq<Byte>)
    returns (exit: Exit, streamer: AudioStreamer?)
    ensures !inputExists ==> exit == InputNotFound && streamer == null
    ensures inputExists && stdin == [] ==> exit == EndOfInput && streamer == null
    ensures inputExists && stdin != [] && Strip(stdin[0]) == "" ==> exit == EmptyRoomName && streamer == null
    ensures inputExists && stdin != [] && Strip(stdin[0]) != "" ==>
      streamer != null && fresh(streamer) && streamer.roomName == Strip(stdin[0]) && !streamer.isConnected
    ensures inputExists && stdin != [] && Strip(stdin[0]) != "" ==>
      streamer != null && streamer.transport == Session(env, joinOk, publishOk, Strip(stdin[0]))
    ensures inputExists && stdin != [] && Strip(stdin[0]) != "" ==>
      streamer != null &&
      streamer.captured == Repeat(Play(pcm, FrameSize).frames,
                                  if ConnectOutcome(env, joinOk, publishOk).Ok? then PlayCount(stdin, Play(pcm, FrameSize)) else 0)
    ensures inputExists && stdin != [] && Strip(stdin[0]) != "" ==>
      exit == RunExit(stdin, env, joinOk, publishOk, pcm)
  {
    if !inputExists {
      return InputNotFound, null;
    }
    if stdin == [] {
      return EndOfInput, null;
    }
    var roomName := Strip(stdin[0]);
    if roomName == "" {
      return EmptyRoomName, null;
    }
    streamer := new AudioStreamer(roomName);
    var status := streamer.Connect(env, joinOk, publishOk);
    assert status == ConnectOutcome(env, joinOk, publishOk);
    if status.Fail? {
      assert streamer.captured == Repeat(Play(pcm, FrameSize).frames, 0);
      ghost var joined := streamer.transport;
      assert joined == (if status == Fail(PublishFailed) then [Join(env.url.value, roomName)] else []);
      streamer.Disconnect();
      assert streamer.transport == joined + (if status == Fail(PublishFailed) then [Leave] else []);
      return Failed(status.error), streamer;
    }
    exit := CommandLoop(streamer, stdin, pcm, Play(pcm, FrameSize));
    assert streamer.transport + [Leave] == Session(env, joinOk, publishOk, roomName);
    streamer.Disconnect();
  }
}
