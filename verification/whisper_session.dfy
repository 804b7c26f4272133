/**
 * The per-connection loop of the speech-to-text WebSocket server
 * (rs-coder/scripts/whisper_ws_server.py, handle_websocket). A connection
 * carries JSON text commands (start, stop, ping, info) and binary audio
 * chunks; the handler keeps the chunks received since the last start, the
 * audio format and sample rate that start announced, and whether it is
 * recording. On stop it joins the chunks, converts them to WAV when the
 * format asks for it, and transcribes.
 *
 * JSON decoding, the ffmpeg conversion, the WAV wrapping of raw PCM and
 * the transcription itself are not modelled: a text message arrives
 * already decoded (or marked undecodable), and the three audio steps are
 * functions supplied with the connection.
 */
module RecordingSession {
  import opened Wrappers

  type Bytes = seq<bv8>

  /** SAMPLE_RATE, the default sample rate of a recording. */
  const SampleRate: int := 16000

  /** A message from the client: text that did or did not decode as JSON, or a binary audio chunk. */
  datatype Inbound = Text(parsed: Option<Json>) | Binary(data: Bytes)

  /** The kinds of message the server sends back, with the fields the session decides. */
  datatype Outbound =
    | Recording                          // status "recording", the reply to start
    | Receiving(chunks: nat, bytes: nat) // status "receiving", the periodic acknowledgement
    | NoAudio                            // error "No audio data received"
    | ConvertFailed                      // error "Failed to convert audio format"
    | Transcribing                       // status "transcribing"
    | Transcript(text: string)           // the transcription result
    | TranscriptionFailed(reason: string) // error "Transcription failed: ..."
    | Pong                               // the reply to ping
    | Info                               // the reply to info

  /** What transcribe_audio does with the WAV bytes: a text, or an exception with its message. */
  datatype Transcription = Transcribed(text: string) | TranscribeError(reason: string)

  /**
   * The audio back end of the connection: convert_webm_to_wav (None when
   * ffmpeg fails), pcm_to_wav with the session's sample rate (None when it
   * raises) and transcribe_audio.
   */
  datatype Backend = Backend(
    convert: Bytes -> Option<Bytes>,
    wrapPcm: (Bytes, Json) -> Option<Bytes>,
    transcribe: Bytes -> Transcription)

  /** The per-connection state: audio_chunks, audio_format, sample_rate and is_recording. */
  datatype Session = Session(chunks: seq<Bytes>, format: Json, sampleRate: Json, recording: bool)

  /** The state of a new connection. */
  const Fresh: Session := Session([], JNull, JNumber(SampleRate), false)

  /** What one message does: the new state, the messages sent, and whether the connection handler ended. */
  datatype Reaction = Reaction(session: Session, sent: seq<Outbound>, ended: bool)

  // ---------------------------------------------------------------------
  // Audio bookkeeping

  /** `sum(len(c) for c in audio_chunks)`. */
  function TotalBytes(chunks: seq<Bytes>): nat
    decreases |chunks|
  {
    if chunks == [] then 0 else TotalBytes(chunks[..|chunks| - 1]) + |chunks[|chunks| - 1]|
  }

  /** `b''.join(audio_chunks)`: the chunks back to back, in arrival order. */
  function Concat(chunks: seq<Bytes>): (r: Bytes)
    ensures |r| == TotalBytes(chunks)
    ensures |chunks| > 0 ==> r[|r| - |chunks[|chunks| - 1]|..] == chunks[|chunks| - 1]
    decreases |chunks|
  {
    if chunks == [] then [] else Concat(chunks[..|chunks| - 1]) + chunks[|chunks| - 1]
  }

  /** Every chunk sits in the joined audio at the offset of the bytes before it. */
  lemma {:induction false} ConcatHoldsChunks(chunks: seq<Bytes>, k: nat)
    requires k < |chunks|
    ensures var at := TotalBytes(chunks[..k]);
      at + |chunks[k]| <= |Concat(chunks)| && Concat(chunks)[at..at + |chunks[k]|] == chunks[k]
    decreases |chunks|
  {
    var n := |chunks| - 1;
    var init := chunks[..n];
    assert Concat(chunks) == Concat(init) + chunks[n];
    if k < n {
      assert init[..k] == chunks[..k];
      ConcatHoldsChunks(init, k);
    } else {
      assert chunks[..k] == init;
    }
  }

  // ---------------------------------------------------------------------
  // One message

  /** `data.get(key, default)`. */
  function Get(fields: map<string, Json>, key: string, default: Json): Json {
    if key in fields then fields[key] else default
  }

  /**
   * `data.get('type', data.get('command', ''))`. The contract takes the
   * nested lookups apart into their three cases: "type" wins over
   * "command", and with neither the command is the empty string.
   */
  function Command(fields: map<string, Json>): (cmd: Json)
    ensures "type" in fields ==> cmd == fields["type"]
    ensures "type" !in fields && "command" in fields ==> cmd == fields["command"]
    ensures "type" !in fields && "command" !in fields ==> cmd == JString("")
  {
    Get(fields, "type", Get(fields, "command", JString("")))
  }

  /** `audio_format in ('webm', 'opus', 'ogg')`: the formats that go through ffmpeg. */
  predicate Compressed(format: Json) {
    format == JString("webm") || format == JString("opus") || format == JString("ogg")
  }

  /** The reply to a transcription attempt. */
  function ReplyTo(t: Transcription): (o: Outbound)
    ensures t.Transcribed? ==> o == Transcript(t.text)
    ensures t.TranscribeError? ==> o == TranscriptionFailed(t.reason)
  {
    match t
    case Transcribed(text) => Transcript(text)
    case TranscribeError(reason) => TranscriptionFailed(reason)
  }

  /**
   * The state start sets up from its command object: an empty buffer,
   * recording on, and the announced format and sample rate, "webm" and
   * 16000 when absent. The contract states each field against the command
   * object itself rather than through the lookup helper.
   */
  function Started(fields: map<string, Json>): (s: Session)
    ensures s.chunks == [] && s.recording
    ensures s.format == (if "format" in fields then fields["format"] else JString("webm"))
    ensures s.sampleRate == (if "sampleRate" in fields then fields["sampleRate"] else JNumber(SampleRate))
  {
    Session([], Get(fields, "format", JString("webm")), Get(fields, "sampleRate", JNumber(SampleRate)), true)
  }

  /** The transcription step of stop, once the audio is WAV. */
  function TranscribeStep(s: Session, wav: Bytes, backend: Backend): Reaction {
    Reaction(s.(chunks := []), [Transcribing, ReplyTo(backend.transcribe(wav))], false)
  }

  /** The stop command. */
  function StopStep(s: Session, backend: Backend): Reaction {
    var s := s.(recording := false);
    if s.chunks == [] then Reaction(s, [NoAudio], false)
    else
      var combined := Concat(s.chunks);
      if Compressed(s.format) then
        var wav := backend.convert(combined);
        if wav.None? then Reaction(s, [ConvertFailed], false)
        else TranscribeStep(s, wav.value, backend)
      else if s.format == JString("pcm") then
        var wav := backend.wrapPcm(combined, s.sampleRate);
        if wav.None? then Reaction(s, [], true)
        else TranscribeStep(s, wav.value, backend)
      else TranscribeStep(s, combined, backend)
  }

  /**
   * What one inbound message does. Undecodable JSON is ignored; a decoded
   * value that is not an object has no `get`, and the exception ends the
   * handler, as does pcm_to_wav raising.
   */
  function Step(s: Session, message: Inbound, backend: Backend): Reaction {
    match message
    case Binary(data) =>
      if !s.recording then Reaction(s, [], false)
      else
        var chunks := s.chunks + [data];
        Reaction(s.(chunks := chunks), if |chunks| % 10 == 0 then [Receiving(|chunks|, TotalBytes(chunks))] else [], false)
    case Text(parsed) =>
      if parsed.None? then Reaction(s, [], false)
      else if !parsed.value.JObject? then Reaction(s, [], true)
      else
        var fields := parsed.value.fields;
        var cmd := Command(fields);
        if cmd == JString("start") then Reaction(Started(fields), [Recording], false)
        else if cmd == JString("stop") then StopStep(s, backend)
        else if cmd == JString("ping") then Reaction(s, [Pong], false)
        else if cmd == JString("info") then Reaction(s, [Info], false)
        else Reaction(s, [], false)
  }

  /** The messages sent before a reaction, prepended to it. */
  function After(sent: seq<Outbound>, r: Reaction): Reaction {
    Reaction(r.session, sent + r.sent, r.ended)
  }

  /** The messages of a connection, handled in order until they run out or the handler ends. */
  function Run(s: Session, messages: seq<Inbound>, backend: Backend): Reaction
    decreases |messages|
  {
    if messages == [] then Reaction(s, [], false)
    else
      var r := Step(s, messages[0], backend);
      if r.ended then r else After(r.sent, Run(r.session, messages[1..], backend))
  }

  // ---------------------------------------------------------------------
  // The handler loop

  /**
   * handle_websocket over the messages of one connection: the sequence of
   * messages it sends is the one the specification Run gives.
   */
  method HandleConnection(messages: seq<Inbound>, backend: Backend) returns (sent: seq<Outbound>)
    ensures sent == Run(Fresh, messages, backend).sent
  {
    var audioChunks: seq<Bytes> := [];
    var audioFormat := JNull;
    var sampleRate := JNumber(SampleRate);
    var isRecording := false;
    sent := [];
    var i := 0;
    while i < |messages|
      invariant 0 <= i <= |messages|
      invariant Run(Fresh, messages, backend) ==
                After(sent, Run(Session(audioChunks, audioFormat, sampleRate, isRecording), messages[i..], backend))
    {
      RunUnfold(Session(audioChunks, audioFormat, sampleRate, isRecording), messages, i, backend);
      var replies, ended;
      audioChunks, audioFormat, sampleRate, isRecording, replies, ended :=
        HandleMessage(audioChunks, audioFormat, sampleRate, isRecording, messages[i], backend);
      sent := sent + replies;
      if ended {
        break;
      }
      i := i + 1;
    }
  }

  /** The body of the loop for one message. */
  method HandleMessage(audioChunks: seq<Bytes>, audioFormat: Json, sampleRate: Json, isRecording: bool,
                       message: Inbound, backend: Backend)
    returns (chunks: seq<Bytes>, format: Json, rate: Json, recording: bool, replies: seq<Outbound>, ended: bool)
    ensures Reaction(Session(chunks, format, rate, recording), replies, ended) ==
            Step(Session(audioChunks, audioFormat, sampleRate, isRecording), message, backend)
    ensures ended ==> replies == []
  {
    chunks, format, rate, recording := audioChunks, audioFormat, sampleRate, isRecording;
    replies, ended := [], false;
    match message {
      case Binary(data) =>
        if recording {
          chunks := chunks + [data];
          if |chunks| % 10 == 0 {
            replies := [Receiving(|chunks|, TotalBytes(chunks))];
          }
        }
      case Text(parsed) =>
        if parsed.None? {
          return;
        }
        var data := parsed.value;
        if !data.JObject? {
          ended := true;
          return;
        }
        var cmd := Command(data.fields);
        if cmd == JString("start") {
          chunks := [];
          format := Get(data.fields, "format", JString("webm"));
          rate := Get(data.fields, "sampleRate", JNumber(SampleRate));
          recording := true;
          replies := [Recording];
        } else if cmd == JString("stop") {
          chunks, recording, replies, ended := HandleStop(chunks, format, rate, backend);
        } else if cmd == JString("ping") {
          replies := [Pong];
        } else if cmd == JString("info") {
          replies := [Info];
        }
    }
  }

  /** The stop branch: stop recording, join the chunks, convert and transcribe. */
  method HandleStop(audioChunks: seq<Bytes>, audioFormat: Json, sampleRate: Json, backend: Backend)
    returns (chunks: seq<Bytes>, recording: bool, replies: seq<Outbound>, ended: bool)
    ensures Reaction(Session(chunks, audioFormat, sampleRate, recording), replies, ended) ==
            StopStep(Session(audioChunks, audioFormat, sampleRate, true), backend)
    ensures ended ==> replies == []
  {
    chunks := audioChunks;
    recording := false;
    ended := false;
    if chunks == [] {
      replies := [NoAudio];
      return;
    }
    var combined := Concat(chunks);
    var wavData: Bytes;
    if Compressed(audioFormat) {
      var converted := backend.convert(combined);
      if converted.None? {
        replies := [ConvertFailed];
        return;
      }
      wavData := converted.value;
    } else if audioFormat == JString("pcm") {
      var wrapped := backend.wrapPcm(combined, sampleRate);
      if wrapped.None? {
        replies := [];
        ended := true;
        return;
      }
      wavData := wrapped.value;
    } else {
      wavData := combined;
    }
    replies := [Transcribing];
    var result := backend.transcribe(wavData);
    replies := replies + [ReplyTo(result)];
    chunks := [];
  }

  /** Run takes one step at position i. */
  lemma RunUnfold(s: Session, messages: seq<Inbound>, i: nat, backend: Backend)
    requires i < |messages|
    ensures var r := Step(s, messages[i], backend);
      Run(s, messages[i..], backend) ==
      if r.ended then r else After(r.sent, Run(r.session, messages[i + 1..], backend))
  {
    assert messages[i..][1..] == messages[i + 1..];
  }

  // ---------------------------------------------------------------------
  // Properties of a connection

  /** The binary messages carrying the given chunks, in order. */
  function Binaries(bs: seq<Bytes>): (ms: seq<Inbound>)
    ensures |ms| == |bs|
    ensures forall k :: 0 <= k < |bs| ==> ms[k] == Binary(bs[k])
  {
    seq(|bs|, k requires 0 <= k < |bs| => Binary(bs[k]))
  }

  /** The acknowledgement due once the buffer holds the given chunks. */
  function AckFor(chunks: seq<Bytes>): seq<Outbound> {
    if |chunks| % 10 == 0 then [Receiving(|chunks|, TotalBytes(chunks))] else []
  }

  /** The acknowledgements sent while the chunks bs are appended to the buffer base. */
  function AcksFrom(base: seq<Bytes>, bs: seq<Bytes>): seq<Outbound>
    decreases |bs|
  {
    if bs == [] then [] else AcksFrom(base, bs[..|bs| - 1]) + AckFor(base + bs)
  }

  /** Handling one message in front of the rest of a connection. */
  lemma RunCons(s: Session, m: Inbound, rest: seq<Inbound>, backend: Backend)
    ensures var r := Step(s, m, backend);
      Run(s, [m] + rest, backend) == if r.ended then r else After(r.sent, Run(r.session, rest, backend))
  {
    assert ([m] + rest)[1..] == rest;
  }

  /**
   * A start command resets the session whatever came before: the buffer
   * is emptied, recording is on, and the only reply is the recording status.
   */
  lemma StartBeginsRecording(s: Session, fields: map<string, Json>, rest: seq<Inbound>, backend: Backend)
    requires Command(fields) == JString("start")
    ensures Run(s, [Text(Some(JObject(fields)))] + rest, backend) ==
            After([Recording], Run(Started(fields), rest, backend))
  {
    RunCons(s, Text(Some(JObject(fields))), rest, backend);
  }

  /** Outside a recording a binary message is dropped: nothing is sent and nothing changes. */
  lemma IdleChunkIgnored(s: Session, data: Bytes, rest: seq<Inbound>, backend: Backend)
    requires !s.recording
    ensures Run(s, [Binary(data)] + rest, backend) == Run(s, rest, backend)
  {
    RunCons(s, Binary(data), rest, backend);
    assert After([], Run(s, rest, backend)) == Run(s, rest, backend);
  }

  /**
   * While recording, a run of binary messages is appended to the buffer
   * in order, with an acknowledgement each time the buffer reaches a
   * multiple of ten chunks.
   */
  lemma {:induction false} FeedChunks(s: Session, bs: seq<Bytes>, rest: seq<Inbound>, backend: Backend)
    requires s.recording
    ensures Run(s, Binaries(bs) + rest, backend) ==
            After(AcksFrom(s.chunks, bs), Run(s.(chunks := s.chunks + bs), rest, backend))
    decreases |bs|
  {
    if bs == [] {
      assert Binaries(bs) + rest == rest;
      assert s.(chunks := s.chunks + bs) == s;
      assert After([], Run(s, rest, backend)) == Run(s, rest, backend);
    } else {
      var init, last := bs[..|bs| - 1], bs[|bs| - 1];
      var tail := [Binary(last)] + rest;
      assert Binaries(bs) == Binaries(init) + [Binary(last)];
      Associate(Binaries(init), [Binary(last)], rest);
      assert Binaries(bs) + rest == Binaries(init) + tail;
      FeedChunks(s, init, tail, backend);
      var mid := s.(chunks := s.chunks + init);
      var full := s.(chunks := s.chunks + bs);
      assert mid.chunks + [last] == full.chunks;
      RunCons(mid, Binary(last), rest, backend);
      var x := Run(full, rest, backend);
      assert Run(mid, tail, backend) == After(AckFor(full.chunks), x);
      assert AcksFrom(s.chunks, bs) == AcksFrom(s.chunks, init) + AckFor(full.chunks);
      Associate(AcksFrom(s.chunks, init), AckFor(full.chunks), x.sent);
      assert Run(s, Binaries(init) + tail, backend) == After(AcksFrom(s.chunks, init), Run(mid, tail, backend));
    }
  }

  /**
   * Counting from an empty buffer, n chunks draw n / 10 acknowledgements;
   * the k-th reports 10 (k + 1) chunks and the bytes of those chunks.
   */
  lemma {:induction false} AcksEveryTenth(bs: seq<Bytes>)
    ensures |AcksFrom([], bs)| == |bs| / 10
    ensures forall k :: 0 <= k < |bs| / 10 ==>
              AcksFrom([], bs)[k] == Receiving(10 * (k + 1), TotalBytes(bs[..10 * (k + 1)]))
    decreases |bs|
  {
    if bs != [] {
      var init := bs[..|bs| - 1];
      AcksEveryTenth(init);
      assert [] + bs == bs;
      var acks := AcksFrom([], bs);
      assert acks == AcksFrom([], init) + AckFor(bs);
      forall k | 0 <= k < |bs| / 10
        ensures acks[k] == Receiving(10 * (k + 1), TotalBytes(bs[..10 * (k + 1)]))
      {
        if k < |init| / 10 {
          assert init[..10 * (k + 1)] == bs[..10 * (k + 1)];
        } else {
          assert 10 * (k + 1) == |bs|;
          assert bs[..10 * (k + 1)] == bs;
        }
      }
    }
  }

  /** Every acknowledgement a connection sends reports a positive multiple of ten chunks. */
  lemma {:induction false} AcksAreTenfold(s: Session, messages: seq<Inbound>, backend: Backend)
    ensures forall o :: o in Run(s, messages, backend).sent && o.Receiving? ==> o.chunks > 0 && o.chunks % 10 == 0
    decreases |messages|
  {
    if messages != [] {
      var r := Step(s, messages[0], backend);
      assert forall o :: o in r.sent && o.Receiving? ==> o.chunks > 0 && o.chunks % 10 == 0;
      if !r.ended {
        AcksAreTenfold(r.session, messages[1..], backend);
      }
    }
  }

  /** A stop with an empty buffer reports that no audio came, and only turns recording off. */
  lemma StopWithoutAudio(s: Session, fields: map<string, Json>, rest: seq<Inbound>, backend: Backend)
    requires Command(fields) == JString("stop") && s.chunks == []
    ensures Run(s, [Text(Some(JObject(fields)))] + rest, backend) ==
            After([NoAudio], Run(s.(recording := false), rest, backend))
  {
    RunCons(s, Text(Some(JObject(fields))), rest, backend);
  }

  /**
   * The WAV audio a stop hands to transcription: webm, opus and ogg go
   * through the converter, pcm gets a WAV header with the session's sample
   * rate, and anything else is taken to be WAV already. None when the
   * conversion or the wrapping fails.
   */
  function WavAudio(format: Json, sampleRate: Json, audio: Bytes, backend: Backend): Option<Bytes> {
    if Compressed(format) then backend.convert(audio)
    else if format == JString("pcm") then backend.wrapPcm(audio, sampleRate)
    else Some(audio)
  }

  /**
   * A stop with audio whose WAV form is available sends the transcribing
   * status and then the transcription reply for exactly that audio, and
   * empties the buffer whether the transcription succeeded or not.
   */
  lemma StopTranscribes(s: Session, fields: map<string, Json>, rest: seq<Inbound>, backend: Backend)
    requires Command(fields) == JString("stop") && s.chunks != []
    requires WavAudio(s.format, s.sampleRate, Concat(s.chunks), backend).Some?
    ensures var wav := WavAudio(s.format, s.sampleRate, Concat(s.chunks), backend).value;
      Run(s, [Text(Some(JObject(fields)))] + rest, backend) ==
      After([Transcribing, ReplyTo(backend.transcribe(wav))], Run(s.(chunks := [], recording := false), rest, backend))
  {
    RunCons(s, Text(Some(JObject(fields))), rest, backend);
  }

  /**
   * A stop whose conversion fails sends the conversion error and keeps the
   * buffer, so a later stop retries the same audio.
   */
  lemma ConversionFailureKeepsAudio(s: Session, fields: map<string, Json>, rest: seq<Inbound>, backend: Backend)
    requires Command(fields) == JString("stop") && s.chunks != [] && Compressed(s.format)
    requires backend.convert(Concat(s.chunks)).None?
    ensures Run(s, [Text(Some(JObject(fields)))] + rest, backend) ==
            After([ConvertFailed], Run(s.(recording := false), rest, backend))
  {
    RunCons(s, Text(Some(JObject(fields))), rest, backend);
  }

  /** A pcm stop whose WAV wrapping raises ends the connection handler with nothing more sent. */
  lemma WrapFailureEnds(s: Session, fields: map<string, Json>, rest: seq<Inbound>, backend: Backend)
    requires Command(fields) == JString("stop") && s.chunks != [] && s.format == JString("pcm")
    requires backend.wrapPcm(Concat(s.chunks), s.sampleRate).None?
    ensures Run(s, [Text(Some(JObject(fields)))] + rest, backend) == Reaction(s.(recording := false), [], true)
  {
    RunCons(s, Text(Some(JObject(fields))), rest, backend);
  }

  /**
   * ping and info get their reply; undecodable text and an object with any
   * other command get none. None of them changes the session.
   */
  lemma OtherTextLeavesSession(s: Session, parsed: Option<Json>, rest: seq<Inbound>, backend: Backend)
    requires parsed.Some? ==> parsed.value.JObject?
    requires parsed.Some? ==> Command(parsed.value.fields) != JString("start") && Command(parsed.value.fields) != JString("stop")
    ensures var reply :=
        if parsed.None? then []
        else if Command(parsed.value.fields) == JString("ping") then [Pong]
        else if Command(parsed.value.fields) == JString("info") then [Info]
        else [];
      Run(s, [Text(parsed)] + rest, backend) == After(reply, Run(s, rest, backend))
  {
    RunCons(s, Text(parsed), rest, backend);
  }

  /** Decoded JSON that is not an object ends the connection handler, with nothing sent. */
  lemma NonObjectEnds(s: Session, value: Json, rest: seq<Inbound>, backend: Backend)
    requires !value.JObject?
    ensures Run(s, [Text(Some(value))] + rest, backend) == Reaction(s, [], true)
  {
    RunCons(s, Text(Some(value)), rest, backend);
  }

  /**
   * A whole recording: start, the audio chunks, stop. The replies are the
   * recording status, one acknowledgement per ten chunks, the transcribing
   * status and the transcription of the WAV form of exactly the chunks
   * received, joined in order; afterwards the buffer is empty and
   * recording is off.
   */
  lemma RecordingTranscribesChunks(s: Session, start: map<string, Json>, bs: seq<Bytes>, stop: map<string, Json>,
                                   rest: seq<Inbound>, backend: Backend)
    requires Command(start) == JString("start") && Command(stop) == JString("stop") && bs != []
    requires WavAudio(Started(start).format, Started(start).sampleRate, Concat(bs), backend).Some?
    ensures var begun := Started(start);
      var wav := WavAudio(begun.format, begun.sampleRate, Concat(bs), backend).value;
      Run(s, [Text(Some(JObject(start)))] + Binaries(bs) + [Text(Some(JObject(stop)))] + rest, backend) ==
      After([Recording] + AcksFrom([], bs) + [Transcribing, ReplyTo(backend.transcribe(wav))],
            Run(begun.(recording := false), rest, backend))
  {
    var begun := Started(start);
    var wav := WavAudio(begun.format, begun.sampleRate, Concat(bs), backend).value;
    var startMsg, stopMsg := Text(Some(JObject(start))), Text(Some(JObject(stop)));
    var stopRest := [stopMsg] + rest;
    var full := begun.(chunks := begun.chunks + bs);
    var done := begun.(recording := false);
    assert full.chunks == bs;
    assert full.(chunks := [], recording := false) == done;
    var x := Run(done, rest, backend);
    var reply := [Transcribing, ReplyTo(backend.transcribe(wav))];
    StopTranscribes(full, stop, rest, backend);
    var y := Run(full, stopRest, backend);
    assert y == After(reply, x);
    FeedChunks(begun, bs, stopRest, backend);
    var z := Run(begun, Binaries(bs) + stopRest, backend);
    assert z == After(AcksFrom([], bs), y);
    StartBeginsRecording(s, start, Binaries(bs) + stopRest, backend);
    Regroup([startMsg], Binaries(bs), [stopMsg], rest);
    Regroup([Recording], AcksFrom([], bs), reply, x.sent);
  }

  lemma Associate<T>(a: seq<T>, b: seq<T>, c: seq<T>)
    ensures a + b + c == a + (b + c)
  {
  }

  lemma Regroup<T>(a: seq<T>, b: seq<T>, c: seq<T>, d: seq<T>)
    ensures a + b + c + d == a + (b + (c + d))
  {
  }
}
