/** The pure parts of the whisperfile engine (src/engines/whisperfile.rs):
    converting the server's JSON output into a transcription result, the
    parameter defaults, the loaded/unloaded state machine with its guards,
    and the multipart form sent to the server.

    Process spawning, the readiness poll, the HTTP exchange and JSON parsing
    are foreign: they enter as parameters (`LoadEnvironment`, `server`,
    `encodeWav`, `readFile`). */
module Whisperfile {
  import opened Wrappers
  import Seqs

  type U16 = x: int | 0 <= x < 65536

  /* ---------------------------------------------------------------------
     Server output and its conversion
     --------------------------------------------------------------------- */

  datatype WhisperfileSegment = WhisperfileSegment(text: string, start: real, end: real)

  /** The verbose JSON body; a missing "segments" field reads as empty. */
  datatype WhisperfileOutput = WhisperfileOutput(text: string, segments: seq<WhisperfileSegment>)

  datatype TranscriptionSegment = TranscriptionSegment(start: real, end: real, text: string)

  datatype TranscriptionResult = TranscriptionResult(text: string, segments: Option<seq<TranscriptionSegment>>)

  /** The characters of the Unicode `White_Space` property. */
  const WhiteSpace: set<char> := {
    '\t', '\n', '\U{000B}', '\U{000C}', '\r', ' ', '\U{0085}', '\U{00A0}', '\U{1680}',
    '\U{2000}', '\U{2001}', '\U{2002}', '\U{2003}', '\U{2004}', '\U{2005}',
    '\U{2006}', '\U{2007}', '\U{2008}', '\U{2009}', '\U{200A}',
    '\U{2028}', '\U{2029}', '\U{202F}', '\U{205F}', '\U{3000}'
  }

  /** Rust's `char::is_whitespace`. */
  predicate IsWhitespace(ch: char) {
    ch in WhiteSpace
  }

  function TrimStart(s: string): (r: string)
    ensures |r| <= |s| && r == s[|s| - |r|..]
    ensures forall k | 0 <= k < |s| - |r| :: IsWhitespace(s[k])
    ensures r == "" || !IsWhitespace(r[0])
    decreases |s|
  {
    if |s| > 0 && IsWhitespace(s[0]) then
      var r := TrimStart(s[1..]);
      assert s[1..][|s| - 1 - |r|..] == s[|s| - |r|..];
      assert forall k | 1 <= k < |s| - |r| :: s[k] == s[1..][k - 1];
      r
    else s
  }

  function TrimEnd(s: string): (r: string)
    ensures |r| <= |s| && r == s[..|r|]
    ensures forall k | |r| <= k < |s| :: IsWhitespace(s[k])
    ensures r == "" || !IsWhitespace(r[|r| - 1])
    decreases |s|
  {
    if |s| > 0 && IsWhitespace(s[|s| - 1]) then
      var r := TrimEnd(s[..|s| - 1]);
      assert s[..|s| - 1][..|r|] == s[..|r|];
      assert forall k | |r| <= k < |s| - 1 :: s[k] == s[..|s| - 1][k];
      r
    else s
  }

  /** `str::trim` */
  function Trim(s: string): (t: string)
    ensures |t| <= |s|
  {
    TrimEnd(TrimStart(s))
  }

  /** `t` is `s` with its leading whitespace (the first `i` characters) and
      its trailing whitespace removed: everything outside `t` is whitespace
      and `t` neither starts nor ends with whitespace. */
  predicate IsTrimOf(t: string, s: string, i: nat) {
    && i + |t| <= |s|
    && t == s[i..i + |t|]
    && (forall k | 0 <= k < i :: IsWhitespace(s[k]))
    && (forall k | i + |t| <= k < |s| :: IsWhitespace(s[k]))
    && (t == "" || (!IsWhitespace(s[i]) && !IsWhitespace(s[i + |t| - 1])))
  }

  /** Stripping a whitespace prefix and then a whitespace suffix, each down
      to a non-whitespace end, leaves a trim of the original. */
  lemma StripBothEnds(s: string, u: string, t: string)
    requires |u| <= |s| && u == s[|s| - |u|..]
    requires forall k | 0 <= k < |s| - |u| :: IsWhitespace(s[k])
    requires u == "" || !IsWhitespace(u[0])
    requires |t| <= |u| && t == u[..|t|]
    requires forall k | |t| <= k < |u| :: IsWhitespace(u[k])
    requires t == "" || !IsWhitespace(t[|t| - 1])
    ensures IsTrimOf(t, s, |s| - |u|)
  {
    var i := |s| - |u|;
    assert s[i..i + |t|] == u[..|t|];
    forall k | i + |t| <= k < |s|
      ensures IsWhitespace(s[k])
    {
      assert s[k] == u[k - i];
    }
    if t != "" {
      assert s[i] == u[0];
      assert s[i + |t| - 1] == t[|t| - 1];
    }
  }

  /** `Trim` removes exactly the leading and trailing whitespace. */
  lemma TrimSpec(s: string)
    ensures IsTrimOf(Trim(s), s, |s| - |TrimStart(s)|)
  {
    StripBothEnds(s, TrimStart(s), Trim(s));
  }

  /** The trimmed text is empty exactly when the whole string is whitespace. */
  lemma BlankIffEmptyTrim(t: string, s: string, i: nat)
    requires IsTrimOf(t, s, i)
    ensures t == "" <==> forall k | 0 <= k < |s| :: IsWhitespace(s[k])
  {
  }

  /** Any string obtained by removing leading and trailing whitespace down to
      non-whitespace ends is `Trim(s)`: the trimmed text is unique. */
  lemma TrimUnique(s: string, t: string, i: nat)
    requires IsTrimOf(t, s, i)
    ensures t == Trim(s)
  {
    TrimSpec(s);
    var t0 := Trim(s);
    var i0 := |s| - |TrimStart(s)|;
    BlankIffEmptyTrim(t, s, i);
    BlankIffEmptyTrim(t0, s, i0);
    if t != "" {
      // Both start at the first non-whitespace character and end after the
      // last one.
      assert i == i0;
      assert i + |t| == i0 + |t0|;
    }
  }

  lemma TrimIdempotent(s: string)
    ensures Trim(Trim(s)) == Trim(s)
  {
    var t := Trim(s);
    TrimSpec(s);
    assert t[0..|t|] == t;
    TrimUnique(t, t, 0);
  }

  function ToSegment(s: WhisperfileSegment): TranscriptionSegment {
    TranscriptionSegment(s.start, s.end, s.text)
  }

  /** `From<WhisperfileOutput> for TranscriptionResult` */
  function ToTranscriptionResult(o: WhisperfileOutput): (r: TranscriptionResult)
    ensures r.segments.None? <==> |o.segments| == 0
    ensures r.segments.Some? ==>
      && |r.segments.value| == |o.segments|
      && forall k | 0 <= k < |o.segments| ::
           && r.segments.value[k].start == o.segments[k].start
           && r.segments.value[k].end == o.segments[k].end
           && r.segments.value[k].text == o.segments[k].text
    ensures IsTrimOf(r.text, o.text, |o.text| - |TrimStart(o.text)|)
  {
    TrimSpec(o.text);
    var segments :=
      if |o.segments| == 0 then None
      else Some(seq(|o.segments|, k requires 0 <= k < |o.segments| => ToSegment(o.segments[k])));
    TranscriptionResult(Trim(o.text), segments)
  }

  /* ---------------------------------------------------------------------
     Parameters and defaults
     --------------------------------------------------------------------- */

  datatype ModelParams = ModelParams(port: U16, host: string, startupTimeoutSecs: nat)

  datatype InferenceParams = InferenceParams(
    language: Option<string>,
    translate: bool,
    temperature: Option<real>,
    responseFormat: Option<string>)

  /** `WhisperfileModelParams::default()` */
  function DefaultModelParams(): ModelParams {
    ModelParams(8080, "127.0.0.1", 30)
  }

  /** `WhisperfileInferenceParams::default()` */
  function DefaultInferenceParams(): InferenceParams {
    InferenceParams(None, false, None, Some("verbose_json"))
  }

  function DigitChar(d: nat): char
    requires d < 10
  {
    "0123456789"[d]
  }

  /** Decimal rendering of a non-negative integer (`to_string`). */
  function NatToString(n: nat): (s: string)
    ensures |s| > 0
    ensures forall k | 0 <= k < |s| :: '0' <= s[k] <= '9'
    decreases n
  {
    if n < 10 then [DigitChar(n)] else NatToString(n / 10) + [DigitChar(n % 10)]
  }

  /** `format!("http://{}:{}", host, port)` */
  function ServerUrl(p: ModelParams): string {
    "http://" + p.host + ":" + NatToString(p.port)
  }

  lemma DefaultPortText()
    ensures NatToString(8080) == "8080"
  {
    assert NatToString(8) == "8";
    assert NatToString(80) == "80";
    assert NatToString(808) == "808";
  }

  /** With the default model parameters the server lives at
      http://127.0.0.1:8080 and gets 30 seconds to come up. */
  lemma DefaultServerUrl()
    ensures ServerUrl(DefaultModelParams()) == "http://127.0.0.1:8080"
    ensures DefaultModelParams().startupTimeoutSecs == 30
  {
    DefaultPortText();
    assert "http://" + "127.0.0.1" + ":" + "8080" == "http://127.0.0.1:8080";
  }

  /* ---------------------------------------------------------------------
     The engine's lifecycle
     --------------------------------------------------------------------- */

  /** A spawned server child process. */
  datatype Process = Process(pid: nat)

  datatype Engine = Engine(binaryPath: string, serverUrl: string, serverProcess: Option<Process>)

  predicate Loaded(e: Engine) {
    e.serverProcess.Some?
  }

  /** `WhisperfileEngine::new` */
  function NewEngine(binaryPath: string): (e: Engine)
    ensures !Loaded(e) && e.serverUrl == "" && e.binaryPath == binaryPath
  {
    Engine(binaryPath, "", None)
  }

  /** `unload_model`: take the child (kill and wait, results ignored) and
      clear the URL. */
  function Unload(e: Engine): (r: Engine)
    ensures !Loaded(r) && r.serverUrl == "" && r.binaryPath == e.binaryPath
  {
    var taken := e.(serverProcess := None);
    taken.(serverUrl := "")
  }

  lemma UnloadIdempotent(e: Engine)
    ensures Unload(Unload(e)) == Unload(e)
    ensures Unload(NewEngine(e.binaryPath)) == NewEngine(e.binaryPath)
  {
  }

  /** What the outside world answers while loading: whether the binary and
      the model file exist, the outcome of spawning the server, and whether
      it answered before the startup timeout. */
  datatype LoadEnvironment = LoadEnvironment(binaryExists: bool, modelExists: bool, spawn: Result<Process>, serverReady: bool)

  datatype Status = Success | Failure(error: string)

  datatype LoadOutcome = LoadOutcome(engine: Engine, status: Status)

  /** `load_model_with_params` */
  function LoadModel(e: Engine, modelPath: string, params: ModelParams, env: LoadEnvironment): (r: LoadOutcome)
    ensures r.engine.binaryPath == e.binaryPath
    ensures r.status.Success? <==> env.binaryExists && env.modelExists && env.spawn.Ok? && env.serverReady
    ensures !env.binaryExists ==>
      r == LoadOutcome(Unload(e), Failure("Whisperfile binary not found: " + e.binaryPath))
    ensures env.binaryExists && !env.modelExists ==>
      r == LoadOutcome(Unload(e), Failure("Model file not found: " + modelPath))
    ensures r.status.Success? ==>
      Loaded(r.engine) && r.engine.serverProcess == Some(env.spawn.value) && r.engine.serverUrl == ServerUrl(params)
    ensures env.binaryExists && env.modelExists && env.spawn.Err? ==>
      && !Loaded(r.engine) && r.engine.serverUrl == ServerUrl(params)
      && r.status == Failure("Failed to spawn whisperfile server: " + env.spawn.error)
    ensures env.binaryExists && env.modelExists && env.spawn.Ok? && !env.serverReady ==>
      r.status == Failure("Whisperfile server failed to start within " + NatToString(params.startupTimeoutSecs) + " seconds")
  {
    var unloaded := Unload(e);
    if !env.binaryExists then LoadOutcome(unloaded, Failure("Whisperfile binary not found: " + e.binaryPath))
    else if !env.modelExists then LoadOutcome(unloaded, Failure("Model file not found: " + modelPath))
    else
      var withUrl := unloaded.(serverUrl := ServerUrl(params));
      match env.spawn
      case Err(m) => LoadOutcome(withUrl, Failure("Failed to spawn whisperfile server: " + m))
      case Ok(child) =>
        var running := withUrl.(serverProcess := Some(child));
        if !env.serverReady then
          LoadOutcome(running, Failure("Whisperfile server failed to start within " + NatToString(params.startupTimeoutSecs) + " seconds"))
        else LoadOutcome(running, Success)
  }

  /** Loading always stops the previous server first: a load that fails
      before spawning leaves the engine unloaded, and the previous server is
      never kept, whatever happens. */
  lemma LoadStopsPreviousServer(e: Engine, modelPath: string, params: ModelParams, env: LoadEnvironment)
    ensures var r := LoadModel(e, modelPath, params, env);
      && (r.engine.serverProcess.Some? ==> env.spawn.Ok? && r.engine.serverProcess == Some(env.spawn.value))
      && (!env.binaryExists || !env.modelExists ==> !Loaded(r.engine) && r.engine.serverUrl == "")
  {
  }

  /** A server that spawns but never answers is NOT stopped: the load fails,
      yet the engine keeps the child and counts as loaded. */
  lemma FailedStartupKeepsChild(e: Engine, modelPath: string, params: ModelParams, env: LoadEnvironment)
    requires env.binaryExists && env.modelExists && env.spawn.Ok? && !env.serverReady
    ensures LoadModel(e, modelPath, params, env).status.Failure?
    ensures Loaded(LoadModel(e, modelPath, params, env).engine)
  {
  }

  /* ---------------------------------------------------------------------
     The request form and transcription
     --------------------------------------------------------------------- */

  datatype FieldValue = Text(text: string) | Float(number: real)

  /** A multipart part: the WAV file, or a named text field.  A temperature is
      sent as Rust's rendering of the `f32`, which is left abstract. */
  datatype FormPart =
    | FilePart(name: string, fileName: string, mime: string, bytes: seq<Seqs.U8>)
    | TextPart(name: string, value: FieldValue)

  /** The part names, in order. */
  function Names(form: seq<FormPart>): (names: seq<string>)
    ensures |names| == |form|
  {
    seq(|form|, k requires 0 <= k < |form| => form[k].name)
  }

  lemma NamesAppend(a: seq<FormPart>, b: seq<FormPart>)
    ensures Names(a + b) == Names(a) + Names(b)
  {
    assert forall k | 0 <= k < |a + b| :: Names(a + b)[k] == (Names(a) + Names(b))[k];
  }

  /** Every part is a text field. */
  predicate AllText(form: seq<FormPart>) {
    forall k | 0 <= k < |form| :: form[k].TextPart?
  }

  lemma AllTextAppend(a: seq<FormPart>, b: seq<FormPart>)
    requires AllText(a) && AllText(b)
    ensures AllText(a + b)
  {
    forall k | 0 <= k < |a + b|
      ensures (a + b)[k].TextPart?
    {
      if k < |a| { assert (a + b)[k] == a[k]; } else { assert (a + b)[k] == b[k - |a|]; }
    }
  }

  function OptionalField(name: string, value: Option<FieldValue>): (r: seq<FormPart>)
    ensures Names(r) == if value.Some? then [name] else []
    ensures value.Some? ==> r == [TextPart(name, value.value)]
    ensures AllText(r)
  {
    if value.Some? then [TextPart(name, value.value)] else []
  }

  /** The optional field names, in the order `transcribe_wav_bytes` appends
      them. */
  const FieldOrder: seq<string> := ["language", "translate", "temperature", "response_format"]

  /** Whether the parameter behind the optional field `name` is set. */
  predicate IsSet(p: InferenceParams, name: string) {
    if name == "language" then p.language.Some?
    else if name == "translate" then p.translate
    else if name == "temperature" then p.temperature.Some?
    else name == "response_format" && p.responseFormat.Some?
  }

  /** The names among `names` whose parameter is set, in order. */
  function SetNames(p: InferenceParams, names: seq<string>): (r: seq<string>)
    ensures forall name :: name in r <==> name in names && IsSet(p, name)
    decreases |names|
  {
    if |names| == 0 then []
    else
      assert forall name :: name in names <==> name == names[0] || name in names[1..];
      (if IsSet(p, names[0]) then [names[0]] else []) + SetNames(p, names[1..])
  }

  lemma SetNamesInOrder(p: InferenceParams)
    ensures SetNames(p, FieldOrder) ==
              (if p.language.Some? then ["language"] else [])
              + (if p.translate then ["translate"] else [])
              + (if p.temperature.Some? then ["temperature"] else [])
              + (if p.responseFormat.Some? then ["response_format"] else [])
  {
    var o := FieldOrder;
    assert o[1..] == ["translate", "temperature", "response_format"];
    assert o[1..][1..] == ["temperature", "response_format"];
    assert o[1..][1..][1..] == ["response_format"];
    assert o[1..][1..][1..][1..] == [];
  }

  /** The optional text fields, each present exactly when its parameter is
      set, in the order language, translate, temperature, response format. */
  function OptionalFields(p: InferenceParams): (fields: seq<FormPart>)
    ensures "language" in Names(fields) <==> p.language.Some?
    ensures "translate" in Names(fields) <==> p.translate
    ensures "temperature" in Names(fields) <==> p.temperature.Some?
    ensures "response_format" in Names(fields) <==> p.responseFormat.Some?
    ensures AllText(fields)
  {
    var language := OptionalField("language", if p.language.Some? then Some(Text(p.language.value)) else None);
    var translate := OptionalField("translate", if p.translate then Some(Text("true")) else None);
    var temperature := OptionalField("temperature", if p.temperature.Some? then Some(Float(p.temperature.value)) else None);
    var format := OptionalField("response_format", if p.responseFormat.Some? then Some(Text(p.responseFormat.value)) else None);
    NamesAppend(language, translate);
    NamesAppend(language + translate, temperature);
    NamesAppend(language + translate + temperature, format);
    AllTextAppend(language, translate);
    AllTextAppend(language + translate, temperature);
    AllTextAppend(language + translate + temperature, format);
    language + translate + temperature + format
  }

  /** The optional fields are exactly the set parameters, each once, in the
      fixed order: no other name and no repeated name can appear. */
  lemma OptionalFieldsExactly(p: InferenceParams)
    ensures Names(OptionalFields(p)) == SetNames(p, FieldOrder)
  {
    var language := OptionalField("language", if p.language.Some? then Some(Text(p.language.value)) else None);
    var translate := OptionalField("translate", if p.translate then Some(Text("true")) else None);
    var temperature := OptionalField("temperature", if p.temperature.Some? then Some(Float(p.temperature.value)) else None);
    var format := OptionalField("response_format", if p.responseFormat.Some? then Some(Text(p.responseFormat.value)) else None);
    assert OptionalFields(p) == language + translate + temperature + format;
    NamesAppend(language, translate);
    NamesAppend(language + translate, temperature);
    NamesAppend(language + translate + temperature, format);
    SetNamesInOrder(p);
  }

  /** The form `transcribe_wav_bytes` posts: the file part, then the
      optional fields. */
  function BuildForm(wav: seq<Seqs.U8>, p: InferenceParams): (form: seq<FormPart>)
    ensures |form| >= 1 && form[0] == FilePart("file", "audio.wav", "audio/wav", wav)
    ensures form[1..] == OptionalFields(p)
  {
    var file := [FilePart("file", "audio.wav", "audio/wav", wav)];
    var fields := OptionalFields(p);
    assert (file + fields)[1..] == fields;
    file + fields
  }

  /** The field values: the language and response format verbatim, the
      translate flag as "true", the temperature as a number. */
  lemma FieldValues(wav: seq<Seqs.U8>, p: InferenceParams)
    ensures p.language.Some? ==> TextPart("language", Text(p.language.value)) in BuildForm(wav, p)
    ensures p.translate ==> TextPart("translate", Text("true")) in BuildForm(wav, p)
    ensures p.temperature.Some? ==> TextPart("temperature", Float(p.temperature.value)) in BuildForm(wav, p)
    ensures p.responseFormat.Some? ==> TextPart("response_format", Text(p.responseFormat.value)) in BuildForm(wav, p)
  {
  }

  /** With no parameters the request carries the file and asks for
      `verbose_json`, nothing else. */
  lemma DefaultForm(wav: seq<Seqs.U8>)
    ensures BuildForm(wav, DefaultInferenceParams()) ==
              [FilePart("file", "audio.wav", "audio/wav", wav), TextPart("response_format", Text("verbose_json"))]
  {
  }

  const NotLoadedError: string := "Model not loaded. Call load_model() first."

  /** What the HTTP exchange yields: a send failure, or a response with its
      status code, the status line as Rust displays it, and the body text. */
  datatype Reply = SendFailed(message: string) | Responded(status: nat, statusLine: string, body: string)

  predicate IsSuccessStatus(status: nat) {
    200 <= status < 300
  }

  /** The oracles of one request: `post` performs the HTTP exchange for a URL
      and form, `parse` reads the JSON body into the verbose output. */
  datatype Server = Server(post: (string, seq<FormPart>) -> Reply, parse: string -> Result<WhisperfileOutput>)

  /** `transcribe_wav_bytes` */
  function TranscribeWavBytes(e: Engine, wav: seq<Seqs.U8>, params: Option<InferenceParams>, server: Server): (r: Result<TranscriptionResult>)
    ensures var p := if params.Some? then params.value else DefaultInferenceParams();
      var reply := server.post(e.serverUrl + "/inference", BuildForm(wav, p));
      && (reply.SendFailed? ==> r == Err("Request to whisperfile server failed: " + reply.message))
      && (reply.Responded? && !IsSuccessStatus(reply.status) ==>
            r == Err("Whisperfile server error " + reply.statusLine + ": " + reply.body))
      && (reply.Responded? && IsSuccessStatus(reply.status) && server.parse(reply.body).Err? ==>
            r == Err(server.parse(reply.body).error))
      && (r.Ok? <==> reply.Responded? && IsSuccessStatus(reply.status) && server.parse(reply.body).Ok?)
      && (r.Ok? ==> r.value == ToTranscriptionResult(server.parse(reply.body).value))
  {
    var p := if params.Some? then params.value else DefaultInferenceParams();
    match server.post(e.serverUrl + "/inference", BuildForm(wav, p))
    case SendFailed(m) => Err("Request to whisperfile server failed: " + m)
    case Responded(status, statusLine, body) =>
      if !IsSuccessStatus(status) then Err("Whisperfile server error " + statusLine + ": " + body)
      else
        match server.parse(body)
        case Err(m) => Err(m)
        case Ok(o) => Ok(ToTranscriptionResult(o))
  }

  /** `transcribe_samples`: `encodeWav` is the in-memory 16-bit WAV writer. */
  function TranscribeSamples(e: Engine, samples: seq<real>, params: Option<InferenceParams>,
                             encodeWav: seq<real> -> Result<seq<Seqs.U8>>,
                             server: Server): (r: Result<TranscriptionResult>)
    ensures !Loaded(e) ==> r == Err(NotLoadedError)
    ensures Loaded(e) && encodeWav(samples).Ok? ==> r == TranscribeWavBytes(e, encodeWav(samples).value, params, server)
    ensures Loaded(e) && encodeWav(samples).Err? ==> r == Err(encodeWav(samples).error)
  {
    if e.serverProcess.None? then Err(NotLoadedError)
    else
      match encodeWav(samples)
      case Err(m) => Err(m)
      case Ok(wav) => TranscribeWavBytes(e, wav, params, server)
  }

  /** `transcribe_file`: `readFile` is `std::fs::read`. */
  function TranscribeFile(e: Engine, wavPath: string, params: Option<InferenceParams>,
                          readFile: string -> Result<seq<Seqs.U8>>,
                          server: Server): (r: Result<TranscriptionResult>)
    ensures !Loaded(e) ==> r == Err(NotLoadedError)
    ensures Loaded(e) && readFile(wavPath).Ok? ==> r == TranscribeWavBytes(e, readFile(wavPath).value, params, server)
    ensures Loaded(e) && readFile(wavPath).Err? ==> r == Err(readFile(wavPath).error)
  {
    if e.serverProcess.None? then Err(NotLoadedError)
    else
      match readFile(wavPath)
      case Err(m) => Err(m)
      case Ok(wav) => TranscribeWavBytes(e, wav, params, server)
  }

  /** After `unload_model` every transcription fails with the not-loaded
      error, whatever the server would answer. */
  lemma UnloadedRefusesTranscription(e: Engine, samples: seq<real>, wavPath: string, params: Option<InferenceParams>,
                                     encodeWav: seq<real> -> Result<seq<Seqs.U8>>, readFile: string -> Result<seq<Seqs.U8>>,
                                     server: Server)
    ensures TranscribeSamples(Unload(e), samples, params, encodeWav, server) == Err(NotLoadedError)
    ensures TranscribeFile(Unload(e), wavPath, params, readFile, server) == Err(NotLoadedError)
  {
  }
}
