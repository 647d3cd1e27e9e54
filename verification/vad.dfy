/** The Silero voice-activity detector wrapper (src/vad.rs).

    The detector carries two recurrent tensors `h` and `c` across calls and a
    one-element sample-rate input.  The ONNX inference session is foreign code:
    it is modelled as an uninterpreted classifier held by `Session`, mapping
    `(frame, sr, h, c)` to the raw output tensors or to an error. */
module Vad {
  import opened Wrappers

  /** Fixed, non-configurable decision threshold on the speech probability. */
  const SpeechThreshold: real := 0.5

  /** The value of the one-element `sr` input fed to the classifier. */
  const ModelSampleRate: real := 16000.0

  /** Shape (2, 1, 64) of both recurrent state tensors. */
  const StateLayers: nat := 2
  const StateBatch: nat := 1
  const StateWidth: nat := 64

  /** A three-dimensional `f32` array in standard (row-major) layout. */
  datatype Tensor3 = Tensor3(d0: nat, d1: nat, d2: nat, data: seq<real>)

  predicate WellShaped(t: Tensor3) {
    |t.data| == t.d0 * t.d1 * t.d2
  }

  predicate AllZero(t: Tensor3) {
    forall i | 0 <= i < |t.data| :: t.data[i] == 0.0
  }

  /** `Array::zeros((d0, d1, d2))` */
  function Zeros(d0: nat, d1: nat, d2: nat): (t: Tensor3)
    ensures t.d0 == d0 && t.d1 == d1 && t.d2 == d2
    ensures WellShaped(t) && AllZero(t)
  {
    Tensor3(d0, d1, d2, seq(d0 * d1 * d2, _ => 0.0))
  }

  /** A tensor as the session hands it back: element type, dynamic shape, data. */
  datatype RawTensor = RawTensor(isFloat32: bool, shape: seq<nat>, data: seq<real>)

  function Product(dims: seq<nat>): nat {
    if |dims| == 0 then 1 else dims[0] * Product(dims[1..])
  }

  lemma ProductOfThree(dims: seq<nat>)
    ensures |dims| == 3 ==> Product(dims) == dims[0] * dims[1] * dims[2]
  {
    if |dims| == 3 {
      var tail := dims[1..];
      assert tail[1..][1..] == [];
      assert Product(tail[1..]) == dims[2];
      assert Product(tail) == dims[1] * dims[2];
    }
  }

  /** `Array::from_shape_vec(shape, data)?.into_dimensionality()?` into a
      three-dimensional array: the element count must match the shape, and
      the shape must have rank three. */
  function ToTensor3(raw: RawTensor): (r: Option<Tensor3>)
    ensures r.Some? <==> |raw.shape| == 3 && |raw.data| == raw.shape[0] * raw.shape[1] * raw.shape[2]
    ensures r.Some? ==> WellShaped(r.value) && r.value.data == raw.data
    ensures r.Some? ==> [r.value.d0, r.value.d1, r.value.d2] == raw.shape
  {
    ProductOfThree(raw.shape);
    if Product(raw.shape) != |raw.data| then None
    else if |raw.shape| != 3 then None
    else Some(Tensor3(raw.shape[0], raw.shape[1], raw.shape[2], raw.data))
  }

  /** The three named outputs of one inference run: "output", "hn", "cn". */
  datatype SessionOutputs = SessionOutputs(output: RawTensor, hn: RawTensor, cn: RawTensor)

  /** An ONNX Runtime session loaded from the model file; `run` is the
      inference call with inputs "input", "sr", "h" and "c". */
  datatype Session = Session(run: (seq<real>, seq<real>, Tensor3, Tensor3) -> Result<SessionOutputs>)

  /** `SileroVad`: the session, the recurrent state and the sample-rate input. */
  datatype Vad = Vad(session: Session, h: Tensor3, c: Tensor3, sr: seq<real>)

  datatype VadResult = VadResult(probability: real) {
    /** `VadResult::is_speech` */
    predicate IsSpeech() {
      probability > SpeechThreshold
    }
  }

  /** Outcome of `push_frame`.  `Failed` carries the detector as the failed
      call leaves it; `Panicked` is the index panic on an empty output tensor. */
  datatype PushResult =
    | Pushed(result: VadResult, vad: Vad)
    | Failed(error: string, vad: Vad)
    | Panicked(message: string)

  /** The state of a freshly constructed (or freshly reset) detector. */
  predicate IsFresh(v: Vad) {
    && v.h.d0 == StateLayers && v.h.d1 == StateBatch && v.h.d2 == StateWidth
    && v.c.d0 == StateLayers && v.c.d1 == StateBatch && v.c.d2 == StateWidth
    && WellShaped(v.h) && WellShaped(v.c)
    && AllZero(v.h) && AllZero(v.c)
    && v.sr == [ModelSampleRate]
  }

  /** The recurrent state has the (2, 1, 64) shape of the Silero model. */
  predicate HasModelShape(v: Vad) {
    && v.h.d0 == StateLayers && v.h.d1 == StateBatch && v.h.d2 == StateWidth
    && v.c.d0 == StateLayers && v.c.d1 == StateBatch && v.c.d2 == StateWidth
    && WellShaped(v.h) && WellShaped(v.c)
  }

  /** `SileroVad::new`: `session` is the outcome of building the session from
      the model file (the builder and file loading are foreign code). */
  function New(session: Result<Session>): (r: Result<Vad>)
    ensures r.Ok? <==> session.Ok?
    ensures r.Ok? ==> IsFresh(r.value) && r.value.session == session.value
    ensures r.Err? ==> r.error == session.error
  {
    match session
    case Err(e) => Err(e)
    case Ok(s) =>
      Ok(Vad(s, Zeros(StateLayers, StateBatch, StateWidth), Zeros(StateLayers, StateBatch, StateWidth), [ModelSampleRate]))
  }

  /** `SileroVad::reset`: fill both state tensors with zeros in place. */
  function Reset(v: Vad): (r: Vad)
    ensures r.session == v.session && r.sr == v.sr
    ensures r.h.d0 == v.h.d0 && r.h.d1 == v.h.d1 && r.h.d2 == v.h.d2 && |r.h.data| == |v.h.data|
    ensures r.c.d0 == v.c.d0 && r.c.d1 == v.c.d1 && r.c.d2 == v.c.d2 && |r.c.data| == |v.c.data|
    ensures AllZero(r.h) && AllZero(r.c)
  {
    v.(h := v.h.(data := seq(|v.h.data|, _ => 0.0)), c := v.c.(data := seq(|v.c.data|, _ => 0.0)))
  }

  /** `SileroVad::push_frame`, step by step: the inference run, extraction of
      "output" and its first element, extraction of "hn" and "cn", then the
      reshape of `hn` into `h` followed by the reshape of `cn` into `c`. */
  function PushFrame(v: Vad, frame: seq<real>): (r: PushResult)
    ensures r.Pushed? || r.Failed? ==> r.vad.session == v.session && r.vad.sr == v.sr
    ensures v.session.run(frame, v.sr, v.h, v.c).Err? ==> r == Failed(v.session.run(frame, v.sr, v.h, v.c).error, v)
    ensures r.Pushed? ==>
      var out := v.session.run(frame, v.sr, v.h, v.c).value;
      && v.session.run(frame, v.sr, v.h, v.c).Ok?
      && |out.output.data| > 0
      && r.result.probability == out.output.data[0]
      && r.vad.h.data == out.hn.data && [r.vad.h.d0, r.vad.h.d1, r.vad.h.d2] == out.hn.shape
      && r.vad.c.data == out.cn.data && [r.vad.c.d0, r.vad.c.d1, r.vad.c.d2] == out.cn.shape
      && WellShaped(r.vad.h) && WellShaped(r.vad.c)
    ensures r.Failed? ==> r.vad.c == v.c
  {
    match v.session.run(frame, v.sr, v.h, v.c)
    case Err(e) => Failed(e, v)
    case Ok(out) =>
      if !out.output.isFloat32 then Failed("output tensor is not f32", v)
      else if |out.output.data| == 0 then Panicked("index out of bounds: output tensor is empty")
      else if !out.hn.isFloat32 then Failed("hn tensor is not f32", v)
      else if !out.cn.isFloat32 then Failed("cn tensor is not f32", v)
      else
        match ToTensor3(out.hn)
        case None => Failed("hn shape error", v)
        case Some(h') =>
          match ToTensor3(out.cn)
          case None => Failed("cn shape error", v.(h := h'))
          case Some(c') => Pushed(VadResult(out.output.data[0]), v.(h := h', c := c'))
  }

  /** The classifier keeps the Silero tensor contract on this call: every
      output is `f32`, "output" is non-empty, and "hn"/"cn" are (2, 1, 64). */
  predicate Conforming(out: SessionOutputs) {
    && out.output.isFloat32 && |out.output.data| > 0
    && out.hn.isFloat32 && out.hn.shape == [StateLayers, StateBatch, StateWidth]
    && |out.hn.data| == StateLayers * StateBatch * StateWidth
    && out.cn.isFloat32 && out.cn.shape == [StateLayers, StateBatch, StateWidth]
    && |out.cn.data| == StateLayers * StateBatch * StateWidth
  }

  /** A run that returns conforming outputs always yields a result, and the
      detector keeps the model's state shape. */
  lemma PushConformingKeepsShape(v: Vad, frame: seq<real>)
    requires HasModelShape(v)
    requires v.session.run(frame, v.sr, v.h, v.c).Ok?
    requires Conforming(v.session.run(frame, v.sr, v.h, v.c).value)
    ensures PushFrame(v, frame).Pushed?
    ensures HasModelShape(PushFrame(v, frame).vad)
    ensures PushFrame(v, frame).result.IsSpeech() <==>
              v.session.run(frame, v.sr, v.h, v.c).value.output.data[0] > 0.5
  {
  }

  /** A failed inference run leaves the state untouched, so the detector stays
      usable exactly as before the call. */
  lemma FailedRunKeepsState(v: Vad, frame: seq<real>)
    requires v.session.run(frame, v.sr, v.h, v.c).Err?
    ensures PushFrame(v, frame).Failed?
    ensures PushFrame(v, frame).vad == v
  {
  }

  /** When "hn" reshapes but "cn" does not, `h` has already been replaced
      when the error is returned: the failed call is not state-preserving. */
  lemma CellShapeErrorKeepsNewHidden(v: Vad, frame: seq<real>)
    requires v.session.run(frame, v.sr, v.h, v.c).Ok?
    requires var out := v.session.run(frame, v.sr, v.h, v.c).value;
      && out.output.isFloat32 && |out.output.data| > 0
      && out.hn.isFloat32 && out.hn.shape == [StateLayers, StateBatch, StateWidth]
      && |out.hn.data| == StateLayers * StateBatch * StateWidth
      && out.cn.isFloat32 && |out.cn.shape| != 3
    requires v.h.data != v.session.run(frame, v.sr, v.h, v.c).value.hn.data
    ensures PushFrame(v, frame).Failed?
    ensures PushFrame(v, frame).vad.h != v.h
    ensures PushFrame(v, frame).vad.c == v.c
  {
    var out := v.session.run(frame, v.sr, v.h, v.c).value;
    assert ToTensor3(out.cn).None?;
  }

  /** The speech decision is a strict comparison against 0.5. */
  lemma IsSpeechThreshold(p: real)
    ensures VadResult(p).IsSpeech() <==> p > 0.5
    ensures !VadResult(0.5).IsSpeech()
  {
  }

  /** Resetting a detector that kept the model's shape yields exactly the
      state of a freshly constructed detector on the same session. */
  lemma ResetMatchesFresh(v: Vad)
    requires HasModelShape(v) && v.sr == [ModelSampleRate]
    ensures New(Ok(v.session)).Ok?
    ensures Reset(v) == New(Ok(v.session)).value
    ensures IsFresh(Reset(v))
  {
    var initial := New(Ok(v.session)).value;
    assert Reset(v).h.data == initial.h.data;
    assert Reset(v).c.data == initial.c.data;
  }

  /** Resetting twice is the same as resetting once. */
  lemma ResetIdempotent(v: Vad)
    ensures Reset(Reset(v)) == Reset(v)
  {
  }

  /** The probabilities a detector reports for a frame sequence: `None` for a
      failed call; the sequence stops at a panic. */
  function Replay(v: Vad, frames: seq<seq<real>>): (ps: seq<Option<real>>)
    ensures |ps| <= |frames|
    decreases |frames|
  {
    if |frames| == 0 then []
    else
      match PushFrame(v, frames[0])
      case Pushed(res, v') => [Some(res.probability)] + Replay(v', frames[1..])
      case Failed(_, v') => [None] + Replay(v', frames[1..])
      case Panicked(_) => []
  }

  /** Resetting a detector and replaying a frame sequence reports the same
      probabilities as a freshly constructed detector on the same session. */
  lemma ResetThenReplay(v: Vad, frames: seq<seq<real>>)
    requires HasModelShape(v) && v.sr == [ModelSampleRate]
    ensures New(Ok(v.session)).Ok?
    ensures Replay(Reset(v), frames) == Replay(New(Ok(v.session)).value, frames)
  {
    ResetMatchesFresh(v);
  }

  /** Pushing frames never changes the session or the sample-rate input, so
      every detector built by `New` keeps `sr == [16000]` for ever. */
  lemma PushKeepsSampleRate(v: Vad, frame: seq<real>)
    requires v.sr == [ModelSampleRate]
    ensures PushFrame(v, frame).Pushed? || PushFrame(v, frame).Failed? ==>
              PushFrame(v, frame).vad.sr == [ModelSampleRate]
  {
  }
}
