/** The universal decoder `decode_and_resample` (src/audio/decoder.rs).

    Probing the container and decoding packets are foreign code (Symphonia):
    the probed media is a list of tracks and the packet stream is the list of
    results `next_packet` returns, each packet carrying what the track's
    decoder makes of it.  The FFT resampler (rubato) is an oracle that maps
    the blocks it has already seen and the current block to its output.
    Samples are reals: floating-point rounding is not modelled. */
module Decoder {
  import opened Wrappers
  import Seqs

  /** The canonical output rate. */
  const TargetRate: nat := 16000

  /** Input block length of the fixed-input resampler. */
  const ResampleChunkSize: nat := 1024

  type I16 = x: int | -32768 <= x < 32768

  /* ---------------------------------------------------------------------
     Tracks
     --------------------------------------------------------------------- */

  /** `CODEC_TYPE_NULL` is the "unknown codec" sentinel. */
  datatype CodecType = CodecNull | Codec(id: nat)

  /** A track of the probed container.  `decoderError` is what the codec
      registry answers when asked for a decoder: `None` when it can make one. */
  datatype Track = Track(id: nat, codec: CodecType, sampleRate: Option<nat>, decoderError: Option<string>)

  function SelectFrom(tracks: seq<Track>, i: nat): (r: Option<nat>)
    requires i <= |tracks|
    ensures r.Some? ==> i <= r.value < |tracks| && tracks[r.value].codec != CodecNull
    ensures r.Some? ==> forall j | i <= j < r.value :: tracks[j].codec == CodecNull
    ensures r.None? ==> forall j | i <= j < |tracks| :: tracks[j].codec == CodecNull
    decreases |tracks| - i
  {
    if i == |tracks| then None
    else if tracks[i].codec != CodecNull then Some(i)
    else SelectFrom(tracks, i + 1)
  }

  /** `tracks().iter().find(|t| t.codec_params.codec != CODEC_TYPE_NULL)`:
      the index of the first track with a known codec. */
  function SelectTrack(tracks: seq<Track>): (r: Option<nat>)
    ensures r.Some? ==> r.value < |tracks| && tracks[r.value].codec != CodecNull
    ensures r.Some? ==> forall j | 0 <= j < r.value :: tracks[j].codec == CodecNull
    ensures r.None? <==> forall j | 0 <= j < |tracks| :: tracks[j].codec == CodecNull
  {
    SelectFrom(tracks, 0)
  }

  /* ---------------------------------------------------------------------
     Decoded buffers and the downmix
     --------------------------------------------------------------------- */

  /** A decoded buffer: one plane per channel.  Only the four formats the
      source handles carry samples; any other format is opaque. */
  datatype AudioBuffer =
    | F32Buffer(frames: nat, f32: seq<seq<real>>)
    | F64Buffer(frames: nat, f64: seq<seq<real>>)
    | U8Buffer(frames: nat, u8: seq<seq<Seqs.U8>>)
    | S16Buffer(frames: nat, s16: seq<seq<I16>>)
    | OtherBuffer(frames: nat)

  predicate PlanesFit<T>(frames: nat, planes: seq<seq<T>>) {
    |planes| > 0 && forall c | 0 <= c < |planes| :: |planes[c]| == frames
  }

  /** Symphonia's own invariant on a decoded buffer: its signal spec has at
      least one channel and every plane holds `frames` samples. */
  predicate WellFormed(b: AudioBuffer) {
    match b
    case F32Buffer(n, p) => PlanesFit(n, p)
    case F64Buffer(n, p) => PlanesFit(n, p)
    case U8Buffer(n, p) => PlanesFit(n, p)
    case S16Buffer(n, p) => PlanesFit(n, p)
    case OtherBuffer(_) => true
  }

  type Buffer = b: AudioBuffer | WellFormed(b) witness OtherBuffer(0)

  /** The formats whose frames become samples. */
  predicate Supported(b: AudioBuffer) {
    !b.OtherBuffer?
  }

  /** Unsigned 8-bit: centred on 128 and scaled by 1/128. */
  function NormalizeU8(s: Seqs.U8): real {
    (s as real - 128.0) / 128.0
  }

  /** Signed 16-bit: scaled by 1/32768. */
  function NormalizeS16(s: I16): real {
    s as real / 32768.0
  }

  function Sum(xs: seq<real>): real
    decreases |xs|
  {
    if |xs| == 0 then 0.0 else xs[0] + Sum(xs[1..])
  }

  function Mean(xs: seq<real>): real
    requires |xs| > 0
  {
    Sum(xs) / |xs| as real
  }

  /** The values of every channel at frame `i`, normalised. */
  function Column<T>(planes: seq<seq<T>>, i: nat, norm: T -> real): (col: seq<real>)
    requires forall c | 0 <= c < |planes| :: i < |planes[c]|
    ensures |col| == |planes|
    ensures forall c | 0 <= c < |planes| :: col[c] == norm(planes[c][i])
  {
    seq(|planes|, c requires 0 <= c < |planes| => norm(planes[c][i]))
  }

  /** The running `sum += …` over the first `c` channels at frame `i`. */
  function ChannelSum<T>(planes: seq<seq<T>>, i: nat, norm: T -> real, c: nat): real
    requires c <= |planes|
    requires forall k | 0 <= k < |planes| :: i < |planes[k]|
    decreases c
  {
    if c == 0 then 0.0 else ChannelSum(planes, i, norm, c - 1) + norm(planes[c - 1][i])
  }

  lemma SumSnoc(xs: seq<real>, x: real)
    ensures Sum(xs + [x]) == Sum(xs) + x
    decreases |xs|
  {
    if |xs| > 0 {
      assert (xs + [x])[1..] == xs[1..] + [x];
      SumSnoc(xs[1..], x);
    }
  }

  /** The channel-by-channel running sum is the sum of the frame's column. */
  lemma {:induction false} ChannelSumIsSum<T>(planes: seq<seq<T>>, i: nat, norm: T -> real, c: nat)
    requires c <= |planes|
    requires forall k | 0 <= k < |planes| :: i < |planes[k]|
    ensures ChannelSum(planes, i, norm, c) == Sum(Column(planes, i, norm)[..c])
    decreases c
  {
    var col := Column(planes, i, norm);
    if c > 0 {
      ChannelSumIsSum(planes, i, norm, c - 1);
      assert col[..c] == col[..c - 1] + [col[c - 1]];
      SumSnoc(col[..c - 1], col[c - 1]);
    } else {
      assert col[..0] == [];
    }
  }

  /** One mono sample per frame: the running sum over the channels divided
      by the channel count, which is the mean of the normalised channel
      values. */
  function Downmix<T>(frames: nat, planes: seq<seq<T>>, norm: T -> real): (mono: seq<real>)
    requires PlanesFit(frames, planes)
    ensures |mono| == frames
    ensures forall i | 0 <= i < frames :: mono[i] == Mean(Column(planes, i, norm))
  {
    var mono := seq(frames, i requires 0 <= i < frames => ChannelSum(planes, i, norm, |planes|) / |planes| as real);
    assert forall i | 0 <= i < frames :: mono[i] == Mean(Column(planes, i, norm)) by {
      forall i | 0 <= i < frames
        ensures mono[i] == Mean(Column(planes, i, norm))
      {
        ChannelSumIsSum(planes, i, norm, |planes|);
        assert Column(planes, i, norm)[..|planes|] == Column(planes, i, norm);
      }
    }
    mono
  }

  function RealId(x: real): real {
    x
  }

  /** The mono samples one decoded buffer appends; unsupported formats are
      logged and append nothing. */
  function BufferSamples(b: Buffer): (r: seq<real>)
    ensures |r| == if Supported(b) then b.frames else 0
  {
    match b
    case F32Buffer(n, p) => Downmix(n, p, RealId)
    case F64Buffer(n, p) => Downmix(n, p, RealId)
    case U8Buffer(n, p) => Downmix(n, p, NormalizeU8)
    case S16Buffer(n, p) => Downmix(n, p, NormalizeS16)
    case OtherBuffer(_) => []
  }

  lemma NormalizeU8Range(s: Seqs.U8)
    ensures -1.0 <= NormalizeU8(s) <= 127.0 / 128.0
    ensures NormalizeU8(0) == -1.0 && NormalizeU8(255) == 127.0 / 128.0
  {
  }

  lemma NormalizeS16Range(s: I16)
    ensures -1.0 <= NormalizeS16(s) <= 32767.0 / 32768.0
    ensures NormalizeS16(-32768) == -1.0 && NormalizeS16(32767) == 32767.0 / 32768.0
  {
  }

  lemma {:induction false} SumBounds(xs: seq<real>, lo: real, hi: real)
    requires forall k | 0 <= k < |xs| :: lo <= xs[k] <= hi
    ensures |xs| as real * lo <= Sum(xs) <= |xs| as real * hi
    decreases |xs|
  {
    if |xs| > 0 {
      SumBounds(xs[1..], lo, hi);
    }
  }

  /** A mean never leaves the range of the values averaged. */
  lemma MeanBounds(xs: seq<real>, lo: real, hi: real)
    requires |xs| > 0
    requires forall k | 0 <= k < |xs| :: lo <= xs[k] <= hi
    ensures lo <= Mean(xs) <= hi
  {
    SumBounds(xs, lo, hi);
    var n := |xs| as real;
    var m := Mean(xs);
    assert m - hi == (Sum(xs) - n * hi) / n;
    assert m - lo == (Sum(xs) - n * lo) / n;
  }

  /** Every sample downmixed from an 8-bit buffer lies in [-1, 127/128]. */
  lemma U8SamplesRange(b: Buffer, i: nat)
    requires b.U8Buffer? && i < b.frames
    ensures -1.0 <= BufferSamples(b)[i] <= 127.0 / 128.0
  {
    var col := Column(b.u8, i, NormalizeU8);
    forall c | 0 <= c < |col| ensures -1.0 <= col[c] <= 127.0 / 128.0 {
      NormalizeU8Range(b.u8[c][i]);
    }
    MeanBounds(col, -1.0, 127.0 / 128.0);
  }

  /** Every sample downmixed from a 16-bit buffer lies in [-1, 32767/32768]. */
  lemma S16SamplesRange(b: Buffer, i: nat)
    requires b.S16Buffer? && i < b.frames
    ensures -1.0 <= BufferSamples(b)[i] <= 32767.0 / 32768.0
  {
    var col := Column(b.s16, i, NormalizeS16);
    forall c | 0 <= c < |col| ensures -1.0 <= col[c] <= 32767.0 / 32768.0 {
      NormalizeS16Range(b.s16[c][i]);
    }
    MeanBounds(col, -1.0, 32767.0 / 32768.0);
  }

  /** A mono buffer passes its channel through unchanged (after normalising). */
  lemma MonoPassThrough(b: Buffer, i: nat)
    requires b.F32Buffer? && |b.f32| == 1 && i < b.frames
    ensures BufferSamples(b)[i] == b.f32[0][i]
  {
    var col := Column(b.f32, i, RealId);
    assert col[1..] == [];
    assert Sum(col) == col[0] + Sum(col[1..]);
  }

  /* ---------------------------------------------------------------------
     The packet loop
     --------------------------------------------------------------------- */

  /** What the track's decoder makes of a packet: a buffer, a recoverable
      `DecodeError`, or any other (fatal) decoder error. */
  datatype DecodeOutcome = Decoded(buffer: Buffer) | DecodeError(message: string) | DecoderFailure(message: string)

  /** One result of `format.next_packet()`: a packet of some track, an I/O
      error (`unexpectedEof` marks the end of the stream), or another read
      error. */
  datatype PacketRead =
    | Packet(trackId: nat, outcome: DecodeOutcome)
    | ReadIoError(unexpectedEof: bool, message: string)
    | ReadFailure(message: string)

  /** The loop body's verdict on one read: it ends the loop normally, ends it
      with an error, or lets it continue. */
  predicate EndsStream(r: PacketRead) {
    r.ReadIoError? && r.unexpectedEof
  }

  predicate IsFatal(r: PacketRead, trackId: nat) {
    || (r.ReadIoError? && !r.unexpectedEof)
    || r.ReadFailure?
    || (r.Packet? && r.trackId == trackId && r.outcome.DecoderFailure?)
  }

  function FatalMessage(r: PacketRead, trackId: nat): string
    requires IsFatal(r, trackId)
  {
    match r
    case ReadIoError(_, m) => "io error: " + m
    case ReadFailure(m) => "failed to read packet: " + m
    case Packet(_, o) => "failed to decode: " + o.message
  }

  /** The samples one read contributes: the downmix of a decoded buffer of the
      selected track, nothing otherwise. */
  function Contribution(r: PacketRead, trackId: nat): seq<real> {
    if r.Packet? && r.trackId == trackId && r.outcome.Decoded? then BufferSamples(r.outcome.buffer) else []
  }

  /** The decode loop.  A stream that runs out of stream ends as at EOF. */
  function DecodePackets(stream: seq<PacketRead>, trackId: nat): (r: Result<seq<real>>)
    ensures (forall i | 0 <= i < |stream| :: !IsFatal(stream[i], trackId)) ==> r.Ok?
    ensures r.Err? ==> "io error: " <= r.error || "failed to read packet: " <= r.error || "failed to decode: " <= r.error
    decreases |stream|
  {
    if |stream| == 0 then Ok([])
    else
      match stream[0]
      case ReadIoError(eof, m) => if eof then Ok([]) else Err("io error: " + m)
      case ReadFailure(m) => Err("failed to read packet: " + m)
      case Packet(id, outcome) =>
        if id != trackId then DecodePackets(stream[1..], trackId)
        else
          match outcome
          case DecoderFailure(m) => Err("failed to decode: " + m)
          case DecodeError(_) => DecodePackets(stream[1..], trackId)
          case Decoded(buf) =>
            match DecodePackets(stream[1..], trackId)
            case Err(e) => Err(e)
            case Ok(rest) => Ok(BufferSamples(buf) + rest)
  }

  /** The index of the read that ends the loop (EOF or a fatal error), or the
      length of the stream when none does. */
  function FirstStop(stream: seq<PacketRead>, trackId: nat): (k: nat)
    ensures k <= |stream|
    ensures forall i | 0 <= i < k :: !EndsStream(stream[i]) && !IsFatal(stream[i], trackId)
    ensures k < |stream| ==> EndsStream(stream[k]) || IsFatal(stream[k], trackId)
    decreases |stream|
  {
    if |stream| == 0 then 0
    else if EndsStream(stream[0]) || IsFatal(stream[0], trackId) then 0
    else 1 + FirstStop(stream[1..], trackId)
  }

  /** The decode loop succeeds exactly when it stops at EOF (or the end of
      the stream) rather than at a fatal error; it then yields the
      contributions of the stream before the stop, in order, and otherwise the
      fatal read's message. */
  lemma {:induction false} DecodePacketsSpec(stream: seq<PacketRead>, trackId: nat)
    ensures var k := FirstStop(stream, trackId);
      && (DecodePackets(stream, trackId).Ok? <==> (k == |stream| || !IsFatal(stream[k], trackId)))
      && (DecodePackets(stream, trackId).Ok? ==>
            DecodePackets(stream, trackId).value == Seqs.Concat(seq(k, i requires 0 <= i < k => Contribution(stream[i], trackId))))
      && (DecodePackets(stream, trackId).Err? ==>
            DecodePackets(stream, trackId).error == FatalMessage(stream[k], trackId))
    decreases |stream|
  {
    var k := FirstStop(stream, trackId);
    var parts := seq(k, i requires 0 <= i < k => Contribution(stream[i], trackId));
    if |stream| == 0 || EndsStream(stream[0]) || IsFatal(stream[0], trackId) {
      assert parts == [];
    } else {
      var rest := stream[1..];
      DecodePacketsSpec(rest, trackId);
      var k' := FirstStop(rest, trackId);
      assert k == 1 + k';
      var parts' := seq(k', i requires 0 <= i < k' => Contribution(rest[i], trackId));
      assert parts == [Contribution(stream[0], trackId)] + parts';
      Seqs.ConcatCons(Contribution(stream[0], trackId), parts');
    }
  }

  /** A read contributes exactly `frames` samples when it is a decoded buffer
      of the selected track in one of the four supported formats, and none
      otherwise (other tracks, decode errors, unsupported formats). */
  lemma ContributionLength(r: PacketRead, trackId: nat)
    ensures |Contribution(r, trackId)| ==
      if r.Packet? && r.trackId == trackId && r.outcome.Decoded? && Supported(r.outcome.buffer)
      then r.outcome.buffer.frames else 0
  {
  }

  /** Packets of other tracks and recoverable decode errors are skipped:
      removing such a read changes nothing. */
  lemma SkippedReadIsInert(r: PacketRead, stream: seq<PacketRead>, trackId: nat)
    requires r.Packet? && (r.trackId != trackId || r.outcome.DecodeError?)
    ensures DecodePackets([r] + stream, trackId) == DecodePackets(stream, trackId)
  {
    assert ([r] + stream)[1..] == stream;
  }

  /* ---------------------------------------------------------------------
     Block resampling
     --------------------------------------------------------------------- */

  /** The fixed-input resampler: given the blocks already processed and the
      current 1024-sample block, its output for that block or an error. */
  datatype Resampler = Resampler(process: (seq<seq<real>>, seq<real>) -> Result<seq<real>>)

  /** `ceil(n / 1024)`: the number of `samples.chunks(1024)`. */
  function NumBlocks(n: nat): nat {
    (n + ResampleChunkSize - 1) / ResampleChunkSize
  }

  /** The k-th input chunk, before padding. */
  function ChunkAt(samples: seq<real>, k: nat): (c: seq<real>)
    requires k < NumBlocks(|samples|)
    ensures 0 < |c| <= ResampleChunkSize
    ensures |c| == ResampleChunkSize || k == NumBlocks(|samples|) - 1
  {
    var lo := k * ResampleChunkSize;
    var hi := if lo + ResampleChunkSize <= |samples| then lo + ResampleChunkSize else |samples|;
    samples[lo..hi]
  }

  /** The k-th block fed to the resampler: the chunk followed by zeros up to
      1024 samples. */
  function Block(samples: seq<real>, k: nat): (b: seq<real>)
    requires k < NumBlocks(|samples|)
    ensures |b| == ResampleChunkSize
  {
    var c := ChunkAt(samples, k);
    c + Seqs.Zeros(ResampleChunkSize - |c|)
  }

  function Blocks(samples: seq<real>): (bs: seq<seq<real>>)
    ensures |bs| == NumBlocks(|samples|)
    ensures forall k | 0 <= k < |bs| :: bs[k] == Block(samples, k)
  {
    seq(NumBlocks(|samples|), k requires 0 <= k < NumBlocks(|samples|) => Block(samples, k))
  }

  /** Cutting the blocks back to their chunks and gluing them gives the input:
      padding adds nothing but the trailing zeros of the last block. */
  lemma {:induction false} ChunksCover(samples: seq<real>, k: nat)
    requires k <= NumBlocks(|samples|)
    ensures Seqs.Concat(seq(k, i requires 0 <= i < k => ChunkAt(samples, i))) ==
              samples[..if k * ResampleChunkSize <= |samples| then k * ResampleChunkSize else |samples|]
    decreases k
  {
    if k > 0 {
      ChunksCover(samples, k - 1);
      var parts := seq(k, i requires 0 <= i < k => ChunkAt(samples, i));
      assert parts[..k - 1] == seq(k - 1, i requires 0 <= i < k - 1 => ChunkAt(samples, i));
      var lo := (k - 1) * ResampleChunkSize;
      assert lo < |samples|;
    }
  }

  /** `input_buf[..len].copy_from_slice(chunk)` followed by zeroing the rest
      when the chunk is short: the reused buffer after one iteration. */
  function FillBuffer(buf: seq<real>, chunk: seq<real>): (r: seq<real>)
    requires |buf| == ResampleChunkSize && |chunk| <= ResampleChunkSize
    ensures |r| == ResampleChunkSize
    ensures r[..|chunk|] == chunk
  {
    var copied := chunk + buf[|chunk|..];
    if |chunk| < ResampleChunkSize then
      copied[..|chunk|] + seq(ResampleChunkSize - |chunk|, _ => 0.0)
    else copied
  }

  /** The reused buffer never leaks samples of an earlier block: whatever it
      held before, it ends up holding exactly the padded chunk. */
  lemma FillBufferForgetsPrevious(buf: seq<real>, chunk: seq<real>)
    requires |buf| == ResampleChunkSize && |chunk| <= ResampleChunkSize
    ensures FillBuffer(buf, chunk) == chunk + Seqs.Zeros(ResampleChunkSize - |chunk|)
  {
  }

  /** The resampler driven over `blocks`, each call seeing the blocks before
      it; the outputs are concatenated in order and the first error aborts. */
  function RunResampler(rs: Resampler, history: seq<seq<real>>, blocks: seq<seq<real>>): (r: Result<seq<real>>)
    ensures r.Err? ==> "resampling error: " <= r.error
    decreases |blocks|
  {
    if |blocks| == 0 then Ok([])
    else
      match rs.process(history, blocks[0])
      case Err(e) => Err("resampling error: " + e)
      case Ok(out) =>
        match RunResampler(rs, history + [blocks[0]], blocks[1..])
        case Err(e) => Err(e)
        case Ok(rest) => Ok(out + rest)
  }

  /** The resampled output is the concatenation, in block order, of what the
      resampler returned for each block; it fails exactly when some block
      fails, with the first failure's message. */
  lemma {:induction false} RunResamplerSpec(rs: Resampler, history: seq<seq<real>>, blocks: seq<seq<real>>)
    ensures RunResampler(rs, history, blocks).Ok? <==>
              forall k | 0 <= k < |blocks| :: rs.process(history + blocks[..k], blocks[k]).Ok?
    ensures RunResampler(rs, history, blocks).Ok? ==>
              RunResampler(rs, history, blocks).value ==
                Seqs.Concat(seq(|blocks|, k requires 0 <= k < |blocks| && rs.process(history + blocks[..k], blocks[k]).Ok? =>
                                              rs.process(history + blocks[..k], blocks[k]).value))
    decreases |blocks|
  {
    if |blocks| > 0 {
      var rest := blocks[1..];
      var h' := history + [blocks[0]];
      RunResamplerSpec(rs, h', rest);
      assert history + blocks[..0] == history;
      forall k | 0 <= k < |rest|
        ensures h' + rest[..k] == history + blocks[..k + 1]
      {
        assert blocks[..k + 1] == [blocks[0]] + rest[..k];
      }
      if RunResampler(rs, history, blocks).Ok? {
        var outs := seq(|blocks|, k requires 0 <= k < |blocks| && rs.process(history + blocks[..k], blocks[k]).Ok? =>
                                   rs.process(history + blocks[..k], blocks[k]).value);
        var outs' := seq(|rest|, k requires 0 <= k < |rest| && rs.process(h' + rest[..k], rest[k]).Ok? =>
                                   rs.process(h' + rest[..k], rest[k]).value);
        assert outs == [outs[0]] + outs';
        Seqs.ConcatCons(outs[0], outs');
      } else if rs.process(history, blocks[0]).Ok? {
        var k' :| 0 <= k' < |rest| && !rs.process(h' + rest[..k'], rest[k']).Ok?;
        assert !rs.process(history + blocks[..k' + 1], blocks[k' + 1]).Ok?;
      }
    }
  }

  /** `prefix` put in front of a successful output; errors pass through. */
  function PrefixWith(prefix: seq<real>, r: Result<seq<real>>): Result<seq<real>> {
    match r
    case Ok(v) => Ok(prefix + v)
    case Err(e) => r
  }

  lemma RunResamplerStep(rs: Resampler, history: seq<seq<real>>, blocks: seq<seq<real>>, k: nat)
    requires k < |blocks|
    requires rs.process(history, blocks[k]).Ok?
    ensures RunResampler(rs, history, blocks[k..]) ==
              PrefixWith(rs.process(history, blocks[k]).value, RunResampler(rs, history + [blocks[k]], blocks[k + 1..]))
  {
    assert blocks[k..][0] == blocks[k];
    assert blocks[k..][1..] == blocks[k + 1..];
  }

  lemma PrefixWithTwice(a: seq<real>, b: seq<real>, r: Result<seq<real>>)
    ensures PrefixWith(a, PrefixWith(b, r)) == PrefixWith(a + b, r)
  {
    if r.Ok? {
      assert a + (b + r.value) == (a + b) + r.value;
    }
  }

  /** The resampling loop as written: one reused 1024-sample buffer, refilled
      from each chunk of the input and handed to the resampler. */
  method ResampleInBlocks(samples: seq<real>, rs: Resampler) returns (r: Result<seq<real>>)
    ensures r == RunResampler(rs, [], Blocks(samples))
  {
    var blocks := Blocks(samples);
    var n := NumBlocks(|samples|);
    var inputBuf := Seqs.Zeros(ResampleChunkSize);
    var resampled: seq<real> := [];
    var history: seq<seq<real>> := [];
    var k := 0;
    assert blocks[0..] == blocks;
    assert RunResampler(rs, [], blocks).Ok? ==> [] + RunResampler(rs, [], blocks).value == RunResampler(rs, [], blocks).value;
    while k < n
      invariant 0 <= k <= n
      invariant |inputBuf| == ResampleChunkSize
      invariant history == blocks[..k]
      invariant RunResampler(rs, [], blocks) == PrefixWith(resampled, RunResampler(rs, history, blocks[k..]))
    {
      var chunk := ChunkAt(samples, k);
      FillBufferForgetsPrevious(inputBuf, chunk);
      inputBuf := FillBuffer(inputBuf, chunk);
      assert inputBuf == blocks[k];
      var out := rs.process(history, inputBuf);
      if out.Err? {
        assert blocks[k..][0] == blocks[k];
        assert RunResampler(rs, history, blocks[k..]) == Err("resampling error: " + out.error);
        return Err("resampling error: " + out.error);
      }
      RunResamplerStep(rs, history, blocks, k);
      PrefixWithTwice(resampled, out.value, RunResampler(rs, history + [inputBuf], blocks[k + 1..]));
      resampled := resampled + out.value;
      history := history + [inputBuf];
      assert blocks[..k + 1] == blocks[..k] + [blocks[k]];
      k := k + 1;
    }
    assert blocks[k..] == [];
    assert resampled + [] == resampled;
    r := Ok(resampled);
  }

  /* ---------------------------------------------------------------------
     The whole pipeline
     --------------------------------------------------------------------- */

  /** What opening and probing the file yields: an open error, a probe error,
      or the container's tracks and its packet stream. */
  datatype Media =
    | OpenFailed(message: string)
    | ProbeFailed(message: string)
    | Probed(tracks: seq<Track>, stream: seq<PacketRead>)

  /** `decode_and_resample`.  `makeResampler` is `FftFixedIn::new` for the
      track's native rate (output 16000 Hz, 1024-sample chunks, one channel). */
  function DecodeAndResample(media: Media, makeResampler: nat -> Result<Resampler>): (r: Result<seq<real>>)
    ensures media.OpenFailed? ==> r == Err("failed to open file: " + media.message)
    ensures media.ProbeFailed? ==> r == Err("failed to probe: " + media.message)
    ensures media.Probed? && SelectTrack(media.tracks).None? ==> r == Err("no supported audio tracks")
  {
    match media
    case OpenFailed(m) => Err("failed to open file: " + m)
    case ProbeFailed(m) => Err("failed to probe: " + m)
    case Probed(tracks, stream) =>
      match SelectTrack(tracks)
      case None => Err("no supported audio tracks")
      case Some(i) =>
        var track := tracks[i];
        if track.decoderError.Some? then Err("failed to create decoder: " + track.decoderError.value)
        else if track.sampleRate.None? then Err("missing sample rate")
        else
          match DecodePackets(stream, track.id)
          case Err(e) => Err(e)
          case Ok(samples) =>
            if track.sampleRate.value == TargetRate then Ok(samples)
            else
              match makeResampler(track.sampleRate.value)
              case Err(e) => Err("failed to create resampler: " + e)
              case Ok(rs) => RunResampler(rs, [], Blocks(samples))
  }

  /** The track decoded is the first one with a known codec; a missing sample
      rate is an error only once a decoder for it exists. */
  lemma TrackSelection(tracks: seq<Track>, stream: seq<PacketRead>, makeResampler: nat -> Result<Resampler>)
    requires SelectTrack(tracks).Some?
    ensures var t := tracks[SelectTrack(tracks).value];
      && (t.decoderError.Some? ==>
            DecodeAndResample(Probed(tracks, stream), makeResampler) == Err("failed to create decoder: " + t.decoderError.value))
      && (t.decoderError.None? && t.sampleRate.None? ==>
            DecodeAndResample(Probed(tracks, stream), makeResampler) == Err("missing sample rate"))
  {
  }

  /** At any rate other than 16 kHz, a decode-loop error is returned as it
      is, and a resampler that cannot be built gives "failed to create
      resampler: …"; in both cases no block is resampled. */
  lemma ErrorsBeforeResampling(tracks: seq<Track>, stream: seq<PacketRead>, makeResampler: nat -> Result<Resampler>)
    requires SelectTrack(tracks).Some?
    requires var t := tracks[SelectTrack(tracks).value];
      t.decoderError.None? && t.sampleRate.Some? && t.sampleRate.value != TargetRate
    ensures var t := tracks[SelectTrack(tracks).value];
      && (DecodePackets(stream, t.id).Err? ==>
            DecodeAndResample(Probed(tracks, stream), makeResampler) == DecodePackets(stream, t.id))
      && (DecodePackets(stream, t.id).Ok? && makeResampler(t.sampleRate.value).Err? ==>
            DecodeAndResample(Probed(tracks, stream), makeResampler)
              == Err("failed to create resampler: " + makeResampler(t.sampleRate.value).error))
  {
  }

  /** At 16 kHz the decoded samples are returned unchanged and the resampler
      is never built, whatever it would do. */
  lemma PassThroughAt16k(tracks: seq<Track>, stream: seq<PacketRead>, makeResampler: nat -> Result<Resampler>)
    requires SelectTrack(tracks).Some?
    requires var t := tracks[SelectTrack(tracks).value];
      t.decoderError.None? && t.sampleRate == Some(TargetRate)
    ensures DecodeAndResample(Probed(tracks, stream), makeResampler) ==
              DecodePackets(stream, tracks[SelectTrack(tracks).value].id)
  {
  }

  /** At any other rate the successful output is the in-order concatenation
      of the resampler's outputs over `ceil(n / 1024)` zero-padded blocks. */
  lemma ResampledOutput(tracks: seq<Track>, stream: seq<PacketRead>, makeResampler: nat -> Result<Resampler>)
    requires SelectTrack(tracks).Some?
    requires var t := tracks[SelectTrack(tracks).value];
      && t.decoderError.None? && t.sampleRate.Some? && t.sampleRate.value != TargetRate
      && DecodePackets(stream, t.id).Ok?
      && makeResampler(t.sampleRate.value).Ok?
    ensures var t := tracks[SelectTrack(tracks).value];
      var samples := DecodePackets(stream, t.id).value;
      var rs := makeResampler(t.sampleRate.value).value;
      && |Blocks(samples)| == NumBlocks(|samples|)
      && DecodeAndResample(Probed(tracks, stream), makeResampler) == RunResampler(rs, [], Blocks(samples))
  {
  }
}
