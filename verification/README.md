# transcribe-rs core, modelled in Dafny

This project models the audio-handling core of `transcribe-rs`, a Rust
library that turns audio into text through several speech-recognition
engines. The model covers:

- **Smart chunking** (`SmartChunker::chunk_audio`, module `Chunking`). Long
  16 kHz audio is split into chunks of about 30 seconds. A chunk starting
  within 30 s of the end (start + 480000 ≥ length) takes the rest with no
  detector call. For every other chunk, the Silero voice-activity detector
  classifies 480-sample (30 ms) frames. The first frame starts 160 samples
  before the chunk start plus 25 s, at sample 399840 of the chunk. Frames are
  taken while they start before the chunk start plus 35 s and fit in the
  audio. The cut goes at the end of the first silent frame, which can be up to
  160 samples past the 35 s mark; with no silent frame the cut stays at 30 s
  (or the end of the audio). One detector serves the whole run and is never
  reset. Each chunk goes to a transcription callback, and the texts are joined
  with single spaces. Progress is reported as a percentage after every chunk.
  The `while` loop of the source is the tail-recursive method
  `Chunking.ChunkFrom`, one call per iteration.
- **Voice-activity detection** (`SileroVad`, module `Vad`). This covers the
  detector's recurrent `h`/`c` state tensors, their update after each frame
  (including every error path), `reset`, and the 0.5 speech threshold. The
  ONNX session is a function parameter (`Session.run`).
- **Decoding and resampling** (`decode_and_resample`, module `Decoder`).
  This covers track selection, the packet loop with its error policy, the
  per-format normalisation and channel down-mix, the 16 kHz pass-through,
  and cutting the samples into zero-padded 1024-sample blocks for the
  resampler. The resampler is a function parameter (`Resampler.process`).
- **The whisperfile engine** (`WhisperfileEngine`, module `Whisperfile`).
  This covers the conversion of the server's verbose JSON into a
  `TranscriptionResult`, including Rust's `trim` over Unicode white space.
  It also covers the parameter defaults, the load/unload state machine with
  its checks in source order, the not-loaded guard of both `transcribe_*`
  entry points, and the multipart form that is posted to `/inference`.

Shared modules: `Wrappers` (`Option`, `Result` with a message string) and
`Seqs` (concatenation of a sequence of sequences, and the byte type).

Things the model receives as parameters rather than performing itself:

- the ONNX session;
- the packet stream and the tracks of a probed file;
- the decoder's per-packet outcome;
- the resampler;
- file-system existence checks;
- process spawning and the server readiness poll;
- the HTTP exchange and JSON parsing;
- the WAV encoder and file reading;
- the chunk callback.

Progress reports are collected into a sequence instead of being passed to a
callback.

## Model

| member | source | states |
|---|---|---|
| Vad.New | src/vad.rs:15-27 | A detector is created exactly when its model session is. Its `h` and `c` are 2×1×64 zero tensors and its rate input is 16000. A session error is passed through unchanged |
| Vad.ToTensor3 | src/vad.rs:57-61 | Reshaping an extracted tensor into three dimensions succeeds exactly when its shape has rank 3 and its element count equals the product of the dimensions; on success the data and shape are kept |
| Vad.PushFrame | src/vad.rs:29-64 | A failed inference leaves the state untouched; on success the probability is the first output element and `h`, `c` become the returned `hn`, `cn` data with their shapes; any failure leaves `c` unchanged; session and rate are never changed |
| Vad.PushConformingKeepsShape | src/vad.rs:47-63 | When the model answers with f32 tensors of the model's own shape, the frame is classified, the state keeps the 2×1×64 shape, and the verdict is speech exactly when the probability exceeds 0.5 |
| Vad.CellShapeErrorKeepsNewHidden | src/vad.rs:60-61 | If `cn` cannot be reshaped, the frame fails after `h` was already replaced: the state is left half-updated |
| Vad.Reset | src/vad.rs:66-69 | Reset zeroes every element of `h` and `c` and keeps their shapes, the session and the rate |
| Vad.ResetMatchesFresh | src/vad.rs:21-26 | After a reset, a detector with the model's state shape is indistinguishable from a newly created one on the same session |
| Vad.ResetThenReplay | src/vad.rs:66-69 | For a detector with the model's 2×1×64 state and 16 kHz rate (as `New` builds it, and as a push keeps it when the model answers in its own shape), after a reset any sequence of frames produces exactly the probabilities a fresh detector would produce |
| Vad.ResetIdempotent | src/vad.rs:66-69 | Resetting twice is the same as resetting once |
| Vad.PushKeepsSampleRate | src/vad.rs:29-64 | A push that returns a detector (classified or failed) keeps the 16 kHz rate input, since `push_frame` never assigns `sr` |
| Vad.FailedRunKeepsState | src/vad.rs:47 | When the session's run fails, the frame fails and the detector state is exactly as before |
| Vad.IsSpeechThreshold | src/vad.rs:76-79 | A frame is speech exactly when its probability is strictly above 0.5, so 0.5 itself is silence |
| Chunking.AlignedSearchStartValue | src/chunking.rs:39-55 | For a non-final chunk the search window starts 25 s after the chunk start, and the frame-aligned start is 833 frames (399840 samples) in |
| Chunking.ClassifyFrame | src/chunking.rs:63-85 | A frame is silence exactly when the detector classifies it with probability ≤ 0.5, speech when above, and "errored" when the detector returns an error; the detector state after the frame is the one `push_frame` leaves |
| Chunking.ScanWindow | src/chunking.rs:57-86 | The scan visits whole frames from the aligned start; it stops at the first silent frame and cuts at that frame's end; every frame before it was speech or errored; without silence it stops only when the next frame would start at or past the window end or run past the audio; a panic happens inside the window, after frames that were all speech or errored |
| Chunking.ScanWindowFollowsDetector | src/chunking.rs:57-86 | The verdicts are exactly the detector's classifications of consecutive frames, each frame classified by the detector state the previous frame left; after a scan the detector is the one left by its last frame; a panic comes from the frame right after the recorded ones |
| Chunking.TraceAt | src/chunking.rs:63-85 | The i-th verdict of a scan is the classification of the i-th frame (samples pos+480·i up to pos+480·(i+1)) by the detector state after the first i frames |
| Chunking.PanicsAt | src/chunking.rs:63-69 | In a scan that panics, the panicking frame lies in the audio and is the one right after the classified frames, fed to the detector they left |
| Chunking.ChooseEnd | src/chunking.rs:34-96 | Every chunk end lies strictly after its start and within the audio; a chunk starting within 30 s of the end (start + 480000 ≥ length) takes the rest with no detector call, while a silence cut may also land exactly on the end after detector calls; without silence the cut is min(start+30 s, length), and no frame was silent; with silence the cut is the end of the first silent frame |
| Chunking.ChooseEndFollowsDetector | src/chunking.rs:34-96 | Away from the end of the audio, the verdicts are the detector's classifications of the frames from the aligned start, the returned detector is the one the last frame left, and a cut without silence means the frames ran out (window end or audio end); a panic is on a frame inside the window, after non-silent frames |
| Chunking.CutRange | src/chunking.rs:54-67 | A silence cut lies between start+400320 and start+560160 samples and at most 160 samples (a third of a frame) past the search window end |
| Chunking.ChunkAudio | src/chunking.rs:9-124 | A detector creation error gives "Failed to initialize VAD: …" and no chunk is processed. Chunks are non-empty and contiguous, start at 0, and use legal cuts. After each chunk the progress reported is end/total·100. On success the chunks cover the whole audio, are exactly the cuts `Segmentation` chooses with one detector threaded from chunk to chunk, and the text is the callback answers, accumulated with a space before each one once the text is non-empty. A callback error stops the run with that error; every earlier chunk succeeded and the chunks are a prefix of that segmentation. A detector panic ends the run on the first chunk whose cut panics, with exactly the segmentation's chunks before it |
| Chunking.ChunkFrom | src/chunking.rs:32-116 | One iteration of the chunking loop: from a processed prefix that follows the segmentation, the run finishes with the same guarantees as the whole of `chunk_audio`; at the end of the audio it returns the accumulated text |
| Chunking.EndBeforeStart | src/chunking.rs:98-116 | Chunks follow each other in order and never overlap |
| Chunking.CoverPartition | src/chunking.rs:32-116 | Every sample below the reached position lies in exactly one chunk |
| Chunking.ChunksConcatenate | src/chunking.rs:98-99 | Concatenating the chunk sample vectors in order gives back the processed audio unchanged |
| Chunking.ProgressIncreasing | src/chunking.rs:118-120 | Reported progress strictly increases, stays in (0, 100], and ends at exactly 100 when all audio was processed |
| Chunking.ShortInputSingleSegment | src/chunking.rs:34-35 | Audio of at most 30 s is one chunk covering everything, with progress reported once at 100 |
| Chunking.JoinSkipsLeadingEmpty | src/chunking.rs:109-113 | The joined text equals the space-separated join of the chunk texts from the first non-empty one onwards: leading empty chunk texts add no separator |
| Chunking.Join | src/chunking.rs:109-113 | The accumulated text is empty exactly when every chunk text is empty |
| Chunking.JoinNonEmpty | src/chunking.rs:109-113 | When the first chunk text is non-empty, the result is all chunk texts joined by single spaces |
| Chunking.JoinEmptyFirst | src/chunking.rs:110-113 | An empty first chunk text changes nothing in the joined text |
| Decoder.SelectTrack | src/audio/decoder.rs:70-75 | The chosen track is the first whose codec is not the null codec; there is none exactly when every track's codec is null |
| Decoder.TrackSelection | src/audio/decoder.rs:77-86 | For the first decodable track, a decoder creation error gives "failed to create decoder: …"; otherwise a missing sample rate gives "missing sample rate" |
| Decoder.BufferSamples | src/audio/decoder.rs:111-153 | A decoded f32, f64, u8 or s16 buffer contributes one mono sample per frame; any other sample format contributes nothing |
| Decoder.Downmix | src/audio/decoder.rs:113-119 | The running per-frame sum over the channels, divided by the channel count, gives one sample per frame, and each is the mean over all channels of that frame |
| Decoder.ChannelSumIsSum | src/audio/decoder.rs:114-117 | Adding the first c channels' normalised values one at a time, left to right, gives the sum of the first c entries of that frame's column |
| Decoder.NormalizeU8Range | src/audio/decoder.rs:126 | An unsigned 8-bit sample maps into [-1, 127/128], with 0 at -1 and 255 at 127/128 |
| Decoder.NormalizeS16Range | src/audio/decoder.rs:136 | A signed 16-bit sample maps into [-1, 32767/32768], with -32768 at -1 and 32767 at 32767/32768 |
| Decoder.U8SamplesRange | src/audio/decoder.rs:121-130 | Down-mixed unsigned 8-bit audio maps into [-1, 127/128] |
| Decoder.S16SamplesRange | src/audio/decoder.rs:131-140 | Down-mixed signed 16-bit audio maps into [-1, 32767/32768] |
| Decoder.MonoPassThrough | src/audio/decoder.rs:112-119 | A single-channel f32 buffer passes through sample for sample |
| Decoder.MeanBounds | src/audio/decoder.rs:114-118 | When every channel value lies in [lo, hi], so does their mean |
| Decoder.FirstStop | src/audio/decoder.rs:91-97 | The decode loop runs until the first read that is end-of-file or a fatal error; every earlier read continues the loop |
| Decoder.DecodePackets | src/audio/decoder.rs:91-162 | A stream with no fatal read decodes successfully, and every failure carries one of the "io error", "failed to read packet" or "failed to decode" messages |
| Decoder.DecodePacketsSpec | src/audio/decoder.rs:91-162 | The samples are the concatenation of the contributions of the reads before the first stop; the loop fails exactly when that stop is fatal, with the matching "io error", "failed to read packet" or "failed to decode" message |
| Decoder.SkippedReadIsInert | src/audio/decoder.rs:104-159 | A packet of another track, or one whose decoding fails with a recoverable decode error, leaves the decoded samples and the outcome unchanged |
| Decoder.ContributionLength | src/audio/decoder.rs:104-153 | A packet contributes one sample per frame when it belongs to the selected track and decodes to a supported buffer, and nothing otherwise |
| Decoder.Blocks | src/audio/decoder.rs:169-187 | The samples are cut into ⌈n/1024⌉ blocks of exactly 1024 samples, each the next chunk padded with zeros |
| Decoder.ChunksCover | src/audio/decoder.rs:176-179 | The unpadded chunks, concatenated in order, give back the samples |
| Decoder.FillBuffer | src/audio/decoder.rs:178-186 | The refilled input buffer keeps the resampler's block length and starts with the chunk |
| Decoder.FillBufferForgetsPrevious | src/audio/decoder.rs:178-186 | Refilling the reused input buffer leaves no trace of the previous block: the new block is the chunk followed by zeros |
| Decoder.RunResampler | src/audio/decoder.rs:188-194 | Every failure of the block loop is reported as "resampling error: …" |
| Decoder.RunResamplerSpec | src/audio/decoder.rs:188-194 | Resampling succeeds exactly when every block is accepted, and then the output is the concatenation of the per-block outputs; the first rejected block gives "resampling error: …" |
| Decoder.ResampleInBlocks | src/audio/decoder.rs:173-196 | The block loop computes exactly the block-by-block resampling result |
| Decoder.DecodeAndResample | src/audio/decoder.rs:39-86 | Open and probe failures give "failed to open file: …" and "failed to probe: …"; a file with no decodable track gives "no supported audio tracks" |
| Decoder.ErrorsBeforeResampling | src/audio/decoder.rs:160-171 | At any rate other than 16 kHz, a decode-loop error is returned unchanged, and a resampler that cannot be built gives "failed to create resampler: …" |
| Decoder.PassThroughAt16k | src/audio/decoder.rs:164-166 | Audio whose first decodable track is at 16 kHz is returned as decoded, with no resampler created |
| Decoder.ResampledOutput | src/audio/decoder.rs:168-196 | Audio at any other rate, once a resampler exists, is returned as the block-by-block resampler output over ⌈n/1024⌉ blocks |
| Whisperfile.Trim | src/engines/whisperfile.rs:69 | Trimming never makes the text longer |
| Whisperfile.TrimSpec | src/engines/whisperfile.rs:69 | The transcript text is the server's text with exactly its leading and trailing Unicode white space removed |
| Whisperfile.TrimUnique | src/engines/whisperfile.rs:69 | Any white-space-stripped substring with non-white-space ends equals the trimmed text |
| Whisperfile.TrimIdempotent | src/engines/whisperfile.rs:69 | Trimming a trimmed text changes nothing |
| Whisperfile.ToTranscriptionResult | src/engines/whisperfile.rs:50-73 | Segments are absent exactly when the server returned none, and otherwise keep every segment's start, end and text in order; the text is the trimmed server text |
| Whisperfile.DefaultServerUrl | src/engines/whisperfile.rs:86-94 | With default model parameters the server runs at http://127.0.0.1:8080 and gets 30 s to start |
| Whisperfile.DefaultForm | src/engines/whisperfile.rs:113-121 | With default inference parameters the request carries only the WAV file and `response_format=verbose_json` |
| Whisperfile.NewEngine | src/engines/whisperfile.rs:160-167 | A new engine has no server and an empty URL |
| Whisperfile.Unload | src/engines/whisperfile.rs:251-258 | Unloading leaves no server process and an empty URL and keeps the binary path |
| Whisperfile.UnloadIdempotent | src/engines/whisperfile.rs:251-258 | Unloading twice is the same as unloading once, and unloading a new engine changes nothing |
| Whisperfile.LoadModel | src/engines/whisperfile.rs:205-249 | The old server is always stopped first; a missing binary, then a missing model, fail with their messages before anything is spawned; loading succeeds exactly when both exist, the spawn succeeds and the server answers in time, and then the engine holds the new child and the URL http://host:port. A failed spawn gives "Failed to spawn whisperfile server: …" and leaves the URL set with no process; a server that does not answer gives "Whisperfile server failed to start within N seconds" |
| Whisperfile.LoadStopsPreviousServer | src/engines/whisperfile.rs:210-211 | After a load the engine never holds a process other than the one just spawned, and a load that fails on a missing binary or model leaves no server and an empty URL |
| Whisperfile.FailedStartupKeepsChild | src/engines/whisperfile.rs:243-246 | A server that spawns but never answers makes the load fail, yet the engine keeps the child and counts as loaded |
| Whisperfile.OptionalFields | src/engines/whisperfile.rs:317-332 | Each optional field is sent exactly when its parameter is set (language, translate, temperature, response format), and each is a text field |
| Whisperfile.OptionalFieldsExactly | src/engines/whisperfile.rs:317-332 | The field names are exactly the set parameters taken in the fixed order language, translate, temperature, response format: no other name, no repeated name, no other order |
| Whisperfile.FieldValues | src/engines/whisperfile.rs:318-332 | Each set optional parameter is sent under its own field name with its value: language, translate as "true", temperature, response format |
| Whisperfile.BuildForm | src/engines/whisperfile.rs:311-332 | The form starts with the WAV file part named "file" ("audio.wav", audio/wav), followed by exactly the optional text fields |
| Whisperfile.TranscribeWavBytes | src/engines/whisperfile.rs:304-351 | The request goes to the server URL plus "/inference"; a send failure, a non-2xx status and a JSON error each become the matching error; only a 2xx reply with valid JSON yields the converted result |
| Whisperfile.TranscribeSamples | src/engines/whisperfile.rs:260-287 | Without a running server the call fails with "Model not loaded. Call load_model() first." before anything is encoded; otherwise the encoded WAV is sent |
| Whisperfile.TranscribeFile | src/engines/whisperfile.rs:289-300 | Without a running server the call fails with the not-loaded error before the file is read; otherwise the file's bytes are sent, and a read error is returned as is |
| Whisperfile.UnloadedRefusesTranscription | src/engines/whisperfile.rs:251-296 | After unloading, every transcription request fails with the not-loaded error, whatever the server would answer |

## Left out

- ONNX Runtime session building and inference: the session is a function parameter (`Vad.Session.run`) returning the three raw output tensors or an error.
- Input tensor construction (`from_shape_vec((1, n))`, `Value::from_array`): the source propagates their errors with `?`; the model assumes these conversions succeed and does not model them as error paths.
- `Vad.PushFrame`: an empty `output` tensor makes the source panic on `output_data[0]`; the model returns `Panicked` rather than a value, and the chunker propagates it as `Panicked`.
- Symphonia probing, container parsing and codec work: the probed media, its tracks, the packet stream and each packet's decode outcome are inputs (`Decoder.Media`, `PacketRead`, `DecodeOutcome`).
- `Decoder.DecodePackets`: the packet stream is a finite sequence, and reaching its end is treated like the reader's end-of-file error.
- `Decoder.AudioBuffer`: channel counts and plane lengths are assumed to agree with the frame count, which the decoder library guarantees; this is the `Buffer` subset type.
- Metadata popping and all logging (`debug!`, `warn!`) have no effect on results and are left out.
- Floating point: samples and probabilities are reals. `f32` rounding, the `f64 → f32` cast, and `f32` accumulation order are not modelled.
- `Decoder.ResampleInBlocks`: the FFT resampler is a function parameter that sees the history of earlier blocks; its numeric behaviour (rate conversion, latency, output length) is not modelled.
- `save_wav_file`, and the WAV encoding inside `transcribe_samples` (including the `f32 → i16` saturating cast): the encoder is the `encodeWav` parameter.
- Process spawning, killing and waiting, the readiness poll with its clock and sleeps, reqwest, and serde parsing: each is a parameter (`LoadEnvironment`, `Server.post`, `Server.parse`).
- `Whisperfile.BuildForm`: the `f32` temperature is carried as a number, not as Rust's decimal rendering of it.
- `Whisperfile.TranscribeWavBytes`: the HTTP status line and body text are taken as given; a failure to read the body of a non-2xx reply (which the source turns into an empty body) is folded into that body string.
- `Whisperfile.TranscribeWavBytes`: a failure to read the body of a 2xx reply (`response.text()?`, src/engines/whisperfile.rs:348) is not modelled; the body is assumed readable.
- The `Drop` implementation of the whisperfile engine just calls `unload_model`, which is modelled.
- `Chunking.ChunkAudio`: `usize` overflow of `start_idx + TARGET_CHUNK_SIZE` is not modelled (indices are unbounded), because a slice that long cannot exist.
- `Chunking.ChunkAudio`: the VAD model path is replaced by the outcome of creating the detector's session.
- Other engines (moonshine, parakeet, whisper), the tokenizer, the engine trait defaults, examples and tests are outside this model.
