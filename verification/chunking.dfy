/** The silence-seeking chunker `SmartChunker::chunk_audio` (src/chunking.rs).

    The chunker walks a 16 kHz sample buffer from the front.  Each segment
    runs to the end of the buffer when at most one target length remains;
    otherwise the chunker scans 480-sample frames in a window around the
    30-second mark with ONE voice-activity detector (never reset between
    windows), cuts after the first frame the detector calls non-speech, and
    falls back to a hard cut at the target.  Every segment is handed to the
    processing callback; the texts are joined with spaces and progress is
    reported after each segment.

    The callback is a function of the call index and the segment's samples
    (the index stands for whatever state the caller's closure keeps); the
    progress callback is recorded as the sequence of values it receives. */
module Chunking {
  import opened Wrappers
  import Seqs
  import Vad

  const SampleRate: nat := 16000
  /** 30 seconds of samples. */
  const TargetChunkSize: nat := 30 * SampleRate
  /** 5 seconds on either side of the target cut. */
  const SearchWindow: nat := 5 * SampleRate
  /** 30 ms frames, the detector's unit of classification. */
  const FrameSize: nat := 480

  const VadInitError: string := "Failed to initialize VAD: "

  function Min(a: nat, b: nat): nat {
    if a <= b then a else b
  }

  function Max(a: nat, b: nat): nat {
    if a >= b then a else b
  }

  /** `usize::saturating_sub` */
  function SaturatingSub(a: nat, b: nat): nat {
    if a >= b then a - b else 0
  }

  /* ---------------------------------------------------------------------
     The search window
     --------------------------------------------------------------------- */

  function TargetEnd(start: nat): nat {
    start + TargetChunkSize
  }

  /** `search_start`: five seconds before the target, but not before `start`. */
  function SearchStart(start: nat): nat {
    Max(SaturatingSub(TargetEnd(start), SearchWindow), start)
  }

  /** `search_end`: five seconds after the target, but not past the buffer. */
  function SearchEnd(start: nat, total: nat): nat {
    Min(TargetEnd(start) + SearchWindow, total)
  }

  /** `search_start` rounded down to a frame boundary counted from `start`. */
  function AlignedSearchStart(start: nat): nat {
    start + ((SearchStart(start) - start) / FrameSize) * FrameSize
  }

  /** The window always begins 399 840 samples (833 whole frames) after the
      segment start: 160 samples before the unaligned `search_start`. */
  lemma AlignedSearchStartValue(start: nat)
    ensures SearchStart(start) == start + 400000
    ensures AlignedSearchStart(start) == start + 399840
    ensures AlignedSearchStart(start) == start + 833 * FrameSize
  {
  }

  /* ---------------------------------------------------------------------
     Frame scan
     --------------------------------------------------------------------- */

  /** What the scan learned from one frame: speech, non-speech, or a
      detector error (logged and treated as "not silence"). */
  datatype Verdict = Speech | NonSpeech | Errored

  /** The scan over one window: the cut found (if any), the verdict of every
      frame scanned in order, and the detector as the scan leaves it; or the
      verdicts of the frames before the one whose classification panicked. */
  datatype ScanResult =
    | Scanned(cut: Option<nat>, verdicts: seq<Verdict>, vad: Vad.Vad)
    | ScanPanicked(verdicts: seq<Verdict>, message: string)

  function Prepend(v: Verdict, r: ScanResult): ScanResult {
    match r
    case Scanned(cut, vs, vad) => Scanned(cut, [v] + vs, vad)
    case ScanPanicked(vs, m) => ScanPanicked([v] + vs, m)
  }

  /** One `push_frame` call seen by the scan: its verdict and the detector
      afterwards, or the panic. */
  datatype FrameStep = Classified(verdict: Verdict, vad: Vad.Vad) | StepPanicked(message: string)

  function ClassifyFrame(vad: Vad.Vad, frame: seq<real>): (s: FrameStep)
    ensures s.Classified? && s.verdict == NonSpeech ==>
              Vad.PushFrame(vad, frame).Pushed? && !Vad.PushFrame(vad, frame).result.IsSpeech()
    ensures s.Classified? && s.verdict == Speech ==>
              Vad.PushFrame(vad, frame).Pushed? && Vad.PushFrame(vad, frame).result.IsSpeech()
    ensures s.Classified? && s.verdict == Errored ==> Vad.PushFrame(vad, frame).Failed?
    ensures s.Classified? ==> s.vad == Vad.PushFrame(vad, frame).vad
    ensures s.StepPanicked? <==> Vad.PushFrame(vad, frame).Panicked?
  {
    match Vad.PushFrame(vad, frame)
    case Panicked(m) => StepPanicked(m)
    case Failed(_, vad') => Classified(Errored, vad')
    case Pushed(res, vad') => Classified(if res.IsSpeech() then Speech else NonSpeech, vad')
  }

  /** The `i`-th 480-sample frame counted from `pos`. */
  function FrameAt(audio: seq<real>, pos: nat, i: nat): seq<real>
    requires pos + FrameSize * (i + 1) <= |audio|
  {
    audio[pos + FrameSize * i..pos + FrameSize * (i + 1)]
  }

  /** The detector after classifying the first `n` frames from `pos`, each
      frame seeing the detector the previous one left (stopping early where
      a frame no longer fits or its classification panics). */
  function VadAfter(audio: seq<real>, pos: nat, n: nat, vad: Vad.Vad): Vad.Vad
    decreases n
  {
    if n == 0 || pos + FrameSize > |audio| then vad
    else
      match ClassifyFrame(vad, audio[pos..pos + FrameSize])
      case StepPanicked(_) => vad
      case Classified(_, vad') => VadAfter(audio, pos + FrameSize, n - 1, vad')
  }

  /** `vs` are the verdicts of the first `|vs|` frames from `pos`: each
      frame fits in the buffer, its classification does not panic, and the
      next frame is classified by the detector this one left. */
  ghost predicate Trace(audio: seq<real>, pos: nat, vad: Vad.Vad, vs: seq<Verdict>)
    decreases |vs|
  {
    || |vs| == 0
    || (&& pos + FrameSize <= |audio|
        && var step := ClassifyFrame(vad, audio[pos..pos + FrameSize]);
        && step.Classified?
        && step.verdict == vs[0]
        && Trace(audio, pos + FrameSize, step.vad, vs[1..]))
  }

  predicate NoSilence(vs: seq<Verdict>) {
    forall i | 0 <= i < |vs| :: vs[i] != NonSpeech
  }

  /** The frames of `vs` are classified as in `Trace`, and the frame right
      after them fits in the buffer and panics the detector. */
  ghost predicate PanicsAfter(audio: seq<real>, pos: nat, vad: Vad.Vad, vs: seq<Verdict>, message: string)
    decreases |vs|
  {
    && pos + FrameSize <= |audio|
    && var step := ClassifyFrame(vad, audio[pos..pos + FrameSize]);
    && (|vs| == 0 ==> step == StepPanicked(message))
    && (|vs| > 0 ==>
          && step.Classified?
          && step.verdict == vs[0]
          && PanicsAfter(audio, pos + FrameSize, step.vad, vs[1..], message))
  }

  /** Classifying one more frame in front of a trace: the detector after
      the longer trace is the one after the shorter trace, started from the
      detector that first frame left. */
  lemma TraceCons(audio: seq<real>, pos: nat, vad: Vad.Vad, v: Verdict, vad': Vad.Vad, vs: seq<Verdict>)
    requires pos + FrameSize <= |audio|
    requires ClassifyFrame(vad, audio[pos..pos + FrameSize]) == Classified(v, vad')
    requires Trace(audio, pos + FrameSize, vad', vs)
    ensures Trace(audio, pos, vad, [v] + vs)
    ensures VadAfter(audio, pos, |vs| + 1, vad) == VadAfter(audio, pos + FrameSize, |vs|, vad')
  {
    assert ([v] + vs)[1..] == vs;
  }

  /** A trace read frame by frame: frame `i` is classified by the detector
      the first `i` frames left, gives the `i`-th verdict, and leaves the
      detector for frame `i + 1`. */
  lemma {:induction false} TraceAt(audio: seq<real>, pos: nat, vad: Vad.Vad, vs: seq<Verdict>, i: nat)
    requires Trace(audio, pos, vad, vs)
    requires i < |vs|
    ensures pos + FrameSize * (i + 1) <= |audio|
    ensures ClassifyFrame(VadAfter(audio, pos, i, vad), FrameAt(audio, pos, i))
              == Classified(vs[i], VadAfter(audio, pos, i + 1, vad))
    decreases i
  {
    var step := ClassifyFrame(vad, audio[pos..pos + FrameSize]);
    if i > 0 {
      TraceAt(audio, pos + FrameSize, step.vad, vs[1..], i - 1);
      assert FrameAt(audio, pos, i) == FrameAt(audio, pos + FrameSize, i - 1);
    }
  }

  lemma PanicsAfterCons(audio: seq<real>, pos: nat, vad: Vad.Vad, v: Verdict, vad': Vad.Vad,
                        vs: seq<Verdict>, message: string)
    requires pos + FrameSize <= |audio|
    requires ClassifyFrame(vad, audio[pos..pos + FrameSize]) == Classified(v, vad')
    requires PanicsAfter(audio, pos + FrameSize, vad', vs, message)
    ensures PanicsAfter(audio, pos, vad, [v] + vs, message)
  {
    assert ([v] + vs)[1..] == vs;
  }

  /** The panicking frame read by index: it is frame `|vs|`, classified by
      the detector the traced frames left. */
  lemma {:induction false} PanicsAt(audio: seq<real>, pos: nat, vad: Vad.Vad, vs: seq<Verdict>, message: string)
    requires PanicsAfter(audio, pos, vad, vs, message)
    ensures Trace(audio, pos, vad, vs)
    ensures pos + FrameSize * (|vs| + 1) <= |audio|
    ensures ClassifyFrame(VadAfter(audio, pos, |vs|, vad), FrameAt(audio, pos, |vs|)) == StepPanicked(message)
    decreases |vs|
  {
    var step := ClassifyFrame(vad, audio[pos..pos + FrameSize]);
    if |vs| == 0 {
      assert FrameAt(audio, pos, 0) == audio[pos..pos + FrameSize];
    } else {
      PanicsAt(audio, pos + FrameSize, step.vad, vs[1..], message);
      assert FrameAt(audio, pos, |vs|) == FrameAt(audio, pos + FrameSize, |vs| - 1);
    }
  }

  /** The `for current_pos in (..).step_by(480)` loop from `pos`: stops at
      `search_end`, stops when a whole frame no longer fits in the buffer,
      and stops at the first frame the detector calls non-speech.
      `ScanWindowFollowsDetector` ties the verdicts to the detector. */
  function ScanWindow(audio: seq<real>, pos: nat, searchEnd: nat, vad: Vad.Vad): (r: ScanResult)
    decreases searchEnd - pos
    ensures r.ScanPanicked? ==>
      && NoSilence(r.verdicts)
      && pos + FrameSize * |r.verdicts| < searchEnd
    ensures r.Scanned? && |r.verdicts| > 0 ==>
      && pos + FrameSize * |r.verdicts| <= |audio|
      && pos + FrameSize * (|r.verdicts| - 1) < searchEnd
    ensures r.Scanned? && r.cut.None? ==>
      && NoSilence(r.verdicts)
      && (pos + FrameSize * |r.verdicts| >= searchEnd || pos + FrameSize * |r.verdicts| + FrameSize > |audio|)
    ensures r.Scanned? && r.cut.Some? ==>
      && |r.verdicts| > 0
      && r.verdicts[|r.verdicts| - 1] == NonSpeech
      && (forall i | 0 <= i < |r.verdicts| - 1 :: r.verdicts[i] != NonSpeech)
      && r.cut.value == pos + FrameSize * |r.verdicts|
  {
    if pos >= searchEnd then Scanned(None, [], vad)
    else if pos + FrameSize > |audio| then Scanned(None, [], vad)
    else
      match ClassifyFrame(vad, audio[pos..pos + FrameSize])
      case StepPanicked(m) => ScanPanicked([], m)
      case Classified(verdict, vad') =>
        if verdict == NonSpeech then Scanned(Some(pos + FrameSize), [NonSpeech], vad')
        else Prepend(verdict, ScanWindow(audio, pos + FrameSize, searchEnd, vad'))
  }

  /** Every verdict of a scan is the detector's classification of its frame,
      with the detector carried forward from frame to frame; a finished scan
      returns the detector as the last frame left it, and a panicking scan
      stopped on the frame after its last verdict. */
  lemma {:induction false} ScanWindowFollowsDetector(audio: seq<real>, pos: nat, searchEnd: nat, vad: Vad.Vad)
    ensures Trace(audio, pos, vad, ScanWindow(audio, pos, searchEnd, vad).verdicts)
    ensures ScanWindow(audio, pos, searchEnd, vad).Scanned? ==>
              ScanWindow(audio, pos, searchEnd, vad).vad
                == VadAfter(audio, pos, |ScanWindow(audio, pos, searchEnd, vad).verdicts|, vad)
    ensures ScanWindow(audio, pos, searchEnd, vad).ScanPanicked? ==>
              PanicsAfter(audio, pos, vad, ScanWindow(audio, pos, searchEnd, vad).verdicts,
                          ScanWindow(audio, pos, searchEnd, vad).message)
    decreases searchEnd - pos
  {
    if pos < searchEnd && pos + FrameSize <= |audio| {
      match ClassifyFrame(vad, audio[pos..pos + FrameSize])
      case StepPanicked(m) =>
      case Classified(verdict, vad') =>
        if verdict == NonSpeech {
          TraceCons(audio, pos, vad, verdict, vad', []);
        } else {
          var rest := ScanWindow(audio, pos + FrameSize, searchEnd, vad');
          ScanWindowFollowsDetector(audio, pos + FrameSize, searchEnd, vad');
          TraceCons(audio, pos, vad, verdict, vad', rest.verdicts);
          if rest.ScanPanicked? {
            PanicsAfterCons(audio, pos, vad, verdict, vad', rest.verdicts, rest.message);
          }
        }
    }
  }

  /* ---------------------------------------------------------------------
     Choosing the end of one segment
     --------------------------------------------------------------------- */

  /** The end of the segment starting at `start`, whether a silent frame was
      found, the scan's verdicts, and the detector afterwards; or the
      verdicts before the frame whose classification panicked. */
  datatype Boundary =
    | Boundary(end: nat, silenceFound: bool, verdicts: seq<Verdict>, vad: Vad.Vad)
    | BoundaryPanicked(verdicts: seq<Verdict>, message: string)

  /** Where a segment starting at `start` may legally end, independently of
      what the detector says: at the buffer end for the tail, otherwise at
      the hard cut `start + 480000` or right after a frame that starts on a
      480-sample boundary (counted from `start`) inside the search window. */
  predicate LegalCut(total: nat, start: nat, end: nat) {
    && start < end <= total
    && (start + TargetChunkSize >= total ==> end == total)
    && (start + TargetChunkSize < total ==>
          || end == TargetEnd(start)
          || (&& AlignedSearchStart(start) + FrameSize <= end
              && (end - start) % FrameSize == 0
              && end - FrameSize < SearchEnd(start, total)))
  }

  /** The `end_idx` computation of one loop iteration: the cut follows the
      first non-speech verdict, and without one the segment is hard-cut at
      the target.  `ChooseEndFollowsDetector` ties the verdicts to the
      detector. */
  function ChooseEnd(audio: seq<real>, start: nat, vad: Vad.Vad): (b: Boundary)
    requires start < |audio|
    ensures b.Boundary? ==> LegalCut(|audio|, start, b.end)
    ensures start + TargetChunkSize >= |audio| ==> b == Boundary(|audio|, false, [], vad)
    ensures b.BoundaryPanicked? ==> start + TargetChunkSize < |audio|
    ensures b.Boundary? && !b.silenceFound ==>
      && b.end == Min(TargetEnd(start), |audio|)
      && NoSilence(b.verdicts)
    ensures b.Boundary? && b.silenceFound ==>
      && start + TargetChunkSize < |audio|
      && |b.verdicts| > 0
      && b.verdicts[|b.verdicts| - 1] == NonSpeech
      && (forall i | 0 <= i < |b.verdicts| - 1 :: b.verdicts[i] != NonSpeech)
      && b.end == AlignedSearchStart(start) + FrameSize * |b.verdicts|
  {
    if start + TargetChunkSize >= |audio| then Boundary(|audio|, false, [], vad)
    else
      var targetEnd := TargetEnd(start);
      AlignedSearchStartValue(start);
      var aligned := AlignedSearchStart(start);
      match ScanWindow(audio, aligned, SearchEnd(start, |audio|), vad)
      case ScanPanicked(verdicts, m) => BoundaryPanicked(verdicts, m)
      case Scanned(cut, verdicts, vad') =>
        if cut.None? then Boundary(Min(targetEnd, |audio|), false, verdicts, vad')
        else
          var k := |verdicts|;
          assert aligned + FrameSize * (k - 1) < SearchEnd(start, |audio|);
          assert aligned + FrameSize * k <= |audio|;
          assert cut.value - start == FrameSize * (833 + k);
          Boundary(cut.value, true, verdicts, vad')
  }

  /** Away from the tail, the verdicts `ChooseEnd` acts on are the
      detector's classifications of the window's frames from the aligned
      search start, with the detector carried from frame to frame and
      returned as it was left; a panic comes from the frame after the last
      verdict, inside the window; and when no silence was found the whole
      window was scanned (up to `search_end` or the last whole frame). */
  lemma ChooseEndFollowsDetector(audio: seq<real>, start: nat, vad: Vad.Vad)
    requires start < |audio|
    ensures var b := ChooseEnd(audio, start, vad);
      start + TargetChunkSize < |audio| ==>
        && Trace(audio, AlignedSearchStart(start), vad, b.verdicts)
        && (b.Boundary? ==> b.vad == VadAfter(audio, AlignedSearchStart(start), |b.verdicts|, vad))
        && (b.BoundaryPanicked? ==>
              && NoSilence(b.verdicts)
              && AlignedSearchStart(start) + FrameSize * |b.verdicts| < SearchEnd(start, |audio|)
              && PanicsAfter(audio, AlignedSearchStart(start), vad, b.verdicts, b.message))
        && (b.Boundary? && !b.silenceFound ==>
              || AlignedSearchStart(start) + FrameSize * |b.verdicts| >= SearchEnd(start, |audio|)
              || AlignedSearchStart(start) + FrameSize * |b.verdicts| + FrameSize > |audio|)
  {
    if start + TargetChunkSize < |audio| {
      ScanWindowFollowsDetector(audio, AlignedSearchStart(start), SearchEnd(start, |audio|), vad);
    }
  }

  /** Every cut away from the tail lies between 400 320 and 560 160 samples
      after the segment start (25.02 s to 35.01 s), and a silence cut may
      overshoot `search_end` by at most 160 samples. */
  lemma CutRange(total: nat, start: nat, end: nat)
    requires LegalCut(total, start, end)
    requires start + TargetChunkSize < total
    ensures start + 400320 <= end <= start + 560160
    ensures end <= SearchEnd(start, total) + 160
  {
    AlignedSearchStartValue(start);
    if end != TargetEnd(start) {
      var k := (end - start) / FrameSize;
      assert end - start == FrameSize * k;
    }
  }

  /* ---------------------------------------------------------------------
     Segments, results and progress
     --------------------------------------------------------------------- */

  datatype Segment = Segment(start: nat, end: nat)

  /** How a chunking call ends: the joined text, the first error (detector
      construction or callback), or a panic from the detector wrapper. */
  datatype ChunkOutcome = Transcribed(text: string) | Failed(error: string) | Panicked(message: string)

  /** The outcome, every segment handed to the callback in order, and every
      value handed to the progress callback in order. */
  datatype ChunkRun = ChunkRun(outcome: ChunkOutcome, segments: seq<Segment>, progress: seq<real>)

  /** Segments start at 0, are non-empty, and each begins where the
      previous one ended. */
  predicate Contiguous(segs: seq<Segment>) {
    && (|segs| > 0 ==> segs[0].start == 0)
    && (forall i | 0 <= i < |segs| :: segs[i].start < segs[i].end)
    && (forall i | 0 <= i < |segs| - 1 :: segs[i].end == segs[i + 1].start)
  }

  predicate Within(segs: seq<Segment>, total: nat) {
    forall i | 0 <= i < |segs| :: segs[i].start <= segs[i].end <= total
  }

  predicate CutsLegal(segs: seq<Segment>, total: nat) {
    forall i | 0 <= i < |segs| :: LegalCut(total, segs[i].start, segs[i].end)
  }

  /** The index up to which the segments reach. */
  function Reached(segs: seq<Segment>): nat {
    if |segs| == 0 then 0 else segs[|segs| - 1].end
  }

  /** The callback's answer for every segment, in order. */
  function Results(audio: seq<real>, segs: seq<Segment>, process: (nat, seq<real>) -> Result<string>): (rs: seq<Result<string>>)
    requires Within(segs, |audio|)
    ensures |rs| == |segs|
    ensures forall i | 0 <= i < |segs| :: rs[i] == process(i, audio[segs[i].start..segs[i].end])
  {
    seq(|segs|, i requires 0 <= i < |segs| => process(i, audio[segs[i].start..segs[i].end]))
  }

  predicate AllOk(rs: seq<Result<string>>) {
    forall i | 0 <= i < |rs| :: rs[i].Ok?
  }

  function Values(rs: seq<Result<string>>): (vs: seq<string>)
    requires AllOk(rs)
    ensures |vs| == |rs|
    ensures forall i | 0 <= i < |rs| :: vs[i] == rs[i].value
  {
    seq(|rs|, i requires 0 <= i < |rs| => rs[i].value)
  }

  /** One step of the accumulation: a space first unless nothing has been
      accumulated yet, then the chunk's text. */
  function AppendText(acc: string, text: string): string {
    (if acc == "" then acc else acc + " ") + text
  }

  /** The accumulated transcription: a left fold of `AppendText`. */
  function Join(texts: seq<string>): (r: string)
    decreases |texts|
    ensures r == "" <==> forall i | 0 <= i < |texts| :: texts[i] == ""
  {
    if |texts| == 0 then "" else AppendText(Join(texts[..|texts| - 1]), texts[|texts| - 1])
  }

  /** `(end / total) * 100`, the value reported after a segment ending at `end`. */
  function Percent(end: nat, total: nat): real
    requires total > 0
  {
    (end as real / total as real) * 100.0
  }

  /** The i-th progress value reports the end of the i-th segment. */
  predicate ProgressReported(progress: seq<real>, segs: seq<Segment>, total: nat) {
    && |progress| <= |segs|
    && forall i | 0 <= i < |progress| :: total > 0 && progress[i] == Percent(segs[i].end, total)
  }

  /** The segments processed so far: a legal contiguous cover of a prefix
      of the audio, one progress report per segment, and a successful
      callback answer for every segment. */
  predicate Covered(audio: seq<real>, process: (nat, seq<real>) -> Result<string>,
                    segs: seq<Segment>, progress: seq<real>)
  {
    && Contiguous(segs)
    && Within(segs, |audio|)
    && CutsLegal(segs, |audio|)
    && |progress| == |segs|
    && ProgressReported(progress, segs, |audio|)
    && AllOk(Results(audio, segs, process))
  }

  /** `Covered`, and the accumulated text is the join of the answers. */
  predicate ProcessedPrefix(audio: seq<real>, process: (nat, seq<real>) -> Result<string>,
                            segs: seq<Segment>, progress: seq<real>, text: string)
  {
    && Covered(audio, process, segs, progress)
    && text == Join(Values(Results(audio, segs, process)))
  }

  /** A run stopped by a failing callback: every segment but the last was
      processed and reported, the last one is a legal continuation, and the
      callback failed on it with `error`. */
  predicate FailedAt(audio: seq<real>, process: (nat, seq<real>) -> Result<string>,
                     segs: seq<Segment>, progress: seq<real>, error: string)
  {
    && |segs| > 0
    && Covered(audio, process, segs[..|segs| - 1], progress)
    && Contiguous(segs)
    && CutsLegal(segs, |audio|)
    && Within(segs, |audio|)
    && Results(audio, segs, process)[|segs| - 1] == Err(error)
  }

  lemma ResultsSnoc(audio: seq<real>, segs: seq<Segment>, seg: Segment, process: (nat, seq<real>) -> Result<string>)
    requires Within(segs, |audio|) && seg.start <= seg.end <= |audio|
    ensures Within(segs + [seg], |audio|)
    ensures Results(audio, segs + [seg], process) ==
              Results(audio, segs, process) + [process(|segs|, audio[seg.start..seg.end])]
  {
  }

  lemma JoinSnoc(texts: seq<string>, x: string)
    ensures Join(texts + [x]) == AppendText(Join(texts), x)
  {
    assert (texts + [x])[..|texts|] == texts;
  }

  /** One more legal cut from where the segments reached keeps them a
      legal contiguous cover of a prefix. */
  lemma SnocShape(total: nat, segs: seq<Segment>, start: nat, end: nat)
    requires Contiguous(segs) && Within(segs, total) && CutsLegal(segs, total)
    requires Reached(segs) == start && LegalCut(total, start, end)
    ensures Contiguous(segs + [Segment(start, end)])
    ensures Within(segs + [Segment(start, end)], total)
    ensures CutsLegal(segs + [Segment(start, end)], total)
    ensures Reached(segs + [Segment(start, end)]) == end
  {
    var s2 := segs + [Segment(start, end)];
    forall i | 0 <= i < |s2| - 1
      ensures s2[i].end == s2[i + 1].start
    {
      if i + 1 < |segs| {
        assert s2[i] == segs[i] && s2[i + 1] == segs[i + 1];
      } else {
        assert s2[i] == segs[|segs| - 1] && s2[i + 1] == Segment(start, end);
      }
    }
  }

  /** Processing one more segment with a successful callback answer extends
      the processed prefix. */
  lemma ExtendPrefix(audio: seq<real>, process: (nat, seq<real>) -> Result<string>,
                     segs: seq<Segment>, progress: seq<real>, text: string, start: nat, end: nat)
    requires ProcessedPrefix(audio, process, segs, progress, text)
    requires Reached(segs) == start && LegalCut(|audio|, start, end)
    requires process(|segs|, audio[start..end]).Ok?
    ensures ProcessedPrefix(audio, process, segs + [Segment(start, end)],
                            progress + [Percent(end, |audio|)],
                            AppendText(text, process(|segs|, audio[start..end]).value))
    ensures Reached(segs + [Segment(start, end)]) == end
  {
    var seg := Segment(start, end);
    var s2 := segs + [seg];
    var p2 := progress + [Percent(end, |audio|)];
    var x := process(|segs|, audio[start..end]).value;
    var rs := Results(audio, segs, process);
    SnocShape(|audio|, segs, start, end);
    ResultsSnoc(audio, segs, seg, process);
    assert Results(audio, s2, process) == rs + [Ok(x)];
    assert AllOk(rs + [Ok(x)]);
    assert ProgressReported(p2, s2, |audio|) by {
      forall i | 0 <= i < |p2|
        ensures p2[i] == Percent(s2[i].end, |audio|)
      {
        if i < |progress| {
          assert p2[i] == progress[i] && s2[i] == segs[i];
        }
      }
    }
    assert Values(rs + [Ok(x)]) == Values(rs) + [x];
    JoinSnoc(Values(rs), x);
  }

  /** A failing callback answer for one more segment ends the run in
      `FailedAt`. */
  lemma FailAfterPrefix(audio: seq<real>, process: (nat, seq<real>) -> Result<string>,
                        segs: seq<Segment>, progress: seq<real>, start: nat, end: nat)
    requires Covered(audio, process, segs, progress)
    requires Reached(segs) == start && LegalCut(|audio|, start, end)
    requires process(|segs|, audio[start..end]).Err?
    ensures FailedAt(audio, process, segs + [Segment(start, end)], progress,
                     process(|segs|, audio[start..end]).error)
  {
    var seg := Segment(start, end);
    SnocShape(|audio|, segs, start, end);
    ResultsSnoc(audio, segs, seg, process);
    assert (segs + [seg])[..|segs|] == segs;
  }

  /** The cuts `chunk_audio` makes from `start` on, as a reference: each
      segment ends where `ChooseEnd` says, the next segment starts there with
      the detector the previous window left (it is never reset), and a panic
      in a window ends the plan with the segments before it. */
  datatype Plan = Plan(segments: seq<Segment>, panic: Option<string>)

  function Segmentation(audio: seq<real>, start: nat, vad: Vad.Vad): Plan
    decreases |audio| - start
  {
    if start >= |audio| then Plan([], None)
    else
      match ChooseEnd(audio, start, vad)
      case BoundaryPanicked(_, m) => Plan([], Some(m))
      case Boundary(end, _, _, vad') =>
        var rest := Segmentation(audio, end, vad');
        Plan([Segment(start, end)] + rest.segments, rest.panic)
  }

  /** The reference plan from the start is the segments cut so far followed
      by the plan from where they reached, with the detector `vad` the last
      window left. */
  predicate PlanFollows(audio: seq<real>, vad0: Vad.Vad, segs: seq<Segment>, vad: Vad.Vad) {
    var rest := Segmentation(audio, Reached(segs), vad);
    Segmentation(audio, 0, vad0) == Plan(segs + rest.segments, rest.panic)
  }

  /** What a chunking run with a working detector promises.  On success the
      segments are exactly the reference plan, they cover the buffer, every
      one was processed and reported, and the text is the join of the
      answers.  A failing callback stops the run on a prefix of the plan,
      every segment before the failing one processed and reported.  A
      detector panic stops it where the plan stops, with the same message. */
  ghost predicate Sound(audio: seq<real>, process: (nat, seq<real>) -> Result<string>, vad0: Vad.Vad, run: ChunkRun) {
    var plan := Segmentation(audio, 0, vad0);
    match run.outcome
    case Transcribed(text) =>
      && ProcessedPrefix(audio, process, run.segments, run.progress, text)
      && Reached(run.segments) == |audio|
      && plan == Plan(run.segments, None)
    case Failed(error) =>
      && FailedAt(audio, process, run.segments, run.progress, error)
      && run.segments <= plan.segments
    case Panicked(message) =>
      && Covered(audio, process, run.segments, run.progress)
      && Reached(run.segments) < |audio|
      && plan == Plan(run.segments, Some(message))
  }

  /** Cutting where `ChooseEnd` says keeps the plan in step. */
  lemma PlanAdvance(audio: seq<real>, vad0: Vad.Vad, segs: seq<Segment>, vad: Vad.Vad, start: nat)
    requires PlanFollows(audio, vad0, segs, vad)
    requires Reached(segs) == start < |audio|
    requires ChooseEnd(audio, start, vad).Boundary?
    ensures PlanFollows(audio, vad0, segs + [Segment(start, ChooseEnd(audio, start, vad).end)],
                        ChooseEnd(audio, start, vad).vad)
  {
    var b := ChooseEnd(audio, start, vad);
    var seg := Segment(start, b.end);
    var rest := Segmentation(audio, b.end, b.vad);
    assert Segmentation(audio, start, vad) == Plan([seg] + rest.segments, rest.panic);
    Seqs.AppendAssoc(segs, [seg], rest.segments);
  }

  /** The loop ends at the end of the buffer: the run is the plan. */
  lemma FinishTranscribed(audio: seq<real>, process: (nat, seq<real>) -> Result<string>, vad0: Vad.Vad,
                          segs: seq<Segment>, progress: seq<real>, text: string, vad: Vad.Vad)
    requires ProcessedPrefix(audio, process, segs, progress, text)
    requires PlanFollows(audio, vad0, segs, vad)
    requires Reached(segs) == |audio|
    ensures Sound(audio, process, vad0, ChunkRun(Transcribed(text), segs, progress))
  {
    assert segs + [] == segs;
  }

  /** The detector panics while choosing the next cut: so does the plan. */
  lemma FinishPanicked(audio: seq<real>, process: (nat, seq<real>) -> Result<string>, vad0: Vad.Vad,
                       segs: seq<Segment>, progress: seq<real>, text: string, vad: Vad.Vad, start: nat)
    requires ProcessedPrefix(audio, process, segs, progress, text)
    requires PlanFollows(audio, vad0, segs, vad)
    requires Reached(segs) == start < |audio|
    requires ChooseEnd(audio, start, vad).BoundaryPanicked?
    ensures Sound(audio, process, vad0, ChunkRun(Panicked(ChooseEnd(audio, start, vad).message), segs, progress))
  {
    assert segs + [] == segs;
  }

  /** The callback fails on the next cut: the run, that segment included, is
      a prefix of the plan. */
  lemma FinishFailed(audio: seq<real>, process: (nat, seq<real>) -> Result<string>, vad0: Vad.Vad,
                     segs: seq<Segment>, progress: seq<real>, vad: Vad.Vad, start: nat)
    requires Covered(audio, process, segs, progress)
    requires PlanFollows(audio, vad0, segs, vad)
    requires Reached(segs) == start < |audio|
    requires ChooseEnd(audio, start, vad).Boundary?
    requires process(|segs|, audio[start..ChooseEnd(audio, start, vad).end]).Err?
    ensures var b := ChooseEnd(audio, start, vad);
      Sound(audio, process, vad0,
            ChunkRun(Failed(process(|segs|, audio[start..b.end]).error), segs + [Segment(start, b.end)], progress))
  {
    var b := ChooseEnd(audio, start, vad);
    FailAfterPrefix(audio, process, segs, progress, start, b.end);
    PlanAdvance(audio, vad0, segs, vad, start);
    var rest := Segmentation(audio, b.end, b.vad);
    assert (segs + [Segment(start, b.end)]) <= (segs + [Segment(start, b.end)]) + rest.segments;
  }

  /** `SmartChunker::chunk_audio`. */
  method ChunkAudio(audio: seq<real>, session: Result<Vad.Session>, process: (nat, seq<real>) -> Result<string>)
    returns (run: ChunkRun)
    ensures session.Err? ==> run == ChunkRun(Failed(VadInitError + session.error), [], [])
    ensures |audio| == 0 && session.Ok? ==> run == ChunkRun(Transcribed(""), [], [])
    ensures session.Ok? ==> Sound(audio, process, Vad.New(session).value, run)
  {
    if session.Err? {
      run := ChunkRun(Failed(VadInitError + session.error), [], []);
      return;
    }
    run := ChunkWith(audio, Vad.New(session).value, process);
  }

  /** `chunk_audio` once the detector exists. */
  method ChunkWith(audio: seq<real>, vad0: Vad.Vad, process: (nat, seq<real>) -> Result<string>)
    returns (run: ChunkRun)
    ensures |audio| == 0 ==> run == ChunkRun(Transcribed(""), [], [])
    ensures Sound(audio, process, vad0, run)
  {
    assert Join(Values(Results(audio, [], process))) == "";
    run := ChunkFrom(audio, process, vad0, [], [], "", 0, vad0);
  }

  /** The `while start_idx < total_samples` loop, one iteration per call:
      `segments`, `progress` and `text` are what the iterations so far
      produced, and `vad` is the detector they left. */
  method ChunkFrom(audio: seq<real>, process: (nat, seq<real>) -> Result<string>, ghost vad0: Vad.Vad,
                   segments: seq<Segment>, progress: seq<real>, text: string, startIdx: nat, vad: Vad.Vad)
    returns (run: ChunkRun)
    requires startIdx <= |audio| && Reached(segments) == startIdx
    requires ProcessedPrefix(audio, process, segments, progress, text)
    requires PlanFollows(audio, vad0, segments, vad)
    ensures startIdx == |audio| ==> run == ChunkRun(Transcribed(text), segments, progress)
    ensures Sound(audio, process, vad0, run)
    decreases |audio| - startIdx
  {
    if startIdx == |audio| {
      FinishTranscribed(audio, process, vad0, segments, progress, text, vad);
      return ChunkRun(Transcribed(text), segments, progress);
    }
    var boundary := ChooseEnd(audio, startIdx, vad);
    if boundary.BoundaryPanicked? {
      FinishPanicked(audio, process, vad0, segments, progress, text, vad, startIdx);
      return ChunkRun(Panicked(boundary.message), segments, progress);
    }
    var endIdx := boundary.end;
    match process(|segments|, audio[startIdx..endIdx])
    case Err(error) =>
      FinishFailed(audio, process, vad0, segments, progress, vad, startIdx);
      return ChunkRun(Failed(error), segments + [Segment(startIdx, endIdx)], progress);
    case Ok(chunkText) =>
      ExtendPrefix(audio, process, segments, progress, text, startIdx, endIdx);
      PlanAdvance(audio, vad0, segments, vad, startIdx);
      run := ChunkFrom(audio, process, vad0, segments + [Segment(startIdx, endIdx)],
                       progress + [Percent(endIdx, |audio|)], AppendText(text, chunkText), endIdx, boundary.vad);
  }

  /* ---------------------------------------------------------------------
     Properties of a run
     --------------------------------------------------------------------- */

  /** Segments never overlap: every earlier segment ends at or before any
      later one starts. */
  lemma {:induction false} EndBeforeStart(segs: seq<Segment>, i: nat, j: nat)
    requires Contiguous(segs)
    requires i <= j < |segs|
    ensures i < j ==> segs[i].end <= segs[j].start
    decreases j - i
  {
    if j > i + 1 {
      EndBeforeStart(segs, i, j - 1);
    }
  }

  /** A contiguous run reaching `total` covers every sample index of the
      buffer exactly once. */
  lemma {:induction false} CoverPartition(segs: seq<Segment>, total: nat, k: nat)
    requires Contiguous(segs) && Reached(segs) == total
    requires k < total
    ensures exists i :: 0 <= i < |segs| && segs[i].start <= k < segs[i].end
    ensures forall i, j | 0 <= i < |segs| && 0 <= j < |segs| ::
              segs[i].start <= k < segs[i].end && segs[j].start <= k < segs[j].end ==> i == j
    decreases |segs|
  {
    var n := |segs|;
    if k >= segs[n - 1].start {
      assert segs[n - 1].start <= k < segs[n - 1].end;
    } else {
      var init := segs[..n - 1];
      assert Contiguous(init);
      CoverPartition(init, segs[n - 1].start, k);
      var i :| 0 <= i < |init| && init[i].start <= k < init[i].end;
      assert segs[i].start <= k < segs[i].end;
    }
    forall i, j | 0 <= i < n && 0 <= j < n && segs[i].start <= k < segs[i].end && segs[j].start <= k < segs[j].end
      ensures i == j
    {
      if i < j {
        EndBeforeStart(segs, i, j);
      } else if j < i {
        EndBeforeStart(segs, j, i);
      }
    }
  }

  /** The samples handed to the callback, segment by segment. */
  function Chunks(audio: seq<real>, segs: seq<Segment>): (cs: seq<seq<real>>)
    requires Within(segs, |audio|)
    ensures |cs| == |segs|
    ensures forall i | 0 <= i < |segs| :: cs[i] == audio[segs[i].start..segs[i].end]
  {
    seq(|segs|, i requires 0 <= i < |segs| => audio[segs[i].start..segs[i].end])
  }

  /** Gluing the segments handed to the callback back together gives exactly
      the buffer up to where the run reached: no sample is lost, repeated or
      reordered. */
  lemma {:induction false} ChunksConcatenate(audio: seq<real>, segs: seq<Segment>)
    requires Contiguous(segs) && Within(segs, |audio|)
    ensures Seqs.Concat(Chunks(audio, segs)) == audio[..Reached(segs)]
    decreases |segs|
  {
    var n := |segs|;
    if n > 0 {
      var init := segs[..n - 1];
      var last := segs[n - 1];
      assert Contiguous(init) && Within(init, |audio|);
      ChunksConcatenate(audio, init);
      var cs := Chunks(audio, segs);
      assert cs[..n - 1] == Chunks(audio, init);
      assert cs[n - 1] == audio[last.start..last.end];
      assert Reached(init) == last.start by {
        if n > 1 {
          assert init[n - 2] == segs[n - 2];
        }
      }
      calc {
        Seqs.Concat(cs);
        Seqs.Concat(cs[..n - 1]) + cs[n - 1];
        audio[..last.start] + audio[last.start..last.end];
        { assert last.start <= last.end <= |audio|; }
        audio[..last.end];
      }
    }
  }

  lemma PercentMonotone(a: nat, b: nat, total: nat)
    requires total > 0 && a < b
    ensures Percent(a, total) < Percent(b, total)
  {
    assert a as real / total as real < b as real / total as real;
  }

  lemma PercentBounds(end: nat, total: nat)
    requires 0 < end <= total
    ensures 0.0 < Percent(end, total) <= 100.0
    ensures end == total ==> Percent(end, total) == 100.0
  {
    var e := end as real;
    var t := total as real;
    var q := e / t;
    assert q * t == e;
    assert 0.0 < q <= 1.0;
    if end == total {
      assert e == t;
      assert q == 1.0;
    }
  }

  /** Progress values strictly increase, stay in (0, 100], and the last value
      of a run that reached the end of the buffer is exactly 100. */
  lemma ProgressIncreasing(progress: seq<real>, segs: seq<Segment>, total: nat)
    requires Contiguous(segs) && Within(segs, total)
    requires ProgressReported(progress, segs, total)
    ensures forall i, j | 0 <= i < j < |progress| :: progress[i] < progress[j]
    ensures forall i | 0 <= i < |progress| :: 0.0 < progress[i] <= 100.0
    ensures |progress| == |segs| > 0 && Reached(segs) == total ==> progress[|progress| - 1] == 100.0
  {
    forall i, j | 0 <= i < j < |progress|
      ensures progress[i] < progress[j]
    {
      EndBeforeStart(segs, i, j);
      PercentMonotone(segs[i].end, segs[j].end, total);
    }
    forall i | 0 <= i < |progress|
      ensures 0.0 < progress[i] <= 100.0
    {
      PercentBounds(segs[i].end, total);
    }
    if |progress| == |segs| > 0 && Reached(segs) == total {
      PercentBounds(total, total);
    }
  }

  /** An input of at most 30 seconds is one segment covering the whole
      buffer, with the single progress value 100. */
  lemma ShortInputSingleSegment(segs: seq<Segment>, progress: seq<real>, total: nat)
    requires 0 < total <= TargetChunkSize
    requires Contiguous(segs) && CutsLegal(segs, total) && Reached(segs) == total
    requires |progress| == |segs| && ProgressReported(progress, segs, total)
    ensures segs == [Segment(0, total)]
    ensures progress == [100.0]
  {
    assert |segs| > 0;
    assert segs[0].end == total;
    EndBeforeStart(segs, 0, |segs| - 1);
    PercentBounds(total, total);
  }

  /* ---------------------------------------------------------------------
     The joined text
     --------------------------------------------------------------------- */

  /** The conventional join with a single space between consecutive texts. */
  function SpaceJoin(texts: seq<string>): string
    decreases |texts|
  {
    if |texts| == 0 then ""
    else if |texts| == 1 then texts[0]
    else SpaceJoin(texts[..|texts| - 1]) + " " + texts[|texts| - 1]
  }

  /** The index of the first non-empty text, or `|texts|` when all are empty. */
  function FirstNonEmpty(texts: seq<string>): (f: nat)
    ensures f <= |texts|
    ensures forall i | 0 <= i < f :: texts[i] == ""
    ensures f < |texts| ==> texts[f] != ""
    decreases |texts|
  {
    if |texts| == 0 then 0
    else if texts[0] != "" then 0
    else 1 + FirstNonEmpty(texts[1..])
  }

  lemma FirstNonEmptyUnique(texts: seq<string>, f: nat)
    requires f <= |texts|
    requires forall i | 0 <= i < f :: texts[i] == ""
    requires f < |texts| ==> texts[f] != ""
    ensures FirstNonEmpty(texts) == f
  {
  }

  lemma SpaceJoinStartsWithFirst(texts: seq<string>)
    requires |texts| > 0
    ensures |SpaceJoin(texts)| >= |texts[0]|
    decreases |texts|
  {
    if |texts| > 1 {
      SpaceJoinStartsWithFirst(texts[..|texts| - 1]);
    }
  }

  /** The accumulated text is the plain space-separated join of the texts
      from the first non-empty one on: empty texts before it add nothing (no
      leading space); every text after it adds a space and itself. */
  lemma {:induction false} JoinSkipsLeadingEmpty(texts: seq<string>)
    ensures Join(texts) == SpaceJoin(texts[FirstNonEmpty(texts)..])
    decreases |texts|
  {
    var n := |texts|;
    if n > 0 {
      var init := texts[..n - 1];
      var last := texts[n - 1];
      assert Join(texts) == AppendText(Join(init), last);
      JoinSkipsLeadingEmpty(init);
      var f' := FirstNonEmpty(init);
      if f' == |init| {
        assert Join(init) == "";
        assert forall i | 0 <= i < n - 1 :: texts[i] == init[i] == "";
        if last != "" {
          FirstNonEmptyUnique(texts, n - 1);
          assert texts[n - 1..] == [last];
        } else {
          FirstNonEmptyUnique(texts, n);
          assert texts[n..] == [];
        }
      } else {
        FirstNonEmptyUnique(texts, f');
        SpaceJoinStartsWithFirst(init[f'..]);
        assert Join(init) != "";
        var tail := texts[f'..];
        assert |tail| >= 2;
        assert tail[..|tail| - 1] == init[f'..];
        assert tail[|tail| - 1] == last;
        assert SpaceJoin(tail) == SpaceJoin(init[f'..]) + " " + last;
      }
    }
  }

  /** An empty first chunk result leaves no leading space. */
  lemma JoinEmptyFirst(texts: seq<string>)
    ensures Join([""] + texts) == Join(texts)
  {
    var t := [""] + texts;
    JoinSkipsLeadingEmpty(t);
    JoinSkipsLeadingEmpty(texts);
    FirstNonEmptyUnique(t, 1 + FirstNonEmpty(texts));
    assert t[1 + FirstNonEmpty(texts)..] == texts[FirstNonEmpty(texts)..];
  }

  /** When the first chunk produced some text, the result is the plain
      space-separated join (later empty texts still add their space). */
  lemma JoinNonEmpty(texts: seq<string>)
    requires |texts| == 0 || texts[0] != ""
    ensures Join(texts) == SpaceJoin(texts)
  {
    JoinSkipsLeadingEmpty(texts);
    FirstNonEmptyUnique(texts, 0);
  }
}
