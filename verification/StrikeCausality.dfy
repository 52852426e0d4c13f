/** What the detector's fold guarantees over every stream: the chunking is irrelevant,
    decisions never look ahead, and candidates keep their refractory distance. */
module StrikeCausality {
  import opened Extremum
  import opened Products
  import opened Sequences
  import opened Wrappers
  import opened StrikeDetector

  // ---- chunking

  /** Ingesting the chunks one after the other. */
  function Feed(d: Setup, chunks: seq<Samples>): Progress
    requires d.Valid()
  {
    if chunks == [] then START else Run(d, Flatten(chunks), Feed(d, chunks[..|chunks| - 1]))
  }

  lemma {:induction false} FeedIsRun(d: Setup, chunks: seq<Samples>)
    requires d.Valid()
    ensures Feed(d, chunks) == Run(d, Flatten(chunks), START)
  {
    if chunks != [] {
      var n := |chunks| - 1;
      FeedIsRun(d, chunks[..n]);
      RunExtends(d, Flatten(chunks[..n]), chunks[n], START);
    }
  }

  /** Two ways of splitting one stream end in the same cursor, histories, traces and candidates. */
  lemma ChunkingIrrelevant(d: Setup, a: seq<Samples>, b: seq<Samples>)
    requires d.Valid() && Flatten(a) == Flatten(b)
    ensures Feed(d, a) == Feed(d, b)
  {
    FeedIsRun(d, a);
    FeedIsRun(d, b);
  }

  // ---- no look-ahead

  /** Folding on only adds candidates, each completed after the frames already judged. */
  lemma {:induction false} RunGrows(d: Setup, stream: Samples, p: Progress)
    requires d.Valid()
    ensures p.traces <= Run(d, stream, p).traces
    ensures p.candidates <= Run(d, stream, p).candidates
    ensures forall i :: |p.candidates| <= i < |Run(d, stream, p).candidates| ==>
      p.next + d.config.frameSize <= Run(d, stream, p).candidates[i].emit <= |stream|
    decreases |stream| - p.next
  {
    if FrameReady(d, stream, p) {
      RunGrows(d, stream, Step(d, p, FrameAt(d, stream, p)));
    }
  }

  /** Cutting the stream after `n` samples keeps exactly the candidates emitted by then. */
  lemma DecidedWithoutTheFuture(d: Setup, stream: Samples, n: nat)
    requires d.Valid() && n <= |stream|
    ensures var early, all := Run(d, stream[..n], START).candidates, Run(d, stream, START).candidates;
      && early <= all
      && (forall i :: 0 <= i < |early| ==> all[i].emit <= n)
      && (forall i :: |early| <= i < |all| ==> n < all[i].emit)
  {
    var p := Run(d, stream[..n], START);
    assert stream[..n] + stream[n..] == stream;
    RunExtends(d, stream[..n], stream[n..], START);
    RunGrows(d, stream[..n], START);
    RunGrows(d, stream, p);
  }

  // ---- the invariant of every frame

  function RmsOf(traces: seq<FrameTrace>): seq<real> {
    seq(|traces|, i requires 0 <= i < |traces| => traces[i].rms)
  }

  function FluxOf(traces: seq<FrameTrace>): seq<real> {
    seq(|traces|, i requires 0 <= i < |traces| => traces[i].flux)
  }

  /** The candidates are the frames that passed all three tests, in order. */
  function Emitted(traces: seq<FrameTrace>): seq<Candidate> {
    if traces == [] then []
    else
      var before, t := Emitted(traces[..|traces| - 1]), traces[|traces| - 1];
      if t.wouldEmit then before + [CandidateOf(t)] else before
  }

  /** The first of the `baseline` frames before frame `k`. */
  ghost function BaselineFrom(k: nat, baseline: nat): (lo: nat)
    ensures lo <= k && k - lo <= baseline && (lo > 0 ==> k - lo == baseline)
  {
    if k <= baseline then 0 else k - baseline
  }

  /** The histories are the newest values, oldest first. */
  ghost predicate Histories(d: Setup, p: Progress) {
    var lo := BaselineFrom(|p.traces|, d.config.baselineFrames);
    p.rmsHistory == RmsOf(p.traces[lo..]) && p.fluxHistory == FluxOf(p.traces[lo..])
  }

  ghost predicate OnGrid(d: Setup, p: Progress) {
    && p.next == |p.traces| * d.config.hop
    && (forall k :: 0 <= k < |p.traces| ==>
          p.traces[k].start == k * d.config.hop && p.traces[k].end == p.traces[k].start + d.config.frameSize)
  }

  /** A candidate so recent that a frame at `start` is still in its refractory period. */
  ghost predicate StillRefractory(d: Setup, candidates: seq<Candidate>, start: nat) {
    exists i ::
      0 <= i < |candidates| && candidates[i].anchor < start && start - candidates[i].anchor < d.config.refractory
  }

  /** A frame becomes a candidate exactly when it passes both gates outside every refractory period. */
  ghost predicate RightlyJudged(d: Setup, candidates: seq<Candidate>, t: FrameTrace) {
    && (t.passesRefractory <==> !StillRefractory(d, candidates, t.start))
    && (t.wouldEmit <==> t.passesRms && t.passesFlux && t.passesRefractory)
  }

  ghost predicate NothingLost(d: Setup, p: Progress) {
    forall k {:trigger p.traces[k]} :: 0 <= k < |p.traces| ==> RightlyJudged(d, p.candidates, p.traces[k])
  }

  ghost predicate Spaced(d: Setup, p: Progress) {
    && p.candidates == Emitted(p.traces)
    && p.lastAnchor == (if p.candidates == [] then None else Some(p.candidates[|p.candidates| - 1].anchor))
    && (p.lastAnchor.Some? ==> p.lastAnchor.value < p.next)
    && (forall k :: 0 <= k < |p.traces| ==> p.traces[k].start < p.next)
    && Gaps(d.config.refractory, p.candidates)
  }

  /** Consecutive candidates advance, by at least the refractory period. */
  ghost predicate Gaps(refractory: int, candidates: seq<Candidate>) {
    forall i :: 0 < i < |candidates| ==>
      candidates[i].anchor - candidates[i - 1].anchor >= refractory && candidates[i].anchor > candidates[i - 1].anchor
  }

  lemma GapsAppend(refractory: int, candidates: seq<Candidate>, c: Candidate)
    requires Gaps(refractory, candidates)
    requires candidates != [] ==>
      var last := candidates[|candidates| - 1].anchor; c.anchor - last >= refractory && c.anchor > last
    ensures Gaps(refractory, candidates + [c])
  {
  }

  ghost predicate Sound(d: Setup, p: Progress) {
    Histories(d, p) && OnGrid(d, p) && NothingLost(d, p) && Spaced(d, p)
  }

  lemma NewestAppended(s: seq<real>, x: real, n: nat)
    ensures LastN(s[BaselineFrom(|s|, n)..] + [x], n) == (s + [x])[BaselineFrom(|s| + 1, n)..]
  {
  }

  lemma MeasuresFrom(traces: seq<FrameTrace>, lo: nat)
    requires lo <= |traces|
    ensures RmsOf(traces[lo..]) == RmsOf(traces)[lo..] && FluxOf(traces[lo..]) == FluxOf(traces)[lo..]
  {
  }

  lemma HistoriesStep(d: Setup, p: Progress, frame: Samples)
    requires Histories(d, p)
    ensures Histories(d, Step(d, p, frame))
  {
    hide Judge, LastN, BaselineFrom;
    var t, n := Judge(d, p, p.next, frame), d.config.baselineFrames;
    assert RmsOf(p.traces + [t]) == RmsOf(p.traces) + [t.rms];
    assert FluxOf(p.traces + [t]) == FluxOf(p.traces) + [t.flux];
    MeasuresFrom(p.traces, BaselineFrom(|p.traces|, n));
    MeasuresFrom(p.traces + [t], BaselineFrom(|p.traces| + 1, n));
    NewestAppended(RmsOf(p.traces), t.rms, n);
    NewestAppended(FluxOf(p.traces), t.flux, n);
  }

  lemma OnGridStep(d: Setup, p: Progress, frame: Samples)
    requires OnGrid(d, p)
    ensures OnGrid(d, Step(d, p, frame))
  {
    hide LastN;
    OneMore(|p.traces|, d.config.hop);
  }

  lemma JudgeDecision(d: Setup, p: Progress, start: nat, frame: Samples)
    ensures var t := Judge(d, p, start, frame);
      && t.start == start
      && t.passesRefractory == (p.lastAnchor.None? || start - p.lastAnchor.value >= d.config.refractory)
      && t.wouldEmit == (t.passesRms && t.passesFlux && t.passesRefractory)
  {
  }

  lemma SpacedStep(d: Setup, p: Progress, frame: Samples)
    requires d.Valid() && Spaced(d, p)
    ensures Spaced(d, Step(d, p, frame))
  {
    hide LastN, Judge, Gaps;
    var t := Judge(d, p, p.next, frame);
    JudgeDecision(d, p, p.next, frame);
    if t.wouldEmit {
      GapsAppend(d.config.refractory, p.candidates, CandidateOf(t));
    }
    assert (p.traces + [t])[..|p.traces|] == p.traces;
  }

  lemma NothingLostStep(d: Setup, p: Progress, frame: Samples)
    requires Spaced(d, p) && NothingLost(d, p)
    ensures NothingLost(d, Step(d, p, frame))
  {
    hide LastN, Judge, Emitted;
    JudgeDecision(d, p, p.next, frame);
    var p' := Step(d, p, frame);
    var t := Judge(d, p, p.next, frame);
    forall k | 0 <= k < |p'.traces| ensures RightlyJudged(d, p'.candidates, p'.traces[k]) {
      if k < |p.traces| {
        assert p'.traces[k] == p.traces[k];
        RefractoryKept(d, p.candidates, p'.candidates, p.traces[k].start);
      } else {
        assert p'.traces[k] == t;
        RefractoryKept(d, p.candidates, p'.candidates, p.next);
        RefractoryTest(d, p, p.next);
      }
    }
  }

  /** A candidate at or after `start` does not change whether a frame there is refractory. */
  lemma RefractoryKept(d: Setup, before: seq<Candidate>, after: seq<Candidate>, start: nat)
    requires before <= after
    requires forall i :: |before| <= i < |after| ==> start <= after[i].anchor
    ensures StillRefractory(d, before, start) <==> StillRefractory(d, after, start)
  {
    if StillRefractory(d, before, start) {
      var i :| 0 <= i < |before| && before[i].anchor < start && start - before[i].anchor < d.config.refractory;
      assert after[i] == before[i];
    }
  }

  /** Comparing with the last anchor alone is enough. */
  lemma RefractoryTest(d: Setup, p: Progress, start: nat)
    requires Spaced(d, p) && p.next <= start
    ensures StillRefractory(d, p.candidates, start) <==>
            !(p.lastAnchor.None? || start - p.lastAnchor.value >= d.config.refractory)
  {
    var n := |p.candidates| - 1;
    if StillRefractory(d, p.candidates, start) {
      var i :| 0 <= i <= n && p.candidates[i].anchor < start && start - p.candidates[i].anchor < d.config.refractory;
      AnchorsOrdered(d, p, i, n);
    }
    if p.lastAnchor.Some? {
      assert p.candidates[n].anchor == p.lastAnchor.value;
    }
  }

  lemma {:induction false} AnchorsOrdered(d: Setup, p: Progress, i: nat, j: nat)
    requires Spaced(d, p) && i <= j < |p.candidates|
    ensures p.candidates[i].anchor <= p.candidates[j].anchor
  {
    if i < j { AnchorsOrdered(d, p, i, j - 1); }
  }

  lemma {:induction false} RunSound(d: Setup, stream: Samples, p: Progress)
    requires d.Valid() && Sound(d, p)
    ensures Sound(d, Run(d, stream, p))
    decreases |stream| - p.next
  {
    if FrameReady(d, stream, p) {
      var frame := FrameAt(d, stream, p);
      hide Histories, OnGrid, NothingLost, Spaced;
      HistoriesStep(d, p, frame);
      OnGridStep(d, p, frame);
      SpacedStep(d, p, frame);
      NothingLostStep(d, p, frame);
      StepAdvances(d, p, frame);
      hide Step;
      RunSound(d, stream, Step(d, p, frame));
    }
  }

  /** Every reachable state is sound, whatever the stream. */
  lemma AlwaysSound(d: Setup, stream: Samples)
    requires d.Valid()
    ensures Sound(d, Run(d, stream, START))
  {
    assert RmsOf([]) == [] && FluxOf([]) == [];
    assert Sound(d, START);
    RunSound(d, stream, START);
  }

  // ---- every trace, read off the stream

  /** The gate over `history`: the floor, raised to `ratio` medians of the history if there is any. */
  ghost predicate GateOf(d: Setup, history: seq<real>, floor: real, ratio: real,
      median: real, adaptive: real, gate: real) {
    && median == (if history == [] then 0.0 else d.signal.median(history))
    && adaptive == median * ratio
    && floor <= gate && adaptive <= gate && (gate == floor || gate == adaptive)
  }

  /** What the trace of frame `k` must hold: the measurements of its own samples, with the
      flux against the frame before, judged against the medians of the frames before it,
      of which only the newest `baselineFrames` count. */
  ghost predicate TraceOf(d: Setup, stream: Samples, traces: seq<FrameTrace>, k: nat)
    requires k < |traces|
  {
    var t, lo := traces[k], BaselineFrom(k, d.config.baselineFrames);
    && t.start < t.end <= |stream|
    && t.rms == d.signal.rms(stream[t.start..t.end])
    && t.flux == (if k == 0 then 0.0 else FluxBetween(d, stream, traces[k - 1], t))
    && t.rmsFloor == d.config.minRms && t.fluxFloor == d.config.minFlux
    && t.rmsStats == d.signal.stats(RmsOf(traces[lo..k]), t.rms)
    && GateOf(d, RmsOf(traces[lo..k]), t.rmsFloor, d.config.rmsRatio, t.medianRms, t.adaptiveRmsGate, t.rmsGate)
    && GateOf(d, FluxOf(traces[lo..k]), t.fluxFloor, d.config.fluxRatio, t.medianFlux, t.adaptiveFluxGate, t.fluxGate)
    && (t.passesRms <==> t.rms >= t.rmsGate)
    && (t.passesFlux <==> t.flux >= t.fluxGate)
  }

  ghost function FluxBetween(d: Setup, stream: Samples, before: FrameTrace, now: FrameTrace): real {
    if before.start <= before.end <= |stream| && now.start <= now.end <= |stream|
    then d.signal.flux(d.signal.magnitude(stream[before.start..before.end]),
                       d.signal.magnitude(stream[now.start..now.end]))
    else 0.0
  }

  ghost predicate Measured(d: Setup, stream: Samples, p: Progress) {
    && (forall k :: 0 <= k < |p.traces| ==> TraceOf(d, stream, p.traces, k))
    && p.previousMagnitude == LastMagnitude(d, stream, p.traces)
  }

  ghost function LastMagnitude(d: Setup, stream: Samples, traces: seq<FrameTrace>): Option<Samples> {
    if traces == [] then None
    else
      var t := traces[|traces| - 1];
      if t.start <= t.end <= |stream| then Some(d.signal.magnitude(stream[t.start..t.end])) else None
  }

  lemma JudgeMeasures(d: Setup, p: Progress, start: nat, frame: Samples)
    ensures var t := Judge(d, p, start, frame);
      && t.start == start && t.end == start + d.config.frameSize && t.rms == d.signal.rms(frame)
      && t.flux == (if p.previousMagnitude.None? then 0.0
          else d.signal.flux(p.previousMagnitude.value, d.signal.magnitude(frame)))
      && t.rmsFloor == d.config.minRms && t.fluxFloor == d.config.minFlux
      && t.rmsStats == d.signal.stats(p.rmsHistory, t.rms)
      && GateOf(d, p.rmsHistory, t.rmsFloor, d.config.rmsRatio, t.medianRms, t.adaptiveRmsGate, t.rmsGate)
      && GateOf(d, p.fluxHistory, t.fluxFloor, d.config.fluxRatio, t.medianFlux, t.adaptiveFluxGate, t.fluxGate)
      && (t.passesRms <==> t.rms >= t.rmsGate) && (t.passesFlux <==> t.flux >= t.fluxGate)
  {
  }

  lemma TraceKept(d: Setup, stream: Samples, traces: seq<FrameTrace>, t: FrameTrace, k: nat)
    requires k < |traces| && TraceOf(d, stream, traces, k)
    ensures TraceOf(d, stream, traces + [t], k)
  {
    var lo := BaselineFrom(k, d.config.baselineFrames);
    hide GateOf, BaselineFrom;
    assert (traces + [t])[lo..k] == traces[lo..k];
  }

  lemma TraceAdded(d: Setup, stream: Samples, p: Progress)
    requires d.Valid() && Histories(d, p) && Measured(d, stream, p) && FrameReady(d, stream, p)
    ensures var t := Judge(d, p, p.next, FrameAt(d, stream, p)); TraceOf(d, stream, p.traces + [t], |p.traces|)
  {
    hide Judge, GateOf, BaselineFrom;
    var t, lo := Judge(d, p, p.next, FrameAt(d, stream, p)), BaselineFrom(|p.traces|, d.config.baselineFrames);
    JudgeMeasures(d, p, p.next, FrameAt(d, stream, p));
    assert (p.traces + [t])[lo..|p.traces|] == p.traces[lo..];
    if p.traces != [] {
      assert TraceOf(d, stream, p.traces, |p.traces| - 1);
    }
  }

  lemma MeasuredStep(d: Setup, stream: Samples, p: Progress)
    requires d.Valid() && Histories(d, p) && Measured(d, stream, p) && FrameReady(d, stream, p)
    ensures Measured(d, stream, Step(d, p, FrameAt(d, stream, p)))
  {
    hide Judge, TraceOf, LastN, Histories;
    var t := Judge(d, p, p.next, FrameAt(d, stream, p));
    JudgeMeasures(d, p, p.next, FrameAt(d, stream, p));
    TraceAdded(d, stream, p);
    var p' := Step(d, p, FrameAt(d, stream, p));
    assert p'.traces == p.traces + [t];
    forall k | 0 <= k < |p'.traces| ensures TraceOf(d, stream, p'.traces, k) {
      if k < |p.traces| {
        TraceKept(d, stream, p.traces, t, k);
      }
    }
  }

  lemma {:induction false} RunMeasured(d: Setup, stream: Samples, p: Progress)
    requires d.Valid() && Histories(d, p) && Measured(d, stream, p)
    ensures Measured(d, stream, Run(d, stream, p))
    decreases |stream| - p.next
  {
    if FrameReady(d, stream, p) {
      var frame := FrameAt(d, stream, p);
      hide Histories, Measured;
      HistoriesStep(d, p, frame);
      MeasuredStep(d, stream, p);
      StepAdvances(d, p, frame);
      hide Step;
      RunMeasured(d, stream, Step(d, p, frame));
    }
  }

  /** For every stream, every frame trace is what the stream's own samples say. */
  lemma TracesReadOffStream(d: Setup, stream: Samples, k: nat)
    requires d.Valid() && k < |Run(d, stream, START).traces|
    ensures TraceOf(d, stream, Run(d, stream, START).traces, k)
  {
    assert RmsOf([]) == [] && FluxOf([]) == [];
    RunMeasured(d, stream, START);
  }

  // ---- counting

  /** One frame per hop as long as a whole frame has arrived. */
  lemma FrameCount(d: Setup, stream: Samples)
    requires d.Valid()
    ensures |Run(d, stream, START).traces| ==
            if |stream| < d.config.frameSize then 0 else (|stream| - d.config.frameSize) / d.config.hop + 1
  {
    hide Run, Sound;
    AlwaysSound(d, stream);
    RunExtends(d, stream, [], START);
    LastFrameReceived(d, stream, START);
    var p := Run(d, stream, START);
    var n := |p.traces|;
    LastOnGrid(d, p);
    if |stream| >= d.config.frameSize {
      assert n > 0;
      OneMore(n - 1, d.config.hop);
      QuotientBetween(|stream| - d.config.frameSize, d.config.hop, n - 1);
    }
  }

  lemma LastOnGrid(d: Setup, p: Progress)
    requires Sound(d, p)
    ensures var n := |p.traces|;
      p.next == n * d.config.hop && (n > 0 ==> p.traces[n - 1].end == (n - 1) * d.config.hop + d.config.frameSize)
  {
    hide Histories, NothingLost, Spaced;
  }

  lemma {:induction false} LastFrameReceived(d: Setup, stream: Samples, p: Progress)
    requires d.Valid()
    ensures var traces := Run(d, stream, p).traces;
      |traces| > |p.traces| ==> traces[|traces| - 1].end <= |stream|
    decreases |stream| - p.next
  {
    if FrameReady(d, stream, p) {
      RunGrows(d, stream, Step(d, p, FrameAt(d, stream, p)));
      LastFrameReceived(d, stream, Step(d, p, FrameAt(d, stream, p)));
    }
  }

  lemma QuotientBetween(a: nat, b: nat, q: nat)
    requires b > 0 && q * b <= a < q * b + b
    ensures a / b == q
  {
    var k := a / b;
    assert a == k * b + a % b;
    OneMore(k, b);
    OneMore(q, b);
    if k < q {
      ProductMonotone(k + 1, q, b);
    } else if q < k {
      ProductMonotone(q + 1, k, b);
    }
  }

  lemma {:induction false} AnchorsGrow(d: Setup, p: Progress, i: nat)
    requires Spaced(d, p) && i < |p.candidates| && d.config.refractory >= 0
    ensures i * d.config.refractory <= p.candidates[i].anchor
  {
    if i > 0 {
      AnchorsGrow(d, p, i - 1);
      OneMore(i - 1, d.config.refractory);
    }
  }

  /** Every candidate is the record of one emitting frame. */
  lemma CandidateReadOff(d: Setup, stream: Samples, i: nat) returns (k: nat)
    requires d.Valid() && i < |Run(d, stream, START).candidates|
    ensures var p := Run(d, stream, START);
      k < |p.traces| && p.traces[k].wouldEmit
      && var c, t := p.candidates[i], p.traces[k];
         c == Candidate(t.start, t.end, t.rms, t.flux, t.rmsGate, t.fluxGate)
  {
    AlwaysSound(d, stream);
    var p := Run(d, stream, START);
    hide Run;
    EmittedShape(p.traces, i);
    k :| 0 <= k < |p.traces| && p.traces[k].wouldEmit && p.candidates[i] == CandidateOf(p.traces[k]);
  }

  /** A stream of n samples holds at most (n - frameSize) / refractory + 1 candidates. */
  lemma CandidateDensity(d: Setup, stream: Samples)
    requires d.Valid() && d.config.refractory > 0
    ensures var count := |Run(d, stream, START).candidates|;
      count == 0 || (count - 1) * d.config.refractory <= |stream| - d.config.frameSize
  {
    hide Run, Histories, NothingLost;
    AlwaysSound(d, stream);
    RunGrows(d, stream, START);
    var p := Run(d, stream, START);
    if p.candidates != [] {
      AnchorsGrow(d, p, |p.candidates| - 1);
      EmittedShape(p.traces, |p.candidates| - 1);
    }
  }

  lemma {:induction false} EmittedShape(traces: seq<FrameTrace>, i: nat)
    requires i < |Emitted(traces)|
    ensures exists k :: 0 <= k < |traces| && traces[k].wouldEmit && Emitted(traces)[i] == CandidateOf(traces[k])
  {
    var n := |traces| - 1;
    if i < |Emitted(traces[..n])| {
      EmittedShape(traces[..n], i);
      var k :| 0 <= k < n && traces[..n][k].wouldEmit && Emitted(traces[..n])[i] == CandidateOf(traces[..n][k]);
      assert traces[k] == traces[..n][k];
    } else {
      assert traces[n].wouldEmit;
    }
  }

  // ---- running the detector over a recording

  datatype ChunkSpec = Irregular | Size(samples: int)

  const PATTERN: seq<nat> := [317, 743, 512, 991, 640, 683]

  /** Consecutive ranges that cover [0, upTo). */
  ghost predicate Partition(ranges: seq<(nat, nat)>, upTo: nat) {
    && (forall i :: 0 <= i < |ranges| ==> ranges[i].0 < ranges[i].1)
    && (forall i :: 0 <= i < |ranges| - 1 ==> ranges[i].1 == ranges[i + 1].0)
    && (if ranges == [] then upTo == 0 else ranges[0].0 == 0 && ranges[|ranges| - 1].1 == upTo)
  }

  /** The requested length of the `i`-th range. */
  function ChunkSize(spec: ChunkSpec, i: nat): int {
    if spec.Irregular? then [317, 743, 512, 991, 640, 683][i % 6] else spec.samples
  }

  /** Every range has its requested length, cut at the end of the recording. */
  ghost predicate Sized(ranges: seq<(nat, nat)>, length: nat, spec: ChunkSpec) {
    forall i :: 0 <= i < |ranges| ==> ranges[i].1 == Min(length, ranges[i].0 + ChunkSize(spec, i))
  }

  lemma NoRanges(length: nat, spec: ChunkSpec)
    ensures Partition([], 0) && Sized([], length, spec)
  {
  }

  lemma ExtendRanges(ranges: seq<(nat, nat)>, start: nat, length: nat, spec: ChunkSpec)
    requires Partition(ranges, start) && Sized(ranges, length, spec)
    requires start < length && ChunkSize(spec, |ranges|) > 0
    ensures var end := Min(length, start + ChunkSize(spec, |ranges|));
      Partition(ranges + [(start, end)], end) && Sized(ranges + [(start, end)], length, spec)
  {
    hide ChunkSize, Partition, Sized;
    var end := Min(length, start + ChunkSize(spec, |ranges|));
    ExtendPartition(ranges, start, end);
    ExtendSized(ranges, start, length, spec);
  }

  lemma ExtendSized(ranges: seq<(nat, nat)>, start: nat, length: nat, spec: ChunkSpec)
    requires Sized(ranges, length, spec) && start + ChunkSize(spec, |ranges|) >= 0
    ensures Sized(ranges + [(start, Min(length, start + ChunkSize(spec, |ranges|)))], length, spec)
  {
    hide ChunkSize, Min;
  }

  lemma ExtendPartition(ranges: seq<(nat, nat)>, start: nat, end: nat)
    requires Partition(ranges, start) && start < end
    ensures Partition(ranges + [(start, end)], end)
  {
  }

  /** A fixed size puts the `i`-th range at the `i`-th multiple. */
  lemma {:induction false} FixedSize(ranges: seq<(nat, nat)>, length: nat, size: nat, i: nat)
    requires size > 0 && Partition(ranges, length) && Sized(ranges, length, Size(size)) && i < |ranges|
    ensures ranges[i] == (i * size, Min(length, (i + 1) * size))
  {
    OneMore(i, size);
    if i > 0 {
      FixedSize(ranges, length, size, i - 1);
      assert ranges[i - 1].1 == ranges[i].0 < ranges[i].1;
    }
  }

  /** `range` refuses a zero step; a negative one yields no chunk at all. */
  method ChunkRanges(length: nat, spec: ChunkSpec) returns (ranges: seq<(nat, nat)>)
    requires spec != Size(0)
    ensures spec.Irregular? || spec.samples > 0 ==> Partition(ranges, length) && Sized(ranges, length, spec)
    ensures spec.Size? && spec.samples > 0 ==>
      forall i :: 0 <= i < |ranges| ==> ranges[i] == (i * spec.samples, Min(length, (i + 1) * spec.samples))
    ensures spec.Size? && spec.samples < 0 ==> ranges == []
  {
    hide Partition, Sized;
    ranges := [];
    var offset, index := 0, 0;
    NoRanges(length, spec);
    while offset < length && (spec.Irregular? || spec.samples > 0)
      invariant index == |ranges| && Sized(ranges, length, spec)
      invariant offset <= length ==> Partition(ranges, offset)
      invariant offset > length ==> Partition(ranges, length)
      invariant spec.Size? && spec.samples < 0 ==> ranges == []
      decreases length - offset
    {
      var size: nat := if spec.Irregular? then PATTERN[index % |PATTERN|] else spec.samples;
      ExtendRanges(ranges, offset, length, spec);
      ranges := ranges + [(offset, Min(length, offset + size))];
      offset := offset + size;
      index := index + 1;
    }
    if spec.Size? && spec.samples > 0 {
      forall i | 0 <= i < |ranges| ensures ranges[i] == (i * spec.samples, Min(length, (i + 1) * spec.samples)) {
        FixedSize(ranges, length, spec.samples, i);
      }
    }
  }

  /** `_run_detector`: with any chunk specification that delivers the audio, the
      candidates and traces are those of the one fold over the recording. */
  method RunDetector(d: Setup, audio: Samples, spec: ChunkSpec)
      returns (candidates: seq<StrikeCandidate>, traces: seq<FrameTrace>)
    requires d.Valid() && spec != Size(0)
    ensures spec.Irregular? || spec.samples > 0 ==>
      Cores(candidates) == Run(d, audio, START).candidates && traces == Run(d, audio, START).traces
    ensures forall i :: 0 <= i < |candidates| ==>
      candidates[i].candidate.emit <= candidates[i].receivedAtEmit <= |audio|
  {
    hide Run, Partition, Sized;
    var detector := new CausalPcmStrikeDetector(d);
    var ranges := ChunkRanges(|audio|, spec);
    var at := 0;
    for i := 0 to |ranges|
      invariant detector.Valid() && detector.setup == d && fresh(detector)
      invariant spec.Irregular? || spec.samples > 0 ==>
        at <= |audio| && at == (if i == 0 then 0 else ranges[i - 1].1) && detector.audio == audio[..at]
      invariant spec.Size? && spec.samples < 0 ==> ranges == []
      invariant detector.receivedSamples <= |audio|
      invariant forall k :: 0 <= k < |detector.candidates| ==>
        detector.candidates[k].candidate.emit <= detector.candidates[k].receivedAtEmit <= detector.receivedSamples
    {
      RangesWithin(ranges, |audio|, i);
      var chunk := audio[ranges[i].0..ranges[i].1];
      assert audio[..at] + chunk == audio[..ranges[i].1];
      var emitted := detector.Ingest(chunk);
      at := ranges[i].1;
    }
    PartitionEnd(ranges, |audio|, spec.Irregular? || spec.samples > 0);
    assert audio[..|audio|] == audio;
    return detector.candidates, detector.frameTraces;
  }

  lemma PartitionEnd(ranges: seq<(nat, nat)>, upTo: nat, complete: bool)
    requires complete ==> Partition(ranges, upTo)
    ensures complete ==> upTo == if ranges == [] then 0 else ranges[|ranges| - 1].1
  {
  }

  lemma {:induction false} RangesWithin(ranges: seq<(nat, nat)>, upTo: nat, i: nat)
    requires Partition(ranges, upTo) && i < |ranges|
    ensures ranges[i].0 < ranges[i].1 <= upTo
    ensures ranges[i].0 == if i == 0 then 0 else ranges[i - 1].1
    decreases |ranges| - i
  {
    if i < |ranges| - 1 {
      RangesWithin(ranges, upTo, i + 1);
    }
  }
}
