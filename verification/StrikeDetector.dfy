/** The streaming strike detector: fixed frames, bounded histories, adaptive gates and
    a refractory period. Its answer must not depend on how the PCM is chunked. */
module StrikeDetector {
  import opened Extremum
  import opened Wrappers

  type Samples = seq<real>

  datatype Config = Config(
    frameSize: nat, hop: nat, baselineFrames: nat,
    minRms: real, rmsRatio: real, minFlux: real, fluxRatio: real,
    refractory: int)

  /** The signal processing, left uninterpreted: any pure function will do. */
  datatype Signal = Signal(
    rms: Samples -> real,
    magnitude: Samples -> Samples,
    flux: (Samples, Samples) -> real,
    median: seq<real> -> real,
    stats: (seq<real>, real) -> seq<real>)

  datatype Setup = Setup(config: Config, signal: Signal) {
    /** Without a positive hop the frame loop would not advance. */
    predicate Valid() { config.frameSize > 0 && config.hop > 0 }
  }

  datatype FrameTrace = FrameTrace(
    start: nat, end: nat,
    rms: real, flux: real,
    medianRms: real, rmsStats: seq<real>, medianFlux: real,
    rmsFloor: real, adaptiveRmsGate: real, rmsGate: real,
    fluxFloor: real, adaptiveFluxGate: real, fluxGate: real,
    passesRms: bool, passesFlux: bool, passesRefractory: bool, wouldEmit: bool)

  datatype Candidate = Candidate(anchor: nat, emit: nat, rms: real, flux: real, rmsGate: real, fluxGate: real)

  /** Everything the detector carries from frame to frame. */
  datatype Progress = Progress(
    next: nat,
    previousMagnitude: Option<Samples>,
    rmsHistory: seq<real>, fluxHistory: seq<real>,
    lastAnchor: Option<nat>,
    traces: seq<FrameTrace>, candidates: seq<Candidate>)

  const START := Progress(0, None, [], [], None, [], [])

  /** `deque(maxlen=n)`: only the newest `n` values stay. */
  function LastN(s: seq<real>, n: nat): seq<real> {
    if |s| <= n then s else s[|s| - n..]
  }

  function MedianOrZero(d: Setup, history: seq<real>): real {
    if history == [] then 0.0 else d.signal.median(history)
  }

  /** The measurements and gate decisions for the frame starting at `start`. */
  function Judge(d: Setup, p: Progress, start: nat, frame: Samples): FrameTrace {
    var rms := d.signal.rms(frame);
    var flux := if p.previousMagnitude.None? then 0.0
                else d.signal.flux(p.previousMagnitude.value, d.signal.magnitude(frame));
    var medianRms, medianFlux := MedianOrZero(d, p.rmsHistory), MedianOrZero(d, p.fluxHistory);
    var adaptiveRmsGate, adaptiveFluxGate := medianRms * d.config.rmsRatio, medianFlux * d.config.fluxRatio;
    var rmsGate, fluxGate := MaxReal(d.config.minRms, adaptiveRmsGate), MaxReal(d.config.minFlux, adaptiveFluxGate);
    var enoughRefractory := p.lastAnchor.None? || start - p.lastAnchor.value >= d.config.refractory;
    var passesRms, passesFlux := rms >= rmsGate, flux >= fluxGate;
    FrameTrace(start, start + d.config.frameSize, rms, flux,
               medianRms, d.signal.stats(p.rmsHistory, rms), medianFlux,
               d.config.minRms, adaptiveRmsGate, rmsGate,
               d.config.minFlux, adaptiveFluxGate, fluxGate,
               passesRms, passesFlux, enoughRefractory,
               passesRms && passesFlux && enoughRefractory)
  }

  function CandidateOf(t: FrameTrace): Candidate {
    Candidate(t.start, t.end, t.rms, t.flux, t.rmsGate, t.fluxGate)
  }

  /** Processing one frame. */
  function Step(d: Setup, p: Progress, frame: Samples): Progress {
    var t := Judge(d, p, p.next, frame);
    Progress(
      p.next + d.config.hop,
      Some(d.signal.magnitude(frame)),
      LastN(p.rmsHistory + [t.rms], d.config.baselineFrames),
      LastN(p.fluxHistory + [t.flux], d.config.baselineFrames),
      if t.wouldEmit then Some(p.next) else p.lastAnchor,
      p.traces + [t],
      if t.wouldEmit then p.candidates + [CandidateOf(t)] else p.candidates)
  }

  predicate FrameReady(d: Setup, stream: Samples, p: Progress) { p.next + d.config.frameSize <= |stream| }

  function FrameAt(d: Setup, stream: Samples, p: Progress): Samples
    requires FrameReady(d, stream, p)
  {
    stream[p.next..p.next + d.config.frameSize]
  }

  /** The reference: one fold over every complete frame of the stream. */
  function Run(d: Setup, stream: Samples, p: Progress): Progress
    requires d.Valid()
    decreases |stream| - p.next
  {
    if FrameReady(d, stream, p) then Run(d, stream, Step(d, p, FrameAt(d, stream, p))) else p
  }

  // ---- the class

  datatype StrikeCandidate = StrikeCandidate(candidate: Candidate, receivedAtEmit: nat)

  function Cores(s: seq<StrikeCandidate>): seq<Candidate> {
    seq(|s|, i requires 0 <= i < |s| => s[i].candidate)
  }

  class CausalPcmStrikeDetector {
    const setup: Setup
    var audio: Samples
    var nextFrameStart: nat
    var previousMagnitude: Option<Samples>
    var rmsHistory: seq<real>
    var fluxHistory: seq<real>
    var lastCandidateAnchor: Option<nat>
    var candidates: seq<StrikeCandidate>
    var frameTraces: seq<FrameTrace>
    var receivedSamples: nat

    ghost function State(): Progress
      reads this
    {
      Progress(nextFrameStart, previousMagnitude, rmsHistory, fluxHistory,
          lastCandidateAnchor, frameTraces, Cores(candidates))
    }

    /** The detector is exactly where the reference fold over the received stream is. */
    ghost predicate Valid()
      reads this
    {
      && setup.Valid()
      && receivedSamples == |audio|
      && State() == Run(setup, audio, START)
    }

    constructor (setup: Setup)
      requires setup.Valid()
      ensures Valid() && this.setup == setup && audio == [] && candidates == []
    {
      this.setup := setup;
      audio, nextFrameStart, previousMagnitude := [], 0, None;
      rmsHistory, fluxHistory, lastCandidateAnchor := [], [], None;
      candidates, frameTraces, receivedSamples := [], [], 0;
    }

    /** The body of the frame loop: judge the frame at the cursor, remember it, advance. */
    method ProcessFrame() returns (emitted: seq<StrikeCandidate>)
      requires nextFrameStart + setup.config.frameSize <= receivedSamples == |audio|
      modifies this
      ensures audio == old(audio) && receivedSamples == old(receivedSamples)
      ensures State() == Step(setup, old(State()), FrameAt(setup, audio, old(State())))
      ensures candidates == old(candidates) + emitted
      ensures forall i :: 0 <= i < |emitted| ==>
        emitted[i].candidate.emit == old(nextFrameStart) + setup.config.frameSize
            && emitted[i].receivedAtEmit == receivedSamples
    {
      hide Judge, LastN;
      var frameStart, frameEnd := nextFrameStart, nextFrameStart + setup.config.frameSize;
      var frame := audio[frameStart..frameEnd];
      var trace := Judge(setup, Progress(nextFrameStart, previousMagnitude, rmsHistory, fluxHistory,
                                         lastCandidateAnchor, [], []), frameStart, frame);
      JudgeFrame(setup, State(), frameStart, frame);
      frameTraces := frameTraces + [trace];
      emitted := [];
      if trace.wouldEmit {
        var candidate := StrikeCandidate(CandidateOf(trace), receivedSamples);
        // the script raises AssertionError when this fails; it never does
        assert candidate.candidate.anchor <= candidate.candidate.emit <= candidate.receivedAtEmit;
        CoresAppend(candidates, candidate);
        candidates := candidates + [candidate];
        emitted := [candidate];
        lastCandidateAnchor := Some(frameStart);
      }
      rmsHistory := LastN(rmsHistory + [trace.rms], setup.config.baselineFrames);
      fluxHistory := LastN(fluxHistory + [trace.flux], setup.config.baselineFrames);
      previousMagnitude := Some(setup.signal.magnitude(frame));
      nextFrameStart := nextFrameStart + setup.config.hop;
    }

    method Ingest(chunk: Samples) returns (emitted: seq<StrikeCandidate>)
      requires Valid()
      modifies this
      ensures Valid() && audio == old(audio) + chunk
      ensures candidates == old(candidates) + emitted
      ensures forall i :: 0 <= i < |emitted| ==>
        old(receivedSamples) < emitted[i].candidate.emit <= emitted[i].receivedAtEmit == receivedSamples
    {
      hide Step, FrameAt, Cores;
      if chunk != [] {
        audio := audio + chunk;
        receivedSamples := receivedSamples + |chunk|;
      }
      assert audio == old(audio) + chunk;
      emitted := [];
      RunExtends(setup, old(audio), chunk, START);
      assert State() == old(State());
      while nextFrameStart + setup.config.frameSize <= receivedSamples
        invariant audio == old(audio) + chunk && receivedSamples == |audio|
        invariant old(receivedSamples) < nextFrameStart + setup.config.frameSize
        invariant Run(setup, audio, State()) == Run(setup, audio, START)
        invariant candidates == old(candidates) + emitted
        invariant forall i :: 0 <= i < |emitted| ==>
          old(receivedSamples) < emitted[i].candidate.emit <= emitted[i].receivedAtEmit == receivedSamples
        decreases receivedSamples - nextFrameStart
      {
        StateFields();
        StepAdvances(setup, State(), FrameAt(setup, audio, State()));
        var now := ProcessFrame();
        StateFields();
        emitted := emitted + now;
      }
      StateFields();
    }

    lemma StateFields()
      ensures State().next == nextFrameStart
    {
    }
  }

  lemma StepAdvances(d: Setup, p: Progress, frame: Samples)
    ensures Step(d, p, frame).next == p.next + d.config.hop
  {
  }

  /** The judgement looks at the memory only, not at what was recorded. */
  lemma JudgeFrame(d: Setup, p: Progress, start: nat, frame: Samples)
    ensures Judge(d, p.(traces := [], candidates := []), start, frame) == Judge(d, p, start, frame)
    ensures Judge(d, p, start, frame).start == start && Judge(d, p, start, frame).end == start + d.config.frameSize
  {
  }

  lemma CoresAppend(s: seq<StrikeCandidate>, c: StrikeCandidate)
    ensures Cores(s + [c]) == Cores(s) + [c.candidate]
  {
  }

  /** Later samples never change what was decided: folding on from the old stop
      is the same as folding the longer stream from the start. */
  lemma {:induction false} RunExtends(d: Setup, stream: Samples, more: Samples, p: Progress)
    requires d.Valid()
    ensures Run(d, stream + more, p) == Run(d, stream + more, Run(d, stream, p))
    ensures |stream| < Run(d, stream, p).next + d.config.frameSize
    decreases |stream| - p.next
  {
    if FrameReady(d, stream, p) {
      assert FrameAt(d, stream + more, p) == FrameAt(d, stream, p);
      RunExtends(d, stream, more, Step(d, p, FrameAt(d, stream, p)));
    }
  }
}
