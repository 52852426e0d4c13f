/** The streaming gate: every group's clip is cut out of the rolling buffer as soon as
    its decision sample has arrived, and compared with the clip cut offline. */
module OracleGate {
  import opened Extremum
  import opened Products
  import opened Wrappers
  import opened Sorting
  import opened RollingBuffer
  import opened Slicing

  const TARGET_ANCHOR_SAMPLES := 25_600
  const REAL_LOOKBACK_SAMPLES := 16_000
  const FUTURE_PREFIX_SAMPLES := 3_520
  const TENSOR_SAMPLES := TARGET_ANCHOR_SAMPLES + FUTURE_PREFIX_SAMPLES

  function Zeros(n: nat): Samples { seq(n, _ => 0.0) }

  function AvailableReal(target: int): int { Min(REAL_LOOKBACK_SAMPLES, target) }

  function RealStart(target: int): int { target - AvailableReal(target) }

  function DecisionSample(target: int): int { target + FUTURE_PREFIX_SAMPLES }

  function Padded(target: int, realAudio: Samples): Samples {
    Zeros(TARGET_ANCHOR_SAMPLES - AvailableReal(target)) + realAudio
  }

  /** The clip as the fixed-anchor evaluation cuts it from the whole recording. */
  function OfflineTensor(audio: Samples, target: int): Samples {
    Padded(target, PySlice(audio, RealStart(target), Min(|audio|, DecisionSample(target))))
  }

  /** The clip cut from a buffer that has received `stream`. */
  function BufferTensor(stream: Samples, maxRetained: int, target: int): Result<Samples, BufferError> {
    match Window(stream, maxRetained, RealStart(target), DecisionSample(target))
    case Err(e) => Err(e)
    case Ok(realAudio) => Ok(Padded(target, realAudio))
  }

  method ExtractFixedAnchorTensor(buffer: RollingPcmBuffer, target: int, decision: int)
      returns (r: Result<Samples, BufferError>)
    requires buffer.Valid() && decision == DecisionSample(target)
    ensures r == BufferTensor(buffer.stream, buffer.maxRetainedSamples, target)
  {
    var availableReal := AvailableReal(target);
    var realAudio := buffer.Extract(target - availableReal, decision);
    if realAudio.Err? {
      return Err(realAudio.error);
    }
    return Ok(Zeros(TARGET_ANCHOR_SAMPLES - availableReal) + realAudio.value);
  }

  // ---- which chunk delivers a decision sample

  /** The end of the first chunk, at or after `start`, that reaches sample `d` (or of the last chunk). */
  function Arrival(n: nat, chunk: nat, d: int, start: nat): (r: nat)
    requires chunk > 0 && start < n
    ensures start < r <= n
    ensures d <= n ==> d <= r
    ensures start < d ==> r - d < chunk
    ensures r - start <= chunk || r - d < chunk
    decreases n - start
  {
    var r: nat := Min(n, start + chunk);
    if d <= r || r == n then r else Arrival(n, chunk, d, r)
  }

  /** A chunk ends at a multiple of the chunk size, or with the recording. */
  lemma {:induction false} ArrivalOnGrid(n: nat, chunk: nat, d: int, start: nat)
    requires chunk > 0 && start < n && start % chunk == 0
    ensures var r := Arrival(n, chunk, d, start); r % chunk == 0 || r == n
    decreases n - start
  {
    if start + chunk < n {
      NextMultiple(start, chunk);
      if start + chunk < d { ArrivalOnGrid(n, chunk, d, start + chunk); }
    }
  }

  predicate Reached(n: nat, d: int) { n > 0 && d <= n }

  // ---- the gate

  datatype Pending = Pending(groupIndex: nat, target: int)

  predicate DecidedFirst(a: Pending, b: Pending) { DecisionSample(a.target) <= DecisionSample(b.target) }

  function PendingOf(targets: seq<int>): seq<Pending> {
    seq(|targets|, i requires 0 <= i < |targets| => Pending(i, targets[i]))
  }

  datatype Extraction = Extraction(item: Pending, tensor: Samples, overshoot: int, equivalent: bool)

  datatype GateReport = GateReport(extractions: seq<Extraction>, missing: seq<Pending>)

  /** What the gate does with one pending group whose decision sample is inside the audio. */
  ghost function Extracted(audio: Samples, chunk: nat, maxRetained: int, item: Pending): Result<Extraction, BufferError>
    requires chunk > 0 && audio != []
  {
    var received := Arrival(|audio|, chunk, DecisionSample(item.target), 0);
    match BufferTensor(audio[..received], maxRetained, item.target)
    case Err(e) => Err(e)
    case Ok(tensor) =>
      Ok(Extraction(item, tensor, received - DecisionSample(item.target), tensor == OfflineTensor(audio, item.target)))
  }

  /** The extractions are those of as many pending groups, in order, all inside the audio. */
  ghost predicate ExtractedSoFar(extractions: seq<Extraction>, ordered: seq<Pending>,
      audio: Samples, chunk: nat, maxRetained: int)
    requires chunk > 0
  {
    && |extractions| <= |ordered|
    && (forall i :: 0 <= i < |extractions| ==>
          Reached(|audio|, DecisionSample(ordered[i].target))
          && Extracted(audio, chunk, maxRetained, ordered[i]) == Ok(extractions[i]))
  }

  ghost predicate Fails(audio: Samples, chunk: nat, maxRetained: int, item: Pending)
    requires chunk > 0
  {
    Reached(|audio|, DecisionSample(item.target)) && Extracted(audio, chunk, maxRetained, item).Err?
  }

  /** Group `k` fails with `error`, and all groups before it in decision order are extracted. */
  ghost predicate FailsFirst(ordered: seq<Pending>, k: nat, error: BufferError,
      audio: Samples, chunk: nat, maxRetained: int)
    requires chunk > 0
  {
    && k < |ordered|
    && Fails(audio, chunk, maxRetained, ordered[k]) && Extracted(audio, chunk, maxRetained, ordered[k]).error == error
    && (forall i :: 0 <= i < k ==>
          Reached(|audio|, DecisionSample(ordered[i].target)) && Extracted(audio, chunk, maxRetained, ordered[i]).Ok?)
  }

  /** The inner loop: extract every pending group whose decision sample the newest chunk
      (from `chunkStart` to `received`) delivered. */
  method ExtractDue(audio: Samples, pending: seq<Pending>, chunkSamples: nat, buffer: RollingPcmBuffer,
                    ghost chunkStart: nat, ghost received: nat, before: seq<Extraction>)
    returns (r: Result<seq<Extraction>, BufferError>)
    requires chunkSamples > 0 && chunkStart < |audio| && received == Min(|audio|, chunkStart + chunkSamples)
    requires buffer.Valid() && buffer.stream == audio[..received]
    requires ExtractedSoFar(before, pending, audio, chunkSamples, buffer.maxRetainedSamples)
    requires Waiting(pending, |before|, |audio|, chunkSamples, chunkStart)
    ensures r.Err? ==>
      exists k :: FailsFirst(pending, k, r.error, audio, chunkSamples, buffer.maxRetainedSamples)
    ensures r.Ok? ==> |before| <= |r.value|
    ensures r.Ok? ==> ExtractedSoFar(r.value, pending, audio, chunkSamples, buffer.maxRetainedSamples)
    ensures r.Ok? && |r.value| < |pending| ==> received < DecisionSample(pending[|r.value|].target)
  {
    hide Extracted, Arrival, BufferTensor, OfflineTensor;
    var extractions := before;
    while |extractions| < |pending| && buffer.receivedSamples >= DecisionSample(pending[|extractions|].target)
      invariant |before| <= |extractions| <= |pending|
      invariant ExtractedSoFar(extractions, pending, audio, chunkSamples, buffer.maxRetainedSamples)
      decreases |pending| - |extractions|
    {
      var item := pending[|extractions|];
      var decision := DecisionSample(item.target);
      ArrivalHere(|audio|, chunkSamples, decision, chunkStart);
      ExtractedAt(audio, chunkSamples, buffer.maxRetainedSamples, item, received);
      var rollingTensor := ExtractFixedAnchorTensor(buffer, item.target, decision);
      if rollingTensor.Err? {
        assert FailsFirst(pending, |extractions|, rollingTensor.error, audio, chunkSamples, buffer.maxRetainedSamples);
        return Err(rollingTensor.error);
      }
      var offlineTensor := OfflineTensor(audio, item.target);
      extractions := extractions + [Extraction(item, rollingTensor.value, buffer.receivedSamples - decision,
                                               rollingTensor.value == offlineTensor)];
    }
    return Ok(extractions);
  }

  /** The scheduling loop of `_sample_gate_for_cases` for one recording: it raises exactly when
      some extraction must, the error of the first such group in decision order. */
  method SampleGate(audio: Samples, targets: seq<int>, chunkSamples: nat, maxRetained: int)
    returns (r: Result<GateReport, BufferError>)
    requires chunkSamples > 0
    ensures r.Err? <==> exists item :: item in PendingOf(targets) && Fails(audio, chunkSamples, maxRetained, item)
    ensures r.Err? ==>
      exists k :: FailsFirst(Sort(PendingOf(targets), DecidedFirst), k, r.error, audio, chunkSamples, maxRetained)
    ensures r.Ok? ==>
      var ordered := Sort(PendingOf(targets), DecidedFirst);
      && ExtractedSoFar(r.value.extractions, ordered, audio, chunkSamples, maxRetained)
      && r.value.missing == ordered[|r.value.extractions|..]
      && (forall item :: item in r.value.missing ==> !Reached(|audio|, DecisionSample(item.target)))
  {
    hide ExtractedSoFar, Sort, Fails, FailsFirst, Waiting;
    var pending := Sort(PendingOf(targets), DecidedFirst);
    SortMembers(PendingOf(targets), DecidedFirst);
    var buffer := new RollingPcmBuffer(maxRetained);
    var extractions: seq<Extraction> := [];
    NothingExtracted(pending, audio, chunkSamples, maxRetained);
    AllWaiting(pending, |audio|, chunkSamples);
    var chunkStart := 0;
    while chunkStart < |audio|
      invariant 0 <= chunkStart && |extractions| <= |pending|
      invariant buffer.Valid() && fresh(buffer) && buffer.maxRetainedSamples == maxRetained
      invariant buffer.stream == audio[..Min(|audio|, chunkStart)]
      invariant ExtractedSoFar(extractions, pending, audio, chunkSamples, maxRetained)
      invariant Waiting(pending, |extractions|, |audio|, chunkSamples, chunkStart)
      decreases |audio| - chunkStart
    {
      var received: nat := Min(|audio|, chunkStart + chunkSamples);
      var chunk := audio[chunkStart..received];
      assert audio[..chunkStart] + chunk == audio[..received];
      buffer.Append(chunk);
      var extended := ExtractDue(audio, pending, chunkSamples, buffer, chunkStart, received, extractions);
      if extended.Err? {
        ghost var k :| FailsFirst(pending, k, extended.error, audio, chunkSamples, maxRetained);
        FirstFailureFails(pending, k, extended.error, audio, chunkSamples, maxRetained);
        return Err(extended.error);
      }
      ExtractedBound(extended.value, pending, audio, chunkSamples, maxRetained);
      WaitingStep(pending, |extractions|, |extended.value|, |audio|, chunkSamples, chunkStart);
      extractions := extended.value;
      chunkStart := chunkStart + chunkSamples;
    }
    WaitingForever(pending, |extractions|, |audio|, chunkSamples, chunkStart);
    NothingFails(extractions, pending, audio, chunkSamples, maxRetained);
    return Ok(GateReport(extractions, pending[|extractions|..]));
  }

  lemma FirstFailureFails(ordered: seq<Pending>, k: nat, error: BufferError,
      audio: Samples, chunk: nat, maxRetained: int)
    requires chunk > 0 && FailsFirst(ordered, k, error, audio, chunk, maxRetained)
    ensures k < |ordered| && ordered[k] in ordered && Fails(audio, chunk, maxRetained, ordered[k])
  {
  }

  lemma NothingFails(extractions: seq<Extraction>, ordered: seq<Pending>, audio: Samples, chunk: nat, maxRetained: int)
    requires chunk > 0 && ExtractedSoFar(extractions, ordered, audio, chunk, maxRetained)
    requires |extractions| <= |ordered|
    requires forall item :: item in ordered[|extractions|..] ==> !Reached(|audio|, DecisionSample(item.target))
    ensures forall item :: item in ordered ==> !Fails(audio, chunk, maxRetained, item)
  {
    hide Extracted;
  }

  /** The groups from `k` on wait for samples beyond those received before `chunkStart`. */
  ghost predicate Waiting(pending: seq<Pending>, k: nat, n: nat, chunk: nat, chunkStart: nat)
    requires chunk > 0
  {
    forall i :: k <= i < |pending| ==>
      var d := DecisionSample(pending[i].target);
      && (chunkStart > 0 ==> Min(n, chunkStart) < d)
      && (chunkStart < n ==> Arrival(n, chunk, d, 0) == Arrival(n, chunk, d, chunkStart))
  }

  lemma AllWaiting(pending: seq<Pending>, n: nat, chunk: nat)
    requires chunk > 0
    ensures Waiting(pending, 0, n, chunk, 0)
  {
  }

  lemma WaitingStep(pending: seq<Pending>, k: nat, k': nat, n: nat, chunk: nat, chunkStart: nat)
    requires chunk > 0 && chunkStart < n && k <= k' <= |pending|
    requires SortedBy(pending, DecidedFirst) && Waiting(pending, k, n, chunk, chunkStart)
    requires k' < |pending| ==> Min(n, chunkStart + chunk) < DecisionSample(pending[k'].target)
    ensures Waiting(pending, k', n, chunk, chunkStart + chunk)
  {
    hide Arrival;
    forall i | k' <= i < |pending|
      ensures var d := DecisionSample(pending[i].target);
        && Min(n, chunkStart + chunk) < d
        && (chunkStart + chunk < n ==> Arrival(n, chunk, d, 0) == Arrival(n, chunk, d, chunkStart + chunk))
    {
      assert i > k' ==> DecidedFirst(pending[k'], pending[i]);
      ArrivalLater(n, chunk, DecisionSample(pending[i].target), chunkStart);
    }
  }

  lemma WaitingForever(pending: seq<Pending>, k: nat, n: nat, chunk: nat, chunkStart: nat)
    requires chunk > 0 && n <= chunkStart && k <= |pending| && Waiting(pending, k, n, chunk, chunkStart)
    ensures forall item :: item in pending[k..] ==> !Reached(n, DecisionSample(item.target))
  {
    forall item | item in pending[k..] ensures !Reached(n, DecisionSample(item.target)) {
      var i :| k <= i < |pending| && pending[i] == item;
    }
  }

  lemma ExtractedBound(extractions: seq<Extraction>, ordered: seq<Pending>,
      audio: Samples, chunk: nat, maxRetained: int)
    requires chunk > 0 && ExtractedSoFar(extractions, ordered, audio, chunk, maxRetained)
    ensures |extractions| <= |ordered|
  {
  }

  lemma NothingExtracted(ordered: seq<Pending>, audio: Samples, chunk: nat, maxRetained: int)
    requires chunk > 0
    ensures ExtractedSoFar([], ordered, audio, chunk, maxRetained)
  {
  }

  lemma ArrivalHere(n: nat, chunk: nat, d: int, start: nat)
    requires chunk > 0 && start < n && d <= Min(n, start + chunk)
    ensures Arrival(n, chunk, d, start) == Min(n, start + chunk)
  {
  }

  lemma ArrivalLater(n: nat, chunk: nat, d: int, start: nat)
    requires chunk > 0 && start < n && Min(n, start + chunk) < d
    ensures start + chunk < n ==> Arrival(n, chunk, d, start) == Arrival(n, chunk, d, start + chunk)
  {
  }

  lemma ExtractedAt(audio: Samples, chunk: nat, maxRetained: int, item: Pending, received: nat)
    requires chunk > 0 && audio != [] && received <= |audio|
    requires received == Arrival(|audio|, chunk, DecisionSample(item.target), 0)
    ensures Extracted(audio, chunk, maxRetained, item) ==
      match BufferTensor(audio[..received], maxRetained, item.target)
      case Err(e) => Err(e)
      case Ok(tensor) =>
        Ok(Extraction(item, tensor, received - DecisionSample(item.target),
                      tensor == OfflineTensor(audio, item.target)))
  {
  }

  // ---- how much must be retained

  /** With this much retention no extraction fails, wherever the targets lie. */
  lemma RetentionSuffices(audio: Samples, chunk: nat, maxRetained: int, item: Pending)
    requires chunk > 0 && maxRetained >= 19520 + chunk - 1
    ensures !Fails(audio, chunk, maxRetained, item)
  {
    if Reached(|audio|, DecisionSample(item.target)) {
      var received := Arrival(|audio|, chunk, DecisionSample(item.target), 0);
      assert RealStart(item.target) >= |audio[..received]| - Retained(received, maxRetained);
    }
  }

  lemma {:induction false} ArrivalAfterChunks(n: nat, chunk: nat, d: int, k: nat, start: nat)
    requires chunk > 0 && start + k * chunk + chunk == n && start + k * chunk < d <= n
    ensures start < n && Arrival(n, chunk, d, start) == n
    decreases k
  {
    assert k * chunk >= 0;
    if k > 0 {
      assert k * chunk == (k - 1) * chunk + chunk;
      assert (k - 1) * chunk >= 0;
      ArrivalAfterChunks(n, chunk, d, k - 1, start + chunk);
    }
  }

  /** And no less does: below the bound some recording and target make the extraction fail. */
  lemma RetentionNeeded(chunk: nat, maxRetained: int) returns (audio: Samples, target: nat)
    requires chunk > 0 && maxRetained < 19520 + chunk - 1
    ensures Fails(audio, chunk, maxRetained, Pending(0, target))
  {
    var chunks := REAL_LOOKBACK_SAMPLES + FUTURE_PREFIX_SAMPLES;
    audio := Zeros(chunks * chunk + chunk);
    var decision := chunks * chunk + 1;
    target := decision - FUTURE_PREFIX_SAMPLES;
    ArrivalAfterChunks(|audio|, chunk, decision, chunks, 0);
    assert audio[..|audio|] == audio;
  }

  // ---- the two ways of cutting agree

  lemma SliceOfPrefix(audio: Samples, received: nat, start: nat, end: nat)
    requires start <= end <= received <= |audio|
    ensures audio[..received][start..end] == audio[start..end]
  {
  }

  /** A successful extraction has the fixed length and equals the offline clip, except for
      targets so far before the recording that the offline slice counts from its end. */
  lemma StreamingEqualsOffline(audio: Samples, chunk: nat, maxRetained: int, item: Pending)
    requires chunk > 0 && Reached(|audio|, DecisionSample(item.target))
    requires !Fails(audio, chunk, maxRetained, item)
    ensures var e := Extracted(audio, chunk, maxRetained, item).value;
      && (e.equivalent <==> DecisionSample(item.target) >= 0 || |audio| + DecisionSample(item.target) <= 0)
      && (DecisionSample(item.target) >= 0 ==> |e.tensor| == 29120)
      && (0 < DecisionSample(item.target) ==> 0 <= e.overshoot < chunk)
  {
    var d := DecisionSample(item.target);
    var received := Arrival(|audio|, chunk, d, 0);
    var e := Extracted(audio, chunk, maxRetained, item).value;
    var zeros := Zeros(TARGET_ANCHOR_SAMPLES - AvailableReal(item.target));
    var offline := PySlice(audio, RealStart(item.target), Min(|audio|, d));
    if d >= 0 {
      SliceOfPrefix(audio, received, RealStart(item.target), d);
    } else {
      assert e.tensor == zeros + [];
      assert |OfflineTensor(audio, item.target)| == |zeros| + |offline|;
    }
  }

  /** Such a target, 3521 samples before a recording of two samples: the offline clip ends in a
      sample of audio that the extracted clip does not have. */
  lemma OfflineSliceWraps(audio: Samples)
    requires |audio| == 2
    ensures var item := Pending(0, -FUTURE_PREFIX_SAMPLES - 1);
      && Reached(2, DecisionSample(item.target)) && !Fails(audio, 2, 40_000, item)
      && var e := Extracted(audio, 2, 40_000, item).value;
         !e.equivalent && e.tensor == Zeros(TENSOR_SAMPLES + 1)
         && OfflineTensor(audio, item.target) == Zeros(TENSOR_SAMPLES + 1) + [audio[0]]
  {
    hide Extracted, Zeros;
    var item := Pending(0, -FUTURE_PREFIX_SAMPLES - 1);
    RetentionSuffices(audio, 2, 40_000, item);
    StreamingEqualsOffline(audio, 2, 40_000, item);
    ExtractedAt(audio, 2, 40_000, item, 2);
    assert PySlice(audio, 0, -1) == [audio[0]];
    assert Zeros(TENSOR_SAMPLES + 1) + [] == Zeros(TENSOR_SAMPLES + 1);
  }

  /** The clip: zeros up to the real second before the target, then the audio up to 3520 samples past it. */
  lemma TensorContents(audio: Samples, target: nat)
    requires target + 3520 <= |audio|
    ensures var clip := OfflineTensor(audio, target);
      && |clip| == 29120
      && (forall k :: 0 <= k < 29120 ==>
            clip[k] == if k < 9600 || target + k < 25600 then 0.0 else audio[target + k - 25600])
  {
  }

  /** The gate on a recording: with enough retention it never raises, every group whose
      decision sample is inside the audio is extracted and equivalent, all others are missing. */
  method GateWithEnoughRetention(audio: Samples, targets: seq<int>, chunkSamples: nat, maxRetained: int)
    returns (report: GateReport)
    requires chunkSamples > 0
    requires maxRetained >= 19520 + chunkSamples - 1
    requires forall i :: 0 <= i < |targets| ==> targets[i] >= 0
    ensures forall i :: 0 <= i < |report.extractions| ==>
      var e := report.extractions[i];
      e.equivalent && |e.tensor| == 29120 && 0 <= e.overshoot < chunkSamples
      && e.tensor == OfflineTensor(audio, e.item.target)
      && e.item.target + 3520 <= |audio|
      && DeliveredBy(e.item.target + 3520 + e.overshoot, |audio|, chunkSamples)
    ensures forall i :: 0 <= i < |report.missing| ==> |audio| < report.missing[i].target + 3520
    ensures multiset(Items(report.extractions) + report.missing) == multiset(PendingOf(targets))
    ensures |report.extractions| + |report.missing| == |targets|
    ensures forall i :: 0 <= i < |targets| ==>
      Pending(i, targets[i]) in multiset(Items(report.extractions)) + multiset(report.missing)
    ensures forall i, j :: 0 <= i < j < |report.extractions| ==>
      InDecisionOrder(report.extractions[i].item, report.extractions[j].item)
  {
    hide Extracted, Sort;
    var r := SampleGate(audio, targets, chunkSamples, maxRetained);
    if r.Err? {
      ghost var item :| item in PendingOf(targets) && Fails(audio, chunkSamples, maxRetained, item);
      RetentionSuffices(audio, chunkSamples, maxRetained, item);
    }
    report := r.value;
    ghost var ordered := Sort(PendingOf(targets), DecidedFirst);
    SortMembers(PendingOf(targets), DecidedFirst);
    forall i | 0 <= i < |report.extractions|
      ensures var e := report.extractions[i];
        e.equivalent && |e.tensor| == 29120 && 0 <= e.overshoot < chunkSamples
        && e.tensor == OfflineTensor(audio, e.item.target) && e.item == ordered[i]
        && e.item.target + 3520 <= |audio|
        && DeliveredBy(e.item.target + 3520 + e.overshoot, |audio|, chunkSamples)
    {
      assert ordered[i] in PendingOf(targets);
      ArrivalOnGrid(|audio|, chunkSamples, DecisionSample(ordered[i].target), 0);
      StreamingEqualsOffline(audio, chunkSamples, maxRetained, ordered[i]);
      ExtractedMeaning(audio, chunkSamples, maxRetained, ordered[i]);
    }
    forall i | 0 <= i < |report.missing| ensures |audio| < report.missing[i].target + 3520 {
      assert report.missing[i] in report.missing;
      assert report.missing[i] in ordered && report.missing[i] in PendingOf(targets);
    }
    assert Items(report.extractions) == ordered[..|report.extractions|];
    assert Items(report.extractions) + report.missing == ordered;
    forall i | 0 <= i < |targets|
      ensures Pending(i, targets[i]) in multiset(Items(report.extractions)) + multiset(report.missing)
    {
      assert PendingOf(targets)[i] in multiset(ordered);
    }
    forall i, j | 0 <= i < j < |report.extractions|
      ensures InDecisionOrder(report.extractions[i].item, report.extractions[j].item)
    {
      PendingInOrder(targets, i, j);
    }
  }

  /** The number of samples received when some chunk has just arrived. */
  predicate DeliveredBy(received: int, n: nat, chunk: nat)
    requires chunk > 0
  {
    received == n || received % chunk == 0
  }

  /** By target, and for equal targets in the order of the groups. */
  predicate InDecisionOrder(a: Pending, b: Pending) {
    a.target < b.target || (a.target == b.target && a.groupIndex < b.groupIndex)
  }

  lemma PendingInOrder(targets: seq<int>, i: nat, j: nat)
    requires i < j < |Sort(PendingOf(targets), DecidedFirst)|
    ensures var ordered := Sort(PendingOf(targets), DecidedFirst); InDecisionOrder(ordered[i], ordered[j])
  {
    var earlier := (a: Pending, b: Pending) => a.groupIndex < b.groupIndex;
    SortStable(PendingOf(targets), DecidedFirst, earlier);
    var ordered := Sort(PendingOf(targets), DecidedFirst);
    assert DecidedFirst(ordered[i], ordered[j]);
  }

  function Items(extractions: seq<Extraction>): seq<Pending> {
    seq(|extractions|, i requires 0 <= i < |extractions| => extractions[i].item)
  }

  lemma ExtractedMeaning(audio: Samples, chunk: nat, maxRetained: int, item: Pending)
    requires chunk > 0 && audio != [] && Extracted(audio, chunk, maxRetained, item).Ok?
    ensures var e := Extracted(audio, chunk, maxRetained, item).value;
      e.item == item
      && e.overshoot == Arrival(|audio|, chunk, DecisionSample(item.target), 0) - DecisionSample(item.target)
      && (e.equivalent <==> e.tensor == OfflineTensor(audio, item.target))
  {
  }
}
