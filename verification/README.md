# Verified model of the practice-audio research scripts

A Dafny model of the deterministic algorithms behind NoteVerse's audio and STEP research
scripts: the streaming strike detector, the rolling PCM buffer and its oracle gate, the
Standard MIDI File reader with chord grouping, closest-first matching of predicted to true
strikes, the rolling STEP event consumption, the shadow-runtime progression machine, the
tie-averaged rank statistic and the HTTP range reader. `dafny verify dfyconfig.toml` checks
the whole project.

## How it is laid out

| module | models |
|---|---|
| `StrikeDetector`, `StrikeCausality`, `StrikeMatching` | the causal detector, what its runs guarantee, and `_match_candidates` |
| `RankStatistic` | `_auroc` |
| `RollingBuffer`, `OracleGate` | `RollingPcmBuffer` and the streaming gate |
| `MidiTrack`, `TempoMap`, `MidiFile`, `StrikeGroups` | the MIDI reader, tick timing and `group_note_ons` |
| `GreedyAssignment`, `TruthWindows` | closest-first assignment and the charging of leftovers |
| `AnchorSchedule`, `StepEvents`, `PeakRegression` | anchors and clips, event matching, onset peaks |
| `ShadowRuntime` | the attempt/advance machine and the scope it runs on |
| `RangeReader` | `HttpRangeReader` |
| `Rounding`, `Slicing`, `Sorting`, `Extremum`, `Wrappers` | Python's `round`, slices, `sorted`, `dict.fromkeys`, `min` and `max`, option and result types |
| `Sequences`, `Products` | flattening of lists of lists, and facts about products and remainders that the proofs share |

Conventions. Arithmetic is exact: seconds and activations are `real`, samples and ticks are
integers, and `round` (half to even) is applied wherever the scripts round a value they use
again. Objects whose methods update fields are classes; each loop is a method proved against a
specification that does not follow its steps, or against a recursive function about which
the properties are then proved. Signal processing (RMS, spectrum, flux, median, percentiles),
the neural model's outputs, the observer and the evaluator are arbitrary pure functions passed
as parameters, so every result holds whatever they compute. Exceptions are `Result` values.

## Where the code and its purpose part

- Tempo: the parser sorts (tick, tempo) pairs, so of several tempos at one tick the slowest
  wins, the seeded 500000 at tick 0 included. `TempoMap.EffectiveTempoIsFileTempoIff` says
  exactly when the file's own tempo is in effect; `TempoMap.FasterInitialTempoIgnored` gives the
  family of one-tempo files that are timed too slowly throughout.
- Running status: the Standard MIDI Files 1.0 specification cancels running status at a meta or
  sysex event; the parser keeps it. `MidiTrack.Parse` takes the rule as a parameter, so both
  readings are defined. `MidiTrack.ReadingsAgreeIff` says that they agree on a written track
  exactly when every left-out status byte directly follows a channel event, and that the
  standard's reading is an error otherwise; `MidiTrack.ReadingsDiffer` is such a track, and
  `MidiTrack.StandardIsKept` says that the parser reads every track the standard admits.
- A tempo event cut off by the end of its track is read with the bytes that are there, so as a
  far smaller tempo (`MidiTrack.CutMetaEvent`).
- The gate's offline slice counts from the end of the recording for targets more than 3520
  samples before it. `OracleGate.StreamingEqualsOffline` states for which targets the two
  clips agree, both ways; `OracleGate.OfflineSliceWraps` is a target for which they differ.
- An unknown scope id silently widens the practice scope (`ShadowRuntime.UnknownIdWidens`);
  `ShadowRuntime.ScopeHonouredIff` and `ShadowRuntime.OneEndHonouredIff` say when the requested
  ends are honoured.
- A negative chord window is accepted; no window of negative length covers an onset, so
  `MidiFile.GroupsOfFile` gives a cover exactly when the window is not negative or no note was read.

## Model

| member | source | states |
|---|---|---|
| StrikeDetector.CausalPcmStrikeDetector.Ingest | backend/scripts/evaluate_causal_physical_strike_trigger.py:114-202 | after any chunk the detector is exactly where one fold over the whole received stream is; a candidate is emitted by the very call that completes its frame |
| StrikeDetector.RunExtends | backend/scripts/evaluate_causal_physical_strike_trigger.py:121-201 | folding on after more samples arrive equals folding the longer stream from the start, and no complete frame is left over |
| StrikeCausality.ChunkingIrrelevant | backend/scripts/evaluate_causal_physical_strike_trigger.py:114-202 | two ways of chunking one stream end in the same cursor, histories, traces and candidates |
| StrikeCausality.RunDetector | backend/scripts/evaluate_causal_physical_strike_trigger.py:374-393 | with every chunk specification that delivers the audio, candidates and traces are those of the one fold; emit time never exceeds what was received |
| StrikeCausality.ChunkRanges | backend/scripts/evaluate_causal_physical_strike_trigger.py:936-949 | the ranges partition the recording, each as long as its entry of the repeating pattern or as the fixed size, cut at the end; with fixed size n the i-th starts at i*n; a negative size yields none |
| StrikeCausality.DecidedWithoutTheFuture | backend/scripts/evaluate_causal_physical_strike_trigger.py:141-200 | cutting a stream after n samples keeps exactly the candidates emitted by sample n |
| StrikeCausality.AlwaysSound | backend/scripts/evaluate_causal_physical_strike_trigger.py:127-201 | on every stream: the histories are the newest values of all frames, at most the baseline length, oldest first; frames lie on the hop grid; candidates are the frames passing both gates outside every refractory period; consecutive anchors keep the refractory distance |
| StrikeCausality.TracesReadOffStream | backend/scripts/evaluate_causal_physical_strike_trigger.py:121-176 | each trace holds the measurements of its own samples and the flux against the frame before; its gates are the floors, raised to the ratio times the median of the newest baseline frames before it, zero when there are none |
| StrikeCausality.CandidateReadOff | backend/scripts/evaluate_causal_physical_strike_trigger.py:177-196 | every candidate carries start, end, measurements and gates of one emitting frame |
| StrikeCausality.FrameCount | backend/scripts/evaluate_causal_physical_strike_trigger.py:121-124 | a stream of n samples is judged in (n - frame) / hop + 1 frames |
| StrikeCausality.CandidateDensity | backend/scripts/evaluate_causal_physical_strike_trigger.py:141-144 | the number of candidates is bounded by stream length over refractory period |
| StrikeMatching.MatchCandidates | backend/scripts/evaluate_causal_physical_strike_trigger.py:409-459 | the two dictionaries are inverse and form the stable matching, by distance, of all pairs at most 1600 samples apart; surplus candidates plus heard strikes add up to these pairs |
| StrikeMatching.NoBlockingStrike | backend/scripts/evaluate_causal_physical_strike_trigger.py:421-444 | a near pair that is not matched lost its strike or its candidate to a pair at least as close |
| StrikeMatching.MatchedAtLeastHalf | backend/scripts/evaluate_causal_physical_strike_trigger.py:421-444 | no one-to-one matching of strikes and candidates near them is more than twice as large as the one found |
| StrikeMatching.AtMostThreeNear | backend/scripts/evaluate_causal_physical_strike_trigger.py:446-455 | with a refractory period of at least the tolerance, no strike of any stream has more than three candidates near it |
| RankStatistic.Auroc | backend/scripts/evaluate_causal_physical_strike_trigger.py:1346-1368 | the tie-averaged rank sum yields exactly wins plus half the ties over all positive-negative pairs; none exactly when a list is empty |
| RankStatistic.RankSum | backend/scripts/evaluate_causal_physical_strike_trigger.py:1351-1362 | the tie-block loop accumulates the pair count of the sorted list plus the triangular offset of its positives |
| RankStatistic.MannWhitneySwap | backend/scripts/evaluate_causal_physical_strike_trigger.py:1346-1368 | the pair counts of the two directions add up to all pairs |
| RankStatistic.AurocComplement | backend/scripts/evaluate_causal_physical_strike_trigger.py:1346-1368 | the value of the statistic lies in [0, 1] and exchanging the two lists gives one minus it |
| RankStatistic.MannWhitneyRescale | backend/scripts/evaluate_causal_physical_strike_trigger.py:1346-1368 | only the order of the feature values matters |
| RollingBuffer.RollingPcmBuffer.Append | backend/scripts/evaluate_bytedance_oracle_rolling_buffer.py:62-69 | appending extends the stream and keeps the chunks equal to its newest min(received, capacity) samples, none of them empty |
| RollingBuffer.RollingPcmBuffer.Trim | backend/scripts/evaluate_bytedance_oracle_rolling_buffer.py:99-111 | trimming restores the retained length, for negative capacities too, and leaves the stream alone |
| RollingBuffer.RollingPcmBuffer.Extract | backend/scripts/evaluate_bytedance_oracle_rolling_buffer.py:71-97 | extraction returns exactly the slice of the stream, or the error its bounds call for; failing to collect is unreachable |
| OracleGate.SampleGate | backend/scripts/evaluate_bytedance_oracle_rolling_buffer.py:240-336 | each group inside the audio is extracted once at its first sufficient chunk, in decision order, all others are missing; it raises exactly when some extraction fails, with the error of the first such group in decision order |
| OracleGate.RetentionSuffices | backend/scripts/evaluate_bytedance_oracle_rolling_buffer.py:252-266 | capacity 19520 + chunk - 1 suffices for every recording and target |
| OracleGate.RetentionNeeded | backend/scripts/evaluate_bytedance_oracle_rolling_buffer.py:252-266 | for every smaller capacity some recording and target make the extraction fail |
| OracleGate.StreamingEqualsOffline | backend/scripts/evaluate_bytedance_oracle_rolling_buffer.py:486-505 | an extracted clip equals the offline clip exactly when the offline slice does not wrap around; length 29120 and overshoot below one chunk |
| OracleGate.OfflineSliceWraps | backend/scripts/evaluate_bytedance_oracle_rolling_buffer.py:499-505 | for a target 3521 samples before a recording of two samples, the offline clip ends in a sample of audio that the extracted clip does not have |
| OracleGate.TensorContents | backend/scripts/evaluate_bytedance_oracle_rolling_buffer.py:499-505 | the clip is zero up to the real second before the target and the audio after it |
| OracleGate.GateWithEnoughRetention | backend/scripts/evaluate_bytedance_oracle_rolling_buffer.py:217-336 | with enough capacity the gate never raises, every extracted group is equivalent and extracted when its first sufficient chunk arrives, and extracted plus missing groups are all groups; groups come in order of their targets, those of one target in the order of the case |
| MidiTrack.ReadVlq | backend/scripts/evaluate_public_paired_midi_dataset.py:333-340 | reading consumes the quantity's bytes and fails exactly when the data ends first |
| MidiTrack.VlqRoundTrip | backend/scripts/evaluate_public_paired_midi_dataset.py:333-340 | every written quantity reads back, whatever follows it |
| MidiTrack.ParseTrack | backend/scripts/evaluate_public_paired_midi_dataset.py:285-326 | the byte loop terminates and returns what the recursive reading of the track does, errors and cut-off slices included |
| MidiTrack.EventRoundTrip | backend/scripts/evaluate_public_paired_midi_dataset.py:292-324 | a written channel, meta or sysex event, with or without its status byte, is read as its effect at the advanced tick, leaving the rest |
| MidiTrack.TrackRoundTrip | backend/scripts/evaluate_public_paired_midi_dataset.py:285-326 | a written track, one data byte after program change and channel pressure and two after other channel statuses, reads back as its tempo changes and positive-velocity strikes at their cumulative ticks, with the script's running status and with the standard's |
| MidiTrack.CutChannelEvent | backend/scripts/evaluate_public_paired_midi_dataset.py:319-324 | a track that ends within the data bytes of a channel event: nothing is struck, nothing raised |
| MidiTrack.CutMetaEvent | backend/scripts/evaluate_public_paired_midi_dataset.py:305-312 | a meta event cut off by the end of the track counts with the bytes that are there, a tempo event too |
| MidiTrack.CutSysexEvent | backend/scripts/evaluate_public_paired_midi_dataset.py:313-316 | a sysex event may end early |
| MidiTrack.CutBeforeLength | backend/scripts/evaluate_public_paired_midi_dataset.py:293-316 | a track that ends before a status byte, a meta type or a length is truncated |
| MidiTrack.OtherSystemEvent | backend/scripts/evaluate_public_paired_midi_dataset.py:299-324 | any other status byte from 0xF1 on is skipped with two data bytes and leaves the running status alone |
| MidiTrack.ReadingsAgreeIff | backend/scripts/evaluate_public_paired_midi_dataset.py:292-303 | on a track the script can read, its reading and the standard's agree exactly when every left-out status byte directly follows a channel event; otherwise the standard's reading is an error |
| MidiTrack.ReadingsDiffer | backend/scripts/evaluate_public_paired_midi_dataset.py:292-303 | a note-on, a text event and a note-on without status byte: two strikes for the script, an error for the standard |
| MidiTrack.StandardIsKept | backend/scripts/evaluate_public_paired_midi_dataset.py:292-303 | every track that leaves out status bytes by the standard's rule is one the script reads |
| MidiFile.ParseMidiNoteOns | backend/scripts/evaluate_public_paired_midi_dataset.py:243-282 | header and chunk errors in order, else all strikes in (tick, note) order at the integral of the effective tempo |
| MidiFile.HeaderErrors | backend/scripts/evaluate_public_paired_midi_dataset.py:246-264 | which header bytes are rejected with which error, and a first chunk that is not a track |
| MidiFile.NotesInOrder | backend/scripts/evaluate_public_paired_midi_dataset.py:281 | the notes are ordered by tick, then by note number |
| MidiFile.PitchNames | backend/scripts/evaluate_public_paired_midi_dataset.py:362-364 | note 60 is C4; class and octave of every note with a one-digit octave |
| MidiFile.DistinctPitchNames | backend/scripts/evaluate_public_paired_midi_dataset.py:362-364 | notes of the keyboard have distinct names, so comparing names compares notes |
| MidiFile.FileRoundTrip | backend/scripts/evaluate_public_paired_midi_dataset.py:243-282 | a written file reads back as the timed strikes of its tracks |
| MidiFile.NotesTimeSorted | backend/scripts/evaluate_public_paired_midi_dataset.py:275-282 | the notes come out sorted in time |
| MidiFile.GroupsOfFile | backend/scripts/evaluate_public_paired_midi_dataset.py:243-391 | grouping a file's notes gives no more groups than any list of closed windows covering its onsets has; the group starts are such a cover exactly when the window is not negative or there is no note |
| TempoMap.TicksToSeconds | backend/scripts/evaluate_public_paired_midi_dataset.py:343-359 | the accumulation is the sum over ticks of the effective tempo |
| TempoMap.SecondsOfTicks | backend/scripts/evaluate_public_paired_midi_dataset.py:343-359 | tick time is additive over adjacent intervals and never decreases |
| TempoMap.EffectiveIsGreatest | backend/scripts/evaluate_public_paired_midi_dataset.py:274 | the entry in effect is the greatest (tick, tempo) pair at or before the tick |
| TempoMap.EffectiveTempoIsFileTempoIff | backend/scripts/evaluate_public_paired_midi_dataset.py:259-274 | the file's own tempo is in effect exactly when no entry at its tick is slower, the seed included |
| TempoMap.FasterInitialTempoIgnored | backend/scripts/evaluate_public_paired_midi_dataset.py:259-274 | a single initial tempo faster than the seed is never in effect |
| StrikeGroups.GroupNoteOns | backend/scripts/evaluate_public_paired_midi_dataset.py:367-391 | the groups summarise consecutive blocks of the notes, each within the window of its start and the next start beyond it |
| StrikeGroups.ChordBlocksUnique | backend/scripts/evaluate_public_paired_midi_dataset.py:367-391 | there is only one such partition of the notes |
| StrikeGroups.GroupingUnique | backend/scripts/evaluate_public_paired_midi_dataset.py:367-391 | so the contract of the grouping determines its result |
| StrikeGroups.FewestWindows | backend/scripts/evaluate_public_paired_midi_dataset.py:367-391 | no list of closed windows of that length covering the onsets is shorter |
| StrikeGroups.StartsCover | backend/scripts/evaluate_public_paired_midi_dataset.py:367-391 | on time-sorted notes the group starts are such a cover |
| StrikeGroups.StartsCoverIff | backend/scripts/evaluate_public_paired_midi_dataset.py:367-391 | exactly when the window is not negative or there is no note |
| GreedyAssignment.Assign | backend/scripts/evaluate_selected_truth_window_transcription.py:234-243 | the scan in tuple order yields a one-to-one matching in which every rejected pair lost to a chosen pair before it |
| GreedyAssignment.StableUnique | backend/scripts/evaluate_selected_truth_window_transcription.py:234-243 | there is exactly one such matching |
| GreedyAssignment.NoBlockingPair | backend/scripts/evaluate_selected_truth_window_transcription.py:234-243 | no rejected pair has both sides free; each lost a side to a closer pair, or to an equally close one earlier in the lists |
| GreedyAssignment.AtLeastHalf | backend/scripts/evaluate_selected_truth_window_transcription.py:234-243 | no matching of the same candidates is more than twice as large |
| TruthWindows.AssignPredictedGroups | backend/scripts/evaluate_selected_truth_window_transcription.py:221-243 | the candidates are exactly the pairs within tolerance and the assignment is their stable matching |
| TruthWindows.ClosestFirstUnique | backend/scripts/evaluate_selected_truth_window_transcription.py:221-243 | that contract determines the assignment |
| TruthWindows.NoBlockingWindow | backend/scripts/evaluate_selected_truth_window_transcription.py:221-243 | a rejected pair within tolerance lost its truth group or its prediction to a pair at least as close |
| TruthWindows.ClosestFirstAtLeastHalf | backend/scripts/evaluate_selected_truth_window_transcription.py:221-243 | no one-to-one assignment within tolerance is more than twice as large |
| TruthWindows.UnassignedPredictions | backend/scripts/evaluate_selected_truth_window_transcription.py:187-218 | a prediction is listed, in order, under its nearest window exactly when it is unassigned and within tolerance of some truth |
| TruthWindows.EvaluateTranscription | backend/scripts/evaluate_selected_truth_window_transcription.py:118-184 | every evaluation hears exactly the pitches of its charged predictions, each once, in order of first appearance; matched and missing split the truth's pitches in order, extra is the rest of what was heard; over all evaluations each prediction with a window is charged exactly once and no other |
| TruthWindows.PredictionsConserved | backend/scripts/evaluate_selected_truth_window_transcription.py:118-218 | the charges of all evaluations repeat no prediction and contain exactly those within tolerance of some truth |
| TruthWindows.LeftoverNeverBeatsAssigned | backend/scripts/evaluate_selected_truth_window_transcription.py:201-243 | a truth group with a leftover has an assigned prediction at least as close |
| AnchorSchedule.ScheduleShape | backend/scripts/evaluate_bytedance_rolling_step_events.py:781-789 | anchors start at zero, advance by at most the cadence, strictly from a microsecond cadence on, and end 0.22 seconds before the end of the audio (or at zero) up to a microsecond |
| AnchorSchedule.ScheduleCovers | backend/scripts/evaluate_bytedance_rolling_step_events.py:781-789 | with windows at least as wide as the cadence every instant of the range lies in some anchor's window, up to a microsecond |
| AnchorSchedule.NegativeCadence | backend/scripts/evaluate_bytedance_rolling_step_events.py:781-789 | a negative cadence leaves the anchor at zero only |
| AnchorSchedule.ClipContents | backend/scripts/evaluate_bytedance_rolling_step_events.py:792-806 | padding and real samples add up to 29120, real samples aligned to the rounded anchor |
| AnchorSchedule.BatchUniform | backend/scripts/evaluate_bytedance_rolling_step_events.py:369-371 | all clips of one recording have one length for every cadence, so the batch check never fires |
| StepEvents.MatchIff | backend/scripts/compare_step_microphone_frontends_causal_cases.py:1214-1233 | MATCH means something was expected and exactly that was observed |
| StepEvents.OtherVerdictsIff | backend/scripts/compare_step_microphone_frontends_causal_cases.py:1214-1233 | when the verdict is PARTIAL, MISMATCH or UNCERTAIN, each as an if and only if |
| StepEvents.ComparisonLists | backend/scripts/compare_step_microphone_frontends_causal_cases.py:1214-1233 | what is matched, missing and extra, each in order of first occurrence |
| StepEvents.MatchFromInference | backend/scripts/evaluate_bytedance_rolling_step_events.py:591-641 | a row matches exactly when every expected pitch has an eligible onset; it takes the earliest of each and consumes 50 ms past the latest |
| StepEvents.FirstMatch | backend/scripts/evaluate_bytedance_rolling_step_events.py:561-588 | the result is the match of the first active row that has one |
| StepEvents.NoOnsetConsumedTwice | backend/scripts/evaluate_bytedance_rolling_step_events.py:453-476 | every event of a second match is more than 50 ms after every event of the first |
| StepEvents.LaterBoundaryDelays | backend/scripts/evaluate_bytedance_rolling_step_events.py:561-612 | raising the boundary keeps or delays the first matching row and never creates a match |
| StepEvents.EvaluateSameNoteRetrigger | backend/scripts/evaluate_bytedance_rolling_step_events.py:434-502 | the first advance comes from the first row decided from 120 ms before the target on, and anchored at most 50 ms after it, in which every expected pitch has an onset between 120 ms before and 50 ms after the target, and is missing exactly when no row has; the second from the first row whose onsets lie more than 50 ms after those of the first; each takes the earliest such onsets; the second is premature, legitimate or late by its distance to the target |
| PeakRegression.ModelNativePitchEvents | backend/scripts/evaluate_bytedance_rolling_step_events.py:700-756 | the events are the accepted frames in order, already sorted by shifted time |
| PeakRegression.EveryPeakListed | backend/scripts/evaluate_bytedance_rolling_step_events.py:715-755 | no accepted frame is missing |
| PeakRegression.AcceptedIff | backend/scripts/evaluate_bytedance_rolling_step_events.py:715-730 | the acceptance test of a frame in terms of its activations, thresholds and times |
| PeakRegression.ShiftedWithinFrame | backend/scripts/evaluate_bytedance_rolling_step_events.py:722-723 | the time of a peak lies within 5 ms of its frame, on the side of the higher neighbour |
| PeakRegression.PeakTimeRecovered | backend/scripts/evaluate_bytedance_rolling_step_events.py:722-723 | and is the time of the peak itself when the peak is triangular and not flatter than 1e-12 |
| PeakRegression.PeaksInOrder | backend/scripts/evaluate_bytedance_rolling_step_events.py:722-756 | a later accepted frame never has an earlier shifted time |
| PeakRegression.ShiftBounded | backend/scripts/evaluate_bytedance_rolling_step_events.py:768-778 | at a peak the shift stays within half a frame and points to the higher neighbour |
| PeakRegression.TriangularPeakRecovered | backend/scripts/evaluate_bytedance_rolling_step_events.py:768-778 | the shift recovers the offset of a triangular peak exactly when its slope is at least 1e-12 or the offset is zero |
| PeakRegression.ClosePeaksArePlateau | backend/scripts/evaluate_bytedance_rolling_step_events.py:759-765 | two peaks fewer than three frames apart lie on a plateau of equal values |
| ShadowRuntime.ShadowRuntimeAttempts | backend/scripts/evaluate_practice_replay.py:405-532 | the loop reports what the state machine does. In its report the advances are the first groups in order, all MATCH; attempts are numbered and targeted properly; each opens at the first audible window of the hop grid after the previous decision, at the time of that window, and is decided at the first window that matches or comes 1200 ms later, or left open by the last audible window; nothing audible is left over unless all groups were passed |
| ShadowRuntime.ReportUnique | backend/scripts/evaluate_practice_replay.py:441-532 | no other report has these properties |
| ShadowRuntime.RunReported | backend/scripts/evaluate_practice_replay.py:441-532 | over every recording, observer and evaluator the run has these properties and the final flush has a current group |
| ShadowRuntime.MillisecondsNearest | backend/scripts/evaluate_practice_replay.py:444-447 | times are the nearest milliseconds of their samples |
| ShadowRuntime.WindowAndHop | backend/scripts/evaluate_practice_replay.py:424-426 | windows of half a second every tenth of a second, to the nearest sample |
| ShadowRuntime.ProgressionByFirstMatches | backend/scripts/evaluate_practice_replay.py:441-513 | over every recording, how far and when the score advances is given by the first matching windows alone, whatever opens, times out or is flushed in between |
| ShadowRuntime.StepInvariant | backend/scripts/evaluate_practice_replay.py:441-513 | every audible window keeps the invariant: match, timeout after at least 1200 ms, or an attempt left open that is not yet due |
| ShadowRuntime.SummaryOfRun | backend/scripts/evaluate_practice_replay.py:273-289 | no advance counts as a false match, and each passed group has one non-negative latency |
| ShadowRuntime.FalseMatchesCounted | backend/scripts/evaluate_practice_replay.py:284-289 | the false match count is the number of advances whose evaluation is not MATCH, for any list of attempts |
| ShadowRuntime.LatencyOfAdvance | backend/scripts/evaluate_practice_replay.py:273-280 | the latency of a passed group is the time its attempt was open |
| ShadowRuntime.CompletedIff | backend/scripts/evaluate_practice_replay.py:481-506 | an attempt is reported as completing the scope exactly when all groups were passed and it is the last report |
| ShadowRuntime.ScopeHonouredIff | backend/scripts/evaluate_practice_replay.py:656-676 | the scope begins and ends as requested exactly when both ids occur in that order |
| ShadowRuntime.ScopeContiguous | backend/scripts/evaluate_practice_replay.py:656-676 | every scope is a contiguous part of the score |
| ShadowRuntime.OneEndHonouredIff | backend/scripts/evaluate_practice_replay.py:656-676 | a single requested end is honoured exactly when its id occurs, and the other end stays that of the score |
| ShadowRuntime.UnknownIdWidens | backend/scripts/evaluate_practice_replay.py:656-676 | an id that does not occur leaves the scope as wide as without that end |
| RangeReader.HttpRangeReader.Seek | backend/scripts/download_maestro_pair.py:52-64 | seeking moves like the in-memory file and rejects what it rejects |
| RangeReader.HttpRangeReader.Read | backend/scripts/download_maestro_pair.py:66-89 | reading returns the file's bytes; the cache stays a true slice; a request is made exactly when the cache lacks them, in bounds and at most max(size, block) long; a bad status changes nothing but the log |
| RangeReader.RunOperations | backend/scripts/download_maestro_pair.py:27-89 | any sequence of seeks and reads answers like the in-memory file, for every block size |
| RangeReader.ReadsAddUp | backend/scripts/download_maestro_pair.py:66-89 | consecutive reads join to one read of the total size |

## Left out

- OracleGate.SampleGate: models a positive chunk size; `range` raises for zero and yields nothing for a negative one. The choice of targets when a case lists too few, hashes and latencies are not modelled.
- StrikeDetector.CausalPcmStrikeDetector.Ingest: models a positive hop and frame size; a hop of zero never terminates and an empty frame has no RMS.
- StrikeCausality.RunDetector: models every chunk specification but a zero size, for which `range` raises before the first chunk.
- AnchorSchedule.BatchUniform: holds for every cadence but zero, by which the schedule divides; negative cadences are covered.
- TempoMap.TicksToSeconds: requires a positive division; `MidiFile.ParseMidiNoteOns` models the division by zero as an error.
- StrikeMatching.MatchCandidates: anchor errors and emit delays in milliseconds are report fields and are not modelled.
- RankStatistic.Auroc: the final rounding to eight decimals is not modelled.
- StepEvents.MatchFromInference: onset times per pitch are an arbitrary function, which covers both event rules; detection delays and scores are report fields.
- ShadowRuntime.ShadowRuntimeAttempts: observations appear only through the evaluation; confidences, activations and display contexts are not modelled.
- RangeReader.HttpRangeReader.Fetch: assumes a server that returns exactly the requested range.
- TruthWindows.EvaluateTranscription: the rounded times and onset errors of the report are not modelled.
- The no-retrigger and target-local evaluations of the rolling replay: they call the same first-match search with other bounds.
- Floating-point error of NumPy and of Python floats, beyond the explicit roundings.
- Neural inference, spectra, percentiles and the other signal processing behind the parameters.
- MIDI files with SMPTE division are rejected as in the parser; a writer for them is not modelled.
- File formats, JSON, hashing, argument parsing, report building, and the services, front ends and deployment of the repository.
