/** The causal shadow runtime: practice attempts open on audible windows, and the score
    position advances only on a MATCH; other attempts time out or are flushed at the end. */
module ShadowRuntime {
  import opened Products
  import opened Wrappers
  import opened Rounding

  datatype Group = Group(id: string, onsetBeat: real)

  datatype Evaluation = Evaluation(result: string, matched: seq<string>, missing: seq<string>, extra: seq<string>)

  /** A recording with everything outside the loop left arbitrary: which windows are audible
      and what observer and evaluator say about a window. Each window is looked at once at
      most, so functions of its first sample cover every behaviour, stateful or not. */
  datatype Recording = Recording(size: nat, sampleRate: int, active: nat -> bool, evaluate: (nat, Group) -> Evaluation)

  const WINDOW_SECONDS := 0.5
  const HOP_SECONDS := 0.1
  const MAX_ATTEMPT_MS := 1200

  function AtLeastOne(n: int): (r: nat)
    ensures r >= 1
  {
    if n < 1 then 1 else n
  }

  function WindowSamples(r: Recording): (w: nat)
    ensures w >= 1
  {
    AtLeastOne(Round(WINDOW_SECONDS * r.sampleRate as real))
  }

  function HopSamples(r: Recording): (h: nat)
    ensures h >= 1
  {
    AtLeastOne(Round(HOP_SECONDS * r.sampleRate as real))
  }

  function EndStart(r: Recording): nat { if r.size < WindowSamples(r) then 0 else r.size - WindowSamples(r) }

  function Milliseconds(r: Recording, sample: nat): int
    requires r.sampleRate > 0
  {
    Round((sample * 1000) as real / r.sampleRate as real)
  }

  lemma MillisecondsMonotone(r: Recording, a: nat, b: nat)
    requires r.sampleRate > 0 && a <= b
    ensures Milliseconds(r, a) <= Milliseconds(r, b)
  {
    QuotientMonotone((a * 1000) as real, (b * 1000) as real, r.sampleRate as real);
    RoundMonotone((a * 1000) as real / r.sampleRate as real, (b * 1000) as real / r.sampleRate as real);
  }

  lemma QuotientMonotone(a: real, b: real, c: real)
    requires a <= b && c > 0.0
    ensures a / c <= b / c
  {
  }

  /** Half a second of samples in a window and a tenth of a second between windows, to the nearest
      sample, ties to the even one, and at least one. */
  lemma WindowAndHop(r: Recording)
    ensures if r.sampleRate >= 2 then Nearest(r.sampleRate as real / 2.0, WindowSamples(r)) else WindowSamples(r) == 1
    ensures if r.sampleRate >= 6 then Nearest(r.sampleRate as real / 10.0, HopSamples(r)) else HopSamples(r) == 1
  {
    assert WINDOW_SECONDS * r.sampleRate as real == r.sampleRate as real / 2.0;
    assert HOP_SECONDS * r.sampleRate as real == r.sampleRate as real / 10.0;
  }

  /** A time is the nearest whole number of milliseconds, ties to the even one. */
  lemma MillisecondsNearest(r: Recording, sample: nat)
    requires r.sampleRate > 0
    ensures Nearest(sample as real * 1000.0 / r.sampleRate as real, Milliseconds(r, sample))
  {
    assert (sample * 1000) as real == sample as real * 1000.0;
  }

  // ---- the windows the loop looks at

  /** A window that starts a whole number of hops into the recording and fits into it
      (the first window is looked at even if it does not fit). */
  ghost predicate OnGrid(r: Recording, u: nat) {
    u % HopSamples(r) == 0 && (u == 0 || u + WindowSamples(r) <= r.size)
  }

  ghost predicate Audible(r: Recording, u: nat) { OnGrid(r, u) && r.active(u) }

  /** No audible window starts strictly between `a` and `b`. */
  ghost predicate SilentBetween(r: Recording, a: int, b: int) {
    forall u: nat {:trigger Audible(r, u)} :: a < u < b ==> !Audible(r, u)
  }

  lemma GridStart(r: Recording)
    ensures OnGrid(r, 0)
  {
  }

  /** Hop by hop the loop meets every window of the grid and no other. */
  lemma GridNext(r: Recording, u: nat)
    requires OnGrid(r, u)
    ensures u + HopSamples(r) <= EndStart(r) ==> OnGrid(r, u + HopSamples(r))
    ensures forall v: nat :: u < v < u + HopSamples(r) ==> !OnGrid(r, v)
    ensures forall v: nat :: OnGrid(r, v) ==> v <= EndStart(r)
  {
    hide WindowSamples, HopSamples;
    var h := HopSamples(r);
    NextMultiple(u, h);
    forall v: nat | u < v < u + h ensures !OnGrid(r, v) {
      NoMultipleBetween(u, v, h);
    }
  }

  lemma SilentExtends(r: Recording, a: int, u: nat)
    requires OnGrid(r, u) && SilentBetween(r, a, u) && (r.active(u) ==> a == u)
    ensures SilentBetween(r, a, u + HopSamples(r))
  {
    hide OnGrid, HopSamples;
    GridNext(r, u);
  }

  datatype Action = Advance | Wait

  datatype Reason = StableMatch | CandidateAttemptTimeout | CandidateStreamEnd

  datatype Attempt = Attempt(
    updateIndex: nat, group: Group, displayGroup: Group,
    sequence: nat, startedAtMs: int, resolvedAtMs: int,
    evaluation: Evaluation, action: Action, reason: Reason, scopeCompleted: bool)

  datatype State = State(
    attempts: seq<Attempt>, groupIndex: nat, sequence: nat,
    startedAtMs: Option<int>, lastEvaluation: Option<Evaluation>)

  const IDLE := State([], 0, 0, None, None)

  /** One audible window on the current group. */
  function Step(r: Recording, groups: seq<Group>, s: State, start: nat): State
    requires r.sampleRate > 0 && s.groupIndex < |groups|
  {
    if !r.active(start) then s
    else
      var nowMs := Milliseconds(r, start + WindowSamples(r));
      var group := groups[s.groupIndex];
      var sequence := if s.startedAtMs.None? then s.sequence + 1 else s.sequence;
      var startedAtMs := if s.startedAtMs.None? then Milliseconds(r, start) else s.startedAtMs.value;
      var evaluation := r.evaluate(start, group);
      if evaluation.result == "MATCH" then
        var next := if s.groupIndex + 1 < |groups| then groups[s.groupIndex + 1] else group;
        State(s.attempts + [Attempt(|s.attempts|, group, next, sequence, startedAtMs, nowMs, evaluation,
                                    Advance, StableMatch, s.groupIndex + 1 >= |groups|)],
              s.groupIndex + 1, sequence, None, None)
      else if nowMs - startedAtMs >= MAX_ATTEMPT_MS then
        State(s.attempts + [Attempt(|s.attempts|, group, group, sequence, startedAtMs, nowMs, evaluation,
                                    Wait, CandidateAttemptTimeout, false)],
              s.groupIndex, sequence, None, Some(evaluation))
      else
        State(s.attempts, s.groupIndex, sequence, Some(startedAtMs), Some(evaluation))
  }

  /** All windows from `start` on. */
  function Run(r: Recording, groups: seq<Group>, s: State, start: nat): State
    requires r.sampleRate > 0
    decreases EndStart(r) - start
  {
    if start > EndStart(r) || s.groupIndex >= |groups| then s
    else Run(r, groups, Step(r, groups, s, start), start + HopSamples(r))
  }

  /** The stream has ended: an attempt still open is reported with its last evaluation. */
  function Flush(r: Recording, groups: seq<Group>, s: State): seq<Attempt>
    requires r.sampleRate > 0
    requires s.startedAtMs.Some? && s.lastEvaluation.Some? ==> s.groupIndex < |groups|
  {
    if s.startedAtMs.Some? && s.lastEvaluation.Some? then
      var group := groups[s.groupIndex];
      s.attempts + [Attempt(|s.attempts|, group, group, s.sequence, s.startedAtMs.value, Milliseconds(r, r.size),
                            s.lastEvaluation.value, Wait, CandidateStreamEnd, false)]
    else s.attempts
  }

  // ---- what every reachable state satisfies

  function Advances(attempts: seq<Attempt>): seq<Group> {
    if attempts == [] then []
    else Advances(attempts[..|attempts| - 1]) +
         if attempts[|attempts| - 1].action == Advance then [attempts[|attempts| - 1].group] else []
  }

  /** From the window at `a` up to the one before `b` no audible window matches `group` or makes
      an attempt opened at `openedMs` due after 1200 ms. */
  ghost predicate Undecided(r: Recording, group: Group, openedMs: int, a: nat, b: nat)
    requires r.sampleRate > 0
  {
    forall u: nat {:trigger Audible(r, u)} :: a <= u < b && Audible(r, u) ==>
      r.evaluate(u, group).result != "MATCH" && Milliseconds(r, u + WindowSamples(r)) - openedMs < 1200
  }

  /** An attempt on `group` opens at `o`, the first audible window after `previous`. */
  ghost predicate OpensAt(r: Recording, previous: int, o: nat, openedMs: int)
    requires r.sampleRate > 0
  {
    previous < o && Audible(r, o) && SilentBetween(r, previous, o) && openedMs == Milliseconds(r, o)
  }

  /** Attempt `a` opened at the first audible window `o` after `previous` and was decided at `v`, the
      first window from `o` on that matches or makes it due; or it was left open, `v` being the last
      audible window of the recording. */
  ghost predicate SpanOf(r: Recording, a: Attempt, previous: int, o: nat, v: nat)
    requires r.sampleRate > 0
  {
    && OpensAt(r, previous, o, a.startedAtMs)
    && o <= v && Audible(r, v) && a.evaluation == r.evaluate(v, a.group)
    && Undecided(r, a.group, a.startedAtMs, o, v)
    && (a.reason == CandidateStreamEnd ==>
          && Undecided(r, a.group, a.startedAtMs, v, v + 1) && SilentBetween(r, v, r.size + 1)
          && a.resolvedAtMs == Milliseconds(r, r.size))
    && (a.reason != CandidateStreamEnd ==> a.resolvedAtMs == Milliseconds(r, v + WindowSamples(r)))
    && (a.reason == CandidateAttemptTimeout ==> a.resolvedAtMs - a.startedAtMs >= 1200)
  }

  /** The opening and the deciding window of one attempt. */
  type Span = (nat, nat)

  function LastDecided(spans: seq<Span>): int { if spans == [] then -1 else spans[|spans| - 1].1 }

  /** Every attempt has its span, each beginning after the one before it was decided. */
  ghost predicate Timeline(r: Recording, attempts: seq<Attempt>, spans: seq<Span>)
    requires r.sampleRate > 0
  {
    && |spans| == |attempts|
    && (forall i :: 0 <= i < |attempts| ==>
          SpanOf(r, attempts[i], LastDecided(spans[..i]), spans[i].0, spans[i].1))
  }

  /** Nothing was left out: unless all groups were passed, no audible window follows the last decision. */
  ghost predicate Exhausted(r: Recording, groups: seq<Group>, spans: seq<Span>, passed: nat) {
    passed < |groups| ==> SilentBetween(r, LastDecided(spans), r.size + 1)
  }

  ghost predicate TimedRun(r: Recording, groups: seq<Group>, attempts: seq<Attempt>, passed: nat)
    requires r.sampleRate > 0
  {
    exists spans :: Timeline(r, attempts, spans) && Exhausted(r, groups, spans, passed)
  }

  lemma TimelineAppend(r: Recording, attempts: seq<Attempt>, spans: seq<Span>, a: Attempt, o: nat, v: nat)
    requires r.sampleRate > 0 && Timeline(r, attempts, spans)
    requires SpanOf(r, a, LastDecided(spans), o, v)
    ensures Timeline(r, attempts + [a], spans + [(o, v)])
    ensures LastDecided(spans + [(o, v)]) == v
  {
    hide SpanOf;
    var all, allSpans := attempts + [a], spans + [(o, v)];
    forall i | 0 <= i < |all|
      ensures SpanOf(r, all[i], LastDecided(allSpans[..i]), allSpans[i].0, allSpans[i].1)
    {
      assert allSpans[..i] == spans[..i];
      if i == |attempts| { assert spans[..i] == spans; }
    }
  }

  /** Where the run stands before the window at `start`: the spans of its reports, and for an
      open attempt (`open`) its opening window and the last audible window since. */
  ghost predicate Trailing(r: Recording, groups: seq<Group>, s: State, spans: seq<Span>, open: Span, start: nat)
    requires r.sampleRate > 0
  {
    && Timeline(r, s.attempts, spans) && LastDecided(spans) < start
    && (s.startedAtMs.None? ==> SilentBetween(r, LastDecided(spans), start))
    && (s.startedAtMs.Some? ==>
          && s.groupIndex < |groups| && s.lastEvaluation.Some?
          && OpensAt(r, LastDecided(spans), open.0, s.startedAtMs.value)
          && open.0 <= open.1 < start && Audible(r, open.1) && SilentBetween(r, open.1, start)
          && s.lastEvaluation.value == r.evaluate(open.1, groups[s.groupIndex])
          && Undecided(r, groups[s.groupIndex], s.startedAtMs.value, open.0, start))
  }

  lemma UndecidedExtends(r: Recording, group: Group, openedMs: int, a: nat, u: nat)
    requires r.sampleRate > 0 && OnGrid(r, u) && Undecided(r, group, openedMs, a, u)
    requires Audible(r, u) ==>
      r.evaluate(u, group).result != "MATCH" && Milliseconds(r, u + WindowSamples(r)) - openedMs < 1200
    ensures Undecided(r, group, openedMs, a, u + HopSamples(r))
  {
    hide OnGrid, HopSamples, WindowSamples, Milliseconds;
    GridNext(r, u);
  }

  lemma SilentNextHop(r: Recording, u: nat)
    requires OnGrid(r, u)
    ensures SilentBetween(r, u, u + HopSamples(r))
  {
    hide OnGrid, HopSamples;
    GridNext(r, u);
  }

  /** A window that is not audible leaves the run where it stands. */
  lemma QuietWindow(r: Recording, groups: seq<Group>, s: State, spans: seq<Span>, open: Span, start: nat)
    requires r.sampleRate > 0 && Trailing(r, groups, s, spans, open, start) && OnGrid(r, start) && !r.active(start)
    ensures Trailing(r, groups, s, spans, open, start + HopSamples(r))
  {
    hide OnGrid, HopSamples, WindowSamples, Milliseconds, SilentBetween, Undecided, OpensAt, Timeline;
    if s.startedAtMs.None? {
      SilentExtends(r, LastDecided(spans), start);
    } else {
      SilentExtends(r, open.1, start);
      UndecidedExtends(r, groups[s.groupIndex], s.startedAtMs.value, open.0, start);
    }
  }

  /** What one window does to the spans. */
  lemma StepTrails(r: Recording, groups: seq<Group>, s: State, spans: seq<Span>, open: Span, start: nat)
      returns (spans': seq<Span>, open': Span)
    requires r.sampleRate > 0 && s.groupIndex < |groups|
    requires Trailing(r, groups, s, spans, open, start) && OnGrid(r, start)
    ensures Trailing(r, groups, Step(r, groups, s, start), spans', open', start + HopSamples(r))
  {
    hide OnGrid, HopSamples, WindowSamples, Milliseconds, SilentBetween, Undecided, Timeline;
    spans', open' := spans, open;
    if !r.active(start) {
      QuietWindow(r, groups, s, spans, open, start);
    } else {
      var s' := Step(r, groups, s, start);
      var o := if s.startedAtMs.None? then start else open.0;
      var openedMs := if s.startedAtMs.None? then Milliseconds(r, start) else s.startedAtMs.value;
      UndecidedNowhere(r, groups[s.groupIndex], openedMs, start);
      SilentNextHop(r, start);
      if |s'.attempts| > |s.attempts| {
        var a := s'.attempts[|s.attempts|];
        assert s'.attempts == s.attempts + [a];
        TimelineAppend(r, s.attempts, spans, a, o, start);
        spans' := spans + [(o, start)];
      } else {
        open' := (o, start);
        UndecidedExtends(r, groups[s.groupIndex], openedMs, o, start);
      }
    }
  }

  lemma UndecidedNowhere(r: Recording, group: Group, openedMs: int, a: nat)
    requires r.sampleRate > 0
    ensures Undecided(r, group, openedMs, a, a)
  {
  }

  lemma {:induction false} RunTrails(r: Recording, groups: seq<Group>, s: State,
      spans: seq<Span>, open: Span, start: nat)
      returns (spans': seq<Span>, open': Span, end: nat)
    requires r.sampleRate > 0 && Trailing(r, groups, s, spans, open, start)
    requires start <= EndStart(r) ==> OnGrid(r, start)
    ensures Trailing(r, groups, Run(r, groups, s, start), spans', open', end)
    ensures end > EndStart(r) || Run(r, groups, s, start).groupIndex >= |groups|
    decreases EndStart(r) - start
  {
    hide Trailing, Step, EndStart, OnGrid;
    if start > EndStart(r) || s.groupIndex >= |groups| {
      spans', open', end := spans, open, start;
    } else {
      spans', open' := StepTrails(r, groups, s, spans, open, start);
      GridNext(r, start);
      spans', open', end := RunTrails(r, groups, Step(r, groups, s, start), spans', open', start + HopSamples(r));
    }
  }

  lemma SilentToTheEnd(r: Recording, a: int, end: nat)
    requires SilentBetween(r, a, end) && end > EndStart(r)
    ensures SilentBetween(r, a, r.size + 1)
  {
    hide HopSamples;
    GridStart(r);
    GridNext(r, 0);
  }

  lemma {:induction false} RunTimed(r: Recording, groups: seq<Group>)
    requires r.sampleRate > 0
    ensures var s := Run(r, groups, IDLE, 0);
      (s.startedAtMs.Some? && s.lastEvaluation.Some? ==> s.groupIndex < |groups|)
      && TimedRun(r, groups, Flush(r, groups, s), s.groupIndex)
  {
    hide Run, OnGrid, WindowSamples, HopSamples, Milliseconds, SilentBetween, Undecided, Timeline, EndStart;
    GridStart(r);
    NothingTrailing(r, groups);
    var spans, open, end := RunTrails(r, groups, IDLE, [], (0, 0), 0);
    var s := Run(r, groups, IDLE, 0);
    var all := Flush(r, groups, s);
    if s.startedAtMs.Some? {
      SilentToTheEnd(r, open.1, end);
      UndecidedPart(r, groups[s.groupIndex], s.startedAtMs.value, open.0, open.1, end);
      TimelineAppend(r, s.attempts, spans, all[|s.attempts|], open.0, open.1);
      assert Timeline(r, all, spans + [open]) && Exhausted(r, groups, spans + [open], s.groupIndex);
    } else {
      if s.groupIndex < |groups| { SilentToTheEnd(r, LastDecided(spans), end); }
      assert Timeline(r, all, spans) && Exhausted(r, groups, spans, s.groupIndex);
    }
  }

  lemma UndecidedPart(r: Recording, group: Group, openedMs: int, a: nat, v: nat, b: nat)
    requires r.sampleRate > 0 && Undecided(r, group, openedMs, a, b) && a <= v < b
    ensures Undecided(r, group, openedMs, a, v) && Undecided(r, group, openedMs, v, v + 1)
  {
    hide Audible, WindowSamples, Milliseconds;
  }

  lemma NothingTrailing(r: Recording, groups: seq<Group>)
    requires r.sampleRate > 0
    ensures Trailing(r, groups, IDLE, [], (0, 0), 0)
  {
  }

  /** Attempt `a`, reported after `done` groups were passed, is numbered, timed and judged as it should be. */
  ghost predicate Proper(a: Attempt, i: nat, done: nat, groups: seq<Group>) {
    && a.updateIndex == i && a.sequence == i + 1
    && done < |groups| && a.group == groups[done]
    && a.displayGroup == groups[if a.action == Advance && done + 1 < |groups| then done + 1 else done]
    && (a.action == Advance <==> a.evaluation.result == "MATCH")
    && (a.action == Advance <==> a.reason == StableMatch)
    && (a.scopeCompleted <==> a.action == Advance && done + 1 == |groups|)
    && a.startedAtMs <= a.resolvedAtMs
    && (a.reason == CandidateAttemptTimeout ==> a.resolvedAtMs - a.startedAtMs >= 1200)
  }

  ghost predicate AllProper(attempts: seq<Attempt>, groups: seq<Group>) {
    forall i :: 0 <= i < |attempts| ==> Proper(attempts[i], i, |Advances(attempts[..i])|, groups)
  }

  ghost predicate InTimeOrder(attempts: seq<Attempt>) {
    forall i :: 0 < i < |attempts| ==> attempts[i - 1].resolvedAtMs <= attempts[i].resolvedAtMs
  }

  /** The state after all windows starting at or before `upTo`. */
  ghost predicate Invariant(r: Recording, groups: seq<Group>, s: State, upTo: nat)
    requires r.sampleRate > 0
  {
    && s.groupIndex <= |groups|
    && Advances(s.attempts) == groups[..s.groupIndex]
    && AllProper(s.attempts, groups)
    && s.sequence == |s.attempts| + (if s.startedAtMs.Some? then 1 else 0)
    && (s.startedAtMs.Some? ==>
          && s.groupIndex < |groups| && s.startedAtMs.value <= Milliseconds(r, upTo)
          && s.lastEvaluation.Some? && s.lastEvaluation.value.result != "MATCH"
          && (s.attempts != [] ==> upTo > 0))
    && InTimeOrder(s.attempts)
    && (s.attempts != [] ==> s.attempts[|s.attempts| - 1].resolvedAtMs <= Milliseconds(r, upTo + WindowSamples(r)))
  }

  lemma AdvancesAppend(attempts: seq<Attempt>, a: Attempt)
    ensures Advances(attempts + [a]) == Advances(attempts) + if a.action == Advance then [a.group] else []
  {
    assert (attempts + [a])[..|attempts|] == attempts;
  }

  lemma InTimeOrderAppend(attempts: seq<Attempt>, a: Attempt)
    requires InTimeOrder(attempts)
    requires attempts != [] ==> attempts[|attempts| - 1].resolvedAtMs <= a.resolvedAtMs
    ensures InTimeOrder(attempts + [a])
  {
  }

  lemma ReportOne(attempts: seq<Attempt>, groups: seq<Group>, a: Attempt)
    requires AllProper(attempts, groups) && InTimeOrder(attempts)
    requires Proper(a, |attempts|, |Advances(attempts)|, groups)
    requires attempts != [] ==> attempts[|attempts| - 1].resolvedAtMs <= a.resolvedAtMs
    ensures AllProper(attempts + [a], groups) && InTimeOrder(attempts + [a])
    ensures Advances(attempts + [a]) == Advances(attempts) + if a.action == Advance then [a.group] else []
  {
    hide Proper, Advances, InTimeOrder;
    var all := attempts + [a];
    assert all[..|attempts|] == attempts;
    AdvancesAppend(attempts, a);
    InTimeOrderAppend(attempts, a);
    forall i | 0 <= i < |all| ensures Proper(all[i], i, |Advances(all[..i])|, groups) {
      if i < |attempts| {
        assert all[..i] == attempts[..i];
        assert Proper(attempts[i], i, |Advances(attempts[..i])|, groups);
      }
    }
  }

  /** What a window reports is numbered, timed and judged properly. */
  lemma StepProper(r: Recording, groups: seq<Group>, s: State, start: nat)
    requires r.sampleRate > 0 && s.groupIndex < |groups| && r.active(start)
    requires s.sequence == |s.attempts| + (if s.startedAtMs.Some? then 1 else 0)
    requires s.startedAtMs.Some? ==> s.startedAtMs.value <= Milliseconds(r, start + WindowSamples(r))
    ensures var attempts := Step(r, groups, s, start).attempts;
      |attempts| > |s.attempts| ==>
        attempts == s.attempts + [attempts[|s.attempts|]]
        && Proper(attempts[|s.attempts|], |s.attempts|, s.groupIndex, groups)
  {
    hide Milliseconds, WindowSamples;
    MillisecondsMonotone(r, start, start + WindowSamples(r));
  }

  lemma StepInvariant(r: Recording, groups: seq<Group>, s: State, upTo: nat, start: nat)
    requires r.sampleRate > 0 && Invariant(r, groups, s, upTo) && s.groupIndex < |groups|
    requires upTo < start || (start == 0 && s == IDLE)
    ensures Invariant(r, groups, Step(r, groups, s, start), start)
  {
    hide Milliseconds, WindowSamples, Proper, AllProper, InTimeOrder, Advances;
    var window := WindowSamples(r);
    if upTo <= start {
      MillisecondsMonotone(r, upTo, start);
      MillisecondsMonotone(r, upTo + window, start + window);
    }
    MillisecondsMonotone(r, start, start + window);
    NothingReported(groups);
    var s' := Step(r, groups, s, start);
    if |s'.attempts| > |s.attempts| {
      StepProper(r, groups, s, start);
      ReportOne(s.attempts, groups, s'.attempts[|s.attempts|]);
      assert groups[..s.groupIndex + 1] == groups[..s.groupIndex] + [groups[s.groupIndex]];
    }
  }

  lemma NothingReported(groups: seq<Group>)
    ensures AllProper([], groups) && InTimeOrder([]) && Advances([]) == []
  {
  }

  lemma {:induction false} RunInvariant(r: Recording, groups: seq<Group>, s: State, upTo: nat, start: nat)
      returns (last: nat)
    requires r.sampleRate > 0 && Invariant(r, groups, s, upTo)
    requires upTo < start || (start == 0 && s == IDLE)
    requires upTo <= EndStart(r)
    ensures last <= EndStart(r) && Invariant(r, groups, Run(r, groups, s, start), last)
    decreases EndStart(r) - start
  {
    hide Invariant, Step, EndStart;
    if start > EndStart(r) || s.groupIndex >= |groups| {
      last := upTo;
    } else {
      StepInvariant(r, groups, s, upTo, start);
      last := RunInvariant(r, groups, Step(r, groups, s, start), start, start + HopSamples(r));
    }
  }

  lemma IdleInvariant(r: Recording, groups: seq<Group>)
    requires r.sampleRate > 0
    ensures Invariant(r, groups, IDLE, 0)
  {
    NothingReported(groups);
  }

  /** The flush never indexes past the groups, and reports an attempt like any other. */
  lemma FlushSafe(r: Recording, groups: seq<Group>, s: State, last: nat)
    requires r.sampleRate > 0 && Invariant(r, groups, s, last) && last <= EndStart(r)
    ensures s.startedAtMs.Some? && s.lastEvaluation.Some? ==> s.groupIndex < |groups|
    ensures var all := Flush(r, groups, s);
      AllProper(all, groups) && InTimeOrder(all) && Advances(all) == groups[..s.groupIndex]
  {
    hide Milliseconds, WindowSamples, AllProper, InTimeOrder, Advances;
    if s.startedAtMs.Some? {
      MillisecondsMonotone(r, last, r.size);
      if s.attempts != [] {
        MillisecondsMonotone(r, last + WindowSamples(r), r.size);
      }
      var all := Flush(r, groups, s);
      ReportOne(s.attempts, groups, all[|s.attempts|]);
    }
  }

  /** The whole run, for every recording and every behaviour of observer and evaluator. */
  ghost predicate RunReport(r: Recording, groups: seq<Group>, attempts: seq<Attempt>, passed: nat) {
    && passed <= |groups|
    && Advances(attempts) == groups[..passed]
    && AllProper(attempts, groups) && InTimeOrder(attempts)
    && (r.sampleRate > 0 ==> TimedRun(r, groups, attempts, passed))
  }

  lemma RunReported(r: Recording, groups: seq<Group>)
    requires r.sampleRate > 0
    ensures var s := Run(r, groups, IDLE, 0);
      && (s.startedAtMs.Some? && s.lastEvaluation.Some? ==> s.groupIndex < |groups|)
      && RunReport(r, groups, Flush(r, groups, s), s.groupIndex)
  {
    hide Run, AllProper, InTimeOrder, Advances, TimedRun;
    RunTimed(r, groups);
    IdleInvariant(r, groups);
    var last := RunInvariant(r, groups, IDLE, 0, 0);
    var s := Run(r, groups, IDLE, 0);
    FlushSafe(r, groups, s, last);
  }

  lemma RunUnfolds(r: Recording, groups: seq<Group>, s: State, start: nat)
    requires r.sampleRate > 0
    ensures Run(r, groups, s, start) ==
            if start > EndStart(r) || s.groupIndex >= |groups| then s
            else Run(r, groups, Step(r, groups, s, start), start + HopSamples(r))
  {
  }

  lemma NothingToReport(r: Recording, groups: seq<Group>)
    requires groups == [] || r.sampleRate <= 0
    ensures RunReport(r, groups, [], 0)
  {
    NothingReported(groups);
    if r.sampleRate > 0 {
      assert Timeline(r, [], []) && Exhausted(r, groups, [], 0);
    }
  }

  /** `target_conditioned_shadow_runtime_attempts`. */
  method ShadowRuntimeAttempts(r: Recording, groups: seq<Group>) returns (attempts: seq<Attempt>, ghost passed: nat)
    ensures groups == [] || r.sampleRate <= 0 ==> attempts == []
    ensures r.sampleRate > 0 ==>
      && (var s := Run(r, groups, IDLE, 0); s.startedAtMs.Some? && s.lastEvaluation.Some? ==> s.groupIndex < |groups|)
      && attempts == Flush(r, groups, Run(r, groups, IDLE, 0))
    ensures RunReport(r, groups, attempts, passed)
  {
    hide Milliseconds, WindowSamples, HopSamples, AllProper, InTimeOrder, Advances, RunReport, Run;
    attempts, passed := [], 0;
    if groups == [] || r.sampleRate <= 0 {
      NothingToReport(r, groups);
      if r.sampleRate > 0 { RunUnfolds(r, groups, IDLE, 0); }
      return;
    }
    var windowSamples, hopSamples := WindowSamples(r), HopSamples(r);
    var groupIndex, sequence: nat := 0, 0;
    var startedAtMs: Option<int>, lastEvaluation: Option<Evaluation> := None, None;
    var endStart: int, next: int := EndStart(r), 0;
    RunReported(r, groups);
    while next <= endStart
      invariant 0 <= next
      invariant Run(r, groups, IDLE, 0)
          == Run(r, groups, State(attempts, groupIndex, sequence, startedAtMs, lastEvaluation), next)
      decreases endStart - next
    {
      ghost var before := State(attempts, groupIndex, sequence, startedAtMs, lastEvaluation);
      RunUnfolds(r, groups, before, next);
      if groupIndex >= |groups| {
        break;
      }
      var start: nat := next;
      next := next + hopSamples;
      if !r.active(start) {
        continue;
      }
      var nowMs := Milliseconds(r, start + windowSamples);
      var expectedGroup := groups[groupIndex];
      if startedAtMs.None? {
        sequence := sequence + 1;
        startedAtMs := Some(Milliseconds(r, start));
      }
      var evaluation := r.evaluate(start, expectedGroup);
      lastEvaluation := Some(evaluation);
      if evaluation.result == "MATCH" {
        var nextGroup := if groupIndex + 1 < |groups| then groups[groupIndex + 1] else expectedGroup;
        attempts := attempts + [Attempt(|attempts|, expectedGroup, nextGroup, sequence, startedAtMs.value, nowMs,
                                        evaluation, Advance, StableMatch, groupIndex + 1 >= |groups|)];
        groupIndex := groupIndex + 1;
        startedAtMs := None;
        lastEvaluation := None;
      } else if nowMs - startedAtMs.value >= MAX_ATTEMPT_MS {
        attempts := attempts + [Attempt(|attempts|, expectedGroup, expectedGroup, sequence, startedAtMs.value, nowMs,
                                        evaluation, Wait, CandidateAttemptTimeout, false)];
        startedAtMs := None;
      }
      assert State(attempts, groupIndex, sequence, startedAtMs, lastEvaluation) == Step(r, groups, before, start);
    }
    RunUnfolds(r, groups, State(attempts, groupIndex, sequence, startedAtMs, lastEvaluation), next);
    passed := groupIndex;
    if startedAtMs.Some? && lastEvaluation.Some? {
      var expectedGroup := groups[groupIndex];
      attempts := attempts + [Attempt(|attempts|, expectedGroup, expectedGroup, sequence, startedAtMs.value,
                                      Milliseconds(r, r.size), lastEvaluation.value, Wait, CandidateStreamEnd, false)];
    }
  }

  // ---- there is only one such report

  lemma ScopeOpenAt(attempts: seq<Attempt>, groups: seq<Group>, i: nat)
    requires AllProper(attempts, groups) && i < |attempts|
    ensures |Advances(attempts[..i])| < |groups|
  {
    assert Proper(attempts[i], i, |Advances(attempts[..i])|, groups);
  }

  lemma AudibleFits(r: Recording, u: nat)
    requires Audible(r, u)
    ensures u < r.size + 1
  {
  }

  /** One of two spans cannot be decided earlier than the other. */
  lemma NotDecidedEarlier(r: Recording, a: Attempt, b: Attempt, previous: int, o: nat, v: nat, w: nat)
    requires r.sampleRate > 0 && a.group == b.group
    requires SpanOf(r, a, previous, o, v) && SpanOf(r, b, previous, o, w)
    requires a.evaluation.result != "MATCH" <==> a.reason != StableMatch
    ensures v >= w
  {
    hide WindowSamples, Milliseconds, HopSamples;
    AudibleFits(r, w);
  }

  /** What a span leaves open is fixed by the verdict on its last window. */
  lemma SameSpan(r: Recording, groups: seq<Group>, a: Attempt, b: Attempt, i: nat, done: nat,
      previous: int, s: Span, t: Span)
    requires r.sampleRate > 0 && Proper(a, i, done, groups) && Proper(b, i, done, groups)
    requires SpanOf(r, a, previous, s.0, s.1) && SpanOf(r, b, previous, t.0, t.1)
    ensures s == t && a == b
  {
    hide WindowSamples, Milliseconds, HopSamples, OnGrid;
    assert s.0 == t.0;
    NotDecidedEarlier(r, a, b, previous, s.0, s.1, t.1);
    NotDecidedEarlier(r, b, a, previous, s.0, t.1, s.1);
    assert Audible(r, s.1);
  }

  lemma {:induction false} SamePrefix(r: Recording, groups: seq<Group>, a: seq<Attempt>, sa: seq<Span>,
      b: seq<Attempt>, sb: seq<Span>, n: nat)
    requires r.sampleRate > 0 && AllProper(a, groups) && AllProper(b, groups)
    requires Timeline(r, a, sa) && Timeline(r, b, sb) && n <= |a| && n <= |b|
    ensures a[..n] == b[..n] && sa[..n] == sb[..n]
  {
    hide Proper, SpanOf, Advances, LastDecided;
    if n > 0 {
      var k := n - 1;
      SamePrefix(r, groups, a, sa, b, sb, k);
      assert Proper(a[k], k, |Advances(a[..k])|, groups) && Proper(b[k], k, |Advances(b[..k])|, groups);
      SameSpan(r, groups, a[k], b[k], k, |Advances(a[..k])|, LastDecided(sa[..k]), sa[k], sb[k]);
      assert a[..n] == a[..k] + [a[k]] && b[..n] == b[..k] + [b[k]];
      assert sa[..n] == sa[..k] + [sa[k]] && sb[..n] == sb[..k] + [sb[k]];
    }
  }

  lemma NoLonger(r: Recording, groups: seq<Group>, a: seq<Attempt>, sa: seq<Span>,
      b: seq<Attempt>, sb: seq<Span>)
    requires r.sampleRate > 0 && AllProper(a, groups) && AllProper(b, groups)
    requires Timeline(r, a, sa) && Timeline(r, b, sb) && Exhausted(r, groups, sb, |Advances(b)|)
    ensures |a| <= |b|
  {
    hide Proper, Advances, AllProper, OnGrid, Undecided;
    if |a| > |b| {
      var n: nat := |b|;
      SamePrefix(r, groups, a, sa, b, sb, n);
      assert b[..n] == b && sb[..n] == sb;
      ScopeOpenAt(a, groups, n);
      AudibleFits(r, sa[n].0);
    }
  }

  /** The report is the only one with the properties of a run. */
  lemma ReportUnique(r: Recording, groups: seq<Group>, a: seq<Attempt>, p: nat, b: seq<Attempt>, q: nat)
    requires r.sampleRate > 0 && RunReport(r, groups, a, p) && RunReport(r, groups, b, q)
    ensures a == b && p == q
  {
    hide AllProper, InTimeOrder, Advances, Timeline, Exhausted;
    var sa :| Timeline(r, a, sa) && Exhausted(r, groups, sa, p);
    var sb :| Timeline(r, b, sb) && Exhausted(r, groups, sb, q);
    assert |Advances(a)| == p && |Advances(b)| == q;
    NoLonger(r, groups, a, sa, b, sb);
    NoLonger(r, groups, b, sb, a, sa);
    SamePrefix(r, groups, a, sa, b, sb, |a|);
    assert a[..|a|] == a && b[..|b|] == b;
  }

  // ---- progression does not depend on the attempts

  /** The reference for the score position: the windows at which the evaluator first matches
      group `k`, then the next one, and so on. It knows no attempts, timeouts or flushes. */
  function MatchWindows(r: Recording, groups: seq<Group>, k: nat, start: nat): seq<nat>
    decreases EndStart(r) - start
  {
    if start > EndStart(r) || k >= |groups| then []
    else if r.active(start) && r.evaluate(start, groups[k]).result == "MATCH"
    then [start] + MatchWindows(r, groups, k + 1, start + HopSamples(r))
    else MatchWindows(r, groups, k, start + HopSamples(r))
  }

  function ResolveTimes(r: Recording, windows: seq<nat>): seq<int>
    requires r.sampleRate > 0
  {
    seq(|windows|, i requires 0 <= i < |windows| => Milliseconds(r, windows[i] + WindowSamples(r)))
  }

  function AdvanceTimes(attempts: seq<Attempt>): seq<int> {
    if attempts == [] then []
    else AdvanceTimes(attempts[..|attempts| - 1]) +
         if attempts[|attempts| - 1].action == Advance then [attempts[|attempts| - 1].resolvedAtMs] else []
  }

  lemma AdvanceTimesAppend(attempts: seq<Attempt>, a: Attempt)
    ensures AdvanceTimes(attempts + [a]) ==
            AdvanceTimes(attempts) + if a.action == Advance then [a.resolvedAtMs] else []
  {
    assert (attempts + [a])[..|attempts|] == attempts;
  }

  lemma StepAdvanceTimes(r: Recording, groups: seq<Group>, s: State, start: nat)
    requires r.sampleRate > 0 && s.groupIndex < |groups|
    ensures var s' := Step(r, groups, s, start);
      var matched := r.active(start) && r.evaluate(start, groups[s.groupIndex]).result == "MATCH";
      && s'.groupIndex == s.groupIndex + (if matched then 1 else 0)
      && AdvanceTimes(s'.attempts) ==
         AdvanceTimes(s.attempts) + (if matched then [Milliseconds(r, start + WindowSamples(r))] else [])
  {
    hide Milliseconds, WindowSamples, AdvanceTimes;
    var s' := Step(r, groups, s, start);
    if |s'.attempts| > |s.attempts| {
      AdvanceTimesAppend(s.attempts, s'.attempts[|s.attempts|]);
    }
  }

  lemma {:induction false} RunAdvanceTimes(r: Recording, groups: seq<Group>, s: State, start: nat)
    requires r.sampleRate > 0
    ensures var windows := MatchWindows(r, groups, s.groupIndex, start);
      && AdvanceTimes(Run(r, groups, s, start).attempts) == AdvanceTimes(s.attempts) + ResolveTimes(r, windows)
      && Run(r, groups, s, start).groupIndex == s.groupIndex + |windows|
    decreases EndStart(r) - start
  {
    hide Milliseconds, WindowSamples, HopSamples, Step, AdvanceTimes;
    if start > EndStart(r) || s.groupIndex >= |groups| {
    } else {
      var hop := HopSamples(r);
      var s' := Step(r, groups, s, start);
      StepAdvanceTimes(r, groups, s, start);
      RunAdvanceTimes(r, groups, s', start + hop);
      var windows := MatchWindows(r, groups, s.groupIndex, start);
      var rest := MatchWindows(r, groups, s'.groupIndex, start + hop);
      if r.active(start) && r.evaluate(start, groups[s.groupIndex]).result == "MATCH" {
        assert windows == [start] + rest;
        assert ResolveTimes(r, windows) == [Milliseconds(r, start + WindowSamples(r))] + ResolveTimes(r, rest);
      } else {
        assert windows == rest;
      }
    }
  }

  /** How far the score moves, and when, is decided by first matches alone. */
  lemma ProgressionByFirstMatches(r: Recording, groups: seq<Group>)
    requires r.sampleRate > 0
    ensures var s := Run(r, groups, IDLE, 0); s.startedAtMs.Some? && s.lastEvaluation.Some? ==> s.groupIndex < |groups|
    ensures var windows := MatchWindows(r, groups, 0, 0);
      && AdvanceTimes(Flush(r, groups, Run(r, groups, IDLE, 0))) == ResolveTimes(r, windows)
      && Run(r, groups, IDLE, 0).groupIndex == |windows|
  {
    hide Milliseconds, WindowSamples, MatchWindows, Run, RunReport;
    RunReported(r, groups);
    RunAdvanceTimes(r, groups, IDLE, 0);
    var s := Run(r, groups, IDLE, 0);
    assert AdvanceTimes([]) == [];
    if s.startedAtMs.Some? && s.lastEvaluation.Some? {
      var all := Flush(r, groups, s);
      AdvanceTimesAppend(s.attempts, all[|s.attempts|]);
    }
  }

  // ---- consequences for the report

  /** `false_match_count`: advances whose evaluation is not MATCH. */
  function FalseMatchCount(attempts: seq<Attempt>): nat {
    if attempts == [] then 0
    else
      var a := attempts[|attempts| - 1];
      FalseMatchCount(attempts[..|attempts| - 1]) +
      if a.action == Advance && a.evaluation.result != "MATCH" then 1 else 0
  }

  /** The count is that of the advances whose evaluation is not MATCH. */
  lemma {:induction false} FalseMatchesCounted(attempts: seq<Attempt>)
    ensures FalseMatchCount(attempts) == |FalseMatches(attempts)|
  {
    if attempts != [] {
      var n: nat := |attempts| - 1;
      FalseMatchesCounted(attempts[..n]);
      var a := attempts[n];
      assert FalseMatches(attempts) ==
             FalseMatches(attempts[..n]) + if a.action == Advance && a.evaluation.result != "MATCH" then {n} else {};
    }
  }

  ghost function FalseMatches(attempts: seq<Attempt>): set<nat> {
    set i: nat | i < |attempts| && attempts[i].action == Advance && attempts[i].evaluation.result != "MATCH"
  }

  /** `match_latencies`: one entry per matched attempt that did not end before it began. */
  function MatchLatencies(attempts: seq<Attempt>): seq<int> {
    if attempts == [] then []
    else
      var a := attempts[|attempts| - 1];
      MatchLatencies(attempts[..|attempts| - 1]) +
      if a.evaluation.result == "MATCH" && a.resolvedAtMs >= a.startedAtMs then [a.resolvedAtMs - a.startedAtMs] else []
  }

  /** Nothing the runtime reports counts as a false match, and every passed group has one latency. */
  lemma {:induction false} SummaryOfRun(attempts: seq<Attempt>, groups: seq<Group>)
    requires AllProper(attempts, groups)
    ensures FalseMatchCount(attempts) == 0
    ensures |MatchLatencies(attempts)| == |Advances(attempts)|
    ensures forall k :: 0 <= k < |MatchLatencies(attempts)| ==> MatchLatencies(attempts)[k] >= 0
  {
    if attempts != [] {
      var n := |attempts| - 1;
      assert Proper(attempts[n], n, |Advances(attempts[..n])|, groups);
      FrontProper(attempts, groups, n);
      SummaryOfRun(attempts[..n], groups);
    }
  }

  lemma FrontProper(attempts: seq<Attempt>, groups: seq<Group>, n: nat)
    requires AllProper(attempts, groups) && n <= |attempts|
    ensures AllProper(attempts[..n], groups)
  {
    hide Proper;
    forall i | 0 <= i < n ensures Proper(attempts[..n][i], i, |Advances(attempts[..n][..i])|, groups) {
      assert attempts[..n][..i] == attempts[..i];
      assert Proper(attempts[i], i, |Advances(attempts[..i])|, groups);
    }
  }

  /** The latency of a passed group is the time its attempt was open. */
  lemma {:induction false} LatencyOfAdvance(attempts: seq<Attempt>, groups: seq<Group>, i: nat)
    requires AllProper(attempts, groups) && i < |attempts| && attempts[i].action == Advance
    ensures var k := |Advances(attempts[..i])|;
      && k < |MatchLatencies(attempts)|
      && MatchLatencies(attempts)[k] == attempts[i].resolvedAtMs - attempts[i].startedAtMs
  {
    hide Advances, AllProper;
    var n: nat := |attempts| - 1;
    FrontProper(attempts, groups, n);
    SummaryOfRun(attempts[..n], groups);
    if i < n {
      LatencyOfAdvance(attempts[..n], groups, i);
      assert attempts[..n][..i] == attempts[..i];
    } else {
      AdvanceMatched(attempts, groups, n);
    }
  }

  lemma AdvanceMatched(attempts: seq<Attempt>, groups: seq<Group>, i: nat)
    requires AllProper(attempts, groups) && i < |attempts| && attempts[i].action == Advance
    ensures attempts[i].evaluation.result == "MATCH" && attempts[i].resolvedAtMs >= attempts[i].startedAtMs
  {
    assert Proper(attempts[i], i, |Advances(attempts[..i])|, groups);
  }

  lemma {:induction false} AdvancesGrow(attempts: seq<Attempt>, i: nat, j: nat)
    requires i <= j <= |attempts|
    ensures |Advances(attempts[..i])| <= |Advances(attempts[..j])|
    decreases j
  {
    if i < j {
      assert attempts[..j][..j - 1] == attempts[..j - 1];
      AdvancesGrow(attempts, i, j - 1);
    }
  }

  /** After attempt `i` as many groups are passed as before it, and one more if it advances. */
  lemma AdvancesNext(attempts: seq<Attempt>, i: nat)
    requires i < |attempts|
    ensures |Advances(attempts[..i + 1])| == |Advances(attempts[..i])| + if attempts[i].action == Advance then 1 else 0
  {
    assert attempts[..i + 1][..i] == attempts[..i];
  }

  lemma ProperAt(attempts: seq<Attempt>, groups: seq<Group>, i: nat)
    requires AllProper(attempts, groups) && i < |attempts|
    ensures attempts[i].scopeCompleted <==>
            attempts[i].action == Advance && |Advances(attempts[..i])| + 1 == |groups|
  {
    hide Advances;
    assert Proper(attempts[i], i, |Advances(attempts[..i])|, groups);
  }

  lemma CompletedIsLast(groups: seq<Group>, attempts: seq<Attempt>, passed: nat, i: nat)
    requires AllProper(attempts, groups) && passed <= |groups| && |Advances(attempts)| == passed
    requires i < |attempts| && attempts[i].scopeCompleted
    ensures i == |attempts| - 1 && passed == |groups|
  {
    hide Advances, AllProper;
    var next: nat := i + 1;
    ProperAt(attempts, groups, i);
    AdvancesNext(attempts, i);
    if i < |attempts| - 1 {
      ScopeOpenAt(attempts, groups, next);
    }
    assert attempts[..|attempts|] == attempts;
    AdvancesGrow(attempts, next, |attempts|);
  }

  lemma LastCompletes(groups: seq<Group>, attempts: seq<Attempt>)
    requires AllProper(attempts, groups) && attempts != [] && |Advances(attempts)| == |groups|
    ensures attempts[|attempts| - 1].scopeCompleted
  {
    hide Advances, AllProper;
    var last: nat := |attempts| - 1;
    ProperAt(attempts, groups, last);
    ScopeOpenAt(attempts, groups, last);
    AdvancesNext(attempts, last);
    assert attempts[..last + 1] == attempts;
  }

  /** The scope is reported as completed exactly when all groups were passed, by the last report. */
  lemma CompletedIff(r: Recording, groups: seq<Group>, attempts: seq<Attempt>, passed: nat)
    requires RunReport(r, groups, attempts, passed)
    ensures forall i :: 0 <= i < |attempts| ==>
      (attempts[i].scopeCompleted <==> passed == |groups| && i == |attempts| - 1)
    ensures passed == |groups| > 0 ==> attempts != []
  {
    hide AllProper, InTimeOrder, TimedRun;
    forall i: nat | i < |attempts| && attempts[i].scopeCompleted ensures passed == |groups| && i == |attempts| - 1 {
      CompletedIsLast(groups, attempts, passed, i);
    }
    if passed == |groups| && attempts != [] {
      LastCompletes(groups, attempts);
    }
  }

  // ---- the practice scope

  function FirstIndex(groups: seq<Group>, id: string, fallback: int): (k: int)
    ensures k == fallback || (0 <= k < |groups| && groups[k].id == id)
    ensures (forall j :: 0 <= j < |groups| ==> groups[j].id != id) ==> k == fallback
    ensures forall j :: 0 <= j < |groups| && groups[j].id == id ==> 0 <= k <= j && groups[k].id == id
  {
    IndexFrom(groups, id, fallback, 0)
  }

  function IndexFrom(groups: seq<Group>, id: string, fallback: int, at: nat): (k: int)
    requires at <= |groups|
    ensures k == fallback || (at <= k < |groups| && groups[k].id == id)
    ensures (forall j :: at <= j < |groups| ==> groups[j].id != id) ==> k == fallback
    ensures forall j :: at <= j < |groups| && groups[j].id == id ==> at <= k <= j && groups[k].id == id
    decreases |groups| - at
  {
    if at == |groups| then fallback
    else if groups[at].id == id then at
    else IndexFrom(groups, id, fallback, at + 1)
  }

  function ScopedExpectedGroups(groups: seq<Group>, startId: Option<string>, endId: Option<string>): seq<Group> {
    var startIndex := if startId.Some? then FirstIndex(groups, startId.value, 0) else 0;
    var endIndex := if endId.Some? then FirstIndex(groups, endId.value, |groups| - 1) else |groups| - 1;
    if endIndex < startIndex then [] else groups[startIndex..endIndex + 1]
  }

  predicate Occurs(groups: seq<Group>, id: string) {
    exists j :: 0 <= j < |groups| && groups[j].id == id
  }

  /** Both requested ends are honoured exactly when both ids occur and the first start does not
      come after the first end. */
  lemma ScopeHonouredIff(groups: seq<Group>, startId: string, endId: string)
    ensures var scope := ScopedExpectedGroups(groups, Some(startId), Some(endId));
      (scope != [] && scope[0].id == startId && scope[|scope| - 1].id == endId) <==>
      (Occurs(groups, startId) && Occurs(groups, endId)
       && FirstIndex(groups, startId, 0) <= FirstIndex(groups, endId, |groups| - 1))
  {
    hide FirstIndex;
    var startIndex, endIndex := FirstIndex(groups, startId, 0), FirstIndex(groups, endId, |groups| - 1);
    var scope := ScopedExpectedGroups(groups, Some(startId), Some(endId));
    if startIndex <= endIndex {
      assert scope == groups[startIndex..endIndex + 1];
      if scope != [] {
        assert scope[0] == groups[startIndex] && scope[|scope| - 1] == groups[endIndex];
      }
    }
  }

  /** Whatever is requested, the scope is a contiguous part of the score. */
  lemma ScopeContiguous(groups: seq<Group>, startId: Option<string>, endId: Option<string>)
    ensures Contiguous(ScopedExpectedGroups(groups, startId, endId), groups)
  {
    hide FirstIndex, Contiguous;
    var startIndex := if startId.Some? then FirstIndex(groups, startId.value, 0) else 0;
    var endIndex := if endId.Some? then FirstIndex(groups, endId.value, |groups| - 1) else |groups| - 1;
    if endIndex < startIndex {
      SliceContiguous(groups, 0, 0);
    } else {
      SliceContiguous(groups, startIndex, endIndex + 1);
    }
  }

  lemma SliceContiguous(groups: seq<Group>, a: nat, b: nat)
    requires a <= b <= |groups|
    ensures Contiguous(groups[a..b], groups)
    ensures a == b ==> Contiguous([], groups)
  {
    if a == b { assert groups[a..b] == []; }
  }

  /** An id that no group has is silently ignored: the scope is as wide as without that end. */
  lemma UnknownIdWidens(groups: seq<Group>, id: string, other: Option<string>)
    requires !Occurs(groups, id)
    ensures ScopedExpectedGroups(groups, Some(id), other) == ScopedExpectedGroups(groups, None, other)
    ensures ScopedExpectedGroups(groups, other, Some(id)) == ScopedExpectedGroups(groups, other, None)
    ensures ScopedExpectedGroups(groups, Some(id), None) == groups == ScopedExpectedGroups(groups, None, Some(id))
  {
    assert FirstIndex(groups, id, 0) == 0 && FirstIndex(groups, id, |groups| - 1) == |groups| - 1;
    assert groups[0..|groups|] == groups;
  }

  /** A single requested end is honoured exactly when its id occurs; the other end stays that of the score. */
  lemma OneEndHonouredIff(groups: seq<Group>, id: string)
    ensures var scope := ScopedExpectedGroups(groups, Some(id), None);
      && (scope != [] && scope[0].id == id <==> Occurs(groups, id))
      && |scope| <= |groups| && scope == groups[|groups| - |scope|..]
    ensures var scope := ScopedExpectedGroups(groups, None, Some(id));
      && (scope != [] && scope[|scope| - 1].id == id <==> Occurs(groups, id))
      && scope <= groups
  {
    hide FirstIndex;
    var first, last := FirstIndex(groups, id, 0), FirstIndex(groups, id, |groups| - 1);
    if Occurs(groups, id) {
      assert groups[first..|groups|] == groups[first..];
      assert groups[0..last + 1] == groups[..last + 1];
    } else {
      UnknownIdWidens(groups, id, None);
    }
  }

  ghost predicate Contiguous(scope: seq<Group>, groups: seq<Group>) {
    exists a, b :: 0 <= a <= b <= |groups| && scope == groups[a..b]
  }
}
