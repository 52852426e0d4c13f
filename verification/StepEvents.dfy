/** Matching expected pitches against onset events of the rolling inferences, with the
    consumed-through boundary that keeps one onset from being used twice. */
module StepEvents {
  import opened Extremum
  import opened Wrappers
  import opened Sorting
  import opened Rounding

  const EVENT_DEDUPE_SECONDS := 0.050
  const INITIALIZATION_PRE_SECONDS := 0.120
  const RETRIGGER_MIN_DELTA_SECONDS := -0.120
  const RETRIGGER_MAX_DELTA_SECONDS := 0.050
  const EPSILON := 0.000000001

  // ---- the verdict on observed pitches

  datatype Verdict = MATCH | PARTIAL | MISMATCH | UNCERTAIN

  datatype Comparison = Comparison(verdict: Verdict, matched: seq<string>, missing: seq<string>, extra: seq<string>)

  function EvaluateExpected(expectedPitches: seq<string>, observedPitches: seq<string>): Comparison {
    var expected, observed := Dedup(expectedPitches), Dedup(observedPitches);
    var matched, missing, extra := Keep(expected, observed, true), Keep(expected, observed, false),
        Keep(observed, expected, false);
    Comparison(
      if matched != [] && missing == [] && extra == [] then MATCH
      else if matched != [] then PARTIAL
      else if observed != [] then MISMATCH
      else UNCERTAIN,
      matched, missing, extra)
  }

  /** MATCH means: some pitch was expected, and exactly the expected ones were observed. */
  lemma MatchIff(expected: seq<string>, observed: seq<string>)
    ensures EvaluateExpected(expected, observed).verdict == MATCH <==>
            expected != [] && forall x :: x in expected <==> x in observed
  {
    var c := EvaluateExpected(expected, observed);
    if c.verdict == MATCH {
      assert c.matched[0] in c.matched;
      forall x ensures x in expected <==> x in observed {
        assert x !in c.missing && x !in c.extra;
      }
    }
    if expected != [] && (forall x :: x in expected <==> x in observed) {
      assert expected[0] in c.matched;
      if c.missing != [] { HasMember(c.missing); }
      if c.extra != [] { HasMember(c.extra); }
    }
  }

  /** The other verdicts: PARTIAL with something in common but not everything, MISMATCH with
      nothing in common though something was observed, UNCERTAIN when nothing was. */
  lemma OtherVerdictsIff(expected: seq<string>, observed: seq<string>)
    ensures var verdict := EvaluateExpected(expected, observed).verdict;
      && (verdict == PARTIAL <==>
            (exists x :: x in expected && x in observed) && exists x :: (x in expected) != (x in observed))
      && (verdict == MISMATCH <==> observed != [] && forall x :: x in expected ==> x !in observed)
      && (verdict == UNCERTAIN <==> observed == [])
  {
    var c := EvaluateExpected(expected, observed);
    if c.matched != [] { HasMember(c.matched); }
    if c.missing != [] { HasMember(c.missing); }
    if c.extra != [] { HasMember(c.extra); }
    if observed != [] { HasMember(observed); }
    NothingFrom(expected, observed);
  }

  lemma NothingFrom(expected: seq<string>, observed: seq<string>)
    ensures observed == [] ==> Dedup(observed) == []
    ensures Dedup(observed) == [] ==> observed == []
  {
    if observed != [] { HasMember(observed); }
  }

  /** The lists of a comparison: what both have, what is missing, what is extra, in the order of
      their first occurrences. */
  lemma ComparisonLists(expected: seq<string>, observed: seq<string>)
    ensures var c := EvaluateExpected(expected, observed);
      && (forall x :: x in c.matched <==> x in expected && x in observed)
      && (forall x :: x in c.missing <==> x in expected && x !in observed)
      && (forall x :: x in c.extra <==> x in observed && x !in expected)
      && FirstOccurrences(c.matched, expected) && FirstOccurrences(c.missing, expected)
      && FirstOccurrences(c.extra, observed)
  {
    KeepInOrder(expected, Dedup(observed), true);
    KeepInOrder(expected, Dedup(observed), false);
    KeepInOrder(observed, Dedup(expected), false);
  }

  lemma KeepInOrder(s: seq<string>, others: seq<string>, present: bool)
    ensures FirstOccurrences(Keep(Dedup(s), others, present), s)
  {
    hide *;
    DedupInOrder(s);
    KeepPicks(Dedup(s), others, present);
    PickedInOrder(Keep(Dedup(s), others, present), Dedup(s), s, others, present);
  }

  lemma PickedInOrder(r: seq<string>, all: seq<string>, s: seq<string>, others: seq<string>, present: bool)
    requires Picked(r, all, others, present) && FirstOccurrences(all, s)
    ensures FirstOccurrences(r, s)
  {
    var at :| PickedAt(r, all, at, others, present);
    forall a, b, k | 0 <= a < b < |r| && 0 <= k < |s| && s[k] == r[b] ensures r[a] in s[..k] {
      assert all[at[a]] in s[..k];
    }
  }

  // ---- inference rows

  /** One inference: its anchor, its decision time, and the onset times the model gives
      for a pitch (any pure function stands in for the model). */
  datatype Inference = Inference(anchorTime: real, decisionTime: real, onsets: string -> seq<real>)

  /** Event times are stored rounded to the microsecond. */
  function EventTime(row: Inference, pitch: string, k: nat): real
    requires k < |row.onsets(pitch)|
  {
    Round6(row.onsets(pitch)[k])
  }

  datatype Bounds = Bounds(consumedThrough: real, earliest: Option<real>, latest: Option<real>)

  predicate Eligible(b: Bounds, time: real) {
    && time > b.consumedThrough + EPSILON
    && (b.earliest.Some? ==> time >= b.earliest.value - EPSILON)
    && (b.latest.Some? ==> time <= b.latest.value + EPSILON)
  }

  ghost predicate HasEligible(row: Inference, pitch: string, b: Bounds) {
    exists k :: 0 <= k < |row.onsets(pitch)| && Eligible(b, EventTime(row, pitch, k))
  }

  /** `time` is the earliest eligible onset of the pitch. */
  ghost predicate EarliestEligible(row: Inference, pitch: string, b: Bounds, time: real) {
    && Eligible(b, time)
    && (exists k :: 0 <= k < |row.onsets(pitch)| && EventTime(row, pitch, k) == time)
    && (forall k :: 0 <= k < |row.onsets(pitch)| && Eligible(b, EventTime(row, pitch, k)) ==>
          time <= EventTime(row, pitch, k))
  }

  method FindEarliest(row: Inference, pitch: string, b: Bounds) returns (r: Option<real>)
    ensures r.None? <==> !HasEligible(row, pitch, b)
    ensures r.Some? ==> EarliestEligible(row, pitch, b, r.value)
  {
    r := None;
    for k := 0 to |row.onsets(pitch)|
      invariant r.None? ==> forall j :: 0 <= j < k ==> !Eligible(b, EventTime(row, pitch, j))
      invariant r.Some? ==> Eligible(b, r.value) && exists j :: 0 <= j < k && EventTime(row, pitch, j) == r.value
      invariant r.Some? ==> forall j :: 0 <= j < k && Eligible(b, EventTime(row, pitch, j)) ==>
        r.value <= EventTime(row, pitch, j)
    {
      var time := EventTime(row, pitch, k);
      if Eligible(b, time) && (r.None? || time < r.value) {
        r := Some(time);
      }
    }
  }

  // ---- one row

  datatype Event = Event(pitch: string, time: real)

  datatype Match = Match(
    anchorTime: real, decisionTime: real,
    events: seq<Event>,
    earliestEventTime: real, latestEventTime: real, consumedThroughTime: real,
    comparison: Comparison)

  /** Every expected pitch has an eligible onset in this row. */
  ghost predicate RowMatches(row: Inference, expected: seq<string>, b: Bounds) {
    expected != [] && forall i :: 0 <= i < |expected| ==> HasEligible(row, expected[i], b)
  }

  /** One event per expected pitch, the earliest eligible one, and the boundary 50 ms after the latest. */
  ghost predicate MatchOf(m: Match, row: Inference, expected: seq<string>, b: Bounds) {
    && |m.events| == |expected| > 0
    && AllEarliest(m.events, row, expected, b)
    && (forall i :: 0 <= i < |m.events| ==> m.earliestEventTime <= m.events[i].time <= m.latestEventTime)
    && HasTime(m.events, m.earliestEventTime) && HasTime(m.events, m.latestEventTime)
    && m.consumedThroughTime == m.latestEventTime + EVENT_DEDUPE_SECONDS
    && m.anchorTime == Round6(row.anchorTime) && m.decisionTime == Round6(row.decisionTime)
    && m.comparison == EvaluateExpected(expected, expected) && m.comparison.verdict == MATCH
  }

  lemma Round6Again(x: real)
    ensures Round6(Round6(x)) == Round6(x)
    ensures Round6(Round6(x) + EVENT_DEDUPE_SECONDS) == Round6(x) + EVENT_DEDUPE_SECONDS
  {
    var k := Round(x * 1000000.0);
    RoundInteger(k);
    RoundInteger(k + 50000);
    assert (Round6(x) + EVENT_DEDUPE_SECONDS) * 1000000.0 == (k + 50000) as real;
  }

  /** Distinct microsecond times are at least a microsecond apart. */
  lemma Round6Apart(x: real, y: real)
    requires Round6(x) > Round6(y) + EVENT_DEDUPE_SECONDS
    ensures Round6(x) >= Round6(y) + EVENT_DEDUPE_SECONDS + 0.000001
  {
    var p, q := Round(x * 1000000.0), Round(y * 1000000.0);
    assert p > q + 50000;
  }

  ghost predicate AllEarliest(events: seq<Event>, row: Inference, expected: seq<string>, b: Bounds) {
    && |events| <= |expected|
    && (forall i :: 0 <= i < |events| ==>
          events[i].pitch == expected[i] && EarliestEligible(row, expected[i], b, events[i].time))
  }

  method CollectEvents(row: Inference, expected: seq<string>, b: Bounds) returns (r: Option<seq<Event>>)
    ensures r.Some? <==> forall i :: 0 <= i < |expected| ==> HasEligible(row, expected[i], b)
    ensures r.Some? ==> |r.value| == |expected| && AllEarliest(r.value, row, expected, b)
  {
    hide EarliestEligible, HasEligible;
    var events: seq<Event> := [];
    for i := 0 to |expected|
      invariant |events| == i && AllEarliest(events, row, expected, b)
      invariant forall k :: 0 <= k < i ==> HasEligible(row, expected[k], b)
    {
      var time := FindEarliest(row, expected[i], b);
      if time.None? {
        return None;
      }
      events := events + [Event(expected[i], time.value)];
    }
    return Some(events);
  }

  ghost predicate HasTime(events: seq<Event>, time: real) {
    exists k :: 0 <= k < |events| && events[k].time == time
  }

  /** `max` and `min` over the event times. */
  method Extremes(events: seq<Event>) returns (earliest: real, latest: real)
    requires events != []
    ensures forall k :: 0 <= k < |events| ==> earliest <= events[k].time <= latest
    ensures HasTime(events, earliest) && HasTime(events, latest)
  {
    earliest, latest := events[0].time, events[0].time;
    for i := 1 to |events|
      invariant forall k :: 0 <= k < i ==> earliest <= events[k].time <= latest
      invariant HasTime(events, earliest) && HasTime(events, latest)
    {
      if events[i].time > latest { latest := events[i].time; }
      if events[i].time < earliest { earliest := events[i].time; }
    }
  }

  method MatchFromInference(row: Inference, expected: seq<string>, b: Bounds) returns (r: Option<Match>)
    ensures r.Some? <==> RowMatches(row, expected, b)
    ensures r.Some? ==> MatchOf(r.value, row, expected, b)
  {
    hide HasEligible, EarliestEligible, EvaluateExpected, Round6;
    var collected := CollectEvents(row, expected, b);
    if collected.None? {
      return None;
    }
    var events := collected.value;
    var observed := seq(|events|, i requires 0 <= i < |events| => events[i].pitch);
    assert observed == expected;
    var comparison := EvaluateExpected(expected, observed);
    MatchIff(expected, observed);
    if comparison.verdict != MATCH {
      return None;
    }
    var earliest, latest := Extremes(events);
    EventsRounded(row, expected, b, events, latest);
    EventsRounded(row, expected, b, events, earliest);
    return Some(Match(Round6(row.anchorTime), Round6(row.decisionTime), events,
                      Round6(earliest), Round6(latest), Round6(latest + EVENT_DEDUPE_SECONDS), comparison));
  }

  lemma EventsRounded(row: Inference, expected: seq<string>, b: Bounds, events: seq<Event>, time: real)
    requires AllEarliest(events, row, expected, b) && HasTime(events, time)
    ensures Round6(time) == time && Round6(time + EVENT_DEDUPE_SECONDS) == time + EVENT_DEDUPE_SECONDS
  {
    var k :| 0 <= k < |events| && events[k].time == time;
    assert EarliestEligible(row, expected[k], b, time);
    var j :| 0 <= j < |row.onsets(expected[k])| && EventTime(row, expected[k], j) == time;
    Round6Again(row.onsets(expected[k])[j]);
  }

  // ---- the first row that matches

  predicate Active(row: Inference, activeFrom: real, activeUntil: Option<real>) {
    && row.decisionTime >= activeFrom - EPSILON
    && (activeUntil.Some? ==> row.anchorTime <= activeUntil.value + EPSILON)
  }

  /** Row `i` is the first active row that matches. */
  ghost predicate FirstAt(rows: seq<Inference>, i: nat, expected: seq<string>,
      b: Bounds, activeFrom: real, activeUntil: Option<real>) {
    && i < |rows| && Active(rows[i], activeFrom, activeUntil) && RowMatches(rows[i], expected, b)
    && NoneBefore(rows, i, expected, b, activeFrom, activeUntil)
  }

  ghost predicate NoneBefore(rows: seq<Inference>, i: nat, expected: seq<string>,
      b: Bounds, activeFrom: real, activeUntil: Option<real>)
    requires i <= |rows|
  {
    forall j :: 0 <= j < i ==> !(Active(rows[j], activeFrom, activeUntil) && RowMatches(rows[j], expected, b))
  }

  method FirstMatch(rows: seq<Inference>, expected: seq<string>, b: Bounds, activeFrom: real, activeUntil: Option<real>)
    returns (r: Option<Match>, ghost at: nat)
    ensures r.None? ==> NoneBefore(rows, |rows|, expected, b, activeFrom, activeUntil)
    ensures r.Some? ==>
      FirstAt(rows, at, expected, b, activeFrom, activeUntil) && MatchOf(r.value, rows[at], expected, b)
  {
    hide RowMatches, MatchOf;
    at := 0;
    for i := 0 to |rows|
      invariant NoneBefore(rows, i, expected, b, activeFrom, activeUntil)
    {
      if rows[i].decisionTime < activeFrom - EPSILON {
        continue;
      }
      if activeUntil.Some? && rows[i].anchorTime > activeUntil.value + EPSILON {
        continue;
      }
      var found := MatchFromInference(rows[i], expected, b);
      if found.Some? {
        return found, i;
      }
    }
    return None, 0;
  }

  // ---- what the boundary guarantees

  /** Raising the boundary only removes events. */
  lemma RowMatchesMonotone(row: Inference, expected: seq<string>, b: Bounds, raised: Bounds)
    requires raised == b.(consumedThrough := raised.consumedThrough) && b.consumedThrough <= raised.consumedThrough
    requires RowMatches(row, expected, raised)
    ensures RowMatches(row, expected, b)
  {
    forall i | 0 <= i < |expected| ensures HasEligible(row, expected[i], b) {
      assert HasEligible(row, expected[i], raised);
      var k :| 0 <= k < |row.onsets(expected[i])| && Eligible(raised, EventTime(row, expected[i], k));
      assert Eligible(b, EventTime(row, expected[i], k));
    }
  }

  /** So a later boundary keeps or delays the first matching row, and never creates a match. */
  lemma LaterBoundaryDelays(rows: seq<Inference>, expected: seq<string>, b: Bounds, raised: Bounds,
                            activeFrom: real, activeUntil: Option<real>, i: nat)
    requires raised == b.(consumedThrough := raised.consumedThrough) && b.consumedThrough <= raised.consumedThrough
    requires FirstAt(rows, i, expected, raised, activeFrom, activeUntil)
    ensures exists j: nat :: j <= i && FirstAt(rows, j, expected, b, activeFrom, activeUntil)
  {
    hide RowMatches, Active;
    RowMatchesMonotone(rows[i], expected, b, raised);
    var j := 0;
    while !(Active(rows[j], activeFrom, activeUntil) && RowMatches(rows[j], expected, b))
      invariant j <= i && NoneBefore(rows, j, expected, b, activeFrom, activeUntil)
      decreases i - j
    {
      j := j + 1;
    }
    assert FirstAt(rows, j, expected, b, activeFrom, activeUntil);
  }

  /** No onset is consumed twice: whatever row and pitches the second match uses, all its
      events lie more than the dedupe interval after all events of the first. */
  lemma NoOnsetConsumedTwice(first: Match, row1: Inference, expected1: seq<string>, b1: Bounds,
                             second: Match, row2: Inference, expected2: seq<string>, b2: Bounds)
    requires MatchOf(first, row1, expected1, b1) && MatchOf(second, row2, expected2, b2)
    requires b2.consumedThrough >= first.consumedThroughTime
    ensures forall i, j :: 0 <= i < |first.events| && 0 <= j < |second.events| ==>
      second.events[j].time >= first.events[i].time + EVENT_DEDUPE_SECONDS + 0.000001
  {
    forall i, j | 0 <= i < |first.events| && 0 <= j < |second.events|
      ensures second.events[j].time >= first.events[i].time + EVENT_DEDUPE_SECONDS + 0.000001
    {
      EventIsRounded(first, row1, expected1, b1, i);
      EventIsRounded(second, row2, expected2, b2, j);
      assert Eligible(b2, second.events[j].time);
      Round6Apart(second.events[j].time, first.events[i].time);
    }
  }

  lemma EventIsRounded(m: Match, row: Inference, expected: seq<string>, b: Bounds, i: nat)
    requires MatchOf(m, row, expected, b) && i < |m.events|
    ensures Round6(m.events[i].time) == m.events[i].time
  {
    assert EarliestEligible(row, expected[i], b, m.events[i].time);
    var j :| 0 <= j < |row.onsets(expected[i])| && EventTime(row, expected[i], j) == m.events[i].time;
    Round6Again(row.onsets(expected[i])[j]);
  }

  // ---- the same-note retrigger case

  datatype Retrigger =
    | MissingTargets
    | FirstNotEstablished
    | MissedRetrigger(first: Match)
    | Premature(first: Match, second: Match)
    | Legitimate(first: Match, second: Match)
    | LateOrStale(first: Match, second: Match)

  function FirstActiveFrom(target: real): real { MaxReal(0.0, target - INITIALIZATION_PRE_SECONDS) }

  /** The first advance takes onsets from 120 ms before to 50 ms after its target. */
  function FirstBounds(target: real): Bounds {
    Bounds(FirstActiveFrom(target),
           Some(target + RETRIGGER_MIN_DELTA_SECONDS), Some(target + RETRIGGER_MAX_DELTA_SECONDS))
  }

  /** The rows that can establish the first advance: decided from 120 ms before its target on (or from
      zero on, if that is earlier), and anchored at most 50 ms after it. */
  ghost predicate FirstRow(row: Inference, target: real) {
    && row.decisionTime >= (if target > 0.120 then target - 0.120 else 0.0) - 0.000000001
    && row.anchorTime <= target + 0.050 + 0.000000001
  }

  /** The onset times that count for it. */
  ghost predicate FirstTime(target: real, time: real) {
    && time > (if target > 0.120 then target - 0.120 else 0.0) + 0.000000001
    && target - 0.120 - 0.000000001 <= time <= target + 0.050 + 0.000000001
  }

  /** The rows and onset times that can bring the second advance after `first`. */
  ghost predicate SecondRow(row: Inference, first: Match) { row.decisionTime >= first.decisionTime - 0.000000001 }

  ghost predicate SecondTime(first: Match, time: real) { time > first.latestEventTime + 0.050 + 0.000000001 }

  /** Every expected pitch has an onset at a time that counts. */
  ghost predicate Heard(row: Inference, expected: seq<string>, counts: real -> bool) {
    expected != [] && forall i :: 0 <= i < |expected| ==> HeardPitch(row, expected[i], counts)
  }

  ghost predicate HeardPitch(row: Inference, pitch: string, counts: real -> bool) {
    exists k :: 0 <= k < |row.onsets(pitch)| && counts(Round6(row.onsets(pitch)[k]))
  }

  /** `m` takes for each expected pitch the first onset that counts, and nothing else. */
  ghost predicate TakenFrom(m: Match, row: Inference, expected: seq<string>, counts: real -> bool) {
    && |m.events| == |expected| > 0
    && (forall i :: 0 <= i < |expected| ==> TakenOnset(m.events[i], row, expected[i], counts))
    && (forall i :: 0 <= i < |m.events| ==> m.earliestEventTime <= m.events[i].time <= m.latestEventTime)
    && HasTime(m.events, m.earliestEventTime) && HasTime(m.events, m.latestEventTime)
    && m.consumedThroughTime == m.latestEventTime + 0.050
    && m.anchorTime == Round6(row.anchorTime) && m.decisionTime == Round6(row.decisionTime)
    && m.comparison.verdict == MATCH && m.comparison.missing == [] && m.comparison.extra == []
    && (forall x :: x in m.comparison.matched <==> x in expected)
  }

  ghost predicate TakenOnset(e: Event, row: Inference, pitch: string, counts: real -> bool) {
    && e.pitch == pitch && counts(e.time)
    && (exists k :: 0 <= k < |row.onsets(pitch)| && Round6(row.onsets(pitch)[k]) == e.time)
    && (forall k :: 0 <= k < |row.onsets(pitch)| && counts(Round6(row.onsets(pitch)[k])) ==>
          e.time <= Round6(row.onsets(pitch)[k]))
  }

  ghost predicate CanEstablish(row: Inference, expected: seq<string>, target: real) {
    FirstRow(row, target) && Heard(row, expected, time => FirstTime(target, time))
  }

  ghost predicate CanRetrigger(row: Inference, expected: seq<string>, first: Match) {
    SecondRow(row, first) && Heard(row, expected, time => SecondTime(first, time))
  }

  lemma HeardIff(row: Inference, expected: seq<string>, b: Bounds, counts: real -> bool)
    requires forall time :: counts(time) <==> Eligible(b, time)
    ensures Heard(row, expected, counts) <==> RowMatches(row, expected, b)
  {
    hide Eligible, Round6;
    forall i | 0 <= i < |expected| ensures HeardPitch(row, expected[i], counts) <==> HasEligible(row, expected[i], b) {
      var pitch := expected[i];
      if HeardPitch(row, pitch, counts) {
        var k :| 0 <= k < |row.onsets(pitch)| && counts(Round6(row.onsets(pitch)[k]));
        assert Eligible(b, EventTime(row, pitch, k));
      }
      if HasEligible(row, pitch, b) {
        var k :| 0 <= k < |row.onsets(pitch)| && Eligible(b, EventTime(row, pitch, k));
        assert counts(Round6(row.onsets(pitch)[k]));
      }
    }
  }

  lemma CanEstablishIff(row: Inference, expected: seq<string>, target: real)
    ensures CanEstablish(row, expected, target) <==>
            Active(row, FirstActiveFrom(target), Some(target + RETRIGGER_MAX_DELTA_SECONDS))
            && RowMatches(row, expected, FirstBounds(target))
  {
    hide RowMatches, Heard;
    HeardIff(row, expected, FirstBounds(target), time => FirstTime(target, time));
  }

  lemma CanRetriggerIff(row: Inference, expected: seq<string>, first: Match)
    requires first.consumedThroughTime == first.latestEventTime + EVENT_DEDUPE_SECONDS
    ensures CanRetrigger(row, expected, first) <==>
            Active(row, first.decisionTime, None)
            && RowMatches(row, expected, Bounds(first.consumedThroughTime, None, None))
  {
    hide RowMatches, Heard;
    HeardIff(row, expected, Bounds(first.consumedThroughTime, None, None), time => SecondTime(first, time));
  }

  lemma SelfComparison(expected: seq<string>)
    requires expected != []
    ensures var c := EvaluateExpected(expected, expected);
      c.missing == [] && c.extra == [] && forall x :: x in c.matched <==> x in expected
  {
    var c := EvaluateExpected(expected, expected);
    if c.missing != [] { HasMember(c.missing); }
    if c.extra != [] { HasMember(c.extra); }
  }

  lemma MatchTaken(m: Match, row: Inference, expected: seq<string>, b: Bounds, counts: real -> bool)
    requires MatchOf(m, row, expected, b)
    requires forall time :: counts(time) <==> Eligible(b, time)
    ensures TakenFrom(m, row, expected, counts)
  {
    hide Eligible, Round6, EvaluateExpected;
    SelfComparison(expected);
    forall i | 0 <= i < |expected| ensures TakenOnset(m.events[i], row, expected[i], counts) {
      var pitch, e := expected[i], m.events[i];
      assert EarliestEligible(row, pitch, b, e.time);
      var k :| 0 <= k < |row.onsets(pitch)| && EventTime(row, pitch, k) == e.time;
      assert Round6(row.onsets(pitch)[k]) == e.time;
      forall j | 0 <= j < |row.onsets(pitch)| && counts(Round6(row.onsets(pitch)[j]))
        ensures e.time <= Round6(row.onsets(pitch)[j])
      {
        assert Eligible(b, EventTime(row, pitch, j));
      }
    }
  }

  /** The first row that can establish the first advance, if any, gives its match. */
  method FirstAdvance(rows: seq<Inference>, expected: seq<string>, target: real)
      returns (r: Option<Match>, ghost at: nat)
    ensures r.None? <==> forall j :: 0 <= j < |rows| ==> !CanEstablish(rows[j], expected, target)
    ensures r.Some? ==>
      && at < |rows| && CanEstablish(rows[at], expected, target)
      && (forall j :: 0 <= j < at ==> !CanEstablish(rows[j], expected, target))
      && MatchOf(r.value, rows[at], expected, FirstBounds(target))
  {
    hide RowMatches, MatchOf, Active, CanEstablish;
    var activeFrom, activeUntil := FirstActiveFrom(target), Some(target + RETRIGGER_MAX_DELTA_SECONDS);
    r, at := FirstMatch(rows, expected, FirstBounds(target), activeFrom, activeUntil);
    forall j | 0 <= j < |rows|
      ensures CanEstablish(rows[j], expected, target) <==>
              Active(rows[j], activeFrom, activeUntil) && RowMatches(rows[j], expected, FirstBounds(target))
    {
      CanEstablishIff(rows[j], expected, target);
    }
  }

  /** The same for the second advance, from the decision of the first on. */
  method SecondAdvance(rows: seq<Inference>, expected: seq<string>, first: Match)
      returns (r: Option<Match>, ghost at: nat)
    requires first.consumedThroughTime == first.latestEventTime + EVENT_DEDUPE_SECONDS
    ensures r.None? <==> forall j :: 0 <= j < |rows| ==> !CanRetrigger(rows[j], expected, first)
    ensures r.Some? ==>
      && at < |rows| && CanRetrigger(rows[at], expected, first)
      && (forall j :: 0 <= j < at ==> !CanRetrigger(rows[j], expected, first))
      && MatchOf(r.value, rows[at], expected, Bounds(first.consumedThroughTime, None, None))
  {
    hide RowMatches, MatchOf, Active, CanRetrigger;
    var b := Bounds(first.consumedThroughTime, None, None);
    r, at := FirstMatch(rows, expected, b, first.decisionTime, None);
    forall j | 0 <= j < |rows|
      ensures CanRetrigger(rows[j], expected, first) <==>
              Active(rows[j], first.decisionTime, None) && RowMatches(rows[j], expected, b)
    {
      CanRetriggerIff(rows[j], expected, first);
    }
  }

  /** Which of the six outcomes occurs, from which rows (`at1`, `at2`) and onsets, and that the
      two advances never share an onset. */
  method EvaluateSameNoteRetrigger(rows: seq<Inference>, expectedGroups: seq<seq<string>>, targets: seq<real>)
      returns (r: Retrigger, ghost at1: nat, ghost at2: nat)
    ensures r.MissingTargets? <==> |expectedGroups| < 2 || |targets| < 2
    ensures !r.MissingTargets? ==>
      (r.FirstNotEstablished? <==>
          forall j :: 0 <= j < |rows| ==> !CanEstablish(rows[j], expectedGroups[0], targets[0]))
    ensures !r.MissingTargets? && !r.FirstNotEstablished? ==>
      && at1 < |rows| && CanEstablish(rows[at1], expectedGroups[0], targets[0])
      && (forall j :: 0 <= j < at1 ==> !CanEstablish(rows[j], expectedGroups[0], targets[0]))
      && TakenFrom(r.first, rows[at1], expectedGroups[0], time => FirstTime(targets[0], time))
      && (r.MissedRetrigger? <==> forall j :: 0 <= j < |rows| ==> !CanRetrigger(rows[j], expectedGroups[1], r.first))
    ensures r.Premature? || r.Legitimate? || r.LateOrStale? ==>
      && at2 < |rows| && CanRetrigger(rows[at2], expectedGroups[1], r.first)
      && (forall j :: 0 <= j < at2 ==> !CanRetrigger(rows[j], expectedGroups[1], r.first))
      && TakenFrom(r.second, rows[at2], expectedGroups[1], time => SecondTime(r.first, time))
      && (forall i, j :: 0 <= i < |r.first.events| && 0 <= j < |r.second.events| ==>
            r.second.events[j].time > r.first.events[i].time + 0.050)
      && var delta := r.second.latestEventTime - targets[1];
         (r.Premature? <==> delta < -0.120) && (r.LateOrStale? <==> delta > 0.050)
  {
    hide MatchOf, CanEstablish, CanRetrigger, TakenFrom;
    at1, at2 := 0, 0;
    if |expectedGroups| < 2 || |targets| < 2 {
      return MissingTargets, at1, at2;
    }
    var firstTarget, secondTarget := targets[0], targets[1];
    var first: Option<Match>;
    first, at1 := FirstAdvance(rows, expectedGroups[0], firstTarget);
    if first.None? {
      return FirstNotEstablished, at1, at2;
    }
    ghost var b1 := FirstBounds(firstTarget);
    MatchTaken(first.value, rows[at1], expectedGroups[0], b1, time => FirstTime(firstTarget, time));
    ConsumedThrough(first.value, rows[at1], expectedGroups[0], b1);
    var second: Option<Match>;
    second, at2 := SecondAdvance(rows, expectedGroups[1], first.value);
    if second.None? {
      return MissedRetrigger(first.value), at1, at2;
    }
    ghost var b2 := Bounds(first.value.consumedThroughTime, None, None);
    MatchTaken(second.value, rows[at2], expectedGroups[1], b2, time => SecondTime(first.value, time));
    NoOnsetConsumedTwice(first.value, rows[at1], expectedGroups[0], b1, second.value, rows[at2], expectedGroups[1], b2);
    var delta := second.value.latestEventTime - secondTarget;
    if delta < RETRIGGER_MIN_DELTA_SECONDS {
      return Premature(first.value, second.value), at1, at2;
    } else if delta <= RETRIGGER_MAX_DELTA_SECONDS {
      return Legitimate(first.value, second.value), at1, at2;
    } else {
      return LateOrStale(first.value, second.value), at1, at2;
    }
  }

  lemma ConsumedThrough(m: Match, row: Inference, expected: seq<string>, b: Bounds)
    requires MatchOf(m, row, expected, b)
    ensures m.consumedThroughTime == m.latestEventTime + EVENT_DEDUPE_SECONDS
  {
  }
}
