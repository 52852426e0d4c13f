/** Onset events from the model's own activation curve: local peaks, moved off the frame
    grid by the regression shift. */
module PeakRegression {
  import opened Sorting
  import opened Rounding

  const NEIGHBOUR := 2
  const TINY := 0.000000000001
  const EPSILON := 0.000000001

  /** One pitch's column of an inference: onset and frame activations with their thresholds. */
  datatype Column = Column(
    clipStart: real, anchorTime: real, localPre: real, localPost: real,
    onsetThreshold: real, frameThreshold: real,
    onsets: seq<real>, frames: seq<real>)
  {
    predicate Valid() { |onsets| == |frames| }
  }

  /** Nondecreasing up to the frame and nonincreasing after it, over two neighbours. */
  predicate IsMonotonicNeighbour(x: seq<real>, i: nat)
    requires NEIGHBOUR <= i < |x| - NEIGHBOUR
  {
    x[i] >= x[i - 1] && x[i] >= x[i + 1] && x[i - 1] >= x[i - 2] && x[i + 1] >= x[i + 2]
  }

  function RegressionShift(x: seq<real>, i: nat): real
    requires 0 < i < |x| - 1
  {
    var current, left, right := x[i], x[i - 1], x[i + 1];
    var denom := if left > right then current - right else current - left;
    if -TINY < denom < TINY then 0.0 else (right - left) / denom / 2.0
  }

  lemma RatioWithinOne(num: real, denom: real)
    requires denom > 0.0 && -denom <= num <= denom
    ensures -1.0 <= num / denom <= 1.0
    ensures num >= 0.0 ==> num / denom >= 0.0
    ensures num <= 0.0 ==> num / denom <= 0.0
  {
  }

  /** The shift never leaves the frame, and points to the higher neighbour. */
  lemma ShiftBounded(x: seq<real>, i: nat)
    requires NEIGHBOUR <= i < |x| - NEIGHBOUR && IsMonotonicNeighbour(x, i)
    ensures -0.5 <= RegressionShift(x, i) <= 0.5
    ensures x[i - 1] <= x[i + 1] ==> RegressionShift(x, i) >= 0.0
    ensures x[i - 1] >= x[i + 1] ==> RegressionShift(x, i) <= 0.0
  {
    var current, left, right := x[i], x[i - 1], x[i + 1];
    var denom := if left > right then current - right else current - left;
    if !(-TINY < denom < TINY) {
      RatioWithinOne(right - left, denom);
    }
  }

  /** The shift is exact on the curve the model is trained to produce: a triangular peak at
      offset `delta` from the frame comes back as `delta`, unless its slope is below 1e-12. */
  lemma TriangularPeakRecovered(x: seq<real>, i: nat, height: real, slope: real, delta: real)
    requires 0 < i < |x| - 1 && slope > 0.0 && -0.5 <= delta <= 0.5
    requires var away := if delta >= 0.0 then delta else -delta;
      x[i] == height - slope * away && x[i - 1] == height - slope * (1.0 + delta)
          && x[i + 1] == height - slope * (1.0 - delta)
    ensures RegressionShift(x, i) == delta <==> slope >= 0.000000000001 || delta == 0.0
  {
    TriangleDifferences(slope, delta);
    Cancel(2.0 * delta, slope);
    var num := x[i + 1] - x[i - 1];
    var denom := if x[i - 1] > x[i + 1] then x[i] - x[i + 1] else x[i] - x[i - 1];
    assert num == 2.0 * delta * slope;
    assert denom == slope;
  }

  lemma TriangleDifferences(slope: real, delta: real)
    requires slope > 0.0
    ensures slope * (1.0 + delta) == slope + slope * delta
    ensures slope * (1.0 - delta) == slope - slope * delta
    ensures slope * (-delta) == -(slope * delta)
    ensures 2.0 * delta * slope == 2.0 * (slope * delta)
    ensures delta >= 0.0 <==> slope * delta >= 0.0
  {
  }

  lemma Cancel(a: real, b: real)
    requires b > 0.0
    ensures a * b / b == a
  {
  }

  // ---- accepted peaks

  function ShiftedTime(c: Column, i: nat): real
    requires 0 < i < |c.onsets| - 1
  {
    c.clipStart + (i as real + RegressionShift(c.onsets, i)) / 100.0
  }

  /** The frame's own time lies in the local window. */
  predicate InMask(c: Column, i: nat) {
    var time := i as real / 100.0 + c.clipStart;
    c.anchorTime - c.localPre <= time <= c.anchorTime + c.localPost
  }

  predicate Accepted(c: Column, i: nat)
    requires c.Valid()
  {
    && NEIGHBOUR <= i < |c.onsets| - NEIGHBOUR
    && InMask(c, i)
    && c.onsets[i] > c.onsetThreshold
    && IsMonotonicNeighbour(c.onsets, i)
    && c.anchorTime - c.localPre - EPSILON <= ShiftedTime(c, i) <= c.anchorTime + c.localPost + EPSILON
    && c.frames[i] >= c.frameThreshold
  }

  /** An accepted frame: two frames inside the clip, its own time in the local window and the shifted
      one up to a nanosecond, above both thresholds, a peak over two neighbours on either side. */
  lemma AcceptedIff(c: Column, i: nat)
    requires c.Valid()
    ensures Accepted(c, i) <==>
      && 2 <= i < |c.onsets| - 2
      && c.anchorTime - c.localPre <= c.clipStart + i as real / 100.0 <= c.anchorTime + c.localPost
      && c.onsets[i] > c.onsetThreshold && c.frames[i] >= c.frameThreshold
      && c.onsets[i - 2] <= c.onsets[i - 1] <= c.onsets[i] && c.onsets[i] >= c.onsets[i + 1] >= c.onsets[i + 2]
      && c.anchorTime - c.localPre - 0.000000001 <= ShiftedTime(c, i) <= c.anchorTime + c.localPost + 0.000000001
  {
    hide RegressionShift;
  }

  /** The time of a peak stays within 5 ms of its frame, on the side of the higher neighbour. */
  lemma ShiftedWithinFrame(c: Column, i: nat)
    requires c.Valid() && Accepted(c, i)
    ensures var time := c.clipStart + i as real / 100.0;
      && time - 0.005 <= ShiftedTime(c, i) <= time + 0.005
      && (c.onsets[i - 1] <= c.onsets[i + 1] ==> ShiftedTime(c, i) >= time)
      && (c.onsets[i - 1] >= c.onsets[i + 1] ==> ShiftedTime(c, i) <= time)
  {
    ShiftBounded(c.onsets, i);
    hide RegressionShift;
  }

  /** And on a triangular peak it is the time of the peak itself. */
  lemma PeakTimeRecovered(c: Column, i: nat, height: real, slope: real, delta: real)
    requires 0 < i < |c.onsets| - 1 && slope > 0.0 && -0.5 <= delta <= 0.5
    requires var away := if delta >= 0.0 then delta else -delta;
      c.onsets[i] == height - slope * away && c.onsets[i - 1] == height - slope * (1.0 + delta)
          && c.onsets[i + 1] == height - slope * (1.0 - delta)
    ensures ShiftedTime(c, i) == c.clipStart + (i as real + delta) / 100.0 <==>
            slope >= 0.000000000001 || delta == 0.0
  {
    TriangularPeakRecovered(c.onsets, i, height, slope, delta);
    hide RegressionShift;
  }

  datatype PeakEvent = PeakEvent(frame: nat, time: real)

  predicate ByTime(a: PeakEvent, b: PeakEvent) { a.time <= b.time }

  /** The events of the accepted frames below `n`, in frame order. */
  function PeaksBelow(c: Column, n: nat): (r: seq<PeakEvent>)
    requires c.Valid()
    ensures forall k :: 0 <= k < |r| ==>
      r[k].frame < n && Accepted(c, r[k].frame) && r[k].time == Round6(ShiftedTime(c, r[k].frame))
    ensures forall j, k :: 0 <= j < k < |r| ==> r[j].frame < r[k].frame
  {
    if n == 0 then []
    else PeaksBelow(c, n - 1) + if Accepted(c, n - 1) then [PeakEvent(n - 1, Round6(ShiftedTime(c, n - 1)))] else []
  }

  lemma {:induction false} EveryPeakListed(c: Column, n: nat, i: nat)
    requires c.Valid() && i < n && Accepted(c, i)
    ensures PeakEvent(i, Round6(ShiftedTime(c, i))) in PeaksBelow(c, n)
  {
    hide Accepted, ShiftedTime;
    if i < n - 1 { EveryPeakListed(c, n - 1, i); }
  }

  lemma NothingBelowNeighbours(c: Column, n: nat)
    requires c.Valid() && n <= NEIGHBOUR
    ensures PeaksBelow(c, n) == []
  {
  }

  lemma {:induction false} NothingAboveNeighbours(c: Column, m: nat, n: nat)
    requires c.Valid() && m <= n && |c.onsets| - NEIGHBOUR <= m
    ensures PeaksBelow(c, n) == PeaksBelow(c, m)
  {
    hide ShiftedTime;
    if m < n { NothingAboveNeighbours(c, m, n - 1); }
  }

  /** Later peaks never come out earlier. */
  lemma PeaksInOrder(c: Column, i: nat, j: nat)
    requires c.Valid() && Accepted(c, i) && Accepted(c, j) && i < j
    ensures ShiftedTime(c, i) <= ShiftedTime(c, j)
    ensures Round6(ShiftedTime(c, i)) <= Round6(ShiftedTime(c, j))
  {
    ShiftBounded(c.onsets, i);
    ShiftBounded(c.onsets, j);
    hide RegressionShift;
    Round6Monotone(ShiftedTime(c, i), ShiftedTime(c, j));
  }

  /** The scan of `_model_native_pitch_events`: the accepted peaks in frame order, which the
      final sort by time leaves exactly as they are. */
  method ModelNativePitchEvents(c: Column) returns (events: seq<PeakEvent>)
    requires c.Valid()
    ensures events == PeaksBelow(c, |c.onsets|)
    ensures forall j, k :: 0 <= j < k < |events| ==> events[j].time <= events[k].time
  {
    hide PeaksBelow, RegressionShift, Sort, ByTime, TotalPreorder;
    ByTimeOrders();
    var found: seq<PeakEvent> := [];
    var i := NEIGHBOUR;
    NothingBelowNeighbours(c, if |c.onsets| < NEIGHBOUR then |c.onsets| else NEIGHBOUR);
    NothingBelowNeighbours(c, NEIGHBOUR);
    while i < |c.onsets| - NEIGHBOUR
      invariant NEIGHBOUR <= i && (i <= |c.onsets| - NEIGHBOUR || i == NEIGHBOUR)
      invariant found == PeaksBelow(c, i)
    {
      PeaksStep(c, i);
      i := i + 1;
      if !InMask(c, i - 1) { continue; }
      if c.onsets[i - 1] <= c.onsetThreshold { continue; }
      if !IsMonotonicNeighbour(c.onsets, i - 1) { continue; }
      var shiftedEventTime := ShiftedTime(c, i - 1);
      if shiftedEventTime < c.anchorTime - c.localPre - EPSILON { continue; }
      if shiftedEventTime > c.anchorTime + c.localPost + EPSILON { continue; }
      if c.frames[i - 1] < c.frameThreshold { continue; }
      found := found + [PeakEvent(i - 1, Round6(shiftedEventTime))];
    }
    if i <= |c.onsets| {
      NothingAboveNeighbours(c, i, |c.onsets|);
    } else {
      NothingAboveNeighbours(c, |c.onsets|, i);
    }
    PeaksSorted(c, |c.onsets|);
    SortSorted(found, ByTime);
    events := Sort(found, ByTime);
    TimesInOrder(events);
  }

  lemma ByTimeOrders()
    ensures TotalPreorder(ByTime)
  {
  }

  lemma TimesInOrder(events: seq<PeakEvent>)
    requires SortedBy(events, ByTime)
    ensures forall j, k :: 0 <= j < k < |events| ==> events[j].time <= events[k].time
  {
    forall j, k | 0 <= j < k < |events| ensures events[j].time <= events[k].time {
      assert ByTime(events[j], events[k]);
    }
  }

  lemma PeaksStep(c: Column, i: nat)
    requires c.Valid()
    ensures PeaksBelow(c, i + 1) ==
            PeaksBelow(c, i) + if Accepted(c, i) then [PeakEvent(i, Round6(ShiftedTime(c, i)))] else []
  {
  }

  lemma PeaksSorted(c: Column, n: nat)
    requires c.Valid()
    ensures SortedBy(PeaksBelow(c, n), ByTime)
  {
    hide Accepted, PeaksBelow, ShiftedTime;
    var events := PeaksBelow(c, n);
    forall j, k | 0 <= j < k < |events| ensures ByTime(events[j], events[k]) {
      PeaksInOrder(c, events[j].frame, events[k].frame);
    }
  }

  /** Two peaks closer than three frames sit on one plateau. */
  lemma ClosePeaksArePlateau(c: Column, i: nat, j: nat)
    requires c.Valid() && Accepted(c, i) && Accepted(c, j) && i < j < i + 3
    ensures forall k :: i <= k <= j ==> c.onsets[k] == c.onsets[i]
  {
  }
}
