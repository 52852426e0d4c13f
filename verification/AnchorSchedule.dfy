/** Where the rolling replay places its anchors, and the clip it cuts at each of them. */
module AnchorSchedule {
  import opened Extremum
  import opened Rounding
  import opened Slicing

  const SAMPLE_RATE := 16000.0
  const TARGET_ANCHOR_SECONDS := 1.6
  const REAL_LOOKBACK_SECONDS := 1.0
  const FUTURE_SECONDS := 0.22
  const MICROSECOND := 0.000001

  type Samples = seq<real>

  function LatestAnchor(duration: real): real { MaxReal(0.0, duration - FUTURE_SECONDS) }

  /** Products and quotients by the cadence, written as functions so that proofs about
      the schedule stay linear. */
  function Scale(x: real, cadence: real): real { x * cadence }

  function Multiple(i: int, cadence: real): real { Scale(i as real, cadence) }

  /** `range(count)` of rounded multiples of the cadence. */
  function Multiples(count: int, cadence: real): seq<real> {
    seq(if count < 0 then 0 else count, i requires 0 <= i => Round6(Multiple(i, cadence)))
  }

  function AnchorCount(duration: real, cadence: real): int
    requires cadence != 0.0
  {
    (LatestAnchor(duration) / cadence).Floor + 1
  }

  function AnchorSchedule(duration: real, cadence: real): seq<real>
    requires cadence != 0.0
  {
    var latest := LatestAnchor(duration);
    var regular := Multiples(AnchorCount(duration, cadence), cadence);
    var anchors := if regular != [] && regular[|regular| - 1] < latest - MICROSECOND
                   then regular + [Round6(latest)] else regular;
    if anchors == [] then [0.0] else anchors
  }

  // ---- the schedule

  lemma MultipleOrder(a: int, b: int, cadence: real)
    requires a <= b && cadence > 0.0
    ensures Multiple(a, cadence) <= Multiple(b, cadence)
  {
    hide Scale;
    ScaleAdds(a as real, (b - a) as real, cadence);
    ScaleSign((b - a) as real, cadence);
  }

  lemma NextMultiple(i: int, cadence: real)
    ensures Multiple(i + 1, cadence) == Multiple(i, cadence) + cadence
    ensures Multiple(0, cadence) == 0.0
  {
    hide Scale;
    ScaleAdds(i as real, 1.0, cadence);
  }

  /** The last regular multiple is the last one not beyond the latest anchor. */
  lemma LastMultiple(duration: real, cadence: real)
    requires cadence > 0.0
    ensures var k := AnchorCount(duration, cadence) - 1;
      0 <= k && Multiple(k, cadence) <= LatestAnchor(duration) < Multiple(k, cadence) + cadence
  {
    FloorQuotient(LatestAnchor(duration), cadence);
  }

  lemma FloorQuotient(a: real, cadence: real)
    requires a >= 0.0 && cadence > 0.0
    ensures var k := (a / cadence).Floor; 0 <= k && Multiple(k, cadence) <= a < Multiple(k, cadence) + cadence
  {
    hide Scale;
    QuotientIs(a, cadence);
    var q := a / cadence;
    ScaledBounds(q, q.Floor as real, cadence);
  }

  lemma QuotientIs(a: real, c: real)
    requires a >= 0.0 && c > 0.0
    ensures Scale(a / c, c) == a && a / c >= 0.0
  {
  }

  lemma ScaledBounds(q: real, f: real, c: real)
    requires f <= q < f + 1.0 && c > 0.0
    ensures Scale(f, c) <= Scale(q, c) < Scale(f, c) + c
  {
    hide Scale;
    var part := q - f;
    ScaleAdds(f, part, c);
    ScaleAdds(part, 1.0 - part, c);
    ScaleSign(part, c);
    ScaleSign(1.0 - part, c);
  }

  lemma ScaleAdds(x: real, y: real, c: real)
    ensures Scale(x + y, c) == Scale(x, c) + Scale(y, c)
    ensures Scale(1.0, c) == c && Scale(0.0, c) == 0.0
  {
  }

  lemma ScaleSign(x: real, c: real)
    requires x >= 0.0 && c > 0.0
    ensures Scale(x, c) >= 0.0 && (x > 0.0 ==> Scale(x, c) > 0.0)
  {
  }

  /** The unrounded instant behind anchor `i`. */
  ghost function Instant(duration: real, cadence: real, i: nat): real
    requires cadence > 0.0
  {
    if i < AnchorCount(duration, cadence) then Multiple(i, cadence) else LatestAnchor(duration)
  }

  lemma AnchorAt(duration: real, cadence: real, i: nat)
    requires cadence > 0.0 && i < |AnchorSchedule(duration, cadence)|
    ensures AnchorSchedule(duration, cadence)[i] == Round6(Instant(duration, cadence, i))
    ensures AnchorCount(duration, cadence) <= |AnchorSchedule(duration, cadence)| <= AnchorCount(duration, cadence) + 1
    ensures 0.0 <= Instant(duration, cadence, i) <= LatestAnchor(duration)
  {
    hide Multiple, AnchorCount, Round6;
    LastMultiple(duration, cadence);
    NextMultiple(0, cadence);
    var k := AnchorCount(duration, cadence) - 1;
    if i <= k {
      MultipleOrder(0, i, cadence);
      MultipleOrder(i, k, cadence);
    }
  }

  /** Anchors start at zero, never go back, advance by at most the cadence and end at the latest anchor. */
  lemma ScheduleShape(duration: real, cadence: real)
    requires cadence > 0.0
    ensures var anchors := AnchorSchedule(duration, cadence);
      && anchors != [] && anchors[0] == 0.0
      && (forall i :: 0 < i < |anchors| ==> 0.0 <= anchors[i] - anchors[i - 1] <= cadence + 0.000001)
      && (cadence >= 0.000001 ==> forall i :: 0 < i < |anchors| ==> anchors[i - 1] < anchors[i])
      && var latest := if duration > 0.22 then duration - 0.22 else 0.0;
         latest - 0.000001 <= anchors[|anchors| - 1] <= latest + 0.0000005
  {
    hide Multiple, AnchorCount, Round6;
    var anchors := AnchorSchedule(duration, cadence);
    LastMultiple(duration, cadence);
    Round6Zero();
    NextMultiple(0, cadence);
    AnchorAt(duration, cadence, 0);
    AnchorAt(duration, cadence, |anchors| - 1);
    forall i | 0 < i < |anchors|
      ensures 0.0 <= anchors[i] - anchors[i - 1] <= cadence + MICROSECOND
      ensures cadence >= MICROSECOND ==> anchors[i - 1] < anchors[i]
    {
      ScheduleStep(duration, cadence, i);
    }
  }

  lemma ScheduleStep(duration: real, cadence: real, i: nat)
    requires cadence > 0.0 && 0 < i < |AnchorSchedule(duration, cadence)|
    ensures var anchors := AnchorSchedule(duration, cadence);
      && 0.0 <= anchors[i] - anchors[i - 1] <= cadence + MICROSECOND
      && (cadence >= MICROSECOND ==> anchors[i - 1] < anchors[i])
  {
    hide Multiple, AnchorCount, Round6;
    AnchorAt(duration, cadence, i);
    AnchorAt(duration, cadence, i - 1);
    LastMultiple(duration, cadence);
    NextMultiple(i - 1, cadence);
    var a, b := Instant(duration, cadence, i - 1), Instant(duration, cadence, i);
    assert a <= b <= a + cadence;
    Round6Monotone(a, b);
    if i < AnchorCount(duration, cadence) && cadence >= MICROSECOND {
      MultiplesApart(i - 1, cadence);
    }
  }

  /** Multiples of at least a microsecond stay apart when rounded to the microsecond. */
  lemma MultiplesApart(i: nat, cadence: real)
    requires cadence >= MICROSECOND
    ensures Round6(Multiple(i, cadence)) < Round6(Multiple(i + 1, cadence))
  {
    var d := cadence * 1000000.0;
    var x, y := Multiple(i, cadence) * 1000000.0, Multiple(i + 1, cadence) * 1000000.0;
    NextMultiple(i, cadence);
    assert y == x + d;
    if d == 1.0 {
      assert x == i as real * (cadence * 1000000.0);
      RoundInteger(i);
      RoundInteger(i + 1);
    } else {
      assert Round(y) as real >= y - 0.5 > Round(x) as real;
    }
  }

  /** With windows as wide as the cadence, every instant of the audible range falls, up to
      a microsecond, into the evidence window of some anchor. */
  lemma ScheduleCovers(duration: real, cadence: real, pre: real, post: real, t: real) returns (i: nat)
    requires 0.0 < cadence <= pre + post && pre >= 0.0
    requires 0.0 <= t <= (if duration > 0.22 then duration - 0.22 else 0.0) + post
    ensures i < |AnchorSchedule(duration, cadence)|
    ensures var a := AnchorSchedule(duration, cadence)[i]; a - pre - 0.000001 <= t <= a + post + 0.000001
  {
    var anchors := AnchorSchedule(duration, cadence);
    ScheduleShape(duration, cadence);
    i := 0;
    while anchors[i] + post + MICROSECOND < t
      invariant i < |anchors|
      invariant anchors[i] - pre - MICROSECOND <= t
      decreases |anchors| - i
    {
      assert i < |anchors| - 1;
      i := i + 1;
    }
  }

  // ---- the clips

  function Lookback(anchor: real): real { MinReal(REAL_LOOKBACK_SECONDS, MaxReal(0.0, anchor)) }

  function ZerosAndAudio(audio: Samples, zeros: nat, lo: int, hi: int): Samples {
    seq(zeros, _ => 0.0) + PySlice(audio, lo, hi)
  }

  function FixedAnchorClip(audio: Samples, anchor: real): (Samples, real) {
    var realStart := anchor - Lookback(anchor);
    var realEnd := MinReal(|audio| as real / SAMPLE_RATE, anchor + FUTURE_SECONDS);
    var lo, hi := Round(realStart * SAMPLE_RATE), Round(realEnd * SAMPLE_RATE);
    var zeros := Round(MaxReal(0.0, TARGET_ANCHOR_SECONDS - Lookback(anchor)) * SAMPLE_RATE);
    (ZerosAndAudio(audio, zeros, lo, hi), anchor - TARGET_ANCHOR_SECONDS)
  }

  const CLIP_SAMPLES: nat := 29120
  const FUTURE_SAMPLES: nat := 3520

  /** The three rounded positions of a clip, all expressed through the anchor's own sample. */
  lemma ClipPositions(n: nat, anchor: real)
    requires n >= FUTURE_SAMPLES
    requires 0.0 <= anchor <= LatestAnchor(n as real / SAMPLE_RATE) + MICROSECOND / 2.0
    ensures var r := Round(anchor * SAMPLE_RATE);
      && 0 <= r <= n - FUTURE_SAMPLES
      && Round(MinReal(n as real / SAMPLE_RATE, anchor + FUTURE_SECONDS) * SAMPLE_RATE) == r + FUTURE_SAMPLES
      && Round((anchor - Lookback(anchor)) * SAMPLE_RATE) == (if r >= 16000 then r - 16000 else 0)
      && Round(MaxReal(0.0, TARGET_ANCHOR_SECONDS - Lookback(anchor)) * SAMPLE_RATE)
         == (if r >= 16000 then 9600 else 25600 - r)
  {
    hide Round;
    var s := anchor * SAMPLE_RATE;
    var r := Round(s);
    EndPosition(n, s, r);
    assert MinReal(n as real / SAMPLE_RATE, anchor + FUTURE_SECONDS) * SAMPLE_RATE == MinReal(n as real, s + 3520.0);
    RoundInteger(0);
    RoundInteger(9600);
    RoundInteger(16000);
    if anchor >= 1.0 {
      RoundMonotone(16000.0, s);
      RoundShift(s, -16000);
      assert (anchor - Lookback(anchor)) * SAMPLE_RATE == s + (-16000) as real;
    } else {
      RoundMonotone(s, 16000.0);
      RoundShift(s, 25600);
      assert (TARGET_ANCHOR_SECONDS - Lookback(anchor)) * SAMPLE_RATE == 25600 as real - s;
    }
  }

  lemma EndPosition(n: nat, s: real, r: int)
    requires n >= FUTURE_SAMPLES && r == Round(s)
    requires 0.0 <= s <= (n - FUTURE_SAMPLES) as real + 0.008
    ensures 0 <= r <= n - FUTURE_SAMPLES
    ensures Round(MinReal(n as real, s + 3520.0)) == r + FUTURE_SAMPLES
  {
    hide Round;
    RoundInteger(0);
    RoundMonotone(0.0, s);
    if s <= (n - FUTURE_SAMPLES) as real {
      EndInside(n, s);
    } else {
      EndCut(n, s);
    }
  }

  lemma EndInside(n: nat, s: real)
    requires n >= FUTURE_SAMPLES && s <= (n - FUTURE_SAMPLES) as real
    ensures Round(s) <= n - FUTURE_SAMPLES
    ensures Round(MinReal(n as real, s + 3520.0)) == Round(s) + FUTURE_SAMPLES
  {
    hide Round;
    RoundInteger(n - FUTURE_SAMPLES);
    RoundMonotone(s, (n - FUTURE_SAMPLES) as real);
    RoundShift(s, FUTURE_SAMPLES);
  }

  lemma EndCut(n: nat, s: real)
    requires n >= FUTURE_SAMPLES && (n - FUTURE_SAMPLES) as real < s <= (n - FUTURE_SAMPLES) as real + 0.008
    ensures Round(s) == n - FUTURE_SAMPLES
    ensures Round(MinReal(n as real, s + 3520.0)) == n
  {
    hide Round;
    RoundUnique(s, n - FUTURE_SAMPLES);
    RoundInteger(n);
  }

  /** Audio shorter than the future window has one anchor only, so one clip. */
  lemma ShortAudioHasOneAnchor(duration: real, cadence: real)
    requires cadence != 0.0 && LatestAnchor(duration) == 0.0
    ensures AnchorSchedule(duration, cadence) == [0.0]
  {
    assert 0.0 / cadence == 0.0;
    assert AnchorCount(duration, cadence) == 1;
    NextMultiple(0, cadence);
    Round6Zero();
  }

  lemma AnchorsInRange(duration: real, cadence: real, i: nat)
    requires cadence != 0.0 && i < |AnchorSchedule(duration, cadence)|
    ensures 0.0 <= AnchorSchedule(duration, cadence)[i] <= LatestAnchor(duration) + MICROSECOND / 2.0
  {
    if cadence > 0.0 {
      AnchorAt(duration, cadence, i);
      Round6Zero();
      Round6Monotone(0.0, Instant(duration, cadence, i));
    } else {
      NegativeCadence(duration, cadence);
    }
  }

  lemma NegativeQuotient(a: real, b: real)
    requires a > 0.0 && b < 0.0
    ensures a / b < 0.0
  {
    assert (a / b) * b == a;
  }

  /** A negative cadence leaves the anchor at zero only. */
  lemma NegativeCadence(duration: real, cadence: real)
    requires cadence < 0.0
    ensures AnchorSchedule(duration, cadence) == [0.0]
  {
    if LatestAnchor(duration) == 0.0 {
      ShortAudioHasOneAnchor(duration, cadence);
    } else {
      NegativeQuotient(LatestAnchor(duration), cadence);
    }
  }

  /** The clips of one recording all have the same length, so batching them never fails:
      full clips for audio of at least the future window, one shorter clip otherwise. */
  lemma BatchUniform(audio: Samples, cadence: real, i: nat)
    requires cadence != 0.0
    requires i < |AnchorSchedule(|audio| as real / SAMPLE_RATE, cadence)|
    ensures var anchors := AnchorSchedule(|audio| as real / SAMPLE_RATE, cadence);
      && anchors[i] >= 0.0
      && |FixedAnchorClip(audio, anchors[i]).0| == (if |audio| >= 3520 then 29120 else 25600 + |audio|)
      && (|audio| < 3520 ==> |anchors| == 1)
  {
    var duration := |audio| as real / SAMPLE_RATE;
    AnchorsInRange(duration, cadence, i);
    if |audio| >= FUTURE_SAMPLES {
      ClipContents(audio, AnchorSchedule(duration, cadence)[i]);
    } else {
      ShortAudioHasOneAnchor(duration, cadence);
      assert 1.6 * SAMPLE_RATE == 25600 as real;
      RoundInteger(25600);
      RoundInteger(0);
      RoundInteger(|audio|);
      assert MinReal(duration, 0.0 + FUTURE_SECONDS) * SAMPLE_RATE == |audio| as real;
    }
  }

  lemma ClipFrom(audio: Samples, r: nat)
    requires r + 3520 <= |audio|
    ensures var clip := ZerosAndAudio(audio, if r >= 16000 then 9600 else 25600 - r,
                                      if r >= 16000 then r - 16000 else 0, r + 3520);
      && |clip| == 29120
      && (forall k :: 0 <= k < 29120 ==>
            clip[k] == (if k < 9600 || r + k < 25600 then 0.0 else audio[r + k - 25600]))
  {
  }

  /** The clip itself: 1.6 seconds up to the anchor, of which at most the last second is
      real and the rest zero, then the 3520 samples after it. */
  lemma ClipContents(audio: Samples, anchor: real)
    requires |audio| >= 3520
    requires 0.0 <= anchor <= LatestAnchor(|audio| as real / SAMPLE_RATE) + MICROSECOND / 2.0
    ensures var clip, r := FixedAnchorClip(audio, anchor).0, Round(anchor * 16000.0);
      && |clip| == 29120 && 0 <= r <= |audio| - 3520
      && (forall k :: 0 <= k < 29120 ==>
            clip[k] == (if k < 9600 || r + k < 25600 then 0.0 else audio[r + k - 25600]))
    ensures FixedAnchorClip(audio, anchor).1 == anchor - 1.6
  {
    hide Round, Lookback, LatestAnchor, MinReal, MaxReal, PySlice, ZerosAndAudio;
    ClipPositions(|audio|, anchor);
    ClipFrom(audio, Round(anchor * SAMPLE_RATE));
  }
}
