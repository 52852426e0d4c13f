/** Scoring predicted strike groups inside truth windows: closest-first assignment,
    then every leftover prediction is charged to its nearest truth group. */
module TruthWindows {
  import opened Sequences
  import opened Wrappers
  import opened Sorting
  import opened StrikeGroups
  import opened GreedyAssignment

  /** One scoring run: the truth groups, the predicted groups and the onset tolerance. */
  datatype Scoring = Scoring(truth: seq<StrikeGroup>, predicted: seq<StrikeGroup>, tolerance: real)

  function Distance(a: StrikeGroup, b: StrikeGroup): real {
    if a.seconds >= b.seconds then a.seconds - b.seconds else b.seconds - a.seconds
  }

  /** The pair of truth group `t` and predicted group `p`, with its onset error. */
  function PairOf(s: Scoring, t: nat, p: nat): Pair
    requires t < |s.truth| && p < |s.predicted|
  {
    Pair(Distance(s.predicted[p], s.truth[t]), t, p)
  }

  predicate InReach(s: Scoring, t: nat, p: nat) {
    t < |s.truth| && p < |s.predicted| && Distance(s.predicted[p], s.truth[t]) <= s.tolerance
  }

  /** The candidate list holds exactly the pairs within tolerance. */
  ghost predicate AllCandidates(candidates: seq<Pair>, s: Scoring) {
    forall c :: c in candidates <==>
      InReach(s, c.truth, c.predicted) && c == PairOf(s, c.truth, c.predicted)
  }

  method Candidates(s: Scoring) returns (candidates: seq<Pair>)
    ensures AllCandidates(candidates, s)
  {
    candidates := [];
    for t := 0 to |s.truth|
      invariant forall c :: c in candidates <==>
        c.truth < t && InReach(s, c.truth, c.predicted)
        && c == PairOf(s, c.truth, c.predicted)
    {
      for p := 0 to |s.predicted|
        invariant forall c :: c in candidates <==>
          (c.truth < t || (c.truth == t && c.predicted < p))
          && InReach(s, c.truth, c.predicted)
          && c == PairOf(s, c.truth, c.predicted)
      {
        if Distance(s.predicted[p], s.truth[t]) <= s.tolerance {
          candidates := candidates + [PairOf(s, t, p)];
        }
      }
    }
  }

  /** The closest-first assignment of a scoring run: stable over all pairs within tolerance. */
  ghost predicate ClosestFirst(s: Scoring, m: Assignment) {
    exists candidates :: AllCandidates(candidates, s) && Stable(m, candidates)
  }

  method AssignPredictedGroups(s: Scoring) returns (assignments: Assignment)
    ensures ClosestFirst(s, assignments)
  {
    var pairs := Candidates(s);
    var inverse;
    assignments, inverse := Assign(pairs);
  }

  /** Nothing else than the closest-first assignment is stable. */
  lemma ClosestFirstUnique(s: Scoring, m: Assignment, n: Assignment)
    requires ClosestFirst(s, m) && ClosestFirst(s, n)
    ensures m == n
  {
    var a :| AllCandidates(a, s) && Stable(m, a);
    var b :| AllCandidates(b, s) && Stable(n, b);
    SameCandidates(s, a, b);
    StableReorder(n, b, a);
    StableUnique(m, n, a);
  }

  lemma SameCandidates(s: Scoring, a: seq<Pair>, b: seq<Pair>)
    requires AllCandidates(a, s) && AllCandidates(b, s)
    ensures forall c :: c in a <==> c in b
  {
  }

  /** A rejected pair within tolerance lost one of its sides to a pair at least as close. */
  lemma NoBlockingWindow(s: Scoring, m: Assignment, t: nat, p: nat)
    requires ClosestFirst(s, m) && InReach(s, t, p) && !(t in m && m[t] == p)
    ensures || (t in m && InReach(s, t, m[t])
                && Distance(s.predicted[m[t]], s.truth[t]) <= Distance(s.predicted[p], s.truth[t]))
            || (exists u :: u in m && m[u] == p && InReach(s, u, p)
                            && Distance(s.predicted[p], s.truth[u]) <= Distance(s.predicted[p], s.truth[t]))
  {
    var candidates :| AllCandidates(candidates, s) && Stable(m, candidates);
    NoBlockingPair(m, candidates, PairOf(s, t, p));
  }

  /** No one-to-one assignment within tolerance is more than twice as large. */
  lemma ClosestFirstAtLeastHalf(s: Scoring, m: Assignment, n: Assignment)
    requires ClosestFirst(s, m)
    requires OneToOne(n) && forall t :: t in n ==> InReach(s, t, n[t])
    ensures |n| <= 2 * |m|
  {
    var candidates :| AllCandidates(candidates, s) && Stable(m, candidates);
    forall t | t in n ensures Supported(n, candidates, t) {
      assert PairOf(s, t, n[t]) in candidates;
    }
    AtLeastHalf(m, n, candidates);
  }

  // ---- leftovers

  /** `t` minimises (distance, index) among the truth groups within tolerance of `p`. */
  ghost predicate NearestWindow(s: Scoring, p: nat, t: nat) {
    && InReach(s, t, p)
    && (forall u: nat :: InReach(s, u, p) ==>
          var here, there := Distance(s.predicted[p], s.truth[t]), Distance(s.predicted[p], s.truth[u]);
          here < there || (here == there && t <= u))
  }

  method FindNearest(s: Scoring, p: nat) returns (r: Option<nat>)
    requires p < |s.predicted|
    ensures r.None? ==> forall u :: !InReach(s, u, p)
    ensures r.Some? ==> NearestWindow(s, p, r.value)
  {
    r := None;
    for t := 0 to |s.truth|
      invariant r.None? ==> forall u :: 0 <= u < t ==> !InReach(s, u, p)
      invariant r.Some? ==> r.value < t && InReach(s, r.value, p)
      invariant r.Some? ==> forall u :: 0 <= u < t && InReach(s, u, p) ==>
        PairLeq(PairOf(s, r.value, p), PairOf(s, u, p))
    {
      var start, end := s.truth[t].seconds - s.tolerance, s.truth[t].seconds + s.tolerance;
      if start <= s.predicted[p].seconds <= end {
        if r.None? || !PairLeq(PairOf(s, r.value, p), PairOf(s, t, p)) {
          r := Some(t);
        }
      }
    }
  }

  /** Prediction `p` was not assigned and `t` is its nearest window. */
  ghost predicate LeftoverOf(s: Scoring, taken: set<nat>, t: nat, p: nat) {
    p < |s.predicted| && p !in taken && NearestWindow(s, p, t)
  }

  type Leftovers = map<nat, seq<nat>>

  function LeftoversAt(m: Leftovers, t: nat): seq<nat> { if t in m then m[t] else [] }

  ghost predicate LeftoversBelow(byTruth: Leftovers, s: Scoring, taken: set<nat>, n: nat) {
    && (forall t: nat, p: nat :: p in LeftoversAt(byTruth, t) <==> p < n && LeftoverOf(s, taken, t, p))
    && (forall t :: t in byTruth ==> byTruth[t] != [] && StrictlyIncreasing(byTruth[t]))
  }

  method UnassignedPredictions(s: Scoring, taken: set<nat>) returns (byTruth: Leftovers)
    ensures LeftoversBelow(byTruth, s, taken, |s.predicted|)
  {
    byTruth := map[];
    for p := 0 to |s.predicted|
      invariant LeftoversBelow(byTruth, s, taken, p)
    {
      if p !in taken {
        var nearest := FindNearest(s, p);
        if nearest.Some? {
          AddLeftover(byTruth, s, taken, p, nearest.value);
          byTruth := byTruth[nearest.value := LeftoversAt(byTruth, nearest.value) + [p]];
        }
      }
    }
  }

  lemma AddLeftover(byTruth: Leftovers, s: Scoring, taken: set<nat>, p: nat, t: nat)
    requires LeftoversBelow(byTruth, s, taken, p) && LeftoverOf(s, taken, t, p)
    ensures LeftoversBelow(byTruth[t := LeftoversAt(byTruth, t) + [p]], s, taken, p + 1)
  {
    var here := LeftoversAt(byTruth, t);
    var byTruth' := byTruth[t := here + [p]];
    NearestUnique(s, p, t);
    forall i | 0 <= i < |here| ensures here[i] < p {
      assert here[i] in LeftoversAt(byTruth, t);
    }
    forall u: nat, q: nat ensures q in LeftoversAt(byTruth', u) <==> q < p + 1 && LeftoverOf(s, taken, u, q) {
      assert q in LeftoversAt(byTruth, u) <==> q < p && LeftoverOf(s, taken, u, q);
      assert u == t ==> (q in here + [p] <==> q in here || q == p);
    }
  }

  lemma NearestUnique(s: Scoring, p: nat, t: nat)
    requires NearestWindow(s, p, t)
    ensures forall u :: NearestWindow(s, p, u) ==> u == t
  {
  }

  // ---- the evaluation of every truth group

  datatype Evaluation = Evaluation(
    prediction: Option<nat>,
    leftovers: seq<nat>,
    predictedPitches: seq<string>,
    matchedTruth: seq<string>,
    missingTruth: seq<string>,
    extraPredicted: seq<string>)

  function PitchLists(predicted: seq<StrikeGroup>, indices: seq<nat>): (lists: seq<seq<string>>)
    requires forall i :: 0 <= i < |indices| ==> indices[i] < |predicted|
    ensures |lists| == |indices|
    ensures forall i :: 0 <= i < |lists| ==> lists[i] == predicted[indices[i]].pitches
  {
    seq(|indices|, i requires 0 <= i < |indices| => predicted[indices[i]].pitches)
  }

  /** Pitch `x` stands at position `j` of the `i`-th charged group. */
  ghost predicate HeardAt(predicted: seq<StrikeGroup>, charged: seq<nat>, i: nat, j: nat, x: string) {
    && i < |charged| && charged[i] < |predicted|
    && j < |predicted[charged[i]].pitches| && predicted[charged[i]].pitches[j] == x
  }

  ghost predicate Heard(predicted: seq<StrikeGroup>, charged: seq<nat>, x: string) {
    exists i: nat, j: nat :: HeardAt(predicted, charged, i, j, x)
  }

  ghost predicate HeardBefore(predicted: seq<StrikeGroup>, charged: seq<nat>, i: nat, j: nat, x: string) {
    exists k: nat, l: nat :: (k < i || (k == i && l < j)) && HeardAt(predicted, charged, k, l, x)
  }

  /** The pitches heard in the charged groups, each once, in order of first appearance. */
  ghost predicate HeardPitches(predicted: seq<StrikeGroup>, charged: seq<nat>, pitches: seq<string>) {
    && (forall a, b :: 0 <= a < b < |pitches| ==> pitches[a] != pitches[b])
    && (forall x :: x in pitches <==> Heard(predicted, charged, x))
    && (forall a, b, i: nat, j: nat ::
          0 <= a < b < |pitches| && HeardAt(predicted, charged, i, j, pitches[b]) ==>
            HeardBefore(predicted, charged, i, j, pitches[a]))
  }

  lemma DedupHeard(predicted: seq<StrikeGroup>, charged: seq<nat>)
    requires forall i :: 0 <= i < |charged| ==> charged[i] < |predicted|
    ensures HeardPitches(predicted, charged, Dedup(Flatten(PitchLists(predicted, charged))))
  {
    hide Dedup, Flatten, PitchLists;
    var lists := PitchLists(predicted, charged);
    var all := Flatten(lists);
    var pitches := Dedup(all);
    DedupInOrder(all);
    forall x ensures x in pitches <==> Heard(predicted, charged, x) {
      if x in all {
        var k :| 0 <= k < |all| && all[k] == x;
        var i, j := FlattenLocate(lists, k);
        assert HeardAt(predicted, charged, i, j, x);
      }
      if Heard(predicted, charged, x) {
        var i: nat, j: nat :| HeardAt(predicted, charged, i, j, x);
        FlattenAt(lists, i, j);
      }
    }
    forall a, b, i: nat, j: nat | 0 <= a < b < |pitches| && HeardAt(predicted, charged, i, j, pitches[b])
      ensures HeardBefore(predicted, charged, i, j, pitches[a])
    {
      FlattenAt(lists, i, j);
      var k := |Flatten(lists[..i])| + j;
      assert pitches[a] in all[..k];
      var l :| 0 <= l < k && all[l] == pitches[a];
      EarlierInLists(predicted, charged, i, j, l);
    }
  }

  lemma EarlierInLists(predicted: seq<StrikeGroup>, charged: seq<nat>, i: nat, j: nat, l: nat)
    requires forall k :: 0 <= k < |charged| ==> charged[k] < |predicted|
    requires i < |charged| && j < |predicted[charged[i]].pitches|
    requires var lists := PitchLists(predicted, charged); l < |Flatten(lists[..i])| + j && l < |Flatten(lists)|
    ensures HeardBefore(predicted, charged, i, j, Flatten(PitchLists(predicted, charged))[l])
  {
    hide Flatten, PitchLists;
    var lists := PitchLists(predicted, charged);
    var k, m := FlattenLocate(lists, l);
    if i < k { FlattenGrows(lists, i, k); }
    if k < i { FlattenGrows(lists, k, i); }
    assert HeardAt(predicted, charged, k, m, Flatten(lists)[l]);
  }

  /** Every prediction charged to one truth group: its assigned one, then its leftovers. */
  function Charged(e: Evaluation): seq<nat> {
    (if e.prediction.Some? then [e.prediction.value] else []) + e.leftovers
  }

  ghost predicate EvaluatesTo(s: Scoring, assignments: Assignment, byTruth: Leftovers, t: nat, e: Evaluation)
    requires t < |s.truth|
  {
    && e.prediction == (if t in assignments then Some(assignments[t]) else None)
    && e.leftovers == LeftoversAt(byTruth, t)
    && (forall i :: 0 <= i < |Charged(e)| ==> Charged(e)[i] < |s.predicted|)
    && HeardPitches(s.predicted, Charged(e), e.predictedPitches)
    && Picked(e.matchedTruth, s.truth[t].pitches, e.predictedPitches, true)
    && Picked(e.missingTruth, s.truth[t].pitches, e.predictedPitches, false)
    && Picked(e.extraPredicted, e.predictedPitches, s.truth[t].pitches, false)
  }

  method EvaluateTranscription(s: Scoring)
    returns (evaluations: seq<Evaluation>, ghost assignments: Assignment, ghost byTruth: Leftovers)
    ensures ClosestFirst(s, assignments) && ChargesLeftovers(byTruth, s, assignments)
    ensures |evaluations| == |s.truth|
    ensures Evaluated(evaluations, s, assignments, byTruth)
    ensures Distinct(AllCharged(evaluations))
    ensures forall p: nat :: p in AllCharged(evaluations) <==> HasWindow(s, p)
  {
    hide ClosestFirst, ChargesLeftovers, LeftoversBelow, Dedup, Keep, PitchLists, HeardPitches, Picked, AllCharged,
      HasWindow;
    var m := AssignPredictedGroups(s);
    var leftovers := UnassignedPredictions(s, m.Values);
    LeftoversAreCharged(leftovers, s, m);
    assignments, byTruth := m, leftovers;
    evaluations := [];
    for t := 0 to |s.truth|
      invariant |evaluations| == t
      invariant forall u :: 0 <= u < t ==> EvaluatesTo(s, m, leftovers, u, evaluations[u])
    {
      var prediction := if t in m then Some(m[t]) else None;
      var here := LeftoversAt(leftovers, t);
      var charged := (if prediction.Some? then [prediction.value] else []) + here;
      ChargesInRange(m, leftovers, s, t);
      var pitches := Dedup(Flatten(PitchLists(s.predicted, charged)));
      DedupHeard(s.predicted, charged);
      KeepPicks(s.truth[t].pitches, pitches, true);
      KeepPicks(s.truth[t].pitches, pitches, false);
      KeepPicks(pitches, s.truth[t].pitches, false);
      var e := Evaluation(prediction, here, pitches,
                          Keep(s.truth[t].pitches, pitches, true),
                          Keep(s.truth[t].pitches, pitches, false),
                          Keep(pitches, s.truth[t].pitches, false));
      assert Charged(e) == charged;
      evaluations := evaluations + [e];
    }
    PredictionsConserved(evaluations, s, m, leftovers);
  }

  ghost predicate ChargesLeftovers(byTruth: Leftovers, s: Scoring, m: Assignment) {
    LeftoversBelow(byTruth, s, m.Values, |s.predicted|)
  }

  lemma LeftoversAreCharged(byTruth: Leftovers, s: Scoring, m: Assignment)
    requires LeftoversBelow(byTruth, s, m.Values, |s.predicted|)
    ensures ChargesLeftovers(byTruth, s, m)
  {
  }

  lemma ChargesInRange(m: Assignment, byTruth: Leftovers, s: Scoring, t: nat)
    requires ClosestFirst(s, m) && ChargesLeftovers(byTruth, s, m)
    ensures t in m ==> m[t] < |s.predicted|
    ensures forall i :: 0 <= i < |LeftoversAt(byTruth, t)| ==> LeftoversAt(byTruth, t)[i] < |s.predicted|
  {
    AssignedInReach(m, s, t);
    forall i | 0 <= i < |LeftoversAt(byTruth, t)| ensures LeftoversAt(byTruth, t)[i] < |s.predicted| {
      assert LeftoversAt(byTruth, t)[i] in LeftoversAt(byTruth, t);
    }
  }

  lemma AssignedInReach(m: Assignment, s: Scoring, t: nat)
    requires ClosestFirst(s, m)
    ensures t in m ==> InReach(s, t, m[t])
  {
    if t in m {
      var candidates :| AllCandidates(candidates, s) && Stable(m, candidates);
      assert Supported(m, candidates, t);
    }
  }

  // ---- conservation: each prediction is charged once, or is out of every window

  /** Prediction `p` is charged to truth group `t`, as its assigned prediction or as a leftover. */
  ghost predicate ChargedTo(m: Assignment, byTruth: Leftovers, t: nat, p: nat) {
    (t in m && m[t] == p) || p in LeftoversAt(byTruth, t)
  }

  ghost predicate ChargedBefore(m: Assignment, byTruth: Leftovers, n: nat, p: nat) {
    exists t: nat :: t < n && ChargedTo(m, byTruth, t, p)
  }

  /** Some truth window contains prediction `p`. */
  ghost predicate HasWindow(s: Scoring, p: nat) {
    exists t :: InReach(s, t, p)
  }

  lemma ChargedIff(s: Scoring,
                   m: Assignment, byTruth: Leftovers, p: nat)
    requires ClosestFirst(s, m)
    requires ChargesLeftovers(byTruth, s, m)
    ensures ChargedBefore(m, byTruth, |s.truth|, p) <==> HasWindow(s, p)
  {
    if ChargedBefore(m, byTruth, |s.truth|, p) {
      var t: nat :| t < |s.truth| && ChargedTo(m, byTruth, t, p);
      AssignedInReach(m, s, t);
      assert p in LeftoversAt(byTruth, t) ==> LeftoverOf(s, m.Values, t, p);
      assert InReach(s, t, p);
    }
    if HasWindow(s, p) {
      var u :| InReach(s, u, p);
      if p in m.Values {
        var t :| t in m && m[t] == p;
        AssignedInReach(m, s, t);
        assert ChargedTo(m, byTruth, t, p);
      } else {
        var t := NearestExists(s, p, u);
        assert LeftoverOf(s, m.Values, t, p);
        assert ChargedTo(m, byTruth, t, p);
      }
    }
  }

  lemma {:induction false} NearestExists(s: Scoring, p: nat, u: nat) returns (t: nat)
    requires InReach(s, u, p)
    ensures NearestWindow(s, p, t)
  {
    t := u;
    var n := 0;
    while n < |s.truth|
      invariant n <= |s.truth| && InReach(s, t, p)
      invariant forall v :: 0 <= v < n && InReach(s, v, p) ==>
        PairLeq(PairOf(s, t, p), PairOf(s, v, p))
    {
      if InReach(s, n, p) && PairLeq(PairOf(s, n, p), PairOf(s, t, p)) {
        t := n;
      }
      n := n + 1;
    }
  }

  lemma ChargedOnce(s: Scoring,
                    m: Assignment, byTruth: Leftovers, p: nat, t: nat, u: nat)
    requires ClosestFirst(s, m)
    requires ChargesLeftovers(byTruth, s, m)
    requires ChargedTo(m, byTruth, t, p) && ChargedTo(m, byTruth, u, p)
    ensures t == u
    ensures !(t in m && m[t] == p && p in LeftoversAt(byTruth, t))
  {
    if p in LeftoversAt(byTruth, t) {
      assert LeftoverOf(s, m.Values, t, p);
      NearestUnique(s, p, t);
    }
    if p in LeftoversAt(byTruth, u) {
      assert LeftoverOf(s, m.Values, u, p);
    }
  }

  function AllCharged(evaluations: seq<Evaluation>): seq<nat> {
    if evaluations == [] then []
    else AllCharged(evaluations[..|evaluations| - 1]) + Charged(evaluations[|evaluations| - 1])
  }

  ghost predicate Evaluated(evaluations: seq<Evaluation>, s: Scoring, m: Assignment, byTruth: Leftovers) {
    && |evaluations| <= |s.truth|
    && (forall t :: 0 <= t < |evaluations| ==> EvaluatesTo(s, m, byTruth, t, evaluations[t]))
  }

  /** The charges of the first evaluations: no prediction twice, and exactly those charged there. */
  lemma {:induction false} AllChargedDistinct(evaluations: seq<Evaluation>, s: Scoring,
      m: Assignment, byTruth: Leftovers)
    requires ClosestFirst(s, m)
    requires ChargesLeftovers(byTruth, s, m)
    requires Evaluated(evaluations, s, m, byTruth)
    ensures Distinct(AllCharged(evaluations))
    ensures forall p: nat :: p in AllCharged(evaluations) <==> ChargedBefore(m, byTruth, |evaluations|, p)
  {
    hide ClosestFirst, ChargesLeftovers, EvaluatesTo, ChargedTo, Charged;
    if evaluations != [] {
      var n := |evaluations| - 1;
      var front, here := AllCharged(evaluations[..n]), Charged(evaluations[n]);
      AllChargedDistinct(evaluations[..n], s, m, byTruth);
      assert EvaluatesTo(s, m, byTruth, n, evaluations[n]);
      ChargedHere(s, m, byTruth, n, evaluations[n]);
      forall p | p in front && p in here ensures false {
        var t: nat :| t < n && ChargedTo(m, byTruth, t, p);
        ChargedOnce(s, m, byTruth, p, t, n);
      }
      DistinctConcat(front, here);
      forall p: nat ensures p in AllCharged(evaluations) <==> ChargedBefore(m, byTruth, n + 1, p) {
        ChargedBeforeNext(m, byTruth, n, p);
        assert p in here <==> ChargedTo(m, byTruth, n, p);
      }
    }
  }

  lemma ChargedBeforeNext(m: Assignment, byTruth: Leftovers, n: nat, p: nat)
    ensures ChargedBefore(m, byTruth, n + 1, p) <==> ChargedBefore(m, byTruth, n, p) || ChargedTo(m, byTruth, n, p)
  {
  }

  ghost predicate Distinct(s: seq<nat>) {
    forall i, j :: 0 <= i < j < |s| ==> s[i] != s[j]
  }

  lemma DistinctConcat(a: seq<nat>, b: seq<nat>)
    requires Distinct(a) && Distinct(b) && forall x :: x in a ==> x !in b
    ensures Distinct(a + b)
  {
    forall i, j | 0 <= i < j < |a + b| ensures (a + b)[i] != (a + b)[j] {
      if i < |a| <= j { assert a[i] in a && b[j - |a|] in b; }
    }
  }

  lemma LeftoversUnassigned(s: Scoring, m: Assignment, byTruth: Leftovers, t: nat)
    requires ChargesLeftovers(byTruth, s, m)
    ensures forall p :: p in LeftoversAt(byTruth, t) ==> p !in m.Values
  {
    forall p | p in LeftoversAt(byTruth, t) ensures p !in m.Values {
      assert LeftoverOf(s, m.Values, t, p);
    }
  }

  lemma ChargedHere(s: Scoring,
      m: Assignment, byTruth: Leftovers, t: nat, e: Evaluation)
    requires ClosestFirst(s, m)
    requires ChargesLeftovers(byTruth, s, m)
    requires t < |s.truth| && EvaluatesTo(s, m, byTruth, t, e)
    ensures Distinct(Charged(e))
    ensures forall p :: p in Charged(e) <==> ChargedTo(m, byTruth, t, p)
  {
    if e.prediction.Some? {
      var p := e.prediction.value;
      assert m[t] == p;
      LeftoversUnassigned(s, m, byTruth, t);
      assert p in m.Values;
      DistinctConcat([p], e.leftovers);
    }
  }

  /** Conservation: the charges of all evaluations name each prediction that lies in some window
      once, and no other. */
  lemma PredictionsConserved(evaluations: seq<Evaluation>, s: Scoring,
      m: Assignment, byTruth: Leftovers)
    requires ClosestFirst(s, m)
    requires ChargesLeftovers(byTruth, s, m)
    requires Evaluated(evaluations, s, m, byTruth) && |evaluations| == |s.truth|
    ensures Distinct(AllCharged(evaluations))
    ensures forall p: nat :: p in AllCharged(evaluations) <==> HasWindow(s, p)
  {
    AllChargedDistinct(evaluations, s, m, byTruth);
    forall p: nat ensures p in AllCharged(evaluations) <==> HasWindow(s, p) {
      ChargedIff(s, m, byTruth, p);
    }
  }

  /** A truth group that receives a leftover also has an assigned prediction, at least as close. */
  lemma LeftoverNeverBeatsAssigned(s: Scoring,
      m: Assignment, t: nat, p: nat)
    requires ClosestFirst(s, m)
    requires LeftoverOf(s, m.Values, t, p)
    ensures t in m && m[t] < |s.predicted|
    ensures PairLess(PairOf(s, t, m[t]), PairOf(s, t, p))
    ensures Distance(s.predicted[m[t]], s.truth[t]) <= Distance(s.predicted[p], s.truth[t])
  {
    var candidates :| AllCandidates(candidates, s) && Stable(m, candidates);
    var c := PairOf(s, t, p);
    assert c in candidates;
    assert Settled(m, candidates, c);
    var d :| d in candidates && Chosen(m, d) && Conflict(c, d) && PairLess(d, c);
    assert m[d.truth] == d.predicted;
  }
}
