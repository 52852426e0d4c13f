/** Matching detector candidates to true strikes (`_match_candidates`): the same
    closest-first scan over sample distances, plus the count of surplus candidates. */
module StrikeMatching {
  import opened GreedyAssignment
  import opened StrikeDetector
  import opened StrikeCausality

  const TOLERANCE_SAMPLES := 1600

  function Abs(x: int): nat { if x >= 0 then x else -x }

  predicate Near(strike: int, anchor: nat) { Abs(anchor - strike) <= TOLERANCE_SAMPLES }

  function PairOf(strikes: seq<int>, candidates: seq<Candidate>, g: nat, c: nat): Pair
    requires g < |strikes| && c < |candidates|
  {
    Pair(Abs(candidates[c].anchor - strikes[g]) as real, g, c)
  }

  /** A strike and a candidate at most 1600 samples away, with their distance either way. */
  ghost predicate NearPair(p: Pair, strikes: seq<int>, candidates: seq<Candidate>) {
    && p.truth < |strikes| && p.predicted < |candidates|
    && var delta := candidates[p.predicted].anchor - strikes[p.truth];
       -1600 <= delta <= 1600 && p.delta == (if delta < 0 then -delta else delta) as real
  }

  /** The list holds exactly the pairs of a strike and a candidate near it. */
  ghost predicate NearPairs(pairs: seq<Pair>, strikes: seq<int>, candidates: seq<Candidate>) {
    forall p :: p in pairs <==> NearPair(p, strikes, candidates)
  }

  /** How many candidates are near one strike. */
  function NearCount(strike: int, candidates: seq<Candidate>): nat {
    if candidates == [] then 0
    else
      NearCount(strike, candidates[..|candidates| - 1]) +
      if Near(strike, candidates[|candidates| - 1].anchor) then 1 else 0
  }

  function Surplus(near: nat): nat { if near == 0 then 0 else near - 1 }

  function Total(strikes: seq<int>, candidates: seq<Candidate>): nat {
    if strikes == [] then 0
    else Total(strikes[..|strikes| - 1], candidates) + NearCount(strikes[|strikes| - 1], candidates)
  }

  /** Strikes that have some candidate near them. */
  function HeardCount(strikes: seq<int>, candidates: seq<Candidate>): nat {
    if strikes == [] then 0
    else
      HeardCount(strikes[..|strikes| - 1], candidates) +
      if NearCount(strikes[|strikes| - 1], candidates) > 0 then 1 else 0
  }

  method MatchCandidates(strikes: seq<int>, candidates: seq<Candidate>)
    returns (gtToCandidate: Assignment, candidateToGt: Assignment, duplicates: nat, ghost pairs: seq<Pair>)
    ensures NearPairs(pairs, strikes, candidates) && |pairs| == Total(strikes, candidates)
    ensures Stable(gtToCandidate, pairs) && Inverse(gtToCandidate, candidateToGt)
    ensures duplicates + HeardCount(strikes, candidates) == |pairs|
  {
    var near: seq<Pair> := [];
    duplicates := 0;
    for g := 0 to |strikes|
      invariant forall p :: p in near <==>
        p.truth < g && p.predicted < |candidates| && Near(strikes[p.truth], candidates[p.predicted].anchor)
        && p == PairOf(strikes, candidates, p.truth, p.predicted)
      invariant |near| == Total(strikes[..g], candidates)
      invariant duplicates + HeardCount(strikes[..g], candidates) == |near|
    {
      var before := |near|;
      for c := 0 to |candidates|
        invariant forall p :: p in near <==>
          (p.truth < g || (p.truth == g && p.predicted < c)) && p.predicted < |candidates|
          && Near(strikes[p.truth], candidates[p.predicted].anchor)
          && p == PairOf(strikes, candidates, p.truth, p.predicted)
        invariant |near| == before + NearCount(strikes[g], candidates[..c])
      {
        assert candidates[..c + 1][..c] == candidates[..c];
        if Near(strikes[g], candidates[c].anchor) {
          near := near + [PairOf(strikes, candidates, g, c)];
        }
      }
      assert candidates[..|candidates|] == candidates;
      assert strikes[..g + 1][..g] == strikes[..g];
      duplicates := duplicates + Surplus(|near| - before);
    }
    assert strikes[..|strikes|] == strikes;
    gtToCandidate, candidateToGt := Assign(near);
    pairs := near;
  }

  /** A near pair that is not matched lost its strike or its candidate to a pair at least as close. */
  lemma NoBlockingStrike(strikes: seq<int>, candidates: seq<Candidate>, pairs: seq<Pair>, m: Assignment, g: nat, c: nat)
    requires NearPairs(pairs, strikes, candidates) && Stable(m, pairs)
    requires g < |strikes| && c < |candidates| && -1600 <= candidates[c].anchor - strikes[g] <= 1600
    requires !(g in m && m[g] == c)
    ensures exists h, d ::
      h in m && m[h] == d && h < |strikes| && d < |candidates| && (h == g || d == c)
      && Abs(candidates[d].anchor - strikes[h]) <= Abs(candidates[c].anchor - strikes[g])
  {
    var p := PairOf(strikes, candidates, g, c);
    assert NearPair(p, strikes, candidates);
    NoBlockingPair(m, pairs, p);
    var q :| q in pairs && Chosen(m, q) && (p.truth == q.truth || p.predicted == q.predicted) && q.delta <= p.delta;
    assert NearPair(q, strikes, candidates);
  }

  /** No one-to-one matching of strikes and candidates near them is more than twice as large. */
  lemma MatchedAtLeastHalf(strikes: seq<int>, candidates: seq<Candidate>, pairs: seq<Pair>,
                           m: Assignment, n: Assignment)
    requires NearPairs(pairs, strikes, candidates) && Stable(m, pairs)
    requires OneToOne(n)
    requires forall g :: g in n ==>
      g < |strikes| && n[g] < |candidates| && -1600 <= candidates[n[g]].anchor - strikes[g] <= 1600
    ensures |n| <= 2 * |m|
  {
    forall g | g in n ensures Supported(n, pairs, g) {
      assert PairOf(strikes, candidates, g, n[g]) in pairs;
    }
    AtLeastHalf(m, n, pairs);
  }

  /** Among candidates a refractory period apart, the `k`-th near one lies that far into the window. */
  lemma {:induction false} NearSpread(strike: int, candidates: seq<Candidate>)
    requires forall i :: 0 < i < |candidates| ==> candidates[i].anchor - candidates[i - 1].anchor >= TOLERANCE_SAMPLES
    ensures var n := NearCount(strike, candidates);
      n > 0 ==> exists k :: 0 <= k < |candidates| && Near(strike, candidates[k].anchor)
                            && candidates[k].anchor >= strike - TOLERANCE_SAMPLES + (n - 1) * TOLERANCE_SAMPLES
  {
    if candidates != [] {
      var m := |candidates| - 1;
      var front := candidates[..m];
      NearSpread(strike, front);
      if NearCount(strike, front) > 0 {
        var k :| 0 <= k < m && Near(strike, front[k].anchor)
                 && front[k].anchor >= strike - TOLERANCE_SAMPLES + (NearCount(strike, front) - 1) * TOLERANCE_SAMPLES;
        assert candidates[k] == front[k];
        FarApart(candidates, k, m);
      }
      assert Near(strike, candidates[m].anchor) ==> candidates[m].anchor >= strike - TOLERANCE_SAMPLES;
    }
  }

  lemma {:induction false} FarApart(candidates: seq<Candidate>, i: nat, j: nat)
    requires forall k :: 0 < k < |candidates| ==> candidates[k].anchor - candidates[k - 1].anchor >= TOLERANCE_SAMPLES
    requires i < j < |candidates|
    ensures candidates[j].anchor - candidates[i].anchor >= TOLERANCE_SAMPLES
  {
    if i < j - 1 { FarApart(candidates, i, j - 1); }
  }

  /** With the detector's default refractory period no strike has more than three candidates
      near it, so at most two are surplus. */
  lemma AtMostThreeNear(d: Setup, stream: Samples, strike: int)
    requires d.Valid() && d.config.refractory >= 1600
    ensures NearCount(strike, Run(d, stream, START).candidates) <= 3
  {
    AlwaysSound(d, stream);
    NearSpread(strike, Run(d, stream, START).candidates);
  }
}
