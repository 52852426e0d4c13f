/** Greedy one-to-one assignment: scan the candidate pairs from the closest to the
    furthest and keep each pair whose two sides are both still free. Two scripts do
    this, one with onset times and one with sample positions. */
module GreedyAssignment {
  import opened Sorting

  /** A candidate pair, compared as the tuple (delta, truth, predicted). */
  datatype Pair = Pair(delta: real, truth: nat, predicted: nat)

  predicate PairLeq(a: Pair, b: Pair) {
    a.delta < b.delta
    || (a.delta == b.delta && (a.truth < b.truth || (a.truth == b.truth && a.predicted <= b.predicted)))
  }

  predicate PairLess(a: Pair, b: Pair) { PairLeq(a, b) && a != b }

  type Assignment = map<nat, nat>

  predicate Chosen(m: Assignment, c: Pair) { c.truth in m && m[c.truth] == c.predicted }

  predicate Conflict(a: Pair, b: Pair) { a.truth == b.truth || a.predicted == b.predicted }

  ghost predicate OneToOne(m: Assignment) {
    forall t, t' :: t in m && t' in m && m[t] == m[t'] ==> t == t'
  }

  ghost predicate Supported(m: Assignment, candidates: seq<Pair>, t: nat)
    requires t in m
  {
    exists c :: c in candidates && c.truth == t && c.predicted == m[t]
  }

  ghost predicate DrawnFrom(m: Assignment, candidates: seq<Pair>) {
    forall t {:trigger Supported(m, candidates, t)} :: t in m ==> Supported(m, candidates, t)
  }

  ghost predicate Matching(m: Assignment, candidates: seq<Pair>) {
    OneToOne(m) && DrawnFrom(m, candidates)
  }

  /** Some chosen pair that precedes `c` already occupies one of its sides. */
  ghost predicate Blocked(m: Assignment, candidates: seq<Pair>, c: Pair) {
    exists d :: d in candidates && Chosen(m, d) && Conflict(c, d) && PairLess(d, c)
  }

  ghost predicate Settled(m: Assignment, candidates: seq<Pair>, c: Pair) {
    Chosen(m, c) || Blocked(m, candidates, c)
  }

  /** A matching in which every rejected pair lost to a closer (or earlier) chosen one. */
  ghost predicate Stable(m: Assignment, candidates: seq<Pair>) {
    && Matching(m, candidates)
    && (forall c {:trigger Settled(m, candidates, c)} :: c in candidates ==> Settled(m, candidates, c))
  }

  /** The two dictionaries are each other's inverse. */
  ghost predicate Inverse(m: Assignment, inverse: Assignment) {
    && (forall t :: t in m ==> m[t] in inverse && inverse[m[t]] == t)
    && (forall p :: p in inverse ==> inverse[p] in m && m[inverse[p]] == p)
  }

  /** What the scan has established after its first `i` pairs. */
  ghost predicate Scanned(m: Assignment, ordered: seq<Pair>, i: nat)
    requires i <= |ordered|
  {
    && DrawnFrom(m, ordered[..i])
    && (forall k {:trigger Settled(m, ordered, ordered[k])} :: 0 <= k < i ==> Settled(m, ordered, ordered[k]))
  }

  /** The scan itself, over candidates that are already in order. */
  method Scan(ordered: seq<Pair>) returns (assignments: Assignment, inverse: Assignment)
    requires SortedBy(ordered, PairLeq)
    ensures Stable(assignments, ordered)
    ensures Inverse(assignments, inverse)
  {
    var usedTruth: set<nat>, usedPredicted: set<nat> := {}, {};
    assignments, inverse := map[], map[];
    for i := 0 to |ordered|
      invariant usedTruth == assignments.Keys && usedPredicted == inverse.Keys
      invariant Inverse(assignments, inverse)
      invariant Scanned(assignments, ordered, i)
    {
      var c := ordered[i];
      if c.truth in usedTruth || c.predicted in usedPredicted {
        RejectStep(assignments, ordered, i, if c.truth in usedTruth then c.truth else inverse[c.predicted]);
      } else {
        AcceptStep(assignments, ordered, i);
        usedTruth := usedTruth + {c.truth};
        usedPredicted := usedPredicted + {c.predicted};
        assignments := assignments[c.truth := c.predicted];
        inverse := inverse[c.predicted := c.truth];
      }
    }
    ScannedAll(assignments, inverse, ordered);
  }

  lemma RejectStep(m: Assignment, ordered: seq<Pair>, i: nat, t: nat)
    requires i < |ordered| && SortedBy(ordered, PairLeq) && Scanned(m, ordered, i)
    requires t in m && (ordered[i].truth == t || ordered[i].predicted == m[t])
    ensures Scanned(m, ordered, i + 1)
  {
    DrawnFromGrows(m, m, ordered[..i], ordered[i]);
    RejectedIsBlocked(m, ordered, i, t);
    assert ordered[..i + 1] == ordered[..i] + [ordered[i]];
  }

  lemma AcceptStep(m: Assignment, ordered: seq<Pair>, i: nat)
    requires i < |ordered| && Scanned(m, ordered, i) && ordered[i].truth !in m
    ensures Scanned(m[ordered[i].truth := ordered[i].predicted], ordered, i + 1)
  {
    var m' := m[ordered[i].truth := ordered[i].predicted];
    forall k | 0 <= k < i ensures Settled(m', ordered, ordered[k]) {
      KeepsBlocked(m, m', ordered, ordered[k]);
    }
    DrawnFromGrows(m, m', ordered[..i], ordered[i]);
    assert ordered[..i + 1] == ordered[..i] + [ordered[i]];
  }

  lemma ScannedAll(m: Assignment, inverse: Assignment, ordered: seq<Pair>)
    requires Scanned(m, ordered, |ordered|) && Inverse(m, inverse)
    ensures Stable(m, ordered)
  {
    assert ordered[..|ordered|] == ordered;
    forall t, t' | t in m && t' in m && m[t] == m[t'] ensures t == t' {
      assert inverse[m[t]] == t && inverse[m[t']] == t';
    }
    forall c | c in ordered ensures Settled(m, ordered, c) {
      var k :| 0 <= k < |ordered| && ordered[k] == c;
    }
  }

  lemma RejectedIsBlocked(m: Assignment, ordered: seq<Pair>, i: nat, t: nat)
    requires i < |ordered| && SortedBy(ordered, PairLeq) && DrawnFrom(m, ordered[..i])
    requires t in m && (ordered[i].truth == t || ordered[i].predicted == m[t])
    ensures Settled(m, ordered, ordered[i])
  {
    assert Supported(m, ordered[..i], t);
    var d :| d in ordered[..i] && d.truth == t && d.predicted == m[t];
    assert d in ordered && PairLeq(d, ordered[i]);
  }

  lemma KeepsBlocked(m: Assignment, m': Assignment, candidates: seq<Pair>, c: Pair)
    requires Settled(m, candidates, c)
    requires forall t :: t in m ==> t in m' && m'[t] == m[t]
    ensures Settled(m', candidates, c)
  {
    if !Chosen(m, c) {
      var d :| d in candidates && Chosen(m, d) && Conflict(c, d) && PairLess(d, c);
      assert Chosen(m', d);
    }
  }

  lemma DrawnFromGrows(m: Assignment, m': Assignment, seen: seq<Pair>, c: Pair)
    requires DrawnFrom(m, seen) && (m' == m || m' == m[c.truth := c.predicted])
    ensures DrawnFrom(m', seen + [c])
  {
    forall t | t in m' ensures Supported(m', seen + [c], t) {
      if t in m && m'[t] == m[t] {
        assert Supported(m, seen, t);
        var d :| d in seen && d.truth == t && d.predicted == m[t];
        assert d in seen + [c];
      } else {
        assert c in seen + [c];
      }
    }
  }

  /** The whole algorithm: order the candidates, then scan. */
  method Assign(candidates: seq<Pair>) returns (assignments: Assignment, inverse: Assignment)
    ensures Stable(assignments, candidates)
    ensures Inverse(assignments, inverse)
  {
    SortMembers(candidates, PairLeq);
    assignments, inverse := Scan(Sort(candidates, PairLeq));
    StableReorder(assignments, Sort(candidates, PairLeq), candidates);
  }

  lemma StableReorder(m: Assignment, a: seq<Pair>, b: seq<Pair>)
    requires Stable(m, a)
    requires forall c :: c in a <==> c in b
    ensures Stable(m, b)
  {
    forall c | c in b ensures Settled(m, b, c) {
      if !Chosen(m, c) {
        assert Settled(m, a, c);
        var d :| d in a && Chosen(m, d) && Conflict(c, d) && PairLess(d, c);
        assert d in b;
      }
    }
    forall t | t in m ensures Supported(m, b, t) {
      assert Supported(m, a, t);
      var c :| c in a && c.truth == t && c.predicted == m[t];
      assert c in b;
    }
  }

  // ---- stability pins the assignment down

  /** Two stable matchings agree on every pair, by induction along the order. */
  lemma {:induction false} StableAgree(m: Assignment, n: Assignment, ordered: seq<Pair>, i: nat)
    requires SortedBy(ordered, PairLeq) && Stable(m, ordered) && Stable(n, ordered)
    requires i < |ordered|
    ensures Chosen(m, ordered[i]) <==> Chosen(n, ordered[i])
    decreases i, 1
  {
    if Chosen(m, ordered[i]) && !Chosen(n, ordered[i]) {
      StableAgreeOneWay(n, m, ordered, i);
    } else if Chosen(n, ordered[i]) && !Chosen(m, ordered[i]) {
      StableAgreeOneWay(m, n, ordered, i);
    }
  }

  lemma {:induction false} StableAgreeOneWay(m: Assignment, n: Assignment, ordered: seq<Pair>, i: nat)
    requires SortedBy(ordered, PairLeq) && Stable(m, ordered) && Stable(n, ordered)
    requires i < |ordered|
    requires !Chosen(m, ordered[i])
    ensures !Chosen(n, ordered[i])
    decreases i, 0
  {
    var c := ordered[i];
    assert Settled(m, ordered, c);
    var d :| d in ordered && Chosen(m, d) && Conflict(c, d) && PairLess(d, c);
    var j :| 0 <= j < |ordered| && ordered[j] == d;
    assert i < j ==> PairLeq(c, d);
    StableAgree(m, n, ordered, j);
    assert Chosen(n, d);
  }

  /** The closest-first assignment is the only stable matching of its candidates. */
  lemma StableUnique(m: Assignment, n: Assignment, candidates: seq<Pair>)
    requires Stable(m, candidates) && Stable(n, candidates)
    ensures m == n
  {
    var ordered := Sort(candidates, PairLeq);
    SortMembers(candidates, PairLeq);
    StableReorder(m, candidates, ordered);
    StableReorder(n, candidates, ordered);
    forall i | 0 <= i < |ordered| ensures Chosen(m, ordered[i]) <==> Chosen(n, ordered[i]) {
      StableAgree(m, n, ordered, i);
    }
    forall t | t in m ensures t in n && n[t] == m[t] {
      assert Supported(m, ordered, t);
      var c :| c in ordered && c.truth == t && c.predicted == m[t];
      assert Chosen(m, c) && Chosen(n, c);
    }
    forall t | t in n ensures t in m {
      assert Supported(n, ordered, t);
      var c :| c in ordered && c.truth == t && c.predicted == n[t];
      assert Chosen(n, c) && Chosen(m, c);
    }
  }

  // ---- how good the assignment is

  /** A rejected pair lost one of its sides to a chosen pair that is closer, or equally close and
      earlier in the lists. */
  lemma NoBlockingPair(m: Assignment, candidates: seq<Pair>, c: Pair)
    requires Stable(m, candidates) && c in candidates && !Chosen(m, c)
    ensures c.truth in m || c.predicted in m.Values
    ensures exists d ::
      d in candidates && Chosen(m, d) && (c.truth == d.truth || c.predicted == d.predicted)
      && (d.delta < c.delta
          || (d.delta == c.delta && (d.truth < c.truth || (d.truth == c.truth && d.predicted < c.predicted))))
  {
    assert Settled(m, candidates, c);
    var d :| d in candidates && Chosen(m, d) && Conflict(c, d) && PairLess(d, c);
    assert m[d.truth] == d.predicted;
  }

  /** Any matching of the same candidates is at most twice as large. */
  lemma AtLeastHalf(m: Assignment, n: Assignment, candidates: seq<Pair>)
    requires Stable(m, candidates) && Matching(n, candidates)
    ensures |n| <= 2 * |m|
  {
    var byTruth := set t | t in n && t in m;
    var byPredicted := set t | t in n && n[t] in m.Values;
    forall t | t in n ensures t in byTruth + byPredicted {
      assert Supported(n, candidates, t);
      var c :| c in candidates && c.truth == t && c.predicted == n[t];
      if !Chosen(m, c) { NoBlockingPair(m, candidates, c); }
    }
    assert n.Keys <= byTruth + byPredicted;
    SubsetSize(n.Keys, byTruth + byPredicted);
    SubsetSize(byTruth, m.Keys);
    ImageSize(n, byPredicted, m.Values);
    ValuesSize(m);
    assert |byTruth + byPredicted| <= |byTruth| + |byPredicted|;
  }

  lemma {:induction false} SubsetSize(a: set<nat>, b: set<nat>)
    requires a <= b
    ensures |a| <= |b|
  {
    if a != {} {
      var x :| x in a;
      SubsetSize(a - {x}, b - {x});
    }
  }

  lemma {:induction false} ImageSize(n: Assignment, keys: set<nat>, image: set<nat>)
    requires OneToOne(n) && keys <= n.Keys
    requires forall t :: t in keys ==> n[t] in image
    ensures |keys| <= |image|
    decreases |keys|
  {
    if keys != {} {
      var t :| t in keys;
      ImageSize(n, keys - {t}, image - {n[t]});
    }
  }

  lemma {:induction false} ValuesSize(m: Assignment)
    ensures |m.Values| <= |m|
    decreases |m|
  {
    if m != map[] {
      var t :| t in m;
      var rest := m - {t};
      assert m.Keys == rest.Keys + {t};
      assert m.Values <= rest.Values + {m[t]} by {
        forall v | v in m.Values ensures v in rest.Values + {m[t]} {
          var k :| k in m && m[k] == v;
          assert k != t ==> rest[k] == v;
        }
      }
      ValuesSize(rest);
      SubsetSize(m.Values, rest.Values + {m[t]});
    }
  }
}
