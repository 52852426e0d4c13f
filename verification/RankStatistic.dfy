/** The tie-averaged rank statistic that scores how well a feature separates
    strikes from background (`_auroc`), against the Mann-Whitney pair count. */
module RankStatistic {
  import opened Wrappers
  import opened Sorting

  datatype Labelled = Labelled(value: real, positive: bool)

  predicate ByValue(a: Labelled, b: Labelled) { a.value <= b.value }

  /** Twice the credit of one positive against one negative: a win is worth one, a tie one half. */
  function PairCredit(p: real, n: real): nat {
    if p > n then 2 else if p == n then 1 else 0
  }

  function CreditOver(p: real, negatives: seq<real>): nat {
    if negatives == [] then 0 else PairCredit(p, negatives[0]) + CreditOver(p, negatives[1..])
  }

  /** Twice the Mann-Whitney statistic: every positive against every negative. */
  function MannWhitney(positives: seq<real>, negatives: seq<real>): nat {
    if positives == [] then 0
    else CreditOver(positives[0], negatives) + MannWhitney(positives[1..], negatives)
  }

  // ---- the pair count is additive in both arguments and blind to order

  lemma {:induction false} CreditOverConcat(p: real, a: seq<real>, b: seq<real>)
    ensures CreditOver(p, a + b) == CreditOver(p, a) + CreditOver(p, b)
  {
    if a == [] {
      assert a + b == b;
    } else {
      assert (a + b)[1..] == a[1..] + b;
      CreditOverConcat(p, a[1..], b);
    }
  }

  lemma {:induction false} MannWhitneyConcatLeft(a: seq<real>, b: seq<real>, n: seq<real>)
    ensures MannWhitney(a + b, n) == MannWhitney(a, n) + MannWhitney(b, n)
  {
    if a == [] {
      assert a + b == b;
    } else {
      assert (a + b)[1..] == a[1..] + b;
      MannWhitneyConcatLeft(a[1..], b, n);
    }
  }

  lemma {:induction false} MannWhitneyConcatRight(p: seq<real>, a: seq<real>, b: seq<real>)
    ensures MannWhitney(p, a + b) == MannWhitney(p, a) + MannWhitney(p, b)
  {
    if p != [] {
      CreditOverConcat(p[0], a, b);
      MannWhitneyConcatRight(p[1..], a, b);
    }
  }

  /** A product as repeated addition, which keeps every proof about pair counts linear. */
  ghost function Times(count: nat, each: nat): nat {
    if count == 0 then 0 else each + Times(count - 1, each)
  }

  lemma {:induction false} TimesIsProduct(count: nat, each: nat)
    ensures Times(count, each) == count * each
  {
    if count > 0 { TimesIsProduct(count - 1, each); }
  }

  lemma {:induction false} CreditOverUniform(p: real, n: seq<real>, credit: nat)
    requires forall y :: y in n ==> PairCredit(p, y) == credit
    ensures CreditOver(p, n) == Times(|n|, credit)
  {
    if n != [] {
      CreditOverUniform(p, n[1..], credit);
    }
  }

  /** When all pairs earn the same credit, the total is a product. */
  lemma {:induction false} MannWhitneyUniform(p: seq<real>, n: seq<real>, credit: nat)
    requires forall x, y :: x in p && y in n ==> PairCredit(x, y) == credit
    ensures MannWhitney(p, n) == Times(|p|, Times(|n|, credit))
  {
    if p != [] {
      CreditOverUniform(p[0], n, credit);
      MannWhitneyUniform(p[1..], n, credit);
    }
  }

  lemma {:induction false} CreditOverReorder(p: real, a: seq<real>, b: seq<real>)
    requires multiset(a) == multiset(b)
    ensures CreditOver(p, a) == CreditOver(p, b)
    decreases |a|
  {
    if a == [] {
      assert |multiset(b)| == 0;
    } else {
      var k := IndexOf(b, a[0], a);
      RemoveHead(a, b, k);
      CreditOverReorder(p, a[1..], b[..k] + b[k + 1..]);
      CreditOverConcat(p, b[..k], b[k + 1..]);
      CreditOverConcat(p, b[..k], [b[k]] + b[k + 1..]);
      assert b == b[..k] + ([b[k]] + b[k + 1..]);
    }
  }

  lemma {:induction false} MannWhitneyReorder(p: seq<real>, q: seq<real>, a: seq<real>, b: seq<real>)
    requires multiset(p) == multiset(q) && multiset(a) == multiset(b)
    ensures MannWhitney(p, a) == MannWhitney(q, b)
    decreases |p|
  {
    if p == [] {
      assert |multiset(q)| == 0;
    } else {
      var k := IndexOf(q, p[0], p);
      RemoveHead(p, q, k);
      CreditOverReorder(p[0], a, b);
      MannWhitneyReorder(p[1..], q[..k] + q[k + 1..], a, b);
      MannWhitneyConcatLeft(q[..k], q[k + 1..], b);
      MannWhitneyConcatLeft(q[..k], [q[k]] + q[k + 1..], b);
      assert q == q[..k] + ([q[k]] + q[k + 1..]);
    }
  }

  lemma IndexOf(s: seq<real>, x: real, like: seq<real>) returns (k: nat)
    requires multiset(s) == multiset(like) && x in like
    ensures k < |s| && s[k] == x
  {
    assert x in multiset(s);
    k :| 0 <= k < |s| && s[k] == x;
  }

  lemma RemoveHead(a: seq<real>, b: seq<real>, k: nat)
    requires a != [] && k < |b| && b[k] == a[0] && multiset(a) == multiset(b)
    ensures multiset(a[1..]) == multiset(b[..k] + b[k + 1..])
  {
    assert a == [a[0]] + a[1..];
    assert b == b[..k] + [b[k]] + b[k + 1..];
    assert multiset(a) == multiset{a[0]} + multiset(a[1..]);
    assert multiset(b) == multiset{b[k]} + multiset(b[..k] + b[k + 1..]);
    assert multiset(a[1..]) == multiset(a) - multiset{a[0]};
  }

  // ---- what the statistic means: a probability, reversed by swapping the classes

  lemma {:induction false} CreditComplement(p: real, n: seq<real>)
    ensures CreditOver(p, n) + MannWhitney(n, [p]) == 2 * |n|
  {
    if n != [] {
      CreditComplement(p, n[1..]);
      assert CreditOver(n[0], [p]) == PairCredit(n[0], p) + CreditOver(n[0], []);
    }
  }

  lemma {:induction false} MannWhitneySwap(p: seq<real>, n: seq<real>)
    ensures MannWhitney(p, n) + MannWhitney(n, p) == Times(|p|, 2 * |n|)
  {
    if p == [] {
      MannWhitneyUniform(n, [], 0);
      TimesIsProduct(|n|, 0);
    } else {
      CreditComplement(p[0], n);
      MannWhitneyConcatRight(n, [p[0]], p[1..]);
      assert p == [p[0]] + p[1..];
      MannWhitneySwap(p[1..], n);
    }
  }

  /** Only the order of the values matters: any strictly increasing rescaling keeps the statistic. */
  lemma {:induction false} MannWhitneyRescale(f: real -> real, p: seq<real>, n: seq<real>)
    requires forall x, y :: x < y ==> f(x) < f(y)
    ensures MannWhitney(Map(f, p), Map(f, n)) == MannWhitney(p, n)
  {
    if p != [] {
      assert Map(f, p)[1..] == Map(f, p[1..]);
      CreditRescale(f, p[0], n);
      MannWhitneyRescale(f, p[1..], n);
    }
  }

  lemma {:induction false} CreditRescale(f: real -> real, x: real, n: seq<real>)
    requires forall x, y :: x < y ==> f(x) < f(y)
    ensures CreditOver(f(x), Map(f, n)) == CreditOver(x, n)
  {
    if n != [] {
      assert Map(f, n)[1..] == Map(f, n[1..]);
      CreditRescale(f, x, n[1..]);
    }
  }

  function Map(f: real -> real, s: seq<real>): seq<real> {
    seq(|s|, i requires 0 <= i < |s| => f(s[i]))
  }

  // ---- the two classes inside a labelled list

  function Values(s: seq<Labelled>, positive: bool): seq<real> {
    if s == [] then []
    else (if s[0].positive == positive then [s[0].value] else []) + Values(s[1..], positive)
  }

  lemma {:induction false} ValuesConcat(a: seq<Labelled>, b: seq<Labelled>, positive: bool)
    ensures Values(a + b, positive) == Values(a, positive) + Values(b, positive)
  {
    if a == [] {
      assert a + b == b;
    } else {
      var first := if a[0].positive == positive then [a[0].value] else [];
      assert (a + b)[1..] == a[1..] + b;
      ValuesConcat(a[1..], b, positive);
      assert Values(a, positive) == first + Values(a[1..], positive);
      assert Values(a + b, positive) == first + Values(a[1..] + b, positive);
    }
  }

  lemma {:induction false} ValuesMembers(s: seq<Labelled>, positive: bool)
    ensures forall v :: v in Values(s, positive) <==> Labelled(v, positive) in s
  {
    if s != [] { ValuesMembers(s[1..], positive); }
  }

  lemma {:induction false} ValuesSizes(s: seq<Labelled>)
    ensures |Values(s, true)| + |Values(s, false)| == |s|
  {
    if s != [] { ValuesSizes(s[1..]); }
  }

  lemma {:induction false} ValuesCount(s: seq<Labelled>, positive: bool, v: real)
    ensures multiset(Values(s, positive))[v] == multiset(s)[Labelled(v, positive)]
  {
    if s != [] {
      assert s == [s[0]] + s[1..];
      ValuesCount(s[1..], positive, v);
    }
  }

  lemma ValuesReorder(s: seq<Labelled>, t: seq<Labelled>, positive: bool)
    requires multiset(s) == multiset(t)
    ensures multiset(Values(s, positive)) == multiset(Values(t, positive))
  {
    forall v ensures multiset(Values(s, positive))[v] == multiset(Values(t, positive))[v] {
      ValuesCount(s, positive, v);
      ValuesCount(t, positive, v);
    }
  }

  function Label(s: seq<real>, positive: bool): seq<Labelled> {
    seq(|s|, i requires 0 <= i < |s| => Labelled(s[i], positive))
  }

  lemma {:induction false} ValuesOfLabel(s: seq<real>, positive: bool, asked: bool)
    ensures Values(Label(s, positive), asked) == if asked == positive then s else []
  {
    if s != [] {
      assert Label(s, positive)[1..] == Label(s[1..], positive);
      ValuesOfLabel(s[1..], positive, asked);
    }
  }

  /** Twice the pair count among the labelled values of one list. */
  function Score(s: seq<Labelled>): nat { MannWhitney(Values(s, true), Values(s, false)) }

  predicate Above(block: seq<Labelled>, before: seq<Labelled>) {
    forall a, b :: a in before && b in block ==> a.value < b.value
  }

  predicate Tied(block: seq<Labelled>) {
    forall a, b :: a in block && b in block ==> a.value == b.value
  }

  lemma CreditOfAbove(before: seq<Labelled>, block: seq<Labelled>)
    requires Above(block, before)
    ensures MannWhitney(Values(before, true), Values(block, false)) == 0
    ensures MannWhitney(Values(block, true), Values(before, false))
        == Times(|Values(block, true)|, 2 * |Values(before, false)|)
  {
    hide Values, MannWhitney, Times;
    ValuesMembers(before, true);
    ValuesMembers(before, false);
    ValuesMembers(block, true);
    ValuesMembers(block, false);
    forall x, y | x in Values(before, true) && y in Values(block, false) ensures PairCredit(x, y) == 0 {
      assert Labelled(x, true).value < Labelled(y, false).value;
    }
    MannWhitneyUniform(Values(before, true), Values(block, false), 0);
    TimesIsProduct(|Values(block, false)|, 0);
    TimesIsProduct(|Values(before, true)|, 0);
    forall x, y | x in Values(block, true) && y in Values(before, false) ensures PairCredit(x, y) == 2 {
      assert Labelled(y, false).value < Labelled(x, true).value;
    }
    MannWhitneyUniform(Values(block, true), Values(before, false), 2);
    TimesIsProduct(|Values(before, false)|, 2);
  }

  lemma CreditOfTied(block: seq<Labelled>)
    requires Tied(block)
    ensures Score(block) == Times(|Values(block, true)|, |Values(block, false)|)
  {
    ValuesMembers(block, true);
    ValuesMembers(block, false);
    forall x, y | x in Values(block, true) && y in Values(block, false) ensures PairCredit(x, y) == 1 {
      assert Labelled(x, true).value == Labelled(y, false).value;
    }
    MannWhitneyUniform(Values(block, true), Values(block, false), 1);
    TimesIsProduct(|Values(block, false)|, 1);
  }

  lemma ScoreConcat(a: seq<Labelled>, b: seq<Labelled>)
    ensures Score(a + b) == Score(a) + Score(b)
              + MannWhitney(Values(a, true), Values(b, false)) + MannWhitney(Values(b, true), Values(a, false))
  {
    ValuesConcat(a, b, true);
    ValuesConcat(a, b, false);
    MannWhitneyConcatLeft(Values(a, true), Values(b, true), Values(a, false) + Values(b, false));
    MannWhitneyConcatRight(Values(a, true), Values(a, false), Values(b, false));
    MannWhitneyConcatRight(Values(b, true), Values(a, false), Values(b, false));
  }

  /** Appending one block of tied values above everything before it: each of its
      positives beats every earlier negative and ties with the negatives of the block. */
  lemma ScoreOfTieBlock(before: seq<Labelled>, block: seq<Labelled>)
    requires Above(block, before) && Tied(block)
    ensures Score(before + block) ==
            Score(before) + Times(|Values(block, true)|, 2 * |Values(before, false)| + |Values(block, false)|)
  {
    hide *;
    ScoreConcat(before, block);
    CreditOfAbove(before, block);
    CreditOfTied(block);
    TimesAdds(|Values(block, true)|, 2 * |Values(before, false)|, |Values(block, false)|);
  }

  lemma {:induction false} TimesAdds(count: nat, a: nat, b: nat)
    ensures Times(count, a + b) == Times(count, a) + Times(count, b)
  {
    if count > 0 { TimesAdds(count - 1, a, b); }
  }

  /** The rank sum of one tie block, in the shape the loop accumulates it. */
  lemma RankSumStep(p: nat, n: nat, p': nat, n': nat, i: nat, size: nat)
    requires i == p + n && size == p' + n'
    ensures Times(p', 2 * n + n') + Times(p + p', p + p' + 1) == Times(p', 2 * (i + 1) + size - 1) + Times(p, p + 1)
  {
    TimesIsProduct(p', 2 * n + n');
    TimesIsProduct(p + p', p + p' + 1);
    TimesIsProduct(p', 2 * (i + 1) + size - 1);
    TimesIsProduct(p, p + 1);
    RankSumArithmetic(p, n, p', n');
  }

  lemma RankSumArithmetic(p: int, n: int, p': int, n': int)
    ensures p' * (2 * n + n') + (p + p') * (p + p' + 1) == p' * (2 * (p + n + 1) + p' + n' - 1) + p * (p + 1)
  {
  }

  lemma SortedBlocks(s: seq<Labelled>, i: nat, j: nat)
    requires SortedBy(s, ByValue) && i < j <= |s|
    requires forall k :: i <= k < j ==> s[k].value == s[i].value
    requires 0 < i ==> s[i - 1].value < s[i].value
    ensures Above(s[i..j], s[..i]) && Tied(s[i..j])
  {
    forall a, b | a in s[..i] && b in s[i..j] ensures a.value < b.value {
      var k :| 0 <= k < i && s[k] == a;
      assert k < i - 1 ==> ByValue(s[k], s[i - 1]);
    }
  }

  /** Twice the rank sum of the positives of a sorted list, by the loop's accounting. */
  ghost function TwiceRankSum(s: seq<Labelled>): nat {
    var p := |Values(s, true)|;
    Score(s) + Times(p, p + 1)
  }

  lemma TieBlockAccounted(s: seq<Labelled>, i: nat, j: nat)
    requires SortedBy(s, ByValue) && i < j <= |s|
    requires forall k :: i <= k < j ==> s[k].value == s[i].value
    requires 0 < i ==> s[i - 1].value < s[i].value
    ensures TwiceRankSum(s[..j]) == Times(|Values(s[i..j], true)|, 2 * (i + 1) + (j - i) - 1) + TwiceRankSum(s[..i])
  {
    hide TwiceRankSum, Values, Times, Above, Tied;
    SortedBlocks(s, i, j);
    assert s[..j] == s[..i] + s[i..j];
    BlockAccounted(s[..i], s[i..j]);
  }

  lemma BlockAccounted(before: seq<Labelled>, block: seq<Labelled>)
    requires Above(block, before) && Tied(block) && block != []
    ensures TwiceRankSum(before + block) ==
            Times(|Values(block, true)|, 2 * (|before| + 1) + |block| - 1) + TwiceRankSum(before)
  {
    hide *;
    ScoreOfTieBlock(before, block);
    ValuesConcat(before, block, true);
    ValuesSizes(before);
    ValuesSizes(block);
    RankSumStep(|Values(before, true)|, |Values(before, false)|,
                |Values(block, true)|, |Values(block, false)|, |before|, |block|);
    TwiceRankSumIs(before);
    TwiceRankSumIs(before + block);
  }

  lemma TwiceRankSumIs(s: seq<Labelled>)
    ensures TwiceRankSum(s) == Score(s) + Times(|Values(s, true)|, |Values(s, true)| + 1)
  {
  }

  lemma NothingRanked()
    ensures TwiceRankSum([]) == 0
  {
  }

  /** A tie block of `size` values from `rank` on: each of its positives gets the average rank. */
  function BlockRankSum(positivesInTie: nat, rank: nat, size: nat): real {
    var averageRank := (rank + rank + size - 1) as real / 2.0;
    Weighted(positivesInTie, averageRank)
  }

  lemma BlockRankSumIs(positivesInTie: nat, rank: nat, size: nat)
    requires size > 0
    ensures 2.0 * BlockRankSum(positivesInTie, rank, size) == Times(positivesInTie, 2 * rank + size - 1) as real
  {
    hide Weighted;
    HalfProduct(positivesInTie, 2 * rank + size - 1, (rank + rank + size - 1) as real / 2.0);
  }

  function Weighted(count: nat, each: real): real { count as real * each }

  lemma WeightedStep(count: nat, each: real)
    ensures Weighted(count + 1, each) == Weighted(count, each) + each
    ensures Weighted(0, each) == 0.0
  {
  }

  lemma {:induction false} HalfProduct(count: nat, twice: nat, half: real)
    requires 2.0 * half == twice as real
    ensures 2.0 * Weighted(count, half) == Times(count, twice) as real
  {
    hide Weighted;
    WeightedStep(0, half);
    if count > 0 {
      HalfProduct(count - 1, twice, half);
      WeightedStep(count - 1, half);
    }
  }

  /** The tie-block loop. */
  method RankSum(values: seq<Labelled>) returns (rankSumPositive: real)
    requires SortedBy(values, ByValue)
    ensures 2.0 * rankSumPositive == TwiceRankSum(values) as real
  {
    hide TwiceRankSum, BlockRankSum, Values, Times;
    NothingRanked();
    assert values[..0] == [];
    rankSumPositive := 0.0;
    var rank := 1;
    var index := 0;
    while index < |values|
      invariant 0 <= index <= |values| && rank == index + 1
      invariant 0 < index < |values| ==> values[index - 1].value < values[index].value
      invariant 2.0 * rankSumPositive == TwiceRankSum(values[..index]) as real
    {
      var end := index + 1;
      while end < |values| && values[end].value == values[index].value
        invariant index < end <= |values|
        invariant forall k :: index <= k < end ==> values[k].value == values[index].value
      {
        end := end + 1;
      }
      var positivesInTie := |Values(values[index..end], true)|;
      TieBlockAccounted(values, index, end);
      BlockRankSumIs(positivesInTie, rank, end - index);
      assert end < |values| ==> ByValue(values[end - 1], values[end]);
      rankSumPositive := rankSumPositive + BlockRankSum(positivesInTie, rank, end - index);
      rank := rank + (end - index);
      index := end;
    }
    assert values[..index] == values;
  }

  /** The value `_auroc` rounds: exactly the Mann-Whitney statistic over the number of pairs. */
  method Auroc(positives: seq<real>, negatives: seq<real>) returns (r: Option<real>)
    ensures r.None? <==> positives == [] || negatives == []
    ensures r.Some? ==> r.value == Ratio(MannWhitney(positives, negatives), 2 * |positives| * |negatives|)
  {
    if positives == [] || negatives == [] {
      return None;
    }
    hide Sort, Values, MannWhitney, Times, Ratio;
    var values := Sort(Label(positives, true) + Label(negatives, false), ByValue);
    var rankSumPositive := RankSum(values);
    ScoreOfSort(positives, negatives);
    var positiveCount, negativeCount := |positives|, |negatives|;
    RatioOfRanks(rankSumPositive, positiveCount, negativeCount, MannWhitney(positives, negatives));
    var auc := (rankSumPositive - (positiveCount * (positiveCount + 1)) as real / 2.0)
               / (positiveCount * negativeCount) as real;
    return Some(auc);
  }

  ghost function Ratio(part: nat, whole: nat): real {
    if whole == 0 then 0.0 else part as real / whole as real
  }

  lemma RatioOfRanks(rankSum: real, p: nat, n: nat, score: nat)
    requires p > 0 && n > 0 && 2.0 * rankSum == (score + Times(p, p + 1)) as real
    ensures p * n > 0
    ensures (rankSum - (p * (p + 1)) as real / 2.0) / (p * n) as real == Ratio(score, 2 * p * n)
  {
    TimesIsProduct(p, p + 1);
    HalfRatio(rankSum - (p * (p + 1)) as real / 2.0, score, p * n);
  }

  lemma HalfRatio(half: real, twice: nat, pairs: nat)
    requires 2.0 * half == twice as real && pairs > 0
    ensures half / pairs as real == twice as real / (2 * pairs) as real
  {
    var x, y := half / pairs as real, twice as real / (2 * pairs) as real;
    assert (2 * pairs) as real == 2.0 * pairs as real;
    assert x * pairs as real == half;
    assert y * (2.0 * pairs as real) == twice as real;
  }

  lemma ValuesOfBoth(positives: seq<real>, negatives: seq<real>)
    ensures Values(Label(positives, true) + Label(negatives, false), true) == positives
    ensures Values(Label(positives, true) + Label(negatives, false), false) == negatives
  {
    ValuesConcat(Label(positives, true), Label(negatives, false), true);
    ValuesConcat(Label(positives, true), Label(negatives, false), false);
    ValuesOfLabel(positives, true, true);
    ValuesOfLabel(positives, true, false);
    ValuesOfLabel(negatives, false, true);
    ValuesOfLabel(negatives, false, false);
  }

  lemma ScoreOfSort(positives: seq<real>, negatives: seq<real>)
    ensures var values := Sort(Label(positives, true) + Label(negatives, false), ByValue);
      Score(values) == MannWhitney(positives, negatives) && |Values(values, true)| == |positives|
  {
    var labelled := Label(positives, true) + Label(negatives, false);
    var values := Sort(labelled, ByValue);
    ValuesOfBoth(positives, negatives);
    ValuesReorder(values, labelled, true);
    ValuesReorder(values, labelled, false);
    MannWhitneyReorder(Values(values, true), positives, Values(values, false), negatives);
    assert |multiset(Values(values, true))| == |multiset(positives)|;
  }

  lemma ProductPositive(p: nat, n: nat)
    requires p > 0 && n > 0
    ensures 2 * p * n > 0 && 2 * n * p == 2 * p * n == p * (2 * n)
  {
  }

  lemma Complement(a: nat, b: nat, total: nat)
    requires total > 0 && a + b == total
    ensures 0.0 <= Ratio(a, total) <= 1.0
    ensures Ratio(a, total) + Ratio(b, total) == 1.0
  {
    var x, y := a as real / total as real, b as real / total as real;
    assert x * total as real == a as real && y * total as real == b as real;
    assert (x + y) * total as real == x * total as real + y * total as real;
  }

  /** The value of `Auroc` is a probability, and exchanging the two classes gives its complement. */
  lemma AurocComplement(positives: seq<real>, negatives: seq<real>)
    requires positives != [] && negatives != []
    ensures var value := Ratio(MannWhitney(positives, negatives), 2 * |positives| * |negatives|);
      && 0.0 <= value <= 1.0
      && Ratio(MannWhitney(negatives, positives), 2 * |negatives| * |positives|) == 1.0 - value
  {
    hide MannWhitney, Times, Ratio;
    MannWhitneySwap(positives, negatives);
    TimesIsProduct(|positives|, 2 * |negatives|);
    ProductPositive(|positives|, |negatives|);
    Complement(MannWhitney(positives, negatives), MannWhitney(negatives, positives), 2 * |positives| * |negatives|);
  }
}
