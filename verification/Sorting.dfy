/** The list operations of Python that every script leans on: `sorted`, and
    `dict.fromkeys` as order-preserving removal of duplicates. */
module Sorting {

  ghost predicate TotalPreorder<T(!new)>(leq: (T, T) -> bool) {
    && (forall a, b :: leq(a, b) || leq(b, a))
    && (forall a, b, c :: leq(a, b) && leq(b, c) ==> leq(a, c))
  }

  ghost predicate SortedBy<T>(s: seq<T>, leq: (T, T) -> bool) {
    forall i, j :: 0 <= i < j < |s| ==> leq(s[i], s[j])
  }

  function Insert<T>(x: T, s: seq<T>, leq: (T, T) -> bool): (r: seq<T>)
    ensures multiset(r) == multiset{x} + multiset(s)
  {
    if s == [] || leq(x, s[0]) then
      [x] + s
    else
      assert s == [s[0]] + s[1..];
      [s[0]] + Insert(x, s[1..], leq)
  }

  lemma {:induction false} InsertSorted<T(!new)>(x: T, s: seq<T>, leq: (T, T) -> bool)
    requires TotalPreorder(leq) && SortedBy(s, leq)
    ensures SortedBy(Insert(x, s, leq), leq)
  {
    if s == [] || leq(x, s[0]) {
    } else {
      var rest := Insert(x, s[1..], leq);
      InsertSorted(x, s[1..], leq);
      forall j | 0 <= j < |rest| ensures leq(s[0], rest[j]) {
        assert rest[j] in multiset(rest);
      }
    }
  }

  /** Python's stable `sorted`. */
  function Sort<T(!new)>(s: seq<T>, leq: (T, T) -> bool): (r: seq<T>)
    requires TotalPreorder(leq)
    ensures SortedBy(r, leq)
    ensures multiset(r) == multiset(s)
  {
    if s == [] then
      []
    else
      assert s == [s[0]] + s[1..];
      InsertSorted(s[0], Sort(s[1..], leq), leq);
      Insert(s[0], Sort(s[1..], leq), leq)
  }

  lemma SortMembers<T(!new)>(s: seq<T>, leq: (T, T) -> bool)
    requires TotalPreorder(leq)
    ensures |Sort(s, leq)| == |s|
    ensures forall x :: x in Sort(s, leq) <==> x in s
  {
    var r := Sort(s, leq);
    assert |multiset(r)| == |r| && |multiset(s)| == |s|;
    forall x ensures x in r <==> x in s {
      assert x in multiset(r) <==> x in multiset(s);
    }
  }

  /** Sorting an already sorted list changes nothing. */
  lemma {:induction false} SortSorted<T(!new)>(s: seq<T>, leq: (T, T) -> bool)
    requires TotalPreorder(leq) && SortedBy(s, leq)
    ensures Sort(s, leq) == s
  {
    if s != [] {
      SortSorted(s[1..], leq);
      assert s == [s[0]] + s[1..];
    }
  }

  /** Elements that are equal for `leq` stand in the order `earlier`. */
  ghost predicate StableBy<T>(s: seq<T>, leq: (T, T) -> bool, earlier: (T, T) -> bool) {
    forall i, j :: 0 <= i < j < |s| && leq(s[j], s[i]) ==> earlier(s[i], s[j])
  }

  lemma {:induction false} InsertStable<T(!new)>(x: T, s: seq<T>, leq: (T, T) -> bool, earlier: (T, T) -> bool)
    requires StableBy(s, leq, earlier) && forall k :: 0 <= k < |s| ==> earlier(x, s[k])
    ensures StableBy(Insert(x, s, leq), leq, earlier)
  {
    if s != [] && !leq(x, s[0]) {
      var rest := Insert(x, s[1..], leq);
      InsertStable(x, s[1..], leq, earlier);
      forall j | 0 <= j < |rest| && leq(rest[j], s[0]) ensures earlier(s[0], rest[j]) {
        assert rest[j] in multiset(rest);
        assert rest[j] in s[1..];
      }
    }
  }

  /** Sorting keeps elements that are equal for `leq` in the order in which they stood. */
  lemma {:induction false} SortStable<T(!new)>(s: seq<T>, leq: (T, T) -> bool, earlier: (T, T) -> bool)
    requires TotalPreorder(leq) && forall i, j :: 0 <= i < j < |s| ==> earlier(s[i], s[j])
    ensures StableBy(Sort(s, leq), leq, earlier)
  {
    if s != [] {
      var rest := Sort(s[1..], leq);
      SortStable(s[1..], leq, earlier);
      forall k | 0 <= k < |rest| ensures earlier(s[0], rest[k]) {
        assert rest[k] in multiset(rest);
        assert rest[k] in s[1..];
      }
      InsertStable(s[0], rest, leq, earlier);
    }
  }

  /** `tuple(dict.fromkeys(s))`: the first occurrence of every element, in order. */
  function Dedup<T(==, !new)>(s: seq<T>): (r: seq<T>)
    ensures forall x :: x in r <==> x in s
    ensures forall i, j :: 0 <= i < j < |r| ==> r[i] != r[j]
  {
    if s == [] then []
    else
      var front := Dedup(s[..|s| - 1]);
      var last := s[|s| - 1];
      assert s == s[..|s| - 1] + [last];
      if last in front then front else front + [last]
  }

  /** `r` lists elements of `s` in the order in which they first occur there. */
  ghost predicate FirstOccurrences<T(!new)>(r: seq<T>, s: seq<T>) {
    forall a, b, k :: 0 <= a < b < |r| && 0 <= k < |s| && s[k] == r[b] ==> r[a] in s[..k]
  }

  lemma {:induction false} DedupInOrder<T(!new)>(s: seq<T>)
    ensures FirstOccurrences(Dedup(s), s)
  {
    if s != [] {
      var n, r := |s| - 1, Dedup(s);
      var front := Dedup(s[..n]);
      DedupInOrder(s[..n]);
      forall a, b, k | 0 <= a < b < |r| && 0 <= k < |s| && s[k] == r[b] ensures r[a] in s[..k] {
        assert s[..n][..k] == s[..k];
        assert front[a] in front;
        if k < n { assert s[..n][k] in s[..n]; }
      }
    }
  }

  lemma DedupAppend<T(!new)>(s: seq<T>, x: T)
    ensures Dedup(s + [x]) == if x in s then Dedup(s) else Dedup(s) + [x]
  {
    assert (s + [x])[..|s|] == s;
  }

  lemma {:induction false} DedupDistinct<T(!new)>(s: seq<T>)
    requires forall i, j :: 0 <= i < j < |s| ==> s[i] != s[j]
    ensures Dedup(s) == s
  {
    if s != [] {
      DedupDistinct(s[..|s| - 1]);
      assert s == s[..|s| - 1] + [s[|s| - 1]];
    }
  }

  /** `[x for x in s if x in others]`, or `not in`. */
  function Keep<T(==, !new)>(s: seq<T>, others: seq<T>, present: bool): (r: seq<T>)
    ensures forall x :: x in r <==> x in s && (x in others) == present
  {
    if s == [] then []
    else
      var last := s[|s| - 1];
      assert s == s[..|s| - 1] + [last];
      Keep(s[..|s| - 1], others, present) + if (last in others) == present then [last] else []
  }

  /** `r` consists of the elements of `s` at the increasing positions `at`, which are those of
      all elements that are among the others, or of all that are not. */
  ghost predicate PickedAt<T>(r: seq<T>, s: seq<T>, at: seq<nat>, others: seq<T>, present: bool) {
    && |at| == |r|
    && (forall i, j :: 0 <= i < j < |at| ==> at[i] < at[j])
    && (forall i :: 0 <= i < |at| ==> at[i] < |s| && r[i] == s[at[i]])
    && (forall k: nat :: k < |s| ==> (k in at <==> (s[k] in others) == present))
  }

  ghost predicate Picked<T>(r: seq<T>, s: seq<T>, others: seq<T>, present: bool) {
    exists at :: PickedAt(r, s, at, others, present)
  }

  lemma {:induction false} KeepPicks<T(!new)>(s: seq<T>, others: seq<T>, present: bool)
    ensures Picked(Keep(s, others, present), s, others, present)
  {
    if s == [] {
      assert PickedAt([], s, [], others, present);
    } else {
      var n := |s| - 1;
      KeepPicks(s[..n], others, present);
      var r := Keep(s[..n], others, present);
      var at :| PickedAt(r, s[..n], at, others, present);
      PickNext(s, r, at, others, present);
    }
  }

  lemma PickNext<T(!new)>(s: seq<T>, r: seq<T>, at: seq<nat>, others: seq<T>, present: bool)
    requires s != [] && PickedAt(r, s[..|s| - 1], at, others, present)
    ensures Picked(r + if (s[|s| - 1] in others) == present then [s[|s| - 1]] else [], s, others, present)
  {
    var n: nat := |s| - 1;
    var keep := (s[n] in others) == present;
    var at' := at + if keep then [n] else [];
    forall k: nat | k < |s| ensures k in at' <==> (s[k] in others) == present {
      assert k < n ==> s[..n][k] == s[k];
      assert n !in at;
    }
    assert PickedAt(r + if keep then [s[n]] else [], s, at', others, present);
  }

  lemma HasMember<T>(s: seq<T>)
    requires s != []
    ensures exists x :: x in s
  {
    var first := s[0];
    assert first in s;
  }
}
