/** Lists of lists: chunks of samples, blocks of notes. */
module Sequences {

  function Flatten<T>(lists: seq<seq<T>>): seq<T> {
    if lists == [] then [] else Flatten(lists[..|lists| - 1]) + lists[|lists| - 1]
  }

  lemma FlattenNothing<T>()
    ensures Flatten<T>([]) == []
  {
  }

  lemma FlattenAppend<T>(lists: seq<seq<T>>, last: seq<T>)
    ensures Flatten(lists + [last]) == Flatten(lists) + last
  {
    assert (lists + [last])[..|lists|] == lists;
  }

  /** The same list, taken apart from the front. */
  lemma {:induction false} FlattenFirst<T>(lists: seq<seq<T>>)
    requires lists != []
    ensures Flatten(lists) == lists[0] + Flatten(lists[1..])
  {
    hide Flatten;
    var n := |lists| - 1;
    var last := lists[n];
    assert lists == lists[..n] + [last];
    FlattenAppend(lists[..n], last);
    FlattenNothing<T>();
    if n == 0 {
      assert lists[..0] == [] && lists[1..] == [];
    } else {
      FlattenFirst(lists[..n]);
      assert lists[..n][1..] + [last] == lists[1..];
      FlattenAppend(lists[..n][1..], last);
      assert lists[0] + (Flatten(lists[..n][1..]) + last) == (lists[0] + Flatten(lists[..n][1..])) + last;
    }
  }

  /** Element `j` of list `i` comes after all elements of the lists before. */
  lemma {:induction false} FlattenAt<T>(lists: seq<seq<T>>, i: nat, j: nat)
    requires i < |lists| && j < |lists[i]|
    ensures var k := |Flatten(lists[..i])| + j; k < |Flatten(lists)| && Flatten(lists)[k] == lists[i][j]
  {
    var n := |lists| - 1;
    if i < n {
      FlattenAt(lists[..n], i, j);
      assert lists[..n][..i] == lists[..i];
    }
  }

  /** And every element of the flat list is one of these. */
  lemma {:induction false} FlattenLocate<T>(lists: seq<seq<T>>, k: nat) returns (i: nat, j: nat)
    requires k < |Flatten(lists)|
    ensures i < |lists| && j < |lists[i]| && |Flatten(lists[..i])| + j == k && Flatten(lists)[k] == lists[i][j]
  {
    var n := |lists| - 1;
    if k < |Flatten(lists[..n])| {
      i, j := FlattenLocate(lists[..n], k);
      assert lists[..n][..i] == lists[..i];
    } else {
      i, j := n, k - |Flatten(lists[..n])|;
    }
  }

  lemma {:induction false} FlattenGrows<T>(lists: seq<seq<T>>, i: nat, k: nat)
    requires i < k <= |lists|
    ensures |Flatten(lists[..i])| + |lists[i]| <= |Flatten(lists[..k])|
  {
    assert lists[..k][..k - 1] == lists[..k - 1];
    if i < k - 1 { FlattenGrows(lists, i, k - 1); }
  }
}
