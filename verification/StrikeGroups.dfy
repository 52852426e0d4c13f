/** Chord grouping of note onsets (`group_note_ons`). */
module StrikeGroups {
  import opened Sequences
  import opened Sorting

  datatype NoteOn = NoteOn(seconds: real, pitch: string, midiNote: int)

  datatype StrikeGroup = StrikeGroup(seconds: real, pitches: seq<string>, midiNotes: seq<int>)

  predicate IntLeq(a: int, b: int) { a <= b }

  ghost predicate StrictlyIncreasing(s: seq<int>) {
    forall i, j :: 0 <= i < j < |s| ==> s[i] < s[j]
  }

  /** `tuple(sorted(set(s)))`. */
  function SortedDistinct(s: seq<int>): (r: seq<int>)
    ensures StrictlyIncreasing(r)
    ensures forall x :: x in r <==> x in s
  {
    SortMembers(Dedup(s), IntLeq);
    SortKeepsDistinct(Dedup(s));
    Sort(Dedup(s), IntLeq)
  }

  lemma SortKeepsDistinct(s: seq<int>)
    requires forall i, j :: 0 <= i < j < |s| ==> s[i] != s[j]
    ensures StrictlyIncreasing(Sort(s, IntLeq))
  {
    var r := Sort(s, IntLeq);
    forall i, j | 0 <= i < j < |r| ensures r[i] < r[j] {
      assert IntLeq(r[i], r[j]);
      if r[i] == r[j] {
        CountTwice(r, i, j);
        CountOnce(s, r[i]);
      }
    }
  }

  lemma CountTwice(s: seq<int>, i: nat, j: nat)
    requires i < j < |s| && s[i] == s[j]
    ensures multiset(s)[s[i]] >= 2
  {
    assert s == s[..i] + [s[i]] + s[i + 1..j] + [s[j]] + s[j + 1..];
  }

  lemma {:induction false} CountOnce(s: seq<int>, x: int)
    requires forall i, j :: 0 <= i < j < |s| ==> s[i] != s[j]
    ensures multiset(s)[x] <= 1
  {
    if s != [] {
      assert s == [s[0]] + s[1..];
      CountOnce(s[1..], x);
      if x == s[0] { assert x !in s[1..]; }
    }
  }

  /** A strictly increasing list is determined by its elements. */
  lemma {:induction false} IncreasingUnique(a: seq<int>, b: seq<int>)
    requires StrictlyIncreasing(a) && StrictlyIncreasing(b)
    requires forall x :: x in a <==> x in b
    ensures a == b
  {
    if a == [] {
      if b != [] { HasMember(b); }
    } else {
      assert a[0] in b && b != [];
      assert b[0] in a;
      assert a[0] == b[0];
      forall x ensures x in a[1..] <==> x in b[1..] {
        if x in a[1..] { assert x in a && x > a[0]; }
        if x in b[1..] { assert x in b && x > b[0]; }
        assert a == [a[0]] + a[1..] && b == [b[0]] + b[1..];
      }
      IncreasingUnique(a[1..], b[1..]);
    }
  }

  function Pitches(notes: seq<NoteOn>): seq<string> {
    seq(|notes|, i requires 0 <= i < |notes| => notes[i].pitch)
  }

  function MidiNotes(notes: seq<NoteOn>): seq<int> {
    seq(|notes|, i requires 0 <= i < |notes| => notes[i].midiNote)
  }

  /** The group of a run of notes: the first onset, each pitch once in order of
      appearance, and the distinct MIDI notes in increasing order. */
  function GroupOf(notes: seq<NoteOn>): StrikeGroup
    requires notes != []
  {
    StrikeGroup(notes[0].seconds, Dedup(Pitches(notes)), SortedDistinct(MidiNotes(notes)))
  }

  /** Replacing the last group by itself with one more note is the group of the longer run. */
  lemma GroupOfAppend(notes: seq<NoteOn>, x: NoteOn)
    requires notes != []
    ensures GroupOf(notes + [x]) ==
            StrikeGroup(notes[0].seconds, Dedup(GroupOf(notes).pitches + [x.pitch]),
                        SortedDistinct(GroupOf(notes).midiNotes + [x.midiNote]))
  {
    assert Pitches(notes + [x]) == Pitches(notes) + [x.pitch];
    assert MidiNotes(notes + [x]) == MidiNotes(notes) + [x.midiNote];
    hide Dedup, SortedDistinct, Pitches, MidiNotes;
    DedupTwice(Pitches(notes), x.pitch);
    SortedDistinctTwice(MidiNotes(notes), x.midiNote);
  }

  lemma DedupTwice(s: seq<string>, x: string)
    ensures Dedup(Dedup(s) + [x]) == Dedup(s + [x])
  {
    hide *;
    DedupAppend(s, x);
    DedupDistinct(Dedup(s));
    DedupAppend(Dedup(s), x);
  }

  lemma SortedDistinctTwice(s: seq<int>, x: int)
    ensures SortedDistinct(SortedDistinct(s) + [x]) == SortedDistinct(s + [x])
  {
    hide *;
    IncreasingUnique(SortedDistinct(SortedDistinct(s) + [x]), SortedDistinct(s + [x]));
  }

  lemma SingleNote(note: NoteOn)
    ensures GroupOf([note]) == StrikeGroup(note.seconds, [note.pitch], [note.midiNote])
  {
    hide Dedup, SortedDistinct;
    assert Pitches([note]) == [note.pitch];
    assert MidiNotes([note]) == [note.midiNote];
    DedupDistinct([note.pitch]);
    SortedDistinctOne(note.midiNote);
  }

  lemma SortedDistinctOne(x: int)
    ensures SortedDistinct([x]) == [x]
  {
    hide *;
    var r := SortedDistinct([x]);
    IncreasingOne(r, x);
  }

  lemma IncreasingOne(r: seq<int>, x: int)
    requires StrictlyIncreasing(r) && forall y :: y in r <==> y in [x]
    ensures r == [x]
  {
    IncreasingUnique(r, [x]);
  }

  // ---- the partition behind the groups

  /** `blocks` splits `notes` in order; every note is within the chord window of the
      start of its block, and the next block starts beyond that window. */
  ghost predicate ChordBlocks(blocks: seq<seq<NoteOn>>, notes: seq<NoteOn>, window: real) {
    && Flatten(blocks) == notes
    && (forall b :: 0 <= b < |blocks| ==> blocks[b] != [])
    && (forall b, k :: 0 <= b < |blocks| && 0 < k < |blocks[b]| ==>
          blocks[b][k].seconds - blocks[b][0].seconds <= window)
    && (forall b :: 0 < b < |blocks| ==> blocks[b][0].seconds - blocks[b - 1][0].seconds > window)
  }

  /** One group per block, each the summary of its notes. */
  ghost predicate Summarised(groups: seq<StrikeGroup>, blocks: seq<seq<NoteOn>>) {
    && |groups| == |blocks|
    && (forall b :: 0 <= b < |blocks| ==> blocks[b] != [] && groups[b] == GroupOf(blocks[b]))
  }

  /** The groups of `notes`: the summaries of its chord blocks. */
  ghost predicate GroupingOf(groups: seq<StrikeGroup>, notes: seq<NoteOn>, window: real) {
    exists blocks :: ChordBlocks(blocks, notes, window) && Summarised(groups, blocks)
  }

  lemma GroupStart(notes: seq<NoteOn>)
    requires notes != []
    ensures GroupOf(notes).seconds == notes[0].seconds
  {
  }

  lemma ExtendLast(blocks: seq<seq<NoteOn>>, notes: seq<NoteOn>, x: NoteOn, window: real)
    requires ChordBlocks(blocks, notes, window) && blocks != []
    requires x.seconds - blocks[|blocks| - 1][0].seconds <= window
    ensures ChordBlocks(blocks[|blocks| - 1 := blocks[|blocks| - 1] + [x]], notes + [x], window)
  {
    var last := |blocks| - 1;
    var blocks' := blocks[last := blocks[last] + [x]];
    assert blocks'[..last] == blocks[..last];
    assert Flatten(blocks') == Flatten(blocks[..last]) + (blocks[last] + [x]);
  }

  lemma OpenNew(blocks: seq<seq<NoteOn>>, notes: seq<NoteOn>, x: NoteOn, window: real)
    requires ChordBlocks(blocks, notes, window)
    requires blocks == [] || x.seconds - blocks[|blocks| - 1][0].seconds > window
    ensures ChordBlocks(blocks + [[x]], notes + [x], window)
  {
    assert (blocks + [[x]])[..|blocks|] == blocks;
  }

  lemma NoNotes(window: real)
    ensures ChordBlocks([], [], window) && Summarised([], [])
  {
  }

  /** The last group starts where the last block does. */
  lemma LastGroup(groups: seq<StrikeGroup>, blocks: seq<seq<NoteOn>>)
    requires Summarised(groups, blocks)
    ensures |groups| == |blocks|
    ensures groups != [] ==> var k := |groups| - 1;
      blocks[k] != [] && groups[k] == GroupOf(blocks[k]) && groups[k].seconds == blocks[k][0].seconds
  {
    hide GroupOf;
    if groups != [] { GroupStart(blocks[|blocks| - 1]); }
  }

  lemma ExtendStep(groups: seq<StrikeGroup>, blocks: seq<seq<NoteOn>>, notes: seq<NoteOn>, x: NoteOn, window: real)
    requires ChordBlocks(blocks, notes, window) && Summarised(groups, blocks)
    requires |groups| == |blocks| > 0 && x.seconds - groups[|groups| - 1].seconds <= window
    ensures var k := |groups| - 1;
      var blocks' := blocks[k := blocks[k] + [x]];
      var group := StrikeGroup(groups[k].seconds, Dedup(groups[k].pitches + [x.pitch]),
                               SortedDistinct(groups[k].midiNotes + [x.midiNote]));
      ChordBlocks(blocks', notes + [x], window) && Summarised(groups[k := group], blocks')
  {
    hide GroupOf, Dedup, SortedDistinct, ChordBlocks;
    LastGroup(groups, blocks);
    GroupOfAppend(blocks[|blocks| - 1], x);
    ExtendLast(blocks, notes, x, window);
  }

  lemma OpenStep(groups: seq<StrikeGroup>, blocks: seq<seq<NoteOn>>, notes: seq<NoteOn>, x: NoteOn, window: real)
    requires ChordBlocks(blocks, notes, window) && Summarised(groups, blocks)
    requires groups != [] ==> x.seconds - groups[|groups| - 1].seconds > window
    ensures ChordBlocks(blocks + [[x]], notes + [x], window)
    ensures Summarised(groups + [StrikeGroup(x.seconds, [x.pitch], [x.midiNote])], blocks + [[x]])
  {
    hide GroupOf, ChordBlocks;
    LastGroup(groups, blocks);
    SingleNote(x);
    OpenNew(blocks, notes, x, window);
  }

  method GroupNoteOns(notes: seq<NoteOn>, chordWindowSeconds: real) returns (groups: seq<StrikeGroup>)
    ensures GroupingOf(groups, notes, chordWindowSeconds)
  {
    hide GroupOf, Dedup, SortedDistinct, ChordBlocks, Summarised;
    ghost var blocks: seq<seq<NoteOn>> := [];
    groups := [];
    NoNotes(chordWindowSeconds);
    for i := 0 to |notes|
      invariant ChordBlocks(blocks, notes[..i], chordWindowSeconds) && Summarised(groups, blocks)
    {
      var note := notes[i];
      assert notes[..i + 1] == notes[..i] + [note];
      LastGroup(groups, blocks);
      if groups != [] && note.seconds - groups[|groups| - 1].seconds <= chordWindowSeconds {
        var previous := groups[|groups| - 1];
        ExtendStep(groups, blocks, notes[..i], note, chordWindowSeconds);
        groups := groups[|groups| - 1 := StrikeGroup(
          previous.seconds,
          Dedup(previous.pitches + [note.pitch]),
          SortedDistinct(previous.midiNotes + [note.midiNote]))];
        blocks := blocks[|blocks| - 1 := blocks[|blocks| - 1] + [note]];
      } else {
        OpenStep(groups, blocks, notes[..i], note, chordWindowSeconds);
        groups := groups + [StrikeGroup(note.seconds, [note.pitch], [note.midiNote])];
        blocks := blocks + [[note]];
      }
    }
    assert notes[..|notes|] == notes;
  }

  /** So one list of notes has only one grouping. */
  lemma GroupingUnique(a: seq<StrikeGroup>, b: seq<StrikeGroup>, notes: seq<NoteOn>, window: real)
    requires GroupingOf(a, notes, window) && GroupingOf(b, notes, window)
    ensures a == b
  {
    hide GroupOf;
    var x :| ChordBlocks(x, notes, window) && Summarised(a, x);
    var y :| ChordBlocks(y, notes, window) && Summarised(b, y);
    ChordBlocksUnique(x, y, notes, window);
  }

  // ---- the partition is unique

  lemma {:induction false} ChordBlocksUnique(a: seq<seq<NoteOn>>, b: seq<seq<NoteOn>>, notes: seq<NoteOn>, window: real)
    requires ChordBlocks(a, notes, window) && ChordBlocks(b, notes, window)
    ensures a == b
    decreases |notes|
  {
    if notes == [] {
      if a != [] { LastNote(a); }
      if b != [] { LastNote(b); }
    } else {
      assert a != [] && b != [];
      DropLast(a, notes, window);
      DropLast(b, notes, window);
      ChordBlocksUnique(WithoutLast(a), WithoutLast(b), notes[..|notes| - 1], window);
      RestoreLast(a, notes, window);
      RestoreLast(b, notes, window);
    }
  }

  lemma LastNote(blocks: seq<seq<NoteOn>>)
    requires blocks != [] && blocks[|blocks| - 1] != []
    ensures Flatten(blocks) != []
    ensures var last := blocks[|blocks| - 1];
      Flatten(blocks)[|Flatten(blocks)| - 1] == last[|last| - 1]
  {
  }

  /** The blocks of all notes but the last. */
  ghost function WithoutLast(blocks: seq<seq<NoteOn>>): seq<seq<NoteOn>>
    requires blocks != [] && blocks[|blocks| - 1] != []
  {
    var last := blocks[|blocks| - 1];
    if |last| == 1 then blocks[..|blocks| - 1] else blocks[|blocks| - 1 := last[..|last| - 1]]
  }

  lemma DropLast(blocks: seq<seq<NoteOn>>, notes: seq<NoteOn>, window: real)
    requires ChordBlocks(blocks, notes, window) && blocks != []
    ensures notes != [] && ChordBlocks(WithoutLast(blocks), notes[..|notes| - 1], window)
  {
    var k := |blocks| - 1;
    var last, less := blocks[k], WithoutLast(blocks);
    LastNote(blocks);
    assert notes == Flatten(blocks[..k]) + last;
    if |last| == 1 {
      assert notes[..|notes| - 1] == Flatten(blocks[..k]);
    } else {
      assert less[..k] == blocks[..k];
      assert notes[..|notes| - 1] == Flatten(blocks[..k]) + last[..|last| - 1];
    }
  }

  /** Whether the last note opens a block is decided by its distance to the last start before it. */
  lemma RestoreLast(blocks: seq<seq<NoteOn>>, notes: seq<NoteOn>, window: real)
    requires ChordBlocks(blocks, notes, window) && blocks != [] && notes != []
    ensures var less, x := WithoutLast(blocks), notes[|notes| - 1];
      blocks == if less != [] && less[|less| - 1] != [] && x.seconds - less[|less| - 1][0].seconds <= window
                then less[|less| - 1 := less[|less| - 1] + [x]] else less + [[x]]
  {
    var k := |blocks| - 1;
    var last := blocks[k];
    LastNote(blocks);
    var x := notes[|notes| - 1];
    assert x == last[|last| - 1];
    assert last == last[..|last| - 1] + [x];
    hide Flatten;
    if |last| == 1 {
      assert last == [x];
      assert blocks == blocks[..k] + [[x]];
      assert k > 0 ==> x.seconds - blocks[k - 1][0].seconds > window;
    } else {
      var less := WithoutLast(blocks);
      assert less[k][0] == last[0];
      assert last[|last| - 1].seconds - last[0].seconds <= window;
      assert less[k := less[k] + [x]] == blocks;
    }
  }

  // ---- the grouping is a least cover of the onsets by windows

  predicate InWindow(t: real, start: real, window: real) { start <= t <= start + window }

  ghost predicate Covered(t: real, starts: seq<real>, window: real) {
    exists k :: 0 <= k < |starts| && InWindow(t, starts[k], window)
  }

  ghost predicate Covers(starts: seq<real>, notes: seq<NoteOn>, window: real) {
    forall i :: 0 <= i < |notes| ==> Covered(notes[i].seconds, starts, window)
  }

  ghost function Starts(blocks: seq<seq<NoteOn>>): seq<real>
    requires forall b :: 0 <= b < |blocks| ==> blocks[b] != []
  {
    seq(|blocks|, b requires 0 <= b < |blocks| => blocks[b][0].seconds)
  }

  ghost predicate TimeSorted(notes: seq<NoteOn>) {
    forall i, j :: 0 <= i < j < |notes| ==> notes[i].seconds <= notes[j].seconds
  }

  lemma {:induction false} StartsFarApart(blocks: seq<seq<NoteOn>>, notes: seq<NoteOn>, window: real, a: nat, b: nat)
    requires ChordBlocks(blocks, notes, window) && window >= 0.0
    requires a < b < |blocks|
    ensures blocks[b][0].seconds - blocks[a][0].seconds > window
  {
    if a < b - 1 { StartsFarApart(blocks, notes, window, a, b - 1); }
  }

  /** On time-sorted notes the group starts themselves cover every onset. */
  lemma StartsCover(blocks: seq<seq<NoteOn>>, notes: seq<NoteOn>, window: real)
    requires ChordBlocks(blocks, notes, window) && window >= 0.0 && TimeSorted(notes)
    ensures Covers(Starts(blocks), notes, window)
  {
    forall i | 0 <= i < |notes|
      ensures Covered(notes[i].seconds, Starts(blocks), window)
    {
      var b, k := FlattenLocate(blocks, i);
      FlattenAt(blocks, b, 0);
      assert InWindow(notes[i].seconds, Starts(blocks)[b], window);
    }
  }

  /** No window of negative length covers anything. */
  lemma StartsCoverIff(blocks: seq<seq<NoteOn>>, notes: seq<NoteOn>, window: real)
    requires ChordBlocks(blocks, notes, window) && TimeSorted(notes)
    ensures Covers(Starts(blocks), notes, window) <==> window >= 0.0 || notes == []
  {
    if window >= 0.0 {
      StartsCover(blocks, notes, window);
    } else {
      NothingInNegative(Starts(blocks), notes, window);
    }
  }

  lemma NothingInNegative(cover: seq<real>, notes: seq<NoteOn>, window: real)
    requires window < 0.0
    ensures Covers(cover, notes, window) <==> notes == []
  {
    if notes != [] {
      assert !Covered(notes[0].seconds, cover, window);
    }
  }

  /** No list of closed windows of this length that covers all onsets is shorter. */
  lemma FewestWindows(blocks: seq<seq<NoteOn>>, notes: seq<NoteOn>, window: real, cover: seq<real>)
    requires ChordBlocks(blocks, notes, window)
    requires Covers(cover, notes, window)
    ensures |blocks| <= |cover|
  {
    if window < 0.0 {
      NothingInNegative(cover, notes, window);
      if blocks != [] { LastNote(blocks); }
      return;
    }
    var choice := ChooseWindows(blocks, notes, window, cover, |blocks|);
    forall a, b | 0 <= a < b < |choice| ensures choice[a] != choice[b] {
      StartsFarApart(blocks, notes, window, a, b);
    }
    DistinctBounded(choice, |cover|);
  }

  lemma {:induction false} ChooseWindows(blocks: seq<seq<NoteOn>>, notes: seq<NoteOn>, window: real,
      cover: seq<real>, n: nat)
    returns (choice: seq<nat>)
    requires ChordBlocks(blocks, notes, window) && Covers(cover, notes, window) && n <= |blocks|
    ensures |choice| == n
    ensures forall b :: 0 <= b < n ==> choice[b] < |cover| && InWindow(blocks[b][0].seconds, cover[choice[b]], window)
  {
    choice := [];
    if n > 0 {
      choice := ChooseWindows(blocks, notes, window, cover, n - 1);
      var i := |Flatten(blocks[..n - 1])|;
      FlattenAt(blocks, n - 1, 0);
      assert Covered(notes[i].seconds, cover, window);
      var k :| 0 <= k < |cover| && InWindow(notes[i].seconds, cover[k], window);
      choice := choice + [k];
    }
  }

  lemma BoundPositive(s: seq<nat>, bound: nat)
    requires s != [] && forall i :: 0 <= i < |s| ==> s[i] < bound
    ensures bound > 0
  {
    assert s[0] < bound;
  }

  lemma {:induction false} DistinctBounded(s: seq<nat>, bound: nat)
    requires forall i :: 0 <= i < |s| ==> s[i] < bound
    requires forall i, j :: 0 <= i < j < |s| ==> s[i] != s[j]
    ensures |s| <= bound
  {
    if bound == 0 {
      if s != [] { BoundPositive(s, bound); }
    } else if bound - 1 !in s {
      DistinctBounded(s, bound - 1);
    } else {
      var k :| 0 <= k < |s| && s[k] == bound - 1;
      DistinctBounded(s[..k] + s[k + 1..], bound - 1);
    }
  }
}
