/** The whole-file reader (`parse_midi_note_ons`): header, track chunks, then every
    strike at its time in seconds. */
module MidiFile {
  import opened Wrappers
  import opened Sorting
  import opened MidiTrack
  import opened TempoMap
  import opened StrikeGroups

  const MTHD: Bytes := [0x4D, 0x54, 0x68, 0x64]
  const MTRK: Bytes := [0x4D, 0x54, 0x72, 0x6B]

  /** A big-endian 32-bit field; `struct` rejects fewer than four bytes. */
  function ReadU32(b: Bytes): Result<nat, MidiError> {
    if |b| < 4 then Err(Truncated) else Ok(BigEndian(b[..4]))
  }

  datatype Header = Header(trackCount: nat, division: nat, rest: Bytes)

  function ParseHeader(data: Bytes): Result<Header, MidiError> {
    if Take(data, 4) != MTHD then Err(BadHeader)
    else match ReadU32(Drop(data, 4))
      case Err(e) => Err(e)
      case Ok(length) =>
        var header := Take(Drop(data, 8), length);
        if |header| < 6 then Err(BadHeaderLength)
        else if BigEndian(header[4..6]) >= 0x8000 then Err(SmpteDivision)
        else Ok(Header(BigEndian(header[2..4]), BigEndian(header[4..6]), Drop(data, 8 + length)))
  }

  /** The events of the next `count` track chunks. */
  function ParseTracks(b: Bytes, count: nat): Result<TrackEvents, MidiError>
    decreases count
  {
    if count == 0 then Ok(NOTHING)
    else if Take(b, 4) != MTRK then Err(BadTrackHeader)
    else match ReadU32(Drop(b, 4))
      case Err(e) => Err(e)
      case Ok(length) =>
        match Parse(Take(Drop(b, 8), length), 0, NoStatus, Kept)
        case Err(e) => Err(e)
        case Ok(events) => JoinResult(events, ParseTracks(Drop(b, 8 + length), count - 1))
  }

  predicate NoteLeq(a: NoteEvent, b: NoteEvent) {
    a.tick < b.tick || (a.tick == b.tick && a.note <= b.note)
  }

  const PITCH_CLASSES := ["C", "C#", "D", "D#", "E", "F", "F#", "G", "G#", "A", "A#", "B"]

  function Decimal(n: nat): string {
    (if n < 10 then "" else Decimal(n / 10)) + ["0123456789"[n % 10]]
  }

  function PitchName(note: byte): string {
    var octave := note / 12 - 1;
    PITCH_CLASSES[note % 12] + if octave < 0 then "-" + Decimal(-octave) else Decimal(octave)
  }

  /** The note-on a strike becomes, at the integral of the effective tempo up to its tick. */
  ghost function Timed(e: NoteEvent, tempos: seq<TempoEvent>, division: nat): NoteOn
    requires division > 0
  {
    NoteOn(Seconds(TempoSum(tempos, 0, e.tick), division), PitchName(e.note), e.note)
  }

  /** The notes of a file with these events: all tracks merged, in (tick, note) order. */
  ghost predicate NotesOf(notes: seq<NoteOn>, events: TrackEvents, division: nat)
    requires division > 0
  {
    var ordered := Sort(events.notes, NoteLeq);
    && |notes| == |ordered|
    && (forall i :: 0 <= i < |notes| ==> notes[i] == Timed(ordered[i], SortedTempos(events.tempos), division))
  }

  /** The result the reader owes for `data`: the first error met, or the timed notes. */
  ghost predicate ReadsAs(data: Bytes, r: Result<seq<NoteOn>, MidiError>) {
    match ParseHeader(data)
    case Err(e) => r == Err(e)
    case Ok(header) =>
      match ParseTracks(header.rest, header.trackCount)
      case Err(e) => r == Err(e)
      case Ok(events) =>
        if header.division == 0 then r == (if events.notes == [] then Ok([]) else Err(ZeroDivision))
        else r.Ok? && NotesOf(r.value, events, header.division)
  }

  /** The order of the notes: by tick, then by note number. */
  lemma NotesInOrder(notes: seq<NoteEvent>)
    ensures var ordered := Sort(notes, NoteLeq);
      && multiset(ordered) == multiset(notes)
      && (forall i, j :: 0 <= i < j < |ordered| ==>
            ordered[i].tick < ordered[j].tick
            || (ordered[i].tick == ordered[j].tick && ordered[i].note <= ordered[j].note))
  {
    var ordered := Sort(notes, NoteLeq);
    forall i, j | 0 <= i < j < |ordered| ensures NoteLeq(ordered[i], ordered[j]) {
    }
  }

  lemma {:induction false} SingleDigit(n: nat)
    requires n < 10
    ensures Decimal(n) == ["0123456789"[n]]
  {
    assert n % 10 == n;
  }

  /** Middle C is C4; the octaves count from C-1 up. */
  lemma PitchNames(note: byte)
    ensures PitchName(60) == "C4" && PitchName(0) == "C-1" && PitchName(61) == "C#4"
    ensures 12 <= note < 132 ==>
      PitchName(note) == ["C", "C#", "D", "D#", "E", "F", "F#", "G", "G#", "A", "A#", "B"][note % 12]
                         + ["0123456789"[note / 12 - 1]]
  {
    hide Decimal;
    SingleDigit(4);
    SingleDigit(1);
    if 12 <= note < 132 { SingleDigit(note / 12 - 1); }
  }

  /** No two notes from C0 to B9, which include the whole keyboard, share a name. */
  lemma DistinctPitchNames(a: byte, b: byte)
    requires 12 <= a < 132 && 12 <= b < 132 && PitchName(a) == PitchName(b)
    ensures a == b
  {
    hide PitchName;
    PitchNames(a);
    PitchNames(b);
    var name, n := PitchName(a), |PitchName(a)| - 1;
    DistinctClasses(a % 12, b % 12, name[..n]);
    DistinctDigits(a / 12 - 1, b / 12 - 1, name[n]);
  }

  lemma DistinctDigits(i: nat, j: nat, c: char)
    requires i < 10 && j < 10 && "0123456789"[i] == c == "0123456789"[j]
    ensures i == j
  {
  }

  lemma DistinctClasses(i: nat, j: nat, s: string)
    requires i < 12 && j < 12 && PITCH_CLASSES[i] == s == PITCH_CLASSES[j]
    ensures i == j
  {
    assert PITCH_CLASSES[i][0] == PITCH_CLASSES[j][0] && |PITCH_CLASSES[i]| == |PITCH_CLASSES[j]|;
  }

  /** The big-endian fields at position `k`. */
  function FieldU16(b: Bytes, k: nat): nat
    requires k + 2 <= |b|
  {
    b[k] as int * 256 + b[k + 1] as int
  }

  function FieldU32(b: Bytes, k: nat): nat
    requires k + 4 <= |b|
  {
    FieldU16(b, k) * 0x1_0000 + FieldU16(b, k + 2)
  }

  lemma TwoBytes(b: Bytes, k: nat)
    requires k + 2 <= |b|
    ensures BigEndian(b[k..k + 2]) == FieldU16(b, k)
  {
    var w := b[k..k + 2];
    assert w[..1] == [b[k]] && w[..1][..0] == [];
    assert BigEndian(w[..1]) == b[k] as int;
  }

  lemma FourBytes(b: Bytes, k: nat)
    requires k + 4 <= |b|
    ensures BigEndian(b[k..k + 4]) == FieldU32(b, k)
  {
    var w := b[k..k + 4];
    TwoBytes(b, k);
    assert w[..3][..2] == b[k..k + 2];
    assert w[..3] == b[k..k + 2] + [b[k + 2]];
    assert BigEndian(w[..3]) == BigEndian(b[k..k + 2]) * 256 + b[k + 2] as int;
  }

  /** A header and what follows it, field by field. */
  lemma HeaderFieldsAt(data: Bytes)
    requires |data| >= 8 && data[..4] == [0x4D, 0x54, 0x68, 0x64]
    ensures var length := FieldU32(data, 4);
      ParseHeader(data) ==
      if length < 6 || |data| < 14 then Err(BadHeaderLength)
      else if data[12] >= 0x80 then Err(SmpteDivision)
      else Ok(Header(FieldU16(data, 10), FieldU16(data, 12), Drop(data, 8 + length)))
  {
    hide BigEndian;
    FourBytes(data, 4);
    assert Drop(data, 4)[..4] == data[4..8];
    if FieldU32(data, 4) >= 6 && |data| >= 14 {
      TwoBytes(data, 10);
      TwoBytes(data, 12);
      var header := Take(Drop(data, 8), FieldU32(data, 4));
      assert header[2..4] == data[10..12] && header[4..6] == data[12..14];
    }
  }

  /** Which file is rejected before its first track is read, and how. */
  lemma HeaderErrors(data: Bytes, r: Result<seq<NoteOn>, MidiError>)
    requires ReadsAs(data, r)
    ensures |data| < 4 || data[..4] != [0x4D, 0x54, 0x68, 0x64] ==> r == Err(BadHeader)
    ensures 4 <= |data| < 8 && data[..4] == [0x4D, 0x54, 0x68, 0x64] ==> r == Err(Truncated)
    ensures |data| >= 8 && data[..4] == [0x4D, 0x54, 0x68, 0x64] ==>
      var length := FieldU32(data, 4);
      && (length < 6 || |data| < 14 ==> r == Err(BadHeaderLength))
      && (length >= 6 && |data| >= 14 && data[12] >= 0x80 ==> r == Err(SmpteDivision))
      && (length >= 6 && |data| >= 14 && data[12] < 0x80 && FieldU16(data, 10) > 0
          && (|data| < 12 + length || data[8 + length..12 + length] != [0x4D, 0x54, 0x72, 0x6B]) ==>
            r == Err(BadTrackHeader))
  {
    hide FieldU16, FieldU32, BigEndian, NotesOf, Parse;
    if |data| < 8 {
    } else if data[..4] == [0x4D, 0x54, 0x68, 0x64] {
      hide ParseHeader;
      HeaderFieldsAt(data);
    }
  }

  lemma DropDrop(b: Bytes, m: nat, n: nat)
    ensures Drop(Drop(b, m), n) == Drop(b, m + n)
  {
  }

  method ReadTracks(data: Bytes, start: nat, trackCount: nat) returns (r: Result<TrackEvents, MidiError>)
    ensures r == ParseTracks(Drop(data, start), trackCount)
  {
    hide Parse, Join, Take, Drop, ReadU32;
    var cursor, events := start, NOTHING;
    JoinNothing(ParseTracks(Drop(data, start), trackCount));
    for t := 0 to trackCount
      invariant ParseTracks(Drop(data, start), trackCount)
          == JoinResult(events, ParseTracks(Drop(data, cursor), trackCount - t))
    {
      if Take(Drop(data, cursor), 4) != MTRK { return Err(BadTrackHeader); }
      cursor := cursor + 4;
      DropDrop(data, cursor - 4, 4);
      var length := ReadU32(Drop(data, cursor));
      if length.Err? { return Err(length.error); }
      cursor := cursor + 4;
      DropDrop(data, cursor - 8, 8);
      var chunk := Take(Drop(data, cursor), length.value);
      DropDrop(data, cursor - 8, 8 + length.value);
      cursor := cursor + length.value;
      var track := ParseTrack(chunk);
      if track.Err? { return Err(track.error); }
      JoinAssociative(events, track.value, ParseTracks(Drop(data, cursor), trackCount - t - 1));
      events := Join(events, track.value);
    }
    JoinEmpty(events);
    return Ok(events);
  }

  method TimeNotes(events: TrackEvents, division: nat) returns (notes: seq<NoteOn>)
    requires division > 0
    ensures NotesOf(notes, events, division)
  {
    hide SortedTempos, Sort;
    var tempos := SortedTempos(events.tempos);
    var ordered := Sort(events.notes, NoteLeq);
    notes := [];
    for i := 0 to |ordered|
      invariant |notes| == i
      invariant forall k :: 0 <= k < i ==> notes[k] == Timed(ordered[k], tempos, division)
    {
      var seconds := TicksToSeconds(ordered[i].tick, tempos, division);
      notes := notes + [NoteOn(seconds, PitchName(ordered[i].note), ordered[i].note)];
    }
  }

  method ParseMidiNoteOns(data: Bytes) returns (r: Result<seq<NoteOn>, MidiError>)
    ensures ReadsAs(data, r)
  {
    hide ParseHeader, ParseTracks, NotesOf;
    var header := ParseHeader(data);
    if header.Err? { return Err(header.error); }
    DropNothing(header.value.rest);
    var events := ReadTracks(header.value.rest, 0, header.value.trackCount);
    if events.Err? { return Err(events.error); }
    if header.value.division == 0 {
      // the tempo arithmetic divides by it as soon as there is a note to time
      return if events.value.notes == [] then Ok([]) else Err(ZeroDivision);
    }
    var notes := TimeNotes(events.value, header.value.division);
    return Ok(notes);
  }

  lemma DropNothing(b: Bytes)
    ensures Drop(b, 0) == b
  {
  }

  /** The notes come out sorted in time, as chord grouping needs them. */
  lemma NotesTimeSorted(notes: seq<NoteOn>, events: TrackEvents, division: nat)
    requires division > 0 && NotesOf(notes, events, division)
    ensures TimeSorted(notes)
  {
    hide SortedTempos;
    var ordered, tempos := Sort(events.notes, NoteLeq), SortedTempos(events.tempos);
    forall i, j | 0 <= i < j < |notes| ensures notes[i].seconds <= notes[j].seconds {
      assert NoteLeq(ordered[i], ordered[j]);
      SecondsOfTicks(tempos, ordered[i].tick, ordered[j].tick, division);
    }
  }

  /** Reading a file and grouping it: ordered blocks, no more than any set of covering windows has. */
  method GroupsOfFile(data: Bytes, window: real)
    returns (r: Result<seq<StrikeGroup>, MidiError>, ghost notes: seq<NoteOn>, ghost blocks: seq<seq<NoteOn>>)
    ensures r.Err? ==> ReadsAs(data, Err(r.error))
    ensures r.Ok? ==> ReadsAs(data, Ok(notes)) && ChordBlocks(blocks, notes, window) && Summarised(r.value, blocks)
    ensures r.Ok? ==> (Covers(Starts(blocks), notes, window) <==> window >= 0.0 || notes == [])
    ensures r.Ok? ==> forall cover: seq<real> :: Covers(cover, notes, window) ==> |r.value| <= |cover|
  {
    var parsed := ParseMidiNoteOns(data);
    notes, blocks := [], [];
    if parsed.Err? { return Err(parsed.error), notes, blocks; }
    var groups := GroupNoteOns(parsed.value, window);
    notes := parsed.value;
    blocks :| ChordBlocks(blocks, notes, window) && Summarised(groups, blocks);
    ReadNotesTimeSorted(data, notes);
    StartsCoverIff(blocks, notes, window);
    forall cover: seq<real> | Covers(cover, notes, window) ensures |groups| <= |cover| {
      FewestWindows(blocks, notes, window, cover);
    }
    return Ok(groups), notes, blocks;
  }

  lemma ReadNotesTimeSorted(data: Bytes, notes: seq<NoteOn>)
    requires ReadsAs(data, Ok(notes))
    ensures TimeSorted(notes)
  {
    hide ParseHeader, ParseTracks;
    var header := ParseHeader(data).value;
    var events := ParseTracks(header.rest, header.trackCount).value;
    if header.division > 0 {
      NotesTimeSorted(notes, events, header.division);
    }
  }

  // ---- writing a file

  function WriteU16(n: nat): Bytes
    requires n < 0x1_0000
  {
    [n / 256, n % 256]
  }

  function WriteU32(n: nat): Bytes
    requires n < 0x1_0000_0000
  {
    WriteU16(n / 0x1_0000) + WriteU16(n % 0x1_0000)
  }

  lemma BigEndianU16(n: nat)
    requires n < 0x1_0000
    ensures BigEndian(WriteU16(n)) == n
  {
    var b := WriteU16(n);
    assert b[..1] == [n / 256] && b[..1][..0] == [];
    assert BigEndian(b[..1]) == n / 256;
  }

  lemma BigEndianU32(n: nat)
    requires n < 0x1_0000_0000
    ensures BigEndian(WriteU32(n)) == n
  {
    var b := WriteU32(n);
    BigEndianU16(n / 0x1_0000);
    assert b[..3][..2] == WriteU16(n / 0x1_0000);
    assert b[..3] == WriteU16(n / 0x1_0000) + [n % 0x1_0000 / 256];
    assert b[..3][|b[..3]| - 1] == n % 0x1_0000 / 256 && b[3] == n % 256;
  }

  function WriteChunk(track: Bytes): Bytes
    requires |track| < 0x1_0000_0000
  {
    MTRK + WriteU32(|track|) + track
  }

  predicate WritableTracks(tracks: seq<seq<MidiTrack.Timed>>) {
    forall i :: 0 <= i < |tracks| ==> Writable(tracks[i], NoStatus, Kept) && |WriteTrack(tracks[i])| < 0x1_0000_0000
  }

  function WriteTracks(tracks: seq<seq<MidiTrack.Timed>>): Bytes
    requires WritableTracks(tracks)
  {
    if tracks == [] then [] else WriteChunk(WriteTrack(tracks[0])) + WriteTracks(tracks[1..])
  }

  function TracksMeaning(tracks: seq<seq<MidiTrack.Timed>>): TrackEvents {
    if tracks == [] then NOTHING else Join(Meaning(tracks[0], 0), TracksMeaning(tracks[1..]))
  }

  function HeaderFields(format: nat, trackCount: nat, division: nat): Bytes
    requires format < 0x1_0000 && trackCount < 0x1_0000 && division < 0x1_0000
  {
    WriteU16(format) + WriteU16(trackCount) + WriteU16(division)
  }

  function WriteFile(format: nat, tracks: seq<seq<MidiTrack.Timed>>, division: nat): Bytes
    requires format < 0x1_0000 && |tracks| < 0x1_0000 && division < 0x8000 && WritableTracks(tracks)
  {
    MTHD + WriteU32(6) + HeaderFields(format, |tracks|, division) + WriteTracks(tracks)
  }

  lemma ChunkParts(track: Bytes, rest: Bytes)
    requires |track| < 0x1_0000_0000
    ensures var b := WriteChunk(track) + rest;
      && Take(b, 4) == MTRK && ReadU32(Drop(b, 4)) == Ok(|track|)
      && Take(Drop(b, 8), |track|) == track && Drop(b, 8 + |track|) == rest
  {
    var b := WriteChunk(track) + rest;
    BigEndianU32(|track|);
    assert Drop(b, 4)[..4] == WriteU32(|track|);
  }

  lemma {:induction false} TracksRoundTrip(tracks: seq<seq<MidiTrack.Timed>>)
    requires WritableTracks(tracks)
    ensures ParseTracks(WriteTracks(tracks), |tracks|) == Ok(TracksMeaning(tracks))
  {
    hide WriteChunk, WriteTrack, Parse, ReadU32, Take, Drop, Writable, Meaning;
    if tracks != [] {
      ChunkParts(WriteTrack(tracks[0]), WriteTracks(tracks[1..]));
      TrackRoundTrip(tracks[0], 0, NoStatus, Kept);
      TracksRoundTrip(tracks[1..]);
    }
  }

  lemma HeaderRoundTrip(format: nat, tracks: seq<seq<MidiTrack.Timed>>, division: nat)
    requires format < 0x1_0000 && |tracks| < 0x1_0000 && division < 0x8000 && WritableTracks(tracks)
    ensures ParseHeader(WriteFile(format, tracks, division)) == Ok(Header(|tracks|, division, WriteTracks(tracks)))
  {
    hide WriteTracks, BigEndian, WriteU32, WriteU16, HeaderFields, Take, Drop, ParseHeader;
    var data := WriteFile(format, tracks, division);
    var fields := HeaderFields(format, |tracks|, division);
    FieldsLayout(format, |tracks|, division);
    HeaderLayout(fields, WriteTracks(tracks));
    BigEndianU32(6);
    BigEndianU16(|tracks|);
    BigEndianU16(division);
    ParseHeaderStep(data, fields, |tracks|, division, WriteTracks(tracks));
  }

  lemma ParseHeaderStep(data: Bytes, fields: Bytes, trackCount: nat, division: nat, tail: Bytes)
    requires |fields| == 6 && BigEndian(fields[2..4]) == trackCount && BigEndian(fields[4..6]) == division < 0x8000
    requires Take(data, 4) == MTHD && ReadU32(Drop(data, 4)) == Ok(6)
    requires Take(Drop(data, 8), 6) == fields && Drop(data, 14) == tail
    ensures ParseHeader(data) == Ok(Header(trackCount, division, tail))
  {
    hide BigEndian, Take, Drop, ReadU32;
  }

  lemma FieldsLayout(a: nat, b: nat, c: nat)
    requires a < 0x1_0000 && b < 0x1_0000 && c < 0x1_0000
    ensures var fields := HeaderFields(a, b, c);
      |fields| == 6 && fields[2..4] == WriteU16(b) && fields[4..6] == WriteU16(c)
  {
  }

  lemma HeaderLayout(fields: Bytes, tail: Bytes)
    requires |fields| == 6
    ensures var data := MTHD + WriteU32(6) + fields + tail;
      && Take(data, 4) == MTHD && |Drop(data, 4)| >= 4 && Drop(data, 4)[..4] == WriteU32(6)
      && Take(Drop(data, 8), 6) == fields && Drop(data, 14) == tail
  {
  }

  /** Reading a written file times exactly the strikes that were written. */
  lemma FileRoundTrip(format: nat, tracks: seq<seq<MidiTrack.Timed>>, division: nat, r: Result<seq<NoteOn>, MidiError>)
    requires format < 0x1_0000 && |tracks| < 0x1_0000 && 0 < division < 0x8000 && WritableTracks(tracks)
    requires ReadsAs(WriteFile(format, tracks, division), r)
    ensures r.Ok? && NotesOf(r.value, TracksMeaning(tracks), division)
  {
    hide ParseHeader, ParseTracks, WriteFile, WriteTracks, TracksMeaning, NotesOf;
    HeaderRoundTrip(format, tracks, division);
    TracksRoundTrip(tracks);
  }
}
