/** The track reader of the Standard MIDI File parser (`_read_vlq`, `_parse_track`),
    and the writer it inverts. */
module MidiTrack {
  import opened Wrappers

  type byte = x: int | 0 <= x < 256

  type Bytes = seq<byte>

  /** The exceptions the parser raises. */
  datatype MidiError =
    | Truncated                   // an index or struct read past the end
    | RunningStatusWithoutStatus
    | BadHeader
    | BadHeaderLength
    | SmpteDivision
    | BadTrackHeader
    | ZeroDivision

  // ---- Python slicing past the end: the slice is cut, the cursor runs on

  function Take(b: Bytes, n: nat): Bytes { if n <= |b| then b[..n] else b }

  function Drop(b: Bytes, n: nat): (r: Bytes)
    ensures |r| <= |b|
  {
    if n <= |b| then b[n..] else []
  }

  // ---- variable-length quantities

  /** Seven bits a byte, most significant first, continued while the top bit is set. */
  function ParseVlq(b: Bytes, value: nat): (r: Result<(nat, Bytes), MidiError>)
    ensures r.Ok? ==> |r.value.1| < |b| && r.value.1 == b[|b| - |r.value.1|..]
  {
    if b == [] then Err(Truncated)
    else
      var value' := value * 128 + b[0] % 128;
      if b[0] < 128 then Ok((value', b[1..])) else ParseVlq(b[1..], value')
  }

  lemma VlqUnfolds(data: Bytes, cursor: nat, value: nat)
    requires cursor <= |data|
    ensures ParseVlq(data[cursor..], value) ==
            if cursor == |data| then Err(Truncated)
            else if data[cursor] < 128 then Ok((value * 128 + data[cursor] % 128, data[cursor + 1..]))
            else ParseVlq(data[cursor + 1..], value * 128 + data[cursor] % 128)
  {
    if cursor < |data| {
      assert data[cursor..][1..] == data[cursor + 1..];
    }
  }

  method ReadVlq(data: Bytes, start: nat) returns (r: Result<(nat, nat), MidiError>)
    requires start <= |data|
    ensures r == match ParseVlq(data[start..], 0)
                 case Err(e) => Err(e)
                 case Ok((value, rest)) => Ok((value, |data| - |rest|))
  {
    hide ParseVlq;
    var cursor, value: nat := start, 0;
    while true
      invariant start <= cursor <= |data|
      invariant ParseVlq(data[start..], 0) == ParseVlq(data[cursor..], value)
      decreases |data| - cursor
    {
      VlqUnfolds(data, cursor, value);
      if cursor == |data| {
        return Err(Truncated);
      }
      var next := data[cursor];
      cursor := cursor + 1;
      value := value * 128 + next % 128;
      if next < 128 {
        return Ok((value, cursor));
      }
    }
  }

  function HighGroups(n: nat): Bytes {
    (if n < 128 then [] else HighGroups(n / 128)) + [128 + n % 128]
  }

  function EncodeVlq(n: nat): Bytes {
    (if n < 128 then [] else HighGroups(n / 128)) + [n % 128]
  }

  /** One byte of a quantity, at the front of any list. */
  lemma ParseGroup(group: byte, rest: Bytes, value: nat)
    ensures ParseVlq([group] + rest, value) ==
            if group < 128 then Ok((value * 128 + group % 128, rest)) else ParseVlq(rest, value * 128 + group % 128)
  {
    assert ([group] + rest)[1..] == rest;
  }

  lemma {:induction false} ParseHighGroups(n: nat, rest: Bytes)
    ensures ParseVlq(HighGroups(n) + rest, 0) == ParseVlq(rest, n)
  {
    hide ParseVlq;
    var last: byte := 128 + n % 128;
    ParseGroup(last, rest, n / 128);
    if n < 128 {
      assert HighGroups(n) + rest == [last] + rest;
    } else {
      assert HighGroups(n) + rest == HighGroups(n / 128) + ([last] + rest);
      ParseHighGroups(n / 128, [last] + rest);
    }
  }

  /** Reading back a written quantity, whatever follows it. */
  lemma VlqRoundTrip(n: nat, rest: Bytes)
    ensures ParseVlq(EncodeVlq(n) + rest, 0) == Ok((n, rest))
  {
    hide ParseVlq, HighGroups;
    var last: byte := n % 128;
    ParseGroup(last, rest, n / 128);
    if n < 128 {
      assert EncodeVlq(n) + rest == [last] + rest;
    } else {
      assert EncodeVlq(n) + rest == HighGroups(n / 128) + ([last] + rest);
      ParseHighGroups(n / 128, [last] + rest);
    }
  }

  // ---- one event

  datatype Effect = NoEffect | SetTempo(tempo: nat) | Strike(note: byte)

  function BigEndian(b: Bytes): nat {
    if b == [] then 0 else BigEndian(b[..|b| - 1]) * 256 + b[|b| - 1]
  }

  function DataLength(status: byte): nat { if status / 16 == 0xC || status / 16 == 0xD then 1 else 2 }

  /** What follows the status byte: the effect and the remaining bytes. */
  function ParseBody(status: byte, b: Bytes): (r: Result<(Effect, Bytes), MidiError>)
    ensures r.Ok? ==> |r.value.1| <= |b|
  {
    if status == 0xFF then
      if b == [] then Err(Truncated)
      else match ParseVlq(b[1..], 0)
        case Err(e) => Err(e)
        case Ok((length, rest)) =>
          Ok((if b[0] == 0x51 && length == 3 then SetTempo(BigEndian(Take(rest, length))) else NoEffect,
              Drop(rest, length)))
    else if status == 0xF0 || status == 0xF7 then
      match ParseVlq(b, 0)
        case Err(e) => Err(e)
        case Ok((length, rest)) => Ok((NoEffect, Drop(rest, length)))
    else
      var payload := Take(b, DataLength(status));
      Ok((if status / 16 == 9 && |payload| == 2 && payload[1] > 0 then Strike(payload[0]) else NoEffect,
          Drop(b, DataLength(status))))
  }

  // ---- one track

  datatype TempoEvent = TempoEvent(tick: nat, tempo: nat)
  datatype NoteEvent = NoteEvent(tick: nat, note: byte)
  datatype TrackEvents = TrackEvents(tempos: seq<TempoEvent>, notes: seq<NoteEvent>)

  const NOTHING := TrackEvents([], [])

  function Join(a: TrackEvents, b: TrackEvents): TrackEvents {
    TrackEvents(a.tempos + b.tempos, a.notes + b.notes)
  }

  function JoinResult(a: TrackEvents, r: Result<TrackEvents, MidiError>): Result<TrackEvents, MidiError> {
    match r
    case Err(e) => Err(e)
    case Ok(b) => Ok(Join(a, b))
  }

  function At(tick: nat, effect: Effect): TrackEvents {
    match effect
    case NoEffect => NOTHING
    case SetTempo(tempo) => TrackEvents([TempoEvent(tick, tempo)], [])
    case Strike(note) => TrackEvents([], [NoteEvent(tick, note)])
  }

  datatype Running = NoStatus | Running(status: byte)

  /** What a meta or sysex event does to the running status: `_parse_track` keeps it, the
      Standard MIDI Files 1.0 specification cancels it. */
  datatype Rule = Kept | Cancelled

  /** The status that running status refers to after a status byte. */
  function RunningAfter(status: byte, running: Running, rule: Rule): Running {
    if status < 0xF0 then Running(status) else if rule.Kept? then running else NoStatus
  }

  /** The tempo changes and note strikes of the rest of a track; the script reads with `Kept`. */
  function Parse(b: Bytes, tick: nat, running: Running, rule: Rule): Result<TrackEvents, MidiError>
    decreases |b|, 0
  {
    if b == [] then Ok(NOTHING)
    else match ParseVlq(b, 0)
      case Err(e) => Err(e)
      case Ok((delta, b')) =>
        if b' == [] then Err(Truncated)
        else if b'[0] < 0x80 then
          if running.NoStatus? then Err(RunningStatusWithoutStatus)
          else ParseRest(running.status, b', tick + delta, running, rule)
        else
          ParseRest(b'[0], b'[1..], tick + delta, RunningAfter(b'[0], running, rule), rule)
  }

  function ParseRest(status: byte, b: Bytes, tick: nat, running: Running, rule: Rule): Result<TrackEvents, MidiError>
    decreases |b|, 1
  {
    match ParseBody(status, b)
    case Err(e) => Err(e)
    case Ok((effect, rest)) => JoinResult(At(tick, effect), Parse(rest, tick, running, rule))
  }

  lemma JoinAssociative(a: TrackEvents, b: TrackEvents, r: Result<TrackEvents, MidiError>)
    ensures JoinResult(a, JoinResult(b, r)) == JoinResult(Join(a, b), r)
  {
    if r.Ok? {
      assert a.tempos + (b.tempos + r.value.tempos) == (a.tempos + b.tempos) + r.value.tempos;
      assert a.notes + (b.notes + r.value.notes) == (a.notes + b.notes) + r.value.notes;
    }
  }

  lemma JoinNothing(r: Result<TrackEvents, MidiError>)
    ensures JoinResult(NOTHING, r) == r
  {
    if r.Ok? {
      assert [] + r.value.tempos == r.value.tempos && [] + r.value.notes == r.value.notes;
    }
  }

  lemma DropFrom(track: Bytes, cursor: nat, n: nat)
    requires cursor <= |track|
    ensures Drop(track[cursor..], n) == Drop(track, cursor + n)
  {
  }

  /** The part of the loop body after the status byte; the cursor may run past the end. */
  method ReadBody(track: Bytes, start: nat, status: byte) returns (r: Result<(Effect, nat), MidiError>)
    requires start <= |track|
    ensures r.Err? ==> ParseBody(status, track[start..]) == Err(r.error)
    ensures r.Ok? ==> start <= r.value.1 && ParseBody(status, track[start..]) == Ok((r.value.0, Drop(track, r.value.1)))
  {
    hide ParseVlq, BigEndian, Take, Drop;
    var cursor := start;
    if status == 0xFF {
      if cursor == |track| { return Err(Truncated); }
      var metaType := track[cursor];
      cursor := cursor + 1;
      assert track[start..][1..] == track[cursor..];
      var length := ReadVlq(track, cursor);
      if length.Err? { return Err(length.error); }
      cursor := length.value.1;
      var payload := Take(track[cursor..], length.value.0);
      var tempo := metaType == 0x51 && length.value.0 == 3;
      DropFrom(track, cursor, length.value.0);
      return Ok((if tempo then SetTempo(BigEndian(payload)) else NoEffect, cursor + length.value.0));
    } else if status == 0xF0 || status == 0xF7 {
      var length := ReadVlq(track, cursor);
      if length.Err? { return Err(length.error); }
      DropFrom(track, length.value.1, length.value.0);
      return Ok((NoEffect, length.value.1 + length.value.0));
    } else {
      var payload := Take(track[cursor..], DataLength(status));
      var strike := status / 16 == 9 && |payload| == 2 && payload[1] > 0;
      DropFrom(track, cursor, DataLength(status));
      return Ok((if strike then Strike(payload[0]) else NoEffect, cursor + DataLength(status)));
    }
  }

  method ParseTrack(track: Bytes) returns (r: Result<TrackEvents, MidiError>)
    ensures r == Parse(track, 0, NoStatus, Kept)
  {
    hide ParseVlq, ParseBody, Join;
    var cursor, tick: nat, running := 0, 0, NoStatus;
    var events := NOTHING;
    JoinNothing(Parse(track, 0, NoStatus, Kept));
    while cursor < |track|
      invariant Parse(track, 0, NoStatus, Kept) == JoinResult(events, Parse(Drop(track, cursor), tick, running, Kept))
      decreases |track| - cursor
    {
      var delta := ReadVlq(track, cursor);
      if delta.Err? { return Err(delta.error); }
      ghost var tail := Parse(track[cursor..], tick, running, Kept);
      tick, cursor := tick + delta.value.0, delta.value.1;
      if cursor == |track| { return Err(Truncated); }
      var status := track[cursor];
      if status < 0x80 {
        if running.NoStatus? { return Err(RunningStatusWithoutStatus); }
        status := running.status;
      } else {
        cursor := cursor + 1;
        if status < 0xF0 { running := Running(status); }
      }
      assert tail == ParseRest(status, track[cursor..], tick, running, Kept);
      var body := ReadBody(track, cursor, status);
      if body.Err? { return Err(body.error); }
      cursor := body.value.1;
      JoinAssociative(events, At(tick, body.value.0), Parse(Drop(track, cursor), tick, running, Kept));
      events := Join(events, At(tick, body.value.0));
    }
    JoinEmpty(events);
    return Ok(events);
  }

  lemma JoinEmpty(events: TrackEvents)
    ensures Join(events, NOTHING) == events
  {
    assert events.tempos + [] == events.tempos && events.notes + [] == events.notes;
  }

  // ---- the writer

  datatype Event =
    | Channel(status: byte, data: Bytes)
    | Meta(kind: byte, payload: Bytes)
    | Sysex(status: byte, payload: Bytes)

  /** An event after `delta` ticks; a channel event may leave its status byte out. */
  datatype Timed = Timed(delta: nat, event: Event, omitStatus: bool)

  /** By the table of the MIDI 1.0 specification: program change (0xC0) and channel pressure (0xD0)
      have one data byte, all other channel messages two. */
  function DataBytes(status: byte): nat { if 0xC0 <= status < 0xE0 then 1 else 2 }

  predicate WellFormed(e: Event) {
    match e
    case Channel(status, data) =>
      0x80 <= status < 0xF0 && |data| == DataBytes(status) && (forall i :: 0 <= i < |data| ==> data[i] < 0x80)
    case Meta(_, _) => true
    case Sysex(status, _) => status == 0xF0 || status == 0xF7
  }

  function StatusOf(e: Event): byte { if e.Meta? then 0xFF else e.status }

  /** Every event is well formed, and a status byte is left out only where it repeats the running one. */
  predicate Writable(events: seq<Timed>, running: Running, rule: Rule) {
    events == []
    || (WellFormed(events[0].event)
        && (events[0].omitStatus ==> events[0].event.Channel? && running == Running(events[0].event.status))
        && Writable(events[1..], RunningAfter(StatusOf(events[0].event), running, rule), rule))
  }

  function WriteEvent(t: Timed): Bytes {
    EncodeVlq(t.delta) +
    match t.event
    case Channel(status, data) => (if t.omitStatus then [] else [status]) + data
    case Meta(kind, payload) => [0xFF, kind] + EncodeVlq(|payload|) + payload
    case Sysex(status, payload) => [status] + EncodeVlq(|payload|) + payload
  }

  function WriteTrack(events: seq<Timed>): Bytes {
    if events == [] then [] else WriteEvent(events[0]) + WriteTrack(events[1..])
  }

  /** What an event means to the reader: a three-byte 0x51 meta event sets the tempo,
      a note-on of positive velocity strikes. */
  function EffectOf(e: Event): Effect {
    match e
    case Channel(status, data) =>
      if status / 16 == 9 && |data| == 2 && data[1] > 0 then Strike(data[0]) else NoEffect
    case Meta(kind, payload) => if kind == 0x51 && |payload| == 3 then SetTempo(BigEndian(payload)) else NoEffect
    case Sysex(_, _) => NoEffect
  }

  /** Tempo changes and strikes at their cumulative ticks. */
  function Meaning(events: seq<Timed>, tick: nat): TrackEvents {
    if events == [] then NOTHING
    else Join(At(tick + events[0].delta, EffectOf(events[0].event)),
              Meaning(events[1..], tick + events[0].delta))
  }

  /** The bytes of an event after its status byte. */
  function BodyBytes(e: Event): Bytes {
    match e
    case Channel(_, data) => data
    case Meta(kind, payload) => [kind] + EncodeVlq(|payload|) + payload
    case Sysex(_, payload) => EncodeVlq(|payload|) + payload
  }

  lemma WriteEventSplit(t: Timed, rest: Bytes)
    requires WellFormed(t.event) && (t.omitStatus ==> t.event.Channel?)
    ensures WriteEvent(t) + rest ==
            EncodeVlq(t.delta) + ((if t.omitStatus then [] else [StatusOf(t.event)]) + (BodyBytes(t.event) + rest))
  {
    hide EncodeVlq;
    if t.event.Meta? {
      assert [0xFF, t.event.kind] == [0xFF] + [t.event.kind];
    }
  }

  lemma TakeDrop(payload: Bytes, rest: Bytes)
    ensures Take(payload + rest, |payload|) == payload && Drop(payload + rest, |payload|) == rest
  {
  }

  lemma BodyRoundTrip(e: Event, rest: Bytes)
    requires WellFormed(e)
    ensures ParseBody(StatusOf(e), BodyBytes(e) + rest) == Ok((EffectOf(e), rest))
  {
    hide ParseVlq, EncodeVlq, BigEndian, Take, Drop;
    match e
    case Channel(status, data) =>
      TakeDrop(data, rest);
    case Meta(kind, payload) =>
      var b := BodyBytes(e) + rest;
      assert b[0] == kind;
      assert b[1..] == EncodeVlq(|payload|) + (payload + rest);
      VlqRoundTrip(|payload|, payload + rest);
      TakeDrop(payload, rest);
    case Sysex(status, payload) =>
      assert BodyBytes(e) + rest == EncodeVlq(|payload|) + (payload + rest);
      VlqRoundTrip(|payload|, payload + rest);
      TakeDrop(payload, rest);
  }

  lemma BodyOfChannel(e: Event, rest: Bytes)
    requires WellFormed(e) && e.Channel?
    ensures BodyBytes(e) + rest != [] && (BodyBytes(e) + rest)[0] < 0x80
  {
  }

  lemma VlqNotEmpty(n: nat)
    ensures EncodeVlq(n) != []
  {
  }

  /** Reading one written event, whatever follows it. */
  lemma EventRoundTrip(t: Timed, rest: Bytes, tick: nat, running: Running, rule: Rule)
    requires WellFormed(t.event)
    requires t.omitStatus ==> t.event.Channel? && running == Running(t.event.status)
    ensures Parse(WriteEvent(t) + rest, tick, running, rule) ==
            JoinResult(At(tick + t.delta, EffectOf(t.event)),
                       Parse(rest, tick + t.delta, RunningAfter(StatusOf(t.event), running, rule), rule))
  {
    hide Parse, ParseVlq, ParseBody, EncodeVlq, BodyBytes, WriteEvent, EffectOf, At;
    var body := BodyBytes(t.event) + rest;
    var afterDelta := (if t.omitStatus then [] else [StatusOf(t.event)]) + body;
    WriteEventSplit(t, rest);
    VlqRoundTrip(t.delta, afterDelta);
    VlqNotEmpty(t.delta);
    BodyRoundTrip(t.event, rest);
    if t.omitStatus {
      assert afterDelta == body && body[0] < 0x80 by { BodyOfChannel(t.event, rest); }
    } else {
      assert afterDelta[1..] == body;
    }
    ParseStep(WriteEvent(t) + rest, tick, running, rule, t.delta, afterDelta, StatusOf(t.event), body);
  }

  /** One unfolding of `Parse` through the status byte and the body. */
  lemma ParseStep(b: Bytes, tick: nat, running: Running, rule: Rule, delta: nat, b': Bytes, status: byte, body: Bytes)
    requires b != [] && b' != [] && ParseVlq(b, 0) == Ok((delta, b'))
    requires b'[0] < 0x80 ==> running == Running(status) && body == b'
    requires b'[0] >= 0x80 ==> status == b'[0] && body == b'[1..]
    ensures Parse(b, tick, running, rule) ==
            ParseRest(status, body, tick + delta,
                      if b'[0] < 0x80 then running else RunningAfter(status, running, rule), rule)
  {
    hide ParseVlq, ParseBody, ParseRest;
  }

  lemma ParseNothing(tick: nat, running: Running, rule: Rule)
    ensures Parse([], tick, running, rule) == Ok(NOTHING)
  {
  }

  /** Reading a written track gives back exactly its tempo changes and strikes. */
  lemma {:induction false} TrackRoundTrip(events: seq<Timed>, tick: nat, running: Running, rule: Rule)
    requires Writable(events, running, rule)
    ensures Parse(WriteTrack(events), tick, running, rule) == Ok(Meaning(events, tick))
  {
    hide Parse, WriteEvent, EffectOf, At, Join, RunningAfter;
    if events == [] {
      ParseNothing(tick, running, rule);
    } else {
      var t := events[0];
      EventRoundTrip(t, WriteTrack(events[1..]), tick, running, rule);
      TrackRoundTrip(events[1..], tick + t.delta, RunningAfter(StatusOf(t.event), running, rule), rule);
    }
  }

  // ---- tracks that end inside an event

  /** One event with a status byte, and the rest of the track if there is one. */
  lemma LastEvent(delta: nat, status: byte, body: Bytes, tick: nat, running: Running, rule: Rule)
    requires status >= 0x80
    ensures Parse(EncodeVlq(delta) + ([status] + body), tick, running, rule) ==
            match ParseBody(status, body)
            case Err(e) => Err(e)
            case Ok((effect, rest)) =>
              if rest == [] then Ok(At(tick + delta, effect))
              else JoinResult(At(tick + delta, effect),
                              Parse(rest, tick + delta, RunningAfter(status, running, rule), rule))
  {
    hide Parse, ParseBody, ParseVlq, EncodeVlq;
    VlqRoundTrip(delta, [status] + body);
    VlqNotEmpty(delta);
    assert ([status] + body)[1..] == body;
    ParseStep(EncodeVlq(delta) + ([status] + body), tick, running, rule, delta, [status] + body, status, body);
    ParseNothing(tick + delta, RunningAfter(status, running, rule), rule);
    if ParseBody(status, body).Ok? {
      JoinEmpty(At(tick + delta, ParseBody(status, body).value.0));
    }
  }

  /** Any other status byte from 0xF1 on is read like a channel event of two data bytes that does
      nothing, and under the script's rule leaves the running status alone. */
  lemma OtherSystemEvent(delta: nat, status: byte, x: byte, y: byte, rest: Bytes, tick: nat, running: Running)
    requires 0xF1 <= status <= 0xFE && status != 0xF7
    ensures Parse(EncodeVlq(delta) + ([status] + ([x, y] + rest)), tick, running, Kept) ==
            Parse(rest, tick + delta, running, Kept)
  {
    hide EncodeVlq, Parse;
    LastEvent(delta, status, [x, y] + rest, tick, running, Kept);
    assert Drop([x, y] + rest, 2) == rest;
    JoinNothing(Parse(rest, tick + delta, running, Kept));
    ParseNothing(tick + delta, running, Kept);
  }

  /** A channel event whose data bytes are cut off strikes nothing and raises nothing. */
  lemma CutChannelEvent(delta: nat, status: byte, data: Bytes, tick: nat, running: Running, rule: Rule)
    requires 0x80 <= status < 0xF0 && |data| < DataBytes(status)
    ensures Parse(EncodeVlq(delta) + ([status] + data), tick, running, rule) == Ok(NOTHING)
  {
    hide EncodeVlq, Parse;
    LastEvent(delta, status, data, tick, running, rule);
  }

  /** A meta event that ends early counts with the bytes that are there: a cut tempo is a smaller tempo. */
  lemma CutMetaEvent(delta: nat, kind: byte, length: nat, payload: Bytes, tick: nat, running: Running, rule: Rule)
    requires |payload| <= length
    ensures Parse(EncodeVlq(delta) + ([0xFF] + ([kind] + (EncodeVlq(length) + payload))), tick, running, rule) ==
            Ok(if kind == 0x51 && length == 3
               then TrackEvents([TempoEvent(tick + delta, BigEndian(payload))], []) else NOTHING)
  {
    hide EncodeVlq, ParseVlq, BigEndian, Parse;
    var body := [kind] + (EncodeVlq(length) + payload);
    LastEvent(delta, 0xFF, body, tick, running, rule);
    assert body[1..] == EncodeVlq(length) + payload;
    VlqRoundTrip(length, payload);
    assert Take(payload, length) == payload && Drop(payload, length) == [];
  }

  lemma CutSysexEvent(delta: nat, status: byte, length: nat, payload: Bytes, tick: nat, running: Running, rule: Rule)
    requires (status == 0xF0 || status == 0xF7) && |payload| <= length
    ensures Parse(EncodeVlq(delta) + ([status] + (EncodeVlq(length) + payload)), tick, running, rule) == Ok(NOTHING)
  {
    hide EncodeVlq, ParseVlq, Parse;
    LastEvent(delta, status, EncodeVlq(length) + payload, tick, running, rule);
    VlqRoundTrip(length, payload);
    assert Drop(payload, length) == [];
  }

  /** Only the bytes that are indexed must be there: the status byte, the kind of a meta event and
      the bytes of a quantity. */
  lemma CutBeforeLength(delta: nat, kind: byte, tick: nat, running: Running, rule: Rule)
    ensures Parse(EncodeVlq(delta), tick, running, rule) == Err(Truncated)
    ensures forall status: byte :: status == 0xFF || status == 0xF0 || status == 0xF7 ==>
      Parse(EncodeVlq(delta) + ([status] + []), tick, running, rule) == Err(Truncated)
    ensures Parse(EncodeVlq(delta) + ([0xFF] + [kind]), tick, running, rule) == Err(Truncated)
  {
    hide EncodeVlq;
    VlqRoundTrip(delta, []);
    assert EncodeVlq(delta) + [] == EncodeVlq(delta);
    VlqNotEmpty(delta);
    forall status: byte | status == 0xFF || status == 0xF0 || status == 0xF7
      ensures Parse(EncodeVlq(delta) + ([status] + []), tick, running, rule) == Err(Truncated)
    {
      LastEvent(delta, status, [], tick, running, rule);
    }
    LastEvent(delta, 0xFF, [kind], tick, running, rule);
    assert [kind][1..] == [];
  }

  // ---- where the script's reading and the standard's differ

  /** Event `i` comes right after a channel event (`first`: whether one precedes the list). */
  predicate AfterChannel(events: seq<Timed>, i: nat, first: bool)
    requires i < |events|
  {
    if i == 0 then first else events[i - 1].event.Channel?
  }

  predicate OmittedAfterChannel(events: seq<Timed>, first: bool) {
    forall i :: 0 <= i < |events| && events[i].omitStatus ==> AfterChannel(events, i, first)
  }

  lemma OmittedUnfolds(events: seq<Timed>, first: bool)
    requires events != []
    ensures OmittedAfterChannel(events, first) <==>
            (events[0].omitStatus ==> first) && OmittedAfterChannel(events[1..], events[0].event.Channel?)
  {
    var rest, next := events[1..], events[0].event.Channel?;
    forall i | 0 <= i < |rest|
      ensures rest[i] == events[i + 1] && AfterChannel(rest, i, next) == AfterChannel(events, i + 1, first)
    {
    }
  }

  /** Of what the script reads, the standard admits exactly the tracks that leave out no
      status byte behind a meta or sysex event. */
  lemma {:induction false} StandardTracks(events: seq<Timed>, kept: Running, cancelled: Running)
    requires Writable(events, kept, Kept) && (cancelled == kept || cancelled == NoStatus)
    ensures Writable(events, cancelled, Cancelled) <==> OmittedAfterChannel(events, cancelled.Running?)
  {
    hide OmittedAfterChannel;
    if events == [] {
      OmittedNowhere(cancelled.Running?);
    } else {
      var e := events[0].event;
      OmittedUnfolds(events, cancelled.Running?);
      StandardTracks(events[1..], RunningAfter(StatusOf(e), kept, Kept),
                     RunningAfter(StatusOf(e), cancelled, Cancelled));
    }
  }

  lemma OmittedSpelledOut(events: seq<Timed>)
    ensures OmittedAfterChannel(events, false) <==>
            forall i :: 0 <= i < |events| && events[i].omitStatus ==> i > 0 && events[i - 1].event.Channel?
  {
  }

  lemma OmittedNowhere(first: bool)
    ensures OmittedAfterChannel([], first)
  {
  }

  /** A track the standard admits is one the script reads. */
  lemma {:induction false} StandardIsKept(events: seq<Timed>, kept: Running, cancelled: Running)
    requires Writable(events, cancelled, Cancelled) && (cancelled == kept || cancelled == NoStatus)
    ensures Writable(events, kept, Kept)
  {
    if events != [] {
      var e := events[0].event;
      StandardIsKept(events[1..], RunningAfter(StatusOf(e), kept, Kept),
                     RunningAfter(StatusOf(e), cancelled, Cancelled));
    }
  }

  /** Without a running status, an event that leaves its status byte out cannot be read. */
  lemma StatusMissing(t: Timed, rest: Bytes, tick: nat, rule: Rule)
    requires WellFormed(t.event) && t.event.Channel? && t.omitStatus
    ensures Parse(WriteEvent(t) + rest, tick, NoStatus, rule) == Err(RunningStatusWithoutStatus)
  {
    hide ParseVlq, ParseBody, EncodeVlq, BodyBytes, WriteEvent;
    var body := BodyBytes(t.event) + rest;
    WriteEventSplit(t, rest);
    assert [] + body == body;
    VlqRoundTrip(t.delta, body);
    VlqNotEmpty(t.delta);
    BodyOfChannel(t.event, rest);
  }

  /** On every other track the script reads, the standard's reading is an error. */
  lemma {:induction false} StandardRejects(events: seq<Timed>, tick: nat, kept: Running, cancelled: Running)
    requires Writable(events, kept, Kept) && (cancelled == kept || cancelled == NoStatus)
    requires !Writable(events, cancelled, Cancelled)
    ensures Parse(WriteTrack(events), tick, cancelled, Cancelled) == Err(RunningStatusWithoutStatus)
  {
    hide Parse, WriteEvent, EffectOf, At, Join;
    var t := events[0];
    var rest := WriteTrack(events[1..]);
    if t.omitStatus && cancelled == NoStatus {
      StatusMissing(t, rest, tick, Cancelled);
    } else {
      EventRoundTrip(t, rest, tick, cancelled, Cancelled);
      StandardRejects(events[1..], tick + t.delta, RunningAfter(StatusOf(t.event), kept, Kept),
                      RunningAfter(StatusOf(t.event), cancelled, Cancelled));
    }
  }

  /** The script and the standard read a written track alike exactly when every status byte
      left out follows a channel event directly; otherwise the standard's reading is an error. */
  lemma {:induction false} ReadingsAgreeIff(events: seq<Timed>)
    requires Writable(events, NoStatus, Kept)
    ensures var script, standard := Parse(WriteTrack(events), 0, NoStatus, Kept),
                                    Parse(WriteTrack(events), 0, NoStatus, Cancelled);
      && script == Ok(Meaning(events, 0))
      && (standard == script <==>
          forall i :: 0 <= i < |events| && events[i].omitStatus ==> i > 0 && events[i - 1].event.Channel?)
      && (standard != script ==> standard == Err(RunningStatusWithoutStatus))
  {
    hide Parse, Writable, WriteTrack, Meaning;
    OmittedSpelledOut(events);
    TrackRoundTrip(events, 0, NoStatus, Kept);
    StandardTracks(events, NoStatus, NoStatus);
    if Writable(events, NoStatus, Cancelled) {
      TrackRoundTrip(events, 0, NoStatus, Cancelled);
    } else {
      StandardRejects(events, 0, NoStatus, NoStatus);
    }
  }

  lemma FirstEvent(t: Timed, rest: seq<Timed>, tick: nat, running: Running, rule: Rule)
    ensures Meaning([t] + rest, tick) == Join(At(tick + t.delta, EffectOf(t.event)), Meaning(rest, tick + t.delta))
    ensures Writable([t] + rest, running, rule) <==>
            && WellFormed(t.event)
            && (t.omitStatus ==> t.event.Channel? && running == Running(t.event.status))
            && Writable(rest, RunningAfter(StatusOf(t.event), running, rule), rule)
  {
    assert ([t] + rest)[1..] == rest;
  }

  /** A note-on, a text event, and a note-on without its status byte: the script reads two
      strikes, the standard an error. */
  lemma ReadingsDiffer() returns (events: seq<Timed>)
    ensures Writable(events, NoStatus, Kept)
    ensures Parse(WriteTrack(events), 0, NoStatus, Kept) == Ok(TrackEvents([], [NoteEvent(0, 60), NoteEvent(20, 64)]))
    ensures Parse(WriteTrack(events), 0, NoStatus, Cancelled) == Err(RunningStatusWithoutStatus)
  {
    hide Parse, WriteTrack, Meaning, Writable;
    var first := Timed(0, Channel(0x90, [60, 100]), false);
    var text := Timed(10, Meta(1, []), false);
    var second := Timed(10, Channel(0x90, [64, 100]), true);
    assert Meaning([], 20) == NOTHING && Writable([], Running(0x90), Kept) by { NoEvents(20, Running(0x90), Kept); }
    FirstEvent(second, [], 10, Running(0x90), Kept);
    FirstEvent(text, [second] + [], 0, Running(0x90), Kept);
    FirstEvent(first, [text] + ([second] + []), 0, NoStatus, Kept);
    events := [first] + ([text] + ([second] + []));
    ReadingsAgreeIff(events);
    assert Meaning(events, 0).tempos == [] && Meaning(events, 0).notes == [NoteEvent(0, 60), NoteEvent(20, 64)];
    assert events[2].omitStatus && !events[1].event.Channel?;
  }

  lemma NoEvents(tick: nat, running: Running, rule: Rule)
    ensures Meaning([], tick) == NOTHING && Writable([], running, rule)
  {
  }
}
