/** The seekable reader over HTTP byte ranges: with one cached block it must read like
    the file in memory. */
module RangeReader {
  import opened Extremum
  import opened Wrappers

  type Bytes = seq<int>

  datatype Whence = SeekSet | SeekCur | SeekEnd | Unsupported

  datatype ReadError = UnsupportedWhence | BeforeBeginning | UnexpectedStatus(status: int)

  const PARTIAL_CONTENT := 206

  // ---- the file in memory, the reference

  function SeekTarget(length: nat, pos: int, offset: int, whence: Whence): int {
    match whence
    case SeekCur => pos + offset
    case SeekEnd => length + offset
    case _ => offset
  }

  function FileSeek(length: nat, pos: nat, offset: int, whence: Whence): Result<nat, ReadError> {
    if whence == Unsupported then Err(UnsupportedWhence)
    else if SeekTarget(length, pos, offset, whence) < 0 then Err(BeforeBeginning)
    else Ok(SeekTarget(length, pos, offset, whence))
  }

  /** `size` absent or negative means the rest; past the end there is nothing. */
  function FileRead(file: Bytes, pos: nat, size: Option<int>): Bytes {
    if pos >= |file| then []
    else if size.None? || size.value < 0 || size.value > |file| - pos then file[pos..]
    else file[pos..pos + size.value]
  }

  /** A byte-range request, both ends inclusive. */
  datatype Request = Request(first: int, last: int)

  class HttpRangeReader {
    const file: Bytes       // what the server holds
    const blockSize: int
    var pos: nat
    var cacheStart: int
    var cache: Bytes
    ghost var requests: seq<Request>

    /** The cache is a true slice of the file, or still empty. */
    ghost predicate Valid()
      reads this
    {
      (cacheStart == -1 && cache == [])
      || (0 <= cacheStart && cacheStart + |cache| <= |file| && cache == file[cacheStart..cacheStart + |cache|])
    }

    constructor (file: Bytes, blockSize: int)
      ensures Valid() && pos == 0 && requests == []
      ensures this.file == file && this.blockSize == blockSize
    {
      this.file, this.blockSize := file, blockSize;
      pos, cacheStart, cache, requests := 0, -1, [], [];
    }

    method Tell() returns (p: nat)
      ensures p == pos
    {
      p := pos;
    }

    method Seek(offset: int, whence: Whence) returns (r: Result<nat, ReadError>)
      requires Valid()
      modifies this`pos
      ensures Valid() && r == FileSeek(|file|, old(pos), offset, whence)
      ensures pos == if r.Ok? then r.value else old(pos)
    {
      var newPosition;
      match whence {
        case SeekSet => newPosition := offset;
        case SeekCur => newPosition := pos + offset;
        case SeekEnd => newPosition := |file| + offset;
        case Unsupported => return Err(UnsupportedWhence);
      }
      if newPosition < 0 {
        return Err(BeforeBeginning);
      }
      pos := newPosition;
      return Ok(pos);
    }

    /** The faithful server: exactly the requested range. */
    method Fetch(request: Request) returns (body: Bytes)
      requires 0 <= request.first <= request.last < |file|
      modifies this`requests
      ensures requests == old(requests) + [request]
      ensures body == file[request.first..request.last + 1]
    {
      requests := requests + [request];
      body := file[request.first..request.last + 1];
    }

    /** Make the cache cover [start, end), asking the server only when it does not. */
    method Cover(start: nat, end: nat, status: int) returns (failed: bool)
      requires Valid() && start < end <= |file|
      modifies this`cache, this`cacheStart, this`requests
      ensures Valid()
      ensures failed <==> requests != old(requests) && status != 206
      ensures failed ==> cache == old(cache) && cacheStart == old(cacheStart)
      ensures !failed ==> 0 <= cacheStart <= start && end <= cacheStart + |cache|
      ensures requests == old(requests) <==> old(Covers(start, end))
      ensures requests != old(requests) ==>
        exists q :: requests == old(requests) + [q] && NeededRequest(q, |file|, start, end - start, blockSize)
    {
      var cacheEnd := cacheStart + |cache|;
      failed := false;
      if !(cacheStart <= start && end <= cacheEnd) {
        var fetchEnd := Min(|file|, Max(end, start + blockSize)) - 1;
        assert NeededRequest(Request(start, fetchEnd), |file|, start, end - start, blockSize);
        var body := Fetch(Request(start, fetchEnd));
        if status != PARTIAL_CONTENT {
          failed := true;
        } else {
          cache := body;
          cacheStart := start;
        }
      }
    }

    ghost predicate Covers(start: nat, end: nat)
      reads this
    {
      cacheStart <= start && end <= cacheStart + |cache|
    }

    /** `status` is what the server answers, should a request be needed. */
    method Read(size: Option<int>, status: int) returns (r: Result<Bytes, ReadError>)
      requires Valid()
      modifies this
      ensures Valid()
      ensures r.Ok? ==> r.value == FileRead(file, old(pos), size) && pos == old(pos) + |r.value|
      ensures r.Err? ==> r.error == UnexpectedStatus(status) && status != 206 && pos == old(pos)
      ensures r.Err? ==> cache == old(cache) && cacheStart == old(cacheStart)
      ensures var count := |FileRead(file, old(pos), size)|;
        && (requests == old(requests) <==> count == 0 || old(Covers(pos, pos + |FileRead(file, pos, size)|)))
        && (requests != old(requests) ==>
              exists q :: requests == old(requests) + [q] && NeededRequest(q, |file|, old(pos), count, blockSize))
    {
      hide FileRead, NeededRequest;
      FileReadSlice(file, pos, size);
      var wanted := if size.None? || size.value < 0 then |file| - pos else size.value;
      if wanted == 0 || pos >= |file| {
        return Ok([]);
      }
      wanted := Min(wanted, |file| - pos);
      var start, end := pos, pos + wanted;
      var failed := Cover(start, end, status);
      if failed {
        return Err(UnexpectedStatus(status));
      }
      var relativeStart := start - cacheStart;
      var data := cache[relativeStart..relativeStart + wanted];
      SliceOfSlice(file, cacheStart, |cache|, start, end);
      pos := pos + |data|;
      return Ok(data);
    }
  }

  lemma SliceOfSlice(file: Bytes, from: nat, count: nat, start: nat, end: nat)
    requires from <= start <= end <= from + count <= |file|
    ensures file[from..from + count][start - from..end - from] == file[start..end]
  {
    var block := file[from..from + count];
    forall k | 0 <= k < end - start ensures block[start - from..end - from][k] == file[start..end][k] {
      assert block[start - from + k] == file[start + k];
    }
  }

  lemma FileReadSlice(file: Bytes, pos: nat, size: Option<int>)
    ensures pos >= |file| || size == Some(0) ==> FileRead(file, pos, size) == []
    ensures pos < |file| && size != Some(0) ==>
      var wanted := Min(if size.None? || size.value < 0 then |file| - pos else size.value, |file| - pos);
      wanted > 0 && FileRead(file, pos, size) == file[pos..pos + wanted]
  {
  }

  /** In bounds, starting where the caller reads, and no longer than the read or one block. */
  predicate NeededRequest(q: Request, length: nat, pos: nat, count: nat, blockSize: int) {
    && q.first == pos && q.first <= q.last < length
    && pos + count <= q.last + 1
    && (q.last + 1 - q.first <= count || q.last + 1 - q.first <= blockSize)
  }

  // ---- any sequence of operations

  datatype Operation = DoSeek(offset: int, whence: Whence) | DoRead(size: Option<int>)

  datatype Outcome = Moved(result: Result<nat, ReadError>) | Data(bytes: Bytes)

  /** What the in-memory file answers to one operation, and where that leaves it. */
  function Answer(file: Bytes, pos: nat, op: Operation): Outcome {
    if op.DoSeek? then Moved(FileSeek(|file|, pos, op.offset, op.whence)) else Data(FileRead(file, pos, op.size))
  }

  function PositionAfter(pos: nat, answer: Outcome): nat {
    if answer.Data? then pos + |answer.bytes| else if answer.result.Ok? then answer.result.value else pos
  }

  function FileRun(file: Bytes, pos: nat, ops: seq<Operation>): seq<Outcome>
    decreases |ops|
  {
    if ops == [] then []
    else
      var answer := Answer(file, pos, ops[0]);
      [answer] + FileRun(file, PositionAfter(pos, answer), ops[1..])
  }

  /** A reader over a server that always answers 206 gives the same bytes and positions as
      the file, whatever the operations and the block size. */
  method RunOperations(file: Bytes, blockSize: int, ops: seq<Operation>) returns (outcomes: seq<Outcome>)
    ensures outcomes == FileRun(file, 0, ops)
  {
    hide FileRun, FileSeek, FileRead;
    var reader := new HttpRangeReader(file, blockSize);
    outcomes := [];
    var i := 0;
    assert ops[0..] == ops;
    while i < |ops|
      invariant 0 <= i <= |ops|
      invariant reader.Valid() && fresh(reader) && reader.file == file
      invariant FileRun(file, 0, ops) == outcomes + FileRun(file, reader.pos, ops[i..])
    {
      FileRunStep(file, reader.pos, ops, i);
      var op := ops[i];
      if op.DoSeek? {
        var r := reader.Seek(op.offset, op.whence);
        outcomes := outcomes + [Moved(r)];
      } else {
        var r := reader.Read(op.size, PARTIAL_CONTENT);
        outcomes := outcomes + [Data(r.value)];
      }
      i := i + 1;
    }
    FileRunNothing(file, reader.pos);
    assert ops[|ops|..] == [];
    assert outcomes + [] == outcomes;
  }

  lemma FileRunNothing(file: Bytes, pos: nat)
    ensures FileRun(file, pos, []) == []
  {
  }

  lemma FileRunStep(file: Bytes, pos: nat, ops: seq<Operation>, i: nat)
    requires i < |ops|
    ensures FileRun(file, pos, ops[i..]) ==
            [Answer(file, pos, ops[i])] + FileRun(file, PositionAfter(pos, Answer(file, pos, ops[i])), ops[i + 1..])
  {
    assert ops[i..][1..] == ops[i + 1..];
  }

  function Joined(outcomes: seq<Outcome>): Bytes {
    if outcomes == [] then []
    else (if outcomes[0].Data? then outcomes[0].bytes else []) + Joined(outcomes[1..])
  }

  function Reads(sizes: seq<nat>): seq<Operation> {
    seq(|sizes|, i requires 0 <= i < |sizes| => DoRead(Some(sizes[i])))
  }

  function Total(sizes: seq<nat>): nat { if sizes == [] then 0 else sizes[0] + Total(sizes[1..]) }

  lemma ReadSplit(file: Bytes, pos: nat, a: nat, b: nat)
    ensures var first := FileRead(file, pos, Some(a));
      first + FileRead(file, pos + |first|, Some(b)) == FileRead(file, pos, Some(a + b))
  {
  }

  /** Consecutive reads add up to one read of the total size. */
  lemma {:induction false} ReadsAddUp(file: Bytes, pos: nat, sizes: seq<nat>)
    ensures Joined(FileRun(file, pos, Reads(sizes))) == FileRead(file, pos, Some(Total(sizes)))
    decreases |sizes|
  {
    hide FileSeek, FileRead;
    if sizes == [] {
      FileReadSlice(file, pos, Some(0));
    } else {
      ReadSplit(file, pos, sizes[0], Total(sizes[1..]));
      var data := FileRead(file, pos, Some(sizes[0]));
      assert Reads(sizes)[1..] == Reads(sizes[1..]);
      var outcomes := FileRun(file, pos, Reads(sizes));
      assert outcomes[1..] == FileRun(file, pos + |data|, Reads(sizes[1..]));
      ReadsAddUp(file, pos + |data|, sizes[1..]);
    }
  }
}
