/** The rolling PCM buffer: a trimmed deque of chunks with absolute sample indices,
    which must read like a window on the whole stream. */
module RollingBuffer {
  import opened Extremum
  import opened Sequences
  import opened Wrappers

  type Samples = seq<real>

  datatype BufferError = BeforeRetained | AfterReceived | FailedToCollect

  /** How many of `received` samples a buffer of this capacity still holds; a negative capacity holds none. */
  function Retained(received: nat, maxRetained: int): nat { Min(received, if maxRetained < 0 then 0 else maxRetained) }

  /** What `extract` owes its caller, in terms of the whole stream. */
  function Window(stream: Samples, maxRetained: int, start: int, end: int): Result<Samples, BufferError> {
    if start < |stream| - Retained(|stream|, maxRetained) then Err(BeforeRetained)
    else if end > |stream| then Err(AfterReceived)
    else if start >= end then Ok([])
    else Ok(stream[start..end])
  }

  class RollingPcmBuffer {
    const maxRetainedSamples: int
    var chunks: seq<Samples>
    var startSampleIndex: nat
    var receivedSamples: nat
    var storedSamples: nat
    ghost var stream: Samples  // everything ever appended

    /** The chunks are the newest part of the stream. */
    ghost predicate Aligned()
      reads this
    {
      && receivedSamples == |stream|
      && storedSamples == |Flatten(chunks)|
      && startSampleIndex + storedSamples == receivedSamples
      && Flatten(chunks) == stream[startSampleIndex..]
      && (forall i :: 0 <= i < |chunks| ==> chunks[i] != [])
    }

    ghost predicate Valid()
      reads this
    {
      Aligned() && storedSamples == Retained(receivedSamples, maxRetainedSamples)
    }

    constructor (maxRetainedSamples: int)
      ensures Valid() && stream == [] && this.maxRetainedSamples == maxRetainedSamples
    {
      this.maxRetainedSamples := maxRetainedSamples;
      chunks, stream := [], [];
      startSampleIndex, receivedSamples, storedSamples := 0, 0, 0;
    }

    method Append(chunk: Samples)
      requires Valid()
      modifies this
      ensures Valid() && stream == old(stream) + chunk
    {
      if chunk == [] {
        assert stream + chunk == stream;
        return;
      }
      hide Flatten, Retained;
      FlattenAppend(chunks, chunk);
      RetainedGrows(receivedSamples, |chunk|, maxRetainedSamples);
      chunks := chunks + [chunk];
      receivedSamples := receivedSamples + |chunk|;
      storedSamples := storedSamples + |chunk|;
      stream := stream + chunk;
      SliceOfLonger(old(stream), chunk, startSampleIndex);
      Trim();
    }

    /** Drop whole chunks from the front, then cut the first remaining one. */
    method Trim()
      requires Aligned() && storedSamples >= Retained(receivedSamples, maxRetainedSamples)
      modifies this
      ensures Valid() && stream == old(stream)
    {
      hide Flatten, Retained;
      FlattenNothing<real>();
      while storedSamples > maxRetainedSamples && chunks != []
        invariant Aligned() && storedSamples >= Retained(receivedSamples, maxRetainedSamples)
        invariant stream == old(stream)
        decreases |chunks|
      {
        RetainedWithin(receivedSamples, maxRetainedSamples);
        var excess := storedSamples - maxRetainedSamples;
        var first := chunks[0];
        FlattenFirst(chunks);
        ghost var dropped := if excess >= |first| then |first| else excess;
        SliceAgain(stream, startSampleIndex, dropped);
        SliceOfJoin(first, Flatten(chunks[1..]), dropped);
        if excess >= |first| {
          chunks := chunks[1..];
          startSampleIndex := startSampleIndex + |first|;
          storedSamples := storedSamples - |first|;
        } else {
          chunks := chunks[0 := first[excess..]];
          FlattenFirst(chunks);
          startSampleIndex := startSampleIndex + excess;
          storedSamples := storedSamples - excess;
          break;
        }
      }
      RetainedReached(storedSamples, receivedSamples, maxRetainedSamples);
    }

    method Extract(start: int, end: int) returns (r: Result<Samples, BufferError>)
      requires Valid()
      ensures r == Window(stream, maxRetainedSamples, start, end)
    {
      hide Flatten, Retained;
      if start < startSampleIndex {
        return Err(BeforeRetained);
      }
      if end > receivedSamples {
        return Err(AfterReceived);
      }
      if start >= end {
        return Ok([]);
      }
      var offset := start - startSampleIndex;
      var remaining := end - start;
      var collected: Samples := [];
      ghost var wanted := stream[start..end];
      assert wanted == Flatten(chunks)[offset..offset + remaining];
      var i := 0;
      assert chunks[i..] == chunks;
      while i < |chunks|
        invariant remaining > 0
        invariant 0 <= i <= |chunks| && 0 <= offset
        invariant offset + remaining <= |Flatten(chunks[i..])|
        invariant collected + Flatten(chunks[i..])[offset..offset + remaining] == wanted
      {
        var chunk := chunks[i];
        ghost var rest := Flatten(chunks[i + 1..]);
        SplitFirst(chunks, i);
        i := i + 1;
        if offset >= |chunk| {
          SkipChunk(chunk, rest, offset, remaining);
          offset := offset - |chunk|;
          continue;
        }
        var take := Min(|chunk| - offset, remaining);
        TakeFromChunk(collected, chunk, rest, offset, remaining, take);
        collected := collected + chunk[offset..offset + take];
        remaining := remaining - take;
        offset := 0;
        if remaining == 0 {
          break;
        }
      }
      assert i == |chunks| ==> chunks[i..] == [];
      FlattenNothing<real>();
      if remaining != 0 {
        return Err(FailedToCollect);
      }
      return Ok(collected);
    }
  }

  lemma SliceOfLonger(s: Samples, more: Samples, k: nat)
    requires k <= |s|
    ensures (s + more)[k..] == s[k..] + more
  {
  }

  lemma SliceAgain(s: Samples, a: nat, b: nat)
    requires a + b <= |s|
    ensures s[a..][b..] == s[a + b..]
  {
  }

  lemma SliceOfJoin(first: Samples, rest: Samples, n: nat)
    requires n <= |first|
    ensures (first + rest)[n..] == first[n..] + rest
    ensures (first + rest)[|first|..] == rest
  {
  }

  lemma RetainedGrows(received: nat, more: nat, maxRetained: int)
    ensures Retained(received + more, maxRetained) <= Retained(received, maxRetained) + more
  {
  }

  lemma RetainedWithin(received: nat, maxRetained: int)
    ensures Retained(received, maxRetained) <= received
    ensures maxRetained >= 0 ==> Retained(received, maxRetained) <= maxRetained
    ensures maxRetained < 0 ==> Retained(received, maxRetained) == 0
  {
  }

  lemma RetainedReached(stored: nat, received: nat, maxRetained: int)
    requires Retained(received, maxRetained) <= stored <= received
    requires stored <= maxRetained || stored == 0
    ensures stored == Retained(received, maxRetained)
  {
  }

  lemma SkipChunk(chunk: Samples, rest: Samples, offset: nat, count: nat)
    requires |chunk| <= offset && offset + count <= |chunk| + |rest|
    ensures (chunk + rest)[offset..offset + count] == rest[offset - |chunk|..offset - |chunk| + count]
  {
  }

  lemma TakeFromChunk(collected: Samples, chunk: Samples, rest: Samples, offset: nat, count: nat, take: nat)
    requires offset < |chunk| && take <= count && offset + take <= |chunk| && offset + count <= |chunk| + |rest|
    requires take == count || offset + take == |chunk|
    ensures collected + (chunk + rest)[offset..offset + count]
        == (collected + chunk[offset..offset + take]) + rest[0..count - take]
    ensures take == count ==>
      collected + (chunk + rest)[offset..offset + count] == collected + chunk[offset..offset + take]
  {
    assert (chunk + rest)[offset..offset + count] == chunk[offset..offset + take] + rest[0..count - take];
  }

  lemma SplitFirst(chunks: seq<Samples>, i: nat)
    requires i < |chunks|
    ensures Flatten(chunks[i..]) == chunks[i] + Flatten(chunks[i + 1..])
  {
    FlattenFirst(chunks[i..]);
    assert chunks[i..][1..] == chunks[i + 1..];
  }
}
