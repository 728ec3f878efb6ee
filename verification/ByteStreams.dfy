/** Chunked byte streams: what a consumer pulls, and how the stream ends. */
module ByteStreams {
  import opened Numerals
  import opened Wrappers

  /** How reading can fail. `Logical` marks the copy suspect, `Stored`, `Range`, `Staging`, `Backend`
      and `Published` are absorbed by the restore loop, and `Foreign` is not. */
  datatype Failure = Logical | Stored | Range | Staging | Backend | Published | Foreign

  datatype End = Clean | Raised(failure: Failure)

  /** The chunks a generator yields before it ends, and its end. */
  datatype Stream = Stream(chunks: seq<Bytes>, end: End)

  function Concat(chunks: seq<Bytes>): Bytes {
    if chunks == [] then [] else Concat(chunks[..|chunks| - 1]) + chunks[|chunks| - 1]
  }

  lemma ConcatSnoc(chunks: seq<Bytes>, chunk: Bytes)
    ensures Concat(chunks + [chunk]) == Concat(chunks) + chunk
  {
  }

  lemma {:induction false} ConcatPeel(chunks: seq<Bytes>)
    requires chunks != []
    ensures Concat(chunks) == chunks[0] + Concat(chunks[1..])
    decreases |chunks|
  {
    var n := |chunks| - 1;
    if n > 0 {
      ConcatPeel(chunks[..n]);
      assert chunks[..n][1..] == chunks[1..][..n - 1];
    } else {
      assert chunks[..0] == [] && chunks[1..] == [];
    }
  }

  /** `_ChunkIteratorReader`: pull-driven chunks behind a `readinto` buffer. */
  class ChunkReader {
    var chunks: seq<Bytes>
    var current: Bytes

    constructor (chunks: seq<Bytes>)
      ensures this.chunks == chunks && current == [] && Pending() == Concat(chunks)
    {
      this.chunks, this.current := chunks, [];
    }

    /** The bytes not delivered yet. */
    function Pending(): Bytes
      reads this
    {
      current + Concat(chunks)
    }

    /** One `readinto` with a buffer of `room` bytes delivers a prefix of what is pending, and delivers
        nothing into a real buffer only at the end. */
    method ReadInto(room: nat) returns (out: Bytes)
      modifies this
      ensures old(Pending()) == out + Pending() && |out| <= room
      ensures room > 0 ==> (out == [] <==> old(Pending()) == [])
    {
      while current == []
        invariant Pending() == old(Pending())
        decreases |chunks|
      {
        if chunks == [] { return []; }
        ConcatPeel(chunks);
        current, chunks := chunks[0], chunks[1..];
      }
      var count := if room < |current| then room else |current|;
      out := current[..count];
      assert current == current[..count] + current[count..];
      current := current[count..];
    }

    /** Reading until the first empty read delivers exactly the concatenation of the chunks, whatever
        the chunk boundaries and whatever buffer sizes the consumer uses. */
    method ReadAll(rooms: nat -> nat) returns (all: Bytes)
      requires forall k :: rooms(k) > 0
      modifies this
      ensures all == old(Pending()) && Pending() == []
    {
      all := [];
      var k := 0;
      while true
        invariant all + Pending() == old(Pending())
        decreases |Pending()|
      {
        ghost var before := Pending();
        var out := ReadInto(rooms(k));
        if out == [] { return; }
        assert |before| == |out| + |Pending()|;
        all := all + out;
        k := k + 1;
      }
    }
  }

  // ----- The checking generators -----

  function Total(chunks: seq<Bytes>): nat { |Concat(chunks)| }

  /** From chunk `k` on, with `passed` already yielded. */
  function ExactFrom(input: Stream, expected: nat, k: nat, passed: seq<Bytes>): Stream
    requires k <= |input.chunks|
    decreases |input.chunks| - k
  {
    if k == |input.chunks| then
      Stream(passed, if input.end.Raised? then input.end else if Total(passed) != expected then Raised(Range) else Clean)
    else if Total(passed) + |input.chunks[k]| > expected then Stream(passed, Raised(Range))
    else ExactFrom(input, expected, k + 1, if input.chunks[k] == [] then passed else passed + [input.chunks[k]])
  }

  function ExactRange(input: Stream, expected: nat): Stream { ExactFrom(input, expected, 0, []) }

  /** `_require_exact_range`. */
  method RequireExactRange(input: Stream, expected: nat) returns (output: Stream)
    ensures output == ExactRange(input, expected)
  {
    var passed: seq<Bytes> := [];
    var seen := 0;
    for k := 0 to |input.chunks|
      invariant seen == Total(passed)
      invariant ExactRange(input, expected) == ExactFrom(input, expected, k, passed)
    {
      var chunk := input.chunks[k];
      seen := seen + |chunk|;
      if seen > expected { return Stream(passed, Raised(Range)); }
      if chunk != [] { ConcatSnoc(passed, chunk); passed := passed + [chunk]; }
    }
    if input.end.Raised? { return Stream(passed, input.end); }
    if seen != expected { return Stream(passed, Raised(Range)); }
    return Stream(passed, Clean);
  }

  /** How a stream meets a size limit: one byte too many ends it at once, whatever was to come; otherwise
      its own failure goes through, and a clean end too early is a range failure. */
  function RangeEnd(input: Stream, expected: nat): End {
    if Total(input.chunks) > expected then Raised(Range)
    else if input.end.Clean? && Total(input.chunks) < expected then Raised(Range)
    else input.end
  }

  /** The range check passes a stream exactly when it is clean and of the expected size, and then
      passes all of its bytes; it never lets more than the expected size through. */
  lemma {:induction false} ExactFromPasses(input: Stream, expected: nat, k: nat, passed: seq<Bytes>)
    requires k <= |input.chunks| && Concat(passed) == Concat(input.chunks[..k]) && Total(passed) <= expected
    ensures var output := ExactFrom(input, expected, k, passed);
            && output.end == RangeEnd(input, expected)
            && (output.end.Clean? ==> Concat(output.chunks) == Concat(input.chunks))
            && Total(output.chunks) <= expected
    decreases |input.chunks| - k
  {
    if k == |input.chunks| {
      assert input.chunks[..k] == input.chunks;
    } else {
      var chunk := input.chunks[k];
      assert input.chunks[..k + 1] == input.chunks[..k] + [chunk];
      ConcatSnoc(input.chunks[..k], chunk);
      if Total(passed) + |chunk| > expected {
        PrefixTotal(input.chunks, k + 1);
      } else {
        ConcatSnoc(passed, chunk);
        ExactFromPasses(input, expected, k + 1, if chunk == [] then passed else passed + [chunk]);
      }
    }
  }

  lemma ExactRangePasses(input: Stream, expected: nat)
    ensures var output := ExactRange(input, expected);
            && output.end == RangeEnd(input, expected)
            && (output.end.Clean? ==> Concat(output.chunks) == Concat(input.chunks))
            && Total(output.chunks) <= expected
  {
    ExactFromPasses(input, expected, 0, []);
  }

  lemma {:induction false} PrefixTotal(chunks: seq<Bytes>, k: nat)
    requires k <= |chunks|
    ensures Total(chunks[..k]) <= Total(chunks)
    decreases |chunks| - k
  {
    if k == |chunks| {
      assert chunks[..k] == chunks;
    } else {
      PrefixTotal(chunks, k + 1);
      assert chunks[..k + 1] == chunks[..k] + [chunks[k]];
      ConcatSnoc(chunks[..k], chunks[k]);
    }
  }

  /** The verdict of a running digest and size at the end of a stream. */
  function Verdict(sha: Bytes -> Digest, input: Stream, digest: Digest, size: Option<nat>, blame: Failure): End {
    if input.end.Raised? then input.end
    else if size.Some? && Total(input.chunks) != size.value then Raised(blame)
    else if sha(Concat(input.chunks)) != digest then Raised(blame)
    else Clean
  }

  /** `_verify_stored_chunks` (no size) and `_verify_logical_chunks`: every chunk goes through, and the
      end is clean only if the whole stream has the expected digest and size. */
  method VerifyChunks(sha: Bytes -> Digest, input: Stream, digest: Digest, size: Option<nat>,
                      blame: Failure) returns (output: Stream)
    ensures output == Stream(input.chunks, Verdict(sha, input, digest, size, blame))
  {
    var seen: Bytes := [];
    var yielded: seq<Bytes> := [];
    for k := 0 to |input.chunks|
      invariant yielded == input.chunks[..k] && seen == Concat(yielded)
    {
      ConcatSnoc(yielded, input.chunks[k]);
      seen := seen + input.chunks[k];
      yielded := yielded + [input.chunks[k]];
    }
    assert input.chunks[..|input.chunks|] == input.chunks;
    if input.end.Raised? { return Stream(yielded, input.end); }
    if size.Some? && |seen| != size.value { return Stream(yielded, Raised(blame)); }
    if sha(seen) != digest { return Stream(yielded, Raised(blame)); }
    return Stream(yielded, Clean);
  }

  // ----- Atomic publish -----

  /** The destination and the temporary file beside it. */
  class Folder {
    var destination: Option<Bytes>
    var temporary: Option<Bytes>

    constructor (destination: Option<Bytes>)
      ensures this.destination == destination && temporary == None
    {
      this.destination, this.temporary := destination, None;
    }

    /** `atomic_write_verified_chunks`: the destination changes only to the whole stream, only when the
        stream ended cleanly with the expected size and digest, and the temporary file never stays. */
    method AtomicWriteVerified(sha: Bytes -> Digest, input: Stream, digest: Digest, size: nat,
                               renamed: bool) returns (end: End)
      requires temporary == None
      modifies this
      ensures temporary == None
      ensures end == if Verdict(sha, input, digest, Some(size), Published).Clean? && !renamed then Raised(Foreign)
                     else Verdict(sha, input, digest, Some(size), Published)
      ensures destination == if end.Clean? then Some(Concat(input.chunks)) else old(destination)
    {
      temporary := Some([]);
      for k := 0 to |input.chunks|
        invariant destination == old(destination) && temporary == Some(Concat(input.chunks[..k]))
      {
        assert input.chunks[..k + 1] == input.chunks[..k] + [input.chunks[k]];
        ConcatSnoc(input.chunks[..k], input.chunks[k]);
        temporary := Some(temporary.value + input.chunks[k]);
      }
      assert input.chunks[..|input.chunks|] == input.chunks;
      if input.end.Raised? {
        end := input.end;
      } else if |temporary.value| != size || sha(temporary.value) != digest {
        end := Raised(Published);
      } else if !renamed {
        end := Raised(Foreign);
      } else {
        destination := temporary;
        end := Clean;
      }
      temporary := None;
    }
  }
}
