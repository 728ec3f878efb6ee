/** What a restore blames on a copy: which fault ends in which failure, and which copies turn suspect. */
module RestoreBlame {
  import opened Numerals
  import opened Wrappers
  import opened ByteStreams
  import opened Restore

  /** The transforms that changed the stored bytes can all be undone. */
  predicate KnownKinds(rows: seq<Transform>) {
    forall k :: 0 <= k < |rows| && rows[k].reversible ==> rows[k].kind == ZSTD_FILE_KIND
  }

  /** The decompressor reads every input to its end. */
  ghost predicate ReadsAll(z: Codec) {
    forall b :: z.expand(b).Some? ==> z.expand(b).value.drained
  }

  /** Sorting the rows keeps what can be said of all of them. */
  lemma SameRows(rows: seq<Transform>)
    ensures Untransformed(Descending(rows)) <==> Untransformed(rows)
    ensures KnownKinds(Descending(rows)) <==> KnownKinds(rows)
  {
    var down := Descending(rows);
    DescendingFalls(rows);
    forall k | 0 <= k < |down|
      ensures down[k] in rows
    {
      assert down[k] in multiset(rows);
    }
    forall k | 0 <= k < |rows|
      ensures rows[k] in down
    {
      assert rows[k] in multiset(down);
    }
  }

  lemma {:induction false} NothingUndone(input: Stream, down: seq<Transform>, z: Codec)
    requires Untransformed(down)
    ensures Undone(input, down, z) == input
    decreases |down|
  {
    if down != [] { NothingUndone(input, down[1..], z); }
  }

  lemma {:induction false} FailureGoesThrough(input: Stream, down: seq<Transform>, z: Codec)
    requires input.end.Raised? && ReadsAll(z) && KnownKinds(down)
    ensures Undone(input, down, z).end == input.end
    decreases |down|
  {
    if down != [] {
      FailureGoesThrough(if down[0].reversible then Decompressed(input, z) else input, down[1..], z);
    }
  }

  lemma {:induction false} UnknownKindRefused(input: Stream, down: seq<Transform>, z: Codec)
    requires !KnownKinds(down)
    ensures Undone(input, down, z).end == Raised(Staging)
    decreases |down|
  {
    if down == [] {
    } else if !down[0].reversible {
      RestUnknown(down);
      UnknownKindRefused(input, down[1..], z);
    } else if down[0].kind == ZSTD_FILE_KIND {
      RestUnknown(down);
      UnknownKindRefused(Decompressed(input, z), down[1..], z);
    }
  }

  lemma RestUnknown(down: seq<Transform>)
    requires !KnownKinds(down) && down != [] && (down[0].reversible ==> down[0].kind == ZSTD_FILE_KIND)
    ensures !KnownKinds(down[1..])
  {
    var k :| 0 <= k < |down| && down[k].reversible && down[k].kind != ZSTD_FILE_KIND;
    assert down[1..][k - 1] == down[k];
  }

  // ----- The stored bytes -----

  /** What the backend delivered. */
  function Arrived(c: Candidate): Bytes { Concat(c.raw.chunks) }

  /** The fault of a delivery: its range and its backend. */
  function Fault(c: Candidate): Option<ByteStreams.Failure> {
    if c.range.Some? && |Arrived(c)| > c.range.value then Some(Range)
    else if c.raw.end.Raised? then Some(c.raw.end.failure)
    else if c.range.Some? && |Arrived(c)| < c.range.value then Some(Range)
    else None
  }

  /** It arrived whole, and is not what was stored. */
  predicate Rotten(sha: Bytes -> Digest, c: Candidate) {
    Fault(c).None? && sha(Arrived(c)) != c.stored
  }

  /** The stored stream fails as the delivery does. Rotten bytes are a stored failure, except that those
      of a copy stored untransformed under the asset's own digest are a logical one. */
  lemma StoredEnd(sha: Bytes -> Digest, c: Candidate, asset: Digest)
    ensures var stored := StoredStream(sha, c, asset);
            && (Fault(c).Some? ==> stored.end == Raised(Fault(c).value))
            && (Rotten(sha, c) ==> stored.end == Raised(if Untransformed(c.transforms) && c.stored == asset then Logical else Stored))
            && (Fault(c).None? && !Rotten(sha, c) ==> stored.end.Clean? && Concat(stored.chunks) == Arrived(c))
  {
    if c.range.Some? { ExactRangePasses(c.raw, c.range.value); }
  }

  // ----- How a candidate ends -----

  /** How a verified stream ends: the rename, then the close. */
  function Published(c: Candidate): End {
    if !c.renamed then Raised(Foreign)
    else if c.closing.Some? then Raised(c.closing.value)
    else Clean
  }

  /** A copy stored as it is. A faulty delivery ends it with that fault. Rotten bytes are a logical failure when the
      stored digest is the asset's, and a stored one otherwise. Sound bytes that are not the asset are
      a logical failure. */
  lemma UntransformedEnds(sha: Bytes -> Digest, z: Codec, c: Candidate, asset: Digest, size: nat)
    requires Untransformed(c.transforms)
    ensures var end, sound := Outcome(sha, z, c, asset, size), Fault(c).None? && !Rotten(sha, c);
            && (Fault(c).Some? ==> end == Raised(Fault(c).value))
            && (Rotten(sha, c) ==> end == Raised(if c.stored == asset then Logical else Stored))
            && (sound && !Verified(sha, Arrived(c), asset, size) ==> end == Raised(Logical))
            && (sound && Verified(sha, Arrived(c), asset, size) ==> end == Published(c))
  {
    StoredEnd(sha, c, asset);
    SameRows(c.transforms);
    NothingUndone(StoredStream(sha, c, asset), Descending(c.transforms), z);
  }

  /** A transformed copy. Rotten bytes are a stored failure, never a logical one, and a transform of
      an unknown kind is a staging failure whatever arrived. */
  lemma TransformedEnds(sha: Bytes -> Digest, z: Codec, c: Candidate, asset: Digest, size: nat)
    requires !Untransformed(c.transforms) && ReadsAll(z)
    ensures var end := Outcome(sha, z, c, asset, size);
            && (!KnownKinds(c.transforms) ==> end == Raised(Staging))
            && (KnownKinds(c.transforms) && Fault(c).Some? ==> end == Raised(Fault(c).value))
            && (KnownKinds(c.transforms) && Rotten(sha, c) ==> end == Raised(Stored))
  {
    var stored := StoredStream(sha, c, asset);
    StoredEnd(sha, c, asset);
    SameRows(c.transforms);
    if !KnownKinds(c.transforms) {
      UnknownKindRefused(stored, Descending(c.transforms), z);
    } else if stored.end.Raised? {
      FailureGoesThrough(stored, Descending(c.transforms), z);
    }
  }

  /** A copy stored as the asset whose bytes rotted ends in a logical failure, and a restore that gets past
      it marks it suspect. */
  lemma RottenCopyTurnsSuspect(sha: Bytes -> Digest, z: Codec, cs: seq<Candidate>, asset: Digest, size: nat, k: nat, j: nat)
    requires j < k <= |cs| && Untransformed(cs[j].transforms) && cs[j].stored == asset
    requires cs[j].raw.end.Clean? && (cs[j].range.Some? ==> cs[j].range.value == |Concat(cs[j].raw.chunks)|)
    requires sha(Concat(cs[j].raw.chunks)) != asset
    ensures Outcome(sha, z, cs[j], asset, size) == Raised(Logical)
    ensures cs[j].copy in Suspects(sha, z, cs, asset, size, k)
  {
    UntransformedEnds(sha, z, cs[j], asset, size);
  }
}
