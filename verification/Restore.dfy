/** Restoring an asset: range, stored digest, reversed transforms, logical digest, atomic publish, and
    fall-back across candidates. */
module Restore {
  import opened Numerals
  import opened Wrappers
  import opened ByteStreams

  /** A staging transform on record. Steps that are not reversible left the bytes alone. */
  datatype Transform = Transform(order: int, kind: string, reversible: bool)

  const ZSTD_FILE_KIND := "zstd-file-v1"

  /** What a decompressor makes of the bytes it saw, and whether it read its input to the end. */
  datatype Frame = Frame(plain: Bytes, drained: bool)

  /** zstd, as an abstract inverse pair; `rechunk` is how the decompressor cuts its output. */
  datatype Codec = Codec(compress: Bytes -> Bytes, expand: Bytes -> Option<Frame>, rechunk: Bytes -> seq<Bytes>)

  ghost predicate CodecInverts(z: Codec) {
    && (forall b :: z.expand(z.compress(b)).Some? && z.expand(z.compress(b)).value.plain == b)
    && (forall b :: Concat(z.rechunk(b)) == b)
  }

  // ----- Transforms -----

  function InsertDown(t: Transform, rows: seq<Transform>): seq<Transform> {
    if rows == [] then [t]
    else if rows[0].order <= t.order then [t] + rows
    else [rows[0]] + InsertDown(t, rows[1..])
  }

  /** Descending step order, as restore undoes the steps. */
  function Descending(rows: seq<Transform>): seq<Transform> {
    if rows == [] then [] else InsertDown(rows[0], Descending(rows[1..]))
  }

  predicate Falls(rows: seq<Transform>) {
    forall i, j :: 0 <= i < j < |rows| ==> rows[i].order >= rows[j].order
  }

  predicate Climbs(rows: seq<Transform>) {
    forall i, j :: 0 <= i < j < |rows| ==> rows[i].order < rows[j].order
  }

  lemma {:induction false} InsertDownElements(t: Transform, rows: seq<Transform>)
    ensures multiset(InsertDown(t, rows)) == multiset([t] + rows)
  {
    if rows != [] && rows[0].order > t.order {
      InsertDownElements(t, rows[1..]);
      assert rows == [rows[0]] + rows[1..];
    }
  }

  /** Every row stays at or below a bound that holds of the inserted one and the rest. */
  lemma {:induction false} InsertDownBound(t: Transform, rows: seq<Transform>, bound: int)
    requires t.order <= bound && forall i :: 0 <= i < |rows| ==> rows[i].order <= bound
    ensures forall i :: 0 <= i < |InsertDown(t, rows)| ==> InsertDown(t, rows)[i].order <= bound
  {
    if rows != [] && rows[0].order > t.order {
      InsertDownBound(t, rows[1..], bound);
    }
  }

  lemma {:induction false} InsertDownFalls(t: Transform, rows: seq<Transform>)
    requires Falls(rows)
    ensures Falls(InsertDown(t, rows))
  {
    if rows != [] && rows[0].order > t.order {
      InsertDownFalls(t, rows[1..]);
      InsertDownBound(t, rows[1..], rows[0].order);
    }
  }

  lemma {:induction false} DescendingFalls(rows: seq<Transform>)
    ensures Falls(Descending(rows)) && multiset(Descending(rows)) == multiset(rows)
  {
    if rows != [] {
      DescendingFalls(rows[1..]);
      InsertDownFalls(rows[0], Descending(rows[1..]));
      InsertDownElements(rows[0], Descending(rows[1..]));
      assert rows == [rows[0]] + rows[1..];
    }
  }

  function Backwards(rows: seq<Transform>): seq<Transform> {
    if rows == [] then [] else [rows[|rows| - 1]] + Backwards(rows[..|rows| - 1])
  }

  lemma TopMeetsLast(down: seq<Transform>, chain: seq<Transform>)
    requires Falls(down) && Climbs(chain) && multiset(down) == multiset(chain) && chain != []
    ensures down != [] && down[0] == chain[|chain| - 1]
  {
    var last := chain[|chain| - 1];
    assert last in multiset(down);
    var i :| 0 <= i < |down| && down[i] == last;
    assert down[0] in multiset(chain);
    var k :| 0 <= k < |chain| && chain[k] == down[0];
  }

  lemma RestMeets(down: seq<Transform>, chain: seq<Transform>)
    requires down != [] && chain != [] && down[0] == chain[|chain| - 1] && multiset(down) == multiset(chain)
    ensures multiset(down[1..]) == multiset(chain[..|chain| - 1])
  {
    FirstOut(down);
    LastOut(chain);
    assert multiset(down[1..]) == multiset(down) - multiset{down[0]};
  }

  lemma FirstOut(down: seq<Transform>)
    requires down != []
    ensures multiset(down) == multiset{down[0]} + multiset(down[1..])
  {
    assert down == [down[0]] + down[1..];
  }

  lemma LastOut(chain: seq<Transform>)
    requires chain != []
    ensures multiset(chain) == multiset{chain[|chain| - 1]} + multiset(chain[..|chain| - 1])
  {
    assert chain == chain[..|chain| - 1] + [chain[|chain| - 1]];
  }

  /** Whatever order the rows were read in, sorting them down is the chain run backwards. */
  lemma {:induction false} DownIsBackwards(down: seq<Transform>, chain: seq<Transform>)
    requires Falls(down) && Climbs(chain) && multiset(down) == multiset(chain)
    ensures down == Backwards(chain)
    decreases |chain|
  {
    if chain == [] {
      assert |multiset(down)| == |down| == 0;
    } else {
      TopMeetsLast(down, chain);
      RestMeets(down, chain);
      DownIsBackwards(down[1..], chain[..|chain| - 1]);
    }
  }

  /** Staging one member: the reversible steps compress, in step order. */
  function Staged(chain: seq<Transform>, plain: Bytes, z: Codec): Bytes {
    if chain == [] then plain
    else
      var before := Staged(chain[..|chain| - 1], plain, z);
      if chain[|chain| - 1].reversible then z.compress(before) else before
  }

  /** `_decompress_zstd_chunks`: a decompressor that stops before its input ends never sees how the
      input ended. */
  function Decompressed(input: Stream, z: Codec): Stream {
    var frame := z.expand(Concat(input.chunks));
    if frame.Some? && (input.end.Clean? || !frame.value.drained) then Stream(z.rechunk(frame.value.plain), Clean)
    else if input.end.Raised? then Stream([], input.end)
    else Stream([], Raised(Staging))
  }

  function Undone(input: Stream, down: seq<Transform>, z: Codec): Stream
    decreases |down|
  {
    if down == [] then input
    else if !down[0].reversible then Undone(input, down[1..], z)
    else if down[0].kind != ZSTD_FILE_KIND then Stream([], Raised(Staging))
    else Undone(Decompressed(input, z), down[1..], z)
  }

  /** `_reverse_transform_chunks`. */
  method ReverseTransforms(input: Stream, rows: seq<Transform>, z: Codec) returns (output: Stream)
    ensures output == Undone(input, Descending(rows), z)
  {
    var down := Descending(rows);
    output := input;
    for k := 0 to |down|
      invariant Undone(input, down, z) == Undone(output, down[k..], z)
    {
      assert down[k..][1..] == down[k + 1..];
      if down[k].reversible {
        if down[k].kind != ZSTD_FILE_KIND { return Stream([], Raised(Staging)); }
        output := Decompressed(output, z);
      }
    }
  }

  lemma {:induction false} UndoneRecovers(input: Stream, chain: seq<Transform>, plain: Bytes, z: Codec)
    requires CodecInverts(z) && input.end.Clean? && Concat(input.chunks) == Staged(chain, plain, z)
    requires forall k :: 0 <= k < |chain| && chain[k].reversible ==> chain[k].kind == ZSTD_FILE_KIND
    ensures var output := Undone(input, Backwards(chain), z); output.end.Clean? && Concat(output.chunks) == plain
    decreases |chain|
  {
    if chain != [] {
      var n := |chain| - 1;
      var last, before := chain[n], Staged(chain[..n], plain, z);
      assert Backwards(chain)[1..] == Backwards(chain[..n]);
      if last.reversible {
        assert z.expand(z.compress(before)).Some?;
        UndoneRecovers(Decompressed(input, z), chain[..n], plain, z);
      } else {
        UndoneRecovers(input, chain[..n], plain, z);
      }
    }
  }

  /** Reversing in descending step order undoes the staging chain, for transform rows in any order and
      any chunking of the stored bytes. */
  lemma ReversalUndoesStaging(input: Stream, rows: seq<Transform>, chain: seq<Transform>, plain: Bytes, z: Codec)
    requires CodecInverts(z) && input.end.Clean? && Concat(input.chunks) == Staged(chain, plain, z)
    requires Climbs(chain) && multiset(rows) == multiset(chain)
    requires forall k :: 0 <= k < |chain| && chain[k].reversible ==> chain[k].kind == ZSTD_FILE_KIND
    ensures var output := Undone(input, Descending(rows), z); output.end.Clean? && Concat(output.chunks) == plain
  {
    DescendingFalls(rows);
    DownIsBackwards(Descending(rows), chain);
    UndoneRecovers(input, chain, plain, z);
  }

  // ----- One candidate -----

  /** One copy to try: what its backend yields, whether as an exact range, its stored digest, its
      transform rows, whether the publishing rename works, and what closing the stream raises. */
  datatype Candidate = Candidate(copy: nat, raw: Stream, range: Option<nat>, stored: Digest, transforms: seq<Transform>,
                                 renamed: bool, closing: Option<ByteStreams.Failure>)

  predicate Untransformed(transforms: seq<Transform>) {
    forall k :: 0 <= k < |transforms| ==> !transforms[k].reversible
  }

  function Ranged(c: Candidate): Stream {
    if c.range.Some? then ExactRange(c.raw, c.range.value) else c.raw
  }

  function StoredBlame(c: Candidate, asset: Digest): ByteStreams.Failure {
    if Untransformed(c.transforms) && c.stored == asset then Logical else Stored
  }

  function StoredStream(sha: Bytes -> Digest, c: Candidate, asset: Digest): Stream {
    Stream(Ranged(c).chunks, Verdict(sha, Ranged(c), c.stored, None, StoredBlame(c, asset)))
  }

  /** The verified logical stream of one candidate. */
  function Pipeline(sha: Bytes -> Digest, z: Codec, c: Candidate, asset: Digest, size: nat): Stream {
    var logical := Undone(StoredStream(sha, c, asset), Descending(c.transforms), z);
    Stream(logical.chunks, Verdict(sha, logical, asset, Some(size), Logical))
  }

  /** `open_member_stream`. */
  method OpenMemberStream(sha: Bytes -> Digest, z: Codec, c: Candidate, asset: Digest, size: nat) returns (output: Stream)
    ensures output == Pipeline(sha, z, c, asset, size)
  {
    var ranged := c.raw;
    if c.range.Some? { ranged := RequireExactRange(c.raw, c.range.value); }
    var stored := VerifyChunks(sha, ranged, c.stored, None, StoredBlame(c, asset));
    var logical := ReverseTransforms(stored, c.transforms, z);
    output := VerifyChunks(sha, logical, asset, Some(size), Logical);
  }

  /** The bytes are the asset's: the catalog size and the asset's own digest. */
  predicate Verified(sha: Bytes -> Digest, bytes: Bytes, asset: Digest, size: nat) {
    |bytes| == size && sha(bytes) == asset
  }

  /** How trying one candidate ends. */
  function Outcome(sha: Bytes -> Digest, z: Codec, c: Candidate, asset: Digest, size: nat): End {
    var p := Pipeline(sha, z, c, asset, size);
    if p.end.Raised? then p.end
    else if !c.renamed then Raised(Foreign)
    else if c.closing.Some? then Raised(c.closing.value)
    else Clean
  }

  predicate Publishes(sha: Bytes -> Digest, z: Codec, c: Candidate, asset: Digest, size: nat) {
    Pipeline(sha, z, c, asset, size).end.Clean? && c.renamed
  }

  /** A stream that ends cleanly is the asset, whatever the backend, the chunking and the transforms did. */
  lemma CleanIsVerified(sha: Bytes -> Digest, z: Codec, c: Candidate, asset: Digest, size: nat)
    requires Pipeline(sha, z, c, asset, size).end.Clean?
    ensures Verified(sha, Concat(Pipeline(sha, z, c, asset, size).chunks), asset, size)
  {
  }

  /** A copy that stores the staged asset, delivered in any chunks, restores it. */
  lemma StagedCopyRestores(sha: Bytes -> Digest, z: Codec, c: Candidate, chain: seq<Transform>, plain: Bytes)
    requires CodecInverts(z) && Climbs(chain) && multiset(c.transforms) == multiset(chain)
    requires forall k :: 0 <= k < |chain| && chain[k].reversible ==> chain[k].kind == ZSTD_FILE_KIND
    requires c.raw.end.Clean? && Concat(c.raw.chunks) == Staged(chain, plain, z) && c.stored == sha(Staged(chain, plain, z))
    requires c.range.Some? ==> c.range.value == |Staged(chain, plain, z)|
    requires c.renamed && c.closing.None?
    ensures Outcome(sha, z, c, sha(plain), |plain|) == Clean
    ensures Concat(Pipeline(sha, z, c, sha(plain), |plain|).chunks) == plain
  {
    if c.range.Some? { ExactRangePasses(c.raw, c.range.value); }
    var stored := StoredStream(sha, c, sha(plain));
    assert stored.end.Clean? && Concat(stored.chunks) == Staged(chain, plain, z);
    ReversalUndoesStaging(stored, c.transforms, chain, plain, z);
  }

  // ----- Fall-back across candidates -----

  datatype RestoreResult = Restored(copy: nat) | AllFailed | NoCandidates | Escaped(failure: ByteStreams.Failure)

  /** The health of the copies restore has touched. */
  class CopyHealth {
    var suspect: set<nat>

    constructor ()
      ensures suspect == {}
    {
      suspect := {};
    }
  }

  /** The first `k` candidates all failed in ways the loop absorbs. */
  ghost predicate AllAbsorbed(sha: Bytes -> Digest, z: Codec, cs: seq<Candidate>, asset: Digest, size: nat, k: nat)
    requires k <= |cs|
  {
    forall j :: 0 <= j < k ==> Outcome(sha, z, cs[j], asset, size).Raised? && Outcome(sha, z, cs[j], asset, size).failure != Foreign
  }

  /** The copies among the first `k` whose logical check failed. */
  function Suspects(sha: Bytes -> Digest, z: Codec, cs: seq<Candidate>, asset: Digest, size: nat, k: nat): set<nat>
    requires k <= |cs|
  {
    set j | 0 <= j < k && Outcome(sha, z, cs[j], asset, size) == Raised(Logical) :: cs[j].copy
  }

  /** All or nothing: the destination is what it was, or it holds the asset. */
  predicate AllOrNothing(sha: Bytes -> Digest, before: Option<Bytes>, after: Option<Bytes>, asset: Digest, size: nat) {
    after == before || (after.Some? && Verified(sha, after.value, asset, size))
  }

  lemma StillAllOrNothing(sha: Bytes -> Digest, a: Option<Bytes>, b: Option<Bytes>, c: Option<Bytes>, asset: Digest, size: nat)
    requires AllOrNothing(sha, a, b, asset, size) && AllOrNothing(sha, b, c, asset, size)
    ensures AllOrNothing(sha, a, c, asset, size)
  {
  }

  /** The destination holds the asset, as this candidate's stream delivered it. */
  predicate Delivered(sha: Bytes -> Digest, z: Codec, c: Candidate, asset: Digest, size: nat, destination: Option<Bytes>) {
    && destination == Some(Concat(Pipeline(sha, z, c, asset, size).chunks))
    && destination.Some? && Verified(sha, destination.value, asset, size)
  }

  /** Try one candidate. */
  method TryCandidate(sha: Bytes -> Digest, z: Codec, c: Candidate, asset: Digest, size: nat,
                      folder: Folder) returns (end: End)
    requires folder.temporary == None
    modifies folder
    ensures folder.temporary == None
    ensures end == Outcome(sha, z, c, asset, size)
    ensures folder.destination
            == if Publishes(sha, z, c, asset, size) then Some(Concat(Pipeline(sha, z, c, asset, size).chunks)) else old(folder.destination)
    ensures AllOrNothing(sha, old(folder.destination), folder.destination, asset, size)
    ensures end.Clean? ==> Delivered(sha, z, c, asset, size, folder.destination)
  {
    if Publishes(sha, z, c, asset, size) { CleanIsVerified(sha, z, c, asset, size); }
    var stream := OpenMemberStream(sha, z, c, asset, size);
    end := folder.AtomicWriteVerified(sha, stream, asset, size, c.renamed);
    if end.Clean? && c.closing.Some? { end := Raised(c.closing.value); }
  }

  /** `restore_asset`: the reported copy is the first candidate that verifies; the copies marked suspect
      are exactly those before it whose logical check failed; and for any candidates, failures and
      chunk boundaries the destination is unchanged or holds the asset. */
  method RestoreAsset(sha: Bytes -> Digest, z: Codec, cs: seq<Candidate>, asset: Digest, size: nat, folder: Folder,
                      health: CopyHealth)
    returns (r: RestoreResult, ghost tried: nat)
    requires folder.temporary == None
    modifies folder, health
    ensures folder.temporary == None && tried <= |cs| && AllAbsorbed(sha, z, cs, asset, size, tried)
    ensures AllOrNothing(sha, old(folder.destination), folder.destination, asset, size)
    ensures health.suspect == old(health.suspect) + Suspects(sha, z, cs, asset, size, tried)
    ensures match r
            case Restored(copy) =>
              && tried < |cs| && cs[tried].copy == copy && Outcome(sha, z, cs[tried], asset, size).Clean?
              && Delivered(sha, z, cs[tried], asset, size, folder.destination)
            case AllFailed => tried == |cs| > 0
            case NoCandidates => tried == |cs| == 0
            case Escaped(failure) => tried < |cs| && failure == Foreign && Outcome(sha, z, cs[tried], asset, size) == Raised(Foreign)
  {
    tried := 0;
    for k := 0 to |cs|
      invariant tried == k && folder.temporary == None && AllAbsorbed(sha, z, cs, asset, size, k)
      invariant AllOrNothing(sha, old(folder.destination), folder.destination, asset, size)
      invariant health.suspect == old(health.suspect) + Suspects(sha, z, cs, asset, size, k)
    {
      ghost var before := folder.destination;
      var end := TryCandidate(sha, z, cs[k], asset, size, folder);
      StillAllOrNothing(sha, old(folder.destination), before, folder.destination, asset, size);
      if end.Clean? { return Restored(cs[k].copy), k; }
      if end.failure == Foreign { return Escaped(Foreign), k; }
      SuspectsNext(sha, z, cs, asset, size, k, old(health.suspect), health.suspect, end.failure == Logical);
      AbsorbedNext(sha, z, cs, asset, size, k);
      if end.failure == Logical { health.suspect := health.suspect + {cs[k].copy}; }
      tried := k + 1;
    }
    return if cs == [] then NoCandidates else AllFailed, |cs|;
  }

  lemma SuspectsNext(sha: Bytes -> Digest, z: Codec, cs: seq<Candidate>, asset: Digest, size: nat, k: nat,
                     base: set<nat>, marked: set<nat>, logical: bool)
    requires k < |cs| && logical == (Outcome(sha, z, cs[k], asset, size) == Raised(Logical))
    requires marked == base + Suspects(sha, z, cs, asset, size, k)
    ensures (if logical then marked + {cs[k].copy} else marked) == base + Suspects(sha, z, cs, asset, size, k + 1)
  {
    assert Suspects(sha, z, cs, asset, size, k + 1) == Suspects(sha, z, cs, asset, size, k) + (if logical then {cs[k].copy} else {});
  }

  lemma AbsorbedNext(sha: Bytes -> Digest, z: Codec, cs: seq<Candidate>, asset: Digest, size: nat, k: nat)
    requires k < |cs| && AllAbsorbed(sha, z, cs, asset, size, k)
    requires Outcome(sha, z, cs[k], asset, size).Raised? && Outcome(sha, z, cs[k], asset, size).failure != Foreign
    ensures AllAbsorbed(sha, z, cs, asset, size, k + 1)
  {
  }
}
