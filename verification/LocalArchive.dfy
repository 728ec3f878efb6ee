/** The local archive format: an eight-byte header length, the header, and the members' bytes. */
module LocalArchive {
  import opened Numerals
  import opened Wrappers
  import opened ByteStreams

  const MAX_HEADER := 16 * 1024 * 1024
  const CHUNK := 262144

  // ----- The header length -----

  function Power(n: nat): nat { if n == 0 then 1 else 256 * Power(n - 1) }

  /** `n.to_bytes(width, "big")`. */
  function BigEndian(n: nat, width: nat): (bytes: Bytes)
    requires n < Power(width)
    ensures |bytes| == width
  {
    if width == 0 then []
    else
      assert n / 256 < Power(width - 1);
      BigEndian(n / 256, width - 1) + [n % 256]
  }

  /** `int.from_bytes(bytes, "big")`. */
  function FromBigEndian(bytes: Bytes): nat {
    if bytes == [] then 0 else 256 * FromBigEndian(bytes[..|bytes| - 1]) + bytes[|bytes| - 1]
  }

  lemma {:induction false} BigEndianRoundTrip(n: nat, width: nat)
    requires n < Power(width)
    ensures FromBigEndian(BigEndian(n, width)) == n
    decreases width
  {
    if width > 0 {
      BigEndianRoundTrip(n / 256, width - 1);
      var bytes := BigEndian(n, width);
      assert bytes[..|bytes| - 1] == BigEndian(n / 256, width - 1);
    }
  }

  // ----- Building -----

  datatype Locator = Locator(offset: nat, size: nat)

  /** Where each source's bytes start in the payload. */
  function OffsetOf(sources: seq<Bytes>, i: nat): nat
    requires i <= |sources|
  {
    |Concat(sources[..i])|
  }

  function Archive(header: Bytes, payload: Bytes): Bytes
    requires |header| < Power(8)
  {
    BigEndian(|header|, 8) + header + payload
  }

  /** `LocalArchiveBuilder.build`: the payload grows member by member; the header is rendered from the
      locators. A header whose length does not fit eight bytes is an error. */
  method Build(sources: seq<Bytes>, render: seq<Locator> -> Bytes) returns (archive: Option<Bytes>, locators: seq<Locator>)
    ensures |locators| == |sources|
    ensures forall i :: 0 <= i < |sources| ==> locators[i] == Locator(OffsetOf(sources, i), |sources[i]|)
    ensures archive == if |render(locators)| < Power(8) then Some(Archive(render(locators), Concat(sources))) else None
  {
    var payload: Bytes := [];
    locators := [];
    for i := 0 to |sources|
      invariant payload == Concat(sources[..i]) && |locators| == i
      invariant forall k :: 0 <= k < i ==> locators[k] == Locator(OffsetOf(sources, k), |sources[k]|)
    {
      assert sources[..i + 1] == sources[..i] + [sources[i]];
      ConcatSnoc(sources[..i], sources[i]);
      locators := locators + [Locator(|payload|, |sources[i]|)];
      payload := payload + sources[i];
    }
    assert sources[..|sources|] == sources;
    var header := render(locators);
    archive := if |header| < Power(8) then Some(Archive(header, payload)) else None;
  }

  // ----- Reading -----

  /** A backend range read; bytes past the end of the archive are not there. */
  function ReadRange(archive: Bytes, start: nat, end: nat): (bytes: Bytes)
    requires start <= end
    ensures |bytes| <= end - start
    ensures end <= |archive| ==> bytes == archive[start..end]
    ensures |bytes| == end - start <==> end <= |archive| || start == end
  {
    if start >= |archive| then [] else if end <= |archive| then archive[start..end] else archive[start..]
  }

  /** `_copy_backend_range_to_path`: fixed-size chunks add up to the one slice, or the range was not
      all there. */
  method CopyRange(archive: Bytes, start: int, end: int) returns (copied: Option<Bytes>)
    ensures copied == if 0 <= start <= end && (end <= |archive| || start == end)
                      then Some(if start == end then [] else archive[start..end]) else None
  {
    if start < 0 || end < start { return None; }
    var handle: Bytes := [];
    var cursor := start;
    while cursor < end
      invariant start <= cursor && (cursor <= end)
      invariant cursor > start ==> cursor <= |archive|
      invariant handle == if cursor == start then [] else archive[start..cursor]
      decreases end - cursor
    {
      var chunkEnd := if cursor + CHUNK < end then cursor + CHUNK else end;
      var chunk := ReadRange(archive, cursor, chunkEnd);
      if |chunk| != chunkEnd - cursor { return None; }
      assert archive[start..chunkEnd] == (if cursor == start then [] else archive[start..cursor]) + archive[cursor..chunkEnd];
      handle := handle + chunk;
      cursor := chunkEnd;
    }
    return Some(handle);
  }

  /** The header a reader accepts: a length of 1 to 16 MiB, all of it there, and recognised as this format. */
  function HeaderLength(archive: Bytes, recognised: Bytes -> bool): (length: Option<nat>)
    ensures length.Some? ==> 0 < length.value <= MAX_HEADER
  {
    var raw := ReadRange(archive, 0, 8);
    if |raw| != 8 then None
    else
      var n := FromBigEndian(raw);
      if n <= 0 || n > MAX_HEADER then None
      else if recognised(ReadRange(archive, 8, 8 + n)) then Some(n)
      else None
  }

  datatype Extraction = NotLocal | BadLocator | Extracted(copied: Option<Bytes>)

  /** `_try_extract_from_local_archive_to_path`. */
  method TryExtract(archive: Bytes, recognised: Bytes -> bool, offset: Option<int>, size: Option<int>) returns (e: Extraction)
    ensures e == ExtractionOf(archive, recognised, offset, size)
  {
    var raw := ReadRange(archive, 0, 8);
    if |raw| != 8 { return NotLocal; }
    var length := FromBigEndian(raw);
    if length <= 0 || length > MAX_HEADER { return NotLocal; }
    if !recognised(ReadRange(archive, 8, 8 + length)) { return NotLocal; }
    if offset.None? || size.None? { return BadLocator; }
    if offset.value < 0 || size.value < 0 { return BadLocator; }
    var payloadStart := 8 + length;
    var copied := CopyRange(archive, payloadStart + offset.value, payloadStart + offset.value + size.value);
    return Extracted(copied);
  }

  function ExtractionOf(archive: Bytes, recognised: Bytes -> bool, offset: Option<int>, size: Option<int>): Extraction {
    ExtractionAt(archive, HeaderLength(archive, recognised), offset, size)
  }

  function ExtractionAt(archive: Bytes, length: Option<nat>, offset: Option<int>, size: Option<int>): Extraction {
    if length.None? then NotLocal
    else if offset.None? || size.None? || offset.value < 0 || size.value < 0 then BadLocator
    else
      var start := 8 + length.value + offset.value;
      Extracted(if size.value == 0 then Some([])
                else if start + size.value <= |archive| then Some(archive[start..start + size.value]) else None)
  }

  /** Where the streaming reader begins. */
  function MemberStart(archive: Bytes, recognised: Bytes -> bool, offset: int): Option<nat> {
    StartAt(HeaderLength(archive, recognised), offset)
  }

  function StartAt(length: Option<nat>, offset: int): Option<nat> {
    if offset < 0 then None else Some(if length.None? then offset else 8 + length.value + offset)
  }

  /** `_local_archive_member_start`, which reads the header again in its own way. */
  method LocalArchiveMemberStart(archive: Bytes, recognised: Bytes -> bool, offset: int) returns (start: Option<nat>)
    ensures start == MemberStart(archive, recognised, offset)
  {
    if offset < 0 { return None; }
    start := Some(offset);
    var raw := ReadRange(archive, 0, 8);
    if |raw| == 8 {
      var length := FromBigEndian(raw);
      if 0 < length <= MAX_HEADER {
        if recognised(ReadRange(archive, 8, 8 + length)) { start := Some(8 + length + offset); }
      }
    }
  }

  /** The streamed member, when the backend delivers its range as `chunks`: an empty member is not read
      at all, and any other must come in exactly its size. */
  function Streamed(archive: Bytes, recognised: Bytes -> bool, offset: int, size: int, chunks: seq<Bytes>): Stream {
    StreamedFrom(MemberStart(archive, recognised, offset), size, chunks)
  }

  function StreamedFrom(start: Option<nat>, size: int, chunks: seq<Bytes>): Stream {
    if size < 0 then Stream([], Raised(Range))
    else if size == 0 then Stream([], Clean)
    else if start.None? then Stream([], Raised(Range))
    else ExactRange(Stream(chunks, Clean), size)
  }

  /** `_open_locator_range_chunks` for a locator with an offset. */
  method OpenLocatorRange(archive: Bytes, recognised: Bytes -> bool, offset: int, size: int, chunks: seq<Bytes>) returns (output: Stream)
    ensures output == Streamed(archive, recognised, offset, size, chunks)
  {
    if size < 0 { return Stream([], Raised(Range)); }
    if size == 0 { return Stream([], Clean); }
    var start := LocalArchiveMemberStart(archive, recognised, offset);
    if start.None? { return Stream([], Raised(Range)); }
    output := RequireExactRange(Stream(chunks, Clean), size);
  }

  // ----- Round trip -----

  lemma {:induction false} ConcatSplits(sources: seq<Bytes>, i: nat)
    requires i < |sources|
    ensures var at := OffsetOf(sources, i);
            at + |sources[i]| <= |Concat(sources)| && Concat(sources)[at..at + |sources[i]|] == sources[i]
    decreases |sources|
  {
    var n := |sources| - 1;
    if i < n {
      ConcatSplits(sources[..n], i);
      assert sources[..n][..i] == sources[..i];
    }
  }

  lemma ArchiveParts(header: Bytes, payload: Bytes)
    requires |header| < Power(8)
    ensures var archive := Archive(header, payload);
            && |archive| == 8 + |header| + |payload| && archive[0..8] == BigEndian(|header|, 8)
            && archive[8..8 + |header|] == header && archive[8 + |header|..] == payload
  {
  }

  /** A header of 1 byte to 16 MiB that is recognised reads back, and no other does. */
  lemma HeaderReadsBack(header: Bytes, payload: Bytes, recognised: Bytes -> bool)
    requires |header| < Power(8)
    ensures HeaderLength(Archive(header, payload), recognised)
            == if 0 < |header| <= MAX_HEADER && recognised(header) then Some(|header|) else None
  {
    ArchiveParts(header, payload);
    BigEndianRoundTrip(|header|, 8);
    var archive := Archive(header, payload);
    assert ReadRange(archive, 0, 8) == BigEndian(|header|, 8);
    if 0 < |header| <= MAX_HEADER {
      assert ReadRange(archive, 8, 8 + |header|) == header;
    }
  }

  /** Extracting member `i` of a built archive by its recorded offset and size gives exactly its source
      bytes, for any member list, if and only if the header is recognised and 1 byte to 16 MiB long. */
  lemma BuildExtractRoundTrip(sources: seq<Bytes>, header: Bytes, recognised: Bytes -> bool, i: nat)
    requires |header| < Power(8) && i < |sources|
    ensures ExtractionOf(Archive(header, Concat(sources)), recognised, Some(OffsetOf(sources, i)), Some(|sources[i]|)) == Extracted(Some(sources[i]))
            <==> 0 < |header| <= MAX_HEADER && recognised(header)
  {
    var payload := Concat(sources);
    HeaderReadsBack(header, payload, recognised);
    ArchiveParts(header, payload);
    ConcatSplits(sources, i);
    var at := OffsetOf(sources, i);
    SliceOfTail(Archive(header, payload), 8 + |header|, at, at + |sources[i]|);
  }

  lemma SliceOfTail(archive: Bytes, start: nat, from: nat, to: nat)
    requires start <= |archive| && from <= to <= |archive| - start
    ensures archive[start + from..start + to] == archive[start..][from..to]
  {
  }

  /** `chunks` is the member's range, read from where the streaming reader starts, cut anywhere. */
  predicate Delivers(archive: Bytes, recognised: Bytes -> bool, offset: int, size: int, chunks: seq<Bytes>) {
    var start := MemberStart(archive, recognised, offset);
    start.Some? && size >= 0 ==> Concat(chunks) == ReadRange(archive, start.value, start.value + size)
  }

  /** A range delivered in any chunks ends cleanly exactly when it is all there, and then is the slice. */
  lemma DeliveredRange(archive: Bytes, start: nat, size: nat, chunks: seq<Bytes>)
    requires size > 0 && Concat(chunks) == ReadRange(archive, start, start + size)
    ensures var output := ExactRange(Stream(chunks, Clean), size);
            && (output.end.Clean? <==> start + size <= |archive|)
            && (output.end.Clean? ==> Concat(output.chunks) == archive[start..start + size])
  {
    ExactRangePasses(Stream(chunks, Clean), size);
  }

  ghost predicate SameMember(archive: Bytes, offset: int, size: int, extracted: Extraction, streamed: Stream) {
    match extracted
    case Extracted(copied) => (streamed.end.Clean? <==> copied.Some?) && (copied.Some? ==> copied.value == Concat(streamed.chunks))
    case BadLocator => streamed.end.Clean? <==> size == 0
    case NotLocal =>
      offset >= 0 && size > 0 ==>
        && (streamed.end.Clean? <==> offset + size <= |archive|)
        && (streamed.end.Clean? ==> Concat(streamed.chunks) == archive[offset..offset + size])
  }

  /** The two restore paths agree on every archive, for every chunking of the streamed range. Where the
      extractor accepts the format, streaming fails exactly when extraction finds the range short, and
      otherwise both give the same bytes. Where it does not, streaming reads at the bare offset. A
      locator the extractor refuses streams only if it is empty, since an empty member is never read. */
  lemma PathsAgree(archive: Bytes, recognised: Bytes -> bool, offset: int, size: int, chunks: seq<Bytes>)
    requires Delivers(archive, recognised, offset, size, chunks)
    ensures SameMember(archive, offset, size, ExtractionOf(archive, recognised, Some(offset), Some(size)),
                       Streamed(archive, recognised, offset, size, chunks))
  {
    PathsAgreeAt(archive, HeaderLength(archive, recognised), offset, size, chunks);
  }

  lemma PathsAgreeAt(archive: Bytes, length: Option<nat>, offset: int, size: int, chunks: seq<Bytes>)
    requires var start := StartAt(length, offset);
             start.Some? && size >= 0 ==> Concat(chunks) == ReadRange(archive, start.value, start.value + size)
    ensures SameMember(archive, offset, size, ExtractionAt(archive, length, Some(offset), Some(size)),
                       StreamedFrom(StartAt(length, offset), size, chunks))
  {
    var start := StartAt(length, offset);
    if start.Some? && size > 0 { DeliveredRange(archive, start.value, size, chunks); }
  }
}
