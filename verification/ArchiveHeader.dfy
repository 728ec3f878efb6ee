/** The header of a local archive: the JSON the builder writes, and its recognition by the readers. */
module ArchiveHeader {
  import opened Numerals
  import opened Wrappers
  import opened CanonicalJson
  import opened ByteStreams
  import opened HeaderJson
  import opened LocalArchive

  const FORMAT := "sutradhara-local-archive-v1"

  /** One member's source: its archive path and its bytes. */
  datatype Source = Source(path: string, data: Bytes)

  /** What the header says of the archive beside its members. */
  datatype Label = Label(bundle: string, representation: string, ruleset: string)

  function MemberJson(path: string, digest: Digest, at: LocalArchive.Locator): Json {
    Object([Field("member_path", Text(path)), Field("offset", Number(at.offset)), Field("path", Text(path)),
            Field("sha256", Text(Hex(digest))), Field("size_bytes", Number(at.size))])
  }

  function MembersJson(sources: seq<Source>, sha: Bytes -> Digest, locators: seq<LocalArchive.Locator>): seq<Json> {
    seq(if |locators| < |sources| then |locators| else |sources|,
        i requires 0 <= i < |sources| && i < |locators| => MemberJson(sources[i].path, sha(sources[i].data), locators[i]))
  }

  /** The header document, its keys in sorted order. */
  function HeaderJsonOf(about: Label, members: seq<Json>): Json {
    Object([Field("bundle_id", Text(about.bundle)), Field("format", Text(FORMAT)), Field("members", List(members)),
            Field("representation", Text(about.representation)), Field("ruleset", Text(about.ruleset))])
  }

  // ----- Bytes -----

  predicate Ascii(text: string) { forall i :: 0 <= i < |text| ==> text[i] as int < 128 }

  function Encode(text: string): (bytes: Bytes)
    requires Ascii(text)
    ensures |bytes| == |text| && forall i :: 0 <= i < |text| ==> bytes[i] == text[i] as int
  {
    seq(|text|, i requires 0 <= i < |text| => text[i] as int)
  }

  /** The text of ASCII bytes; the header the builder writes is always ASCII. */
  function Decode(bytes: Bytes): (text: Option<string>)
    ensures text.Some? ==> |text.value| == |bytes| && forall i :: 0 <= i < |bytes| ==> bytes[i] < 128 && text.value[i] == bytes[i] as char
    ensures text.None? ==> exists i :: 0 <= i < |bytes| && bytes[i] >= 128
  {
    if forall i :: 0 <= i < |bytes| ==> bytes[i] < 128 then
      Some(seq(|bytes|, i requires 0 <= i < |bytes| => if bytes[i] < 128 then bytes[i] as char else '?'))
    else None
  }

  lemma DecodeEncode(text: string)
    requires Ascii(text)
    ensures Decode(Encode(text)) == Some(text)
  {
    var bytes := Encode(text);
    assert forall i :: 0 <= i < |bytes| ==> bytes[i] < 128;
    assert Decode(bytes).value == text;
  }

  lemma JoinAscii(first: string, second: string)
    requires Ascii(first) && Ascii(second)
    ensures Ascii(first + second)
  {
  }

  lemma HexDigitAscii(n: int)
    requires 0 <= n < 16
    ensures HexDigit(n) as int < 128
  {
    assert HEX_DIGITS[n] as int < 128;
  }

  lemma UnitAscii(code: int)
    requires 0 <= code < 0x10000
    ensures Ascii(UnitEscape(code))
  {
    var high, low := code / 256, code % 256;
    HexDigitAscii(high / 16);
    HexDigitAscii(high % 16);
    HexDigitAscii(low / 16);
    HexDigitAscii(low % 16);
    JoinAscii(TwoDigits(high), TwoDigits(low));
    JoinAscii("\\u", FourDigits(code));
  }

  lemma ShortAscii(c: char, letter: char)
    requires ShortEscape(c) == Some(letter)
    ensures letter as int < 128
  {
  }

  lemma EscapedCharAscii(c: char)
    ensures Ascii(EscapeChar(c))
  {
    var text, code := EscapeChar(c), c as int;
    if IsPlain(c) {
      assert text == [c];
    } else if ShortEscape(c).Some? {
      ShortAscii(c, ShortEscape(c).value);
      assert text == ['\\', ShortEscape(c).value];
    } else if code < 0x10000 {
      UnitAscii(code);
    } else {
      HalvesAscii(c);
    }
  }

  lemma HalvesAscii(c: char)
    requires c as int >= 0x10000
    ensures Ascii(HighHalf(c) + LowHalf(c))
  {
    UnitAscii(0xD800 + (c as int - 0x10000) / 1024);
    UnitAscii(0xDC00 + (c as int - 0x10000) % 1024);
    JoinAscii(HighHalf(c), LowHalf(c));
  }

  lemma {:induction false} EscapeAscii(text: string)
    ensures Ascii(Escape(text))
  {
    if text != "" {
      EscapedCharAscii(text[0]);
      EscapeAscii(text[1..]);
    }
  }

  lemma QuotedAscii(text: string)
    ensures Ascii(Quoted(text))
  {
    EscapeAscii(text);
  }

  lemma DecimalAscii(n: nat)
    ensures Ascii(Decimal(n))
  {
    assert forall i :: 0 <= i < |Decimal(n)| ==> IsDecimalDigit(Decimal(n)[i]);
  }

  /** Everything the renderer writes is ASCII. */
  lemma {:induction false} RenderAscii(v: Json)
    ensures Ascii(Render(v))
    decreases v
  {
    match v {
      case Text(s) => QuotedAscii(s);
      case Number(n) => DecimalAscii(n);
      case List(items) => ItemsAscii(items, true);
      case Object(fields) => FieldsAscii(fields, true);
    }
  }

  lemma {:induction false} ItemsAscii(items: seq<Json>, first: bool)
    ensures Ascii(RenderItems(items, first))
    decreases items
  {
    if items != [] {
      RenderAscii(items[0]);
      ItemsAscii(items[1..], false);
      JoinAscii(Render(items[0]), RenderItems(items[1..], false));
      JoinAscii(Comma(first), Render(items[0]) + RenderItems(items[1..], false));
    }
  }

  lemma {:induction false} FieldsAscii(fields: seq<Field>, first: bool)
    ensures Ascii(RenderFields(fields, first))
    decreases fields
  {
    if fields != [] {
      var value, rest := Render(fields[0].value), RenderFields(fields[1..], false);
      RenderAscii(fields[0].value);
      FieldsAscii(fields[1..], false);
      QuotedAscii(fields[0].key);
      JoinAscii(value, rest);
      JoinAscii(": ", value + rest);
      JoinAscii(Quoted(fields[0].key), ": " + (value + rest));
      JoinAscii(Comma(first), Quoted(fields[0].key) + (": " + (value + rest)));
    }
  }

  // ----- Recognition -----

  /** The value of a key, the last one winning as in a dictionary. */
  function ValueOf(fields: seq<Field>, key: string): Option<Json> {
    if fields == [] then None
    else if fields[|fields| - 1].key == key then Some(fields[|fields| - 1].value)
    else ValueOf(fields[..|fields| - 1], key)
  }

  /** A header both readers accept, in the builder's spelling: a JSON object, and nothing after it, whose
      format is this one. */
  predicate IsLocalHeader(bytes: Bytes) {
    var text := Decode(bytes);
    text.Some? && IsLocalText(text.value)
  }

  predicate IsLocalText(text: string) {
    var read := Read(text);
    read.Some? && read.value.1 == "" && read.value.0.Object? && ValueOf(read.value.0.fields, "format") == Some(Text(FORMAT))
  }

  lemma FormatFound(about: Label, members: seq<Json>)
    ensures ValueOf(HeaderJsonOf(about, members).fields, "format") == Some(Text(FORMAT))
  {
    var fields := HeaderJsonOf(about, members).fields;
    assert fields[..4][..3][..2] == fields[..2];
    assert ValueOf(fields[..2], "format") == Some(Text(FORMAT));
    assert ValueOf(fields[..3], "format") == ValueOf(fields[..3][..2], "format");
    assert ValueOf(fields[..4], "format") == ValueOf(fields[..4][..3], "format");
  }

  /** The header the builder writes is recognised. */
  lemma BuiltHeaderRecognised(about: Label, members: seq<Json>)
    ensures Ascii(Render(HeaderJsonOf(about, members))) && IsLocalHeader(Encode(Render(HeaderJsonOf(about, members))))
  {
    var header := HeaderJsonOf(about, members);
    RenderAscii(header);
    DecodeEncode(Render(header));
    HeaderTextRecognised(header, Render(header), about, members);
  }

  lemma HeaderTextRecognised(header: Json, text: string, about: Label, members: seq<Json>)
    requires header == HeaderJsonOf(about, members) && text == Render(header)
    ensures IsLocalText(text)
  {
    ReadsBack(header, "");
    assert text + "" == text;
    FormatFound(about, members);
  }

  function HeaderBytes(about: Label, members: seq<Json>): Bytes {
    RenderAscii(HeaderJsonOf(about, members));
    Encode(Render(HeaderJsonOf(about, members)))
  }

  function Payloads(sources: seq<Source>): (data: seq<Bytes>)
    ensures |data| == |sources| && forall i :: 0 <= i < |sources| ==> data[i] == sources[i].data
  {
    seq(|sources|, i requires 0 <= i < |sources| => sources[i].data)
  }

  /** `LocalArchiveBuilder.build` with its own header: member `i` extracts to its source bytes, through
      the readers' own recognition, if and only if the header is at most 16 MiB. */
  method BuildLocalArchive(about: Label, sources: seq<Source>, sha: Bytes -> Digest) returns (archive: Option<Bytes>, locators: seq<LocalArchive.Locator>)
    ensures |locators| == |sources|
    ensures var header := HeaderBytes(about, MembersJson(sources, sha, locators));
            && (archive.Some? <==> |header| < Power(8))
            && (archive.Some? ==> forall i :: 0 <= i < |sources| ==>
                  (ExtractsTo(archive.value, locators[i], sources[i].data) <==> |header| <= MAX_HEADER))
  {
    var data := Payloads(sources);
    var render := (at: seq<LocalArchive.Locator>) => HeaderBytes(about, MembersJson(sources, sha, at));
    archive, locators := Build(data, render);
    ghost var header := HeaderBytes(about, MembersJson(sources, sha, locators));
    if archive.Some? {
      forall i | 0 <= i < |sources|
        ensures ExtractsTo(archive.value, locators[i], sources[i].data) <==> |header| <= MAX_HEADER
      {
        BuiltMemberExtracts(about, MembersJson(sources, sha, locators), data, i, locators[i]);
      }
    }
  }

  predicate ExtractsTo(archive: Bytes, at: LocalArchive.Locator, data: Bytes) {
    ExtractionOf(archive, IsLocalHeader, Some(at.offset), Some(at.size)) == Extracted(Some(data))
  }

  lemma BuiltMemberExtracts(about: Label, members: seq<Json>, data: seq<Bytes>, i: nat, at: LocalArchive.Locator)
    requires |HeaderBytes(about, members)| < Power(8) && i < |data| && at == LocalArchive.Locator(OffsetOf(data, i), |data[i]|)
    ensures ExtractsTo(Archive(HeaderBytes(about, members), Concat(data)), at, data[i]) <==> |HeaderBytes(about, members)| <= MAX_HEADER
  {
    BuiltHeaderRecognised(about, members);
    BuildExtractRoundTrip(data, HeaderBytes(about, members), IsLocalHeader, i);
  }
}
