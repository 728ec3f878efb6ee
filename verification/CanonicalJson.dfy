/** The canonical JSON text a bundle-group fingerprint hashes, with a reader that recovers the
    basis. Strings are ASCII-escaped as section 7 of RFC 8259 allows: two-character escapes where
    JSON has them, `\uXXXX` otherwise, a surrogate pair beyond the basic plane. A Dafny `char` is a
    Unicode scalar value, so every string here is valid Unicode. */
module CanonicalJson {
  import opened Numerals
  import opened Wrappers

  /** One `(pool, representation)` row; an absent representation is an absent key. */
  datatype Entry = Entry(pool: string, representation: Option<string>)

  predicate IsPlain(c: char) {
    ' ' <= c <= '~' && c != '"' && c != '\\'
  }

  /** The letter of a two-character escape, if the character has one. */
  function ShortEscape(c: char): Option<char> {
    match c
    case '"' => Some('"')
    case '\\' => Some('\\')
    case '\n' => Some('n')
    case '\r' => Some('r')
    case '\t' => Some('t')
    case _ => if c as int == 8 then Some('b') else if c as int == 12 then Some('f') else None
  }

  function ReadShortEscape(letter: char): Option<char> {
    match letter
    case '"' => Some('"')
    case '\\' => Some('\\')
    case 'n' => Some('\n')
    case 'r' => Some('\r')
    case 't' => Some('\t')
    case 'b' => Some(8 as char)
    case 'f' => Some(12 as char)
    case _ => None
  }

  function FourDigits(code: int): (text: string)
    requires 0 <= code < 0x10000
    ensures |text| == 4
  {
    TwoDigits(code / 256) + TwoDigits(code % 256)
  }

  function TwoDigits(value: int): (text: string)
    requires 0 <= value < 256
    ensures |text| == 2
  {
    [HexDigit(value / 16), HexDigit(value % 16)]
  }

  function UnitEscape(code: int): (text: string)
    requires 0 <= code < 0x10000
    ensures |text| == 6
  {
    "\\u" + FourDigits(code)
  }

  function EscapeChar(c: char): (text: string)
    ensures text != "" && text[0] != '"'
  {
    if IsPlain(c) then [c]
    else
      match ShortEscape(c)
      case Some(letter) => ['\\', letter]
      case None =>
        var code := c as int;
        if code < 0x10000 then UnitEscape(code)
        else HighHalf(c) + LowHalf(c)
  }

  function HighHalf(c: char): (text: string)
    requires c as int >= 0x10000
    ensures |text| == 6
  {
    UnitEscape(0xD800 + (c as int - 0x10000) / 1024)
  }

  function LowHalf(c: char): (text: string)
    requires c as int >= 0x10000
    ensures |text| == 6
  {
    UnitEscape(0xDC00 + (c as int - 0x10000) % 1024)
  }

  function Escape(text: string): string {
    if text == "" then "" else EscapeChar(text[0]) + Escape(text[1..])
  }

  /** The value of four hexadecimal digits at the front of a text, -1 if they are not there. */
  function ReadFourDigits(text: string): (code: int)
    ensures -1 <= code < 0x10000
  {
    if |text| < 4 then -1
    else
      var high, low := ReadTwoDigits(text[0], text[1]), ReadTwoDigits(text[2], text[3]);
      if high < 0 || low < 0 then -1 else high * 256 + low
  }

  function ReadTwoDigits(first: char, second: char): (value: int)
    ensures -1 <= value < 256
  {
    if HexValue(first) < 0 || HexValue(second) < 0 then -1 else HexValue(first) * 16 + HexValue(second)
  }

  /** The code unit of a `\uXXXX` escape at the front of a text, -1 if there is none. */
  function ReadUnit(text: string): (code: int)
    ensures -1 <= code < 0x10000
    ensures code >= 0 ==> |text| >= 6
  {
    if |text| < 6 || text[0] != '\\' || text[1] != 'u' then -1 else ReadFourDigits(text[2..6])
  }

  predicate IsScalar(code: int) {
    0 <= code < 0xD800 || 0xE000 <= code < 0x110000
  }

  /** Read one escaped character off the front of a text. */
  function ReadChar(text: string): (read: Option<(char, string)>)
    ensures read.Some? ==> |read.value.1| < |text|
  {
    if text == "" || text[0] == '"' then None
    else if text[0] != '\\' then Some((text[0], text[1..]))
    else if ReadUnit(text) >= 0 then ReadUnits(ReadUnit(text), text[6..])
    else if |text| >= 2 && ReadShortEscape(text[1]).Some? then Some((ReadShortEscape(text[1]).value, text[2..]))
    else None
  }

  /** Finish a `\uXXXX` escape: a scalar value stands alone, a high surrogate takes the low one after it. */
  function ReadUnits(unit: int, after: string): (read: Option<(char, string)>)
    ensures read.Some? ==> |read.value.1| <= |after|
  {
    if IsScalar(unit) then Some((unit as char, after))
    else if unit < 0xDC00 && 0xDC00 <= ReadUnit(after) < 0xE000 then JoinHalves(unit, ReadUnit(after), after[6..])
    else None
  }

  function JoinHalves(high: int, low: int, rest: string): (read: Option<(char, string)>)
    ensures read.Some? ==> read.value.1 == rest
  {
    var code := 0x10000 + (high - 0xD800) * 1024 + (low - 0xDC00);
    if IsScalar(code) then Some((code as char, rest)) else None
  }

  /** Read an escaped string up to its closing quote. */
  function ReadBody(text: string): (read: Option<(string, string)>)
    ensures read.Some? ==> |read.value.1| < |text|
    decreases |text|
  {
    if text == "" then None
    else if text[0] == '"' then Some(("", text[1..]))
    else
      match ReadChar(text)
      case None => None
      case Some((c, rest)) =>
        match ReadBody(rest)
        case None => None
        case Some((tail, after)) => Some(([c] + tail, after))
  }

  lemma FourDigitsRoundTrip(code: int)
    requires 0 <= code < 0x10000
    ensures ReadFourDigits(FourDigits(code)) == code
  {
  }

  lemma UnitRoundTrip(code: int, rest: string)
    requires 0 <= code < 0x10000
    ensures ReadUnit(UnitEscape(code) + rest) == code
    ensures (UnitEscape(code) + rest)[6..] == rest
  {
    var text := UnitEscape(code) + rest;
    assert text[2..6] == FourDigits(code);
    FourDigitsRoundTrip(code);
  }

  /** Combine the two halves of a surrogate pair, or keep the unit when there is no pair. */
  lemma PairRoundTrip(c: char, rest: string)
    requires c as int >= 0x10000
    ensures ReadChar(HighHalf(c) + (LowHalf(c) + rest)) == Some((c, rest))
  {
    var high, low := 0xD800 + (c as int - 0x10000) / 1024, 0xDC00 + (c as int - 0x10000) % 1024;
    var after := LowHalf(c) + rest;
    UnitRoundTrip(high, after);
    UnitRoundTrip(low, rest);
    assert ReadUnits(high, after) == Some((c, rest)) by {
      assert ReadUnits(high, after) == JoinHalves(high, low, rest);
      HalvesJoin(c, rest);
    }
    assert (HighHalf(c) + after)[0] == HighHalf(c)[0] == '\\';
  }

  lemma HalvesJoin(c: char, rest: string)
    requires c as int >= 0x10000
    ensures JoinHalves(0xD800 + (c as int - 0x10000) / 1024, 0xDC00 + (c as int - 0x10000) % 1024, rest) == Some((c, rest))
  {
  }

  lemma ShortRoundTrip(c: char, letter: char, rest: string)
    requires ShortEscape(c) == Some(letter)
    ensures ReadChar(['\\', letter] + rest) == Some((c, rest))
  {
  }

  /** Every escaped character is read back, whatever follows it. */
  lemma CharRoundTrip(c: char, rest: string)
    ensures ReadChar(EscapeChar(c) + rest) == Some((c, rest))
  {
    if IsPlain(c) {
      PlainRoundTrip(c, rest);
    } else if ShortEscape(c).Some? {
      ShortRoundTrip(c, ShortEscape(c).value, rest);
    } else if c as int < 0x10000 {
      BasicRoundTrip(c, rest);
    } else {
      Reassociate(HighHalf(c), LowHalf(c), rest);
      PairRoundTrip(c, rest);
    }
  }

  lemma PlainRoundTrip(c: char, rest: string)
    requires IsPlain(c)
    ensures ReadChar([c] + rest) == Some((c, rest))
  {
  }

  lemma Reassociate(first: string, second: string, rest: string)
    ensures first + second + rest == first + (second + rest)
  {
  }

  lemma BasicRoundTrip(c: char, rest: string)
    requires c as int < 0x10000
    ensures ReadChar(UnitEscape(c as int) + rest) == Some((c, rest))
  {
    UnitRoundTrip(c as int, rest);
    assert (UnitEscape(c as int) + rest)[0] == UnitEscape(c as int)[0];
  }

  /** Every string is read back up to its closing quote. */
  lemma {:induction false} BodyRoundTrip(text: string, rest: string)
    ensures ReadBody(Escape(text) + "\"" + rest) == Some((text, rest))
    decreases |text|
  {
    var written := Escape(text) + "\"" + rest;
    if text == "" {
      assert written[1..] == rest;
    } else {
      var tail := Escape(text[1..]) + "\"" + rest;
      assert written == EscapeChar(text[0]) + tail;
      CharRoundTrip(text[0], tail);
      BodyRoundTrip(text[1..], rest);
      assert [text[0]] + text[1..] == text;
    }
  }

  const POOL_KEY: string := "{\"pool\":\""
  const REPRESENTATION_KEY: string := ",\"representation\":\""

  function EntryJson(entry: Entry): string {
    POOL_KEY + (Escape(entry.pool) + "\"" + EntryTail(entry.representation))
  }

  function EntryTail(representation: Option<string>): string {
    match representation
    case None => "}"
    case Some(value) => REPRESENTATION_KEY + (Escape(value) + "\"" + "}")
  }

  function Separator(basis: seq<Entry>): string {
    if |basis| > 1 then "," else ""
  }

  /** The entries from the first one on, closing bracket included. */
  function EntriesJson(basis: seq<Entry>): string {
    if basis == [] then "]"
    else EntryJson(basis[0]) + (Separator(basis) + EntriesJson(basis[1..]))
  }

  /** `json.dumps(basis, sort_keys=True, separators=(",", ":"))`. */
  function BasisJson(basis: seq<Entry>): string {
    "[" + EntriesJson(basis)
  }

  function ReadEntryTail(pool: string, text: string): (read: Option<(Entry, string)>)
    ensures read.Some? ==> |read.value.1| < |text|
  {
    if "}" <= text then Some((Entry(pool, None), text[1..]))
    else if REPRESENTATION_KEY <= text then
      match ReadBody(text[|REPRESENTATION_KEY|..])
      case None => None
      case Some((value, rest)) => if "}" <= rest then Some((Entry(pool, Some(value)), rest[1..])) else None
    else None
  }

  function ReadEntry(text: string): (read: Option<(Entry, string)>)
    ensures read.Some? ==> |read.value.1| < |text|
  {
    if POOL_KEY <= text then
      match ReadBody(text[|POOL_KEY|..])
      case None => None
      case Some((pool, rest)) => ReadEntryTail(pool, rest)
    else None
  }

  function ReadEntries(text: string): Option<seq<Entry>>
    decreases |text|
  {
    if text == "]" then Some([])
    else
      match ReadEntry(text)
      case None => None
      case Some((entry, rest)) =>
        var after := if "," <= rest then rest[1..] else rest;
        match ReadEntries(after)
        case None => None
        case Some(entries) => Some([entry] + entries)
  }

  function ReadBasis(text: string): Option<seq<Entry>> {
    if "[" <= text then ReadEntries(text[1..]) else None
  }

  lemma KeyPeels(key: string, body: string)
    ensures key <= key + body && (key + body)[|key|..] == body
  {
  }

  lemma TailRoundTrip(entry: Entry, rest: string)
    ensures ReadEntryTail(entry.pool, EntryTail(entry.representation) + rest) == Some((entry, rest))
  {
    KeyPeels("}", rest);
    match entry.representation {
      case None =>
      case Some(value) =>
        var body := Escape(value) + "\"" + ("}" + rest);
        Regroup(REPRESENTATION_KEY, Escape(value), rest);
        KeyPeels(REPRESENTATION_KEY, body);
        BodyRoundTrip(value, "}" + rest);
        assert (REPRESENTATION_KEY + body)[0] == REPRESENTATION_KEY[0] == ',';
    }
  }

  lemma Regroup(key: string, body: string, rest: string)
    ensures key + (body + "\"" + "}") + rest == key + (body + "\"" + ("}" + rest))
  {
  }

  lemma EntryRoundTrip(entry: Entry, rest: string)
    ensures ReadEntry(EntryJson(entry) + rest) == Some((entry, rest))
  {
    var tail := EntryTail(entry.representation) + rest;
    var body := Escape(entry.pool) + "\"" + tail;
    EntryText(POOL_KEY, Escape(entry.pool), EntryTail(entry.representation), rest);
    KeyPeels(POOL_KEY, body);
    BodyRoundTrip(entry.pool, tail);
    TailRoundTrip(entry, rest);
    EntryStep(POOL_KEY + body, body, entry, tail, rest);
  }

  lemma EntryText(key: string, body: string, tail: string, rest: string)
    ensures key + (body + "\"" + tail) + rest == key + (body + "\"" + (tail + rest))
  {
  }

  lemma EntryStep(text: string, body: string, entry: Entry, tail: string, rest: string)
    requires POOL_KEY <= text && text[|POOL_KEY|..] == body && ReadBody(body) == Some((entry.pool, tail))
    requires ReadEntryTail(entry.pool, tail) == Some((entry, rest))
    ensures ReadEntry(text) == Some((entry, rest))
  {
  }

  lemma EntriesStart(basis: seq<Entry>)
    ensures EntriesJson(basis) != ""
    ensures EntriesJson(basis)[0] == if basis == [] then ']' else '{'
  {
    if basis != [] {
      assert EntryJson(basis[0])[0] == POOL_KEY[0] == '{';
    }
  }

  lemma {:induction false} EntriesRoundTrip(basis: seq<Entry>)
    ensures ReadEntries(EntriesJson(basis)) == Some(basis)
    decreases |basis|
  {
    if basis != [] {
      EntriesRoundTrip(basis[1..]);
      EntryReadsFirst(basis);
      assert [basis[0]] + basis[1..] == basis;
    }
  }

  lemma EntryReadsFirst(basis: seq<Entry>)
    requires basis != []
    ensures ReadEntries(EntriesJson(basis)) == match ReadEntries(EntriesJson(basis[1..]))
                                               case None => None
                                               case Some(more) => Some([basis[0]] + more)
  {
    var rest := Separator(basis) + EntriesJson(basis[1..]);
    EntryRoundTrip(basis[0], rest);
    EntriesStart(basis);
    CommaSkipped(basis);
  }

  lemma CommaSkipped(basis: seq<Entry>)
    requires basis != []
    ensures var rest := Separator(basis) + EntriesJson(basis[1..]);
            (if "," <= rest then rest[1..] else rest) == EntriesJson(basis[1..])
  {
    EntriesStart(basis[1..]);
    if |basis| > 1 {
      KeyPeels(",", EntriesJson(basis[1..]));
    } else {
      assert Separator(basis) + EntriesJson(basis[1..]) == EntriesJson(basis[1..]);
    }
  }

  /** The canonical text can be read back to exactly the basis it was written from. */
  lemma BasisRoundTrip(basis: seq<Entry>)
    ensures ReadBasis(BasisJson(basis)) == Some(basis)
  {
    assert BasisJson(basis)[1..] == EntriesJson(basis);
    EntriesRoundTrip(basis);
  }
}
