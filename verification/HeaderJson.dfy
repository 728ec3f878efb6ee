/** JSON texts as `json.dumps(..., sort_keys=True)` writes them, and reading them back. */
module HeaderJson {
  import opened Wrappers
  import opened Numerals
  import opened CanonicalJson

  datatype Json = Text(text: string) | Number(number: nat) | List(items: seq<Json>) | Object(fields: seq<Field>)

  datatype Field = Field(key: string, value: Json)

  function Quoted(text: string): string { "\"" + (Escape(text) + "\"") }

  function Render(v: Json): (text: string)
    ensures text != ""
  {
    match v
    case Text(s) => Quoted(s)
    case Number(n) => Decimal(n)
    case List(items) => "[" + RenderItems(items, true)
    case Object(fields) => "{" + RenderFields(fields, true)
  }

  /** The rest of a list, closing bracket included. */
  function RenderItems(items: seq<Json>, first: bool): (text: string)
    ensures text != ""
    decreases items
  {
    if items == [] then "]" else Comma(first) + (Render(items[0]) + RenderItems(items[1..], false))
  }

  function RenderFields(fields: seq<Field>, first: bool): (text: string)
    ensures text != ""
    decreases fields
  {
    if fields == [] then "}"
    else Comma(first) + (Quoted(fields[0].key) + (": " + (Render(fields[0].value) + RenderFields(fields[1..], false))))
  }

  function Comma(first: bool): string { if first then "" else ", " }

  // ----- Reading -----

  function Digits(text: string): (run: string)
    ensures |run| <= |text| && run == text[..|run|] && forall i :: 0 <= i < |run| ==> IsDecimalDigit(run[i])
    ensures |run| == |text| || !IsDecimalDigit(text[|run|])
  {
    if text != "" && IsDecimalDigit(text[0]) then [text[0]] + Digits(text[1..]) else ""
  }

  /** Read one value off the front of a text. */
  function Read(text: string): (read: Option<(Json, string)>)
    ensures read.Some? ==> |read.value.1| < |text|
    decreases |text|, 0
  {
    if text == "" then None
    else if text[0] == '"' then
      match ReadBody(text[1..])
      case None => None
      case Some((s, rest)) => Some((Text(s), rest))
    else if IsDecimalDigit(text[0]) then
      var run := Digits(text); Some((Number(ReadDecimal(run)), text[|run|..]))
    else if text[0] == '[' then
      match ReadItems(text[1..], true)
      case None => None
      case Some((items, rest)) => Some((List(items), rest))
    else if text[0] == '{' then
      match ReadFields(text[1..], true)
      case None => None
      case Some((fields, rest)) => Some((Object(fields), rest))
    else None
  }

  /** The text after a separator, if it is there. */
  function AfterComma(text: string, first: bool): (rest: Option<string>)
    ensures rest.Some? ==> |rest.value| <= |text|
  {
    if first then Some(text) else if ", " <= text then Some(text[2..]) else None
  }

  function ReadItems(text: string, first: bool): (read: Option<(seq<Json>, string)>)
    ensures read.Some? ==> |read.value.1| < |text|
    decreases |text|, 1
  {
    if "]" <= text then Some(([], text[1..]))
    else
      match AfterComma(text, first)
      case None => None
      case Some(start) =>
        match Read(start)
        case None => None
        case Some((item, rest)) =>
          match ReadItems(rest, false)
          case None => None
          case Some((items, after)) => Some(([item] + items, after))
  }

  function ReadKey(text: string): (read: Option<(string, string)>)
    ensures read.Some? ==> |read.value.1| < |text|
  {
    if !("\"" <= text) then None
    else
      match ReadBody(text[1..])
      case None => None
      case Some((key, rest)) => if ": " <= rest then Some((key, rest[2..])) else None
  }

  function ReadFields(text: string, first: bool): (read: Option<(seq<Field>, string)>)
    ensures read.Some? ==> |read.value.1| < |text|
    decreases |text|, 1
  {
    if "}" <= text then Some(([], text[1..]))
    else
      match AfterComma(text, first)
      case None => None
      case Some(start) =>
        match ReadKey(start)
        case None => None
        case Some((key, after)) =>
          match Read(after)
          case None => None
          case Some((value, rest)) =>
            match ReadFields(rest, false)
            case None => None
            case Some((fields, end)) => Some(([Field(key, value)] + fields, end))
  }

  // ----- Round trip -----

  predicate NoDigit(text: string) { text == "" || !IsDecimalDigit(text[0]) }

  /** A value starts with its own mark, never with one that closes or separates. */
  lemma StartOf(v: Json)
    ensures Render(v)[0] == '"' || IsDecimalDigit(Render(v)[0]) || Render(v)[0] == '[' || Render(v)[0] == '{'
  {
  }

  lemma RestStarts(items: seq<Json>, fields: seq<Field>)
    ensures RenderItems(items, false)[0] == ']' || RenderItems(items, false)[0] == ','
    ensures RenderFields(fields, false)[0] == '}' || RenderFields(fields, false)[0] == ','
  {
  }

  lemma QuotedReads(s: string, rest: string)
    ensures (Quoted(s) + rest)[0] == '"' && ReadBody((Quoted(s) + rest)[1..]) == Some((s, rest))
  {
    assert (Quoted(s) + rest)[1..] == Escape(s) + "\"" + rest;
    BodyRoundTrip(s, rest);
  }

  lemma {:induction false} DigitsRead(run: string, rest: string)
    requires (forall i :: 0 <= i < |run| ==> IsDecimalDigit(run[i])) && NoDigit(rest)
    ensures Digits(run + rest) == run
    decreases |run|
  {
    if run == "" {
      assert run + rest == rest;
    } else {
      assert (run + rest)[0] == run[0] && (run + rest)[1..] == run[1..] + rest;
      DigitsRead(run[1..], rest);
    }
  }

  lemma NumberReads(n: nat, run: string, rest: string)
    requires run == Decimal(n) && NoDigit(rest)
    ensures Read(run + rest) == Some((Number(n), rest))
  {
    DigitsRead(run, rest);
    DecimalRoundTrip(n);
    assert (run + rest)[0] == run[0] && (run + rest)[|run|..] == rest;
  }

  lemma CommaReads(written: string, first: bool)
    ensures AfterComma(Comma(first) + written, first) == Some(written)
  {
    if first { assert "" + written == written; } else { assert (", " + written)[2..] == written; }
  }

  /** Reading one item and the rest of the list. */
  lemma ItemReads(item: Json, written: string, items: seq<Json>, more: string, rest: string, first: bool)
    requires written != "" && written[0] != ']' && Read(written + more) == Some((item, more))
    requires ReadItems(more, false) == Some((items, rest))
    ensures ReadItems(Comma(first) + (written + more), first) == Some(([item] + items, rest))
  {
    CommaReads(written + more, first);
    CommaStarts(written + more, first);
    ItemStep(Comma(first) + (written + more), written + more, item, items, more, rest, first);
  }

  lemma ItemStep(text: string, start: string, item: Json, items: seq<Json>, more: string, rest: string, first: bool)
    requires text != "" && text[0] != ']' && AfterComma(text, first) == Some(start)
    requires Read(start) == Some((item, more)) && ReadItems(more, false) == Some((items, rest))
    ensures ReadItems(text, first) == Some(([item] + items, rest))
  {
  }

  lemma FieldStep(text: string, start: string, key: string, after: string, value: Json, fields: seq<Field>, more: string,
                  rest: string, first: bool)
    requires text != "" && text[0] != '}' && AfterComma(text, first) == Some(start) && ReadKey(start) == Some((key, after))
    requires Read(after) == Some((value, more)) && ReadFields(more, false) == Some((fields, rest))
    ensures ReadFields(text, first) == Some(([Field(key, value)] + fields, rest))
  {
  }

  lemma CommaStarts(written: string, first: bool)
    requires written != ""
    ensures Comma(first) + written != "" && (Comma(first) + written)[0] == if first then written[0] else ','
  {
    if first { assert "" + written == written; }
  }

  lemma FieldReads(key: string, value: Json, written: string, fields: seq<Field>, more: string, rest: string, first: bool)
    requires Read(written + more) == Some((value, more)) && ReadFields(more, false) == Some((fields, rest))
    ensures ReadFields(Comma(first) + (Quoted(key) + (": " + (written + more))), first) == Some(([Field(key, value)] + fields, rest))
  {
    var after := ": " + (written + more);
    CommaReads(Quoted(key) + after, first);
    CommaStarts(Quoted(key) + after, first);
    KeyReads(key, written + more);
    FieldStep(Comma(first) + (Quoted(key) + after), Quoted(key) + after, key, written + more, value, fields, more, rest, first);
  }

  lemma KeyReads(key: string, rest: string)
    ensures ReadKey(Quoted(key) + (": " + rest)) == Some((key, rest))
  {
    QuotedReads(key, ": " + rest);
    assert (": " + rest)[2..] == rest;
  }

  lemma ListReads(items: seq<Json>, body: string, rest: string)
    requires ReadItems(body + rest, true) == Some((items, rest))
    ensures Read("[" + body + rest) == Some((List(items), rest))
  {
    assert ("[" + body + rest)[1..] == body + rest;
  }

  lemma ObjectReads(fields: seq<Field>, body: string, rest: string)
    requires ReadFields(body + rest, true) == Some((fields, rest))
    ensures Read("{" + body + rest) == Some((Object(fields), rest))
  {
    assert ("{" + body + rest)[1..] == body + rest;
  }

  /** Every value reads back from what it renders to, whatever follows it short of a digit. */
  lemma {:induction false} ReadsBack(v: Json, rest: string)
    requires NoDigit(rest)
    ensures Read(Render(v) + rest) == Some((v, rest))
    decreases v
  {
    match v {
      case Text(s) => QuotedReads(s, rest);
      case Number(n) => NumberReads(n, Decimal(n), rest);
      case List(items) =>
        ItemsReadBack(items, true, rest);
        ListReads(items, RenderItems(items, true), rest);
      case Object(fields) =>
        FieldsReadBack(fields, true, rest);
        ObjectReads(fields, RenderFields(fields, true), rest);
    }
  }

  lemma {:induction false} ItemsReadBack(items: seq<Json>, first: bool, rest: string)
    ensures ReadItems(RenderItems(items, first) + rest, first) == Some((items, rest))
    decreases items
  {
    if items == [] {
      assert ("]" + rest)[1..] == rest;
    } else {
      var written, tail := Render(items[0]), RenderItems(items[1..], false);
      var more := tail + rest;
      RestStarts(items[1..], []);
      StartOf(items[0]);
      ReadsBack(items[0], more);
      ItemsReadBack(items[1..], false, rest);
      ItemReads(items[0], written, items[1..], more, rest, first);
      ItemText(Comma(first), written, tail, rest);
      assert [items[0]] + items[1..] == items;
    }
  }

  lemma {:induction false} FieldsReadBack(fields: seq<Field>, first: bool, rest: string)
    ensures ReadFields(RenderFields(fields, first) + rest, first) == Some((fields, rest))
    decreases fields
  {
    if fields == [] {
      assert ("}" + rest)[1..] == rest;
    } else {
      var head, tail := fields[0], RenderFields(fields[1..], false);
      var written, more := Render(head.value), tail + rest;
      RestStarts([], fields[1..]);
      ReadsBack(head.value, more);
      FieldsReadBack(fields[1..], false, rest);
      FieldReads(head.key, head.value, written, fields[1..], more, rest, first);
      FieldText(Comma(first), Quoted(head.key), written, tail, rest);
      assert [Field(head.key, head.value)] + fields[1..] == fields;
    }
  }

  lemma ItemText(comma: string, written: string, tail: string, rest: string)
    ensures comma + (written + tail) + rest == comma + (written + (tail + rest))
  {
  }

  lemma FieldText(comma: string, key: string, written: string, tail: string, rest: string)
    ensures comma + (key + (": " + (written + tail))) + rest == comma + (key + (": " + (written + (tail + rest))))
  {
  }
}
