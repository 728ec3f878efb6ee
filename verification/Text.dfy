/** Splitting and joining text on one separator character, as Python's `split`, `join`,
    `partition` and `rpartition` do. */
module Text {

  /** `separator.join(parts)`. */
  function Join(parts: seq<string>, separator: char): string {
    if |parts| == 0 then ""
    else if |parts| == 1 then parts[0]
    else parts[0] + [separator] + Join(parts[1..], separator)
  }

  /** `text.split(separator)`: never empty, and no piece holds the separator. */
  function Split(text: string, separator: char): (parts: seq<string>)
    ensures |parts| > 0
    ensures forall i :: 0 <= i < |parts| ==> separator !in parts[i]
  {
    if text == "" then [""]
    else
      var rest := Split(text[1..], separator);
      if text[0] == separator then [""] + rest
      else [[text[0]] + rest[0]] + rest[1..]
  }

  /** Splitting a separator-free piece followed by the separator peels that piece off. */
  lemma {:induction false} SplitPeels(piece: string, rest: string, separator: char)
    requires separator !in piece
    ensures Split(piece + [separator] + rest, separator) == [piece] + Split(rest, separator)
  {
    var text := piece + [separator] + rest;
    if piece == "" {
      assert text[1..] == rest;
    } else {
      assert text[1..] == piece[1..] + [separator] + rest;
      assert text[0] == piece[0];
      SplitPeels(piece[1..], rest, separator);
      assert [piece[0]] + piece[1..] == piece;
    }
  }

  lemma {:induction false} SplitWhole(piece: string, separator: char)
    requires separator !in piece
    ensures Split(piece, separator) == [piece]
  {
    if piece != "" {
      SplitWhole(piece[1..], separator);
      assert [piece[0]] + piece[1..] == piece;
    }
  }

  /** Splitting undoes joining whenever no part holds the separator. */
  lemma {:induction false} SplitJoin(parts: seq<string>, separator: char)
    requires |parts| > 0
    requires forall i :: 0 <= i < |parts| ==> separator !in parts[i]
    ensures Split(Join(parts, separator), separator) == parts
  {
    if |parts| == 1 {
      SplitWhole(parts[0], separator);
    } else {
      SplitPeels(parts[0], Join(parts[1..], separator), separator);
      SplitJoin(parts[1..], separator);
    }
  }

  /** Joining undoes splitting on every text. */
  lemma {:induction false} JoinSplit(text: string, separator: char)
    ensures Join(Split(text, separator), separator) == text
  {
    if text != "" {
      JoinSplit(text[1..], separator);
      var rest := Split(text[1..], separator);
      var parts := Split(text, separator);
      if text[0] == separator {
        assert parts[1..] == rest;
      } else if |rest| == 1 {
        assert Join(parts, separator) == parts[0];
      } else {
        assert parts[1..] == rest[1..];
      }
    }
  }

  /** Two texts split apart at a separator-free first piece agree piece by piece. */
  lemma JoinSplits(first: string, second: string, separator: char)
    requires Split(first, separator) == Split(second, separator)
    ensures first == second
  {
    JoinSplit(first, separator);
    JoinSplit(second, separator);
  }

  /** Splitting a concatenation around one separator concatenates the pieces. */
  lemma {:induction false} SplitConcat(left: string, right: string, separator: char)
    ensures Split(left + [separator] + right, separator) == Split(left, separator) + Split(right, separator)
  {
    var text := left + [separator] + right;
    if left == "" {
      assert text[1..] == right;
    } else {
      assert text[1..] == left[1..] + [separator] + right;
      SplitConcat(left[1..], right, separator);
    }
  }

  /** What `partition` and `rpartition` return. */
  datatype Cut = Cut(head: string, separator: string, tail: string)

  /** `text.partition(separator)`: cut at the first separator. */
  function Partition(text: string, separator: char): (cut: Cut)
    ensures cut.head + cut.separator + cut.tail == text
    ensures separator !in cut.head
    ensures cut.separator == (if separator in text then [separator] else "")
    ensures separator !in text ==> cut.tail == ""
  {
    if text == "" then Cut("", "", "")
    else if text[0] == separator then Cut("", [separator], text[1..])
    else
      var rest := Partition(text[1..], separator);
      Cut([text[0]] + rest.head, rest.separator, rest.tail)
  }

  /** `text.rpartition(separator)`: cut at the last separator; without one the whole text is the tail. */
  function RPartition(text: string, separator: char): (cut: Cut)
    ensures cut.head + cut.separator + cut.tail == text
    ensures separator !in cut.tail
    ensures cut.separator == (if separator in text then [separator] else "")
    ensures separator !in text ==> cut.head == ""
  {
    if text == "" then Cut("", "", "")
    else
      var last := |text| - 1;
      if text[last] == separator then Cut(text[..last], [separator], "")
      else
        var rest := RPartition(text[..last], separator);
        assert text == text[..last] + [text[last]];
        Cut(rest.head, rest.separator, rest.tail + [text[last]])
  }

  lemma RPartitionUnique(head: string, tail: string, separator: char)
    requires separator !in tail
    ensures RPartition(head + [separator] + tail, separator) == Cut(head, [separator], tail)
  {
    RPartitionOf(head + [separator] + tail, head, tail, separator);
  }

  lemma {:induction false} RPartitionOf(text: string, head: string, tail: string, separator: char)
    requires text == head + [separator] + tail && separator !in tail
    ensures RPartition(text, separator) == Cut(head, [separator], tail)
    decreases |tail|
  {
    if tail == "" {
      assert text == head + [separator];
      RPartitionLast(head, separator);
    } else {
      var front, shorter := text[..|text| - 1], tail[..|tail| - 1];
      LastOfTail(text, head, tail, separator);
      RPartitionOf(front, head, shorter, separator);
      RPartitionStep(text, separator, Cut(head, [separator], shorter));
    }
  }

  lemma LastOfTail(text: string, head: string, tail: string, separator: char)
    requires text == head + [separator] + tail && tail != "" && separator !in tail
    ensures text[..|text| - 1] == head + [separator] + tail[..|tail| - 1] && separator !in tail[..|tail| - 1]
    ensures text[|text| - 1] == tail[|tail| - 1] != separator && tail[..|tail| - 1] + [text[|text| - 1]] == tail
  {
    assert tail[|tail| - 1] in tail;
  }

  lemma RPartitionLast(head: string, separator: char)
    ensures RPartition(head + [separator], separator) == Cut(head, [separator], "")
  {
    var text := head + [separator];
    assert text[|text| - 1] == separator && text[..|text| - 1] == head;
  }

  lemma RPartitionStep(text: string, separator: char, rest: Cut)
    requires text != "" && text[|text| - 1] != separator && RPartition(text[..|text| - 1], separator) == rest
    ensures RPartition(text, separator) == Cut(rest.head, rest.separator, rest.tail + [text[|text| - 1]])
  {
  }

  lemma {:induction false} PartitionUnique(head: string, tail: string, separator: char)
    requires separator !in head
    ensures Partition(head + [separator] + tail, separator) == Cut(head, [separator], tail)
  {
    var text := head + [separator] + tail;
    if head == "" {
      assert text[0] == separator && text[1..] == tail;
    } else {
      assert text[0] == head[0] && text[0] in head;
      assert text[1..] == head[1..] + [separator] + tail;
      PartitionUnique(head[1..], tail, separator);
      PartitionStep(text, separator, Cut(head[1..], [separator], tail));
      assert head == [head[0]] + head[1..];
    }
  }

  lemma PartitionStep(text: string, separator: char, rest: Cut)
    requires text != "" && text[0] != separator && Partition(text[1..], separator) == rest
    ensures Partition(text, separator) == Cut([text[0]] + rest.head, rest.separator, rest.tail)
  {
  }
}
