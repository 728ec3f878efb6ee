/** What the text of a failed build names: the two searches that decide which member is charged. */
module FailureText {
  import opened Text
  import opened Numerals
  import opened Wrappers
  import opened Attribution

  const LINE_KEY := "source map line "
  const HASH_KEY := "streamed data hash for "
  const SPEC_KEY := " does not match spec"

  predicate At(text: string, p: nat, key: string) {
    p + |key| <= |text| && text[p..p + |key|] == key
  }

  // ----- A map line: `source map line (\d+)` -----

  predicate LineAt(text: string, p: nat) {
    At(text, p, LINE_KEY) && p + |LINE_KEY| < |text| && IsDecimalDigit(text[p + |LINE_KEY|])
  }

  /** The leftmost match at or after `from`. */
  function FirstLine(text: string, from: nat): (p: Option<nat>)
    requires from <= |text|
    ensures p.Some? ==> from <= p.value <= |text| && LineAt(text, p.value) && forall i :: from <= i < p.value ==> !LineAt(text, i)
    ensures p.None? ==> forall i :: from <= i <= |text| ==> !LineAt(text, i)
    decreases |text| - from
  {
    if LineAt(text, from) then Some(from) else if from == |text| then None else FirstLine(text, from + 1)
  }

  /** The digits at `q`, as many as there are. */
  function Digits(text: string, q: nat): (run: string)
    requires q <= |text|
    ensures q + |run| <= |text| && run == text[q..q + |run|] && forall i :: 0 <= i < |run| ==> IsDecimalDigit(run[i])
    ensures q + |run| == |text| || !IsDecimalDigit(text[q + |run|])
    decreases |text| - q
  {
    if q < |text| && IsDecimalDigit(text[q]) then [text[q]] + Digits(text, q + 1) else ""
  }

  function NamedLine(text: string): Option<nat> {
    var p := FirstLine(text, 0);
    if p.None? then None else Some(ReadDecimal(Digits(text, p.value + |LINE_KEY|)))
  }

  // ----- An archive path: `streamed data hash for (.+?) does not match spec` -----

  /** The first end of a non-empty, newline-free group that starts at `q`, from `e` on. */
  function FirstEnd(text: string, q: nat, e: nat): (end: Option<nat>)
    requires q < e
    ensures end.Some? ==> e <= end.value <= |text| && At(text, end.value, SPEC_KEY) && forall i :: e <= i < end.value ==> !At(text, i, SPEC_KEY)
    decreases |text| - e
  {
    if e > |text| || text[e - 1] == '\n' then None
    else if At(text, e, SPEC_KEY) then Some(e)
    else FirstEnd(text, q, e + 1)
  }

  /** The group of the leftmost match at or after `from`. */
  function NamedPathFrom(text: string, from: nat): (path: Option<string>)
    requires from <= |text|
    ensures path.Some? ==> path.value != ""
    decreases |text| - from
  {
    if At(text, from, HASH_KEY) && FirstEnd(text, from + |HASH_KEY|, from + |HASH_KEY| + 1).Some? then
      Some(text[from + |HASH_KEY|..FirstEnd(text, from + |HASH_KEY|, from + |HASH_KEY| + 1).value])
    else if from == |text| then None
    else NamedPathFrom(text, from + 1)
  }

  function NamedPath(text: string): Option<string> { NamedPathFrom(text, 0) }

  /** What the text names: a map line if there is one, else an archive path. */
  function Classify(text: string): Failure {
    if NamedLine(text).Some? then MapLine(NamedLine(text).value)
    else if NamedPath(text).Some? then WriterDigest(NamedPath(text).value)
    else Unattributed
  }

  /** `_identify_member_failure`. */
  function IdentifyText(text: string, paths: seq<string>): (row: Option<nat>)
    ensures row.Some? ==> row.value < |paths|
  {
    Identify(Classify(text), paths)
  }

  // ----- Line messages -----

  /** The key's first two characters do not come again at `d`. */
  predicate Turns(key: string, d: nat)
    requires 0 < d < |key|
  {
    key[d] != key[0] || (d + 1 < |key| && key[d + 1] != key[1])
  }

  /** No copy of the key can begin inside another. */
  predicate Borderless(key: string) {
    |key| >= 2 && forall d :: 0 < d < |key| ==> Turns(key, d)
  }

  lemma KeysAreBorderless()
    ensures Borderless(LINE_KEY) && Borderless(HASH_KEY)
  {
  }

  lemma OverlapRepeats(text: string, key: string, p: nat, start: nat)
    requires At(text, start, key) && At(text, p, key) && p < start < p + |key|
    ensures key[start - p] == key[0] && (start - p + 1 < |key| ==> key[start - p + 1] == key[1])
  {
    var first, second := text[p..p + |key|], text[start..start + |key|];
    assert first[start - p] == second[0];
    if start - p + 1 < |key| { assert first[start - p + 1] == second[1]; }
  }

  lemma NoOverlap(text: string, key: string, p: nat, start: nat)
    requires Borderless(key) && At(text, start, key) && At(text, p, key) && p < start
    ensures p + |key| <= start
  {
    if p + |key| > start {
      assert Turns(key, start - p);
      OverlapRepeats(text, key, p, start);
    }
  }

  lemma SameBefore(before: string, rest: string, p: nat)
    requires p < |before| && At(before + rest, |before|, LINE_KEY)
    ensures LineAt(before + rest, p) <==> LineAt(before, p)
  {
    var text := before + rest;
    if LineAt(text, p) {
      KeysAreBorderless();
      NoOverlap(text, LINE_KEY, p, |before|);
      assert text[|before|] == text[|before|..|before| + |LINE_KEY|][0] == 's';
      assert before[p..p + |LINE_KEY|] == text[p..p + |LINE_KEY|];
    }
    if LineAt(before, p) {
      assert before[p..p + |LINE_KEY|] == text[p..p + |LINE_KEY|];
    }
  }

  /** A run of digits ends where the text says it does. */
  lemma {:induction false} DigitsAre(text: string, q: nat, run: string)
    requires q + |run| <= |text| && text[q..q + |run|] == run && forall i :: 0 <= i < |run| ==> IsDecimalDigit(run[i])
    requires q + |run| == |text| || !IsDecimalDigit(text[q + |run|])
    ensures Digits(text, q) == run
    decreases |run|
  {
    if run != "" {
      assert text[q] == text[q..q + |run|][0] == run[0];
      assert text[q + 1..q + 1 + |run[1..]|] == text[q..q + |run|][1..] == run[1..];
      DigitsAre(text, q + 1, run[1..]);
      assert run == [run[0]] + run[1..];
    }
  }

  lemma SameDigits(before: string, rest: string, q: nat)
    requires q <= |before| && rest != "" && !IsDecimalDigit(rest[0])
    ensures Digits(before + rest, q) == Digits(before, q)
  {
    var text, run := before + rest, Digits(before, q);
    assert text[q..q + |run|] == before[q..q + |run|];
    DigitsAre(text, q, run);
  }

  /** What a text with `LINE_KEY` and a number right after `before` names: the number, unless `before`
      itself already names a line, which then wins. */
  lemma LineTextNames(before: string, n: nat, after: string)
    requires after == "" || !IsDecimalDigit(after[0])
    ensures NamedLine(before + (LINE_KEY + Decimal(n) + after))
            == Some(if NamedLine(before).Some? then NamedLine(before).value else n)
  {
    var rest := LINE_KEY + Decimal(n) + after;
    KeyThere(before, n, after);
    RunThere(before, LINE_KEY, Decimal(n), after);
    NumberThere(before + rest, |before| + |LINE_KEY|, n, Decimal(n));
    assert rest[0] == 's';
    NamesEither(before, rest, n);
  }

  lemma NamesEither(before: string, rest: string, n: nat)
    requires LineAt(before + rest, |before|) && rest != "" && !IsDecimalDigit(rest[0])
    requires ReadDecimal(Digits(before + rest, |before| + |LINE_KEY|)) == n
    ensures NamedLine(before + rest) == Some(if NamedLine(before).Some? then NamedLine(before).value else n)
  {
    FirstLineIs(before, rest);
    var first := FirstLine(before, 0);
    if first.Some? { SameDigits(before, rest, first.value + |LINE_KEY|); }
    NamedByFirst(before + rest, before, n, first);
  }

  lemma NamedByFirst(text: string, before: string, n: nat, first: Option<nat>)
    requires |before| + |LINE_KEY| <= |text| && first == FirstLine(before, 0)
    requires FirstLine(text, 0) == if first.Some? then first else Some(|before|)
    requires ReadDecimal(Digits(text, |before| + |LINE_KEY|)) == n
    requires first.Some? ==>
               first.value + |LINE_KEY| <= |before| && Digits(text, first.value + |LINE_KEY|) == Digits(before, first.value + |LINE_KEY|)
    ensures NamedLine(text) == Some(if NamedLine(before).Some? then NamedLine(before).value else n)
  {
  }

  lemma FirstLineIs(before: string, rest: string)
    requires LineAt(before + rest, |before|)
    ensures FirstLine(before + rest, 0) == if FirstLine(before, 0).Some? then FirstLine(before, 0) else Some(|before|)
  {
    forall p | 0 <= p < |before|
      ensures LineAt(before + rest, p) <==> LineAt(before, p)
    {
      SameBefore(before, rest, p);
    }
    var p, q := FirstLine(before, 0), FirstLine(before + rest, 0);
    assert p.Some? ==> p.value < |before|;
    assert q.Some?;
  }

  lemma KeyThere(before: string, n: nat, after: string)
    ensures var text := before + (LINE_KEY + Decimal(n) + after); LineAt(text, |before|) && At(text, |before|, LINE_KEY)
  {
    var rest := LINE_KEY + Decimal(n) + after;
    var text := before + rest;
    assert text[|before|..|before| + |LINE_KEY|] == rest[..|LINE_KEY|] == LINE_KEY;
    assert text[|before| + |LINE_KEY|] == rest[|LINE_KEY|] == Decimal(n)[0];
  }

  lemma NumberThere(text: string, q: nat, n: nat, run: string)
    requires run == Decimal(n) && q + |run| <= |text| && text[q..q + |run|] == run
    requires q + |run| == |text| || !IsDecimalDigit(text[q + |run|])
    ensures ReadDecimal(Digits(text, q)) == n
  {
    DigitsAre(text, q, run);
    DecimalRoundTrip(n);
  }

  lemma RunThere(before: string, key: string, run: string, after: string)
    ensures var text, q := before + (key + run + after), |before| + |key|;
            |text| == q + |run| + |after| && text[q..q + |run|] == run && (after != "" ==> text[q + |run|] == after[0])
  {
    assert before + (key + run + after) == (before + key) + run + after;
  }

  // ----- Path messages -----

  /** A path the digest search can name: not empty, on one line, and with no end marker inside. */
  predicate Nameable(path: string) {
    path != "" && '\n' !in path && forall e :: 1 <= e < |path| ==> !At(path + SPEC_KEY, e, SPEC_KEY)
  }

  ghost predicate Absent(text: string, key: string) {
    forall p :: 0 <= p <= |text| ==> !At(text, p, key)
  }

  /** The group that starts at `q` ends at `e` exactly when `e` is its first end and no newline comes first. */
  lemma {:induction false} FirstEndIs(text: string, q: nat, from: nat, e: nat)
    requires q < from <= e <= |text| && At(text, e, SPEC_KEY)
    requires forall i :: from <= i < e ==> !At(text, i, SPEC_KEY)
    requires forall i :: from - 1 <= i < e ==> text[i] != '\n'
    ensures FirstEnd(text, q, from) == Some(e)
    decreases e - from
  {
    if from < e { FirstEndIs(text, q, from + 1, e); }
  }

  lemma {:induction false} GroupIsOneLine(text: string, q: nat, from: nat)
    requires q < from && FirstEnd(text, q, from).Some?
    ensures forall i :: from - 1 <= i < FirstEnd(text, q, from).value ==> text[i] != '\n'
    decreases |text| - from
  {
    if !At(text, from, SPEC_KEY) { GroupIsOneLine(text, q, from + 1); }
  }

  /** A named path is always nameable. */
  lemma {:induction false} NamedIsOneLine(text: string, from: nat)
    requires from <= |text| && NamedPathFrom(text, from).Some?
    ensures '\n' !in NamedPathFrom(text, from).value
    decreases |text| - from
  {
    var q := from + |HASH_KEY|;
    if At(text, from, HASH_KEY) && FirstEnd(text, q, q + 1).Some? {
      GroupIsOneLine(text, q, q + 1);
    } else if from < |text| {
      NamedIsOneLine(text, from + 1);
    }
  }

  /** With no match before position `start`, the search finds what it finds from there. */
  lemma {:induction false} SearchSkips(text: string, from: nat, start: nat)
    requires from <= start <= |text| && forall p :: from <= p < start ==> !At(text, p, HASH_KEY)
    ensures NamedPathFrom(text, from) == NamedPathFrom(text, start)
    decreases start - from
  {
    if from < start { SearchSkips(text, from + 1, start); }
  }

  lemma KeyInBefore(before: string, rest: string, p: nat)
    requires At(before + rest, |before|, HASH_KEY) && At(before + rest, p, HASH_KEY) && p < |before|
    ensures At(before, p, HASH_KEY)
  {
    var text := before + rest;
    KeysAreBorderless();
    NoOverlap(text, HASH_KEY, p, |before|);
    assert before[p..p + |HASH_KEY|] == text[p..p + |HASH_KEY|];
  }

  lemma NoKeyBefore(before: string, rest: string, p: nat)
    requires Absent(before, HASH_KEY) && At(before + rest, |before|, HASH_KEY) && p < |before|
    ensures !At(before + rest, p, HASH_KEY)
  {
    if At(before + rest, p, HASH_KEY) { KeyInBefore(before, rest, p); }
  }

  /** The text around a path: the marker, the path and the end marker are where they should be. */
  lemma PathThere(before: string, path: string, after: string)
    ensures var text, q := before + (HASH_KEY + path + SPEC_KEY + after), |before| + |HASH_KEY|;
            && At(text, |before|, HASH_KEY) && At(text, q + |path|, SPEC_KEY) && text[q..q + |path|] == path
            && text[q..q + |path| + |SPEC_KEY|] == path + SPEC_KEY
  {
    PartsThere(before, HASH_KEY, path, SPEC_KEY, after);
  }

  lemma PartsThere(before: string, open: string, path: string, close: string, after: string)
    ensures var text, q := before + (open + path + close + after), |before| + |open|;
            && At(text, |before|, open) && At(text, q + |path|, close) && text[q..q + |path|] == path
            && text[q..q + |path| + |close|] == path + close
  {
    var text := before + (open + path + close + after);
    assert text == before + open + (path + close) + after;
    assert text == before + open + path + close + after;
  }

  predicate MarkedAlike(text: string, q: nat, path: string, e: nat) {
    At(text, q + e, SPEC_KEY) <==> At(path + SPEC_KEY, e, SPEC_KEY)
  }

  /** Up to the end of the path, the text from `q` on has the end marker where the path and its marker do. */
  predicate SameMarkers(text: string, q: nat, path: string) {
    forall e :: 0 <= e <= |path| ==> MarkedAlike(text, q, path, e)
  }

  lemma MarkerAt(text: string, q: nat, path: string, e: nat)
    requires SameMarkers(text, q, path) && e <= |path|
    ensures At(text, q + e, SPEC_KEY) <==> At(path + SPEC_KEY, e, SPEC_KEY)
  {
    assert MarkedAlike(text, q, path, e);
  }

  /** Where the key stands and a group ends, that group is named. */
  lemma NamedWhole(text: string, start: nat, end: nat)
    requires At(text, start, HASH_KEY) && FirstEnd(text, start + |HASH_KEY|, start + |HASH_KEY| + 1) == Some(end)
    ensures NamedPathFrom(text, start) == Some(text[start + |HASH_KEY|..end])
  {
  }

  lemma InnerMarkers(text: string, q: nat, path: string, e: nat)
    requires q + |path| + |SPEC_KEY| <= |text| && text[q..q + |path| + |SPEC_KEY|] == path + SPEC_KEY && e <= |path|
    ensures At(text, q + e, SPEC_KEY) <==> At(path + SPEC_KEY, e, SPEC_KEY)
  {
    SliceOfSlice(text, q, q + |path| + |SPEC_KEY|, e, e + |SPEC_KEY|);
  }

  lemma SliceOfSlice(text: string, a: nat, b: nat, c: nat, d: nat)
    requires a <= b <= |text| && c <= d <= b - a
    ensures text[a..b][c..d] == text[a + c..a + d]
  {
    assert forall i :: 0 <= i < d - c ==> text[a..b][c..d][i] == text[a + c..a + d][i];
  }

  /** A digest message names its path if and only if the path is nameable, whatever follows it, as long
      as nothing before it looks like the start of such a message. */
  lemma PathTextNames(before: string, path: string, after: string)
    requires Absent(before, HASH_KEY)
    ensures NamedPath(before + (HASH_KEY + path + SPEC_KEY + after)) == Some(path) <==> Nameable(path)
  {
    var text := before + (HASH_KEY + path + SPEC_KEY + after);
    PathThere(before, path, after);
    forall p | 0 <= p < |before|
      ensures !At(text, p, HASH_KEY)
    {
      NoKeyBefore(before, HASH_KEY + path + SPEC_KEY + after, p);
    }
    SearchSkips(text, 0, |before|);
    NamesHere(text, |before|, path);
  }

  lemma NamesHere(text: string, start: nat, path: string)
    requires At(text, start, HASH_KEY)
    requires var q := start + |HASH_KEY|;
             q + |path| + |SPEC_KEY| <= |text| && text[q..q + |path|] == path && text[q..q + |path| + |SPEC_KEY|] == path + SPEC_KEY
    ensures NamedPathFrom(text, start) == Some(path) <==> Nameable(path)
  {
    var q := start + |HASH_KEY|;
    forall e | 0 <= e <= |path|
      ensures MarkedAlike(text, q, path, e)
    {
      InnerMarkers(text, q, path, e);
    }
    if Nameable(path) {
      NameableHere(text, start, path);
    } else if NamedPathFrom(text, start) == Some(path) {
      NamedIsOneLine(text, start);
      NotNameableHere(text, start, path);
    }
  }

  lemma NameableHere(text: string, start: nat, path: string)
    requires At(text, start, HASH_KEY) && Nameable(path)
    requires var q := start + |HASH_KEY|; q + |path| + |SPEC_KEY| <= |text| && text[q..q + |path|] == path
    requires SameMarkers(text, start + |HASH_KEY|, path)
    ensures NamedPathFrom(text, start) == Some(path)
  {
    var q := start + |HASH_KEY|;
    assert At(path + SPEC_KEY, |path|, SPEC_KEY);
    forall i | q + 1 <= i < q + |path|
      ensures !At(text, i, SPEC_KEY)
    {
      MarkerAt(text, q, path, i - q);
    }
    forall i | q <= i < q + |path|
      ensures text[i] != '\n'
    {
      assert text[i] == path[i - q];
    }
    MarkerAt(text, q, path, |path|);
    FirstEndIs(text, q, q + 1, q + |path|);
    NamedWhole(text, start, q + |path|);
  }

  /** A path with an end marker inside is cut short. */
  lemma NotNameableHere(text: string, start: nat, path: string)
    requires At(text, start, HASH_KEY) && path != "" && '\n' !in path && !Nameable(path)
    requires var q := start + |HASH_KEY|; q + |path| + |SPEC_KEY| <= |text| && text[q..q + |path|] == path
    requires SameMarkers(text, start + |HASH_KEY|, path)
    ensures NamedPathFrom(text, start).Some? && |NamedPathFrom(text, start).value| < |path|
  {
    var q := start + |HASH_KEY|;
    var e := LeastMarker(path + SPEC_KEY, 1, |path|);
    CutShort(text, q, path, e);
    NamedWhole(text, start, q + e);
  }

  lemma CutShort(text: string, q: nat, path: string, e: nat)
    requires q + |path| <= |text| && text[q..q + |path|] == path && '\n' !in path && 1 <= e < |path|
    requires SameMarkers(text, q, path)
    requires At(path + SPEC_KEY, e, SPEC_KEY) && forall d :: 1 <= d < e ==> !At(path + SPEC_KEY, d, SPEC_KEY)
    ensures FirstEnd(text, q, q + 1) == Some(q + e)
  {
    forall i | q + 1 <= i < q + e
      ensures !At(text, i, SPEC_KEY)
    {
      MarkerAt(text, q, path, i - q);
    }
    forall i | q <= i < q + e
      ensures text[i] != '\n'
    {
      assert text[i] == path[i - q];
    }
    MarkerAt(text, q, path, e);
    FirstEndIs(text, q, q + 1, q + e);
  }

  lemma {:induction false} LeastMarker(window: string, from: nat, limit: nat) returns (e: nat)
    requires exists d :: from <= d < limit && At(window, d, SPEC_KEY)
    ensures from <= e < limit && At(window, e, SPEC_KEY) && forall d :: from <= d < e ==> !At(window, d, SPEC_KEY)
    decreases limit - from
  {
    if At(window, from, SPEC_KEY) { e := from; } else { e := LeastMarker(window, from + 1, limit); }
  }

  // ----- The row charged -----

  /** A line message is charged to the row of the line it names, unless what comes before it already
      names a line, which then decides. */
  lemma LineMessageRow(before: string, n: nat, after: string, paths: seq<string>)
    requires after == "" || !IsDecimalDigit(after[0])
    ensures IdentifyText(before + (LINE_KEY + Decimal(n) + after), paths)
            == Identify(MapLine(if NamedLine(before).Some? then NamedLine(before).value else n), paths)
  {
    LineTextNames(before, n, after);
  }

  /** A digest message for row `k` is charged to row `k` if and only if its path is nameable, or, when
      some part of the text reads as a map line, that line happens to be row `k`'s. */
  lemma DigestMessageRowExactly(before: string, paths: seq<string>, k: nat, after: string)
    requires k < |paths| && Absent(before, HASH_KEY) && forall i, j :: 0 <= i < j < |paths| ==> paths[i] != paths[j]
    ensures var text := before + (HASH_KEY + paths[k] + SPEC_KEY + after);
            IdentifyText(text, paths) == Some(k) <==>
              if NamedLine(text).Some? then NamedLine(text).value == k + 2 else Nameable(paths[k])
  {
    var text := before + (HASH_KEY + paths[k] + SPEC_KEY + after);
    PathTextNames(before, paths[k], after);
    RowOfPath(paths, k, NamedPath(text));
  }

  lemma RowOfPath(paths: seq<string>, k: nat, named: Option<string>)
    requires k < |paths| && forall i, j :: 0 <= i < j < |paths| ==> paths[i] != paths[j]
    ensures named.Some? ==> (FirstAt(named.value, paths, 0) == Some(k) <==> named.value == paths[k])
  {
    assert paths[k] in paths[0..];
  }

  lemma {:induction false} NoDigitsNoLine(text: string, from: nat)
    requires from <= |text| && forall i :: 0 <= i < |text| ==> !IsDecimalDigit(text[i])
    ensures FirstLine(text, from) == None
  {
  }

  /** A path that reads as a map line misleads the search: row 0's digest failure is charged to row 1. */
  lemma LinePathMisleads(paths: seq<string>)
    requires |paths| >= 2 && paths[0] == LINE_KEY + Decimal(3)
    ensures IdentifyText(HASH_KEY + (paths[0] + SPEC_KEY), paths) == Some(1)
  {
    NoDigitsNoLine(HASH_KEY, 0);
    LineMessageRow(HASH_KEY, 3, SPEC_KEY, paths);
  }

  /** So does a path with the end marker inside: row 0's failure is charged to the row whose path it cuts to. */
  lemma MarkerPathMisleads(paths: seq<string>, k: nat, tail: string)
    requires 0 < k < |paths| && paths[0] == paths[k] + SPEC_KEY + tail && Nameable(paths[k])
    requires forall i, j :: 0 <= i < j < |paths| ==> paths[i] != paths[j]
    requires NamedLine(HASH_KEY + paths[0] + SPEC_KEY).None?
    ensures IdentifyText(HASH_KEY + paths[0] + SPEC_KEY, paths) == Some(k)
  {
    var text := HASH_KEY + paths[0] + SPEC_KEY;
    assert text == "" + (HASH_KEY + paths[k] + SPEC_KEY + (tail + SPEC_KEY));
    DigestMessageRowExactly("", paths, k, tail + SPEC_KEY);
  }
}
