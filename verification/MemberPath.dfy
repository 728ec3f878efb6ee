/** Disambiguation tags inside a member path, and reading them back. */
module MemberPath {
  import opened Text
  import opened Wrappers

  /** The final path segment, where the tag goes. */
  function BaseName(path: string): string {
    RPartition(path, '/').tail
  }

  function TagBase(base: string, tag: string): string {
    TagStem(Partition(base, '.'), tag)
  }

  function TagStem(stem: Cut, tag: string): string {
    if stem.separator != "" then stem.head + "." + tag + "." + stem.tail
    else stem.head + "." + tag
  }

  /** Insert a tag after the first-dot stem of the final segment. */
  function TagMemberPath(path: string, tag: string): string {
    var cut := RPartition(path, '/');
    cut.head + cut.separator + TagBase(cut.tail, tag)
  }

  /** Recover the tag that maps the requested name onto the recorded one. */
  function ExtractMemberTag(requested: string, actual: string): Option<string> {
    if actual == requested then None
    else
      var wanted, found := RPartition(requested, '/'), RPartition(actual, '/');
      if wanted.head != found.head then None
      else ExtractStemTag(Partition(wanted.tail, '.'), found.tail)
  }

  function ExtractStemTag(stem: Cut, found: string): Option<string> {
    var prefix := stem.head + ".";
    if !(prefix <= found) then None
    else
      var remainder := found[|prefix|..];
      if stem.separator != "" then
        var suffix := "." + stem.tail;
        if !EndsWith(remainder, suffix) || |remainder| <= |suffix| then None
        else Some(remainder[..|remainder| - |suffix|])
      else if remainder == "" then None
      else Some(remainder)
  }

  predicate EndsWith(text: string, suffix: string) {
    |suffix| <= |text| && text[|text| - |suffix|..] == suffix
  }

  /** A slash-free tag leaves the directory part alone. */
  lemma TaggedCut(path: string, tag: string)
    requires '/' !in tag
    ensures var cut := RPartition(path, '/');
            RPartition(TagMemberPath(path, tag), '/') == Cut(cut.head, cut.separator, TagBase(cut.tail, tag))
  {
    var cut := RPartition(path, '/');
    var base := TagBase(cut.tail, tag);
    if cut.separator == "" {
      assert TagMemberPath(path, tag) == base;
      var again := RPartition(base, '/');
      assert '/' !in base;
    } else {
      RPartitionUnique(cut.head, base, '/');
    }
  }

  lemma ExtractUndoesTagStem(stem: Cut, tag: string)
    requires tag != ""
    ensures ExtractStemTag(stem, TagStem(stem, tag)) == Some(tag)
  {
    var found, prefix := TagStem(stem, tag), stem.head + ".";
    var remainder := found[|prefix|..];
    if stem.separator != "" {
      var suffix := "." + stem.tail;
      assert found == prefix + (tag + suffix);
      assert remainder == tag + suffix;
    } else {
      assert found == prefix + tag;
      assert remainder == tag;
    }
  }

  lemma TagStemUndoesExtract(stem: Cut, found: string)
    requires ExtractStemTag(stem, found).Some?
    ensures TagStem(stem, ExtractStemTag(stem, found).value) == found
  {
  }

  lemma TaggedIsLonger(path: string, tag: string)
    ensures |TagMemberPath(path, tag)| > |path|
  {
  }

  /** Reading back a tagged name gives the tag that was inserted. */
  lemma ExtractUndoesTag(path: string, tag: string)
    requires tag != "" && '/' !in tag
    ensures ExtractMemberTag(path, TagMemberPath(path, tag)) == Some(tag)
  {
    TaggedIsLonger(path, tag);
    TaggedCut(path, tag);
    ExtractUndoesTagStem(Partition(RPartition(path, '/').tail, '.'), tag);
  }

  /** An extracted tag re-tags to the recorded name exactly when both names carry a directory
      separator or neither does. The reader compares only the heads, so for a root-level request
      such as `a` the recorded name `/a.t` is read as tag `t`, which re-tags to `a.t`. */
  lemma RetagsExactly(requested: string, actual: string)
    requires ExtractMemberTag(requested, actual).Some?
    ensures TagMemberPath(requested, ExtractMemberTag(requested, actual).value) == actual
            <==> ('/' in requested <==> '/' in actual)
  {
    var wanted, found := RPartition(requested, '/'), RPartition(actual, '/');
    TagStemUndoesExtract(Partition(wanted.tail, '.'), found.tail);
    var retagged := wanted.head + wanted.separator + found.tail;
    if wanted.separator != found.separator {
      assert |retagged| != |actual|;
    }
  }

  /** The misread family: a rooted twin of a tagged root-level name. */
  lemma RootedNameMisread(name: string, tag: string)
    requires tag != "" && '/' !in tag && '/' !in name
    ensures ExtractMemberTag(name, "/" + TagMemberPath(name, tag)) == Some(tag)
    ensures TagMemberPath(name, tag) != "/" + TagMemberPath(name, tag)
  {
    var base := TagMemberPath(name, tag);
    RootLevel(name, tag);
    Rooted(base);
    assert |"/" + base| > |base| > |name| by { TaggedIsLonger(name, tag); }
    ExtractUndoesTagStem(Partition(name, '.'), tag);
  }

  lemma Rooted(base: string)
    requires '/' !in base
    ensures RPartition("/" + base, '/') == Cut("", "/", base)
  {
    RPartitionOf("/" + base, "", base, '/');
  }

  lemma RootLevel(name: string, tag: string)
    requires '/' !in name && '/' !in tag
    ensures RPartition(name, '/') == Cut("", "", name)
    ensures TagMemberPath(name, tag) == TagBase(name, tag)
    ensures '/' !in TagMemberPath(name, tag)
  {
  }

  lemma SuffixedStem(base: string, suffix: string)
    ensures var stem := Partition(base, '.');
            Partition(base + "." + suffix, '.')
            == Cut(stem.head, ".", if stem.separator != "" then stem.tail + "." + suffix else suffix)
  {
    var stem := Partition(base, '.');
    if stem.separator != "" {
      assert base + "." + suffix == stem.head + ['.'] + (stem.tail + "." + suffix);
      PartitionUnique(stem.head, stem.tail + "." + suffix, '.');
    } else {
      assert base == stem.head;
      PartitionUnique(stem.head, suffix, '.');
    }
  }

  lemma RejoinCut(cut: Cut, suffix: string)
    requires '/' !in cut.tail && '/' !in suffix
    requires cut.separator == "/" || (cut.separator == "" && cut.head == "")
    ensures RPartition(cut.head + cut.separator + (cut.tail + "." + suffix), '/')
            == Cut(cut.head, cut.separator, cut.tail + "." + suffix)
  {
    var base := cut.tail + "." + suffix;
    if cut.separator == "" {
      assert cut.head + cut.separator + base == base;
      var again := RPartition(base, '/');
      assert '/' !in base;
    } else {
      RPartitionUnique(cut.head, base, '/');
    }
  }

  lemma SuffixedCut(path: string, suffix: string)
    requires '/' !in suffix
    ensures var cut := RPartition(path, '/');
            RPartition(path + "." + suffix, '/') == Cut(cut.head, cut.separator, cut.tail + "." + suffix)
  {
    var cut := RPartition(path, '/');
    Regroup(cut.head, cut.separator, cut.tail, suffix);
    RejoinCut(cut, suffix);
  }

  lemma Regroup(head: string, separator: string, tail: string, suffix: string)
    ensures head + separator + tail + "." + suffix == head + separator + (tail + "." + suffix)
  {
  }

  lemma TagStemSuffix(stem: Cut, longer: Cut, tag: string, suffix: string)
    requires longer == Cut(stem.head, ".", if stem.separator != "" then stem.tail + "." + suffix else suffix)
    ensures TagStem(longer, tag) == TagStem(stem, tag) + "." + suffix
  {
  }

  /** Tagging commutes with appending a slash-free dot-suffix such as `.zst`. */
  lemma TagCommutesWithSuffix(path: string, tag: string, suffix: string)
    requires '/' !in suffix
    ensures TagMemberPath(path + "." + suffix, tag) == TagMemberPath(path, tag) + "." + suffix
  {
    var cut := RPartition(path, '/');
    var stem := Partition(cut.tail, '.');
    SuffixedCut(path, suffix);
    SuffixedStem(cut.tail, suffix);
    TagStemSuffix(stem, Partition(cut.tail + "." + suffix, '.'), tag, suffix);
    Regroup(cut.head, cut.separator, TagStem(stem, tag), suffix);
  }

  lemma StemSegments(stem: Cut)
    requires '.' !in stem.head
    requires stem.separator == "." || (stem.separator == "" && stem.tail == "")
    ensures Split(stem.head + stem.separator + stem.tail, '.')
            == [stem.head] + (if stem.separator != "" then Split(stem.tail, '.') else [])
  {
    if stem.separator != "" {
      SplitPeels(stem.head, stem.tail, '.');
    } else {
      SplitWhole(stem.head, '.');
      assert stem.head + stem.separator + stem.tail == stem.head;
    }
  }

  /** What follows the first segment of a tagged stem. */
  function AfterHead(stem: Cut, tag: string): string {
    if stem.separator != "" then tag + "." + stem.tail else tag
  }

  lemma TagStemHead(stem: Cut, tag: string)
    ensures TagStem(stem, tag) == stem.head + ['.'] + AfterHead(stem, tag)
  {
  }

  lemma TaggedStemSegments(stem: Cut, tag: string)
    requires '.' !in stem.head
    ensures Split(TagStem(stem, tag), '.')
            == [stem.head] + Split(tag, '.') + (if stem.separator != "" then Split(stem.tail, '.') else [])
  {
    TagStemHead(stem, tag);
    SplitPeels(stem.head, AfterHead(stem, tag), '.');
    if stem.separator != "" {
      SplitConcat(tag, stem.tail, '.');
    }
  }

  /** The dot segments of a tagged base: the tag's own segments land after the first one. */
  lemma TaggedSegments(base: string, tag: string)
    ensures var segments := Split(base, '.');
            Split(TagBase(base, tag), '.') == [segments[0]] + Split(tag, '.') + segments[1..]
  {
    var stem := Partition(base, '.');
    StemSegments(stem);
    TaggedStemSegments(stem, tag);
  }

  lemma TagBaseInjective(first: string, second: string, tag: string)
    requires TagBase(first, tag) == TagBase(second, tag)
    ensures first == second
  {
    TaggedSegments(first, tag);
    TaggedSegments(second, tag);
    var s, t, middle := Split(first, '.'), Split(second, '.'), Split(tag, '.');
    Sandwich([s[0]], [t[0]], middle, s[1..], t[1..]);
    assert s == [s[0]] + s[1..] && t == [t[0]] + t[1..];
    JoinSplits(first, second, '.');
  }

  lemma Sandwich(a: seq<string>, b: seq<string>, middle: seq<string>, c: seq<string>, d: seq<string>)
    requires |a| == |b|
    requires a + middle + c == b + middle + d
    ensures a == b && c == d
  {
    assert a == (a + middle + c)[..|a|] && b == (b + middle + d)[..|a|];
    assert c == (a + middle + c)[|a| + |middle|..] && d == (b + middle + d)[|a| + |middle|..];
  }

  /** Tagging two paths alike gives one name only when the paths are one. */
  lemma TagInjectiveInPath(first: string, second: string, tag: string)
    requires '/' !in tag
    requires TagMemberPath(first, tag) == TagMemberPath(second, tag)
    ensures first == second
  {
    TaggedCut(first, tag);
    TaggedCut(second, tag);
    TagBaseInjective(BaseName(first), BaseName(second), tag);
  }
}
