/** Building and validating every target of a flush, then writing them. */
module Fanout {
  import opened Wrappers
  import opened Numerals

  /** What the flush hands the builder for one member row. */
  datatype Input = Input(path: string, logical: Digest, digest: Digest, size: nat, lineage: Option<nat>)

  /** What a built artifact says it carries. */
  datatype Built = Built(path: string, logical: Digest, digest: Digest, size: nat, lineage: Option<string>)

  /** One entry of a builder's manifest, as parsed: absent fields did not read. */
  datatype ManifestItem =
    | Malformed
    | Reported(path: Option<string>, size: Option<int>, digest: Option<Bytes>, lbaValid: bool, lineage: Option<string>)

  // ----- Distinctness -----

  predicate NoDup(paths: seq<string>) {
    forall i, j :: 0 <= i < j < |paths| ==> paths[i] != paths[j]
  }

  function Elements(paths: seq<string>): set<string> { set p | p in paths }

  /** A sequence has as many elements as positions exactly when it repeats none. */
  lemma {:induction false} ElementsCount(paths: seq<string>)
    ensures |Elements(paths)| <= |paths|
    ensures |Elements(paths)| == |paths| <==> NoDup(paths)
    decreases |paths|
  {
    if paths != [] {
      var n := |paths| - 1;
      var front, last := paths[..n], paths[n];
      ElementsCount(front);
      assert Elements(paths) == Elements(front) + {last};
      assert NoDup(paths) <==> NoDup(front) && last !in front;
    }
  }

  function InputPaths(inputs: seq<Input>): (paths: seq<string>)
    ensures |paths| == |inputs| && forall i :: 0 <= i < |inputs| ==> paths[i] == inputs[i].path
  {
    seq(|inputs|, i requires 0 <= i < |inputs| => inputs[i].path)
  }

  function BuiltPaths(built: seq<Built>): (paths: seq<string>)
    ensures |paths| == |built| && forall i :: 0 <= i < |built| ==> paths[i] == built[i].path
  {
    seq(|built|, i requires 0 <= i < |built| => built[i].path)
  }

  /** The last input with a path, as a dictionary keyed by path would hold it. */
  function Lookup(inputs: seq<Input>, path: string): (at: Option<nat>)
    ensures at.Some? ==> at.value < |inputs| && inputs[at.value].path == path
    ensures at.None? <==> path !in InputPaths(inputs)
  {
    if inputs == [] then None
    else if inputs[|inputs| - 1].path == path then Some(|inputs| - 1)
    else
      var front := inputs[..|inputs| - 1];
      assert InputPaths(inputs) == InputPaths(front) + [inputs[|inputs| - 1].path];
      Lookup(front, path)
  }

  // ----- The two checks -----

  /** The built member agrees with the input on content, size and, when both report it, lineage. */
  predicate Agrees(b: Built, m: Input) {
    && b.path == m.path && b.logical == m.logical && b.digest == m.digest && b.size == m.size
    && (m.lineage.Some? && b.lineage.Some? ==> b.lineage.value == Decimal(m.lineage.value))
  }

  predicate Known(b: Built, inputs: seq<Input>) {
    var at := Lookup(inputs, b.path);
    at.Some? && Agrees(b, inputs[at.value])
  }

  /** What `validate_built_members` accepts: every built member agrees with its input, and every
      input path is among the built ones. */
  predicate ValidBuilt(built: seq<Built>, inputs: seq<Input>) {
    && (forall j :: 0 <= j < |built| ==> Known(built[j], inputs))
    && (forall i :: 0 <= i < |inputs| ==> inputs[i].path in BuiltPaths(built))
  }

  method ValidateBuiltMembers(built: seq<Built>, inputs: seq<Input>) returns (ok: bool)
    ensures ok <==> ValidBuilt(built, inputs)
  {
    var seen: set<string> := {};
    for j := 0 to |built|
      invariant forall k :: 0 <= k < j ==> Known(built[k], inputs)
      invariant seen == Elements(BuiltPaths(built[..j]))
    {
      var at := Lookup(inputs, built[j].path);
      if at.None? { return false; }
      assert BuiltPaths(built[..j + 1]) == BuiltPaths(built[..j]) + [built[j].path];
      seen := seen + {built[j].path};
      if !Agrees(built[j], inputs[at.value]) { return false; }
    }
    assert built[..|built|] == built;
    for i := 0 to |inputs|
      invariant forall k :: 0 <= k < i ==> inputs[k].path in seen
    {
      if inputs[i].path !in seen { return false; }
    }
    return true;
  }

  /** Exactly one built member has the input's path, and it carries the input's content. */
  ghost predicate CarriedOnce(built: seq<Built>, m: Input) {
    exists j :: 0 <= j < |built| && Agrees(built[j], m) && forall k :: 0 <= k < |built| && built[k].path == m.path ==> k == j
  }

  ghost predicate ExactlyOnce(built: seq<Built>, inputs: seq<Input>) {
    |built| == |inputs| && forall i :: 0 <= i < |inputs| ==> CarriedOnce(built, inputs[i])
  }

  lemma ValidCarries(built: seq<Built>, inputs: seq<Input>, i: nat)
    requires ValidBuilt(built, inputs) && NoDup(InputPaths(inputs)) && NoDup(BuiltPaths(built)) && i < |inputs|
    ensures CarriedOnce(built, inputs[i])
  {
  }

  lemma PathsAgree(built: seq<Built>, inputs: seq<Input>)
    requires ValidBuilt(built, inputs)
    ensures Elements(BuiltPaths(built)) == Elements(InputPaths(inputs))
  {
  }

  /** The validation alone lets a repeated member through: over distinct inputs an accepted artifact
      carries each member exactly once if and only if it has as many members as the flush asked for. */
  lemma ValidCarriesOnceExactly(built: seq<Built>, inputs: seq<Input>)
    requires ValidBuilt(built, inputs) && NoDup(InputPaths(inputs))
    ensures ExactlyOnce(built, inputs) <==> |built| == |inputs|
  {
    PathsAgree(built, inputs);
    ElementsCount(BuiltPaths(built));
    ElementsCount(InputPaths(inputs));
    if |built| == |inputs| {
      forall i | 0 <= i < |inputs| ensures CarriedOnce(built, inputs[i]) { ValidCarries(built, inputs, i); }
    }
  }

  /** A repeated built member is accepted. */
  lemma RepeatedMemberAccepted(built: seq<Built>, inputs: seq<Input>)
    requires ValidBuilt(built, inputs) && built != []
    ensures ValidBuilt(built + [built[0]], inputs)
  {
    assert BuiltPaths(built + [built[0]]) == BuiltPaths(built) + [built[0].path];
  }

  // ----- Builders -----

  /** The inputs as their own built members: what the d2 tar builder reports. */
  function FromInputs(inputs: seq<Input>): (built: seq<Built>)
    ensures |built| == |inputs|
    ensures forall i :: 0 <= i < |inputs| ==> built[i] == FromInput(inputs[i], LineageText(inputs[i].lineage))
  {
    seq(|inputs|, i requires 0 <= i < |inputs| => FromInput(inputs[i], LineageText(inputs[i].lineage)))
  }

  function LineageText(lineage: Option<nat>): Option<string> {
    if lineage.None? then None else Some(Decimal(lineage.value))
  }

  function FromInput(m: Input, lineage: Option<string>): Built { Built(m.path, m.logical, m.digest, m.size, lineage) }

  /** One manifest item that names a known input and repeats its size and digest. */
  predicate ItemSound(item: ManifestItem, inputs: seq<Input>) {
    && item.Reported? && item.path.Some? && item.path.value != "" && item.lbaValid
    && var at := Lookup(inputs, item.path.value);
       at.Some? && item.size == Some(inputs[at.value].size) && item.digest == Some(inputs[at.value].digest)
  }

  function ItemPath(item: ManifestItem): string { if item.Reported? && item.path.Some? then item.path.value else "" }

  function ItemPaths(items: seq<ManifestItem>): (paths: seq<string>)
    ensures |paths| == |items| && forall i :: 0 <= i < |items| ==> paths[i] == ItemPath(items[i])
  {
    seq(|items|, i requires 0 <= i < |items| => ItemPath(items[i]))
  }

  /** What `_members_from_manifest` accepts: distinct inputs, and a manifest that names each of them
      exactly once with its own size and digest. */
  predicate ManifestSound(items: seq<ManifestItem>, inputs: seq<Input>) {
    && NoDup(InputPaths(inputs)) && items != [] && NoDup(ItemPaths(items))
    && (forall k :: 0 <= k < |items| ==> ItemSound(items[k], inputs))
    && (forall i :: 0 <= i < |inputs| ==> inputs[i].path in ItemPaths(items))
  }

  /** `built` is the manifest joined to the inputs' own identity facts. */
  ghost predicate Joined(items: seq<ManifestItem>, inputs: seq<Input>, built: seq<Built>) {
    |built| == |items| && forall k :: 0 <= k < |items| ==> JoinedItem(items[k], inputs, built[k])
  }

  ghost predicate JoinedItem(item: ManifestItem, inputs: seq<Input>, b: Built) {
    && item.Reported? && Lookup(inputs, ItemPath(item)).Some?
    && b == FromInput(inputs[Lookup(inputs, ItemPath(item)).value], item.lineage)
  }

  /** Check one item against the input it names, and join it. */
  method JoinItem(item: ManifestItem, inputs: seq<Input>, at: nat) returns (b: Option<Built>)
    requires item.Reported? && item.path.Some? && item.path.value != "" && Lookup(inputs, item.path.value) == Some(at)
    ensures b.Some? <==> ItemSound(item, inputs)
    ensures b.Some? ==> JoinedItem(item, inputs, b.value)
  {
    if item.size != Some(inputs[at].size) || item.digest != Some(inputs[at].digest) || !item.lbaValid { return None; }
    return Some(FromInput(inputs[at], item.lineage));
  }

  /** The join loop: it stops at the first item that is malformed, unknown, repeated or disagrees. */
  method JoinItems(items: seq<ManifestItem>, inputs: seq<Input>) returns (built: Option<seq<Built>>, seen: set<string>)
    ensures built.Some? <==> NoDup(ItemPaths(items)) && forall k :: 0 <= k < |items| ==> ItemSound(items[k], inputs)
    ensures built.Some? ==> Joined(items, inputs, built.value) && seen == Elements(ItemPaths(items))
  {
    var joined: seq<Built> := [];
    seen := {};
    for k := 0 to |items|
      invariant |joined| == k && forall i :: 0 <= i < k ==> ItemSound(items[i], inputs) && JoinedItem(items[i], inputs, joined[i])
      invariant seen == Elements(ItemPaths(items[..k])) && NoDup(ItemPaths(items[..k]))
    {
      if items[k].Malformed? || items[k].path.None? || items[k].path.value == "" { return None, seen; }
      var path := items[k].path.value;
      var at := Lookup(inputs, path);
      if at.None? { return None, seen; }
      if path in seen { RepeatedPath(items, k); return None, seen; }
      NextPath(items, k, path);
      seen := seen + {path};
      var one := JoinItem(items[k], inputs, at.value);
      if one.None? { return None, seen; }
      joined := joined + [one.value];
    }
    assert items[..|items|] == items;
    return Some(joined), seen;
  }

  method MembersFromManifest(items: seq<ManifestItem>, inputs: seq<Input>) returns (r: Option<seq<Built>>)
    ensures r.Some? <==> ManifestSound(items, inputs)
    ensures r.Some? ==> Joined(items, inputs, r.value)
  {
    ElementsCount(InputPaths(inputs));
    if |Elements(InputPaths(inputs))| != |inputs| || items == [] { return None; }
    var built, seen := JoinItems(items, inputs);
    if built.None? { return None; }
    for i := 0 to |inputs|
      invariant forall k :: 0 <= k < i ==> inputs[k].path in seen
    {
      if inputs[i].path !in seen { return None; }
    }
    return built;
  }

  lemma NextPath(items: seq<ManifestItem>, k: nat, path: string)
    requires k < |items| && ItemPath(items[k]) == path && path !in ItemPaths(items[..k]) && NoDup(ItemPaths(items[..k]))
    ensures Elements(ItemPaths(items[..k + 1])) == Elements(ItemPaths(items[..k])) + {path} && NoDup(ItemPaths(items[..k + 1]))
  {
    assert ItemPaths(items[..k + 1]) == ItemPaths(items[..k]) + [path];
  }

  lemma RepeatedPath(items: seq<ManifestItem>, k: nat)
    requires k < |items| && ItemPath(items[k]) in ItemPaths(items[..k])
    ensures !NoDup(ItemPaths(items))
  {
  }

  lemma JoinedPaths(items: seq<ManifestItem>, inputs: seq<Input>, built: seq<Built>)
    requires Joined(items, inputs, built)
    ensures BuiltPaths(built) == ItemPaths(items)
  {
  }

  /** An accepted manifest names each input exactly once, so a valid join carries each exactly once. */
  lemma ManifestCarriesOnce(items: seq<ManifestItem>, inputs: seq<Input>, built: seq<Built>)
    requires ManifestSound(items, inputs) && Joined(items, inputs, built) && ValidBuilt(built, inputs)
    ensures ExactlyOnce(built, inputs)
  {
    JoinedPaths(items, inputs, built);
    PathsAgree(built, inputs);
    ElementsCount(BuiltPaths(built));
    ElementsCount(InputPaths(inputs));
    ValidCarriesOnceExactly(built, inputs);
  }

  /** The item reports the input: its path, size and digest, and its lineage or none. */
  predicate Describes(item: ManifestItem, m: Input) {
    && item.Reported? && item.path == Some(m.path) && item.size == Some(m.size) && item.digest == Some(m.digest) && item.lbaValid
    && (item.lineage.Some? && m.lineage.Some? ==> item.lineage == Some(Decimal(m.lineage.value)))
  }

  /** An honest manifest reports each input once, in some order, and nothing else. */
  ghost predicate Honest(items: seq<ManifestItem>, inputs: seq<Input>) {
    && NoDup(ItemPaths(items)) && (forall i :: 0 <= i < |inputs| ==> inputs[i].path in ItemPaths(items))
    && forall k :: 0 <= k < |items| ==> exists i :: 0 <= i < |inputs| && Describes(items[k], inputs[i])
  }

  /** Over distinct inputs the lookup of a path is the input that has it. */
  lemma LookupFinds(inputs: seq<Input>, i: nat, at: Option<nat>)
    requires NoDup(InputPaths(inputs)) && i < |inputs|
    requires at.Some? ==> at.value < |inputs| && inputs[at.value].path == inputs[i].path
    requires at.None? ==> inputs[i].path !in InputPaths(inputs)
    ensures at == Some(i)
  {
    var paths := InputPaths(inputs);
    assert paths[i] in paths;
    assert paths[at.value] == paths[i];
  }

  lemma HonestItem(item: ManifestItem, inputs: seq<Input>, i: nat)
    requires i < |inputs| && Describes(item, inputs[i]) && inputs[i].path != "" && Lookup(inputs, inputs[i].path) == Some(i)
    ensures ItemSound(item, inputs) && Lookup(inputs, ItemPath(item)) == Some(i) && Known(FromInput(inputs[i], item.lineage), inputs)
  {
  }

  /** An honest manifest of distinct, named inputs joins and validates. */
  lemma HonestManifestJoins(items: seq<ManifestItem>, inputs: seq<Input>) returns (built: seq<Built>)
    requires inputs != [] && NoDup(InputPaths(inputs)) && (forall i :: 0 <= i < |inputs| ==> inputs[i].path != "")
    requires Honest(items, inputs)
    ensures ManifestSound(items, inputs) && Joined(items, inputs, built) && ValidBuilt(built, inputs)
  {
    assert inputs[0].path in ItemPaths(items);
    forall k | 0 <= k < |items|
      ensures ItemSound(items[k], inputs) && Known(FromInput(inputs[Lookup(inputs, ItemPath(items[k])).value], items[k].lineage), inputs)
    {
      var i :| 0 <= i < |inputs| && Describes(items[k], inputs[i]);
      LookupFinds(inputs, i, Lookup(inputs, inputs[i].path));
      HonestItem(items[k], inputs, i);
    }
    built := seq(|items|, k requires 0 <= k < |items| => FromInput(inputs[Lookup(inputs, ItemPath(items[k])).value], items[k].lineage));
    assert Joined(items, inputs, built);
    JoinedPaths(items, inputs, built);
  }

  /** The tar builder's report passes validation and carries each member once. */
  lemma TarCarriesOnce(inputs: seq<Input>)
    requires NoDup(InputPaths(inputs))
    ensures ValidBuilt(FromInputs(inputs), inputs) && ExactlyOnce(FromInputs(inputs), inputs)
    ensures forall i :: 0 <= i < |inputs| && inputs[i].lineage.Some? ==> FromInputs(inputs)[i].lineage == Some(Decimal(inputs[i].lineage.value))
  {
    var built := FromInputs(inputs);
    assert BuiltPaths(built) == InputPaths(inputs);
    forall i | 0 <= i < |inputs|
      ensures Known(built[i], inputs)
    {
      var at := Lookup(inputs, built[i].path);
      assert InputPaths(inputs)[i] in InputPaths(inputs);
      assert InputPaths(inputs)[at.value] == InputPaths(inputs)[i];
    }
    forall i | 0 <= i < |inputs|
      ensures inputs[i].path in BuiltPaths(built)
    {
      assert BuiltPaths(built)[i] == inputs[i].path;
    }
    ValidCarriesOnceExactly(built, inputs);
  }
}
