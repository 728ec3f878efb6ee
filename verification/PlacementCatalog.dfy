/** The placement tables as mutable catalog state, with the setters that update them. */
module PlacementCatalog {
  import opened Wrappers
  import opened Ordering
  import opened CanonicalJson
  import opened GroupIdentity
  import opened Placement
  import opened PolicyRuns

  function PlaceRows(c: string, places: seq<Place>): set<(string, string)> {
    set i | 0 <= i < |places| :: (c, places[i].pool)
  }

  /** The rows after writing some places of a class: listed pools take their flag, the rest stay. */
  function WithPlaces(rows: map<(string, string), bool>, c: string, places: seq<Place>): map<(string, string), bool> {
    map row | row in rows.Keys + PlaceRows(c, places) ::
      if row in PlaceRows(c, places) then Place(row.1, true) in places else rows[row]
  }

  lemma NextPlace(now: map<(string, string), bool>, rows: map<(string, string), bool>, c: string, places: seq<Place>,
                  place: Place)
    requires now == WithPlaces(rows, c, places)
    requires forall i :: 0 <= i < |places| ==> places[i].pool != place.pool
    ensures now[(c, place.pool) := place.active] == WithPlaces(rows, c, places + [place])
  {
    var more, key := places + [place], (c, place.pool);
    var left, right := now[key := place.active], WithPlaces(rows, c, more);
    PlaceRowsSnoc(c, places, place);
    assert left.Keys == right.Keys;
    forall row | row in left
      ensures left[row] == right[row]
    {
      assert Place(row.1, true) in more <==> Place(row.1, true) in places || Place(row.1, true) == place;
    }
  }

  lemma PlaceRowsSnoc(c: string, places: seq<Place>, place: Place)
    requires forall i :: 0 <= i < |places| ==> places[i].pool != place.pool
    ensures PlaceRows(c, places + [place]) == PlaceRows(c, places) + {(c, place.pool)}
    ensures (c, place.pool) !in PlaceRows(c, places)
    ensures Place(place.pool, true) !in places
  {
    var more := places + [place];
    assert forall i :: 0 <= i < |places| ==> more[i] == places[i];
    assert more[|places|] == place;
    assert forall row :: row in PlaceRows(c, places) ==> row in PlaceRows(c, more);
  }

  /** Writing the listed places and then clearing the unlisted rows of the class is the upsert. */
  lemma UpsertInTwoPasses(e: Estate, c: string, doc: PolicyDoc, after: map<(string, string), bool>)
    requires WellFormed(doc)
    requires after.Keys == WithPlaces(e.memberships, c, doc.places).Keys
    requires forall row :: row in after ==>
      after[row] == if row.0 == c && row.1 !in Listed(doc) then false else WithPlaces(e.memberships, c, doc.places)[row]
    ensures after == Upserted(e, c, doc)
  {
    PlaceRowsAreListed(c, doc);
    assert after.Keys == Upserted(e, c, doc).Keys;
    forall row | row in after
      ensures after[row] == Upserted(e, c, doc)[row]
    {
      if row.0 == c && row.1 in Listed(doc) {
        FlagOf(doc, row.1);
      }
    }
  }

  lemma PlaceRowsAreListed(c: string, doc: PolicyDoc)
    ensures forall row :: row in PlaceRows(c, doc.places) <==> row.0 == c && row.1 in Listed(doc)
    ensures PlaceRows(c, doc.places) == set p | p in Listed(doc) :: (c, p)
    ensures ListedActive(doc) <= Listed(doc)
  {
  }

  lemma FlagOf(doc: PolicyDoc, p: string)
    ensures Place(p, true) in doc.places <==> p in ListedActive(doc)
  {
  }

  /** The write-eligible pools among the first `n` placements of a document. */
  ghost function EligibleBefore(e: Estate, doc: PolicyDoc, n: nat): set<string>
    requires n <= |doc.places|
  {
    set i | 0 <= i < n && Placed(e, doc.places[i]) :: doc.places[i].pool
  }

  predicate Placed(e: Estate, place: Place) {
    place.active && place.pool in e.pools && e.pools[place.pool].acceptsWrites
  }

  lemma NextEligible(e: Estate, doc: PolicyDoc, n: nat)
    requires WellFormed(doc) && n < |doc.places|
    ensures var place := doc.places[n];
            && place.pool !in EligibleBefore(e, doc, n)
            && EligibleBefore(e, doc, n + 1)
               == if Placed(e, place) then EligibleBefore(e, doc, n) + {place.pool} else EligibleBefore(e, doc, n)
  {
  }

  lemma AllEligible(e: Estate, doc: PolicyDoc)
    ensures EligibleBefore(e, doc, |doc.places|) == DocEligible(e, doc)
  {
  }

  /** One more pool adds the family of its backend, if that has a name. */
  lemma NextFamily(e: Estate, seen: set<string>, p: string, family: string)
    requires p in e.pools && family == FamilyOf(e.pools[p].kind)
    ensures NamedFamilies(e, seen + {p}) == if family != "" then NamedFamilies(e, seen) + {family} else NamedFamilies(e, seen)
  {
  }

  class Tables {
    const sha: TextHash
    var pools: map<string, Pool>
    var memberships: map<(string, string), bool>
    var records: map<string, Record>

    constructor (sha: TextHash, e: Estate)
      ensures this.sha == sha && View() == e
    {
      this.sha := sha;
      pools, memberships, records := e.pools, e.memberships, e.records;
    }

    function View(): Estate
      reads this
    {
      Estate(pools, memberships, records)
    }

    /** List the rows a class's basis is computed from, in whatever order the catalog yields them. */
    method ListActiveRows(c: string) returns (listing: seq<Entry>)
      ensures Lists(listing, ActiveRows(View(), c))
    {
      listing := [];
      var rest := set p | p in pools && IsActive(View(), c, p);
      ghost var all := rest;
      while rest != {}
        invariant rest <= all
        invariant forall x :: x in listing <==> x.pool in all - rest && x == Entry(x.pool, pools[x.pool].representation)
        invariant DistinctKeys(listing, PoolOf)
        decreases rest
      {
        var p :| p in rest;
        var row := Entry(p, pools[p].representation);
        assert forall i :: 0 <= i < |listing| ==> listing[i] in listing;
        listing := listing + [row];
        rest := rest - {p};
      }
    }

    /** `refresh_bundle_group_projections`. */
    method RefreshProjections(classes: set<string>)
      modifies this`records
      ensures View() == Refresh(sha, old(View()), classes)
    {
      ghost var before := View();
      var rest := classes;
      while rest != {}
        invariant rest <= classes && View() == Refresh(sha, before, classes - rest)
        decreases rest
      {
        var c :| c in rest;
        if c in records {
          var listing := ListActiveRows(c);
          ActiveRowsOnePerPool(View(), c);
          RefreshKeepsRows(sha, before, classes - rest, c);
          var fingerprint, _ := ComputeBundleGroup(sha, listing, ActiveRows(View(), c));
          records := records[c := records[c].(group := Some(fingerprint))];
        }
        rest := rest - {c};
        assert View().records == Refresh(sha, before, classes - rest).records;
      }
      assert classes - {} == classes;
    }

    /** `set_pool_representation`. */
    method SetPoolRepresentation(p: string, representation: string) returns (r: Result<(), PlacementError>)
      modifies this`pools, this`records
      ensures var spec := SetRepresentation(sha, old(View()), p, representation);
              match spec
              case Ok(after) => r == Ok(()) && View() == after
              case Err(error) => r == Err(error) && View() == old(View())
    {
      if p !in pools { return Err(UnknownPool); }
      if pools[p].representation == Some(representation) { return Ok(()); }
      if pools[p].used { return Err(RepresentationImmutable); }
      pools := pools[p := pools[p].(representation := Some(representation))];
      RefreshProjections(MemberClasses(View(), p));
      return Ok(());
    }

    /** `_write_fence_floor_violations`: every class the fence would leave below its floor. */
    method WriteFenceFloorViolations(p: string) returns (violations: seq<string>)
      ensures forall c :: c in violations <==> c in FenceViolations(View(), p)
    {
      violations := [];
      var rest := set row | row in memberships && row.1 == p && memberships[row] :: row.0;
      ghost var all := rest;
      while rest != {}
        invariant rest <= all
        invariant forall c :: c in violations <==> c in all - rest && c in records && FenceViolates(View(), p, c)
        decreases rest
      {
        var c :| c in rest;
        if c in records {
          var left := Eligible(View(), c) - {p};
          if !(|left| >= records[c].minCopies && |Families(View(), left)| >= records[c].minFamilies) {
            violations := violations + [c];
          }
        }
        rest := rest - {c};
      }
      assert forall c :: IsActive(View(), c, p) ==> (c, p).0 in all;
    }

    /** `set_pool_write_fence`. */
    method SetPoolWriteFence(p: string, accepts: bool, force: bool) returns (r: Result<(), PlacementError>)
      modifies this`pools
      ensures match SetWriteFence(old(View()), p, accepts, force)
              case Ok(after) => r == Ok(()) && View() == after
              case Err(error) => r == Err(error) && View() == old(View())
    {
      if p !in pools { return Err(UnknownPool); }
      if pools[p].acceptsWrites == accepts { return Ok(()); }
      if !accepts {
        var violations := WriteFenceFloorViolations(p);
        assert violations == [] <==> FenceViolations(View(), p) == {} by {
          if violations != [] { assert violations[0] in violations; }
        }
        if violations != [] && !force { return Err(WouldBreakDurability); }
      }
      pools := pools[p := pools[p].(acceptsWrites := accepts)];
      return Ok(());
    }

    /** `_validate_write_eligible_floor`: count the document's write-eligible placements. */
    method WriteEligible(doc: PolicyDoc) returns (count: nat, families: set<string>)
      requires WellFormed(doc) && Listed(doc) <= pools.Keys
      ensures count == |DocEligible(View(), doc)|
      ensures families == NamedFamilies(View(), DocEligible(View(), doc))
    {
      count, families := 0, {};
      for i := 0 to |doc.places|
        invariant count == |EligibleBefore(View(), doc, i)| && families == NamedFamilies(View(), EligibleBefore(View(), doc, i))
      {
        var place := doc.places[i];
        NextEligible(View(), doc, i);
        assert place.pool in Listed(doc);
        if place.active && pools[place.pool].acceptsWrites {
          count := count + 1;
          var family := FamilyOf(pools[place.pool].kind);
          NextFamily(View(), EligibleBefore(View(), doc, i), place.pool, family);
          if family != "" {
            families := families + {family};
          }
        }
      }
      AllEligible(View(), doc);
    }

    /** The membership upsert of `apply_artifactclass_policy`. */
    method UpsertMemberships(c: string, doc: PolicyDoc)
      requires WellFormed(doc)
      modifies this`memberships
      ensures memberships == Upserted(old(View()), c, doc)
    {
      var existing := set row | row in memberships && row.0 == c;
      ghost var before := View();
      WritePlaces(c, doc);
      PlaceRowsAreListed(c, doc);
      ClearUnlisted(existing, Listed(doc));
      UpsertInTwoPasses(before, c, doc, memberships);
    }

    /** Clear the existing rows the document does not list. */
    method ClearUnlisted(existing: set<(string, string)>, listed: set<string>)
      requires existing <= memberships.Keys
      modifies this`memberships
      ensures memberships.Keys == old(memberships).Keys
      ensures forall row :: row in memberships ==>
                memberships[row] == if row in existing && row.1 !in listed then false else old(memberships)[row]
    {
      var rest := existing;
      while rest != {}
        invariant rest <= existing && memberships.Keys == old(memberships).Keys
        invariant forall row :: row in memberships ==>
                    memberships[row] == if row in existing - rest && row.1 !in listed then false else old(memberships)[row]
        decreases rest
      {
        var row :| row in rest;
        if row.1 !in listed {
          memberships := memberships[row := false];
        }
        rest := rest - {row};
      }
    }

    /** Write the document's rows in document order. */
    method WritePlaces(c: string, doc: PolicyDoc)
      requires WellFormed(doc)
      modifies this`memberships
      ensures memberships == WithPlaces(old(memberships), c, doc.places)
    {
      assert doc.places[..0] == [];
      for i := 0 to |doc.places|
        invariant memberships == WithPlaces(old(memberships), c, doc.places[..i])
      {
        NextPlace(memberships, old(memberships), c, doc.places[..i], doc.places[i]);
        assert doc.places[..i + 1] == doc.places[..i] + [doc.places[i]];
        memberships := memberships[(c, doc.places[i].pool) := doc.places[i].active];
      }
      assert doc.places[..|doc.places|] == doc.places;
    }

    /** `apply_artifactclass_policy`. */
    method ApplyArtifactclassPolicy(c: string, doc: PolicyDoc) returns (r: Result<(), PlacementError>)
      requires WellFormed(doc)
      modifies this`memberships, this`records
      ensures match ApplyPolicy(sha, old(View()), c, doc)
              case Ok(after) => r == Ok(()) && View() == after
              case Err(error) => r == Err(error) && View() == old(View())
      ensures r.Ok? <==> CanApply(old(View()), doc)
      ensures r.Ok? ==> Governs(View(), c, doc) && OthersKept(old(View()), View(), c)
    {
      ghost var before := View();
      r := ApplyRows(c, doc);
      ApplySucceedsExactly(sha, before, c, doc);
      AppliedGoverns(sha, before, c, doc);
    }

    /** The guards, the upsert, the record and the refresh. */
    method ApplyRows(c: string, doc: PolicyDoc) returns (r: Result<(), PlacementError>)
      requires WellFormed(doc)
      modifies this`memberships, this`records
      ensures match ApplyPolicy(sha, old(View()), c, doc)
              case Ok(after) => r == Ok(()) && View() == after
              case Err(error) => r == Err(error) && View() == old(View())
    {
      if !(Listed(doc) <= pools.Keys) { return Err(UnknownPool); }
      if exists p :: p in doc.preference && p !in pools { return Err(UnknownPreference); }
      var count, families := WriteEligible(doc);
      if count < doc.minCopies || |families| < doc.minFamilies { return Err(BelowFloor); }
      UpsertMemberships(c, doc);
      var previous := if c in records then records[c].group else None;
      records := records[c := Record(doc.targetBytes, doc.maxAge, doc.minCopies, doc.minFamilies, previous)];
      RefreshProjections({c});
      return Ok(());
    }
  }
}
