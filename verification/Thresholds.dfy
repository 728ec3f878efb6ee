/** The flush thresholds a bundle group freezes when it opens an accumulator. */
module Thresholds {
  import opened Wrappers
  import opened CanonicalJson
  import opened GroupIdentity
  import opened Placement

  datatype ThresholdError = EmptyGroup | ZeroThresholds

  /** Classes whose stored group is this fingerprint, with the opener added by construction. */
  function Declared(e: Estate, fingerprint: string, opener: string): set<string> {
    (set c | c in e.records && e.records[c].group == Some(fingerprint)) + {opener}
  }

  predicate HasFloor(e: Estate, p: string, floor: int) {
    p in e.pools && e.pools[p].floor.Some? && e.pools[p].floor.value == floor
  }

  predicate Declares(e: Estate, c: string, target: int) {
    c in e.records && e.records[c].targetBytes == target
  }

  /** `target` is the largest class target clamped up by the strictest pool floor; `maxAge` is the
      smallest class ceiling. */
  ghost predicate IsEffective(e: Estate, classes: set<string>, pools: set<string>, target: int, maxAge: int) {
    && (forall c :: c in classes && c in e.records ==> e.records[c].targetBytes <= target && maxAge <= e.records[c].maxAge)
    && (forall p, floor :: p in pools && HasFloor(e, p, floor) ==> floor <= target)
    && ((exists c :: c in classes && Declares(e, c, target)) || (exists p :: p in pools && HasFloor(e, p, target)))
    && (exists c :: c in classes && c in e.records && e.records[c].maxAge == maxAge)
  }

  lemma EffectiveUnique(e: Estate, classes: set<string>, pools: set<string>, t: int, a: int, t': int, a': int)
    requires IsEffective(e, classes, pools, t, a) && IsEffective(e, classes, pools, t', a')
    ensures t == t' && a == a'
  {
  }

  function PoolsOf(rows: set<Entry>): set<string> {
    set row | row in rows :: row.pool
  }

  /** What the group of class `opener` freezes, in an estate. */
  ghost predicate OpensWith(sha: TextHash, e: Estate, opener: string, target: int, maxAge: int) {
    IsEffective(e, Declared(e, Derived(sha, e, opener), opener), PoolsOf(ActiveRows(e, opener)), target, maxAge)
  }

  /** In an estate with an exact projection, the thresholds do not depend on which member class of
      the group opens the accumulator. */
  lemma OpenerDoesNotMatter(sha: TextHash, e: Estate, a: string, b: string, target: int, maxAge: int)
    requires ProjectionExact(sha, e) && a in e.records && b in e.records
    requires Derived(sha, e, a) == Derived(sha, e, b)
    requires sha(BasisJson(Basis(ActiveRows(e, a)))) == sha(BasisJson(Basis(ActiveRows(e, b))))
             ==> BasisJson(Basis(ActiveRows(e, a))) == BasisJson(Basis(ActiveRows(e, b)))
    ensures OpensWith(sha, e, a, target, maxAge) <==> OpensWith(sha, e, b, target, maxAge)
  {
    ActiveRowsOnePerPool(e, a);
    ActiveRowsOnePerPool(e, b);
    FingerprintIdentifiesRows(sha, ActiveRows(e, a), ActiveRows(e, b));
    assert Declared(e, Derived(sha, e, a), a) == Declared(e, Derived(sha, e, b), b);
  }

  /** The largest target and smallest ceiling over the declared classes. */
  method DeclaredThresholds(e: Estate, classes: set<string>) returns (target: int, maxAge: int)
    requires classes != {} && classes <= e.records.Keys
    ensures forall c :: c in classes ==> e.records[c].targetBytes <= target && maxAge <= e.records[c].maxAge
    ensures exists c :: c in classes && Declares(e, c, target)
    ensures exists c :: c in classes && e.records[c].maxAge == maxAge
  {
    var first :| first in classes;
    target, maxAge := e.records[first].targetBytes, e.records[first].maxAge;
    ghost var widest, shortest := first, first;
    var rest := classes - {first};
    while rest != {}
      invariant rest <= classes && widest in classes && shortest in classes
      invariant forall c :: c in classes - rest ==> e.records[c].targetBytes <= target && maxAge <= e.records[c].maxAge
      invariant Declares(e, widest, target) && e.records[shortest].maxAge == maxAge
      decreases rest
    {
      var c :| c in rest;
      if e.records[c].targetBytes > target { target := e.records[c].targetBytes; widest := c; }
      if e.records[c].maxAge < maxAge { maxAge := e.records[c].maxAge; shortest := c; }
      rest := rest - {c};
    }
  }

  /** `group_thresholds`: the declared thresholds, the target clamped up by the pool floors. */
  method GroupThresholds(e: Estate, opener: string, fingerprint: string, pools: set<string>)
    returns (target: int, maxAge: int)
    requires opener in e.records && pools <= e.pools.Keys
    ensures IsEffective(e, Declared(e, fingerprint, opener), pools, target, maxAge)
  {
    var classes := Declared(e, fingerprint, opener);
    assert opener in classes;
    var declared: int;
    declared, maxAge := DeclaredThresholds(e, classes);
    target := declared;
    ghost var clamp := "";
    var rest := pools;
    while rest != {}
      invariant rest <= pools && declared <= target
      invariant forall p, floor :: p in pools - rest && HasFloor(e, p, floor) ==> floor <= target
      invariant target == declared || (clamp in pools && HasFloor(e, clamp, target))
      decreases rest
    {
      var p :| p in rest;
      match e.pools[p].floor {
        case None =>
        case Some(floor) => if floor > target { target := floor; clamp := p; }
      }
      rest := rest - {p};
    }
  }

  /** `effective_group_thresholds`: an empty basis is an error, and zero thresholds are never written. */
  method EffectiveGroupThresholds(e: Estate, opener: string, fingerprint: string, pools: set<string>)
    returns (r: Result<(int, int), ThresholdError>)
    requires opener in e.records && pools <= e.pools.Keys
    ensures r.Ok? ==> pools != {} && r.value.0 > 0 && r.value.1 > 0
                      && IsEffective(e, Declared(e, fingerprint, opener), pools, r.value.0, r.value.1)
    ensures r == Err(EmptyGroup) <==> pools == {}
    ensures r == Err(ZeroThresholds) ==>
      exists t, a :: IsEffective(e, Declared(e, fingerprint, opener), pools, t, a) && (t <= 0 || a <= 0)
  {
    if pools == {} { return Err(EmptyGroup); }
    var target, maxAge := GroupThresholds(e, opener, fingerprint, pools);
    if target <= 0 || maxAge <= 0 { return Err(ZeroThresholds); }
    return Ok((target, maxAge));
  }
}
