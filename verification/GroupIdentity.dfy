/** Bundle-group identity: the fingerprint of a class's active `(pool, representation)` set. */
module GroupIdentity {
  import opened Ordering
  import opened CanonicalJson
  import opened Wrappers

  /** SHA-256 of a text, in hexadecimal; nothing is assumed of it. */
  type TextHash = string -> string

  function PoolOf(entry: Entry): string { entry.pool }

  /** A class has at most one membership row per pool. */
  ghost predicate OneRowPerPool(rows: set<Entry>) {
    forall a, b :: a in rows && b in rows && a.pool == b.pool ==> a == b
  }

  /** `listing` enumerates `rows` without repetition, in some order. */
  ghost predicate Lists(listing: seq<Entry>, rows: set<Entry>) {
    DistinctKeys(listing, PoolOf) && forall x :: x in listing <==> x in rows
  }

  /** Some listing of a finite row set. */
  ghost function Listing(rows: set<Entry>): seq<Entry> {
    if rows == {} then [] else var row :| row in rows; [row] + Listing(rows - {row})
  }

  lemma ListsOneMore(row: Entry, listing: seq<Entry>, rest: set<Entry>)
    requires Lists(listing, rest) && row !in rest && OneRowPerPool(rest + {row})
    ensures Lists([row] + listing, rest + {row})
  {
  }

  lemma {:induction false} ListingLists(rows: set<Entry>)
    requires OneRowPerPool(rows)
    ensures Lists(Listing(rows), rows)
    decreases |rows|
  {
    if rows != {} {
      var row := Listing(rows)[0];
      var rest := rows - {row};
      ListingLists(rest);
      assert rows == rest + {row};
      ListsOneMore(row, Listing(rest), rest);
    }
  }

  /** The canonical basis of a row set: its rows by pool id. */
  ghost function Basis(rows: set<Entry>): seq<Entry> {
    SortBy(Listing(rows), PoolOf)
  }

  ghost function Fingerprint(sha: TextHash, rows: set<Entry>): string {
    sha(BasisJson(Basis(rows)))
  }

  /** However the catalog lists a class's rows, the sorted basis is the canonical one. */
  lemma BasisIgnoresRowOrder(listing: seq<Entry>, rows: set<Entry>)
    requires OneRowPerPool(rows) && Lists(listing, rows)
    ensures SortBy(listing, PoolOf) == Basis(rows)
  {
    ListingLists(rows);
    SortIgnoresOrder(listing, Listing(rows), PoolOf);
  }

  /** The rows of a basis are the rows of its set. */
  lemma BasisElements(rows: set<Entry>)
    requires OneRowPerPool(rows)
    ensures forall x :: x in Basis(rows) <==> x in rows
  {
    ListingLists(rows);
    SortByCorrect(Listing(rows), PoolOf);
    MultisetElements(Listing(rows), Basis(rows));
  }

  /** Two row sets have equal fingerprints exactly when they are equal, unless the hash collides
      on their two canonical texts. */
  lemma FingerprintIdentifiesRows(sha: TextHash, first: set<Entry>, second: set<Entry>)
    requires OneRowPerPool(first) && OneRowPerPool(second)
    requires sha(BasisJson(Basis(first))) == sha(BasisJson(Basis(second)))
             ==> BasisJson(Basis(first)) == BasisJson(Basis(second))
    ensures Fingerprint(sha, first) == Fingerprint(sha, second) <==> first == second
  {
    if Fingerprint(sha, first) == Fingerprint(sha, second) {
      BasisRoundTrip(Basis(first));
      BasisRoundTrip(Basis(second));
      BasisElements(first);
      BasisElements(second);
      assert forall x :: x in first <==> x in second;
    }
  }

  /** `compute_group_basis` on whatever order the query returned, then `fingerprint_basis`. */
  method ComputeBundleGroup(sha: TextHash, listing: seq<Entry>, ghost rows: set<Entry>)
    returns (fingerprint: string, basis: seq<Entry>)
    requires OneRowPerPool(rows) && Lists(listing, rows)
    ensures basis == Basis(rows) && fingerprint == Fingerprint(sha, rows)
    ensures Sorted(basis, PoolOf) && forall x :: x in basis <==> x in rows
  {
    var ordered := SortBy(listing, PoolOf);
    basis := [];
    for i := 0 to |ordered|
      invariant basis == ordered[..i]
    {
      basis := basis + [Entry(ordered[i].pool, ordered[i].representation)];
    }
    assert ordered[..|ordered|] == ordered;
    BasisIgnoresRowOrder(listing, rows);
    BasisElements(rows);
    SortByCorrect(listing, PoolOf);
    fingerprint := sha(BasisJson(basis));
  }
}
