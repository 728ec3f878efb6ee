/** Python's codepoint order on strings, and `sorted(rows, key=...)`. */
module Ordering {

  /** `first <= second` by codepoint, shorter first on a common prefix. */
  predicate AtMost(first: string, second: string) {
    first == "" ||
    (second != "" &&
     (first[0] < second[0] || (first[0] == second[0] && AtMost(first[1..], second[1..]))))
  }

  lemma {:induction false} AtMostTotal(first: string, second: string)
    ensures AtMost(first, second) || AtMost(second, first)
    decreases |first|
  {
    if first != "" && second != "" {
      AtMostTotal(first[1..], second[1..]);
    }
  }

  lemma {:induction false} AtMostTransitive(a: string, b: string, c: string)
    requires AtMost(a, b) && AtMost(b, c)
    ensures AtMost(a, c)
    decreases |a|
  {
    if a != "" && a[0] == b[0] == c[0] {
      AtMostTransitive(a[1..], b[1..], c[1..]);
    }
  }

  lemma {:induction false} AtMostAntisymmetric(a: string, b: string)
    requires AtMost(a, b) && AtMost(b, a)
    ensures a == b
    decreases |a|
  {
    if a != "" {
      AtMostAntisymmetric(a[1..], b[1..]);
      assert a == [a[0]] + a[1..] && b == [b[0]] + b[1..];
    }
  }

  lemma {:induction false} AtMostReflexive(a: string)
    ensures AtMost(a, a)
  {
    if a != "" {
      AtMostReflexive(a[1..]);
    }
  }

  ghost predicate Sorted<T(!new)>(rows: seq<T>, key: T -> string) {
    forall i, j :: 0 <= i < j < |rows| ==> AtMost(key(rows[i]), key(rows[j]))
  }

  /** No two positions share a key. */
  ghost predicate DistinctKeys<T(!new)>(rows: seq<T>, key: T -> string) {
    forall i, j :: 0 <= i < j < |rows| ==> key(rows[i]) != key(rows[j])
  }

  /** Put one row in front of the first row it does not exceed. */
  function InsertBy<T(!new)>(row: T, rows: seq<T>, key: T -> string): seq<T> {
    if rows == [] then [row]
    else if AtMost(key(row), key(rows[0])) then [row] + rows
    else [rows[0]] + InsertBy(row, rows[1..], key)
  }

  /** Stable insertion sort. */
  function SortBy<T(!new)>(rows: seq<T>, key: T -> string): seq<T> {
    if rows == [] then [] else InsertBy(rows[0], SortBy(rows[1..], key), key)
  }

  lemma {:induction false} InsertByElements<T(!new)>(row: T, rows: seq<T>, key: T -> string)
    ensures multiset(InsertBy(row, rows, key)) == multiset([row] + rows)
  {
    if rows != [] && !AtMost(key(row), key(rows[0])) {
      InsertByElements(row, rows[1..], key);
      assert rows == [rows[0]] + rows[1..];
    }
  }

  lemma {:induction false} InsertBySorted<T(!new)>(row: T, rows: seq<T>, key: T -> string)
    requires Sorted(rows, key)
    ensures Sorted(InsertBy(row, rows, key), key)
  {
    if rows != [] {
      if AtMost(key(row), key(rows[0])) {
        forall j | 0 <= j < |rows|
          ensures AtMost(key(row), key(rows[j]))
        {
          if j > 0 { AtMostTransitive(key(row), key(rows[0]), key(rows[j])); }
        }
      } else {
        var rest := InsertBy(row, rows[1..], key);
        InsertBySorted(row, rows[1..], key);
        InsertByElements(row, rows[1..], key);
        AtMostTotal(key(row), key(rows[0]));
        forall j | 0 <= j < |rest|
          ensures AtMost(key(rows[0]), key(rest[j]))
        {
          assert rest[j] in multiset(rest);
          assert rest[j] in multiset([row] + rows[1..]);
        }
      }
    }
  }

  /** Sorting orders the rows by key and keeps every row. */
  lemma {:induction false} SortByCorrect<T(!new)>(rows: seq<T>, key: T -> string)
    ensures Sorted(SortBy(rows, key), key)
    ensures multiset(SortBy(rows, key)) == multiset(rows)
    ensures |SortBy(rows, key)| == |rows|
  {
    if rows != [] {
      SortByCorrect(rows[1..], key);
      InsertBySorted(rows[0], SortBy(rows[1..], key), key);
      InsertByElements(rows[0], SortBy(rows[1..], key), key);
      assert rows == [rows[0]] + rows[1..];
      assert |multiset(SortBy(rows, key))| == |SortBy(rows, key)|;
    }
  }

  ghost predicate SameElements<T(!new)>(first: seq<T>, second: seq<T>) {
    forall x :: x in first <==> x in second
  }

  lemma MultisetElements<T(!new)>(first: seq<T>, second: seq<T>)
    requires multiset(first) == multiset(second)
    ensures SameElements(first, second)
  {
    forall x
      ensures x in first <==> x in second
    {
      assert x in first <==> x in multiset(first);
      assert x in second <==> x in multiset(second);
    }
  }

  /** Two sorted lists with distinct keys and the same rows are the same list. */
  lemma {:induction false} SortedUnique<T(!new)>(first: seq<T>, second: seq<T>, key: T -> string)
    requires Sorted(first, key) && Sorted(second, key)
    requires DistinctKeys(first, key) && DistinctKeys(second, key)
    requires SameElements(first, second)
    ensures first == second
  {
    if first == [] {
      assert forall k :: 0 <= k < |second| ==> second[k] in second;
    } else {
      assert first[0] in first && first[0] in second;
      assert second[0] in second && second[0] in first;
      var i :| 0 <= i < |first| && first[i] == second[0];
      var j :| 0 <= j < |second| && second[j] == first[0];
      if i != 0 || j != 0 {
        AtMostReflexive(key(first[0]));
        AtMostReflexive(key(second[0]));
        AtMostAntisymmetric(key(first[0]), key(second[0]));
      }
      assert first[0] == second[0];
      TailElements(first, second, key);
      SortedUnique(first[1..], second[1..], key);
      assert first == [first[0]] + first[1..] && second == [second[0]] + second[1..];
    }
  }

  lemma TailElements<T(!new)>(first: seq<T>, second: seq<T>, key: T -> string)
    requires first != [] && second != [] && first[0] == second[0]
    requires DistinctKeys(first, key) && DistinctKeys(second, key)
    requires SameElements(first, second)
    ensures SameElements(first[1..], second[1..])
  {
    forall x
      ensures x in first[1..] <==> x in second[1..]
    {
      assert x in first[1..] <==> x in first && x != first[0];
      assert x in second[1..] <==> x in second && x != second[0];
    }
  }

  lemma DistinctKeysPermute<T(!new)>(first: seq<T>, second: seq<T>, key: T -> string)
    requires multiset(first) == multiset(second)
    requires DistinctKeys(first, key)
    ensures DistinctKeys(second, key)
  {
    forall i, j | 0 <= i < j < |second|
      ensures key(second[i]) != key(second[j])
    {
      if key(second[i]) == key(second[j]) {
        var x, y := second[i], second[j];
        assert x in multiset(second) && y in multiset(second);
        assert x in multiset(first) && y in multiset(first);
        var a :| 0 <= a < |first| && first[a] == x;
        var b :| 0 <= b < |first| && first[b] == y;
        assert a == b;
        TwiceInSequence(second, i, j);
        OnceInSequence(first, a, key);
        assert false;
      }
    }
  }

  lemma TwiceInSequence<T>(rows: seq<T>, i: int, j: int)
    requires 0 <= i < j < |rows| && rows[i] == rows[j]
    ensures multiset(rows)[rows[i]] >= 2
  {
    assert rows == rows[..j] + rows[j..];
    assert rows[..j][i] == rows[i] && rows[j..][0] == rows[j];
    assert rows[i] in multiset(rows[..j]) && rows[i] in multiset(rows[j..]);
  }

  lemma {:induction false} OnceInSequence<T(!new)>(rows: seq<T>, a: int, key: T -> string)
    requires 0 <= a < |rows| && DistinctKeys(rows, key)
    ensures multiset(rows)[rows[a]] == 1
  {
    var before, after := rows[..a], rows[a + 1..];
    assert rows == before + [rows[a]] + after;
    assert rows[a] !in before && rows[a] !in after;
    assert rows[a] !in multiset(before) && rows[a] !in multiset(after);
  }

  /** Row order does not matter: two listings of the same rows with distinct keys sort to one list. */
  lemma SortIgnoresOrder<T(!new)>(first: seq<T>, second: seq<T>, key: T -> string)
    requires DistinctKeys(first, key) && DistinctKeys(second, key)
    requires SameElements(first, second)
    ensures SortBy(first, key) == SortBy(second, key)
  {
    SortByCorrect(first, key);
    SortByCorrect(second, key);
    DistinctKeysPermute(first, SortBy(first, key), key);
    DistinctKeysPermute(second, SortBy(second, key), key);
    MultisetElements(first, SortBy(first, key));
    MultisetElements(second, SortBy(second, key));
    SortedUnique(SortBy(first, key), SortBy(second, key), key);
  }
}
