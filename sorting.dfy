/**
 * Ascending sort of table rows by a numeric key (pandas' `sort_values`). The
 * order among rows with equal keys is left open by pandas; the model keeps
 * them in their incoming order, and no property below depends on that choice.
 */
module Sorting {

  predicate SortedBy<T>(s: seq<T>, key: T -> real) {
    forall i, j :: 0 <= i < j < |s| ==> key(s[i]) <= key(s[j])
  }

  function Insert<T>(x: T, s: seq<T>, key: T -> real): (r: seq<T>)
    requires SortedBy(s, key)
    ensures SortedBy(r, key)
    ensures multiset(r) == multiset(s) + multiset{x}
  {
    if s == [] then [x]
    else if key(x) <= key(s[0]) then [x] + s
    else
      var rest := Insert(x, s[1..], key);
      InsertHeadStaysLeast(x, s, key, rest);
      ConsSorted(s[0], rest, key);
      assert s == [s[0]] + s[1..];
      [s[0]] + rest
  }

  lemma InsertHeadStaysLeast<T>(x: T, s: seq<T>, key: T -> real, rest: seq<T>)
    requires SortedBy(s, key) && |s| > 0 && key(s[0]) < key(x)
    requires multiset(rest) == multiset(s[1..]) + multiset{x}
    ensures forall y :: y in rest ==> key(s[0]) <= key(y)
  {
    forall y | y in rest ensures key(s[0]) <= key(y) {
      assert y in multiset(rest);
      if y != x {
        assert y in multiset(s[1..]);
        var k :| 0 <= k < |s[1..]| && s[1..][k] == y;
        assert s[k + 1] == y;
      }
    }
  }

  lemma ConsSorted<T>(h: T, rest: seq<T>, key: T -> real)
    requires SortedBy(rest, key)
    requires forall y :: y in rest ==> key(h) <= key(y)
    ensures SortedBy([h] + rest, key)
  {
    var r := [h] + rest;
    forall i, j | 0 <= i < j < |r| ensures key(r[i]) <= key(r[j]) {
      assert r[j] == rest[j - 1];
      if i > 0 {
        assert r[i] == rest[i - 1];
      } else {
        assert rest[j - 1] in rest;
      }
    }
  }

  /** The rows of `s` reordered so that `key` never decreases. */
  function SortBy<T>(s: seq<T>, key: T -> real): (r: seq<T>)
    ensures SortedBy(r, key)
    ensures multiset(r) == multiset(s)
    ensures |r| == |s|
  {
    if s == [] then []
    else
      assert s == [s[0]] + s[1..];
      Insert(s[0], SortBy(s[1..], key), key)
  }

  lemma SortedFirstIsLeast<T>(s: seq<T>, key: T -> real)
    requires SortedBy(s, key) && |s| > 0
    ensures forall y :: y in s ==> key(s[0]) <= key(y)
  {
    forall y | y in s ensures key(s[0]) <= key(y) {
      var k :| 0 <= k < |s| && s[k] == y;
      if k > 0 {
        assert key(s[0]) <= key(s[k]);
      }
    }
  }

  lemma SortedLastIsGreatest<T>(s: seq<T>, key: T -> real)
    requires SortedBy(s, key) && |s| > 0
    ensures forall y :: y in s ==> key(y) <= key(s[|s| - 1])
  {
    forall y | y in s ensures key(y) <= key(s[|s| - 1]) {
      var k :| 0 <= k < |s| && s[k] == y;
      if k < |s| - 1 {
        assert key(s[k]) <= key(s[|s| - 1]);
      }
    }
  }
}
