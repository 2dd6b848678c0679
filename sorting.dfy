/**
 * Ordering rows by an integer column, as an SQL `ORDER BY` does.
 *
 * SQL fixes no order between rows whose keys are equal; `SortBy` happens to keep
 * their original order, but the lemmas below promise only that the result is a
 * permutation of its input whose keys do not decrease.
 */
module Sorting {

  /** The keys of `s` never decrease from left to right. */
  ghost predicate SortedBy<T>(s: seq<T>, key: T -> int)
  {
    forall i, j :: 0 <= i < j < |s| ==> key(s[i]) <= key(s[j])
  }

  /** Puts `x` in front of the first element of `s` whose key is not smaller, so that
      among equal keys the inserted element comes first. */
  function InsertBy<T>(x: T, s: seq<T>, key: T -> int): (r: seq<T>)
    ensures |r| == |s| + 1
    ensures multiset(r) == multiset(s) + multiset{x}
  {
    if s == [] then [x]
    else if key(x) <= key(s[0]) then [x] + s
    else
      assert s == [s[0]] + s[1..];
      [s[0]] + InsertBy(x, s[1..], key)
  }

  /** Inserting into a sorted sequence keeps it sorted. */
  lemma {:induction false} InsertBySorted<T>(x: T, s: seq<T>, key: T -> int)
    requires SortedBy(s, key)
    ensures SortedBy(InsertBy(x, s, key), key)
  {
    if s != [] && key(s[0]) < key(x) {
      var rest := InsertBy(x, s[1..], key);
      assert s == [s[0]] + s[1..];
      InsertBySorted(x, s[1..], key);
      // every element of `rest` is `x` or comes from `s[1..]`, so none is below `s[0]`
      forall k | 0 <= k < |rest| ensures key(s[0]) <= key(rest[k]) {
        assert rest[k] in multiset(rest);
        if rest[k] != x {
          assert rest[k] in multiset(s[1..]);
          var j :| 0 <= j < |s[1..]| && s[1..][j] == rest[k];
          assert s[j + 1] == rest[k];
        }
      }
    }
  }

  /** Insertion sort by `key`, ascending. */
  function SortBy<T>(s: seq<T>, key: T -> int): (r: seq<T>)
    ensures |r| == |s|
    ensures multiset(r) == multiset(s)
    ensures SortedBy(r, key)
  {
    if s == [] then []
    else
      assert s == [s[0]] + s[1..];
      InsertBySorted(s[0], SortBy(s[1..], key), key);
      InsertBy(s[0], SortBy(s[1..], key), key)
  }

  /** The first `n` elements, or all of them when there are fewer: SQL's `LIMIT n`. */
  function Limit<T>(s: seq<T>, n: nat): (r: seq<T>)
    ensures |r| == if |s| <= n then |s| else n
    ensures r <= s
  {
    if |s| <= n then s else s[..n]
  }

  /** An element left out by `Limit` has a key no smaller than any element kept. */
  lemma LimitKeepsSmallest<T>(s: seq<T>, key: T -> int, n: nat, x: T)
    requires SortedBy(s, key)
    requires x in s && x !in Limit(s, n)
    ensures forall k :: 0 <= k < |Limit(s, n)| ==> key(Limit(s, n)[k]) <= key(x)
  {
  }
}
