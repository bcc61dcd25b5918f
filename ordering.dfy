/**
 * Ordering rows by a numeric key, largest first: SQLite's `ORDER BY timestamp DESC` and the
 * backup list's `sort((a, b) => b.mtime - a.mtime)`. Both are modelled by one stable insertion
 * sort; rows with equal keys keep the order they had.
 */
module Ordering {

  /** Keys never increase along `s`. */
  predicate SortedDesc<T>(s: seq<T>, key: T -> int)
  {
    forall i, j :: 0 <= i < j < |s| ==> key(s[i]) >= key(s[j])
  }

  /** `x` put into a sorted `s` before the first row whose key is not larger than its own. */
  function Insert<T>(x: T, s: seq<T>, key: T -> int): (r: seq<T>)
    requires SortedDesc(s, key)
    ensures |r| == |s| + 1
    ensures multiset(r) == multiset(s) + multiset{x}
    ensures SortedDesc(r, key)
  {
    if s == [] then [x]
    else if key(s[0]) <= key(x) then [x] + s
    else
      var t := Insert(x, s[1..], key);
      assert s == [s[0]] + s[1..];
      InsertBelow(s, t, x, key);
      [s[0]] + t
  }

  /** The head of a sorted list bounds every row of a list built from its tail and a smaller row. */
  lemma {:induction false} InsertBelow<T>(s: seq<T>, t: seq<T>, x: T, key: T -> int)
    requires s != [] && SortedDesc(s, key) && key(x) < key(s[0])
    requires multiset(t) == multiset(s[1..]) + multiset{x}
    requires SortedDesc(t, key)
    ensures SortedDesc([s[0]] + t, key)
  {
    forall i | 0 <= i < |t| ensures key(t[i]) <= key(s[0]) {
      assert t[i] in multiset(t);
      if t[i] != x {
        assert t[i] in multiset(s[1..]);
        var j :| 0 <= j < |s[1..]| && s[1..][j] == t[i];
        assert s[j + 1] == t[i];
      }
    }
  }

  /** The rows ordered by descending key: sorted, and the same rows. */
  function SortDesc<T>(s: seq<T>, key: T -> int): (r: seq<T>)
    ensures |r| == |s|
    ensures multiset(r) == multiset(s)
    ensures SortedDesc(r, key)
  {
    if s == [] then []
    else
      assert s == [s[0]] + s[1..];
      Insert(s[0], SortDesc(s[1..], key), key)
  }

  /** `LIMIT limit OFFSET offset`: skip `offset` rows, then keep at most `limit`. */
  function Page<T>(s: seq<T>, limit: nat, offset: nat): (r: seq<T>)
    ensures |r| <= limit
    ensures |r| == if offset >= |s| then 0 else if |s| - offset < limit then |s| - offset else limit
    ensures forall i :: 0 <= i < |r| ==> r[i] == s[offset + i]
  {
    if offset >= |s| then [] else
      var rest := s[offset..];
      if |rest| <= limit then rest else rest[..limit]
  }

  /** A page of a sorted list is sorted, and every row on it is a row of the list. */
  lemma {:induction false} PageOfSorted<T>(s: seq<T>, key: T -> int, limit: nat, offset: nat)
    requires SortedDesc(s, key)
    ensures SortedDesc(Page(s, limit, offset), key)
    ensures forall x :: x in Page(s, limit, offset) ==> x in s
  {
    var r := Page(s, limit, offset);
    forall x | x in r ensures x in s {
      var i :| 0 <= i < |r| && r[i] == x;
      assert s[offset + i] == x;
    }
  }
}
