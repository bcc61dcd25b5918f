/**
 * A JavaScript `Map`: entries in insertion order, each key at most once. `set` on a present key
 * overwrites the value where the entry stands; on a new key it appends. `delete` removes the one
 * entry and keeps the order of the rest.
 */
module OrderedMap {
  import opened Wrappers

  /** No key appears in two entries. */
  ghost predicate KeysUnique(m: seq<(string, string)>)
  {
    forall i, j :: 0 <= i < j < |m| ==> m[i].0 != m[j].0
  }

  /** The keys in insertion order: what `map.keys()` yields. */
  function Keys(m: seq<(string, string)>): (ks: seq<string>)
    ensures |ks| == |m|
    ensures forall i :: 0 <= i < |m| ==> ks[i] == m[i].0
  {
    seq(|m|, i requires 0 <= i < |m| => m[i].0)
  }

  /** `map.has(k)`. */
  predicate Has(m: seq<(string, string)>, k: string)
  {
    k in Keys(m)
  }

  /** `map.get(k)`, with `undefined` as `None`. */
  function Get(m: seq<(string, string)>, k: string): (r: Option<string>)
    ensures r.Some? <==> Has(m, k)
    ensures KeysUnique(m) ==> forall i :: 0 <= i < |m| && m[i].0 == k ==> r == Some(m[i].1)
  {
    if m == [] then None
    else if m[0].0 == k then Some(m[0].1)
    else
      var r := Get(m[1..], k);
      assert Keys(m) == [m[0].0] + Keys(m[1..]);
      r
  }

  /** The position of the entry for `k`, or -1 (`Array.prototype.findIndex`). */
  function IndexOf(m: seq<(string, string)>, k: string): (i: int)
    ensures -1 <= i < |m|
    ensures i == -1 <==> !Has(m, k)
    ensures i >= 0 ==> m[i].0 == k && forall j :: 0 <= j < i ==> m[j].0 != k
  {
    if m == [] then -1
    else if m[0].0 == k then 0
    else
      var i := IndexOf(m[1..], k);
      assert Keys(m) == [m[0].0] + Keys(m[1..]);
      if i == -1 then -1 else i + 1
  }

  /** `map.set(k, v)`. */
  function Put(m: seq<(string, string)>, k: string, v: string): (r: seq<(string, string)>)
    ensures KeysUnique(m) ==> KeysUnique(r)
    ensures Get(r, k) == Some(v)
    ensures forall k' :: k' != k ==> Get(r, k') == Get(m, k')
    ensures Has(m, k) ==> Keys(r) == Keys(m)
    ensures !Has(m, k) ==> r == m + [(k, v)]
  {
    var i := IndexOf(m, k);
    if i == -1 then
      var r := m + [(k, v)];
      assert Keys(r) == Keys(m) + [k];
      GetAppend(m, k, v);
      r
    else
      var r := m[i := (k, v)];
      assert Keys(r) == Keys(m);
      GetUpdate(m, i, v);
      r
  }

  lemma {:induction false} GetAppend(m: seq<(string, string)>, k: string, v: string)
    requires !Has(m, k)
    ensures Get(m + [(k, v)], k) == Some(v)
    ensures forall k' :: k' != k ==> Get(m + [(k, v)], k') == Get(m, k')
  {
    if m != [] {
      assert (m + [(k, v)])[1..] == m[1..] + [(k, v)];
      assert Keys(m) == [m[0].0] + Keys(m[1..]);
      GetAppend(m[1..], k, v);
    } else {
      assert m + [(k, v)] == [(k, v)];
    }
  }

  lemma {:induction false} GetUpdate(m: seq<(string, string)>, i: nat, v: string)
    requires i < |m| && forall j :: 0 <= j < i ==> m[j].0 != m[i].0
    ensures Get(m[i := (m[i].0, v)], m[i].0) == Some(v)
    ensures forall k' :: k' != m[i].0 ==> Get(m[i := (m[i].0, v)], k') == Get(m, k')
  {
    if i > 0 {
      assert m[i := (m[i].0, v)][1..] == m[1..][i - 1 := (m[i].0, v)];
      GetUpdate(m[1..], i - 1, v);
    }
  }

  /** `map.delete(k)`: removes the entry for `k`, if any, and keeps the others in order. */
  function Remove(m: seq<(string, string)>, k: string): (r: seq<(string, string)>)
    ensures forall e :: e in r <==> e in m && e.0 != k
    ensures forall k' :: k' != k ==> Get(r, k') == Get(m, k')
    ensures IsOrderedSubset(r, m)
  {
    if m == [] then []
    else if m[0].0 == k then Remove(m[1..], k)
    else [m[0]] + Remove(m[1..], k)
  }

  /** `a` keeps some of the entries of `b`, in the order they have in `b`. */
  ghost predicate IsOrderedSubset(a: seq<(string, string)>, b: seq<(string, string)>)
    decreases |b|
  {
    a == [] || (b != [] && ((a[0] == b[0] && IsOrderedSubset(a[1..], b[1..])) || IsOrderedSubset(a, b[1..])))
  }

  /** After `delete`, the key is gone, the keys stay unique and the size drops by one exactly when the key was present. */
  lemma {:induction false} RemoveCount(m: seq<(string, string)>, k: string)
    requires KeysUnique(m)
    ensures !Has(Remove(m, k), k)
    ensures KeysUnique(Remove(m, k))
    ensures |Remove(m, k)| == if Has(m, k) then |m| - 1 else |m|
  {
    var r := Remove(m, k);
    forall i | 0 <= i < |r| ensures Keys(r)[i] != k {
      assert r[i] in r;
    }
    RemoveUnique(m, k);
    RemoveSize(m, k);
  }

  lemma {:induction false} RemoveUnique(m: seq<(string, string)>, k: string)
    requires KeysUnique(m)
    ensures KeysUnique(Remove(m, k))
  {
    if m != [] && m[0].0 != k {
      var rest := Remove(m[1..], k);
      RemoveUnique(m[1..], k);
      assert Remove(m, k) == [m[0]] + rest;
      forall j | 0 <= j < |rest| ensures rest[j].0 != m[0].0 {
        assert rest[j] in m[1..];
      }
    } else if m != [] {
      RemoveUnique(m[1..], k);
    }
  }

  lemma {:induction false} RemoveSize(m: seq<(string, string)>, k: string)
    requires KeysUnique(m)
    ensures |Remove(m, k)| == if Has(m, k) then |m| - 1 else |m|
  {
    if m != [] {
      RemoveSize(m[1..], k);
      assert Keys(m) == [m[0].0] + Keys(m[1..]);
      if m[0].0 == k {
        assert !Has(m[1..], k) by {
          forall i | 0 <= i < |m[1..]| ensures Keys(m[1..])[i] != k {
            assert m[1..][i] == m[i + 1];
          }
        }
      }
    }
  }
}
