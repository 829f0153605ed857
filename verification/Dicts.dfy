/**
 Dictionaries that remember the order in which their keys were first inserted.
 */
module Dicts {
  datatype Dict<K(==), +V> = Dict(keys: seq<K>, vals: map<K, V>)

  ghost predicate Distinct<K>(keys: seq<K>) {
    forall i, j | 0 <= i < j < |keys| :: keys[i] != keys[j]
  }

  ghost predicate Valid<K, V>(d: Dict<K, V>) {
    && Distinct(d.keys)
    && (forall k | k in d.keys :: k in d.vals)
    && (forall k | k in d.vals :: k in d.keys)
  }

  function EmptyDict<K(==), V>(): Dict<K, V> {
    Dict([], map[])
  }

  /** A new key goes to the end; an old one keeps its place. */
  function Put<K(==), V>(d: Dict<K, V>, k: K, v: V): (r: Dict<K, V>)
    requires Valid(d)
    ensures Valid(r)
  {
    Dict(if k in d.vals then d.keys else d.keys + [k], d.vals[k := v])
  }

  /** The keys that are in `kept`, in order. */
  function Filter<K(==)>(keys: seq<K>, kept: set<K>): (r: seq<K>)
    ensures |r| <= |keys|
    ensures forall k | k in r :: k in keys && k in kept
    ensures forall k | k in keys :: k in kept ==> k in r
  {
    if keys == [] then []
    else if keys[0] in kept then [keys[0]] + Filter(keys[1..], kept)
    else Filter(keys[1..], kept)
  }

  function Select<K(==), V>(d: Dict<K, V>, kept: set<K>): (r: Dict<K, V>) {
    Dict(Filter(d.keys, kept), map k | k in d.vals && k in kept :: d.vals[k])
  }

  function Delete<K(==), V>(d: Dict<K, V>, k: K): Dict<K, V> {
    Select(d, d.vals.Keys - {k})
  }

  /** The keys keep their order: a list is filtered part by part. */
  lemma {:induction false} FilterParts<K>(a: seq<K>, b: seq<K>, kept: set<K>)
    ensures Filter(a + b, kept) == Filter(a, kept) + Filter(b, kept)
  {
    if a == [] {
      assert a + b == b;
    } else {
      assert (a + b)[1..] == a[1..] + b;
      FilterParts(a[1..], b, kept);
    }
  }

  lemma {:induction false} FilterKeepsDistinct<K>(keys: seq<K>, kept: set<K>)
    requires Distinct(keys)
    ensures Distinct(Filter(keys, kept))
  {
    if keys != [] {
      var rest := Filter(keys[1..], kept);
      FilterKeepsDistinct(keys[1..], kept);
      forall j | 0 <= j < |rest|
        ensures rest[j] != keys[0]
      {
        assert rest[j] in rest && rest[j] in keys[1..];
      }
    }
  }

  lemma SelectKeepsValid<K, V>(d: Dict<K, V>, kept: set<K>)
    requires Valid(d)
    ensures Valid(Select(d, kept))
  {
    FilterKeepsDistinct(d.keys, kept);
  }

  lemma {:induction false} FilterTwice<K>(keys: seq<K>, a: set<K>, b: set<K>)
    ensures Filter(Filter(keys, a), b) == Filter(keys, a * b)
  {
    if keys != [] { FilterTwice(keys[1..], a, b); }
  }

  lemma {:induction false} FilterSame<K>(keys: seq<K>, a: set<K>, b: set<K>)
    requires forall k | k in keys :: k in a <==> k in b
    ensures Filter(keys, a) == Filter(keys, b)
  {
    if keys != [] {
      assert keys[0] in keys;
      FilterSame(keys[1..], a, b);
    }
  }

  lemma {:induction false} FilterAll<K>(keys: seq<K>, a: set<K>)
    requires forall k | k in keys :: k in a
    ensures Filter(keys, a) == keys
  {
    if keys != [] {
      assert keys[0] in keys;
      FilterAll(keys[1..], a);
    }
  }

  lemma SelectAll<K, V>(d: Dict<K, V>)
    requires Valid(d)
    ensures Select(d, d.vals.Keys) == d
  {
    FilterAll(d.keys, d.vals.Keys);
  }

  /** Deleting one more key from a selection. */
  lemma DeleteFromSelect<K, V>(d: Dict<K, V>, kept: set<K>, k: K)
    requires Valid(d)
    ensures Delete(Select(d, kept), k) == Select(d, kept - {k})
  {
    var inner := Select(d, kept);
    FilterTwice(d.keys, kept, inner.vals.Keys - {k});
    forall x | x in d.keys
      ensures x in kept * (inner.vals.Keys - {k}) <==> x in kept - {k}
    {
    }
    FilterSame(d.keys, kept * (inner.vals.Keys - {k}), kept - {k});
  }

  /** Deletes the keys of a set one by one; the others keep their places. */
  method DeleteAll<K(==), V>(d: Dict<K, V>, expired: set<K>) returns (r: Dict<K, V>)
    requires Valid(d)
    ensures Valid(r) && r == Select(d, d.vals.Keys - expired)
  {
    hide Valid, Select, Delete;
    var left := expired;
    r := d;
    SelectAll(d);
    assert d.vals.Keys - (expired - left) == d.vals.Keys;
    while left != {}
      invariant left <= expired && r == Select(d, d.vals.Keys - (expired - left))
      decreases left
    {
      var k :| k in left;
      DeleteFromSelect(d, d.vals.Keys - (expired - left), k);
      assert d.vals.Keys - (expired - left) - {k} == d.vals.Keys - (expired - (left - {k}));
      r := Delete(r, k);
      left := left - {k};
    }
    assert expired - left == expired;
    SelectKeepsValid(d, d.vals.Keys - expired);
  }
}
