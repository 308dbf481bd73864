/** Order-insensitive comparison of arrays and of objects, as
    `isValueSameArray` and `isValueSameObject` do it. Array elements and
    object values are of an abstract type compared with `==`, which stands
    for JavaScript's strict equality. */
module Comparison {

  datatype Option<T> = None | Some(value: T)

  /** Every element of `s` occurs there once. */
  predicate Distinct<T(==)>(s: seq<T>) {
    forall i, j :: 0 <= i < j < |s| ==> s[i] != s[j]
  }

  /** What `isValueSameArray` decides: equal lengths, and every element of
      `a` is a member of `b`. Multiplicities are not compared. */
  predicate SameValues<T(==)>(a: seq<T>, b: seq<T>) {
    |a| == |b| && forall i :: 0 <= i < |a| ==> a[i] in b
  }

  /** `Array.prototype.indexOf`: the first position of `x` in `s`, or -1. */
  function IndexOf<T(==)>(s: seq<T>, x: T): (i: int)
    ensures -1 <= i < |s|
    ensures i == -1 <==> x !in s
    ensures 0 <= i ==> s[i] == x && forall j :: 0 <= j < i ==> s[j] != x
  {
    if |s| == 0 then -1
    else if s[0] == x then 0
    else
      var j := IndexOf(s[1..], x);
      if j < 0 then -1
      else j + 1
  }

  /** `isValueSameArray`: a length test, then a membership test by
      `indexOf` for every element of `a`, without early exit. */
  method IsValueSameArray<T(==)>(a: seq<T>, b: seq<T>) returns (same: bool)
    ensures same <==> SameValues(a, b)
  {
    same := true;
    if |a| != |b| {
      same := false;
    } else {
      for i := 0 to |a|
        invariant same <==> forall j :: 0 <= j < i ==> a[j] in b
      {
        if IndexOf(b, a[i]) < 0 {
          same := false;
        }
      }
    }
  }

  lemma SameValuesReflexive<T>(a: seq<T>)
    ensures SameValues(a, a)
  {
  }

  /** Two arrangements of the same elements always compare equal. */
  lemma PermutationIsSameValues<T>(a: seq<T>, b: seq<T>)
    requires multiset(a) == multiset(b)
    ensures SameValues(a, b)
  {
    assert |a| == |multiset(a)| == |multiset(b)| == |b|;
    forall i | 0 <= i < |a|
      ensures a[i] in b
    {
      assert a[i] in multiset(a);
    }
  }

  /** When `a` has no repeated element the loose test is exact: it holds
      only of a rearrangement of `a`. */
  lemma {:induction false} SameValuesOfDistinctIsPermutation<T>(a: seq<T>, b: seq<T>)
    requires Distinct(a)
    requires SameValues(a, b)
    ensures multiset(a) == multiset(b)
  {
    if |a| > 0 {
      var x := a[0];
      var j := IndexOf(b, x);
      var b' := b[..j] + b[j + 1..];
      RemoveAt(b, j);
      assert Distinct(a[1..]) by {
        forall i, k | 0 <= i < k < |a[1..]|
          ensures a[1..][i] != a[1..][k]
        {
          assert a[1..][i] == a[i + 1] && a[1..][k] == a[k + 1];
        }
      }
      assert SameValues(a[1..], b') by {
        forall i | 0 <= i < |a[1..]|
          ensures a[1..][i] in b'
        {
          assert a[1..][i] == a[i + 1] && a[i + 1] != x && a[i + 1] in b;
        }
      }
      SameValuesOfDistinctIsPermutation(a[1..], b');
      assert a == [x] + a[1..];
    }
  }

  /** Removing the element at position `j` leaves one element fewer, and
      every other value still occurs. */
  lemma RemoveAt<T>(b: seq<T>, j: int)
    requires 0 <= j < |b|
    ensures |b[..j] + b[j + 1..]| == |b| - 1
    ensures multiset(b) == multiset(b[..j] + b[j + 1..]) + multiset{b[j]}
    ensures forall y :: y in b && y != b[j] ==> y in b[..j] + b[j + 1..]
  {
    var b' := b[..j] + b[j + 1..];
    assert b == b[..j] + [b[j]] + b[j + 1..];
    forall y | y in b && y != b[j]
      ensures y in b'
    {
      var k :| 0 <= k < |b| && b[k] == y;
      if k < j {
        assert b'[k] == y;
      } else {
        assert b'[k - 1] == y;
      }
    }
  }

  /** Counterexample: `[1,1,2]` and `[1,2,2]` compare equal although they
      are not rearrangements of each other. */
  lemma SameValuesIgnoresMultiplicity()
    ensures SameValues([1, 1, 2], [1, 2, 2])
    ensures multiset([1, 1, 2]) != multiset([1, 2, 2])
  {
    assert multiset([1, 1, 2])[1] == 2;
    assert multiset([1, 2, 2])[1] == 1;
  }

  /** Counterexample: the test is not symmetric. */
  lemma SameValuesIsNotSymmetric()
    ensures SameValues([1, 1], [1, 2])
    ensures !SameValues([1, 2], [1, 1])
  {
    assert [1, 2][1] == 2;
  }

  /** A JavaScript object: its own keys in enumeration order (what lodash
      `keys` returns) and the value stored under each. */
  datatype Object<V> = Object(keys: seq<string>, fields: map<string, V>) {

    /** Every real object: no key twice, and exactly the keys of `fields`. */
    ghost predicate WellFormed() {
      && Distinct(keys)
      && (forall i :: 0 <= i < |keys| ==> keys[i] in fields)
      && (forall k :: k in fields ==> k in keys)
    }

    /** `object[key]`, with `None` for `undefined`. */
    function Get(key: string): (v: Option<V>)
      ensures v.Some? <==> key in fields
      ensures v.Some? ==> v.value == fields[key]
    {
      if key in fields then Some(fields[key]) else None
    }
  }

  /** `isValueSameObject`: the key arrays must pass `isValueSameArray`,
      then each key of `o1` must read the same value from both. On
      well-formed objects this is exactly equality of the stored maps. */
  method IsValueSameObject<V(==)>(o1: Object<V>, o2: Object<V>) returns (same: bool)
    ensures same <==> SameValues(o1.keys, o2.keys)
                      && forall i :: 0 <= i < |o1.keys| ==> o1.Get(o1.keys[i]) == o2.Get(o1.keys[i])
    ensures o1.WellFormed() && o2.WellFormed() ==> (same <==> o1.fields == o2.fields)
  {
    var keys1 := o1.keys;
    var keys2 := o2.keys;
    var sameKeys := IsValueSameArray(keys1, keys2);
    if !sameKeys {
      same := false;
    } else {
      same := true;
      for i := 0 to |keys1|
        invariant same <==> forall j :: 0 <= j < i ==> o1.Get(keys1[j]) == o2.Get(keys1[j])
      {
        if o1.Get(keys1[i]) != o2.Get(keys1[i]) {
          same := false;
        }
      }
    }
    if o1.WellFormed() && o2.WellFormed() {
      SameObjectIsSameFields(o1, o2);
    }
  }

  /** On well-formed objects the two steps of `isValueSameObject` together
      decide equality of the key-to-value maps. */
  lemma SameObjectIsSameFields<V>(o1: Object<V>, o2: Object<V>)
    requires o1.WellFormed() && o2.WellFormed()
    ensures (SameValues(o1.keys, o2.keys)
             && forall i :: 0 <= i < |o1.keys| ==> o1.Get(o1.keys[i]) == o2.Get(o1.keys[i]))
            <==> o1.fields == o2.fields
  {
    if SameValues(o1.keys, o2.keys)
       && forall i :: 0 <= i < |o1.keys| ==> o1.Get(o1.keys[i]) == o2.Get(o1.keys[i])
    {
      SameValuesOfDistinctIsPermutation(o1.keys, o2.keys);
      forall k | k in o2.fields
        ensures k in o1.fields
      {
        assert k in multiset(o2.keys);
      }
      forall k | k in o1.fields
        ensures k in o2.fields && o1.fields[k] == o2.fields[k]
      {
        var i :| 0 <= i < |o1.keys| && o1.keys[i] == k;
        assert o1.Get(o1.keys[i]) == o2.Get(o1.keys[i]);
      }
    }
    if o1.fields == o2.fields {
      DistinctMultiset(o1.keys);
      DistinctMultiset(o2.keys);
      assert multiset(o1.keys) == multiset(o2.keys);
      PermutationIsSameValues(o1.keys, o2.keys);
    }
  }

  /** A sequence without repetitions holds each of its elements once. */
  lemma {:induction false} DistinctMultiset<T>(s: seq<T>)
    requires Distinct(s)
    ensures forall x :: multiset(s)[x] == if x in s then 1 else 0
  {
    if |s| > 0 {
      assert Distinct(s[1..]) by {
        forall i, j | 0 <= i < j < |s[1..]|
          ensures s[1..][i] != s[1..][j]
        {
          assert s[1..][i] == s[i + 1] && s[1..][j] == s[j + 1];
        }
      }
      DistinctMultiset(s[1..]);
      assert s == [s[0]] + s[1..];
      assert s[0] !in s[1..] by {
        forall j | 0 <= j < |s[1..]|
          ensures s[1..][j] != s[0]
        {
          assert s[1..][j] == s[j + 1];
        }
      }
      forall x
        ensures multiset(s)[x] == if x in s then 1 else 0
      {
        assert multiset(s) == multiset{s[0]} + multiset(s[1..]);
        assert x in s <==> x == s[0] || x in s[1..];
      }
    }
  }

  /** `isValueSameObject({a:1,b:2}, {b:2,a:1})` holds: key order does not
      matter. */
  lemma KeyOrderIsIgnored()
    ensures SameValues(["a", "b"], ["b", "a"])
    ensures Object(["a", "b"], map["a" := 1, "b" := 2]).fields
            == Object(["b", "a"], map["b" := 2, "a" := 1]).fields
  {
    assert ["b", "a"][1] == "a";
  }
}
