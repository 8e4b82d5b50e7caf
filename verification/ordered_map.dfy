/** Python's `dict` as the engine uses it: a finite map that also remembers
    the order in which keys were first inserted. Overwriting a key keeps its
    place; deleting a key keeps the order of the others. */
module OrderedMap {

  datatype Dict<K, V> = Dict(keys: seq<K>, entries: map<K, V>)

  predicate Distinct<K(==, !new)>(s: seq<K>) {
    forall i, j :: 0 <= i < j < |s| ==> s[i] != s[j]
  }

  /** The key sequence lists every key of the map exactly once. */
  ghost predicate Valid<K(!new), V>(d: Dict<K, V>) {
    && Distinct(d.keys)
    && (forall k :: k in d.entries <==> k in d.keys)
  }

  function Empty<K(==, !new), V>(): (d: Dict<K, V>)
    ensures Valid(d) && d.entries == map[]
  {
    Dict([], map[])
  }

  /** `d[k] = v`: a new key goes to the end, an existing one keeps its place. */
  function Put<K(==, !new), V>(d: Dict<K, V>, k: K, v: V): (r: Dict<K, V>)
    requires Valid(d)
    ensures Valid(r)
    ensures r.entries == d.entries[k := v]
    ensures k in d.entries ==> r.keys == d.keys
    ensures k !in d.entries ==> r.keys == d.keys + [k]
  {
    if k in d.entries then Dict(d.keys, d.entries[k := v])
    else Dict(d.keys + [k], d.entries[k := v])
  }

  /** The elements of `s` outside `gone`, in their original order. */
  function Drop<K(==, !new)>(s: seq<K>, gone: set<K>): (r: seq<K>)
    ensures forall x :: x in r <==> x in s && x !in gone
    ensures Distinct(s) ==> Distinct(r)
  {
    if s == [] then []
    else if s[|s| - 1] in gone then Drop(s[..|s| - 1], gone)
    else Drop(s[..|s| - 1], gone) + [s[|s| - 1]]
  }

  /** Deletes every key in `gone`; the survivors keep their order. */
  function RemoveAll<K(==, !new), V>(d: Dict<K, V>, gone: set<K>): (r: Dict<K, V>)
    requires Valid(d)
    ensures Valid(r)
    ensures r.entries.Keys == d.entries.Keys - gone
    ensures forall k :: k in r.entries ==> r.entries[k] == d.entries[k]
    ensures r.keys == Drop(d.keys, gone)
  {
    Dict(Drop(d.keys, gone), d.entries - gone)
  }

  /** `del d[k]` */
  function Remove<K(==, !new), V>(d: Dict<K, V>, k: K): (r: Dict<K, V>)
    requires Valid(d)
    ensures Valid(r)
    ensures r.entries == d.entries - {k}
    ensures r.keys == Drop(d.keys, {k})
  {
    RemoveAll(d, {k})
  }

  /** Deleting in two rounds is deleting the union at once. */
  lemma {:induction false} DropDrop<K(!new)>(s: seq<K>, a: set<K>, b: set<K>)
    ensures Drop(Drop(s, a), b) == Drop(s, a + b)
  {
    if s != [] {
      var init, last := s[..|s| - 1], s[|s| - 1];
      DropDrop(init, a, b);
      if last !in a {
        assert Drop(s, a) == Drop(init, a) + [last];
        var t := Drop(s, a);
        assert t[..|t| - 1] == Drop(init, a);
      }
    }
  }

  lemma RemoveAllTwice<K(!new), V>(d: Dict<K, V>, a: set<K>, b: set<K>)
    requires Valid(d)
    ensures RemoveAll(RemoveAll(d, a), b) == RemoveAll(d, a + b)
  {
    DropDrop(d.keys, a, b);
    assert (d.entries - a) - b == d.entries - (a + b);
  }

  /** A sequence without repetitions has as many elements as its set. */
  lemma {:induction false} DistinctCard<K(!new)>(s: seq<K>)
    requires Distinct(s)
    ensures |set x | x in s| == |s|
  {
    if s != [] {
      var init := s[..|s| - 1];
      DistinctCard(init);
      assert (set x | x in s) == (set x | x in init) + {s[|s| - 1]};
    }
  }

  /** Deleting nothing leaves the dict as it is. */
  lemma {:induction false} DropNothing<K(!new)>(s: seq<K>)
    ensures Drop(s, {}) == s
  {
    if s != [] {
      var init, last := s[..|s| - 1], s[|s| - 1];
      DropNothing(init);
      assert Drop(s, {}) == Drop(init, {}) + [last];
      assert init + [last] == s;
    }
  }

  lemma RemoveNothing<K(!new), V>(d: Dict<K, V>)
    requires Valid(d)
    ensures RemoveAll(d, {}) == d
  {
    DropNothing(d.keys);
    assert d.entries - {} == d.entries;
  }

  /** Two sequences without repetitions and without common elements join
      into one without repetitions. */
  lemma DistinctConcat<K(!new)>(a: seq<K>, b: seq<K>)
    requires Distinct(a) && Distinct(b)
    requires forall x :: x in a ==> x !in b
    ensures Distinct(a + b)
  {
    forall i, j | 0 <= i < j < |a + b|
      ensures (a + b)[i] != (a + b)[j]
    {
      if j < |a| {
        assert (a + b)[i] == a[i] && (a + b)[j] == a[j];
      } else if i >= |a| {
        assert (a + b)[i] == b[i - |a|] && (a + b)[j] == b[j - |a|];
      } else {
        assert (a + b)[i] == a[i] && (a + b)[j] == b[j - |a|];
        assert b[j - |a|] in b;
      }
    }
  }

  /** Without repetitions, the last element is not among the others. */
  lemma DistinctInit<K(!new)>(s: seq<K>)
    requires Distinct(s) && s != []
    ensures Distinct(s[..|s| - 1]) && s[|s| - 1] !in s[..|s| - 1]
  {
    var n := |s| - 1;
    assert forall i :: 0 <= i < n ==> s[..n][i] == s[i];
  }

  /** A sequence without repetitions whose every element is `x`, and which
      holds `x`, is `[x]`. */
  lemma DistinctSingleton<K(!new)>(s: seq<K>, x: K)
    requires Distinct(s) && x in s
    requires forall y :: y in s ==> y == x
    ensures s == [x]
  {
    DistinctCard(s);
    assert (set y | y in s) == {x};
    assert s[0] in s;
  }

  /** Dropping works piece by piece, so the survivors keep their relative order. */
  lemma {:induction false} DropConcat<K(!new)>(a: seq<K>, b: seq<K>, gone: set<K>)
    ensures Drop(a + b, gone) == Drop(a, gone) + Drop(b, gone)
    decreases |b|
  {
    if b == [] {
      assert a + b == a;
    } else {
      var n := |b| - 1;
      assert (a + b)[..|a + b| - 1] == a + b[..n];
      assert (a + b)[|a + b| - 1] == b[n];
      DropConcat(a, b[..n], gone);
    }
  }

  /** Inserting a key that is not the first one leaves the first key in place. */
  lemma PutKeepsFirst<K(!new), V>(d: Dict<K, V>, k: K, v: V)
    requires Valid(d) && d.keys != [] && k != d.keys[0]
    ensures Put(d, k, v).keys[0] == d.keys[0]
    ensures Put(d, k, v).entries[d.keys[0]] == d.entries[d.keys[0]]
  {
  }
}
