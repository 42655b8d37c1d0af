/**
  A Ruby Hash as the sequence of its entries in insertion order: Ruby hashes
  remember that order (`hash.keys`, `hash.first`), so a Dafny `map` would lose it.
*/
module Assoc {
  import opened Wrappers

  type Assoc<K, V> = seq<(K, V)>

  function Keys<K, V>(a: Assoc<K, V>): (ks: seq<K>)
    ensures |ks| == |a| && forall i :: 0 <= i < |a| ==> ks[i] == a[i].0
  {
    if a == [] then [] else [a[0].0] + Keys(a[1..])
  }

  predicate UniqueKeys<K(==), V>(a: Assoc<K, V>) {
    forall i, j :: 0 <= i < j < |a| ==> a[i].0 != a[j].0
  }

  /** `hash[key]`: the value stored under `key`, or nil. */
  function Lookup<K(==), V>(a: Assoc<K, V>, key: K): (r: Option<V>)
    ensures r.Some? <==> key in Keys(a)
    ensures r.Some? ==> (key, r.value) in a
    decreases |a|
  {
    if a == [] then None
    else if a[0].0 == key then Some(a[0].1)
    else Lookup(a[1..], key)
  }

  /** `hash[key] = value` (or `merge!(key => value)`): an existing key keeps its place. */
  function Put<K(==), V>(a: Assoc<K, V>, key: K, value: V): Assoc<K, V>
    decreases |a|
  {
    if a == [] then [(key, value)]
    else if a[0].0 == key then [(key, value)] + a[1..]
    else [a[0]] + Put(a[1..], key, value)
  }

  /** `hash.delete(key)` */
  function Remove<K(==), V>(a: Assoc<K, V>, key: K): Assoc<K, V>
    decreases |a|
  {
    if a == [] then []
    else if a[0].0 == key then Remove(a[1..], key)
    else [a[0]] + Remove(a[1..], key)
  }

  /** Folding `hash.merge!(key => value)` over `entries`, starting from `{}`. */
  function ToMap<K, V>(entries: seq<(K, V)>): map<K, V> {
    if entries == [] then map[]
    else ToMap(entries[..|entries| - 1])[entries[|entries| - 1].0 := entries[|entries| - 1].1]
  }

  lemma {:induction false} ToMapSnoc<K, V>(entries: seq<(K, V)>, e: (K, V))
    ensures ToMap(entries + [e]) == ToMap(entries)[e.0 := e.1]
  {
    assert (entries + [e])[..|entries|] == entries;
  }

  /** One more merge into `m.merge(ToMap(entries))`. */
  lemma MergeSnoc<K, V>(m: map<K, V>, entries: seq<(K, V)>, e: (K, V))
    ensures (m + ToMap(entries))[e.0 := e.1] == m + ToMap(entries + [e])
  {
    ToMapSnoc(entries, e);
  }

  /** Merging entries in two batches is merging the second batch's hash into the first's. */
  lemma {:induction false} ToMapConcat<K, V>(a: seq<(K, V)>, b: seq<(K, V)>)
    ensures ToMap(a + b) == ToMap(a) + ToMap(b)
    decreases |b|
  {
    if b == [] {
      assert a + b == a;
    } else {
      var n := |b| - 1;
      ToMapConcat(a, b[..n]);
      assert a + b == (a + b[..n]) + [b[n]];
      ToMapSnoc(a + b[..n], b[n]);
    }
  }

  /** Writing a key stores the new value under it and leaves every other key's value alone. */
  lemma {:induction false} PutLookup<K, V>(a: Assoc<K, V>, key: K, value: V)
    ensures Lookup(Put(a, key, value), key) == Some(value)
    ensures forall k :: k != key ==> Lookup(Put(a, key, value), k) == Lookup(a, k)
    decreases |a|
  {
    if a != [] && a[0].0 != key {
      PutLookup(a[1..], key, value);
      assert Put(a, key, value)[1..] == Put(a[1..], key, value);
    } else if a != [] {
      assert Put(a, key, value)[1..] == a[1..];
    }
  }

  /** A present key keeps its place; a new key goes at the end. */
  lemma {:induction false} PutKeys<K, V>(a: Assoc<K, V>, key: K, value: V)
    ensures Keys(Put(a, key, value)) == if key in Keys(a) then Keys(a) else Keys(a) + [key]
    decreases |a|
  {
    if a != [] {
      assert Keys(a) == [a[0].0] + Keys(a[1..]);
      if a[0].0 != key {
        PutKeys(a[1..], key, value);
        assert Keys(Put(a, key, value)) == [a[0].0] + Keys(Put(a[1..], key, value));
      } else {
        assert Keys(Put(a, key, value)) == [key] + Keys(a[1..]);
      }
    }
  }

  lemma {:induction false} UniqueByKeys<K, V>(a: Assoc<K, V>, b: Assoc<K, V>, key: K)
    requires UniqueKeys(a)
    requires Keys(b) == Keys(a) || (key !in Keys(a) && Keys(b) == Keys(a) + [key])
    ensures UniqueKeys(b)
  {
    forall i, j | 0 <= i < j < |b| ensures b[i].0 != b[j].0 {
      assert Keys(b)[i] == b[i].0 && Keys(b)[j] == b[j].0;
      if j < |a| {
        assert Keys(a)[i] == a[i].0 && Keys(a)[j] == a[j].0;
      } else {
        assert Keys(a)[i] == a[i].0;
      }
    }
  }

  /** Writing keeps the keys unique. */
  lemma PutUnique<K, V>(a: Assoc<K, V>, key: K, value: V)
    requires UniqueKeys(a)
    ensures UniqueKeys(Put(a, key, value))
  {
    PutKeys(a, key, value);
    UniqueByKeys(a, Put(a, key, value), key);
  }

  /** Deleting a key removes it and leaves every other key's value alone. */
  lemma {:induction false} RemoveLookup<K, V>(a: Assoc<K, V>, key: K)
    ensures Lookup(Remove(a, key), key) == None
    ensures forall k :: k != key ==> Lookup(Remove(a, key), k) == Lookup(a, k)
    decreases |a|
  {
    if a != [] {
      RemoveLookup(a[1..], key);
      if a[0].0 != key {
        assert Remove(a, key)[1..] == Remove(a[1..], key);
      }
    }
  }

  /**
    With unique keys, deleting a present key cuts exactly its entry out of the sequence,
    so the remaining entries keep their order.
  */
  lemma {:induction false} RemoveAt<K, V>(a: Assoc<K, V>, i: nat)
    requires UniqueKeys(a) && i < |a|
    ensures Remove(a, a[i].0) == a[..i] + a[i + 1..]
    decreases |a|
  {
    var key := a[i].0;
    if i == 0 {
      forall j | 0 <= j < |a[1..]| ensures a[1..][j].0 != key {
        assert a[1..][j] == a[j + 1];
      }
      RemoveAbsent(a[1..], key);
    } else {
      assert UniqueKeys(a[1..]);
      assert a[1..][i - 1] == a[i];
      RemoveAt(a[1..], i - 1);
      assert a[..i] == [a[0]] + a[1..][..i - 1];
      assert a[i + 1..] == a[1..][i..];
    }
  }

  /** Deleting a key that is not there changes nothing. */
  lemma {:induction false} RemoveAbsent<K, V>(a: Assoc<K, V>, key: K)
    requires forall i :: 0 <= i < |a| ==> a[i].0 != key
    ensures Remove(a, key) == a
    decreases |a|
  {
    if a != [] {
      RemoveAbsent(a[1..], key);
      assert [a[0]] + a[1..] == a;
    }
  }

  /**
    The fold keeps exactly the keys that occur in `entries`, and each key's value is the
    value of its LAST occurrence (a later `merge!` overwrites an earlier one).
  */
  lemma {:induction false} ToMapSpec<K, V>(entries: seq<(K, V)>)
    ensures forall k :: k in ToMap(entries) <==> exists i :: 0 <= i < |entries| && entries[i].0 == k
    ensures forall i :: 0 <= i < |entries| && (forall j :: i < j < |entries| ==> entries[j].0 != entries[i].0)
                        ==> ToMap(entries)[entries[i].0] == entries[i].1
    ensures forall k :: k in ToMap(entries) ==> (k, ToMap(entries)[k]) in entries
  {
    if entries != [] {
      var n := |entries| - 1;
      var init := entries[..n];
      ToMapSpec(init);
      assert entries == init + [entries[n]];
      ToMapSnoc(init, entries[n]);
      forall k | k in ToMap(entries) ensures (k, ToMap(entries)[k]) in entries {
        if k != entries[n].0 {
          assert (k, ToMap(init)[k]) in init;
        }
      }
      forall k ensures k in ToMap(entries) <==> exists i :: 0 <= i < |entries| && entries[i].0 == k {
        if k in ToMap(entries) && k != entries[n].0 {
          var i :| 0 <= i < |init| && init[i].0 == k;
          assert entries[i] == init[i];
        }
        if exists i :: 0 <= i < |entries| && entries[i].0 == k {
          var i :| 0 <= i < |entries| && entries[i].0 == k;
          if i < n { assert init[i] == entries[i]; }
        }
      }
      forall i | 0 <= i < |entries| && (forall j :: i < j < |entries| ==> entries[j].0 != entries[i].0)
        ensures ToMap(entries)[entries[i].0] == entries[i].1
      {
        if i < n {
          assert init[i] == entries[i];
          forall j | i < j < |init| ensures init[j].0 != init[i].0 {
            assert init[j] == entries[j];
          }
        }
      }
    }
  }

  /** The keys the entries mention. */
  function KeysOf<K, V>(entries: seq<(K, V)>): set<K> {
    set i | 0 <= i < |entries| :: entries[i].0
  }

  lemma KeysOfSingleton<K, V>(k: K, v: V)
    ensures KeysOf([(k, v)]) == {k}
  {
    assert [(k, v)][0].0 == k;
  }

  lemma KeysOfConcat<K, V>(a: seq<(K, V)>, b: seq<(K, V)>)
    ensures KeysOf(a + b) == KeysOf(a) + KeysOf(b)
  {
    forall k | k in KeysOf(a + b) ensures k in KeysOf(a) + KeysOf(b) {
      var i :| 0 <= i < |a + b| && (a + b)[i].0 == k;
      if i >= |a| { assert b[i - |a|] == (a + b)[i]; }
    }
    forall k | k in KeysOf(a) + KeysOf(b) ensures k in KeysOf(a + b) {
      if k in KeysOf(a) {
        var i :| 0 <= i < |a| && a[i].0 == k;
        assert (a + b)[i] == a[i];
      } else {
        var i :| 0 <= i < |b| && b[i].0 == k;
        assert (a + b)[|a| + i] == b[i];
      }
    }
  }

  /** The fold's keys are exactly the keys of its entries. */
  lemma ToMapKeys<K, V>(entries: seq<(K, V)>)
    ensures ToMap(entries).Keys == KeysOf(entries)
  {
    ToMapSpec(entries);
    forall k | k in KeysOf(entries) ensures k in ToMap(entries) {
      var i :| 0 <= i < |entries| && entries[i].0 == k;
    }
  }

  /** Writing a new key appends it. */
  lemma {:induction false} PutNew<K, V>(a: Assoc<K, V>, key: K, value: V)
    requires key !in Keys(a)
    ensures Put(a, key, value) == a + [(key, value)]
    decreases |a|
  {
    if a != [] {
      PutNew(a[1..], key, value);
      assert [a[0]] + (a[1..] + [(key, value)]) == a + [(key, value)];
    }
  }

  /** Every value satisfies `P`. */
  predicate AllValues<K, V>(a: Assoc<K, V>, P: V -> bool) {
    forall i :: 0 <= i < |a| ==> P(a[i].1)
  }

  lemma {:induction false} PutAllValues<K, V>(a: Assoc<K, V>, key: K, value: V, P: V -> bool)
    requires AllValues(a, P) && P(value)
    ensures AllValues(Put(a, key, value), P)
    decreases |a|
  {
    if a != [] && a[0].0 != key {
      PutAllValues(a[1..], key, value, P);
      assert Put(a, key, value) == [a[0]] + Put(a[1..], key, value);
    }
  }

  lemma {:induction false} RemoveAllValues<K, V>(a: Assoc<K, V>, key: K, P: V -> bool)
    requires AllValues(a, P)
    ensures AllValues(Remove(a, key), P)
    decreases |a|
  {
    if a != [] {
      RemoveAllValues(a[1..], key, P);
    }
  }

  /** Deleting keeps the keys unique and adds none. */
  lemma RemoveUnique<K, V>(a: Assoc<K, V>, key: K)
    requires UniqueKeys(a)
    ensures UniqueKeys(Remove(a, key))
    ensures forall k :: k in Keys(Remove(a, key)) ==> k in Keys(a)
  {
    if key in Keys(a) {
      var i :| 0 <= i < |a| && Keys(a)[i] == key;
      RemoveAt(a, i);
      CutKeys(a, i);
    } else {
      RemoveAbsent(a, key);
    }
  }

  /** Cutting one entry out keeps the keys unique and adds none. */
  lemma CutKeys<K, V>(a: Assoc<K, V>, i: nat)
    requires UniqueKeys(a) && i < |a|
    ensures UniqueKeys(a[..i] + a[i + 1..])
    ensures forall k :: k in Keys(a[..i] + a[i + 1..]) ==> k in Keys(a)
  {
    var r := a[..i] + a[i + 1..];
    forall p, q | 0 <= p < q < |r| ensures r[p].0 != r[q].0 {
      CutIndex(a, i, p);
      CutIndex(a, i, q);
    }
    forall k | k in Keys(r) ensures k in Keys(a) {
      var j :| 0 <= j < |r| && Keys(r)[j] == k;
      CutIndex(a, i, j);
      assert Keys(a)[if j < i then j else j + 1] == k;
    }
  }

  /** Where the `j`th entry left after cutting entry `i` was before. */
  lemma CutIndex<K, V>(a: Assoc<K, V>, i: nat, j: nat)
    requires i < |a| && j < |a| - 1
    ensures (a[..i] + a[i + 1..])[j] == a[if j < i then j else j + 1]
  {
    if j < i {
      assert (a[..i] + a[i + 1..])[j] == a[..i][j];
    } else {
      assert (a[..i] + a[i + 1..])[j] == a[i + 1..][j - i];
    }
  }
}
