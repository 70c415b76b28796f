/** An insertion-ordered map, the model of a JavaScript `Map` (and of the
    collection library's keyed collections built on one).  Setting a key that
    is present keeps its position; setting a new key appends it; deleting a
    key removes it from the order. */
module OrderedMaps {
  import opened Wrappers

  datatype OMap<K(==,!new), V> = OMap(keys: seq<K>, vals: map<K, V>)

  predicate Distinct<K(==)>(s: seq<K>) {
    forall i, j | 0 <= i < j < |s| :: s[i] != s[j]
  }

  predicate WellFormed<K(==,!new), V>(m: OMap<K, V>) {
    && Distinct(m.keys)
    && (forall k | k in m.keys :: k in m.vals)
    && (forall k | k in m.vals :: k in m.keys)
  }

  type OrderedMap<K(==,!new), V> = m: OMap<K, V> | WellFormed(m) witness OMap([], map[])

  function Empty<K(==,!new), V>(): (m: OrderedMap<K, V>)
    ensures m.keys == [] && m.vals == map[]
  {
    OMap([], map[])
  }

  predicate Has<K(==,!new), V>(m: OrderedMap<K, V>, k: K) {
    k in m.vals
  }

  function Get<K(==,!new), V>(m: OrderedMap<K, V>, k: K): V
    requires Has(m, k)
  {
    m.vals[k]
  }

  function Lookup<K(==,!new), V>(m: OrderedMap<K, V>, k: K): Option<V> {
    if k in m.vals then Some(m.vals[k]) else None
  }

  function Size<K(==,!new), V>(m: OrderedMap<K, V>): nat {
    |m.keys|
  }

  /** The entries' values in key order (`map.values()`). */
  function ValuesInOrder<K(==,!new), V>(m: OrderedMap<K, V>): (r: seq<V>)
    ensures |r| == |m.keys|
    ensures forall i | 0 <= i < |r| :: r[i] == m.vals[m.keys[i]]
  {
    ValuesOf(m.keys, m.vals)
  }

  function ValuesOf<K(==,!new), V>(ks: seq<K>, vals: map<K, V>): (r: seq<V>)
    requires forall k | k in ks :: k in vals
    ensures |r| == |ks|
    ensures forall i | 0 <= i < |r| :: r[i] == vals[ks[i]]
  {
    if ks == [] then [] else [vals[ks[0]]] + ValuesOf(ks[1..], vals)
  }

  /** `map.set(k, v)`. */
  function Set<K(==,!new), V>(m: OrderedMap<K, V>, k: K, v: V): (r: OrderedMap<K, V>)
    ensures Has(r, k) && Get(r, k) == v
    ensures forall j | j != k :: Lookup(r, j) == Lookup(m, j)
    ensures Has(m, k) ==> r.keys == m.keys
    ensures !Has(m, k) ==> r.keys == m.keys + [k]
  {
    if k in m.vals then OMap(m.keys, m.vals[k := v])
    else
      var r := OMap(m.keys + [k], m.vals[k := v]);
      assert Distinct(r.keys) by {
        forall i, j | 0 <= i < j < |r.keys| ensures r.keys[i] != r.keys[j] {
          if j == |m.keys| { assert r.keys[i] == m.keys[i]; }
        }
      }
      r
  }

  function Remove<K(==,!new)>(s: seq<K>, k: K): (r: seq<K>)
    ensures forall x :: x in r <==> x in s && x != k
    ensures k !in s ==> r == s
    ensures Distinct(s) ==> Distinct(r)
  {
    if s == [] then []
    else if s[0] == k then Remove(s[1..], k)
    else
      var rest := Remove(s[1..], k);
      assert Distinct(s) ==> s[0] !in s[1..] by {
        if Distinct(s) {
          forall j | 0 <= j < |s[1..]| ensures s[1..][j] != s[0] {
            assert s[1..][j] == s[j + 1];
          }
        }
      }
      assert Distinct(s) ==> Distinct(s[1..]) by {
        if Distinct(s) {
          forall i, j | 0 <= i < j < |s[1..]| ensures s[1..][i] != s[1..][j] {
            assert s[1..][i] == s[i + 1] && s[1..][j] == s[j + 1];
          }
        }
      }
      [s[0]] + rest
  }

  /** `map.delete(k)` (the collection library's `deleteKey`). */
  function Delete<K(==,!new), V>(m: OrderedMap<K, V>, k: K): (r: OrderedMap<K, V>)
    ensures !Has(r, k)
    ensures forall j | j != k :: Lookup(r, j) == Lookup(m, j)
    ensures !Has(m, k) ==> r == m
  {
    OMap(Remove(m.keys, k), m.vals - {k})
  }

  /** The entries whose value passes `keep`, in their original order
      (`c(map).filter(keep)`). */
  function Filter<K(==,!new), V>(m: OrderedMap<K, V>, keep: V -> bool): (r: OrderedMap<K, V>)
    ensures forall k :: Has(r, k) <==> Has(m, k) && keep(Get(m, k))
    ensures forall k | Has(r, k) :: Get(r, k) == Get(m, k)
  {
    FilterFrom(m, m.keys, keep)
  }

  function FilterFrom<K(==,!new), V>(m: OrderedMap<K, V>, ks: seq<K>, keep: V -> bool): (r: OrderedMap<K, V>)
    requires forall k | k in ks :: Has(m, k)
    requires Distinct(ks)
    ensures forall k :: Has(r, k) <==> k in ks && keep(Get(m, k))
    ensures forall k | Has(r, k) :: Get(r, k) == Get(m, k)
    ensures forall k | k in r.keys :: k in ks
    decreases |ks|
  {
    if ks == [] then Empty()
    else
      var last := ks[|ks| - 1];
      var prefix := ks[..|ks| - 1];
      assert forall i | 0 <= i < |prefix| :: prefix[i] == ks[i];
      assert Distinct(prefix);
      var init := FilterFrom(m, prefix, keep);
      assert last !in prefix by {
        forall i | 0 <= i < |prefix| ensures prefix[i] != last {
          assert prefix[i] == ks[i];
        }
      }
      assert ks == prefix + [last];
      if keep(Get(m, last)) then Set(init, last, Get(m, last)) else init
  }

  /** Every value stored in the map (for frames over maps of objects). */
  function ValueSet<K(==,!new), V>(m: OrderedMap<K, V>): set<V> {
    m.vals.Values
  }

  lemma GetInValueSet<K(!new), V>(m: OrderedMap<K, V>, k: K)
    requires Has(m, k)
    ensures Get(m, k) in ValueSet(m)
  {
  }

  /** Setting a key adds at most the one value. */
  lemma ValueSetAfterSet<K(!new), V>(m: OrderedMap<K, V>, k: K, v: V)
    ensures ValueSet(Set(m, k, v)) <= ValueSet(m) + {v}
  {
    forall x | x in ValueSet(Set(m, k, v)) ensures x in ValueSet(m) + {v} {
      var j :| j in Set(m, k, v).vals && Set(m, k, v).vals[j] == x;
      if j != k {
        assert Lookup(Set(m, k, v), j) == Lookup(m, j);
      }
    }
  }

  /** Deleting a key that was new undoes setting it: the rollback of an
      insertion restores the map exactly, order included. */
  lemma {:induction false} DeleteUndoesInsert<K(!new), V>(m: OrderedMap<K, V>, k: K, v: V)
    requires !Has(m, k)
    ensures Delete(Set(m, k, v), k) == m
  {
    var s := Set(m, k, v);
    assert k !in m.keys;
    RemoveAppended(m.keys, k);
    assert Delete(s, k).keys == m.keys;
    assert Delete(s, k).vals == m.vals;
  }

  lemma {:induction false} RemoveAppended<K(!new)>(s: seq<K>, k: K)
    requires k !in s
    ensures Remove(s + [k], k) == s
  {
    if s == [] {
      assert [] + [k] == [k];
    } else {
      assert (s + [k])[1..] == s[1..] + [k];
      RemoveAppended(s[1..], k);
      assert s == [s[0]] + s[1..];
    }
  }

  /** Putting the previous value back undoes overwriting a key. */
  lemma SetBackUndoesOverwrite<K(!new), V>(m: OrderedMap<K, V>, k: K, v: V)
    requires Has(m, k)
    ensures Set(Set(m, k, v), k, Get(m, k)) == m
  {
    var s := Set(Set(m, k, v), k, Get(m, k));
    assert s.vals == m.vals;
  }
}
