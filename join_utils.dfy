/** The index helpers shared by both index engines: adding a value under a
    key without duplicates, collecting the identities reached through mid keys,
    reading a record's join keys from a field, and normalising a definition. */
module JoinUtils {
  import opened Values
  import opened OrderedMaps
  import opened JoinTypes

  /** A Map from a key to the list of values filed under it. */
  type Index = OrderedMap<Value, seq<Value>>

  /** A table's records: identity to record, in insertion order. */
  type Records = OrderedMap<Value, Value>

  /** The index after `addToIndex(map, key, v)` of a single value. */
  function Added(m: Index, key: Value, v: Value): (r: Index)
    ensures Has(r, key)
    ensures forall x :: x in Get(r, key) <==> x == v || (Has(m, key) && x in Get(m, key))
    ensures !Has(m, key) ==> Get(r, key) == [v]
    ensures Has(m, key) ==> Get(m, key) <= Get(r, key)
    ensures Has(m, key) && Distinct(Get(m, key)) ==> Distinct(Get(r, key))
    ensures forall j | j != key :: Lookup(r, j) == Lookup(m, j)
    ensures r.keys == if Has(m, key) then m.keys else m.keys + [key]
  {
    if !Has(m, key) then Set(m, key, [v])
    else if v in Get(m, key) then m
    else
      var old_ := Get(m, key);
      assert Distinct(old_) ==> Distinct(old_ + [v]) by {
        if Distinct(old_) {
          forall i, j | 0 <= i < j < |old_ + [v]| ensures (old_ + [v])[i] != (old_ + [v])[j] {
            if j == |old_| { assert (old_ + [v])[i] == old_[i]; }
          }
        }
      }
      Set(m, key, old_ + [v])
  }

  /** Adds every element of `vs` in order, each as a single value. */
  function AddedEach(m: Index, key: Value, vs: seq<Value>): (r: Index)
    decreases |vs|
  {
    if vs == [] then m else Added(AddedEach(m, key, vs[..|vs| - 1]), key, vs[|vs| - 1])
  }

  /** The index after `addToIndex(map, key, v, isList)`: with `isList` an array
      is spread into its elements, otherwise the whole value is one entry. */
  function AddedList(m: Index, key: Value, v: Value, isList: bool): Index {
    if isList && v.Arr? then AddedEach(m, key, v.items) else Added(m, key, v)
  }

  /** What `addToIndex` leaves under `key`: the old list, extended by exactly
      the values it did not hold yet, and no other key changed. */
  lemma {:induction false} AddedEachMeaning(m: Index, key: Value, vs: seq<Value>)
    requires vs != [] || Has(m, key)
    ensures Has(AddedEach(m, key, vs), key)
    ensures forall x :: x in Get(AddedEach(m, key, vs), key) <==> x in vs || (Has(m, key) && x in Get(m, key))
    ensures Has(m, key) ==> Get(m, key) <= Get(AddedEach(m, key, vs), key)
    ensures (Has(m, key) ==> Distinct(Get(m, key))) ==> Distinct(Get(AddedEach(m, key, vs), key))
    ensures forall j | j != key :: Lookup(AddedEach(m, key, vs), j) == Lookup(m, j)
    decreases |vs|
  {
    if vs != [] {
      var init := vs[..|vs| - 1];
      var last := vs[|vs| - 1];
      assert vs == init + [last];
      if init == [] {
        assert AddedEach(m, key, init) == m;
      } else {
        AddedEachMeaning(m, key, init);
      }
      var before := AddedEach(m, key, init);
      if Has(before, key) {
        assert Has(m, key) ==> Get(m, key) <= Get(before, key);
      }
    }
  }

  /** A JavaScript Map the helpers mutate in place. */
  class IndexMap {
    var entries: Index

    constructor ()
      ensures entries == Empty()
    {
      entries := Empty();
    }

    /** `addToIndex(map, key, v, isList)`. */
    method AddToIndex(key: Value, v: Value, isList: bool)
      modifies this
      ensures entries == AddedList(old(entries), key, v, isList)
    {
      if isList && v.Arr? {
        var items := v.items;
        var acc := entries;
        var i := 0;
        while i < |items|
          invariant 0 <= i <= |items|
          invariant acc == AddedEach(old(entries), key, items[..i])
        {
          var prefix := items[..i + 1];
          assert prefix[..|prefix| - 1] == items[..i] && prefix[|prefix| - 1] == items[i];
          acc := Added(acc, key, items[i]);
          i := i + 1;
        }
        assert items[..i] == items;
        entries := acc;
        assert entries == AddedList(old(entries), key, v, isList);
      } else {
        entries := Added(entries, key, v);
        assert entries == AddedList(old(entries), key, v, isList);
      }
    }
  }

  /** `acc` extended by the elements of `xs` it does not hold yet, in order
      (adding to a Set). */
  function AddAll(acc: seq<Value>, xs: seq<Value>): (r: seq<Value>)
    ensures acc <= r
    ensures forall x :: x in r <==> x in acc || x in xs
    ensures Distinct(acc) ==> Distinct(r)
    decreases |xs|
  {
    if xs == [] then acc
    else
      var a := AddAll(acc, xs[..|xs| - 1]);
      var last := xs[|xs| - 1];
      assert xs == xs[..|xs| - 1] + [last];
      if last in a then a
      else
        assert Distinct(a) ==> Distinct(a + [last]) by {
          if Distinct(a) {
            forall i, j | 0 <= i < j < |a + [last]| ensures (a + [last])[i] != (a + [last])[j] {
              if j == |a| { assert (a + [last])[i] == a[i]; }
            }
          }
        }
        a + [last]
  }

  /** `identitiesForMidKeys(midKeys, reverse)`: the identities the reverse
      index files under the mid keys, each once, in first-seen order.  Mid keys
      the reverse index does not hold are skipped. */
  function IdentitiesForMidKeys(midKeys: seq<Value>, reverse: Index): (r: seq<Value>)
    ensures Distinct(r)
    ensures forall x :: x in r <==> exists k :: k in midKeys && Has(reverse, k) && x in Get(reverse, k)
    decreases |midKeys|
  {
    if midKeys == [] then []
    else
      var init := midKeys[..|midKeys| - 1];
      var last := midKeys[|midKeys| - 1];
      assert midKeys == init + [last];
      var acc := IdentitiesForMidKeys(init, reverse);
      if Has(reverse, last) then AddAll(acc, Get(reverse, last)) else acc
  }

  /** The loop of `identitiesForMidKeys`, filling a Set of identities. */
  method CollectIdentitiesForMidKeys(midKeys: seq<Value>, reverse: Index) returns (r: seq<Value>)
    ensures r == IdentitiesForMidKeys(midKeys, reverse)
  {
    r := [];
    var i := 0;
    while i < |midKeys|
      invariant 0 <= i <= |midKeys|
      invariant r == IdentitiesForMidKeys(midKeys[..i], reverse)
    {
      var midKey := midKeys[i];
      assert midKeys[..i + 1][..i] == midKeys[..i];
      if Has(reverse, midKey) {
        var ends := Get(reverse, midKey);
        ghost var before := r;
        var j := 0;
        while j < |ends|
          invariant 0 <= j <= |ends|
          invariant r == AddAll(before, ends[..j])
        {
          assert ends[..j + 1][..j] == ends[..j];
          if ends[j] !in r {
            r := r + [ends[j]];
          }
          j := j + 1;
        }
        assert ends[..j] == ends;
      }
      i := i + 1;
    }
    assert midKeys[..i] == midKeys;
  }

  /** `extractFieldDef(def, record)`: the join keys a record exposes through
      `field`.  An array value is every key it holds, another defined value is
      one key, and a missing field or a record that is not a container none. */
  function ExtractFieldDef(field: Value, record: Value): (r: seq<Value>)
    ensures !IsContainer(record) ==> r == []
    ensures IsContainer(record) && ValueAt(record, field).Arr? ==> r == ValueAt(record, field).items
    ensures IsContainer(record) && !ValueAt(record, field).Arr? && ValueAt(record, field) != Undefined
      ==> r == [ValueAt(record, field)]
    ensures ValueAt(record, field) == Undefined ==> r == []
  {
    if IsContainer(record) then
      var fromIdentity := ValueAt(record, field);
      if fromIdentity != Undefined then
        if fromIdentity.Arr? then fromIdentity.items else [fromIdentity]
      else []
    else []
  }

  /** A side of a join is given as a table name or as a definition object. */
  datatype DefSource = Named(name: string) | Given(def: Value)

  /** `parseConfig`: a table name becomes the identity definition of that
      table; a definition object is used as given. */
  function ParseConfig(src: DefSource): (d: Value)
    ensures src.Named? ==> d == Obj(map["table" := Str(src.name)])
    ensures src.Named? ==> Classify(d) == IdentityDef(Str(src.name))
    ensures src.Given? ==> d == src.def
  {
    match src
    case Named(name) => Obj(map["table" := Str(name)])
    case Given(def) => def
  }
}
