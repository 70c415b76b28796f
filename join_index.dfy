/** The index engine both `JoinManager` and `Join` run: the forward index of a
    side (identity to join keys), its reverse (join key to identities), and the
    traversal from an identity on one side to identities on the other. */
module JoinIndex {
  import opened Values
  import opened OrderedMaps
  import opened JoinTypes
  import opened JoinUtils
  import opened Wrappers

  /** The join keys one record exposes on a side defined by `def`: an identity
      definition exposes the identity itself, a field definition the keys in
      that field, and anything else nothing. */
  function KeysFor(def: Value, identity: Value, record: Value): (keys: seq<Value>)
    ensures IsJoinIdentityDef(def) ==> keys == [identity]
    ensures IsFieldDef(def) ==> keys == ExtractFieldDef(def.fields["field"], record)
    ensures !IsBaseJoinDef(def) ==> keys == []
  {
    if IsJoinIdentityDef(def) then [identity]
    else if IsFieldDef(def) then ExtractFieldDef(Prop(def, "field"), record)
    else []
  }

  /** The forward index of a side: one entry per record, in table order. */
  function BuildIndex(records: Records, def: Value): (index: Index)
    ensures index.keys == records.keys
    ensures forall id | Has(records, id) :: Has(index, id) && Get(index, id) == KeysFor(def, id, Get(records, id))
  {
    OMap(records.keys, map id | id in records.vals :: KeysFor(def, id, records.vals[id]))
  }

  /** Files `identity` under each of `keys` in turn. */
  function AddKeys(m: Index, keys: seq<Value>, identity: Value): Index
    decreases |keys|
  {
    if keys == [] then m else Added(AddKeys(m, keys[..|keys| - 1], identity), keys[|keys| - 1], identity)
  }

  function ReverseFrom(index: Index, ids: seq<Value>): Index
    requires forall i | i in ids :: Has(index, i)
    decreases |ids|
  {
    if ids == [] then Empty()
    else
      var last := ids[|ids| - 1];
      AddKeys(ReverseFrom(index, ids[..|ids| - 1]), Get(index, last), last)
  }

  /** The reverse index: every key of every entry, mapped back to the
      identities holding it, built in forward-index order. */
  function ReverseIndex(index: Index): Index {
    ReverseFrom(index, index.keys)
  }

  ghost predicate ListsDistinct(m: Index) {
    forall k | Has(m, k) :: Distinct(Get(m, k))
  }

  lemma {:induction false} AddKeysAt(m: Index, keys: seq<Value>, identity: Value, k: Value, x: Value)
    ensures (Has(AddKeys(m, keys, identity), k) && x in Get(AddKeys(m, keys, identity), k))
      == ((Has(m, k) && x in Get(m, k)) || (k in keys && x == identity))
    decreases |keys|
  {
    if keys != [] {
      var init := keys[..|keys| - 1];
      var last := keys[|keys| - 1];
      assert keys == init + [last];
      AddKeysAt(m, init, identity, k, x);
      var before := AddKeys(m, init, identity);
      assert AddKeys(m, keys, identity) == Added(before, last, identity);
      assert k in keys <==> k in init || k == last;
      if k != last {
        AddedElsewhere(before, last, identity, k);
      }
    }
  }

  lemma AddedElsewhere(m: Index, key: Value, v: Value, k: Value)
    requires k != key
    ensures Has(Added(m, key, v), k) == Has(m, k)
    ensures Has(m, k) ==> Get(Added(m, key, v), k) == Get(m, k)
  {
    assert Lookup(Added(m, key, v), k) == Lookup(m, k);
  }

  lemma {:induction false} AddKeysDistinct(m: Index, keys: seq<Value>, identity: Value)
    requires ListsDistinct(m)
    ensures ListsDistinct(AddKeys(m, keys, identity))
    decreases |keys|
  {
    if keys != [] {
      var init := keys[..|keys| - 1];
      var last := keys[|keys| - 1];
      AddKeysDistinct(m, init, identity);
      var before := AddKeys(m, init, identity);
      var after := AddKeys(m, keys, identity);
      assert after == Added(before, last, identity);
      forall k | Has(after, k) ensures Distinct(Get(after, k)) {
        if k != last {
          AddedElsewhere(before, last, identity, k);
          assert Distinct(Get(before, k));
        } else if Has(before, k) {
          assert Distinct(Get(before, k));
        }
      }
    }
  }

  lemma {:induction false} ReverseFromAt(index: Index, ids: seq<Value>, k: Value, i: Value)
    requires forall j | j in ids :: Has(index, j)
    ensures (Has(ReverseFrom(index, ids), k) && i in Get(ReverseFrom(index, ids), k)) == (i in ids && k in Get(index, i))
    decreases |ids|
  {
    if ids != [] {
      var init := ids[..|ids| - 1];
      var last := ids[|ids| - 1];
      assert ids == init + [last];
      ReverseFromAt(index, init, k, i);
      AddKeysAt(ReverseFrom(index, init), Get(index, last), last, k, i);
      assert i in ids <==> i in init || i == last;
    }
  }

  lemma {:induction false} ReverseFromDistinct(index: Index, ids: seq<Value>)
    requires forall j | j in ids :: Has(index, j)
    ensures ListsDistinct(ReverseFrom(index, ids))
    decreases |ids|
  {
    if ids != [] {
      var init := ids[..|ids| - 1];
      ReverseFromDistinct(index, init);
      AddKeysDistinct(ReverseFrom(index, init), Get(index, ids[|ids| - 1]), ids[|ids| - 1]);
    }
  }

  /** `i` is filed under `k` in the reverse index exactly when `k` is one of
      `i`'s keys in the forward index, and no list repeats an identity. */
  lemma ReverseIndexMeaning(index: Index)
    ensures forall k, i :: (Has(ReverseIndex(index), k) && i in Get(ReverseIndex(index), k)) <==> (Has(index, i) && k in Get(index, i))
    ensures ListsDistinct(ReverseIndex(index))
  {
    forall k, i ensures (Has(ReverseIndex(index), k) && i in Get(ReverseIndex(index), k)) <==> (Has(index, i) && k in Get(index, i)) {
      ReverseFromAt(index, index.keys, k, i);
    }
    ReverseFromDistinct(index, index.keys);
  }

  /** The nested loop both engines use to build a reverse index, filing each
      identity under each of its keys with `addToIndex`. */
  method BuildReverse(index: Index) returns (reverse: Index)
    ensures reverse == ReverseIndex(index)
  {
    var coll := new IndexMap();
    var i := 0;
    while i < |index.keys|
      invariant 0 <= i <= |index.keys|
      invariant coll.entries == ReverseFrom(index, index.keys[..i])
    {
      var identity := index.keys[i];
      ReverseFromSnoc(index, i);
      FileUnderKeys(coll, Get(index, identity), identity);
      i := i + 1;
    }
    assert index.keys[..i] == index.keys;
    reverse := coll.entries;
  }

  /** The inner loop of `BuildReverse`: one identity filed under each of
      its keys in turn. */
  method FileUnderKeys(coll: IndexMap, keys: seq<Value>, identity: Value)
    modifies coll
    ensures coll.entries == AddKeys(old(coll.entries), keys, identity)
  {
    var j := 0;
    while j < |keys|
      invariant 0 <= j <= |keys|
      invariant coll.entries == AddKeys(old(coll.entries), keys[..j], identity)
    {
      AddKeysSnoc(old(coll.entries), keys, j, identity);
      coll.AddToIndex(keys[j], identity, false);
      j := j + 1;
    }
    assert keys[..j] == keys;
  }

  lemma ReverseFromSnoc(index: Index, i: nat)
    requires i < |index.keys|
    ensures ReverseFrom(index, index.keys[..i + 1])
      == AddKeys(ReverseFrom(index, index.keys[..i]), Get(index, index.keys[i]), index.keys[i])
  {
    assert index.keys[..i + 1][..i] == index.keys[..i];
  }

  lemma AddKeysSnoc(m: Index, keys: seq<Value>, j: nat, identity: Value)
    requires j < |keys|
    ensures AddKeys(m, keys[..j + 1], identity) == Added(AddKeys(m, keys[..j], identity), keys[j], identity)
  {
    assert keys[..j + 1][..j] == keys[..j];
  }

  /** `JoinManager.identities`: the identities on this side related to
      `otherId` on the other side.  `otherIndex` is the other side's forward
      index, `ownReverse` this side's reverse index. */
  function ManagerIdentities(otherIndex: Index, ownReverse: Index, ownIsIdentity: bool, isVia: bool, otherId: Value): (r: seq<Value>)
    ensures !Has(otherIndex, otherId) ==> r == []
    ensures Has(otherIndex, otherId) && (ownIsIdentity || isVia) ==> r == Get(otherIndex, otherId)
    ensures Has(otherIndex, otherId) && !ownIsIdentity && !isVia ==>
      && Distinct(r)
      && forall x :: x in r <==> exists k :: k in Get(otherIndex, otherId) && Has(ownReverse, k) && x in Get(ownReverse, k)
  {
    if !Has(otherIndex, otherId) then []
    else
      var midIdentities := Get(otherIndex, otherId);
      if ownIsIdentity || isVia then midIdentities
      else IdentitiesForMidKeys(midIdentities, ownReverse)
  }

  /** `Join.toIdentities` (with the from index and the to side's reverse) and
      `Join.fromIdentities` (with the to index and the from side's reverse).
      In via mode the own index entry is returned without an absence check, so
      an identity the index lacks gives `undefined` (`None`). */
  function JoinIdentities(isVia: bool, ownIndex: Index, targetReverse: Index, targetIsIdentity: bool, id: Value): (r: Option<seq<Value>>)
    ensures isVia ==> r == Lookup(ownIndex, id)
    ensures !isVia ==> r.Some?
    ensures !isVia && !Has(ownIndex, id) ==> r == Some([])
    ensures !isVia && Has(ownIndex, id) && targetIsIdentity ==> r == Some(Get(ownIndex, id))
    ensures !isVia && Has(ownIndex, id) && !targetIsIdentity ==>
      r.Some? && Distinct(r.value)
      && forall x :: x in r.value <==> exists k :: k in Get(ownIndex, id) && Has(targetReverse, k) && x in Get(targetReverse, k)
  {
    if isVia then Lookup(ownIndex, id)
    else if !Has(ownIndex, id) then Some([])
    else if targetIsIdentity then Some(Get(ownIndex, id))
    else Some(IdentitiesForMidKeys(Get(ownIndex, id), targetReverse))
  }

  /** The two engines agree: `Join.toIdentities(id)` is what the to side's
      manager answers for `id` on the from side (and `fromIdentities` what the
      from side's manager answers), except in via mode for an identity the
      index lacks, where the join answers `undefined` and the manager `[]`. */
  lemma JoinAgreesWithManager(isVia: bool, ownIndex: Index, targetReverse: Index, targetIsIdentity: bool, id: Value)
    ensures !isVia || Has(ownIndex, id) ==>
      JoinIdentities(isVia, ownIndex, targetReverse, targetIsIdentity, id)
        == Some(ManagerIdentities(ownIndex, targetReverse, targetIsIdentity, isVia, id))
    ensures isVia && !Has(ownIndex, id) ==>
      JoinIdentities(isVia, ownIndex, targetReverse, targetIsIdentity, id) == None
      && ManagerIdentities(ownIndex, targetReverse, targetIsIdentity, isVia, id) == []
  {
  }

  /** The non-via traversal of a join whose sides hold `fromRecs` under
      `fromDef` and `toRecs` under `toDef`, with freshly built indexes. */
  function ToIds(fromRecs: Records, fromDef: Value, toRecs: Records, toDef: Value, f: Value): seq<Value> {
    JoinIdentities(false, BuildIndex(fromRecs, fromDef), ReverseIndex(BuildIndex(toRecs, toDef)), IsJoinIdentityDef(toDef), f).value
  }

  function FromIds(fromRecs: Records, fromDef: Value, toRecs: Records, toDef: Value, t: Value): seq<Value> {
    JoinIdentities(false, BuildIndex(toRecs, toDef), ReverseIndex(BuildIndex(fromRecs, fromDef)), IsJoinIdentityDef(fromDef), t).value
  }

  /** `x` reaches `y` when some join key `x` exposes on its side is a key `y`
      exposes on the other. */
  lemma {:induction false} MidKeyStep(ownIndex: Index, targetIndex: Index, x: Value, y: Value)
    requires Has(ownIndex, x)
    ensures y in IdentitiesForMidKeys(Get(ownIndex, x), ReverseIndex(targetIndex))
      <==> Has(targetIndex, y) && exists k :: k in Get(ownIndex, x) && k in Get(targetIndex, y)
  {
    ReverseIndexMeaning(targetIndex);
    var rev := ReverseIndex(targetIndex);
    var r := IdentitiesForMidKeys(Get(ownIndex, x), rev);
    if y in r {
      var k :| k in Get(ownIndex, x) && Has(rev, k) && y in Get(rev, k);
      assert Has(targetIndex, y) && k in Get(targetIndex, y);
    }
    if Has(targetIndex, y) && exists k :: k in Get(ownIndex, x) && k in Get(targetIndex, y) {
      var k :| k in Get(ownIndex, x) && k in Get(targetIndex, y);
      assert Has(rev, k) && y in Get(rev, k);
    }
  }

  /** Traversal is symmetric: for records present on both sides of a non-via
      join, `t` is among the to-identities of `f` exactly when `f` is among
      the from-identities of `t`, whichever of the four strategies applies. */
  lemma {:induction false} TraversalSymmetric(fromRecs: Records, fromDef: Value, toRecs: Records, toDef: Value, f: Value, t: Value)
    requires Has(fromRecs, f) && Has(toRecs, t)
    ensures t in ToIds(fromRecs, fromDef, toRecs, toDef, f) <==> f in FromIds(fromRecs, fromDef, toRecs, toDef, t)
  {
    var fi := BuildIndex(fromRecs, fromDef);
    var ti := BuildIndex(toRecs, toDef);
    assert Has(fi, f) && Has(ti, t);
    var fromId := IsJoinIdentityDef(fromDef);
    var toId := IsJoinIdentityDef(toDef);
    var there := ToIds(fromRecs, fromDef, toRecs, toDef, f);
    var back := FromIds(fromRecs, fromDef, toRecs, toDef, t);
    if toId {
      assert Get(ti, t) == [t];
      assert there == Get(fi, f);
      if fromId {
        assert Get(fi, f) == [f];
        assert back == [t];
      } else {
        assert back == IdentitiesForMidKeys(Get(ti, t), ReverseIndex(fi));
        MidKeyStep(ti, fi, t, f);
      }
    } else {
      assert there == IdentitiesForMidKeys(Get(fi, f), ReverseIndex(ti));
      MidKeyStep(fi, ti, f, t);
      if fromId {
        assert Get(fi, f) == [f];
        assert back == Get(ti, t);
      } else {
        assert back == IdentitiesForMidKeys(Get(ti, t), ReverseIndex(fi));
        MidKeyStep(ti, fi, t, f);
      }
    }
  }

  /** `recordsForMidKeys`: the records of `table` reached through the mid
      keys, each once, in first-seen order. */
  function RecordsForMidKeys(midKeys: seq<Value>, reverse: Index, table: Records): (r: Records)
    decreases |midKeys|
  {
    if midKeys == [] then Empty()
    else
      var init := RecordsForMidKeys(midKeys[..|midKeys| - 1], reverse, table);
      var last := midKeys[|midKeys| - 1];
      if Has(reverse, last) then AddRecords(init, Get(reverse, last), table) else init
  }

  function AddRecords(m: Records, endIds: seq<Value>, table: Records): Records
    decreases |endIds|
  {
    if endIds == [] then m
    else
      var a := AddRecords(m, endIds[..|endIds| - 1], table);
      var e := endIds[|endIds| - 1];
      if !Has(a, e) && Has(table, e) then Set(a, e, Get(table, e)) else a
  }

  lemma {:induction false} AddRecordsMeaning(m: Records, endIds: seq<Value>, table: Records)
    requires forall e | Has(m, e) :: Has(table, e) && Get(m, e) == Get(table, e)
    ensures forall e :: Has(AddRecords(m, endIds, table), e) <==> Has(m, e) || (e in endIds && Has(table, e))
    ensures forall e | Has(AddRecords(m, endIds, table), e) :: Get(AddRecords(m, endIds, table), e) == Get(table, e)
    decreases |endIds|
  {
    if endIds != [] {
      assert endIds == endIds[..|endIds| - 1] + [endIds[|endIds| - 1]];
      AddRecordsMeaning(m, endIds[..|endIds| - 1], table);
    }
  }

  /** The records reached are exactly the table's records whose identity
      `identitiesForMidKeys` yields for the same mid keys. */
  lemma {:induction false} RecordsForMidKeysMeaning(midKeys: seq<Value>, reverse: Index, table: Records)
    ensures forall e :: Has(RecordsForMidKeys(midKeys, reverse, table), e) <==> Has(table, e) && e in IdentitiesForMidKeys(midKeys, reverse)
    ensures forall e | Has(RecordsForMidKeys(midKeys, reverse, table), e) ::
      Get(RecordsForMidKeys(midKeys, reverse, table), e) == Get(table, e)
    decreases |midKeys|
  {
    if midKeys != [] {
      var init := midKeys[..|midKeys| - 1];
      var last := midKeys[|midKeys| - 1];
      assert midKeys == init + [last];
      RecordsForMidKeysMeaning(init, reverse, table);
      if Has(reverse, last) {
        AddRecordsMeaning(RecordsForMidKeys(init, reverse, table), Get(reverse, last), table);
      }
    }
  }

  /** The loop of `recordsForMidKeys`. */
  method CollectRecordsForMidKeys(midKeys: seq<Value>, reverse: Index, table: Records) returns (r: Records)
    ensures r == RecordsForMidKeys(midKeys, reverse, table)
  {
    r := Empty();
    var i := 0;
    while i < |midKeys|
      invariant 0 <= i <= |midKeys|
      invariant r == RecordsForMidKeys(midKeys[..i], reverse, table)
    {
      var midKey := midKeys[i];
      assert midKeys[..i + 1][..i] == midKeys[..i];
      if Has(reverse, midKey) {
        var ends := Get(reverse, midKey);
        ghost var before := r;
        var j := 0;
        while j < |ends|
          invariant 0 <= j <= |ends|
          invariant r == AddRecords(before, ends[..j], table)
        {
          assert ends[..j + 1][..j] == ends[..j];
          var endId := ends[j];
          if !Has(r, endId) && Has(table, endId) {
            r := Set(r, endId, Get(table, endId));
          }
          j := j + 1;
        }
        assert ends[..j] == ends;
      }
      i := i + 1;
    }
    assert midKeys[..i] == midKeys;
  }
}
