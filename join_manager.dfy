/** One side of a join, with its own cached forward and reverse index.  The
    manager of the other side is passed in where the source reaches it
    through `join.from` / `join.to`, and the table of a side is passed in
    where the source looks it up in the base. */
module JoinManagers {
  import opened Wrappers
  import opened Values
  import opened OrderedMaps
  import opened JoinTypes
  import opened JoinUtils
  import opened JoinIndex
  import opened Tables

  class JoinManager {
    const direction: Direction
    const def: Value
    const isVia: bool                 // the join's `isVia`
    var indexCache: Option<Index>     // `_index`
    var reverseCache: Option<Index>   // `_indexReverse`

    constructor (direction: Direction, defSrc: DefSource, isVia: bool)
      ensures this.direction == direction && def == ParseConfig(defSrc) && this.isVia == isVia
      ensures indexCache == None && reverseCache == None
    {
      this.direction := direction;
      def := ParseConfig(defSrc);
      this.isVia := isVia;
      indexCache := None;
      reverseCache := None;
    }

    /** `isIdentity`: the side is keyed by its records' identities. */
    predicate IsIdentity() {
      IsJoinIdentityDef(def)
    }

    /** The forward index the `index` getter answers with for `table`: the
        cached one, else the one built from the current records.  In via mode
        with nothing cached the getter calls `join.indexVia`, which `Join`
        does not define, so it throws; the model answers the empty map there
        instead. */
    ghost function CurrentIndex(table: Table): Index
      reads this, table
    {
      if indexCache.Some? then indexCache.value
      else if isVia then Empty()
      else BuildIndex(table.records, def)
    }

    ghost function CurrentReverse(table: Table): Index
      reads this, table
    {
      if reverseCache.Some? then reverseCache.value else ReverseIndex(CurrentIndex(table))
    }

    /** `purgeIndexes`: both caches dropped, so the next read rebuilds from
        the table's current records. */
    method PurgeIndexes()
      modifies this
      ensures indexCache == None && reverseCache == None
      ensures forall table: Table :: CurrentIndex(table) == (if isVia then Empty() else BuildIndex(table.records, def))
    {
      indexCache := None;
      reverseCache := None;
    }

    /** The `index` setter. */
    method SetIndex(index: Index)
      modifies this
      ensures indexCache == Some(index) && reverseCache == old(reverseCache)
    {
      indexCache := Some(index);
    }

    /** The `index` getter: built once per cache lifetime, each identity
        mapped to `[identity]` on an identity side and to the keys in its
        field on a field side. */
    method Index(table: Table) returns (index: Index)
      modifies this
      ensures index == old(CurrentIndex(table))
      ensures indexCache == (if old(indexCache).None? && !isVia then Some(index) else old(indexCache))
      ensures reverseCache == old(reverseCache)
      ensures forall id | Has(table.records, id) && old(indexCache).None? && !isVia ::
        Has(index, id) && Get(index, id) == KeysFor(def, id, Get(table.records, id))
    {
      if indexCache.None? && !isVia {
        indexCache := Some(BuildIndex(table.records, def));
      }
      index := if indexCache.Some? then indexCache.value else Empty();
    }

    /** The `indexReverse` getter: every key of the forward index mapped back
        to the identities holding it, each list free of repeats. */
    method IndexReverse(table: Table) returns (reverse: Index)
      modifies this
      ensures reverse == old(CurrentReverse(table))
      ensures reverseCache == Some(reverse)
      ensures indexCache == (if old(indexCache).None? && old(reverseCache).None? && !isVia then Some(BuildIndex(table.records, def)) else old(indexCache))
    {
      if reverseCache.Some? {
        return reverseCache.value;
      }
      var index := Index(table);
      reverse := BuildReverse(index);
      reverseCache := Some(reverse);
    }

    /** `identities(otherIdentity)`: the identities on this side related to
        an identity on the other side. */
    method Identities(table: Table, other: JoinManager, otherTable: Table, otherIdentity: Value) returns (ids: seq<Value>)
      requires other != this
      modifies this, other
      ensures ids == ManagerIdentities(old(other.CurrentIndex(otherTable)), old(CurrentReverse(table)), IsIdentity(), isVia, otherIdentity)
    {
      var otherIndex := other.Index(otherTable);
      if !Has(otherIndex, otherIdentity) {
        return [];
      }
      var midIdentities := Get(otherIndex, otherIdentity);
      if IsIdentity() || isVia {
        return midIdentities;
      }
      var reverse := IndexReverse(table);
      ids := CollectIdentitiesForMidKeys(midIdentities, reverse);
    }

    /** `records(otherIdentity)`: the identities mapped through `table.get`,
        same length and order. */
    method Records(table: Table, other: JoinManager, otherTable: Table, otherIdentity: Value) returns (records: seq<Value>)
      requires other != this
      modifies this, other
      ensures var ids := ManagerIdentities(old(other.CurrentIndex(otherTable)), old(CurrentReverse(table)), IsIdentity(), isVia, otherIdentity);
        |records| == |ids| && forall i | 0 <= i < |ids| :: records[i] == table.Get(ids[i])
    {
      var ids := Identities(table, other, otherTable, otherIdentity);
      records := [];
      var i := 0;
      while i < |ids|
        invariant 0 <= i <= |ids|
        invariant |records| == i && forall j | 0 <= j < i :: records[j] == table.Get(ids[j])
      {
        records := records + [table.Get(ids[i])];
        i := i + 1;
      }
    }
  }

  /** `otherManager`: the `to` manager for the from side, the `from` manager
      for the to side. */
  function OtherManager(direction: Direction, from: JoinManager, to: JoinManager): (m: JoinManager)
    ensures direction == From ==> m == to
    ensures direction == To ==> m == from
  {
    match direction
    case From => to
    case To => from
  }

  /** With fresh caches on a non-via join, the to side's manager answers for
      a from identity exactly what the joint traversal `toIdentities` does,
      and the from side's manager what `fromIdentities` does. */
  lemma ManagersAgreeWithJoin(fromRecs: Records, fromDef: Value, toRecs: Records, toDef: Value, id: Value)
    ensures ManagerIdentities(BuildIndex(fromRecs, fromDef), ReverseIndex(BuildIndex(toRecs, toDef)), IsJoinIdentityDef(toDef), false, id)
      == ToIds(fromRecs, fromDef, toRecs, toDef, id)
    ensures ManagerIdentities(BuildIndex(toRecs, toDef), ReverseIndex(BuildIndex(fromRecs, fromDef)), IsJoinIdentityDef(fromDef), false, id)
      == FromIds(fromRecs, fromDef, toRecs, toDef, id)
  {
    JoinAgreesWithManager(false, BuildIndex(fromRecs, fromDef), ReverseIndex(BuildIndex(toRecs, toDef)), IsJoinIdentityDef(toDef), id);
    JoinAgreesWithManager(false, BuildIndex(toRecs, toDef), ReverseIndex(BuildIndex(fromRecs, fromDef)), IsJoinIdentityDef(fromDef), id);
  }
}
