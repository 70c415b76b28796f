/** A table: an insertion-ordered map from identity to record, the hooks its
    configuration resolved to, and the transactional operations that change
    it.  Each operation runs as the store's transaction handler does: it
    computes what to write, validates, writes, validates the table, and on a
    failed validation rolls the write back before reporting the error. */
module Tables {
  import opened Wrappers
  import opened Values
  import opened OrderedMaps
  import opened JoinTypes
  import opened JoinUtils
  import opened Hooks

  /** The lazily built `joins` map of a table: join name to the direction the
      table takes in that join (`None` until first read). */
  class JoinCache {
    var entries: Option<OrderedMap<string, Direction>>

    constructor ()
      ensures entries == None
    {
      entries := None;
    }
  }

  /** `getMany(identities)`: the requested identities whose record is not
      `undefined`, each with its record, in first-request order. */
  function GetMany(records: Records, identities: seq<Value>): (r: Records)
    ensures forall id :: Has(r, id) <==> id in identities && Lookup(records, id).GetOr(Undefined) != Undefined
    ensures forall id | Has(r, id) :: Has(records, id) && Get(r, id) == Get(records, id)
    decreases |identities|
  {
    if identities == [] then Empty()
    else
      var memo := GetMany(records, identities[..|identities| - 1]);
      var identity := identities[|identities| - 1];
      assert identities == identities[..|identities| - 1] + [identity];
      var record := Lookup(records, identity).GetOr(Undefined);
      if record != Undefined then Set(memo, identity, record) else memo
  }

  /** The position of the first request whose record is `x`, or the
      number of requests when there is none. */
  function FirstRequest(records: Records, identities: seq<Value>, x: Value): (k: nat)
    ensures k <= |identities|
    ensures k < |identities| ==> Lookup(records, identities[k]) == Some(x)
    ensures forall i | 0 <= i < k :: Lookup(records, identities[i]) != Some(x)
  {
    if identities == [] then 0
    else if Lookup(records, identities[0]) == Some(x) then 0
    else 1 + FirstRequest(records, identities[1..], x)
  }

  /** One more request keeps every earlier first position, and gives a
      record first requested by it the last position. */
  lemma FirstRequestExtends(records: Records, prefix: seq<Value>, id: Value, x: Value)
    ensures FirstRequest(records, prefix, x) < |prefix| ==>
      FirstRequest(records, prefix + [id], x) == FirstRequest(records, prefix, x)
    ensures FirstRequest(records, prefix, x) == |prefix| && Lookup(records, id) == Some(x) ==>
      FirstRequest(records, prefix + [id], x) == |prefix|
  {
    var k := FirstRequest(records, prefix, x);
    var m := FirstRequest(records, prefix + [id], x);
    if k < |prefix| {
      assert (prefix + [id])[k] == prefix[k];
      assert forall i | 0 <= i < k :: (prefix + [id])[i] == prefix[i];
    } else if Lookup(records, id) == Some(x) {
      assert (prefix + [id])[|prefix|] == id;
      assert forall i | 0 <= i < |prefix| :: (prefix + [id])[i] == prefix[i];
    }
  }

  /** `getRecords(identities)`: the records of the requested identities in
      request order, leaving out `undefined` and records already listed. */
  function GetRecords(records: Records, identities: seq<Value>): (r: seq<Value>)
    ensures Distinct(r)
    ensures forall x :: x in r <==> x != Undefined && exists id :: id in identities && Lookup(records, id) == Some(x)
    decreases |identities|
  {
    if identities == [] then []
    else
      var memo := GetRecords(records, identities[..|identities| - 1]);
      var identity := identities[|identities| - 1];
      assert identities == identities[..|identities| - 1] + [identity];
      var record := Lookup(records, identity).GetOr(Undefined);
      if record != Undefined && record !in memo then
        assert Distinct(memo + [record]) by {
          forall i, j | 0 <= i < j < |memo + [record]| ensures (memo + [record])[i] != (memo + [record])[j] {
            if j == |memo| { assert (memo + [record])[i] == memo[i]; }
          }
        }
        memo + [record]
      else memo
  }

  /** `getRecords` lists the records in request order: a record comes
      before another exactly when it was requested first. */
  lemma {:induction false} GetRecordsInRequestOrder(records: Records, identities: seq<Value>)
    ensures var r := GetRecords(records, identities);
      forall i, j | 0 <= i < j < |r| :: FirstRequest(records, identities, r[i]) < FirstRequest(records, identities, r[j])
    decreases |identities|
  {
    if identities != [] {
      var prefix := identities[..|identities| - 1];
      var identity := identities[|identities| - 1];
      assert identities == prefix + [identity];
      var memo := GetRecords(records, prefix);
      var record := Lookup(records, identity).GetOr(Undefined);
      var r := GetRecords(records, identities);
      assert r == if record != Undefined && record !in memo then memo + [record] else memo;
      GetRecordsInRequestOrder(records, prefix);
      MemoPositionsKept(records, prefix, identity);
      if record != Undefined && record !in memo {
        NewRecordIsLast(records, prefix, identity);
        forall i, j | 0 <= i < j < |r| ensures FirstRequest(records, identities, r[i]) < FirstRequest(records, identities, r[j]) {
          assert r[i] == memo[i] && memo[i] in memo;
          if j < |memo| {
            assert r[j] == memo[j] && memo[j] in memo;
            assert FirstRequest(records, prefix, memo[i]) < FirstRequest(records, prefix, memo[j]);
          }
        }
      } else {
        forall i, j | 0 <= i < j < |r| ensures FirstRequest(records, identities, r[i]) < FirstRequest(records, identities, r[j]) {
          assert r[i] == memo[i] && memo[i] in memo;
          assert r[j] == memo[j] && memo[j] in memo;
          assert FirstRequest(records, prefix, memo[i]) < FirstRequest(records, prefix, memo[j]);
        }
      }
    }
  }

  /** A record `getRecords` listed for the first requests keeps its first
      position when one more request follows. */
  lemma MemoPositionsKept(records: Records, prefix: seq<Value>, identity: Value)
    ensures forall x | x in GetRecords(records, prefix) ::
      FirstRequest(records, prefix + [identity], x) == FirstRequest(records, prefix, x) < |prefix|
  {
    forall x | x in GetRecords(records, prefix)
      ensures FirstRequest(records, prefix + [identity], x) == FirstRequest(records, prefix, x) < |prefix|
    {
      var id :| id in prefix && Lookup(records, id) == Some(x);
      var p :| 0 <= p < |prefix| && prefix[p] == id;
      FirstRequestExtends(records, prefix, identity, x);
    }
  }

  /** A record the last request adds is first requested there. */
  lemma NewRecordIsLast(records: Records, prefix: seq<Value>, identity: Value)
    requires Lookup(records, identity).GetOr(Undefined) != Undefined
    requires Lookup(records, identity).GetOr(Undefined) !in GetRecords(records, prefix)
    ensures FirstRequest(records, prefix + [identity], Lookup(records, identity).GetOr(Undefined)) == |prefix|
  {
    FirstRequestExtends(records, prefix, identity, Lookup(records, identity).GetOr(Undefined));
  }

  /** Validates a record about to be written (`validateRecord`, against the
      table before the write) and the table after it (`validateTable`). */
  function Commit(b: Behaviour, records: Records, identity: Value, record: Value): (r: Result<Records, Error>)
    ensures r.Ok? <==> !Truthy(b.testRecord(record, identity, records)) && !Truthy(b.testTable(Set(records, identity, record)))
    ensures r.Ok? ==> r.value == Set(records, identity, record)
  {
    var recordError := b.testRecord(record, identity, records);
    if Truthy(recordError) then Err(ToError(recordError, "error"))
    else
      var next := Set(records, identity, record);
      var tableError := b.testTable(next);
      if Truthy(tableError) then Err(ToError(tableError, "error")) else Ok(next)
  }

  /** What `add(data, identity, replace)` writes: an identity and a record.
      Without an identity the record is created first and its identity derived
      from it; an identity that cannot be derived, or one already present
      when `replace` is off, is an error. */
  function AddPlan(b: Behaviour, tableName: Value, records: Records, data: Value, identity: Value, replace: bool, uuid: Value)
    : (r: Result<(Value, Value), Error>)
    ensures identity != Undefined && r.Ok? ==> r.value.0 == identity
    ensures r.Ok? ==> r.value.0 != Undefined
    ensures r.Ok? && !replace ==> !Has(records, r.value.0)
    ensures identity != Undefined && Has(records, identity) && !replace ==> r.Err?
    ensures identity == Undefined && IdentityFor(b.identity, records, data, uuid) == Ok(Undefined) && b.creator.KeepData? ==> r.Err?
    ensures identity != Undefined && r.Ok? ==> ProcessData(b, records, data, identity) == Ok(r.value.1)
    ensures identity == Undefined && r.Ok? ==>
      var c := ProcessData(b, records, data, Undefined);
      && c.Ok? && IdentityFor(b.identity, records, c.value, uuid) == Ok(r.value.0)
      && (c.value != Undefined ==> r.value.1 == c.value)
      && (c.value == Undefined ==> ProcessData(b, records, data, r.value.0) == Ok(r.value.1))
  {
    if identity == Undefined then
      var created :- ProcessData(b, records, data, Undefined);
      var id :- IdentityFor(b.identity, records, created, uuid);
      if id == Undefined then Fail("add: cannot add unidentified record to t " + ToStr(tableName))
      else if Has(records, id) && !replace then Fail("add: cannot assert data over existing identityFromRecord unless replace = true")
      else if created == Undefined then
        var record :- ProcessData(b, records, data, id);
        Ok((id, record))
      else Ok((id, created))
    else if Has(records, identity) && !replace then Fail("add: cannot assert data over existing identityFromRecord unless replace = true")
    else
      var record :- ProcessData(b, records, data, identity);
      Ok((identity, record))
  }

  function AddSpec(b: Behaviour, tableName: Value, records: Records, data: Value, identity: Value, replace: bool, uuid: Value)
    : Result<Records, Error>
  {
    var (id, record) :- AddPlan(b, tableName, records, data, identity, replace, uuid);
    Commit(b, records, id, record)
  }

  /** What `update(identity, data, upsert)` writes: the processed data under
      the identity, which must exist unless `upsert` is on. */
  function UpdatePlan(b: Behaviour, records: Records, identity: Value, data: Value, upsert: bool): (r: Result<Value, Error>)
    ensures !upsert && !Has(records, identity) ==> r.Err?
    ensures r.Ok? ==> ProcessData(b, records, data, identity) == Ok(r.value)
    ensures (upsert || Has(records, identity)) ==> r == ProcessData(b, records, data, identity)
  {
    if !(upsert || Has(records, identity)) then Fail("update: record does not exist")
    else ProcessData(b, records, data, identity)
  }

  function UpdateSpec(b: Behaviour, records: Records, identity: Value, data: Value, upsert: bool): Result<Records, Error> {
    var record :- UpdatePlan(b, records, identity, data, upsert);
    Commit(b, records, identity, record)
  }

  /** `delete(identity)`: nothing for an absent identity; otherwise the key
      is removed, provided the table still validates. */
  function DeleteSpec(b: Behaviour, records: Records, identity: Value): (r: Result<Records, Error>)
    ensures !Has(records, identity) ==> r == Ok(records)
    ensures Has(records, identity) ==> (r.Ok? <==> !Truthy(b.testTable(Delete(records, identity))))
    ensures Has(records, identity) && r.Ok? ==> r.value == Delete(records, identity)
  {
    if !Has(records, identity) then Ok(records)
    else
      var next := Delete(records, identity);
      var tableError := b.testTable(next);
      if Truthy(tableError) then Err(ToError(tableError, "error")) else Ok(next)
  }

  /** `setField(identity, field, value)`: an update whose data is the current
      record with one field set. */
  function SetFieldPlan(records: Records, identity: Value, field: Value, value: Value): (r: Result<Value, Error>)
    ensures !Has(records, identity) ==> r.Err?
    ensures r.Ok? ==> Has(records, identity) && ValueAt(r.value, field) == value
    ensures r.Ok? && Get(records, identity).Obj? ==> forall other | ToStr(other) != ToStr(field) ::
      ValueAt(r.value, other) == ValueAt(Get(records, identity), other)
  {
    if !Has(records, identity) then Fail("updateField cannot get identity " + ToStr(identity) + "from table")
    else
      var current := Get(records, identity);
      match PutAt(current, field, value)
      case None => Fail("cannot set field")
      case Some(next) =>
        assert current.Obj? ==> forall other | ToStr(other) != ToStr(field) :: ValueAt(next, other) == ValueAt(current, other) by {
          if current.Obj? {
            forall other | ToStr(other) != ToStr(field) ensures ValueAt(next, other) == ValueAt(current, other) {
              PutOtherKey(current, field, other, value);
            }
          }
        }
        Ok(next)
  }

  function SetFieldSpec(b: Behaviour, records: Records, identity: Value, field: Value, value: Value): Result<Records, Error> {
    var data :- SetFieldPlan(records, identity, field, value);
    UpdateSpec(b, records, identity, data, false)
  }

  /** With the default hooks, a successful `setField` writes the record with
      that one field changed and every other field as it was. */
  lemma SetFieldChangesOneField(b: Behaviour, records: Records, identity: Value, field: Value, value: Value)
    requires b.creator == KeepData && b.updater == SameAsCreator
    requires SetFieldSpec(b, records, identity, field, value).Ok?
    ensures Has(records, identity)
    ensures var after := SetFieldSpec(b, records, identity, field, value).value;
      && after == Set(records, identity, Get(after, identity))
      && ValueAt(Get(after, identity), field) == value
      && (Get(records, identity).Obj? ==> forall other | ToStr(other) != ToStr(field) ::
            ValueAt(Get(after, identity), other) == ValueAt(Get(records, identity), other))
  {
    var data := SetFieldPlan(records, identity, field, value).value;
    assert UpdatePlan(b, records, identity, data, false) == Ok(data);
  }

  /** How `updateMany` receives its data: a list of records, whose
      identities the table derives, or records keyed by identity (an object
      or a Map), where `undefined` asks for the key's removal. */
  datatype Batch = Datas(items: seq<Value>) | Keyed(pairs: Records)

  /** The `recordMap` of a list: each record created against the table as it
      was before the call, then filed under the identity derived from it
      (`uuid(i)` being the identifier item `i` would be given). */
  function FromDatas(b: Behaviour, records: Records, items: seq<Value>, uuid: nat -> Value): (r: Result<Records, Error>)
    decreases |items|
  {
    if items == [] then Ok(Empty())
    else
      var i := |items| - 1;
      var acc :- FromDatas(b, records, items[..i], uuid);
      var record :- ProcessData(b, records, items[i], Undefined);
      var identity :- IdentityFor(b.identity, records, record, uuid(i));
      Ok(Set(acc, identity, record))
  }

  /** The `recordMap` of keyed data: `undefined` stays `undefined`, anything
      else is processed under its key. */
  function FromKeyed(b: Behaviour, records: Records, pairs: Records, ks: seq<Value>): (r: Result<Records, Error>)
    requires forall k | k in ks :: Has(pairs, k)
    ensures r.Ok? ==> forall k :: Has(r.value, k) <==> k in ks
    decreases |ks|
  {
    if ks == [] then Ok(Empty())
    else
      var k := ks[|ks| - 1];
      var acc :- FromKeyed(b, records, pairs, ks[..|ks| - 1]);
      assert ks == ks[..|ks| - 1] + [k];
      var data := Get(pairs, k);
      if data == Undefined then Ok(Set(acc, k, Undefined))
      else
        var record :- ProcessData(b, records, data, k);
        Ok(Set(acc, k, record))
  }

  function RecordMap(b: Behaviour, records: Records, batch: Batch, uuid: nat -> Value): Result<Records, Error> {
    match batch
    case Datas(items) => FromDatas(b, records, items, uuid)
    case Keyed(pairs) => FromKeyed(b, records, pairs, pairs.keys)
  }

  function IsDefined(v: Value): bool { v != Undefined }

  /** The first defined record, in map order, that `validateRecords` rejects. */
  function Rejection(b: Behaviour, records: Records, defined: Records, ks: seq<Value>): Option<Error>
    requires forall k | k in ks :: Has(defined, k)
    decreases |ks|
  {
    if ks == [] then None
    else
      var k := ks[|ks| - 1];
      var earlier := Rejection(b, records, defined, ks[..|ks| - 1]);
      if earlier.Some? then earlier
      else
        var error := b.testRecord(Get(defined, k), k, records);
        if Truthy(error) then Some(ToError(error, "error")) else None
  }

  /** The table after the non-replacing `updateMany` loop over `ks`: an
      `undefined` entry deletes its key, a defined one sets it. */
  function Merged(records: Records, recordMap: Records, ks: seq<Value>): Records
    requires forall k | k in ks :: Has(recordMap, k)
    decreases |ks|
  {
    if ks == [] then records
    else
      var k := ks[|ks| - 1];
      var before := Merged(records, recordMap, ks[..|ks| - 1]);
      if Get(recordMap, k) == Undefined then Delete(before, k) else Set(before, k, Get(recordMap, k))
  }

  /** Merging deletes exactly the keys mapped to `undefined`, sets exactly
      the keys mapped to a record, and leaves every other key alone. */
  lemma {:induction false} MergedAt(records: Records, recordMap: Records, ks: seq<Value>, k: Value)
    requires forall j | j in ks :: Has(recordMap, j)
    ensures k in ks && Get(recordMap, k) == Undefined ==> !Has(Merged(records, recordMap, ks), k)
    ensures k in ks && Get(recordMap, k) != Undefined ==>
      Has(Merged(records, recordMap, ks), k) && Get(Merged(records, recordMap, ks), k) == Get(recordMap, k)
    ensures k !in ks ==> Lookup(Merged(records, recordMap, ks), k) == Lookup(records, k)
    decreases |ks|
  {
    if ks != [] {
      var last := ks[|ks| - 1];
      var init := ks[..|ks| - 1];
      assert ks == init + [last];
      assert k in ks <==> k in init || k == last;
      MergedAt(records, recordMap, init, k);
      var before := Merged(records, recordMap, init);
      if k != last {
        assert Lookup(Merged(records, recordMap, ks), k) == Lookup(before, k);
      }
    }
  }

  /** `updateMany(data, replace)`: the record map it returns and the table it
      leaves.  With `replace` the table becomes the defined records; without,
      they are merged in. */
  function UpdateManySpec(b: Behaviour, records: Records, batch: Batch, replace: bool, uuid: nat -> Value)
    : Result<(Records, Records), Error>
  {
    var recordMap :- RecordMap(b, records, batch, uuid);
    var defined := Filter(recordMap, IsDefined);
    var rejection := Rejection(b, records, defined, defined.keys);
    if rejection.Some? then Err(rejection.value)
    else
      var next := if replace then defined else Merged(records, recordMap, recordMap.keys);
      var tableError := b.testTable(next);
      if Truthy(tableError) then Err(ToError(tableError, "error")) else Ok((recordMap, next))
  }

  /** The table a successful `updateMany` leaves, in terms of its record map. */
  lemma UpdateManyResult(b: Behaviour, records: Records, batch: Batch, replace: bool, uuid: nat -> Value)
    requires UpdateManySpec(b, records, batch, replace, uuid).Ok?
    ensures RecordMap(b, records, batch, uuid).Ok?
    ensures UpdateManySpec(b, records, batch, replace, uuid).value.0 == RecordMap(b, records, batch, uuid).value
    ensures var recordMap := RecordMap(b, records, batch, uuid).value;
      UpdateManySpec(b, records, batch, replace, uuid).value.1
        == if replace then Filter(recordMap, IsDefined) else Merged(records, recordMap, recordMap.keys)
  {
  }

  /** A successful `updateMany` with `replace` leaves exactly the defined
      records; without it, keys it maps to `undefined` are gone, keys it maps
      to records hold them and keys it does not mention are untouched. */
  lemma UpdateManyOutcome(b: Behaviour, records: Records, batch: Batch, replace: bool, uuid: nat -> Value, k: Value)
    requires UpdateManySpec(b, records, batch, replace, uuid).Ok?
    ensures var recordMap := UpdateManySpec(b, records, batch, replace, uuid).value.0;
      var next := UpdateManySpec(b, records, batch, replace, uuid).value.1;
      && (replace ==> (Has(next, k) <==> Has(recordMap, k) && Get(recordMap, k) != Undefined))
      && (replace && Has(next, k) ==> Get(next, k) == Get(recordMap, k))
      && (!replace && Has(recordMap, k) && Get(recordMap, k) == Undefined ==> !Has(next, k))
      && (!replace && Has(recordMap, k) && Get(recordMap, k) != Undefined ==> Has(next, k) && Get(next, k) == Get(recordMap, k))
      && (!replace && !Has(recordMap, k) ==> Lookup(next, k) == Lookup(records, k))
  {
    UpdateManyResult(b, records, batch, replace, uuid);
    var recordMap := RecordMap(b, records, batch, uuid).value;
    var next := UpdateManySpec(b, records, batch, replace, uuid).value.1;
    if replace {
      assert next == Filter(recordMap, IsDefined);
    } else {
      assert next == Merged(records, recordMap, recordMap.keys);
      MergedAt(records, recordMap, recordMap.keys, k);
    }
  }

  class Table {
    const name: Value
    const behaviour: Behaviour
    const joinCache: JoinCache
    var records: Records

    constructor (name: Value, behaviour: Behaviour)
      ensures this.name == name && this.behaviour == behaviour
      ensures records == Empty()
      ensures fresh(joinCache) && joinCache.entries == None
    {
      this.name := name;
      this.behaviour := behaviour;
      joinCache := new JoinCache();
      records := Empty();
    }

    function Get(identity: Value): Value
      reads this
    {
      Lookup(records, identity).GetOr(Undefined)
    }

    predicate Has(identity: Value)
      reads this
    {
      identity in records.vals
    }

    function Size(): nat
      reads this
    {
      |records.keys|
    }

    /** `$set(identity, record)`. */
    method SetRecord(identity: Value, record: Value)
      modifies this
      ensures records == Set(old(records), identity, record)
    {
      records := Set(records, identity, record);
    }

    /** `$coll.deleteKey(identity)`. */
    method DeleteKey(identity: Value)
      modifies this
      ensures records == OrderedMaps.Delete(old(records), identity)
    {
      records := OrderedMaps.Delete(records, identity);
    }

    /** Writes one record and validates the table; if the table fails, the
        record change is reverted: a new key is deleted again, an existing
        one gets its previous record back (`revertRecordChange`). */
    method WriteValidated(identity: Value, record: Value) returns (r: Result<(), Error>)
      modifies this
      ensures var s := Commit(behaviour, old(records), identity, record);
        && (r.Ok? <==> s.Ok?)
        && (s.Ok? ==> records == s.value)
        && (s.Err? ==> records == old(records) && r.error == s.error)
    {
      var recordExists := OrderedMaps.Has(records, identity);
      var previous := Get(identity);
      var recordError := behaviour.testRecord(record, identity, records);
      if Truthy(recordError) {
        return Err(ToError(recordError, "error"));
      }
      ghost var before := records;
      SetRecord(identity, record);
      var tableError := behaviour.testTable(records);
      if Truthy(tableError) {
        if !recordExists {
          DeleteKey(identity);
          DeleteUndoesInsert(before, identity, record);
        } else {
          SetRecord(identity, previous);
          SetBackUndoesOverwrite(before, identity, record);
        }
        return Err(ToError(tableError, "error"));
      }
      r := Ok(());
    }

    /** The `add` handler. */
    method Add(data: Value, identity: Value, replace: bool, uuid: Value) returns (r: Result<(), Error>)
      modifies this
      ensures var s := AddSpec(behaviour, name, old(records), data, identity, replace, uuid);
        && (r.Ok? <==> s.Ok?)
        && (s.Ok? ==> records == s.value)
        && (s.Err? ==> records == old(records) && r.error == s.error)
    {
      var plan := AddPlan(behaviour, name, records, data, identity, replace, uuid);
      if plan.Err? {
        return Err(plan.error);
      }
      r := WriteValidated(plan.value.0, plan.value.1);
    }

    /** The `update` handler. */
    method Update(identity: Value, data: Value, upsert: bool) returns (r: Result<(), Error>)
      modifies this
      ensures var s := UpdateSpec(behaviour, old(records), identity, data, upsert);
        && (r.Ok? <==> s.Ok?)
        && (s.Ok? ==> records == s.value)
        && (s.Err? ==> records == old(records) && r.error == s.error)
    {
      if !(upsert || OrderedMaps.Has(records, identity)) {
        return Fail("update: record does not exist");
      }
      var record := ProcessData(behaviour, records, data, identity);
      if record.Err? {
        return Err(record.error);
      }
      r := WriteValidated(identity, record.value);
    }

    /** The `delete` handler: on a failed table validation the snapshot taken
        before the deletion is restored (`restoreTable`). */
    method Delete(identity: Value) returns (r: Result<(), Error>)
      modifies this
      ensures var s := DeleteSpec(behaviour, old(records), identity);
        && (r.Ok? <==> s.Ok?)
        && (s.Ok? ==> records == s.value)
        && (s.Err? ==> records == old(records) && r.error == s.error)
    {
      if !OrderedMaps.Has(records, identity) {
        return Ok(());
      }
      var backup := records;
      DeleteKey(identity);
      var tableError := behaviour.testTable(records);
      if Truthy(tableError) {
        records := backup;
        return Err(ToError(tableError, "error"));
      }
      r := Ok(());
    }

    /** The `setField` handler: a clone of the record with the field set,
        written by the `update` handler. */
    method SetField(identity: Value, field: Value, value: Value) returns (r: Result<(), Error>)
      modifies this
      ensures var s := SetFieldSpec(behaviour, old(records), identity, field, value);
        && (r.Ok? <==> s.Ok?)
        && (s.Ok? ==> records == s.value)
        && (s.Err? ==> records == old(records))
    {
      if !OrderedMaps.Has(records, identity) {
        return Fail("updateField cannot get identity " + ToStr(identity) + "from table");
      }
      var next := PutAt(Get(identity), field, value);
      if next.None? {
        return Fail("cannot set field");
      }
      r := Update(identity, next.value, false);
    }

    /** The `updateMany` handler.  The table is backed up first; a rejected
        record or a failed table validation restores the backup. */
    method UpdateMany(batch: Batch, replace: bool, uuid: nat -> Value) returns (r: Result<Records, Error>)
      modifies this
      ensures var s := UpdateManySpec(behaviour, old(records), batch, replace, uuid);
        && (r.Ok? <==> s.Ok?)
        && (s.Ok? ==> records == s.value.1 && r.value == s.value.0)
        && (s.Err? ==> records == old(records) && r.error == s.error)
    {
      var recordMap := BuildRecordMap(batch, uuid);
      if recordMap.Err? {
        return Err(recordMap.error);
      }
      var rm := recordMap.value;
      var backup := records;
      var defined := Filter(rm, IsDefined);
      var rejected := TestRecords(defined);
      if rejected.Some? {
        return Err(rejected.value);
      }
      if replace {
        records := defined;
      } else {
        MergeIn(rm);
      }
      var tableError := behaviour.testTable(records);
      if Truthy(tableError) {
        records := backup;
        return Err(ToError(tableError, "error"));
      }
      r := Ok(rm);
    }

    /** `updateMany`'s first loop: each defined record run past `testRecord`,
        stopping at the first one it rejects. */
    method TestRecords(defined: Records) returns (e: Option<Error>)
      ensures e == Rejection(behaviour, records, defined, defined.keys)
    {
      var i := 0;
      while i < |defined.keys|
        invariant 0 <= i <= |defined.keys|
        invariant Rejection(behaviour, records, defined, defined.keys[..i]) == None
      {
        var identity := defined.keys[i];
        RejectionSnoc(behaviour, records, defined, defined.keys, i);
        var error := behaviour.testRecord(OrderedMaps.Get(defined, identity), identity, records);
        if Truthy(error) {
          RejectionExtends(behaviour, records, defined, defined.keys, i + 1);
          return Some(ToError(error, "error"));
        }
        i := i + 1;
      }
      assert defined.keys[..i] == defined.keys;
      e := None;
    }

    /** `updateMany`'s merging loop: a key mapped to `undefined` is deleted,
        any other is set. */
    method MergeIn(rm: Records)
      modifies this
      ensures records == Merged(old(records), rm, rm.keys)
    {
      var j := 0;
      while j < |rm.keys|
        invariant 0 <= j <= |rm.keys|
        invariant records == Merged(old(records), rm, rm.keys[..j])
      {
        var identity := rm.keys[j];
        MergedSnoc(old(records), rm, rm.keys, j);
        var record := OrderedMaps.Get(rm, identity);
        if record == Undefined {
          DeleteKey(identity);
        } else {
          SetRecord(identity, record);
        }
        j := j + 1;
      }
      assert rm.keys[..j] == rm.keys;
    }

    /** The loop that turns `updateMany`'s data into its record map. */
    method BuildRecordMap(batch: Batch, uuid: nat -> Value) returns (r: Result<Records, Error>)
      ensures r == RecordMap(behaviour, records, batch, uuid)
    {
      match batch {
        case Datas(items) => r := RecordMapOfDatas(items, uuid);
        case Keyed(pairs) => r := RecordMapOfKeyed(pairs);
      }
    }

    method RecordMapOfDatas(items: seq<Value>, uuid: nat -> Value) returns (r: Result<Records, Error>)
      ensures r == FromDatas(behaviour, records, items, uuid)
    {
      var recordMap: Records := Empty();
      var i := 0;
      while i < |items|
        invariant 0 <= i <= |items|
        invariant FromDatas(behaviour, records, items[..i], uuid) == Ok(recordMap)
      {
        FromDatasStep(behaviour, records, items, uuid, i, recordMap);
        var record := ProcessData(behaviour, records, items[i], Undefined);
        if record.Err? {
          FromDatasErrExtends(behaviour, records, items, uuid, i + 1);
          return Err(record.error);
        }
        var identity := IdentityFor(behaviour.identity, records, record.value, uuid(i));
        if identity.Err? {
          FromDatasErrExtends(behaviour, records, items, uuid, i + 1);
          return Err(identity.error);
        }
        recordMap := Set(recordMap, identity.value, record.value);
        i := i + 1;
      }
      assert items[..i] == items;
      r := Ok(recordMap);
    }

    method RecordMapOfKeyed(pairs: Records) returns (r: Result<Records, Error>)
      ensures r == FromKeyed(behaviour, records, pairs, pairs.keys)
    {
      var recordMap: Records := Empty();
      var i := 0;
      while i < |pairs.keys|
        invariant 0 <= i <= |pairs.keys|
        invariant FromKeyed(behaviour, records, pairs, pairs.keys[..i]) == Ok(recordMap)
      {
        var k := pairs.keys[i];
        assert pairs.keys[..i + 1][..i] == pairs.keys[..i];
        var data := OrderedMaps.Get(pairs, k);
        if data == Undefined {
          recordMap := Set(recordMap, k, Undefined);
        } else {
          var record := ProcessData(behaviour, records, data, k);
          if record.Err? {
            FromKeyedErrExtends(behaviour, records, pairs, pairs.keys, i + 1);
            return Err(record.error);
          }
          recordMap := Set(recordMap, k, record.value);
        }
        i := i + 1;
      }
      assert pairs.keys[..i] == pairs.keys;
      r := Ok(recordMap);
    }

    /** The array form of the constructor's `records`: every record is created
        first, against the empty table, then each is filed under the
        identity derived from it.  An error discards the table. */
    method LoadRecords(datas: seq<Value>, uuid: nat -> Value) returns (r: Result<(), Error>)
      modifies this
      ensures var s := Loaded(behaviour, old(records), datas, uuid);
        (r.Ok? <==> s.Ok?) && (s.Ok? ==> records == s.value)
    {
      var created := CreateRecords(datas);
      if created.Err? {
        return Err(created.error);
      }
      r := FileRecords(created.value, uuid);
    }

    /** The constructor's first loop: every record run through `processData`. */
    method CreateRecords(datas: seq<Value>) returns (r: Result<seq<Value>, Error>)
      ensures r == CreateAll(behaviour, records, datas)
    {
      var created: seq<Value> := [];
      var i := 0;
      while i < |datas|
        invariant 0 <= i <= |datas|
        invariant CreateAll(behaviour, records, datas[..i]) == Ok(created)
      {
        assert datas[..i + 1][..i] == datas[..i];
        var record := ProcessData(behaviour, records, datas[i], Undefined);
        if record.Err? {
          CreateAllErrExtends(behaviour, records, datas, i + 1);
          return Err(record.error);
        }
        created := created + [record.value];
        i := i + 1;
      }
      assert datas[..i] == datas;
      r := Ok(created);
    }

    /** The constructor's second loop: each created record filed under the
        identity derived from it. */
    method FileRecords(created: seq<Value>, uuid: nat -> Value) returns (r: Result<(), Error>)
      modifies this
      ensures var s := FileAll(behaviour, old(records), created, uuid);
        (r.Ok? <==> s.Ok?) && (s.Ok? ==> records == s.value)
    {
      var j := 0;
      while j < |created|
        invariant 0 <= j <= |created|
        invariant FileAll(behaviour, old(records), created[..j], uuid) == Ok(records)
      {
        assert created[..j + 1][..j] == created[..j];
        var identity := IdentityFor(behaviour.identity, records, created[j], uuid(j));
        if identity.Err? {
          FileAllErrExtends(behaviour, old(records), created, uuid, j + 1);
          return Err(identity.error);
        }
        SetRecord(identity.value, created[j]);
        j := j + 1;
      }
      assert created[..j] == created;
      r := Ok(());
    }
  }

  /** One more key for `Rejection` and `Merged`: the step their loops take. */
  lemma RejectionSnoc(b: Behaviour, records: Records, defined: Records, ks: seq<Value>, i: nat)
    requires forall k | k in ks :: Has(defined, k)
    requires i < |ks|
    ensures Rejection(b, records, defined, ks[..i + 1]) ==
      var earlier := Rejection(b, records, defined, ks[..i]);
      if earlier.Some? then earlier
      else
        var error := b.testRecord(Get(defined, ks[i]), ks[i], records);
        if Truthy(error) then Some(ToError(error, "error")) else None
  {
    assert ks[..i + 1][..i] == ks[..i];
  }

  lemma MergedSnoc(records: Records, recordMap: Records, ks: seq<Value>, i: nat)
    requires forall k | k in ks :: Has(recordMap, k)
    requires i < |ks|
    ensures Merged(records, recordMap, ks[..i + 1]) ==
      var before := Merged(records, recordMap, ks[..i]);
      if Get(recordMap, ks[i]) == Undefined then Delete(before, ks[i]) else Set(before, ks[i], Get(recordMap, ks[i]))
  {
    assert ks[..i + 1][..i] == ks[..i];
  }

  /** A rejection found among the first `n` keys stays the rejection of all. */
  lemma {:induction false} RejectionExtends(b: Behaviour, records: Records, defined: Records, ks: seq<Value>, n: nat)
    requires forall k | k in ks :: Has(defined, k)
    requires n <= |ks|
    requires Rejection(b, records, defined, ks[..n]).Some?
    ensures Rejection(b, records, defined, ks) == Rejection(b, records, defined, ks[..n])
    decreases |ks| - n
  {
    if n < |ks| {
      assert ks[..n + 1][..n] == ks[..n];
      RejectionExtends(b, records, defined, ks, n + 1);
    } else {
      assert ks[..n] == ks;
    }
  }

  lemma {:induction false} FromDatasErrExtends(b: Behaviour, records: Records, items: seq<Value>, uuid: nat -> Value, n: nat)
    requires n <= |items|
    requires FromDatas(b, records, items[..n], uuid).Err?
    ensures FromDatas(b, records, items, uuid) == FromDatas(b, records, items[..n], uuid)
    decreases |items| - n
  {
    if n < |items| {
      assert items[..n + 1][..n] == items[..n];
      FromDatasErrExtends(b, records, items, uuid, n + 1);
    } else {
      assert items[..n] == items;
    }
  }

  /** One more item of a list: its record is created and filed under its
      identity, or its error ends the list's record map. */
  lemma FromDatasStep(b: Behaviour, records: Records, items: seq<Value>, uuid: nat -> Value, i: nat, acc: Records)
    requires i < |items|
    requires FromDatas(b, records, items[..i], uuid) == Ok(acc)
    ensures var record := ProcessData(b, records, items[i], Undefined);
      && (record.Err? ==> FromDatas(b, records, items[..i + 1], uuid) == Err(record.error))
      && (record.Ok? ==>
            var identity := IdentityFor(b.identity, records, record.value, uuid(i));
            && (identity.Err? ==> FromDatas(b, records, items[..i + 1], uuid) == Err(identity.error))
            && (identity.Ok? ==> FromDatas(b, records, items[..i + 1], uuid) == Ok(Set(acc, identity.value, record.value))))
  {
    assert items[..i + 1][..i] == items[..i];
  }

  lemma {:induction false} FromKeyedErrExtends(b: Behaviour, records: Records, pairs: Records, ks: seq<Value>, n: nat)
    requires forall k | k in ks :: Has(pairs, k)
    requires n <= |ks|
    requires FromKeyed(b, records, pairs, ks[..n]).Err?
    ensures FromKeyed(b, records, pairs, ks) == FromKeyed(b, records, pairs, ks[..n])
    decreases |ks| - n
  {
    if n < |ks| {
      assert ks[..n + 1][..n] == ks[..n];
      FromKeyedErrExtends(b, records, pairs, ks, n + 1);
    } else {
      assert ks[..n] == ks;
    }
  }

  lemma {:induction false} CreateAllErrExtends(b: Behaviour, records: Records, datas: seq<Value>, n: nat)
    requires n <= |datas|
    requires CreateAll(b, records, datas[..n]).Err?
    ensures CreateAll(b, records, datas) == CreateAll(b, records, datas[..n])
    decreases |datas| - n
  {
    if n < |datas| {
      assert datas[..n + 1][..n] == datas[..n];
      CreateAllErrExtends(b, records, datas, n + 1);
    } else {
      assert datas[..n] == datas;
    }
  }

  lemma {:induction false} FileAllErrExtends(b: Behaviour, records: Records, created: seq<Value>, uuid: nat -> Value, n: nat)
    requires n <= |created|
    requires FileAll(b, records, created[..n], uuid).Err?
    ensures FileAll(b, records, created, uuid) == FileAll(b, records, created[..n], uuid)
    decreases |created| - n
  {
    if n < |created| {
      assert created[..n + 1][..n] == created[..n];
      FileAllErrExtends(b, records, created, uuid, n + 1);
    } else {
      assert created[..n] == created;
    }
  }

  /** Every record of a list created against the same table. */
  function CreateAll(b: Behaviour, records: Records, datas: seq<Value>): (r: Result<seq<Value>, Error>)
    ensures r.Ok? ==> |r.value| == |datas|
    decreases |datas|
  {
    if datas == [] then Ok([])
    else
      var init :- CreateAll(b, records, datas[..|datas| - 1]);
      var record :- ProcessData(b, records, datas[|datas| - 1], Undefined);
      Ok(init + [record])
  }

  /** Files each record under its identity in turn, the identity rule seeing
      the table as filled so far. */
  function FileAll(b: Behaviour, records: Records, created: seq<Value>, uuid: nat -> Value): (r: Result<Records, Error>)
    decreases |created|
  {
    if created == [] then Ok(records)
    else
      var i := |created| - 1;
      var acc :- FileAll(b, records, created[..i], uuid);
      var identity :- IdentityFor(b.identity, acc, created[i], uuid(i));
      Ok(Set(acc, identity, created[i]))
  }

  function Loaded(b: Behaviour, records: Records, datas: seq<Value>, uuid: nat -> Value): Result<Records, Error> {
    var created :- CreateAll(b, records, datas);
    FileAll(b, records, created, uuid)
  }

  /** Loading keeps every key it had, and the table holds no more entries
      than it had plus the records loaded. */
  lemma {:induction false} FileAllBound(b: Behaviour, records: Records, created: seq<Value>, uuid: nat -> Value)
    requires FileAll(b, records, created, uuid).Ok?
    ensures |FileAll(b, records, created, uuid).value.keys| <= |records.keys| + |created|
    ensures forall k | Has(records, k) :: Has(FileAll(b, records, created, uuid).value, k)
    decreases |created|
  {
    if created != [] {
      FileAllBound(b, records, created[..|created| - 1], uuid);
    }
  }

  /** Record `i` of the loaded records is filed under `id`: the identity
      rule, run against the table as filled by the records before it,
      gives `id`. */
  predicate FiledAt(b: Behaviour, records: Records, created: seq<Value>, uuid: nat -> Value, i: nat, id: Value)
    requires i < |created|
  {
    var acc := FileAll(b, records, created[..i], uuid);
    acc.Ok? && IdentityFor(b.identity, acc.value, created[i], uuid(i)) == Ok(id)
  }

  /** The constructor's `forEach` files each record under its identity: the
      loaded table has every such identity, and holds record `i` under it
      unless a later record was filed under the same identity. */
  lemma {:induction false} FileAllLastWins(b: Behaviour, records: Records, created: seq<Value>, uuid: nat -> Value, i: nat, id: Value)
    requires FileAll(b, records, created, uuid).Ok?
    requires i < |created| && FiledAt(b, records, created, uuid, i, id)
    ensures Has(FileAll(b, records, created, uuid).value, id)
    ensures (forall l | i < l < |created| :: !FiledAt(b, records, created, uuid, l, id)) ==>
      Lookup(FileAll(b, records, created, uuid).value, id) == Some(created[i])
    decreases |created|
  {
    var n := |created|;
    var p := created[..n - 1];
    var acc := FileAll(b, records, p, uuid).value;
    var last := IdentityFor(b.identity, acc, created[n - 1], uuid(n - 1)).value;
    assert FileAll(b, records, created, uuid).value == Set(acc, last, created[n - 1]);
    if i == n - 1 {
      assert created[..i] == p;
      assert id == last;
    } else {
      FiledAtPrefix(b, records, created, uuid, i, id);
      FileAllLastWins(b, records, p, uuid, i, id);
      assert FiledAt(b, records, created, uuid, n - 1, last);
      forall l | i < l < |p| ensures FiledAt(b, records, p, uuid, l, id) == FiledAt(b, records, created, uuid, l, id) {
        FiledAtPrefix(b, records, created, uuid, l, id);
      }
      if last != id {
        assert Lookup(Set(acc, last, created[n - 1]), id) == Lookup(acc, id);
      }
    }
  }

  /** Dropping the last record changes no earlier record's filing. */
  lemma FiledAtPrefix(b: Behaviour, records: Records, created: seq<Value>, uuid: nat -> Value, l: nat, id: Value)
    requires l < |created| - 1
    ensures FiledAt(b, records, created[..|created| - 1], uuid, l, id) == FiledAt(b, records, created, uuid, l, id)
  {
    assert created[..|created| - 1][..l] == created[..l];
  }
}
