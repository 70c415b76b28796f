/** The configurable behaviour of a table: how a record is created and
    updated, how its identity is derived, and how records and the whole table
    are validated.  User callbacks are arrows; the two behaviours the store
    installs itself (the defaults and the association-table hooks of a via
    join) are named constructors so that their effect can be reasoned about. */
module Hooks {
  import opened Wrappers
  import opened Values
  import opened JoinTypes
  import opened JoinUtils
  import opened OrderedMaps

  /** An error thrown by the store: a message and, when a validator returned
      something other than a string, that value as its content. */
  datatype Error = Error(message: string, content: Value)

  function Fail<T>(message: string): Result<T, Error> {
    Err(Error(message, Undefined))
  }

  /** `toError(err, defaultMessage)` for the values a validator can return. */
  function ToError(thrown: Value, defaultMessage: string): (e: Error)
    ensures thrown.Str? ==> e.message == thrown.s && e.content == Undefined
    ensures !thrown.Str? ==> e.message == defaultMessage && e.content == thrown
  {
    if thrown.Str? then Error(thrown.s, Undefined) else Error(defaultMessage, thrown)
  }

  /** `onCreate(data, table)`. */
  datatype Creator =
    | KeepData                                                  // the default, `identityFn`
    | CreateWith(create: (Value, Records) -> Result<Value, Error>)
    | ViaCheck(viaName: string, fromName: Value, toName: Value) // installed by a via join

  /** `onUpdate(data, table, current)`; without one the creator is used. */
  datatype Updater =
    | SameAsCreator
    | UpdateWith(update: (Value, Records, Value) -> Result<Value, Error>)

  /** How a table derives a record's identity. */
  datatype IdentityRule =
    | Generated                                                 // `identifierFn`, a fresh uuid
    | Accessor(key: string)                                     // `record[key]`
    | Custom(identify: (Value, Records) -> Result<Value, Error>)
    | ViaKey(fromName: Value, toName: Value)                    // installed by a via join

  /** What a table configuration gives as `identityFromRecord`: a plain value
      or a function.  A function given as configuration is an arrow, so the
      opaque function values of `Value` do not occur here. */
  datatype IdentityArg = ArgValue(v: Value) | ArgFunction(f: (Value, Records) -> Result<Value, Error>)

  type IdentityOption = a: IdentityArg | !(a.ArgValue? && a.v.Fn?) witness ArgValue(Undefined)

  /** `strTest(value) || identifierFn`: a falsy value falls back to fresh
      identifiers, a string becomes a property accessor, a function is used
      as given, and anything else is rejected. */
  function StrTest(arg: IdentityOption): (r: Result<IdentityRule, Error>)
    ensures arg.ArgFunction? ==> r == Ok(Custom(arg.f))
    ensures arg.ArgValue? && !Truthy(arg.v) ==> r == Ok(Generated)
    ensures arg.ArgValue? && Truthy(arg.v) && arg.v.Str? ==> r == Ok(Accessor(arg.v.s))
    ensures r.Err? <==> arg.ArgValue? && Truthy(arg.v) && !arg.v.Str?
  {
    match arg
    case ArgFunction(f) => Ok(Custom(f))
    case ArgValue(v) =>
      if !Truthy(v) then Ok(Generated)
      else if v.Str? then Ok(Accessor(v.s))
      else Fail("identityFromRecord parser (if defined) must be string or function")
  }

  /** `viaKeys(data)`: the two identities an association record holds, under
      the names of the from and the to table. */
  function ViaKeys(fromName: Value, toName: Value, data: Value): (Value, Value) {
    (ValueAt(data, fromName), ValueAt(data, toName))
  }

  /** The identity of the association record linking `fromId` to `toId`:
      `${fromId}_$via$_${toId}`. */
  function ViaIdentity(fromId: Value, toId: Value): Value {
    Str(ToStr(fromId) + "_$via$_" + ToStr(toId))
  }

  /** The `onCreate` a via join gives its association table: the data must be
      an object carrying both table names, and both identities must be
      scalars. */
  function ViaCreate(viaName: string, fromName: Value, toName: Value, data: Value): (r: Result<Value, Error>)
    ensures r.Ok? ==> r.value == data
    ensures r.Ok? <==>
      && Truthy(data) && IsObject(data)
      && HasProp(data, ToStr(fromName)) && HasProp(data, ToStr(toName))
      && IsScalar(ViaKeys(fromName, toName, data).0) && IsScalar(ViaKeys(fromName, toName, data).1)
  {
    if !(Truthy(data) && IsObject(data) && HasProp(data, ToStr(fromName)) && HasProp(data, ToStr(toName))) then
      Fail(viaName + " missing table fields")
    else
      var (fromId, toId) := ViaKeys(fromName, toName, data);
      if !(IsScalar(fromId) && IsScalar(toId)) then Fail("via/intrinsic joins require scalar identities")
      else Ok(data)
  }

  /** The association record `{[fromTable]: fromId, [toTable]: toId}`. */
  function ViaRecord(fromName: Value, toName: Value, fromId: Value, toId: Value): Value {
    Obj(map[ToStr(fromName) := fromId, ToStr(toName) := toId])
  }

  /** The association table's two hooks agree with the record `linkVia`
      writes: between two differently named tables, a record linking scalar
      identities passes the `onCreate` check, and the identity the table
      derives from it is the one `linkVia` files it under.  Between a table
      and itself both names are one property, so the record loses `fromId`. */
  lemma ViaRecordAgreesWithHooks(viaName: string, fromName: Value, toName: Value, fromId: Value, toId: Value)
    requires ToStr(fromName) != ToStr(toName)
    requires IsScalar(fromId) && IsScalar(toId)
    ensures ViaCreate(viaName, fromName, toName, ViaRecord(fromName, toName, fromId, toId)).Ok?
    ensures ViaKeys(fromName, toName, ViaRecord(fromName, toName, fromId, toId)) == (fromId, toId)
    ensures ViaIdentity(ViaKeys(fromName, toName, ViaRecord(fromName, toName, fromId, toId)).0,
                        ViaKeys(fromName, toName, ViaRecord(fromName, toName, fromId, toId)).1)
      == ViaIdentity(fromId, toId)
  {
  }

  lemma SelfViaRecordLosesFromId(name: Value, fromId: Value, toId: Value)
    ensures ViaKeys(name, name, ViaRecord(name, name, fromId, toId)) == (toId, toId)
  {
  }

  /** A table configuration, each callback absent or given. */
  datatype TableConfig = TableConfig(
    name: Option<Value>,                                    // `'name' in config`
    onCreate: Option<(Value, Records) -> Result<Value, Error>>,
    onUpdate: Option<(Value, Records, Value) -> Result<Value, Error>>,
    identityFromRecord: IdentityOption,
    testRecord: Option<(Value, Value, Records) -> Value>,
    testTable: Option<Records -> Value>,
    records: seq<Value>)                                    // the array form of `records`

  /** The behaviour the configuration resolves to, defaults filled in. */
  datatype Behaviour = Behaviour(
    creator: Creator,
    updater: Updater,
    identity: IdentityRule,
    testRecord: (Value, Value, Records) -> Value,
    testTable: Records -> Value)

  function FalsyRecordTest(record: Value, identity: Value, records: Records): Value { Bool(false) }
  function FalsyTableTest(records: Records): Value { Bool(false) }

  /** The table constructor's defaults: `onCreate || identityFn`,
      `onUpdate || onCreate`, `strTest(identityFromRecord) || identifierFn`,
      and `falsyFn` for both validators. */
  function Resolve(config: TableConfig): (r: Result<Behaviour, Error>)
    ensures r.Err? <==> StrTest(config.identityFromRecord).Err?
    ensures r.Ok? ==> r.value.identity == StrTest(config.identityFromRecord).value
    ensures r.Ok? ==> (r.value.creator == KeepData <==> config.onCreate.None?)
    ensures r.Ok? ==> (r.value.updater == SameAsCreator <==> config.onUpdate.None?)
  {
    var rule :- StrTest(config.identityFromRecord);
    Ok(Behaviour(
      if config.onCreate.Some? then CreateWith(config.onCreate.value) else KeepData,
      if config.onUpdate.Some? then UpdateWith(config.onUpdate.value) else SameAsCreator,
      rule,
      if config.testRecord.Some? then config.testRecord.value else FalsyRecordTest,
      if config.testTable.Some? then config.testTable.value else FalsyTableTest))
  }

  /** The hooks of a via join's association table. */
  function ViaBehaviour(viaName: string, fromName: Value, toName: Value): Behaviour {
    Behaviour(ViaCheck(viaName, fromName, toName), SameAsCreator, ViaKey(fromName, toName), FalsyRecordTest, FalsyTableTest)
  }

  /** Runs the creator. */
  function Create(creator: Creator, data: Value, records: Records): (r: Result<Value, Error>)
    ensures creator.KeepData? ==> r == Ok(data)
    ensures creator.ViaCheck? ==> r == ViaCreate(creator.viaName, creator.fromName, creator.toName, data)
  {
    match creator
    case KeepData => Ok(data)
    case CreateWith(create) => create(data, records)
    case ViaCheck(viaName, fromName, toName) => ViaCreate(viaName, fromName, toName, data)
  }

  /** `processData(data, identity)`: the updater when the identity is truthy
      and already present, the creator otherwise. */
  function ProcessData(b: Behaviour, records: Records, data: Value, identity: Value): (r: Result<Value, Error>)
    ensures !(Truthy(identity) && Has(records, identity)) ==> r == Create(b.creator, data, records)
    ensures Truthy(identity) && Has(records, identity) && b.updater.SameAsCreator? ==> r == Create(b.creator, data, records)
    ensures Truthy(identity) && Has(records, identity) && b.updater.UpdateWith? ==>
      r == b.updater.update(data, records, Get(records, identity))
  {
    if Truthy(identity) && Has(records, identity) then
      match b.updater
      case SameAsCreator => Create(b.creator, data, records)
      case UpdateWith(update) => update(data, records, Get(records, identity))
    else Create(b.creator, data, records)
  }

  /** `identityFor(record)`.  `uuid` is the identifier `uuid.v4()` would
      return; reading a property of `undefined` or `null` throws. */
  function IdentityFor(rule: IdentityRule, records: Records, record: Value, uuid: Value): (r: Result<Value, Error>)
    ensures rule.Generated? ==> r == Ok(uuid)
    ensures rule.Accessor? ==>
      (r.Err? <==> record.Undefined? || record.Null?) && (r.Ok? ==> r.value == Property(record, Str(rule.key)).value)
    ensures rule.ViaKey? ==> r == Ok(ViaIdentity(ViaKeys(rule.fromName, rule.toName, record).0, ViaKeys(rule.fromName, rule.toName, record).1))
  {
    match rule
    case Generated => Ok(uuid)
    case Accessor(key) =>
      var p := Property(record, Str(key));
      if p.None? then Fail("Cannot read properties of " + ToStr(record)) else Ok(p.value)
    case Custom(identify) => identify(record, records)
    case ViaKey(fromName, toName) =>
      var (fromId, toId) := ViaKeys(fromName, toName, record);
      Ok(ViaIdentity(fromId, toId))
  }

  /** A string rule reads arrays and strings as JavaScript does: the rule
      `'0'` takes the first element of an array record, and `'length'` the
      length of a string record. */
  lemma AccessorReadsArraysAndStrings(records: Records, uuid: Value)
    ensures IdentityFor(Accessor("0"), records, Arr([Num(7)]), uuid) == Ok(Num(7))
    ensures IdentityFor(Accessor("length"), records, Str("abc"), uuid) == Ok(Num(3))
  {
    ArrayElementRead([Num(7)], 0);
  }
}
