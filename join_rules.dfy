/** What a join computes from its configuration and from index contents
    alone: its canonical name, its strategy, the checks `linkMany` makes, the
    traversal in both directions, the association record `linkVia` files, and
    the record lists and maps built from a traversal. */
module JoinRules {
  import opened Wrappers
  import opened Values
  import opened OrderedMaps
  import opened JoinTypes
  import opened JoinUtils
  import opened JoinIndex
  import opened Hooks

  /** A join's configuration.  `name` is "" when none is given (a falsy
      name); `via` is `undefined` when the join has no association table. */
  datatype JoinConfig = JoinConfig(from: DefSource, to: DefSource, name: string, via: Value)

  /** `def.table`: the table a definition names, `undefined` when it names none. */
  function DefTable(def: Value): (t: Value)
    ensures IsBaseJoinDef(def) ==> t == Classify(def).table
  {
    if def.Obj? && "table" in def.fields then def.fields["table"] else Undefined
  }

  // ---------- the canonical name

  /** String order by code points: the default sort's order wherever the two
      strings stay inside the Basic Multilingual Plane. */
  predicate LexLess(a: string, b: string)
    decreases |a|
  {
    if a == [] then b != []
    else if b == [] then false
    else if a[0] != b[0] then a[0] < b[0]
    else LexLess(a[1..], b[1..])
  }

  lemma {:induction false} LexIrreflexive(a: string)
    ensures !LexLess(a, a)
    decreases |a|
  {
    if a != [] {
      LexIrreflexive(a[1..]);
    }
  }

  /** Of two different strings exactly one sorts first. */
  lemma {:induction false} LexTotal(a: string, b: string)
    requires a != b
    ensures LexLess(a, b) != LexLess(b, a)
    decreases |a|
  {
    if a != [] && b != [] && a[0] == b[0] {
      assert a == [a[0]] + a[1..] && b == [b[0]] + b[1..];
      LexTotal(a[1..], b[1..]);
    }
  }

  lemma {:induction false} LexAsymmetric(a: string, b: string)
    requires LexLess(a, b)
    ensures !LexLess(b, a)
  {
    if a == b {
      LexIrreflexive(a);
    } else {
      LexTotal(a, b);
    }
  }

  /** `[a, b].sort()`: `undefined` goes last; other values are compared as
      strings, and equal ones keep their order. */
  function SortPair(a: Value, b: Value): (p: (Value, Value))
    ensures p == (a, b) || p == (b, a)
    ensures p.0.Undefined? ==> p.1.Undefined?
    ensures !p.0.Undefined? && !p.1.Undefined? ==> !LexLess(ToStr(p.1), ToStr(p.0))
  {
    if a.Undefined? then (b, a)
    else if b.Undefined? then (a, b)
    else if LexLess(ToStr(b), ToStr(a)) then
      LexAsymmetric(ToStr(b), ToStr(a));
      (b, a)
    else (a, b)
  }

  /** How `Array.prototype.join` prints one element. */
  function JoinPart(v: Value): string {
    if v.Undefined? || v.Null? then "" else ToStr(v)
  }

  /** `name`: the configured name, else the two table names sorted and
      joined by ':'. */
  function JoinName(config: JoinConfig): string {
    if config.name != "" then config.name
    else
      var p := SortPair(DefTable(ParseConfig(config.from)), DefTable(ParseConfig(config.to)));
      JoinPart(p.0) + ":" + JoinPart(p.1)
  }

  /** Swapping the two sides of an unnamed join does not change its name.
      (`null` and the string "null" sort as equals but print differently, so
      a `null` table name is excluded.) */
  lemma NameSymmetric(config: JoinConfig)
    requires config.name == ""
    requires !DefTable(ParseConfig(config.from)).Null? && !DefTable(ParseConfig(config.to)).Null?
    ensures JoinName(config) == JoinName(config.(from := config.to, to := config.from))
  {
    var a := DefTable(ParseConfig(config.from));
    var b := DefTable(ParseConfig(config.to));
    if !a.Undefined? && !b.Undefined? {
      if ToStr(a) == ToStr(b) {
        LexIrreflexive(ToStr(a));
        assert JoinPart(a) == JoinPart(b);
      } else {
        LexTotal(ToStr(a), ToStr(b));
      }
    }
  }

  lemma UsersAddressesName()
    ensures JoinName(JoinConfig(Named("users"), Named("addresses"), "", Undefined)) == "addresses:users"
    ensures JoinName(JoinConfig(Named("addresses"), Named("users"), "", Undefined)) == "addresses:users"
  {
    assert LexLess("addresses", "users");
    assert !LexLess("users", "addresses");
  }

  // ---------- strategy and linkMany

  /** `strategy`. */
  function StrategyOf(isVia: bool, fromDef: Value, toDef: Value): Strategy {
    if isVia then IdentityViaIdentity
    else if IsFieldDef(fromDef) then (if IsFieldDef(toDef) then FieldField else FieldIdentity)
    else if IsFieldDef(toDef) then IdentityField
    else IdentityIdentity
  }

  /** For two base definitions of a join without an association table the
      strategy names the kinds of its sides, and two table names make an
      identity-identity join. */
  lemma StrategyOfBaseDefs(isVia: bool, fromDef: Value, toDef: Value)
    requires IsBaseJoinDef(fromDef) && IsBaseJoinDef(toDef)
    ensures StrategyOf(isVia, fromDef, toDef) == IdentityViaIdentity <==> isVia
    ensures !isVia ==> (StrategyOf(isVia, fromDef, toDef) == FieldField <==> IsFieldDef(fromDef) && IsFieldDef(toDef))
    ensures !isVia ==> (StrategyOf(isVia, fromDef, toDef) == FieldIdentity <==> IsFieldDef(fromDef) && IsJoinIdentityDef(toDef))
    ensures !isVia ==> (StrategyOf(isVia, fromDef, toDef) == IdentityField <==> IsJoinIdentityDef(fromDef) && IsFieldDef(toDef))
    ensures !isVia ==> (StrategyOf(isVia, fromDef, toDef) == IdentityIdentity <==> IsJoinIdentityDef(fromDef) && IsJoinIdentityDef(toDef))
  {
  }

  lemma NamedSidesAreIdentityIdentity(from: string, to: string)
    ensures StrategyOf(false, ParseConfig(Named(from)), ParseConfig(Named(to))) == IdentityIdentity
  {
  }

  /** The checks `linkMany` makes before writing: the targeted side must be
      a field definition, and the strategy must be identity-field for the
      from side or field-identity for the to side.  Passing yields the field. */
  function LinkManyCheck(direction: Direction, isVia: bool, fromDef: Value, toDef: Value): Result<Value, Error> {
    var def := if direction == From then fromDef else toDef;
    if !IsFieldDef(def) then Fail("linkMany must target field type")
    else if direction == From && StrategyOf(isVia, fromDef, toDef) != IdentityField then Fail("cannot link many with this linkVia")
    else if direction == To && StrategyOf(isVia, fromDef, toDef) != FieldIdentity then Fail("cannot link many with this linkVia")
    else Ok(Classify(def).field)
  }

  /** The checks contradict each other: identity-field needs a from side
      that is not a field definition, field-identity a to side that is not,
      so `linkMany` fails for every join and every direction. */
  lemma LinkManyAlwaysFails(direction: Direction, isVia: bool, fromDef: Value, toDef: Value)
    ensures LinkManyCheck(direction, isVia, fromDef, toDef).Err?
  {
  }

  // ---------- traversal

  /** The four indexes a join answers from, each either available or the
      error reading its table raised. */
  datatype IndexState = IndexState(
    fromIndex: Result<Index, Error>,
    fromReverse: Result<Index, Error>,
    toIndex: Result<Index, Error>,
    toReverse: Result<Index, Error>)

  /** What of a join's configuration the traversal depends on. */
  datatype Shape = Shape(isVia: bool, fromIsIdentity: bool, toIsIdentity: bool)

  /** One traversal from `own`'s side: `own` is read first; the target's
      reverse index only when mid keys have to be resolved. */
  function Traverse(isVia: bool, own: Result<Index, Error>, targetReverse: Result<Index, Error>, targetIsIdentity: bool, id: Value)
    : (r: Result<Option<seq<Value>>, Error>)
    ensures own.Err? ==> r == Err(own.error)
    ensures own.Ok? && targetReverse.Ok? ==> r == Ok(JoinIdentities(isVia, own.value, targetReverse.value, targetIsIdentity, id))
    ensures own.Ok? && (isVia || !Has(own.value, id) || targetIsIdentity) ==> r == Ok(JoinIdentities(isVia, own.value, Empty(), targetIsIdentity, id))
    ensures own.Ok? && !isVia && Has(own.value, id) && !targetIsIdentity && targetReverse.Err? ==> r == Err(targetReverse.error)
  {
    var index :- own;
    if isVia then Ok(Lookup(index, id))
    else if !Has(index, id) then Ok(Some([]))
    else if targetIsIdentity then Ok(Some(Get(index, id)))
    else
      var reverse :- targetReverse;
      Ok(Some(IdentitiesForMidKeys(Get(index, id), reverse)))
  }

  /** `toIdentities` (direction `To`: to-side identities of a from-side
      identity) and `fromIdentities` (direction `From`). */
  function Step(s: IndexState, shape: Shape, d: Direction, id: Value): Result<Option<seq<Value>>, Error> {
    match d
    case To => Traverse(shape.isVia, s.fromIndex, s.toReverse, shape.toIsIdentity, id)
    case From => Traverse(shape.isVia, s.toIndex, s.fromReverse, shape.fromIsIdentity, id)
  }

  /** With indexes freshly built from the two tables, the two directions are
      `JoinIndex.ToIds` and `JoinIndex.FromIds`, which are converse relations. */
  lemma FreshStepIsTraversal(fromRecs: Records, fromDef: Value, toRecs: Records, toDef: Value, id: Value)
    ensures var s := IndexState(
        Ok(BuildIndex(fromRecs, fromDef)), Ok(ReverseIndex(BuildIndex(fromRecs, fromDef))),
        Ok(BuildIndex(toRecs, toDef)), Ok(ReverseIndex(BuildIndex(toRecs, toDef))));
      var shape := Shape(false, IsJoinIdentityDef(fromDef), IsJoinIdentityDef(toDef));
      && Step(s, shape, To, id) == Ok(Some(ToIds(fromRecs, fromDef, toRecs, toDef, id)))
      && Step(s, shape, From, id) == Ok(Some(FromIds(fromRecs, fromDef, toRecs, toDef, id)))
  {
  }

  predicate Answered(step: Result<Option<seq<Value>>, Error>) {
    step.Ok? && step.value.Some?
  }

  /** `toIdentitiesMap` / `fromIdentitiesMap`: each identity with its
      related identities, leaving out those with none.  An unanswered
      traversal (`undefined` in via mode) fails on reading its length. */
  function RelatedMap(s: IndexState, shape: Shape, d: Direction, ids: seq<Value>): (r: Result<OrderedMap<Value, seq<Value>>, Error>)
    ensures r.Ok? ==> forall k | k in ids :: Answered(Step(s, shape, d, k))
    ensures r.Ok? ==> forall k :: Has(r.value, k) <==> k in ids && Answered(Step(s, shape, d, k)) && Step(s, shape, d, k).value.value != []
    ensures r.Ok? ==> forall k | Has(r.value, k) :: Step(s, shape, d, k) == Ok(Some(Get(r.value, k)))
    ensures r.Err? ==> exists k | k in ids :: !Answered(Step(s, shape, d, k))
    decreases |ids|
  {
    if ids == [] then Ok(Empty())
    else
      var init := ids[..|ids| - 1];
      var last := ids[|ids| - 1];
      assert ids == init + [last];
      var m :- RelatedMap(s, shape, d, init);
      var found :- Step(s, shape, d, last);
      if found.None? then Fail("Cannot read properties of undefined (reading 'length')")
      else if found.value != [] then Ok(Set(m, last, found.value))
      else Ok(m)
  }

  /** A failure in a prefix of the identities is the failure of the whole
      list: the loop stops at the first. */
  lemma {:induction false} RelatedMapErrExtends(s: IndexState, shape: Shape, d: Direction, ids: seq<Value>, n: nat)
    requires n <= |ids| && RelatedMap(s, shape, d, ids[..n]).Err?
    ensures RelatedMap(s, shape, d, ids) == RelatedMap(s, shape, d, ids[..n])
    decreases |ids| - n
  {
    if n < |ids| {
      assert ids[..n + 1][..n] == ids[..n];
      RelatedMapErrExtends(s, shape, d, ids, n + 1);
    } else {
      assert ids[..n] == ids;
    }
  }

  /** `toRecordsArray` / `fromRecordsArray`: the related identities mapped
      through `get` of the target table, whose records are `target`; the
      table is only read when there is an identity to look up. */
  function RecordsArray(step: Result<Option<seq<Value>>, Error>, target: Result<Records, Error>): (r: Result<seq<Value>, Error>)
    ensures r.Ok? ==> Answered(step)
    ensures Answered(step) && step.value.value == [] ==> r == Ok([])
    ensures Answered(step) && step.value.value != [] ==> (r.Ok? <==> target.Ok?)
    ensures r.Ok? && step.value.value != [] ==>
      |r.value| == |step.value.value| &&
      forall i | 0 <= i < |r.value| :: r.value[i] == Lookup(target.value, step.value.value[i]).GetOr(Undefined)
  {
    var ids :- step;
    if ids.None? then Fail("Cannot read properties of undefined (reading 'map')")
    else if ids.value == [] then Ok([])
    else
      var records :- target;
      Ok(seq(|ids.value|, i requires 0 <= i < |ids.value| => Lookup(records, ids.value[i]).GetOr(Undefined)))
  }

  // ---------- records maps

  /** The mid keys `fromRecordsMap` resolves: the identity itself when the to
      side is identity-keyed, else the to index entry (an absent entry is
      `undefined`, whose length cannot be read). */
  function MidKeysOf(s: IndexState, toDef: Value, identity: Value): (r: Result<seq<Value>, Error>)
    ensures IsJoinIdentityDef(toDef) ==> r == Ok([identity])
    ensures !IsJoinIdentityDef(toDef) && s.toIndex.Ok? ==>
      (r.Ok? <==> Has(s.toIndex.value, identity)) && (r.Ok? ==> r.value == Get(s.toIndex.value, identity))
  {
    if IsJoinIdentityDef(toDef) then Ok([identity])
    else
      var index :- s.toIndex;
      if Has(index, identity) then Ok(Get(index, identity))
      else Fail("Cannot read properties of undefined (reading 'length')")
  }

  /** `fromRecordsMap(identity)`: the from-side records reached from a
      to-side identity.  Two identity sides short-cut to the record itself. */
  function FromRecordsMapOf(s: IndexState, fromDef: Value, toDef: Value, fromRecords: Result<Records, Error>, identity: Value)
    : (r: Result<Records, Error>)
    ensures r.Ok? ==> forall e | Has(r.value, e) ::
      fromRecords.Ok? && Has(fromRecords.value, e) && Get(r.value, e) == Get(fromRecords.value, e)
    ensures IsJoinIdentityDef(toDef) && IsJoinIdentityDef(fromDef) && fromRecords.Ok? && Has(fromRecords.value, identity) ==>
      r == Ok(Set(Empty(), identity, Get(fromRecords.value, identity)))
    ensures (!(IsJoinIdentityDef(toDef) && IsJoinIdentityDef(fromDef)) && MidKeysOf(s, toDef, identity).Ok?
             && s.fromReverse.Ok? && fromRecords.Ok?) ==>
      r.Ok? && forall e :: Has(r.value, e) <==>
        Has(fromRecords.value, e) && e in IdentitiesForMidKeys(MidKeysOf(s, toDef, identity).value, s.fromReverse.value)
  {
    if IsJoinIdentityDef(toDef) && IsJoinIdentityDef(fromDef) && fromRecords.Err? then Err(fromRecords.error)
    else if IsJoinIdentityDef(toDef) && IsJoinIdentityDef(fromDef) && Has(fromRecords.value, identity) then
      Ok(Set(Empty(), identity, Get(fromRecords.value, identity)))
    else FromRecordsByMidKeys(s, toDef, fromRecords, identity)
  }

  /** The mid-key path of `fromRecordsMap`: the from records filed, in the
      reverse from index, under any mid key of the to identity. */
  function FromRecordsByMidKeys(s: IndexState, toDef: Value, fromRecords: Result<Records, Error>, identity: Value)
    : (r: Result<Records, Error>)
    ensures r.Ok? ==> forall e | Has(r.value, e) ::
      fromRecords.Ok? && Has(fromRecords.value, e) && Get(r.value, e) == Get(fromRecords.value, e)
    ensures (MidKeysOf(s, toDef, identity).Ok? && s.fromReverse.Ok? && fromRecords.Ok?) ==>
      r.Ok? && forall e :: Has(r.value, e) <==>
        Has(fromRecords.value, e) && e in IdentitiesForMidKeys(MidKeysOf(s, toDef, identity).value, s.fromReverse.value)
  {
    var midKeys :- MidKeysOf(s, toDef, identity);
    if midKeys == [] then Ok(Empty())
    else
      var reverse :- s.fromReverse;
      var records :- fromRecords;
      RecordsForMidKeysMeaning(midKeys, reverse, records);
      Ok(RecordsForMidKeys(midKeys, reverse, records))
  }

  /** Each identity filed with `get` of the target table, as the
      `toRecordsMap` fold does. */
  function FileRecords(ids: seq<Value>, target: Records): (r: Records)
    ensures forall e :: Has(r, e) <==> e in ids
    ensures forall e | Has(r, e) :: Get(r, e) == Lookup(target, e).GetOr(Undefined)
    decreases |ids|
  {
    if ids == [] then Empty()
    else
      var init := ids[..|ids| - 1];
      assert ids == init + [ids[|ids| - 1]];
      Set(FileRecords(init, target), ids[|ids| - 1], Lookup(target, ids[|ids| - 1]).GetOr(Undefined))
  }

  /** `toRecordsMap(fromIdentity)` as written: it traverses with
      `fromIdentities`, which reads its argument as a to-side identity and
      yields from-side identities, and then looks those up in the to table. */
  function ToRecordsMapAsWritten(s: IndexState, shape: Shape, toRecords: Result<Records, Error>, fromIdentity: Value)
    : Result<Records, Error>
  {
    var ids :- Step(s, shape, From, fromIdentity);
    if ids.None? then Fail("Cannot read properties of undefined (reading 'reduce')")
    else if ids.value == [] then Ok(Empty())
    else
      var records :- toRecords;
      Ok(FileRecords(ids.value, records))
  }

  /** `toRecordsMap(fromIdentity)` as its name and parameter intend: the to
      records of the to-side identities a from identity reaches. */
  function ToRecordsMap(s: IndexState, shape: Shape, toRecords: Result<Records, Error>, fromIdentity: Value)
    : (r: Result<Records, Error>)
    ensures r.Ok? ==> Answered(Step(s, shape, To, fromIdentity))
    ensures r.Ok? ==> forall e :: Has(r.value, e) <==> e in Step(s, shape, To, fromIdentity).value.value
    ensures r.Ok? ==> forall e | Has(r.value, e) :: toRecords.Ok? && Get(r.value, e) == Lookup(toRecords.value, e).GetOr(Undefined)
    ensures Answered(Step(s, shape, To, fromIdentity)) && toRecords.Ok? ==> r.Ok?
  {
    var ids :- Step(s, shape, To, fromIdentity);
    if ids.None? then Fail("Cannot read properties of undefined (reading 'reduce')")
    else if ids.value == [] then Ok(Empty())
    else
      var records :- toRecords;
      Ok(FileRecords(ids.value, records))
  }

  /** With fresh indexes on a join without an association table, the map's
      keys are exactly the to identities `ToIds` relates. */
  lemma ToRecordsMapKeys(fromRecs: Records, fromDef: Value, toRecs: Records, toDef: Value, f: Value)
    ensures var s := IndexState(
        Ok(BuildIndex(fromRecs, fromDef)), Ok(ReverseIndex(BuildIndex(fromRecs, fromDef))),
        Ok(BuildIndex(toRecs, toDef)), Ok(ReverseIndex(BuildIndex(toRecs, toDef))));
      var r := ToRecordsMap(s, Shape(false, IsJoinIdentityDef(fromDef), IsJoinIdentityDef(toDef)), Ok(toRecs), f);
      r.Ok? && forall e :: Has(r.value, e) <==> e in ToIds(fromRecs, fromDef, toRecs, toDef, f)
  {
    FreshStepIsTraversal(fromRecs, fromDef, toRecs, toDef, f);
  }

  /** A user whose `address` field holds 10, and address 10, joined from
      the users' `address` field to the addresses' identities. */
  function SampleUsers(): Records {
    OMap([Num(1)], map[Num(1) := Obj(map["address" := Num(10)])])
  }

  function SampleAddresses(): Records {
    OMap([Num(10)], map[Num(10) := Obj(map["street" := Str("Main")])])
  }

  function SampleFromDef(): Value {
    Obj(map["table" := Str("users"), "field" := Str("address")])
  }

  function SampleState(): IndexState {
    var fromIndex := BuildIndex(SampleUsers(), SampleFromDef());
    var toIndex := BuildIndex(SampleAddresses(), ParseConfig(Named("addresses")));
    IndexState(Ok(fromIndex), Ok(ReverseIndex(fromIndex)), Ok(toIndex), Ok(ReverseIndex(toIndex)))
  }

  /** User 1 is filed under address 10 on the users' side. */
  lemma SampleFromIndex()
    ensures SampleState().fromIndex.Ok?
    ensures Has(SampleState().fromIndex.value, Num(1)) && Get(SampleState().fromIndex.value, Num(1)) == [Num(10)]
  {
    var record := Obj(map["address" := Num(10)]);
    assert Has(SampleUsers(), Num(1)) && Get(SampleUsers(), Num(1)) == record;
    assert IsFieldDef(SampleFromDef()) && !IsJoinIdentityDef(SampleFromDef());
    assert ExtractFieldDef(Str("address"), record) == [Num(10)];
    assert KeysFor(SampleFromDef(), Num(1), record) == [Num(10)];
  }

  /** The addresses' side knows address 10 only. */
  lemma SampleToIndex()
    ensures SampleState().toIndex.Ok? && SampleState().toIndex.value.keys == [Num(10)]
    ensures !Has(SampleState().toIndex.value, Num(1))
  {
  }

  /** From user 1, the to direction reaches address 10 and the from
      direction nothing. */
  lemma SampleSteps()
    ensures Step(SampleState(), Shape(false, false, true), From, Num(1)) == Ok(Some([]))
    ensures Step(SampleState(), Shape(false, false, true), To, Num(1)) == Ok(Some([Num(10)]))
  {
    SampleFromIndex();
    SampleToIndex();
  }

  /** On that sample the traversal the name promises finds address 10; the
      code as written finds nothing, because user 1 is not a key of the
      address side's index. */
  lemma ToRecordsMapCounterexample()
    ensures ToRecordsMapAsWritten(SampleState(), Shape(false, false, true), Ok(SampleAddresses()), Num(1)) == Ok(Empty())
    ensures ToRecordsMap(SampleState(), Shape(false, false, true), Ok(SampleAddresses()), Num(1)).Ok?
    ensures Has(ToRecordsMap(SampleState(), Shape(false, false, true), Ok(SampleAddresses()), Num(1)).value, Num(10))
  {
    SampleSteps();
  }

  // ---------- association records

  /** The association table after `linkVia(fromId, toId)`: the record is
      filed under its via identity unless one is already there. */
  function ViaLinked(records: Records, fromName: Value, toName: Value, fromId: Value, toId: Value): (r: Records)
    ensures Has(r, ViaIdentity(fromId, toId))
    ensures forall k | k != ViaIdentity(fromId, toId) :: Lookup(r, k) == Lookup(records, k)
    ensures Has(records, ViaIdentity(fromId, toId)) ==> r == records
    ensures !Has(records, ViaIdentity(fromId, toId)) ==> Get(r, ViaIdentity(fromId, toId)) == ViaRecord(fromName, toName, fromId, toId)
  {
    var id := ViaIdentity(fromId, toId);
    if Has(records, id) then records else Set(records, id, ViaRecord(fromName, toName, fromId, toId))
  }

  /** The two cases of `ViaLinked`, one equation each. */
  lemma ViaLinkedWrites(records: Records, fromName: Value, toName: Value, fromId: Value, toId: Value)
    requires !Has(records, ViaIdentity(fromId, toId))
    ensures ViaLinked(records, fromName, toName, fromId, toId)
      == Set(records, ViaIdentity(fromId, toId), ViaRecord(fromName, toName, fromId, toId))
  {
  }

  lemma ViaLinkedKeeps(records: Records, fromName: Value, toName: Value, fromId: Value, toId: Value)
    requires Has(records, ViaIdentity(fromId, toId))
    ensures ViaLinked(records, fromName, toName, fromId, toId) == records
  {
  }

  /** Linking the same pair twice leaves one association record. */
  lemma LinkViaIdempotent(records: Records, fromName: Value, toName: Value, fromId: Value, toId: Value)
    ensures ViaLinked(ViaLinked(records, fromName, toName, fromId, toId), fromName, toName, fromId, toId)
      == ViaLinked(records, fromName, toName, fromId, toId)
    ensures |ViaLinked(records, fromName, toName, fromId, toId).keys| <= |records.keys| + 1
  {
  }
}
