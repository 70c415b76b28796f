/** The store's registry and its joins.  `Base` holds the tables and the
    joins by name; a `Join` answers traversals from indexes it caches over
    its two tables and links records of those tables; the `join` transaction
    handler links a record to a record of the table on the other side.  A
    join reaches its tables through its base and the base holds its joins, so
    both classes live in one module. */
module Schema {
  import opened Wrappers
  import opened Values
  import opened OrderedMaps
  import opened JoinTypes
  import opened JoinUtils
  import opened JoinIndex
  import opened Hooks
  import opened Tables
  import opened JoinRules

  /** A join between two tables, with the four indexes it builds lazily:
      `_fromIndex`, `_fromIndexReverse`, `_toIndex`, `_toIndexReverse`. */
  class Join {
    const config: JoinConfig
    const base: Base
    var fromIndexCache: Option<Index>
    var fromReverseCache: Option<Index>
    var toIndexCache: Option<Index>
    var toReverseCache: Option<Index>

    constructor (config: JoinConfig, base: Base)
      ensures this.config == config && this.base == base
      ensures fromIndexCache == None && fromReverseCache == None
      ensures toIndexCache == None && toReverseCache == None
    {
      this.config := config;
      this.base := base;
      fromIndexCache := None;
      fromReverseCache := None;
      toIndexCache := None;
      toReverseCache := None;
    }

    function Name(): string { JoinName(config) }
    function FromDef(): Value { ParseConfig(config.from) }
    function ToDef(): Value { ParseConfig(config.to) }
    predicate IsVia() { Truthy(config.via) }
    predicate FromIsIdentity() { IsJoinIdentityDef(FromDef()) }
    predicate ToIsIdentity() { IsJoinIdentityDef(ToDef()) }
    function JoinStrategy(): Strategy { StrategyOf(IsVia(), FromDef(), ToDef()) }
    function TraversalShape(): Shape { Shape(IsVia(), FromIsIdentity(), ToIsIdentity()) }

    /** `viaTableName`: a non-empty string `via` names the association
        table; otherwise it is the join's name with `$via` appended. */
    function ViaTableName(): string {
      if config.via.Str? && config.via.s != "" then config.via.s else Name() + "$via"
    }

    /** The `fromTable` / `toTable` getters: the table the side's
        definition names, or the error they throw when there is none. */
    function FromTable(): (r: Result<Table, Error>)
      reads base
      ensures r.Ok? ==> r.value in ValueSet(base.tables)
    {
      base.TableFor(DefTable(FromDef()))
    }

    function ToTable(): (r: Result<Table, Error>)
      reads base
      ensures r.Ok? ==> r.value in ValueSet(base.tables)
    {
      base.TableFor(DefTable(ToDef()))
    }

    function FromRecords(): Result<Records, Error>
      reads base, ValueSet(base.tables)
    {
      var t :- FromTable();
      Ok(t.records)
    }

    function ToRecords(): Result<Records, Error>
      reads base, ValueSet(base.tables)
    {
      var t :- ToTable();
      Ok(t.records)
    }

    /** What each index getter answers with now: the cached index, else
        the one built from the side's current records. */
    ghost function CurrentFromIndex(): Result<Index, Error>
      reads this, base, ValueSet(base.tables)
    {
      if fromIndexCache.Some? then Ok(fromIndexCache.value)
      else
        var records :- FromRecords();
        Ok(BuildIndex(records, FromDef()))
    }

    ghost function CurrentFromReverse(): Result<Index, Error>
      reads this, base, ValueSet(base.tables)
    {
      if fromReverseCache.Some? then Ok(fromReverseCache.value)
      else
        var index :- CurrentFromIndex();
        Ok(ReverseIndex(index))
    }

    ghost function CurrentToIndex(): Result<Index, Error>
      reads this, base, ValueSet(base.tables)
    {
      if toIndexCache.Some? then Ok(toIndexCache.value)
      else
        var records :- ToRecords();
        Ok(BuildIndex(records, ToDef()))
    }

    ghost function CurrentToReverse(): Result<Index, Error>
      reads this, base, ValueSet(base.tables)
    {
      if toReverseCache.Some? then Ok(toReverseCache.value)
      else
        var index :- CurrentToIndex();
        Ok(ReverseIndex(index))
    }

    /** The four indexes the traversals read. */
    ghost function State(): IndexState
      reads this, base, ValueSet(base.tables)
    {
      IndexState(CurrentFromIndex(), CurrentFromReverse(), CurrentToIndex(), CurrentToReverse())
    }

    /** The indexes as built from the tables' current records. */
    ghost function FreshState(): IndexState
      reads base, ValueSet(base.tables)
    {
      var fromIndex := match FromRecords() case Ok(rs) => Ok(BuildIndex(rs, FromDef())) case Err(e) => Err(e);
      var toIndex := match ToRecords() case Ok(rs) => Ok(BuildIndex(rs, ToDef())) case Err(e) => Err(e);
      IndexState(
        fromIndex, match fromIndex case Ok(i) => Ok(ReverseIndex(i)) case Err(e) => Err(e),
        toIndex, match toIndex case Ok(i) => Ok(ReverseIndex(i)) case Err(e) => Err(e))
    }

    /** `purgeIndexes`: all four caches dropped, so every index is rebuilt
        from the records the tables hold when it is next read. */
    method PurgeIndexes()
      modifies this
      ensures fromIndexCache == None && fromReverseCache == None
      ensures toIndexCache == None && toReverseCache == None
      ensures State() == FreshState()
    {
      fromIndexCache := None;
      fromReverseCache := None;
      toIndexCache := None;
      toReverseCache := None;
    }

    /** The `fromIndex` getter: builds and caches the index on first read;
        what the traversals see does not change. */
    method FromIndex() returns (r: Result<Index, Error>)
      modifies this
      ensures r == old(State()).fromIndex
      ensures State() == old(State())
    {
      if fromIndexCache.None? {
        var t := FromTable();
        if t.Err? {
          return Err(t.error);
        }
        fromIndexCache := Some(BuildIndex(t.value.records, FromDef()));
      }
      r := Ok(fromIndexCache.value);
    }

    method ToIndex() returns (r: Result<Index, Error>)
      modifies this
      ensures r == old(State()).toIndex
      ensures State() == old(State())
    {
      if toIndexCache.None? {
        var t := ToTable();
        if t.Err? {
          return Err(t.error);
        }
        toIndexCache := Some(BuildIndex(t.value.records, ToDef()));
      }
      r := Ok(toIndexCache.value);
    }

    /** The `fromIndexReverse` getter: every key of the forward index filed
        back to the identities that hold it, by the nested loops over
        `addToIndex`. */
    method FromIndexReverse() returns (r: Result<Index, Error>)
      modifies this
      ensures r == old(State()).fromReverse
      ensures State() == old(State())
    {
      if fromReverseCache.Some? {
        return Ok(fromReverseCache.value);
      }
      var index := FromIndex();
      if index.Err? {
        return Err(index.error);
      }
      var reverse := BuildReverse(index.value);
      fromReverseCache := Some(reverse);
      r := Ok(reverse);
    }

    method ToIndexReverse() returns (r: Result<Index, Error>)
      modifies this
      ensures r == old(State()).toReverse
      ensures State() == old(State())
    {
      if toReverseCache.Some? {
        return Ok(toReverseCache.value);
      }
      var index := ToIndex();
      if index.Err? {
        return Err(index.error);
      }
      var reverse := BuildReverse(index.value);
      toReverseCache := Some(reverse);
      r := Ok(reverse);
    }

    /** `toIdentities(fromIdentity)`: `None` stands for the `undefined` the
        via mode yields for an identity its index does not hold. */
    method ToIdentities(fromIdentity: Value) returns (r: Result<Option<seq<Value>>, Error>)
      modifies this
      ensures r == Step(old(State()), TraversalShape(), To, fromIdentity)
      ensures State() == old(State())
    {
      var index := FromIndex();
      if index.Err? {
        return Err(index.error);
      }
      if IsVia() {
        return Ok(Lookup(index.value, fromIdentity));
      }
      if !Has(index.value, fromIdentity) {
        return Ok(Some([]));
      }
      if ToIsIdentity() {
        return Ok(Some(Get(index.value, fromIdentity)));
      }
      var reverse := ToIndexReverse();
      if reverse.Err? {
        return Err(reverse.error);
      }
      var ids := CollectIdentitiesForMidKeys(Get(index.value, fromIdentity), reverse.value);
      r := Ok(Some(ids));
    }

    /** `fromIdentities(toIdentity)`. */
    method FromIdentities(toIdentity: Value) returns (r: Result<Option<seq<Value>>, Error>)
      modifies this
      ensures r == Step(old(State()), TraversalShape(), From, toIdentity)
      ensures State() == old(State())
    {
      var index := ToIndex();
      if index.Err? {
        return Err(index.error);
      }
      if IsVia() {
        return Ok(Lookup(index.value, toIdentity));
      }
      if !Has(index.value, toIdentity) {
        return Ok(Some([]));
      }
      if FromIsIdentity() {
        return Ok(Some(Get(index.value, toIdentity)));
      }
      var reverse := FromIndexReverse();
      if reverse.Err? {
        return Err(reverse.error);
      }
      var ids := CollectIdentitiesForMidKeys(Get(index.value, toIdentity), reverse.value);
      r := Ok(Some(ids));
    }

    /** One traversal in direction `d`. */
    method Traverse(d: Direction, id: Value) returns (r: Result<Option<seq<Value>>, Error>)
      modifies this
      ensures r == Step(old(State()), TraversalShape(), d, id)
      ensures State() == old(State())
    {
      if d == To {
        r := ToIdentities(id);
      } else {
        r := FromIdentities(id);
      }
    }

    /** `toIdentitiesMap` (`d == To`) and `fromIdentitiesMap` (`d == From`):
        the loop filling a Map with every identity that relates to some. */
    method IdentitiesMap(d: Direction, ids: seq<Value>) returns (r: Result<OrderedMap<Value, seq<Value>>, Error>)
      modifies this
      ensures r == RelatedMap(old(State()), TraversalShape(), d, ids)
      ensures State() == old(State())
    {
      var out: OrderedMap<Value, seq<Value>> := Empty();
      var i := 0;
      while i < |ids|
        invariant 0 <= i <= |ids|
        invariant State() == old(State())
        invariant RelatedMap(old(State()), TraversalShape(), d, ids[..i]) == Ok(out)
      {
        assert ids[..i + 1][..i] == ids[..i];
        var found := Traverse(d, ids[i]);
        if found.Err? {
          RelatedMapErrExtends(old(State()), TraversalShape(), d, ids, i + 1);
          return Err(found.error);
        }
        if found.value.None? {
          RelatedMapErrExtends(old(State()), TraversalShape(), d, ids, i + 1);
          return Fail("Cannot read properties of undefined (reading 'length')");
        }
        if found.value.value != [] {
          out := Set(out, ids[i], found.value.value);
        }
        i := i + 1;
      }
      assert ids[..i] == ids;
      r := Ok(out);
    }

    /** `toRecordsArray(fromIdentity)`: the to records of the related
        identities, in traversal order. */
    method ToRecordsArray(fromIdentity: Value) returns (r: Result<seq<Value>, Error>)
      modifies this
      ensures r == RecordsArray(Step(old(State()), TraversalShape(), To, fromIdentity), ToRecords())
      ensures State() == old(State())
    {
      var ids := ToIdentities(fromIdentity);
      r := MapToRecords(ids, ToRecords());
    }

    /** `fromRecordsArray(toIdentity)`. */
    method FromRecordsArray(toIdentity: Value) returns (r: Result<seq<Value>, Error>)
      modifies this
      ensures r == RecordsArray(Step(old(State()), TraversalShape(), From, toIdentity), FromRecords())
      ensures State() == old(State())
    {
      var ids := FromIdentities(toIdentity);
      r := MapToRecords(ids, FromRecords());
    }

    /** The to-side keys an identity reaches: itself on an identity side,
        else its entry in the to index. */
    method MidKeys(identity: Value) returns (r: Result<seq<Value>, Error>)
      modifies this
      ensures r == MidKeysOf(old(State()), ToDef(), identity)
      ensures State() == old(State())
    {
      if IsJoinIdentityDef(ToDef()) {
        return Ok([identity]);
      }
      var index := ToIndex();
      if index.Err? {
        return Err(index.error);
      }
      if !Has(index.value, identity) {
        return Fail("Cannot read properties of undefined (reading 'length')");
      }
      r := Ok(Get(index.value, identity));
    }

    /** `fromRecordsMap(identity)`: the from records reached from a to
        identity through the mid keys, or the record itself when both sides
        are identity-keyed. */
    method FromRecordsMap(identity: Value) returns (r: Result<Records, Error>)
      modifies this
      ensures r == FromRecordsMapOf(old(State()), FromDef(), ToDef(), FromRecords(), identity)
      ensures State() == old(State())
    {
      if IsJoinIdentityDef(ToDef()) && IsJoinIdentityDef(FromDef()) {
        var ft := FromTable();
        if ft.Err? {
          return Err(ft.error);
        }
        if ft.value.Has(identity) {
          return Ok(Set(Empty(), identity, ft.value.Get(identity)));
        }
      }
      r := FromRecordsByMidKeys(identity);
    }

    /** The mid-key path of `fromRecordsMap`. */
    method FromRecordsByMidKeys(identity: Value) returns (r: Result<Records, Error>)
      modifies this
      ensures r == JoinRules.FromRecordsByMidKeys(old(State()), ToDef(), FromRecords(), identity)
      ensures State() == old(State())
    {
      var mid := MidKeys(identity);
      if mid.Err? {
        return Err(mid.error);
      }
      var midKeys := mid.value;
      if midKeys == [] {
        return Ok(Empty());
      }
      var reverse := FromIndexReverse();
      if reverse.Err? {
        return Err(reverse.error);
      }
      var ft := FromTable();
      if ft.Err? {
        return Err(ft.error);
      }
      var records := CollectRecordsForMidKeys(midKeys, reverse.value, ft.value.records);
      r := Ok(records);
    }

    /** `toRecordsMap(fromIdentity)`, traversing towards the to side as its
        name says (the code as written traverses with `fromIdentities`; see
        `JoinRules.ToRecordsMapAsWritten`). */
    method ToRecordsMap(fromIdentity: Value) returns (r: Result<Records, Error>)
      modifies this
      ensures r == JoinRules.ToRecordsMap(old(State()), TraversalShape(), ToRecords(), fromIdentity)
      ensures State() == old(State())
    {
      var ids := ToIdentities(fromIdentity);
      if ids.Err? {
        return Err(ids.error);
      }
      if ids.value.None? {
        return Fail("Cannot read properties of undefined (reading 'reduce')");
      }
      if ids.value.value == [] {
        return Ok(Empty());
      }
      var t := ToTable();
      if t.Err? {
        return Err(t.error);
      }
      r := Ok(FileRecords(ids.value.value, t.value.records));
    }

    /** `linkMany`: the targeted table is read first, then the checks run;
        as the checks can never both pass, every call fails and nothing is
        written. */
    method LinkMany(direction: Direction) returns (r: Result<(), Error>)
      ensures r.Err?
      ensures var t := if direction == From then FromTable() else ToTable();
        (t.Err? ==> r.error == t.error) &&
        (t.Ok? ==> LinkManyCheck(direction, IsVia(), FromDef(), ToDef()) == Err(r.error))
    {
      var t := if direction == From then FromTable() else ToTable();
      if t.Err? {
        return Err(t.error);
      }
      var check := LinkManyCheck(direction, IsVia(), FromDef(), ToDef());
      LinkManyAlwaysFails(direction, IsVia(), FromDef(), ToDef());
      r := Err(check.error);
    }

    /** The guard `link` starts with: both tables exist and hold the two
        identities; otherwise the error `link` throws. */
    function LinkGuard(fromIdentity: Value, toIdentity: Value): (r: Result<(Table, Table), Error>)
      reads base, ValueSet(base.tables)
      ensures r.Ok? <==>
        && FromTable().Ok? && FromTable().value.Has(fromIdentity)
        && ToTable().Ok? && ToTable().value.Has(toIdentity)
      ensures r.Ok? ==> r.value == (FromTable().value, ToTable().value)
    {
      var ft :- FromTable();
      if !ft.Has(fromIdentity) then
        Fail(NotInTables(fromIdentity, toIdentity))
      else
        var tt :- ToTable();
        if !tt.Has(toIdentity) then
          Fail(NotInTables(fromIdentity, toIdentity))
        else Ok((ft, tt))
    }

    /** `LinkGuard` judged against a snapshot: `prior` holds every table's
        records and `priorTables` the registry that `link` would find. */
    ghost function LinkGuardFrom(fromIdentity: Value, toIdentity: Value, prior: map<Table, Records>,
                                 priorTables: OrderedMap<Value, Table>): (r: Result<(Table, Table), Error>)
      ensures r.Ok? <==>
        && TableIn(priorTables, DefTable(FromDef())).Ok? && TableIn(priorTables, DefTable(ToDef())).Ok?
        && var (ft, tt) := (TableIn(priorTables, DefTable(FromDef())).value, TableIn(priorTables, DefTable(ToDef())).value);
           ft in prior && fromIdentity in prior[ft].vals && tt in prior && toIdentity in prior[tt].vals
      ensures r.Ok? ==> r.value == (TableIn(priorTables, DefTable(FromDef())).value, TableIn(priorTables, DefTable(ToDef())).value)
    {
      var ft :- TableIn(priorTables, DefTable(FromDef()));
      if !(ft in prior && fromIdentity in prior[ft].vals) then
        Fail(NotInTables(fromIdentity, toIdentity))
      else
        var tt :- TableIn(priorTables, DefTable(ToDef()));
        if !(tt in prior && toIdentity in prior[tt].vals) then
          Fail(NotInTables(fromIdentity, toIdentity))
        else Ok((ft, tt))
    }

    /** On a snapshot of the current state the two guards agree. */
    lemma LinkGuardOnSnapshot(fromIdentity: Value, toIdentity: Value)
      ensures LinkGuard(fromIdentity, toIdentity) == LinkGuardFrom(fromIdentity, toIdentity, base.Snapshot(), base.tables)
    {
    }

    /** Every table registered before is as it was. */
    twostate predicate TablesUnchanged()
      reads base, ValueSet(base.tables)
    {
      && base.tables == old(base.tables)
      && forall t | t in old(ValueSet(base.tables)) :: t.records == old(t.records)
    }

    /** One table's records became what `setField` promised, exactly when
        `ok`; every other table is as it was. */
    twostate predicate FieldLinked(t: Table, s: Result<Records, Error>, ok: bool)
      reads base, ValueSet(base.tables), t
    {
      && (ok <==> s.Ok?) && (s.Ok? ==> t.records == s.value)
      && base.tables == old(base.tables)
      && forall u | u in old(ValueSet(base.tables)) && u != t :: u.records == old(u.records)
    }

    /** `linkVia` took place: the association table exists (created if it
        was missing) and holds the pair's record; no table of `before`
        other than it changed. */
    twostate predicate ViaPairLinked(fromName: Value, toName: Value, fromIdentity: Value, toIdentity: Value, before: set<Table>)
      reads base, ValueSet(base.tables), before
    {
      && HasViaTable()
      && ViaRecords() == ViaLinked(old(ViaRecords()), fromName, toName, fromIdentity, toIdentity)
      && (old(HasViaTable()) ==> base.tables == old(base.tables))
      && (!old(HasViaTable()) ==> ViaCreated(fromName, toName))
      && forall u | u in before && u != ViaTableNow() :: u.records == old(u.records)
    }

    /** What `link` does between two present records of the tables `ft`
        and `tt`, by strategy; `ok` is whether it returned normally and
        `before` the tables registered when it began. */
    twostate predicate Linked(ft: Table, tt: Table, fromIdentity: Value, toIdentity: Value, ok: bool, before: set<Table>)
      reads base, ValueSet(base.tables), before, ft, tt
    {
      match JoinStrategy()
      case FieldIdentity =>
        FieldLinked(ft, SetFieldSpec(ft.behaviour, old(ft.records), fromIdentity, Classify(FromDef()).field, toIdentity), ok)
      case IdentityField =>
        FieldLinked(tt, SetFieldSpec(tt.behaviour, old(tt.records), toIdentity, Classify(ToDef()).field, fromIdentity), ok)
      case IdentityIdentity =>
        (ok <==> fromIdentity == toIdentity) && TablesUnchanged()
      case FieldField =>
        && (ok <==> ValueAt(old(ft.Get(fromIdentity)), Classify(FromDef()).field)
                    == ValueAt(old(tt.Get(toIdentity)), Classify(ToDef()).field))
        && TablesUnchanged()
      case IdentityViaIdentity =>
        ok && ViaPairLinked(ft.name, tt.name, fromIdentity, toIdentity, before)
    }

    /** What `link(fromIdentity, toIdentity)` leaves, `r` being its outcome:
        the guard's error, or the pair `Linked` between the two registered
        tables the guard named. */
    twostate predicate LinkOutcome(fromIdentity: Value, toIdentity: Value, r: Result<(), Error>, before: set<Table>)
      reads base, ValueSet(base.tables), before
    {
      var g := old(LinkGuard(fromIdentity, toIdentity));
      && (g.Err? ==> r == Err(g.error))
      && (g.Ok? ==> g.value.0 in before && g.value.1 in before
                    && Linked(g.value.0, g.value.1, fromIdentity, toIdentity, r.Ok?, before))
    }

    /** `Linked` measured from a snapshot rather than from the previous
        state: `prior` holds every registered table's records and
        `priorTables` the registry as they were when `link` began. */
    ghost predicate LinkedFrom(ft: Table, tt: Table, fromIdentity: Value, toIdentity: Value, ok: bool,
                               prior: map<Table, Records>, priorTables: OrderedMap<Value, Table>)
      reads base, ValueSet(base.tables), prior.Keys, ft, tt
    {
      && ft in prior && tt in prior
      && match JoinStrategy()
        case FieldIdentity =>
          FieldLinkedFrom(ft, SetFieldSpec(ft.behaviour, prior[ft], fromIdentity, Classify(FromDef()).field, toIdentity), ok, prior, priorTables)
        case IdentityField =>
          FieldLinkedFrom(tt, SetFieldSpec(tt.behaviour, prior[tt], toIdentity, Classify(ToDef()).field, fromIdentity), ok, prior, priorTables)
        case IdentityIdentity =>
          (ok <==> fromIdentity == toIdentity) && KeptFrom({}, prior, priorTables)
        case FieldField =>
          && (ok <==> ValueAt(Lookup(prior[ft], fromIdentity).GetOr(Undefined), Classify(FromDef()).field)
                      == ValueAt(Lookup(prior[tt], toIdentity).GetOr(Undefined), Classify(ToDef()).field))
          && KeptFrom({}, prior, priorTables)
        case IdentityViaIdentity =>
          ok && ViaPairLinkedFrom(ft.name, tt.name, fromIdentity, toIdentity, prior, priorTables)
    }

    /** The registry is `priorTables` and every snapshot table outside
        `except` holds its snapshot records. */
    ghost predicate KeptFrom(except: set<Table>, prior: map<Table, Records>, priorTables: OrderedMap<Value, Table>)
      reads base, prior.Keys
    {
      && base.tables == priorTables
      && forall u | u in prior && u !in except :: u.records == prior[u]
    }

    /** `FieldLinked` measured from a snapshot. */
    ghost predicate FieldLinkedFrom(t: Table, s: Result<Records, Error>, ok: bool,
                                    prior: map<Table, Records>, priorTables: OrderedMap<Value, Table>)
      reads base, prior.Keys, t
    {
      && (ok <==> s.Ok?) && (s.Ok? ==> t.records == s.value)
      && KeptFrom({t}, prior, priorTables)
    }

    /** The association table's records in a snapshot. */
    function PriorVia(prior: map<Table, Records>, priorTables: OrderedMap<Value, Table>): Records {
      var key := Str(ViaTableName());
      if OrderedMaps.Has(priorTables, key) && Get(priorTables, key) in prior then prior[Get(priorTables, key)] else Empty()
    }

    /** `ViaPairLinked` measured from a snapshot. */
    ghost predicate ViaPairLinkedFrom(fromName: Value, toName: Value, fromIdentity: Value, toIdentity: Value,
                                      prior: map<Table, Records>, priorTables: OrderedMap<Value, Table>)
      reads base, ValueSet(base.tables), prior.Keys
    {
      && HasViaTable()
      && ViaRecords() == ViaLinked(PriorVia(prior, priorTables), fromName, toName, fromIdentity, toIdentity)
      && (OrderedMaps.Has(priorTables, Str(ViaTableName())) ==> base.tables == priorTables)
      && (!OrderedMaps.Has(priorTables, Str(ViaTableName())) ==>
            && ViaTableNow() !in prior
            && ViaTableNow().behaviour == ViaBehaviour(ViaTableName(), fromName, toName)
            && base.tables == Set(priorTables, Str(ViaTableName()), ViaTableNow()))
      && forall u | u in prior && u != ViaTableNow() :: u.records == prior[u]
    }

    /** `link(fromIdentity, toIdentity)`: both records must be present;
        then field-identity sets the from record's field, identity-field
        the to record's field, identity-via-identity files an association
        record, and the other two only check that the two sides already
        agree. */
    method Link(fromIdentity: Value, toIdentity: Value) returns (r: Result<(), Error>)
      requires base.Valid()
      modifies base, ValueSet(base.tables)
      ensures base.Valid() && base.joins == old(base.joins)
      ensures old(LinkGuard(fromIdentity, toIdentity)).Err? ==>
        r == Err(old(LinkGuard(fromIdentity, toIdentity)).error) && TablesUnchanged()
      ensures old(LinkGuard(fromIdentity, toIdentity)).Ok? ==>
        var (ft, tt) := old(LinkGuard(fromIdentity, toIdentity)).value;
        Linked(ft, tt, fromIdentity, toIdentity, r.Ok?, old(ValueSet(base.tables)))
      ensures r.Err? ==> TablesUnchanged()
    {
      var g := LinkGuard(fromIdentity, toIdentity);
      if g.Err? {
        return Err(g.error);
      }
      r := LinkChecked(g.value.0, g.value.1, fromIdentity, toIdentity);
    }

    /** The strategy switch of `link`, once both records are known present. */
    method LinkChecked(ft: Table, tt: Table, fromIdentity: Value, toIdentity: Value) returns (r: Result<(), Error>)
      requires base.Valid()
      requires FromTable() == Ok(ft) && ToTable() == Ok(tt)
      modifies base, ValueSet(base.tables)
      ensures base.Valid() && base.joins == old(base.joins)
      ensures Linked(ft, tt, fromIdentity, toIdentity, r.Ok?, old(ValueSet(base.tables)))
      ensures r.Err? ==> TablesUnchanged()
    {
      var strategy := JoinStrategy();
      if strategy.FieldIdentity? || strategy.IdentityField? {
        r := LinkByField(ft, tt, fromIdentity, toIdentity);
      } else if strategy.IdentityViaIdentity? {
        LinkVia(ft.name, tt.name, fromIdentity, toIdentity);
        r := Ok(());
      } else {
        r := LinkByValue(ft, tt, fromIdentity, toIdentity);
      }
    }

    /** The two strategies that write a foreign key: the identity of one
        side is set into the field of the record on the other. */
    method LinkByField(ft: Table, tt: Table, fromIdentity: Value, toIdentity: Value) returns (r: Result<(), Error>)
      requires FromTable() == Ok(ft) && ToTable() == Ok(tt)
      requires base.Valid()
      requires JoinStrategy().FieldIdentity? || JoinStrategy().IdentityField?
      modifies ft, tt
      ensures base.Valid() && base.joins == old(base.joins)
      ensures Linked(ft, tt, fromIdentity, toIdentity, r.Ok?, old(ValueSet(base.tables)))
      ensures r.Err? ==> TablesUnchanged()
    {
      if JoinStrategy().FieldIdentity? {
        r := LinkField(ft, fromIdentity, Classify(FromDef()).field, toIdentity);
      } else {
        r := LinkField(tt, toIdentity, Classify(ToDef()).field, fromIdentity);
      }
    }

    /** The two strategies that write nothing: the pair is accepted only when
        the identities, or the two fields' values, already agree. */
    method LinkByValue(ft: Table, tt: Table, fromIdentity: Value, toIdentity: Value) returns (r: Result<(), Error>)
      requires JoinStrategy().IdentityIdentity? || JoinStrategy().FieldField?
      ensures Linked(ft, tt, fromIdentity, toIdentity, r.Ok?, ValueSet(base.tables))
    {
      if JoinStrategy().IdentityIdentity? {
        if fromIdentity != toIdentity {
          return Fail("cannot link id-id relationships");
        }
      } else if ValueAt(ft.Get(fromIdentity), Classify(FromDef()).field) != ValueAt(tt.Get(toIdentity), Classify(ToDef()).field) {
        return Fail("cannot link field-field relationships");
      }
      r := Ok(());
    }

    /** `setField` on one registered table, seen from the base. */
    method LinkField(t: Table, identity: Value, field: Value, value: Value) returns (r: Result<(), Error>)
      requires t in ValueSet(base.tables)
      modifies t
      ensures FieldLinked(t, SetFieldSpec(t.behaviour, old(t.records), identity, field, value), r.Ok?)
      ensures r.Err? ==> TablesUnchanged()
    {
      r := t.SetField(identity, field, value);
    }

    /** The `viaTable` getter with `initVia`: the association table,
        registered with the hooks of a via join when it is missing. */
    method ViaTable(fromName: Value, toName: Value) returns (vt: Table)
      requires base.Valid()
      modifies base
      ensures base.Valid() && base.joins == old(base.joins)
      ensures OrderedMaps.Has(base.tables, Str(ViaTableName())) && vt == Get(base.tables, Str(ViaTableName()))
      ensures old(OrderedMaps.Has(base.tables, Str(ViaTableName()))) ==> base.tables == old(base.tables)
      ensures !old(OrderedMaps.Has(base.tables, Str(ViaTableName()))) ==>
        && fresh(vt) && vt.behaviour == ViaBehaviour(ViaTableName(), fromName, toName) && vt.records == Empty()
        && base.tables == Set(old(base.tables), Str(ViaTableName()), vt)
    {
      var viaName := Str(ViaTableName());
      if !OrderedMaps.Has(base.tables, viaName) {
        vt := base.Register(viaName, ViaBehaviour(ViaTableName(), fromName, toName));
      } else {
        vt := Get(base.tables, viaName);
      }
    }

    predicate HasViaTable()
      reads base
    {
      OrderedMaps.Has(base.tables, Str(ViaTableName()))
    }

    function ViaTableNow(): Table
      requires HasViaTable()
      reads base
    {
      Get(base.tables, Str(ViaTableName()))
    }

    /** The association table, when it is already registered. */
    function ViaFrame(): set<object>
      reads base
    {
      if HasViaTable() then {ViaTableNow()} else {}
    }

    /** The association records, none while the table is missing. */
    function ViaRecords(): Records
      reads base, ViaFrame()
    {
      if HasViaTable() then ViaTableNow().records else Empty()
    }

    /** What `initVia` leaves behind: a new table with the via hooks,
        registered after all the others. */
    twostate predicate ViaCreated(fromName: Value, toName: Value)
      reads base
    {
      && HasViaTable() && fresh(ViaTableNow())
      && ViaTableNow().behaviour == ViaBehaviour(ViaTableName(), fromName, toName)
      && base.tables == Set(old(base.tables), Str(ViaTableName()), ViaTableNow())
    }

    /** `linkVia`: the association record of the pair is written unless
        one is already filed under its identity; no other table is touched. */
    method LinkVia(fromName: Value, toName: Value, fromIdentity: Value, toIdentity: Value)
      requires base.Valid()
      modifies base, ViaFrame()
      ensures base.Valid() && base.joins == old(base.joins)
      ensures HasViaTable()
      ensures ViaRecords() == ViaLinked(old(ViaRecords()), fromName, toName, fromIdentity, toIdentity)
      ensures old(HasViaTable()) ==> base.tables == old(base.tables)
      ensures !old(HasViaTable()) ==> ViaCreated(fromName, toName)
      ensures ViaPairLinked(fromName, toName, fromIdentity, toIdentity, old(ValueSet(base.tables)))
    {
      var vt := ViaTable(fromName, toName);
      WriteViaRecord(vt, fromName, toName, fromIdentity, toIdentity);
    }
  }

  /** The tail of `linkVia`: the record linking the pair is set under its
      identity unless the association table already holds one there. */
  method WriteViaRecord(vt: Table, fromName: Value, toName: Value, fromIdentity: Value, toIdentity: Value)
    modifies vt
    ensures vt.records == ViaLinked(old(vt.records), fromName, toName, fromIdentity, toIdentity)
  {
    var id := ViaIdentity(fromIdentity, toIdentity);
    ghost var before := vt.records;
    if !vt.Has(id) {
      vt.SetRecord(id, ViaRecord(fromName, toName, fromIdentity, toIdentity));
      ViaLinkedWrites(before, fromName, toName, fromIdentity, toIdentity);
    } else {
      ViaLinkedKeeps(before, fromName, toName, fromIdentity, toIdentity);
    }
  }

  /** `.map(identity => table.get(identity))` over a traversal's result:
      the table is only read when there is an identity to look up. */
  method MapToRecords(ids: Result<Option<seq<Value>>, Error>, target: Result<Records, Error>)
    returns (r: Result<seq<Value>, Error>)
    ensures r == RecordsArray(ids, target)
  {
    if ids.Err? {
      return Err(ids.error);
    }
    if ids.value.None? {
      return Fail("Cannot read properties of undefined (reading 'map')");
    }
    var list := ids.value.value;
    if list == [] {
      return Ok([]);
    }
    if target.Err? {
      return Err(target.error);
    }
    var out: seq<Value> := [];
    var i := 0;
    while i < |list|
      invariant 0 <= i <= |list|
      invariant |out| == i && forall j | 0 <= j < i :: out[j] == Lookup(target.value, list[j]).GetOr(Undefined)
    {
      out := out + [Lookup(target.value, list[i]).GetOr(Undefined)];
      i := i + 1;
    }
    assert out == seq(|list|, j requires 0 <= j < |list| => Lookup(target.value, list[j]).GetOr(Undefined));
    r := Ok(out);
  }

  /** The error `link` throws when a table or an identity is missing. */
  function NotInTables(fromIdentity: Value, toIdentity: Value): string {
    "cannot link " + ToStr(fromIdentity) + " and " + ToStr(toIdentity) + " -- not in tables"
  }

  /** The table a registry holds under `name`, or the error of `table(name)`. */
  function TableIn(tables: OrderedMap<Value, Table>, name: Value): (r: Result<Table, Error>)
    ensures r.Ok? <==> OrderedMaps.Has(tables, name)
    ensures r.Ok? ==> r.value == Get(tables, name) && r.value in ValueSet(tables)
  {
    if OrderedMaps.Has(tables, name) then
      GetInValueSet(tables, name);
      Ok(Get(tables, name))
    else Fail("cannot find table " + ToStr(name))
  }

  /** The registry: tables by name and joins by name, in insertion order. */
  class Base {
    var tables: OrderedMap<Value, Table>
    var joins: OrderedMap<string, Join>

    /** Every registered join belongs to this base, and no two registered
        tables share a join cache. */
    ghost predicate Valid()
      reads this
    {
      && (forall n | OrderedMaps.Has(joins, n) :: Get(joins, n).base == this)
      && (forall t1, t2 | t1 in ValueSet(tables) && t2 in ValueSet(tables) && t1 != t2 :: t1.joinCache != t2.joinCache)
    }

    constructor ()
      ensures tables == Empty() && joins == Empty()
      ensures Valid()
    {
      tables := Empty();
      joins := Empty();
    }

    /** `table(name)`, for the callers that throw when it is missing. */
    function TableFor(name: Value): (r: Result<Table, Error>)
      reads this
      ensures r.Ok? <==> OrderedMaps.Has(tables, name)
      ensures r.Ok? ==> r.value == Get(tables, name) && r.value in ValueSet(tables)
    {
      TableIn(tables, name)
    }

    /** `has(name, identity?)`: `undefined` asks for the table only. */
    function Has(name: Value, identity: Value): (r: bool)
      reads this, ValueSet(tables)
      ensures !OrderedMaps.Has(tables, name) ==> !r
      ensures OrderedMaps.Has(tables, name) && identity == Undefined ==> r
      ensures OrderedMaps.Has(tables, name) && identity != Undefined ==> (r <==> Get(tables, name).Has(identity))
    {
      if !OrderedMaps.Has(tables, name) then false
      else if identity == Undefined then true
      else
        GetInValueSet(tables, name);
        Get(tables, name).Has(identity)
    }

    /** Files a new, empty table under `name`. */
    method Register(name: Value, behaviour: Behaviour) returns (t: Table)
      requires Valid()
      modifies this
      ensures Valid()
      ensures fresh(t) && fresh(t.joinCache) && t.joinCache.entries == None
      ensures t.name == name && t.behaviour == behaviour && t.records == Empty()
      ensures tables == Set(old(tables), name, t) && joins == old(joins)
    {
      t := new Table(name, behaviour);
      tables := Set(tables, name, t);
    }

    /** Every registered table's records. */
    ghost function Snapshot(): (m: map<Table, Records>)
      reads this, ValueSet(tables)
      ensures m.Keys == ValueSet(tables)
      ensures forall u | u in m :: m[u] == u.records
    {
      map u | u in ValueSet(tables) :: u.records
    }

    /** Every table's join cache. */
    ghost function Caches(): set<JoinCache>
      reads this
    {
      set t | t in ValueSet(tables) :: t.joinCache
    }

    /** Every registered table as it was, and no table added or replaced. */
    twostate predicate RecordsKept(except: set<Table>)
      reads this, ValueSet(tables)
    {
      && tables == old(tables)
      && forall u | u in old(ValueSet(tables)) && u !in except :: u.records == old(u.records)
    }

    /** `addTable(config, name)`: the table is built (hooks resolved, records
        loaded) and filed under its key; an error leaves the registry as it
        was. */
    method AddTable(config: TableConfig, name: Value, uuid: nat -> Value) returns (r: Result<(), Error>)
      requires Valid()
      modifies this
      ensures Valid() && joins == old(joins)
      ensures r.Ok? <==> TableLoad(config, name, uuid).Ok?
      ensures r.Err? ==> tables == old(tables)
      ensures r.Ok? ==> var (key, behaviour, records) := TableLoad(config, name, uuid).value;
        && OrderedMaps.Has(tables, key) && tables == Set(old(tables), key, Get(tables, key))
        && NewTable(Get(tables, key), key, behaviour, records)
    {
      var built := BuildTable(config, name, uuid);
      if built.Err? {
        return Err(built.error);
      }
      var t := built.value;
      ValueSetAfterSet(tables, t.name, t);
      tables := Set(tables, t.name, t);
      r := Ok(());
    }

    /** The direction a table named `tableName` takes in the registered join
        `name`, as the `joins` getter tests it: `from` when the join's from
        table carries that name, else `to` when its to table does, else none.
        Reading a side whose table is missing throws. */
    function TagFor(name: string, tableName: Value): (r: Result<Option<Direction>, Error>)
      requires Valid() && OrderedMaps.Has(joins, name)
      reads this
    {
      var j := Get(joins, name);
      var ft :- j.FromTable();
      if ft.name == tableName then Ok(Some(From))
      else
        var tt :- j.ToTable();
        if tt.name == tableName then Ok(Some(To)) else Ok(None)
    }

    /** The tag of each join named in `ks`, in order. */
    function TagResults(tableName: Value, ks: seq<string>): (r: seq<Result<Option<Direction>, Error>>)
      requires Valid() && forall k | k in ks :: OrderedMaps.Has(joins, k)
      reads this
      ensures |r| == |ks| && forall i | 0 <= i < |ks| :: r[i] == TagFor(ks[i], tableName)
      decreases |ks|
    {
      if ks == [] then [] else TagResults(tableName, ks[..|ks| - 1]) + [TagFor(ks[|ks| - 1], tableName)]
    }

    /** The `joins` map a table named `tableName` builds lists exactly the
        registered joins in which it is the from or the to table, each with
        that direction; when the loop stops on an error, the joins tagged so
        far are still tagged correctly. */
    lemma JoinsGetterTags(tableName: Value, n: string)
      requires Valid()
      ensures var r := CollectTags(joins.keys, TagResults(tableName, joins.keys));
        && (OrderedMaps.Has(r.0, n) ==> OrderedMaps.Has(joins, n) && TagFor(n, tableName) == Ok(Some(Get(r.0, n))))
        && (r.1.None? && OrderedMaps.Has(joins, n) ==>
              TagFor(n, tableName).Ok? && (TagFor(n, tableName).value.Some? <==> OrderedMaps.Has(r.0, n)))
    {
      var rs := TagResults(tableName, joins.keys);
      var r := CollectTags(joins.keys, rs);
      if OrderedMaps.Has(r.0, n) {
        CollectTagsSound(joins.keys, rs, n);
      }
      if OrderedMaps.Has(joins, n) {
        assert n in joins.keys;
        var i :| 0 <= i < |joins.keys| && joins.keys[i] == n;
        CollectTagsComplete(joins.keys, rs, i);
      }
    }

    /** What the `joins` getter of `t` answers now: the cache when it is
        filled, otherwise what the loop over the registered joins builds. */
    ghost function CurrentTags(t: Table): (JoinTags, Option<Error>)
      requires Valid()
      reads this, t.joinCache
    {
      if t.joinCache.entries.Some? then (t.joinCache.entries.value, None)
      else CollectTags(joins.keys, TagResults(t.name, joins.keys))
    }

    /** The `joins` getter: the cache is filled on first read, and an error
        thrown while filling it leaves the entries made so far behind. */
    method TableJoins(t: Table) returns (r: Result<JoinTags, Error>)
      requires Valid()
      modifies t.joinCache
      ensures var s := old(CurrentTags(t));
        t.joinCache.entries == Some(s.0) && r == (if s.1.None? then Ok(s.0) else Err(s.1.value))
    {
      if t.joinCache.entries.Some? {
        return Ok(t.joinCache.entries.value);
      }
      var tags, error := CollectJoinTags(t.name);
      t.joinCache.entries := Some(tags);
      r := if error.Some? then Err(error.value) else Ok(tags);
    }

    /** The loop of the `joins` getter over the registered joins: the tags
        collected and the error that stopped it, if any. */
    method CollectJoinTags(tableName: Value) returns (tags: JoinTags, error: Option<Error>)
      requires Valid()
      ensures (tags, error) == CollectTags(joins.keys, TagResults(tableName, joins.keys))
    {
      var names := joins.keys;
      ghost var results := TagResults(tableName, names);
      tags := Empty();
      var i := 0;
      while i < |names|
        invariant 0 <= i <= |names|
        invariant CollectTags(names[..i], results[..i]) == (tags, None)
      {
        CollectTagsStep(names, results, i);
        var tag := TagFor(names[i], tableName);
        assert tag == results[i];
        if tag.Err? {
          CollectTagsErrExtends(names, results, i + 1);
          return tags, Some(tag.error);
        }
        if tag.value.Some? {
          tags := Set(tags, names[i], tag.value.value);
        }
        i := i + 1;
      }
      assert names[..i] == names && results[..i] == results;
      error := None;
    }

    /** `table.addJoin(join, direction)`: the join's name is tagged with the
        direction in the table's `joins` map, read (and so filled) first. */
    method AddJoinTo(t: Table, name: string, d: Direction) returns (r: Result<(), Error>)
      requires Valid()
      modifies t.joinCache
      ensures var s := old(CurrentTags(t));
        && (r.Ok? <==> s.1.None?) && (r.Err? ==> r.error == s.1.value)
        && t.joinCache.entries == Some(if s.1.None? then Set(s.0, name, d) else s.0)
    {
      var tags := TableJoins(t);
      if tags.Err? {
        return Err(tags.error);
      }
      t.joinCache.entries := Some(Set(tags.value, name, d));
      r := Ok(());
    }

    /** `addJoin(config)`: a second join of the same name is refused;
        otherwise the join is registered and then tagged into its from and
        its to table.  A missing table throws after the join is registered,
        so the join stays. */
    method AddJoin(config: JoinConfig) returns (r: Result<(), Error>)
      requires Valid()
      modifies this, Caches()
      ensures Valid() && tables == old(tables)
      ensures OrderedMaps.Has(old(joins), JoinName(config)) ==>
        r == Fail("cannot redefine join " + JoinName(config)) && joins == old(joins)
      ensures !OrderedMaps.Has(old(joins), JoinName(config)) ==>
        && OrderedMaps.Has(joins, JoinName(config)) && joins == Set(old(joins), JoinName(config), Get(joins, JoinName(config)))
        && fresh(Get(joins, JoinName(config))) && Get(joins, JoinName(config)).config == config
      ensures r.Ok? ==> OrderedMaps.Has(joins, JoinName(config)) && JoinTagged(Get(joins, JoinName(config)))
    {
      var join := new Join(config, this);
      var name := join.Name();
      if OrderedMaps.Has(joins, name) {
        return Fail("cannot redefine join " + name);
      }
      ghost var before := joins;
      joins := Set(joins, name, join);
      forall n | OrderedMaps.Has(joins, n) ensures Get(joins, n).base == this {
        if n != name {
          assert Lookup(joins, n) == Lookup(before, n);
          assert OrderedMaps.Has(before, n);
        }
      }
      var ft := join.FromTable();
      if ft.Err? {
        return Err(ft.error);
      }
      r := AddJoinTo(ft.value, name, From);
      if r.Err? {
        return;
      }
      var tt := join.ToTable();
      if tt.Err? {
        return Err(tt.error);
      }
      r := AddJoinTo(tt.value, name, To);
      if r.Ok? && ft.value != tt.value {
        assert ft.value.joinCache != tt.value.joinCache;
      }
    }

    /** Both tables of a join are registered and carry its tag: `to` in the
        to table and, unless the join relates a table to itself, `from` in
        the from table. */
    predicate JoinTagged(j: Join)
      reads this, Caches()
    {
      && j.base == this && j.FromTable().Ok? && j.ToTable().Ok?
      && JoinTag(j.ToTable().value, j.Name()) == Some(To)
      && (j.FromTable().value != j.ToTable().value ==> JoinTag(j.FromTable().value, j.Name()) == Some(From))
    }

    /** The direction a table's `joins` map holds for a join name. */
    function JoinTag(t: Table, name: string): Option<Direction>
      requires t in ValueSet(tables)
      reads this, Caches()
    {
      var e := t.joinCache.entries;
      if e.Some? && OrderedMaps.Has(e.value, name) then Some(Get(e.value, name)) else None
    }

    /** A registered join whose from or to table is named `other`; the from
        table is tested first, and the to table only when that test fails. */
    predicate Touches(k: string, other: Value)
      requires Valid() && OrderedMaps.Has(joins, k)
      reads this
    {
      var j := Get(joins, k);
      || (j.FromTable().Ok? && j.FromTable().value.name == other)
      || (j.ToTable().Ok? && j.ToTable().value.name == other)
    }

    /** The filter `$joinFromTerm` runs over a table's joins for a table
        name: the joins among `ks` touching `other`, in order.  Reading a side
        whose table is missing throws. */
    function MatchesFor(ks: seq<string>, other: Value): (r: Result<seq<string>, Error>)
      requires Valid()
      reads this
      ensures r.Ok? ==> forall k :: k in r.value <==> k in ks && OrderedMaps.Has(joins, k) && Touches(k, other)
      ensures r.Ok? && Distinct(ks) ==> Distinct(r.value)
      decreases |ks|
    {
      if ks == [] then Ok([])
      else
        var k := ks[|ks| - 1];
        var prior :- MatchesFor(ks[..|ks| - 1], other);
        assert Distinct(ks) ==> k !in ks[..|ks| - 1] && Distinct(ks[..|ks| - 1]);
        if !OrderedMaps.Has(joins, k) then Fail("cannot find linkVia")
        else
          var j := Get(joins, k);
          var ft :- j.FromTable();
          if ft.name == other then Ok(prior + [k])
          else
            var tt :- j.ToTable();
            if tt.name == other then Ok(prior + [k]) else Ok(prior)
    }

    /** What `$joinFromTerm` selects from a table's `joins` map `tags`: the
        named join, or the one join touching the named table. */
    function SelectJoin(tags: JoinTags, sel: Selection, tableName: Value): (r: Result<(string, Direction), Error>)
      requires Valid()
      reads this
      ensures r.Ok? ==> OrderedMaps.Has(joins, r.value.0) && OrderedMaps.Has(tags, r.value.0) && r.value.1 == Get(tags, r.value.0)
      ensures sel.Unselected? ==> r.Err?
      ensures sel.ByJoinName? ==>
        && (r.Ok? <==> sel.joinName.Str? && OrderedMaps.Has(tags, sel.joinName.s) && OrderedMaps.Has(joins, sel.joinName.s))
        && (r.Ok? ==> r.value.0 == sel.joinName.s)
      ensures sel.ByTableName? && r.Ok? ==>
        && Touches(r.value.0, sel.tableName)
        && forall k | OrderedMaps.Has(tags, k) && OrderedMaps.Has(joins, k) && Touches(k, sel.tableName) :: k == r.value.0
    {
      match sel
      case ByJoinName(joinName) =>
        if joinName.Str? && OrderedMaps.Has(tags, joinName.s) && OrderedMaps.Has(joins, joinName.s) then
          Ok((joinName.s, Get(tags, joinName.s)))
        else Fail("cannot find linkVia")
      case ByTableName(other) => SelectByTable(tags, other, tableName)
      case Unselected => Fail("cannot find linkVia")
    }

    /** Selection by the other table's name: the one join of `tags` that
        touches it, failing on none or on several. */
    function SelectByTable(tags: JoinTags, other: Value, tableName: Value): (r: Result<(string, Direction), Error>)
      requires Valid()
      reads this
      ensures r.Ok? ==> OrderedMaps.Has(joins, r.value.0) && OrderedMaps.Has(tags, r.value.0) && r.value.1 == Get(tags, r.value.0)
      ensures r.Ok? ==>
        && Touches(r.value.0, other)
        && forall k | OrderedMaps.Has(tags, k) && OrderedMaps.Has(joins, k) && Touches(k, other) :: k == r.value.0
    {
      var matches :- MatchesFor(tags.keys, other);
      if |matches| == 0 then Fail("no matching joins for " + ToStr(other))
      else if |matches| > 1 then Fail("multiple matches between " + ToStr(tableName) + " and " + ToStr(other))
      else
        assert matches[0] in matches;
        Ok((matches[0], Get(tags, matches[0])))
    }

    /** `table.$joinFromTerm(term)`: the join a term selects and the
        direction the table takes in it. */
    method JoinFromTerm(t: Table, sel: Selection) returns (r: Result<(string, Direction), Error>)
      requires Valid()
      modifies t.joinCache
      ensures sel.Unselected? ==> r == Fail("cannot find linkVia") && t.joinCache.entries == old(t.joinCache.entries)
      ensures !sel.Unselected? ==> var s := old(CurrentTags(t));
        && t.joinCache.entries == Some(s.0)
        && r == (if s.1.Some? then Err(s.1.value) else SelectJoin(s.0, sel, t.name))
      ensures r.Ok? ==> OrderedMaps.Has(joins, r.value.0)
    {
      if sel.Unselected? {
        return Fail("cannot find linkVia");
      }
      var tags := TableJoins(t);
      if tags.Err? {
        return Err(tags.error);
      }
      r := SelectJoin(tags.value, sel, t.name);
    }

    /** `join.link` with the local and the remote identity in the order the
        local table's direction gives. */
    method LinkPair(j: Join, d: Direction, identity: Value, remoteIdentity: Value) returns (r: Result<(), Error>)
      requires Valid() && j.base == this
      modifies this, ValueSet(tables)
      ensures Valid() && joins == old(joins)
      ensures r.Err? ==> RecordsKept({})
      ensures var (f, t) := LinkOrder(d, identity, remoteIdentity);
        j.LinkOutcome(f, t, r, old(ValueSet(tables)))
    {
      var (f, t) := LinkOrder(d, identity, remoteIdentity);
      r := j.Link(f, t);
    }

    /** `remoteTable.add(data, remoteIdentity)`, as a change to the
        snapshot: only the remote table's records change. */
    method AddRemote(rt: Table, data: Value, remoteIdentity: Value, uuid: Value) returns (r: Result<(), Error>)
      requires rt in ValueSet(tables)
      modifies rt
      ensures var s := AddSpec(rt.behaviour, rt.name, old(rt.records), data, remoteIdentity, false, uuid);
        && (r.Ok? <==> s.Ok?)
        && (s.Ok? ==> rt.records == s.value)
        && (s.Err? ==> rt.records == old(rt.records) && r.error == s.error)
      ensures Snapshot() == old(Snapshot())[rt := rt.records]
    {
      ghost var before := Snapshot();
      r := rt.Add(data, remoteIdentity, false, uuid);
      SnapshotUpdate(before, Snapshot(), rt, rt.records);
    }

    /** `LinkPair`, with what `Linked` says about the previous state
        restated against a snapshot of that state. */
    method LinkPairSnapshot(j: Join, d: Direction, identity: Value, remoteIdentity: Value) returns (r: Result<(), Error>)
      requires Valid() && j.base == this
      modifies this, ValueSet(tables)
      ensures Valid() && joins == old(joins)
      ensures r.Err? ==> RecordsKept({})
      ensures var (f, t) := LinkOrder(d, identity, remoteIdentity);
        var g := j.LinkGuardFrom(f, t, old(Snapshot()), old(tables));
        && (g.Err? ==> r == Err(g.error))
        && (g.Ok? ==> j.LinkedFrom(g.value.0, g.value.1, f, t, r.Ok?, old(Snapshot()), old(tables)))
    {
      var (f, t) := LinkOrder(d, identity, remoteIdentity);
      j.LinkGuardOnSnapshot(f, t);
      r := LinkPair(j, d, identity, remoteIdentity);
      if old(j.LinkGuard(f, t)).Ok? && j.JoinStrategy().IdentityViaIdentity? {
        if old(j.HasViaTable()) {
          OrderedMaps.GetInValueSet(old(tables), Str(j.ViaTableName()));
        }
        assert j.PriorVia(old(Snapshot()), old(tables)) == old(j.ViaRecords());
      }
    }

    /** The part of the `join` handler after the remote table is found: the
        remote record is added when the term carries data, then the pair is
        linked; lists of data go to `linkMany`. */
    method LinkTarget(j: Join, d: Direction, rt: Table, identity: Value, target: Target, uuid: Value) returns (r: Result<(), Error>)
      requires Valid() && j.base == this && rt in ValueSet(tables)
      modifies this, ValueSet(tables)
      ensures Valid() && joins == old(joins)
      ensures r.Err? ==> RecordsKept({rt})
      ensures target.Datas? || target.DataPairs? || target.NoTarget? ==> r.Err? && RecordsKept({})
      ensures target.IdentityOnly? && !old(rt.Has(target.identity)) ==> r.Err? && RecordsKept({})
      ensures target.IdentityOnly? && old(rt.Has(target.identity)) ==>
        var (f, t) := LinkOrder(d, identity, target.identity);
        j.LinkOutcome(f, t, r, old(ValueSet(tables)))
      ensures target.IdentityAndData? ==>
        var s := old(AddSpec(rt.behaviour, rt.name, rt.records, target.data, target.identity, false, uuid));
        var (f, t) := LinkOrder(d, identity, target.identity);
        && (s.Err? ==> r == Err(s.error) && RecordsKept({}))
        && (r.Ok? ==> s.Ok?)
        && (s.Ok? ==>
              var g := j.LinkGuardFrom(f, t, old(Snapshot())[rt := s.value], old(tables));
              && (g.Err? ==> r == Err(g.error))
              && (g.Ok? ==> j.LinkedFrom(g.value.0, g.value.1, f, t, r.Ok?, old(Snapshot())[rt := s.value], old(tables))))
      ensures target.DataOnly? ==>
        var id := old(IdentityFor(rt.behaviour.identity, rt.records, target.data, uuid));
        && (id.Err? ==> r == Err(id.error) && RecordsKept({}))
        && (id.Ok? ==>
              var s := old(AddSpec(rt.behaviour, rt.name, rt.records, target.data, id.value, false, uuid));
              var (f, t) := LinkOrder(d, identity, id.value);
              && (s.Err? ==> r == Err(s.error) && RecordsKept({}))
              && (r.Ok? ==> s.Ok?)
              && (s.Ok? ==>
                    var g := j.LinkGuardFrom(f, t, old(Snapshot())[rt := s.value], old(tables));
                    && (g.Err? ==> r == Err(g.error))
                    && (g.Ok? ==> j.LinkedFrom(g.value.0, g.value.1, f, t, r.Ok?, old(Snapshot())[rt := s.value], old(tables)))))
    {
      match target
      case IdentityAndData(remoteIdentity, data) =>
        r := AddThenLink(j, d, rt, identity, remoteIdentity, data, uuid);
      case DataOnly(data) =>
        var remoteIdentity := IdentityFor(rt.behaviour.identity, rt.records, data, uuid);
        if remoteIdentity.Err? {
          return Err(remoteIdentity.error);
        }
        r := AddThenLink(j, d, rt, identity, remoteIdentity.value, data, uuid);
      case IdentityOnly(remoteIdentity) =>
        if !rt.Has(remoteIdentity) {
          // the message interpolates the guard function itself
          return Fail("cannot join -- table " + ToStr(rt.name) + " has no identity " + ToStr(Fn(0)));
        }
        r := LinkPair(j, d, identity, remoteIdentity);
      case Datas(_) =>
        r := j.LinkMany(d);
      case DataPairs(_) =>
        r := j.LinkMany(d);
      case NoTarget =>
        r := Fail("bad term");
    }

    /** `remoteTable.add(data, remoteIdentity)` and then `link` of the pair:
        an add that fails is the error, with no record changed. */
    method AddThenLink(j: Join, d: Direction, rt: Table, identity: Value, remoteIdentity: Value, data: Value, uuid: Value)
      returns (r: Result<(), Error>)
      requires Valid() && j.base == this && rt in ValueSet(tables)
      modifies this, ValueSet(tables)
      ensures Valid() && joins == old(joins)
      ensures r.Err? ==> RecordsKept({rt})
      ensures var s := old(AddSpec(rt.behaviour, rt.name, rt.records, data, remoteIdentity, false, uuid));
        && (s.Err? ==> r == Err(s.error) && RecordsKept({}))
        && (r.Ok? ==> s.Ok?)
      ensures var s := old(AddSpec(rt.behaviour, rt.name, rt.records, data, remoteIdentity, false, uuid));
        s.Ok? ==>
          var (f, t) := LinkOrder(d, identity, remoteIdentity);
          var g := j.LinkGuardFrom(f, t, old(Snapshot())[rt := s.value], old(tables));
          && (g.Err? ==> r == Err(g.error))
          && (g.Ok? ==> j.LinkedFrom(g.value.0, g.value.1, f, t, r.Ok?, old(Snapshot())[rt := s.value], old(tables)))
    {
      r := AddRemote(rt, data, remoteIdentity, uuid);
      if r.Ok? {
        r := LinkPairSnapshot(j, d, identity, remoteIdentity);
      }
    }

    /** The `join` transaction handler: the local identity must exist; the
        term selects a join, the remote table is backed up, the target is
        added and linked, and on any error the remote table is restored. */
    method JoinByTerm(t: Table, identity: Value, term: JoinTerm, uuid: Value) returns (r: Result<(), Error>)
      requires Valid() && t in ValueSet(tables)
      modifies this, ValueSet(tables), Caches()
      ensures Valid() && joins == old(joins)
      ensures !old(t.Has(identity)) ==> r == Fail("join: no identity " + ToStr(identity) + " in " + ToStr(t.name))
      ensures r.Err? ==> RecordsKept({})
      ensures term.selection.Unselected? || term.target.Datas? || term.target.DataPairs? || term.target.NoTarget? ==> r.Err?
    {
      if !t.Has(identity) {
        return Fail("join: no identity " + ToStr(identity) + " in " + ToStr(t.name));
      }
      r := JoinSelected(t, identity, term, uuid);
    }

    /** The `join` handler once the local identity is known present: the
        join the term selects, the table across it, and the linking step. */
    method JoinSelected(t: Table, identity: Value, term: JoinTerm, uuid: Value) returns (r: Result<(), Error>)
      requires Valid() && t in ValueSet(tables)
      modifies this, ValueSet(tables), Caches()
      ensures Valid() && joins == old(joins)
      ensures r.Err? ==> RecordsKept({})
      ensures term.selection.Unselected? || term.target.Datas? || term.target.DataPairs? || term.target.NoTarget? ==> r.Err?
    {
      var item := JoinFromTerm(t, term.selection);
      if item.Err? {
        return Err(item.error);
      }
      var j := Get(joins, item.value.0);
      var remote := RemoteTable(j, item.value.1);
      if remote.Err? {
        return Err(remote.error);
      }
      r := LinkRestoring(j, item.value.1, remote.value, identity, term.target, uuid);
    }

    /** `backUpTable` and `restoreTable` around the linking step: the remote
        table's records are saved first and put back when the step fails. */
    method LinkRestoring(j: Join, d: Direction, rt: Table, identity: Value, target: Target, uuid: Value) returns (r: Result<(), Error>)
      requires Valid() && j.base == this && rt in ValueSet(tables)
      modifies this, ValueSet(tables)
      ensures Valid() && joins == old(joins)
      ensures r.Err? ==> RecordsKept({})
      ensures target.Datas? || target.DataPairs? || target.NoTarget? ==> r.Err?
    {
      var backup := rt.records;
      r := LinkTarget(j, d, rt, identity, target, uuid);
      if r.Err? {
        rt.records := backup;
      }
    }
  }

  /** A snapshot in which only `rt`'s records changed. */
  lemma SnapshotUpdate(before: map<Table, Records>, after: map<Table, Records>, rt: Table, added: Records)
    requires after.Keys == before.Keys && rt in before && after[rt] == added
    requires forall u | u in after && u != rt :: after[u] == before[u]
    ensures after == before[rt := added]
  {
  }

  /** The local and the remote identity in the order `link(fromIdentity,
      toIdentity)` takes them: the local one first when the local table is
      the join's `from` side. */
  function LinkOrder(d: Direction, local: Value, remote: Value): (r: (Value, Value))
    ensures d == From ==> r.0 == local && r.1 == remote
    ensures d == To ==> r.0 == remote && r.1 == local
  {
    if d == From then (local, remote) else (remote, local)
  }

  /** One more join name: the fold over the first `i + 1` names, from the
      fold over the first `i`. */
  lemma CollectTagsStep(ks: seq<string>, results: seq<Result<Option<Direction>, Error>>, i: nat)
    requires |ks| == |results| && i < |ks|
    ensures var prior := CollectTags(ks[..i], results[..i]);
      CollectTags(ks[..i + 1], results[..i + 1]) ==
        if prior.1.Some? then prior
        else match results[i]
          case Err(e) => (prior.0, Some(e))
          case Ok(None) => prior
          case Ok(Some(d)) => (Set(prior.0, ks[i], d), None)
  {
    PrefixOfPrefix(ks, i);
    PrefixOfPrefix(results, i);
  }

  lemma PrefixOfPrefix<T>(s: seq<T>, i: nat)
    requires i < |s|
    ensures s[..i + 1][..i] == s[..i]
  {
  }

  /** A table's `joins` map: join name to the direction the table takes. */
  type JoinTags = OrderedMap<string, Direction>

  /** The `joins` getter's loop as a fold over the registered join names
      `ks`, `results[i]` being the tag of `ks[i]`: the tags collected, and the
      error that stopped the loop, if any. */
  function CollectTags(ks: seq<string>, results: seq<Result<Option<Direction>, Error>>): (JoinTags, Option<Error>)
    requires |ks| == |results|
    decreases |ks|
  {
    if ks == [] then (Empty(), None)
    else
      var i := |ks| - 1;
      var prior := CollectTags(ks[..i], results[..i]);
      if prior.1.Some? then prior
      else
        match results[i]
        case Err(e) => (prior.0, Some(e))
        case Ok(None) => prior
        case Ok(Some(d)) => (Set(prior.0, ks[i], d), None)
  }

  /** Every tag collected is one of the results, for that name. */
  lemma {:induction false} CollectTagsSound(ks: seq<string>, results: seq<Result<Option<Direction>, Error>>, n: string)
    requires |ks| == |results| && OrderedMaps.Has(CollectTags(ks, results).0, n)
    ensures exists i | 0 <= i < |ks| :: ks[i] == n && results[i] == Ok(Some(Get(CollectTags(ks, results).0, n)))
    decreases |ks|
  {
    var i := |ks| - 1;
    var prior := CollectTags(ks[..i], results[..i]);
    if prior.1.None? && results[i].Ok? && results[i].value.Some? && ks[i] == n {
      assert ks[i] == n && results[i] == Ok(Some(Get(CollectTags(ks, results).0, n)));
    } else {
      assert OrderedMaps.Has(prior.0, n) && Get(prior.0, n) == Get(CollectTags(ks, results).0, n);
      CollectTagsSound(ks[..i], results[..i], n);
      var j :| 0 <= j < i && ks[..i][j] == n && results[..i][j] == Ok(Some(Get(prior.0, n)));
      assert ks[j] == n && results[j] == Ok(Some(Get(CollectTags(ks, results).0, n)));
    }
  }

  /** Without an error every result was read, and every join the results tag
      is collected. */
  lemma {:induction false} CollectTagsComplete(ks: seq<string>, results: seq<Result<Option<Direction>, Error>>, i: nat)
    requires |ks| == |results| && i < |ks|
    ensures CollectTags(ks, results).1.None? ==>
      results[i].Ok? && (results[i].value.Some? ==> OrderedMaps.Has(CollectTags(ks, results).0, ks[i]))
    decreases |ks|
  {
    var last := |ks| - 1;
    if i < last {
      assert ks[..last][i] == ks[i] && results[..last][i] == results[i];
      CollectTagsComplete(ks[..last], results[..last], i);
    }
  }

  /** When every result is a tag, the loop runs to the end. */
  lemma {:induction false} CollectTagsNoError(ks: seq<string>, results: seq<Result<Option<Direction>, Error>>)
    requires |ks| == |results| && forall i | 0 <= i < |results| :: results[i].Ok?
    ensures CollectTags(ks, results).1.None?
    decreases |ks|
  {
    if ks != [] {
      var last := |ks| - 1;
      assert forall i | 0 <= i < last :: results[..last][i] == results[i];
      CollectTagsNoError(ks[..last], results[..last]);
    }
  }

  /** Once the loop has stopped on an error, the later joins are not read. */
  lemma {:induction false} CollectTagsErrExtends(ks: seq<string>, results: seq<Result<Option<Direction>, Error>>, n: nat)
    requires |ks| == |results| && n <= |ks|
    requires CollectTags(ks[..n], results[..n]).1.Some?
    ensures CollectTags(ks, results) == CollectTags(ks[..n], results[..n])
    decreases |ks|
  {
    if n < |ks| {
      var last := |ks| - 1;
      assert ks[..last][..n] == ks[..n] && results[..last][..n] == results[..n];
      CollectTagsErrExtends(ks[..last], results[..last], n);
    } else {
      assert ks[..n] == ks && results[..n] == results;
    }
  }

  /** The key `addTable` files a configuration under: its own `name` when it
      has one, whatever that name is, else the key it was given if truthy. */
  function TableKey(config: TableConfig, name: Value): (r: Result<Value, Error>)
    ensures r.Ok? <==> config.name.Some? || Truthy(name)
    ensures r.Ok? ==> r.value == if config.name.Some? then config.name.value else name
  {
    if config.name.Some? then Ok(config.name.value)
    else if Truthy(name) then Ok(name)
    else Fail("addTable: no name for table")
  }

  /** The table `addTable` builds: its key, its hooks and its records. */
  function TableLoad(config: TableConfig, name: Value, uuid: nat -> Value): Result<(Value, Behaviour, Records), Error> {
    var key :- TableKey(config, name);
    var behaviour :- Resolve(config);
    var records :- Loaded(behaviour, Empty(), config.records, uuid);
    Ok((key, behaviour, records))
  }

  /** A table just built: fresh, with an empty join cache, and the name,
      hooks and records given. */
  twostate predicate NewTable(new t: Table, name: Value, behaviour: Behaviour, records: Records)
    reads t, t.joinCache
  {
    && fresh(t) && fresh(t.joinCache) && t.joinCache.entries == None
    && t.name == name && t.behaviour == behaviour && t.records == records
  }

  /** `new Table(base, config)` under the key `addTable` found: the hooks
      resolved, then the records loaded; an error discards the table. */
  method BuildTable(config: TableConfig, name: Value, uuid: nat -> Value) returns (r: Result<Table, Error>)
    ensures r.Ok? <==> TableLoad(config, name, uuid).Ok?
    ensures r.Ok? ==> var load := TableLoad(config, name, uuid).value;
      NewTable(r.value, load.0, load.1, load.2)
  {
    var key := TableKey(config, name);
    if key.Err? {
      return Err(key.error);
    }
    var behaviour := Resolve(config);
    if behaviour.Err? {
      return Err(behaviour.error);
    }
    r := LoadTable(key.value, behaviour.value, config.records, uuid);
  }

  /** The table constructor once the hooks are resolved. */
  method LoadTable(name: Value, behaviour: Behaviour, datas: seq<Value>, uuid: nat -> Value) returns (r: Result<Table, Error>)
    ensures r.Ok? <==> Loaded(behaviour, Empty(), datas, uuid).Ok?
    ensures r.Ok? ==> NewTable(r.value, name, behaviour, Loaded(behaviour, Empty(), datas, uuid).value)
  {
    var t := new Table(name, behaviour);
    var loaded := t.LoadRecords(datas, uuid);
    if loaded.Err? {
      return Err(loaded.error);
    }
    r := Ok(t);
  }

  /** The table across a join from a table taking direction `d`: the table
      the other side's definition names. */
  function RemoteTable(j: Join, d: Direction): (r: Result<Table, Error>)
    reads j.base
    ensures var def := if d == To then j.FromDef() else j.ToDef();
      (r.Ok? <==> OrderedMaps.Has(j.base.tables, DefTable(def)))
      && (r.Ok? ==> r.value == Get(j.base.tables, DefTable(def)) && r.value in ValueSet(j.base.tables))
  {
    if d == To then j.FromTable() else j.ToTable()
  }

  /** The remote table as the `join` handler reads it: `join.from.table` or
      `join.to.table`.  A join has no `from` or `to` property, so the read
      is of `undefined.table`, which throws. */
  function RemoteTableAsWritten(j: Join, d: Direction): (r: Result<Table, Error>)
    reads j.base
    ensures r.Err?
  {
    Fail("Cannot read properties of undefined (reading 'table')")
  }

  /** As written, the handler fails for every join, even one whose two
      tables are registered; read through `fromTable` / `toTable`, the
      remote table is found. */
  lemma JoinHandlerNeverReachesRemote(j: Join, d: Direction)
    requires OrderedMaps.Has(j.base.tables, DefTable(j.FromDef())) && OrderedMaps.Has(j.base.tables, DefTable(j.ToDef()))
    ensures RemoteTableAsWritten(j, d).Err?
    ensures RemoteTable(j, d).Ok?
  {
  }

  /** The base constructor's join configuration: a join keyed by a
      non-empty string takes that key as its name. */
  function NamedJoinConfig(key: Value, config: JoinConfig): (r: JoinConfig)
    ensures key.Str? && key.s != "" ==> r == config.(name := key.s) && JoinName(r) == key.s
    ensures !(key.Str? && key.s != "") ==> r == config
  {
    if Truthy(key) && key.Str? then config.(name := key.s) else config
  }

  /** A configuration's table is registered under its key. */
  predicate Keyed(b: Base, entry: (Value, TableConfig))
    reads b
  {
    TableKey(entry.1, entry.0).Ok? && OrderedMaps.Has(b.tables, TableKey(entry.1, entry.0).value)
  }

  predicate AllKeyed(b: Base, tableConfigs: seq<(Value, TableConfig)>)
    reads b
  {
    forall k | 0 <= k < |tableConfigs| :: Keyed(b, tableConfigs[k])
  }

  /** `new Base(config)`: every table added in order, then every join; the
      first error aborts the construction.  `uuid(i)` gives the identifiers
      the `i`th table's records are filed under. */
  method NewBase(tableConfigs: seq<(Value, TableConfig)>, joinConfigs: seq<(Value, JoinConfig)>, uuid: nat -> nat -> Value)
    returns (r: Result<Base, Error>)
    ensures r.Ok? ==> fresh(r.value) && r.value.Valid()
    ensures r.Ok? ==> AllKeyed(r.value, tableConfigs)
    ensures r.Ok? ==> forall i | 0 <= i < |joinConfigs| ::
      OrderedMaps.Has(r.value.joins, JoinName(NamedJoinConfig(joinConfigs[i].0, joinConfigs[i].1)))
  {
    var b := new Base();
    var added := AddTables(b, tableConfigs, uuid);
    if added.Err? {
      return Err(added.error);
    }
    added := AddJoins(b, joinConfigs);
    if added.Err? {
      return Err(added.error);
    }
    r := Ok(b);
  }

  /** The constructor's first loop: `addTable(config, name)` for each table. */
  method AddTables(b: Base, tableConfigs: seq<(Value, TableConfig)>, uuid: nat -> nat -> Value) returns (r: Result<(), Error>)
    requires b.Valid()
    modifies b
    ensures b.Valid() && b.joins == old(b.joins)
    ensures fresh(b.Caches() - old(b.Caches()))
    ensures r.Ok? ==> AllKeyed(b, tableConfigs)
  {
    var i := 0;
    while i < |tableConfigs|
      invariant 0 <= i <= |tableConfigs|
      invariant b.Valid() && b.joins == old(b.joins)
      invariant fresh(b.Caches() - old(b.Caches()))
      invariant forall k | 0 <= k < i :: Keyed(b, tableConfigs[k])
    {
      var added := AddOneTable(b, tableConfigs[i], uuid(i));
      if added.Err? {
        return Err(added.error);
      }
      i := i + 1;
    }
    r := Ok(());
  }

  /** One step of the first loop: no table key is lost. */
  method AddOneTable(b: Base, entry: (Value, TableConfig), uuid: nat -> Value) returns (r: Result<(), Error>)
    requires b.Valid()
    modifies b
    ensures b.Valid() && b.joins == old(b.joins)
    ensures fresh(b.Caches() - old(b.Caches()))
    ensures forall k | OrderedMaps.Has(old(b.tables), k) :: OrderedMaps.Has(b.tables, k)
    ensures r.Ok? ==> Keyed(b, entry)
  {
    ghost var before := b.tables;
    r := b.AddTable(entry.1, entry.0, uuid);
    if r.Ok? {
      ghost var key := TableLoad(entry.1, entry.0, uuid).value.0;
      ValueSetAfterSet(before, key, Get(b.tables, key));
    }
  }

  /** The constructor's second loop: `addJoin` for each join, a join keyed
      by a string taking that key as its name. */
  method AddJoins(b: Base, joinConfigs: seq<(Value, JoinConfig)>) returns (r: Result<(), Error>)
    requires b.Valid()
    modifies b, b.Caches()
    ensures b.Valid() && b.tables == old(b.tables)
    ensures r.Ok? ==> forall i | 0 <= i < |joinConfigs| ::
      OrderedMaps.Has(b.joins, JoinName(NamedJoinConfig(joinConfigs[i].0, joinConfigs[i].1)))
  {
    var i := 0;
    while i < |joinConfigs|
      invariant 0 <= i <= |joinConfigs|
      invariant b.Valid() && b.tables == old(b.tables)
      invariant forall k | 0 <= k < i :: OrderedMaps.Has(b.joins, JoinName(NamedJoinConfig(joinConfigs[k].0, joinConfigs[k].1)))
    {
      var added := b.AddJoin(NamedJoinConfig(joinConfigs[i].0, joinConfigs[i].1));
      if added.Err? {
        return Err(added.error);
      }
      i := i + 1;
    }
    r := Ok(());
  }
}
