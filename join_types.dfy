/** The discriminators of join definitions and join terms.  Each guard is a
    predicate over an arbitrary value, as the type guards are; `Classify` and
    `ClassifyTerm` turn a value into the tagged union those guards describe. */
module JoinTypes {
  import opened Values

  /** `arg && typeof arg === 'object'`: a truthy value whose type is object. */
  predicate IsObject(arg: Value) {
    arg.Obj? || arg.Arr? || arg.MapV?
  }

  /** `key in arg` for an object: an own property of a plain object.  Arrays and
      Maps carry none of the property names the guards ask about. */
  predicate HasProp(arg: Value, key: string) {
    arg.Obj? && key in arg.fields
  }

  function Prop(arg: Value, key: string): Value
    requires HasProp(arg, key)
  {
    arg.fields[key]
  }

  predicate IsBaseJoinDef(arg: Value) {
    && Truthy(arg)
    && IsObject(arg)
    && HasProp(arg, "table")
    && ((HasProp(arg, "compare") && Prop(arg, "compare").Fn?) || !HasProp(arg, "compare"))
  }

  predicate IsFieldDef(arg: Value) {
    IsBaseJoinDef(arg) && HasProp(arg, "field")
  }

  predicate IsJoinIdentityDef(arg: Value) {
    IsBaseJoinDef(arg) && !IsFieldDef(arg)
  }

  /** A join definition as a tagged union: a side keyed by its records'
      identities, a side keyed by a field of its records, or no definition. */
  datatype JoinDef =
    | IdentityDef(table: Value)
    | FieldDef(table: Value, field: Value)
    | NotADef

  function Classify(arg: Value): (d: JoinDef)
    ensures d.IdentityDef? <==> IsJoinIdentityDef(arg)
    ensures d.FieldDef? <==> IsFieldDef(arg)
    ensures d.NotADef? <==> !IsBaseJoinDef(arg)
    ensures !d.NotADef? ==> arg.Obj? && "table" in arg.fields && d.table == arg.fields["table"]
    ensures d.FieldDef? ==> d.field == arg.fields["field"]
    ensures !d.NotADef? && "compare" in arg.fields ==> arg.fields["compare"].Fn?
  {
    if !IsBaseJoinDef(arg) then NotADef
    else if HasProp(arg, "field") then FieldDef(Prop(arg, "table"), Prop(arg, "field"))
    else IdentityDef(Prop(arg, "table"))
  }

  /** A `field` key alone does not make a field definition: without `table`,
      or with a `compare` that is not a function, the value is no definition;
      with `table` and an acceptable `compare` it is a field definition. */
  lemma FieldWithoutTableIsNotADef(arg: Value)
    requires HasProp(arg, "field")
    ensures !HasProp(arg, "table") ==> Classify(arg) == NotADef
    ensures HasProp(arg, "compare") && !Prop(arg, "compare").Fn? ==> Classify(arg) == NotADef
    ensures HasProp(arg, "table") && (HasProp(arg, "compare") ==> Prop(arg, "compare").Fn?) ==>
      Classify(arg) == FieldDef(Prop(arg, "table"), Prop(arg, "field"))
  {
  }

  predicate IsJoinTermJoinName(arg: Value) {
    Truthy(arg) && IsObject(arg) && HasProp(arg, "joinName")
  }

  predicate IsJoinTermTableName(arg: Value) {
    Truthy(arg) && IsObject(arg) && HasProp(arg, "tableName")
  }

  predicate IsJoinTermIdentityData(arg: Value) {
    Truthy(arg) && IsObject(arg) && HasProp(arg, "identity") && HasProp(arg, "data")
  }

  predicate IsJoinTermData(arg: Value) {
    Truthy(arg) && IsObject(arg) && HasProp(arg, "data")
  }

  predicate IsJoinTermIdentity(arg: Value) {
    Truthy(arg) && IsObject(arg) && HasProp(arg, "identity")
  }

  predicate IsJoinTermDatas(arg: Value) {
    Truthy(arg) && IsObject(arg) && HasProp(arg, "datas") && Prop(arg, "datas").Arr?
  }

  /** `dataPairs` is an array of pairs or an instance of Map. */
  predicate IsJoinTermDataPairs(arg: Value) {
    Truthy(arg) && IsObject(arg) && HasProp(arg, "dataPairs")
    && (Prop(arg, "dataPairs").Arr? || Prop(arg, "dataPairs").MapV?)
  }

  predicate IsJoin(arg: Value) {
    Truthy(arg) && IsObject(arg) && HasProp(arg, "$type") && Prop(arg, "$type") == Str("JoinObj")
  }

  /** How a term names the join: by join name, by the other table's name, or not at all. */
  datatype Selection = ByJoinName(joinName: Value) | ByTableName(tableName: Value) | Unselected

  /** What a term asks to link, in the order the join handler tests the guards. */
  datatype Target =
    | IdentityAndData(identity: Value, data: Value)
    | DataOnly(data: Value)
    | IdentityOnly(identity: Value)
    | Datas(datas: seq<Value>)
    | DataPairs(pairs: Value)
    | NoTarget

  datatype JoinTerm = JoinTerm(selection: Selection, target: Target)

  /** The term a value denotes.  The selection tests `joinName` before
      `tableName`; the target tests identity+data, data, identity, datas and
      dataPairs in that order, so the first guard that holds decides. */
  function ClassifyTerm(arg: Value): (t: JoinTerm)
    ensures t.selection.ByJoinName? <==> IsJoinTermJoinName(arg)
    ensures t.selection.ByTableName? <==> !IsJoinTermJoinName(arg) && IsJoinTermTableName(arg)
    ensures t.target.IdentityAndData? <==> IsJoinTermIdentityData(arg)
    ensures t.target.DataOnly? <==> IsJoinTermData(arg) && !IsJoinTermIdentityData(arg)
    ensures t.target.IdentityOnly? <==> IsJoinTermIdentity(arg) && !IsJoinTermData(arg)
    ensures t.target.Datas? <==> IsJoinTermDatas(arg) && !IsJoinTermIdentity(arg) && !IsJoinTermData(arg)
    ensures t.target.DataPairs? <==>
      IsJoinTermDataPairs(arg) && !IsJoinTermDatas(arg) && !IsJoinTermIdentity(arg) && !IsJoinTermData(arg)
    ensures t.target.IdentityAndData? ==> t.target.identity == arg.fields["identity"] && t.target.data == arg.fields["data"]
    ensures t.target.DataOnly? ==> t.target.data == arg.fields["data"]
    ensures t.target.IdentityOnly? ==> t.target.identity == arg.fields["identity"]
  {
    var selection :=
      if IsJoinTermJoinName(arg) then ByJoinName(Prop(arg, "joinName"))
      else if IsJoinTermTableName(arg) then ByTableName(Prop(arg, "tableName"))
      else Unselected;
    var target :=
      if IsJoinTermIdentityData(arg) then IdentityAndData(Prop(arg, "identity"), Prop(arg, "data"))
      else if IsJoinTermData(arg) then DataOnly(Prop(arg, "data"))
      else if IsJoinTermIdentity(arg) then IdentityOnly(Prop(arg, "identity"))
      else if IsJoinTermDatas(arg) then Datas(Prop(arg, "datas").items)
      else if IsJoinTermDataPairs(arg) then DataPairs(Prop(arg, "dataPairs"))
      else NoTarget;
    JoinTerm(selection, target)
  }

  /** A term carrying both `identity` and `data` passes the identity+data, the
      data and the identity guards at once: only the order of the tests makes
      it an identity+data term. */
  lemma IdentityAndDataPassesThreeGuards(arg: Value)
    requires IsJoinTermIdentityData(arg)
    ensures IsJoinTermData(arg) && IsJoinTermIdentity(arg)
    ensures ClassifyTerm(arg).target == IdentityAndData(arg.fields["identity"], arg.fields["data"])
  {
  }

  /** `datas` must be an array, while `dataPairs` may also be a Map: in a
      term without `identity` and `data`, a Map given as `datas` is passed
      over, and a Map given as `dataPairs` is a target. */
  lemma DatasNeedAnArray(arg: Value)
    requires !HasProp(arg, "identity") && !HasProp(arg, "data")
    ensures HasProp(arg, "datas") && Prop(arg, "datas").Arr? ==>
      ClassifyTerm(arg).target == Datas(Prop(arg, "datas").items)
    ensures HasProp(arg, "datas") && Prop(arg, "datas").MapV? && !HasProp(arg, "dataPairs") ==>
      ClassifyTerm(arg).target == NoTarget
    ensures HasProp(arg, "dataPairs") && Prop(arg, "dataPairs").MapV? && !IsJoinTermDatas(arg) ==>
      ClassifyTerm(arg).target == DataPairs(Prop(arg, "dataPairs"))
  {
  }

  /** Only a plain object can be a join, and then it is one exactly when its
      `$type` is the string `JoinObj`, whatever its other properties. */
  lemma IsJoinByTag(arg: Value, k: string, v: Value)
    ensures IsJoin(arg) ==> arg.Obj?
    ensures arg.Obj? ==> (IsJoin(arg) <==> "$type" in arg.fields && arg.fields["$type"] == Str("JoinObj"))
    ensures arg.Obj? && k != "$type" ==> (IsJoin(Obj(arg.fields[k := v])) <==> IsJoin(arg))
  {
  }

  /** The five strategies a join can follow. */
  datatype Strategy = FieldField | FieldIdentity | IdentityField | IdentityIdentity | IdentityViaIdentity

  datatype Direction = From | To

  function Opposite(d: Direction): (r: Direction)
    ensures r != d
  {
    match d
    case From => To
    case To => From
  }
}
