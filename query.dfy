/** Queries over one table: the table's identities are run through a
    pipeline of selectors (a projection, a stable sort, a positional chooser)
    and the resulting items are then given the items a join relates them to.
    Items read their record from the table when asked, so the pipeline's
    callbacks see each record as the table holds it. */
module Queries {
  import opened Wrappers
  import opened Values
  import opened OrderedMaps
  import opened JoinTypes
  import opened JoinUtils
  import opened JoinIndex
  import opened Hooks
  import opened Tables
  import opened JoinRules
  import opened Schema
  import opened Sorting

  // ---------- items

  /** `TableItemClass`: an identity of a table and, once a map selector has
      run, the value it gave the item.  `override` is `undefined` when no
      value was given. */
  class TableItem {
    const table: Table
    const identity: Value
    const override: Value
    var joins: Option<OrderedMap<string, seq<TableItem>>>

    constructor (table: Table, identity: Value, override: Value)
      ensures this.table == table && this.identity == identity && this.override == override
      ensures joins == None
    {
      this.table := table;
      this.identity := identity;
      this.override := override;
      joins := None;
    }

    /** `data`: the record the table holds now. */
    function Data(): (r: Value)
      reads table
      ensures Has(table.records, identity) ==> r == Get(table.records, identity)
      ensures !Has(table.records, identity) ==> r == Undefined
    {
      table.Get(identity)
    }

    /** `value`: the given value, else the record. */
    function ItemValue(): (r: Value)
      reads table
      ensures override != Undefined ==> r == override
      ensures override == Undefined ==> r == Data()
    {
      if override == Undefined then Data() else override
    }

    /** `exists`. */
    predicate Exists()
      reads table
    {
      table.Has(identity)
    }

    /** What a callback sees of the item. */
    function View(): (v: ItemView)
      reads table
      ensures v.identity == identity && v.value == ItemValue() && v.data == Data() && v.present == Exists()
    {
      ViewOf(table.records, Entry(identity, override))
    }
  }

  /** The state of an item inside the pipeline, where every item belongs to
      the query's table. */
  datatype Entry = Entry(identity: Value, override: Value)

  /** An item as a callback sees it: `identity`, `value`, `data`, `exists`. */
  datatype ItemView = ItemView(identity: Value, value: Value, data: Value, present: bool)

  function ViewOf(records: Records, e: Entry): (v: ItemView)
    ensures v.identity == e.identity && v.present == Has(records, e.identity)
    ensures v.data == (if Has(records, e.identity) then Get(records, e.identity) else Undefined)
    ensures v.value == (if e.override == Undefined then v.data else e.override)
  {
    var data := Lookup(records, e.identity).GetOr(Undefined);
    ItemView(e.identity, if e.override == Undefined then data else e.override, data, Has(records, e.identity))
  }

  /** One item per identity of the table, in the table's order. */
  function Initial(records: Records): (r: seq<Entry>)
    ensures |r| == |records.keys|
    ensures forall i | 0 <= i < |r| :: r[i] == Entry(records.keys[i], Undefined)
  {
    seq(|records.keys|, i requires 0 <= i < |records.keys| => Entry(records.keys[i], Undefined))
  }

  // ---------- selectors

  /** A selector: a function (a projection), `{sort}`, or a chooser
      `{from?, until?, filter?, count?}`; a `count` of 0 stands for an absent
      one, as both are falsy. */
  datatype Selector =
    | Project(project: ItemView -> Value)
    | Sorter(compare: (ItemView, ItemView) -> int)
    | Chooser(from: Option<int>, until: Option<int>, filter: Option<ItemView -> Value>, count: int)

  /** The `sel` of a query definition: absent, one selector, or an array. */
  datatype SelArg = NoSel | OneSel(sel: Selector) | SelList(sels: seq<Selector>)

  /** The `selectors` getter. */
  function Selectors(sel: SelArg): (r: seq<Selector>)
    ensures sel.NoSel? ==> r == []
    ensures sel.OneSel? ==> r == [sel.sel]
    ensures sel.SelList? ==> r == sel.sels
  {
    match sel
    case NoSel => []
    case OneSel(s) => [s]
    case SelList(ss) => ss
  }

  /** A map selector: each item keeps its identity and takes the value the
      function gives; `undefined` makes the item fall back to its record. */
  function Projected(records: Records, f: ItemView -> Value, entries: seq<Entry>): (r: seq<Entry>)
    ensures |r| == |entries|
    ensures forall i | 0 <= i < |r| :: r[i].identity == entries[i].identity
    ensures forall i | 0 <= i < |r| ::
      (ViewOf(records, r[i]).value ==
        if f(ViewOf(records, entries[i])) == Undefined then ViewOf(records, entries[i]).data else f(ViewOf(records, entries[i])))
  {
    seq(|entries|, i requires 0 <= i < |entries| => Entry(entries[i].identity, f(ViewOf(records, entries[i]))))
  }

  /** A sort selector compares the items as callbacks see them. */
  function EntryOrder(records: Records, compare: (ItemView, ItemView) -> int): (Entry, Entry) -> int {
    (a: Entry, b: Entry) => compare(ViewOf(records, a), ViewOf(records, b))
  }

  function Ordered(records: Records, compare: (ItemView, ItemView) -> int, entries: seq<Entry>): (r: seq<Entry>)
    ensures multiset(r) == multiset(entries)
  {
    SortPermutes(EntryOrder(records, compare), entries);
    Sort(EntryOrder(records, compare), entries)
  }

  // ---------- the chooser

  /** A chooser keeps the item at position `i` (counted before filtering)
      when `i` is at or past `from`, before `until`, and passes `filter`. */
  predicate Keeps(records: Records, c: Selector, entries: seq<Entry>, i: nat)
    requires c.Chooser? && i < |entries|
  {
    && !(c.from.Some? && i < c.from.value)
    && !(c.until.Some? && i >= c.until.value)
    && (c.filter.Some? ==> Truthy(c.filter.value(ViewOf(records, entries[i]))))
  }

  /** The positions below `n` a chooser keeps, in increasing order. */
  function KeptIndices(records: Records, c: Selector, entries: seq<Entry>, n: nat): (r: seq<nat>)
    requires c.Chooser? && n <= |entries|
    ensures forall k | 0 <= k < |r| :: r[k] < n
    decreases n
  {
    if n == 0 then []
    else KeptIndices(records, c, entries, n - 1) + (if Keeps(records, c, entries, n - 1) then [n - 1] else [])
  }

  /** The positions kept are exactly those the chooser keeps, in
      increasing order. */
  lemma {:induction false} KeptIndicesMeaning(records: Records, c: Selector, entries: seq<Entry>, n: nat)
    requires c.Chooser? && n <= |entries|
    ensures var r := KeptIndices(records, c, entries, n);
      && (forall k | 0 <= k < |r| :: Keeps(records, c, entries, r[k]))
      && (forall k, l | 0 <= k < l < |r| :: r[k] < r[l])
      && (forall i | 0 <= i < n :: i in r <==> Keeps(records, c, entries, i))
    decreases n
  {
    if n > 0 {
      KeptIndicesMeaning(records, c, entries, n - 1);
      KeptIndicesStep(records, c, entries, n);
    }
  }

  lemma KeptIndicesStep(records: Records, c: Selector, entries: seq<Entry>, n: nat)
    requires c.Chooser? && 0 < n <= |entries|
    requires var r := KeptIndices(records, c, entries, n - 1);
      && (forall k | 0 <= k < |r| :: Keeps(records, c, entries, r[k]))
      && (forall k, l | 0 <= k < l < |r| :: r[k] < r[l])
      && (forall i | 0 <= i < n - 1 :: i in r <==> Keeps(records, c, entries, i))
    ensures var r := KeptIndices(records, c, entries, n);
      && (forall k | 0 <= k < |r| :: Keeps(records, c, entries, r[k]))
      && (forall k, l | 0 <= k < l < |r| :: r[k] < r[l])
      && (forall i | 0 <= i < n :: i in r <==> Keeps(records, c, entries, i))
  {
    var prev := KeptIndices(records, c, entries, n - 1);
    var extra: seq<nat> := if Keeps(records, c, entries, n - 1) then [n - 1] else [];
    var r := KeptIndices(records, c, entries, n);
    assert r == prev + extra;
    forall i | 0 <= i < n ensures i in r <==> Keeps(records, c, entries, i) {
      if i < n - 1 {
        assert i in r <==> i in prev;
      }
    }
  }

  lemma {:induction false} KeptIndicesPrefix(records: Records, c: Selector, entries: seq<Entry>, n: nat, m: nat)
    requires c.Chooser? && n <= m <= |entries|
    ensures |KeptIndices(records, c, entries, n)| <= |KeptIndices(records, c, entries, m)|
    ensures KeptIndices(records, c, entries, n) == KeptIndices(records, c, entries, m)[..|KeptIndices(records, c, entries, n)|]
    decreases m - n
  {
    if n < m {
      KeptIndicesPrefix(records, c, entries, n, m - 1);
      var a, b := KeptIndices(records, c, entries, n), KeptIndices(records, c, entries, m - 1);
      var whole := KeptIndices(records, c, entries, m);
      assert whole == b + (if Keeps(records, c, entries, m - 1) then [m - 1] else []);
      assert whole[..|b|] == b;
      assert whole[..|a|] == b[..|a|];
    }
  }

  function Pick(entries: seq<Entry>, idx: seq<nat>): (r: seq<Entry>)
    requires forall k | 0 <= k < |idx| :: idx[k] < |entries|
    ensures |r| == |idx| && forall k | 0 <= k < |idx| :: r[k] == entries[idx[k]]
  {
    seq(|idx|, k requires 0 <= k < |idx| => entries[idx[k]])
  }

  lemma PickSnoc(entries: seq<Entry>, idx: seq<nat>, i: nat)
    requires forall k | 0 <= k < |idx| :: idx[k] < |entries|
    requires i < |entries|
    ensures Pick(entries, idx + [i]) == Pick(entries, idx) + [entries[i]]
  {
  }

  /** How many items a `count` lets through: none kept at all stops a
      chooser, so a negative count stops it after the first. */
  function Limit(count: int): (r: Option<nat>)
    ensures r.None? <==> count == 0
    ensures count > 0 ==> r == Some(count)
    ensures count < 0 ==> r == Some(1)
  {
    if count == 0 then None else if count < 0 then Some(1) else Some(count)
  }

  /** What a chooser returns: the kept items in order, cut at the limit. */
  function Chosen(records: Records, c: Selector, entries: seq<Entry>): (r: seq<Entry>)
    requires c.Chooser?
  {
    var idx := KeptIndices(records, c, entries, |entries|);
    var n := if Limit(c.count).Some? && Limit(c.count).value < |idx| then Limit(c.count).value else |idx|;
    Pick(entries, idx[..n])
  }

  /** The chooser's loop: `index` counts every position, and the loop stops
      as soon as `count` items are kept. */
  method Choose(records: Records, c: Selector, entries: seq<Entry>) returns (out: seq<Entry>)
    requires c.Chooser?
    ensures out == Chosen(records, c, entries)
  {
    out := [];
    ghost var idx: seq<nat> := [];
    var index := -1;
    var i := 0;
    while i < |entries|
      invariant 0 <= i <= |entries| && index == i - 1
      invariant idx == KeptIndices(records, c, entries, i)
      invariant out == Pick(entries, idx)
      invariant Limit(c.count).Some? ==> |out| < Limit(c.count).value
    {
      index := index + 1;
      var e := entries[i];
      i := i + 1;
      if c.from.Some? && index < c.from.value {
        continue;
      }
      if c.until.Some? && index >= c.until.value {
        continue;
      }
      if c.filter.Some? && !Truthy(c.filter.value(ViewOf(records, e))) {
        continue;
      }
      PickSnoc(entries, idx, index);
      out := out + [e];
      idx := idx + [index];
      if c.count != 0 && c.count <= |out| {
        KeptIndicesPrefix(records, c, entries, i, |entries|);
        assert KeptIndices(records, c, entries, |entries|)[..|idx|] == idx;
        return;
      }
    }
    assert idx[..|idx|] == idx;
  }

  /** Without a count, an item is chosen exactly when its position is one
      the chooser keeps, and chosen items keep their order. */
  lemma ChosenWithoutCount(records: Records, c: Selector, entries: seq<Entry>, i: nat, j: nat)
    requires c.Chooser? && c.count == 0 && i < j < |entries|
    requires Keeps(records, c, entries, i) && Keeps(records, c, entries, j)
    ensures exists k, l ::
      (0 <= k < l < |Chosen(records, c, entries)|
        && Chosen(records, c, entries)[k] == entries[i] && Chosen(records, c, entries)[l] == entries[j])
  {
    var idx := KeptIndices(records, c, entries, |entries|);
    KeptIndicesMeaning(records, c, entries, |entries|);
    ChosenUncut(records, c, entries);
    var k :| 0 <= k < |idx| && idx[k] == i;
    var l :| 0 <= l < |idx| && idx[l] == j;
    assert k < l;
    assert Pick(entries, idx)[k] == entries[i] && Pick(entries, idx)[l] == entries[j];
  }

  /** Without a count nothing kept is cut. */
  lemma ChosenUncut(records: Records, c: Selector, entries: seq<Entry>)
    requires c.Chooser? && c.count == 0
    ensures Chosen(records, c, entries) == Pick(entries, KeptIndices(records, c, entries, |entries|))
  {
    var idx := KeptIndices(records, c, entries, |entries|);
    assert idx[..|idx|] == idx;
  }

  /** Everything a chooser returns was at a position it keeps, and with a
      count it returns no more than that many items. */
  lemma ChosenSound(records: Records, c: Selector, entries: seq<Entry>)
    requires c.Chooser?
    ensures forall e | e in Chosen(records, c, entries) ::
      exists i :: 0 <= i < |entries| && entries[i] == e && Keeps(records, c, entries, i)
    ensures Limit(c.count).Some? ==> |Chosen(records, c, entries)| <= Limit(c.count).value
    ensures c.count == 0 ==> |Chosen(records, c, entries)| == |KeptIndices(records, c, entries, |entries|)|
  {
    var idx := KeptIndices(records, c, entries, |entries|);
    KeptIndicesMeaning(records, c, entries, |entries|);
    var r := Chosen(records, c, entries);
    forall e | e in r ensures exists i :: 0 <= i < |entries| && entries[i] == e && Keeps(records, c, entries, i) {
      var k :| 0 <= k < |r| && r[k] == e;
      assert entries[idx[k]] == e;
    }
  }

  // ---------- the pipeline

  /** `applySelector`. */
  function Apply(records: Records, sel: Selector, entries: seq<Entry>): seq<Entry> {
    match sel
    case Project(f) => Projected(records, f, entries)
    case Sorter(compare) => Ordered(records, compare, entries)
    case Chooser(_, _, _, _) => Chosen(records, sel, entries)
  }

  /** The selectors applied in order, each to what the previous returned. */
  function Pipeline(records: Records, sels: seq<Selector>, entries: seq<Entry>): seq<Entry>
    decreases |sels|
  {
    if sels == [] then entries else Pipeline(records, sels[1..], Apply(records, sels[0], entries))
  }

  /** Running two lists of selectors one after the other is running their
      concatenation. */
  lemma {:induction false} PipelineAppend(records: Records, a: seq<Selector>, b: seq<Selector>, entries: seq<Entry>)
    ensures Pipeline(records, a + b, entries) == Pipeline(records, b, Pipeline(records, a, entries))
    decreases |a|
  {
    if a == [] {
      assert a + b == b;
    } else {
      assert (a + b)[0] == a[0] && (a + b)[1..] == a[1..] + b;
      PipelineAppend(records, a[1..], b, Apply(records, a[0], entries));
    }
  }

  method ApplySelector(records: Records, sel: Selector, entries: seq<Entry>) returns (out: seq<Entry>)
    ensures out == Apply(records, sel, entries)
  {
    match sel
    case Project(f) =>
      out := Projected(records, f, entries);
    case Sorter(compare) =>
      out := Ordered(records, compare, entries);
    case Chooser(_, _, _, _) =>
      out := Choose(records, sel, entries);
  }

  /** The `for … of this.selectors` loop of the `value` getter. */
  method RunSelectors(records: Records, sels: seq<Selector>, entries: seq<Entry>) returns (out: seq<Entry>)
    ensures out == Pipeline(records, sels, entries)
  {
    out := entries;
    var i := 0;
    while i < |sels|
      invariant 0 <= i <= |sels|
      invariant Pipeline(records, sels[i..], out) == Pipeline(records, sels, entries)
    {
      assert sels[i..][0] == sels[i] && sels[i..][1..] == sels[i + 1..];
      out := ApplySelector(records, sels[i], out);
      i := i + 1;
    }
  }

  // ---------- selector order

  /** Two users, 1 (`"male"`) and 2 (`"female"`), and the test suite's
      comparator putting female before male. */
  function SampleRecords(): Records {
    OMap([Num(1), Num(2)], map[Num(1) := Str("male"), Num(2) := Str("female")])
  }

  function ByGender(a: ItemView, b: ItemView): int {
    if a.value == b.value then 0 else if a.value == Str("male") then 1 else -1
  }

  function SortThenCount(): seq<Selector> {
    [Sorter(ByGender), Chooser(None, None, None, 1)]
  }

  function CountThenSort(): seq<Selector> {
    [Chooser(None, None, None, 1), Sorter(ByGender)]
  }

  /** A count of one keeps the first of two items. */
  lemma FirstOfTwo(records: Records, a: Entry, b: Entry)
    ensures Chosen(records, Chooser(None, None, None, 1), [a, b]) == [a]
  {
    var chooser := Chooser(None, None, None, 1);
    assert KeptIndices(records, chooser, [a, b], 1) == [0];
    assert KeptIndices(records, chooser, [a, b], 2) == [0, 1];
  }

  lemma SampleInitial()
    ensures Initial(SampleRecords()) == [Entry(Num(1), Undefined), Entry(Num(2), Undefined)]
  {
  }

  lemma SampleOrder()
    ensures EntryOrder(SampleRecords(), ByGender)(Entry(Num(1), Undefined), Entry(Num(2), Undefined)) == 1
  {
    var records := SampleRecords();
    var e1, e2 := Entry(Num(1), Undefined), Entry(Num(2), Undefined);
    assert ViewOf(records, e1).value == Str("male");
    assert ViewOf(records, e2).value == Str("female");
    assert Str("male") != Str("female");
    assert ByGender(ViewOf(records, e1), ViewOf(records, e2)) == 1;
    var order := EntryOrder(records, ByGender);
    assert order(e1, e2) == ByGender(ViewOf(records, e1), ViewOf(records, e2));
  }

  /** The comparator puts user 2 before user 1. */
  lemma SampleSort()
    ensures Sort(EntryOrder(SampleRecords(), ByGender), Initial(SampleRecords()))
      == [Entry(Num(2), Undefined), Entry(Num(1), Undefined)]
  {
    SampleInitial();
    SampleOrder();
    SortSwapsPair(EntryOrder(SampleRecords(), ByGender), Entry(Num(1), Undefined), Entry(Num(2), Undefined));
  }

  lemma SortThenCountPicksTwo()
    ensures Pipeline(SampleRecords(), SortThenCount(), Initial(SampleRecords())) == [Entry(Num(2), Undefined)]
  {
    var records := SampleRecords();
    var e1, e2 := Entry(Num(1), Undefined), Entry(Num(2), Undefined);
    var sels := SortThenCount();
    SampleSort();
    var sorted := Apply(records, sels[0], Initial(records));
    assert sorted == [e2, e1];
    FirstOfTwo(records, e2, e1);
    assert Apply(records, sels[1], sorted) == [e2];
    assert sels[1..][1..] == [];
  }

  lemma CountThenSortPicksOne()
    ensures Pipeline(SampleRecords(), CountThenSort(), Initial(SampleRecords())) == [Entry(Num(1), Undefined)]
  {
    var records := SampleRecords();
    var e1, e2 := Entry(Num(1), Undefined), Entry(Num(2), Undefined);
    var sels := CountThenSort();
    SampleInitial();
    FirstOfTwo(records, e1, e2);
    var counted := Apply(records, sels[0], Initial(records));
    assert counted == [e1];
    assert Sort(EntryOrder(records, ByGender), [e1]) == [e1];
    assert Apply(records, sels[1], counted) == [e1];
    assert sels[1..][1..] == [];
  }

  /** Sorting before a count of one picks user 2; counting first picks
      user 1: selectors do not commute. */
  lemma SelectorOrderMatters()
    ensures Pipeline(SampleRecords(), SortThenCount(), Initial(SampleRecords())) == [Entry(Num(2), Undefined)]
    ensures Pipeline(SampleRecords(), CountThenSort(), Initial(SampleRecords())) == [Entry(Num(1), Undefined)]
  {
    SortThenCountPicksTwo();
    CountThenSortPicksOne();
  }

  // ---------- attaching joined items

  /** A query's join definition: the join to attach, by name. */
  datatype QueryJoinDef = QueryJoinDef(joinName: string)

  datatype QueryDef = QueryDef(table: Value, sel: SelArg, joins: seq<QueryJoinDef>)

  /** The key `applyJoinDef` looks the join up by, as written: the
      definition's `name` property, which a join definition, carrying only
      `joinName`, does not have. */
  function DefNameAsWritten(joinDef: QueryJoinDef): (v: Value)
    ensures v == Undefined
  {
    Property(Obj(map["joinName" := Str(joinDef.joinName)]), Str("name")).value
  }

  /** `joins.get(key)` on a table's `joins` map, for a key of any type: the
      map is keyed by join names, so only a string that names a join finds it. */
  function TagLookup(tags: JoinTags, key: Value): (r: Option<Direction>)
    ensures r.Some? <==> key.Str? && OrderedMaps.Has(tags, key.s)
    ensures r.Some? ==> r.value == Get(tags, key.s)
  {
    if key.Str? && OrderedMaps.Has(tags, key.s) then Some(Get(tags, key.s)) else None
  }

  /** The join lookup `applyJoinDef` starts with, as written: the direction
      found under `joinDef.name`, or the error thrown.  `tags` is the table's
      `joins` map and `tagError` the error its getter threw, if any. */
  function JoinLookupAsWritten(tags: JoinTags, tagError: Option<Error>, tableName: Value, joinDef: QueryJoinDef)
    : (r: Result<Direction, Error>)
    ensures r.Err?
    ensures tagError.None? ==>
      r == Fail("cannot retrieve join " + ToStr(Undefined) + " from " + (if Truthy(tableName) then ToStr(tableName) else "<missing table>"))
  {
    if tagError.Some? then Err(tagError.value)
    else
      var key := DefNameAsWritten(joinDef);
      assert ToStr(key) == "undefined";
      match TagLookup(tags, key)
      case Some(d) => Ok(d)
      case None => Fail("cannot retrieve join " + ToStr(key) + " from " + (if Truthy(tableName) then ToStr(tableName) else "<missing table>"))
  }

  /** The users table tagged with the join `addresses:users`: looked up by
      `joinName` the join is found, looked up as written it is not. */
  lemma JoinLookupCounterexample()
    ensures var tags := Set(Empty<string, Direction>(), "addresses:users", From);
      && TagLookup(tags, Str(QueryJoinDef("addresses:users").joinName)) == Some(From)
      && JoinLookupAsWritten(tags, None, Str("users"), QueryJoinDef("addresses:users"))
         == Fail("cannot retrieve join undefined from users")
  {
    assert ToStr(Undefined) == "undefined";
    assert "cannot retrieve join " + "undefined" + " from " + "users" == "cannot retrieve join undefined from users";
  }

  /** The traversal an item of the table on side `d` of a join takes, and
      the side whose table the related identities belong to: an item on the
      from side reaches the to side's identities, and the other way round. */
  function JoinStep(d: Direction): (r: (Direction, Direction))
    ensures r.0 == r.1 && r.1 == Opposite(d)
  {
    (Opposite(d), Opposite(d))
  }

  /** The step as `applyJoinDef` writes it: on the from side it calls
      `fromIdentities`, which answers from-side identities, and files them
      as items of the to table. */
  function JoinStepAsWritten(d: Direction): (r: (Direction, Direction))
    ensures r.0 == d && r.1 == Opposite(d)
  {
    (d, Opposite(d))
  }

  /** User 1, whose `address` field holds 10, joined to address 10: the
      step as written finds nothing for user 1, the corrected one finds
      address 10. */
  lemma JoinStepCounterexample()
    ensures Step(SampleState(), Shape(false, false, true), JoinStepAsWritten(From).0, Num(1)) == Ok(Some([]))
    ensures Step(SampleState(), Shape(false, false, true), JoinStep(From).0, Num(1)) == Ok(Some([Num(10)]))
  {
    SampleSteps();
  }

  /** With fresh indexes, the corrected step relates the two sides
      conversely: a from item `f` is given the to item `t` exactly when `t`
      is given `f`. */
  lemma JoinStepConverse(fromRecs: Records, fromDef: Value, toRecs: Records, toDef: Value, f: Value, t: Value)
    requires Has(fromRecs, f) && Has(toRecs, t)
    ensures var s := IndexState(
        Ok(BuildIndex(fromRecs, fromDef)), Ok(ReverseIndex(BuildIndex(fromRecs, fromDef))),
        Ok(BuildIndex(toRecs, toDef)), Ok(ReverseIndex(BuildIndex(toRecs, toDef))));
      var shape := Shape(false, IsJoinIdentityDef(fromDef), IsJoinIdentityDef(toDef));
      && Step(s, shape, JoinStep(From).0, f).Ok? && Step(s, shape, JoinStep(From).0, f).value.Some?
      && Step(s, shape, JoinStep(To).0, t).Ok? && Step(s, shape, JoinStep(To).0, t).value.Some?
      && (t in Step(s, shape, JoinStep(From).0, f).value.value <==> f in Step(s, shape, JoinStep(To).0, t).value.value)
  {
    FreshStepIsTraversal(fromRecs, fromDef, toRecs, toDef, f);
    FreshStepIsTraversal(fromRecs, fromDef, toRecs, toDef, t);
    TraversalSymmetric(fromRecs, fromDef, toRecs, toDef, f, t);
  }

  /** `list` holds one new item of `table` per identity of `ids`, in order,
      without a value of its own. */
  predicate ItemsFor(list: seq<TableItem>, table: Table, ids: seq<Value>) {
    |list| == |ids| && forall m | 0 <= m < |list| :: list[m].table == table && list[m].identity == ids[m] && list[m].override == Undefined
  }

  /** An item's `joins` after attaching `ids` under `name`, given what
      they were before: untouched when there are none, otherwise the map
      (created if absent) gains the entry. */
  predicate JoinsAfter(joins: Option<OrderedMap<string, seq<TableItem>>>, before: Option<OrderedMap<string, seq<TableItem>>>,
                       name: string, table: Table, ids: seq<Value>)
  {
    if ids == [] then joins == before
    else
      && joins.Some? && OrderedMaps.Has(joins.value, name)
      && joins.value == Set(before.GetOr(Empty()), name, Get(joins.value, name))
      && ItemsFor(Get(joins.value, name), table, ids)
  }

  /** The traversal answered, and the identities it answered are
      attached. */
  predicate JoinedAfter(joins: Option<OrderedMap<string, seq<TableItem>>>, before: Option<OrderedMap<string, seq<TableItem>>>,
                        name: string, table: Table, step: Result<Option<seq<Value>>, Error>)
  {
    Answered(step) && JoinsAfter(joins, before, name, table, step.value.value)
  }

  /** An item after its traversal. */
  twostate predicate Joined(item: TableItem, name: string, table: Table, step: Result<Option<seq<Value>>, Error>)
    reads item
  {
    JoinedAfter(item.joins, old(item.joins), name, table, step)
  }

  /** `ids.map(identity => new TableItemClass(table, identity))`. */
  method NewItems(table: Table, ids: seq<Value>) returns (list: seq<TableItem>)
    ensures ItemsFor(list, table, ids)
    ensures forall m | 0 <= m < |list| :: fresh(list[m])
  {
    list := [];
    var m := 0;
    while m < |ids|
      invariant 0 <= m <= |ids|
      invariant ItemsFor(list, table, ids[..m])
      invariant forall k | 0 <= k < |list| :: fresh(list[k])
    {
      var item := new TableItem(table, ids[m], Undefined);
      list := list + [item];
      m := m + 1;
    }
    assert ids[..m] == ids;
  }

  /** The step shared by one item: the related identities looked up
      through the join, `ts.joins` set when there are some. */
  method AttachOne(j: Join, d: Direction, table: Table, item: TableItem, name: string, ghost s: IndexState) returns (r: Result<(), Error>)
    requires j.State() == s
    modifies j, item
    ensures j.State() == s
    ensures var step := Step(s, j.TraversalShape(), JoinStep(d).0, item.identity);
      && (r.Ok? <==> Answered(step))
      && (step.Err? ==> r == Err(step.error))
      && (step.Ok? && step.value.None? ==> r == Fail("Cannot read properties of undefined (reading 'length')"))
      && (r.Err? ==> item.joins == old(item.joins))
      && (r.Ok? ==> Joined(item, name, table, step))
  {
    var ids := j.Traverse(JoinStep(d).0, item.identity);
    if ids.Err? {
      return Err(ids.error);
    }
    if ids.value.None? {
      return Fail("Cannot read properties of undefined (reading 'length')");
    }
    if |ids.value.value| == 0 {
      return Ok(());
    }
    AttachIds(item, table, name, ids.value.value);
    r := Ok(());
  }

  /** `ts.joins.set(joinName, …)` on a map created when absent. */
  method AttachIds(item: TableItem, table: Table, name: string, ids: seq<Value>)
    requires ids != []
    modifies item
    ensures JoinsAfter(item.joins, old(item.joins), name, table, ids)
  {
    var list := NewItems(table, ids);
    var joins := if item.joins.Some? then item.joins.value else Empty();
    item.joins := Some(Set(joins, name, list));
  }

  predicate DistinctItems(items: seq<TableItem>) {
    forall k, l | 0 <= k < l < |items| :: items[k] != items[l]
  }

  /** `applyJoinDef`: the join the table's `joins` map holds under the
      name, then every item in turn given the items it relates to. */
  method ApplyJoinDef(base: Base, t: Table, items: seq<TableItem>, joinDef: QueryJoinDef) returns (r: Result<(), Error>)
    requires base.Valid() && t in ValueSet(base.tables) && DistinctItems(items)
    modifies t.joinCache, ValueSet(base.joins), items
    ensures var tags := old(base.CurrentTags(t));
      && (tags.1.Some? ==> r == Err(tags.1.value))
      && (tags.1.None? && !OrderedMaps.Has(tags.0, joinDef.joinName) ==>
            r == Fail("cannot retrieve join " + joinDef.joinName + " from " + (if Truthy(t.name) then ToStr(t.name) else "<missing table>")))
    ensures r.Ok? ==>
      var tags := old(base.CurrentTags(t));
      var name := joinDef.joinName;
      && tags.1.None? && OrderedMaps.Has(tags.0, name) && OrderedMaps.Has(base.joins, name)
      && var j := Get(base.joins, name);
      && var d := Get(tags.0, name);
      && (items != [] ==> RemoteTable(j, d).Ok?)
      && forall k | 0 <= k < |items| ::
        Joined(items[k], name, RemoteTable(j, d).value, Step(old(j.State()), j.TraversalShape(), JoinStep(d).0, items[k].identity))
  {
    var tags := base.TableJoins(t);
    if tags.Err? {
      return Err(tags.error);
    }
    var name := joinDef.joinName;
    if !OrderedMaps.Has(tags.value, name) || !OrderedMaps.Has(base.joins, name) {
      return Fail("cannot retrieve join " + name + " from " + (if Truthy(t.name) then ToStr(t.name) else "<missing table>"));
    }
    GetInValueSet(base.joins, name);
    var j := Get(base.joins, name);
    var d := Get(tags.value, name);
    if items == [] {
      return Ok(());
    }
    // The getter is read once per item in the source; nothing here changes
    // the registry, so every read answers alike.
    var remote := RemoteTable(j, d);
    if remote.Err? {
      return Err(remote.error);
    }
    r := AttachAll(j, d, remote.value, items, name);
  }

  /** `items.forEach(…)`: every item in turn, stopping at the first
      error. */
  method AttachAll(j: Join, d: Direction, table: Table, items: seq<TableItem>, name: string) returns (r: Result<(), Error>)
    requires DistinctItems(items)
    modifies j, items
    ensures j.State() == old(j.State())
    ensures r.Ok? ==> forall k | 0 <= k < |items| ::
      Joined(items[k], name, table, Step(old(j.State()), j.TraversalShape(), JoinStep(d).0, items[k].identity))
  {
    ghost var s, shape := j.State(), j.TraversalShape();
    ghost var steps := seq(|items|, k requires 0 <= k < |items| => Step(s, shape, JoinStep(d).0, items[k].identity));
    ghost var before := seq(|items|, k requires 0 <= k < |items| reads items => items[k].joins);
    var i := 0;
    while i < |items|
      invariant 0 <= i <= |items|
      invariant j.State() == s
      invariant forall k | 0 <= k < i :: JoinedAfter(items[k].joins, before[k], name, table, steps[k])
      invariant forall k | i <= k < |items| :: items[k].joins == before[k]
    {
      label Before:
      r := AttachOne(j, d, table, items[i], name, s);
      if r.Err? {
        return;
      }
      forall k | 0 <= k < |items| && k != i ensures items[k].joins == old@Before(items[k].joins) {
        assert items[k] != items[i];
      }
      i := i + 1;
    }
    r := Ok(());
  }

  // ---------- the query

  /** `Query`: a base, a definition, and the memoized `value`. */
  class Query {
    const base: Base
    const def: QueryDef
    var cache: Option<seq<TableItem>>

    constructor (base: Base, def: QueryDef)
      ensures this.base == base && this.def == def && cache == None
    {
      this.base := base;
      this.def := def;
      cache := None;
    }

    /** The items the pipeline yields for `t`, before any join is
        attached. */
    function Selected(t: Table): (r: seq<Entry>)
      reads t
    {
      Pipeline(t.records, Selectors(def.sel), Initial(t.records))
    }

    /** The `value` getter: computed once; a missing table gives an empty
        answer that is not remembered.  The items are remembered before the
        join definitions are applied, so an error thrown by one leaves them
        in place. */
    method Value() returns (r: Result<seq<TableItem>, Error>)
      requires base.Valid()
      modifies this, base.Caches(), ValueSet(base.joins)
      ensures old(cache).Some? ==> r == Ok(old(cache).value) && cache == old(cache)
      ensures old(cache).None? && !OrderedMaps.Has(base.tables, def.table) ==> r == Ok([]) && cache == None
      ensures old(cache).None? && OrderedMaps.Has(base.tables, def.table) ==>
        var t := Get(base.tables, def.table);
        && cache.Some? && Materialised(cache.value, t, Selected(t))
        && (r.Ok? ==> r.value == cache.value)
    {
      if cache.Some? {
        return Ok(cache.value);
      }
      if !OrderedMaps.Has(base.tables, def.table) {
        return Ok([]);
      }
      GetInValueSet(base.tables, def.table);
      var t := Get(base.tables, def.table);
      var sels := Selectors(def.sel);
      var entries := Initial(t.records);
      if |sels| > 0 {
        entries := RunSelectors(t.records, sels, entries);
      }
      var items := Materialise(t, entries);
      cache := Some(items);
      r := ApplyJoins(base, t, items, def.joins);
      if r.Ok? {
        r := Ok(items);
      }
    }
  }

  /** One item of `t` per entry, with the entry's identity and value. */
  predicate Materialised(items: seq<TableItem>, t: Table, entries: seq<Entry>) {
    |items| == |entries| && forall k | 0 <= k < |items| ::
      items[k].table == t && items[k].identity == entries[k].identity && items[k].override == entries[k].override
  }

  method Materialise(t: Table, entries: seq<Entry>) returns (items: seq<TableItem>)
    ensures Materialised(items, t, entries) && DistinctItems(items)
    ensures forall k | 0 <= k < |items| :: fresh(items[k])
  {
    items := [];
    var k := 0;
    while k < |entries|
      invariant 0 <= k <= |entries|
      invariant Materialised(items, t, entries[..k]) && DistinctItems(items)
      invariant forall l | 0 <= l < |items| :: fresh(items[l])
    {
      var item := new TableItem(t, entries[k].identity, entries[k].override);
      items := items + [item];
      k := k + 1;
    }
    assert entries[..k] == entries;
  }

  /** One join definition applied, seen only through the join it names. */
  method ApplyNamedJoin(base: Base, t: Table, items: seq<TableItem>, joinDef: QueryJoinDef) returns (r: Result<(), Error>)
    requires base.Valid() && t in ValueSet(base.tables) && DistinctItems(items)
    modifies t.joinCache, ValueSet(base.joins), items
    ensures r.Ok? ==> OrderedMaps.Has(base.joins, joinDef.joinName)
  {
    r := ApplyJoinDef(base, t, items, joinDef);
  }

  /** The join definitions applied in order; the first error is thrown. */
  method ApplyJoins(base: Base, t: Table, items: seq<TableItem>, defs: seq<QueryJoinDef>) returns (r: Result<seq<TableItem>, Error>)
    requires base.Valid() && t in ValueSet(base.tables) && DistinctItems(items)
    modifies base.Caches(), ValueSet(base.joins), items
    ensures r.Ok? ==> r.value == items
    ensures r.Ok? ==> forall k | 0 <= k < |defs| :: OrderedMaps.Has(base.joins, defs[k].joinName)
    ensures defs == [] ==> r == Ok(items)
  {
    var i := 0;
    while i < |defs|
      invariant i <= |defs|
      invariant forall k | 0 <= k < i :: OrderedMaps.Has(base.joins, defs[k].joinName)
    {
      var e := ApplyNamedJoin(base, t, items, defs[i]);
      if e.Err? {
        return Err(e.error);
      }
      i := i + 1;
    }
    r := Ok(items);
  }
}
