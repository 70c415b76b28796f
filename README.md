# carpenter-2 core in Dafny

A model of the core of carpenter-2, an in-memory relational store written in
TypeScript. The store has these parts:

- **Tables.** Each one is an insertion-ordered map from identity to record. Its configurable hooks are `onCreate`, `onUpdate`, `identityFromRecord`, `testRecord` and `testTable`.
- **Transactional handlers.** `add`, `update`, `updateMany`, `delete`, `setField` and `join` write a table and validate it. When validation fails they roll back, either to the previous record or to a snapshot of the whole table.
- **Joins.** A join relates two tables. Each side is keyed by the records' identities or by a field. A join builds and caches a forward index (identity to keys) and a reverse index (key to identities) per side, and traverses from an identity on one side to identities on the other. Between two identity-keyed tables, a join can also record links as rows of an association ("via") table.
- **Queries.** A query runs a table's items through a pipeline of selectors: map, sort and chooser. It then attaches the items related through named joins.

The modules follow the source:

| module | file | source |
|---|---|---|
| `Values` | values.dfy | JavaScript values (`unknown`), truthiness, `String(v)`, property reads |
| `OrderedMaps` | ordered_maps.dfy | `Map` and the collection library's keyed collections |
| `Wrappers` | wrappers.dfy | `Option`/`Result`, for absent values and thrown errors |
| `JoinTypes` | join_types.dfy | `src/types/joins.ts` |
| `JoinUtils` | join_utils.dfy | `src/joinUtils.ts` |
| `JoinIndex` | join_index.dfy | the index building shared by `src/JoinManager.ts` and `src/Join.ts` |
| `Hooks` | hooks.dfy | table hooks (`src/Table.ts`) and the via join's hooks (`src/Join.ts`) |
| `Tables` | tables.dfy | `src/Table.ts` and the table handlers of `src/contextHandlers.ts` |
| `JoinRules` | join_rules.dfy | the pure rules of `src/Join.ts` (name, strategy, traversal, via records) |
| `JoinManagers` | join_manager.dfy | `src/JoinManager.ts` |
| `Schema` | schema.dfy | class `Join` (`src/Join.ts`), class `Base` (`src/Base.ts`), the `joins` getter, `addJoin` and `$joinFromTerm` of `src/Table.ts`, and the `join` handler |
| `Sorting` | sorting.dfy | the stable sort behind a sort selector |
| `Queries` | query.dfy | `src/Query.ts` and `src/TableItemClass.ts` |

How the model is built:

- **Classes where the source mutates objects.** `Table`, `JoinCache`, `Join`, `Base`, `JoinManager`, `IndexMap`, `TableItem` and `Query` are classes whose methods change their fields. Each such method is specified by a function of the old state: a `*Spec` or `*Plan` function, `Step`, `RelatedMap` and the like. Its properties are proved as lemmas about that function.
- **Thrown errors.** A thrown error is an `Err` carrying the source's message.
- **Rollbacks.** A rollback is a postcondition: on `Err` the records are the old records.
- **Callbacks.** User callbacks are arrows over the values a callback sees: `onCreate`, `onUpdate`, the validators, selector maps, filters and comparators.
- **Random identities.** The random `uuid.v4()` identity is a parameter.
- **Join-definition guards.** They follow `src/types/joins.ts`: a side is identity-keyed when it is a base definition without `field`. `src/types.ts:114-120` defines this differently. Only the `src/types/joins.ts` meaning lets `parseConfig('addresses')` (`{table: 'addresses'}`) be an identity side, which the join tests rely on.

## Model

| member | source | states |
|---|---|---|
| Values.PutAt | src/contextHandlers.ts:221 | cloning a record and setting a field puts the value under that key. This is possible exactly for objects, Maps and in-range array indices. |
| Values.Property | src/Table.ts:46-49 | reading `record[key]` fails exactly when the record is `undefined` or `null`. On an object it yields the property. On an array or a string, `length` is the number of elements; any key of an array that is neither `length` nor a canonical index reads `undefined`. |
| Values.CanonicalIndex | src/Table.ts:46-49 | a key counts as an array index only when it is the canonical decimal spelling of that index |
| Values.DigitsOfCanonical | src/Table.ts:46-49 | a non-empty digit string without a leading zero is the decimal spelling of its value |
| Values.IndexOfNatToString | src/Table.ts:46-49 | the decimal spelling of every natural number is recognised as that index |
| Values.ArrayElementRead | src/Table.ts:46-49 | reading index `i` of an array, by number or by its decimal string, gives element `i`; past the end it reads `undefined` |
| Values.StringCharRead | src/Table.ts:46-49 | reading index `i` of a string gives its one-character string |
| Values.PutOtherKey | src/contextHandlers.ts:221 | setting one property of an object clone leaves every other property as it was |
| OrderedMaps.Set | src/Table.ts:281-283 | `map.set(k, v)`: `k` now holds `v` and every other key is unchanged. An existing key keeps its position; a new key is appended. |
| OrderedMaps.Delete | src/contextHandlers.ts:118 | `deleteKey(k)`: `k` is gone and every other key is unchanged. Deleting an absent key changes nothing. |
| OrderedMaps.Filter | src/contextHandlers.ts:162 | keeps exactly the entries whose value passes, with their values |
| OrderedMaps.ValuesInOrder | src/Query.ts:50 | `values` lists one value per key, in key order |
| OrderedMaps.DeleteUndoesInsert | src/contextHandlers.ts:29-30 | deleting a key that was new restores the map exactly, order included |
| OrderedMaps.SetBackUndoesOverwrite | src/contextHandlers.ts:31-32 | putting the previous record back restores the map exactly |
| JoinTypes.Classify | src/types/joins.ts:9-29 | a value is an identity definition iff it is a base definition without `field`, and a field definition iff it is a base definition with `field`. The three outcomes are exclusive. A base definition has `table`, and its `compare`, when present, is a function. |
| JoinTypes.FieldWithoutTableIsNotADef | src/types/joins.ts:26-29 | for every argument with a `field`: without `table`, or with a `compare` that is not a function, it is no definition. With `table` and no bad `compare` it is the field definition of that table and field. |
| JoinTypes.ClassifyTerm | src/types/joins.ts:47-105 | the selection and the target of a term correspond to the guards, taken in the order the join handler tests them (both directions of each case) |
| JoinTypes.IdentityAndDataPassesThreeGuards | src/types/joins.ts:61-85 | a term with `identity` and `data` passes three guards at once; only the test order makes it an identity+data term |
| JoinTypes.DatasNeedAnArray | src/types/joins.ts:89-105 | for every term without `identity` and `data`: an array `datas` is a many-item target of those items, a Map `datas` alone is no target, and a Map `dataPairs` is a pairs target unless `datas` already makes a many-item term |
| JoinTypes.IsJoinByTag | src/types/joins.ts:148-155 | for every value: only objects are joins, an object is a join exactly when its `$type` is `'JoinObj'`, and setting any other key keeps that answer |
| JoinUtils.Added | src/joinUtils.ts:10-17 | a new key gets `[v]`. An existing key's list grows by `v` only when `v` is unseen, keeping its order and staying duplicate-free. Other keys are untouched. |
| JoinUtils.AddedEachMeaning | src/joinUtils.ts:4-8 | adding a list element by element unions it into the key's list, keeps the old list as a prefix, stays duplicate-free and touches no other key |
| JoinUtils.IndexMap.constructor | src/JoinManager.ts:80 | a new index map is empty |
| JoinUtils.IndexMap.AddToIndex | src/joinUtils.ts:4-18 | `addToIndex` changes the map as `Added` (or, for a listed array, each element in turn) says |
| JoinUtils.AddAll | src/joinUtils.ts:25 | adding to a `Set` keeps what was there first, in order, adds exactly the new elements and keeps the list duplicate-free |
| JoinUtils.IdentitiesForMidKeys | src/joinUtils.ts:20-30 | the result is duplicate-free and holds exactly the identities the reverse index lists under the mid keys it has. Absent mid keys are skipped. |
| JoinUtils.CollectIdentitiesForMidKeys | src/joinUtils.ts:20-30 | the `forEach` loop computes `IdentitiesForMidKeys` |
| JoinUtils.ExtractFieldDef | src/joinUtils.ts:32-49 | an array field value is returned as is, any other defined value as `[v]`, and an undefined field or a non-container record gives `[]` |
| JoinUtils.ParseConfig | src/joinUtils.ts:51-59 | a table name becomes `{table: name}`, an identity definition; a definition object is returned unchanged |
| JoinIndex.KeysFor | src/JoinManager.ts:60-68 | an identity side keys a record by `[identity]`, a field side by its field's keys, and anything else by `[]` |
| JoinIndex.BuildIndex | src/Join.ts:166-179 | the forward index has the table's identities in table order, each mapped to its keys |
| JoinIndex.ReverseIndexMeaning | src/JoinManager.ts:78-91 | `reverse[k]` contains `i` iff `index[i]` contains `k`, and every list is duplicate-free |
| JoinIndex.BuildReverse | src/Join.ts:181-194 | the nested `forEach` loops compute the reverse index |
| JoinIndex.FileUnderKeys | src/Join.ts:185-187 | the inner loop files one identity under each of its keys |
| JoinIndex.ManagerIdentities | src/JoinManager.ts:109-121 | an identity absent from the other side's index gives `[]`. An identity side or a via join returns the other side's entry unchanged. Otherwise the result is the deduplicated union through the reverse index. |
| JoinIndex.JoinIdentities | src/Join.ts:424-436 | the same case split for a whole join. A via join reads its own index with no guard, so it can answer `undefined`. |
| JoinIndex.JoinAgreesWithManager | src/Join.ts:424-436 | the join's traversal and the manager's `identities` agree, except on a via join's missing key |
| JoinIndex.TraversalSymmetric | src/Join.ts:394-436 | with fresh indexes, `t` is in `toIdentities(f)` iff `f` is in `fromIdentities(t)` |
| JoinIndex.RecordsForMidKeysMeaning | src/Join.ts:19-33 | `recordsForMidKeys` holds exactly the reached identities that the table has, each with its record |
| JoinIndex.CollectRecordsForMidKeys | src/Join.ts:19-33 | the loop computes `RecordsForMidKeys` |
| JoinManagers.JoinManager.constructor | src/JoinManager.ts:15-17 | the side's direction, its parsed definition and empty caches |
| JoinManagers.JoinManager.PurgeIndexes | src/JoinManager.ts:35-38 | both caches are dropped, so the next `index` is rebuilt from the table's current records |
| JoinManagers.JoinManager.SetIndex | src/JoinManager.ts:41-43 | the setter replaces the forward cache only |
| JoinManagers.JoinManager.Index | src/JoinManager.ts:55-72 | the getter answers the cached index, or builds and caches one mapping every identity as `KeysFor` says. A via join with no cached index does not build one (the empty map stands in for the source's throw). |
| JoinManagers.JoinManager.IndexReverse | src/JoinManager.ts:78-91 | the getter answers the cached reverse index, or builds and caches the reverse of the forward index |
| JoinManagers.JoinManager.Identities | src/JoinManager.ts:109-121 | `identities(other)` is `ManagerIdentities` of the other side's index and this side's reverse index |
| JoinManagers.JoinManager.Records | src/JoinManager.ts:128-131 | `records(other)` is `identities(other)` mapped through `table.get`, with the same length and order |
| JoinManagers.OtherManager | src/JoinManager.ts:21-29 | the from side's other manager is `to`, and the to side's is `from` |
| JoinManagers.ManagersAgreeWithJoin | src/JoinManager.ts:109-121 | with fresh caches the to manager answers what `toIdentities` does, and the from manager what `fromIdentities` does |
| Hooks.ToError | src/contextHandlers.ts:14-22 | a thrown string becomes the message; any other value becomes the content of an error with the default message |
| Hooks.StrTest | src/Table.ts:38-52 | a function is used as given, a falsy value falls back to generated identities and a string becomes the accessor `record[s]`. It fails exactly on truthy non-strings. |
| Hooks.ViaCreate | src/Join.ts:350-360 | the association table accepts exactly objects naming both tables with scalar identities, and returns them unchanged |
| Hooks.ViaRecordAgreesWithHooks | src/Join.ts:343-384 | between distinct tables, the record `linkVia` writes passes `onCreate`, and the association table derives from it the identity it is filed under |
| Hooks.SelfViaRecordLosesFromId | src/Join.ts:383 | for a self-join both names are one property, so the record loses `fromId` |
| Hooks.Resolve | src/Table.ts:56-62 | the constructor's defaults: `onCreate` falls back to identity, `onUpdate` to `onCreate`, the identity rule to `strTest` or generated. Resolution fails iff `strTest` does. |
| Hooks.Create | src/Table.ts:58 | the default creator keeps the data and the via creator runs the via check |
| Hooks.ProcessData | src/Table.ts:89-94 | `onUpdate(data, table, current)` runs when the identity is truthy and present; `onCreate` runs otherwise |
| Hooks.AccessorReadsArraysAndStrings | src/Table.ts:44-49 | an accessor identity reads array elements and string lengths: `'0'` of `[7]` is 7, `'length'` of `"abc"` is 3 |
| Hooks.IdentityFor | src/Table.ts:124-126 | a generated identity is the supplied uuid. An accessor reads the property and fails exactly on `undefined`/`null`. A via table uses `${fromId}_$via$_${toId}`. |
| Tables.JoinCache.constructor | src/Table.ts:96 | a table's `joins` map starts unbuilt |
| Tables.GetMany | src/Table.ts:221-229 | the map holds exactly the requested identities whose record is defined, each with its record |
| Tables.GetRecords | src/Table.ts:231-239 | the list is duplicate-free and holds exactly the defined records of the requested identities |
| Tables.GetRecordsInRequestOrder | src/Table.ts:231-239 | the records come in the order of their first request: a record listed earlier was asked for, by some identity, before every record listed after it |
| Tables.FirstRequest | src/Table.ts:232-237 | the position of the first requested identity that holds the record, or the request count when none does |
| Tables.FirstRequestExtends | src/Table.ts:232-237 | one more requested identity keeps the first request of a record already asked for, and is the first request of a record first asked for by it |
| Tables.MemoPositionsKept | src/Table.ts:232-237 | one more request does not move the first request of any record already in the list |
| Tables.NewRecordIsLast | src/Table.ts:232-237 | a record the loop appends is first asked for by the identity that appends it |
| Tables.Commit | src/contextHandlers.ts:102-107 | a write succeeds iff `testRecord` passes on the old table and `testTable` passes on the new one, and then it sets exactly that key |
| Tables.AddPlan | src/contextHandlers.ts:78-101 | `add` keeps a given identity. It fails on an existing identity unless `replace` is set, and fails when no identity can be derived. A successful add without `replace` never targets an existing key. The record written is `processData` of the data: under the given identity, or, when none is given, under the identity derived from the processed record (or from `uuid`), processed again under that identity only if the first pass gave `undefined`. |
| Tables.UpdatePlan | src/contextHandlers.ts:124-132 | `update` fails on a missing identity unless `upsert` is set; otherwise it writes the processed data |
| Tables.DeleteSpec | src/contextHandlers.ts:112-121 | deleting an absent identity changes nothing. Otherwise it succeeds iff the table validates without the key, and then removes only that key. |
| Tables.SetFieldPlan | src/contextHandlers.ts:217-222 | `setField` fails on a missing identity. Otherwise the new record has the value in that field and every other field of an object record unchanged. |
| Tables.SetFieldChangesOneField | src/contextHandlers.ts:217-223 | with the default hooks, a successful `setField` writes that one record, with only that field changed |
| Tables.FromKeyed | src/contextHandlers.ts:153-159 | the record map of keyed data has exactly the given keys |
| Tables.MergedAt | src/contextHandlers.ts:166-174 | the merge deletes keys mapped to `undefined`, sets keys mapped to records and leaves every other key alone |
| Tables.UpdateManyResult | src/contextHandlers.ts:143-178 | a successful `updateMany` returns its record map. With `replace` it leaves exactly the defined records; without, the merge. |
| Tables.UpdateManyOutcome | src/contextHandlers.ts:162-174 | per key: with `replace`, a key is present iff its record is defined. Without, `undefined` deletes, a record sets, and an unmentioned key is untouched. |
| Tables.Table.constructor | src/Table.ts:56-62 | a new table has its name, its resolved hooks, no records and an unbuilt `joins` cache |
| Tables.Table.SetRecord | src/Table.ts:281-283 | `$set` changes exactly one key |
| Tables.Table.DeleteKey | src/contextHandlers.ts:118 | removes exactly one key |
| Tables.Table.WriteValidated | src/contextHandlers.ts:24-36 | the write leaves the table as `Commit` says on success. On failure the new key is deleted again or the previous record is put back, so the table is exactly as before. |
| Tables.Table.Add | src/contextHandlers.ts:78-110 | the `add` handler succeeds iff `AddSpec` does and leaves its table; on failure the table is unchanged |
| Tables.Table.Update | src/contextHandlers.ts:124-140 | the `update` handler succeeds iff `UpdateSpec` does and leaves its table; on failure the table is unchanged |
| Tables.Table.Delete | src/contextHandlers.ts:111-122 | the `delete` handler leaves what `DeleteSpec` says; a failed validation restores the snapshot |
| Tables.Table.SetField | src/contextHandlers.ts:217-223 | the `setField` handler leaves what `SetFieldSpec` says; on failure the table is unchanged |
| Tables.Table.UpdateMany | src/contextHandlers.ts:143-179 | the `updateMany` handler returns the record map and leaves the table `UpdateManySpec` gives; any failure restores every record |
| Tables.Table.TestRecords | src/contextHandlers.ts:202-209 | `validateRecords` reports the first rejected record, in map order |
| Tables.Table.MergeIn | src/contextHandlers.ts:166-174 | the merging loop leaves `Merged` |
| Tables.Table.BuildRecordMap | src/contextHandlers.ts:144-160 | the record-map loops compute `RecordMap` |
| Tables.Table.RecordMapOfDatas | src/contextHandlers.ts:145-151 | a list's records are created and filed under their derived identities |
| Tables.Table.RecordMapOfKeyed | src/contextHandlers.ts:153-159 | keyed data is processed under each key, and `undefined` stays `undefined` |
| Tables.Table.LoadRecords | src/Table.ts:64-70 | the array form of `records` leaves `Loaded`. On an error the records filed before it stay in the half-loaded table, which `Schema.LoadTable` and `Schema.BuildTable` then discard without registering it. |
| Tables.Table.CreateRecords | src/Table.ts:66 | every configured record is run through `processData` |
| Tables.Table.FileRecords | src/Table.ts:67-70 | each created record is filed under the identity derived from it |
| Tables.FromDatasStep | src/contextHandlers.ts:145-151 | one more list item either ends the record map with its `processData` or identity error, or files its record under its derived identity |
| Tables.CreateAll | src/Table.ts:66 | creating the records yields one per configured record |
| Tables.RejectionExtends | src/contextHandlers.ts:202-209 | once a record is rejected, later records do not change the error |
| Tables.FileAllBound | src/Table.ts:67-70 | loading keeps every key already present and adds at most one key per record |
| Tables.FileAllLastWins | src/Table.ts:64-70 | a created record filed under an identity leaves that identity in the table, and holds it at the end unless a later record is filed under the same identity |
| Tables.FiledAtPrefix | src/Table.ts:67-70 | where a record was filed does not depend on the records created after it |
| JoinRules.SortPair | src/Join.ts:106 | the two table names in sorted order, `undefined` last |
| JoinRules.NameSymmetric | src/Join.ts:101-109 | swapping `from` and `to` gives the same join name |
| JoinRules.UsersAddressesName | src/Join.ts:106 | users and addresses make the join `addresses:users`, in either order |
| JoinRules.StrategyOfBaseDefs | src/Join.ts:236-249 | `via` gives identity-via-identity. Otherwise the strategy is field-field, field-identity, identity-field or identity-identity exactly as the two definitions are field or identity definitions. |
| JoinRules.NamedSidesAreIdentityIdentity | src/Join.ts:236-249 | two tables given by name make an identity-identity join |
| JoinRules.LinkManyAlwaysFails | src/Join.ts:255-269 | `linkMany`'s two guards can never both pass, in either direction |
| JoinRules.Traverse | src/Join.ts:424-436 | a traversal propagates an index error and otherwise answers `JoinIdentities`. The reverse index is read only when mid keys are needed. |
| JoinRules.FreshStepIsTraversal | src/Join.ts:394-436 | with fresh indexes, the two traversals answer `ToIds` and `FromIds` |
| JoinRules.RelatedMap | src/Join.ts:438-449 | the map holds exactly the given identities with a non-empty answer, each with that answer; an error comes from one of the identities |
| JoinRules.RecordsArray | src/Join.ts:451-453 | the records of a traversal's identities, same length and order. An empty answer needs no table. |
| JoinRules.MidKeysOf | src/Join.ts:456-469 | an identity to side gives `[identity]`; any other gives the to index's entry |
| JoinRules.FromRecordsMapOf | src/Join.ts:455-472 | an identity-identity join answers the record itself. Otherwise the answer holds only from records reached through the mid keys. |
| JoinRules.FromRecordsByMidKeys | src/Join.ts:456-471 | the mid-key path holds exactly the from records filed under any mid key of the identity, each with its own record |
| JoinRules.FileRecords | src/Join.ts:388-391 | the `reduce` maps exactly the given identities to the target's records |
| JoinRules.ToRecordsMap | src/Join.ts:387-392 | (corrected) the map holds exactly the `toIdentities` answer, each with its to record |
| JoinRules.ToRecordsMapKeys | src/Join.ts:387-392 | with fresh indexes the corrected map's keys are the to identities related to the from identity |
| JoinRules.ToRecordsMapCounterexample | src/Join.ts:387-392 | as written, user 1 finds no address, while the corrected map holds address 10 |
| JoinRules.SampleSteps | src/Join.ts:394-436 | on the sample, `fromIdentities(1)` is empty and `toIdentities(1)` is `[10]` |
| JoinRules.ViaLinked | src/Join.ts:374-385 | `linkVia` writes `{[from]: fromId, [to]: toId}` under `${fromId}_$via$_${toId}` only when that key is absent, and touches no other key |
| JoinRules.ViaLinkedWrites | src/Join.ts:379-384 | an absent association key gets exactly the via record |
| JoinRules.ViaLinkedKeeps | src/Join.ts:379-384 | a present association key leaves the records as they were |
| JoinRules.LinkViaIdempotent | src/Join.ts:379-384 | linking the same pair twice leaves one record, and the table grows by at most one |
| Schema.Join.constructor | src/Join.ts:95-96 | a new join has its configuration and four empty caches |
| Schema.Join.FromTable | src/Join.ts:140-144 | the from table, when registered |
| Schema.Join.ToTable | src/Join.ts:146-150 | the to table, when registered |
| Schema.Join.PurgeIndexes | src/Join.ts:129-134 | all four caches are dropped, so every index is the one built from the current records |
| Schema.Join.FromIndex | src/Join.ts:166-179 | the getter answers the current from index and changes no index |
| Schema.Join.ToIndex | src/Join.ts:206-219 | the getter answers the current to index and changes no index |
| Schema.Join.FromIndexReverse | src/Join.ts:181-194 | the getter answers the current reverse from index |
| Schema.Join.ToIndexReverse | src/Join.ts:221-234 | the getter answers the current reverse to index |
| Schema.Join.ToIdentities | src/Join.ts:424-436 | `toIdentities` answers the traversal `Step` towards the to side |
| Schema.Join.FromIdentities | src/Join.ts:394-409 | `fromIdentities` answers the traversal `Step` towards the from side |
| Schema.Join.Traverse | src/Join.ts:394-436 | one traversal in either direction |
| Schema.Join.IdentitiesMap | src/Join.ts:411-449 | the `*IdentitiesMap` loops compute `RelatedMap` |
| Schema.Join.ToRecordsArray | src/Join.ts:451-453 | the to records of `toIdentities`, in order |
| Schema.Join.FromRecordsArray | src/Join.ts:474-476 | the from records of `fromIdentities`, in order |
| Schema.Join.MidKeys | src/Join.ts:456-469 | the mid keys `fromRecordsMap` starts from |
| Schema.Join.FromRecordsMap | src/Join.ts:455-472 | `fromRecordsMap` answers `FromRecordsMapOf` |
| Schema.Join.FromRecordsByMidKeys | src/Join.ts:456-471 | the mid-key path of `fromRecordsMap` answers `JoinRules.FromRecordsByMidKeys` and leaves every index as it was |
| Schema.Join.ToRecordsMap | src/Join.ts:387-392 | (corrected) `toRecordsMap` answers `JoinRules.ToRecordsMap` |
| Schema.Join.LinkMany | src/Join.ts:251-285 | `linkMany` always fails, after reading the targeted table |
| Schema.Join.LinkGuard | src/Join.ts:288-290 | `link` proceeds iff both tables exist and hold the two identities |
| Schema.Join.Link | src/Join.ts:287-325 | `link` fails on the guard with the tables unchanged. Otherwise it does what `Linked` says. Any failure leaves every table as it was. |
| Schema.Join.LinkChecked | src/Join.ts:292-324 | field-identity sets only the from record's field and identity-field only the to record's. Identity-identity fails unless the identities are equal, and field-field unless the field values agree; neither writes. Via writes the association record. |
| Schema.Join.LinkField | src/Join.ts:295 | the table's records become what `SetFieldSpec` gives |
| Schema.Join.ViaTable | src/Join.ts:364-372 | the association table, registered with the via hooks if it was missing; otherwise nothing changes |
| Schema.Join.LinkVia | src/Join.ts:374-385 | the association records become `ViaLinked` and no existing table is replaced |
| Schema.Join.LinkByField | src/Join.ts:293-303 | field-identity and identity-field links set the one foreign key `link` writes, as `SetFieldSpec` says, and a failure changes no table |
| Schema.Join.LinkByValue | src/Join.ts:309-323 | identity-identity and field-field links write nothing and succeed exactly when the identities, or the two field values, agree |
| Schema.WriteViaRecord | src/Join.ts:379-384 | the association table's records become `ViaLinked` |
| Schema.MapToRecords | src/Join.ts:451-453 | `.map(table.get)` over a traversal answers `RecordsArray` |
| Schema.Base.constructor | src/Base.ts:38-50 | a new registry has no tables and no joins |
| Schema.Base.TableFor | src/Base.ts:52-54 | `table(name)` gives the registered table iff there is one |
| Schema.Base.Has | src/Base.ts:56-65 | false for an unregistered table; true for a table alone; otherwise `table.has(identity)` |
| Schema.Base.Register | src/Base.ts:83 | files a new, empty table under the name, replacing any table of that name |
| Schema.Base.AddTable | src/Base.ts:81-89 | succeeds iff the key and the records load. It then files the new table under the key; otherwise the tables are unchanged. |
| Schema.Base.TagResults | src/Table.ts:100-106 | one tag per registered join, in order |
| Schema.Base.JoinsGetterTags | src/Table.ts:97-109 | a join is tagged `from` when its from table is this table, else `to` when its to table is, else left out |
| Schema.Base.TableJoins | src/Table.ts:97-109 | the `joins` getter builds its map once and answers the cache afterwards |
| Schema.Base.CollectJoinTags | src/Table.ts:100-106 | the `forEach` over the registry's joins collects what the fold `CollectTags` gives: the tags in join order, stopping at the first error |
| Schema.CollectTagsStep | src/Table.ts:100-106 | one more join either adds its tag, skips an untouched join, or stops at its error |
| Schema.Base.AddJoinTo | src/Table.ts:111-122 | `addJoin` tags the join's name with the direction in the table's `joins` map, building the map first if needed |
| Schema.Base.AddJoin | src/Base.ts:67-75 | a second join of the same name is refused and the registry is unchanged. Otherwise the join is stored and tagged on both tables. |
| Schema.Base.MatchesFor | src/Table.ts:307-310 | exactly the joins touching the named table, without repeats |
| Schema.Base.SelectJoin | src/Table.ts:296-335 | a join name selects that join with its recorded direction. A table name fails unless exactly one join matches. |
| Schema.Base.SelectByTable | src/Table.ts:302-322 | a table name selects the one registered join of the table's `joins` map that touches that table, with its recorded direction; no match or several matches fail |
| Schema.Base.JoinFromTerm | src/Table.ts:293-337 | `$joinFromTerm` answers `SelectJoin` over the table's current `joins` map; a term without a selection fails with `cannot find linkVia` |
| Schema.LinkOrder | src/contextHandlers.ts:247-251 | for direction `from` the local identity comes first, for `to` the remote one |
| Schema.Base.LinkPair | src/contextHandlers.ts:247-251 | `link` gets the identities in `LinkOrder`. It fails with its guard's error, or leaves the pair `Linked` as `Schema.Join.Link` promises; a failure changes no records. |
| Schema.Base.AddThenLink | src/contextHandlers.ts:243-259 | a target with data is added to the remote table first. A failed add is its error with no table changed, and a success implies the add succeeded. After a successful add the outcome is `link`'s, judged against the tables as they were with only the added record in the remote table: a failing guard (`Schema.Join.LinkGuardFrom`) is the error, and otherwise the pair is `LinkedFrom` with `r.Ok?` exactly as `Schema.Join.Link` promises, so a link whose strategy accepts the pair succeeds. |
| Schema.Base.AddRemote | src/contextHandlers.ts:243-246 | the remote `add` leaves the remote table as `AddSpec` says and every other table's records as they were |
| Schema.Join.LinkGuardFrom | src/Join.ts:287-290 | the guard of `link` read from a snapshot of the registry and the records: it passes exactly when both tables are registered and hold the two identities, and then names the two tables |
| Schema.Join.LinkGuardOnSnapshot | src/Join.ts:287-290 | on a snapshot of the current state the snapshot guard is `link`'s guard |
| Schema.TableIn | src/Join.ts:139-149 | a registry yields the table under a name exactly when it holds that name |
| Schema.Base.LinkPairSnapshot | src/contextHandlers.ts:247-251 | `LinkPair`'s outcome, with the guard and the link both judged against the records of every table before the call |
| Schema.SnapshotUpdate | src/contextHandlers.ts:243-251 | a snapshot in which only the remote table changed is the old snapshot with that table's new records |
| Schema.Base.LinkTarget | src/contextHandlers.ts:240-278 | many-item targets and missing targets fail. An identity alone is linked as `LinkPair` states. With data, a failed add (or, for data alone, a failed identity) is the error with no record changed; after a successful add the guard's error or the link's outcome comes back, as `AddThenLink` states. A failure keeps every table but the remote one. |
| Schema.Base.LinkRestoring | src/contextHandlers.ts:240-279 | the remote table is snapshotted before the link and put back on failure, so a failure leaves every table as it was |
| Schema.Base.JoinSelected | src/contextHandlers.ts:229-278 | the handler after its identity check: an unselected term, a many-item target and a missing target fail, and any failure (selection, remote table, link) leaves every table as it was |
| Schema.Base.JoinByTerm | src/contextHandlers.ts:225-279 | the `join` handler fails on a missing local identity, and any failure leaves every table as it was |
| Schema.CollectTagsSound | src/Table.ts:100-106 | every tag collected is the result read for that join |
| Schema.CollectTagsComplete | src/Table.ts:100-106 | without an error, every join tagged by its result is in the map |
| Schema.CollectTagsNoError | src/Table.ts:100-106 | when every result is a tag, the loop runs to the end |
| Schema.TableKey | src/Base.ts:81-89 | the key is `config.name` when present, else the `name` argument; it fails iff neither exists |
| Schema.BuildTable | src/Table.ts:56-79 | `new Table(base, config)` succeeds iff `TableLoad` does, with those hooks and records |
| Schema.LoadTable | src/Table.ts:64-70 | the constructor loads the configured records into a new table |
| Schema.RemoteTable | src/contextHandlers.ts:238 | (corrected) the remote table is the one across the join from the table's direction |
| Schema.RemoteTableAsWritten | src/contextHandlers.ts:238 | as written, reading `join.from.table` always fails |
| Schema.JoinHandlerNeverReachesRemote | src/contextHandlers.ts:238 | even with both tables registered, the handler as written fails where the corrected one finds the table |
| Schema.NamedJoinConfig | src/Base.ts:28-33 | a non-empty string key becomes the join's name; any other key leaves the configuration as given |
| Schema.NewBase | src/Base.ts:20-36 | a successful construction registers every table under its key and every join under its name |
| Schema.AddTables | src/Base.ts:21-25 | every table configuration is filed under its key |
| Schema.AddOneTable | src/Base.ts:22-24 | one step of the table loop keeps every earlier key |
| Schema.AddJoins | src/Base.ts:27-35 | every join configuration is registered under its name |
| Sorting.SortPermutes | src/Query.ts:113 | sorting is a permutation |
| Sorting.SortSorted | src/Query.ts:113 | for a consistent comparator, the result is ordered |
| Sorting.SortStable | src/Query.ts:113 | items the comparator ties keep their relative order |
| Sorting.SortSwapsPair | src/Query.ts:111-114 | two items the comparator puts out of order are swapped |
| Queries.TableItem.constructor | src/TableItemClass.ts:4 | `table` and `identity` are fixed at construction |
| Queries.TableItem.Data | src/TableItemClass.ts:7-9 | `data` is the table's current record, `undefined` when absent |
| Queries.TableItem.ItemValue | src/TableItemClass.ts:11-16 | a defined override wins; otherwise `value` is `data` |
| Queries.TableItem.View | src/TableItemClass.ts:7-20 | callbacks see `identity`, `value`, `data` and `exists` as the getters give them |
| Queries.ViewOf | src/TableItemClass.ts:7-20 | the same view computed from a table's records |
| Queries.Initial | src/Query.ts:52 | with no selectors, one item per table key, in table order |
| Queries.Selectors | src/Query.ts:26-34 | absent gives `[]`, one selector gives `[sel]`, and an array is used as given |
| Queries.Projected | src/Query.ts:102-110 | a map selector keeps the count, order and identities. Each value becomes the function's answer, falling back to the record on `undefined`. |
| Queries.Ordered | src/Query.ts:111-114 | a sort selector permutes the items |
| Queries.KeptIndicesMeaning | src/Query.ts:116-137 | the kept positions are increasing, and position `i` is kept iff `i >= from`, `i < until` and `filter` passes, with `i` counted before filtering |
| Queries.Limit | src/Query.ts:138-140 | a count of 0 means no limit; a negative count stops after the first item kept |
| Queries.Choose | src/Query.ts:116-143 | the chooser's loop returns the kept items in order, cut at the limit |
| Queries.ChosenWithoutCount | src/Query.ts:116-137 | without a count, every kept item is returned, in its original relative order |
| Queries.ChosenUncut | src/Query.ts:138-140 | without a count, nothing kept is cut |
| Queries.ChosenSound | src/Query.ts:116-141 | everything returned was at a kept position, and never more than the count |
| Queries.PipelineAppend | src/Query.ts:46-48 | the selectors are a left fold: running two lists is running the second on the first's output |
| Queries.ApplySelector | src/Query.ts:100-144 | `applySelector` dispatches to map, sort or chooser |
| Queries.RunSelectors | src/Query.ts:46-48 | the `for … of` loop computes the fold |
| Queries.FirstOfTwo | src/Query.ts:138-140 | a count of one keeps the first of two items |
| Queries.SampleSort | src/Query.ts:111-114 | the gender comparator puts user 2 before user 1 |
| Queries.SortThenCountPicksTwo | src/Query.ts:46-48 | sorting by gender and then keeping one item keeps user 2 |
| Queries.CountThenSortPicksOne | src/Query.ts:46-48 | keeping one item and then sorting keeps user 1 |
| Queries.SelectorOrderMatters | src/Query.ts:46-48 | sort-then-count picks user 2, count-then-sort picks user 1 |
| Queries.JoinStep | src/Query.ts:80-86 | (corrected) a from item traverses to to identities and a to item to from identities |
| Queries.JoinStepAsWritten | src/Query.ts:80-86 | as written, a from item calls `fromIdentities` yet wraps the answers as to items |
| Queries.JoinStepCounterexample | src/Query.ts:80-86 | user 1 with address 10 gets no address as written, and address 10 when corrected |
| Queries.JoinStepConverse | src/Query.ts:80-86 | with fresh indexes, the corrected step gives `f` the item `t` iff it gives `t` the item `f` |
| Queries.NewItems | src/Query.ts:96 | one new item of the target table per related identity, in order |
| Queries.AttachOne | src/Query.ts:75-97 | an item with related identities gets them under the join name. One with none gets no entry. A failed traversal leaves its `joins` unchanged. |
| Queries.AttachIds | src/Query.ts:92-96 | the `joins` map is created when absent, and the join name is set to the new items, leaving other names alone |
| Queries.DefNameAsWritten | src/Query.ts:69-70 | as written, `joinDef.name` of a join definition, which has only `joinName`, is `undefined` |
| Queries.TagLookup | src/Query.ts:70 | `joins.get(key)` finds a tag exactly when the key is a string the map holds |
| Queries.JoinLookupAsWritten | src/Query.ts:68-72 | as written, the lookup by `joinDef.name` always fails, and its message names `undefined` |
| Queries.JoinLookupCounterexample | src/Query.ts:68-72 | users with the join `addresses:users`: looking up `joinName` finds it, while the code as written throws `cannot retrieve join undefined from users` |
| Queries.ApplyJoinDef | src/Query.ts:68-98 | an unknown join name fails with `cannot retrieve join`. Otherwise every item is given the items the corrected step relates it to. |
| Queries.AttachAll | src/Query.ts:75-97 | the `forEach` over items: each item is joined, the others are untouched, and the indexes are unchanged |
| Queries.Query.constructor | src/Query.ts:19-20 | a new query has no cached value |
| Queries.Query.Value | src/Query.ts:37-66 | `value` is computed once. A missing table gives `[]`, which is not remembered. Otherwise one item per pipeline entry is remembered before the joins are attached. |
| Queries.Materialise | src/Query.ts:45-52 | one distinct new item per entry, with its identity and value |
| Queries.ApplyNamedJoin | src/Query.ts:68-72 | a join definition that applies without error names a join registered in the schema |
| Queries.ApplyJoins | src/Query.ts:55-62 | the join definitions run in order. On success the same items are returned and every definition named a join registered in the schema; no definitions always succeed. |

## Left out

- The collection library `@wonderlandlabs/collect` is modelled only as the ordered map it wraps. The transaction library `@wonderlandlabs/transact` (`trans.do`, `trans.meta`, nested transactions) is modelled as: snapshot, run, and on error restore and return `Err`. Both are foreign code.
- `uuid.v4()` is replaced by an identity supplied as a parameter, because it is random.
- `Table.generate` (src/Table.ts:171-207) is not modelled: it depends on the JavaScript generator protocol.
- The record-object branch of the table constructor (src/Table.ts:71-77) passes `$set` its arguments swapped and is not modelled. Only the array form of `records` is.
- The `console.log` calls are left out, as output.
- Via-mode index population: `indexVia` is not part of this model, because it is not defined in the source. A via join's traversal reads its own index only.
- JoinManagers.JoinManager.Index: for a via join with no cached index the getter calls `this.join.indexVia()` (src/JoinManager.ts:57-58), which `Join` does not define, so the source throws a `TypeError`; the model answers the empty map there instead, and so do `IndexReverse`, `Identities` and `Records`, which read it.
- JoinRules.SortPair: table names are ordered by `JoinRules.LexLess`, which compares Unicode code points, whereas `Array.prototype.sort` compares UTF-16 code units; the two orders differ only for names with characters outside the Basic Multilingual Plane.
- `toJSON` of queries and items is not part of this model.
- `src/types.ts` is only used for the selector and item shapes. Its conflicting join-definition guards are not modelled.
- The fixtures and the tests are used only as concrete witnesses (users 1 and 2, address 10).
- An error is a message and the value thrown. JavaScript `Error` objects, stack traces and the extra fields `Object.assign` attaches are not modelled.
- Numbers are integers only. Floating point, `NaN` and `-0` are not modelled.
- Object identity is not modelled: objects, arrays and Maps are values compared by content, where `===`, `includes` and `Map` keys compare them by reference. Two distinct records with equal content are therefore treated as one; `Tables.GetRecords` then lists them once where `getRecords` (src/Table.ts:231-239) lists both.
- A query's join definition: its nested `sel` and `joins` are ignored, as the source ignores them.
- Queries.ApplyJoins: the contract does not state which definition's error is thrown, nor what several join definitions together leave on the items. `Queries.ApplyJoinDef` states it one definition at a time.
- Queries.ApplyJoinDef: the remote table is read once, before the items, instead of once per item. Nothing between the reads can change the registry.
- Queries.Ordered: the comparator is a total function. The order in which the JavaScript engine calls it and what it returns for inconsistent comparators are not modelled. The model sorts stably by insertion, which `Array.prototype.sort` guarantees.
- Chooser arguments: `from`, `until` and `count` are integers or absent. Non-numeric values, and `count` values other than integers, are not modelled.
- Schema.Join.LinkMany: only the guards' failure is modelled. The writes after them (src/Join.ts:271-284) can never run.
- Schema.Base.JoinByTerm: the contract states the failure cases and the rollback, not what a successful join writes. As written the handler never succeeds (see Findings). On the corrected path, `Schema.Base.LinkTarget` states the outcome of each target: the link of an identity alone, and for a target with data the add and then the guard and link, which `Schema.Base.AddThenLink` states against the tables with only the added record changed.
- Values.Property: a Map's `size`, a function's `name` and `length`, and members inherited from prototypes (`push`, `toString`, …) read `undefined`. Only own properties, array and string indices and `length` are modelled.
- Schema.NewBase: the contract states what a successful construction registers. Errors are propagated without a stated cause.
- JoinManagers: `JoinManager` is not used by the rest of the source. It is modelled on its own, and proved to agree with `Join`'s traversals.
- Errors that cannot occur in the model are not modelled. One example is `cannot find table` in the `JoinManager.table` getter: the table is passed in.
- Caches are never purged on writes, as in the source. After a write the indexes can be stale, and the model keeps that.

## Findings

| source | as written | input that shows it | evidently intended | confidence | as-written member | corrected member |
|---|---|---|---|---|---|---|
| src/Join.ts:387-392 | `toRecordsMap(fromIdentity)` collects `fromIdentities(fromIdentity)` and looks them up in the to table | users 1 (`address: 10`) and addresses 10, field-identity join: `toRecordsMap(1)` is empty | traverse with `toIdentities`, giving `{10 => address 10}` | not executed | JoinRules.ToRecordsMapCounterexample | JoinRules.ToRecordsMapKeys |
| src/contextHandlers.ts:238 | the `join` handler reads `join.from.table` / `join.to.table`, which `Join` does not define | any join with both tables registered: reading `.table` of `undefined` throws | the table across the join: `join.fromTable` for direction `to`, `join.toTable` for `from` | not executed | Schema.JoinHandlerNeverReachesRemote | Schema.RemoteTable |
| src/Query.ts:80-86 | on the `from` side `applyJoinDef` calls `fromIdentities`, which answers from-side identities, and wraps them as to-table items | user 1 with address 10: user 1 gets no addresses | a from item traverses with `toIdentities` (and a to item with `fromIdentities`) | not executed | Queries.JoinStepCounterexample | Queries.JoinStepConverse |
| src/Query.ts:69-72 | `applyJoinDef` looks the join up by `joinDef.name`, which a join definition (`{ joinName, sel?, joins? }`) does not have | a query on users with joins `[{ joinName: 'addresses:users' }]`: it throws `cannot retrieve join undefined from users` | look the join up by `joinDef.joinName` | not executed | Queries.JoinLookupCounterexample | Queries.ApplyJoinDef |
