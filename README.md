# SBData local object store, modelled in Dafny

This project models the local object store of SBData, an Objective-C data
library. For each model class it keeps one primary table of rows, keyed by
each model's unique key, and one table per declared index. It stores field
values through the `SBField` database codec and answers queries built from a
term algebra (`SBModelQueryTerm`) with a fluent builder (`SBModelQueryBuilder`).
Results are cached in result sets (`SBModelResultSet`) and ordered by the
query's properties and direction. Around the store sit:

- the network converters (`SBNetworkFieldConverting`),
- the dictionary merge (`dictionaryByMergingWithDictionary:`),
- the debugging printer `FormatContainer`.

Modules, one per component:

- `Wrappers`: `Option` and `Result`.
- `Fields` (`SBTypes.h`): `SBInteger`, `SBString` and `SBDate` values, with
  `toDatabase`, `fromDatabase` and `databaseType`. Integers are taken to be
  64-bit `NSInteger`s; this width is a modelling choice. Dates are stored as ISO 8601 text of the form
  `YYYY-MM-DDThh:mm:ssZ`: the complete representation, extended format, of a
  calendar date and a time of day in UTC (section 4.3.2 of ISO 8601:2004).
- `DataObjectTypes` (`SBDataObjectTypes.h`): the Integer, String and ISO 8601
  date converters. `fromNetwork` is partial and `toNetwork` is total.
- `DictionaryConvenience` (`NSDictionary+Convenience.h`): the merge.
- `ContainerFormat` (`SBModel_SBModelPrivate.h`): `FormatContainer`. It is
  written as a method with loops, proved equal to a recursive function, and
  paired with a corrected printer (see Findings).
- `QueryTerm` (`SBModelQueryTerm.h`): terms as an immutable datatype, with:
  - `propNames`;
  - in-memory evaluation against a model's values;
  - a rendering in this model's own notation.
- `Query` (`SBModelQuery.h`):
  - `SBModelQuery` as a value;
  - `SBModelQueryBuilder` as a class whose methods accumulate terms, ordering,
    direction and decorator, refusing undeclared properties and tuples of the
    wrong arity.
- `Ordering`: the ordering a query's `orderBy`/`sortOrder` imposes, and
  sorted insertion.
- `StoreSpec`: the store's tables as values and the lemmas about them:
  - the row codec;
  - index consistency;
  - the index-or-scan choice of candidates;
  - query matching;
  - transaction steps.
- `Store` (`SBModel.h`, `SBModel_SBModelPrivate.h`): the classes `Model`
  (`SBModel`), `ModelMeta` (`SBModelMeta`) and `ResultSet`
  (`SBModelResultSet`). Their methods change fields in place: the primary
  rows, the index tables, a model's values, a result set's cache.

The store keeps rows in database form: each property maps to the text
`toDatabase` produced, and a NULL property is absent. Reading a row decodes
each declared column with its field class's `fromDatabase`. The invariant
`ModelMeta.Valid` states three things:

- every stored row is canonical, i.e. the encoding of what it decodes to;
- there is exactly one table per declared index, under distinct names;
- each index table holds one entry per stored key: that row's values of the
  indexed properties.

A query whose only term is `Equals` on a property with its own index reads
that index table. Every other query scans all rows, and
`StoreSpec.CandidatesCoverMatches` proves that both paths find the same
models.

A transaction block is a sequence of store operations (save, remove,
removeAll) followed by the value the block leaves in `*rollback`.
`BeginTransaction` performs the operations in order. On rollback, or when an
operation fails, it restores the tables it held before.

The headers declare `remove:` and `reload:` as `void`, and they say nothing
about failures. As a modelling choice, both report `NotFound` when the key is
absent, and an operation that fails inside a transaction rolls the whole
transaction back (see "## Left out").

## Model

| member | source | states |
|---|---|---|
| `Fields.InitWithInteger` | SBData/SBTypes.h:21-24 | the field is an `SBInteger` whose `integerValue` is the integer it was made from |
| `Fields.InitWithDate` | SBData/SBTypes.h:37-39 | the field is an `SBDate` wrapping the given date unchanged |
| `Fields.DatabaseType` | SBData/SBTypes.h:15 | the column type depends only on the field class: INTEGER exactly for integers, TEXT exactly for strings, never empty |
| `Fields.FromDatabase` | SBData/SBTypes.h:14 | a decoded value is of the requested class; text always decodes as a string |
| `Fields.ToDatabase` | SBData/SBTypes.h:13 | a string is stored verbatim; the stored text of an integer parses back to it as decimal, and that of a date as ISO 8601 |
| `Fields.FormatISO8601` | SBData/SBDataObjectTypes.h:35-36 | the text is 20 characters of the form `YYYY-MM-DDThh:mm:ssZ` |
| `Fields.ParseISO8601` | SBData/SBDataObjectTypes.h:35-36 | accepts only text of the form `YYYY-MM-DDThh:mm:ssZ` (with `ISO8601RoundTrip` and `ISO8601Canonical`, exactly the formatter's texts) |
| `Fields.DatabaseRoundTrip` | SBData/SBTypes.h:13-14 | `fromDatabase(toDatabase(v)) == v` for integers, strings and dates |
| `Fields.ToDatabaseInjective` | SBData/SBTypes.h:13 | two values of one class with the same stored text are equal |
| `Fields.IntegerTextRoundTrip` | SBData/SBTypes.h:21-24 | the decimal text of any integer, including negatives, parses back to it |
| `Fields.ISO8601RoundTrip` | SBData/SBTypes.h:37-39 | parsing the ISO 8601 text of a date gives the date back |
| `Fields.ISO8601Canonical` | SBData/SBDataObjectTypes.h:35 | the only text the ISO 8601 parser accepts for a date is that date's own formatted text |
| `DataObjectTypes.FromNetwork` | SBData/SBDataObjectTypes.h:17-18 | the result, when there is one, is of the converter's class; null gives nothing; strings always convert to SBString; the date converter yields a date exactly for parseable ISO 8601 text |
| `DataObjectTypes.ToNetwork` | SBData/SBDataObjectTypes.h:20-21 | never yields null |
| `DataObjectTypes.ConverterFor` | SBData/SBDataObjectTypes.h:26-36 | the converter chosen for a field class produces that class |
| `DataObjectTypes.NetworkRoundTrip` | SBData/SBDataObjectTypes.h:15-21 | `fromNetwork(toNetwork(f)) == f` for each converter and a field of its class |
| `DataObjectTypes.DateFromNetworkCanonical` | SBData/SBDataObjectTypes.h:35 | a network value the date converter accepts is what `toNetwork` gives for the resulting date |
| `DictionaryConvenience.MergingWithDictionary` | SBData/NSDictionary+Convenience.h:13 | the keys are the union of both inputs' keys; a key of `other` keeps `other`'s value; a key only in the receiver keeps the receiver's value |
| `DictionaryConvenience.MergeWithEmpty` | SBData/NSDictionary+Convenience.h:13 | merging with an empty dictionary on either side gives the other input |
| `DictionaryConvenience.MergeIdempotent` | SBData/NSDictionary+Convenience.h:13 | merging a second time with the same dictionary changes nothing |
| `ContainerFormat.FormatContainer` | SBData/SBModel_SBModelPrivate.h:25-50 | the built string equals `Render(o)`; a string prints as itself, any other class of object as the empty string, and an array or dictionary inside its brackets or braces |
| `ContainerFormat.FormatElements` | SBData/SBModel_SBModelPrivate.h:29-37 | the loop over the elements appends each element's text and a ", " after each element that is not the last object |
| `ContainerFormat.FormatEntries` | SBData/SBModel_SBModelPrivate.h:38-47 | the loop over the keys appends `key=value` and a ", " after each key that is not the last key |
| `ContainerFormat.ArrayBodyJoin` | SBData/SBModel_SBModelPrivate.h:29-37 | while the last object has not yet occurred, the printed elements are exactly the join of their texts by ", " |
| `ContainerFormat.DictBodyJoin` | SBData/SBModel_SBModelPrivate.h:38-47 | while the last key has not yet occurred, the printed pairs are exactly the join of their texts by ", " |
| `ContainerFormat.DictionaryRendering` | SBData/SBModel_SBModelPrivate.h:38-47 | a dictionary with distinct keys prints as "{", its `key=value` pairs in `allKeys` order joined by ", ", then "}" |
| `ContainerFormat.ArrayRendering` | SBData/SBModel_SBModelPrivate.h:29-37 | an array whose last object occurs only at the end prints as "[", its elements' texts joined by ", ", then "]" |
| `ContainerFormat.RepeatedLastObjectLosesSeparator` | SBData/SBModel_SBModelPrivate.h:33-35 | the identity test loses a separator: the two-element array of one string object "a" prints as "[aa]", and the corrected printer gives "[a, a]" |
| `ContainerFormat.ArrayBodyFixedJoin` | SBData/SBModel_SBModelPrivate.h:29-37 | the corrected printer's elements are the join of their texts by ", " for every array |
| `ContainerFormat.FixedArrayRendering` | SBData/SBModel_SBModelPrivate.h:29-37 | every array prints, in the corrected printer, as "[" + its elements' texts joined by ", " + "]" |
| `ContainerFormat.AsWrittenAgreesWithFixed` | SBData/SBModel_SBModelPrivate.h:33-35 | when no container holds its last object (or last key) anywhere but at the end, the printer as written and the corrected one print the same text |
| `QueryTerm.PropNames` | SBData/SBModelQueryTerm.h:19-24 | a singular term reports exactly its one property; a composite term reports exactly the union of its children's properties |
| `QueryTerm.Eval` | SBData/SBModelQueryTerm.h:34-61 | an unset property satisfies no `Equals` or `ContainedWithin` term and every `NotEquals` term; `Not` of one term holds exactly where the term does not |
| `QueryTerm.EvalDependsOnlyOnPropNames` | SBData/SBModelQueryTerm.h:19 | two models that agree on a term's `propNames` satisfy the term alike |
| `QueryTerm.NotEqualsNegatesEquals` | SBData/SBModelQueryTerm.h:34-38 | NotEquals(p, v) holds exactly where Equals(p, v) does not |
| `QueryTerm.NotNegates` | SBData/SBModelQueryTerm.h:57 | Not([t]) holds exactly where t does not, and double negation gives t back |
| `QueryTerm.EmptyComposites` | SBData/SBModelQueryTerm.h:59-61 | an empty And holds of every model, an empty Or of none |
| `QueryTerm.RenderWithNamespace` | SBData/SBModelQueryTerm.h:18 | a singular term's rendering starts with its property qualified by the namespace |
| `QueryTerm.Render` | SBData/SBModelQueryTerm.h:17 | the rendering names every property the term reports |
| `QueryTerm.RenderNamesEveryProperty` | SBData/SBModelQueryTerm.h:17-19 | the rendering with namespace `ns` names `ns.p` for every property `p` the term reports |
| `Query.Root` | SBData/SBModelQuery.h:24 | the query's condition holds of a model exactly when all its terms do, and refers to exactly the terms' properties |
| `Query.AddingTermConjoins` | SBData/SBModelQuery.h:44-53 | adding a term to a query conjoins it with the earlier terms |
| `Query.TupleEquals` | SBData/SBModelQuery.h:48 | the term holds exactly when every property of the tuple equals its value; it refers to exactly the tuple's properties |
| `Query.TupleContainedTerm` | SBData/SBModelQuery.h:49 | the built term holds exactly when the model's property tuple equals one of the value tuples |
| `Query.QueryBuilder.constructor` | SBData/SBModelQuery.h:42 | a new builder has no terms, no ordering, ascending order and no decorator |
| `Query.QueryBuilder.FromQuery` | SBData/SBModelQuery.h:35 | a builder started from a query holds that query's terms, ordering, direction and decorator |
| `Query.QueryBuilder.AddTerm` | SBData/SBModelQuery.h:44-53 | a term over declared properties is added after the earlier ones and the builder is returned; otherwise the undeclared names are reported and nothing changes |
| `Query.QueryBuilder.PropertyIsEqualTo` | SBData/SBModelQuery.h:44 | appends Equals(p, v), or reports an undeclared property and changes nothing |
| `Query.QueryBuilder.PropertyIsContainedWithin` | SBData/SBModelQuery.h:45 | appends ContainedWithin(p, set), or reports an undeclared property and changes nothing |
| `Query.QueryBuilder.PropertyIsNotContainedWithinSet` | SBData/SBModelQuery.h:46 | appends a term that holds exactly where `isContainedWithin:` with the same property and set does not |
| `Query.QueryBuilder.PropertyIsNotEqualTo` | SBData/SBModelQuery.h:47 | appends NotEquals(p, v), or reports an undeclared property and changes nothing |
| `Query.QueryBuilder.PropertiesAreNotEqualTo` | SBData/SBModelQuery.h:48 | refuses value lists of another length than the property list, and undeclared properties, changing nothing; otherwise appends a term that holds exactly where the property tuple is not the value tuple |
| `Query.QueryBuilder.PropertyTupleIsContainedWithinValueTuples` | SBData/SBModelQuery.h:49 | refuses the call, changing nothing, when some value tuple is not as long as the property tuple or a property is undeclared; otherwise appends a term that holds exactly where the property tuple is one of the value tuples |
| `Query.QueryBuilder.PropertyTupleIsNotContainedWithinValueTuples` | SBData/SBModelQuery.h:50 | the same arity and declaration rules; the appended term is the complement of the contained-within form |
| `Query.QueryBuilder.Sort` | SBData/SBModelQuery.h:51 | sets the direction and returns the builder |
| `Query.QueryBuilder.OrderByProperties` | SBData/SBModelQuery.h:52 | sets the ordering properties when all are declared; otherwise reports the undeclared ones and changes nothing |
| `Query.QueryBuilder.DecorateResults` | SBData/SBModelQuery.h:53 | sets the decorator and returns the builder |
| `Query.QueryBuilder.Query` | SBData/SBModelQuery.h:55 | the query holds what the builder received (terms, ordering, direction, decorator) and matches a model exactly when all the terms hold |
| `Ordering.CmpStringProperties` | SBData/SBModelQuery.h:25-26 | the string order is antisymmetric and is 0 exactly for equal strings |
| `Ordering.CmpStringTransitive` | SBData/SBModelQuery.h:25-26 | the string order is transitive |
| `Ordering.CmpValueProperties` | SBData/SBModelQuery.h:25-26 | the order on property values (nil first) is antisymmetric and transitive, and equivalence under it is transitive |
| `Ordering.CmpRowsProperties` | SBData/SBModelQuery.h:25-26 | the lexicographic order on the `orderBy` properties is antisymmetric and transitive, and so is equivalence under it |
| `Ordering.InOrderTotal` | SBData/SBModelQuery.h:25-26 | of two models, one comes first in the query's direction |
| `Ordering.InOrderTransitive` | SBData/SBModelQuery.h:25-26 | the query's ordering is transitive, in both directions |
| `Ordering.InsertSorted` | SBData/SBModelQuery.h:25-26 | inserting into a sorted result keeps it sorted and adds exactly the new model at one position |
| `StoreSpec.EncodeRow` | SBData/SBModel.h:83-85 | the stored row has one column per property that is set, and each column decodes, under its value's class, to that value |
| `StoreSpec.DecodeEncodeRow` | SBData/SBModel_SBModelPrivate.h:55 | a well-typed model's values, stored and read back through the field codec, are unchanged |
| `StoreSpec.DecodeRow` | SBData/SBModel_SBModelPrivate.h:55 | a decoded row is well typed and holds exactly the declared columns that decode |
| `StoreSpec.EncodedRowIsCanonical` | SBData/SBModel.h:83-85 | a saved row is canonical |
| `StoreSpec.CanonicalColumn` | SBData/SBModel.h:18 | in a stored row, a property decodes to `v` exactly when its text is `v`'s text, so an index on the text answers equality on the value |
| `StoreSpec.CanonicalRowRoundTrip` | SBData/SBModel_SBModelPrivate.h:55 | a stored row is the encoding of the values it decodes to |
| `StoreSpec.WriteKeepsIndexConsistent` | SBData/SBModel.h:83-85 | writing a row and its index entry keeps that index table consistent with the rows |
| `StoreSpec.DeleteKeepsIndexConsistent` | SBData/SBModel.h:87-89 | deleting a row and its index entry keeps that index table consistent with the rows |
| `StoreSpec.WriteKeepsInvariant` | SBData/SBModel.h:83-85 | `save:` keeps the store invariant: canonical rows, one consistent table per index |
| `StoreSpec.DeleteKeepsInvariant` | SBData/SBModel.h:87-89 | `remove:` keeps the store invariant |
| `StoreSpec.ClearedStoreInvariant` | SBData/SBModel.h:91-93 | an empty primary table with every index table empty satisfies the invariant |
| `StoreSpec.AbsentKeyNotIndexed` | SBData/SBModel.h:87-89 | an index table has no entry for a key with no stored row |
| `StoreSpec.Lookup` | SBData/SBModel.h:110 | a key is found exactly when a row is stored under it; the found model carries that key and well-typed values |
| `StoreSpec.LookupAfterWrite` | SBData/SBModel.h:83-85 | after a row is written for a key, finding that key gives the saved values back, and every other key finds what it found before |
| `StoreSpec.MatchingKeys` | SBData/SBModelQuery.h:30 | exactly the stored keys whose decoded row satisfies the query |
| `StoreSpec.DistinctKeysCount` | SBData/SBModel.h:28-29 | a result with distinct keys has as many models as keys |
| `StoreSpec.FindResultCount` | SBData/SBModelQuery.h:30-31 | a query's result holds exactly as many models as the query matches |
| `StoreSpec.FindOnEmptyStore` | SBData/SBModel.h:91-93 | every query over an empty store finds nothing |
| `StoreSpec.InsertFreshKey` | SBData/SBModel.h:28-29 | inserting a model under a key not yet present keeps the keys distinct and adds that key |
| `StoreSpec.WindowOfFindResult` | SBData/SBModelQuery.h:32 | a window of a query's result is distinct, drawn from the stored rows, in order, and matches the query |
| `StoreSpec.ColumnValue` | SBData/SBModel_SBModelPrivate.h:55 | a listed column gives a value of the property's class exactly when it is not NULL and its text decodes |
| `StoreSpec.ApplyDatabaseDictionary` | SBData/SBModel_SBModelPrivate.h:55 | each declared column listed is decoded (NULL or undecodable text gives nil); every property not listed keeps its value; the result is well typed |
| `StoreSpec.DecodeColumns` | SBData/SBModel_SBModelPrivate.h:55 | exactly the declared, non-NULL, decodable columns, decoded |
| `StoreSpec.DatabaseDictionaryMerges` | SBData/SBModel_SBModelPrivate.h:55 | with every column declared and decodable, taking a database dictionary is the same as `setValuesForKeysWithDictionary:` with the decoded values: a merge |
| `StoreSpec.ColumnsOf` | SBData/SBModel.h:95-97 | the database dictionary of a stored row lists every declared column, NULL for an absent one |
| `StoreSpec.ColumnsOfReplacesAll` | SBData/SBModel.h:95-97 | taking a stored row's full database dictionary leaves the model holding exactly the decoded row, whatever it held before |
| `StoreSpec.IndexTupleOf` | SBData/SBModel_SBModelPrivate.h:67 | an index entry holds one value per indexed property |
| `StoreSpec.IndexTableNames` | SBData/SBModel_SBModelPrivate.h:66 | one table name per declared index |
| `StoreSpec.SingleIndexOn` | SBData/SBModel.h:18 | the index found is a declared index on exactly that one property |
| `StoreSpec.Candidates` | SBData/SBModel.h:18 | a query that is one Equals term on a property with its own index takes the keys whose entry in that index is the value's stored text; every other query takes every stored key |
| `StoreSpec.CandidatesCoverMatches` | SBData/SBModel.h:18 | the index lookup misses no matching model and yields only stored keys, so it finds what a full scan finds |
| `StoreSpec.RunStep` | SBData/SBModel.h:87-89 | an operation in a transaction fails exactly when it removes a key with no stored row |
| `StoreSpec.FailureEndsBlock` | SBData/SBModel_SBModelPrivate.h:72 | once an operation in a block fails, the block as a whole fails with that error |
| `StoreSpec.LastStepWins` | SBData/SBModel.h:103-104 | within a block, a save is seen by a later find of its key; a later remove succeeds exactly when the key is stored, and then leaves nothing to find; a removeAll empties the store |
| `StoreSpec.DecorateAll` | SBData/SBModelQuery.h:27 | each handed-out result is the decorator's value for the found model at the same position |
| `Store.Model.constructor` | SBData/SBModel.h:28-29 | a new model has its key, its class's properties, and no values set |
| `Store.Model.SetKey` | SBData/SBModel_SBModelPrivate.h:54 | the model's key becomes the given key |
| `Store.Model.ValueForKey` | SBData/SBModel.h:33 | refused exactly for undeclared properties; otherwise the value, or nil when unset |
| `Store.Model.SetValue` | SBData/SBModel.h:32 | accepted exactly for a declared property and a value of its class (or nil); then `valueForKey:` gives that value and no other property changes; a refusal changes nothing |
| `Store.Model.SetNilValueForKey` | SBData/SBModel.h:35 | a declared property becomes nil and no other changes; an undeclared one is refused |
| `Store.Model.SetValuesForKeysWithDictionary` | SBData/SBModel.h:34 | accepted exactly when every entry is declared and of its class; then the values are the old ones merged with the dictionary's |
| `Store.Model.AllKeys` | SBData/SBModel.h:36 | exactly the names `valueForKey:` accepts |
| `Store.Model.DictionaryValue` | SBData/SBModel.h:38-39 | JSON values only (numbers and strings, never null), one per property that is set; each reads back through its class's network converter to the value `valueForKey:` gives |
| `Store.Model.SetValuesForKeysWithDatabaseDictionary` | SBData/SBModel_SBModelPrivate.h:55 | each declared property the dictionary lists becomes its column's `fromDatabase` value, or nil for NULL; every property not listed keeps its value |
| `Store.Model.Save` | SBData/SBModel.h:41-45 | saves in a transaction of its own; afterwards `findByKey` of the key gives the model's values |
| `Store.Model.Remove` | SBData/SBModel.h:47 | fails exactly when no row is stored under the model's key; afterwards the key is not found and every other row is as before (the model runs the removal as a one-step `InTransaction` block, a modelling choice) |
| `Store.Model.Reload` | SBData/SBModel.h:49-50 | fails exactly when no row is stored under the key; otherwise the model holds the stored values |
| `Store.ModelMeta.constructor` | SBData/SBModel.h:81 | an empty store for the class, with one empty table per declared index |
| `Store.ModelMeta.GetIndexTableNames` | SBData/SBModel_SBModelPrivate.h:66 | one distinct, existing table name per declared index, in declaration order |
| `Store.ModelMeta.PopulateIndex` | SBData/SBModel_SBModelPrivate.h:67 | the named index table gains (or replaces) one entry for the key: the dictionary's values of the index's fields; no other table changes |
| `Store.ModelMeta.FindByKey` | SBData/SBModel.h:110 | a key is found exactly when stored; the found values encode back to the stored row |
| `Store.ModelMeta.PopulateIndexes` | SBData/SBModel.h:83-85 | every index table gets the key's entry, and the table layout is kept |
| `Store.ModelMeta.SaveRow` | SBData/SBModel.h:83-85 | the row is upserted under the key and every index table gets the key's entry; the invariant is kept |
| `Store.ModelMeta.Save` | SBData/SBModel.h:83-85 | upserts the model's row (one row per key); afterwards `findByKey` gives its values, other keys are untouched, every index holds its entry |
| `Store.ModelMeta.RemoveIndexEntries` | SBData/SBModel.h:87-89 | every index table loses the key's entry and nothing else |
| `Store.ModelMeta.RemoveKey` | SBData/SBModel.h:87-89 | deletes the key's row and index entries; fails with NotFound, changing nothing, when it is absent |
| `Store.ModelMeta.Remove` | SBData/SBModel.h:87-89 | deletes the model's row and index entries; other keys keep their rows; the key is not found afterwards |
| `Store.ModelMeta.ClearIndexTables` | SBData/SBModel.h:91-93 | every index table becomes empty |
| `Store.ModelMeta.RemoveAll` | SBData/SBModel.h:91-93 | the primary table and every index table are empty, and any query finds nothing |
| `Store.ModelMeta.Reload` | SBData/SBModel.h:95-97 | fails with NotFound exactly when the key is absent, changing nothing; otherwise the model's values are the stored row's |
| `Store.ModelMeta.BeginTransaction` | SBData/SBModel_SBModelPrivate.h:72 | runs the block's operations in order; fails exactly when one fails; on rollback or failure the store is as before; otherwise the rows are the operations' result |
| `Store.ModelMeta.InTransaction` | SBData/SBModel.h:103 | the same, for the exclusive transaction |
| `Store.ModelMeta.InDeferredTransaction` | SBData/SBModel.h:104 | the same, for the deferred transaction |
| `Store.ModelMeta.Find` | SBData/SBModelQuery.h:30 | each matching stored model exactly once, decoded from its row, in the query's order, by index lookup or scan |
| `Store.CollectMatches` | SBData/SBModelQuery.h:30 | of a set of candidates covering the matches, exactly the matching models, each once, sorted |
| `Store.ModelMeta.PropertiesQuery` | SBData/SBModel.h:106-109 | a query that matches a model exactly when every given property equals its given value |
| `Store.ModelMeta.FindWithProperties` | SBData/SBModel.h:106-108 | a new, not yet run result set over the models with all the given values, in the given order and direction |
| `Store.ModelMeta.FindOne` | SBData/SBModel.h:109 | nothing exactly when no stored model has all the given values; otherwise such a stored model |
| `Store.ModelMeta.QueryBuilder` | SBData/SBModel.h:111 | a new builder bound to the class's properties |
| `Store.ModelMeta.Results` | SBData/SBModelQuery.h:30 | a new, not yet run result set for the query |
| `Store.ModelMeta.Count` | SBData/SBModelQuery.h:31 | the number of stored models the query matches |
| `Store.ModelMeta.FetchOffset` | SBData/SBModelQuery.h:32 | at most `count` models, exactly as many as remain after skipping `offset`, taken from the query's result order starting at `offset` |
| `Store.Window` | SBData/SBModelQuery.h:32 | the window's end lies within the result, at most `count` after its start |
| `Store.ModelMeta.RemoveEach` | SBData/SBModelQuery.h:33 | deletes the row of every listed model, keeping the invariant |
| `Store.ModelMeta.RemoveMatching` | SBData/SBModelQuery.h:33-34 | deletes exactly the models the query matches, with their index entries; no remaining model matches |
| `Store.ResultSet.constructor` | SBData/SBModel.h:70 | a result set for the query, not yet run |
| `Store.ResultSet.Reload` | SBData/SBModel.h:67 | re-runs the query and replaces the cache with the decorated results, as many as the query matches |
| `Store.ResultSet.Load` | SBData/SBModel.h:63-68 | runs the query on first use only; a loaded cache is kept |
| `Store.ResultSet.Count` | SBData/SBModel.h:63 | the number of cached results, running the query on first use only |
| `Store.ResultSet.ObjectAtIndex` | SBData/SBModel.h:64 | defined exactly for indexes below `count`, and then the cached result there |
| `Store.ResultSet.First` | SBData/SBModel.h:68 | defined exactly when there is a cached result, and then the first one |
| `Store.ResultSet.AllObjects` | SBData/SBModel.h:66 | every cached result, in order |
| `Store.ResultSet.FetchedObjects` | SBData/SBModel.h:65 | the results cached so far, without running the query |

## Left out

- `SBSession`, `SBDataObject`, `SBUser` and `NSObject+ClassProperties` (OAuth and HTTP clients, the REST client and its remote result sets, UIKit, runtime reflection): network and platform plumbing outside the store.
- Threading: the locking that separates `inTransaction:` from `inDeferredTransaction:`, the deadlock of `-save` inside a transaction, and the `unsafe`/`unsafeMeta` toggle. Transactions are modelled as a sequential snapshot and restore; `useDeferred` has no effect.
- FMDB, SQLite and JSONKit: there is no SQL text, database file, migration, or `initDb`. Storage-engine errors do not arise. `render` produces this model's own notation, not the library's SQL.
- `SBFloat` and `SBFloatConverter`: floating point.
- `SBDate` is modelled as a UTC date and time to the second, years 0 to 9999. Only ISO 8601 text of the form `YYYY-MM-DDThh:mm:ssZ` is accepted: any other form (time-zone offsets, fractional seconds, the basic format such as `20130924T100000Z`, reduced precision) is refused, and its database text is the ISO 8601 text rather than a time interval.
- Decorator blocks are opaque total functions on models. Only the result set applies them.
- `LogStmt` (a no-op), the `willSave`/`willReload` hooks (notifications with no effect on the store), lazy fields (`SBLazyField`), `registerModel:`, `+meta` and `NSCopying`.
- Store.Model.SetValuesForKeysWithDatabaseDictionary: differs from `setValuesForKeysWithDictionary:` in two ways. It ignores undeclared columns, where the plain setter refuses them with `UnknownKey`; a database row carries columns that are not properties, such as the key column `_uuid_` (SBData/SBModel_SBModelPrivate.h:16). It takes text that does not decode as its field class as nil, where the plain setter would refuse a value of the wrong class; `fromDatabase` may yield nothing, and the model reads that as NULL.
- Store.ModelMeta.FetchOffset: ignores `includeRelated:` and returns undecorated models.
- Store.ModelMeta.constructor: requires the index table names to be distinct. A table name joins the field names with `_`, so besides two identical index declarations, declarations such as `["a_b"]` and `["a", "b"]` are excluded too.
- Store.Model.SetValuesForKeysWithDictionary: checks every entry before changing anything. Key-value coding would set entries one by one and stop at the first refused one, leaving the earlier ones set.
- Store.Model.AllKeys: a set of names; the `NSArray` order of `allKeys` is not modelled.
- Store.ModelMeta.RemoveMatching: models `removeAll` and `removeAllUnsafe` alike; the transaction `removeAll` opens has no effect in a sequential model.
- Each index table maps an owning key to that model's tuple of indexed values, since several models can share one tuple. Planning uses an index only for a single Equals term on a property that has its own index; every other query is a scan.
- `Not` over several terms is taken as the negation of their conjunction. `properties:areNotEqualTo:` holds where the property tuple differs from the value tuple.
- When both dictionaries hold a key, the merge keeps `other`'s value.
- Store.ModelMeta.RemoveKey: reports `NotFound` for an absent key. The headers' `remove:` returns `void` and documents no failure, so this error is a modelling choice.
- Store.ModelMeta.BeginTransaction: rolls the whole block back when an operation in it fails. The headers document no such rule; it is a modelling choice, and it means, for instance, that a block that saves and then removes an absent key commits nothing.
- `SBModelQuery.parameters` is modelled as a sequence of terms in the order they were added. The header declares it an `NSDictionary`, whose layout is not modelled.
- `NSInteger` is taken to be 64 bits wide. On 32-bit targets it is 32 bits, and that width is not modelled.
- Network values are integral numbers, strings and null; JSON floats, arrays and objects are not modelled.

## Findings

| source | as written | input that shows it | evidently intended | confidence | as-written member | corrected member |
|---|---|---|---|---|---|---|
| SBData/SBModel_SBModelPrivate.h:33-35 | the separator is skipped when `sub != [obj lastObject]` fails, an identity test, so an earlier occurrence of the array's last object also gets no ", " (the dictionary loop at lines 43-45 tests keys the same way) | `@[@"a", @"a"]`, two uses of one string object, prints as "[aa]" | a ", " between consecutive elements by position: "[a, a]" | not executed | `ContainerFormat.RepeatedLastObjectLosesSeparator` | `ContainerFormat.FixedArrayRendering` |
