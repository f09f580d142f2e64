/**
 * The local object store: `SBModel` instances with key-value access,
 * `SBModelMeta` holding one model class's primary rows and index tables,
 * and `SBModelResultSet` caching a query's results.
 */
module Store {
  import opened Wrappers
  import opened Fields
  import opened QueryTerm
  import opened Query
  import opened Ordering
  import opened DictionaryConvenience
  import opened StoreSpec
  import opened DataObjectTypes

  /** Why a key-value access on a model is refused. */
  datatype KeyValueError =
    | UnknownKey(name: string)
    | KindMismatch(name: string, expected: FieldKind)

  /** A model instance: its key and the values of its declared properties (an absent one is `nil`). */
  class Model {
    const schema: Schema
    var key: string
    var values: Row

    ghost predicate Valid()
      reads this
    {
      WellTyped(schema, values)
    }

    /** A new instance of the model class `schema` under a freshly generated key. */
    constructor (schema: Schema, key: string)
      ensures this.schema == schema && this.key == key && values == map[]
      ensures Valid()
    {
      this.schema := schema;
      this.key := key;
      values := map[];
    }

    method SetKey(k: string)
      modifies this`key
      ensures key == k
    {
      key := k;
    }

    /** `-valueForKey:`: the property's value, `nil` when unset, refused when undeclared. */
    function ValueForKey(name: string): (r: Result<Option<Field>, KeyValueError>)
      reads this
      ensures r.Failure? <==> name !in schema
      ensures r.Failure? ==> r.error == UnknownKey(name)
      ensures r.Success? ==> (r.value.Some? <==> name in values)
      ensures r.Success? && r.value.Some? ==> r.value.value == values[name]
    {
      if name !in schema then Failure(UnknownKey(name))
      else if name in values then Success(Some(values[name]))
      else Success(None)
    }

    /** `-setValue:forKey:`; `None` stands for `nil`. */
    method SetValue(value: Option<Field>, name: string) returns (r: Result<(), KeyValueError>)
      requires Valid()
      modifies this`values
      ensures Valid()
      ensures r.Success? <==> name in schema && (value.Some? ==> KindOf(value.value) == schema[name])
      ensures name !in schema ==> r == Failure(UnknownKey(name))
      ensures name in schema && r.Failure? ==> r == Failure(KindMismatch(name, schema[name]))
      ensures r.Success? ==> ValueForKey(name) == Success(value)
      ensures r.Success? ==> forall n :: n != name ==> ValueForKey(n) == old(ValueForKey(n))
      ensures r.Failure? ==> values == old(values)
    {
      if name !in schema {
        return Failure(UnknownKey(name));
      }
      match value {
        case None =>
          values := values - {name};
        case Some(f) =>
          if KindOf(f) != schema[name] {
            return Failure(KindMismatch(name, schema[name]));
          }
          values := values[name := f];
      }
      r := Success(());
    }

    method SetNilValueForKey(name: string) returns (r: Result<(), KeyValueError>)
      requires Valid()
      modifies this`values
      ensures Valid()
      ensures r.Success? <==> name in schema
      ensures r.Success? ==> ValueForKey(name) == Success(None)
      ensures r.Success? ==> forall n :: n != name ==> ValueForKey(n) == old(ValueForKey(n))
      ensures r.Failure? ==> values == old(values)
    {
      r := SetValue(None, name);
    }

    /**
     * `-setValuesForKeysWithDictionary:`: every entry is checked first, so a
     * refused dictionary changes nothing; an accepted one overrides exactly
     * its own properties.
     */
    method SetValuesForKeysWithDictionary(keyedValues: Row) returns (r: Result<(), KeyValueError>)
      requires Valid()
      modifies this`values
      ensures Valid()
      ensures r.Success? <==> WellTyped(schema, keyedValues)
      ensures r.Success? ==> values == MergingWithDictionary(old(values), keyedValues)
      ensures r.Failure? ==> values == old(values)
    {
      if !WellTyped(schema, keyedValues) {
        var n :| n in keyedValues && !(n in schema && KindOf(keyedValues[n]) == schema[n]);
        if n !in schema {
          return Failure(UnknownKey(n));
        }
        return Failure(KindMismatch(n, schema[n]));
      }
      values := MergingWithDictionary(values, keyedValues);
      r := Success(());
    }

    /** `-allKeys` and `+allFieldNames`: the declared properties. */
    function AllKeys(): (ks: set<string>)
      reads this
      ensures forall n :: n in ks <==> ValueForKey(n).Success?
    {
      schema.Keys
    }

    /**
     * `-dictionaryValue`: one JSON value per property that is set, the one its
     * field class's network converter gives, so it reads back unchanged.
     */
    function DictionaryValue(): (d: map<string, NetValue>)
      reads this
      requires Valid()
      ensures d.Keys == values.Keys
      ensures forall n :: n in d ==> n in schema && !d[n].NetNull?
      ensures forall n :: n in d ==> ValueForKey(n) == Success(FromNetwork(ConverterFor(schema[n]), d[n]))
    {
      NetworkRoundTripAll();
      map n | n in values :: ToNetwork(ConverterFor(schema[n]), values[n])
    }

    /**
     * `-setValuesForKeysWithDatabaseDictionary:`: like
     * `-setValuesForKeysWithDictionary:`, but each declared column goes through
     * its field class's `fromDatabase` (NULL and undecodable text give `nil`);
     * properties the dictionary does not list keep their values, and
     * undeclared columns are ignored.
     */
    method SetValuesForKeysWithDatabaseDictionary(keyedValues: DbDict)
      requires Valid()
      modifies this`values
      ensures Valid()
      ensures values == ApplyDatabaseDictionary(schema, old(values), keyedValues)
      ensures forall n :: n in schema && n in keyedValues ==>
                ValueForKey(n) == Success(ColumnValue(schema[n], keyedValues[n]))
      ensures forall n :: n !in keyedValues ==> ValueForKey(n) == old(ValueForKey(n))
    {
      values := ApplyDatabaseDictionary(schema, values, keyedValues);
    }

    /** `-save`: saves in a transaction of its own. */
    method Save(meta: ModelMeta)
      requires meta.Valid() && Valid() && meta.schema == schema
      modifies meta
      ensures meta.Valid()
      ensures meta.rows == old(meta.rows)[key := EncodeRow(values)]
      ensures meta.FindByKey(key) == Some(Entity(key, values))
    {
      var r := meta.InTransaction([SaveStep(key, values)], false);
      assert [SaveStep(key, values)][..0] == [];
      LookupAfterWrite(schema, old(meta.rows), key, values, key);
    }

    /**
     * `-remove`: modelled as a one-step `InTransaction` block; refused when
     * nothing is stored under the key.
     */
    method Remove(meta: ModelMeta) returns (r: Result<(), StoreError>)
      requires meta.Valid()
      modifies meta
      ensures meta.Valid()
      ensures r.Failure? <==> key !in old(meta.rows)
      ensures meta.rows == old(meta.rows) - {key}
      ensures meta.FindByKey(key) == None
    {
      r := meta.InTransaction([RemoveStep(key)], false);
      assert [RemoveStep(key)][..0] == [];
    }

    /** `-reload`: reads this model's stored row back into it. */
    method Reload(meta: ModelMeta) returns (r: Result<(), StoreError>)
      requires meta.Valid() && Valid() && meta.schema == schema
      modifies this`values
      ensures Valid()
      ensures r.Failure? <==> key !in meta.rows
      ensures r.Success? ==> meta.FindByKey(key) == Some(Entity(key, values))
      ensures r.Failure? ==> values == old(values)
    {
      r := meta.Reload(this);
    }
  }

  /** The store of one model class: its primary rows and one table per declared index. */
  class ModelMeta {
    const name: string
    const schema: Schema
    const indexes: seq<seq<string>>
    const indexTableNames: seq<string>
    var rows: map<string, RawRow>
    var tables: map<string, IndexTable>

    ghost predicate Valid()
      reads this
    {
      && indexTableNames == IndexTableNames(name, indexes)
      && (forall i :: 0 <= i < |indexes| ==> forall j :: 0 <= j < |indexes[i]| ==> indexes[i][j] in schema)
      && StoreInvariant(schema, indexes, indexTableNames, rows, tables)
    }

    /** `-initWithModelClass:` for the class with table `name`, properties `schema` and indexes `indexes`. */
    constructor (name: string, schema: Schema, indexes: seq<seq<string>>)
      requires forall i :: 0 <= i < |indexes| ==> forall j :: 0 <= j < |indexes[i]| ==> indexes[i][j] in schema
      requires Distinct(IndexTableNames(name, indexes))
      ensures this.name == name && this.schema == schema && this.indexes == indexes
      ensures rows == map[]
      ensures Valid()
    {
      this.name := name;
      this.schema := schema;
      this.indexes := indexes;
      var names := IndexTableNames(name, indexes);
      indexTableNames := names;
      rows := map[];
      tables := map n | n in names :: map[];
    }

    /** `-_getIndexTableNames`: one table name per declared index. */
    method GetIndexTableNames() returns (names: seq<string>)
      requires Valid()
      ensures |names| == |indexes|
      ensures forall i :: 0 <= i < |indexes| ==> names[i] == IndexTableName(name, indexes[i]) && names[i] in tables
      ensures Distinct(names)
    {
      names := [];
      var i := 0;
      while i < |indexes|
        invariant 0 <= i <= |indexes|
        invariant names == indexTableNames[..i]
      {
        names := names + [IndexTableName(name, indexes[i])];
        i := i + 1;
      }
    }

    /** `-_populateIndex:fieldNames:key:values:`: `key`'s entry in one index table. */
    method PopulateIndex(tableName: string, fieldNames: seq<string>, key: string, dict: RawRow)
      requires tableName in tables
      modifies this`tables
      ensures tables == old(tables)[tableName := old(tables)[tableName][key := IndexTupleOf(dict, fieldNames)]]
      ensures forall j :: 0 <= j < |fieldNames| ==>
                tables[tableName][key][j] == (if fieldNames[j] in dict then Some(dict[fieldNames[j]]) else None)
    {
      tables := tables[tableName := tables[tableName][key := IndexTupleOf(dict, fieldNames)]];
    }

    /** `-findByKey:`. */
    function FindByKey(key: string): (r: Option<Entity>)
      reads this
      requires Valid()
      ensures r.Some? <==> key in rows
      ensures r.Some? ==> r.value.key == key && WellTyped(schema, r.value.values)
      ensures r.Some? ==> EncodeRow(r.value.values) == rows[key]
    {
      if key in rows then
        CanonicalRowRoundTrip(schema, rows[key]);
        Some(Entity(key, DecodeRow(schema, rows[key])))
      else None
    }

    /** One table per declared index, under distinct names. */
    ghost predicate TablesLaidOut()
      reads this
    {
      && |indexTableNames| == |indexes|
      && Distinct(indexTableNames)
      && (forall n :: n in tables <==> n in indexTableNames)
    }

    /** `-save:`'s loop over the indexes: `key`'s entry in every index table. */
    method PopulateIndexes(key: string, raw: RawRow)
      requires TablesLaidOut()
      modifies this`tables
      ensures TablesLaidOut()
      ensures forall i :: 0 <= i < |indexes| ==>
                tables[indexTableNames[i]] == old(tables)[indexTableNames[i]][key := IndexTupleOf(raw, indexes[i])]
    {
      var names := indexTableNames;
      var i := 0;
      while i < |indexes|
        invariant 0 <= i <= |indexes|
        invariant TablesLaidOut()
        invariant forall j :: 0 <= j < i ==> tables[names[j]] == old(tables)[names[j]][key := IndexTupleOf(raw, indexes[j])]
        invariant forall j :: i <= j < |indexes| ==> tables[names[j]] == old(tables)[names[j]]
      {
        PopulateIndex(names[i], indexes[i], key, raw);
        i := i + 1;
      }
    }

    /** Writes the row of `key` and its entry in every index table. */
    method SaveRow(key: string, values: Row)
      requires Valid() && WellTyped(schema, values)
      modifies this
      ensures Valid()
      ensures rows == old(rows)[key := EncodeRow(values)]
      ensures forall i :: 0 <= i < |indexes| ==>
                tables[indexTableNames[i]] == old(tables[indexTableNames[i]])[key := IndexTupleOf(EncodeRow(values), indexes[i])]
    {
      var raw := EncodeRow(values);
      EncodedRowIsCanonical(schema, values);
      rows := rows[key := raw];
      PopulateIndexes(key, raw);
      WriteKeepsInvariant(schema, indexes, indexTableNames, old(rows), old(tables), tables, key, raw);
    }

    /** `-save:`: stores the model's row under its key, replacing any earlier row for that key. */
    method Save(obj: Model)
      requires Valid() && obj.Valid() && obj.schema == schema
      modifies this
      ensures Valid()
      ensures rows == old(rows)[obj.key := EncodeRow(obj.values)]
      ensures FindByKey(obj.key) == Some(Entity(obj.key, obj.values))
      ensures forall k :: k != obj.key ==> FindByKey(k) == old(FindByKey(k))
      ensures forall i :: 0 <= i < |indexes| ==>
                tables[indexTableNames[i]] == old(tables[indexTableNames[i]])[obj.key := IndexTupleOf(EncodeRow(obj.values), indexes[i])]
    {
      SaveRow(obj.key, obj.values);
      DecodeEncodeRow(schema, obj.values);
    }

    /** `-remove:`'s loop over the indexes: drops `key`'s entry from every index table. */
    method RemoveIndexEntries(key: string)
      requires TablesLaidOut()
      modifies this`tables
      ensures TablesLaidOut()
      ensures forall i :: 0 <= i < |indexes| ==> tables[indexTableNames[i]] == old(tables)[indexTableNames[i]] - {key}
    {
      var names := indexTableNames;
      var i := 0;
      while i < |indexes|
        invariant 0 <= i <= |indexes|
        invariant TablesLaidOut()
        invariant forall j :: 0 <= j < i ==> tables[names[j]] == old(tables)[names[j]] - {key}
        invariant forall j :: i <= j < |indexes| ==> tables[names[j]] == old(tables)[names[j]]
      {
        var n := names[i];
        tables := tables[n := tables[n] - {key}];
        i := i + 1;
      }
    }

    /** Deletes the row of `key` and its entry in every index table. */
    method RemoveKey(key: string) returns (r: Result<(), StoreError>)
      requires Valid()
      modifies this
      ensures Valid()
      ensures r.Failure? <==> key !in old(rows)
      ensures r.Failure? ==> r.error == NotFound(key) && rows == old(rows) && tables == old(tables)
      ensures rows == old(rows) - {key}
      ensures forall i :: 0 <= i < |indexes| ==> tables[indexTableNames[i]] == old(tables[indexTableNames[i]]) - {key}
    {
      if key !in rows {
        forall i | 0 <= i < |indexes|
          ensures tables[indexTableNames[i]] == tables[indexTableNames[i]] - {key}
        {
          AbsentKeyNotIndexed(schema, indexes, indexTableNames, rows, tables, key, i);
        }
        return Failure(NotFound(key));
      }
      rows := rows - {key};
      RemoveIndexEntries(key);
      DeleteKeepsInvariant(schema, indexes, indexTableNames, old(rows), old(tables), tables, key);
      r := Success(());
    }

    /** `-remove:`: deletes the model's row and its index entries; every other key keeps its row. */
    method Remove(obj: Model) returns (r: Result<(), StoreError>)
      requires Valid()
      modifies this
      ensures Valid()
      ensures r.Failure? <==> obj.key !in old(rows)
      ensures rows == old(rows) - {obj.key}
      ensures FindByKey(obj.key) == None
      ensures forall k :: k != obj.key ==> FindByKey(k) == old(FindByKey(k))
      ensures forall i :: 0 <= i < |indexes| ==> tables[indexTableNames[i]] == old(tables[indexTableNames[i]]) - {obj.key}
    {
      r := RemoveKey(obj.key);
    }

    /** `-removeAll`'s loop over the indexes: empties every index table. */
    method ClearIndexTables()
      requires TablesLaidOut()
      modifies this`tables
      ensures TablesLaidOut()
      ensures forall i :: 0 <= i < |indexes| ==> tables[indexTableNames[i]] == map[]
    {
      var names := indexTableNames;
      var i := 0;
      while i < |indexes|
        invariant 0 <= i <= |indexes|
        invariant TablesLaidOut()
        invariant forall j :: 0 <= j < i ==> tables[names[j]] == map[]
      {
        tables := tables[names[i] := map[]];
        i := i + 1;
      }
    }

    /** `-removeAll`: empties the primary table and every index table. */
    method RemoveAll()
      requires Valid()
      modifies this
      ensures Valid()
      ensures rows == map[]
      ensures forall i :: 0 <= i < |indexes| ==> tables[indexTableNames[i]] == map[]
      ensures forall q, es :: IsFindResult(schema, rows, q, es) ==> es == []
    {
      rows := map[];
      ClearIndexTables();
      ClearedStoreInvariant(schema, indexes, indexTableNames, tables);
      FindOnEmptyStore(schema);
    }

    /** `-reload:`: sets the model's values to its stored row. */
    method Reload(obj: Model) returns (r: Result<(), StoreError>)
      requires Valid() && obj.Valid() && obj.schema == schema
      modifies obj`values
      ensures obj.Valid()
      ensures r.Failure? <==> obj.key !in rows
      ensures r.Failure? ==> r.error == NotFound(obj.key) && obj.values == old(obj.values)
      ensures r.Success? ==> FindByKey(obj.key) == Some(Entity(obj.key, obj.values))
    {
      if obj.key !in rows {
        return Failure(NotFound(obj.key));
      }
      obj.SetValuesForKeysWithDatabaseDictionary(ColumnsOf(schema, rows[obj.key]));
      ColumnsOfReplacesAll(schema, old(obj.values), rows[obj.key]);
      r := Success(());
    }

    /**
     * `-beginTransaction:withBlock:`: the block is the sequence of store
     * operations it performs and the rollback flag it leaves. On rollback,
     * or when an operation fails, the store is as it was before.
     */
    method BeginTransaction(useDeferred: bool, steps: seq<TxnStep>, rollback: bool) returns (r: Result<(), StoreError>)
      requires Valid() && StepsWellTyped(schema, steps)
      modifies this
      ensures Valid()
      ensures r.Failure? <==> RunSteps(old(rows), steps).Failure?
      ensures r.Failure? ==> r.error == RunSteps(old(rows), steps).error
      ensures rollback || r.Failure? ==> rows == old(rows) && tables == old(tables)
      ensures !rollback && r.Success? ==> rows == RunSteps(old(rows), steps).value
    {
      var savedRows, savedTables := rows, tables;
      r := Success(());
      var i := 0;
      while i < |steps| && r.Success?
        invariant 0 <= i <= |steps|
        invariant Valid()
        invariant r.Success? ==> RunSteps(savedRows, steps[..i]) == Success(rows)
        invariant r.Failure? ==> RunSteps(savedRows, steps[..i]) == Failure(r.error)
        decreases |steps| - i
      {
        assert steps[..i + 1][..i] == steps[..i];
        match steps[i] {
          case SaveStep(k, vs) =>
            SaveRow(k, vs);
          case RemoveStep(k) =>
            r := RemoveKey(k);
          case RemoveAllStep =>
            RemoveAll();
        }
        i := i + 1;
      }
      if r.Failure? {
        FailureEndsBlock(savedRows, steps, i);
      } else {
        assert steps[..i] == steps;
      }
      if rollback || r.Failure? {
        rows, tables := savedRows, savedTables;
      }
    }

    /** `-inTransaction:`. */
    method InTransaction(steps: seq<TxnStep>, rollback: bool) returns (r: Result<(), StoreError>)
      requires Valid() && StepsWellTyped(schema, steps)
      modifies this
      ensures Valid()
      ensures r.Failure? <==> RunSteps(old(rows), steps).Failure?
      ensures r.Failure? ==> r.error == RunSteps(old(rows), steps).error
      ensures rollback || r.Failure? ==> rows == old(rows) && tables == old(tables)
      ensures !rollback && r.Success? ==> rows == RunSteps(old(rows), steps).value
    {
      r := BeginTransaction(false, steps, rollback);
    }

    /** `-inDeferredTransaction:`. */
    method InDeferredTransaction(steps: seq<TxnStep>, rollback: bool) returns (r: Result<(), StoreError>)
      requires Valid() && StepsWellTyped(schema, steps)
      modifies this
      ensures Valid()
      ensures r.Failure? <==> RunSteps(old(rows), steps).Failure?
      ensures r.Failure? ==> r.error == RunSteps(old(rows), steps).error
      ensures rollback || r.Failure? ==> rows == old(rows) && tables == old(tables)
      ensures !rollback && r.Success? ==> rows == RunSteps(old(rows), steps).value
    {
      r := BeginTransaction(true, steps, rollback);
    }

    /** Executes a query: the models it matches, each once, in its order. */
    method Find(q: ModelQuery) returns (es: seq<Entity>)
      requires Valid()
      ensures IsFindResult(schema, rows, q, es)
    {
      CandidatesCoverMatches(schema, indexes, indexTableNames, rows, tables, q);
      var candidates := Candidates(indexes, indexTableNames, rows, tables, q);
      es := CollectMatches(schema, rows, q, candidates);
    }

    /** The query `findWithProperties:` and `findOne:` run: every given property equals its value. */
    method PropertiesQuery(props: Row, orderBy: seq<string>, sort: Sorting) returns (q: ModelQuery)
      ensures q.orderBy == orderBy && q.sortOrder == sort && q.decorator.None?
      ensures forall row :: Matches(q, row) <==> HasProperties(row, props)
    {
      var terms: seq<Term> := [];
      var rest := props.Keys;
      ghost var done: set<string> := {};
      while rest != {}
        invariant rest + done == props.Keys && rest !! done
        invariant forall row :: Matches(ModelQuery(terms, orderBy, sort, None), row) <==>
                                (forall p :: p in done ==> p in row && row[p] == props[p])
        decreases |rest|
      {
        var p :| p in rest;
        var q0 := ModelQuery(terms, orderBy, sort, None);
        forall row
          ensures Matches(q0.(parameters := terms + [Equals(p, props[p])]), row) <==> Matches(q0, row) && Eval(Equals(p, props[p]), row)
        {
          AddingTermConjoins(q0, Equals(p, props[p]), row);
        }
        terms := terms + [Equals(p, props[p])];
        rest := rest - {p};
        done := done + {p};
      }
      q := ModelQuery(terms, orderBy, sort, None);
    }

    /** `-findWithProperties:orderBy:sorting:`: a result set over the models with all the given values. */
    method FindWithProperties(props: Row, orderBy: seq<string>, sort: Sorting) returns (rs: ResultSet)
      ensures fresh(rs) && rs.meta == this && !rs.loaded
      ensures rs.query.orderBy == orderBy && rs.query.sortOrder == sort && rs.query.decorator.None?
      ensures forall row :: Matches(rs.query, row) <==> HasProperties(row, props)
    {
      var q := PropertiesQuery(props, orderBy, sort);
      rs := new ResultSet(this, q);
    }

    /** `-findOne:`: some stored model with all the given values, or nothing when there is none. */
    method FindOne(props: Row) returns (r: Option<Entity>)
      requires Valid()
      ensures r.None? <==> forall k :: k in rows ==> !HasProperties(DecodeRow(schema, rows[k]), props)
      ensures r.Some? ==> FindByKey(r.value.key) == r && HasProperties(r.value.values, props)
    {
      var q := PropertiesQuery(props, [], Ascending);
      var es := Find(q);
      FindResultCount(schema, rows, q, es);
      if |es| == 0 {
        r := None;
      } else {
        assert es[0].key in KeysOf(es);
        r := Some(es[0]);
      }
    }

    /** `-queryBuilder`: a builder bound to this model class's properties. */
    method QueryBuilder() returns (b: Query.QueryBuilder)
      ensures fresh(b) && b.fieldNames == schema.Keys
      ensures b.parameters == [] && b.orderBy == [] && b.sortOrder == Ascending && b.decorator.None?
    {
      b := new Query.QueryBuilder(schema.Keys);
    }

    /** `SBModelQuery -results`: a result set that runs the query on first use. */
    method Results(q: ModelQuery) returns (rs: ResultSet)
      ensures fresh(rs) && rs.meta == this && rs.query == q && !rs.loaded
    {
      rs := new ResultSet(this, q);
    }

    /** `SBModelQuery -count`: the number of models the query matches. */
    method Count(q: ModelQuery) returns (n: nat)
      requires Valid()
      ensures n == |MatchingKeys(schema, rows, q)|
    {
      var es := Find(q);
      FindResultCount(schema, rows, q, es);
      n := |es|;
    }

    /**
     * `SBModelQuery -fetchOffset:count:includeRelated:`: the window of the
     * query's result that starts at `offset` and holds at most `count`
     * models; as in SQLite, a negative offset counts as none and a negative
     * count as no limit.
     */
    method FetchOffset(q: ModelQuery, offset: int, count: int) returns (es: seq<Entity>)
      requires Valid()
      ensures count >= 0 ==> |es| <= count
      ensures |es| == var total := |MatchingKeys(schema, rows, q)|;
                      var skip := if offset < 0 then 0 else if offset > total then total else offset;
                      if count < 0 || skip + count > total then total - skip else count
      ensures exists all :: IsFindResult(schema, rows, q, all) &&
                es == all[Window(offset, 0, |all|)..Window(offset, count, |all|)]
    {
      var all := Find(q);
      FindResultCount(schema, rows, q, all);
      es := all[Window(offset, 0, |all|)..Window(offset, count, |all|)];
    }

    /** Deletes the model of each key in `es`, with its index entries. */
    method RemoveEach(es: seq<Entity>)
      requires Valid()
      modifies this
      ensures Valid()
      ensures rows == old(rows) - KeysOf(es[..|es|])
    {
      var i := 0;
      while i < |es|
        invariant 0 <= i <= |es|
        invariant Valid()
        invariant rows == old(rows) - KeysOf(es[..i])
      {
        KeysOfPrefix(es, i);
        var _ := RemoveKey(es[i].key);
        i := i + 1;
      }
    }

    /**
     * `SBModelQuery -removeAll` and `-removeAllUnsafe`: deletes every model
     * the query matches, with its index entries; every other model stays.
     */
    method RemoveMatching(q: ModelQuery)
      requires Valid()
      modifies this
      ensures Valid()
      ensures rows == old(rows) - MatchingKeys(schema, old(rows), q)
      ensures forall k :: k in rows ==> !Matches(q, DecodeRow(schema, rows[k]))
    {
      var es := Find(q);
      RemoveEach(es);
      assert es[..|es|] == es;
    }
  }

  /**
   * The filter-and-sort step of running a query: of the candidate keys,
   * the stored models that match, each once, in the query's order.
   */
  method CollectMatches(schema: Schema, rows: map<string, RawRow>, q: ModelQuery, candidates: set<string>)
    returns (es: seq<Entity>)
    requires MatchingKeys(schema, rows, q) <= candidates
    ensures IsFindResult(schema, rows, q, es)
  {
    var rest := candidates;
    ghost var done: set<string> := {};
    es := [];
    while rest != {}
      invariant rest <= candidates && done == candidates - rest
      invariant DistinctKeys(es) && FromRows(schema, rows, es) && Sorted(es, q.orderBy, q.sortOrder)
      invariant KeysOf(es) == MatchingKeys(schema, rows, q) * done
      decreases |rest|
    {
      var k :| k in rest;
      rest := rest - {k};
      done := done + {k};
      if k in rows {
        var e := Entity(k, DecodeRow(schema, rows[k]));
        if Matches(q, e.values) {
          var before := es;
          es := InsertSorted(es, e, q.orderBy, q.sortOrder);
          ghost var pos :| 0 <= pos <= |before| && es == before[..pos] + [e] + before[pos..];
          InsertFreshKey(schema, rows, before, e, es, pos);
        }
      }
    }
  }

  /**
   * Where a window of `count` models starting at `offset` ends in a result
   * of `total` models (with `count` 0, where it starts).
   */
  function Window(offset: int, count: int, total: nat): (end: nat)
    ensures end <= total
    ensures count >= 0 ==> end >= Window(offset, 0, total) && end - Window(offset, 0, total) <= count
  {
    var skip := if offset < 0 then 0 else if offset > total then total else offset;
    if count < 0 || skip + count > total then total else skip + count
  }

  /** `SBModelResultSet`: a query's results, run on first use and cached until reloaded. */
  class ResultSet {
    const meta: ModelMeta
    var query: ModelQuery
    var loaded: bool
    /** The results as handed out, decorated. */
    var cache: seq<Entity>
    /** The stored models the last run found, before decoration. */
    ghost var found: seq<Entity>

    /** `-initWithQuery:`. */
    constructor (meta: ModelMeta, query: ModelQuery)
      ensures this.meta == meta && this.query == query && !loaded && cache == []
    {
      this.meta := meta;
      this.query := query;
      loaded := false;
      cache := [];
      found := [];
    }

    /** `-reload`: runs the query again and replaces the cache. */
    method Reload()
      requires meta.Valid()
      modifies this`cache, this`loaded, this`found
      ensures loaded
      ensures IsFindResult(meta.schema, meta.rows, query, found) && cache == DecorateAll(query, found)
      ensures |cache| == |MatchingKeys(meta.schema, meta.rows, query)|
    {
      var es := meta.Find(query);
      FindResultCount(meta.schema, meta.rows, query, es);
      found := es;
      cache := DecorateAll(query, es);
      loaded := true;
    }

    /** Runs the query unless it has run already. */
    method Load()
      requires meta.Valid()
      modifies this`cache, this`loaded, this`found
      ensures loaded
      ensures old(loaded) ==> cache == old(cache) && found == old(found)
      ensures !old(loaded) ==> IsFindResult(meta.schema, meta.rows, query, found) && cache == DecorateAll(query, found)
    {
      if !loaded {
        Reload();
      }
    }

    /** `-count`: the number of cached results. */
    method Count() returns (n: nat)
      requires meta.Valid()
      modifies this`cache, this`loaded, this`found
      ensures loaded && n == |cache|
      ensures old(loaded) ==> cache == old(cache)
      ensures !old(loaded) ==> IsFindResult(meta.schema, meta.rows, query, found) && cache == DecorateAll(query, found)
    {
      Load();
      n := |cache|;
    }

    /** `-objectAtIndex:`: defined exactly below `count`. */
    method ObjectAtIndex(i: nat) returns (r: Option<Entity>)
      requires meta.Valid()
      modifies this`cache, this`loaded, this`found
      ensures loaded
      ensures old(loaded) ==> cache == old(cache)
      ensures !old(loaded) ==> IsFindResult(meta.schema, meta.rows, query, found) && cache == DecorateAll(query, found)
      ensures r.Some? <==> i < |cache|
      ensures r.Some? ==> r.value == cache[i]
    {
      Load();
      r := if i < |cache| then Some(cache[i]) else None;
    }

    /** `-first`: the first result, as `objectAtIndex:0` gives it. */
    method First() returns (r: Option<Entity>)
      requires meta.Valid()
      modifies this`cache, this`loaded, this`found
      ensures loaded
      ensures old(loaded) ==> cache == old(cache)
      ensures !old(loaded) ==> IsFindResult(meta.schema, meta.rows, query, found) && cache == DecorateAll(query, found)
      ensures r.Some? <==> |cache| > 0
      ensures r.Some? ==> r.value == cache[0]
    {
      r := ObjectAtIndex(0);
    }

    /** `-allObjects`: every result, in order. */
    method AllObjects() returns (r: seq<Entity>)
      requires meta.Valid()
      modifies this`cache, this`loaded, this`found
      ensures loaded && r == cache
      ensures old(loaded) ==> cache == old(cache)
      ensures !old(loaded) ==> IsFindResult(meta.schema, meta.rows, query, found) && cache == DecorateAll(query, found)
    {
      Load();
      r := cache;
    }

    /** `-fetchedObjects`: the results cached so far, without running the query. */
    method FetchedObjects() returns (r: seq<Entity>)
      ensures r == cache
    {
      r := cache;
    }
  }
}
