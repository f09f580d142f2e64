/**
 * The store's tables as values, and the facts the store's methods rely on:
 * the row codec, index consistency, query matching, the index-or-scan
 * choice of candidates, and the effect of a transaction's steps.
 */
module StoreSpec {
  import opened Wrappers
  import opened Fields
  import opened QueryTerm
  import opened Query
  import opened Ordering
  import opened DictionaryConvenience

  /** A model class's declared properties and the field class of each (`+classForPropertyName:`). */
  type Schema = map<string, FieldKind>

  /** A primary-table row: property name to database text; a property that is NULL is absent. */
  type RawRow = map<string, string>

  /** One index-table row's values: the database text of each indexed property, or NULL. */
  type IndexTuple = seq<Option<string>>

  /** An index table: one entry per stored model, from its key to its indexed values. */
  type IndexTable = map<string, IndexTuple>

  /** Every value is of its property's declared field class. */
  predicate WellTyped(schema: Schema, row: Row) {
    forall p :: p in row ==> p in schema && KindOf(row[p]) == schema[p]
  }

  // ---------------------------------------------------------------------
  // The row codec
  // ---------------------------------------------------------------------

  /** The row stored for a model's values: one column per property that is set. */
  function EncodeRow(row: Row): (raw: RawRow)
    ensures raw.Keys == row.Keys
    ensures forall p :: p in raw ==> FromDatabase(KindOf(row[p]), raw[p]) == Some(row[p])
  {
    DatabaseRoundTripAll();
    map p | p in row :: ToDatabase(row[p])
  }

  /** Reads a stored row back; a column whose text does not decode is taken as `nil`. */
  function DecodeRow(schema: Schema, raw: RawRow): (row: Row)
    ensures WellTyped(schema, row)
    ensures forall p :: p in row <==> p in raw && p in schema && FromDatabase(schema[p], raw[p]).Some?
    ensures forall p :: p in row ==> row[p] == FromDatabase(schema[p], raw[p]).value
  {
    map p | p in raw && p in schema && FromDatabase(schema[p], raw[p]).Some? :: FromDatabase(schema[p], raw[p]).value
  }

  /** Storing a well-typed row and reading it back gives the row back. */
  lemma DecodeEncodeRow(schema: Schema, row: Row)
    requires WellTyped(schema, row)
    ensures DecodeRow(schema, EncodeRow(row)) == row
  {
    forall p | p in row
      ensures FromDatabase(schema[p], ToDatabase(row[p])) == Some(row[p])
    {
      DatabaseRoundTrip(row[p]);
    }
  }

  /** The text of a column is the encoding of the value it decodes to. */
  predicate CanonicalText(k: FieldKind, s: string) {
    FromDatabase(k, s).Some? && ToDatabase(FromDatabase(k, s).value) == s
  }

  predicate CanonicalRow(schema: Schema, raw: RawRow) {
    forall p :: p in raw ==> p in schema && CanonicalText(schema[p], raw[p])
  }

  predicate CanonicalRows(schema: Schema, rows: map<string, RawRow>) {
    forall k :: k in rows ==> CanonicalRow(schema, rows[k])
  }

  lemma EncodedRowIsCanonical(schema: Schema, row: Row)
    requires WellTyped(schema, row)
    ensures CanonicalRow(schema, EncodeRow(row))
  {
    forall p | p in row
      ensures CanonicalText(schema[p], ToDatabase(row[p]))
    {
      DatabaseRoundTrip(row[p]);
    }
  }

  /** In a canonical row, a property decodes to `v` exactly when its text is `v`'s text. */
  lemma CanonicalColumn(schema: Schema, raw: RawRow, p: string, v: Field)
    requires CanonicalRow(schema, raw)
    requires p in schema && KindOf(v) == schema[p]
    ensures (p in DecodeRow(schema, raw) && DecodeRow(schema, raw)[p] == v) <==> (p in raw && raw[p] == ToDatabase(v))
  {
    if p in raw && raw[p] == ToDatabase(v) {
      DatabaseRoundTrip(v);
    }
  }

  /** A canonical stored row is the encoding of what it decodes to. */
  lemma CanonicalRowRoundTrip(schema: Schema, raw: RawRow)
    requires CanonicalRow(schema, raw)
    ensures EncodeRow(DecodeRow(schema, raw)) == raw
  {
    var row := DecodeRow(schema, raw);
    assert row.Keys == raw.Keys;
    forall p | p in raw
      ensures ToDatabase(row[p]) == raw[p]
    {
    }
  }

  // ---------------------------------------------------------------------
  // Database dictionaries
  // ---------------------------------------------------------------------

  /** A database dictionary: column name to its text, `None` standing for an SQL NULL. */
  type DbDict = map<string, Option<string>>

  /** The value a listed column gives a property of class `k`; NULL and undecodable text give `nil`. */
  function ColumnValue(k: FieldKind, c: Option<string>): (r: Option<Field>)
    ensures r.Some? ==> KindOf(r.value) == k
    ensures r.Some? <==> c.Some? && FromDatabase(k, c.value).Some?
  {
    if c.Some? then FromDatabase(k, c.value) else None
  }

  /**
   * A model's values after it takes the database dictionary `d`: each
   * declared column `d` lists goes through its field class's `fromDatabase`,
   * every property `d` does not list keeps its value, and undeclared
   * columns are ignored.
   */
  function ApplyDatabaseDictionary(schema: Schema, row: Row, d: DbDict): (r: Row)
    requires WellTyped(schema, row)
    ensures WellTyped(schema, r)
    ensures forall p :: p in schema && p in d ==>
              (p in r <==> ColumnValue(schema[p], d[p]).Some?) && (p in r ==> r[p] == ColumnValue(schema[p], d[p]).value)
    ensures forall p :: p !in d ==> (p in r <==> p in row) && (p in r ==> r[p] == row[p])
  {
    map p | p in schema && (if p in d then ColumnValue(schema[p], d[p]).Some? else p in row)
          :: if p in d then ColumnValue(schema[p], d[p]).value else row[p]
  }

  /** The decoded values of the declared columns of `d` that are not NULL and decode. */
  function DecodeColumns(schema: Schema, d: DbDict): (r: Row)
    ensures WellTyped(schema, r)
    ensures forall p :: p in r <==> p in d && p in schema && ColumnValue(schema[p], d[p]).Some?
  {
    map p | p in d && p in schema && ColumnValue(schema[p], d[p]).Some? :: ColumnValue(schema[p], d[p]).value
  }

  /**
   * When every column of `d` is declared and decodes, taking `d` is
   * `setValuesForKeysWithDictionary:` with the decoded values: a merge.
   */
  lemma DatabaseDictionaryMerges(schema: Schema, row: Row, d: DbDict)
    requires WellTyped(schema, row)
    requires forall p :: p in d ==> p in schema && ColumnValue(schema[p], d[p]).Some?
    ensures ApplyDatabaseDictionary(schema, row, d) == MergingWithDictionary(row, DecodeColumns(schema, d))
  {
  }

  /** The database dictionary of a stored row: every declared column, an absent one as NULL. */
  function ColumnsOf(schema: Schema, raw: RawRow): (d: DbDict)
    ensures d.Keys == schema.Keys
    ensures forall p :: p in d ==> (d[p].Some? <==> p in raw) && (d[p].Some? ==> d[p].value == raw[p])
  {
    map p | p in schema :: if p in raw then Some(raw[p]) else None
  }

  /** A dictionary listing every declared column sets every property: the model then holds the decoded row. */
  lemma ColumnsOfReplacesAll(schema: Schema, row: Row, raw: RawRow)
    requires WellTyped(schema, row)
    ensures ApplyDatabaseDictionary(schema, row, ColumnsOf(schema, raw)) == DecodeRow(schema, raw)
  {
  }

  // ---------------------------------------------------------------------
  // Index tables
  // ---------------------------------------------------------------------

  function IndexTupleOf(raw: RawRow, fields: seq<string>): (t: IndexTuple)
    ensures |t| == |fields|
  {
    seq(|fields|, j requires 0 <= j < |fields| => if fields[j] in raw then Some(raw[fields[j]]) else None)
  }

  /** An index table holds one entry per primary row: the row's values of the indexed fields. */
  predicate IndexConsistent(rows: map<string, RawRow>, table: IndexTable, fields: seq<string>) {
    table.Keys == rows.Keys && forall k :: k in table ==> table[k] == IndexTupleOf(rows[k], fields)
  }

  function JoinFields(fields: seq<string>): string {
    if fields == [] then "" else if |fields| == 1 then fields[0] else fields[0] + "_" + JoinFields(fields[1..])
  }

  /** The name of the index table on `fields` of the model table `table`. */
  function IndexTableName(table: string, fields: seq<string>): string {
    table + "_index_" + JoinFields(fields)
  }

  function IndexTableNames(table: string, indexes: seq<seq<string>>): (names: seq<string>)
    ensures |names| == |indexes|
  {
    seq(|indexes|, i requires 0 <= i < |indexes| => IndexTableName(table, indexes[i]))
  }

  predicate Distinct(names: seq<string>) {
    forall i, j :: 0 <= i < j < |names| ==> names[i] != names[j]
  }

  /**
   * The store's invariant: one table per declared index, named by
   * `names`, each consistent with the primary rows, and every primary row
   * in canonical database text.
   */
  ghost predicate StoreInvariant(schema: Schema, indexes: seq<seq<string>>, names: seq<string>,
                           rows: map<string, RawRow>, tables: map<string, IndexTable>) {
    && |names| == |indexes|
    && Distinct(names)
    && (forall n :: n in tables <==> n in names)
    && (forall i :: 0 <= i < |indexes| ==> IndexConsistent(rows, tables[names[i]], indexes[i]))
    && CanonicalRows(schema, rows)
  }

  /** Writing a row and its index entry keeps that index table consistent. */
  lemma WriteKeepsIndexConsistent(rows: map<string, RawRow>, t: IndexTable, fields: seq<string>, key: string, raw: RawRow)
    requires IndexConsistent(rows, t, fields)
    ensures IndexConsistent(rows[key := raw], t[key := IndexTupleOf(raw, fields)], fields)
  {
  }

  /** Deleting a row and its index entry keeps that index table consistent. */
  lemma DeleteKeepsIndexConsistent(rows: map<string, RawRow>, t: IndexTable, fields: seq<string>, key: string)
    requires IndexConsistent(rows, t, fields)
    ensures IndexConsistent(rows - {key}, t - {key}, fields)
  {
  }

  /** Writing a canonical row and its entry in every index table keeps the invariant. */
  lemma WriteKeepsInvariant(schema: Schema, indexes: seq<seq<string>>, names: seq<string>,
                            rows: map<string, RawRow>, tables: map<string, IndexTable>,
                            tables': map<string, IndexTable>, key: string, raw: RawRow)
    requires StoreInvariant(schema, indexes, names, rows, tables)
    requires CanonicalRow(schema, raw)
    requires tables'.Keys == tables.Keys
    requires forall i :: 0 <= i < |indexes| ==> tables'[names[i]] == tables[names[i]][key := IndexTupleOf(raw, indexes[i])]
    ensures StoreInvariant(schema, indexes, names, rows[key := raw], tables')
  {
    forall i | 0 <= i < |indexes|
      ensures IndexConsistent(rows[key := raw], tables'[names[i]], indexes[i])
    {
      WriteKeepsIndexConsistent(rows, tables[names[i]], indexes[i], key, raw);
    }
  }

  /** Deleting a row and its entry in every index table keeps the invariant. */
  lemma DeleteKeepsInvariant(schema: Schema, indexes: seq<seq<string>>, names: seq<string>,
                             rows: map<string, RawRow>, tables: map<string, IndexTable>,
                             tables': map<string, IndexTable>, key: string)
    requires StoreInvariant(schema, indexes, names, rows, tables)
    requires tables'.Keys == tables.Keys
    requires forall i :: 0 <= i < |indexes| ==> tables'[names[i]] == tables[names[i]] - {key}
    ensures StoreInvariant(schema, indexes, names, rows - {key}, tables')
  {
    forall i | 0 <= i < |indexes|
      ensures IndexConsistent(rows - {key}, tables'[names[i]], indexes[i])
    {
      DeleteKeepsIndexConsistent(rows, tables[names[i]], indexes[i], key);
    }
    var rows' := rows - {key};
    forall k | k in rows'
      ensures CanonicalRow(schema, rows'[k])
    {
      assert rows'[k] == rows[k];
    }
  }

  /** An empty store with every index table empty satisfies the invariant. */
  lemma ClearedStoreInvariant(schema: Schema, indexes: seq<seq<string>>, names: seq<string>, tables: map<string, IndexTable>)
    requires |names| == |indexes| && Distinct(names)
    requires forall n :: n in tables <==> n in names
    requires forall i :: 0 <= i < |indexes| ==> tables[names[i]] == map[]
    ensures StoreInvariant(schema, indexes, names, map[], tables)
  {
  }

  /** With no key stored, an index table has no entry for it. */
  lemma AbsentKeyNotIndexed(schema: Schema, indexes: seq<seq<string>>, names: seq<string>,
                            rows: map<string, RawRow>, tables: map<string, IndexTable>, key: string, i: nat)
    requires StoreInvariant(schema, indexes, names, rows, tables)
    requires key !in rows && i < |indexes|
    ensures key !in tables[names[i]]
  {
    assert IndexConsistent(rows, tables[names[i]], indexes[i]);
  }

  // ---------------------------------------------------------------------
  // Lookups and queries over the rows
  // ---------------------------------------------------------------------

  /** `findByKey:` over the primary rows. */
  function Lookup(schema: Schema, rows: map<string, RawRow>, key: string): (r: Option<Entity>)
    ensures r.Some? <==> key in rows
    ensures r.Some? ==> r.value.key == key && WellTyped(schema, r.value.values)
  {
    if key in rows then Some(Entity(key, DecodeRow(schema, rows[key]))) else None
  }

  /** After a row is written for `key`, looking it up gives back the model's values; other keys are untouched. */
  lemma LookupAfterWrite(schema: Schema, rows: map<string, RawRow>, key: string, values: Row, other: string)
    requires WellTyped(schema, values)
    ensures Lookup(schema, rows[key := EncodeRow(values)], key) == Some(Entity(key, values))
    ensures other != key ==> Lookup(schema, rows[key := EncodeRow(values)], other) == Lookup(schema, rows, other)
  {
    DecodeEncodeRow(schema, values);
  }

  /** The keys of the stored models a query matches. */
  function MatchingKeys(schema: Schema, rows: map<string, RawRow>, q: ModelQuery): (ks: set<string>)
    ensures ks <= rows.Keys
    ensures forall k :: k in ks <==> k in rows && Matches(q, DecodeRow(schema, rows[k]))
  {
    set k | k in rows && Matches(q, DecodeRow(schema, rows[k]))
  }

  /** `findOne:` and `findWithProperties:`: every given property holds the given value. */
  predicate HasProperties(row: Row, props: Row) {
    forall p :: p in props ==> p in row && row[p] == props[p]
  }

  function KeysOf(es: seq<Entity>): set<string> {
    set i | 0 <= i < |es| :: es[i].key
  }

  predicate DistinctKeys(es: seq<Entity>) {
    forall i, j :: 0 <= i < j < |es| ==> es[i].key != es[j].key
  }

  lemma {:induction false} DistinctKeysCount(es: seq<Entity>)
    requires DistinctKeys(es)
    ensures |KeysOf(es)| == |es|
  {
    if es != [] {
      var init := es[..|es| - 1];
      var last := es[|es| - 1].key;
      DistinctKeysCount(init);
      assert KeysOf(es) == KeysOf(init) + {last} by {
        forall k | k in KeysOf(es) ensures k in KeysOf(init) + {last} {
          var i :| 0 <= i < |es| && es[i].key == k;
          if i < |es| - 1 { assert init[i] == es[i]; }
        }
      }
      assert last !in KeysOf(init);
    }
  }

  lemma KeysOfPrefix(es: seq<Entity>, i: nat)
    requires i < |es|
    ensures KeysOf(es[..i + 1]) == KeysOf(es[..i]) + {es[i].key}
  {
    assert es[..i + 1] == es[..i] + [es[i]];
    assert es[..i + 1][i] == es[i];
  }

  /** Each entity is the stored model of its key: its values are that row, decoded. */
  predicate FromRows(schema: Schema, rows: map<string, RawRow>, es: seq<Entity>) {
    forall i :: 0 <= i < |es| ==> es[i].key in rows && es[i].values == DecodeRow(schema, rows[es[i].key])
  }

  /**
   * What executing a query yields: each matching stored model exactly once,
   * decoded from its row, in the query's order.
   */
  predicate IsFindResult(schema: Schema, rows: map<string, RawRow>, q: ModelQuery, es: seq<Entity>) {
    && DistinctKeys(es)
    && KeysOf(es) == MatchingKeys(schema, rows, q)
    && FromRows(schema, rows, es)
    && Sorted(es, q.orderBy, q.sortOrder)
  }

  /** A query's result has exactly as many models as the query matches. */
  lemma FindResultCount(schema: Schema, rows: map<string, RawRow>, q: ModelQuery, es: seq<Entity>)
    requires IsFindResult(schema, rows, q, es)
    ensures |es| == |MatchingKeys(schema, rows, q)|
  {
    DistinctKeysCount(es);
  }

  /** Every query over an empty store finds nothing. */
  lemma FindOnEmptyStore(schema: Schema)
    ensures forall q, es :: IsFindResult(schema, map[], q, es) ==> es == []
  {
    forall q, es | IsFindResult(schema, map[], q, es)
      ensures es == []
    {
      FindResultCount(schema, map[], q, es);
    }
  }

  /** Inserting an entity under a key not yet present keeps the keys distinct and adds that key. */
  lemma InsertFreshKey(schema: Schema, rows: map<string, RawRow>, es: seq<Entity>, e: Entity, r: seq<Entity>, i: nat)
    requires DistinctKeys(es) && FromRows(schema, rows, es)
    requires e.key !in KeysOf(es) && e.key in rows && e.values == DecodeRow(schema, rows[e.key])
    requires i <= |es| && r == es[..i] + [e] + es[i..]
    ensures DistinctKeys(r) && FromRows(schema, rows, r)
    ensures KeysOf(r) == KeysOf(es) + {e.key}
  {
    assert forall j :: 0 <= j < |r| ==> r[j] == (if j < i then es[j] else if j == i then e else es[j - 1]);
    forall k | k in KeysOf(es) + {e.key}
      ensures k in KeysOf(r)
    {
      if k != e.key {
        var j :| 0 <= j < |es| && es[j].key == k;
        if j < i { assert r[j] == es[j]; } else { assert r[j + 1] == es[j]; }
      } else {
        assert r[i] == e;
      }
    }
  }

  /** A window of a query's result is distinct, drawn from the stored rows, and in order. */
  lemma WindowOfFindResult(schema: Schema, rows: map<string, RawRow>, q: ModelQuery, es: seq<Entity>, lo: nat, hi: nat)
    requires IsFindResult(schema, rows, q, es) && lo <= hi <= |es|
    ensures DistinctKeys(es[lo..hi]) && FromRows(schema, rows, es[lo..hi]) && Sorted(es[lo..hi], q.orderBy, q.sortOrder)
    ensures KeysOf(es[lo..hi]) <= MatchingKeys(schema, rows, q)
  {
    var w := es[lo..hi];
    assert forall j :: 0 <= j < |w| ==> w[j] == es[lo + j];
    forall k | k in KeysOf(w)
      ensures k in KeysOf(es)
    {
      var j :| 0 <= j < |w| && w[j].key == k;
      assert es[lo + j].key == k;
    }
  }

  /** The results a query with a decorator hands out. */
  function DecorateAll(q: ModelQuery, es: seq<Entity>): (r: seq<Entity>)
    ensures |r| == |es| && forall i :: 0 <= i < |es| ==> r[i] == Decorate(q, es[i])
  {
    seq(|es|, i requires 0 <= i < |es| => Decorate(q, es[i]))
  }

  // ---------------------------------------------------------------------
  // Choosing candidates: an index lookup or a full scan
  // ---------------------------------------------------------------------

  /** The first declared index on exactly the one property `p`. */
  function SingleIndexOn(indexes: seq<seq<string>>, p: string, from: nat): (r: Option<nat>)
    requires from <= |indexes|
    ensures r.Some? ==> from <= r.value < |indexes| && indexes[r.value] == [p]
    decreases |indexes| - from
  {
    if from == |indexes| then None
    else if indexes[from] == [p] then Some(from)
    else SingleIndexOn(indexes, p, from + 1)
  }

  /** The query is one Equals term on a property that has an index of its own. */
  predicate IndexedEquality(indexes: seq<seq<string>>, q: ModelQuery) {
    |q.parameters| == 1 && q.parameters[0].Equals? && SingleIndexOn(indexes, q.parameters[0].propName, 0).Some?
  }

  /**
   * The keys the store examines for a query. A query that is one Equals term
   * on a property with its own index reads the index table; every other
   * query scans all rows.
   */
  function Candidates(indexes: seq<seq<string>>, names: seq<string>, rows: map<string, RawRow>,
                      tables: map<string, IndexTable>, q: ModelQuery): (ks: set<string>)
    requires |names| == |indexes| && forall i :: 0 <= i < |names| ==> names[i] in tables
    ensures !IndexedEquality(indexes, q) ==> ks == rows.Keys
    ensures IndexedEquality(indexes, q) ==>
      var t := tables[names[SingleIndexOn(indexes, q.parameters[0].propName, 0).value]];
      forall k :: k in ks <==> k in t && t[k] == [Some(ToDatabase(q.parameters[0].value))]
  {
    if |q.parameters| == 1 && q.parameters[0].Equals? then
      match SingleIndexOn(indexes, q.parameters[0].propName, 0)
      case Some(i) =>
        var t := tables[names[i]];
        set k | k in t && t[k] == [Some(ToDatabase(q.parameters[0].value))]
      case None => rows.Keys
    else rows.Keys
  }

  /**
   * The index lookup and the full scan find the same models: no matching
   * model is missing from the candidates, and every candidate is a stored key.
   */
  lemma CandidatesCoverMatches(schema: Schema, indexes: seq<seq<string>>, names: seq<string>,
                               rows: map<string, RawRow>, tables: map<string, IndexTable>, q: ModelQuery)
    requires StoreInvariant(schema, indexes, names, rows, tables)
    requires forall i :: 0 <= i < |indexes| ==> forall j :: 0 <= j < |indexes[i]| ==> indexes[i][j] in schema
    ensures MatchingKeys(schema, rows, q) <= Candidates(indexes, names, rows, tables, q) <= rows.Keys
  {
    if |q.parameters| == 1 && q.parameters[0].Equals? {
      var p, v := q.parameters[0].propName, q.parameters[0].value;
      match SingleIndexOn(indexes, p, 0)
      case Some(i) =>
        var t := tables[names[i]];
        assert IndexConsistent(rows, t, indexes[i]);
        assert p in schema by { assert indexes[i][0] == p; }
        forall k | k in MatchingKeys(schema, rows, q)
          ensures k in t && t[k] == [Some(ToDatabase(v))]
        {
          var row := DecodeRow(schema, rows[k]);
          assert Eval(Equals(p, v), row);
          assert KindOf(v) == schema[p];
          CanonicalColumn(schema, rows[k], p, v);
          assert t[k] == IndexTupleOf(rows[k], [p]);
        }
      case None =>
    }
  }

  // ---------------------------------------------------------------------
  // Transactions
  // ---------------------------------------------------------------------

  /** A store operation that found nothing to act on. */
  datatype StoreError = NotFound(key: string)

  /** One store operation performed inside a transaction block. */
  datatype TxnStep =
    | SaveStep(key: string, values: Row)
    | RemoveStep(key: string)
    | RemoveAllStep

  /** The primary rows after one operation, or the error it raises. */
  function RunStep(rows: map<string, RawRow>, step: TxnStep): (r: Result<map<string, RawRow>, StoreError>)
    ensures r.Failure? <==> step.RemoveStep? && step.key !in rows
  {
    match step
    case SaveStep(k, vs) => Success(rows[k := EncodeRow(vs)])
    case RemoveStep(k) => if k in rows then Success(rows - {k}) else Failure(NotFound(k))
    case RemoveAllStep => Success(map[])
  }

  /** The primary rows after the steps, performed in order; the first error ends the block. */
  function RunSteps(rows: map<string, RawRow>, steps: seq<TxnStep>): Result<map<string, RawRow>, StoreError>
    decreases |steps|
  {
    if steps == [] then Success(rows)
    else match RunSteps(rows, steps[..|steps| - 1])
      case Failure(e) => Failure(e)
      case Success(before) => RunStep(before, steps[|steps| - 1])
  }

  /** Once a step has failed, the block as a whole fails with that step's error. */
  lemma {:induction false} FailureEndsBlock(rows: map<string, RawRow>, steps: seq<TxnStep>, i: nat)
    requires i <= |steps|
    requires RunSteps(rows, steps[..i]).Failure?
    ensures RunSteps(rows, steps) == RunSteps(rows, steps[..i])
    decreases |steps|
  {
    if i < |steps| {
      var init := steps[..|steps| - 1];
      assert init[..i] == steps[..i];
      FailureEndsBlock(rows, init, i);
    } else {
      assert steps[..i] == steps;
    }
  }

  predicate StepsWellTyped(schema: Schema, steps: seq<TxnStep>) {
    forall i :: 0 <= i < |steps| ==> steps[i].SaveStep? ==> WellTyped(schema, steps[i].values)
  }

  /**
   * The last step of a block decides what a lookup of its key sees: a save's
   * values, nothing after a remove, and an empty store after a removeAll.
   */
  lemma LastStepWins(schema: Schema, rows: map<string, RawRow>, steps: seq<TxnStep>, key: string, values: Row)
    requires WellTyped(schema, values)
    requires RunSteps(rows, steps).Success?
    ensures RunSteps(rows, steps + [SaveStep(key, values)]).Success?
    ensures Lookup(schema, RunSteps(rows, steps + [SaveStep(key, values)]).value, key) == Some(Entity(key, values))
    ensures RunSteps(rows, steps + [RemoveStep(key)]).Success? <==> key in RunSteps(rows, steps).value
    ensures RunSteps(rows, steps + [RemoveStep(key)]).Success? ==>
              Lookup(schema, RunSteps(rows, steps + [RemoveStep(key)]).value, key) == None
    ensures RunSteps(rows, steps + [RemoveAllStep]) == Success(map[])
  {
    assert (steps + [SaveStep(key, values)])[..|steps|] == steps;
    assert (steps + [RemoveStep(key)])[..|steps|] == steps;
    assert (steps + [RemoveAllStep])[..|steps|] == steps;
    LookupAfterWrite(schema, RunSteps(rows, steps).value, key, values, key);
  }
}
