/**
 * Queries (`SBModelQuery`) and the fluent query builder
 * (`SBModelQueryBuilder`). A query is immutable data: the accumulated terms,
 * the ordering properties, the sort direction and an optional decorator.
 * It is executed by the store (module Store).
 */
module Query {
  import opened Wrappers
  import opened Fields
  import opened QueryTerm

  /** `SBModelSorting`: exactly one of two directions. */
  datatype Sorting = Ascending | Descending

  /** A model instance as a value: its key and its field values. */
  datatype Entity = Entity(key: string, values: Row)

  /** `SBModelQuery`: every property is readonly, so the query is a value. */
  datatype ModelQuery = ModelQuery(
    parameters: seq<Term>,
    orderBy: seq<string>,
    sortOrder: Sorting,
    decorator: Option<Entity -> Entity>)

  /** The errors the builder reports instead of adding a term. */
  datatype QueryError =
    | SchemaError(unknown: set<string>)
    | ArityError(expected: nat)

  /** The single condition a query stands for: its sole term, or the conjunction of its terms. */
  function Root(q: ModelQuery): (t: Term)
    ensures forall row :: Eval(t, row) <==> (forall i :: 0 <= i < |q.parameters| ==> Eval(q.parameters[i], row))
    ensures PropNames(t) == set i, p | 0 <= i < |q.parameters| && p in PropNames(q.parameters[i]) :: p
  {
    if |q.parameters| == 1 then q.parameters[0] else And(q.parameters)
  }

  predicate Matches(q: ModelQuery, row: Row) {
    Eval(Root(q), row)
  }

  /** What the result set hands out for one found model: the decorator's value, if there is a decorator. */
  function Decorate(q: ModelQuery, e: Entity): Entity {
    match q.decorator
    case None => e
    case Some(f) => f(e)
  }

  /** A term added to a query is conjoined with the terms before it. */
  lemma AddingTermConjoins(q: ModelQuery, t: Term, row: Row)
    ensures Matches(q.(parameters := q.parameters + [t]), row) <==> Matches(q, row) && Eval(t, row)
  {
    var q' := q.(parameters := q.parameters + [t]);
    assert forall i :: 0 <= i < |q.parameters| ==> q'.parameters[i] == q.parameters[i];
    assert q'.parameters[|q.parameters|] == t;
  }

  // ---------------------------------------------------------------------
  // Tuple constraints
  // ---------------------------------------------------------------------

  /** The properties `ps` of `row` hold the values `tp`, position by position. */
  predicate TupleMatches(row: Row, ps: seq<string>, tp: seq<Field>) {
    |tp| == |ps| && forall j :: 0 <= j < |ps| ==> ps[j] in row && row[ps[j]] == tp[j]
  }

  /** The tuple of properties `ps` of `row` is one of `tuples`. */
  predicate InTuples(row: Row, ps: seq<string>, tuples: set<seq<Field>>) {
    exists tp :: tp in tuples && TupleMatches(row, ps, tp)
  }

  /** The conjunction of `ps[j] = vs[j]`. */
  function TupleEquals(ps: seq<string>, vs: seq<Field>): (t: Term)
    requires |ps| == |vs|
    ensures forall row :: Eval(t, row) <==> TupleMatches(row, ps, vs)
    ensures PropNames(t) == set j | 0 <= j < |ps| :: ps[j]
  {
    var t := And(seq(|ps|, j requires 0 <= j < |ps| => Equals(ps[j], vs[j])));
    assert forall j :: 0 <= j < |ps| ==> PropNames(t.terms[j]) == {ps[j]};
    t
  }

  /**
   * The term for "the tuple of properties `ps` is one of `tuples`": one
   * alternative per value tuple, built by a loop over the set.
   */
  method TupleContainedTerm(ps: seq<string>, tuples: set<seq<Field>>) returns (t: Term)
    requires forall tp :: tp in tuples ==> |tp| == |ps|
    ensures forall row :: Eval(t, row) <==> InTuples(row, ps, tuples)
    ensures PropNames(t) <= set j | 0 <= j < |ps| :: ps[j]
  {
    var rest := tuples;
    var alternatives: seq<Term> := [];
    ghost var done: set<seq<Field>> := {};
    while rest != {}
      invariant rest + done == tuples
      invariant forall row :: Eval(Or(alternatives), row) <==> InTuples(row, ps, done)
      invariant forall i :: 0 <= i < |alternatives| ==> PropNames(alternatives[i]) <= set j | 0 <= j < |ps| :: ps[j]
      decreases rest
    {
      var tp :| tp in rest;
      var alt := TupleEquals(ps, tp);
      forall row
        ensures Eval(Or(alternatives + [alt]), row) <==> InTuples(row, ps, done + {tp})
      {
        var alts := alternatives + [alt];
        assert alts[|alternatives|] == alt;
        if Eval(Or(alts), row) {
          var i :| 0 <= i < |alts| && Eval(alts[i], row);
          if i < |alternatives| {
            assert alts[i] == alternatives[i];
            assert Eval(Or(alternatives), row);
          } else {
            assert TupleMatches(row, ps, tp);
          }
        }
        if InTuples(row, ps, done + {tp}) {
          var u :| u in done + {tp} && TupleMatches(row, ps, u);
          if u != tp {
            assert InTuples(row, ps, done);
            var i :| 0 <= i < |alternatives| && Eval(alternatives[i], row);
            assert alts[i] == alternatives[i];
          }
        }
      }
      alternatives := alternatives + [alt];
      rest := rest - {tp};
      done := done + {tp};
    }
    t := Or(alternatives);
  }

  // ---------------------------------------------------------------------
  // The builder
  // ---------------------------------------------------------------------

  /**
   * `SBModelQueryBuilder`: every call adds its constraint to the list built so
   * far and returns the builder itself; a call naming a property the model
   * class does not declare, or a tuple of the wrong length, is refused and
   * changes nothing.
   */
  class QueryBuilder {
    /** The property names the bound model class declares. */
    const fieldNames: set<string>
    var parameters: seq<Term>
    var orderBy: seq<string>
    var sortOrder: Sorting
    var decorator: Option<Entity -> Entity>

    /** `-initWithMeta:` (the meta's field names); an empty query, in ascending order. */
    constructor (fieldNames: set<string>)
      ensures this.fieldNames == fieldNames
      ensures parameters == [] && orderBy == [] && sortOrder == Ascending && decorator.None?
    {
      this.fieldNames := fieldNames;
      parameters := [];
      orderBy := [];
      sortOrder := Ascending;
      decorator := None;
    }

    /** `-[SBModelQuery builder]`: a builder that starts from an existing query. */
    constructor FromQuery(fieldNames: set<string>, q: ModelQuery)
      ensures this.fieldNames == fieldNames
      ensures parameters == q.parameters && orderBy == q.orderBy && sortOrder == q.sortOrder
      ensures decorator.Some? <==> q.decorator.Some?
      ensures decorator.Some? ==> decorator.value == q.decorator.value
    {
      this.fieldNames := fieldNames;
      parameters := q.parameters;
      orderBy := q.orderBy;
      sortOrder := q.sortOrder;
      decorator := q.decorator;
    }

    /** Adds one term after checking its property names against the model class. */
    method AddTerm(t: Term) returns (r: Result<QueryBuilder, QueryError>)
      modifies this`parameters
      ensures PropNames(t) <= fieldNames ==> r == Success(this) && parameters == old(parameters) + [t]
      ensures !(PropNames(t) <= fieldNames) ==>
        r == Failure(SchemaError(PropNames(t) - fieldNames)) && parameters == old(parameters)
    {
      if PropNames(t) <= fieldNames {
        parameters := parameters + [t];
        r := Success(this);
      } else {
        r := Failure(SchemaError(PropNames(t) - fieldNames));
      }
    }

    /** `-property:isEqualTo:` */
    method PropertyIsEqualTo(propName: string, obj: Field) returns (r: Result<QueryBuilder, QueryError>)
      modifies this`parameters
      ensures propName in fieldNames ==> r == Success(this) && parameters == old(parameters) + [Equals(propName, obj)]
      ensures propName !in fieldNames ==> r == Failure(SchemaError({propName})) && parameters == old(parameters)
    {
      assert propName !in fieldNames ==> {propName} - fieldNames == {propName};
      r := AddTerm(Equals(propName, obj));
    }

    /** `-property:isContainedWithin:` */
    method PropertyIsContainedWithin(propName: string, values: set<Field>) returns (r: Result<QueryBuilder, QueryError>)
      modifies this`parameters
      ensures propName in fieldNames ==>
        r == Success(this) && parameters == old(parameters) + [ContainedWithin(propName, values)]
      ensures propName !in fieldNames ==> r == Failure(SchemaError({propName})) && parameters == old(parameters)
    {
      assert propName !in fieldNames ==> {propName} - fieldNames == {propName};
      r := AddTerm(ContainedWithin(propName, values));
    }

    /** `-property:isNotCointainedWithinSet:`: the complement of `isContainedWithin:`. */
    method PropertyIsNotContainedWithinSet(propName: string, values: set<Field>) returns (r: Result<QueryBuilder, QueryError>)
      modifies this`parameters
      ensures propName in fieldNames ==> r == Success(this) && |parameters| == |old(parameters)| + 1
      ensures propName in fieldNames ==> parameters[..|old(parameters)|] == old(parameters)
      ensures propName in fieldNames ==> forall row ::
        Eval(parameters[|old(parameters)|], row) <==> !Eval(ContainedWithin(propName, values), row)
      ensures propName !in fieldNames ==> r == Failure(SchemaError({propName})) && parameters == old(parameters)
    {
      var t := Not([ContainedWithin(propName, values)]);
      assert PropNames(t) == {propName} by {
        assert t.terms[0] == ContainedWithin(propName, values);
      }
      assert propName !in fieldNames ==> {propName} - fieldNames == {propName};
      r := AddTerm(t);
      forall row ensures Eval(t, row) <==> !Eval(ContainedWithin(propName, values), row) {
        NotNegates(ContainedWithin(propName, values), row);
      }
    }

    /** `-property:isNotEqualTo:` */
    method PropertyIsNotEqualTo(propName: string, obj: Field) returns (r: Result<QueryBuilder, QueryError>)
      modifies this`parameters
      ensures propName in fieldNames ==> r == Success(this) && parameters == old(parameters) + [NotEquals(propName, obj)]
      ensures propName !in fieldNames ==> r == Failure(SchemaError({propName})) && parameters == old(parameters)
    {
      assert propName !in fieldNames ==> {propName} - fieldNames == {propName};
      r := AddTerm(NotEquals(propName, obj));
    }

    /**
     * `-properties:areNotEqualTo:`: the tuple of properties is not the tuple of
     * values; the lists must be as long as each other and every property declared.
     */
    method PropertiesAreNotEqualTo(propNames: seq<string>, values: seq<Field>) returns (r: Result<QueryBuilder, QueryError>)
      modifies this`parameters
      ensures |values| != |propNames| ==> r == Failure(ArityError(|propNames|)) && parameters == old(parameters)
      ensures |values| == |propNames| && !(forall j :: 0 <= j < |propNames| ==> propNames[j] in fieldNames) ==>
        r == Failure(SchemaError((set j | 0 <= j < |propNames| :: propNames[j]) - fieldNames)) && parameters == old(parameters)
      ensures |values| == |propNames| && (forall j :: 0 <= j < |propNames| ==> propNames[j] in fieldNames) ==>
        && r == Success(this) && |parameters| == |old(parameters)| + 1
        && parameters[..|old(parameters)|] == old(parameters)
        && forall row :: Eval(parameters[|old(parameters)|], row) <==> !TupleMatches(row, propNames, values)
      ensures r.Failure? ==> parameters == old(parameters)
    {
      if |values| != |propNames| {
        r := Failure(ArityError(|propNames|));
        return;
      }
      if !(forall j :: 0 <= j < |propNames| ==> propNames[j] in fieldNames) {
        r := Failure(SchemaError((set j | 0 <= j < |propNames| :: propNames[j]) - fieldNames));
        return;
      }
      var eq := TupleEquals(propNames, values);
      var t := Not([eq]);
      forall row ensures Eval(t, row) <==> !TupleMatches(row, propNames, values) {
        NotNegates(eq, row);
      }
      assert PropNames(t) == PropNames(eq) by {
        assert t.terms[0] == eq;
      }
      r := AddTerm(t);
    }

    /**
     * `-propertyTuple:isContainedWithinValueTuples:`: every value tuple must be
     * as long as the property tuple, and every property declared.
     */
    method PropertyTupleIsContainedWithinValueTuples(propNames: seq<string>, tuples: set<seq<Field>>)
      returns (r: Result<QueryBuilder, QueryError>)
      modifies this`parameters
      ensures (exists tp :: tp in tuples && |tp| != |propNames|) ==>
        r == Failure(ArityError(|propNames|)) && parameters == old(parameters)
      ensures (forall tp :: tp in tuples ==> |tp| == |propNames|) && !(forall j :: 0 <= j < |propNames| ==> propNames[j] in fieldNames) ==>
        r == Failure(SchemaError((set j | 0 <= j < |propNames| :: propNames[j]) - fieldNames)) && parameters == old(parameters)
      ensures (forall tp :: tp in tuples ==> |tp| == |propNames|) &&
              (forall j :: 0 <= j < |propNames| ==> propNames[j] in fieldNames) ==>
        && r == Success(this) && |parameters| == |old(parameters)| + 1
        && parameters[..|old(parameters)|] == old(parameters)
        && forall row :: Eval(parameters[|old(parameters)|], row) <==> InTuples(row, propNames, tuples)
      ensures r.Failure? ==> parameters == old(parameters)
    {
      if exists tp :: tp in tuples && |tp| != |propNames| {
        r := Failure(ArityError(|propNames|));
        return;
      }
      if !(forall j :: 0 <= j < |propNames| ==> propNames[j] in fieldNames) {
        r := Failure(SchemaError((set j | 0 <= j < |propNames| :: propNames[j]) - fieldNames));
        return;
      }
      var t := TupleContainedTerm(propNames, tuples);
      r := AddTerm(t);
    }

    /** `-propertyTuple:isNotContainedWithinValueTuples:`: the complement of the above. */
    method PropertyTupleIsNotContainedWithinValueTuples(propNames: seq<string>, tuples: set<seq<Field>>)
      returns (r: Result<QueryBuilder, QueryError>)
      modifies this`parameters
      ensures (exists tp :: tp in tuples && |tp| != |propNames|) ==>
        r == Failure(ArityError(|propNames|)) && parameters == old(parameters)
      ensures (forall tp :: tp in tuples ==> |tp| == |propNames|) && !(forall j :: 0 <= j < |propNames| ==> propNames[j] in fieldNames) ==>
        r == Failure(SchemaError((set j | 0 <= j < |propNames| :: propNames[j]) - fieldNames)) && parameters == old(parameters)
      ensures (forall tp :: tp in tuples ==> |tp| == |propNames|) &&
              (forall j :: 0 <= j < |propNames| ==> propNames[j] in fieldNames) ==>
        && r == Success(this) && |parameters| == |old(parameters)| + 1
        && parameters[..|old(parameters)|] == old(parameters)
        && forall row :: Eval(parameters[|old(parameters)|], row) <==> !InTuples(row, propNames, tuples)
      ensures r.Failure? ==> parameters == old(parameters)
    {
      if exists tp :: tp in tuples && |tp| != |propNames| {
        r := Failure(ArityError(|propNames|));
        return;
      }
      if !(forall j :: 0 <= j < |propNames| ==> propNames[j] in fieldNames) {
        r := Failure(SchemaError((set j | 0 <= j < |propNames| :: propNames[j]) - fieldNames));
        return;
      }
      var contained := TupleContainedTerm(propNames, tuples);
      var t := Not([contained]);
      forall row ensures Eval(t, row) <==> !Eval(contained, row) {
        NotNegates(contained, row);
      }
      assert PropNames(t) == PropNames(contained) by {
        assert t.terms[0] == contained;
      }
      r := AddTerm(t);
    }

    /** `-sort:` */
    method Sort(order: Sorting) returns (r: Result<QueryBuilder, QueryError>)
      modifies this`sortOrder
      ensures r == Success(this) && sortOrder == order
    {
      sortOrder := order;
      r := Success(this);
    }

    /** `-orderByProperties:`: the ordering properties must be declared. */
    method OrderByProperties(props: seq<string>) returns (r: Result<QueryBuilder, QueryError>)
      modifies this`orderBy
      ensures (forall j :: 0 <= j < |props| ==> props[j] in fieldNames) ==> r == Success(this) && orderBy == props
      ensures !(forall j :: 0 <= j < |props| ==> props[j] in fieldNames) ==>
        r == Failure(SchemaError((set j | 0 <= j < |props| :: props[j]) - fieldNames)) && orderBy == old(orderBy)
    {
      if forall j :: 0 <= j < |props| ==> props[j] in fieldNames {
        orderBy := props;
        r := Success(this);
      } else {
        r := Failure(SchemaError((set j | 0 <= j < |props| :: props[j]) - fieldNames));
      }
    }

    /** `-decorateResults:`; the decorator is an opaque function value. */
    method DecorateResults(f: Entity -> Entity) returns (r: Result<QueryBuilder, QueryError>)
      modifies this`decorator
      ensures r == Success(this) && decorator.Some? && decorator.value == f
    {
      decorator := Some(f);
      r := Success(this);
    }

    /** `-query`: freezes what the builder received into an immutable query. */
    function Query(): (q: ModelQuery)
      reads this
      ensures q.parameters == parameters && q.orderBy == orderBy && q.sortOrder == sortOrder
      ensures q.decorator.Some? <==> decorator.Some?
      ensures q.decorator.Some? ==> q.decorator.value == decorator.value
      ensures forall row :: Matches(q, row) <==> forall i :: 0 <= i < |parameters| ==> Eval(parameters[i], row)
    {
      ModelQuery(parameters, orderBy, sortOrder, decorator)
    }
  }
}
