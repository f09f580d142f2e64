/**
 * The query-term algebra (`SBModelQueryTerm` and its singular and composite
 * implementations). Terms are immutable trees: a singular term holds one
 * property name and one value, a composite term holds a list of terms.
 */
module QueryTerm {
  import opened Fields

  /** A model's field values by property name; a property that is `nil` is absent. */
  type Row = map<string, Field>

  datatype Term =
    | Equals(propName: string, value: Field)
    | ContainedWithin(propName: string, values: set<Field>)
    | NotEquals(propName: string, value: Field)
    | Not(terms: seq<Term>)
    | Or(terms: seq<Term>)
    | And(terms: seq<Term>)

  predicate IsSingular(t: Term) {
    t.Equals? || t.ContainedWithin? || t.NotEquals?
  }

  /** `-propNames`: every property name the term refers to. */
  function PropNames(t: Term): (r: set<string>)
    ensures IsSingular(t) ==> r == {t.propName}
    ensures !IsSingular(t) ==> forall i, p :: 0 <= i < |t.terms| && p in PropNames(t.terms[i]) ==> p in r
    ensures !IsSingular(t) ==> forall p :: p in r ==> exists i :: 0 <= i < |t.terms| && p in PropNames(t.terms[i])
    decreases t
  {
    match t
    case Equals(p, _) => {p}
    case ContainedWithin(p, _) => {p}
    case NotEquals(p, _) => {p}
    case Not(ts) => set i, p | 0 <= i < |ts| && p in PropNames(ts[i]) :: p
    case Or(ts) => set i, p | 0 <= i < |ts| && p in PropNames(ts[i]) :: p
    case And(ts) => set i, p | 0 <= i < |ts| && p in PropNames(ts[i]) :: p
  }

  /**
   * In-memory evaluation of a term against a model's fields. `Not` negates the
   * conjunction of its terms, so `Not([t])` is the negation of `t`; `And([])`
   * holds of every row and `Or([])` of none.
   */
  predicate Eval(t: Term, row: Row)
    ensures (t.Equals? || t.ContainedWithin?) && Eval(t, row) ==> t.propName in row
    ensures t.NotEquals? && t.propName !in row ==> Eval(t, row)
    ensures t.Not? && |t.terms| == 1 ==> (Eval(t, row) <==> !Eval(t.terms[0], row))
    decreases t
  {
    match t
    case Equals(p, v) => p in row && row[p] == v
    case ContainedWithin(p, vs) => p in row && row[p] in vs
    case NotEquals(p, v) => !(p in row && row[p] == v)
    case Not(ts) => !(forall i :: 0 <= i < |ts| ==> Eval(ts[i], row))
    case Or(ts) => exists i :: 0 <= i < |ts| && Eval(ts[i], row)
    case And(ts) => forall i :: 0 <= i < |ts| ==> Eval(ts[i], row)
  }

  /** Two rows that agree on the properties of a term. */
  predicate AgreeOn(names: set<string>, r1: Row, r2: Row) {
    forall p :: p in names ==> (p in r1 <==> p in r2) && (p in r1 ==> r1[p] == r2[p])
  }

  /** A term looks only at the properties it reports through `propNames`. */
  lemma {:induction false} EvalDependsOnlyOnPropNames(t: Term, r1: Row, r2: Row)
    requires AgreeOn(PropNames(t), r1, r2)
    ensures Eval(t, r1) == Eval(t, r2)
    decreases t
  {
    match t
    case Equals(_, _) =>
    case ContainedWithin(_, _) =>
    case NotEquals(_, _) =>
    case Not(ts) => ChildrenDependOnlyOnPropNames(t, ts, r1, r2);
    case Or(ts) => ChildrenDependOnlyOnPropNames(t, ts, r1, r2);
    case And(ts) => ChildrenDependOnlyOnPropNames(t, ts, r1, r2);
  }

  lemma {:induction false} ChildrenDependOnlyOnPropNames(t: Term, ts: seq<Term>, r1: Row, r2: Row)
    requires !IsSingular(t) && ts == t.terms
    requires AgreeOn(PropNames(t), r1, r2)
    ensures forall i :: 0 <= i < |ts| ==> Eval(ts[i], r1) == Eval(ts[i], r2)
    decreases t, 0
  {
    forall i | 0 <= i < |ts|
      ensures Eval(ts[i], r1) == Eval(ts[i], r2)
    {
      EvalDependsOnlyOnPropNames(ts[i], r1, r2);
    }
  }

  /** NotEquals(p, v) holds exactly where Equals(p, v) does not. */
  lemma NotEqualsNegatesEquals(p: string, v: Field, row: Row)
    ensures Eval(NotEquals(p, v), row) <==> !Eval(Equals(p, v), row)
  {
  }

  /** Not([t]) is the negation of t, and negating twice gives t back. */
  lemma NotNegates(t: Term, row: Row)
    ensures Eval(Not([t]), row) <==> !Eval(t, row)
    ensures Eval(Not([Not([t])]), row) <==> Eval(t, row)
  {
    assert [t][0] == t;
    assert [Not([t])][0] == Not([t]);
  }

  /** The empty conjunction holds of every row; the empty disjunction of none. */
  lemma EmptyComposites(row: Row)
    ensures Eval(And([]), row)
    ensures !Eval(Or([]), row)
  {
  }

  // ---------------------------------------------------------------------
  // Rendering. The text is this model's own notation (property names,
  // operators and `?` placeholders for the values), not the library's SQL.
  // ---------------------------------------------------------------------

  function Qualify(ns: string, p: string): string {
    if ns == "" then p else ns + "." + p
  }

  function Placeholders(n: nat): string {
    if n == 0 then "" else if n == 1 then "?" else "?, " + Placeholders(n - 1)
  }

  /** `-renderWithNamespace:`: a condition naming every property as `ns.prop`. */
  function RenderWithNamespace(t: Term, ns: string): (r: string)
    ensures IsSingular(t) ==> |Qualify(ns, t.propName)| < |r| && r[..|Qualify(ns, t.propName)|] == Qualify(ns, t.propName)
    decreases t
  {
    match t
    case Equals(p, _) => Qualify(ns, p) + " = ?"
    case ContainedWithin(p, vs) => Qualify(ns, p) + " IN (" + Placeholders(|vs|) + ")"
    case NotEquals(p, _) => Qualify(ns, p) + " != ?"
    case Not(ts) => "NOT " + RenderComposite(ts, ns, " AND ", "1")
    case Or(ts) => RenderComposite(ts, ns, " OR ", "0")
    case And(ts) => RenderComposite(ts, ns, " AND ", "1")
  }

  function RenderComposite(ts: seq<Term>, ns: string, op: string, empty: string): string
    decreases ts, 1
  {
    if ts == [] then empty else "(" + RenderFrom(ts, 0, ns, op) + ")"
  }

  /** The terms `ts[i..]` rendered and joined by `op`. */
  function RenderFrom(ts: seq<Term>, i: nat, ns: string, op: string): string
    requires i < |ts|
    decreases ts, 0, |ts| - i
  {
    if i == |ts| - 1 then RenderWithNamespace(ts[i], ns)
    else RenderWithNamespace(ts[i], ns) + op + RenderFrom(ts, i + 1, ns, op)
  }

  /** `-render`: the condition without a namespace. */
  function Render(t: Term): (s: string)
    ensures forall p :: p in PropNames(t) ==> Occurs(p, s)
  {
    RenderNamesAll(t, "");
    RenderWithNamespace(t, "")
  }

  predicate Occurs(a: string, b: string) {
    exists i, j :: 0 <= i <= j <= |b| && b[i..j] == a
  }

  lemma OccursInConcat(a: string, x: string, y: string)
    ensures Occurs(a, x) ==> Occurs(a, x + y)
    ensures Occurs(a, y) ==> Occurs(a, x + y)
  {
    if Occurs(a, x) {
      var i, j :| 0 <= i <= j <= |x| && x[i..j] == a;
      assert (x + y)[i..j] == a;
    }
    if Occurs(a, y) {
      var i, j :| 0 <= i <= j <= |y| && y[i..j] == a;
      assert (x + y)[|x| + i..|x| + j] == a;
    }
  }

  /** The rendering of a term names every property the term refers to. */
  lemma {:induction false} RenderNamesEveryProperty(t: Term, ns: string, p: string)
    requires p in PropNames(t)
    ensures Occurs(Qualify(ns, p), RenderWithNamespace(t, ns))
    decreases t
  {
    var q := Qualify(ns, p);
    match t
    case Equals(_, _) =>
      assert (q + " = ?")[0..|q|] == q;
    case ContainedWithin(_, vs) =>
      var rest := " IN (" + Placeholders(|vs|) + ")";
      assert RenderWithNamespace(t, ns) == q + rest;
      assert (q + rest)[0..|q|] == q;
    case NotEquals(_, _) =>
      assert (q + " != ?")[0..|q|] == q;
    case Not(ts) =>
      CompositeNames(ts, ns, " AND ", "1", p);
      OccursInConcat(q, "NOT ", RenderComposite(ts, ns, " AND ", "1"));
    case Or(ts) =>
      CompositeNames(ts, ns, " OR ", "0", p);
    case And(ts) =>
      CompositeNames(ts, ns, " AND ", "1", p);
  }

  lemma RenderNamesAll(t: Term, ns: string)
    ensures forall p :: p in PropNames(t) ==> Occurs(Qualify(ns, p), RenderWithNamespace(t, ns))
  {
    forall p | p in PropNames(t)
      ensures Occurs(Qualify(ns, p), RenderWithNamespace(t, ns))
    {
      RenderNamesEveryProperty(t, ns, p);
    }
  }

  lemma {:induction false} CompositeNames(ts: seq<Term>, ns: string, op: string, empty: string, p: string)
    requires exists i :: 0 <= i < |ts| && p in PropNames(ts[i])
    ensures Occurs(Qualify(ns, p), RenderComposite(ts, ns, op, empty))
    decreases ts, 1
  {
    var q := Qualify(ns, p);
    var i :| 0 <= i < |ts| && p in PropNames(ts[i]);
    var body := RenderFrom(ts, 0, ns, op);
    RenderFromNames(ts, 0, i, ns, op, p);
    OccursInConcat(q, "(", body);
    OccursInConcat(q, "(" + body, ")");
    assert RenderComposite(ts, ns, op, empty) == "(" + body + ")";
  }

  lemma {:induction false} RenderFromNames(ts: seq<Term>, from: nat, i: nat, ns: string, op: string, p: string)
    requires from <= i < |ts| && p in PropNames(ts[i])
    ensures Occurs(Qualify(ns, p), RenderFrom(ts, from, ns, op))
    decreases ts, 0, |ts| - from
  {
    var q := Qualify(ns, p);
    var head := RenderWithNamespace(ts[from], ns);
    if from == i {
      RenderNamesEveryProperty(ts[i], ns, p);
      if from < |ts| - 1 {
        var tail := op + RenderFrom(ts, from + 1, ns, op);
        OccursInConcat(q, head, tail);
        assert RenderFrom(ts, from, ns, op) == head + tail;
      } else {
        assert RenderFrom(ts, from, ns, op) == head;
      }
    } else {
      var tail := RenderFrom(ts, from + 1, ns, op);
      RenderFromNames(ts, from + 1, i, ns, op, p);
      OccursInConcat(q, head + op, tail);
      assert RenderFrom(ts, from, ns, op) == (head + op) + tail;
    }
  }
}
