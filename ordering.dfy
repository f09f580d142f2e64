/**
 * The in-memory ordering of query results: `orderBy` properties compared
 * one after the other, in the query's sort direction. A missing (`nil`)
 * value sorts first, then integers, then dates, then strings; values of one
 * class compare by value, strings character by character.
 */
module Ordering {
  import opened Wrappers
  import opened Fields
  import opened QueryTerm
  import opened Query

  function CmpInt(a: int, b: int): int {
    if a < b then -1 else if a > b then 1 else 0
  }

  /** Lexicographic comparison of strings by character code. */
  function CmpString(s: string, t: string): (c: int)
    ensures -1 <= c <= 1
  {
    if s == [] then (if t == [] then 0 else -1)
    else if t == [] then 1
    else if s[0] < t[0] then -1
    else if s[0] > t[0] then 1
    else CmpString(s[1..], t[1..])
  }

  lemma {:induction false} CmpStringProperties(s: string, t: string)
    ensures CmpString(s, t) == -CmpString(t, s)
    ensures CmpString(s, t) == 0 <==> s == t
  {
    if s != [] && t != [] && s[0] == t[0] {
      CmpStringProperties(s[1..], t[1..]);
      if s[1..] == t[1..] {
        assert s == [s[0]] + s[1..] && t == [t[0]] + t[1..];
      }
    }
  }

  lemma {:induction false} CmpStringTransitive(s: string, t: string, u: string)
    requires CmpString(s, t) <= 0 && CmpString(t, u) <= 0
    ensures CmpString(s, u) <= 0
  {
    if s != [] && t != [] && u != [] && s[0] == t[0] == u[0] {
      CmpStringTransitive(s[1..], t[1..], u[1..]);
    }
  }

  /** A date's position in time, to the second (a strictly increasing encoding of its fields). */
  function DateOrdinal(d: Date): int {
    ((((d.year * 13 + d.month) * 32 + d.day) * 24 + d.hour) * 60 + d.minute) * 60 + d.second
  }

  function KindRank(v: Option<Field>): int {
    match v
    case None => 0
    case Some(SBInteger(_)) => 1
    case Some(SBDate(_)) => 2
    case Some(SBString(_)) => 3
  }

  function CmpValue(a: Option<Field>, b: Option<Field>): (c: int)
    ensures -1 <= c <= 1
  {
    if KindRank(a) != KindRank(b) then CmpInt(KindRank(a), KindRank(b))
    else match (a, b)
      case (Some(SBInteger(x)), Some(SBInteger(y))) => CmpInt(x, y)
      case (Some(SBDate(x)), Some(SBDate(y))) => CmpInt(DateOrdinal(x), DateOrdinal(y))
      case (Some(SBString(x)), Some(SBString(y))) => CmpString(x, y)
      case _ => 0
  }

  /** Comparison of values is a total preorder. */
  lemma CmpValueProperties(a: Option<Field>, b: Option<Field>, c: Option<Field>)
    ensures CmpValue(a, b) == -CmpValue(b, a)
    ensures CmpValue(a, b) <= 0 && CmpValue(b, c) <= 0 ==> CmpValue(a, c) <= 0
    ensures CmpValue(a, b) == 0 && CmpValue(b, c) == 0 ==> CmpValue(a, c) == 0
  {
    if a.Some? && b.Some? && a.value.SBString? && b.value.SBString? {
      CmpStringProperties(a.value.stringValue, b.value.stringValue);
    }
    if a.Some? && b.Some? && c.Some? && a.value.SBString? && b.value.SBString? && c.value.SBString? {
      var x, y, z := a.value.stringValue, b.value.stringValue, c.value.stringValue;
      CmpStringProperties(x, y);
      CmpStringProperties(y, z);
      CmpStringProperties(x, z);
      if CmpString(x, y) <= 0 && CmpString(y, z) <= 0 {
        CmpStringTransitive(x, y, z);
      }
    }
  }

  function Get(r: Row, p: string): Option<Field> {
    if p in r then Some(r[p]) else None
  }

  /** Rows compared on the properties `props`, the first one that differs deciding. */
  function CmpRows(r1: Row, r2: Row, props: seq<string>): (c: int)
    ensures -1 <= c <= 1
  {
    if props == [] then 0
    else
      var c := CmpValue(Get(r1, props[0]), Get(r2, props[0]));
      if c != 0 then c else CmpRows(r1, r2, props[1..])
  }

  lemma {:induction false} CmpRowsProperties(r1: Row, r2: Row, r3: Row, props: seq<string>)
    ensures CmpRows(r1, r2, props) == -CmpRows(r2, r1, props)
    ensures CmpRows(r1, r2, props) <= 0 && CmpRows(r2, r3, props) <= 0 ==> CmpRows(r1, r3, props) <= 0
    ensures CmpRows(r1, r2, props) == 0 && CmpRows(r2, r3, props) == 0 ==> CmpRows(r1, r3, props) == 0
  {
    if props != [] {
      var p := props[0];
      CmpValueProperties(Get(r1, p), Get(r2, p), Get(r3, p));
      CmpValueProperties(Get(r2, p), Get(r1, p), Get(r3, p));
      CmpValueProperties(Get(r1, p), Get(r3, p), Get(r2, p));
      CmpValueProperties(Get(r2, p), Get(r3, p), Get(r1, p));
      CmpRowsProperties(r1, r2, r3, props[1..]);
    }
  }

  /** The comparison a query's ordering applies: descending compares the other way round. */
  function CmpFor(a: Entity, b: Entity, props: seq<string>, dir: Sorting): int {
    if dir == Ascending then CmpRows(a.values, b.values, props) else CmpRows(b.values, a.values, props)
  }

  predicate InOrder(a: Entity, b: Entity, props: seq<string>, dir: Sorting) {
    CmpFor(a, b, props, dir) <= 0
  }

  /** Each entity is in order with every entity after it. */
  predicate Sorted(es: seq<Entity>, props: seq<string>, dir: Sorting) {
    forall i, j :: 0 <= i < j < |es| ==> InOrder(es[i], es[j], props, dir)
  }

  /** The ordering is total: of two entities, one is in order before the other. */
  lemma InOrderTotal(a: Entity, b: Entity, props: seq<string>, dir: Sorting)
    ensures !InOrder(a, b, props, dir) ==> CmpFor(b, a, props, dir) < 0
  {
    CmpRowsProperties(a.values, b.values, b.values, props);
  }

  lemma InOrderTransitive(a: Entity, b: Entity, c: Entity, props: seq<string>, dir: Sorting)
    requires InOrder(a, b, props, dir) && InOrder(b, c, props, dir)
    ensures InOrder(a, c, props, dir)
  {
    CmpRowsProperties(a.values, b.values, c.values, props);
    CmpRowsProperties(c.values, b.values, a.values, props);
  }

  /** Placing `e` after every entity in order before it and before the rest keeps a sequence sorted. */
  lemma InsertionKeepsSorted(es: seq<Entity>, e: Entity, i: nat, props: seq<string>, dir: Sorting)
    requires Sorted(es, props, dir) && i <= |es|
    requires forall j :: 0 <= j < i ==> InOrder(es[j], e, props, dir)
    requires forall j :: i <= j < |es| ==> InOrder(e, es[j], props, dir)
    ensures Sorted(es[..i] + [e] + es[i..], props, dir)
  {
    var r := es[..i] + [e] + es[i..];
    forall a, b | 0 <= a < b < |r|
      ensures InOrder(r[a], r[b], props, dir)
    {
      if b < i {
        assert r[a] == es[a] && r[b] == es[b];
      } else if b == i {
        assert r[a] == es[a] && r[b] == e;
      } else if a < i {
        assert r[a] == es[a] && r[b] == es[b - 1];
        InOrderTransitive(es[a], e, es[b - 1], props, dir);
      } else if a == i {
        assert r[a] == e && r[b] == es[b - 1];
      } else {
        assert r[a] == es[a - 1] && r[b] == es[b - 1];
      }
    }
  }

  /** An entity not in order before `es[i]` is in order before every later entity of a sorted sequence. */
  lemma BeforeRest(es: seq<Entity>, e: Entity, i: nat, props: seq<string>, dir: Sorting)
    requires Sorted(es, props, dir) && i < |es|
    requires !InOrder(es[i], e, props, dir)
    ensures forall j :: i <= j < |es| ==> InOrder(e, es[j], props, dir)
  {
    forall j | i <= j < |es|
      ensures InOrder(e, es[j], props, dir)
    {
      InOrderTotal(es[i], e, props, dir);
      if j > i {
        InOrderTransitive(e, es[i], es[j], props, dir);
      }
    }
  }

  /** Inserts `e` into a sorted sequence, after every entity that is in order before it. */
  method InsertSorted(es: seq<Entity>, e: Entity, props: seq<string>, dir: Sorting) returns (r: seq<Entity>)
    requires Sorted(es, props, dir)
    ensures Sorted(r, props, dir)
    ensures multiset(r) == multiset(es) + multiset{e}
    ensures exists i :: 0 <= i <= |es| && r == es[..i] + [e] + es[i..]
  {
    var i := 0;
    while i < |es| && InOrder(es[i], e, props, dir)
      invariant 0 <= i <= |es|
      invariant forall j :: 0 <= j < i ==> InOrder(es[j], e, props, dir)
    {
      i := i + 1;
    }
    if i < |es| {
      BeforeRest(es, e, i, props, dir);
    }
    InsertionKeepsSorted(es, e, i, props, dir);
    r := es[..i] + [e] + es[i..];
    assert es == es[..i] + es[i..];
  }
}
