/**
 * `FormatContainer`, the debugging pretty-printer for nested strings,
 * arrays and dictionaries.
 *
 * Objects carry an identity (`id`): the source decides whether to write a
 * separator by comparing an element's pointer with the container's last
 * object, not by its position.
 */
module ContainerFormat {

  /** The Foundation objects the printer distinguishes; `Other` is any other class of object. */
  datatype Obj =
    | Str(id: nat, text: string)
    | Arr(id: nat, elems: seq<Obj>)
    | Dict(id: nat, entries: seq<Entry>)
    | Other(id: nat)

  /** A dictionary entry, listed in the order `allKeys` returns the keys. */
  datatype Entry = Entry(key: Obj, value: Obj)

  /** The identity of `[array lastObject]`; -1 stands for `nil`, which is no object's identity. */
  function LastId(es: seq<Obj>): int {
    if es == [] then -1 else es[|es| - 1].id
  }

  function LastKeyId(en: seq<Entry>): int {
    if en == [] then -1 else en[|en| - 1].key.id
  }

  /** A dictionary's keys are distinct objects. */
  predicate DistinctKeys(en: seq<Entry>) {
    forall i, j :: 0 <= i < j < |en| ==> en[i].key.id != en[j].key.id
  }

  // ---------------------------------------------------------------------
  // The printer as written
  // ---------------------------------------------------------------------

  /** The text `FormatContainer` builds for `o`. */
  function Render(o: Obj): string
    decreases o
  {
    match o
    case Str(_, t) => t
    case Arr(_, es) => "[" + ArrayBody(es, |es|, LastId(es)) + "]"
    case Dict(_, en) => "{" + DictBody(en, |en|, LastKeyId(en)) + "}"
    case Other(_) => ""
  }

  /** The first `n` array elements, each followed by ", " unless it is the object `last`. */
  function ArrayBody(es: seq<Obj>, n: nat, last: int): string
    requires n <= |es|
    decreases es, n
  {
    if n == 0 then ""
    else ArrayBody(es, n - 1, last) + Render(es[n - 1]) + (if es[n - 1].id != last then ", " else "")
  }

  /** The first `n` entries as `key=value`, each followed by ", " unless its key is the object `last`. */
  function DictBody(en: seq<Entry>, n: nat, last: int): string
    requires n <= |en|
    decreases en, n
  {
    if n == 0 then ""
    else
      var e := en[n - 1];
      assert en decreases to e;
      assert e decreases to e.key;
      DictBody(en, n - 1, last) + Render(e.key) + "=" + Render(e.value) +
      (if e.key.id != last then ", " else "")
  }

  /** `FormatContainer(obj)`: appends into a string inside loops over the elements and the keys. */
  method FormatContainer(o: Obj) returns (s: string)
    ensures s == Render(o)
    ensures o.Str? ==> s == o.text
    ensures o.Other? ==> s == ""
    ensures o.Arr? ==> |s| >= 2 && s[0] == '[' && s[|s| - 1] == ']'
    ensures o.Dict? ==> |s| >= 2 && s[0] == '{' && s[|s| - 1] == '}'
    decreases o
  {
    match o
    case Str(_, t) =>
      s := t;
    case Arr(_, es) =>
      var body := FormatElements(es);
      s := "[" + body + "]";
    case Dict(_, en) =>
      var body := FormatEntries(en);
      s := "{" + body + "}";
    case Other(_) =>
      s := "";
  }

  /** The loop over an array's elements. */
  method FormatElements(es: seq<Obj>) returns (s: string)
    ensures s == ArrayBody(es, |es|, LastId(es))
    decreases es
  {
    var last := LastId(es);
    s := "";
    var i := 0;
    while i < |es|
      invariant 0 <= i <= |es|
      invariant s == ArrayBody(es, i, last)
    {
      var sub := FormatContainer(es[i]);
      s := s + sub;
      if es[i].id != last {
        s := s + ", ";
      }
      i := i + 1;
    }
  }

  /** The loop over a dictionary's keys, in `allKeys` order. */
  method FormatEntries(en: seq<Entry>) returns (s: string)
    ensures s == DictBody(en, |en|, LastKeyId(en))
    decreases en
  {
    var last := LastKeyId(en);
    s := "";
    var i := 0;
    while i < |en|
      invariant 0 <= i <= |en|
      invariant s == DictBody(en, i, last)
    {
      assert en decreases to en[i];
      var k := FormatContainer(en[i].key);
      var v := FormatContainer(en[i].value);
      s := s + k + "=" + v;
      if en[i].key.id != last {
        s := s + ", ";
      }
      i := i + 1;
    }
  }

  // ---------------------------------------------------------------------
  // A reference definition: parts separated by a separator
  // ---------------------------------------------------------------------

  function Join(parts: seq<string>, sep: string): string {
    if |parts| == 0 then ""
    else if |parts| == 1 then parts[0]
    else parts[0] + sep + Join(parts[1..], sep)
  }

  lemma {:induction false} JoinSnoc(parts: seq<string>, x: string, sep: string)
    requires parts != []
    ensures Join(parts + [x], sep) == Join(parts, sep) + sep + x
  {
    if |parts| == 1 {
      assert (parts + [x])[1..] == [x];
    } else {
      assert (parts + [x])[1..] == parts[1..] + [x];
      JoinSnoc(parts[1..], x, sep);
    }
  }

  function ElementTexts(es: seq<Obj>): (r: seq<string>)
    ensures |r| == |es| && forall i :: 0 <= i < |es| ==> r[i] == Render(es[i])
  {
    seq(|es|, i requires 0 <= i < |es| => Render(es[i]))
  }

  function EntryTexts(en: seq<Entry>): (r: seq<string>)
    ensures |r| == |en| && forall i :: 0 <= i < |en| ==> r[i] == Render(en[i].key) + "=" + Render(en[i].value)
  {
    seq(|en|, i requires 0 <= i < |en| => Render(en[i].key) + "=" + Render(en[i].value))
  }

  /** While `last` has not been met among the first `n` elements, every one of them got its separator. */
  lemma {:induction false} ArrayBodyJoin(es: seq<Obj>, n: nat, last: int)
    requires 0 < n <= |es|
    requires forall i :: 0 <= i < n - 1 ==> es[i].id != last
    ensures ArrayBody(es, n, last) ==
      Join(ElementTexts(es)[..n], ", ") + (if es[n - 1].id != last then ", " else "")
  {
    var parts := ElementTexts(es);
    if n == 1 {
      assert ArrayBody(es, 0, last) == "";
      assert parts[..1] == [Render(es[0])];
    } else {
      ArrayBodyJoin(es, n - 1, last);
      assert parts[..n] == parts[..n - 1] + [Render(es[n - 1])];
      JoinSnoc(parts[..n - 1], Render(es[n - 1]), ", ");
    }
  }

  lemma {:induction false} DictBodyJoin(en: seq<Entry>, n: nat, last: int)
    requires 0 < n <= |en|
    requires forall i :: 0 <= i < n - 1 ==> en[i].key.id != last
    ensures DictBody(en, n, last) ==
      Join(EntryTexts(en)[..n], ", ") + (if en[n - 1].key.id != last then ", " else "")
  {
    var parts := EntryTexts(en);
    if n == 1 {
      assert DictBody(en, 0, last) == "";
      assert parts[..1] == [Render(en[0].key) + "=" + Render(en[0].value)];
    } else {
      DictBodyJoin(en, n - 1, last);
      var prev := DictBody(en, n - 1, last);
      var e := en[n - 1];
      var tail := if e.key.id != last then ", " else "";
      assert prev == Join(parts[..n - 1], ", ") + ", ";
      assert DictBody(en, n, last) == prev + Render(e.key) + "=" + Render(e.value) + tail;
      assert DictBody(en, n, last) == prev + parts[n - 1] + tail;
      assert parts[..n] == parts[..n - 1] + [parts[n - 1]];
      JoinSnoc(parts[..n - 1], parts[n - 1], ", ");
    }
  }

  /**
   * A dictionary renders as "{", its `key=value` pairs in `allKeys` order with
   * ", " between consecutive pairs (n - 1 separators for n keys), then "}".
   */
  lemma DictionaryRendering(id: nat, en: seq<Entry>)
    requires DistinctKeys(en)
    ensures Render(Dict(id, en)) == "{" + Join(EntryTexts(en), ", ") + "}"
  {
    if en != [] {
      DictBodyJoin(en, |en|, LastKeyId(en));
      assert EntryTexts(en)[..|en|] == EntryTexts(en);
    }
  }

  /**
   * An array whose last object occurs only at the end renders as "[", its
   * elements' renderings separated by ", ", then "]".
   */
  lemma ArrayRendering(id: nat, es: seq<Obj>)
    requires forall i :: 0 <= i < |es| - 1 ==> es[i].id != LastId(es)
    ensures Render(Arr(id, es)) == "[" + Join(ElementTexts(es), ", ") + "]"
  {
    if es != [] {
      ArrayBodyJoin(es, |es|, LastId(es));
      assert ElementTexts(es)[..|es|] == ElementTexts(es);
    }
  }

  /**
   * Because the test is identity, an earlier occurrence of the array's last
   * object gets no separator: `@[@"a", @"a"]` (two uses of one string literal)
   * prints as "[aa]".
   */
  lemma RepeatedLastObjectLosesSeparator()
    ensures Render(Arr(0, [Str(1, "a"), Str(1, "a")])) == "[aa]"
    ensures RenderFixed(Arr(0, [Str(1, "a"), Str(1, "a")])) == "[a, a]"
  {
    var es := [Str(1, "a"), Str(1, "a")];
    assert ArrayBody(es, 1, 1) == "a";
    assert ArrayBody(es, 2, 1) == "aa";
    assert ArrayBodyFixed(es, 1) == "a, ";
    assert ArrayBodyFixed(es, 2) == "a, a";
  }

  // ---------------------------------------------------------------------
  // The printer as intended: the separator goes between elements by position
  // ---------------------------------------------------------------------

  function RenderFixed(o: Obj): string
    decreases o
  {
    match o
    case Str(_, t) => t
    case Arr(_, es) => "[" + ArrayBodyFixed(es, |es|) + "]"
    case Dict(_, en) => "{" + DictBodyFixed(en, |en|) + "}"
    case Other(_) => ""
  }

  function ArrayBodyFixed(es: seq<Obj>, n: nat): string
    requires n <= |es|
    decreases es, n
  {
    if n == 0 then ""
    else ArrayBodyFixed(es, n - 1) + RenderFixed(es[n - 1]) + (if n < |es| then ", " else "")
  }

  function DictBodyFixed(en: seq<Entry>, n: nat): string
    requires n <= |en|
    decreases en, n
  {
    if n == 0 then ""
    else
      var e := en[n - 1];
      assert en decreases to e;
      assert e decreases to e.key;
      DictBodyFixed(en, n - 1) + RenderFixed(e.key) + "=" + RenderFixed(e.value) +
      (if n < |en| then ", " else "")
  }

  function FixedElementTexts(es: seq<Obj>): (r: seq<string>)
    ensures |r| == |es| && forall i :: 0 <= i < |es| ==> r[i] == RenderFixed(es[i])
  {
    seq(|es|, i requires 0 <= i < |es| => RenderFixed(es[i]))
  }

  lemma {:induction false} ArrayBodyFixedJoin(es: seq<Obj>, n: nat)
    requires 0 < n <= |es|
    ensures ArrayBodyFixed(es, n) == Join(FixedElementTexts(es)[..n], ", ") + (if n < |es| then ", " else "")
  {
    var parts := FixedElementTexts(es);
    if n == 1 {
      assert ArrayBodyFixed(es, 0) == "";
      assert parts[..1] == [RenderFixed(es[0])];
    } else {
      ArrayBodyFixedJoin(es, n - 1);
      assert parts[..n] == parts[..n - 1] + [RenderFixed(es[n - 1])];
      JoinSnoc(parts[..n - 1], RenderFixed(es[n - 1]), ", ");
    }
  }

  /** Every array, repeated objects or not, renders with a separator between each two elements. */
  lemma FixedArrayRendering(id: nat, es: seq<Obj>)
    ensures RenderFixed(Arr(id, es)) == "[" + Join(FixedElementTexts(es), ", ") + "]"
  {
    if es != [] {
      ArrayBodyFixedJoin(es, |es|);
      assert FixedElementTexts(es)[..|es|] == FixedElementTexts(es);
    }
  }

  /** No container inside `o` holds its last object (or last key) anywhere but at its end. */
  predicate LastObjectsAtEnd(o: Obj)
    decreases o
  {
    match o
    case Str(_, _) => true
    case Other(_) => true
    case Arr(_, es) =>
      (forall i :: 0 <= i < |es| - 1 ==> es[i].id != LastId(es)) &&
      (forall i :: 0 <= i < |es| ==> LastObjectsAtEnd(es[i]))
    case Dict(_, en) =>
      (forall i :: 0 <= i < |en| - 1 ==> en[i].key.id != LastKeyId(en)) &&
      (forall i :: 0 <= i < |en| ==> LastObjectsAtEnd(en[i].key) && LastObjectsAtEnd(en[i].value))
  }

  /** Where no last object repeats, the printer as written and the intended one agree. */
  lemma {:induction false} AsWrittenAgreesWithFixed(o: Obj)
    requires LastObjectsAtEnd(o)
    ensures Render(o) == RenderFixed(o)
    decreases o
  {
    match o
    case Str(_, _) =>
    case Other(_) =>
    case Arr(_, es) => ArrayBodiesAgree(es, |es|);
    case Dict(_, en) => DictBodiesAgree(en, |en|);
  }

  lemma {:induction false} ArrayBodiesAgree(es: seq<Obj>, n: nat)
    requires n <= |es|
    requires forall i :: 0 <= i < |es| - 1 ==> es[i].id != LastId(es)
    requires forall i :: 0 <= i < |es| ==> LastObjectsAtEnd(es[i])
    ensures ArrayBody(es, n, LastId(es)) == ArrayBodyFixed(es, n)
    decreases es, n
  {
    if n > 0 {
      ArrayBodiesAgree(es, n - 1);
      AsWrittenAgreesWithFixed(es[n - 1]);
    }
  }

  lemma {:induction false} DictBodiesAgree(en: seq<Entry>, n: nat)
    requires n <= |en|
    requires forall i :: 0 <= i < |en| - 1 ==> en[i].key.id != LastKeyId(en)
    requires forall i :: 0 <= i < |en| ==> LastObjectsAtEnd(en[i].key) && LastObjectsAtEnd(en[i].value)
    ensures DictBody(en, n, LastKeyId(en)) == DictBodyFixed(en, n)
    decreases en, n
  {
    if n > 0 {
      DictBodiesAgree(en, n - 1);
      assert en decreases to en[n - 1];
      AsWrittenAgreesWithFixed(en[n - 1].key);
      AsWrittenAgreesWithFixed(en[n - 1].value);
    }
  }
}
