/**
 * Network field converters (the `SBNetworkFieldConverting` protocol and its
 * Integer, String and ISO 8601 date converters): they coerce a value of the
 * network (JSON) representation into a local field value and back.
 * `fromNetwork` may yield nothing; `toNetwork` always yields a value.
 */
module DataObjectTypes {
  import opened Wrappers
  import opened Fields

  /** The JSON values a converter can be handed (integral numbers, strings, null). */
  datatype NetValue = NetNumber(number: int) | NetString(text: string) | NetNull

  datatype Converter = IntegerConverter | StringConverter | ISO8601DateConverter

  /** The local field class a converter produces. */
  function TargetKind(c: Converter): FieldKind {
    match c
    case IntegerConverter => IntegerKind
    case StringConverter => StringKind
    case ISO8601DateConverter => DateKind
  }

  /** The converter for fields of class `k`. */
  function ConverterFor(k: FieldKind): (c: Converter)
    ensures TargetKind(c) == k
  {
    match k
    case IntegerKind => IntegerConverter
    case StringKind => StringConverter
    case DateKind => ISO8601DateConverter
  }

  /**
   * `-fromNetwork:`. The integer converter takes a number in the range of
   * `NSInteger` or decimal text; the string converter takes a string; the date
   * converter takes ISO 8601 text. Any other value gives nothing.
   */
  function FromNetwork(c: Converter, v: NetValue): (r: Option<Field>)
    ensures r.Some? ==> KindOf(r.value) == TargetKind(c)
    ensures v.NetNull? ==> r.None?
    ensures c == StringConverter ==> (r.Some? <==> v.NetString?)
    ensures c == ISO8601DateConverter ==>
      (r.Some? <==> v.NetString? && ParseISO8601(v.text).Some?) &&
      (r.Some? ==> r.value.dateValue == ParseISO8601(v.text).value)
  {
    match (c, v)
    case (IntegerConverter, NetNumber(n)) =>
      if -0x8000_0000_0000_0000 <= n < 0x8000_0000_0000_0000 then Some(SBInteger(n)) else None
    case (IntegerConverter, NetString(s)) => FromDatabase(IntegerKind, s)
    case (StringConverter, NetString(s)) => Some(SBString(s))
    case (ISO8601DateConverter, NetString(s)) =>
      (match ParseISO8601(s)
       case Some(d) => Some(SBDate(d))
       case None => None)
    case _ => None
  }

  /** `-toNetwork:` of a field of the converter's own class. */
  function ToNetwork(c: Converter, f: Field): (v: NetValue)
    requires KindOf(f) == TargetKind(c)
    ensures !v.NetNull?
  {
    match f
    case SBInteger(n) => NetNumber(n)
    case SBString(s) => NetString(s)
    case SBDate(d) => NetString(FormatISO8601(d))
  }

  /** Sending a field to the network and reading it back gives the same field. */
  lemma NetworkRoundTrip(c: Converter, f: Field)
    requires KindOf(f) == TargetKind(c)
    ensures FromNetwork(c, ToNetwork(c, f)) == Some(f)
  {
    if f.SBDate? {
      ISO8601RoundTrip(f.dateValue);
    }
  }

  lemma NetworkRoundTripAll()
    ensures forall f :: FromNetwork(ConverterFor(KindOf(f)), ToNetwork(ConverterFor(KindOf(f)), f)) == Some(f)
  {
    forall f
      ensures FromNetwork(ConverterFor(KindOf(f)), ToNetwork(ConverterFor(KindOf(f)), f)) == Some(f)
    {
      NetworkRoundTrip(ConverterFor(KindOf(f)), f);
    }
  }

  /** A network value the date converter accepts is the canonical text of the date it yields. */
  lemma DateFromNetworkCanonical(v: NetValue)
    requires FromNetwork(ISO8601DateConverter, v).Some?
    ensures ToNetwork(ISO8601DateConverter, FromNetwork(ISO8601DateConverter, v).value) == v
  {
    ISO8601Canonical(v.text, ParseISO8601(v.text).value);
  }
}
