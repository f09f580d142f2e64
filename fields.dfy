/**
 * Field values and their database codec (the `SBField` protocol and the
 * `SBInteger`, `SBString` and `SBDate` field types).
 *
 * A field value is stored in the database as text (`toDatabase`) and read
 * back with `fromDatabase`, which may fail on text that is not an encoding of
 * a value of the field's kind.
 */
module Fields {
  import opened Wrappers

  /** `NSInteger`, taken as 64 bits wide (its width on 64-bit targets; 32-bit targets are not modelled). */
  type NSInteger = i: int | -0x8000_0000_0000_0000 <= i < 0x8000_0000_0000_0000

  /** A calendar date and time of day in UTC, to the second. */
  datatype DateTime = DateTime(year: int, month: int, day: int, hour: int, minute: int, second: int)

  predicate IsLeapYear(y: int) {
    y % 4 == 0 && (y % 100 != 0 || y % 400 == 0)
  }

  function DaysInMonth(y: int, m: int): int {
    if m == 2 then (if IsLeapYear(y) then 29 else 28)
    else if m == 4 || m == 6 || m == 9 || m == 11 then 30
    else 31
  }

  /** The instants an `SBDate` can hold in this model: four-digit years, no leap seconds. */
  predicate ValidDate(d: DateTime) {
    && 0 <= d.year <= 9999
    && 1 <= d.month <= 12
    && 1 <= d.day <= DaysInMonth(d.year, d.month)
    && 0 <= d.hour < 24
    && 0 <= d.minute < 60
    && 0 <= d.second < 60
  }

  type Date = d: DateTime | ValidDate(d) witness DateTime(1970, 1, 1, 0, 0, 0)

  /** The three field types whose codecs are modelled. */
  datatype Field =
    | SBInteger(integerValue: NSInteger)
    | SBString(stringValue: string)
    | SBDate(dateValue: Date)

  /** The class of a field value; `databaseType` is a property of the class. */
  datatype FieldKind = IntegerKind | StringKind | DateKind

  function KindOf(f: Field): FieldKind {
    match f
    case SBInteger(_) => IntegerKind
    case SBString(_) => StringKind
    case SBDate(_) => DateKind
  }

  /** `initWithInteger:`; `integerValue` gives the integer back. */
  function InitWithInteger(i: NSInteger): (f: Field)
    ensures KindOf(f) == IntegerKind && f.integerValue == i
  {
    SBInteger(i)
  }

  /** `initWithDate:` wraps a date without changing it. */
  function InitWithDate(d: Date): (f: Field)
    ensures KindOf(f) == DateKind && f.dateValue == d
  {
    SBDate(d)
  }

  /** `+databaseType`: the column type of a field class, the same for every instance. */
  function DatabaseType(k: FieldKind): (t: string)
    ensures t != []
    ensures k == IntegerKind <==> t == "INTEGER"
    ensures k == StringKind <==> t == "TEXT"
  {
    match k
    case IntegerKind => "INTEGER"
    case StringKind => "TEXT"
    case DateKind => "DATETIME"
  }

  // ---------------------------------------------------------------------
  // Decimal digits
  // ---------------------------------------------------------------------

  predicate IsDigit(c: char) {
    '0' <= c <= '9'
  }

  predicate AllDigits(s: string) {
    forall i :: 0 <= i < |s| ==> IsDigit(s[i])
  }

  function DigitChar(d: int): (c: char)
    requires 0 <= d < 10
    ensures IsDigit(c)
  {
    ('0' as int + d) as char
  }

  function DigitValue(c: char): (d: int)
    requires IsDigit(c)
    ensures 0 <= d < 10 && DigitChar(d) == c
  {
    c as int - '0' as int
  }

  /** The value of a string of decimal digits, most significant first. */
  function DecimalValue(s: string): nat
    requires AllDigits(s)
  {
    if s == [] then 0 else DecimalValue(s[..|s| - 1]) * 10 + DigitValue(s[|s| - 1])
  }

  /** The shortest decimal digits of `n`. */
  function NatToDecimal(n: nat): (s: string)
    ensures s != [] && AllDigits(s)
  {
    if n < 10 then [DigitChar(n)] else NatToDecimal(n / 10) + [DigitChar(n % 10)]
  }

  lemma {:induction false} NatToDecimalValue(n: nat)
    ensures DecimalValue(NatToDecimal(n)) == n
  {
    var s := NatToDecimal(n);
    if n >= 10 {
      NatToDecimalValue(n / 10);
      assert s[..|s| - 1] == NatToDecimal(n / 10);
    }
  }

  function Pow10(w: nat): (p: nat)
    ensures p >= 1
  {
    if w == 0 then 1 else 10 * Pow10(w - 1)
  }

  /** `n` written with exactly `w` digits, zero-padded on the left. */
  function Pad(n: nat, w: nat): (s: string)
    ensures |s| == w && AllDigits(s)
  {
    if w == 0 then [] else Pad(n / 10, w - 1) + [DigitChar(n % 10)]
  }

  lemma {:induction false} PadValue(n: nat, w: nat)
    requires n < Pow10(w)
    ensures DecimalValue(Pad(n, w)) == n
  {
    if w > 0 {
      var s := Pad(n, w);
      assert s[..|s| - 1] == Pad(n / 10, w - 1);
      PadValue(n / 10, w - 1);
    }
  }

  lemma {:induction false} ValuePad(s: string)
    requires AllDigits(s)
    ensures DecimalValue(s) < Pow10(|s|)
    ensures Pad(DecimalValue(s), |s|) == s
  {
    if s != [] {
      var init := s[..|s| - 1];
      ValuePad(init);
      var v := DecimalValue(s);
      assert v / 10 == DecimalValue(init) && v % 10 == DigitValue(s[|s| - 1]);
      assert s == init + [s[|s| - 1]];
    }
  }

  // ---------------------------------------------------------------------
  // SBInteger text
  // ---------------------------------------------------------------------

  /** Decimal text with a leading `-` for negative numbers. */
  function IntegerText(n: int): string {
    if n < 0 then "-" + NatToDecimal(-n) else NatToDecimal(n)
  }

  /** Reads decimal text with an optional leading `-`; fails on anything else. */
  function ParseInteger(s: string): (r: Option<int>)
    ensures r.Some? ==> s != [] && AllDigits(if s[0] == '-' then s[1..] else s)
  {
    if |s| >= 2 && s[0] == '-' && AllDigits(s[1..]) then Some(0 - DecimalValue(s[1..]) as int)
    else if s != [] && s[0] != '-' && AllDigits(s) then Some(DecimalValue(s))
    else None
  }

  lemma IntegerTextRoundTrip(n: int)
    ensures ParseInteger(IntegerText(n)) == Some(n)
  {
    if n < 0 {
      NatToDecimalValue(-n);
      assert IntegerText(n)[1..] == NatToDecimal(-n);
    } else {
      NatToDecimalValue(n);
    }
  }

  // ---------------------------------------------------------------------
  // ISO 8601 text of a date: YYYY-MM-DDThh:mm:ssZ
  // (complete representation, extended format, of a date and time of day
  // in UTC, section 4.3.2 of ISO 8601:2004)
  // ---------------------------------------------------------------------

  function FormatISO8601(d: Date): (s: string)
    ensures |s| == 20
    ensures WellShapedISO8601(s)
  {
    Pad(d.year, 4) + "-" + Pad(d.month, 2) + "-" + Pad(d.day, 2) + "T" +
    Pad(d.hour, 2) + ":" + Pad(d.minute, 2) + ":" + Pad(d.second, 2) + "Z"
  }

  predicate WellShapedISO8601(s: string) {
    && |s| == 20
    && s[4] == '-' && s[7] == '-' && s[10] == 'T'
    && s[13] == ':' && s[16] == ':' && s[19] == 'Z'
    && AllDigits(s[0..4]) && AllDigits(s[5..7]) && AllDigits(s[8..10])
    && AllDigits(s[11..13]) && AllDigits(s[14..16]) && AllDigits(s[17..19])
  }

  /** Reads the text `FormatISO8601` writes; absent on malformed text or an impossible date. */
  function ParseISO8601(s: string): (r: Option<Date>)
    ensures r.Some? ==> WellShapedISO8601(s)
  {
    if !WellShapedISO8601(s) then None
    else
      var dt := DateTime(DecimalValue(s[0..4]), DecimalValue(s[5..7]), DecimalValue(s[8..10]),
                         DecimalValue(s[11..13]), DecimalValue(s[14..16]), DecimalValue(s[17..19]));
      if ValidDate(dt) then Some(dt) else None
  }

  lemma FormatISO8601Slices(d: Date)
    ensures var s := FormatISO8601(d);
      && s[0..4] == Pad(d.year, 4) && s[4] == '-'
      && s[5..7] == Pad(d.month, 2) && s[7] == '-'
      && s[8..10] == Pad(d.day, 2) && s[10] == 'T'
      && s[11..13] == Pad(d.hour, 2) && s[13] == ':'
      && s[14..16] == Pad(d.minute, 2) && s[16] == ':'
      && s[17..19] == Pad(d.second, 2) && s[19] == 'Z'
  {
  }

  /** Parsing what was formatted gives the date back. */
  lemma ISO8601RoundTrip(d: Date)
    ensures ParseISO8601(FormatISO8601(d)) == Some(d)
  {
    FormatISO8601Slices(d);
    PadValue(d.year, 4);
    PadValue(d.month, 2);
    PadValue(d.day, 2);
    PadValue(d.hour, 2);
    PadValue(d.minute, 2);
    PadValue(d.second, 2);
  }

  /** Two twenty-character texts that agree field by field and separator by separator are equal. */
  lemma SameISO8601Fields(f: string, s: string)
    requires |f| == 20 && |s| == 20
    requires f[0..4] == s[0..4] && f[5..7] == s[5..7] && f[8..10] == s[8..10]
    requires f[11..13] == s[11..13] && f[14..16] == s[14..16] && f[17..19] == s[17..19]
    requires f[4] == s[4] && f[7] == s[7] && f[10] == s[10] && f[13] == s[13] && f[16] == s[16] && f[19] == s[19]
    ensures f == s
  {
    forall i | 0 <= i < 20
      ensures f[i] == s[i]
    {
      if i < 4 { assert f[0..4][i] == s[0..4][i]; }
      else if 5 <= i < 7 { assert f[5..7][i - 5] == s[5..7][i - 5]; }
      else if 8 <= i < 10 { assert f[8..10][i - 8] == s[8..10][i - 8]; }
      else if 11 <= i < 13 { assert f[11..13][i - 11] == s[11..13][i - 11]; }
      else if 14 <= i < 16 { assert f[14..16][i - 14] == s[14..16][i - 14]; }
      else if 17 <= i < 19 { assert f[17..19][i - 17] == s[17..19][i - 17]; }
    }
  }

  /** The parser accepts only the formatter's own text: each date has exactly one text. */
  lemma ISO8601Canonical(s: string, d: Date)
    requires ParseISO8601(s) == Some(d)
    ensures FormatISO8601(d) == s
  {
    assert WellShapedISO8601(s);
    ValuePad(s[0..4]);
    ValuePad(s[5..7]);
    ValuePad(s[8..10]);
    ValuePad(s[11..13]);
    ValuePad(s[14..16]);
    ValuePad(s[17..19]);
    FormatISO8601Slices(d);
    SameISO8601Fields(FormatISO8601(d), s);
  }

  // ---------------------------------------------------------------------
  // The SBField codec
  // ---------------------------------------------------------------------

  /** `-toDatabase`: the text stored for a field value. */
  function ToDatabase(f: Field): (s: string)
    ensures f.SBString? ==> s == f.stringValue
    ensures f.SBInteger? ==> ParseInteger(s) == Some(f.integerValue as int)
    ensures f.SBDate? ==> ParseISO8601(s) == Some(f.dateValue)
  {
    match f
    case SBInteger(n) => IntegerTextRoundTrip(n); IntegerText(n)
    case SBString(s) => s
    case SBDate(d) => ISO8601RoundTrip(d); FormatISO8601(d)
  }

  /** `+fromDatabase:` of the field class `k`; absent when `s` is not the text of a value of that class. */
  function FromDatabase(k: FieldKind, s: string): (r: Option<Field>)
    ensures r.Some? ==> KindOf(r.value) == k
    ensures k == StringKind ==> r == Some(SBString(s))
  {
    match k
    case IntegerKind =>
      (match ParseInteger(s)
       case Some(n) => if -0x8000_0000_0000_0000 <= n < 0x8000_0000_0000_0000 then Some(SBInteger(n)) else None
       case None => None)
    case StringKind => Some(SBString(s))
    case DateKind =>
      (match ParseISO8601(s)
       case Some(d) => Some(SBDate(d))
       case None => None)
  }

  /** Reading back what was stored gives the same field value, for every field type. */
  lemma DatabaseRoundTrip(f: Field)
    ensures FromDatabase(KindOf(f), ToDatabase(f)) == Some(f)
  {
    match f
    case SBInteger(n) => IntegerTextRoundTrip(n);
    case SBString(_) =>
    case SBDate(d) => ISO8601RoundTrip(d);
  }

  lemma DatabaseRoundTripAll()
    ensures forall f :: FromDatabase(KindOf(f), ToDatabase(f)) == Some(f)
  {
    forall f
      ensures FromDatabase(KindOf(f), ToDatabase(f)) == Some(f)
    {
      DatabaseRoundTrip(f);
    }
  }

  /** Values of one class with the same stored text are equal (the codec is injective per class). */
  lemma ToDatabaseInjective(f: Field, g: Field)
    requires KindOf(f) == KindOf(g) && ToDatabase(f) == ToDatabase(g)
    ensures f == g
  {
    DatabaseRoundTrip(f);
    DatabaseRoundTrip(g);
  }
}
