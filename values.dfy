/**
 * The scalar values a template is filled with, and their textual forms:
 * `Integer.toString` for integers and the pattern `dd.MM.yyyy` for dates
 * (ExcelGeneratorImpl.java:37-38, ExcelData.java:19, WordData.java:17).
 */
module Values {
  import opened Outcomes

  /** A Java `Integer`. */
  type Int32 = i: int | -0x8000_0000 <= i < 0x8000_0000

  type Day = d: int | 1 <= d <= 31 witness 1
  type Month = m: int | 1 <= m <= 12 witness 1

  /**
   * A `java.time.LocalDate`. The year is the proleptic year: 0 is 1 BC, -1 is
   * 2 BC, and so on.
   */
  datatype Date = Date(day: Day, month: Month, year: int)

  /**
   * A `Double` or `BigDecimal`. The model never computes with it: it only
   * carries the number's own printed form, which is what `toString` yields.
   */
  datatype Decimal = Decimal(printed: string)

  /** The closed set of values a key can map to; `NullValue` is a Java null. */
  datatype Value =
    | NullValue
    | TextValue(text: string)
    | IntegerValue(int32: Int32)
    | DateValue(date: Date)
    | DecimalValue(decimal: Decimal)

  // ---------------------------------------------------------------------------
  // Decimal digits

  function DigitChar(d: int): (c: char)
    requires 0 <= d < 10
    ensures '0' <= c <= '9' && c as int - '0' as int == d
  {
    ('0' as int + d) as char
  }

  predicate IsDigit(c: char) {
    '0' <= c <= '9'
  }

  predicate AllDigits(s: string) {
    forall k :: 0 <= k < |s| ==> IsDigit(s[k])
  }

  /** The number a string of decimal digits denotes (most significant first). */
  function DigitsValue(s: string): nat
    requires AllDigits(s)
  {
    if s == [] then 0
    else 10 * DigitsValue(s[..|s| - 1]) + (s[|s| - 1] as int - '0' as int)
  }

  /** The decimal form of a natural number, without leading zeros. */
  function NatToString(n: nat): (s: string)
    ensures |s| > 0 && AllDigits(s)
  {
    if n < 10 then [DigitChar(n)] else NatToString(n / 10) + [DigitChar(n % 10)]
  }

  /** `Integer.toString` / `Long.toString`: a minus sign, then the digits of the magnitude. */
  function IntToString(i: int): string {
    if i < 0 then "-" + NatToString(-i) else NatToString(i)
  }

  /** Reads back what `IntToString` writes. */
  function ParseInt(s: string): Option<int> {
    if |s| > 1 && s[0] == '-' && AllDigits(s[1..]) then Some(-(DigitsValue(s[1..]) as int))
    else if |s| > 0 && AllDigits(s) then Some(DigitsValue(s))
    else None
  }

  lemma {:induction false} NatToStringValue(n: nat)
    ensures DigitsValue(NatToString(n)) == n
  {
    if n >= 10 {
      var s := NatToString(n);
      assert s[..|s| - 1] == NatToString(n / 10);
      NatToStringValue(n / 10);
    }
  }

  /** `IntToString` is injective: parsing its output gives the integer back. */
  lemma IntToStringRoundTrip(i: int)
    ensures ParseInt(IntToString(i)) == Some(i)
  {
    if i < 0 {
      var s := IntToString(i);
      assert s[1..] == NatToString(-i);
      NatToStringValue(-i);
    } else {
      NatToStringValue(i);
    }
  }

  // ---------------------------------------------------------------------------
  // The pattern dd.MM.yyyy

  function TwoDigits(n: int): (s: string)
    requires 0 <= n < 100
    ensures |s| == 2 && AllDigits(s)
  {
    [DigitChar(n / 10), DigitChar(n % 10)]
  }

  function FourDigits(n: int): (s: string)
    requires 0 <= n < 10000
    ensures |s| == 4 && AllDigits(s)
  {
    [DigitChar(n / 1000), DigitChar(n / 100 % 10), DigitChar(n / 10 % 10), DigitChar(n % 10)]
  }

  /**
   * The year of era that `yyyy` prints: the proleptic year in the common era,
   * `1 - year` before it (1 BC is year 0).
   */
  function YearOfEra(year: int): (e: nat)
    ensures e >= 1
    ensures year >= 1 ==> e == year
  {
    if year >= 1 then year else 1 - year
  }

  /** The date in the common era that prints as `d` does. */
  function CommonEra(d: Date): (c: Date)
    ensures c.day == d.day && c.month == d.month && c.year >= 1
    ensures d.year >= 1 ==> c == d
  {
    Date(d.day, d.month, YearOfEra(d.year))
  }

  /**
   * `yyyy` with the sign style `EXCEEDS_PAD`: at least four digits,
   * zero-padded, and a `+` in front when the year of era needs more than four.
   */
  function YearText(e: nat): string {
    if e < 10000 then FourDigits(e) else "+" + NatToString(e)
  }

  /** `DateTimeFormatter.ofPattern("dd.MM.yyyy").format(d)`. */
  function FormatDate(d: Date): string {
    TwoDigits(d.day) + "." + TwoDigits(d.month) + "." + YearText(YearOfEra(d.year))
  }

  /** Reads back what `YearText` writes for a year of era (at least 1). */
  function ParseYear(t: string): Option<int> {
    if |t| == 4 && AllDigits(t) && DigitsValue(t) >= 1 then Some(DigitsValue(t))
    else if |t| > 1 && t[0] == '+' && AllDigits(t[1..]) && DigitsValue(t[1..]) >= 10000 then Some(DigitsValue(t[1..]))
    else None
  }

  /** Reads a `dd.MM.yyyy` string back into a common-era date, if it denotes one. */
  function ParseDate(s: string): Option<Date> {
    if |s| >= 10 && s[2] == '.' && s[5] == '.' && AllDigits(s[0..2]) && AllDigits(s[3..5])
    then
      var day, month, year := DigitsValue(s[0..2]), DigitsValue(s[3..5]), ParseYear(s[6..]);
      if 1 <= day <= 31 && 1 <= month <= 12 && year.Some?
      then Some(Date(day, month, year.value))
      else None
    else None
  }

  lemma TwoDigitsValue(n: int)
    requires 0 <= n < 100
    ensures DigitsValue(TwoDigits(n)) == n
  {
    var s := TwoDigits(n);
    assert s[..1][..0] == [];
    assert s[..1] == [DigitChar(n / 10)];
    assert DigitsValue(s[..1]) == n / 10;
  }

  lemma FourDigitsValue(n: int)
    requires 0 <= n < 10000
    ensures DigitsValue(FourDigits(n)) == n
  {
    var s := FourDigits(n);
    assert s[..3][..2][..1][..0] == [];
    assert s[..3][..2][..1] == [s[0]];
    assert s[..3][..2] == [s[0], s[1]];
    assert s[..3] == [s[0], s[1], s[2]];
    assert DigitsValue(s[..3][..2][..1]) == n / 1000;
    assert DigitsValue(s[..3][..2]) == n / 100;
    assert DigitsValue(s[..3]) == n / 10;
  }

  /** A number of at least five digits is written with at least five characters. */
  lemma NatToStringLong(n: nat)
    requires n >= 10000
    ensures |NatToString(n)| >= 5
  {
    var a := n / 10;
    var b := a / 10;
    var c := b / 10;
    assert c >= 10;
    assert |NatToString(c)| >= 2;
    assert |NatToString(b)| >= 3;
    assert |NatToString(a)| >= 4;
  }

  /** Every year of era is read back from its text. */
  lemma YearTextRoundTrip(e: nat)
    requires e >= 1
    ensures ParseYear(YearText(e)) == Some(e)
  {
    if e < 10000 {
      FourDigitsValue(e);
    } else {
      var t := YearText(e);
      assert t[1..] == NatToString(e);
      NatToStringValue(e);
    }
  }

  /**
   * A formatted date has dots at positions 2 and 5 and is ten characters long
   * exactly when its year of era has at most four digits; a longer year of era
   * makes it longer.
   */
  lemma FormatDateShape(d: Date)
    ensures FormatDate(d)[2] == '.' && FormatDate(d)[5] == '.'
    ensures |FormatDate(d)| >= 10
    ensures |FormatDate(d)| == 10 <==> YearOfEra(d.year) < 10000
  {
    var e := YearOfEra(d.year);
    if e >= 10000 {
      NatToStringLong(e);
    }
  }

  /**
   * Formatting a date keeps the day, the month and the year of era:
   * `ParseDate` recovers the common-era date that prints alike, which is the
   * date itself from year 1 on.
   */
  lemma FormatDateRoundTrip(d: Date)
    ensures ParseDate(FormatDate(d)) == Some(CommonEra(d))
  {
    var s := FormatDate(d);
    var e := YearOfEra(d.year);
    assert s[0..2] == TwoDigits(d.day);
    assert s[3..5] == TwoDigits(d.month);
    assert s[6..] == YearText(e);
    TwoDigitsValue(d.day);
    TwoDigitsValue(d.month);
    YearTextRoundTrip(e);
    FormatDateShape(d);
  }

  /**
   * Two dates print alike exactly when they agree on day, month and year of
   * era; in particular distinct common-era dates never print alike.
   */
  lemma FormatDateInjective(d1: Date, d2: Date)
    ensures FormatDate(d1) == FormatDate(d2) <==> CommonEra(d1) == CommonEra(d2)
  {
    FormatDateRoundTrip(d1);
    FormatDateRoundTrip(d2);
  }

  /** The era is not printed: 1 BC (year 0) and AD 1 both print as `01.01.0001`. */
  lemma EraIsNotPrinted()
    ensures FormatDate(Date(1, 1, 0)) == FormatDate(Date(1, 1, 1)) == "01.01.0001"
  {
  }
}
