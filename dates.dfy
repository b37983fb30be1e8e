/** `java.time.LocalDate` as used by bookings: a calendar date with no time, written
    and read in the ISO 8601 calendar-date form `YYYY-MM-DD`, and compared with `isBefore`. */
module Dates {
  import opened Wrappers
  import opened Text

  datatype Date = Date(year: int, month: int, day: int)

  /** Proleptic Gregorian leap years, as `IsoChronology.isLeapYear`. */
  predicate IsLeapYear(y: int) {
    y % 4 == 0 && (y % 100 != 0 || y % 400 == 0)
  }

  function DaysInMonth(y: int, m: int): (n: int)
    requires 1 <= m <= 12
    ensures 28 <= n <= 31
    ensures n == 29 <==> m == 2 && IsLeapYear(y)
  {
    if m == 2 then (if IsLeapYear(y) then 29 else 28)
    else if m == 4 || m == 6 || m == 9 || m == 11 then 30
    else 31
  }

  /** A real calendar date whose year has the four-digit ISO form. */
  predicate IsValid(d: Date) {
    0 <= d.year <= 9999 && 1 <= d.month <= 12 && 1 <= d.day <= DaysInMonth(d.year, d.month)
  }

  type LocalDate = d: Date | IsValid(d) witness Date(1970, 1, 1)

  /** `LocalDate.isBefore`: year, then month, then day. */
  predicate IsBefore(a: Date, b: Date) {
    || a.year < b.year
    || (a.year == b.year && a.month < b.month)
    || (a.year == b.year && a.month == b.month && a.day < b.day)
  }

  /** Exactly one of "a before b", "a equals b", "b before a" holds. */
  lemma IsBeforeTrichotomy(a: Date, b: Date)
    ensures IsBefore(a, b) || a == b || IsBefore(b, a)
    ensures !(IsBefore(a, b) && IsBefore(b, a))
    ensures !IsBefore(a, a)
  {
  }

  /** "Before" is transitive, so together with trichotomy it is a strict total order. */
  lemma IsBeforeTransitive(a: Date, b: Date, c: Date)
    requires IsBefore(a, b) && IsBefore(b, c)
    ensures IsBefore(a, c)
  {
  }

  // ---------------------------------------------------------------------------
  // ISO text form
  // ---------------------------------------------------------------------------

  function Pow10(w: nat): (p: nat)
    ensures p >= 1
  {
    if w == 0 then 1 else 10 * Pow10(w - 1)
  }

  /** `n` written in exactly `width` digits, zero-padded on the left. */
  function PadDigits(n: nat, width: nat): (s: string)
    requires n < Pow10(width)
    ensures |s| == width && AllDigits(s) && DigitsValue(s) == n
  {
    if width == 0 then ""
    else
      var t := PadDigits(n / 10, width - 1);
      var s := t + [DigitChar(n % 10)];
      assert s[..|s| - 1] == t;
      s
  }

  /** `LocalDate.toString` for a four-digit year: `YYYY-MM-DD`. */
  function FormatDate(d: LocalDate): (s: string)
    ensures |s| == 10
  {
    PadDigits(d.year, 4) + "-" + PadDigits(d.month, 2) + "-" + PadDigits(d.day, 2)
  }

  /** `LocalDate.parse` (ISO_LOCAL_DATE, strict resolver) for four-digit years: exactly
      four digits, `-`, two digits, `-`, two digits, naming a day that exists. */
  function ParseDate(s: string): (r: Option<LocalDate>)
    ensures r.Some? ==> |s| == 10
  {
    if |s| == 10 && s[4] == '-' && s[7] == '-'
       && AllDigits(s[..4]) && AllDigits(s[5..7]) && AllDigits(s[8..])
    then
      var d := Date(DigitsValue(s[..4]), DigitsValue(s[5..7]), DigitsValue(s[8..]));
      if IsValid(d) then Some(d) else None
    else None
  }

  /** What `toString` writes, `parse` reads back. */
  lemma ParseFormat(d: LocalDate)
    ensures ParseDate(FormatDate(d)) == Some(d)
  {
    var s := FormatDate(d);
    assert s[..4] == PadDigits(d.year, 4);
    assert s[5..7] == PadDigits(d.month, 2);
    assert s[8..] == PadDigits(d.day, 2);
  }

  lemma {:induction false} DigitsValueBound(s: string)
    requires AllDigits(s)
    ensures DigitsValue(s) < Pow10(|s|)
  {
    if |s| > 0 {
      DigitsValueBound(s[..|s| - 1]);
    }
  }

  lemma {:induction false} PadDigitsOfValue(s: string)
    requires AllDigits(s)
    ensures DigitsValue(s) < Pow10(|s|) && PadDigits(DigitsValue(s), |s|) == s
  {
    DigitsValueBound(s);
    if |s| > 0 {
      var t := s[..|s| - 1];
      PadDigitsOfValue(t);
      assert DigitsValue(s) / 10 == DigitsValue(t);
      assert DigitsValue(s) % 10 == DigitValue(s[|s| - 1]);
      assert s == t + [s[|s| - 1]];
    }
  }

  /** The only text `parse` accepts for a date is the one `toString` writes for it. */
  lemma FormatParse(s: string)
    requires ParseDate(s).Some?
    ensures FormatDate(ParseDate(s).value) == s
  {
    PadDigitsOfValue(s[..4]);
    PadDigitsOfValue(s[5..7]);
    PadDigitsOfValue(s[8..]);
    assert s == s[..4] + "-" + s[5..7] + "-" + s[8..];
  }

  /** A written date is a single trimmed field. */
  lemma FormatDateIsField(d: LocalDate)
    ensures IsTrimmed(FormatDate(d)) && SEP !in FormatDate(d)
  {
    var s := FormatDate(d);
    assert s[..4] == PadDigits(d.year, 4);
    assert s[8..] == PadDigits(d.day, 2);
    assert IsDigit(s[0]) && IsDigit(s[9]);
    assert forall i | 0 <= i < 10 :: s[i] != SEP by {
      assert forall i | 0 <= i < 4 :: s[i] == s[..4][i];
      assert forall i | 5 <= i < 7 :: s[i] == s[5..7][i - 5];
      assert forall i | 8 <= i < 10 :: s[i] == s[8..][i - 8];
    }
  }
}
