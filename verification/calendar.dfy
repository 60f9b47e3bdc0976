/**
 * Dates as the workbook code sees them: day ordinals for the business-day
 * arithmetic of `date_by_adding_business_days`, and calendar dates printed
 * with `strftime("%Y-%m-%d")` when they become lookup keys; and the
 * controller's step back by one year, which needs real month lengths.
 */
module Calendar {
  import opened Wrappers
  import opened PyText

  // ---------------------------------------------------------------- business days

  /**
   * Python's `weekday()` of the date whose `toordinal()` is `d`: ordinal 1 is
   * Monday 0001-01-01, Monday is 0 and Sunday is 6.
   */
  function Weekday(d: int): (w: int)
    ensures 0 <= w < 7
  {
    (d + 6) % 7
  }

  predicate IsBusinessDay(d: int) {
    Weekday(d) < 5
  }

  /** Number of business days in the half-open interval (from, to]. */
  function BusinessDaysBetween(from: int, to: int): nat
    decreases to - from
  {
    if to <= from then 0
    else BusinessDaysBetween(from, to - 1) + (if IsBusinessDay(to) then 1 else 0)
  }

  /** The day after a Sunday is a Monday; otherwise the weekday advances by one. */
  lemma WeekdayNext(d: int)
    ensures Weekday(d + 1) == if Weekday(d) == 6 then 0 else Weekday(d) + 1
  {
  }

  /** Distance from `d` to the next business day after it (1 to 3). */
  function GapToBusinessDay(d: int): nat {
    if Weekday(d + 1) == 5 then 3 else if Weekday(d + 1) == 6 then 2 else 1
  }

  /**
   * `date_by_adding_business_days`: step forward one day at a time, counting
   * only Monday to Friday, until `addDays` business days have been counted.
   * The result is the earliest business day with exactly `addDays` business
   * days after `fromDate`; a non-positive `addDays` returns `fromDate`.
   */
  method AddBusinessDays(fromDate: int, addDays: int) returns (r: int)
    ensures addDays <= 0 ==> r == fromDate
    ensures addDays > 0 ==> r > fromDate && IsBusinessDay(r)
    ensures addDays > 0 ==> BusinessDaysBetween(fromDate, r) == addDays
    ensures addDays > 0 ==> forall d :: fromDate <= d < r ==> BusinessDaysBetween(fromDate, d) < addDays
  {
    var toAdd := addDays;
    var current := fromDate;
    ghost var last := fromDate;
    while toAdd > 0
      invariant fromDate <= last <= current
      invariant addDays > 0 ==> 0 <= toAdd
      invariant addDays <= 0 ==> current == fromDate
      invariant BusinessDaysBetween(fromDate, current) == addDays - toAdd
      invariant forall d :: fromDate <= d <= current ==> BusinessDaysBetween(fromDate, d) <= addDays - toAdd
      invariant last > fromDate ==> IsBusinessDay(last)
      invariant BusinessDaysBetween(fromDate, last) == addDays - toAdd
      invariant forall d :: fromDate <= d < last ==> BusinessDaysBetween(fromDate, d) < addDays - toAdd
      invariant toAdd <= 0 ==> current == last
      decreases toAdd, GapToBusinessDay(current)
    {
      WeekdayNext(current);
      WeekdayNext(current + 1);
      current := current + 1;
      if Weekday(current) >= 5 {
        continue;
      }
      toAdd := toAdd - 1;
      last := current;
    }
    r := current;
  }

  // ---------------------------------------------------------------- printed dates

  /**
   * The printed fields of a date cell: year, month and day as `strftime`
   * writes them. Nothing ties them to a day ordinal or to the length of a
   * month; printing a date and comparing the printed text is all the code
   * does with the dates it reads from a sheet.
   */
  datatype DateFields = DateFields(year: nat, month: nat, day: nat)

  /** The fields fit the widths `%Y`, `%m` and `%d` print them in. */
  predicate FieldsInRange(d: DateFields) {
    1 <= d.year <= 9999 && 1 <= d.month <= 12 && 1 <= d.day <= 31
  }

  /**
   * `strftime("%Y-%m-%d")`. Years are printed with four digits, the month and
   * the day with two.
   */
  function FormatYmd(d: DateFields): (t: string)
    ensures FieldsInRange(d) ==> |t| == 10 && t[4] == '-' && t[7] == '-'
    ensures FieldsInRange(d) ==> AllDigits(t[..4]) && DigitsValue(t[..4]) == d.year
    ensures FieldsInRange(d) ==> AllDigits(t[5..7]) && DigitsValue(t[5..7]) == d.month
    ensures FieldsInRange(d) ==> AllDigits(t[8..]) && DigitsValue(t[8..]) == d.day
  {
    var y := ZeroPad(d.year, 4);
    var m := ZeroPad(d.month, 2);
    var dd := ZeroPad(d.day, 2);
    if FieldsInRange(d) then
      ZeroPadFits(d.year, 4);
      ZeroPadFits(d.month, 2);
      ZeroPadFits(d.day, 2);
      var t := y + "-" + m + "-" + dd;
      assert t[..4] == y && t[5..7] == m && t[8..] == dd;
      t
    else
      y + "-" + m + "-" + dd
  }

  /** Different valid dates never print the same key. */
  lemma FormatYmdInjective(a: DateFields, b: DateFields)
    requires FieldsInRange(a) && FieldsInRange(b)
    requires FormatYmd(a) == FormatYmd(b)
    ensures a == b
  {
  }

  // ---------------------------------------------------------------- calendar dates

  /** The Gregorian leap-year rule of Python's `calendar.isleap`. */
  predicate IsLeap(y: int) {
    y % 4 == 0 && (y % 100 != 0 || y % 400 == 0)
  }

  function DaysInMonth(y: int, m: int): int
    requires 1 <= m <= 12
  {
    if m == 2 then (if IsLeap(y) then 29 else 28)
    else if m == 4 || m == 6 || m == 9 || m == 11 then 30
    else 31
  }

  /** Fields `datetime` accepts: a year from 1 to 9999 and a day its month has. */
  predicate IsDate(d: DateFields) {
    FieldsInRange(d) && d.day <= DaysInMonth(d.year, d.month)
  }

  /**
   * `d.replace(year=d.year - 1)`: the same month and day one year earlier,
   * or None where `replace` raises `ValueError` because that date does not
   * exist.
   */
  function YearBefore(d: DateFields): (r: Option<DateFields>)
    ensures r.Some? ==> IsDate(r.value) && r.value.year + 1 == d.year && r.value.month == d.month && r.value.day == d.day
    ensures r.None? ==> d.year == 0 || !IsDate(DateFields(d.year - 1, d.month, d.day))
  {
    if d.year >= 1 && IsDate(DateFields(d.year - 1, d.month, d.day))
    then Some(DateFields(d.year - 1, d.month, d.day))
    else None
  }

  /**
   * On a real date, stepping back a year fails only on 29 February, whose
   * year is a leap year and so is the year before it not, and in year 1.
   */
  lemma YearBeforeRaises(d: DateFields)
    requires IsDate(d)
    ensures YearBefore(d).None? <==> d.year == 1 || (d.month == 2 && d.day == 29)
  {
    if d.month == 2 && d.day == 29 && d.year > 1 {
      assert IsLeap(d.year);
      assert !IsLeap(d.year - 1);
    }
  }

  /** The number of decimal digits of `n` is at most `w` when `n < 10^w`. */
  lemma {:induction false} NatTextLength(n: nat, w: nat)
    requires 1 <= w && n < Pow10(w)
    ensures |NatText(n)| <= w
  {
    if n >= 10 {
      assert w >= 2;
      assert n / 10 < Pow10(w - 1);
      NatTextLength(n / 10, w - 1);
    }
  }

  /** Leading zeros do not change the value of a digit string. */
  lemma {:induction false} LeadingZerosValue(k: nat, t: string)
    requires AllDigits(t)
    ensures AllDigits(seq(k, _ => '0') + t)
    ensures DigitsValue(seq(k, _ => '0') + t) == DigitsValue(t)
    decreases |t|
  {
    var z: string := seq(k, _ => '0');
    if |t| == 0 {
      assert z + t == z;
      ZerosValue(k);
    } else {
      var u := z + t;
      assert u[..|u| - 1] == z + t[..|t| - 1];
      LeadingZerosValue(k, t[..|t| - 1]);
    }
  }

  lemma {:induction false} ZerosValue(k: nat)
    ensures AllDigits(seq(k, _ => '0'))
    ensures DigitsValue(seq(k, _ => '0')) == 0
  {
    if k > 0 {
      var z: string := seq(k, _ => '0');
      assert z[..k - 1] == seq(k - 1, _ => '0');
      ZerosValue(k - 1);
    }
  }

  /** A small enough number pads to exactly `w` digits that read back as the number. */
  lemma ZeroPadFits(n: nat, w: nat)
    requires 1 <= w && n < Pow10(w)
    ensures |ZeroPad(n, w)| == w
    ensures DigitsValue(ZeroPad(n, w)) == n
  {
    NatTextLength(n, w);
    NatTextValue(n);
    var digits := NatText(n);
    if |digits| < w {
      LeadingZerosValue(w - |digits|, digits);
    }
  }
}
