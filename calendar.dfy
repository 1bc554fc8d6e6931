/** Proleptic Gregorian dates in the range Python's `datetime` supports
    (years 1 to 9999): day arithmetic that fails where `timedelta` arithmetic
    overflows, and the `%Y-%m-%d` text form. */
module Calendar {
  import opened Text
  import opened Records

  datatype Date = Date(year: int, month: int, day: int)

  predicate IsLeapYear(y: int) {
    y % 4 == 0 && (y % 100 != 0 || y % 400 == 0)
  }

  function DaysInMonth(y: int, m: int): (n: int)
    requires 1 <= m <= 12
    ensures 28 <= n <= 31
  {
    if m == 2 then (if IsLeapYear(y) then 29 else 28)
    else if m == 4 || m == 6 || m == 9 || m == 11 then 30
    else 31
  }

  predicate Valid(d: Date) {
    1 <= d.year <= 9999 && 1 <= d.month <= 12 && 1 <= d.day <= DaysInMonth(d.year, d.month)
  }

  const MinDate := Date(1, 1, 1)
  const MaxDate := Date(9999, 12, 31)

  /** calendar order */
  predicate Before(a: Date, b: Date) {
    a.year < b.year
    || (a.year == b.year && a.month < b.month)
    || (a.year == b.year && a.month == b.month && a.day < b.day)
  }

  predicate AtOrBefore(a: Date, b: Date) { a == b || Before(a, b) }

  /** the following day; None past the last representable date */
  function NextDay(d: Date): (r: Option<Date>)
    requires Valid(d)
    ensures r.None? <==> d == MaxDate
    ensures r.Some? ==> Valid(r.value) && Before(d, r.value)
  {
    if d.day < DaysInMonth(d.year, d.month) then Some(Date(d.year, d.month, d.day + 1))
    else if d.month < 12 then Some(Date(d.year, d.month + 1, 1))
    else if d.year < 9999 then Some(Date(d.year + 1, 1, 1))
    else None
  }

  /** the preceding day; None before the first representable date */
  function PrevDay(d: Date): (r: Option<Date>)
    requires Valid(d)
    ensures r.None? <==> d == MinDate
    ensures r.Some? ==> Valid(r.value) && Before(r.value, d)
  {
    if d.day > 1 then Some(Date(d.year, d.month, d.day - 1))
    else if d.month > 1 then Some(Date(d.year, d.month - 1, DaysInMonth(d.year, d.month - 1)))
    else if d.year > 1 then Some(Date(d.year - 1, 12, 31))
    else None
  }

  /** Stepping back and forth a day are inverse. */
  lemma NextPrev(d: Date)
    requires Valid(d)
    ensures NextDay(d).Some? ==> PrevDay(NextDay(d).value) == Some(d)
    ensures PrevDay(d).Some? ==> NextDay(PrevDay(d).value) == Some(d)
  {
  }

  /** `d + timedelta(days=n)`; None when it would overflow */
  function AddDays(d: Date, n: nat): (r: Option<Date>)
    requires Valid(d)
    ensures r.Some? ==> Valid(r.value)
    decreases n
  {
    if n == 0 then Some(d)
    else match NextDay(d)
      case None => None
      case Some(e) => AddDays(e, n - 1)
  }

  /** `d - timedelta(days=n)`; None when it would overflow */
  function SubDays(d: Date, n: nat): (r: Option<Date>)
    requires Valid(d)
    ensures r.Some? ==> Valid(r.value)
    decreases n
  {
    if n == 0 then Some(d)
    else match PrevDay(d)
      case None => None
      case Some(e) => SubDays(e, n - 1)
  }

  lemma AtOrBeforeTransitive(a: Date, b: Date, c: Date)
    requires AtOrBefore(a, b) && AtOrBefore(b, c)
    ensures AtOrBefore(a, c)
  {
  }

  /** Adding days never moves backwards, and moves forwards unless nothing is added. */
  lemma {:induction false} AddDaysForward(d: Date, n: nat)
    requires Valid(d) && AddDays(d, n).Some?
    ensures AtOrBefore(d, AddDays(d, n).value)
    ensures AddDays(d, n).value == d <==> n == 0
    decreases n
  {
    if n > 0 {
      var e := NextDay(d).value;
      AddDaysForward(e, n - 1);
      AtOrBeforeTransitive(d, e, AddDays(e, n - 1).value);
    }
  }

  /** Subtracting days never moves forwards, and moves backwards unless nothing is subtracted. */
  lemma {:induction false} SubDaysBackward(d: Date, n: nat)
    requires Valid(d) && SubDays(d, n).Some?
    ensures AtOrBefore(SubDays(d, n).value, d)
    ensures SubDays(d, n).value == d <==> n == 0
    decreases n
  {
    if n > 0 {
      var e := PrevDay(d).value;
      SubDaysBackward(e, n - 1);
      AtOrBeforeTransitive(SubDays(e, n - 1).value, e, d);
    }
  }

  /** Adding back what was subtracted returns to the start. */
  lemma {:induction false} AddAfterSub(d: Date, n: nat)
    requires Valid(d) && SubDays(d, n).Some?
    ensures AddDays(SubDays(d, n).value, n) == Some(d)
    decreases n
  {
    if n > 0 {
      var e := PrevDay(d).value;
      NextPrev(d);
      AddAfterSub(e, n - 1);
      AddDaysSplit(SubDays(e, n - 1).value, n - 1, 1);
    }
  }

  /** Adding a + b days is adding a days, then b days. */
  lemma {:induction false} AddDaysSplit(d: Date, a: nat, b: nat)
    requires Valid(d) && AddDays(d, a).Some?
    ensures AddDays(d, a + b) == AddDays(AddDays(d, a).value, b)
    decreases a
  {
    if a > 0 {
      AddDaysSplit(NextDay(d).value, a - 1, b);
    }
  }

  /** Adding c = a + b days is adding a days, then b days. */
  lemma AddDaysSplitTo(d: Date, a: nat, b: nat, c: nat)
    requires Valid(d) && AddDays(d, a).Some? && c == a + b
    ensures AddDays(d, c) == AddDays(AddDays(d, a).value, b)
  {
    AddDaysSplit(d, a, b);
  }

  /** `strftime("%Y-%m-%d")` */
  function FormatDate(d: Date): string
    requires Valid(d)
  {
    ZeroPad(d.year, 4) + "-" + ZeroPad(d.month, 2) + "-" + ZeroPad(d.day, 2)
  }

  predicate IsDigits(s: string, from: int, to: int)
    requires 0 <= from <= to <= |s|
  {
    AllDigits(s[from..to])
  }

  /** a strict `strptime(s, "%Y-%m-%d")`: four, two and two digits separated by '-',
      naming a real date */
  function ParseDate(s: string): (r: Option<Date>)
    ensures r.Some? ==> Valid(r.value) && |s| == 10
  {
    if |s| == 10 && s[4] == '-' && s[7] == '-' && IsDigits(s, 0, 4) && IsDigits(s, 5, 7) && IsDigits(s, 8, 10) then
      var d := Date(DecimalValue(s[0..4]), DecimalValue(s[5..7]), DecimalValue(s[8..10]));
      if Valid(d) then Some(d) else None
    else None
  }

  lemma FormatDateShape(d: Date)
    requires Valid(d)
    ensures |ZeroPad(d.year, 4)| == 4 && |ZeroPad(d.month, 2)| == 2 && |ZeroPad(d.day, 2)| == 2
    ensures |FormatDate(d)| == 10
  {
    ZeroPadLength(d.year, 4);
    ZeroPadLength(d.month, 2);
    ZeroPadLength(d.day, 2);
  }

  /** Parsing reads back every date that formatting writes. */
  lemma ParseFormat(d: Date)
    requires Valid(d)
    ensures ParseDate(FormatDate(d)) == Some(d)
  {
    FormatDateShape(d);
    var y, m, dd := ZeroPad(d.year, 4), ZeroPad(d.month, 2), ZeroPad(d.day, 2);
    var s := FormatDate(d);
    assert s[0..4] == y && s[5..7] == m && s[8..10] == dd;
    DecimalValueOfZeroPad(d.year, 4);
    DecimalValueOfZeroPad(d.month, 2);
    DecimalValueOfZeroPad(d.day, 2);
  }
}
