/** Python's `datetime.date` as the core uses it: proleptic Gregorian
    calendar dates in years 1 to 9999, compared as (year, month, day) tuples,
    moved forward with `+ timedelta(days=n)` and printed with `isoformat()`. */
module Calendar {
  import opened Wrappers
  import Text

  datatype Date = Date(year: int, month: int, day: int)

  const MinYear := 1
  const MaxYear := 9999

  predicate IsLeapYear(y: int) {
    y % 4 == 0 && (y % 100 != 0 || y % 400 == 0)
  }

  function DaysInMonth(y: int, m: int): (n: int)
    requires 1 <= m <= 12
    ensures 28 <= n <= 31
  {
    if m == 2 then (if IsLeapYear(y) then 29 else 28)
    else [31, 28, 31, 30, 31, 30, 31, 31, 30, 31, 30, 31][m - 1]
  }

  function DaysInYear(y: int): int {
    if IsLeapYear(y) then 366 else 365
  }

  /** The dates `datetime.date` can hold; constructing any other raises
      ValueError. */
  predicate Valid(d: Date) {
    MinYear <= d.year <= MaxYear && 1 <= d.month <= 12 && 1 <= d.day <= DaysInMonth(d.year, d.month)
  }

  /** `a < b` on dates: tuple order on (year, month, day). */
  predicate Before(a: Date, b: Date) {
    a.year < b.year || (a.year == b.year && (a.month < b.month || (a.month == b.month && a.day < b.day)))
  }

  /** `a <= b` on dates. */
  predicate NotAfter(a: Date, b: Date) {
    Before(a, b) || a == b
  }

  // ---------------------------------------------------------------------
  // Day numbers (`date.toordinal()`: 0001-01-01 is day 1)
  // ---------------------------------------------------------------------

  function DaysBeforeYear(y: int): int
    requires y >= 1
  {
    var n := y - 1;
    n * 365 + n / 4 - n / 100 + n / 400
  }

  function DaysBeforeMonth(y: int, m: int): int
    requires 1 <= m <= 12
  {
    [0, 31, 59, 90, 120, 151, 181, 212, 243, 273, 304, 334][m - 1]
    + (if m > 2 && IsLeapYear(y) then 1 else 0)
  }

  function Ordinal(d: Date): int
    requires Valid(d)
  {
    DaysBeforeYear(d.year) + DaysBeforeMonth(d.year, d.month) + d.day
  }

  /** The day number of 9999-12-31, the last date Python can represent. */
  const MaxOrdinal := 3652059

  lemma YearStep(y: int)
    requires y >= 1
    ensures DaysBeforeYear(y + 1) == DaysBeforeYear(y) + DaysInYear(y)
  {
    DivisionStep(y, 4);
    DivisionStep(y, 100);
    DivisionStep(y, 400);
    CenturiesAreMultiples(y);
    var leap := (if y % 4 == 0 then 1 else 0) - (if y % 100 == 0 then 1 else 0) + (if y % 400 == 0 then 1 else 0);
    assert DaysBeforeYear(y + 1) == DaysBeforeYear(y) + 365 + leap;
    assert DaysInYear(y) == 365 + leap;
  }

  /** A multiple of 400 is a multiple of 100, and a multiple of 100 a
      multiple of 4. */
  lemma CenturiesAreMultiples(y: int)
    ensures y % 400 == 0 ==> y % 100 == 0
    ensures y % 100 == 0 ==> y % 4 == 0
  {
    if y % 400 == 0 {
      var q := y / 400;
      assert y == 400 * q;
      assert y / 100 == 4 * q;
    }
    if y % 100 == 0 {
      var q := y / 100;
      assert y == 100 * q;
      assert y / 4 == 25 * q;
    }
  }

  /** Counting the multiples of `m` up to `y` against those up to `y - 1`. */
  lemma DivisionStep(y: int, m: int)
    requires m == 4 || m == 100 || m == 400
    ensures y / m == (y - 1) / m + (if y % m == 0 then 1 else 0)
  {
  }

  lemma MonthStep(y: int, m: int)
    requires 1 <= m <= 12
    ensures DaysBeforeMonth(y, m) + DaysInMonth(y, m)
            == if m < 12 then DaysBeforeMonth(y, m + 1) else DaysInYear(y)
  {
  }

  lemma {:induction false} YearsIncrease(y1: int, y2: int)
    requires 1 <= y1 < y2
    ensures DaysBeforeYear(y1) + DaysInYear(y1) <= DaysBeforeYear(y2)
    decreases y2 - y1
  {
    YearStep(y1);
    if y1 + 1 < y2 {
      YearsIncrease(y1 + 1, y2);
    }
  }

  lemma {:induction false} MonthsIncrease(y: int, m1: int, m2: int)
    requires 1 <= m1 < m2 <= 12
    ensures DaysBeforeMonth(y, m1) + DaysInMonth(y, m1) <= DaysBeforeMonth(y, m2)
    decreases m2 - m1
  {
    MonthStep(y, m1);
    if m1 + 1 < m2 {
      MonthsIncrease(y, m1 + 1, m2);
    }
  }

  /** A date's day number stays inside its year. */
  lemma OrdinalWithinYear(d: Date)
    requires Valid(d)
    ensures DaysBeforeYear(d.year) < Ordinal(d) <= DaysBeforeYear(d.year) + DaysInYear(d.year)
  {
    MonthStep(d.year, d.month);
    if d.month < 12 {
      MonthsIncrease(d.year, d.month, 12);
      MonthStep(d.year, 12);
    }
  }

  /** Python's tuple order on dates is the order of their day numbers. */
  lemma BeforeMatchesOrdinal(a: Date, b: Date)
    requires Valid(a) && Valid(b)
    ensures Before(a, b) <==> Ordinal(a) < Ordinal(b)
  {
    OrdinalWithinYear(a);
    OrdinalWithinYear(b);
    if a.year < b.year {
      YearsIncrease(a.year, b.year);
    } else if b.year < a.year {
      YearsIncrease(b.year, a.year);
    } else if a.month < b.month {
      MonthsIncrease(a.year, a.month, b.month);
    } else if b.month < a.month {
      MonthsIncrease(a.year, b.month, a.month);
    }
  }

  /** Every representable date has a day number between 1 and MaxOrdinal. */
  lemma OrdinalRange(d: Date)
    requires Valid(d)
    ensures 1 <= Ordinal(d) <= MaxOrdinal
  {
    OrdinalWithinYear(d);
    if d.year < MaxYear {
      YearsIncrease(d.year, MaxYear);
    }
    YearStep(MaxYear);
  }

  // ---------------------------------------------------------------------
  // Adding days
  // ---------------------------------------------------------------------

  /** The calendar day after `d`, rolling over month and year ends; past
      9999-12-31 it yields year 10000, which no valid date has. */
  function Successor(d: Date): (r: Date)
    requires 1 <= d.month <= 12
    ensures 1 <= r.month <= 12 && r.year >= d.year
    ensures Before(d, r)
    ensures Valid(d) && r.year <= MaxYear ==> Valid(r)
  {
    if d.day < DaysInMonth(d.year, d.month) then Date(d.year, d.month, d.day + 1)
    else if d.month < 12 then Date(d.year, d.month + 1, 1)
    else Date(d.year + 1, 1, 1)
  }

  /** No valid date lies strictly between a date and its successor. */
  lemma SuccessorIsNext(d: Date, x: Date)
    requires Valid(d) && Valid(x) && Before(d, x)
    ensures NotAfter(Successor(d), x)
  {
  }

  lemma SuccessorOrdinal(d: Date)
    requires Valid(d) && Successor(d).year <= MaxYear
    ensures Ordinal(Successor(d)) == Ordinal(d) + 1
  {
    MonthStep(d.year, d.month);
    if d.month == 12 && d.day == 31 {
      YearStep(d.year);
    }
  }

  lemma SuccessorOverflow(d: Date)
    requires Valid(d)
    ensures Successor(d).year > MaxYear <==> d == Date(MaxYear, 12, 31)
  {
  }

  /** `n` steps of Successor. */
  function Forward(d: Date, n: nat): (r: Date)
    requires 1 <= d.month <= 12
    ensures 1 <= r.month <= 12 && r.year >= d.year
    decreases n
  {
    if n == 0 then d else Forward(Successor(d), n - 1)
  }

  lemma {:induction false} ForwardOrdinal(d: Date, n: nat)
    requires Valid(d)
    ensures Ordinal(d) + n <= MaxOrdinal ==> Valid(Forward(d, n)) && Ordinal(Forward(d, n)) == Ordinal(d) + n
    ensures Ordinal(d) + n > MaxOrdinal ==> Forward(d, n).year > MaxYear
    decreases n
  {
    if n > 0 {
      var s := Successor(d);
      assert Forward(d, n) == Forward(s, n - 1);
      OrdinalRange(d);
      if s.year <= MaxYear {
        SuccessorOrdinal(d);
        ForwardOrdinal(s, n - 1);
      } else {
        SuccessorOverflow(d);
        LastOrdinal();
        assert Forward(s, n - 1).year >= s.year;
      }
    }
  }

  /** 9999-12-31 is day MaxOrdinal. */
  lemma LastOrdinal()
    ensures Valid(Date(MaxYear, 12, 31)) && Ordinal(Date(MaxYear, 12, 31)) == MaxOrdinal
  {
    var d := Date(MaxYear, 12, 31);
    assert DaysBeforeMonth(MaxYear, 12) + 31 == DaysInYear(MaxYear) by { MonthStep(MaxYear, 12); }
    YearStep(MaxYear);
  }

  /** `d + timedelta(days=n)` for `n >= 0`; None stands for the OverflowError
      Python raises when the result would pass 9999-12-31. The result is
      the date whose day number is `n` more than `d`'s. */
  function AddDays(d: Date, n: nat): (r: Option<Date>)
    requires Valid(d)
    ensures r.None? <==> Ordinal(d) + n > MaxOrdinal
    ensures r.Some? ==> Valid(r.value) && Ordinal(r.value) == Ordinal(d) + n
  {
    ForwardOrdinal(d, n);
    var e := Forward(d, n);
    if e.year <= MaxYear then Some(e) else None
  }

  // ---------------------------------------------------------------------
  // min / max of a list of dates
  // ---------------------------------------------------------------------

  /** `min(ds)`. */
  function Earliest(ds: seq<Date>): (m: Date)
    requires |ds| > 0
    ensures m in ds
    ensures forall x :: x in ds ==> NotAfter(m, x)
  {
    if |ds| == 1 then ds[0]
    else
      var rest := Earliest(ds[1..]);
      assert forall x :: x in ds ==> x == ds[0] || x in ds[1..];
      if Before(rest, ds[0]) then rest else ds[0]
  }

  /** `max(ds)`. */
  function Latest(ds: seq<Date>): (m: Date)
    requires |ds| > 0
    ensures m in ds
    ensures forall x :: x in ds ==> NotAfter(x, m)
  {
    if |ds| == 1 then ds[0]
    else
      var rest := Latest(ds[1..]);
      assert forall x :: x in ds ==> x == ds[0] || x in ds[1..];
      if Before(ds[0], rest) then rest else ds[0]
  }

  // ---------------------------------------------------------------------
  // isoformat()
  // ---------------------------------------------------------------------

  /** `"%02d" % n` for `0 <= n < 100`. */
  function Pad2(n: int): (s: string)
    requires 0 <= n < 100
    ensures |s| == 2
  {
    [Text.DigitChar(n / 10), Text.DigitChar(n % 10)]
  }

  /** `"%04d" % n` for `0 <= n < 10000`. */
  function Pad4(n: int): (s: string)
    requires 0 <= n < 10000
    ensures |s| == 4
  {
    [Text.DigitChar(n / 1000), Text.DigitChar(n / 100 % 10), Text.DigitChar(n / 10 % 10), Text.DigitChar(n % 10)]
  }

  /** `d.isoformat()`: the extended complete calendar-date form of
      ISO 8601 (YYYY-MM-DD), ten characters with dashes at positions 4 and 7
      and digits everywhere else. */
  function IsoFormat(d: Date): (s: string)
    requires Valid(d)
    ensures |s| == 10 && s[4] == '-' && s[7] == '-'
    ensures forall i :: 0 <= i < 10 && i != 4 && i != 7 ==> Text.IsDigit(s[i])
  {
    Pad4(d.year) + "-" + Pad2(d.month) + "-" + Pad2(d.day)
  }
}
