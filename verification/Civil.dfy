/** Civil dates as days since the Unix epoch (crates/rrn-cli/src/main.rs). */
module Civil {
  import opened Basics

  /** A year, month and day of the proleptic Gregorian calendar, not necessarily a date that exists. */
  datatype Date = Date(y: int, m: int, d: int)

  /** Division as the source's integers do it, toward zero. */
  function TruncDiv(a: int, b: int): int
    requires b > 0
  {
    if a >= 0 then a / b else -((-a) / b)
  }

  function DaysFromCivil(date: Date): int
    requires 1 <= date.m <= 12
  {
    var y := if date.m <= 2 then date.y - 1 else date.y;
    var era := TruncDiv(if y >= 0 then y else y - 399, 400);
    var yoe := y - era * 400;
    var mp := (date.m + 9) % 12;
    var doy := (153 * mp + 2) / 5 + date.d - 1;
    var doe := yoe * 365 + yoe / 4 - yoe / 100 + doy;
    era * 146_097 + doe - 719_468
  }

  // --- The calendar -----------------------------------------------------------

  predicate Leap(y: int) {
    y % 4 == 0 && (y % 100 != 0 || y % 400 == 0)
  }

  function MonthLength(y: int, m: int): int
    requires 1 <= m <= 12
  {
    if m == 2 then (if Leap(y) then 29 else 28) else if m in {4, 6, 9, 11} then 30 else 31
  }

  predicate Valid(date: Date) {
    1 <= date.m <= 12 && 1 <= date.d <= MonthLength(date.y, date.m)
  }

  function NextDay(date: Date): (next: Date)
    requires Valid(date)
    ensures Valid(next) && Before(date, next)
  {
    if date.d < MonthLength(date.y, date.m) then date.(d := date.d + 1)
    else if date.m < 12 then Date(date.y, date.m + 1, 1)
    else Date(date.y + 1, 1, 1)
  }

  function PreviousDay(date: Date): (previous: Date)
    requires Valid(date)
    ensures Valid(previous) && NextDay(previous) == date
  {
    if date.d > 1 then date.(d := date.d - 1)
    else if date.m > 1 then Date(date.y, date.m - 1, MonthLength(date.y, date.m - 1))
    else Date(date.y - 1, 12, 31)
  }

  predicate Before(a: Date, b: Date) {
    a.y < b.y || (a.y == b.y && (a.m < b.m || (a.m == b.m && a.d < b.d)))
  }

  // --- Years from March -------------------------------------------------------

  /** Days before the year that starts in March of `y`. */
  function YearDays(y: int): int {
    365 * y + y / 4 - y / 100 + y / 400
  }

  function MarchYear(date: Date): int {
    if date.m <= 2 then date.y - 1 else date.y
  }

  /** Days of the March year before the month, and before the day in it. */
  function DayOfYear(date: Date): int
    requires 1 <= date.m <= 12
  {
    (153 * ((date.m + 9) % 12) + 2) / 5 + date.d - 1
  }

  lemma {:induction false} EraForm(y: int)
    ensures TruncDiv(if y >= 0 then y else y - 399, 400) == y / 400
  {
  }

  /** The era arithmetic counts days from the start of March years. */
  lemma {:induction false} DaysForm(date: Date)
    requires 1 <= date.m <= 12
    ensures DaysFromCivil(date) == YearDays(MarchYear(date)) + DayOfYear(date) - 719_468
  {
    hide TruncDiv;
    var y := MarchYear(date);
    EraForm(y);
    var era := y / 400;
    var yoe := y - era * 400;
    assert y / 4 == 100 * era + yoe / 4;
    assert y / 100 == 4 * era + yoe / 100;
  }

  lemma {:induction false} YearLength(y: int)
    ensures YearDays(y + 1) - YearDays(y) == if Leap(y + 1) then 366 else 365
  {
    assert (y + 1) / 4 - y / 4 == if (y + 1) % 4 == 0 then 1 else 0;
    assert (y + 1) / 100 - y / 100 == if (y + 1) % 100 == 0 then 1 else 0;
    assert (y + 1) / 400 - y / 400 == if (y + 1) % 400 == 0 then 1 else 0;
    assert (y + 1) % 400 == 0 ==> (y + 1) % 100 == 0;
    assert (y + 1) % 100 == 0 ==> (y + 1) % 4 == 0;
  }

  lemma {:induction false} YearsApart(y: int, k: nat)
    ensures YearDays(y + k) >= YearDays(y) + 365 * k
  {
    hide YearDays;
    if k > 0 {
      YearsApart(y, k - 1);
      YearLength(y + k - 1);
    }
  }

  /** A day of the March year comes before the next March. */
  lemma {:induction false} WithinYear(date: Date)
    requires Valid(date)
    ensures 0 <= DayOfYear(date) < (if Leap(MarchYear(date) + 1) then 366 else 365)
  {
    hide Leap;
  }

  // --- Main results -----------------------------------------------------------

  /** The next day is one day later, for every year. */
  lemma {:induction false} NextDayIsOneLater(date: Date)
    requires Valid(date)
    ensures DaysFromCivil(NextDay(date)) == DaysFromCivil(date) + 1
  {
    hide YearDays, DaysFromCivil, Leap;
    DaysForm(date);
    DaysForm(NextDay(date));
    YearLength(MarchYear(date));
  }

  /** Later dates have more days: strictly increasing, so injective on dates that exist. */
  lemma {:induction false} StrictlyIncreasing(a: Date, b: Date)
    requires Valid(a) && Valid(b) && Before(a, b)
    ensures DaysFromCivil(a) < DaysFromCivil(b)
  {
    hide YearDays, DaysFromCivil, Leap, MonthLength;
    DaysForm(a);
    DaysForm(b);
    WithinYear(a);
    WithinYear(b);
    var ya, yb := MarchYear(a), MarchYear(b);
    if ya < yb {
      YearsApart(ya + 1, yb - ya - 1);
      YearLength(ya);
    } else {
      SameYear(a, b);
    }
  }

  lemma {:induction false} SameYear(a: Date, b: Date)
    requires Valid(a) && Valid(b) && Before(a, b) && MarchYear(a) == MarchYear(b)
    ensures DayOfYear(a) < DayOfYear(b)
  {
    hide Leap;
  }

  lemma {:induction false} Injective(a: Date, b: Date)
    requires Valid(a) && Valid(b) && DaysFromCivil(a) == DaysFromCivil(b)
    ensures a == b
  {
    hide DaysFromCivil, MonthLength;
    if Before(a, b) {
      StrictlyIncreasing(a, b);
    } else if Before(b, a) {
      StrictlyIncreasing(b, a);
    }
  }

  /** The `n`-th day after the epoch, or before it. */
  function CivilFromDays(n: int): (date: Date)
    ensures Valid(date)
    decreases if n >= 0 then n else -n
  {
    if n == 0 then Date(1970, 1, 1)
    else if n > 0 then NextDay(CivilFromDays(n - 1))
    else PreviousDay(CivilFromDays(n + 1))
  }

  /** Every day count is the count of the date it denotes. */
  lemma {:induction false} DaysOfCivil(n: int)
    ensures DaysFromCivil(CivilFromDays(n)) == n
    decreases if n >= 0 then n else -n
  {
    hide DaysFromCivil, NextDay, PreviousDay;
    if n == 0 {
      Epoch();
    } else if n > 0 {
      DaysOfCivil(n - 1);
      NextDayIsOneLater(CivilFromDays(n - 1));
    } else {
      DaysOfCivil(n + 1);
      NextDayIsOneLater(CivilFromDays(n));
    }
  }

  lemma {:induction false} Epoch()
    ensures DaysFromCivil(Date(1970, 1, 1)) == 0
  {
  }

  // --- Dates typed by a person ------------------------------------------------

  /** The last second of the day named, or `None` when month or day is out of range. The day is checked
      against 31 whatever the month. */
  function ParseDate(date: Date): Option<int> {
    if !(1 <= date.m <= 12) || !(1 <= date.d <= 31) then None
    else Some(DaysFromCivil(date) * 86_400 + 86_399)
  }

  /** Every existing date is accepted, and beyond them only the 29th to 31st of shorter months. */
  lemma {:induction false} AcceptedIff(date: Date)
    ensures Valid(date) ==> ParseDate(date).Some?
    ensures ParseDate(date).Some? && !Valid(date) ==> date.m in {2, 4, 6, 9, 11} && 28 < date.d <= 31
    ensures date.m in {2, 4, 6, 9, 11} && 28 < date.d <= 31 ==> ParseDate(date).Some?
  {
    hide DaysFromCivil;
  }

  /** An accepted date is read back as itself exactly when it exists: a day past its month's end is
      taken as a date of the next month. */
  lemma {:induction false} ReadsBackIff(date: Date)
    requires ParseDate(date).Some?
    ensures CivilFromDays((ParseDate(date).value - 86_399) / 86_400) == date <==> Valid(date)
  {
    hide DaysFromCivil, CivilFromDays;
    var n := DaysFromCivil(date);
    DaysOfCivil(n);
    if Valid(date) {
      Injective(CivilFromDays(n), date);
    }
  }

  /** February 30 is accepted, and means March 2. */
  lemma {:induction false} ThirtiethOfFebruary()
    ensures ParseDate(Date(2025, 2, 30)) == ParseDate(Date(2025, 3, 2))
    ensures CivilFromDays((ParseDate(Date(2025, 2, 30)).value - 86_399) / 86_400) == Date(2025, 3, 2)
    ensures !Valid(Date(2025, 2, 30)) && Valid(Date(2025, 3, 2))
  {
    hide CivilFromDays;
    assert DaysFromCivil(Date(2025, 2, 30)) == DaysFromCivil(Date(2025, 3, 2));
    ReadsBackIff(Date(2025, 3, 2));
  }

  /** The moment is one second before the next day begins. */
  lemma {:induction false} EndOfDay(date: Date)
    requires Valid(date)
    ensures ParseDate(date) == Some(DaysFromCivil(NextDay(date)) * 86_400 - 1)
  {
    hide DaysFromCivil;
    NextDayIsOneLater(date);
  }
}
