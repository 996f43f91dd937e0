/**
 The week label of a contribution. Days are counted from Monday, 1 January of year 1 of the
 Gregorian calendar, carried on in both directions.
 */
module IsoWeek {
  // ----- the calendar -----

  predicate Leap(year: int) {
    year % 4 == 0 && (year % 100 == 0 ==> year % 400 == 0)
  }

  function DaysIn(year: int): int {
    if Leap(year) then 366 else 365
  }

  /** The day number of 1 January. */
  function YearStart(year: int): int
    decreases if year > 1 then year - 1 else 1 - year
  {
    if year == 1 then 0
    else if year > 1 then YearStart(year - 1) + DaysIn(year - 1)
    else YearStart(year + 1) - DaysIn(year)
  }

  lemma NextYearStart(year: int)
    ensures YearStart(year + 1) == YearStart(year) + DaysIn(year)
  {
  }

  lemma {:induction false} LaterYearStart(first: int, second: int)
    requires first <= second
    ensures YearStart(second) >= YearStart(first) + 365 * (second - first)
    decreases second - first
  {
    if first < second {
      LaterYearStart(first, second - 1);
      NextYearStart(second - 1);
    }
  }

  /** The year of a day between two year starts, by bisection. */
  function YearBetween(d: int, low: int, high: int): (year: int)
    requires low < high && YearStart(low) <= d < YearStart(high)
    ensures YearStart(year) <= d < YearStart(year + 1)
    decreases high - low
  {
    if low + 1 == high then low
    else
      var middle := (low + high) / 2;
      if YearStart(middle) <= d then YearBetween(d, middle, high) else YearBetween(d, low, middle)
  }

  lemma {:induction false} YearStartBounds(k: int)
    ensures k >= 0 ==> 365 * k <= YearStart(1 + k) <= 366 * k
    ensures k <= 0 ==> 366 * k <= YearStart(1 + k) <= 365 * k
    decreases if k > 0 then k else -k
  {
    if k > 0 {
      YearStartBounds(k - 1);
      NextYearStart(k);
    } else if k < 0 {
      YearStartBounds(k + 1);
      NextYearStart(1 + k);
    }
  }

  lemma YearBounds(d: int)
    ensures d >= 0 ==> YearStart(1 + d / 366) <= d < YearStart(2 + d / 365) && d / 366 <= d / 365
    ensures d < 0 ==> YearStart(1 + d / 365) <= d < YearStart(2 + d / 366) && d / 365 <= d / 366
  {
    YearStartBounds(d / 366);
    YearStartBounds(d / 365);
    YearStartBounds(d / 365 + 1);
    YearStartBounds(d / 366 + 1);
  }

  function YearOf(d: int): (year: int)
    ensures YearStart(year) <= d < YearStart(year + 1)
  {
    YearBounds(d);
    if d >= 0 then YearBetween(d, 1 + d / 366, 2 + d / 365) else YearBetween(d, 1 + d / 365, 2 + d / 366)
  }

  const MONTHS: seq<int> := [0, 31, 59, 90, 120, 151, 181, 212, 243, 273, 304, 334]

  /** The days of a year before a month; months count from 0. */
  function MonthStart(year: int, month: nat): int
    requires month < 12
  {
    MONTHS[month] + if month > 1 && Leap(year) then 1 else 0
  }

  /** The day number of a year, a month and a day of that month; a day that the month does not have runs over. */
  function DayOf(year: int, month: nat, day: int): int
    requires month < 12
  {
    YearStart(year) + MonthStart(year, month) + day - 1
  }

  function MonthAt(year: int, offset: int, month: nat): (r: nat)
    requires month < 12 && MonthStart(year, month) <= offset
    ensures month <= r < 12 && MonthStart(year, r) <= offset && (r < 11 ==> offset < MonthStart(year, r + 1))
    decreases 12 - month
  {
    if month < 11 && MonthStart(year, month + 1) <= offset then MonthAt(year, offset, month + 1) else month
  }

  function MonthOf(d: int): (month: nat)
    ensures month < 12
  {
    MonthAt(YearOf(d), d - YearStart(YearOf(d)), 0)
  }

  function DayOfMonth(d: int): int {
    d - YearStart(YearOf(d)) - MonthStart(YearOf(d), MonthOf(d)) + 1
  }

  // ----- as the program computes it -----

  datatype Week = Week(year: int, number: int)

  /** `Date.UTC` takes the years 0 to 99 for 1900 to 1999. */
  function YearArgument(year: int): int {
    if 0 <= year <= 99 then 1900 + year else year
  }

  /** Sunday is 0. */
  function WeekdayOf(d: int): int {
    (d + 1) % 7
  }

  function CeilingOfSeventh(n: int): int {
    (n + 6) / 7
  }

  function UtcOf(date: int): int {
    DayOf(YearArgument(YearOf(date)), MonthOf(date), DayOfMonth(date))
  }

  function ThursdayOf(utc: int): int {
    utc + 4 - if WeekdayOf(utc) == 0 then 7 else WeekdayOf(utc)
  }

  function LabelOf(thursday: int): Week {
    var yearStart := DayOf(YearArgument(YearOf(thursday)), 0, 1);
    Week(YearOf(thursday), CeilingOfSeventh(thursday - yearStart + 1))
  }

  function BucketWeek(date: int): Week {
    LabelOf(ThursdayOf(UtcOf(date)))
  }

  // ----- the standard -----

  function MondayOf(d: int): int {
    d - d % 7
  }

  /** Week 1 of a year is the one with its first Thursday in it, which is the one with 4 January. */
  function FirstMonday(year: int): int {
    MondayOf(YearStart(year) + 3)
  }

  /** Section 2.2.10 of ISO 8601:2004: weeks are numbered from the one with the year's first Thursday. */
  ghost predicate IsIsoWeek(d: int, w: Week) {
    && 1 <= w.number
    && FirstMonday(w.year) + 7 * (w.number - 1) <= d < FirstMonday(w.year) + 7 * w.number
    && d < FirstMonday(w.year + 1)
  }

  lemma MondayBounds(d: int)
    ensures MondayOf(d) <= d < MondayOf(d) + 7 && MondayOf(d) % 7 == 0
  {
  }

  lemma MondaysApart(first: int, second: int)
    requires first % 7 == 0 && second % 7 == 0
    ensures first < second ==> first + 7 <= second
  {
  }

  lemma FirstThursday(year: int)
    ensures YearStart(year) <= FirstMonday(year) + 3 < YearStart(year) + 7
    ensures FirstMonday(year) % 7 == 0
  {
    MondayBounds(YearStart(year) + 3);
  }

  /** A Monday and the first Monday of its week year are whole weeks apart: those between the two Thursdays. */
  lemma WholeWeeks(monday: int, first: int, start: int)
    requires monday % 7 == 0 && first % 7 == 0 && start <= first + 3 < start + 7 && start <= monday + 3
    ensures monday == first + 7 * ((monday + 3 - start) / 7)
  {
    var n := (monday + 3 - start) / 7;
    assert 7 * n <= monday + 3 - start < 7 * n + 7;
    MondaysApart(monday, first + 7 * n);
    MondaysApart(first + 7 * n, monday);
  }

  /** A day's week is numbered in the year of its Thursday. */
  lemma WeekOfThursday(d: int)
    ensures
      var thursday := MondayOf(d) + 3;
      IsIsoWeek(d, Week(YearOf(thursday), (thursday - YearStart(YearOf(thursday))) / 7 + 1))
  {
    var thursday := MondayOf(d) + 3;
    var year := YearOf(thursday);
    MondayBounds(d);
    FirstThursday(year);
    FirstThursday(year + 1);
    WholeWeeks(MondayOf(d), FirstMonday(year), YearStart(year));
    MondaysApart(MondayOf(d), FirstMonday(year + 1));
  }

  lemma YearsInWeeks(first: int, second: int, start: int, next: int)
    requires first % 7 == 0 && second % 7 == 0 && 365 <= next - start <= 366
    requires start <= first + 3 < start + 7 && next <= second + 3 < next + 7
    ensures first + 364 <= second <= first + 371
  {
    MondaysApart(first + 357, second);
    MondaysApart(first + 371, second);
  }

  /** A year has 52 or 53 weeks. */
  lemma NextFirstMonday(year: int)
    ensures FirstMonday(year) + 364 <= FirstMonday(year + 1) <= FirstMonday(year) + 371
  {
    FirstThursday(year);
    FirstThursday(year + 1);
    NextYearStart(year);
    YearsInWeeks(FirstMonday(year), FirstMonday(year + 1), YearStart(year), YearStart(year + 1));
  }

  lemma {:induction false} FirstMondaysApart(first: int, second: int)
    requires first < second
    ensures FirstMonday(first + 1) <= FirstMonday(second)
    decreases second - first
  {
    if first + 1 < second {
      NextFirstMonday(first + 1);
      FirstMondaysApart(first + 1, second);
    }
  }

  /** Every day has exactly one ISO week. */
  lemma IsoWeekUnique(d: int, w: Week, v: Week)
    requires IsIsoWeek(d, w) && IsIsoWeek(d, v)
    ensures w == v
  {
    if w.year < v.year {
      FirstMondaysApart(w.year, v.year);
    } else if v.year < w.year {
      FirstMondaysApart(v.year, w.year);
    }
  }

  lemma IsoWeekInRange(d: int, w: Week)
    requires IsIsoWeek(d, w)
    ensures 1 <= w.number <= 53
  {
    NextFirstMonday(w.year);
    Fits(FirstMonday(w.year), FirstMonday(w.year + 1), d, w.number);
  }

  lemma Fits(first: int, next: int, d: int, n: int)
    requires first + 7 * (n - 1) <= d < next <= first + 371
    ensures n <= 53
  {
  }

  lemma MondayWithin(d: int, monday: int, first: int, n: int)
    requires monday % 7 == 0 && first % 7 == 0 && monday <= d < monday + 7
    requires first + 7 * (n - 1) <= d < first + 7 * n
    ensures monday == first + 7 * (n - 1)
  {
    MondaysApart(monday, first + 7 * (n - 1));
    MondaysApart(first + 7 * (n - 1), monday);
  }

  lemma WeekMonday(d: int, w: Week)
    requires IsIsoWeek(d, w)
    ensures MondayOf(d) == FirstMonday(w.year) + 7 * (w.number - 1)
    ensures MondayOf(d) + 7 <= FirstMonday(w.year + 1)
  {
    MondayBounds(d);
    FirstThursday(w.year);
    FirstThursday(w.year + 1);
    MondayWithin(d, MondayOf(d), FirstMonday(w.year), w.number);
    MondaysApart(MondayOf(d), FirstMonday(w.year + 1));
  }

  ghost predicate Earlier(w: Week, v: Week) {
    w.year < v.year || (w.year == v.year && w.number < v.number)
  }

  lemma MondaysInOrder(d: int, e: int)
    requires d <= e
    ensures MondayOf(d) <= MondayOf(e)
  {
    MondayBounds(d);
    MondayBounds(e);
    MondaysApart(MondayOf(e), MondayOf(d));
  }

  lemma NumbersInOrder(first: int, monday: int, later: int, n: int, k: int)
    requires monday == first + 7 * (n - 1) && later == first + 7 * (k - 1)
    ensures monday == later ==> n == k
    ensures monday < later ==> n < k
  {
  }

  /** The week is the same from Monday to Sunday and later every Monday, across year ends too. */
  lemma IsoWeeksFollowDays(d: int, w: Week, e: int, v: Week)
    requires IsIsoWeek(d, w) && IsIsoWeek(e, v) && d <= e
    ensures MondayOf(d) == MondayOf(e) ==> w == v
    ensures MondayOf(d) < MondayOf(e) ==> Earlier(w, v)
  {
    MondaysInOrder(d, e);
    WeekMonday(d, w);
    WeekMonday(e, v);
    if w.year < v.year {
      FirstMondaysApart(w.year, v.year);
    } else if v.year < w.year {
      FirstMondaysApart(v.year, w.year);
    } else {
      NumbersInOrder(FirstMonday(w.year), MondayOf(d), MondayOf(e), w.number, v.number);
    }
  }

  // ----- the two compared -----

  lemma CivilRoundTrip(d: int)
    ensures !(0 <= YearOf(d) <= 99) ==> UtcOf(d) == d
  {
  }

  lemma ThursdayAsComputed(utc: int)
    ensures ThursdayOf(utc) == MondayOf(utc) + 3
  {
  }

  lemma YearAtLeast(d: int, year: int)
    requires YearStart(year) <= d
    ensures year <= YearOf(d)
  {
    if YearOf(d) < year {
      LaterYearStart(YearOf(d) + 1, year);
    }
  }

  lemma MonthStartInYear(year: int, month: nat)
    requires month < 12
    ensures MonthStart(year, month) >= 0
  {
  }

  lemma DayOfMonthPositive(d: int)
    ensures DayOfMonth(d) >= 1
  {
  }

  lemma DayInYear(year: int, month: nat, day: int)
    requires month < 12 && day >= 1
    ensures DayOf(year, month, day) >= YearStart(year)
  {
    MonthStartInYear(year, month);
  }

  lemma MisreadUtc(d: int)
    requires 0 <= YearOf(d) <= 99
    ensures UtcOf(d) >= YearStart(1900 + YearOf(d))
  {
    DayOfMonthPositive(d);
    DayInYear(1900 + YearOf(d), MonthOf(d), DayOfMonth(d));
  }

  /** A year misread as 1900 and more puts the date into another century. */
  lemma MisreadYear(d: int)
    requires 0 <= YearOf(d) <= 99
    ensures YearOf(ThursdayOf(UtcOf(d))) >= 1899 + YearOf(d)
  {
    var year := YearOf(d);
    MisreadUtc(d);
    ThursdayAsComputed(UtcOf(d));
    MondayBounds(UtcOf(d));
    LaterYearStart(1899 + year, 1900 + year);
    YearAtLeast(ThursdayOf(UtcOf(d)), 1899 + year);
  }

  lemma IsoYearNear(d: int, w: Week)
    requires IsIsoWeek(d, w)
    ensures w.year <= YearOf(d) + 1
  {
    FirstThursday(w.year);
    if w.year > YearOf(d) + 1 {
      NextYearStart(w.year - 1);
      LaterYearStart(YearOf(d) + 1, w.year - 1);
    }
  }

  lemma CeilingIs(n: int)
    ensures CeilingOfSeventh(n + 1) == n / 7 + 1
    ensures n < 0 ==> CeilingOfSeventh(n + 1) < 1
  {
  }

  lemma LabelIs(thursday: int)
    ensures LabelOf(thursday) ==
              Week(YearOf(thursday), (thursday - YearStart(YearArgument(YearOf(thursday)))) / 7 + 1)
  {
    var start := YearStart(YearArgument(YearOf(thursday)));
    assert DayOf(YearArgument(YearOf(thursday)), 0, 1) == start;
    CeilingIs(thursday - start);
  }

  /** Neither the date's year nor the year of its Thursday is one that `Date.UTC` takes for another. */
  predicate ReadAsWritten(date: int) {
    !(0 <= YearOf(date) <= 99) && !(0 <= YearOf(MondayOf(date) + 3) <= 99)
  }

  lemma MisreadLabel(date: int)
    requires 0 <= YearOf(date) <= 99
    ensures !IsIsoWeek(date, BucketWeek(date))
  {
    MisreadYear(date);
    if IsIsoWeek(date, BucketWeek(date)) {
      IsoYearNear(date, BucketWeek(date));
    }
  }

  lemma ReadThursday(date: int)
    requires !(0 <= YearOf(date) <= 99)
    ensures BucketWeek(date) == LabelOf(MondayOf(date) + 3)
  {
    CivilRoundTrip(date);
    ThursdayAsComputed(date);
  }

  lemma NegativeLabel(thursday: int)
    requires 0 <= YearOf(thursday) <= 99
    ensures LabelOf(thursday).number < 1
  {
    LabelIs(thursday);
    NegativeWeek(thursday);
  }

  lemma ReadLabel(date: int)
    requires !(0 <= YearOf(date) <= 99)
    ensures IsIsoWeek(date, BucketWeek(date)) <==> !(0 <= YearOf(MondayOf(date) + 3) <= 99)
  {
    var thursday := MondayOf(date) + 3;
    ReadThursday(date);
    if 0 <= YearOf(thursday) <= 99 {
      NegativeLabel(thursday);
    } else {
      LabelIs(thursday);
      WeekOfThursday(date);
    }
  }

  /** The label is the ISO week for every date whose calendar year and week year are not 0 to 99, and for no other. */
  lemma BucketWeekIsIsoWeek(date: int)
    ensures IsIsoWeek(date, BucketWeek(date)) <==> ReadAsWritten(date)
  {
    if 0 <= YearOf(date) <= 99 {
      MisreadLabel(date);
    } else {
      ReadLabel(date);
    }
  }

  lemma NegativeWeek(thursday: int)
    requires 0 <= YearOf(thursday) <= 99
    ensures (thursday - YearStart(YearArgument(YearOf(thursday)))) / 7 + 1 < 1
  {
    LaterYearStart(YearOf(thursday) + 1, 1900 + YearOf(thursday));
  }

  /** Wherever the labels are ISO weeks they order the days: one label from Monday to Sunday, a later one every Monday. */
  lemma BucketWeeksFollowDays(d: int, e: int)
    requires d <= e && ReadAsWritten(d) && ReadAsWritten(e)
    ensures MondayOf(d) == MondayOf(e) ==> BucketWeek(d) == BucketWeek(e)
    ensures MondayOf(d) < MondayOf(e) ==> Earlier(BucketWeek(d), BucketWeek(e))
    ensures 1 <= BucketWeek(d).number <= 53
  {
    BucketWeekIsIsoWeek(d);
    BucketWeekIsIsoWeek(e);
    IsoWeeksFollowDays(d, BucketWeek(d), e, BucketWeek(e));
    IsoWeekInRange(d, BucketWeek(d));
  }

  /** Every day of the year 50 is labelled with a week of another century. */
  lemma ExampleYearFifty(date: int)
    requires YearStart(50) <= date < YearStart(51)
    ensures YearOf(date) == 50 && BucketWeek(date).year >= 1949 && !IsIsoWeek(date, BucketWeek(date))
  {
    YearAtLeast(date, 50);
    if YearOf(date) > 50 {
      LaterYearStart(51, YearOf(date));
    }
    MisreadYear(date);
    MisreadLabel(date);
  }
}
