/** Calendar dates and epoch seconds, as far as the date filter and the
    output file name need them. All arithmetic is UTC, proleptic Gregorian. */
module Calendar {

  const SecondsPerDay: int := 86400

  /** A `datetime.date`. */
  datatype Date = Date(year: int, month: int, day: int)

  predicate IsLeapYear(y: int) {
    y % 4 == 0 && (y % 100 != 0 || y % 400 == 0)
  }

  function DaysInMonth(y: int, m: int): int
    requires 1 <= m <= 12
  {
    if m == 2 then (if IsLeapYear(y) then 29 else 28)
    else if m == 4 || m == 6 || m == 9 || m == 11 then 30
    else 31
  }

  /** The dates `datetime.date` can hold (years MINYEAR = 1 to MAXYEAR = 9999). */
  predicate ValidDate(d: Date) {
    1 <= d.year <= 9999 && 1 <= d.month <= 12 && 1 <= d.day <= DaysInMonth(d.year, d.month)
  }

  /** The calendar day after `d`. */
  function NextDay(d: Date): Date
    requires ValidDate(d)
  {
    if d.day < DaysInMonth(d.year, d.month) then Date(d.year, d.month, d.day + 1)
    else if d.month < 12 then Date(d.year, d.month + 1, 1)
    else Date(d.year + 1, 1, 1)
  }

  /** Days from 1 March of year 0 to 1 March of year `y` (years counted from March). */
  function MarchDays(y: int): int {
    var era := y / 400;
    var yoe := y - era * 400;
    era * 146097 + yoe * 365 + yoe / 4 - yoe / 100
  }

  /** Days since 1970-01-01 of a date (the civil-to-days conversion). */
  function DayNumber(d: Date): int
  {
    var y := if d.month <= 2 then d.year - 1 else d.year;
    var mp := if d.month > 2 then d.month - 3 else d.month + 9;
    MarchDays(y) + MonthStart(mp) + d.day - 1 - 719468
  }

  /** The UTC day number that `pd.to_datetime(t, unit='s').date()` denotes:
      the floor of t / 86400 (Dafny's `/` floors for a positive divisor). */
  function DayOf(t: int): int {
    t / SecondsPerDay
  }

  /** A timestamp lies on day `d` exactly when it is in [d 00:00, d+1 00:00). */
  lemma DayOfIff(t: int, d: int)
    ensures DayOf(t) == d <==> d * SecondsPerDay <= t < (d + 1) * SecondsPerDay
  {
    var q, r := t / SecondsPerDay, t % SecondsPerDay;
    assert t == q * SecondsPerDay + r && 0 <= r < SecondsPerDay;
    if d < q {
      assert (d + 1) * SecondsPerDay <= q * SecondsPerDay;
    } else if d > q {
      assert d * SecondsPerDay >= (q + 1) * SecondsPerDay;
    }
  }

  lemma EpochIsDayZero()
    ensures DayNumber(Date(1970, 1, 1)) == 0
  {
  }

  /** Days in the first `z` March-based years of a 400-year era. */
  function EraDays(z: int): int {
    z * 365 + z / 4 - z / 100
  }

  lemma EraDaysStep(z: int)
    requires 0 <= z < 399
    ensures EraDays(z + 1) - EraDays(z) == if (z + 1) % 4 == 0 && (z + 1) % 100 != 0 then 366 else 365
  {
    assert (z + 1) / 4 - z / 4 == if (z + 1) % 4 == 0 then 1 else 0;
    assert (z + 1) / 100 - z / 100 == if (z + 1) % 100 == 0 then 1 else 0;
  }

  lemma ModShift4(m: int, w: int)
    ensures (m * 4 + w) % 4 == w % 4
  {
  }

  lemma ModShift100(m: int, w: int)
    ensures (m * 100 + w) % 100 == w % 100
  {
  }

  lemma ModShift400(m: int, w: int)
    ensures (m * 400 + w) % 400 == w % 400
  {
  }

  lemma LeapInEra(era: int, w: int)
    requires 0 < w < 400
    ensures IsLeapYear(era * 400 + w) <==> w % 4 == 0 && w % 100 != 0
  {
    var n := era * 400 + w;
    ModShift4(era * 100, w);
    ModShift100(era * 4, w);
    ModShift400(era, w);
    assert n == (era * 100) * 4 + w && n == (era * 4) * 100 + w;
  }

  lemma MarchDaysOf(era: int, w: int)
    requires 0 <= w < 400
    ensures MarchDays(era * 400 + w) == era * 146097 + EraDays(w)
  {
    assert (era * 400 + w) / 400 == era;
  }

  /** A March-based year holds 366 days when the February at its end has 29. */
  lemma MarchDaysStep(y: int)
    ensures MarchDays(y + 1) - MarchDays(y) == if IsLeapYear(y + 1) then 366 else 365
  {
    var era := y / 400;
    var yoe := y % 400;
    assert y == era * 400 + yoe;
    MarchDaysOf(era, yoe);
    if yoe < 399 {
      assert y + 1 == era * 400 + (yoe + 1);
      MarchDaysOf(era, yoe + 1);
      EraDaysStep(yoe);
      LeapInEra(era, yoe + 1);
    } else {
      assert y + 1 == (era + 1) * 400 + 0;
      MarchDaysOf(era + 1, 0);
      assert EraDays(399) == 145731;
      ModShift4((era + 1) * 100, 0);
      ModShift400(era + 1, 0);
      assert y + 1 == ((era + 1) * 100) * 4 + 0;
    }
  }

  /** Days from 1 March to the first of the month `mp` months later. */
  function MonthStart(mp: int): int {
    (153 * mp + 2) / 5
  }

  /** The civil month that starts `mp` months after March. */
  function MonthOf(mp: int): int {
    if mp < 10 then mp + 3 else mp - 9
  }

  lemma MonthStartStep(mp: int, y: int)
    requires 0 <= mp < 11
    ensures MonthStart(mp + 1) - MonthStart(mp) == DaysInMonth(y, MonthOf(mp))
  {
    if mp == 0 { assert MonthStart(1) == 31; }
    else if mp == 1 { assert MonthStart(1) == 31 && MonthStart(2) == 61; }
    else if mp == 2 { assert MonthStart(2) == 61 && MonthStart(3) == 92; }
    else if mp == 3 { assert MonthStart(3) == 92 && MonthStart(4) == 122; }
    else if mp == 4 { assert MonthStart(4) == 122 && MonthStart(5) == 153; }
    else if mp == 5 { assert MonthStart(5) == 153 && MonthStart(6) == 184; }
    else if mp == 6 { assert MonthStart(6) == 184 && MonthStart(7) == 214; }
    else if mp == 7 { assert MonthStart(7) == 214 && MonthStart(8) == 245; }
    else if mp == 8 { assert MonthStart(8) == 245 && MonthStart(9) == 275; }
    else if mp == 9 { assert MonthStart(9) == 275 && MonthStart(10) == 306; }
    else { assert MonthStart(10) == 306 && MonthStart(11) == 337; }
  }

  /** Consecutive calendar days get consecutive day numbers. */
  lemma NextDayNumber(d: Date)
    requires ValidDate(d)
    ensures DayNumber(NextDay(d)) == DayNumber(d) + 1
  {
    var y := if d.month <= 2 then d.year - 1 else d.year;
    var mp := if d.month > 2 then d.month - 3 else d.month + 9;
    assert DayNumber(d) == MarchDays(y) + MonthStart(mp) + d.day - 1 - 719468;
    assert MonthOf(mp) == d.month;
    if d.day < DaysInMonth(d.year, d.month) {
    } else if d.month == 2 {
      MarchDaysStep(y);
      assert MonthStart(11) == 337;
      assert DayNumber(NextDay(d)) == MarchDays(d.year) + MonthStart(0) - 719468;
    } else if d.month < 12 {
      MonthStartStep(mp, d.year);
      assert DayNumber(NextDay(d)) == MarchDays(y) + MonthStart(mp + 1) - 719468;
    } else {
      MonthStartStep(mp, d.year);
      assert DayNumber(NextDay(d)) == MarchDays(y) + MonthStart(10) - 719468;
    }
  }

  /** The year of `d` counted from March, and the day of `d` within it. */
  function MarchYear(d: Date): int {
    if d.month <= 2 then d.year - 1 else d.year
  }

  function MarchMonth(d: Date): int {
    if d.month > 2 then d.month - 3 else d.month + 9
  }

  function Offset(d: Date): int {
    MonthStart(MarchMonth(d)) + d.day - 1
  }

  /** The length of the March-based year `y`. */
  function YearLength(y: int): int {
    if IsLeapYear(y + 1) then 366 else 365
  }

  lemma DayNumberParts(d: Date)
    ensures DayNumber(d) == MarchDays(MarchYear(d)) + Offset(d) - 719468
  {
  }

  lemma {:induction false} MarchDaysGrow(y: int, z: int)
    requires y < z
    ensures MarchDays(y) + YearLength(y) <= MarchDays(z)
    decreases z - y
  {
    MarchDaysStep(y);
    if y + 1 < z {
      MarchDaysGrow(y + 1, z);
      MarchDaysStep(y + 1);
    }
  }

  lemma OffsetBounds(d: Date)
    requires ValidDate(d)
    ensures 0 <= Offset(d) < YearLength(MarchYear(d))
  {
    var mp := MarchMonth(d);
    if mp == 11 {
      assert MonthStart(11) == 337;
      assert d.year == MarchYear(d) + 1;
    } else {
      assert MonthStart(mp) <= MonthStart(10) == 306;
    }
  }

  lemma MonthStartMonotone(a: int, b: int)
    requires 0 <= a <= b <= 11
    ensures MonthStart(a) <= MonthStart(b)
  {
  }

  /** The offset of `d` lies inside the span of its own month. */
  lemma OffsetInMonth(d: Date)
    requires ValidDate(d)
    ensures MonthStart(MarchMonth(d)) <= Offset(d)
    ensures MarchMonth(d) < 11 ==> Offset(d) < MonthStart(MarchMonth(d) + 1)
  {
    var mp := MarchMonth(d);
    if mp < 11 {
      MonthStartStep(mp, d.year);
      assert MonthOf(mp) == d.month;
    }
  }

  /** Within a March-based year the month and day are read off the offset. */
  lemma OffsetDetermines(d: Date, e: Date)
    requires ValidDate(d) && ValidDate(e)
    requires MarchYear(d) == MarchYear(e) && Offset(d) == Offset(e)
    ensures MarchMonth(d) == MarchMonth(e) && d.day == e.day
  {
    OffsetInMonth(d);
    OffsetInMonth(e);
    var a, b := MarchMonth(d), MarchMonth(e);
    if a < b {
      MonthStartMonotone(a + 1, b);
    } else if b < a {
      MonthStartMonotone(b + 1, a);
    }
  }

  /** Different valid dates have different day numbers, so comparing day
      numbers is comparing dates. */
  lemma DayNumberInjective(d: Date, e: Date)
    requires ValidDate(d) && ValidDate(e) && d != e
    ensures DayNumber(d) != DayNumber(e)
  {
    DayNumberParts(d);
    DayNumberParts(e);
    OffsetBounds(d);
    OffsetBounds(e);
    if MarchYear(d) < MarchYear(e) {
      MarchDaysGrow(MarchYear(d), MarchYear(e));
    } else if MarchYear(e) < MarchYear(d) {
      MarchDaysGrow(MarchYear(e), MarchYear(d));
    } else if Offset(d) == Offset(e) {
      OffsetDetermines(d, e);
    }
  }
}
