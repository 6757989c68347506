/**
 The civil calendar, as far as gmtime and mkgmtime need it: a time as seconds since the beginning of 1970, and as
 year, month, day, hour, minute and second.
 */
module Calendar {

  const DAY: int := 86400

  /** struct tm: the year counts from 1900 and the month from 0. */
  datatype Tm = Tm(year: int, mon: nat, mday: nat, hour: nat, min: nat, sec: nat)

  predicate IsLeap(y: int) {
    y % 4 == 0 && (y % 100 != 0 || y % 400 == 0)
  }

  function YearDays(y: int): nat {
    if IsLeap(y) then 366 else 365
  }

  function MonthDays(y: int, m: nat): (n: nat)
    requires m < 12
    ensures 28 <= n <= 31
  {
    if m == 1 then (if IsLeap(y) then 29 else 28)
    else if m == 3 || m == 5 || m == 8 || m == 10 then 30
    else 31
  }

  /** The days from the beginning of 1970 to the beginning of the year. */
  function DaysToYear(y: int): int
    decreases if y < 1970 then 1970 - y else y - 1970
  {
    if y == 1970 then 0
    else if y > 1970 then DaysToYear(y - 1) + YearDays(y - 1)
    else DaysToYear(y + 1) - YearDays(y)
  }

  function DaysToMonth(y: int, m: nat): nat
    requires m <= 12
  {
    if m == 0 then 0 else DaysToMonth(y, m - 1) + MonthDays(y, m - 1)
  }

  lemma MonthsFillYear(y: int)
    ensures DaysToMonth(y, 12) == YearDays(y)
  {
    assert DaysToMonth(y, 1) == DaysToMonth(y, 0) + MonthDays(y, 0);
    assert DaysToMonth(y, 2) == DaysToMonth(y, 1) + MonthDays(y, 1);
    assert DaysToMonth(y, 3) == DaysToMonth(y, 2) + MonthDays(y, 2);
    assert DaysToMonth(y, 4) == DaysToMonth(y, 3) + MonthDays(y, 3);
    assert DaysToMonth(y, 5) == DaysToMonth(y, 4) + MonthDays(y, 4);
    assert DaysToMonth(y, 6) == DaysToMonth(y, 5) + MonthDays(y, 5);
    assert DaysToMonth(y, 7) == DaysToMonth(y, 6) + MonthDays(y, 6);
    assert DaysToMonth(y, 8) == DaysToMonth(y, 7) + MonthDays(y, 7);
    assert DaysToMonth(y, 9) == DaysToMonth(y, 8) + MonthDays(y, 8);
    assert DaysToMonth(y, 10) == DaysToMonth(y, 9) + MonthDays(y, 9);
    assert DaysToMonth(y, 11) == DaysToMonth(y, 10) + MonthDays(y, 10);
    assert DaysToMonth(y, 12) == DaysToMonth(y, 11) + MonthDays(y, 11);
  }

  predicate RealDay(tm: Tm) {
    tm.mon < 12 && 1 <= tm.mday <= MonthDays(1900 + tm.year, tm.mon)
  }

  predicate RealTime(tm: Tm) {
    RealDay(tm) && tm.hour < 24 && tm.min < 60 && tm.sec < 60
  }

  /** The days and the seconds since the beginning of 1970. */
  function DayNumber(tm: Tm): int
    requires tm.mon < 12
  {
    DaysToYear(1900 + tm.year) + DaysToMonth(1900 + tm.year, tm.mon) + tm.mday - 1
  }

  function Seconds(tm: Tm): int
    requires tm.mon < 12
  {
    ((DayNumber(tm) * 24 + tm.hour) * 60 + tm.min) * 60 + tm.sec
  }

  /** The year of the day that comes `d` days after the beginning of the year `y`, and how far into that year it is. */
  function YearFrom(y: int, d: int): (r: (int, nat))
    ensures r.1 < YearDays(r.0) && DaysToYear(r.0) + r.1 == DaysToYear(y) + d
    decreases if d < 0 then 400 - d else d
  {
    if d < 0 then YearFrom(y - 1, d + YearDays(y - 1))
    else if d < YearDays(y) then (y, d)
    else YearFrom(y + 1, d - YearDays(y))
  }

  /** Every fourth year is a leap year, but for the hundredth, but for the four hundredth. */
  lemma LeapYears(y: int)
    ensures y % 4 != 0 ==> !IsLeap(y)
    ensures y % 4 == 0 && y % 100 != 0 ==> IsLeap(y)
    ensures IsLeap(2000) && !IsLeap(1900) && !IsLeap(2100) && !IsLeap(2200) && IsLeap(2400)
  {
  }

  /** The days of the months of a year without a leap day, and of February with one. */
  lemma DaysOfMonths(y: int)
    ensures [MonthDays(y, 0), MonthDays(y, 2), MonthDays(y, 3), MonthDays(y, 4), MonthDays(y, 5), MonthDays(y, 6),
             MonthDays(y, 7), MonthDays(y, 8), MonthDays(y, 9), MonthDays(y, 10), MonthDays(y, 11)] ==
            [31, 31, 30, 31, 30, 31, 31, 30, 31, 30, 31]
    ensures MonthDays(y, 1) == if IsLeap(y) then 29 else 28
  {
  }

  /** The same for the months of a year. */
  function MonthFrom(y: int, m: nat, d: nat): (r: (nat, nat))
    requires m < 12 && DaysToMonth(y, m) + d < DaysToMonth(y, 12)
    ensures m <= r.0 < 12 && r.1 < MonthDays(y, r.0) && DaysToMonth(y, r.0) + r.1 == DaysToMonth(y, m) + d
    decreases 12 - m
  {
    if d < MonthDays(y, m) then (m, d)
    else
      assert DaysToMonth(y, m + 1) == DaysToMonth(y, m) + MonthDays(y, m);
      MonthFrom(y, m + 1, d - MonthDays(y, m))
  }

  /** gmtime */
  function GmTime(t: int): (tm: Tm)
    ensures RealTime(tm)
  {
    var day, s := t / DAY, t % DAY;
    var (y, yd) := YearFrom(1970, day);
    MonthsFillYear(y);
    var (m, md) := MonthFrom(y, 0, yd);
    Tm(y - 1900, m, md + 1, s / 3600, s / 60 % 60, s % 60)
  }

  /** The fields say what the time was. */
  lemma GmTimeMeans(t: int)
    ensures Seconds(GmTime(t)) == t
  {
    var day, s := t / DAY, t % DAY;
    var (y, yd) := YearFrom(1970, day);
    MonthsFillYear(y);
    ClockMeans(s);
    assert DayNumber(GmTime(t)) == day;
    assert Seconds(GmTime(t)) == ((day * 24 + s / 3600) * 60 + s / 60 % 60) * 60 + s % 60;
  }

  lemma ClockMeans(s: nat)
    ensures (s / 3600 * 60 + s / 60 % 60) * 60 + s % 60 == s
  {
    assert s / 3600 == s / 60 / 60;
  }

  /** The first second of 1970 is 0, and a day, an hour and a minute have the seconds they have. */
  lemma Epoch(tm: Tm)
    requires tm.year == 70 && tm.mon == 0
    ensures Seconds(tm) == (tm.mday - 1) * 86400 + tm.hour * 3600 + tm.min * 60 + tm.sec
  {
    assert DaysToYear(1900 + tm.year) == 0 && DaysToMonth(1900 + tm.year, tm.mon) == 0;
    assert ((tm.mday - 1) * 24 + tm.hour) * 60 == (tm.mday - 1) * 1440 + tm.hour * 60;
  }

  /** A year later it is a year's days more. */
  lemma YearLater(tm: Tm)
    requires tm.mon == 0
    ensures Seconds(tm.(year := tm.year + 1)) == Seconds(tm) + 86400 * (if IsLeap(1900 + tm.year) then 366 else 365)
  {
    var y := 1900 + tm.year;
    assert DaysToYear(y + 1) == DaysToYear(y) + YearDays(y);
    assert DaysToMonth(y, 0) == DaysToMonth(y + 1, 0) == 0;
  }

  /** tmcomp: which of two times comes first, field by field. */
  function Compare(a: Tm, b: Tm): int {
    if a.year != b.year then a.year - b.year
    else if a.mon != b.mon then a.mon - b.mon
    else if a.mday != b.mday then a.mday - b.mday
    else if a.hour != b.hour then a.hour - b.hour
    else if a.min != b.min then a.min - b.min
    else a.sec - b.sec
  }

  lemma {:induction false} YearsGrow(y: int, z: int)
    requires y < z
    ensures DaysToYear(y) + YearDays(y) <= DaysToYear(z)
    decreases z - y
  {
    assert DaysToYear(y + 1) == DaysToYear(y) + YearDays(y);
    if y + 1 < z {
      YearsGrow(y + 1, z);
    }
  }

  lemma {:induction false} MonthsGrow(y: int, m: nat, n: nat)
    requires m < n <= 12
    ensures DaysToMonth(y, m) + MonthDays(y, m) <= DaysToMonth(y, n)
    decreases n - m
  {
    assert DaysToMonth(y, m + 1) == DaysToMonth(y, m) + MonthDays(y, m);
    if m + 1 < n {
      MonthsGrow(y, m + 1, n);
    }
  }

  /** A day lies in its year. */
  lemma DayInYear(tm: Tm)
    requires RealDay(tm)
    ensures DaysToYear(1900 + tm.year) <= DayNumber(tm) < DaysToYear(1900 + tm.year) + YearDays(1900 + tm.year)
  {
    MonthsGrow(1900 + tm.year, tm.mon, 12);
    MonthsFillYear(1900 + tm.year);
  }

  lemma EarlierDay(a: Tm, b: Tm)
    requires RealDay(a) && RealDay(b)
    requires a.year < b.year || (a.year == b.year && (a.mon < b.mon || (a.mon == b.mon && a.mday < b.mday)))
    ensures DayNumber(a) < DayNumber(b)
  {
    if a.year < b.year {
      DayInYear(a);
      DayInYear(b);
      YearsGrow(1900 + a.year, 1900 + b.year);
    } else if a.mon < b.mon {
      MonthsGrow(1900 + a.year, a.mon, b.mon);
    }
  }

  /** The order of the fields is the order of time. */
  lemma Earlier(a: Tm, b: Tm)
    requires RealTime(a) && RealTime(b) && Compare(a, b) < 0
    ensures Seconds(a) < Seconds(b)
  {
    if (a.year, a.mon, a.mday) != (b.year, b.mon, b.mday) {
      EarlierDay(a, b);
    }
  }

  function Pow2(n: nat): (p: int)
    ensures p > 0
  {
    if n == 0 then 1 else 2 * Pow2(n - 1)
  }

  /** How many bits of a time the search looks at. */
  const BITS: nat := 40
  const REACH: int := 0x100_0000_0000

  lemma ReachIs()
    ensures Pow2(BITS) == REACH
  {
    assert Pow2(10) == 1024;
    assert Pow2(20) == 1024 * Pow2(10);
    assert Pow2(30) == 1024 * Pow2(20);
    assert Pow2(40) == 1024 * Pow2(30);
  }

  /** The minute that the fields name, if they name one within reach of the search. */
  predicate NamesMinute(tm: Tm) {
    RealTime(tm.(sec := 0)) && -REACH <= Seconds(tm.(sec := 0)) < REACH
  }

  /** mkgmtime: the seconds are added to the minute that the other fields name; -1: they name none. */
  function MkGmTime(tm: Tm): int {
    if NamesMinute(tm) then Seconds(tm.(sec := 0)) + tm.sec else -1
  }

  /** Where a time can still be when `bits` bits are left. */
  predicate Near(s: int, t: int, bits: int) {
    if bits < 0 then s == t else t - Pow2(bits) <= s < t + Pow2(bits)
  }

  predicate InReach(t: int, bits: int)
    requires bits <= BITS
  {
    if bits < 0 then -REACH <= t < REACH else -REACH + Pow2(bits) <= t <= REACH - Pow2(bits)
  }

  lemma Compared(t: int, tm: Tm)
    requires RealTime(tm)
    ensures Compare(GmTime(t), tm) < 0 ==> t < Seconds(tm)
    ensures Compare(GmTime(t), tm) > 0 ==> t > Seconds(tm)
    ensures Compare(GmTime(t), tm) == 0 ==> t == Seconds(tm)
  {
    GmTimeMeans(t);
    if Compare(GmTime(t), tm) < 0 {
      Earlier(GmTime(t), tm);
    } else if Compare(GmTime(t), tm) > 0 {
      Earlier(tm, GmTime(t));
    }
  }

  /** The binary search for the minute: each time the fields of a guess are compared with the wanted ones. */
  method SearchGmTime(tm: Tm) returns (t: int)
    ensures t == MkGmTime(tm)
  {
    var yourtm, bits: int := tm.(sec := 0), BITS;
    t := 0;
    ReachIs();
    var dir := Compare(GmTime(t), yourtm);
    while dir != 0
      invariant -1 <= bits <= BITS && dir == Compare(GmTime(t), yourtm) && InReach(t, bits)
      invariant NamesMinute(tm) ==> Near(Seconds(yourtm), t, bits)
      decreases bits
    {
      if NamesMinute(tm) {
        Compared(t, yourtm);
      }
      if bits < 0 {
        return -1;
      }
      bits := bits - 1;
      if bits < 0 {
        t := t - 1;
      } else if dir > 0 {
        t := t - Pow2(bits);
      } else {
        t := t + Pow2(bits);
      }
      dir := Compare(GmTime(t), yourtm);
    }
    GmTimeMeans(t);
    t := t + tm.sec;
  }

  /** mkgmtime undoes gmtime as far as it reaches, and further only where its failure looks like the time. */
  lemma MkGmTimeOfGmTimeIff(t: int)
    ensures MkGmTime(GmTime(t)) == t <==> -REACH <= t - t % 60 < REACH || t == -1
  {
    GmTimeMeans(t);
    MinuteOf(GmTime(t));
  }

  lemma MinuteOf(tm: Tm)
    requires RealTime(tm)
    ensures Seconds(tm.(sec := 0)) == Seconds(tm) - Seconds(tm) % 60 && tm.sec == Seconds(tm) % 60
  {
    SecondOf((DayNumber(tm) * 24 + tm.hour) * 60 + tm.min, tm.sec);
  }

  lemma SecondOf(minutes: int, sec: nat)
    requires sec < 60
    ensures (minutes * 60 + sec) % 60 == sec
  {
  }

  /** From 1969 to 9999 everything is within reach. */
  lemma WithinReach(tm: Tm)
    requires RealTime(tm) && 69 <= tm.year <= 8099
    ensures -REACH <= Seconds(tm) - 60 && Seconds(tm) < REACH
  {
    DayInYear(tm);
    YearsBounded(1900 + tm.year);
  }

  lemma {:induction false} YearsBounded(y: int)
    requires y >= 1969
    ensures -365 + 365 * (y - 1969) <= DaysToYear(y) <= 366 * (y - 1969)
  {
    if y > 1970 {
      YearsBounded(y - 1);
    } else if y == 1969 {
      assert DaysToYear(1970) == DaysToYear(1969) + YearDays(1969);
    }
  }
}
