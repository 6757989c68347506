/**
 Internal dates: cyrus_ctime prints a time as a date-time (section 9 of RFC 3501), and getdatetime reads one, or
 one in the older format with a two-digit year and a named zone.
 */
module DateTime {
  import opened Wrappers
  import opened Decimal
  import opened Letters
  import opened ProtStream
  import opened WireStrings
  import opened Calendar

  const MONTHS: seq<string> :=
    ["Jan", "Feb", "Mar", "Apr", "May", "Jun", "Jul", "Aug", "Sep", "Oct", "Nov", "Dec"]

  const MAX_MONTHDAYS: seq<nat> := [31, 29, 31, 30, 31, 30, 31, 31, 30, 31, 30, 31]

  predicate IsAlpha(c: char) {
    'a' <= c <= 'z' || 'A' <= c <= 'Z'
  }

  /** The zone of a date-time: an offset, or in the older format a name. */
  datatype Zone = Offset(sign: char, hhmm: string) | Named(name: string)

  /** The parts of a date-time as they are written. */
  datatype Stamp = Stamp(day: string, month: string, year: string, hour: string, minute: string, second: string, zone: Zone)

  predicate Digits(s: string, n: nat) {
    |s| == n && AllDigits(s)
  }

  predicate DaySyntax(s: string) {
    && 1 <= |s| <= 2 && (s[0] == ' ' || IsDigit(s[0])) && (|s| == 2 ==> IsDigit(s[1]))
  }

  predicate MonthSyntax(s: string) {
    |s| == 3 && IsAlpha(s[0]) && IsAlpha(s[1]) && IsAlpha(s[2])
  }

  predicate NameSyntax(s: string) {
    1 <= |s| <= 3 && IsAlpha(s[0]) && '"' !in s
  }

  predicate Syntax(st: Stamp) {
    && DaySyntax(st.day) && MonthSyntax(st.month)
    && Digits(st.year, if st.zone.Offset? then 4 else 2)
    && Digits(st.hour, 2) && Digits(st.minute, 2) && Digits(st.second, 2)
    && match st.zone
       case Offset(sign, hhmm) => (sign == '+' || sign == '-') && Digits(hhmm, 4)
       case Named(name) => NameSyntax(name)
  }

  /** How the parts may be written: days with a space for a missing digit, names of at most three characters. */
  lemma SyntaxIs(s: string)
    ensures DaySyntax(s) <==> && (|s| == 1 || |s| == 2) && (s[0] == ' ' || '0' <= s[0] <= '9') && (|s| == 2 ==> '0' <= s[1] <= '9')
    ensures MonthSyntax(s) <==>
            |s| == 3 && forall i :: 0 <= i < 3 ==> 'a' <= s[i] <= 'z' || 'A' <= s[i] <= 'Z'
    ensures NameSyntax(s) <==>
            && 1 <= |s| <= 3 && ('a' <= s[0] <= 'z' || 'A' <= s[0] <= 'Z')
            && forall i :: 0 <= i < |s| ==> s[i] != '"'
  {
  }

  /** The rest of a text from the zone, the time, the year, the month or the day on, up to the closing quote. */
  function FromZone(z: Zone, rest: string): string {
    match z
    case Offset(sign, hhmm) => [' '] + ([sign] + (hhmm + (['"'] + rest)))
    case Named(name) => ['-'] + (name + (['"'] + rest))
  }

  function FromTime(st: Stamp, rest: string): string {
    [' '] + (st.hour + ([':'] + (st.minute + ([':'] + (st.second + FromZone(st.zone, rest))))))
  }

  function FromDay(st: Stamp, rest: string): string {
    st.day + (['-'] + (st.month + (['-'] + (st.year + FromTime(st, rest)))))
  }

  /** A date-time as a quoted string, and what follows it. */
  function Text(st: Stamp, rest: string): string {
    ['"'] + FromDay(st, rest)
  }

  /** The names of the months, and how many days each may have. */
  lemma MonthsAre()
    ensures MONTHS[0] == "Jan" && MONTHS[1] == "Feb" && MONTHS[2] == "Mar" && MONTHS[3] == "Apr" && MONTHS[4] == "May"
    ensures MONTHS[5] == "Jun" && MONTHS[6] == "Jul" && MONTHS[7] == "Aug" && MONTHS[8] == "Sep" && MONTHS[9] == "Oct"
    ensures MONTHS[10] == "Nov" && MONTHS[11] == "Dec"
    ensures MAX_MONTHDAYS == [31, 29, 31, 30, 31, 30, 31, 31, 30, 31, 30, 31]
  {
  }

  function NumberOf(s: string): nat {
    if AllDigits(s) then Value(s) else 0
  }

  function DayOf(s: string): nat {
    if s != "" && s[0] == ' ' then NumberOf(s[1..]) else NumberOf(s)
  }

  function MonthIndex(s: string, m: nat): nat
    requires m <= 12
    decreases 12 - m
  {
    if m == 12 || Lowered(MONTHS[m]) == Lowered(s) then m else MonthIndex(s, m + 1)
  }

  /** Minutes east of Greenwich, as the code has it: daylight saving is taken off and UT is refused. */
  function ZoneOffset(z: Zone): Option<int> {
    match z
    case Offset(sign, hhmm) =>
      if |hhmm| != 4 then None
      else
        var n := NumberOf(hhmm[..2]) * 60 + NumberOf(hhmm[2..]);
        Some(if sign == '-' then -n else n)
    case Named(name) => NamedOffset(Lowered(name))
  }

  const ZONES: string := "aecmpyhb"

  function ZoneIndex(c: char, i: nat): nat
    requires i <= 8
    decreases 8 - i
  {
    if i == 8 || ZONES[i] == c then i else ZoneIndex(c, i + 1)
  }

  function NamedOffset(s: string): Option<int> {
    if |s| == 1 then
      Some(if s[0] <= 'm' then (s[0] as int - 'a' as int + 1) * 60
           else if s[0] < 'z' then ('m' as int - s[0] as int) * 60
           else 0)
    else if |s| == 2 then (if s == "ut" then None else Some(0))
    else if |s| == 3 then
      var i := ZoneIndex(s[0], 0);
      if i == 8 || s[2] != 't' || (s[1] != 'd' && s[1] != 's') then None
      else Some((8 - i - 12) * 60 - (if s[1] == 'd' then 60 else 0))
    else None
  }

  /**
   What a zone name means, as the parser of Date headers has it: military letters without J, universal time by its two
   names, and the zones of North America, an hour ahead in summer.
   */
  function ZoneMeaning(s: string): Option<int> {
    if |s| == 1 then
      if s[0] == 'j' then None
      else Some(if s[0] < 'j' then (s[0] as int - 'a' as int + 1) * 60
                else if s[0] <= 'm' then (s[0] as int - 'a' as int) * 60
                else if s[0] < 'z' then ('m' as int - s[0] as int) * 60
                else 0)
    else if s == "ut" || s == "gmt" then Some(0)
    else if |s| == 3 && IsNorthAmerican(s) then Some((8 - ZoneIndex(s[0], 0) - 12) * 60 + (if s[1] == 'd' then 60 else 0))
    else None
  }

  predicate IsNorthAmerican(s: string)
    requires |s| == 3
  {
    ZoneIndex(s[0], 0) < 8 && (s[1] == 's' || s[1] == 'd') && s[2] == 't'
  }

  /** getdatetime takes a name for what it means exactly if it is none of J to M, no two-letter name, not GMT and no
      daylight saving time. */
  lemma NamedOffsetIff(name: string)
    requires NameSyntax(name)
    ensures var s := Lowered(name);
            NamedOffset(s) == ZoneMeaning(s) <==>
            && (|s| == 1 ==> !('j' <= s[0] <= 'm')) && |s| != 2 && s != "gmt"
            && (|s| == 3 ==> !(IsNorthAmerican(s) && s[1] == 'd'))
  {
    var s := Lowered(name);
    if |s| == 3 {
      ZoneIndexIs(s[0], 0);
    }
  }

  lemma {:induction false} ZoneIndexIs(c: char, i: nat)
    requires i <= 8
    ensures i <= ZoneIndex(c, i) <= 8 && (ZoneIndex(c, i) < 8 ==> ZONES[ZoneIndex(c, i)] == c)
    decreases 8 - i
  {
    if i < 8 && ZONES[i] != c {
      ZoneIndexIs(c, i + 1);
    }
  }

  /** Names that mean what they are read as: an hour to the east, the ends of the alphabet, and the winter time of the coasts. */
  lemma GoodZones()
    ensures NamedOffset(Lowered("A")) == Some(60) && NamedOffset(Lowered("I")) == Some(540)
    ensures NamedOffset(Lowered("N")) == Some(-60) && NamedOffset(Lowered("Y")) == Some(-720) && NamedOffset(Lowered("z")) == Some(0)
    ensures NamedOffset(Lowered("EST")) == Some(-300) && NamedOffset(Lowered("PST")) == Some(-480)
  {
    assert Lowered("A") == "a" && Lowered("I") == "i" && Lowered("N") == "n" && Lowered("Y") == "y" && Lowered("z") == "z";
    assert Lowered("EST") == "est" && Lowered("PST") == "pst";
    assert ZoneIndex('p', 0) == 4;
  }

  /** One name of every kind that is misread: refused, made up, or off by two hours. */
  lemma MisreadZones()
    ensures NamedOffset(Lowered("UT")) == None && ZoneMeaning(Lowered("UT")) == Some(0)
    ensures NamedOffset(Lowered("GMT")) == None && ZoneMeaning(Lowered("GMT")) == Some(0)
    ensures NamedOffset(Lowered("XX")) == Some(0) && ZoneMeaning(Lowered("XX")) == None
    ensures NamedOffset(Lowered("EDT")) == Some(-360) && ZoneMeaning(Lowered("EDT")) == Some(-240)
  {
    assert Lowered("UT") == "ut" && Lowered("XX") == "xx" && Lowered("GMT") == "gmt" && Lowered("EDT") == "edt";
    assert ZoneIndex('g', 0) == 8 by {
      ZoneIndexIs('g', 0);
    }
    assert ZoneIndex('e', 0) == 1;
  }

  /** The letters that are misread: one that means nothing, and three that are an hour too far. */
  lemma MisreadLetters()
    ensures NamedOffset(Lowered("J")) == Some(600) && ZoneMeaning(Lowered("J")) == None
    ensures NamedOffset(Lowered("K")) == Some(660) && ZoneMeaning(Lowered("K")) == Some(600)
    ensures NamedOffset(Lowered("L")) == Some(720) && ZoneMeaning(Lowered("L")) == Some(660)
    ensures NamedOffset(Lowered("M")) == Some(780) && ZoneMeaning(Lowered("M")) == Some(720)
  {
    assert Lowered("J") == "j" && Lowered("K") == "k" && Lowered("L") == "l" && Lowered("M") == "m";
  }

  /** The seconds are not checked: a date-time that is accepted is a real time exactly if they are below 60. */
  lemma RealTimeIff(st: Stamp)
    requires Syntax(st) && Denotes(st).Some?
    ensures RealTime(TmOf(st)) <==> NumberOf(st.second) < 60
  {
    hide MonthIndex, ZoneOffset, NumberOf, DayOf, YearOf;
  }

  /** 99 seconds past midnight on 1 January 1980. */
  const LATE: Stamp := Stamp("01", "Jan", "1980", "00", "00", "99", Offset('+', "0000"))

  lemma LateFields()
    ensures Syntax(LATE) && TmOf(LATE) == Tm(80, 0, 1, 0, 0, 99)
    ensures DateChecks(LATE.day, LATE.month, LATE.year) && ClockChecks(LATE.hour, LATE.minute)
  {
    TwoIs("01", 1);
    TwoIs("00", 0);
    TwoIs("99", 99);
    TwoIs("19", 19);
    TwoIs("80", 80);
    assert "1980"[..2] == "19" && "1980"[2..] == "80";
    MonthFound(0, 0);
  }

  /** It is accepted, as 39 seconds past the next minute. */
  lemma SecondsUnchecked()
    ensures Syntax(LATE) && !RealTime(TmOf(LATE))
    ensures Denotes(LATE) == Some(MkGmTime(Tm(80, 0, 1, 0, 1, 39)))
  {
    LateFields();
    LateSeconds();
    LateZone();
  }

  lemma LateZone()
    ensures ZoneOffset(LATE.zone) == Some(0)
  {
    assert "0000"[..2] == "00" && "0000"[2..] == "00";
    TwoIs("00", 0);
  }

  lemma LateSeconds()
    ensures MkGmTime(Tm(80, 0, 1, 0, 0, 99)) == MkGmTime(Tm(80, 0, 1, 0, 1, 39)) > 0
  {
    YearsBounded(1980);
  }

  lemma TwoIs(s: string, n: nat)
    requires Digits(s, 2) && n == DigitValue(s[0]) * 10 + DigitValue(s[1])
    ensures NumberOf(s) == n
  {
    assert s[..1] == [s[0]] && s[..1][..0] == "";
    assert Value(s[..1]) == DigitValue(s[0]);
  }

  /** The year in struct tm; two digits are years of the 20th century. */
  function YearOf(s: string): int {
    if |s| == 4 then (NumberOf(s[..2]) - 19) * 100 + NumberOf(s[2..]) else NumberOf(s)
  }

  /** The year, counted from 1900: of two digits it is the number. */
  lemma YearIs(a: string, b: string)
    requires Digits(a, 2) && Digits(b, 2)
    ensures YearOf(b) == Value(b)
    ensures YearOf(a + b) == 100 * Value(a) + Value(b) - 1900
  {
    assert (a + b)[..2] == a && (a + b)[2..] == b;
  }

  /** The checks on the date and on the clock; the seconds are not checked. */
  predicate DayMonthChecks(day: string, month: string) {
    && (|day| == 2 ==> 1 <= DayOf(day) <= 31) && MonthIndex(month, 0) < 12
    && DayOf(day) <= MAX_MONTHDAYS[MonthIndex(month, 0)]
  }

  predicate DateChecks(day: string, month: string, year: string) {
    DayMonthChecks(day, month) && YearOf(year) >= 0
  }

  predicate ClockChecks(hour: string, minute: string) {
    NumberOf(hour) <= 23 && NumberOf(minute) <= 59
  }

  function TmOf(st: Stamp): Tm {
    Tm(YearOf(st.year), MonthIndex(st.month, 0), DayOf(st.day),
       NumberOf(st.hour), NumberOf(st.minute), NumberOf(st.second))
  }

  /** A local time, if there is one, in its zone. */
  function ReadAs(t: int, checked: bool, zone: Option<int>): Option<int> {
    if !checked || zone.None? || t == -1 then None else Some(t - zone.value * 60)
  }

  /** What a date-time is read as; None: it is refused. */
  function Denotes(st: Stamp): Option<int> {
    ReadAs(MkGmTime(TmOf(st)), DateChecks(st.day, st.month, st.year) && ClockChecks(st.hour, st.minute), ZoneOffset(st.zone))
  }

  /** "%.2u" of a number below 100. */
  function Two(n: nat): (s: string)
    requires n < 100
    ensures Digits(s, 2) && Value(s) == n
  {
    var s := [DigitChar(n / 10), DigitChar(n % 10)];
    assert s[..1] == [DigitChar(n / 10)] && s[..1][..0] == "";
    assert Value(s[..1]) == n / 10;
    s
  }

  function Four(n: nat): (s: string)
    requires n < 10000
    ensures Digits(s, 4) && s[..2] == Two(n / 100) && s[2..] == Two(n % 100)
  {
    Two(n / 100) + Two(n % 100)
  }

  /** "%2u" */
  function DayText(d: nat): (s: string)
    requires 1 <= d <= 31
    ensures DaySyntax(s) && |s| == 2 && DayOf(s) == d
  {
    if d < 10 then
      assert Value([DigitChar(d)]) == d by {
        assert [DigitChar(d)][..0] == "";
      }
      [' ', DigitChar(d)]
    else Two(d)
  }

  /** Every year before 10000 is printed with four digits, and every zone below 100 hours. */
  const MAX_OFFSET: int := 100 * 3600
  const MAX_YEAR: int := 9999 - 1900

  /** A time with a four-digit year, and not one that the server refuses to handle. */
  predicate InFourDigits(tm: Tm) {
    RealTime(tm) && 69 <= tm.year <= MAX_YEAR
  }

  function Minutes(gmtoff: int): nat {
    (if gmtoff < 0 then -gmtoff else gmtoff) / 60
  }

  /** How cyrus_ctime writes the parts of a time. */
  function StampOf(tm: Tm, gmtoff: int): (st: Stamp)
    requires InFourDigits(tm) && -MAX_OFFSET < gmtoff < MAX_OFFSET
    ensures Syntax(st)
  {
    var m := Minutes(gmtoff);
    Stamp(DayText(tm.mday), MONTHS[tm.mon], Four(1900 + tm.year), Two(tm.hour), Two(tm.min), Two(tm.sec),
          Offset(if gmtoff < 0 then '-' else '+', Four(m / 60 * 100 + m % 60)))
  }

  lemma MonthFound(m: nat, i: nat)
    requires i <= m < 12
    ensures MonthIndex(MONTHS[m], i) == m
    decreases m - i
  {
    if i < m {
      assert Lowered(MONTHS[i])[0] != Lowered(MONTHS[m])[0] || Lowered(MONTHS[i])[1] != Lowered(MONTHS[m])[1]
             || Lowered(MONTHS[i])[2] != Lowered(MONTHS[m])[2];
      MonthFound(m, i + 1);
    }
  }

  /** The zone as it is printed and read: whole minutes. */
  function ZoneMinutes(gmtoff: int): int {
    var m: int := Minutes(gmtoff);
    if gmtoff < 0 then -m else m
  }

  lemma ZoneRead(gmtoff: int)
    requires -MAX_OFFSET < gmtoff < MAX_OFFSET
    ensures var m := Minutes(gmtoff);
            ZoneOffset(Offset(if gmtoff < 0 then '-' else '+', Four(m / 60 * 100 + m % 60))) == Some(ZoneMinutes(gmtoff))
  {
    var m := Minutes(gmtoff);
    assert (m / 60 * 100 + m % 60) / 100 == m / 60 && (m / 60 * 100 + m % 60) % 100 == m % 60;
  }

  lemma DateRead(tm: Tm)
    requires InFourDigits(tm)
    ensures DateChecks(DayText(tm.mday), MONTHS[tm.mon], Four(1900 + tm.year))
    ensures YearOf(Four(1900 + tm.year)) == tm.year && MonthIndex(MONTHS[tm.mon], 0) == tm.mon
  {
    MonthFound(tm.mon, 0);
    assert (1900 + tm.year) / 100 == 19 + tm.year / 100 && (1900 + tm.year) % 100 == tm.year % 100;
  }

  lemma StampDenotes(tm: Tm, gmtoff: int)
    requires InFourDigits(tm) && -MAX_OFFSET < gmtoff < MAX_OFFSET
    ensures Denotes(StampOf(tm, gmtoff)) == ReadAs(MkGmTime(tm), true, Some(ZoneMinutes(gmtoff)))
  {
    DateRead(tm);
    ZoneRead(gmtoff);
    assert TmOf(StampOf(tm, gmtoff)) == tm;
  }

  lemma ReadAsIff(t: int, date: int, gmtoff: int)
    requires t == date + gmtoff
    ensures ReadAs(t, true, Some(ZoneMinutes(gmtoff))) == Some(date) <==> gmtoff % 60 == 0 && t != -1
  {
    assert ZoneMinutes(gmtoff) * 60 == gmtoff <==> gmtoff % 60 == 0;
  }

  lemma RoundTripOf(tm: Tm, date: int, gmtoff: int)
    requires InFourDigits(tm) && -MAX_OFFSET < gmtoff < MAX_OFFSET && MkGmTime(tm) == date + gmtoff
    ensures Denotes(StampOf(tm, gmtoff)) == Some(date) <==> gmtoff % 60 == 0 && date + gmtoff != -1
  {
    ReadAsIff(MkGmTime(tm), date, gmtoff);
    StampDenotes(tm, gmtoff);
  }

  /** A time survives printing and reading exactly if the zone is a whole number of minutes and the local time is not
      the last second of 1969, which mkgmtime cannot tell from a failure. */
  lemma RoundTripIff(date: int, gmtoff: int)
    requires InFourDigits(GmTime(date + gmtoff)) && -MAX_OFFSET < gmtoff < MAX_OFFSET
    ensures Denotes(StampOf(GmTime(date + gmtoff), gmtoff)) == Some(date) <==> gmtoff % 60 == 0 && date + gmtoff != -1
  {
    var tm := GmTime(date + gmtoff);
    GmTimeMeans(date + gmtoff);
    WithinReach(tm);
    MkGmTimeOfGmTimeIff(date + gmtoff);
    RoundTripOf(tm, date, gmtoff);
  }

  /** The same date and clock further east is an earlier time, by as many hours and minutes as the offset has; further west
      it is a later one. */
  lemma EastIsEarlier(st: Stamp, hh: string, mm: string)
    requires Digits(hh, 2) && Digits(mm, 2) && Denotes(st.(zone := Offset('+', "0000"))).Some?
    ensures var t := Denotes(st.(zone := Offset('+', "0000"))).value;
            && Denotes(st.(zone := Offset('+', hh + mm))) == Some(t - 3600 * Value(hh) - 60 * Value(mm))
            && Denotes(st.(zone := Offset('-', hh + mm))) == Some(t + 3600 * Value(hh) + 60 * Value(mm))
  {
    hide MkGmTime, YearOf, MonthIndex, DayOf, DateChecks, ClockChecks, NumberOf, Value;
    OffsetIs("00", "00");
    assert "00" + "00" == "0000";
    TwoIs("00", 0);
    assert Value("00") == 0 by {
      NumberIs("00");
    }
    OffsetIs(hh, mm);
  }

  lemma NumberIs(s: string)
    requires AllDigits(s)
    ensures NumberOf(s) == Value(s)
  {
  }

  lemma OffsetIs(hh: string, mm: string)
    requires Digits(hh, 2) && Digits(mm, 2)
    ensures ZoneOffset(Offset('+', hh + mm)) == Some(60 * Value(hh) + Value(mm))
    ensures ZoneOffset(Offset('-', hh + mm)) == Some(-60 * Value(hh) - Value(mm))
  {
    assert (hh + mm)[..2] == hh && (hh + mm)[2..] == mm;
  }

  /** Which days, months, hours and minutes are accepted; a month may be written in any case. */
  lemma ChecksAre(day: string, month: string, m: nat, hour: string, minute: string)
    requires m < 12 && Lowered(month) == Lowered(MONTHS[m]) && Digits(day, 2) && Digits(hour, 2) && Digits(minute, 2)
    ensures DayMonthChecks(day, month) <==> 1 <= Value(day) <= [31, 29, 31, 30, 31, 30, 31, 31, 30, 31, 30, 31][m]
    ensures ClockChecks(hour, minute) <==> Value(hour) < 24 && Value(minute) < 60
  {
    SameMonth(month, MONTHS[m], 0);
    MonthFound(m, 0);
  }

  lemma {:induction false} SameMonth(a: string, b: string, i: nat)
    requires i <= 12 && Lowered(a) == Lowered(b)
    ensures MonthIndex(a, i) == MonthIndex(b, i)
    decreases 12 - i
  {
    if i < 12 {
      SameMonth(a, b, i + 1);
    }
  }
}
