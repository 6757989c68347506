/**
 cyrus_ctime, which writes a date-time into the caller's buffer, and what getdatetime makes of what it wrote.
 */
module DateWriter {
  import opened Wrappers
  import opened Decimal
  import opened Calendar
  import opened DateTime
  import opened DateParse
  import opened DateReader

  /** "%.2lu" */
  function Hours(n: nat): string {
    if n < 100 then Two(n) else Print(n)
  }

  /** The day, the month and a dash; the year is next. */
  function DayPart(tm: Tm): string
    requires RealTime(tm)
  {
    DayText(tm.mday) + ['-'] + MONTHS[tm.mon] + ['-']
  }

  function ClockPart(tm: Tm): string
    requires RealTime(tm)
  {
    [' '] + Two(tm.hour) + [':'] + Two(tm.min) + [':'] + Two(tm.sec)
  }

  function ZonePart(gmtoff: int): string {
    [' '] + [if gmtoff < 0 then '-' else '+'] + (Hours(Minutes(gmtoff) / 60) + Two(Minutes(gmtoff) % 60))
  }

  /** The local time `tm`, in a zone of `gmtoff` seconds. */
  function CTime(tm: Tm, gmtoff: int): string
    requires RealTime(tm) && tm.year >= 69
  {
    DayPart(tm) + Print(1900 + tm.year) + ClockPart(tm) + ZonePart(gmtoff)
  }

  /** How days, months and clocks are written. */
  lemma WrittenTimes()
    ensures DayPart(Tm(80, 0, 1, 2, 3, 4)) == " 1-Jan-" && ClockPart(Tm(80, 0, 1, 2, 3, 4)) == " 02:03:04"
    ensures DayPart(Tm(99, 11, 31, 23, 59, 58)) == "31-Dec-" && ClockPart(Tm(99, 11, 31, 23, 59, 58)) == " 23:59:58"
  {
  }

  /** And zones: an hour to the east, and five and a half to the west. */
  lemma WrittenZones()
    ensures ZonePart(3600) == " +0100" && ZonePart(-19800) == " -0530"
  {
  }

  /** The year stands between the day and the clock, and the zone comes last. */
  lemma WrittenParts(tm: Tm, gmtoff: int)
    requires InFourDigits(tm) && -MAX_OFFSET < gmtoff < MAX_OFFSET
    ensures var text := CTime(tm, gmtoff);
            && |text| == 26 && text[..7] == DayPart(tm) && AllDigits(text[7..11]) && Value(text[7..11]) == 1900 + tm.year
            && text[11..20] == ClockPart(tm) && text[20..] == ZonePart(gmtoff)
  {
    CTimeFits(tm, gmtoff);
    YearDigits(1900 + tm.year);
    PrintThenRead(1900 + tm.year);
    Parts(DayPart(tm), Print(1900 + tm.year), ClockPart(tm), ZonePart(gmtoff));
  }

  lemma Parts(a: string, b: string, c: string, d: string)
    ensures var t := a + b + c + d;
            && t[..|a|] == a && t[|a|..|a| + |b|] == b && t[|a| + |b|..|a| + |b| + |c|] == c && t[|a| + |b| + |c|..] == d
  {
  }

  /** cyrus_ctime: the local time goes into the buffer, unless it is one the server refuses to handle. */
  method CyrusCtime(date: int, gmtoff: int, datebuf: array<char>) returns (aborted: bool)
    requires GmTime(date + gmtoff).year >= 69 ==> |CTime(GmTime(date + gmtoff), gmtoff)| < datebuf.Length
    modifies datebuf
    ensures aborted <==> date == 0 || GmTime(date + gmtoff).year < 69
    ensures aborted ==> datebuf[..] == old(datebuf[..])
    ensures !aborted ==>
              var text := CTime(GmTime(date + gmtoff), gmtoff);
              datebuf[..|text| + 1] == text + ['\0'] && datebuf[|text| + 1..] == old(datebuf[|text| + 1..])
  {
    var tm := GmTime(date + gmtoff);
    aborted := date == 0 || tm.year < 69;
    if !aborted {
      PrintTime(tm, gmtoff, datebuf);
    }
  }

  method PrintTime(tm: Tm, gmtoff: int, datebuf: array<char>)
    requires RealTime(tm) && tm.year >= 69 && |CTime(tm, gmtoff)| < datebuf.Length
    modifies datebuf
    ensures datebuf[..|CTime(tm, gmtoff)| + 1] == CTime(tm, gmtoff) + ['\0']
    ensures datebuf[|CTime(tm, gmtoff)| + 1..] == old(datebuf[|CTime(tm, gmtoff)| + 1..])
  {
    var offset, sign := gmtoff, '+';
    if offset < 0 {
      offset, sign := -offset, '-';
    }
    offset := offset / 60;
    var zone := [' '] + [sign] + (Hours(offset / 60) + Two(offset % 60));
    assert zone == ZonePart(gmtoff);
    PutString(datebuf, DayPart(tm) + Print(1900 + tm.year) + ClockPart(tm) + zone);
  }

  /** The text and a NUL. */
  method PutString(datebuf: array<char>, text: string)
    requires |text| < datebuf.Length
    modifies datebuf
    ensures datebuf[..|text| + 1] == text + ['\0']
    ensures datebuf[|text| + 1..] == old(datebuf[|text| + 1..])
  {
    var i := 0;
    while i < |text|
      invariant 0 <= i <= |text| && datebuf[..i] == text[..i]
      invariant datebuf[|text| + 1..] == old(datebuf[|text| + 1..])
    {
      datebuf[i] := text[i];
      i := i + 1;
    }
    datebuf[i] := '\0';
  }

  /** Up to 9999 and below 100 hours the text and its NUL need 27 of the 30 bytes. */
  lemma CTimeFits(tm: Tm, gmtoff: int)
    requires InFourDigits(tm) && -MAX_OFFSET < gmtoff < MAX_OFFSET
    ensures |CTime(tm, gmtoff)| == 26
  {
    YearDigits(1900 + tm.year);
  }

  /** The year is printed as four digits exactly if it is below 10000. */
  lemma YearDigits(y: nat)
    requires y >= 1000
    ensures y < 10000 ==> Print(y) == Four(y)
    ensures y >= 10000 ==> |Print(y)| >= 5
  {
    FourDigits(y);
    if y >= 10000 {
      LongPrint(y, 4);
    }
  }

  lemma FourDigits(y: nat)
    requires y >= 1000
    ensures y < 10000 ==> Print(y) == Four(y)
  {
    LastTwo(y);
    if y < 10000 {
      FirstTwo(y / 100);
    }
  }

  lemma LastTwo(y: nat)
    requires y >= 100
    ensures Print(y) == Print(y / 100) + Two(y % 100)
  {
    assert Print(y) == Print(y / 10) + [DigitChar(y % 10)];
    assert Print(y / 10) == Print(y / 100) + [DigitChar(y / 10 % 10)];
    assert y % 100 / 10 == y / 10 % 10 && y % 100 % 10 == y % 10;
  }

  lemma FirstTwo(n: nat)
    requires 10 <= n < 100
    ensures Print(n) == Two(n)
  {
    assert Print(n / 10) == [DigitChar(n / 10)];
  }

  lemma ZoneDigits(gmtoff: int)
    requires -MAX_OFFSET < gmtoff < MAX_OFFSET
    ensures var m := Minutes(gmtoff); Hours(m / 60) + Two(m % 60) == Four(m / 60 * 100 + m % 60)
  {
    var m := Minutes(gmtoff);
    assert (m / 60 * 100 + m % 60) / 100 == m / 60 && (m / 60 * 100 + m % 60) % 100 == m % 60;
  }

  /** What cyrus_ctime wrote, quoted. */
  function Quoted(tm: Tm, gmtoff: int, rest: string): string
    requires RealTime(tm) && tm.year >= 69
  {
    ['"'] + CTime(tm, gmtoff) + ['"'] + rest
  }

  /**
   What cyrus_ctime wrote is read as the same time again, up to the closing quote, exactly if the zone is a whole
   number of minutes below 100 hours, the year has four digits and the local time is not the last second of 1969.
   */
  lemma PrintedDateIsRead(date: int, gmtoff: int, rest: string)
    requires GmTime(date + gmtoff).year >= 69
    ensures DateTimeAt(Quoted(GmTime(date + gmtoff), gmtoff, rest)) == Some((date, rest))
            <==> && gmtoff % 60 == 0 && date + gmtoff != -1
                 && GmTime(date + gmtoff).year <= MAX_YEAR && -MAX_OFFSET < gmtoff < MAX_OFFSET
  {
    var tm := GmTime(date + gmtoff);
    if tm.year > MAX_YEAR {
      LongYearRefused(tm, gmtoff, rest);
    } else if -MAX_OFFSET < gmtoff < MAX_OFFSET {
      QuotedIsText(tm, gmtoff, rest);
      StampAtText(StampOf(tm, gmtoff), rest);
      RoundTripIff(date, gmtoff);
    } else {
      LongZoneRefused(tm, gmtoff, rest);
    }
  }

  lemma QuotedIsText(tm: Tm, gmtoff: int, rest: string)
    requires InFourDigits(tm) && -MAX_OFFSET < gmtoff < MAX_OFFSET
    ensures Quoted(tm, gmtoff, rest) == Text(StampOf(tm, gmtoff), rest)
  {
    var st := StampOf(tm, gmtoff);
    ZoneDigits(gmtoff);
    YearDigits(1900 + tm.year);
    Flatten(st.day, st.month, st.year, st.hour, st.minute, st.second, st.zone.sign, st.zone.hhmm, rest);
  }

  lemma Flatten(a: string, b: string, c: string, d: string, e: string, f: string, s: char, z: string, rest: string)
    ensures ['"'] + ((a + ['-'] + b + ['-']) + c + ([' '] + d + [':'] + e + [':'] + f) + ([' '] + [s] + z)) + ['"'] + rest ==
            ['"'] + (a + (['-'] + (b + (['-'] + (c + ([' '] + (d + ([':'] + (e + ([':'] + (f
            + ([' '] + ([s] + (z + (['"'] + rest)))))))))))))))
  {
  }

  /** A date-time whose parts are not read is refused. */
  lemma Unread(r: string, t: string)
    requires r == ['"'] + t && FieldsAt(t) == None
    ensures DateTimeAt(r) == None
  {
    assert r[1..] == t;
  }

  /** Behind four digits of a longer year comes no space. */
  lemma LongYearRefused(tm: Tm, gmtoff: int, rest: string)
    requires RealTime(tm) && tm.year > MAX_YEAR
    ensures DateTimeAt(Quoted(tm, gmtoff, rest)) == None
  {
    YearDigits(1900 + tm.year);
    LongYear(DayText(tm.mday), MONTHS[tm.mon], Print(1900 + tm.year), ClockPart(tm), ZonePart(gmtoff), rest);
  }

  lemma LongYear(a: string, b: string, y: string, c: string, z: string, rest: string)
    requires DaySyntax(a) && MonthSyntax(b) && AllDigits(y) && |y| >= 5
    ensures DateTimeAt(['"'] + ((a + ['-'] + b + ['-']) + y + c + z) + ['"'] + rest) == None
  {
    var tail := c + z + ['"'] + rest;
    DayMonthAtText(a, b, y + tail);
    FiveDigits(y, tail);
    FlattenYear(a, b, y, c, z, rest);
    Unread(['"'] + ((a + ['-'] + b + ['-']) + y + c + z) + ['"'] + rest, a + (['-'] + (b + (['-'] + (y + tail)))));
  }

  lemma FlattenYear(a: string, b: string, y: string, c: string, z: string, rest: string)
    ensures ['"'] + ((a + ['-'] + b + ['-']) + y + c + z) + ['"'] + rest ==
            ['"'] + (a + (['-'] + (b + (['-'] + (y + (c + z + ['"'] + rest))))))
  {
  }

  lemma FiveDigits(y: string, tail: string)
    requires AllDigits(y) && |y| >= 5
    ensures YearLength(y + tail) == 4 && ClockAt((y + tail)[4..]) == None
  {
    assert (y + tail)[..2] == y[..2];
  }

  /** Behind four digits of a longer zone comes no quote. */
  lemma LongZoneRefused(tm: Tm, gmtoff: int, rest: string)
    requires InFourDigits(tm) && !(-MAX_OFFSET < gmtoff < MAX_OFFSET)
    ensures DateTimeAt(Quoted(tm, gmtoff, rest)) == None
  {
    LongZone(gmtoff, rest);
    FlattenQuoted(tm, gmtoff, rest);
    ZoneRefused(DayText(tm.mday), MONTHS[tm.mon], Four(1900 + tm.year), Two(tm.hour), Two(tm.min), Two(tm.sec),
                ZonePart(gmtoff) + ['"'] + rest);
    Unread(Quoted(tm, gmtoff, rest),
           BeforeZone(DayText(tm.mday), MONTHS[tm.mon], Four(1900 + tm.year), Two(tm.hour), Two(tm.min), Two(tm.sec),
                      ZonePart(gmtoff) + ['"'] + rest));
  }

  /** The parts of a date-time in front of a zone `z`. */
  function BeforeZone(day: string, month: string, y: string, h: string, m: string, s: string, z: string): string {
    day + (['-'] + (month + (['-'] + (y + ([' '] + (h + ([':'] + (m + ([':'] + (s + z))))))))))
  }

  lemma FlattenQuoted(tm: Tm, gmtoff: int, rest: string)
    requires InFourDigits(tm)
    ensures Quoted(tm, gmtoff, rest) ==
            ['"'] + BeforeZone(DayText(tm.mday), MONTHS[tm.mon], Four(1900 + tm.year), Two(tm.hour), Two(tm.min), Two(tm.sec),
                               ZonePart(gmtoff) + ['"'] + rest)
  {
    YearDigits(1900 + tm.year);
    FlattenZone(DayText(tm.mday), MONTHS[tm.mon], Four(1900 + tm.year), Two(tm.hour), Two(tm.min), Two(tm.sec),
                ZonePart(gmtoff), rest);
  }

  lemma ZoneRefused(day: string, month: string, y: string, h: string, m: string, s: string, z: string)
    requires DaySyntax(day) && MonthSyntax(month) && Digits(y, 4) && Digits(h, 2) && Digits(m, 2) && Digits(s, 2)
    requires OffsetAt(z) == None
    ensures FieldsAt(BeforeZone(day, month, y, h, m, s, z)) == None
  {
    DateAtText(day, month, y, [' '] + (h + ([':'] + (m + ([':'] + (s + z))))));
    ClockAtText(h, m, s, z);
  }

  lemma FlattenZone(a: string, b: string, y: string, h: string, m: string, s: string, z: string, rest: string)
    ensures ['"'] + ((a + ['-'] + b + ['-']) + y + ([' '] + h + [':'] + m + [':'] + s) + z) + ['"'] + rest ==
            ['"'] + BeforeZone(a, b, y, h, m, s, z + ['"'] + rest)
  {
  }

  lemma LongZone(gmtoff: int, rest: string)
    requires !(-MAX_OFFSET < gmtoff < MAX_OFFSET)
    ensures OffsetAt(ZonePart(gmtoff) + ['"'] + rest) == None
  {
    var hours, z := Print(Minutes(gmtoff) / 60), ZonePart(gmtoff);
    assert Minutes(gmtoff) / 60 >= 100 && Pow10(2) == 100;
    LongPrint(Minutes(gmtoff) / 60, 2);
    var digits := hours + Two(Minutes(gmtoff) % 60);
    assert |z| >= 7 && z[6] == digits[4];
  }
}
