/**
 getdatetime: a date-time is read character by character, with one character of lookahead.
 */
module DateParse {
  import opened Wrappers
  import opened Decimal
  import opened ProtStream
  import opened WireStrings
  import opened Calendar
  import opened DateTime

  /** How many characters of the text are a day, a year or the name of a zone; 0: they are none. */
  function DayLength(r: string): (n: nat)
    ensures n <= |r| && n <= 2
  {
    if r == "" || !(r[0] == ' ' || IsDigit(r[0])) then 0
    else if |r| > 1 && IsDigit(r[1]) then 2
    else 1
  }

  function YearLength(r: string): (n: nat)
    ensures n <= |r| && (n == 0 || n == 2 || n == 4)
  {
    if |r| < 2 || !AllDigits(r[..2]) then 0
    else if |r| == 2 || !IsDigit(r[2]) then 2
    else if |r| == 3 || !IsDigit(r[3]) then 0
    else 4
  }

  function NameLength(r: string): (n: nat)
    ensures n > 0 ==> n < |r|
  {
    if r == "" || !IsAlpha(r[0]) then 0
    else if |r| > 1 && r[1] == '"' then 1
    else if |r| > 2 && r[2] == '"' then 2
    else if |r| > 3 && r[3] == '"' then 3
    else 0
  }

  datatype Date = Date(day: string, month: string, year: string, rest: string)

  datatype Clock = Clock(hour: string, minute: string, second: string, rest: string)

  datatype ZoneText = ZoneText(zone: Zone, rest: string)

  datatype DayMonth = DayMonth(day: string, month: string, rest: string)

  /** month and the dash behind it */
  function MonthAt(t: string): Option<(string, string)> {
    if |t| < 4 || !MonthSyntax(t[..3]) || t[3] != '-' then None else Some((t[..3], t[3..][1..]))
  }

  /** day-month- */
  function DayMonthAt(r: string): Option<DayMonth> {
    var n := DayLength(r);
    var a := r[n..];
    if n == 0 || a == "" || a[0] != '-' || MonthAt(a[1..]).None? then None
    else Some(DayMonth(r[..n], MonthAt(a[1..]).value.0, MonthAt(a[1..]).value.1))
  }

  /** day-month-year */
  function DateAt(r: string): Option<Date> {
    match DayMonthAt(r)
    case None => None
    case Some(d) =>
      var k := YearLength(d.rest);
      if k == 0 then None else Some(Date(d.day, d.month, d.rest[..k], d.rest[k..]))
  }

  /** hour:minute:second, after a space */
  function ClockAt(r: string): Option<Clock> {
    if |r| >= 9 && r[0] == ' ' && AllDigits(r[1..3]) && r[3] == ':' && AllDigits(r[4..6]) && r[6] == ':' && AllDigits(r[7..9])
    then Some(Clock(r[1..3], r[4..6], r[7..9], r[9..]))
    else None
  }

  /** A zone and the closing quote. */
  function OffsetAt(r: string): Option<ZoneText> {
    if |r| >= 7 && r[0] == ' ' && (r[1] == '+' || r[1] == '-') && AllDigits(r[2..6]) && r[6] == '"'
    then Some(ZoneText(Offset(r[1], r[2..6]), r[7..]))
    else None
  }

  function NameAt(r: string): Option<ZoneText> {
    if r == "" || r[0] != '-' then None
    else
      var n := NameLength(r[1..]);
      if n == 0 then None else Some(ZoneText(Named(r[1..][..n]), r[1..][n + 1..]))
  }

  function ZoneAt(r: string, four: bool): Option<ZoneText> {
    if four then OffsetAt(r) else NameAt(r)
  }

  /** The parts of a date-time, and what follows it. */
  function FieldsAt(r: string): Option<(Stamp, string)> {
    match DateAt(r)
    case None => None
    case Some(d) =>
      match ClockAt(d.rest)
      case None => None
      case Some(c) =>
        match ZoneAt(c.rest, |d.year| == 4)
        case None => None
        case Some(z) => Some((Stamp(d.day, d.month, d.year, c.hour, c.minute, c.second, z.zone), z.rest))
  }

  /** The quoted date-time at the beginning of the text, and what follows it. */
  function StampAt(r: string): Option<(Stamp, string)> {
    if r == "" || r[0] != '"' then None else FieldsAt(r[1..])
  }

  lemma MonthAtText(month: string, b: string)
    requires MonthSyntax(month)
    ensures MonthAt(month + (['-'] + b)) == Some((month, b))
  {
    var t := month + (['-'] + b);
    assert t[..3] == month && t[3..] == ['-'] + b && t[3..][1..] == b;
  }

  lemma DayMonthAtText(day: string, month: string, b: string)
    requires DaySyntax(day) && MonthSyntax(month)
    ensures DayMonthAt(day + (['-'] + (month + (['-'] + b)))) == Some(DayMonth(day, month, b))
  {
    var t := month + (['-'] + b);
    var r := day + (['-'] + t);
    MonthAtText(month, b);
    assert r[..|day|] == day && r[|day|..] == ['-'] + t && (['-'] + t)[1..] == t;
    assert DayLength(r) == |day|;
  }

  lemma YearLengthText(year: string, tail: string)
    requires (Digits(year, 4) || Digits(year, 2)) && tail != "" && !IsDigit(tail[0])
    ensures YearLength(year + tail) == |year|
  {
    assert (year + tail)[..2] == year[..2];
  }

  lemma DateAtText(day: string, month: string, year: string, tail: string)
    requires DaySyntax(day) && MonthSyntax(month) && (Digits(year, 4) || Digits(year, 2))
    requires tail != "" && !IsDigit(tail[0])
    ensures DateAt(day + (['-'] + (month + (['-'] + (year + tail))))) == Some(Date(day, month, year, tail))
  {
    DayMonthAtText(day, month, year + tail);
    YearLengthText(year, tail);
    assert (year + tail)[..|year|] == year && (year + tail)[|year|..] == tail;
  }

  lemma DateAtMeans(r: string)
    requires DateAt(r).Some?
    ensures var d := DateAt(r).value;
            && DaySyntax(d.day) && MonthSyntax(d.month) && (Digits(d.year, 4) || Digits(d.year, 2))
            && r == d.day + (['-'] + (d.month + (['-'] + (d.year + d.rest))))
  {
    var n := DayLength(r);
    var a := r[n..];
    var b := a[1..][3..][1..];
    assert b == b[..YearLength(b)] + b[YearLength(b)..];
    assert a[1..] == a[1..][..3] + (['-'] + b) && a == ['-'] + a[1..];
    assert r == r[..n] + a;
  }

  lemma ClockAtText(hour: string, minute: string, second: string, tail: string)
    requires Digits(hour, 2) && Digits(minute, 2) && Digits(second, 2)
    ensures ClockAt([' '] + (hour + ([':'] + (minute + ([':'] + (second + tail)))))) == Some(Clock(hour, minute, second, tail))
  {
    var r := [' '] + (hour + ([':'] + (minute + ([':'] + (second + tail)))));
    assert r[1..3] == hour && r[4..6] == minute && r[7..9] == second && r[9..] == tail;
  }

  lemma ClockAtMeans(r: string)
    requires ClockAt(r).Some?
    ensures var c := ClockAt(r).value;
            && Digits(c.hour, 2) && Digits(c.minute, 2) && Digits(c.second, 2)
            && r == [' '] + (c.hour + ([':'] + (c.minute + ([':'] + (c.second + c.rest)))))
  {
  }

  predicate ZoneSyntax(z: Zone) {
    match z
    case Offset(sign, hhmm) => (sign == '+' || sign == '-') && Digits(hhmm, 4)
    case Named(name) => NameSyntax(name)
  }

  lemma OffsetAtText(sign: char, hhmm: string, rest: string)
    requires (sign == '+' || sign == '-') && Digits(hhmm, 4)
    ensures ZoneAt([' '] + ([sign] + (hhmm + (['"'] + rest))), true) == Some(ZoneText(Offset(sign, hhmm), rest))
  {
    var r := [' '] + ([sign] + (hhmm + (['"'] + rest)));
    assert r[2..6] == hhmm && r[7..] == rest;
  }

  lemma NameLengthText(name: string, rest: string)
    requires NameSyntax(name)
    ensures NameLength(name + (['"'] + rest)) == |name|
  {
    var t := name + (['"'] + rest);
    assert forall i :: 0 <= i < |name| ==> t[i] == name[i] && name[i] in name;
    assert t[|name|] == '"';
  }

  lemma NameAtText(name: string, rest: string)
    requires NameSyntax(name)
    ensures ZoneAt(['-'] + (name + (['"'] + rest)), false) == Some(ZoneText(Named(name), rest))
  {
    NameLengthText(name, rest);
    var t := name + (['"'] + rest);
    assert (['-'] + t)[1..] == t;
    assert t[..|name|] == name && t[|name| + 1..] == rest;
  }

  lemma ZoneAtText(z: Zone, rest: string)
    requires ZoneSyntax(z)
    ensures ZoneAt(FromZone(z, rest), z.Offset?) == Some(ZoneText(z, rest))
  {
    match z
    case Offset(sign, hhmm) => OffsetAtText(sign, hhmm, rest);
    case Named(name) => NameAtText(name, rest);
  }

  lemma ZoneAtMeans(r: string, four: bool)
    requires ZoneAt(r, four).Some?
    ensures var z := ZoneAt(r, four).value;
            ZoneSyntax(z.zone) && four == z.zone.Offset? && r == FromZone(z.zone, z.rest)
  {
    if !four {
      var t, n := r[1..], NameLength(r[1..]);
      assert t == t[..n] + (['"'] + t[n + 1..]);
    }
  }

  lemma StampAtParts(r: string, d: Date, c: Clock, z: ZoneText)
    requires r != "" && r[0] == '"' && DateAt(r[1..]) == Some(d) && ClockAt(d.rest) == Some(c)
    requires ZoneAt(c.rest, |d.year| == 4) == Some(z)
    ensures StampAt(r) == Some((Stamp(d.day, d.month, d.year, c.hour, c.minute, c.second, z.zone), z.rest))
  {
  }

  /** Exactly the date-times are recognised, and nothing behind them is. */
  lemma StampAtText(st: Stamp, rest: string)
    requires Syntax(st)
    ensures StampAt(Text(st, rest)) == Some((st, rest))
  {
    DateAtText(st.day, st.month, st.year, FromTime(st, rest));
    ClockAtText(st.hour, st.minute, st.second, FromZone(st.zone, rest));
    ZoneAtText(st.zone, rest);
    Unquoted(FromDay(st, rest));
    StampAtParts(Text(st, rest), Date(st.day, st.month, st.year, FromTime(st, rest)),
                 Clock(st.hour, st.minute, st.second, FromZone(st.zone, rest)), ZoneText(st.zone, rest));
  }

  lemma Unquoted(t: string)
    ensures (['"'] + t)[1..] == t
  {
  }

  lemma StampAtMeans(r: string)
    requires StampAt(r).Some?
    ensures Syntax(StampAt(r).value.0) && r == Text(StampAt(r).value.0, StampAt(r).value.1)
  {
    var d := DateAt(r[1..]).value;
    var c := ClockAt(d.rest).value;
    var z := ZoneAt(c.rest, |d.year| == 4).value;
    DateAtMeans(r[1..]);
    ClockAtMeans(d.rest);
    ZoneAtMeans(c.rest, |d.year| == 4);
    TextOfParts(r, d, c, z);
    StampAtParts(r, d, c, z);
  }

  lemma TextOfParts(r: string, d: Date, c: Clock, z: ZoneText)
    requires r != "" && r[0] == '"' && r[1..] == d.day + (['-'] + (d.month + (['-'] + (d.year + d.rest))))
    requires d.rest == [' '] + (c.hour + ([':'] + (c.minute + ([':'] + (c.second + c.rest)))))
    requires c.rest == FromZone(z.zone, z.rest)
    ensures r == Text(Stamp(d.day, d.month, d.year, c.hour, c.minute, c.second, z.zone), z.rest)
  {
    assert r == ['"'] + r[1..];
  }
}
