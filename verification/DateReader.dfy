/**
 getdatetime itself: the date-time of an APPEND, read from the client character by character.
 */
module DateReader {
  import opened Wrappers
  import opened Decimal
  import opened Letters
  import opened ProtStream
  import opened WireStrings
  import opened Calendar
  import opened DateTime
  import opened DateParse

  /** `c` has been read, and `r` is the text from it on. */
  ghost predicate Looking(pin: Input, c: int, ch: char, r: string)
    reads pin
  {
    && pin.Valid() && c == NextChar(r) && (c != EOF ==> pin.pos > 0 && pin.data[pin.pos - 1] as int == c)
    && (if r == "" then pin.Rest() == "" else pin.Rest() == r[1..] && ch == r[0])
  }

  /** Something has been read last. */
  ghost predicate Last(pin: Input, c: int)
    reads pin
  {
    pin.Valid() && (c != EOF ==> pin.pos > 0 && pin.data[pin.pos - 1] as int == c)
  }

  method Next(pin: Input, ghost r: string) returns (c: int, ch: char)
    requires pin.Valid() && pin.Rest() == r
    modifies pin
    ensures Looking(pin, c, ch, r) && Last(pin, c)
  {
    c, ch := ReadChar(pin);
  }

  /** A character that must be there. */
  method Expect(pin: Input, c: int, ch: char, wanted: char, ghost r: string) returns (ok: bool, c': int, ch': char)
    requires Looking(pin, c, ch, r)
    modifies pin
    ensures ok <==> r != "" && r[0] == wanted
    ensures Last(pin, c') && Looking(pin, c', ch', if ok then r[1..] else r)
  {
    ok, c', ch' := c == wanted as int, c, ch;
    if ok {
      c', ch' := Next(pin, r[1..]);
    }
  }

  method Digit(pin: Input, c: int, ch: char, ghost r: string) returns (ok: bool, d: nat, c': int, ch': char)
    requires Looking(pin, c, ch, r)
    modifies pin
    ensures ok <==> r != "" && IsDigit(r[0])
    ensures ok ==> d == DigitValue(r[0])
    ensures Last(pin, c') && Looking(pin, c', ch', if ok then r[1..] else r)
  {
    ok, d, c', ch' := c != EOF && IsDigit(ch), 0, c, ch;
    if ok {
      d := DigitValue(ch);
      c', ch' := Next(pin, r[1..]);
    }
  }

  lemma TwoDigitsMean(r: string)
    requires |r| >= 2 && IsDigit(r[0]) && IsDigit(r[1])
    ensures AllDigits(r[..2]) && Value(r[..2]) == DigitValue(r[0]) * 10 + DigitValue(r[1])
    ensures r[1..][1..] == r[2..]
  {
    assert r[..2][..1] == r[..1] && r[..1][..0] == "";
    assert Value(r[..1]) == DigitValue(r[0]);
  }

  method TwoDigits(pin: Input, c: int, ch: char, ghost r: string) returns (ok: bool, n: nat, c': int, ch': char)
    requires Looking(pin, c, ch, r)
    modifies pin
    ensures ok <==> |r| >= 2 && AllDigits(r[..2])
    ensures ok ==> n == NumberOf(r[..2]) && Looking(pin, c', ch', r[2..])
    ensures Last(pin, c')
  {
    n := 0;
    ok, n, c', ch' := Digit(pin, c, ch, r);
    assert |r| >= 2 && AllDigits(r[..2]) ==> IsDigit(r[..2][0]) && IsDigit(r[..2][1]);
    if ok {
      var d;
      ok, d, c', ch' := Digit(pin, c', ch', r[1..]);
      if ok {
        TwoDigitsMean(r);
        n := n * 10 + d;
      }
    }
  }

  lemma DayMeans(r: string)
    requires DayLength(r) > 0
    ensures DayOf(r[..1]) == if r[0] == ' ' then 0 else DigitValue(r[0])
    ensures DayLength(r) == 2 ==> DayOf(r[..2]) == (if r[0] == ' ' then 0 else DigitValue(r[0])) * 10 + DigitValue(r[1])
    ensures DayLength(r) == 2 ==> r[1..][1..] == r[2..]
  {
    assert r[..1] == [r[0]] && [r[0]][..0] == "" && [r[0]][1..] == "";
    assert r[0] != ' ' ==> Value([r[0]]) == DigitValue(r[0]);
    if DayLength(r) == 2 {
      assert r[..2][1..] == [r[1]] && [r[1]][..0] == "";
      if r[0] != ' ' {
        TwoDigitsMean(r);
      } else {
        assert Value([r[1]]) == DigitValue(r[1]);
      }
    }
  }

  /** Day of month; a space stands for a leading zero. */
  method GetDay(pin: Input, c: int, ch: char, ghost r: string) returns (ok: bool, mday: nat, c': int, ch': char, ghost n: nat)
    requires Looking(pin, c, ch, r)
    modifies pin
    ensures n == DayLength(r)
    ensures ok <==> n > 0 && (n == 2 ==> 1 <= DayOf(r[..2]) <= 31)
    ensures ok ==> mday == DayOf(r[..n]) && Looking(pin, c', ch', r[n..])
    ensures Last(pin, c')
  {
    n := DayLength(r);
    if n > 0 {
      DayMeans(r);
    }
    mday := 0;
    if c == ' ' as int {
      ok := true;
      c', ch' := Next(pin, r[1..]);
    } else {
      ok, mday, c', ch' := Digit(pin, c, ch, r);
    }
    if ok {
      var two, d;
      two, d, c', ch' := Digit(pin, c', ch', r[1..]);
      if two {
        mday := mday * 10 + d;
        ok := 0 < mday <= 31;
      }
    }
  }

  /** A letter of the month. */
  method Letter(pin: Input, c: int, ch: char, ghost r: string) returns (ok: bool, l: char, c': int, ch': char)
    requires Looking(pin, c, ch, r)
    modifies pin
    ensures ok <==> r != "" && IsAlpha(r[0])
    ensures ok ==> l == r[0]
    ensures Last(pin, c') && Looking(pin, c', ch', if ok then r[1..] else r)
  {
    ok, l, c', ch' := c != EOF && IsAlpha(ch), ch, c, ch;
    if ok {
      c', ch' := Next(pin, r[1..]);
    }
  }

  lemma ThreeAhead(r: string)
    requires |r| >= 3
    ensures r[1..][1..][1..] == r[3..] && r[..3] == [r[0], r[1], r[2]]
  {
  }

  method GetMonth(pin: Input, c: int, ch: char, ghost r: string) returns (ok: bool, mon: nat, c': int, ch': char)
    requires Looking(pin, c, ch, r)
    modifies pin
    ensures ok <==> |r| >= 3 && MonthSyntax(r[..3]) && MonthIndex(r[..3], 0) < 12
    ensures ok ==> mon == MonthIndex(r[..3], 0) && Looking(pin, c', ch', r[3..])
    ensures Last(pin, c')
  {
    var l1, l2, l3;
    mon := 12;
    ok, l1, c', ch' := Letter(pin, c, ch, r);
    if ok {
      ok, l2, c', ch' := Letter(pin, c', ch', r[1..]);
    }
    if ok {
      ok, l3, c', ch' := Letter(pin, c', ch', r[1..][1..]);
      if ok {
        ThreeAhead(r);
        mon := FindMonth([l1, l2, l3]);
        ok := mon < 12;
      }
    }
  }

  method FindMonth(month: string) returns (mon: nat)
    ensures mon == MonthIndex(month, 0)
  {
    mon := 0;
    while mon < 12 && Lowered(MONTHS[mon]) != Lowered(month)
      invariant mon <= 12 && MonthIndex(month, 0) == MonthIndex(month, mon)
    {
      mon := mon + 1;
    }
  }

  lemma YearMeans(r: string)
    requires |r| >= 4 && AllDigits(r[..2]) && IsDigit(r[2]) && IsDigit(r[3])
    ensures YearLength(r) == 4 && r[2..][1..][1..] == r[4..]
    ensures YearOf(r[..4]) == (NumberOf(r[..2]) - 19) * 100 + DigitValue(r[2]) * 10 + DigitValue(r[3])
  {
    assert r[..4][..2] == r[..2] && r[..4][2..] == r[2..4] && r[2..4] == r[2..][..2];
    TwoDigitsMean(r[2..]);
  }

  /** The year, from 1900 on with four digits. */
  method GetYear(pin: Input, c: int, ch: char, ghost r: string)
    returns (ok: bool, year: nat, four: bool, c': int, ch': char, ghost n: nat)
    requires Looking(pin, c, ch, r)
    modifies pin
    ensures n == YearLength(r)
    ensures ok <==> n > 0 && YearOf(r[..n]) >= 0
    ensures ok ==> year == YearOf(r[..n]) && (four <==> n == 4) && Looking(pin, c', ch', r[n..])
    ensures Last(pin, c')
  {
    n, four := YearLength(r), false;
    ok, year, c', ch' := TwoDigits(pin, c, ch, r);
    if ok {
      var d;
      assert |r| > 2 ==> r[2..][0] == r[2];
      assert |r| > 3 ==> r[2..][1..][0] == r[3];
      four, d, c', ch' := Digit(pin, c', ch', r[2..]);
      if four {
        ok := year >= 19;
        if ok {
          year := (year - 19) * 10 + d;
          ok, d, c', ch' := Digit(pin, c', ch', r[2..][1..]);
          year := year * 10 + d;
        }
        if |r| >= 4 && IsDigit(r[3]) {
          YearMeans(r);
        }
      }
    }
  }

  /** The month and the dash behind it. */
  method GetMonthDash(pin: Input, c: int, ch: char, mday: nat, ghost t: string)
    returns (ok: bool, mon: nat, c': int, ch': char)
    requires Looking(pin, c, ch, t)
    modifies pin
    ensures ok <==> MonthAt(t).Some? && MonthIndex(MonthAt(t).value.0, 0) < 12
                    && mday <= MAX_MONTHDAYS[MonthIndex(MonthAt(t).value.0, 0)]
    ensures ok ==> mon == MonthIndex(MonthAt(t).value.0, 0) && Looking(pin, c', ch', MonthAt(t).value.1)
    ensures Last(pin, c')
  {
    ok, mon, c', ch' := GetMonth(pin, c, ch, t);
    ok := ok && mday <= MAX_MONTHDAYS[mon];
    if ok {
      ok, c', ch' := Expect(pin, c', ch', '-', t[3..]);
    }
  }

  method GetDayMonth(pin: Input, c: int, ch: char, ghost r: string)
    returns (ok: bool, mday: nat, mon: nat, c': int, ch': char)
    requires Looking(pin, c, ch, r)
    modifies pin
    ensures ok <==> DayMonthAt(r).Some? && DayMonthChecks(DayMonthAt(r).value.day, DayMonthAt(r).value.month)
    ensures ok ==>
              && mday == DayOf(DayMonthAt(r).value.day) && mon == MonthIndex(DayMonthAt(r).value.month, 0) < 12
              && Looking(pin, c', ch', DayMonthAt(r).value.rest)
    ensures Last(pin, c')
  {
    ghost var n;
    mon := 12;
    ok, mday, c', ch', n := GetDay(pin, c, ch, r);
    if ok {
      ok, c', ch' := Expect(pin, c', ch', '-', r[n..]);
      if ok {
        ok, mon, c', ch' := GetMonthDash(pin, c', ch', mday, r[n..][1..]);
      }
    }
  }

  /** The day, the month and the year. */
  method GetDate(pin: Input, c: int, ch: char, ghost r: string)
    returns (ok: bool, mday: nat, mon: nat, year: nat, four: bool, c': int, ch': char)
    requires Looking(pin, c, ch, r)
    modifies pin
    ensures ok <==> DateAt(r).Some? && DateChecks(DateAt(r).value.day, DateAt(r).value.month, DateAt(r).value.year)
    ensures ok ==>
              var d := DateAt(r).value;
              && mday == DayOf(d.day) && mon == MonthIndex(d.month, 0) < 12 && year == YearOf(d.year)
              && (four <==> |d.year| == 4) && Looking(pin, c', ch', d.rest)
    ensures Last(pin, c')
  {
    year, four := 0, false;
    ok, mday, mon, c', ch' := GetDayMonth(pin, c, ch, r);
    if ok {
      ghost var n;
      ok, year, four, c', ch', n := GetYear(pin, c', ch', DayMonthAt(r).value.rest);
    }
  }

  lemma ClockSteps(r: string)
    ensures ClockAt(r).Some? <==>
            && r != "" && r[0] == ' ' && |r[1..]| >= 2 && AllDigits(r[1..][..2])
            && r[3..] != "" && r[3..][0] == ':' && |r[4..]| >= 2 && AllDigits(r[4..][..2])
            && r[6..] != "" && r[6..][0] == ':' && |r[7..]| >= 2 && AllDigits(r[7..][..2])
    ensures ClockAt(r).Some? ==> ClockAt(r).value == Clock(r[1..][..2], r[4..][..2], r[7..][..2], r[9..])
  {
    assert |r| >= 3 ==> r[1..3] == r[1..][..2];
    assert |r| >= 6 ==> r[4..6] == r[4..][..2];
    assert |r| >= 9 ==> r[7..9] == r[7..][..2];
  }

  /** The clock, after a space; the seconds may be anything. */
  method GetClock(pin: Input, c: int, ch: char, ghost r: string)
    returns (ok: bool, hour: nat, min: nat, sec: nat, c': int, ch': char)
    requires Looking(pin, c, ch, r)
    modifies pin
    ensures ok <==> ClockAt(r).Some? && ClockChecks(ClockAt(r).value.hour, ClockAt(r).value.minute)
    ensures ok ==>
              var k := ClockAt(r).value;
              hour == NumberOf(k.hour) && min == NumberOf(k.minute) && sec == NumberOf(k.second) && Looking(pin, c', ch', k.rest)
    ensures Last(pin, c')
  {
    ClockSteps(r);
    hour, min, sec := 0, 0, 0;
    ok, c', ch' := Expect(pin, c, ch, ' ', r);
    if ok {
      ok, hour, c', ch' := TwoDigits(pin, c', ch', r[1..]);
      ok := ok && hour <= 23;
    }
    if ok {
      DropDrop(r, 1, 2);
      ok, min, c', ch' := AfterColon(pin, c', ch', r[3..]);
      ok := ok && min <= 59;
    }
    if ok {
      DropDrop(r, 3, 1);
      DropDrop(r, 4, 2);
      ok, sec, c', ch' := AfterColon(pin, c', ch', r[6..]);
      DropMore(r, 6);
    }
  }

  lemma DropDrop(r: string, i: nat, k: nat)
    requires i <= |r|
    ensures |r[i..]| >= k ==> r[i..][k..] == r[i + k..]
  {
  }

  lemma DropMore(r: string, i: nat)
    requires i <= |r|
    ensures |r[i..]| >= 3 ==> r[i..][1..] == r[i + 1..] && r[i..][3..] == r[i + 3..]
  {
  }

  method AfterColon(pin: Input, c: int, ch: char, ghost r: string) returns (ok: bool, n: nat, c': int, ch': char)
    requires Looking(pin, c, ch, r)
    modifies pin
    ensures ok <==> r != "" && r[0] == ':' && |r[1..]| >= 2 && AllDigits(r[1..][..2])
    ensures ok ==> n == NumberOf(r[1..][..2]) && Looking(pin, c', ch', r[3..])
    ensures Last(pin, c')
  {
    n := 0;
    ok, c', ch' := Expect(pin, c, ch, ':', r);
    if ok {
      ok, n, c', ch' := TwoDigits(pin, c', ch', r[1..]);
      DropDrop(r, 1, 2);
    }
  }

  lemma OffsetSteps(r: string)
    ensures OffsetAt(r).Some? <==>
            && r != "" && r[0] == ' ' && r[1..] != "" && (r[1..][0] == '+' || r[1..][0] == '-')
            && |r[2..]| >= 2 && AllDigits(r[2..][..2]) && r[4..] != "" && IsDigit(r[4..][0])
            && r[5..] != "" && IsDigit(r[5..][0]) && r[6..] != "" && r[6..][0] == '"'
    ensures OffsetAt(r).Some? ==>
              && OffsetAt(r).value == ZoneText(Offset(r[1..][0], r[2..6]), r[7..])
              && r[2..6][..2] == r[2..][..2]
              && NumberOf(r[2..6][2..]) == DigitValue(r[4..][0]) * 10 + DigitValue(r[5..][0])
  {
    if |r| >= 7 {
      var z := r[2..6];
      assert z[..2] == r[2..][..2] && z[0] == r[2] && z[1] == r[3] && z[2] == r[4] && z[3] == r[5];
      assert r[2..][..2][0] == r[2] && r[2..][..2][1] == r[3];
      assert z[2..] == r[4..6] == r[4..][..2];
      assert AllDigits(z) <==> AllDigits(z[..2]) && IsDigit(z[2]) && IsDigit(z[3]);
      if IsDigit(r[4]) && IsDigit(r[5]) {
        TwoDigitsMean(r[4..]);
      }
    }
  }

  /** The digits of an offset: the tens of minutes count six to the hour. */
  method GetMinutes(pin: Input, c: int, ch: char, ghost r: string) returns (ok: bool, zone: nat, c': int, ch': char)
    requires Looking(pin, c, ch, r)
    modifies pin
    ensures ok <==> |r| >= 4 && AllDigits(r[..2]) && IsDigit(r[2]) && IsDigit(r[3])
    ensures ok ==> zone == NumberOf(r[..2]) * 60 + DigitValue(r[2]) * 10 + DigitValue(r[3]) && Looking(pin, c', ch', r[4..])
    ensures Last(pin, c')
  {
    ok, zone, c', ch' := TwoDigits(pin, c, ch, r);
    if ok {
      var d;
      DropDrop(r, 2, 1);
      ok, d, c', ch' := Digit(pin, c', ch', r[2..]);
      zone := zone * 6 + d;
      if ok {
        DropDrop(r, 3, 1);
        ok, d, c', ch' := Digit(pin, c', ch', r[3..]);
        zone := zone * 10 + d;
      }
    }
  }

  method GetOffset(pin: Input, c: int, ch: char, ghost r: string) returns (ok: bool, zone: int, c': int, ch': char)
    requires Looking(pin, c, ch, r)
    modifies pin
    ensures ok <==> OffsetAt(r).Some?
    ensures ok ==> Some(zone) == ZoneOffset(OffsetAt(r).value.zone) && Looking(pin, c', ch', OffsetAt(r).value.rest)
    ensures Last(pin, c')
  {
    OffsetSteps(r);
    zone := 0;
    ok, c', ch' := Expect(pin, c, ch, ' ', r);
    var sign := ch';
    if ok {
      ok := c' == '+' as int || c' == '-' as int;
    }
    if ok {
      DropDrop(r, 1, 1);
      c', ch' := Next(pin, r[1..][1..]);
      ok, zone, c', ch' := GetMinutes(pin, c', ch', r[2..]);
    }
    if ok {
      DropDrop(r, 2, 4);
      DropDrop(r, 6, 1);
      ok, c', ch' := Expect(pin, c', ch', '"', r[6..]);
      zone := if sign == '-' then -zone else zone;
    }
  }

  /** A character that may be anything but a quote. */
  method NoQuote(pin: Input, c: int, ch: char, ghost r: string) returns (quote: bool, ok: bool, l: char, c': int, ch': char)
    requires Looking(pin, c, ch, r)
    modifies pin
    ensures (quote <==> r != "" && r[0] == '"') && (ok <==> r != "" && r[0] != '"')
    ensures ok ==> l == r[0]
    ensures Last(pin, c') && Looking(pin, c', ch', if r != "" then r[1..] else r)
  {
    quote, ok, l, c', ch' := c == '"' as int, c != EOF && c != '"' as int, ch, c, ch;
    if c != EOF {
      c', ch' := Next(pin, r[1..]);
    }
  }

  /** At most two more characters and the closing quote. */
  function NameTail(u: string): Option<(string, string)> {
    if u == "" then None
    else if u[0] == '"' then Some(("", u[1..]))
    else if |u| > 1 && u[1] == '"' then Some(([u[0]], u[2..]))
    else if |u| > 2 && u[2] == '"' then Some(([u[0], u[1]], u[3..]))
    else None
  }

  lemma NameSteps(r: string)
    requires r != "" && r[0] == '-'
    ensures NameAt(r) ==
            if r[1..] == "" || !IsAlpha(r[1..][0]) || NameTail(r[1..][1..]).None? then None
            else Some(ZoneText(Named([r[1..][0]] + NameTail(r[1..][1..]).value.0), NameTail(r[1..][1..]).value.1))
  {
    var t := r[1..];
    assert |t| >= 1 ==> t[..1] == [t[0]];
    assert |t| >= 2 ==> t[..2] == [t[0]] + [t[1]];
    assert |t| >= 3 ==> t[..3] == [t[0]] + [t[1], t[2]];
    assert |t| >= 1 ==> [t[0]] + "" == [t[0]];
    assert |t| >= 2 ==> t[1..][1..] == t[2..];
    assert |t| >= 3 ==> t[1..][2..] == t[3..];
    assert |t| >= 4 ==> t[1..][3..] == t[4..];
  }

  method GetTail(pin: Input, c: int, ch: char, ghost u: string) returns (ok: bool, name: string, c': int, ch': char)
    requires Looking(pin, c, ch, u)
    modifies pin
    ensures ok <==> NameTail(u).Some?
    ensures ok ==> name == NameTail(u).value.0 && Looking(pin, c', ch', NameTail(u).value.1)
    ensures Last(pin, c')
  {
    name := "";
    var quote, l, l2;
    quote, ok, l, c', ch' := NoQuote(pin, c, ch, u);
    if quote || !ok {
      return quote, name, c', ch';
    }
    DropDrop(u, 1, 1);
    quote, ok, l2, c', ch' := NoQuote(pin, c', ch', u[1..]);
    name := [l];
    if quote || !ok {
      return quote, name, c', ch';
    }
    name := [l, l2];
    DropDrop(u, 2, 1);
    ok, c', ch' := Expect(pin, c', ch', '"', u[2..]);
  }

  /** The name of a zone and the closing quote: one, two or three characters. */
  method GetName(pin: Input, c: int, ch: char, ghost r: string) returns (ok: bool, name: string, c': int, ch': char)
    requires Looking(pin, c, ch, r)
    modifies pin
    ensures ok <==> NameAt(r).Some?
    ensures ok ==> Named(name) == NameAt(r).value.zone && Looking(pin, c', ch', NameAt(r).value.rest)
    ensures Last(pin, c')
  {
    name := "";
    ok, c', ch' := Expect(pin, c, ch, '-', r);
    if ok {
      NameSteps(r);
      var l, tail;
      ok, l, c', ch' := Letter(pin, c', ch', r[1..]);
      if ok {
        ok, tail, c', ch' := GetTail(pin, c', ch', r[1..][1..]);
        name := [l] + tail;
      }
    }
  }

  /** What a named zone is taken for. */
  method NameOffset(name: string) returns (zone: Option<int>)
    requires NameSyntax(name)
    ensures zone == NamedOffset(Lowered(name))
  {
    var s := Lowered(name);
    if |s| == 1 {
      if s[0] <= 'm' {
        zone := Some((s[0] as int - 'a' as int + 1) * 60);
      } else if s[0] < 'z' {
        zone := Some(('m' as int - s[0] as int) * 60);
      } else {
        zone := Some(0);
      }
    } else if |s| == 2 {
      zone := if s == "ut" then None else Some(0);
    } else {
      var i := 0;
      while i < 8 && ZONES[i] != s[0]
        invariant i <= 8 && ZoneIndex(s[0], 0) == ZoneIndex(s[0], i)
      {
        i := i + 1;
      }
      if i == 8 || s[2] != 't' {
        return None;
      }
      var offset := (8 - i - 12) * 60;
      if s[1] == 'd' {
        offset := offset - 60;
      } else if s[1] != 's' {
        return None;
      }
      zone := Some(offset);
    }
  }

  method GetZone(pin: Input, c: int, ch: char, four: bool, ghost r: string) returns (ok: bool, zone: int, c': int, ch': char)
    requires Looking(pin, c, ch, r)
    modifies pin
    ensures ok <==> ZoneAt(r, four).Some? && ZoneOffset(ZoneAt(r, four).value.zone).Some?
    ensures ok ==> Some(zone) == ZoneOffset(ZoneAt(r, four).value.zone) && Looking(pin, c', ch', ZoneAt(r, four).value.rest)
    ensures Last(pin, c')
  {
    if four {
      ok, zone, c', ch' := GetOffset(pin, c, ch, r);
    } else {
      var name, offset;
      zone := 0;
      ok, name, c', ch' := GetName(pin, c, ch, r);
      if ok {
        ZoneAtMeans(r, false);
        offset := NameOffset(name);
        ok := offset.Some?;
        zone := if ok then offset.value else 0;
      }
    }
  }

  /** The checks that need no calendar. */
  predicate Checked(st: Stamp) {
    DateChecks(st.day, st.month, st.year) && ClockChecks(st.hour, st.minute) && ZoneOffset(st.zone).Some?
  }

  /** Everything between the quotes, and the closing one. */
  method GetFields(pin: Input, c: int, ch: char, ghost r: string) returns (ok: bool, tm: Tm, zone: int, c': int, ch': char)
    requires Looking(pin, c, ch, r)
    modifies pin
    ensures ok <==> FieldsAt(r).Some? && Checked(FieldsAt(r).value.0)
    ensures ok ==>
              && tm == TmOf(FieldsAt(r).value.0) && Some(zone) == ZoneOffset(FieldsAt(r).value.0.zone)
              && Looking(pin, c', ch', FieldsAt(r).value.1)
    ensures Last(pin, c')
  {
    var mday, mon, year, four;
    var hour, min, sec := 0, 0, 0;
    zone := 0;
    ok, mday, mon, year, four, c', ch' := GetDate(pin, c, ch, r);
    if ok {
      ok, hour, min, sec, c', ch' := GetClock(pin, c', ch', DateAt(r).value.rest);
    }
    if ok {
      ok, zone, c', ch' := GetZone(pin, c', ch', four, ClockAt(DateAt(r).value.rest).value.rest);
    }
    tm := Tm(year, mon, mday, hour, min, sec);
  }

  /** The time that a date-time without its opening quote denotes, and what follows it. */
  function TimeAt(r: string): Option<(int, string)> {
    match FieldsAt(r)
    case None => None
    case Some((st, rest)) => if Denotes(st).None? then None else Some((Denotes(st).value, rest))
  }

  /** What getdatetime gives for a text: the time and the text behind it, or nothing. */
  function DateTimeAt(r: string): Option<(int, string)> {
    if r == "" || r[0] != '"' then None else TimeAt(r[1..])
  }

  lemma DenotesAs(st: Stamp, zone: int)
    requires Checked(st) && Some(zone) == ZoneOffset(st.zone)
    ensures Denotes(st) == ReadAs(MkGmTime(TmOf(st)), true, Some(zone))
  {
  }

  lemma TimeOf(r: string, st: Stamp, rest: string, zone: int)
    requires FieldsAt(r) == Some((st, rest)) && Checked(st) && Some(zone) == ZoneOffset(st.zone)
    ensures var t := ReadAs(MkGmTime(TmOf(st)), true, Some(zone));
            TimeAt(r) == if t.None? then None else Some((t.value, rest))
  {
    DenotesAs(st, zone);
  }

  lemma Refused(r: string)
    requires FieldsAt(r).None? || !Checked(FieldsAt(r).value.0)
    ensures TimeAt(r) == None
  {
  }

  method GetTime(pin: Input, c: int, ch: char, ghost r: string) returns (date: Option<int>, c': int, ch': char)
    requires Looking(pin, c, ch, r)
    modifies pin
    ensures date.None? <==> TimeAt(r).None?
    ensures date.Some? ==> date.value == TimeAt(r).value.0 && Looking(pin, c', ch', TimeAt(r).value.1)
    ensures Last(pin, c')
  {
    var ok, tm, zone;
    ok, tm, zone, c', ch' := GetFields(pin, c, ch, r);
    if ok {
      TimeOf(r, FieldsAt(r).value.0, FieldsAt(r).value.1, zone);
      var t := SearchGmTime(tm);
      date := ReadAs(t, true, Some(zone));
    } else {
      Refused(r);
      date := None;
    }
  }

  /** getdatetime: the time, and the character after the closing quote. */
  method GetDateTime(pin: Input) returns (c: int, date: Option<int>)
    requires pin.Valid()
    modifies pin
    ensures pin.Valid()
    ensures var d := DateTimeAt(old(pin.Rest()));
            if d.None? then c == EOF && date == None
            else date == Some(d.value.0) && c == NextChar(d.value.1)
                 && pin.Rest() == if d.value.1 == "" then "" else d.value.1[1..]
  {
    ghost var r := pin.Rest();
    var ch, ok;
    date := None;
    c, ch := Next(pin, r);
    ok, c, ch := Expect(pin, c, ch, '"', r);
    if ok {
      date, c, ch := GetTime(pin, c, ch, r[1..]);
    }
    if date.None? {
      if c != EOF {
        pin.Ungetc(c);
      }
      c := EOF;
    }
  }
}
