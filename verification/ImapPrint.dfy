/** How the server prints strings: as an atom, between quotes, or as a literal. */
module ImapPrint {
  import opened Decimal
  import opened ProtStream
  import opened WireStrings
  import opened ImapParse

  /** The scan for characters that cannot be quoted, over at most 1024 characters. */
  method ScanQuoted(s: string) returns (quoted: bool)
    ensures quoted <==> Quotable(s)
  {
    var p, len := 0, 0;
    while p < |s| && len < 1024
      invariant p == len <= |s| && len <= 1024
      invariant forall i :: 0 <= i < p ==> !Unquotable(s[i])
    {
      len := len + 1;
      if Unquotable(s[p]) {
        assert p < |s|;
        return false;
      }
      p := p + 1;
    }
    quoted := !(p < |s| || len >= 1024);
  }

  /** printstring */
  method PrintString(s: string) returns (out: string)
    ensures out == Printed(s)
  {
    var quoted := ScanQuoted(s);
    if quoted {
      out := ['"'] + s + ['"'];
    } else {
      out := ['{'] + (Print(|s|) + (HeaderEnd(false) + s));
    }
  }

  /** imparse_isatom */
  method IsAtom(s: string) returns (atom: bool)
    ensures atom <==> IsAtomText(s)
  {
    if s == "" {
      return false;
    }
    var len := 0;
    while len < |s|
      invariant len <= |s|
      invariant forall i :: 0 <= i < len ==> !NotInAtom(s[i])
    {
      len := len + 1;
      if NotInAtom(s[len - 1]) {
        return false;
      }
    }
    atom := len < 1024;
  }

  /** printastring */
  method PrintAString(s: string) returns (out: string)
    ensures out == PrintedAString(s)
  {
    var atom := IsAtom(s);
    if atom {
      return s;
    }
    out := PrintString(s);
  }

  /** A text that spells a string of moderate length, or any string as a literal or an atom, is not a fatal error. */
  lemma NotFatal(t: string, s: string, n: nat, rest: string, goAhead: bool, kind: Kind, alloc: nat)
    requires t != "" && XString(t, kind) == Finished(s, n, rest, goAhead)
    requires t[0] == '"' ==> |s| <= MAXQUOTED
    requires kind == NSTRING ==> t[0] != 'N'
    ensures !FatalFor(t, kind, alloc)
  {
    LimitBounds(alloc, MAXQUOTED);
  }

  /** The string `s`, spelled as `text`, is read by a parser that has `rest` to read behind it. */
  method ReadText(text: string, s: string, rest: string, ghost wait: bool, kind: Kind, buf: Buf)
    returns (pin: Input, c: int, goAhead: bool, fatal: bool)
    requires buf.Valid() && text != "" && (text[0] == '"' ==> |s| <= MAXQUOTED) && (kind == NSTRING ==> text[0] != 'N')
    requires XString(text + rest, kind) == Finished(s, |text|, rest, wait)
    modifies buf, buf.s
    ensures ReadAs(pin, buf, s, rest, c, fatal) && goAhead == wait
  {
    pin := new Input(text + rest);
    assert pin.Rest() == text + rest;
    NotFatal(text + rest, s, |text|, rest, wait, kind, StartSize(buf.alloc));
    c, goAhead, fatal := GetXString(pin, buf, kind);
    Behind(text, rest);
  }

  lemma Behind(text: string, rest: string)
    ensures (text + rest)[|text|..] == rest
    ensures rest != "" ==> (text + rest)[|text| + 1..] == rest[1..]
  {
  }

  /** The parser got the string, the next character, and stands behind it. */
  ghost predicate ReadAs(pin: Input, buf: Buf, s: string, rest: string, c: int, fatal: bool)
    reads pin, buf, buf.s
  {
    && !fatal && pin.Valid() && buf.Valid() && buf.Text() == s && c == NextChar(rest)
    && pin.Rest() == if rest == "" then "" else rest[1..]
  }

  /** What printstring prints, getxstring reads: the same string, exactly to its end, and no fatal error. */
  method PrintAndRead(s: string, rest: string, kind: Kind, buf: Buf)
    returns (pin: Input, c: int, goAhead: bool, fatal: bool)
    requires buf.Valid() && '\0' !in s && |s| <= MAXLITERAL && (kind == QSTRING ==> Quotable(s))
    modifies buf, buf.s
    ensures ReadAs(pin, buf, s, rest, c, fatal) && (goAhead <==> !Quotable(s))
  {
    var text := PrintString(s);
    PrintedRoundTrip(s, rest, kind);
    pin, c, goAhead, fatal := ReadText(text, s, rest, !Quotable(s), kind, buf);
  }

  /** So it is with printastring, in front of something that ends a word. */
  method PrintAndReadAString(s: string, rest: string, kind: Kind, buf: Buf)
    returns (pin: Input, c: int, goAhead: bool, fatal: bool)
    requires buf.Valid() && '\0' !in s && |s| <= MAXLITERAL && (kind == ASTRING || kind == BIN_ASTRING)
    requires rest == "" || EndsWord(rest[0])
    modifies buf, buf.s
    ensures ReadAs(pin, buf, s, rest, c, fatal) && (goAhead <==> !IsAtomText(s) && !Quotable(s))
  {
    var text := PrintAString(s);
    PrintedAStringRoundTrip(s, rest, kind);
    pin, c, goAhead, fatal := ReadText(text, s, rest, !IsAtomText(s) && !Quotable(s), kind, buf);
  }

  /** And with the literal that is sent on without waiting. */
  method ForwardAndRead(s: string, rest: string, kind: Kind, buf: Buf)
    returns (pin: Input, c: int, goAhead: bool, fatal: bool)
    requires buf.Valid() && '\0' !in s && |s| <= MAXLITERAL && kind != QSTRING
    modifies buf, buf.s
    ensures ReadAs(pin, buf, s, rest, c, fatal) && !goAhead
  {
    NoWaitRoundTrip(s, rest, kind);
    pin, c, goAhead, fatal := ReadText(LiteralForm(s, true), s, rest, false, kind, buf);
  }
}
