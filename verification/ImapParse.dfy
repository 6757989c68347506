/**
 The parser of client commands: words, strings in their three forms, and the rest of a command that cannot
 be parsed.
 */
module ImapParse {
  import opened Wrappers
  import opened Decimal
  import opened ProtStream
  import opened WireStrings

  const BUFGROWSIZE: nat := 100

  newtype int32 = x: int | -0x8000_0000 <= x < 0x8000_0000

  /** The growing buffer: `alloc` characters and room for a NUL. */
  class Buf {
    var s: array<char>
    var len: nat
    var alloc: nat

    constructor ()
      ensures Valid() && fresh(s)
    {
      s := new char[0];
      len, alloc := 0, 0;
    }

    predicate Valid()
      reads this
    {
      len <= alloc && (alloc == 0 || s.Length == alloc + 1)
    }

    function Text(): string
      requires Valid()
      reads this, s
    {
      if alloc == 0 then "" else s[..len]
    }

    /** There is room for a string, and its first `n` characters are in place. */
    predicate Filling(n: nat)
      reads this
    {
      Valid() && n <= alloc && alloc > 0
    }

    method Start()
      requires Valid()
      modifies this
      ensures Filling(0) && (s == old(s) || fresh(s)) && alloc == StartSize(old(alloc))
    {
      if alloc == 0 {
        alloc := BUFGROWSIZE;
        s := new char[alloc + 1];
      }
    }

    /** xrealloc to the new size */
    method Grow(to: nat)
      requires Filling(len) && to >= alloc
      modifies this`s, this`alloc
      ensures Valid() && alloc == to && fresh(s) && s[..old(alloc)] == old(s[..alloc])
    {
      var r := new char[to + 1];
      for i := 0 to alloc
        modifies r
        invariant r[..i] == s[..i]
      {
        r[i] := s[i];
      }
      s, alloc := r, to;
    }

    /** Store one more character, growing the buffer when it is full. */
    method Put(n: nat, c: char) returns (grown: bool)
      requires Filling(n)
      modifies this`s, this`alloc, s
      ensures Filling(n + 1) && (s == old(s) || fresh(s))
      ensures s[..n + 1] == old(s[..n]) + [c]
      ensures grown == (n == old(alloc)) && alloc == old(alloc) + (if grown then BUFGROWSIZE else 0)
    {
      grown := n == alloc;
      if grown {
        Grow(alloc + BUFGROWSIZE);
      }
      s[n] := c;
      assert s[..n] == old(s[..n]);
    }

    /** The string ends here. */
    method Finish(n: nat)
      requires Filling(n)
      modifies this`len, s
      ensures Filling(n) && len == n && Text() == old(s[..n])
    {
      s[n] := '\0';
      len := n;
    }
  }

  function StartSize(alloc: nat): nat {
    if alloc == 0 then BUFGROWSIZE else alloc
  }

  /** How long a string may become before a buffer of this size makes it a fatal error: the length is only looked at
      when the buffer grows. */
  function Limit(alloc: nat, max: nat): nat
    decreases max - alloc
  {
    if alloc > max then alloc else Limit(alloc + BUFGROWSIZE, max)
  }

  /** A limit is never below the nominal one, and for a small buffer it is not far above. */
  lemma {:induction false} LimitBounds(alloc: nat, max: nat)
    ensures max < Limit(alloc, max) && alloc <= Limit(alloc, max)
    ensures alloc <= max ==> Limit(alloc, max) <= max + BUFGROWSIZE
    decreases max - alloc
  {
    if alloc <= max {
      LimitBounds(alloc + BUFGROWSIZE, max);
    }
  }

  /** What a reader has done is what was to be expected of the text it found. */
  predicate Delivers(g: Got, c: int, text: string, used: int, goAhead: bool) {
    g.Got? && c == g.c && used == g.used && goAhead == g.goAhead && (g.text.Some? ==> text == g.text.value)
  }

  /** Of the word at the beginning of `t` `acc` has been read, and `rest` is what is left of the text. */
  ghost predicate Reading(t: string, acc: string, rest: string) {
    && WordFrom(t, "") == More(|acc|, WordFrom(rest, acc))
    && |Word(t)| == |acc| + |Word(rest)|
  }

  lemma ReadingStarts(t: string)
    ensures Reading(t, "", t)
  {
  }

  lemma ReadingOn(t: string, acc: string, rest: string)
    requires Reading(t, acc, rest) && rest != "" && !EndsWord(rest[0])
    ensures Reading(t, acc + [rest[0]], rest[1..]) && |Word(t)| > |acc|
  {
    MoreTwice(|acc|, 1, WordFrom(rest[1..], acc + [rest[0]]));
  }

  lemma ReadingEnds(t: string, acc: string, rest: string)
    requires Reading(t, acc, rest) && (rest == "" || EndsWord(rest[0]))
    ensures WordFrom(t, "") == Finished(acc, |acc|, rest, false) && |Word(t)| == |acc|
  {
  }

  /** getword: a word and the character that ends it. */
  method GetWord(pin: Input, buf: Buf) returns (c: int, fatal: bool)
    requires pin.Valid() && buf.Valid()
    modifies pin, buf, buf.s
    ensures pin.Valid() && buf.Valid() && (buf.s == old(buf.s) || fresh(buf.s))
    ensures fatal <==> |Word(old(pin.Rest()))| > Limit(StartSize(old(buf.alloc)), MAXWORD)
    ensures !fatal ==> Delivers(WordFrom(old(pin.Rest()), ""), c, buf.Text(), pin.pos - old(pin.pos), false)
  {
    fatal := false;
    var len: nat := 0;
    ghost var limit := Limit(StartSize(buf.alloc), MAXWORD);
    buf.Start();
    ghost var t, acc, rest := pin.Rest(), "", pin.Rest();
    ReadingStarts(t);
    while true
      invariant Limit(buf.alloc, MAXWORD) == limit && Reading(t, acc, rest)
      invariant pin.Valid() && buf.Filling(len) && (buf.s == old(buf.s) || fresh(buf.s))
      invariant pin.pos == old(pin.pos) + len && pin.Rest() == rest && buf.s[..len] == acc
      decreases |rest|
    {
      var ch;
      c, ch := ReadChar(pin);
      if c == EOF || EndsWord(ch) {
        LimitBounds(buf.alloc, MAXWORD);
        ReadingEnds(t, acc, rest);
        buf.Finish(len);
        return;
      }
      ReadingOn(t, acc, rest);
      var grown := buf.Put(len, ch);
      if grown && len > MAXWORD {
        fatal := true;
        return;
      }
      acc, rest := acc + [rest[0]], rest[1..];
      len := len + 1;
    }
  }

  /** Reading an atom whose first character has been read; it is as long as it is. */
  method GetAtom(pin: Input, buf: Buf, first: int, ch0: char, ghost t: string) returns (c: int)
    requires pin.Valid() && buf.Filling(0)
    requires t != "" && ch0 == t[0] && first == ch0 as int && pin.Rest() == t[1..]
    modifies pin, buf, buf.s
    ensures pin.Valid() && buf.Valid() && (buf.s == old(buf.s) || fresh(buf.s))
    ensures Delivers(WordFrom(t, ""), c, buf.Text(), pin.pos - old(pin.pos) + 1, false)
  {
    c := first;
    var ch, len: nat := ch0, 0;
    ghost var acc, rest := "", t;
    while true
      invariant pin.Valid() && buf.Filling(len) && (buf.s == old(buf.s) || fresh(buf.s)) && buf.s[..len] == acc
      invariant c == NextChar(rest) && (rest != "" ==> ch == rest[0])
      invariant pin.Rest() == if rest == "" then "" else rest[1..]
      invariant pin.pos - old(pin.pos) + 1 == len + if rest == "" then 0 else 1
      invariant WordFrom(t, "") == More(len, WordFrom(rest, acc))
      decreases |rest|
    {
      if c == EOF || EndsWord(ch) {
        buf.Finish(len);
        return;
      }
      var grown := buf.Put(len, ch);
      MoreTwice(len, 1, WordFrom(rest[1..], acc + [rest[0]]));
      acc, rest := acc + [rest[0]], rest[1..];
      len := len + 1;
      c, ch := ReadChar(pin);
    }
  }

  /** What comes next in a quoted string: a character to store, the closing quote, or no string at all. */
  datatype Item = Stored(ch: char) | Closed | Broken

  method QuotedItem(pin: Input) returns (item: Item)
    requires pin.Valid()
    modifies pin
    ensures pin.Valid() && old(pin.pos) <= pin.pos && pin.pos - old(pin.pos) <= |old(pin.Rest())|
    ensures pin.Rest() == old(pin.Rest())[pin.pos - old(pin.pos)..] && (item.Stored? ==> pin.pos > old(pin.pos))
    ensures forall acc :: Quoted(old(pin.Rest()), acc) == AfterItem(item, pin.pos - old(pin.pos), pin.Rest(), acc)
  {
    var c, ch := ReadChar(pin);
    if c == '\\' as int {
      c, ch := ReadChar(pin);
      item := Stored(ch);
    } else if c == '"' as int {
      item := Closed;
    } else if c == EOF || c == '\r' as int || c == '\n' as int {
      if c != EOF {
        pin.Ungetc(c);
      }
      item := Broken;
    } else {
      item := Stored(ch);
    }
  }

  function AfterItem(item: Item, n: nat, rest: string, acc: string): Got {
    match item
    case Stored(ch) => More(n, Quoted(rest, acc + [ch]))
    case Closed => Finished(acc, n, rest, false)
    case Broken => Got(EOF, Some(acc), n, false)
  }

  /** Reading a quoted string, after its opening quote. */
  method GetQuoted(pin: Input, buf: Buf) returns (c: int, fatal: bool)
    requires pin.Valid() && buf.Filling(0)
    modifies pin, buf, buf.s
    ensures pin.Valid() && buf.Valid() && (buf.s == old(buf.s) || fresh(buf.s))
    ensures fatal <==> |QuotedText(old(pin.Rest()))| > Limit(old(buf.alloc), MAXQUOTED)
    ensures !fatal ==> Delivers(Quoted(old(pin.Rest()), ""), c, buf.Text(), pin.pos - old(pin.pos), false)
  {
    c, fatal := EOF, false;
    var len: nat := 0;
    ghost var limit := Limit(buf.alloc, MAXQUOTED);
    ghost var t, acc, rest := pin.Rest(), "", pin.Rest();
    while true
      invariant Limit(buf.alloc, MAXQUOTED) == limit
      invariant pin.Valid() && buf.Filling(len) && (buf.s == old(buf.s) || fresh(buf.s))
      invariant old(pin.pos) <= pin.pos && pin.Rest() == rest && buf.s[..len] == acc
      invariant Quoted(t, "") == More(pin.pos - old(pin.pos), Quoted(rest, acc)) && c == EOF
      decreases |rest|
    {
      ghost var start := pin.pos;
      var item := QuotedItem(pin);
      LimitBounds(buf.alloc, MAXQUOTED);
      if item.Closed? {
        buf.Finish(len);
        var ch;
        c, ch := ReadChar(pin);
        return;
      } else if item.Broken? {
        buf.Finish(len);
        return;
      }
      var grown := buf.Put(len, item.ch);
      rest, acc := pin.Rest(), acc + [item.ch];
      MoreTwice(start - old(pin.pos), pin.pos - start, Quoted(rest, acc));
      if grown && len > MAXQUOTED {
        QuotedGrows(rest, acc);
        fatal := true;
        return;
      }
      len := len + 1;
    }
  }

  /** The text a quoted string is read as. */
  function QuotedText(t: string): string {
    var g := Quoted(t, "");
    if g.Got? && g.text.Some? then g.text.value else ""
  }

  lemma {:induction false} QuotedGrows(t: string, acc: string)
    ensures var g := Quoted(t, acc); g.Got? && g.text.Some? && |g.text.value| >= |acc|
    decreases |t|
  {
    if t != "" && t[0] == '\\' {
      if |t| > 1 {
        QuotedGrows(t[2..], acc + [t[1]]);
      }
    } else if t != "" && t[0] != '"' && t[0] != '\r' && t[0] != '\n' {
      QuotedGrows(t[1..], acc + [t[0]]);
    }
  }

  /** One character if it is the wanted one. */
  method ReadIf(pin: Input, wanted: char) returns (ok: bool)
    requires pin.Valid()
    modifies pin
    ensures pin.Valid() && (ok <==> old(pin.Rest()) != "" && old(pin.Rest())[0] == wanted)
    ensures if ok then pin.pos == old(pin.pos) + 1 && pin.Rest() == old(pin.Rest())[1..]
            else pin.pos == old(pin.pos) && pin.Rest() == old(pin.Rest())
  {
    var c := pin.Getc();
    ok := c == wanted as int;
    if !ok && c != EOF {
      pin.Ungetc(c);
    }
  }

  lemma AgreementStep(t: string)
    ensures Agreement(t, "}\r\n") ==
            if t == "" || t[0] != '}' then 0
            else if |t| == 1 || t[1..][0] != '\r' then 1
            else if |t| == 2 || t[1..][1..][0] != '\n' then 2
            else 3
  {
    var w := "}\r\n";
    if t != "" && t[0] == '}' {
      assert Agreement(t, w) == 1 + Agreement(t[1..], w[1..]);
      if |t| > 1 && t[1] == '\r' {
        assert Agreement(t[1..], w[1..]) == 1 + Agreement(t[1..][1..], w[1..][1..]);
        if |t| > 2 && t[2] == '\n' {
          assert Agreement(t[1..][1..], w[1..][1..]) == 1 + Agreement(t[1..][1..][1..], w[1..][1..][1..]);
        }
      }
    }
  }

  /** The end of a literal's header. */
  method GetHeaderEnd(pin: Input) returns (n: nat)
    requires pin.Valid()
    modifies pin
    ensures pin.Valid() && n == Agreement(old(pin.Rest()), "}\r\n") && pin.pos == old(pin.pos) + n
    ensures pin.Rest() == old(pin.Rest())[n..]
  {
    AgreementStep(pin.Rest());
    n := 0;
    var ok := ReadIf(pin, '}');
    if ok {
      n := 1;
      ok := ReadIf(pin, '\r');
      if ok {
        n := 2;
        ok := ReadIf(pin, '\n');
        n := if ok then 3 else 2;
      }
    }
  }

  lemma DigitAt(t: string, k: nat)
    requires k <= HeadEnd(t)
    ensures k < HeadEnd(t) <==> t[k..] != "" && IsDigit(t[k..][0])
    ensures k < HeadEnd(t) ==> t[..HeadEnd(t)][..k + 1][..k] == t[..HeadEnd(t)][..k] && t[..HeadEnd(t)][k] == t[k..][0]
    ensures k == HeadEnd(t) ==> t[..HeadEnd(t)][..k] == t[..HeadEnd(t)]
  {
    if k < HeadEnd(t) {
      assert t[..HeadEnd(t)][k] == t[k];
    }
  }

  /** The digits of a literal's size.  The accumulator never wraps: it is checked after every digit. */
  method GetDigits(pin: Input) returns (len: int32, sawdigit: bool, fatal: bool)
    requires pin.Valid()
    modifies pin
    ensures pin.Valid()
    ensures var t := old(pin.Rest());
            var h := HeadEnd(t);
            if fatal then Value(t[..h]) > MAXLITERAL
            else 0 <= len as int == Value(t[..h]) <= MAXLITERAL && (sawdigit <==> h > 0) && pin.pos == old(pin.pos) + h && pin.Rest() == t[h..]
  {
    ghost var t, k := pin.Rest(), 0;
    ghost var d := t[..HeadEnd(t)];
    len, sawdigit, fatal := 0, false, false;
    assert d[..0] == "";
    while true
      invariant pin.Valid() && k <= |d| && pin.pos == old(pin.pos) + k && pin.Rest() == t[k..]
      invariant 0 <= len as int == Value(d[..k]) <= MAXLITERAL && (sawdigit <==> k > 0)
      decreases |d| - k
    {
      DigitAt(t, k);
      var c, ch := ReadChar(pin);
      if c == EOF || !IsDigit(ch) {
        if c != EOF {
          pin.Ungetc(c);
        }
        return;
      }
      sawdigit := true;
      len := NextDigit(len, ch, d, k);
      if len as int > MAXLITERAL {
        ValueOfPrefix(d, k + 1);
        fatal := true;
        return;
      }
      k := k + 1;
    }
  }

  /** len = len*10 + c - '0' */
  method NextDigit(len: int32, ch: char, ghost d: string, ghost k: nat) returns (r: int32)
    requires AllDigits(d) && k < |d| && d[k] == ch && d[..k + 1][..k] == d[..k]
    requires 0 <= len as int == Value(d[..k]) <= MAXLITERAL
    ensures 0 <= r as int == Value(d[..k + 1])
  {
    r := len * 10 + DigitValue(ch) as int32;
  }

  /** A literal's header, after its opening brace. */
  method GetHeader(pin: Input) returns (size: nat, plus: bool, ok: bool, fatal: bool)
    requires pin.Valid()
    modifies pin
    ensures pin.Valid()
    ensures var t, used := old(pin.Rest()), pin.pos - old(pin.pos);
            if fatal then HeaderOf(t) == TooLarge
            else
              && 0 <= used <= |t| && pin.Rest() == t[used..]
              && HeaderOf(t) == if ok then Header(size, plus, used) else BadHeader(used)
  {
    ghost var t := pin.Rest();
    ghost var k := HeadEnd(t);
    var len, sawdigit;
    len, sawdigit, fatal := GetDigits(pin);
    size, plus, ok := 0, false, false;
    if fatal {
      return;
    }
    size := len as nat;
    plus := ReadIf(pin, '+');
    ghost var tail := pin.Rest();
    assert tail == t[if plus then k + 1 else k..];
    if !sawdigit {
      return;
    }
    var n := GetHeaderEnd(pin);
    ok := n == 3;
  }

  /** A header of `used` characters has been read; what that makes of the literal. */
  predicate AfterHeader(t: string, kind: Kind, used: int, size: nat, plus: bool, ok: bool) {
    && 0 <= used <= |t|
    && Literal(t, kind) == if ok then More(used, LiteralBody(t[used..], size, kind, !plus)) else Got(EOF, None, used, false)
  }

  lemma HeaderMakes(t: string, kind: Kind, used: int, size: nat, plus: bool, ok: bool, fatal: bool)
    requires if fatal then HeaderOf(t) == TooLarge
             else 0 <= used <= |t| && HeaderOf(t) == if ok then Header(size, plus, used) else BadHeader(used)
    ensures fatal <==> Literal(t, kind) == Fatal
    ensures !fatal ==> AfterHeader(t, kind, used, size, plus, ok)
  {
  }

  method GetLiteralHeader(pin: Input, ghost kind: Kind) returns (size: nat, plus: bool, ok: bool, fatal: bool)
    requires pin.Valid()
    modifies pin
    ensures pin.Valid()
    ensures fatal <==> Literal(old(pin.Rest()), kind) == Fatal
    ensures !fatal ==> AfterHeader(old(pin.Rest()), kind, pin.pos - old(pin.pos), size, plus, ok)
                       && pin.Rest() == old(pin.Rest())[pin.pos - old(pin.pos)..]
  {
    ghost var t, start := pin.Rest(), pin.pos;
    size, plus, ok, fatal := GetHeader(pin);
    HeaderMakes(t, kind, pin.pos - start, size, plus, ok, fatal);
  }

  /** The contents of a literal.  `filled` says how much of it came before the end of the stream. */
  method GetBody(pin: Input, buf: Buf, n: nat) returns (filled: bool)
    requires pin.Valid() && buf.Filling(0)
    modifies pin, buf, buf.s
    ensures pin.Valid() && buf.Valid() && buf.alloc > 0 && buf.len == n && (buf.s == old(buf.s) || fresh(buf.s))
    ensures var t := old(pin.Rest());
            && (filled <==> |t| >= n) && pin.pos == old(pin.pos) + (if filled then n else |t|)
            && (filled ==> buf.Text() == t[..n] && pin.Rest() == t[n..])
  {
    ghost var t := pin.Rest();
    if n >= buf.alloc {
      buf.Grow(n + 1);
    }
    filled := true;
    var i := 0;
    while i < n
      invariant i <= n && i <= |t| && pin.Valid() && pin.pos == old(pin.pos) + i && pin.Rest() == t[i..]
      invariant buf.Filling(n) && (buf.s == old(buf.s) || fresh(buf.s)) && buf.s[..i] == t[..i]
    {
      var c, ch := ReadChar(pin);
      if c == EOF {
        filled := false;
        buf.Finish(n);
        return;
      }
      buf.s[i] := ch;
      assert t[..i + 1] == t[..i] + [t[i]];
      i := i + 1;
    }
    buf.Finish(n);
  }

  /** What follows a literal's header. */
  method GetLiteralBody(pin: Input, buf: Buf, size: nat, kind: Kind, ghost goAhead: bool) returns (c: int)
    requires pin.Valid() && buf.Filling(0)
    modifies pin, buf, buf.s
    ensures pin.Valid() && buf.Valid() && (buf.s == old(buf.s) || fresh(buf.s))
    ensures Delivers(LiteralBody(old(pin.Rest()), size, kind, goAhead), c, buf.Text(), pin.pos - old(pin.pos), goAhead)
  {
    c := EOF;
    var filled := GetBody(pin, buf, size);
    if filled {
      if kind == BIN_ASTRING || '\0' !in buf.Text() {
        var ch;
        c, ch := ReadChar(pin);
      }
    }
  }

  /** A literal, after its opening brace. */
  method GetLiteral(pin: Input, buf: Buf, kind: Kind) returns (c: int, goAhead: bool, fatal: bool)
    requires pin.Valid() && buf.Filling(0)
    modifies pin, buf, buf.s
    ensures pin.Valid() && buf.Valid() && (buf.s == old(buf.s) || fresh(buf.s))
    ensures fatal <==> Literal(old(pin.Rest()), kind) == Fatal
    ensures !fatal ==> Delivers(Literal(old(pin.Rest()), kind), c, buf.Text(), pin.pos - old(pin.pos), goAhead)
  {
    c, goAhead := EOF, false;
    buf.s[0] := '\0';
    var size, plus, ok;
    size, plus, ok, fatal := GetLiteralHeader(pin, kind);
    if fatal || !ok {
      return;
    }
    goAhead := !plus;
    c := GetLiteralBody(pin, buf, size, kind, goAhead);
  }

  /** The atom NIL, of which the first character has been seen; anything else is no string. */
  method GetNil(pin: Input, buf: Buf) returns (c: int, fatal: bool)
    requires pin.Valid() && buf.Filling(0) && pin.Rest() != "" && pin.Rest()[0] == 'N'
    modifies pin, buf, buf.s
    ensures pin.Valid() && buf.Valid() && (buf.s == old(buf.s) || fresh(buf.s))
    ensures fatal <==> |Word(old(pin.Rest()))| > Limit(old(buf.alloc), MAXWORD)
    ensures !fatal ==> Delivers(Unquoted(old(pin.Rest()), NSTRING), c, buf.Text(), pin.pos - old(pin.pos), false)
  {
    ghost var t := pin.Rest();
    c, fatal := GetWord(pin, buf);
    WordIsRead(t, "");
    if !fatal && !IsNil(buf.Text()) {
      if c != EOF {
        pin.Ungetc(c);
      }
      c := EOF;
    }
  }

  /** A string that starts neither with a quote nor with a brace; its first character has been read. */
  method GetPlain(pin: Input, buf: Buf, kind: Kind, first: int, ch: char, ghost t: string) returns (c: int, fatal: bool)
    requires pin.Valid() && buf.Filling(0)
    requires t != "" && ch == t[0] && first == ch as int && pin.Rest() == t[1..] && pin.pos > 0 && pin.data[pin.pos - 1] == ch
    modifies pin, buf, buf.s
    ensures pin.Valid() && buf.Valid() && (buf.s == old(buf.s) || fresh(buf.s))
    ensures fatal <==> kind == NSTRING && ch == 'N' && |Word(t)| > Limit(old(buf.alloc), MAXWORD)
    ensures !fatal ==> Delivers(Unquoted(t, kind), c, buf.Text(), pin.pos - old(pin.pos) + 1, false)
  {
    c, fatal := EOF, false;
    if kind == ASTRING || kind == BIN_ASTRING {
      c := GetAtom(pin, buf, first, ch, t);
      WordIsRead(t, "");
    } else {
      pin.Ungetc(first);
      if kind == NSTRING && ch == 'N' {
        c, fatal := GetNil(pin, buf);
      }
    }
  }

  /** When reading a string with a buffer of this size is a fatal error. */
  predicate FatalFor(t: string, kind: Kind, alloc: nat) {
    if t == "" || CannotStart(t[0]) then false
    else if t[0] == '"' then |QuotedText(t[1..])| > Limit(alloc, MAXQUOTED)
    else if t[0] == '{' then kind != QSTRING && Literal(t[1..], kind) == Fatal
    else kind == NSTRING && t[0] == 'N' && |Word(t)| > Limit(alloc, MAXWORD)
  }

  /** A string whose first character has been read and may start one. */
  method GetString(pin: Input, buf: Buf, kind: Kind, first: int, ch: char, ghost t: string)
    returns (c: int, goAhead: bool, fatal: bool)
    requires pin.Valid() && buf.Filling(0)
    requires t != "" && ch == t[0] && first == ch as int && pin.Rest() == t[1..] && pin.pos > 0 && pin.data[pin.pos - 1] == ch
    requires !CannotStart(ch) && !(ch == '{' && kind == QSTRING)
    modifies pin, buf, buf.s
    ensures pin.Valid() && buf.Valid() && (buf.s == old(buf.s) || fresh(buf.s))
    ensures fatal <==> FatalFor(t, kind, old(buf.alloc))
    ensures !fatal ==> Delivers(XString(t, kind), c, buf.Text(), pin.pos - old(pin.pos) + 1, goAhead)
  {
    goAhead := false;
    if ch == '"' {
      c, fatal := GetQuoted(pin, buf);
    } else if ch == '{' {
      c, goAhead, fatal := GetLiteral(pin, buf, kind);
    } else {
      c, fatal := GetPlain(pin, buf, kind, first, ch, t);
    }
  }

  /** getxstring: `goAhead` says whether the client was told to send its literal. */
  method GetXString(pin: Input, buf: Buf, kind: Kind) returns (c: int, goAhead: bool, fatal: bool)
    requires pin.Valid() && buf.Valid()
    modifies pin, buf, buf.s
    ensures pin.Valid() && buf.Valid() && (buf.s == old(buf.s) || fresh(buf.s))
    ensures fatal <==> FatalFor(old(pin.Rest()), kind, StartSize(old(buf.alloc)))
    ensures !fatal ==> Delivers(XString(old(pin.Rest()), kind), c, buf.Text(), pin.pos - old(pin.pos), goAhead)
  {
    goAhead, fatal := false, false;
    buf.Start();
    ghost var t := pin.Rest();
    var ch;
    c, ch := ReadChar(pin);
    if c == EOF || CannotStart(ch) || (ch == '{' && kind == QSTRING) {
      buf.Finish(0);
      if c != EOF {
        pin.Ungetc(c);
      }
      c := EOF;
    } else {
      c, goAhead, fatal := GetString(pin, buf, kind, c, ch, t);
    }
  }
}
