/**
 Strings on the wire: how the server prints them, what its parser makes of the text it reads, and that
 the one undoes the other.
 */
module WireStrings {
  import opened Wrappers
  import opened Decimal
  import opened ProtStream

  const MAXQUOTED: nat := 32768
  const MAXWORD: nat := 32768
  const MAXLITERAL: nat := 107374182

  datatype Kind = ASTRING | BIN_ASTRING | NSTRING | QSTRING | STRING

  /**
   What the parser makes of a text: the character it returns, what it leaves in its buffer (None: nothing it
   has read), how much it has read and whether it has told the client to go ahead; or it gives up the process.
   */
  datatype Got = Got(c: int, text: Option<string>, used: nat, goAhead: bool) | Fatal

  predicate IsSpace(c: char) {
    c == ' ' || 9 <= c as int <= 13
  }

  /** The characters that end a word. */
  predicate EndsWord(c: char) {
    IsSpace(c) || c == '(' || c == ')' || c == '"'
  }

  /** Words end with a space, tab, line feed, vertical tab, form feed or return, a bracket or a quote. */
  lemma EndsWordIff(c: char)
    ensures EndsWord(c) <==> c as int in {32, 9, 10, 11, 12, 13, 40, 41, 34}
  {
  }

  function NextChar(t: string): int {
    if t == "" then EOF else t[0] as int
  }

  /** prot_getc, and what is stored if the result goes into a buffer: end-of-file becomes byte 255. */
  method ReadChar(pin: Input) returns (c: int, ch: char)
    requires pin.Valid()
    modifies pin
    ensures pin.Valid() && pin.pos == old(pin.pos) + (if old(pin.Rest()) == "" then 0 else 1)
    ensures c == NextChar(old(pin.Rest()))
    ensures if old(pin.Rest()) == "" then pin.Rest() == "" && ch == 255 as char
            else pin.Rest() == old(pin.Rest())[1..] && ch == old(pin.Rest())[0]
  {
    c := pin.Getc();
    ch := if c == EOF then 255 as char else pin.data[pin.pos - 1];
  }

  /** `n` characters more have been read. */
  function More(n: nat, g: Got): Got {
    match g
    case Fatal => Fatal
    case Got(c, text, used, goAhead) => Got(c, text, n + used, goAhead)
  }

  /** The parser stands behind a string and reads one character more. */
  function Finished(text: string, n: nat, rest: string, goAhead: bool): Got {
    Got(NextChar(rest), Some(text), n + (if rest == "" then 0 else 1), goAhead)
  }

  /** The word a text begins with. */
  function Word(t: string): (w: string)
    ensures |w| <= |t|
  {
    if t == "" || EndsWord(t[0]) then "" else [t[0]] + Word(t[1..])
  }

  /** Reading a word of which `acc` has been read. */
  function WordFrom(t: string, acc: string): Got {
    if t == "" || EndsWord(t[0]) then Finished(acc, 0, t, false) else More(1, WordFrom(t[1..], acc + [t[0]]))
  }

  lemma {:induction false} WordIsRead(t: string, acc: string)
    ensures WordFrom(t, acc) == Finished(acc + Word(t), |Word(t)|, t[|Word(t)|..], false)
    decreases |t|
  {
    if t == "" || EndsWord(t[0]) {
      assert acc + "" == acc;
    } else {
      WordIsRead(t[1..], acc + [t[0]]);
      assert acc + [t[0]] + Word(t[1..]) == acc + Word(t);
      assert t[1..][|Word(t[1..])|..] == t[|Word(t)|..];
    }
  }

  /** It is the longest prefix without a character that ends a word. */
  lemma {:induction false} WordIsLongest(t: string)
    ensures Word(t) <= t && (forall i :: 0 <= i < |Word(t)| ==> !EndsWord(t[i]))
    ensures |Word(t)| < |t| ==> EndsWord(t[|Word(t)|])
  {
    if t != "" && !EndsWord(t[0]) {
      var n := |Word(t[1..])|;
      WordIsLongest(t[1..]);
      assert t[1..][..n] == Word(t[1..]) && t[..n + 1] == [t[0]] + t[1..][..n];
      forall i | 0 <= i < n + 1 ensures !EndsWord(t[i]) {
        assert i > 0 ==> t[1..][i - 1] == t[i];
      }
    }
  }

  /** The rest of a quoted string of which `acc` has been read.  A lone escape at the end of the stream counts as byte 255. */
  function Quoted(t: string, acc: string): Got {
    if t == "" then Got(EOF, Some(acc), 0, false)
    else if t[0] == '\\' then
      if |t| == 1 then Got(EOF, Some(acc + [255 as char]), 1, false) else More(2, Quoted(t[2..], acc + [t[1]]))
    else if t[0] == '"' then Finished(acc, 1, t[1..], false)
    else if t[0] == '\r' || t[0] == '\n' then Got(EOF, Some(acc), 0, false)
    else More(1, Quoted(t[1..], acc + [t[0]]))
  }

  /** The contents of a literal of `n` characters. */
  function LiteralBody(t: string, n: nat, kind: Kind, goAhead: bool): Got {
    if |t| < n then Got(EOF, None, |t|, goAhead)
    else if kind != BIN_ASTRING && '\0' in t[..n] then Got(EOF, Some(t[..n]), n, goAhead)
    else Finished(t[..n], n, t[n..], goAhead)
  }

  /** How much of a text agrees with what has to come. */
  function Agreement(t: string, wanted: string): (n: nat)
    ensures n <= |t| && n <= |wanted| && t[..n] == wanted[..n]
  {
    if t != "" && wanted != "" && t[0] == wanted[0] then 1 + Agreement(t[1..], wanted[1..]) else 0
  }

  /** A literal's header after its opening brace: the size, whether it has a plus, and how long it is. */
  datatype Header = Header(size: nat, plus: bool, length: nat) | BadHeader(length: nat) | TooLarge

  function HeaderOf(t: string): (r: Header)
    ensures !r.TooLarge? ==> r.length <= |t|
  {
    var h := HeadEnd(t);
    var n, rest := Value(t[..h]), t[h..];
    var plus := rest != "" && rest[0] == '+';
    var tail := if plus then rest[1..] else rest;
    var end, head := Agreement(tail, "}\r\n"), if plus then h + 1 else h;
    if n > MAXLITERAL then TooLarge
    else if h == 0 then BadHeader(head)
    else if end < 3 then BadHeader(head + end)
    else Header(n, plus, head + 3)
  }

  /** A literal, after its opening brace. */
  function Literal(t: string, kind: Kind): Got {
    match HeaderOf(t)
    case TooLarge => Fatal
    case BadHeader(length) => Got(EOF, None, length, false)
    case Header(size, plus, length) => More(length, LiteralBody(t[length..], size, kind, !plus))
  }

  predicate CannotStart(c: char) {
    c == ' ' || c == '(' || c == ')' || c == '\r' || c == '\n'
  }

  /** The atom NIL; what follows a NUL is not compared. */
  predicate IsNil(w: string) {
    w == "NIL" || "NIL\0" <= w
  }

  /** What does not start like a string is an atom, where atoms are allowed, or NIL. */
  function Unquoted(t: string, kind: Kind): Got {
    match kind
    case ASTRING | BIN_ASTRING => var w := Word(t); Finished(w, |w|, t[|w|..], false)
    case NSTRING =>
      var w := Word(t);
      if t != "" && t[0] == 'N' && IsNil(w) then Finished(w, |w|, t[|w|..], false)
      else if t != "" && t[0] == 'N' then Got(EOF, Some(w), |w|, false)
      else Got(EOF, None, 0, false)
    case QSTRING | STRING => Got(EOF, None, 0, false)
  }

  /** getxstring */
  function XString(t: string, kind: Kind): Got {
    if t == "" || CannotStart(t[0]) then Got(EOF, Some(""), 0, false)
    else if t[0] == '"' then More(1, Quoted(t[1..], ""))
    else if t[0] == '{' then
      if kind == QSTRING then Got(EOF, Some(""), 0, false) else More(1, Literal(t[1..], kind))
    else Unquoted(t, kind)
  }

  /** The characters that printstring does not put between quotes. */
  predicate Unquotable(c: char) {
    c as int >= 128 || c == '\r' || c == '\n' || c == '"' || c == '%' || c == '\\'
  }

  predicate Quotable(s: string) {
    |s| < 1024 && forall i :: 0 <= i < |s| ==> !Unquotable(s[i])
  }

  lemma QuotableIff(s: string)
    ensures Quotable(s) <==>
            && |s| < 1024
            && forall i :: 0 <= i < |s| ==>
                 s[i] as int < 128 && s[i] != '\r' && s[i] != '\n' && s[i] != '"' && s[i] != '%' && s[i] != '\\'
  {
  }

  /** Nothing that starts with a space, a bracket or the end of a line is a string. */
  lemma NoStringStarts(c: char, rest: string, kind: Kind)
    requires c in " ()\r\n"
    ensures XString([c] + rest, kind) == Got(EOF, Some(""), 0, false)
  {
  }

  function HeaderEnd(plus: bool): string {
    if plus then "+}\r\n" else "}\r\n"
  }

  /** The literal form of a string; with a plus its sender does not wait to be told to go ahead. */
  function LiteralForm(s: string, plus: bool): string {
    ['{'] + (Print(|s|) + (HeaderEnd(plus) + s))
  }

  lemma LiteralFormIs(s: string)
    ensures LiteralForm(s, false) == "{" + Print(|s|) + "}\r\n" + s
    ensures LiteralForm(s, true) == "{" + Print(|s|) + "+}\r\n" + s
  {
    Regrouped("{", Print(|s|), "}\r\n", s);
    Regrouped("{", Print(|s|), "+}\r\n", s);
  }

  lemma Regrouped(a: string, b: string, c: string, d: string)
    ensures a + b + c + d == a + (b + (c + d))
  {
    assert a + b + c + d == (a + b) + (c + d);
  }

  /** printstring */
  function Printed(s: string): string {
    if Quotable(s) then ['"'] + s + ['"'] else LiteralForm(s, false)
  }

  predicate NotInAtom(c: char) {
    c as int >= 128 || c as int < 0x1f || c as int == 0x7f || c in " {()\"%*\\"
  }

  /** imparse_isatom */
  predicate IsAtomText(s: string) {
    s != "" && |s| < 1024 && forall i :: 0 <= i < |s| ==> !NotInAtom(s[i])
  }

  lemma IsAtomTextIff(s: string)
    ensures IsAtomText(s) <==>
            && 0 < |s| < 1024
            && forall i :: 0 <= i < |s| ==>
                 && 0x1f <= s[i] as int < 0x7f && s[i] != ' ' && s[i] != '{' && s[i] != '(' && s[i] != ')' && s[i] != '"'
                 && s[i] != '%' && s[i] != '*' && s[i] != '\\'
  {
  }

  /** printastring */
  function PrintedAString(s: string): string {
    if IsAtomText(s) then s else Printed(s)
  }

  /** A string the way a client may quote it: any character can be escaped. */
  function Escaped(s: string): string {
    if s == "" then ""
    else (if s[0] == '"' || s[0] == '\\' then ['\\', s[0]] else [s[0]]) + Escaped(s[1..])
  }

  lemma MoreTwice(a: nat, b: nat, g: Got)
    ensures More(a, More(b, g)) == More(a + b, g)
  {
  }

  /** Reading an escaped string undoes the escapes. */
  lemma {:induction false} QuotedEscaped(s: string, acc: string, rest: string)
    requires '\r' !in s && '\n' !in s
    ensures Quoted(Escaped(s) + (['"'] + rest), acc) == Finished(acc + s, |Escaped(s)| + 1, rest, false)
    decreases |s|
  {
    var t := Escaped(s) + (['"'] + rest);
    if s == "" {
      assert t == ['"'] + rest && t[1..] == rest && acc + s == acc;
    } else {
      QuotedEscaped(s[1..], acc + [s[0]], rest);
      assert acc + [s[0]] + s[1..] == acc + s;
      if s[0] == '"' || s[0] == '\\' {
        assert t[2..] == Escaped(s[1..]) + (['"'] + rest);
      } else {
        assert t[1..] == Escaped(s[1..]) + (['"'] + rest);
      }
    }
  }

  lemma {:induction false} QuotableIsEscaped(s: string)
    requires forall i :: 0 <= i < |s| ==> !Unquotable(s[i])
    ensures Escaped(s) == s
  {
    if s != "" {
      QuotableIsEscaped(s[1..]);
    }
  }

  /** The digits of a number, read back. */
  lemma DigitsFirst(n: nat, rest: string)
    requires rest == "" || !IsDigit(rest[0])
    ensures var d := Print(n);
            HeadEnd(d + rest) == |d| && (d + rest)[..|d|] == d && (d + rest)[|d|..] == rest && Value(d) == n && |d| > 0
  {
    var d := Print(n);
    PrintThenRead(n);
    HeadOfDigits(d);
    if rest != "" {
      HeadEndOfDigitsThen(d, rest);
    } else {
      assert d + rest == d;
    }
  }

  lemma {:induction false} HeadEndOfDigitsThen(d: string, rest: string)
    requires AllDigits(d) && rest != "" && !IsDigit(rest[0])
    ensures HeadEnd(d + rest) == |d|
  {
    if d == "" {
      assert d + rest == rest;
    } else {
      assert (d + rest)[1..] == d[1..] + rest;
      HeadEndOfDigitsThen(d[1..], rest);
    }
  }

  lemma AgreesWithAll(wanted: string, rest: string)
    ensures Agreement(wanted + rest, wanted) == |wanted|
  {
    if wanted != "" {
      assert (wanted + rest)[1..] == wanted[1..] + rest;
      AgreesWithAll(wanted[1..], rest);
    }
  }

  lemma HeaderRoundTrip(n: nat, plus: bool, rest: string)
    ensures HeaderOf(Print(n) + (HeaderEnd(plus) + rest)) ==
            if n > MAXLITERAL then TooLarge else Header(n, plus, |Print(n)| + |HeaderEnd(plus)|)
  {
    var end := HeaderEnd(plus);
    DigitsFirst(n, end + rest);
    if plus {
      assert (end + rest)[1..] == HeaderEnd(false) + rest;
    }
    AgreesWithAll(HeaderEnd(false), rest);
  }

  lemma BodyRoundTrip(s: string, rest: string, kind: Kind, goAhead: bool)
    ensures LiteralBody(s + rest, |s|, kind, goAhead) ==
            if kind != BIN_ASTRING && '\0' in s then Got(EOF, Some(s), |s|, goAhead)
            else Finished(s, |s|, rest, goAhead)
  {
    assert (s + rest)[..|s|] == s && (s + rest)[|s|..] == rest;
  }

  lemma Behind<T>(a: seq<T>, b: seq<T>, c: seq<T>)
    ensures (a + (b + c))[|a| + |b|..] == c
  {
  }

  lemma Associates<T>(a: seq<T>, b: seq<T>, c: seq<T>)
    ensures (a + b) + c == a + (b + c)
  {
  }

  lemma LiteralBehind(t: string, h: Header, body: string, kind: Kind)
    requires h.Header? && HeaderOf(t) == h && t[h.length..] == body
    ensures Literal(t, kind) == More(h.length, LiteralBody(body, h.size, kind, !h.plus))
  {
  }

  /** What reading a literal of `n` characters, header included, gives. */
  function LiteralRead(n: nat, s: string, plus: bool, rest: string, kind: Kind): Got {
    if |s| > MAXLITERAL then Fatal
    else if kind != BIN_ASTRING && '\0' in s then Got(EOF, Some(s), n, !plus)
    else Finished(s, n, rest, !plus)
  }

  lemma LiteralGives(t: string, h: Header, s: string, rest: string, kind: Kind)
    requires h.Header? && h.size == |s| && HeaderOf(t) == h && t[h.length..] == s + rest
    ensures Literal(t, kind) ==
            if kind != BIN_ASTRING && '\0' in s then Got(EOF, Some(s), h.length + |s|, !h.plus)
            else Finished(s, h.length + |s|, rest, !h.plus)
  {
    LiteralBehind(t, h, s + rest, kind);
    BodyRoundTrip(s, rest, kind, !h.plus);
  }

  /** A literal is read back, or the process gives up: exactly when it is longer than the parser accepts. */
  lemma LiteralRoundTrip(t: string, d: string, n: nat, s: string, plus: bool, rest: string, kind: Kind)
    requires t == d + (HeaderEnd(plus) + (s + rest)) && n == 1 + |d| + |HeaderEnd(plus)| + |s|
    requires HeaderOf(t) == if |s| > MAXLITERAL then TooLarge else Header(|s|, plus, |d| + |HeaderEnd(plus)|)
    ensures More(1, Literal(t, kind)) == LiteralRead(n, s, plus, rest, kind)
  {
    Behind(d, HeaderEnd(plus), s + rest);
    if |s| <= MAXLITERAL {
      LiteralGives(t, HeaderOf(t), s, rest, kind);
    }
  }

  lemma BraceFirst(t: string, body: string, kind: Kind)
    requires kind != QSTRING && t == ['{'] + body
    ensures XString(t, kind) == More(1, Literal(body, kind))
  {
    assert t[1..] == body;
  }

  lemma LiteralFormThen(s: string, plus: bool, rest: string)
    ensures LiteralForm(s, plus) + rest == ['{'] + (Print(|s|) + (HeaderEnd(plus) + (s + rest)))
  {
    var d, end := Print(|s|), HeaderEnd(plus);
    Associates(end, s, rest);
    Associates(d, end + s, rest);
    Associates(['{'], d + (end + s), rest);
  }

  lemma LiteralFormLength(s: string, plus: bool)
    ensures |LiteralForm(s, plus)| == 1 + |Print(|s|)| + |HeaderEnd(plus)| + |s|
  {
  }

  lemma LiteralFormStarts(s: string, plus: bool, rest: string, kind: Kind)
    requires kind != QSTRING
    ensures XString(LiteralForm(s, plus) + rest, kind) ==
            More(1, Literal(Print(|s|) + (HeaderEnd(plus) + (s + rest)), kind))
  {
    LiteralFormThen(s, plus, rest);
    BraceFirst(LiteralForm(s, plus) + rest, Print(|s|) + (HeaderEnd(plus) + (s + rest)), kind);
  }

  lemma LiteralFormRoundTrip(s: string, plus: bool, rest: string, kind: Kind)
    requires kind != QSTRING
    ensures XString(LiteralForm(s, plus) + rest, kind) == LiteralRead(|LiteralForm(s, plus)|, s, plus, rest, kind)
  {
    LiteralFormStarts(s, plus, rest, kind);
    LiteralFormLength(s, plus);
    LiteralBodyRead(Print(|s|) + (HeaderEnd(plus) + (s + rest)), |LiteralForm(s, plus)|, s, plus, rest, kind);
  }

  lemma LiteralBodyRead(t: string, n: nat, s: string, plus: bool, rest: string, kind: Kind)
    requires t == Print(|s|) + (HeaderEnd(plus) + (s + rest)) && n == 1 + |Print(|s|)| + |HeaderEnd(plus)| + |s|
    ensures More(1, Literal(t, kind)) == LiteralRead(n, s, plus, rest, kind)
  {
    HeaderRoundTrip(|s|, plus, s + rest);
    LiteralRoundTrip(t, Print(|s|), n, s, plus, rest, kind);
  }

  lemma QuoteFirst(t: string, body: string, kind: Kind)
    requires t == ['"'] + body
    ensures XString(t, kind) == More(1, Quoted(body, ""))
  {
    assert t[1..] == body;
  }

  lemma QuotableMeans(s: string)
    requires Quotable(s)
    ensures Escaped(s) == s && '\r' !in s && '\n' !in s
  {
    QuotableIsEscaped(s);
    assert Unquotable('\r') && Unquotable('\n');
  }

  lemma QuotedRoundTrip(t: string, s: string, rest: string, kind: Kind)
    requires Quotable(s) && t == ['"'] + s + ['"'] + rest
    ensures XString(t, kind) == Finished(s, |s| + 2, rest, false)
  {
    QuotableMeans(s);
    QuotedEscaped(s, "", rest);
    assert "" + s == s;
    assert t == ['"'] + (s + (['"'] + rest));
    QuoteFirst(t, s + (['"'] + rest), kind);
  }

  /**
   What printstring prints is read back as it was, and nothing but it and the character after it is read;
   the client is asked for a literal exactly when the string cannot be quoted.
   */
  lemma PrintedRoundTrip(s: string, rest: string, kind: Kind)
    requires '\0' !in s && |s| <= MAXLITERAL
    requires kind == QSTRING ==> Quotable(s)
    ensures XString(Printed(s) + rest, kind) == Finished(s, |Printed(s)|, rest, !Quotable(s))
  {
    if Quotable(s) {
      QuotedRoundTrip(Printed(s) + rest, s, rest, kind);
    } else {
      LiteralFormRoundTrip(s, false, rest, kind);
    }
  }

  /** So is what a proxy sends to a backend. */
  lemma NoWaitRoundTrip(s: string, rest: string, kind: Kind)
    requires '\0' !in s && |s| <= MAXLITERAL && kind != QSTRING
    ensures XString(LiteralForm(s, true) + rest, kind) == Finished(s, |LiteralForm(s, true)|, rest, false)
  {
    LiteralFormRoundTrip(s, true, rest, kind);
  }

  /** printastring's output, followed by something that ends a word. */
  lemma PrintedAStringRoundTrip(s: string, rest: string, kind: Kind)
    requires '\0' !in s && |s| <= MAXLITERAL && (kind == ASTRING || kind == BIN_ASTRING)
    requires rest == "" || EndsWord(rest[0])
    ensures XString(PrintedAString(s) + rest, kind) ==
            Finished(s, |PrintedAString(s)|, rest, !IsAtomText(s) && !Quotable(s))
  {
    if IsAtomText(s) {
      var t := s + rest;
      assert !NotInAtom(s[0]);
      WordOf(s, rest);
      assert t[|s|..] == rest;
    } else {
      PrintedRoundTrip(s, rest, kind);
    }
  }

  lemma {:induction false} WordOf(s: string, rest: string)
    requires forall i :: 0 <= i < |s| ==> !NotInAtom(s[i])
    requires rest == "" || EndsWord(rest[0])
    ensures Word(s + rest) == s
  {
    if s == "" {
      assert s + rest == rest;
    } else {
      assert (s + rest)[1..] == s[1..] + rest;
      WordOf(s[1..], rest);
    }
  }

  /** A quoted string that the end of the line comes before is none, and the end of the line is left. */
  lemma UnclosedQuote(s: string, rest: string, kind: Kind)
    requires '\r' !in s && '\n' !in s && '"' !in s && '\\' !in s && rest != "" && rest[0] in "\r\n"
    ensures XString(['"'] + (s + rest), kind) == Got(EOF, Some(s), 1 + |s|, false)
  {
    QuoteFirst(['"'] + (s + rest), s + rest, kind);
    UnclosedFrom(s, "", rest);
    assert "" + s == s;
  }

  lemma {:induction false} UnclosedFrom(s: string, acc: string, rest: string)
    requires '\r' !in s && '\n' !in s && '"' !in s && '\\' !in s && rest != "" && rest[0] in "\r\n"
    ensures Quoted(s + rest, acc) == Got(EOF, Some(acc + s), |s|, false)
    decreases |s|
  {
    if s == "" {
      assert s + rest == rest && acc + s == acc;
    } else {
      assert (s + rest)[1..] == s[1..] + rest && s[0] in s && forall c :: c in s[1..] ==> c in s;
      UnclosedFrom(s[1..], acc + [s[0]], rest);
      assert acc + [s[0]] + s[1..] == acc + s;
    }
  }

  /** A literal with a NUL is refused after it has been read, but by the binary parser; and quoted-string parsers refuse
      every literal. */
  lemma LiteralRefused(s: string, plus: bool, rest: string, kind: Kind)
    requires |s| <= MAXLITERAL
    ensures kind == QSTRING ==> XString(LiteralForm(s, plus) + rest, kind) == Got(EOF, Some(""), 0, false)
    ensures kind != QSTRING && kind != BIN_ASTRING && '\0' in s ==>
              XString(LiteralForm(s, plus) + rest, kind) == Got(EOF, Some(s), |LiteralForm(s, plus)|, !plus)
    ensures kind == BIN_ASTRING ==>
              XString(LiteralForm(s, plus) + rest, kind) == Finished(s, |LiteralForm(s, plus)|, rest, !plus)
  {
    if kind == QSTRING {
      LiteralFormThen(s, plus, rest);
    } else {
      LiteralFormRoundTrip(s, plus, rest, kind);
    }
  }

  /** Bare words are strings only for astrings; for nstrings NIL is the only one, and for others there is none. */
  lemma BareWord(w: string, rest: string, kind: Kind)
    requires w != "" && (forall i :: 0 <= i < |w| ==> !NotInAtom(w[i])) && (rest == "" || EndsWord(rest[0]))
    ensures kind == ASTRING || kind == BIN_ASTRING ==> XString(w + rest, kind) == Finished(w, |w|, rest, false)
    ensures kind == NSTRING ==>
              if w == "NIL" then XString(w + rest, kind) == Finished(w, |w|, rest, false)
              else XString(w + rest, kind).Got? && XString(w + rest, kind).c == EOF
    ensures kind == QSTRING || kind == STRING ==> XString(w + rest, kind) == Got(EOF, None, 0, false)
  {
    var t := w + rest;
    WordOf(w, rest);
    assert !NotInAtom(w[0]) && t[0] == w[0] && t[|w|..] == rest;
    assert |w| > 3 ==> w[3] != '\0';
  }
}
