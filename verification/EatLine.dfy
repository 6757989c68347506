/**
 Skipping the rest of a command that could not be parsed: eatline finds the newline that ends the command,
 not one inside a literal.
 */
module EatLine {
  import opened Wrappers
  import opened Decimal
  import opened ProtStream
  import opened WireStrings

  const STATEDIAGRAM: string := " {+}\r"
  /** The size is an int: it wraps, and counting it down to zero takes as many steps as its 32 bits say. */
  const UINT32: nat := 0x1_0000_0000

  /** Where the scan stands after a character that is no newline: the state, the size, and whether a literal follows. */
  datatype Scan = Scan(state: nat, size: nat, literal: bool)

  /** The size with another digit. */
  function Grown(size: nat, c: char): nat
    requires IsDigit(c)
  {
    (size * 10 + DigitValue(c)) % UINT32
  }

  function Next(c: char, state: nat, size: nat): (s: Scan)
    requires state <= 3
    ensures s.state <= 3
  {
    if c == STATEDIAGRAM[state + 1] then
      if state == 3 then Scan(0, size, true) else Scan(state + 1, if state == 0 then 0 else size, false)
    else if state == 1 && IsDigit(c) then Scan(1, Grown(size, c), false)
    else Scan(0, size, false)
  }

  /** A literal is eaten with the newline before it, as far as it is there. */
  function Width(t: string, s: Scan): (n: nat)
    requires t != ""
    ensures 0 < n <= |t|
  {
    if !s.literal then 1 else if |t| < 2 + s.size then |t| else 2 + s.size
  }

  /** How many of the characters of `t` are eaten, from a state of the scan and the size read so far. */
  function Eaten(t: string, state: nat, size: nat): (n: nat)
    requires state <= 3
    ensures n <= |t|
    decreases |t|
  {
    if t == "" then 0
    else if t[0] == '\n' then 1
    else
      var s := Next(t[0], state, size);
      Width(t, s) + Eaten(t[Width(t, s)..], s.state, s.size)
  }

  /** Part of a command: text without braces or newlines, and a literal that is sent without waiting. */
  datatype Chunk = Chunk(text: string, digits: string, literal: string)

  predicate Plain(s: string) {
    '{' !in s && '\n' !in s
  }

  predicate Proper(c: Chunk) {
    Plain(c.text) && AllDigits(c.digits) && Value(c.digits) == |c.literal| < UINT32
  }

  function LiteralText(digits: string, literal: string): string {
    ['{'] + (digits + (HeaderEnd(true) + literal))
  }

  /** A command: chunks, and plain text up to the newline. */
  function CommandText(chunks: seq<Chunk>, last: string): string {
    if chunks == [] then last + ['\n']
    else chunks[0].text + (LiteralText(chunks[0].digits, chunks[0].literal) + CommandText(chunks[1..], last))
  }

  /** Plain text is passed over. */
  lemma {:induction false} EatsPlain(s: string, rest: string, size: nat)
    requires Plain(s)
    ensures Eaten(s + rest, 0, size) == |s| + Eaten(rest, 0, size)
    decreases |s|
  {
    if s == "" {
      assert s + rest == rest;
    } else {
      assert (s + rest)[1..] == s[1..] + rest;
      EatsPlain(s[1..], rest, size);
    }
  }

  lemma InHeader(c: char, size: nat)
    ensures IsDigit(c) ==> Next(c, 1, size) == Scan(1, Grown(size, c), false)
    ensures c == '+' ==> Next(c, 1, size) == Scan(2, size, false)
  {
  }

  lemma ValueGrows(done: string, c: char)
    requires AllDigits(done) && IsDigit(c)
    ensures AllDigits(done + [c])
    ensures Value(done + [c]) % UINT32 == Grown(Value(done) % UINT32, c)
  {
    assert (done + [c])[..|done|] == done;
    var v, d := Value(done), DigitValue(c);
    assert v * 10 + d == v % UINT32 * 10 + d + (10 * (v / UINT32)) * UINT32;
    WrapMultiple(v % UINT32 * 10 + d, 10 * (v / UINT32));
  }

  lemma WrapMultiple(x: nat, k: nat)
    ensures (x + k * UINT32) % UINT32 == x % UINT32
  {
  }

  lemma {:induction false} EatsDigits(done: string, d: string, rest: string)
    requires AllDigits(done) && AllDigits(d) && rest != "" && rest[0] == '+'
    ensures AllDigits(done + d)
    ensures Eaten(d + rest, 1, Value(done) % UINT32) == |d| + 1 + Eaten(rest[1..], 2, Value(done + d) % UINT32)
    decreases |d|
  {
    if d == "" {
      InHeader('+', Value(done) % UINT32);
      assert d + rest == rest && done + d == done;
    } else {
      InHeader(d[0], Value(done) % UINT32);
      ValueGrows(done, d[0]);
      assert (d + rest)[1..] == d[1..] + rest;
      assert done + d == (done + [d[0]]) + d[1..];
      EatsDigits(done + [d[0]], d[1..], rest);
    }
  }

  /** The rest of a header and the literal. */
  lemma EatsLiteralEnd(literal: string, rest: string)
    ensures Eaten("}\r\n" + (literal + rest), 2, |literal|) == 3 + |literal| + Eaten(rest, 0, |literal|)
  {
    var t := "}\r\n" + (literal + rest);
    assert t[1..] == "\r\n" + (literal + rest);
    assert t[1..][2 + |literal|..] == rest;
  }

  /** A literal is passed over, whatever it contains; of one that is too large, what the wrapped size says. */
  lemma EatsLiteral(digits: string, literal: string, rest: string, size: nat)
    requires AllDigits(digits) && Value(digits) % UINT32 == |literal|
    ensures var t := LiteralText(digits, literal);
            Eaten(t + rest, 0, size) == |t| + Eaten(rest, 0, |literal|)
  {
    LiteralTextThen(digits, literal, rest);
    EatsHeader(digits, "}\r\n" + (literal + rest), size);
    EatsLiteralEnd(literal, rest);
    LiteralTextLength(digits, literal);
  }

  /** `literal` is passed over as a whole, whatever follows. */
  ghost predicate PassedOver(digits: string, literal: string, rest: string, size: nat)
    requires AllDigits(digits)
  {
    Eaten(LiteralText(digits, literal) + rest, 0, size) ==
    |LiteralText(digits, literal)| + Eaten(rest, 0, Value(digits) % UINT32)
  }

  ghost predicate AllPassedOver(digits: string)
    requires AllDigits(digits)
  {
    forall literal: string, rest: string, size: nat :: |literal| == Value(digits) ==> PassedOver(digits, literal, rest, size)
  }

  /** Of a literal that is too large the scan reads the end as text, and stops at a newline it finds there. */
  lemma StopsInLiteral(digits: string, literal: string, rest: string, size: nat)
    requires AllDigits(digits) && Value(digits) == |literal| >= UINT32 && literal[Value(digits) % UINT32] == '\n'
    ensures Eaten(LiteralText(digits, literal) + rest, 0, size) < |LiteralText(digits, literal)|
  {
    var k := Value(digits) % UINT32;
    var skipped, after := literal[..k], literal[k..] + rest;
    assert literal == skipped + literal[k..];
    EatsLiteral(digits, skipped, after, size);
    SplitLiteral(digits, skipped, literal[k..], rest);
    assert after[0] == '\n';
    LiteralTextLength(digits, literal);
    LiteralTextLength(digits, skipped);
  }

  lemma SplitLiteral(digits: string, a: string, b: string, rest: string)
    ensures LiteralText(digits, a + b) + rest == LiteralText(digits, a) + (b + rest)
  {
    LiteralTextThen(digits, a + b, rest);
    LiteralTextThen(digits, a, b + rest);
    Associates(a, b, rest);
  }

  /** Every literal of a size is passed over if and only if the size fits 32 bits. */
  lemma AllPassedOverIff(digits: string)
    requires AllDigits(digits)
    ensures AllPassedOver(digits) <==> Value(digits) < UINT32
  {
    if Value(digits) < UINT32 {
      forall literal: string, rest: string, size: nat | |literal| == Value(digits) ensures PassedOver(digits, literal, rest, size) {
        EatsLiteral(digits, literal, rest, size);
      }
    } else {
      var literal := seq(Value(digits), i => '\n');
      StopsInLiteral(digits, literal, "", 0);
      assert !PassedOver(digits, literal, "", 0);
    }
  }

  lemma LiteralTextLength(digits: string, literal: string)
    ensures |LiteralText(digits, literal)| == |digits| + |literal| + 5
  {
  }

  /** The header of a literal, up to the plus sign. */
  lemma EatsHeader(digits: string, tail: string, size: nat)
    requires AllDigits(digits)
    ensures Eaten(['{'] + (digits + (['+'] + tail)), 0, size) == 2 + |digits| + Eaten(tail, 2, Value(digits) % UINT32)
  {
    var more := digits + (['+'] + tail);
    EatsBrace(more, size);
    assert "" + digits == digits;
    EatsDigits("", digits, ['+'] + tail);
    assert (['+'] + tail)[1..] == tail;
  }

  lemma EatsBrace(more: string, size: nat)
    ensures Eaten(['{'] + more, 0, size) == 1 + Eaten(more, 1, 0)
  {
    assert (['{'] + more)[1..] == more;
  }

  lemma LiteralTextThen(digits: string, literal: string, rest: string)
    ensures LiteralText(digits, literal) + rest == ['{'] + (digits + (['+'] + ("}\r\n" + (literal + rest))))
  {
    Associates(HeaderEnd(true), literal, rest);
    Associates(digits, HeaderEnd(true) + literal, rest);
    Associates(['{'], digits + (HeaderEnd(true) + literal), rest);
    assert HeaderEnd(true) + (literal + rest) == ['+'] + ("}\r\n" + (literal + rest));
  }

  lemma EatsChunk(text: string, l: string, more: string, rest: string, size: nat, size': nat)
    requires Plain(text) && Eaten(l + (more + rest), 0, size) == |l| + Eaten(more + rest, 0, size')
    ensures Eaten(text + (l + more) + rest, 0, size) == |text| + |l| + Eaten(more + rest, 0, size')
  {
    Associates(text, l + more, rest);
    Associates(l, more, rest);
    EatsPlain(text, l + (more + rest), size);
  }

  /** Of a command, exactly the command is eaten, from any character of plain text on. */
  lemma {:induction false} EatsCommand(chunks: seq<Chunk>, last: string, rest: string, size: nat)
    requires (forall i :: 0 <= i < |chunks| ==> Proper(chunks[i])) && Plain(last)
    ensures Eaten(CommandText(chunks, last) + rest, 0, size) == |CommandText(chunks, last)|
    decreases |chunks|
  {
    if chunks == [] {
      assert last + ['\n'] + rest == last + (['\n'] + rest);
      EatsPlain(last, ['\n'] + rest, size);
    } else {
      var c, more := chunks[0], CommandText(chunks[1..], last);
      EatsCommand(chunks[1..], last, rest, |c.literal|);
      EatsLiteral(c.digits, c.literal, more + rest, size);
      EatsChunk(c.text, LiteralText(c.digits, c.literal), more, rest, size, |c.literal|);
    }
  }

  /** A literal that its sender waits to send does not belong to the command: the newline of its header ends it. */
  lemma StopsAtWaiting(digits: string, rest: string, size: nat)
    requires AllDigits(digits)
    ensures Eaten("{" + (digits + ("}\r\n" + rest)), 0, size) == |digits| + 4
  {
    var t := "}\r\n" + rest;
    EatsBrace(digits + t, size);
    DigitsThenWaiting("", digits, t);
    assert "" + digits == digits;
    assert t[1..] == "\r\n" + rest && t[1..][1..] == "\n" + rest;
  }

  lemma {:induction false} DigitsThenWaiting(done: string, d: string, t: string)
    requires AllDigits(done) && AllDigits(d) && t != "" && t[0] == '}'
    ensures exists size :: Eaten(d + t, 1, Value(done) % UINT32) == |d| + 1 + Eaten(t[1..], 0, size)
    decreases |d|
  {
    if d == "" {
      assert d + t == t;
      assert Next('}', 1, Value(done) % UINT32) == Scan(0, Value(done) % UINT32, false);
      assert Eaten(t, 1, Value(done) % UINT32) == 1 + Eaten(t[1..], 0, Value(done) % UINT32);
    } else {
      InHeader(d[0], Value(done) % UINT32);
      ValueGrows(done, d[0]);
      assert (d + t)[1..] == d[1..] + t;
      DigitsThenWaiting(done + [d[0]], d[1..], t);
    }
  }

  /** A literal that getxstring reads is passed over as a whole: both go on at the character behind it. */
  lemma AgreesWithGetXString(s: string, rest: string, kind: Kind, size: nat)
    requires '\0' !in s && |s| <= MAXLITERAL && kind != QSTRING
    ensures var t, n := LiteralForm(s, true) + rest, |LiteralForm(s, true)|;
            XString(t, kind) == Finished(s, n, rest, false) && Eaten(t, 0, size) == n + Eaten(rest, 0, |s|)
  {
    NoWaitRoundTrip(s, rest, kind);
    EatsPrinted(s, rest, size);
  }

  lemma EatsPrinted(s: string, rest: string, size: nat)
    requires |s| <= MAXLITERAL
    ensures Eaten(LiteralForm(s, true) + rest, 0, size) == |LiteralForm(s, true)| + Eaten(rest, 0, |s|)
  {
    PrintThenRead(|s|);
    EatsLiteral(Print(|s|), s, rest, size);
  }

  /** The contents of a literal. */
  method Skip(pin: Input, n: nat)
    requires pin.Valid()
    modifies pin
    ensures pin.Valid() && pin.pos == old(pin.pos) + (if |old(pin.Rest())| < n then |old(pin.Rest())| else n)
    ensures pin.Rest() == old(pin.Rest())[pin.pos - old(pin.pos)..]
  {
    ghost var t := pin.Rest();
    var size := n;
    while size > 0
      invariant 0 <= size <= n && pin.Valid() && pin.pos == old(pin.pos) + (if |t| < n - size then |t| else n - size)
      invariant pin.Rest() == t[pin.pos - old(pin.pos)..]
    {
      var c := pin.Getc();
      size := size - 1;
    }
  }

  /** One character of the scan. */
  method Advance(ch: char, was: nat, sizeWas: nat) returns (state: nat, size: nat, literal: bool)
    requires was <= 3
    ensures Scan(state, size, literal) == Next(ch, was, sizeWas)
  {
    state, size, literal := was, sizeWas, false;
    if ch == STATEDIAGRAM[state + 1] {
      state := state + 1;
      if state == 1 {
        size := 0;
      } else if ch == '\r' {
        state, literal := 0, true;
      }
    } else if state == 1 && IsDigit(ch) {
      size := Grown(size, ch);
    } else {
      state := 0;
    }
  }

  /** One round of the scan: a character that is no newline, and the literal behind it if it completes a header. */
  method EatOne(pin: Input, ch: char, was: nat, sizeWas: nat, ghost rest: string)
    returns (state: nat, size: nat, ghost n: nat)
    requires pin.Valid() && was <= 3
    requires rest != "" && ch == rest[0] && ch != '\n' && pin.Rest() == rest[1..]
    modifies pin
    ensures pin.Valid() && state <= 3 && 0 < n <= |rest|
    ensures pin.pos == old(pin.pos) + n - 1 && pin.Rest() == rest[n..]
    ensures Eaten(rest, was, sizeWas) == n + Eaten(rest[n..], state, size)
  {
    var literal;
    state, size, literal := Advance(ch, was, sizeWas);
    n := Width(rest, Scan(state, size, literal));
    if literal {
      Skip(pin, 1 + size);
    }
    DropDrop(rest, 1, n - 1);
  }

  /** eatline: the first character of the text `t` has been read. */
  method EatLine(pin: Input, first: int, firstChar: char, ghost t: string)
    requires pin.Valid()
    requires t != "" && first == t[0] as int && firstChar == t[0] && pin.Rest() == t[1..]
    modifies pin
    ensures pin.Valid() && pin.pos == old(pin.pos) + Eaten(t, 0, 0) - 1
    ensures pin.Rest() == t[Eaten(t, 0, 0)..]
  {
    var c, ch := first, firstChar;
    var state: nat, size: nat := 0, 0;
    ghost var rest, k := t, 0;
    while true
      invariant pin.Valid() && 0 <= state <= 3 && size >= 0
      invariant rest != "" && c == rest[0] as int && ch == rest[0] && pin.Rest() == rest[1..] && pin.pos == old(pin.pos) + k
      invariant 0 <= k <= |t| && rest == t[k..] && Eaten(t, 0, 0) == k + Eaten(rest, state, size)
      decreases |rest|
    {
      if c == '\n' as int {
        DropDrop(t, k, 1);
        return;
      }
      ghost var n;
      state, size, n := EatOne(pin, ch, state, size, rest);
      DropDrop(t, k, n);
      k, rest := k + n, rest[n..];
      c, ch := ReadChar(pin);
      if c == EOF {
        return;
      }
    }
  }

  lemma DropDrop<T>(t: seq<T>, k: nat, n: nat)
    requires k + n <= |t|
    ensures t[k..][n..] == t[k + n..]
  {
  }
}
