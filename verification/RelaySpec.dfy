/**
 What relaying a backend's response means: the stream as lines and literals, and what of it
 should be read and written.
 */
module RelaySpec {
  import opened Wrappers
  import opened Decimal

  const INT_MAX: nat := 0x7fff_ffff
  /** The longest digit run that still fits, with its brackets, in what is remembered of a line. */
  const MAX_DIGITS: nat := 58

  datatype Status = OK | NO | BAD | NOCONNECTION | ABORTED

  /** The size announced by a line that ends with a literal. */
  function LiteralSize(line: string): Option<nat> {
    if |line| >= 4 && line[|line| - 3..] == "}\r\n" then
      var t := line[..|line| - 3];
      var i := TailStart(t);
      if i > 0 && t[i - 1] == '{' then Some(Value(t[i..])) else None
    else None
  }

  /** No NUL, and a digit run before the closing bracket that is short and fits an int. */
  predicate Tame(line: string) {
    && '\0' !in line
    && (|line| >= 4 && line[|line| - 3..] == "}\r\n" ==>
          |line| - 3 - TailStart(line[..|line| - 3]) <= MAX_DIGITS)
    && (LiteralSize(line).Some? ==> LiteralSize(line).value <= INT_MAX)
  }

  /** What the character behind the tag says; anything else counts as a lost connection. */
  function StatusOf(c: char): Status {
    if c == 'O' || c == 'o' then OK
    else if c == 'N' || c == 'n' then NO
    else if c == 'B' || c == 'b' then BAD
    else NOCONNECTION
  }

  /** The bracket of a literal, its digits and the end of the line announce a size, and nothing else does. */
  lemma AnnouncedSize(text: string, digits: string)
    requires AllDigits(digits)
    ensures LiteralSize(text + "{" + digits + "}\r\n") == Some(Value(digits))
  {
    var line := text + "{" + digits + "}\r\n";
    var t := line[..|line| - 3];
    assert t == text + "{" + digits && line[|line| - 3..] == "}\r\n";
    TailBehind(text + "{", digits);
    assert t[|text| + 1..] == digits && t[|text|] == '{';
  }

  lemma {:induction false} TailBehind(a: string, digits: string)
    requires AllDigits(digits) && a != "" && !IsDigit(a[|a| - 1])
    ensures TailStart(a + digits) == |a|
    decreases |digits|
  {
    if digits == "" {
      assert a + digits == a;
    } else {
      assert (a + digits)[..|a + digits| - 1] == a + digits[..|digits| - 1];
      TailBehind(a, digits[..|digits| - 1]);
    }
  }

  lemma SizeIsAnnounced(line: string)
    requires LiteralSize(line).Some?
    ensures exists text, digits :: Announces(line, text, digits)
  {
    var t := line[..|line| - 3];
    var i := TailStart(t);
    assert t == t[..i - 1] + "{" + t[i..];
    assert Announces(line, t[..i - 1], t[i..]);
  }

  ghost predicate Announces(line: string, text: string, digits: string) {
    AllDigits(digits) && line == text + "{" + digits + "}\r\n"
  }

  predicate Tagged(tag: Option<string>, line: string) {
    tag.Some? && tag.value + " " <= line
  }

  datatype Mode = Mode(tag: Option<string>, includeTag: bool)

  function Shown(mode: Mode, last: bool, text: string): string {
    if !last || mode.includeTag then text else ""
  }

  /** What belongs to the response that ends the relay. */
  function Held(last: bool, text: string): string {
    if last then text else ""
  }

  /** Whether the tagged line has been seen, and what it said. */
  datatype Seen = Seen(last: bool, status: Status)

  /** What the first characters of a response line tell. */
  function Notice(mode: Mode, line: string, seen: Seen): Seen {
    if !Tagged(mode.tag, line) then seen
    else Seen(true, if |line| == |mode.tag.value| + 1 then NOCONNECTION else StatusOf(line[|mode.tag.value| + 1]))
  }

  /** A line as the backend sends it, up to its newline, and the contents of the literal it ends with, if any. */
  datatype Piece = Piece(line: string, literal: Option<string>)

  function PieceText(p: Piece): string {
    p.line + (if p.literal.Some? then p.literal.value else "")
  }

  function Text(pieces: seq<Piece>): string {
    if pieces == [] then "" else PieceText(pieces[0]) + Text(pieces[1..])
  }

  /** One line, and as much literal as it announces. */
  ghost predicate Proper(p: Piece) {
    && p.line != "" && p.line[|p.line| - 1] == '\n'
    && (forall i :: 0 <= i < |p.line| - 1 ==> p.line[i] != '\n')
    && Tame(p.line)
    && LiteralSize(p.line) == (if p.literal.Some? then Some(|p.literal.value|) else None)
  }

  /** Any line without a NUL that does not look like the end of a literal's header is a piece. */
  lemma PlainLine(text: string)
    requires '\0' !in text && '\n' !in text && (text == "" || text[|text| - 1] != '}')
    ensures Proper(Piece(text + "\r\n", None))
  {
    var line := text + "\r\n";
    if |line| >= 4 {
      assert line[|line| - 3..][0] == line[|line| - 3] == text[|text| - 1];
    }
  }

  /** And so is a line that announces a literal, with as much literal. */
  lemma LiteralLine(text: string, literal: string)
    requires '\0' !in text && '\n' !in text && |literal| <= 0x7fff_ffff
    ensures Proper(Piece(text + "{" + Print(|literal|) + "}\r\n", Some(literal)))
  {
    PrintThenRead(|literal|);
    TenDigits(|literal|);
    AnnouncingLine(text, Print(|literal|), text + "{" + Print(|literal|) + "}\r\n", literal);
  }

  lemma AnnouncingLine(text: string, d: string, line: string, literal: string)
    requires '\0' !in text && '\n' !in text && AllDigits(d) && |d| <= MAX_DIGITS && Value(d) == |literal| <= INT_MAX
    requires line == text + "{" + d + "}\r\n"
    ensures Proper(Piece(line, Some(literal)))
  {
    hide LiteralSize, TailStart, Value;
    AnnouncedSize(text, d);
    RunOfDigits(text, d, line);
    OneLine(text, d);
    assert line[|line| - 1] == '\n';
  }

  lemma RunOfDigits(text: string, d: string, line: string)
    requires AllDigits(d) && line == text + "{" + d + "}\r\n"
    ensures |line| - 3 - TailStart(line[..|line| - 3]) == |d|
  {
    assert line[..|line| - 3] == text + "{" + d;
    TailBehind(text + "{", d);
  }

  lemma TenDigits(n: nat)
    requires n <= 0x7fff_ffff
    ensures |Print(n)| <= 10
  {
    assert Pow10(3) == 1000 && Pow10(6) == 1000 * Pow10(3) && Pow10(9) == 1000 * Pow10(6) && Pow10(10) == 10 * Pow10(9);
    PrintLength(n, 10);
  }

  lemma OneLine(text: string, d: string)
    requires '\0' !in text && '\n' !in text && AllDigits(d)
    ensures var line := text + "{" + d + "}\r\n"; '\0' !in line && forall i :: 0 <= i < |line| - 1 ==> line[i] != '\n'
  {
    var line := text + "{" + d + "}\r\n";
    forall i | 0 <= i < |line| ensures line[i] != '\0' && (i < |line| - 1 ==> line[i] != '\n') {
      if i < |text| {
        assert line[i] == text[i] && text[i] in text;
      } else if |text| < i < |text| + 1 + |d| {
        assert line[i] == d[i - |text| - 1];
      }
    }
  }

  ghost predicate WellFormed(pieces: seq<Piece>) {
    forall i :: 0 <= i < |pieces| ==> Proper(pieces[i])
  }

  /** A relay: the result, how much of the backend's stream was read, what was written to the client, and the response
      that ended it, if one did before the stream was over. */
  datatype Relay = Relay(status: Status, length: nat, out: string, tagged: string, ended: bool)

  const OVER := Relay(NOCONNECTION, 0, "", "", false)

  function Ended(status: Status): Relay {
    Relay(status, 0, "", "", true)
  }

  /**
   What should be relayed of a stream of pieces that ends with them.  `atStart` says that the first piece starts a
   response.
   */
  function Expected(mode: Mode, pieces: seq<Piece>, atStart: bool, seen: Seen): Relay {
    if pieces == [] then OVER
    else
      var now := if atStart then Notice(mode, pieces[0].line, seen) else seen;
      After(mode, PieceText(pieces[0]), now,
            if pieces[0].literal.None? && now.last then Ended(now.status)
            else Expected(mode, pieces[1..], pieces[0].literal.None?, now))
  }

  /** The relay `r` preceded by `text`. */
  function After(mode: Mode, text: string, seen: Seen, r: Relay): Relay {
    Relay(r.status, |text| + r.length, Shown(mode, seen.last, text) + r.out, Held(seen.last, text) + r.tagged, r.ended)
  }

  lemma AfterTwice(mode: Mode, a: string, b: string, seen: Seen, r: Relay)
    ensures After(mode, a, seen, After(mode, b, seen, r)) == After(mode, a + b, seen, r)
  {
    assert Shown(mode, seen.last, a) + (Shown(mode, seen.last, b) + r.out) == Shown(mode, seen.last, a + b) + r.out;
    assert Held(seen.last, a) + (Held(seen.last, b) + r.tagged) == Held(seen.last, a + b) + r.tagged;
  }

  /** The response that ends a relay: its tag, a space, and the character that says how the command went. */
  predicate SaysHow(tag: string, tagged: string, status: Status) {
    var n := |tag| + 1;
    && n < |tagged| && tagged[..n] == tag + " "
    && (status == OK <==> tagged[n] == 'O' || tagged[n] == 'o')
    && (status == NO <==> tagged[n] == 'N' || tagged[n] == 'n')
    && (status == BAD <==> tagged[n] == 'B' || tagged[n] == 'b')
    && (status == NOCONNECTION <==> tagged[n] !in "OoNnBb")
  }

  /** The result is what the ending response says, and without one a lost connection. */
  lemma {:induction false} ResultIsSaid(mode: Mode, pieces: seq<Piece>, atStart: bool, seen: Seen)
    requires mode.tag.Some? && !seen.last && WellFormed(pieces)
    ensures var r := Expected(mode, pieces, atStart, seen);
            if r.ended then SaysHow(mode.tag.value, r.tagged, r.status) else r.status == NOCONNECTION
    decreases |pieces|
  {
    if pieces != [] {
      var now := if atStart then Notice(mode, pieces[0].line, seen) else seen;
      var rest := pieces[1..];
      assert Proper(pieces[0]);
      if !now.last {
        ResultIsSaid(mode, rest, pieces[0].literal.None?, now);
        AfterUntold(mode, PieceText(pieces[0]), now, Expected(mode, rest, pieces[0].literal.None?, now));
      } else {
        SaidNow(mode, pieces[0], rest, now);
      }
    }
  }

  lemma SaidNow(mode: Mode, p: Piece, rest: seq<Piece>, now: Seen)
    requires mode.tag.Some? && Proper(p) && now.last && Tagged(mode.tag, p.line) && now == Notice(mode, p.line, Seen(false, OK))
    ensures var r := After(mode, PieceText(p), now, if p.literal.None? then Ended(now.status) else Expected(mode, rest, false, now));
            if r.ended then SaysHow(mode.tag.value, r.tagged, r.status) else r.status == NOCONNECTION
  {
    var r := if p.literal.None? then Ended(now.status) else Expected(mode, rest, false, now);
    ResultStays(mode, rest, now);
    TaggedSays(mode.tag.value, p.line, PieceText(p) + r.tagged, now.status);
  }

  lemma AfterUntold(mode: Mode, text: string, now: Seen, r: Relay)
    requires !now.last
    ensures var a := After(mode, text, now, r); a.tagged == r.tagged && a.status == r.status && a.ended == r.ended
  {
    assert "" + r.tagged == r.tagged;
  }

  lemma TaggedSays(tag: string, line: string, text: string, status: Status)
    requires Tagged(Some(tag), line) && line <= text && line[|line| - 1] == '\n'
    requires Seen(true, status) == Notice(Mode(Some(tag), true), line, Seen(false, OK))
    ensures SaysHow(tag, text, status)
  {
    assert text[..|tag| + 1] == line[..|tag| + 1] == tag + " ";
    assert line[|tag|] == ' ';
  }

  /** Once the tag has been seen the result stays what it was. */
  lemma {:induction false} ResultStays(mode: Mode, pieces: seq<Piece>, seen: Seen)
    requires seen.last
    ensures var r := Expected(mode, pieces, false, seen); r.status == if r.ended then seen.status else NOCONNECTION
    decreases |pieces|
  {
    if pieces != [] && pieces[0].literal.Some? {
      ResultStays(mode, pieces[1..], seen);
    }
  }

  /** Relaying part of a line leaves the relay of the rest, with the tag already noticed. */
  lemma ExpectedMidLine(mode: Mode, p: Piece, q: Piece, rest: seq<Piece>, buf: string, atStart: bool, seen: Seen, now: Seen)
    requires p.line == buf + q.line && p.literal == q.literal
    requires now == if atStart then Notice(mode, p.line, seen) else seen
    ensures Expected(mode, [p] + rest, atStart, seen) == After(mode, buf, now, Expected(mode, [q] + rest, false, now))
  {
    var r := if p.literal.None? && now.last then Ended(now.status) else Expected(mode, rest, p.literal.None?, now);
    assert ([p] + rest)[1..] == rest == ([q] + rest)[1..];
    assert buf + PieceText(q) == PieceText(p);
    AfterTwice(mode, buf, PieceText(q), now, r);
  }

  /** One response: lines that end with a literal, and a last one that does not. */
  predicate IsResponse(r: seq<Piece>) {
    && r != [] && r[|r| - 1].literal.None?
    && forall i :: 0 <= i < |r| - 1 ==> r[i].literal.Some?
  }

  /** A response is relayed or withheld as a whole; only its first line is compared with the tag. */
  lemma {:induction false} ResponseRelayed(mode: Mode, r: seq<Piece>, rest: seq<Piece>, atStart: bool, seen: Seen, now: Seen)
    requires IsResponse(r)
    requires now == if atStart then Notice(mode, r[0].line, seen) else seen
    ensures Expected(mode, r + rest, atStart, seen) ==
            After(mode, Text(r), now, if now.last then Ended(now.status) else Expected(mode, rest, true, now))
    decreases |r|
  {
    assert (r + rest)[0] == r[0] && (r + rest)[1..] == r[1..] + rest;
    if |r| == 1 {
      assert r[1..] == [] && Text(r) == PieceText(r[0]) + "" == PieceText(r[0]);
      assert r[1..] + rest == rest;
    } else {
      ResponseRelayed(mode, r[1..], rest, false, now, now);
      AfterTwice(mode, PieceText(r[0]), Text(r[1..]), now,
                 if now.last then Ended(now.status) else Expected(mode, rest, true, now));
    }
  }

  function Flatten(responses: seq<seq<Piece>>): seq<Piece> {
    if responses == [] then [] else responses[0] + Flatten(responses[1..])
  }

  /** Untagged responses are all relayed. */
  lemma {:induction false} UntaggedRelayed(mode: Mode, responses: seq<seq<Piece>>, rest: seq<Piece>, seen: Seen)
    requires forall i :: 0 <= i < |responses| ==> IsResponse(responses[i]) && !Tagged(mode.tag, responses[i][0].line)
    requires !seen.last
    ensures Expected(mode, Flatten(responses) + rest, true, seen) ==
            After(mode, Text(Flatten(responses)), seen, Expected(mode, rest, true, seen))
    decreases |responses|
  {
    if responses == [] {
      assert Flatten(responses) + rest == rest;
      AfterNothing(mode, seen, Expected(mode, rest, true, seen));
    } else {
      var first, later := responses[0], Flatten(responses[1..]);
      assert Flatten(responses) + rest == first + (later + rest);
      ResponseRelayed(mode, first, later + rest, true, seen, seen);
      UntaggedRelayed(mode, responses[1..], rest, seen);
      TextAppend(first, later);
      AfterTwice(mode, Text(first), Text(later), seen, Expected(mode, rest, true, seen));
    }
  }

  lemma AfterNothing(mode: Mode, seen: Seen, r: Relay)
    ensures After(mode, "", seen, r) == r
  {
    assert "" + r.out == r.out && "" + r.tagged == r.tagged;
  }

  /**
   Transparency: whatever untagged responses come first, with whatever in their literals, they are relayed
   unchanged; the relay ends exactly after the tagged response, which is relayed or not as asked.
   */
  lemma Transparent(tag: string, includeTag: bool, responses: seq<seq<Piece>>, tagged: seq<Piece>, rest: seq<Piece>)
    requires forall i :: 0 <= i < |responses| ==> IsResponse(responses[i]) && !(tag + " " <= responses[i][0].line)
    requires IsResponse(tagged) && tag + " " <= tagged[0].line && |tagged[0].line| > |tag| + 1
    ensures var before, c := Text(Flatten(responses)), tagged[0].line[|tag| + 1];
            Expected(Mode(Some(tag), includeTag), Flatten(responses) + (tagged + rest), true, Seen(false, OK)) ==
            Relay(if c in "Oo" then OK else if c in "Nn" then NO else if c in "Bb" then BAD else NOCONNECTION,
                  |before| + |Text(tagged)|, before + (if includeTag then Text(tagged) else ""), Text(tagged), true)
  {
    var mode, c := Mode(Some(tag), includeTag), tagged[0].line[|tag| + 1];
    var status := StatusOf(c);
    UntaggedRelayed(mode, responses, tagged + rest, Seen(false, OK));
    ResponseRelayed(mode, tagged, rest, true, Seen(false, OK), Seen(true, status));
    AfterLast(mode, Text(tagged), status);
    AfterOther(mode, Text(Flatten(responses)), Relay(status, |Text(tagged)|, Shown(mode, true, Text(tagged)), Text(tagged), true));
  }

  /** Without a tag the first response is all that is relayed, and it always went well. */
  lemma WithoutTag(includeTag: bool, first: seq<Piece>, rest: seq<Piece>)
    requires IsResponse(first)
    ensures Expected(Mode(None, includeTag), first + rest, true, Seen(true, OK)) ==
            Relay(OK, |Text(first)|, if includeTag then Text(first) else "", Text(first), true)
  {
    ResponseRelayed(Mode(None, includeTag), first, rest, true, Seen(true, OK), Seen(true, OK));
    AfterLast(Mode(None, includeTag), Text(first), OK);
  }

  /** A stream that ends before the tagged response is relayed as far as it goes. */
  lemma Unended(tag: string, includeTag: bool, responses: seq<seq<Piece>>)
    requires forall i :: 0 <= i < |responses| ==> IsResponse(responses[i]) && !(tag + " " <= responses[i][0].line)
    ensures var all := Text(Flatten(responses));
            Expected(Mode(Some(tag), includeTag), Flatten(responses), true, Seen(false, OK)) ==
            Relay(NOCONNECTION, |all|, all, "", false)
  {
    var mode, all := Mode(Some(tag), includeTag), Flatten(responses);
    UntaggedRelayed(mode, responses, [], Seen(false, OK));
    assert all + [] == all;
    AfterOther(mode, Text(all), OVER);
    assert Text(all) + "" == Text(all);
  }

  lemma AfterLast(mode: Mode, text: string, status: Status)
    ensures After(mode, text, Seen(true, status), Ended(status)) == Relay(status, |text|, Shown(mode, true, text), text, true)
  {
    assert Shown(mode, true, text) + "" == Shown(mode, true, text) && text + "" == text;
  }

  lemma AfterOther(mode: Mode, text: string, r: Relay)
    ensures After(mode, text, Seen(false, OK), r) == Relay(r.status, |text| + r.length, text + r.out, r.tagged, r.ended)
  {
    assert "" + r.tagged == r.tagged;
  }

  lemma {:induction false} TextAppend(a: seq<Piece>, b: seq<Piece>)
    ensures Text(a + b) == Text(a) + Text(b)
    decreases |a|
  {
    if a == [] {
      assert a + b == b;
    } else {
      assert (a + b)[0] == a[0] && (a + b)[1..] == a[1..] + b;
      TextAppend(a[1..], b);
    }
  }
}
