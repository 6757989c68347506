/**
 pipe_response: relaying a backend's response to the client through a 2048-byte buffer, without
 mistaking the contents of literals for response lines.
 */
module PipeResponse {
  import opened Wrappers
  import opened Decimal
  import opened ProtStream
  import opened RelaySpec

  const BUFSIZE: nat := 2048
  const EOLSIZE: nat := 128

  /** What is remembered of a line ends like the line, far enough back to show its literal. */
  ghost predicate Remembers(eol: string, line: string) {
    eol == line || (|eol| >= MAX_DIGITS + 5 && |line| >= MAX_DIGITS + 5 &&
                    eol[|eol| - (MAX_DIGITS + 5)..] == line[|line| - (MAX_DIGITS + 5)..])
  }

  /** The scan for a literal gives the same answer on what is remembered as on the line. */
  lemma SameLiteral(eol: string, line: string)
    requires Remembers(eol, line) && Tame(line)
    ensures LiteralSize(eol) == LiteralSize(line)
  {
    if eol != line {
      var w := MAX_DIGITS + 5;
      var p, q, tail := eol[..|eol| - w], line[..|line| - w], line[|line| - w..];
      assert eol == p + tail && line == q + tail;
      SameLiteralTail(p, q, tail);
    }
  }

  lemma SameLiteralTail(p: string, q: string, tail: string)
    requires |tail| == MAX_DIGITS + 5 && Tame(q + tail)
    ensures LiteralSize(p + tail) == LiteralSize(q + tail)
  {
    var c := tail[..|tail| - 3];
    assert (q + tail)[..|q + tail| - 3] == q + c && (q + tail)[|q + tail| - 3..] == tail[|tail| - 3..];
    TailAppend(q, c);
    LiteralOfSuffix(p, tail);
    LiteralOfSuffix(q, tail);
  }

  /** A literal whose bracket is in the second part does not depend on the first. */
  lemma LiteralOfSuffix(p: string, s: string)
    requires |s| >= 4
    requires s[|s| - 3..] == "}\r\n" ==> TailStart(s[..|s| - 3]) > 0
    ensures LiteralSize(p + s) == LiteralSize(s)
  {
    var t, c := p + s, s[..|s| - 3];
    assert t[|t| - 3..] == s[|s| - 3..];
    if s[|s| - 3..] == "}\r\n" {
      var i := TailStart(c);
      assert t[..|t| - 3] == p + c;
      TailAppend(p, c);
      assert (p + c)[|p| + i..] == c[i..];
    }
  }

  /** A run of digits that starts inside the second part starts there in the whole. */
  lemma {:induction false} TailAppend(a: string, b: string)
    ensures TailStart(b) > 0 ==> TailStart(a + b) == |a| + TailStart(b)
    ensures TailStart(b) == 0 ==> TailStart(a + b) <= |a|
    decreases |b|
  {
    if b == "" {
      assert a + b == a;
    } else if IsDigit(b[|b| - 1]) {
      assert (a + b)[..|a + b| - 1] == a + b[..|b| - 1];
      TailAppend(a, b[..|b| - 1]);
    }
  }

  function StrLen(buf: string): (n: nat)
    ensures n <= |buf| && '\0' !in buf[..n]
    ensures '\0' !in buf ==> n == |buf|
  {
    if buf == "" || buf[0] == '\0' then 0
    else
      assert buf == [buf[0]] + buf[1..];
      1 + StrLen(buf[1..])
  }

  /** The backward scan over what is remembered of a line. */
  method ScanLiteral(eol: string) returns (literal: Option<nat>)
    ensures literal == LiteralSize(eol)
  {
    var i := |eol|;
    if i >= 4 && eol[i - 1] == '\n' && eol[i - 2] == '\r' && eol[i - 3] == '}' {
      ghost var t := eol[..|eol| - 3];
      assert eol[|eol| - 3..] == "}\r\n";
      i := i - 4;
      while i > 0 && eol[i] != '{' && IsDigit(eol[i])
        invariant i <= |eol| - 4
        invariant forall j :: i < j < |eol| - 3 ==> IsDigit(t[j])
      {
        i := i - 1;
      }
      TailIs(t, i);
      if eol[i] == '{' {
        assert t[i + 1..] == eol[i + 1..|eol| - 3];
        return Some(Value(eol[i + 1..|eol| - 3]));
      }
    }
    return None;
  }

  lemma {:induction false} TailIs(t: string, i: nat)
    requires i < |t| && forall j :: i < j < |t| ==> IsDigit(t[j])
    ensures !IsDigit(t[i]) ==> TailStart(t) == i + 1
    ensures IsDigit(t[i]) && i == 0 ==> TailStart(t) == 0
    decreases |t|
  {
    if i < |t| - 1 {
      TailIs(t[..|t| - 1], i);
    }
  }

  /** What the first chunk of a line tells about the tag is what the line tells. */
  lemma NoticeChunk(mode: Mode, line: string, buf: string, seen: Seen)
    requires buf <= line
    requires mode.tag.Some? && buf != line ==> |mode.tag.value| + 2 <= |buf|
    ensures Notice(mode, buf, seen) == Notice(mode, line, seen)
  {
  }

  /** A chunk of the stream never reaches past the line it starts in. */
  lemma ChunkOfLine(line: string, after: string, buf: string)
    requires line != "" && line[|line| - 1] == '\n'
    requires forall i :: 0 <= i < |line| - 1 ==> line[i] != '\n'
    requires buf != "" && buf <= line + after
    requires forall i :: 0 <= i < |buf| - 1 ==> buf[i] != '\n'
    ensures buf <= line
    ensures buf[|buf| - 1] == '\n' <==> buf == line
  {
    assert |buf| < |line| || buf[|line| - 1] == (line + after)[|line| - 1];
    assert forall i :: 0 <= i < |buf| ==> buf[i] == (line + after)[i];
  }

  /** What is remembered of a line after its next chunk. */
  function Ending(eol: string, buf: string): (r: string)
    ensures |eol| <= 64 ==> |r| < EOLSIZE
  {
    if |buf| < 64 then eol + buf else eol + buf[|buf| - 63..]
  }

  lemma RemembersLine(sent: string, eol: string, buf: string)
    requires if sent == "" then eol == "" else |sent| >= 64 && eol == sent[|sent| - 64..]
    ensures Remembers(Ending(eol, buf), sent + buf)
  {
    var now := Ending(eol, buf);
    if sent == "" && |buf| < 64 {
      assert now == sent + buf;
    } else {
      assert now[|now| - 63..] == (sent + buf)[|sent + buf| - 63..];
    }
  }

  /** At the end of a line enough of it is remembered. */
  lemma LineRemembered(mode: Mode, whole: Relay, pieces: seq<Piece>, p: Progress, a: Place, buf: string)
    requires OnTrack(mode, whole, pieces, p, a) && (!p.cont ==> p.eol == "") && buf == pieces[a.i].line[a.k..]
    requires Tame(pieces[a.i].line)
    ensures LiteralSize(Ending(p.eol, buf)) == LiteralSize(pieces[a.i].line)
  {
    var line := pieces[a.i].line;
    assert line == line[..a.k] + buf;
    assert a.k >= 64 ==> line[a.k - 64..a.k] == line[..a.k][a.k - 64..];
    RemembersLine(line[..a.k], p.eol, buf);
    SameLiteral(Ending(p.eol, buf), line);
  }

  /** Copying a literal over, in as many reads as it takes. */
  method CopyLiteral(s: Input, size: nat, shown: bool) returns (ok: bool, out: string)
    requires s.Valid()
    modifies s
    ensures s.Valid() && old(s.pos) <= s.pos
    ensures size <= |old(s.Rest())| ==>
              && ok && s.pos == old(s.pos) + size && s.Rest() == old(s.Rest())[size..]
              && out == if shown then old(s.Rest())[..size] else ""
  {
    out := "";
    var left := size;
    while left > 0
      invariant s.Valid() && s.pos == old(s.pos) + (size - left) && 0 <= left <= size
      invariant out == if shown then s.data[old(s.pos)..s.pos] else ""
      invariant s.Rest() == old(s.Rest())[s.pos - old(s.pos)..]
    {
      var buf := s.Read(if left > BUFSIZE then BUFSIZE else left);
      if buf == "" {
        return false, out;
      }
      if shown {
        out := out + buf;
      }
      left := left - |buf|;
    }
    ok := true;
    assert s.data[old(s.pos)..s.pos] == old(s.Rest())[..size];
  }

  /** What the relay knows between two reads: how far it got, what it wrote, and its local variables. */
  datatype Progress = Progress(read: nat, out: string, tagged: string, eol: string, cont: bool, seen: Seen)

  /** Where that is in the stream of pieces: in which line, and how far into it. */
  datatype Place = Place(i: nat, k: nat)

  /** What is left of the stream there: the rest of the line with its literal, and the later pieces. */
  function RestOfPiece(pieces: seq<Piece>, a: Place): Piece
    requires a.i < |pieces| && a.k <= |pieces[a.i].line|
  {
    pieces[a.i].(line := pieces[a.i].line[a.k..])
  }

  function Remaining(pieces: seq<Piece>, a: Place): seq<Piece>
    requires a.i < |pieces| && a.k <= |pieces[a.i].line|
  {
    [RestOfPiece(pieces, a)] + pieces[a.i + 1..]
  }

  /** What was written and read so far, completed by the relay of the rest, is the whole relay. */
  ghost predicate Completes(whole: Relay, p: Progress, rest: Relay) {
    whole == Relay(rest.status, p.read + rest.length, p.out + rest.out, p.tagged + rest.tagged, rest.ended)
  }

  ghost predicate OnTrack(mode: Mode, whole: Relay, pieces: seq<Piece>, p: Progress, a: Place) {
    && a.i < |pieces| && a.k < |pieces[a.i].line|
    && (if a.k == 0 then p.cont ==> p.eol == ""
        else p.cont && a.k >= 64 && p.eol == pieces[a.i].line[a.k - 64..a.k])
    && Completes(whole, p, Expected(mode, Remaining(pieces, a), !p.cont, p.seen))
  }

  /** All pieces have been relayed, and none of them ended the relay. */
  ghost predicate Over(whole: Relay, pieces: seq<Piece>, p: Progress, a: Place) {
    a == Place(|pieces|, 0) && Completes(whole, p, OVER)
  }

  /** The relay stands at `a` in the stream, of which `rest` is left. */
  ghost predicate Stands(mode: Mode, whole: Relay, pieces: seq<Piece>, tail: string, p: Progress, a: Place, rest: string) {
    if a.i < |pieces| then OnTrack(mode, whole, pieces, p, a) && rest == Text(Remaining(pieces, a)) + tail
    else Over(whole, pieces, p, a) && rest == tail
  }

  /** Reading `text` of the expected relay brings it forward by as much. */
  lemma Forward(whole: Relay, p: Progress, mode: Mode, text: string, now: Seen, r: Relay, p': Progress)
    requires Completes(whole, p, After(mode, text, now, r))
    requires p'.read == p.read + |text| && p'.out == p.out + Shown(mode, now.last, text)
    requires p'.tagged == p.tagged + Held(now.last, text)
    ensures Completes(whole, p', r)
  {
    assert p.out + (Shown(mode, now.last, text) + r.out) == p.out + Shown(mode, now.last, text) + r.out;
    assert p.tagged + (Held(now.last, text) + r.tagged) == p.tagged + Held(now.last, text) + r.tagged;
  }

  function Content(p: Piece): string {
    if p.literal.Some? then p.literal.value else ""
  }

  /** The stream from a place on. */
  lemma StreamFrom(pieces: seq<Piece>, a: Place, tail: string)
    requires a.i < |pieces| && a.k <= |pieces[a.i].line|
    ensures Text(Remaining(pieces, a)) + tail ==
            pieces[a.i].line[a.k..] + (Content(pieces[a.i]) + (Text(pieces[a.i + 1..]) + tail))
  {
    assert Remaining(pieces, a)[1..] == pieces[a.i + 1..];
  }

  lemma AtLineStart(pieces: seq<Piece>, i: nat)
    requires i < |pieces|
    ensures Remaining(pieces, Place(i, 0)) == pieces[i..]
  {
    assert pieces[i].(line := pieces[i].line[0..]) == pieces[i];
  }

  /** The chunk just read lies within the line ahead. */
  lemma ChunkAhead(pieces: seq<Piece>, a: Place, tail: string, stream: string, buf: string)
    requires a.i < |pieces| && a.k < |pieces[a.i].line| && Proper(pieces[a.i])
    requires stream == Text(Remaining(pieces, a)) + tail && buf != "" && buf <= stream
    requires forall i :: 0 <= i < |buf| - 1 ==> buf[i] != '\n'
    ensures a.k + |buf| <= |pieces[a.i].line| && buf == pieces[a.i].line[a.k..a.k + |buf|] && '\0' !in buf
    ensures buf[|buf| - 1] == '\n' <==> a.k + |buf| == |pieces[a.i].line|
    ensures buf[|buf| - 1] == '\n' ==> buf == pieces[a.i].line[a.k..]
    ensures buf == stream ==> buf[|buf| - 1] == '\n'
    ensures stream[|buf|..] == Text(Remaining(pieces, a.(k := a.k + |buf|))) + tail
  {
    var line, left := pieces[a.i].line, pieces[a.i].line[a.k..];
    var after := Content(pieces[a.i]) + (Text(pieces[a.i + 1..]) + tail);
    StreamFrom(pieces, a, tail);
    ChunkOfLine(left, after, buf);
    StreamFrom(pieces, a.(k := a.k + |buf|), tail);
    ChunkOff(line, a.k, buf, after);
  }

  lemma ChunkOff(line: string, k: nat, buf: string, after: string)
    requires k <= |line| && buf <= line[k..]
    ensures k + |buf| <= |line| && buf == line[k..k + |buf|]
    ensures (line[k..] + after)[|buf|..] == line[k + |buf|..] + after
  {
    assert forall i :: 0 <= i < |buf| ==> buf[i] == line[k..][i];
  }

  /** Where the relay stands after a chunk from the middle of a line. */
  lemma MidLine(mode: Mode, whole: Relay, pieces: seq<Piece>, p: Progress, a: Place, buf: string, now: Seen)
    requires OnTrack(mode, whole, pieces, p, a)
    requires |buf| >= 64 && a.k + |buf| < |pieces[a.i].line| && buf == pieces[a.i].line[a.k..a.k + |buf|]
    requires NoticedNow(p, mode, pieces[a.i].line[a.k..], now)
    ensures OnTrack(mode, whole, pieces,
                    Progress(p.read + |buf|, p.out + Shown(mode, now.last, buf), p.tagged + Held(now.last, buf), buf[|buf| - 64..], true, now),
                    a.(k := a.k + |buf|))
  {
    hide Expected;
    PartOf(pieces[a.i].line, a.k, |buf|);
    MidCompletes(mode, whole, pieces, p, a, buf, now);
  }

  lemma MidCompletes(mode: Mode, whole: Relay, pieces: seq<Piece>, p: Progress, a: Place, buf: string, now: Seen)
    requires a.i < |pieces| && |buf| >= 64 && a.k + |buf| < |pieces[a.i].line| && buf == pieces[a.i].line[a.k..a.k + |buf|]
    requires Completes(whole, p, Expected(mode, Remaining(pieces, a), !p.cont, p.seen))
    requires NoticedNow(p, mode, pieces[a.i].line[a.k..], now)
    ensures Completes(whole,
                      Progress(p.read + |buf|, p.out + Shown(mode, now.last, buf), p.tagged + Held(now.last, buf),
                               buf[|buf| - 64..], true, now),
                      Expected(mode, Remaining(pieces, a.(k := a.k + |buf|)), false, now))
  {
    hide Expected;
    PartExpected(mode, pieces, a, p, buf, now);
    Forward(whole, p, mode, buf, now, Expected(mode, Remaining(pieces, a.(k := a.k + |buf|)), false, now),
            Progress(p.read + |buf|, p.out + Shown(mode, now.last, buf), p.tagged + Held(now.last, buf), buf[|buf| - 64..], true, now));
  }

  /** What is expected of a line is what is expected of its first part, and of the rest. */
  lemma PartExpected(mode: Mode, pieces: seq<Piece>, a: Place, p: Progress, buf: string, now: Seen)
    requires a.i < |pieces| && |buf| >= 64 && a.k + |buf| < |pieces[a.i].line| && buf == pieces[a.i].line[a.k..a.k + |buf|]
    requires NoticedNow(p, mode, pieces[a.i].line[a.k..], now)
    ensures Expected(mode, Remaining(pieces, a), !p.cont, p.seen) ==
            After(mode, buf, now, Expected(mode, Remaining(pieces, a.(k := a.k + |buf|)), false, now))
  {
    hide Expected;
    PartOf(pieces[a.i].line, a.k, |buf|);
    ExpectedMidLine(mode, RestOfPiece(pieces, a), RestOfPiece(pieces, a.(k := a.k + |buf|)), pieces[a.i + 1..], buf,
                    !p.cont, p.seen, now);
  }

  lemma PartOf(line: string, k: nat, n: nat)
    requires 64 <= n && k + n <= |line|
    ensures line[k..] == line[k..k + n] + line[k + n..]
    ensures line[k..k + n][n - 64..] == line[k + n - 64..k + n]
  {
  }

  /** Where the relay stands after the end of a line and its literal. */
  lemma EndOfLine(mode: Mode, whole: Relay, pieces: seq<Piece>, p: Progress, a: Place, now: Seen)
    requires WellFormed(pieces) && OnTrack(mode, whole, pieces, p, a)
    requires NoticedNow(p, mode, pieces[a.i].line[a.k..], now)
    ensures var p' := Passed(mode, RestOfPiece(pieces, a), p, now);
            if pieces[a.i].literal.None? && now.last then whole == Relay(now.status, p'.read, p'.out, p'.tagged, true)
            else if a.i + 1 < |pieces| then OnTrack(mode, whole, pieces, p', Place(a.i + 1, 0))
            else Over(whole, pieces, p', Place(a.i + 1, 0))
  {
    hide Expected;
    var q, rest := RestOfPiece(pieces, a), pieces[a.i + 1..];
    ExpectedLine(mode, q, rest, !p.cont, p.seen, now);
    PassLine(mode, whole, q, p, now, AfterLine(mode, q, rest, now));
    if a.i + 1 < |pieces| {
      AtLineStart(pieces, a.i + 1);
    } else {
      assert rest == [];
      NothingExpected(mode, q.literal.None?, now);
    }
  }

  lemma NothingExpected(mode: Mode, atStart: bool, seen: Seen)
    ensures Expected(mode, [], atStart, seen) == OVER
  {
  }

  /** How far the relay gets by a line and its literal. */
  function Passed(mode: Mode, q: Piece, p: Progress, now: Seen): Progress {
    Progress(p.read + |PieceText(q)|, p.out + Shown(mode, now.last, PieceText(q)), p.tagged + Held(now.last, PieceText(q)), "",
             q.literal.Some?, now)
  }

  lemma PassLine(mode: Mode, whole: Relay, q: Piece, p: Progress, now: Seen, r: Relay)
    requires Completes(whole, p, After(mode, PieceText(q), now, r))
    ensures Completes(whole, Passed(mode, q, p, now), r)
    ensures r == Ended(now.status) ==>
              var p' := Passed(mode, q, p, now); whole == Relay(now.status, p'.read, p'.out, p'.tagged, true)
  {
    var p' := Passed(mode, q, p, now);
    Forward(whole, p, mode, PieceText(q), now, r, p');
    assert p'.out + "" == p'.out && p'.tagged + "" == p'.tagged;
  }

  lemma ExpectedLine(mode: Mode, q: Piece, rest: seq<Piece>, atStart: bool, seen: Seen, now: Seen)
    requires now == if atStart then Notice(mode, q.line, seen) else seen
    ensures Expected(mode, [q] + rest, atStart, seen) == After(mode, PieceText(q), now, AfterLine(mode, q, rest, now))
  {
    assert ([q] + rest)[1..] == rest;
  }

  /** The relay of what comes after a line and its literal. */
  function AfterLine(mode: Mode, q: Piece, rest: seq<Piece>, now: Seen): Relay {
    if q.literal.None? && now.last then Ended(now.status) else Expected(mode, rest, q.literal.None?, now)
  }

  /** Looking for the tagged line at the start of a response line. */
  method NoticeTag(mode: Mode, cont: bool, buf: string, seen: Seen) returns (now: Seen)
    ensures now == if cont then seen else Notice(mode, buf, seen)
  {
    now := seen;
    if mode.tag.Some? && !cont && mode.tag.value + " " <= buf {
      var c := if |buf| > |mode.tag.value| + 1 then buf[|mode.tag.value| + 1] else '\0';
      now := Seen(true, if c == 'O' || c == 'o' then OK else if c == 'N' || c == 'n' then NO
                        else if c == 'B' || c == 'b' then BAD else NOCONNECTION);
    }
  }

  ghost predicate NoticedNow(p: Progress, mode: Mode, line: string, now: Seen) {
    now == if p.cont then p.seen else Notice(mode, line, p.seen)
  }

  /** At the start of a response line nothing is remembered. */
  lemma Forget(mode: Mode, whole: Relay, pieces: seq<Piece>, p: Progress, a: Place)
    requires OnTrack(mode, whole, pieces, p, a)
    ensures OnTrack(mode, whole, pieces, p.(eol := if p.cont then p.eol else ""), a)
  {
  }

  /** The end of a line: does it announce a literal?  If so, the literal is copied over as well. */
  method FinishLine(s: Input, mode: Mode, eol: string, buf: string, now: Seen,
                    ghost known: bool, ghost p: Piece, ghost after: string)
    returns (ok: bool, cont: bool, copied: string)
    requires s.Valid() && |eol| <= 64
    requires known ==> Proper(p) && LiteralSize(Ending(eol, buf)) == LiteralSize(p.line) && s.Rest() == Content(p) + after
    modifies s
    ensures s.Valid() && old(s.pos) <= s.pos
    ensures known ==>
              && ok && (cont <==> p.literal.Some?) && s.Rest() == after
              && copied == Shown(mode, now.last, Content(p))
              && s.pos == old(s.pos) + |Content(p)|
  {
    var literal := ScanLiteral(Ending(eol, buf));
    ok, cont, copied := true, literal.Some?, "";
    if literal.Some? {
      ok, copied := CopyLiteral(s, literal.value, !now.last || mode.includeTag);
    }
  }

  lemma HeldAppend(last: bool, out: string, a: string, b: string)
    ensures out + Held(last, a + b) == out + Held(last, a) + Held(last, b)
  {
    if last {
      assert out + (a + b) == out + a + b;
    } else {
      assert out + "" + "" == out + "";
    }
  }

  lemma ShownAppend(mode: Mode, last: bool, out: string, a: string, b: string)
    ensures out + Shown(mode, last, a + b) == out + Shown(mode, last, a) + Shown(mode, last, b)
  {
    if !last || mode.includeTag {
      assert out + (a + b) == out + a + b;
    } else {
      assert out + "" + "" == out + "";
    }
  }

  /** `buf` is the next chunk of the stream: all of the buffer or up to the end of the line, and never further. */
  ghost predicate Took(pieces: seq<Piece>, a: Place, buf: string)
    requires a.i < |pieces| && a.k < |pieces[a.i].line|
  {
    var line := pieces[a.i].line;
    && 0 < |buf| && a.k + |buf| <= |line| && buf == line[a.k..a.k + |buf|] && '\0' !in buf
    && (|buf| == BUFSIZE - 1 || a.k + |buf| == |line|)
    && (buf[|buf| - 1] == '\n' <==> a.k + |buf| == |line|)
    && (buf[|buf| - 1] == '\n' ==> buf == line[a.k..])
  }

  lemma ChunkTaken(pieces: seq<Piece>, a: Place, tail: string, stream: string, buf: string)
    requires a.i < |pieces| && a.k < |pieces[a.i].line| && Proper(pieces[a.i])
    requires stream == Text(Remaining(pieces, a)) + tail && buf != "" && buf <= stream
    requires forall i :: 0 <= i < |buf| - 1 ==> buf[i] != '\n'
    requires |buf| == BUFSIZE - 1 || buf == stream || buf[|buf| - 1] == '\n'
    ensures Took(pieces, a, buf)
    ensures stream[|buf|..] == Text(Remaining(pieces, a.(k := a.k + |buf|))) + tail
  {
    ChunkAhead(pieces, a, tail, stream, buf);
  }

  lemma ChunkNotices(mode: Mode, seen: Seen, pieces: seq<Piece>, a: Place, buf: string)
    requires a.i < |pieces| && a.k < |pieces[a.i].line| && Took(pieces, a, buf)
    requires mode.tag.Some? ==> |mode.tag.value| + 2 < BUFSIZE
    ensures Notice(mode, buf, seen) == Notice(mode, pieces[a.i].line[a.k..], seen)
  {
    NoticeChunk(mode, pieces[a.i].line[a.k..], buf, seen);
  }

  /** prot_fgets, in terms of what is left of the stream. */
  method FillBuffer(s: Input) returns (buf: string)
    requires s.Valid()
    modifies s
    ensures s.Valid() && s.pos == old(s.pos) + |buf| && |buf| < BUFSIZE
    ensures buf <= old(s.Rest()) && s.Rest() == old(s.Rest())[|buf|..]
    ensures (old(s.Rest()) == "" <==> buf == "") && forall i :: 0 <= i < |buf| - 1 ==> buf[i] != '\n'
    ensures |buf| == BUFSIZE - 1 || s.Rest() == "" || buf[|buf| - 1] == '\n'
  {
    buf := s.Fgets(BUFSIZE);
  }

  /** The next chunk as a C string. */
  method ReadChunk(s: Input, ghost known: bool, ghost pieces: seq<Piece>, ghost tail: string, ghost a: Place)
    returns (eof: bool, buf: string)
    requires s.Valid()
    requires known ==> a.i < |pieces| && a.k < |pieces[a.i].line| && Proper(pieces[a.i])
    requires known ==> s.Rest() == Text(Remaining(pieces, a)) + tail
    modifies s
    ensures s.Valid() && old(s.pos) <= s.pos && (!eof ==> old(s.pos) < s.pos) && |buf| < BUFSIZE
    ensures old(s.Rest()) == "" ==> eof && s.pos == old(s.pos)
    ensures known ==>
              && !eof && s.pos == old(s.pos) + |buf| && Took(pieces, a, buf)
              && s.Rest() == Text(Remaining(pieces, a.(k := a.k + |buf|))) + tail
  {
    ghost var stream := s.Rest();
    buf := FillBuffer(s);
    eof := buf == "";
    if known {
      ChunkFits(pieces, a, tail, stream, buf, s.Rest());
      WholeString(buf);
    }
    buf := buf[..StrLen(buf)];
  }

  /** What prot_fgets gives of a stream is the next chunk. */
  lemma ChunkFits(pieces: seq<Piece>, a: Place, tail: string, stream: string, buf: string, left: string)
    requires a.i < |pieces| && a.k < |pieces[a.i].line| && Proper(pieces[a.i])
    requires stream == Text(Remaining(pieces, a)) + tail && buf <= stream && left == stream[|buf|..]
    requires (stream != "" ==> buf != "") && forall i :: 0 <= i < |buf| - 1 ==> buf[i] != '\n'
    requires |buf| == BUFSIZE - 1 || left == "" || buf[|buf| - 1] == '\n'
    ensures buf != "" && Took(pieces, a, buf)
    ensures left == Text(Remaining(pieces, a.(k := a.k + |buf|))) + tail
  {
    StreamNotOver(pieces, a, tail);
    if left == "" {
      AllOf(stream, buf);
    }
    ChunkTaken(pieces, a, tail, stream, buf);
  }

  lemma WholeString(buf: string)
    requires '\0' !in buf
    ensures buf[..StrLen(buf)] == buf
  {
  }

  lemma StreamNotOver(pieces: seq<Piece>, a: Place, tail: string)
    requires a.i < |pieces| && a.k < |pieces[a.i].line|
    ensures Text(Remaining(pieces, a)) + tail != ""
  {
    StreamFrom(pieces, a, tail);
  }

  lemma AllOf(stream: string, buf: string)
    requires buf <= stream && stream[|buf|..] == ""
    ensures buf == stream
  {
    assert stream == stream[..|buf|] + stream[|buf|..];
  }

  /** The next chunk, and what it tells about the tag. */
  method NextChunk(s: Input, mode: Mode, cont: bool, seen: Seen, ghost known: bool, ghost pieces: seq<Piece>,
                   ghost tail: string, ghost a: Place)
    returns (eof: bool, buf: string, now: Seen)
    requires s.Valid()
    requires mode.tag.Some? ==> |mode.tag.value| + 2 < BUFSIZE
    requires known ==> a.i < |pieces| && a.k < |pieces[a.i].line| && Proper(pieces[a.i])
    requires known ==> s.Rest() == Text(Remaining(pieces, a)) + tail
    modifies s
    ensures s.Valid() && old(s.pos) <= s.pos && (!eof ==> old(s.pos) < s.pos) && |buf| < BUFSIZE
    ensures old(s.Rest()) == "" ==> eof && s.pos == old(s.pos)
    ensures known ==>
              && !eof && s.pos == old(s.pos) + |buf| && Took(pieces, a, buf)
              && s.Rest() == Text(Remaining(pieces, a.(k := a.k + |buf|))) + tail
              && now == (if cont then seen else Notice(mode, pieces[a.i].line[a.k..], seen))
  {
    eof, buf := ReadChunk(s, known, pieces, tail, a);
    if known {
      ChunkNotices(mode, seen, pieces, a, buf);
    }
    now := NoticeTag(mode, cont || eof, buf, seen);
  }

  function NextProgress(mode: Mode, p: Progress, piece: Piece, buf: string, now: Seen): Progress {
    Progress(p.read + |buf| + |Content(piece)|,
             p.out + Shown(mode, now.last, buf) + Shown(mode, now.last, Content(piece)),
             p.tagged + Held(now.last, buf) + Held(now.last, Content(piece)), "", piece.literal.Some?, now)
  }

  /** The text from `pos` on; None: that is behind its end. */
  function From(buf: string, pos: nat): Option<string> {
    if pos <= |buf| then Some(buf[pos..]) else None
  }

  /** Whether the tagged response is to be stored in last_result. */
  predicate Stores(mode: Mode) {
    mode.tag.Some? && !mode.includeTag
  }

  /** last_result after a chunk: of each chunk the part behind as many characters as the tag and a space have. */
  function Kept(mode: Mode, kept: Option<string>, buf: string, last: bool): Option<string> {
    if !Stores(mode) || !last then kept
    else if kept.None? || From(buf, |mode.tag.value| + 1).None? then None
    else Some(kept.value + From(buf, |mode.tag.value| + 1).value)
  }

  /** A text that comes in one chunk: a line that fits the buffer, or the first part of a line. */
  predicate OneChunk(text: string) {
    0 < |text| < BUFSIZE && forall i :: 0 <= i < |text| - 1 ==> text[i] != '\n'
  }

  /** A response comes in one chunk exactly if it is a line without a literal that fits the buffer. */
  lemma OneChunkIff(r: seq<Piece>)
    requires IsResponse(r) && WellFormed(r)
    ensures OneChunk(Text(r)) <==> |r| == 1 && |r[0].line| < 2048
  {
    var line := r[0].line;
    assert Text(r) == line + (Content(r[0]) + Text(r[1..]));
    if |r| == 1 {
      assert Text(r) == line;
    } else {
      assert Text(r[1..]) == PieceText(r[1]) + Text(r[1..][1..]) && r[1].line != "";
      assert Text(r)[|line| - 1] == '\n';
    }
  }

  /** Nothing is stored, or what follows the tag in the response, exactly if that is one short line. */
  predicate KeptRight(mode: Mode, kept: Option<string>, tagged: string) {
    if !Stores(mode) then kept == Some("")
    else |mode.tag.value| < |tagged| && (kept == Some(tagged[|mode.tag.value| + 1..]) <==> OneChunk(tagged))
  }

  /** The same while the relay goes on: what has been stored is right or too short. */
  predicate Keeping(mode: Mode, kept: Option<string>, tagged: string, last: bool) {
    if !Stores(mode) || !last then kept == Some("") && (Stores(mode) ==> tagged == "")
    else
      && |mode.tag.value| < |tagged|
      && (if OneChunk(tagged) then kept == Some(tagged[|mode.tag.value| + 1..]) && ChunkEnds(tagged)
          else kept.None? || |kept.value| + |mode.tag.value| + 1 < |tagged|)
  }

  predicate ChunkEnds(buf: string) {
    buf != "" && (|buf| == BUFSIZE - 1 || buf[|buf| - 1] == '\n')
  }

  /** The first chunk of the tagged response. */
  lemma KeptFirst(mode: Mode, kept: Option<string>, buf: string)
    requires Stores(mode) && kept == Some("") && Tagged(mode.tag, buf) && OneChunk(buf) && ChunkEnds(buf)
    ensures Keeping(mode, Kept(mode, kept, buf, true), buf, true)
  {
    assert "" + buf[|mode.tag.value| + 1..] == buf[|mode.tag.value| + 1..];
  }

  /** A later chunk, without which the response was not complete. */
  lemma KeptLater(mode: Mode, kept: Option<string>, tagged: string, buf: string)
    requires Stores(mode) && Keeping(mode, kept, tagged, true) && buf != ""
    ensures Keeping(mode, Kept(mode, kept, buf, true), tagged + buf, true)
  {
    var all := tagged + buf;
    assert !OneChunk(all) by {
      if OneChunk(tagged) {
        assert all[|tagged| - 1] == tagged[|tagged| - 1];
      } else if i :| 0 <= i < |tagged| - 1 && tagged[i] == '\n' {
        assert all[i] == '\n';
      }
    }
  }

  /** The literal behind a line. */
  lemma KeptLiteral(mode: Mode, kept: Option<string>, tagged: string, content: string)
    requires Stores(mode) && Keeping(mode, kept, tagged, true) && tagged[|tagged| - 1] == '\n'
    ensures Keeping(mode, kept, tagged + content, true)
  {
    var all := tagged + content;
    if content == "" {
      assert all == tagged;
    } else {
      assert all[|tagged| - 1] == '\n';
    }
  }

  /** What has been stored after the next chunk. */
  lemma KeptChunk(mode: Mode, kept: Option<string>, pieces: seq<Piece>, p: Progress, a: Place, buf: string, now: Seen)
    requires a.i < |pieces| && a.k < |pieces[a.i].line| && Proper(pieces[a.i]) && Took(pieces, a, buf) && |buf| < BUFSIZE
    requires mode.tag.Some? ==> |mode.tag.value| + 2 < BUFSIZE
    requires NoticedNow(p, mode, pieces[a.i].line[a.k..], now) && Keeping(mode, kept, p.tagged, p.seen.last)
    ensures Keeping(mode, Kept(mode, kept, buf, now.last), p.tagged + Held(now.last, buf), now.last)
  {
    if Stores(mode) && p.seen.last {
      KeptLater(mode, kept, p.tagged, buf);
    } else if Stores(mode) && now.last {
      ChunkNotices(mode, p.seen, pieces, a, buf);
      assert "" + buf == buf;
      KeptFirst(mode, kept, buf);
    } else {
      assert p.tagged + "" == p.tagged;
    }
  }

  /** And after the literal behind it. */
  lemma KeptLine(mode: Mode, kept: Option<string>, tagged: string, buf: string, content: string, last: bool)
    requires Keeping(mode, kept, tagged + Held(last, buf), last) && buf != "" && buf[|buf| - 1] == '\n'
    ensures Keeping(mode, kept, tagged + Held(last, buf) + Held(last, content), last)
  {
    if Stores(mode) && last {
      assert (tagged + buf)[|tagged + buf| - 1] == '\n';
      KeptLiteral(mode, kept, tagged + buf, content);
    }
  }

  lemma KeptInTheEnd(mode: Mode, kept: Option<string>, tagged: string)
    requires Keeping(mode, kept, tagged, true)
    ensures KeptRight(mode, kept, tagged)
  {
  }

  /** The next chunk, noticed and stored. */
  method TakeChunk(s: Input, mode: Mode, cont: bool, seen: Seen, kept: Option<string>, ghost known: bool,
                   ghost pieces: seq<Piece>, ghost tail: string, ghost p: Progress, ghost a: Place)
    returns (eof: bool, buf: string, now: Seen, kept': Option<string>)
    requires s.Valid()
    requires mode.tag.Some? ==> |mode.tag.value| + 2 < BUFSIZE
    requires known ==>
               && a.i < |pieces| && a.k < |pieces[a.i].line| && Proper(pieces[a.i]) && p.cont == cont && p.seen == seen
               && s.Rest() == Text(Remaining(pieces, a)) + tail && Keeping(mode, kept, p.tagged, seen.last)
    modifies s
    ensures s.Valid() && old(s.pos) <= s.pos && (!eof ==> old(s.pos) < s.pos) && |buf| < BUFSIZE
    ensures old(s.Rest()) == "" ==> eof && s.pos == old(s.pos)
    ensures known ==>
              && !eof && s.pos == old(s.pos) + |buf| && Took(pieces, a, buf)
              && s.Rest() == Text(Remaining(pieces, a.(k := a.k + |buf|))) + tail
              && NoticedNow(p, mode, pieces[a.i].line[a.k..], now)
              && Keeping(mode, kept', p.tagged + Held(now.last, buf), now.last)
  {
    eof, buf, now := NextChunk(s, mode, cont, seen, known, pieces, tail, a);
    kept' := if eof then kept else Kept(mode, kept, buf, now.last);
    if known {
      KeptChunk(mode, kept, pieces, p, a, buf, now);
    }
  }

  /** The relay has written the last chunk of a line and the line's literal: it stands at the next line, if any. */
  lemma LineLeft(mode: Mode, whole: Relay, pieces: seq<Piece>, tail: string, p: Progress, a: Place, now: Seen,
                 buf: string)
    requires WellFormed(pieces) && OnTrack(mode, whole, pieces, p, a)
    requires NoticedNow(p, mode, pieces[a.i].line[a.k..], now) && buf == pieces[a.i].line[a.k..]
    ensures var p' := NextProgress(mode, p, pieces[a.i], buf, now);
            if now.last && !p'.cont then whole == Relay(now.status, p'.read, p'.out, p'.tagged, true)
            else Stands(mode, whole, pieces, tail, p', Place(a.i + 1, 0), Text(pieces[a.i + 1..]) + tail)
  {
    EndOfLine(mode, whole, pieces, p, a, now);
    NextPassed(mode, pieces[a.i], a.k, p, buf, now);
    if a.i + 1 < |pieces| {
      AtLineStart(pieces, a.i + 1);
    } else {
      assert "" + tail == tail;
    }
  }

  lemma NextPassed(mode: Mode, piece: Piece, k: nat, p: Progress, buf: string, now: Seen)
    requires k <= |piece.line| && buf == piece.line[k..]
    ensures NextProgress(mode, p, piece, buf, now) == Passed(mode, piece.(line := piece.line[k..]), p, now)
  {
    ShownAppend(mode, now.last, p.out, buf, Content(piece));
    HeldAppend(now.last, p.tagged, buf, Content(piece));
    assert PieceText(piece.(line := buf)) == buf + Content(piece);
  }

  /** A line that has been read to its end: what is remembered shows its literal, which comes next. */
  lemma LineReady(mode: Mode, whole: Relay, pieces: seq<Piece>, p: Progress, a: Place, buf: string, tail: string)
    requires WellFormed(pieces) && OnTrack(mode, whole, pieces, p, a) && (!p.cont ==> p.eol == "")
    requires a.k + |buf| == |pieces[a.i].line| && buf == pieces[a.i].line[a.k..]
    ensures Proper(pieces[a.i]) && LiteralSize(Ending(p.eol, buf)) == LiteralSize(pieces[a.i].line)
    ensures Text(Remaining(pieces, a.(k := a.k + |buf|))) + tail ==
            Content(pieces[a.i]) + (Text(pieces[a.i + 1..]) + tail)
  {
    LineRemembered(mode, whole, pieces, p, a, buf);
    StreamFrom(pieces, a.(k := a.k + |buf|), tail);
    assert pieces[a.i].line[|pieces[a.i].line|..] == "";
  }

  /** The last chunk of a line, already written: the literal is copied, and the relay stands at the next line. */
  method LeaveLine(s: Input, mode: Mode, eol: string, buf: string, now: Seen, ghost whole: Relay,
                   ghost known: bool, ghost pieces: seq<Piece>, ghost tail: string, ghost p: Progress, ghost a: Place,
                   ghost kept: Option<string>)
    returns (ok: bool, cont: bool, copied: string, ghost p': Progress, ghost a': Place)
    requires s.Valid() && |eol| <= 64 && WellFormed(pieces)
    requires known ==>
               && OnTrack(mode, whole, pieces, p, a) && NoticedNow(p, mode, pieces[a.i].line[a.k..], now)
               && p.eol == eol && (!p.cont ==> eol == "")
               && a.k + |buf| == |pieces[a.i].line| && buf == pieces[a.i].line[a.k..]
               && s.Rest() == Text(Remaining(pieces, a.(k := a.k + |buf|))) + tail
               && Keeping(mode, kept, p.tagged + Held(now.last, buf), now.last)
    modifies s
    ensures s.Valid() && old(s.pos) <= s.pos
    ensures known ==>
              && ok && Keeping(mode, kept, p'.tagged, now.last)
              && p'.read + old(s.pos) == p.read + |buf| + s.pos
              && p'.out == p.out + Shown(mode, now.last, buf) + copied
              && p'.eol == "" && p'.cont == cont && p'.seen == now
              && (if now.last && !cont then whole == Relay(now.status, p'.read, p'.out, p'.tagged, true)
                  else Stands(mode, whole, pieces, tail, p', a', s.Rest()))
  {
    p', a' := p, a;
    ghost var here, after := Piece("", None), "";
    if known {
      here, after := pieces[a.i], Text(pieces[a.i + 1..]) + tail;
      LineReady(mode, whole, pieces, p, a, buf, tail);
    }
    ok, cont, copied := FinishLine(s, mode, eol, buf, now, known, here, after);
    if known {
      LineLeft(mode, whole, pieces, tail, p, a, now, buf);
      KeptLine(mode, kept, p.tagged, buf, Content(here), now.last);
      p', a' := NextProgress(mode, p, here, buf, now), Place(a.i + 1, 0);
    }
  }

  /** A chunk has been written: of a part of a line the end is remembered, and the end of a line is left. */
  method LeaveChunk(s: Input, mode: Mode, eol: string, buf: string, now: Seen, ghost whole: Relay,
                    ghost known: bool, ghost pieces: seq<Piece>, ghost tail: string, ghost p: Progress, ghost a: Place,
                    ghost kept: Option<string>)
    returns (ok: bool, cont: bool, eol': string, copied: string, ghost p': Progress, ghost a': Place)
    requires s.Valid() && |eol| <= 64 && WellFormed(pieces)
    requires known ==>
               && OnTrack(mode, whole, pieces, p, a) && NoticedNow(p, mode, pieces[a.i].line[a.k..], now)
               && p.eol == eol && (!p.cont ==> eol == "") && Took(pieces, a, buf)
               && s.Rest() == Text(Remaining(pieces, a.(k := a.k + |buf|))) + tail
               && Keeping(mode, kept, p.tagged + Held(now.last, buf), now.last)
    modifies s
    ensures s.Valid() && old(s.pos) <= s.pos && |eol'| <= 64
    ensures known ==>
              && ok && Keeping(mode, kept, p'.tagged, now.last)
              && p'.read + old(s.pos) == p.read + |buf| + s.pos
              && p'.out == p.out + Shown(mode, now.last, buf) + copied
              && p'.eol == eol' && p'.cont == cont && p'.seen == now
              && (if now.last && !cont then whole == Relay(now.status, p'.read, p'.out, p'.tagged, true)
                  else Stands(mode, whole, pieces, tail, p', a', s.Rest()))
  {
    var sl := |buf|;
    if sl == BUFSIZE - 1 && buf[sl - 1] != '\n' {
      ok, cont, eol', copied, p', a' := true, true, buf[sl - 64..], "", p, a;
      if known {
        MidLine(mode, whole, pieces, p, a, buf, now);
        p' := Progress(p.read + |buf|, p.out + Shown(mode, now.last, buf), p.tagged + Held(now.last, buf), eol', true, now);
        a' := a.(k := a.k + |buf|);
      }
    } else {
      eol' := "";
      ok, cont, copied, p', a' := LeaveLine(s, mode, eol, buf, now, whole, known, pieces, tail, p, a, kept);
    }
  }

  /** What the relay gives: what is expected, of which the ending response says the result and is stored; a stream that
      ends before that response is a lost connection. */
  ghost predicate Delivered(mode: Mode, expected: Relay, r: Status, length: int, out: string, kept: Option<string>) {
    && expected.status == r && expected.length == length && expected.out == out
    && (expected.ended ==> KeptRight(mode, kept, expected.tagged))
    && (mode.tag.Some? ==> if expected.ended then SaysHow(mode.tag.value, expected.tagged, r) else r == NOCONNECTION)
  }

  lemma DeliveredWhole(mode: Mode, pieces: seq<Piece>, whole: Relay, p: Progress, kept: Option<string>)
    requires Completes(whole, p, OVER)
    ensures Delivered(mode, whole, NOCONNECTION, p.read, p.out, kept)
  {
    assert p.out + "" == p.out;
  }

  lemma DeliveredEnd(mode: Mode, pieces: seq<Piece>, whole: Relay, kept: Option<string>)
    requires WellFormed(pieces) && whole == Expected(mode, pieces, true, Seen(mode.tag.None?, OK))
    requires whole.ended && KeptRight(mode, kept, whole.tagged)
    ensures Delivered(mode, whole, whole.status, whole.length, whole.out, kept)
  {
    if mode.tag.Some? {
      ResultIsSaid(mode, pieces, true, Seen(false, OK));
    }
  }

  /**
   The relay of one response.  On a stream of well-formed lines and literals it reads exactly the response,
   wherever the chunk boundaries fall, and writes exactly what is expected of it.
   */
  method PipeResponse(s: Input, mode: Mode, ghost pieces: seq<Piece>, ghost tail: string)
    returns (r: Status, out: string, kept: Option<string>)
    requires s.Valid()
    requires mode.tag.Some? ==> |mode.tag.value| + 2 < BUFSIZE
    requires WellFormed(pieces) && s.Rest() == Text(pieces) + tail
    modifies s
    ensures s.Valid() && old(s.pos) <= s.pos
    ensures var expected := Expected(mode, pieces, true, Seen(mode.tag.None?, OK));
            expected.ended || tail == "" ==> Delivered(mode, expected, r, s.pos - old(s.pos), out, kept)
  {
    hide Expected, Text, SaysHow, KeptRight, Remaining;
    ghost var whole := Expected(mode, pieces, true, Seen(mode.tag.None?, OK));
    ghost var known := whole.ended || tail == "";
    var eol, cont, seen := "", false, Seen(mode.tag.None?, OK);
    out, kept := "", Some("");
    ghost var p := Progress(0, out, "", eol, cont, seen);
    ghost var a := Place(0, 0);
    Begins(mode, pieces, tail);
    var more := true;
    while more
      invariant s.Valid() && old(s.pos) <= s.pos && |eol| <= 64
      invariant more && known ==> Stands(mode, whole, pieces, tail, p, a, s.Rest())
      invariant more && known ==>
                  old(s.pos) + p.read == s.pos && p.out == out && p.eol == eol && p.cont == cont && p.seen == seen
      invariant known ==> Keeping(mode, kept, p.tagged, seen.last)
      invariant !more && known ==> seen.last && whole == Relay(seen.status, s.pos - old(s.pos), out, p.tagged, true)
      decreases |s.data| - s.pos, more
    {
      if !cont {
        eol := "";
      }
      ghost var on := known && a.i < |pieces|;
      if on {
        Forget(mode, whole, pieces, p, a);
        p := p.(eol := if p.cont then p.eol else "");
      }
      var eof, buf;
      eof, buf, seen, kept := TakeChunk(s, mode, cont, seen, kept, on, pieces, tail, p, a);
      if eof {
        if known {
          assert Over(whole, pieces, p, a);
          DeliveredWhole(mode, pieces, whole, p, kept);
        }
        return NOCONNECTION, out, kept;
      }
      out := out + Shown(mode, seen.last, buf);
      var ok, copied;
      ok, cont, eol, copied, p, a := LeaveChunk(s, mode, eol, buf, seen, whole, on, pieces, tail, p, a, kept);
      out := out + copied;
      if !ok {
        return ABORTED, out, kept;
      }
      more := !seen.last || cont;
    }
    r := seen.status;
    if known {
      KeptInTheEnd(mode, kept, p.tagged);
      DeliveredEnd(mode, pieces, whole, kept);
    }
  }

  lemma Begins(mode: Mode, pieces: seq<Piece>, tail: string)
    requires WellFormed(pieces)
    ensures var seen := Seen(mode.tag.None?, OK);
            Stands(mode, Expected(mode, pieces, true, seen), pieces, tail, Progress(0, "", "", "", false, seen), Place(0, 0),
                   Text(pieces) + tail)
  {
    var whole := Expected(mode, pieces, true, Seen(mode.tag.None?, OK));
    assert "" + whole.out == whole.out && "" + whole.tagged == whole.tagged;
    if pieces != [] {
      AtLineStart(pieces, 0);
      assert pieces[0..] == pieces && Proper(pieces[0]);
    } else {
      assert "" + tail == tail;
    }
  }
}
