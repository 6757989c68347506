/**
 The textual \Seen ranges of the append transaction: addme grows the list of new UIDs,
 append_addseen splices it onto the user's existing list.
 */
module SeenRange {
  import opened Wrappers
  import opened Decimal

  const INT_MAX: int := 0x7fff_ffff

  newtype int32 = x: int | -0x8000_0000 <= x < 0x8000_0000

  /** Reading a UID list left to right: the finished items, and the item being read. */
  datatype Scan = Scan(done: set<nat>, lo: Option<nat>, cur: Option<nat>, ok: bool)

  function Span(lo: Option<nat>, hi: nat): set<nat> {
    match lo
    case None => {hi}
    case Some(a) => set x: nat | x <= hi && AtLeast(x, a)
  }

  predicate AtLeast(x: nat, a: nat) {
    a <= x
  }

  const START := Scan({}, None, None, true)

  predicate ItemReady(s: Scan) {
    s.cur.Some? && (s.lo.Some? ==> s.lo.value <= s.cur.value)
  }

  function Step(s: Scan, c: char): Scan {
    if IsDigit(c) then s.(cur := Some((if s.cur.Some? then 10 * s.cur.value else 0) + DigitValue(c)))
    else if c == ':' && s.cur.Some? && s.lo == None then Scan(s.done, s.cur, None, s.ok)
    else if c == ',' && ItemReady(s) then Scan(s.done + Span(s.lo, s.cur.value), None, None, s.ok)
    else s.(cur := None, ok := false)
  }

  function Fold(s: Scan, t: string): Scan {
    if t == "" then s else Step(Fold(s, t[..|t| - 1]), t[|t| - 1])
  }

  predicate Complete(s: Scan) {
    s.ok && ItemReady(s)
  }

  /** A comma-separated list of numbers and ascending ranges; the empty list is the empty string. */
  predicate WellFormed(t: string) {
    t == "" || Complete(Fold(START, t))
  }

  function Result(s: Scan): set<nat>
    requires s.cur.Some?
  {
    s.done + Span(s.lo, s.cur.value)
  }

  /** The set of UIDs a list stands for. */
  function Denoted(t: string): set<nat>
    requires WellFormed(t)
  {
    if t == "" then {} else Result(Fold(START, t))
  }

  lemma {:induction false} FoldAppend(s: Scan, a: string, b: string)
    ensures Fold(s, a + b) == Fold(Fold(s, a), b)
    decreases |b|
  {
    if b == "" {
      assert a + b == a;
    } else {
      var c := b[..|b| - 1];
      assert (a + b)[..|a + b| - 1] == a + c;
      FoldAppend(s, a, c);
    }
  }

  lemma FoldAround(s: Scan, a: string, c: char, b: string)
    ensures Fold(s, a + [c] + b) == Fold(Step(Fold(s, a), c), b)
  {
    FoldAppend(s, a + [c], b);
    assert (a + [c])[..|a|] == a;
  }

  lemma {:induction false} FoldDigits(s: Scan, t: string)
    requires AllDigits(t) && t != "" && s.cur == None
    ensures Fold(s, t) == s.(cur := Some(Value(t)))
    decreases |t|
  {
    if |t| == 1 {
      assert t[..0] == "";
    } else {
      FoldDigits(s, t[..|t| - 1]);
    }
  }

  lemma {:induction false} OkStaysLost(s: Scan, t: string)
    ensures Fold(s, t).ok ==> s.ok
    decreases |t|
  {
    if t != "" {
      OkStaysLost(s, t[..|t| - 1]);
    }
  }

  /** What was finished before stays finished and influences nothing else. */
  lemma {:induction false} FoldShift(s: Scan, x: set<nat>, t: string)
    ensures Fold(s.(done := x + s.done), t) == Fold(s, t).(done := x + Fold(s, t).done)
    decreases |t|
  {
    if t != "" {
      FoldShift(s, x, t[..|t| - 1]);
      var f := Fold(s, t[..|t| - 1]);
      if f.cur.Some? {
        assert x + (f.done + Span(f.lo, f.cur.value)) == (x + f.done) + Span(f.lo, f.cur.value);
      }
    }
  }

  /** The first number starts with a non-zero digit and is an item of its own. */
  predicate FirstAlone(t: string) {
    HeadEnd(t) > 0 && t[0] != '0' && (HeadEnd(t) == |t| || t[HeadEnd(t)] == ',')
  }

  /** The first item is a range that starts at 1; addme builds one only when 1 is recorded twice. */
  predicate FromOne(t: string) {
    |t| > 2 && t[0] == '1' && t[1] == ':'
  }

  /** The shape addme maintains. */
  predicate Shape(t: string) {
    FirstAlone(t) || FromOne(t)
  }

  lemma HeadOfFromOne(t: string)
    requires FromOne(t)
    ensures HeadEnd(t) == 1 && FirstNumber(t) == 1
  {
    assert HeadEnd(t[1..]) == 0;
    assert t[..1] == "1" && "1"[..0] == "";
  }

  function FirstNumber(t: string): nat {
    Value(t[..HeadEnd(t)])
  }

  function LastNumber(t: string): nat {
    Value(t[TailStart(t)..])
  }

  /** Reading up to a separator: the item before it is finished, or has become the lower end of a range. */
  lemma AfterSeparator(t: string)
    requires t != "" && !IsDigit(t[|t| - 1])
    ensures var s, c := Fold(START, t), t[|t| - 1];
            && s.cur == None
            && (s.ok ==> (c == ',' && s.lo == None) || (c == ':' && s.lo.Some?))
  {
    OkStaysLost(START, t);
  }

  lemma FoldNothing(s: Scan)
    ensures Fold(s, "") == s
  {
  }

  /** A well-formed list read up to its last number. */
  lemma ReadTail(t: string)
    requires t != "" && WellFormed(t)
    ensures var i, s := TailStart(t), Fold(START, t[..TailStart(t)]);
            && i < |t| && s.ok && s.cur == None
            && Fold(START, t) == s.(cur := Some(LastNumber(t)))
            && (s.lo == None <==> i == 0 || t[i - 1] == ',')
            && (s.lo.Some? <==> i > 0 && t[i - 1] == ':')
            && (s.lo.Some? ==> s.lo.value <= LastNumber(t))
            && LastNumber(t) in Denoted(t)
  {
    hide Fold;
    var i := TailStart(t);
    ReadBeforeTail(t);
    FoldNothing(START);
    if i > 0 {
      AfterSeparator(t[..i]);
    }
  }

  lemma ReadBeforeTail(t: string)
    requires t != "" && WellFormed(t)
    ensures var i, s := TailStart(t), Fold(START, t[..TailStart(t)]);
            && i < |t| && s.ok && s.cur == None && Fold(START, t) == s.(cur := Some(LastNumber(t)))
  {
    hide Fold;
    var i := TailStart(t);
    var a, d := t[..i], t[i..];
    assert t == a + d;
    FoldAppend(START, a, d);
    OkStaysLost(Fold(START, a), d);
    FoldNothing(START);
    if i > 0 {
      AfterSeparator(a);
    }
    assert d == "" ==> a == t;
    if d != "" {
      FoldDigits(Fold(START, a), d);
    }
  }

  /** Reading a list whose first number is an item of its own, from a state that waits for a number. */
  lemma ReadHead(s: Scan, t: string)
    requires FirstAlone(t) && s.cur == None
    ensures var h, read := HeadEnd(t), s.(cur := Some(FirstNumber(t)));
            Fold(s, t) == if h == |t| then read else Fold(Step(read, ','), t[h + 1..])
  {
    var h := HeadEnd(t);
    FoldDigits(s, t[..h]);
    if h < |t| {
      assert t == t[..h] + [','] + t[h + 1..];
      FoldAround(s, t[..h], ',', t[h + 1..]);
    } else {
      assert t[..h] == t;
    }
  }

  /**
   A list whose first number is an item of its own can follow any prefix that is waiting for a number
   not above it: the first number completes the pending item, and the rest keeps its meaning.
   */
  lemma Splice(prefix: string, t: string)
    requires WellFormed(t) && FirstAlone(t)
    requires var s := Fold(START, prefix);
             s.ok && s.cur == None && (s.lo.Some? ==> s.lo.value <= FirstNumber(t))
    ensures WellFormed(prefix + t)
    ensures var s := Fold(START, prefix);
            Denoted(prefix + t) == s.done + Span(s.lo, FirstNumber(t)) + Denoted(t)
  {
    var s := Fold(START, prefix);
    var h, first := HeadEnd(t), FirstNumber(t);
    FoldAppend(START, prefix, t);
    ReadHead(START, t);
    ReadHead(s, t);
    assert first in Span(s.lo, first);
    if h < |t| {
      var own, x := Scan({first}, None, None, true), s.done + Span(s.lo, first);
      assert Step(START.(cur := Some(first)), ',') == own by {
        assert START.done + {first} == {first};
      }
      assert x + own.done == x;
      FoldShift(own, x, t[h + 1..]);
    }
  }

  /** atoi on a run of digits whose value fits an int: no intermediate result overflows. */
  method Atoi(s: string) returns (n: int32)
    requires AllDigits(s) && Value(s) <= INT_MAX
    ensures n as int == Value(s)
  {
    n := 0;
    var i := 0;
    assert s[..0] == "";
    while i < |s|
      invariant 0 <= i <= |s|
      invariant n as int == Value(s[..i])
    {
      ValueOfPrefix(s, i + 1);
      assert s[..i + 1][..i] == s[..i];
      assert Value(s[..i + 1]) == 10 * Value(s[..i]) + DigitValue(s[i]);
      n := n * 10 + (s[i] as int - '0' as int) as int32;
      i := i + 1;
    }
    assert s[..i] == s;
  }

  /** The number of items of a list is one more than its commas. */
  function Commas(t: string): nat {
    if t == "" then 0 else Commas(t[..|t| - 1]) + (if t[|t| - 1] == ',' then 1 else 0)
  }

  lemma {:induction false} CommasAppend(a: string, b: string)
    ensures Commas(a + b) == Commas(a) + Commas(b)
    ensures AllDigits(b) ==> Commas(b) == 0
    decreases |b|
  {
    if b == "" {
      assert a + b == a;
    } else {
      assert (a + b)[..|a + b| - 1] == a + b[..|b| - 1];
      CommasAppend(a, b[..|b| - 1]);
    }
  }

  /** `t` lists the UIDs of `was` and `uid`, in the shape addme maintains and with the same first item. */
  ghost predicate Recorded(was: string, t: string, uid: nat)
    requires WellFormed(was)
  {
    && WellFormed(t) && Shape(t) && Denoted(t) == Denoted(was) + {uid}
    && (was != "" ==> FirstNumber(t) == FirstNumber(was))
  }

  lemma SingleNumberMeans(d: string)
    requires AllDigits(d) && d != ""
    ensures WellFormed(d) && Denoted(d) == {Value(d)}
  {
    FoldDigits(START, d);
    assert START.done + {Value(d)} == {Value(d)};
  }

  /** Two numbers with a colon between them stand for everything from one to the other. */
  lemma RangeMeans(a: string, b: string)
    requires AllDigits(a) && AllDigits(b) && a != "" && b != "" && Value(a) <= Value(b)
    ensures WellFormed(a + ":" + b) && forall u: nat :: u in Denoted(a + ":" + b) <==> Value(a) <= u <= Value(b)
  {
    FoldDigits(START, a);
    FoldAround(START, a, ':', b);
    FoldDigits(Step(START.(cur := Some(Value(a))), ':'), b);
    assert a + ":" + b == a + [':'] + b;
  }

  lemma SingleNumberShape(d: string)
    requires AllDigits(d) && d != "" && d[0] != '0'
    ensures FirstAlone(d) && FirstNumber(d) == Value(d)
  {
    HeadOfDigits(d);
    assert d[..|d|] == d;
  }

  lemma SingleNumberCommas(d: string)
    requires AllDigits(d)
    ensures Commas(d) == 0
  {
    CommasAppend("", d);
    assert "" + d == d;
  }

  lemma SingleNumber(d: string)
    requires AllDigits(d) && d != "" && d[0] != '0'
    ensures Recorded("", d, Value(d)) && FirstNumber(d) == Value(d) && Commas(d) == 0
  {
    SingleNumberMeans(d);
    SingleNumberShape(d);
    SingleNumberCommas(d);
  }

  lemma RecordFirst(uid: nat)
    requires uid > 0
    ensures Recorded("", Print(uid), uid) && FirstNumber(Print(uid)) == uid && Commas(Print(uid)) == 0
  {
    PrintThenRead(uid);
    SingleNumber(Print(uid));
  }

  /** `prefix` begins like `was`, up to and including the end of its first number. */
  predicate SameHead(was: string, prefix: string) {
    if FromOne(was) then |prefix| >= 2 && prefix[..2] == was[..2]
    else var h := HeadEnd(was); h < |prefix| && prefix[..h] == was[..h] && prefix[h] == ','
  }

  /** The digits of `uid` after a prefix that keeps the first number and waits for another. */
  lemma RecordAfter(was: string, prefix: string, uid: nat)
    requires WellFormed(was) && was != "" && Shape(was) && uid > 0
    requires SameHead(was, prefix)
    requires var s := Fold(START, prefix);
             s.ok && s.cur == None && (s.lo.Some? ==> s.lo.value <= uid) && s.done + Span(s.lo, uid) == Denoted(was) + {uid}
    ensures Recorded(was, prefix + Print(uid), uid) && Commas(prefix + Print(uid)) == Commas(prefix)
  {
    var d := Print(uid);
    RecordFirst(uid);
    Splice(prefix, d);
    CommasAppend(prefix, d);
    assert Denoted(was) + {uid} + ({} + {uid}) == Denoted(was) + {uid};
    ShapeKept(was, prefix, d);
  }

  lemma ShapeKept(was: string, prefix: string, d: string)
    requires Shape(was) && SameHead(was, prefix) && d != ""
    ensures Shape(prefix + d) && FirstNumber(prefix + d) == FirstNumber(was)
  {
    var h, t := HeadEnd(was), prefix + d;
    if FromOne(was) {
      assert t[0] == prefix[..2][0] == was[..2][0] && t[1] == prefix[..2][1] == was[..2][1];
      HeadOfFromOne(was);
      HeadOfFromOne(t);
    } else {
      HeadOfDigits(was[..h]);
      assert t[..h] == was[..h] && t[h] == ',';
      HeadEndAppend(t[..h], t[h..]);
      assert t == t[..h] + t[h..];
      assert t[0] == t[..h][0] == was[..h][0];
    }
  }

  lemma RecordNewItem(was: string, uid: nat)
    requires WellFormed(was) && was != "" && Shape(was) && uid > 0
    ensures Recorded(was, was + "," + Print(uid), uid) && Commas(was + "," + Print(uid)) == Commas(was) + 1
  {
    var prefix := was + [','];
    assert prefix[..|was|] == was;
    assert FromOne(was) ==> prefix[..2] == was[..2];
    RecordAfter(was, prefix, uid);
    assert prefix + Print(uid) == was + "," + Print(uid);
  }

  lemma RecordOpenRange(was: string, uid: nat)
    requires WellFormed(was) && was != "" && Shape(was) && LastNumber(was) == uid - 1
    requires TailStart(was) > 0 && was[TailStart(was) - 1] == ','
    ensures Recorded(was, was + ":" + Print(uid), uid) && Commas(was + ":" + Print(uid)) == Commas(was)
  {
    var prefix := was + [':'];
    ReadTail(was);
    assert prefix[..|was|] == was;
    assert SameHead(was, prefix) by {
      if FromOne(was) {
        assert prefix[..2] == was[..2];
      } else {
        TailBeyondHead(was);
      }
    }
    var s := Fold(START, was);
    assert s.done + Span(Some(uid - 1), uid) == s.done + {uid - 1} + {uid};
    RecordAfter(was, prefix, uid);
    assert prefix + Print(uid) == was + ":" + Print(uid);
  }

  lemma RecordExtendRange(was: string, uid: nat)
    requires WellFormed(was) && was != "" && Shape(was) && LastNumber(was) == uid - 1
    requires TailStart(was) > 0 && was[TailStart(was) - 1] == ':'
    ensures var t := was[..TailStart(was)] + Print(uid);
            Recorded(was, t, uid) && Commas(t) == Commas(was)
  {
    var i := TailStart(was);
    var prefix := was[..i];
    ReadTail(was);
    assert SameHead(was, prefix) by {
      if FromOne(was) {
        assert i >= 2;
        assert prefix[..2] == was[..2];
      } else {
        TailBeyondHead(was);
      }
    }
    var s := Fold(START, prefix);
    assert Span(s.lo, uid) == Span(s.lo, uid - 1) + {uid};
    assert was == prefix + was[i..];
    CommasAppend(prefix, was[i..]);
    assert s.done + (Span(s.lo, uid - 1) + {uid}) == s.done + Span(s.lo, uid - 1) + {uid};
    RecordAfter(was, prefix, uid);
  }

  /** Recording 1 a second time. */
  lemma RecordOneAgain(was: string, uid: nat)
    requires was == "1" && uid == 1 && WellFormed(was)
    ensures Recorded(was, was + ":" + Print(uid), uid) && Commas(was + ":" + Print(uid)) == Commas(was)
  {
    RecordFirst(uid);
    var d, t := Print(uid), was + ":" + Print(uid);
    assert was[..0] == "" && Value(was) == 1;
    SingleNumber(was);
    FoldDigits(START, was);
    FoldAround(START, was, ':', d);
    assert t == was + [':'] + d;
    FoldDigits(Step(START.(cur := Some(1)), ':'), d);
    HeadOfFromOne(t);
    CommasAppend(was + ":", d);
    CommasAppend(was, ":");
    assert ":"[..0] == "" && Commas(":") == 0;
  }

  /** A list with a separator has its first number before it. */
  lemma TailBeyondHead(t: string)
    requires FirstAlone(t) && TailStart(t) > 0
    ensures HeadEnd(t) < TailStart(t)
    ensures t[HeadEnd(t)] == ','
  {
    assert forall k :: 0 <= k < HeadEnd(t) ==> t[..HeadEnd(t)][k] == t[k];
  }

  /** Rereading a lone number without its first digit finds the number before `uid` only when both are 1. */
  lemma LoneNumber(was: string, uid: nat)
    requires was != "" && Shape(was) && TailStart(was) == 0 && LastNumber(was) <= uid
    ensures Value(was[1..]) <= uid && (Value(was[1..]) == uid - 1 ==> was == "1" && uid == 1)
  {
    assert was[0..] == was;
    assert IsDigit(was[0]);
    DropLeadingDigit(was);
    if |was| == 1 {
      assert was[..0] == "" && was[1..] == "";
    }
  }

  /** Whether addme takes the last item of the list to continue with `uid`. */
  predicate Continues(was: string, uid: nat) {
    (uid - 1 == LastNumber(was) && TailStart(was) > 0) || (was == "1" && uid == 1)
  }

  class NewUids {
    var msgrange: string
    var alloced: nat

    constructor ()
      ensures Valid() && msgrange == ""
    {
      msgrange, alloced := "", 0;
    }

    /** The buffer holds a list addme could have built, with room for its terminating NUL. */
    predicate Valid()
      reads this
    {
      && WellFormed(msgrange) && (msgrange == "" || Shape(msgrange))
      && (msgrange == "" || |msgrange| < alloced)
    }

    /** addme: record one more UID, not below any that was recorded before. */
    method AddMe(uid: nat)
      requires Valid()
      requires 0 < uid <= INT_MAX
      requires forall u :: u in Denoted(msgrange) ==> u <= uid
      modifies this
      ensures Valid() && msgrange != ""
      ensures Denoted(msgrange) == old(Denoted(msgrange)) + {uid}
      // A UID that continues the last item joins it, except that a number on its own stays on its own.
      ensures Commas(msgrange) == old(Commas(msgrange)) +
              (if old(msgrange) == "" || Continues(old(msgrange), uid) then 0 else 1)
      ensures FirstNumber(msgrange) == if old(msgrange) == "" then uid else old(FirstNumber(msgrange))
    {
      hide Fold;
      var len := |msgrange|;
      if alloced < len + 40 {
        alloced := alloced + 40;
      }
      var digits := Print(uid);
      PrintLength(uid, 10);
      if len == 0 {
        RecordFirst(uid);
        msgrange := digits;
        return;
      }
      ghost var was := msgrange;
      ReadTail(was);
      var p, wasRange := LastNumberPosition(msgrange);
      if TailStart(was) == 0 {
        LoneNumber(was, uid);
      }
      var last := Atoi(msgrange[p..]);
      if last as int == uid - 1 {
        if !wasRange {
          if TailStart(was) > 0 {
            RecordOpenRange(was, uid);
          } else {
            RecordOneAgain(was, uid);
          }
          msgrange := msgrange + ":" + digits;
        } else {
          RecordExtendRange(was, uid);
          msgrange := msgrange[..p] + digits;
        }
      } else {
        RecordNewItem(was, uid);
        msgrange := msgrange + "," + digits;
      }
    }
  }

  /** Where addme rereads the last number: its start, but one digit late when the list is a single number. */
  method LastNumberPosition(t: string) returns (p: nat, wasRange: bool)
    requires t != "" && TailStart(t) < |t|
    ensures p == (if TailStart(t) == 0 then 1 else TailStart(t)) && p <= |t|
    ensures AllDigits(t[p..])
    ensures wasRange <==> TailStart(t) > 0 && t[TailStart(t) - 1] == ':'
  {
    wasRange := false;
    p := |t| - 1;
    while IsDigit(t[p]) && p > 0
      invariant p < |t| && TailStart(t) <= p + 1
    {
      p := p - 1;
    }
    if t[p] == ':' {
      wasRange := true;
    }
    assert forall k :: 0 <= k < |t| - TailStart(t) ==> t[TailStart(t)..][k] == t[TailStart(t) + k];
    p := p + 1;
  }

  /** strlcpy: at most `size` - 1 characters and a NUL. */
  function Strlcpy(text: string, size: nat): string {
    if |text| < size then text else text[..if size == 0 then 0 else size - 1]
  }

  /** The two ways append_addseen prepares the user's list for the new one. */
  ghost predicate SplicePoint(seen: string, prefix: string, first: nat)
    requires WellFormed(seen)
  {
    var i := TailStart(seen);
    if seen == "" then prefix == ""
    else if LastNumber(seen) == 0 || LastNumber(seen) + 1 != first then prefix == seen + ","
    else if i > 0 && seen[i - 1] == ':' then prefix == seen[..i]
    else prefix == seen + ":"
  }

  lemma SpliceMeaning(seen: string, prefix: string, t: string)
    requires WellFormed(seen) && WellFormed(t) && Shape(t)
    requires forall u :: u in Denoted(seen) ==> u < FirstNumber(t)
    requires SplicePoint(seen, prefix, FirstNumber(t))
    ensures WellFormed(prefix + t) && Denoted(prefix + t) == Denoted(seen) + Denoted(t)
    ensures seen != "" ==>
              Commas(prefix + t) == Commas(seen) + Commas(t) +
                                    (if LastNumber(seen) != 0 && LastNumber(seen) + 1 == FirstNumber(t) then 0 else 1)
  {
    if seen != "" {
      ReadTail(seen);
    }
    if FromOne(t) {
      HeadOfFromOne(t);
    }
    if seen == "" {
      assert prefix + t == t;
    } else if LastNumber(seen) == 0 || LastNumber(seen) + 1 != FirstNumber(t) {
      SpliceAfterComma(seen, t);
    } else if TailStart(seen) > 0 && seen[TailStart(seen) - 1] == ':' {
      SpliceIntoRange(seen, t);
    } else {
      SpliceAfterNumber(seen, t);
    }
  }

  lemma SpliceAfterComma(seen: string, t: string)
    requires WellFormed(seen) && seen != "" && WellFormed(t) && t != ""
    ensures var r := seen + "," + t;
            WellFormed(r) && Denoted(r) == Denoted(seen) + Denoted(t) && Commas(r) == Commas(seen) + Commas(t) + 1
  {
    var prefix, x := seen + [','], Denoted(seen);
    ReadTail(seen);
    assert prefix[..|seen|] == seen;
    CommasAppend(prefix, t);
    FoldAppend(START, prefix, t);
    assert x + START.done == x;
    FoldShift(START, x, t);
    var s := Fold(START, t);
    assert (x + s.done) + Span(s.lo, s.cur.value) == x + (s.done + Span(s.lo, s.cur.value));
    assert prefix + t == seen + "," + t;
  }

  lemma SpliceAfterNumber(seen: string, t: string)
    requires WellFormed(seen) && seen != "" && WellFormed(t) && FirstAlone(t)
    requires LastNumber(seen) + 1 == FirstNumber(t)
    requires TailStart(seen) > 0 ==> seen[TailStart(seen) - 1] != ':'
    ensures var r := seen + ":" + t;
            WellFormed(r) && Denoted(r) == Denoted(seen) + Denoted(t) && Commas(r) == Commas(seen) + Commas(t)
  {
    var prefix, last := seen + [':'], LastNumber(seen);
    FirstIsMember(t);
    ReadTail(seen);
    assert prefix[..|seen|] == seen;
    CommasAppend(prefix, t);
    Splice(prefix, t);
    var done := Fold(START, seen).done;
    assert done + Span(Some(last), last + 1) + Denoted(t) == (done + {last}) + Denoted(t);
  }

  lemma SpliceIntoRange(seen: string, t: string)
    requires WellFormed(seen) && seen != "" && WellFormed(t) && FirstAlone(t)
    requires LastNumber(seen) + 1 == FirstNumber(t)
    requires TailStart(seen) > 0 && seen[TailStart(seen) - 1] == ':'
    ensures var r := seen[..TailStart(seen)] + t;
            WellFormed(r) && Denoted(r) == Denoted(seen) + Denoted(t) && Commas(r) == Commas(seen) + Commas(t)
  {
    var i, last := TailStart(seen), LastNumber(seen);
    var prefix := seen[..i];
    FirstIsMember(t);
    ReadTail(seen);
    assert seen == prefix + seen[i..];
    CommasAppend(prefix, seen[i..]);
    CommasAppend(prefix, t);
    Splice(prefix, t);
    var s := Fold(START, prefix);
    assert s.done + Span(s.lo, last + 1) + Denoted(t) == (s.done + Span(s.lo, last)) + Denoted(t);
  }

  lemma FirstIsMember(t: string)
    requires WellFormed(t) && FirstAlone(t)
    ensures FirstNumber(t) in Denoted(t)
  {
    Splice("", t);
    assert "" + t == t;
    assert Fold(START, "") == START;
  }

  /** So is the first number of every list that addme built. */
  lemma FirstOfShape(t: string)
    requires WellFormed(t) && Shape(t)
    ensures FirstNumber(t) in Denoted(t)
  {
    if FirstAlone(t) {
      FirstIsMember(t);
    } else {
      HeadOfFromOne(t);
      assert t[..1] == "1" && "1"[..0] == "" && t == "1" + [':'] + t[2..];
      FoldAround(START, "1", ':', t[2..]);
      FoldDigits(START, "1");
      LowerEndIsMember(Step(START.(cur := Some(1)), ':'), t[2..]);
    }
  }

  /** A range that is open stays open until its lower end is finished. */
  lemma {:induction false} LowerEndIsMember(s: Scan, t: string)
    requires s.lo.Some?
    ensures var r := Fold(s, t); r.ok ==> r.lo == s.lo || s.lo.value in r.done
    decreases |t|
  {
    if t != "" {
      LowerEndIsMember(s, t[..|t| - 1]);
    }
  }

  /**
   append_addseen on the two lists: the user's list `seenuids` and the new UIDs `msgrange`, all of which
   are above the user's.
   */
  method AddSeen(seenuids: string, msgrange: string) returns (r: string)
    requires WellFormed(seenuids)
    requires WellFormed(msgrange) && Shape(msgrange) && FirstNumber(msgrange) <= INT_MAX
    requires forall u :: u in Denoted(seenuids) ==> u < FirstNumber(msgrange)
    ensures WellFormed(r)
    ensures Denoted(r) == Denoted(seenuids) + Denoted(msgrange)
    // The two lists share an item exactly when the new one continues the old one.
    ensures seenuids != "" ==>
              Commas(r) == Commas(seenuids) + Commas(msgrange) +
                           (if LastNumber(seenuids) + 1 == FirstNumber(msgrange) && LastNumber(seenuids) != 0 then 0 else 1)
  {
    var start := Atoi(msgrange[..HeadEnd(msgrange)]);
    var oldlen := |seenuids|;
    var newlen := oldlen + |msgrange| + 10;
    if seenuids != "" {
      ReadTail(seenuids);
    }
    var tail := oldlen;
    while tail > 0 && IsDigit(seenuids[tail - 1])
      invariant TailStart(seenuids) <= tail <= oldlen
    {
      tail := tail - 1;
    }
    assert seenuids == "" ==> seenuids[tail..] == "";
    var lastSeen := Atoi(seenuids[tail..]);
    var p := oldlen;
    var prefix := seenuids;
    if lastSeen != 0 && lastSeen >= start - 1 {
      if tail > 0 && seenuids[tail - 1] == ':' {
        p := tail - 1;
        prefix := seenuids[..p];
      }
      prefix, p := prefix + ":", p + 1;
    } else if p > 0 {
      prefix, p := prefix + ",", p + 1;
    }
    r := prefix + Strlcpy(msgrange, newlen - (p + 1));
    assert Strlcpy(msgrange, newlen - (p + 1)) == msgrange;
    SpliceMeaning(seenuids, prefix, msgrange);
  }
}
