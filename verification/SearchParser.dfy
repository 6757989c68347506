/**
 getsearchprogram and getsearchcriteria: the recursive parser that compiles search keys straight into one
 accumulating record, with a sublist for NOT and OR.
 */
module SearchParser {
  import opened Wrappers
  import opened Decimal
  import opened Letters
  import opened SearchQuery

  const UINT32: nat := 0x1_0000_0000

  /** A word of the command that is a search key. */
  datatype Word =
    | FlagWord(flagKey: FlagKey) | DateWord(dateKey: DateKey) | LargerWord | SmallerWord | TextWord(field: Field)
    | HeaderWord | KeywordWord(wanted: bool) | ModseqWord | UidWord | NotWord | OrWord

  /** The command text, cut into words, arguments and delimiters. */
  datatype Item =
    | Key(word: Word) | Numbers(numbers: string) | Arg(text: string) | DateArg(start: int, end: int)
    | Open | Close | Space | EndOfLine

  /** How a key is written. */
  function Tokens(q: Query): (s: seq<Item>)
    ensures s != []
    decreases q, 0
  {
    match q
    case Flag(k) => [Key(FlagWord(k))]
    case Dated(k, start, end) => [Key(DateWord(k)), Space, DateArg(start, end)]
    case Larger(n) => [Key(LargerWord), Space, Arg(n)]
    case Smaller(n) => [Key(SmallerWord), Space, Arg(n)]
    case Contains(f, text) => [Key(TextWord(f)), Space, Arg(text)]
    case Header(name, text) => [Key(HeaderWord), Space, Arg(name), Space, Arg(text)]
    case Keyword(k, wanted) => [Key(KeywordWord(wanted)), Space, Arg(k)]
    case Modseq(n) => [Key(ModseqWord), Space, Arg(n)]
    case Sequence(s) => [Numbers(s)]
    case Uid(s) => [Key(UidWord), Space, Numbers(s)]
    case Not(q') => [Key(NotWord), Space] + Tokens(q')
    case Or(a, b) => [Key(OrWord), Space] + Tokens(a) + [Space] + Tokens(b)
    case Group(qs) => [Open] + TokensAll(qs) + [Close]
  }

  function TokensAll(qs: seq<Query>): seq<Item>
    decreases qs, 1
  {
    if qs == [] then []
    else Tokens(qs[0]) + (if |qs| == 1 then [] else [Space] + TokensAll(qs[1..]))
  }

  /** The order of the arguments, and where the spaces and brackets are. */
  lemma TokensAre(name: string, text: string, k: DateKey, start: int, end: int, a: Query, b: Query)
    ensures Tokens(Header(name, text)) == [Key(HeaderWord), Space, Arg(name), Space, Arg(text)]
    ensures Tokens(Dated(k, start, end)) == [Key(DateWord(k)), Space, DateArg(start, end)]
    ensures Tokens(Not(a)) == [Key(NotWord), Space] + Tokens(a)
    ensures Tokens(Or(a, b)) == [Key(OrWord), Space] + Tokens(a) + [Space] + Tokens(b)
    ensures Tokens(Group([a, b])) == [Open] + (Tokens(a) + ([Space] + Tokens(b))) + [Close]
  {
    assert [a, b][1..] == [b] && [b][1..] == [];
    assert TokensAll([b]) == Tokens(b) + [];
    assert TokensAll([a, b]) == Tokens(a) + ([Space] + TokensAll([b]));
  }

  /**
   The grammar's side conditions: numbers are digits, groups are not empty, Message-Id is no key of its own,
   and MODSEQ is one only where the mailbox keeps modification sequences.
   */
  predicate Grammatical(q: Query, condstore: bool)
    decreases q, 0
  {
    match q
    case Larger(n) => AllDigits(n)
    case Smaller(n) => AllDigits(n)
    case Modseq(n) => condstore && AllDigits(n)
    case Contains(f, _) => f != MessageId
    case Not(q') => Grammatical(q', condstore)
    case Or(a, b) => Grammatical(a, condstore) && Grammatical(b, condstore)
    case Group(qs) => qs != [] && GrammaticalAll(qs, condstore)
    case _ => true
  }

  predicate GrammaticalAll(qs: seq<Query>, condstore: bool)
    decreases qs, 1
  {
    qs == [] || (Grammatical(qs[0], condstore) && GrammaticalAll(qs[1..], condstore))
  }

  /** Which texts are not keys: numbers that are none, empty groups, MESSAGE-ID, and MODSEQ without modification sequences. */
  lemma NotGrammatical(n: string, f: Field, text: string, condstore: bool)
    ensures Grammatical(Larger(n), condstore) <==> forall i :: 0 <= i < |n| ==> '0' <= n[i] <= '9'
    ensures Grammatical(Smaller(n), condstore) <==> forall i :: 0 <= i < |n| ==> '0' <= n[i] <= '9'
    ensures Grammatical(Modseq(n), condstore) <==> condstore && forall i :: 0 <= i < |n| ==> '0' <= n[i] <= '9'
    ensures Grammatical(Contains(f, text), condstore) <==> f != MessageId
    ensures !Grammatical(Group([]), condstore)
  {
  }

  /** How many MODSEQ keys end up in the record the key is compiled into. */
  function ModseqKeys(q: Query): nat
    decreases q, 0
  {
    match q
    case Modseq(_) => 1
    case Group(qs) => ModseqKeysAll(qs)
    case _ => 0
  }

  function ModseqKeysAll(qs: seq<Query>): nat
    decreases qs, 1
  {
    if qs == [] then 0 else ModseqKeys(qs[0]) + ModseqKeysAll(qs[1..])
  }

  /**
   The record can say what the key asks of `m`: dates are not the unset value and `m` is not dated at the very
   start of a BEFORE day, numbers do not wrap, `m` is not empty, and no record has two MODSEQ keys.
   */
  predicate Expressible(q: Query, m: Message)
    decreases q, 0
  {
    match q
    case Dated(k, start, end) =>
      && start != 0 && end != 0
      && (k == Before ==> m.internaldate != start) && (k == SentBefore ==> m.sentdate != start)
    case Larger(n) => NumberOf(n) < UINT32 && m.size > 0
    case Smaller(n) => NumberOf(n) < UINT32 && m.size > 0
    case Modseq(n) => NumberOf(n) < UINT64
    case Not(q') => Expressible(q', m) && ModseqKeys(q') <= 1
    case Or(a, b) => Expressible(a, m) && Expressible(b, m) && ModseqKeys(a) <= 1 && ModseqKeys(b) <= 1
    case Group(qs) => ExpressibleAll(qs, m)
    case _ => true
  }

  /** What a record can always say, and when it can say the rest. */
  lemma ExpressibleWhen(q: Query, m: Message)
    ensures q.Flag? || q.Contains? || q.Header? || q.Keyword? || q.Sequence? || q.Uid? ==> Expressible(q, m)
    ensures q.Dated? && q.start != 0 && q.end != 0 && m.internaldate != q.start && m.sentdate != q.start ==> Expressible(q, m)
    ensures q.Dated? && q.start != 0 && q.end != 0 && q.dateKey != Before && q.dateKey != SentBefore ==> Expressible(q, m)
    ensures (q.Larger? || q.Smaller?) && NumberOf(q.size) < 0x1_0000_0000 && m.size > 0 ==> Expressible(q, m)
    ensures q.Modseq? && NumberOf(q.number) < 0x1_0000_0000_0000_0000 ==> Expressible(q, m)
    ensures q.Not? && Expressible(q.q, m) && ModseqKeys(q.q) <= 1 ==> Expressible(q, m)
    ensures q.Or? && Expressible(q.q1, m) && Expressible(q.q2, m) && ModseqKeys(q.q1) <= 1 && ModseqKeys(q.q2) <= 1 ==>
              Expressible(q, m)
    ensures q.Group? && q.qs != [] ==> (Expressible(q, m) <==> Expressible(q.qs[0], m) && Expressible(Group(q.qs[1..]), m))
    ensures Expressible(Group([]), m)
  {
  }

  predicate ExpressibleAll(qs: seq<Query>, m: Message)
    decreases qs, 1
  {
    qs == [] || (Expressible(qs[0], m) && ExpressibleAll(qs[1..], m))
  }

  /** The record `a'` is `a` with the condition `asked` added, as far as `m` can tell. */
  predicate Narrowed(a: Args, a': Args, asked: bool, m: Message) {
    Matches(a', m) <==> Matches(a, m) && asked
  }

  function AddFlag(a: Args, k: FlagKey): Args {
    match k
    case All => a
    case New => a.(seenUnset := true, recentSet := true)
    case Old => a.(recentUnset := true)
    case Recent => a.(recentSet := true)
    case Seen => a.(seenSet := true)
    case Unseen => a.(seenUnset := true)
    case System(flag, wanted) =>
      if wanted then a.(systemSet := a.systemSet + {flag}) else a.(systemUnset := a.systemUnset + {flag})
  }

  lemma AddFlagMeans(a: Args, k: FlagKey, m: Message)
    ensures Narrowed(a, AddFlag(a, k), FlagMatches(k, m), m)
    ensures AddFlag(a, k).modseq == a.modseq && (HeadersPaired(a) ==> HeadersPaired(AddFlag(a, k)))
  {
    if k.System? {
      AddSystemFlagMeans(a, k.flag, m);
    }
  }

  lemma AddSystemFlagMeans(a: Args, flag: SystemFlag, m: Message)
    ensures Narrowed(a, a.(systemSet := a.systemSet + {flag}), flag in m.system, m)
    ensures Narrowed(a, a.(systemUnset := a.systemUnset + {flag}), flag !in m.system, m)
  {
  }

  /** The smaller of two upper bounds, zero being none; and the larger of two lower bounds. */
  function Earliest(bound: int, x: int): int {
    if bound == 0 || bound > x then x else bound
  }

  function Latest(bound: int, x: int): int {
    if bound == 0 || bound < x then x else bound
  }

  function AddDate(a: Args, k: DateKey, start: int, end: int): Args {
    match k
    case Before => a.(before := Earliest(a.before, start))
    case On => a.(before := Earliest(a.before, end), after := Latest(a.after, start))
    case Since => a.(after := Latest(a.after, start))
    case SentBefore => a.(sentbefore := Earliest(a.sentbefore, start))
    case SentOn => a.(sentbefore := Earliest(a.sentbefore, end), sentafter := Latest(a.sentafter, start))
    case SentSince => a.(sentafter := Latest(a.sentafter, start))
  }

  lemma AddDateMeans(a: Args, k: DateKey, start: int, end: int, m: Message)
    requires Expressible(Dated(k, start, end), m)
    ensures Narrowed(a, AddDate(a, k, start, end), DateMatches(k, start, end, m), m)
    ensures AddDate(a, k, start, end).modseq == a.modseq
  {
  }

  /** When a date key is exact for a message: a zero date is no bound, and BEFORE includes the start of its day. */
  predicate DateIsExact(k: DateKey, start: int, end: int, m: Message) {
    match k
    case Before => BeforeIsExact(start, m.internaldate)
    case SentBefore => BeforeIsExact(start, m.sentdate)
    case On => OnIsExact(start, end, m.internaldate)
    case SentOn => OnIsExact(start, end, m.sentdate)
    case Since => start != 0 || m.internaldate >= 0
    case SentSince => start != 0 || m.sentdate >= 0
  }

  predicate BeforeIsExact(start: int, date: int) {
    if start == 0 then date < 0 else date != start
  }

  predicate OnIsExact(start: int, end: int, date: int) {
    && (end == 0 && date > 0 ==> start != 0 && date < start)
    && (start == 0 && date < 0 ==> end != 0 && date > end)
  }

  lemma DateIsExactIff(k: DateKey, start: int, end: int, m: Message)
    ensures Narrowed(EMPTY, AddDate(EMPTY, k, start, end), DateMatches(k, start, end, m), m) <==> DateIsExact(k, start, end, m)
  {
    EmptyMatches(m);
  }

  /** When a size key is exact for a message: the number wraps, LARGER 0 is no bound, and SMALLER 0 is SMALLER 1. */
  predicate SizeIsExact(larger: bool, n: nat, size: nat) {
    var w := n % UINT32;
    if larger then (if n < UINT32 then n > 0 || size > 0 else size > n || (w != 0 && size <= w))
    else if n < UINT32 then n > 0 || size > 0
    else size >= n || size == 0 || size < w
  }

  lemma SizeIsExactIff(larger: bool, n: nat, m: Message)
    ensures Narrowed(EMPTY, AddSize(EMPTY, larger, n % UINT32), if larger then m.size > n else m.size < n, m) <==>
            SizeIsExact(larger, n, m.size)
  {
    EmptyMatches(m);
  }

  /** And when a MODSEQ key is. */
  lemma ModseqIsExactIff(n: string, m: Message)
    requires AllDigits(n)
    ensures var v, w := Value(n), Value(n) % UINT64;
            Narrowed(EMPTY, EMPTY.(modseq := AddModseq(0, n)), m.modseq >= v, m) <==>
            v < UINT64 || m.modseq >= v || (w != 0 && m.modseq < w)
  {
    EmptyMatches(m);
    assert 0 * Pow10(|n|) + Value(n) == Value(n);
  }

  function AddSize(a: Args, larger: bool, size: nat): Args {
    if larger then (if size > a.larger then a.(larger := size) else a)
    else
      var size' := if size == 0 then 1 else size;
      if a.smaller == 0 || size' < a.smaller then a.(smaller := size') else a
  }

  lemma AddSizeMeans(a: Args, larger: bool, size: nat, m: Message)
    requires m.size > 0
    ensures Narrowed(a, AddSize(a, larger, size), if larger then m.size > size else m.size < size, m)
    ensures AddSize(a, larger, size).modseq == a.modseq
  {
  }

  /** "Force failure": no message is both recent and not. */
  function Fail(a: Args): Args {
    a.(recentSet := true, recentUnset := true, seenSet := false, seenUnset := false)
  }

  function AddPattern(a: Args, f: Field, pattern: Option<string>): Args {
    if pattern.None? then Fail(a) else a.(patterns := a.patterns + [(f, pattern.value)])
  }

  function AddHeader(a: Args, name: string, pattern: Option<string>): Args {
    if HeaderField(name).Some? then AddPattern(a, HeaderField(name).value, pattern)
    else
      var named := a.(headerNames := a.headerNames + [name]);
      if pattern.None? then Fail(named) else named.(headers := named.headers + [pattern.value])
  }

  function AddKeyword(a: Args, e: Env, keyword: string, wanted: bool): Args {
    if keyword !in e.slots then (if wanted then Fail(a) else a)
    else if wanted then a.(userSet := a.userSet + {e.slots[keyword]})
    else a.(userUnset := a.userUnset + {e.slots[keyword]})
  }

  /** The two header lists are walked in step, so they must be equally long while the record can match at all. */
  predicate HeadersPaired(a: Args) {
    |a.headerNames| == |a.headers| || (a.recentSet && a.recentUnset)
  }

  lemma AddPatternMeans(a: Args, f: Field, pattern: Option<string>, m: Message)
    ensures Narrowed(a, AddPattern(a, f, pattern), pattern.Some? && (f, pattern.value) in m.contains, m)
    ensures AddPattern(a, f, pattern).modseq == a.modseq
    ensures HeadersPaired(a) ==> HeadersPaired(AddPattern(a, f, pattern))
  {
    if pattern.Some? {
      var a' := AddPattern(a, f, pattern);
      assert a'.patterns[|a.patterns|] == (f, pattern.value);
      assert forall p :: p in a'.patterns <==> p in a.patterns || p == (f, pattern.value);
    }
  }

  lemma AddHeaderMeans(a: Args, name: string, pattern: Option<string>, m: Message)
    requires HeadersPaired(a)
    ensures Narrowed(a, AddHeader(a, name, pattern),
                     pattern.Some? && (if HeaderField(name).Some? then (HeaderField(name).value, pattern.value) in m.contains
                                       else (name, pattern.value) in m.headers), m)
    ensures AddHeader(a, name, pattern).modseq == a.modseq && HeadersPaired(AddHeader(a, name, pattern))
  {
    if HeaderField(name).Some? {
      AddPatternMeans(a, HeaderField(name).value, pattern, m);
    } else if pattern.Some? && !(a.recentSet && a.recentUnset) {
      var a', n := AddHeader(a, name, pattern), |a.headers|;
      assert (a'.headerNames[n], a'.headers[n]) == (name, pattern.value);
      assert forall i :: 0 <= i < n ==> a'.headerNames[i] == a.headerNames[i] && a'.headers[i] == a.headers[i];
    }
  }

  lemma AddKeywordMeans(a: Args, e: Env, keyword: string, wanted: bool, m: Message)
    ensures Narrowed(a, AddKeyword(a, e, keyword, wanted), wanted <==> HasKeyword(e, keyword, m), m)
    ensures AddKeyword(a, e, keyword, wanted).modseq == a.modseq
    ensures HeadersPaired(a) ==> HeadersPaired(AddKeyword(a, e, keyword, wanted))
  {
  }

  lemma AddNumbersMeans(a: Args, s: string, m: Message)
    ensures Narrowed(a, a.(sequence := a.sequence + [s]), s in m.inSequence, m)
    ensures Narrowed(a, a.(uidsequence := a.uidsequence + [s]), s in m.inUids, m)
  {
    assert forall t :: t in a.sequence + [s] <==> t in a.sequence || t == s;
    assert forall t :: t in a.uidsequence + [s] <==> t in a.uidsequence || t == s;
  }

  lemma AddSubMeans(a: Args, s: Sub, m: Message)
    ensures Narrowed(a, a.(sublist := a.sublist + [s]), SubMatches(s, m), m)
  {
    var subs := a.sublist + [s];
    assert subs[..|subs| - 1] == a.sublist && subs[|subs| - 1] == s;
  }

  /** The modseq field after reading the digits of one more MODSEQ key into it. */
  function AddModseq(modseq: uint64, n: string): uint64
    requires AllDigits(n)
  {
    (modseq * Pow10(|n|) + Value(n)) % UINT64
  }

  lemma AddModseqMeans(a: Args, n: string, m: Message)
    requires AllDigits(n) && a.modseq == 0 && Value(n) < UINT64
    ensures Narrowed(a, a.(modseq := AddModseq(a.modseq, n)), m.modseq >= Value(n), m)
  {
  }

  predicate Reaches(modseq: nat, bound: nat) {
    modseq >= bound
  }

  /** A bound that lets through exactly the modification sequences two other bounds let through. */
  ghost predicate AsksForBoth(bound: nat, x: nat, y: nat) {
    forall v: nat :: Reaches(v, bound) <==> Reaches(v, x) && Reaches(v, y)
  }

  /** Whether adding `u` to `y` leaves the larger of `x` and `y`, modulo 2^64. */
  predicate LeavesTheLarger(u: nat, x: nat, y: nat) {
    if y >= x then u % UINT64 == 0 else (u + y - x) % UINT64 == 0
  }

  /** Two MODSEQ keys in one record run their digits together, and the record still asks for both exactly if what the
      digits of the first one add vanishes modulo 2^64. */
  lemma TwoModseqKeysIff(a: string, b: string)
    requires AllDigits(a) && AllDigits(b) && Value(a) < UINT64 && Value(b) < UINT64
    ensures AsksForBoth(AddModseq(AddModseq(0, a), b), Value(a), Value(b)) <==>
            LeavesTheLarger(Value(a) * Pow10(|b|), Value(a), Value(b))
  {
    PowPositive(|b|);
    MulGrows(Value(a), Pow10(|b|), 1);
    FirstModseq(a);
    SumAsksForBothIff(Value(a) * Pow10(|b|), Value(a), Value(b));
  }

  lemma FirstModseq(n: string)
    requires AllDigits(n) && Value(n) < UINT64
    ensures AddModseq(0, n) == Value(n)
  {
    assert 0 * Pow10(|n|) == 0;
  }

  lemma SumAsksForBothIff(u: nat, x: nat, y: nat)
    requires x < UINT64 && y < UINT64 && u >= x
    ensures AsksForBoth((u + y) % UINT64, x, y) <==> LeavesTheLarger(u, x, y)
  {
    AsksForTheLarger((u + y) % UINT64, x, y);
    if y >= x {
      Vanishes(u, y);
    } else {
      Vanishes(u + y - x, x);
    }
  }

  lemma AsksForTheLarger(bound: nat, x: nat, y: nat)
    ensures AsksForBoth(bound, x, y) <==> bound == if y >= x then y else x
  {
    var top := if y >= x then y else x;
    assert Reaches(top, x) && Reaches(top, y);
    assert Reaches(bound, bound);
  }

  lemma Vanishes(u: nat, y: nat)
    requires y < UINT64
    ensures (u + y) % UINT64 == y <==> u % UINT64 == 0
  {
  }

  /** As long as nothing overflows, that is only so if the first one is zero. */
  lemma TwoModseqKeysThatFitIff(a: string, b: string)
    requires AllDigits(a) && AllDigits(b) && b != "" && Value(a) * Pow10(|b|) + Value(b) < UINT64
    ensures AsksForBoth(AddModseq(AddModseq(0, a), b), Value(a), Value(b)) <==> Value(a) == 0
  {
    assert Pow10(|b|) == 10 * Pow10(|b| - 1);
    PowPositive(|b| - 1);
    MulGrows(Value(a), Pow10(|b|), 1);
    AddModseqFits(0, a);
    AddModseqFits(Value(a), b);
    RunTogether(Value(a), Value(b), Pow10(|b|));
  }

  lemma AddModseqFits(start: uint64, n: string)
    requires AllDigits(n) && start * Pow10(|n|) + Value(n) < UINT64
    ensures AddModseq(start, n) == start * Pow10(|n|) + Value(n)
  {
  }

  lemma RunTogether(x: nat, y: nat, p: nat)
    requires p >= 10
    ensures AsksForBoth(x * p + y, x, y) <==> x == 0
  {
    if x > 0 {
      MulGrows(x, p, 10);
      var v := if x > y then x else y;
      assert Reaches(v, x) && Reaches(v, y) && !Reaches(v, x * p + y);
    }
  }

  lemma MulGrows(x: nat, p: nat, q: nat)
    requires p >= q
    ensures x * p >= x * q
  {
    assert x * p == x * q + x * (p - q);
  }

  /** Compiled from scratch, a whole program selects exactly the messages it asks for. */
  lemma ProgramMeaning(qs: seq<Query>, e: Env, a: Args, m: Message)
    requires Compiled(Group(qs), e, EMPTY, a, m)
    requires ExpressibleAll(qs, m) && ModseqKeysAll(qs) <= 1
    ensures Matches(a, m) <==> AsksAll(qs, e, m)
  {
    EmptyMatches(m);
  }

  lemma ModseqDigits(start: uint64, n: string)
    requires AllDigits(n) && n != ""
    ensures AddModseq(start, n) == (AddModseq(start, n[..|n| - 1]) * 10 + DigitValue(n[|n| - 1])) % UINT64
  {
    var p, v, d := Pow10(|n| - 1), Value(n[..|n| - 1]), DigitValue(n[|n| - 1]);
    assert Pow10(|n|) == 10 * p;
    assert start * (10 * p) == 10 * (start * p);
    WrapStep(start * p + v, d, UINT64);
  }

  class SearchArgs {
    var a: Args

    constructor ()
      ensures a == EMPTY
    {
      a := EMPTY;
    }
  }

  /** The input from `pos` on is `ts` and something after it. */
  predicate Ahead(input: seq<Item>, pos: nat, ts: seq<Item>) {
    pos + |ts| < |input| && input[pos..pos + |ts|] == ts
  }

  /** Two runs of tokens with one item between them. */
  lemma AheadParts(input: seq<Item>, pos: nat, t: seq<Item>, x: Item, u: seq<Item>)
    requires Ahead(input, pos, t + [x] + u)
    ensures Ahead(input, pos, t) && input[pos + |t|] == x && Ahead(input, pos + |t| + 1, u)
  {
    var ts := t + [x] + u;
    assert input[pos..pos + |t|] == ts[..|t|] == t;
    assert input[pos + |t|] == ts[|t|];
    assert input[pos + |t| + 1..pos + |ts|] == ts[|t| + 1..] == u;
  }

  /** What compiling `q` into a record that was `a` promises about the record `a'`. */
  predicate Compiled(q: Query, e: Env, a: Args, a': Args, m: Message) {
    CompiledAs(Asks(q, e, m), Expressible(q, m), ModseqKeys(q), a, a', m)
  }

  predicate CompiledAs(asked: bool, expressible: bool, keys: nat, a: Args, a': Args, m: Message) {
    && (a'.modseq == a.modseq || keys > 0)
    && (HeadersPaired(a) && expressible && keys <= 1 && (a.modseq == 0 || keys == 0) ==>
          Narrowed(a, a', asked, m) && HeadersPaired(a'))
  }

  lemma CompiledBoth(asked: bool, expressible: bool, keys: nat, asked': bool, expressible': bool, keys': nat,
                     a: Args, mid: Args, a': Args, m: Message)
    requires CompiledAs(asked, expressible, keys, a, mid, m) && CompiledAs(asked', expressible', keys', mid, a', m)
    ensures CompiledAs(asked && asked', expressible && expressible', keys + keys', a, a', m)
  {
  }

  /** What a program of one key, or of a key and more keys, is. */
  lemma OneMeans(q: Query, e: Env, m: Message)
    ensures Asks(Group([q]), e, m) == Asks(q, e, m)
  {
    assert [q][1..] == [];
    assert AsksAll([q], e, m) == Asks(q, e, m);
  }

  lemma OneIs(q: Query, m: Message, condstore: bool)
    ensures TokensAll([q]) == Tokens(q) && GrammaticalAll([q], condstore) == Grammatical(q, condstore)
    ensures Expressible(Group([q]), m) == Expressible(q, m) && ModseqKeys(Group([q])) == ModseqKeys(q)
  {
    assert [q][1..] == [];
    assert ModseqKeysAll([q]) == ModseqKeys(q);
    assert ExpressibleAll([q], m) == Expressible(q, m);
  }

  lemma MoreMeans(q: Query, qs: seq<Query>, e: Env, m: Message)
    ensures Asks(Group([q] + qs), e, m) == (Asks(q, e, m) && Asks(Group(qs), e, m))
  {
    assert ([q] + qs)[1..] == qs;
    assert AsksAll([q] + qs, e, m) == (Asks(q, e, m) && AsksAll(qs, e, m));
  }

  lemma MoreIs(q: Query, qs: seq<Query>, m: Message)
    ensures Expressible(Group([q] + qs), m) == (Expressible(q, m) && Expressible(Group(qs), m))
    ensures ModseqKeys(Group([q] + qs)) == ModseqKeys(q) + ModseqKeys(Group(qs))
  {
    assert ([q] + qs)[1..] == qs;
    assert ModseqKeysAll([q] + qs) == ModseqKeys(q) + ModseqKeysAll(qs);
    assert ExpressibleAll([q] + qs, m) == (Expressible(q, m) && ExpressibleAll(qs, m));
  }

  lemma MoreText(q: Query, qs: seq<Query>, condstore: bool)
    requires qs != []
    ensures TokensAll([q] + qs) == Tokens(q) + [Space] + TokensAll(qs)
    ensures GrammaticalAll([q] + qs, condstore) == (Grammatical(q, condstore) && GrammaticalAll(qs, condstore))
  {
    assert ([q] + qs)[1..] == qs;
  }

  lemma TokensOfMore(qs: seq<Query>)
    requires |qs| > 1
    ensures TokensAll(qs) == Tokens(qs[0]) + [Space] + TokensAll(qs[1..])
  {
  }

  /** The hints for the parts of a program. */
  lemma HintOnly(input: seq<Item>, pos: nat, qs: seq<Query>)
    requires |qs| == 1 && Ahead(input, pos, TokensAll(qs))
    ensures Tokens(qs[0]) == TokensAll(qs)
  {
  }

  lemma AheadWhole(input: seq<Item>, pos: nat, all: seq<Item>, t: seq<Item>, u: seq<Item>)
    requires Ahead(input, pos, all) && all == t + [Space] + u
    ensures Ahead(input, pos, t) && input[pos + |t|] == Space && Ahead(input, pos + |t| + 1, u)
    ensures |t| + 1 + |u| == |all|
  {
    AheadParts(input, pos, t, Space, u);
  }

  /** Which key it is shows in its first token. */
  lemma FirstToken(q: Query)
    ensures Tokens(q)[0] == Open ==> q.Group?
    ensures Tokens(q)[0] == Key(NotWord) ==> q.Not?
    ensures Tokens(q)[0] == Key(OrWord) ==> q.Or?
    ensures Tokens(q)[0].Numbers? ==> q == Sequence(Tokens(q)[0].numbers)
    ensures Tokens(q)[0].Open? || Tokens(q)[0].Numbers? || Tokens(q)[0].Key?
  {
  }

  lemma HintFirst(input: seq<Item>, pos: nat, q: Query)
    requires Ahead(input, pos, Tokens(q))
    ensures input[pos] == Tokens(q)[0]
  {
    assert input[pos..pos + |Tokens(q)|][0] == input[pos];
  }

  lemma HintGroup(input: seq<Item>, pos: nat, qs: seq<Query>)
    requires Ahead(input, pos, Tokens(Group(qs)))
    ensures Ahead(input, pos + 1, TokensAll(qs)) && input[pos + 1 + |TokensAll(qs)|] == Close
    ensures pos + 2 + |TokensAll(qs)| < |input|
  {
    AheadGroup(input, pos, TokensAll(qs));
  }

  lemma AheadGroup(input: seq<Item>, pos: nat, ts: seq<Item>)
    requires Ahead(input, pos, [Open] + ts + [Close])
    ensures Ahead(input, pos + 1, ts) && input[pos + 1 + |ts|] == Close
  {
    assert [Open] + ts + [Close] == ([] + [Open] + (ts + [Close]));
    AheadParts(input, pos, [], Open, ts + [Close]);
    assert ts + [Close] == ts + [Close] + [];
    AheadParts(input, pos + 1, ts, Close, []);
  }

  lemma HintNot(input: seq<Item>, pos: nat, q: Query)
    requires Ahead(input, pos, Tokens(Not(q)))
    ensures input[pos + 1] == Space && Ahead(input, pos + 2, Tokens(q))
  {
    AheadParts(input, pos, [Key(NotWord)], Space, Tokens(q));
  }

  lemma HintOr(input: seq<Item>, pos: nat, q1: Query, q2: Query)
    requires Ahead(input, pos, Tokens(Or(q1, q2)))
    ensures input[pos + 1] == Space && Ahead(input, pos + 2, Tokens(q1)) && input[pos + 2 + |Tokens(q1)|] == Space
    ensures Ahead(input, pos + 3 + |Tokens(q1)|, Tokens(q2))
  {
    AheadOr(input, pos, Tokens(q1), Tokens(q2));
  }

  lemma AheadOr(input: seq<Item>, pos: nat, t: seq<Item>, u: seq<Item>)
    requires Ahead(input, pos, [Key(OrWord), Space] + t + [Space] + u)
    ensures input[pos + 1] == Space && Ahead(input, pos + 2, t) && input[pos + 2 + |t|] == Space
    ensures Ahead(input, pos + 3 + |t|, u)
  {
    assert [Key(OrWord), Space] + t + [Space] + u == [Key(OrWord)] + [Space] + (t + [Space] + u);
    AheadParts(input, pos, [Key(OrWord)], Space, t + [Space] + u);
    AheadParts(input, pos + 2, t, Space, u);
  }

  /** The key with one argument that a word and an argument make, if any. */
  function LeafQuery(word: Word, arg: Item, condstore: bool): Option<Query> {
    match (word, arg)
    case (DateWord(k), DateArg(start, end)) => Some(Dated(k, start, end))
    case (LargerWord, Arg(n)) => if AllDigits(n) then Some(Larger(n)) else None
    case (SmallerWord, Arg(n)) => if AllDigits(n) then Some(Smaller(n)) else None
    case (TextWord(f), Arg(text)) => if f != MessageId then Some(Contains(f, text)) else None
    case (KeywordWord(wanted), Arg(k)) => Some(Keyword(k, wanted))
    case (ModseqWord, Arg(n)) => if condstore && AllDigits(n) then Some(Modseq(n)) else None
    case (UidWord, Numbers(s)) => Some(Uid(s))
    case _ => None
  }

  lemma LeafTokens(word: Word, arg: Item, condstore: bool)
    requires LeafQuery(word, arg, condstore).Some?
    ensures var q := LeafQuery(word, arg, condstore).value;
            Tokens(q) == [Key(word), Space, arg] && Grammatical(q, condstore)
  {
  }

  lemma HintLeaf(input: seq<Item>, pos: nat, q: Query, word: Word, condstore: bool)
    requires Ahead(input, pos, Tokens(q)) && Grammatical(q, condstore) && input[pos] == Key(word)
    requires word !in {NotWord, OrWord, HeaderWord} && !word.FlagWord?
    ensures pos + 3 < |input| && input[pos + 1] == Space && LeafQuery(word, input[pos + 2], condstore) == Some(q)
  {
    HintFirst(input, pos, q);
    var ts := Tokens(q);
    assert forall i :: 0 <= i < |ts| ==> input[pos..pos + |ts|][i] == ts[i];
    assert |ts| == 3 && input[pos + 1] == ts[1] && input[pos + 2] == ts[2];
  }

  lemma HintHeader(input: seq<Item>, pos: nat, q: Query)
    requires Ahead(input, pos, Tokens(q)) && input[pos] == Key(HeaderWord)
    ensures q.Header? && pos + 5 < |input|
    ensures input[pos + 1] == input[pos + 3] == Space && input[pos + 2] == Arg(q.name) && input[pos + 4] == Arg(q.text)
  {
    HintFirst(input, pos, q);
    var ts := Tokens(q);
    assert forall i :: 0 <= i < |ts| ==> input[pos..pos + |ts|][i] == ts[i];
    assert q.Header?;
    assert |ts| == 5 && input[pos + 1] == ts[1] && input[pos + 2] == ts[2] && input[pos + 3] == ts[3] && input[pos + 4] == ts[4];
  }

  lemma HintFlag(input: seq<Item>, pos: nat, q: Query, k: FlagKey)
    requires Ahead(input, pos, Tokens(q)) && input[pos] == Key(FlagWord(k))
    ensures q == Flag(k) && pos + 1 < |input|
  {
    HintFirst(input, pos, q);
  }

  /** The record after a key with one argument. */
  function AddLeaf(a: Args, q: Query, e: Env): Args {
    match q
    case Dated(k, start, end) => AddDate(a, k, start, end)
    case Larger(n) => AddSize(a, true, NumberOf(n) % UINT32)
    case Smaller(n) => AddSize(a, false, NumberOf(n) % UINT32)
    case Contains(f, text) => AddPattern(a, f, Converted(e, text))
    case Keyword(k, wanted) => AddKeyword(a, e, k, wanted)
    case Modseq(n) => if AllDigits(n) then a.(modseq := AddModseq(a.modseq, n)) else a
    case Uid(s) => a.(uidsequence := a.uidsequence + [s])
    case _ => a
  }

  lemma LeafMeans(word: Word, arg: Item, condstore: bool, a: Args, e: Env, m: Message)
    requires LeafQuery(word, arg, condstore).Some?
    ensures var q := LeafQuery(word, arg, condstore).value; Compiled(q, e, a, AddLeaf(a, q, e), m)
  {
    var q := LeafQuery(word, arg, condstore).value;
    if q.Dated? {
      DatedMeans(q, a, e, m);
    } else if q.Larger? || q.Smaller? {
      SizedMeans(q, a, e, m);
    } else if q.Modseq? {
      ModseqMeans(q, a, e, m);
    } else {
      ListedMeans(q, a, e, m);
    }
  }

  lemma DatedMeans(q: Query, a: Args, e: Env, m: Message)
    requires q.Dated?
    ensures Compiled(q, e, a, AddLeaf(a, q, e), m)
  {
    if Expressible(q, m) {
      AddDateMeans(a, q.dateKey, q.start, q.end, m);
    }
  }

  lemma SizedMeans(q: Query, a: Args, e: Env, m: Message)
    requires q.Larger? || q.Smaller?
    ensures Compiled(q, e, a, AddLeaf(a, q, e), m)
  {
    var n := NumberOf(q.size) % UINT32;
    if Expressible(q, m) {
      assert n == NumberOf(q.size);
      AddSizeMeans(a, q.Larger?, n, m);
    }
  }

  lemma ModseqMeans(q: Query, a: Args, e: Env, m: Message)
    requires q.Modseq? && AllDigits(q.number)
    ensures Compiled(q, e, a, AddLeaf(a, q, e), m)
  {
    if a.modseq == 0 && Value(q.number) < UINT64 {
      AddModseqMeans(a, q.number, m);
    }
  }

  lemma ListedMeans(q: Query, a: Args, e: Env, m: Message)
    requires q.Contains? || q.Keyword? || q.Uid?
    ensures Compiled(q, e, a, AddLeaf(a, q, e), m)
  {
    match q {
      case Contains(f, text) => AddPatternMeans(a, f, Converted(e, text), m);
      case Keyword(k, wanted) => AddKeywordMeans(a, e, k, wanted, m);
      case Uid(s) => AddNumbersMeans(a, s, m);
    }
  }

  /** The text of a composite key, put together from the texts of its parts. */
  lemma GroupTokens(input: seq<Item>, from: nat, mid: nat, qs: seq<Query>)
    requires from < mid < |input| && input[from] == Open && input[from + 1..mid] == TokensAll(qs) + [Close]
    ensures input[from..mid + 1] == Tokens(Group(qs)) + [input[mid]]
  {
    GroupText(input, from, mid, TokensAll(qs));
  }

  lemma GroupText(input: seq<Item>, from: nat, mid: nat, ts: seq<Item>)
    requires from < mid < |input| && input[from] == Open && input[from + 1..mid] == ts + [Close]
    ensures input[from..mid + 1] == [Open] + ts + [Close] + [input[mid]]
  {
    assert input[from..mid + 1] == [input[from]] + input[from + 1..mid] + [input[mid]];
  }

  lemma HeaderMeans(name: string, text: string, a: Args, e: Env, m: Message)
    ensures Compiled(Header(name, text), e, a, AddHeader(a, Lowered(name), Converted(e, text)), m)
  {
    if HeadersPaired(a) {
      AddHeaderMeans(a, Lowered(name), Converted(e, text), m);
    }
  }

  lemma HeaderText(input: seq<Item>, from: nat, name: string, text: string, c: Item)
    requires from + 6 <= |input| && input[from] == Key(HeaderWord)
    requires input[from + 1] == input[from + 3] == Space
    requires input[from + 2] == Arg(name) && input[from + 4] == Arg(text) && input[from + 5] == c
    ensures input[from..from + 6] == Tokens(Header(name, text)) + [c]
  {
    assert input[from..from + 6] == [input[from], input[from + 1], input[from + 2], input[from + 3], input[from + 4], c];
  }

  lemma LeafText(input: seq<Item>, from: nat, key: Item, arg: Item, c: Item)
    requires from + 4 <= |input| && input[from] == key && input[from + 1..from + 4] == [Space, arg, c]
    ensures input[from..from + 4] == [key, Space, arg] + [c]
  {
    assert input[from..from + 4] == [input[from]] + input[from + 1..from + 4];
  }

  lemma ProgramText(input: seq<Item>, from: nat, mid: nat, end: nat, t: seq<Item>, u: seq<Item>, c: Item)
    requires from <= mid <= end <= |input|
    requires input[from..mid] == t + [Space] && input[mid..end] == u + [c]
    ensures input[from..end] == t + [Space] + u + [c]
  {
    assert input[from..end] == input[from..mid] + input[mid..end];
  }

  /** A record of its own for the operand of NOT. */
  lemma NotTokens(input: seq<Item>, from: nat, end: nat, q: Query, c: Item)
    requires from + 2 <= end <= |input| && input[from] == Key(NotWord) && input[from + 1] == Space
    requires input[from + 2..end] == Tokens(q) + [c]
    ensures input[from..end] == Tokens(Not(q)) + [c]
  {
    NotText(input, from, end, Tokens(q), c);
  }

  lemma NotText(input: seq<Item>, from: nat, end: nat, t: seq<Item>, c: Item)
    requires from + 2 <= end <= |input| && input[from] == Key(NotWord) && input[from + 1] == Space
    requires input[from + 2..end] == t + [c]
    ensures input[from..end] == [Key(NotWord), Space] + t + [c]
  {
    assert input[from..end] == [input[from], input[from + 1]] + input[from + 2..end];
  }

  lemma NotMeans(q: Query, sub: Args, e: Env, a: Args, m: Message)
    requires Compiled(q, e, EMPTY, sub, m)
    ensures Compiled(Not(q), e, a, a.(sublist := a.sublist + [Sub(sub, None)]), m)
  {
    AddSubMeans(a, Sub(sub, None), m);
    EmptyMatches(m);
  }

  /** And one for each operand of OR. */
  lemma OrMeans(q1: Query, q2: Query, sub1: Args, sub2: Args, e: Env, a: Args, m: Message)
    requires Compiled(q1, e, EMPTY, sub1, m) && Compiled(q2, e, EMPTY, sub2, m)
    ensures Compiled(Or(q1, q2), e, a, a.(sublist := a.sublist + [Sub(sub1, Some(sub2))]), m)
  {
    AddSubMeans(a, Sub(sub1, Some(sub2)), m);
    EmptyMatches(m);
  }

  lemma EmptyMatches(m: Message)
    ensures Matches(EMPTY, m) && HeadersPaired(EMPTY) && EMPTY.modseq == 0
  {
  }

  lemma OrTokens(input: seq<Item>, from: nat, mid: nat, end: nat, q1: Query, q2: Query, c: Item)
    requires from + 2 <= mid <= end <= |input| && input[from] == Key(OrWord) && input[from + 1] == Space
    requires input[from + 2..mid] == Tokens(q1) + [Space] && input[mid..end] == Tokens(q2) + [c]
    ensures input[from..end] == Tokens(Or(q1, q2)) + [c]
  {
    OrText(input, from, mid, end, Tokens(q1), Tokens(q2), c);
  }

  lemma OrText(input: seq<Item>, from: nat, mid: nat, end: nat, t: seq<Item>, u: seq<Item>, c: Item)
    requires from + 2 <= mid <= end <= |input| && input[from] == Key(OrWord) && input[from + 1] == Space
    requires input[from + 2..mid] == t + [Space] && input[mid..end] == u + [c]
    ensures input[from..end] == [Key(OrWord), Space] + t + [Space] + u + [c]
  {
    assert input[from..end] == [input[from], input[from + 1]] + input[from + 2..mid] + input[mid..end];
  }

  /** The program `qs` is what comes next. */
  predicate Foreseen(input: seq<Item>, condstore: bool, pos: nat, qs: seq<Query>)
    decreases |qs|
  {
    && qs != [] && Grammatical(qs[0], condstore) && Ahead(input, pos, Tokens(qs[0]))
    && (if |qs| == 1 then input[pos + |Tokens(qs[0])|] != Space
        else input[pos + |Tokens(qs[0])|] == Space && Foreseen(input, condstore, pos + |Tokens(qs[0])| + 1, qs[1..]))
  }

  lemma {:induction false} ForeseenWhole(input: seq<Item>, condstore: bool, pos: nat, qs: seq<Query>)
    requires qs != [] && GrammaticalAll(qs, condstore)
    requires Ahead(input, pos, TokensAll(qs)) && input[pos + |TokensAll(qs)|] != Space
    ensures Foreseen(input, condstore, pos, qs)
    decreases |qs|
  {
    if |qs| > 1 {
      TokensOfMore(qs);
      AheadWhole(input, pos, TokensAll(qs), Tokens(qs[0]), TokensAll(qs[1..]));
      ForeseenWhole(input, condstore, pos + |Tokens(qs[0])| + 1, qs[1..]);
    } else {
      HintOnly(input, pos, qs);
    }
  }

  lemma LastItem(input: seq<Item>, from: nat, to: nat, t: seq<Item>, c: Item)
    requires from <= to <= |input| && input[from..to] == t + [c]
    ensures to == from + |t| + 1 && input[from + |t|] == c
  {
    assert input[from..to][|t|] == c;
  }

  /** Between `from` and `to` the key `q` was read with the delimiter `c` behind it, and compiled from `a` to `a'`. */
  ghost predicate KeyRead(input: seq<Item>, condstore: bool, e: Env, from: nat, to: nat, c: Item, q: Query, a: Args, a': Args,
                          m: Message)
  {
    && from < to <= |input| && Grammatical(q, condstore) && input[from..to] == Tokens(q) + [c] && Compiled(q, e, a, a', m)
  }

  ghost predicate ProgramRead(input: seq<Item>, condstore: bool, e: Env, from: nat, to: nat, c: Item, qs: seq<Query>,
                              a: Args, a': Args, m: Message)
  {
    && from < to <= |input| && c != Space && qs != [] && GrammaticalAll(qs, condstore)
    && input[from..to] == TokensAll(qs) + [c] && Compiled(Group(qs), e, a, a', m)
  }

  lemma ReadOne(input: seq<Item>, condstore: bool, e: Env, from: nat, to: nat, c: Item, q: Query, a: Args, a': Args, m: Message)
    requires KeyRead(input, condstore, e, from, to, c, q, a, a', m) && c != Space
    ensures ProgramRead(input, condstore, e, from, to, c, [q], a, a', m)
  {
    OneMeans(q, e, m);
    OneIs(q, m, condstore);
  }

  lemma ReadMore(input: seq<Item>, condstore: bool, e: Env, from: nat, at: nat, to: nat, c: Item, q: Query, rest: seq<Query>,
                 a: Args, mid: Args, a': Args, m: Message)
    requires KeyRead(input, condstore, e, from, at, Space, q, a, mid, m)
    requires ProgramRead(input, condstore, e, at, to, c, rest, mid, a', m)
    ensures ProgramRead(input, condstore, e, from, to, c, [q] + rest, a, a', m)
  {
    CompiledBoth(Asks(q, e, m), Expressible(q, m), ModseqKeys(q),
                 Asks(Group(rest), e, m), Expressible(Group(rest), m), ModseqKeys(Group(rest)), a, mid, a', m);
    MoreMeans(q, rest, e, m);
    MoreIs(q, rest, m);
    MoreText(q, rest, condstore);
    ProgramText(input, from, at, to, Tokens(q), TokensAll(rest), c);
  }

  class Parser {
    const input: seq<Item>
    const env: Env
    const condstore: bool
    var pos: nat

    constructor (input: seq<Item>, env: Env, condstore: bool)
      ensures this.input == input && this.env == env && this.condstore == condstore && pos == 0
    {
      this.input, this.env, this.condstore, pos := input, env, condstore, 0;
    }

    /** What a method that parses one key, begun at `from`, promises. */
    predicate Parsed(from: int, c: Option<Item>, q: Query, a: Args, a': Args, m: Message)
      reads this
    {
      && 0 <= from < pos <= |input|
      && (c.Some? ==>
            && Grammatical(q, condstore)
            && input[from..pos] == Tokens(q) + [c.value]
            && Compiled(q, env, a, a', m))
    }

    /** The next item, or None at the end of the input. */
    method Next() returns (c: Option<Item>)
      modifies this
      ensures if old(pos) < |input| then pos == old(pos) + 1 && c == Some(input[old(pos)])
              else pos == old(pos) && c == None
    {
      if pos < |input| {
        c, pos := Some(input[pos]), pos + 1;
      } else {
        c := None;
      }
    }

    /** The space before an argument, the argument, and the delimiter after it. */
    method Argument() returns (arg: Option<Item>, c: Option<Item>)
      modifies this
      ensures old(pos) <= pos <= old(pos) + 3 && (pos <= |input| || pos == old(pos))
      ensures arg.Some? && c.Some? ==>
                pos == old(pos) + 3 && pos <= |input| && input[old(pos)..pos] == [Space, arg.value, c.value]
      ensures old(pos) + 2 < |input| && input[old(pos)] == Space ==>
                arg == Some(input[old(pos) + 1]) && c == Some(input[old(pos) + 2])
    {
      arg, c := None, None;
      var sp := Next();
      if sp == Some(Space) {
        arg := Next();
        c := Next();
      }
    }

    /** getsearchprogram: keys separated by spaces, all compiled into the same record. */
    method GetSearchProgram(args: SearchArgs, ghost hint: seq<Query>, ghost m: Message)
      returns (c: Option<Item>, ghost qs: seq<Query>)
      requires pos <= |input|
      modifies this, args
      ensures old(pos) <= pos <= |input| && (c.Some? ==> old(pos) < pos)
      ensures c.Some? ==> ProgramRead(input, condstore, env, old(pos), pos, c.value, qs, old(args.a), args.a, m)
      // Any program that is there is found.
      ensures Foreseen(input, condstore, old(pos), hint) ==> c.Some? && qs == hint
      decreases |input| - pos, 1
    {
      ghost var q, a, start := Flag(All), args.a, pos;
      ghost var foreseen := Foreseen(input, condstore, start, hint);
      assert hint != [] ==> hint == [hint[0]] + hint[1..];
      c, q := GetSearchCriteria(args, if foreseen then Some(hint[0]) else None, m);
      qs := [q];
      ghost var mid, at := args.a, pos;
      if c.Some? {
        LastItem(input, start, at, Tokens(q), c.value);
        assert KeyRead(input, condstore, env, start, at, c.value, q, a, mid, m);
      }
      if c.Some? && c != Some(Space) {
        ReadOne(input, condstore, env, start, at, c.value, q, a, mid, m);
      }
      if c == Some(Space) {
        ghost var rest;
        c, rest := GetSearchProgram(args, if foreseen then hint[1..] else [], m);
        qs := [q] + rest;
        if c.Some? {
          ReadMore(input, condstore, env, start, at, pos, c.value, q, rest, a, mid, args.a, m);
        }
      }
    }

    /** getsearchcriteria: one key. */
    method GetSearchCriteria(args: SearchArgs, ghost hint: Option<Query>, ghost m: Message)
      returns (c: Option<Item>, ghost q: Query)
      requires pos <= |input|
      requires hint.Some? ==> Grammatical(hint.value, condstore) && Ahead(input, pos, Tokens(hint.value))
      modifies this, args
      ensures old(pos) <= pos <= |input|
      ensures c.Some? ==> Parsed(old(pos), c, q, old(args.a), args.a, m)
      ensures hint.Some? ==> c.Some? && q == hint.value
      decreases |input| - pos, 0
    {
      ghost var a := args.a;
      c, q := None, Flag(All);
      var item := Next();
      if item == None {
        return;
      }
      if hint.Some? {
        HintFirst(input, pos - 1, hint.value);
        FirstToken(hint.value);
      }
      match item.value {
        case Open =>
          c, q := GetGroup(args, hint, m);
        case Numbers(s) =>
          args.a := args.a.(sequence := args.a.sequence + [s]);
          AddNumbersMeans(a, s, m);
          c := Next();
          q := Sequence(s);
        case Key(word) =>
          if word == NotWord {
            c, q := GetNot(args, hint, m);
          } else if word == OrWord {
            c, q := GetOr(args, hint, m);
          } else if word == HeaderWord {
            c, q := GetHeader(args, hint, m);
          } else if word.FlagWord? {
            args.a := AddFlag(args.a, word.flagKey);
            AddFlagMeans(a, word.flagKey, m);
            if hint.Some? {
              HintFlag(input, pos - 1, hint.value, word.flagKey);
            }
            c := Next();
            q := Flag(word.flagKey);
          } else {
            c, q := GetLeaf(args, word, hint, m);
          }
        case _ =>
      }
    }

    /** ( program ) */
    method GetGroup(args: SearchArgs, ghost hint: Option<Query>, ghost m: Message)
      returns (c: Option<Item>, ghost q: Query)
      requires 0 < pos <= |input| && input[pos - 1] == Open
      requires hint.Some? ==> Grammatical(hint.value, condstore) && Ahead(input, pos - 1, Tokens(hint.value)) && hint.value.Group?
      modifies this, args
      ensures Parsed(old(pos) - 1, c, q, old(args.a), args.a, m)
      ensures hint.Some? ==> c.Some? && q == hint.value
      decreases |input| - pos, 2
    {
      hide Asks, Matches, Expressible;
      ghost var qs;
      if hint.Some? {
        HintGroup(input, pos - 1, hint.value.qs);
        ForeseenWhole(input, condstore, pos, hint.value.qs);
      }
      q := Flag(All);
      c, qs := GetSearchProgram(args, if hint.Some? then hint.value.qs else [], m);
      if c != Some(Close) {
        c := None;
        return;
      }
      ghost var mid := pos;
      c := Next();
      q := Group(qs);
      if c.Some? {
        GroupTokens(input, old(pos) - 1, mid, qs);
      }
    }

    /** An operand of NOT or OR, compiled into a record of its own. */
    method GetOperand(ghost hint: Option<Query>, ghost m: Message)
      returns (c: Option<Item>, sub: Args, ghost q: Query)
      requires pos <= |input|
      requires hint.Some? ==> Grammatical(hint.value, condstore) && Ahead(input, pos, Tokens(hint.value))
      modifies this
      ensures old(pos) <= pos <= |input|
      ensures c.Some? ==> Parsed(old(pos), c, q, EMPTY, sub, m)
      ensures hint.Some? ==> c.Some? && q == hint.value
      decreases |input| - pos, 1
    {
      var args := new SearchArgs();
      c, q := GetSearchCriteria(args, hint, m);
      sub := args.a;
    }

    /** NOT key: the operand gets a record of its own, which joins the sublist. */
    method GetNot(args: SearchArgs, ghost hint: Option<Query>, ghost m: Message)
      returns (c: Option<Item>, ghost q: Query)
      requires 0 < pos <= |input| && input[pos - 1] == Key(NotWord)
      requires hint.Some? ==> Grammatical(hint.value, condstore) && Ahead(input, pos - 1, Tokens(hint.value)) && hint.value.Not?
      modifies this, args
      ensures Parsed(old(pos) - 1, c, q, old(args.a), args.a, m)
      ensures hint.Some? ==> c.Some? && q == hint.value
      decreases |input| - pos, 2
    {
      ghost var a, q1 := args.a, Flag(All);
      q := Flag(All);
      if hint.Some? {
        HintNot(input, pos - 1, hint.value.q);
      }
      c := Next();
      if c != Some(Space) {
        c := None;
        return;
      }
      var sub1;
      c, sub1, q1 := GetOperand(if hint.Some? then Some(hint.value.q) else None, m);
      if c == None {
        return;
      }
      args.a := args.a.(sublist := args.a.sublist + [Sub(sub1, None)]);
      NotMeans(q1, sub1, env, a, m);
      q := Not(q1);
      NotTokens(input, old(pos) - 1, pos, q1, c.value);
    }

    /** The two operands of OR, after its keyword. */
    method GetOperands(ghost hint: Option<Query>, ghost m: Message)
      returns (c: Option<Item>, sub1: Args, sub2: Args, ghost q1: Query, ghost q2: Query)
      requires 0 < pos <= |input| && input[pos - 1] == Key(OrWord)
      requires hint.Some? ==> Grammatical(hint.value, condstore) && Ahead(input, pos - 1, Tokens(hint.value)) && hint.value.Or?
      modifies this
      ensures old(pos) <= pos <= |input|
      ensures c.Some? ==>
                && Grammatical(Or(q1, q2), condstore)
                && input[old(pos) - 1..pos] == Tokens(Or(q1, q2)) + [c.value]
                && Compiled(q1, env, EMPTY, sub1, m) && Compiled(q2, env, EMPTY, sub2, m)
      ensures hint.Some? ==> c.Some? && hint.value == Or(q1, q2)
      decreases |input| - pos, 2
    {
      hide Asks, Matches, Expressible, ModseqKeys;
      sub1, sub2, q1, q2 := EMPTY, EMPTY, Flag(All), Flag(All);
      ghost var hint1: Option<Query>, hint2: Option<Query> := None, None;
      if hint.Some? {
        HintOr(input, pos - 1, hint.value.q1, hint.value.q2);
        hint1, hint2 := Some(hint.value.q1), Some(hint.value.q2);
      }
      c := Next();
      if c != Some(Space) {
        c := None;
        return;
      }
      c, sub1, q1 := GetOperand(hint1, m);
      if c != Some(Space) {
        c := None;
        return;
      }
      ghost var mid := pos;
      c, sub2, q2 := GetOperand(hint2, m);
      if c.Some? {
        OrTokens(input, old(pos) - 1, mid, pos, q1, q2, c.value);
      }
    }

    /** OR key key: each operand gets a record of its own, and the pair joins the sublist. */
    method GetOr(args: SearchArgs, ghost hint: Option<Query>, ghost m: Message)
      returns (c: Option<Item>, ghost q: Query)
      requires 0 < pos <= |input| && input[pos - 1] == Key(OrWord)
      requires hint.Some? ==> Grammatical(hint.value, condstore) && Ahead(input, pos - 1, Tokens(hint.value)) && hint.value.Or?
      modifies this, args
      ensures Parsed(old(pos) - 1, c, q, old(args.a), args.a, m)
      ensures hint.Some? ==> c.Some? && q == hint.value
      decreases |input| - pos, 3
    {
      var sub1, sub2;
      ghost var q1, q2;
      c, sub1, sub2, q1, q2 := GetOperands(hint, m);
      q := Or(q1, q2);
      if c.Some? {
        OrMeans(q1, q2, sub1, sub2, env, args.a, m);
        args.a := args.a.(sublist := args.a.sublist + [Sub(sub1, Some(sub2))]);
      }
    }

    /** HEADER name text */
    method GetHeader(args: SearchArgs, ghost hint: Option<Query>, ghost m: Message)
      returns (c: Option<Item>, ghost q: Query)
      requires 0 < pos <= |input| && input[pos - 1] == Key(HeaderWord)
      requires hint.Some? ==> Ahead(input, pos - 1, Tokens(hint.value))
      modifies this, args
      ensures Parsed(old(pos) - 1, c, q, old(args.a), args.a, m)
      ensures hint.Some? ==> c.Some? && q == hint.value
    {
      ghost var a := args.a;
      q := Flag(All);
      if hint.Some? {
        HintHeader(input, pos - 1, hint.value);
      }
      var name, text;
      name, c := Argument();
      if name == None || !name.value.Arg? || c != Some(Space) {
        c := None;
        return;
      }
      text := Next();
      c := Next();
      if text == None || !text.value.Arg? || c == None {
        c := None;
        return;
      }
      args.a := AddHeader(args.a, Lowered(name.value.text), Converted(env, text.value.text));
      q := Header(name.value.text, text.value.text);
      HeaderMeans(name.value.text, text.value.text, a, env, m);
      HeaderText(input, old(pos) - 1, name.value.text, text.value.text, c.value);
    }

    /** The keys with one argument. */
    method GetLeaf(args: SearchArgs, word: Word, ghost hint: Option<Query>, ghost m: Message)
      returns (c: Option<Item>, ghost q: Query)
      requires 0 < pos <= |input| && input[pos - 1] == Key(word)
      requires word !in {NotWord, OrWord, HeaderWord} && !word.FlagWord?
      requires hint.Some? ==> Grammatical(hint.value, condstore) && Ahead(input, pos - 1, Tokens(hint.value))
      modifies this, args
      ensures Parsed(old(pos) - 1, c, q, old(args.a), args.a, m)
      ensures hint.Some? ==> c.Some? && q == hint.value
    {
      ghost var a := args.a;
      q := Flag(All);
      if hint.Some? {
        HintLeaf(input, pos - 1, hint.value, word, condstore);
      }
      var arg;
      arg, c := Argument();
      if arg == None || c == None {
        c := None;
        return;
      }
      var ok := Compile(args, word, arg.value);
      if !ok {
        c := None;
        return;
      }
      q := LeafQuery(word, arg.value, condstore).value;
      LeafTokens(word, arg.value, condstore);
      LeafMeans(word, arg.value, condstore, a, env, m);
      LeafText(input, old(pos) - 1, Key(word), arg.value, c.value);
    }

    /** The effect of one key and its argument on the record. */
    method Compile(args: SearchArgs, word: Word, arg: Item) returns (ok: bool)
      modifies args
      ensures ok <==> LeafQuery(word, arg, condstore).Some?
      ensures args.a == if ok then AddLeaf(old(args.a), LeafQuery(word, arg, condstore).value, env) else old(args.a)
    {
      ok := true;
      match (word, arg) {
        case (DateWord(k), DateArg(start, end)) => args.a := AddDate(args.a, k, start, end);
        case (TextWord(f), Arg(text)) =>
          if f == MessageId {
            return false;
          }
          args.a := AddPattern(args.a, f, Converted(env, text));
        case (KeywordWord(wanted), Arg(k)) => args.a := AddKeyword(args.a, env, k, wanted);
        case (UidWord, Numbers(s)) => args.a := args.a.(uidsequence := args.a.uidsequence + [s]);
        case (LargerWord, Arg(n)) =>
          var size;
          ok, size := ReadSize(n);
          if ok && size > args.a.larger {
            args.a := args.a.(larger := size);
          }
        case (SmallerWord, Arg(n)) =>
          var size;
          ok, size := ReadSize(n);
          if ok {
            if size == 0 {
              size := 1;
            }
            if args.a.smaller == 0 || size < args.a.smaller {
              args.a := args.a.(smaller := size);
            }
          }
        case (ModseqWord, Arg(n)) =>
          if !condstore {
            return false;
          }
          var value;
          ok, value := ReadModseq(args.a.modseq, n);
          if ok {
            args.a := args.a.(modseq := value);
          }
        case _ => ok := false;
      }
    }

    /** A size is an unsigned 32-bit number, digit by digit. */
    method ReadSize(n: string) returns (ok: bool, size: nat)
      ensures ok <==> AllDigits(n)
      ensures ok ==> size == Value(n) % UINT32
    {
      size := 0;
      var i := 0;
      assert n[..0] == "";
      while i < |n| && IsDigit(n[i])
        invariant 0 <= i <= |n| && AllDigits(n[..i])
        invariant size == Value(n[..i]) % UINT32
      {
        assert n[..i + 1][..i] == n[..i];
        WrapStep(Value(n[..i]), DigitValue(n[i]), UINT32);
        size := (size * 10 + (n[i] as int - '0' as int)) % UINT32;
        i := i + 1;
      }
      ok := i == |n|;
      assert n[..|n|] == n;
    }

    /** MODSEQ digits are appended to whatever the field holds already. */
    method ReadModseq(start: uint64, n: string) returns (ok: bool, modseq: uint64)
      ensures ok <==> AllDigits(n)
      ensures ok ==> modseq == AddModseq(start, n)
    {
      modseq := start;
      var i := 0;
      assert n[..0] == "";
      while i < |n| && IsDigit(n[i])
        invariant 0 <= i <= |n| && AllDigits(n[..i])
        invariant modseq == AddModseq(start, n[..i])
      {
        assert n[..i + 1][..i] == n[..i];
        ModseqDigits(start, n[..i + 1]);
        modseq := (modseq * 10 + (n[i] as int - '0' as int)) % UINT64;
        i := i + 1;
      }
      ok := i == |n|;
      assert n[..|n|] == n;
    }
  }

  lemma WrapStep(v: nat, d: nat, modulus: nat)
    requires modulus == UINT32 || modulus == UINT64
    ensures ((v % modulus) * 10 + d) % modulus == (v * 10 + d) % modulus
  {
    if modulus == UINT32 {
      var k := v / UINT32;
      assert v * 10 + d == (v % UINT32) * 10 + d + (10 * k) * UINT32;
      WrapMultiple((v % UINT32) * 10 + d, 10 * k);
    } else {
      var k := v / UINT64;
      assert v * 10 + d == (v % UINT64) * 10 + d + (10 * k) * UINT64;
      WrapMultiple((v % UINT64) * 10 + d, 10 * k);
    }
  }

  lemma WrapMultiple(x: nat, k: nat)
    ensures (x + k * UINT32) % UINT32 == x % UINT32
    ensures (x + k * UINT64) % UINT64 == x % UINT64
  {
  }
}
