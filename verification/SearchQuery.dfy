/**
 What a SEARCH program means (section 6.4.4 of RFC 3501), the record it is compiled into, and what that
 record matches when index_search_evaluate interprets it.
 */
module SearchQuery {
  import opened Wrappers
  import opened Decimal
  import opened Letters

  datatype SystemFlag = ANSWERED | DELETED | DRAFT | FLAGGED

  datatype FlagKey =
    | All | New | Old | Recent | Seen | Unseen
    | System(flag: SystemFlag, wanted: bool)

  datatype DateKey = Before | On | Since | SentBefore | SentOn | SentSince

  datatype Field = Bcc | Body | Cc | From | Subject | To | Text | MessageId

  /** A search key as the client means it.  Dates carry the first and last second of their day. */
  datatype Query =
    | Flag(flagKey: FlagKey)
    | Dated(dateKey: DateKey, start: int, end: int)
    | Larger(size: string)
    | Smaller(size: string)
    | Contains(field: Field, text: string)
    | Header(name: string, text: string)
    | Keyword(keyword: string, wanted: bool)
    | Modseq(number: string)
    | Sequence(numbers: string)
    | Uid(numbers: string)
    | Not(q: Query)
    | Or(q1: Query, q2: Query)
    | Group(qs: seq<Query>)

  /** Everything about a message that a search may ask. */
  datatype Message = Message(
    recent: bool, seen: bool, size: nat, internaldate: int, sentdate: int, modseq: nat,
    system: set<SystemFlag>, user: set<nat>,
    inSequence: iset<string>, inUids: iset<string>, contains: iset<(Field, string)>, headers: iset<(string, string)>)

  /** What the compiler knows besides the program: how it reads strings, and which user flags exist where. */
  datatype Env = Env(converted: map<string, string>, slots: map<string, nat>)

  function HeaderField(name: string): Option<Field> {
    if name == "bcc" then Some(Bcc)
    else if name == "cc" then Some(Cc)
    else if name == "to" then Some(To)
    else if name == "from" then Some(From)
    else if name == "subject" then Some(Subject)
    else if name == "message-id" then Some(MessageId)
    else None
  }

  /** Which header names are kept in the cache, and as what; all others are searched for by name. */
  lemma HeaderFieldIs(name: string)
    ensures HeaderField("bcc") == Some(Bcc) && HeaderField("cc") == Some(Cc) && HeaderField("to") == Some(To)
    ensures HeaderField("from") == Some(From) && HeaderField("subject") == Some(Subject)
    ensures HeaderField("message-id") == Some(MessageId)
    ensures name !in ["bcc", "cc", "to", "from", "subject", "message-id"] ==> HeaderField(name) == None
  {
  }

  /** The pattern a string stands for; None when it has characters the charset cannot express. */
  function Converted(e: Env, text: string): Option<string> {
    Lookup(e.converted, text)
  }

  predicate DateMatches(k: DateKey, start: int, end: int, m: Message) {
    match k
    case Before => m.internaldate < start
    case On => start <= m.internaldate <= end
    case Since => start <= m.internaldate
    case SentBefore => m.sentdate < start
    case SentOn => start <= m.sentdate <= end
    case SentSince => start <= m.sentdate
  }

  predicate FlagMatches(k: FlagKey, m: Message) {
    match k
    case All => true
    case New => m.recent && !m.seen
    case Old => !m.recent
    case Recent => m.recent
    case Seen => m.seen
    case Unseen => !m.seen
    case System(flag, wanted) => wanted <==> flag in m.system
  }

  function NumberOf(text: string): nat {
    if AllDigits(text) then Value(text) else 0
  }

  predicate HasKeyword(e: Env, keyword: string, m: Message) {
    keyword in e.slots && e.slots[keyword] in m.user
  }

  /** The messages a key asks for. */
  predicate Asks(q: Query, e: Env, m: Message)
    decreases q, 0
  {
    match q
    case Flag(k) => FlagMatches(k, m)
    case Dated(k, start, end) => DateMatches(k, start, end, m)
    case Larger(n) => m.size > NumberOf(n)
    case Smaller(n) => m.size < NumberOf(n)
    case Contains(f, text) => Converted(e, text).Some? && (f, Converted(e, text).value) in m.contains
    case Header(name, text) =>
      && Converted(e, text).Some?
      && (if HeaderField(Lowered(name)).Some? then (HeaderField(Lowered(name)).value, Converted(e, text).value) in m.contains
          else (Lowered(name), Converted(e, text).value) in m.headers)
    case Keyword(name, wanted) => wanted <==> HasKeyword(e, name, m)
    case Modseq(n) => m.modseq >= NumberOf(n)
    case Sequence(s) => s in m.inSequence
    case Uid(s) => s in m.inUids
    case Not(q') => !Asks(q', e, m)
    case Or(a, b) => Asks(a, e, m) || Asks(b, e, m)
    case Group(qs) => AsksAll(qs, e, m)
  }

  predicate AsksAll(qs: seq<Query>, e: Env, m: Message)
    decreases qs, 1
  {
    qs == [] || (Asks(qs[0], e, m) && AsksAll(qs[1..], e, m))
  }

  /** What the flag keys ask of a message (section 6.4.4 of RFC 3501). */
  lemma FlagKeysAsk(e: Env, m: Message, f: SystemFlag)
    ensures Asks(Flag(All), e, m)
    ensures Asks(Flag(New), e, m) <==> m.recent && !m.seen
    ensures Asks(Flag(Old), e, m) <==> !m.recent
    ensures Asks(Flag(Recent), e, m) <==> m.recent
    ensures Asks(Flag(Seen), e, m) <==> m.seen
    ensures Asks(Flag(Unseen), e, m) <==> !m.seen
    ensures Asks(Flag(System(f, true)), e, m) <==> f in m.system
    ensures Asks(Flag(System(f, false)), e, m) <==> f !in m.system
  {
  }

  /** What the date and number keys ask; a day is given by its first and last second. */
  lemma DateKeysAsk(start: int, end: int, e: Env, m: Message)
    ensures Asks(Dated(Before, start, end), e, m) <==> m.internaldate < start
    ensures Asks(Dated(On, start, end), e, m) <==> start <= m.internaldate && m.internaldate <= end
    ensures Asks(Dated(Since, start, end), e, m) <==> m.internaldate >= start
    ensures Asks(Dated(SentBefore, start, end), e, m) <==> m.sentdate < start
    ensures Asks(Dated(SentOn, start, end), e, m) <==> start <= m.sentdate && m.sentdate <= end
    ensures Asks(Dated(SentSince, start, end), e, m) <==> m.sentdate >= start
  {
  }

  lemma NumberKeysAsk(n: string, e: Env, m: Message)
    requires AllDigits(n)
    ensures Asks(Larger(n), e, m) <==> m.size > Value(n)
    ensures Asks(Smaller(n), e, m) <==> m.size < Value(n)
    ensures Asks(Modseq(n), e, m) <==> m.modseq >= Value(n)
  {
  }

  /** What the keys with a text ask; header names go by their small letters.  A text that the charset cannot express, or a keyword that no message has, finds nothing. */
  lemma TextKeysAsk(f: Field, text: string, name: string, e: Env, m: Message)
    ensures Asks(Contains(f, text), e, m) <==> text in e.converted && (f, e.converted[text]) in m.contains
    ensures Lowered(name) == "subject" ==>
              (Asks(Header(name, text), e, m) <==> text in e.converted && (Subject, e.converted[text]) in m.contains)
    ensures Lowered(name) !in ["bcc", "cc", "to", "from", "subject", "message-id"] ==>
              (Asks(Header(name, text), e, m) <==> text in e.converted && (Lowered(name), e.converted[text]) in m.headers)
    ensures Asks(Keyword(name, true), e, m) <==> name in e.slots && e.slots[name] in m.user
    ensures Asks(Keyword(name, false), e, m) <==> name !in e.slots || e.slots[name] !in m.user
    ensures Asks(Sequence(text), e, m) <==> text in m.inSequence
    ensures Asks(Uid(text), e, m) <==> text in m.inUids
  {
    HeaderFieldIs(Lowered(name));
  }

  /** What the combinations ask. */
  lemma CombinationsAsk(a: Query, b: Query, e: Env, m: Message)
    ensures Asks(Not(a), e, m) <==> !Asks(a, e, m)
    ensures Asks(Or(a, b), e, m) <==> Asks(a, e, m) || Asks(b, e, m)
    ensures Asks(Group([a, b]), e, m) <==> Asks(a, e, m) && Asks(b, e, m)
  {
    assert [a, b][1..] == [b] && [b][1..] == [];
    assert AsksAll([a, b], e, m) <==> Asks(a, e, m) && AsksAll([b], e, m);
    assert AsksAll([b], e, m) <==> Asks(b, e, m);
  }

  const UINT64: nat := 0x1_0000_0000_0000_0000

  /** modseq_t */
  type uint64 = n: nat | n < UINT64

  /** struct searchargs: zero means "unset" for the numbers and the dates. */
  datatype Args = Args(
    recentSet: bool, recentUnset: bool, seenSet: bool, seenUnset: bool,
    smaller: nat, larger: nat, before: int, after: int, sentbefore: int, sentafter: int,
    systemSet: set<SystemFlag>, systemUnset: set<SystemFlag>, userSet: set<nat>, userUnset: set<nat>,
    sequence: seq<string>, uidsequence: seq<string>, patterns: seq<(Field, string)>,
    headerNames: seq<string>, headers: seq<string>, sublist: seq<Sub>, modseq: uint64)

  /** One element of the sublist: NOT sub1 without a sub2, else sub1 OR sub2. */
  datatype Sub = Sub(sub1: Args, sub2: Option<Args>)

  const EMPTY := Args(false, false, false, false, 0, 0, 0, 0, 0, 0, {}, {}, {}, {}, [], [], [], [], [], [], 0)

  /** The tests of index_search_evaluate that look at the message itself. */
  predicate OwnTests(a: Args, m: Message) {
    && (a.recentSet ==> m.recent) && (a.recentUnset ==> !m.recent)
    && (a.seenSet ==> m.seen) && (a.seenUnset ==> !m.seen)
    && (a.smaller != 0 ==> m.size < a.smaller) && (a.larger != 0 ==> m.size > a.larger)
    && (a.after != 0 ==> m.internaldate >= a.after) && (a.before != 0 ==> m.internaldate <= a.before)
    && (a.sentafter != 0 ==> m.sentdate >= a.sentafter) && (a.sentbefore != 0 ==> m.sentdate <= a.sentbefore)
    && (a.modseq != 0 ==> m.modseq >= a.modseq)
    && a.systemSet <= m.system && a.systemUnset !! m.system
    && a.userSet <= m.user && a.userUnset !! m.user
  }

  predicate ListTests(a: Args, m: Message) {
    && (forall s :: s in a.sequence ==> s in m.inSequence)
    && (forall s :: s in a.uidsequence ==> s in m.inUids)
    && (forall p :: p in a.patterns ==> p in m.contains)
    && (forall i :: 0 <= i < |a.headers| && i < |a.headerNames| ==> (a.headerNames[i], a.headers[i]) in m.headers)
  }

  predicate Matches(a: Args, m: Message)
    decreases a, 0
  {
    OwnTests(a, m) && ListTests(a, m) && SubsMatch(a.sublist, m)
  }

  predicate SubsMatch(subs: seq<Sub>, m: Message)
    decreases subs, 1
  {
    subs == [] ||
    (SubsMatch(subs[..|subs| - 1], m) && SubMatches(subs[|subs| - 1], m))
  }

  predicate SubMatches(s: Sub, m: Message)
    decreases s, 2
  {
    if s.sub2.None? then !Matches(s.sub1, m)
    else Matches(s.sub1, m) || Matches(s.sub2.value, m)
  }
}
