/**
 How the annotation database names and encodes its entries: keys of NUL-terminated strings, records with
 32-bit numbers, and the fixed part of a pattern that restricts a scan.
 */
module AnnotationKeys {
  import opened Wrappers

  const NUL: char := '\0'
  const TWO_32: nat := 0x1_0000_0000
  /** sizeof(unsigned long); the four bytes of a number come first, the rest is zero. */
  const LONG: nat := 8
  /** The size of the buffers for keys and for records, MAX_MAILBOX_PATH + 1. */
  const BUFFER: nat := 4097

  /** What an entry is called: shared entries have the empty user. */
  datatype Name = Name(mailbox: string, entry: string, userid: string)

  predicate NulFree(s: string) {
    NUL !in s
  }

  predicate ProperName(n: Name) {
    NulFree(n.mailbox) && NulFree(n.entry) && NulFree(n.userid)
  }

  /** make_key */
  function MakeKey(n: Name): string {
    n.mailbox + ([NUL] + (n.entry + ([NUL] + (n.userid + [NUL]))))
  }

  /** A key is the mailbox, the entry and the user, each with a NUL behind it. */
  lemma KeyIs(mailbox: string, entry: string, userid: string)
    ensures MakeKey(Name(mailbox, entry, userid)) == mailbox + "\0" + entry + "\0" + userid + "\0"
  {
  }

  /** The string at the beginning of a text, and what follows its NUL. */
  function Cut(t: string): (string, string) {
    if t == "" then ("", "")
    else if t[0] == NUL then ("", t[1..])
    else
      var (s, rest) := Cut(t[1..]);
      ([t[0]] + s, rest)
  }

  lemma {:induction false} CutsString(s: string, rest: string)
    requires NulFree(s)
    ensures Cut(s + ([NUL] + rest)) == (s, rest)
  {
    var t := s + ([NUL] + rest);
    if s == "" {
      assert t == [NUL] + rest && t[1..] == rest;
    } else {
      assert s[0] in s && t[0] == s[0];
      assert t[1..] == s[1..] + ([NUL] + rest);
      CutsString(s[1..], rest);
      assert s == [s[0]] + s[1..];
    }
  }

  /** How the scan takes a key apart. */
  function NameOf(key: string): Name {
    var (mailbox, a) := Cut(key);
    var (entry, b) := Cut(a);
    Name(mailbox, entry, Cut(b).0)
  }

  lemma NameOfKey(n: Name)
    requires ProperName(n)
    ensures NameOf(MakeKey(n)) == n
  {
    CutsString(n.mailbox, n.entry + ([NUL] + (n.userid + [NUL])));
    CutsString(n.entry, n.userid + [NUL]);
    assert n.userid + [NUL] == n.userid + ([NUL] + "");
    CutsString(n.userid, "");
  }

  /** Different entries have different keys. */
  lemma KeysDiffer(a: Name, b: Name)
    requires ProperName(a) && ProperName(b)
    ensures MakeKey(a) == MakeKey(b) <==> a == b
  {
    NameOfKey(a);
    NameOfKey(b);
  }

  /** htonl of the low 32 bits, in an unsigned long. */
  function Number(n: nat): (r: string)
    ensures |r| == LONG
  {
    var m := n % TWO_32;
    [(m / 0x100_0000) as char, (m / 0x1_0000 % 0x100) as char, (m / 0x100 % 0x100) as char, (m % 0x100) as char,
     NUL, NUL, NUL, NUL]
  }

  /** ntohl */
  function ReadNumber(t: string): nat
    requires |t| >= LONG
  {
    ((t[0] as int * 0x100 + t[1] as int) * 0x100 + t[2] as int) * 0x100 + t[3] as int
  }

  /** The most significant byte comes first. */
  lemma NetworkOrder(a: nat, b: nat, c: nat, d: nat)
    requires a < 256 && b < 256 && c < 256 && d < 256
    ensures Number(((a * 256 + b) * 256 + c) * 256 + d) ==
            [a as char, b as char, c as char, d as char, '\0', '\0', '\0', '\0']
  {
    var ab, abc := a * 256 + b, (a * 256 + b) * 256 + c;
    var n := abc * 256 + d;
    LowByte(abc, d);
    LowByte(ab, c);
    LowByte(a, b);
    assert n / 0x1_0000 == n / 0x100 / 0x100;
    assert n / 0x100_0000 == n / 0x1_0000 / 0x100;
    assert n % TWO_32 == n;
  }

  lemma LowByte(q: nat, r: nat)
    requires r < 256
    ensures (q * 256 + r) / 0x100 == q && (q * 256 + r) % 0x100 == r
  {
  }

  lemma NumberRoundTrip(n: nat)
    ensures ReadNumber(Number(n)) == n % TWO_32
  {
    var m := n % TWO_32;
    var a, b, c, d := m / 0x100_0000, m / 0x1_0000 % 0x100, m / 0x100 % 0x100, m % 0x100;
    assert m / 0x100 == m / 0x1_0000 * 0x100 + c;
    assert m / 0x1_0000 == a * 0x100 + b;
    assert m == ((a * 0x100 + b) * 0x100 + c) * 0x100 + d;
  }

  /** An entry as it is read. */
  datatype Annotation = Annotation(value: string, contenttype: string, modified: nat, size: nat)

  /** The record of an entry. */
  function Encode(value: string, contenttype: string, modified: nat): string {
    Number(|value|) + (value + ([NUL] + (contenttype + ([NUL] + Number(modified)))))
  }

  /** A record is the size of the value, the value and the content type with a NUL behind each, and the time. */
  lemma RecordIs(value: string, contenttype: string, modified: nat)
    ensures Encode(value, contenttype, modified) == Number(|value|) + value + "\0" + contenttype + "\0" + Number(modified)
  {
  }

  /** split_attribs; None: a record that is too short. */
  function Decode(data: string): Option<Annotation> {
    if |data| < LONG then None
    else
      var (value, a) := Cut(data[LONG..]);
      var (contenttype, b) := Cut(a);
      if |b| < LONG then None else Some(Annotation(value, contenttype, ReadNumber(b), ReadNumber(data)))
  }

  lemma DecodesRecord(value: string, contenttype: string, modified: nat)
    requires NulFree(value) && NulFree(contenttype)
    ensures Decode(Encode(value, contenttype, modified)) ==
            Some(Annotation(value, contenttype, modified % TWO_32, |value| % TWO_32))
  {
    var tail := contenttype + ([NUL] + Number(modified));
    var data := Encode(value, contenttype, modified);
    assert data[LONG..] == value + ([NUL] + tail);
    CutsString(value, tail);
    CutsString(contenttype, Number(modified));
    NumberRoundTrip(modified);
    NumberRoundTrip(|value|);
  }

  predicate IsWildcard(c: char) {
    c == '*' || c == '%'
  }

  /** A mailbox or entry pattern: `*` stands for anything, `%` for anything without a separator. */
  predicate Matches(pattern: string, s: string, sep: char)
    decreases |pattern| + |s|
  {
    if pattern == "" then s == ""
    else if pattern[0] == '*' then Matches(pattern[1..], s, sep) || (s != "" && Matches(pattern, s[1..], sep))
    else if pattern[0] == '%' then Matches(pattern[1..], s, sep) || (s != "" && s[0] != sep && Matches(pattern, s[1..], sep))
    else s != "" && s[0] == pattern[0] && Matches(pattern[1..], s[1..], sep)
  }

  /** Alone, `*` matches anything and `%` anything without a separator; any other character matches itself. */
  lemma {:induction false} WildcardsMatch(s: string, sep: char)
    ensures Matches("*", s, sep)
    ensures Matches("%", s, sep) <==> sep !in s
    decreases |s|
  {
    assert "*"[1..] == "" && "%"[1..] == "";
    if s != "" {
      WildcardsMatch(s[1..], sep);
      assert s == [s[0]] + s[1..];
    }
  }

  lemma CharacterMatches(c: char, pattern: string, s: string, sep: char)
    requires c != '*' && c != '%'
    ensures Matches([c] + pattern, s, sep) <==> s != "" && s[0] == c && Matches(pattern, s[1..], sep)
  {
    assert ([c] + pattern)[1..] == pattern;
  }

  /** The part of a text before its first wildcard. */
  function Fixed(t: string): (r: string)
    ensures |r| <= |t|
  {
    if t == "" || IsWildcard(t[0]) then "" else [t[0]] + Fixed(t[1..])
  }

  predicate IsFixed(t: string) {
    forall i :: 0 <= i < |t| ==> !IsWildcard(t[i])
  }

  /** The prefix that restricts a scan: the key of the two patterns up to the first wildcard. */
  function ScanPrefix(mailbox: string, entry: string): string {
    Fixed(mailbox + ([NUL] + entry))
  }

  lemma {:induction false} FixedMatches(pattern: string, s: string, sep: char)
    requires IsFixed(pattern)
    ensures Matches(pattern, s, sep) <==> s == pattern
    decreases |pattern|
  {
    if pattern != "" {
      assert !IsWildcard(pattern[0]);
      assert IsFixed(pattern[1..]);
      if s != "" {
        FixedMatches(pattern[1..], s[1..], sep);
        assert s == [s[0]] + s[1..] && pattern == [pattern[0]] + pattern[1..];
      }
    }
  }

  lemma {:induction false} FixedPrefix(pattern: string, s: string, sep: char)
    requires Matches(pattern, s, sep)
    ensures Fixed(pattern) <= s
    decreases |pattern|
  {
    if pattern != "" && !IsWildcard(pattern[0]) {
      FixedPrefix(pattern[1..], s[1..], sep);
      assert s == [s[0]] + s[1..];
    }
  }

  lemma {:induction false} FixedOfAppend(a: string, b: string)
    ensures Fixed(a + b) == if IsFixed(a) then a + Fixed(b) else Fixed(a)
  {
    if a == "" {
      assert a + b == b;
    } else if !IsWildcard(a[0]) {
      assert (a + b)[1..] == a[1..] + b;
      assert IsFixed(a) <==> IsFixed(a[1..]) by {
        assert forall i :: 1 <= i < |a| ==> a[i] == a[1..][i - 1];
      }
      FixedOfAppend(a[1..], b);
      assert a == [a[0]] + a[1..];
    }
  }

  /** Every entry that matches both patterns has a key with the prefix: restricting the scan loses none. */
  lemma PrefixLosesNone(mailbox: string, entry: string, n: Name)
    requires Matches(mailbox, n.mailbox, '.') && Matches(entry, n.entry, '/')
    ensures ScanPrefix(mailbox, entry) <= MakeKey(n)
  {
    FixedOfAppend(mailbox, [NUL] + entry);
    FixedPrefix(mailbox, n.mailbox, '.');
    if IsFixed(mailbox) {
      FixedMatches(mailbox, n.mailbox, '.');
      FixedOfAppend([NUL], entry);
      FixedPrefix(entry, n.entry, '/');
      PrefixThrough(mailbox, Fixed(entry), n.entry, [NUL] + (n.userid + [NUL]));
    }
  }

  lemma PrefixThrough(a: string, b: string, c: string, rest: string)
    requires b <= c
    ensures a + ([NUL] + b) <= a + ([NUL] + (c + rest))
  {
    assert c == b + c[|b|..];
    assert a + ([NUL] + (c + rest)) == a + ([NUL] + b) + (c[|b|..] + rest);
  }

  /** A name without wildcards, scanned with the pattern `*`, is scanned under its own name and NUL. */
  lemma PrefixOfMailbox(mailbox: string, n: Name)
    requires IsFixed(mailbox) && NulFree(mailbox) && ProperName(n)
    ensures ScanPrefix(mailbox, "*") == mailbox + [NUL]
    ensures mailbox + [NUL] <= MakeKey(n) <==> n.mailbox == mailbox
  {
    FixedOfAppend(mailbox, [NUL] + "*");
    FixedOfAppend([NUL], "*");
    PrefixCuts(mailbox, n.mailbox, n.entry + ([NUL] + (n.userid + [NUL])));
  }

  lemma PrefixCuts(a: string, b: string, rest: string)
    requires NulFree(a) && NulFree(b)
    ensures a + [NUL] <= b + ([NUL] + rest) <==> a == b
  {
    var key, p := b + ([NUL] + rest), a + [NUL];
    if a == b {
      assert key == p + rest;
    }
    if p <= key {
      assert key == p + key[|p|..];
      assert key == a + ([NUL] + key[|p|..]);
      CutsString(a, key[|p|..]);
      CutsString(b, rest);
    }
  }

  lemma {:induction false} StarMatches(s: string, sep: char)
    ensures Matches("*", s, sep)
  {
    if s == "" {
      assert "*"[1..] == "";
    } else {
      StarMatches(s[1..], sep);
    }
  }

  type Db = map<string, string>

  /** A record that write_entry could have written. */
  predicate GoodRecord(data: string) {
    match Decode(data)
    case None => false
    case Some(a) =>
      && data == Encode(a.value, a.contenttype, a.modified) && NulFree(a.value) && NulFree(a.contenttype)
      && a.value != "NIL" && a.contenttype != "NIL" && a.modified < TWO_32 && a.size == |a.value| % TWO_32
  }

  predicate GoodEntry(db: Db, key: string)
    requires key in db
  {
    && ProperName(NameOf(key)) && key == MakeKey(NameOf(key)) && GoodRecord(db[key])
    && |key| <= BUFFER && |db[key]| <= BUFFER
  }

  predicate WellFormed(db: Db) {
    forall key {:trigger GoodEntry(db, key)} :: key in db ==> GoodEntry(db, key)
  }

  /** annotatemore_lookup; None: there is no such entry. */
  function Get(db: Db, n: Name): Option<Annotation> {
    if MakeKey(n) in db then Decode(db[MakeKey(n)]) else None
  }

  function TypeOf(contenttype: Option<string>): string {
    if contenttype == None || contenttype == Some("NIL") then "text/plain" else contenttype.value
  }

  /** Without a content type, or with NIL, an entry is plain text. */
  lemma DefaultType(contenttype: string)
    ensures TypeOf(None) == "text/plain" && TypeOf(Some("NIL")) == "text/plain"
    ensures contenttype != "NIL" ==> TypeOf(Some(contenttype)) == contenttype
  {
  }

  /** write_entry: the value NIL deletes. */
  function Written(db: Db, n: Name, value: string, contenttype: Option<string>, modified: nat): Db {
    if value == "NIL" then db - {MakeKey(n)}
    else db[MakeKey(n) := Encode(value, TypeOf(contenttype), modified)]
  }

  /** What is read after a write: what was written, and nothing else has changed. */
  lemma WriteThenRead(db: Db, n: Name, value: string, contenttype: Option<string>, modified: nat, m: Name)
    requires ProperName(n) && ProperName(m) && NulFree(value) && (contenttype.Some? ==> NulFree(contenttype.value))
    ensures Get(Written(db, n, value, contenttype, modified), m) ==
            if m != n then Get(db, m)
            else if value == "NIL" then None
            else Some(Annotation(value, TypeOf(contenttype), modified % TWO_32, |value| % TWO_32))
  {
    KeysDiffer(n, m);
    DecodesRecord(value, TypeOf(contenttype), modified);
  }

  lemma GoodRecordWritten(value: string, contenttype: string, modified: nat)
    requires NulFree(value) && NulFree(contenttype) && value != "NIL" && contenttype != "NIL"
    ensures GoodRecord(Encode(value, contenttype, modified))
  {
    DecodesRecord(value, contenttype, modified);
    NumberOfRest(modified);
  }

  /** Only the low 32 bits of a number are stored. */
  lemma NumberOfRest(n: nat)
    ensures Number(n % TWO_32) == Number(n)
  {
  }

  lemma WrittenStaysGood(db: Db, n: Name, value: string, contenttype: Option<string>, modified: nat)
    requires WellFormed(db) && ProperName(n) && NulFree(value) && (contenttype.Some? ==> NulFree(contenttype.value))
    requires |MakeKey(n)| <= BUFFER && (value != "NIL" ==> |Encode(value, TypeOf(contenttype), modified)| <= BUFFER)
    ensures WellFormed(Written(db, n, value, contenttype, modified))
  {
    var db' := Written(db, n, value, contenttype, modified);
    NameOfKey(n);
    forall key | key in db' ensures GoodEntry(db', key) {
      if key == MakeKey(n) {
        GoodRecordWritten(value, TypeOf(contenttype), modified);
      } else {
        assert GoodEntry(db, key);
      }
    }
  }
}
