/**
 The annotation store: keys and records packed into character buffers, a database with one transaction, and
 the scans that look for entries and rename them.
 */
module AnnotationStore {
  import opened Wrappers
  import opened KeyOrder
  import opened AnnotationKeys
  import opened AnnotationRename

  /** strlcpy of a string that fits, behind what has been packed; returns where the next one goes. */
  method CopyString(buffer: array<char>, at: nat, s: string, ghost head: string) returns (next: nat)
    requires at + |s| < buffer.Length && buffer[..at] == head
    modifies buffer
    ensures next == at + |s| + 1 && buffer[..next] == head + (s + [NUL])
  {
    var i := 0;
    while i < |s|
      invariant 0 <= i <= |s|
      invariant buffer[..at] == head
      invariant buffer[at..at + i] == s[..i]
    {
      buffer[at + i] := s[i];
      i := i + 1;
    }
    buffer[at + i] := NUL;
    assert buffer[at..at + i + 1] == s + [NUL];
    return at + |s| + 1;
  }

  method CopyNumber(buffer: array<char>, at: nat, n: nat, ghost head: string) returns (next: nat)
    requires at + LONG <= buffer.Length && buffer[..at] == head
    modifies buffer
    ensures next == at + LONG && buffer[..next] == head + Number(n)
  {
    var bytes := Number(n);
    for i := 0 to LONG
      invariant buffer[..at] == head
      invariant buffer[at..at + i] == bytes[..i]
    {
      buffer[at + i] := bytes[i];
    }
    assert buffer[at..at + LONG] == bytes;
    return at + LONG;
  }

  /** Without a user this is the beginning of keys, for a scan. */
  method PackKey(mailbox: string, entry: string, userid: Option<string>, key: array<char>) returns (keylen: nat)
    requires |mailbox| + |entry| + 2 + (if userid.Some? then |userid.value| + 1 else 0) <= key.Length
    modifies key
    ensures keylen <= key.Length
    ensures userid.None? ==> key[..keylen] == mailbox + ([NUL] + entry)
    ensures userid.Some? ==> key[..keylen] == MakeKey(Name(mailbox, entry, userid.value))
  {
    keylen := CopyString(key, 0, mailbox, "");
    ghost var head := key[..keylen];
    keylen := CopyString(key, keylen, entry, head);
    ghost var both := key[..keylen];
    if userid.Some? {
      keylen := CopyString(key, keylen, userid.value, both);
      AssociatesKey(mailbox, entry, userid.value);
    } else {
      keylen := keylen - 1;
      assert key[..keylen] == both[..keylen];
    }
  }

  lemma AssociatesKey(a: string, b: string, c: string)
    ensures "" + (a + [NUL]) + (b + [NUL]) + (c + [NUL]) == MakeKey(Name(a, b, c))
  {
  }

  method PackRecord(value: string, contenttype: string, modified: nat, data: array<char>) returns (datalen: nat)
    requires |Encode(value, contenttype, modified)| <= data.Length
    modifies data
    ensures datalen <= data.Length && data[..datalen] == Encode(value, contenttype, modified)
  {
    ghost var size, time := Number(|value|), Number(modified);
    datalen := CopyNumber(data, 0, |value|, "");
    datalen := CopyString(data, datalen, value, "" + size);
    datalen := CopyString(data, datalen, contenttype, "" + size + (value + [NUL]));
    datalen := CopyNumber(data, datalen, modified, "" + size + (value + [NUL]) + (contenttype + [NUL]));
    AssociatesRecord(size, value, contenttype, time);
  }

  lemma AssociatesRecord(a: string, b: string, c: string, d: string)
    ensures "" + a + (b + [NUL]) + (c + [NUL]) + d == a + (b + ([NUL] + (c + ([NUL] + d))))
  {
  }

  /** The two patterns up to the first wildcard. */
  method PackPrefix(mailbox: string, entry: string) returns (prefix: string)
    requires |mailbox| + |entry| + 2 <= BUFFER
    ensures prefix == ScanPrefix(mailbox, entry)
  {
    var key := new char[BUFFER];
    var keylen := PackKey(mailbox, entry, None, key);
    ghost var all := key[..keylen];
    var p := 0;
    while p < keylen && !IsWildcard(key[p])
      invariant 0 <= p <= keylen
      invariant key[..keylen] == all
      invariant Fixed(all) == all[..p] + Fixed(all[p..])
    {
      assert all[p] == key[p] && all[p..][1..] == all[p + 1..];
      assert all[..p + 1] == all[..p] + [all[p]];
      p := p + 1;
    }
    assert p < keylen ==> all[p..][0] == key[p];
    assert all[..p] == key[..p];
    return key[..p];
  }

  predicate Past(last: Option<string>, key: string) {
    last.None? || Before(last.value, key)
  }

  predicate Ahead(db: Db, prefix: string, last: Option<string>, key: string) {
    key in db && prefix <= key && Past(last, key)
  }

  /** `key` is what the scan comes to next. */
  ghost predicate IsNext(db: Db, prefix: string, last: Option<string>, key: string) {
    Ahead(db, prefix, last, key) && forall k :: Ahead(db, prefix, last, k) ==> !Before(k, key)
  }

  /** The next key of a scan, which may have changed the database meanwhile. */
  method Next(db: Db, prefix: string, last: Option<string>) returns (key: Option<string>)
    ensures key.None? ==> forall k :: !Ahead(db, prefix, last, k)
    ensures key.Some? ==> IsNext(db, prefix, last, key.value)
  {
    var ahead := set k | k in db && Ahead(db, prefix, last, k);
    if ahead == {} {
      assert forall k :: Ahead(db, prefix, last, k) ==> k in ahead;
      return None;
    }
    var k := Least(ahead);
    return Some(k);
  }

  /** find_p */
  predicate Selected(mailbox: string, entry: string, key: string) {
    Matches(mailbox, NameOf(key).mailbox, '.') && Matches(entry, NameOf(key).entry, '/')
  }

  lemma Beyond(last: Option<string>, key: string, k: string)
    requires Past(last, key)
    ensures Past(Some(key), k) ==> Past(last, k) && k != key
    ensures !Before(k, key) ==> Past(Some(key), k) || k == key
  {
    BeforeIrreflexive(key);
    BeforeTotal(key, k);
    if last.Some? && Before(key, k) {
      BeforeTransitive(last.value, key, k);
    }
  }

  datatype Found = Found(name: Name, annotation: Annotation)

  /** What a scan hands out for a key. */
  predicate Shows(db: Db, key: string, found: Found) {
    key in db && found.name == NameOf(key) && Decode(db[key]) == Some(found.annotation)
  }

  /** The scan has passed exactly these of the selected keys. */
  ghost predicate Passed(db: Db, mailbox: string, entry: string, last: Option<string>, keys: seq<string>) {
    Increasing(keys) && forall k :: PassedAt(db, mailbox, entry, last, keys, k)
  }

  ghost predicate PassedAt(db: Db, mailbox: string, entry: string, last: Option<string>, keys: seq<string>, k: string) {
    k in keys <==> k in db && Selected(mailbox, entry, k) && !Past(last, k)
  }

  /** Every selected key has the prefix. */
  lemma SelectedAhead(db: Db, mailbox: string, entry: string, last: Option<string>, k: string)
    requires WellFormed(db) && k in db && Selected(mailbox, entry, k) && Past(last, k)
    ensures Ahead(db, ScanPrefix(mailbox, entry), last, k)
  {
    assert GoodEntry(db, k);
    PrefixLosesNone(mailbox, entry, NameOf(k));
  }

  lemma PassedOneMore(db: Db, mailbox: string, entry: string, last: Option<string>, keys: seq<string>, key: string)
    requires WellFormed(db) && Passed(db, mailbox, entry, last, keys)
    requires IsNext(db, ScanPrefix(mailbox, entry), last, key)
    ensures Passed(db, mailbox, entry, Some(key), if Selected(mailbox, entry, key) then keys + [key] else keys)
  {
    var keys' := if Selected(mailbox, entry, key) then keys + [key] else keys;
    forall k ensures PassedAt(db, mailbox, entry, Some(key), keys', k) {
      assert PassedAt(db, mailbox, entry, last, keys, k);
      Beyond(last, key, k);
      if k in db && Selected(mailbox, entry, k) && Past(last, k) {
        SelectedAhead(db, mailbox, entry, last, k);
      }
    }
    if Selected(mailbox, entry, key) {
      forall i | 0 <= i < |keys| ensures Before(keys[i], key) {
        assert keys[i] in keys && PassedAt(db, mailbox, entry, last, keys, keys[i]);
        Behind(last, keys[i], key);
      }
    }
  }

  lemma Behind(last: Option<string>, k: string, key: string)
    requires !Past(last, k) && Past(last, key)
    ensures Before(k, key)
  {
    BeforeTotal(last.value, k);
    if k != last.value {
      BeforeTransitive(k, last.value, key);
    }
  }

  lemma PassedAll(db: Db, mailbox: string, entry: string, last: Option<string>, keys: seq<string>)
    requires WellFormed(db) && Passed(db, mailbox, entry, last, keys)
    requires forall k :: !Ahead(db, ScanPrefix(mailbox, entry), last, k)
    ensures forall k {:trigger Selected(mailbox, entry, k)} :: k in keys <==> k in db && Selected(mailbox, entry, k)
  {
    forall k ensures k in keys <==> k in db && Selected(mailbox, entry, k) {
      assert PassedAt(db, mailbox, entry, last, keys, k);
      if k in db && Selected(mailbox, entry, k) && Past(last, k) {
        SelectedAhead(db, mailbox, entry, last, k);
      }
    }
  }

  /** What the full scan with both patterns shows: an entry of the plain map. */
  predicate ShownBy(db: Db, mailbox: string, entry: string, f: Found) {
    && ProperName(f.name) && Get(db, f.name) == Some(f.annotation)
    && Matches(mailbox, f.name.mailbox, '.') && Matches(entry, f.name.entry, '/')
  }

  lemma ShownInOrder(db: Db, mailbox: string, entry: string, keys: seq<string>, found: seq<Found>)
    requires WellFormed(db) && Increasing(keys)
    requires forall k {:trigger Selected(mailbox, entry, k)} :: k in keys <==> k in db && Selected(mailbox, entry, k)
    requires |found| == |keys| && forall i :: 0 <= i < |keys| ==> Shows(db, keys[i], found[i])
    ensures forall i :: 0 <= i < |found| ==> ShownBy(db, mailbox, entry, found[i])
    ensures forall i, j :: 0 <= i < j < |found| ==> Before(MakeKey(found[i].name), MakeKey(found[j].name))
  {
    forall i | 0 <= i < |found| ensures ShownBy(db, mailbox, entry, found[i]) && MakeKey(found[i].name) == keys[i] {
      assert Shows(db, keys[i], found[i]) && GoodEntry(db, keys[i]);
      assert keys[i] in keys;
      assert Selected(mailbox, entry, keys[i]);
    }
  }

  lemma AllShown(db: Db, mailbox: string, entry: string, keys: seq<string>, found: seq<Found>)
    requires WellFormed(db)
    requires forall k {:trigger Selected(mailbox, entry, k)} :: k in keys <==> k in db && Selected(mailbox, entry, k)
    requires |found| == |keys| && forall i :: 0 <= i < |keys| ==> Shows(db, keys[i], found[i])
    ensures forall n :: ProperName(n) && Get(db, n).Some? && Matches(mailbox, n.mailbox, '.') && Matches(entry, n.entry, '/')
                        ==> exists i :: 0 <= i < |found| && found[i].name == n
  {
    forall n | ProperName(n) && Get(db, n).Some? && Matches(mailbox, n.mailbox, '.') && Matches(entry, n.entry, '/')
      ensures exists i :: 0 <= i < |found| && found[i].name == n
    {
      var key := MakeKey(n);
      NameOfKey(n);
      assert Selected(mailbox, entry, key);
      var i :| 0 <= i < |keys| && keys[i] == key;
      assert Shows(db, keys[i], found[i]);
      assert found[i].name == n;
    }
  }

  /** The keys still to come get fewer. */
  lemma Furthest(db: Db, last: Option<string>, key: string, left: set<string>)
    requires forall k {:trigger Past(last, k)} :: k in db && Past(last, k) ==> k in left
    requires Past(last, key)
    ensures forall k {:trigger Past(Some(key), k)} :: k in db && Past(Some(key), k) ==> k in left - {key}
  {
    forall k | k in db && Past(Some(key), k) ensures k in left - {key} {
      Beyond(last, key, k);
    }
  }

  /** Under the old name the scan sees what it has not moved yet, and none of its own writes. */
  lemma AheadWhileMoving(db: Db, mv: Move, last: Option<string>, keys: seq<string>, k: string)
    requires WellFormed(db) && ProperMove(mv) && AllMove(db, mv, keys) && Passed(db, mv.from, "*", last, keys)
    ensures Ahead(Moved(db, mv, keys), mv.from + [NUL], last, k) <==> Ahead(db, mv.from + [NUL], last, k)
    ensures Ahead(db, mv.from + [NUL], last, k) ==> Moved(db, mv, keys)[k] == db[k]
  {
    MovedAt(db, mv, keys, k);
    assert PassedAt(db, mv.from, "*", last, keys, k);
    if Under(mv, k) && Past(last, k) {
      assert Lookup(Moved(db, mv, keys), k) == Lookup(db, k);
    }
  }

  lemma SelectedUnder(db: Db, mv: Move, k: string)
    requires WellFormed(db) && ProperMove(mv) && k in db
    ensures Selected(mv.from, "*", k) <==> Under(mv, k)
  {
    assert GoodEntry(db, k);
    PrefixOfMailbox(mv.from, NameOf(k));
    FixedMatches(mv.from, NameOf(k).mailbox, '.');
    StarMatches(NameOf(k).entry, '/');
  }

  /** The scan goes on as if nothing had been written. */
  lemma ScanStep(db: Db, mv: Move, last: Option<string>, keys: seq<string>, key: string)
    requires WellFormed(db) && ProperMove(mv) && AllMove(db, mv, keys) && Passed(db, mv.from, "*", last, keys)
    requires IsNext(Moved(db, mv, keys), ScanPrefix(mv.from, "*"), last, key)
    ensures Moves(db, mv, key) && Moved(db, mv, keys)[key] == db[key] && GoodEntry(Moved(db, mv, keys), key)
    ensures Passed(db, mv.from, "*", Some(key), keys + [key]) && AllMove(db, mv, keys + [key])
    ensures Moved(db, mv, keys + [key]) == MoveOne(Moved(db, mv, keys), mv, key, db[key])
  {
    NextOfOriginal(db, mv, last, keys, key);
    SelectedUnder(db, mv, key);
    assert GoodEntry(db, key);
    PassedOneMore(db, mv.from, "*", last, keys, key);
    assert (keys + [key])[..|keys|] == keys;
  }

  lemma NextOfOriginal(db: Db, mv: Move, last: Option<string>, keys: seq<string>, key: string)
    requires WellFormed(db) && ProperMove(mv) && AllMove(db, mv, keys) && Passed(db, mv.from, "*", last, keys)
    requires IsNext(Moved(db, mv, keys), ScanPrefix(mv.from, "*"), last, key)
    ensures IsNext(db, ScanPrefix(mv.from, "*"), last, key) && Under(mv, key) && Moved(db, mv, keys)[key] == db[key]
  {
    ScanPrefixOf(mv);
    AheadWhileMoving(db, mv, last, keys, key);
    forall k ensures Ahead(db, mv.from + [NUL], last, k) ==> !Before(k, key) {
      AheadWhileMoving(db, mv, last, keys, k);
    }
  }

  lemma ScanPrefixOf(mv: Move)
    requires ProperMove(mv)
    ensures ScanPrefix(mv.from, "*") == mv.from + [NUL]
  {
    PrefixOfMailbox(mv.from, Name("", "", ""));
  }

  lemma ScanEnds(db: Db, mv: Move, last: Option<string>, keys: seq<string>)
    requires WellFormed(db) && ProperMove(mv) && AllMove(db, mv, keys) && Passed(db, mv.from, "*", last, keys)
    requires forall k :: !Ahead(Moved(db, mv, keys), ScanPrefix(mv.from, "*"), last, k)
    ensures ListsAll(db, mv, keys) && Increasing(keys)
  {
    ScanPrefixOf(mv);
    forall k ensures !Ahead(db, mv.from + [NUL], last, k) {
      AheadWhileMoving(db, mv, last, keys, k);
    }
    PassedAll(db, mv.from, "*", last, keys);
    forall k | Moves(db, mv, k) ensures k in keys {
      SelectedUnder(db, mv, k);
    }
  }

  lemma WrittenIsRead(db: Db, n: Name, value: string, contenttype: Option<string>, modified: nat)
    requires WellFormed(db) && ProperName(n) && NulFree(value) && (contenttype.Some? ==> NulFree(contenttype.value))
    requires |MakeKey(n)| <= BUFFER && (value != "NIL" ==> |Encode(value, TypeOf(contenttype), modified)| <= BUFFER)
    ensures WellFormed(Written(db, n, value, contenttype, modified))
    ensures Get(Written(db, n, value, contenttype, modified), n) ==
            if value == "NIL" then None else Some(Annotation(value, TypeOf(contenttype), modified % TWO_32, |value|))
    ensures forall m {:trigger Get(db, m)} ::
              ProperName(m) && m != n ==> Get(Written(db, n, value, contenttype, modified), m) == Get(db, m)
  {
    WrittenStaysGood(db, n, value, contenttype, modified);
    WriteThenRead(db, n, value, contenttype, modified, n);
    forall m | ProperName(m) && m != n ensures Get(Written(db, n, value, contenttype, modified), m) == Get(db, m) {
      WriteThenRead(db, n, value, contenttype, modified, m);
    }
  }

  class Store {
    var committed: Db
    /** The open transaction's view. */
    var txn: Option<Db>
    /** How many more updates the database accepts. */
    var room: nat

    ghost predicate Valid()
      reads this
    {
      WellFormed(committed) && (txn.Some? ==> WellFormed(txn.value))
    }

    function View(): Db
      reads this
    {
      if txn.Some? then txn.value else committed
    }

    constructor (updates: nat)
      ensures Valid() && committed == map[] && txn == None && room == updates
    {
      committed := map[];
      txn := None;
      room := updates;
    }

    /** DB->store, or DB->delete (a missing key is no error); `within` the transaction, or committed at once. */
    method Update(key: string, data: Option<string>, within: bool) returns (ok: bool)
      modifies this
      ensures ok <==> old(room) > 0
      ensures room == if ok then old(room) - 1 else 0
      ensures !ok ==> txn == old(txn) && committed == old(committed)
      ensures ok && within ==> committed == old(committed)
                               && txn == Some(if data.Some? then old(View())[key := data.value] else old(View()) - {key})
      ensures ok && !within ==> txn == old(txn)
                                && committed == if data.Some? then old(committed)[key := data.value] else old(committed) - {key}
    {
      if room == 0 {
        return false;
      }
      room := room - 1;
      var db := if within then View() else committed;
      db := if data.Some? then db[key := data.value] else db - {key};
      if within {
        txn := Some(db);
      } else {
        committed := db;
      }
      return true;
    }

    /** write_entry */
    method WriteEntry(n: Name, value: string, contenttype: Option<string>, modified: nat, within: bool) returns (ok: bool)
      requires |MakeKey(n)| <= BUFFER
      requires value != "NIL" ==> |Encode(value, TypeOf(contenttype), modified)| <= BUFFER
      modifies this
      ensures ok <==> old(room) > 0
      ensures room == if ok then old(room) - 1 else 0
      ensures !ok ==> txn == old(txn) && committed == old(committed)
      ensures ok && within ==> committed == old(committed) && txn == Some(Written(old(View()), n, value, contenttype, modified))
      ensures ok && !within ==> txn == old(txn) && committed == Written(old(committed), n, value, contenttype, modified)
    {
      var key := new char[BUFFER];
      var keylen := PackKey(n.mailbox, n.entry, Some(n.userid), key);
      if value == "NIL" {
        ok := Update(key[..keylen], None, within);
      } else {
        var data := new char[BUFFER];
        var datalen := PackRecord(value, TypeOf(contenttype), modified, data);
        ok := Update(key[..keylen], Some(data[..datalen]), within);
      }
    }

    /** annotatemore_write_entry outside a transaction; no value deletes, no time is the time of the call. */
    method Write(n: Name, value: Option<string>, contenttype: Option<string>, modified: nat, now: nat) returns (ok: bool)
      requires Valid() && ProperName(n) && (value.Some? ==> NulFree(value.value))
      requires contenttype.Some? ==> NulFree(contenttype.value)
      requires |MakeKey(n)| <= BUFFER
      requires value.Some? && value.value != "NIL" ==> |Encode(value.value, TypeOf(contenttype), modified)| <= BUFFER
      modifies this
      ensures Valid() && txn == old(txn)
      ensures ok <==> old(room) > 0
      ensures !ok ==> committed == old(committed)
      ensures ok ==> Get(committed, n) ==
                     if value == None || value == Some("NIL") then None
                     else Some(Annotation(value.value, TypeOf(contenttype), (if modified == 0 then now else modified) % TWO_32,
                                          |value.value|))
      ensures ok ==> forall m {:trigger Get(old(committed), m)} :: ProperName(m) && m != n ==> Get(committed, m) == Get(old(committed), m)
    {
      var written := if value.Some? then value.value else "NIL";
      var time := if modified == 0 then now else modified;
      ok := WriteEntry(n, written, contenttype, time, false);
      if ok {
        WrittenIsRead(old(committed), n, written, contenttype, time);
      }
    }

    /** annotatemore_lookup */
    method Find(n: Name) returns (found: Option<Annotation>)
      requires |MakeKey(n)| <= BUFFER
      ensures found == Get(committed, n)
    {
      var key := new char[BUFFER];
      var keylen := PackKey(n.mailbox, n.entry, Some(n.userid), key);
      found := if key[..keylen] in committed then Decode(committed[key[..keylen]]) else None;
    }

    /** annotatemore_findall: what a scan of the whole database with the two patterns would show, in key order. */
    method FindAll(mailbox: string, entry: string) returns (found: seq<Found>)
      requires Valid() && |mailbox| + |entry| + 2 <= BUFFER
      ensures forall i :: 0 <= i < |found| ==> ShownBy(View(), mailbox, entry, found[i])
      ensures forall n :: ProperName(n) && Get(View(), n).Some? && Matches(mailbox, n.mailbox, '.') && Matches(entry, n.entry, '/')
                          ==> exists i :: 0 <= i < |found| && found[i].name == n
      ensures forall i, j :: 0 <= i < j < |found| ==> Before(MakeKey(found[i].name), MakeKey(found[j].name))
    {
      var db := View();
      var prefix := PackPrefix(mailbox, entry);
      var last: Option<string> := None;
      found := [];
      ghost var keys: seq<string>, left := [], db.Keys;
      while true
        invariant left <= db.Keys && forall k {:trigger Past(last, k)} :: k in db && Past(last, k) ==> k in left
        invariant Passed(db, mailbox, entry, last, keys)
        invariant |found| == |keys| && forall i :: 0 <= i < |keys| ==> Shows(db, keys[i], found[i])
        decreases left
      {
        var next := Next(db, prefix, last);
        if next.None? {
          PassedAll(db, mailbox, entry, last, keys);
          break;
        }
        var key := next.value;
        assert GoodEntry(db, key);
        PassedOneMore(db, mailbox, entry, last, keys, key);
        Furthest(db, last, key, left);
        if Selected(mailbox, entry, key) {
          found, keys := found + [Found(NameOf(key), Decode(db[key]).value)], keys + [key];
        }
        last, left := next, left - {key};
      }
      ShownInOrder(db, mailbox, entry, keys, found);
      AllShown(db, mailbox, entry, keys, found);
    }

    /** The callback of the rename: write under the new name, then delete. */
    method RenameEntry(mv: Move, key: string, annotation: Annotation) returns (ok: bool)
      requires key in View() && GoodEntry(View(), key) && Decode(View()[key]) == Some(annotation)
      requires mv.to.Some? ==> |TargetKey(mv, key)| <= BUFFER
      modifies this
      ensures committed == old(committed)
      ensures ok ==> txn == Some(MoveOne(old(View()), mv, key, old(View())[key]))
      ensures old(room) >= 2 ==> ok && room >= old(room) - 2
    {
      var n := NameOf(key);
      ghost var db := View();
      ok := true;
      if mv.to.Some? {
        ok := WriteEntry(Target(mv, n), annotation.value, Some(annotation.contenttype), annotation.modified, true);
      }
      if ok {
        ok := WriteEntry(n, "NIL", Some(annotation.contenttype), annotation.modified, true);
      }
    }

    /** annotatemore_rename; whether the commit takes effect is not looked at.  A deletion has no new name. */
    method Rename(mv: Move, commits: bool) returns (ok: bool)
      requires Valid() && txn == None && ProperMove(mv) && |mv.from| + 3 <= BUFFER && TargetsFit(committed, mv)
      modifies this
      ensures Valid() && txn == None
      ensures ok && commits ==> Renamed(old(committed), mv, committed)
      ensures !ok || !commits ==> committed == old(committed)
      ensures old(room) >= 2 * |old(committed)| ==> ok
    {
      hide Renamed, RenamedAt;
      var prefix := PackPrefix(mv.from, "*");
      var last: Option<string> := None;
      ghost var db, keys, left := committed, [], committed.Keys;
      ok := true;
      txn := Some(committed);
      while true
        invariant committed == db && txn.Some?
        invariant left <= db.Keys && forall k {:trigger Past(last, k)} :: k in db && Past(last, k) ==> k in left
        invariant Passed(db, mv.from, "*", last, keys) && AllMove(db, mv, keys)
        invariant ok && txn.value == Moved(db, mv, keys)
        invariant room >= 2 * |left| || old(room) < 2 * |db|
        decreases left
      {
        var next := Next(txn.value, prefix, last);
        if next.None? {
          ScanEnds(db, mv, last, keys);
          break;
        }
        var key := next.value;
        ScanStep(db, mv, last, keys, key);
        Furthest(db, last, key, left);
        ok := RenameEntry(mv, key, Decode(txn.value[key]).value);
        if !ok {
          break;
        }
        keys, last, left := keys + [key], next, left - {key};
      }
      if ok && commits {
        committed := txn.value;
        MovedIsRenamed(db, mv, keys);
        RenamedStaysGood(db, mv, committed);
      }
      txn := None;
    }
  }
}
