/**
 What renaming the annotations of a mailbox means: entry after entry, in key order, each is written under its
 new name and deleted under the old one.
 */
module AnnotationRename {
  import opened Wrappers
  import opened KeyOrder
  import opened AnnotationKeys

  /** A rename; without a new name, a deletion.  With both users, the old user's private entries become the new one's. */
  datatype Move = Move(from: string, to: Option<string>, olduser: Option<string>, newuser: Option<string>)

  /** What the rename relies on: real mailbox names, different ones when a user is renamed. */
  predicate ProperMove(mv: Move) {
    && NulFree(mv.from) && IsFixed(mv.from)
    && (mv.to.Some? ==> NulFree(mv.to.value)) && (Onto(mv) ==> mv.olduser == None)
    && (mv.olduser.Some? ==> NulFree(mv.olduser.value)) && (mv.newuser.Some? ==> NulFree(mv.newuser.value))
  }

  /** The rename of a mailbox onto itself, as a move to another partition asks for. */
  predicate Onto(mv: Move) {
    mv.to == Some(mv.from)
  }

  function Rekeyed(mv: Move, userid: string): string {
    if mv.olduser == Some(userid) && mv.newuser.Some? then mv.newuser.value else userid
  }

  function Target(mv: Move, n: Name): Name
    requires mv.to.Some?
  {
    Name(mv.to.value, n.entry, Rekeyed(mv, n.userid))
  }

  function TargetKey(mv: Move, key: string): string
    requires mv.to.Some?
  {
    MakeKey(Target(mv, NameOf(key)))
  }

  predicate Under(mv: Move, key: string) {
    mv.from + [NUL] <= key
  }

  /** A key of the old mailbox. */
  predicate Moves(db: Db, mv: Move, key: string) {
    key in db && Under(mv, key)
  }

  predicate AllMove(db: Db, mv: Move, keys: seq<string>) {
    forall i :: 0 <= i < |keys| ==> Moves(db, mv, keys[i])
  }

  /** The database after the entries `keys` have been moved, in this order. */
  function Moved(db: Db, mv: Move, keys: seq<string>): Db
    requires AllMove(db, mv, keys)
  {
    if keys == [] then db
    else
      var key := keys[|keys| - 1];
      assert Moves(db, mv, key);
      MoveOne(Moved(db, mv, keys[..|keys| - 1]), mv, key, db[key])
  }

  /** rename_cb: write under the new name, then delete. */
  function MoveOne(db: Db, mv: Move, key: string, data: string): Db {
    (if mv.to.Some? then db[TargetKey(mv, key) := data] else db) - {key}
  }

  /** The last of the keys that was written to `x`. */
  function LastSource(mv: Move, keys: seq<string>, x: string): (r: Option<string>)
    ensures r.Some? ==> r.value in keys
  {
    if keys == [] then None
    else if IsTarget(mv, keys[|keys| - 1], x) then Some(keys[|keys| - 1])
    else LastSource(mv, keys[..|keys| - 1], x)
  }

  predicate IsTarget(mv: Move, key: string, x: string) {
    mv.to.Some? && TargetKey(mv, key) == x
  }

  /** What is written under the new name is never under the old one: the scan does not meet its own writes. */
  lemma TargetNotUnder(db: Db, mv: Move, key: string)
    requires ProperMove(mv) && mv.to.Some? && key in db && GoodEntry(db, key)
    ensures !Onto(mv) ==> !Under(mv, TargetKey(mv, key))
    ensures Onto(mv) && Under(mv, key) ==> TargetKey(mv, key) == key
    ensures ProperName(Target(mv, NameOf(key)))
  {
    PrefixOfMailbox(mv.from, NameOf(key));
    PrefixOfMailbox(mv.from, Target(mv, NameOf(key)));
  }

  lemma MoveOneAt(db: Db, mv: Move, key: string, data: string, x: string)
    ensures Lookup(MoveOne(db, mv, key, data), x) ==
            if x == key then None else if IsTarget(mv, key, x) then Some(data) else Lookup(db, x)
  {
  }

  /** What is found under `x` when some entries have been moved. */
  lemma {:induction false} MovedAt(db: Db, mv: Move, keys: seq<string>, x: string)
    requires WellFormed(db) && ProperMove(mv) && AllMove(db, mv, keys)
    ensures LastSource(mv, keys, x).Some? ==> LastSource(mv, keys, x).value in db && (!Under(mv, x) || x in keys)
    ensures Lookup(Moved(db, mv, keys), x) ==
            if x in keys then None
            else if LastSource(mv, keys, x).Some? then Some(db[LastSource(mv, keys, x).value])
            else Lookup(db, x)
  {
    if keys != [] {
      var key, front := keys[|keys| - 1], keys[..|keys| - 1];
      assert Moves(db, mv, key) && GoodEntry(db, key);
      assert forall i :: 0 <= i < |front| ==> front[i] == keys[i];
      MovedAt(db, mv, front, x);
      MoveOneAt(Moved(db, mv, front), mv, key, db[key], x);
      assert x in keys <==> x in front || x == key;
      if x in keys {
        assert Moves(db, mv, x);
      }
      if mv.to.Some? {
        TargetNotUnder(db, mv, key);
      }
    }
  }

  /** `k` is an entry that the rename writes to `x`. */
  ghost predicate Source(db: Db, mv: Move, k: string, x: string) {
    Moves(db, mv, k) && IsTarget(mv, k, x)
  }

  ghost predicate Greatest(db: Db, mv: Move, k: string, x: string) {
    Source(db, mv, k, x) && forall i :: Source(db, mv, i, x) ==> !Before(k, i)
  }

  /** What is found under `x` after the rename: what was there or, if entries are moved there, the last of them. */
  ghost predicate RenamedAt(db: Db, mv: Move, db': Db, x: string) {
    if Under(mv, x) then x !in db'
    else
      || (Lookup(db', x) == Lookup(db, x) && forall k :: !Source(db, mv, k, x))
      || (exists k :: Greatest(db, mv, k, x) && Lookup(db', x) == Some(db[k]))
  }

  ghost predicate Renamed(db: Db, mv: Move, db': Db) {
    forall x :: RenamedAt(db, mv, db', x)
  }

  /** Nothing of the old mailbox is missing from the list. */
  ghost predicate ListsAll(db: Db, mv: Move, keys: seq<string>) {
    forall k {:trigger Moves(db, mv, k)} :: Moves(db, mv, k) ==> k in keys
  }

  lemma {:induction false} LastIsGreatest(mv: Move, keys: seq<string>, x: string, k: string)
    requires Increasing(keys) && k in keys && IsTarget(mv, k, x)
    ensures LastSource(mv, keys, x).Some? && IsTarget(mv, LastSource(mv, keys, x).value, x)
    ensures !Before(LastSource(mv, keys, x).value, k)
  {
    var last := keys[|keys| - 1];
    if IsTarget(mv, last, x) {
      if Before(last, k) && k != last {
        var i :| 0 <= i < |keys| && keys[i] == k;
        BeforeTransitive(k, last, k);
      }
      BeforeIrreflexive(k);
    } else {
      LastIsGreatest(mv, keys[..|keys| - 1], x, k);
    }
  }

  lemma {:induction false} LastIsTarget(mv: Move, keys: seq<string>, x: string)
    requires LastSource(mv, keys, x).Some?
    ensures IsTarget(mv, LastSource(mv, keys, x).value, x)
  {
    if !IsTarget(mv, keys[|keys| - 1], x) {
      LastIsTarget(mv, keys[..|keys| - 1], x);
    }
  }

  /** Moving all of them in key order is the rename. */
  lemma MovedIsRenamed(db: Db, mv: Move, keys: seq<string>)
    requires WellFormed(db) && ProperMove(mv) && AllMove(db, mv, keys) && ListsAll(db, mv, keys) && Increasing(keys)
    ensures Renamed(db, mv, Moved(db, mv, keys))
  {
    forall x ensures RenamedAt(db, mv, Moved(db, mv, keys), x) {
      MovedRenamesAt(db, mv, keys, x);
    }
  }

  lemma MovedRenamesAt(db: Db, mv: Move, keys: seq<string>, x: string)
    requires WellFormed(db) && ProperMove(mv) && AllMove(db, mv, keys) && ListsAll(db, mv, keys) && Increasing(keys)
    ensures RenamedAt(db, mv, Moved(db, mv, keys), x)
  {
    MovedAt(db, mv, keys, x);
    var last := LastSource(mv, keys, x);
    if Under(mv, x) {
      if x in db {
        assert Moves(db, mv, x);
      }
    } else {
      forall k | Source(db, mv, k, x) ensures last.Some? && !Before(last.value, k) {
        LastIsGreatest(mv, keys, x, k);
      }
      if last.Some? {
        LastIsTarget(mv, keys, x);
        assert Moves(db, mv, last.value);
        assert Greatest(db, mv, last.value, x);
      }
    }
  }

  /** Two entries of the old mailbox that end up under one name: the same entry, of the old and of the new user. */
  predicate Clash(db: Db, mv: Move, entry: string) {
    && mv.to.Some? && mv.olduser.Some? && mv.newuser.Some?
    && MakeKey(Name(mv.from, entry, mv.olduser.value)) in db
    && MakeKey(Name(mv.from, entry, mv.newuser.value)) in db
    && Get(db, Name(mv.from, entry, mv.olduser.value)) != Get(db, Name(mv.from, entry, mv.newuser.value))
  }

  /** The entries that move to one name differ only in the user, and only as a clash allows. */
  lemma SourcesOfOne(db: Db, mv: Move, j: string, k: string, x: string)
    requires WellFormed(db) && ProperMove(mv) && Source(db, mv, j, x) && Source(db, mv, k, x) && j != k
    ensures NameOf(j).entry == NameOf(k).entry
    ensures mv.olduser.Some? && mv.newuser.Some?
    ensures {NameOf(j).userid, NameOf(k).userid} == {mv.olduser.value, mv.newuser.value}
    ensures NameOf(j).mailbox == mv.from && NameOf(k).mailbox == mv.from
  {
    assert GoodEntry(db, j) && GoodEntry(db, k);
    TargetNotUnder(db, mv, j);
    TargetNotUnder(db, mv, k);
    KeysDiffer(Target(mv, NameOf(j)), Target(mv, NameOf(k)));
    PrefixOfMailbox(mv.from, NameOf(j));
    PrefixOfMailbox(mv.from, NameOf(k));
  }

  /** The entry `n` of the old mailbox is found, unchanged, under its new name. */
  ghost predicate KeptByMove(db: Db, mv: Move, db': Db, n: Name)
    requires mv.to.Some?
  {
    ProperName(n) && n.mailbox == mv.from && Get(db, n).Some? ==> Get(db', Target(mv, n)) == Get(db, n)
  }

  ghost predicate KeepsEvery(db: Db, mv: Move, db': Db)
    requires mv.to.Some?
  {
    forall n :: KeptByMove(db, mv, db', n)
  }

  lemma PresentDecodes(db: Db, n: Name)
    requires WellFormed(db) && ProperName(n)
    ensures Get(db, n).Some? <==> MakeKey(n) in db
  {
    if MakeKey(n) in db {
      assert GoodEntry(db, MakeKey(n));
    }
  }

  lemma MovesItself(db: Db, mv: Move, n: Name)
    requires WellFormed(db) && ProperMove(mv) && ProperName(n) && n.mailbox == mv.from && MakeKey(n) in db && mv.to.Some?
    requires !Onto(mv)
    ensures Source(db, mv, MakeKey(n), MakeKey(Target(mv, n))) && !Under(mv, MakeKey(Target(mv, n)))
    ensures NameOf(MakeKey(n)) == n
  {
    NameOfKey(n);
    PrefixOfMailbox(mv.from, n);
    assert GoodEntry(db, MakeKey(n));
    TargetNotUnder(db, mv, MakeKey(n));
  }

  /** The same annotation is read from entries that move to one name, unless they clash. */
  lemma SourcesAgree(db: Db, mv: Move, j: string, k: string, x: string)
    requires WellFormed(db) && ProperMove(mv) && Source(db, mv, j, x) && Source(db, mv, k, x)
    requires !Clash(db, mv, NameOf(k).entry)
    ensures Decode(db[j]) == Decode(db[k])
  {
    if j != k {
      SourcesOfOne(db, mv, j, k, x);
      var a, b := NameOf(j), NameOf(k);
      assert GoodEntry(db, j) && GoodEntry(db, k);
      assert Get(db, a) == Decode(db[j]) && Get(db, b) == Decode(db[k]);
      if a.userid == mv.olduser.value {
        assert a == Name(mv.from, b.entry, mv.olduser.value) && b == Name(mv.from, b.entry, mv.newuser.value);
      } else {
        assert b == Name(mv.from, b.entry, mv.olduser.value) && a == Name(mv.from, b.entry, mv.newuser.value);
      }
    }
  }

  /** Without a clash an entry keeps its value, content type, size and time. */
  lemma KeptWithoutClash(db: Db, mv: Move, db': Db, n: Name)
    requires WellFormed(db) && ProperMove(mv) && Renamed(db, mv, db') && mv.to.Some?
    requires ProperName(n) && n.mailbox == mv.from && !Clash(db, mv, n.entry)
    requires !Onto(mv)
    ensures KeptByMove(db, mv, db', n)
  {
    if MakeKey(n) in db {
      var k, x := MakeKey(n), MakeKey(Target(mv, n));
      MovesItself(db, mv, n);
      assert RenamedAt(db, mv, db', x);
      var j :| Greatest(db, mv, j, x) && Lookup(db', x) == Some(db[j]);
      SourcesAgree(db, mv, j, k, x);
    }
  }

  /** The renamed user's private entries are the new user's afterwards; shared ones and those of others stay whose they are. */
  lemma WhoseAfterwards(db: Db, mv: Move, db': Db, to: string, olduser: string, newuser: string, entry: string, userid: string)
    requires WellFormed(db) && ProperMove(mv) && Renamed(db, mv, db')
    requires mv == Move(mv.from, Some(to), Some(olduser), Some(newuser)) && to != mv.from
    requires NulFree(entry) && NulFree(userid) && !Clash(db, mv, entry) && Get(db, Name(mv.from, entry, userid)).Some?
    ensures Get(db', Name(to, entry, if userid == olduser then newuser else userid)) == Get(db, Name(mv.from, entry, userid))
  {
    var n := Name(mv.from, entry, userid);
    KeptWithoutClash(db, mv, db', n);
    PresentDecodes(db, n);
    assert Target(mv, n) == Name(to, entry, if userid == olduser then newuser else userid);
  }

  /** With a clash one of the two is lost. */
  lemma ClashLoses(db: Db, mv: Move, db': Db, entry: string)
    requires WellFormed(db) && ProperMove(mv) && mv.to.Some? && Clash(db, mv, entry) && NulFree(entry)
    ensures !KeepsEvery(db, mv, db')
  {
    var a, b := Name(mv.from, entry, mv.olduser.value), Name(mv.from, entry, mv.newuser.value);
    PresentDecodes(db, a);
    PresentDecodes(db, b);
    assert Target(mv, a) == Target(mv, b);
    assert !KeptByMove(db, mv, db', a) || !KeptByMove(db, mv, db', b);
  }

  /** Renamed onto itself a mailbox loses its annotations. */
  lemma OntoLoses(db: Db, mv: Move, db': Db, key: string)
    requires WellFormed(db) && ProperMove(mv) && Renamed(db, mv, db') && Onto(mv) && Moves(db, mv, key)
    ensures !KeepsEvery(db, mv, db')
  {
    assert GoodEntry(db, key) && RenamedAt(db, mv, db', key);
    PrefixOfMailbox(mv.from, NameOf(key));
    assert Target(mv, NameOf(key)) == NameOf(key);
    assert !KeptByMove(db, mv, db', NameOf(key));
  }

  lemma OntoNothing(db: Db, mv: Move, db': Db)
    requires WellFormed(db) && ProperMove(mv) && Onto(mv) && forall key :: !Moves(db, mv, key)
    ensures KeepsEvery(db, mv, db')
  {
    forall n ensures KeptByMove(db, mv, db', n) {
      if ProperName(n) && n.mailbox == mv.from {
        PrefixOfMailbox(mv.from, n);
        assert !Moves(db, mv, MakeKey(n));
      }
    }
  }

  /** A rename keeps every annotation exactly when it is to another name and no entry of the old user has a
      different one of the new user; onto itself only when there is none to lose. */
  lemma KeepsEveryIff(db: Db, mv: Move, db': Db)
    requires WellFormed(db) && ProperMove(mv) && Renamed(db, mv, db') && mv.to.Some?
    ensures KeepsEvery(db, mv, db') <==>
            && (Onto(mv) ==> forall key :: !Moves(db, mv, key))
            && forall entry {:trigger Clash(db, mv, entry)} :: NulFree(entry) ==> !Clash(db, mv, entry)
  {
    if Onto(mv) {
      if key :| Moves(db, mv, key) {
        OntoLoses(db, mv, db', key);
      } else {
        OntoNothing(db, mv, db');
      }
    } else if entry {:trigger Clash(db, mv, entry)} :| NulFree(entry) && Clash(db, mv, entry) {
      ClashLoses(db, mv, db', entry);
    } else {
      forall n ensures KeptByMove(db, mv, db', n) {
        if ProperName(n) && n.mailbox == mv.from {
          KeptWithoutClash(db, mv, db', n);
        }
      }
    }
  }

  lemma UntouchedAt(db: Db, mv: Move, db': Db, n: Name)
    requires WellFormed(db) && ProperMove(mv) && Renamed(db, mv, db') && ProperName(n)
    requires n.mailbox != mv.from && mv.to != Some(n.mailbox)
    ensures Lookup(db', MakeKey(n)) == Lookup(db, MakeKey(n))
  {
    var x := MakeKey(n);
    PrefixOfMailbox(mv.from, n);
    assert RenamedAt(db, mv, db', x);
    if k :| Source(db, mv, k, x) {
      SourceName(db, mv, k, n);
    }
  }

  /** Nothing is left under the old name, and no third mailbox is touched. */
  lemma OthersUntouched(db: Db, mv: Move, db': Db, n: Name)
    requires WellFormed(db) && ProperMove(mv) && Renamed(db, mv, db') && ProperName(n)
    ensures n.mailbox == mv.from ==> Get(db', n) == None
    ensures n.mailbox != mv.from && mv.to != Some(n.mailbox) ==> Get(db', n) == Get(db, n)
  {
    PrefixOfMailbox(mv.from, n);
    assert RenamedAt(db, mv, db', MakeKey(n));
    if n.mailbox != mv.from && mv.to != Some(n.mailbox) {
      UntouchedAt(db, mv, db', n);
    }
  }

  /** An annotation of the new mailbox was there before or comes from the old mailbox. */
  lemma NothingInvented(db: Db, mv: Move, db': Db, n: Name)
    requires WellFormed(db) && ProperMove(mv) && Renamed(db, mv, db') && ProperName(n) && mv.to == Some(n.mailbox)
    requires !Onto(mv)
    ensures Get(db', n) == Get(db, n)
            || exists m :: ProperName(m) && m.mailbox == mv.from && Target(mv, m) == n && Get(db', n) == Get(db, m)
  {
    var x := MakeKey(n);
    PrefixOfMailbox(mv.from, n);
    assert RenamedAt(db, mv, db', x);
    if j :| Greatest(db, mv, j, x) && Lookup(db', x) == Some(db[j]) {
      SourceName(db, mv, j, n);
    }
  }

  lemma SourceName(db: Db, mv: Move, j: string, n: Name)
    requires WellFormed(db) && ProperMove(mv) && ProperName(n) && Source(db, mv, j, MakeKey(n))
    requires !Onto(mv)
    ensures ProperName(NameOf(j)) && NameOf(j).mailbox == mv.from && Target(mv, NameOf(j)) == n
    ensures Get(db, NameOf(j)) == Decode(db[j])
  {
    assert GoodEntry(db, j);
    TargetNotUnder(db, mv, j);
    KeysDiffer(Target(mv, NameOf(j)), n);
    PrefixOfMailbox(mv.from, NameOf(j));
  }

  /** The new names fit the buffers. */
  ghost predicate TargetsFit(db: Db, mv: Move) {
    forall k {:trigger Moves(db, mv, k)} :: Moves(db, mv, k) && mv.to.Some? ==> |TargetKey(mv, k)| <= BUFFER
  }

  lemma RenamedStaysGood(db: Db, mv: Move, db': Db)
    requires WellFormed(db) && ProperMove(mv) && Renamed(db, mv, db') && TargetsFit(db, mv)
    ensures WellFormed(db')
  {
    forall x | x in db' ensures GoodEntry(db', x) {
      assert RenamedAt(db, mv, db', x);
      if k :| Greatest(db, mv, k, x) && Lookup(db', x) == Some(db[k]) {
        assert Moves(db, mv, k) && GoodEntry(db, k);
        TargetNotUnder(db, mv, k);
        NameOfKey(Target(mv, NameOf(k)));
      } else {
        assert GoodEntry(db, x);
      }
    }
  }

  /** Renaming a mailbox, users unchanged, to a name without annotations carries the database over as it is. */
  lemma CarriedOver(db: Db, mv: Move, db': Db, n: Name)
    requires WellFormed(db) && ProperMove(mv) && Renamed(db, mv, db') && mv.newuser == None
    requires ProperName(n) && mv.to == Some(n.mailbox) && MakeKey(n) !in db
    requires !Onto(mv)
    ensures Lookup(db', MakeKey(n)) == Lookup(db, MakeKey(n.(mailbox := mv.from)))
  {
    var x, m := MakeKey(n), n.(mailbox := mv.from);
    PrefixOfMailbox(mv.from, n);
    assert RenamedAt(db, mv, db', x);
    if MakeKey(m) in db {
      MovesItself(db, mv, m);
    }
    if j :| Greatest(db, mv, j, x) && Lookup(db', x) == Some(db[j]) {
      SourceName(db, mv, j, n);
      assert NameOf(j) == m;
      assert GoodEntry(db, j);
    }
  }

  /** Renaming a mailbox to a name without annotations and back restores the database. */
  lemma RenameAndBack(db: Db, mv: Move, db': Db, back: Move, db'': Db)
    requires WellFormed(db) && ProperMove(mv) && Renamed(db, mv, db') && mv.newuser == None
    requires mv.to.Some? && TargetsFit(db, mv) && back == Move(mv.to.value, Some(mv.from), None, None)
    requires ProperMove(back) && Renamed(db', back, db'')
    requires forall k {:trigger Under(back, k)} :: k in db ==> !Under(back, k)
    requires !Onto(mv)
    ensures db'' == db
  {
    RenamedStaysGood(db, mv, db');
    forall x ensures Lookup(db'', x) == Lookup(db, x) {
      BackAt(db, mv, db', back, db'', x);
    }
    forall x ensures x in db'' <==> x in db {
      assert Lookup(db'', x) == Lookup(db, x);
    }
    forall x | x in db ensures db''[x] == db[x] {
      assert Lookup(db'', x) == Lookup(db, x);
    }
  }

  lemma BackAt(db: Db, mv: Move, db': Db, back: Move, db'': Db, x: string)
    requires WellFormed(db) && ProperMove(mv) && Renamed(db, mv, db') && mv.newuser == None
    requires mv.to.Some? && WellFormed(db') && back == Move(mv.to.value, Some(mv.from), None, None)
    requires ProperMove(back) && Renamed(db', back, db'')
    requires forall k {:trigger Under(back, k)} :: k in db ==> !Under(back, k)
    requires !Onto(mv)
    ensures Lookup(db'', x) == Lookup(db, x)
  {
    assert RenamedAt(db, mv, db', x) && RenamedAt(db', back, db'', x);
    var n := NameOf(x);
    if Under(back, x) {
      assert x !in db'';
    } else if !(ProperName(n) && x == MakeKey(n)) {
      // no entry is called x, before or after
      NotAKey(db, mv, db', x);
      NotAKey(db', back, db'', x);
    } else if n.mailbox == mv.from {
      var m := n.(mailbox := mv.to.value);
      PrefixOfMailbox(mv.from, n);
      PrefixOfMailbox(mv.to.value, m);
      assert Under(back, MakeKey(m));
      CarriedOver(db, mv, db', m);
      CarriedOver(db', back, db'', n);
    } else {
      PrefixOfMailbox(mv.to.value, n);
      UntouchedAt(db, mv, db', n);
      UntouchedAt(db', back, db'', n);
    }
  }

  lemma NotAKey(db: Db, mv: Move, db': Db, x: string)
    requires WellFormed(db) && ProperMove(mv) && Renamed(db, mv, db')
    requires !(ProperName(NameOf(x)) && x == MakeKey(NameOf(x)))
    ensures x !in db && x !in db'
  {
    assert x in db ==> GoodEntry(db, x);
    assert RenamedAt(db, mv, db', x);
    if j :| Greatest(db, mv, j, x) && Lookup(db', x) == Some(db[j]) {
      assert GoodEntry(db, j);
      TargetNotUnder(db, mv, j);
      NameOfKey(Target(mv, NameOf(j)));
    }
  }
}
