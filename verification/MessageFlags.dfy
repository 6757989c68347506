/**
 The flags a client asks for when it appends a message: the loop shared by append_fromstage and
 append_fromstream, and what it leaves in the record, in the counters and in the flag table.
 */
module MessageFlags {
  import opened Wrappers
  import opened SeenRange
  import opened UserFlags

  datatype SystemFlag = ANSWERED | DELETED | DRAFT | FLAGGED

  /** What the user may do to the mailbox. */
  datatype Rights = Rights(write: bool, deleteMessages: bool)

  function SystemFlagOf(name: string): Option<SystemFlag> {
    if name == "\\deleted" then Some(DELETED)
    else if name == "\\draft" then Some(DRAFT)
    else if name == "\\flagged" then Some(FLAGGED)
    else if name == "\\answered" then Some(ANSWERED)
    else None
  }

  predicate IsSeen(name: string) {
    name == "\\seen"
  }

  predicate Permitted(rights: Rights, f: SystemFlag) {
    if f == DELETED then rights.deleteMessages else rights.write
  }

  predicate Sets(rights: Rights, name: string, f: SystemFlag) {
    SystemFlagOf(name) == Some(f) && Permitted(rights, f)
  }

  /** How often a list of flags sets a system flag that the user may set. */
  function Occurrences(rights: Rights, names: seq<string>, f: SystemFlag): nat {
    if names == [] then 0
    else Occurrences(rights, names[..|names| - 1], f) + (if Sets(rights, names[|names| - 1], f) then 1 else 0)
  }

  function SystemSet(rights: Rights, names: seq<string>): set<SystemFlag> {
    set f: SystemFlag | f in {ANSWERED, DELETED, DRAFT, FLAGGED} && Occurrences(rights, names, f) > 0
  }

  /** The user flags of a list, in order. */
  function UserNames(names: seq<string>): seq<string> {
    if names == [] then []
    else
      var name := names[|names| - 1];
      UserNames(names[..|names| - 1]) + (if IsSeen(name) || SystemFlagOf(name).Some? then [] else [name])
  }

  /** The user flags of a list that the user may set. */
  function Users(rights: Rights, names: seq<string>): seq<string> {
    if rights.write then UserNames(names) else []
  }

  predicate AsksSeen(names: seq<string>) {
    names != [] && (AsksSeen(names[..|names| - 1]) || IsSeen(names[|names| - 1]))
  }

  /** How often each flag is set: as often as the list names it, by those who may. */
  lemma {:induction false} OccurrencesAre(rights: Rights, names: seq<string>)
    ensures Occurrences(rights, names, ANSWERED) == if rights.write then multiset(names)["\\answered"] else 0
    ensures Occurrences(rights, names, FLAGGED) == if rights.write then multiset(names)["\\flagged"] else 0
    ensures Occurrences(rights, names, DRAFT) == if rights.write then multiset(names)["\\draft"] else 0
    ensures Occurrences(rights, names, DELETED) == if rights.deleteMessages then multiset(names)["\\deleted"] else 0
    decreases |names|
  {
    if names != [] {
      var n := |names| - 1;
      OccurrencesAre(rights, names[..n]);
      assert names == names[..n] + [names[n]];
    }
  }

  /** The record has exactly the system flags that the list names and the user may set. */
  predicate HasFlags(write: bool, deleteMessages: bool, names: seq<string>, system: set<SystemFlag>) {
    && (ANSWERED in system <==> write && "\\answered" in names)
    && (FLAGGED in system <==> write && "\\flagged" in names)
    && (DRAFT in system <==> write && "\\draft" in names)
    && (DELETED in system <==> deleteMessages && "\\deleted" in names)
  }

  lemma SystemSetMeans(rights: Rights, names: seq<string>)
    ensures HasFlags(rights.write, rights.deleteMessages, names, SystemSet(rights, names))
  {
    OccurrencesAre(rights, names);
  }

  lemma {:induction false} AsksSeenIff(names: seq<string>)
    ensures AsksSeen(names) <==> "\\seen" in names
    decreases |names|
  {
    if names != [] {
      AsksSeenIff(names[..|names| - 1]);
      assert names == names[..|names| - 1] + [names[|names| - 1]];
    }
  }

  /** Any other name is a user flag, for those who may write. */
  lemma {:induction false} UsersAre(rights: Rights, names: seq<string>, name: string)
    ensures name in Users(rights, names) <==>
            rights.write && name in names && name !in ["\\seen", "\\answered", "\\flagged", "\\draft", "\\deleted"]
    decreases |names|
  {
    if names != [] && rights.write {
      UsersAre(rights, names[..|names| - 1], name);
      assert names == names[..|names| - 1] + [names[|names| - 1]];
    }
  }

  /** No counted system flag is set twice by one list. */
  predicate NoneRepeated(rights: Rights, names: seq<string>) {
    forall f :: f in {ANSWERED, DELETED, FLAGGED} ==> Occurrences(rights, names, f) <= 1
  }

  /** What the loop adds to the counters of the append. */
  datatype Counts = Counts(answered: nat, deleted: nat, flagged: nat)

  function Plus(a: Counts, b: Counts): Counts {
    Counts(a.answered + b.answered, a.deleted + b.deleted, a.flagged + b.flagged)
  }

  function CountsOf(rights: Rights, names: seq<string>): Counts {
    Counts(Occurrences(rights, names, ANSWERED), Occurrences(rights, names, DELETED), Occurrences(rights, names, FLAGGED))
  }

  /** What one record contributes to the counters of the mailbox. */
  function CountsIn(system: set<SystemFlag>): Counts {
    Counts(if ANSWERED in system then 1 else 0, if DELETED in system then 1 else 0, if FLAGGED in system then 1 else 0)
  }

  predicate NotBehind(a: Counts, b: Counts) {
    a.answered >= b.answered && a.deleted >= b.deleted && a.flagged >= b.flagged
  }

  /** The counters never run behind the record, and are exact exactly when no flag is repeated. */
  lemma CountsExactIff(rights: Rights, names: seq<string>)
    ensures NotBehind(CountsOf(rights, names), CountsIn(SystemSet(rights, names)))
    ensures CountsOf(rights, names) == CountsIn(SystemSet(rights, names)) <==> NoneRepeated(rights, names)
  {
    var s := SystemSet(rights, names);
    assert ANSWERED in s <==> Occurrences(rights, names, ANSWERED) > 0;
    assert DELETED in s <==> Occurrences(rights, names, DELETED) > 0;
    assert FLAGGED in s <==> Occurrences(rights, names, FLAGGED) > 0;
  }

  lemma SystemSetGrows(rights: Rights, names: seq<string>, i: nat)
    requires i < |names|
    ensures SystemSet(rights, names[..i + 1]) ==
            SystemSet(rights, names[..i]) +
            (if SystemFlagOf(names[i]).Some? && Permitted(rights, SystemFlagOf(names[i]).value)
             then {SystemFlagOf(names[i]).value} else {})
    ensures CountsOf(rights, names[..i + 1]) ==
            Plus(CountsOf(rights, names[..i]),
                 if SystemFlagOf(names[i]).Some? && Permitted(rights, SystemFlagOf(names[i]).value)
                 then CountsIn({SystemFlagOf(names[i]).value}) else Counts(0, 0, 0))
  {
    assert names[..i + 1][..i] == names[..i];
    assert forall f :: Occurrences(rights, names[..i + 1], f) ==
                       Occurrences(rights, names[..i], f) + (if Sets(rights, names[i], f) then 1 else 0);
  }

  lemma UserNamesGrow(rights: Rights, names: seq<string>, i: nat)
    requires i < |names|
    ensures Users(rights, names[..i + 1]) ==
            Users(rights, names[..i]) +
            (if rights.write && !IsSeen(names[i]) && SystemFlagOf(names[i]).None? then [names[i]] else [])
  {
    assert names[..i + 1][..i] == names[..i];
  }

  /** The branches for system flags other than \Seen. */
  method ApplySystemFlag(rights: Rights, name: string, system: set<SystemFlag>, counts: Counts)
    returns (handled: bool, system': set<SystemFlag>, counts': Counts)
    ensures handled <==> SystemFlagOf(name).Some?
    ensures var sets := SystemFlagOf(name).Some? && Permitted(rights, SystemFlagOf(name).value);
            && system' == system + (if sets then {SystemFlagOf(name).value} else {})
            && counts' == Plus(counts, if sets then CountsIn({SystemFlagOf(name).value}) else Counts(0, 0, 0))
  {
    handled, system', counts' := true, system, counts;
    if name == "\\deleted" {
      if rights.deleteMessages {
        system', counts' := system + {DELETED}, counts.(deleted := counts.deleted + 1);
      }
    } else if name == "\\draft" {
      if rights.write {
        system' := system + {DRAFT};
      }
    } else if name == "\\flagged" {
      if rights.write {
        system', counts' := system + {FLAGGED}, counts.(flagged := counts.flagged + 1);
      }
    } else if name == "\\answered" {
      if rights.write {
        system', counts' := system + {ANSWERED}, counts.(answered := counts.answered + 1);
      }
    } else {
      handled := false;
    }
  }

  /** What the loop over the flags builds up. */
  datatype Applied = Applied(slots: Slots, bits: set<nat>, system: set<SystemFlag>, counts: Counts, uids: set<nat>)

  function Apply(rights: Rights, uid: nat, w: Applied, name: string): Applied {
    var f, s := SystemFlagOf(name), SlotFor(w.slots, name);
    if IsSeen(name) then w.(uids := w.uids + {uid})
    else if f.Some? then
      if Permitted(rights, f.value) then w.(system := w.system + {f.value}, counts := Plus(w.counts, CountsIn({f.value})))
      else w
    else if rights.write then
      w.(slots := WithName(w.slots, name), bits := w.bits + (if s.Some? then {s.value} else {}))
    else w
  }

  function ApplyAll(rights: Rights, uid: nat, w: Applied, names: seq<string>): Applied {
    if names == [] then w else Apply(rights, uid, ApplyAll(rights, uid, w, names[..|names| - 1]), names[|names| - 1])
  }

  lemma {:induction false} ApplyAllSlots(rights: Rights, uid: nat, w: Applied, names: seq<string>)
    requires w.bits == {}
    ensures var w' := ApplyAll(rights, uid, w, names);
            (w'.slots, w'.bits) == Requested(w.slots, Users(rights, names))
    decreases |names|
  {
    if names != [] {
      var n := |names| - 1;
      var users := Users(rights, names[..n]);
      ApplyAllSlots(rights, uid, w, names[..n]);
      assert names[..n + 1] == names;
      UserNamesGrow(rights, names, n);
      if rights.write && !IsSeen(names[n]) && SystemFlagOf(names[n]).None? {
        RequestedOneMore(w.slots, users, names[n]);
      } else {
        assert Users(rights, names) == users;
      }
    }
  }

  lemma {:induction false} ApplyAllSystem(rights: Rights, uid: nat, w: Applied, names: seq<string>)
    requires w.system == {} && w.counts == Counts(0, 0, 0)
    ensures var w' := ApplyAll(rights, uid, w, names);
            w'.system == SystemSet(rights, names) && w'.counts == CountsOf(rights, names)
    decreases |names|
  {
    if names == [] {
      assert SystemSet(rights, names) == {};
    } else {
      var n := |names| - 1;
      ApplyAllSystem(rights, uid, w, names[..n]);
      assert names[..n + 1] == names;
      SystemSetGrows(rights, names, n);
    }
  }

  lemma {:induction false} ApplyAllSeen(rights: Rights, uid: nat, w: Applied, names: seq<string>)
    ensures ApplyAll(rights, uid, w, names).uids == w.uids + (if AsksSeen(names) then {uid} else {})
    decreases |names|
  {
    if names != [] {
      ApplyAllSeen(rights, uid, w, names[..|names| - 1]);
    }
  }

  /** The whole loop, in terms of the list. */
  lemma ApplyAllMeans(rights: Rights, uid: nat, w: Applied, names: seq<string>)
    requires w.bits == {} && w.system == {} && w.counts == Counts(0, 0, 0)
    ensures var w' := ApplyAll(rights, uid, w, names);
            && (w'.slots, w'.bits) == Requested(w.slots, Users(rights, names))
            && w'.system == SystemSet(rights, names) && w'.counts == CountsOf(rights, names)
            && w'.uids == w.uids + (if AsksSeen(names) then {uid} else {})
  {
    ApplyAllSlots(rights, uid, w, names);
    ApplyAllSystem(rights, uid, w, names);
    ApplyAllSeen(rights, uid, w, names);
  }

  ghost function State(flagname: array<Option<string>>, words: array<bv32>, seen: NewUids,
                       system: set<SystemFlag>, counts: Counts): Applied
    requires words.Length == WORDS && seen.Valid()
    reads flagname, words, seen
  {
    Applied(flagname[..], Decoded(words[..]), system, counts, Denoted(seen.msgrange))
  }

  /** One flag of the list. */
  method ApplyFlag(flagname: array<Option<string>>, words: array<bv32>, seen: NewUids, uid: nat, rights: Rights, name: string,
                   system: set<SystemFlag>, counts: Counts)
    returns (system': set<SystemFlag>, counts': Counts, created: bool)
    requires flagname.Length == MAX_USER_FLAGS && words.Length == WORDS
    requires seen.Valid() && 0 < uid <= INT_MAX
    requires forall u :: u in Denoted(seen.msgrange) ==> u <= uid
    modifies flagname, words, seen
    ensures seen.Valid()
    ensures State(flagname, words, seen, system', counts') ==
            Apply(rights, uid, old(State(flagname, words, seen, system, counts)), name)
    ensures created <==> flagname[..] != old(flagname[..])
    ensures Keeps(old(flagname[..]), flagname[..])
  {
    KeepsItself(flagname[..]);
    system', counts', created := system, counts, false;
    if name == "\\seen" {
      seen.AddMe(uid);
    } else {
      var handled;
      handled, system', counts' := ApplySystemFlag(rights, name, system, counts);
      if !handled && rights.write {
        WithNameAdds(flagname[..], name);
        created := SetUserFlag(flagname, words, name);
      }
    }
  }

  /** The flags of one message: its system flags, its user-flag words, and the counts. */
  method ApplyFlags(flagname: array<Option<string>>, seen: NewUids, uid: nat, rights: Rights, names: seq<string>)
    returns (system: set<SystemFlag>, words: array<bv32>, counts: Counts, created: nat)
    requires flagname.Length == MAX_USER_FLAGS
    requires seen.Valid() && 0 < uid <= INT_MAX && forall u :: u in Denoted(seen.msgrange) ==> u < uid
    modifies flagname, seen
    ensures fresh(words) && words.Length == WORDS
    ensures system == SystemSet(rights, names) && counts == CountsOf(rights, names)
    ensures (flagname[..], Decoded(words[..])) == Requested(old(flagname[..]), Users(rights, names))
    ensures created == 0 <==> flagname[..] == old(flagname[..])
    // The system flags and the counters, flag by flag.
    ensures HasFlags(rights.write, rights.deleteMessages, names, system)
    ensures counts.answered == if rights.write then multiset(names)["\\answered"] else 0
    ensures counts.flagged == if rights.write then multiset(names)["\\flagged"] else 0
    ensures counts.deleted == if rights.deleteMessages then multiset(names)["\\deleted"] else 0
    ensures seen.Valid()
    ensures Denoted(seen.msgrange) == old(Denoted(seen.msgrange)) + (if AsksSeen(names) then {uid} else {})
    ensures uid in Denoted(seen.msgrange) <==> "\\seen" in names
  {
    system, counts, created := {}, Counts(0, 0, 0), 0;
    words := new bv32[WORDS](_ => 0);
    assert words[..] == [0, 0, 0, 0];
    NoWords();
    ghost var start, table := State(flagname, words, seen, system, counts), flagname[..];
    KeepsItself(table);
    for i := 0 to |names|
      invariant words.Length == WORDS && fresh(words) && seen.Valid()
      invariant State(flagname, words, seen, system, counts) == ApplyAll(rights, uid, start, names[..i])
      invariant Keeps(table, flagname[..]) && (created == 0 <==> flagname[..] == table)
    {
      ghost var now := flagname[..];
      assert names[..i + 1][..i] == names[..i];
      ApplyAllMeans(rights, uid, start, names[..i]);
      var isNew;
      system, counts, isNew := ApplyFlag(flagname, words, seen, uid, rights, names[i], system, counts);
      KeepsOnward(table, now, flagname[..]);
      if now != table {
        AddedForGood(table, now, flagname[..]);
      }
      if isNew {
        created := created + 1;
      }
    }
    assert names[..|names|] == names;
    ApplyAllMeans(rights, uid, start, names);
    OccurrencesAre(rights, names);
    AsksSeenIff(names);
  }
}
