/**
 The append transaction of append.c: append_setup, any mix of appends, then append_commit or append_abort.
 */
module Append {
  import opened Wrappers
  import opened SeenRange
  import opened UserFlags
  import opened MessageFlags
  import opened AppendState

  /** What becomes of the message file; `cached` is what was written to the cache file. */
  datatype Spool =
    | Spooled(content: string, readable: bool, cached: nat)
    | Failed(left: Option<string>, cached: nat)

  /** Which of the writes of append_commit succeed. */
  datatype Writes = Writes(header: bool, cache: bool, index: bool, indexHeader: bool, quota: bool, seen: bool)

  /**
   What append_copy is told about a message: its flags, whether to mark it \\Seen, and its size if its
   cache record can be copied along.
   */
  datatype Copied = Copied(system: set<SystemFlag>, flags: seq<string>, seen: bool, size: Option<nat>)

  /** Copying keeps the flags the user may set in the target. */
  function CopiedSystem(rights: Rights, system: set<SystemFlag>): set<SystemFlag> {
    (if rights.write then system - {DELETED} else {}) + (if rights.deleteMessages then system * {DELETED} else {})
  }

  /** A copy keeps a flag exactly if its right is there: one for \\Deleted, the other for all others. */
  lemma CopiedSystemIff(rights: Rights, system: set<SystemFlag>, f: SystemFlag)
    ensures f in CopiedSystem(rights, system) <==> f in system && (if f == DELETED then rights.deleteMessages else rights.write)
  {
  }

  /** Copy `k` has the flags, the size and the user flags it was to have. */
  predicate CopiedAt(rights: Rights, messages: seq<Copied>, spools: seq<Spool>, records: seq<Record>, marks: seq<Marks>, k: nat)
    requires k < |messages| && k < |spools| && k < |records| && k < |marks|
  {
    && spools[k].Spooled?
    && records[k].system == CopiedSystem(rights, messages[k].system)
    && records[k].size == (if messages[k].size.Some? then messages[k].size.value else |spools[k].content|)
    && marks[k].names == (if rights.write then messages[k].flags else [])
  }

  /** The UIDs that copying marks \\Seen, when the first copy gets UID `first`. */
  function CopiedSeen(first: nat, messages: seq<Copied>): set<nat> {
    if messages == [] then {}
    else
      var n := |messages| - 1;
      CopiedSeen(first, messages[..n]) + (if messages[n].seen then {first + n} else {})
  }

  lemma {:induction false} CopiedSeenIff(first: nat, messages: seq<Copied>, uid: nat)
    ensures uid in CopiedSeen(first, messages) <==> first <= uid < first + |messages| && messages[uid - first].seen
    decreases |messages|
  {
    if messages != [] {
      CopiedSeenIff(first, messages[..|messages| - 1], uid);
    }
  }

  /** After `i` of the messages, of which the first gets UID `first`, the append has come from `p` to `q`. */
  predicate CopiedSoFar(rights: Rights, messages: seq<Copied>, spools: seq<Spool>, first: nat, i: nat,
                        p: Progress, q: Progress, records: seq<Record>, marks: seq<Marks>)
    requires i <= |messages| == |spools|
  {
    && |records| == |marks| == i && q.tally.nummsg == p.tally.nummsg + i
    && (forall k :: 0 <= k < i ==> CopiedAt(rights, messages, spools, records, marks, k))
    && q.trace.marks == p.trace.marks + marks && q.trace.repeated == p.trace.repeated
    && q.seen == p.seen + CopiedSeen(first, messages[..i])
  }

  /** Copying the message `m` as `r` takes the append from `p` to `q`. */
  ghost predicate CopyStep(rights: Rights, m: Copied, spool: Spool, uid: nat, p: Progress, q: Progress, r: Record) {
    && spool.Spooled? && r.uid == uid && r.system == CopiedSystem(rights, m.system)
    && r.size == (if m.size.Some? then m.size.value else |spool.content|)
    && Advances(p, q, r, spool.content, CountsIn(r.system), false, if rights.write then m.flags else [], m.seen)
  }

  lemma CopiedOneMore(rights: Rights, messages: seq<Copied>, spools: seq<Spool>, first: nat, i: nat,
                      p: Progress, q: Progress, records: seq<Record>, marks: seq<Marks>, r: Record, q': Progress)
    requires i < |messages| == |spools|
    requires CopiedSoFar(rights, messages, spools, first, i, p, q, records, marks)
    requires CopyStep(rights, messages[i], spools[i], first + i, q, q', r)
    ensures CopiedSoFar(rights, messages, spools, first, i + 1, p, q', records + [r],
                        marks + [Marks(if rights.write then messages[i].flags else [], Decoded(r.user))])
  {
    var names := if rights.write then messages[i].flags else [];
    var records', marks' := records + [r], marks + [Marks(names, Decoded(r.user))];
    forall k | 0 <= k < i + 1 ensures CopiedAt(rights, messages, spools, records', marks', k) {
      assert k < i ==> CopiedAt(rights, messages, spools, records, marks, k);
    }
    assert messages[..i + 1][..i] == messages[..i];
    assert p.trace.marks + marks' == p.trace.marks + marks + [Marks(names, Decoded(r.user))];
  }

  ghost predicate StepAt(rights: Rights, messages: seq<Copied>, spools: seq<Spool>, first: nat, ps: seq<Progress>,
                         records: seq<Record>, k: nat)
    requires k < |messages| == |spools| && k < |records| && k + 1 < |ps|
  {
    CopyStep(rights, messages[k], spools[k], first + k, ps[k], ps[k + 1], records[k])
  }

  /** The append went through `ps` while it copied the first `i` messages. */
  ghost predicate StepsTo(rights: Rights, messages: seq<Copied>, spools: seq<Spool>, first: nat, i: nat,
                          ps: seq<Progress>, records: seq<Record>)
    requires |messages| == |spools|
  {
    && i <= |messages| && |records| == i && |ps| == i + 1
    && (forall k :: 0 <= k < i ==> StepAt(rights, messages, spools, first, ps, records, k))
  }

  lemma StepsOneMore(rights: Rights, messages: seq<Copied>, spools: seq<Spool>, first: nat, i: nat,
                     ps: seq<Progress>, records: seq<Record>, q: Progress, r: Record)
    requires i < |messages| == |spools| && StepsTo(rights, messages, spools, first, i, ps, records)
    requires CopyStep(rights, messages[i], spools[i], first + i, ps[i], q, r)
    ensures StepsTo(rights, messages, spools, first, i + 1, ps + [q], records + [r])
  {
    forall k | 0 <= k < i + 1 ensures StepAt(rights, messages, spools, first, ps + [q], records + [r], k) {
      assert k < i ==> StepAt(rights, messages, spools, first, ps, records, k);
    }
  }

  /** The marks that copying the messages leaves. */
  function MarksMade(rights: Rights, messages: seq<Copied>, records: seq<Record>): seq<Marks>
    requires |records| <= |messages| && forall k :: 0 <= k < |records| ==> |records[k].user| == WORDS
  {
    seq(|records|, k requires 0 <= k < |records| => Marks(if rights.write then messages[k].flags else [], Decoded(records[k].user)))
  }

  lemma {:induction false} StepsCopiedTo(rights: Rights, messages: seq<Copied>, spools: seq<Spool>, first: nat, i: nat,
                                         ps: seq<Progress>, records: seq<Record>)
    requires |messages| == |spools| && StepsTo(rights, messages, spools, first, i, ps, records)
    requires ps[0].tally.nummsg + 1 <= first
    ensures forall k :: 0 <= k < i ==> |records[k].user| == WORDS
    ensures CopiedSoFar(rights, messages, spools, first, i, ps[0], ps[i], records, MarksMade(rights, messages, records))
  {
    if i == 0 {
      assert messages[..0] == [] && ps[0].trace.marks + [] == ps[0].trace.marks;
    } else {
      var j := i - 1;
      var ps', records' := ps[..i], records[..j];
      forall k | 0 <= k < j ensures StepAt(rights, messages, spools, first, ps', records', k) {
        assert StepAt(rights, messages, spools, first, ps, records, k);
      }
      StepsCopiedTo(rights, messages, spools, first, j, ps', records');
      assert StepAt(rights, messages, spools, first, ps, records, j);
      var marks := MarksMade(rights, messages, records');
      CopiedOneMore(rights, messages, spools, first, j, ps[0], ps[j], records', marks, records[j], ps[i]);
      assert records' + [records[j]] == records;
      assert MarksMade(rights, messages, records) ==
             marks + [Marks(if rights.write then messages[j].flags else [], Decoded(records[j].user))];
    }
  }

  /** The first `i` files could be made. */
  predicate SpooledTo(spools: seq<Spool>, i: nat)
    requires i <= |spools|
  {
    i == 0 || (SpooledTo(spools, i - 1) && spools[i - 1].Spooled?)
  }

  lemma {:induction false} SpooledAll(spools: seq<Spool>, i: nat)
    requires i <= |spools|
    ensures SpooledTo(spools, i) <==> forall k :: 0 <= k < i ==> spools[k].Spooled?
  {
    if i > 0 {
      SpooledAll(spools, i - 1);
    }
  }

  lemma {:induction false} NotSpooled(spools: seq<Spool>, i: nat, j: nat)
    requires i < j <= |spools| && !spools[i].Spooled?
    ensures !SpooledTo(spools, j)
  {
    if i < j - 1 {
      NotSpooled(spools, i, j - 1);
    }
  }

  /** Appending a message with these flags as `r` takes the append from `p` to `q`. */
  ghost predicate AppendStep(rights: Rights, names: seq<string>, content: string, readable: bool, p: Progress, q: Progress, r: Record) {
    && r.system == SystemSet(rights, names) && r.size == (if readable then |content| else 0)
    && Advances(p, q, r, content, CountsOf(rights, names), !NoneRepeated(rights, names), Users(rights, names), AsksSeen(names))
  }

  lemma BuiltByAppend(start: Disk, p: Progress, q: Progress, files: map<nat, string>, records: seq<Record>, r: Record,
                      rights: Rights, names: seq<string>, content: string, readable: bool)
    requires Built(start, p, files, records) && AppendStep(rights, names, content, readable, p, q, r)
    requires r.uid == start.header.lastUid + 1 + p.tally.nummsg
    requires r.modseq == if start.header.condstore then start.header.highestModseq + 1 else 1
    ensures Built(start, q, files[r.uid := content], records + [r])
  {
    AddsOfFlags(rights, names);
    BuiltOneMore(start, p, q, files, records, r, content, CountsOf(rights, names), !NoneRepeated(rights, names),
                 Users(rights, names), AsksSeen(names));
  }

  class Transaction {
    const flagname: array<Option<string>>
    const seen: NewUids
    const rights: Rights
    const userid: string
    var disk: Disk
    var mem: Header
    var done: bool
    var origCacheLen: nat
    var tally: Tally
    ghost var start: Disk
    ghost var trace: Trace

    ghost function Now(): Progress
      requires seen.Valid()
      reads this, flagname, seen
    {
      Progress(tally, flagname[..], Denoted(seen.msgrange), trace)
    }

    /** The append is under way, and `records` are what it has built so far. */
    ghost predicate Open(records: seq<Record>)
      reads this, flagname, seen
    {
      && !done && flagname.Length == MAX_USER_FLAGS && seen.Valid() && origCacheLen == start.cacheLen
      && UnderWay(start, mem, disk, Now(), records)
    }

    /** The records that were written to the index file but are not visible yet. */
    ghost function Pending(): seq<Record>
      reads this
    {
      Hidden(disk, tally.nummsg)
    }

    ghost predicate Valid()
      reads this, flagname, seen
    {
      !done ==> disk.header.messages + tally.nummsg <= |disk.index| && Open(Pending())
    }

    constructor (d: Disk, userid: string, rights: Rights)
      requires Sound(d)
      ensures Valid() && !done && fresh(flagname) && fresh(seen)
      ensures disk == start == d && tally.nummsg == 0 && !trace.repeated && this.userid == userid && this.rights == rights
    {
      flagname := new Option<string>[MAX_USER_FLAGS](i requires 0 <= i < MAX_USER_FLAGS => d.flagTable[i]);
      seen := new NewUids();
      this.userid, this.rights := userid, rights;
      disk, mem, done, origCacheLen := d, d.header, false, d.cacheLen;
      tally := Tally(0, Counts(0, 0, 0), 0, 0);
      start, trace := d, Trace([], false, false);
      new;
      assert flagname[..] == d.flagTable;
    }

    /** append_abort */
    method Abort()
      modifies this`disk, this`done
      ensures done
      ensures disk == if old(done) then old(disk)
                      else old(disk).(files := Without(old(disk.files), mem.lastUid, tally.nummsg), cacheLen := origCacheLen)
    {
      if done {
        return;
      }
      done := true;
      var files, uid := disk.files, mem.lastUid + 1;
      while uid <= mem.lastUid + tally.nummsg
        invariant mem.lastUid + 1 <= uid <= mem.lastUid + tally.nummsg + 1
        invariant files == Without(disk.files, mem.lastUid, uid - mem.lastUid - 1)
      {
        files := files - {uid};
        uid := uid + 1;
      }
      disk := disk.(files := files, cacheLen := origCacheLen);
    }

    /** Give up: everything is as it was at setup, and nothing more can be done. */
    method Undo()
      requires !done && Untouched(start, disk, tally.nummsg)
      requires mem.lastUid == start.header.lastUid && origCacheLen == start.cacheLen
      modifies this`disk, this`done
      ensures done && Restored(start, disk, tally.nummsg)
      ensures disk.flagTable == old(disk.flagTable) && disk.index == old(disk.index)
    {
      UndoRestores(start, disk, tally.nummsg);
      Abort();
    }

    /** A new message file, under the next UID. */
    method NewFile(left: Option<string>, cached: nat) returns (uid: nat)
      requires !done && Untouched(start, disk, tally.nummsg) && mem.lastUid == start.header.lastUid
      modifies this`tally, this`disk
      ensures tally == old(tally).(nummsg := old(tally).nummsg + 1) && uid == mem.lastUid + tally.nummsg
      ensures disk == old(disk).(files := SetFile(old(disk.files), uid, left), cacheLen := old(disk.cacheLen) + cached)
      ensures Untouched(start, disk, tally.nummsg)
    {
      ghost var d := disk;
      tally := tally.(nummsg := tally.nummsg + 1);
      uid := mem.lastUid + tally.nummsg;
      disk := disk.(files := SetFile(disk.files, uid, left), cacheLen := disk.cacheLen + cached);
      UntouchedMore(start, d, tally.nummsg - 1, disk, left);
    }

    /** mailbox_append_index: the last records of the append go behind the ones written before. */
    method WriteIndex(records: seq<Record>, written: bool)
      requires |records| <= tally.nummsg && mem.messages + tally.nummsg - |records| <= |disk.index|
      requires Untouched(start, disk, tally.nummsg) && mem == start.header
      modifies this`disk
      ensures Untouched(start, disk, tally.nummsg)
      ensures disk == old(disk).(index := disk.index)
      ensures written ==>
                && disk.header.messages + tally.nummsg <= |disk.index|
                && Pending() == Hidden(old(disk), tally.nummsg - |records|) + records
    {
      var at := mem.messages + tally.nummsg - |records|;
      if written {
        PutBehind(disk, tally.nummsg - |records|, records);
        disk := disk.(index := Put(disk.index, at, records));
      } else {
        disk := disk.(index := disk.index[..at]);
        assert disk.index[..mem.messages] == old(disk).index[..mem.messages];
      }
    }

    /** The counters for the flags of a new message. */
    method CountFlags(r: Record, added: Counts, created: nat, ghost traced: Trace)
      requires 0 < tally.nummsg
      modifies this`tally, this`trace
      ensures tally.nummsg == old(tally.nummsg) && trace == traced
      ensures tally.(quotaUsed := tally.quotaUsed + r.size) ==
              Counted(old(tally).(nummsg := tally.nummsg - 1), r, added, created)
    {
      tally := tally.(counts := Counts(tally.counts.answered + added.answered, tally.counts.deleted + added.deleted,
                                       tally.counts.flagged + added.flagged),
                      writeheader := tally.writeheader + created);
      trace := traced;
    }

    /** The counters once the record of a new message is written. */
    ghost function WithSize(size: nat): Progress
      requires seen.Valid()
      reads this, flagname, seen
    {
      Now().(tally := tally.(quotaUsed := tally.quotaUsed + size))
    }

    /** The record of a new message and the marks its flags leave on the table. */
    method MakeRecord(uid: nat, size: nat, names: seq<string>) returns (r: Record, added: Counts, created: nat)
      requires flagname.Length == MAX_USER_FLAGS && seen.Valid() && NoDuplicates(flagname[..])
      requires 0 < uid <= INT_MAX && forall u :: u in Denoted(seen.msgrange) ==> u < uid
      modifies flagname, seen
      ensures seen.Valid()
      ensures Denoted(seen.msgrange) == old(Denoted(seen.msgrange)) + (if AsksSeen(names) then {uid} else {})
      ensures r.uid == uid && r.modseq == (if mem.condstore then mem.highestModseq + 1 else 1)
      ensures r.size == size && r.system == SystemSet(rights, names) && |r.user| == WORDS && added == CountsOf(rights, names)
      ensures NamesAdded(old(flagname[..]), flagname[..], Marks(Users(rights, names), Decoded(r.user)), created)
    {
      var modseq := if mem.condstore then mem.highestModseq + 1 else 1;
      ghost var table, m := flagname[..], Users(rights, names);
      var system, words;
      system, words, added, created := ApplyFlags(flagname, seen, uid, rights, names);
      r := Record(uid, modseq, size, system, words[..]);
      RequestedAdds(table, m, flagname[..], Marks(m, Decoded(r.user)), created);
    }

    /** The flags and the record of a new message whose file is in place; `p` is how far the append had come before. */
    method TakeFlags(uid: nat, content: string, readable: bool, names: seq<string>, ghost p: Progress)
      returns (r: Record, ghost q: Progress)
      requires flagname.Length == MAX_USER_FLAGS && seen.Valid() && NoDuplicates(flagname[..])
      requires 0 < uid <= INT_MAX && forall u :: u in Denoted(seen.msgrange) ==> u < uid
      requires Now() == p.(tally := p.tally.(nummsg := p.tally.nummsg + 1))
      modifies this`tally, this`trace, flagname, seen
      ensures seen.Valid() && WithSize(r.size) == q && tally.nummsg == p.tally.nummsg + 1
      ensures r.uid == uid && r.modseq == (if mem.condstore then mem.highestModseq + 1 else 1)
      ensures AppendStep(rights, names, content, readable, p, q, r)
    {
      ghost var m, again := Users(rights, names), !NoneRepeated(rights, names);
      var added, created;
      r, added, created := MakeRecord(uid, if readable then |content| else 0, names);
      q := Progress(Counted(p.tally, r, added, created), flagname[..], Denoted(seen.msgrange), Traced(p.trace, r, content, m, again));
      assert Advances(p, q, r, content, added, again, m, AsksSeen(names));
      CountFlags(r, added, created, q.trace);
      assert flagname[..] == q.table && Denoted(seen.msgrange) == q.seen;
    }

    /** The index record of a new message, and what its size adds. */
    method Store(record: Record, indexed: bool)
      requires !done && 0 < tally.nummsg && mem.messages + tally.nummsg - 1 <= |disk.index|
      requires Untouched(start, disk, tally.nummsg) && mem == start.header && origCacheLen == start.cacheLen
      modifies this`disk, this`tally, this`done
      ensures done <==> !indexed
      ensures !indexed ==> Restored(start, disk, tally.nummsg) && disk.flagTable == old(disk.flagTable) && tally == old(tally)
      ensures indexed ==>
                && Untouched(start, disk, tally.nummsg) && disk == old(disk).(index := disk.index)
                && tally == old(tally).(quotaUsed := old(tally).quotaUsed + record.size)
                && disk.header.messages + tally.nummsg <= |disk.index|
                && Pending() == Hidden(old(disk), tally.nummsg - 1) + [record]
    {
      WriteIndex([record], indexed);
      if indexed {
        tally := tally.(quotaUsed := tally.quotaUsed + record.size);
      } else {
        Undo();
      }
    }

    /** The file of one more message is in place, but the append has not counted the message yet. */
    ghost predicate Filing(p: Progress, files: map<nat, string>, records: seq<Record>)
      reads this, flagname, seen
    {
      && !done && flagname.Length == MAX_USER_FLAGS && seen.Valid() && origCacheLen == start.cacheLen
      && mem == start.header && Untouched(start, disk, tally.nummsg) && disk.flagTable == start.flagTable
      && Built(start, p, files, records)
      && Now() == p.(tally := p.tally.(nummsg := p.tally.nummsg + 1))
    }

    /** The second half of append_fromstage: flags, record and index. */
    method Finish(uid: nat, content: string, readable: bool, names: seq<string>, indexed: bool,
                  ghost p: Progress, ghost files: map<nat, string>)
      returns (record: Record, ghost q: Progress)
      requires 0 < tally.nummsg && mem.messages + tally.nummsg - 1 <= |disk.index|
      requires Filing(p, files, Hidden(disk, tally.nummsg - 1))
      requires uid == mem.lastUid + tally.nummsg <= INT_MAX && disk.files == files[uid := content]
      modifies this`disk, this`tally, this`trace, this`done, flagname, seen
      ensures Valid() && (done <==> !indexed)
      ensures !indexed ==> Restored(start, disk, old(tally.nummsg)) && disk.flagTable == start.flagTable
      ensures indexed ==>
                && disk == old(disk).(index := disk.index)
                && Pending() == Hidden(old(disk), old(tally.nummsg) - 1) + [record]
                && record.uid == uid && Now() == q && AppendStep(rights, names, content, readable, p, q, record)
    {
      hide AppendStep, Restored, Filed, Summed, WordsHold, AllExact;
      ghost var records := Hidden(disk, tally.nummsg - 1);
      record, q := TakeFlags(uid, content, readable, names, p);
      BuiltByAppend(start, p, q, files, records, record, rights, names, content, readable);
      Store(record, indexed);
      assert indexed ==> Now() == q && Pending() == records + [record];
    }

    /** append_fromstage and append_fromstream: `indexed` says whether the index record could be written. */
    method AppendOne(spool: Spool, names: seq<string>, indexed: bool) returns (ok: bool, ghost r: Record, ghost q: Progress)
      requires Valid() && !done && mem.lastUid + tally.nummsg < INT_MAX
      modifies this`disk, this`tally, this`trace, this`done, flagname, seen
      ensures Valid() && start == old(start)
      ensures ok <==> spool.Spooled? && indexed
      ensures done <==> !ok
      ensures !ok ==> Restored(start, disk, old(tally.nummsg) + 1) && disk.flagTable == start.flagTable
      ensures ok ==>
                && Pending() == old(Pending()) + [r]
                && r.uid == start.header.lastUid + tally.nummsg && mem == start.header
                && disk.files == old(disk.files)[r.uid := spool.content]
                && Now() == q && AppendStep(rights, names, spool.content, spool.readable, old(Now()), q, r)
    {
      hide Built, AppendStep, Restored;
      ghost var p, files := Now(), disk.files;
      var uid := NewFile(if spool.Spooled? then Some(spool.content) else spool.left, spool.cached);
      if spool.Failed? {
        Undo();
        return false, *, *;
      }
      var record;
      record, q := Finish(uid, spool.content, spool.readable, names, indexed, p, files);
      ok, r := indexed, record;
    }

    /** The record of a copied message and the marks its flags leave on the table. */
    method MakeCopy(uid: nat, size: nat, m: Copied) returns (r: Record, added: Counts, created: nat)
      requires flagname.Length == MAX_USER_FLAGS && seen.Valid() && NoDuplicates(flagname[..])
      requires 0 < uid <= INT_MAX && forall u :: u in Denoted(seen.msgrange) ==> u < uid
      modifies flagname, seen
      ensures seen.Valid() && Denoted(seen.msgrange) == old(Denoted(seen.msgrange)) + (if m.seen then {uid} else {})
      ensures r.uid == uid && r.modseq == (if mem.condstore then mem.highestModseq + 1 else 1)
      ensures r.size == size && r.system == CopiedSystem(rights, m.system) && |r.user| == WORDS && added == CountsIn(r.system)
      ensures NamesAdded(old(flagname[..]), flagname[..],
                         Marks(if rights.write then m.flags else [], Decoded(r.user)), created)
    {
      ghost var table, names := flagname[..], if rights.write then m.flags else [];
      var system := {};
      var words;
      words, created := SetUserFlags(flagname, if rights.write then m.flags else []);
      if rights.write {
        system := m.system - {DELETED};
      }
      if rights.deleteMessages {
        system := system + m.system * {DELETED};
      }
      added := Counts(if ANSWERED in system then 1 else 0, if DELETED in system then 1 else 0, if FLAGGED in system then 1 else 0);
      if m.seen {
        seen.AddMe(uid);
      }
      r := Record(uid, if mem.condstore then mem.highestModseq + 1 else 1, size, system, words[..]);
      RequestedAdds(table, names, flagname[..], Marks(names, Decoded(r.user)), created);
    }

    /** The flags and the record of a copied message whose file is in place. */
    method TakeCopy(uid: nat, content: string, m: Copied, ghost p: Progress) returns (r: Record, ghost q: Progress)
      requires flagname.Length == MAX_USER_FLAGS && seen.Valid() && NoDuplicates(flagname[..])
      requires 0 < uid <= INT_MAX && forall u :: u in Denoted(seen.msgrange) ==> u < uid
      requires Now() == p.(tally := p.tally.(nummsg := p.tally.nummsg + 1))
      modifies this`tally, this`trace, flagname, seen
      ensures seen.Valid() && Now() == q
      ensures r.uid == uid && r.modseq == (if mem.condstore then mem.highestModseq + 1 else 1)
      ensures r.system == CopiedSystem(rights, m.system) && r.size == if m.size.Some? then m.size.value else |content|
      ensures Advances(p, q, r, content, CountsIn(r.system), false, if rights.write then m.flags else [], m.seen)
    {
      ghost var names := if rights.write then m.flags else [];
      var size := if m.size.Some? then m.size.value else |content|;
      var added, created;
      r, added, created := MakeCopy(uid, size, m);
      q := Progress(Counted(p.tally, r, added, created), flagname[..], Denoted(seen.msgrange), Traced(p.trace, r, content, names, false));
      assert Advances(p, q, r, content, added, false, names, m.seen);
      CountFlags(r, added, created, q.trace);
      tally := tally.(quotaUsed := tally.quotaUsed + size);
      assert flagname[..] == q.table && Denoted(seen.msgrange) == q.seen;
    }

    /** One message of append_copy, before any index record is written. */
    method CopyOne(m: Copied, spool: Spool, ghost before: seq<Record>, ghost records: seq<Record>, ghost p: Progress, ghost uid: nat)
      returns (ok: bool, r: Record, ghost q: Progress)
      requires Open(before + records) && Now() == p && uid == mem.lastUid + p.tally.nummsg + 1 && mem.lastUid + tally.nummsg < INT_MAX
      modifies this`disk, this`tally, this`trace, this`done, flagname, seen
      ensures ok <==> spool.Spooled?
      ensures !ok ==> done && Restored(start, disk, tally.nummsg) && disk.flagTable == start.flagTable
      ensures tally.nummsg == old(tally.nummsg) + 1 && disk.index == old(disk.index)
      ensures ok ==>
                && Open(before + (records + [r])) && Now() == q
                && CopyStep(rights, m, spool, uid, p, q, r)
    {
      hide Advances, Restored, Filed, Summed, WordsHold, AllExact;
      ghost var files := disk.files;
      var number := NewFile(if spool.Spooled? then Some(spool.content) else spool.left, spool.cached);
      if spool.Failed? {
        Undo();
        return false, Record(0, 0, 0, {}, []), p;
      }
      r, q := TakeCopy(number, spool.content, m, p);
      assert before + records + [r] == before + (records + [r]);
      BuiltOneMore(start, p, q, files, before + records, r, spool.content, CountsIn(r.system), false,
                   if rights.write then m.flags else [], m.seen);
      ok := true;
    }

    /** The loop of append_copy has taken `i` messages; `ps` says how far the append had come before each. */
    ghost predicate Copying(messages: seq<Copied>, spools: seq<Spool>, i: nat, first: nat,
                            before: seq<Record>, records: seq<Record>, ps: seq<Progress>)
      requires |messages| == |spools|
      reads this, flagname, seen
    {
      && Open(before + records) && mem.lastUid + tally.nummsg + 1 == first + i
      && StepsTo(rights, messages, spools, first, i, ps, records) && ps[i] == Now()
    }

    /** One round of the loop. */
    method CopyNext(messages: seq<Copied>, spools: seq<Spool>, i: nat, records: seq<Record>,
                    ghost first: nat, ghost before: seq<Record>, ghost ps: seq<Progress>)
      returns (ok: bool, r: Record, ghost q: Progress)
      requires i < |messages| == |spools| && Copying(messages, spools, i, first, before, records, ps)
      requires first + |messages| <= INT_MAX + 1
      modifies this`disk, this`tally, this`trace, this`done, flagname, seen
      ensures ok <==> spools[i].Spooled?
      ensures !ok ==> done && Restored(start, disk, tally.nummsg) && disk.flagTable == start.flagTable
      ensures ok ==> disk.index == old(disk.index) && Copying(messages, spools, i + 1, first, before, records + [r], ps + [q])
    {
      ok, r, q := CopyOne(messages[i], spools[i], before, records, ps[i], first + i);
      if ok {
        StepsOneMore(rights, messages, spools, first, i, ps, records, q, r);
      }
    }

    /** The loop of append_copy: all files first. */
    method CopyAll(messages: seq<Copied>, spools: seq<Spool>, ghost before: seq<Record>, ghost first: nat, ghost p: Progress)
      returns (ok: bool, records: seq<Record>, ghost ps: seq<Progress>)
      requires |spools| == |messages| && Copying(messages, spools, 0, first, before, [], [p])
      requires first + |messages| <= INT_MAX + 1
      modifies this`disk, this`tally, this`trace, this`done, flagname, seen
      ensures ok <==> SpooledTo(spools, |spools|)
      ensures !ok ==> done && Restored(start, disk, tally.nummsg) && disk.flagTable == start.flagTable
      ensures ok ==> disk.index == old(disk.index) && ps != [] && ps[0] == p
                     && Copying(messages, spools, |messages|, first, before, records, ps)
    {
      records, ps := [], [p];
      for i := 0 to |messages|
        invariant disk.index == old(disk.index) && ps != [] && ps[0] == p
        invariant Copying(messages, spools, i, first, before, records, ps)
        invariant SpooledTo(spools, i)
      {
        var r;
        ghost var q;
        ok, r, q := CopyNext(messages, spools, i, records, first, before, ps);
        if !ok {
          NotSpooled(spools, i, |spools|);
          return;
        }
        records, ps := records + [r], ps + [q];
      }
      ok := true;
    }

    /** The index records of everything that was copied. */
    method StoreAll(records: seq<Record>, ghost before: seq<Record>, indexed: bool)
      requires Open(before + records) && mem.messages + |before| <= |disk.index| && Hidden(disk, |before|) == before
      modifies this`disk, this`done
      ensures Valid() && (done <==> !indexed)
      ensures !indexed ==> Restored(start, disk, tally.nummsg) && disk.flagTable == start.flagTable
      ensures indexed ==> Pending() == before + records
    {
      assert tally.nummsg == |before| + |records|;
      WriteIndex(records, indexed);
      if !indexed {
        Undo();
      }
    }

    /** The index records of the copies, and what the copies are. */
    method StoreCopies(messages: seq<Copied>, spools: seq<Spool>, records: seq<Record>, indexed: bool,
                       ghost first: nat, ghost before: seq<Record>, ghost ps: seq<Progress>)
      returns (ghost marks: seq<Marks>)
      requires |messages| == |spools| && Copying(messages, spools, |messages|, first, before, records, ps)
      requires ps[0].tally.nummsg + 1 <= first
      requires mem.messages + |before| <= |disk.index| && Hidden(disk, |before|) == before
      modifies this`disk, this`done
      ensures Valid() && (done <==> !indexed)
      ensures !indexed ==> Restored(start, disk, tally.nummsg) && disk.flagTable == start.flagTable
      ensures indexed ==> Pending() == before + records
      ensures ps != [] && CopiedSoFar(rights, messages, spools, first, |messages|, ps[0], Now(), records, marks)
    {
      StepsCopiedTo(rights, messages, spools, first, |messages|, ps, records);
      marks := MarksMade(rights, messages, records);
      StoreAll(records, before, indexed);
    }

    method CopyThem(messages: seq<Copied>, spools: seq<Spool>, indexed: bool, ghost before: seq<Record>, ghost p: Progress)
      returns (ok: bool, ghost copies: seq<Record>, ghost marks: seq<Marks>)
      requires Valid() && !done && before == Pending() && p == Now()
      requires |spools| == |messages| && mem.lastUid + tally.nummsg + |messages| <= INT_MAX
      modifies this`disk, this`tally, this`trace, this`done, flagname, seen
      ensures Valid() && (done <==> !ok)
      ensures ok <==> indexed && SpooledTo(spools, |spools|)
      ensures !ok ==> Restored(start, disk, tally.nummsg) && disk.flagTable == start.flagTable
      ensures ok ==>
                && Pending() == before + copies
                && CopiedSoFar(rights, messages, spools, start.header.lastUid + p.tally.nummsg + 1, |messages|, p, Now(), copies, marks)
    {
      ghost var first, ps := mem.lastUid + tally.nummsg + 1, [p];
      var records;
      assert before + [] == before;
      ok, records, ps := CopyAll(messages, spools, before, first, p);
      copies, marks := records, [];
      if ok {
        ok := indexed;
        marks := StoreCopies(messages, spools, records, indexed, first, before, ps);
      }
    }

    /** append_copy: then all index records at once. */
    method Copy(messages: seq<Copied>, spools: seq<Spool>, indexed: bool)
      returns (ok: bool, ghost copies: seq<Record>, ghost marks: seq<Marks>)
      requires Valid() && !done && |spools| == |messages| && mem.lastUid + tally.nummsg + |messages| <= INT_MAX
      modifies this`disk, this`tally, this`trace, this`done, flagname, seen
      ensures Valid()
      ensures ok <==> messages == [] || (indexed && forall k :: 0 <= k < |spools| ==> spools[k].Spooled?)
      // Copying nothing gives the whole append up and reports success.
      ensures done <==> !ok || messages == []
      ensures done ==> Restored(start, disk, tally.nummsg) && disk.flagTable == start.flagTable
      ensures !done ==>
                && Pending() == old(Pending()) + copies
                && CopiedSoFar(rights, messages, spools, start.header.lastUid + old(tally.nummsg) + 1, |messages|,
                               old(Now()), Now(), copies, marks)
    {
      copies, marks := [], [];
      if messages == [] {
        Undo();
        return true, copies, marks;
      }
      SpooledAll(spools, |spools|);
      ok, copies, marks := CopyThem(messages, spools, indexed, Pending(), Now());
    }

    /** Which new UIDs append_commit adds to the user's \\Seen list. */
    ghost function SeenSet(io: Writes): set<nat>
      requires seen.Valid()
      reads this, seen
    {
      if userid != "" && io.seen then Denoted(seen.msgrange) else {}
    }

    /** The new UIDs fit an int and lie above the old ones. */
    static predicate Above(was: string, t: string)
      requires WellFormed(was) && WellFormed(t)
    {
      && (forall b :: b in Denoted(t) ==> b <= INT_MAX)
      && (forall a, b :: a in Denoted(was) && b in Denoted(t) ==> a < b)
    }

    /** append_addseen for the new UIDs, all of which are above the user's list. */
    method SetSeen(io: Writes)
      requires seen.Valid() && WellFormed(disk.seenuids)
      requires Above(disk.seenuids, seen.msgrange)
      modifies this`disk
      ensures disk == old(disk).(seenuids := disk.seenuids)
      ensures WellFormed(disk.seenuids) && Denoted(disk.seenuids) == Denoted(old(disk).seenuids) + SeenSet(io)
    {
      if seen.msgrange != "" && userid != "" && io.seen {
        FirstOfShape(seen.msgrange);
        assert FirstNumber(seen.msgrange) in Denoted(seen.msgrange);
        var seenuids := AddSeen(disk.seenuids, seen.msgrange);
        disk := disk.(seenuids := seenuids);
      }
    }

    /** The end of append_commit: the header, the quota and the user's \\Seen list. */
    method Publish(io: Writes)
      requires seen.Valid() && WellFormed(disk.seenuids)
      requires Above(disk.seenuids, seen.msgrange)
      modifies this`disk, this`done
      ensures done
      ensures disk == old(disk).(header := mem, quotaUsed := old(disk).quotaUsed + (if io.quota then tally.quotaUsed else 0),
                                 seenuids := disk.seenuids)
      ensures WellFormed(disk.seenuids) && Denoted(disk.seenuids) == Denoted(old(disk).seenuids) + SeenSet(io)
    {
      disk := disk.(header := mem);
      if io.quota {
        disk := disk.(quotaUsed := disk.quotaUsed + tally.quotaUsed);
      }
      SetSeen(io);
      done := true;
    }

    /** append_commit */
    method Commit(io: Writes) returns (ok: bool, first: nat, num: nat)
      requires Valid() && (!done ==> Sound(start) && mem.lastUid + tally.nummsg <= INT_MAX)
      modifies this`disk, this`mem, this`done
      ensures done
      // A second commit, or a commit after an abort, does nothing.
      ensures old(done) ==> ok && disk == old(disk) && mem == old(mem)
      ensures !old(done) ==>
                && first == start.header.lastUid + 1 && num == tally.nummsg
                && (ok <==> EarlyWrites(io) && io.indexHeader)
      // The header with the flag names is only written if there are new ones.
      ensures !old(done) && Sound(start) ==>
                (ok <==> (io.header || old(flagname[..]) == start.flagTable) && io.cache && io.index && io.indexHeader)
      ensures !old(done) && ok ==>
                MadeVisible(start, old(disk), old(Now()), old(Pending()), SeenSet(io), if io.quota then tally.quotaUsed else 0, disk)
      // A failure before the index header undoes everything; only new flag names may stay behind.
      ensures !old(done) && !EarlyWrites(io) ==>
                && Restored(start, disk, num)
                && disk.flagTable == (if tally.writeheader > 0 && io.header then flagname[..] else start.flagTable)
      // When the index header cannot be written the new files stay: the abort looks above them.
      ensures !old(done) && EarlyWrites(io) && !io.indexHeader ==>
                disk == old(disk).(flagTable := flagname[..], cacheLen := origCacheLen,
                                   files := Without(old(disk.files), start.header.lastUid + num, num))
    {
      hide MadeVisible, Restored, Filed, Summed, WordsHold, AllExact;
      if done {
        return true, 0, 0;
      }
      first, num := mem.lastUid + 1, tally.nummsg;
      ghost var p, records, d := Now(), Pending(), disk;
      if tally.writeheader > 0 {
        if !io.header {
          Undo();
          return false, first, num;
        }
        disk := disk.(flagTable := flagname[..]);
      }
      assert disk == d.(flagTable := p.table);
      if !io.cache || !io.index {
        Undo();
        return false, first, num;
      }
      mem := Committed(mem, tally.nummsg, tally.counts, tally.quotaUsed);
      if !io.indexHeader {
        Abort();
        return false, first, num;
      }
      Publish(io);
      BecomesVisible(start, d, p, records, SeenSet(io), if io.quota then tally.quotaUsed else 0, disk);
      ok := true;
    }

    /** The writes of append_commit before it touches the index header. */
    predicate EarlyWrites(io: Writes)
      reads this
    {
      (tally.writeheader > 0 ==> io.header) && io.cache && io.index
    }
  }
}
