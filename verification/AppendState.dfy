/**
 What an append works on: the mailbox on disk, and what is pending of the append.
 */
module AppendState {
  import opened Wrappers
  import opened SeenRange
  import opened UserFlags
  import opened MessageFlags

  /** An index record.  `user` are the words of its user-flag set. */
  datatype Record = Record(uid: nat, modseq: nat, size: nat, system: set<SystemFlag>, user: seq<bv32>)

  datatype Header = Header(messages: nat, lastUid: nat, highestModseq: nat, counts: Counts, used: nat, condstore: bool)

  /** The mailbox on disk; only the first `header.messages` index records are visible. */
  datatype Disk = Disk(
    header: Header, index: seq<Record>, files: map<nat, string>, cacheLen: nat,
    flagTable: Slots, quotaUsed: nat, seenuids: string)

  function Visible(d: Disk): seq<Record>
    requires d.header.messages <= |d.index|
  {
    d.index[..d.header.messages]
  }

  function SizeOf(records: seq<Record>): nat {
    if records == [] then 0 else SizeOf(records[..|records| - 1]) + records[|records| - 1].size
  }

  /** How many records carry a flag. */
  function HowMany(records: seq<Record>, f: SystemFlag): nat {
    if records == [] then 0
    else HowMany(records[..|records| - 1], f) + (if f in records[|records| - 1].system then 1 else 0)
  }

  function CountsOfAll(records: seq<Record>): Counts {
    Counts(HowMany(records, ANSWERED), HowMany(records, DELETED), HowMany(records, FLAGGED))
  }

  /** UIDs strictly increase up to the last one, and no modseq is above the highest. */
  predicate Ordered(h: Header, records: seq<Record>) {
    && h.highestModseq >= 1
    && (forall i :: 0 <= i < |records| ==> Within(h, records, i))
    && (forall i, j :: 0 <= i < j < |records| ==> Rises(records, i, j))
  }

  predicate Within(h: Header, records: seq<Record>, i: nat)
    requires i < |records|
  {
    records[i].uid <= h.lastUid && records[i].modseq <= h.highestModseq
  }

  predicate Rises(records: seq<Record>, i: nat, j: nat)
    requires i < j < |records|
  {
    records[i].uid < records[j].uid
  }

  /** The structure every operation keeps. */
  ghost predicate Sound(d: Disk) {
    && d.header.messages <= |d.index|
    && Ordered(d.header, Visible(d))
    && WellFormed(d.seenuids) && (forall u :: u in Denoted(d.seenuids) ==> u <= d.header.lastUid)
    && |d.flagTable| == MAX_USER_FLAGS && NoDuplicates(d.flagTable)
  }

  predicate CountersAgree(d: Disk)
    requires d.header.messages <= |d.index|
  {
    d.header.counts == CountsOfAll(Visible(d))
  }

  predicate UsageAgrees(d: Disk)
    requires d.header.messages <= |d.index|
  {
    d.header.used == SizeOf(Visible(d))
  }

  /** The files an append of `n` messages may create. */
  predicate InRange(h: Header, n: nat, uid: nat) {
    h.lastUid < uid <= h.lastUid + n
  }

  ghost predicate SameOutside(h: Header, n: nat, a: map<nat, string>, b: map<nat, string>) {
    forall u: nat :: !InRange(h, n, u) ==> Lookup(a, u) == Lookup(b, u)
  }

  /** Nothing of the mailbox at setup has been touched but files in range, hidden records and the end of the cache. */
  ghost predicate Untouched(start: Disk, d: Disk, n: nat) {
    && d.header == start.header && d.header.messages <= |start.index| && d.header.messages <= |d.index|
    && Visible(d) == Visible(start) && SameOutside(d.header, n, d.files, start.files)
    && d.cacheLen >= start.cacheLen && d.quotaUsed == start.quotaUsed && d.seenuids == start.seenuids
  }

  /** One more file, at the next number, or what is left of an attempt to write it. */
  lemma UntouchedMore(start: Disk, d: Disk, n: nat, d': Disk, left: Option<string>)
    requires Untouched(start, d, n)
    requires d'.files == SetFile(d.files, start.header.lastUid + n + 1, left)
    requires d'.header == d.header && |d'.index| >= d.header.messages && Visible(d') == Visible(d)
    requires d'.cacheLen >= d.cacheLen && d'.quotaUsed == d.quotaUsed && d'.seenuids == d.seenuids
    ensures Untouched(start, d', n + 1)
  {
    forall u: nat | !InRange(start.header, n + 1, u) ensures Lookup(d'.files, u) == Lookup(start.files, u) {
      assert !InRange(start.header, n, u);
    }
  }

  function SetFile(files: map<nat, string>, uid: nat, left: Option<string>): map<nat, string> {
    if left.Some? then files[uid := left.value] else files - {uid}
  }

  /** Message `k` of those appended so far has its place in the UID order, the new modseq, and its file. */
  predicate FiledAt(h: Header, files: map<nat, string>, pending: seq<Record>, missized: bool, k: nat)
    requires k < |pending|
  {
    && pending[k].uid == h.lastUid + 1 + k
    && pending[k].modseq == (if h.condstore then h.highestModseq + 1 else 1)
    && pending[k].uid in files
    && (missized || pending[k].size == |files[pending[k].uid]|)
  }

  predicate Filed(h: Header, files: map<nat, string>, pending: seq<Record>, missized: bool) {
    forall k :: 0 <= k < |pending| ==> FiledAt(h, files, pending, missized, k)
  }

  /** What the append has added up over them: the counters are exact exactly when no counted flag was repeated. */
  predicate Summed(pending: seq<Record>, quotaUsed: nat, counts: Counts, repeated: bool) {
    && quotaUsed == SizeOf(pending)
    && counts.answered >= HowMany(pending, ANSWERED)
    && counts.deleted >= HowMany(pending, DELETED)
    && counts.flagged >= HowMany(pending, FLAGGED)
    && (counts == CountsOfAll(pending) <==> !repeated)
  }

  /** What one list of flags adds to the counters of the append, and whether it set a counted flag twice. */
  predicate Adds(system: set<SystemFlag>, added: Counts, again: bool) {
    && added.answered >= CountsIn(system).answered
    && added.deleted >= CountsIn(system).deleted
    && added.flagged >= CountsIn(system).flagged
    && (added == CountsIn(system) <==> !again)
  }

  lemma AddsOfFlags(rights: Rights, names: seq<string>)
    ensures Adds(SystemSet(rights, names), CountsOf(rights, names), !NoneRepeated(rights, names))
  {
    CountsExactIff(rights, names);
  }

  lemma OneMoreSize(records: seq<Record>, r: Record)
    ensures SizeOf(records + [r]) == SizeOf(records) + r.size
  {
    assert (records + [r])[..|records|] == records;
  }

  lemma OneMoreFlag(records: seq<Record>, r: Record, f: SystemFlag)
    ensures HowMany(records + [r], f) == HowMany(records, f) + (if f in r.system then 1 else 0)
  {
    assert (records + [r])[..|records|] == records;
  }

  lemma FiledOneMore(h: Header, files: map<nat, string>, pending: seq<Record>, missized: bool, r: Record, content: string)
    requires Filed(h, files, pending, missized)
    requires r.uid == h.lastUid + 1 + |pending|
    requires r.modseq == if h.condstore then h.highestModseq + 1 else 1
    ensures Filed(h, files[r.uid := content], pending + [r], missized || r.size != |content|)
  {
    var all, files', missized' := pending + [r], files[r.uid := content], missized || r.size != |content|;
    forall k | 0 <= k < |all| ensures FiledAt(h, files', all, missized', k) {
      if k < |pending| {
        assert FiledAt(h, files, pending, missized, k);
        assert all[k] == pending[k];
      }
    }
  }

  lemma SummedOneMore(pending: seq<Record>, quotaUsed: nat, counts: Counts, repeated: bool, r: Record, added: Counts, again: bool)
    requires Summed(pending, quotaUsed, counts, repeated)
    requires Adds(r.system, added, again)
    ensures Summed(pending + [r], quotaUsed + r.size,
                   Counts(counts.answered + added.answered, counts.deleted + added.deleted, counts.flagged + added.flagged),
                   repeated || again)
  {
    OneMoreSize(pending, r);
    OneMoreFlag(pending, r, ANSWERED);
    OneMoreFlag(pending, r, DELETED);
    OneMoreFlag(pending, r, FLAGGED);
  }

  lemma {:induction false} SizeAppend(a: seq<Record>, b: seq<Record>)
    ensures SizeOf(a + b) == SizeOf(a) + SizeOf(b)
    decreases |b|
  {
    if b == [] {
      assert a + b == a;
    } else {
      assert (a + b)[..|a + b| - 1] == a + b[..|b| - 1];
      SizeAppend(a, b[..|b| - 1]);
    }
  }

  lemma {:induction false} HowManyAppend(a: seq<Record>, b: seq<Record>, f: SystemFlag)
    ensures HowMany(a + b, f) == HowMany(a, f) + HowMany(b, f)
    decreases |b|
  {
    if b == [] {
      assert a + b == a;
    } else {
      assert (a + b)[..|a + b| - 1] == a + b[..|b| - 1];
      HowManyAppend(a, b[..|b| - 1], f);
    }
  }

  function Committed(h: Header, n: nat, counts: Counts, used: nat): Header {
    Header(h.messages + n, h.lastUid + n, if h.condstore then h.highestModseq + 1 else h.highestModseq,
           Counts(h.counts.answered + counts.answered, h.counts.deleted + counts.deleted, h.counts.flagged + counts.flagged),
           h.used + used, h.condstore)
  }

  /** What a commit does to the header: one modification sequence more for all messages, if the mailbox has them. */
  lemma CommittedMeans(h: Header, n: nat, counts: Counts, used: nat)
    ensures var h' := Committed(h, n, counts, used);
            && h'.messages == h.messages + n && h'.lastUid == h.lastUid + n && h'.used == h.used + used
            && h'.condstore == h.condstore && h'.highestModseq == (if h.condstore then h.highestModseq + 1 else h.highestModseq)
            && h'.counts.answered == h.counts.answered + counts.answered
            && h'.counts.deleted == h.counts.deleted + counts.deleted
            && h'.counts.flagged == h.counts.flagged + counts.flagged
  {
  }

  /** Making the pending messages visible keeps the UIDs increasing and the modseqs below the highest. */
  lemma CommitOrdered(h: Header, visible: seq<Record>, files: map<nat, string>, pending: seq<Record>, missized: bool,
                      quotaUsed: nat, counts: Counts)
    requires Ordered(h, visible) && Filed(h, files, pending, missized)
    ensures Ordered(Committed(h, |pending|, counts, quotaUsed), visible + pending)
  {
    var h', all, n := Committed(h, |pending|, counts, quotaUsed), visible + pending, |visible|;
    forall i | 0 <= i < |all| ensures Within(h', all, i) {
      assert if i < n then Within(h, visible, i) else FiledAt(h, files, pending, missized, i - n);
    }
    forall i, j | 0 <= i < j < |all| ensures Rises(all, i, j) {
      if j < n {
        assert Rises(visible, i, j);
      } else {
        assert FiledAt(h, files, pending, missized, j - n);
        assert if i < n then Within(h, visible, i) else FiledAt(h, files, pending, missized, i - n);
      }
    }
  }

  /** The usage stays exact, and the flag counters stay exact exactly when no message repeated a counted flag. */
  lemma CommitCounts(h: Header, visible: seq<Record>, pending: seq<Record>, quotaUsed: nat, counts: Counts, repeated: bool)
    requires Summed(pending, quotaUsed, counts, repeated)
    ensures var h' := Committed(h, |pending|, counts, quotaUsed);
            && (h.used == SizeOf(visible) ==> h'.used == SizeOf(visible + pending))
            && (h.counts == CountsOfAll(visible) ==> (h'.counts == CountsOfAll(visible + pending) <==> !repeated))
  {
    SizeAppend(visible, pending);
    HowManyAppend(visible, pending, ANSWERED);
    HowManyAppend(visible, pending, DELETED);
    HowManyAppend(visible, pending, FLAGGED);
  }

  /** The flag table an append has in memory: free of duplicates, and with the names it had on disk. */
  ghost predicate TableKept(before: Slots, table: Slots, writeheader: nat) {
    && |table| == MAX_USER_FLAGS && NoDuplicates(table) && Keeps(before, table)
    && (writeheader == 0 <==> table == before)
  }

  /** The user flags asked for one message, and the slots it got. */
  datatype Marks = Marks(names: seq<string>, bits: set<nat>)

  /** The slots of every message are exactly those of the user flags asked for it. */
  ghost predicate AllExact(table: Slots, marks: seq<Marks>) {
    marks != [] ==>
      && Exact(table, marks[|marks| - 1].names, marks[|marks| - 1].bits)
      && AllExact(table, marks[..|marks| - 1])
  }

  lemma {:induction false} SlotsExact(table: Slots, marks: seq<Marks>, k: nat)
    requires AllExact(table, marks) && k < |marks|
    ensures Exact(table, marks[k].names, marks[k].bits)
    decreases |marks|
  {
    if k < |marks| - 1 {
      SlotsExact(table, marks[..|marks| - 1], k);
    }
  }

  lemma {:induction false} AllExactLater(before: Slots, table: Slots, marks: seq<Marks>)
    requires AllExact(before, marks) && Keeps(before, table) && NoDuplicates(table)
    ensures AllExact(table, marks)
    decreases |marks|
  {
    if marks != [] {
      ExactLater(before, marks[|marks| - 1].names, marks[|marks| - 1].bits, table);
      AllExactLater(before, table, marks[..|marks| - 1]);
    }
  }

  /** The flag table and the slots of the messages so far. */
  ghost predicate MarksKept(before: Slots, table: Slots, writeheader: nat, marks: seq<Marks>) {
    TableKept(before, table, writeheader) && AllExact(table, marks)
  }

  /** What the flags of one message may do to the table. */
  ghost predicate NamesAdded(table: Slots, table': Slots, m: Marks, created: nat) {
    NoDuplicates(table') && Keeps(table, table') && Exact(table', m.names, m.bits) && (created == 0 <==> table' == table)
  }

  lemma RequestedAdds(table: Slots, names: seq<string>, table': Slots, m: Marks, created: nat)
    requires NoDuplicates(table) && (table', m.bits) == Requested(table, names) && m.names == names
    requires created == 0 <==> table' == table
    ensures NamesAdded(table, table', m, created)
  {
    RequestedMeans(table, names);
  }

  lemma MarkedOneMore(before: Slots, table: Slots, writeheader: nat, marks: seq<Marks>, table': Slots, m: Marks, created: nat)
    requires MarksKept(before, table, writeheader, marks)
    requires NamesAdded(table, table', m, created)
    ensures MarksKept(before, table', writeheader + created, marks + [m])
  {
    AllExactLater(table, table', marks);
    KeepsOnward(before, table, table');
    if table != before {
      AddedForGood(before, table, table');
    }
    assert (marks + [m])[..|marks|] == marks;
  }

  predicate WordsAt(marks: seq<Marks>, records: seq<Record>, k: nat)
    requires k < |marks| && k < |records|
  {
    |records[k].user| == WORDS && Decoded(records[k].user) == marks[k].bits
  }

  /** The words of every record stand for its slots. */
  predicate WordsHold(marks: seq<Marks>, records: seq<Record>) {
    |marks| == |records| && forall k :: 0 <= k < |records| ==> WordsAt(marks, records, k)
  }

  lemma WordsOneMore(marks: seq<Marks>, records: seq<Record>, m: Marks, r: Record)
    requires WordsHold(marks, records) && |r.user| == WORDS && Decoded(r.user) == m.bits
    ensures WordsHold(marks + [m], records + [r])
  {
    forall k | 0 <= k < |records| + 1 ensures WordsAt(marks + [m], records + [r], k) {
      assert k < |records| ==> WordsAt(marks, records, k);
    }
  }

  /** What an append counts: its messages, their flags, their sizes, and the names it added to the table. */
  datatype Tally = Tally(nummsg: nat, counts: Counts, quotaUsed: nat, writeheader: nat)

  /**
   What the model remembers beside it: the user flags of each message, whether some counted flag was set
   twice by one list, and whether a record's size is not its file's.
   */
  datatype Trace = Trace(marks: seq<Marks>, repeated: bool, missized: bool)

  /** How far an append has come: what it counts, the table in memory, the new \Seen UIDs, and the trace. */
  datatype Progress = Progress(tally: Tally, table: Slots, seen: set<nat>, trace: Trace)

  ghost predicate Built(start: Disk, p: Progress, files: map<nat, string>, records: seq<Record>) {
    && |records| == p.tally.nummsg
    && Filed(start.header, files, records, p.trace.missized)
    && Summed(records, p.tally.quotaUsed, p.tally.counts, p.trace.repeated)
    && MarksKept(start.flagTable, p.table, p.tally.writeheader, p.trace.marks)
    && WordsHold(p.trace.marks, records)
    && forall u :: u in p.seen ==> InRange(start.header, p.tally.nummsg, u)
  }

  /** One more message with record `r`: what its flags add, and how many names are new in the table. */
  function Counted(t: Tally, r: Record, added: Counts, created: nat): Tally {
    Tally(t.nummsg + 1,
          Counts(t.counts.answered + added.answered, t.counts.deleted + added.deleted, t.counts.flagged + added.flagged),
          t.quotaUsed + r.size, t.writeheader + created)
  }

  function Traced(t: Trace, r: Record, content: string, names: seq<string>, again: bool): Trace
    requires |r.user| == WORDS
  {
    Trace(t.marks + [Marks(names, Decoded(r.user))], t.repeated || again, t.missized || r.size != |content|)
  }

  /** From `p` to `q` the append took one more message: record `r`, its file, its flags and what they add. */
  ghost predicate Advances(p: Progress, q: Progress, r: Record, content: string,
                           added: Counts, again: bool, names: seq<string>, seen: bool)
  {
    && |r.user| == WORDS
    && q.tally.writeheader >= p.tally.writeheader
    && q.tally == Counted(p.tally, r, added, q.tally.writeheader - p.tally.writeheader)
    && q.trace == Traced(p.trace, r, content, names, again)
    && q.seen == p.seen + (if seen then {r.uid} else {})
    && NamesAdded(p.table, q.table, Marks(names, Decoded(r.user)), q.tally.writeheader - p.tally.writeheader)
  }

  lemma BuiltOneMore(start: Disk, p: Progress, q: Progress, files: map<nat, string>, records: seq<Record>, r: Record, content: string,
                     added: Counts, again: bool, names: seq<string>, seen: bool)
    requires Built(start, p, files, records) && Advances(p, q, r, content, added, again, names, seen)
    requires r.uid == start.header.lastUid + 1 + p.tally.nummsg
    requires r.modseq == if start.header.condstore then start.header.highestModseq + 1 else 1
    requires Adds(r.system, added, again)
    ensures Built(start, q, files[r.uid := content], records + [r])
  {
    var m, created := Marks(names, Decoded(r.user)), q.tally.writeheader - p.tally.writeheader;
    FiledOneMore(start.header, files, records, p.trace.missized, r, content);
    SummedOneMore(records, p.tally.quotaUsed, p.tally.counts, p.trace.repeated, r, added, again);
    MarkedOneMore(start.flagTable, p.table, p.tally.writeheader, p.trace.marks, q.table, m, created);
    WordsOneMore(p.trace.marks, records, m, r);
  }

  function Without(files: map<nat, string>, last: nat, n: nat): map<nat, string> {
    map u | u in files && !(last < u <= last + n) :: files[u]
  }

  /** Everything the append did is undone; files whose numbers it would have used are gone. */
  ghost predicate Restored(start: Disk, d: Disk, n: nat) {
    && d.header == start.header && d.header.messages <= |start.index| && d.header.messages <= |d.index|
    && Visible(d) == Visible(start) && d.files == Without(start.files, d.header.lastUid, n)
    && d.cacheLen == start.cacheLen && d.quotaUsed == start.quotaUsed && d.seenuids == start.seenuids
  }

  /** Unlinking the range and truncating the cache restores what was there at setup. */
  lemma UndoRestores(start: Disk, d: Disk, n: nat)
    requires Untouched(start, d, n)
    ensures Restored(start, d.(files := Without(d.files, start.header.lastUid, n), cacheLen := start.cacheLen), n)
  {
    var a, b := Without(d.files, start.header.lastUid, n), Without(start.files, start.header.lastUid, n);
    forall u: nat ensures Lookup(a, u) == Lookup(b, u) {
      assert !InRange(start.header, n, u) ==> Lookup(d.files, u) == Lookup(start.files, u);
    }
    SameLookups(a, b);
  }

  lemma SameLookups(a: map<nat, string>, b: map<nat, string>)
    requires forall u: nat :: Lookup(a, u) == Lookup(b, u)
    ensures a == b
  {
    forall u: nat ensures u in a <==> u in b {
      assert Lookup(a, u) == Lookup(b, u);
    }
    forall u: nat | u in a ensures a[u] == b[u] {
      assert Lookup(a, u) == Lookup(b, u);
    }
  }

  /** A mailbox without stray files above its last UID gets exactly its files back. */
  lemma NothingLost(start: Disk, n: nat)
    requires forall u :: u in start.files ==> u <= start.header.lastUid
    ensures Without(start.files, start.header.lastUid, n) == start.files
  {
  }

  /** Writing records at a record number overwrites what is there and extends the file as needed. */
  function Put(index: seq<Record>, at: nat, records: seq<Record>): (r: seq<Record>)
    requires at <= |index|
    ensures |r| >= at + |records| && r[..at] == index[..at] && r[at..at + |records|] == records
  {
    index[..at] + records + (if at + |records| <= |index| then index[at + |records|..] else [])
  }

  /** The records an append has written behind the visible ones. */
  function Hidden(d: Disk, n: nat): seq<Record> {
    if d.header.messages + n <= |d.index| then d.index[d.header.messages..d.header.messages + n] else []
  }

  lemma PutBehind(d: Disk, n: nat, records: seq<Record>)
    requires d.header.messages + n <= |d.index|
    ensures var d' := d.(index := Put(d.index, d.header.messages + n, records));
            && d.header.messages + n + |records| <= |d'.index|
            && Visible(d') == Visible(d) && Hidden(d', n + |records|) == Hidden(d, n) + records
  {
    PutSplits(d.index, Put(d.index, d.header.messages + n, records), d.header.messages, d.header.messages + n, records);
  }

  lemma PutSplits(index: seq<Record>, index': seq<Record>, m: nat, at: nat, records: seq<Record>)
    requires m <= at <= |index| && at + |records| <= |index'|
    requires index'[..at] == index[..at] && index'[at..at + |records|] == records
    ensures index'[..m] == index[..m] && index'[m..at + |records|] == index[m..at] + records
  {
    assert index'[..m] == index'[..at][..m];
    assert index[..m] == index[..at][..m];
    assert index'[m..at] == index'[..at][m..];
    assert index[m..at] == index[..at][m..];
    assert index'[m..at + |records|] == index'[m..at] + index'[at..at + |records|];
  }

  /** An append is under way; `records` are the messages it has built so far. */
  ghost predicate UnderWay(start: Disk, mem: Header, d: Disk, p: Progress, records: seq<Record>) {
    && mem == start.header && Untouched(start, d, p.tally.nummsg) && d.flagTable == start.flagTable
    && Built(start, p, d.files, records)
  }

  /** What append_commit leaves behind when all its writes up to the index header succeed. */
  ghost predicate MadeVisible(start: Disk, d: Disk, p: Progress, records: seq<Record>, seen: set<nat>, quotaUsed: nat, d': Disk)
    requires start.header.messages <= |start.index| && WellFormed(start.seenuids)
  {
    && d'.header == Committed(start.header, p.tally.nummsg, p.tally.counts, p.tally.quotaUsed)
    && d'.index == d.index && d'.header.messages <= |d'.index| && Visible(d') == Visible(start) + records
    && d'.files == d.files && d'.flagTable == p.table
    && d'.quotaUsed == start.quotaUsed + quotaUsed
    && WellFormed(d'.seenuids) && Denoted(d'.seenuids) == Denoted(start.seenuids) + seen
  }

  lemma BecomesVisible(start: Disk, d: Disk, p: Progress, records: seq<Record>, seen: set<nat>, quotaUsed: nat, d': Disk)
    requires Sound(start) && UnderWay(start, start.header, d, p, records)
    requires d.header.messages + p.tally.nummsg <= |d.index| && records == Hidden(d, p.tally.nummsg)
    requires d' == d.(header := Committed(start.header, p.tally.nummsg, p.tally.counts, p.tally.quotaUsed),
                      flagTable := p.table, quotaUsed := d.quotaUsed + quotaUsed, seenuids := d'.seenuids)
    requires WellFormed(d'.seenuids) && Denoted(d'.seenuids) == Denoted(d.seenuids) + seen
    ensures MadeVisible(start, d, p, records, seen, quotaUsed, d')
  {
    var m, n := d.header.messages, p.tally.nummsg;
    assert d.index[..m + n] == d.index[..m] + d.index[m..m + n];
  }

  /** The mailbox stays in order. */
  lemma MadeVisibleSound(start: Disk, d: Disk, p: Progress, records: seq<Record>, seen: set<nat>, quotaUsed: nat, d': Disk)
    requires Sound(start) && Built(start, p, d.files, records) && seen <= p.seen
    requires MadeVisible(start, d, p, records, seen, quotaUsed, d')
    ensures Sound(d')
  {
    CommitOrdered(start.header, Visible(start), d.files, records, p.trace.missized, p.tally.quotaUsed, p.tally.counts);
  }

  /** The usage stays exact, and the flag counters stay exact exactly when no message repeated a counted flag. */
  lemma MadeVisibleCounts(start: Disk, d: Disk, p: Progress, records: seq<Record>, seen: set<nat>, quotaUsed: nat, d': Disk)
    requires Sound(start) && Built(start, p, d.files, records)
    requires MadeVisible(start, d, p, records, seen, quotaUsed, d')
    ensures UsageAgrees(start) ==> UsageAgrees(d')
    ensures CountersAgree(start) ==> (CountersAgree(d') <==> !p.trace.repeated)
  {
    CommitCounts(start.header, Visible(start), records, p.tally.quotaUsed, p.tally.counts, p.trace.repeated);
  }

  /** Every message that an append made visible carries exactly the user flags asked for that have a slot. */
  lemma MadeVisibleFlags(start: Disk, d: Disk, p: Progress, records: seq<Record>, seen: set<nat>, quotaUsed: nat, d': Disk, k: nat)
    requires Sound(start) && Built(start, p, d.files, records)
    requires MadeVisible(start, d, p, records, seen, quotaUsed, d')
    requires k < |records|
    ensures |p.trace.marks| == |records| && start.header.messages + k < d'.header.messages
    ensures var r := Visible(d')[start.header.messages + k];
            && r == records[k] && |r.user| == WORDS && r.uid == start.header.lastUid + 1 + k
            && Exact(d'.flagTable, p.trace.marks[k].names, Decoded(r.user))
  {
    assert WordsAt(p.trace.marks, records, k);
    SlotsExact(p.table, p.trace.marks, k);
    assert FiledAt(start.header, d.files, records, p.trace.missized, k);
  }
}
