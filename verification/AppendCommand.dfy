/**
 Opening a mailbox for appending, and the part of the APPEND command that appends the staged messages and
 answers with their UIDs.
 */
module AppendCommand {
  import opened Wrappers
  import opened Decimal
  import opened SeenRange
  import opened UserFlags
  import opened MessageFlags
  import opened AppendState
  import opened Append

  const QUOTA_UNITS: int := 1024

  datatype Acl =
    | ACL_LOOKUP | ACL_READ | ACL_SEEN | ACL_WRITE | ACL_INSERT | ACL_POST | ACL_CREATE
    | ACL_DELETEMBOX | ACL_DELETEMSG | ACL_EXPUNGE | ACL_ADMIN

  datatype SetupError = PermissionDenied | Nonexistent | NotSupported | QuotaExceeded | SystemError

  /** quota_read; a missing quota root is no error, and no limit. */
  datatype QuotaRead = Read | NoRoot | Unreadable

  /** Which of the calls that open and lock the mailbox succeed. */
  datatype Opening = Opening(openHeader: bool, lockHeader: bool, openIndex: bool, lockIndex: bool, quota: QuotaRead)

  datatype Opened = Ready(append: Transaction) | Rejected(error: SetupError)

  /** The limit is exceeded; a negative limit is no limit, and a negative check asks for none. */
  predicate OverQuota(used: nat, limit: int, quotacheck: int) {
    limit >= 0 && quotacheck >= 0 && used + quotacheck > limit * QUOTA_UNITS
  }

  /** The limit is in units of 1024 bytes. */
  lemma OverQuotaIff(used: nat, limit: int, quotacheck: int)
    ensures OverQuota(used, limit, quotacheck) <==> limit >= 0 && quotacheck >= 0 && used + quotacheck > 1024 * limit
  {
  }

  /** Why append_setup refuses, if it does: rights before the format, the format before the quota. */
  function Refusal(io: Opening, myrights: set<Acl>, aclcheck: set<Acl>, supported: bool, used: nat, limit: int, quotacheck: int)
    : Option<SetupError>
  {
    if !io.openHeader then Some(SystemError)
    else if !(aclcheck <= myrights) then Some(if ACL_LOOKUP in myrights then PermissionDenied else Nonexistent)
    else if !io.lockHeader || !io.openIndex then Some(SystemError)
    else if !supported then Some(NotSupported)
    else if !io.lockIndex || io.quota == Unreadable then Some(SystemError)
    else if io.quota == Read && OverQuota(used, limit, quotacheck) then Some(QuotaExceeded)
    else None
  }

  /** When each of the refusals is given. */
  lemma RefusalMeans(io: Opening, myrights: set<Acl>, aclcheck: set<Acl>, supported: bool, used: nat, limit: int, quotacheck: int)
    ensures var r, permitted := Refusal(io, myrights, aclcheck, supported, used, limit, quotacheck), aclcheck <= myrights;
            && (r == Some(PermissionDenied) <==> io.openHeader && !permitted && ACL_LOOKUP in myrights)
            && (r == Some(Nonexistent) <==> io.openHeader && !permitted && ACL_LOOKUP !in myrights)
            && (r == Some(NotSupported) <==> io.openHeader && permitted && io.lockHeader && io.openIndex && !supported)
            && (r == Some(QuotaExceeded) <==>
                  && io.openHeader && permitted && io.lockHeader && io.openIndex && supported && io.lockIndex
                  && io.quota == Read && limit >= 0 && quotacheck >= 0 && used + quotacheck > 1024 * limit)
            && (r == None <==>
                  && io.openHeader && permitted && io.lockHeader && io.openIndex && supported && io.lockIndex
                  && (io.quota == NoRoot || (io.quota == Read && !(limit >= 0 && quotacheck >= 0 && used + quotacheck > 1024 * limit))))
  {
  }

  /** append_setup */
  method Setup(io: Opening, d: Disk, userid: string, myrights: set<Acl>, aclcheck: set<Acl>, supported: bool, limit: int, quotacheck: int)
    returns (o: Opened)
    requires Sound(d)
    ensures Refusal(io, myrights, aclcheck, supported, d.quotaUsed, limit, quotacheck) == if o.Ready? then None else Some(o.error)
    ensures o.Ready? ==>
              var a := o.append;
              && fresh(a) && fresh(a.flagname) && fresh(a.seen)
              && a.Valid() && !a.done && a.start == d && a.disk == d && a.tally.nummsg == 0
              && a.userid == userid && a.rights == Rights(ACL_WRITE in myrights, ACL_DELETEMSG in myrights) && !a.trace.repeated
  {
    if !io.openHeader {
      return Rejected(SystemError);
    }
    if !(aclcheck <= myrights) {
      return Rejected(if ACL_LOOKUP in myrights then PermissionDenied else Nonexistent);
    }
    if !io.lockHeader {
      return Rejected(SystemError);
    }
    if !io.openIndex {
      return Rejected(SystemError);
    }
    if !supported {
      return Rejected(NotSupported);
    }
    if !io.lockIndex || io.quota == Unreadable {
      return Rejected(SystemError);
    }
    if io.quota == Read && limit >= 0 && quotacheck >= 0 && d.quotaUsed + quotacheck > limit * QUOTA_UNITS {
      return Rejected(QuotaExceeded);
    }
    var a := new Transaction(d, userid, Rights(ACL_WRITE in myrights, ACL_DELETEMSG in myrights));
    o := Ready(a);
  }

  /** One staged message: whether its stage file can be had, what becomes of it, and the flags asked for. */
  datatype Arrival = Arrival(staged: bool, spool: Spool, names: seq<string>, indexed: bool)

  predicate Arrives(a: Arrival) {
    a.staged && a.spool.Spooled? && a.indexed
  }

  predicate AnyRepeated(rights: Rights, arrivals: seq<Arrival>) {
    exists k :: 0 <= k < |arrivals| && !NoneRepeated(rights, arrivals[k].names)
  }

  /** The UID set of an APPENDUID response code. */
  function AppendUids(first: nat, num: nat): string
    requires num > 0
  {
    if num == 1 then Print(first) else Print(first) + ":" + Print(first + num - 1)
  }

  predicate Between(a: nat, u: nat, b: nat) {
    a <= u < b
  }

  /** The set that the client is told names exactly these UIDs. */
  ghost predicate Announces(uids: string, first: nat, num: nat) {
    && WellFormed(uids)
    && forall u: nat :: u in Denoted(uids) <==> Between(first, u, first + num)
  }

  lemma AppendUidsMean(first: nat, num: nat)
    requires num > 0
    ensures Announces(AppendUids(first, num), first, num)
  {
    var a, b := Print(first), Print(first + num - 1);
    PrintThenRead(first);
    PrintThenRead(first + num - 1);
    SingleNumberMeans(a);
    FoldDigits(START, a);
    FoldAround(START, a, ':', b);
    FoldDigits(Step(START.(cur := Some(first)), ':'), b);
    assert a + ":" + b == a + [':'] + b;
  }

  /** Record `k` and its marks are what message `k` asked for. */
  predicate ArrivedAt(rights: Rights, arrivals: seq<Arrival>, records: seq<Record>, marks: seq<Marks>, k: nat)
    requires k < |arrivals| && k < |records| && k < |marks|
  {
    && Arrives(arrivals[k])
    && records[k].system == SystemSet(rights, arrivals[k].names)
    && records[k].size == (if arrivals[k].spool.readable then |arrivals[k].spool.content| else 0)
    && marks[k].names == Users(rights, arrivals[k].names)
  }

  /** The UIDs of the messages that were to be \\Seen, when the first message gets UID `first`. */
  function ArrivedSeen(first: nat, arrivals: seq<Arrival>): set<nat> {
    if arrivals == [] then {}
    else
      var n := |arrivals| - 1;
      ArrivedSeen(first, arrivals[..n]) + (if AsksSeen(arrivals[n].names) then {first + n} else {})
  }

  lemma {:induction false} ArrivedSeenIff(first: nat, arrivals: seq<Arrival>, uid: nat)
    ensures uid in ArrivedSeen(first, arrivals) <==>
            first <= uid < first + |arrivals| && "\\seen" in arrivals[uid - first].names
    decreases |arrivals|
  {
    if arrivals != [] {
      var n := |arrivals| - 1;
      ArrivedSeenIff(first, arrivals[..n], uid);
      AsksSeenIff(arrivals[n].names);
    }
  }

  /** The files of the first `i` messages are in place. */
  predicate FilesIn(arrivals: seq<Arrival>, first: nat, i: nat, files: map<nat, string>)
    requires i <= |arrivals|
  {
    forall k :: 0 <= k < i ==> FileAt(arrivals, first, files, k)
  }

  predicate FileAt(arrivals: seq<Arrival>, first: nat, files: map<nat, string>, k: nat)
    requires k < |arrivals|
  {
    arrivals[k].spool.Spooled? && first + k in files && files[first + k] == arrivals[k].spool.content
  }

  lemma FilesOneMore(arrivals: seq<Arrival>, first: nat, i: nat, files: map<nat, string>)
    requires i < |arrivals| && arrivals[i].spool.Spooled? && FilesIn(arrivals, first, i, files)
    ensures FilesIn(arrivals, first, i + 1, files[first + i := arrivals[i].spool.content])
  {
    var files' := files[first + i := arrivals[i].spool.content];
    forall k | 0 <= k < i + 1 ensures FileAt(arrivals, first, files', k) {
      assert k < i ==> FileAt(arrivals, first, files, k);
    }
  }

  /** The append has taken the first `i` messages, of which the first got UID `first`. */
  predicate Arrived(rights: Rights, arrivals: seq<Arrival>, first: nat, i: nat, p: Progress, records: seq<Record>,
                    files: map<nat, string>)
    requires i <= |arrivals|
  {
    && |records| == |p.trace.marks| == p.tally.nummsg == i
    && (forall k :: 0 <= k < i ==> ArrivedAt(rights, arrivals, records, p.trace.marks, k))
    && p.trace.repeated == AnyRepeated(rights, arrivals[..i])
    && p.seen == ArrivedSeen(first, arrivals[..i])
    && FilesIn(arrivals, first, i, files)
  }

  lemma RepeatedOneMore(rights: Rights, arrivals: seq<Arrival>, i: nat)
    requires i < |arrivals|
    ensures AnyRepeated(rights, arrivals[..i + 1]) <==>
            AnyRepeated(rights, arrivals[..i]) || !NoneRepeated(rights, arrivals[i].names)
  {
    var a, b := arrivals[..i], arrivals[..i + 1];
    if AnyRepeated(rights, a) {
      var k :| 0 <= k < |a| && !NoneRepeated(rights, a[k].names);
      assert !NoneRepeated(rights, b[k].names);
    }
    if !NoneRepeated(rights, arrivals[i].names) {
      assert !NoneRepeated(rights, b[i].names);
    }
    if AnyRepeated(rights, b) {
      var k :| 0 <= k < |b| && !NoneRepeated(rights, b[k].names);
      assert k < i ==> !NoneRepeated(rights, a[k].names);
    }
  }

  lemma ArrivedOneMore(rights: Rights, arrivals: seq<Arrival>, first: nat, i: nat, p: Progress, records: seq<Record>,
                       files: map<nat, string>, r: Record, q: Progress)
    requires i < |arrivals| && Arrives(arrivals[i]) && Arrived(rights, arrivals, first, i, p, records, files)
    requires r.uid == first + i
    requires AppendStep(rights, arrivals[i].names, arrivals[i].spool.content, arrivals[i].spool.readable, p, q, r)
    ensures Arrived(rights, arrivals, first, i + 1, q, records + [r], files[r.uid := arrivals[i].spool.content])
  {
    var records' := records + [r];
    forall k | 0 <= k < i + 1 ensures ArrivedAt(rights, arrivals, records', q.trace.marks, k) {
      assert k < i ==> ArrivedAt(rights, arrivals, records, p.trace.marks, k);
    }
    RepeatedOneMore(rights, arrivals, i);
    FilesOneMore(arrivals, first, i, files);
    assert arrivals[..i + 1][..i] == arrivals[..i];
  }

  /** The append is under way and has taken the first `i` messages. */
  ghost predicate Staging(a: Transaction, arrivals: seq<Arrival>, i: nat)
    requires i <= |arrivals|
    reads a, a.flagname, a.seen
  {
    && a.Valid() && !a.done && a.mem == a.start.header && a.tally.nummsg == i
    && Arrived(a.rights, arrivals, a.start.header.lastUid + 1, i, a.Now(), a.Pending(), a.disk.files)
  }

  /** The append gave up by itself, or is still open after `tries` messages. */
  ghost predicate Stopped(a: Transaction, tries: nat)
    reads a
  {
    if a.done then Restored(a.start, a.disk, tries) && a.disk.flagTable == a.start.flagTable
    else a.tally.nummsg == tries
  }

  /** One round of the loop. */
  method AppendNext(a: Transaction, arrivals: seq<Arrival>, i: nat) returns (ok: bool)
    requires i < |arrivals| && Staging(a, arrivals, i) && a.mem.lastUid + |arrivals| <= INT_MAX
    modifies a, a.flagname, a.seen
    ensures a.start == old(a.start) && a.Valid()
    ensures ok <==> Arrives(arrivals[i])
    ensures ok ==> Staging(a, arrivals, i + 1)
    ensures !ok ==> Stopped(a, if arrivals[i].staged then i + 1 else i)
  {
    hide Arrived, AppendStep, Built, Untouched, Restored, UnderWay;
    if !arrivals[i].staged {
      return false;
    }
    ghost var p, records, files := a.Now(), a.Pending(), a.disk.files;
    ghost var r, q;
    ok, r, q := a.AppendOne(arrivals[i].spool, arrivals[i].names, arrivals[i].indexed);
    if ok {
      ArrivedOneMore(a.rights, arrivals, a.start.header.lastUid + 1, i, p, records, files, r, q);
    }
  }

  /** The loop of the APPEND command over its staged messages. */
  method AppendStaged(a: Transaction, arrivals: seq<Arrival>) returns (ok: bool, ghost tries: nat)
    requires Staging(a, arrivals, 0) && a.mem.lastUid + |arrivals| <= INT_MAX
    modifies a, a.flagname, a.seen
    ensures a.start == old(a.start) && a.Valid() && tries <= |arrivals| && (ok ==> tries == |arrivals|)
    ensures ok <==> forall k :: 0 <= k < |arrivals| ==> Arrives(arrivals[k])
    ensures ok ==> Staging(a, arrivals, |arrivals|)
    ensures !ok ==> Stopped(a, tries)
  {
    ok, tries := true, 0;
    for i := 0 to |arrivals|
      invariant a.start == old(a.start) && Staging(a, arrivals, i) && a.mem.lastUid + |arrivals| <= INT_MAX
      invariant forall k :: 0 <= k < i ==> Arrives(arrivals[k])
    {
      ok := AppendNext(a, arrivals, i);
      if !ok {
        tries := if arrivals[i].staged then i + 1 else i;
        return;
      }
    }
    tries := |arrivals|;
  }

  /** Message `k` is in the mailbox as it was asked for. */
  ghost predicate NewMessageAt(rights: Rights, arrivals: seq<Arrival>, d: Disk, d': Disk, k: nat)
    requires k < |arrivals| && d.header.messages + |arrivals| == d'.header.messages <= |d'.index|
  {
    var r, a := Visible(d')[d.header.messages + k], arrivals[k];
    && a.spool.Spooled? && r.uid == d.header.lastUid + 1 + k
    && r.modseq == (if d.header.condstore then d.header.highestModseq + 1 else 1)
    && HasFlags(rights.write, rights.deleteMessages, a.names, r.system)
    && r.size == (if a.spool.readable then |a.spool.content| else 0)
    && r.uid in d'.files && d'.files[r.uid] == a.spool.content
    && |r.user| == WORDS && Exact(d'.flagTable, Users(rights, a.names), Decoded(r.user))
  }

  /** What a successful APPEND does to the mailbox, however many messages it has. */
  ghost predicate Appended(rights: Rights, arrivals: seq<Arrival>, seen: set<nat>, quota: bool, d: Disk, d': Disk)
    requires Sound(d)
  {
    && Sound(d') && d'.header.messages == d.header.messages + |arrivals|
    && d'.header.lastUid == d.header.lastUid + |arrivals|
    && Visible(d')[..d.header.messages] == Visible(d)
    && (forall k :: 0 <= k < |arrivals| ==> NewMessageAt(rights, arrivals, d, d', k))
    && d'.header.condstore == d.header.condstore
    && d'.header.highestModseq == (if d.header.condstore then d.header.highestModseq + 1 else d.header.highestModseq)
    && SameOutside(d.header, |arrivals|, d'.files, d.files)
    && (UsageAgrees(d) ==> UsageAgrees(d'))
    && (CountersAgree(d) ==> (CountersAgree(d') <==> !AnyRepeated(rights, arrivals)))
    && d'.quotaUsed - d.quotaUsed == (if quota then d'.header.used - d.header.used else 0)
    && Denoted(d'.seenuids) == Denoted(d.seenuids) + seen
  }

  lemma VisibleIsAppended(rights: Rights, arrivals: seq<Arrival>, start: Disk, d: Disk, p: Progress, records: seq<Record>,
                          seen: set<nat>, quota: bool, d': Disk)
    requires Sound(start) && Built(start, p, d.files, records)
    requires Arrived(rights, arrivals, start.header.lastUid + 1, |arrivals|, p, records, d.files) && seen <= p.seen
    requires MadeVisible(start, d, p, records, seen, if quota then p.tally.quotaUsed else 0, d')
    requires Untouched(start, d, |arrivals|)
    ensures Appended(rights, arrivals, seen, quota, start, d')
  {
    var used := if quota then p.tally.quotaUsed else 0;
    MadeVisibleSound(start, d, p, records, seen, used, d');
    MadeVisibleCounts(start, d, p, records, seen, used, d');
    CommittedMeans(start.header, p.tally.nummsg, p.tally.counts, p.tally.quotaUsed);
    assert arrivals[..|arrivals|] == arrivals;
    forall k | 0 <= k < |arrivals| ensures NewMessageAt(rights, arrivals, start, d', k) {
      MadeVisibleFlags(start, d, p, records, seen, used, d', k);
      assert ArrivedAt(rights, arrivals, records, p.trace.marks, k) && FileAt(arrivals, start.header.lastUid + 1, d.files, k);
      assert FiledAt(start.header, d.files, records, p.trace.missized, k);
      SystemSetMeans(rights, arrivals[k].names);
    }
  }

  datatype Reply = Refused(error: SetupError) | No | Ok(uids: Option<string>)

  /** append_abort by the caller: without effect when the append has already given up. */
  method GiveUp(a: Transaction)
    requires a.Valid()
    modifies a
    ensures old(a.done) ==> a.disk == old(a.disk)
    ensures !old(a.done) ==> Restored(old(a.start), a.disk, old(a.tally.nummsg)) && a.disk.flagTable == old(a.disk.flagTable)
  {
    if !a.done {
      UndoRestores(a.start, a.disk, a.tally.nummsg);
    }
    a.Abort();
  }

  /** The commit, and the answer to the client. */
  method Conclude(a: Transaction, arrivals: seq<Arrival>, io: Writes, mayRead: bool) returns (reply: Reply)
    requires arrivals != [] && Sound(a.start) && a.mem.lastUid + |arrivals| <= INT_MAX
    requires Staging(a, arrivals, |arrivals|)
    modifies a
    ensures !reply.Refused? && (reply.Ok? <==> a.EarlyWrites(io) && io.indexHeader)
    ensures reply.Ok? ==> Appended(a.rights, arrivals, old(a.SeenSet(io)), io.quota, old(a.start), a.disk)
    ensures reply.Ok? ==> (reply.uids.Some? <==> mayRead)
    ensures reply.Ok? && mayRead ==> reply.uids.value == AppendUids(old(a.start).header.lastUid + 1, |arrivals|)
    ensures reply.No? && io.indexHeader ==> Restored(old(a.start), a.disk, |arrivals|)
  {
    ghost var p, records, before, start := a.Now(), a.Pending(), a.disk, a.start;
    var ok, first, num := a.Commit(io);
    if !ok {
      return No;
    }
    VisibleIsAppended(a.rights, arrivals, start, before, p, records, a.SeenSet(io), io.quota, a.disk);
    reply := Ok(if mayRead then Some(AppendUids(first, num)) else None);
  }

  /** What the command leaves when it fails before the index header is written: the mailbox as it was. */
  ghost predicate Unchanged(d: Disk, d': Disk, tries: nat) {
    Restored(d, d', tries) && ((forall u :: u in d.files ==> u <= d.header.lastUid) ==> d'.files == d.files)
  }

  lemma RestoredIsUnchanged(d: Disk, d': Disk, tries: nat)
    requires Restored(d, d', tries)
    ensures Unchanged(d, d', tries)
  {
    if forall u :: u in d.files ==> u <= d.header.lastUid {
      NothingLost(d, tries);
    }
  }

  /** The staged messages go into the opened mailbox, all or none. */
  method AppendAll(a: Transaction, arrivals: seq<Arrival>, io: Writes, mayRead: bool)
    returns (reply: Reply, ghost tries: nat)
    requires arrivals != [] && Sound(a.start) && Staging(a, arrivals, 0) && a.mem.lastUid + |arrivals| <= INT_MAX
    modifies a, a.flagname, a.seen
    ensures !reply.Refused?
    ensures reply.Ok? ==>
              Appended(a.rights, arrivals,
                       if a.userid != "" && io.seen then ArrivedSeen(old(a.start).header.lastUid + 1, arrivals) else {},
                       io.quota, old(a.start), a.disk)
    ensures reply.Ok? ==> (reply.uids.Some? <==> mayRead)
    ensures reply.Ok? && mayRead ==> reply.uids.value == AppendUids(old(a.start).header.lastUid + 1, |arrivals|)
    ensures reply.No? && io.indexHeader ==> tries <= |arrivals| && Unchanged(old(a.start), a.disk, tries)
    ensures reply.No? ==> !(io.header && io.cache && io.index && io.indexHeader && forall k :: 0 <= k < |arrivals| ==> Arrives(arrivals[k]))
  {
    ghost var start := a.start;
    var ok;
    ok, tries := AppendStaged(a, arrivals);
    if ok {
      assert arrivals[..|arrivals|] == arrivals;
      reply := Conclude(a, arrivals, io, mayRead);
    } else {
      GiveUp(a);
      reply := No;
    }
    if reply.No? && io.indexHeader {
      RestoredIsUnchanged(start, a.disk, tries);
    }
  }

  /** The APPEND command once its messages are staged. */
  method AppendMessages(opening: Opening, d: Disk, userid: string, myrights: set<Acl>, supported: bool, limit: int, totalsize: int,
                        arrivals: seq<Arrival>, io: Writes)
    returns (reply: Reply, d': Disk, ghost tries: nat)
    requires Sound(d) && arrivals != [] && d.header.lastUid + |arrivals| <= INT_MAX
    ensures Refusal(opening, myrights, {ACL_INSERT}, supported, d.quotaUsed, limit, totalsize) ==
            (if reply.Refused? then Some(reply.error) else None)
    ensures reply.Refused? ==> d' == d
    ensures reply.Ok? ==>
              Appended(Rights(ACL_WRITE in myrights, ACL_DELETEMSG in myrights), arrivals,
                       if userid != "" && io.seen then ArrivedSeen(d.header.lastUid + 1, arrivals) else {}, io.quota, d, d')
    // The client is told exactly the UIDs of its messages, if it may read the mailbox.
    ensures reply.Ok? ==> (reply.uids.Some? <==> ACL_READ in myrights)
    ensures reply.Ok? && reply.uids.Some? ==> Announces(reply.uids.value, d.header.lastUid + 1, |arrivals|)
    // Anything that fails before the index header leaves the mailbox as it was.
    ensures reply.No? && io.indexHeader ==> tries <= |arrivals| && Unchanged(d, d', tries)
    ensures reply.No? ==> !(io.header && io.cache && io.index && io.indexHeader && forall k :: 0 <= k < |arrivals| ==> Arrives(arrivals[k]))
  {
    tries := 0;
    var o := Setup(opening, d, userid, myrights, {ACL_INSERT}, supported, limit, totalsize);
    if o.Rejected? {
      return Refused(o.error), d, tries;
    }
    var a := o.append;
    assert arrivals[..0] == [] && a.Pending() == [];
    reply, tries := AppendAll(a, arrivals, io, ACL_READ in myrights);
    d' := a.disk;
    AppendUidsMean(d.header.lastUid + 1, |arrivals|);
  }
}
