/**
 idled: who idles on which mailbox.  Clients register and leave, and a change to a mailbox signals those
 that idle on it and drops those that have been idle for too long.
 */
module Idled {
  import opened Wrappers
  import opened IdleLists

  class Ientry {
    var pid: int
    var itime: int
    var next: Ientry?

    constructor ()
    {
      next := null;
    }
  }

  const ITABLE_INC: nat := 100

  /** The first entry of a process, or the length of the list. */
  function FirstOf(c: seq<Entry>, pid: int): (i: nat)
    ensures i <= |c| && (i < |c| ==> c[i].pid == pid)
    ensures forall j :: 0 <= j < i ==> c[j].pid != pid
  {
    if c == [] || c[0].pid == pid then 0 else 1 + FirstOf(c[1..], pid)
  }

  function RemoveFirst(c: seq<Entry>, pid: int): (r: seq<Entry>)
    ensures |r| <= |c|
  {
    var i := FirstOf(c, pid);
    if i < |c| then RemoveAt(c, i) else c
  }

  predicate Expired(e: Entry, timeout: int, now: int) {
    e.itime + timeout < now
  }

  /** What the walk of a notification leaves of the entries it has passed. */
  function Walk(c: seq<Entry>, timeout: int, now: int): (r: seq<Entry>)
    ensures |r| <= |c|
  {
    if c == [] then []
    else
      var e, before := c[|c| - 1], Walk(c[..|c| - 1], timeout, now);
      if Expired(e, timeout, now) then RemoveFirst(before + [e], e.pid) else before + [e]
  }

  /** The entries that have not expired, in order. */
  function Live(c: seq<Entry>, timeout: int, now: int): seq<Entry> {
    if c == [] then []
    else
      var e := c[|c| - 1];
      Live(c[..|c| - 1], timeout, now) + (if Expired(e, timeout, now) then [] else [e])
  }

  /** The places of the entries that a notification at `now` finds within their time. */
  function LiveAt(c: seq<Entry>, timeout: int, now: int): (at: seq<nat>)
    ensures forall k :: 0 <= k < |at| ==> at[k] < |c|
    ensures forall j, k :: 0 <= j < k < |at| ==> at[j] < at[k]
  {
    if c == [] then []
    else
      LiveAt(c[..|c| - 1], timeout, now) + (if now <= c[|c| - 1].itime + timeout then [|c| - 1] else [])
  }

  lemma {:induction false} LivePlaceIff(c: seq<Entry>, timeout: int, now: int, i: nat)
    ensures i in LiveAt(c, timeout, now) <==> i < |c| && now <= c[i].itime + timeout
    decreases |c|
  {
    if c != [] {
      LivePlaceIff(c[..|c| - 1], timeout, now, i);
    }
  }

  lemma {:induction false} LiveAtPlaces(c: seq<Entry>, timeout: int, now: int)
    ensures var at, l := LiveAt(c, timeout, now), Live(c, timeout, now);
            |l| == |at| && forall k :: 0 <= k < |at| ==> at[k] < |c| && l[k] == c[at[k]]
    decreases |c|
  {
    if c != [] {
      LiveAtPlaces(c[..|c| - 1], timeout, now);
    }
  }

  /** Exactly the entries whose time and the timeout are not over are live, and they are taken in list order. */
  lemma LiveInOrder(c: seq<Entry>, timeout: int, now: int)
    ensures var at, l := LiveAt(c, timeout, now), Live(c, timeout, now);
            && |l| == |at| && (forall k :: 0 <= k < |at| ==> at[k] < |c| && l[k] == c[at[k]])
            && (forall j, k :: 0 <= j < k < |at| ==> at[j] < at[k])
            && (forall i: nat :: i in at <==> i < |c| && now <= c[i].itime + timeout)
  {
    hide Live, LiveAt;
    LiveAtPlaces(c, timeout, now);
    forall i: nat ensures i in LiveAt(c, timeout, now) <==> i < |c| && now <= c[i].itime + timeout {
      LivePlaceIff(c, timeout, now, i);
    }
  }

  /** So a notification signals a process exactly if one of its entries is within its time. */
  lemma SignalledIff(c: seq<Entry>, timeout: int, now: int, pid: int)
    ensures pid in Pids(Live(c, timeout, now)) <==> exists e :: e in c && e.pid == pid && now <= e.itime + timeout
  {
    var l := Live(c, timeout, now);
    if pid in Pids(l) {
      var k :| 0 <= k < |l| && Pids(l)[k] == pid;
      LiveMembers(c, timeout, now, l[k]);
    }
    if e :| e in c && e.pid == pid && now <= e.itime + timeout {
      LiveMembers(c, timeout, now, e);
      var k :| 0 <= k < |l| && l[k] == e;
      assert Pids(l)[k] == pid;
    }
  }

  lemma SignalsLive(c: seq<Entry>, timeout: int, now: int)
    ensures forall pid :: pid in Pids(Live(c, timeout, now)) <==> HasLive(c, timeout, now, pid)
  {
    forall pid ensures pid in Pids(Live(c, timeout, now)) <==> HasLive(c, timeout, now, pid) {
      SignalledIff(c, timeout, now, pid);
    }
  }

  /** The process has an entry whose time and the timeout are not over. */
  ghost predicate HasLive(c: seq<Entry>, timeout: int, now: int, pid: int) {
    exists e :: e in c && e.pid == pid && now <= e.itime + timeout
  }

  /** And of the list it keeps an entry that is within its time, unless a process is looked up that has a later one. */
  lemma WalkStep(c: seq<Entry>, e: Entry, timeout: int, now: int)
    ensures Walk(c + [e], timeout, now) ==
            if now <= e.itime + timeout then Walk(c, timeout, now) + [e]
            else RemoveFirst(Walk(c, timeout, now) + [e], e.pid)
  {
    assert (c + [e])[..|c|] == c;
  }

  function Pids(c: seq<Entry>): (p: seq<int>)
    ensures |p| == |c|
  {
    seq(|c|, i requires 0 <= i < |c| => c[i].pid)
  }

  /** No process has a live entry in front of an expired one. */
  predicate Orderly(c: seq<Entry>, timeout: int, now: int) {
    forall i, j :: 0 <= i < j < |c| ==> OrderlyAt(c, timeout, now, i, j)
  }

  predicate OrderlyAt(c: seq<Entry>, timeout: int, now: int, i: nat, j: nat)
    requires i < |c| && j < |c|
  {
    c[i].pid == c[j].pid && Expired(c[j], timeout, now) ==> Expired(c[i], timeout, now)
  }

  lemma {:induction false} LiveMembers(c: seq<Entry>, timeout: int, now: int, e: Entry)
    ensures e in Live(c, timeout, now) <==> e in c && !Expired(e, timeout, now)
    decreases |c|
  {
    if c != [] {
      LiveMembers(c[..|c| - 1], timeout, now, e);
      assert e in c <==> e in c[..|c| - 1] || e == c[|c| - 1];
    }
  }

  lemma FirstOfAppend(a: seq<Entry>, b: seq<Entry>, pid: int)
    ensures FirstOf(a + b, pid) == if FirstOf(a, pid) < |a| then FirstOf(a, pid) else |a| + FirstOf(b, pid)
  {
    var i, k := FirstOf(a + b, pid), if FirstOf(a, pid) < |a| then FirstOf(a, pid) else |a| + FirstOf(b, pid);
    assert forall j :: 0 <= j < k ==> (a + b)[j].pid != pid;
    assert k < |a + b| ==> (a + b)[k].pid == pid;
  }

  /** Once an expired entry has been left behind, one is left behind for good. */
  predicate Stale(c: seq<Entry>, timeout: int, now: int) {
    exists i :: 0 <= i < |c| && Expired(c[i], timeout, now)
  }

  lemma StaleStays(c: seq<Entry>, e: Entry, timeout: int, now: int)
    requires Stale(c, timeout, now) && Expired(e, timeout, now)
    ensures Stale(RemoveFirst(c + [e], e.pid), timeout, now)
  {
    var i :| 0 <= i < |c| && Expired(c[i], timeout, now);
    var d, k := c + [e], FirstOf(c + [e], e.pid);
    FirstOfAppend(c, [e], e.pid);
    var r := RemoveFirst(d, e.pid);
    if k == i {
      assert r[|c| - 1] == e;
    } else {
      assert r[if i < k then i else i - 1] == c[i];
    }
  }

  /**
   The walk leaves exactly the live entries exactly when no process has a live entry in front of an expired
   one: expired entries are looked up again by process, from the front.
   */
  lemma {:induction false} WalkLeavesLiveIff(c: seq<Entry>, timeout: int, now: int)
    ensures Walk(c, timeout, now) == Live(c, timeout, now) <==> Orderly(c, timeout, now)
    ensures !Orderly(c, timeout, now) ==> Stale(Walk(c, timeout, now), timeout, now)
    decreases |c|
  {
    if c != [] {
      var n := |c| - 1;
      var a, e := c[..n], c[n];
      var w, l := Walk(a, timeout, now), Live(a, timeout, now);
      WalkLeavesLiveIff(a, timeout, now);
      OrderlyPrefix(c, timeout, now);
      if !Orderly(a, timeout, now) {
        if Expired(e, timeout, now) {
          StaleStays(w, e, timeout, now);
        } else {
          StaleGrows(w, e, timeout, now);
        }
        StaleIsNotLive(c, timeout, now);
      } else if Expired(e, timeout, now) {
        LastExpired(a, e, timeout, now);
        assert a + [e] == c;
        if !Orderly(c, timeout, now) {
          StaleIsNotLive(c, timeout, now);
        }
      } else {
        assert Orderly(c, timeout, now);
      }
    }
  }

  lemma StaleGrows(c: seq<Entry>, e: Entry, timeout: int, now: int)
    requires Stale(c, timeout, now)
    ensures Stale(c + [e], timeout, now)
  {
    var i :| 0 <= i < |c| && Expired(c[i], timeout, now);
    assert (c + [e])[i] == c[i];
  }

  lemma StaleIsNotLive(c: seq<Entry>, timeout: int, now: int)
    ensures !Stale(Live(c, timeout, now), timeout, now)
  {
    var l := Live(c, timeout, now);
    forall i | 0 <= i < |l| ensures !Expired(l[i], timeout, now) {
      LiveMembers(c, timeout, now, l[i]);
    }
  }

  /** What one more entry means for the order of a list. */
  lemma OrderlyPrefix(c: seq<Entry>, timeout: int, now: int)
    requires c != []
    ensures var n := |c| - 1;
            Orderly(c, timeout, now) <==>
            Orderly(c[..n], timeout, now) && forall i :: 0 <= i < n ==> OrderlyAt(c, timeout, now, i, n)
  {
    var n := |c| - 1;
    var a := c[..n];
    if Orderly(c, timeout, now) {
      forall i, j | 0 <= i < j < n ensures OrderlyAt(a, timeout, now, i, j) {
        assert OrderlyAt(c, timeout, now, i, j);
      }
    }
    if Orderly(a, timeout, now) && forall i :: 0 <= i < n ==> OrderlyAt(c, timeout, now, i, n) {
      forall i, j | 0 <= i < j < |c| ensures OrderlyAt(c, timeout, now, i, j) {
        assert j < n ==> OrderlyAt(a, timeout, now, i, j);
      }
    }
  }

  /** An expired entry behind an orderly list: looking it up finds it, or a live entry of its process. */
  lemma LastExpired(a: seq<Entry>, e: Entry, timeout: int, now: int)
    requires Orderly(a, timeout, now) && Expired(e, timeout, now)
    ensures var l := Live(a, timeout, now);
            if Orderly(a + [e], timeout, now) then RemoveFirst(l + [e], e.pid) == l
            else Stale(RemoveFirst(l + [e], e.pid), timeout, now)
  {
    var l, c := Live(a, timeout, now), a + [e];
    assert c[..|a|] == a;
    OrderlyPrefix(c, timeout, now);
    FirstOfAppend(l, [e], e.pid);
    var k := FirstOf(l, e.pid);
    if k < |l| {
      LiveMembers(a, timeout, now, l[k]);
      var i :| 0 <= i < |a| && a[i] == l[k];
      assert !OrderlyAt(c, timeout, now, i, |a|);
      var r := RemoveFirst(l + [e], e.pid);
      assert r[|l| - 1] == e;
    } else {
      assert RemoveFirst(l + [e], e.pid) == l;
      forall i | 0 <= i < |a| ensures OrderlyAt(c, timeout, now, i, |a|) {
        LiveMembers(a, timeout, now, a[i]);
        if a[i] in l {
          var m :| 0 <= m < |l| && l[m] == a[i];
          assert l[m].pid != e.pid;
        }
      }
    }
  }

  /** The entries of one process, in order. */
  function Own(c: seq<Entry>, pid: int): seq<Entry> {
    if c == [] then []
    else Own(c[..|c| - 1], pid) + (if c[|c| - 1].pid == pid then [c[|c| - 1]] else [])
  }

  lemma {:induction false} OwnAppend(a: seq<Entry>, b: seq<Entry>, pid: int)
    ensures Own(a + b, pid) == Own(a, pid) + Own(b, pid)
    decreases |b|
  {
    if b == [] {
      assert a + b == a;
    } else {
      assert (a + b)[..|a + b| - 1] == a + b[..|b| - 1];
      OwnAppend(a, b[..|b| - 1], pid);
    }
  }

  lemma {:induction false} OwnNone(c: seq<Entry>, pid: int)
    requires forall i :: 0 <= i < |c| ==> c[i].pid != pid
    ensures Own(c, pid) == []
    decreases |c|
  {
    if c != [] {
      OwnNone(c[..|c| - 1], pid);
    }
  }

  lemma OwnSingle(e: Entry, pid: int)
    ensures Own([e], pid) == if e.pid == pid then [e] else []
  {
    assert [e][..0] == [];
  }

  lemma {:induction false} OwnMembers(c: seq<Entry>, pid: int, e: Entry)
    ensures e in Own(c, pid) <==> e in c && e.pid == pid
    decreases |c|
  {
    if c != [] {
      OwnMembers(c[..|c| - 1], pid, e);
      assert e in c <==> e in c[..|c| - 1] || e == c[|c| - 1];
    }
  }

  /** Looking up one process takes its first entry, and none of any other process. */
  lemma OwnRemoved(c: seq<Entry>, who: int, pid: int)
    ensures Own(RemoveFirst(c, who), pid) ==
            if who == pid && Own(c, pid) != [] then Own(c, pid)[1..] else Own(c, pid)
  {
    hide Own;
    var i := FirstOf(c, who);
    if i < |c| {
      assert c == c[..i] + ([c[i]] + c[i + 1..]) && RemoveFirst(c, who) == c[..i] + c[i + 1..];
      OwnAppend(c[..i], [c[i]] + c[i + 1..], pid);
      OwnAppend([c[i]], c[i + 1..], pid);
      OwnAppend(c[..i], c[i + 1..], pid);
      OwnSingle(c[i], pid);
      if who == pid {
        OwnNone(c[..i], pid);
      }
    } else if who == pid {
      OwnNone(c, pid);
    }
  }

  /** A notification leaves a process all its entries if they are within their time. */
  lemma {:induction false} OwnWalk(c: seq<Entry>, timeout: int, now: int, pid: int)
    requires forall e :: e in Own(c, pid) ==> now <= e.itime + timeout
    ensures Own(Walk(c, timeout, now), pid) == Own(c, pid)
    decreases |c|
  {
    if c != [] {
      var a, e := c[..|c| - 1], c[|c| - 1];
      OwnWalk(a, timeout, now, pid);
      assert c == a + [e];
      OwnAppend(a, [e], pid);
      OwnAppend(Walk(a, timeout, now), [e], pid);
      OwnSingle(e, pid);
      WalkStep(a, e, timeout, now);
      if e.pid == pid {
        assert e in Own(c, pid);
      } else {
        OwnRemoved(Walk(a, timeout, now) + [e], e.pid, pid);
      }
    }
  }

  /** And takes its only entry when that is not. */
  lemma OwnWalkedOut(c: seq<Entry>, timeout: int, now: int, pid: int, e: Entry)
    requires Own(c, pid) == [e] && e.itime + timeout < now
    ensures Own(Walk(c, timeout, now), pid) == []
  {
    OwnMembers(c, pid, e);
    var i :| 0 <= i < |c| && c[i] == e;
    OwnAppend(c[..i], [e] + c[i + 1..], pid);
    OwnAppend([e], c[i + 1..], pid);
    OwnSingle(e, pid);
    assert c == c[..i] + ([e] + c[i + 1..]);
    assert |Own(c[..i], pid)| + 1 + |Own(c[i + 1..], pid)| == 1;
    WalkedOutFrom(c[..i], e, c[i + 1..], timeout, now, pid);
  }

  lemma {:induction false} WalkedOutFrom(a: seq<Entry>, e: Entry, b: seq<Entry>, timeout: int, now: int, pid: int)
    requires Own(a, pid) == [] && Own(b, pid) == [] && e.pid == pid && e.itime + timeout < now
    ensures Own(Walk(a + ([e] + b), timeout, now), pid) == []
    decreases |b|
  {
    if b == [] {
      assert a + ([e] + b) == a + [e];
      OwnWalk(a, timeout, now, pid);
      OwnAppend(Walk(a, timeout, now), [e], pid);
      OwnSingle(e, pid);
      WalkStep(a, e, timeout, now);
      OwnRemoved(Walk(a, timeout, now) + [e], pid, pid);
    } else {
      var front, f := b[..|b| - 1], b[|b| - 1];
      assert b == front + [f] && a + ([e] + b) == (a + ([e] + front)) + [f];
      OwnAppend(front, [f], pid);
      OwnSingle(f, pid);
      WalkedOutFrom(a, e, front, timeout, now, pid);
      var w := Walk(a + ([e] + front), timeout, now);
      WalkStep(a + ([e] + front), f, timeout, now);
      OwnAppend(w, [f], pid);
      OwnRemoved(w + [f], f.pid, pid);
    }
  }

  /** No process is listed twice. */
  predicate OneEach(c: seq<Entry>) {
    forall i, j :: 0 <= i < j < |c| ==> c[i].pid != c[j].pid
  }

  /** One entry per process is enough. */
  lemma OnePerProcess(c: seq<Entry>, timeout: int, now: int)
    requires OneEach(c)
    ensures Walk(c, timeout, now) == Live(c, timeout, now)
  {
    assert Orderly(c, timeout, now);
    WalkLeavesLiveIff(c, timeout, now);
  }

  lemma {:induction false} LiveOneEach(c: seq<Entry>, timeout: int, now: int)
    requires OneEach(c)
    ensures OneEach(Live(c, timeout, now))
    decreases |c|
  {
    if c != [] {
      var a, e := c[..|c| - 1], c[|c| - 1];
      LiveOneEach(a, timeout, now);
      var l := Live(a, timeout, now);
      forall i | 0 <= i < |l| ensures l[i].pid != e.pid {
        LiveMembers(a, timeout, now, l[i]);
        var j :| 0 <= j < |a| && a[j] == l[i];
        assert c[j] == a[j];
      }
    }
  }

  /** A list stays free of repeated processes as long as no process registers while it is listed. */
  lemma StaysOneEach(m: Message, c: seq<Entry>, timeout: int)
    requires OneEach(c)
    requires m.msg == IDLE_INIT ==> FirstOf(c, m.pid) == |c|
    ensures OneEach(After(m, c, timeout))
  {
    if m.msg == IDLE_NOTIFY {
      OnePerProcess(c, timeout, m.now);
      LiveOneEach(c, timeout, m.now);
    }
  }

  /** A process that registered twice: the walk drops its live entry and keeps the expired one. */
  lemma TwoEntriesOfOneProcess()
    ensures var c := [Entry(7, 100), Entry(7, 0)];
            Walk(c, 10, 50) == [Entry(7, 0)] && Live(c, 10, 50) == [Entry(7, 100)]
  {
    var c := [Entry(7, 100), Entry(7, 0)];
    assert c[..1] == [Entry(7, 100)] && c[..1][..0] == [];
    assert Walk(c[..1], 10, 50) == [] + [Entry(7, 100)] == [Entry(7, 100)];
    assert [Entry(7, 100)] + [Entry(7, 0)] == c;
    assert FirstOf(c, 7) == 0;
    assert Live(c[..1], 10, 50) == [] + [Entry(7, 100)] == [Entry(7, 100)];
  }

  /** The message of a client; any other number is logged and ignored. */
  datatype Msg = IDLE_INIT | IDLE_NOTIFY | IDLE_DONE | IDLE_NOOP | Unrecognized

  function Ptr(p: Ientry?): Option<Ientry> {
    if p == null then None else Some(p)
  }

  class Daemon {
    var itable: map<string, Ientry?>
    var ifreelist: Ientry?
    const idleTimeout: int
    ghost var shape: Shape<Ientry>

    /** The fields of a node are what the shape says. */
    ghost static predicate Mirrors(h: Shape<Ientry>, n: Ientry)
      reads n
    {
      && n in h.next && Ptr(n.next) == h.next[n]
      && n in h.info && h.info[n] == Entry(n.pid, n.itime)
    }

    ghost predicate Headed(k: string)
      reads this
    {
      if k in itable then Some(k) in shape.heads && shape.heads[Some(k)] == Ptr(itable[k]) else Some(k) !in shape.heads
    }

    ghost predicate Valid()
      reads this, shape.next.Keys
    {
      && WellShaped(shape) && shape.heads[FREE] == Ptr(ifreelist)
      && (forall k: string :: Headed(k))
      && forall n {:trigger Mirrors(shape, n)} :: n in shape.next ==> Mirrors(shape, n)
    }

    constructor (idleTimeout: int)
      ensures Valid() && itable == map[] && shape.next == map[] && this.idleTimeout == idleTimeout
    {
      this.idleTimeout := idleTimeout;
      itable, ifreelist := map[], null;
      shape := Shape(map[], map[], map[], map[FREE := None], map[FREE := []]);
    }

    /** hash_lookup: a mailbox that was never seen has no list. */
    method Lookup(mboxname: string) returns (t: Ientry?)
      requires Valid()
      ensures Ptr(t) == HeadOf(ListOf(shape, Some(mboxname)))
    {
      t := if mboxname in itable then itable[mboxname] else null;
      assert Headed(mboxname);
      assert Some(mboxname) in shape.lists ==> ListOk(shape, Some(mboxname));
    }

    /** xmalloc of a block of nodes. */
    method NewNodes() returns (block: seq<Ientry>)
      requires Valid()
      ensures |block| == ITABLE_INC && fresh(block) && NewBlock(shape, block)
    {
      block := [];
      for i := 0 to ITABLE_INC
        invariant |block| == i && fresh(block) && NewBlock(shape, block)
      {
        var n := new Ientry();
        MoreNew(shape, block, n);
        block := block + [n];
      }
    }

    /** n[i].next = n + (i + 1), and NULL for the last one */
    static method LinkBlock(block: seq<Ientry>)
      requires |block| == ITABLE_INC && forall i, j :: 0 <= i < j < |block| ==> DifferAt(block, i, j)
      modifies block
      ensures forall i :: 0 <= i < |block| ==> LinksOn(block, i)
    {
      for i := 0 to ITABLE_INC - 1
        invariant forall j :: 0 <= j < i ==> LinksOn(block, j)
      {
        label Before:
        block[i].next := block[i + 1];
        forall j | 0 <= j < i + 1 ensures LinksOn(block, j) {
          assert j < i ==> DifferAt(block, j, i) && old@Before(LinksOn(block, j));
        }
      }
      label Last:
      block[ITABLE_INC - 1].next := null;
      forall j | 0 <= j < ITABLE_INC ensures LinksOn(block, j) {
        assert j < ITABLE_INC - 1 ==> DifferAt(block, j, ITABLE_INC - 1) && old@Last(LinksOn(block, j));
      }
    }

    ghost static predicate LinksOn(block: seq<Ientry>, i: nat)
      requires i < |block|
      reads block[i]
    {
      Ptr(block[i].next) == HeadOf(block[i + 1..])
    }

    static ghost function InfoOf(block: seq<Ientry>): (e: seq<Entry>)
      reads block
      ensures |e| == |block| && forall i :: 0 <= i < |block| ==> e[i] == Entry(block[i].pid, block[i].itime)
    {
      if block == [] then [] else [Entry(block[0].pid, block[0].itime)] + InfoOf(block[1..])
    }

    /** A linked block of new nodes becomes the free list. */
    method Adopt(block: seq<Ientry>)
      requires Valid() && ifreelist == null && block != [] && NewBlock(shape, block)
      requires forall i :: 0 <= i < |block| ==> LinksOn(block, i)
      modifies this`ifreelist, this`shape
      ensures Valid() && ifreelist != null && SameContents(old(shape), shape)
      ensures forall n :: n in shape.next <==> n in old(shape.next) || n in block
      ensures |shape.next| == old(|shape.next|) + |block| && FreeCount(shape) == |block|
    {
      ghost var h, e := shape, InfoOf(block);
      ghost var g := PushBlock(h, block, e);
      BlockMirrors(h, block, e);
      BlockContents(h, block, e);
      FillFree(h, block, e);
      ifreelist := block[0];
      shape := g;
      forall k: string ensures Headed(k) {
        assert old(Headed(k));
      }
    }

    static lemma BlockMirrors(h: Shape<Ientry>, block: seq<Ientry>, e: seq<Entry>)
      requires WellShaped(h) && NewBlock(h, block) && e == InfoOf(block) && block != []
      requires forall n {:trigger Mirrors(h, n)} :: n in h.next ==> Mirrors(h, n)
      requires h.heads[FREE] == None
      requires forall i :: 0 <= i < |block| ==> LinksOn(block, i)
      ensures var g := PushBlock(h, block, e);
              && WellShaped(g) && (forall n {:trigger Mirrors(g, n)} :: n in g.next ==> Mirrors(g, n))
              && (forall n :: n in g.next <==> n in h.next || n in block)
    {
      var g := PushBlock(h, block, e);
      PushBlockKeeps(h, block, e);
      FillFree(h, block, e);
      FillKeeps(h, block, e);
      forall n | n in g.next ensures Mirrors(g, n) {
        if n in block {
          var i :| 0 <= i < |block| && block[i] == n;
          assert BlockAt(g, block, e, i) && LinksOn(block, i);
        } else {
          assert SameNode(h, g, n) && Mirrors(h, n);
        }
      }
    }

    /** The first node of the free list. */
    method TakeFree() returns (t: Ientry)
      requires Valid() && ifreelist != null
      modifies this`ifreelist, this`shape
      ensures Valid() && t !in shape.next && shape.next.Keys + {t} == old(shape.next.Keys)
      ensures |shape.next| + 1 == old(|shape.next|) && SameContents(old(shape), shape)
      ensures FreeCount(shape) + 1 == old(FreeCount(shape))
    {
      ghost var h := shape;
      FreeHead(h);
      UnlinkNodes(h, FREE, 0);
      UnlinkKeeps(h, FREE, 0);
      PopFree(h);
      PopContents(h);
      t := ifreelist;
      assert Mirrors(h, t);
      ifreelist := ifreelist.next;
      shape := Unlink(h, FREE, 0);
      forall n | n in shape.next ensures Mirrors(shape, n) {
        assert Mirrors(h, n);
      }
      forall k: string ensures Headed(k) {
        assert old(Headed(k));
      }
    }

    /** get_ientry: a node from the free list, which gets a block of new nodes first if it is empty. */
    method GetIentry() returns (t: Ientry)
      requires Valid()
      modifies this`ifreelist, this`shape
      ensures Valid() && t !in shape.next && fresh(shape.next.Keys + {t} - old(shape.next.Keys))
      ensures old(shape.next.Keys) <= shape.next.Keys + {t}
      ensures |shape.next| + 1 == old(|shape.next|) + NewFor(old(FreeCount(shape)))
      ensures FreeCount(shape) + 1 == old(FreeCount(shape)) + NewFor(old(FreeCount(shape)))
      ensures SameContents(old(shape), shape)
    {
      ghost var h := shape;
      FreeHead(h);
      if ifreelist == null {
        var block := NewNodes();
        LinkBlock(block);
        Adopt(block);
      }
      ghost var g := shape;
      t := TakeFree();
      forall k: string ensures SameContent(h, shape, k) {
        assert SameContent(h, g, k) && SameContent(g, shape, k);
      }
    }

    /** A node nobody holds goes to the front of the list of a mailbox. */
    method PushOn(mboxname: string, n: Ientry)
      requires Valid() && n !in shape.next && Ptr(n.next) == HeadOf(ListOf(shape, Some(mboxname)))
      modifies this`itable, this`shape
      ensures Valid() && shape == Push(old(shape), Some(mboxname), n, Entry(n.pid, n.itime))
    {
      ghost var h, e := shape, Entry(n.pid, n.itime);
      PushKeeps(h, Some(mboxname), n, e);
      itable := itable[mboxname := n];
      shape := Push(h, Some(mboxname), n, e);
      forall m | m in shape.next ensures Mirrors(shape, m) {
        assert m != n ==> Mirrors(h, m);
      }
      forall k: string ensures Headed(k) {
        assert old(Headed(k));
      }
    }

    /** IDLE_INIT: a process starts to idle on a mailbox. */
    method Init(mboxname: string, pid: int, now: int)
      requires Valid()
      modifies this`itable, this`ifreelist, this`shape, shape.next.Keys
      ensures Valid()
      ensures ContentOf(shape, mboxname) == [Entry(pid, now)] + ContentOf(old(shape), mboxname)
      ensures ChangedOnly(old(shape), shape, mboxname)
      ensures old(shape.next.Keys) <= shape.next.Keys && fresh(shape.next.Keys - old(shape.next.Keys))
      ensures |shape.next| == old(|shape.next|) + NewFor(old(FreeCount(shape)))
      ensures FreeCount(shape) + 1 == old(FreeCount(shape)) + NewFor(old(FreeCount(shape)))
    {
      ghost var h := shape;
      var n := GetIentry();
      ghost var g := shape;
      var t := Lookup(mboxname);
      SetNode(n, pid, now, t);
      PushOn(mboxname, n);
      OneMoreKey(g.next, n, HeadOf(ListOf(g, Some(mboxname))));
      PushContents(h, g, mboxname, n, Entry(pid, now));
    }

    method SetNode(n: Ientry, pid: int, now: int, t: Ientry?)
      requires Valid() && n !in shape.next
      modifies n
      ensures Valid() && n.pid == pid && n.itime == now && n.next == t
    {
      n.pid := pid;
      n.itime := now;
      n.next := t;
      assert forall m {:trigger Mirrors(shape, m)} :: m in shape.next ==> old(Mirrors(shape, m));
    }

    /** The walk of idle_done: the first node of the process and the one before it. */
    method Find(mboxname: string, pid: int) returns (t: Ientry?, p: Ientry?, ghost i: nat)
      requires Valid()
      ensures i == FirstOf(ContentOf(shape, mboxname), pid)
      ensures var s := ListOf(shape, Some(mboxname)); Ptr(t) == HeadOf(s[i..]) && Ptr(p) == if i == 0 then None else Some(s[i - 1])
    {
      ghost var s, c := ListOf(shape, Some(mboxname)), ContentOf(shape, mboxname);
      t := Lookup(mboxname);
      p, i := null, 0;
      assert s[0..] == s;
      assert Some(mboxname) in shape.lists ==> ListOk(shape, Some(mboxname));
      while t != null && t.pid != pid
        invariant i <= |s| && Ptr(t) == HeadOf(s[i..]) && Ptr(p) == if i == 0 then None else Some(s[i - 1])
        invariant forall j :: 0 <= j < i ==> c[j].pid != pid
        decreases |s| - i
      {
        assert LinkedAt(shape.next, s, i) && Mirrors(shape, s[i]);
        p := t;
        t := t.next;
        i := i + 1;
      }
      if i < |s| {
        assert LinkedAt(shape.next, s, i) && Mirrors(shape, s[i]);
      }
      FirstIs(c, pid, i);
    }

    /** p->next = t->next, or a new head for the mailbox. */
    method Detach(mboxname: string, t: Ientry, p: Ientry?, ghost i: nat)
      requires Valid() && i < |ListOf(shape, Some(mboxname))| && t == ListOf(shape, Some(mboxname))[i]
      requires Ptr(p) == if i == 0 then None else Some(ListOf(shape, Some(mboxname))[i - 1])
      modifies this`itable, this`shape, p
      ensures Valid() && shape == Unlink(old(shape), Some(mboxname), i) && t !in shape.next
      ensures t.pid == old(t.pid) && t.itime == old(t.itime) && old(t in shape.info && shape.info[t] == Entry(t.pid, t.itime))
    {
      ghost var h, w := shape, Some(mboxname);
      UnlinkNodes(h, w, i);
      UnlinkKeeps(h, w, i);
      assert Mirrors(h, t) && Headed(mboxname);
      if p == null {
        itable := itable[mboxname := t.next];
      } else {
        assert Mirrors(h, p);
        p.next := t.next;
      }
      shape := Unlink(h, w, i);
      forall n | n in shape.next ensures Mirrors(shape, n) {
        assert old(Mirrors(shape, n));
      }
      forall k: string ensures Headed(k) {
        assert old(Headed(k));
      }
    }

    /** A node nobody holds goes to the free list. */
    method Release(t: Ientry)
      requires Valid() && t !in shape.next
      modifies this`ifreelist, this`shape, t`next
      ensures Valid() && shape == Push(old(shape), FREE, t, Entry(t.pid, t.itime))
    {
      ghost var h, e := shape, Entry(t.pid, t.itime);
      FreeHead(h);
      PushKeeps(h, FREE, t, e);
      t.next := ifreelist;
      ifreelist := t;
      shape := Push(h, FREE, t, e);
      forall n | n in shape.next ensures Mirrors(shape, n) {
        assert n != t ==> old(Mirrors(shape, n));
      }
      forall k: string ensures Headed(k) {
        assert old(Headed(k));
      }
    }

    /** idle_done: the first entry of the process leaves the list of the mailbox. */
    method IdleDone(mboxname: string, pid: int)
      requires Valid()
      modifies this`itable, this`ifreelist, this`shape, shape.next.Keys
      ensures Valid() && shape.next.Keys == old(shape.next.Keys)
      ensures var i, s := FirstOf(ContentOf(old(shape), mboxname), pid), ListOf(old(shape), Some(mboxname));
              ListOf(shape, Some(mboxname)) == if i < |s| then RemoveAt(s, i) else s
      ensures ContentOf(shape, mboxname) == RemoveFirst(ContentOf(old(shape), mboxname), pid)
      ensures ChangedOnly(old(shape), shape, mboxname) && Conserved(old(shape), shape, mboxname)
    {
      ghost var h := shape;
      ghost var i;
      var t, p;
      t, p, i := Find(mboxname, pid);
      if t != null {
        DroppedContents(h, mboxname, i);
        UnlinkNodes(h, Some(mboxname), i);
        Detach(mboxname, t, p, i);
        Release(t);
        assert shape == Dropped(h, mboxname, i);
      }
    }

    /** The walk has passed `x` and stands on `y`, whose process is looked up again from the front. */
    method DropExpired(mboxname: string, pid: int, ghost x: seq<Ientry>, ghost y: Ientry, ghost rest: seq<Ientry>,
                       ghost w: seq<Entry>, ghost e: Entry, ghost more: seq<Entry>)
      returns (ghost left: seq<Ientry>)
      requires Valid() && ListOf(shape, Some(mboxname)) == x + ([y] + rest)
      requires ContentOf(shape, mboxname) == w + ([e] + more) && |w| == |x| && e.pid == pid
      modifies this`itable, this`ifreelist, this`shape, shape.next.Keys
      ensures Valid() && shape.next.Keys == old(shape.next.Keys)
      ensures ListOf(shape, Some(mboxname)) == left + rest && ContentOf(shape, mboxname) == RemoveFirst(w + [e], pid) + more
      ensures ChangedOnly(old(shape), shape, mboxname) && Conserved(old(shape), shape, mboxname)
    {
      ghost var k := FirstOf(ContentOf(shape, mboxname), pid);
      WalkDrops(w, e, more);
      IdleDone(mboxname, pid);
      RemoveAtFront(x, y, rest, k);
      left := RemoveAt(x + [y], k);
    }

    /** The walk of a notification after `i` of the nodes `s` with contents `c`; it left `x` of those behind. */
    ghost predicate Walking(h: Shape<Ientry>, mboxname: string, now: int, s: seq<Ientry>, c: seq<Entry>,
                            i: nat, x: seq<Ientry>, signals: seq<int>)
      reads this, shape.next.Keys
    {
      && Valid() && shape.next.Keys == h.next.Keys && ChangedOnly(h, shape, mboxname) && Conserved(h, shape, mboxname)
      && i <= |s| == |c| && ListOf(shape, Some(mboxname)) == x + s[i..]
      && ContentOf(shape, mboxname) == Walk(c[..i], idleTimeout, now) + c[i..]
      && signals == Pids(Live(c[..i], idleTimeout, now))
    }

    lemma WalkBegins(mboxname: string, now: int)
      requires Valid()
      ensures Walking(shape, mboxname, now, ListOf(shape, Some(mboxname)), ContentOf(shape, mboxname), 0, [], [])
    {
      var s, c := ListOf(shape, Some(mboxname)), ContentOf(shape, mboxname);
      assert s[0..] == s && c[0..] == c && c[..0] == [];
    }

    lemma WalkEnds(h: Shape<Ientry>, mboxname: string, now: int, s: seq<Ientry>, c: seq<Entry>, i: nat, x: seq<Ientry>,
                   signals: seq<int>)
      requires Walking(h, mboxname, now, s, c, i, x, signals) && i == |s|
      ensures ContentOf(shape, mboxname) == Walk(c, idleTimeout, now) && signals == Pids(Live(c, idleTimeout, now))
      ensures forall pid :: pid in signals <==> HasLive(c, idleTimeout, now, pid)
    {
      assert c[..i] == c && c[i..] == [];
      SignalsLive(c, idleTimeout, now);
    }

    /** One step of the walk. */
    method Step(t: Ientry, mboxname: string, now: int, signals: seq<int>,
                ghost h: Shape<Ientry>, ghost s: seq<Ientry>, ghost c: seq<Entry>, ghost i: nat, ghost x: seq<Ientry>)
      returns (t': Ientry?, signals': seq<int>, ghost x': seq<Ientry>)
      requires Walking(h, mboxname, now, s, c, i, x, signals) && Ptr(t) == HeadOf(s[i..])
      modifies this`itable, this`ifreelist, this`shape, shape.next.Keys
      ensures i < |s| && Walking(h, mboxname, now, s, c, i + 1, x', signals') && Ptr(t') == HeadOf(s[i + 1..])
    {
      OnList(t, mboxname, x, s, i, c, now);
      HeadTail(s, i);
      HeadTail(c, i);
      OneMoreTaken(c, i);
      ghost var w, g := Walk(c[..i], idleTimeout, now), shape;
      t', signals' := t.next, signals;
      if t.itime + idleTimeout < now {
        x' := DropExpired(mboxname, t.pid, x, s[i], s[i + 1..], w, c[i], c[i + 1..]);
        OnlyOnward(h, g, shape, mboxname);
      } else {
        PidsGrow(Live(c[..i], idleTimeout, now), c[i]);
        signals' := signals + [t.pid];
        x' := x + [s[i]];
        Reassociate(x, s[i], s[i + 1..]);
        Reassociate(w, c[i], c[i + 1..]);
      }
    }

    /** IDLE_NOTIFY: signal who idles on the mailbox, and drop who has been idle for too long. */
    method Notify(mboxname: string, now: int) returns (signals: seq<int>)
      requires Valid()
      modifies this`itable, this`ifreelist, this`shape, shape.next.Keys
      ensures Valid() && shape.next.Keys == old(shape.next.Keys)
      ensures signals == Pids(Live(ContentOf(old(shape), mboxname), idleTimeout, now))
      // A process is signalled exactly if it has an entry whose time and the timeout are not over.
      ensures forall pid :: pid in signals <==> HasLive(ContentOf(old(shape), mboxname), idleTimeout, now, pid)
      ensures ContentOf(shape, mboxname) == Walk(ContentOf(old(shape), mboxname), idleTimeout, now)
      ensures ChangedOnly(old(shape), shape, mboxname) && Conserved(old(shape), shape, mboxname)
    {
      hide HasLive, Walk, Live, Pids;
      ghost var h, s, c := shape, ListOf(shape, Some(mboxname)), ContentOf(shape, mboxname);
      ghost var x: seq<Ientry> := [];
      ghost var i: nat := 0;
      var t := Lookup(mboxname);
      signals := [];
      WalkBegins(mboxname, now);
      assert s[0..] == s;
      while t != null
        invariant Walking(h, mboxname, now, s, c, i, x, signals) && Ptr(t) == HeadOf(s[i..])
        decreases |s| - i
      {
        t, signals, x := Step(t, mboxname, now, signals, h, s, c, i, x);
        i := i + 1;
      }
      WalkEnds(h, mboxname, now, s, c, i, x, signals);
    }

    /** What the node the walk stands on is. */
    lemma OnList(t: Ientry, mboxname: string, x: seq<Ientry>, s: seq<Ientry>, i: nat, c: seq<Entry>, now: int)
      requires Valid() && i <= |s| == |c| && Ptr(t) == HeadOf(s[i..]) && ListOf(shape, Some(mboxname)) == x + s[i..]
      requires ContentOf(shape, mboxname) == Walk(c[..i], idleTimeout, now) + c[i..]
      ensures i < |s| && t == s[i] && c[i] == Entry(t.pid, t.itime) && Ptr(t.next) == HeadOf(s[i + 1..])
      ensures |x| == |Walk(c[..i], idleTimeout, now)|
    {
      var l, w := ListOf(shape, Some(mboxname)), Some(mboxname);
      assert l[|x|] == s[i] && w in shape.lists && ListOk(shape, w);
      assert LinkedAt(shape.next, l, |x|) && Mirrors(shape, l[|x|]);
      assert l[|x| + 1..] == s[i + 1..];
      assert ContentOf(shape, mboxname)[|x|] == c[i];
    }

    /** process_msg: the reaction to one message.  The clock is read once. */
    method Process(m: Message) returns (signals: seq<int>)
      requires Valid()
      modifies this`itable, this`ifreelist, this`shape, shape.next.Keys
      ensures Valid()
      ensures ContentOf(shape, m.mboxname) == After(m, ContentOf(old(shape), m.mboxname), idleTimeout)
      ensures ChangedOnly(old(shape), shape, m.mboxname)
      ensures signals == Signalled(m, ContentOf(old(shape), m.mboxname), idleTimeout)
      // No node is lost, and new ones come only when the free list is empty.
      ensures old(shape.next.Keys) <= shape.next.Keys && fresh(shape.next.Keys - old(shape.next.Keys))
      ensures |shape.next| == old(|shape.next|) + NewNodesFor(m, old(FreeCount(shape)))
      ensures FreeCount(shape) == FreeAfter(m, ContentOf(old(shape), m.mboxname), idleTimeout, old(FreeCount(shape)))
    {
      signals := [];
      match m.msg
      case IDLE_INIT =>
        Init(m.mboxname, m.pid, m.now);
      case IDLE_NOTIFY =>
        signals := Notify(m.mboxname, m.now);
        SameCount(old(shape).next, shape.next);
      case IDLE_DONE =>
        IdleDone(m.mboxname, m.pid);
        SameCount(old(shape).next, shape.next);
      case IDLE_NOOP =>
      case Unrecognized =>
    }

    /** The message loop. */
    method Serve(messages: seq<Message>) returns (signals: seq<seq<int>>)
      requires Valid()
      modifies this`itable, this`ifreelist, this`shape, shape.next.Keys
      ensures Valid() && |signals| == |messages|
      ensures forall k: string :: ContentOf(shape, k) == History(ContentOf(old(shape), k), messages, k, idleTimeout)
      ensures forall i :: 0 <= i < |messages| ==> SignalsAt(old(shape), messages, signals, i, idleTimeout)
      // No node is ever lost, and a block of new ones comes exactly when a process starts to idle and none is free.
      ensures old(shape.next.Keys) <= shape.next.Keys && fresh(shape.next.Keys - old(shape.next.Keys))
      ensures Counted(old(shape), shape, messages, idleTimeout)
    {
      signals := [];
      ghost var h := shape;
      assert messages[..0] == [];
      for i := 0 to |messages|
        invariant Valid() && h.next.Keys <= shape.next.Keys && fresh(shape.next.Keys - h.next.Keys)
        invariant Counted(h, shape, messages[..i], idleTimeout)
        invariant Served(h, shape, messages, signals, i, idleTimeout)
      {
        ghost var g := shape;
        var s := Process(messages[i]);
        CountedMore(h, g, shape, messages, i, idleTimeout);
        ServedMore(h, g, shape, messages, signals, i, s, idleTimeout);
        signals := signals + [s];
      }
      assert messages[..|messages|] == messages;
    }
  }

  /** The first `i` messages have led from `h` to `g`, with these signals. */
  ghost predicate Served(h: Shape<Ientry>, g: Shape<Ientry>, messages: seq<Message>, signals: seq<seq<int>>, i: nat, timeout: int) {
    && i <= |messages| && |signals| == i
    && (forall k: string :: ContentOf(g, k) == History(ContentOf(h, k), messages[..i], k, timeout))
    && (forall j :: 0 <= j < i ==> SignalsAt(h, messages, signals, j, timeout))
  }

  lemma ServedMore(h: Shape<Ientry>, g: Shape<Ientry>, f: Shape<Ientry>, messages: seq<Message>, signals: seq<seq<int>>,
                   i: nat, s: seq<int>, timeout: int)
    requires i < |messages| && Served(h, g, messages, signals, i, timeout)
    requires var m := messages[i];
             && ContentOf(f, m.mboxname) == After(m, ContentOf(g, m.mboxname), timeout)
             && s == Signalled(m, ContentOf(g, m.mboxname), timeout) && ChangedOnly(g, f, m.mboxname)
    ensures Served(h, f, messages, signals + [s], i + 1, timeout)
  {
    hide Walk, Live, Pids, RemoveFirst;
    var m := messages[i];
    OneMoreTaken(messages, i);
    assert ContentOf(g, m.mboxname) == History(ContentOf(h, m.mboxname), messages[..i], m.mboxname, timeout);
    forall k: string ensures ContentOf(f, k) == History(ContentOf(h, k), messages[..i + 1], k, timeout) {
      assert ContentOf(g, k) == History(ContentOf(h, k), messages[..i], k, timeout);
      assert k != m.mboxname ==> SameContent(g, f, k);
    }
    forall j | 0 <= j < i + 1 ensures SignalsAt(h, messages, signals + [s], j, timeout) {
      assert j < i ==> SignalsAt(h, messages, signals, j, timeout);
    }
  }

  datatype Message = Message(msg: Msg, mboxname: string, pid: int, now: int)

  /** What a message does to the list of its mailbox. */
  function After(m: Message, c: seq<Entry>, timeout: int): seq<Entry> {
    match m.msg
    case IDLE_INIT => [Entry(m.pid, m.now)] + c
    case IDLE_NOTIFY => Walk(c, timeout, m.now)
    case IDLE_DONE => RemoveFirst(c, m.pid)
    case IDLE_NOOP => c
    case Unrecognized => c
  }

  function Signalled(m: Message, c: seq<Entry>, timeout: int): seq<int> {
    if m.msg == IDLE_NOTIFY then Pids(Live(c, timeout, m.now)) else []
  }

  /** The list of a mailbox after a run of messages to all mailboxes. */
  function History(c: seq<Entry>, messages: seq<Message>, mailbox: string, timeout: int): seq<Entry> {
    if messages == [] then c
    else
      var before, m := History(c, messages[..|messages| - 1], mailbox, timeout), messages[|messages| - 1];
      if m.mboxname == mailbox then After(m, before, timeout) else before
  }

  /** Message `i` neither registers the process on the mailbox, nor takes it off, nor finds it past its time. */
  predicate LeavesAlone(m: Message, mailbox: string, pid: int, since: int, timeout: int) {
    m.mboxname == mailbox ==>
      && (m.msg == IDLE_INIT || m.msg == IDLE_DONE ==> m.pid != pid)
      && (m.msg == IDLE_NOTIFY ==> m.now <= since + timeout)
  }

  /**
   Over a run: a process that registered on a mailbox once, as message `j`, and has not left since is signalled by every
   notification up to the end of its time, once, whatever other processes do; and its entry is all that it has.
   */
  lemma {:induction false} OwnHistory(c: seq<Entry>, messages: seq<Message>, mailbox: string, pid: int, j: nat, n: nat, timeout: int)
    requires j < n <= |messages| && messages[j].msg == IDLE_INIT && messages[j].mboxname == mailbox && messages[j].pid == pid
    requires forall i :: 0 <= i < n && i != j ==> LeavesAlone(messages[i], mailbox, pid, messages[j].now, timeout)
    requires forall e :: e in c ==> e.pid != pid
    ensures Own(History(c, messages[..n], mailbox, timeout), pid) == [Entry(pid, messages[j].now)]
    decreases n
  {
    var m, before := messages[n - 1], History(c, messages[..n - 1], mailbox, timeout);
    assert messages[..n][..n - 1] == messages[..n - 1];
    if n - 1 == j {
      OwnNothingYet(c, messages, mailbox, pid, messages[j].now, j, timeout);
      OwnAppend([Entry(pid, m.now)], before, pid);
      OwnSingle(Entry(pid, m.now), pid);
    } else {
      OwnHistory(c, messages, mailbox, pid, j, n - 1, timeout);
      assert LeavesAlone(m, mailbox, pid, messages[j].now, timeout);
      if m.mboxname == mailbox {
        OwnAfter(before, m, mailbox, pid, messages[j].now, timeout);
      }
    }
  }

  lemma OwnAfter(c: seq<Entry>, m: Message, mailbox: string, pid: int, since: int, timeout: int)
    requires m.mboxname == mailbox && LeavesAlone(m, mailbox, pid, since, timeout)
    requires forall e :: e in Own(c, pid) ==> e.itime == since
    ensures Own(After(m, c, timeout), pid) == Own(c, pid)
  {
    match m.msg
    case IDLE_INIT =>
      OwnAppend([Entry(m.pid, m.now)], c, pid);
      OwnSingle(Entry(m.pid, m.now), pid);
    case IDLE_NOTIFY =>
      OwnWalk(c, timeout, m.now, pid);
    case IDLE_DONE =>
      OwnRemoved(c, m.pid, pid);
    case IDLE_NOOP =>
    case Unrecognized =>
  }

  lemma {:induction false} OwnNothingYet(c: seq<Entry>, messages: seq<Message>, mailbox: string, pid: int, since: int, n: nat,
                                         timeout: int)
    requires n <= |messages| && (forall e :: e in c ==> e.pid != pid)
    requires forall i :: 0 <= i < n ==> LeavesAlone(messages[i], mailbox, pid, since, timeout)
    ensures Own(History(c, messages[..n], mailbox, timeout), pid) == []
    decreases n
  {
    if n == 0 {
      OwnNone(c, pid);
    } else {
      OwnNothingYet(c, messages, mailbox, pid, since, n - 1, timeout);
      assert messages[..n][..n - 1] == messages[..n - 1];
      var m := messages[n - 1];
      assert LeavesAlone(m, mailbox, pid, since, timeout);
      if m.mboxname == mailbox {
        OwnAfter(History(c, messages[..n - 1], mailbox, timeout), m, mailbox, pid, since, timeout);
      }
    }
  }

  /**
   So over a run of the daemon a process that registered once is signalled by every notification of its mailbox as long as
   its time is not over, and by none after that: the first late one takes it off the list.
   */
  lemma SignalledWhileIdle(h: Shape<Ientry>, messages: seq<Message>, signals: seq<seq<int>>, j: nat, i: nat, timeout: int)
    requires j < i < |messages| == |signals| && SignalsAt(h, messages, signals, i, timeout)
    requires messages[j].msg == IDLE_INIT && messages[i].msg == IDLE_NOTIFY && messages[i].mboxname == messages[j].mboxname
    requires forall e :: e in ContentOf(h, messages[j].mboxname) ==> e.pid != messages[j].pid
    requires forall k :: 0 <= k < i && k != j ==>
               LeavesAlone(messages[k], messages[j].mboxname, messages[j].pid, messages[j].now, timeout)
    ensures var m := messages[j];
            && (m.pid in signals[i] <==> messages[i].now <= m.now + timeout)
            && Own(History(ContentOf(h, m.mboxname), messages[..i + 1], m.mboxname, timeout), m.pid) ==
               if messages[i].now <= m.now + timeout then [Entry(m.pid, m.now)] else []
  {
    hide Own, Walk, Live;
    var m, c := messages[j], ContentOf(h, messages[j].mboxname);
    var e, before := Entry(m.pid, m.now), History(c, messages[..i], m.mboxname, timeout);
    OwnHistory(c, messages, m.mboxname, m.pid, j, i, timeout);
    SignalledIff(before, timeout, messages[i].now, m.pid);
    OwnMembers(before, m.pid, e);
    forall f | f in before && f.pid == m.pid ensures f == e {
      OwnMembers(before, m.pid, f);
    }
    assert messages[..i + 1][..i] == messages[..i];
    if messages[i].now <= m.now + timeout {
      OwnWalk(before, timeout, messages[i].now, m.pid);
    } else {
      OwnWalkedOut(before, timeout, messages[i].now, m.pid, e);
    }
  }

  /** How many nodes are made when a node is asked for and so many are free. */
  function NewFor(free: nat): nat {
    if free == 0 then ITABLE_INC else 0
  }

  function NewNodesFor(m: Message, free: nat): nat {
    if m.msg == IDLE_INIT then NewFor(free) else 0
  }

  /** The nodes of the mailbox and the free ones, taken together, are as many as before. */
  ghost predicate Conserved(h: Shape<Ientry>, g: Shape<Ientry>, mboxname: string) {
    FreeCount(g) + |ContentOf(g, mboxname)| == FreeCount(h) + |ContentOf(h, mboxname)|
  }

  /** How many nodes are free after a message: what the mailbox's list loses becomes free. */
  function FreeAfter(m: Message, c: seq<Entry>, timeout: int, free: nat): nat {
    free + |c| + NewNodesFor(m, free) - |After(m, c, timeout)|
  }

  /** How many nodes are free, and how many have been made, after a run of messages. */
  ghost function FreeThen(h: Shape<Ientry>, messages: seq<Message>, timeout: int): nat {
    if messages == [] then FreeCount(h)
    else
      var before, m := messages[..|messages| - 1], messages[|messages| - 1];
      FreeAfter(m, History(ContentOf(h, m.mboxname), before, m.mboxname, timeout), timeout, FreeThen(h, before, timeout))
  }

  ghost function MadeThen(h: Shape<Ientry>, messages: seq<Message>, timeout: int): nat {
    if messages == [] then 0
    else
      var before, m := messages[..|messages| - 1], messages[|messages| - 1];
      MadeThen(h, before, timeout) + NewNodesFor(m, FreeThen(h, before, timeout))
  }

  ghost predicate Counted(h: Shape<Ientry>, g: Shape<Ientry>, messages: seq<Message>, timeout: int) {
    FreeCount(g) == FreeThen(h, messages, timeout) && |g.next| == |h.next| + MadeThen(h, messages, timeout)
  }

  lemma CountedMore(h: Shape<Ientry>, g: Shape<Ientry>, f: Shape<Ientry>, messages: seq<Message>, i: nat, timeout: int)
    requires i < |messages| && Counted(h, g, messages[..i], timeout)
    requires var m := messages[i];
             && ContentOf(g, m.mboxname) == History(ContentOf(h, m.mboxname), messages[..i], m.mboxname, timeout)
             && |f.next| == |g.next| + NewNodesFor(m, FreeCount(g))
             && FreeCount(f) == FreeAfter(m, ContentOf(g, m.mboxname), timeout, FreeCount(g))
    ensures Counted(h, f, messages[..i + 1], timeout)
  {
    OneMoreTaken(messages, i);
    assert messages[..i + 1][..i] == messages[..i] && messages[..i + 1][i] == messages[i];
  }

  /** Message `i` signals those who live on its mailbox by then. */
  ghost predicate SignalsAt(h: Shape<Ientry>, messages: seq<Message>, signals: seq<seq<int>>, i: nat, timeout: int)
    requires i < |messages| && i < |signals|
  {
    var m := messages[i];
    signals[i] == Signalled(m, History(ContentOf(h, m.mboxname), messages[..i], m.mboxname, timeout), timeout)
  }

  lemma SameCount(a: map<Ientry, Option<Ientry>>, b: map<Ientry, Option<Ientry>>)
    requires a.Keys == b.Keys
    ensures |a| == |b|
  {
    assert |a.Keys| == |b.Keys|;
  }

  /** Looking up the process of the entry at hand finds an entry at or before it. */
  lemma WalkDrops(w: seq<Entry>, e: Entry, rest: seq<Entry>)
    ensures FirstOf(w + ([e] + rest), e.pid) <= |w|
    ensures RemoveFirst(w + ([e] + rest), e.pid) == RemoveFirst(w + [e], e.pid) + rest
  {
    FirstOfAppend(w, [e] + rest, e.pid);
    FirstOfAppend(w, [e], e.pid);
    RemoveAtFront(w, e, rest, FirstOf(w + [e], e.pid));
  }

  lemma RemoveAtFront<T>(x: seq<T>, y: T, rest: seq<T>, k: nat)
    requires k <= |x|
    ensures RemoveAt(x + ([y] + rest), k) == RemoveAt(x + [y], k) + rest
  {
  }

  lemma OnlyOnward(h: Shape<Ientry>, g: Shape<Ientry>, f: Shape<Ientry>, mboxname: string)
    requires ChangedOnly(h, g, mboxname) && ChangedOnly(g, f, mboxname)
    ensures ChangedOnly(h, f, mboxname)
  {
    forall k: string | k != mboxname ensures SameContent(h, f, k) {
      assert SameContent(h, g, k) && SameContent(g, f, k);
    }
  }

  lemma HeadTail<T>(s: seq<T>, i: nat)
    requires i < |s|
    ensures s[i..] == [s[i]] + s[i + 1..]
  {
  }

  lemma OneMoreTaken<T>(s: seq<T>, i: nat)
    requires i < |s|
    ensures s[..i + 1][..i] == s[..i] && s[..i + 1][i] == s[i]
  {
  }

  lemma Reassociate<T>(x: seq<T>, y: T, rest: seq<T>)
    ensures x + ([y] + rest) == x + [y] + rest
  {
  }

  lemma PidsGrow(c: seq<Entry>, e: Entry)
    ensures Pids(c + [e]) == Pids(c) + [e.pid]
  {
  }

  lemma FirstIs(c: seq<Entry>, pid: int, i: nat)
    requires i <= |c| && (forall j :: 0 <= j < i ==> c[j].pid != pid) && (i < |c| ==> c[i].pid == pid)
    ensures FirstOf(c, pid) == i
  {
    assert forall j :: 0 <= j < FirstOf(c, pid) ==> c[j].pid != pid;
  }
}
